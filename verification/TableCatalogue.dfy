/** The two keys of a table in storage_impl.go, name to ID and ID to table, under concurrent CreateTable
    and DeleteTable.

    DeleteTable first reads the ID of the name, and later deletes both keys in a transaction that only
    asks whether they exist. In between, other clients may delete and create tables. The model is of one
    schema; the keys of different schemas are disjoint. */
module TableCatalogue {
  import opened Common

  type Client = nat

  datatype Table = Table(id: nat, name: string)

  datatype Phase = Idle | AtCreate(table: Table) | AtGet(name: string) | AtDelete(name: string, id: nat)

  /** `used` remembers for every allocated ID the name it was allocated for. */
  datatype State =
    State(ids: map<string, nat>, tables: map<nat, Table>, used: map<nat, string>, clients: map<Client, Phase>)

  function Move(s: State, c: Client, p: Phase): State
  {
    s.(clients := s.clients[c := p])
  }

  ghost predicate PhaseOf(s: State, c: Client, p: Phase)
  {
    c in s.clients && s.clients[c] == p
  }

  /** A client joins, gives up, crashes, or goes on after a request without effect. */
  ghost predicate Resets(s: State, t: State, c: Client)
  {
    t == Move(s, c, Idle)
  }

  /** CreateTable begins with an ID from the allocator. */
  ghost predicate BeginsCreate(s: State, t: State, c: Client, table: Table)
  {
    PhaseOf(s, c, Idle) && t == Move(s, c, AtCreate(table)).(used := s.used[table.id := table.name])
  }

  ghost predicate BeginsDelete(s: State, t: State, c: Client)
  {
    PhaseOf(s, c, Idle) && exists name :: t == Move(s, c, AtGet(name))
  }

  /** The transaction of CreateTable: both keys must be missing. */
  ghost predicate Creates(s: State, t: State, c: Client, table: Table)
  {
    && PhaseOf(s, c, AtCreate(table)) && table.name !in s.ids && table.id !in s.tables
    && t == Move(s, c, Idle).(ids := s.ids[table.name := table.id], tables := s.tables[table.id := table])
  }

  ghost predicate Gets(s: State, t: State, c: Client, name: string)
  {
    PhaseOf(s, c, AtGet(name)) && name in s.ids && t == Move(s, c, AtDelete(name, s.ids[name]))
  }

  /** The transaction of DeleteTable: both keys must exist. */
  ghost predicate Deletes(s: State, t: State, c: Client, name: string, id: nat)
  {
    && PhaseOf(s, c, AtDelete(name, id)) && name in s.ids && id in s.tables
    && t == Move(s, c, Idle).(ids := s.ids - {name}, tables := s.tables - {id})
  }

  ghost predicate OtherStep(s: State, t: State, c: Client)
  {
    || Resets(s, t, c) || BeginsDelete(s, t, c)
    || (exists table :: Creates(s, t, c, table))
    || (exists name :: Gets(s, t, c, name))
    || (exists name, id :: Deletes(s, t, c, name, id))
  }

  ghost predicate BeginsAny(s: State, t: State, c: Client)
  {
    exists table :: BeginsCreate(s, t, c, table)
  }

  /** Any step; an ID may be handed to CreateTable again. */
  ghost predicate AnyNext(s: State, t: State)
  {
    exists c :: OtherStep(s, t, c) || BeginsAny(s, t, c)
  }

  ghost predicate BeginsFresh(s: State, t: State, c: Client)
  {
    exists table: Table :: table.id !in s.used && BeginsCreate(s, t, c, table)
  }

  /** A step with an allocator that never returns an ID twice. */
  ghost predicate Next(s: State, t: State)
  {
    exists c :: OtherStep(s, t, c) || BeginsFresh(s, t, c)
  }

  ghost predicate Start(s: State) { s == State(map[], map[], map[], map[]) }

  /** Names and tables are in one-to-one correspondence. */
  ghost predicate Bijection(s: State)
  {
    && (forall n :: n in s.ids ==> s.ids[n] in s.tables && s.tables[s.ids[n]] == Table(s.ids[n], n))
    && (forall i :: i in s.tables ==> s.tables[i].name in s.ids && s.ids[s.tables[i].name] == i)
  }

  ghost predicate PhaseOk(s: State, p: Phase)
  {
    match p
    case AtCreate(table) => table.id in s.used && s.used[table.id] == table.name
    case AtDelete(name, id) => id in s.used && s.used[id] == name
    case _ => true
  }

  ghost predicate Inv(s: State)
  {
    && Bijection(s)
    && (forall i :: i in s.tables ==> i in s.used && s.used[i] == s.tables[i].name)
    && (forall c :: c in s.clients ==> PhaseOk(s, s.clients[c]))
  }

  lemma PhasesSurvive(s: State, t: State, c: Client, p: Phase)
    requires Inv(s) && t.clients == s.clients[c := p] && PhaseOk(t, p)
    requires forall i :: i in s.used ==> i in t.used && t.used[i] == s.used[i]
    ensures forall d :: d in t.clients ==> PhaseOk(t, t.clients[d])
  {
    forall d | d in t.clients ensures PhaseOk(t, t.clients[d]) {
      if d != c { assert PhaseOk(s, s.clients[d]); }
    }
  }

  /** The delete cannot hit two different tables: an ID that still exists still has its first name. */
  lemma DeleteKeeps(s: State, t: State, c: Client, name: string, id: nat)
    requires Inv(s) && Deletes(s, t, c, name, id)
    ensures s.ids[name] == id && Inv(t)
  {
    assert PhaseOk(s, s.clients[c]);
    assert s.tables[id].name == name;
    PhasesSurvive(s, t, c, Idle);
    forall n | n in t.ids ensures t.ids[n] in t.tables && t.tables[t.ids[n]] == Table(t.ids[n], n) {
      assert s.tables[s.ids[n]] == Table(s.ids[n], n);
    }
  }

  /** Without any assumption on IDs: a delete keeps the bijection exactly when the name still has the ID that was
      read; the transaction does not ask. */
  lemma DeleteExactly(s: State, t: State, c: Client, name: string, id: nat)
    requires Bijection(s) && Deletes(s, t, c, name, id)
    ensures Bijection(t) <==> s.ids[name] == id
  {
    var now := s.ids[name];
    assert s.tables[now] == Table(now, name);
    if now == id {
      forall n | n in t.ids ensures t.ids[n] in t.tables && t.tables[t.ids[n]] == Table(t.ids[n], n) {
        assert s.tables[s.ids[n]] == Table(s.ids[n], n);
      }
    } else {
      assert now in t.tables && t.tables[now].name !in t.ids;
    }
  }

  lemma CreateBijection(s: State, t: State, c: Client, table: Table)
    requires Bijection(s) && Creates(s, t, c, table)
    ensures Bijection(t)
  {
    forall n | n in t.ids ensures t.ids[n] in t.tables && t.tables[t.ids[n]] == Table(t.ids[n], n) {
      if n != table.name { assert s.tables[s.ids[n]] == Table(s.ids[n], n); }
    }
  }

  /** A delete commits although its name was given another ID since it was read. */
  ghost predicate DeletesAnother(s: State, t: State)
  {
    exists c, name, id :: Deletes(s, t, c, name, id) && s.ids[name] != id
  }

  lemma SameKeys(s: State, t: State)
    requires Bijection(s) && t.ids == s.ids && t.tables == s.tables
    ensures Bijection(t)
  {
  }

  /** No other step can break it, also when IDs are reused. */
  lemma OnlyDeletesBreak(s: State, t: State)
    requires Bijection(s) && AnyNext(s, t)
    ensures Bijection(t) || DeletesAnother(s, t)
  {
    var c :| OtherStep(s, t, c) || BeginsAny(s, t, c);
    if name, id :| Deletes(s, t, c, name, id) {
      DeleteExactly(s, t, c, name, id);
    } else if table :| Creates(s, t, c, table) {
      CreateBijection(s, t, c, table);
    } else {
      SameKeys(s, t);
    }
  }

  lemma CreateKeeps(s: State, t: State, c: Client, table: Table)
    requires Inv(s) && Creates(s, t, c, table)
    ensures Inv(t)
  {
    assert PhaseOk(s, s.clients[c]);
    PhasesSurvive(s, t, c, Idle);
  }

  lemma OtherKeeps(s: State, t: State, c: Client)
    requires Inv(s) && OtherStep(s, t, c)
    ensures Inv(t)
  {
    if Resets(s, t, c) {
      PhasesSurvive(s, t, c, Idle);
    } else if BeginsDelete(s, t, c) {
      PhasesSurvive(s, t, c, t.clients[c]);
    } else if exists table :: Creates(s, t, c, table) {
      var table :| Creates(s, t, c, table);
      CreateKeeps(s, t, c, table);
    } else if exists name :: Gets(s, t, c, name) {
      var name :| Gets(s, t, c, name);
      PhasesSurvive(s, t, c, AtDelete(name, s.ids[name]));
    } else {
      var name, id :| Deletes(s, t, c, name, id);
      DeleteKeeps(s, t, c, name, id);
    }
  }

  lemma StepKeeps(s: State, t: State)
    requires Inv(s) && Next(s, t)
    ensures Inv(t)
  {
    var c :| OtherStep(s, t, c) || BeginsFresh(s, t, c);
    if OtherStep(s, t, c) {
      OtherKeeps(s, t, c);
    } else {
      var table: Table :| table.id !in s.used && BeginsCreate(s, t, c, table);
      PhasesSurvive(s, t, c, AtCreate(table));
    }
  }

  /** In every state of every run the two keys are a bijection, given that IDs are not reused. */
  lemma AlwaysBijection(run: seq<State>)
    requires IsRun(Next, run) && Start(run[0])
    ensures forall i :: 0 <= i < |run| ==> Bijection(run[i])
  {
    forall s, t | Inv(s) && Next(s, t) ensures Inv(t) { StepKeeps(s, t); }
    HoldsThroughout(Next, Inv, run);
  }

  // ----- with reused IDs -----

  lemma CreateRun(s: State, c: Client, table: Table, t: State)
    requires PhaseOf(s, c, Idle) && table.name !in s.ids && table.id !in s.tables
    requires t == s.(ids := s.ids[table.name := table.id], tables := s.tables[table.id := table],
      used := s.used[table.id := table.name])
    ensures Reaches(AnyNext, s, t)
  {
    var mid := Move(s, c, AtCreate(table)).(used := s.used[table.id := table.name]);
    assert BeginsCreate(s, mid, c, table) && BeginsAny(s, mid, c);
    assert t.clients == mid.clients[c := Idle];
    assert Creates(mid, t, c, table);
    assert OtherStep(mid, t, c);
    assert IsRun(AnyNext, [s, mid, t]);
  }

  lemma GetRun(s: State, c: Client, name: string, t: State)
    requires PhaseOf(s, c, Idle) && name in s.ids && t == Move(s, c, AtDelete(name, s.ids[name]))
    ensures Reaches(AnyNext, s, t)
  {
    var mid := Move(s, c, AtGet(name));
    assert BeginsDelete(s, mid, c) && OtherStep(s, mid, c);
    assert t.clients == mid.clients[c := AtDelete(name, s.ids[name])];
    assert Gets(mid, t, c, name) && OtherStep(mid, t, c);
    assert IsRun(AnyNext, [s, mid, t]);
  }

  lemma DeleteRun(s: State, c: Client, name: string, t: State)
    requires PhaseOf(s, c, Idle) && name in s.ids && s.ids[name] in s.tables
    requires t == s.(ids := s.ids - {name}, tables := s.tables - {s.ids[name]})
    ensures Reaches(AnyNext, s, t)
  {
    var mid := Move(s, c, AtDelete(name, s.ids[name]));
    GetRun(s, c, name, mid);
    assert t.clients == mid.clients[c := Idle];
    assert Deletes(mid, t, c, name, s.ids[name]) && OtherStep(mid, t, c);
    ReachesStep(AnyNext, s, mid, t);
  }

  /** Freshness is needed: with a reused ID, a delete that waited between its two requests takes the name of
      one table and the record of another. */
  lemma ReuseBreaksBijection() returns (s: State, t: State)
    ensures Start(s) && Reaches(AnyNext, s, t) && !Bijection(t)
  {
    s := State(map[], map[], map[], map[]);
    var s1 := Move(s, 0, Idle);
    var s2 := Move(s1, 1, Idle);
    assert OtherStep(s, s1, 0) && OtherStep(s1, s2, 1);
    assert IsRun(AnyNext, [s, s1, s2]);
    var first, second, again := Table(1, "n"), Table(2, "n"), Table(1, "m");
    var s3 := s2.(ids := s2.ids["n" := 1], tables := s2.tables[1 := first], used := s2.used[1 := "n"]);
    CreateRun(s2, 1, first, s3);
    ReachesTransitive(AnyNext, s, s2, s3);
    var s4 := Move(s3, 0, AtDelete("n", 1));
    GetRun(s3, 0, "n", s4);
    ReachesTransitive(AnyNext, s, s3, s4);
    t := WaitedDelete(s4);
    ReachesTransitive(AnyNext, s, s4, t);
  }

  lemma WaitedDelete(s: State) returns (t: State)
    requires PhaseOf(s, 0, AtDelete("n", 1)) && PhaseOf(s, 1, Idle)
    requires s.ids == map["n" := 1] && s.tables == map[1 := Table(1, "n")]
    ensures Reaches(AnyNext, s, t) && !Bijection(t)
  {
    var s1 := s.(ids := s.ids - {"n"}, tables := s.tables - {1});
    DeleteRun(s, 1, "n", s1);
    var s2 := s1.(ids := s1.ids["n" := 2], tables := s1.tables[2 := Table(2, "n")], used := s1.used[2 := "n"]);
    CreateRun(s1, 1, Table(2, "n"), s2);
    ReachesTransitive(AnyNext, s, s1, s2);
    var s3 := s2.(ids := s2.ids["m" := 1], tables := s2.tables[1 := Table(1, "m")], used := s2.used[1 := "m"]);
    assert "m" != "n" by { assert "m"[0] != "n"[0]; }
    CreateRun(s2, 1, Table(1, "m"), s3);
    ReachesTransitive(AnyNext, s, s2, s3);
    t := Move(s3, 0, Idle).(ids := s3.ids - {"n"}, tables := s3.tables - {1});
    assert Deletes(s3, t, 0, "n", 1) && OtherStep(s3, t, 0);
    ReachesStep(AnyNext, s, s3, t);
    assert "m" in t.ids && t.ids["m"] == 1 && 1 !in t.tables;
  }
}
