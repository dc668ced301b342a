/** id_impl.go: allocators that lease ranges of IDs from one etcd key.

    Any number of allocators share the key. Each of their Get and Txn requests is one atomic step, and
    the steps of different allocators interleave freely. A request may fail before it takes effect, or
    take effect and lose its response, and an allocator may crash at any point and start afresh. */
module IdAllocator {
  import opened Common

  type Client = nat

  /** Which of the two rebases of Alloc is under way: the first one ever, or the one after the range
      is used up. */
  datatype Stage = Init | Refill

  /** Where an allocator is inside Alloc: about to send a Get, or a Txn that expects the given value. */
  datatype Phase = Idle | AtGet(stage: Stage) | AtTxn(want: Option<nat>, stage: Stage, fast: bool)

  datatype Local = Local(base: nat, end: nat, isInitialized: bool, step: nat, phase: Phase)

  /** `log` lists every ID handed out, in order; `guarded` records that the guard "ID in storage can't
      less than memory" fired. */
  datatype State = State(store: Option<nat>, clients: map<Client, Local>, log: seq<(Client, nat)>, guarded: bool)

  function Fresh(step: nat): Local { Local(0, 0, false, step, Idle) }

  // ----- the code between two requests -----

  /** What follows the first rebase: Alloc goes on to look at the range. */
  datatype Turn = Turn(local: Local, issued: Option<nat>, guarded: bool)

  function Issue(l: Local): Turn
  {
    Turn(l.(base := l.base + 1, phase := Idle), Some(l.base), false)
  }

  function GiveUp(l: Local): Turn { Turn(l.(phase := Idle), None, false) }

  /** doRebaseLocked up to its Txn. */
  function Rebase(l: Local, currEnd: nat, stage: Stage, fast: bool): Turn
  {
    if currEnd < l.base then
      if fast then Turn(l.(phase := AtGet(stage)), None, true) else Turn(l.(phase := Idle), None, true)
    else Turn(l.(phase := AtTxn(Some(currEnd), stage, fast)), None, false)
  }

  /** Alloc from its test for an exhausted range. */
  function UseRange(l: Local): Turn
  {
    if l.base == l.end then Rebase(l, l.end, Refill, true) else Issue(l)
  }

  function Begin(l: Local): Turn
  {
    if !l.isInitialized then Turn(l.(phase := AtGet(Init)), None, false) else UseRange(l)
  }

  function OnGet(l: Local, value: Option<nat>): Turn
    requires l.phase.AtGet?
  {
    if value.None? then Turn(l.(phase := AtTxn(None, l.phase.stage, false)), None, false)
    else Rebase(l, value.value, l.phase.stage, false)
  }

  /** The value a Txn writes. */
  function NewEnd(l: Local): nat
    requires l.phase.AtTxn?
  {
    if l.phase.want.None? then l.step else l.phase.want.value + l.step
  }

  function OnCommitted(l: Local): Turn
    requires l.phase.AtTxn?
  {
    var leased := l.(base := if l.phase.want.None? then l.base else l.phase.want.value, end := NewEnd(l));
    if l.phase.stage == Init then UseRange(leased.(isInitialized := true)) else Issue(leased)
  }

  /** A failed fast rebase falls back on a slow one; a failed slow one ends the call. */
  function OnFailed(l: Local): Turn
    requires l.phase.AtTxn?
  {
    if l.phase.fast then Turn(l.(phase := AtGet(l.phase.stage)), None, false) else GiveUp(l)
  }

  // ----- steps -----

  function Take(s: State, c: Client, t: Turn, store: Option<nat>): State
  {
    State(store, s.clients[c := t.local],
          if t.issued.Some? then s.log + [(c, t.issued.value)] else s.log,
          s.guarded || t.guarded)
  }

  ghost predicate Joins(s: State, t: State)
  {
    exists c, step {:trigger Take(s, c, GiveUp(Fresh(step)), s.store)} ::
      c !in s.clients && t == Take(s, c, GiveUp(Fresh(step)), s.store)
  }

  ghost predicate Calls(s: State, t: State, c: Client)
  {
    c in s.clients && s.clients[c].phase.Idle? && t == Take(s, c, Begin(s.clients[c]), s.store)
  }

  ghost predicate Gets(s: State, t: State, c: Client)
  {
    && c in s.clients && s.clients[c].phase.AtGet?
    && (t == Take(s, c, OnGet(s.clients[c], s.store), s.store)
        || t == Take(s, c, GiveUp(s.clients[c]), s.store))
  }

  /** The Txn writes when the key has the expected value. The response may be lost either way. */
  ghost predicate Commits(s: State, t: State, c: Client)
  {
    && c in s.clients && s.clients[c].phase.AtTxn?
    && var l := s.clients[c];
       if s.store == l.phase.want then
         || t == Take(s, c, OnCommitted(l), Some(NewEnd(l)))
         || t == Take(s, c, OnFailed(l), Some(NewEnd(l)))
         || t == Take(s, c, OnFailed(l), s.store)
       else t == Take(s, c, OnFailed(l), s.store)
  }

  ghost predicate Crashes(s: State, t: State, c: Client)
  {
    c in s.clients && t == Take(s, c, GiveUp(Fresh(s.clients[c].step)), s.store)
  }

  ghost predicate StepOf(s: State, t: State, c: Client)
  {
    Calls(s, t, c) || Gets(s, t, c) || Commits(s, t, c) || Crashes(s, t, c)
  }

  ghost predicate Next(s: State, t: State)
  {
    Joins(s, t) || exists c :: StepOf(s, t, c)
  }

  ghost predicate Start(s: State)
  {
    s == State(None, map[], [], false)
  }

  // ----- what every step keeps -----

  function Stored(s: State): nat
  {
    if s.store.None? then 0 else s.store.value
  }

  ghost predicate LocalOk(s: State, l: Local)
  {
    && l.step >= 1 && l.base <= l.end <= Stored(s)
    && (l.isInitialized ==> s.store.Some?)
    && (!l.isInitialized ==> l.base == l.end == 0)
    && (!l.phase.Idle? ==> l.base == l.end)
    && (l.phase.AtGet? ==> (l.phase.stage == Init <==> !l.isInitialized))
    && (l.phase.AtTxn? ==>
          && (l.phase.stage == Init <==> !l.isInitialized)
          && (l.phase.want.None? ==> !l.isInitialized)
          && (l.phase.want.Some? ==> l.end <= l.phase.want.value <= Stored(s)))
  }

  /** An allocator's unused range holds no ID that was handed out, and lies above its own ones. */
  ghost predicate RangeUnused(l: Local, c: Client, entry: (Client, nat))
  {
    && !(l.base <= entry.1 < l.end)
    && (entry.0 == c && l.base < l.end ==> entry.1 < l.base)
  }

  ghost predicate Apart(l: Local, m: Local)
  {
    l.base == l.end || m.base == m.end || l.end <= m.base || m.end <= l.base
  }

  ghost predicate Inv(s: State)
  {
    && !s.guarded
    && (forall c :: c in s.clients ==> LocalOk(s, s.clients[c]))
    && (forall c, d :: c in s.clients && d in s.clients && c != d ==> Apart(s.clients[c], s.clients[d]))
    && (forall i :: 0 <= i < |s.log| ==> s.log[i].1 < Stored(s))
    && (forall i, c :: 0 <= i < |s.log| && c in s.clients ==> RangeUnused(s.clients[c], c, s.log[i]))
    && LogOk(s.log)
  }

  /** No ID occurs twice, and each allocator's IDs increase. */
  ghost predicate LogOk(log: seq<(Client, nat)>)
  {
    forall i, j :: 0 <= i < j < |log| ==>
      log[i].1 != log[j].1 && (log[i].0 == log[j].0 ==> log[i].1 < log[j].1)
  }

  /** A turn that keeps the range, or empties it. */
  lemma QuietTurn(s: State, c: Client, t: Turn, store: Option<nat>)
    requires Inv(s) && t.issued.None? && !t.guarded
    requires store == s.store || (store.Some? && store.value >= Stored(s))
    requires LocalOk(s.(store := store), t.local)
    requires SameRange(s, c, t.local)
    ensures Inv(Take(s, c, t, store))
  {
    var u := Take(s, c, t, store);
    forall d | d in u.clients ensures LocalOk(u, u.clients[d]) {
      if d != c { assert LocalOk(s, s.clients[d]); }
    }
    QuietApart(s, c, t.local, u.clients);
    QuietUnused(s, c, t.local, u.clients);
  }

  ghost predicate SameRange(s: State, c: Client, l: Local)
  {
    l.base == l.end || (c in s.clients && l.base == s.clients[c].base && l.end == s.clients[c].end)
  }

  lemma QuietApart(s: State, c: Client, l: Local, clients: map<Client, Local>)
    requires Inv(s) && SameRange(s, c, l) && clients == s.clients[c := l]
    ensures forall d, e :: d in clients && e in clients && d != e ==> Apart(clients[d], clients[e])
  {
    forall d, e | d in clients && e in clients && d != e ensures Apart(clients[d], clients[e]) {
      assert d in s.clients && e in s.clients ==> Apart(s.clients[d], s.clients[e]);
    }
  }

  lemma QuietUnused(s: State, c: Client, l: Local, clients: map<Client, Local>)
    requires Inv(s) && SameRange(s, c, l) && clients == s.clients[c := l]
    ensures forall i, d :: 0 <= i < |s.log| && d in clients ==> RangeUnused(clients[d], d, s.log[i])
  {
    forall i, d | 0 <= i < |s.log| && d in clients ensures RangeUnused(clients[d], d, s.log[i]) {
      assert d in s.clients ==> RangeUnused(s.clients[d], d, s.log[i]);
    }
  }

  /** A turn that hands out the first ID of the range it holds. */
  lemma IssuingTurn(s: State, c: Client, l: Local)
    requires Inv(s) && c in s.clients && l == s.clients[c] && l.isInitialized && l.base < l.end
    ensures Inv(Take(s, c, Issue(l), s.store))
  {
    var u := Take(s, c, Issue(l), s.store);
    forall d | d in u.clients ensures LocalOk(u, u.clients[d]) {
      assert LocalOk(s, s.clients[d]);
    }
    forall i | 0 <= i < |s.log| ensures RangeUnused(l, c, s.log[i]) {}
    forall i, d | 0 <= i < |u.log| && d in u.clients ensures RangeUnused(u.clients[d], d, u.log[i]) {
      if i < |s.log| { assert RangeUnused(s.clients[d], d, s.log[i]); }
      else if d != c { assert Apart(s.clients[c], s.clients[d]); }
    }
    forall d, e | d in u.clients && e in u.clients && d != e ensures Apart(u.clients[d], u.clients[e]) {
      assert Apart(s.clients[d], s.clients[e]);
    }
  }

  /** A successful Txn leases the range above everything handed out so far. */
  lemma LeasingTurn(s: State, c: Client, l: Local, m: Local)
    requires Inv(s) && c in s.clients && l == s.clients[c] && l.phase.AtTxn? && s.store == l.phase.want
    requires m == l.(base := if l.phase.want.None? then l.base else l.phase.want.value, end := NewEnd(l),
                     isInitialized := true, phase := Idle)
    ensures Inv(State(Some(NewEnd(l)), s.clients[c := m], s.log, s.guarded)) && m.base < m.end
  {
    var u := State(Some(NewEnd(l)), s.clients[c := m], s.log, s.guarded);
    assert LocalOk(s, l);
    assert m.base == Stored(s) && m.end == Stored(s) + l.step;
    forall d | d in u.clients ensures LocalOk(u, u.clients[d]) {
      if d != c { assert LocalOk(s, s.clients[d]); }
    }
    forall d, e | d in u.clients && e in u.clients && d != e ensures Apart(u.clients[d], u.clients[e]) {
      assert LocalOk(s, s.clients[d]) && LocalOk(s, s.clients[e]) && Apart(s.clients[d], s.clients[e]);
    }
    forall i, d | 0 <= i < |u.log| && d in u.clients ensures RangeUnused(u.clients[d], d, u.log[i]) {
      if d != c { assert RangeUnused(s.clients[d], d, s.log[i]); }
    }
  }

  lemma CommittedKeeps(s: State, c: Client, l: Local)
    requires Inv(s) && c in s.clients && l == s.clients[c] && l.phase.AtTxn? && s.store == l.phase.want
    ensures Inv(Take(s, c, OnCommitted(l), Some(NewEnd(l))))
  {
    var m := l.(base := if l.phase.want.None? then l.base else l.phase.want.value, end := NewEnd(l),
                isInitialized := true, phase := Idle);
    LeasingTurn(s, c, l, m);
    assert LocalOk(s, l);
    var u := State(Some(NewEnd(l)), s.clients[c := m], s.log, s.guarded);
    IssuingTurn(u, c, m);
    var t := Issue(m);
    assert OnCommitted(l) == t;
    assert s.clients[c := t.local] == u.clients[c := t.local];
  }

  lemma CommitKeeps(s: State, t: State, c: Client)
    requires Inv(s) && Commits(s, t, c)
    ensures Inv(t)
  {
    var l := s.clients[c];
    assert LocalOk(s, l);
    if s.store == l.phase.want && t == Take(s, c, OnCommitted(l), Some(NewEnd(l))) {
      CommittedKeeps(s, c, l);
    } else {
      QuietTurn(s, c, OnFailed(l), t.store);
    }
  }

  /** Every allocator leases at least one ID at a time. */
  ghost predicate PositiveSteps(s: State)
  {
    forall c :: c in s.clients ==> s.clients[c].step >= 1
  }

  ghost predicate PositiveNext(s: State, t: State) { Next(s, t) && PositiveSteps(t) }

  lemma StepKeeps(s: State, t: State)
    requires Inv(s) && PositiveNext(s, t)
    ensures Inv(t)
  {
    if Joins(s, t) {
      var c, step :| c !in s.clients && t == Take(s, c, GiveUp(Fresh(step)), s.store);
      assert t.clients[c].step >= 1;
      QuietTurn(s, c, GiveUp(Fresh(step)), s.store);
    } else {
      var c :| StepOf(s, t, c);
      var l := s.clients[c];
      assert LocalOk(s, l);
      if Calls(s, t, c) {
        if l.isInitialized && l.base < l.end { IssuingTurn(s, c, l); }
        else { QuietTurn(s, c, Begin(l), s.store); }
      } else if Gets(s, t, c) {
        if t == Take(s, c, OnGet(l, s.store), s.store) { QuietTurn(s, c, OnGet(l, s.store), s.store); }
        else { QuietTurn(s, c, GiveUp(l), s.store); }
      } else if Commits(s, t, c) {
        CommitKeeps(s, t, c);
      } else {
        QuietTurn(s, c, GiveUp(Fresh(l.step)), s.store);
      }
    }
  }

  /** The law of the allocator: in every state of every run, no ID has been handed out twice, the IDs of
      each allocator increase, also across its crashes, and the guard has never fired. */
  lemma NoIdTwice(run: seq<State>)
    requires IsRun(PositiveNext, run) && Start(run[0])
    ensures forall i :: 0 <= i < |run| ==> LogOk(run[i].log) && !run[i].guarded
  {
    forall s, t | Inv(s) && PositiveNext(s, t) ensures Inv(t) { StepKeeps(s, t); }
    HoldsThroughout(PositiveNext, Inv, run);
  }

  // ----- how large a lease is, and which ID is handed out -----

  /** For any steps: an allocator that has not begun holds nothing, and only such a one finds the key missing. */
  ghost predicate Rooted(store: Option<nat>, l: Local)
  {
    && (l.isInitialized ==> store.Some?)
    && (!l.isInitialized ==> l.base == 0 && l.end == 0)
    && (l.phase.AtGet? ==> (l.phase.stage == Init <==> !l.isInitialized))
    && (l.phase.AtTxn? ==> (l.phase.stage == Init <==> !l.isInitialized))
    && (l.phase.AtTxn? && l.phase.want.None? ==> !l.isInitialized)
  }

  ghost predicate AllRooted(s: State)
  {
    forall c :: c in s.clients ==> Rooted(s.store, s.clients[c])
  }

  lemma TurnRooted(s: State, c: Client, t: Turn, store: Option<nat>)
    requires AllRooted(s) && Rooted(store, t.local) && (s.store.Some? ==> store.Some?)
    ensures AllRooted(Take(s, c, t, store))
  {
    var u := Take(s, c, t, store);
    forall d | d in u.clients ensures Rooted(u.store, u.clients[d]) {
      if d != c { assert Rooted(s.store, s.clients[d]); }
    }
  }

  lemma CommitRooted(store: Option<nat>, l: Local)
    requires Rooted(store, l) && l.phase.AtTxn?
    ensures Rooted(Some(NewEnd(l)), OnCommitted(l).local) && Rooted(Some(NewEnd(l)), OnFailed(l).local)
    ensures Rooted(store, OnFailed(l).local)
  {
  }

  lemma LocalRooted(s: State, t: State, c: Client)
    requires StepOf(s, t, c) && Rooted(s.store, s.clients[c])
    ensures c in t.clients && Rooted(t.store, t.clients[c]) && (s.store.Some? ==> t.store.Some?)
  {
    var l := s.clients[c];
    if l.phase.AtTxn? { CommitRooted(s.store, l); }
    if Calls(s, t, c) { assert t.clients[c] == Begin(l).local && t.store == s.store; }
    else if Gets(s, t, c) {
      assert t.store == s.store && (t.clients[c] == OnGet(l, s.store).local || t.clients[c] == GiveUp(l).local);
    }
    else if Commits(s, t, c) {
      assert (t.clients[c] == OnCommitted(l).local && t.store == Some(NewEnd(l)))
        || t.clients[c] == OnFailed(l).local;
    }
  }

  lemma StepRooted(s: State, t: State)
    requires AllRooted(s) && Next(s, t)
    ensures AllRooted(t)
  {
    if Joins(s, t) {
      var c, step :| c !in s.clients && t == Take(s, c, GiveUp(Fresh(step)), s.store);
      TurnRooted(s, c, GiveUp(Fresh(step)), s.store);
    } else {
      var c :| StepOf(s, t, c);
      LocalRooted(s, t, c);
      var turn := StepTurn(s, t, c);
      TurnRooted(s, c, turn, t.store);
    }
  }

  lemma ReachedRooted(s: State, t: State)
    requires AllRooted(s) && Reaches(Next, s, t)
    ensures AllRooted(t)
  {
    var run: seq<State> :| IsRun(Next, run) && run[0] == s && run[|run| - 1] == t;
    forall u, v | AllRooted(u) && Next(u, v) ensures AllRooted(v) { StepRooted(u, v); }
    HoldsThroughout(Next, AllRooted, run);
  }

  /** A Txn of the allocator wrote: the key grows by exactly the allocator's step, from nothing as from zero. */
  ghost predicate Raises(s: State, t: State, c: Client)
  {
    && c in s.clients && s.clients[c].phase.AtTxn?
    && t.store == Some((if s.store.None? then 0 else s.store.value) + s.clients[c].step)
  }

  /** The key changes by leases alone. */
  lemma KeyGrowsByStep(s: State, t: State)
    requires Next(s, t) && t.store != s.store
    ensures exists c :: Raises(s, t, c)
  {
    var c :| StepOf(s, t, c);
    assert Raises(s, t, c);
  }

  /** The allocator hands out the first ID of what it has left, or leases the IDs from the value of the key on, as many
      as its step, and hands out the first of them. */
  ghost predicate Issues(s: State, t: State, c: Client, id: nat)
  {
    && c in s.clients && c in t.clients && t.log == s.log + [(c, id)] && t.clients[c].base == id + 1
    && (|| (t.store == s.store && id == s.clients[c].base != s.clients[c].end == t.clients[c].end)
        || (Raises(s, t, c) && t.store == Some(t.clients[c].end) && t.clients[c].end == id + s.clients[c].step))
  }

  lemma IssuedBy(s: State, t: State, c: Client)
    requires StepOf(s, t, c) && Rooted(s.store, s.clients[c]) && t.log != s.log
    ensures exists id :: Issues(s, t, c, id)
  {
    var l := s.clients[c];
    if Calls(s, t, c) {
      assert Issues(s, t, c, l.base);
    } else {
      assert Commits(s, t, c) && t == Take(s, c, OnCommitted(l), Some(NewEnd(l)));
      assert Raises(s, t, c);
      assert Issues(s, t, c, OnCommitted(l).issued.value);
    }
  }

  /** In every run, whatever the steps, this is how IDs are handed out; the IDs of a lease are therefore consecutive. */
  lemma IssuedExactly(s: State, t: State)
    requires Reaches(Next, START, s) && Next(s, t) && t.log != s.log
    ensures exists c, id :: Issues(s, t, c, id)
  {
    ReachedRooted(START, s);
    var c :| StepOf(s, t, c);
    IssuedBy(s, t, c);
  }

  // ----- a step of zero -----

  /** With a step of zero an allocator that joins hands out the current value of the key. */
  lemma ZeroStepIssues(s: State, c: Client, t: State)
    requires c !in s.clients && (s.store.None? || s.store == Some(0))
    requires t == State(Some(0), s.clients[c := Local(1, 0, true, 0, Idle)], s.log + [(c, 0)], s.guarded)
    ensures Reaches(Next, s, t)
  {
    var want := AtTxn(s.store, Init, false);
    var mid := s.(clients := s.clients[c := Local(0, 0, false, 0, want)]);
    ZeroStepAsks(s, c, mid);
    ZeroStepLeases(mid, c, t);
    ReachesTransitive(Next, s, mid, t);
  }

  lemma ZeroStepAsks(s: State, c: Client, t: State)
    requires c !in s.clients && (s.store.None? || s.store == Some(0))
    requires t == s.(clients := s.clients[c := Local(0, 0, false, 0, AtTxn(s.store, Init, false))])
    ensures Reaches(Next, s, t)
  {
    var s1 := Take(s, c, GiveUp(Fresh(0)), s.store);
    var s2 := Take(s1, c, Begin(s1.clients[c]), s.store);
    assert Joins(s, s1) && StepOf(s1, s2, c) && StepOf(s2, t, c);
    assert IsRun(Next, [s, s1, s2, t]);
  }

  lemma ZeroStepLeases(s: State, c: Client, t: State)
    requires c in s.clients && (s.store.None? || s.store == Some(0))
    requires s.clients[c] == Local(0, 0, false, 0, AtTxn(s.store, Init, false))
    requires t == State(Some(0), s.clients[c := Local(1, 0, true, 0, Idle)], s.log + [(c, 0)], s.guarded)
    ensures Reaches(Next, s, t)
  {
    var s4 := Take(s, c, OnCommitted(s.clients[c]), Some(0));
    assert StepOf(s, s4, c) && StepOf(s4, t, c);
    assert IsRun(Next, [s, s4, t]);
  }

  /** The lower bound on the step is needed: two allocators with a step of zero hand out the same ID. */
  lemma ZeroStepRepeats() returns (s: State, t: State)
    ensures Start(s) && Reaches(Next, s, t) && !LogOk(t.log)
  {
    s := State(None, map[], [], false);
    var mid := State(Some(0), s.clients[0 := Local(1, 0, true, 0, Idle)], s.log + [(0, 0)], false);
    ZeroStepIssues(s, 0, mid);
    t := State(Some(0), mid.clients[1 := Local(1, 0, true, 0, Idle)], mid.log + [(1, 0)], false);
    ZeroStepIssues(mid, 1, t);
    ReachesTransitive(Next, s, mid, t);
    assert t.log[0].1 == t.log[1].1;
  }

  // ----- the allocator's own code -----

  /** A step of anybody but `me`. */
  ghost predicate OtherNext(s: State, t: State, me: Client)
  {
    Joins(s, t) || exists c :: c != me && StepOf(s, t, c)
  }

  /** The IDs an allocator has handed out. */
  function Own(log: seq<(Client, nat)>, me: Client): seq<nat>
  {
    if log == [] then []
    else
      var last := log[|log| - 1];
      Own(log[..|log| - 1], me) + if last.0 == me then [last.1] else []
  }

  lemma TakeOwn(s: State, c: Client, t: Turn, store: Option<nat>, me: Client)
    ensures Own(Take(s, c, t, store).log, me)
         == Own(s.log, me) + if c == me && t.issued.Some? then [t.issued.value] else []
  {
    if t.issued.Some? {
      var log := s.log + [(c, t.issued.value)];
      assert log[..|log| - 1] == s.log;
    }
  }

  ghost predicate Untouched(s: State, t: State, me: Client)
  {
    me in s.clients && me in t.clients && t.clients[me] == s.clients[me] && Own(t.log, me) == Own(s.log, me)
  }

  /** Steps of the others are steps of the system that leave an allocator alone. */
  lemma OthersLeave(s: State, t: State, me: Client)
    requires me in s.clients && Reaches((u: State, v: State) => OtherNext(u, v, me), s, t)
    ensures Reaches(Next, s, t) && Untouched(s, t, me)
  {
    var next := (u: State, v: State) => OtherNext(u, v, me);
    var run: seq<State> :| IsRun(next, run) && run[0] == s && run[|run| - 1] == t;
    var inv := (u: State) => Untouched(s, u, me);
    forall u, v | inv(u) && next(u, v) ensures inv(v) { OtherLeaves(u, v, me); }
    HoldsThroughout(next, inv, run);
    assert inv(run[|run| - 1]);
    OthersAreSteps(run, me);
  }

  lemma OthersAreSteps(run: seq<State>, me: Client)
    requires IsRun((u: State, v: State) => OtherNext(u, v, me), run)
    ensures IsRun(Next, run)
  {
    forall i | 0 < i < |run| ensures Next(run[i - 1], run[i]) {
      assert OtherNext(run[i - 1], run[i], me);
    }
  }

  lemma OtherLeaves(s: State, t: State, me: Client)
    requires me in s.clients && OtherNext(s, t, me)
    ensures me in t.clients && t.clients[me] == s.clients[me] && Own(t.log, me) == Own(s.log, me)
  {
    if Joins(s, t) {
      var c, step :| c !in s.clients && t == Take(s, c, GiveUp(Fresh(step)), s.store);
      TakeOwn(s, c, GiveUp(Fresh(step)), s.store, me);
    } else {
      var c :| c != me && StepOf(s, t, c);
      var turn := StepTurn(s, t, c);
      TakeOwn(s, c, turn, t.store, me);
    }
  }

  lemma StepTurn(s: State, t: State, c: Client) returns (turn: Turn)
    requires StepOf(s, t, c)
    ensures t == Take(s, c, turn, t.store)
  {
    var l := s.clients[c];
    if Calls(s, t, c) { turn := Begin(l); }
    else if Gets(s, t, c) { turn := if t == Take(s, c, GiveUp(l), s.store) then GiveUp(l) else OnGet(l, s.store); }
    else if Commits(s, t, c) {
      turn := if t == Take(s, c, OnFailed(l), s.store) || t == Take(s, c, OnFailed(l), Some(NewEnd(l))) then OnFailed(l)
        else OnCommitted(l);
    } else { turn := GiveUp(Fresh(l.step)); }
  }

  // ----- from the law to the calls -----

  /** Allocators never leave, their steps never change, and the log only grows. */
  ghost predicate Kept(s: State, t: State)
  {
    && (forall c :: c in s.clients ==> c in t.clients && t.clients[c].step == s.clients[c].step)
    && s.log <= t.log
  }

  lemma TurnSteps(s: State, t: State, c: Client)
    requires StepOf(s, t, c)
    ensures Kept(s, t)
  {
    var turn := StepTurn(s, t, c);
    var l := s.clients[c];
    assert t.clients[c].step == l.step by {
      if Calls(s, t, c) { assert t.clients[c] == Begin(l).local; }
      else if Gets(s, t, c) { assert t.clients[c] == OnGet(l, s.store).local || t.clients[c] == GiveUp(l).local; }
      else if Commits(s, t, c) { assert t.clients[c] == OnCommitted(l).local || t.clients[c] == OnFailed(l).local; }
    }
  }

  lemma StepKept(s: State, t: State)
    requires Next(s, t)
    ensures Kept(s, t)
  {
    if !Joins(s, t) {
      var c :| StepOf(s, t, c);
      TurnSteps(s, t, c);
    }
  }

  lemma KeptTransitive(s: State, t: State, u: State)
    requires Kept(s, t) && Kept(t, u)
    ensures Kept(s, u)
  {
  }

  lemma {:induction false} KeptToTheEnd(run: seq<State>, i: nat)
    requires IsRun(Next, run) && i < |run|
    ensures Kept(run[i], run[|run| - 1])
    decreases |run| - i
  {
    if i < |run| - 1 {
      assert Next(run[i], run[i + 1]);
      StepKept(run[i], run[i + 1]);
      KeptToTheEnd(run, i + 1);
      KeptTransitive(run[i], run[i + 1], run[|run| - 1]);
    }
  }

  /** A run at whose end every allocator leases at least one ID at a time is one in which they always do. */
  lemma AlwaysPositive(run: seq<State>)
    requires IsRun(Next, run) && PositiveSteps(run[|run| - 1])
    ensures IsRun(PositiveNext, run)
  {
    forall i | 0 < i < |run| ensures PositiveNext(run[i - 1], run[i]) { KeptToTheEnd(run, i); }
  }

  const START := State(None, map[], [], false)

  lemma ReachedLogOk(s: State)
    requires Reaches(Next, START, s) && PositiveSteps(s)
    ensures LogOk(s.log)
  {
    var run: seq<State> :| IsRun(Next, run) && run[0] == START && run[|run| - 1] == s;
    AlwaysPositive(run);
    NoIdTwice(run);
  }

  lemma ReachedKept(s: State, t: State)
    requires Reaches(Next, s, t)
    ensures Kept(s, t)
  {
    var run: seq<State> :| IsRun(Next, run) && run[0] == s && run[|run| - 1] == t;
    KeptToTheEnd(run, 0);
  }

  lemma {:induction false} OwnIsLogged(log: seq<(Client, nat)>, me: Client, id: nat)
    ensures id in Own(log, me) <==> (me, id) in log
    decreases |log|
  {
    if log != [] {
      OwnIsLogged(log[..|log| - 1], me, id);
      SplitLast(log);
    }
  }

  lemma {:induction false} OwnAscends(log: seq<(Client, nat)>, me: Client)
    requires LogOk(log)
    ensures Ascending(Own(log, me))
    decreases |log|
  {
    if log != [] {
      var k := |log| - 1;
      OwnAscends(log[..k], me);
      forall i | 0 <= i < |Own(log[..k], me)| && log[k].0 == me ensures Own(log[..k], me)[i] < log[k].1 {
        OwnIsLogged(log[..k], me, Own(log[..k], me)[i]);
      }
    }
  }

  /** The ID is nowhere in the log before the call, and after it once, for the caller. */
  ghost predicate IsNew(before: State, after: State, me: Client, id: nat)
  {
    && (forall j :: 0 <= j < |before.log| ==> before.log[j].1 != id)
    && (me, id) in after.log
    && forall j :: 0 <= j < |after.log| && after.log[j].1 == id ==> after.log[j].0 == me
  }

  lemma LastOwnIsNew(s: State, t: State, me: Client, id: nat)
    requires LogOk(t.log) && s.log <= t.log && Own(t.log, me) == Own(s.log, me) + [id]
    ensures IsNew(s, t, me, id)
  {
    assert id in Own(t.log, me);
    OwnIsLogged(t.log, me, id);
    OwnAscends(t.log, me);
    OwnIsLogged(s.log, me, id);
    var i :| 0 <= i < |t.log| && t.log[i] == (me, id);
    forall j | 0 <= j < |s.log| ensures s.log[j].1 != id {
      assert t.log[j] == s.log[j];
      if s.log[j] == (me, id) { LastNotEarlier(Own(s.log, me), id, Own(t.log, me)); }
    }
  }

  lemma LastNotEarlier(s: seq<nat>, id: nat, t: seq<nat>)
    requires t == s + [id] && Ascending(t)
    ensures id !in s
  {
    forall i | 0 <= i < |s| ensures s[i] != id { assert t[i] < t[|s|]; }
  }

  /** If the system began empty and every allocator leases at least one ID at a time, what a call adds to the IDs of its
      allocator nobody else has been given. */
  lemma CallGivesNewId(s: State, t: State, me: Client, id: nat)
    requires Reaches(Next, START, s) && Reaches(Next, s, t) && PositiveSteps(t)
    requires Own(t.log, me) == Own(s.log, me) + [id]
    ensures IsNew(s, t, me, id)
  {
    ReachesTransitive(Next, START, s, t);
    ReachedLogOk(t);
    ReachedKept(s, t);
    LastOwnIsNew(s, t, me, id);
  }

  datatype Reply = Failed | Value(value: Option<nat>)

  /** The etcd key. Before each request takes effect, the other allocators run as they please. */
  class Kv {
    var value: Option<nat>
    ghost var sys: State
    /** How many requests failed, lost their response, or found another value than they asked for. */
    ghost var misses: nat

    ghost predicate Valid()
      reads this
    {
      sys.store == value
    }

    /** Any number of requests, calls, joins and crashes of others; the caller learns nothing more. */
    method Others(ghost me: Client)
      requires Valid()
      modifies this
      ensures Valid() && Reaches((u: State, v: State) => OtherNext(u, v, me), old(sys), sys) && misses == old(misses)
    {
      ReachesSelf((u: State, v: State) => OtherNext(u, v, me), sys);
    }

    method Get(ghost me: Client) returns (r: Reply)
      requires Valid() && me in sys.clients && sys.clients[me].phase.AtGet?
      modifies this
      ensures Valid() && Reaches(Next, old(sys), sys) && me in sys.clients && Own(sys.log, me) == Own(old(sys).log, me)
      ensures misses == old(misses) + if r.Failed? then 1 else 0
      ensures r.Value? && r.value.Some? && r.value.value < old(sys).clients[me].base ==> sys.guarded
      ensures sys.clients[me] == if r.Failed? then GiveUp(old(sys).clients[me]).local
        else OnGet(old(sys).clients[me], r.value).local
    {
      ghost var start, l := sys, sys.clients[me];
      Others(me);
      OthersLeave(start, sys, me);
      var fails := *;
      ghost var turn := if fails then GiveUp(l) else OnGet(l, value);
      ghost var after := Take(sys, me, turn, sys.store);
      assert StepOf(sys, after, me);
      ReachesStep(Next, start, sys, after);
      TakeOwn(sys, me, turn, sys.store, me);
      r := if fails then Failed else Value(value);
      sys, misses := after, misses + if fails then 1 else 0;
    }

    /** False stands for a failed comparison and for an error, after which the write may have happened. */
    method Txn(ghost me: Client, want: Option<nat>, newEnd: nat) returns (ok: bool)
      requires Valid() && me in sys.clients && sys.clients[me].phase.AtTxn?
      requires want == sys.clients[me].phase.want && newEnd == NewEnd(sys.clients[me])
      modifies this
      ensures Valid() && Reaches(Next, old(sys), sys) && me in sys.clients && (ok ==> value == Some(newEnd))
      ensures misses == old(misses) + if ok then 0 else 1
      ensures var turn := if ok then OnCommitted(old(sys).clients[me]) else OnFailed(old(sys).clients[me]);
        && sys.clients[me] == turn.local
        && Own(sys.log, me) == Own(old(sys).log, me) + if turn.issued.Some? then [turn.issued.value] else []
    {
      ghost var start, l := sys, sys.clients[me];
      Others(me);
      OthersLeave(start, sys, me);
      var reaches, answers := *, *;
      ok := reaches && answers && value == want;
      ghost var turn := if ok then OnCommitted(l) else OnFailed(l);
      if reaches && value == want { value := Some(newEnd); }
      ghost var after := Take(sys, me, turn, value);
      assert StepOf(sys, after, me);
      ReachesStep(Next, start, sys, after);
      TakeOwn(sys, me, turn, value, me);
      sys, misses := after, misses + if ok then 0 else 1;
    }
  }

  class AllocatorImpl {
    var base: nat
    var end: nat
    var isInitialized: bool
    const allocStep: nat
    const kv: Kv
    ghost const me: Client

    constructor (kv: Kv, ghost me: Client, allocStep: nat)
      requires kv.Valid() && me in kv.sys.clients && kv.sys.clients[me] == Fresh(allocStep)
      ensures this.kv == kv && this.me == me && this.allocStep == allocStep && Valid()
    {
      this.kv, this.me, this.allocStep := kv, me, allocStep;
      base, end, isInitialized := 0, 0, false;
    }

    ghost predicate At(phase: Phase)
      reads this, kv
    {
      kv.Valid() && me in kv.sys.clients && kv.sys.clients[me] == Local(base, end, isInitialized, allocStep, phase)
    }

    /** Between two calls the allocator's fields are those of the protocol. */
    ghost predicate Valid()
      reads this, kv
    {
      At(Idle)
    }

    /** The protocol's view of this allocator while its fields lag behind. */
    ghost predicate Stands(l: Local)
      reads this, kv
    {
      kv.Valid() && me in kv.sys.clients && kv.sys.clients[me] == l
    }

    /** firstDoRebaseLocked. */
    method FirstDoRebaseLocked(ghost stage: Stage) returns (ok: bool)
      requires At(AtTxn(None, stage, false))
      modifies this, kv
      ensures Reaches(Next, old(kv.sys), kv.sys) && isInitialized == old(isInitialized)
      ensures kv.misses == old(kv.misses) + if ok then 0 else 1
      ensures var was := old(kv.sys.clients[me]); var turn := if ok then OnCommitted(was) else OnFailed(was);
        && Stands(turn.local)
        && base == old(base) && end == (if ok then allocStep else old(end)) && (ok ==> kv.value == Some(allocStep))
        && Own(kv.sys.log, me) == Own(old(kv.sys.log), me) + if turn.issued.Some? then [turn.issued.value] else []
    {
      var newEnd := allocStep;
      ok := kv.Txn(me, None, newEnd);
      if !ok { return; }
      end := newEnd;
    }

    /** doRebaseLocked after its guard. */
    method DoRebaseLocked(currEnd: nat, ghost stage: Stage, ghost fast: bool) returns (ok: bool)
      requires At(AtTxn(Some(currEnd), stage, fast))
      modifies this, kv
      ensures Reaches(Next, old(kv.sys), kv.sys) && isInitialized == old(isInitialized)
      ensures kv.misses == old(kv.misses) + if ok then 0 else 1
      ensures var was := old(kv.sys.clients[me]); var turn := if ok then OnCommitted(was) else OnFailed(was);
        && Stands(turn.local)
        && base == (if ok then currEnd else old(base)) && end == (if ok then currEnd + allocStep else old(end))
        && (ok ==> kv.value == Some(currEnd + allocStep))
        && Own(kv.sys.log, me) == Own(old(kv.sys.log), me) + if turn.issued.Some? then [turn.issued.value] else []
    {
      var newEnd := currEnd + allocStep;
      ok := kv.Txn(me, Some(currEnd), newEnd);
      if !ok { return; }
      base := currEnd;
      end := newEnd;
    }

    /** What a rebase leaves behind: the new range, and in the protocol the turn that follows it. */
    ghost predicate Rebased(before: State, ok: bool, stage: Stage)
      reads this, kv
    {
      && Reaches(Next, before, kv.sys)
      && (!ok ==> Valid() && Own(kv.sys.log, me) == Own(before.log, me))
      && (ok ==>
            var leased := Local(base, end, isInitialized, allocStep, Idle);
            var turn := if stage == Init then UseRange(leased.(isInitialized := true)) else Issue(leased);
            && kv.Valid() && me in kv.sys.clients
            && kv.sys.clients[me] == turn.local
            && Own(kv.sys.log, me) == Own(before.log, me) + if turn.issued.Some? then [turn.issued.value] else [])
    }

    /** The fields hold a lease of allocStep IDs that ends at the value of the key. */
    ghost predicate Leased()
      reads this, kv
    {
      end == base + allocStep && kv.value == Some(end)
    }

    /** slowRebaseLocked. */
    method SlowRebaseLocked(ghost stage: Stage) returns (ok: bool)
      requires At(AtGet(stage))
      modifies this, kv
      ensures Rebased(old(kv.sys), ok, stage) && isInitialized == old(isInitialized)
      ensures ok && AllRooted(old(kv.sys)) ==> Leased()
      ensures kv.misses >= old(kv.misses) && (!ok ==> kv.misses > old(kv.misses) || kv.sys.guarded)
    {
      ghost var before := kv.sys;
      var resp := kv.Get(me);
      ghost var mid := kv.sys;
      if AllRooted(before) { ReachedRooted(before, mid); }
      if resp.Failed? { return false; }
      ok := RebaseOn(resp.value, stage);
      ReachesTransitive(Next, before, mid, kv.sys);
    }

    /** The rest of slowRebaseLocked, with the value of the key. */
    method RebaseOn(value: Option<nat>, ghost stage: Stage) returns (ok: bool)
      requires Stands(OnGet(Local(base, end, isInitialized, allocStep, AtGet(stage)), value).local)
      modifies this, kv
      ensures Rebased(old(kv.sys), ok, stage) && isInitialized == old(isInitialized)
      ensures ok && (value.None? ==> old(base) == 0) ==> Leased()
      ensures kv.misses >= old(kv.misses)
      ensures !ok ==> kv.misses > old(kv.misses) || (value.Some? && value.value < old(base) && kv.sys == old(kv.sys))
    {
      if value.None? {
        ok := FirstDoRebaseLocked(stage);
      } else {
        if value.value < base {
          ReachesSelf(Next, kv.sys);
          return false;
        }
        ok := DoRebaseLocked(value.value, stage, false);
      }
    }

    /** Alloc: every call is a run of protocol steps, of this allocator and of others, an ID it returns is the one
        the protocol recorded for it last, and nobody else has been given it. It is the first one left of the lease, or
        the first one of a new lease of allocStep IDs that ends at the value of the key. */
    method Alloc() returns (r: Option<nat>)
      requires Valid()
      modifies this, kv
      ensures Valid() && Reaches(Next, old(kv.sys), kv.sys)
      ensures Own(kv.sys.log, me) == Own(old(kv.sys.log), me) + if r.Some? then [r.value] else []
      ensures r.Some? && Reaches(Next, START, old(kv.sys)) && PositiveSteps(kv.sys) ==>
        IsNew(old(kv.sys), kv.sys, me, r.value)
      ensures Reaches(Next, START, old(kv.sys)) ==> Handed(r, old(isInitialized), old(base), old(end))
      ensures r.None? ==> kv.misses > old(kv.misses) || kv.sys.guarded
    {
      if Reaches(Next, START, kv.sys) { ReachedRooted(START, kv.sys); }
      r := TakeId();
      if r.Some? && Reaches(Next, START, old(kv.sys)) && PositiveSteps(kv.sys) {
        CallGivesNewId(old(kv.sys), kv.sys, me, r.value);
      }
    }

    ghost method BeginCall()
      requires Valid()
      modifies kv`sys
      ensures var turn := Begin(old(kv.sys).clients[me]);
        && Stands(turn.local)
        && Own(kv.sys.log, me) == Own(old(kv.sys).log, me) + if turn.issued.Some? then [turn.issued.value] else []
      ensures Reaches(Next, old(kv.sys), kv.sys) && (AllRooted(old(kv.sys)) ==> AllRooted(kv.sys))
    {
      var before, turn := kv.sys, Begin(kv.sys.clients[me]);
      var begun := Take(before, me, turn, before.store);
      assert StepOf(before, begun, me);
      ReachesSelf(Next, before);
      ReachesStep(Next, before, before, begun);
      TakeOwn(before, me, turn, before.store, me);
      if AllRooted(before) { StepRooted(before, begun); }
      kv.sys := begun;
    }

    /** What a call leaves behind, by what it found. */
    ghost predicate Handed(r: Option<nat>, wasInitialized: bool, oldBase: nat, oldEnd: nat)
      reads this, kv
    {
      if wasInitialized && oldBase != oldEnd then r == Some(oldBase) && base == oldBase + 1 && end == oldEnd
      else r.Some? ==> base == r.value + 1 && end == r.value + allocStep && kv.value == Some(end)
    }

    method TakeId() returns (r: Option<nat>)
      requires Valid()
      modifies this, kv
      ensures Valid() && Reaches(Next, old(kv.sys), kv.sys)
      ensures Own(kv.sys.log, me) == Own(old(kv.sys.log), me) + if r.Some? then [r.value] else []
      ensures AllRooted(old(kv.sys)) ==> Handed(r, old(isInitialized), old(base), old(end))
      ensures r.None? ==> kv.misses > old(kv.misses) || kv.sys.guarded
    {
      ghost var before := kv.sys;
      var ok := InitLocked();
      if !ok { return None; }
      ghost var mid := kv.sys;
      if AllRooted(before) { ReachedRooted(before, mid); }
      if base == end {
        ok := RebaseLocked();
        ReachesTransitive(Next, before, mid, kv.sys);
        if !ok { return None; }
      }
      r := Some(base);
      base := base + 1;
    }

    /** The first rebase, of an allocator that has had none; after it the protocol looks at the range. */
    method InitLocked() returns (ok: bool)
      requires Valid()
      modifies this, kv
      ensures Reaches(Next, old(kv.sys), kv.sys)
      ensures old(isInitialized) ==> ok && base == old(base) && end == old(end)
      ensures !ok ==> Valid() && Own(kv.sys.log, me) == Own(old(kv.sys).log, me)
      ensures ok ==> isInitialized && var turn := UseRange(Local(base, end, true, allocStep, Idle));
        && Stands(turn.local)
        && Own(kv.sys.log, me) == Own(old(kv.sys).log, me) + if turn.issued.Some? then [turn.issued.value] else []
      ensures ok && AllRooted(old(kv.sys)) && !old(isInitialized) ==> Leased()
      ensures kv.misses >= old(kv.misses) && (!ok ==> kv.misses > old(kv.misses) || kv.sys.guarded)
    {
      ghost var before := kv.sys;
      BeginCall();
      ghost var begun := kv.sys;
      if isInitialized { return true; }
      ok := SlowRebaseLocked(Init);
      ReachesTransitive(Next, before, begun, kv.sys);
      if ok { isInitialized := true; }
    }

    /** A fast rebase, and a slow one when it fails. */
    method RebaseLocked() returns (ok: bool)
      requires base == end && At(AtTxn(Some(end), Refill, true))
      modifies this, kv
      ensures Rebased(old(kv.sys), ok, Refill) && isInitialized == old(isInitialized)
      ensures ok && AllRooted(old(kv.sys)) ==> Leased()
      ensures kv.misses >= old(kv.misses) && (!ok ==> kv.misses > old(kv.misses) || kv.sys.guarded)
    {
      ghost var before := kv.sys;
      ok := FastRebaseLocked();
      if !ok {
        ghost var fell := kv.sys;
        if AllRooted(before) { ReachedRooted(before, fell); }
        ok := SlowRebaseLocked(Refill);
        ReachesTransitive(Next, before, fell, kv.sys);
      }
    }

    /** fastRebaseLocked: on failure the protocol is about to send a Get. */
    method FastRebaseLocked() returns (ok: bool)
      requires base == end && At(AtTxn(Some(end), Refill, true))
      modifies this, kv
      ensures isInitialized == old(isInitialized) && Reaches(Next, old(kv.sys), kv.sys)
      ensures kv.misses == old(kv.misses) + if ok then 0 else 1
      ensures ok ==> Rebased(old(kv.sys), ok, Refill) && base == old(end) && Leased()
      ensures !ok ==> At(AtGet(Refill)) && Own(kv.sys.log, me) == Own(old(kv.sys.log), me)
    {
      ok := DoRebaseLocked(end, Refill, true);
    }
  }
}
