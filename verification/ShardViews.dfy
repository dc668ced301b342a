/** The shard views of topology_manager.go with storage_impl.go, for a single writer: the in-memory views and
    the table-to-shards index against what loadShardViews would rebuild.

    Each shard has a `latest_version` key and one key per stored version of its view. */
module ShardViews {
  import opened Common

  datatype View = View(shard: nat, version: nat, tables: seq<nat>)

  /** The keys: latest version by shard, and views by shard and version. */
  datatype Disk = Disk(latest: map<nat, nat>, views: map<(nat, nat), View>)

  /** Every latest_version key points at a stored view of its shard. */
  ghost predicate PointersOk(d: Disk)
  {
    forall s :: s in d.latest ==> (s, d.latest[s]) in d.views && d.views[(s, d.latest[s])].shard == s
  }

  /** What ListShardViews finds: the latest view of every shard. */
  function Latest(d: Disk): map<nat, View>
    requires PointersOk(d)
  {
    map s | s in d.latest :: d.views[(s, d.latest[s])]
  }

  // ----- the table-to-shards index -----

  /** The shards in the order etcd lists their keys, which is ascending. */
  ghost function Listed(s: set<nat>): seq<nat>
    decreases |s|
  {
    if s == {} then []
    else
      var m := Greatest(s);
      assert |s - {m}| == |s| - 1;
      Listed(s - {m}) + [m]
  }

  lemma {:induction false} ListedFacts(s: set<nat>)
    ensures Ascending(Listed(s)) && forall x :: x in Listed(s) <==> x in s
    decreases |s|
  {
    if s != {} {
      var m := Greatest(s);
      assert |s - {m}| == |s| - 1;
      ListedFacts(s - {m});
      AscendingMore(Listed(s - {m}), s - {m}, m);
      assert s - {m} + {m} == s;
    }
  }

  lemma AscendingMore(r: seq<nat>, s: set<nat>, m: nat)
    requires Ascending(r) && (forall x :: x in r <==> x in s) && (forall x :: x in s ==> x < m)
    ensures Ascending(r + [m]) && forall x :: x in r + [m] <==> x in s + {m}
  {
    forall i | 0 <= i < |r| ensures r[i] < m { assert r[i] in r; }
  }

  function Repeat(s: nat, n: nat): (r: seq<nat>)
    ensures |r| == n && forall i :: 0 <= i < n ==> r[i] == s
  {
    if n == 0 then [] else Repeat(s, n - 1) + [s]
  }

  function Count(t: nat, tables: seq<nat>): nat
  {
    if tables == [] then 0
    else var k := |tables| - 1; Count(t, tables[..k]) + if tables[k] == t then 1 else 0
  }

  /** The shards of a table, once per occurrence, with the shards visited in the given order. */
  function ShardsOf(shards: seq<nat>, views: map<nat, View>, t: nat): seq<nat>
    requires AllIn(shards, views)
  {
    if shards == [] then []
    else var k := |shards| - 1; ShardsOf(shards[..k], views, t) + Repeat(shards[k], Count(t, views[shards[k]].tables))
  }

  function Lookup(m: map<nat, seq<nat>>, t: nat): seq<nat>
  {
    if t in m then m[t] else []
  }

  ghost predicate AllIn(shards: seq<nat>, views: map<nat, View>)
  {
    forall i :: 0 <= i < |shards| ==> shards[i] in views
  }

  /** The index with the shards visited in the given order. */
  ghost predicate IndexFor(m: map<nat, seq<nat>>, shards: seq<nat>, views: map<nat, View>)
    requires AllIn(shards, views)
  {
    && (forall t :: Lookup(m, t) == ShardsOf(shards, views, t))
    && (forall t :: t in m ==> m[t] != [])
  }

  lemma {:induction false} CountIsMultiplicity(t: nat, tables: seq<nat>)
    ensures Count(t, tables) == multiset(tables)[t]
    decreases |tables|
  {
    if tables != [] {
      CountIsMultiplicity(t, tables[..|tables| - 1]);
      SplitLast(tables);
    }
  }

  /** Under a table the index has each of the listed shards as often as the shard's view has the table, in the order of
      the list, and no other shard. */
  ghost predicate EntryExactly(entry: seq<nat>, shards: seq<nat>, views: map<nat, View>, t: nat)
    requires AllIn(shards, views)
  {
    && (forall s :: s in shards ==> multiset(entry)[s] == multiset(views[s].tables)[t])
    && (forall s :: s in entry ==> s in shards)
    && (forall i, j :: 0 <= i < j < |entry| ==> entry[i] <= entry[j])
  }

  lemma {:induction false} ShardsExactly(shards: seq<nat>, views: map<nat, View>, t: nat)
    requires AllIn(shards, views) && Ascending(shards)
    ensures EntryExactly(ShardsOf(shards, views, t), shards, views, t)
    decreases |shards|
  {
    if shards != [] {
      var k := |shards| - 1;
      var early := shards[..k];
      ShardsExactly(early, views, t);
      CountIsMultiplicity(t, views[shards[k]].tables);
      EntryMore(ShardsOf(early, views, t), early, shards[k], views, t);
      SplitLast(shards);
    }
  }

  lemma EntryMore(entry: seq<nat>, shards: seq<nat>, x: nat, views: map<nat, View>, t: nat)
    requires AllIn(shards, views) && x in views && EntryExactly(entry, shards, views, t)
    requires forall i :: 0 <= i < |shards| ==> shards[i] < x
    ensures EntryExactly(entry + Repeat(x, multiset(views[x].tables)[t]), shards + [x], views, t)
  {
    var n := multiset(views[x].tables)[t];
    RepeatCount(x, n);
    assert x !in entry;
    forall i | 0 <= i < |entry| ensures entry[i] < x { assert entry[i] in shards; }
  }

  lemma {:induction false} RepeatCount(x: nat, n: nat)
    ensures forall s :: multiset(Repeat(x, n))[s] == if s == x then n else 0
    decreases n
  {
    if n > 0 { RepeatCount(x, n - 1); }
  }

  /** What the index says, without the order of the loops. */
  lemma IndexExactly(m: map<nat, seq<nat>>, views: map<nat, View>, t: nat)
    requires IndexOk(m, views)
    ensures t in m <==> exists s :: s in views && t in views[s].tables
    ensures t in m ==> EntryExactly(m[t], Listed(views.Keys), views, t)
  {
    var shards := Listed(views.Keys);
    ListedFacts(views.Keys);
    ShardsExactly(shards, views, t);
    var entry := ShardsOf(shards, views, t);
    assert Lookup(m, t) == entry;
    if t in m {
      var s := entry[0];
      assert s in shards && multiset(entry)[s] > 0;
      assert t in multiset(views[s].tables);
    }
    if s :| s in views && t in views[s].tables {
      assert s in shards && t in multiset(views[s].tables);
      assert s in multiset(entry);
    }
  }

  /** The index is the one loadShardViews builds. */
  ghost predicate IndexOk(m: map<nat, seq<nat>>, views: map<nat, View>)
  {
    AllIn(Listed(views.Keys), views) && IndexFor(m, Listed(views.Keys), views)
  }

  ghost predicate Synced(views: map<nat, View>, index: map<nat, seq<nat>>, d: Disk)
  {
    PointersOk(d) && views == Latest(d) && IndexOk(index, views)
  }

  // ----- counting -----

  lemma {:induction false} RepeatMore(s: nat, a: nat, b: nat)
    ensures Repeat(s, a) + Repeat(s, b) == Repeat(s, a + b)
    decreases b
  {
    if b > 0 {
      RepeatMore(s, a, b - 1);
      assert Repeat(s, a) + Repeat(s, b) == Repeat(s, a) + Repeat(s, b - 1) + [s];
    }
  }

  lemma {:induction false} CountConcat(t: nat, a: seq<nat>, b: seq<nat>)
    ensures Count(t, a + b) == Count(t, a) + Count(t, b)
    decreases |b|
  {
    if b == [] {
      assert a + b == a;
    } else {
      var k := |b| - 1;
      CountConcat(t, a, b[..k]);
      assert (a + b)[..|a + b| - 1] == a + b[..k];
    }
  }

  lemma {:induction false} CountZero(t: nat, s: seq<nat>)
    ensures Count(t, s) == 0 <==> t !in s
    decreases |s|
  {
    if s != [] {
      var k := |s| - 1;
      CountZero(t, s[..k]);
      assert s == s[..k] + [s[k]];
    }
  }

  lemma {:induction false} ShardsConcat(a: seq<nat>, b: seq<nat>, views: map<nat, View>, t: nat)
    requires AllIn(a, views) && AllIn(b, views)
    ensures AllIn(a + b, views) && ShardsOf(a + b, views, t) == ShardsOf(a, views, t) + ShardsOf(b, views, t)
    decreases |b|
  {
    if b == [] {
      assert a + b == a;
    } else {
      var k := |b| - 1;
      ShardsConcat(a, b[..k], views, t);
      assert (a + b)[..|a + b| - 1] == a + b[..k];
    }
  }

  /** Only the counts matter. */
  lemma {:induction false} ShardsFrame(shards: seq<nat>, views: map<nat, View>, other: map<nat, View>, t: nat)
    requires AllIn(shards, views) && AllIn(shards, other)
    requires forall i :: 0 <= i < |shards| ==> Count(t, views[shards[i]].tables) == Count(t, other[shards[i]].tables)
    ensures ShardsOf(shards, views, t) == ShardsOf(shards, other, t)
    decreases |shards|
  {
    if shards != [] { ShardsFrame(shards[..|shards| - 1], views, other, t); }
  }

  lemma {:induction false} ShardsEmpty(shards: seq<nat>, views: map<nat, View>, t: nat)
    requires AllIn(shards, views)
    ensures ShardsOf(shards, views, t) == [] <==> forall i :: 0 <= i < |shards| ==> t !in views[shards[i]].tables
    decreases |shards|
  {
    if shards != [] {
      var k := |shards| - 1;
      ShardsEmpty(shards[..k], views, t);
      CountZero(t, views[shards[k]].tables);
    }
  }

  lemma {:induction false} ShardsAreListed(shards: seq<nat>, views: map<nat, View>, t: nat, i: nat)
    requires AllIn(shards, views) && i < |ShardsOf(shards, views, t)|
    ensures ShardsOf(shards, views, t)[i] in shards
    decreases |shards|
  {
    var k := |shards| - 1;
    if i < |ShardsOf(shards[..k], views, t)| { ShardsAreListed(shards[..k], views, t, i); }
  }

  // ----- one shard's view changes -----

  lemma SplitAt(shards: seq<nat>, shard: nat) returns (a: seq<nat>, b: seq<nat>)
    requires Ascending(shards) && shard in shards
    ensures shards == a + [shard] + b
    ensures (forall i :: 0 <= i < |a| ==> a[i] < shard) && (forall i :: 0 <= i < |b| ==> b[i] > shard)
  {
    var k :| 0 <= k < |shards| && shards[k] == shard;
    a, b := shards[..k], shards[k + 1..];
  }

  /** The index entry of a table is made of what comes before, at and after a shard. */
  lemma ShardsAround(views: map<nat, View>, shard: nat, a: seq<nat>, b: seq<nat>, t: nat)
    requires AllIn(a, views) && AllIn(b, views) && shard in views
    ensures AllIn(a + [shard] + b, views)
    ensures ShardsOf(a + [shard] + b, views, t)
         == ShardsOf(a, views, t) + Repeat(shard, Count(t, views[shard].tables)) + ShardsOf(b, views, t)
  {
    ShardsConcat(a, [shard], views, t);
    ShardsConcat(a + [shard], b, views, t);
    assert [shard][..0] == [];
    assert ShardsOf([shard], views, t) == Repeat(shard, Count(t, views[shard].tables));
  }

  function Changed(views: map<nat, View>, shard: nat, version: nat, tables: seq<nat>): map<nat, View>
  {
    views[shard := View(shard, version, tables)]
  }

  ghost predicate Apart(a: seq<nat>, shard: nat, views: map<nat, View>)
  {
    AllIn(a, views) && forall i :: 0 <= i < |a| ==> a[i] != shard
  }

  lemma ApartFrame(a: seq<nat>, views: map<nat, View>, shard: nat, w: map<nat, View>, v: View, t: nat)
    requires Apart(a, shard, views) && w == views[shard := v]
    ensures AllIn(a, w) && ShardsOf(a, w, t) == ShardsOf(a, views, t)
  {
    ShardsFrame(a, views, w, t);
  }

  /** The entry after the change of one shard's tables. */
  lemma ChangedEntry(views: map<nat, View>, shard: nat, version: nat, tables: seq<nat>, a: seq<nat>, b: seq<nat>,
      t: nat, w: map<nat, View>)
    requires Apart(a, shard, views) && Apart(b, shard, views) && w == Changed(views, shard, version, tables)
    ensures AllIn(a + [shard] + b, w)
    ensures ShardsOf(a + [shard] + b, w, t)
      == ShardsOf(a, views, t) + Repeat(shard, Count(t, tables)) + ShardsOf(b, views, t)
  {
    ApartFrame(a, views, shard, w, View(shard, version, tables), t);
    ApartFrame(b, views, shard, w, View(shard, version, tables), t);
    ShardsAround(w, shard, a, b, t);
  }

  // ----- AddTable -----

  /** The loop of AddTable over the index. */
  function AddedIndex(m: map<nat, seq<nat>>, shard: nat, ids: seq<nat>): map<nat, seq<nat>>
  {
    if ids == [] then m
    else
      var k := |ids| - 1;
      var prev := AddedIndex(m, shard, ids[..k]);
      prev[ids[k] := Lookup(prev, ids[k]) + [shard]]
  }

  lemma {:induction false} AddedLookup(m: map<nat, seq<nat>>, shard: nat, ids: seq<nat>, t: nat)
    ensures Lookup(AddedIndex(m, shard, ids), t) == Lookup(m, t) + Repeat(shard, Count(t, ids))
    ensures t in AddedIndex(m, shard, ids) ==> t in m || Lookup(AddedIndex(m, shard, ids), t) != []
    decreases |ids|
  {
    if ids != [] { AddedLookup(m, shard, ids[..|ids| - 1], t); }
  }

  /** No shard after the given one has any of the tables. */
  ghost predicate NoneLater(views: map<nat, View>, shard: nat, ids: seq<nat>)
  {
    forall s, i :: s in views && s > shard && 0 <= i < |ids| ==> ids[i] !in views[s].tables
  }

  /** For one table: appending to its entry gives the rebuilt entry exactly when nothing is appended or no
      later shard has the table. */
  lemma AppendedEntry(a: seq<nat>, shard: nat, c: nat, b: seq<nat>, n: nat, mem: seq<nat>, want: seq<nat>)
    requires forall i :: 0 <= i < |b| ==> b[i] != shard
    requires mem == a + Repeat(shard, c) + b + Repeat(shard, n) && want == a + Repeat(shard, c + n) + b
    ensures mem == want <==> n == 0 || b == []
  {
    RepeatMore(shard, c, n);
    if n > 0 && b != [] {
      assert mem[|mem| - 1] == Repeat(shard, n)[n - 1] == shard;
      assert want[|want| - 1] == b[|b| - 1];
    }
  }

  lemma EntryInMemory(m: map<nat, seq<nat>>, views: map<nat, View>, shard: nat, ids: seq<nat>, a: seq<nat>, b: seq<nat>,
      t: nat)
    requires shard in views && AllIn(a, views) && AllIn(b, views)
    requires AllIn(a + [shard] + b, views) && Lookup(m, t) == ShardsOf(a + [shard] + b, views, t)
    ensures Lookup(AddedIndex(m, shard, ids), t)
      == ShardsOf(a, views, t) + Repeat(shard, Count(t, views[shard].tables)) + ShardsOf(b, views, t)
        + Repeat(shard, Count(t, ids))
  {
    AddedLookup(m, shard, ids, t);
    ShardsAround(views, shard, a, b, t);
  }

  lemma EntryReloaded(views: map<nat, View>, shard: nat, version: nat, ids: seq<nat>, a: seq<nat>, b: seq<nat>, t: nat,
      w: map<nat, View>)
    requires shard in views && Apart(a, shard, views) && Apart(b, shard, views)
    requires w == Changed(views, shard, version, views[shard].tables + ids) && AllIn(a + [shard] + b, w)
    ensures ShardsOf(a + [shard] + b, w, t)
      == ShardsOf(a, views, t) + Repeat(shard, Count(t, views[shard].tables) + Count(t, ids)) + ShardsOf(b, views, t)
  {
    ChangedEntry(views, shard, version, views[shard].tables + ids, a, b, t, w);
    CountConcat(t, views[shard].tables, ids);
  }

  lemma AddedEntry(m: map<nat, seq<nat>>, views: map<nat, View>, shard: nat, version: nat, ids: seq<nat>, a: seq<nat>,
      b: seq<nat>, t: nat, w: map<nat, View>)
    requires shard in views && Apart(a, shard, views) && Apart(b, shard, views)
    requires AllIn(a + [shard] + b, views) && Lookup(m, t) == ShardsOf(a + [shard] + b, views, t)
    requires w == Changed(views, shard, version, views[shard].tables + ids) && AllIn(a + [shard] + b, w)
    ensures Lookup(AddedIndex(m, shard, ids), t) == ShardsOf(a + [shard] + b, w, t)
      <==> Count(t, ids) == 0 || ShardsOf(b, views, t) == []
  {
    EntryInMemory(m, views, shard, ids, a, b, t);
    EntryReloaded(views, shard, version, ids, a, b, t, w);
    NotAmongLater(b, views, shard, t);
    AppendedEntry(ShardsOf(a, views, t), shard, Count(t, views[shard].tables), ShardsOf(b, views, t), Count(t, ids),
                  Lookup(AddedIndex(m, shard, ids), t), ShardsOf(a + [shard] + b, w, t));
  }

  lemma NotAmongLater(b: seq<nat>, views: map<nat, View>, shard: nat, t: nat)
    requires Apart(b, shard, views)
    ensures forall i :: 0 <= i < |ShardsOf(b, views, t)| ==> ShardsOf(b, views, t)[i] != shard
  {
    var after := ShardsOf(b, views, t);
    forall i | 0 <= i < |after| ensures after[i] != shard { ShardsAreListed(b, views, t, i); }
  }

  /** The tables of the list are on none of the shards. */
  ghost predicate OnNone(b: seq<nat>, views: map<nat, View>, ids: seq<nat>)
    requires AllIn(b, views)
  {
    forall j, i :: 0 <= j < |b| && 0 <= i < |ids| ==> ids[i] !in views[b[j]].tables
  }

  lemma OnNoneEntries(b: seq<nat>, views: map<nat, View>, ids: seq<nat>)
    requires AllIn(b, views)
    ensures OnNone(b, views, ids) <==> forall t :: Count(t, ids) == 0 || ShardsOf(b, views, t) == []
  {
    forall t ensures Count(t, ids) == 0 <==> t !in ids { CountZero(t, ids); }
    if OnNone(b, views, ids) {
      forall t ensures Count(t, ids) == 0 || ShardsOf(b, views, t) == [] { ShardsEmpty(b, views, t); }
    } else {
      var j, i :| 0 <= j < |b| && 0 <= i < |ids| && ids[i] in views[b[j]].tables;
      ShardsEmpty(b, views, ids[i]);
      assert ids[i] in ids;
    }
  }

  lemma AddFor(m: map<nat, seq<nat>>, views: map<nat, View>, shard: nat, version: nat, ids: seq<nat>, a: seq<nat>,
      b: seq<nat>, w: map<nat, View>)
    requires shard in views && Apart(a, shard, views) && Apart(b, shard, views)
    requires AllIn(a + [shard] + b, views) && IndexFor(m, a + [shard] + b, views)
    requires w == Changed(views, shard, version, views[shard].tables + ids) && AllIn(a + [shard] + b, w)
    ensures IndexFor(AddedIndex(m, shard, ids), a + [shard] + b, w) <==> OnNone(b, views, ids)
  {
    var n := AddedIndex(m, shard, ids);
    var shards := a + [shard] + b;
    forall t | t in n ensures n[t] != [] { AddedLookup(m, shard, ids, t); }
    OnNoneEntries(b, views, ids);
    if OnNone(b, views, ids) {
      forall t ensures Lookup(n, t) == ShardsOf(shards, w, t) {
        AddedEntry(m, views, shard, version, ids, a, b, t, w);
      }
    } else {
      var t :| !(Count(t, ids) == 0 || ShardsOf(b, views, t) == []);
      AddedEntry(m, views, shard, version, ids, a, b, t, w);
      assert Lookup(n, t) != ShardsOf(shards, w, t);
    }
  }

  lemma LaterShards(views: map<nat, View>, shard: nat, a: seq<nat>, b: seq<nat>, ids: seq<nat>)
    requires AllIn(b, views) && Listed(views.Keys) == a + [shard] + b
    requires (forall i :: 0 <= i < |a| ==> a[i] < shard) && (forall i :: 0 <= i < |b| ==> b[i] > shard)
    ensures OnNone(b, views, ids) <==> NoneLater(views, shard, ids)
  {
    ListedFacts(views.Keys);
    forall s | s in views && s > shard ensures s in b {
      assert s in Listed(views.Keys);
      InTail(a, shard, b, s);
    }
  }

  lemma InTail(a: seq<nat>, shard: nat, b: seq<nat>, s: nat)
    requires s in a + [shard] + b && s > shard && forall i :: 0 <= i < |a| ==> a[i] < shard
    ensures s in b
  {
  }

  lemma ListedAround(views: map<nat, View>, shard: nat) returns (a: seq<nat>, b: seq<nat>)
    requires shard in views
    ensures Listed(views.Keys) == a + [shard] + b && Apart(a, shard, views) && Apart(b, shard, views)
    ensures (forall i :: 0 <= i < |a| ==> a[i] < shard) && (forall i :: 0 <= i < |b| ==> b[i] > shard)
  {
    ListedFacts(views.Keys);
    var shards := Listed(views.Keys);
    a, b := SplitAt(shards, shard);
    forall i | 0 <= i < |a| ensures a[i] in views { assert shards[i] in shards; }
    forall i | 0 <= i < |b| ensures b[i] in views { assert shards[|a| + 1 + i] in shards; }
  }

  /** AddTable keeps the index the one a reload would build exactly when none of the added tables is on a
      later shard. */
  lemma AddExactly(m: map<nat, seq<nat>>, views: map<nat, View>, shard: nat, version: nat, ids: seq<nat>)
    requires IndexOk(m, views) && shard in views
    ensures IndexOk(AddedIndex(m, shard, ids), Changed(views, shard, version, views[shard].tables + ids))
      <==> NoneLater(views, shard, ids)
  {
    var w := Changed(views, shard, version, views[shard].tables + ids);
    var a, b := ListedAround(views, shard);
    assert w.Keys == views.Keys;
    AddFor(m, views, shard, version, ids, a, b, w);
    LaterShards(views, shard, a, b, ids);
  }

  // ----- RemoveTable -----

  /** The double loop of RemoveTable. */
  function Kept(tables: seq<nat>, ids: seq<nat>): seq<nat>
  {
    if tables == [] then []
    else var k := |tables| - 1; Kept(tables[..k], ids) + Copies(tables[k], ids)
  }

  /** Its inner loop: one copy for every ID that differs. */
  function Copies(t: nat, ids: seq<nat>): seq<nat>
  {
    if ids == [] then []
    else var k := |ids| - 1; Copies(t, ids[..k]) + if t != ids[k] then [t] else []
  }

  /** What the operation is for: the tables that are not to be removed. */
  function Without(tables: seq<nat>, ids: seq<nat>): seq<nat>
  {
    Filter(tables, (t: nat) => t !in ids)
  }

  lemma {:induction false} CopiesCount(t: nat, ids: seq<nat>)
    ensures Count(t, ids) <= |ids| && Copies(t, ids) == Repeat(t, |ids| - Count(t, ids))
    decreases |ids|
  {
    if ids != [] { CopiesCount(t, ids[..|ids| - 1]); }
  }

  /** What the double loop leaves: every table that was there, once for every ID of the list that differs from it. */
  lemma {:induction false} KeptExactly(tables: seq<nat>, ids: seq<nat>, t: nat)
    ensures multiset(Kept(tables, ids))[t] == multiset(tables)[t] * (|ids| - multiset(ids)[t])
    decreases |tables|
  {
    if tables != [] {
      var k := |tables| - 1;
      KeptExactly(tables[..k], ids, t);
      CopiesExactly(tables[k], ids, t);
      SplitLast(tables);
      var last := if tables[k] == t then 1 else 0;
      assert multiset(tables)[t] == multiset(tables[..k])[t] + last;
      MoreTimes(multiset(tables[..k])[t], last, multiset(tables)[t], |ids| - multiset(ids)[t]);
    }
  }

  lemma MoreTimes(a: nat, last: nat, sum: nat, b: int)
    requires last <= 1 && sum == a + last
    ensures sum * b == a * b + if last == 1 then b else 0
  {
  }

  lemma {:induction false} CopiesExactly(x: nat, ids: seq<nat>, t: nat)
    ensures multiset(Copies(x, ids))[t] == if t == x then |ids| - multiset(ids)[x] else 0
    decreases |ids|
  {
    if ids != [] {
      CopiesExactly(x, ids[..|ids| - 1], t);
      SplitLast(ids);
    }
  }

  /** The inner loop does the right thing for one table. */
  ghost predicate CopiesRight(t: nat, ids: seq<nat>)
  {
    Copies(t, ids) == if t in ids then [] else [t]
  }

  lemma CopiesRightExactly(t: nat, ids: seq<nat>)
    ensures CopiesRight(t, ids) <==> |ids| == 1 || (ids != [] && forall i :: 0 <= i < |ids| ==> ids[i] == t)
  {
    CopiesCount(t, ids);
    CountZero(t, ids);
    CountFull(t, ids);
    if |ids| == 1 { assert ids[..0] == []; }
  }

  lemma {:induction false} CountFull(t: nat, ids: seq<nat>)
    ensures Count(t, ids) == |ids| <==> forall i :: 0 <= i < |ids| ==> ids[i] == t
    decreases |ids|
  {
    if ids != [] {
      var k := |ids| - 1;
      CountFull(t, ids[..k]);
      CopiesCount(t, ids[..k]);
    }
  }

  lemma {:induction false} KeptRight(tables: seq<nat>, ids: seq<nat>)
    requires forall i :: 0 <= i < |tables| ==> CopiesRight(tables[i], ids)
    ensures Kept(tables, ids) == Without(tables, ids)
    decreases |tables|
  {
    if tables != [] { KeptRight(tables[..|tables| - 1], ids); }
  }

  lemma CopiesTooMany(t: nat, ids: seq<nat>)
    requires ids != []
    ensures CopiesRight(t, ids) || |Copies(t, ids)| > if t in ids then 0 else 1
  {
    CopiesCount(t, ids);
    CopiesRightExactly(t, ids);
    CountZero(t, ids);
    CountFull(t, ids);
  }

  lemma LengthsMore(tables: seq<nat>, ids: seq<nat>, k: nat, early: seq<nat>)
    requires k + 1 == |tables| && early == tables[..k]
    ensures |Kept(tables, ids)| == |Kept(early, ids)| + |Copies(tables[k], ids)|
    ensures |Without(tables, ids)| == |Without(early, ids)| + if tables[k] in ids then 0 else 1
  {
  }

  lemma {:induction false} KeptTooMany(tables: seq<nat>, ids: seq<nat>, i: nat)
    requires ids != []
    ensures |Kept(tables, ids)| >= |Without(tables, ids)|
    ensures i < |tables| && !CopiesRight(tables[i], ids) ==> |Kept(tables, ids)| > |Without(tables, ids)|
    decreases |tables|
  {
    if tables != [] {
      var k := |tables| - 1;
      var early := tables[..k];
      KeptTooMany(early, ids, i);
      LengthsMore(tables, ids, k, early);
      CopiesTooMany(tables[k], ids);
      assert i < k ==> early[i] == tables[i];
    }
  }

  lemma {:induction false} NothingKept(tables: seq<nat>)
    ensures Kept(tables, []) == [] && Without(tables, []) == tables
    decreases |tables|
  {
    if tables != [] { NothingKept(tables[..|tables| - 1]); }
  }

  /** The double loop of RemoveTable is a set difference exactly for one ID, apart from the degenerate cases
      of no tables and of repetitions of the only table there is. With no ID at all it empties the shard. */
  lemma FilterExactly(tables: seq<nat>, ids: seq<nat>)
    ensures Kept(tables, ids) == Without(tables, ids) <==>
      tables == [] || |ids| == 1
        || (ids != [] && forall i, j :: 0 <= i < |tables| && 0 <= j < |ids| ==> ids[j] == tables[i])
  {
    if ids == [] {
      NothingKept(tables);
    } else {
      forall i | 0 <= i < |tables|
        ensures CopiesRight(tables[i], ids) <==> |ids| == 1 || forall j :: 0 <= j < |ids| ==> ids[j] == tables[i]
      {
        CopiesRightExactly(tables[i], ids);
      }
      if i: nat :| i < |tables| && !CopiesRight(tables[i], ids) {
        KeptTooMany(tables, ids, i);
      } else {
        KeptRight(tables, ids);
      }
    }
  }

  lemma {:induction false} CountRepeat(u: nat, t: nat, n: nat)
    ensures Count(u, Repeat(t, n)) == if u == t then n else 0
    decreases n
  {
    if n > 0 {
      CountRepeat(u, t, n - 1);
      assert Repeat(t, n)[..n - 1] == Repeat(t, n - 1);
    }
  }

  lemma OneMoreTime(c: nat, n: nat, more: bool)
    ensures (c + if more then 1 else 0) * n == c * n + if more then n else 0
  {
  }

  /** What the last table of the list adds. */
  lemma KeptLast(tables: seq<nat>, ids: seq<nat>, u: nat, k: nat, n: nat)
    requires k + 1 == |tables| && Count(u, ids) <= |ids| && n == |ids| - Count(u, ids)
    ensures Count(u, Kept(tables, ids)) == Count(u, Kept(tables[..k], ids)) + if tables[k] == u then n else 0
  {
    CountConcat(u, Kept(tables[..k], ids), Copies(tables[k], ids));
    CopiesCount(tables[k], ids);
    CountRepeat(u, tables[k], |ids| - Count(tables[k], ids));
  }

  /** How often a table is kept: once for every ID that differs, each time it is there. */
  lemma {:induction false} KeptCount(tables: seq<nat>, ids: seq<nat>, u: nat, n: nat)
    requires Count(u, ids) <= |ids| && n == |ids| - Count(u, ids)
    ensures Count(u, Kept(tables, ids)) == Count(u, tables) * n
    decreases |tables|
  {
    if tables != [] {
      var k := |tables| - 1;
      KeptCount(tables[..k], ids, u, n);
      KeptLast(tables, ids, u, k, n);
      OneMoreTime(Count(u, tables[..k]), n, tables[k] == u);
    }
  }

  /** Of the tables to remove that the shard has, none comes with a different one. */
  ghost predicate OneAtATime(tables: seq<nat>, ids: seq<nat>)
  {
    forall t, j :: t in tables && t in ids && 0 <= j < |ids| ==> ids[j] == t
  }

  /** The table has in the shard the occurrences that the index knows of after its entry is dropped or kept. */
  ghost predicate KeptRightly(tables: seq<nat>, ids: seq<nat>, u: nat)
  {
    Count(u, Kept(tables, ids)) == if u in ids then 0 else Count(u, tables)
  }

  lemma TimesZero(c: nat, n: nat)
    ensures c * n == 0 <==> c == 0 || n == 0
    ensures c * n == c <==> c == 0 || n == 1
  {
    if c > 0 && n > 1 {
      var m := n - 1;
      assert c * n == c * m + c && c * m > 0;
    }
  }

  lemma KeptRightlyExactly(tables: seq<nat>, ids: seq<nat>, u: nat)
    ensures KeptRightly(tables, ids, u)
      <==> u !in tables || if u in ids then forall j :: 0 <= j < |ids| ==> ids[j] == u else |ids| == 1
  {
    CopiesCount(u, ids);
    CountFull(u, ids);
    CountZero(u, ids);
    CountZero(u, tables);
    var n := |ids| - Count(u, ids);
    KeptCount(tables, ids, u, n);
    TimesZero(Count(u, tables), n);
  }

  /** The entries of one table, before and after its number in one shard has changed. */
  lemma SameEntry(a: seq<nat>, shard: nat, c: nat, n: nat, b: seq<nat>)
    ensures a + Repeat(shard, c) + b == a + Repeat(shard, n) + b <==> c == n
    ensures [] == a + Repeat(shard, n) + b <==> a == [] && n == 0 && b == []
  {
    assert |a + Repeat(shard, c) + b| == |a| + c + |b| && |a + Repeat(shard, n) + b| == |a| + n + |b|;
  }

  lemma RemovedEntry(m: map<nat, seq<nat>>, views: map<nat, View>, shard: nat, version: nat, ids: seq<nat>, a: seq<nat>,
      b: seq<nat>, u: nat, w: map<nat, View>)
    requires shard in views && Apart(a, shard, views) && Apart(b, shard, views)
    requires AllIn(a + [shard] + b, views) && Lookup(m, u) == ShardsOf(a + [shard] + b, views, u)
    requires w == Changed(views, shard, version, Kept(views[shard].tables, ids)) && AllIn(a + [shard] + b, w)
    ensures Lookup(m - Elements(ids), u) == ShardsOf(a + [shard] + b, w, u)
      <==> (KeptRightly(views[shard].tables, ids, u)
            && (u in ids ==> ShardsOf(a, views, u) == [] && ShardsOf(b, views, u) == []))
  {
    var kept := Kept(views[shard].tables, ids);
    ShardsAround(views, shard, a, b, u);
    ChangedEntry(views, shard, version, kept, a, b, u, w);
    SameEntry(ShardsOf(a, views, u), shard, Count(u, views[shard].tables), Count(u, kept), ShardsOf(b, views, u));
  }

  /** No other shard has the table. */
  ghost predicate OnlyOn(views: map<nat, View>, shard: nat, t: nat)
  {
    forall s :: s in views && s != shard ==> t !in views[s].tables
  }

  lemma OnlyOnEntries(views: map<nat, View>, shard: nat, t: nat, a: seq<nat>, b: seq<nat>)
    requires Listed(views.Keys) == a + [shard] + b && Apart(a, shard, views) && Apart(b, shard, views)
    ensures OnlyOn(views, shard, t) <==> ShardsOf(a, views, t) == [] && ShardsOf(b, views, t) == []
  {
    ShardsEmpty(a, views, t);
    ShardsEmpty(b, views, t);
    ListedFacts(views.Keys);
    forall s | s in views && s != shard ensures s in a || s in b { assert s in Listed(views.Keys); }
  }

  /** What a removal does to one table's entry is right. */
  ghost predicate EntryRight(views: map<nat, View>, shard: nat, ids: seq<nat>, u: nat)
    requires shard in views
  {
    KeptRightly(views[shard].tables, ids, u) && (u in ids ==> OnlyOn(views, shard, u))
  }

  lemma RemoveFor(m: map<nat, seq<nat>>, views: map<nat, View>, shard: nat, version: nat, ids: seq<nat>, a: seq<nat>,
      b: seq<nat>, w: map<nat, View>)
    requires shard in views && Apart(a, shard, views) && Apart(b, shard, views)
    requires Listed(views.Keys) == a + [shard] + b && AllIn(a + [shard] + b, views)
    requires IndexFor(m, a + [shard] + b, views)
    requires w == Changed(views, shard, version, Kept(views[shard].tables, ids)) && AllIn(a + [shard] + b, w)
    ensures IndexFor(m - Elements(ids), a + [shard] + b, w) <==> forall u :: EntryRight(views, shard, ids, u)
  {
    forall u
      ensures Lookup(m - Elements(ids), u) == ShardsOf(a + [shard] + b, w, u) <==> EntryRight(views, shard, ids, u) {
      RemovedEntry(m, views, shard, version, ids, a, b, u, w);
      OnlyOnEntries(views, shard, u, a, b);
    }
  }

  /** No other shard has any of the tables, none of the shard's tables comes with a different one, and there is
      one table, or the shard has none but those. */
  ghost predicate CleanRemoval(views: map<nat, View>, shard: nat, ids: seq<nat>)
    requires shard in views
  {
    && (forall i :: 0 <= i < |ids| ==> OnlyOn(views, shard, ids[i]))
    && OneAtATime(views[shard].tables, ids)
    && (|ids| == 1 || forall k :: 0 <= k < |views[shard].tables| ==> views[shard].tables[k] in ids)
  }

  lemma AllRight(views: map<nat, View>, shard: nat, ids: seq<nat>)
    requires shard in views
    ensures (forall u :: EntryRight(views, shard, ids, u)) <==> CleanRemoval(views, shard, ids)
  {
    var tables := views[shard].tables;
    forall u ensures KeptRightly(tables, ids, u)
      <==> u !in tables || if u in ids then forall j :: 0 <= j < |ids| ==> ids[j] == u else |ids| == 1
    {
      KeptRightlyExactly(tables, ids, u);
    }
    if CleanRemoval(views, shard, ids) {
      forall u ensures EntryRight(views, shard, ids, u) {}
    } else if forall u :: EntryRight(views, shard, ids, u) {
      forall i | 0 <= i < |ids| ensures OnlyOn(views, shard, ids[i]) { assert EntryRight(views, shard, ids, ids[i]); }
      forall t, j | t in tables && t in ids && 0 <= j < |ids| ensures ids[j] == t {
        assert EntryRight(views, shard, ids, t);
      }
      forall k | 0 <= k < |tables| ensures |ids| == 1 || tables[k] in ids {
        assert EntryRight(views, shard, ids, tables[k]);
      }
    }
  }

  /** RemoveTable drops the whole index entries of its tables. That is what a reload would build exactly for a
      clean removal. */
  lemma RemoveExactly(m: map<nat, seq<nat>>, views: map<nat, View>, shard: nat, version: nat, ids: seq<nat>)
    requires IndexOk(m, views) && shard in views
    ensures IndexOk(m - Elements(ids), Changed(views, shard, version, Kept(views[shard].tables, ids)))
      <==> CleanRemoval(views, shard, ids)
  {
    var w := Changed(views, shard, version, Kept(views[shard].tables, ids));
    var a, b := ListedAround(views, shard);
    assert w.Keys == views.Keys;
    RemoveFor(m, views, shard, version, ids, a, b, w);
    AllRight(views, shard, ids);
  }

  /** A change of the version alone leaves the index right. */
  lemma VersionKeepsIndex(m: map<nat, seq<nat>>, views: map<nat, View>, shard: nat, version: nat)
    requires IndexOk(m, views) && shard in views
    ensures IndexOk(m, Changed(views, shard, version, views[shard].tables))
  {
    var w := Changed(views, shard, version, views[shard].tables);
    assert w.Keys == views.Keys;
    var shards := Listed(views.Keys);
    forall t ensures Lookup(m, t) == ShardsOf(shards, w, t) { ShardsFrame(shards, views, w, t); }
  }

  // ----- where the index goes wrong -----

  lemma TwoShards(views: map<nat, View>)
    requires views.Keys == {0, 1}
    ensures Listed(views.Keys) == [0, 1]
  {
    assert {0, 1} - {1} == {0} && {0} - {0} == {};
    assert Greatest({0, 1}) == 1 && Greatest({0}) == 0;
    assert Listed({0}) == Listed({}) + [0] == [0];
    assert Listed({0, 1}) == [0] + [1];
  }

  lemma EntryOfTwo(views: map<nat, View>, t: nat)
    requires views.Keys == {0, 1}
    ensures AllIn([0, 1], views)
    ensures ShardsOf([0, 1], views, t) == Repeat(0, Count(t, views[0].tables)) + Repeat(1, Count(t, views[1].tables))
  {
    assert [0, 1] == [] + [0] + [1];
    ShardsAround(views, 0, [], [1], t);
    assert [1][..0] == [];
    assert ShardsOf([1], views, t) == Repeat(1, Count(t, views[1].tables));
  }

  lemma CountSingle(t: nat, x: nat)
    ensures Count(t, [x]) == if t == x then 1 else 0
  {
    assert [x][..0] == [];
  }

  lemma AddedOnce(m: map<nat, seq<nat>>, shard: nat, t: nat)
    ensures AddedIndex(m, shard, [t]) == m[t := Lookup(m, t) + [shard]]
  {
    assert [t][..0] == [];
    assert AddedIndex(m, shard, []) == m;
  }

  lemma AppendedToOne(m: map<nat, seq<nat>>)
    requires m == map[5 := [1]]
    ensures AddedIndex(m, 0, [5]) == map[5 := [1, 0]]
  {
    AddedOnce(m, 0, 5);
    assert Lookup(m, 5) + [0] == [1, 0];
  }

  lemma IndexOfOne(m: map<nat, seq<nat>>, views: map<nat, View>)
    requires m == map[5 := [1]] && views == map[0 := View(0, 0, []), 1 := View(1, 0, [5])]
    ensures IndexOk(m, views)
  {
    TwoShards(views);
    forall t ensures Lookup(m, t) == ShardsOf([0, 1], views, t) {
      EntryOfTwo(views, t);
      CountSingle(t, 5);
      assert Repeat(1, 1) == Repeat(1, 0) + [1];
    }
  }

  /** Table 5 is on shard 1 and is added to shard 0: the index has the shards in the wrong order. */
  lemma AddedOutOfOrder() returns (m: map<nat, seq<nat>>, views: map<nat, View>)
    ensures IndexOk(m, views) && 0 in views
    ensures AddedIndex(m, 0, [5]) == map[5 := [1, 0]]
    ensures !IndexOk(AddedIndex(m, 0, [5]), Changed(views, 0, 1, views[0].tables + [5]))
  {
    m, views := map[5 := [1]], map[0 := View(0, 0, []), 1 := View(1, 0, [5])];
    IndexOfOne(m, views);
    AppendedToOne(m);
    AddExactly(m, views, 0, 1, [5]);
    assert !NoneLater(views, 0, [5]) by { assert 1 in views && [5][0] in views[1].tables; }
  }

  lemma IndexOfBoth(m: map<nat, seq<nat>>, views: map<nat, View>)
    requires m == map[5 := [0, 1]] && views == map[0 := View(0, 0, [5]), 1 := View(1, 0, [5])]
    ensures IndexOk(m, views)
  {
    TwoShards(views);
    forall t ensures Lookup(m, t) == ShardsOf([0, 1], views, t) {
      EntryOfTwo(views, t);
      CountSingle(t, 5);
      assert Repeat(0, 1) == Repeat(0, 0) + [0] && Repeat(1, 1) == Repeat(1, 0) + [1];
    }
  }

  /** Table 5 is on both shards and is removed from shard 0: the index forgets shard 1. */
  lemma RemovedFromBoth() returns (m: map<nat, seq<nat>>, views: map<nat, View>)
    ensures IndexOk(m, views) && 0 in views && 1 in views && 5 in views[1].tables
    ensures m - Elements([5]) == map[]
    ensures !IndexOk(m - Elements([5]), Changed(views, 0, 1, Kept(views[0].tables, [5])))
  {
    m, views := map[5 := [0, 1]], map[0 := View(0, 0, [5]), 1 := View(1, 0, [5])];
    IndexOfBoth(m, views);
    RemoveExactly(m, views, 0, 1, [5]);
    assert !OnlyOn(views, 0, [5][0]) by { assert 1 in views && 5 in views[1].tables; }
  }
}
