/** The shard view operations of storage_impl.go and topology_manager.go as they run: the storage with its
    chunked creation, and the manager whose memory is proved to stay what a reload would build.

    Requests may fail; one that fails is not applied. The manager holds its lock throughout and is the only
    writer. */
module ShardManager {
  import opened Common
  import opened ShardViews

  // ----- storage -----

  /** The keys after UpdateShardView: the deletion of the previous version is tried, and its failure ignored. */
  ghost predicate Updated(d: Disk, e: Disk, v: View, prev: nat)
  {
    var put := d.views[(v.shard, v.version) := v];
    && e.latest == d.latest[v.shard := v.version]
    && (e.views == put || (prev != v.version && e.views == put - {(v.shard, prev)}))
  }

  /** UpdateShardView replaces the latest view of its shard and no other, whatever version it is told to
      remove. */
  lemma UpdatedLatest(d: Disk, e: Disk, v: View, prev: nat)
    requires PointersOk(d) && Updated(d, e, v, prev)
    ensures PointersOk(e) && Latest(e) == Latest(d)[v.shard := v]
  {
    forall s | s in e.latest
      ensures (s, e.latest[s]) in e.views
        && e.views[(s, e.latest[s])] == if s == v.shard then v else d.views[(s, d.latest[s])]
    {
    }
  }

  /** No two of the views are of one shard, and no key of them is there yet. */
  ghost predicate Missing(d: Disk, views: seq<View>)
  {
    && (forall i, j :: 0 <= i < j < |views| ==> views[i].shard != views[j].shard)
    && (forall i :: 0 <= i < |views| ==> KeysMissing(d, views[i]))
  }

  predicate KeysMissing(d: Disk, v: View)
  {
    v.shard !in d.latest && (v.shard, v.version) !in d.views
  }

  function Put(d: Disk, v: View): Disk
  {
    Disk(d.latest[v.shard := v.version], d.views[(v.shard, v.version) := v])
  }

  function Stored(d: Disk, views: seq<View>): Disk
  {
    if views == [] then d else Put(Stored(d, views[..|views| - 1]), views[|views| - 1])
  }

  /** The keys of other shards than those of the views are the same. */
  ghost predicate SameOutside(d: Disk, e: Disk, views: seq<View>)
  {
    && (forall s :: !HasShard(views, s) ==>
          (s in e.latest <==> s in d.latest) && (s in d.latest ==> e.latest[s] == d.latest[s]))
    && (forall x: (nat, nat) :: !HasShard(views, x.0) ==>
          (x in e.views <==> x in d.views) && (x in d.views ==> e.views[x] == d.views[x]))
  }

  lemma PutOutside(d: Disk, e: Disk, views: seq<View>)
    requires views != [] && SameOutside(d, e, views[..|views| - 1])
    ensures SameOutside(d, Put(e, views[|views| - 1]), views)
  {
    forall s | !HasShard(views, s) ensures !HasShard(views[..|views| - 1], s) && s != views[|views| - 1].shard {
      NotEarlier(views, s);
    }
  }

  /** For views of different shards: each is stored and its version the latest, and no other key changes. */
  lemma {:induction false} StoredExactly(d: Disk, views: seq<View>)
    requires forall i, j :: 0 <= i < j < |views| ==> views[i].shard != views[j].shard
    ensures forall i :: 0 <= i < |views| ==> StoredAs(Stored(d, views), views[i])
    ensures SameOutside(d, Stored(d, views), views)
    decreases |views|
  {
    if views != [] {
      var k := |views| - 1;
      var early := views[..k];
      StoredExactly(d, early);
      PutOutside(d, Stored(d, early), views);
      forall i | 0 <= i < k ensures StoredAs(Stored(d, views), views[i]) {
        assert StoredAs(Stored(d, early), early[i]);
      }
    }
  }

  predicate StoredAs(d: Disk, v: View)
  {
    && v.shard in d.latest && d.latest[v.shard] == v.version
    && (v.shard, v.version) in d.views && d.views[(v.shard, v.version)] == v
  }

  predicate HasShard(views: seq<View>, s: nat)
  {
    exists i :: 0 <= i < |views| && views[i].shard == s
  }

  lemma NotEarlier(views: seq<View>, s: nat)
    requires views != [] && !HasShard(views, s)
    ensures !HasShard(views[..|views| - 1], s) && s != views[|views| - 1].shard
  {
  }

  lemma {:induction false} StoredMissing(d: Disk, views: seq<View>, v: View)
    ensures KeysMissing(Stored(d, views), v)
      <==> KeysMissing(d, v) && forall i :: 0 <= i < |views| ==> views[i].shard != v.shard
    decreases |views|
  {
    if views != [] {
      var k := |views| - 1;
      StoredMissing(d, views[..k], v);
      assert forall i :: 0 <= i < k ==> views[..k][i] == views[i];
    }
  }

  lemma {:induction false} StoredConcat(d: Disk, a: seq<View>, b: seq<View>)
    ensures Stored(d, a + b) == Stored(Stored(d, a), b)
    decreases |b|
  {
    if b == [] {
      assert a + b == a;
    } else {
      StoredConcat(d, a, b[..|b| - 1]);
      assert (a + b)[..|a + b| - 1] == a + b[..|b| - 1];
    }
  }

  lemma MissingConcat(d: Disk, a: seq<View>, b: seq<View>)
    ensures Missing(d, a + b) <==> Missing(d, a) && Missing(Stored(d, a), b)
  {
    forall j | 0 <= j < |b|
      ensures KeysMissing(Stored(d, a), b[j])
        <==> KeysMissing(d, b[j]) && forall i :: 0 <= i < |a| ==> a[i].shard != b[j].shard
    {
      StoredMissing(d, a, b[j]);
    }
    var c := a + b;
    assert forall i :: 0 <= i < |a| ==> c[i] == a[i];
    assert forall j :: 0 <= j < |b| ==> c[|a| + j] == b[j];
    if Missing(d, c) {
      forall i, j | 0 <= i < j < |b| ensures b[i].shard != b[j].shard { assert c[|a| + i].shard != c[|a| + j].shard; }
      forall i, j | 0 <= i < |a| && 0 <= j < |b| ensures a[i].shard != b[j].shard {
        assert c[i].shard != c[|a| + j].shard;
      }
      forall j | 0 <= j < |b| ensures KeysMissing(d, b[j]) { assert KeysMissing(d, c[|a| + j]); }
    }
  }

  lemma {:induction false} StoredPointers(d: Disk, views: seq<View>)
    requires PointersOk(d) && Missing(d, views)
    ensures PointersOk(Stored(d, views))
    decreases |views|
  {
    if views != [] { StoredPointers(d, views[..|views| - 1]); }
  }

  /** `Stuck` is a loop that does not end. */
  datatype Creation = Created | Refused | Lost | Stuck

  /** The put operations of each transaction for n views. */
  function TxnOps(n: nat, maxOps: nat): seq<nat>
    requires maxOps >= 1
    decreases n
  {
    if n == 0 then [] else if n <= maxOps then [2 * n] else [2 * maxOps] + TxnOps(n - maxOps, maxOps)
  }

  /** Two operations for every view: all transactions but the last have as many views as the limit allows. */
  lemma {:induction false} TxnOpsExactly(n: nat, maxOps: nat)
    requires maxOps >= 1
    ensures var ops := TxnOps(n, maxOps);
      && Total(ops) == 2 * n && (forall i :: 0 <= i < |ops| - 1 ==> ops[i] == 2 * maxOps)
      && (ops != [] ==> 0 < ops[|ops| - 1] <= 2 * maxOps)
    decreases n
  {
    if n > maxOps {
      TxnOpsExactly(n - maxOps, maxOps);
      var rest := TxnOps(n - maxOps, maxOps);
      assert ([2 * maxOps] + rest)[1..] == rest;
    }
  }

  function Total(ops: seq<nat>): nat
  {
    if ops == [] then 0 else ops[0] + Total(ops[1..])
  }

  /** No transaction has more than MaxOpsPerTxn operations if and only if that many are enough for all views in one
      transaction. */
  lemma OpsExactly(n: nat, maxOps: nat)
    requires maxOps >= 1
    ensures (forall i :: 0 <= i < |TxnOps(n, maxOps)| ==> TxnOps(n, maxOps)[i] <= maxOps) <==> n == 0 || 2 * n <= maxOps
  {
    if n > maxOps { assert TxnOps(n, maxOps)[0] == 2 * maxOps; }
    if 0 < n <= maxOps { assert TxnOps(n, maxOps)[0] == 2 * n; }
  }

  /** With the default of 32, the views of 17 shards go into one transaction of 34 operations. */
  lemma TooManyOps()
    ensures TxnOps(17, 32) == [34]
  {
  }

  predicate Entry(v: View, s: nat, d: Disk)
  {
    s in d.latest && (s, d.latest[s]) in d.views && v == d.views[(s, d.latest[s])]
  }

  /** The views of a listing, in the order of the shards. */
  ghost predicate IsListing(list: seq<View>, shards: seq<nat>, d: Disk)
  {
    |list| == |shards| && forall i :: 0 <= i < |list| ==> Entry(list[i], shards[i], d)
  }

  /** The listing is done for the shards above the rest. */
  ghost predicate ListedAbove(list: seq<View>, shards: seq<nat>, rest: set<nat>, d: Disk)
  {
    && IsListing(list, shards, d)
    && rest <= d.latest.Keys
    && Listed(d.latest.Keys) == Listed(rest) + shards
  }

  lemma ListedBegins(d: Disk)
    ensures ListedAbove([], [], d.latest.Keys, d)
  {
  }

  lemma ListedEnds(list: seq<View>, shards: seq<nat>, d: Disk)
    requires ListedAbove(list, shards, {}, d)
    ensures IsListing(list, Listed(d.latest.Keys), d)
  {
    assert Listed({}) + shards == shards;
  }

  lemma ListingStep(list: seq<View>, shards: seq<nat>, d: Disk, v: View, s: nat)
    requires IsListing(list, shards, d) && Entry(v, s, d)
    ensures IsListing([v] + list, [s] + shards, d)
  {
  }

  lemma ListedLast(rest: set<nat>, s: nat, shards: seq<nat>)
    requires rest != {} && s == Greatest(rest)
    ensures Listed(rest) + shards == Listed(rest - {s}) + ([s] + shards)
  {
    ListedUnfold(rest, s);
    Regroup(Listed(rest - {s}), [s], shards);
  }

  lemma ListedUnfold(rest: set<nat>, s: nat)
    requires rest != {} && s == Greatest(rest)
    ensures Listed(rest) == Listed(rest - {s}) + [s]
  {
  }

  lemma Regroup<T>(a: seq<T>, b: seq<T>, c: seq<T>)
    ensures a + b + c == a + (b + c)
  {
  }

  lemma ListedStep(list: seq<View>, shards: seq<nat>, rest: set<nat>, d: Disk, v: View, s: nat)
    requires ListedAbove(list, shards, rest, d) && rest != {} && s == Greatest(rest) && Entry(v, s, d)
    ensures ListedAbove([v] + list, [s] + shards, rest - {s}, d)
  {
    ListingStep(list, shards, d, v, s);
    ListedLast(rest, s, shards);
  }

  /** What is stored and what was missing, after the next chunk. */
  lemma ChunkStep(d: Disk, views: seq<View>, start: nat, end: nat)
    requires start <= end <= |views|
    ensures Stored(Stored(d, views[..start]), views[start..end]) == Stored(d, views[..end])
    ensures Missing(d, views[..start]) && Missing(Stored(d, views[..start]), views[start..end]) ==>
      Missing(d, views[..end])
    ensures Missing(d, views) ==> Missing(Stored(d, views[..start]), views[start..end])
  {
    assert views[..start] + views[start..end] == views[..end];
    assert views[..end] + views[end..] == views;
    StoredConcat(d, views[..start], views[start..end]);
    MissingConcat(d, views[..start], views[start..end]);
    MissingConcat(d, views[..end], views[end..]);
  }

  /** What was sent and what is still to be sent are the transactions for all views. */
  ghost predicate SentFor(start: nat, n: nat, maxOps: nat, before: seq<nat>, sent: seq<nat>)
    requires maxOps >= 1 && start <= n
  {
    sent + TxnOps(n - start, maxOps) == before + TxnOps(n, maxOps)
  }

  lemma SentStep(start: nat, end: nat, n: nat, maxOps: nat, before: seq<nat>, sent: seq<nat>)
    requires maxOps >= 1 && start < n && end == (if start + maxOps > n then n else start + maxOps)
    requires SentFor(start, n, maxOps, before, sent)
    ensures SentFor(end, n, maxOps, before, sent + [2 * (end - start)])
  {
    assert TxnOps(n - start, maxOps) == [2 * (end - start)] + TxnOps(n - end, maxOps);
    Regroup(sent, [2 * (end - start)], TxnOps(n - end, maxOps));
  }

  class Storage {
    var disk: Disk
    const maxOpsPerTxn: nat
    /** The number of put operations of every creating transaction that was sent. */
    ghost var sent: seq<nat>
    /** How many requests failed. */
    ghost var misses: nat

    constructor (maxOps: nat)
      ensures disk == Disk(map[], map[]) && maxOpsPerTxn == maxOps && sent == [] && misses == 0
    {
      disk := Disk(map[], map[]);
      maxOpsPerTxn := maxOps;
      sent, misses := [], 0;
    }

    method UpdateShardView(v: View, prev: nat) returns (ok: bool)
      modifies this`disk, this`misses
      ensures if ok then Updated(old(disk), disk, v, prev) else disk == old(disk)
      ensures misses == old(misses) + if ok then 0 else 1
    {
      ok := *;
      if !ok {
        misses := misses + 1;
        return;
      }
      disk := Put(disk, v);
      if prev != v.version {
        var deleted := *;
        if deleted { disk := disk.(views := disk.views - {(v.shard, prev)}); }
      }
    }

    /** One transaction: it refuses unless every key is missing, and rejects a key that is put twice. */
    method CreateNShardViews(views: seq<View>) returns (r: Creation)
      modifies this
      ensures r.Created? ==> Missing(old(disk), views) && disk == Stored(old(disk), views)
      ensures !r.Created? ==> disk == old(disk)
      ensures r.Refused? ==> !Missing(old(disk), views)
      ensures !r.Stuck? && sent == old(sent) + [2 * |views|]
      ensures misses == old(misses) + if r.Lost? then 1 else 0
    {
      var missing, twice, next, k := true, false, disk, 0;
      ghost var ops := 0;
      while k < |views|
        invariant 0 <= k <= |views| && unchanged(this) && ops == 2 * k
        invariant next == Stored(disk, views[..k])
        invariant missing <==> forall i :: 0 <= i < k ==> KeysMissing(disk, views[i])
        invariant twice <==> exists i, j :: 0 <= i < j < k && views[i].shard == views[j].shard
      {
        missing := missing && KeysMissing(disk, views[k]);
        var j := 0;
        ghost var before := twice;
        while j < k
          invariant 0 <= j <= k
          invariant twice <==> before || exists i :: 0 <= i < j && views[i].shard == views[k].shard
        {
          twice := twice || views[j].shard == views[k].shard;
          j := j + 1;
        }
        assert views[..k + 1][..k] == views[..k];
        next := Put(next, views[k]);
        ops := ops + 2;
        k := k + 1;
      }
      assert views[..k] == views;
      sent := sent + [ops];
      var lost := *;
      if lost {
        misses := misses + 1;
        return Lost;
      }
      if twice { return Refused; }
      if !missing { return Refused; }
      disk := next;
      return Created;
    }

    /** Transactions of at most maxOpsPerTxn views each, so of up to twice as many operations; `done` of the views
        are stored when one fails. With a maximum of zero the loop sends empty transactions until one fails. */
    method CreateShardViews(views: seq<View>) returns (r: Creation, ghost done: nat)
      modifies this
      ensures done <= |views| && Missing(old(disk), views[..done]) && disk == Stored(old(disk), views[..done])
      ensures r.Created? ==>
        done == |views| && (maxOpsPerTxn >= 1 ==> sent == old(sent) + TxnOps(|views|, maxOpsPerTxn))
      ensures r.Refused? ==> !Missing(old(disk), views)
      ensures r.Stuck? ==> maxOpsPerTxn == 0 && views != []
      ensures maxOpsPerTxn == 0 && views != [] ==> (r.Stuck? || r.Lost?) && done == 0
      ensures misses == old(misses) + if r.Lost? then 1 else 0
    {
      if maxOpsPerTxn > 0 {
        r, done := CreateInChunks(views);
      } else if views == [] {
        r, done := Created, 0;
      } else {
        var fails := *;
        r, done := if fails then Lost else Stuck, 0;
        misses := misses + if fails then 1 else 0;
      }
    }

    method CreateChunk(views: seq<View>, start: nat, end: nat, ghost d: Disk) returns (r: Creation)
      requires start <= end <= |views| && Missing(d, views[..start]) && disk == Stored(d, views[..start])
      modifies this
      ensures r.Created? ==> Missing(d, views[..end]) && disk == Stored(d, views[..end])
      ensures !r.Created? ==> disk == old(disk)
      ensures r.Refused? ==> !Missing(d, views)
      ensures !r.Stuck? && sent == old(sent) + [2 * (end - start)]
      ensures misses == old(misses) + if r.Lost? then 1 else 0
    {
      ChunkStep(d, views, start, end);
      r := CreateNShardViews(views[start..end]);
    }

    method CreateInChunks(views: seq<View>) returns (r: Creation, ghost done: nat)
      requires maxOpsPerTxn >= 1
      modifies this
      ensures done <= |views| && Missing(old(disk), views[..done]) && disk == Stored(old(disk), views[..done])
      ensures r.Created? ==> done == |views| && sent == old(sent) + TxnOps(|views|, maxOpsPerTxn)
      ensures r.Refused? ==> !Missing(old(disk), views)
      ensures !r.Stuck? && misses == old(misses) + if r.Lost? then 1 else 0
    {
      var start := 0;
      while start < |views|
        invariant 0 <= start <= |views|
        invariant Missing(old(disk), views[..start]) && disk == Stored(old(disk), views[..start])
        invariant SentFor(start, |views|, maxOpsPerTxn, old(sent), sent) && misses == old(misses)
      {
        var end := start + maxOpsPerTxn;
        if end > |views| { end := |views|; }
        ghost var before := sent;
        r := CreateChunk(views, start, end, old(disk));
        if !r.Created? { return r, start; }
        SentStep(start, end, |views|, maxOpsPerTxn, old(sent), before);
        start := end;
      }
      assert sent + [] == old(sent) + TxnOps(|views|, maxOpsPerTxn);
      return Created, start;
    }

    /** The views the latest_version keys point at, in key order. */
    method ListShardViews() returns (r: Option<seq<View>>)
      requires PointersOk(disk)
      modifies this`misses
      ensures r.Some? ==> IsListing(r.value, Listed(disk.latest.Keys), disk)
      ensures misses == old(misses) + if r.Some? then 0 else 1
    {
      var fails := *;
      if fails {
        misses := misses + 1;
        return None;
      }
      var list := ListViews(disk);
      return Some(list);
    }

    static method ListViews(disk: Disk) returns (list: seq<View>)
      requires PointersOk(disk)
      ensures IsListing(list, Listed(disk.latest.Keys), disk)
    {
      ListedBegins(disk);
      list := [];
      ghost var shards: seq<nat> := [];
      var rest := disk.latest.Keys;
      while rest != {}
        invariant ListedAbove(list, shards, rest, disk)
        decreases |rest|
      {
        var s := Last(rest);
        var v := disk.views[(s, disk.latest[s])];
        ListedStep(list, shards, rest, disk, v, s);
        assert |rest - {s}| == |rest| - 1;
        list := [v] + list;
        shards := [s] + shards;
        rest := rest - {s};
      }
      ListedEnds(list, shards, disk);
    }

    static method Last(s: set<nat>) returns (m: nat)
      requires s != {}
      ensures m == Greatest(s)
    {
      m := Pick(s);
      var rest := s - {m};
      assert |rest| == |s| - 1;
      while rest != {}
        invariant rest <= s && m in s && forall x :: x in s ==> x in rest || x <= m
        decreases |rest|
      {
        var x := Pick(rest);
        assert |rest - {x}| == |rest| - 1;
        rest := rest - {x};
        if x > m { m := x; }
      }
    }
  }

  // ----- the second loop of RemoveTable -----

  /** A slice over an array: the range loop reads the array, while the length shrinks. */
  datatype Slice = Slice(cells: seq<nat>, len: nat) | Panic

  ghost predicate SliceOk(s: Slice, n: nat)
  {
    s.Slice? ==> s.len <= |s.cells| == n
  }

  /** Overwrite cell i with the last one and cut the last one off; an index beyond the length panics. */
  function Cut(s: Slice, i: nat): (r: Slice)
    requires s.Slice? ==> s.len <= |s.cells|
    ensures s.Slice? ==> SliceOk(r, |s.cells|)
  {
    if s.Panic? || i >= s.len then Panic else Slice(s.cells[i := s.cells[s.len - 1]], s.len - 1)
  }

  /** The inner loop for the table read at index i. */
  function Cuts(s: Slice, i: nat, t: nat, ids: seq<nat>): (r: Slice)
    requires s.Slice? ==> s.len <= |s.cells|
    ensures if s.Slice? then SliceOk(r, |s.cells|) else r.Panic?
    ensures s.Slice? && r.Slice? ==> r.len <= s.len
    ensures t !in ids ==> r == s
    ensures s.Slice? && r.Slice? && t in ids ==> r.len < s.len
    decreases |ids|
  {
    if ids == [] then s
    else
      var k := |ids| - 1;
      var p := Cuts(s, i, t, ids[..k]);
      assert t in ids <==> t in ids[..k] || t == ids[k];
      if ids[k] == t then Cut(p, i) else p
  }

  /** The outer loop over the first n cells. */
  function Compact(kept: seq<nat>, n: nat, ids: seq<nat>): (r: Slice)
    requires n <= |kept|
    ensures SliceOk(r, |kept|)
    ensures r.Slice? ==> r.len <= |kept|
  {
    if n == 0 then Slice(kept, |kept|)
    else
      var p := Compact(kept, n - 1, ids);
      if p.Panic? then Panic else Cuts(p, n - 1, p.cells[n - 1], ids)
  }

  /** The loop leaves the list alone exactly when it finds nothing to remove; otherwise it shortens it or
      panics. */
  lemma {:induction false} CompactExactly(kept: seq<nat>, n: nat, ids: seq<nat>)
    requires n <= |kept|
    ensures (forall i :: 0 <= i < n ==> kept[i] !in ids) ==> Compact(kept, n, ids) == Slice(kept, |kept|)
    ensures (exists i :: 0 <= i < n && kept[i] in ids) ==>
      Compact(kept, n, ids).Panic? || Compact(kept, n, ids).len < |kept|
    decreases n
  {
    if n > 0 { CompactExactly(kept, n - 1, ids); }
  }

  lemma {:induction false} CopiesHas(t: nat, ids: seq<nat>, u: nat)
    ensures u in Copies(t, ids) <==> u == t && exists j :: 0 <= j < |ids| && ids[j] != t
    decreases |ids|
  {
    if ids != [] { CopiesHas(t, ids[..|ids| - 1], u); }
  }

  lemma {:induction false} KeptHas(tables: seq<nat>, ids: seq<nat>, u: nat)
    ensures u in Kept(tables, ids) <==> u in tables && exists j :: 0 <= j < |ids| && ids[j] != u
    decreases |tables|
  {
    if tables != [] {
      var k := |tables| - 1;
      KeptHas(tables[..k], ids, u);
      CopiesHas(tables[k], ids, u);
      assert u in tables <==> u in tables[..k] || u == tables[k];
    }
  }

  /** RemoveTable leaves memory with the tables it stored exactly when it is not asked to remove a table of the
      shard together with a different table. Otherwise memory ends up shorter than storage, or the process
      panics. */
  lemma MemoryFollowsStorageExactly(tables: seq<nat>, ids: seq<nat>)
    ensures var kept := Kept(tables, ids);
      Compact(kept, |kept|, ids) == Slice(kept, |kept|) <==> OneAtATime(tables, ids)
  {
    var kept := Kept(tables, ids);
    CompactExactly(kept, |kept|, ids);
    if OneAtATime(tables, ids) {
      forall i | 0 <= i < |kept| ensures kept[i] !in ids { KeptHas(tables, ids, kept[i]); }
    } else {
      var t, j :| t in tables && t in ids && 0 <= j < |ids| && ids[j] != t;
      KeptHas(tables, ids, t);
      var i :| 0 <= i < |kept| && kept[i] == t;
    }
  }

  /** How many cuts the loop makes for these cells. */
  function Matches(cells: seq<nat>, ids: seq<nat>): nat
  {
    if cells == [] then 0 else var k := |cells| - 1; Matches(cells[..k], ids) + Count(cells[k], ids)
  }

  lemma {:induction false} CutsExactly(s: Slice, i: nat, t: nat, ids: seq<nat>, r: Slice)
    requires s.Slice? && s.len <= |s.cells| && r == Cuts(s, i, t, ids)
    ensures r.Panic? <==> Count(t, ids) > 0 && i + Count(t, ids) > s.len
    ensures r.Slice? ==>
      r.len == s.len - Count(t, ids) && forall k :: 0 <= k < |s.cells| && k != i ==> r.cells[k] == s.cells[k]
    decreases |ids|
  {
    if ids != [] { CutsExactly(s, i, t, ids[..|ids| - 1], Cuts(s, i, t, ids[..|ids| - 1])); }
  }

  /** The cut for this cell finds the slice too short: its index and the cuts so far exceed the length. */
  predicate TooShort(kept: seq<nat>, ids: seq<nat>, i: nat)
    requires i < |kept|
  {
    Count(kept[i], ids) > 0 && i + Matches(kept[..i + 1], ids) > |kept|
  }

  lemma {:induction false} CompactTo(kept: seq<nat>, n: nat, ids: seq<nat>, r: Slice)
    requires n <= |kept| && r == Compact(kept, n, ids)
    ensures r.Panic? <==> exists i :: 0 <= i < n && TooShort(kept, ids, i)
    ensures r.Slice? ==>
      r.len == |kept| - Matches(kept[..n], ids) && forall k :: n <= k < |kept| ==> r.cells[k] == kept[k]
    decreases n
  {
    if n > 0 {
      var i := n - 1;
      var p := Compact(kept, i, ids);
      CompactTo(kept, i, ids, p);
      if p.Slice? { CompactStep(kept, i, ids, p, r); }
    }
  }

  /** One more cell. */
  lemma CompactStep(kept: seq<nat>, i: nat, ids: seq<nat>, p: Slice, r: Slice)
    requires i < |kept| && p.Slice? && SliceOk(p, |kept|) && r == Cuts(p, i, kept[i], ids)
    requires p.len == |kept| - Matches(kept[..i], ids) && forall k :: i <= k < |kept| ==> p.cells[k] == kept[k]
    ensures r.Panic? <==> TooShort(kept, ids, i)
    ensures r.Slice? ==>
      r.len == |kept| - Matches(kept[..i + 1], ids) && forall k :: i < k < |kept| ==> r.cells[k] == kept[k]
  {
    MatchesMore(kept, i + 1, ids);
    CutsExactly(p, i, kept[i], ids, r);
  }

  lemma MatchesMore(kept: seq<nat>, n: nat, ids: seq<nat>)
    requires 0 < n <= |kept|
    ensures Matches(kept[..n], ids) == Matches(kept[..n - 1], ids) + Count(kept[n - 1], ids)
  {
    TakeTwice(kept, n, n - 1);
  }

  /** The second loop panics if and only if a cell is to be removed whose index, with the cuts made up to it, is
      beyond the length of the list. */
  lemma PanicExactly(kept: seq<nat>, ids: seq<nat>)
    ensures Compact(kept, |kept|, ids).Panic? <==> exists i :: 0 <= i < |kept| && TooShort(kept, ids, i)
  {
    CompactTo(kept, |kept|, ids, Compact(kept, |kept|, ids));
  }

  /** The second loop of RemoveTable panics. */
  predicate Panics(tables: seq<nat>, ids: seq<nat>)
  {
    var kept := Kept(tables, ids);
    exists i :: 0 <= i < |kept| && TooShort(kept, ids, i)
  }

  /** Two tables removed together from a shard that has just these panic. */
  lemma TwoAtOncePanics(s: nat, t: nat)
    requires s != t
    ensures Compact(Kept([s, t], [s, t]), |Kept([s, t], [s, t])|, [s, t]).Panic?
  {
    TwoKept(s, t);
    TwoCut(s, t);
    var ids := [s, t];
    assert Compact(ids, 0, ids) == Slice(ids, 2);
    assert Compact(ids, 1, ids) == Slice([t, t], 1);
  }

  lemma TwoKept(s: nat, t: nat)
    requires s != t
    ensures Kept([s, t], [s, t]) == [s, t]
  {
    var ids := [s, t];
    assert ids[..1] == [s] && [s][..0] == [];
    assert Copies(s, []) == [] && Copies(s, [s]) == [] && Copies(s, ids) == [s];
    assert Copies(t, [s]) == [t] && Copies(t, ids) == [t];
    assert Kept([s], ids) == [s];
  }

  lemma TwoCut(s: nat, t: nat)
    requires s != t
    ensures Cuts(Slice([s, t], 2), 0, s, [s, t]) == Slice([t, t], 1)
    ensures Cuts(Slice([t, t], 1), 1, t, [s, t]) == Panic
  {
    var ids, one := [s, t], Slice([t, t], 1);
    assert ids[..1] == [s] && [s][..0] == [];
    assert Cuts(Slice(ids, 2), 0, s, [s]) == one;
    assert Cuts(one, 1, t, [s]) == one;
  }

  lemma ThreeKept(ids: seq<nat>)
    requires ids == [1, 2]
    ensures Kept([1, 2, 3], ids) == [1, 2, 3, 3]
  {
    CopiesOfThree(ids);
    var tables := [1, 2, 3];
    assert tables[..2] == [1, 2] && [1, 2][..1] == [1] && [1][..0] == [];
    assert Kept([1], ids) == [1] && Kept([1, 2], ids) == [1, 2];
  }

  lemma CopiesOfThree(ids: seq<nat>)
    requires ids == [1, 2]
    ensures Copies(1, ids) == [1] && Copies(2, ids) == [2] && Copies(3, ids) == [3, 3]
  {
    assert ids[..1] == [1] && [1][..0] == [];
    assert Copies(1, [1]) == [] && Copies(2, [1]) == [2] && Copies(3, [1]) == [3];
  }

  /** One table is cut out of a list of two IDs. */
  lemma CutOne(s: Slice, i: nat, ids: seq<nat>, r: Slice)
    requires s.Slice? && i < s.len <= |s.cells| && ids == [1, 2] && s.cells[i] in ids
    requires r == Slice(s.cells[i := s.cells[s.len - 1]], s.len - 1)
    ensures Cuts(s, i, s.cells[i], ids) == r
  {
    assert ids[..1] == [1] && [1][..0] == [];
    assert Cuts(s, i, s.cells[i], []) == s;
  }

  lemma NextCell(kept: seq<nat>, n: nat, ids: seq<nat>, s: Slice, t: Slice)
    requires n < |kept| && Compact(kept, n, ids) == s && s.Slice? && t == Cuts(s, n, s.cells[n], ids)
    ensures Compact(kept, n + 1, ids) == t
  {
  }

  lemma DoubledHalf(cells: seq<nat>, ids: seq<nat>, s: Slice)
    requires cells == [1, 2, 3, 3] && ids == [1, 2] && s == Slice([3, 3, 3, 3], 2)
    ensures Compact(cells, 2, ids) == s
  {
    var s0, s1 := Slice(cells, 4), Slice([3, 2, 3, 3], 3);
    CutOne(s0, 0, ids, s1);
    NextCell(cells, 0, ids, s0, s1);
    CutOne(s1, 1, ids, s);
    NextCell(cells, 1, ids, s1, s);
  }

  lemma DoubledRest(cells: seq<nat>, ids: seq<nat>, s: Slice)
    requires |cells| == 4 && s.Slice? && |s.cells| == 4 && s.cells[2] !in ids
    requires s.cells[3] !in ids && Compact(cells, 2, ids) == s
    ensures Compact(cells, 4, ids) == s
  {
    NextCell(cells, 2, ids, s, s);
    NextCell(cells, 3, ids, s, s);
  }

  /** With a third table on the shard the same removal stores all three tables, and memory has the third one
      twice. */
  lemma ThirdTableDoubled(cells: seq<nat>, ids: seq<nat>)
    requires cells == [1, 2, 3, 3] && ids == [1, 2]
    ensures Kept([1, 2, 3], ids) == cells && Compact(cells, 4, ids) == Slice([3, 3, 3, 3], 2)
  {
    ThreeKept(ids);
    DoubledHalf(cells, ids, Slice([3, 3, 3, 3], 2));
    DoubledRest(cells, ids, Slice([3, 3, 3, 3], 2));
  }

  // ----- the manager -----

  /** The index after one more shard of the listing. */
  lemma IndexGrown(m: map<nat, seq<nat>>, shards: seq<nat>, k: nat, all: map<nat, View>)
    requires k < |shards| && AllIn(shards, all) && AllIn(shards[..k], all) && IndexFor(m, shards[..k], all)
    ensures AllIn(shards[..k + 1], all)
    ensures IndexFor(AddedIndex(m, shards[k], all[shards[k]].tables), shards[..k + 1], all)
  {
    var n := AddedIndex(m, shards[k], all[shards[k]].tables);
    assert shards[..k + 1][..k] == shards[..k];
    forall t ensures Lookup(n, t) == ShardsOf(shards[..k + 1], all, t) && (t in n ==> n[t] != []) {
      AddedLookup(m, shards[k], all[shards[k]].tables, t);
    }
  }

  /** The first k views of a listing are loaded. */
  ghost predicate LoadedTo(views: map<nat, View>, index: map<nat, seq<nat>>, shards: seq<nat>, k: nat,
      all: map<nat, View>)
  {
    && k <= |shards| && AllIn(shards[..k], all)
    && (forall s :: s in views ==> s in all && views[s] == all[s])
    && (forall i :: 0 <= i < k ==> shards[i] in views)
    && IndexFor(index, shards[..k], all)
  }

  lemma LoadedStep(views: map<nat, View>, index: map<nat, seq<nat>>, shards: seq<nat>, k: nat, all: map<nat, View>,
      v: View)
    requires k < |shards| && AllIn(shards, all) && LoadedTo(views, index, shards, k, all) && v == all[shards[k]]
    ensures LoadedTo(views[shards[k] := v], AddedIndex(index, shards[k], v.tables), shards, k + 1, all)
  {
    IndexGrown(index, shards, k, all);
  }

  lemma LoadedEvery(views: map<nat, View>, index: map<nat, seq<nat>>, shards: seq<nat>, all: map<nat, View>)
    requires LoadedTo(views, index, shards, |shards|, all) && forall s :: s in all ==> s in shards
    ensures views == all && AllIn(shards, all) && IndexFor(index, shards, all)
  {
    assert shards[..|shards|] == shards;
    forall s | s in all ensures s in views { assert s in shards; }
  }

  lemma LoadedAll(views: map<nat, View>, index: map<nat, seq<nat>>, d: Disk)
    requires PointersOk(d) && LoadedTo(views, index, Listed(d.latest.Keys), |Listed(d.latest.Keys)|, Latest(d))
    ensures Synced(views, index, d)
  {
    ListedFacts(d.latest.Keys);
    LoadedEvery(views, index, Listed(d.latest.Keys), Latest(d));
    assert Latest(d).Keys == d.latest.Keys;
  }

  /** What RemoveTable comes to once the view is stored. */
  lemma Removal(m: map<nat, seq<nat>>, views: map<nat, View>, shard: nat, version: nat, ids: seq<nat>, s: Slice,
      d: Disk)
    requires IndexOk(m, views) && shard in views && PointersOk(d)
    requires var kept := Kept(views[shard].tables, ids);
      s == Compact(kept, |kept|, ids) && Latest(d) == Changed(views, shard, version, kept)
    ensures s.Panic? <==> Panics(views[shard].tables, ids)
    ensures s.Panic? ==> !OneAtATime(views[shard].tables, ids)
    ensures |ids| == 1 ==> s.Slice?
    ensures s.Slice? ==> var w := Changed(views, shard, version, s.cells[..s.len]);
      && (w == Latest(d) <==> OneAtATime(views[shard].tables, ids))
      && (Synced(w, m - Elements(ids), d) <==> CleanRemoval(views, shard, ids))
  {
    var kept := Kept(views[shard].tables, ids);
    PanicExactly(kept, ids);
    MemoryFollowsStorageExactly(views[shard].tables, ids);
    if s.Slice? { RemovalSynced(m, views, shard, version, ids, s, kept, d); }
  }

  lemma RemovalSynced(m: map<nat, seq<nat>>, views: map<nat, View>, shard: nat, version: nat, ids: seq<nat>, s: Slice,
      kept: seq<nat>, d: Disk)
    requires IndexOk(m, views) && shard in views && PointersOk(d) && kept == Kept(views[shard].tables, ids)
    requires s.Slice? && SliceOk(s, |kept|) && (s == Slice(kept, |kept|) <==> OneAtATime(views[shard].tables, ids))
    requires Latest(d) == Changed(views, shard, version, kept)
    ensures var w := Changed(views, shard, version, s.cells[..s.len]);
      && (w == Latest(d) <==> OneAtATime(views[shard].tables, ids))
      && (Synced(w, m - Elements(ids), d) <==> CleanRemoval(views, shard, ids))
  {
    RemoveExactly(m, views, shard, version, ids);
    ShorterDiffers(kept, s);
    SameChange(views, shard, version, s.cells[..s.len], kept);
  }

  lemma SameChange(views: map<nat, View>, shard: nat, version: nat, a: seq<nat>, b: seq<nat>)
    ensures Changed(views, shard, version, a) == Changed(views, shard, version, b) <==> a == b
  {
    assert Changed(views, shard, version, a)[shard].tables == a && Changed(views, shard, version, b)[shard].tables == b;
  }

  datatype Outcome = Done | NotFound | Failed | Panicked

  class TopologyManager {
    const storage: Storage
    var views: map<nat, View>
    var index: map<nat, seq<nat>>

    /** Memory is what a reload would build. */
    ghost predicate InSync()
      reads this, storage
    {
      Synced(views, index, storage.disk)
    }

    ghost function State(): Sys
      reads this, storage
    {
      Sys(views, index, storage.disk)
    }

    constructor (s: Storage)
      ensures storage == s && views == map[] && index == map[]
    {
      storage, views, index := s, map[], map[];
    }

    method LoadShardViews() returns (ok: bool)
      requires PointersOk(storage.disk)
      modifies this, storage`misses
      ensures if ok then InSync() else unchanged(this)
      ensures storage.misses == old(storage.misses) + if ok then 0 else 1
    {
      var listed := storage.ListShardViews();
      if listed.None? { return false; }
      ghost var shards, all := Listed(storage.disk.latest.Keys), Latest(storage.disk);
      views, index := map[], map[];
      var k := 0;
      while k < |listed.value|
        invariant 0 <= k <= |listed.value|
        invariant AllIn(shards, all) && LoadedTo(views, index, shards, k, all) && storage.misses == old(storage.misses)
      {
        var v := listed.value[k];
        assert Entry(v, shards[k], storage.disk);
        LoadedStep(views, index, shards, k, all, v);
        views := views[v.shard := v];
        index := IndexTables(index, v.shard, v.tables);
        k := k + 1;
      }
      LoadedAll(views, index, storage.disk);
      return true;
    }

    static method IndexTables(m: map<nat, seq<nat>>, shard: nat, tables: seq<nat>) returns (n: map<nat, seq<nat>>)
      ensures n == AddedIndex(m, shard, tables)
    {
      n := m;
      var i := 0;
      while i < |tables|
        invariant 0 <= i <= |tables| && n == AddedIndex(m, shard, tables[..i])
      {
        assert tables[..i + 1][..i] == tables[..i];
        if tables[i] !in n { n := n[tables[i] := []]; }
        n := n[tables[i] := n[tables[i]] + [shard]];
        i := i + 1;
      }
      assert tables[..i] == tables;
    }

    /** Memory follows storage, and the index stays the one a reload would build exactly when none of the
        tables is on a later shard. */
    method AddTable(shard: nat, latestVersion: nat, ids: seq<nat>) returns (r: Outcome)
      requires InSync()
      modifies this, storage`disk, storage`misses
      ensures storage.misses == old(storage.misses) + if r.Failed? then 1 else 0
      ensures r.NotFound? <==> shard !in old(views)
      ensures !r.Done? ==> unchanged(this) && storage.disk == old(storage.disk)
      ensures r.Done? ==> PointersOk(storage.disk) && views == Latest(storage.disk)
      ensures r.Done? ==> views == Changed(old(views), shard, latestVersion, old(views)[shard].tables + ids)
      ensures r.Done? ==> (InSync() <==> NoneLater(old(views), shard, ids))
      ensures r.Done? && (forall i :: 0 <= i < |ids| ==> Nowhere(old(views), ids[i])) ==>
        Adds(old(State()), State(), shard, latestVersion, ids)
      ensures !r.Panicked?
    {
      if shard !in views { return NotFound; }
      var was := views[shard];
      AddExactly(index, views, shard, latestVersion, ids);
      var v := View(shard, latestVersion, was.tables + ids);
      var ok := storage.UpdateShardView(v, was.version);
      if !ok { return Failed; }
      UpdatedLatest(old(storage.disk), storage.disk, v, was.version);
      views := views[shard := v];
      index := AddToIndex(index, shard, ids);
      return Done;
    }

    static method AddToIndex(m: map<nat, seq<nat>>, shard: nat, ids: seq<nat>) returns (n: map<nat, seq<nat>>)
      ensures n == AddedIndex(m, shard, ids)
    {
      n := m;
      var i := 0;
      while i < |ids|
        invariant 0 <= i <= |ids| && n == AddedIndex(m, shard, ids[..i])
      {
        assert ids[..i + 1][..i] == ids[..i];
        if ids[i] !in n {
          assert Lookup(n, ids[i]) + [shard] == [shard];
          n := n[ids[i] := [shard]];
        } else {
          n := n[ids[i] := n[ids[i]] + [shard]];
        }
        i := i + 1;
      }
      assert ids[..i] == ids;
    }

    static method Filter(tables: seq<nat>, ids: seq<nat>) returns (kept: seq<nat>)
      ensures kept == Kept(tables, ids)
    {
      kept := [];
      var i := 0;
      while i < |tables|
        invariant 0 <= i <= |tables| && kept == Kept(tables[..i], ids)
      {
        var j := 0;
        while j < |ids|
          invariant 0 <= j <= |ids| && kept == Kept(tables[..i], ids) + Copies(tables[i], ids[..j])
        {
          assert ids[..j + 1][..j] == ids[..j];
          if tables[i] != ids[j] { kept := kept + [tables[i]]; }
          j := j + 1;
        }
        assert ids[..j] == ids && tables[..i + 1][..i] == tables[..i];
        i := i + 1;
      }
      assert tables[..i] == tables;
    }

    /** The loops over the slice in memory. */
    static method CompactSlice(kept: seq<nat>, ids: seq<nat>) returns (s: Slice)
      ensures s == Compact(kept, |kept|, ids)
    {
      s := Slice(kept, |kept|);
      var i := 0;
      while i < |kept|
        invariant 0 <= i <= |kept| && s == Compact(kept, i, ids) && s.Slice?
      {
        s := CutMatches(s, i, s.cells[i], ids);
        i := i + 1;
        if s.Panic? {
          StaysPanicked(kept, i, |kept|, ids);
          return;
        }
      }
    }

    static method CutMatches(s0: Slice, i: nat, t: nat, ids: seq<nat>) returns (s: Slice)
      requires s0.Slice? && s0.len <= |s0.cells|
      ensures s == Cuts(s0, i, t, ids)
    {
      s := s0;
      var j := 0;
      while j < |ids|
        invariant 0 <= j <= |ids| && s == Cuts(s0, i, t, ids[..j])
      {
        assert ids[..j + 1][..j] == ids[..j];
        if ids[j] == t { s := Cut(s, i); }
        j := j + 1;
      }
      assert ids[..j] == ids;
    }

    static method DropEntries(m: map<nat, seq<nat>>, ids: seq<nat>) returns (n: map<nat, seq<nat>>)
      ensures n == m - Elements(ids)
    {
      n := m;
      var i := 0;
      while i < |ids|
        invariant 0 <= i <= |ids| && n == m - Elements(ids[..i])
      {
        assert ids[..i + 1] == ids[..i] + [ids[i]];
        n := n - {ids[i]};
        i := i + 1;
      }
      assert ids[..i] == ids;
    }

    /** The changes in memory: the view that was stored, the index without the tables, and then the second loop. */
    method ForgetTables(v: View, ids: seq<nat>) returns (s: Slice)
      modifies this
      ensures s == Compact(v.tables, |v.tables|, ids) && index == old(index) - Elements(ids)
      ensures views == Changed(old(views), v.shard, v.version, if s.Slice? then s.cells[..s.len] else v.tables)
    {
      views := views[v.shard := v];
      index := DropEntries(index, ids);
      s := CompactSlice(v.tables, ids);
      if s.Slice? {
        UpdateTwice(old(views), v.shard, v, v.(tables := s.cells[..s.len]));
        views := views[v.shard := v.(tables := s.cells[..s.len])];
      }
    }

    /** The tables stored are those of the double loop, the index loses the entries of the tables, the exact
        condition of the panic, and memory is what a reload would build exactly after a clean removal. */
    method RemoveTable(shard: nat, latestVersion: nat, ids: seq<nat>) returns (r: Outcome)
      requires InSync()
      modifies this, storage`disk, storage`misses
      ensures storage.misses == old(storage.misses) + if r.Failed? then 1 else 0
      ensures r.NotFound? <==> shard !in old(views)
      ensures r.NotFound? || r.Failed? ==> unchanged(this) && storage.disk == old(storage.disk)
      ensures PointersOk(storage.disk)
      ensures r.Done? || r.Panicked? ==>
        && Latest(storage.disk) == Changed(old(views), shard, latestVersion, Kept(old(views)[shard].tables, ids))
        && index == old(index) - Elements(ids)
        && (r.Panicked? <==> Panics(old(views)[shard].tables, ids))
        && (r.Done? && views == Latest(storage.disk) <==> OneAtATime(old(views)[shard].tables, ids))
        && (r.Done? && InSync() <==> CleanRemoval(old(views), shard, ids))
      ensures |ids| == 1 ==> !r.Panicked?
      ensures r.Done? && |ids| == 1 && (ids[0] in old(views)[shard].tables || Nowhere(old(views), ids[0])) ==>
        Removes(old(State()), State(), shard, latestVersion, ids[0])
    {
      if shard !in views { return NotFound; }
      var was := views[shard];
      var kept := Filter(was.tables, ids);
      var v := View(was.shard, latestVersion, kept);
      var ok := storage.UpdateShardView(v, was.version);
      if !ok { return Failed; }
      UpdatedLatest(old(storage.disk), storage.disk, v, was.version);
      var s := ForgetTables(v, ids);
      Removal(old(index), old(views), shard, latestVersion, ids, s, storage.disk);
      if s.Panic? { return Panicked; }
      if |ids| == 1 { RemovesStep(old(State()), State(), shard, latestVersion, ids, s); }
      return Done;
    }

    /** The version is stored whatever version is expected; the expected one only names the key to remove. */
    method UpdateShardVersionWithExpect(shard: nat, version: nat, want: nat) returns (r: Outcome)
      requires InSync()
      modifies this, storage`disk, storage`misses
      ensures storage.misses == old(storage.misses) + if r.Failed? then 1 else 0
      ensures InSync() && index == old(index)
      ensures r.NotFound? <==> shard !in old(views)
      ensures !r.Done? ==> unchanged(this) && storage.disk == old(storage.disk)
      ensures r.Done? ==> views == Changed(old(views), shard, version, old(views)[shard].tables)
      ensures r.Done? ==> Versions(old(State()), State(), shard, version, want)
      ensures !r.Panicked?
    {
      if shard !in views { return NotFound; }
      var v := View(shard, version, views[shard].tables);
      VersionKeepsIndex(index, views, shard, version);
      var ok := storage.UpdateShardView(v, want);
      if !ok { return Failed; }
      UpdatedLatest(old(storage.disk), storage.disk, v, want);
      views := views[shard := v];
      return Done;
    }

    /** On success memory is what a reload builds. A failure leaves memory as it was, which is then what a reload
        would build exactly when nothing was stored. */
    method CreateShardViews(shards: seq<(nat, seq<nat>)>) returns (r: Creation, ghost done: nat)
      requires PointersOk(storage.disk)
      modifies this, storage
      ensures done <= |shards| && Missing(old(storage.disk), NewViews(shards)[..done])
      ensures storage.disk == Stored(old(storage.disk), NewViews(shards)[..done]) && PointersOk(storage.disk)
      ensures r.Created? ==> done == |shards| && InSync()
      ensures r.Created? && NewTables(old(views), NewViews(shards)) ==> Creates(old(State()), State(), NewViews(shards))
      ensures !r.Created? ==> unchanged(this)
      ensures !r.Created? && old(InSync()) ==> (InSync() <==> done == 0)
      ensures r.Stuck? ==> storage.maxOpsPerTxn == 0 && shards != []
      ensures r.Refused? ==> !Missing(old(storage.disk), NewViews(shards))
      ensures storage.misses == old(storage.misses) + if r.Lost? then 1 else 0
    {
      var created: seq<View> := [];
      var k := 0;
      while k < |shards|
        invariant 0 <= k <= |shards| && |created| == k
        invariant forall i :: 0 <= i < k ==> created[i] == View(shards[i].0, 0, shards[i].1)
        invariant unchanged(this, storage)
      {
        created := created + [View(shards[k].0, 0, shards[k].1)];
        k := k + 1;
      }
      assert created == NewViews(shards);
      r, done := storage.CreateShardViews(created);
      StoredPointers(old(storage.disk), created[..done]);
      StoredGrows(old(storage.disk), created[..done]);
      if !r.Created? { return; }
      assert created[..done] == created;
      var ok := LoadShardViews();
      if !ok { r := Lost; }
    }
  }

  function NewViews(shards: seq<(nat, seq<nat>)>): seq<View>
  {
    seq(|shards|, (i: nat) requires i < |shards| => View(shards[i].0, 0, shards[i].1))
  }

  lemma {:induction false} StoredHas(d: Disk, views: seq<View>, i: nat)
    requires i < |views|
    ensures views[i].shard in Stored(d, views).latest
    decreases |views|
  {
    if i < |views| - 1 { StoredHas(d, views[..|views| - 1], i); }
  }

  /** What is stored shows. */
  lemma StoredGrows(d: Disk, views: seq<View>)
    requires PointersOk(d) && Missing(d, views) && PointersOk(Stored(d, views))
    ensures Latest(Stored(d, views)) == Latest(d) <==> views == []
  {
    if views != [] {
      StoredHas(d, views, 0);
      assert KeysMissing(d, views[0]);
      assert views[0].shard in Latest(Stored(d, views)) && views[0].shard !in Latest(d);
    }
  }

  lemma {:induction false} StaysPanicked(kept: seq<nat>, i: nat, n: nat, ids: seq<nat>)
    requires i <= n <= |kept| && Compact(kept, i, ids).Panic?
    ensures Compact(kept, n, ids).Panic?
    decreases n
  {
    if i < n { StaysPanicked(kept, i, n - 1, ids); }
  }

  lemma ShorterDiffers(kept: seq<nat>, s: Slice)
    requires s.Slice? && SliceOk(s, |kept|)
    ensures s.cells[..s.len] == kept <==> s == Slice(kept, |kept|)
  {
    if s.len == |kept| { assert s.cells[..s.len] == s.cells; }
  }

  // ----- whole runs -----

  datatype Sys = Sys(views: map<nat, View>, index: map<nat, seq<nat>>, disk: Disk)

  /** No table is on two shards. */
  ghost predicate OneShardEach(views: map<nat, View>)
  {
    forall s, t, x :: s in views && t in views && x in views[s].tables && x in views[t].tables ==> s == t
  }

  ghost predicate Nowhere(views: map<nat, View>, x: nat)
  {
    forall s :: s in views ==> x !in views[s].tables
  }

  /** AddTable of tables that are on no shard yet. */
  ghost predicate Adds(s: Sys, t: Sys, shard: nat, version: nat, ids: seq<nat>)
  {
    && shard in s.views && (forall i :: 0 <= i < |ids| ==> Nowhere(s.views, ids[i]))
    && var v := View(shard, version, s.views[shard].tables + ids);
       && Updated(s.disk, t.disk, v, s.views[shard].version)
       && t.views == s.views[shard := v] && t.index == AddedIndex(s.index, shard, ids)
  }

  /** RemoveTable of one table from the shard that has it, or that no shard has. */
  ghost predicate Removes(s: Sys, t: Sys, shard: nat, version: nat, x: nat)
  {
    && shard in s.views && (x in s.views[shard].tables || Nowhere(s.views, x))
    && var v := View(shard, version, Kept(s.views[shard].tables, [x]));
       Updated(s.disk, t.disk, v, s.views[shard].version) && t.views == s.views[shard := v] && t.index == s.index - {x}
  }

  lemma RemovesStep(s: Sys, t: Sys, shard: nat, version: nat, ids: seq<nat>, slice: Slice)
    requires |ids| == 1 && shard in s.views
    requires slice == Compact(Kept(s.views[shard].tables, ids), |Kept(s.views[shard].tables, ids)|, ids)
    requires Updated(s.disk, t.disk, View(shard, version, Kept(s.views[shard].tables, ids)), s.views[shard].version)
    requires slice.Slice? && t.views == s.views[shard := View(shard, version, slice.cells[..slice.len])]
    requires t.index == s.index - Elements(ids)
    ensures ids[0] in s.views[shard].tables || Nowhere(s.views, ids[0]) ==> Removes(s, t, shard, version, ids[0])
  {
    var tables := s.views[shard].tables;
    assert OneAtATime(tables, ids);
    MemoryFollowsStorageExactly(tables, ids);
    ShorterDiffers(Kept(tables, ids), slice);
    Singleton(ids);
    assert Elements(ids) == {ids[0]};
  }

  /** UpdateShardVersionWithExpect, whatever is expected. */
  ghost predicate Versions(s: Sys, t: Sys, shard: nat, version: nat, want: nat)
  {
    && shard in s.views
    && var v := View(shard, version, s.views[shard].tables);
       Updated(s.disk, t.disk, v, want) && t.views == s.views[shard := v] && t.index == s.index
  }

  /** The tables of the views are on no shard yet, and none is on two of them. */
  ghost predicate NewTables(before: map<nat, View>, views: seq<View>)
  {
    && (forall i, x :: 0 <= i < |views| && x in views[i].tables ==> Nowhere(before, x))
    && (forall i, j, x :: 0 <= i < j < |views| && x in views[i].tables ==> x !in views[j].tables)
  }

  /** CreateShardViews of shards with such tables. */
  ghost predicate Creates(s: Sys, t: Sys, views: seq<View>)
  {
    && Missing(s.disk, views) && NewTables(s.views, views)
    && t.disk == Stored(s.disk, views) && Synced(t.views, t.index, t.disk)
  }

  ghost predicate Next(s: Sys, t: Sys)
  {
    || (exists views :: Creates(s, t, views))
    || (exists shard, version, ids :: Adds(s, t, shard, version, ids))
    || (exists shard, version, x :: Removes(s, t, shard, version, x))
    || (exists shard, version, want :: Versions(s, t, shard, version, want))
  }

  ghost predicate Inv(s: Sys)
  {
    Synced(s.views, s.index, s.disk) && OneShardEach(s.views)
  }

  lemma AddsKeeps(s: Sys, t: Sys, shard: nat, version: nat, ids: seq<nat>)
    requires Inv(s) && Adds(s, t, shard, version, ids)
    ensures Inv(t)
  {
    var v := View(shard, version, s.views[shard].tables + ids);
    UpdatedLatest(s.disk, t.disk, v, s.views[shard].version);
    AddExactly(s.index, s.views, shard, version, ids);
    assert forall i :: 0 <= i < |ids| ==> Nowhere(s.views, ids[i]);
  }

  lemma RemovesKeeps(s: Sys, t: Sys, shard: nat, version: nat, x: nat)
    requires Inv(s) && Removes(s, t, shard, version, x)
    ensures Inv(t)
  {
    var tables := s.views[shard].tables;
    UpdatedLatest(s.disk, t.disk, View(shard, version, Kept(tables, [x])), s.views[shard].version);
    RemoveExactly(s.index, s.views, shard, version, [x]);
    assert Elements([x]) == {x};
    assert OnlyOn(s.views, shard, x);
    forall u ensures u in Kept(tables, [x]) ==> u in tables { KeptHas(tables, [x], u); }
  }

  lemma VersionsKeeps(s: Sys, t: Sys, shard: nat, version: nat, want: nat)
    requires Inv(s) && Versions(s, t, shard, version, want)
    ensures Inv(t)
  {
    UpdatedLatest(s.disk, t.disk, View(shard, version, s.views[shard].tables), want);
    VersionKeepsIndex(s.index, s.views, shard, version);
  }

  /** Where the latest view of a shard comes from. */
  ghost predicate ViewFrom(d: Disk, views: seq<View>, s: nat, v: View)
    requires PointersOk(d)
  {
    (s in d.latest && v == Latest(d)[s]) || exists i :: 0 <= i < |views| && views[i].shard == s && v == views[i]
  }

  lemma ViewFromMore(d: Disk, views: seq<View>, s: nat, v: View)
    requires PointersOk(d) && views != [] && ViewFrom(d, views[..|views| - 1], s, v)
    ensures ViewFrom(d, views, s, v)
  {
    var early := views[..|views| - 1];
    assert forall i :: 0 <= i < |early| ==> early[i] == views[i];
  }

  lemma {:induction false} StoredView(d: Disk, views: seq<View>, s: nat)
    requires PointersOk(d) && Missing(d, views)
    ensures PointersOk(Stored(d, views))
    ensures s in Stored(d, views).latest ==> ViewFrom(d, views, s, Latest(Stored(d, views))[s])
    decreases |views|
  {
    if views != [] {
      var k := |views| - 1;
      StoredView(d, views[..k], s);
      StoredPointers(d, views);
      if s in Stored(d, views).latest && s != views[k].shard {
        ViewFromMore(d, views, s, Latest(Stored(d, views[..k]))[s]);
      }
    }
  }

  lemma FromApart(s: Sys, views: seq<View>, i: nat, j: nat, v: View, w: View, x: nat)
    requires Synced(s.views, s.index, s.disk) && OneShardEach(s.views)
    requires Missing(s.disk, views) && NewTables(s.views, views)
    requires ViewFrom(s.disk, views, i, v) && ViewFrom(s.disk, views, j, w) && x in v.tables && x in w.tables
    ensures i == j
  {
    if Nowhere(s.views, x) {
      var a :| 0 <= a < |views| && views[a].shard == i && v == views[a];
      var b :| 0 <= b < |views| && views[b].shard == j && w == views[b];
      assert !(a < b) && !(b < a);
    }
  }

  lemma CreatesKeeps(s: Sys, t: Sys, views: seq<View>)
    requires Inv(s) && Creates(s, t, views)
    ensures Inv(t)
  {
    forall i, j, x | i in t.views && j in t.views && x in t.views[i].tables && x in t.views[j].tables ensures i == j {
      StoredView(s.disk, views, i);
      StoredView(s.disk, views, j);
      FromApart(s, views, i, j, t.views[i], t.views[j], x);
    }
  }

  lemma StepKeeps(s: Sys, t: Sys)
    requires Inv(s) && Next(s, t)
    ensures Inv(t)
  {
    if views :| Creates(s, t, views) {
      CreatesKeeps(s, t, views);
    } else if shard, version, ids :| Adds(s, t, shard, version, ids) {
      AddsKeeps(s, t, shard, version, ids);
    } else if shard, version, x :| Removes(s, t, shard, version, x) {
      RemovesKeeps(s, t, shard, version, x);
    } else {
      var shard, version, want :| Versions(s, t, shard, version, want);
      VersionsKeeps(s, t, shard, version, want);
    }
  }

  /** Nothing is stored or loaded. */
  const EMPTY := Sys(map[], map[], Disk(map[], map[]))

  lemma EmptyInv()
    ensures Inv(EMPTY)
  {
  }

  /** Throughout every run from the empty system, in which shards are created, and tables are added only where no
      shard has them and removed one at a time, memory is what a reload would build, every latest_version key points
      at a stored view, and no table is on two shards. */
  lemma AlwaysSynced(run: seq<Sys>)
    requires IsRun(Next, run) && run[0] == EMPTY
    ensures forall i :: 0 <= i < |run| ==> Synced(run[i].views, run[i].index, run[i].disk) && OneShardEach(run[i].views)
  {
    EmptyInv();
    forall s, t | Inv(s) && Next(s, t) ensures Inv(t) { StepKeeps(s, t); }
    HoldsThroughout(Next, Inv, run);
    forall i | 0 <= i < |run| ensures Synced(run[i].views, run[i].index, run[i].disk) && OneShardEach(run[i].views) {
      assert Inv(run[i]);
    }
  }

  // ----- the expected version -----

  /** UpdateShardVersionWithExpect changes nothing when another version is expected if and only if the version
      expected is the one in memory, or the new version is. */
  lemma ExpectationExactly(s: Sys, t: Sys, shard: nat, version: nat, want: nat)
    requires Inv(s) && Versions(s, t, shard, version, want)
    ensures (want != s.views[shard].version ==> t.views == s.views)
      <==> want == s.views[shard].version || version == s.views[shard].version
  {
    UpdatedLatest(s.disk, t.disk, View(shard, version, s.views[shard].tables), want);
    assert s.views[shard].shard == shard;
    assert t.views[shard].version == version;
  }

  function OneShard(version: nat, stored: map<(nat, nat), View>): Sys
  {
    Sys(map[0 := View(0, version, [])], map[], Disk(map[0 := version], stored))
  }

  lemma OneShardSynced(version: nat, stored: map<(nat, nat), View>)
    requires (0, version) in stored && stored[(0, version)] == View(0, version, [])
    ensures var s := OneShard(version, stored); Synced(s.views, s.index, s.disk)
  {
    NothingIndexed(map[0 := View(0, version, [])]);
  }

  lemma NothingIndexed(views: map<nat, View>)
    requires forall s :: s in views ==> views[s].tables == []
    ensures IndexOk(map[], views)
  {
    ListedFacts(views.Keys);
    var shards := Listed(views.Keys);
    forall i | 0 <= i < |shards| ensures shards[i] in views { assert shards[i] in shards; }
    forall t ensures ShardsOf(shards, views, t) == [] { ShardsEmpty(shards, views, t); }
  }

  lemma FirstShard(s: Sys)
    requires s == OneShard(0, map[(0, 0) := View(0, 0, [])])
    ensures Creates(EMPTY, s, [View(0, 0, [])])
  {
    var views := [View(0, 0, [])];
    OneShardSynced(0, s.disk.views);
    assert views[..0] == [];
    assert Stored(EMPTY.disk, []) == EMPTY.disk;
    assert Stored(EMPTY.disk, views) == Put(EMPTY.disk, views[0]);
  }

  /** A run from the empty system in which shard 0 is at version 0, version 7 is expected, and version 1 is stored
      all the same. */
  lemma StoredAgainstExpectation() returns (run: seq<Sys>)
    ensures IsRun(Next, run) && run[0] == EMPTY && |run| == 3
    ensures 0 in run[1].views && run[1].views[0].version == 0 && Versions(run[1], run[2], 0, 1, 7)
    ensures 0 in run[2].disk.latest && run[2].disk.latest[0] == 1
  {
    var s1 := OneShard(0, map[(0, 0) := View(0, 0, [])]);
    var s2 := OneShard(1, map[(0, 0) := View(0, 0, []), (0, 1) := View(0, 1, [])]);
    FirstShard(s1);
    assert Versions(s1, s2, 0, 1, 7);
    run := [EMPTY, s1, s2];
    assert Next(EMPTY, s1) && Next(s1, s2);
  }
}
