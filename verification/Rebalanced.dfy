/** rebalanced/scheduler.go: transfers that bring the shards to their target nodes, a batch at a time. */
module Rebalanced {
  import opened Common
  import opened ConsistentHash
  import opened HashTheorems
  import opened NodePicker

  datatype ShardNode = ShardNode(shard: nat, node: Name)

  /** A transfer of a shard; `from` is empty for a shard that no node has. */
  datatype Transfer = Transfer(shard: nat, from: Name, to: Name)

  // ----- what is out of place -----

  /** The node of every listed shard. */
  function Current(nodes: seq<ShardNode>): map<nat, Name>
  {
    if nodes == [] then map[]
    else var k := |nodes| - 1; Current(nodes[..k])[nodes[k].shard := nodes[k].node]
  }

  predicate Lists(nodes: seq<ShardNode>, s: nat)
  {
    exists i :: 0 <= i < |nodes| && nodes[i].shard == s
  }

  /** Entry i is the last one of its shard. */
  ghost predicate LastAt(nodes: seq<ShardNode>, i: nat)
  {
    i < |nodes| && forall j :: i < j < |nodes| ==> nodes[j].shard != nodes[i].shard
  }

  /** The last entry of a shard counts. */
  lemma {:induction false} CurrentExactly(nodes: seq<ShardNode>, s: nat) returns (i: nat)
    ensures s in Current(nodes) <==> Lists(nodes, s)
    ensures s in Current(nodes) ==> LastAt(nodes, i) && nodes[i] == ShardNode(s, Current(nodes)[s])
    decreases |nodes|
  {
    i := 0;
    if nodes != [] {
      var k := |nodes| - 1;
      i := CurrentExactly(nodes[..k], s);
      ListsMore(nodes[..k], nodes[k], s);
      SplitLast(nodes);
      if nodes[k].shard == s { i := k; }
    }
  }

  lemma ListsMore(nodes: seq<ShardNode>, n: ShardNode, s: nat)
    ensures Lists(nodes + [n], s) <==> Lists(nodes, s) || n.shard == s
  {
    var more := nodes + [n];
    if Lists(nodes, s) {
      var i :| 0 <= i < |nodes| && nodes[i].shard == s;
      assert more[i].shard == s;
    }
    if n.shard == s { assert more[|nodes|].shard == s; }
  }

  predicate InPlace(cur: map<nat, Name>, target: map<nat, Name>, s: nat)
  {
    s in cur && s in target && cur[s] == target[s]
  }

  /** The shards that are on another node than their target, or on none. */
  function Misplaced(cur: map<nat, Name>, n: nat, target: map<nat, Name>): set<nat>
  {
    set s | 0 <= s < n && !InPlace(cur, target, s)
  }

  function ShardsOf(ts: seq<Transfer>): set<nat>
  {
    set i | 0 <= i < |ts| :: ts[i].shard
  }

  ghost predicate DistinctShards(ts: seq<Transfer>)
  {
    forall i, j :: 0 <= i < j < |ts| ==> ts[i].shard != ts[j].shard
  }

  lemma {:induction false} ShardCount(ts: seq<Transfer>)
    requires DistinctShards(ts)
    ensures |ShardsOf(ts)| == |ts|
    decreases |ts|
  {
    if ts == [] {
      assert ShardsOf(ts) == {};
    } else {
      var k := |ts| - 1;
      ShardCount(ts[..k]);
      assert ShardsOf(ts) == ShardsOf(ts[..k]) + {ts[k].shard};
      assert ts[k].shard !in ShardsOf(ts[..k]);
    }
  }

  /** The transfer takes a misplaced shard from where it is to its target. */
  ghost predicate IsTransfer(t: Transfer, cur: map<nat, Name>, n: nat, target: map<nat, Name>)
  {
    && t.shard in Misplaced(cur, n, target)
    && t.shard in target && t.to == target[t.shard]
    && t.from == if t.shard in cur then cur[t.shard] else ""
  }

  ghost predicate AreTransfers(ts: seq<Transfer>, cur: map<nat, Name>, n: nat, target: map<nat, Name>)
  {
    DistinctShards(ts) && forall i :: 0 <= i < |ts| ==> IsTransfer(ts[i], cur, n, target)
  }

  function Min(a: nat, b: nat): nat { if a < b then a else b }

  /** As many transfers as the batch allows, of different misplaced shards. */
  ghost predicate IsPlan(ts: seq<Transfer>, cur: map<nat, Name>, n: nat, target: map<nat, Name>, batch: nat)
  {
    AreTransfers(ts, cur, n, target) && |ts| == Min(batch, |Misplaced(cur, n, target)|)
  }

  lemma PlanSize(ts: seq<Transfer>, cur: map<nat, Name>, n: nat, target: map<nat, Name>, batch: nat)
    requires AreTransfers(ts, cur, n, target) && |ts| <= batch
    requires |ts| < batch ==> Misplaced(cur, n, target) <= ShardsOf(ts)
    ensures IsPlan(ts, cur, n, target, batch)
  {
    ShardCount(ts);
    assert ShardsOf(ts) <= Misplaced(cur, n, target);
    SubsetSize(ShardsOf(ts), Misplaced(cur, n, target));
    if |ts| < batch { assert ShardsOf(ts) == Misplaced(cur, n, target); }
  }

  // ----- rounds -----

  /** The topology once the transfers are done. */
  function Applied(cur: map<nat, Name>, ts: seq<Transfer>): map<nat, Name>
  {
    if ts == [] then cur else var k := |ts| - 1; Applied(cur, ts[..k])[ts[k].shard := ts[k].to]
  }

  lemma {:induction false} AppliedAt(cur: map<nat, Name>, ts: seq<Transfer>, target: map<nat, Name>, s: nat)
    requires forall i :: 0 <= i < |ts| ==> ts[i].shard in target && ts[i].to == target[ts[i].shard]
    ensures InPlace(Applied(cur, ts), target, s) <==> InPlace(cur, target, s) || s in ShardsOf(ts)
    decreases |ts|
  {
    if ts != [] {
      var k := |ts| - 1;
      AppliedAt(cur, ts[..k], target, s);
      assert ShardsOf(ts) == ShardsOf(ts[..k]) + {ts[k].shard};
    }
  }

  lemma RoundRemoves(cur: map<nat, Name>, n: nat, target: map<nat, Name>, ts: seq<Transfer>, next: map<nat, Name>)
    requires AreTransfers(ts, cur, n, target) && next == Applied(cur, ts)
    ensures Misplaced(next, n, target) == Misplaced(cur, n, target) - ShardsOf(ts)
    ensures ShardsOf(ts) <= Misplaced(cur, n, target)
  {
    assert forall i :: 0 <= i < |ts| ==> IsTransfer(ts[i], cur, n, target);
    forall s: nat ensures s in Misplaced(next, n, target) <==> s in Misplaced(cur, n, target) && s !in ShardsOf(ts) {
      AppliedAt(cur, ts, target, s);
    }
  }

  lemma RemovedCount(m: set<nat>, moved: set<nat>)
    requires moved <= m
    ensures |m - moved| == |m| - |moved|
  {
    assert m == (m - moved) + moved;
  }

  /** A round puts the shards it transfers in place and moves no other. */
  lemma RoundRepairs(cur: map<nat, Name>, n: nat, target: map<nat, Name>, batch: nat, ts: seq<Transfer>,
      next: map<nat, Name>)
    requires IsPlan(ts, cur, n, target, batch) && next == Applied(cur, ts)
    ensures Misplaced(next, n, target) == Misplaced(cur, n, target) - ShardsOf(ts)
    ensures |Misplaced(next, n, target)| == |Misplaced(cur, n, target)| - Min(batch, |Misplaced(cur, n, target)|)
  {
    RoundRemoves(cur, n, target, ts, next);
    ShardCount(ts);
    RemovedCount(Misplaced(cur, n, target), ShardsOf(ts));
  }

  /** Topologies that follow each other by the rounds of a scheduler whose target stays the same. */
  ghost predicate AreRounds(curs: seq<map<nat, Name>>, plans: seq<seq<Transfer>>, n: nat, target: map<nat, Name>,
      batch: nat)
  {
    && |curs| == |plans| + 1
    && (forall i :: 0 <= i < |plans| ==> IsPlan(plans[i], curs[i], n, target, batch))
    && (forall i :: 0 <= i < |plans| ==> curs[i + 1] == Applied(curs[i], plans[i]))
  }

  /** After k rounds all but k batches of the misplaced shards are left. */
  lemma {:induction false} RoundsLeft(curs: seq<map<nat, Name>>, plans: seq<seq<Transfer>>, n: nat,
      target: map<nat, Name>, batch: nat, k: nat)
    requires AreRounds(curs, plans, n, target, batch) && k <= |plans|
    ensures var away := |Misplaced(curs[0], n, target)|;
      |Misplaced(curs[k], n, target)| == if away >= k * batch then away - k * batch else 0
    decreases k
  {
    if k > 0 {
      RoundsLeft(curs, plans, n, target, batch, k - 1);
      RoundRepairs(curs[k - 1], n, target, batch, plans[k - 1], curs[k]);
      assert (k - 1) * batch + batch == k * batch;
    }
  }

  lemma {:induction false} ProductGrows(a: nat, b: nat, n: nat)
    requires a <= b
    ensures a * n <= b * n && (a < b ==> a * n + n <= b * n)
    decreases b - a
  {
    if a < b {
      ProductGrows(a + 1, b, n);
      assert (a + 1) * n == a * n + n;
    }
  }

  lemma CeilExactly(m: nat, batch: nat, k: nat)
    requires batch >= 1
    ensures m <= k * batch <==> k >= (m + batch - 1) / batch
  {
    var q := (m + batch - 1) / batch;
    assert m + batch - 1 == q * batch + (m + batch - 1) % batch;
    if k >= q { ProductGrows(q, k, batch); } else { ProductGrows(k, q, batch); }
  }

  /** With batches of at least one, the target is reached after exactly as many rounds as it takes batches to hold
      the misplaced shards, and not before. */
  lemma ReachedExactly(curs: seq<map<nat, Name>>, plans: seq<seq<Transfer>>, n: nat, target: map<nat, Name>,
      batch: nat, k: nat)
    requires AreRounds(curs, plans, n, target, batch) && k <= |plans| && batch >= 1
    ensures (forall s: nat :: s < n ==> InPlace(curs[k], target, s))
      <==> k >= (|Misplaced(curs[0], n, target)| + batch - 1) / batch
  {
    RoundsLeft(curs, plans, n, target, batch, k);
    CeilExactly(|Misplaced(curs[0], n, target)|, batch, k);
    var m := Misplaced(curs[k], n, target);
    if m == {} {
      forall s: nat | s < n ensures InPlace(curs[k], target, s) { assert s !in m; }
    } else {
      var s := Witness(m);
      assert !InPlace(curs[k], target, s);
    }
  }

  // ----- Schedule -----

  ghost predicate ListedOnce(nodes: seq<ShardNode>)
  {
    forall i, j :: 0 <= i < j < |nodes| ==> nodes[i].shard != nodes[j].shard
  }

  /** Each shard is listed at most once, the shards are numbered from zero, and each has a target. */
  ghost predicate Regular(nodes: seq<ShardNode>, n: nat, target: map<nat, Name>)
  {
    && ListedOnce(nodes)
    && (forall i :: 0 <= i < |nodes| ==> nodes[i].shard < n)
    && (forall s: nat :: s < n ==> s in target)
  }

  function Shards(nodes: seq<ShardNode>): set<nat>
  {
    set i | 0 <= i < |nodes| :: nodes[i].shard
  }

  lemma {:induction false} CurrentAt(nodes: seq<ShardNode>, i: nat)
    requires ListedOnce(nodes) && i < |nodes|
    ensures nodes[i].shard in Current(nodes) && Current(nodes)[nodes[i].shard] == nodes[i].node
    decreases |nodes|
  {
    var k := |nodes| - 1;
    if i < k { CurrentAt(nodes[..k], i); }
  }

  lemma {:induction false} CurrentKeys(nodes: seq<ShardNode>)
    ensures Current(nodes).Keys == Shards(nodes)
    decreases |nodes|
  {
    if nodes != [] {
      var k := |nodes| - 1;
      CurrentKeys(nodes[..k]);
      assert Shards(nodes) == Shards(nodes[..k]) + {nodes[k].shard};
    }
  }

  /** The shards that were looked at are in place or transferred, unless the batch is full. */
  ghost predicate Handled(ts: seq<Transfer>, seen: set<nat>, cur: map<nat, Name>, n: nat, target: map<nat, Name>,
      batch: nat)
  {
    && AreTransfers(ts, cur, n, target) && |ts| <= batch
    && ShardsOf(ts) <= seen
    && (|ts| < batch ==> forall s :: s in seen ==> InPlace(cur, target, s) || s in ShardsOf(ts))
  }

  lemma HandleMore(ts: seq<Transfer>, seen: set<nat>, cur: map<nat, Name>, n: nat, target: map<nat, Name>, batch: nat,
      t: Transfer)
    requires Handled(ts, seen, cur, n, target, batch) && |ts| < batch
    requires t.shard !in seen && IsTransfer(t, cur, n, target)
    ensures Handled(ts + [t], seen + {t.shard}, cur, n, target, batch)
  {
    var next := ts + [t];
    assert ShardsOf(next) == ShardsOf(ts) + {t.shard} by {
      assert next[|ts|] == t;
      forall i | 0 <= i < |ts| ensures ts[i].shard in ShardsOf(next) { assert next[i] == ts[i]; }
    }
    forall i | 0 <= i < |ts| ensures ts[i].shard != t.shard { assert ts[i].shard in ShardsOf(ts); }
  }

  /** The first loop: the listed shards. None for a failed assertion. */
  method MoveListed(nodes: seq<ShardNode>, ghost n: nat, target: map<nat, Name>, batch: nat)
    returns (r: Option<seq<Transfer>>, marked: set<nat>)
    ensures Regular(nodes, n, target) ==> r.Some? && Handled(r.value, marked, Current(nodes), n, target, batch)
    ensures Regular(nodes, n, target) && |r.value| < batch ==> marked == Shards(nodes)
    ensures r.Some? ==> |r.value| <= batch
  {
    var ts: seq<Transfer> := [];
    marked := {};
    ghost var regular := Regular(nodes, n, target);
    for k := 0 to |nodes|
      invariant |ts| <= batch && marked == Shards(nodes[..k])
      invariant regular ==> Handled(ts, marked, Current(nodes), n, target, batch)
    {
      if |ts| >= batch { return Some(ts), marked; }
      assert nodes[..k + 1] == nodes[..k] + [nodes[k]];
      ghost var before := marked;
      marked := marked + {nodes[k].shard};
      assert marked == Shards(nodes[..k + 1]) by { ShardsSnoc(nodes, k); }
      if nodes[k].shard !in target { return None, marked; }
      if regular { CurrentAt(nodes, k); NotYet(nodes, k); }
      if target[nodes[k].shard] != nodes[k].node {
        var t := Transfer(nodes[k].shard, nodes[k].node, target[nodes[k].shard]);
        if regular { HandleMore(ts, before, Current(nodes), n, target, batch, t); }
        ts := ts + [t];
      }
    }
    assert nodes[..|nodes|] == nodes;
    return Some(ts), marked;
  }

  lemma ShardsSnoc(nodes: seq<ShardNode>, k: nat)
    requires k < |nodes|
    ensures Shards(nodes[..k + 1]) == Shards(nodes[..k]) + {nodes[k].shard}
  {
    var a, b := nodes[..k], nodes[..k + 1];
    assert b[k] == nodes[k];
    forall i | 0 <= i < k ensures a[i].shard in Shards(b) { assert b[i] == a[i]; }
    forall i | 0 <= i < |b| ensures b[i].shard in Shards(a) + {nodes[k].shard} { assert i < k ==> a[i] == b[i]; }
  }

  lemma NotYet(nodes: seq<ShardNode>, k: nat)
    requires ListedOnce(nodes) && k < |nodes|
    ensures nodes[k].shard !in Shards(nodes[..k])
  {
  }

  /** The second loop: the shards that no node has. */
  method PlaceUnlisted(ts0: seq<Transfer>, marked: set<nat>, n: nat, target: map<nat, Name>, batch: nat,
      ghost nodes: seq<ShardNode>)
    returns (r: Option<seq<Transfer>>)
    requires |ts0| <= batch
    requires Regular(nodes, n, target) ==> Handled(ts0, marked, Current(nodes), n, target, batch)
    requires Regular(nodes, n, target) && |ts0| < batch ==> marked == Shards(nodes)
    ensures Regular(nodes, n, target) ==> r.Some? && IsPlan(r.value, Current(nodes), n, target, batch)
    ensures r.Some? ==> |r.value| <= batch
  {
    var ts := ts0;
    ghost var cur := Current(nodes);
    ghost var regular := Regular(nodes, n, target);
    CurrentKeys(nodes);
    for id := 0 to n
      invariant |ts0| <= |ts| <= batch
      invariant regular ==> Handled(ts, marked + Numbers(id), cur, n, target, batch)
    {
      if |ts| >= batch {
        if regular { PlanSize(ts, cur, n, target, batch); }
        return Some(ts);
      }
      assert Numbers(id + 1) == Numbers(id) + {id};
      if id !in marked {
        if id !in target { return None; }
        var t := Transfer(id, "", target[id]);
        if regular { HandleMore(ts, marked + Numbers(id), cur, n, target, batch, t); }
        ts := ts + [t];
        assert marked + Numbers(id + 1) == marked + Numbers(id) + {id};
      } else {
        assert marked + Numbers(id + 1) == marked + Numbers(id);
      }
    }
    if regular { PlanSize(ts, cur, n, target, batch); }
    return Some(ts);
  }

  function Numbers(n: nat): (r: set<nat>)
    ensures forall s: nat :: s in r <==> s < n
  {
    if n == 0 then {} else Numbers(n - 1) + {n - 1}
  }

  /** What Schedule is given: the listed shards, the shards that have a view, and the registered nodes. */
  datatype Topology = Topology(isEmpty: bool, shardNodes: seq<ShardNode>, shards: seq<nat>, nodes: seq<RegisteredNode>)

  datatype Mapping = Mapped(target: map<nat, Name>) | Unmapped | Crashed

  datatype ScheduleResult = Nothing | Batch(transfers: seq<Transfer>) | Failed | Aborted

  function PlanOf(r: ScheduleResult): seq<Transfer>
    requires r.Nothing? || r.Batch?
  {
    if r.Batch? then r.transfers else []
  }

  function NamesOf(nodes: map<nat, RegisteredNode>): map<nat, Name>
  {
    map s | s in nodes :: nodes[s].name
  }

  /** The owner of the shard, and the only one. */
  ghost predicate SoleOwner(parts: map<Name, set<int>>, shard: nat, name: Name)
  {
    && name in parts && shard in parts[name]
    && forall m :: m in parts && m != name ==> shard !in parts[m]
  }

  /** A target mapping picked anew: there is none exactly without alive nodes. Otherwise the hash of the alive nodes is
      built with the affinity rules, for as many partitions as there are shards; it crashes exactly when the hash has
      no room or a shard is out of range, and else sends every shard to its owner under the hash. */
  ghost predicate IsPick(r: Mapping, hasher: Hasher, affinity: map<nat, nat>, t: Topology, now: int,
      alive: map<Name, RegisteredNode>, c: Case)
  {
    && IsAlive(alive, t.nodes, now) && (r.Unmapped? <==> alive == map[])
    && (!r.Unmapped? ==>
          && BuiltFrom(c, hasher, |t.shards|, affinity, Members(t.nodes, alive))
          && (r.Crashed? <==> c.Dist().None? || exists i :: 0 <= i < |t.shards| && t.shards[i] >= |t.shards|))
    && (r.Mapped? ==>
          && r.target.Keys == Elements(t.shards)
          && forall s :: s in r.target ==> SoleOwner(c.Repair().a.parts, s, r.target[s]) && r.target[s] in alive)
  }

  lemma NamesPicked(picked: map<nat, RegisteredNode>, nodes: seq<RegisteredNode>, now: int,
      alive: map<Name, RegisteredNode>, parts: map<Name, set<int>>)
    requires IsAlive(alive, nodes, now) && forall s :: s in picked ==> PickedFor(picked[s], s, nodes, now, parts)
    ensures NamesOf(picked).Keys == picked.Keys
    ensures forall s :: s in picked ==> SoleOwner(parts, s, picked[s].name) && picked[s].name in alive
  {
    forall s | s in picked ensures SoleOwner(parts, s, picked[s].name) && picked[s].name in alive {
      assert PickedFor(picked[s], s, nodes, now, parts);
      var i :| 0 <= i < |nodes| && nodes[i] == picked[s];
    }
  }

  method PickTarget(hasher: Hasher, affinity: map<nat, nat>, t: Topology, now: int)
    returns (r: Mapping, ghost alive: map<Name, RegisteredNode>, ghost c: Case)
    ensures IsPick(r, hasher, affinity, t, now, alive, c)
  {
    var picked;
    picked, alive, c := PickNode(hasher, |t.shards|, affinity, t.shards, t.nodes, now);
    if picked.NoAliveNodes? { return Unmapped, alive, c; }
    if picked.Panicked? { return Crashed, alive, c; }
    NamesPicked(picked.nodes, t.nodes, now, alive, c.Repair().a.parts);
    return Mapped(NamesOf(picked.nodes)), alive, c;
  }

  class SchedulerImpl {
    const hasher: Hasher
    const batchSize: nat
    var latestShardNodeMapping: map<nat, Name>
    var enableSchedule: bool
    var shardAffinityRule: map<nat, nat>

    constructor (h: Hasher, batch: nat)
      ensures hasher == h && batchSize == batch
      ensures latestShardNodeMapping == map[] && !enableSchedule && shardAffinityRule == map[]
    {
      hasher, batchSize := h, batch;
      latestShardNodeMapping, enableSchedule, shardAffinityRule := map[], false, map[];
    }

    method UpdateEnableSchedule(enable: bool)
      modifies this`enableSchedule
      ensures enableSchedule == enable
    {
      enableSchedule := enable;
    }

    /** While enableSchedule is set the target is frozen; otherwise it is picked anew. */
    method GenerateLatestShardNodeMapping(t: Topology, now: int)
      returns (r: Mapping, ghost alive: map<Name, RegisteredNode>, ghost c: Case)
      modifies this`latestShardNodeMapping
      ensures enableSchedule ==> r == Mapped(old(latestShardNodeMapping))
      ensures !enableSchedule ==> IsPick(r, hasher, shardAffinityRule, t, now, alive, c)
      ensures latestShardNodeMapping == if r.Mapped? then r.target else old(latestShardNodeMapping)
    {
      alive, c := map[], Case(hasher, 1, 0, [], [], Build([], [], [], []));
      if enableSchedule { return Mapped(latestShardNodeMapping), alive, c; }
      r, alive, c := PickTarget(hasher, shardAffinityRule, t, now);
      if r.Mapped? { latestShardNodeMapping := r.target; }
    }

    /** Towards the target `m` a regular topology gets as many transfers as the batch allows, for different misplaced
        shards; `creates` tells whether the procedures can be created. */
    method Schedule(t: Topology, now: int, creates: bool)
      returns (r: ScheduleResult, ghost m: Mapping, ghost alive: map<Name, RegisteredNode>, ghost c: Case)
      modifies this`latestShardNodeMapping
      ensures t.isEmpty ==> r.Nothing? && latestShardNodeMapping == old(latestShardNodeMapping)
      ensures !t.isEmpty && enableSchedule ==> m == Mapped(old(latestShardNodeMapping))
      ensures !t.isEmpty && !enableSchedule ==> IsPick(m, hasher, shardAffinityRule, t, now, alive, c)
      ensures !t.isEmpty ==> latestShardNodeMapping == if m.Mapped? then m.target else old(latestShardNodeMapping)
      ensures !t.isEmpty && m.Unmapped? ==> r.Nothing?
      ensures !t.isEmpty && m.Crashed? ==> r.Aborted?
      ensures (r.Batch? ==> r.transfers != []) && (r.Failed? ==> !creates)
      ensures !t.isEmpty && m.Mapped? && Regular(t.shardNodes, |t.shards|, m.target) ==>
        if !creates && batchSize > 0 && Misplaced(Current(t.shardNodes), |t.shards|, m.target) != {} then r.Failed?
        else (r.Nothing? || r.Batch?) && IsPlan(PlanOf(r), Current(t.shardNodes), |t.shards|, m.target, batchSize)
    {
      m, alive, c := Unmapped, map[], Case(hasher, 1, 0, [], [], Build([], [], [], []));
      if t.isEmpty { return Nothing, m, alive, c; }
      var mapping;
      mapping, alive, c := GenerateLatestShardNodeMapping(t, now);
      m := mapping;
      if mapping.Unmapped? { return Nothing, m, alive, c; }
      if mapping.Crashed? { return Aborted, m, alive, c; }
      r := PlanTransfers(t, mapping.target, creates);
    }

    method PlanTransfers(t: Topology, target: map<nat, Name>, creates: bool) returns (r: ScheduleResult)
      ensures (r.Batch? ==> r.transfers != []) && (r.Failed? ==> !creates)
      ensures Regular(t.shardNodes, |t.shards|, target) ==>
        if !creates && batchSize > 0 && Misplaced(Current(t.shardNodes), |t.shards|, target) != {} then r.Failed?
        else (r.Nothing? || r.Batch?) && IsPlan(PlanOf(r), Current(t.shardNodes), |t.shards|, target, batchSize)
    {
      var moved, marked := MoveListed(t.shardNodes, |t.shards|, target, batchSize);
      if moved.None? { return Aborted; }
      var all := PlaceUnlisted(moved.value, marked, |t.shards|, target, batchSize, t.shardNodes);
      if all.None? { return Aborted; }
      if |all.value| == 0 { return Nothing; }
      if !creates { return Failed; }
      return Batch(all.value);
    }
  }
}
