/** node_picker.go: shards to nodes by the consistent uniform hash over the nodes that are alive. */
module NodePicker {
  import opened Common
  import opened Placement
  import opened Affinity
  import opened ConsistentHash
  import opened HashTheorems

  const REPLICATION_FACTOR: nat := 127

  /** In milliseconds. */
  const EXPIRED_THRESHOLD: nat := 10000

  datatype RegisteredNode = RegisteredNode(name: Name, lastTouchTime: int)

  predicate IsExpired(n: RegisteredNode, now: int)
  {
    now > n.lastTouchTime + EXPIRED_THRESHOLD
  }

  /** The last of the nodes with the name that is alive. */
  ghost predicate LastAlive(nodes: seq<RegisteredNode>, now: int, name: Name, n: RegisteredNode)
  {
    exists i :: 0 <= i < |nodes| && nodes[i] == n && n.name == name && !IsExpired(n, now)
      && forall j :: i < j < |nodes| && nodes[j].name == name ==> IsExpired(nodes[j], now)
  }

  /** Every name of a node that is alive, with the last such node. */
  ghost predicate IsAlive(alive: map<Name, RegisteredNode>, nodes: seq<RegisteredNode>, now: int)
  {
    && (forall n :: n in alive ==> LastAlive(nodes, now, n, alive[n]))
    && (forall i :: 0 <= i < |nodes| && !IsExpired(nodes[i], now) ==> nodes[i].name in alive)
  }

  method FilterExpiredNodes(nodes: seq<RegisteredNode>, now: int) returns (alive: map<Name, RegisteredNode>)
    ensures IsAlive(alive, nodes, now)
  {
    alive := map[];
    for i := 0 to |nodes|
      invariant IsAlive(alive, nodes[..i], now)
    {
      ghost var was := alive;
      if !IsExpired(nodes[i], now) { alive := alive[nodes[i].name := nodes[i]]; }
      AliveMore(was, nodes, i, now, alive);
    }
    TakeAll(nodes);
  }

  lemma StillLast(nodes: seq<RegisteredNode>, next: RegisteredNode, now: int, name: Name, n: RegisteredNode)
    requires LastAlive(nodes, now, name, n) && (next.name != name || IsExpired(next, now))
    ensures LastAlive(nodes + [next], now, name, n)
  {
    var k :| 0 <= k < |nodes| && nodes[k] == n && n.name == name && !IsExpired(n, now)
      && forall j :: k < j < |nodes| && nodes[j].name == name ==> IsExpired(nodes[j], now);
    assert (nodes + [next])[k] == n;
  }

  lemma AliveMore(was: map<Name, RegisteredNode>, nodes: seq<RegisteredNode>, i: nat, now: int,
      alive: map<Name, RegisteredNode>)
    requires i < |nodes| && IsAlive(was, nodes[..i], now)
    requires alive == if IsExpired(nodes[i], now) then was else was[nodes[i].name := nodes[i]]
    ensures IsAlive(alive, nodes[..i + 1], now)
  {
    var some, more := nodes[..i], nodes[..i + 1];
    assert more == some + [nodes[i]];
    forall n | n in alive ensures LastAlive(more, now, n, alive[n]) {
      if n == nodes[i].name && !IsExpired(nodes[i], now) {
        assert more[i] == alive[n];
      } else {
        StillLast(some, nodes[i], now, n, was[n]);
      }
    }
    forall k | 0 <= k < |more| && !IsExpired(more[k], now) ensures more[k].name in alive {
      if k < i { assert some[k] == more[k]; }
    }
  }

  /** One rule for each shard that has one. */
  ghost predicate AreRules(rules: seq<Rule>, affinity: map<nat, nat>)
  {
    && (forall i :: 0 <= i < |rules| ==>
      rules[i].partition in affinity && rules[i].others == affinity[rules[i].partition])
    && (forall s :: s in affinity ==> Rule(s, affinity[s]) in rules)
    && OneRuleEach(rules)
  }

  method GenPartitionAffinities(affinity: map<nat, nat>) returns (rules: seq<Rule>)
    ensures AreRules(rules, affinity)
  {
    rules := [];
    var rest := affinity.Keys;
    while rest != {}
      invariant rest <= affinity.Keys && OneRuleEach(rules)
      invariant forall i :: 0 <= i < |rules| ==> rules[i].partition in affinity.Keys - rest
      invariant forall i :: 0 <= i < |rules| ==> rules[i].others == affinity[rules[i].partition]
      invariant forall s :: s in affinity.Keys - rest ==> Rule(s, affinity[s]) in rules
      decreases |rest|
    {
      var s := Pick(rest);
      assert |rest - {s}| == |rest| - 1;
      rules := rules + [Rule(s, affinity[s])];
      rest := rest - {s};
    }
  }

  /** The names handed to the hash: one for each registered node whose name is alive. */
  function Members(nodes: seq<RegisteredNode>, alive: map<Name, RegisteredNode>): seq<Name>
  {
    if nodes == [] then []
    else var k := |nodes| - 1; Members(nodes[..k], alive) + if nodes[k].name in alive then [nodes[k].name] else []
  }

  lemma {:induction false} MembersAlive(nodes: seq<RegisteredNode>, alive: map<Name, RegisteredNode>)
    ensures Elements(Members(nodes, alive)) <= alive.Keys
    ensures forall i :: 0 <= i < |nodes| && nodes[i].name in alive ==> nodes[i].name in Members(nodes, alive)
    decreases |nodes|
  {
    if nodes != [] {
      var k := |nodes| - 1;
      MembersAlive(nodes[..k], alive);
      forall i | 0 <= i < k && nodes[i].name in alive ensures nodes[i].name in Members(nodes, alive) {
        assert nodes[..k][i] == nodes[i];
      }
    }
  }

  /** Nodes that share a name which is alive count each, expired or not. */
  lemma {:induction false} MembersCount(nodes: seq<RegisteredNode>, alive: map<Name, RegisteredNode>, n: Name)
    ensures multiset(Members(nodes, alive))[n] == if n in alive then |Named(nodes, n)| else 0
    decreases |nodes|
  {
    if nodes == [] {
      assert Named(nodes, n) == {};
    } else {
      var k := |nodes| - 1;
      MembersCount(nodes[..k], alive, n);
      NamedMore(nodes[..k], nodes[k], n);
      SplitLast(nodes);
    }
  }

  function Named(nodes: seq<RegisteredNode>, n: Name): set<nat>
  {
    set i | 0 <= i < |nodes| && nodes[i].name == n
  }

  lemma NamedMore(nodes: seq<RegisteredNode>, next: RegisteredNode, n: Name)
    ensures |Named(nodes + [next], n)| == |Named(nodes, n)| + if next.name == n then 1 else 0
  {
    var early, all := Named(nodes, n), Named(nodes + [next], n);
    if next.name == n {
      assert all == early + {|nodes|};
    } else {
      assert all == early;
    }
  }

  datatype Picking = Picked(nodes: map<nat, RegisteredNode>) | NoAliveNodes | Panicked

  /** The shard goes to an alive node, the last one with the name that the hash makes the only owner of the shard. */
  ghost predicate PickedFor(n: RegisteredNode, shard: nat, nodes: seq<RegisteredNode>, now: int,
      parts: map<Name, set<int>>)
  {
    && LastAlive(nodes, now, n.name, n)
    && n.name in parts && shard in parts[n.name]
    && forall m :: m in parts && m != n.name ==> shard !in parts[m]
  }

  ghost predicate AllAlive(picked: map<nat, RegisteredNode>, nodes: seq<RegisteredNode>, now: int)
  {
    forall s :: s in picked ==> picked[s] in nodes && !IsExpired(picked[s], now)
  }

  ghost predicate BuiltFrom(c: Case, hasher: Hasher, numShards: nat, affinity: map<nat, nat>, members: seq<Name>)
  {
    && c.Ok() && c.h == hasher && c.rf == REPLICATION_FACTOR && c.count == numShards
    && c.members == members && AreRules(c.affinities, affinity)
  }

  /** Every shard of the list gets an alive node, and it is its owner under the hash of the alive nodes. Without an
      alive node there is an error; it panics exactly when the hash runs out of room or a shard of the list is
      not below the number of shards. */
  method PickNode(hasher: Hasher, numShards: nat, affinity: map<nat, nat>, shardIDs: seq<nat>,
      nodes: seq<RegisteredNode>, now: int)
    returns (r: Picking, ghost alive: map<Name, RegisteredNode>, ghost c: Case)
    ensures IsAlive(alive, nodes, now)
    ensures r.NoAliveNodes? <==> alive == map[]
    ensures !r.NoAliveNodes? ==> BuiltFrom(c, hasher, numShards, affinity, Members(nodes, alive))
    ensures !r.NoAliveNodes? ==>
      (r.Panicked? <==> c.Dist().None? || exists i :: 0 <= i < |shardIDs| && shardIDs[i] >= numShards)
    ensures r.Picked? ==> r.nodes.Keys == Elements(shardIDs) && AllAlive(r.nodes, nodes, now)
    ensures r.Picked? ==> forall s :: s in r.nodes ==> PickedFor(r.nodes[s], s, nodes, now, c.Repair().a.parts)
  {
    var living := FilterExpiredNodes(nodes, now);
    alive := living;
    c := Case(hasher, 1, 0, [], [], Build([], [], [], []));
    if |living| == 0 { return NoAliveNodes, alive, c; }
    var mems := ListMembers(nodes, living);
    var rules := GenPartitionAffinities(affinity);
    MembersNonEmpty(nodes, living, now);
    var config := Config(Some(hasher), REPLICATION_FACTOR, rules);
    var built;
    ghost var b;
    built, b := BuildConsistentUniformHash(numShards, mems, config);
    c := Case(hasher, REPLICATION_FACTOR, numShards, mems, rules, b);
    if built.NotEnoughRoom? { return Panicked, alive, c; }
    RepairConserves(c);
    MembersAlive(nodes, living);
    assert built.hash.memPartitions.Keys == Elements(mems) by { assert built.hash.Lay().names == Elements(mems); }
    r := Assign(built.hash, shardIDs, nodes, living, now);
  }

  method ListMembers(nodes: seq<RegisteredNode>, alive: map<Name, RegisteredNode>) returns (mems: seq<Name>)
    ensures mems == Members(nodes, alive)
  {
    mems := [];
    for i := 0 to |nodes|
      invariant mems == Members(nodes[..i], alive)
    {
      assert nodes[..i + 1][..i] == nodes[..i];
      if nodes[i].name in alive { mems := mems + [nodes[i].name]; }
    }
    assert nodes[..|nodes|] == nodes;
  }

  lemma MembersNonEmpty(nodes: seq<RegisteredNode>, alive: map<Name, RegisteredNode>, now: int)
    requires IsAlive(alive, nodes, now) && |alive| != 0
    ensures Members(nodes, alive) != []
  {
    var n := Witness(alive.Keys);
    assert alive[n] in nodes;
    var i :| 0 <= i < |nodes| && nodes[i] == alive[n];
    MembersAlive(nodes, alive);
  }

  method Assign(hash: ConsistentUniformHash, shardIDs: seq<nat>, nodes: seq<RegisteredNode>,
      alive: map<Name, RegisteredNode>, now: int)
    returns (r: Picking)
    requires hash.Lay().Agrees(hash.Now()) && hash.partitionDist.Keys == Below(hash.numPartitions)
    requires IsAlive(alive, nodes, now) && hash.memPartitions.Keys <= alive.Keys
    ensures r.Picked? || r.Panicked?
    ensures r.Panicked? <==> exists i :: 0 <= i < |shardIDs| && shardIDs[i] >= hash.numPartitions
    ensures r.Picked? ==> r.nodes.Keys == Elements(shardIDs) && AllAlive(r.nodes, nodes, now)
    ensures r.Picked? ==> forall s :: s in r.nodes ==> PickedFor(r.nodes[s], s, nodes, now, hash.memPartitions)
  {
    var picked: map<nat, RegisteredNode> := map[];
    for k := 0 to |shardIDs|
      invariant forall i :: 0 <= i < k ==> shardIDs[i] < hash.numPartitions
      invariant PickedSo(picked, shardIDs[..k], nodes, now, hash.memPartitions)
    {
      if shardIDs[k] >= hash.numPartitions { return Panicked; }
      var node := Owner(hash, shardIDs[k], nodes, alive, now);
      PickedMore(picked, shardIDs, k, node, nodes, now, hash.memPartitions);
      picked := picked[shardIDs[k] := node];
    }
    TakeAll(shardIDs);
    PickedAlive(picked, nodes, now, hash.memPartitions);
    return Picked(picked);
  }

  ghost predicate PickedSo(picked: map<nat, RegisteredNode>, shardIDs: seq<nat>, nodes: seq<RegisteredNode>, now: int,
      parts: map<Name, set<int>>)
  {
    picked.Keys == Elements(shardIDs) && forall s :: s in picked ==> PickedFor(picked[s], s, nodes, now, parts)
  }

  lemma PickedAlive(picked: map<nat, RegisteredNode>, nodes: seq<RegisteredNode>, now: int, parts: map<Name, set<int>>)
    requires forall s :: s in picked ==> PickedFor(picked[s], s, nodes, now, parts)
    ensures AllAlive(picked, nodes, now)
  {
  }

  lemma PickedMore(picked: map<nat, RegisteredNode>, shardIDs: seq<nat>, k: nat, n: RegisteredNode,
      nodes: seq<RegisteredNode>, now: int, parts: map<Name, set<int>>)
    requires k < |shardIDs| && PickedSo(picked, shardIDs[..k], nodes, now, parts)
    requires PickedFor(n, shardIDs[k], nodes, now, parts)
    ensures PickedSo(picked[shardIDs[k] := n], shardIDs[..k + 1], nodes, now, parts)
  {
    assert shardIDs[..k + 1] == shardIDs[..k] + [shardIDs[k]];
  }

  method Owner(hash: ConsistentUniformHash, shard: nat, nodes: seq<RegisteredNode>, alive: map<Name, RegisteredNode>,
      now: int)
    returns (n: RegisteredNode)
    requires hash.Lay().Agrees(hash.Now()) && hash.partitionDist.Keys == Below(hash.numPartitions)
    requires shard < hash.numPartitions
    requires IsAlive(alive, nodes, now) && hash.memPartitions.Keys <= alive.Keys
    ensures PickedFor(n, shard, nodes, now, hash.memPartitions)
  {
    var owner := hash.GetPartitionOwner(shard);
    assert owner.value in hash.memPartitions.Keys;
    n := alive[owner.value];
  }
}
