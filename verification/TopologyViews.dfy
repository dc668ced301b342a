/** The cluster-view half of TopologyManagerImpl: the fields that hold the view and its two indexes, the
    operations that change the view, and the load that follows each change. Every method is shown to be a
    run of the protocol of `ClusterViews`. */
module TopologyViews {
  import opened Common
  import opened ClusterViews

  // ----- the loops -----

  /** contains. */
  method IsDropped(dropped: seq<ShardNode>, n: ShardNode) returns (r: bool)
    ensures r == Contains(dropped, n)
  {
    for i := 0 to |dropped|
      invariant !Contains(dropped[..i], n)
    {
      if n.node == dropped[i].node && n.id == dropped[i].id { return true; }
    }
    assert dropped[..|dropped|] == dropped;
    return false;
  }

  /** The loop of DropShardNodes. */
  method KeepOthers(nodes: seq<ShardNode>, dropped: seq<ShardNode>) returns (r: seq<ShardNode>)
    ensures r == Kept(nodes, dropped) && WithoutDropped(nodes, dropped, r)
  {
    DropExactly(nodes, dropped);
    r := [];
    for i := 0 to |nodes|
      invariant r == Kept(nodes[..i], dropped)
    {
      var drop := IsDropped(dropped, nodes[i]);
      if !drop { r := r + [nodes[i]]; }
      assert nodes[..i + 1][..i] == nodes[..i];
    }
    assert nodes[..|nodes|] == nodes;
  }

  ghost predicate Listing(m: map<string, seq<ShardNode>>, groups: seq<(string, seq<ShardNode>)>)
  {
    && (forall i :: 0 <= i < |groups| ==> groups[i].0 in m && m[groups[i].0] == groups[i].1)
    && (forall k :: k in m ==> HasGroup(groups, k))
    && (forall i, j :: 0 <= i < j < |groups| ==> groups[i].0 != groups[j].0)
  }

  /** The first loop of UpdateClusterViewByNode, over a map in any order. */
  method Gather(m: map<string, seq<ShardNode>>) returns (r: seq<ShardNode>, ghost groups: seq<(string, seq<ShardNode>)>)
    ensures Listing(m, groups) && r == Flat(groups)
  {
    r, groups := [], [];
    var rest := m.Keys;
    while rest != {}
      invariant GatheredBut(m, rest, groups) && r == Flat(groups)
      decreases |rest|
    {
      var k := Pick(rest);
      GatherMore(m, rest, groups, k);
      r := r + m[k];
      groups := groups + [(k, m[k])];
      rest := rest - {k};
    }
  }

  /** The groups are those of all keys but the rest. */
  ghost predicate GatheredBut(m: map<string, seq<ShardNode>>, rest: set<string>, groups: seq<(string, seq<ShardNode>)>)
  {
    && rest <= m.Keys
    && (forall i :: 0 <= i < |groups| ==> groups[i].0 in m && groups[i].0 !in rest && m[groups[i].0] == groups[i].1)
    && (forall k :: k in m && k !in rest ==> HasGroup(groups, k))
    && (forall i, j :: 0 <= i < j < |groups| ==> groups[i].0 != groups[j].0)
  }

  lemma GatherMore(m: map<string, seq<ShardNode>>, rest: set<string>, groups: seq<(string, seq<ShardNode>)>, k: string)
    requires GatheredBut(m, rest, groups) && k in rest
    ensures var more := groups + [(k, m[k])];
      GatheredBut(m, rest - {k}, more) && Flat(more) == Flat(groups) + m[k] && |rest - {k}| < |rest|
  {
    var more := groups + [(k, m[k])];
    assert more[..|groups|] == groups && more[|groups|].0 == k;
    forall j | j in m && j !in rest - {k} ensures HasGroup(more, j) {
      if j != k {
        var i :| 0 <= i < |groups| && groups[i].0 == j;
        assert more[i].0 == j;
      }
    }
    assert |rest - {k}| == |rest| - 1;
  }

  /** The second loop of UpdateClusterViewByNode. */
  method KeepOffGroups(nodes: seq<ShardNode>, m: map<string, seq<ShardNode>>,
      ghost groups: seq<(string, seq<ShardNode>)>) returns (r: seq<ShardNode>)
    requires Listing(m, groups)
    ensures r == OffGroups(nodes, groups) && WithoutGroups(nodes, groups, r)
  {
    OffExactly(nodes, groups);
    r := [];
    for i := 0 to |nodes|
      invariant r == OffGroups(nodes[..i], groups)
    {
      assert nodes[i].node in m <==> HasGroup(groups, nodes[i].node);
      if nodes[i].node !in m { r := r + [nodes[i]]; }
      assert nodes[..i + 1][..i] == nodes[..i];
    }
    assert nodes[..|nodes|] == nodes;
  }

  ghost predicate ShardIndex(nodes: seq<ShardNode>, m: map<nat, seq<ShardNode>>)
  {
    m.Keys == ShardIds(nodes) && forall k :: k in m ==> m[k] == OfShard(nodes, k)
  }

  ghost predicate NodeIndex(nodes: seq<ShardNode>, m: map<string, seq<ShardNode>>)
  {
    m.Keys == NodeNames(nodes) && forall k :: k in m ==> m[k] == OfNode(nodes, k)
  }

  lemma {:induction false} NoneOfShard(nodes: seq<ShardNode>, k: nat)
    requires k !in ShardIds(nodes)
    ensures OfShard(nodes, k) == []
    decreases |nodes|
  {
    if nodes != [] {
      var j := |nodes| - 1;
      assert nodes[j] in nodes;
      NoneOfShard(nodes[..j], k);
    }
  }

  lemma {:induction false} NoneOfNode(nodes: seq<ShardNode>, k: string)
    requires k !in NodeNames(nodes)
    ensures OfNode(nodes, k) == []
    decreases |nodes|
  {
    if nodes != [] {
      var j := |nodes| - 1;
      assert nodes[j] in nodes;
      NoneOfNode(nodes[..j], k);
    }
  }

  /** `m[k] = append(m[k], n)`. */
  function Append<K(==)>(m: map<K, seq<ShardNode>>, k: K, n: ShardNode): map<K, seq<ShardNode>>
  {
    m[k := (if k in m then m[k] else []) + [n]]
  }

  lemma ShardIndexGrows(nodes: seq<ShardNode>, n: ShardNode, m: map<nat, seq<ShardNode>>)
    requires ShardIndex(nodes, m)
    ensures ShardIndex(nodes + [n], Append(m, n.id, n))
  {
    var more := nodes + [n];
    assert more[..|nodes|] == nodes && more[|nodes|] == n;
    if n.id !in m { NoneOfShard(nodes, n.id); }
    assert ShardIds(more) == ShardIds(nodes) + {n.id};
  }

  lemma NodeIndexGrows(nodes: seq<ShardNode>, n: ShardNode, m: map<string, seq<ShardNode>>)
    requires NodeIndex(nodes, m)
    ensures NodeIndex(nodes + [n], Append(m, n.node, n))
  {
    var more := nodes + [n];
    assert more[..|nodes|] == nodes && more[|nodes|] == n;
    if n.node !in m { NoneOfNode(nodes, n.node); }
    assert NodeNames(more) == NodeNames(nodes) + {n.node};
  }

  lemma IndexesAreIndexed(v: View, byShard: map<nat, seq<ShardNode>>, byNode: map<string, seq<ShardNode>>)
    requires ShardIndex(v.nodes, byShard) && NodeIndex(v.nodes, byNode)
    ensures Memory(v, byShard, byNode) == Indexed(v)
  {
    assert byShard == Indexed(v).byShard;
    assert byNode == Indexed(v).byNode;
  }

  lemma IndexesGrow(nodes: seq<ShardNode>, i: nat, n: ShardNode, byShard: map<nat, seq<ShardNode>>,
      byNode: map<string, seq<ShardNode>>)
    requires i < |nodes| && n == nodes[i] && ShardIndex(nodes[..i], byShard) && NodeIndex(nodes[..i], byNode)
    ensures ShardIndex(nodes[..i + 1], Append(byShard, n.id, n)) && NodeIndex(nodes[..i + 1], Append(byNode, n.node, n))
  {
    ShardIndexGrows(nodes[..i], n, byShard);
    NodeIndexGrows(nodes[..i], n, byNode);
    assert nodes[..i + 1] == nodes[..i] + [n];
  }

  /** The loop of loadClusterView. */
  method BuildIndexes(v: View) returns (byShard: map<nat, seq<ShardNode>>, byNode: map<string, seq<ShardNode>>)
    ensures Memory(v, byShard, byNode) == Indexed(v) && IndexesExactly(Memory(v, byShard, byNode))
  {
    IndexedExactly(v);
    byShard, byNode := map[], map[];
    for i := 0 to |v.nodes|
      invariant ShardIndex(v.nodes[..i], byShard)
      invariant NodeIndex(v.nodes[..i], byNode)
    {
      var n := v.nodes[i];
      IndexesGrow(v.nodes, i, n, byShard, byNode);
      byShard := Append(byShard, n.id, n);
      byNode := Append(byNode, n.node, n);
    }
    TakeAll(v.nodes);
    IndexesAreIndexed(v, byShard, byNode);
  }

  // ----- the class -----

  class TopologyManager {
    var clusterView: Option<View>
    var shardNodesMapping: map<nat, seq<ShardNode>>
    var nodeShardsMapping: map<string, seq<ShardNode>>
    const storage: Storage
    ghost const me: Manager

    constructor (storage: Storage, ghost me: Manager)
      requires storage.At(me, Local(None, Idle))
      ensures this.storage == storage && this.me == me && Valid() && clusterView.None?
    {
      this.storage, this.me := storage, me;
      clusterView, shardNodesMapping, nodeShardsMapping := None, map[], map[];
    }

    ghost function Mem(): Option<Memory>
      reads this
    {
      if clusterView.None? then None else Some(Memory(clusterView.value, shardNodesMapping, nodeShardsMapping))
    }

    ghost predicate At(phase: Phase)
      reads this, storage
    {
      storage.At(me, Local(Mem(), phase))
    }

    /** Between two calls the fields are what the protocol has for this manager. */
    ghost predicate Valid()
      reads this, storage
    {
      At(Idle)
    }

    ghost method Begin(phase: Phase)
      requires Valid() && (phase.AtCreate? || phase.AtLatest? || (phase.AtUpdate? && clusterView.Some?))
      modifies storage`sys
      ensures At(phase) && Reaches(Next, old(storage.sys), storage.sys) && storage.sys.latest == old(storage.sys.latest)
    {
      var after := Move(storage.sys, me, Local(Mem(), phase));
      assert StepOf(storage.sys, after, me);
      ReachesSelf(Next, storage.sys);
      ReachesStep(Next, storage.sys, storage.sys, after);
      StepKeeps(storage.sys, after, me);
      storage.sys := after;
    }

    /** loadClusterView: on success the memory is a stored version with its indexes, else it is as before. */
    method LoadClusterView() returns (ok: bool)
      requires At(AtLatest)
      modifies this, storage
      ensures Valid() && Reaches(Next, old(storage.sys), storage.sys)
      ensures ok ==> clusterView.Some? && Mem().value == Indexed(clusterView.value) && IndexesExactly(Mem().value)
      ensures ok ==> clusterView.value.version >= |old(storage.sys).log|
      ensures !ok ==> Mem() == old(Mem())
      ensures storage.misses >= old(storage.misses) && (ok <==> storage.misses == old(storage.misses))
    {
      ghost var start, mem := storage.sys, Mem();
      var version := storage.GetLatestVersion(me, Local(mem, AtLatest));
      if version.None? { return false; }
      ghost var mid := storage.sys;
      var view := storage.GetView(me, Local(mem, AtView(version.value)), version.value);
      ReachesTransitive(Next, start, mid, storage.sys);
      if view.None? { return false; }
      var byShard, byNode := BuildIndexes(view.value);
      shardNodesMapping, nodeShardsMapping := byShard, byNode;
      clusterView := view;
      return true;
    }

    /** InitClusterView: it succeeds only where no view was stored before, and then version 0 is stored, empty, and a
        stored version is loaded. */
    method InitClusterView() returns (ok: bool)
      requires Valid()
      modifies this, storage
      ensures Valid() && Reaches(Next, old(storage.sys), storage.sys)
      ensures ok ==> old(storage.sys.latest).None? && clusterView.Some? && Mem().value == Indexed(clusterView.value)
      ensures ok ==> 0 in storage.views && storage.views[0] == View(0, Empty, [])
      ensures !ok ==> Mem() == old(Mem())
      ensures storage.misses >= old(storage.misses) && (ok <==> storage.misses == old(storage.misses))
    {
      ghost var start := storage.sys;
      Begin(AtCreate);
      ghost var mid := storage.sys;
      ok := storage.CreateClusterView(me, Local(Mem(), AtCreate));
      ReachesTransitive(Next, start, mid, storage.sys);
      if !ok { return; }
      mid := storage.sys;
      ok := LoadClusterView();
      ReachesTransitive(Next, start, mid, storage.sys);
      ReachKeeps(mid, storage.sys);
    }

    /** A successful update is the committed operation right after the version it was computed from, the next version
        is that one after the operation, and the memory has moved past it; a failed one leaves the memory alone. */
    ghost predicate Outcome(ok: bool, before: View, mem: Option<Memory>, op: Op)
      reads this, storage
    {
      && (ok ==> before.version < |storage.sys.log| && storage.sys.log[before.version] == op)
      && (ok ==> before.version + 1 in storage.views && storage.views[before.version + 1] == Apply(op, before))
      && (ok ==> clusterView.Some? && clusterView.value.version > before.version)
      && (!ok ==> Mem() == mem)
    }

    /** updateClusterViewWithLock: the new view is written only over the version in memory. */
    method UpdateClusterViewWithLock(state: ClusterState, nodes: seq<ShardNode>, ghost op: Op) returns (ok: bool)
      requires Valid() && clusterView.Some?
      requires Apply(op, clusterView.value) == View(clusterView.value.version + 1, state, nodes)
      modifies this, storage
      ensures Valid() && clusterView.Some? && Reaches(Next, old(storage.sys), storage.sys)
      ensures storage.misses >= old(storage.misses) && (ok <==> storage.misses == old(storage.misses))
      ensures Outcome(ok, old(clusterView.value), old(Mem()), op)
    {
      ghost var start, before := storage.sys, clusterView.value;
      Begin(AtUpdate(op));
      ghost var mid := storage.sys;
      var version := clusterView.value.version;
      ok := storage.UpdateClusterView(me, Local(Mem(), AtUpdate(op)), View(version + 1, state, nodes), version);
      ReachesTransitive(Next, start, mid, storage.sys);
      if !ok { return; }
      mid := storage.sys;
      ok := LoadClusterView();
      ReachesTransitive(Next, start, mid, storage.sys);
      ReachKeeps(mid, storage.sys);
      ReachKeeps(start, storage.sys);
      CommittedView(storage.sys, before, op);
    }

    /** UpdateClusterView. */
    method UpdateClusterView(state: ClusterState, nodes: seq<ShardNode>) returns (ok: bool)
      requires Valid() && clusterView.Some?
      modifies this, storage
      ensures Valid() && clusterView.Some? && Reaches(Next, old(storage.sys), storage.sys)
      ensures storage.misses >= old(storage.misses) && (ok <==> storage.misses == old(storage.misses))
      ensures Outcome(ok, old(clusterView.value), old(Mem()), Set(state, nodes))
      ensures ok ==> var v := old(clusterView.value.version) + 1;
        v in storage.views && storage.views[v] == View(v, state, nodes)
    {
      ok := UpdateClusterViewWithLock(state, nodes, Set(state, nodes));
    }

    /** DropShardNodes. */
    method DropShardNodes(dropped: seq<ShardNode>) returns (ok: bool)
      requires Valid() && clusterView.Some?
      modifies this, storage
      ensures Valid() && clusterView.Some? && Reaches(Next, old(storage.sys), storage.sys)
      ensures storage.misses >= old(storage.misses) && (ok <==> storage.misses == old(storage.misses))
      ensures Outcome(ok, old(clusterView.value), old(Mem()), Drop(dropped))
      ensures ok ==> var v := old(clusterView.value.version) + 1;
        && v in storage.views && storage.views[v].state == old(clusterView.value.state)
        && WithoutDropped(old(clusterView.value.nodes), dropped, storage.views[v].nodes)
    {
      var nodes := KeepOthers(clusterView.value.nodes, dropped);
      ok := UpdateClusterViewWithLock(clusterView.value.state, nodes, Drop(dropped));
    }

    /** UpdateClusterViewByNode. */
    method UpdateClusterViewByNode(shardNodes: map<string, seq<ShardNode>>) returns (ok: bool)
      requires Valid() && clusterView.Some?
      modifies this, storage
      ensures Valid() && clusterView.Some? && Reaches(Next, old(storage.sys), storage.sys)
      ensures storage.misses >= old(storage.misses) && (ok <==> storage.misses == old(storage.misses))
      ensures exists groups ::
        && Listing(shardNodes, groups) && Outcome(ok, old(clusterView.value), old(Mem()), ByNode(groups))
        && (ok ==> var v := old(clusterView.value.version) + 1;
              && v in storage.views && storage.views[v].state == old(clusterView.value.state)
              && Regrouped(old(clusterView.value.nodes), groups, storage.views[v].nodes))
    {
      var gathered, groups := Gather(shardNodes);
      var kept := KeepOffGroups(clusterView.value.nodes, shardNodes, groups);
      RegroupExactly(clusterView.value.nodes, groups);
      ok := UpdateClusterViewWithLock(clusterView.value.state, gathered + kept, ByNode(groups));
    }
  }
}
