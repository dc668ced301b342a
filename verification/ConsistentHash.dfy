/** consistent_uniform.go: the class that builds the ring, distributes the partitions and applies the
    affinity rules, with its maps updated in place.

    The hasher is an arbitrary function, of a member name and a replica number for a virtual node
    and of a partition number for a partition. */
module ConsistentHash {
  import opened Common
  import opened Placement
  import opened Affinity

  type Name = string

  datatype Hasher = Hasher(node: (Name, nat) -> nat, part: nat -> nat)

  datatype Config = Config(hasher: Option<Hasher>, replicationFactor: int, affinities: seq<Rule>)

  datatype BuildError = HasherNotProvided | InvalidReplicationFactor | InvalidNumPartitions | EmptyMembers

  predicate RuleLess(a: Rule, b: Rule) { a.partition < b.partition }

  // ----- the ring as a function of the sorted names -----

  function OwnersUpTo(h: Hasher, m: map<nat, Name>, n: Name, i: nat): map<nat, Name>
  {
    if i == 0 then m else OwnersUpTo(h, m, n, i - 1)[h.node(n, i - 1) := n]
  }

  /** `nodeToMems`: on a collision the later name takes the slot. */
  function NodeOwners(h: Hasher, names: seq<Name>, rf: nat): map<nat, Name>
  {
    if names == [] then map[]
    else var k := |names| - 1; OwnersUpTo(h, NodeOwners(h, names[..k], rf), names[k], rf)
  }

  function HashesUpTo(h: Hasher, s: seq<nat>, n: Name, i: nat): seq<nat>
  {
    if i == 0 then s else HashesUpTo(h, s, n, i - 1) + [h.node(n, i - 1)]
  }

  function Hashes(h: Hasher, names: seq<Name>, rf: nat): seq<nat>
  {
    if names == [] then []
    else var k := |names| - 1; HashesUpTo(h, Hashes(h, names[..k], rf), names[k], rf)
  }

  ghost predicate Covers(nodes: seq<nat>, owner: map<nat, Name>, names: set<Name>)
  {
    && (forall i :: 0 <= i < |nodes| ==> nodes[i] in owner)
    && (forall v :: v in owner ==> owner[v] in names)
  }

  lemma {:induction false} CoversUpTo(h: Hasher, s: seq<nat>, m: map<nat, Name>, n: Name, i: nat, names: set<Name>)
    requires Covers(s, m, names) && n in names
    ensures Covers(HashesUpTo(h, s, n, i), OwnersUpTo(h, m, n, i), names)
    ensures |HashesUpTo(h, s, n, i)| == |s| + i
  {
    if i > 0 { CoversUpTo(h, s, m, n, i - 1, names); }
  }

  lemma {:induction false} RingCovers(h: Hasher, names: seq<Name>, rf: nat, all: set<Name>)
    requires forall i :: 0 <= i < |names| ==> names[i] in all
    ensures Covers(Hashes(h, names, rf), NodeOwners(h, names, rf), all)
    ensures names != [] && rf > 0 ==> Hashes(h, names, rf) != []
    decreases |names|
  {
    if names != [] {
      var k := |names| - 1;
      RingCovers(h, names[..k], rf, all);
      CoversUpTo(h, Hashes(h, names[..k], rf), NodeOwners(h, names[..k], rf), names[k], rf, all);
    }
  }

  // ----- the ring without the order of the loops -----

  /** Replica i of the name at index m hashes to v. */
  predicate HashesTo(h: Hasher, names: seq<Name>, rf: nat, m: nat, i: nat, v: nat)
  {
    m < |names| && i < rf && h.node(names[m], i) == v
  }

  /** The virtual nodes with the hash v: the index of a name, and a replica number. */
  function Replicas(h: Hasher, names: seq<Name>, rf: nat, v: nat): set<(nat, nat)>
  {
    set m: nat, i: nat | 0 <= m < |names| && 0 <= i < rf && HashesTo(h, names, rf, m, i, v) :: (m, i)
  }

  /** The greatest name with a virtual node of the hash v. */
  ghost predicate IsOwner(h: Hasher, names: seq<Name>, rf: nat, v: nat, n: Name)
  {
    && (exists m: nat, i: nat :: HashesTo(h, names, rf, m, i, v) && names[m] == n)
    && (forall m: nat, i: nat :: HashesTo(h, names, rf, m, i, v) ==> !Less(n, names[m]))
  }

  /** A hash is in the ring once for every virtual node that has it, and its owner is the greatest name with one. */
  ghost predicate RingExactly(h: Hasher, names: seq<Name>, rf: nat, nodes: seq<nat>, owner: map<nat, Name>)
  {
    && (forall v :: multiset(nodes)[v] == |Replicas(h, names, rf, v)|)
    && (forall v :: v in owner <==> Replicas(h, names, rf, v) != {})
    && (forall v :: v in owner ==> IsOwner(h, names, rf, v, owner[v]))
  }

  /** The replicas of the last name below the number i. */
  function LastRow(h: Hasher, n: Name, k: nat, i: nat, v: nat): set<(nat, nat)>
  {
    set j: nat | 0 <= j < i && h.node(n, j) == v :: (k, j)
  }

  lemma RowMore(h: Hasher, n: Name, k: nat, i: nat, v: nat)
    ensures |LastRow(h, n, k, i + 1, v)| == |LastRow(h, n, k, i, v)| + if h.node(n, i) == v then 1 else 0
  {
    var less, all := LastRow(h, n, k, i, v), LastRow(h, n, k, i + 1, v);
    if h.node(n, i) == v {
      assert all == less + {(k, i)};
    } else {
      assert all == less;
    }
  }

  lemma {:induction false} RowCount(h: Hasher, s: seq<nat>, n: Name, k: nat, i: nat, v: nat)
    ensures multiset(HashesUpTo(h, s, n, i))[v] == multiset(s)[v] + |LastRow(h, n, k, i, v)|
  {
    if i > 0 {
      RowCount(h, s, n, k, i - 1, v);
      RowMore(h, n, k, i - 1, v);
    } else {
      assert LastRow(h, n, k, 0, v) == {};
    }
  }

  lemma ReplicasMore(h: Hasher, names: seq<Name>, rf: nat, v: nat)
    requires names != []
    ensures var k := |names| - 1;
      var early, row := Replicas(h, names[..k], rf, v), LastRow(h, names[k], k, rf, v);
      Replicas(h, names, rf, v) == early + row && early !! row
  {
    var k := |names| - 1;
    var all, early, row := Replicas(h, names, rf, v), Replicas(h, names[..k], rf, v), LastRow(h, names[k], k, rf, v);
    forall x | x in all ensures x in early + row {
      if x.0 < k { assert HashesTo(h, names[..k], rf, x.0, x.1, v); }
    }
    forall x | x in early ensures x in all && x.0 < k { assert HashesTo(h, names, rf, x.0, x.1, v); }
    forall x | x in row ensures x in all { assert HashesTo(h, names, rf, x.0, x.1, v); }
  }

  lemma {:induction false} HashCount(h: Hasher, names: seq<Name>, rf: nat, v: nat)
    ensures multiset(Hashes(h, names, rf))[v] == |Replicas(h, names, rf, v)|
    decreases |names|
  {
    if names == [] {
      assert Replicas(h, names, rf, v) == {};
    } else {
      var k := |names| - 1;
      HashCount(h, names[..k], rf, v);
      RowCount(h, Hashes(h, names[..k], rf), names[k], k, rf, v);
      ReplicasMore(h, names, rf, v);
    }
  }

  predicate HasReplica(h: Hasher, n: Name, rf: nat, v: nat)
  {
    exists i :: 0 <= i < rf && h.node(n, i) == v
  }

  lemma {:induction false} RowOwner(h: Hasher, m: map<nat, Name>, n: Name, i: nat, v: nat)
    ensures var r := OwnersUpTo(h, m, n, i);
      if HasReplica(h, n, i, v) then v in r && r[v] == n
      else (v in r <==> v in m) && (v in m ==> r[v] == m[v])
  {
    if i > 0 {
      RowOwner(h, m, n, i - 1, v);
      if h.node(n, i - 1) != v && HasReplica(h, n, i, v) {
        var j :| 0 <= j < i && h.node(n, j) == v;
        assert j < i - 1;
      }
    }
  }

  /** Among equal hashes the last name owns the slot. */
  ghost predicate LastAt(h: Hasher, names: seq<Name>, rf: nat, v: nat, m: nat)
  {
    m < |names| && HasReplica(h, names[m], rf, v) && forall k :: m < k < |names| ==> !HasReplica(h, names[k], rf, v)
  }

  lemma {:induction false} LastOwner(h: Hasher, names: seq<Name>, rf: nat, v: nat) returns (m: nat)
    ensures v in NodeOwners(h, names, rf) ==> LastAt(h, names, rf, v, m) && NodeOwners(h, names, rf)[v] == names[m]
    ensures v !in NodeOwners(h, names, rf) ==> forall k :: 0 <= k < |names| ==> !HasReplica(h, names[k], rf, v)
    decreases |names|
  {
    m := 0;
    if names != [] {
      var k := |names| - 1;
      var early := names[..k];
      m := LastOwner(h, early, rf, v);
      RowOwner(h, NodeOwners(h, early, rf), names[k], rf, v);
      assert forall j :: 0 <= j < k ==> early[j] == names[j];
      if HasReplica(h, names[k], rf, v) { m := k; }
    }
  }

  lemma ReplicasOf(h: Hasher, names: seq<Name>, rf: nat, v: nat)
    ensures Replicas(h, names, rf, v) != {} <==> exists k :: 0 <= k < |names| && HasReplica(h, names[k], rf, v)
  {
    var all := Replicas(h, names, rf, v);
    if all != {} {
      var x :| x in all;
      assert h.node(names[x.0], x.1) == v;
      assert HasReplica(h, names[x.0], rf, v);
    }
    if k :| 0 <= k < |names| && HasReplica(h, names[k], rf, v) {
      var i :| 0 <= i < rf && h.node(names[k], i) == v;
      assert HashesTo(h, names, rf, k, i, v);
      assert (k, i) in all;
    }
  }

  lemma OwnerIsGreatest(h: Hasher, names: seq<Name>, rf: nat, v: nat, m: nat)
    requires SortedBy(names, Less) && LastAt(h, names, rf, v, m)
    ensures IsOwner(h, names, rf, v, names[m])
  {
    var i: nat :| 0 <= i < rf && h.node(names[m], i) == v;
    assert HashesTo(h, names, rf, m, i, v);
    forall k: nat, j: nat | HashesTo(h, names, rf, k, j, v) ensures !Less(names[m], names[k]) {
      assert HasReplica(h, names[k], rf, v);
      LessIrreflexive(names[m]);
    }
  }

  /** What the loops of initializeVirtualNodes build is the ring of the virtual nodes. */
  lemma BuiltRing(h: Hasher, names: seq<Name>, rf: nat, nodes: seq<nat>)
    requires SortedBy(names, Less) && multiset(nodes) == multiset(Hashes(h, names, rf))
    ensures RingExactly(h, names, rf, nodes, NodeOwners(h, names, rf))
  {
    var owner := NodeOwners(h, names, rf);
    forall v ensures multiset(nodes)[v] == |Replicas(h, names, rf, v)| { HashCount(h, names, rf, v); }
    forall v ensures v in owner <==> Replicas(h, names, rf, v) != {} {
      var m := LastOwner(h, names, rf, v);
      ReplicasOf(h, names, rf, v);
    }
    forall v | v in owner ensures IsOwner(h, names, rf, v, owner[v]) {
      var m := LastOwner(h, names, rf, v);
      OwnerIsGreatest(h, names, rf, v, m);
    }
  }

  /** The slot a key belongs to: the first not below it, else the length of the ring. */
  function FirstAtLeast(nodes: seq<nat>, key: nat, i: nat): (r: nat)
    requires i <= |nodes|
    ensures i <= r <= |nodes| && (r < |nodes| ==> nodes[r] >= key)
    ensures forall j :: i <= j < r ==> nodes[j] < key
    decreases |nodes| - i
  {
    if i == |nodes| || nodes[i] >= key then i else FirstAtLeast(nodes, key, i + 1)
  }

  /** The slot a partition starts at: behind all nodes below its key, or the first one when all are below. */
  function StartSlot(nodes: seq<nat>, key: nat): (r: nat)
    requires nodes != []
    ensures r < |nodes| && forall j :: 0 <= j < r ==> nodes[j] < key
    ensures nodes[r] >= key || (r == 0 && forall j :: 0 <= j < |nodes| ==> nodes[j] < key)
  {
    var i := FirstAtLeast(nodes, key, 0);
    if i >= |nodes| then 0 else i
  }

  /** sort.Search: binary search for the first index whose node is not below the key. */
  method Search(nodes: seq<nat>, key: nat) returns (r: nat)
    requires SortedBy(nodes, NatLess)
    ensures r == FirstAtLeast(nodes, key, 0)
  {
    var lo, hi := 0, |nodes|;
    while lo < hi
      invariant 0 <= lo <= hi <= |nodes|
      invariant forall j :: 0 <= j < lo ==> nodes[j] < key
      invariant forall j :: hi <= j < |nodes| ==> nodes[j] >= key
    {
      var mid := (lo + hi) / 2;
      if nodes[mid] < key {
        assert forall j :: 0 <= j < mid ==> !NatLess(nodes[mid], nodes[j]);
        lo := mid + 1;
      } else {
        assert forall j :: mid < j < |nodes| ==> !NatLess(nodes[j], nodes[mid]);
        hi := mid;
      }
    }
    r := lo;
    FirstUnique(nodes, key, 0, r);
  }

  lemma {:induction false} FirstUnique(nodes: seq<nat>, key: nat, i: nat, r: nat)
    requires i <= r <= |nodes| && (r < |nodes| ==> nodes[r] >= key)
    requires forall j :: i <= j < r ==> nodes[j] < key
    ensures FirstAtLeast(nodes, key, i) == r
    decreases r - i
  {
    if i < r { FirstUnique(nodes, key, i + 1, r); }
  }

  function Floor(p: nat, m: nat): nat
    requires m > 0
  {
    p / m
  }

  function Ceil(p: nat, m: nat): nat
    requires m > 0
  {
    if p % m == 0 then p / m else p / m + 1
  }

  // ----- what a build does, as a relation -----

  /** What is left open by sorting and by map iteration. */
  datatype Build = Build(names: seq<Name>, nodes: seq<nat>, rules: seq<Rule>, choices: seq<seq<int>>)

  function LayoutOf(h: Hasher, rf: nat, count: nat, members: seq<Name>, b: Build): Layout<Name>
    requires members != []
  {
    Layout(Ring(b.nodes, NodeOwners(h, b.names, rf)), Elements(members),
           count, Floor(count, |members|), Ceil(count, |members|))
  }

  /** Where each partition starts its walk. */
  function Starts(h: Hasher, nodes: seq<nat>, count: nat): (s: seq<nat>)
    requires nodes != []
    ensures |s| == count && forall p :: 0 <= p < count ==> s[p] == StartSlot(nodes, h.part(p)) < |nodes|
  {
    if count == 0 then [] else Starts(h, nodes, count - 1) + [StartSlot(nodes, h.part(count - 1))]
  }

  ghost predicate IsRing(h: Hasher, rf: nat, members: seq<Name>, b: Build)
  {
    && SortedBy(b.names, Less) && multiset(b.names) == multiset(members)
    && SortedBy(b.nodes, NatLess) && multiset(b.nodes) == multiset(Hashes(h, b.names, rf))
  }

  lemma LayoutOk(h: Hasher, rf: nat, count: nat, members: seq<Name>, b: Build)
    requires members != [] && rf > 0 && IsRing(h, rf, members, b)
    ensures LayoutOf(h, rf, count, members, b).Ok()
  {
    var all := Elements(members);
    SameElements(b.names, members);
    RingCovers(h, b.names, rf, all);
    var s := Hashes(h, b.names, rf);
    assert |multiset(b.nodes)| == |b.nodes| && |multiset(s)| == |s|;
    SameElements(b.nodes, s);
    var ring := LayoutOf(h, rf, count, members, b).ring;
    forall i | 0 <= i < |b.nodes| ensures b.nodes[i] in ring.owner {
      assert b.nodes[i] in Elements(s);
    }
  }

  // ----- picking the partitions that leave -----

  predicate IntLess(a: int, b: int) { a < b }

  /** The loop of offloadMember: the map's partitions in any order; the ruled one and the first few
      others stay, the rest are listed. */
  method ListLeavers(parts: set<int>, retainedPartID: int, numAllowedParts: nat) returns (picked: seq<int>)
    requires 1 <= numAllowedParts < |parts|
    ensures Distinct(picked) && AllIn(picked, parts - {retainedPartID})
    ensures |picked| == |parts - {retainedPartID}| - (numAllowedParts - 1)
  {
    picked := [];
    var numRetainedParts := 1;
    var rest := parts;
    ghost var seen: set<int> := {};
    while rest != {}
      invariant rest <= parts && seen == parts - rest - {retainedPartID}
      invariant DistinctIn(picked, seen)
      invariant 1 <= numRetainedParts <= numAllowedParts
      invariant numRetainedParts - 1 + |picked| == |seen|
      invariant picked != [] ==> numRetainedParts == numAllowedParts
      decreases |rest|
    {
      var partID := Pick(rest);
      ghost var more := TakeOne(parts, rest, partID, retainedPartID, seen);
      DistinctInMore(picked, seen, more, partID);
      seen := more;
      rest := rest - {partID};
      if partID == retainedPartID {
        continue;
      }
      if numRetainedParts < numAllowedParts {
        numRetainedParts := numRetainedParts + 1;
        continue;
      }
      picked := picked + [partID];
    }
    assert seen == parts - {retainedPartID};
    assert |parts - {retainedPartID}| >= |parts| - 1;
  }

  ghost predicate DistinctIn(ids: seq<int>, s: set<int>)
  {
    Distinct(ids) && AllIn(ids, s)
  }

  lemma DistinctInMore(ids: seq<int>, s: set<int>, t: set<int>, x: int)
    requires DistinctIn(ids, s) && s <= t
    ensures DistinctIn(ids, t)
    ensures x !in s && x in t ==> DistinctIn(ids + [x], t)
  {}

  lemma TakeOne(parts: set<int>, rest: set<int>, x: int, kept: int, seen: set<int>) returns (more: set<int>)
    requires rest <= parts && x in rest && seen == parts - rest - {kept}
    ensures |rest - {x}| < |rest| && more == parts - (rest - {x}) - {kept}
    ensures if x == kept then more == seen else x !in seen && more == seen + {x} && |more| == |seen| + 1
  {
    more := parts - (rest - {x}) - {kept};
    assert |rest - {x}| == |rest| - 1;
    if x != kept { assert more == seen + {x}; }
  }

  /** The partitions that leave, in ascending order. */
  method PickLeavers(parts: set<int>, retainedPartID: int, numAllowedParts: nat) returns (ids: seq<int>)
    requires 1 <= numAllowedParts < |parts|
    ensures Ascending(ids) && AllIn(ids, parts - {retainedPartID})
    ensures |ids| == |parts - {retainedPartID}| - (numAllowedParts - 1)
  {
    var picked := ListLeavers(parts, retainedPartID, numAllowedParts);
    ids := Sort(picked, IntLess);
    SortedDistinct(picked, ids);
    SameElements(ids, picked);
    assert forall i :: 0 <= i < |ids| ==> ids[i] in Elements(picked);
  }

  // ----- the class -----

  class ConsistentUniformHash {
    const hasher: Hasher
    const replicationFactor: nat
    const affinities: seq<Rule>
    const minLoad: nat
    const maxLoad: nat
    const numPartitions: nat
    var memPartitions: map<Name, set<int>>
    var partitionDist: map<int, nat>
    var nodeToMems: map<nat, Name>
    var sortedRing: seq<nat>

    constructor (config: Config, affinities: seq<Rule>, numPartitions: nat, members: seq<Name>)
      requires config.hasher.Some? && config.replicationFactor > 0 && members != []
      ensures hasher == config.hasher.value && replicationFactor == config.replicationFactor
      ensures this.affinities == affinities && this.numPartitions == numPartitions
      ensures minLoad == Floor(numPartitions, |members|) && maxLoad == Ceil(numPartitions, |members|)
      ensures memPartitions == map n | n in Elements(members) :: {}
      ensures partitionDist == map[] && nodeToMems == map[] && sortedRing == []
    {
      this.hasher := config.hasher.value;
      this.replicationFactor := config.replicationFactor;
      this.affinities := affinities;
      this.numPartitions := numPartitions;
      minLoad := Floor(numPartitions, |members|);
      maxLoad := Ceil(numPartitions, |members|);
      memPartitions := map n | n in Elements(members) :: {};
      partitionDist := map[];
      nodeToMems := map[];
      sortedRing := [];
    }

    ghost function Lay(): Layout<Name>
      reads this
    {
      Layout(Ring(sortedRing, nodeToMems), memPartitions.Keys, numPartitions, minLoad, maxLoad)
    }

    ghost function Now(): Assignment<Name>
      reads this
    {
      Assignment(memPartitions, partitionDist)
    }

    ghost predicate Valid()
      reads this
    {
      Lay().Shape(Now())
    }

    method AddVirtualNodes(mem: Name)
      modifies this`nodeToMems, this`sortedRing
      ensures nodeToMems == OwnersUpTo(hasher, old(nodeToMems), mem, replicationFactor)
      ensures sortedRing == HashesUpTo(hasher, old(sortedRing), mem, replicationFactor)
    {
      for i := 0 to replicationFactor
        invariant nodeToMems == OwnersUpTo(hasher, old(nodeToMems), mem, i)
        invariant sortedRing == HashesUpTo(hasher, old(sortedRing), mem, i)
      {
        var h := hasher.node(mem, i);
        nodeToMems := nodeToMems[h := mem];
        sortedRing := sortedRing + [h];
      }
    }

    /** initializeVirtualNodes: names in order, so that a collision is always won by the same name. */
    method InitializeVirtualNodes(members: seq<Name>) returns (ghost names: seq<Name>)
      requires nodeToMems == map[] && sortedRing == []
      modifies this`nodeToMems, this`sortedRing
      ensures SortedBy(names, Less) && multiset(names) == multiset(members)
      ensures nodeToMems == NodeOwners(hasher, names, replicationFactor)
      ensures SortedBy(sortedRing, NatLess)
      ensures multiset(sortedRing) == multiset(Hashes(hasher, names, replicationFactor))
      ensures RingExactly(hasher, names, replicationFactor, sortedRing, nodeToMems)
    {
      StringLessTotal();
      var sorted := Sort(members, Less);
      for m := 0 to |sorted|
        invariant nodeToMems == NodeOwners(hasher, sorted[..m], replicationFactor)
        invariant sortedRing == Hashes(hasher, sorted[..m], replicationFactor)
      {
        AddVirtualNodes(sorted[m]);
        assert sorted[..m + 1][..m] == sorted[..m];
      }
      assert sorted[..|sorted|] == sorted;
      names := sorted;
      NatLessTotal();
      sortedRing := Sort(sortedRing, NatLess);
      BuiltRing(hasher, names, replicationFactor, sortedRing);
    }

    /** distributePartitionWithLoad. */
    method DistributePartitionWithLoad(partID: int, virtualNodeIdx: nat, allowedLoad: nat) returns (ok: bool)
      requires Valid() && virtualNodeIdx < |sortedRing|
      modifies this`memPartitions, this`partitionDist
      ensures Lay() == old(Lay()) && Valid()
      ensures var found := old(Lay().Probe(Now(), {}, allowedLoad, virtualNodeIdx, |sortedRing|));
        && ok == found.Some?
        && Now() == if ok then old(Lay()).Put(old(Now()), partID, found.value) else old(Now())
    {
      if allowedLoad == 0 { return false; }
      var idx: nat := virtualNodeIdx;
      var count := 0;
      while true
        invariant 0 <= count <= |sortedRing| && idx < |sortedRing|
        invariant Lay().Probe(Now(), {}, allowedLoad, virtualNodeIdx, |sortedRing|)
               == Lay().Probe(Now(), {}, allowedLoad, idx, |sortedRing| - count)
        invariant unchanged(this)
        decreases |sortedRing| - count
      {
        count := count + 1;
        if count > |sortedRing| { return false; }
        var member := nodeToMems[sortedRing[idx]];
        assert member == Lay().ring.At(idx) && member in Lay().ring.Slots();
        var partitions := memPartitions[member];
        if |partitions| + 1 <= allowedLoad {
          partitionDist := partitionDist[partID := idx];
          memPartitions := memPartitions[member := partitions + {partID}];
          assert memPartitions.Keys == old(memPartitions.Keys);
          return true;
        }
        idx := idx + 1;
        if idx >= |sortedRing| { idx := 0; }
      }
    }

    /** distributePartition; false stands for the assertion "not enough room". */
    method DistributePartition(partID: int, virtualNodeIdx: nat) returns (ok: bool)
      requires Valid() && virtualNodeIdx < |sortedRing|
      modifies this`memPartitions, this`partitionDist
      ensures Lay() == old(Lay()) && Valid()
      ensures var placed := old(Lay().Place(Now(), partID, virtualNodeIdx));
        ok == placed.Some? && Now() == if ok then placed.value else old(Now())
    {
      ok := DistributePartitionWithLoad(partID, virtualNodeIdx, minLoad);
      if ok { return; }
      ok := DistributePartitionWithLoad(partID, virtualNodeIdx, maxLoad);
    }

    /** distributePartitions: every partition starts at the slot its hash leads to. */
    method DistributePartitions() returns (ok: bool)
      requires Valid() && SortedBy(sortedRing, NatLess) && Now() == Lay().Empty()
      modifies this`memPartitions, this`partitionDist
      ensures Lay() == old(Lay()) && Valid()
      ensures var all := old(Lay()).Distributed(Starts(hasher, old(sortedRing), numPartitions));
        ok == all.Some? && (ok ==> Now() == all.value)
    {
      ghost var lay, starts := Lay(), Starts(hasher, sortedRing, numPartitions);
      for partID := 0 to numPartitions
        invariant Lay() == lay && Valid()
        invariant lay.Distributed(starts[..partID]) == Some(Now())
      {
        var idx := Search(sortedRing, hasher.part(partID));
        if idx >= |sortedRing| { idx := 0; }
        DistributedStep(lay, starts, partID, Now());
        ok := DistributePartition(partID, idx);
        if !ok {
          NeverRecovers(lay, starts, partID + 1);
          return;
        }
      }
      ok := true;
      assert starts[..numPartitions] == starts;
    }

    /** GetPartitionOwner. */
    method GetPartitionOwner(partID: int) returns (owner: Option<Name>)
      requires Lay().Agrees(Now())
      ensures owner.Some? <==> partID in partitionDist
      ensures owner.Some? ==> owner.value in memPartitions && partID in memPartitions[owner.value]
      ensures owner.Some? ==> forall n :: n in memPartitions && n != owner.value ==> partID !in memPartitions[n]
    {
      if partID !in partitionDist { return None; }
      var node := sortedRing[partitionDist[partID]];
      owner := Some(nodeToMems[node]);
      ghost var own := Lay().Owners(Now());
      assert own[partID] == owner.value == Lay().ring.At(partitionDist[partID]);
      assert owner.value in Lay().ring.Slots();
      assert forall n :: n in memPartitions ==> (partID in memPartitions[n] <==> partID in OwnedBy(own, n));
    }

    /** offloadPartitionWithAllowedLoad. */
    method OffloadPartitionWithAllowedLoad(sourcePartID: int, sourceMem: Name, allowedMaxLoad: nat,
        blacked: set<Name>) returns (done: bool)
      requires Valid() && sourceMem in memPartitions
      modifies this`memPartitions, this`partitionDist
      ensures Lay() == old(Lay()) && Valid()
      ensures var found := old(Lay().Probe(Now(), blacked, allowedMaxLoad,
          Lay().ring.Next(Lay().Where(Now(), sourcePartID)), |sortedRing| - 1));
        && done == found.Some?
        && Now() == if done then old(Lay()).MoveTo(old(Now()), sourcePartID, sourceMem, found.value) else old(Now())
    {
      var vNodeIdx: nat := if sourcePartID in partitionDist then partitionDist[sourcePartID] else 0;
      ghost var first := vNodeIdx;
      for loopCnt := 1 to |sortedRing|
        invariant unchanged(this) && vNodeIdx < |sortedRing|
        invariant Lay().Probe(Now(), blacked, allowedMaxLoad, Lay().ring.Next(first), |sortedRing| - 1)
               == Lay().Probe(Now(), blacked, allowedMaxLoad, Lay().ring.Next(vNodeIdx), |sortedRing| - loopCnt)
      {
        vNodeIdx := vNodeIdx + 1;
        if vNodeIdx == |sortedRing| { vNodeIdx := 0; }
        var mem := nodeToMems[sortedRing[vNodeIdx]];
        assert mem == Lay().ring.At(vNodeIdx) && mem in Lay().ring.Slots();
        if mem in blacked { continue; }
        var parts := memPartitions[mem];
        if |parts| + 1 > allowedMaxLoad { continue; }
        MovePartition(sourcePartID, sourceMem, mem, vNodeIdx);
        return true;
      }
      return false;
    }

    /** The update of both representations for a partition that moves. */
    method MovePartition(sourcePartID: int, sourceMem: Name, mem: Name, vNodeIdx: nat)
      requires Valid() && sourceMem in memPartitions && vNodeIdx < |sortedRing| && mem == Lay().ring.At(vNodeIdx)
      modifies this`memPartitions, this`partitionDist
      ensures Lay() == old(Lay()) && Valid()
      ensures Now() == old(Lay()).MoveTo(old(Now()), sourcePartID, sourceMem, vNodeIdx)
    {
      assert mem in Lay().ring.Slots();
      memPartitions := memPartitions[mem := memPartitions[mem] + {sourcePartID}];
      partitionDist := partitionDist[sourcePartID := vNodeIdx];
      memPartitions := memPartitions[sourceMem := memPartitions[sourceMem] - {sourcePartID}];
      assert memPartitions.Keys == old(memPartitions.Keys);
    }

    /** offloadPartition: ever higher limits until a member takes the partition. */
    method OffloadPartition(sourcePartID: int, sourceMem: Name, blacked: set<Name>)
      requires Valid() && sourceMem in memPartitions
      modifies this`memPartitions, this`partitionDist
      ensures Lay() == old(Lay()) && Valid()
      ensures Now() == old(Lay().Offload(Now(), sourcePartID, sourceMem, blacked))
    {
      var load := maxLoad;
      ghost var lay, now := Lay(), Now();
      ghost var target := lay.Target(now, sourcePartID, blacked, maxLoad);
      while load < numPartitions
        invariant unchanged(this) && target == lay.Target(now, sourcePartID, blacked, load)
        decreases numPartitions - load
      {
        var done := OffloadPartitionWithAllowedLoad(sourcePartID, sourceMem, load, blacked);
        if done { return; }
        load := load + 1;
      }
    }

    /** offloadMember. */
    method OffloadMember(mem: Name, retainedPartID: int, numAllowedParts: nat, offloadedMems: set<Name>)
      returns (ghost ids: seq<int>)
      requires Valid() && mem in memPartitions && mem in offloadedMems
      requires 1 <= numAllowedParts < |memPartitions[mem]|
      modifies this`memPartitions, this`partitionDist
      ensures Lay() == old(Lay()) && Valid()
      ensures var others := old(memPartitions[mem]) - {retainedPartID};
        Ascending(ids) && AllIn(ids, others) && |ids| == |others| - (numAllowedParts - 1)
      ensures Now() == Evict(old(Lay()), old(Now()), ids, mem, offloadedMems)
    {
      var leavers := PickLeavers(memPartitions[mem], retainedPartID, numAllowedParts);
      ids := leavers;
      for i := 0 to |leavers|
        invariant Lay() == old(Lay()) && Valid()
        invariant Now() == Evict(old(Lay()), old(Now()), leavers[..i], mem, offloadedMems)
      {
        assert leavers[..i + 1][..i] == leavers[..i];
        OffloadPartition(leavers[i], mem, offloadedMems);
      }
      assert leavers[..|leavers|] == leavers;
    }

    /** One round of ensureAffinity's loop. */
    method EnsureRule(affinity: Rule, visited: set<Name>) returns (mem: Name, ghost ids: seq<int>)
      requires Valid()
      modifies this`memPartitions, this`partitionDist
      ensures Lay() == old(Lay()) && Valid()
      ensures mem == Host(old(Lay()), old(Now()), affinity) && Choice(old(Lay()), old(Now()), affinity, ids)
      ensures Now() == Applied(old(Lay()), old(Now()), visited, affinity, ids)
    {
      var vNodeIdx: nat := if affinity.partition in partitionDist then partitionDist[affinity.partition] else 0;
      mem := nodeToMems[sortedRing[vNodeIdx]];
      assert mem == Host(Lay(), Now(), affinity);
      var offloadedMems := visited + {mem};
      var allowedLoad := affinity.others + 1;
      ids := [];
      if |memPartitions[mem]| > allowedLoad {
        ids := OffloadMember(mem, affinity.partition, allowedLoad, offloadedMems);
      }
    }

    /** ensureAffinity. */
    method EnsureAffinity() returns (ghost choices: seq<seq<int>>)
      requires Valid()
      modifies this`memPartitions, this`partitionDist
      ensures Lay() == old(Lay()) && Valid()
      ensures IsRepair(old(Lay()), old(Now()), affinities, choices)
      ensures Now() == Repaired(old(Lay()), old(Now()), affinities, choices).a
    {
      ghost var lay, begin := Lay(), Now();
      var offloadedMems: set<Name> := {};
      choices := [];
      ghost var r := Repair(begin, []);
      for i := 0 to |affinities|
        invariant Lay() == lay && Valid() && |choices| == i
        invariant IsRepair(lay, begin, affinities[..i], choices) && r == Repaired(lay, begin, affinities[..i], choices)
        invariant Now() == r.a && offloadedMems == Elements(r.hosts)
      {
        var mem, ids := EnsureRule(affinities[i], offloadedMems);
        ghost var t := ApplyRule(lay, r, affinities[i], ids);
        RepairGrows(lay, begin, affinities, i, choices, ids, r, t);
        choices := choices + [ids];
        r := t;
        offloadedMems := offloadedMems + {mem};
      }
      assert affinities[..|affinities|] == affinities;
    }
  }

  datatype Outcome = Built(hash: ConsistentUniformHash) | Invalid(error: BuildError) | NotEnoughRoom

  function Defect(numPartitions: int, members: seq<Name>, config: Config): Option<BuildError>
  {
    if config.hasher.None? then Some(HasherNotProvided)
    else if config.replicationFactor <= 0 then Some(InvalidReplicationFactor)
    else if numPartitions < 0 then Some(InvalidNumPartitions)
    else if members == [] then Some(EmptyMembers)
    else None
  }

  /** BuildConsistentUniformHash. The ghost result records how the sorts and the map iterations came
      out; with it, the built hash is a function of the inputs. */
  method BuildConsistentUniformHash(numPartitions: int, members: seq<Name>, config: Config)
    returns (r: Outcome, ghost b: Build)
    ensures r.Invalid? <==> Defect(numPartitions, members, config).Some?
    ensures r.Invalid? ==> r.error == Defect(numPartitions, members, config).value
    ensures !r.Invalid? ==>
      IsBuild(config.hasher.value, config.replicationFactor, numPartitions, members, config.affinities, b)
    ensures !r.Invalid? ==>
      var last := Final(config.hasher.value, config.replicationFactor, numPartitions, members, b);
      && r.NotEnoughRoom? == last.None?
      && (r.Built? ==> r.hash.Now() == last.value)
      && (r.Built? ==>
        r.hash.Lay() == LayoutOf(config.hasher.value, config.replicationFactor, numPartitions, members, b))
    ensures r.Built? ==>
      RingExactly(config.hasher.value, b.names, config.replicationFactor, r.hash.sortedRing, r.hash.nodeToMems)
  {
    b := Build([], [], [], []);
    if config.hasher.None? { return Invalid(HasherNotProvided), b; }
    if config.replicationFactor <= 0 { return Invalid(InvalidReplicationFactor), b; }
    if numPartitions < 0 { return Invalid(InvalidNumPartitions), b; }
    if members == [] { return Invalid(EmptyMembers), b; }
    r, b := BuildValid(numPartitions, members, config);
    BuiltRing(config.hasher.value, b.names, config.replicationFactor, b.nodes);
  }

  method BuildValid(numPartitions: nat, members: seq<Name>, config: Config) returns (r: Outcome, ghost b: Build)
    requires Defect(numPartitions, members, config).None?
    ensures !r.Invalid?
    ensures IsBuild(config.hasher.value, config.replicationFactor, numPartitions, members, config.affinities, b)
    ensures var last := Final(config.hasher.value, config.replicationFactor, numPartitions, members, b);
      && r.NotEnoughRoom? == last.None?
      && (r.Built? ==> r.hash.Now() == last.value)
      && (r.Built? ==>
        r.hash.Lay() == LayoutOf(config.hasher.value, config.replicationFactor, numPartitions, members, b))
  {
    var c;
    c, b := BuildRing(numPartitions, members, config);
    var ok := c.DistributePartitions();
    if !ok { return NotEnoughRoom, b.(choices := Unmoved(b.rules)); }
    ghost var choices := c.EnsureAffinity();
    return Built(c), b.(choices := choices);
  }

  /** The sorted rules and the ring, with nothing placed yet. */
  method BuildRing(numPartitions: nat, members: seq<Name>, config: Config)
    returns (c: ConsistentUniformHash, ghost b: Build)
    requires Defect(numPartitions, members, config).None?
    ensures fresh(c) && c.hasher == config.hasher.value && c.numPartitions == numPartitions && c.affinities == b.rules
    ensures c.sortedRing == b.nodes && IsRing(c.hasher, config.replicationFactor, members, b)
    ensures SortedBy(b.rules, RuleLess) && multiset(b.rules) == multiset(config.affinities)
    ensures c.Lay() == LayoutOf(c.hasher, config.replicationFactor, numPartitions, members, b)
    ensures c.Valid() && c.Now() == c.Lay().Empty()
  {
    var rules := Sort(config.affinities, RuleLess);
    c := new ConsistentUniformHash(config, rules, numPartitions, members);
    ghost var names := c.InitializeVirtualNodes(members);
    b := Build(names, c.sortedRing, rules, []);
    LayoutOk(c.hasher, c.replicationFactor, numPartitions, members, b);
    assert c.Lay() == LayoutOf(c.hasher, c.replicationFactor, numPartitions, members, b);
  }

  function Unmoved(rules: seq<Rule>): (choices: seq<seq<int>>)
    ensures |choices| == |rules|
  {
    if rules == [] then [] else [[]] + Unmoved(rules[1..])
  }

  /** `b` is a way the sorts and map iterations of a build can come out. */
  ghost predicate IsBuild(h: Hasher, rf: nat, count: nat, members: seq<Name>, affinities: seq<Rule>, b: Build)
  {
    && members != [] && rf > 0 && IsRing(h, rf, members, b)
    && SortedBy(b.rules, RuleLess) && multiset(b.rules) == multiset(affinities)
    && |b.choices| == |b.rules|
    && LayoutOf(h, rf, count, members, b).Ok()
    && var a := Distribution(h, rf, count, members, b);
       a.Some? ==> IsRepair(LayoutOf(h, rf, count, members, b), a.value, b.rules, b.choices)
  }

  ghost function Distribution(h: Hasher, rf: nat, count: nat, members: seq<Name>, b: Build): Option<Assignment<Name>>
    requires members != [] && LayoutOf(h, rf, count, members, b).Ok()
  {
    LayoutOf(h, rf, count, members, b).Distributed(Starts(h, b.nodes, count))
  }

  ghost function Final(h: Hasher, rf: nat, count: nat, members: seq<Name>, b: Build): Option<Assignment<Name>>
    requires members != [] && LayoutOf(h, rf, count, members, b).Ok() && |b.choices| == |b.rules|
  {
    var a := Distribution(h, rf, count, members, b);
    if a.None? then None else Some(Repaired(LayoutOf(h, rf, count, members, b), a.value, b.rules, b.choices).a)
  }

  lemma RepairGrows(l: Layout<Name>, a: Assignment<Name>, rules: seq<Rule>, i: nat, choices: seq<seq<int>>,
      ids: seq<int>, r: Repair<Name>, t: Repair<Name>)
    requires l.Shape(a) && i < |rules| && IsRepair(l, a, rules[..i], choices)
    requires r == Repaired(l, a, rules[..i], choices)
    requires Choice(l, r.a, rules[i], ids) && t == ApplyRule(l, r, rules[i], ids)
    ensures IsRepair(l, a, rules[..i + 1], choices + [ids]) && t == Repaired(l, a, rules[..i + 1], choices + [ids])
    ensures Elements(t.hosts) == Elements(r.hosts) + {Host(l, r.a, rules[i])}
  {
    assert rules[..i + 1][..i] == rules[..i] && (choices + [ids])[..i] == choices;
    RepairMore(l, a, rules[..i], choices, i, rules[..i + 1], choices + [ids], r, t);
  }

  lemma RepairMore(l: Layout<Name>, a: Assignment<Name>, rules: seq<Rule>, choices: seq<seq<int>>, i: nat,
      more: seq<Rule>, longer: seq<seq<int>>, r: Repair<Name>, t: Repair<Name>)
    requires l.Shape(a) && IsRepair(l, a, rules, choices) && r == Repaired(l, a, rules, choices)
    requires |more| == |longer| == i + 1 && more[..i] == rules && longer[..i] == choices
    requires Choice(l, r.a, more[i], longer[i]) && t == ApplyRule(l, r, more[i], longer[i])
    ensures IsRepair(l, a, more, longer) && t == Repaired(l, a, more, longer)
    ensures Elements(t.hosts) == Elements(r.hosts) + {Host(l, r.a, more[i])}
  {
  }

  lemma DistributedStep(l: Layout<Name>, starts: seq<nat>, k: nat, a: Assignment<Name>)
    requires l.Ok() && l.InRing(starts) && k < |starts| && l.Distributed(starts[..k]) == Some(a)
    ensures l.Distributed(starts[..k + 1]) == l.Place(a, k, starts[k])
  {
    assert starts[..k + 1][..k] == starts[..k];
    l.DistributedLast(starts[..k + 1], k, starts[..k]);
  }

  lemma {:induction false} NeverRecovers(l: Layout<Name>, starts: seq<nat>, k: nat)
    requires l.Ok() && l.InRing(starts) && k <= |starts| && l.Distributed(starts[..k]).None?
    ensures l.Distributed(starts).None?
    decreases |starts|
  {
    if k < |starts| {
      var n := |starts| - 1;
      var early := starts[..n];
      assert early[..k] == starts[..k];
      NeverRecovers(l, early, k);
      l.DistributedLast(starts, n, early);
    } else {
      TakeAll(starts);
    }
  }
}
