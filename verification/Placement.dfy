/** How consistent_uniform.go places partitions on the members of a hash ring: the two
    passes of the distribution, and the repair pass that applies affinity rules.

    Everything here is stated on values. `ConsistentHash.dfy` holds the class whose loops
    compute these values in place. */
module Placement {
  import opened Common

  /** `sortedRing` with `nodeToMems`. */
  datatype Ring<Name(==)> = Ring(nodes: seq<nat>, owner: map<nat, Name>) {
    ghost predicate Ok()
    {
      nodes != [] && forall i :: 0 <= i < |nodes| ==> nodes[i] in owner
    }

    function At(i: nat): Name
      requires Ok() && i < |nodes|
    {
      owner[nodes[i]]
    }

    /** The members that still own a virtual node; a hash collision can take a member's slots away. */
    function Slots(): set<Name>
      requires Ok()
    {
      set i | 0 <= i < |nodes| :: At(i)
    }

    function Next(i: nat): (j: nat)
      requires i < |nodes|
      ensures j < |nodes|
    {
      if i + 1 >= |nodes| then 0 else i + 1
    }
  }

  /** `memPartitions` and `partitionDist`. */
  datatype Assignment<Name(==)> = Assignment(parts: map<Name, set<int>>, dist: map<int, nat>)

  /** PartitionAffinity: the partition and how many others may share its member. */
  datatype Rule = Rule(partition: int, others: nat)

  // ----- counting -----

  /** The partition numbers below `k`. */
  function Below(k: nat): (r: set<int>)
    ensures |r| == k && forall p :: p in r <==> 0 <= p < k
  {
    if k == 0 then {} else Below(k - 1) + {k - 1}
  }

  /** `n * u`, kept out of the solver's arithmetic. */
  function Times(n: nat, u: nat): nat
  {
    if n == 0 then 0 else Times(n - 1, u) + u
  }

  lemma {:induction false} TimesIsProduct(n: nat, u: nat)
    ensures Times(n, u) == n * u
  {
    if n > 0 { TimesIsProduct(n - 1, u); }
  }

  function OwnedBy<Name(==)>(own: map<int, Name>, n: Name): set<int>
  {
    set p | p in own && own[p] == n
  }

  function Without<Name(==)>(own: map<int, Name>, n: Name): map<int, Name>
  {
    map p | p in own && own[p] != n :: own[p]
  }

  lemma SplitOff<Name>(own: map<int, Name>, n: Name)
    ensures |own| == |Without(own, n)| + |OwnedBy(own, n)|
    ensures forall m :: m != n ==> OwnedBy(Without(own, n), m) == OwnedBy(own, m)
  {
    var rest := Without(own, n);
    assert own.Keys == rest.Keys + OwnedBy(own, n);
    assert |own| == |own.Keys| && |rest| == |rest.Keys|;
    forall m | m != n ensures OwnedBy(rest, m) == OwnedBy(own, m) {}
  }

  /** What is left without one member's partitions belongs to the others, as before. */
  lemma RestOwned<Name>(own: map<int, Name>, n: Name, names: set<Name>, rest: map<int, Name>)
    requires rest == Without(own, n) && forall p {:trigger p in own} :: p in own ==> own[p] in names
    ensures forall p {:trigger p in rest} :: p in rest ==> rest[p] in names - {n}
    ensures forall m :: m != n ==> OwnedBy(rest, m) == OwnedBy(own, m)
  {
  }

  lemma NobodyOwns<Name>(own: map<int, Name>)
    requires forall p {:trigger p in own} :: p in own ==> own[p] in {}
    ensures |own| == 0
  {
    forall p ensures p !in own {}
    assert own == map[];
  }

  /** If every name has at most `u`, all of them together have at most that times their number. */
  lemma {:induction false} CountAtMost<Name>(own: map<int, Name>, names: set<Name>, u: nat)
    requires forall p {:trigger p in own} :: p in own ==> own[p] in names
    requires forall n :: n in names ==> |OwnedBy(own, n)| <= u
    ensures |own| <= Times(|names|, u)
    decreases |names|
  {
    if names == {} {
      NobodyOwns(own);
    } else {
      var n :| n in names;
      var rest := Without(own, n);
      SplitOff(own, n);
      RestOwned(own, n, names, rest);
      assert |names - {n}| == |names| - 1;
      CountAtMost(rest, names - {n}, u);
    }
  }

  lemma {:induction false} CountAtLeast<Name>(own: map<int, Name>, names: set<Name>, l: nat)
    requires forall n :: n in names ==> |OwnedBy(own, n)| >= l
    ensures |own| >= Times(|names|, l)
    decreases |names|
  {
    if names != {} {
      var n :| n in names;
      SplitOff(own, n);
      var rest := Without(own, n);
      forall m | m in names - {n} ensures |OwnedBy(rest, m)| >= l {
        assert OwnedBy(rest, m) == OwnedBy(own, m);
      }
      assert |names - {n}| == |names| - 1;
      CountAtLeast(rest, names - {n}, l);
      assert Times(|names|, l) == Times(|names| - 1, l) + l;
    }
  }

  /** Where everybody has at most `u` and the total is `u` each, everybody has exactly `u`. */
  lemma CountTight<Name>(own: map<int, Name>, names: set<Name>, u: nat, m: Name)
    requires m in names && forall p {:trigger p in own} :: p in own ==> own[p] in names
    requires forall n :: n in names ==> |OwnedBy(own, n)| <= u
    requires |own| >= Times(|names|, u)
    ensures |OwnedBy(own, m)| == u
  {
    SplitOff(own, m);
    CountAtMost(Without(own, m), names - {m}, u);
    assert |names - {m}| == |names| - 1;
  }

  /** Two members together hold no more than there is. */
  lemma PairAtMost<Name>(own: map<int, Name>, m: Name, n: Name)
    requires m != n
    ensures |OwnedBy(own, m)| + |OwnedBy(own, n)| <= |own|
  {
    SplitOff(own, m);
    SplitOff(Without(own, m), n);
  }

  // ----- walking the ring -----

  /** `i` is one of the `k` indices met when walking a ring of `n` slots from `start`. */
  predicate InArc(i: nat, start: nat, k: nat, n: nat)
  {
    start <= i < start + k || i + n < start + k
  }

  /** How many steps lead from slot i to slot j. */
  function Steps(i: nat, j: nat, n: nat): (d: nat)
    requires i < n && j < n
    ensures d < n && (i + d == j || i + d == j + n)
  {
    if i <= j then j - i else j + n - i
  }

  /** A ring, the members it was built for, and the load limits. */
  datatype Layout<Name(==)> = Layout(ring: Ring<Name>, names: set<Name>, total: nat, minLoad: nat, maxLoad: nat) {

    ghost predicate Ok()
    {
      ring.Ok() && ring.Slots() <= names && minLoad <= maxLoad
    }

    function Size(): (n: nat)
      requires Ok()
      ensures n > 0
    {
      |ring.nodes|
    }

    /** The owner of every placed partition, read through partitionDist, sortedRing and nodeToMems. */
    function Owners(a: Assignment<Name>): map<int, Name>
      requires Ok() && forall p :: p in a.dist ==> a.dist[p] < |ring.nodes|
    {
      map p | p in a.dist :: ring.At(a.dist[p])
    }

    /** The two representations agree: every placed partition is with exactly the member that
        partitionDist leads to. */
    ghost predicate Agrees(a: Assignment<Name>)
    {
      && Ok()
      && a.parts.Keys == names
      && (forall p :: p in a.dist ==> a.dist[p] < |ring.nodes|)
      && (forall n :: n in names ==> a.parts[n] == OwnedBy(Owners(a), n))
    }

    function Load(a: Assignment<Name>, n: Name): nat
      requires n in a.parts
    {
      |a.parts[n]|
    }

    predicate Fits(a: Assignment<Name>, black: set<Name>, allowed: nat, i: nat)
      requires Ok() && names <= a.parts.Keys && i < Size()
    {
      ring.At(i) !in black && Load(a, ring.At(i)) + 1 <= allowed
    }

    /** The first of `k` slots, walking from `i`, whose member may take one more partition. */
    function Probe(a: Assignment<Name>, black: set<Name>, allowed: nat, i: nat, k: nat): (r: Option<nat>)
      requires Ok() && names <= a.parts.Keys && i < Size() && k <= Size()
      ensures r.Some? ==> r.value < Size() && InArc(r.value, i, k, Size()) && Fits(a, black, allowed, r.value)
      ensures r.None? ==> forall j :: 0 <= j < Size() && InArc(j, i, k, Size()) ==> !Fits(a, black, allowed, j)
      decreases k
    {
      if k == 0 then None
      else if Fits(a, black, allowed, i) then Some(i)
      else Probe(a, black, allowed, ring.Next(i), k - 1)
    }

    /** Of `k` slots from `start` on, slot `i` is the first whose member may take one more partition. */
    ghost predicate FirstFit(a: Assignment<Name>, black: set<Name>, allowed: nat, start: nat, k: nat, i: nat)
      requires Ok() && names <= a.parts.Keys && start < Size()
    {
      && i < Size() && InArc(i, start, k, Size()) && Fits(a, black, allowed, i)
      && forall j :: 0 <= j < Size() && InArc(j, start, Steps(start, i, Size()), Size()) ==> !Fits(a, black, allowed, j)
    }

    lemma {:induction false} ProbeIsFirst(a: Assignment<Name>, black: set<Name>, allowed: nat, i: nat, k: nat)
      requires Ok() && names <= a.parts.Keys && i < Size() && k <= Size()
      ensures var r := Probe(a, black, allowed, i, k); r.Some? ==> FirstFit(a, black, allowed, i, k, r.value)
      decreases k
    {
      if k > 0 && !Fits(a, black, allowed, i) { ProbeIsFirst(a, black, allowed, ring.Next(i), k - 1); }
    }

    // ----- distribution -----

    function Put(a: Assignment<Name>, p: int, i: nat): Assignment<Name>
      requires Ok() && names <= a.parts.Keys && i < Size()
    {
      var n := ring.At(i);
      Assignment(a.parts[n := a.parts[n] + {p}], a.dist[p := i])
    }

    lemma PutAgrees(a: Assignment<Name>, p: int, i: nat)
      requires Agrees(a) && i < Size() && p !in a.dist
      ensures Agrees(Put(a, p, i))
      ensures forall n :: n in names ==>
        Load(Put(a, p, i), n) == Load(a, n) + if n == ring.At(i) then 1 else 0
    {
      var b := Put(a, p, i);
      assert Owners(b) == Owners(a)[p := ring.At(i)];
      forall n | n in names ensures b.parts[n] == OwnedBy(Owners(b), n) {
        assert p !in OwnedBy(Owners(a), n);
      }
      assert p !in OwnedBy(Owners(a), ring.At(i));
    }

    /** distributePartition: first under the lower limit, then under the upper one. */
    function Place(a: Assignment<Name>, p: int, start: nat): Option<Assignment<Name>>
      requires Ok() && names <= a.parts.Keys && start < Size()
    {
      var low := Probe(a, {}, minLoad, start, Size());
      if low.Some? then Some(Put(a, p, low.value))
      else
        var high := Probe(a, {}, maxLoad, start, Size());
        if high.Some? then Some(Put(a, p, high.value)) else None
    }

    /** The limit in force: the lower one until every slot owner has reached it. */
    ghost function Limit(a: Assignment<Name>): nat
      requires Ok() && names <= a.parts.Keys
    {
      if forall i :: 0 <= i < Size() ==> Load(a, ring.At(i)) >= minLoad then maxLoad else minLoad
    }

    /** From `a` to `b` one partition is added, at the first slot from `start` on below the limit. */
    ghost predicate PlacedBy(a: Assignment<Name>, p: int, start: nat, b: Assignment<Name>)
      requires Ok() && names <= a.parts.Keys && start < Size()
    {
      exists i :: FirstFit(a, {}, Limit(a), start, Size(), i)
        && b.dist == a.dist[p := i] && b.parts == a.parts[ring.At(i) := a.parts[ring.At(i)] + {p}]
    }

    /** One partition, both ways: it is added at the first slot below the limit, or every member with a slot is full. */
    lemma PlaceExactly(a: Assignment<Name>, p: int, start: nat)
      requires Ok() && names <= a.parts.Keys && start < Size()
      ensures Place(a, p, start).Some? ==> PlacedBy(a, p, start, Place(a, p, start).value)
      ensures Place(a, p, start).None? <==> forall i :: 0 <= i < Size() ==> Load(a, ring.At(i)) >= maxLoad
    {
      var low, high := Probe(a, {}, minLoad, start, Size()), Probe(a, {}, maxLoad, start, Size());
      ProbeIsFirst(a, {}, minLoad, start, Size());
      ProbeIsFirst(a, {}, maxLoad, start, Size());
      if low.Some? {
        assert Fits(a, {}, minLoad, low.value);
        assert FirstFit(a, {}, Limit(a), start, Size(), low.value);
      } else {
        forall i | 0 <= i < Size() ensures Load(a, ring.At(i)) >= minLoad {
          assert InArc(i, start, Size(), Size()) && !Fits(a, {}, minLoad, i);
        }
        if high.Some? {
          assert FirstFit(a, {}, Limit(a), start, Size(), high.value);
        } else {
          forall i | 0 <= i < Size() ensures Load(a, ring.At(i)) >= maxLoad {
            assert InArc(i, start, Size(), Size()) && !Fits(a, {}, maxLoad, i);
          }
        }
      }
    }

    function Empty(): Assignment<Name>
    {
      Assignment(map n | n in names :: {}, map[])
    }

    ghost predicate InRing(starts: seq<nat>)
    {
      forall p :: 0 <= p < |starts| ==> starts[p] < |ring.nodes|
    }

    /** The assignment of as many partitions as there are starting slots; None when some partition
        found no room. */
    function Distributed(starts: seq<nat>): (r: Option<Assignment<Name>>)
      requires Ok() && InRing(starts)
      ensures r.Some? ==> Shape(r.value)
    {
      if starts == [] then Some(Empty())
      else
        var k := |starts| - 1;
        var prev := Distributed(starts[..k]);
        if prev.None? then None else Place(prev.value, k, starts[k])
    }

    /** The assignments from the empty one on, each from the one before by the next partition. */
    ghost predicate InTurn(stages: seq<Assignment<Name>>, starts: seq<nat>)
      requires Ok() && InRing(starts)
    {
      && |stages| == |starts| + 1 && stages[0].dist == map[] && stages[0].parts.Keys == names
      && (forall n :: n in names ==> stages[0].parts[n] == {})
      && (forall k :: 0 <= k <= |starts| ==> names <= stages[k].parts.Keys)
      && (forall k :: 0 <= k < |starts| ==> PlacedBy(stages[k], k, starts[k], stages[k + 1]))
    }

    /** The distribution adds partition after partition. */
    lemma {:induction false} DistributedInTurn(starts: seq<nat>, a: Assignment<Name>)
      returns (stages: seq<Assignment<Name>>)
      requires Ok() && InRing(starts) && Distributed(starts) == Some(a)
      ensures InTurn(stages, starts) && stages[|starts|] == a
      decreases |starts|
    {
      if starts == [] {
        stages := [Empty()];
      } else {
        var k := |starts| - 1;
        var early := starts[..k];
        var prev := Distributed(early).value;
        var before := DistributedInTurn(early, prev);
        PlaceExactly(prev, k, starts[k]);
        stages := before + [a];
        InTurnMore(before, early, starts[k], a);
        SplitLast(starts);
      }
    }

    lemma InTurnMore(before: seq<Assignment<Name>>, starts: seq<nat>, start: nat, a: Assignment<Name>)
      requires Ok() && InRing(starts) && start < Size() && InTurn(before, starts) && names <= a.parts.Keys
      requires PlacedBy(before[|starts|], |starts|, start, a)
      ensures InRing(starts + [start]) && InTurn(before + [a], starts + [start])
    {
      var stages, all := before + [a], starts + [start];
      forall k | 0 <= k < |all| ensures PlacedBy(stages[k], k, all[k], stages[k + 1]) {
        if k < |starts| { assert PlacedBy(before[k], k, starts[k], before[k + 1]); }
      }
    }

    /** The last partition is placed after the others. */
    lemma DistributedLast(starts: seq<nat>, k: nat, early: seq<nat>)
      requires Ok() && InRing(starts) && k + 1 == |starts| && early == starts[..k]
      ensures InRing(early)
      ensures Distributed(starts)
        == if Distributed(early).None? then None else Place(Distributed(early).value, k, starts[k])
    {
    }

    /** The distribution never overfills anybody and starts on the second level only once the
        first is full everywhere. */
    ghost predicate Level(a: Assignment<Name>)
      requires Ok() && names <= a.parts.Keys
    {
      && (forall n :: n in names ==> Load(a, n) <= maxLoad)
      && ((forall n :: n in ring.Slots() ==> Load(a, n) <= minLoad)
          || (forall n :: n in ring.Slots() ==> Load(a, n) >= minLoad))
    }

    lemma FullRing(a: Assignment<Name>, allowed: nat, start: nat)
      requires Ok() && names <= a.parts.Keys && start < Size()
      requires Probe(a, {}, allowed, start, Size()).None?
      ensures forall n :: n in ring.Slots() ==> Load(a, n) >= allowed
    {
      forall n | n in ring.Slots() ensures Load(a, n) >= allowed {
        var i :| 0 <= i < Size() && ring.At(i) == n;
        assert InArc(i, start, Size(), Size());
        assert !Fits(a, {}, allowed, i);
      }
    }

    lemma OwnersInSlots(a: Assignment<Name>)
      requires Agrees(a)
      ensures |Owners(a)| == |a.dist|
      ensures forall p {:trigger p in Owners(a)} :: p in Owners(a) ==> Owners(a)[p] in ring.Slots()
      ensures forall n :: n in names ==> Load(a, n) == |OwnedBy(Owners(a), n)|
    {
      assert Owners(a).Keys == a.dist.Keys;
    }

    lemma AtMostInSlots(b: Assignment<Name>)
      requires Agrees(b) && forall n :: n in names ==> Load(b, n) <= maxLoad
      ensures |b.dist| <= Times(|ring.Slots()|, maxLoad)
    {
      OwnersInSlots(b);
      CountAtMost(Owners(b), ring.Slots(), maxLoad);
    }

    lemma PlaceAt(a: Assignment<Name>, p: int, i: nat)
      requires Agrees(a) && i < Size() && p !in a.dist
      requires forall n :: n in names ==> Load(a, n) <= maxLoad
      requires Fits(a, {}, maxLoad, i)
      ensures |a.dist| + 1 <= Times(|ring.Slots()|, maxLoad)
    {
      var b := Put(a, p, i);
      PutAgrees(a, p, i);
      OwnersInSlots(b);
      assert |b.dist| == |a.dist| + 1 by { assert b.dist.Keys == a.dist.Keys + {p}; }
      AtMostInSlots(b);
    }

    /** One more partition finds room exactly when it does not exceed the room there is. */
    lemma PlaceSucceeds(a: Assignment<Name>, p: int, start: nat)
      requires Agrees(a) && Level(a) && start < Size() && p !in a.dist
      ensures Place(a, p, start).Some? <==> |a.dist| + 1 <= Times(|ring.Slots()|, maxLoad)
    {
      var high := Probe(a, {}, maxLoad, start, Size());
      if high.Some? {
        PlaceAt(a, p, high.value);
      } else {
        NoRoom(a, start);
        var low := Probe(a, {}, minLoad, start, Size());
        assert low.Some? ==> !Fits(a, {}, maxLoad, low.value);
      }
    }

    lemma PlaceKeepsLevel(a: Assignment<Name>, p: int, start: nat, b: Assignment<Name>)
      requires Agrees(a) && Level(a) && start < Size() && p !in a.dist
      requires Place(a, p, start) == Some(b)
      ensures Agrees(b)
      ensures Level(b)
    {
      var low := Probe(a, {}, minLoad, start, Size());
      if low.Some? {
        assert b == Put(a, p, low.value);
        PutAgrees(a, p, low.value);
        LowStaysLevel(a, p, low.value);
      } else {
        FullRing(a, minLoad, start);
        var high := Probe(a, {}, maxLoad, start, Size());
        assert b == Put(a, p, high.value);
        PutAgrees(a, p, high.value);
        HighStaysLevel(a, p, high.value);
      }
    }

    lemma LowStaysLevel(a: Assignment<Name>, p: int, i: nat)
      requires Agrees(a) && Level(a) && i < Size() && p !in a.dist && Fits(a, {}, minLoad, i)
      ensures Level(Put(a, p, i))
    {
      PutAgrees(a, p, i);
      assert ring.At(i) in ring.Slots();
    }

    lemma HighStaysLevel(a: Assignment<Name>, p: int, i: nat)
      requires Agrees(a) && Level(a) && i < Size() && p !in a.dist && Fits(a, {}, maxLoad, i)
      requires forall n :: n in ring.Slots() ==> Load(a, n) >= minLoad
      ensures Level(Put(a, p, i))
    {
      PutAgrees(a, p, i);
    }

    lemma NoRoom(a: Assignment<Name>, start: nat)
      requires Agrees(a) && start < Size() && Probe(a, {}, maxLoad, start, Size()).None?
      ensures |a.dist| >= Times(|ring.Slots()|, maxLoad)
    {
      OwnersInSlots(a);
      FullRing(a, maxLoad, start);
      CountAtLeast(Owners(a), ring.Slots(), maxLoad);
    }

    /** For every hasher, a distribution that succeeds places each partition once, with the member
        both representations name, and never leaves a member over the upper limit. */
    lemma {:induction false} DistributedAgrees(starts: seq<nat>, b: Assignment<Name>)
      requires Ok() && InRing(starts) && Distributed(starts) == Some(b)
      ensures Agrees(b) && Level(b)
      ensures b.dist.Keys == Below(|starts|) && |b.dist| == |starts|
      decreases |starts|
    {
      if starts == [] {
        assert Owners(b) == map[];
      } else {
        var k := |starts| - 1;
        var a := Distributed(starts[..k]).value;
        DistributedAgrees(starts[..k], a);
        PlaceKeepsLevel(a, k, starts[k], b);
        assert b.dist.Keys == a.dist.Keys + {k} == Below(k + 1);
        assert |b.dist| == |b.dist.Keys|;
      }
    }

    /** It succeeds exactly when the partitions fit under the upper limit on the members that
        own a slot. */
    lemma {:induction false} DistributedSucceeds(starts: seq<nat>)
      requires Ok() && InRing(starts)
      ensures Distributed(starts).Some? <==> |starts| <= Times(|ring.Slots()|, maxLoad)
      decreases |starts|
    {
      if starts != [] {
        var k := |starts| - 1;
        DistributedSucceeds(starts[..k]);
        var prev := Distributed(starts[..k]);
        if prev.Some? {
          DistributedAgrees(starts[..k], prev.value);
          PlaceSucceeds(prev.value, k, starts[k]);
        }
      }
    }

    /** A member without a slot gets nothing; one with a slot gets at least the lower limit. */
    lemma SlotLoads(count: nat, b: Assignment<Name>, n: Name)
      requires Agrees(b) && Level(b) && n in names && |b.dist| == total
      requires |ring.Slots()| <= count && Times(count, minLoad) <= total
      ensures if n in ring.Slots() then minLoad <= Load(b, n) <= maxLoad else Load(b, n) == 0
    {
      OwnersInSlots(b);
      if n in ring.Slots() {
        TimesMonotone(|ring.Slots()|, count, minLoad);
        if forall m :: m in ring.Slots() ==> Load(b, m) <= minLoad {
          CountTight(Owners(b), ring.Slots(), minLoad, n);
        }
      } else {
        forall p ensures p !in b.parts[n] {
          assert p in Owners(b) ==> Owners(b)[p] in ring.Slots();
        }
        assert b.parts[n] == {};
      }
    }

    /** Balance, both ways: after a successful distribution every member's load is between the floor
        and the ceiling of the average exactly when the floor is zero or everybody owns a slot. */
    lemma Balanced(starts: seq<nat>, count: nat, b: Assignment<Name>)
      requires Ok() && InRing(starts) && |starts| == total
      requires |names| <= count && Times(count, minLoad) <= total
      requires Distributed(starts) == Some(b)
      ensures (forall n :: n in names ==> minLoad <= Load(b, n) <= maxLoad)
          <==> minLoad == 0 || ring.Slots() == names
    {
      DistributedAgrees(starts, b);
      SubsetSize(ring.Slots(), names);
      forall n | n in names
        ensures if n in ring.Slots() then minLoad <= Load(b, n) <= maxLoad else Load(b, n) == 0
      {
        SlotLoads(count, b, n);
      }
      if ring.Slots() != names {
        var n :| n in names && n !in ring.Slots();
        assert Load(b, n) == 0;
      }
    }

    // ----- affinity -----

    ghost predicate Shape(a: Assignment<Name>)
    {
      Ok() && a.parts.Keys == names && forall p :: p in a.dist ==> a.dist[p] < |ring.nodes|
    }

    /** Looking a partition up in the partitionDist map; a missing key reads as zero. */
    function Where(a: Assignment<Name>, p: int): (i: nat)
      requires Shape(a)
      ensures i < Size()
    {
      if p in a.dist then a.dist[p] else 0
    }

    lemma OthersFull(a: Assignment<Name>, black: set<Name>, level: nat, i: nat)
      requires Shape(a) && i < Size()
      ensures Probe(a, black, level, ring.Next(i), Size() - 1).None? ==>
        forall j :: 0 <= j < Size() && j != i ==> ring.At(j) in black || Load(a, ring.At(j)) + 1 > level
    {
      if Probe(a, black, level, ring.Next(i), Size() - 1).None? {
        forall j | 0 <= j < Size() && j != i && ring.At(j) !in black ensures Load(a, ring.At(j)) + 1 > level {
          assert InArc(j, ring.Next(i), Size() - 1, Size());
          assert !Fits(a, black, level, j);
        }
      }
    }

    /** The slot that takes partition `p` over: the first one met on the ring after its own, at the
        lowest limit from `level` up at which there is one. Greedy optimality is the second clause:
        the receiver's new load is within `level`, or no other candidate would end up with less. */
    function Target(a: Assignment<Name>, p: int, black: set<Name>, level: nat): (r: Option<nat>)
      requires Shape(a)
      ensures r.Some? ==> r.value < Size() && ring.At(r.value) !in black && Load(a, ring.At(r.value)) + 1 < total
      ensures r.Some? ==> forall j :: 0 <= j < Size() && j != Where(a, p) && ring.At(j) !in black ==>
        var load := Load(a, ring.At(r.value)) + 1; load <= level || load <= Load(a, ring.At(j)) + 1
      ensures r.None? <==> (level >= total
        || forall j :: 0 <= j < Size() && j != Where(a, p) ==>
             ring.At(j) in black || Load(a, ring.At(j)) + 1 >= total)
      decreases total - level
    {
      if level >= total then None
      else
        var i := Where(a, p);
        var found := Probe(a, black, level, ring.Next(i), Size() - 1);
        OthersFull(a, black, level, i);
        assert found.Some? ==> found.value != i;
        if found.Some? then found else Target(a, p, black, level + 1)
    }

    /** And it is the first such slot after the partition's own. */
    lemma {:induction false} TargetIsFirst(a: Assignment<Name>, p: int, black: set<Name>, level: nat)
      requires Shape(a)
      ensures var r := Target(a, p, black, level);
        r.Some? ==> var load := Load(a, ring.At(r.value)) + 1;
        FirstFit(a, black, if load <= level then level else load, ring.Next(Where(a, p)), Size() - 1, r.value)
      decreases total - level
    {
      var i := Where(a, p);
      ProbeIsFirst(a, black, level, ring.Next(i), Size() - 1);
      if level < total && Probe(a, black, level, ring.Next(i), Size() - 1).None? {
        TargetIsFirst(a, p, black, level + 1);
        OthersFull(a, black, level, i);
      }
    }

    function MoveTo(a: Assignment<Name>, p: int, src: Name, i: nat): (b: Assignment<Name>)
      requires Shape(a) && src in names && i < Size()
      ensures Shape(b)
    {
      var n := ring.At(i);
      var parts := a.parts[n := a.parts[n] + {p}];
      Assignment(parts[src := parts[src] - {p}], a.dist[p := i])
    }

    /** offloadPartition: a partition that finds no room stays where it is. */
    function Offload(a: Assignment<Name>, p: int, src: Name, black: set<Name>): (b: Assignment<Name>)
      requires Shape(a) && src in names
      ensures Shape(b)
    {
      var t := Target(a, p, black, maxLoad);
      if t.Some? then MoveTo(a, p, src, t.value) else a
    }

    /** From `a` to `b` partition `p` moves from the source to slot `i`: of the slots of unlisted members the first one
        after its own, under the upper limit or, where all are at it, at the least load there is. */
    ghost predicate MovedTo(a: Assignment<Name>, p: int, src: Name, black: set<Name>, b: Assignment<Name>, i: nat)
      requires Shape(a) && src in names
    {
      && i < Size() && ring.At(i) != src
      && (var load := Load(a, ring.At(i)) + 1;
          && FirstFit(a, black, if load <= maxLoad then maxLoad else load, ring.Next(Where(a, p)), Size() - 1, i)
          && load < total
          && forall j :: 0 <= j < Size() && j != Where(a, p) && ring.At(j) !in black ==>
               load <= maxLoad || load <= Load(a, ring.At(j)) + 1)
      && b.dist == a.dist[p := i]
      && b.parts == a.parts[src := a.parts[src] - {p}][ring.At(i) := a.parts[ring.At(i)] + {p}]
    }

    /** Nobody unlisted has room below the total. */
    ghost predicate NoneTakes(a: Assignment<Name>, p: int, black: set<Name>)
      requires Shape(a)
    {
      maxLoad >= total
      || forall j :: 0 <= j < Size() && j != Where(a, p) ==> ring.At(j) in black || Load(a, ring.At(j)) + 1 >= total
    }

    ghost predicate Offloaded(a: Assignment<Name>, p: int, src: Name, black: set<Name>, b: Assignment<Name>)
      requires Shape(a) && src in names
    {
      if NoneTakes(a, p, black) then b == a else exists i :: MovedTo(a, p, src, black, b, i)
    }

    /** One offload, both ways. */
    lemma OffloadExactly(a: Assignment<Name>, p: int, src: Name, black: set<Name>)
      requires Shape(a) && src in names && src in black
      ensures Offloaded(a, p, src, black, Offload(a, p, src, black))
    {
      var t := Target(a, p, black, maxLoad);
      TargetIsFirst(a, p, black, maxLoad);
      if t.Some? { assert MovedTo(a, p, src, black, Offload(a, p, src, black), t.value); }
    }

    lemma MoveAgrees(a: Assignment<Name>, p: int, src: Name, i: nat, b: Assignment<Name>)
      requires Agrees(a) && src in names && p in a.parts[src] && i < Size() && ring.At(i) != src
      requires b == MoveTo(a, p, src, i)
      ensures Agrees(b) && b.dist.Keys == a.dist.Keys
    {
      assert Owners(b) == Owners(a)[p := ring.At(i)];
      forall n | n in names ensures b.parts[n] == OwnedBy(Owners(b), n) {
        assert a.parts[n] == OwnedBy(Owners(a), n);
      }
    }

    /** Conservation: whatever the outcome, an offload keeps the assignment exact, gives nothing to a
        member on the list, and takes from the source the partition or nothing. */
    lemma OffloadKeeps(a: Assignment<Name>, p: int, src: Name, black: set<Name>, b: Assignment<Name>)
      requires Agrees(a) && src in names && src in black && p in a.parts[src]
      requires b == Offload(a, p, src, black)
      ensures Agrees(b) && b.dist.Keys == a.dist.Keys
      ensures forall n :: n in names && n in black && n != src ==> b.parts[n] == a.parts[n]
      ensures b.parts[src] == a.parts[src] || b.parts[src] == a.parts[src] - {p}
    {
      assert ring.At(Where(a, p)) == src by { assert a.parts[src] == OwnedBy(Owners(a), src); }
      var t := Target(a, p, black, maxLoad);
      if t.Some? { MoveAgrees(a, p, src, t.value, b); }
    }
  }

  lemma {:induction false} TimesMonotone(m: nat, n: nat, u: nat)
    requires m <= n
    ensures Times(m, u) <= Times(n, u)
    decreases n - m
  {
    if m < n { TimesMonotone(m, n - 1, u); }
  }
}
