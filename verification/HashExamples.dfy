/** Builds of the consistent uniform hash that do not give what is asked of them. */
module HashExamples {
  import opened Common
  import opened Placement
  import opened Affinity
  import opened ConsistentHash
  import opened HashTheorems

  lemma TwoSorted(a: Name, b: Name)
    requires Less(a, b)
    ensures SortedBy([a, b], Less) && a != b
  {
    LessAsymmetric(a, b);
  }

  lemma ThreeSorted(a: Name, b: Name, c: Name)
    requires Less(a, b) && Less(b, c)
    ensures SortedBy([a, b, c], Less) && a != b && b != c && a != c
  {
    LessTransitive(a, b, c);
    LessAsymmetric(a, b);
    LessAsymmetric(b, c);
    LessAsymmetric(a, c);
  }

  /** A build without rules, from its sorted names and its sorted ring. */
  lemma Unruled(c: Case, h: Hasher, count: nat, names: seq<Name>, nodes: seq<nat>)
    requires names != [] && SortedBy(names, Less)
    requires SortedBy(nodes, NatLess) && multiset(nodes) == multiset(Hashes(h, names, 1))
    requires c == Case(h, 1, count, names, [], Build(names, nodes, [], []))
    ensures c.Ok()
  {
    LayoutOk(h, 1, count, names, c.b);
  }

  // ----- too little room -----

  function Colliding(): Hasher
  {
    Hasher((n: Name, i: nat) => 0, (p: nat) => 0)
  }

  lemma OneMoreName(h: Hasher, names: seq<Name>, n: Name, more: seq<Name>)
    requires more == names + [n]
    ensures Hashes(h, more, 1) == Hashes(h, names, 1) + [h.node(n, 0)]
    ensures NodeOwners(h, more, 1) == NodeOwners(h, names, 1)[h.node(n, 0) := n]
  {
    assert more[..|names|] == names;
    assert HashesUpTo(h, Hashes(h, names, 1), n, 0) == Hashes(h, names, 1);
    assert OwnersUpTo(h, NodeOwners(h, names, 1), n, 0) == NodeOwners(h, names, 1);
  }

  lemma OneSlot(h: Hasher, a: Name, b: Name)
    requires h == Colliding()
    ensures Hashes(h, [a, b], 1) == [0, 0] && NodeOwners(h, [a, b], 1) == map[0 := b]
  {
    OneMoreName(h, [], a, [a]);
    OneMoreName(h, [a], b, [a, b]);
  }

  lemma SlotsOfOne<N>(r: Ring<N>, b: N)
    requires r == Ring([0, 0], map[0 := b])
    ensures r.Ok() && r.Slots() == {b}
  {
    assert r.At(0) == b && r.At(1) == b;
  }

  lemma NoRoomForTwo(c: Case)
    requires c.Ok() && c.count == |c.members| == 2 && |c.Slots()| == 1
    ensures c.Dist().None?
  {
    assert Ceil(2, 2) == 1;
    RoomExactly(c);
  }

  lemma RoomForOne(c: Case, h: Hasher, names: seq<Name>, b: Name)
    requires |names| == 2 && SortedBy(names, Less) && Hashes(h, names, 1) == [0, 0]
    requires NodeOwners(h, names, 1) == map[0 := b]
    requires c == Case(h, 1, 2, names, [], Build(names, [0, 0], [], []))
    ensures c.Ok() && c.Dist().None?
  {
    Unruled(c, h, 2, names, [0, 0]);
    SlotsOfOne(c.Lay().ring, b);
    NoRoomForTwo(c);
  }

  /** Two members whose virtual nodes collide, and two partitions: the second one finds no room. */
  lemma OutOfRoom(a: Name, b: Name) returns (c: Case)
    requires Less(a, b)
    ensures c.Ok() && c.members == [a, b] && c.count == 2 && c.Dist().None?
  {
    c := Case(Colliding(), 1, 2, [a, b], [], Build([a, b], [0, 0], [], []));
    TwoSorted(a, b);
    OneSlot(Colliding(), a, b);
    RoomForOne(c, Colliding(), [a, b], b);
  }

  // ----- an uneven distribution -----

  function Crowded(last: Name): Hasher
  {
    Hasher((n: Name, i: nat) => if n == last then 1 else 0, (p: nat) => 0)
  }

  lemma TwoSlots(h: Hasher, a: Name, b: Name, c: Name)
    requires h == Crowded(c) && a != c && b != c
    ensures Hashes(h, [a, b, c], 1) == [0, 0, 1] && NodeOwners(h, [a, b, c], 1) == map[0 := b, 1 := c]
  {
    OneMoreName(h, [], a, [a]);
    OneMoreName(h, [a], b, [a, b]);
    OneMoreName(h, [a, b], c, [a, b, c]);
  }

  lemma SlotsOfTwo<N>(r: Ring<N>, b: N, c: N)
    requires r == Ring([0, 0, 1], map[0 := b, 1 := c]) && b != c
    ensures r.Ok() && r.Slots() == {b, c} && |r.Slots()| == 2
  {
    assert r.At(0) == b && r.At(1) == b && r.At(2) == c;
  }

  /** The member is outside the floor and the ceiling of the average load. */
  ghost predicate Unfair(c: Case, n: Name)
    requires c.Ok() && c.Dist().Some?
  {
    && n in Elements(c.members) && n in c.Dist().value.parts
    && !(Floor(c.count, |c.members|) <= c.Lay().Load(c.Dist().value, n) <= Ceil(c.count, |c.members|))
  }

  lemma SomeoneUnfair(c: Case)
    requires c.Ok() && c.count == 4 && |c.members| == 3 && |c.Slots()| == 2 && c.Slots() != Elements(c.members)
    ensures c.Dist().Some? && exists n :: Unfair(c, n)
  {
    assert Ceil(4, 3) == 2 && Floor(4, 3) == 1;
    RoomExactly(c);
    EvenlyPlaced(c);
    var n :| n in Elements(c.members) && !(Floor(4, 3) <= c.Lay().Load(c.Dist().value, n) <= Ceil(4, 3));
    assert Unfair(c, n);
  }

  lemma UnfairWithTwo(c: Case, h: Hasher, names: seq<Name>, a: Name, b: Name, d: Name)
    requires |names| == 3 && SortedBy(names, Less) && a in names && a != b && b != d && a != d
    requires Hashes(h, names, 1) == [0, 0, 1] && NodeOwners(h, names, 1) == map[0 := b, 1 := d]
    requires c == Case(h, 1, 4, names, [], Build(names, [0, 0, 1], [], []))
    ensures c.Ok() && c.Dist().Some? && exists n :: Unfair(c, n)
  {
    Unruled(c, h, 4, names, [0, 0, 1]);
    SlotsOfTwo(c.Lay().ring, b, d);
    assert a in Elements(names) && a !in c.Slots();
    SomeoneUnfair(c);
  }

  /** Three members of which one lost its slot, and four partitions: all are placed, and not every member has its
      share. */
  lemma Uneven(a: Name, b: Name, d: Name) returns (c: Case)
    requires Less(a, b) && Less(b, d)
    ensures c.Ok() && c.members == [a, b, d] && c.count == 4 && c.Dist().Some? && exists n :: Unfair(c, n)
  {
    c := Case(Crowded(d), 1, 4, [a, b, d], [], Build([a, b, d], [0, 0, 1], [], []));
    ThreeSorted(a, b, d);
    TwoSlots(Crowded(d), a, b, d);
    UnfairWithTwo(c, Crowded(d), [a, b, d], a, b, d);
  }

  // ----- a ruled partition that is moved away -----

  /** A ring of three members with one slot each, for six partitions. */
  ghost predicate Three<N>(l: Layout<N>, a: N, b: N, c: N)
  {
    && a != b && b != c && a != c
    && l == Layout(Ring([0, 1, 2], map[0 := a, 1 := b, 2 := c]), {a, b, c}, 6, 2, 2)
  }

  /** Two partitions are put on each member in turn; these are the ones on member i after k of them. */
  function Filled(k: nat, i: nat): set<int>
  {
    set p: int | 0 <= p < k && p / 2 == i
  }

  function Stage<N>(k: nat, a: N, b: N, c: N): Assignment<N>
  {
    Assignment(map[a := Filled(k, 0), b := Filled(k, 1), c := Filled(k, 2)], map p: int | 0 <= p < k :: p / 2)
  }

  lemma FilledBelow(k: nat)
    ensures |Filled(k, k / 2)| <= 1
  {
    assert Filled(k, k / 2) <= {2 * (k / 2)};
    SubsetSize(Filled(k, k / 2), {2 * (k / 2)});
  }

  lemma FilledMore(k: nat, i: nat)
    ensures Filled(k + 1, i) == if i == k / 2 then Filled(k, i) + {k} else Filled(k, i)
  {
  }

  lemma ThreeOk<N>(l: Layout<N>, a: N, b: N, c: N)
    requires Three(l, a, b, c)
    ensures l.Ok() && l.ring.Slots() == {a, b, c} && l.ring.At(0) == a && l.ring.At(1) == b && l.ring.At(2) == c
  {
    assert l.ring.At(0) == a && l.ring.At(1) == b && l.ring.At(2) == c;
  }

  /** A partition whose own slot is below the floor stays there. */
  lemma PlaceHere<N>(l: Layout<N>, s: Assignment<N>, p: int, i: nat)
    requires l.Ok() && l.names <= s.parts.Keys && i < l.Size() && l.Load(s, l.ring.At(i)) < l.minLoad
    ensures l.Place(s, p, i) == Some(l.Put(s, p, i))
  {
    assert l.Fits(s, {}, l.minLoad, i);
  }

  lemma StageParts<N>(a: N, b: N, c: N, k: nat, i: nat, n: N)
    requires a != b && b != c && a != c && i == k / 2 < 3 && n == [a, b, c][i]
    ensures Stage(k, a, b, c).parts[n := Filled(k + 1, i)] == Stage(k + 1, a, b, c).parts
  {
    FilledMore(k, 0);
    FilledMore(k, 1);
    FilledMore(k, 2);
  }

  lemma StagePut<N>(a: N, b: N, c: N, k: nat, i: nat, n: N)
    requires a != b && b != c && a != c && i == k / 2 < 3 && n == [a, b, c][i]
    ensures Assignment(Stage(k, a, b, c).parts[n := Filled(k, i) + {k}], Stage(k, a, b, c).dist[k := i])
      == Stage(k + 1, a, b, c)
  {
    StageParts(a, b, c, k, i, n);
    FilledMore(k, i);
    assert Stage(k, a, b, c).dist[k := i] == Stage(k + 1, a, b, c).dist;
  }

  lemma StageMore<N>(l: Layout<N>, a: N, b: N, c: N, k: nat)
    requires Three(l, a, b, c) && k < 6
    ensures l.Shape(Stage(k, a, b, c)) && l.Place(Stage(k, a, b, c), k, k / 2) == Some(Stage(k + 1, a, b, c))
  {
    var s := Stage(k, a, b, c);
    ThreeOk(l, a, b, c);
    FilledBelow(k);
    assert s.parts[l.ring.At(k / 2)] == Filled(k, k / 2);
    PlaceHere(l, s, k, k / 2);
    StagePut(a, b, c, k, k / 2, l.ring.At(k / 2));
  }

  ghost predicate InTurn(starts: seq<nat>)
  {
    |starts| == 6 && forall p :: 0 <= p < 6 ==> starts[p] == p / 2
  }

  lemma NothingPlaced<N>(l: Layout<N>, a: N, b: N, c: N)
    requires l.names == {a, b, c}
    ensures l.Empty() == Stage(0, a, b, c)
  {
    assert Filled(0, 0) == Filled(0, 1) == Filled(0, 2) == {};
    assert l.Empty().parts == Stage(0, a, b, c).parts && l.Empty().dist == Stage(0, a, b, c).dist;
  }

  lemma OneMorePlaced<N>(l: Layout<N>, starts: seq<nat>, k: nat, s: Assignment<N>, t: Assignment<N>)
    requires l.Ok() && k < |starts| && starts[k] < l.Size()
    requires l.InRing(starts[..k]) && l.Distributed(starts[..k]) == Some(s)
    requires l.Shape(s) && l.Place(s, k, starts[k]) == Some(t)
    ensures l.InRing(starts[..k + 1]) && l.Distributed(starts[..k + 1]) == Some(t)
  {
    var more := starts[..k + 1];
    assert more[..k] == starts[..k];
    forall p | 0 <= p < |more| ensures more[p] < l.Size() { assert p < k ==> more[p] == starts[..k][p]; }
    l.DistributedLast(more, k, starts[..k]);
  }

  lemma {:induction false} Placed<N>(l: Layout<N>, a: N, b: N, c: N, starts: seq<nat>, k: nat)
    requires Three(l, a, b, c) && InTurn(starts) && k <= 6
    ensures l.Ok() && l.InRing(starts[..k]) && l.Distributed(starts[..k]) == Some(Stage(k, a, b, c))
    decreases k
  {
    ThreeOk(l, a, b, c);
    if k == 0 {
      NothingPlaced(l, a, b, c);
    } else {
      Placed(l, a, b, c, starts, k - 1);
      StageMore(l, a, b, c, k - 1);
      OneMorePlaced(l, starts, k - 1, Stage(k - 1, a, b, c), Stage(k, a, b, c));
    }
  }

  /** All six partitions, two on each member. */
  function Six<N>(a: N, b: N, c: N): Assignment<N>
  {
    Assignment(map[a := {0, 1}, b := {2, 3}, c := {4, 5}], map p: int | 0 <= p < 6 :: p / 2)
  }

  lemma SixPlaced<N>(a: N, b: N, c: N)
    ensures Stage(6, a, b, c) == Six(a, b, c)
  {
    assert Filled(6, 0) == {0, 1};
    assert Filled(6, 1) == {2, 3};
    assert Filled(6, 2) == {4, 5};
  }

  const FIRST := Rule(0, 1)
  const SECOND := Rule(1, 0)

  lemma SixShape<N>(l: Layout<N>, a: N, b: N, c: N, s: Assignment<N>)
    requires Three(l, a, b, c) && s == Six(a, b, c)
    ensures l.Shape(s) && l.Load(s, a) == 2 && l.Load(s, b) == 2 && l.Load(s, c) == 2
    ensures Host(l, s, FIRST) == a && Host(l, s, SECOND) == a
  {
    ThreeOk(l, a, b, c);
  }

  /** The first rule finds its member within the limit. */
  lemma FirstRule<N>(l: Layout<N>, a: N, b: N, c: N, s: Assignment<N>)
    requires Three(l, a, b, c) && s == Six(a, b, c)
    ensures l.Shape(s) && Choice(l, s, FIRST, []) && ApplyRule(l, Repair(s, []), FIRST, []) == Repair(s, [a])
  {
    SixShape(l, a, b, c, s);
  }

  lemma NobodyBelow<N>(l: Layout<N>, a: N, b: N, c: N, s: Assignment<N>)
    requires Three(l, a, b, c) && s == Six(a, b, c) && l.Shape(s)
    ensures l.Probe(s, {a}, 2, 1, 2).None? && l.Probe(s, {a}, 3, 1, 2) == Some(1)
  {
    ThreeOk(l, a, b, c);
    SixShape(l, a, b, c, s);
    assert !l.Fits(s, {a}, 2, 1) && !l.Fits(s, {a}, 2, 2);
    assert l.Fits(s, {a}, 3, 1);
  }

  /** Partition 0 goes to the next member on the ring. */
  lemma NextTakes<N>(l: Layout<N>, a: N, b: N, c: N, s: Assignment<N>)
    requires Three(l, a, b, c) && s == Six(a, b, c) && l.Shape(s)
    ensures l.Offload(s, 0, a, {a}) == l.MoveTo(s, 0, a, 1)
  {
    NobodyBelow(l, a, b, c, s);
    assert l.Where(s, 0) == 0 && l.ring.Next(0) == 1 && l.Size() == 3;
    assert l.Target(s, 0, {a}, 3) == Some(1);
  }

  lemma EvictOne<N>(l: Layout<N>, s: Assignment<N>, p: int, src: N, black: set<N>)
    requires l.Shape(s) && src in l.names && src in black
    ensures Evict(l, s, [p], src, black) == l.Offload(s, p, src, black)
  {
    assert [p][..0] == [];
    assert Evict(l, s, [], src, black) == s;
  }

  lemma SecondChoice<N>(l: Layout<N>, a: N, b: N, c: N, s: Assignment<N>)
    requires Three(l, a, b, c) && s == Six(a, b, c)
    ensures l.Shape(s) && Choice(l, s, SECOND, [0])
  {
    SixShape(l, a, b, c, s);
    assert Leavers(l, s, SECOND) == {0};
  }

  /** The second rule moves the partition of the first one. */
  lemma SecondRule<N>(l: Layout<N>, a: N, b: N, c: N, s: Assignment<N>, r: Repair<N>)
    requires Three(l, a, b, c) && s == Six(a, b, c) && l.Shape(s) && r == ApplyRule(l, Repair(s, [a]), SECOND, [0])
    ensures b in r.a.parts && r.a.parts[b] == {0, 2, 3} && 0 in r.a.dist && r.a.dist[0] == 1
  {
    SixShape(l, a, b, c, s);
    ThreeOk(l, a, b, c);
    assert Elements([a]) + {a} == {a};
    EvictOne(l, s, 0, a, {a});
    NextTakes(l, a, b, c, s);
    assert l.MoveTo(s, 0, a, 1).parts[b] == {2, 3} + {0};
  }

  lemma TwoRules<N>(l: Layout<N>, s: Assignment<N>, a: N, r: Repair<N>, rules: seq<Rule>, choices: seq<seq<int>>)
    requires l.Shape(s) && rules == [FIRST, SECOND] && choices == [[], [0]]
    requires Choice(l, s, FIRST, []) && ApplyRule(l, Repair(s, []), FIRST, []) == Repair(s, [a])
    requires Choice(l, s, SECOND, [0]) && r == ApplyRule(l, Repair(s, [a]), SECOND, [0])
    ensures IsRepair(l, s, rules, choices) && Repaired(l, s, rules, choices) == r
  {
    var one: seq<seq<int>> := [[]];
    assert rules[..1] == [FIRST] && choices[..1] == one;
    assert [FIRST][..0] == [] && one[..0] == [];
    assert Repaired(l, s, [], []) == Repair(s, []);
    assert Repaired(l, s, [FIRST], one) == Repair(s, [a]);
    assert IsRepair(l, s, [FIRST], one);
  }

  function InOrder(a: Name, b: Name): Hasher
  {
    Hasher((n: Name, i: nat) => if n == a then 0 else if n == b then 1 else 2, (p: nat) => p / 2)
  }

  lemma ThreeNodes(h: Hasher, a: Name, b: Name, c: Name)
    requires h == InOrder(a, b) && a != b && b != c && a != c
    ensures Hashes(h, [a, b, c], 1) == [0, 1, 2] && NodeOwners(h, [a, b, c], 1) == map[0 := a, 1 := b, 2 := c]
  {
    OneMoreName(h, [], a, [a]);
    OneMoreName(h, [a], b, [a, b]);
    OneMoreName(h, [a, b], c, [a, b, c]);
  }

  lemma StartsInTurn(h: Hasher, a: Name, b: Name)
    requires h == InOrder(a, b)
    ensures InTurn(Starts(h, [0, 1, 2], 6))
  {
    forall p | 0 <= p < 6 ensures Starts(h, [0, 1, 2], 6)[p] == p / 2 { FirstUnique([0, 1, 2], p / 2, 0, p / 2); }
  }

  lemma SixDistributed<N>(l: Layout<N>, a: N, b: N, c: N, starts: seq<nat>)
    requires Three(l, a, b, c) && InTurn(starts)
    ensures l.Ok() && l.InRing(starts) && l.Distributed(starts) == Some(Six(a, b, c))
  {
    Placed(l, a, b, c, starts, 6);
    assert starts[..6] == starts;
    SixPlaced(a, b, c);
  }

  lemma LayoutOfThree(h: Hasher, a: Name, b: Name, c: Name, build: Build)
    requires a != b && b != c && a != c && build.names == [a, b, c] && build.nodes == [0, 1, 2]
    requires NodeOwners(h, [a, b, c], 1) == map[0 := a, 1 := b, 2 := c]
    ensures Three(LayoutOf(h, 1, 6, [a, b, c], build), a, b, c)
  {
    assert Elements([a, b, c]) == {a, b, c};
    assert Floor(6, 3) == 2 && Ceil(6, 3) == 2;
  }

  lemma BuildIs(c: Case, l: Layout<Name>, s: Assignment<Name>, r: Repair<Name>)
    requires c.members != [] && c.rf > 0 && IsRing(c.h, c.rf, c.members, c.b) && |c.b.choices| == |c.b.rules|
    requires SortedBy(c.b.rules, RuleLess) && multiset(c.b.rules) == multiset(c.affinities)
    requires l == LayoutOf(c.h, c.rf, c.count, c.members, c.b) && l.Ok()
    requires l.Distributed(Starts(c.h, c.b.nodes, c.count)) == Some(s)
    requires l.Shape(s) && IsRepair(l, s, c.b.rules, c.b.choices) && r == Repaired(l, s, c.b.rules, c.b.choices)
    ensures c.Ok() && c.Lay() == l && c.Dist() == Some(s) && c.Repair() == r
  {
  }

  lemma RingOfThree(h: Hasher, a: Name, b: Name, d: Name, build: Build)
    requires Less(a, b) && Less(b, d) && Hashes(h, [a, b, d], 1) == [0, 1, 2]
    requires build.names == [a, b, d] && build.nodes == [0, 1, 2]
    ensures IsRing(h, 1, [a, b, d], build)
  {
    ThreeSorted(a, b, d);
  }

  /** The final owner of a rule's partition has more partitions than the rule allows. */
  ghost predicate Outside(c: Case, j: nat)
    requires c.Ok() && c.Dist().Some? && j < |c.b.rules|
  {
    var p, r := c.b.rules[j].partition, c.Repair();
    p in r.a.dist && c.Lay().Load(r.a, c.Lay().ring.At(r.a.dist[p])) > c.b.rules[j].others + 1
  }

  lemma OutsideFirst(c: Case, l: Layout<Name>, b: Name, r: Repair<Name>)
    requires c.Ok() && c.Lay() == l && c.Dist().Some? && c.Repair() == r && |c.b.rules| == 2 && c.b.rules[0] == FIRST
    requires l.Size() == 3 && l.ring.At(1) == b && b in r.a.parts
    requires r.a.parts[b] == {0, 2, 3} && 0 in r.a.dist && r.a.dist[0] == 1
    ensures Outside(c, 0)
  {
    SizeOfThree(r.a.parts[b]);
  }

  lemma SizeOfThree(s: set<int>)
    requires s == {0, 2, 3}
    ensures |s| == 3
  {
  }

  lemma FewForThree(c: Case, a: Name, b: Name, d: Name)
    requires c.Ok() && c.affinities == [FIRST, SECOND] && c.count == 6
    requires c.Slots() == {a, b, d} && a != b && b != d && a != d
    ensures FewRules(c)
  {
    assert |{a, b, d}| == 3;
  }

  /** The rules applied to two partitions on each of three members. */
  lemma RulesOnSix<N>(l: Layout<N>, a: N, b: N, d: N, s: Assignment<N>, rules: seq<Rule>, choices: seq<seq<int>>)
    returns (r: Repair<N>)
    requires Three(l, a, b, d) && s == Six(a, b, d) && rules == [FIRST, SECOND] && choices == [[], [0]]
    ensures l.Shape(s) && IsRepair(l, s, rules, choices) && r == Repaired(l, s, rules, choices)
    ensures b in r.a.parts && r.a.parts[b] == {0, 2, 3} && 0 in r.a.dist && r.a.dist[0] == 1
  {
    FirstRule(l, a, b, d, s);
    SecondChoice(l, a, b, d, s);
    r := ApplyRule(l, Repair(s, [a]), SECOND, [0]);
    SecondRule(l, a, b, d, s, r);
    TwoRules(l, s, a, r, rules, choices);
  }

  /** The ring and the distribution of six partitions in turn. */
  lemma SixInTurn(h: Hasher, a: Name, b: Name, d: Name, build: Build, l: Layout<Name>)
    requires Less(a, b) && Less(b, d) && h == InOrder(a, b) && build.names == [a, b, d] && build.nodes == [0, 1, 2]
    requires l == LayoutOf(h, 1, 6, [a, b, d], build)
    ensures IsRing(h, 1, [a, b, d], build) && Three(l, a, b, d)
    ensures l.Ok() && l.Distributed(Starts(h, build.nodes, 6)) == Some(Six(a, b, d))
  {
    ThreeSorted(a, b, d);
    ThreeNodes(h, a, b, d);
    RingOfThree(h, a, b, d, build);
    LayoutOfThree(h, a, b, d, build);
    StartsInTurn(h, a, b);
    SixDistributed(l, a, b, d, Starts(h, [0, 1, 2], 6));
  }

  lemma CaseOutside(c: Case, l: Layout<Name>, s: Assignment<Name>, r: Repair<Name>, a: Name, b: Name, d: Name)
    requires c.members != [] && c.rf > 0 && IsRing(c.h, c.rf, c.members, c.b) && |c.b.choices| == |c.b.rules|
    requires c.b.rules == c.affinities == [FIRST, SECOND] && c.count == 6
    requires l == LayoutOf(c.h, c.rf, c.count, c.members, c.b) && l.Ok()
    requires l.Distributed(Starts(c.h, c.b.nodes, c.count)) == Some(s)
    requires l.Shape(s) && IsRepair(l, s, c.b.rules, c.b.choices) && r == Repaired(l, s, c.b.rules, c.b.choices)
    requires l.Size() == 3 && l.ring.At(1) == b && l.ring.Slots() == {a, b, d} && a != b && b != d && a != d
    requires b in r.a.parts && r.a.parts[b] == {0, 2, 3} && 0 in r.a.dist && r.a.dist[0] == 1
    ensures c.Ok() && FewRules(c) && c.Dist().Some? && Outside(c, 0)
  {
    BuildIs(c, l, s, r);
    OutsideFirst(c, l, b, r);
    FewForThree(c, a, b, d);
  }

  lemma RuledBuild(c: Case, a: Name, b: Name, d: Name, h: Hasher, members: seq<Name>, rules: seq<Rule>, build: Build)
    requires Less(a, b) && Less(b, d) && h == InOrder(a, b) && rules == [FIRST, SECOND] && members == [a, b, d]
    requires build == Build(members, [0, 1, 2], rules, [[], [0]]) && c == Case(h, 1, 6, members, rules, build)
    ensures c.Ok() && FewRules(c) && c.Dist().Some? && Outside(c, 0)
  {
    var l := LayoutOf(h, 1, 6, members, build);
    SixInTurn(h, a, b, d, build, l);
    ThreeOk(l, a, b, d);
    var r := RulesOnSix(l, a, b, d, Six(a, b, d), rules, build.choices);
    CaseOutside(c, l, Six(a, b, d), r, a, b, d);
  }

  /** Three members with two partitions each. One other may be with partition 0, and none with partition 1, which is on
      the same member: the second rule moves partition 0 to a member that then has three. */
  lemma RuledPartitionMovedAway(a: Name, b: Name, d: Name) returns (c: Case)
    requires Less(a, b) && Less(b, d)
    ensures c.Ok() && c.affinities == [FIRST, SECOND] && FewRules(c) && c.Dist().Some? && Outside(c, 0)
  {
    c := Case(InOrder(a, b), 1, 6, [a, b, d], [FIRST, SECOND], Build([a, b, d], [0, 1, 2], [FIRST, SECOND], [[], [0]]));
    RuledBuild(c, a, b, d, c.h, c.members, c.b.rules, c.b);
  }
}
