/** What a build of the consistent uniform hash guarantees, for every hasher, every number of
    partitions, every member list and every affinity list. */
module HashTheorems {
  import opened Common
  import opened Placement
  import opened Affinity
  import opened ConsistentHash
  import opened RepairOutcomes

  /** The inputs of a build and how its sorts and map iterations came out. */
  datatype Case = Case(h: Hasher, rf: nat, count: nat, members: seq<Name>, affinities: seq<Rule>, b: Build) {
    ghost predicate Ok() { IsBuild(h, rf, count, members, affinities, b) }

    ghost function Lay(): Layout<Name>
      requires Ok()
    {
      LayoutOf(h, rf, count, members, b)
    }

    ghost function Slots(): set<Name>
      requires Ok()
    {
      Lay().ring.Slots()
    }

    ghost function Dist(): Option<Assignment<Name>>
      requires Ok()
    {
      Distribution(h, rf, count, members, b)
    }

    ghost function Repair(): Repair<Name>
      requires Ok() && Dist().Some?
    {
      Repaired(Lay(), Dist().value, b.rules, b.choices)
    }
  }

  // ----- arithmetic of the limits -----

  /** The lower limit is the greatest load that all members can have, the upper one the least under which all partitions
      have room. */
  lemma LimitsExactly(p: nat, m: nat, u: nat)
    requires m > 0
    ensures m * u <= p <==> u <= Floor(p, m)
    ensures p <= m * u <==> Ceil(p, m) <= u
  {
    var q := p / m;
    assert p == m * q + p % m;
    if u <= q {
      ProductGrows(m, u, q);
    } else {
      ProductGrows(m, q + 1, u);
      assert m * (q + 1) == m * q + m;
    }
  }

  lemma ProductGrows(m: nat, a: nat, b: nat)
    requires a <= b
    ensures m * a <= m * b
  {
  }

  lemma FloorFits(p: nat, m: nat)
    requires m > 0
    ensures Times(m, Floor(p, m)) <= p
  {
    TimesIsProduct(m, Floor(p, m));
  }

  lemma CeilCovers(p: nat, m: nat)
    requires m > 0
    ensures p <= Times(m, Ceil(p, m)) && Floor(p, m) <= Ceil(p, m)
  {
    TimesIsProduct(m, Ceil(p, m));
    assert p == m * (p / m) + p % m;
    assert m * (p / m + 1) == m * (p / m) + m;
  }

  lemma CeilBelow(p: nat, m: nat)
    requires m >= 2 && p >= 2
    ensures Ceil(p, m) < p
  {
    assert p == m * (p / m) + p % m;
    if p / m >= 1 {
      assert m * (p / m) >= 2 * (p / m) by { TimesIsProduct(m, p / m); TimesMonotone(2, m, p / m); }
    }
  }

  lemma SlotsAtMostMembers(c: Case)
    requires c.Ok()
    ensures |c.Slots()| <= |Elements(c.members)| <= |c.members|
  {
    SubsetSize(c.Slots(), Elements(c.members));
    ElementsAtMost(c.members);
  }

  // ----- distribution -----

  /** The assertion "not enough room" trips exactly when the partitions do not fit under the ceiling of
      the average load on the members that kept a slot. */
  lemma RoomExactly(c: Case)
    requires c.Ok()
    ensures c.Dist().Some? <==> c.count <= |c.Slots()| * Ceil(c.count, |c.members|)
  {
    c.Lay().DistributedSucceeds(Starts(c.h, c.b.nodes, c.count));
    TimesIsProduct(|c.Slots()|, Ceil(c.count, |c.members|));
  }

  /** With distinct members that all kept a slot it never trips. */
  lemma NeverOutOfRoom(c: Case)
    requires c.Ok() && Distinct(c.members) && c.Slots() == Elements(c.members)
    ensures c.Dist().Some?
  {
    ElementCount(c.members);
    CeilCovers(c.count, |c.members|);
    TimesIsProduct(|c.members|, Ceil(c.count, |c.members|));
    RoomExactly(c);
  }

  lemma DistPlaced(c: Case)
    requires c.Ok()
    ensures c.Dist().Some? ==> c.Lay().Agrees(c.Dist().value) && c.Dist().value.dist.Keys == Below(c.count)
  {
    if c.Dist().Some? { c.Lay().DistributedAgrees(Starts(c.h, c.b.nodes, c.count), c.Dist().value); }
  }

  /** Every partition is placed exactly once, the two representations agree, and every member's load is
      between floor and ceiling of the average exactly when the floor is zero or all kept a slot. */
  lemma EvenlyPlaced(c: Case)
    requires c.Ok()
    ensures c.Dist().Some? ==> c.Lay().Agrees(c.Dist().value) && c.Dist().value.dist.Keys == Below(c.count)
    ensures c.Dist().Some? ==>
      ((forall n :: n in Elements(c.members) ==>
         Floor(c.count, |c.members|) <= c.Lay().Load(c.Dist().value, n) <= Ceil(c.count, |c.members|))
       <==> (Floor(c.count, |c.members|) == 0 || c.Slots() == Elements(c.members)))
  {
    if c.Dist().Some? {
      var starts := Starts(c.h, c.b.nodes, c.count);
      var a := c.Dist().value;
      DistPlaced(c);
      SlotsAtMostMembers(c);
      FloorFits(c.count, |c.members|);
      c.Lay().Balanced(starts, |c.members|, a);
    }
  }

  /** The ring of a build: a hash once for every virtual node that has it, owned by the greatest name with one. */
  lemma RingOfBuild(c: Case)
    requires c.Ok()
    ensures SortedBy(c.b.names, Less) && multiset(c.b.names) == multiset(c.members)
    ensures SortedBy(c.Lay().ring.nodes, NatLess)
    ensures RingExactly(c.h, c.b.names, c.rf, c.Lay().ring.nodes, c.Lay().ring.owner)
  {
    BuiltRing(c.h, c.b.names, c.rf, c.b.nodes);
  }

  /** Slot `i` is where the walk for a key starts: no node before it reaches the key, and it does, or none does and it
      is the first. */
  ghost predicate StartsAt(nodes: seq<nat>, key: nat, i: nat)
  {
    && i < |nodes| && (forall j :: 0 <= j < i ==> nodes[j] < key)
    && (nodes[i] >= key || (i == 0 && forall j :: 0 <= j < |nodes| ==> nodes[j] < key))
  }

  /** The distribution of a build puts partition after partition at the first slot below the limit, from the slot on
      that its hash leads to. */
  lemma PlacedInTurn(c: Case) returns (starts: seq<nat>, stages: seq<Assignment<Name>>)
    requires c.Ok() && c.Dist().Some?
    ensures |starts| == c.count && c.Lay().InRing(starts)
    ensures forall p :: 0 <= p < c.count ==> StartsAt(c.Lay().ring.nodes, c.h.part(p), starts[p])
    ensures c.Lay().InTurn(stages, starts) && stages[c.count] == c.Dist().value
  {
    starts := Starts(c.h, c.b.nodes, c.count);
    stages := c.Lay().DistributedInTurn(starts, c.Dist().value);
  }

  // ----- affinity -----

  /** The repair of a build applies rule after rule in the order of the partitions, and for each of them offloads the
      picked partitions one after the other. */
  lemma RepairedInOrder(c: Case) returns (stages: seq<Assignment<Name>>)
    requires c.Ok() && c.Dist().Some?
    ensures SortedBy(c.b.rules, RuleLess) && multiset(c.b.rules) == multiset(c.affinities)
    ensures RepairedInTurn(c.Lay(), stages, c.b.rules, c.b.choices, c.Repair().hosts)
    ensures stages[0] == c.Dist().value && stages[|c.b.rules|] == c.Repair().a
  {
    stages := RepairInTurn(c.Lay(), c.Dist().value, c.b.rules, c.b.choices);
  }

  ghost predicate NameExisting(rules: seq<Rule>, count: nat)
  {
    forall j :: 0 <= j < |rules| ==> 0 <= rules[j].partition < count
  }

  /** The rules name existing partitions and are fewer than the members that kept a slot. */
  ghost predicate FewRules(c: Case)
    requires c.Ok()
  {
    |c.affinities| < |c.Slots()| && NameExisting(c.affinities, c.count)
  }

  lemma SameNames(a: seq<Rule>, b: seq<Rule>, count: nat)
    requires multiset(a) == multiset(b) && NameExisting(a, count)
    ensures |a| == |b| && NameExisting(b, count)
  {
    SameElements(a, b);
    forall j | 0 <= j < |b| ensures 0 <= b[j].partition < count { assert b[j] in Elements(a); }
  }

  lemma RulesNamePartitions(c: Case)
    requires c.Ok() && FewRules(c)
    ensures |c.b.rules| == |c.affinities| && NameExisting(c.b.rules, c.count)
  {
    SameNames(c.affinities, c.b.rules, c.count);
  }

  lemma LimitBelowTotal(c: Case)
    requires c.Ok() && |c.Slots()| >= 2
    ensures c.Lay().total == c.count && (c.count >= 2 ==> c.Lay().maxLoad < c.count)
  {
    SlotsAtMostMembers(c);
    if c.count >= 2 { CeilBelow(c.count, |c.members|); }
  }

  lemma FewRulesSatisfiable(c: Case)
    requires c.Ok() && FewRules(c)
    ensures c.Dist().Some? && c.b.rules != [] ==> Satisfiable(c.Lay(), c.Dist().value, c.b.rules)
  {
    if c.Dist().Some? && c.b.rules != [] {
      var l, a, rules := c.Lay(), c.Dist().value, c.b.rules;
      DistPlaced(c);
      RulesNamePartitions(c);
      LimitBelowTotal(c);
      PlacedAll(l, a, c.count, rules);
    }
  }

  lemma PlacedAll<N>(l: Layout<N>, a: Assignment<N>, count: nat, rules: seq<Rule>)
    requires l.Ok() && |rules| < |l.ring.Slots()| && l.total == count && (count >= 2 ==> l.maxLoad < count)
    requires a.dist.Keys == Below(count) && NameExisting(rules, count)
    ensures Satisfiable(l, a, rules)
  {
    assert |a.dist| == |a.dist.Keys| == count;
  }

  /** Whatever the rules, the repair loses and duplicates nothing. */
  lemma RepairConserves(c: Case)
    requires c.Ok()
    ensures c.Dist().Some? ==> c.Lay().Agrees(c.Repair().a) && c.Repair().a.dist.Keys == Below(c.count)
  {
    DistPlaced(c);
    if c.Dist().Some? { RepairKeeps(c.Lay(), c.Dist().value, c.b.rules, c.b.choices, c.Repair()); }
  }

  /** Few rules are met: the member that held a rule's partition when the rule was applied finishes
      within the rule. */
  lemma RulesAreMet(c: Case)
    requires c.Ok() && FewRules(c)
    ensures c.Dist().Some? ==> Met(c.Lay(), c.b.rules, c.Repair())
  {
    DistPlaced(c);
    FewRulesSatisfiable(c);
    if c.Dist().Some? && c.b.rules != [] { RulesMet(c.Lay(), c.Dist().value, c.b.rules, c.b.choices, c.Repair()); }
  }

  /** If the allowances do not shrink along the partition numbers, the promise for all rules holds: the
      final owner of every ruled partition is within the rule. */
  lemma FinalOwnersWithinRules(c: Case, j: nat)
    requires c.Ok() && c.Dist().Some? && FewRules(c) && Widening(c.b.rules) && j < |c.b.rules|
    ensures var p, r := c.b.rules[j].partition, c.Repair();
      && p in r.a.dist && c.Lay().ring.At(r.a.dist[p]) == r.hosts[j]
      && c.Lay().Load(r.a, r.hosts[j]) <= c.b.rules[j].others + 1
      && (c.b.rules[j].others == 0 ==> r.a.parts[r.hosts[j]] == {p})
  {
    RulesAreMet(c);
    RepairConserves(c);
    FewRulesSatisfiable(c);
    DistPlaced(c);
    RuledPartitionsStay(c.Lay(), c.Dist().value, c.b.rules, c.b.choices, c.Repair());
    AtHome(c.Lay(), c.Repair().a, c.b.rules[j].partition, c.Repair().hosts[j]);
    if c.b.rules[j].others == 0 { Alone(c.Lay(), c.b.rules, c.Repair(), j); }
  }

  /** For any few rules: the final owner of a ruled partition is the member that held it when the rule was applied,
      and so within the rule, if and only if no later rule for that member picked the partition. */
  lemma FinalOwnersExactly(c: Case, j: nat)
    requires c.Ok() && c.Dist().Some? && FewRules(c) && j < |c.b.rules|
    ensures var p, r := c.b.rules[j].partition, c.Repair();
      && p in r.a.dist && r.hosts[j] in r.a.parts && c.Lay().Load(r.a, r.hosts[j]) <= c.b.rules[j].others + 1
      && (c.Lay().ring.At(r.a.dist[p]) == r.hosts[j] <==> NotPicked(c.b.rules, c.b.choices, r, j))
  {
    FewRulesSatisfiable(c);
    DistPlaced(c);
    OwnedUnlessPicked(c.Lay(), c.Dist().value, c.b.rules, c.b.choices, c.Repair(), j);
  }

  // ----- independence of input and iteration order -----

  ghost predicate SameInputs(c: Case, d: Case)
  {
    && c.h == d.h && c.rf == d.rf && c.count == d.count
    && multiset(c.members) == multiset(d.members) && multiset(c.affinities) == multiset(d.affinities)
  }

  /** Rules for the same partition are the same. */
  ghost predicate OneRuleEach(rules: seq<Rule>)
  {
    forall i, j :: 0 <= i < j < |rules| && rules[i].partition == rules[j].partition ==> rules[i] == rules[j]
  }

  lemma FirstRuleSame(a: seq<Rule>, b: seq<Rule>)
    requires SortedBy(a, RuleLess) && SortedBy(b, RuleLess)
    requires multiset(a) == multiset(b) && OneRuleEach(a) && a != [] && b != []
    ensures a[0] == b[0]
  {
    assert a[0] in multiset(b) && b[0] in multiset(a);
    var i :| 0 <= i < |a| && a[i] == b[0];
    var j :| 0 <= j < |b| && b[j] == a[0];
    assert i > 0 ==> !RuleLess(a[i], a[0]);
    assert j > 0 ==> !RuleLess(b[j], b[0]);
    assert a[0].partition == a[i].partition;
  }

  lemma RulesTail(a: seq<Rule>)
    requires SortedBy(a, RuleLess) && a != []
    ensures SortedBy(a[1..], RuleLess) && multiset(a[1..]) == multiset(a) - multiset{a[0]}
    ensures OneRuleEach(a) ==> OneRuleEach(a[1..])
  {
    SplitFirst(a);
  }

  lemma {:induction false} RulesUnique(a: seq<Rule>, b: seq<Rule>)
    requires SortedBy(a, RuleLess) && SortedBy(b, RuleLess) && multiset(a) == multiset(b) && OneRuleEach(a)
    ensures a == b
    decreases |a|
  {
    assert |multiset(a)| == |a| && |multiset(b)| == |b|;
    if a != [] {
      FirstRuleSame(a, b);
      RulesTail(a);
      RulesTail(b);
      SplitFirst(a);
      SplitFirst(b);
      RulesUnique(a[1..], b[1..]);
    }
  }

  /** Members in another order give the same ring, limits and distribution. */
  lemma SameRing(c: Case, d: Case)
    requires c.Ok() && d.Ok() && SameInputs(c, d)
    ensures c.Lay() == d.Lay() && c.Dist() == d.Dist()
  {
    StringLessTotal();
    SortedUnique(c.b.names, d.b.names, Less);
    NatLessTotal();
    SortedUnique(c.b.nodes, d.b.nodes, NatLess);
    SameElements(c.members, d.members);
  }

  /** Two builds of the same cluster agree on the owner of every partition, whatever the order of the
      member list, of the rule list and of the map iterations, when there is one rule per partition, or the sorts
      bring the rules into the same order, and every rule allows no others or finds its member within the limit. */
  lemma OwnersIndependentOfOrder(c: Case, d: Case)
    requires c.Ok() && d.Ok() && SameInputs(c, d) && (OneRuleEach(c.b.rules) || d.b.rules == c.b.rules)
    requires c.Dist().Some? ==> Forced(c.Lay(), c.Dist().value, c.b.rules, c.b.choices)
    ensures c.Dist().Some? == d.Dist().Some?
    ensures c.Dist().Some? ==> c.Repair() == d.Repair()
  {
    SameRing(c, d);
    if OneRuleEach(c.b.rules) { RulesUnique(c.b.rules, d.b.rules); }
    if c.Dist().Some? {
      ForcedRepairUnique(c.Lay(), c.Dist().value, c.b.rules, c.b.choices, d.b.choices);
    }
  }

  /** In particular when all rules allow no others. */
  lemma ExclusiveRulesIndependentOfOrder(c: Case, d: Case)
    requires c.Ok() && d.Ok() && SameInputs(c, d)
    requires forall j :: 0 <= j < |c.b.rules| ==> c.b.rules[j].others == 0
    ensures c.Dist().Some? == d.Dist().Some?
    ensures c.Dist().Some? ==> c.Repair() == d.Repair()
  {
    if c.Dist().Some? { NoOthersForced(c.Lay(), c.Dist().value, c.b.rules, c.b.choices); }
    OwnersIndependentOfOrder(c, d);
  }

  // ----- all builds of the same inputs -----

  /** Another build of the same inputs, with the rules in the same order. */
  ghost predicate Twin(c: Case, d: Case)
  {
    d.Ok() && SameInputs(c, d) && d.b.rules == c.b.rules
  }

  /** The final owner of the rule's partition is the member that held it when the rule was applied, and is within the
      rule. */
  ghost predicate StaysWithin(d: Case, j: nat)
    requires d.Ok() && d.Dist().Some? && j < |d.b.rules|
  {
    var p, r := d.b.rules[j].partition, d.Repair();
    && p in r.a.dist && d.Lay().ring.At(r.a.dist[p]) == r.hosts[j]
    && r.hosts[j] in r.a.parts && d.Lay().Load(r.a, r.hosts[j]) <= d.b.rules[j].others + 1
  }

  /** No later rule for another partition finds the member of rule j over its limit. */
  ghost predicate NoLaterOver(d: Case, j: nat)
    requires d.Ok() && d.Dist().Some?
  {
    NoneOver(d.Lay(), d.Dist().value, d.b.rules, d.b.choices, j)
  }

  lemma TwinSame(c: Case, d: Case)
    requires c.Ok() && Twin(c, d) && c.Dist().Some? && FewRules(c)
    ensures d.Lay() == c.Lay() && d.Dist() == c.Dist() && d.Dist().Some? && FewRules(d)
    ensures IsRepair(c.Lay(), c.Dist().value, c.b.rules, d.b.choices)
  {
    SameRing(c, d);
    SameNames(c.affinities, d.affinities, c.count);
  }

  /** In one build the partition stays within its rule exactly when it is still with the rule's host. */
  lemma StaysIsKeeps(c: Case, j: nat)
    requires c.Ok() && c.Dist().Some? && FewRules(c) && j < |c.b.rules|
    ensures StaysWithin(c, j) <==> Keeps(c.Lay(), c.Dist().value, c.b.rules, c.b.choices, j)
  {
    FewRulesSatisfiable(c);
    DistPlaced(c);
    OwnedUnlessPicked(c.Lay(), c.Dist().value, c.b.rules, c.b.choices, c.Repair(), j);
    StaysUnlessPicked(c.Lay(), c.Dist().value, c.b.rules, c.b.choices, c.Repair(), j);
  }

  lemma TwinStays(c: Case, d: Case, j: nat)
    requires c.Ok() && Twin(c, d) && c.Dist().Some? && FewRules(c) && j < |c.b.rules|
    ensures d.Dist().Some? && IsRepair(c.Lay(), c.Dist().value, c.b.rules, d.b.choices)
    ensures StaysWithin(d, j) <==> Keeps(c.Lay(), c.Dist().value, c.b.rules, d.b.choices, j)
    ensures NoLaterOver(d, j) <==> NoneOver(c.Lay(), c.Dist().value, c.b.rules, d.b.choices, j)
  {
    TwinSame(c, d);
    StaysIsKeeps(d, j);
  }

  /** Every choice of a repair is that of some build. */
  lemma BuildWith(c: Case, x: seq<seq<int>>) returns (d: Case)
    requires c.Ok() && c.Dist().Some? && IsRepair(c.Lay(), c.Dist().value, c.b.rules, x)
    ensures Twin(c, d) && d.b.choices == x
  {
    d := c.(b := c.b.(choices := x));
  }

  ghost predicate EveryBuildStays(c: Case, j: nat)
    requires j < |c.b.rules|
  {
    forall d :: Twin(c, d) ==> d.Dist().Some? && StaysWithin(d, j)
  }

  ghost predicate NoBuildOver(c: Case, j: nat)
  {
    forall d :: Twin(c, d) ==> d.Dist().Some? && NoLaterOver(d, j)
  }

  lemma AllStayOrNot(c: Case, j: nat)
    requires c.Ok() && c.Dist().Some? && FewRules(c) && j < |c.b.rules|
    ensures EveryBuildStays(c, j) <==> AlwaysKeeps(c.Lay(), c.Dist().value, c.b.rules, j)
  {
    var l, a, rules := c.Lay(), c.Dist().value, c.b.rules;
    if EveryBuildStays(c, j) {
      forall x | IsRepair(l, a, rules, x) ensures Keeps(l, a, rules, x, j) {
        var d := BuildWith(c, x);
        TwinStays(c, d, j);
      }
    }
    if AlwaysKeeps(l, a, rules, j) {
      forall d | Twin(c, d) ensures d.Dist().Some? && StaysWithin(d, j) { TwinStays(c, d, j); }
    }
  }

  lemma SomeOverOrNot(c: Case, j: nat)
    requires c.Ok() && c.Dist().Some? && FewRules(c) && j < |c.b.rules|
    ensures NoBuildOver(c, j) <==> NeverOver(c.Lay(), c.Dist().value, c.b.rules, j)
  {
    var l, a, rules := c.Lay(), c.Dist().value, c.b.rules;
    if NoBuildOver(c, j) {
      forall x | IsRepair(l, a, rules, x) ensures NoneOver(l, a, rules, x, j) {
        var d := BuildWith(c, x);
        TwinStays(c, d, j);
      }
    }
    if NeverOver(l, a, rules, j) {
      forall d | Twin(c, d) ensures d.Dist().Some? && NoLaterOver(d, j) { TwinStays(c, d, j); }
    }
  }

  /** Over all builds of the same inputs: a ruled partition stays within its rule in every one of them if and only if in
      none of them a later rule for another partition finds its member over the limit. */
  lemma StaysInEveryBuild(c: Case, j: nat)
    requires c.Ok() && c.Dist().Some? && FewRules(c) && j < |c.b.rules|
    ensures EveryBuildStays(c, j) <==> NoBuildOver(c, j)
  {
    FewRulesSatisfiable(c);
    DistPlaced(c);
    StaysInEveryRepair(c.Lay(), c.Dist().value, c.b.rules, j);
    AllStayOrNot(c, j);
    SomeOverOrNot(c, j);
  }
}
