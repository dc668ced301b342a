/** The affinity repair over all iteration orders of the maps: when a ruled partition stays with its host whatever the
    order. */
module RepairOutcomes {
  import opened Common
  import opened Placement
  import opened Affinity

  /** What the first k rules have done. */
  function Before<Name(==)>(l: Layout<Name>, a: Assignment<Name>, rules: seq<Rule>, x: seq<seq<int>>, k: nat)
      : (r: Repair<Name>)
    requires l.Shape(a) && |rules| == |x| && k <= |rules|
    ensures l.Shape(r.a) && |r.hosts| == k
  {
    Repaired(l, a, rules[..k], x[..k])
  }

  lemma BeforeMore<Name>(l: Layout<Name>, a: Assignment<Name>, rules: seq<Rule>, x: seq<seq<int>>, k: nat)
    requires l.Shape(a) && |rules| == |x| && k < |rules|
    ensures Before(l, a, rules, x, k + 1) == ApplyRule(l, Before(l, a, rules, x, k), rules[k], x[k])
  {
    assert rules[..k + 1][..k] == rules[..k] && x[..k + 1][..k] == x[..k];
  }

  lemma BeforeAll<Name>(l: Layout<Name>, a: Assignment<Name>, rules: seq<Rule>, x: seq<seq<int>>)
    requires l.Shape(a) && |rules| == |x|
    ensures Before(l, a, rules, x, |rules|) == Repaired(l, a, rules, x)
  {
    TakeAll(rules);
    TakeAll(x);
  }

  lemma HostsMore<Name>(l: Layout<Name>, a: Assignment<Name>, rules: seq<Rule>, x: seq<seq<int>>, k: nat)
    requires l.Shape(a) && |rules| == |x| && k < |rules|
    ensures Before(l, a, rules, x, k + 1).hosts
      == Before(l, a, rules, x, k).hosts + [Host(l, Before(l, a, rules, x, k).a, rules[k])]
  {
    BeforeMore(l, a, rules, x, k);
  }

  /** The hosts of the first rules do not change. */
  lemma {:induction false} HostsKept<Name>(l: Layout<Name>, a: Assignment<Name>, rules: seq<Rule>, x: seq<seq<int>>,
      k: nat, m: nat)
    requires l.Shape(a) && |rules| == |x| && k <= m <= |rules|
    ensures Before(l, a, rules, x, m).hosts[..k] == Before(l, a, rules, x, k).hosts
    decreases m - k
  {
    if k < m {
      var n := m - 1;
      HostsKept(l, a, rules, x, k, n);
      HostsMore(l, a, rules, x, n);
      TakeMore(Before(l, a, rules, x, n).hosts, Host(l, Before(l, a, rules, x, n).a, rules[n]), k);
    } else {
      TakeAll(Before(l, a, rules, x, k).hosts);
    }
  }

  lemma HostsOfAll<Name>(l: Layout<Name>, a: Assignment<Name>, rules: seq<Rule>, x: seq<seq<int>>, k: nat)
    requires l.Shape(a) && |rules| == |x| && k <= |rules|
    ensures Repaired(l, a, rules, x).hosts[..k] == Before(l, a, rules, x, k).hosts
  {
    HostsKept(l, a, rules, x, k, |rules|);
    BeforeAll(l, a, rules, x);
  }

  lemma HostAt<Name>(l: Layout<Name>, a: Assignment<Name>, rules: seq<Rule>, x: seq<seq<int>>, k: nat)
    requires l.Shape(a) && |rules| == |x| && k < |rules|
    ensures Repaired(l, a, rules, x).hosts[k] == Host(l, Before(l, a, rules, x, k).a, rules[k])
  {
    HostsMore(l, a, rules, x, k);
    HostsOfAll(l, a, rules, x, k + 1);
    assert Repaired(l, a, rules, x).hosts[k] == Before(l, a, rules, x, k + 1).hosts[k];
  }

  /** Every choice of a repair is one that its rule could make. */
  lemma {:induction false} ChoiceAt<Name>(l: Layout<Name>, a: Assignment<Name>, rules: seq<Rule>, x: seq<seq<int>>,
      k: nat)
    requires l.Shape(a) && IsRepair(l, a, rules, x) && k < |rules|
    ensures IsRepair(l, a, rules[..k], x[..k]) && Choice(l, Before(l, a, rules, x, k).a, rules[k], x[k])
    decreases |rules|
  {
    var n := |rules| - 1;
    if k < n {
      var early, y := rules[..n], x[..n];
      ChoiceAt(l, a, early, y, k);
      TakeTwice(rules, n, k);
      TakeTwice(x, n, k);
      assert early[k] == rules[k] && y[k] == x[k];
    }
  }

  /** There is always a choice. */
  lemma SomeChoice<Name>(l: Layout<Name>, a: Assignment<Name>, rule: Rule) returns (ids: seq<int>)
    requires l.Shape(a)
    ensures Choice(l, a, rule, ids)
  {
    if Overloaded(l, a, rule) {
      var leavers := Leavers(l, a, rule);
      assert |leavers| >= |a.parts[Host(l, a, rule)]| - 1;
      var t := SubsetOfSize(leavers, |leavers| - rule.others);
      ids := ListingChoice(l, a, rule, t);
    } else {
      ids := [];
    }
  }

  /** A repair of the first rules can be continued. */
  lemma {:induction false} Continued<Name>(l: Layout<Name>, a: Assignment<Name>, rules: seq<Rule>, m: nat,
      x: seq<seq<int>>)
      returns (y: seq<seq<int>>)
    requires l.Shape(a) && m <= |rules| && IsRepair(l, a, rules[..m], x)
    ensures IsRepair(l, a, rules, y) && |y| == |rules| && y[..m] == x
    decreases |rules| - m
  {
    if m == |rules| {
      TakeAll(rules);
      TakeAll(x);
      y := x;
    } else {
      var ids := SomeChoice(l, Repaired(l, a, rules[..m], x).a, rules[m]);
      OneMoreRule(l, a, rules, m, x, ids);
      y := Continued(l, a, rules, m + 1, x + [ids]);
      TakeTwice(y, m + 1, m);
      TakeMore(x, ids, m);
      TakeAll(x);
    }
  }

  lemma OneMoreRule<Name>(l: Layout<Name>, a: Assignment<Name>, rules: seq<Rule>, m: nat, x: seq<seq<int>>,
      ids: seq<int>)
    requires l.Shape(a) && m < |rules| && IsRepair(l, a, rules[..m], x)
    requires Choice(l, Repaired(l, a, rules[..m], x).a, rules[m], ids)
    ensures IsRepair(l, a, rules[..m + 1], x + [ids])
  {
    var more, y := rules[..m + 1], x + [ids];
    assert more[..m] == rules[..m] && y[..m] == x;
  }

  /** Rule k is about another partition on the host of rule j, and finds that host over its limit. */
  ghost predicate FindsOver<Name>(l: Layout<Name>, a: Assignment<Name>, rules: seq<Rule>, x: seq<seq<int>>, j: nat,
      k: nat)
    requires l.Shape(a) && |rules| == |x| && j < k < |rules|
  {
    var prev := Before(l, a, rules, x, k);
    && rules[k].partition != rules[j].partition
    && Host(l, prev.a, rules[k]) == prev.hosts[j] && Overloaded(l, prev.a, rules[k])
  }

  ghost predicate NoneOver<Name>(l: Layout<Name>, a: Assignment<Name>, rules: seq<Rule>, x: seq<seq<int>>, j: nat)
    requires l.Shape(a) && |rules| == |x|
  {
    forall k :: j < k < |rules| ==> !FindsOver(l, a, rules, x, j, k)
  }

  /** The partition of rule j ends with the rule's host. */
  ghost predicate Keeps<Name>(l: Layout<Name>, a: Assignment<Name>, rules: seq<Rule>, x: seq<seq<int>>, j: nat)
    requires l.Shape(a) && |rules| == |x| && j < |rules|
  {
    var r := Repaired(l, a, rules, x);
    r.hosts[j] in r.a.parts && rules[j].partition in r.a.parts[r.hosts[j]]
  }

  /** A rule that finds the host of rule j within its limit, or is about the same partition, does not pick it. */
  lemma NotPickedAt<Name>(l: Layout<Name>, a: Assignment<Name>, rules: seq<Rule>, x: seq<seq<int>>, j: nat, k: nat)
    requires l.Shape(a) && IsRepair(l, a, rules, x) && j < k < |rules| && !FindsOver(l, a, rules, x, j, k)
    ensures var r := Repaired(l, a, rules, x); r.hosts[k] == r.hosts[j] ==> rules[j].partition !in x[k]
  {
    ChoiceAt(l, a, rules, x, k);
    HostAt(l, a, rules, x, k);
    HostsOfAll(l, a, rules, x, k);
    var prev, r := Before(l, a, rules, x, k), Repaired(l, a, rules, x);
    assert r.hosts[j] == r.hosts[..k][j] == prev.hosts[j];
  }

  lemma KeepsIfNoneOver<Name>(l: Layout<Name>, a: Assignment<Name>, rules: seq<Rule>, x: seq<seq<int>>, j: nat)
    requires l.Agrees(a) && Satisfiable(l, a, rules) && j < |rules|
    requires IsRepair(l, a, rules, x) && NoneOver(l, a, rules, x, j)
    ensures Keeps(l, a, rules, x, j)
  {
    var r := Repaired(l, a, rules, x);
    StaysUnlessPicked(l, a, rules, x, r, j);
    forall k | j < k < |rules| && r.hosts[k] == r.hosts[j] ensures rules[j].partition !in x[k] {
      NotPickedAt(l, a, rules, x, j, k);
    }
  }

  /** While it has not been picked the partition is with the host. */
  lemma StillThere<Name>(l: Layout<Name>, a: Assignment<Name>, rules: seq<Rule>, x: seq<seq<int>>, j: nat, k: nat)
    requires l.Agrees(a) && Satisfiable(l, a, rules) && j < k < |rules|
    requires IsRepair(l, a, rules, x) && Keeps(l, a, rules, x, j)
    ensures var prev := Before(l, a, rules, x, k);
      l.Agrees(prev.a) && prev.hosts[j] in prev.a.parts && rules[j].partition in prev.a.parts[prev.hosts[j]]
  {
    var r, prev := Repaired(l, a, rules, x), Before(l, a, rules, x, k);
    ChoiceAt(l, a, rules, x, k);
    HostsOfAll(l, a, rules, x, k);
    StaysUnlessPicked(l, a, rules, x, r, j);
    PrefixNotPicked(rules, x, r, prev, j, k);
    PrefixStays(l, a, rules, x, prev, j, k);
  }

  lemma PrefixStays<Name>(l: Layout<Name>, a: Assignment<Name>, rules: seq<Rule>, x: seq<seq<int>>, prev: Repair<Name>,
      j: nat, k: nat)
    requires l.Agrees(a) && Satisfiable(l, a, rules) && |rules| == |x|
    requires j < k < |rules| && IsRepair(l, a, rules[..k], x[..k])
    requires prev == Before(l, a, rules, x, k) && NotPicked(rules[..k], x[..k], prev, j)
    ensures l.Agrees(prev.a) && prev.hosts[j] in prev.a.parts && rules[j].partition in prev.a.parts[prev.hosts[j]]
  {
    var some := rules[..k];
    assert some[j] == rules[j];
    NotPickedStays(l, a, some, x[..k], prev, j);
  }

  lemma NotPickedStays<Name>(l: Layout<Name>, a: Assignment<Name>, rules: seq<Rule>, x: seq<seq<int>>, r: Repair<Name>,
      j: nat)
    requires l.Agrees(a) && Satisfiable(l, a, rules) && j < |rules| && IsRepair(l, a, rules, x)
    requires r == Repaired(l, a, rules, x) && NotPicked(rules, x, r, j)
    ensures l.Agrees(r.a) && r.hosts[j] in r.a.parts && rules[j].partition in r.a.parts[r.hosts[j]]
  {
    RepairKeeps(l, a, rules, x, r);
    StaysUnlessPicked(l, a, rules, x, r, j);
  }

  lemma PrefixNotPicked<Name>(rules: seq<Rule>, x: seq<seq<int>>, r: Repair<Name>, prev: Repair<Name>, j: nat, k: nat)
    requires |rules| == |x| == |r.hosts| && j < k <= |rules| && prev.hosts == r.hosts[..k] && NotPicked(rules, x, r, j)
    ensures NotPicked(rules[..k], x[..k], prev, j)
  {
    forall i | j < i < k && prev.hosts[i] == prev.hosts[j] ensures rules[..k][j].partition !in x[..k][i] {
      assert r.hosts[i] == prev.hosts[i] && r.hosts[j] == prev.hosts[j];
    }
  }

  /** A rule that finds the host over its limit can pick any other partition there. */
  lemma PicksIt<Name>(l: Layout<Name>, a: Assignment<Name>, rule: Rule, p: int) returns (ids: seq<int>)
    requires l.Agrees(a) && rule.partition in a.dist && Overloaded(l, a, rule)
    requires p in a.parts[Host(l, a, rule)] && p != rule.partition
    ensures Choice(l, a, rule, ids) && p in ids
  {
    Placed(l, a, rule);
    var t := SubsetWith(Leavers(l, a, rule), |Leavers(l, a, rule)| - rule.others, p);
    ids := ListingChoice(l, a, rule, t);
    assert p in Elements(ids);
  }

  /** If the partition stays although a rule finds the host over its limit, another order moves it away. */
  lemma AnotherOrder<Name>(l: Layout<Name>, a: Assignment<Name>, rules: seq<Rule>, x: seq<seq<int>>, j: nat, k: nat)
      returns (y: seq<seq<int>>)
    requires l.Agrees(a) && Satisfiable(l, a, rules) && j < k < |rules|
    requires IsRepair(l, a, rules, x) && Keeps(l, a, rules, x, j)
    requires FindsOver(l, a, rules, x, j, k)
    ensures IsRepair(l, a, rules, y) && !Keeps(l, a, rules, y, j)
  {
    var prev := Before(l, a, rules, x, k);
    StillThere(l, a, rules, x, j, k);
    ChoiceAt(l, a, rules, x, k);
    RepairKeeps(l, a, rules[..k], x[..k], prev);
    var ids := PicksIt(l, prev.a, rules[k], rules[j].partition);
    y := ContinuedWith(l, a, rules, k, x[..k], ids);
    MovedAway(l, a, rules, y, j, k);
  }

  lemma ContinuedWith<Name>(l: Layout<Name>, a: Assignment<Name>, rules: seq<Rule>, k: nat, x: seq<seq<int>>,
      ids: seq<int>)
      returns (y: seq<seq<int>>)
    requires l.Shape(a) && k < |rules| && IsRepair(l, a, rules[..k], x)
    requires Choice(l, Repaired(l, a, rules[..k], x).a, rules[k], ids)
    ensures IsRepair(l, a, rules, y) && |y| == |rules| && y[..k] == x && y[k] == ids
  {
    OneMoreRule(l, a, rules, k, x, ids);
    y := Continued(l, a, rules, k + 1, x + [ids]);
    TakeTwice(y, k + 1, k);
    TakeMore(x, ids, k);
    TakeAll(x);
    assert y[k] == y[..k + 1][k];
  }

  lemma MovedAway<Name>(l: Layout<Name>, a: Assignment<Name>, rules: seq<Rule>, y: seq<seq<int>>, j: nat, k: nat)
    requires l.Agrees(a) && Satisfiable(l, a, rules) && j < k < |rules| && IsRepair(l, a, rules, y)
    requires var prev := Before(l, a, rules, y, k); Host(l, prev.a, rules[k]) == prev.hosts[j]
    requires rules[j].partition in y[k]
    ensures !Keeps(l, a, rules, y, j)
  {
    var r, prev := Repaired(l, a, rules, y), Before(l, a, rules, y, k);
    HostAt(l, a, rules, y, k);
    HostsOfAll(l, a, rules, y, k);
    assert r.hosts[j] == r.hosts[..k][j] == prev.hosts[j];
    StaysUnlessPicked(l, a, rules, y, r, j);
  }

  ghost predicate AlwaysKeeps<Name>(l: Layout<Name>, a: Assignment<Name>, rules: seq<Rule>, j: nat)
    requires l.Shape(a) && j < |rules|
  {
    forall x :: IsRepair(l, a, rules, x) ==> Keeps(l, a, rules, x, j)
  }

  ghost predicate NeverOver<Name>(l: Layout<Name>, a: Assignment<Name>, rules: seq<Rule>, j: nat)
    requires l.Shape(a)
  {
    forall x :: IsRepair(l, a, rules, x) ==> NoneOver(l, a, rules, x, j)
  }

  /** A ruled partition stays with its host whatever the iteration orders of the maps if and only if under none of
      them a later rule for another partition of that host finds it over the limit. */
  lemma StaysInEveryRepair<Name>(l: Layout<Name>, a: Assignment<Name>, rules: seq<Rule>, j: nat)
    requires l.Agrees(a) && Satisfiable(l, a, rules) && j < |rules|
    ensures AlwaysKeeps(l, a, rules, j) <==> NeverOver(l, a, rules, j)
  {
    if NeverOver(l, a, rules, j) {
      forall x | IsRepair(l, a, rules, x) ensures Keeps(l, a, rules, x, j) { KeepsIfNoneOver(l, a, rules, x, j); }
    } else {
      var x :| IsRepair(l, a, rules, x) && !NoneOver(l, a, rules, x, j);
      if Keeps(l, a, rules, x, j) {
        var k :| j < k < |rules| && FindsOver(l, a, rules, x, j, k);
        var y := AnotherOrder(l, a, rules, x, j, k);
      }
    }
  }
}
