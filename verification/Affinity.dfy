/** The repair pass of consistent_uniform.go: every affinity rule moves partitions off the member
    that holds the ruled partition, until no more than the allowed number of others is left there.

    Which of the others stay is decided by the iteration order of a Go map. That order is the
    `choices` argument below: for every rule, the ascending list of partitions picked to leave. */
module Affinity {
  import opened Common
  import opened Placement

  // ----- moving a list of partitions -----

  /** offloadMember's loop: offload the listed partitions one after the other. */
  function Evict<Name(==)>(l: Layout<Name>, a: Assignment<Name>, ids: seq<int>, src: Name,
      black: set<Name>): (b: Assignment<Name>)
    requires l.Shape(a) && src in l.names && src in black
    ensures l.Shape(b)
  {
    if ids == [] then a
    else
      var k := |ids| - 1;
      var prev := Evict(l, a, ids[..k], src, black);
      l.Offload(prev, ids[k], src, black)
  }

  /** The assignments of an eviction, each from the one before by the offload of the next partition of the list. */
  ghost predicate EvictedInTurn<Name>(l: Layout<Name>, stages: seq<Assignment<Name>>, ids: seq<int>, src: Name,
      black: set<Name>)
    requires src in l.names
  {
    && |stages| == |ids| + 1 && (forall k :: 0 <= k <= |ids| ==> l.Shape(stages[k]))
    && forall k :: 0 <= k < |ids| ==> l.Offloaded(stages[k], ids[k], src, black, stages[k + 1])
  }

  /** offloadMember offloads partition after partition. */
  lemma {:induction false} EvictInTurn<Name>(l: Layout<Name>, a: Assignment<Name>, ids: seq<int>, src: Name,
      black: set<Name>) returns (stages: seq<Assignment<Name>>)
    requires l.Shape(a) && src in l.names && src in black
    ensures EvictedInTurn(l, stages, ids, src, black)
    ensures stages[0] == a && stages[|ids|] == Evict(l, a, ids, src, black)
    decreases |ids|
  {
    if ids == [] {
      stages := [a];
    } else {
      var k := |ids| - 1;
      var early := ids[..k];
      var before := EvictInTurn(l, a, early, src, black);
      stages := OffloadMore(l, before, early, src, black, ids[k]);
      SplitLast(ids);
    }
  }

  lemma OffloadMore<Name>(l: Layout<Name>, before: seq<Assignment<Name>>, ids: seq<int>, src: Name, black: set<Name>,
      p: int) returns (stages: seq<Assignment<Name>>)
    requires src in l.names && src in black && EvictedInTurn(l, before, ids, src, black)
    ensures EvictedInTurn(l, stages, ids + [p], src, black)
    ensures stages[0] == before[0] && stages[|ids| + 1] == l.Offload(before[|ids|], p, src, black)
  {
    var last := before[|ids|];
    l.OffloadExactly(last, p, src, black);
    stages := before + [l.Offload(last, p, src, black)];
    var more := ids + [p];
    forall j | 0 <= j < |more| ensures l.Offloaded(stages[j], more[j], src, black, stages[j + 1]) {
      if j < |ids| { assert l.Offloaded(before[j], ids[j], src, black, before[j + 1]); }
    }
  }

  ghost predicate AllIn(ids: seq<int>, s: set<int>)
  {
    forall i :: 0 <= i < |ids| ==> ids[i] in s
  }

  lemma ButLast(ids: seq<int>, s: set<int>)
    requires ids != [] && Distinct(ids) && AllIn(ids, s)
    ensures var k := |ids| - 1;
      && Distinct(ids[..k]) && AllIn(ids[..k], s)
      && ids[k] in s - Elements(ids[..k]) && Elements(ids) == Elements(ids[..k]) + {ids[k]}
  {
    assert ids == ids[..|ids| - 1] + [ids[|ids| - 1]];
  }

  lemma AtHome<Name>(l: Layout<Name>, a: Assignment<Name>, p: int, src: Name)
    requires l.Agrees(a) && src in l.names && p in a.parts[src]
    ensures p in a.dist && l.ring.At(l.Where(a, p)) == src
  {
    assert a.parts[src] == OwnedBy(l.Owners(a), src);
  }

  /** Conservation over a whole list: nothing is lost, no listed member gains, and only listed
      partitions leave the source. */
  lemma {:induction false} EvictKeeps<Name>(l: Layout<Name>, a: Assignment<Name>, ids: seq<int>, src: Name,
      black: set<Name>, b: Assignment<Name>)
    requires l.Agrees(a) && src in l.names && src in black
    requires Distinct(ids) && AllIn(ids, a.parts[src])
    requires b == Evict(l, a, ids, src, black)
    ensures l.Agrees(b) && b.dist.Keys == a.dist.Keys
    ensures forall n :: n in l.names && n in black && n != src ==> b.parts[n] == a.parts[n]
    ensures a.parts[src] - Elements(ids) <= b.parts[src] <= a.parts[src]
    decreases |ids|
  {
    if ids != [] {
      var k := |ids| - 1;
      var p := ids[k];
      var prev := Evict(l, a, ids[..k], src, black);
      ButLast(ids, a.parts[src]);
      EvictKeeps(l, a, ids[..k], src, black, prev);
      l.OffloadKeeps(prev, p, src, black, b);
    }
  }

  /** While a member off the list owns a slot, and the source keeps a partition, every listed
      partition finds a new member. */
  lemma {:induction false} EvictSucceeds<Name>(l: Layout<Name>, a: Assignment<Name>, ids: seq<int>, src: Name,
      black: set<Name>, b: Assignment<Name>, free: nat)
    requires l.Agrees(a) && src in l.names && src in black
    requires Distinct(ids) && AllIn(ids, a.parts[src]) && |ids| < |a.parts[src]|
    requires free < l.Size() && l.ring.At(free) !in black
    requires l.maxLoad < l.total == |a.dist|
    requires b == Evict(l, a, ids, src, black)
    ensures b.parts[src] == a.parts[src] - Elements(ids)
    decreases |ids|
  {
    if ids != [] {
      var k := |ids| - 1;
      var p := ids[k];
      var prev := Evict(l, a, ids[..k], src, black);
      ButLast(ids, a.parts[src]);
      EvictKeeps(l, a, ids[..k], src, black, prev);
      EvictSucceeds(l, a, ids[..k], src, black, prev, free);
      SourceKeepsTwo(a.parts[src], ids);
      assert |prev.dist| == |prev.dist.Keys| == |a.dist.Keys| == |a.dist|;
      OffloadSucceeds(l, prev, p, src, black, b, free);
    }
  }

  lemma OffloadSucceeds<Name>(l: Layout<Name>, a: Assignment<Name>, p: int, src: Name, black: set<Name>,
      b: Assignment<Name>, free: nat)
    requires l.Agrees(a) && src in l.names && src in black && p in a.parts[src] && |a.parts[src]| >= 2
    requires free < l.Size() && l.ring.At(free) !in black && l.maxLoad < l.total == |a.dist|
    requires b == l.Offload(a, p, src, black)
    ensures b.parts[src] == a.parts[src] - {p}
  {
    AtHome(l, a, p, src);
    FreeHasRoom(l, a, src, black, free);
    var t := l.Target(a, p, black, l.maxLoad);
    assert t.Some?;
    assert b == l.MoveTo(a, p, src, t.value);
  }

  lemma {:induction false} ElementCount<T>(s: seq<T>)
    requires Distinct(s)
    ensures |Elements(s)| == |s|
    decreases |s|
  {
    if s != [] {
      var k := |s| - 1;
      ElementCount(s[..k]);
      assert Elements(s) == Elements(s[..k]) + {s[k]};
      assert s[k] !in Elements(s[..k]);
    }
  }

  lemma SourceKeepsTwo(parts: set<int>, ids: seq<int>)
    requires ids != [] && Distinct(ids) && AllIn(ids, parts) && |ids| < |parts|
    ensures |parts - Elements(ids[..|ids| - 1])| >= 2
  {
    var early := ids[..|ids| - 1];
    ElementCount(early);
    assert Elements(early) <= parts;
    assert |parts - Elements(early)| == |parts| - |Elements(early)|;
  }

  lemma FreeHasRoom<Name>(l: Layout<Name>, a: Assignment<Name>, src: Name, black: set<Name>, free: nat)
    requires l.Agrees(a) && src in l.names && src in black && |a.parts[src]| >= 2
    requires free < l.Size() && l.ring.At(free) !in black && l.total == |a.dist|
    ensures l.Load(a, l.ring.At(free)) + 1 < l.total
  {
    l.OwnersInSlots(a);
    PairAtMost(l.Owners(a), src, l.ring.At(free));
  }

  // ----- one rule -----

  function Host<Name(==)>(l: Layout<Name>, a: Assignment<Name>, rule: Rule): (n: Name)
    requires l.Shape(a)
    ensures n in l.ring.Slots() && n in l.names
  {
    l.ring.At(l.Where(a, rule.partition))
  }

  /** The partitions that could leave the host: all of its partitions but the ruled one. */
  function Leavers<Name(==)>(l: Layout<Name>, a: Assignment<Name>, rule: Rule): set<int>
    requires l.Shape(a)
  {
    a.parts[Host(l, a, rule)] - {rule.partition}
  }

  predicate Overloaded<Name(==)>(l: Layout<Name>, a: Assignment<Name>, rule: Rule)
    requires l.Shape(a)
  {
    l.Load(a, Host(l, a, rule)) > rule.others + 1
  }

  /** `ids` is a list the map iteration of offloadMember can produce. */
  ghost predicate Choice<Name>(l: Layout<Name>, a: Assignment<Name>, rule: Rule, ids: seq<int>)
    requires l.Shape(a)
  {
    && Ascending(ids) && AllIn(ids, Leavers(l, a, rule))
    && |ids| == if Overloaded(l, a, rule) then |Leavers(l, a, rule)| - rule.others else 0
  }

  function Applied<Name(==)>(l: Layout<Name>, a: Assignment<Name>, black: set<Name>, rule: Rule,
      ids: seq<int>): (b: Assignment<Name>)
    requires l.Shape(a)
    ensures l.Shape(b)
  {
    var host := Host(l, a, rule);
    Evict(l, a, ids, host, black + {host})
  }

  /** What any rule keeps, satisfiable or not. */
  lemma RuleKeeps<Name>(l: Layout<Name>, a: Assignment<Name>, black: set<Name>, rule: Rule, ids: seq<int>,
      b: Assignment<Name>)
    requires l.Agrees(a) && Choice(l, a, rule, ids) && b == Applied(l, a, black, rule, ids)
    ensures l.Agrees(b) && b.dist.Keys == a.dist.Keys
    ensures forall n :: n in l.names && n in black ==> b.parts[n] <= a.parts[n]
    ensures forall n :: n in l.names && n in black && n != Host(l, a, rule) ==> b.parts[n] == a.parts[n]
    ensures rule.partition in a.parts[Host(l, a, rule)] ==> rule.partition in b.parts[Host(l, a, rule)]
  {
    var host := Host(l, a, rule);
    EvictKeeps(l, a, ids, host, black + {host}, b);
  }

  lemma Placed<Name>(l: Layout<Name>, a: Assignment<Name>, rule: Rule)
    requires l.Agrees(a) && rule.partition in a.dist
    ensures rule.partition in a.parts[Host(l, a, rule)]
    ensures |Leavers(l, a, rule)| == l.Load(a, Host(l, a, rule)) - 1
  {
    assert rule.partition in OwnedBy(l.Owners(a), Host(l, a, rule));
  }

  lemma {:induction false} FreeSlot<Name>(l: Layout<Name>, black: set<Name>) returns (free: nat)
    requires l.Ok() && black <= l.ring.Slots() && |black| < |l.ring.Slots()|
    ensures free < l.Size() && l.ring.At(free) !in black
  {
    if l.ring.Slots() <= black { SubsetSize(l.ring.Slots(), black); }
    var n :| n in l.ring.Slots() && n !in black;
    free :| 0 <= free < l.Size() && l.ring.At(free) == n;
  }

  /** A rule whose list of members still leaves one out is met: its host ends with the ruled partition and exactly the
      partitions that were not picked, and with as many as the rule allows if it had them. */
  lemma RuleMet<Name>(l: Layout<Name>, a: Assignment<Name>, black: set<Name>, rule: Rule, ids: seq<int>,
      b: Assignment<Name>)
    requires l.Agrees(a) && Choice(l, a, rule, ids) && b == Applied(l, a, black, rule, ids)
    requires rule.partition in a.dist && |a.dist| == l.total && (l.total >= 2 ==> l.maxLoad < l.total)
    requires black <= l.ring.Slots() && |black + {Host(l, a, rule)}| < |l.ring.Slots()|
    ensures l.Load(b, Host(l, a, rule)) <= rule.others + 1
    ensures l.Load(a, Host(l, a, rule)) > rule.others ==> l.Load(b, Host(l, a, rule)) == rule.others + 1
    ensures b.parts[Host(l, a, rule)] == a.parts[Host(l, a, rule)] - Elements(ids)
  {
    var host := Host(l, a, rule);
    Placed(l, a, rule);
    if Overloaded(l, a, rule) {
      l.OwnersInSlots(a);
      SplitOff(l.Owners(a), host);
      assert l.total >= 2;
      var free := FreeSlot(l, black + {host});
      assert Distinct(ids) && AllIn(ids, a.parts[host]);
      EvictSucceeds(l, a, ids, host, black + {host}, b, free);
      ElementCount(ids);
      assert |a.parts[host] - Elements(ids)| == |a.parts[host]| - |Elements(ids)|;
    } else {
      assert b == a && Elements(ids) == {};
    }
  }

  // ----- all rules -----

  /** The assignment after some rules, and for each of them the member that held its partition when
      it was applied; those members are the code's `offloadedMems`. */
  datatype Repair<Name(==)> = Repair(a: Assignment<Name>, hosts: seq<Name>)

  function ApplyRule<Name(==)>(l: Layout<Name>, r: Repair<Name>, rule: Rule, ids: seq<int>): (t: Repair<Name>)
    requires l.Shape(r.a)
    ensures l.Shape(t.a) && t.hosts == r.hosts + [Host(l, r.a, rule)]
  {
    Repair(Applied(l, r.a, Elements(r.hosts), rule, ids), r.hosts + [Host(l, r.a, rule)])
  }

  /** ensureAffinity: the rules in order. */
  function Repaired<Name(==)>(l: Layout<Name>, a: Assignment<Name>, rules: seq<Rule>,
      choices: seq<seq<int>>): (r: Repair<Name>)
    requires l.Shape(a) && |rules| == |choices|
    ensures l.Shape(r.a) && |r.hosts| == |rules|
  {
    if rules == [] then Repair(a, [])
    else
      var k := |rules| - 1;
      ApplyRule(l, Repaired(l, a, rules[..k], choices[..k]), rules[k], choices[k])
  }

  /** The choices are ones the code can make, rule after rule. */
  ghost predicate IsRepair<Name>(l: Layout<Name>, a: Assignment<Name>, rules: seq<Rule>, choices: seq<seq<int>>)
    requires l.Shape(a)
    decreases |rules|
  {
    && |rules| == |choices|
    && (rules != [] ==>
          var k := |rules| - 1;
          && IsRepair(l, a, rules[..k], choices[..k])
          && Choice(l, Repaired(l, a, rules[..k], choices[..k]).a, rules[k], choices[k]))
  }

  /** From `a` to `b` one rule is applied: the picked partitions leave its host, one after the other, for members that
      are not listed and not the host. */
  ghost predicate RuleTurn<Name(!new)>(l: Layout<Name>, a: Assignment<Name>, host: Name, listed: set<Name>, rule: Rule,
      ids: seq<int>, b: Assignment<Name>)
    requires l.Shape(a)
  {
    && host == l.ring.At(l.Where(a, rule.partition)) && host in l.names && Choice(l, a, rule, ids)
    && exists stages ::
         EvictedInTurn(l, stages, ids, host, listed + {host}) && stages[0] == a && stages[|ids|] == b
  }

  /** The assignments of a repair, each from the one before by the next rule; the listed members are the hosts of the
      rules before. */
  ghost predicate RepairedInTurn<Name(!new)>(l: Layout<Name>, stages: seq<Assignment<Name>>, rules: seq<Rule>,
      choices: seq<seq<int>>, hosts: seq<Name>)
  {
    && |stages| == |rules| + 1 && |rules| == |choices| == |hosts|
    && (forall k :: 0 <= k <= |rules| ==> l.Shape(stages[k]))
    && forall k :: 0 <= k < |rules| ==>
         RuleTurn(l, stages[k], hosts[k], Elements(hosts[..k]), rules[k], choices[k], stages[k + 1])
  }

  /** ensureAffinity applies rule after rule. */
  lemma {:induction false} RepairInTurn<Name(!new)>(l: Layout<Name>, a: Assignment<Name>, rules: seq<Rule>,
      choices: seq<seq<int>>) returns (stages: seq<Assignment<Name>>)
    requires l.Shape(a) && IsRepair(l, a, rules, choices)
    ensures var r := Repaired(l, a, rules, choices);
      RepairedInTurn(l, stages, rules, choices, r.hosts) && stages[0] == a && stages[|rules|] == r.a
    decreases |rules|
  {
    if rules == [] {
      stages := [a];
    } else {
      var k := |rules| - 1;
      var early, some := rules[..k], choices[..k];
      var prev := Repaired(l, a, early, some);
      LastRule(l, a, rules, choices, k, prev);
      var before := RepairInTurn(l, a, early, some);
      stages := RuleMore(l, before, early, some, prev, rules[k], choices[k]);
      SplitLast(rules);
      SplitLast(choices);
    }
  }

  lemma RuleMore<Name(!new)>(l: Layout<Name>, before: seq<Assignment<Name>>, rules: seq<Rule>, choices: seq<seq<int>>,
      prev: Repair<Name>, rule: Rule, ids: seq<int>) returns (stages: seq<Assignment<Name>>)
    requires RepairedInTurn(l, before, rules, choices, prev.hosts) && before[|rules|] == prev.a
    requires l.Shape(prev.a) && Choice(l, prev.a, rule, ids)
    ensures var r := ApplyRule(l, prev, rule, ids);
      && RepairedInTurn(l, stages, rules + [rule], choices + [ids], r.hosts)
      && stages[0] == before[0] && stages[|rules| + 1] == r.a
  {
    var r := ApplyRule(l, prev, rule, ids);
    LastTurn(l, prev.a, Elements(prev.hosts), rule, ids);
    stages := TurnsMore(l, before, rules, choices, prev.hosts, Host(l, prev.a, rule), rule, ids, r.a);
  }

  lemma LastTurn<Name(!new)>(l: Layout<Name>, a: Assignment<Name>, listed: set<Name>, rule: Rule, ids: seq<int>)
    requires l.Shape(a) && Choice(l, a, rule, ids)
    ensures RuleTurn(l, a, Host(l, a, rule), listed, rule, ids, Applied(l, a, listed, rule, ids))
  {
    var host := Host(l, a, rule);
    var stages := EvictInTurn(l, a, ids, host, listed + {host});
  }

  lemma TurnsMore<Name(!new)>(l: Layout<Name>, before: seq<Assignment<Name>>, rules: seq<Rule>, choices: seq<seq<int>>,
      hosts: seq<Name>, host: Name, rule: Rule, ids: seq<int>, b: Assignment<Name>)
      returns (stages: seq<Assignment<Name>>)
    requires RepairedInTurn(l, before, rules, choices, hosts) && l.Shape(b)
    requires RuleTurn(l, before[|rules|], host, Elements(hosts), rule, ids, b)
    ensures RepairedInTurn(l, stages, rules + [rule], choices + [ids], hosts + [host])
    ensures stages[0] == before[0] && stages[|rules| + 1] == b
  {
    stages := before + [b];
    var more, picks, all := rules + [rule], choices + [ids], hosts + [host];
    forall j | 0 <= j < |more|
      ensures RuleTurn(l, stages[j], all[j], Elements(all[..j]), more[j], picks[j], stages[j + 1]) {
      if j < |rules| {
        assert RuleTurn(l, before[j], hosts[j], Elements(hosts[..j]), rules[j], choices[j], before[j + 1]);
        assert all[..j] == hosts[..j];
      } else {
        assert all[..j] == hosts;
      }
    }
  }

  /** The last rule of a repair, and what it is applied to. */
  lemma LastRule<Name>(l: Layout<Name>, a: Assignment<Name>, rules: seq<Rule>, choices: seq<seq<int>>, k: nat,
      prev: Repair<Name>)
    requires l.Shape(a) && IsRepair(l, a, rules, choices) && k + 1 == |rules| == |choices|
    requires prev == Repaired(l, a, rules[..k], choices[..k])
    ensures IsRepair(l, a, rules[..k], choices[..k]) && Choice(l, prev.a, rules[k], choices[k])
    ensures Repaired(l, a, rules, choices) == ApplyRule(l, prev, rules[k], choices[k])
  {
  }

  ghost predicate HostsOwnSlots<Name>(l: Layout<Name>, r: Repair<Name>)
    requires l.Ok()
  {
    forall j :: 0 <= j < |r.hosts| ==> r.hosts[j] in l.ring.Slots()
  }

  /** Every host is within what its rule allows. */
  ghost predicate Met<Name>(l: Layout<Name>, rules: seq<Rule>, r: Repair<Name>)
  {
    && |r.hosts| == |rules|
    && forall j :: 0 <= j < |rules| ==> r.hosts[j] in r.a.parts && l.Load(r.a, r.hosts[j]) <= rules[j].others + 1
  }

  /** Every ruled partition is still with its host. */
  ghost predicate Stayed<Name>(rules: seq<Rule>, r: Repair<Name>)
  {
    && |r.hosts| == |rules|
    && forall j :: 0 <= j < |rules| ==> r.hosts[j] in r.a.parts && rules[j].partition in r.a.parts[r.hosts[j]]
  }

  /** There is room for the rules: fewer of them than members with a slot, all about placed partitions. */
  ghost predicate Satisfiable<Name>(l: Layout<Name>, a: Assignment<Name>, rules: seq<Rule>)
  {
    && l.Ok() && |rules| < |l.ring.Slots()|
    && |a.dist| == l.total && (l.total >= 2 ==> l.maxLoad < l.total)
    && forall j :: 0 <= j < |rules| ==> rules[j].partition in a.dist
  }

  lemma {:induction false} ElementsAtMost<T>(s: seq<T>)
    ensures |Elements(s)| <= |s|
    decreases |s|
  {
    if s != [] {
      var k := |s| - 1;
      ElementsAtMost(s[..k]);
      assert Elements(s) == Elements(s[..k]) + {s[k]};
    }
  }

  /** Conservation for any rules, even ones that cannot be met. */
  lemma {:induction false} RepairKeeps<Name>(l: Layout<Name>, a: Assignment<Name>, rules: seq<Rule>,
      choices: seq<seq<int>>, r: Repair<Name>)
    requires l.Agrees(a) && IsRepair(l, a, rules, choices) && r == Repaired(l, a, rules, choices)
    ensures l.Agrees(r.a) && r.a.dist.Keys == a.dist.Keys
    ensures HostsOwnSlots(l, r)
    decreases |rules|
  {
    if rules != [] {
      var k := |rules| - 1;
      var prev := Repaired(l, a, rules[..k], choices[..k]);
      RepairKeeps(l, a, rules[..k], choices[..k], prev);
      RuleKeeps(l, prev.a, Elements(prev.hosts), rules[k], choices[k], r.a);
    }
  }

  lemma MetStep<Name>(l: Layout<Name>, r: Repair<Name>, rules: seq<Rule>, rule: Rule, ids: seq<int>, t: Repair<Name>)
    requires l.Agrees(r.a) && HostsOwnSlots(l, r) && Met(l, rules, r)
    requires Satisfiable(l, r.a, rules + [rule]) && Choice(l, r.a, rule, ids) && t == ApplyRule(l, r, rule, ids)
    ensures Met(l, rules + [rule], t)
  {
    var black := Elements(r.hosts);
    var host := Host(l, r.a, rule);
    assert (rules + [rule])[|rules|] == rule;
    assert Elements(t.hosts) == black + {host};
    ElementsAtMost(t.hosts);
    RuleKeeps(l, r.a, black, rule, ids, t.a);
    RuleMet(l, r.a, black, rule, ids, t.a);
    forall j | 0 <= j < |rules| ensures l.Load(t.a, t.hosts[j]) <= rules[j].others + 1 {
      var h := r.hosts[j];
      SubsetSize(t.a.parts[h], r.a.parts[h]);
    }
  }

  lemma SameCount<Name>(a: Assignment<Name>, b: Assignment<Name>)
    requires a.dist.Keys == b.dist.Keys
    ensures |a.dist| == |b.dist|
  {
    assert |a.dist| == |a.dist.Keys| && |b.dist| == |b.dist.Keys|;
  }

  lemma StillSatisfiable<Name>(l: Layout<Name>, a: Assignment<Name>, rules: seq<Rule>, b: Assignment<Name>)
    requires Satisfiable(l, a, rules) && a.dist.Keys == b.dist.Keys
    ensures Satisfiable(l, b, rules)
  {
    SameCount(a, b);
  }

  /** With fewer rules than members that own a slot, the member that held a rule's partition when
      the rule was applied ends up with no more than the rule allows. */
  lemma {:induction false} RulesMet<Name>(l: Layout<Name>, a: Assignment<Name>, rules: seq<Rule>,
      choices: seq<seq<int>>, r: Repair<Name>)
    requires l.Agrees(a) && IsRepair(l, a, rules, choices) && r == Repaired(l, a, rules, choices)
    requires Satisfiable(l, a, rules)
    ensures Met(l, rules, r)
    decreases |rules|
  {
    if rules != [] {
      var k := |rules| - 1;
      var prev := Repaired(l, a, rules[..k], choices[..k]);
      LastRule(l, a, rules, choices, k, prev);
      RepairKeeps(l, a, rules[..k], choices[..k], prev);
      RulesMet(l, a, rules[..k], choices[..k], prev);
      StillSatisfiable(l, a, rules, prev.a);
      SplitLast(rules);
      MetStep(l, prev, rules[..k], rules[k], choices[k], r);
    }
  }

  lemma StayedStep<Name>(l: Layout<Name>, r: Repair<Name>, rules: seq<Rule>, rule: Rule, ids: seq<int>, t: Repair<Name>)
    requires l.Agrees(r.a) && Met(l, rules, r) && Stayed(rules, r)
    requires rule.partition in r.a.dist && Choice(l, r.a, rule, ids) && t == ApplyRule(l, r, rule, ids)
    requires forall j :: 0 <= j < |rules| ==> rules[j].others <= rule.others
    ensures Stayed(rules + [rule], t)
  {
    var black := Elements(r.hosts);
    RuleKeeps(l, r.a, black, rule, ids, t.a);
    Placed(l, r.a, rule);
    forall j | 0 <= j < |rules| ensures rules[j].partition in t.a.parts[t.hosts[j]] {
      if r.hosts[j] == Host(l, r.a, rule) { assert t.a == r.a; }
    }
  }

  /** If in addition no later rule allows less than an earlier one, no rule undoes another: every
      ruled partition stays with its host, whose load is within the rule. */
  lemma {:induction false} RuledPartitionsStay<Name>(l: Layout<Name>, a: Assignment<Name>, rules: seq<Rule>,
      choices: seq<seq<int>>, r: Repair<Name>)
    requires l.Agrees(a) && IsRepair(l, a, rules, choices) && r == Repaired(l, a, rules, choices)
    requires Satisfiable(l, a, rules)
    requires Widening(rules)
    ensures Stayed(rules, r)
    decreases |rules|
  {
    if rules != [] {
      var k := |rules| - 1;
      var early := rules[..k];
      var prev := Repaired(l, a, early, choices[..k]);
      WideningPrefix(rules);
      RepairKeeps(l, a, early, choices[..k], prev);
      RulesMet(l, a, early, choices[..k], prev);
      RuledPartitionsStay(l, a, early, choices[..k], prev);
      StayedStep(l, prev, early, rules[k], choices[k], r);
    }
  }

  /** No later rule allows less than an earlier one. */
  ghost predicate Widening(rules: seq<Rule>)
  {
    forall i, j :: 0 <= i < j < |rules| ==> rules[i].others <= rules[j].others
  }

  lemma WideningPrefix(rules: seq<Rule>)
    requires Widening(rules) && rules != []
    ensures var k := |rules| - 1;
      && Widening(rules[..k]) && rules == rules[..k] + [rules[k]]
      && forall j :: 0 <= j < k ==> rules[..k][j].others <= rules[k].others
  {}

  /** The rule's partition was not picked to leave by a later rule with the same host. */
  ghost predicate NotPicked<Name>(rules: seq<Rule>, choices: seq<seq<int>>, r: Repair<Name>, j: nat)
    requires |rules| == |choices| == |r.hosts| && j < |rules|
  {
    forall k :: j < k < |rules| && r.hosts[k] == r.hosts[j] ==> rules[j].partition !in choices[k]
  }

  /** The last rule takes from an earlier host what it picks there, and nothing from another one. */
  lemma LastTakes<Name>(l: Layout<Name>, r: Repair<Name>, rules: seq<Rule>, rule: Rule, ids: seq<int>, t: Repair<Name>,
      j: nat)
    requires l.Agrees(r.a) && HostsOwnSlots(l, r) && |r.hosts| == |rules| && j < |rules|
    requires Satisfiable(l, r.a, rules + [rule]) && Choice(l, r.a, rule, ids) && t == ApplyRule(l, r, rule, ids)
    ensures r.hosts[j] in l.names
    ensures t.a.parts[r.hosts[j]]
      == if r.hosts[j] == Host(l, r.a, rule) then r.a.parts[r.hosts[j]] - Elements(ids) else r.a.parts[r.hosts[j]]
  {
    var black := Elements(r.hosts);
    assert (rules + [rule])[|rules|] == rule;
    assert Elements(t.hosts) == black + {Host(l, r.a, rule)};
    ElementsAtMost(t.hosts);
    assert r.hosts[j] in black && r.hosts[j] in l.ring.Slots();
    RuleKeeps(l, r.a, black, rule, ids, t.a);
    RuleMet(l, r.a, black, rule, ids, t.a);
  }

  lemma LastStays<Name>(l: Layout<Name>, r: Repair<Name>, rule: Rule, ids: seq<int>, t: Repair<Name>)
    requires l.Agrees(r.a) && rule.partition in r.a.dist && Choice(l, r.a, rule, ids) && t == ApplyRule(l, r, rule, ids)
    ensures rule.partition in t.a.parts[Host(l, r.a, rule)]
  {
    Placed(l, r.a, rule);
    RuleKeeps(l, r.a, Elements(r.hosts), rule, ids, t.a);
  }

  lemma PickedMore<Name>(rules: seq<Rule>, choices: seq<seq<int>>, prev: Repair<Name>, r: Repair<Name>, k: nat, j: nat)
    requires j < k && k + 1 == |rules| == |choices| == |r.hosts| && |prev.hosts| == k && prev.hosts == r.hosts[..k]
    ensures NotPicked(rules, choices, r, j)
      <==> (NotPicked(rules[..k], choices[..k], prev, j)
            && (r.hosts[k] == r.hosts[j] ==> rules[j].partition !in choices[k]))
  {
    forall i | j < i < k
      ensures prev.hosts[i] == r.hosts[i] && choices[..k][i] == choices[i]
      ensures rules[..k][j] == rules[j] && prev.hosts[j] == r.hosts[j]
    {
    }
    assert prev.hosts[j] == r.hosts[j] && rules[..k][j] == rules[j];
  }

  /** What holds before the last rule. */
  lemma BeforeLast<Name>(l: Layout<Name>, a: Assignment<Name>, rules: seq<Rule>, choices: seq<seq<int>>, k: nat,
      prev: Repair<Name>, r: Repair<Name>)
    requires l.Agrees(a) && IsRepair(l, a, rules, choices) && r == Repaired(l, a, rules, choices)
    requires Satisfiable(l, a, rules) && k + 1 == |rules| && prev == Repaired(l, a, rules[..k], choices[..k])
    ensures IsRepair(l, a, rules[..k], choices[..k]) && Satisfiable(l, a, rules[..k])
    ensures l.Agrees(prev.a) && HostsOwnSlots(l, prev) && Satisfiable(l, prev.a, rules[..k] + [rules[k]])
    ensures rules[k].partition in prev.a.dist
    ensures Choice(l, prev.a, rules[k], choices[k]) && r == ApplyRule(l, prev, rules[k], choices[k])
  {
    LastRule(l, a, rules, choices, k, prev);
    RepairKeeps(l, a, rules[..k], choices[..k], prev);
    StillSatisfiable(l, a, rules, prev.a);
    SplitLast(rules);
  }

  lemma EarlierStays<Name>(l: Layout<Name>, rules: seq<Rule>, choices: seq<seq<int>>, prev: Repair<Name>, k: nat,
      r: Repair<Name>, j: nat)
    requires j < k && k + 1 == |rules| == |choices| == |r.hosts| && |prev.hosts| == k
    requires l.Agrees(prev.a) && HostsOwnSlots(l, prev) && Satisfiable(l, prev.a, rules[..k] + [rules[k]])
    requires Choice(l, prev.a, rules[k], choices[k]) && r == ApplyRule(l, prev, rules[k], choices[k])
    requires prev.hosts[j] in prev.a.parts
    requires rules[..k][j].partition in prev.a.parts[prev.hosts[j]] <==> NotPicked(rules[..k], choices[..k], prev, j)
    ensures r.hosts[j] in r.a.parts
    ensures rules[j].partition in r.a.parts[r.hosts[j]] <==> NotPicked(rules, choices, r, j)
  {
    LastTakes(l, prev, rules[..k], rules[k], choices[k], r, j);
    assert r.hosts[..k] == prev.hosts;
    PickedMore(rules, choices, prev, r, k, j);
  }

  lemma EarlierRuleStays<Name>(l: Layout<Name>, a: Assignment<Name>, rules: seq<Rule>, choices: seq<seq<int>>, k: nat,
      prev: Repair<Name>, r: Repair<Name>, j: nat)
    requires l.Agrees(a) && IsRepair(l, a, rules, choices) && r == Repaired(l, a, rules, choices)
    requires Satisfiable(l, a, rules) && j < k && k + 1 == |rules| && prev == Repaired(l, a, rules[..k], choices[..k])
    requires prev.hosts[j] in prev.a.parts
    requires rules[..k][j].partition in prev.a.parts[prev.hosts[j]] <==> NotPicked(rules[..k], choices[..k], prev, j)
    ensures r.hosts[j] in r.a.parts
    ensures rules[j].partition in r.a.parts[r.hosts[j]] <==> NotPicked(rules, choices, r, j)
  {
    BeforeLast(l, a, rules, choices, k, prev, r);
    EarlierStays(l, rules, choices, prev, k, r, j);
  }

  lemma LastRuleStays<Name>(l: Layout<Name>, a: Assignment<Name>, rules: seq<Rule>, choices: seq<seq<int>>, k: nat,
      prev: Repair<Name>, r: Repair<Name>)
    requires l.Agrees(a) && IsRepair(l, a, rules, choices) && r == Repaired(l, a, rules, choices)
    requires Satisfiable(l, a, rules) && k + 1 == |rules| && prev == Repaired(l, a, rules[..k], choices[..k])
    ensures r.hosts[k] in r.a.parts
    ensures rules[k].partition in r.a.parts[r.hosts[k]] <==> NotPicked(rules, choices, r, k)
  {
    BeforeLast(l, a, rules, choices, k, prev, r);
    LastStays(l, prev, rules[k], choices[k], r);
  }

  lemma ShorterRepair<Name>(l: Layout<Name>, a: Assignment<Name>, rules: seq<Rule>, choices: seq<seq<int>>, k: nat)
    requires l.Shape(a) && IsRepair(l, a, rules, choices) && Satisfiable(l, a, rules) && k + 1 == |rules|
    ensures |choices| == k + 1 && IsRepair(l, a, rules[..k], choices[..k]) && Satisfiable(l, a, rules[..k])
  {
  }

  /** Whatever the allowances, a rule's partition ends with the rule's host if and only if no later rule with that host
      picked it. */
  lemma {:induction false} StaysUnlessPicked<Name>(l: Layout<Name>, a: Assignment<Name>, rules: seq<Rule>,
      choices: seq<seq<int>>, r: Repair<Name>, j: nat)
    requires l.Agrees(a) && IsRepair(l, a, rules, choices) && r == Repaired(l, a, rules, choices)
    requires Satisfiable(l, a, rules) && j < |rules|
    ensures r.hosts[j] in r.a.parts
    ensures rules[j].partition in r.a.parts[r.hosts[j]] <==> NotPicked(rules, choices, r, j)
    decreases |rules|
  {
    var k := |rules| - 1;
    ShorterRepair(l, a, rules, choices, k);
    var prev := Repaired(l, a, rules[..k], choices[..k]);
    if j < k {
      StaysUnlessPicked(l, a, rules[..k], choices[..k], prev, j);
      EarlierRuleStays(l, a, rules, choices, k, prev, r, j);
    } else {
      assert j == k;
      LastRuleStays(l, a, rules, choices, j, prev, r);
    }
  }

  lemma OwnerHolds<Name>(l: Layout<Name>, a: Assignment<Name>, p: int, n: Name)
    requires l.Agrees(a) && p in a.dist && n in l.names
    ensures l.ring.At(a.dist[p]) == n <==> p in a.parts[n]
  {
    assert a.parts[n] == OwnedBy(l.Owners(a), n);
  }

  /** In terms of the final owner. */
  lemma OwnedUnlessPicked<Name>(l: Layout<Name>, a: Assignment<Name>, rules: seq<Rule>,
      choices: seq<seq<int>>, r: Repair<Name>, j: nat)
    requires l.Agrees(a) && IsRepair(l, a, rules, choices) && r == Repaired(l, a, rules, choices)
    requires Satisfiable(l, a, rules) && j < |rules|
    ensures rules[j].partition in r.a.dist && r.hosts[j] in r.a.parts
    ensures l.Load(r.a, r.hosts[j]) <= rules[j].others + 1
    ensures l.ring.At(r.a.dist[rules[j].partition]) == r.hosts[j] <==> NotPicked(rules, choices, r, j)
  {
    RepairKeeps(l, a, rules, choices, r);
    RulesMet(l, a, rules, choices, r);
    StaysUnlessPicked(l, a, rules, choices, r, j);
    OwnerHolds(l, r.a, rules[j].partition, r.hosts[j]);
  }

  /** Where a rule allows no others and is met, its partition is alone. */
  lemma Alone<Name>(l: Layout<Name>, rules: seq<Rule>, r: Repair<Name>, j: nat)
    requires l.Agrees(r.a) && Met(l, rules, r) && Stayed(rules, r) && j < |rules| && rules[j].others == 0
    ensures r.a.parts[r.hosts[j]] == {rules[j].partition}
    ensures rules[j].partition in r.a.dist && l.ring.At(r.a.dist[rules[j].partition]) == r.hosts[j]
  {
    var p := rules[j].partition;
    var s := r.a.parts[r.hosts[j]];
    assert |s - {p}| == |s| - 1;
    AtHome(l, r.a, p, r.hosts[j]);
  }

  // ----- independence of the map's iteration order -----

  /** Every rule of the run either allows no others or finds its host within the limit. */
  ghost predicate Forced<Name>(l: Layout<Name>, a: Assignment<Name>, rules: seq<Rule>, choices: seq<seq<int>>)
    requires l.Shape(a) && |rules| == |choices|
    decreases |rules|
  {
    rules != [] ==>
      var k := |rules| - 1;
      && Forced(l, a, rules[..k], choices[..k])
      && (rules[k].others == 0 || !Overloaded(l, Repaired(l, a, rules[..k], choices[..k]).a, rules[k]))
  }

  lemma {:induction false} AscendingUnique(a: seq<int>, b: seq<int>)
    requires Ascending(a) && Ascending(b) && Elements(a) == Elements(b)
    ensures a == b
    decreases |a|
  {
    ElementCount(a);
    ElementCount(b);
    if a != [] {
      assert a[0] in Elements(b) && b[0] in Elements(a);
      assert a[0] == b[0];
      assert a == [a[0]] + a[1..] && b == [b[0]] + b[1..];
      assert Elements(a[1..]) == Elements(a) - {a[0]};
      assert Elements(b[1..]) == Elements(b) - {b[0]};
      AscendingUnique(a[1..], b[1..]);
    }
  }

  lemma ForcedChoice<Name>(l: Layout<Name>, a: Assignment<Name>, rule: Rule, x: seq<int>, y: seq<int>)
    requires l.Shape(a) && Choice(l, a, rule, x) && Choice(l, a, rule, y)
    requires rule.others == 0 || !Overloaded(l, a, rule)
    ensures x == y
  {
    if Overloaded(l, a, rule) {
      ElementCount(x);
      ElementCount(y);
      SubsetSize(Elements(x), Leavers(l, a, rule));
      SubsetSize(Elements(y), Leavers(l, a, rule));
      AscendingUnique(x, y);
    }
  }

  /** Where every rule is forced, the map's iteration order changes nothing. */
  lemma {:induction false} ForcedRepairUnique<Name>(l: Layout<Name>, a: Assignment<Name>, rules: seq<Rule>,
      x: seq<seq<int>>, y: seq<seq<int>>)
    requires l.Shape(a) && IsRepair(l, a, rules, x) && IsRepair(l, a, rules, y) && Forced(l, a, rules, x)
    ensures x == y
    decreases |rules|
  {
    if rules != [] {
      var k := |rules| - 1;
      var prev := Repaired(l, a, rules[..k], x[..k]);
      LastRule(l, a, rules, x, k, prev);
      LastRule(l, a, rules, y, k, Repaired(l, a, rules[..k], y[..k]));
      ForcedRepairUnique(l, a, rules[..k], x[..k], y[..k]);
      ForcedChoice(l, prev.a, rules[k], x[k], y[k]);
      SplitLast(x);
      SplitLast(y);
    }
  }

  lemma {:induction false} NoOthersForced<Name>(l: Layout<Name>, a: Assignment<Name>, rules: seq<Rule>,
      choices: seq<seq<int>>)
    requires l.Shape(a) && |rules| == |choices| && forall j :: 0 <= j < |rules| ==> rules[j].others == 0
    ensures Forced(l, a, rules, choices)
    decreases |rules|
  {
    if rules != [] { NoOthersForced(l, a, rules[..|rules| - 1], choices[..|rules| - 1]); }
  }

  /** Every set of partitions has an ascending listing. */
  lemma {:induction false} Listing(s: set<int>) returns (ids: seq<int>)
    ensures Ascending(ids) && Elements(ids) == s && |ids| == |s|
    decreases |s|
  {
    if s == {} {
      ids := [];
    } else {
      var m := LastOf(s);
      assert |s - {m}| == |s| - 1;
      var early := Listing(s - {m});
      ids := early + [m];
      assert Elements(ids) == Elements(early) + {m} == s;
      forall i | 0 <= i < |early| ensures early[i] < m {
        assert early[i] in Elements(early);
      }
    }
  }

  lemma LastOf(s: set<int>) returns (m: int)
    requires s != {}
    ensures m in s && forall x :: x in s ==> x <= m
  {
    m := Greatest(s);
  }

  lemma {:induction false} SubsetOfSize<T>(s: set<T>, n: nat) returns (t: set<T>)
    requires n <= |s|
    ensures t <= s && |t| == n
    decreases |s|
  {
    if n == |s| {
      t := s;
    } else {
      var x := Witness(s);
      assert |s - {x}| == |s| - 1;
      t := SubsetOfSize(s - {x}, n);
    }
  }

  lemma TwoSubsets<T>(s: set<T>, n: nat) returns (t: set<T>, u: set<T>)
    requires 0 < n < |s|
    ensures t <= s && u <= s && |t| == |u| == n && t != u
  {
    t := SubsetOfSize(s, n);
    assert |s - t| == |s| - |t|;
    var x := Witness(t);
    var y := Witness(s - t);
    u := t - {x} + {y};
    assert |t - {x}| == |t| - 1;
    assert y !in t;
  }

  lemma ListingChoice<Name>(l: Layout<Name>, a: Assignment<Name>, rule: Rule, t: set<int>) returns (ids: seq<int>)
    requires l.Shape(a) && Overloaded(l, a, rule)
    requires t <= Leavers(l, a, rule) && |t| == |Leavers(l, a, rule)| - rule.others
    ensures Choice(l, a, rule, ids) && Elements(ids) == t
  {
    ids := Listing(t);
    forall i | 0 <= i < |ids| ensures ids[i] in Leavers(l, a, rule) { assert ids[i] in Elements(ids); }
  }

  /** The other direction: a rule that allows others and finds its host over the limit comes out in
      different ways for different iteration orders. */
  lemma UnforcedDiffers<Name>(l: Layout<Name>, a: Assignment<Name>, black: set<Name>, rule: Rule)
      returns (x: seq<int>, y: seq<int>)
    requires l.Agrees(a) && Overloaded(l, a, rule) && rule.others > 0
    requires rule.partition in a.dist && |a.dist| == l.total && (l.total >= 2 ==> l.maxLoad < l.total)
    requires black <= l.ring.Slots() && |black + {Host(l, a, rule)}| < |l.ring.Slots()|
    ensures Choice(l, a, rule, x) && Choice(l, a, rule, y)
    ensures Applied(l, a, black, rule, x) != Applied(l, a, black, rule, y)
  {
    Placed(l, a, rule);
    var t, u := TwoSubsets(Leavers(l, a, rule), |Leavers(l, a, rule)| - rule.others);
    x := ListingChoice(l, a, rule, t);
    y := ListingChoice(l, a, rule, u);
    var host := Host(l, a, rule);
    RuleMet(l, a, black, rule, x, Applied(l, a, black, rule, x));
    RuleMet(l, a, black, rule, y, Applied(l, a, black, rule, y));
    RemaindersDiffer(a.parts[host], t, u);
  }

  lemma RemaindersDiffer<T>(s: set<T>, t: set<T>, u: set<T>)
    requires t <= s && u <= s && t != u
    ensures s - t != s - u
  {
    assert t == s - (s - t) && u == s - (s - u);
  }

  /** For one rule with room to move: the outcome does not depend on the iteration order exactly when
      the rule allows no others or its host is within the limit. */
  lemma UniqueIffForced<Name>(l: Layout<Name>, a: Assignment<Name>, black: set<Name>, rule: Rule)
    requires l.Agrees(a)
    requires rule.partition in a.dist && |a.dist| == l.total && (l.total >= 2 ==> l.maxLoad < l.total)
    requires black <= l.ring.Slots() && |black + {Host(l, a, rule)}| < |l.ring.Slots()|
    ensures (rule.others == 0 || !Overloaded(l, a, rule)) <==>
      forall x, y :: Choice(l, a, rule, x) && Choice(l, a, rule, y) ==>
        Applied(l, a, black, rule, x) == Applied(l, a, black, rule, y)
  {
    if rule.others == 0 || !Overloaded(l, a, rule) {
      forall x, y | Choice(l, a, rule, x) && Choice(l, a, rule, y)
        ensures Applied(l, a, black, rule, x) == Applied(l, a, black, rule, y)
      {
        ForcedChoice(l, a, rule, x, y);
      }
    } else {
      var x, y := UnforcedDiffers(l, a, black, rule);
    }
  }

  lemma SubsetWith<T>(s: set<T>, n: nat, x: T) returns (t: set<T>)
    requires 0 < n <= |s| && x in s
    ensures t <= s && |t| == n && x in t
  {
    assert |s - {x}| == |s| - 1;
    var u := SubsetOfSize(s - {x}, n - 1);
    t := u + {x};
  }

  /** A rule may move any other partition off its host, also one that an earlier rule was about: such a partition
      stays whatever the iteration order exactly when the later rule finds the host within its limit. */
  lemma StaysExactly<Name>(l: Layout<Name>, a: Assignment<Name>, black: set<Name>, rule: Rule, q: int)
    requires l.Agrees(a) && rule.partition in a.dist && |a.dist| == l.total && (l.total >= 2 ==> l.maxLoad < l.total)
    requires black <= l.ring.Slots() && |black + {Host(l, a, rule)}| < |l.ring.Slots()|
    requires q in a.parts[Host(l, a, rule)] && q != rule.partition
    ensures (forall ids :: Choice(l, a, rule, ids) ==> q in Applied(l, a, black, rule, ids).parts[Host(l, a, rule)])
      <==> !Overloaded(l, a, rule)
  {
    if Overloaded(l, a, rule) {
      Placed(l, a, rule);
      var t := SubsetWith(Leavers(l, a, rule), |Leavers(l, a, rule)| - rule.others, q);
      var ids := ListingChoice(l, a, rule, t);
      RuleMet(l, a, black, rule, ids, Applied(l, a, black, rule, ids));
    } else {
      forall ids | Choice(l, a, rule, ids) ensures q in Applied(l, a, black, rule, ids).parts[Host(l, a, rule)] {
        RuleMet(l, a, black, rule, ids, Applied(l, a, black, rule, ids));
        assert ids == [];
      }
    }
  }
}
