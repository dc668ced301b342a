/** reusable_id_impl.go: an allocator that gives out the least unused ID again, over a sorted list. */
module ReusableId {
  import opened Common

  const LIMIT: nat := 0x1_0000_0000_0000_0000

  ghost predicate Fits(s: seq<nat>)
  {
    forall i :: 0 <= i < |s| ==> s[i] < LIMIT
  }

  /** The ID is the least one, from `min` on, that is not in use. */
  ghost predicate IsLeast(v: nat, used: set<nat>, min: nat)
  {
    min <= v && v !in used && forall x: nat :: min <= x < v ==> x in used
  }

  /** The next number in a 64-bit word. */
  function Succ(x: nat): nat
  {
    (x + 1) % LIMIT
  }

  /** The end of the run of consecutive numbers at the head of the list, in 64-bit words. */
  function RunEnd(s: seq<nat>, k: nat): (r: nat)
    requires 0 < k <= |s|
    ensures k <= r <= |s|
    ensures forall i :: k <= i < r ==> s[i] == Succ(s[i - 1])
    ensures r < |s| ==> s[r] != Succ(s[r - 1])
    decreases |s| - k
  {
    if k == |s| || Succ(s[k - 1]) != s[k] then k else RunEnd(s, k + 1)
  }

  /** FindMinHoleValueAndIndex. */
  function Hole(s: seq<nat>, min: nat): (nat, nat)
  {
    if s == [] || s[0] > min then (min, 0)
    else var r := RunEnd(s, 1); (Succ(s[r - 1]), r)
  }

  lemma {:induction false} RunAt(s: seq<nat>, i: nat)
    requires Ascending(s) && Fits(s) && s != [] && i < RunEnd(s, 1)
    ensures s[i] == s[0] + i
    decreases i
  {
    if i > 0 {
      RunAt(s, i - 1);
      NoWrap(s, i);
    }
  }

  /** In a strictly sorted list no number follows the greatest one. */
  lemma NoWrap(s: seq<nat>, i: nat)
    requires Ascending(s) && Fits(s) && 0 < i < |s|
    ensures Succ(s[i - 1]) == s[i - 1] + 1
  {
    assert s[i - 1] < s[i];
  }

  /** Every ID between the least one in use and `min` is in use. */
  ghost predicate NoGapBelow(s: seq<nat>, min: nat)
  {
    forall x: nat :: s != [] && s[0] <= x < min ==> x in s
  }

  ghost predicate SomeLeft(s: seq<nat>, min: nat)
  {
    exists x: nat :: min <= x < LIMIT && x !in s
  }

  /** Above the break nothing follows at once. */
  lemma RunBreaks(s: seq<nat>, r: nat)
    requires Ascending(s) && Fits(s) && s != [] && r == RunEnd(s, 1) < |s|
    ensures s[r] > s[r - 1] + 1
  {
    NoWrap(s, r);
    assert s[r - 1] < s[r];
  }

  lemma BetweenNothing(s: seq<nat>, r: nat)
    requires Ascending(s) && 0 < r <= |s| && (r < |s| ==> s[r] > s[r - 1] + 1)
    ensures s[r - 1] + 1 !in s
  {
    forall i | 0 <= i < |s| ensures s[i] != s[r - 1] + 1 {
      assert i > r ==> s[r] < s[i];
      assert i < r - 1 ==> s[i] < s[r - 1];
    }
  }

  /** Where the run ends nothing is in use. */
  lemma EndUnused(s: seq<nat>)
    requires Ascending(s) && Fits(s) && s != []
    ensures s[RunEnd(s, 1) - 1] + 1 !in s
    ensures forall x: nat :: s[0] <= x <= s[RunEnd(s, 1) - 1] ==> x in s
  {
    var r := RunEnd(s, 1);
    if r < |s| { RunBreaks(s, r); }
    BetweenNothing(s, r);
    RunAt(s, r - 1);
    forall x: nat | s[0] <= x <= s[r - 1] ensures x in s {
      RunAt(s, x - s[0]);
    }
  }

  lemma NothingBelowFirst(s: seq<nat>, min: nat)
    requires Ascending(s) && (s == [] || s[0] > min)
    ensures min !in s
  {
    forall i | 0 <= i < |s| ensures s[i] != min { assert i > 0 ==> s[0] < s[i]; }
  }

  /** When the run at the head of the list ends below `min`, there is a gap there. */
  lemma RunTooShort(s: seq<nat>, min: nat)
    requires Ascending(s) && Fits(s) && s != [] && s[RunEnd(s, 1) - 1] + 1 < min
    ensures !NoGapBelow(s, min)
  {
    EndUnused(s);
    RunAt(s, RunEnd(s, 1) - 1);
    var end := s[RunEnd(s, 1) - 1] + 1;
    assert s[0] <= end < min && end !in s;
  }

  lemma RunReaches(s: seq<nat>, min: nat)
    requires Ascending(s) && Fits(s) && s != [] && s[0] <= min <= s[RunEnd(s, 1) - 1] + 1
    ensures NoGapBelow(s, min) && IsLeast(s[RunEnd(s, 1) - 1] + 1, Elements(s), min)
  {
    EndUnused(s);
  }

  /** A run up to the greatest ID leaves none, and the sum wraps to 0. */
  lemma RunsOut(s: seq<nat>, min: nat)
    requires Ascending(s) && Fits(s) && s != [] && s[0] <= min && s[RunEnd(s, 1) - 1] + 1 == LIMIT
    ensures !SomeLeft(s, min) && (s[0] == 0 || min > 0)
  {
    EndUnused(s);
  }

  lemma AfterRunExactly(s: seq<nat>, min: nat, end: nat)
    requires Ascending(s) && Fits(s) && min < LIMIT && s != [] && s[0] <= min && end == s[RunEnd(s, 1) - 1] + 1
    ensures IsLeast(end % LIMIT, Elements(s), min) <==> NoGapBelow(s, min) && SomeLeft(s, min)
  {
    if end < min {
      RunTooShort(s, min);
    } else if end == LIMIT {
      RunsOut(s, min);
    } else {
      RunReaches(s, min);
    }
  }

  /** The search finds the least unused ID from `min` on exactly when there is one and no ID below `min` is
      unused above the least ID in use; in particular whenever no ID below `min` is in use. */
  lemma HoleExactly(s: seq<nat>, min: nat)
    requires Ascending(s) && Fits(s) && min < LIMIT
    ensures IsLeast(Hole(s, min).0, Elements(s), min) <==> NoGapBelow(s, min) && SomeLeft(s, min)
  {
    if s == [] || s[0] > min {
      NothingBelowFirst(s, min);
      assert SomeLeft(s, min) by { assert min !in s; }
    } else {
      AfterRunExactly(s, min, s[RunEnd(s, 1) - 1] + 1);
    }
  }

  /** With ID 0 in use the search gives out ID 1, whatever the minimum. */
  lemma HoleBelowMinimum(min: nat)
    requires 2 <= min < LIMIT
    ensures Hole([0], min) == (1, 1) && !IsLeast(1, Elements([0]), min)
  {
  }

  /** The index is where the value belongs in the list. */
  lemma HoleFits(s: seq<nat>, min: nat, v: nat, i: nat)
    requires Ascending(s) && Fits(s) && Hole(s, min) == (v, i) && (s == [] || s[0] > min || s[i - 1] + 1 < LIMIT)
    ensures i <= |s| && (forall k :: 0 <= k < i ==> s[k] < v) && (forall k :: i <= k < |s| ==> v < s[k])
  {
    if !(s == [] || s[0] > min) {
      assert v == s[i - 1] + 1;
      if i < |s| { NoWrap(s, i); }
      forall k | i <= k < |s| ensures v < s[k] { assert s[i - 1] < s[i]; assert k > i ==> s[i] < s[k]; }
    } else if s != [] {
      forall k | 0 <= k < |s| ensures v < s[k] { assert k > 0 ==> s[0] < s[k]; }
    }
  }

  lemma InsertKeeps(s: seq<nat>, v: nat, i: nat)
    requires Ascending(s) && i <= |s| && (forall k :: 0 <= k < i ==> s[k] < v)
    requires forall k :: i <= k < |s| ==> v < s[k]
    ensures Ascending(s[..i] + [v] + s[i..]) && Elements(s[..i] + [v] + s[i..]) == Elements(s) + {v}
  {
    var t := s[..i] + [v] + s[i..];
    assert s == s[..i] + s[i..];
    forall x ensures x in t <==> x in s || x == v {
      assert x in s <==> x in s[..i] || x in s[i..];
    }
  }

  lemma RemoveKeeps(s: seq<nat>, i: nat)
    requires Ascending(s) && i < |s|
    ensures Ascending(s[..i] + s[i + 1..]) && Elements(s[..i] + s[i + 1..]) == Elements(s) - {s[i]}
  {
    var t := s[..i] + s[i + 1..];
    assert s == s[..i] + [s[i]] + s[i + 1..];
    forall k | 0 <= k < |t| ensures t[k] != s[i] { assert t[k] == if k < i then s[k] else s[k + 1]; }
    forall x ensures x in t <==> x in s && x != s[i] {
      assert x in s <==> x in s[..i] || x == s[i] || x in s[i + 1..];
    }
  }

  // ----- the plain set model -----

  /** Alloc gives out the least unused ID; Collect gives back one that is in use. */
  ghost predicate Next(s: set<nat>, t: set<nat>, min: nat)
  {
    || (exists v: nat :: IsLeast(v, s, min) && t == s + {v})
    || (exists v: nat :: v in s && t == s - {v})
  }

  function Span(min: nat, n: nat): (r: set<nat>)
    ensures |r| == n && forall x: nat :: x in r <==> min <= x < min + n
  {
    if n == 0 then {} else Span(min, n - 1) + {min + n - 1}
  }

  /** The least unused ID is not further up than the number of IDs in use. */
  lemma LeastIsDense(v: nat, used: set<nat>, min: nat)
    requires IsLeast(v, used, min)
    ensures v <= min + |used|
  {
    var below := Span(min, v - min);
    assert below <= used;
    assert used == below + (used - below) && |used| == |below| + |used - below|;
  }

  /** The IDs are `min` and the k - 1 above it, as long as no more than k are in use. */
  ghost predicate Dense(s: set<nat>, min: nat, k: nat)
  {
    |s| <= k && forall x :: x in s ==> min <= x < min + k
  }

  lemma StepDense(s: set<nat>, t: set<nat>, min: nat, k: nat)
    requires Dense(s, min, k) && Next(s, t, min) && |t| <= k
    ensures Dense(t, min, k)
  {
    if v: nat :| IsLeast(v, s, min) && t == s + {v} {
      LeastIsDense(v, s, min);
      assert |t| == |s| + 1;
    }
  }

  /** In every run with at most k IDs in use at a time, no ID is k or more above the minimum. */
  lemma AlwaysDense(run: seq<set<nat>>, min: nat, k: nat)
    requires IsRun((s: set<nat>, t: set<nat>) => Next(s, t, min) && |t| <= k, run) && run[0] == {}
    ensures forall i :: 0 <= i < |run| ==> Dense(run[i], min, k)
  {
    var next := (s: set<nat>, t: set<nat>) => Next(s, t, min) && |t| <= k;
    var inv := (s: set<nat>) => Dense(s, min, k);
    forall s, t | inv(s) && next(s, t) ensures inv(t) { StepDense(s, t, min, k); }
    HoldsThroughout(next, inv, run);
    forall i | 0 <= i < |run| ensures Dense(run[i], min, k) { assert inv(run[i]); }
  }

  // ----- the list in place -----

  class OrderedList {
    var sorted: seq<nat>

    constructor (ids: seq<nat>)
      ensures sorted == ids
    {
      sorted := ids;
    }

    method FindMinHoleValueAndIndex(min: nat) returns (v: nat, index: nat)
      ensures (v, index) == Hole(sorted, min)
    {
      if |sorted| == 0 { return min, 0; }
      if sorted[0] > min { return min, 0; }
      if |sorted| == 1 { return Succ(sorted[0]), 1; }
      var i := 0;
      while i < |sorted| - 1
        invariant 0 <= i <= |sorted| - 1 && RunEnd(sorted, 1) == RunEnd(sorted, i + 1)
      {
        if Succ(sorted[i]) != sorted[i + 1] { return Succ(sorted[i]), i + 1; }
        i := i + 1;
      }
      return Succ(sorted[|sorted| - 1]), |sorted|;
    }

    method Insert(v: nat, i: nat)
      requires i <= |sorted|
      modifies this
      ensures sorted == old(sorted[..i]) + [v] + old(sorted[i..])
    {
      if |sorted| == i {
        sorted := sorted + [v];
      } else {
        sorted := sorted[..i + 1] + sorted[i..];
        sorted := sorted[i := v];
      }
    }

    /** Removes an element; an absent one panics on the index -1. */
    method Remove(v: nat) returns (index: Option<nat>)
      modifies this
      ensures index.None? <==> v !in old(sorted)
      ensures index.None? ==> sorted == old(sorted)
      ensures index.Some? ==> index.value < |old(sorted)| && old(sorted)[index.value] == v
      ensures index.Some? ==> sorted == old(sorted)[..index.value] + old(sorted)[index.value + 1..]
    {
      index := None;
      for i := 0 to |sorted|
        invariant sorted == old(sorted)
        invariant index.None? <==> v !in sorted[..i]
        invariant index.Some? ==> index.value < i && sorted[index.value] == v
      {
        if sorted[i] == v { index := Some(i); }
      }
      assert sorted[..|sorted|] == sorted;
      if index.None? { return; }
      sorted := sorted[..index.value] + sorted[index.value + 1..];
    }
  }

  ghost predicate ListOk(s: seq<nat>, min: nat)
  {
    Ascending(s) && Fits(s) && min < LIMIT && forall i :: 0 <= i < |s| ==> min <= s[i]
  }

  lemma AllocKeeps(s: seq<nat>, min: nat, v: nat, i: nat)
    requires ListOk(s, min) && SomeLeft(s, min) && (v, i) == Hole(s, min)
    ensures i <= |s| && ListOk(s[..i] + [v] + s[i..], min)
    ensures IsLeast(v, Elements(s), min) && Elements(s[..i] + [v] + s[i..]) == Elements(s) + {v}
  {
    HoleExactly(s, min);
    HoleBelowLimit(s, min);
    HoleFits(s, min, v, i);
    InsertKeeps(s, v, i);
    var x: nat :| min <= x < LIMIT && x !in s;
    assert x !in Elements(s);
  }

  /** When every ID is in use, the addition wraps around. */
  lemma NoHole(s: seq<nat>, min: nat)
    requires ListOk(s, min) && min < LIMIT && !SomeLeft(s, min)
    ensures Hole(s, min) == (0, |s|)
  {
    assert min in s;
    EndUnused(s);
    var r := RunEnd(s, 1);
    RunAt(s, r - 1);
    assert s[r - 1] + 1 == LIMIT;
  }

  lemma SortedValid(ids: seq<nat>, s: seq<nat>, min: nat)
    requires SortedBy(s, NatLess) && multiset(s) == multiset(ids) && Distinct(ids) && Fits(ids) && min < LIMIT
    requires forall i :: 0 <= i < |ids| ==> min <= ids[i]
    ensures ListOk(s, min) && Elements(s) == Elements(ids)
  {
    forall i, j | 0 <= i < j < |s| ensures s[i] <= s[j] { assert !NatLess(s[j], s[i]); }
    SortedDistinct(ids, s);
    SameElements(s, ids);
    forall i | 0 <= i < |s| ensures min <= s[i] < LIMIT { assert s[i] in Elements(ids); }
  }

  /** One occurrence of the ID is taken out. */
  ghost predicate TakenOut(s: seq<nat>, id: nat, t: seq<nat>)
  {
    exists i :: 0 <= i < |s| && s[i] == id && t == s[..i] + s[i + 1..]
  }

  lemma TakenOutKeeps(s: seq<nat>, id: nat, t: seq<nat>, min: nat)
    requires ListOk(s, min) && TakenOut(s, id, t)
    ensures ListOk(t, min) && Elements(t) == Elements(s) - {id}
  {
    var i :| 0 <= i < |s| && s[i] == id && t == s[..i] + s[i + 1..];
    RemoveKeeps(s, i);
    forall k | 0 <= k < |t| ensures min <= t[k] < LIMIT { assert t[k] in Elements(s); }
  }

  class ReusableAllocatorImpl {
    const minID: nat
    const existIDs: OrderedList

    /** The list is strictly sorted and has no ID below the minimum. */
    ghost predicate Valid()
      reads existIDs
    {
      ListOk(existIDs.sorted, minID)
    }

    ghost function Used(): set<nat>
      reads existIDs
    {
      Elements(existIDs.sorted)
    }

    /** The IDs sorted; the list is valid when they are distinct and none is below the minimum. */
    constructor (ids: seq<nat>, min: nat)
      requires min < LIMIT && Fits(ids)
      ensures minID == min && fresh(existIDs)
      ensures SortedBy(existIDs.sorted, NatLess) && multiset(existIDs.sorted) == multiset(ids)
      ensures Distinct(ids) && (forall i :: 0 <= i < |ids| ==> min <= ids[i]) ==> Valid() && Used() == Elements(ids)
    {
      var sorted := Sort(ids, NatLess);
      if Distinct(ids) && forall i :: 0 <= i < |ids| ==> min <= ids[i] {
        SortedValid(ids, sorted, min);
      }
      minID := min;
      existIDs := new OrderedList(sorted);
    }

    /** Any list gains the value of the search at its index. On a valid one that is the least unused ID as long as one
        is left, and after that, zero. */
    method Alloc() returns (v: nat)
      modifies existIDs
      ensures var (w, i) := Hole(old(existIDs.sorted), minID);
        v == w && i <= |old(existIDs.sorted)|
          && existIDs.sorted == old(existIDs.sorted)[..i] + [v] + old(existIDs.sorted)[i..]
      ensures old(Valid()) && SomeLeft(old(existIDs.sorted), minID) ==>
        Valid() && IsLeast(v, old(Used()), minID) && Used() == old(Used()) + {v}
      ensures old(Valid()) && !SomeLeft(old(existIDs.sorted), minID) ==>
        v == 0 && existIDs.sorted == old(existIDs.sorted) + [0]
    {
      var i;
      v, i := existIDs.FindMinHoleValueAndIndex(minID);
      ghost var s := existIDs.sorted;
      if Valid() {
        if SomeLeft(s, minID) { AllocKeeps(s, minID, v, i); } else { NoHole(s, minID); }
      }
      existIDs.Insert(v, i);
    }

    /** Takes one occurrence of the ID out of any list; panics when there is none. A valid list stays valid. */
    method Collect(id: nat) returns (panicked: bool)
      modifies existIDs
      ensures panicked <==> id !in old(Used())
      ensures panicked ==> existIDs.sorted == old(existIDs.sorted)
      ensures !panicked ==> TakenOut(old(existIDs.sorted), id, existIDs.sorted)
      ensures old(Valid()) ==> Valid() && Used() == old(Used()) - {id}
    {
      ghost var s := existIDs.sorted;
      var index := existIDs.Remove(id);
      if index.None? { return true; }
      assert TakenOut(s, id, existIDs.sorted);
      if ListOk(s, minID) { TakenOutKeeps(s, id, existIDs.sorted, minID); }
      return false;
    }
  }

  lemma HoleBelowLimit(s: seq<nat>, min: nat)
    requires Ascending(s) && Fits(s) && SomeLeft(s, min)
    ensures s == [] || s[0] > min || s[RunEnd(s, 1) - 1] + 1 < LIMIT
  {
    if s != [] { EndUnused(s); }
    var x: nat :| min <= x < LIMIT && x !in s;
  }
}
