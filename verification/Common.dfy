/** Small building blocks shared by the other modules: optional values, the byte-wise
    order Go uses on strings and etcd uses on keys, sorting by contract, and runs of a
    state machine. */
module Common {

  datatype Option<+T> = None | Some(value: T)

  /** Some element of a set: the next key of a map iteration, whose order Go leaves open. */
  method Pick<T>(s: set<T>) returns (x: T)
    requires s != {}
    ensures x in s
  {
    x :| x in s;
  }

  lemma Witness<T>(s: set<T>) returns (x: T)
    requires s != {}
    ensures x in s
  {
    x :| x in s;
  }

  lemma SplitFirst<T>(s: seq<T>)
    requires s != []
    ensures s == [s[0]] + s[1..] && multiset(s[1..]) == multiset(s) - multiset{s[0]}
  {
    assert s == [s[0]] + s[1..];
  }

  lemma TakeMore<T>(s: seq<T>, x: T, k: nat)
    requires k <= |s|
    ensures (s + [x])[..k] == s[..k]
  {
  }

  lemma TakeTwice<T>(s: seq<T>, n: nat, k: nat)
    requires k <= n <= |s|
    ensures s[..n][..k] == s[..k]
  {
  }

  lemma TakeAll<T>(s: seq<T>)
    ensures s[..|s|] == s
  {
  }

  lemma Singleton<T>(s: seq<T>)
    requires |s| == 1
    ensures s == [s[0]]
  {
  }

  lemma SplitLast<T>(s: seq<T>)
    requires s != []
    ensures s == s[..|s| - 1] + [s[|s| - 1]]
  {
  }

  lemma UpdateTwice<K, V>(m: map<K, V>, k: K, a: V, b: V)
    ensures m[k := a][k := b] == m[k := b]
  {
  }

  function Elements<T(==)>(s: seq<T>): set<T>
  {
    set x | x in s
  }

  ghost predicate Distinct<T>(s: seq<T>)
  {
    forall i, j :: 0 <= i < j < |s| ==> s[i] != s[j]
  }

  ghost predicate Ascending(s: seq<int>)
  {
    forall i, j :: 0 <= i < j < |s| ==> s[i] < s[j]
  }

  // ----- lists without some of their elements -----

  function Filter<T>(s: seq<T>, keep: T -> bool): seq<T>
  {
    if s == [] then []
    else var k := |s| - 1; Filter(s[..k], keep) + if keep(s[k]) then [s[k]] else []
  }

  /** The elements of `r` are those at the indices `at`, which are all the indices of elements to keep, in order. */
  ghost predicate KeptAt<T>(s: seq<T>, keep: T -> bool, r: seq<T>, at: seq<int>)
  {
    && |at| == |r| && Ascending(at)
    && (forall j :: 0 <= j < |at| ==> 0 <= at[j] < |s| && keep(s[at[j]]) && r[j] == s[at[j]])
    && (forall i :: 0 <= i < |s| && keep(s[i]) ==> i in at)
  }

  /** `r` is `s` without the elements that are not to be kept, in the same order. */
  ghost predicate IsFilter<T>(s: seq<T>, keep: T -> bool, r: seq<T>)
  {
    exists at :: KeptAt(s, keep, r, at)
  }

  lemma {:induction false} FilterAt<T>(s: seq<T>, keep: T -> bool) returns (at: seq<int>)
    ensures KeptAt(s, keep, Filter(s, keep), at)
    decreases |s|
  {
    at := [];
    if s != [] {
      var k := |s| - 1;
      at := FilterAt(s[..k], keep);
      FilterMore(s, keep, Filter(s[..k], keep), at);
      if keep(s[k]) { at := at + [k]; }
    }
  }

  lemma FilterExactly<T>(s: seq<T>, keep: T -> bool)
    ensures IsFilter(s, keep, Filter(s, keep))
  {
    var at := FilterAt(s, keep);
  }

  lemma FilterMore<T>(s: seq<T>, keep: T -> bool, r: seq<T>, at: seq<int>)
    requires s != [] && KeptAt(s[..|s| - 1], keep, r, at)
    ensures var k := |s| - 1;
      if keep(s[k]) then KeptAt(s, keep, r + [s[k]], at + [k]) else KeptAt(s, keep, r, at)
  {
    var k := |s| - 1;
    forall i | 0 <= i < k && keep(s[i]) ensures i in at && i in at + [k] { assert s[..k][i] == s[i]; }
  }

  lemma {:induction false} FilterCounts<T>(s: seq<T>, keep: T -> bool, x: T)
    ensures multiset(Filter(s, keep))[x] == if keep(x) then multiset(s)[x] else 0
    decreases |s|
  {
    if s != [] {
      FilterCounts(s[..|s| - 1], keep, x);
      SplitLast(s);
    }
  }

  lemma {:induction false} OnceEach<T>(s: seq<T>, x: T)
    requires Distinct(s)
    ensures multiset(s)[x] <= 1
    decreases |s|
  {
    if s != [] {
      var k := |s| - 1;
      OnceEach(s[..k], x);
      assert s == s[..k] + [s[k]];
      assert s[k] !in s[..k];
      assert s[k] !in multiset(s[..k]);
    }
  }

  lemma TwiceCounted<T>(s: seq<T>, i: nat, j: nat)
    requires i < j < |s| && s[i] == s[j]
    ensures multiset(s)[s[i]] >= 2
  {
    assert s == s[..i] + [s[i]] + s[i + 1..j] + [s[j]] + s[j + 1..];
  }

  lemma SameElements<T>(a: seq<T>, b: seq<T>)
    requires multiset(a) == multiset(b)
    ensures Elements(a) == Elements(b) && |a| == |b|
    ensures forall i :: 0 <= i < |a| ==> a[i] in Elements(b)
  {
    assert |multiset(a)| == |a| && |multiset(b)| == |b|;
    forall x ensures x in Elements(a) <==> x in Elements(b) {
      assert x in a <==> x in multiset(a);
      assert x in b <==> x in multiset(b);
    }
  }

  /** The sorted form of a list without repetitions. */
  lemma SortedDistinct(s: seq<int>, t: seq<int>)
    requires Distinct(s) && multiset(t) == multiset(s) && forall i, j :: 0 <= i < j < |t| ==> t[i] <= t[j]
    ensures Ascending(t)
  {
    forall i, j | 0 <= i < j < |t| ensures t[i] < t[j] {
      OnceEach(s, t[i]);
      if t[i] == t[j] { TwiceCounted(t, i, j); }
    }
  }

  lemma SubsetSize<T>(a: set<T>, b: set<T>)
    requires a <= b
    ensures |a| <= |b| && (|a| == |b| ==> a == b)
  {
    var rest := b - a;
    assert b == a + rest && |b| == |a| + |rest|;
  }

  ghost function Any<T>(s: set<T>): (x: T)
    requires s != {}
    ensures x in s
  {
    var x :| x in s; x
  }

  ghost function Greatest(s: set<int>): (m: int)
    requires s != {}
    ensures m in s && forall x :: x in s ==> x <= m
    decreases |s|
  {
    var x := Any(s);
    var rest := s - {x};
    assert |rest| == |s| - 1;
    assert forall y :: y in s ==> y == x || y in rest;
    if rest == {} then x else var m := Greatest(rest); if m > x then m else x
  }

  // ----- lexicographic order on strings -----

  /** Go's `<` on strings, which is also etcd's order on keys. */
  predicate Less(a: string, b: string)
    decreases |a|
  {
    b != [] && (a == [] || a[0] < b[0] || (a[0] == b[0] && Less(a[1..], b[1..])))
  }

  lemma {:induction false} LessTotal(a: string, b: string)
    ensures Less(a, b) || a == b || Less(b, a)
    decreases |a|
  {
    if a != [] && b != [] && a[0] == b[0] {
      LessTotal(a[1..], b[1..]);
      assert a == [a[0]] + a[1..] && b == [b[0]] + b[1..];
    }
  }

  lemma {:induction false} LessTransitive(a: string, b: string, c: string)
    requires Less(a, b) && Less(b, c)
    ensures Less(a, c)
    decreases |a|
  {
    if a != [] && a[0] == b[0] == c[0] { LessTransitive(a[1..], b[1..], c[1..]); }
  }

  lemma {:induction false} LessIrreflexive(a: string)
    ensures !Less(a, a)
    decreases |a|
  {
    if a != [] { LessIrreflexive(a[1..]); }
  }

  lemma LessAsymmetric(a: string, b: string)
    requires Less(a, b)
    ensures !Less(b, a) && a != b
  {
    if Less(b, a) { LessTransitive(a, b, a); }
    LessIrreflexive(a);
  }

  lemma TailOfConcat(p: string, a: string)
    requires p != []
    ensures (p + a)[1..] == p[1..] + a && (p + a)[0] == p[0]
  {
  }

  /** A shared prefix plays no part in the comparison. */
  lemma {:induction false} LessUnderPrefix(p: string, a: string, b: string)
    ensures Less(p + a, p + b) <==> Less(a, b)
    decreases |p|
  {
    if p == [] {
      assert p + a == a && p + b == b;
    } else {
      TailOfConcat(p, a);
      TailOfConcat(p, b);
      LessUnderPrefix(p[1..], a, b);
    }
  }

  // ----- sorting -----

  /** `lt` orders strictly and totally. */
  ghost predicate StrictTotal<T(!new)>(lt: (T, T) -> bool)
  {
    && (forall x, y :: lt(x, y) || x == y || lt(y, x))
    && (forall x, y :: lt(x, y) ==> !lt(y, x) && x != y)
    && (forall x, y, z :: lt(x, y) && lt(y, z) ==> lt(x, z))
  }

  ghost predicate SortedBy<T>(s: seq<T>, lt: (T, T) -> bool)
  {
    forall i, j :: 0 <= i < j < |s| ==> !lt(s[j], s[i])
  }

  /** A sorted arrangement of given elements is unique. */
  lemma {:induction false} SortedUnique<T(!new)>(a: seq<T>, b: seq<T>, lt: (T, T) -> bool)
    requires StrictTotal(lt) && SortedBy(a, lt) && SortedBy(b, lt) && multiset(a) == multiset(b)
    ensures a == b
    decreases |a|
  {
    assert |multiset(a)| == |a| && |multiset(b)| == |b|;
    if a != [] {
      assert a[0] in multiset(b) && b[0] in multiset(a);
      assert a[0] == b[0];
      SplitFirst(a);
      SplitFirst(b);
      SortedUnique(a[1..], b[1..], lt);
    }
  }

  predicate NatLess(a: nat, b: nat) { a < b }

  lemma NatLessTotal()
    ensures StrictTotal(NatLess)
  {}

  lemma StringLessTotal()
    ensures StrictTotal(Less)
  {
    forall x, y ensures Less(x, y) || x == y || Less(y, x) { LessTotal(x, y); }
    forall x, y | Less(x, y) ensures !Less(y, x) && x != y { LessAsymmetric(x, y); }
    forall x, y, z | Less(x, y) && Less(y, z) ensures Less(x, z) { LessTransitive(x, y, z); }
  }

  /** What `sort.Slice` needs of its comparison. */
  ghost predicate WeakOrder<T(!new)>(lt: (T, T) -> bool)
  {
    && (forall x, y, z :: lt(x, y) && !lt(z, y) ==> lt(x, z))
    && (forall x, y :: lt(x, y) ==> !lt(y, x))
  }

  lemma InsertedSorted<T>(s: seq<T>, x: T, i: nat, lt: (T, T) -> bool)
    requires SortedBy(s, lt) && i <= |s|
    requires forall j :: 0 <= j < i ==> !lt(x, s[j])
    requires forall j :: i <= j < |s| ==> !lt(s[j], x)
    ensures SortedBy(s[..i] + [x] + s[i..], lt)
  {}

  /** Inserts `x` into a sorted sequence behind the elements that are not greater. */
  method Insert<T(!new)>(s: seq<T>, x: T, lt: (T, T) -> bool) returns (r: seq<T>)
    requires SortedBy(s, lt) && WeakOrder(lt)
    ensures SortedBy(r, lt) && multiset(r) == multiset(s) + multiset{x}
  {
    var i := |s|;
    while i > 0 && lt(x, s[i - 1])
      invariant 0 <= i <= |s|
      invariant forall j :: i <= j < |s| ==> !lt(s[j], x)
    {
      i := i - 1;
    }
    forall j | 0 <= j < i ensures !lt(x, s[j]) {
      if j < i - 1 { assert !lt(s[i - 1], s[j]); }
    }
    InsertedSorted(s, x, i, lt);
    r := s[..i] + [x] + s[i..];
    assert s == s[..i] + s[i..];
  }

  /** `sort.Slice`: a sorted permutation; among equal elements the order is not promised. */
  method Sort<T(!new)>(s: seq<T>, lt: (T, T) -> bool) returns (r: seq<T>)
    requires WeakOrder(lt)
    ensures SortedBy(r, lt) && multiset(r) == multiset(s)
  {
    r := [];
    for i := 0 to |s|
      invariant SortedBy(r, lt) && multiset(r) == multiset(s[..i])
    {
      r := Insert(r, s[i], lt);
      assert s[..i + 1] == s[..i] + [s[i]];
    }
    assert s[..|s|] == s;
  }

  // ----- runs of a state machine -----

  ghost predicate IsRun<S(!new)>(next: (S, S) -> bool, run: seq<S>)
  {
    |run| > 0 && forall i :: 0 < i < |run| ==> next(run[i - 1], run[i])
  }

  /** `b` can be reached from `a` by finitely many steps. */
  ghost predicate Reaches<S(!new)>(next: (S, S) -> bool, a: S, b: S)
  {
    exists run :: IsRun(next, run) && run[0] == a && run[|run| - 1] == b
  }

  lemma ReachesSelf<S(!new)>(next: (S, S) -> bool, a: S)
    ensures Reaches(next, a, a)
  {
    assert IsRun(next, [a]);
  }

  lemma ReachesStep<S(!new)>(next: (S, S) -> bool, a: S, b: S, c: S)
    requires Reaches(next, a, b) && next(b, c)
    ensures Reaches(next, a, c)
  {
    var run :| IsRun(next, run) && run[0] == a && run[|run| - 1] == b;
    assert IsRun(next, run + [c]);
    assert (run + [c])[0] == a && (run + [c])[|run + [c]| - 1] == c;
  }

  lemma ReachesTransitive<S(!new)>(next: (S, S) -> bool, a: S, b: S, c: S)
    requires Reaches(next, a, b) && Reaches(next, b, c)
    ensures Reaches(next, a, c)
  {
    var r1 :| IsRun(next, r1) && r1[0] == a && r1[|r1| - 1] == b;
    var r2 :| IsRun(next, r2) && r2[0] == b && r2[|r2| - 1] == c;
    var r := r1 + r2[1..];
    forall i | 0 < i < |r| ensures next(r[i - 1], r[i]) {
      if i >= |r1| { assert r[i] == r2[i - |r1| + 1]; }
    }
    assert IsRun(next, r) && r[0] == a && r[|r| - 1] == c;
  }

  /** The induction principle for runs: what the first state has and every step keeps,
      every state of the run has. */
  lemma {:induction false} HoldsThroughout<S(!new)>(next: (S, S) -> bool, inv: S -> bool, run: seq<S>)
    requires IsRun(next, run) && inv(run[0])
    requires forall s, t :: inv(s) && next(s, t) ==> inv(t)
    ensures forall i :: 0 <= i < |run| ==> inv(run[i])
  {
    for i := 1 to |run|
      invariant forall k :: 0 <= k < i ==> inv(run[k])
    {
      assert next(run[i - 1], run[i]);
    }
  }
}
