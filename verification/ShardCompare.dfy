/** needUpdate of cluster_metadata.go: whether the shards a node reports differ from the cached ones. Only their IDs
    are compared. */
module ShardCompare {
  import opened Common

  const SORT_FROM: nat := 50

  ghost predicate Same(cached: seq<nat>, reported: seq<nat>)
  {
    multiset(cached) == multiset(reported)
  }

  method SortCompare(cached: seq<nat>, reported: seq<nat>) returns (same: bool)
    ensures same <==> Same(cached, reported)
  {
    assert |multiset(cached)| == |cached| && |multiset(reported)| == |reported|;
    if |cached| != |reported| { return false; }
    var oldIDs := Sort(cached, NatLess);
    var curIDs := Sort(reported, NatLess);
    assert |multiset(oldIDs)| == |oldIDs| && |multiset(curIDs)| == |curIDs|;
    if Same(cached, reported) {
      NatLessTotal();
      SortedUnique(oldIDs, curIDs, NatLess);
    }
    for i := 0 to |curIDs|
      invariant oldIDs[..i] == curIDs[..i]
    {
      if curIDs[i] != oldIDs[i] { return false; }
    }
    assert oldIDs == oldIDs[..|curIDs|] == curIDs[..|curIDs|] == curIDs;
    return true;
  }

  predicate Simple(cached: seq<nat>, reported: seq<nat>)
  {
    |cached| == |reported| && forall i :: 0 <= i < |cached| ==> cached[i] in reported
  }

  method SimpleCompare(cached: seq<nat>, reported: seq<nat>) returns (same: bool)
    ensures same <==> Simple(cached, reported)
  {
    if |cached| != |reported| { return false; }
    var i := 0;
    while i < |reported|
      invariant 0 <= i <= |reported| && forall k :: 0 <= k < i ==> cached[k] in reported
    {
      var found, j := false, 0;
      while j < |reported| && !found
        invariant 0 <= j <= |reported| && (found ==> cached[i] in reported) && (!found ==> cached[i] !in reported[..j])
        decreases |reported| - j, !found
      {
        if cached[i] == reported[j] { found := true; } else { j := j + 1; }
      }
      if !found {
        assert reported[..j] == reported;
        return false;
      }
      i := i + 1;
    }
    return true;
  }

  /** Without duplicates among the cached shards the simple comparison is right. */
  lemma {:induction false} SimpleRight(a: seq<nat>, b: seq<nat>)
    requires Distinct(a) && Simple(a, b)
    ensures Same(a, b)
    decreases |a|
  {
    if a != [] {
      var k := |a| - 1;
      var j :| 0 <= j < |b| && b[j] == a[k];
      var rest := b[..j] + b[j + 1..];
      assert b == b[..j] + [b[j]] + b[j + 1..];
      forall i | 0 <= i < k ensures a[..k][i] in rest {
        assert a[i] in b && a[i] != b[j];
      }
      SimpleRight(a[..k], rest);
      assert a == a[..k] + [a[k]];
    }
  }

  lemma {:induction false} SameIsSimple(a: seq<nat>, b: seq<nat>)
    requires Same(a, b)
    ensures Simple(a, b)
  {
    assert |multiset(a)| == |a| && |multiset(b)| == |b|;
    forall i | 0 <= i < |a| ensures a[i] in b { assert a[i] in multiset(b); }
  }

  function Above(s: seq<nat>): (m: nat)
    ensures forall i :: 0 <= i < |s| ==> s[i] < m
  {
    if s == [] then 0
    else
      var k := |s| - 1;
      var m := Above(s[..k]);
      assert forall i :: 0 <= i < k ==> s[i] == s[..k][i];
      if s[k] < m then m else s[k] + 1
  }

  /** With a duplicate it takes some changed report for unchanged. */
  lemma SimpleFooled(a: seq<nat>, i: nat, j: nat) returns (b: seq<nat>)
    requires i < j < |a| && a[i] == a[j]
    ensures Simple(a, b) && !Same(a, b)
  {
    b := a[j := Above(a)];
    forall k | 0 <= k < |a| ensures a[k] in b {
      assert b[if k == j then i else k] == a[k];
    }
    assert b[j] in multiset(b);
    assert forall k :: 0 <= k < |a| ==> a[k] != b[j];
    assert b[j] !in multiset(a);
  }

  /** The simple comparison is right for every report exactly when no shard is cached twice. */
  lemma SimpleExactly(a: seq<nat>)
    ensures (forall b :: Simple(a, b) <==> Same(a, b)) <==> Distinct(a)
  {
    if Distinct(a) {
      forall b ensures Simple(a, b) <==> Same(a, b) {
        if Simple(a, b) { SimpleRight(a, b); }
        if Same(a, b) { SameIsSimple(a, b); }
      }
    } else {
      var i: nat, j: nat :| i < j < |a| && a[i] == a[j];
      var b := SimpleFooled(a, i, j);
    }
  }

  /** From fifty cached shards on, or without duplicates among them, an update is needed exactly when the shards
      have changed; a changed set of shards never goes unseen by the sorted comparison. */
  method NeedUpdate(cached: seq<nat>, reported: seq<nat>) returns (need: bool)
    ensures |cached| >= SORT_FROM || Distinct(cached) ==> (need <==> !Same(cached, reported))
    ensures need ==> !Same(cached, reported)
  {
    if Same(cached, reported) { SameIsSimple(cached, reported); }
    if Distinct(cached) && Simple(cached, reported) { SimpleRight(cached, reported); }
    if |cached| >= SORT_FROM {
      var same := SortCompare(cached, reported);
      return !same;
    }
    var same := SimpleCompare(cached, reported);
    return !same;
  }
}
