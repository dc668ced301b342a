/** The versions a procedure was made for: checkValid of manager_impl.go and the merging of a batch in
    batch_transfer_leader.go. */
module Versions {
  import opened Common

  datatype Info = Info(clusterID: nat, shardWithVersion: map<nat, nat>, clusterVersion: nat)

  /** The cluster version and the shard versions of the current topology. */
  datatype Snapshot = Snapshot(clusterVersion: nat, shards: map<nat, nat>)

  predicate ShardCurrent(x: nat, version: nat, snap: Snapshot)
  {
    x in snap.shards && snap.shards[x] == version
  }

  predicate Current(info: Info, snap: Snapshot)
  {
    && info.clusterVersion == snap.clusterVersion
    && forall x :: x in info.shardWithVersion ==> ShardCurrent(x, info.shardWithVersion[x], snap)
  }

  method CheckValid(info: Info, snap: Snapshot) returns (ok: bool)
    ensures ok <==> Current(info, snap)
  {
    if info.clusterVersion != snap.clusterVersion { return false; }
    var rest := info.shardWithVersion.Keys;
    while rest != {}
      invariant rest <= info.shardWithVersion.Keys
      invariant forall x :: x in info.shardWithVersion && x !in rest ==> ShardCurrent(x, info.shardWithVersion[x], snap)
      decreases |rest|
    {
      var x := Pick(rest);
      if x !in snap.shards { return false; }
      if snap.shards[x] != info.shardWithVersion[x] { return false; }
      assert |rest - {x}| == |rest| - 1;
      rest := rest - {x};
    }
    return true;
  }

  // ----- merging -----

  /** No shard has two versions. */
  ghost predicate Agree(a: map<nat, nat>, b: map<nat, nat>)
  {
    forall x :: x in a && x in b ==> a[x] == b[x]
  }

  ghost predicate SameVersions(a: Info, b: Info)
  {
    a.clusterVersion == b.clusterVersion && Agree(a.shardWithVersion, b.shardWithVersion)
  }

  ghost predicate Consistent(a: Info, b: Info)
  {
    a.clusterID == b.clusterID && SameVersions(a, b)
  }

  ghost predicate AllConsistent(batch: seq<Info>)
  {
    forall i, j :: 0 <= i < |batch| && 0 <= j < |batch| ==> Consistent(batch[i], batch[j])
  }

  ghost predicate Covers(m: map<nat, nat>, batch: seq<Info>)
  {
    forall i :: 0 <= i < |batch| ==> batch[i].shardWithVersion.Keys <= m.Keys && Agree(batch[i].shardWithVersion, m)
  }

  ghost predicate Somewhere(x: nat, version: nat, batch: seq<Info>)
  {
    exists i :: 0 <= i < |batch| && x in batch[i].shardWithVersion && batch[i].shardWithVersion[x] == version
  }

  /** The map has the shards of the batch with their versions, and nothing else. */
  ghost predicate IsUnion(m: map<nat, nat>, batch: seq<Info>)
  {
    Covers(m, batch) && forall x :: x in m ==> Somewhere(x, m[x], batch)
  }

  /** The merged shards of some members agree with another member exactly when each of those members does. */
  lemma UnionAgrees(m: map<nat, nat>, batch: seq<Info>, b: Info)
    requires IsUnion(m, batch)
    ensures Agree(m, b.shardWithVersion) <==>
      forall i :: 0 <= i < |batch| ==> Agree(batch[i].shardWithVersion, b.shardWithVersion)
  {
    if Agree(m, b.shardWithVersion) {
      forall i | 0 <= i < |batch| ensures Agree(batch[i].shardWithVersion, b.shardWithVersion) {
        assert batch[i].shardWithVersion.Keys <= m.Keys && Agree(batch[i].shardWithVersion, m);
      }
    }
    if forall i :: 0 <= i < |batch| ==> Agree(batch[i].shardWithVersion, b.shardWithVersion) {
      forall x | x in m && x in b.shardWithVersion ensures m[x] == b.shardWithVersion[x] {
        assert Somewhere(x, m[x], batch);
        var i :| 0 <= i < |batch| && x in batch[i].shardWithVersion && batch[i].shardWithVersion[x] == m[x];
        assert Agree(batch[i].shardWithVersion, b.shardWithVersion);
      }
    }
  }

  lemma CoversStep(m: map<nat, nat>, batch: seq<Info>, b: Info, n: map<nat, nat>)
    requires Covers(m, batch) && Agree(m, b.shardWithVersion) && n == m + b.shardWithVersion
    ensures Covers(n, batch + [b])
  {
    forall i | 0 <= i < |batch|
      ensures batch[i].shardWithVersion.Keys <= n.Keys && Agree(batch[i].shardWithVersion, n) {
      assert batch[i].shardWithVersion.Keys <= m.Keys && Agree(batch[i].shardWithVersion, m);
      forall x | x in batch[i].shardWithVersion ensures x in n && n[x] == batch[i].shardWithVersion[x] {
        assert x in m.Keys;
      }
    }
  }

  lemma SomewhereMore(x: nat, version: nat, batch: seq<Info>, b: Info)
    requires Somewhere(x, version, batch) || (x in b.shardWithVersion && b.shardWithVersion[x] == version)
    ensures Somewhere(x, version, batch + [b])
  {
    if Somewhere(x, version, batch) {
      var i :| 0 <= i < |batch| && x in batch[i].shardWithVersion && batch[i].shardWithVersion[x] == version;
      assert (batch + [b])[i] == batch[i];
    } else {
      assert (batch + [b])[|batch|] == b;
    }
  }

  lemma UnionStep(m: map<nat, nat>, batch: seq<Info>, b: Info, n: map<nat, nat>)
    requires IsUnion(m, batch) && Agree(m, b.shardWithVersion) && n == m + b.shardWithVersion
    ensures IsUnion(n, batch + [b])
  {
    CoversStep(m, batch, b, n);
    forall x | x in n ensures Somewhere(x, n[x], batch + [b]) {
      SomewhereMore(x, n[x], batch, b);
    }
  }

  predicate SameCluster(a: Info, b: Info)
  {
    a.clusterID == b.clusterID && a.clusterVersion == b.clusterVersion
  }

  lemma ConsistentStep(batch: seq<Info>, k: nat, m: map<nat, nat>)
    requires 0 < |batch| && k < |batch| && AllConsistent(batch[..k]) && IsUnion(m, batch[..k])
    ensures AllConsistent(batch[..k + 1]) <==>
      Agree(m, batch[k].shardWithVersion) && SameCluster(batch[0], batch[k])
  {
    UnionAgrees(m, batch[..k], batch[k]);
    var some, more := batch[..k], batch[..k + 1];
    assert forall i :: 0 <= i < k ==> some[i] == more[i] == batch[i];
    if AllConsistent(more) {
      forall i | 0 <= i < k ensures Agree(some[i].shardWithVersion, batch[k].shardWithVersion) {
        assert Consistent(more[i], more[k]);
      }
      if k > 0 { assert Consistent(more[0], more[k]); }
    } else if Agree(m, batch[k].shardWithVersion) && SameCluster(batch[0], batch[k]) {
      forall i, j | 0 <= i < |more| && 0 <= j < |more| ensures Consistent(more[i], more[j]) {
        if i < k { assert Agree(some[i].shardWithVersion, batch[k].shardWithVersion) && Consistent(some[0], some[i]); }
        if j < k { assert Agree(some[j].shardWithVersion, batch[k].shardWithVersion) && Consistent(some[0], some[j]); }
        if i < k && j < k { assert Consistent(some[i], some[j]); }
      }
    }
  }

  /** Adds the shards of one member; None when a shard has another version already. */
  method MergeShards(m: map<nat, nat>, b: map<nat, nat>) returns (r: Option<map<nat, nat>>)
    ensures r.Some? <==> Agree(m, b)
    ensures r.Some? ==> r.value == m + b
  {
    var n, rest := m, b.Keys;
    while rest != {}
      invariant rest <= b.Keys && n.Keys == m.Keys + (b.Keys - rest)
      invariant forall x :: x in m ==> n[x] == m[x]
      invariant forall x :: x in b && x !in rest ==> n[x] == b[x]
      decreases |rest|
    {
      var x := Pick(rest);
      if x in n {
        if b[x] != n[x] { return None; }
      } else {
        n := n[x := b[x]];
      }
      assert |rest - {x}| == |rest| - 1;
      rest := rest - {x};
    }
    return Some(n);
  }

  /** Merging succeeds exactly when the cluster and the versions of all members agree pairwise, and gives
      their common cluster and cluster version and the union of their shards. */
  method BuildBatchRelatedVersionInfo(batch: seq<Info>) returns (r: Option<Info>)
    ensures batch == [] ==> r == Some(Info(0, map[], 0))
    ensures batch != [] ==> (r.Some? <==> AllConsistent(batch))
    ensures batch != [] && r.Some? ==> IsMerged(r.value, batch)
  {
    if batch == [] { return Some(Info(0, map[], 0)); }
    var result := Info(batch[0].clusterID, map[], batch[0].clusterVersion);
    var k := 0;
    while k < |batch|
      invariant 0 <= k <= |batch| && AllConsistent(batch[..k])
      invariant result.clusterID == batch[0].clusterID && result.clusterVersion == batch[0].clusterVersion
      invariant IsUnion(result.shardWithVersion, batch[..k])
    {
      ConsistentStep(batch, k, result.shardWithVersion);
      PrefixConsistent(batch, k + 1);
      if batch[k].clusterID != result.clusterID { return None; }
      if batch[k].clusterVersion != result.clusterVersion { return None; }
      var merged := MergeShards(result.shardWithVersion, batch[k].shardWithVersion);
      if merged.None? { return None; }
      UnionStep(result.shardWithVersion, batch[..k], batch[k], merged.value);
      assert batch[..k + 1] == batch[..k] + [batch[k]];
      result := result.(shardWithVersion := merged.value);
      k := k + 1;
    }
    assert batch[..k] == batch;
    return Some(result);
  }

  lemma PrefixConsistent(batch: seq<Info>, k: nat)
    requires k <= |batch|
    ensures AllConsistent(batch) ==> AllConsistent(batch[..k])
  {
  }

  ghost predicate IsMerged(r: Info, batch: seq<Info>)
  {
    && IsUnion(r.shardWithVersion, batch)
    && forall i :: 0 <= i < |batch| ==> batch[i].clusterID == r.clusterID && batch[i].clusterVersion == r.clusterVersion
  }

  ghost predicate AllCurrent(batch: seq<Info>, snap: Snapshot)
  {
    forall i :: 0 <= i < |batch| ==> Current(batch[i], snap)
  }

  /** On any topology the batch is valid exactly when every member is. */
  lemma BatchCurrentExactly(r: Info, batch: seq<Info>, snap: Snapshot)
    requires batch != [] && IsMerged(r, batch)
    ensures Current(r, snap) <==> AllCurrent(batch, snap)
  {
    var m := r.shardWithVersion;
    if Current(r, snap) {
      forall i | 0 <= i < |batch| ensures Current(batch[i], snap) {
        assert batch[i].shardWithVersion.Keys <= m.Keys && Agree(batch[i].shardWithVersion, m);
        forall x | x in batch[i].shardWithVersion ensures ShardCurrent(x, batch[i].shardWithVersion[x], snap) {
          assert x in m.Keys;
          assert ShardCurrent(x, m[x], snap);
        }
      }
    }
    if AllCurrent(batch, snap) {
      assert Current(batch[0], snap);
      forall x | x in m ensures ShardCurrent(x, m[x], snap) {
        assert Somewhere(x, m[x], batch);
        var i :| 0 <= i < |batch| && x in batch[i].shardWithVersion && batch[i].shardWithVersion[x] == m[x];
        assert Current(batch[i], snap);
      }
    }
  }

  lemma CurrentTogether(a: Info, b: Info, snap: Snapshot)
    requires Current(a, snap) && Current(b, snap)
    ensures SameVersions(a, b)
  {
    forall x | x in a.shardWithVersion && x in b.shardWithVersion
      ensures a.shardWithVersion[x] == b.shardWithVersion[x]
    {
      assert ShardCurrent(x, a.shardWithVersion[x], snap) && ShardCurrent(x, b.shardWithVersion[x], snap);
    }
  }

  /** Members of one cluster are merged exactly when there is a topology on which all of them are valid. */
  lemma MergeableExactly(batch: seq<Info>, r: Info)
    requires batch != [] && (AllConsistent(batch) ==> IsMerged(r, batch))
    requires forall i :: 0 <= i < |batch| ==> batch[i].clusterID == batch[0].clusterID
    ensures AllConsistent(batch) <==> exists snap :: AllCurrent(batch, snap)
  {
    if AllConsistent(batch) {
      var snap := Snapshot(r.clusterVersion, r.shardWithVersion);
      BatchCurrentExactly(r, batch, snap);
      assert AllCurrent(batch, snap);
    } else if snap :| AllCurrent(batch, snap) {
      forall i, j | 0 <= i < |batch| && 0 <= j < |batch| ensures Consistent(batch[i], batch[j]) {
        CurrentTogether(batch[i], batch[j], snap);
      }
    }
  }
}
