/** key_path.go: where the metadata lies in etcd, and why ListTables finds exactly the tables of one schema.

    path.Join leaves clean components alone, so a key is its components with slashes between; names that contain
    components which path.Join would remove are not part of this model. */
module KeyPath {
  import opened Common
  import opened Scan

  const WIDTH: nat := 20
  const MAX_UINT64: nat := 0xFFFF_FFFF_FFFF_FFFF

  /** The things that have keys. */
  datatype Item =
    | Cluster(cluster: nat)
    | LatestClusterView(cluster: nat)
    | ClusterView(cluster: nat, version: nat)
    | Schema(cluster: nat, schema: nat)
    | Table(cluster: nat, schema: nat, table: nat)
    | NameToID(cluster: nat, schema: nat, name: string)
    | LatestShardView(cluster: nat, shard: nat)
    | ShardView(cluster: nat, shard: nat, version: nat)
    | Node(cluster: nat, name: string)

  // ----- fmtID -----

  function Power(n: nat): nat
  {
    if n == 0 then 1 else 10 * Power(n - 1)
  }

  function Digit(d: nat): char
    requires d < 10
  {
    '0' + d as char
  }

  /** The decimal digits, padded with zeros. */
  function Padded(id: nat, width: nat): (s: string)
    ensures |s| == width
    ensures forall i :: 0 <= i < width ==> '0' <= s[i] <= '9'
  {
    if width == 0 then [] else Padded(id / 10, width - 1) + [Digit(id % 10)]
  }

  function FmtID(id: nat): string { Padded(id, WIDTH) }

  lemma SnocLess(a: string, b: string, c: char, d: char)
    requires |a| == |b|
    ensures Less(a + [c], b + [d]) <==> Less(a, b) || (a == b && c < d)
    decreases |a|
  {
    if a == [] {
      assert a + [c] == [c] && b + [d] == [d];
    } else {
      SnocLess(a[1..], b[1..], c, d);
      assert (a + [c])[1..] == a[1..] + [c] && (b + [d])[1..] == b[1..] + [d];
      assert a == [a[0]] + a[1..] && b == [b[0]] + b[1..];
    }
  }

  /** Padded numbers are ordered and told apart as the numbers are. */
  lemma {:induction false} PaddedOrder(a: nat, b: nat, width: nat)
    requires a < Power(width) && b < Power(width)
    ensures Less(Padded(a, width), Padded(b, width)) <==> a < b
    ensures Padded(a, width) == Padded(b, width) <==> a == b
    decreases width
  {
    if width > 0 {
      PaddedOrder(a / 10, b / 10, width - 1);
      var x, y := Padded(a / 10, width - 1), Padded(b / 10, width - 1);
      SnocLess(x, y, Digit(a % 10), Digit(b % 10));
      SnocEqual(x, y, Digit(a % 10), Digit(b % 10));
    }
  }

  lemma SnocEqual(a: string, b: string, c: char, d: char)
    requires |a| == |b|
    ensures a + [c] == b + [d] <==> a == b && c == d
  {
    if a + [c] == b + [d] {
      assert (a + [c])[..|a|] == a && (b + [d])[..|a|] == b;
      assert (a + [c])[|a|] == c && (b + [d])[|a|] == d;
    }
  }

  lemma Uint64Fits()
    ensures MAX_UINT64 < Power(WIDTH)
  {
    assert Power(5) == 100000;
    assert Power(10) == 10000000000 by {
      assert Power(6) == 1000000 && Power(8) == 100000000;
    }
    assert Power(15) == 1000000000000000 by {
      assert Power(11) == 100000000000 && Power(13) == 10000000000000;
    }
    assert Power(16) == 10000000000000000 && Power(18) == 1000000000000000000;
    assert Power(20) == 100000000000000000000;
  }

  lemma FmtOrder(a: nat, b: nat)
    requires a <= MAX_UINT64 && b <= MAX_UINT64
    ensures Less(FmtID(a), FmtID(b)) <==> a < b
    ensures FmtID(a) == FmtID(b) <==> a == b
  {
    Uint64Fits();
    PaddedOrder(a, b, WIDTH);
  }

  /** The number a string of digits stands for. */
  function ValueOf(s: string): nat
    requires forall i :: 0 <= i < |s| ==> '0' <= s[i] <= '9'
  {
    if s == [] then 0 else var k := |s| - 1; 10 * ValueOf(s[..k]) + (s[k] as nat - '0' as nat)
  }

  lemma {:induction false} PaddedValue(id: nat, width: nat)
    requires id < Power(width)
    ensures ValueOf(Padded(id, width)) == id
    decreases width
  {
    if width > 0 {
      PaddedValue(id / 10, width - 1);
      var early, s := Padded(id / 10, width - 1), Padded(id, width);
      assert s[..width - 1] == early && s[width - 1] == Digit(id % 10);
    }
  }

  /** A formatted ID is twenty digits long and reads as the ID. */
  lemma FmtRoundTrip(id: nat)
    requires id <= MAX_UINT64
    ensures |FmtID(id)| == 20 && ValueOf(FmtID(id)) == id
  {
    Uint64Fits();
    PaddedValue(id, WIDTH);
  }

  // ----- keys -----

  /** What follows the cluster's ID. */
  function Tail(i: Item): string
    requires !i.Cluster?
  {
    match i
    case LatestClusterView(_) => "/cluster_view/latest_version"
    case ClusterView(_, v) => "/cluster_view/" + FmtID(v)
    case Schema(_, s) => "/schema/info/" + FmtID(s)
    case Table(_, s, t) => "/schema/" + (FmtID(s) + ("/table/" + FmtID(t)))
    case NameToID(_, s, n) => "/schema/" + (FmtID(s) + ("/table_name_to_id/" + n))
    case LatestShardView(_, s) => "/shard_view/" + (FmtID(s) + "/latest_version")
    case ShardView(_, s, v) => "/shard_view/" + (FmtID(s) + ("/" + FmtID(v)))
    case Node(_, n) => "/node/" + n
  }

  function Rest(i: Item): string
  {
    if i.Cluster? then "info/" + FmtID(i.cluster) else FmtID(i.cluster) + Tail(i)
  }

  function KeyOf(root: string, i: Item): string
  {
    root + "/v1/cluster/" + Rest(i)
  }

  ghost predicate Sized(i: Item)
  {
    && i.cluster <= MAX_UINT64
    && (i.Table? || i.NameToID? || i.Schema? ==> i.schema <= MAX_UINT64)
    && (i.Table? ==> i.table <= MAX_UINT64)
    && (i.LatestShardView? || i.ShardView? ==> i.shard <= MAX_UINT64)
    && (i.ShardView? || i.ClusterView? ==> i.version <= MAX_UINT64)
  }

  lemma SamePrefix(p: string, a: string, b: string)
    ensures p + a == p + b <==> a == b
  {
    if p + a == p + b { assert (p + a)[|p|..] == a && (p + b)[|p|..] == b; }
  }

  lemma SameWidth(p: string, q: string, a: string, b: string)
    requires |p| == |q|
    ensures p + a == q + b <==> p == q && a == b
  {
    if p + a == q + b {
      assert (p + a)[..|p|] == p && (q + b)[..|q|] == q;
      assert (p + a)[|p|..] == a && (q + b)[|q|..] == b;
    }
  }

  /** The characters by which the families of keys differ. */
  lemma Marks(i: Item, t: string)
    requires !i.Cluster? && t == Tail(i)
    ensures |t| >= 6 && t[1] == if i.LatestClusterView? || i.ClusterView? then 'c' else if i.Node? then 'n' else 's'
    ensures i.Schema? || i.Table? || i.NameToID? ==> t[2] == 'c' && |t| > 28 && (i.Schema? <==> t[8] == 'i')
    ensures i.Table? || i.NameToID? ==> |t| > 34 && t[34] == if i.Table? then '/' else '_'
    ensures i.LatestShardView? || i.ShardView? ==> t[2] == 'h' && |t| > 33 && (i.LatestShardView? <==> t[33] == 'l')
    ensures i.LatestClusterView? || i.ClusterView? ==> |t| > 14 && (i.LatestClusterView? <==> t[14] == 'l')
  {
    match i
    case Table(_, s, x) => assert t[34] == ("/table/" + FmtID(x))[6]; assert t[8] == FmtID(s)[0];
    case NameToID(_, s, n) => assert t[34] == ("/table_name_to_id/" + n)[6]; assert t[8] == FmtID(s)[0];
    case LatestShardView(_, s) => assert t[33] == "/latest_version"[1];
    case ShardView(_, s, v) => assert t[33] == ("/" + FmtID(v))[1] == FmtID(v)[0];
    case ClusterView(_, v) => assert t[14] == FmtID(v)[0];
    case _ =>
  }

  lemma SameKind(i: Item, j: Item)
    requires !i.Cluster? && !j.Cluster? && Tail(i) == Tail(j)
    ensures i.LatestClusterView? <==> j.LatestClusterView?
    ensures i.ClusterView? <==> j.ClusterView?
    ensures i.Schema? <==> j.Schema?
    ensures i.Table? <==> j.Table?
    ensures i.NameToID? <==> j.NameToID?
    ensures i.LatestShardView? <==> j.LatestShardView?
    ensures i.ShardView? <==> j.ShardView?
    ensures i.Node? <==> j.Node?
  {
    Marks(i, Tail(i));
    Marks(j, Tail(j));
  }

  lemma TailInjective(i: Item, j: Item)
    requires Sized(i) && Sized(j) && !i.Cluster? && !j.Cluster? && Tail(i) == Tail(j) && i.cluster == j.cluster
    ensures i == j
  {
    SameKind(i, j);
    match i
    case LatestClusterView(_) =>
    case ClusterView(_, v) => SamePrefix("/cluster_view/", FmtID(v), FmtID(j.version)); FmtOrder(v, j.version);
    case Schema(_, s) => SamePrefix("/schema/info/", FmtID(s), FmtID(j.schema)); FmtOrder(s, j.schema);
    case Table(_, s, t) =>
      var a, b := "/table/" + FmtID(t), "/table/" + FmtID(j.table);
      SamePrefix("/schema/", FmtID(s) + a, FmtID(j.schema) + b);
      SameWidth(FmtID(s), FmtID(j.schema), a, b);
      SamePrefix("/table/", FmtID(t), FmtID(j.table));
      FmtOrder(s, j.schema);
      FmtOrder(t, j.table);
    case NameToID(_, s, n) =>
      var a, b := "/table_name_to_id/" + n, "/table_name_to_id/" + j.name;
      SamePrefix("/schema/", FmtID(s) + a, FmtID(j.schema) + b);
      SameWidth(FmtID(s), FmtID(j.schema), a, b);
      SamePrefix("/table_name_to_id/", n, j.name);
      FmtOrder(s, j.schema);
    case LatestShardView(_, s) =>
      var a := "/latest_version";
      SamePrefix("/shard_view/", FmtID(s) + a, FmtID(j.shard) + a);
      SameWidth(FmtID(s), FmtID(j.shard), a, a);
      FmtOrder(s, j.shard);
    case ShardView(_, s, v) =>
      var a, b := "/" + FmtID(v), "/" + FmtID(j.version);
      SamePrefix("/shard_view/", FmtID(s) + a, FmtID(j.shard) + b);
      SameWidth(FmtID(s), FmtID(j.shard), a, b);
      SamePrefix("/", FmtID(v), FmtID(j.version));
      FmtOrder(s, j.shard);
      FmtOrder(v, j.version);
    case Node(_, n) => SamePrefix("/node/", n, j.name);
  }

  /** No two things share a key. */
  lemma KeysApart(root: string, i: Item, j: Item)
    requires Sized(i) && Sized(j)
    ensures KeyOf(root, i) == KeyOf(root, j) <==> i == j
  {
    SamePrefix(root + "/v1/cluster/", Rest(i), Rest(j));
    if Rest(i) == Rest(j) {
      assert i.Cluster? <==> Rest(i)[0] == 'i' by { if !i.Cluster? { assert Rest(i)[0] == FmtID(i.cluster)[0]; } }
      assert j.Cluster? <==> Rest(j)[0] == 'i' by { if !j.Cluster? { assert Rest(j)[0] == FmtID(j.cluster)[0]; } }
      FmtOrder(i.cluster, j.cluster);
      if i.Cluster? {
        SamePrefix("info/", FmtID(i.cluster), FmtID(j.cluster));
      } else {
        SameWidth(FmtID(i.cluster), FmtID(j.cluster), Tail(i), Tail(j));
        TailInjective(i, j);
      }
    }
  }

  // ----- the range of ListTables -----

  predicate HasPrefix(k: string, q: string)
  {
    |q| <= |k| && k[..|q|] == q
  }

  /** What lies between two strings with a common prefix has the prefix. */
  lemma {:induction false} BetweenHasPrefix(q: string, a: string, b: string, k: string)
    requires InRange(k, q + a, q + b)
    ensures HasPrefix(k, q)
    decreases |q|
  {
    if q != [] {
      assert (q + a)[1..] == q[1..] + a && (q + b)[1..] == q[1..] + b;
      assert k != [] && k[0] == q[0];
      BetweenHasPrefix(q[1..], a, b, k[1..]);
      assert k == [k[0]] + k[1..] && q == [q[0]] + q[1..];
      assert k[..|q|] == [k[0]] + k[1..][..|q| - 1];
    }
  }

  lemma PrefixSplit(p: string, q: string, x: string, y: string)
    requires |p| == |q| && HasPrefix(p + x, q + y)
    ensures p == q && HasPrefix(x, y)
  {
    assert (p + x)[..|q + y|][..|p|] == p && (q + y)[..|q|] == q;
    assert (p + x)[..|q + y|][|p|..] == x[..|y|] && (q + y)[|q|..] == y;
  }

  function TableTail(schema: nat): string
  {
    "/schema/" + (FmtID(schema) + "/table/")
  }

  function TablePrefix(root: string, cluster: nat, schema: nat): string
  {
    root + "/v1/cluster/" + (FmtID(cluster) + TableTail(schema))
  }

  lemma TableKey(root: string, cluster: nat, schema: nat, table: nat)
    ensures KeyOf(root, Table(cluster, schema, table)) == TablePrefix(root, cluster, schema) + FmtID(table)
  {
    var c, s, t := FmtID(cluster), FmtID(schema), FmtID(table);
    assert "/schema/" + (s + ("/table/" + t)) == TableTail(schema) + t;
    assert c + (TableTail(schema) + t) == (c + TableTail(schema)) + t;
  }

  /** The keys of a schema's tables are ordered as their IDs. */
  lemma TableKeyOrder(root: string, cluster: nat, schema: nat, t: nat, u: nat)
    requires t <= MAX_UINT64 && u <= MAX_UINT64
    ensures Less(KeyOf(root, Table(cluster, schema, t)), KeyOf(root, Table(cluster, schema, u))) <==> t < u
  {
    TableKey(root, cluster, schema, t);
    TableKey(root, cluster, schema, u);
    LessUnderPrefix(TablePrefix(root, cluster, schema), FmtID(t), FmtID(u));
    FmtOrder(t, u);
  }

  lemma TailOfTable(i: Item, schema: nat)
    requires !i.Cluster? && Sized(i) && schema <= MAX_UINT64 && HasPrefix(Tail(i), TableTail(schema))
    ensures i.Table? && i.schema == schema
  {
    var t, q := Tail(i), TableTail(schema);
    Marks(i, t);
    assert t[1] == q[1] && t[2] == q[2] && t[8] == q[8] && t[34] == q[34];
    assert q[8] == FmtID(schema)[0] && q[34] == "/table/"[6];
    assert i.Table?;
    var rest := "/table/" + FmtID(i.table);
    PrefixSplit("/schema/", "/schema/", FmtID(i.schema) + rest, FmtID(schema) + "/table/");
    PrefixSplit(FmtID(i.schema), FmtID(schema), rest, "/table/");
    FmtOrder(i.schema, schema);
  }

  lemma PrefixOfTable(root: string, i: Item, cluster: nat, schema: nat)
    requires Sized(i) && cluster <= MAX_UINT64 && schema <= MAX_UINT64
    requires HasPrefix(KeyOf(root, i), TablePrefix(root, cluster, schema))
    ensures i.Table? && i.cluster == cluster && i.schema == schema
  {
    var base := root + "/v1/cluster/";
    PrefixSplit(base, base, Rest(i), FmtID(cluster) + TableTail(schema));
    assert Rest(i)[0] == (FmtID(cluster) + TableTail(schema))[0] == FmtID(cluster)[0];
    assert !i.Cluster?;
    PrefixSplit(FmtID(i.cluster), FmtID(cluster), Tail(i), TableTail(schema));
    FmtOrder(i.cluster, cluster);
    TailOfTable(i, schema);
  }

  /** The range that ListTables scans has exactly the keys of the schema's tables with an ID below the greatest
      one; no other schema's, no name_to_id entry and no other family's. */
  lemma ListTablesRange(root: string, cluster: nat, schema: nat, i: Item, start: Key, end: Key)
    requires Sized(i) && cluster <= MAX_UINT64 && schema <= MAX_UINT64
    requires start == KeyOf(root, Table(cluster, schema, 0)) && end == KeyOf(root, Table(cluster, schema, MAX_UINT64))
    ensures InRange(KeyOf(root, i), start, end)
      <==> i.Table? && i.cluster == cluster && i.schema == schema && i.table < MAX_UINT64
  {
    var k, q := KeyOf(root, i), TablePrefix(root, cluster, schema);
    TableKey(root, cluster, schema, 0);
    TableKey(root, cluster, schema, MAX_UINT64);
    if InRange(k, start, end) {
      BetweenHasPrefix(q, FmtID(0), FmtID(MAX_UINT64), k);
      PrefixOfTable(root, i, cluster, schema);
    }
    if i.Table? && i.cluster == cluster && i.schema == schema {
      TableKeyOrder(root, cluster, schema, i.table, 0);
      TableKeyOrder(root, cluster, schema, i.table, MAX_UINT64);
    }
  }

  ghost function Keys(root: string, items: set<Item>): set<Key>
  {
    set i | i in items :: KeyOf(root, i)
  }

  /** The IDs behind the keys of a listing. */
  ghost predicate IsListing(ids: seq<nat>, visited: seq<Key>, root: string, cluster: nat, schema: nat, items: set<Item>)
  {
    && |ids| == |visited|
    && (forall i :: 0 <= i < |ids| ==> visited[i] == KeyOf(root, Table(cluster, schema, ids[i])))
    && (forall i, j :: 0 <= i < j < |ids| ==> ids[i] < ids[j])
    && (forall t: nat :: t in ids <==> Table(cluster, schema, t) in items && t < MAX_UINT64)
  }

  lemma ListedKey(root: string, cluster: nat, schema: nat, items: set<Item>, start: Key, end: Key, k: Key)
      returns (t: nat)
    requires forall i :: i in items ==> Sized(i)
    requires cluster <= MAX_UINT64 && schema <= MAX_UINT64
    requires start == KeyOf(root, Table(cluster, schema, 0)) && end == KeyOf(root, Table(cluster, schema, MAX_UINT64))
    requires k in Keys(root, items) && InRange(k, start, end)
    ensures Table(cluster, schema, t) in items && t < MAX_UINT64 && k == KeyOf(root, Table(cluster, schema, t))
  {
    var i :| i in items && k == KeyOf(root, i);
    ListTablesRange(root, cluster, schema, i, start, end);
    t := i.table;
    assert i == Table(cluster, schema, t);
  }

  /** The table key behind every key of a listing. */
  ghost predicate AreTables(ids: seq<nat>, visited: seq<Key>, root: string, cluster: nat, schema: nat, items: set<Item>)
  {
    |ids| == |visited| && forall i :: 0 <= i < |ids| ==> IsTable(ids[i], visited[i], root, cluster, schema, items)
  }

  ghost predicate IsTable(t: nat, k: Key, root: string, cluster: nat, schema: nat, items: set<Item>)
  {
    Table(cluster, schema, t) in items && t < MAX_UINT64 && k == KeyOf(root, Table(cluster, schema, t))
  }

  lemma {:induction false} ListedIDs(visited: seq<Key>, root: string, cluster: nat, schema: nat, items: set<Item>,
      start: Key, end: Key) returns (ids: seq<nat>)
    requires forall i :: i in items ==> Sized(i)
    requires cluster <= MAX_UINT64 && schema <= MAX_UINT64
    requires start == KeyOf(root, Table(cluster, schema, 0)) && end == KeyOf(root, Table(cluster, schema, MAX_UINT64))
    requires forall i :: 0 <= i < |visited| ==> visited[i] in Keys(root, items) && InRange(visited[i], start, end)
    ensures AreTables(ids, visited, root, cluster, schema, items)
    decreases |visited|
  {
    ids := [];
    if visited != [] {
      var n := |visited| - 1;
      ids := ListedIDs(visited[..n], root, cluster, schema, items, start, end);
      var t := ListedKey(root, cluster, schema, items, start, end, visited[n]);
      ListedMore(ids, visited, root, cluster, schema, items, t);
      ids := ids + [t];
    }
  }

  lemma ListedMore(ids: seq<nat>, visited: seq<Key>, root: string, cluster: nat, schema: nat, items: set<Item>, t: nat)
    requires visited != [] && AreTables(ids, visited[..|visited| - 1], root, cluster, schema, items)
    requires IsTable(t, visited[|visited| - 1], root, cluster, schema, items)
    ensures AreTables(ids + [t], visited, root, cluster, schema, items)
  {
    var more, n := ids + [t], |ids|;
    forall i | 0 <= i < |more| ensures IsTable(more[i], visited[i], root, cluster, schema, items) {
      if i < n {
        assert more[i] == ids[i] && visited[..n][i] == visited[i];
        assert IsTable(ids[i], visited[..n][i], root, cluster, schema, items);
      } else {
        assert i == n && more[i] == t;
      }
    }
  }

  lemma ListedInOrder(ids: seq<nat>, visited: seq<Key>, root: string, cluster: nat, schema: nat, items: set<Item>)
    requires AreTables(ids, visited, root, cluster, schema, items) && InKeyOrder(visited)
    ensures forall i, j :: 0 <= i < j < |ids| ==> ids[i] < ids[j]
  {
    forall i, j | 0 <= i < j < |ids| ensures ids[i] < ids[j] {
      assert IsTable(ids[i], visited[i], root, cluster, schema, items)
        && IsTable(ids[j], visited[j], root, cluster, schema, items);
      TableKeyOrder(root, cluster, schema, ids[i], ids[j]);
    }
  }

  /** A finished scan by ListTables of a store that does not change gives exactly the schema's tables with an ID
      below the greatest one, in the order of their IDs. */
  lemma ListTablesExactly(visited: seq<Key>, root: string, cluster: nat, schema: nat, items: set<Item>, start: Key,
      end: Key) returns (ids: seq<nat>)
    requires forall i :: i in items ==> Sized(i)
    requires cluster <= MAX_UINT64 && schema <= MAX_UINT64
    requires start == KeyOf(root, Table(cluster, schema, 0)) && end == KeyOf(root, Table(cluster, schema, MAX_UINT64))
    requires IsScan(Finished, visited, Keys(root, items), Keys(root, items), start, end, {})
    ensures IsListing(ids, visited, root, cluster, schema, items)
  {
    ids := ListedIDs(visited, root, cluster, schema, items, start, end);
    ListedInOrder(ids, visited, root, cluster, schema, items);
    forall t: nat | Table(cluster, schema, t) in items && t < MAX_UINT64 ensures t in ids {
      TableIsListed(visited, root, cluster, schema, items, start, end, ids, t);
    }
    forall t: nat | t in ids ensures Table(cluster, schema, t) in items && t < MAX_UINT64 {
      var i :| 0 <= i < |ids| && ids[i] == t;
      assert IsTable(ids[i], visited[i], root, cluster, schema, items);
    }
    forall i | 0 <= i < |ids| ensures visited[i] == KeyOf(root, Table(cluster, schema, ids[i])) {
      assert IsTable(ids[i], visited[i], root, cluster, schema, items);
    }
  }

  lemma TableIsListed(visited: seq<Key>, root: string, cluster: nat, schema: nat, items: set<Item>, start: Key,
      end: Key, ids: seq<nat>, t: nat)
    requires cluster <= MAX_UINT64 && schema <= MAX_UINT64 && t < MAX_UINT64
    requires start == KeyOf(root, Table(cluster, schema, 0)) && end == KeyOf(root, Table(cluster, schema, MAX_UINT64))
    requires Complete(visited, Keys(root, items), start, end)
    requires AreTables(ids, visited, root, cluster, schema, items)
    requires Table(cluster, schema, t) in items
    ensures t in ids
  {
    var item := Table(cluster, schema, t);
    ListTablesRange(root, cluster, schema, item, start, end);
    assert KeyOf(root, item) in Keys(root, items);
    var i :| 0 <= i < |visited| && visited[i] == KeyOf(root, item);
    assert IsTable(ids[i], visited[i], root, cluster, schema, items);
    KeysApart(root, item, Table(cluster, schema, ids[i]));
  }
}
