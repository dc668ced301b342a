/** delay_queue.go: a bounded queue of procedures, ordered by the time from which they may run, over the binary
    heap of container/heap. The clock is a parameter. */
module DelayQueue {
  import opened Common
  import opened Versions

  datatype Proc = Proc(id: nat, info: Info)

  datatype Entry = Entry(proc: Proc, runAfter: int)

  // ----- the heap order -----

  function Parent(i: nat): nat
    requires i > 0
  {
    (i - 1) / 2
  }

  predicate Above(q: seq<Entry>, i: nat)
    requires 0 < i < |q|
  {
    q[Parent(i)].runAfter <= q[i].runAfter
  }

  ghost predicate HeapOk(q: seq<Entry>)
  {
    forall i: nat :: 0 < i < |q| ==> Above(q, i)
  }

  function Swap(q: seq<Entry>, i: nat, j: nat): (r: seq<Entry>)
    requires i < |q| && j < |q|
    ensures |r| == |q|
    ensures forall k :: 0 <= k < |q| ==> r[k] == if k == i then q[j] else if k == j then q[i] else q[k]
  {
    q[i := q[j]][j := q[i]]
  }

  /** The first entry is a least one. */
  lemma {:induction false} FirstIsLeast(q: seq<Entry>, i: nat)
    requires HeapOk(q) && i < |q|
    ensures q[0].runAfter <= q[i].runAfter
    decreases i
  {
    if i > 0 {
      assert Above(q, i);
      FirstIsLeast(q, Parent(i));
    }
  }

  /** A heap but for entry j, which may be smaller than its parent. */
  ghost predicate UpInv(q: seq<Entry>, j: nat)
  {
    && j < |q|
    && (forall i: nat :: 0 < i < |q| && i != j ==> Above(q, i))
    && (forall i: nat :: 0 < i < |q| && 0 < j ==> Parent(i) == j ==> q[Parent(j)].runAfter <= q[i].runAfter)
  }

  lemma UpStep(q: seq<Entry>, j: nat, r: seq<Entry>)
    requires UpInv(q, j) && j > 0 && q[j].runAfter < q[Parent(j)].runAfter && r == Swap(q, Parent(j), j)
    ensures UpInv(r, Parent(j))
  {
    var p := Parent(j);
    forall i: nat | 0 < i < |r| && i != p ensures Above(r, i) {
      assert i != j ==> Above(q, i);
    }
    if p > 0 {
      assert Above(q, p);
      forall i: nat | 0 < i < |r| && Parent(i) == p ensures r[Parent(p)].runAfter <= r[i].runAfter {
        assert i != j ==> Above(q, i);
      }
    }
  }

  lemma UpDone(q: seq<Entry>, j: nat)
    requires UpInv(q, j) && (j == 0 || q[Parent(j)].runAfter <= q[j].runAfter)
    ensures HeapOk(q)
  {
    assert j > 0 ==> Above(q, j);
  }

  /** The first n entries are a heap but for the children of entry k. */
  ghost predicate DownInv(q: seq<Entry>, n: nat, k: nat)
  {
    && k < n <= |q|
    && (forall i: nat :: 0 < i < n && Parent(i) != k ==> Above(q, i))
    && (forall i: nat :: 0 < i < n && 0 < k ==> Parent(i) == k ==> q[Parent(k)].runAfter <= q[i].runAfter)
  }

  lemma DownStep(q: seq<Entry>, n: nat, k: nat, j: nat, r: seq<Entry>)
    requires DownInv(q, n, k) && 0 < j < n && Parent(j) == k && q[j].runAfter < q[k].runAfter && r == Swap(q, k, j)
    requires forall c: nat :: 0 < c < n && Parent(c) == k ==> q[j].runAfter <= q[c].runAfter
    ensures DownInv(r, n, j)
  {
    forall i: nat | 0 < i < n && Parent(i) != j ensures Above(r, i) {
      if Parent(i) != k { assert Above(q, i); }
    }
    forall i: nat | 0 < i < n && Parent(i) == j ensures r[Parent(j)].runAfter <= r[i].runAfter {
      assert Above(q, i);
    }
  }

  lemma DownDone(q: seq<Entry>, n: nat, k: nat)
    requires DownInv(q, n, k) && forall c: nat :: 0 < c < n && Parent(c) == k ==> q[k].runAfter <= q[c].runAfter
    ensures HeapOk(q[..n])
  {
    forall i: nat | 0 < i < |q[..n]| ensures Above(q[..n], i) {
      if Parent(i) != k { assert Above(q, i); }
    }
  }

  lemma SwapLast(q: seq<Entry>, r: seq<Entry>)
    requires HeapOk(q) && |q| > 1 && r == Swap(q, 0, |q| - 1)
    ensures DownInv(r, |q| - 1, 0)
  {
    forall i: nat | 0 < i < |q| - 1 && Parent(i) != 0 ensures Above(r, i) { assert Above(q, i); }
  }

  // ----- the entries of the heap -----

  ghost predicate Has(q: seq<Entry>, id: nat)
  {
    exists i :: 0 <= i < |q| && q[i].proc.id == id
  }

  /** The heap lists the entries of the map, each once. */
  ghost predicate Lists(q: seq<Entry>, m: map<nat, Entry>)
  {
    && |q| == |m|
    && (forall i :: 0 <= i < |q| ==> q[i].proc.id in m && m[q[i].proc.id] == q[i])
    && (forall i, j :: 0 <= i < j < |q| ==> q[i].proc.id != q[j].proc.id)
    && (forall id :: id in m ==> Has(q, id))
  }

  lemma SwapLists(q: seq<Entry>, m: map<nat, Entry>, i: nat, j: nat, r: seq<Entry>)
    requires Lists(q, m) && i < |q| && j < |q| && r == Swap(q, i, j)
    ensures Lists(r, m)
  {
    forall id | id in m ensures Has(r, id) {
      assert Has(q, id);
      var k :| 0 <= k < |q| && q[k].proc.id == id;
      var l := if k == i then j else if k == j then i else k;
      assert r[l].proc.id == id;
    }
  }

  lemma PushedEntries(q: seq<Entry>, m: map<nat, Entry>, e: Entry, r: seq<Entry>, n: map<nat, Entry>)
    requires forall i :: 0 <= i < |q| ==> q[i].proc.id in m && m[q[i].proc.id] == q[i]
    requires e.proc.id !in m && r == q + [e] && n == m[e.proc.id := e]
    ensures forall i :: 0 <= i < |r| ==> r[i].proc.id in n && n[r[i].proc.id] == r[i]
  {
    forall i | 0 <= i < |r| ensures r[i].proc.id in n && n[r[i].proc.id] == r[i] {
      if i < |q| { assert r[i] == q[i]; }
    }
  }

  lemma PushedDistinct(q: seq<Entry>, m: map<nat, Entry>, e: Entry, r: seq<Entry>)
    requires (forall i :: 0 <= i < |q| ==> q[i].proc.id in m) && e.proc.id !in m && r == q + [e]
    requires forall i, j :: 0 <= i < j < |q| ==> q[i].proc.id != q[j].proc.id
    ensures forall i, j :: 0 <= i < j < |r| ==> r[i].proc.id != r[j].proc.id
  {
    forall i, j | 0 <= i < j < |r| ensures r[i].proc.id != r[j].proc.id {
      assert r[i] == q[i];
      if j < |q| { assert r[j] == q[j]; }
    }
  }

  lemma PushLists(q: seq<Entry>, m: map<nat, Entry>, e: Entry)
    requires Lists(q, m) && e.proc.id !in m
    ensures Lists(q + [e], m[e.proc.id := e])
  {
    var r, n := q + [e], m[e.proc.id := e];
    assert |r| == |n| by { assert n.Keys == m.Keys + {e.proc.id}; }
    PushedEntries(q, m, e, r, n);
    PushedDistinct(q, m, e, r);
    assert Has(r, e.proc.id) by { assert r[|q|].proc.id == e.proc.id; }
    forall id | id in m ensures Has(r, id) { StillHas(q, e, id); }
  }

  lemma StillHas(q: seq<Entry>, e: Entry, id: nat)
    requires Has(q, id)
    ensures Has(q + [e], id)
  {
    var k :| 0 <= k < |q| && q[k].proc.id == id;
    assert (q + [e])[k].proc.id == id;
  }

  lemma PopLists(q: seq<Entry>, m: map<nat, Entry>, r: seq<Entry>, e: Entry)
    requires Lists(q, m) && |q| > 0 && r == q[..|q| - 1] && e == q[|q| - 1]
    ensures Lists(r, m - {e.proc.id}) && e.proc.id in m && m[e.proc.id] == e
  {
    var n := m - {e.proc.id};
    assert n.Keys == m.Keys - {e.proc.id};
    assert |n.Keys| == |m.Keys| - 1;
    forall id | id in n ensures Has(r, id) {
      assert Has(q, id);
      var k :| 0 <= k < |q| && q[k].proc.id == id;
      assert r[k].proc.id == id;
    }
  }

  datatype Pushed = Pushed | QueueFull | Duplicated

  class Queue {
    const maxLen: nat
    var heap: seq<Entry>
    var existingProcs: set<nat>
    /** The entries by the ID of their procedure. */
    ghost var pending: map<nat, Entry>

    ghost predicate Valid()
      reads this
    {
      && HeapOk(heap)
      && Lists(heap, pending)
      && existingProcs == pending.Keys
      && |heap| <= maxLen
    }

    constructor (max: nat)
      ensures Valid() && pending == map[] && maxLen == max
    {
      maxLen, heap, existingProcs, pending := max, [], {}, map[];
    }

    method Up(j0: nat)
      requires UpInv(heap, j0) && Lists(heap, pending)
      modifies this`heap
      ensures HeapOk(heap) && Lists(heap, pending)
    {
      var j := j0;
      while j > 0 && heap[j].runAfter < heap[Parent(j)].runAfter
        invariant UpInv(heap, j) && Lists(heap, pending)
        decreases j
      {
        var next := Swap(heap, Parent(j), j);
        UpStep(heap, j, next);
        SwapLists(heap, pending, Parent(j), j, next);
        heap := next;
        j := Parent(j);
      }
      UpDone(heap, j);
    }

    method Down(n: nat)
      requires n == 0 || DownInv(heap, n, 0)
      requires n <= |heap| && Lists(heap, pending)
      modifies this`heap
      ensures |heap| == old(|heap|) && HeapOk(heap[..n]) && Lists(heap, pending)
      ensures heap[n..] == old(heap[n..])
    {
      if n == 0 { return; }
      var k := 0;
      while true
        invariant Sinking(heap, pending, n, k, old(heap))
        decreases n - k
      {
        var j := 2 * k + 1;
        if j >= n {
          SunkLeaf(heap, n, k);
          return;
        }
        if j + 1 < n && heap[j + 1].runAfter < heap[j].runAfter { j := j + 1; }
        if !(heap[j].runAfter < heap[k].runAfter) {
          Sunk(heap, n, k, j);
          return;
        }
        SinkStep(heap, pending, n, k, j, old(heap), Swap(heap, k, j));
        heap := Swap(heap, k, j);
        k := j;
      }
    }

    /** Refuses when the queue is full, then when it has the procedure already. */
    method Push(p: Proc, delay: int, now: int) returns (r: Pushed)
      requires Valid()
      modifies this
      ensures Valid()
      ensures r == if |old(pending)| >= maxLen then QueueFull else if p.id in old(pending) then Duplicated else Pushed
      ensures pending == if r.Pushed? then old(pending)[p.id := Entry(p, now + delay)] else old(pending)
    {
      if |heap| >= maxLen { return QueueFull; }
      if p.id in existingProcs { return Duplicated; }
      var e := Entry(p, now + delay);
      PushLists(heap, pending, e);
      Appended(heap, e);
      heap := heap + [e];
      pending := pending[p.id := e];
      Up(|heap| - 1);
      existingProcs := existingProcs + {p.id};
      return Pushed.Pushed;
    }

    /** Gives out a procedure whose time is least, once that time has come, and nothing before. */
    method Pop(now: int) returns (r: Option<Proc>)
      requires Valid()
      modifies this
      ensures Valid()
      ensures r.None? ==> pending == old(pending) && forall id :: id in pending ==> pending[id].runAfter > now
      ensures r.Some? ==> Least(old(pending), r.value, now) && pending == old(pending) - {r.value.id}
    {
      if |heap| == 0 { return None; }
      var e := heap[0];
      LeastPending(heap, pending);
      if now < e.runAfter { return None; }
      HeapPop();
      existingProcs := existingProcs - {e.proc.id};
      return Some(e.proc);
    }

    method HeapPop()
      requires HeapOk(heap) && Lists(heap, pending) && |heap| > 0
      modifies this`heap, this`pending
      ensures HeapOk(heap) && Lists(heap, pending) && |heap| == old(|heap|) - 1
      ensures pending == old(pending) - {old(heap[0].proc.id)}
    {
      var n, first := |heap| - 1, heap[0];
      var swapped := Swap(heap, 0, n);
      SwapLists(heap, pending, 0, n, swapped);
      if n > 0 { SwapLast(heap, swapped); }
      heap := swapped;
      Down(n);
      assert heap[n..][0] == first;
      PopLists(heap, pending, heap[..n], first);
      heap := heap[..n];
      pending := pending - {first.proc.id};
    }
  }

  /** The first n entries of the heap are being put in order from entry k down. */
  ghost predicate Sinking(q: seq<Entry>, m: map<nat, Entry>, n: nat, k: nat, was: seq<Entry>)
  {
    DownInv(q, n, k) && Lists(q, m) && |q| == |was| && q[n..] == was[n..]
  }

  /** The smaller child of entry k. */
  predicate IsChild(q: seq<Entry>, n: nat, k: nat, j: nat)
    requires n <= |q|
  {
    && 2 * k + 1 < n
    && j == if 2 * k + 2 < n && q[2 * k + 2].runAfter < q[2 * k + 1].runAfter then 2 * k + 2 else 2 * k + 1
  }

  lemma SinkStep(q: seq<Entry>, m: map<nat, Entry>, n: nat, k: nat, j: nat, was: seq<Entry>, r: seq<Entry>)
    requires Sinking(q, m, n, k, was) && IsChild(q, n, k, j) && q[j].runAfter < q[k].runAfter && r == Swap(q, k, j)
    ensures Sinking(r, m, n, j, was)
  {
    LeastChild(q, n, k, j);
    DownStep(q, n, k, j, r);
    SwapLists(q, m, k, j, r);
    assert r[n..] == q[n..];
  }

  lemma Sunk(q: seq<Entry>, n: nat, k: nat, j: nat)
    requires DownInv(q, n, k) && IsChild(q, n, k, j) && q[k].runAfter <= q[j].runAfter
    ensures HeapOk(q[..n])
  {
    LeastChild(q, n, k, j);
    DownDone(q, n, k);
  }

  lemma SunkLeaf(q: seq<Entry>, n: nat, k: nat)
    requires DownInv(q, n, k) && 2 * k + 1 >= n
    ensures HeapOk(q[..n])
  {
    assert forall c: nat :: 0 < c < n ==> Parent(c) != k;
    DownDone(q, n, k);
  }

  /** The procedure is pending, due, and none is pending for an earlier time. */
  ghost predicate Least(m: map<nat, Entry>, p: Proc, now: int)
  {
    && p.id in m && m[p.id].proc == p && m[p.id].runAfter <= now
    && forall id :: id in m ==> m[p.id].runAfter <= m[id].runAfter
  }

  lemma LeastPending(q: seq<Entry>, m: map<nat, Entry>)
    requires HeapOk(q) && Lists(q, m) && |q| > 0
    ensures q[0].proc.id in m && m[q[0].proc.id] == q[0] && forall id :: id in m ==> q[0].runAfter <= m[id].runAfter
  {
    forall id | id in m ensures q[0].runAfter <= m[id].runAfter {
      assert Has(q, id);
      var k: nat :| k < |q| && q[k].proc.id == id;
      FirstIsLeast(q, k);
    }
  }

  lemma Appended(q: seq<Entry>, e: Entry)
    requires HeapOk(q)
    ensures UpInv(q + [e], |q|)
  {
    forall i: nat | 0 < i < |q| ensures Above(q + [e], i) { assert Above(q, i); }
  }

  lemma LeastChild(q: seq<Entry>, n: nat, k: nat, j: nat)
    requires n <= |q| && IsChild(q, n, k, j)
    ensures Parent(j) == k && forall c: nat :: 0 < c < n && Parent(c) == k ==> q[j].runAfter <= q[c].runAfter
  {
  }
}
