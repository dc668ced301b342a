/** Scan of etcdutil/util.go: reading a range of keys in batches, where each batch starts again at the last key
    of the one before. Others may add and delete keys between two requests. What a scan gives to its callback is a
    function of its trace, the store and the answer at each request; the laws are lemmas about traces. */
module Scan {
  import opened Common

  type Key = string

  predicate InRange(k: Key, start: Key, end: Key)
  {
    !Less(k, start) && Less(k, end)
  }

  ghost predicate InKeyOrder(r: seq<Key>)
  {
    forall i, j :: 0 <= i < j < |r| ==> Less(r[i], r[j])
  }

  /** The answer of a range request: the first keys of the range, all of them when the limit is not positive or
      not reached. */
  ghost predicate IsBatch(r: seq<Key>, keys: set<Key>, start: Key, end: Key, limit: int)
  {
    && InKeyOrder(r)
    && (forall i :: 0 <= i < |r| ==> r[i] in keys && InRange(r[i], start, end))
    && (limit > 0 ==> |r| <= limit)
    && (forall k :: k in keys && InRange(k, start, end) ==> k in r || (0 < limit == |r| && Less(r[|r| - 1], k)))
  }

  method LeastKey(s: set<Key>) returns (k: Key)
    requires s != {}
    ensures k in s && forall x :: x in s ==> x == k || Less(k, x)
  {
    k := Pick(s);
    var rest := s - {k};
    assert |rest| == |s| - 1;
    while rest != {}
      invariant rest <= s && k in s && forall x :: x in s ==> x in rest || x == k || Less(k, x)
      decreases |rest|
    {
      var x := Pick(rest);
      assert |rest - {x}| == |rest| - 1;
      rest := rest - {x};
      LessTotal(x, k);
      if Less(x, k) {
        forall y | y in s && Less(k, y) ensures Less(x, y) { LessTransitive(x, k, y); }
        k := x;
      }
    }
  }

  lemma AscendingSnoc(r: seq<Key>, k: Key)
    requires InKeyOrder(r) && (r == [] || Less(r[|r| - 1], k))
    ensures InKeyOrder(r + [k])
  {
    forall i | 0 <= i < |r| ensures Less(r[i], k) {
      if i < |r| - 1 { LessTransitive(r[i], r[|r| - 1], k); }
    }
  }

  /** The store. */
  class Etcd {
    var keys: set<Key>
    /** All the keys that are ever there while a scan runs: finitely many, so that it ends. */
    ghost const bound: set<Key>
    /** The requests that were answered, and how many were not. */
    ghost var log: seq<Request>
    ghost var misses: nat

    constructor (keys: set<Key>, ghost bound: set<Key>)
      requires keys <= bound
      ensures this.keys == keys && this.bound == bound && log == [] && misses == 0
    {
      this.keys := keys;
      this.bound := bound;
      log, misses := [], 0;
    }

    /** What others may do between two requests: they add and delete keys. */
    method Others()
      requires keys <= bound
      modifies this`keys
      ensures keys <= bound
    {
    }

    /** A range request; None for an error, and for a context that was cancelled meanwhile. */
    method Get(start: Key, end: Key, limit: int) returns (r: Option<seq<Key>>)
      modifies this`log, this`misses
      ensures r.Some? ==> IsBatch(r.value, keys, start, end, limit)
      ensures misses == old(misses) + if r.Some? then 0 else 1
      ensures log == if r.Some? then old(log) + [Request(start, keys, r.value)] else old(log)
    {
      var fails := *;
      if fails {
        misses := misses + 1;
        return None;
      }
      var batch := FirstKeys(keys, start, end, limit);
      log := log + [Request(start, keys, batch)];
      return Some(batch);
    }

    static method FirstKeys(keys: set<Key>, start: Key, end: Key, limit: int) returns (batch: seq<Key>)
      ensures IsBatch(batch, keys, start, end, limit)
    {
      var rest := set k | k in keys && InRange(k, start, end);
      batch := [];
      while rest != {} && (limit <= 0 || |batch| < limit)
        invariant rest <= keys && InKeyOrder(batch) && (limit > 0 ==> |batch| <= limit)
        invariant forall i :: 0 <= i < |batch| ==> batch[i] in keys && InRange(batch[i], start, end)
        invariant forall k :: k in rest ==> batch == [] || Less(batch[|batch| - 1], k)
        invariant forall k :: k in keys && InRange(k, start, end) ==> k in rest || k in batch
        invariant forall k :: k in rest ==> InRange(k, start, end)
        decreases |rest|
      {
        var k := LeastKey(rest);
        AscendingSnoc(batch, k);
        assert |rest - {k}| == |rest| - 1;
        rest := rest - {k};
        batch := batch + [k];
      }
    }
  }

  /** The callback with what it has been given; it returns an error for some of the keys. */
  class Callback {
    var seen: seq<Key>
    const rejects: set<Key>

    constructor (rejects: set<Key>)
      ensures seen == [] && this.rejects == rejects
    {
      seen := [];
      this.rejects := rejects;
    }

    method Do(k: Key) returns (ok: bool)
      modifies this
      ensures seen == old(seen) + [k] && (ok <==> k !in rejects)
    {
      seen := seen + [k];
      return k !in rejects;
    }
  }

  ghost predicate NoneIn(r: seq<Key>, s: set<Key>)
  {
    forall i :: 0 <= i < |r| ==> r[i] !in s
  }

  /** The keys given to the callback so far: in the range, in order, each once. */
  ghost predicate Sound(r: seq<Key>, keys: set<Key>, start: Key, end: Key)
  {
    InKeyOrder(r) && forall i :: 0 <= i < |r| ==> r[i] in keys && InRange(r[i], start, end)
  }

  /** No key of the range is passed over. */
  ghost predicate NoGap(r: seq<Key>, keys: set<Key>, start: Key, end: Key)
  {
    forall k :: k in keys && InRange(k, start, end) ==> k in r || r == [] || Less(r[|r| - 1], k)
  }

  ghost predicate Complete(r: seq<Key>, keys: set<Key>, start: Key, end: Key)
  {
    forall k :: k in keys && InRange(k, start, end) ==> k in r
  }

  lemma {:induction false} AscendingConcat(a: seq<Key>, b: seq<Key>)
    requires InKeyOrder(a) && InKeyOrder(b) && (a == [] || b == [] || Less(a[|a| - 1], b[0]))
    ensures InKeyOrder(a + b)
    decreases |b|
  {
    if b == [] {
      assert a + b == a;
    } else {
      var k := |b| - 1;
      if k > 0 { AscendingConcat(a, b[..k]); } else { assert a + b[..k] == a; }
      assert a + b == (a + b[..k]) + [b[k]];
      AscendingSnoc(a + b[..k], b[k]);
    }
  }

  /** A later batch begins with the last key of the one before, as long as that key is there. */
  lemma BatchRepeats(resp: seq<Key>, keys: set<Key>, last: Key, end: Key, limit: int)
    requires IsBatch(resp, keys, last, end, limit) && last in keys && Less(last, end)
    ensures resp != [] && resp[0] == last
  {
    LessIrreflexive(last);
    assert InRange(last, last, end);
    assert resp == [] || (InRange(resp[0], last, end) && InRange(resp[|resp| - 1], last, end));
    assert last in resp;
    var i :| 0 <= i < |resp| && resp[i] == last;
  }

  lemma SoundMore(r: seq<Key>, was: set<Key>, keys: set<Key>, resp: seq<Key>, start: Key, end: Key, limit: int)
    requires Sound(r, was, start, end) && r != [] && was <= keys && IsBatch(resp, keys, r[|r| - 1], end, limit)
    requires resp != [] && resp[0] == r[|r| - 1]
    ensures Sound(r + resp[1..], keys, start, end)
  {
    var more := resp[1..];
    assert InKeyOrder(more);
    if more != [] { assert more[0] == resp[1]; }
    AscendingConcat(r, more);
    forall i | 0 <= i < |more| ensures more[i] in keys && InRange(more[i], start, end) {
      assert more[i] == resp[i + 1];
      NotBefore(start, r[|r| - 1], more[i]);
    }
  }

  lemma NotBefore(a: Key, b: Key, c: Key)
    requires !Less(b, a) && !Less(c, b)
    ensures !Less(c, a)
  {
    LessTotal(a, b);
    if Less(c, a) && Less(a, b) { LessTransitive(c, a, b); }
  }

  lemma NoGapMore(r: seq<Key>, old0: set<Key>, keys: set<Key>, resp: seq<Key>, start: Key, end: Key, limit: int)
    requires NoGap(r, old0, start, end) && r != [] && old0 <= keys && IsBatch(resp, keys, r[|r| - 1], end, limit)
    requires resp != [] && resp[0] == r[|r| - 1]
    ensures NoGap(r + resp[1..], old0, start, end)
    ensures limit <= 0 || |resp| < limit ==> Complete(r + resp[1..], old0, start, end)
  {
    var last, next := r[|r| - 1], r + resp[1..];
    assert next[|next| - 1] == resp[|resp| - 1];
    forall k | k in old0 && InRange(k, start, end)
      ensures k in next || (0 < limit == |resp| && Less(next[|next| - 1], k))
    {
      if k !in r {
        LessAsymmetric(last, k);
        assert InRange(k, last, end);
        assert k in resp ==> k in next;
      }
    }
  }

  datatype Outcome = Finished | Rejected | Failed

  /** The callback on each item but the end key, up to the first error; `n` items are accepted. It has been given
      `done` by this scan, after what it was given `before`. */
  method VisitAll(items: seq<Key>, end: Key, callback: Callback, ghost before: seq<Key>, ghost done: seq<Key>)
      returns (ok: bool, ghost n: nat)
    requires forall i :: 0 <= i < |items| ==> Less(items[i], end)
    requires callback.seen == before + done
    modifies callback
    ensures n <= |items| && NoneIn(items[..n], callback.rejects)
    ensures ok ==> n == |items| && callback.seen == before + (done + items)
    ensures !ok ==> n < |items| && items[n] in callback.rejects && callback.seen == before + (done + items[..n + 1])
  {
    var i := 0;
    assert done + items[..0] == done;
    while i < |items|
      invariant 0 <= i <= |items| && callback.seen == before + (done + items[..i])
      invariant NoneIn(items[..i], callback.rejects)
    {
      LessIrreflexive(end);
      if items[i] != end {
        ok := callback.Do(items[i]);
        assert done + items[..i + 1] == done + items[..i] + [items[i]];
        if !ok { return false, i; }
      }
      i := i + 1;
    }
    assert items[..i] == items;
    return true, i;
  }

  /** What has been given to the callback when the scan stops. */
  ghost predicate IsScan(r: Outcome, visited: seq<Key>, was: set<Key>, now: set<Key>, start: Key, end: Key,
      rejects: set<Key>)
  {
    && Sound(visited, now, start, end)
    && NoGap(visited, was, start, end)
    && match r
       case Finished => Complete(visited, was, start, end) && NoneIn(visited, rejects)
       case Rejected => visited != [] && visited[|visited| - 1] in rejects && NoneIn(visited[..|visited| - 1], rejects)
       case Failed => NoneIn(visited, rejects)
  }

  lemma PrefixSound(r: seq<Key>, n: nat, keys: set<Key>, was: set<Key>, start: Key, end: Key)
    requires Sound(r, keys, start, end) && NoGap(r, was, start, end) && n <= |r|
    ensures Sound(r[..n], keys, start, end) && NoGap(r[..n], was, start, end)
  {
    if 0 < n < |r| {
      forall k | k in was && InRange(k, start, end) ensures k in r[..n] || Less(r[n - 1], k) {
        if k in r {
          var i :| 0 <= i < |r| && r[i] == k;
          if i < n { assert r[..n][i] == k; }
        } else {
          LessTransitive(r[n - 1], r[|r| - 1], k);
        }
      }
    }
  }

  lemma StoppedAt(visited: seq<Key>, items: seq<Key>, n: nat, was: set<Key>, now: set<Key>, start: Key, end: Key,
      rejects: set<Key>)
    requires Sound(visited + items, now, start, end) && NoGap(visited + items, was, start, end)
    requires n < |items| && items[n] in rejects && NoneIn(items[..n], rejects) && NoneIn(visited, rejects)
    ensures IsScan(Rejected, visited + items[..n + 1], was, now, start, end, rejects)
  {
    var r := visited + items[..n + 1];
    assert r == (visited + items)[..|r|];
    PrefixSound(visited + items, |r|, now, was, start, end);
    assert r[..|r| - 1] == visited + items[..n];
  }

  ghost predicate Going(r: seq<Key>, was: set<Key>, keys: set<Key>, start: Key, end: Key, batchSize: int)
  {
    && Sound(r, keys, start, end) && NoGap(r, was, start, end)
    && (batchSize <= 0 ==> Complete(r, was, start, end))
  }

  /** One more batch: it repeats one key, and what follows it goes on without a gap. A short one is the last. */
  lemma Round(r: seq<Key>, before: set<Key>, keys: set<Key>, was: set<Key>, resp: seq<Key>, start: Key, end: Key,
      batchSize: int)
    requires r != [] && was <= before <= keys && Going(r, was, before, start, end, batchSize)
    requires IsBatch(resp, keys, r[|r| - 1], end, batchSize + 1)
    ensures resp != [] && (forall i :: 0 <= i < |resp[1..]| ==> Less(resp[1..][i], end))
    ensures Going(r + resp[1..], was, keys, start, end, batchSize)
    ensures (r + resp[1..])[|r + resp[1..]| - 1] == resp[|resp| - 1]
    ensures |resp| <= 1 ==> Complete(r, was, start, end)
    ensures |resp| < batchSize ==> Complete(r + resp[1..], was, start, end)
  {
    var last := r[|r| - 1];
    BatchRepeats(resp, keys, last, end, batchSize + 1);
    SoundMore(r, before, keys, resp, start, end, batchSize + 1);
    NoGapMore(r, was, keys, resp, start, end, batchSize + 1);
    if |resp| == 1 { assert r + resp[1..] == r; }
    if batchSize <= 0 { StillComplete(r, resp[1..], was, start, end); }
    forall i | 0 <= i < |resp[1..]| ensures Less(resp[1..][i], end) { assert resp[1..][i] == resp[i + 1]; }
  }

  lemma NoneInBoth(a: seq<Key>, b: seq<Key>, s: set<Key>)
    requires NoneIn(a, s) && NoneIn(b, s)
    ensures NoneIn(a + b, s)
  {
  }

  lemma StillComplete(r: seq<Key>, more: seq<Key>, was: set<Key>, start: Key, end: Key)
    requires Complete(r, was, start, end)
    ensures Complete(r + more, was, start, end)
  {
  }

  // ----- traces -----

  /** One request that was answered: where its range begins, the store at that time, and the answer. */
  datatype Request = Request(from: Key, keys: set<Key>, resp: seq<Key>)

  function LimitOf(i: nat, batchSize: int): int
  {
    if i == 0 then batchSize else batchSize + 1
  }

  /** The scan goes on after request i of its trace. */
  predicate GoesOn(q: Request, i: nat, batchSize: int)
  {
    if i == 0 then q.resp != [] else |q.resp| >= 2 && |q.resp| >= batchSize
  }

  function EndOf(q: Request): Key
    requires q.resp != []
  {
    q.resp[|q.resp| - 1]
  }

  predicate Follows(p: Request, q: Request)
  {
    p.resp != [] && q.from == EndOf(p)
  }

  ghost predicate IsRequest(q: Request, i: nat, end: Key, batchSize: int)
  {
    IsBatch(q.resp, q.keys, q.from, end, LimitOf(i, batchSize))
  }

  /** The answered requests of a scan. */
  ghost predicate IsTrace(trace: seq<Request>, start: Key, end: Key, batchSize: int)
  {
    && (forall i :: 0 <= i < |trace| ==> IsRequest(trace[i], i, end, batchSize))
    && (trace != [] ==> trace[0].from == start)
    && (forall i :: 0 < i < |trace| ==> Follows(trace[i - 1], trace[i]))
    && (forall i :: 0 <= i < |trace| - 1 ==> GoesOn(trace[i], i, batchSize))
  }

  /** The last request ends the scan. */
  predicate Stops(trace: seq<Request>, batchSize: int)
  {
    trace != [] && !GoesOn(trace[|trace| - 1], |trace| - 1, batchSize)
  }

  /** What the request adds: its answer, without the first key unless it is the first request. */
  function News(q: Request, i: nat): seq<Key>
  {
    if i == 0 || q.resp == [] then q.resp else q.resp[1..]
  }

  /** With a positive batch size no request adds more keys than that, and one that adds fewer has shown all that was
      left of the range. */
  lemma BatchExactly(q: Request, i: nat, end: Key, batchSize: int)
    requires IsRequest(q, i, end, batchSize) && batchSize > 0
    ensures |News(q, i)| <= batchSize
    ensures |News(q, i)| < batchSize ==> forall k :: k in q.keys && InRange(k, q.from, end) ==> k in q.resp
  {
  }

  /** What the callback is given when it accepts everything. */
  function Given(trace: seq<Request>): seq<Key>
  {
    if trace == [] then [] else var k := |trace| - 1; Given(trace[..k]) + News(trace[k], k)
  }

  lemma ShorterTrace(trace: seq<Request>, n: nat, start: Key, end: Key, batchSize: int)
    requires IsTrace(trace, start, end, batchSize) && n <= |trace|
    ensures IsTrace(trace[..n], start, end, batchSize)
  {
    var early := trace[..n];
    forall i | 0 < i < |early| ensures Follows(early[i - 1], early[i]) { assert Follows(trace[i - 1], trace[i]); }
  }

  lemma LongerTrace(trace: seq<Request>, q: Request, start: Key, end: Key, batchSize: int)
    requires IsTrace(trace, start, end, batchSize) && IsRequest(q, |trace|, end, batchSize)
    requires if trace == [] then q.from == start
      else Follows(trace[|trace| - 1], q) && GoesOn(trace[|trace| - 1], |trace| - 1, batchSize)
    ensures IsTrace(trace + [q], start, end, batchSize) && Given(trace + [q]) == Given(trace) + News(q, |trace|)
  {
    var more := trace + [q];
    assert more[..|trace|] == trace;
    forall i | 0 < i < |more| ensures Follows(more[i - 1], more[i]) {
      if i < |trace| { assert Follows(trace[i - 1], trace[i]); }
    }
  }

  /** The keys of one request's answer after the first are beyond the key it begins at. */
  lemma NewsBeyond(q: Request, i: nat, end: Key, batchSize: int, j: nat)
    requires IsRequest(q, i, end, batchSize) && 0 < j < |q.resp|
    ensures Less(q.from, q.resp[j]) && Less(q.resp[j], end)
  {
    assert InRange(q.resp[0], q.from, end) && InRange(q.resp[j], q.from, end) && Less(q.resp[0], q.resp[j]);
    LessTotal(q.from, q.resp[0]);
    if Less(q.from, q.resp[0]) { LessTransitive(q.from, q.resp[0], q.resp[j]); }
  }

  /** The scan has been going on so far: its last answer ends with the last key given. */
  ghost predicate Ends(trace: seq<Request>, c: Key)
  {
    && trace != [] && trace[|trace| - 1].resp != [] && c == EndOf(trace[|trace| - 1])
    && Given(trace) != [] && Given(trace)[|Given(trace)| - 1] == c
  }

  ghost predicate InOrderWithin(r: seq<Key>, start: Key, end: Key)
  {
    InKeyOrder(r) && forall i :: 0 <= i < |r| ==> InRange(r[i], start, end)
  }

  lemma FirstGiven(trace: seq<Request>, start: Key, end: Key, batchSize: int)
    requires IsTrace(trace, start, end, batchSize) && |trace| == 1
    ensures Given(trace) == trace[0].resp && InOrderWithin(Given(trace), start, end)
  {
    assert trace[..0] == [];
    assert Given(trace) == [] + trace[0].resp == trace[0].resp;
    assert IsRequest(trace[0], 0, end, batchSize);
  }

  lemma OrderMore(r: seq<Key>, q: Request, i: nat, start: Key, end: Key, batchSize: int)
    requires InOrderWithin(r, start, end) && r != [] && IsRequest(q, i, end, batchSize) && q.from == r[|r| - 1]
    ensures InOrderWithin(r + News(q, i), start, end) || i == 0
  {
    if i > 0 && |q.resp| >= 2 {
      var more := q.resp[1..];
      assert News(q, i) == more;
      forall j | 0 <= j < |more| ensures Less(q.from, more[j]) && InRange(more[j], start, end) {
        NewsBeyond(q, i, end, batchSize, j + 1);
        assert more[j] == q.resp[j + 1];
        LessAsymmetric(q.from, more[j]);
        NotBefore(start, q.from, more[j]);
      }
      assert InKeyOrder(more);
      AscendingConcat(r, more);
    } else if i > 0 {
      assert r + News(q, i) == r;
    }
  }

  ghost predicate Ordered(trace: seq<Request>, start: Key, end: Key, batchSize: int)
    requires trace != []
  {
    var k := |trace| - 1;
    InOrderWithin(Given(trace), start, end) && (GoesOn(trace[k], k, batchSize) ==> Ends(trace, EndOf(trace[k])))
  }

  /** Whatever others write meanwhile, the callback is given keys of the range in order, each once. */
  lemma {:induction false} GivenInOrder(trace: seq<Request>, start: Key, end: Key, batchSize: int)
    requires IsTrace(trace, start, end, batchSize) && trace != []
    ensures Ordered(trace, start, end, batchSize)
    decreases |trace|
  {
    if |trace| == 1 {
      FirstOrdered(trace, start, end, batchSize);
    } else {
      var k := |trace| - 1;
      var early := trace[..k];
      ShorterTrace(trace, k, start, end, batchSize);
      GivenInOrder(early, start, end, batchSize);
      OrderStep(trace, early, k, start, end, batchSize);
    }
  }

  lemma FirstOrdered(trace: seq<Request>, start: Key, end: Key, batchSize: int)
    requires IsTrace(trace, start, end, batchSize) && |trace| == 1
    ensures Ordered(trace, start, end, batchSize)
  {
    FirstGiven(trace, start, end, batchSize);
  }

  lemma OrderStep(trace: seq<Request>, early: seq<Request>, k: nat, start: Key, end: Key, batchSize: int)
    requires IsTrace(trace, start, end, batchSize) && 0 < k && k + 1 == |trace| && early == trace[..k]
    requires Ordered(early, start, end, batchSize)
    ensures Ordered(trace, start, end, batchSize)
  {
    var p, q := trace[k - 1], trace[k];
    assert early[k - 1] == p && Follows(p, q) && GoesOn(p, k - 1, batchSize) && IsRequest(q, k, end, batchSize);
    OrderMore(Given(early), q, k, start, end, batchSize);
    LastGiven(trace, early, k, batchSize);
  }

  lemma LastGiven(trace: seq<Request>, early: seq<Request>, k: nat, batchSize: int)
    requires 0 < k && k + 1 == |trace| && early == trace[..k]
    ensures Given(trace) == Given(early) + News(trace[k], k)
    ensures GoesOn(trace[k], k, batchSize) ==> Ends(trace, EndOf(trace[k]))
  {
    if GoesOn(trace[k], k, batchSize) { assert News(trace[k], k) == trace[k].resp[1..]; }
  }

  /** Every key that is given was in the store at a request. */
  lemma {:induction false} GivenWasThere(trace: seq<Request>, start: Key, end: Key, batchSize: int, k: Key)
    requires IsTrace(trace, start, end, batchSize) && k in Given(trace)
    ensures exists i :: 0 <= i < |trace| && k in trace[i].keys
    decreases |trace|
  {
    var n := |trace| - 1;
    assert IsRequest(trace[n], n, end, batchSize);
    if k in Given(trace[..n]) {
      ShorterTrace(trace, n, start, end, batchSize);
      GivenWasThere(trace[..n], start, end, batchSize, k);
      var i :| 0 <= i < n && k in trace[..n][i].keys;
      assert k in trace[i].keys;
    } else {
      assert k in trace[n].resp;
    }
  }

  // ----- which keys are missed -----

  /** The request found the key it begins at deleted, and dropped the key right after it instead. */
  ghost predicate Skips(q: Request, k: Key)
  {
    q.from !in q.keys && FirstAfter(k, q.from, q.keys)
  }

  ghost predicate SkippedBefore(trace: seq<Request>, k: Key)
  {
    exists i :: 0 < i < |trace| && Skips(trace[i], k)
  }

  /** The key is in the store at every request. */
  ghost predicate AlwaysThere(trace: seq<Request>, k: Key)
  {
    forall i :: 0 <= i < |trace| ==> k in trace[i].keys
  }

  /** A key beyond the end of the last batch is in the next answer or beyond that too. Of the answer only the first key
      is not given, and that is a skipped key. */
  lemma RequestReaches(q: Request, i: nat, end: Key, batchSize: int, k: Key)
    requires i > 0 && IsRequest(q, i, end, batchSize) && k in q.keys && Less(q.from, k) && Less(k, end)
    ensures q.resp != [] && (Skips(q, k) <==> q.resp[0] == k)
    ensures k !in q.resp ==> 0 < batchSize + 1 == |q.resp| && Less(q.resp[|q.resp| - 1], k)
  {
    LessAsymmetric(q.from, k);
    assert InRange(k, q.from, end);
    if q.resp[0] == k { FirstIsSkipped(q, i, end, batchSize, k); }
    if Skips(q, k) { SkippedIsFirst(q, i, end, batchSize, k); }
  }

  lemma FirstIsSkipped(q: Request, i: nat, end: Key, batchSize: int, k: Key)
    requires i > 0 && IsRequest(q, i, end, batchSize) && Less(q.from, k)
    requires Less(k, end) && q.resp != [] && q.resp[0] == k
    ensures Skips(q, k)
  {
    if q.from in q.keys {
      LessTransitive(q.from, k, end);
      BatchRepeats(q.resp, q.keys, q.from, end, batchSize + 1);
      LessIrreflexive(k);
    }
    forall x | x in q.keys && Less(q.from, x) ensures x == k || Less(k, x) { NotBeforeFirst(q, i, end, batchSize, x); }
  }

  lemma NotBeforeFirst(q: Request, i: nat, end: Key, batchSize: int, x: Key)
    requires i > 0 && IsRequest(q, i, end, batchSize) && q.resp != [] && x in q.keys && Less(q.from, x)
    ensures x == q.resp[0] || Less(q.resp[0], x)
  {
    var f := q.resp[0];
    assert InRange(f, q.from, end);
    if Less(x, end) {
      LessAsymmetric(q.from, x);
      assert InRange(x, q.from, end);
      if x in q.resp {
        var j :| 0 <= j < |q.resp| && q.resp[j] == x;
      } else if |q.resp| > 1 {
        LessTransitive(f, q.resp[|q.resp| - 1], x);
      }
    } else {
      LessTotal(f, x);
      if Less(x, f) { LessTransitive(x, f, end); }
    }
  }

  lemma SkippedIsFirst(q: Request, i: nat, end: Key, batchSize: int, k: Key)
    requires i > 0 && IsRequest(q, i, end, batchSize) && Skips(q, k) && Less(k, end)
    ensures q.resp != [] && q.resp[0] == k
  {
    LessAsymmetric(q.from, k);
    assert InRange(k, q.from, end);
    assert q.resp != [];
    var f := q.resp[0];
    assert f in q.keys && InRange(f, q.from, end);
    LessTotal(q.from, f);
    NotBeforeFirst(q, i, end, batchSize, k);
    if f != k { LessAsymmetric(f, k); }
  }

  /** The key has been given or skipped, or is still ahead: beyond the end of the last batch. */
  ghost predicate Settled(trace: seq<Request>, k: Key, c: Key, batchSize: int)
  {
    && (k in Given(trace) <==> !Less(c, k) && !SkippedBefore(trace, k))
    && (SkippedBefore(trace, k) ==> !Less(c, k))
    && (batchSize <= 0 ==> !Less(c, k))
  }

  lemma SkippedMore(trace: seq<Request>, n: nat, k: Key)
    requires 0 < n < |trace|
    ensures SkippedBefore(trace[..n + 1], k) <==> SkippedBefore(trace[..n], k) || Skips(trace[n], k)
  {
    var early, more := trace[..n], trace[..n + 1];
    assert forall i :: 0 <= i < n ==> more[i] == early[i];
    assert more[n] == trace[n];
    if SkippedBefore(early, k) {
      var i :| 0 < i < |early| && Skips(early[i], k);
      assert Skips(more[i], k);
    }
  }

  lemma GivenMore(trace: seq<Request>, n: nat)
    requires n < |trace|
    ensures Given(trace[..n + 1]) == Given(trace[..n]) + News(trace[n], n)
  {
    assert trace[..n + 1][..n] == trace[..n];
  }

  /** A key up to the end of the last batch is not touched by the next request. */
  lemma PassedStays(q: Request, i: nat, end: Key, batchSize: int, k: Key)
    requires i > 0 && IsRequest(q, i, end, batchSize) && !Less(q.from, k)
    ensures k !in News(q, i) && !Skips(q, k)
    ensures q.resp != [] ==> !Less(EndOf(q), k)
  {
    forall j | 0 < j < |q.resp| ensures q.resp[j] != k { NewsBeyond(q, i, end, batchSize, j); }
    if q.resp != [] {
      assert InRange(q.resp[|q.resp| - 1], q.from, end);
      NotAfter(k, q.from, q.resp[|q.resp| - 1]);
    }
  }

  lemma NotAfter(k: Key, a: Key, b: Key)
    requires !Less(a, k) && !Less(b, a)
    ensures !Less(b, k)
  {
    LessTotal(a, k);
    if Less(b, k) && Less(k, a) { LessTransitive(b, k, a); }
  }

  /** A key that is ahead is given, skipped, or still ahead after the next request. */
  lemma AheadSettles(q: Request, i: nat, end: Key, batchSize: int, k: Key)
    requires i > 0 && IsRequest(q, i, end, batchSize) && k in q.keys && Less(q.from, k) && Less(k, end)
    ensures q.resp != []
    ensures var c := EndOf(q);
      (k in News(q, i) <==> !Less(c, k) && !Skips(q, k)) && (Skips(q, k) ==> !Less(c, k))
    ensures Less(EndOf(q), k) ==> |q.resp| == batchSize + 1
  {
    RequestReaches(q, i, end, batchSize, k);
    AnswerSettles(q, i, batchSize, k, Skips(q, k));
  }

  lemma AnswerSettles(q: Request, i: nat, batchSize: int, k: Key, skips: bool)
    requires i > 0 && InKeyOrder(q.resp) && q.resp != [] && (skips <==> q.resp[0] == k)
    requires k !in q.resp ==> |q.resp| == batchSize + 1 && Less(EndOf(q), k)
    ensures (k in News(q, i) <==> !Less(EndOf(q), k) && !skips) && (skips ==> !Less(EndOf(q), k))
    ensures Less(EndOf(q), k) ==> |q.resp| == batchSize + 1
  {
    SettlesWithin(q.resp, k, skips, batchSize + 1);
  }

  /** The cases for a key in or beyond an answer. */
  lemma SettlesWithin(r: seq<Key>, k: Key, skips: bool, limit: int)
    requires InKeyOrder(r) && r != [] && (skips <==> r[0] == k)
    requires k !in r ==> |r| == limit && Less(r[|r| - 1], k)
    ensures k in r[1..] <==> !Less(r[|r| - 1], k) && !skips
    ensures skips ==> !Less(r[|r| - 1], k)
    ensures Less(r[|r| - 1], k) ==> |r| == limit
  {
    TailHas(r, k);
    if k in r { LastIsGreatest(r, k); }
  }

  lemma TailHas(r: seq<Key>, k: Key)
    requires InKeyOrder(r) && r != []
    ensures k in r[1..] <==> k in r && k != r[0]
  {
    if k in r {
      var j :| 0 <= j < |r| && r[j] == k;
      if j > 0 {
        assert r[1..][j - 1] == k;
        LessAsymmetric(r[0], k);
      }
    }
    forall m | 0 < m < |r| ensures r[m] != r[0] { LessAsymmetric(r[0], r[m]); }
  }

  lemma LastIsGreatest(r: seq<Key>, k: Key)
    requires InKeyOrder(r) && k in r
    ensures !Less(r[|r| - 1], k)
  {
    var j :| 0 <= j < |r| && r[j] == k;
    if j < |r| - 1 { LessAsymmetric(k, r[|r| - 1]); } else { LessIrreflexive(k); }
  }

  lemma FirstAnswers(q: Request, end: Key, batchSize: int, k: Key)
    requires IsRequest(q, 0, end, batchSize) && k in q.keys && InRange(k, q.from, end)
    ensures q.resp != [] && (k in q.resp <==> !Less(EndOf(q), k)) && (batchSize <= 0 ==> k in q.resp)
  {
    if k in q.resp { LastIsGreatest(q.resp, k); }
  }

  lemma FirstSettles(trace: seq<Request>, first: seq<Request>, start: Key, end: Key, batchSize: int, k: Key)
    requires IsTrace(trace, start, end, batchSize) && trace != [] && first == trace[..1]
    requires k in trace[0].keys && InRange(k, start, end)
    ensures trace[0].resp != [] && Settled(first, k, EndOf(trace[0]), batchSize)
  {
    ShorterTrace(trace, 1, start, end, batchSize);
    FirstGiven(first, start, end, batchSize);
    FirstAnswers(trace[0], end, batchSize, k);
  }

  /** As long as the scan goes on, every key that is there all the time is given, skipped or ahead. */
  lemma {:induction false} SettledSoFar(trace: seq<Request>, n: nat, start: Key, end: Key, batchSize: int, k: Key)
    requires IsTrace(trace, start, end, batchSize) && 0 < n <= |trace| && trace[n - 1].resp != []
    requires AlwaysThere(trace, k) && InRange(k, start, end)
    ensures Settled(trace[..n], k, EndOf(trace[n - 1]), batchSize)
    decreases n
  {
    if n == 1 {
      FirstSettles(trace, trace[..n], start, end, batchSize, k);
    } else {
      var m := n - 1;
      assert Follows(trace[m - 1], trace[m]);
      SettledSoFar(trace, m, start, end, batchSize, k);
      SettledStep(trace, m, start, end, batchSize, k);
    }
  }

  lemma SettledStep(trace: seq<Request>, n: nat, start: Key, end: Key, batchSize: int, k: Key)
    requires IsTrace(trace, start, end, batchSize) && 0 < n < |trace| && trace[n].resp != []
    requires AlwaysThere(trace, k) && InRange(k, start, end)
    requires trace[n - 1].resp != [] && Settled(trace[..n], k, EndOf(trace[n - 1]), batchSize)
    ensures Settled(trace[..n + 1], k, EndOf(trace[n]), batchSize)
  {
    var q := trace[n];
    assert Follows(trace[n - 1], q) && IsRequest(q, n, end, batchSize);
    SkippedMore(trace, n, k);
    GivenMore(trace, n);
    if Less(q.from, k) { AheadSettles(q, n, end, batchSize, k); } else { PassedStays(q, n, end, batchSize, k); }
  }

  /** At the end of a finished scan nothing is ahead. */
  lemma NothingAhead(trace: seq<Request>, start: Key, end: Key, batchSize: int, k: Key)
    requires IsTrace(trace, start, end, batchSize) && Stops(trace, batchSize) && |trace| > 1
    requires AlwaysThere(trace, k) && InRange(k, start, end)
    requires var p := trace[|trace| - 2]; p.resp != [] && Settled(trace[..|trace| - 1], k, EndOf(p), batchSize)
    ensures k in Given(trace) <==> !SkippedBefore(trace, k)
  {
    var n := |trace| - 1;
    var q := trace[n];
    assert Follows(trace[n - 1], q) && IsRequest(q, n, end, batchSize);
    TakeAll(trace);
    SkippedMore(trace, n, k);
    GivenMore(trace, n);
    if Less(q.from, k) { AheadSettles(q, n, end, batchSize, k); } else { PassedStays(q, n, end, batchSize, k); }
  }

  /** Which keys a scan misses, whatever others add and delete: of the keys of the range that are there all the time, a
      finished scan gives all but those that directly follow the end of a batch that was deleted before the next
      request. */
  lemma MissedExactly(trace: seq<Request>, start: Key, end: Key, batchSize: int, k: Key)
    requires IsTrace(trace, start, end, batchSize) && Stops(trace, batchSize)
    requires AlwaysThere(trace, k) && InRange(k, start, end)
    ensures k in Given(trace) <==> !SkippedBefore(trace, k)
  {
    var n := |trace| - 1;
    FirstAnswers(trace[0], end, batchSize, k);
    if n > 0 {
      assert Follows(trace[n - 1], trace[n]);
      SettledSoFar(trace, n, start, end, batchSize, k);
      NothingAhead(trace, start, end, batchSize, k);
    }
  }

  // ----- a store that only grows -----

  /** Nothing is deleted from one request to the next. */
  ghost predicate Growing(trace: seq<Request>)
  {
    forall i :: 0 < i < |trace| ==> trace[i - 1].keys <= trace[i].keys
  }

  lemma {:induction false} GrownSince(trace: seq<Request>, i: nat)
    requires Growing(trace) && i < |trace|
    ensures trace[0].keys <= trace[i].keys
    decreases i
  {
    if i > 0 { GrownSince(trace, i - 1); }
  }

  /** The scan goes on after the first n requests, with nothing passed over. */
  ghost predicate GoingAt(trace: seq<Request>, n: nat, start: Key, end: Key, batchSize: int)
    requires 0 < n <= |trace|
  {
    var given := Given(trace[..n]);
    && given != [] && trace[n - 1].resp != [] && given[|given| - 1] == EndOf(trace[n - 1])
    && Going(given, trace[0].keys, trace[n - 1].keys, start, end, batchSize)
  }

  lemma GoingFirst(trace: seq<Request>, start: Key, end: Key, batchSize: int)
    requires IsTrace(trace, start, end, batchSize) && trace != [] && trace[0].resp != []
    ensures GoingAt(trace, 1, start, end, batchSize)
  {
    ShorterTrace(trace, 1, start, end, batchSize);
    FirstGiven(trace[..1], start, end, batchSize);
    assert IsRequest(trace[0], 0, end, batchSize);
    FirstBatch(trace[0].resp, trace[0].keys, start, end, batchSize);
  }

  /** What has been given after the next request, short or not. */
  ghost predicate RoundDone(given: seq<Key>, q: Request, n: nat, was: set<Key>, start: Key, end: Key, batchSize: int)
  {
    var more := given + News(q, n);
    && q.resp != [] && more != [] && more[|more| - 1] == EndOf(q)
    && Going(more, was, q.keys, start, end, batchSize)
    && (!GoesOn(q, n, batchSize) ==> Complete(more, was, start, end))
  }

  lemma NextRound(given: seq<Key>, before: set<Key>, q: Request, n: nat, was: set<Key>, start: Key, end: Key,
      batchSize: int)
    requires n > 0 && given != [] && q.from == given[|given| - 1] && was <= before <= q.keys
    requires Going(given, was, before, start, end, batchSize) && IsRequest(q, n, end, batchSize)
    ensures RoundDone(given, q, n, was, start, end, batchSize)
  {
    Round(given, before, q.keys, was, q.resp, start, end, batchSize);
    assert News(q, n) == q.resp[1..];
    if |q.resp| <= 1 { assert given + q.resp[1..] == given; }
  }

  lemma GoingRound(trace: seq<Request>, n: nat, start: Key, end: Key, batchSize: int)
    requires IsTrace(trace, start, end, batchSize) && Growing(trace) && 0 < n < |trace|
    requires GoingAt(trace, n, start, end, batchSize)
    ensures RoundDone(Given(trace[..n]), trace[n], n, trace[0].keys, start, end, batchSize)
  {
    var p, q := trace[n - 1], trace[n];
    assert Follows(p, q) && IsRequest(q, n, end, batchSize) && p.keys <= q.keys;
    GrownSince(trace, n - 1);
    NextRound(Given(trace[..n]), p.keys, q, n, trace[0].keys, start, end, batchSize);
  }

  lemma {:induction false} GoingOn(trace: seq<Request>, n: nat, start: Key, end: Key, batchSize: int)
    requires IsTrace(trace, start, end, batchSize) && Growing(trace) && 0 < n <= |trace| && trace[n - 1].resp != []
    ensures GoingAt(trace, n, start, end, batchSize)
    decreases n
  {
    if n == 1 {
      GoingFirst(trace, start, end, batchSize);
    } else {
      var m := n - 1;
      assert Follows(trace[m - 1], trace[m]);
      GoingOn(trace, m, start, end, batchSize);
      GoingRound(trace, m, start, end, batchSize);
      GivenMore(trace, m);
    }
  }

  // ----- the scan -----

  /** The callback rejected the item at index n of the last answer's news. */
  ghost predicate RejectedAt(visited: seq<Key>, trace: seq<Request>, n: nat, rejects: set<Key>)
  {
    trace != [] && var k := |trace| - 1;
    && n < |News(trace[k], k)| && News(trace[k], k)[n] in rejects
    && NoneIn(Given(trace[..k]), rejects) && NoneIn(News(trace[k], k)[..n], rejects)
    && visited == Given(trace[..k]) + News(trace[k], k)[..n + 1]
  }

  /** What has been given to the callback when the scan stops. */
  ghost predicate Stopped(r: Outcome, visited: seq<Key>, trace: seq<Request>, batchSize: int, rejects: set<Key>)
  {
    match r
    case Finished => Stops(trace, batchSize) && visited == Given(trace) && NoneIn(visited, rejects)
    case Rejected => exists n :: RejectedAt(visited, trace, n, rejects)
    case Failed => visited == Given(trace) && NoneIn(visited, rejects)
  }

  ghost function FirstStore(trace: seq<Request>): set<Key>
  {
    if trace == [] then {} else trace[0].keys
  }

  ghost function LastStore(trace: seq<Request>): set<Key>
  {
    if trace == [] then {} else trace[|trace| - 1].keys
  }

  lemma FirstOnly(r: Outcome, visited: seq<Key>, trace: seq<Request>, start: Key, end: Key, batchSize: int,
      rejects: set<Key>)
    requires IsTrace(trace, start, end, batchSize) && |trace| == 1 && Stopped(r, visited, trace, batchSize, rejects)
    ensures IsScan(r, visited, trace[0].keys, trace[0].keys, start, end, rejects)
  {
    var q := trace[0];
    assert IsRequest(q, 0, end, batchSize) && trace[..0] == [];
    FirstGiven(trace, start, end, batchSize);
    if q.resp != [] {
      FirstBatch(q.resp, q.keys, start, end, batchSize);
      if r.Rejected? {
        var n :| RejectedAt(visited, trace, n, rejects);
        assert [] + q.resp == q.resp && visited == [] + q.resp[..n + 1];
        StoppedAt([], q.resp, n, q.keys, q.keys, start, end, rejects);
      }
    }
  }

  lemma LaterStop(r: Outcome, visited: seq<Key>, trace: seq<Request>, start: Key, end: Key, batchSize: int,
      rejects: set<Key>)
    requires IsTrace(trace, start, end, batchSize) && Growing(trace) && |trace| > 1
    requires Stopped(r, visited, trace, batchSize, rejects)
    ensures IsScan(r, visited, FirstStore(trace), LastStore(trace), start, end, rejects)
  {
    var k := |trace| - 1;
    assert Follows(trace[k - 1], trace[k]);
    GoingOn(trace, k, start, end, batchSize);
    GoingRound(trace, k, start, end, batchSize);
    if r.Rejected? {
      var n :| RejectedAt(visited, trace, n, rejects);
      StoppedAt(Given(trace[..k]), News(trace[k], k), n, trace[0].keys, trace[k].keys, start, end, rejects);
    }
  }

  /** While no key is deleted, every key of the range that was there at the start is given to the callback, in order,
      each key once, and nothing outside the range. */
  lemma GrowingScan(r: Outcome, visited: seq<Key>, trace: seq<Request>, start: Key, end: Key, batchSize: int,
      rejects: set<Key>)
    requires IsTrace(trace, start, end, batchSize) && Growing(trace) && Stopped(r, visited, trace, batchSize, rejects)
    ensures IsScan(r, visited, FirstStore(trace), LastStore(trace), start, end, rejects)
  {
    if |trace| == 1 {
      FirstOnly(r, visited, trace, start, end, batchSize, rejects);
    } else if |trace| > 1 {
      LaterStop(r, visited, trace, start, end, batchSize, rejects);
    }
  }

  /** The whole scan, for every batch size and whatever others write between its requests: the callback is given the
      news of every answer in turn, and the scan stops at the first error, or at an answer that is too short. */
  method Scan(etcd: Etcd, start: Key, end: Key, batchSize: int, callback: Callback)
    returns (r: Outcome, ghost visited: seq<Key>, ghost trace: seq<Request>)
    requires etcd.keys <= etcd.bound
    modifies etcd, callback
    ensures callback.seen == old(callback.seen) + visited
    ensures IsTrace(trace, start, end, batchSize) && Stopped(r, visited, trace, batchSize, callback.rejects)
    ensures trace != [] ==> trace[0].keys == old(etcd.keys)
    ensures etcd.log == old(etcd.log) + trace && (r.Failed? <==> etcd.misses > old(etcd.misses))
    ensures Growing(trace) ==> IsScan(r, visited, FirstStore(trace), LastStore(trace), start, end, callback.rejects)
  {
    r, visited, trace := ScanFirst(etcd, start, end, batchSize, callback);
    if Growing(trace) { GrowingScan(r, visited, trace, start, end, batchSize, callback.rejects); }
  }

  lemma FirstRequest(trace: seq<Request>, start: Key, end: Key, batchSize: int)
    requires |trace| == 1 && trace[0].from == start && IsBatch(trace[0].resp, trace[0].keys, start, end, batchSize)
    ensures IsTrace(trace, start, end, batchSize) && Given(trace) == trace[0].resp
    ensures forall i :: 0 <= i < |trace[0].resp| ==> Less(trace[0].resp[i], end)
  {
    assert IsRequest(trace[0], 0, end, batchSize);
    FirstGiven(trace, start, end, batchSize);
  }

  lemma FirstRejected(trace: seq<Request>, n: nat, rejects: set<Key>)
    requires |trace| == 1 && n < |trace[0].resp| && trace[0].resp[n] in rejects && NoneIn(trace[0].resp[..n], rejects)
    ensures RejectedAt([] + trace[0].resp[..n + 1], trace, n, rejects)
  {
    assert trace[..0] == [];
    assert Given([]) == [];
  }

  lemma LaterRejected(trace: seq<Request>, q: Request, items: seq<Key>, n: nat, batchSize: int, rejects: set<Key>)
    requires trace != [] && |q.resp| >= 2 && items == q.resp[1..] && n < |items| && items[n] in rejects
    requires NoneIn(Given(trace), rejects) && NoneIn(items[..n], rejects)
    ensures RejectedAt(Given(trace) + items[..n + 1], trace + [q], n, rejects)
    ensures Stopped(Rejected, Given(trace) + items[..n + 1], trace + [q], batchSize, rejects)
  {
    assert (trace + [q])[..|trace|] == trace;
    assert RejectedAt(Given(trace) + items[..n + 1], trace + [q], n, rejects);
  }

  /** The first batch, and then the others. */
  method ScanFirst(etcd: Etcd, start: Key, end: Key, batchSize: int, callback: Callback)
    returns (r: Outcome, ghost visited: seq<Key>, ghost trace: seq<Request>)
    requires etcd.keys <= etcd.bound
    modifies etcd, callback
    ensures callback.seen == old(callback.seen) + visited
    ensures IsTrace(trace, start, end, batchSize) && Stopped(r, visited, trace, batchSize, callback.rejects)
    ensures trace != [] ==> trace[0].keys == old(etcd.keys)
    ensures etcd.log == old(etcd.log) + trace && (r.Failed? <==> etcd.misses > old(etcd.misses))
  {
    ghost var before0, log0 := callback.seen, etcd.log;
    visited, trace := [], [];
    assert before0 + [] == before0 && log0 + [] == log0;
    var resp := etcd.Get(start, end, batchSize);
    if resp.None? { return Failed, visited, trace; }
    trace := [Request(start, etcd.keys, resp.value)];
    FirstRequest(trace, start, end, batchSize);
    if |resp.value| == 0 { return Finished, visited, trace; }
    var ok, n := VisitAll(resp.value, end, callback, before0, []);
    if !ok {
      FirstRejected(trace, n, callback.rejects);
      return Rejected, [] + resp.value[..n + 1], trace;
    }
    assert [] + resp.value == resp.value && resp.value[..n] == resp.value;
    r, visited, trace := ScanRest(etcd, start, end, batchSize, resp.value[|resp.value| - 1], callback, before0,
      trace, log0);
  }

  /** The batches after the first. */
  method ScanRest(etcd: Etcd, start: Key, end: Key, batchSize: int, last0: Key, callback: Callback,
                  ghost before0: seq<Key>, ghost trace0: seq<Request>, ghost log0: seq<Request>)
    returns (r: Outcome, ghost visited: seq<Key>, ghost trace: seq<Request>)
    requires etcd.keys <= etcd.bound && Underway(trace0, last0, start, end, batchSize)
    requires callback.seen == before0 + Given(trace0) && NoneIn(Given(trace0), callback.rejects)
    requires etcd.log == log0 + trace0
    modifies etcd, callback
    ensures callback.seen == before0 + visited
    ensures IsTrace(trace, start, end, batchSize) && Stopped(r, visited, trace, batchSize, callback.rejects)
    ensures trace != [] && trace[0] == trace0[0]
    ensures etcd.log == log0 + trace && (r.Failed? <==> etcd.misses > old(etcd.misses))
  {
    trace := trace0;
    var last := last0;
    while true
      invariant etcd.keys <= etcd.bound && Underway(trace, last, start, end, batchSize) && trace[0] == trace0[0]
      invariant callback.seen == before0 + Given(trace) && NoneIn(Given(trace), callback.rejects)
      invariant etcd.log == log0 + trace && etcd.misses == old(etcd.misses)
      decreases etcd.bound - Visited(Given(trace))
    {
      NotAtEnd(trace, last, start, end, batchSize);
      if last == end { return Finished, Given(trace), trace; }
      var resp := Ask(etcd, last, end, batchSize);
      if resp.None? { return Failed, Given(trace), trace; }
      var stop;
      LogMore(log0, trace, Request(last, etcd.keys, resp.value));
      stop, visited, trace := TakeBatch(etcd, start, end, batchSize, last, resp.value, callback, before0, trace);
      if stop.Some? { return stop.value, visited, trace; }
      last := resp.value[|resp.value| - 1];
    }
  }

  lemma LogMore(log: seq<Request>, trace: seq<Request>, q: Request)
    ensures log + trace + [q] == log + (trace + [q])
  {
  }

  /** A later request. */
  method Ask(etcd: Etcd, last: Key, end: Key, batchSize: int) returns (resp: Option<seq<Key>>)
    requires etcd.keys <= etcd.bound
    modifies etcd
    ensures etcd.keys <= etcd.bound
    ensures resp.Some? ==> IsBatch(resp.value, etcd.keys, last, end, batchSize + 1)
    ensures etcd.misses == old(etcd.misses) + if resp.Some? then 0 else 1
    ensures etcd.log == if resp.Some? then old(etcd.log) + [Request(last, etcd.keys, resp.value)] else old(etcd.log)
  {
    etcd.Others();
    resp := etcd.Get(last, end, batchSize + 1);
  }

  /** What the loop has done with an answer. */
  ghost predicate BatchTaken(r: Option<Outcome>, visited: seq<Key>, trace: seq<Request>, longer: seq<Request>,
      next: Key, start: Key, end: Key, batchSize: int, rejects: set<Key>, bound: set<Key>)
  {
    && longer != [] && trace != [] && longer[0] == trace[0]
    && if r.Some? then IsTrace(longer, start, end, batchSize) && Stopped(r.value, visited, longer, batchSize, rejects)
       else && Underway(longer, next, start, end, batchSize) && visited == Given(longer) && NoneIn(visited, rejects)
            && bound - Visited(visited) < bound - Visited(Given(trace))
  }

  method TakeBatch(etcd: Etcd, start: Key, end: Key, batchSize: int, last: Key, resp: seq<Key>, callback: Callback,
                   ghost before0: seq<Key>, ghost trace: seq<Request>)
    returns (r: Option<Outcome>, ghost visited: seq<Key>, ghost longer: seq<Request>)
    requires etcd.keys <= etcd.bound && Underway(trace, last, start, end, batchSize)
    requires callback.seen == before0 + Given(trace) && NoneIn(Given(trace), callback.rejects)
    requires IsBatch(resp, etcd.keys, last, end, batchSize + 1)
    modifies callback
    ensures callback.seen == before0 + visited && (r.None? ==> resp != []) && (r.Some? ==> !r.value.Failed?)
    ensures longer == trace + [Request(last, etcd.keys, resp)]
    ensures BatchTaken(r, visited, trace, longer, if resp == [] then last else resp[|resp| - 1], start, end, batchSize,
                       callback.rejects, etcd.bound)
  {
    ghost var q := Request(last, etcd.keys, resp);
    NextRequest(trace, last, q, start, end, batchSize);
    longer := trace + [q];
    if |resp| <= 1 {
      ShortAnswer(trace, q, batchSize, callback.rejects);
      return Some(Finished), Given(trace), longer;
    }
    r, visited := TakeItems(resp, batchSize, end, callback, before0, trace, q, start, etcd.bound);
  }

  /** The items after the first. */
  method TakeItems(resp: seq<Key>, batchSize: int, end: Key, callback: Callback, ghost before0: seq<Key>,
                   ghost trace: seq<Request>, ghost q: Request, ghost start: Key, ghost bound: set<Key>)
    returns (r: Option<Outcome>, ghost visited: seq<Key>)
    requires |resp| >= 2 && resp == q.resp && trace != [] && resp[1] in bound
    requires callback.seen == before0 + Given(trace) && NoneIn(Given(trace), callback.rejects)
    requires IsTrace(trace + [q], start, end, batchSize) && forall i :: 0 <= i < |resp[1..]| ==> Less(resp[1..][i], end)
    requires Given(trace + [q]) == Given(trace) + News(q, |trace|) && InKeyOrder(Given(trace + [q]))
    modifies callback
    ensures callback.seen == before0 + visited && (r.Some? ==> !r.value.Failed?)
    ensures BatchTaken(r, visited, trace, trace + [q], EndOf(q), start, end, batchSize, callback.rejects, bound)
  {
    var items := resp[1..];
    var ok, n := VisitAll(items, end, callback, before0, Given(trace));
    if !ok {
      LaterRejected(trace, q, items, n, batchSize, callback.rejects);
      return Some(Rejected), Given(trace) + items[..n + 1];
    }
    TakenAnswer(trace, q, items, n, start, end, batchSize, callback.rejects, bound);
    r := if |resp| < batchSize then Some(Finished) else None;
    visited := Given(trace + [q]);
  }

  lemma ShortAnswer(trace: seq<Request>, q: Request, batchSize: int, rejects: set<Key>)
    requires trace != [] && |q.resp| <= 1 && NoneIn(Given(trace), rejects)
    requires Given(trace + [q]) == Given(trace) + News(q, |trace|)
    ensures Stopped(Finished, Given(trace), trace + [q], batchSize, rejects)
  {
    assert News(q, |trace|) == [];
    assert Given(trace) + [] == Given(trace);
  }

  lemma TakenAnswer(trace: seq<Request>, q: Request, items: seq<Key>, n: nat, start: Key, end: Key, batchSize: int,
      rejects: set<Key>, bound: set<Key>)
    requires trace != [] && |q.resp| >= 2 && items == q.resp[1..] && n == |items| && NoneIn(items[..n], rejects)
    requires IsTrace(trace + [q], start, end, batchSize) && NoneIn(Given(trace), rejects)
    requires Given(trace + [q]) == Given(trace) + News(q, |trace|)
    requires InKeyOrder(Given(trace + [q])) && q.resp[1] in bound
    ensures Given(trace + [q]) == Given(trace) + items && NoneIn(Given(trace + [q]), rejects)
    ensures |q.resp| < batchSize ==> Stopped(Finished, Given(trace + [q]), trace + [q], batchSize, rejects)
    ensures |q.resp| >= batchSize ==> Underway(trace + [q], EndOf(q), start, end, batchSize)
    ensures bound - Visited(Given(trace + [q])) < bound - Visited(Given(trace))
  {
    TakeAll(items);
    NoneInBoth(Given(trace), items, rejects);
    MoreVisited(Given(trace), items, bound);
  }

  ghost predicate Underway(trace: seq<Request>, last: Key, start: Key, end: Key, batchSize: int)
  {
    && IsTrace(trace, start, end, batchSize) && trace != []
    && GoesOn(trace[|trace| - 1], |trace| - 1, batchSize) && last == EndOf(trace[|trace| - 1])
  }

  lemma NotAtEnd(trace: seq<Request>, last: Key, start: Key, end: Key, batchSize: int)
    requires Underway(trace, last, start, end, batchSize)
    ensures Less(last, end) && last != end
  {
    var q := trace[|trace| - 1];
    assert IsRequest(q, |trace| - 1, end, batchSize);
    assert InRange(last, q.from, end);
    LessIrreflexive(end);
  }

  lemma NextRequest(trace: seq<Request>, last: Key, q: Request, start: Key, end: Key, batchSize: int)
    requires Underway(trace, last, start, end, batchSize) && q.from == last
    requires IsBatch(q.resp, q.keys, last, end, batchSize + 1)
    ensures IsTrace(trace + [q], start, end, batchSize)
    ensures Given(trace + [q]) == Given(trace) + News(q, |trace|) && InKeyOrder(Given(trace + [q]))
    ensures |q.resp| >= 2 ==> q.resp[1] in q.keys && forall i :: 0 <= i < |q.resp[1..]| ==> Less(q.resp[1..][i], end)
  {
    LongerTrace(trace, q, start, end, batchSize);
    GivenInOrder(trace + [q], start, end, batchSize);
    if |q.resp| >= 2 {
      forall i | 0 <= i < |q.resp[1..]| ensures Less(q.resp[1..][i], end) { assert q.resp[1..][i] == q.resp[i + 1]; }
    }
  }

  ghost function Visited(r: seq<Key>): set<Key>
  {
    set k | k in r
  }

  lemma MoreVisited(r: seq<Key>, items: seq<Key>, bound: set<Key>)
    requires InKeyOrder(r + items) && items != [] && items[0] in bound
    ensures bound - Visited(r + items) < bound - Visited(r)
  {
    var longer := r + items;
    assert longer[|r|] == items[0];
    forall i | 0 <= i < |r| ensures r[i] != items[0] {
      assert Less(longer[i], longer[|r|]);
      LessAsymmetric(r[i], items[0]);
    }
    assert items[0] in bound - Visited(r) && items[0] !in bound - Visited(longer);
  }

  lemma FirstBatch(resp: seq<Key>, keys: set<Key>, start: Key, end: Key, limit: int)
    requires IsBatch(resp, keys, start, end, limit) && resp != []
    ensures Sound(resp, keys, start, end) && NoGap(resp, keys, start, end)
    ensures limit <= 0 ==> Complete(resp, keys, start, end)
    ensures forall i :: 0 <= i < |resp| ==> Less(resp[i], end)
  {
  }

  /** On a store that does not change a finished scan gives exactly the keys of the range. */
  lemma UnchangedExactly(visited: seq<Key>, keys: set<Key>, start: Key, end: Key, rejects: set<Key>)
    requires IsScan(Finished, visited, keys, keys, start, end, rejects)
    ensures InKeyOrder(visited) && forall k :: k in visited <==> k in keys && InRange(k, start, end)
  {
    forall k | k in visited ensures k in keys && InRange(k, start, end) {
      var i :| 0 <= i < |visited| && visited[i] == k;
    }
  }

  /** The key is the first one of the store after `last`. */
  ghost predicate FirstAfter(k: Key, last: Key, keys: set<Key>)
  {
    k in keys && Less(last, k) && forall x :: x in keys && Less(last, x) ==> x == k || Less(k, x)
  }

  lemma SecondIsNext(resp: seq<Key>, keys: set<Key>, last: Key, end: Key, limit: int, k: Key)
    requires IsBatch(resp, keys, last, end, limit) && (limit <= 0 || limit >= 2)
    requires FirstAfter(k, last, keys) && Less(k, end)
    requires last in keys
    ensures |resp| >= 2 && resp[1] == k
  {
    LessTransitive(last, k, end);
    BatchRepeats(resp, keys, last, end, limit);
    LessAsymmetric(last, k);
    assert InRange(k, last, end);
    if k in resp {
      var i :| 0 <= i < |resp| && resp[i] == k;
      assert i > 0;
      assert Less(last, resp[1]);
      if i > 1 { LessAsymmetric(resp[1], k); }
    } else {
      assert |resp| >= 2 && Less(resp[|resp| - 1], k);
      assert Less(last, resp[|resp| - 1]);
      LessAsymmetric(resp[|resp| - 1], k);
    }
  }

  lemma FirstIsNext(resp: seq<Key>, keys: set<Key>, last: Key, end: Key, limit: int, k: Key)
    requires IsBatch(resp, keys, last, end, limit) && (limit <= 0 || limit >= 2)
    requires FirstAfter(k, last, keys) && Less(k, end)
    requires last !in keys
    ensures resp != [] && resp[0] == k
  {
    LessAsymmetric(last, k);
    assert InRange(k, last, end);
    forall i | 0 <= i < |resp| ensures resp[i] == k || Less(k, resp[i]) {
      assert InRange(resp[i], last, end);
      LessTotal(last, resp[i]);
    }
    assert forall i :: 0 <= i < |resp| ==> Less(k, resp[i]) ==> !Less(resp[i], k) by {
      forall i | 0 <= i < |resp| && Less(k, resp[i]) ensures !Less(resp[i], k) { LessAsymmetric(k, resp[i]); }
    }
    LessIrreflexive(k);
    assert k in resp;
    var i :| 0 <= i < |resp| && resp[i] == k;
    assert i > 0 ==> Less(resp[0], k);
  }

  /** A batch drops its first key, taking it for the one already visited. The next key of the range is therefore
      visited exactly when the last key of the batch before is still in the store: if that one was deleted
      meanwhile, the next key is skipped. */
  lemma NextVisitedExactly(resp: seq<Key>, keys: set<Key>, last: Key, end: Key, limit: int, k: Key)
    requires IsBatch(resp, keys, last, end, limit) && (limit <= 0 || limit >= 2)
    requires FirstAfter(k, last, keys) && Less(k, end)
    ensures resp != [] && (k in resp[1..] <==> last in keys)
  {
    if last in keys {
      SecondIsNext(resp, keys, last, end, limit, k);
      assert resp[1..][0] == k;
    } else {
      FirstIsNext(resp, keys, last, end, limit, k);
      forall i | 0 <= i < |resp[1..]| ensures resp[1..][i] != k {
        assert Less(resp[0], resp[i + 1]);
        LessAsymmetric(resp[0], resp[i + 1]);
      }
    }
  }

  lemma FirstTwo(a: Key, b: Key, c: Key, end: Key)
    requires Less(a, b) && Less(b, c) && Less(c, end)
    ensures IsBatch([a, b], {a, b, c}, a, end, 2)
  {
    LessTransitive(b, c, end);
    LessTransitive(a, b, end);
    LessAsymmetric(a, b);
    LessIrreflexive(a);
  }

  lemma OnlyLast(a: Key, b: Key, c: Key, end: Key)
    requires Less(a, b) && Less(b, c) && Less(c, end)
    ensures IsBatch([c], {a, c}, b, end, 3)
  {
    LessAsymmetric(b, c);
  }

  /** Three keys read in batches of two. The second one is deleted after the first batch; the third one is there all the
      time, and the scan finishes without it. */
  lemma SkippedKey(a: Key, b: Key, c: Key, end: Key) returns (trace: seq<Request>)
    requires Less(a, b) && Less(b, c) && Less(c, end)
    ensures IsTrace(trace, a, end, 2) && Stops(trace, 2) && AlwaysThere(trace, c) && InRange(c, a, end)
    ensures trace[0].keys == {a, b, c} && trace[|trace| - 1].keys == {a, c} && Given(trace) == [a, b] && c !in [a, b]
  {
    var p, q := Request(a, {a, b, c}, [a, b]), Request(b, {a, c}, [c]);
    trace := [p] + [q];
    FirstTwo(a, b, c, end);
    OnlyLast(a, b, c, end);
    FirstRequest([p], a, end, 2);
    TwoRequests(p, q, a, end);
    LessAsymmetric(b, c);
    LessTransitive(a, b, c);
    LessAsymmetric(a, c);
  }

  lemma TwoRequests(p: Request, q: Request, start: Key, end: Key)
    requires IsTrace([p], start, end, 2) && Given([p]) == p.resp
    requires |p.resp| == 2 && q.from == p.resp[1] && |q.resp| == 1
    requires IsBatch(q.resp, q.keys, q.from, end, 3)
    ensures IsTrace([p] + [q], start, end, 2) && Given([p] + [q]) == p.resp && Stops([p] + [q], 2)
  {
    LongerTrace([p], q, start, end, 2);
  }
}
