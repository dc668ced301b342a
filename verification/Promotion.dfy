/** promoteProcedure of manager_impl.go, from start to end at a fixed clock and topology and without
    interference: which of the waiting procedures become ready, and what happens to the others. */
module Promotion {
  import opened Common
  import opened Versions
  import opened EntryLocks
  import opened DelayQueue

  /** defaultWaitingQueueDelay, in milliseconds. */
  const WAITING_QUEUE_DELAY := 500

  function Shards(p: Proc): set<nat>
  {
    p.info.shardWithVersion.Keys
  }

  ghost predicate TakenBy(x: nat, ready: seq<Proc>)
  {
    exists i :: 0 <= i < |ready| && x in Shards(ready[i])
  }

  ghost predicate TakenEarlier(x: nat, ready: seq<Proc>, m: map<nat, Entry>, runAfter: int)
  {
    exists i :: 0 <= i < |ready| && x in Shards(ready[i]) && ready[i].id in m && m[ready[i].id].runAfter <= runAfter
  }

  ghost predicate BlockedAt(x: nat, locks: set<nat>, ready: seq<Proc>, m: map<nat, Entry>, runAfter: int)
  {
    x in locks || TakenEarlier(x, ready, m, runAfter)
  }

  /** A shard of the procedure was locked, or went to a ready procedure that was due no later. */
  ghost predicate Blocked(e: Entry, locks: set<nat>, ready: seq<Proc>, m: map<nat, Entry>)
  {
    exists x :: x in Shards(e.proc) && BlockedAt(x, locks, ready, m, e.runAfter)
  }

  /** The ready procedures were due and valid, share no shard with each other or the locks, and have all their
      locks. */
  ghost predicate ReadyOk(m: map<nat, Entry>, locks: set<nat>, snap: Snapshot, now: int, ready: seq<Proc>,
      after: set<nat>)
  {
    && (forall i :: 0 <= i < |ready| ==> IsReady(ready[i], m, locks, snap, now))
    && (forall i, j :: 0 <= i < j < |ready| ==> ready[i].id != ready[j].id && Shards(ready[i]) !! Shards(ready[j]))
    && (forall x :: x in after <==> x in locks || TakenBy(x, ready))
  }

  ghost predicate IsReady(p: Proc, m: map<nat, Entry>, locks: set<nat>, snap: Snapshot, now: int)
  {
    p.id in m && m[p.id].proc == p && m[p.id].runAfter <= now && Current(p.info, snap) && Shards(p) !! locks
  }

  /** What has become of a procedure that was taken out of the queue. */
  ghost predicate Settled(e: Entry, m0: map<nat, Entry>, locks: set<nat>, snap: Snapshot, now: int, ready: seq<Proc>,
      m: map<nat, Entry>)
  {
    && e.runAfter <= now
    && if !Current(e.proc.info, snap) || e.proc in ready then e.proc.id !in m
       else && e.proc.id in m && m[e.proc.id] == Entry(e.proc, now + WAITING_QUEUE_DELAY)
            && Blocked(e, locks, ready, m0)
  }

  ghost predicate Keyed(m: map<nat, Entry>)
  {
    forall id :: id in m ==> m[id].proc.id == id
  }

  /** The whole outcome: what was not due waits on; of what was due, the invalid is gone, the ready has left the
      queue with its locks, and the rest is back with a delay because it was blocked. */
  ghost predicate IsPromotion(m0: map<nat, Entry>, locks: set<nat>, snap: Snapshot, now: int, ready: seq<Proc>,
      m: map<nat, Entry>, after: set<nat>)
  {
    && ReadyOk(m0, locks, snap, now, ready, after)
    && m.Keys <= m0.Keys
    && (forall id :: id in m0 && m0[id].runAfter > now ==> id in m && m[id] == m0[id])
    && (forall id :: id in m0 && m0[id].runAfter <= now ==> Settled(m0[id], m0, locks, snap, now, ready, m))
  }

  /** The procedures in `left` are untouched, and no earlier than those that were settled. */
  ghost predicate Progress(m0: map<nat, Entry>, locks: set<nat>, snap: Snapshot, now: int, ready: seq<Proc>,
      m: map<nat, Entry>, left: set<nat>)
  {
    && Keyed(m0) && m.Keys <= m0.Keys && left <= m0.Keys
    && (forall id :: id in left ==> id in m && m[id] == m0[id])
    && (forall i :: 0 <= i < |ready| ==> ready[i].id !in left)
    && (forall id, k :: id in m0 && id !in left && k in left ==> m0[id].runAfter <= m0[k].runAfter)
    && (forall id :: id in m0 && id !in left ==> Settled(m0[id], m0, locks, snap, now, ready, m))
  }

  // ----- one turn of the loop -----

  lemma StillBlocked(e: Entry, locks: set<nat>, ready: seq<Proc>, m: map<nat, Entry>, p: Proc)
    requires Blocked(e, locks, ready, m)
    ensures Blocked(e, locks, ready + [p], m)
  {
    var x :| x in Shards(e.proc) && BlockedAt(x, locks, ready, m, e.runAfter);
    if TakenEarlier(x, ready, m, e.runAfter) {
      var i :| 0 <= i < |ready| && x in Shards(ready[i]) && ready[i].id in m && m[ready[i].id].runAfter <= e.runAfter;
      assert (ready + [p])[i] == ready[i];
    }
    assert BlockedAt(x, locks, ready + [p], m, e.runAfter);
  }

  lemma StillSettled(e: Entry, m0: map<nat, Entry>, locks: set<nat>, snap: Snapshot, now: int, ready: seq<Proc>,
      m: map<nat, Entry>, p: Proc, n: map<nat, Entry>)
    requires Settled(e, m0, locks, snap, now, ready, m) && e.proc.id != p.id
    requires e.proc.id in m <==> e.proc.id in n
    requires e.proc.id in m ==> m[e.proc.id] == n[e.proc.id]
    ensures Settled(e, m0, locks, snap, now, ready, n) && Settled(e, m0, locks, snap, now, ready + [p], n)
  {
    if Current(e.proc.info, snap) && e.proc !in ready { StillBlocked(e, locks, ready, m0, p); }
  }

  /** The popped procedure is one of those left. */
  lemma PoppedWasLeft(m0: map<nat, Entry>, locks: set<nat>, snap: Snapshot, now: int, ready: seq<Proc>,
      m: map<nat, Entry>, left: set<nat>, p: Proc)
    requires Progress(m0, locks, snap, now, ready, m, left) && Least(m, p, now)
    ensures p.id in left && m0[p.id].proc == p && m0[p.id].runAfter <= now
    ensures forall k :: k in left ==> m0[p.id].runAfter <= m0[k].runAfter
  {
    assert p.id in m0;
    assert p.id !in left ==> Settled(m0[p.id], m0, locks, snap, now, ready, m);
    forall k | k in left ensures m0[p.id].runAfter <= m0[k].runAfter { assert k in m; }
  }

  /** A turn settles the popped procedure and keeps the others as they are. */
  lemma TurnKeeps(m0: map<nat, Entry>, locks: set<nat>, snap: Snapshot, now: int, ready: seq<Proc>,
      m: map<nat, Entry>, left: set<nat>, p: Proc, next: seq<Proc>, n: map<nat, Entry>)
    requires Progress(m0, locks, snap, now, ready, m, left) && Least(m, p, now) && p.id in left
    requires next == ready || next == ready + [p]
    requires n == m - {p.id} || n == (m - {p.id})[p.id := Entry(p, now + WAITING_QUEUE_DELAY)]
    requires Settled(m0[p.id], m0, locks, snap, now, next, n)
    ensures Progress(m0, locks, snap, now, next, n, left - {p.id})
  {
    PoppedWasLeft(m0, locks, snap, now, ready, m, left, p);
    forall id | id in m0 && id !in left - {p.id} ensures Settled(m0[id], m0, locks, snap, now, next, n) {
      if id != p.id { StillSettled(m0[id], m0, locks, snap, now, ready, m, p, n); }
    }
  }

  lemma ReadyMore(m0: map<nat, Entry>, locks: set<nat>, snap: Snapshot, now: int, ready: seq<Proc>, held: set<nat>,
      p: Proc)
    requires ReadyOk(m0, locks, snap, now, ready, held) && Shards(p) !! held
    requires p.id in m0 && m0[p.id].proc == p && m0[p.id].runAfter <= now && Current(p.info, snap)
    requires forall i :: 0 <= i < |ready| ==> ready[i].id != p.id
    ensures ReadyOk(m0, locks, snap, now, ready + [p], held + Shards(p))
  {
    var next := ready + [p];
    assert Shards(p) !! locks;
    forall i | 0 <= i < |ready| ensures Shards(ready[i]) !! Shards(p) {
      assert forall x :: x in Shards(ready[i]) ==> TakenBy(x, ready);
    }
    forall x ensures TakenBy(x, next) <==> TakenBy(x, ready) || x in Shards(p) {
      assert next[|ready|] == p;
      if TakenBy(x, ready) {
        var i :| 0 <= i < |ready| && x in Shards(ready[i]);
        assert next[i] == ready[i];
      }
    }
  }

  /** A procedure that cannot get its locks was blocked. */
  lemma RefusedIsBlocked(m0: map<nat, Entry>, locks: set<nat>, snap: Snapshot, now: int, ready: seq<Proc>,
      m: map<nat, Entry>, left: set<nat>, held: set<nat>, p: Proc)
    requires Progress(m0, locks, snap, now, ready, m, left) && ReadyOk(m0, locks, snap, now, ready, held)
    requires p.id in left && m0[p.id].proc == p && !(Shards(p) !! held)
    ensures Blocked(m0[p.id], locks, ready, m0)
  {
    var x :| x in Shards(p) && x in held;
    if x !in locks {
      assert TakenBy(x, ready);
      var i :| 0 <= i < |ready| && x in Shards(ready[i]);
      assert IsReady(ready[i], m0, locks, snap, now);
      assert m0[ready[i].id].runAfter <= m0[p.id].runAfter;
      assert TakenEarlier(x, ready, m0, m0[p.id].runAfter);
    }
    assert BlockedAt(x, locks, ready, m0, m0[p.id].runAfter);
  }

  lemma NothingDue(m0: map<nat, Entry>, locks: set<nat>, snap: Snapshot, now: int, ready: seq<Proc>,
      m: map<nat, Entry>, left: set<nat>, held: set<nat>)
    requires Progress(m0, locks, snap, now, ready, m, left) && ReadyOk(m0, locks, snap, now, ready, held)
    requires forall id :: id in m ==> m[id].runAfter > now
    ensures IsPromotion(m0, locks, snap, now, ready, m, held)
  {
    forall id | id in m0 ensures m0[id].runAfter > now <==> id in left {
      if id !in left { assert Settled(m0[id], m0, locks, snap, now, ready, m); }
    }
  }

  lemma QueueKeyed(q: seq<Entry>, m: map<nat, Entry>)
    requires Lists(q, m)
    ensures Keyed(m)
  {
    forall id | id in m ensures m[id].proc.id == id {
      assert Has(q, id);
      var i :| 0 <= i < |q| && q[i].proc.id == id;
    }
  }

  method ListShards(p: Proc) returns (ids: seq<nat>)
    ensures Distinct(ids) && Elements(ids) == Shards(p)
  {
    ids := [];
    var rest := p.info.shardWithVersion.Keys;
    while rest != {}
      invariant Distinct(ids) && rest <= Shards(p) && Elements(ids) == Shards(p) - rest
      decreases |rest|
    {
      var x := Pick(rest);
      assert |rest - {x}| == |rest| - 1;
      assert Elements(ids + [x]) == Elements(ids) + {x};
      assert forall i :: 0 <= i < |ids| ==> ids[i] in Elements(ids);
      ids := ids + [x];
      rest := rest - {x};
    }
  }

  /** At a fixed clock and without interference the loop ends and no requeue fails. */
  method PromoteProcedure(queue: Queue, lock: EntryLock, snap: Snapshot, now: int) returns (ready: seq<Proc>)
    requires queue.Valid()
    modifies queue, lock
    ensures queue.Valid()
    ensures IsPromotion(old(queue.pending), old(lock.entryLocks), snap, now, ready, queue.pending, lock.entryLocks)
  {
    ghost var m0, l0 := queue.pending, lock.entryLocks;
    QueueKeyed(queue.heap, m0);
    ready := [];
    ghost var left := m0.Keys;
    while true
      invariant queue.Valid() && Progress(m0, l0, snap, now, ready, queue.pending, left)
      invariant ReadyOk(m0, l0, snap, now, ready, lock.entryLocks)
      decreases |left|
    {
      ghost var m := queue.pending;
      var popped := queue.Pop(now);
      if popped.None? {
        NothingDue(m0, l0, snap, now, ready, m, left, lock.entryLocks);
        return;
      }
      var p := popped.value;
      PoppedWasLeft(m0, l0, snap, now, ready, m, left, p);
      ghost var next := left - {p.id};
      assert |next| == |left| - 1;
      ready := Settle(queue, lock, snap, now, p, ready, m0, l0, m, left);
      left := next;
    }
  }

  /** The push of a procedure that was just popped does not fail. */
  method BackInQueue(queue: Queue, now: int, p: Proc, ghost m: map<nat, Entry>)
    requires queue.Valid() && p.id in m && queue.pending == m - {p.id} && |m| <= queue.maxLen
    modifies queue
    ensures queue.Valid() && queue.pending == (m - {p.id})[p.id := Entry(p, now + WAITING_QUEUE_DELAY)]
  {
    assert |m.Keys - {p.id}| == |m.Keys| - 1 && queue.pending.Keys == m.Keys - {p.id};
    var r := queue.Push(p, WAITING_QUEUE_DELAY, now);
    assert r.Pushed?;
  }

  /** The turn for a popped procedure. */
  method Settle(queue: Queue, lock: EntryLock, snap: Snapshot, now: int, p: Proc, ready: seq<Proc>,
                ghost m0: map<nat, Entry>, ghost l0: set<nat>, ghost m: map<nat, Entry>, ghost left: set<nat>)
    returns (next: seq<Proc>)
    requires queue.Valid() && Progress(m0, l0, snap, now, ready, m, left) && Least(m, p, now) && p.id in left
    requires queue.pending == m - {p.id} && |m| <= queue.maxLen
    requires m0[p.id].proc == p && m0[p.id].runAfter <= now
    requires ReadyOk(m0, l0, snap, now, ready, lock.entryLocks)
    modifies queue, lock
    ensures queue.Valid() && Progress(m0, l0, snap, now, next, queue.pending, left - {p.id})
    ensures ReadyOk(m0, l0, snap, now, next, lock.entryLocks)
  {
    var valid := CheckValid(p.info, snap);
    if !valid {
      TurnKeeps(m0, l0, snap, now, ready, m, left, p, ready, queue.pending);
      return ready;
    }
    var ids := ListShards(p);
    ghost var held := lock.entryLocks;
    var ok := lock.TryLock(ids);
    if ok {
      ReadyMore(m0, l0, snap, now, ready, held, p);
      next := ready + [p];
      TurnKeeps(m0, l0, snap, now, ready, m, left, p, next, queue.pending);
    } else {
      RefusedIsBlocked(m0, l0, snap, now, ready, m, left, held, p);
      BackInQueue(queue, now, p, m);
      next := ready;
      assert p !in ready;
      TurnKeeps(m0, l0, snap, now, ready, m, left, p, next, queue.pending);
    }
  }
}
