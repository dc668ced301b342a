/** manager_impl.go: submission, promotion and release of procedures over the waiting queue and the shard locks.

    Any number of submitters, promotion loops and workers interleave; each queue operation, lock operation
    and section under the manager's mutex is one step. A procedure is an opaque job with an ID and a fixed set
    of shards; every successful push of a submitter is a ticket of its own, so a job submitted twice is two
    tickets. The queue has the rules of delay_queue.go for its length and its IDs; when it gives out which
    ticket is left open here. */
module Procedures {
  import opened Common
  import opened EntryLocks

  type Ticket = nat
  type Shard = nat
  type Loop = nat

  datatype Job = Job(id: nat, shards: set<Shard>)

  /** Where a ticket is; the places of a promotion loop's local variables name the loop. `Locked` tickets are on
      the loop's list of ready procedures. `Releasing` has the shards a worker has still to release, and the one
      whose runningProcedures entry is deleted but whose lock is not yet released. `Stranded` tickets were ready
      when a push of their loop failed: the list is dropped, and the locks stay. */
  datatype Place =
    | Waiting | Popped(loop: Loop) | Refused(loop: Loop) | Locked(loop: Loop) | Registered(loop: Loop) | Running
    | Releasing(rest: set<Shard>, deleted: set<Shard>)
    | Done | Discarded | Lost | Stranded

  /** Where a promotion loop is: about to pop, at its turn for a ticket, or starting what is ready. */
  datatype Mode = Popping | Turn(t: Ticket) | Starting

  /** `queue` has the waiting ticket for every procedure ID that is queued. */
  datatype State = State(jobs: map<Ticket, Job>, place: map<Ticket, Place>, queue: map<nat, Ticket>, maxLen: nat,
                         loops: map<Loop, Mode>, entryLocks: set<Shard>, running: map<Shard, Ticket>, panicked: bool)

  datatype Step =
    | Join(l: Loop)
    | Submit(t: Ticket, job: Job)
    | Pop(t: Ticket, l: Loop)
    | Invalid(t: Ticket)
    | TryLock(t: Ticket)
    | Requeue(t: Ticket)
    | RequeueFails(t: Ticket)
    | Return(l: Loop)
    | Register(t: Ticket)
    | StartWorker(t: Ticket)
    | Again(l: Loop)
    | Finish(t: Ticket)
    | Delete(t: Ticket, shard: Shard)
    | UnLock(t: Ticket, shard: Shard)
    | End(t: Ticket)

  function At(s: State, t: Ticket): Option<Place>
  {
    if t in s.place then Some(s.place[t]) else None
  }

  /** What Push of the queue asks: room, and that the ID is not queued. */
  predicate CanPush(s: State, id: nat)
  {
    |s.queue| < s.maxLen && id !in s.queue
  }

  predicate InMode(s: State, l: Loop, m: Mode)
  {
    l in s.loops && s.loops[l] == m
  }

  predicate NoneAt(s: State, p: Place)
  {
    forall t :: t in s.place ==> s.place[t] != p
  }

  predicate Known(s: State, t: Ticket)
  {
    t in s.place && t in s.jobs
  }

  predicate Enabled(s: State, a: Step)
  {
    match a
    case Join(l) => l !in s.loops
    case Submit(t, job) => t !in s.place && t !in s.jobs && CanPush(s, job.id)
    case Pop(t, l) => Known(s, t) && s.place[t] == Waiting && InMode(s, l, Popping)
    case Invalid(t) => Known(s, t) && s.place[t].Popped?
    case TryLock(t) => Known(s, t) && s.place[t].Popped?
    case Requeue(t) => Known(s, t) && s.place[t].Refused? && CanPush(s, s.jobs[t].id)
    case RequeueFails(t) => Known(s, t) && s.place[t].Refused? && !CanPush(s, s.jobs[t].id)
    case Return(l) => InMode(s, l, Popping)
    case Register(t) => Known(s, t) && s.place[t].Locked? && InMode(s, s.place[t].loop, Starting)
    case StartWorker(t) =>
      Known(s, t) && s.place[t].Registered? && InMode(s, s.place[t].loop, Starting)
        && NoneAt(s, Locked(s.place[t].loop))
    case Again(l) => InMode(s, l, Starting) && NoneAt(s, Locked(l)) && NoneAt(s, Registered(l))
    case Finish(t) => Known(s, t) && s.place[t].Running?
    case Delete(t, x) => Known(s, t) && s.place[t].Releasing? && s.place[t].deleted == {} && x in s.place[t].rest
    case UnLock(t, x) => Known(s, t) && s.place[t].Releasing? && s.place[t].deleted == {x}
    case End(t) => Known(s, t) && s.place[t] == Releasing({}, {})
  }

  function Move(s: State, t: Ticket, p: Place): State
  {
    s.(place := s.place[t := p])
  }

  /** The loop drops its list of ready procedures. */
  function Dropped(place: map<Ticket, Place>, l: Loop): map<Ticket, Place>
  {
    map t | t in place :: if place[t] == Locked(l) then Stranded else place[t]
  }

  function ModeTo(s: State, l: Loop, m: Mode): State
  {
    s.(loops := s.loops[l := m])
  }

  function Do(s: State, a: Step): State
    requires Enabled(s, a)
  {
    match a
    case Join(l) => ModeTo(s, l, Popping)
    case Submit(t, job) => Move(s, t, Waiting).(jobs := s.jobs[t := job], queue := s.queue[job.id := t])
    case Pop(t, l) => ModeTo(Move(s, t, Popped(l)), l, Turn(t)).(queue := s.queue - {s.jobs[t].id})
    case Invalid(t) => ModeTo(Move(s, t, Discarded), s.place[t].loop, Popping)
    case TryLock(t) =>
      var l := s.place[t].loop;
      if s.jobs[t].shards !! s.entryLocks then
        ModeTo(Move(s, t, Locked(l)), l, Popping).(entryLocks := s.entryLocks + s.jobs[t].shards)
      else Move(s, t, Refused(l))
    case Requeue(t) => ModeTo(Move(s, t, Waiting), s.place[t].loop, Popping).(queue := s.queue[s.jobs[t].id := t])
    case RequeueFails(t) =>
      ModeTo(s, s.place[t].loop, Popping).(place := Dropped(s.place, s.place[t].loop)[t := Lost])
    case Return(l) => ModeTo(s, l, Starting)
    case Register(t) =>
      Move(s, t, Registered(s.place[t].loop)).(running := s.running + map x | x in s.jobs[t].shards :: t)
    case StartWorker(t) => Move(s, t, Running)
    case Again(l) => ModeTo(s, l, Popping)
    case Finish(t) => Move(s, t, Releasing(s.jobs[t].shards, {}))
    case Delete(t, x) => Move(s, t, s.place[t].(deleted := {x})).(running := s.running - {x})
    case UnLock(t, x) =>
      if x !in s.entryLocks then s.(panicked := true)
      else Move(s, t, Releasing(s.place[t].rest - {x}, {})).(entryLocks := s.entryLocks - {x})
    case End(t) => Move(s, t, Done)
  }

  ghost predicate Next(s: State, u: State)
  {
    exists a :: Enabled(s, a) && u == Do(s, a)
  }

  ghost predicate Start(s: State)
  {
    s == State(map[], map[], map[], s.maxLen, map[], {}, map[], false)
  }

  // ----- what every step keeps -----

  /** The shards whose locks a ticket has. */
  function Held(p: Place, need: set<Shard>): set<Shard>
  {
    match p
    case Locked(_) => need
    case Registered(_) => need
    case Running => need
    case Stranded => need
    case Releasing(rest, _) => rest
    case _ => {}
  }

  /** The shards a ticket is listed under in runningProcedures. */
  function Shown(p: Place, need: set<Shard>): set<Shard>
  {
    match p
    case Registered(_) => need
    case Running => need
    case Releasing(rest, deleted) => rest - deleted
    case _ => {}
  }

  function HeldBy(s: State, t: Ticket): set<Shard>
  {
    if Known(s, t) then Held(s.place[t], s.jobs[t].shards) else {}
  }

  function ShownBy(s: State, t: Ticket): set<Shard>
  {
    if Known(s, t) then Shown(s.place[t], s.jobs[t].shards) else {}
  }

  ghost predicate Shaped(s: State)
  {
    && s.place.Keys == s.jobs.Keys
    && forall t :: t in s.place && s.place[t].Releasing? ==> s.place[t].deleted <= s.place[t].rest <= s.jobs[t].shards
  }

  /** No two tickets hold the lock of one shard. */
  ghost predicate Exclusive(s: State)
  {
    forall t, u, x :: x in HeldBy(s, t) && x in HeldBy(s, u) ==> t == u
  }

  /** The locked shards are those that a ticket holds. */
  ghost predicate LocksHeld(s: State)
  {
    && (forall t, x :: x in HeldBy(s, t) ==> x in s.entryLocks)
    && (forall x :: x in s.entryLocks ==> exists t :: x in HeldBy(s, t))
  }

  /** A runningProcedures entry names the ticket that shows the shard, and every such ticket has its entry. */
  ghost predicate RunningNames(s: State)
  {
    && (forall x :: x in s.running ==> x in ShownBy(s, s.running[x]))
    && (forall t, x :: x in ShownBy(s, t) ==> x in s.running && s.running[x] == t)
  }

  /** The queue has exactly the waiting tickets, one for each ID, and no more than its length allows. */
  ghost predicate QueueOk(s: State)
  {
    && |s.queue| <= s.maxLen
    && (forall i :: i in s.queue ==> Queued(s, s.queue[i], i))
    && (forall t :: t in s.place && s.place[t] == Waiting ==>
      t in s.jobs && s.jobs[t].id in s.queue && s.queue[s.jobs[t].id] == t)
  }

  ghost predicate Queued(s: State, t: Ticket, id: nat)
  {
    Known(s, t) && s.place[t] == Waiting && s.jobs[t].id == id
  }

  /** A loop has one ticket in its hands during its turn, and registers only what it is starting. */
  ghost predicate LoopsOk(s: State)
  {
    && (forall t :: t in s.place && (s.place[t].Popped? || s.place[t].Refused?) ==> InMode(s, s.place[t].loop, Turn(t)))
    && (forall t :: t in s.place && s.place[t].Locked? ==> s.place[t].loop in s.loops)
    && (forall t :: t in s.place && s.place[t].Registered? ==> InMode(s, s.place[t].loop, Starting))
  }

  /** The part of the invariant about locks and running procedures. */
  ghost predicate Core(s: State)
  {
    Shaped(s) && Exclusive(s) && LocksHeld(s) && RunningNames(s) && !s.panicked
  }

  ghost predicate Inv(s: State)
  {
    Core(s) && QueueOk(s) && LoopsOk(s)
  }

  lemma ShownIsHeld(s: State, t: Ticket)
    ensures ShownBy(s, t) <= HeldBy(s, t)
  {
  }

  /** Nothing is gained or given up. */
  ghost predicate SameHeld(s: State, u: State)
  {
    && (forall v :: HeldBy(u, v) == HeldBy(s, v) && ShownBy(u, v) == ShownBy(s, v))
    && u.entryLocks == s.entryLocks && u.running == s.running && u.panicked == s.panicked
  }

  lemma SameHeldKeeps(s: State, u: State)
    requires Core(s) && Shaped(u) && SameHeld(s, u)
    ensures Core(u)
  {
    forall x | x in u.entryLocks ensures exists t :: x in HeldBy(u, t) {
      var t :| x in HeldBy(s, t);
      assert x in HeldBy(u, t);
    }
    forall x | x in u.running ensures x in ShownBy(u, u.running[x]) { assert x in ShownBy(s, s.running[x]); }
  }

  /** One ticket moves, and the lock set and the running map change by what it gains and gives up. */
  ghost predicate Moved(s: State, u: State, t: Ticket)
  {
    && (forall v :: v != t ==> HeldBy(u, v) == HeldBy(s, v) && ShownBy(u, v) == ShownBy(s, v))
    && (HeldBy(u, t) - HeldBy(s, t)) !! s.entryLocks
    && u.entryLocks == s.entryLocks - HeldBy(s, t) + HeldBy(u, t)
    && u.running == s.running - ShownBy(s, t) + map x | x in ShownBy(u, t) :: t
  }

  lemma MovedExclusive(s: State, u: State, t: Ticket)
    requires Core(s) && Moved(s, u, t)
    ensures Exclusive(u) && LocksHeld(u)
  {
    forall v, x | v != t && x in HeldBy(u, v) ensures x !in HeldBy(u, t) {
      assert x in HeldBy(s, v);
      assert x in s.entryLocks && x !in HeldBy(s, t);
    }
    forall v, x | x in HeldBy(u, v) ensures x in u.entryLocks {
      if v != t { assert x in HeldBy(s, v); }
    }
    forall x | x in u.entryLocks ensures exists v :: x in HeldBy(u, v) {
      if x !in HeldBy(u, t) {
        var v :| x in HeldBy(s, v);
        assert x in HeldBy(u, v);
      }
    }
  }

  lemma MovedNames(s: State, u: State, t: Ticket)
    requires Core(s) && Moved(s, u, t)
    ensures RunningNames(u)
  {
    ShownIsHeld(u, t);
    forall v, x | x in ShownBy(u, v) ensures x in u.running && u.running[x] == v {
      if v != t {
        ShownIsHeld(s, v);
        assert x in HeldBy(s, v);
        assert x in s.entryLocks;
      }
    }
    forall x | x in u.running ensures x in ShownBy(u, u.running[x]) {
      if x !in ShownBy(u, t) { assert x in ShownBy(s, s.running[x]); }
    }
  }

  lemma MovedKeeps(s: State, u: State, t: Ticket)
    requires Core(s) && Moved(s, u, t) && Shaped(u) && !u.panicked
    ensures Core(u)
  {
    MovedExclusive(s, u, t);
    MovedNames(s, u, t);
  }

  /** A known ticket moves without gaining or giving up anything. */
  lemma PlainMove(s: State, t: Ticket, p: Place, u: State)
    requires Core(s) && Known(s, t) && u.place == s.place[t := p] && u.jobs == s.jobs
    requires u.entryLocks == s.entryLocks && u.running == s.running && u.panicked == s.panicked
    requires Held(p, s.jobs[t].shards) == HeldBy(s, t) && Shown(p, s.jobs[t].shards) == ShownBy(s, t)
    requires p.Releasing? ==> p.deleted <= p.rest <= s.jobs[t].shards
    ensures Core(u)
  {
    SameHeldKeeps(s, u);
  }

  /** The queue is the same, and no ticket starts or stops waiting. */
  lemma QueueSame(s: State, u: State)
    requires QueueOk(s) && u.queue == s.queue && u.maxLen == s.maxLen && u.jobs == s.jobs
    requires forall t :: At(u, t) == Some(Waiting) <==> At(s, t) == Some(Waiting)
    ensures QueueOk(u)
  {
    forall i | i in u.queue ensures Queued(u, u.queue[i], i) {
      assert Queued(s, s.queue[i], i);
      assert At(s, s.queue[i]) == Some(Waiting);
    }
    forall t | t in u.place && u.place[t] == Waiting
      ensures t in u.jobs && u.jobs[t].id in u.queue && u.queue[u.jobs[t].id] == t
    {
      assert At(u, t) == Some(Waiting);
    }
  }

  /** A loop ends its turn: its ticket goes where no turn is needed. */
  lemma TurnEnds(s: State, t: Ticket, l: Loop, p: Place, u: State)
    requires LoopsOk(s) && t in s.place && (s.place[t] == Popped(l) || s.place[t] == Refused(l))
    requires u.place == s.place[t := p] && u.loops == s.loops[l := Popping]
    requires p in {Discarded, Locked(l), Waiting}
    ensures LoopsOk(u)
  {
    assert InMode(s, l, Turn(t));
  }

  /** A ticket moves that is in no turn before or after, and the loops stay. */
  lemma NoTurn(s: State, t: Ticket, p: Place, u: State)
    requires LoopsOk(s) && u.place == s.place[t := p] && u.loops == s.loops
    requires !p.Popped? && !p.Refused? && !p.Locked? && (p.Registered? ==> InMode(s, p.loop, Starting))
    ensures LoopsOk(u)
  {
  }

  // ----- one lemma for each step -----

  /** A change of mode touches neither the locks nor the queue. */
  lemma ModeKeeps(s: State, l: Loop, m: Mode, u: State)
    requires Core(s) && QueueOk(s) && u == ModeTo(s, l, m)
    ensures Core(u) && QueueOk(u)
  {
    SameHeldKeeps(s, u);
    QueueSame(s, u);
  }

  lemma JoinKeeps(s: State, l: Loop, u: State)
    requires Inv(s) && Enabled(s, Join(l)) && u == Do(s, Join(l))
    ensures Inv(u)
  {
    ModeKeeps(s, l, Popping, u);
  }

  lemma SubmitCore(s: State, t: Ticket, job: Job, u: State)
    requires Core(s) && t !in s.place && u.place == s.place[t := Waiting] && u.jobs == s.jobs[t := job]
    requires u.entryLocks == s.entryLocks && u.running == s.running && u.panicked == s.panicked
    ensures Core(u)
  {
    forall v ensures HeldBy(u, v) == HeldBy(s, v) && ShownBy(u, v) == ShownBy(s, v) {}
    SameHeldKeeps(s, u);
  }

  lemma OneLonger(queue: map<nat, Ticket>, id: nat, t: Ticket)
    requires id !in queue
    ensures |queue[id := t]| == |queue| + 1
  {
    assert queue[id := t].Keys == queue.Keys + {id};
  }

  lemma AddsQueued(s: State, t: Ticket, job: Job, u: State)
    requires QueueOk(s) && job.id !in s.queue && At(s, t) != Some(Waiting)
    requires u.place == s.place[t := Waiting] && u.jobs == s.jobs[t := job] && u.queue == s.queue[job.id := t]
    ensures forall i :: i in u.queue ==> Queued(u, u.queue[i], i)
  {
    forall i | i in u.queue ensures Queued(u, u.queue[i], i) {
      if i != job.id { assert Queued(s, s.queue[i], i); }
    }
  }

  /** A ticket that was not waiting is pushed. */
  lemma QueueAdds(s: State, t: Ticket, job: Job, u: State)
    requires QueueOk(s) && CanPush(s, job.id) && At(s, t) != Some(Waiting) && (t in s.jobs ==> s.jobs[t] == job)
    requires u.place == s.place[t := Waiting] && u.jobs == s.jobs[t := job]
    requires u.queue == s.queue[job.id := t] && u.maxLen == s.maxLen
    ensures QueueOk(u)
  {
    OneLonger(s.queue, job.id, t);
    AddsQueued(s, t, job, u);
    forall r | r in u.place && u.place[r] == Waiting
      ensures r in u.jobs && u.jobs[r].id in u.queue && u.queue[u.jobs[r].id] == r
    {
      if r != t { assert s.place[r] == Waiting; }
    }
  }

  /** A waiting ticket is popped. */
  lemma QueueTakes(s: State, t: Ticket, p: Place, u: State)
    requires QueueOk(s) && Known(s, t) && s.place[t] == Waiting && p != Waiting
    requires u.place == s.place[t := p] && u.jobs == s.jobs
    requires u.queue == s.queue - {s.jobs[t].id} && u.maxLen == s.maxLen
    ensures QueueOk(u)
  {
    assert u.queue.Keys == s.queue.Keys - {s.jobs[t].id};
    assert |u.queue.Keys| <= |s.queue.Keys|;
    forall i | i in u.queue ensures Queued(u, u.queue[i], i) { assert Queued(s, s.queue[i], i); }
  }

  lemma SubmitKeeps(s: State, t: Ticket, job: Job, u: State)
    requires Inv(s) && Enabled(s, Submit(t, job)) && u == Do(s, Submit(t, job))
    ensures Inv(u)
  {
    SubmitCore(s, t, job, u);
    QueueAdds(s, t, job, u);
    NoTurn(s, t, Waiting, u);
  }

  lemma TurnBegins(s: State, t: Ticket, l: Loop, u: State)
    requires LoopsOk(s) && InMode(s, l, Popping) && u.place == s.place[t := Popped(l)]
    requires u.loops == s.loops[l := Turn(t)]
    ensures LoopsOk(u)
  {
  }

  lemma PopKeeps(s: State, t: Ticket, l: Loop, u: State)
    requires Inv(s) && Enabled(s, Pop(t, l)) && u == Do(s, Pop(t, l))
    ensures Inv(u)
  {
    PlainMove(s, t, Popped(l), u);
    QueueTakes(s, t, Popped(l), u);
    TurnBegins(s, t, l, u);
  }

  lemma InvalidKeeps(s: State, t: Ticket, u: State)
    requires Inv(s) && Enabled(s, Invalid(t)) && u == Do(s, Invalid(t))
    ensures Inv(u)
  {
    PlainMove(s, t, Discarded, u);
    QueueSame(s, u);
    TurnEnds(s, t, s.place[t].loop, Discarded, u);
  }

  /** The ticket gets its locks. */
  lemma LockCore(s: State, t: Ticket, l: Loop, u: State)
    requires Core(s) && Known(s, t) && s.place[t] == Popped(l) && s.jobs[t].shards !! s.entryLocks
    requires u.place == s.place[t := Locked(l)] && u.jobs == s.jobs
    requires u.running == s.running && u.panicked == s.panicked
    requires u.entryLocks == s.entryLocks + s.jobs[t].shards
    ensures Core(u)
  {
    assert ShownBy(s, t) == ShownBy(u, t) == {};
    SameRunning(s.running, t, {});
    assert Moved(s, u, t);
    MovedKeeps(s, u, t);
  }

  lemma LockKeeps(s: State, t: Ticket, u: State)
    requires Inv(s) && Enabled(s, TryLock(t)) && u == Do(s, TryLock(t)) && s.jobs[t].shards !! s.entryLocks
    ensures Inv(u)
  {
    LockCore(s, t, s.place[t].loop, u);
    QueueSame(s, u);
    TurnEnds(s, t, s.place[t].loop, Locked(s.place[t].loop), u);
  }

  lemma RefuseKeeps(s: State, t: Ticket, u: State)
    requires Inv(s) && Enabled(s, TryLock(t)) && u == Do(s, TryLock(t)) && !(s.jobs[t].shards !! s.entryLocks)
    ensures Inv(u)
  {
    PlainMove(s, t, Refused(s.place[t].loop), u);
    QueueSame(s, u);
  }

  lemma RequeueKeeps(s: State, t: Ticket, u: State)
    requires Inv(s) && Enabled(s, Requeue(t)) && u == Do(s, Requeue(t))
    ensures Inv(u)
  {
    PlainMove(s, t, Waiting, u);
    assert s.jobs[t := s.jobs[t]] == s.jobs;
    QueueAdds(s, t, s.jobs[t], u);
    TurnEnds(s, t, s.place[t].loop, Waiting, u);
  }

  /** Stranded tickets hold what ready ones do. */
  lemma DropCore(s: State, t: Ticket, l: Loop, u: State)
    requires Core(s) && Known(s, t) && s.place[t] == Refused(l) && u.place == Dropped(s.place, l)[t := Lost]
    requires u.jobs == s.jobs && u.entryLocks == s.entryLocks && u.running == s.running && u.panicked == s.panicked
    ensures Core(u)
  {
    forall v ensures HeldBy(u, v) == HeldBy(s, v) && ShownBy(u, v) == ShownBy(s, v) {}
    SameHeldKeeps(s, u);
  }

  lemma DropLoops(s: State, t: Ticket, l: Loop, u: State)
    requires LoopsOk(s) && t in s.place && s.place[t] == Refused(l)
    requires u.place == Dropped(s.place, l)[t := Lost] && u.loops == s.loops[l := Popping]
    ensures LoopsOk(u)
  {
    assert InMode(s, l, Turn(t));
  }

  lemma RequeueFailsKeeps(s: State, t: Ticket, u: State)
    requires Inv(s) && Enabled(s, RequeueFails(t)) && u == Do(s, RequeueFails(t))
    ensures Inv(u)
  {
    DropCore(s, t, s.place[t].loop, u);
    QueueSame(s, u);
    DropLoops(s, t, s.place[t].loop, u);
  }

  lemma ReturnKeeps(s: State, l: Loop, u: State)
    requires Inv(s) && Enabled(s, Return(l)) && u == Do(s, Return(l))
    ensures Inv(u)
  {
    ModeKeeps(s, l, Starting, u);
  }

  lemma RegisterCore(s: State, t: Ticket, l: Loop, u: State)
    requires Core(s) && Known(s, t) && s.place[t] == Locked(l)
    requires u == Move(s, t, Registered(l)).(running := s.running + map x | x in s.jobs[t].shards :: t)
    ensures Core(u)
  {
    assert ShownBy(s, t) == {} && ShownBy(u, t) == s.jobs[t].shards;
    assert s.running - {} == s.running;
    assert Moved(s, u, t);
    MovedKeeps(s, u, t);
  }

  lemma RegisterKeeps(s: State, t: Ticket, u: State)
    requires Inv(s) && Enabled(s, Register(t)) && u == Do(s, Register(t))
    ensures Inv(u)
  {
    RegisterCore(s, t, s.place[t].loop, u);
    QueueSame(s, u);
    NoTurn(s, t, Registered(s.place[t].loop), u);
  }

  lemma StartKeeps(s: State, t: Ticket, u: State)
    requires Inv(s) && Enabled(s, StartWorker(t)) && u == Do(s, StartWorker(t))
    ensures Inv(u)
  {
    PlainMove(s, t, Running, u);
    QueueSame(s, u);
    NoTurn(s, t, Running, u);
  }

  lemma LoopsAgain(s: State, l: Loop, u: State)
    requires LoopsOk(s) && InMode(s, l, Starting) && NoneAt(s, Registered(l)) && u == ModeTo(s, l, Popping)
    ensures LoopsOk(u)
  {
  }

  lemma AgainKeeps(s: State, l: Loop, u: State)
    requires Inv(s) && Enabled(s, Again(l)) && u == Do(s, Again(l))
    ensures Inv(u)
  {
    ModeKeeps(s, l, Popping, u);
    LoopsAgain(s, l, u);
  }

  lemma FinishKeeps(s: State, t: Ticket, u: State)
    requires Inv(s) && Enabled(s, Finish(t)) && u == Do(s, Finish(t))
    ensures Inv(u)
  {
    PlainMove(s, t, Releasing(s.jobs[t].shards, {}), u);
    WorkerMove(s, t, Releasing(s.jobs[t].shards, {}), u);
  }

  /** The running map without one shard of a ticket. */
  lemma OneLess(running: map<Shard, Ticket>, t: Ticket, shown: set<Shard>, x: Shard)
    requires forall y :: y in shown ==> y in running && running[y] == t
    requires x in shown
    ensures running - {x} == running - shown + map y | y in shown - {x} :: t
  {
  }

  lemma DeleteCore(s: State, t: Ticket, rest: set<Shard>, x: Shard, u: State)
    requires Core(s) && Known(s, t) && s.place[t] == Releasing(rest, {}) && x in rest
    requires u == Move(s, t, Releasing(rest, {x})).(running := s.running - {x})
    ensures Core(u)
  {
    assert ShownBy(s, t) == rest && ShownBy(u, t) == rest - {x};
    OneLess(s.running, t, rest, x);
    MovedKeeps(s, u, t);
  }

  lemma DeleteKeeps(s: State, t: Ticket, x: Shard, u: State)
    requires Inv(s) && Enabled(s, Delete(t, x)) && u == Do(s, Delete(t, x))
    ensures Inv(u)
  {
    var rest := s.place[t].rest;
    DeleteCore(s, t, rest, x, u);
    WorkerMove(s, t, Releasing(rest, {x}), u);
  }

  /** A step of a worker touches neither the queue nor the loops. */
  lemma WorkerMove(s: State, t: Ticket, p: Place, u: State)
    requires QueueOk(s) && LoopsOk(s) && u.queue == s.queue && u.maxLen == s.maxLen && u.jobs == s.jobs
    requires At(s, t) != Some(Waiting) && (p.Releasing? || p.Done?) && u.place == s.place[t := p] && u.loops == s.loops
    ensures QueueOk(u) && LoopsOk(u)
  {
    QueueSame(s, u);
    NoTurn(s, t, p, u);
  }

  lemma SameRunning(running: map<Shard, Ticket>, t: Ticket, shown: set<Shard>)
    requires forall y :: y in shown ==> y in running && running[y] == t
    ensures running == running - shown + map y | y in shown :: t
  {
  }

  /** The lock that a worker releases is locked, so it does not panic. */
  lemma UnLockCore(s: State, t: Ticket, rest: set<Shard>, x: Shard, u: State)
    requires Core(s) && Known(s, t) && s.place[t] == Releasing(rest, {x})
    requires u == Move(s, t, Releasing(rest - {x}, {})).(entryLocks := s.entryLocks - {x})
    ensures x in s.entryLocks && Core(u)
  {
    assert x in HeldBy(s, t);
    assert ShownBy(u, t) == ShownBy(s, t);
    SameRunning(s.running, t, ShownBy(s, t));
    MovedKeeps(s, u, t);
  }

  lemma UnLockKeeps(s: State, t: Ticket, x: Shard, u: State)
    requires Inv(s) && Enabled(s, UnLock(t, x)) && u == Do(s, UnLock(t, x))
    ensures x in s.entryLocks && Inv(u)
  {
    var v := Move(s, t, Releasing(s.place[t].rest - {x}, {})).(entryLocks := s.entryLocks - {x});
    UnLockCore(s, t, s.place[t].rest, x, v);
    QueueSame(s, u);
    NoTurn(s, t, u.place[t], u);
  }

  lemma EndKeeps(s: State, t: Ticket, u: State)
    requires Inv(s) && Enabled(s, End(t)) && u == Do(s, End(t))
    ensures Inv(u)
  {
    PlainMove(s, t, Done, u);
    WorkerMove(s, t, Done, u);
  }

  lemma ActionKeeps(s: State, a: Step, u: State)
    requires Inv(s) && Enabled(s, a) && u == Do(s, a)
    ensures Inv(u)
  {
    match a
    case Join(l) => JoinKeeps(s, l, u);
    case Submit(t, job) => SubmitKeeps(s, t, job, u);
    case Pop(t, l) => PopKeeps(s, t, l, u);
    case Invalid(t) => InvalidKeeps(s, t, u);
    case TryLock(t) => if s.jobs[t].shards !! s.entryLocks { LockKeeps(s, t, u); } else { RefuseKeeps(s, t, u); }
    case Requeue(t) => RequeueKeeps(s, t, u);
    case RequeueFails(t) => RequeueFailsKeeps(s, t, u);
    case Return(l) => ReturnKeeps(s, l, u);
    case Register(t) => RegisterKeeps(s, t, u);
    case StartWorker(t) => StartKeeps(s, t, u);
    case Again(l) => AgainKeeps(s, l, u);
    case Finish(t) => FinishKeeps(s, t, u);
    case Delete(t, x) => DeleteKeeps(s, t, x, u);
    case UnLock(t, x) => UnLockKeeps(s, t, x, u);
    case End(t) => EndKeeps(s, t, u);
  }

  lemma StepKeeps(s: State, u: State)
    requires Inv(s) && Next(s, u)
    ensures Inv(u)
  {
    var a :| Enabled(s, a) && u == Do(s, a);
    ActionKeeps(s, a, u);
  }

  // ----- the laws of the scheduler -----

  lemma InvThroughout(run: seq<State>)
    requires IsRun(Next, run) && Start(run[0])
    ensures forall i :: 0 <= i < |run| ==> Inv(run[i])
  {
    forall s, u | Inv(s) && Next(s, u) ensures Inv(u) { StepKeeps(s, u); }
    HoldsThroughout(Next, Inv, run);
  }

  /** In every state of every run no two tickets hold the lock of one shard, the lock set is exactly what
      the tickets hold, every runningProcedures entry names the ticket that holds the shard's lock, the queue
      has each waiting ticket once, under different IDs and within its length, and no UnLock has panicked. */
  lemma AlwaysExclusive(run: seq<State>)
    requires IsRun(Next, run) && Start(run[0])
    ensures forall i :: 0 <= i < |run| ==>
      Exclusive(run[i]) && LocksHeld(run[i]) && RunningNames(run[i]) && QueueOk(run[i]) && !run[i].panicked
  {
    InvThroughout(run);
    forall i | 0 <= i < |run|
      ensures Exclusive(run[i]) && LocksHeld(run[i]) && RunningNames(run[i]) && QueueOk(run[i]) && !run[i].panicked
    {
      assert Inv(run[i]);
    }
  }

  /** Two jobs that run at the same time share no shard. */
  lemma RunningApart(run: seq<State>, i: nat, t: Ticket, u: Ticket)
    requires IsRun(Next, run) && Start(run[0]) && i < |run| && t != u
    requires At(run[i], t) == At(run[i], u) == Some(Running)
    ensures Known(run[i], t) && Known(run[i], u) && run[i].jobs[t].shards !! run[i].jobs[u].shards
  {
    InvThroughout(run);
    var s := run[i];
    assert Inv(s);
    assert HeldBy(s, t) == s.jobs[t].shards && HeldBy(s, u) == s.jobs[u].shards;
    assert forall x :: x in HeldBy(s, t) && x in HeldBy(s, u) ==> t == u;
  }

  lemma RegisterAddsOnly(s: State, t: Ticket, x: Shard)
    requires Inv(s) && Enabled(s, Register(t)) && x in s.running
    ensures x !in s.jobs[t].shards
  {
    assert x in ShownBy(s, s.running[x]);
    ShownIsHeld(s, s.running[x]);
    assert x in HeldBy(s, s.running[x]);
    assert x in s.jobs[t].shards ==> x in HeldBy(s, t);
  }

  lemma RunningSame(s: State, a: Step, u: State)
    requires Enabled(s, a) && u == Do(s, a) && !a.Register? && !a.Delete?
    ensures u.running == s.running
  {
  }

  lemma ShowsOwnEntry(s: State, t: Ticket, y: Shard)
    requires RunningNames(s) && Enabled(s, Delete(t, y))
    ensures y in s.running && s.running[y] == t
  {
    assert y in ShownBy(s, t);
  }

  lemma DeletesOwnEntry(s: State, t: Ticket, y: Shard, x: Shard, u: State)
    requires Inv(s) && Enabled(s, Delete(t, y)) && u == Do(s, Delete(t, y)) && x in s.running
    ensures (x in u.running && u.running[x] == s.running[x]) || (x == y && s.running[x] == t)
  {
    ShowsOwnEntry(s, t, y);
    assert u.running == s.running - {y};
  }

  /** A runningProcedures entry is removed or replaced by nobody but the worker of the ticket it names. */
  lemma EntryRemovedByOwner(s: State, a: Step, u: State, x: Shard)
    requires Inv(s) && Enabled(s, a) && u == Do(s, a) && x in s.running
    ensures (x in u.running && u.running[x] == s.running[x]) || a == Delete(s.running[x], x)
  {
    if a.Register? {
      RegisterAddsOnly(s, a.t, x);
    } else if a.Delete? {
      DeletesOwnEntry(s, a.t, a.shard, x, u);
    } else {
      RunningSame(s, a, u);
    }
  }

  /** The ticket whose place a step is about. */
  function Subject(a: Step): Option<Ticket>
  {
    match a
    case Join(_) => None
    case Return(_) => None
    case Again(_) => None
    case _ => Some(a.t)
  }

  /** Where the ticket of a step is afterwards. */
  function Landing(s: State, a: Step): Place
    requires Enabled(s, a) && Subject(a).Some?
  {
    match a
    case Submit(_, _) => Waiting
    case Pop(_, l) => Popped(l)
    case Invalid(_) => Discarded
    case TryLock(t) => if s.jobs[t].shards !! s.entryLocks then Locked(s.place[t].loop) else Refused(s.place[t].loop)
    case Requeue(_) => Waiting
    case RequeueFails(_) => Lost
    case Register(t) => Registered(s.place[t].loop)
    case StartWorker(_) => Running
    case Finish(t) => Releasing(s.jobs[t].shards, {})
    case Delete(t, x) => Releasing(s.place[t].rest, {x})
    case UnLock(t, x) => if x !in s.entryLocks then s.place[t] else Releasing(s.place[t].rest - {x}, {})
    case End(_) => Done
  }

  /** What a step does to the places and the jobs. */
  ghost predicate Places(s: State, a: Step, u: State)
    requires Enabled(s, a)
  {
    && u.jobs == (if a.Submit? then s.jobs[a.t := a.job] else s.jobs)
    && u.place == if Subject(a).None? then s.place
                  else if a.RequeueFails? then Dropped(s.place, s.place[a.t].loop)[a.t := Lost]
                  else s.place[a.t := Landing(s, a)]
  }

  lemma QueuePlaces(s: State, a: Step, u: State)
    requires Enabled(s, a) && u == Do(s, a) && (a.Pop? || a.Invalid? || a.Requeue? || a.RequeueFails?)
    ensures Places(s, a, u)
  {
  }

  lemma LockPlaces(s: State, a: Step, u: State)
    requires Enabled(s, a) && u == Do(s, a) && (a.TryLock? || a.Register? || a.StartWorker?)
    ensures Places(s, a, u)
  {
  }

  lemma OtherPlaces(s: State, a: Step, u: State)
    requires Enabled(s, a) && u == Do(s, a)
    requires Subject(a).None? || a.Submit? || a.Finish? || a.Delete? || a.UnLock? || a.End?
    ensures Places(s, a, u)
  {
  }

  lemma StepPlaces(s: State, a: Step, u: State)
    requires Enabled(s, a) && u == Do(s, a)
    ensures Places(s, a, u)
  {
    if Subject(a).None? || a.Submit? || a.Finish? || a.Delete? || a.UnLock? || a.End? {
      OtherPlaces(s, a, u);
    } else if a.TryLock? || a.Register? || a.StartWorker? {
      LockPlaces(s, a, u);
    } else {
      QueuePlaces(s, a, u);
    }
  }

  lemma Lands(s: State, a: Step, u: State, t: Ticket)
    requires Enabled(s, a) && Places(s, a, u) && Subject(a) == Some(t)
    ensures t in u.place && u.place[t] == Landing(s, a)
    ensures Known(s, t) ==> t in u.jobs && u.jobs[t] == s.jobs[t]
  {
  }

  /** A step moves its own ticket; a failed push strands ready tickets of its loop besides. */
  lemma OthersStay(s: State, a: Step, u: State, t: Ticket)
    requires Enabled(s, a) && Places(s, a, u) && Subject(a) != Some(t) && Known(s, t)
    ensures Known(u, t) && u.jobs[t] == s.jobs[t]
    ensures u.place[t] == s.place[t]
      || (a.RequeueFails? && s.place[t] == Locked(s.place[a.t].loop) && u.place[t] == Stranded)
  {
  }

  lemma NewTickets(s: State, a: Step, u: State, t: Ticket)
    requires Enabled(s, a) && Places(s, a, u) && t in u.place && Subject(a) != Some(t)
    ensures t in s.place
  {
  }

  lemma LandingHeld(s: State, a: Step, t: Ticket, x: Shard)
    requires Enabled(s, a) && Subject(a) == Some(t) && x in HeldBy(s, t)
    ensures x in Held(Landing(s, a), s.jobs[t].shards) || a == UnLock(t, x)
  {
  }

  /** A lock is released by nobody but the worker of the ticket that holds it. */
  lemma LockReleasedByOwner(s: State, a: Step, u: State, t: Ticket, x: Shard)
    requires Enabled(s, a) && u == Do(s, a) && x in HeldBy(s, t)
    ensures x in HeldBy(u, t) || a == UnLock(t, x)
  {
    StepPlaces(s, a, u);
    if Subject(a) == Some(t) {
      LandingHeld(s, a, t, x);
      Lands(s, a, u, t);
    } else {
      OthersStay(s, a, u, t);
    }
  }

  // ----- a failed push -----

  /** The push of a refused ticket fails: the queue is full or has its ID. */
  ghost predicate PushFails(s: State, u: State, t: Ticket)
  {
    Known(s, t) && s.place[t].Refused? && !CanPush(s, s.jobs[t].id) && u == Do(s, RequeueFails(t))
  }

  /** The ticket is on the list of ready procedures that a failed push of another ticket drops. */
  ghost predicate DropsReady(s: State, u: State, t: Ticket, r: Ticket)
  {
    PushFails(s, u, t) && At(s, r) == Some(Locked(s.place[t].loop))
  }

  ghost predicate Drops(s: State, u: State, r: Ticket)
  {
    exists t :: DropsReady(s, u, t, r)
  }

  /** At its push a turn strands the ready procedures of its loop if and only if the queue is full or has the
      procedure's ID. */
  lemma StrandsExactly(s: State, a: Step, u: State, t: Ticket, r: Ticket)
    requires Inv(s) && Enabled(s, a) && u == Do(s, a) && (a.Requeue? || a.RequeueFails?) && a.t == t
    requires Known(s, r) && s.place[r] == Locked(s.place[t].loop)
    ensures At(u, r) == Some(Stranded) <==> |s.queue| >= s.maxLen || s.jobs[t].id in s.queue
    ensures At(u, r) == Some(Stranded) <==> At(u, t) == Some(Lost)
  {
  }

  lemma OwnNeverStranded(s: State, a: Step, u: State, t: Ticket)
    requires Enabled(s, a) && u == Do(s, a) && Subject(a) == Some(t)
    ensures At(s, t) != Some(Stranded) && At(u, t) != Some(Stranded)
  {
    StepPlaces(s, a, u);
    Lands(s, a, u, t);
    LandsNotStranded(s, a, t);
  }

  lemma LandsNotStranded(s: State, a: Step, t: Ticket)
    requires Enabled(s, a) && Subject(a) == Some(t)
    ensures At(s, t) != Some(Stranded) && Landing(s, a) != Stranded
  {
  }

  lemma StaysStranded(s: State, u: State, r: Ticket)
    requires Shaped(s) && Next(s, u) && At(s, r) == Some(Stranded)
    ensures At(u, r) == Some(Stranded) && Known(s, r) && Known(u, r) && u.jobs[r] == s.jobs[r]
  {
    var a :| Enabled(s, a) && u == Do(s, a);
    if Subject(a) == Some(r) { OwnNeverStranded(s, a, u, r); }
    StepPlaces(s, a, u);
    OthersStay(s, a, u, r);
  }

  lemma StrandedHow(s: State, u: State, r: Ticket)
    requires Shaped(s) && Next(s, u) && At(s, r) != Some(Stranded) && At(u, r) == Some(Stranded)
    ensures Drops(s, u, r)
  {
    var a :| Enabled(s, a) && u == Do(s, a);
    if Subject(a) == Some(r) { OwnNeverStranded(s, a, u, r); }
    StepPlaces(s, a, u);
    NewTickets(s, a, u, r);
    OthersStay(s, a, u, r);
    assert DropsReady(s, u, a.t, r);
  }

  /** Only a failed push strands a procedure, it strands every ready one of its loop, and nothing takes them up
      again. */
  lemma StrandedStep(s: State, u: State, r: Ticket)
    requires Shaped(s) && Next(s, u)
    ensures At(u, r) == Some(Stranded) <==> At(s, r) == Some(Stranded) || Drops(s, u, r)
  {
    if At(s, r) == Some(Stranded) {
      StaysStranded(s, u, r);
    } else if At(u, r) == Some(Stranded) {
      StrandedHow(s, u, r);
    }
  }

  /** A push failed between two states of a run and dropped the ready procedure. */
  ghost predicate DroppedAt(run: seq<State>, j: nat, r: Ticket)
  {
    j + 1 < |run| && Drops(run[j], run[j + 1], r)
  }

  ghost predicate DroppedBefore(run: seq<State>, i: nat, r: Ticket)
  {
    exists j :: 0 <= j < i && DroppedAt(run, j, r)
  }

  lemma {:induction false} StrandedSoFar(run: seq<State>, i: nat, r: Ticket)
    requires IsRun(Next, run) && Start(run[0]) && i < |run| && forall k :: 0 <= k < |run| ==> Shaped(run[k])
    ensures At(run[i], r) == Some(Stranded) <==> DroppedBefore(run, i, r)
    decreases i
  {
    if i > 0 {
      var j := i - 1;
      StrandedSoFar(run, j, r);
      assert Next(run[j], run[j + 1]);
      StrandedStep(run[j], run[j + 1], r);
      assert DroppedBefore(run, i, r) <==> DroppedBefore(run, j, r) || DroppedAt(run, j, r);
    }
  }

  /** In every run a procedure is stranded if and only if, earlier on, it was ready when a push of its loop found
      the queue full or with the procedure's ID. */
  lemma StrandedExactly(run: seq<State>, i: nat, r: Ticket)
    requires IsRun(Next, run) && Start(run[0]) && i < |run|
    ensures At(run[i], r) == Some(Stranded) <==> DroppedBefore(run, i, r)
  {
    InvThroughout(run);
    forall k | 0 <= k < |run| ensures Shaped(run[k]) { assert Inv(run[k]); }
    StrandedSoFar(run, i, r);
  }

  lemma JobKept(s: State, u: State, r: Ticket)
    requires Next(s, u) && Known(s, r)
    ensures Known(u, r) && u.jobs[r] == s.jobs[r]
  {
    var a :| Enabled(s, a) && u == Do(s, a);
    StepPlaces(s, a, u);
    if Subject(a) == Some(r) { Lands(s, a, u, r); } else { OthersStay(s, a, u, r); }
  }

  lemma JobStays(run: seq<State>, j: nat, i: nat, r: Ticket)
    requires IsRun(Next, run) && j <= i < |run| && Known(run[j], r)
    ensures Known(run[i], r) && run[i].jobs[r] == run[j].jobs[r]
  {
    var job := run[j].jobs[r];
    var inv := (s: State) => Known(s, r) && s.jobs[r] == job;
    forall s, u | inv(s) && Next(s, u) ensures inv(u) { JobKept(s, u, r); }
    Suffix(run, j);
    HoldsThroughout(Next, inv, run[j..]);
    assert inv(run[j..][i - j]);
  }

  lemma Suffix(run: seq<State>, j: nat)
    requires IsRun(Next, run) && j < |run|
    ensures IsRun(Next, run[j..])
  {
    var rest := run[j..];
    forall i | 0 < i < |rest| ensures Next(rest[i - 1], rest[i]) { assert Next(run[j + i - 1], run[j + i]); }
  }

  lemma StrandedHolds(s: State, r: Ticket)
    requires Inv(s) && At(s, r) == Some(Stranded)
    ensures Known(s, r) && s.jobs[r].shards <= s.entryLocks
  {
    assert HeldBy(s, r) == s.jobs[r].shards;
    forall x | x in s.jobs[r].shards ensures x in s.entryLocks { assert x in HeldBy(s, r); }
  }

  lemma ReadyIsKnown(run: seq<State>, j: nat, r: Ticket)
    requires IsRun(Next, run) && Start(run[0]) && DroppedAt(run, j, r)
    ensures Known(run[j], r)
  {
    InvThroughout(run);
    assert Inv(run[j]);
  }

  /** From then on its locks are never released. */
  lemma StrandedForever(run: seq<State>, j: nat, i: nat, r: Ticket)
    requires IsRun(Next, run) && Start(run[0]) && j < i < |run| && DroppedAt(run, j, r)
    ensures Known(run[j], r) && run[j].jobs[r].shards <= run[i].entryLocks
  {
    ReadyIsKnown(run, j, r);
    JobStays(run, j, i, r);
    assert DroppedBefore(run, i, r);
    StrandedExactly(run, i, r);
    InvThroughout(run);
    assert Inv(run[i]);
    StrandedHolds(run[i], r);
  }

  /** No ticket is between its lock and the end of its release. */
  ghost predicate Quiet(s: State)
  {
    forall t :: t in s.place ==>
      !s.place[t].Locked? && !s.place[t].Registered? && !s.place[t].Running? && !s.place[t].Releasing?
  }

  lemma QuietLocks(s: State)
    requires Inv(s) && Quiet(s)
    ensures s.entryLocks == {} <==> forall r :: At(s, r) == Some(Stranded) ==> s.jobs[r].shards == {}
  {
    if forall r :: At(s, r) == Some(Stranded) ==> s.jobs[r].shards == {} {
      forall x | x in s.entryLocks ensures false { var t :| x in HeldBy(s, t); }
    } else {
      var r :| At(s, r) == Some(Stranded) && s.jobs[r].shards != {};
      var x := Witness(s.jobs[r].shards);
      assert x in HeldBy(s, r);
    }
  }

  /** When nothing is under way, all locks are free if and only if no push of the run found the queue full or with
      its procedure's ID while its loop had a procedure with a shard ready. */
  lemma LeakExactly(run: seq<State>)
    requires IsRun(Next, run) && Start(run[0]) && Quiet(run[|run| - 1])
    ensures run[|run| - 1].entryLocks == {}
      <==> forall j, r :: 0 <= j && DroppedAt(run, j, r) ==> Known(run[j], r) && run[j].jobs[r].shards == {}
  {
    var last := |run| - 1;
    InvThroughout(run);
    assert Inv(run[last]);
    QuietLocks(run[last]);
    forall j: nat, r | DroppedAt(run, j, r)
      ensures At(run[last], r) == Some(Stranded) && Known(run[j], r) && run[last].jobs[r] == run[j].jobs[r]
    {
      ReadyIsKnown(run, j, r);
      StrandedExactly(run, last, r);
      assert DroppedBefore(run, last, r);
      JobStays(run, j, last, r);
    }
    forall r | At(run[last], r) == Some(Stranded) ensures DroppedBefore(run, last, r) {
      StrandedExactly(run, last, r);
    }
  }

  // ----- a whole life, and a leak -----

  lemma StepTo(s0: State, s: State, a: Step, u: State)
    requires Reaches(Next, s0, s) && Enabled(s, a) && u == Do(s, a)
    ensures Reaches(Next, s0, u)
  {
    ReachesStep(Next, s0, s, u);
  }

  lemma ReleasesOne(s0: State, s: State, t: Ticket, rest: set<Shard>, x: Shard, w: State)
    requires Reaches(Next, s0, s) && Known(s, t) && s.place[t] == Releasing(rest, {}) && x in rest && x in s.entryLocks
    requires w == Move(s, t, Releasing(rest - {x}, {})).(entryLocks := s.entryLocks - {x}, running := s.running - {x})
    ensures Reaches(Next, s0, w)
  {
    var v := Move(s, t, Releasing(rest, {x})).(running := s.running - {x});
    StepTo(s0, s, Delete(t, x), v);
    UpdateTwice(s.place, t, Releasing(rest, {x}), Releasing(rest - {x}, {}));
    StepTo(s0, v, UnLock(t, x), w);
  }

  lemma LessAndLess<K, V>(m: map<K, V>, l: set<K>, rest: set<K>, x: K)
    requires x in rest
    ensures m - {x} - (rest - {x}) == m - rest && l - {x} - (rest - {x}) == l - rest
  {
  }

  /** A worker gives back what its ticket holds, in any order of the shards, and nothing else. */
  lemma {:induction false} ReleasesAll(s0: State, s: State, t: Ticket, rest: set<Shard>, u: State)
    requires Reaches(Next, s0, s) && Known(s, t) && s.place[t] == Releasing(rest, {}) && rest <= s.entryLocks
    requires u == Move(s, t, Releasing({}, {})).(entryLocks := s.entryLocks - rest, running := s.running - rest)
    ensures Reaches(Next, s0, u)
    decreases |rest|
  {
    if rest == {} {
      assert u == s;
    } else {
      var x := Witness(rest);
      var w := Move(s, t, Releasing(rest - {x}, {})).(entryLocks := s.entryLocks - {x}, running := s.running - {x});
      ReleasesOne(s0, s, t, rest, x, w);
      assert |rest - {x}| == |rest| - 1;
      LessAndLess(s.running, s.entryLocks, rest, x);
      UpdateTwice(s.place, t, Releasing(rest - {x}, {}), Releasing({}, {}));
      ReleasesAll(s0, w, t, rest - {x}, u);
    }
  }

  /** A loop that is about to pop can make a waiting ticket ready whose shards are free. */
  lemma CanLock(s0: State, s: State, t: Ticket, l: Loop, u: State)
    requires Reaches(Next, s0, s) && InMode(s, l, Popping)
    requires Known(s, t) && s.place[t] == Waiting && s.jobs[t].shards !! s.entryLocks
    requires var job := s.jobs[t];
      u == Move(s, t, Locked(l)).(entryLocks := s.entryLocks + job.shards, queue := s.queue - {job.id})
    ensures Reaches(Next, s0, u)
  {
    var popped := ModeTo(Move(s, t, Popped(l)), l, Turn(t)).(queue := s.queue - {s.jobs[t].id});
    StepTo(s0, s, Pop(t, l), popped);
    UpdateTwice(s.place, t, Popped(l), Locked(l));
    assert popped.loops[l := Popping] == s.loops;
    StepTo(s0, popped, TryLock(t), u);
  }

  /** And it refuses one whose shards are not. */
  lemma CannotLock(s0: State, s: State, t: Ticket, l: Loop, u: State)
    requires Reaches(Next, s0, s) && InMode(s, l, Popping)
    requires Known(s, t) && s.place[t] == Waiting && !(s.jobs[t].shards !! s.entryLocks)
    requires u == ModeTo(Move(s, t, Refused(l)), l, Turn(t)).(queue := s.queue - {s.jobs[t].id})
    ensures Reaches(Next, s0, u)
  {
    var popped := ModeTo(Move(s, t, Popped(l)), l, Turn(t)).(queue := s.queue - {s.jobs[t].id});
    StepTo(s0, s, Pop(t, l), popped);
    UpdateTwice(s.place, t, Popped(l), Refused(l));
    StepTo(s0, popped, TryLock(t), u);
  }

  lemma CanRegister(s0: State, s: State, t: Ticket, l: Loop, u: State)
    requires Reaches(Next, s0, s) && InMode(s, l, Popping) && Known(s, t) && s.place[t] == Locked(l)
    requires var v := Move(ModeTo(s, l, Starting), t, Registered(l));
      u == v.(running := s.running + map x | x in s.jobs[t].shards :: t)
    ensures Reaches(Next, s0, u)
  {
    var starting := ModeTo(s, l, Starting);
    StepTo(s0, s, Return(l), starting);
    StepTo(s0, starting, Register(t), u);
  }

  lemma CanLaunch(s0: State, s: State, t: Ticket, l: Loop, u: State)
    requires Reaches(Next, s0, s) && InMode(s, l, Starting) && Known(s, t) && s.place[t] == Registered(l)
    requires forall r :: r in s.place && r != t ==> s.place[r] != Locked(l) && s.place[r] != Registered(l)
    requires u == ModeTo(Move(s, t, Running), l, Popping)
    ensures Reaches(Next, s0, u)
  {
    var started := Move(s, t, Running);
    StepTo(s0, s, StartWorker(t), started);
    StepTo(s0, started, Again(l), u);
  }

  /** Its ready ticket, if it is the only one, can be started, and the loop is back where it was. */
  lemma CanStart(s0: State, s: State, t: Ticket, l: Loop, u: State)
    requires Reaches(Next, s0, s) && InMode(s, l, Popping) && Known(s, t) && s.place[t] == Locked(l)
    requires forall r :: r in s.place && r != t ==> s.place[r] != Locked(l) && s.place[r] != Registered(l)
    requires u == Move(s, t, Running).(running := s.running + map x | x in s.jobs[t].shards :: t)
    ensures Reaches(Next, s0, u)
  {
    var shown := Move(ModeTo(s, l, Starting), t, Registered(l)).(running := u.running);
    CanRegister(s0, s, t, l, shown);
    UpdateTwice(s.place, t, Registered(l), Running);
    LoopBack(s.loops, l, Popping, Starting);
    CanLaunch(s0, shown, t, l, u);
  }

  lemma LoopBack(loops: map<Loop, Mode>, l: Loop, m: Mode, n: Mode)
    requires l in loops && loops[l] == m
    ensures loops[l := n][l := m] == loops
  {
  }

  /** A running ticket can finish and give everything back. */
  lemma CanFinish(s0: State, s: State, t: Ticket, need: set<Shard>, u: State)
    requires Reaches(Next, s0, s) && Known(s, t) && s.place[t] == Running && s.jobs[t].shards == need <= s.entryLocks
    requires u == Move(s, t, Done).(entryLocks := s.entryLocks - need, running := s.running - need)
    ensures Reaches(Next, s0, u)
  {
    var returned := Move(s, t, Releasing(need, {}));
    StepTo(s0, s, Finish(t), returned);
    UpdateTwice(s.place, t, Releasing(need, {}), Releasing({}, {}));
    var released := Move(s, t, Releasing({}, {})).(entryLocks := s.entryLocks - need, running := s.running - need);
    ReleasesAll(s0, returned, t, need, released);
    UpdateTwice(s.place, t, Releasing({}, {}), Done);
    StepTo(s0, released, End(t), u);
  }

  lemma NothingLeft(s: State, need: set<Shard>, t: Ticket)
    requires Core(s) && need !! s.entryLocks
    ensures s.entryLocks + need - need == s.entryLocks
    ensures (s.running + map x | x in need :: t) - need == s.running
  {
    forall x | x in s.running ensures x !in need {
      ShownIsHeld(s, s.running[x]);
      assert x in HeldBy(s, s.running[x]);
    }
  }

  lemma WholeLife(s: State, t: Ticket, l: Loop, need: set<Shard>)
    requires Known(s, t) && s.place[t] == Waiting && s.jobs[t].shards == need && need !! s.entryLocks
    requires InMode(s, l, Popping) && NoneAt(s, Locked(l)) && NoneAt(s, Registered(l))
    requires s.entryLocks + need - need == s.entryLocks && (s.running + map x | x in need :: t) - need == s.running
    ensures Reaches(Next, s, Move(s, t, Done).(queue := s.queue - {s.jobs[t].id}))
  {
    var runs := Move(s, t, Running).(entryLocks := s.entryLocks + need, queue := s.queue - {s.jobs[t].id},
                                     running := s.running + map x | x in need :: t);
    CanRun(s, t, l, need, runs);
    UpdateTwice(s.place, t, Running, Done);
    CanFinish(s, runs, t, need, Move(s, t, Done).(queue := runs.queue));
  }

  lemma CanRun(s: State, t: Ticket, l: Loop, need: set<Shard>, u: State)
    requires Known(s, t) && s.place[t] == Waiting && s.jobs[t].shards == need && need !! s.entryLocks
    requires InMode(s, l, Popping) && NoneAt(s, Locked(l)) && NoneAt(s, Registered(l))
    requires u == Move(s, t, Running).(entryLocks := s.entryLocks + need, queue := s.queue - {s.jobs[t].id},
                                       running := s.running + map x | x in need :: t)
    ensures Reaches(Next, s, u)
  {
    ReachesSelf(Next, s);
    var locked := Move(s, t, Locked(l)).(entryLocks := s.entryLocks + need, queue := u.queue);
    CanLock(s, s, t, l, locked);
    UpdateTwice(s.place, t, Locked(l), Running);
    CanStart(s, locked, t, l, u);
  }

  /** With a loop that has nothing else ready, a waiting ticket whose shards are free can run from end to end; when
      it is done it has left the queue, and the locks, the running map and the loops are what they were. */
  lemma RunsToTheEnd(s: State, t: Ticket, l: Loop)
    requires Inv(s) && Known(s, t) && s.place[t] == Waiting && s.jobs[t].shards !! s.entryLocks
    requires InMode(s, l, Popping) && NoneAt(s, Locked(l))
    ensures Reaches(Next, s, Move(s, t, Done).(queue := s.queue - {s.jobs[t].id}))
  {
    NothingLeft(s, s.jobs[t].shards, t);
    forall r | r in s.place ensures s.place[r] != Registered(l) { assert !InMode(s, l, Starting); }
    WholeLife(s, t, l, s.jobs[t].shards);
  }

  /** Whatever happens afterwards, a stranded ticket keeps its locks. */
  lemma LockedForGood(s: State, u: State, r: Ticket)
    requires Inv(s) && At(s, r) == Some(Stranded) && Reaches(Next, s, u)
    ensures Known(s, r) && s.jobs[r].shards <= u.entryLocks
  {
    var run :| IsRun(Next, run) && run[0] == s && run[|run| - 1] == u;
    var inv := (v: State) => Inv(v) && At(v, r) == Some(Stranded) && Known(v, r) && v.jobs[r] == s.jobs[r];
    forall v, w | inv(v) && Next(v, w) ensures inv(w) {
      StepKeeps(v, w);
      StaysStranded(v, w, r);
    }
    HoldsThroughout(Next, inv, run);
    assert inv(u);
    StrandedHolds(u, r);
  }

  lemma ReachedInv(s: State, u: State)
    requires Inv(s) && Reaches(Next, s, u)
    ensures Inv(u)
  {
    var run :| IsRun(Next, run) && run[0] == s && run[|run| - 1] == u;
    forall v, w | Inv(v) && Next(v, w) ensures Inv(w) { StepKeeps(v, w); }
    HoldsThroughout(Next, Inv, run);
  }

  /** One loop, and tickets as given. */
  function Scene(maxLen: nat, jobs: map<Ticket, Job>, place: map<Ticket, Place>, queue: map<nat, Ticket>, mode: Mode,
      locks: set<Shard>): State
  {
    State(jobs, place, queue, maxLen, map[0 := mode], locks, map[], false)
  }

  const FIRST := Job(10, {0})
  const SECOND := Job(11, {0})

  lemma FirstIsReady(maxLen: nat, s: State, u: State)
    requires maxLen >= 1 && s == State(map[], map[], map[], maxLen, map[], {}, map[], false)
    requires u == Scene(maxLen, map[0 := FIRST], map[0 := Locked(0)], map[], Popping, {0})
    ensures Reaches(Next, s, u)
  {
    ReachesSelf(Next, s);
    var s1 := Scene(maxLen, map[], map[], map[], Popping, {});
    StepTo(s, s, Join(0), s1);
    var s2 := Scene(maxLen, map[0 := FIRST], map[0 := Waiting], map[10 := 0], Popping, {});
    StepTo(s, s1, Submit(0, FIRST), s2);
    assert s2.queue - {10} == map[];
    CanLock(s, s2, 0, 0, u);
  }

  lemma SecondIsSubmitted(maxLen: nat, s: State, s3: State, s4: State)
    requires maxLen >= 1 && Reaches(Next, s, s3)
    requires s3 == Scene(maxLen, map[0 := FIRST], map[0 := Locked(0)], map[], Popping, {0})
    requires s4 ==
      Scene(maxLen, map[0 := FIRST, 1 := SECOND], map[0 := Locked(0), 1 := Waiting], map[11 := 1], Popping, {0})
    ensures Reaches(Next, s, s4)
  {
    StepTo(s, s3, Submit(1, SECOND), s4);
  }

  lemma SecondIsRefused(maxLen: nat, s: State, s3: State, u: State)
    requires maxLen >= 1 && Reaches(Next, s, s3)
    requires s3 == Scene(maxLen, map[0 := FIRST], map[0 := Locked(0)], map[], Popping, {0})
    requires u == Scene(maxLen, map[0 := FIRST, 1 := SECOND], map[0 := Locked(0), 1 := Refused(0)], map[], Turn(1), {0})
    ensures Reaches(Next, s, u)
  {
    var s4 := Scene(maxLen, u.jobs, map[0 := Locked(0), 1 := Waiting], map[11 := 1], Popping, {0});
    SecondIsSubmitted(maxLen, s, s3, s4);
    assert s4.queue - {11} == map[];
    CannotLock(s, s4, 1, 0, u);
  }

  lemma PushIsRefused(s0: State, s: State, t: Ticket, l: Loop, u: State)
    requires Reaches(Next, s0, s) && Known(s, t) && s.place[t] == Refused(l) && !CanPush(s, s.jobs[t].id)
    requires u == ModeTo(s, l, Popping).(place := Dropped(s.place, l)[t := Lost])
    ensures Reaches(Next, s0, u)
  {
    StepTo(s0, s, RequeueFails(t), u);
  }

  lemma DropsFirst(place: map<Ticket, Place>, after: map<Ticket, Place>)
    requires place == map[0 := Locked(0), 1 := Refused(0), 2 := Waiting]
    requires after == map[0 := Stranded, 1 := Lost, 2 := Waiting]
    ensures Dropped(place, 0)[1 := Lost] == after
  {
  }

  lemma SubmittedAgain(maxLen: nat, s: State, s6: State, s7: State)
    requires maxLen >= 1 && Reaches(Next, s, s6)
    requires s6 ==
      Scene(maxLen, map[0 := FIRST, 1 := SECOND], map[0 := Locked(0), 1 := Refused(0)], map[], Turn(1), {0})
    requires s7 ==
      Scene(maxLen, map[0 := FIRST, 1 := SECOND, 2 := SECOND], map[0 := Locked(0), 1 := Refused(0), 2 := Waiting],
                         map[11 := 2], Turn(1), {0})
    ensures Reaches(Next, s, s7)
  {
    StepTo(s, s6, Submit(2, SECOND), s7);
  }

  lemma PushFindsTheID(maxLen: nat, s: State, s7: State, u: State)
    requires Reaches(Next, s, s7)
    requires s7 ==
      Scene(maxLen, map[0 := FIRST, 1 := SECOND, 2 := SECOND], map[0 := Locked(0), 1 := Refused(0), 2 := Waiting],
                         map[11 := 2], Turn(1), {0})
    requires u == Scene(maxLen, map[0 := FIRST, 1 := SECOND, 2 := SECOND], map[0 := Stranded, 1 := Lost, 2 := Waiting],
                        map[11 := 2], Popping, {0})
    ensures Reaches(Next, s, u)
  {
    DropsFirst(s7.place, u.place);
    assert s7.loops[0 := Popping] == u.loops;
    PushIsRefused(s, s7, 1, 0, u);
  }

  lemma StartIsInv(s: State)
    requires Start(s)
    ensures Inv(s)
  {
    assert Core(s) && QueueOk(s);
  }

  lemma LeakReached(maxLen: nat, s: State, u: State)
    requires maxLen >= 1 && s == State(map[], map[], map[], maxLen, map[], {}, map[], false)
    requires u == Scene(maxLen, map[0 := FIRST, 1 := SECOND, 2 := SECOND], map[0 := Stranded, 1 := Lost, 2 := Waiting],
                        map[11 := 2], Popping, {0})
    ensures Reaches(Next, s, u)
  {
    var s3 := Scene(maxLen, map[0 := FIRST], map[0 := Locked(0)], map[], Popping, {0});
    FirstIsReady(maxLen, s, s3);
    var s6 := Scene(maxLen, map[0 := FIRST, 1 := SECOND], map[0 := Locked(0), 1 := Refused(0)], map[], Turn(1), {0});
    SecondIsRefused(maxLen, s, s3, s6);
    var s7 := Scene(maxLen, u.jobs, map[0 := Locked(0), 1 := Refused(0), 2 := Waiting], map[11 := 2], Turn(1), {0});
    SubmittedAgain(maxLen, s, s6, s7);
    PushFindsTheID(maxLen, s, s7, u);
  }

  lemma LeakStays(s: State, u: State, r: Ticket, job: Job, x: Shard)
    requires Start(s) && Reaches(Next, s, u) && Known(u, r)
    requires u.place[r] == Stranded && u.jobs[r] == job && x in job.shards
    ensures forall v :: Reaches(Next, u, v) ==> x in v.entryLocks
  {
    StartIsInv(s);
    ReachedInv(s, u);
    forall v | Reaches(Next, u, v) ensures x in v.entryLocks { LockedForGood(u, v, r); }
  }

  /** A leak, for every length of the queue: while a loop holds a refused procedure and has another one ready, the
      refused one is submitted again; its push finds the ID in the queue, and the lock of shard 0 stays for good. */
  lemma LeakingRun(maxLen: nat) returns (s: State, u: State)
    requires maxLen >= 1
    ensures Start(s) && s.maxLen == maxLen && Reaches(Next, s, u)
    ensures Quiet(u) && u.entryLocks == {0} && forall v :: Reaches(Next, u, v) ==> 0 in v.entryLocks
  {
    s := State(map[], map[], map[], maxLen, map[], {}, map[], false);
    u := Scene(maxLen, map[0 := FIRST, 1 := SECOND, 2 := SECOND], map[0 := Stranded, 1 := Lost, 2 := Waiting],
               map[11 := 2], Popping, {0});
    LeakReached(maxLen, s, u);
    LeakStays(s, u, 0, FIRST, 0);
  }
}
