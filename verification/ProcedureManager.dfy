/** The code of manager_impl.go over the real queue and locks: each method is a run of the scheduler of module
    Procedures, whatever the other promotion loops, workers and submitters do between its atomic sections. */
module ProcedureManager {
  import opened Common
  import opened EntryLocks
  import opened Versions
  import opened DelayQueue
  import opened Promotion
  import opened Procedures

  /** Who takes a step. */
  datatype Actor = Submitter | LoopOf(l: Loop) | WorkerOf(t: Ticket)

  function ActorOf(s: State, a: Step): Actor
    requires Enabled(s, a)
  {
    match a
    case Join(l) => LoopOf(l)
    case Submit(_, _) => Submitter
    case Pop(_, l) => LoopOf(l)
    case Return(l) => LoopOf(l)
    case Again(l) => LoopOf(l)
    case Finish(t) => WorkerOf(t)
    case Delete(t, _) => WorkerOf(t)
    case UnLock(t, _) => WorkerOf(t)
    case End(t) => WorkerOf(t)
    case _ => LoopOf(s.place[a.t].loop)
  }

  ghost predicate OtherNext(s: State, u: State, me: Actor)
  {
    exists a: Step :: Enabled(s, a) && u == Do(s, a) && ActorOf(s, a) != me
  }

  predicate OfLoop(p: Place, l: Loop)
  {
    (p.Popped? || p.Refused? || p.Locked? || p.Registered?) && p.loop == l
  }

  /** The ticket is in the hands of the loop or the worker. */
  predicate Mine(p: Place, t: Ticket, me: Actor)
  {
    match me
    case Submitter => false
    case LoopOf(l) => OfLoop(p, l)
    case WorkerOf(w) => t == w && (p.Running? || p.Releasing?)
  }

  ghost predicate Same(s: State, u: State, t: Ticket)
  {
    Known(s, t) && Known(u, t) && u.place[t] == s.place[t] && u.jobs[t] == s.jobs[t]
  }

  ghost predicate SameMode(s: State, u: State, me: Actor)
  {
    me.LoopOf? && me.l in s.loops ==> me.l in u.loops && u.loops[me.l] == s.loops[me.l]
  }

  /** The tickets in one's hands are the same and where they were, and so is one's loop. */
  ghost predicate Untouched(s: State, u: State, me: Actor)
  {
    && SameMode(s, u, me)
    && (forall t :: t in s.place && Mine(s.place[t], t, me) ==> Same(s, u, t))
    && (forall t :: me.LoopOf? && t in u.place && Mine(u.place[t], t, me) ==> Same(s, u, t))
  }

  lemma ModeStays(s: State, a: Step, u: State, me: Actor)
    requires Enabled(s, a) && u == Do(s, a) && ActorOf(s, a) != me
    ensures SameMode(s, u, me)
  {
    if ActorOf(s, a).LoopOf? { OwnLoopOnly(s, a, u, ActorOf(s, a).l); } else { LoopsSame(s, a, u); }
  }

  lemma LoopsSame(s: State, a: Step, u: State)
    requires Enabled(s, a) && u == Do(s, a) && !ActorOf(s, a).LoopOf?
    ensures u.loops == s.loops
  {
  }

  lemma OwnLoopOnly(s: State, a: Step, u: State, l: Loop)
    requires Enabled(s, a) && u == Do(s, a) && ActorOf(s, a) == LoopOf(l)
    ensures forall k :: k in s.loops && k != l ==> k in u.loops && u.loops[k] == s.loops[k]
  {
  }

  /** A step of somebody else is about a ticket that one has not in one's hands. */
  lemma SubjectAway(s: State, a: Step, t: Ticket, me: Actor)
    requires Enabled(s, a) && ActorOf(s, a) != me && Subject(a) == Some(t) && t in s.place
    ensures !Mine(s.place[t], t, me)
  {
  }

  /** Nor does it put a ticket into the hands of a loop. */
  lemma LandsElsewhere(s: State, a: Step, t: Ticket, l: Loop)
    requires Enabled(s, a) && ActorOf(s, a) != LoopOf(l) && Subject(a) == Some(t)
    ensures !OfLoop(Landing(s, a), l)
  {
  }

  /** A worker was started for the ticket. */
  predicate Begun(p: Place)
  {
    p.Running? || p.Releasing? || p.Done?
  }

  ghost predicate BegunKept(s: State, u: State)
  {
    forall t :: Known(s, t) && Begun(s.place[t]) ==> Known(u, t) && u.jobs[t] == s.jobs[t] && Begun(u.place[t])
  }

  lemma LandsBegun(s: State, a: Step, t: Ticket)
    requires Enabled(s, a) && Subject(a) == Some(t) && Known(s, t) && Begun(s.place[t])
    ensures Begun(Landing(s, a))
  {
  }

  lemma NextKeepsBegun(s: State, u: State)
    requires Next(s, u)
    ensures BegunKept(s, u)
  {
    var a: Step :| Enabled(s, a) && u == Do(s, a);
    StepPlaces(s, a, u);
    forall t | Known(s, t) && Begun(s.place[t]) ensures Known(u, t) && u.jobs[t] == s.jobs[t] && Begun(u.place[t]) {
      if Subject(a) == Some(t) {
        LandsBegun(s, a, t);
        Lands(s, a, u, t);
      } else {
        OthersStay(s, a, u, t);
      }
    }
  }

  lemma BegunStays(s: State, u: State)
    requires Reaches(Next, s, u)
    ensures BegunKept(s, u)
  {
    var run :| IsRun(Next, run) && run[0] == s && run[|run| - 1] == u;
    var inv := (v: State) => BegunKept(s, v);
    forall v, w | inv(v) && Next(v, w) ensures inv(w) { NextKeepsBegun(v, w); }
    HoldsThroughout(Next, inv, run);
    assert inv(run[|run| - 1]);
  }

  lemma OtherLeaves(s: State, u: State, me: Actor)
    requires Shaped(s) && OtherNext(s, u, me)
    ensures Next(s, u) && Untouched(s, u, me)
  {
    var a: Step :| Enabled(s, a) && u == Do(s, a) && ActorOf(s, a) != me;
    ModeStays(s, a, u, me);
    StepPlaces(s, a, u);
    forall t | t in s.place && Mine(s.place[t], t, me) ensures Same(s, u, t) {
      if Subject(a) == Some(t) { SubjectAway(s, a, t, me); }
      OthersStay(s, a, u, t);
    }
    forall t | me.LoopOf? && t in u.place && Mine(u.place[t], t, me) ensures Same(s, u, t) {
      if Subject(a) == Some(t) {
        LandsElsewhere(s, a, t, me.l);
        Lands(s, a, u, t);
      }
      NewTickets(s, a, u, t);
      OthersStay(s, a, u, t);
    }
  }

  lemma UntouchedTransitive(s: State, u: State, v: State, me: Actor)
    requires Untouched(s, u, me) && Untouched(u, v, me)
    ensures Untouched(s, v, me)
  {
  }

  /** Steps of the others are steps of the system that leave what is in one's hands alone. */
  lemma OthersLeave(s: State, u: State, me: Actor)
    requires Inv(s) && Reaches((v: State, w: State) => OtherNext(v, w, me), s, u)
    ensures Reaches(Next, s, u) && Inv(u) && Untouched(s, u, me)
  {
    var next := (v: State, w: State) => OtherNext(v, w, me);
    var run :| IsRun(next, run) && run[0] == s && run[|run| - 1] == u;
    var inv := (v: State) => Inv(v) && Untouched(s, v, me);
    forall v, w | inv(v) && next(v, w) ensures inv(w) { OneMoreLeaves(s, v, w, me); }
    HoldsThroughout(next, inv, run);
    assert inv(run[|run| - 1]);
    OthersAreSteps(run, me);
  }

  lemma OneMoreLeaves(s: State, v: State, w: State, me: Actor)
    requires Inv(v) && Untouched(s, v, me) && OtherNext(v, w, me)
    ensures Inv(w) && Untouched(s, w, me)
  {
    OtherLeaves(v, w, me);
    StepKeeps(v, w);
    UntouchedTransitive(s, v, w, me);
  }

  lemma OthersAreSteps(run: seq<State>, me: Actor)
    requires IsRun((v: State, w: State) => OtherNext(v, w, me), run)
    ensures IsRun(Next, run)
  {
    forall i | 0 < i < |run| ensures Next(run[i - 1], run[i]) { assert OtherNext(run[i - 1], run[i], me); }
  }

  function JobOf(p: Proc): Job
  {
    Job(p.id, Shards(p))
  }

  /** The entries of the queue are the jobs of the waiting tickets. */
  ghost predicate Tied(pending: map<nat, Entry>, tickets: map<nat, Ticket>, jobs: map<Ticket, Job>)
  {
    && pending.Keys == tickets.Keys
    && forall i :: i in pending ==>
      pending[i].proc.id == i && tickets[i] in jobs && jobs[tickets[i]] == JobOf(pending[i].proc)
  }

  lemma TiedAdds(pending: map<nat, Entry>, tickets: map<nat, Ticket>, jobs: map<Ticket, Job>, e: Entry, t: Ticket,
      more: map<Ticket, Job>)
    requires Tied(pending, tickets, jobs) && t in more && more[t] == JobOf(e.proc)
    requires forall r :: r in jobs && r != t ==> r in more && more[r] == jobs[r]
    requires forall i :: i in tickets ==> tickets[i] != t
    ensures Tied(pending[e.proc.id := e], tickets[e.proc.id := t], more)
  {
  }

  lemma TiedTakes(pending: map<nat, Entry>, tickets: map<nat, Ticket>, jobs: map<Ticket, Job>, id: nat)
    requires Tied(pending, tickets, jobs)
    ensures Tied(pending - {id}, tickets - {id}, jobs)
  {
  }

  /** The running procedures are the jobs of the running tickets. */
  ghost predicate RunsTied(procs: map<Shard, Proc>, running: map<Shard, Ticket>, jobs: map<Ticket, Job>)
  {
    && procs.Keys == running.Keys
    && forall x :: x in running ==> running[x] in jobs && jobs[running[x]] == JobOf(procs[x])
  }

  lemma RunsEnter(procs: map<Shard, Proc>, running: map<Shard, Ticket>, jobs: map<Ticket, Job>, shards: set<Shard>,
      p: Proc, t: Ticket)
    requires RunsTied(procs, running, jobs) && t in jobs && jobs[t] == JobOf(p)
    ensures RunsTied(procs + map x | x in shards :: p, running + map x | x in shards :: t, jobs)
  {
  }

  lemma SameSize(pending: map<nat, Entry>, tickets: map<nat, Ticket>)
    requires pending.Keys == tickets.Keys
    ensures |pending| == |tickets|
  {
    assert |pending| == |pending.Keys| && |tickets| == |tickets.Keys|;
  }

  lemma FreshTicket(s: set<nat>) returns (t: nat)
    ensures t !in s
  {
    t := if s == {} then 0 else Greatest(s) + 1;
  }

  lemma StartInv(s0: State, s: State)
    requires Start(s0) && Reaches(Next, s0, s)
    ensures Inv(s)
  {
    StartIsInv(s0);
    ReachedInv(s0, s);
  }

  // ----- the steps of a promotion turn -----

  /** The loop's turn is for the ticket, which is at the given place. */
  ghost predicate InTurn(s: State, l: Loop, t: Ticket, p: Place, job: Job)
  {
    InMode(s, l, Turn(t)) && Known(s, t) && s.place[t] == p && s.jobs[t] == job
  }

  predicate OnList(s: State, l: Loop, r: Ticket)
  {
    At(s, r) == Some(Locked(l))
  }

  ghost predicate SameJob(s: State, u: State, r: Ticket)
  {
    Known(s, r) ==> Known(u, r) && u.jobs[r] == s.jobs[r]
  }

  /** The loop's list of ready procedures is the same. */
  ghost predicate SameReady(s: State, u: State, l: Loop)
  {
    forall r :: (OnList(u, l, r) <==> OnList(s, l, r)) && (OnList(s, l, r) ==> SameJob(s, u, r))
  }

  /** A procedure has been added to it. */
  ghost predicate OneMoreReady(s: State, u: State, l: Loop, t: Ticket, job: Job)
  {
    && (forall r :: (OnList(u, l, r) <==> r == t || OnList(s, l, r)) && (OnList(s, l, r) ==> SameJob(s, u, r)))
    && !OnList(s, l, t) && Known(u, t) && u.jobs[t] == job
  }

  /** All of the loop's ready procedures are stranded. */
  ghost predicate NoReady(s: State, u: State, l: Loop)
  {
    (forall r :: OnList(s, l, r) ==> At(u, r) == Some(Stranded)) && forall r :: !OnList(u, l, r)
  }

  /** The parts of the state that are variables of the code, but for the queue and the running procedures. */
  ghost predicate Real(u: State, maxLen: nat, entryLocks: set<Shard>)
  {
    u.maxLen == maxLen && u.entryLocks == entryLocks && !u.panicked
  }

  lemma StillReady(s: State, u: State, l: Loop)
    requires Shaped(s) && Shaped(u) && Untouched(s, u, LoopOf(l))
    ensures SameReady(s, u, l)
  {
    forall r ensures (OnList(u, l, r) <==> OnList(s, l, r)) && (OnList(s, l, r) ==> SameJob(s, u, r)) {
      if OnList(s, l, r) { assert Mine(s.place[r], r, LoopOf(l)) && Same(s, u, r); }
      if OnList(u, l, r) { assert Mine(u.place[r], r, LoopOf(l)) && Same(s, u, r); }
    }
  }

  lemma StillInTurn(s: State, u: State, l: Loop, t: Ticket, p: Place, job: Job)
    requires Untouched(s, u, LoopOf(l)) && InTurn(s, l, t, p, job) && OfLoop(p, l)
    ensures InTurn(u, l, t, p, job)
  {
    assert Mine(s.place[t], t, LoopOf(l)) && Same(s, u, t);
  }

  lemma PopStep(s0: State, s: State, t: Ticket, l: Loop, job: Job, u: State)
    requires Start(s0) && Reaches(Next, s0, s) && InMode(s, l, Popping) && job.id in s.queue && s.queue[job.id] == t
    requires t in s.jobs && s.jobs[t] == job && !s.panicked
    requires u == ModeTo(Move(s, t, Popped(l)), l, Turn(t)).(queue := s.queue - {job.id})
    ensures Reaches(Next, s0, u) && SameReady(s, u, l) && InTurn(u, l, t, Popped(l), job)
    ensures StepBy(s, Procedures.Pop(t, l), u)
  {
    StartInv(s0, s);
    assert Queued(s, t, job.id);
    StepTo(s0, s, Procedures.Pop(t, l), u);
  }

  lemma DiscardStep(s0: State, s: State, t: Ticket, l: Loop, job: Job, u: State)
    requires Reaches(Next, s0, s) && InTurn(s, l, t, Popped(l), job) && u == ModeTo(Move(s, t, Discarded), l, Popping)
    ensures Reaches(Next, s0, u) && SameReady(s, u, l) && InMode(u, l, Popping) && At(u, t) == Some(Discarded)
    ensures StepBy(s, Invalid(t), u)
  {
    StepTo(s0, s, Invalid(t), u);
  }

  lemma LockStep(s0: State, s: State, t: Ticket, l: Loop, job: Job, u: State)
    requires Reaches(Next, s0, s) && InTurn(s, l, t, Popped(l), job) && job.shards !! s.entryLocks
    requires u == ModeTo(Move(s, t, Locked(l)), l, Popping).(entryLocks := s.entryLocks + job.shards)
    ensures Reaches(Next, s0, u) && OneMoreReady(s, u, l, t, job) && InMode(u, l, Popping)
    ensures StepBy(s, Procedures.TryLock(t), u)
  {
    StepTo(s0, s, Procedures.TryLock(t), u);
  }

  lemma RefuseStep(s0: State, s: State, t: Ticket, l: Loop, job: Job, u: State)
    requires Reaches(Next, s0, s) && InTurn(s, l, t, Popped(l), job) && !(job.shards !! s.entryLocks)
    requires u == Move(s, t, Refused(l))
    ensures Reaches(Next, s0, u) && SameReady(s, u, l) && InTurn(u, l, t, Refused(l), job)
    ensures StepBy(s, Procedures.TryLock(t), u)
  {
    StepTo(s0, s, Procedures.TryLock(t), u);
  }

  function LockedOrRefused(s: State, l: Loop, t: Ticket, p: Proc, ok: bool): State
  {
    if ok then ModeTo(Move(s, t, Locked(l)), l, Popping).(entryLocks := s.entryLocks + Shards(p))
    else Move(s, t, Refused(l))
  }

  lemma LockOrRefuse(s0: State, g: Glimpse, l: Loop, t: Ticket, p: Proc, ok: bool, u: State)
    requires Reaches(Next, s0, g.s) && InTurn(g.s, l, t, Popped(l), JobOf(p))
    requires (ok <==> Shards(p) !! g.s.entryLocks) && u == LockedOrRefused(g.s, l, t, p, ok)
    ensures Reaches(Next, s0, u) && TriesLock(g, t, p, ok, Glimpse(u, g.pending))
    ensures ok ==> InMode(u, l, Popping) && OneMoreReady(g.s, u, l, t, JobOf(p))
    ensures !ok ==> InTurn(u, l, t, Refused(l), JobOf(p)) && SameReady(g.s, u, l)
  {
    if ok { LockStep(s0, g.s, t, l, JobOf(p), u); } else { RefuseStep(s0, g.s, t, l, JobOf(p), u); }
  }

  lemma LockReaches(s0: State, s: State, l: Loop, t: Ticket, p: Proc, ok: bool, u: State)
    requires Reaches(Next, s0, s) && InTurn(s, l, t, Popped(l), JobOf(p))
    requires (ok <==> Shards(p) !! s.entryLocks) && u == LockedOrRefused(s, l, t, p, ok) && !s.panicked
    ensures Reaches(Next, s0, u) && u.jobs == s.jobs && u.queue == s.queue && u.running == s.running
    ensures Real(u, s.maxLen, if ok then s.entryLocks + Shards(p) else s.entryLocks)
  {
    LockOrRefuse(s0, Glimpse(s, map[]), l, t, p, ok, u);
  }

  lemma RequeueStep(s0: State, s: State, t: Ticket, l: Loop, job: Job, u: State)
    requires Reaches(Next, s0, s) && InTurn(s, l, t, Refused(l), job) && CanPush(s, job.id)
    requires u == ModeTo(Move(s, t, Waiting), l, Popping).(queue := s.queue[job.id := t])
    ensures Reaches(Next, s0, u) && SameReady(s, u, l) && InMode(u, l, Popping) && At(u, t) == Some(Waiting)
    ensures StepBy(s, Requeue(t), u)
  {
    StepTo(s0, s, Requeue(t), u);
  }

  lemma DropStep(s0: State, s: State, t: Ticket, l: Loop, job: Job, u: State)
    requires Reaches(Next, s0, s) && InTurn(s, l, t, Refused(l), job) && !CanPush(s, job.id)
    requires u == ModeTo(s, l, Popping).(place := Dropped(s.place, l)[t := Lost])
    ensures Reaches(Next, s0, u) && PushFails(s, u, t) && NoReady(s, u, l)
    ensures InMode(u, l, Popping) && At(u, t) == Some(Lost) && StepBy(s, RequeueFails(t), u)
  {
    StepTo(s0, s, RequeueFails(t), u);
  }

  /** A refused ticket is not one that waits. */
  lemma NotQueued(s0: State, s: State, t: Ticket, l: Loop, job: Job)
    requires Start(s0) && Reaches(Next, s0, s) && InTurn(s, l, t, Refused(l), job)
    ensures forall i :: i in s.queue ==> s.queue[i] != t
  {
    StartInv(s0, s);
    forall i | i in s.queue ensures s.queue[i] != t { assert Queued(s, s.queue[i], i); }
  }

  ghost predicate Submits(s: State, u: State, t: Ticket, job: Job)
  {
    Enabled(s, Procedures.Submit(t, job)) && u == Do(s, Procedures.Submit(t, job))
  }

  lemma SubmitStep(s0: State, s: State, t: Ticket, job: Job, u: State)
    requires Reaches(Next, s0, s) && t !in s.place && t !in s.jobs && CanPush(s, job.id)
    requires u == Move(s, t, Waiting).(jobs := s.jobs[t := job], queue := s.queue[job.id := t])
    ensures Reaches(Next, s0, u) && Submits(s, u, t, job)
  {
    StepTo(s0, s, Procedures.Submit(t, job), u);
  }

  lemma JoinStep(s0: State, s: State, l: Loop, u: State)
    requires Start(s0) && Reaches(Next, s0, s) && l !in s.loops && u == ModeTo(s, l, Popping)
    ensures Reaches(Next, s0, u) && forall r :: !OnList(u, l, r)
  {
    StartInv(s0, s);
    StepTo(s0, s, Join(l), u);
  }

  lemma NewNotQueued(s0: State, s: State, t: Ticket)
    requires Start(s0) && Reaches(Next, s0, s) && t !in s.place
    ensures forall i :: i in s.queue ==> s.queue[i] != t
  {
    StartInv(s0, s);
    forall i | i in s.queue ensures s.queue[i] != t { assert Queued(s, s.queue[i], i); }
  }

  lemma PushedBack(s0: State, s: State, t: Ticket, l: Loop, pending: map<nat, Entry>, e: Entry, u: State)
    requires Start(s0) && Reaches(Next, s0, s) && InTurn(s, l, t, Refused(l), JobOf(e.proc)) && CanPush(s, e.proc.id)
    requires Tied(pending, s.queue, s.jobs)
    requires u == ModeTo(Move(s, t, Waiting), l, Popping).(queue := s.queue[e.proc.id := t])
    ensures Reaches(Next, s0, u) && SameReady(s, u, l) && InMode(u, l, Popping) && At(u, t) == Some(Waiting)
    ensures Tied(pending[e.proc.id := e], u.queue, u.jobs) && StepBy(s, Requeue(t), u)
  {
    RequeueStep(s0, s, t, l, JobOf(e.proc), u);
    NotQueued(s0, s, t, l, JobOf(e.proc));
    TiedAdds(pending, s.queue, s.jobs, e, t, s.jobs);
  }

  lemma Submitted(s0: State, s: State, t: Ticket, pending: map<nat, Entry>, e: Entry, procs: map<Shard, Proc>, u: State)
    requires Start(s0) && Reaches(Next, s0, s) && t !in s.place && t !in s.jobs && CanPush(s, e.proc.id)
    requires Tied(pending, s.queue, s.jobs) && RunsTied(procs, s.running, s.jobs)
    requires u == Move(s, t, Waiting).(jobs := s.jobs[t := JobOf(e.proc)], queue := s.queue[e.proc.id := t])
    ensures Reaches(Next, s0, u) && Submits(s, u, t, JobOf(e.proc))
    ensures Tied(pending[e.proc.id := e], u.queue, u.jobs) && RunsTied(procs, u.running, u.jobs)
  {
    SubmitStep(s0, s, t, JobOf(e.proc), u);
    NewNotQueued(s0, s, t);
    TiedAdds(pending, s.queue, s.jobs, e, t, u.jobs);
  }

  // ----- the steps of a start -----

  /** Of the loop's listed tickets the first j have a worker, those before i are entered, and the others are ready;
      nothing else is in the loop's hands. */
  ghost predicate Stage(s: State, l: Loop, tickets: seq<Ticket>, procs: seq<Proc>, j: nat, i: nat)
  {
    && j <= i <= |tickets| == |procs|
    && (forall k :: 0 <= k < |tickets| ==> Known(s, tickets[k]) && s.jobs[tickets[k]] == JobOf(procs[k]))
    && (forall k :: 0 <= k < j ==> Begun(s.place[tickets[k]]))
    && (forall k :: j <= k < i ==> s.place[tickets[k]] == Registered(l))
    && (forall k :: i <= k < |tickets| ==> s.place[tickets[k]] == Locked(l))
    && (forall r :: r in s.place && OfLoop(s.place[r], l) ==> r in tickets)
  }

  /** The list that promoteProcedure returns. */
  ghost predicate ReadyList(s: State, l: Loop, tickets: seq<Ticket>, procs: seq<Proc>)
  {
    && |tickets| == |procs| && Distinct(tickets)
    && (forall r :: OnList(s, l, r) <==> r in tickets)
    && (forall k :: 0 <= k < |tickets| ==> Known(s, tickets[k]) && s.jobs[tickets[k]] == JobOf(procs[k]))
  }

  /** The clock when a turn pops, the clock when it pushes back, and the topology it sees. */
  datatype Moment = Moment(now: int, later: int, snap: Snapshot)

  datatype PassEnd = AllTaken | PushFailed | OutOfTurns

  // ----- what a turn has done -----

  /** The manager at one moment: where it is in the protocol, and the entries of its queue. */
  datatype Glimpse = Glimpse(s: State, pending: map<nat, Entry>)

  datatype Verdict = Nothing | Ready | Back | Skipped | Full

  /** A turn: the manager when it pops, when it tries to lock, before its last step and after it. */
  datatype TurnLog = TurnLog(popping: Glimpse, proc: Option<Proc>, t: Ticket, locking: Glimpse, verdict: Verdict,
                             ending: Glimpse, after: Glimpse)

  ghost predicate StepBy(s: State, a: Step, u: State)
  {
    Enabled(s, a) && u == Do(s, a)
  }

  /** The loop takes out of the queue a due procedure of least time. */
  ghost predicate Pops(g: Glimpse, l: Loop, now: int, p: Proc, t: Ticket, h: Glimpse)
  {
    && Least(g.pending, p, now) && h.pending == g.pending - {p.id}
    && t in g.s.jobs && g.s.jobs[t] == JobOf(p) && StepBy(g.s, Procedures.Pop(t, l), h.s)
  }

  ghost predicate Discards(g: Glimpse, t: Ticket, h: Glimpse)
  {
    h.pending == g.pending && StepBy(g.s, Invalid(t), h.s)
  }

  ghost predicate TriesLock(g: Glimpse, t: Ticket, p: Proc, ok: bool, h: Glimpse)
  {
    h.pending == g.pending && StepBy(g.s, Procedures.TryLock(t), h.s) && (ok <==> Shards(p) !! g.s.entryLocks)
  }

  /** The push back after the delay of the source, or the failed push. */
  ghost predicate PushesBack(g: Glimpse, t: Ticket, p: Proc, later: int, ok: bool, h: Glimpse)
  {
    if ok then h.pending == g.pending[p.id := Entry(p, later + WAITING_QUEUE_DELAY)] && StepBy(g.s, Requeue(t), h.s)
    else h.pending == g.pending && StepBy(g.s, RequeueFails(t), h.s)
  }

  /** What a turn did with the procedure it popped; between its steps the others may act. */
  ghost predicate Treats(m: Moment, g: TurnLog, p: Proc, popped: Glimpse)
  {
    && (g.verdict.Skipped? <==> !Current(p.info, m.snap))
    && match g.verdict
       case Nothing => false
       case Skipped => Reaches(Next, popped.s, g.ending.s) && Discards(g.ending, g.t, g.after)
       case Ready => Reaches(Next, popped.s, g.ending.s) && TriesLock(g.ending, g.t, p, true, g.after)
       case _ => exists h ::
         && Reaches(Next, popped.s, g.locking.s) && TriesLock(g.locking, g.t, p, false, h)
         && Reaches(Next, h.s, g.ending.s) && PushesBack(g.ending, g.t, p, m.later, g.verdict.Back?, g.after)
  }

  ghost predicate TurnOk(l: Loop, m: Moment, g: TurnLog)
  {
    if g.verdict.Nothing? then g.proc.None? && NoneDue(g.popping.pending, m.now) && g.after == g.popping
    else g.proc.Some? && exists h :: Pops(g.popping, l, m.now, g.proc.value, g.t, h) && Treats(m, g, g.proc.value, h)
  }

  // ----- what a pass has done -----

  ghost predicate TurnsOk(l: Loop, moments: seq<Moment>, log: seq<TurnLog>)
  {
    |log| <= |moments| && forall i :: 0 <= i < |log| ==> TurnOk(l, moments[i], log[i])
  }

  /** The state after so many turns. */
  function Reached(begin: State, log: seq<TurnLog>, i: nat): State
    requires i <= |log|
  {
    if i == 0 then begin else log[i - 1].after.s
  }

  ghost predicate Linked(begin: State, log: seq<TurnLog>)
  {
    forall i :: 0 <= i < |log| ==> LinkAt(begin, log, i)
  }

  ghost predicate LinkAt(begin: State, log: seq<TurnLog>, i: nat)
    requires i < |log|
  {
    Reaches(Next, Reached(begin, log, i), log[i].popping.s)
  }

  /** None of these turns is a last one. */
  predicate AllGoOn(log: seq<TurnLog>, n: nat)
    requires n <= |log|
  {
    forall i :: 0 <= i < n ==> !log[i].verdict.Nothing? && !log[i].verdict.Full?
  }

  /** Turn follows turn, each at its moment, and none after one that found nothing or failed to push. */
  ghost predicate PassLog(l: Loop, moments: seq<Moment>, begin: State, log: seq<TurnLog>)
  {
    TurnsOk(l, moments, log) && Linked(begin, log) && (log != [] ==> AllGoOn(log, |log| - 1))
  }

  /** How the pass has ended so far, by the verdict of its last turn. */
  predicate EndsAs(r: PassEnd, log: seq<TurnLog>)
  {
    match r
    case AllTaken => log != [] && log[|log| - 1].verdict.Nothing?
    case PushFailed => log != [] && log[|log| - 1].verdict.Full?
    case OutOfTurns => AllGoOn(log, |log|)
  }

  /** The tickets are those of the turns that got their locks, in order; `at` tells which turns these are. */
  ghost predicate ReadyTurns(log: seq<TurnLog>, tickets: seq<Ticket>, at: seq<int>)
  {
    && |at| == |tickets| && Ascending(at)
    && (forall j :: 0 <= j < |at| ==>
          0 <= at[j] < |log| && log[at[j]].verdict.Ready? && log[at[j]].t == tickets[j])
    && (forall i :: 0 <= i < |log| && log[i].verdict.Ready? ==> i in at)
  }

  ghost predicate ReadyProcs(log: seq<TurnLog>, ready: seq<Proc>, at: seq<int>)
  {
    |at| == |ready| && forall j :: 0 <= j < |at| ==> 0 <= at[j] < |log| && log[at[j]].proc == Some(ready[j])
  }

  lemma PassMore(l: Loop, moments: seq<Moment>, begin: State, log: seq<TurnLog>, g: TurnLog)
    requires PassLog(l, moments, begin, log) && |log| < |moments| && TurnOk(l, moments[|log|], g)
    requires AllGoOn(log, |log|) && Reaches(Next, Reached(begin, log, |log|), g.popping.s)
    ensures PassLog(l, moments, begin, log + [g])
  {
    TurnsMore(l, moments, log, g);
    LinkedMore(begin, log, g);
  }

  lemma TurnsMore(l: Loop, moments: seq<Moment>, log: seq<TurnLog>, g: TurnLog)
    requires TurnsOk(l, moments, log) && |log| < |moments| && TurnOk(l, moments[|log|], g)
    ensures TurnsOk(l, moments, log + [g])
  {
    forall i | 0 <= i <= |log| ensures TurnOk(l, moments[i], (log + [g])[i]) { TurnMore(l, moments[i], log, g, i); }
  }

  lemma TurnMore(l: Loop, m: Moment, log: seq<TurnLog>, g: TurnLog, i: nat)
    requires i <= |log| && TurnOk(l, m, if i < |log| then log[i] else g)
    ensures TurnOk(l, m, (log + [g])[i])
  {
  }

  lemma LinkedMore(begin: State, log: seq<TurnLog>, g: TurnLog)
    requires Linked(begin, log) && Reaches(Next, Reached(begin, log, |log|), g.popping.s)
    ensures Linked(begin, log + [g])
  {
    forall i | 0 <= i <= |log| ensures LinkAt(begin, log + [g], i) { LinkMore(begin, log, g, i); }
  }

  lemma LinkMore(begin: State, log: seq<TurnLog>, g: TurnLog, i: nat)
    requires i <= |log|
    requires if i < |log| then LinkAt(begin, log, i) else Reaches(Next, Reached(begin, log, i), g.popping.s)
    ensures LinkAt(begin, log + [g], i)
  {
    var a, b := Reached(begin, log, i), if i < |log| then log[i].popping.s else g.popping.s;
    assert Reaches(Next, a, b);
    assert (log + [g])[i].popping.s == b;
  }

  lemma ReadyMore(log: seq<TurnLog>, tickets: seq<Ticket>, at: seq<int>, g: TurnLog)
    requires ReadyTurns(log, tickets, at)
    ensures if g.verdict.Ready? then ReadyTurns(log + [g], tickets + [g.t], at + [|log|])
      else ReadyTurns(log + [g], tickets, at)
  {
    var more := log + [g];
    forall i | 0 <= i < |log| && more[i].verdict.Ready? ensures i in at && i in at + [|log|] {
      assert log[i].verdict.Ready?;
    }
  }

  /** All of it: the turns, how they ended, and that the list is what they made ready. */
  ghost predicate Passed(l: Loop, moments: seq<Moment>, begin: State, log: seq<TurnLog>, r: PassEnd,
      tickets: seq<Ticket>, ready: seq<Proc>, at: seq<int>, end: Glimpse)
  {
    Told(l, moments, begin, log, r, end) && MadeReady(log, r, tickets, ready, at)
  }

  ghost predicate Told(l: Loop, moments: seq<Moment>, begin: State, log: seq<TurnLog>, r: PassEnd, end: Glimpse)
  {
    && PassLog(l, moments, begin, log) && EndsAs(r, log)
    && if log == [] then end.s == begin else log[|log| - 1].after == end
  }

  ghost predicate MadeReady(log: seq<TurnLog>, r: PassEnd, tickets: seq<Ticket>, ready: seq<Proc>, at: seq<int>)
  {
    ReadyTurns(log, tickets, at) && (!r.PushFailed? ==> ReadyProcs(log, ready, at))
  }

  lemma NoneYet(l: Loop, moments: seq<Moment>, begin: Glimpse)
    ensures Passed(l, moments, begin.s, [], OutOfTurns, [], [], [], begin)
  {
  }

  lemma ToldMore(l: Loop, moments: seq<Moment>, begin: State, log: seq<TurnLog>, s: Glimpse, g: TurnLog)
    requires Told(l, moments, begin, log, OutOfTurns, s) && |log| < |moments|
    requires TurnOk(l, moments[|log|], g) && Reaches(Next, s.s, g.popping.s)
    ensures Told(l, moments, begin, log + [g], EndOf(g.verdict), g.after)
  {
    PassMore(l, moments, begin, log, g);
    EndsMore(log, g);
  }

  function EndOf(v: Verdict): PassEnd
  {
    if v.Nothing? then AllTaken else if v.Full? then PushFailed else OutOfTurns
  }

  lemma EndsMore(log: seq<TurnLog>, g: TurnLog)
    requires AllGoOn(log, |log|)
    ensures EndsAs(EndOf(g.verdict), log + [g])
  {
  }

  /** After one more turn, with the lists as it leaves them. */
  lemma PassedMore(l: Loop, moments: seq<Moment>, begin: State, log: seq<TurnLog>, tickets: seq<Ticket>,
      ready: seq<Proc>, at: seq<int>, s: Glimpse, g: TurnLog, more: seq<Ticket>, next: seq<Proc>)
      returns (where: seq<int>)
    requires Passed(l, moments, begin, log, OutOfTurns, tickets, ready, at, s) && |log| < |moments|
    requires TurnOk(l, moments[|log|], g) && Reaches(Next, s.s, g.popping.s)
    requires if g.verdict.Ready? then g.proc.Some? && more == tickets + [g.t] && next == ready + [g.proc.value]
      else more == tickets && (!g.verdict.Full? ==> next == ready)
    ensures Passed(l, moments, begin, log + [g], EndOf(g.verdict), more, next, where, g.after)
  {
    ToldMore(l, moments, begin, log, s, g);
    where := if g.verdict.Ready? then at + [|log|] else at;
    ListsMore(log, tickets, ready, at, g, more, next, where);
  }

  lemma ListsMore(log: seq<TurnLog>, tickets: seq<Ticket>, ready: seq<Proc>, at: seq<int>, g: TurnLog,
      more: seq<Ticket>, next: seq<Proc>, where: seq<int>)
    requires MadeReady(log, OutOfTurns, tickets, ready, at)
    requires if g.verdict.Ready? then g.proc.Some? && more == tickets + [g.t] && next == ready + [g.proc.value]
      else more == tickets && (!g.verdict.Full? ==> next == ready)
    requires where == if g.verdict.Ready? then at + [|log|] else at
    ensures MadeReady(log + [g], EndOf(g.verdict), more, next, where)
  {
    ReadyMore(log, tickets, at, g);
    ProcsMore(log, ready, at, g);
  }

  /** A procedure that a turn made ready was valid for the topology of that turn. */
  lemma ReadyWasValid(l: Loop, moments: seq<Moment>, log: seq<TurnLog>, tickets: seq<Ticket>, ready: seq<Proc>,
      at: seq<int>)
    requires TurnsOk(l, moments, log) && ReadyTurns(log, tickets, at) && ReadyProcs(log, ready, at)
    ensures ValidAt(ready, moments[..|log|])
  {
    forall k | 0 <= k < |ready| ensures ValidFor(ready[k], moments[..|log|]) {
      var i := at[k];
      assert TurnOk(l, moments[i], log[i]);
      assert moments[..|log|][i] == moments[i];
    }
  }

  /** What a caller needs of a pass. */
  lemma PassFacts(l: Loop, moments: seq<Moment>, begin: State, log: seq<TurnLog>, r: PassEnd, tickets: seq<Ticket>,
      ready: seq<Proc>, at: seq<int>, end: Glimpse)
    requires Passed(l, moments, begin, log, r, tickets, ready, at, end) && (r.PushFailed? ==> ready == [])
    ensures |log| <= |moments| && ValidAt(ready, moments[..|log|])
    ensures r.AllTaken? ==> |log| > 0 && NoneDue(end.pending, moments[|log| - 1].now)
  {
    if !r.PushFailed? { ReadyWasValid(l, moments, log, tickets, ready, at); }
    if r.AllTaken? { assert TurnOk(l, moments[|log| - 1], log[|log| - 1]); }
  }

  lemma Treated(m: Moment, g: TurnLog, p: Proc, popped: Glimpse, refused: Glimpse)
    requires (g.verdict.Back? || g.verdict.Full?) && Current(p.info, m.snap)
    requires Reaches(Next, popped.s, g.locking.s) && TriesLock(g.locking, g.t, p, false, refused)
    requires Reaches(Next, refused.s, g.ending.s)
    requires PushesBack(g.ending, g.t, p, m.later, g.verdict.Back?, g.after)
    ensures Treats(m, g, p, popped)
  {
  }

  lemma ProcsMore(log: seq<TurnLog>, ready: seq<Proc>, at: seq<int>, g: TurnLog)
    requires ReadyProcs(log, ready, at)
    ensures ReadyProcs(log + [g], ready, at)
    ensures g.proc.Some? ==> ReadyProcs(log + [g], ready + [g.proc.value], at + [|log|])
  {
  }

  ghost predicate NoneDue(pending: map<nat, Entry>, now: int)
  {
    forall id :: id in pending ==> pending[id].runAfter > now
  }

  ghost predicate ValidFor(p: Proc, moments: seq<Moment>)
  {
    exists i :: 0 <= i < |moments| && Current(p.info, moments[i].snap)
  }

  /** Each procedure is valid for one of the topologies. */
  ghost predicate ValidAt(procs: seq<Proc>, moments: seq<Moment>)
  {
    forall k :: 0 <= k < |procs| ==> ValidFor(procs[k], moments)
  }

  lemma ValidWithin(procs: seq<Proc>, moments: seq<Moment>, n: nat)
    requires n <= |moments| && ValidAt(procs, moments[..n])
    ensures ValidAt(procs, moments)
  {
    forall k | 0 <= k < |procs| ensures ValidFor(procs[k], moments) {
      var i :| 0 <= i < n && Current(procs[k].info, moments[..n][i].snap);
      assert moments[..n][i] == moments[i];
    }
  }

  ghost predicate AllStranded(s: State, tickets: seq<Ticket>)
  {
    forall k :: 0 <= k < |tickets| ==> At(s, tickets[k]) == Some(Stranded)
  }

  /** A failed push leaves an empty list and strands what was on it; otherwise the list is the loop's own. */
  ghost predicate PassList(s: State, l: Loop, r: PassEnd, tickets: seq<Ticket>, ready: seq<Proc>)
  {
    if r.PushFailed? then ready == [] && ReadyList(s, l, [], []) && AllStranded(s, tickets)
    else ReadyList(s, l, tickets, ready)
  }

  /** The procedures have their workers. */
  ghost predicate AllBegun(s: State, tickets: seq<Ticket>, procs: seq<Proc>)
  {
    |tickets| == |procs| && forall k :: 0 <= k < |tickets| ==> BegunAs(s, tickets[k], procs[k])
  }

  ghost predicate BegunAs(s: State, t: Ticket, p: Proc)
  {
    Known(s, t) && Begun(s.place[t]) && s.jobs[t] == JobOf(p)
  }

  lemma SameList(s: State, u: State, l: Loop, tickets: seq<Ticket>, procs: seq<Proc>)
    requires ReadyList(s, l, tickets, procs) && SameReady(s, u, l)
    ensures ReadyList(u, l, tickets, procs)
  {
    forall k | 0 <= k < |tickets| ensures Known(u, tickets[k]) && u.jobs[tickets[k]] == JobOf(procs[k]) {
      assert OnList(s, l, tickets[k]);
    }
  }

  lemma ListGrows(s: State, u: State, l: Loop, tickets: seq<Ticket>, procs: seq<Proc>, t: Ticket, p: Proc)
    requires ReadyList(s, l, tickets, procs) && OneMoreReady(s, u, l, t, JobOf(p))
    ensures ReadyList(u, l, tickets + [t], procs + [p])
  {
    forall k | 0 <= k < |tickets|
      ensures tickets[k] != t && Known(u, tickets[k]) && u.jobs[tickets[k]] == JobOf(procs[k]) {
      assert OnList(s, l, tickets[k]);
    }
  }

  lemma ListDropped(s: State, u: State, l: Loop, tickets: seq<Ticket>, procs: seq<Proc>)
    requires ReadyList(s, l, tickets, procs) && NoReady(s, u, l)
    ensures ReadyList(u, l, [], []) && AllStranded(u, tickets)
  {
    forall k | 0 <= k < |tickets| ensures At(u, tickets[k]) == Some(Stranded) { assert OnList(s, l, tickets[k]); }
  }

  lemma StageBegins(s: State, l: Loop, tickets: seq<Ticket>, procs: seq<Proc>)
    requires LoopsOk(s) && InMode(s, l, Popping) && ReadyList(s, l, tickets, procs)
    ensures Stage(s, l, tickets, procs, 0, 0)
  {
    forall r | r in s.place && OfLoop(s.place[r], l) ensures r in tickets {
      assert s.place[r] == Locked(l);
      assert OnList(s, l, r);
    }
    forall k | 0 <= k < |tickets| ensures s.place[tickets[k]] == Locked(l) { assert OnList(s, l, tickets[k]); }
  }

  lemma StageStays(s: State, u: State, l: Loop, tickets: seq<Ticket>, procs: seq<Proc>, j: nat, i: nat)
    requires Stage(s, l, tickets, procs, j, i) && Untouched(s, u, LoopOf(l)) && BegunKept(s, u)
    ensures Stage(u, l, tickets, procs, j, i)
  {
    forall k | j <= k < |tickets| ensures Same(s, u, tickets[k]) {
      assert Mine(s.place[tickets[k]], tickets[k], LoopOf(l));
    }
    forall r | r in u.place && OfLoop(u.place[r], l) ensures r in tickets {
      assert Mine(u.place[r], r, LoopOf(l)) && Same(s, u, r);
    }
  }

  lemma ReturnStep(s0: State, s: State, l: Loop, tickets: seq<Ticket>, procs: seq<Proc>, u: State)
    requires Reaches(Next, s0, s) && InMode(s, l, Popping)
    requires Stage(s, l, tickets, procs, 0, 0) && u == ModeTo(s, l, Starting)
    ensures Reaches(Next, s0, u) && InMode(u, l, Starting) && Stage(u, l, tickets, procs, 0, 0)
  {
    StepTo(s0, s, Return(l), u);
  }

  lemma RegisterStep(s0: State, s: State, l: Loop, tickets: seq<Ticket>, procs: seq<Proc>, i: nat, u: State)
    requires Reaches(Next, s0, s) && InMode(s, l, Starting)
    requires Stage(s, l, tickets, procs, 0, i) && i < |tickets| && Distinct(tickets)
    requires var t := tickets[i];
      u == Move(s, t, Registered(l)).(running := s.running + map x | x in Shards(procs[i]) :: t)
    ensures Reaches(Next, s0, u) && InMode(u, l, Starting) && Stage(u, l, tickets, procs, 0, i + 1)
  {
    StepTo(s0, s, Register(tickets[i]), u);
  }

  lemma AllEntered(s: State, l: Loop, tickets: seq<Ticket>, procs: seq<Proc>, j: nat)
    requires Stage(s, l, tickets, procs, j, |tickets|)
    ensures NoneAt(s, Locked(l)) && (j == |tickets| ==> NoneAt(s, Registered(l)))
  {
    forall r | r in s.place ensures s.place[r] != Locked(l) && (j == |tickets| ==> s.place[r] != Registered(l)) {
      if r in tickets {
        var k :| 0 <= k < |tickets| && tickets[k] == r;
      }
    }
  }

  lemma AllStarted(s: State, l: Loop, tickets: seq<Ticket>, procs: seq<Proc>)
    requires Stage(s, l, tickets, procs, |tickets|, |tickets|)
    ensures AllBegun(s, tickets, procs) && NoneAt(s, Locked(l)) && NoneAt(s, Registered(l)) && ReadyList(s, l, [], [])
  {
    AllEntered(s, l, tickets, procs, |tickets|);
    forall r ensures !OnList(s, l, r) {}
  }

  lemma WorkerStep(s0: State, s: State, l: Loop, tickets: seq<Ticket>, procs: seq<Proc>, j: nat, u: State)
    requires Reaches(Next, s0, s) && InMode(s, l, Starting) && Stage(s, l, tickets, procs, j, |tickets|)
    requires j < |tickets| && Distinct(tickets) && u == Move(s, tickets[j], Running)
    ensures Reaches(Next, s0, u) && InMode(u, l, Starting) && Stage(u, l, tickets, procs, j + 1, |tickets|)
  {
    AllEntered(s, l, tickets, procs, j);
    StepTo(s0, s, StartWorker(tickets[j]), u);
  }

  lemma AgainStep(s0: State, s: State, l: Loop, tickets: seq<Ticket>, procs: seq<Proc>, u: State)
    requires Reaches(Next, s0, s) && InMode(s, l, Starting) && Stage(s, l, tickets, procs, |tickets|, |tickets|)
    requires u == ModeTo(s, l, Popping)
    ensures Reaches(Next, s0, u) && InMode(u, l, Popping) && Stage(u, l, tickets, procs, |tickets|, |tickets|)
  {
    AllEntered(s, l, tickets, procs, |tickets|);
    StepTo(s0, s, Again(l), u);
  }

  // ----- the steps of a release -----

  ghost predicate WorkerAt(s: State, t: Ticket, p: Place, job: Job)
  {
    Known(s, t) && s.place[t] == p && s.jobs[t] == job
  }

  lemma StillAt(s: State, u: State, t: Ticket, p: Place, job: Job)
    requires Untouched(s, u, WorkerOf(t)) && WorkerAt(s, t, p, job) && (p.Running? || p.Releasing?)
    ensures WorkerAt(u, t, p, job)
  {
    assert Mine(s.place[t], t, WorkerOf(t)) && Same(s, u, t);
  }

  lemma FinishStep(s0: State, s: State, t: Ticket, job: Job, u: State)
    requires Reaches(Next, s0, s) && WorkerAt(s, t, Running, job) && u == Move(s, t, Releasing(job.shards, {}))
    ensures Reaches(Next, s0, u) && WorkerAt(u, t, Releasing(job.shards, {}), job)
  {
    StepTo(s0, s, Finish(t), u);
  }

  lemma DeleteStep(s0: State, s: State, t: Ticket, job: Job, rest: set<Shard>, x: Shard, u: State)
    requires Reaches(Next, s0, s) && WorkerAt(s, t, Releasing(rest, {}), job) && x in rest
    requires u == Move(s, t, Releasing(rest, {x})).(running := s.running - {x})
    ensures Reaches(Next, s0, u) && WorkerAt(u, t, Releasing(rest, {x}), job)
  {
    StepTo(s0, s, Delete(t, x), u);
  }

  lemma UnLockStep(s0: State, s: State, t: Ticket, job: Job, rest: set<Shard>, x: Shard, u: State)
    requires Start(s0) && Reaches(Next, s0, s) && WorkerAt(s, t, Releasing(rest, {x}), job)
    requires u == Move(s, t, Releasing(rest - {x}, {})).(entryLocks := s.entryLocks - {x})
    ensures x in s.entryLocks && Reaches(Next, s0, u) && WorkerAt(u, t, Releasing(rest - {x}, {}), job)
  {
    StartInv(s0, s);
    UnLockCore(s, t, rest, x, u);
    StepTo(s0, s, Procedures.UnLock(t, x), u);
  }

  lemma EndStep(s0: State, s: State, t: Ticket, job: Job, u: State)
    requires Reaches(Next, s0, s) && WorkerAt(s, t, Releasing({}, {}), job) && u == Move(s, t, Done)
    ensures Reaches(Next, s0, u) && WorkerAt(u, t, Done, job)
  {
    StepTo(s0, s, End(t), u);
  }

  lemma ReleaseFirst(shards: seq<Shard>)
    requires shards != [] && Distinct(shards)
    ensures shards[0] in Elements(shards) && Elements(shards[1..]) == Elements(shards) - {shards[0]}
  {
    assert shards == [shards[0]] + shards[1..];
  }

  class ManagerImpl {
    const procedureShardLock: EntryLock
    const waitingProcedures: Queue
    var runningProcedures: map<Shard, Proc>
    ghost var running: map<Shard, Ticket>
    ghost var jobs: map<Ticket, Job>
    ghost var place: map<Ticket, Place>
    ghost var tickets: map<nat, Ticket>
    ghost var loops: map<Loop, Mode>

    ghost function Sys(): State
      reads this, procedureShardLock, waitingProcedures
    {
      State(jobs, place, tickets, waitingProcedures.maxLen, loops, procedureShardLock.entryLocks, running, false)
    }

    ghost function Now(): Glimpse
      reads this, procedureShardLock, waitingProcedures
    {
      Glimpse(Sys(), waitingProcedures.pending)
    }

    /** The manager is in a state of a run from s0, which is the system at the start. */
    ghost predicate Valid(s0: State)
      reads this, procedureShardLock, waitingProcedures
    {
      && Start(s0) && Reaches(Next, s0, Sys())
      && waitingProcedures.Valid() && Tied(waitingProcedures.pending, tickets, jobs)
      && RunsTied(runningProcedures, running, jobs)
    }

    constructor (maxLen: nat)
      ensures Start(Sys()) && Valid(Sys()) && fresh(procedureShardLock) && fresh(waitingProcedures)
    {
      procedureShardLock := new EntryLock();
      waitingProcedures := new Queue(maxLen);
      runningProcedures, running, jobs, place, tickets, loops := map[], map[], map[], map[], map[], map[];
      new;
      ReachesSelf(Next, Sys());
    }

    /** Anything the others may do. */
    method Others(ghost me: Actor, ghost s0: State)
      requires Valid(s0)
      modifies this, procedureShardLock, waitingProcedures
      ensures Reaches((v: State, w: State) => OtherNext(v, w, me), old(Sys()), Sys())
      ensures waitingProcedures.Valid() && Tied(waitingProcedures.pending, tickets, jobs)
      ensures RunsTied(runningProcedures, running, jobs)
    {
      ReachesSelf((v: State, w: State) => OtherNext(v, w, me), Sys());
    }

    method Yield(ghost me: Actor, ghost s0: State)
      requires Valid(s0)
      modifies this, procedureShardLock, waitingProcedures
      ensures Valid(s0) && Untouched(old(Sys()), Sys(), me) && BegunKept(old(Sys()), Sys())
      ensures Reaches(Next, old(Sys()), Sys())
    {
      StartInv(s0, Sys());
      Others(me, s0);
      OthersLeave(old(Sys()), Sys(), me);
      BegunStays(old(Sys()), Sys());
      ReachesTransitive(Next, s0, old(Sys()), Sys());
    }

    /** Records a step whose effect on the queue, the locks and the running map has just been made. */
    ghost method Record(s0: State, u: State)
      requires Start(s0) && Reaches(Next, s0, u)
      requires Real(u, waitingProcedures.maxLen, procedureShardLock.entryLocks)
      requires waitingProcedures.Valid() && Tied(waitingProcedures.pending, u.queue, u.jobs)
      requires RunsTied(runningProcedures, u.running, u.jobs)
      modifies this`jobs, this`place, this`tickets, this`loops, this`running
      ensures Valid(s0) && Sys() == u
    {
      jobs, place, tickets, loops, running := u.jobs, u.place, u.queue, u.loops, u.running;
      assert Sys() == u;
    }

    /** Start: one more promotion loop. */
    method StartLoop(ghost s0: State) returns (ghost l: Loop)
      requires Valid(s0)
      modifies this, procedureShardLock, waitingProcedures
      ensures Valid(s0) && InMode(Sys(), l, Popping) && ReadyList(Sys(), l, [], [])
    {
      Yield(Submitter, s0);
      l := FreshTicket(loops.Keys);
      JoinStep(s0, Sys(), l, ModeTo(Sys(), l, Popping));
      Record(s0, ModeTo(Sys(), l, Popping));
    }

    /** A push for a new ticket, due at once; refused exactly when the queue is full or has the ID. */
    method Submit(p: Proc, now: int, ghost s0: State) returns (r: Pushed, ghost atPush: Glimpse)
      requires Valid(s0)
      modifies this, procedureShardLock, waitingProcedures
      ensures Valid(s0) && Reaches(Next, old(Sys()), atPush.s) && (r.Pushed? <==> CanPush(atPush.s, p.id))
      ensures if r.Pushed? then exists t :: Submits(atPush.s, Sys(), t, JobOf(p)) else Sys() == atPush.s
      ensures waitingProcedures.pending
        == if r.Pushed? then atPush.pending[p.id := Entry(p, now)] else atPush.pending
    {
      Yield(Submitter, s0);
      atPush := Now();
      r := SubmitNow(p, now, s0);
    }

    method SubmitNow(p: Proc, now: int, ghost s0: State) returns (r: Pushed)
      requires Valid(s0)
      modifies this, waitingProcedures
      ensures Valid(s0) && (r.Pushed? <==> CanPush(old(Sys()), p.id))
      ensures if r.Pushed? then exists t :: Submits(old(Sys()), Sys(), t, JobOf(p)) else Sys() == old(Sys())
      ensures waitingProcedures.pending
        == if r.Pushed? then old(waitingProcedures.pending)[p.id := Entry(p, now)] else old(waitingProcedures.pending)
    {
      ghost var s, pending := Sys(), waitingProcedures.pending;
      SameSize(pending, tickets);
      r := waitingProcedures.Push(p, 0, now);
      if r.Pushed? {
        ghost var t := NewTicket(Entry(p, now), s, pending, s0);
        assert Submits(s, Sys(), t, JobOf(p));
      }
    }

    ghost method NewTicket(e: Entry, s: State, pending: map<nat, Entry>, s0: State) returns (t: Ticket)
      requires Start(s0) && Reaches(Next, s0, s) && s == Sys() && CanPush(s, e.proc.id)
      requires Tied(pending, tickets, jobs) && RunsTied(runningProcedures, running, jobs)
      requires waitingProcedures.Valid() && waitingProcedures.pending == pending[e.proc.id := e]
      modifies this`jobs, this`place, this`tickets, this`loops, this`running
      ensures Valid(s0) && Submits(s, Sys(), t, JobOf(e.proc))
    {
      t := FreshTicket(place.Keys + jobs.Keys);
      var u := Move(s, t, Waiting).(jobs := s.jobs[t := JobOf(e.proc)], queue := s.queue[e.proc.id := t]);
      Submitted(s0, s, t, pending, e, runningProcedures, u);
      Record(s0, u);
    }

    /** The others act, and the loop's turn goes on. */
    method YieldTurn(ghost l: Loop, ghost t: Ticket, ghost p: Place, ghost job: Job, ghost s0: State)
      requires Valid(s0) && InTurn(Sys(), l, t, p, job) && OfLoop(p, l)
      modifies this, procedureShardLock, waitingProcedures
      ensures Valid(s0) && InTurn(Sys(), l, t, p, job) && SameReady(old(Sys()), Sys(), l)
      ensures Reaches(Next, old(Sys()), Sys())
    {
      Yield(LoopOf(l), s0);
      StartInv(s0, old(Sys()));
      StartInv(s0, Sys());
      StillInTurn(old(Sys()), Sys(), l, t, p, job);
      StillReady(old(Sys()), Sys(), l);
    }

    method YieldIdle(ghost l: Loop, ghost m: Mode, ghost s0: State)
      requires Valid(s0) && InMode(Sys(), l, m)
      modifies this, procedureShardLock, waitingProcedures
      ensures Valid(s0) && InMode(Sys(), l, m) && SameReady(old(Sys()), Sys(), l)
      ensures Reaches(Next, old(Sys()), Sys())
    {
      Yield(LoopOf(l), s0);
      StartInv(s0, old(Sys()));
      StartInv(s0, Sys());
      StillReady(old(Sys()), Sys(), l);
    }

    method PopTicket(ghost l: Loop, now: int, ghost s0: State)
      returns (p: Option<Proc>, ghost t: Ticket, ghost at: Glimpse)
      requires Valid(s0) && InMode(Sys(), l, Popping)
      modifies this, procedureShardLock, waitingProcedures
      ensures Valid(s0) && SameReady(old(Sys()), Sys(), l) && Reaches(Next, old(Sys()), at.s)
      ensures p.None? ==> InMode(Sys(), l, Popping) && NoneDue(waitingProcedures.pending, now) && Now() == at
      ensures p.Some? ==> InTurn(Sys(), l, t, Popped(l), JobOf(p.value)) && Pops(at, l, now, p.value, t, Now())
    {
      YieldIdle(l, Popping, s0);
      at := Now();
      p, t := PopNow(l, now, s0);
    }

    method PopNow(ghost l: Loop, now: int, ghost s0: State) returns (p: Option<Proc>, ghost t: Ticket)
      requires Valid(s0) && InMode(Sys(), l, Popping)
      modifies this, waitingProcedures
      ensures Valid(s0) && SameReady(old(Sys()), Sys(), l)
      ensures p.None? ==> InMode(Sys(), l, Popping) && NoneDue(waitingProcedures.pending, now) && Now() == old(Now())
      ensures p.Some? ==> InTurn(Sys(), l, t, Popped(l), JobOf(p.value)) && Pops(old(Now()), l, now, p.value, t, Now())
    {
      ghost var s, pending := Sys(), waitingProcedures.pending;
      p := waitingProcedures.Pop(now);
      t := 0;
      if p.Some? {
        t := s.queue[p.value.id];
        ghost var u := ModeTo(Move(s, t, Popped(l)), l, Turn(t)).(queue := s.queue - {p.value.id});
        PopStep(s0, s, t, l, JobOf(p.value), u);
        TiedTakes(pending, s.queue, s.jobs, p.value.id);
        Record(s0, u);
      }
    }

    method Discard(ghost l: Loop, ghost t: Ticket, ghost job: Job, ghost s0: State) returns (ghost at: Glimpse)
      requires Valid(s0) && InTurn(Sys(), l, t, Popped(l), job)
      modifies this, procedureShardLock, waitingProcedures
      ensures Valid(s0) && SameReady(old(Sys()), Sys(), l)
      ensures InMode(Sys(), l, Popping) && At(Sys(), t) == Some(Discarded)
      ensures Reaches(Next, old(Sys()), at.s) && Discards(at, t, Now())
    {
      YieldTurn(l, t, Popped(l), job, s0);
      at := Now();
      ghost var u := ModeTo(Move(Sys(), t, Discarded), l, Popping);
      DiscardStep(s0, Sys(), t, l, job, u);
      Record(s0, u);
    }

    method LockShards(ghost l: Loop, p: Proc, ghost t: Ticket, ghost s0: State) returns (ok: bool, ghost at: Glimpse)
      requires Valid(s0) && InTurn(Sys(), l, t, Popped(l), JobOf(p))
      modifies this, procedureShardLock, waitingProcedures
      ensures Valid(s0) && Reaches(Next, old(Sys()), at.s) && TriesLock(at, t, p, ok, Now())
      ensures ok ==> InMode(Sys(), l, Popping) && OneMoreReady(old(Sys()), Sys(), l, t, JobOf(p))
      ensures !ok ==> InTurn(Sys(), l, t, Refused(l), JobOf(p)) && SameReady(old(Sys()), Sys(), l)
    {
      var shardIDs := ListShards(p);
      YieldTurn(l, t, Popped(l), JobOf(p), s0);
      at := Now();
      ok := LockNow(l, p, t, shardIDs, s0);
      LockOrRefuse(s0, at, l, t, p, ok, Sys());
    }

    method LockNow(ghost l: Loop, p: Proc, ghost t: Ticket, shardIDs: seq<Shard>, ghost s0: State) returns (ok: bool)
      requires Valid(s0) && InTurn(Sys(), l, t, Popped(l), JobOf(p)) && Elements(shardIDs) == Shards(p)
      requires Distinct(shardIDs)
      modifies this, procedureShardLock
      ensures Valid(s0) && (ok <==> Shards(p) !! old(Sys()).entryLocks)
      ensures Now() == Glimpse(LockedOrRefused(old(Sys()), l, t, p, ok), old(Now()).pending)
    {
      ghost var s := Sys();
      ok := procedureShardLock.TryLock(shardIDs);
      ghost var u := LockedOrRefused(s, l, t, p, ok);
      LockReaches(s0, s, l, t, p, ok, u);
      Record(s0, u);
    }

    method PushNow(ghost l: Loop, p: Proc, later: int, ghost t: Ticket, ghost s0: State) returns (ok: bool)
      requires Valid(s0) && InTurn(Sys(), l, t, Refused(l), JobOf(p))
      modifies this, waitingProcedures
      ensures Valid(s0) && InMode(Sys(), l, Popping) && (ok <==> CanPush(old(Sys()), p.id))
      ensures At(Sys(), t) == Some(if ok then Waiting else Lost)
      ensures if ok then SameReady(old(Sys()), Sys(), l)
        else PushFails(old(Sys()), Sys(), t) && NoReady(old(Sys()), Sys(), l)
      ensures PushesBack(old(Now()), t, p, later, ok, Now())
    {
      ghost var s, pending := Sys(), waitingProcedures.pending;
      SameSize(pending, tickets);
      var r := waitingProcedures.Push(p, WAITING_QUEUE_DELAY, later);
      ok := r.Pushed?;
      ghost var u;
      if ok {
        u := ModeTo(Move(s, t, Waiting), l, Popping).(queue := s.queue[p.id := t]);
        PushedBack(s0, s, t, l, pending, Entry(p, later + WAITING_QUEUE_DELAY), u);
      } else {
        u := ModeTo(s, l, Popping).(place := Dropped(s.place, l)[t := Lost]);
        DropStep(s0, s, t, l, JobOf(p), u);
      }
      Record(s0, u);
    }

    /** The push of a refused procedure: it fails exactly when the queue is full or has the ID, and then the loop
        drops its ready procedures. */
    method PushBack(ghost l: Loop, p: Proc, later: int, ghost t: Ticket, ghost s0: State)
      returns (ok: bool, ghost at: Glimpse)
      requires Valid(s0) && InTurn(Sys(), l, t, Refused(l), JobOf(p))
      modifies this, procedureShardLock, waitingProcedures
      ensures Valid(s0) && InMode(Sys(), l, Popping) && SameReady(old(Sys()), at.s, l)
      ensures Reaches(Next, old(Sys()), at.s) && (ok <==> CanPush(at.s, p.id))
      ensures At(Sys(), t) == Some(if ok then Waiting else Lost)
      ensures if ok then SameReady(old(Sys()), Sys(), l)
        else PushFails(at.s, Sys(), t) && NoReady(old(Sys()), Sys(), l)
      ensures PushesBack(at, t, p, later, ok, Now())
    {
      YieldTurn(l, t, Refused(l), JobOf(p), s0);
      at := Now();
      ok := PushNow(l, p, later, t, s0);
    }

    /** One turn of promoteProcedure. The popped procedure is discarded exactly when it is not valid for the
        topology it is checked against; otherwise it gets all its locks, or it is pushed back, which fails exactly
        when the queue is full or has its ID. The ready procedures of the loop stay ready, and are stranded if and
        only if that push fails. */
    method PromoteTurn(ghost l: Loop, now: int, later: int, snap: Snapshot, ghost s0: State)
      returns (r: Verdict, p: Option<Proc>, ghost g: TurnLog)
      requires Valid(s0) && InMode(Sys(), l, Popping)
      modifies this, procedureShardLock, waitingProcedures
      ensures Valid(s0) && InMode(Sys(), l, Popping) && (r.Nothing? <==> p.None?)
      ensures g.verdict == r && g.proc == p && g.after == Now() && Reaches(Next, old(Sys()), g.popping.s)
      ensures TurnOk(l, Moment(now, later, snap), g)
      ensures p.Some? ==> (r.Skipped? <==> !Current(p.value.info, snap))
      ensures r.Nothing? ==> NoneDue(waitingProcedures.pending, now)
      ensures r.Skipped? ==> At(Sys(), g.t) == Some(Discarded)
      ensures r.Back? ==> CanPush(g.ending.s, p.value.id) && At(Sys(), g.t) == Some(Waiting)
      ensures r.Full? ==> !CanPush(g.ending.s, p.value.id) && PushFails(g.ending.s, Sys(), g.t)
      ensures r.Back? || r.Full? ==> SameReady(old(Sys()), g.ending.s, l)
      ensures match r
              case Ready => OneMoreReady(old(Sys()), Sys(), l, g.t, JobOf(p.value))
              case Full => NoReady(old(Sys()), Sys(), l)
              case _ => SameReady(old(Sys()), Sys(), l)
    {
      ghost var t, at;
      p, t, at := PopTicket(l, now, s0);
      if p.None? { return Nothing, p, TurnLog(at, p, t, at, Nothing, at, at); }
      r, g := TreatPopped(l, p.value, now, later, snap, t, at, s0);
    }

    /** The rest of the turn, for a procedure that was popped at the moment `at`. */
    method TreatPopped(ghost l: Loop, p: Proc, ghost now: int, later: int, snap: Snapshot, ghost t: Ticket,
        ghost at: Glimpse, ghost s0: State)
      returns (r: Verdict, ghost g: TurnLog)
      requires Valid(s0) && InTurn(Sys(), l, t, Popped(l), JobOf(p)) && Pops(at, l, now, p, t, Now())
      modifies this, procedureShardLock, waitingProcedures
      ensures Valid(s0) && InMode(Sys(), l, Popping) && !r.Nothing? && (r.Skipped? <==> !Current(p.info, snap))
      ensures g == TurnLog(at, Some(p), t, g.locking, r, g.ending, Now()) && TurnOk(l, Moment(now, later, snap), g)
      ensures r.Skipped? ==> At(Sys(), t) == Some(Discarded)
      ensures r.Back? ==> CanPush(g.ending.s, p.id) && At(Sys(), t) == Some(Waiting)
      ensures r.Full? ==> !CanPush(g.ending.s, p.id) && PushFails(g.ending.s, Sys(), t)
      ensures r.Back? || r.Full? ==> SameReady(old(Sys()), g.ending.s, l)
      ensures match r
              case Ready => OneMoreReady(old(Sys()), Sys(), l, t, JobOf(p))
              case Full => NoReady(old(Sys()), Sys(), l)
              case _ => SameReady(old(Sys()), Sys(), l)
    {
      ghost var popped, m, h := Now(), Moment(now, later, snap), at;
      var valid := CheckValid(p.info, snap);
      if !valid {
        h := Discard(l, t, JobOf(p), s0);
        g := TurnLog(at, Some(p), t, at, Skipped, h, Now());
        assert Treats(m, g, p, popped);
        return Skipped, g;
      }
      var ok;
      ok, h := LockShards(l, p, t, s0);
      if ok {
        g := TurnLog(at, Some(p), t, h, Ready, h, Now());
        assert Treats(m, g, p, popped);
        return Ready, g;
      }
      ghost var refused, e := Now(), at;
      ok, e := PushBack(l, p, later, t, s0);
      r := if ok then Back else Full;
      g := TurnLog(at, Some(p), t, h, r, e, Now());
      Treated(m, g, p, popped, refused);
    }

    /** startProcedurePromoteInternal after promoteProcedure: every ready procedure is entered for each of its
        shards, and then their workers are started. */
    method PromoteInternal(ghost l: Loop, ghost tickets: seq<Ticket>, procs: seq<Proc>, ghost s0: State)
      requires Valid(s0) && InMode(Sys(), l, Popping) && ReadyList(Sys(), l, tickets, procs)
      modifies this, procedureShardLock, waitingProcedures
      ensures Valid(s0) && InMode(Sys(), l, Popping)
      ensures AllBegun(Sys(), tickets, procs)
      ensures NoneAt(Sys(), Locked(l)) && NoneAt(Sys(), Registered(l)) && ReadyList(Sys(), l, [], [])
    {
      BeginStarting(l, tickets, procs, s0);
      var i := 0;
      while i < |procs|
        invariant 0 <= i <= |tickets| && Valid(s0) && InMode(Sys(), l, Starting)
        invariant Stage(Sys(), l, tickets, procs, 0, i)
      {
        EnterShards(l, tickets, procs, i, s0);
        i := i + 1;
      }
      StartWorkers(l, tickets, procs, s0);
      AllStarted(Sys(), l, tickets, procs);
    }

    /** promoteProcedure from start to end, with the clocks and topologies of its turns as they come: until nothing is
        due, a push fails, or the given turns are over. What it returns is the loop's list of ready procedures, each
        valid for the topology of its turn; a push that fails strands all of them. */
    method PromotePass(ghost l: Loop, moments: seq<Moment>, ghost s0: State)
      returns (r: PassEnd, ready: seq<Proc>, turns: nat, ghost tickets: seq<Ticket>, ghost log: seq<TurnLog>,
               ghost at: seq<int>)
      requires Valid(s0) && InMode(Sys(), l, Popping) && ReadyList(Sys(), l, [], [])
      modifies this, procedureShardLock, waitingProcedures
      ensures Valid(s0) && InMode(Sys(), l, Popping) && PassList(Sys(), l, r, tickets, ready)
      ensures |log| == turns && (r.OutOfTurns? ==> turns == |moments|)
      ensures Passed(l, moments, old(Sys()), log, r, tickets, ready, at, Now())
    {
      ghost var begin := Now();
      r, ready, tickets, turns, log, at := OutOfTurns, [], [], 0, [], [];
      NoneYet(l, moments, begin);
      while r.OutOfTurns? && turns < |moments|
        invariant |log| == turns <= |moments| && Valid(s0) && InMode(Sys(), l, Popping)
        invariant PassList(Sys(), l, r, tickets, ready)
        invariant Passed(l, moments, begin.s, log, r, tickets, ready, at, Now())
      {
        r, ready, tickets, log, at := CollectTurn(l, moments, turns, ready, tickets, begin.s, log, at, s0);
        turns := turns + 1;
      }
    }

    /** One turn, and what it leaves of the list of ready procedures; OutOfTurns when the pass goes on. */
    method CollectTurn(ghost l: Loop, moments: seq<Moment>, n: nat, ready: seq<Proc>, ghost tickets: seq<Ticket>,
        ghost begin: State, ghost log: seq<TurnLog>, ghost at: seq<int>, ghost s0: State)
      returns (r: PassEnd, next: seq<Proc>, ghost more: seq<Ticket>, ghost longer: seq<TurnLog>, ghost where: seq<int>)
      requires Valid(s0) && InMode(Sys(), l, Popping) && ReadyList(Sys(), l, tickets, ready)
      requires |log| == n < |moments| && Passed(l, moments, begin, log, OutOfTurns, tickets, ready, at, Now())
      modifies this, procedureShardLock, waitingProcedures
      ensures Valid(s0) && InMode(Sys(), l, Popping) && PassList(Sys(), l, r, more, next)
      ensures |longer| == n + 1 && Passed(l, moments, begin, longer, r, more, next, where, Now())
    {
      ghost var s := Now();
      var m := moments[n];
      var v, p;
      ghost var g;
      v, p, g := PromoteTurn(l, m.now, m.later, m.snap, s0);
      next, more := ready, tickets;
      r := EndOf(v);
      longer := log + [g];
      if v.Ready? {
        ListGrows(s.s, Sys(), l, tickets, ready, g.t, p.value);
        next, more := ready + [p.value], tickets + [g.t];
      } else if v.Full? {
        ListDropped(s.s, Sys(), l, tickets, ready);
        next := [];
      } else {
        SameList(s.s, Sys(), l, tickets, ready);
      }
      where := PassedMore(l, moments, begin, log, tickets, ready, at, s, g, more, next);
    }

    /** startProcedurePromoteInternal: a pass, and unless it failed the procedures it made ready are entered and
        started, each of them and no others; then the loop can begin again. */
    method StartProcedurePromoteInternal(ghost l: Loop, moments: seq<Moment>, ghost s0: State)
      returns (r: PassEnd, ready: seq<Proc>, ghost tickets: seq<Ticket>, ghost log: seq<TurnLog>, ghost at: seq<int>,
               ghost mid: Glimpse)
      requires Valid(s0) && InMode(Sys(), l, Popping) && ReadyList(Sys(), l, [], [])
      modifies this, procedureShardLock, waitingProcedures
      ensures Valid(s0) && InMode(Sys(), l, Popping) && ValidAt(ready, moments)
      ensures Passed(l, moments, old(Sys()), log, r, tickets, ready, at, mid) && (r.OutOfTurns? ==> |log| == |moments|)
      ensures !r.AllTaken? ==> Now() == mid
      ensures r.AllTaken? ==> AllBegun(Sys(), tickets, ready) && ReadyList(Sys(), l, [], [])
      ensures !r.AllTaken? ==> PassList(Sys(), l, r, tickets, ready)
    {
      var turns;
      r, ready, turns, tickets, log, at := PromotePass(l, moments, s0);
      mid := Now();
      PassFacts(l, moments, old(Sys()), log, r, tickets, ready, at, mid);
      ValidWithin(ready, moments, turns);
      if r.AllTaken? { PromoteInternal(l, tickets, ready, s0); }
    }

    ghost method BeginStarting(l: Loop, tickets: seq<Ticket>, procs: seq<Proc>, s0: State)
      requires Valid(s0) && InMode(Sys(), l, Popping) && ReadyList(Sys(), l, tickets, procs)
      modifies this`jobs, this`place, this`tickets, this`loops, this`running
      ensures Valid(s0) && InMode(Sys(), l, Starting) && Stage(Sys(), l, tickets, procs, 0, 0)
    {
      StartInv(s0, Sys());
      StageBegins(Sys(), l, tickets, procs);
      ReturnStep(s0, Sys(), l, tickets, procs, ModeTo(Sys(), l, Starting));
      Record(s0, ModeTo(Sys(), l, Starting));
    }

    method YieldStage(ghost l: Loop, ghost tickets: seq<Ticket>, procs: seq<Proc>, ghost j: nat, ghost i: nat,
        ghost s0: State)
      requires Valid(s0) && InMode(Sys(), l, Starting) && Stage(Sys(), l, tickets, procs, j, i)
      modifies this, procedureShardLock, waitingProcedures
      ensures Valid(s0) && InMode(Sys(), l, Starting) && Stage(Sys(), l, tickets, procs, j, i)
    {
      Yield(LoopOf(l), s0);
      StageStays(old(Sys()), Sys(), l, tickets, procs, j, i);
    }

    method EnterShards(ghost l: Loop, ghost tickets: seq<Ticket>, procs: seq<Proc>, i: nat, ghost s0: State)
      requires Valid(s0) && InMode(Sys(), l, Starting) && Stage(Sys(), l, tickets, procs, 0, i)
      requires i < |procs| && Distinct(tickets)
      modifies this, procedureShardLock, waitingProcedures
      ensures Valid(s0) && InMode(Sys(), l, Starting) && Stage(Sys(), l, tickets, procs, 0, i + 1)
    {
      var shardIDs := ListShards(procs[i]);
      YieldStage(l, tickets, procs, 0, i, s0);
      EnterNow(l, tickets, procs, i, shardIDs, s0);
    }

    method EnterNow(ghost l: Loop, ghost tickets: seq<Ticket>, procs: seq<Proc>, i: nat, shardIDs: seq<Shard>,
        ghost s0: State)
      requires Valid(s0) && InMode(Sys(), l, Starting) && Stage(Sys(), l, tickets, procs, 0, i)
      requires i < |procs| && Distinct(tickets)
      requires Elements(shardIDs) == Shards(procs[i])
      modifies this
      ensures Valid(s0) && InMode(Sys(), l, Starting) && Stage(Sys(), l, tickets, procs, 0, i + 1)
    {
      ghost var s, was, t := Sys(), runningProcedures, tickets[i];
      ghost var u := Move(s, t, Registered(l)).(running := s.running + map x | x in Elements(shardIDs) :: t);
      runningProcedures := Entered(runningProcedures, procs[i], shardIDs);
      RegisterStep(s0, s, l, tickets, procs, i, u);
      RunsEnter(was, s.running, s.jobs, Elements(shardIDs), procs[i], t);
      Record(s0, u);
    }

    static method Entered(m: map<Shard, Proc>, t: Proc, shards: seq<Shard>) returns (n: map<Shard, Proc>)
      ensures n == m + map x | x in Elements(shards) :: t
    {
      n := m;
      var k := 0;
      while k < |shards|
        invariant 0 <= k <= |shards| && n == m + map x | x in Elements(shards[..k]) :: t
      {
        assert shards[..k + 1] == shards[..k] + [shards[k]];
        n := n[shards[k] := t];
        k := k + 1;
      }
      assert shards[..k] == shards;
    }

    method StartWorkers(ghost l: Loop, ghost tickets: seq<Ticket>, procs: seq<Proc>, ghost s0: State)
      requires Valid(s0) && InMode(Sys(), l, Starting)
      requires Stage(Sys(), l, tickets, procs, 0, |tickets|) && Distinct(tickets)
      modifies this, procedureShardLock, waitingProcedures
      ensures Valid(s0) && InMode(Sys(), l, Popping) && Stage(Sys(), l, tickets, procs, |tickets|, |tickets|)
    {
      var j := 0;
      while j < |procs|
        invariant 0 <= j <= |tickets| && Valid(s0) && InMode(Sys(), l, Starting)
        invariant Stage(Sys(), l, tickets, procs, j, |tickets|)
      {
        YieldStage(l, tickets, procs, j, |tickets|, s0);
        WorkerStep(s0, Sys(), l, tickets, procs, j, Move(Sys(), tickets[j], Running));
        Record(s0, Move(Sys(), tickets[j], Running));
        j := j + 1;
      }
      AgainStep(s0, Sys(), l, tickets, procs, ModeTo(Sys(), l, Popping));
      Record(s0, ModeTo(Sys(), l, Popping));
    }

    method YieldWorker(ghost t: Ticket, ghost p: Place, ghost job: Job, ghost s0: State)
      requires Valid(s0) && WorkerAt(Sys(), t, p, job) && (p.Running? || p.Releasing?)
      modifies this, procedureShardLock, waitingProcedures
      ensures Valid(s0) && WorkerAt(Sys(), t, p, job)
    {
      Yield(WorkerOf(t), s0);
      StillAt(old(Sys()), Sys(), t, p, job);
    }

    /** The end of a worker: once its job has returned, it deletes each shard's entry and releases its lock,
        one shard at a time. It never panics. */
    method ReleaseShards(p: Proc, ghost t: Ticket, ghost s0: State) returns (panicked: bool)
      requires Valid(s0) && WorkerAt(Sys(), t, Running, JobOf(p))
      modifies this, procedureShardLock, waitingProcedures
      ensures !panicked && Valid(s0) && WorkerAt(Sys(), t, Done, JobOf(p))
    {
      YieldWorker(t, Running, JobOf(p), s0);
      FinishStep(s0, Sys(), t, JobOf(p), Move(Sys(), t, Releasing(Shards(p), {})));
      Record(s0, Move(Sys(), t, Releasing(Shards(p), {})));
      var shards := ListShards(p);
      panicked := false;
      var i := 0;
      while i < |shards| && !panicked
        invariant 0 <= i <= |shards| && !panicked
        invariant Valid(s0) && WorkerAt(Sys(), t, Releasing(Elements(shards[i..]), {}), JobOf(p))
      {
        ReleaseFirst(shards[i..]);
        panicked := ReleaseShard(shards[i], t, JobOf(p), Elements(shards[i..]), s0);
        assert shards[i..][1..] == shards[i + 1..];
        i := i + 1;
      }
      assert Elements(shards[i..]) == {};
      EndStep(s0, Sys(), t, JobOf(p), Move(Sys(), t, Done));
      Record(s0, Move(Sys(), t, Done));
    }

    method ReleaseShard(x: Shard, ghost t: Ticket, ghost job: Job, ghost rest: set<Shard>, ghost s0: State)
      returns (panicked: bool)
      requires Valid(s0) && WorkerAt(Sys(), t, Releasing(rest, {}), job) && x in rest
      modifies this, procedureShardLock, waitingProcedures
      ensures !panicked && Valid(s0) && WorkerAt(Sys(), t, Releasing(rest - {x}, {}), job)
    {
      DeleteEntry(x, t, job, rest, s0);
      YieldWorker(t, Releasing(rest, {x}), job, s0);
      ghost var s := Sys();
      ghost var u := Move(s, t, Releasing(rest - {x}, {})).(entryLocks := s.entryLocks - {x});
      UnLockStep(s0, s, t, job, rest, x, u);
      panicked := procedureShardLock.UnLock([x]);
      assert Elements([x]) == {x};
      Record(s0, u);
    }

    method DeleteEntry(x: Shard, ghost t: Ticket, ghost job: Job, ghost rest: set<Shard>, ghost s0: State)
      requires Valid(s0) && WorkerAt(Sys(), t, Releasing(rest, {}), job) && x in rest
      modifies this, procedureShardLock, waitingProcedures
      ensures Valid(s0) && WorkerAt(Sys(), t, Releasing(rest, {x}), job)
    {
      YieldWorker(t, Releasing(rest, {}), job, s0);
      ghost var s := Sys();
      ghost var u := Move(s, t, Releasing(rest, {x})).(running := s.running - {x});
      DeleteStep(s0, s, t, job, rest, x, u);
      runningProcedures := runningProcedures - {x};
      Record(s0, u);
    }
  }
}
