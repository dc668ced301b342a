/** The cluster view of topology_manager.go with storage_impl.go: every version of the view is kept under
    its own key, and a `latest_version` key names the current one.

    Any number of managers work on the same keys. Every request to etcd is one atomic step, requests
    interleave freely, and a request may fail, or take effect and lose its response. */
module ClusterViews {
  import opened Common

  datatype ClusterState = Empty | Stable | Prepare

  datatype ShardNode = ShardNode(id: nat, role: nat, node: string)

  datatype View = View(version: nat, state: ClusterState, nodes: seq<ShardNode>)

  /** A change of the view. `ByNode` carries its argument map in the order Go happens to iterate it. */
  datatype Op =
    | Set(state: ClusterState, nodes: seq<ShardNode>)
    | Drop(dropped: seq<ShardNode>)
    | ByNode(groups: seq<(string, seq<ShardNode>)>)

  // ----- what the operations compute -----

  predicate Contains(dropped: seq<ShardNode>, n: ShardNode)
  {
    exists i :: 0 <= i < |dropped| && dropped[i].node == n.node && dropped[i].id == n.id
  }

  function Kept(nodes: seq<ShardNode>, dropped: seq<ShardNode>): seq<ShardNode>
  {
    Filter(nodes, (n: ShardNode) => !Contains(dropped, n))
  }

  function Flat(groups: seq<(string, seq<ShardNode>)>): seq<ShardNode>
  {
    if groups == [] then [] else Flat(groups[..|groups| - 1]) + groups[|groups| - 1].1
  }

  predicate HasGroup(groups: seq<(string, seq<ShardNode>)>, node: string)
  {
    exists i :: 0 <= i < |groups| && groups[i].0 == node
  }

  function OffGroups(nodes: seq<ShardNode>, groups: seq<(string, seq<ShardNode>)>): seq<ShardNode>
  {
    Filter(nodes, (n: ShardNode) => !HasGroup(groups, n.node))
  }

  function Apply(op: Op, v: View): (w: View)
    ensures w.version == v.version + 1
  {
    match op
    case Set(state, nodes) => View(v.version + 1, state, nodes)
    case Drop(dropped) => View(v.version + 1, v.state, Kept(v.nodes, dropped))
    case ByNode(groups) => View(v.version + 1, v.state, Flat(groups) + OffGroups(v.nodes, groups))
  }

  // ----- the same without the order of the loops -----

  /** The entries of which none dropped has the node and the ID, in the same order. */
  ghost predicate WithoutDropped(nodes: seq<ShardNode>, dropped: seq<ShardNode>, r: seq<ShardNode>)
  {
    && IsFilter(nodes, (n: ShardNode) => !Contains(dropped, n), r)
    && SameCounts(nodes, dropped, r)
  }

  ghost predicate SameCounts(nodes: seq<ShardNode>, dropped: seq<ShardNode>, r: seq<ShardNode>)
  {
    forall n :: multiset(r)[n] == if Contains(dropped, n) then 0 else multiset(nodes)[n]
  }

  lemma DropExactly(nodes: seq<ShardNode>, dropped: seq<ShardNode>)
    ensures WithoutDropped(nodes, dropped, Kept(nodes, dropped))
  {
    FilterExactly(nodes, (n: ShardNode) => !Contains(dropped, n));
    forall n ensures multiset(Kept(nodes, dropped))[n] == if Contains(dropped, n) then 0 else multiset(nodes)[n] {
      FilterCounts(nodes, (m: ShardNode) => !Contains(dropped, m), n);
    }
  }

  predicate PartOf(g: seq<ShardNode>, r: seq<ShardNode>, from: nat, to: nat)
  {
    from <= to <= |r| && r[from..to] == g
  }

  /** `off` tells where each group ends in the list. */
  ghost predicate SplitAt(groups: seq<(string, seq<ShardNode>)>, r: seq<ShardNode>, off: seq<nat>)
  {
    && |off| == |groups| + 1 && off[0] == 0 && off[|groups|] == |r|
    && forall i :: 0 <= i < |groups| ==> PartOf(groups[i].1, r, off[i], off[i + 1])
  }

  lemma {:induction false} FlatExactly(groups: seq<(string, seq<ShardNode>)>) returns (off: seq<nat>)
    ensures SplitAt(groups, Flat(groups), off)
    decreases |groups|
  {
    if groups == [] {
      off := [0];
    } else {
      var k := |groups| - 1;
      var early := FlatExactly(groups[..k]);
      off := FlatMore(groups[..k], Flat(groups[..k]), early, groups[k]);
      SplitLast(groups);
    }
  }

  lemma FlatMore(groups: seq<(string, seq<ShardNode>)>, r: seq<ShardNode>, early: seq<nat>,
      g: (string, seq<ShardNode>)) returns (off: seq<nat>)
    requires SplitAt(groups, r, early)
    ensures SplitAt(groups + [g], r + g.1, off)
  {
    off := early + [|r| + |g.1|];
    var more := groups + [g];
    forall i | 0 <= i < |more| ensures PartOf(more[i].1, r + g.1, off[i], off[i + 1]) {
      if i < |groups| {
        assert PartOf(groups[i].1, r, early[i], early[i + 1]);
        assert (r + g.1)[early[i]..early[i + 1]] == r[early[i]..early[i + 1]];
      } else {
        assert (r + g.1)[|r|..] == g.1;
      }
    }
  }

  /** The entries whose node has no group, in the same order. */
  ghost predicate WithoutGroups(nodes: seq<ShardNode>, groups: seq<(string, seq<ShardNode>)>, r: seq<ShardNode>)
  {
    IsFilter(nodes, (n: ShardNode) => !HasGroup(groups, n.node), r)
  }

  lemma OffExactly(nodes: seq<ShardNode>, groups: seq<(string, seq<ShardNode>)>)
    ensures WithoutGroups(nodes, groups, OffGroups(nodes, groups))
  {
    FilterExactly(nodes, (n: ShardNode) => !HasGroup(groups, n.node));
  }

  /** The groups one after the other, then the entries whose node has no group, in the same order. */
  ghost predicate Regrouped(nodes: seq<ShardNode>, groups: seq<(string, seq<ShardNode>)>, r: seq<ShardNode>)
  {
    exists n, off | 0 <= n <= |r| ::
      SplitAt(groups, r[..n], off) && WithoutGroups(nodes, groups, r[n..])
  }

  lemma RegroupExactly(nodes: seq<ShardNode>, groups: seq<(string, seq<ShardNode>)>)
    ensures Regrouped(nodes, groups, Flat(groups) + OffGroups(nodes, groups))
  {
    var off := FlatExactly(groups);
    OffExactly(nodes, groups);
    var a, r := Flat(groups), Flat(groups) + OffGroups(nodes, groups);
    assert r[..|a|] == a && r[|a|..] == OffGroups(nodes, groups);
  }

  const Initial: View := View(0, Empty, [])

  /** The view after a list of operations. */
  function Fold(ops: seq<Op>): (v: View)
    ensures v.version == |ops|
  {
    if ops == [] then Initial else Apply(ops[|ops| - 1], Fold(ops[..|ops| - 1]))
  }

  // ----- the in-memory view and its indexes -----

  function OfShard(nodes: seq<ShardNode>, id: nat): seq<ShardNode>
  {
    Filter(nodes, (n: ShardNode) => n.id == id)
  }

  function OfNode(nodes: seq<ShardNode>, node: string): seq<ShardNode>
  {
    Filter(nodes, (n: ShardNode) => n.node == node)
  }

  datatype Memory = Memory(view: View, byShard: map<nat, seq<ShardNode>>, byNode: map<string, seq<ShardNode>>)

  function ShardIds(nodes: seq<ShardNode>): set<nat>
  {
    set n | n in nodes :: n.id
  }

  function NodeNames(nodes: seq<ShardNode>): set<string>
  {
    set n | n in nodes :: n.node
  }

  /** A view with its two indexes: for every shard and every node, its entries in the view's order. */
  function Indexed(v: View): Memory
  {
    Memory(v,
           map k | k in ShardIds(v.nodes) :: OfShard(v.nodes, k),
           map k | k in NodeNames(v.nodes) :: OfNode(v.nodes, k))
  }

  /** Each index has the IDs or names of the view's entries as keys, and under each the entries with it, in the view's
      order. */
  ghost predicate IndexesExactly(m: Memory)
  {
    && (forall k :: k in m.byShard <==> exists n :: n in m.view.nodes && n.id == k)
    && (forall k :: k in m.byShard ==> IsFilter(m.view.nodes, (n: ShardNode) => n.id == k, m.byShard[k]))
    && (forall k :: k in m.byNode <==> exists n :: n in m.view.nodes && n.node == k)
    && (forall k :: k in m.byNode ==> IsFilter(m.view.nodes, (n: ShardNode) => n.node == k, m.byNode[k]))
  }

  lemma IndexedExactly(v: View)
    ensures IndexesExactly(Indexed(v))
  {
    var m := Indexed(v);
    forall k | k in m.byShard ensures IsFilter(v.nodes, (n: ShardNode) => n.id == k, m.byShard[k]) {
      FilterExactly(v.nodes, (n: ShardNode) => n.id == k);
    }
    forall k | k in m.byNode ensures IsFilter(v.nodes, (n: ShardNode) => n.node == k, m.byNode[k]) {
      FilterExactly(v.nodes, (n: ShardNode) => n.node == k);
    }
  }

  // ----- steps -----

  type Manager = nat

  datatype Phase = Idle | AtCreate | AtLatest | AtView(version: nat) | AtUpdate(op: Op)

  datatype Local = Local(mem: Option<Memory>, phase: Phase)

  /** `log` lists the committed operations in commit order. */
  datatype State = State(latest: Option<nat>, views: map<nat, View>, log: seq<Op>, managers: map<Manager, Local>)

  function MemVersion(l: Local): nat
  {
    if l.mem.None? then 0 else l.mem.value.view.version
  }

  function Move(s: State, m: Manager, l: Local): State
  {
    s.(managers := s.managers[m := l])
  }

  ghost predicate Joins(s: State, t: State, m: Manager)
  {
    m !in s.managers && t == Move(s, m, Local(None, Idle))
  }

  ghost predicate Crashes(s: State, t: State, m: Manager)
  {
    m in s.managers && t == Move(s, m, Local(None, Idle))
  }

  /** InitClusterView, Load, or an update of the loaded view begins. */
  ghost predicate Begins(s: State, t: State, m: Manager)
  {
    && m in s.managers && s.managers[m].phase.Idle?
    && var l := s.managers[m];
       || t == Move(s, m, l.(phase := AtCreate))
       || t == Move(s, m, l.(phase := AtLatest))
       || (l.mem.Some? && exists op :: t == Move(s, m, l.(phase := AtUpdate(op))))
  }

  /** A request fails without effect, or its effect is no longer of interest. */
  ghost predicate Fails(s: State, t: State, m: Manager)
  {
    m in s.managers && t == Move(s, m, s.managers[m].(phase := Idle))
  }

  function Created(s: State): State
  {
    s.(latest := Some(0), views := s.views[0 := Initial])
  }

  /** CreateClusterView; the response may be lost. */
  ghost predicate Creates(s: State, t: State, m: Manager)
  {
    && m in s.managers && s.managers[m].phase.AtCreate?
    && s.latest.None? && 0 !in s.views
    && (t == Move(Created(s), m, s.managers[m].(phase := AtLatest))
        || t == Move(Created(s), m, s.managers[m].(phase := Idle)))
  }

  function Updated(s: State, op: Op, w: View): State
  {
    s.(latest := Some(w.version), views := s.views[w.version := w], log := s.log + [op])
  }

  /** UpdateClusterView of the storage: the comparison is with the version in memory. */
  ghost predicate Updates(s: State, t: State, m: Manager)
  {
    && m in s.managers && s.managers[m].phase.AtUpdate? && s.managers[m].mem.Some?
    && var l := s.managers[m];
       var w := Apply(l.phase.op, l.mem.value.view);
       && s.latest == Some(l.mem.value.view.version)
       && (t == Move(Updated(s, l.phase.op, w), m, l.(phase := AtLatest))
           || t == Move(Updated(s, l.phase.op, w), m, l.(phase := Idle)))
  }

  /** The first request of GetClusterView. */
  ghost predicate ReadsLatest(s: State, t: State, m: Manager)
  {
    && m in s.managers && s.managers[m].phase.AtLatest? && s.latest.Some?
    && t == Move(s, m, s.managers[m].(phase := AtView(s.latest.value)))
  }

  /** Its second request, and the rebuilding of the memory. */
  ghost predicate ReadsView(s: State, t: State, m: Manager)
  {
    && m in s.managers && s.managers[m].phase.AtView? && s.managers[m].phase.version in s.views
    && t == Move(s, m, Local(Some(Indexed(s.views[s.managers[m].phase.version])), Idle))
  }

  ghost predicate StepOf(s: State, t: State, m: Manager)
  {
    || Joins(s, t, m) || Crashes(s, t, m) || Begins(s, t, m) || Fails(s, t, m)
    || Creates(s, t, m) || Updates(s, t, m) || ReadsLatest(s, t, m) || ReadsView(s, t, m)
  }

  ghost predicate Next(s: State, t: State) { exists m :: StepOf(s, t, m) }

  ghost predicate Start(s: State) { s == State(None, map[], [], map[]) }

  // ----- what every step keeps -----

  /** The stored versions are exactly 0 up to the latest, and version k is the fold of the first k
      committed operations. */
  ghost predicate StoreOk(s: State)
  {
    && (s.latest.None? ==> s.views == map[] && s.log == [])
    && (s.latest.Some? ==> s.latest.value == |s.log|)
    && (s.latest.Some? ==> forall k :: k in s.views <==> 0 <= k <= |s.log|)
    && (forall k :: k in s.views ==> k <= |s.log| && s.views[k] == Fold(s.log[..k]))
  }

  /** What is in memory, or on its way there, is a committed version with its indexes, and loading
      never goes back. */
  ghost predicate LocalOk(s: State, l: Local)
  {
    && (l.mem.Some? ==> MemVersion(l) in s.views && l.mem.value == Indexed(s.views[MemVersion(l)]))
    && (l.phase.AtView? ==> l.phase.version in s.views && MemVersion(l) <= l.phase.version)
    && (l.phase.AtUpdate? ==> l.mem.Some?)
  }

  ghost predicate Inv(s: State)
  {
    StoreOk(s) && forall m :: m in s.managers ==> LocalOk(s, s.managers[m])
  }

  /** Stored versions are never changed or removed. */
  ghost predicate Extends(s: State, t: State)
  {
    && (forall k :: k in s.views ==> k in t.views && t.views[k] == s.views[k])
    && (s.latest.Some? ==> t.latest.Some? && t.latest.value >= s.latest.value)
  }

  lemma LocalsSurvive(s: State, t: State, m: Manager, l: Local)
    requires Inv(s) && StoreOk(t) && Extends(s, t) && t.managers == s.managers[m := l] && LocalOk(t, l)
    ensures Inv(t)
  {
    forall d | d in t.managers ensures LocalOk(t, t.managers[d]) {
      if d != m { assert LocalOk(s, s.managers[d]); }
    }
  }

  /** The version a commit writes is the fold of the longer log. */
  lemma CommittedIsFold(s: State, op: Op, w: View)
    requires StoreOk(s) && s.latest.Some? && w == Apply(op, s.views[s.latest.value])
    ensures w.version == |s.log| + 1 && w == Fold((s.log + [op])[..|s.log| + 1])
  {
    TakeAll(s.log);
    TakeAll(s.log + [op]);
    TakeMore(s.log, op, |s.log|);
    assert s.views[|s.log|] == Fold(s.log);
  }

  /** A commit: the new version is the operation applied to the latest one, under a key that was free. */
  lemma UpdateKeeps(s: State, op: Op, w: View)
    requires StoreOk(s) && s.latest.Some? && w == Apply(op, s.views[s.latest.value])
    ensures w.version !in s.views
    ensures StoreOk(Updated(s, op, w)) && Extends(s, Updated(s, op, w))
  {
    CommittedIsFold(s, op, w);
    StoreGrows(s, op, w);
  }

  lemma StoreGrows(s: State, op: Op, w: View)
    requires StoreOk(s) && s.latest.Some? && w.version == |s.log| + 1 && w == Fold((s.log + [op])[..|s.log| + 1])
    ensures StoreOk(Updated(s, op, w))
  {
    EarlierFolds(s, op);
  }

  /** The versions before stay folds of their operations. */
  lemma EarlierFolds(s: State, op: Op)
    requires StoreOk(s)
    ensures forall k :: k in s.views ==> k <= |s.log| && s.views[k] == Fold((s.log + [op])[..k])
  {
    forall k | k in s.views ensures k <= |s.log| && s.views[k] == Fold((s.log + [op])[..k]) { TakeMore(s.log, op, k); }
  }

  /** The stored keys are untouched. */
  ghost predicate Reading(s: State, t: State)
  {
    t == s.(managers := t.managers)
  }

  lemma ReadingKeeps(s: State, t: State, m: Manager)
    requires Inv(s) && StepOf(s, t, m) && Reading(s, t)
    ensures Inv(t)
  {
    if m in s.managers { assert LocalOk(s, s.managers[m]); }
    LocalsSurvive(s, t, m, t.managers[m]);
  }

  lemma WritingKeeps(s: State, t: State, m: Manager)
    requires Inv(s) && (Creates(s, t, m) || Updates(s, t, m))
    ensures Inv(t) && Extends(s, t)
  {
    var l := s.managers[m];
    assert LocalOk(s, l);
    if Updates(s, t, m) { UpdateKeeps(s, l.phase.op, Apply(l.phase.op, l.mem.value.view)); }
    LocalsSurvive(s, t, m, t.managers[m]);
  }

  lemma StepKeeps(s: State, t: State, m: Manager)
    requires Inv(s) && StepOf(s, t, m)
    ensures Inv(t) && Extends(s, t)
  {
    if Creates(s, t, m) || Updates(s, t, m) { WritingKeeps(s, t, m); }
    else { ReadingKeeps(s, t, m); }
  }

  ghost predicate Grows(s: State, t: State)
  {
    Extends(s, t) && s.log <= t.log && |t.log| <= |s.log| + 1
  }

  /** Serializability: in every state of every run the stored versions are 0 up to the latest, version k is
      the fold of the first k committed operations, and every manager's view and indexes are those of a
      committed version. */
  lemma Serializable(run: seq<State>)
    requires IsRun(Next, run) && Start(run[0])
    ensures forall i :: 0 <= i < |run| ==> Inv(run[i])
    ensures forall i :: 0 <= i < |run| && run[i].latest.Some? ==>
      |run[i].log| in run[i].views && run[i].views[|run[i].log|] == Fold(run[i].log)
  {
    forall s, t | Inv(s) && Next(s, t) ensures Inv(t) {
      var m :| StepOf(s, t, m);
      StepKeeps(s, t, m);
    }
    HoldsThroughout(Next, Inv, run);
    forall i | 0 <= i < |run| && run[i].latest.Some?
      ensures |run[i].log| in run[i].views && run[i].views[|run[i].log|] == Fold(run[i].log)
    {
      var log := run[i].log;
      assert Inv(run[i]) && log[..|log|] == log;
    }
  }

  lemma OneCommitAtATime(s: State, t: State, m: Manager)
    requires StepOf(s, t, m)
    ensures s.log <= t.log && |t.log| <= |s.log| + 1
  {}

  lemma StepGrows(s: State, t: State)
    requires Inv(s) && Next(s, t)
    ensures Grows(s, t)
  {
    var m :| StepOf(s, t, m);
    StepKeeps(s, t, m);
    OneCommitAtATime(s, t, m);
  }

  lemma ExtendsTransitive(s: State, t: State, u: State)
    requires Extends(s, t) && Extends(t, u)
    ensures Extends(s, u)
  {
  }

  lemma ExtendsSelf(s: State)
    ensures Extends(s, s)
  {
  }

  lemma {:induction false} WrittenOnceFrom(run: seq<State>, i: nat, j: nat)
    requires IsRun(Next, run) && i <= j < |run| && forall k :: 0 <= k < |run| ==> Inv(run[k])
    ensures Extends(run[i], run[j])
    decreases j - i
  {
    if i < j {
      var k := j - 1;
      WrittenOnceFrom(run, i, k);
      StepGrows(run[k], run[j]);
      ExtendsTransitive(run[i], run[k], run[j]);
    } else {
      ExtendsSelf(run[i]);
    }
  }

  /** Every version is written once: whatever a state stores, every later state stores unchanged, and the
      latest version moves up by at most one per step, together with the log. */
  lemma VersionsWrittenOnce(run: seq<State>, i: nat, j: nat)
    requires IsRun(Next, run) && Start(run[0]) && i <= j < |run|
    ensures Extends(run[i], run[j])
    ensures i + 1 == j ==> Grows(run[i], run[j])
  {
    Serializable(run);
    WrittenOnceFrom(run, i, j);
    if i + 1 == j { StepGrows(run[i], run[j]); }
  }

  lemma ReachKeeps(s: State, t: State)
    requires Inv(s) && Reaches(Next, s, t)
    ensures Inv(t) && Extends(s, t) && s.log <= t.log
  {
    var run: seq<State> :| IsRun(Next, run) && run[0] == s && run[|run| - 1] == t;
    var inv := (u: State) => Inv(u) && Extends(s, u) && s.log <= u.log;
    forall u, v | inv(u) && Next(u, v) ensures inv(v) {
      StepGrows(u, v);
      StepInv(u, v);
      ExtendsTransitive(s, u, v);
    }
    ExtendsSelf(s);
    HoldsThroughout(Next, inv, run);
    assert inv(run[|run| - 1]);
  }

  lemma StepInv(s: State, t: State)
    requires Inv(s) && Next(s, t)
    ensures Inv(t)
  {
    var m :| StepOf(s, t, m);
    StepKeeps(s, t, m);
  }

  lemma OnlyItsOwn(s: State, t: State, m: Manager, d: Manager)
    requires StepOf(s, t, m) && d != m && d in s.managers
    ensures d in t.managers && t.managers[d] == s.managers[d]
  {}

  lemma MemKept(s: State, t: State, m: Manager)
    requires StepOf(s, t, m) && m in s.managers && !Crashes(s, t, m) && !ReadsView(s, t, m)
    ensures m in t.managers && t.managers[m].mem == s.managers[m].mem
  {
  }

  lemma ReadGoesForward(s: State, t: State, m: Manager)
    requires Inv(s) && ReadsView(s, t, m)
    ensures m in t.managers && MemVersion(s.managers[m]) <= MemVersion(t.managers[m])
  {
    var l := s.managers[m];
    assert LocalOk(s, l);
    assert t.managers[m].mem != l.mem ==>
      MemVersion(t.managers[m]) == s.views[l.phase.version].version == l.phase.version;
  }

  /** Apart from a crash, no step takes a manager's memory to an older version. */
  lemma MemoryNeverGoesBack(s: State, t: State, m: Manager, d: Manager)
    requires Inv(s) && StepOf(s, t, m) && d in s.managers && !Crashes(s, t, d)
    ensures d in t.managers && MemVersion(s.managers[d]) <= MemVersion(t.managers[d])
  {
    if d != m {
      OnlyItsOwn(s, t, m, d);
    } else if ReadsView(s, t, m) {
      ReadGoesForward(s, t, m);
    } else {
      MemKept(s, t, m);
    }
  }

  // ----- the manager's own code -----

  ghost predicate OtherNext(s: State, t: State, me: Manager)
  {
    exists m :: m != me && StepOf(s, t, m)
  }

  /** Steps of the others are steps of the system that leave a manager alone. */
  lemma OthersLeave(s: State, t: State, me: Manager)
    requires me in s.managers && Reaches((u: State, v: State) => OtherNext(u, v, me), s, t)
    ensures Reaches(Next, s, t) && me in t.managers && t.managers[me] == s.managers[me]
    ensures Inv(s) ==> Inv(t) && Extends(s, t) && s.log <= t.log
  {
    var next := (u: State, v: State) => OtherNext(u, v, me);
    var run: seq<State> :| IsRun(next, run) && run[0] == s && run[|run| - 1] == t;
    var inv := (u: State) => me in u.managers && u.managers[me] == s.managers[me];
    HoldsThroughout(next, inv, run);
    assert inv(run[|run| - 1]);
    OthersAreSteps(run, me);
    if Inv(s) { ReachKeeps(s, t); }
  }

  lemma OthersAreSteps(run: seq<State>, me: Manager)
    requires IsRun((u: State, v: State) => OtherNext(u, v, me), run)
    ensures IsRun(Next, run)
  {
    forall i | 0 < i < |run| ensures Next(run[i - 1], run[i]) {
      assert OtherNext(run[i - 1], run[i], me);
    }
  }

  /** The version after a committed operation, once the version before is known. */
  lemma CommittedView(s: State, before: View, op: Op)
    requires Inv(s) && before.version < |s.log| && s.log[before.version] == op
    requires before.version in s.views && s.views[before.version] == before
    ensures before.version + 1 in s.views && s.views[before.version + 1] == Apply(op, before)
  {
    var v := before.version;
    var longer := s.log[..v + 1];
    assert longer[..v] == s.log[..v] && longer[v] == op;
    assert s.views[v] == Fold(s.log[..v]);
  }

  /** After an update request. */
  ghost function Committed(s: State, me: Manager, l: Local, view: View, writes: bool, ok: bool): State
    requires l.phase.AtUpdate?
  {
    var next := if writes then Updated(s, l.phase.op, view) else s;
    Move(next, me, l.(phase := if ok then AtLatest else Idle))
  }

  /** The step of an update request. */
  lemma CommitStep(start: State, s: State, me: Manager, l: Local, view: View, writes: bool, ok: bool, after: State)
    requires Reaches(Next, start, s) && Inv(s) && me in s.managers
    requires s.managers[me] == l && l.phase.AtUpdate? && l.mem.Some?
    requires view == Apply(l.phase.op, l.mem.value.view) && (ok ==> writes)
    requires writes ==> s.latest == Some(l.mem.value.view.version)
    requires after == Committed(s, me, l, view, writes, ok)
    ensures Reaches(Next, start, after) && Inv(after)
    ensures ok ==> |after.log| == l.mem.value.view.version + 1 && after.log[l.mem.value.view.version] == l.phase.op
  {
    assert StepOf(s, after, me);
    ReachesStep(Next, start, s, after);
    StepKeeps(s, after, me);
  }

  /** The cluster-view keys in etcd. Before a request takes effect, others run as they please. */
  class Storage {
    var latest: Option<nat>
    var views: map<nat, View>
    ghost var sys: State
    /** How many requests failed, lost their response, or did not find what they asked for. */
    ghost var misses: nat

    ghost predicate Valid()
      reads this
    {
      sys.latest == latest && sys.views == views && Inv(sys)
    }

    ghost predicate At(me: Manager, l: Local)
      reads this
    {
      Valid() && me in sys.managers && sys.managers[me] == l
    }

    method Others(ghost me: Manager)
      requires Valid() && me in sys.managers
      modifies this
      ensures Valid() && Reaches((u: State, v: State) => OtherNext(u, v, me), old(sys), sys) && misses == old(misses)
    {
      ReachesSelf((u: State, v: State) => OtherNext(u, v, me), sys);
    }

    /** CreateClusterView: on success no view was there, and version 0 has just been written; false stands for a
        failed comparison or an error. */
    method CreateClusterView(ghost me: Manager, ghost l: Local) returns (ok: bool)
      requires At(me, l) && l.phase.AtCreate?
      modifies this
      ensures At(me, l.(phase := if ok then AtLatest else Idle)) && Reaches(Next, old(sys), sys)
      ensures ok ==> old(latest).None? && latest == Some(0) && views == map[0 := Initial] && sys.log == []
      ensures old(latest).Some? ==> !ok
      ensures misses == old(misses) + if ok then 0 else 1
    {
      ghost var start := sys;
      Others(me);
      OthersLeave(start, sys, me);
      var reaches, answers := *, *;
      var writes := reaches && latest.None? && 0 !in views;
      ok := writes && answers;
      ghost var after := Move(if writes then Created(sys) else sys, me, l.(phase := if ok then AtLatest else Idle));
      assert StepOf(sys, after, me);
      ReachesStep(Next, start, sys, after);
      StepKeeps(sys, after, me);
      if writes { latest, views := Some(0), views[0 := Initial]; }
      sys, misses := after, misses + if ok then 0 else 1;
    }

    /** UpdateClusterView: the new view and latest version are written if the latest version is the given one. */
    method UpdateClusterView(ghost me: Manager, ghost l: Local, view: View, latestVersion: nat) returns (ok: bool)
      requires At(me, l) && l.phase.AtUpdate? && l.mem.Some?
      requires latestVersion == l.mem.value.view.version && view == Apply(l.phase.op, l.mem.value.view)
      modifies this
      ensures At(me, l.(phase := if ok then AtLatest else Idle)) && Reaches(Next, old(sys), sys)
      ensures ok ==> |sys.log| == latestVersion + 1 && sys.log[latestVersion] == l.phase.op
      ensures misses == old(misses) + if ok then 0 else 1
    {
      ghost var start := sys;
      Others(me);
      OthersLeave(start, sys, me);
      ok := UpdateNow(me, l, view, latestVersion, start);
    }

    method UpdateNow(ghost me: Manager, ghost l: Local, view: View, latestVersion: nat, ghost start: State)
      returns (ok: bool)
      requires At(me, l) && l.phase.AtUpdate? && l.mem.Some? && Reaches(Next, start, sys)
      requires latestVersion == l.mem.value.view.version && view == Apply(l.phase.op, l.mem.value.view)
      modifies this
      ensures At(me, l.(phase := if ok then AtLatest else Idle)) && Reaches(Next, start, sys)
      ensures ok ==> |sys.log| == latestVersion + 1 && sys.log[latestVersion] == l.phase.op
      ensures misses == old(misses) + if ok then 0 else 1
    {
      var reaches, answers := *, *;
      var writes := reaches && latest == Some(latestVersion);
      ok := writes && answers;
      ghost var after := Committed(sys, me, l, view, writes, ok);
      CommitStep(start, sys, me, l, view, writes, ok, after);
      if writes { latest, views := Some(view.version), views[view.version := view]; }
      sys, misses := after, misses + if ok then 0 else 1;
    }

    /** The first Get of GetClusterView; None stands for a missing key or an error. */
    method GetLatestVersion(ghost me: Manager, ghost l: Local) returns (r: Option<nat>)
      requires At(me, l) && l.phase.AtLatest?
      modifies this
      ensures At(me, l.(phase := if r.Some? then AtView(r.value) else Idle)) && Reaches(Next, old(sys), sys)
      ensures r.Some? ==> r.value >= |old(sys).log|
      ensures misses == old(misses) + if r.Some? then 0 else 1
    {
      ghost var start := sys;
      Others(me);
      OthersLeave(start, sys, me);
      var answers := *;
      r := if answers then latest else None;
      ghost var after := Move(sys, me, l.(phase := if r.Some? then AtView(r.value) else Idle));
      assert StepOf(sys, after, me);
      ReachesStep(Next, start, sys, after);
      StepKeeps(sys, after, me);
      sys, misses := after, misses + if r.Some? then 0 else 1;
    }

    /** The second Get; the protocol takes the answer into memory in the same step. */
    method GetView(ghost me: Manager, ghost l: Local, version: nat) returns (r: Option<View>)
      requires At(me, l) && l.phase == AtView(version)
      modifies this
      ensures At(me, if r.Some? then Local(Some(Indexed(r.value)), Idle) else l.(phase := Idle))
      ensures Reaches(Next, old(sys), sys)
      ensures r.Some? ==> r.value.version == version
      ensures misses == old(misses) + if r.Some? then 0 else 1
    {
      ghost var start := sys;
      Others(me);
      OthersLeave(start, sys, me);
      var answers := *;
      r := if answers && version in views then Some(views[version]) else None;
      ghost var after := Move(sys, me, if r.Some? then Local(Some(Indexed(r.value)), Idle) else l.(phase := Idle));
      assert StepOf(sys, after, me);
      ReachesStep(Next, start, sys, after);
      StepKeeps(sys, after, me);
      sys, misses := after, misses + if r.Some? then 0 else 1;
    }
  }
}
