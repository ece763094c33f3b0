/**
 Leaving the group: when a redundant worker is let go, and that over whole runs it never goes without its cache being
 moved.
 */
module LeaveRuns {
  import opened Wrappers
  import opened Kube
  import opened Worker
  import opened Rebalance
  import opened Text
  import opened MountOptions
  import opened Builder
  import opened Update
  import opened Lifecycle
  import opened SyncTheorems
  import opened Runs
  import opened Rollout

  // ---------- one decision ----------

  /** A sample that shows a leaving worker idle: its own process, fresh, taken after the leave began, slow. */
  predicate IdleSample(p: Pod, stats: Stats, current: Stats, leftAt: Time, now: Time) {
    && p.ready
    && SameWorkerProcess(stats.startTime, current.startTime)
    && stats.lastSampleTime.Some? && stats.transferBytes.Some? && stats.transferRate.Some?
    && now - MINUTE * 2 <= stats.lastSampleTime.value
    && leftAt <= stats.lastSampleTime.value
    && stats.transferRate.value < IDLE_RATE
    && (stats.transferBytes.value != 0
        || (stats.lastSampleTime.value - stats.startTime.value >= MINUTE
            && stats.lastSampleTime.value - stats.startTime.value >= RebalanceDelay(p) + MINUTE))
  }

  predicate EmptyCache(current: Stats) {
    current.cacheBytes.None? || current.cacheBytes.value <= 0
  }

  /**
   A leaving worker is let go exactly past its timeout, or when it answers and is empty or idle. Before its timeout, one
   that is mounted but whose counters cannot be read ends the reconcile in an error; any other stays.
   */
  lemma LeavingReleasedExactly(g: Group, status: Status, p: Pod, stats: Stats, r: Response, now: Time)
    requires Leaving(p)
    ensures ShutdownOf(g, status, p, stats, r, now) == Release <==>
              || now > p.annotations.waitingAt.value + WaitingMax(g)
              || (p.ready && r.mounted && r.currentStats.Some?
                  && (EmptyCache(r.currentStats.value)
                      || IdleSample(p, stats, r.currentStats.value, p.annotations.waitingAt.value, now)))
    ensures ShutdownOf(g, status, p, stats, r, now) == Fail <==>
              && now <= p.annotations.waitingAt.value + WaitingMax(g)
              && p.ready && r.mounted && r.currentStats.None?
    ensures ShutdownOf(g, status, p, stats, r, now) != Enter
  {
  }

  // ---------- one reconcile ----------

  /** The worker of the name is no longer expected, by name or by node. */
  predicate Unexpected(e: Event, p: Pod) {
    p.name !in ExpectedNames(e.g, e.expected.Keys) && (if e.g.replicas then p.name else p.nodeName) !in e.expected
  }

  /** What the reconcile decides for a pod of its listing. */
  function DecisionFor(e: Event, w: World, p: Pod): Shutdown {
    var st := FirstStatus(e, w.status);
    ShutdownOf(e.g, st, p, RecordOf(st.stats, p.name), e.api(p.name), e.clock.during)
  }

  /** A worker that is ready, mounted and answers that it holds cache. */
  predicate Holds(e: Event, p: Pod) {
    && p.ready && e.api(p.name).mounted
    && e.api(p.name).currentStats.Some? && !EmptyCache(e.api(p.name).currentStats.value)
  }

  /**
   A worker that has not entered the leave is let go exactly when the group expects nobody, no second worker of the
   listing is ready, or the worker does not answer or is empty. It enters the leave exactly when the group expects
   somebody, two workers are ready and it holds cache. It ends the reconcile in an error when its counters cannot be
   read instead.
   */
  lemma StayingReleasedExactly(e: Event, w: World, p: Pod)
    requires !Leaving(p)
    ensures var r := e.api(p.name);
      DecisionFor(e, w, p) == Release <==>
        || e.expected == map[] || TallyOf(e.listing).ready <= 1
        || !p.ready || !r.mounted || (r.currentStats.Some? && EmptyCache(r.currentStats.value))
    ensures DecisionFor(e, w, p) == Enter <==>
        e.expected != map[] && TallyOf(e.listing).ready >= 2 && Holds(e, p)
    ensures DecisionFor(e, w, p) == Fail <==>
        && e.expected != map[] && TallyOf(e.listing).ready >= 2
        && p.ready && e.api(p.name).mounted && e.api(p.name).currentStats.None?
  {
    hide TallyOf, Recompute, ExpectedNames;
    assert e.expected == map[] <==> e.expected.Keys == {};
  }

  lemma NameIsExpected(g: Group, nodes: set<string>, node: string)
    requires node in nodes
    ensures PodName(g, node) in ExpectedNames(g, nodes)
  {
  }

  /** A reconcile leaves an unexpected worker alone or shuts it down as decided; nothing else happens to it. */
  lemma UnexpectedAt(e: Event, w: World, name: string)
    requires IsOrder(e.order, e.expected) && IsListing(e.listing, w.pods) && name in w.pods
    requires Unexpected(e, w.pods[name])
    ensures var p := w.pods[name];
      var after := At(HandledPods(e, w.pods, w.status).0, name);
      after == Some(p) || after == ShutdownResult(p, DecisionFor(e, w, p), e.api(name), e.clock.during)
  {
    var p := w.pods[name];
    var st := FirstStatus(e, w.status);
    var synced := SyncedPods(e, w.pods, w.status);
    var node, t := SyncedAt(e, w.pods, w.status, name);
    assert At(synced.0, name) == Some(p) by {
      if node in e.expected {
        NameIsExpected(e.g, e.expected.Keys, node);
      }
    }
    hide SyncedPods, FirstStatus, RemoveAll, RemoveOne, Redundant, ShutdownOf, ShutdownResult;
    if !synced.1 {
      RemovedAt(synced.0, e.g, st, e.expected.Keys, e.listing, e.api, e.clock.during, name);
      if At(HandledPods(e, w.pods, w.status).0, name) != At(synced.0, name) {
        var q :| q in e.listing && q.name == name && Redundant(e.g, e.expected.Keys, q)
          && At(HandledPods(e, w.pods, w.status).0, name)
             == At(RemoveOne(synced.0, e.g, st, e.expected.Keys, q, e.api(name), e.clock.during).0, name);
        assert q == p;
        RemoveOneIs(synced.0, e.g, st, e.expected.Keys, p, e.api(name), e.clock.during);
      }
    }
  }

  /** The pod of a name is there and not being deleted. */
  predicate Lives(w: World, name: string) {
    name in w.pods && !w.pods[name].deleting
  }

  /** Entering the leave by deleting and recreating the pod can lose it when a call fails in between. */
  predicate LosesPod(e: Event, w: World, p: Pod) {
    && DecisionFor(e, w, p) == Enter
    && !(p.annotations.v2 && e.api(p.name).smoothOk)
    && (e.api(p.name).recreation.StuckDeleting? || e.api(p.name).recreation.CreateFailed?)
  }

  /** The handling of an unexpected worker that lives: its leave time, once set, never changes. */
  lemma UnexpectedHandled(e: Event, w: World, name: string)
    requires Fair(e, w) && Lives(w, name) && Unexpected(e, w.pods[name])
    ensures var p, handled := w.pods[name], HandledWorld(e, w);
      && (Lives(handled, name) && Leaving(p) ==>
            handled.pods[name].annotations.waitingAt == p.annotations.waitingAt)
      && (Lives(handled, name) && !Leaving(p) && Leaving(handled.pods[name]) ==>
            && DecisionFor(e, w, p) == Enter
            && handled.pods[name].annotations.waitingAt == Some(Rfc3339(e.clock.during)))
      && (!Lives(handled, name) ==> DecisionFor(e, w, p) == Release || LosesPod(e, w, p))
  {
    var p, handled := w.pods[name], HandledWorld(e, w);
    UnexpectedAt(e, w, name);
    if Leaving(p) {
      LeavingNotEntered(e, w, p);
    }
    ShutdownResultIs(p, DecisionFor(e, w, p), e.api(name), e.clock.during);
    ShutdownLosesExactly(p, DecisionFor(e, w, p), e.api(name), e.clock.during);
    hide DecisionFor, HandledPods, ShutdownResult, Unexpected, FinalStatus, IsOrder, IsListing;
    assert At(handled.pods, name).Some? <==>
        Lives(handled, name) || (name in handled.pods && handled.pods[name].deleting);
  }

  /** What a reconcile can do to an unexpected worker that lives: its leave time, once set, never changes. */
  lemma UnexpectedStep(e: Event, w: World, w': World, name: string)
    requires StepTo(w, Reconciled(e), w') && Lives(w, name) && Unexpected(e, w.pods[name])
    ensures var p := w.pods[name];
      && (Lives(w', name) && Leaving(p) ==> w'.pods[name].annotations.waitingAt == p.annotations.waitingAt)
      && (Lives(w', name) && !Leaving(p) && Leaving(w'.pods[name]) ==>
            && DecisionFor(e, w, p) == Enter
            && w'.pods[name].annotations.waitingAt == Some(Rfc3339(e.clock.during)))
      && (!Lives(HandledWorld(e, w), name) ==>
            && !Lives(w', name)
            && (DecisionFor(e, w, p) == Release || LosesPod(e, w, p)))
  {
    UnexpectedHandled(e, w, name);
    if !Lives(HandledWorld(e, w), name) {
      GoneStaysGone(e, w, w', name);
    }
    hide HandledPods, DecisionFor, LosesPod, Unexpected, FinalStatus;
    if name in w'.pods {
      assert Drifts(HandledWorld(e, w).pods[name], w'.pods[name]);
    }
  }

  // ---------- which workers a reconcile gets to ----------

  /** No planned update fails, and the removal stops at no worker listed before the one of the name. */
  ghost predicate Reached(e: Event, w: World, name: string)
    requires IsOrder(e.order, e.expected)
  {
    && !SomeTaskFails(e.g.strategy.OnDelete?, Plan(InputOf(e, w.status), e.order).0, e.api)
    && forall m :: 0 <= m < |e.listing| && e.listing[m].name == name ==> ReachesPlace(e, w, m)
  }

  predicate ReachesPlace(e: Event, w: World, m: nat)
    requires m <= |e.listing|
  {
    Reaches(e.g, FirstStatus(e, w.status), e.expected.Keys, e.listing, e.api, e.clock.during, m)
  }

  /** The reconcile ends in an error exactly when a planned update fails or the removal stops at some worker. */
  lemma ReconcileFailsExactly(e: Event, w: World)
    requires Fair(e, w)
    ensures HandledPods(e, w.pods, w.status).1 <==>
      || SomeTaskFails(e.g.strategy.OnDelete?, Plan(InputOf(e, w.status), e.order).0, e.api)
      || !ReachesPlace(e, w, |e.listing|)
  {
    var tasks := Plan(InputOf(e, w.status), e.order).0;
    RunTasksFail(w.pods, e.g.strategy.OnDelete?, tasks, e.api);
    hide Plan, RunTasks, FirstStatus, RemoveAll, Reaches, SomeTaskFails;
    var synced := SyncedPods(e, w.pods, w.status);
    if !synced.1 {
      RemovalFails(synced.0, e.g, FirstStatus(e, w.status), e.expected.Keys, e.listing, e.api, e.clock.during);
    }
  }

  /** The sync leaves an unexpected worker alone. */
  lemma SyncSpares(e: Event, w: World, name: string)
    requires Fair(e, w) && name in w.pods && Unexpected(e, w.pods[name])
    ensures At(SyncedPods(e, w.pods, w.status).0, name) == Some(w.pods[name])
  {
    var node, t := SyncedAt(e, w.pods, w.status, name);
    if node in e.expected {
      NameIsExpected(e.g, e.expected.Keys, node);
    }
  }

  /** An unexpected, redundant worker is shut down as decided exactly when the reconcile gets to it. */
  lemma UnexpectedExactly(e: Event, w: World, name: string)
    requires Fair(e, w) && name in w.pods
    requires Unexpected(e, w.pods[name]) && Redundant(e.g, e.expected.Keys, w.pods[name])
    ensures var p := w.pods[name];
      At(HandledWorld(e, w).pods, name)
      == if Reached(e, w, name) then ShutdownResult(p, DecisionFor(e, w, p), e.api(name), e.clock.during) else Some(p)
  {
    var p := w.pods[name];
    var st := FirstStatus(e, w.status);
    var synced := SyncedPods(e, w.pods, w.status);
    var tasks := Plan(InputOf(e, w.status), e.order).0;
    SyncSpares(e, w, name);
    RunTasksFail(w.pods, e.g.strategy.OnDelete?, tasks, e.api);
    hide Plan, RunTasks, FirstStatus, RemoveAll, Reaches, SomeTaskFails, Redundant, ShutdownOf, ShutdownResult,
      Unexpected;
    var m :| 0 <= m < |e.listing| && e.listing[m] == p;
    assert Reached(e, w, name) <==> !synced.1 && ReachesPlace(e, w, m);
    if !synced.1 {
      RemovedExactly(synced.0, e.g, st, e.expected.Keys, e.listing, e.api, e.clock.during, m);
    }
  }

  /**
   One reconcile loses an unexpected, redundant worker exactly when it gets to it, and either lets it go with its
   deletion accepted, or loses it on entering the leave.
   */
  lemma GoesExactly(e: Event, w: World, name: string)
    requires Fair(e, w) && name in w.pods
    requires Unexpected(e, w.pods[name]) && Redundant(e.g, e.expected.Keys, w.pods[name])
    ensures var p := w.pods[name];
      !Lives(HandledWorld(e, w), name) <==>
        && Reached(e, w, name)
        && (|| (DecisionFor(e, w, p) == Release && !e.api(name).deletion.Refused?)
            || LosesPod(e, w, p))
  {
    var p := w.pods[name];
    UnexpectedExactly(e, w, name);
    ShutdownLosesExactly(p, DecisionFor(e, w, p), e.api(name), e.clock.during);
    hide HandledPods, Unexpected, Reached, DecisionFor, ShutdownResult, FirstStatus;
    assert Lives(HandledWorld(e, w), name) <==>
      At(HandledWorld(e, w).pods, name).Some? && !At(HandledWorld(e, w).pods, name).value.deleting;
  }

  /** A leaving worker past its timeout goes exactly when the reconcile gets to it and its deletion is accepted. */
  lemma TimeoutLetsGo(e: Event, w: World, name: string)
    requires Fair(e, w) && name in w.pods
    requires Unexpected(e, w.pods[name]) && Redundant(e.g, e.expected.Keys, w.pods[name])
    requires var p := w.pods[name];
      Leaving(p) && e.clock.during > p.annotations.waitingAt.value + WaitingMax(e.g)
    ensures !Lives(HandledWorld(e, w), name) <==> Reached(e, w, name) && !e.api(name).deletion.Refused?
  {
    GoesExactly(e, w, name);
    hide HandledPods, Unexpected, Redundant, Reached, FirstStatus;
  }

  // ---------- a group that expects nobody ----------

  /**
   When a group expects nobody, the ready workers count as none: each worker that has not entered the leave goes at
   once, however much cache it holds and however many are ready, exactly when the reconcile gets to it and its deletion
   is accepted.
   */
  lemma NobodyExpectedLetsGo(e: Event, w: World, name: string)
    requires Fair(e, w) && e.expected == map[] && name in w.pods
    requires !Leaving(w.pods[name]) && Redundant(e.g, {}, w.pods[name])
    ensures DecisionFor(e, w, w.pods[name]) == Release
    ensures !Lives(HandledWorld(e, w), name) <==> Reached(e, w, name) && !e.api(name).deletion.Refused?
  {
    StayingReleasedExactly(e, w, w.pods[name]);
    assert e.expected.Keys == {};
    hide HandledPods, Redundant, Reached, DecisionFor;
    GoesExactly(e, w, name);
  }

  /** When the deletions and cleanings succeed, such a reconcile gets to everybody. */
  lemma NobodyStops(e: Event, w: World)
    requires Fair(e, w) && e.expected == map[]
    requires forall p :: p in e.listing ==> !Leaving(p) && !e.api(p.name).deletion.Refused? && e.api(p.name).cleanOk
    ensures forall name :: Reached(e, w, name)
  {
    assert e.expected.Keys == {};
    assert e.order == [] by {
      if e.order != [] {
        FirstNode(e.order);
      }
    }
    forall k | 0 <= k < |e.listing|
      ensures !StopsAt(e.g, FirstStatus(e, w.status), {}, e.listing[k], e.api(e.listing[k].name), e.clock.during)
    {
      assert e.listing[k] in e.listing;
    }
  }

  lemma FirstNode(order: seq<string>)
    requires order != []
    ensures exists node :: node in order
  {
    assert order[0] in order;
  }

  lemma AllGoAtZero(e: Event, w: World)
    requires Fair(e, w) && e.expected == map[]
    requires forall p :: p in e.listing ==>
      !Leaving(p) && Redundant(e.g, {}, p) && !e.api(p.name).deletion.Refused? && e.api(p.name).cleanOk
    ensures forall name :: name in w.pods ==> !Lives(HandledWorld(e, w), name)
  {
    NobodyStops(e, w);
    hide HandledPods, Reached, Redundant;
    forall name | name in w.pods ensures !Lives(HandledWorld(e, w), name) {
      NobodyExpectedLetsGo(e, w, name);
    }
  }

  /** A ready worker of a group without a node, not joining and not leaving. */
  function ReadyWorker(name: string): Pod {
    Pod(name, "n" + name, NoTag, "", None, Annotations(None, None, None, false, "", map[]), true, false, PodRunning)
  }

  lemma ThreeReady(a: Pod, b: Pod, c: Pod)
    requires a.ready && b.ready && c.ready && a.name == "a" && b.name == "b" && c.name == "c"
    ensures TallyOf([a, b, c]).ready == 3
    ensures var pods := map["a" := a, "b" := b, "c" := c]; IsListing([a, b, c], pods) && |pods| == 3
  {
    assert TallyOf([a]) == Count(a, TallyOf([]));
    assert [a, b][..1] == [a] && [a, b, c][..2] == [a, b];
    assert TallyOf([a, b]) == Count(b, TallyOf([a]));
    assert map["a" := a, "b" := b, "c" := c].Keys == {"a", "b", "c"};
  }

  /** Three ready workers that hold cache, in a group that expects nobody any more: one reconcile drops them all. */
  lemma CacheDroppedAtZero() returns (e: Event, w: World)
    ensures Fair(e, w) && e.expected == map[] && TallyOf(e.listing).ready == 3 && |w.pods| == 3
    ensures forall name :: name in w.pods ==> !Leaving(w.pods[name]) && Holds(e, w.pods[name])
    ensures forall name :: name in w.pods ==> !Lives(HandledWorld(e, w), name)
  {
    var a, b, c := ReadyWorker("a"), ReadyWorker("b"), ReadyWorker("c");
    var g := Group("g", "g", "v", "", false, false, None, None, Strategy.Unset);
    var holding := NoStats().(cacheBytes := Some(1));
    var r := Response(true, true, Recreated, Created, true, Some(holding), Vanished, true);
    e := Event(g, map[], [], [a, b, c], [], Clock(0, 0, 0), (name: string) => r);
    w := World(map["a" := a, "b" := b, "c" := c], Status(NoPhase, None, [], "", 0, 0, 0, 0));
    ThreeReady(a, b, c);
    hide HandledPods, TallyOf, IsListing;
    AllGoAtZero(e, w);
  }

  lemma ShutdownLosesExactly(p: Pod, s: Shutdown, r: Response, now: Time)
    requires !p.deleting
    ensures var after := ShutdownResult(p, s, r, now);
      after.None? || after.value.deleting <==>
        || (s == Release && !r.deletion.Refused?)
        || (s == Enter && !(p.annotations.v2 && r.smoothOk)
            && (r.recreation.StuckDeleting? || r.recreation.CreateFailed?))
  {
    hide LeavingWorker;
    LeavingWorkerLives(p, now);
  }

  lemma ShutdownResultIs(p: Pod, s: Shutdown, r: Response, now: Time)
    requires !p.deleting && (Leaving(p) ==> s != Enter)
    ensures var after := ShutdownResult(p, s, r, now);
      after.Some? && !after.value.deleting ==>
        || after.value.annotations.waitingAt == p.annotations.waitingAt
        || (s == Enter && after.value.annotations.waitingAt == Some(Rfc3339(now)))
  {
    hide LeavingWorker;
    LeavingWorkerName(p, now);
    LeavingWorkerLives(p, now);
  }

  lemma LeavingNotEntered(e: Event, w: World, p: Pod)
    requires Leaving(p)
    ensures DecisionFor(e, w, p) != Enter
  {
  }

  // ---------- a leave that is called off ----------

  /** Whether a v2 worker that has left, and joined or not before, is restarted when it is expected again. */
  predicate CallsOff(g: Group, t: Template, joined: bool, join: bool) {
    var m := MountOpts(g, t);
    if g.strategy.OnDelete? then joined && !join else join || HasCommission(m) || !Contains(m, DECOMMISSION)
  }

  /** What the task for such a worker comes to. */
  lemma CalledOffTask(i: Input, node: string, task: Task, p: Pod, j: bool, at: Time, leftAt: Time, r: Response)
    requires node in i.expected && IsTaskOf(i, node, task) && task.actual == Some(p)
    requires LeftFrom(p, i.g, i.expected[node], node, j, at, leftAt)
    ensures var t, onDelete := i.expected[node], i.g.strategy.OnDelete?;
      var after := TaskResult(Some(p), onDelete, task, r);
      && (Needed(i, node) != UpToDate <==> CallsOff(i.g, t, j, JoinFlag(i, node)))
      && (after.Some? && !Leaving(after.value) <==> task.action != UpToDate && UpdateSucceeds(onDelete, true, r))
      && (after.Some? && !Leaving(after.value) ==>
            after.value == if r.smoothOk then Restarted(p, Wanted(i, node)) else Wanted(i, node))
  {
    var t, join := i.expected[node], JoinFlag(i, node);
    CalledOffLeave(p, i.g, t, node, j, at, leftAt, join, i.now);
    CalledOffOnDelete(p, i.g, t, node, j, at, leftAt, join, i.now);
    hide Decide, LeftFrom, JoinFlag, MountOpts, HasCommission, Contains, NewWorker, MustWait, Candidate;
  }

  /**
   A leave that is called off, in one reconcile. A v2 worker that has left and is expected again loses its leave mark
   exactly when the decision asks for a restart, the budget reaches it and the calls succeed; restarted, its juicefs.io
   annotations are then exactly the expected ones, with all foreign ones kept.
   */
  lemma LeaveCalledOff(e: Event, w: World, node: string, j: bool, at: Time, leftAt: Time)
    requires Fair(e, w) && node in e.expected
    requires var name := PodName(e.g, node);
      && name in w.pods && Belongs(e.g, e.expected.Keys, w.pods[name])
      && LeftFrom(w.pods[name], e.g, e.expected[node], node, j, at, leftAt)
    ensures var name, t, i := PodName(e.g, node), e.expected[node], InputOf(e, w.status);
      var p, after := w.pods[name], At(HandledWorld(e, w).pods, name);
      && (after.Some? && !Leaving(after.value) <==>
            && CallsOff(e.g, t, j, JoinFlag(i, node)) && HasBudget(e, w, node)
            && UpdateSucceeds(e.g.strategy.OnDelete?, true, e.api(name)))
      && (after.Some? && !Leaving(after.value) ==>
            after.value == if e.api(name).smoothOk then Restarted(p, Wanted(i, node)) else Wanted(i, node))
  {
    var name, i := PodName(e.g, node), InputOf(e, w.status);
    ListingFinds(e.listing, w.pods, name);
    NotMissing(i, node);
    RemovalSpares(e, w, name);
    hide FirstStatus, Chosen, Plan, RunTasks, Needed, Candidate, MustWait, HandledPods, IsTaskOf, LeftFrom, JoinFlag,
      CallsOff, Wanted;
    var task := PlannedTask(i, e.order, e.g.strategy.OnDelete?, e.api, w.pods, node);
    TaskActual(i, node, task);
    CalledOffTask(i, node, task, w.pods[name], j, at, leftAt, e.api(name));
  }

  // ---------- whole runs ----------

  /** The worker of the name lives in every world, and no reconcile expects it. */
  ghost predicate Redundantly(worlds: seq<World>, steps: seq<Step>, name: string)
    requires IsRun(worlds, steps)
  {
    && (forall k :: 0 <= k < |worlds| ==> Lives(worlds[k], name))
    && forall k :: 0 <= k < |steps| && steps[k].Reconciled? ==> Unexpected(steps[k].event, worlds[k].pods[name])
  }

  function LeaveTime(w: World, name: string): Option<Time>
    requires name in w.pods
  {
    w.pods[name].annotations.waitingAt
  }

  /** Step k is the reconcile in which the worker enters the leave. */
  ghost predicate EntersAt(worlds: seq<World>, steps: seq<Step>, name: string, k: int)
    requires IsRun(worlds, steps) && Redundantly(worlds, steps, name)
  {
    && 0 <= k < |steps| && steps[k].Reconciled?
    && LeaveTime(worlds[k], name) == None
    && DecisionFor(steps[k].event, worlds[k], worlds[k].pods[name]) == Enter
    && forall m :: k < m < |worlds| ==> LeaveTime(worlds[m], name) == Some(Rfc3339(steps[k].event.clock.during))
  }

  lemma StepKeepsLeaveTime(w: World, step: Step, w': World, name: string)
    requires StepTo(w, step, w') && Lives(w, name) && Lives(w', name) && LeaveTime(w, name).Some?
    requires step.Reconciled? ==> Unexpected(step.event, w.pods[name])
    ensures LeaveTime(w', name) == LeaveTime(w, name)
  {
    if step.Reconciled? {
      UnexpectedStep(step.event, w, w', name);
    } else {
      OthersKeepLeaveTime(w, step, w', name);
    }
  }

  /** Nobody but the operator writes the leave time. */
  lemma OthersKeepLeaveTime(w: World, step: Step, w': World, name: string)
    requires StepTo(w, step, w') && !step.Reconciled? && Lives(w, name) && Lives(w', name)
    ensures LeaveTime(w', name) == LeaveTime(w, name)
  {
    if step.Elsewhere? {
      assert Drifts(w.pods[name], w'.pods[name]);
    }
  }

  /** As long as a worker stays redundant, its leave time never changes. */
  lemma {:induction false} LeaveTimeFixed(worlds: seq<World>, steps: seq<Step>, name: string, from: nat, to: nat)
    requires IsRun(worlds, steps) && Redundantly(worlds, steps, name)
    requires from <= to < |worlds| && LeaveTime(worlds[from], name).Some?
    ensures LeaveTime(worlds[to], name) == LeaveTime(worlds[from], name)
  {
    hide StepTo, Unexpected;
    if from < to {
      LeaveTimeFixed(worlds, steps, name, from, to - 1);
      StepKeepsLeaveTime(worlds[to - 1], steps[to - 1], worlds[to], name);
    }
  }

  /** A redundant worker that leaves has entered the leave in a reconcile of the run. */
  lemma {:induction false} EnteredOnce(worlds: seq<World>, steps: seq<Step>, name: string, k: nat) returns (j: int)
    requires IsRun(worlds, steps) && Redundantly(worlds, steps, name)
    requires LeaveTime(worlds[0], name) == None && k < |worlds| && LeaveTime(worlds[k], name).Some?
    ensures EntersAt(worlds, steps, name, j) && j < k
  {
    var w, w' := worlds[k - 1], worlds[k];
    if LeaveTime(w, name).Some? {
      j := EnteredOnce(worlds, steps, name, k - 1);
    } else {
      j := k - 1;
      assert StepTo(w, steps[j], w');
      if steps[j].Reconciled? {
        UnexpectedStep(steps[j].event, w, w', name);
      } else {
        OthersKeepLeaveTime(w, steps[j], w', name);
      }
      forall m | j < m < |worlds| ensures LeaveTime(worlds[m], name) == LeaveTime(w', name) {
        LeaveTimeFixed(worlds, steps, name, k, m);
      }
    }
  }

  /** A reconcile of a group that expects somebody finds two ready workers, and this one holding cache. */
  predicate HoldsCache(e: Event, p: Pod) {
    e.expected != map[] && TallyOf(e.listing).ready >= 2 && Holds(e, p)
  }

  /**
   A redundant worker that has entered the leave goes in a reconcile past its timeout exactly when that gets to it and
   its deletion is accepted; so it outlives its timeout only through failures before it in the reconcile, or of its
   own deletion.
   */
  lemma TimeoutBoundsLeave(worlds: seq<World>, steps: seq<Step>, name: string, j: int, e: Event, w': World)
    requires IsRun(worlds, steps) && Redundantly(worlds, steps, name) && EntersAt(worlds, steps, name, j)
    requires var w := worlds[|steps|];
      && ReconciledTo(e, w, w')
      && Unexpected(e, w.pods[name]) && Redundant(e.g, e.expected.Keys, w.pods[name])
      && e.clock.during > Rfc3339(steps[j].event.clock.during) + WaitingMax(e.g)
    ensures var w := worlds[|steps|];
      var goes := Reached(e, w, name) && !e.api(name).deletion.Refused?;
      && (!Lives(HandledWorld(e, w), name) <==> goes)
      && (Lives(w', name) ==> !goes)
  {
    var w := worlds[|steps|];
    assert LeaveTime(w, name) == Some(Rfc3339(steps[j].event.clock.during));
    hide HandledPods, Unexpected, Redundant, DecisionFor, FinalStatus, Reached, IsRun;
    TimeoutLetsGo(e, w, name);
    if !Lives(HandledWorld(e, w), name) {
      GoneStaysGone(e, w, w', name);
    }
  }

  lemma GoneStaysGone(e: Event, w: World, w': World, name: string)
    requires ReconciledTo(e, w, w') && !Lives(HandledWorld(e, w), name)
    ensures !Lives(w', name)
  {
    hide HandledPods, FinalStatus;
    if name in w'.pods {
      assert Drifts(HandledWorld(e, w).pods[name], w'.pods[name]);
    }
  }

  /**
   Leave safety. A redundant worker, not leaving at first, that lives until the end of a run and is then let go or lost
   by a reconcile which finds it holding cache: unless that reconcile lost it while recreating it, it entered the
   leave in an earlier reconcile, kept that leave time ever since, and goes either past the timeout or on a sample of
   its own process, taken after the leave began, that shows it idle.
   */
  lemma LeaveSafety(worlds: seq<World>, steps: seq<Step>, name: string, e: Event) returns (j: int)
    requires IsRun(worlds, steps) && Redundantly(worlds, steps, name)
    requires LeaveTime(worlds[0], name) == None
    requires var w := worlds[|steps|];
      && Fair(e, w) && !Lives(HandledWorld(e, w), name)
      && Unexpected(e, w.pods[name]) && HoldsCache(e, w.pods[name]) && !LosesPod(e, w, w.pods[name])
    ensures var w := worlds[|steps|];
      var p := w.pods[name];
      && EntersAt(worlds, steps, name, j)
      && var leftAt := Rfc3339(steps[j].event.clock.during);
      && p.annotations.waitingAt == Some(leftAt)
      && (|| e.clock.during > leftAt + WaitingMax(e.g)
          || IdleSample(p, RecordOf(w.status.stats, name), e.api(name).currentStats.value, leftAt, e.clock.during))
  {
    var w := worlds[|steps|];
    var p := w.pods[name];
    UnexpectedHandled(e, w, name);
    var st := FirstStatus(e, w.status);
    assert st.stats == w.status.stats;
    if !Leaving(p) {
      StayingReleasedExactly(e, w, p);
      assert false;
    }
    LeavingReleasedExactly(e.g, st, p, RecordOf(st.stats, name), e.api(name), e.clock.during);
    j := EnteredOnce(worlds, steps, name, |steps|);
  }

  /**
   The one way to lose a worker that holds its cache: it is deleted to be recreated, and is then not created again.
   */
  lemma EnteringLosesExactly(e: Event, w: World, p: Pod, pods: Pods)
    requires DecisionFor(e, w, p) == Enter && At(pods, p.name) == Some(p) && !p.deleting
    ensures var after := EnterLeave(pods, p, e.api(p.name), e.clock.during).0;
      !Lives(World(after, w.status), p.name) <==> LosesPod(e, w, p)
    ensures var after := At(EnterLeave(pods, p, e.api(p.name), e.clock.during).0, p.name);
      var leaving := LeavingWorker(p, e.clock.during);
      if p.annotations.v2 && e.api(p.name).smoothOk then
        after == Some(p.(annotations := RestartedAnnotations(p.annotations, leaving.annotations)))
      else
        e.api(p.name).recreation == Recreated ==>
          after == Some(leaving.(ready := false, deleting := false, phase := PodPending))
  {
    hide DecisionFor, LeavingWorker, RestartedAnnotations;
    LeavingWorkerName(p, e.clock.during);
    LeavingWorkerLives(p, e.clock.during);
  }

  lemma LeavingWorkerLives(p: Pod, now: Time)
    ensures LeavingWorker(p, now).deleting == p.deleting
  {
  }
}
