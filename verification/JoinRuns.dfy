/** The join phase over whole runs: its start is never refreshed, and it ends only for the documented reasons. */
module JoinRuns {
  import opened Wrappers
  import opened Kube
  import opened Worker
  import opened Rebalance
  import opened Builder
  import opened Update
  import opened Lifecycle
  import opened SyncTheorems
  import opened Runs
  import opened Rollout

  /** The worker of a node is expected with one and the same template, and the group has a place for it. */
  predicate Wants(e: Event, g: Group, t: Template, node: string, p: Pod) {
    e.g == g && node in e.expected && e.expected[node] == t && Belongs(g, e.expected.Keys, p)
  }

  function JoinTime(w: World, name: string): Option<Time>
    requires name in w.pods
  {
    w.pods[name].annotations.joinedAt
  }

  /** A task for a built worker: nothing happens, or its join mark goes because the join option is no longer wanted. */
  lemma BuiltTask(i: Input, node: string, task: Task, p: Pod, onDelete: bool, r: Response)
    requires node in i.expected && IsTaskOf(i, node, task) && task.actual == Some(p)
    requires IsBuilt(p, i.g, i.expected[node], node) && Alive(p)
    ensures var after := TaskResult(Some(p), onDelete, task, r);
      || after == Some(p)
      || (Joining(p) && !JoinFlag(i, node)
          && (after.Some? && !after.value.deleting ==>
                IsBuilt(after.value, i.g, i.expected[node], node) && !Joining(after.value)))
  {
    JoinFlagKeepsJoin(i, node, p);
    if JoinFlag(i, node) == Joining(p) {
      BuiltIsUpToDate(StrategyOf(i).0, i.g, i.expected[node], node, p, i.now);
    } else {
      if task.action == SmoothRestart {
        NoRestartOfV1(i, node, task, p);
      }
      BuiltTaskEnds(i.g, i.expected[node], node, i.now, task, p, onDelete, r);
    }
    hide AddJoinOption, IsBuilt, NewCacheGroupWorker;
  }

  lemma JoinFlagKeepsJoin(i: Input, node: string, p: Pod)
    requires node in i.expected && Find(i.listing, PodName(i.g, node)) == Some(p)
    ensures JoinFlag(i, node) ==> Joining(p)
  {
  }

  /** A task that expects a joining worker without its join mark. */
  lemma BuiltTaskEnds(g: Group, t: Template, node: string, now: Time, task: Task, p: Pod, onDelete: bool, r: Response)
    requires task.actual == Some(p) && task.want == NewCacheGroupWorker(g, t, node, false, now)
    requires task.action == SmoothRestart ==> p.annotations.v2
    requires IsBuilt(p, g, t, node) && !p.deleting
    ensures var after := TaskResult(Some(p), onDelete, task, r);
      || after == Some(p)
      || (after.Some? && !after.value.deleting ==> IsBuilt(after.value, g, t, node) && !Joining(after.value))
  {
    if task.action == SmoothRestart {
      RestartedIsBuilt(g, t, node, p, false, now);
    }
    RenderedIsBuilt(g, t, node, false, SupportsRestartArgs(t.image), now);
    RestartedJoin(p, task.want);
    hide IsBuilt, Restarted, NewWorker;
  }

  lemma RestartedJoin(p: Pod, want: Pod)
    ensures Restarted(p, want).annotations.joinedAt == want.annotations.joinedAt
  {
  }

  lemma NoRestartOfV1(i: Input, node: string, task: Task, p: Pod)
    requires node in i.expected && IsTaskOf(i, node, task) && task.actual == Some(p) && task.action == SmoothRestart
    ensures p.annotations.v2
  {
  }

  /** The handling of a built, live, wanted worker. */
  lemma WantedHandled(e: Event, w: World, g: Group, t: Template, node: string)
    requires Fair(e, w)
    requires var name := PodName(g, node);
      name in w.pods && Wants(e, g, t, node, w.pods[name]) && IsBuilt(w.pods[name], g, t, node) && Alive(w.pods[name])
    ensures var name := PodName(g, node);
      var p, handled := w.pods[name], HandledWorld(e, w);
      name in handled.pods && !handled.pods[name].deleting ==>
        && IsBuilt(handled.pods[name], g, t, node)
        && (|| JoinTime(handled, name) == JoinTime(w, name)
            || (JoinTime(handled, name) == None
                && !AddJoinOption(g, FirstStatus(e, w.status), Some(p), t, e.clock.during)))
  {
    var name := PodName(g, node);
    var p := w.pods[name];
    var i := InputOf(e, w.status);
    var synced := SyncedPods(e, w.pods, w.status);
    var m, task := SyncedAt(e, w.pods, w.status, name);
    ListingFinds(e.listing, w.pods, name);
    if At(synced.0, name) != Some(p) {
      PodNameInjective(g, m, node);
      BuiltTask(i, node, task, p, g.strategy.OnDelete?, e.api(name));
    }
    hide FirstStatus, IsBuilt, TaskResult, IsTaskOf;
    RemovalSpares(e, w, name);
  }

  /** One reconcile and a built, live, wanted worker. */
  lemma WantedStep(e: Event, w: World, w': World, g: Group, t: Template, node: string)
    requires StepTo(w, Reconciled(e), w')
    requires var name := PodName(g, node);
      name in w.pods && Wants(e, g, t, node, w.pods[name]) && IsBuilt(w.pods[name], g, t, node) && Alive(w.pods[name])
    ensures var name := PodName(g, node);
      var p := w.pods[name];
      name in w'.pods && !w'.pods[name].deleting ==>
        && IsBuilt(w'.pods[name], g, t, node)
        && (|| JoinTime(w', name) == JoinTime(w, name)
            || (JoinTime(w', name) == None
                && !AddJoinOption(g, FirstStatus(e, w.status), Some(p), t, e.clock.during)))
  {
    WantedHandled(e, w, g, t, node);
    var name := PodName(g, node);
    hide HandledPods, FinalStatus, IsBuilt, AddJoinOption, Wants, PodName;
    if name in w'.pods && !w'.pods[name].deleting {
      DriftKeepsBuilt(HandledWorld(e, w).pods[name], w'.pods[name], g, t, node);
    }
  }

  lemma DriftKeepsBuilt(p: Pod, q: Pod, g: Group, t: Template, node: string)
    requires IsBuilt(p, g, t, node) && Drifts(p, q)
    ensures IsBuilt(q, g, t, node) && q.annotations.joinedAt == p.annotations.joinedAt
    ensures q.annotations.v2 == p.annotations.v2
  {
  }

  // ---------- the end of the join phase ----------

  /**
   A joining worker whose join option is not wanted any more: v2 restarts, v1 is recreated, but not under OnDelete.
   */
  lemma EndDecided(onDelete: bool, g: Group, t: Template, node: string, p: Pod, now: Time)
    requires IsBuilt(p, g, t, node) && Alive(p) && Joining(p)
    ensures Decide(onDelete, g, t, node, false, Some(p), now)
            == if p.annotations.v2 then SmoothRestart else if onDelete then UpToDate else Recreate
  {
    CommandsDiffer(g, t);
    JoinOptionLength(MountOpts(g, t), t.image, true);
    JoinOptionLength(MountOpts(g, t), t.image, false);
    V2RenderIgnoresJoin(g, t, node, true, false);
    hide Command, MountOpts, WithJoinOption;
  }

  /** Carrying the decision out. */
  lemma EndCarriedOut(i: Input, node: string, task: Task, p: Pod, onDelete: bool, r: Response)
    requires node in i.expected && IsTaskOf(i, node, task) && task.actual == Some(p) && !JoinFlag(i, node)
    requires task.action == if p.annotations.v2 then SmoothRestart else if onDelete then UpToDate else Recreate
    requires Joining(p)
    ensures var after := TaskResult(Some(p), onDelete, task, r);
      after.Some? && !Joining(after.value) <==> UpdateSucceeds(onDelete, p.annotations.v2, r)
  {
    hide MayJoin, WorkerCounterIdle, Render, MountOpts, Command, Candidate, MustWait;
  }

  /** A ready, wanted worker outside the chosen ones is left alone: it needs no update, or has no budget for it. */
  lemma ReadyPassedOver(e: Event, w: World, g: Group, t: Template, node: string)
    requires Fair(e, w)
    requires var name := PodName(g, node);
      name in w.pods && Wants(e, g, t, node, w.pods[name]) && w.pods[name].ready
    requires node !in Chosen(InputOf(e, w.status), e.order)
    ensures var name := PodName(g, node); At(HandledWorld(e, w).pods, name) == Some(w.pods[name])
  {
    var name := PodName(g, node);
    var i := InputOf(e, w.status);
    ListingFinds(e.listing, w.pods, name);
    NotMissing(i, node);
    RemovalSpares(e, w, name);
    hide FirstStatus, Chosen, Plan, RunTasks, Needed, MustWait, HandledPods, IsTaskOf;
    var task := PlannedTask(i, e.order, g.strategy.OnDelete?, e.api, w.pods, node);
  }

  /**
   The join ends at the backup duration, exactly. A reconcile that finds the backup duration over takes the join mark
   away if and only if the budget reaches the worker and the calls succeed that this takes; for a v1 worker under
   OnDelete there are none. A worker the budget does not reach is left alone.
   */
  lemma JoinEndsAtBackup(e: Event, w: World, g: Group, t: Template, node: string)
    requires Fair(e, w) && e.g == g && node in e.expected
    requires var name := PodName(g, node);
      && name in w.pods && Wants(e, g, t, node, w.pods[name]) && IsBuilt(w.pods[name], g, t, node)
      && Alive(w.pods[name]) && Joining(w.pods[name])
      && e.clock.during >= w.pods[name].annotations.joinedAt.value + BackupDuration(g)
    ensures var name := PodName(g, node);
      var handled := HandledWorld(e, w);
      && (name in handled.pods && JoinTime(handled, name) == None <==>
            HasBudget(e, w, node) && UpdateSucceeds(g.strategy.OnDelete?, w.pods[name].annotations.v2, e.api(name)))
      && (!HasBudget(e, w, node) ==> At(handled.pods, name) == Some(w.pods[name]))
  {
    var name := PodName(g, node);
    var p, i := w.pods[name], InputOf(e, w.status);
    ListingFinds(e.listing, w.pods, name);
    if !HasBudget(e, w, node) {
      ReadyPassedOver(e, w, g, t, node);
    } else {
      NeededAtBackup(i, node, p);
      RemovalSpares(e, w, name);
      hide FirstStatus, Chosen, Plan, RunTasks, Needed, Candidate, MustWait, IsBuilt, JoinFlag, HandledPods, IsTaskOf,
        UpdateSucceeds;
      var task := PlannedTask(i, e.order, g.strategy.OnDelete?, e.api, w.pods, node);
      TaskActual(i, node, task);
      EndCarriedOut(i, node, task, p, g.strategy.OnDelete?, e.api(name));
    }
  }

  /** What the decision is for a joining worker when the backup duration is over. */
  lemma NeededAtBackup(i: Input, node: string, p: Pod)
    requires node in i.expected && Find(i.listing, PodName(i.g, node)) == Some(p)
    requires IsBuilt(p, i.g, i.expected[node], node) && Alive(p) && Joining(p)
    requires i.now >= p.annotations.joinedAt.value + BackupDuration(i.g)
    ensures !MustWait(i, node) && !JoinFlag(i, node)
    ensures Needed(i, node)
            == if p.annotations.v2 then SmoothRestart else if i.g.strategy.OnDelete? then UpToDate else Recreate
  {
    BackupOver(i, node, p);
    EndDecided(i.g.strategy.OnDelete?, i.g, i.expected[node], node, p, i.now);
    hide IsBuilt, JoinFlag, Decide, Alive, MustWait, ParseUpdateStrategy;
    NotMissing(i, node);
    StrategyIs(i);
  }

  lemma StrategyIs(i: Input)
    ensures StrategyOf(i).0 <==> i.g.strategy.OnDelete?
  {
  }

  lemma BackupOver(i: Input, node: string, p: Pod)
    requires node in i.expected && Find(i.listing, PodName(i.g, node)) == Some(p)
    requires Joining(p) && i.now >= p.annotations.joinedAt.value + BackupDuration(i.g)
    ensures !JoinFlag(i, node)
  {
  }

  // ---------- whole runs ----------

  /** The worker of the node is wanted by every reconcile, and lives without failing. */
  ghost predicate WantedThroughout(worlds: seq<World>, steps: seq<Step>, g: Group, t: Template, node: string)
    requires IsRun(worlds, steps)
  {
    var name := PodName(g, node);
    && (forall k :: 0 <= k < |worlds| ==> name in worlds[k].pods && Alive(worlds[k].pods[name]))
    && (forall k :: 0 <= k < |steps| && steps[k].Reconciled? ==>
        Wants(steps[k].event, g, t, node, worlds[k].pods[name]))
    && IsBuilt(worlds[0].pods[name], g, t, node)
  }

  lemma {:induction false} BuiltThroughout(worlds: seq<World>, steps: seq<Step>, g: Group, t: Template, node: string,
                                           k: nat)
    requires IsRun(worlds, steps) && WantedThroughout(worlds, steps, g, t, node) && k < |worlds|
    ensures IsBuilt(worlds[k].pods[PodName(g, node)], g, t, node)
  {
    hide IsBuilt, StepTo;
    if k > 0 {
      BuiltThroughout(worlds, steps, g, t, node, k - 1);
      OneStep(worlds, steps, g, t, node, k - 1);
    }
  }

  lemma OneStep(worlds: seq<World>, steps: seq<Step>, g: Group, t: Template, node: string, k: nat)
    requires IsRun(worlds, steps) && WantedThroughout(worlds, steps, g, t, node) && k < |steps|
    requires IsBuilt(worlds[k].pods[PodName(g, node)], g, t, node)
    ensures var name := PodName(g, node);
      && IsBuilt(worlds[k + 1].pods[name], g, t, node)
      && (JoinTime(worlds[k + 1], name) == JoinTime(worlds[k], name) || EndedAt(worlds, steps, g, t, node, k))
  {
    var name := PodName(g, node);
    var w, w' := worlds[k], worlds[k + 1];
    assert StepTo(w, steps[k], w');
    match steps[k] {
      case Sampled(_, _) =>
      case Elsewhere => DriftKeepsBuilt(w.pods[name], w'.pods[name], g, t, node);
      case Reconciled(e) => WantedStep(e, w, w', g, t, node);
    }
  }

  /** Step k is a reconcile that takes the join mark away because the join option is not wanted any more. */
  ghost predicate EndedAt(worlds: seq<World>, steps: seq<Step>, g: Group, t: Template, node: string, k: int)
    requires IsRun(worlds, steps) && WantedThroughout(worlds, steps, g, t, node)
  {
    var name := PodName(g, node);
    && 0 <= k < |steps| && steps[k].Reconciled?
    && JoinTime(worlds[k + 1], name) == None
    && var e := steps[k].event;
    !AddJoinOption(g, FirstStatus(e, worlds[k].status), Some(worlds[k].pods[name]), t, e.clock.during)
  }

  /**
   While the template is fixed and the worker survives, its join time is never refreshed: it stays or goes for good.
   */
  lemma {:induction false} JoinTimeNeverRefreshed(worlds: seq<World>, steps: seq<Step>, g: Group, t: Template,
                                                  node: string, from: nat, to: nat)
    requires IsRun(worlds, steps) && WantedThroughout(worlds, steps, g, t, node) && from <= to < |worlds|
    ensures var name := PodName(g, node);
      JoinTime(worlds[to], name) == JoinTime(worlds[from], name) || JoinTime(worlds[to], name) == None
  {
    hide IsBuilt, StepTo, Wants;
    if from < to {
      JoinTimeNeverRefreshed(worlds, steps, g, t, node, from, to - 1);
      BuiltThroughout(worlds, steps, g, t, node, to - 1);
      OneStep(worlds, steps, g, t, node, to - 1);
    }
  }

  lemma {:induction false} JoinEndedAt(worlds: seq<World>, steps: seq<Step>, g: Group, t: Template, node: string,
                                       k: nat) returns (j: nat)
    requires IsRun(worlds, steps) && WantedThroughout(worlds, steps, g, t, node)
    requires var name := PodName(g, node);
      k < |worlds| && JoinTime(worlds[0], name).Some? && JoinTime(worlds[k], name).None?
    ensures j < k && EndedAt(worlds, steps, g, t, node, j) && JoinTime(worlds[j], PodName(g, node)).Some?
  {
    hide AddJoinOption, FirstStatus, IsBuilt, StepTo, Wants, EndedAt, PodName;
    if JoinTime(worlds[k - 1], PodName(g, node)).None? {
      j := JoinEndedAt(worlds, steps, g, t, node, k - 1);
    } else {
      j := k - 1;
      BuiltThroughout(worlds, steps, g, t, node, j);
      OneStep(worlds, steps, g, t, node, j);
    }
  }

  /**
   A join that ended in the run ended in a reconcile at which the backup duration was over, or at which the worker's own
   sample, later by delay + 1 min than the join and than every worker start reported then, showed it idle.
   */
  lemma JoinEndsForAReason(worlds: seq<World>, steps: seq<Step>, g: Group, t: Template, node: string, k: nat)
    returns (j: nat)
    requires IsRun(worlds, steps) && WantedThroughout(worlds, steps, g, t, node) && MayJoin(g, t)
    requires forall m :: 0 <= m < |worlds| ==> DistinctStats(worlds[m].status.stats)
    requires var name := PodName(g, node);
      k < |worlds| && JoinTime(worlds[0], name).Some? && JoinTime(worlds[k], name).None?
    ensures j < k && steps[j].Reconciled?
    ensures var name := PodName(g, node);
      var e := steps[j].event;
      var joinedAt := JoinTime(worlds[0], name);
      && JoinTime(worlds[j], name) == joinedAt
      && (|| e.clock.during >= joinedAt.value + BackupDuration(g)
          || exists own :: EndsJoin(worlds[j].pods[name], joinedAt.value, worlds[j].status.stats, own, e.clock.during))
  {
    j := JoinEndedAt(worlds, steps, g, t, node, k);
    JoinTimeNeverRefreshed(worlds, steps, g, t, node, 0, j);
    EndedReason(worlds, steps, g, t, node, j);
    hide IsBuilt, StepTo, Wants, EndsJoin;
  }

  lemma EndedReason(worlds: seq<World>, steps: seq<Step>, g: Group, t: Template, node: string, j: nat)
    requires IsRun(worlds, steps) && WantedThroughout(worlds, steps, g, t, node) && MayJoin(g, t)
    requires EndedAt(worlds, steps, g, t, node, j) && JoinTime(worlds[j], PodName(g, node)).Some?
    requires DistinctStats(worlds[j].status.stats)
    ensures var p := worlds[j].pods[PodName(g, node)];
      var now := steps[j].event.clock.during;
      || now >= p.annotations.joinedAt.value + BackupDuration(g)
      || exists own :: EndsJoin(p, p.annotations.joinedAt.value, worlds[j].status.stats, own, now)
  {
    var e := steps[j].event;
    var st := FirstStatus(e, worlds[j].status);
    assert st.stats == worlds[j].status.stats;
    JoinEndsExactly(g, st, worlds[j].pods[PodName(g, node)], t, e.clock.during);
  }

  /**
   Over runs: a reconcile that finds the backup duration over ends the join exactly when the budget reaches the worker
   and the calls succeed that this takes.
   */
  lemma JoinEndsInRun(worlds: seq<World>, steps: seq<Step>, g: Group, t: Template, node: string, k: nat)
    requires IsRun(worlds, steps) && WantedThroughout(worlds, steps, g, t, node) && k < |steps|
    requires steps[k].Reconciled? && JoinTime(worlds[k], PodName(g, node)).Some?
    requires var e := steps[k].event;
      && e.clock.during >= JoinTime(worlds[k], PodName(g, node)).value + BackupDuration(g)
      && IsOrder(e.order, e.expected) && node in e.expected
    ensures var name := PodName(g, node);
      var e, w := steps[k].event, worlds[k];
      JoinTime(worlds[k + 1], name) == None <==>
        HasBudget(e, w, node) && UpdateSucceeds(g.strategy.OnDelete?, w.pods[name].annotations.v2, e.api(name))
  {
    var e, w, w' := steps[k].event, worlds[k], worlds[k + 1];
    var name := PodName(g, node);
    BuiltThroughout(worlds, steps, g, t, node, k);
    assert StepTo(w, steps[k], w');
    JoinEndsAtBackup(e, w, g, t, node);
    hide HandledPods, FinalStatus, IsBuilt, Wants, HasBudget, UpdateSucceeds, PodName;
    assert Drifts(HandledWorld(e, w).pods[name], w'.pods[name]);
  }

  /** Reconcile k finds the worker ready and has no budget for it. */
  ghost predicate PassesOver(worlds: seq<World>, steps: seq<Step>, g: Group, node: string, k: nat)
    requires IsRun(worlds, steps) && k < |steps| && steps[k].Reconciled?
  {
    var e, w, name := steps[k].event, worlds[k], PodName(g, node);
    && IsOrder(e.order, e.expected) && name in w.pods && w.pods[name].ready
    && node !in Chosen(InputOf(e, w.status), e.order)
  }

  /** A ready worker that no reconcile has budget for joins for as long as it lives, whatever its backup duration. */
  lemma {:induction false} JoinsWhilePassedOver(worlds: seq<World>, steps: seq<Step>, g: Group, t: Template,
                                                node: string, k: nat)
    requires IsRun(worlds, steps) && WantedThroughout(worlds, steps, g, t, node) && k < |worlds|
    requires forall m :: 0 <= m < k && steps[m].Reconciled? ==> PassesOver(worlds, steps, g, node, m)
    ensures var name := PodName(g, node); JoinTime(worlds[k], name) == JoinTime(worlds[0], name)
  {
    if k > 0 {
      JoinsWhilePassedOver(worlds, steps, g, t, node, k - 1);
      hide PassesOver, PodName, IsBuilt, StepTo, Wants;
      PassedOverStep(worlds, steps, g, t, node, k - 1);
    }
  }

  lemma PassedOverStep(worlds: seq<World>, steps: seq<Step>, g: Group, t: Template, node: string, k: nat)
    requires IsRun(worlds, steps) && WantedThroughout(worlds, steps, g, t, node) && k < |steps|
    requires steps[k].Reconciled? ==> PassesOver(worlds, steps, g, node, k)
    ensures var name := PodName(g, node); JoinTime(worlds[k + 1], name) == JoinTime(worlds[k], name)
  {
    var name, w, w' := PodName(g, node), worlds[k], worlds[k + 1];
    assert StepTo(w, steps[k], w');
    hide HandledPods, FinalStatus, IsBuilt, Wants, PodName, Chosen, FirstStatus;
    match steps[k] {
      case Sampled(_, _) =>
      case Elsewhere => assert Drifts(w.pods[name], w'.pods[name]);
      case Reconciled(e) =>
        ReadyPassedOver(e, w, g, t, node);
        assert Drifts(HandledWorld(e, w).pods[name], w'.pods[name]);
    }
  }

  /**
   With a maxUnavailable of 0 or below, as a percentage of less than one worker rounds to, a worker that is ready at
   every reconcile joins for as long as it lives.
   */
  lemma JoinsForeverAtZero(worlds: seq<World>, steps: seq<Step>, g: Group, t: Template, node: string, k: nat)
    requires IsRun(worlds, steps) && WantedThroughout(worlds, steps, g, t, node) && k < |worlds|
    requires forall m :: 0 <= m < k && steps[m].Reconciled? ==>
      && worlds[m].pods[PodName(g, node)].ready
      && ParseUpdateStrategy(g.strategy, |steps[m].event.expected|).1 <= 0
    ensures var name := PodName(g, node); JoinTime(worlds[k], name) == JoinTime(worlds[0], name)
  {
    hide PodName, IsBuilt, ParseUpdateStrategy, Candidates;
    forall m | 0 <= m < k && steps[m].Reconciled? ensures PassesOver(worlds, steps, g, node, m) {
      var e, w := steps[m].event, worlds[m];
      assert StepTo(w, steps[m], worlds[m + 1]) && Wants(e, g, t, node, w.pods[PodName(g, node)]);
      NobodyChosen(InputOf(e, w.status), e.order);
    }
    JoinsWhilePassedOver(worlds, steps, g, t, node, k);
  }

  /** Under OnDelete nothing is done to a v1 worker that lives and is wanted. */
  lemma V1LeftAlone(e: Event, w: World, g: Group, t: Template, node: string)
    requires Fair(e, w) && g.strategy.OnDelete?
    requires var name := PodName(g, node);
      name in w.pods && Wants(e, g, t, node, w.pods[name]) && !w.pods[name].annotations.v2
    ensures var name := PodName(g, node);
      At(HandledWorld(e, w).pods, name) == Some(w.pods[name])
  {
    var name := PodName(g, node);
    var i := InputOf(e, w.status);
    var m, task := SyncedAt(e, w.pods, w.status, name);
    ListingFinds(e.listing, w.pods, name);
    if At(SyncedPods(e, w.pods, w.status).0, name) != Some(w.pods[name]) {
      PodNameInjective(g, m, node);
      NoUpdateOfV1(i, node, task, w.pods[name], e.api(name));
    }
    RemovalSpares(e, w, name);
  }

  lemma NoUpdateOfV1(i: Input, node: string, task: Task, p: Pod, r: Response)
    requires node in i.expected && IsTaskOf(i, node, task) && task.actual == Some(p)
    requires i.g.strategy.OnDelete? && !p.annotations.v2
    ensures TaskResult(Some(p), true, task, r) == Some(p)
  {
    hide Render, MountOpts, Command, AddJoinOption;
  }

  /** A v1 worker under OnDelete joins for as long as it lives, whatever its backup duration. */
  lemma {:induction false} V1JoinsForever(worlds: seq<World>, steps: seq<Step>, g: Group, t: Template, node: string,
                                          k: nat)
    requires IsRun(worlds, steps) && WantedThroughout(worlds, steps, g, t, node) && k < |worlds|
    requires g.strategy.OnDelete? && !worlds[0].pods[PodName(g, node)].annotations.v2
    ensures var name := PodName(g, node);
      && !worlds[k].pods[name].annotations.v2
      && JoinTime(worlds[k], name) == JoinTime(worlds[0], name)
  {
    if k > 0 {
      V1JoinsForever(worlds, steps, g, t, node, k - 1);
      var name, w, w' := PodName(g, node), worlds[k - 1], worlds[k];
      assert StepTo(w, steps[k - 1], w');
      hide HandledPods, FinalStatus, IsBuilt, Wants, PodName;
      match steps[k - 1] {
        case Sampled(_, _) =>
        case Elsewhere => assert Drifts(w.pods[name], w'.pods[name]);
        case Reconciled(e) =>
          V1LeftAlone(e, w, g, t, node);
          assert Drifts(HandledWorld(e, w).pods[name], w'.pods[name]);
      }
    }
  }
}
