/**
 When the time of the last success goes back: exactly when the completed jobs that are left all completed before it. Old
 jobs are pruned by creation, the last success goes by completion; with overlapping jobs, as Allow permits, the two
 orders differ. Without overlap it takes a step that removes or spoils the latest completed job.
 */
module CronPruning {
  import opened Wrappers
  import opened Kube
  import Sequences
  import opened SyncPhase
  import opened CronSync
  import opened CronRuns

  // ---------- which jobs a pruning removes ----------

  predicate DistinctCreations(jobs: Jobs) {
    forall a, b :: a in InPhase(jobs, Completed) && b in InPhase(jobs, Completed) ==>
      (jobs[a].created == jobs[b].created ==> a == b)
  }

  /** The completed jobs created after a job. */
  function Younger(jobs: Jobs, n: string): set<string>
    requires n in jobs
  {
    set m | m in InPhase(jobs, Completed) && jobs[m].created > jobs[n].created
  }

  lemma YoungerKept(jobs: Jobs, removed: set<string>, limit: nat, n: string, m: string)
    requires Prunes(jobs, removed, Completed, limit, true)
    requires n in InPhase(jobs, Completed) && n !in removed && m in Younger(jobs, n)
    ensures m !in removed
  {
  }

  /** A pruning without errors removes exactly the completed jobs with as many younger ones as the limit keeps. */
  lemma PrunedExactly(jobs: Jobs, removed: set<string>, limit: nat, n: string)
    requires Prunes(jobs, removed, Completed, limit, true) && DistinctCreations(jobs) && n in InPhase(jobs, Completed)
    ensures n in removed <==> |Younger(jobs, n)| >= limit
  {
    var all := InPhase(jobs, Completed);
    var kept := all - removed;
    assert all == kept + removed && |all| == |kept| + |removed|;
    if n in removed {
      Sequences.SubsetSize({n}, removed);
      forall s | s in kept ensures s in Younger(jobs, n) {
        assert jobs[n].created <= jobs[s].created;
      }
      Sequences.SubsetSize(kept, Younger(jobs, n));
    } else {
      forall m | m in Younger(jobs, n) ensures m in kept - {n} {
        YoungerKept(jobs, removed, limit, n, m);
      }
      Sequences.SubsetSize(Younger(jobs, n), kept - {n});
      assert |kept - {n}| == |kept| - 1;
    }
  }

  // ---------- when the latest completion is lost ----------

  predicate CompletedLast(jobs: Jobs, n: string)
    requires CompletedDated(jobs)
  {
    && n in InPhase(jobs, Completed)
    && forall m :: m in InPhase(jobs, Completed) ==>
        jobs[m].status.completedAt.value <= jobs[n].status.completedAt.value
  }

  predicate GoesBack(before: Option<Time>, after: Option<Time>) {
    before.Some? && after.Some? && after.value < before.value
  }

  /** Every job that completed last has at least as many completed jobs created after it as the limit keeps. */
  ghost predicate LastOutnumbered(jobs: Jobs, limit: nat)
    requires CompletedDated(jobs)
  {
    && InPhase(jobs, Completed) != {} && limit >= 1
    && forall n :: CompletedLast(jobs, n) ==> |Younger(jobs, n)| >= limit
  }

  lemma KeptSome(jobs: Jobs, removed: set<string>, limit: nat)
    requires Prunes(jobs, removed, Completed, limit, true) && InPhase(jobs, Completed) != {}
    ensures InPhase(jobs, Completed) <= removed <==> limit == 0
  {
    var all := InPhase(jobs, Completed);
    assert all == (all - removed) + removed && |all| == |all - removed| + |removed|;
    if limit == 0 {
      assert |all - removed| == 0;
    }
  }

  /** The jobs that completed last are those at the latest completion. */
  lemma LastIsLatest(jobs: Jobs, before: Option<Time>, latest: Option<Time>, n: string)
    requires CompletedDated(jobs) && IsLatest(jobs, before, latest) && n in InPhase(jobs, Completed)
    ensures latest.Some? && jobs[n].status.completedAt.value <= latest.value
    ensures CompletedLast(jobs, n) <==> jobs[n].status.completedAt == latest
  {
  }

  /**
   The latest completion after a pruning without errors is before the one found by it exactly when something is kept and
   every job that completed last has as many completed jobs created after it as are kept.
   */
  lemma PruningForgetsExactly(jobs: Jobs, after: Jobs, limit: nat, before: Option<Time>, found: Option<Time>,
                              next: Option<Time>)
    requires CompletedDated(jobs) && CompletedDated(after) && DistinctCreations(jobs)
    requires PrunedTo(jobs, after, Completed, limit, true)
    requires IsLatest(jobs, before, found) && IsLatest(after, found, next)
    ensures GoesBack(found, next) <==> LastOutnumbered(jobs, limit)
  {
    var removed :| Prunes(jobs, removed, Completed, limit, true) && after == jobs - removed;
    assert InPhase(after, Completed) == InPhase(jobs, Completed) - removed;
    if InPhase(jobs, Completed) != {} {
      KeptSome(jobs, removed, limit);
      hide Prunes, PrunedTo, DistinctCreations, Younger;
      if limit >= 1 {
        var n :| n in InPhase(jobs, Completed) && n !in removed;
        assert n in InPhase(after, Completed);
        ForgetsLast(jobs, after, removed, limit, before, found, next);
      }
    }
  }

  lemma ForgetsLast(jobs: Jobs, after: Jobs, removed: set<string>, limit: nat, before: Option<Time>,
                    found: Option<Time>,
                    next: Option<Time>)
    requires CompletedDated(jobs) && CompletedDated(after) && DistinctCreations(jobs) && limit >= 1
    requires Prunes(jobs, removed, Completed, limit, true) && after == jobs - removed
    requires InPhase(after, Completed) == InPhase(jobs, Completed) - removed && InPhase(after, Completed) != {}
    requires IsLatest(jobs, before, found) && IsLatest(after, found, next)
    ensures GoesBack(found, next) <==> LastOutnumbered(jobs, limit)
  {
    hide Prunes, DistinctCreations, Younger;
    var kept :| kept in InPhase(after, Completed) && after[kept].status.completedAt == next;
    LastIsLatest(jobs, before, found, kept);
    if GoesBack(found, next) {
      forall n | CompletedLast(jobs, n) ensures |Younger(jobs, n)| >= limit {
        LastIsLatest(jobs, before, found, n);
        PrunedExactly(jobs, removed, limit, n);
        if n in InPhase(after, Completed) {
          LastIsLatest(after, found, next, n);
        }
      }
    }
    if LastOutnumbered(jobs, limit) {
      PrunedExactly(jobs, removed, limit, kept);
      assert !CompletedLast(jobs, kept);
    }
  }

  // ---------- two reconciles ----------

  /** Every call of the reconcile succeeds. */
  ghost predicate Clean(t: CronTurn) {
    t.listed && t.stored && forall n :: t.deletes(n)
  }

  predicate SameCompleted(a: Jobs, b: Jobs) {
    InPhase(a, Completed) == InPhase(b, Completed) && forall n :: n in InPhase(a, Completed) ==> a[n] == b[n]
  }

  /** The reconcile gets past the checks at its beginning. */
  predicate Acts(spec: Spec, c: Cron, t: CronTurn) {
    !spec.suspend && spec.schedule.Some? && (c.status.last.Some? || t.firstStored)
  }

  /** Forbid waits for a running job: a tick is due, and the reconcile stores nothing. */
  predicate Waits(spec: Spec, c: Cron, t: CronTurn)
    requires spec.schedule.Some?
  {
    && spec.policy.Forbid? && Running(c.jobs) != {}
    && spec.schedule.value(Begun(c.status, spec.schedule.value, t.now).last.value) <= t.now
  }

  /** A reconcile whose calls succeed prunes, and unless it waits stores the latest completion. */
  lemma CleanReconcile(spec: Spec, c: Cron, t: CronTurn, after: (Cron, bool)) returns (pruned: Jobs)
    requires Acts(spec, c, t) && Clean(t) && CompletedDated(c.jobs) && ReconcileTo(spec, c, t, after)
    ensures PrunedTo(c.jobs, pruned, Completed, spec.successLimit, true) && SameCompleted(pruned, after.0.jobs)
    ensures if Waits(spec, c, t) then after.0.status.lastSuccess == c.status.lastSuccess
            else IsLatest(c.jobs, c.status.lastSuccess, after.0.status.lastSuccess)
    ensures after.0.status.last.Some?
  {
    hide HistoryTo, IsLatest, Rfc3339, PrunedTo, SameCompleted, Running, TriggerTo, DropsOldest;
    var st := Begun(c.status, spec.schedule.value, t.now);
    var jobs, ok, success :| AfterHistory(spec, c, st, jobs, ok, success, t, after);
    assert ok;
    pruned := FirstPruning(spec, c.jobs, jobs);
    HistoryFacts(spec, c.jobs, jobs, true);
    CleanTrigger(spec, c.jobs, pruned, jobs, st, success, t, after);
  }

  /**
   A reconcile whose calls succeed creates a job exactly when a tick is due and, under Forbid, no job runs, unless a job
   of that name is still there.
   */
  lemma CreatesExactly(spec: Spec, c: Cron, t: CronTurn, after: (Cron, bool))
    requires Acts(spec, c, t) && Clean(t) && t.createOk && t.name !in c.jobs
    requires CompletedDated(c.jobs) && ReconcileTo(spec, c, t, after)
    ensures after.1 <==> IsDue(spec, c, t) && (spec.policy.Forbid? ==> Running(c.jobs) == {})
    ensures after.1 ==> t.name in after.0.jobs && after.0.jobs[t.name] == Job(t.name, Rfc3339(t.now), NEW_JOB)
  {
    hide HistoryTo, IsLatest, Rfc3339, Running;
    var schedule := spec.schedule.value;
    var st := Begun(c.status, schedule, t.now);
    var jobs, ok, success :| AfterHistory(spec, c, st, jobs, ok, success, t, after);
    assert ok;
    HistoryFacts(spec, c.jobs, jobs, true);
    BegunIsDue(spec, c, t);
    hide DropsOldest;
    assert t.name !in jobs;
    if spec.policy.Replace? && schedule(st.last.value) <= t.now {
      var removed :| ReplacedTo(schedule, Running(c.jobs), removed, jobs, st, st.(lastSuccess := success), t, after);
    }
  }

  lemma CleanTrigger(spec: Spec, listed: Jobs, pruned: Jobs, jobs: Jobs, st: CronStatus, success: Option<Time>,
                     t: CronTurn, after: (Cron, bool))
    requires spec.schedule.Some? && st.last.Some? && Clean(t) && SameCompleted(pruned, jobs)
    requires TriggerTo(spec.policy, spec.schedule.value, listed, jobs, st, st.(lastSuccess := success), t, after)
    requires forall n :: n in jobs ==> SameJob(listed, jobs, n)
    ensures SameCompleted(pruned, after.0.jobs) && after.0.status.last.Some?
    ensures after.0.status.lastSuccess
            == if spec.policy.Forbid? && Running(listed) != {} && spec.schedule.value(st.last.value) <= t.now
               then st.lastSuccess else success
  {
    hide SameCompleted, Rfc3339;
    var seen, schedule := st.(lastSuccess := success), spec.schedule.value;
    CompletedAfterCreate(pruned, jobs, st, seen, schedule, t);
    if spec.policy.Replace? && schedule(st.last.value) <= t.now {
      var removed :| ReplacedTo(schedule, Running(listed), removed, jobs, st, seen, t, after);
      RunningAreNotCompleted(listed, pruned, jobs);
      CompletedAfterCreate(pruned, jobs - Running(listed), st, seen, schedule, t);
    }
  }

  lemma RunningAreNotCompleted(listed: Jobs, pruned: Jobs, jobs: Jobs)
    requires SameCompleted(pruned, jobs) && forall n :: n in jobs ==> SameJob(listed, jobs, n)
    ensures SameCompleted(pruned, jobs - Running(listed))
  {
  }

  lemma FirstPruning(spec: Spec, jobs: Jobs, after: Jobs) returns (mid: Jobs)
    requires HistoryTo(spec, jobs, after, true)
    ensures PrunedTo(jobs, mid, Completed, spec.successLimit, true) && SameCompleted(mid, after)
  {
    hide PrunedTo, SameCompleted;
    var first: bool;
    mid, first :|
      && PrunedTo(jobs, mid, Completed, spec.successLimit, first)
      && if first then PrunedTo(mid, after, Failed, spec.failedLimit, true) else after == mid && false;
    FailedPruned(mid, after, spec.failedLimit);
  }

  lemma FailedPruned(jobs: Jobs, after: Jobs, limit: nat)
    requires PrunedTo(jobs, after, Failed, limit, true)
    ensures SameCompleted(jobs, after)
  {
    PruneFacts(jobs, after, Failed, limit, true);
    hide PrunedTo;
    assert forall n :: n in InPhase(after, Completed) ==> SameJob(jobs, after, n);
  }

  lemma CompletedAfterCreate(pruned: Jobs, jobs: Jobs, st: CronStatus, seen: CronStatus, schedule: Time -> Time,
                             t: CronTurn)
    requires SameCompleted(pruned, jobs)
    ensures SameCompleted(pruned, Create(jobs, st, seen, schedule, t).0.jobs)
  {
  }

  /**
   The second of two reconciles in a row, whose calls succeed and which do not wait, stores an earlier last success than
   the first exactly when the jobs before them had every job that completed last outnumbered by younger completed ones.
   */
  lemma PruningGoesBackExactly(spec: Spec, c: Cron, t: CronTurn, mid: (Cron, bool), t': CronTurn, after: (Cron, bool))
    requires Acts(spec, c, t) && Clean(t) && Clean(t') && !Waits(spec, c, t) && !Waits(spec, mid.0, t')
    requires CompletedDated(c.jobs) && DistinctCreations(c.jobs) && ReconcileTo(spec, c, t, mid)
    ensures CompletedDated(mid.0.jobs)
    ensures ReconcileTo(spec, mid.0, t', after) ==>
      (GoesBack(mid.0.status.lastSuccess, after.0.status.lastSuccess) <==> LastOutnumbered(c.jobs, spec.successLimit))
  {
    hide ReconcileTo, IsLatest, DistinctCreations, LastOutnumbered, Waits;
    var pruned := CleanReconcile(spec, c, t, mid);
    assert CompletedDated(pruned);
    assert CompletedDated(mid.0.jobs);
    if ReconcileTo(spec, mid.0, t', after) {
      var again := CleanReconcile(spec, mid.0, t', after);
      LatestOfSame(mid.0.jobs, pruned, mid.0.status.lastSuccess, after.0.status.lastSuccess);
      PruningForgetsExactly(c.jobs, pruned, spec.successLimit, c.status.lastSuccess, mid.0.status.lastSuccess,
                            after.0.status.lastSuccess);
    }
  }

  lemma LatestOfSame(a: Jobs, b: Jobs, before: Option<Time>, latest: Option<Time>)
    requires SameCompleted(b, a) && CompletedDated(a) && CompletedDated(b) && IsLatest(a, before, latest)
    ensures IsLatest(b, before, latest)
  {
    if InPhase(a, Completed) != {} {
      var n :| n in InPhase(a, Completed) && a[n].status.completedAt == latest;
      assert b[n].status.completedAt == latest;
    }
  }

  // ---------- whole runs ----------

  predicate NamedBySecond(stamp: Time -> string, jobs: Jobs) {
    forall n :: n in jobs ==> n == stamp(jobs[n].created)
  }

  lemma {:induction false} NamedAlways(spec: Spec, worlds: seq<CronWorld>, steps: seq<CronStep>, k: nat)
    requires IsCronRun(spec, worlds, steps) && k < |worlds|
    ensures NamedBySecond(spec.stamp, worlds[k].cron.jobs)
  {
    if k > 0 {
      NamedAlways(spec, worlds, steps, k - 1);
      CompletionsAreDated(spec, worlds, steps, k - 1);
      var w, step, w' := worlds[k - 1], steps[k - 1], worlds[k];
      assert CronStepTo(spec, w, step, w');
      hide IsCronRun, ReconcileTo, After, DropsOldest, Rfc3339;
      if step.Turned? {
        TurnJobs(spec, w.cron, step.t, (w'.cron, step.created));
        forall n | n in w'.cron.jobs ensures n == spec.stamp(w'.cron.jobs[n].created) {
          assert OldOrNew(w.cron.jobs, w'.cron.jobs, step.t, step.created, n);
        }
      }
    }
  }

  /** The same in every run, where jobs are named by their second and so no two share one. */
  lemma PruningGoesBackInRun(spec: Spec, worlds: seq<CronWorld>, steps: seq<CronStep>, k: nat)
    requires IsCronRun(spec, worlds, steps) && k + 1 < |steps|
    requires steps[k].Turned? && steps[k + 1].Turned? && Clean(steps[k].t) && Clean(steps[k + 1].t)
    requires Acts(spec, worlds[k].cron, steps[k].t)
    requires !Waits(spec, worlds[k].cron, steps[k].t) && !Waits(spec, worlds[k + 1].cron, steps[k + 1].t)
    ensures CompletedDated(worlds[k].cron.jobs)
    ensures GoesBack(worlds[k + 1].cron.status.lastSuccess, worlds[k + 2].cron.status.lastSuccess) <==>
      LastOutnumbered(worlds[k].cron.jobs, spec.successLimit)
  {
    CompletionsAreDated(spec, worlds, steps, k);
    CompletionsAreDated(spec, worlds, steps, k + 1);
    NamedAlways(spec, worlds, steps, k);
    assert CronStepTo(spec, worlds[k], steps[k], worlds[k + 1]);
    assert CronStepTo(spec, worlds[k + 1], steps[k + 1], worlds[k + 2]);
    hide IsCronRun, ReconcileTo, LastOutnumbered, Clean, Rfc3339, CompletedDated, Acts, Waits;
    PruningGoesBackExactly(spec, worlds[k].cron, steps[k].t, (worlds[k + 1].cron, steps[k].created), steps[k + 1].t,
                           (worlds[k + 2].cron, steps[k + 1].created));
  }

  // ---------- every policy ----------

  /** Completed jobs are left, and all of them completed before the stored success. */
  predicate Forgotten(c: Cron)
    requires CompletedDated(c.jobs)
  {
    && InPhase(c.jobs, Completed) != {} && c.status.lastSuccess.Some?
    && forall n :: n in InPhase(c.jobs, Completed) ==>
        c.jobs[n].status.completedAt.value < c.status.lastSuccess.value
  }

  /**
   Under every policy, a reconcile that stores an earlier last success found completed jobs left, all of which
   completed before the stored one; and a reconcile whose calls succeed that finds this stores an earlier one, unless
   Forbid waits.
   */
  lemma GoesBackExactly(spec: Spec, c: Cron, t: CronTurn, after: (Cron, bool))
    requires CompletedDated(c.jobs) && ReconcileTo(spec, c, t, after)
    ensures GoesBack(c.status.lastSuccess, after.0.status.lastSuccess) ==> Forgotten(c)
    ensures Acts(spec, c, t) && Clean(t) ==>
      (GoesBack(c.status.lastSuccess, after.0.status.lastSuccess) <==> Forgotten(c) && !Waits(spec, c, t))
  {
    TurnSuccess(spec, c, t, after);
    if Acts(spec, c, t) && Clean(t) {
      var _ := CleanReconcile(spec, c, t, after);
    }
    hide ReconcileTo, Waits, Clean;
  }

  /** The same in every run. */
  lemma GoesBackInRun(spec: Spec, worlds: seq<CronWorld>, steps: seq<CronStep>, k: nat)
    requires IsCronRun(spec, worlds, steps) && k < |steps|
    ensures CompletedDated(worlds[k].cron.jobs)
    ensures var c, c' := worlds[k].cron, worlds[k + 1].cron;
      && (GoesBack(c.status.lastSuccess, c'.status.lastSuccess) ==> steps[k].Turned? && Forgotten(c))
      && (steps[k].Turned? && Acts(spec, c, steps[k].t) && Clean(steps[k].t) ==>
            (GoesBack(c.status.lastSuccess, c'.status.lastSuccess) <==> Forgotten(c) && !Waits(spec, c, steps[k].t)))
  {
    CompletionsAreDated(spec, worlds, steps, k);
    assert CronStepTo(spec, worlds[k], steps[k], worlds[k + 1]);
    hide IsCronRun, ReconcileTo, Clean, Acts, Waits, Forgotten;
    if steps[k].Turned? {
      GoesBackExactly(spec, worlds[k].cron, steps[k].t, (worlds[k + 1].cron, steps[k].created));
    }
  }

  /** Step j takes the latest completed job away and leaves older ones. */
  ghost predicate LosesLatest(worlds: seq<CronWorld>, steps: seq<CronStep>, j: int)
    requires |worlds| == |steps| + 1
  {
    0 <= j < |steps| && TakesAway(worlds[j], steps[j]) && !KeepsLatest(worlds[j].cron.jobs, worlds[j + 1].cron.jobs)
  }

  /** Under Forbid and Replace the time goes back only after a step that took the latest completed job away. */
  lemma GoesBackAfterLoss(spec: Spec, worlds: seq<CronWorld>, steps: seq<CronStep>, k: nat)
    requires IsCronRun(spec, worlds, steps) && k < |steps| && !spec.policy.Allow?
    requires GoesBack(worlds[k].cron.status.lastSuccess, worlds[k + 1].cron.status.lastSuccess)
    ensures exists j :: j < k && LosesLatest(worlds, steps, j)
  {
    CompletionsAreDated(spec, worlds, steps, k);
    GoesBackInRun(spec, worlds, steps, k);
    if forall j :: j < k ==> !LosesLatest(worlds, steps, j) {
      var w, s := worlds[..k + 1], steps[..k];
      hide CronStepTo, TakesAway, KeepsLatest, Orderly;
      assert IsCronRun(spec, w, s);
      forall j | 0 <= j < |s| && TakesAway(w[j], s[j]) ensures KeepsLatest(w[j].cron.jobs, w[j + 1].cron.jobs) {
        assert !LosesLatest(worlds, steps, j);
      }
      OrderlyAlways(spec, w, s, k);
      OrderlyRemembers(spec.stamp, worlds[k]);
      assert false;
    }
  }

  lemma OrderlyRemembers(stamp: Time -> string, w: CronWorld)
    requires Orderly(stamp, w) && CompletedDated(w.cron.jobs)
    ensures !Forgotten(w.cron)
  {
    hide OneByOne, InTime;
  }
}
