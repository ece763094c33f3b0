/**
 Runs of a scheduled sync: reconciles of the schedule, reconciles of its jobs and removals of jobs, in any order. No
 reconcile reads a missing completion time, jobs never outnumber ticks, Forbid keeps one running job, and the time of
 the last success does not go back unless jobs may overlap or the latest completed one is taken away.

 Assumed: listings show the jobs as they are; a job carries the second of the reconcile that creates it, and its name
 spells that second; one clock. The results about ticks also assume that the schedule has a tick after every time, at a
 whole second.
 */
module CronRuns {
  import opened Wrappers
  import opened Kube
  import Sequences
  import opened SyncPhase
  import opened CronSync

  // ---------- schedules ----------

  /** The schedule gives the least tick after a time. */
  ghost predicate IsCron(ticks: iset<Time>, schedule: Time -> Time) {
    && (forall u :: u in ticks ==> u % SECOND == 0)
    && forall t :: IsNext(ticks, t, schedule(t))
  }

  ghost predicate IsNext(ticks: iset<Time>, t: Time, next: Time) {
    next in ticks && next > t && forall u :: u in ticks && u > t ==> next <= u
  }

  /** Cutting a time to the second does not change its next tick. */
  lemma NextOfWhole(ticks: iset<Time>, schedule: Time -> Time, t: Time)
    requires IsCron(ticks, schedule)
    ensures schedule(Rfc3339(t)) == schedule(t) && Rfc3339(schedule(t)) == schedule(t)
  {
    var r := Rfc3339(t);
    var a, b := schedule(r), schedule(t);
    assert IsNext(ticks, r, a) && IsNext(ticks, t, b);
    assert a % SECOND == 0 && b % SECOND == 0 && r % SECOND == 0;
    WholeAbove(r, a);
    assert a > t;
  }

  lemma WholeAbove(r: Time, a: Time)
    requires r % SECOND == 0 && a % SECOND == 0 && a > r
    ensures a >= r + SECOND
  {
    var x, y := r / SECOND, a / SECOND;
    assert r == x * SECOND && a == y * SECOND;
  }

  lemma WholeBelow(tick: Time, t: Time)
    requires tick % SECOND == 0 && tick <= t
    ensures tick <= Rfc3339(t)
  {
    if Rfc3339(t) < tick {
      WholeAbove(Rfc3339(t), tick);
    }
  }

  // ---------- runs ----------

  datatype CronWorld = CronWorld(cron: Cron, clock: Time)

  datatype CronStep = Turned(t: CronTurn, created: bool) | JobTurned(name: string, job: Turn) | Removed

  /** The jobs after a job's own reconcile, which deletes it when its time to live is over. */
  function AfterJob(jobs: Jobs, name: string, t: Turn): Jobs
    requires name in jobs
  {
    var j := jobs[name];
    if Expires(j.status, t) then jobs - {name} else jobs[name := j.(status := After(j.status, t))]
  }

  /**
   A reconcile that would read a missing completion time may do anything; CompletionsAreDated shows that there is
   none.
   */
  ghost predicate CronStepTo(spec: Spec, w: CronWorld, step: CronStep, w': CronWorld) {
    match step
    case Turned(t, created) =>
      && w.clock <= t.now <= w'.clock && t.name == spec.stamp(Rfc3339(t.now))
      && (CompletedDated(w.cron.jobs) ==> ReconcileTo(spec, w.cron, t, (w'.cron, created)))
    case JobTurned(name, job) =>
      && name in w.cron.jobs && w.clock <= job.finishedAt <= w'.clock
      && w'.cron == w.cron.(jobs := AfterJob(w.cron.jobs, name, job))
    case Removed =>
      && w.clock <= w'.clock && w'.cron.status == w.cron.status
      && forall n :: n in w'.cron.jobs ==> n in w.cron.jobs && w'.cron.jobs[n] == w.cron.jobs[n]
  }

  ghost predicate IsCronRun(spec: Spec, worlds: seq<CronWorld>, steps: seq<CronStep>) {
    && |worlds| == |steps| + 1
    && worlds[0].cron == Cron(map[], CronStatus(None, None, None))
    && forall k :: 0 <= k < |steps| ==> CronStepTo(spec, worlds[k], steps[k], worlds[k + 1])
  }

  // ---------- what one reconcile does ----------

  function NewJob(t: CronTurn): Job {
    Job(t.name, Rfc3339(t.now), NEW_JOB)
  }

  predicate SameJob(a: Jobs, b: Jobs, n: string) {
    n in a && n in b && a[n] == b[n]
  }

  /** Of the completed jobs only the oldest go. */
  predicate DropsOldest(jobs: Jobs, after: Jobs) {
    forall r, s :: r in InPhase(jobs, Completed) && s in InPhase(after, Completed) ==>
      SameJob(jobs, after, r) || (s in jobs && jobs[r].created <= jobs[s].created)
  }

  lemma PruneFacts(jobs: Jobs, after: Jobs, phase: JobPhase, limit: nat, ok: bool)
    requires PrunedTo(jobs, after, phase, limit, ok) && (phase.Completed? || phase.Failed?)
    ensures forall n :: n in after ==> SameJob(jobs, after, n)
    ensures forall n :: n in Running(jobs) ==> SameJob(jobs, after, n)
    ensures phase.Completed? ==> DropsOldest(jobs, after)
    ensures phase.Failed? ==> forall n :: n in InPhase(jobs, Completed) ==> SameJob(jobs, after, n)
  {
    var removed :| Prunes(jobs, removed, phase, limit, ok) && after == jobs - removed;
  }

  lemma HistoryFacts(spec: Spec, jobs: Jobs, after: Jobs, ok: bool)
    requires HistoryTo(spec, jobs, after, ok)
    ensures forall n :: n in after ==> SameJob(jobs, after, n)
    ensures forall n :: n in Running(jobs) ==> SameJob(jobs, after, n)
    ensures DropsOldest(jobs, after)
  {
    var mid, first :| && PrunedTo(jobs, mid, Completed, spec.successLimit, first)
                      && if first then PrunedTo(mid, after, Failed, spec.failedLimit, ok) else after == mid && !ok;
    hide PrunedTo, HistoryTo, DropsOldest;
    PruneFacts(jobs, mid, Completed, spec.successLimit, first);
    if first {
      PruneFacts(mid, after, Failed, spec.failedLimit, ok);
    }
    assert forall n :: n in InPhase(mid, Completed) ==> SameJob(mid, after, n);
    DropsOldestThen(jobs, mid, after);
  }

  lemma DropsOldestThen(jobs: Jobs, mid: Jobs, after: Jobs)
    requires DropsOldest(jobs, mid) && (forall n :: n in after ==> SameJob(mid, after, n))
    requires forall n :: n in InPhase(mid, Completed) ==> SameJob(mid, after, n)
    ensures DropsOldest(jobs, after)
  {
    forall r, s | r in InPhase(jobs, Completed) && s in InPhase(after, Completed)
      ensures SameJob(jobs, after, r) || (s in jobs && jobs[r].created <= jobs[s].created)
    {
      assert s in InPhase(mid, Completed);
    }
  }

  /** A pruning without errors leaves as many completed and failed jobs as the limits allow, and every running job. */
  lemma HistoryLimits(spec: Spec, jobs: Jobs, after: Jobs)
    requires HistoryTo(spec, jobs, after, true)
    ensures |InPhase(after, Completed)| == Min(|InPhase(jobs, Completed)|, spec.successLimit)
    ensures |InPhase(after, Failed)| == Min(|InPhase(jobs, Failed)|, spec.failedLimit)
    ensures Running(after) == Running(jobs)
  {
    HistoryFacts(spec, jobs, after, true);
    var mid, first :| PrunedTo(jobs, mid, Completed, spec.successLimit, first)
                      && if first then PrunedTo(mid, after, Failed, spec.failedLimit, true) else after == mid && false;
    hide HistoryTo, DropsOldest;
    PrunedSizes(jobs, mid, Completed, Failed, spec.successLimit);
    PrunedSizes(mid, after, Failed, Completed, spec.failedLimit);
    assert forall n :: n in Running(after) <==> n in Running(jobs);
  }

  /**
   Whatever fails, a pruning never leaves fewer completed or failed jobs than there were or the limits keep, and when
   too many completed jobs stay because a deletion failed, the failed ones are not touched.
   */
  lemma PruningKeepsEnough(spec: Spec, jobs: Jobs, after: Jobs, ok: bool)
    requires HistoryTo(spec, jobs, after, ok)
    ensures |InPhase(after, Completed)| >= Min(|InPhase(jobs, Completed)|, spec.successLimit)
    ensures |InPhase(after, Failed)| >= Min(|InPhase(jobs, Failed)|, spec.failedLimit)
    ensures |InPhase(after, Completed)| > spec.successLimit ==> InPhase(after, Failed) == InPhase(jobs, Failed) && !ok
  {
    var mid, first :| PrunedTo(jobs, mid, Completed, spec.successLimit, first)
                      && if first then PrunedTo(mid, after, Failed, spec.failedLimit, ok) else after == mid && !ok;
    hide HistoryTo, PrunedTo;
    PrunedAtMost(jobs, mid, Completed, Failed, spec.successLimit, first);
    if first {
      PrunedAtMost(mid, after, Failed, Completed, spec.failedLimit, ok);
    }
  }

  lemma PrunedAtMost(jobs: Jobs, after: Jobs, phase: JobPhase, other: JobPhase, limit: nat, ok: bool)
    requires PrunedTo(jobs, after, phase, limit, ok) && phase != other
    ensures |InPhase(after, phase)| >= Min(|InPhase(jobs, phase)|, limit)
    ensures InPhase(after, other) == InPhase(jobs, other)
    ensures ok ==> |InPhase(after, phase)| <= limit
  {
    var removed :| Prunes(jobs, removed, phase, limit, ok) && after == jobs - removed;
    assert InPhase(after, phase) == InPhase(jobs, phase) - removed;
    assert InPhase(after, other) == InPhase(jobs, other);
  }

  lemma PrunedSizes(jobs: Jobs, after: Jobs, phase: JobPhase, other: JobPhase, limit: nat)
    requires PrunedTo(jobs, after, phase, limit, true) && phase != other
    ensures |InPhase(after, phase)| == Min(|InPhase(jobs, phase)|, limit)
    ensures InPhase(after, other) == InPhase(jobs, other)
  {
    var removed :| Prunes(jobs, removed, phase, limit, true) && after == jobs - removed;
    assert InPhase(after, phase) == InPhase(jobs, phase) - removed;
    assert InPhase(after, other) == InPhase(jobs, other);
  }

  predicate OldOrNew(jobs: Jobs, after: Jobs, t: CronTurn, created: bool, n: string) {
    SameJob(jobs, after, n) || (created && n == t.name && n in after && after[n] == NewJob(t))
  }

  /** Jobs after a reconcile are old ones or the new one; a created job is there; only the oldest completed jobs go. */
  ghost predicate JobsAfter(jobs: Jobs, t: CronTurn, after: Jobs, created: bool) {
    && (forall n :: n in after ==> OldOrNew(jobs, after, t, created, n))
    && (created ==> t.name in after && after[t.name] == NewJob(t))
    && DropsOldest(jobs, after)
  }

  lemma CreateFacts(jobs: Jobs, pruned: Jobs, st: CronStatus, seen: CronStatus, schedule: Time -> Time, t: CronTurn)
    requires (forall n :: n in pruned ==> SameJob(jobs, pruned, n)) && DropsOldest(jobs, pruned)
    ensures var (after, created) := Create(pruned, st, seen, schedule, t); JobsAfter(jobs, t, after.jobs, created)
  {
    var (after, created) := Create(pruned, st, seen, schedule, t);
    assert forall n :: n in InPhase(after.jobs, Completed) ==> n in InPhase(pruned, Completed);
    assert forall n :: SameJob(jobs, pruned, n) ==> SameJob(jobs, after.jobs, n);
  }

  lemma TurnJobs(spec: Spec, c: Cron, t: CronTurn, after: (Cron, bool))
    requires CompletedDated(c.jobs) && ReconcileTo(spec, c, t, after)
    ensures JobsAfter(c.jobs, t, after.0.jobs, after.1)
  {
    hide JobsAfter, HistoryTo, IsLatest, From, Create, TriggerTo, DropsOldest;
    if after.0.jobs == c.jobs && !after.1 {
      NothingChanged(c.jobs, t);
    } else {
      var st := Begun(c.status, spec.schedule.value, t.now);
      var jobs, ok, success :| AfterHistory(spec, c, st, jobs, ok, success, t, after);
      HistoryFacts(spec, c.jobs, jobs, ok);
      if ok {
        TriggerJobs(spec.policy, spec.schedule.value, c.jobs, jobs, st, st.(lastSuccess := success), t, after);
      } else {
        NothingCreated(c.jobs, jobs, t);
      }
    }
  }

  lemma NothingChanged(jobs: Jobs, t: CronTurn)
    ensures JobsAfter(jobs, t, jobs, false)
  {
  }

  lemma NothingCreated(jobs: Jobs, pruned: Jobs, t: CronTurn)
    requires (forall n :: n in pruned ==> SameJob(jobs, pruned, n)) && DropsOldest(jobs, pruned)
    ensures JobsAfter(jobs, t, pruned, false)
  {
  }

  lemma TriggerJobs(policy: Policy, schedule: Time -> Time, listed: Jobs, jobs: Jobs, st: CronStatus, seen: CronStatus,
                    t: CronTurn, after: (Cron, bool))
    requires st.last.Some? && TriggerTo(policy, schedule, listed, jobs, st, seen, t, after)
    requires (forall n :: n in jobs ==> SameJob(listed, jobs, n)) && DropsOldest(listed, jobs)
    ensures JobsAfter(listed, t, after.0.jobs, after.1)
  {
    hide JobsAfter, Create, Running, DropsOldest;
    NothingCreated(listed, jobs, t);
    CreateFacts(listed, jobs, st, seen, schedule, t);
    if policy.Replace? && schedule(st.last.value) <= t.now {
      var removed :| ReplacedTo(schedule, Running(listed), removed, jobs, st, seen, t, after);
      RunningDropped(listed, jobs, removed);
      NothingCreated(listed, jobs - removed, t);
      CreateFacts(listed, jobs - removed, st, seen, schedule, t);
    }
  }

  lemma RunningDropped(listed: Jobs, jobs: Jobs, removed: set<string>)
    requires removed <= Running(listed)
    requires (forall n :: n in jobs ==> SameJob(listed, jobs, n)) && DropsOldest(listed, jobs)
    ensures (forall n :: n in jobs - removed ==> SameJob(listed, jobs - removed, n))
        && DropsOldest(listed, jobs - removed)
  {
  }

  /**
   The schedule times after a reconcile: taken at a creation that is stored, begun by the first reconcile, else kept.
   */
  ghost predicate TimesAfter(schedule: Time -> Time, before: CronStatus, t: CronTurn, after: CronStatus,
                             created: bool) {
    var now := From(before, schedule, t.now);
    if created && t.stored then after.last == now.last && after.next == now.next
    else if before.last.None? then
      (after.last == before.last && after.next == before.next) || (after.last == now.last && after.next == now.next)
    else after.last == before.last && after.next == before.next
  }

  lemma TurnTimes(spec: Spec, c: Cron, t: CronTurn, after: (Cron, bool))
    requires CompletedDated(c.jobs) && ReconcileTo(spec, c, t, after)
    ensures spec.schedule.Some? ==> TimesAfter(spec.schedule.value, c.status, t, after.0.status, after.1)
    ensures spec.schedule.None? ==> after == (c, false)
    ensures after.1 ==>
      spec.schedule.Some? && spec.schedule.value(Begun(c.status, spec.schedule.value, t.now).last.value) <= t.now
  {
    hide HistoryTo, IsLatest, Rfc3339, Running;
    if spec.schedule.Some? {
      var st := Begun(c.status, spec.schedule.value, t.now);
      if jobs, ok, success :| AfterHistory(spec, c, st, jobs, ok, success, t, after) {
        if ok && spec.policy.Replace? && spec.schedule.value(st.last.value) <= t.now {
          var removed :| ReplacedTo(spec.schedule.value, Running(c.jobs), removed, jobs, st,
              st.(lastSuccess := success), t, after);
        }
      }
    }
  }

  /**
   What failing calls leave undone. Without a valid schedule, or when the first status cannot be written, nothing
   happens. When the jobs cannot be listed only the first schedule times are written, and when the last write fails no
   other change of the status is.
   */
  lemma FailedCallsStop(spec: Spec, c: Cron, t: CronTurn, after: (Cron, bool))
    requires CompletedDated(c.jobs) && ReconcileTo(spec, c, t, after)
    ensures if spec.suspend || spec.schedule.None? || (c.status.last.None? && !t.firstStored) then after == (c, false)
            else
              var next := spec.schedule.value(t.now);
              var begun :=
                if c.status.last.Some? then c.status
                else CronStatus(Some(Rfc3339(t.now)), Some(Rfc3339(next)), c.status.lastSuccess);
              && (!t.listed ==> after == (Cron(c.jobs, begun), false))
              && (!t.stored ==> after.0.status == begun)
  {
    hide HistoryTo, IsLatest, Rfc3339, Running;
    if spec.schedule.Some? {
      var st := Begun(c.status, spec.schedule.value, t.now);
      if jobs, ok, success :| AfterHistory(spec, c, st, jobs, ok, success, t, after) {
        if ok && spec.policy.Replace? && spec.schedule.value(st.last.value) <= t.now {
          var removed :| ReplacedTo(spec.schedule.value, Running(c.jobs), removed, jobs, st,
              st.(lastSuccess := success), t, after);
        }
      }
    }
  }

  /** The tick after the last schedule time has come; a first reconcile counts from now. */
  predicate IsDue(spec: Spec, c: Cron, t: CronTurn)
    requires spec.schedule.Some?
  {
    spec.schedule.value(if c.status.last.Some? then c.status.last.value else Rfc3339(t.now)) <= t.now
  }

  /** Only Replace, and only at a tick, takes running jobs away. */
  lemma RunningKept(spec: Spec, c: Cron, t: CronTurn, after: (Cron, bool), n: string)
    requires CompletedDated(c.jobs) && ReconcileTo(spec, c, t, after) && n in Running(c.jobs)
    ensures SameJob(c.jobs, after.0.jobs, n) || (spec.policy.Replace? && spec.schedule.Some? && IsDue(spec, c, t))
  {
    hide HistoryTo, IsLatest, Rfc3339;
    if spec.schedule.Some? {
      var st := Begun(c.status, spec.schedule.value, t.now);
      if jobs, ok, success :| AfterHistory(spec, c, st, jobs, ok, success, t, after) {
        HistoryFacts(spec, c.jobs, jobs, ok);
        hide DropsOldest;
        BegunIsDue(spec, c, t);
      }
    }
  }

  lemma BegunIsDue(spec: Spec, c: Cron, t: CronTurn)
    requires spec.schedule.Some?
    ensures spec.schedule.value(Begun(c.status, spec.schedule.value, t.now).last.value) <= t.now <==> IsDue(spec, c, t)
  {
  }

  /** The last success is kept, or is the latest completion. */
  lemma TurnSuccess(spec: Spec, c: Cron, t: CronTurn, after: (Cron, bool))
    requires CompletedDated(c.jobs) && ReconcileTo(spec, c, t, after)
    ensures after.0.status.lastSuccess == c.status.lastSuccess
        || IsLatest(c.jobs, c.status.lastSuccess, after.0.status.lastSuccess)
  {
    hide HistoryTo, IsLatest, Rfc3339, Running;
    if spec.schedule.Some? {
      var st := Begun(c.status, spec.schedule.value, t.now);
      assert st.lastSuccess == c.status.lastSuccess;
      if jobs, ok, success :| AfterHistory(spec, c, st, jobs, ok, success, t, after) {
        if ok && spec.policy.Replace? && spec.schedule.value(st.last.value) <= t.now {
          var removed :| ReplacedTo(spec.schedule.value, Running(c.jobs), removed, jobs, st,
              st.(lastSuccess := success), t, after);
        }
      }
    }
  }

  /** Forbid creates a job only when none is running; Replace leaves only the new one running. */
  lemma TurnPolicy(spec: Spec, c: Cron, t: CronTurn, after: (Cron, bool))
    requires CompletedDated(c.jobs) && ReconcileTo(spec, c, t, after) && after.1
    ensures spec.policy.Forbid? ==> Running(c.jobs) == {}
    ensures spec.policy.Replace? ==> Running(after.0.jobs) == {t.name}
  {
    hide HistoryTo, IsLatest, Rfc3339, From;
    var schedule := spec.schedule.value;
    var st := Begun(c.status, schedule, t.now);
    var jobs, ok, success :| AfterHistory(spec, c, st, jobs, ok, success, t, after);
    if spec.policy.Replace? {
      HistoryFacts(spec, c.jobs, jobs, ok);
      var removed :| ReplacedTo(schedule, Running(c.jobs), removed, jobs, st, st.(lastSuccess := success), t, after);
      assert IsRunning(NewJob(t));
      OnlyNewRuns(c.jobs, jobs, t);
    }
  }

  lemma OnlyNewRuns(listed: Jobs, jobs: Jobs, t: CronTurn)
    requires forall n :: n in jobs ==> SameJob(listed, jobs, n)
    ensures Running((jobs - Running(listed))[t.name := NewJob(t)]) == {t.name}
  {
    var after := (jobs - Running(listed))[t.name := NewJob(t)];
    forall n ensures n in Running(after) <==> n == t.name {
      assert n in jobs ==> SameJob(listed, jobs, n);
    }
  }

  // ---------- completion times are there ----------

  predicate SoundJobs(jobs: Jobs) {
    forall n :: n in jobs ==> jobs[n].name == n && Sound(jobs[n].status) && !jobs[n].status.phase.Unset?
  }

  lemma SoundStep(spec: Spec, w: CronWorld, step: CronStep, w': CronWorld)
    requires CronStepTo(spec, w, step, w') && SoundJobs(w.cron.jobs)
    ensures SoundJobs(w'.cron.jobs) && CompletedDated(w.cron.jobs)
  {
    hide After, ReconcileTo;
    assert CompletedDated(w.cron.jobs);
    match step
    case Turned(t, created) =>
      TurnJobs(spec, w.cron, t, (w'.cron, created));
      assert forall n :: n in w'.cron.jobs ==> OldOrNew(w.cron.jobs, w'.cron.jobs, t, created, n);
    case JobTurned(name, job) =>
      var s := w.cron.jobs[name].status;
      AfterSound(s, job);
      NeverUnset(s, job);
    case Removed =>
  }

  lemma NeverUnset(s: JobStatus, t: Turn)
    requires !s.phase.Unset?
    ensures !After(s, t).phase.Unset?
  {
    hide Rfc3339, TimedOut;
  }

  /** No reconcile of a run meets a completed job without its completion time. */
  lemma {:induction false} CompletionsAreDated(spec: Spec, worlds: seq<CronWorld>, steps: seq<CronStep>, k: nat)
    requires IsCronRun(spec, worlds, steps) && k < |worlds|
    ensures SoundJobs(worlds[k].cron.jobs) && CompletedDated(worlds[k].cron.jobs)
  {
    hide CronStepTo;
    if k > 0 {
      CompletionsAreDated(spec, worlds, steps, k - 1);
      SoundStep(spec, worlds[k - 1], steps[k - 1], worlds[k]);
    }
  }

  // ---------- jobs never outnumber ticks ----------

  predicate CreatesAt(steps: seq<CronStep>, k: int) {
    0 <= k < |steps| && steps[k].Turned? && steps[k].created
  }

  function LastAt(worlds: seq<CronWorld>, k: nat): Option<Time>
    requires k < |worlds|
  {
    worlds[k].cron.status.last
  }

  /** What step k does to the schedule times. */
  lemma StepTimes(spec: Spec, worlds: seq<CronWorld>, steps: seq<CronStep>, k: nat)
    requires IsCronRun(spec, worlds, steps) && k < |steps|
    ensures var before, after := worlds[k].cron.status, worlds[k + 1].cron.status;
      if steps[k].Turned? && spec.schedule.Some? then
        && TimesAfter(spec.schedule.value, before, steps[k].t, after, steps[k].created)
        && (steps[k].created ==> spec.schedule.value(Begun(before, spec.schedule.value,
            steps[k].t.now).last.value) <= steps[k].t.now)
      else !CreatesAt(steps, k) && after.last == before.last && after.next == before.next
  {
    hide ReconcileTo, TimesAfter, After, Begun;
    CompletionsAreDated(spec, worlds, steps, k);
    assert CronStepTo(spec, worlds[k], steps[k], worlds[k + 1]);
    if steps[k].Turned? {
      TurnTimes(spec, worlds[k].cron, steps[k].t, (worlds[k + 1].cron, steps[k].created));
    }
  }

  /** A job is created only after the first reconcile, when the tick after the last schedule time has come. */
  lemma CreatedWhenDue(spec: Spec, ticks: iset<Time>, worlds: seq<CronWorld>, steps: seq<CronStep>, k: nat)
    requires IsCronRun(spec, worlds, steps) && CreatesAt(steps, k)
    requires spec.schedule.Some? && IsCron(ticks, spec.schedule.value)
    ensures LastAt(worlds, k).Some?
    ensures var tick := spec.schedule.value(LastAt(worlds, k).value); tick in ticks && tick <= steps[k].t.now
  {
    hide TimesAfter, CronStepTo;
    StepTimes(spec, worlds, steps, k);
    NextOfWhole(ticks, spec.schedule.value, steps[k].t.now);
    if LastAt(worlds, k).Some? {
      assert IsNext(ticks, LastAt(worlds, k).value, spec.schedule.value(LastAt(worlds, k).value));
    }
  }

  /** The tick a created job answers: the one after the last schedule time. */
  function TickAt(spec: Spec, worlds: seq<CronWorld>, k: nat): Time
    requires k < |worlds| && LastAt(worlds, k).Some? && spec.schedule.Some?
  {
    spec.schedule.value(LastAt(worlds, k).value)
  }

  /** The last schedule time only grows, and by a stored creation to at least its tick. */
  lemma LastGrows(spec: Spec, ticks: iset<Time>, worlds: seq<CronWorld>, steps: seq<CronStep>, k: nat)
    requires IsCronRun(spec, worlds, steps) && k < |steps| && LastAt(worlds, k).Some?
    requires spec.schedule.Some? && IsCron(ticks, spec.schedule.value)
    ensures LastAt(worlds, k + 1).Some? && LastAt(worlds, k).value <= LastAt(worlds, k + 1).value
    ensures CreatesAt(steps, k) && steps[k].t.stored ==> TickAt(spec, worlds, k) <= LastAt(worlds, k + 1).value
    ensures !(CreatesAt(steps, k) && steps[k].t.stored) ==> LastAt(worlds, k + 1) == LastAt(worlds, k)
  {
    hide CronStepTo;
    StepTimes(spec, worlds, steps, k);
    if CreatesAt(steps, k) {
      CreatedWhenDue(spec, ticks, worlds, steps, k);
      WholeBelow(TickAt(spec, worlds, k), steps[k].t.now);
    }
  }

  lemma {:induction false} LastMonotone(spec: Spec, ticks: iset<Time>, worlds: seq<CronWorld>, steps: seq<CronStep>,
                                        j: nat, k: nat)
    requires IsCronRun(spec, worlds, steps) && j <= k < |worlds| && LastAt(worlds, j).Some?
    requires spec.schedule.Some? && IsCron(ticks, spec.schedule.value)
    ensures LastAt(worlds, k).Some? && LastAt(worlds, j).value <= LastAt(worlds, k).value
    ensures (forall i :: j <= i < k ==> !CreatesAt(steps, i)) ==> LastAt(worlds, k) == LastAt(worlds, j)
  {
    assert |worlds| == |steps| + 1;
    hide IsCronRun, IsCron;
    if j < k {
      LastMonotone(spec, ticks, worlds, steps, j, k - 1);
      LastGrows(spec, ticks, worlds, steps, k - 1);
    }
  }

  /** A created job whose status write succeeded takes its tick: every later job answers a later tick. */
  lemma LaterTick(spec: Spec, ticks: iset<Time>, worlds: seq<CronWorld>, steps: seq<CronStep>, j: nat, k: nat)
    requires IsCronRun(spec, worlds, steps) && j < k && CreatesAt(steps, j) && CreatesAt(steps, k)
    requires spec.schedule.Some? && IsCron(ticks, spec.schedule.value) && steps[j].t.stored
    ensures LastAt(worlds, j).Some? && LastAt(worlds, k).Some? && TickAt(spec, worlds, j) < TickAt(spec, worlds, k)
  {
    assert |worlds| == |steps| + 1;
    CreatedWhenDue(spec, ticks, worlds, steps, j);
    CreatedWhenDue(spec, ticks, worlds, steps, k);
    LastGrows(spec, ticks, worlds, steps, j);
    LastMonotone(spec, ticks, worlds, steps, j + 1, k);
    assert IsNext(ticks, LastAt(worlds, k).value, TickAt(spec, worlds, k));
  }

  /** Two jobs created one after the other answer the same tick exactly when the status write between them was lost. */
  lemma SameTickExactly(spec: Spec, ticks: iset<Time>, worlds: seq<CronWorld>, steps: seq<CronStep>, j: nat, k: nat)
    requires IsCronRun(spec, worlds, steps) && j < k && CreatesAt(steps, j) && CreatesAt(steps, k)
    requires forall i :: j < i < k ==> !CreatesAt(steps, i)
    requires spec.schedule.Some? && IsCron(ticks, spec.schedule.value)
    ensures LastAt(worlds, j).Some? && LastAt(worlds, k).Some?
    ensures TickAt(spec, worlds, j) == TickAt(spec, worlds, k) <==> !steps[j].t.stored
  {
    assert |worlds| == |steps| + 1;
    hide IsCronRun, IsCron;
    CreatedWhenDue(spec, ticks, worlds, steps, j);
    LastGrows(spec, ticks, worlds, steps, j);
    LastMonotone(spec, ticks, worlds, steps, j + 1, k);
    if steps[j].t.stored {
      LaterTick(spec, ticks, worlds, steps, j, k);
    }
  }

  /** Every creation's status write succeeds. */
  ghost predicate Reliable(steps: seq<CronStep>) {
    forall k :: CreatesAt(steps, k) ==> steps[k].t.stored
  }

  /** Step f is the first reconcile, the one that sets the last schedule time. */
  predicate BeginsAt(worlds: seq<CronWorld>, steps: seq<CronStep>, f: nat) {
    f < |steps| < |worlds| && steps[f].Turned? && LastAt(worlds, f).None? && LastAt(worlds, f + 1).Some?
  }

  lemma {:induction false} NoneBefore(spec: Spec, ticks: iset<Time>, worlds: seq<CronWorld>, steps: seq<CronStep>,
                                      j: nat, k: nat)
    requires IsCronRun(spec, worlds, steps) && j <= k < |worlds| && LastAt(worlds, k).None?
    requires spec.schedule.Some? && IsCron(ticks, spec.schedule.value)
    ensures LastAt(worlds, j).None?
  {
    if LastAt(worlds, j).Some? {
      LastMonotone(spec, ticks, worlds, steps, j, k);
    }
  }

  /** Every created job answers a tick after the first reconcile and not after its creation. */
  lemma TickInTime(spec: Spec, ticks: iset<Time>, worlds: seq<CronWorld>, steps: seq<CronStep>, f: nat, k: nat)
    requires IsCronRun(spec, worlds, steps) && BeginsAt(worlds, steps, f) && CreatesAt(steps, k)
    requires spec.schedule.Some? && IsCron(ticks, spec.schedule.value)
    ensures LastAt(worlds, k).Some? && TickAt(spec, worlds, k) in ticks
    ensures steps[f].t.now < TickAt(spec, worlds, k) <= steps[k].t.now
  {
    CreatedWhenDue(spec, ticks, worlds, steps, k);
    if k <= f {
      NoneBefore(spec, ticks, worlds, steps, k, f);
      assert false;
    }
    StepTimes(spec, worlds, steps, f);
    LastMonotone(spec, ticks, worlds, steps, f + 1, k);
    NextOfWhole(ticks, spec.schedule.value, steps[f].t.now);
    var tick, begun := TickAt(spec, worlds, k), Rfc3339(steps[f].t.now);
    WholeAbove(begun, tick);
  }

  /** The steps before n that create a job. */
  function Creations(steps: seq<CronStep>, n: nat): set<int>
    requires n <= |steps|
  {
    set k | 0 <= k < n && CreatesAt(steps, k)
  }

  /** The set holds the ticks answered by the jobs created before step n. */
  ghost predicate AreTicksOf(spec: Spec, worlds: seq<CronWorld>, steps: seq<CronStep>, n: nat, taken: set<Time>)
    requires n <= |steps| < |worlds| && spec.schedule.Some?
  {
    forall u :: u in taken <==>
      exists k :: k in Creations(steps, n) && LastAt(worlds, k).Some? && u == TickAt(spec, worlds, k)
  }

  lemma TicksOfNext(spec: Spec, worlds: seq<CronWorld>, steps: seq<CronStep>, n: nat, taken: set<Time>)
    requires n < |steps| < |worlds| && spec.schedule.Some? && AreTicksOf(spec, worlds, steps, n, taken)
    requires CreatesAt(steps, n) && LastAt(worlds, n).Some?
    ensures AreTicksOf(spec, worlds, steps, n + 1, taken + {TickAt(spec, worlds, n)})
    ensures |Creations(steps, n + 1)| == |Creations(steps, n)| + 1
  {
    var after := taken + {TickAt(spec, worlds, n)};
    assert Creations(steps, n + 1) == Creations(steps, n) + {n};
    forall u ensures u in after <==>
        exists k :: k in Creations(steps, n + 1) && LastAt(worlds, k).Some? && u == TickAt(spec, worlds, k) {
      if u in taken {
        var k :| k in Creations(steps, n) && LastAt(worlds, k).Some? && u == TickAt(spec, worlds, k);
        assert k in Creations(steps, n + 1);
      } else if u == TickAt(spec, worlds, n) {
        assert n in Creations(steps, n + 1);
      }
    }
  }

  /** The ticks answered are pairwise different, so there are as many as jobs, and all of them were due. */
  lemma {:induction false} CreationsTakeTicks(spec: Spec, ticks: iset<Time>, worlds: seq<CronWorld>,
                                              steps: seq<CronStep>,
                                              f: nat, n: nat, until: Time, due: set<Time>) returns (taken: set<Time>)
    requires IsCronRun(spec, worlds, steps) && BeginsAt(worlds, steps, f) && Reliable(steps) && n <= |steps|
    requires spec.schedule.Some? && IsCron(ticks, spec.schedule.value)
    requires forall k :: 0 <= k < n && CreatesAt(steps, k) ==> steps[k].t.now <= until
    requires forall u :: u in ticks && steps[f].t.now < u <= until ==> u in due
    ensures taken <= due && |taken| == |Creations(steps, n)| && AreTicksOf(spec, worlds, steps, n, taken)
  {
    hide IsCronRun, IsCron, AreTicksOf, Creations;
    if n == 0 {
      taken := {};
      NoTicks(spec, worlds, steps);
      return;
    }
    var before := CreationsTakeTicks(spec, ticks, worlds, steps, f, n - 1, until, due);
    var k := n - 1;
    if CreatesAt(steps, k) {
      TickInTime(spec, ticks, worlds, steps, f, k);
      var tick := TickAt(spec, worlds, k);
      TickIsNew(spec, ticks, worlds, steps, k, before);
      taken := before + {tick};
      TicksOfNext(spec, worlds, steps, k, before);
    } else {
      taken := before;
      TicksOfSame(spec, worlds, steps, k, taken);
    }
  }

  lemma NoTicks(spec: Spec, worlds: seq<CronWorld>, steps: seq<CronStep>)
    requires |steps| < |worlds| && spec.schedule.Some?
    ensures AreTicksOf(spec, worlds, steps, 0, {}) && Creations(steps, 0) == {}
  {
  }

  lemma TicksOfSame(spec: Spec, worlds: seq<CronWorld>, steps: seq<CronStep>, n: nat, taken: set<Time>)
    requires n < |steps| < |worlds| && spec.schedule.Some? && AreTicksOf(spec, worlds, steps, n, taken)
        && !CreatesAt(steps, n)
    ensures AreTicksOf(spec, worlds, steps, n + 1, taken) && Creations(steps, n + 1) == Creations(steps, n)
  {
  }

  lemma TickIsNew(spec: Spec, ticks: iset<Time>, worlds: seq<CronWorld>, steps: seq<CronStep>, k: nat, taken: set<Time>)
    requires IsCronRun(spec, worlds, steps) && Reliable(steps) && CreatesAt(steps, k) && LastAt(worlds, k).Some?
    requires spec.schedule.Some? && IsCron(ticks, spec.schedule.value)
    requires AreTicksOf(spec, worlds, steps, k, taken)
    ensures TickAt(spec, worlds, k) !in taken
  {
    assert |worlds| == |steps| + 1;
    hide IsCronRun, IsCron;
    forall j | j in Creations(steps, k) && LastAt(worlds, j).Some?
        ensures TickAt(spec, worlds, j) != TickAt(spec, worlds, k) {
      LaterTick(spec, ticks, worlds, steps, j, k);
    }
  }

  /**
   Jobs never outnumber ticks: a set with all ticks from the first reconcile (exclusive) to a time (inclusive) has at
   least as many members as jobs were created until then.
   */
  lemma CreationsCounted(spec: Spec, ticks: iset<Time>, worlds: seq<CronWorld>, steps: seq<CronStep>,
                         f: nat, n: nat, until: Time, due: set<Time>)
    requires IsCronRun(spec, worlds, steps) && BeginsAt(worlds, steps, f) && Reliable(steps) && n <= |steps|
    requires spec.schedule.Some? && IsCron(ticks, spec.schedule.value)
    requires forall k :: 0 <= k < n && CreatesAt(steps, k) ==> steps[k].t.now <= until
    requires forall u :: u in ticks && steps[f].t.now < u <= until ==> u in due
    ensures |Creations(steps, n)| <= |due|
  {
    var taken := CreationsTakeTicks(spec, ticks, worlds, steps, f, n, until, due);
    Sequences.SubsetSize(taken, due);
  }

  /** Next is always the tick after last. */
  lemma {:induction false} NextFollowsLast(spec: Spec, ticks: iset<Time>, worlds: seq<CronWorld>,
                                           steps: seq<CronStep>, k: nat)
    requires IsCronRun(spec, worlds, steps) && k < |worlds|
    requires spec.schedule.Some? && IsCron(ticks, spec.schedule.value)
    ensures LastAt(worlds, k).None? ==> worlds[k].cron.status.next.None?
    ensures LastAt(worlds, k).Some? ==> worlds[k].cron.status.next == Some(TickAt(spec, worlds, k))
  {
    hide CronStepTo, IsCron;
    if k > 0 {
      NextFollowsLast(spec, ticks, worlds, steps, k - 1);
      StepTimes(spec, worlds, steps, k - 1);
      if steps[k - 1].Turned? {
        NextOfWhole(ticks, spec.schedule.value, steps[k - 1].t.now);
      }
    }
  }

  // ---------- at most one running job ----------

  lemma RunningStep(spec: Spec, w: CronWorld, step: CronStep, w': CronWorld)
    requires CronStepTo(spec, w, step, w') && SoundJobs(w.cron.jobs) && spec.policy.Forbid?
    ensures Running(w'.cron.jobs) <= Running(w.cron.jobs)
            || (step.Turned? && step.created && Running(w.cron.jobs) == {} && Running(w'.cron.jobs) <= {step.t.name})
  {
    hide After, ReconcileTo;
    assert CompletedDated(w.cron.jobs);
    match step
    case Turned(t, created) =>
      TurnJobs(spec, w.cron, t, (w'.cron, created));
      if created {
        TurnPolicy(spec, w.cron, t, (w'.cron, created));
      }
      hide DropsOldest;
      assert forall n :: n in w'.cron.jobs ==> OldOrNew(w.cron.jobs, w'.cron.jobs, t, created, n);
    case JobTurned(name, job) =>
      var s := w.cron.jobs[name].status;
      if Ended(s) {
        EndedStays(s, job);
      }
    case Removed =>
  }

  /** Under Forbid no more than one job is ever running. */
  lemma {:induction false} ForbidKeepsOne(spec: Spec, worlds: seq<CronWorld>, steps: seq<CronStep>, k: nat)
    requires IsCronRun(spec, worlds, steps) && k < |worlds| && spec.policy.Forbid?
    ensures forall a, b :: a in Running(worlds[k].cron.jobs) && b in Running(worlds[k].cron.jobs) ==> a == b
  {
    hide CronStepTo, Running;
    if k == 0 {
      assert Running(worlds[0].cron.jobs) == {} by { NoneRuns(worlds[0].cron.jobs); }
    } else {
      ForbidKeepsOne(spec, worlds, steps, k - 1);
      CompletionsAreDated(spec, worlds, steps, k - 1);
      RunningStep(spec, worlds[k - 1], steps[k - 1], worlds[k]);
    }
  }

  lemma NoneRuns(jobs: Jobs)
    requires jobs == map[]
    ensures Running(jobs) == {}
  {
  }

  /** Under Replace a trigger leaves only the new job running. */
  lemma ReplaceLeavesNew(spec: Spec, worlds: seq<CronWorld>, steps: seq<CronStep>, k: nat)
    requires IsCronRun(spec, worlds, steps) && CreatesAt(steps, k) && spec.policy.Replace?
    ensures Running(worlds[k + 1].cron.jobs) == {steps[k].t.name}
  {
    hide ReconcileTo, Running;
    CompletionsAreDated(spec, worlds, steps, k);
    assert CronStepTo(spec, worlds[k], steps[k], worlds[k + 1]);
    TurnPolicy(spec, worlds[k].cron, steps[k].t, (worlds[k + 1].cron, true));
  }

  // ---------- the last success when jobs do not overlap ----------

  /** Jobs run one after the other: an older job has ended, and completed before the younger was created. */
  ghost predicate OneByOne(jobs: Jobs) {
    forall a, b :: a in jobs && b in jobs && a != b && jobs[a].created <= jobs[b].created ==>
      && jobs[a].created < jobs[b].created
      && !IsRunning(jobs[a])
      && (a in InPhase(jobs, Completed) && jobs[a].status.completedAt.Some? ==>
          jobs[a].status.completedAt.value <= jobs[b].created)
  }

  /** Jobs carry the name of their second, and completed between their creation and now. */
  predicate InTime(jobs: Jobs, stamp: Time -> string, clock: Time) {
    && (forall n :: n in jobs ==> n == stamp(jobs[n].created) && jobs[n].created <= Rfc3339(clock))
    && forall n :: n in InPhase(jobs, Completed) ==>
         && jobs[n].status.completedAt.Some?
         && jobs[n].created <= jobs[n].status.completedAt.value <= Rfc3339(clock)
  }

  /**
   No later success than the known one is forgotten: a job that completed as late is there, or no completed job is.
   */
  ghost predicate SuccessKnown(jobs: Jobs, success: Option<Time>, clock: Time) {
    success.Some? ==>
      && success.value <= Rfc3339(clock)
      && (InPhase(jobs, Completed) == {} || exists n :: CompletedBy(jobs, n, success.value))
  }

  predicate CompletedBy(jobs: Jobs, n: string, t: Time) {
    n in InPhase(jobs, Completed) && jobs[n].status.completedAt.Some? && t <= jobs[n].status.completedAt.value
  }

  ghost predicate Orderly(stamp: Time -> string, w: CronWorld) {
    && OneByOne(w.cron.jobs) && InTime(w.cron.jobs, stamp, w.clock)
    && SuccessKnown(w.cron.jobs, w.cron.status.lastSuccess, w.clock)
  }

  /** Of the completed jobs, all go or one that completed latest stays. */
  ghost predicate KeepsLatest(jobs: Jobs, after: Jobs) {
    || InPhase(after, Completed) == {}
    || forall c, t :: CompletedBy(jobs, c, t) ==> exists d :: CompletedBy(after, d, t)
  }

  /** A step that may take completed jobs away: removals by others, and a job that expires or is refused. */
  predicate TakesAway(w: CronWorld, step: CronStep) {
    || step.Removed?
    || (step.JobTurned? && step.name in w.cron.jobs
        && (step.job.rejection.Some? || Expires(w.cron.jobs[step.name].status, step.job)))
  }

  /** No step takes the latest completed job away and leaves older ones. */
  ghost predicate Considerate(worlds: seq<CronWorld>, steps: seq<CronStep>)
    requires |worlds| == |steps| + 1
  {
    forall k :: 0 <= k < |steps| && TakesAway(worlds[k], steps[k]) ==>
      KeepsLatest(worlds[k].cron.jobs, worlds[k + 1].cron.jobs)
  }

  lemma TurnedInTime(jobs: Jobs, after: Jobs, t: CronTurn, created: bool, stamp: Time -> string, clock: Time,
                     clock': Time)
    requires JobsAfter(jobs, t, after, created) && InTime(jobs, stamp, clock)
    requires clock <= t.now <= clock' && t.name == stamp(Rfc3339(t.now))
    ensures InTime(after, stamp, clock')
  {
    Rfc3339Monotone(clock, clock');
    Rfc3339Monotone(t.now, clock');
    forall n | n in after
      ensures n == stamp(after[n].created) && after[n].created <= Rfc3339(clock')
      ensures n in InPhase(after, Completed) ==> n in InPhase(jobs, Completed) && after[n] == jobs[n]
    {
      assert OldOrNew(jobs, after, t, created, n);
    }
  }

  /** A job created while no other runs is younger than all others: in the same second it would have their name. */
  lemma TurnedOneByOne(jobs: Jobs, after: Jobs, t: CronTurn, created: bool, stamp: Time -> string, clock: Time)
    requires JobsAfter(jobs, t, after, created) && InTime(jobs, stamp, clock) && OneByOne(jobs)
    requires clock <= t.now && t.name == stamp(Rfc3339(t.now))
    requires created ==> forall a :: a in after && a != t.name ==> !IsRunning(after[a])
    ensures OneByOne(after)
  {
    Rfc3339Monotone(clock, t.now);
    forall a, b | a in after && b in after && a != b && after[a].created <= after[b].created
      ensures after[a].created < after[b].created && !IsRunning(after[a])
      ensures a in InPhase(after, Completed) && after[a].status.completedAt.Some? ==>
          after[a].status.completedAt.value <= after[b].created
    {
      assert OldOrNew(jobs, after, t, created, a) && OldOrNew(jobs, after, t, created, b);
    }
  }

  lemma TurnedSuccess(jobs: Jobs, after: Jobs, t: CronTurn, created: bool, stamp: Time -> string, before: Option<Time>,
                      success: Option<Time>, clock: Time, clock': Time)
    requires JobsAfter(jobs, t, after, created) && OneByOne(jobs) && InTime(jobs, stamp, clock) && clock <= clock'
    requires SuccessKnown(jobs, before, clock) && CompletedDated(jobs)
    requires success == before || IsLatest(jobs, before, success)
    ensures SuccessKnown(after, success, clock')
    ensures before.Some? ==> success.Some? && before.value <= success.value
  {
    Rfc3339Monotone(clock, clock');
    if InPhase(jobs, Completed) != {} && success.Some? {
      if success != before {
        var m :| m in InPhase(jobs, Completed) && jobs[m].status.completedAt == success;
        assert CompletedBy(jobs, m, success.value);
      }
      var c :| CompletedBy(jobs, c, success.value);
      if s :| s in InPhase(after, Completed) {
        assert OldOrNew(jobs, after, t, created, s);
        LatestOrLater(jobs, after, c, s, success.value);
      }
    } else {
      forall s | s in InPhase(after, Completed) ensures s in InPhase(jobs, Completed) {
        assert OldOrNew(jobs, after, t, created, s);
      }
    }
  }

  lemma LatestOrLater(jobs: Jobs, after: Jobs, c: string, s: string, t: Time)
    requires CompletedBy(jobs, c, t) && OneByOne(jobs) && DropsOldest(jobs, after)
    requires s in InPhase(after, Completed) && SameJob(jobs, after, s)
    requires jobs[s].status.completedAt.Some? && jobs[s].created <= jobs[s].status.completedAt.value
    ensures CompletedBy(after, c, t) || CompletedBy(after, s, t)
  {
  }

  /** Under a policy other than Allow nothing runs beside a job when it is created. */
  lemma CreatedAlone(spec: Spec, c: Cron, t: CronTurn, after: (Cron, bool))
    requires CompletedDated(c.jobs) && ReconcileTo(spec, c, t, after) && after.1 && !spec.policy.Allow?
    ensures forall a :: a in after.0.jobs && a != t.name ==> !IsRunning(after.0.jobs[a])
  {
    hide ReconcileTo, DropsOldest;
    TurnPolicy(spec, c, t, after);
    TurnJobs(spec, c, t, after);
    forall a | a in after.0.jobs && a != t.name ensures !IsRunning(after.0.jobs[a]) {
      assert OldOrNew(c.jobs, after.0.jobs, t, after.1, a);
      assert a in Running(after.0.jobs) <==> IsRunning(after.0.jobs[a]);
    }
  }

  lemma TurnedOrderly(spec: Spec, w: CronWorld, step: CronStep, w': CronWorld)
    requires CronStepTo(spec, w, step, w') && step.Turned? && !spec.policy.Allow?
    requires CompletedDated(w.cron.jobs) && Orderly(spec.stamp, w)
    ensures Orderly(spec.stamp, w')
    ensures var before, after := w.cron.status.lastSuccess, w'.cron.status.lastSuccess;
      before.Some? ==> after.Some? && before.value <= after.value
  {
    hide OneByOne, InTime, SuccessKnown, ReconcileTo, JobsAfter, IsLatest;
    var t, created := step.t, step.created;
    TurnJobs(spec, w.cron, t, (w'.cron, created));
    TurnSuccess(spec, w.cron, t, (w'.cron, created));
    if created {
      CreatedAlone(spec, w.cron, t, (w'.cron, created));
    }
    TurnedInTime(w.cron.jobs, w'.cron.jobs, t, created, spec.stamp, w.clock, w'.clock);
    TurnedOneByOne(w.cron.jobs, w'.cron.jobs, t, created, spec.stamp, w.clock);
    TurnedSuccess(w.cron.jobs, w'.cron.jobs, t, created, spec.stamp, w.cron.status.lastSuccess,
                  w'.cron.status.lastSuccess, w.clock, w'.clock);
  }

  /** What a job's reconcile may do to its status, as far as the order of jobs is concerned. */
  predicate Advances(s: JobStatus, s': JobStatus, rejected: bool, low: Time, high: Time) {
    if Ended(s) then s' == s || (rejected && s'.phase.Failed? && s'.completedAt == s.completedAt)
    else s'.phase.Completed? ==> s'.completedAt.Some? && low <= s'.completedAt.value <= high
  }

  lemma AfterAdvances(s: JobStatus, t: Turn, clock: Time, clock': Time)
    requires Sound(s) && clock <= t.finishedAt <= clock'
    ensures Advances(s, After(s, t), t.rejection.Some?, Rfc3339(clock), Rfc3339(clock'))
  {
    hide After, Reaches;
    Rfc3339Monotone(clock, t.finishedAt);
    Rfc3339Monotone(t.finishedAt, clock');
    hide Rfc3339;
    if Ended(s) {
      EndedStays(s, t);
    } else {
      CompletesExactly(s, t);
    }
  }

  /** One job's status advances, everything else stays. */
  predicate AdvancesOne(jobs: Jobs, after: Jobs, name: string, rejected: bool, low: Time, high: Time) {
    && after.Keys == jobs.Keys && name in jobs
    && (forall n :: n in after ==> after[n].created == jobs[n].created && (n != name ==> after[n] == jobs[n]))
    && Advances(jobs[name].status, after[name].status, rejected, low, high)
  }

  /** A job's own reconcile keeps the order of jobs. */
  lemma JobTurnedOrderly(spec: Spec, w: CronWorld, step: CronStep, w': CronWorld)
    requires CronStepTo(spec, w, step, w') && step.JobTurned? && SoundJobs(w.cron.jobs) && Orderly(spec.stamp, w)
    requires !Expires(w.cron.jobs[step.name].status, step.job)
    requires step.job.rejection.Some? ==> KeepsLatest(w.cron.jobs, w'.cron.jobs)
    ensures Orderly(spec.stamp, w')
  {
    hide Expires, After, Advances, KeepsLatest, SuccessKnown, InTime, OneByOne;
    var jobs, after, name, t := w.cron.jobs, w'.cron.jobs, step.name, step.job;
    AfterAdvances(jobs[name].status, t, w.clock, w'.clock);
    Rfc3339Monotone(w.clock, w'.clock);
    hide Rfc3339;
    assert AdvancesOne(jobs, after, name, t.rejection.Some?, Rfc3339(w.clock), Rfc3339(w'.clock));
    hide AdvancesOne;
    JobTurnedOneByOne(jobs, after, name, t.rejection.Some?, spec.stamp, w.clock, w'.clock);
    JobTurnedSuccess(jobs, after, name, w.cron.status.lastSuccess, w.clock, w'.clock, t.rejection.Some?);
  }

  lemma JobTurnedOneByOne(jobs: Jobs, after: Jobs, name: string, rejected: bool, stamp: Time -> string, clock: Time,
                          clock': Time)
    requires AdvancesOne(jobs, after, name, rejected, Rfc3339(clock), Rfc3339(clock'))
        && Rfc3339(clock) <= Rfc3339(clock')
    requires OneByOne(jobs) && InTime(jobs, stamp, clock) && !jobs[name].status.phase.Unset?
    ensures OneByOne(after) && InTime(after, stamp, clock')
  {
    hide Rfc3339;
    forall a, b | a in after && b in after && a != b && after[a].created <= after[b].created
      ensures after[a].created < after[b].created && !IsRunning(after[a])
      ensures a in InPhase(after, Completed) && after[a].status.completedAt.Some? ==>
          after[a].status.completedAt.value <= after[b].created
    {
      assert jobs[a].created < jobs[b].created && !IsRunning(jobs[a]);
      OlderEnded(jobs, after, name, rejected, Rfc3339(clock), Rfc3339(clock'), a);
    }
    hide OneByOne;
    forall n | n in after
      ensures n in InPhase(after, Completed) ==>
                after[n].status.completedAt.Some?
                    && after[n].created <= after[n].status.completedAt.value <= Rfc3339(clock')
    {
      if n != name {
        assert n in InPhase(after, Completed) ==> n in InPhase(jobs, Completed);
      }
    }
  }

  /** A job that has ended, or is not the one that advances, has its old status or is spoiled. */
  lemma OlderEnded(jobs: Jobs, after: Jobs, name: string, rejected: bool, low: Time, high: Time, a: string)
    requires AdvancesOne(jobs, after, name, rejected, low, high) && a in jobs && (a == name ==> Ended(jobs[a].status))
    ensures after[a].created == jobs[a].created
    ensures after[a].status == jobs[a].status || after[a].status.phase.Failed?
  {
  }

  lemma JobTurnedSuccess(jobs: Jobs, after: Jobs, name: string, success: Option<Time>, clock: Time, clock': Time,
                         rejected: bool)
    requires AdvancesOne(jobs, after, name, rejected, Rfc3339(clock), Rfc3339(clock'))
        && Rfc3339(clock) <= Rfc3339(clock')
    requires SuccessKnown(jobs, success, clock)
    requires rejected ==> KeepsLatest(jobs, after)
    ensures SuccessKnown(after, success, clock')
  {
    hide Rfc3339;
    if success.Some? && InPhase(after, Completed) != {} {
      if InPhase(jobs, Completed) == {} {
        var d :| d in InPhase(after, Completed);
        assert d == name || d in InPhase(jobs, Completed);
        assert CompletedBy(after, name, success.value);
      } else {
        var c :| CompletedBy(jobs, c, success.value);
        if c != name {
          assert CompletedBy(after, c, success.value);
        } else if rejected {
          var d :| CompletedBy(after, d, success.value);
        } else {
          assert CompletedBy(after, name, success.value);
        }
      }
    }
  }

  lemma RemovedOrderly(spec: Spec, w: CronWorld, w': CronWorld)
    requires w.clock <= w'.clock && w'.cron.status == w.cron.status && Orderly(spec.stamp, w)
    requires forall n :: n in w'.cron.jobs ==> SameJob(w.cron.jobs, w'.cron.jobs, n)
    requires KeepsLatest(w.cron.jobs, w'.cron.jobs)
    ensures Orderly(spec.stamp, w')
  {
    Rfc3339Monotone(w.clock, w'.clock);
    hide Rfc3339;
    RemovedOneByOne(w.cron.jobs, w'.cron.jobs, spec.stamp, w.clock, w'.clock);
    hide OneByOne, InTime;
    var jobs, after, success := w.cron.jobs, w'.cron.jobs, w.cron.status.lastSuccess;
    assert forall n :: n in InPhase(after, Completed) ==> n in InPhase(jobs, Completed);
    if success.Some? && InPhase(after, Completed) != {} {
      var c :| CompletedBy(jobs, c, success.value);
      var d :| CompletedBy(after, d, success.value);
    }
  }

  lemma RemovedOneByOne(jobs: Jobs, after: Jobs, stamp: Time -> string, clock: Time, clock': Time)
    requires forall n :: n in after ==> SameJob(jobs, after, n)
    requires OneByOne(jobs) && InTime(jobs, stamp, clock) && Rfc3339(clock) <= Rfc3339(clock')
    ensures OneByOne(after) && InTime(after, stamp, clock')
  {
    hide Rfc3339;
  }

  lemma {:induction false} OrderlyAlways(spec: Spec, worlds: seq<CronWorld>, steps: seq<CronStep>, k: nat)
    requires IsCronRun(spec, worlds, steps) && k < |worlds| && Considerate(worlds, steps) && !spec.policy.Allow?
    ensures Orderly(spec.stamp, worlds[k])
  {
    if k == 0 {
      return;
    }
    OrderlyAlways(spec, worlds, steps, k - 1);
    CompletionsAreDated(spec, worlds, steps, k - 1);
    assert CronStepTo(spec, worlds[k - 1], steps[k - 1], worlds[k]);
    hide Orderly, KeepsLatest, SoundJobs, CompletedDated, ReconcileTo, After, Expires;
    match steps[k - 1]
    case Turned(_, _) => TurnedOrderly(spec, worlds[k - 1], steps[k - 1], worlds[k]);
    case JobTurned(name, job) =>
      if Expires(worlds[k - 1].cron.jobs[name].status, job) {
        RemovedOrderly(spec, worlds[k - 1], worlds[k]);
      } else {
        JobTurnedOrderly(spec, worlds[k - 1], steps[k - 1], worlds[k]);
      }
    case Removed => RemovedOrderly(spec, worlds[k - 1], worlds[k]);
  }

  lemma SuccessStep(spec: Spec, worlds: seq<CronWorld>, steps: seq<CronStep>, k: nat)
    requires IsCronRun(spec, worlds, steps) && k < |steps| && Considerate(worlds, steps) && !spec.policy.Allow?
    ensures var before, after := worlds[k].cron.status.lastSuccess, worlds[k + 1].cron.status.lastSuccess;
      before.Some? ==> after.Some? && before.value <= after.value
  {
    hide Orderly, ReconcileTo, After;
    assert CronStepTo(spec, worlds[k], steps[k], worlds[k + 1]);
    if steps[k].Turned? {
      OrderlyAlways(spec, worlds, steps, k);
      CompletionsAreDated(spec, worlds, steps, k);
      TurnedOrderly(spec, worlds[k], steps[k], worlds[k + 1]);
    }
  }

  /** Under Forbid and Replace the time of the last success never goes back, even when status writes are lost. */
  lemma {:induction false} SuccessNeverGoesBack(spec: Spec, worlds: seq<CronWorld>, steps: seq<CronStep>, j: nat,
                                                k: nat)
    requires IsCronRun(spec, worlds, steps) && j <= k < |worlds| && Considerate(worlds, steps) && !spec.policy.Allow?
    requires worlds[j].cron.status.lastSuccess.Some?
    ensures worlds[k].cron.status.lastSuccess.Some?
    ensures worlds[j].cron.status.lastSuccess.value <= worlds[k].cron.status.lastSuccess.value
  {
    hide CronStepTo;
    if j < k {
      SuccessNeverGoesBack(spec, worlds, steps, j, k - 1);
      SuccessStep(spec, worlds, steps, k - 1);
    }
  }
}
