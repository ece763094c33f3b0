/**
 Two families of runs in which the time of the last success goes back: by an expired job under Forbid, and by pruning
 under Allow. Every call in them succeeds, and nobody but the operator removes a job.
 */
module CronInstances {
  import opened Wrappers
  import opened Kube
  import Sequences
  import opened SyncPhase
  import opened CronSync
  import opened CronRuns
  import opened CronPruning

  // ---------- steps ----------

  /** A step by the operator alone, whose calls succeed. */
  ghost predicate Smooth(step: CronStep) {
    match step
    case Turned(t, _) => Clean(t) && t.firstStored && t.createOk
    case JobTurned(_, job) => job.rejection.None?
    case Removed => false
  }

  /** The world is met in a run of such steps. */
  ghost predicate Arises(spec: Spec, w: CronWorld) {
    exists worlds, steps :: SmoothRun(spec, worlds, steps) && worlds[|steps|] == w
  }

  ghost predicate SmoothRun(spec: Spec, worlds: seq<CronWorld>, steps: seq<CronStep>) {
    IsCronRun(spec, worlds, steps) && forall k :: 0 <= k < |steps| ==> Smooth(steps[k])
  }

  lemma ArisesNext(spec: Spec, w: CronWorld, step: CronStep, w': CronWorld)
    requires Arises(spec, w) && CronStepTo(spec, w, step, w') && Smooth(step)
    ensures Arises(spec, w')
  {
    hide CronStepTo, Smooth;
    var worlds, steps :| SmoothRun(spec, worlds, steps) && worlds[|steps|] == w;
    assert SmoothRun(spec, worlds + [w'], steps + [step]);
  }

  function TurnAt(spec: Spec, at: Time): CronTurn {
    CronTurn(at, spec.stamp(at), true, true, (n: string) => true, true, true)
  }

  /** The first reconcile, before the first tick. */
  lemma Begins(spec: Spec) returns (step: CronStep, w': CronWorld)
    requires !spec.suspend && spec.schedule.Some? && spec.schedule.value(0) > 0
    requires IsWhole(Some(spec.schedule.value(0)))
    ensures CronStepTo(spec, CronWorld(Cron(map[], CronStatus(None, None, None)), 0), step, w') && Smooth(step)
    ensures w' == CronWorld(Cron(map[], CronStatus(Some(0), Some(spec.schedule.value(0)), None)), 0)
  {
    var c, t := Cron(map[], CronStatus(None, None, None)), TurnAt(spec, 0);
    var st := CronStatus(Some(0), Some(spec.schedule.value(0)), None);
    step, w' := Turned(t, false), CronWorld(Cron(map[], st), 0);
    assert InPhase(map[], Completed) == {} && InPhase(map[], Failed) == {};
    assert Prunes(map[], {}, Completed, spec.successLimit, true);
    PrunedHistory(spec, map[], {});
    hide HistoryTo, Prunes;
    HistoryReconciles(spec, c, map[], true, None, t, (Cron(map[], st), false));
  }

  /** Before the next tick: jobs go by pruning, and the latest completion is stored. */
  lemma Quiet(spec: Spec, w: CronWorld, at: Time, removed: set<string>, success: Option<Time>)
    returns (step: CronStep, w': CronWorld)
    requires !spec.suspend && spec.schedule.Some? && IsWhole(Some(at)) && w.clock <= at
    requires CompletedDated(w.cron.jobs) && InPhase(w.cron.jobs, Failed) == {}
    requires w.cron.status.last.Some? && spec.schedule.value(w.cron.status.last.value) > at
    requires Prunes(w.cron.jobs, removed, Completed, spec.successLimit, true)
    requires IsLatest(w.cron.jobs, w.cron.status.lastSuccess, success)
    ensures CronStepTo(spec, w, step, w') && Smooth(step)
    ensures w' == CronWorld(Cron(w.cron.jobs - removed, w.cron.status.(lastSuccess := success)), at)
  {
    var c, t := w.cron, TurnAt(spec, at);
    var jobs := c.jobs - removed;
    var after := Cron(jobs, c.status.(lastSuccess := success));
    step, w' := Turned(t, false), CronWorld(after, at);
    PrunedHistory(spec, c.jobs, removed);
    hide HistoryTo, Prunes, IsLatest, Rfc3339;
    HistoryReconciles(spec, c, jobs, true, success, t, (after, false));
  }

  lemma PrunedHistory(spec: Spec, jobs: Jobs, removed: set<string>)
    requires InPhase(jobs, Failed) == {} && Prunes(jobs, removed, Completed, spec.successLimit, true)
    ensures HistoryTo(spec, jobs, jobs - removed, true)
  {
    var after := jobs - removed;
    assert PrunedTo(jobs, after, Completed, spec.successLimit, true);
    assert InPhase(after, Failed) == {};
    assert Prunes(after, {}, Failed, spec.failedLimit, true) && after == after - {};
    assert PrunedTo(after, after, Failed, spec.failedLimit, true);
  }

  /** At a tick: nothing is pruned, the latest completion is stored, and a job is created. */
  lemma Ticks(spec: Spec, w: CronWorld, at: Time, success: Option<Time>) returns (step: CronStep, w': CronWorld)
    requires !spec.suspend && spec.schedule.Some? && IsWhole(Some(at)) && w.clock <= at
    requires CompletedDated(w.cron.jobs) && InPhase(w.cron.jobs, Failed) == {}
    requires w.cron.status.last.Some? && spec.schedule.value(w.cron.status.last.value) <= at
    requires Prunes(w.cron.jobs, {}, Completed, spec.successLimit, true)
    requires IsLatest(w.cron.jobs, w.cron.status.lastSuccess, success)
    requires spec.policy.Allow? || (spec.policy.Forbid? && Running(w.cron.jobs) == {})
    requires spec.stamp(at) !in w.cron.jobs && IsWhole(Some(spec.schedule.value(at)))
    ensures CronStepTo(spec, w, step, w') && Smooth(step)
    ensures var name := spec.stamp(at);
      w' == CronWorld(Cron(w.cron.jobs[name := Job(name, at, NEW_JOB)],
                           CronStatus(Some(at), Some(spec.schedule.value(at)), success)), at)
  {
    var c, t := w.cron, TurnAt(spec, at);
    var seen := c.status.(lastSuccess := success);
    PrunedHistory(spec, c.jobs, {});
    assert c.jobs - {} == c.jobs;
    var after := Create(c.jobs, c.status, seen, spec.schedule.value, t);
    step, w' := Turned(t, true), CronWorld(after.0, at);
    hide HistoryTo, Prunes, IsLatest, Running;
    assert AfterHistory(spec, c, c.status, c.jobs, true, success, t, after);
    HistoryReconciles(spec, c, c.jobs, true, success, t, after);
  }

  function CompletedJob(name: string, created: Time, completed: Time): Job {
    Job(name, created, JobStatus(Completed, Some(completed), Some(completed), Some(completed), ""))
  }

  function JobTurnAt(at: Time, ttl: Option<int>): Turn {
    Turn(false, None, None, at, at, at, at, true, true, true, true, Manager(PodSucceeded), Counts(0, 0), true, ttl,
         true)
  }

  /** A new job completes in one reconcile. */
  lemma Completes(spec: Spec, w: CronWorld, name: string, at: Time) returns (step: CronStep, w': CronWorld)
    requires name in w.cron.jobs && w.cron.jobs[name].status == NEW_JOB && w.cron.jobs[name].name == name
    requires IsWhole(Some(at)) && w.clock <= at
    ensures CronStepTo(spec, w, step, w') && Smooth(step)
    ensures var jobs := w.cron.jobs;
      w' == CronWorld(w.cron.(jobs := jobs[name := CompletedJob(name, jobs[name].created, at)]), at)
  {
    step := JobTurned(name, JobTurnAt(at, None));
    w' := CronWorld(w.cron.(jobs := AfterJob(w.cron.jobs, name, step.job)), at);
  }

  /** A completed job is deleted by its own reconcile when its time to live is over. */
  lemma Expired(spec: Spec, w: CronWorld, name: string, at: Time) returns (step: CronStep, w': CronWorld)
    requires name in w.cron.jobs && w.clock <= at
    requires w.cron.jobs[name].status.phase.Completed? && w.cron.jobs[name].status.completedAt.Some?
    requires at - w.cron.jobs[name].status.completedAt.value >= MINUTE
    ensures CronStepTo(spec, w, step, w') && Smooth(step)
    ensures w' == CronWorld(w.cron.(jobs := w.cron.jobs - {name}), at)
  {
    step := JobTurned(name, JobTurnAt(at, Some(60)));
    w' := CronWorld(w.cron.(jobs := AfterJob(w.cron.jobs, name, step.job)), at);
  }

  // ---------- at most two jobs ----------

  function Two(a: Job, b: Job): Jobs {
    map[a.name := a, b.name := b]
  }

  lemma NoJobs(limit: nat)
    ensures InPhase(map[], Completed) == InPhase(map[], Failed) == {}
    ensures Running(map[]) == {} && Prunes(map[], {}, Completed, limit, true)
  {
  }

  lemma OneJob(a: Job)
    requires a.status == NEW_JOB || (a.status.phase.Completed? && a.status.completedAt.Some?)
    ensures var jobs := map[a.name := a];
      && CompletedDated(jobs) && InPhase(jobs, Failed) == {}
      && InPhase(jobs, Completed) == (if a.status.phase.Completed? then {a.name} else {})
      && Running(jobs) == (if a.status.phase.Completed? then {} else {a.name})
      && (forall limit: nat :: limit >= 1 ==> Prunes(jobs, {}, Completed, limit, true))
      && if a.status.phase.Completed? then forall before :: IsLatest(jobs, before, a.status.completedAt)
         else forall before :: IsLatest(jobs, before, before)
  {
    var jobs := map[a.name := a];
    if a.status.phase.Completed? {
      assert a.name in InPhase(jobs, Completed) && jobs[a.name].status.completedAt == a.status.completedAt;
    }
  }

  lemma TwoLess(a: Job, b: Job)
    requires a.name != b.name
    ensures Two(a, b) == Two(b, a) && Two(a, b) - {} == Two(a, b)
    ensures Two(a, b) - {a.name} == map[b.name := b] && Two(a, b) - {b.name} == map[a.name := a]
  {
  }

  lemma SecondCompleted(a: Job, b: Job, b': Job)
    requires a.name != b.name == b'.name
    ensures map[a.name := a][b.name := b][b'.name := b'] == Two(a, b')
  {
  }

  lemma FirstCompleted(a: Job, a': Job, b: Job, b': Job)
    requires a.name == a'.name != b.name == b'.name
    ensures map[a.name := a][b.name := b][b'.name := b'][a'.name := a'] == Two(a', b')
  {
  }

  predicate IsDone(j: Job) {
    j.status.phase.Completed? && j.status.completedAt.Some?
  }

  /** The later completion of two jobs that have completed. */
  lemma BothDone(a: Job, b: Job)
    requires a.name != b.name && IsDone(a) && IsDone(b)
    requires a.status.completedAt.value <= b.status.completedAt.value
    ensures var jobs := Two(a, b);
      && CompletedDated(jobs) && InPhase(jobs, Failed) == {} && Running(jobs) == {}
      && (forall before :: IsLatest(jobs, before, b.status.completedAt))
      && Prunes(jobs, {}, Completed, 2, true)
      && (a.created <= b.created ==> Prunes(jobs, {a.name}, Completed, 1, true))
      && (b.created <= a.created ==> Prunes(jobs, {b.name}, Completed, 1, true))
  {
    var jobs := Two(a, b);
    assert InPhase(jobs, Completed) == {a.name, b.name};
    assert b.name in InPhase(jobs, Completed) && jobs[b.name].status.completedAt == b.status.completedAt;
  }

  // ---------- the runs ----------

  /** The first two ticks after time 0, the times of the run between and after them, and the tick after those. */
  predicate InOrder(spec: Spec, u1: Time, u2: Time, done: seq<Time>) {
    && !spec.suspend && spec.schedule.Some?
    && var next := spec.schedule.value;
    && 0 < u1 < u2 && next(0) == u1 && next(u1) == u2
    && IsWhole(Some(u1)) && IsWhole(Some(u2)) && IsWhole(Some(next(u2)))
    && (forall k :: 0 <= k < |done| ==> IsWhole(Some(done[k])) && u1 <= done[k] < next(u2))
    && spec.stamp(u1) != spec.stamp(u2)
  }

  function Waiting(spec: Spec, u1: Time, u2: Time): CronWorld {
    var name := spec.stamp(u1);
    CronWorld(Cron(map[name := Job(name, u1, NEW_JOB)], CronStatus(Some(u1), Some(u2), None)), u1)
  }

  /** The first reconcile at time 0, and the first job at the first tick. */
  lemma Started(spec: Spec, u1: Time, u2: Time)
    requires InOrder(spec, u1, u2, []) && !spec.policy.Replace?
    ensures Arises(spec, Waiting(spec, u1, u2))
  {
    NoJobs(spec.successLimit);
    var w := CronWorld(Cron(map[], CronStatus(None, None, None)), 0);
    assert SmoothRun(spec, [w], []);
    hide CronStepTo, InPhase, Running, Prunes, Smooth;
    var first, w1 := Begins(spec);
    ArisesNext(spec, w, first, w1);
    var second, w2 := Ticks(spec, w1, u1, None);
    ArisesNext(spec, w1, second, w2);
  }

  /** Both jobs have completed. */
  function BothCompleted(spec: Spec, u1: Time, u2: Time, d1: Time, d2: Time, success: Option<Time>,
                         clock: Time): CronWorld
    requires spec.schedule.Some?
  {
    var a, b := CompletedJob(spec.stamp(u1), u1, d1), CompletedJob(spec.stamp(u2), u2, d2);
    CronWorld(Cron(Two(a, b), CronStatus(Some(u2), Some(spec.schedule.value(u2)), success)), clock)
  }

  function FirstDone(spec: Spec, u1: Time, u2: Time, d1: Time): CronWorld {
    var a := CompletedJob(spec.stamp(u1), u1, d1);
    CronWorld(Cron(map[a.name := a], CronStatus(Some(u1), Some(u2), None)), d1)
  }

  lemma FirstJobCompletes(spec: Spec, u1: Time, u2: Time, d1: Time)
    requires InOrder(spec, u1, u2, []) && !spec.policy.Replace? && IsWhole(Some(d1)) && u1 <= d1
    ensures Arises(spec, FirstDone(spec, u1, u2, d1))
  {
    var start := Waiting(spec, u1, u2);
    Started(spec, u1, u2);
    hide CronStepTo, Smooth, Arises, IsWhole, InOrder;
    var step, w := Completes(spec, start, spec.stamp(u1), d1);
    ArisesNext(spec, start, step, w);
    assert w == FirstDone(spec, u1, u2, d1);
  }

  /** Under Forbid the first job completes, the second is created at the next tick and completes. */
  lemma OneAfterTheOther(spec: Spec, u1: Time, u2: Time, d1: Time, d2: Time)
    requires InOrder(spec, u1, u2, [d1, d2]) && spec.policy.Forbid? && spec.successLimit >= 1 && d1 <= u2 <= d2
    ensures Arises(spec, BothCompleted(spec, u1, u2, d1, d2, Some(d1), d2))
  {
    var a, b := CompletedJob(spec.stamp(u1), u1, d1), CompletedJob(spec.stamp(u2), u2, d2);
    assert [d1, d2][0] == d1 && [d1, d2][1] == d2;
    OneJob(a);
    hide CronStepTo, InPhase, Running, Prunes, Smooth, Arises, IsLatest, CompletedDated, IsWhole, Two;
    FirstJobCompletes(spec, u1, u2, d1);
    var w3 := FirstDone(spec, u1, u2, d1);
    var s3, w4 := Ticks(spec, w3, u2, Some(d1));
    ArisesNext(spec, w3, s3, w4);
    var s4, w5 := Completes(spec, w4, b.name, d2);
    ArisesNext(spec, w4, s4, w5);
    SecondCompleted(a, Job(b.name, u2, NEW_JOB), b);
  }

  /**
   Under Forbid, with every call succeeding: the second job completes and is stored, expires before the first one does,
   and the next reconcile stores the completion of the first.
   */
  lemma ForbidCanGoBack(spec: Spec, u1: Time, u2: Time, d1: Time, d2: Time, seen: Time, gone: Time, back: Time)
    returns (w: CronWorld, step: CronStep, w': CronWorld)
    requires InOrder(spec, u1, u2, [d1, d2, seen, back]) && spec.policy.Forbid? && spec.successLimit >= 2
    requires d1 <= u2 <= d2 <= seen <= gone <= back && d2 + MINUTE <= gone
    ensures Arises(spec, w) && CronStepTo(spec, w, step, w') && Smooth(step)
    ensures w.cron.status.lastSuccess == Some(d2) && w'.cron.status.lastSuccess == Some(d1)
  {
    var doneA, doneB := CompletedJob(spec.stamp(u1), u1, d1), CompletedJob(spec.stamp(u2), u2, d2);
    var times := [d1, d2, seen, back];
    assert times[0] == d1 && times[1] == d2 && times[2] == seen && times[3] == back;
    OneJob(doneA);
    BothDone(doneA, doneB);
    TwoLess(doneA, doneB);
    OneAfterTheOther(spec, u1, u2, d1, d2);
    hide CronStepTo, InPhase, Running, Prunes, Smooth, Arises, IsLatest, CompletedDated, IsWhole, Two;
    var w5 := BothCompleted(spec, u1, u2, d1, d2, Some(d1), d2);
    var s5, w6 := Quiet(spec, w5, seen, {}, Some(d2));
    ArisesNext(spec, w5, s5, w6);
    var s6, w7 := Expired(spec, w6, doneB.name, gone);
    ArisesNext(spec, w6, s6, w7);
    w := w7;
    step, w' := Quiet(spec, w7, back, {}, Some(d1));
  }

  /** Under Allow the second job is created while the first one runs, and completes before it. */
  lemma Overtaken(spec: Spec, u1: Time, u2: Time, d1: Time, d2: Time)
    requires InOrder(spec, u1, u2, [d1, d2]) && spec.policy.Allow? && u2 <= d2 <= d1
    ensures Arises(spec, BothCompleted(spec, u1, u2, d1, d2, None, d1))
  {
    var a, b := spec.stamp(u1), spec.stamp(u2);
    var start := Waiting(spec, u1, u2);
    OneJob(Job(a, u1, NEW_JOB));
    Started(spec, u1, u2);
    assert [d1, d2][0] == d1 && [d1, d2][1] == d2;
    hide CronStepTo, InPhase, Running, Prunes, Smooth, Arises, IsLatest, CompletedDated, IsWhole;
    var s2, w3 := Ticks(spec, start, u2, None);
    ArisesNext(spec, start, s2, w3);
    var s3, w4 := Completes(spec, w3, b, d2);
    ArisesNext(spec, w3, s3, w4);
    var s4, w5 := Completes(spec, w4, a, d1);
    ArisesNext(spec, w4, s4, w5);
    FirstCompleted(Job(a, u1, NEW_JOB), CompletedJob(a, u1, d1), Job(b, u2, NEW_JOB), CompletedJob(b, u2, d2));
  }

  /**
   Under Allow with a limit of one, with every call succeeding: the older of two jobs completes last, is stored and
   pruned, and the next reconcile stores the completion of the younger.
   */
  lemma PruningCanForget(spec: Spec, u1: Time, u2: Time, d1: Time, d2: Time, seen: Time, back: Time)
    returns (w: CronWorld, step: CronStep, w': CronWorld)
    requires InOrder(spec, u1, u2, [d1, d2, seen, back]) && spec.policy.Allow? && spec.successLimit == 1
    requires u2 <= d2 <= d1 <= seen <= back
    ensures Arises(spec, w) && CronStepTo(spec, w, step, w') && Smooth(step)
    ensures w.cron.status.lastSuccess == Some(d1) && w'.cron.status.lastSuccess == Some(d2)
  {
    var doneA, doneB := CompletedJob(spec.stamp(u1), u1, d1), CompletedJob(spec.stamp(u2), u2, d2);
    var times := [d1, d2, seen, back];
    assert times[0] == d1 && times[1] == d2 && times[2] == seen && times[3] == back;
    OneJob(doneB);
    BothDone(doneB, doneA);
    Overtaken(spec, u1, u2, d1, d2);
    TwoLess(doneA, doneB);
    hide CronStepTo, InPhase, Running, Prunes, Smooth, Arises, IsLatest, CompletedDated, IsWhole, Two;
    var w5 := BothCompleted(spec, u1, u2, d1, d2, None, d1);
    var s5, w6 := Quiet(spec, w5, seen, {doneA.name}, Some(d1));
    ArisesNext(spec, w5, s5, w6);
    w := w6;
    step, w' := Quiet(spec, w6, back, {}, Some(d2));
  }

  // ---------- an hourly schedule ----------

  function Hourly(u: Time): Time {
    u - u % HOUR + HOUR
  }

  lemma HourlyIsCron()
    ensures IsCron((iset u: Time | u % HOUR == 0), Hourly)
  {
    var ticks := iset u: Time | u % HOUR == 0;
    hide Hourly;
    forall t ensures IsNext(ticks, t, Hourly(t)) {
      HourlyIsNext(t);
      forall u | u in ticks && u > t ensures Hourly(t) <= u {
        NextHour(t, u);
      }
    }
    forall u | u in ticks ensures u % SECOND == 0 {
      HourIsWhole(u);
    }
  }

  lemma HourIsWhole(u: Time)
    requires u % HOUR == 0
    ensures u % SECOND == 0
  {
    var seconds := (u / HOUR) * 3600;
    assert u == seconds * SECOND;
  }

  lemma HourlyIsNext(t: Time)
    ensures Hourly(t) % HOUR == 0 && Hourly(t) > t
  {
    assert Hourly(t) == (t / HOUR + 1) * HOUR;
  }

  lemma NextHour(t: Time, u: Time)
    requires u % HOUR == 0 && u > t
    ensures Hourly(t) <= u
  {
    var a, b := t / HOUR, u / HOUR;
    assert t == a * HOUR + t % HOUR && u == b * HOUR;
    assert a < b;
  }

  function HourlySpec(policy: Policy, limit: nat, stamp: Time -> string): Spec {
    Spec(false, Some(Hourly), policy, limit, 1, stamp)
  }

  /** Minutes after the second hour. */
  function Late(minutes: nat): Time {
    2 * HOUR + minutes * MINUTE
  }

  lemma WholeLate(hours: nat, minutes: nat)
    ensures IsWhole(Some(hours * HOUR + minutes * MINUTE))
  {
    assert hours * HOUR + minutes * MINUTE == (hours * 3600 + minutes * 60) * SECOND;
  }

  lemma HourlyAt(h: nat)
    ensures Hourly(h * HOUR) == (h + 1) * HOUR
  {
  }

  lemma HourlyInOrder(policy: Policy, limit: nat, stamp: Time -> string)
    requires stamp(HOUR) != stamp(2 * HOUR)
    ensures var spec := HourlySpec(policy, limit, stamp);
      && InOrder(spec, HOUR, 2 * HOUR, [HOUR + MINUTE, Late(1), Late(2), Late(4)])
      && InOrder(spec, HOUR, 2 * HOUR, [Late(2), Late(1), Late(3), Late(4)])
  {
    HourlyAt(0);
    HourlyAt(1);
    HourlyAt(2);
    WholeLate(1, 0);
    WholeLate(1, 1);
    WholeLate(3, 0);
    forall m: nat ensures IsWhole(Some(Late(m))) {
      WholeLate(2, m);
    }
    WholeLate(2, 0);
    hide IsWhole, Hourly;
  }

  /** Both happen to an hourly sync, whose schedule is a cron schedule, with any names by the second. */
  lemma HourlyGoesBack(stamp: Time -> string)
    returns (w: CronWorld, step: CronStep, w': CronWorld, v: CronWorld, next: CronStep, v': CronWorld)
    requires stamp(HOUR) != stamp(2 * HOUR)
    ensures IsCron((iset u: Time | u % HOUR == 0), Hourly)
    ensures var forbid := HourlySpec(Forbid, 2, stamp);
      && Arises(forbid, w) && CronStepTo(forbid, w, step, w') && Smooth(step)
      && GoesBack(w.cron.status.lastSuccess, w'.cron.status.lastSuccess)
    ensures var allow := HourlySpec(Allow, 1, stamp);
      && Arises(allow, v) && CronStepTo(allow, v, next, v') && Smooth(next)
      && GoesBack(v.cron.status.lastSuccess, v'.cron.status.lastSuccess)
  {
    HourlyIsCron();
    HourlyInOrder(Forbid, 2, stamp);
    HourlyInOrder(Allow, 1, stamp);
    hide CronStepTo, Arises, InOrder, Smooth, IsCron;
    w, step, w' := ForbidCanGoBack(HourlySpec(Forbid, 2, stamp), HOUR, 2 * HOUR, HOUR + MINUTE, Late(1), Late(2),
                                   Late(3), Late(4));
    v, next, v' := PruningCanForget(HourlySpec(Allow, 1, stamp), HOUR, 2 * HOUR, Late(2), Late(1), Late(3), Late(4));
  }
}
