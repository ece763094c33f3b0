/**
 The phases of a sync job. One reconcile may take a job through several phases, and every write of its status may fail;
 the results are about what is stored over all reconciles.
 */
module SyncPhase {
  import opened Wrappers
  import opened Kube

  datatype JobPhase = Unset | Pending | Preparing | Progressing | Failed | Completed

  datatype JobStatus = JobStatus(
    phase: JobPhase, preparingAt: Option<Time>, startAt: Option<Time>, completedAt: Option<Time>, reason: string)

  /** What the last lines of the manager's log say. */
  datatype LogResult = Unreadable | Unparsed | Counts(lost: int, failed: int)

  datatype Manager = Missing | GetFailed | Manager(phase: Phase)

  /** What one reconcile meets: the clock, the checks of the spec, the outcome of every call. */
  datatype Turn = Turn(
    deleting: bool,
    rejection: Option<string>,     // why the spec or a sink is refused
    timeout: Option<int>,          // seconds the preparation may take
    preparingAt: Time, checkedAt: Time, startedAt: Time, finishedAt: Time,
    preparingStored: bool, prepared: bool, startStored: bool,
    workersDeleted: bool, manager: Manager, log: LogResult, resultStored: bool,
    ttl: Option<int>,              // seconds a completed job is kept
    deleteOk: bool)                // deleting the expired job is accepted

  function Stored(s: JobStatus): JobStatus {
    s.(preparingAt := Whole(s.preparingAt), startAt := Whole(s.startAt), completedAt := Whole(s.completedAt))
  }

  predicate Waiting(s: JobStatus) {
    s.phase.Pending? || s.phase.Unset?
  }

  predicate TimedOut(s: JobStatus, t: Turn) {
    t.timeout.Some? && s.preparingAt.Some? && t.checkedAt - s.preparingAt.value > t.timeout.value * SECOND
  }

  /** The status once the manager pod has ended. */
  function Finished(s: JobStatus, failed: bool, log: LogResult, now: Time): JobStatus {
    var ended := s.(phase := if failed then Failed else Completed, completedAt := Some(now));
    match log
    case Unreadable => ended.(reason := "failed to get manager pod last logs")
    case Unparsed => ended.(reason := "failed to parse log")
    case Counts(lost, bad) => if lost > 0 || bad > 0 then ended.(phase := Failed) else ended
  }

  /** The status in memory and the status stored when a step is over, and whether the reconcile goes on. */
  datatype Point = Point(memory: JobStatus, stored: JobStatus, goes: bool)

  function Write(memory: JobStatus, before: JobStatus, ok: bool, goes: bool): Point {
    Point(memory, if ok then Stored(memory) else before, ok && goes)
  }

  function CheckStep(s: JobStatus, t: Turn): Point {
    if t.deleting then Point(s, s, false)
    else match t.rejection
      case Some(reason) => Write(s.(phase := Failed, reason := reason), s, t.resultStored, false)
      case None => Point(s, s, true)
  }

  function BeginStep(p: Point, t: Turn): Point {
    if p.goes && Waiting(p.memory) then
      Write(p.memory.(phase := Preparing, preparingAt := Some(t.preparingAt)), p.stored, t.preparingStored, true)
    else p
  }

  function PrepareStep(p: Point, t: Turn): Point {
    if !p.goes || !p.memory.phase.Preparing? then p
    else if TimedOut(p.memory, t) then
      Write(p.memory.(phase := Failed, reason := "preparing phase timed out"), p.stored, t.resultStored, false)
    else if !t.prepared then p.(goes := false)
    else Write(p.memory.(phase := JobPhase.Progressing, startAt := Some(t.startedAt)), p.stored, t.startStored, true)
  }

  function WatchStep(p: Point, t: Turn): Point {
    if !p.goes || !p.memory.phase.Progressing? then p
    else match t.manager
      case Missing => Write(p.memory.(phase := Failed, reason := "manager pod not found"), p.stored, t.resultStored,
          false)
      case GetFailed => p.(goes := false)
      case Manager(phase) =>
        if !t.workersDeleted || !(phase.PodSucceeded? || phase.PodFailed?) then p.(goes := false)
        else Write(Finished(p.memory, phase.PodFailed?, t.log, t.finishedAt), p.stored, t.resultStored, false)
  }

  /** What is stored after the reconcile. */
  function After(s: JobStatus, t: Turn): JobStatus {
    WatchStep(PrepareStep(BeginStep(CheckStep(s, t), t), t), t).stored
  }

  /** The reconcile finds the job completed for as long as it is to be kept, and deletes it. */
  predicate Expires(s: JobStatus, t: Turn) {
    && !t.deleting && t.rejection.None? && s.phase.Completed? && t.workersDeleted
    && t.ttl.Some? && s.completedAt.Some? && t.checkedAt - s.completedAt.value >= t.ttl.value * SECOND && t.deleteOk
  }

  lemma FinishedDiffers(s: JobStatus, failed: bool, log: LogResult, now: Time)
    requires s.phase.Progressing?
    ensures Finished(s, failed, log, now) != s
  {
  }

  class SyncReconciler {
    var stored: JobStatus
    var present: bool              // false once the job is deleted

    constructor (status: JobStatus)
      ensures stored == status && present
    {
      stored, present := status, true;
    }

    method UpdateStatus(status: JobStatus, ok: bool) returns (failed: bool)
      modifies this`stored
      ensures failed == !ok && stored == if ok then Stored(status) else old(stored)
    {
      if ok {
        stored := Stored(status);
      }
      failed := !ok;
    }

    method CalculateSyncStats(sync: JobStatus, manager: Phase, log: LogResult, now: Time) returns (status: JobStatus)
      ensures status == if manager.PodSucceeded?
          || manager.PodFailed? then Finished(sync, manager.PodFailed?, log, now) else sync
    {
      status := sync;
      if manager.PodSucceeded? || manager.PodFailed? {
        if manager.PodFailed? {
          status := status.(phase := Failed);
        } else {
          status := status.(phase := Completed);
        }
        status := status.(completedAt := Some(now));
        match log {
          case Unreadable =>
            status := status.(reason := "failed to get manager pod last logs");
          case Unparsed =>
            status := status.(reason := "failed to parse log");
          case Counts(lost, bad) =>
            if lost > 0 || bad > 0 {
              status := status.(phase := Failed);
            }
        }
      }
    }

    method Reconcile(t: Turn)
      modifies this
      ensures stored == if old(present) then After(old(stored), t) else old(stored)
      ensures present <==> old(present) && !Expires(old(stored), t)
    {
      hide Stored, TimedOut, Finished;
      if !present {
        return;
      }
      var sync := stored;
      if t.deleting {
        return;
      }
      if t.rejection.Some? {
        var _ := UpdateStatus(sync.(phase := Failed, reason := t.rejection.value), t.resultStored);
        return;
      }
      if sync.phase.Pending? || sync.phase.Unset? {
        sync := sync.(phase := Preparing, preparingAt := Some(t.preparingAt));
        var failed := UpdateStatus(sync, t.preparingStored);
        if failed {
          return;
        }
      }
      if sync.phase.Preparing? {
        if TimedOut(sync, t) {
          var _ := UpdateStatus(sync.(phase := Failed, reason := "preparing phase timed out"), t.resultStored);
          return;
        }
        if !t.prepared {
          return;
        }
        sync := sync.(phase := JobPhase.Progressing, startAt := Some(t.startedAt));
        var failed := UpdateStatus(sync, t.startStored);
        if failed {
          return;
        }
      }
      if sync.phase.Completed? {
        if !t.workersDeleted {
          return;
        }
        if t.ttl.Some? {
          if sync.completedAt.None? {
            return;
          }
          if t.checkedAt - sync.completedAt.value >= t.ttl.value * SECOND && t.deleteOk {
            present := false;
          }
          return;
        }
      }
      if sync.phase.Progressing? {
        Watch(sync, t);
      }
    }

    /** The part of a reconcile that looks at the manager pod. */
    method Watch(sync: JobStatus, t: Turn)
      requires sync.phase.Progressing?
      modifies this`stored
      ensures stored == WatchStep(Point(sync, old(stored), true), t).stored
    {
      hide Stored;
      match t.manager {
        case Missing =>
          var _ := UpdateStatus(sync.(phase := Failed, reason := "manager pod not found"), t.resultStored);
        case GetFailed =>
        case Manager(phase) =>
          if t.workersDeleted {
            var status := CalculateSyncStats(sync, phase, t.log, t.finishedAt);
            FinishedDiffers(sync, phase.PodFailed?, t.log, t.finishedAt);
            if status != sync {
              var _ := UpdateStatus(status, t.resultStored);
            }
          }
      }
    }
  }

  // ---------- what is stored over all reconciles ----------

  predicate Ended(s: JobStatus) {
    s.phase.Failed? || s.phase.Completed?
  }

  /** Every phase has the times of the steps that lead to it. */
  predicate Dated(s: JobStatus) {
    && (s.phase.Preparing? ==> s.preparingAt.Some?)
    && (s.phase.Progressing? ==> s.preparingAt.Some? && s.startAt.Some?)
    && (s.phase.Completed? ==> s.preparingAt.Some? && s.startAt.Some? && s.completedAt.Some?)
  }

  predicate IsWhole(t: Option<Time>) {
    t.Some? ==> t.value % SECOND == 0
  }

  /** The times of a stored status are whole seconds. */
  predicate WholeTimes(s: JobStatus) {
    IsWhole(s.preparingAt) && IsWhole(s.startAt) && IsWhole(s.completedAt)
  }

  lemma StoredFixed(s: JobStatus)
    ensures WholeTimes(Stored(s)) && Dated(s) == Dated(Stored(s))
    ensures WholeTimes(s) ==> Stored(s) == s
  {
  }

  /** A new job: only the default phase. */
  const NEW_JOB := JobStatus(Pending, None, None, None, "")

  ghost predicate IsHistory(statuses: seq<JobStatus>, turns: seq<Turn>) {
    && |statuses| == |turns| + 1 && statuses[0] == NEW_JOB
    && forall k :: 0 <= k < |turns| ==> statuses[k + 1] == After(statuses[k], turns[k])
  }

  predicate Sound(s: JobStatus) {
    Dated(s) && WholeTimes(s)
  }

  /** The steps of one reconcile keep the times of the phases, in memory and in store. */
  predicate SoundPoint(p: Point) {
    Dated(p.memory) && Sound(p.stored)
  }

  lemma WriteSound(memory: JobStatus, before: JobStatus, ok: bool, goes: bool)
    requires Dated(memory) && Sound(before)
    ensures SoundPoint(Write(memory, before, ok, goes))
  {
    StoredFixed(memory);
  }

  lemma CheckSound(s: JobStatus, t: Turn)
    requires Sound(s)
    ensures SoundPoint(CheckStep(s, t))
  {
  }

  lemma BeginSound(p: Point, t: Turn)
    requires SoundPoint(p)
    ensures SoundPoint(BeginStep(p, t))
  {
  }

  lemma PrepareSound(p: Point, t: Turn)
    requires SoundPoint(p)
    ensures SoundPoint(PrepareStep(p, t))
  {
    hide TimedOut;
  }

  lemma WatchSound(p: Point, t: Turn)
    requires SoundPoint(p)
    ensures SoundPoint(WatchStep(p, t))
  {
    hide Write, WholeTimes;
    forall m, ok | Dated(m) ensures SoundPoint(Write(m, p.stored, ok, false)) {
      WriteSound(m, p.stored, ok, false);
    }
  }

  lemma AfterSound(s: JobStatus, t: Turn)
    requires Sound(s)
    ensures Sound(After(s, t))
  {
    hide CheckStep, BeginStep, PrepareStep, WatchStep, Dated, WholeTimes;
    CheckSound(s, t);
    BeginSound(CheckStep(s, t), t);
    PrepareSound(BeginStep(CheckStep(s, t), t), t);
    WatchSound(PrepareStep(BeginStep(CheckStep(s, t), t), t), t);
  }

  /**
   Once a job has ended it never runs again, its end time stays, and only a refused spec can turn success into
   failure.
   */
  lemma EndedStays(s: JobStatus, t: Turn)
    requires Ended(s) && WholeTimes(s)
    ensures var after := After(s, t);
      && Ended(after) && after.completedAt == s.completedAt
      && (after != s ==> after.phase.Failed? && t.rejection == Some(after.reason))
  {
  }

  /** No run stores success without its time. */
  lemma {:induction false} CompletedIsDated(statuses: seq<JobStatus>, turns: seq<Turn>, k: nat)
    requires IsHistory(statuses, turns) && k < |statuses|
    ensures Sound(statuses[k])
  {
    hide After;
    if k > 0 {
      CompletedIsDated(statuses, turns, k - 1);
      AfterSound(statuses[k - 1], turns[k - 1]);
    }
  }

  lemma {:induction false} EndedForever(statuses: seq<JobStatus>, turns: seq<Turn>, j: nat, k: nat)
    requires IsHistory(statuses, turns) && j <= k < |statuses| && Ended(statuses[j])
    ensures Ended(statuses[k]) && statuses[k].completedAt == statuses[j].completedAt
  {
    hide After;
    if j < k {
      EndedForever(statuses, turns, j, k - 1);
      CompletedIsDated(statuses, turns, k - 1);
      EndedStays(statuses[k - 1], turns[k - 1]);
    }
  }

  /**
   A job that completed in one reconcile is deleted by a later one exactly when that finds its spec accepted, could
   delete its worker pods, comes no sooner than the job's time to live after the completion, and the deletion is
   accepted. Its status is untouched by that.
   */
  lemma DeletedAfterTtl(statuses: seq<JobStatus>, turns: seq<Turn>, j: nat, k: nat)
    requires IsHistory(statuses, turns) && j < k < |turns|
    requires !Ended(statuses[j]) && statuses[j + 1].phase.Completed? && statuses[k].phase.Completed?
    ensures statuses[k].completedAt == Some(Rfc3339(turns[j].finishedAt))
    ensures var t := turns[k];
      Expires(statuses[k], t) <==>
        && !t.deleting && t.rejection.None? && t.workersDeleted && t.deleteOk
        && t.ttl.Some? && t.checkedAt >= Rfc3339(turns[j].finishedAt) + t.ttl.value * SECOND
    ensures Expires(statuses[k], turns[k]) ==> After(statuses[k], turns[k]) == statuses[k]
  {
    CompletesExactly(statuses[j], turns[j]);
    EndedForever(statuses, turns, j + 1, k);
    CompletedIsDated(statuses, turns, k);
  }

  /** No other job is ever deleted. */
  lemma OnlyCompletedExpire(s: JobStatus, t: Turn)
    ensures Expires(s, t) ==> s.phase == Completed
  {
  }

  predicate PreparedAt(p: Point, at: Option<Time>) {
    && p.memory.preparingAt == at && p.stored.preparingAt == at && IsWhole(at)
    && !Waiting(p.memory) && !Waiting(p.stored)
  }

  /** The time of preparation is set once: the preparing timeout always counts from the first reconcile. */
  lemma PreparingKept(s: JobStatus, t: Turn)
    requires WholeTimes(s) && !Waiting(s)
    ensures After(s, t).preparingAt == s.preparingAt && !Waiting(After(s, t))
  {
    var p := CheckStep(s, t);
    assert PreparedAt(p, s.preparingAt);
    hide CheckStep, TimedOut, Finished;
    var q := BeginStep(p, t);
    assert q == p;
    var r := PrepareStep(q, t);
    assert PreparedAt(r, s.preparingAt);
    hide PrepareStep;
    FinishedKeeps(r.memory, t);
  }

  lemma FinishedKeeps(s: JobStatus, t: Turn)
    ensures forall failed :: Finished(s, failed, t.log, t.finishedAt).preparingAt == s.preparingAt
    ensures forall failed :: !Waiting(Finished(s, failed, t.log, t.finishedAt))
  {
  }

  /** The reconcile finds the job preparing, or begins its preparation. */
  predicate Prepares(s: JobStatus, t: Turn) {
    && !t.deleting && t.rejection.None?
    && (s.phase.Preparing? || ((s.phase.Pending? || s.phase.Unset?) && t.preparingStored))
  }

  /** The preparation, since it began in this reconcile or as stored, takes longer than it may. */
  predicate Overdue(s: JobStatus, t: Turn) {
    var since := if s.phase.Preparing? then s.preparingAt else Some(t.preparingAt);
    t.timeout.Some? && since.Some? && t.checkedAt > since.value + t.timeout.value * SECOND
  }

  /** The reconcile reaches the manager pod: the job runs already, or is brought there by this reconcile. */
  predicate Reaches(s: JobStatus, t: Turn) {
    || (!t.deleting && t.rejection.None? && s.phase.Progressing?)
    || (Prepares(s, t) && !Overdue(s, t) && t.prepared && t.startStored)
  }

  predicate LosesFiles(log: LogResult) {
    log.Counts? && (log.lost > 0 || log.failed > 0)
  }

  /** What a reconcile has come to before it looks at the manager pod. */
  lemma BeforeWatch(s: JobStatus, t: Turn)
    requires !Ended(s)
    ensures var p := PrepareStep(BeginStep(CheckStep(s, t), t), t);
      && (p.goes && p.memory.phase.Progressing? <==> Reaches(s, t)) && !p.stored.phase.Completed?
      && (p.stored.phase.Failed? <==>
            !t.deleting && t.resultStored && (t.rejection.Some? || (Prepares(s, t) && Overdue(s, t))))
      && (Reaches(s, t) ==> !p.stored.phase.Failed? && !t.deleting && t.rejection.None?)
  {
    hide Rfc3339, Whole;
  }

  /** A job completes exactly in a reconcile that finds its manager succeeded and no counted file lost or failed. */
  lemma CompletesExactly(s: JobStatus, t: Turn)
    requires !Ended(s)
    ensures After(s, t).phase.Completed? <==>
              && Reaches(s, t) && t.workersDeleted && t.resultStored
              && t.manager == Manager(PodSucceeded)
              && !LosesFiles(t.log)
    ensures After(s, t).phase.Completed? ==> After(s, t).completedAt == Some(Rfc3339(t.finishedAt))
  {
    BeforeWatch(s, t);
    hide Rfc3339, CheckStep, BeginStep, PrepareStep, Reaches, Overdue, Prepares;
  }

  /**
   A job fails exactly when its spec is refused, its preparation times out, or the reconcile finds no manager pod, a
   failed one, or a succeeded one that counted lost or failed files.
   */
  lemma FailsExactly(s: JobStatus, t: Turn)
    requires !Ended(s)
    ensures After(s, t).phase.Failed? <==>
              && !t.deleting && t.resultStored
              && (|| t.rejection.Some?
                  || (Prepares(s, t) && Overdue(s, t))
                  || (Reaches(s, t)
                      && (|| t.manager.Missing?
                          || (t.workersDeleted && t.manager == Manager(PodFailed))
                          || (t.workersDeleted && t.manager == Manager(PodSucceeded) && LosesFiles(t.log)))))
  {
    BeforeWatch(s, t);
    hide Rfc3339, CheckStep, BeginStep, PrepareStep, Reaches, Overdue, Prepares;
  }

  /** The times of a job are those of the reconcile that prepares it and of the one that starts it, in whole seconds. */
  lemma PhaseTimes(s: JobStatus, t: Turn)
    requires Sound(s) && !Ended(s)
    ensures (s.phase.Pending? || s.phase.Unset?) && After(s, t).phase != s.phase && t.rejection.None? ==>
              After(s, t).preparingAt == Some(Rfc3339(t.preparingAt))
    ensures !s.phase.Progressing? && (After(s, t).phase.Progressing? || After(s, t).phase.Completed?) ==>
              After(s, t).startAt == Some(Rfc3339(t.startedAt))
    ensures s.phase.Progressing? ==> After(s, t).startAt == s.startAt
  {
    BeforeWatch(s, t);
    TimesBeforeWatch(s, t);
    WatchKeepsTimes(PrepareStep(BeginStep(CheckStep(s, t), t), t), t);
    hide Rfc3339, CheckStep, BeginStep, PrepareStep, WatchStep, Reaches, Overdue, Prepares;
  }

  lemma TimesBeforeWatch(s: JobStatus, t: Turn)
    requires Sound(s) && !Ended(s)
    ensures var p := PrepareStep(BeginStep(CheckStep(s, t), t), t);
      && ((s.phase.Pending? || s.phase.Unset?) && p.stored.phase != s.phase && t.rejection.None? ==>
            p.stored.preparingAt == Some(Rfc3339(t.preparingAt)))
      && ((s.phase.Pending? || s.phase.Unset?) && p.goes && t.rejection.None? ==>
            p.memory.preparingAt == Some(t.preparingAt))
      && (!s.phase.Progressing? && p.stored.phase.Progressing? ==> p.stored.startAt == Some(Rfc3339(t.startedAt)))
      && (!s.phase.Progressing? && p.goes && p.memory.phase.Progressing? ==> p.memory.startAt == Some(t.startedAt))
      && (s.phase.Progressing? ==> p.stored.startAt == s.startAt && p.memory.startAt == s.startAt)
      && IsWhole(s.startAt)
  {
    hide Rfc3339, TimedOut;
  }

  lemma WatchKeepsTimes(p: Point, t: Turn)
    ensures var q := WatchStep(p, t).stored;
      || q == p.stored
      || (p.goes && p.memory.phase.Progressing?
          && q.preparingAt == Whole(p.memory.preparingAt) && q.startAt == Whole(p.memory.startAt))
  {
    hide Rfc3339;
  }

  /** Why a job that fails in a reconcile is said to fail; a manager that ended says so itself. */
  lemma FailureReason(s: JobStatus, t: Turn)
    requires !Ended(s) && After(s, t).phase.Failed?
    ensures var reason := After(s, t).reason;
      if t.rejection.Some? then reason == t.rejection.value
      else if Prepares(s, t) && Overdue(s, t) then reason == "preparing phase timed out"
      else if t.manager.Missing? then reason == "manager pod not found"
      else if t.log.Unreadable? then reason == "failed to get manager pod last logs"
      else if t.log.Unparsed? then reason == "failed to parse log"
      else reason == s.reason
  {
    hide Rfc3339, Whole;
  }
}
