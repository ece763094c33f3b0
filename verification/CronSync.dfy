/**
 Scheduled syncs: when a job is due, what the concurrency policy does with running jobs, and the pruning of old ones.

 The jobs of the schedule are a map by name. Sorting is specified only up to ties, so every order of jobs with equal
 times is covered.
 */
module CronSync {
  import opened Wrappers
  import opened Kube
  import Sequences
  import opened SyncPhase

  // ---------- jobs ----------

  datatype Job = Job(name: string, created: Time, status: JobStatus)

  type Jobs = map<string, Job>

  predicate WellNamed(jobs: Jobs) {
    forall n :: n in jobs ==> jobs[n].name == n
  }

  predicate DistinctJobs(s: seq<Job>) {
    forall i, j :: 0 <= i < j < |s| ==> s[i].name != s[j].name
  }

  /** A listing of the jobs, in any order. */
  ghost predicate Lists(listed: seq<Job>, jobs: Jobs) {
    && DistinctJobs(listed)
    && (forall j :: j in listed ==> j.name in jobs && jobs[j.name] == j)
    && forall n :: n in jobs ==> jobs[n] in listed && jobs[n].name == n
  }

  function InPhase(jobs: Jobs, phase: JobPhase): set<string> {
    set n | n in jobs && jobs[n].status.phase == phase
  }

  predicate IsRunning(j: Job) {
    j.status.phase.Pending? || j.status.phase.Preparing? || j.status.phase.Progressing?
  }

  function Running(jobs: Jobs): set<string> {
    set n | n in jobs && IsRunning(jobs[n])
  }

  /** Every completed job has the time of its completion. */
  predicate CompletedDated(jobs: Jobs) {
    forall n :: n in InPhase(jobs, Completed) ==> jobs[n].status.completedAt.Some?
  }

  // ---------- lists of jobs ----------

  function NamesOf(s: seq<Job>): set<string> {
    set j | j in s :: j.name
  }

  lemma {:induction false} NamesCount(s: seq<Job>)
    requires DistinctJobs(s)
    ensures |NamesOf(s)| == |s|
  {
    if s == [] {
      assert NamesOf(s) == {};
    } else {
      var init, last := s[..|s| - 1], s[|s| - 1];
      NamesCount(init);
      assert s == init + [last];
      assert NamesOf(s) == NamesOf(init) + {last.name};
      assert last.name !in NamesOf(init);
    }
  }

  function NameOf(j: Job): string { j.name }

  /** One way sort.Slice may arrange the jobs; only IsSorted is used of it. */
  function SortBy(s: seq<Job>, key: Job -> Time): seq<Job> {
    Sequences.StableSort(s, (a: Job, b: Job) => key(a) <= key(b))
  }

  predicate Ascending(s: seq<Job>, key: Job -> Time) {
    forall i, j :: 0 <= i < j < |s| ==> key(s[i]) <= key(s[j])
  }

  ghost predicate IsSorted(s: seq<Job>, r: seq<Job>, key: Job -> Time) {
    && Ascending(r, key) && |r| == |s| && DistinctJobs(r)
    && forall j :: j in r <==> j in s
  }

  lemma SortBySorts(s: seq<Job>, key: Job -> Time)
    requires DistinctJobs(s)
    ensures IsSorted(s, SortBy(s, key), key)
  {
    var leq := (a: Job, b: Job) => key(a) <= key(b);
    var r := Sequences.StableSort(s, leq);
    assert r == SortBy(s, key);
    assert Sequences.DistinctBy(s, NameOf);
    Sequences.SortAscending(s, leq);
    Sequences.SortDistinct(s, leq, NameOf);
    assert forall i, j :: 0 <= i < j < |r| ==> leq(r[i], r[j]) && NameOf(r[i]) != NameOf(r[j]);
  }

  /** lo.GroupBy on the phase: the jobs of one phase in their order. */
  function GroupBy(listed: seq<Job>, phase: JobPhase): seq<Job> {
    Sequences.Filter(listed, (j: Job) => j.status.phase == phase)
  }

  lemma FilteredJobs(listed: seq<Job>, p: Job -> bool)
    requires DistinctJobs(listed)
    ensures DistinctJobs(Sequences.Filter(listed, p)) && forall j :: j in Sequences.Filter(listed, p) <==>
        j in listed && p(j)
  {
    assert Sequences.DistinctBy(listed, NameOf);
    Sequences.FilterDistinct(listed, p, NameOf);
    Sequences.FilterMembers(listed, p);
    var r := Sequences.Filter(listed, p);
    assert forall i, j :: 0 <= i < j < |r| ==> NameOf(r[i]) != NameOf(r[j]);
  }

  function RunningOf(listed: seq<Job>): seq<Job> {
    Sequences.Filter(listed, (j: Job) => IsRunning(j))
  }

  /** The jobs of one phase, as a list in any order. */
  ghost predicate IsGroup(jobs: Jobs, group: seq<Job>, phase: JobPhase) {
    && DistinctJobs(group) && NamesOf(group) == InPhase(jobs, phase)
    && forall j :: j in group ==> j.name in jobs && jobs[j.name] == j
  }

  // ---------- what pruning may do ----------

  function Excess(jobs: Jobs, phase: JobPhase, limit: nat): nat {
    Max(0, |InPhase(jobs, phase)| - limit)
  }

  /** The removed jobs are the oldest of the phase; all jobs above the limit are removed unless a deletion fails. */
  ghost predicate Prunes(jobs: Jobs, removed: set<string>, phase: JobPhase, limit: nat, ok: bool) {
    && removed <= InPhase(jobs, phase)
    && (forall r, s :: r in removed && s in InPhase(jobs, phase) && s !in removed ==>
        jobs[r].created <= jobs[s].created)
    && |removed| <= Excess(jobs, phase, limit)
    && (ok ==> |removed| == Excess(jobs, phase, limit))
  }

  ghost predicate PrunedTo(jobs: Jobs, after: Jobs, phase: JobPhase, limit: nat, ok: bool) {
    exists removed :: Prunes(jobs, removed, phase, limit, ok) && after == jobs - removed
  }

  ghost predicate HistoryTo(spec: Spec, jobs: Jobs, after: Jobs, ok: bool) {
    exists mid, first ::
      && PrunedTo(jobs, mid, Completed, spec.successLimit, first)
      && if first then PrunedTo(mid, after, Failed, spec.failedLimit, ok) else after == mid && !ok
  }

  /** The latest completion of a completed job; the time before when there is none. */
  ghost predicate IsLatest(jobs: Jobs, before: Option<Time>, r: Option<Time>)
    requires CompletedDated(jobs)
  {
    if InPhase(jobs, Completed) == {} then r == before
    else
      && r.Some?
      && (exists n :: n in InPhase(jobs, Completed) && jobs[n].status.completedAt == r)
      && forall n :: n in InPhase(jobs, Completed) ==> jobs[n].status.completedAt.value <= r.value
  }

  // ---------- the schedule ----------

  datatype Policy = Allow | Forbid | Replace

  /**
   The settings. The schedule gives the next tick after a time, and is missing when it does not parse; `stamp` is the
   name of a job by the second in which it is created.
   */
  datatype Spec = Spec(
    suspend: bool, schedule: Option<Time -> Time>, policy: Policy, successLimit: nat, failedLimit: nat,
    stamp: Time -> string)

  datatype CronStatus = CronStatus(last: Option<Time>, next: Option<Time>, lastSuccess: Option<Time>)

  datatype Cron = Cron(jobs: Jobs, status: CronStatus)

  /** What one reconcile meets: the clock, the name of a new job, the outcome of every call. */
  datatype CronTurn = CronTurn(
    now: Time, name: string, firstStored: bool, listed: bool, deletes: string -> bool, createOk: bool, stored: bool)

  /** The times a status holds when a tick is taken or counted from now. */
  function From(status: CronStatus, schedule: Time -> Time, now: Time): CronStatus {
    status.(last := Some(Rfc3339(now)), next := Some(Rfc3339(schedule(now))))
  }

  /** The new job is created and the tick taken, or creating it fails. */
  function Create(jobs: Jobs, st: CronStatus, seen: CronStatus, schedule: Time -> Time, t: CronTurn): (Cron, bool) {
    if !t.createOk || t.name in jobs then (Cron(jobs, if t.stored then seen else st), false)
    else
      (Cron(jobs[t.name := Job(t.name, Rfc3339(t.now), NEW_JOB)],
            if t.stored then From(seen, schedule, t.now) else st),
       true)
  }

  /**
   After the history: `st` is stored, `seen` also holds the latest success, `listed` are the jobs before pruning. The
   result is what is there afterwards and whether a job was created.
   */
  ghost predicate TriggerTo(policy: Policy, schedule: Time -> Time, listed: Jobs, jobs: Jobs, st: CronStatus,
                            seen: CronStatus,
                            t: CronTurn, after: (Cron, bool))
    requires st.last.Some?
  {
    if schedule(st.last.value) > t.now then after == (Cron(jobs, if t.stored then seen else st), false)
    else match policy
      case Allow => after == Create(jobs, st, seen, schedule, t)
      case Forbid =>
        if Running(listed) != {} then after == (Cron(jobs, st), false) else after == Create(jobs, st, seen, schedule, t)
      case Replace => exists removed :: ReplacedTo(schedule, Running(listed), removed, jobs, st, seen, t, after)
  }

  /** One of the deletions is refused. */
  predicate DeleteFails(names: set<string>, deletes: string -> bool) {
    exists n :: n in names && !deletes(n)
  }

  /** The running jobs that could be deleted are gone; only when these are all is the new one created. */
  predicate ReplacedTo(schedule: Time -> Time, running: set<string>, removed: set<string>, jobs: Jobs, st: CronStatus,
                       seen: CronStatus,
                       t: CronTurn, after: (Cron, bool)) {
    && removed <= running
    && (removed == running || DeleteFails(running, t.deletes))
    && after == if removed == running then Create(jobs - removed, st, seen, schedule, t)
        else (Cron(jobs - removed, st), false)
  }

  /** The status after the first reconcile has written it. */
  function Begun(status: CronStatus, schedule: Time -> Time, now: Time): (r: CronStatus)
    ensures r.last.Some? && r.lastSuccess == status.lastSuccess
  {
    if status.last.None? then From(status, schedule, now) else status
  }

  ghost predicate ReconcileTo(spec: Spec, c: Cron, t: CronTurn, after: (Cron, bool))
    requires CompletedDated(c.jobs)
  {
    if spec.suspend || spec.schedule.None? || (c.status.last.None? && !t.firstStored) then after == (c, false)
    else
      var st := Begun(c.status, spec.schedule.value, t.now);
      if !t.listed then after == (Cron(c.jobs, st), false)
      else exists jobs, ok, success :: AfterHistory(spec, c, st, jobs, ok, success, t, after)
  }

  ghost predicate AfterHistory(spec: Spec, c: Cron, st: CronStatus, jobs: Jobs, ok: bool, success: Option<Time>,
                               t: CronTurn, after: (Cron, bool))
    requires CompletedDated(c.jobs) && spec.schedule.Some? && st.last.Some?
  {
    && HistoryTo(spec, c.jobs, jobs, ok) && (ok || DeleteFails(c.jobs.Keys, t.deletes))
    && IsLatest(c.jobs, st.lastSuccess, success)
    && if ok then TriggerTo(spec.policy, spec.schedule.value, c.jobs, jobs, st, st.(lastSuccess := success), t, after)
       else after == (Cron(jobs, st), false)
  }

  // ---------- the controller ----------

  class CronSyncReconciler {
    var jobs: Jobs
    var status: CronStatus

    constructor (jobs: Jobs, status: CronStatus)
      ensures this.jobs == jobs && this.status == status
    {
      this.jobs := jobs;
      this.status := status;
    }

    method Delete(name: string, ok: bool) returns (failed: bool)
      modifies this`jobs
      ensures failed == !ok && jobs == if ok then old(jobs) - {name} else old(jobs)
    {
      if ok {
        jobs := jobs - {name};
      }
      failed := !ok;
    }

    method CheckAndDelete(group: seq<Job>, ghost phase: JobPhase, limit: nat, deletes: string -> bool)
      returns (failed: bool)
      requires IsGroup(jobs, group, phase)
      modifies this`jobs
      ensures PrunedTo(old(jobs), jobs, phase, limit, !failed)
      ensures failed ==> DeleteFails(NamesOf(group), deletes)
    {
      hide Removed, PrunedTo, SortBy, IsGroup;
      if |group| < limit {
        FewKept(jobs, group, phase, limit);
        return false;
      }
      var sorted := SortBy(group, (j: Job) => j.created);
      ghost var before := jobs;
      NothingRemoved(before, group, phase);
      for i := 0 to |group| - limit
        invariant |sorted| == |group| && Removed(before, sorted, i, jobs)
      {
        RemovedPrunes(before, group, phase, limit, i, jobs, false);
        RemovedNext(before, sorted, i, jobs);
        SortedName(before, group, phase, i);
        var err := Delete(sorted[i].name, deletes(sorted[i].name));
        if err {
          return true;
        }
      }
      RemovedPrunes(before, group, phase, limit, |group| - limit, jobs, true);
      return false;
    }

    method SyncHistory(spec: Spec, listed: seq<Job>, deletes: string -> bool)
      returns (lastSuccess: Option<Time>, failed: bool)
      requires Lists(listed, jobs) && CompletedDated(jobs)
      modifies this`jobs
      ensures HistoryTo(spec, old(jobs), jobs, !failed)
      ensures failed ==> DeleteFails(old(jobs).Keys, deletes)
      ensures IsLatest(old(jobs), status.lastSuccess, lastSuccess)
    {
      hide PrunedTo, NamesOf, IsGroup, SortBy, GroupBy, IsLatest, IsSorted, InPhase, Lists;
      lastSuccess := status.lastSuccess;
      var completed := GroupBy(listed, Completed);
      GroupIs(listed, jobs, Completed);
      GroupInJobs(jobs, completed, Completed);
      if |completed| > 0 {
        var key := (j: Job) => -j.status.completedAt.GetOr(ZERO_TIME);
        var byCompletion := SortBy(completed, key);
        FirstIsLatest(jobs, completed, key, status.lastSuccess);
        lastSuccess := byCompletion[0].status.completedAt;
      } else {
        NothingCompleted(jobs, completed);
      }
      ghost var before := jobs;
      failed := CheckAndDelete(completed, Completed, spec.successLimit, deletes);
      if failed {
        return;
      }
      ghost var mid := jobs;
      GroupIs(listed, before, Failed);
      GroupInJobs(before, GroupBy(listed, Failed), Failed);
      GroupKept(before, mid, GroupBy(listed, Failed), spec.successLimit);
      failed := CheckAndDelete(GroupBy(listed, Failed), Failed, spec.failedLimit, deletes);
      assert PrunedTo(before, mid, Completed, spec.successLimit, true)
          && PrunedTo(mid, jobs, Failed, spec.failedLimit, !failed);
    }

    /** Deletes the running jobs one after the other, until one deletion fails. */
    method DeleteRunning(running: seq<Job>, deletes: string -> bool) returns (failed: bool)
      requires DistinctJobs(running)
      modifies this`jobs
      ensures failed ==> DeleteFails(NamesOf(running), deletes)
      ensures exists removed ::
        removed <= NamesOf(running) && jobs == old(jobs) - removed && (!failed <==> removed == NamesOf(running))
    {
      ghost var before := jobs;
      for i := 0 to |running|
        invariant jobs == before - NamesOf(running[..i])
      {
        assert running[..i + 1] == running[..i] + [running[i]];
        var err := Delete(running[i].name, deletes(running[i].name));
        if err {
          assert running[i].name !in NamesOf(running[..i]);
          assert running[i].name in NamesOf(running);
          assert NamesOf(running[..i]) <= NamesOf(running) && NamesOf(running[..i]) != NamesOf(running);
          return true;
        }
        assert NamesOf(running[..i + 1]) == NamesOf(running[..i]) + {running[i].name};
      }
      assert running[..|running|] == running;
      return false;
    }

    /** Stores the status in memory. */
    method UpdateStatus(s: CronStatus, ok: bool)
      modifies this`status
      ensures status == if ok then s else old(status)
    {
      if ok {
        status := s;
      }
    }

    method Reconcile(spec: Spec, listing: seq<Job>, t: CronTurn) returns (created: bool)
      requires Lists(listing, jobs) && CompletedDated(jobs)
      modifies this
      ensures ReconcileTo(spec, old(Cron(jobs, status)), t, (Cron(jobs, status), created))
    {
      hide HistoryTo, IsLatest, Lists, TriggerTo, Rfc3339;
      if spec.suspend || spec.schedule.None? {
        return false;
      }
      var schedule := spec.schedule.value;
      if status.last.None? {
        UpdateStatus(From(status, schedule, t.now), t.firstStored);
        if !t.firstStored {
          return false;
        }
      }
      if !t.listed {
        return false;
      }
      ghost var st, before := status, jobs;
      var success, failed := SyncHistory(spec, listing, t.deletes);
      ghost var pruned := jobs;
      created := false;
      if !failed {
        created := Trigger(spec.policy, schedule, listing, before, success, t);
      }
      HistoryReconciles(spec, old(Cron(jobs, status)), pruned, !failed, success, t, (Cron(jobs, status), created));
    }

    /** The part after the history: the due test, the policy, the new job. */
    method Trigger(policy: Policy, schedule: Time -> Time, listing: seq<Job>, ghost before: Jobs,
                   success: Option<Time>, t: CronTurn)
      returns (created: bool)
      requires Lists(listing, before) && status.last.Some?
      modifies this
      ensures TriggerTo(policy, schedule, before, old(jobs), old(status), old(status).(lastSuccess := success), t,
          (Cron(jobs, status), created))
    {
      hide From, Lists, NamesOf, Running, Rfc3339;
      var seen := status.(lastSuccess := success);
      if schedule(status.last.value) > t.now {
        UpdateStatus(seen, t.stored);
        return false;
      }
      var running := RunningOf(listing);
      RunningIs(listing, before);
      ghost var pruned, removed := jobs, {};
      match policy {
        case Allow =>
        case Forbid =>
          if |running| > 0 {
            assert running[0] in running;
            return false;
          }
        case Replace =>
          var failed := DeleteRunning(running, t.deletes);
          removed :| removed <= NamesOf(running) && jobs == pruned - removed
              && (!failed <==> removed == NamesOf(running));
          if failed {
            assert ReplacedTo(schedule, Running(before), removed, pruned, status, seen, t, (Cron(jobs, status), false));
            return false;
          }
      }
      ghost var free := jobs;
      created := t.createOk && t.name !in jobs;
      if !created {
        UpdateStatus(seen, t.stored);
      } else {
        jobs := jobs[t.name := Job(t.name, Rfc3339(t.now), NEW_JOB)];
        UpdateStatus(From(seen, schedule, t.now), t.stored);
      }
      assert (Cron(jobs, status), created) == Create(free, old(status), seen, schedule, t);
      assert policy.Replace? ==> ReplacedTo(schedule, Running(before), removed, pruned, old(status), seen, t,
          (Cron(jobs, status), created));
    }
  }

  lemma HistoryReconciles(spec: Spec, c: Cron, jobs: Jobs, ok: bool, success: Option<Time>, t: CronTurn,
                          after: (Cron, bool))
    requires CompletedDated(c.jobs) && !spec.suspend && spec.schedule.Some? && t.listed
    requires c.status.last.Some? || t.firstStored
    requires AfterHistory(spec, c, Begun(c.status, spec.schedule.value, t.now), jobs, ok, success, t, after)
    ensures ReconcileTo(spec, c, t, after)
  {
    hide AfterHistory;
  }

  // ---------- lists and maps ----------

  lemma GroupIs(listed: seq<Job>, jobs: Jobs, phase: JobPhase)
    requires Lists(listed, jobs)
    ensures IsGroup(jobs, GroupBy(listed, phase), phase)
  {
    FilteredJobs(listed, (j: Job) => j.status.phase == phase);
    forall n ensures n in NamesOf(GroupBy(listed, phase)) <==> n in InPhase(jobs, phase) {
      if n in InPhase(jobs, phase) {
        assert jobs[n] in GroupBy(listed, phase);
      }
    }
  }

  lemma RunningIs(listed: seq<Job>, jobs: Jobs)
    requires Lists(listed, jobs)
    ensures DistinctJobs(RunningOf(listed)) && NamesOf(RunningOf(listed)) == Running(jobs)
    ensures RunningOf(listed) == [] <==> Running(jobs) == {}
  {
    var r := RunningOf(listed);
    FilteredJobs(listed, (j: Job) => IsRunning(j));
    forall n ensures n in NamesOf(r) <==> n in Running(jobs) {
      if n in Running(jobs) {
        assert jobs[n] in r;
      }
    }
    if r != [] {
      assert r[0] in r && r[0].name in NamesOf(r);
    }
  }

  /** The first jobs by creation are the oldest of their phase. */
  lemma PrefixPrunes(jobs: Jobs, group: seq<Job>, sorted: seq<Job>, phase: JobPhase, limit: nat, k: nat, ok: bool)
    requires IsGroup(jobs, group, phase)
    requires IsSorted(group, sorted, (j: Job) => j.created)
    requires k <= |group| - limit && (ok ==> k == |group| - limit)
    ensures Prunes(jobs, NamesOf(sorted[..k]), phase, limit, ok)
    ensures PrunedTo(jobs, jobs - NamesOf(sorted[..k]), phase, limit, ok)
  {
    NamesCount(group);
    NamesCount(sorted[..k]);
    forall r | r in NamesOf(sorted[..k]) ensures r in InPhase(jobs, phase) {
      var a :| a in sorted[..k] && a.name == r;
      assert a in group && r in NamesOf(group);
    }
    forall r, s | r in NamesOf(sorted[..k]) && s in InPhase(jobs, phase)
      ensures r in jobs && s in jobs && (s in NamesOf(sorted[..k]) || jobs[r].created <= jobs[s].created)
    {
      PrefixOldest(jobs, group, sorted, phase, k, r, s);
    }
  }

  lemma PrefixOldest(jobs: Jobs, group: seq<Job>, sorted: seq<Job>, phase: JobPhase, k: nat, r: string, s: string)
    requires IsGroup(jobs, group, phase)
    requires IsSorted(group, sorted, (j: Job) => j.created)
    requires k <= |sorted| && r in NamesOf(sorted[..k]) && s in InPhase(jobs, phase)
    ensures r in jobs && s in jobs && (s in NamesOf(sorted[..k]) || jobs[r].created <= jobs[s].created)
  {
    var a :| a in sorted[..k] && a.name == r;
    assert s in NamesOf(group);
    var b :| b in group && b.name == s;
    var i :| 0 <= i < k && sorted[i] == a;
    var j :| 0 <= j < |sorted| && sorted[j] == b;
    assert sorted[i] in group && sorted[j] in group;
    if j < k {
      assert b in sorted[..k];
    } else {
      SortedPair(sorted, i, j);
    }
  }

  lemma SortedPair(sorted: seq<Job>, i: nat, j: nat)
    requires Ascending(sorted, (j: Job) => j.created) && i < j < |sorted|
    ensures sorted[i].created <= sorted[j].created
  {
    var key := (j: Job) => j.created;
    assert key(sorted[i]) <= key(sorted[j]);
  }

  lemma FirstIsLatest(jobs: Jobs, completed: seq<Job>, key: Job -> Time, before: Option<Time>)
    requires CompletedDated(jobs) && IsGroup(jobs, completed, Completed) && |completed| > 0
    requires forall j: Job :: key(j) == -j.status.completedAt.GetOr(ZERO_TIME)
    ensures |SortBy(completed, key)| > 0 && IsLatest(jobs, before, SortBy(completed, key)[0].status.completedAt)
  {
    SortBySorts(completed, key);
    var sorted := SortBy(completed, key);
    hide SortBy;
    var first := sorted[0];
    assert first in completed;
    assert first.name in NamesOf(completed);
    forall n | n in InPhase(jobs, Completed)
        ensures jobs[n].status.completedAt.value <= first.status.completedAt.value {
      assert n in NamesOf(completed);
      var j :| j in completed && j.name == n;
      var k :| 0 <= k < |sorted| && sorted[k] == j;
      assert k == 0 || key(sorted[0]) <= key(sorted[k]);
    }
  }

  lemma NothingCompleted(jobs: Jobs, completed: seq<Job>)
    requires CompletedDated(jobs) && IsGroup(jobs, completed, Completed) && completed == []
    ensures forall before :: IsLatest(jobs, before, before)
  {
    assert InPhase(jobs, Completed) == {};
  }

  /** Pruning the completed jobs leaves the failed ones alone. */
  lemma GroupKept(jobs: Jobs, after: Jobs, group: seq<Job>, limit: nat)
    requires IsGroup(jobs, group, Failed) && PrunedTo(jobs, after, Completed, limit, true)
    ensures IsGroup(after, group, Failed)
  {
    assert InPhase(after, Failed) == InPhase(jobs, Failed);
    forall j | j in group ensures j.name in after && after[j.name] == j {
      assert j.name in NamesOf(group);
    }
  }

  /** The first k of the sorted jobs are gone. */
  predicate Removed(before: Jobs, sorted: seq<Job>, k: int, jobs: Jobs) {
    0 <= k <= |sorted| && jobs == before - NamesOf(sorted[..k])
  }

  lemma NothingRemoved(jobs: Jobs, group: seq<Job>, phase: JobPhase)
    requires IsGroup(jobs, group, phase)
    ensures |SortBy(group, (j: Job) => j.created)| == |group|
        && Removed(jobs, SortBy(group, (j: Job) => j.created), 0, jobs)
  {
    SortBySorts(group, (j: Job) => j.created);
    assert NamesOf(SortBy(group, (j: Job) => j.created)[..0]) == {};
  }

  lemma SortedName(jobs: Jobs, group: seq<Job>, phase: JobPhase, i: nat)
    requires IsGroup(jobs, group, phase) && i < |SortBy(group, (j: Job) => j.created)|
    ensures SortBy(group, (j: Job) => j.created)[i].name in NamesOf(group)
  {
    SortBySorts(group, (j: Job) => j.created);
    var sorted := SortBy(group, (j: Job) => j.created);
    assert sorted[i] in sorted;
    assert sorted[i] in group;
  }

  lemma GroupInJobs(jobs: Jobs, group: seq<Job>, phase: JobPhase)
    requires IsGroup(jobs, group, phase)
    ensures NamesOf(group) <= jobs.Keys
  {
  }

  lemma RemovedNext(before: Jobs, sorted: seq<Job>, i: nat, jobs: Jobs)
    requires i < |sorted| && Removed(before, sorted, i, jobs)
    ensures Removed(before, sorted, i + 1, jobs - {sorted[i].name})
  {
    assert sorted[..i + 1] == sorted[..i] + [sorted[i]];
    assert NamesOf(sorted[..i + 1]) == NamesOf(sorted[..i]) + {sorted[i].name};
  }

  lemma RemovedPrunes(before: Jobs, group: seq<Job>, phase: JobPhase, limit: nat, k: nat, jobs: Jobs, ok: bool)
    requires IsGroup(before, group, phase) && Removed(before, SortBy(group, (j: Job) => j.created), k, jobs)
    requires k <= |group| - limit && (ok ==> k == |group| - limit)
    ensures PrunedTo(before, jobs, phase, limit, ok)
  {
    SortBySorts(group, (j: Job) => j.created);
    PrefixPrunes(before, group, SortBy(group, (j: Job) => j.created), phase, limit, k, ok);
  }

  lemma FewKept(jobs: Jobs, group: seq<Job>, phase: JobPhase, limit: nat)
    requires IsGroup(jobs, group, phase) && |group| < limit
    ensures PrunedTo(jobs, jobs, phase, limit, true)
  {
    NamesCount(group);
    assert Prunes(jobs, {}, phase, limit, true);
    assert jobs == jobs - {};
  }
}
