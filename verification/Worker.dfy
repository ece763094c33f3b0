/** Decisions about one worker: rebalance delays, admission, and when the join option is kept. */
module Worker {
  import opened Wrappers
  import opened Kube

  // ---------- rebalance delays ----------

  function RebalanceDelay(p: Pod): Duration {
    match p.delay
    case Some(d) => d
    case None => if Leaving(p) then LEAVING_REBALANCE_DELAY else DEFAULT_REBALANCE_DELAY
  }

  /** The delay set for the worker; else ten seconds while it leaves, and ten minutes while it does not. */
  lemma RebalanceDelayIs(p: Pod)
    ensures RebalanceDelay(p) ==
            if p.delay.Some? then p.delay.value
            else if p.annotations.waitingAt.Some? then 10 * SECOND
            else 10 * MINUTE
  {
  }

  /** The least delay of any worker; the default when there is none. */
  ghost predicate IsGroupDelay(workers: seq<Pod>, delay: Duration) {
    if workers == [] then delay == DEFAULT_REBALANCE_DELAY
    else
      && (forall w :: w in workers ==> delay <= RebalanceDelay(w))
      && exists w :: w in workers && delay == RebalanceDelay(w)
  }

  function GroupDelay(workers: seq<Pod>): (delay: Duration)
    ensures IsGroupDelay(workers, delay)
  {
    if workers == [] then DEFAULT_REBALANCE_DELAY
    else if |workers| == 1 then
      assert workers[0] in workers;
      RebalanceDelay(workers[0])
    else
      var last := |workers| - 1;
      assert workers == workers[..last] + [workers[last]];
      Min(GroupDelay(workers[..last]), RebalanceDelay(workers[last]))
  }

  method CacheGroupRebalanceDelay(workers: seq<Pod>) returns (delay: Duration)
    ensures delay == GroupDelay(workers)
  {
    delay := DEFAULT_REBALANCE_DELAY;
    for i := 0 to |workers|
      invariant delay == GroupDelay(workers[..i])
    {
      assert workers[..i + 1][..i] == workers[..i];
      var d := RebalanceDelay(workers[i]);
      if i == 0 || d < delay {
        delay := d;
      }
    }
    assert workers[..|workers|] == workers;
  }

  // ---------- admission ----------

  const EMPTY_CACHE := "0B"

  /** Whether a worker that does not exist yet may be created. */
  predicate CanAddWorker(status: Status, now: Time) {
    || status.cacheSize == EMPTY_CACHE
    || status.rebalance.None?
    || status.rebalance.value.members == []
    || now < status.rebalance.value.startAt - REBALANCE_DELAY_MARGIN
  }

  // ---------- idle counters ----------

  predicate CounterIdle(p: Pod, bytes: Option<int>, rate: Option<int>, stats: Stats, since: Time, minIdle: Duration,
                        now: Time) {
    && p.ready && bytes.Some? && rate.Some? && stats.lastSampleTime.Some? && stats.startTime.Some?
    && var sampleAt := stats.lastSampleTime.value;
    && now - sampleAt <= WORKER_STATS_MAX_AGE
    && sampleAt >= since
    && rate.value < IDLE_RATE
    && (bytes.value != 0 || sampleAt - stats.startTime.value >= minIdle)
  }

  predicate WorkerCounterIdle(p: Pod, stats: Stats, isJoin: bool, since: Time, minIdle: Duration, now: Time) {
    if isJoin then CounterIdle(p, stats.receiveBytes, stats.receiveRate, stats, since, minIdle, now)
    else CounterIdle(p, stats.transferBytes, stats.transferRate, stats, since, minIdle, now)
  }

  // ---------- the join option ----------

  predicate MayJoin(g: Group, t: Template) {
    && CompareImage(t.image, V5_1_0) >= 0
    && BackupDuration(g) > SECOND
    && "commission" !in t.opts && "group-backup" !in t.opts && "decommission" !in t.opts
  }

  /** The record of a name: the last one of the list that has it, the zero record when none has. */
  function RecordOf(stats: seq<Stats>, name: string): Stats {
    if stats == [] then NoStats()
    else if stats[|stats| - 1].name == name then stats[|stats| - 1]
    else RecordOf(stats[..|stats| - 1], name)
  }

  /** The latest of a time and all reported process starts. */
  function LatestStart(from: Time, stats: seq<Stats>): Time {
    if stats == [] then from
    else
      var init := LatestStart(from, stats[..|stats| - 1]);
      match stats[|stats| - 1].startTime
      case None => init
      case Some(s) => Max(init, s)
  }

  /** From when on a sample of the joining worker can end its join phase. */
  function JoinCheckAfter(p: Pod, joinedAt: Time, stats: seq<Stats>): Time {
    LatestStart(joinedAt, stats) + RebalanceDelay(p) + REBALANCE_DELAY_MARGIN
  }

  predicate AddJoinOption(g: Group, status: Status, actual: Option<Pod>, t: Template, now: Time) {
    && MayJoin(g, t)
    && match actual
       case None => status.cacheSize != "" && status.cacheSize != EMPTY_CACHE
       case Some(p) => match p.annotations.joinedAt
         case None => false
         case Some(at) =>
           && now - at < BackupDuration(g)
           && !WorkerCounterIdle(p, RecordOf(status.stats, p.name), true, JoinCheckAfter(p, at, status.stats), 0, now)
  }

  method ShouldAddJoinOption(g: Group, status: Status, actual: Option<Pod>, t: Template, now: Time) returns (add: bool)
    ensures add == AddJoinOption(g, status, actual, t, now)
  {
    var cmp := CompareImageVersion(t.image, V5_1_0);
    if cmp < 0 {
      return false;
    }
    var duration := BackupDuration(g);
    if duration <= SECOND {
      return false;
    }
    if "commission" in t.opts || "group-backup" in t.opts || "decommission" in t.opts {
      return false;
    }
    if actual.None? {
      return status.cacheSize != "" && status.cacheSize != EMPTY_CACHE;
    }
    var p := actual.value;
    if p.annotations.joinedAt.None? {
      return false;
    }
    var joinStartedAt := p.annotations.joinedAt.value;
    if now - joinStartedAt >= duration {
      return false;
    }
    var checkAfter := joinStartedAt;
    var stats := NoStats();
    for i := 0 to |status.stats|
      invariant stats == RecordOf(status.stats[..i], p.name)
      invariant checkAfter == LatestStart(joinStartedAt, status.stats[..i])
    {
      var s := status.stats[i];
      assert status.stats[..i + 1][..i] == status.stats[..i];
      if s.name == p.name {
        stats := s;
      }
      if s.startTime.Some? && s.startTime.value > checkAfter {
        checkAfter := s.startTime.value;
      }
    }
    assert status.stats[..|status.stats|] == status.stats;
    checkAfter := checkAfter + (RebalanceDelay(p) + REBALANCE_DELAY_MARGIN);
    add := !WorkerCounterIdle(p, stats, true, checkAfter, 0, now);
  }

  // ---------- who joins ----------

  /**
   A worker that does not exist yet is created with the join option exactly when its image knows the option, the backup
   duration is longer than a second, its template sets none of the three options itself, and the group is known to hold
   cache.
   */
  lemma MissingJoinsExactly(g: Group, status: Status, t: Template, now: Time)
    ensures AddJoinOption(g, status, None, t, now) <==> JoinsWhenNew(g, t, status.cacheSize)
  {
    AtLeastExactly(t.image, [5, 1, 0]);
  }

  ghost predicate JoinsWhenNew(g: Group, t: Template, cacheSize: string) {
    && AtLeast(t.image, [5, 1, 0])
    && (g.backupDuration.Some? ==> g.backupDuration.value > SECOND)
    && (forall opt :: opt in t.opts ==> opt !in ["commission", "group-backup", "decommission"])
    && cacheSize !in ["", "0B"]
  }

  // ---------- when joining ends ----------

  predicate DistinctStats(stats: seq<Stats>) {
    forall i, j :: 0 <= i < j < |stats| ==> stats[i].name != stats[j].name
  }

  lemma {:induction false} RecordOfMember(stats: seq<Stats>, i: int)
    requires DistinctStats(stats) && 0 <= i < |stats|
    ensures RecordOf(stats, stats[i].name) == stats[i]
  {
    if i < |stats| - 1 {
      assert stats[..|stats| - 1][i] == stats[i];
      RecordOfMember(stats[..|stats| - 1], i);
    }
  }

  lemma {:induction false} RecordOfMissing(stats: seq<Stats>, name: string)
    requires forall s :: s in stats ==> s.name != name
    ensures RecordOf(stats, name) == NoStats()
  {
    if stats != [] {
      assert stats[|stats| - 1] in stats;
      RecordOfMissing(stats[..|stats| - 1], name);
    }
  }

  lemma {:induction false} LatestStartIsLatest(from: Time, stats: seq<Stats>)
    ensures var latest := LatestStart(from, stats);
      && from <= latest
      && (forall s :: s in stats && s.startTime.Some? ==> s.startTime.value <= latest)
      && (latest == from || exists s :: s in stats && s.startTime == Some(latest))
  {
    if stats != [] {
      var last := stats[|stats| - 1];
      var init := stats[..|stats| - 1];
      assert stats == init + [last];
      LatestStartIsLatest(from, init);
      assert last in stats;
      assert forall s :: s in init ==> s in stats;
    }
  }

  /** A stats list listed in another order leads to the same decision. */
  lemma JoinDecisionIgnoresOrder(g: Group, status: Status, stats': seq<Stats>, actual: Option<Pod>, t: Template,
                                 now: Time)
    requires DistinctStats(status.stats) && DistinctStats(stats')
    requires forall s :: s in status.stats <==> s in stats'
    ensures AddJoinOption(g, status, actual, t, now) == AddJoinOption(g, status.(stats := stats'), actual, t, now)
  {
    if actual.Some? && Joining(actual.value) {
      var at := actual.value.annotations.joinedAt.value;
      LatestStartIsLatest(at, status.stats);
      LatestStartIsLatest(at, stats');
      SameRecord(status.stats, stats', actual.value.name);
    }
  }

  lemma SameRecord(a: seq<Stats>, b: seq<Stats>, name: string)
    requires DistinctStats(a) && DistinctStats(b) && forall s :: s in a <==> s in b
    ensures RecordOf(a, name) == RecordOf(b, name)
  {
    if i :| 0 <= i < |a| && a[i].name == name {
      RecordOfMember(a, i);
      assert a[i] in b;
      var j :| 0 <= j < |b| && b[j] == a[i];
      RecordOfMember(b, j);
    } else {
      RecordOfMissing(a, name);
      RecordOfMissing(b, name);
    }
  }

  /** The sample that may end a join phase early: the worker's own, fresh, slow, and late enough for the whole group. */
  ghost predicate EndsJoin(p: Pod, joinedAt: Time, stats: seq<Stats>, own: Stats, now: Time) {
    && own in stats && own.name == p.name
    && p.ready
    && own.lastSampleTime.Some? && own.startTime.Some? && own.receiveBytes.Some? && own.receiveRate.Some?
    && var at := own.lastSampleTime.value;
    && now <= at + WORKER_STATS_MAX_AGE
    && own.receiveRate.value < IDLE_RATE
    && at >= joinedAt + RebalanceDelay(p) + MINUTE
    && (forall s :: s in stats && s.startTime.Some? ==> at >= s.startTime.value + RebalanceDelay(p) + MINUTE)
    && (own.receiveBytes.value != 0 || at >= own.startTime.value)
  }

  /**
   For a joining worker whose template may join, the join option goes exactly when the backup duration is over or
   its own sample, taken at least delay + 1 min after the join and after every reported worker start, is idle.
   */
  lemma JoinEndsExactly(g: Group, status: Status, p: Pod, t: Template, now: Time)
    requires MayJoin(g, t) && Joining(p) && DistinctStats(status.stats)
    ensures !AddJoinOption(g, status, Some(p), t, now) <==>
              || now >= p.annotations.joinedAt.value + BackupDuration(g)
              || exists own :: EndsJoin(p, p.annotations.joinedAt.value, status.stats, own, now)
  {
    var at := p.annotations.joinedAt.value;
    LatestStartIsLatest(at, status.stats);
    var own := RecordOf(status.stats, p.name);
    if WorkerCounterIdle(p, own, true, JoinCheckAfter(p, at, status.stats), 0, now) {
      if forall s :: s in status.stats ==> s.name != p.name {
        RecordOfMissing(status.stats, p.name);
      } else {
        var i :| 0 <= i < |status.stats| && status.stats[i].name == p.name;
        RecordOfMember(status.stats, i);
        assert EndsJoin(p, at, status.stats, own, now);
      }
    }
    forall o | EndsJoin(p, at, status.stats, o, now)
      ensures WorkerCounterIdle(p, own, true, JoinCheckAfter(p, at, status.stats), 0, now)
    {
      var i :| 0 <= i < |status.stats| && status.stats[i] == o;
      RecordOfMember(status.stats, i);
    }
  }
}
