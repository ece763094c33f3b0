/**
 Sampling the workers' counters: records kept or taken anew in each round, rates between two samples of one process,
 and the totals that steer admission. The main result is that the rate which lets a leaving worker go was measured
 between two readings of one process, at most two minutes apart.

 Rates are computed over exact quotients, the source computes them in floating point.
 */
module StatsRounds {
  import opened Wrappers
  import opened Kube
  import opened Worker
  import Sequences
  import opened Names
  import opened Bytes
  import opened Rebalance
  import opened Lifecycle
  import opened Runs
  import opened LeaveRuns

  const WORKER_STATS_MIN_INTERVAL: Duration := 30 * SECOND

  // ---------- one worker ----------

  /** What a worker's stats file says, and when it was read. */
  datatype Counters = Counters(
    cacheBytes: Option<int>, capacityBytes: Option<int>, transferBytes: Option<int>, receiveBytes: Option<int>,
    uptime: Option<nat>, readAt: Time)

  /**
   One turn of a worker in a round: the clock when its record is looked at, its counters if they can be read, the
   clock after.
   */
  datatype Answer = Answer(checkedAt: Time, counters: Option<Counters>, now: Time)

  function SampleOf(name: string, c: Counters): Stats {
    Stats(name, c.cacheBytes, c.capacityBytes, c.transferBytes, c.receiveBytes, None, None,
          if c.uptime.Some? then Some(c.readAt - c.uptime.value * SECOND) else None, None)
  }

  /** Bytes per second over the interval, cut to an integer; none for a counter that is missing or went back. */
  function Rate(before: Option<int>, after: Option<int>, interval: Duration): Option<int>
    requires interval > 0
  {
    if before.None? || after.None? || after.value < before.value then None
    else Some((after.value - before.value) * SECOND / interval)
  }

  /** The record after a sample: rates only against a sample of the same process at most two minutes back. */
  function NextWorkerStats(previous: Stats, sample: Stats, now: Time): Stats {
    var next := sample.(lastSampleTime := Some(now));
    if previous.lastSampleTime.None? || !SameWorkerProcess(previous.startTime, sample.startTime) then next
    else
      var interval := now - previous.lastSampleTime.value;
      if interval <= 0 || interval > WORKER_STATS_MAX_AGE then next
      else next.(transferRate := Rate(previous.transferBytes, sample.transferBytes, interval),
                 receiveRate := Rate(previous.receiveBytes, sample.receiveBytes, interval))
  }

  /** Two process starts at most five seconds apart. */
  predicate OneProcess(a: Option<Time>, b: Option<Time>) {
    a.Some? && b.Some? && a.value <= b.value + 5 * SECOND && b.value <= a.value + 5 * SECOND
  }

  /** There is a rate exactly for a counter reported twice that did not go back: bytes per second, cut to an integer. */
  predicate IsRateOf(rate: Option<int>, before: Option<int>, after: Option<int>, interval: Duration) {
    && (rate.Some? <==> before.Some? && after.Some? && before.value <= after.value)
    && (rate.Some? ==>
          var moved := (after.value - before.value) * SECOND;
          rate.value * interval <= moved < (rate.value + 1) * interval)
  }

  /** A sample is rated exactly against a sample of the same process at most two minutes before it. */
  lemma RatedExactly(previous: Stats, sample: Stats, now: Time)
    requires sample.transferRate.None? && sample.receiveRate.None?
    ensures var next := NextWorkerStats(previous, sample, now);
      && next == sample.(lastSampleTime := Some(now), transferRate := next.transferRate,
                         receiveRate := next.receiveRate)
      && if previous.lastSampleTime.Some? && 0 < now - previous.lastSampleTime.value <= 2 * MINUTE
            && OneProcess(previous.startTime, sample.startTime)
         then
           var interval := now - previous.lastSampleTime.value;
           && IsRateOf(next.transferRate, previous.transferBytes, sample.transferBytes, interval)
           && IsRateOf(next.receiveRate, previous.receiveBytes, sample.receiveBytes, interval)
         else next.transferRate.None? && next.receiveRate.None?
  {
    if previous.lastSampleTime.Some? && now > previous.lastSampleTime.value {
      var interval := now - previous.lastSampleTime.value;
      RateExactly(previous.transferBytes, sample.transferBytes, interval);
      RateExactly(previous.receiveBytes, sample.receiveBytes, interval);
    }
    hide Rate, IsRateOf;
  }

  lemma RateExactly(before: Option<int>, after: Option<int>, interval: Duration)
    requires interval > 0
    ensures IsRateOf(Rate(before, after, interval), before, after, interval)
  {
    if before.Some? && after.Some? && before.value <= after.value {
      var moved := (after.value - before.value) * SECOND;
      DivBounds(moved, interval);
    }
  }

  lemma DivBounds(a: int, d: int)
    requires d > 0
    ensures (a / d) * d <= a < (a / d + 1) * d
  {
    assert a == d * (a / d) + a % d;
  }

  /** A status holds its times in whole seconds. */
  function Stored(s: Stats): Stats {
    s.(startTime := Whole(s.startTime), lastSampleTime := Whole(s.lastSampleTime))
  }

  predicate Recent(previous: Option<Stats>, at: Time) {
    previous.Some? && previous.value.lastSampleTime.Some?
        && at - previous.value.lastSampleTime.value < WORKER_STATS_MIN_INTERVAL
  }

  /** The worker is read in this round. */
  predicate TakesSample(previous: Option<Stats>, p: Pod, a: Answer) {
    !p.deleting && !Recent(previous, a.checkedAt) && p.ready && a.counters.Some?
  }

  /** The worker's record after the round, if it has one. */
  function NextRecord(previous: Option<Stats>, p: Pod, a: Answer): Option<Stats> {
    if p.deleting then None
    else if TakesSample(previous, p, a) then
      Some(NextWorkerStats(previous.GetOr(NoStats()), SampleOf(p.name, a.counters.value), a.now))
    else previous
  }

  /**
   A worker is read exactly when it lives, is ready and answers, and its record is missing or at least half a minute
   old. Its record is new then, dropped while it is being deleted, and else stays.
   */
  lemma ReadExactly(previous: Option<Stats>, p: Pod, a: Answer)
    ensures var record := NextRecord(previous, p, a);
      var known := previous.Some? && previous.value.lastSampleTime.Some?;
      var due := !known || a.checkedAt >= previous.value.lastSampleTime.value + 30 * SECOND;
      if p.deleting then record == None
      else if p.ready && a.counters.Some? && due then
        && record.Some? && record.value.name == p.name && record.value.lastSampleTime == Some(a.now)
        && var c := a.counters.value;
        && (record.value.cacheBytes, record.value.capacityBytes) == (c.cacheBytes, c.capacityBytes)
        && (record.value.transferBytes, record.value.receiveBytes) == (c.transferBytes, c.receiveBytes)
        && (record.value.startTime.Some? <==> c.uptime.Some?)
        && (c.uptime.Some? ==> record.value.startTime.value + c.uptime.value * SECOND == c.readAt)
      else record == previous
  {
  }

  // ---------- a round ----------

  /** lo.KeyBy on the name. */
  function KeyBy(stats: seq<Stats>): (m: map<string, Stats>)
    ensures forall name :: name in m ==> m[name] in stats && m[name].name == name
  {
    if stats == [] then map[]
    else
      var last := stats[|stats| - 1];
      KeyBy(stats[..|stats| - 1])[last.name := last]
  }

  function Previous(stats: seq<Stats>, name: string): Option<Stats> {
    if name in KeyBy(stats) then Some(KeyBy(stats)[name]) else None
  }

  lemma {:induction false} PreviousIsRecordOf(stats: seq<Stats>, name: string)
    ensures Previous(stats, name).GetOr(NoStats()) == RecordOf(stats, name)
  {
    if stats != [] {
      PreviousIsRecordOf(stats[..|stats| - 1], name);
    }
  }

  datatype Round = Round(listing: seq<Pod>, answer: string -> Answer)

  function RecordIn(stats: seq<Stats>, r: Round, p: Pod): Option<Stats> {
    NextRecord(Previous(stats, p.name), p, r.answer(p.name))
  }

  predicate ByName(s: seq<Stats>) {
    forall i, j :: 0 <= i < j < |s| ==> Leq(s[i].name, s[j].name)
  }

  predicate NameLeq(a: Stats, b: Stats) {
    Leq(a.name, b.name)
  }

  function NameOf(s: Stats): string { s.name }

  /** sort.Slice by name. */
  function SortByName(s: seq<Stats>): seq<Stats> {
    Sequences.StableSort(s, NameLeq)
  }

  lemma SortByNameSorts(s: seq<Stats>)
    requires DistinctStats(s)
    ensures var r := SortByName(s); ByName(r) && DistinctStats(r) && forall y :: y in r <==> y in s
  {
    assert Sequences.IsOrdering(NameLeq) by { LeqIsOrdering(); }
    assert Sequences.DistinctBy(s, NameOf);
    Sequences.SortAscending(s, NameLeq);
    Sequences.SortDistinct(s, NameLeq, NameOf);
    var r := SortByName(s);
    assert forall i, j :: 0 <= i < j < |r| ==> NameLeq(r[i], r[j]) && NameOf(r[i]) != NameOf(r[j]);
  }

  /** The records after a round: one for every listed worker that has one, under its name and in the order of names. */
  ghost predicate IsRound(stats: seq<Stats>, r: Round, after: seq<Stats>) {
    && ByName(after) && DistinctStats(after)
    && forall s :: s in after <==> exists p :: p in r.listing && RecordIn(stats, r, p) == Some(s)
  }

  lemma RecordName(stats: seq<Stats>, r: Round, p: Pod)
    requires RecordIn(stats, r, p).Some?
    ensures RecordIn(stats, r, p).value.name == p.name
  {
  }

  /** A round leaves one result, whatever the order in which the workers were listed and answered. */
  lemma RoundIgnoresOrder(stats: seq<Stats>, r: Round, r': Round, a: seq<Stats>, b: seq<Stats>)
    requires r.answer == r'.answer && forall p :: p in r.listing <==> p in r'.listing
    requires IsRound(stats, r, a) && IsRound(stats, r', b)
    ensures a == b
  {
    forall s ensures s in a <==> s in b {
      if s in a {
        var p :| p in r.listing && RecordIn(stats, r, p) == Some(s);
        assert p in r'.listing && RecordIn(stats, r', p) == Some(s);
      }
      if s in b {
        var p :| p in r'.listing && RecordIn(stats, r', p) == Some(s);
        assert p in r.listing && RecordIn(stats, r, p) == Some(s);
      }
    }
    SortedStatsUnique(a, b);
  }

  lemma FirstIsListed(s: seq<Stats>)
    requires s != []
    ensures s[0] in s
  {
  }

  lemma SameName(s: seq<Stats>, i: nat, j: nat)
    requires DistinctStats(s) && i < |s| && j < |s| && s[i].name == s[j].name
    ensures i == j
  {
  }

  lemma {:induction false} SortedStatsUnique(a: seq<Stats>, b: seq<Stats>)
    requires ByName(a) && ByName(b) && DistinctStats(a) && DistinctStats(b)
    requires forall s :: s in a <==> s in b
    ensures a == b
  {
    if a == [] {
      if b != [] {
        FirstIsListed(b);
      }
    } else {
      assert a[0] in b && b != [];
      assert b[0] in a;
      var i :| 0 <= i < |b| && b[i] == a[0];
      var j :| 0 <= j < |a| && a[j] == b[0];
      LeqTotal(a[0].name, a[0].name);
      LeqTotal(b[0].name, b[0].name);
      LeqAntisymmetric(a[0].name, b[0].name);
      SameName(b, 0, i);
      forall s ensures s in a[1..] <==> s in b[1..] {
        assert s in a[1..] <==> s in a && s != a[0];
        assert s in b[1..] <==> s in b && s != b[0];
      }
      SortedStatsUnique(a[1..], b[1..]);
      assert a == [a[0]] + a[1..] && b == [b[0]] + b[1..];
    }
  }

  /** The records collected from the first workers of the listing. */
  ghost predicate Collected(stats: seq<Stats>, r: Round, n: nat, found: seq<Stats>)
    requires n <= |r.listing|
  {
    && DistinctStats(found)
    && forall s :: s in found <==> exists k :: 0 <= k < n && RecordIn(stats, r, r.listing[k]) == Some(s)
  }

  lemma CollectedOne(stats: seq<Stats>, r: Round, n: nat, found: seq<Stats>)
    requires n < |r.listing| && DistinctPods(r.listing) && Collected(stats, r, n, found)
    ensures var next := RecordIn(stats, r, r.listing[n]);
      Collected(stats, r, n + 1, if next.Some? then found + [next.value] else found)
  {
    hide NextRecord, Previous;
    var next := RecordIn(stats, r, r.listing[n]);
    var after := if next.Some? then found + [next.value] else found;
    forall s | s in found && next.Some? ensures s.name != next.value.name {
      var k :| 0 <= k < n && RecordIn(stats, r, r.listing[k]) == Some(s);
      RecordName(stats, r, r.listing[k]);
      RecordName(stats, r, r.listing[n]);
    }
    forall s ensures s in after <==> exists k :: 0 <= k < n + 1 && RecordIn(stats, r, r.listing[k]) == Some(s) {
      assert s in after <==> s in found || next == Some(s);
    }
  }

  lemma CollectedAll(stats: seq<Stats>, r: Round, found: seq<Stats>)
    requires Collected(stats, r, |r.listing|, found)
    ensures IsRound(stats, r, SortByName(found))
  {
    hide RecordIn;
    SortByNameSorts(found);
    forall s ensures s in found <==> exists p :: p in r.listing && RecordIn(stats, r, p) == Some(s) {
      if s in found {
        var k :| 0 <= k < |r.listing| && RecordIn(stats, r, r.listing[k]) == Some(s);
        assert r.listing[k] in r.listing;
      }
      if p :| p in r.listing && RecordIn(stats, r, p) == Some(s) {
        var k :| 0 <= k < |r.listing| && r.listing[k] == p;
      }
    }
  }

  /** The sampling loop of the stats reconcile, its workers one after the other. */
  method SampleWorkers(stats: seq<Stats>, r: Round) returns (next: seq<Stats>)
    requires DistinctPods(r.listing)
    ensures IsRound(stats, r, next)
  {
    hide Collected, IsRound, SortByName, KeyBy, DistinctPods;
    var previous := KeyBy(stats);
    next := [];
    assert Collected(stats, r, 0, next) by { NothingCollected(stats, r); }
    for i := 0 to |r.listing|
      invariant Collected(stats, r, i, next)
    {
      CollectedOne(stats, r, i, next);
      var worker := r.listing[i];
      var a := r.answer(worker.name);
      if worker.deleting {
        continue;
      }
      var ok := worker.name in previous;
      var record := if ok then previous[worker.name] else NoStats();
      var recent := ok && record.lastSampleTime.Some?
          && a.checkedAt - record.lastSampleTime.value < WORKER_STATS_MIN_INTERVAL;
      if !recent && worker.ready && a.counters.Some? {
        record, ok := NextWorkerStats(record, SampleOf(worker.name, a.counters.value), a.now), true;
      }
      if ok {
        next := next + [record];
      }
    }
    CollectedAll(stats, r, next);
    next := SortByName(next);
  }

  lemma NothingCollected(stats: seq<Stats>, r: Round)
    ensures Collected(stats, r, 0, [])
  {
  }

  // ---------- totals ----------

  const WRAP: int := 2 * INT64_LIMIT

  /** A sum kept in 64 bits. */
  function Wrap64(x: int): (r: int)
    ensures -INT64_LIMIT <= r < INT64_LIMIT
    ensures -INT64_LIMIT <= x < INT64_LIMIT ==> r == x
  {
    (x + INT64_LIMIT) % WRAP - INT64_LIMIT
  }

  lemma WrapSum(a: int, v: int)
    ensures Wrap64(Wrap64(a) + v) == Wrap64(a + v)
  {
    var x := a + INT64_LIMIT;
    ModSum(x, v, WRAP);
    assert Wrap64(a) + v + INT64_LIMIT == x % WRAP + v;
  }

  lemma ModSum(x: int, v: int, m: int)
    requires m > 0
    ensures (x % m + v) % m == (x + v) % m
  {
    var q := x / m;
    var q' := (x % m + v) / m;
    assert x == m * q + x % m;
    assert x % m + v == m * q' + (x % m + v) % m;
    assert x + v == m * (q + q') + (x % m + v) % m by {
      assert m * (q + q') == m * q + m * q';
    }
    DivUnique(x + v, m, q + q', (x % m + v) % m);
    assert x + v == m * ((x + v) / m) + (x + v) % m;
  }

  type Counter = Stats -> Option<int>

  predicate AnyReports(stats: seq<Stats>, counter: Counter) {
    exists s :: s in stats && counter(s).Some?
  }

  function Total(stats: seq<Stats>, counter: Counter): int {
    if stats == [] then 0
    else Total(stats[..|stats| - 1], counter) + counter(stats[|stats| - 1]).GetOr(0)
  }

  ghost predicate IsTotal(stats: seq<Stats>, counter: Counter, text: string) {
    if AnyReports(stats, counter) then IsFormatted(Wrap64(Total(stats, counter)), text) else text == ""
  }

  method SumBytes(stats: seq<Stats>, counter: Counter) returns (text: string)
    ensures IsTotal(stats, counter, text)
  {
    hide IsFormatted, Wrap64;
    var total, reported := 0, false;
    for i := 0 to |stats|
      invariant -INT64_LIMIT <= total < INT64_LIMIT
      invariant total == Wrap64(Total(stats[..i], counter))
      invariant reported == AnyReports(stats[..i], counter)
    {
      var s := stats[i];
      assert stats[..i + 1][..i] == stats[..i];
      assert stats[..i + 1] == stats[..i] + [s];
      var v := counter(s);
      if v.Some? {
        WrapSum(Total(stats[..i], counter), v.value);
        total := Wrap64(total + v.value);
        reported := true;
      }
    }
    assert stats[..|stats|] == stats;
    if !reported {
      return "";
    }
    text := FormatBytes(total);
  }

  lemma WrapZero(x: int)
    ensures Wrap64(x) == 0 <==> x % WRAP == 0
  {
    var q := x / WRAP;
    assert x == WRAP * q + x % WRAP;
    if Wrap64(x) == 0 {
      var q' := (x + INT64_LIMIT) / WRAP;
      assert x + INT64_LIMIT == WRAP * q' + INT64_LIMIT;
      DivUnique(x, WRAP, q', 0);
    }
    if x % WRAP == 0 {
      DivUnique(x + INT64_LIMIT, WRAP, q, INT64_LIMIT);
    }
  }

  /**
   The text says empty exactly when the sum of the reports is a multiple of 2^64, and nothing exactly when none
   reports.
   */
  lemma TotalSaysEmptyExactly(stats: seq<Stats>, counter: Counter, text: string)
    requires IsTotal(stats, counter, text)
    ensures text == EMPTY_CACHE <==>
      (exists s :: s in stats && counter(s).Some?) && Total(stats, counter) % WRAP == 0
    ensures text == "" <==> forall s :: s in stats ==> counter(s).None?
  {
    if AnyReports(stats, counter) {
      var b := Wrap64(Total(stats, counter));
      WrapZero(Total(stats, counter));
      hide Wrap64;
      if b < 0 {
        assert text[0] == '-';
      } else {
        ZeroText(b, text);
        FormatRoundTrip(b, text);
        assert text != "" by { assert ParseBytes("") == None; }
      }
    }
  }

  predicate NonNegative(stats: seq<Stats>, counter: Counter) {
    forall s :: s in stats && counter(s).Some? ==> counter(s).value >= 0
  }

  lemma {:induction false} TotalZero(stats: seq<Stats>, counter: Counter)
    requires NonNegative(stats, counter)
    ensures Total(stats, counter) >= 0
    ensures Total(stats, counter) == 0 <==> forall s :: s in stats && counter(s).Some? ==> counter(s).value == 0
  {
    if stats != [] {
      var init, last := stats[..|stats| - 1], stats[|stats| - 1];
      assert stats == init + [last];
      assert NonNegative(init, counter);
      TotalZero(init, counter);
    }
  }

  /**
   For counters that are sizes and whose sum fits 64 bits: empty means that some worker reports and all report zero.
   */
  lemma EmptyCacheExactly(stats: seq<Stats>, counter: Counter, text: string)
    requires IsTotal(stats, counter, text) && NonNegative(stats, counter) && Total(stats, counter) < INT64_LIMIT
    ensures text == EMPTY_CACHE <==>
              AnyReports(stats, counter) && forall s :: s in stats && counter(s).Some? ==> counter(s).value == 0
  {
    hide Total, IsTotal;
    TotalZero(stats, counter);
    TotalSaysEmptyExactly(stats, counter, text);
    var total := Total(stats, counter);
    assert 0 <= total < WRAP;
  }

  // ---------- runs of rounds ----------

  function StoredAll(s: seq<Stats>): (r: seq<Stats>)
    ensures |r| == |s| && forall i :: 0 <= i < |s| ==> r[i] == Stored(s[i])
  {
    seq(|s|, i requires 0 <= i < |s| => Stored(s[i]))
  }

  /** The records a round leaves in the status. */
  ghost predicate RoundStores(stats: seq<Stats>, r: Round, after: seq<Stats>) {
    exists taken :: IsRound(stats, r, taken) && after == StoredAll(taken)
  }

  /** A reading of a worker: the step of the run, the counters, and the time of the sample. */
  datatype Reading = Reading(step: nat, counters: Counters, now: Time)

  /** Step x.step of the run is a stats round that reads these counters of the worker. */
  ghost predicate ReadIn(worlds: seq<World>, steps: seq<Step>, rounds: seq<Round>, name: string, x: Reading)
    requires |worlds| == |rounds| + 1 && |steps| == |rounds|
  {
    && x.step < |rounds| && steps[x.step].Sampled?
    && var r := rounds[x.step];
    && r.answer(name).counters == Some(x.counters) && r.answer(name).now == x.now
    && exists p :: p in r.listing && p.name == name
        && TakesSample(Previous(worlds[x.step].status.stats, name), p, r.answer(name))
  }

  function CacheBytesOf(s: Stats): Option<int> {
    s.cacheBytes
  }

  /**
   A run from an empty record list in which the records and the cache size change by rounds only, and clocks do not run
   backwards within an answer.
   */
  ghost predicate SampledRun(worlds: seq<World>, steps: seq<Step>, rounds: seq<Round>) {
    && IsRun(worlds, steps) && |rounds| == |steps|
    && worlds[0].status.stats == [] && worlds[0].status.cacheSize == ""
    && (forall k, name: string :: 0 <= k < |rounds| && rounds[k].answer(name).counters.Some? ==>
          rounds[k].answer(name).counters.value.readAt <= rounds[k].answer(name).now)
    && forall k :: 0 <= k < |steps| && steps[k].Sampled? ==>
          && RoundStores(worlds[k].status.stats, rounds[k], steps[k].stats)
          && IsTotal(steps[k].stats, CacheBytesOf, steps[k].cacheSize)
  }

  function StartOf(c: Counters): Option<Time> {
    SampleOf("", c).startTime
  }

  /** The record holds this reading, in whole seconds. */
  predicate Holds(s: Stats, x: Reading) {
    && s.lastSampleTime == Some(Rfc3339(x.now))
    && s.startTime == Whole(StartOf(x.counters))
    && s.transferBytes == x.counters.transferBytes
    && s.receiveBytes == x.counters.receiveBytes
  }

  /** Two readings of one process, at most two minutes apart. */
  predicate IsWindow(first: Reading, last: Reading) {
    && 0 < last.now - Rfc3339(first.now) <= WORKER_STATS_MAX_AGE
    && OneProcess(Whole(StartOf(first.counters)), StartOf(last.counters))
  }

  /** Both rates of the record were measured between the two readings. */
  predicate IsMeasured(s: Stats, first: Reading, last: Reading) {
    && IsWindow(first, last)
    && var interval := last.now - Rfc3339(first.now);
    && IsRateOf(s.transferRate, first.counters.transferBytes, last.counters.transferBytes, interval)
    && IsRateOf(s.receiveRate, first.counters.receiveBytes, last.counters.receiveBytes, interval)
  }

  predicate HasRate(s: Stats) {
    s.transferRate.Some? || s.receiveRate.Some?
  }

  lemma StepKeepsRecords(w: World, step: Step, w': World)
    requires StepTo(w, step, w') && !step.Sampled?
    ensures w'.status.stats == w.status.stats && w'.status.cacheSize == w.status.cacheSize
  {
  }

  /** The record after a reading: rated against the one before it exactly when both make a window. */
  predicate RatedSince(s: Stats, first: Reading, last: Reading) {
    if IsWindow(first, last) then IsMeasured(s, first, last) else !HasRate(s)
  }

  /** The record of a sampled worker is rated against the stored record. */
  lemma SampledRecord(previous: Option<Stats>, p: Pod, a: Answer, step: nat)
    requires TakesSample(previous, p, a)
    ensures a.counters.Some?
    ensures var s := Stored(NextRecord(previous, p, a).value);
      && Holds(s, Reading(step, a.counters.value, a.now))
      && (HasRate(s) ==> previous.Some? && previous.value.lastSampleTime.Some?)
      && forall x :: previous.Some? && Holds(previous.value, x) ==>
           RatedSince(s, x, Reading(step, a.counters.value, a.now))
  {
    RatedExactly(previous.GetOr(NoStats()), SampleOf(p.name, a.counters.value), a.now);
    hide NextWorkerStats, IsRateOf;
  }

  /**
   Every record of a run holds a reading of its worker, and its rates were measured since an earlier reading of the
   run.
   */
  lemma {:induction false} RecordWasRead(worlds: seq<World>, steps: seq<Step>, rounds: seq<Round>, k: nat, s: Stats)
    returns (last: Reading, first: Reading)
    requires SampledRun(worlds, steps, rounds) && k < |worlds| && s in worlds[k].status.stats
    ensures last.step < k && ReadIn(worlds, steps, rounds, s.name, last) && Holds(s, last)
    ensures HasRate(s) ==>
              && first.step < last.step && ReadIn(worlds, steps, rounds, s.name, first)
              && IsMeasured(s, first, last)
  {
    hide IsMeasured, Holds, HasRate, NextRecord, TakesSample, RoundStores, Stored, IsRound;
    assert k > 0;
    var w, r := worlds[k - 1], rounds[k - 1];
    assert StepTo(w, steps[k - 1], worlds[k]);
    if steps[k - 1].Sampled? {
      hide StepTo;
      var before := w.status.stats;
      var p, f := RecordOrigin(before, r, worlds[k].status.stats, s);
      var previous, a := Previous(before, p.name), r.answer(p.name);
      if TakesSample(previous, p, a) {
        SampledRecord(previous, p, a, k - 1);
        last := Reading(k - 1, a.counters.value, a.now);
        first := last;
        if HasRate(s) {
          var base, older := RecordWasRead(worlds, steps, rounds, k - 1, previous.value);
          first := base;
        }
      } else {
        KeptRecord(previous, p, a);
        last, first := RecordWasRead(worlds, steps, rounds, k - 1, f);
        StoredTwice(f, last);
      }
    } else {
      StepKeepsRecords(w, steps[k - 1], worlds[k]);
      last, first := RecordWasRead(worlds, steps, rounds, k - 1, s);
    }
  }

  lemma KeptRecord(previous: Option<Stats>, p: Pod, a: Answer)
    requires !TakesSample(previous, p, a) && NextRecord(previous, p, a).Some?
    ensures NextRecord(previous, p, a) == previous
  {
  }

  lemma StoredTwice(f: Stats, x: Reading)
    requires Holds(f, x)
    ensures Stored(f) == f
  {
  }

  /** A stored record comes from one worker of the round. */
  lemma RecordOrigin(stats: seq<Stats>, r: Round, after: seq<Stats>, s: Stats) returns (p: Pod, f: Stats)
    requires RoundStores(stats, r, after) && s in after
    ensures p in r.listing && RecordIn(stats, r, p) == Some(f) && s == Stored(f) && f.name == p.name == s.name
  {
    var taken :| IsRound(stats, r, taken) && after == StoredAll(taken);
    var i :| 0 <= i < |after| && after[i] == s;
    f := taken[i];
    p :| p in r.listing && RecordIn(stats, r, p) == Some(f);
    RecordName(stats, r, p);
  }

  // ---------- the rate that lets a worker go ----------

  /** Between two readings of the run the worker moved less than the idle rate allows. */
  ghost predicate MeasuredIdle(worlds: seq<World>, steps: seq<Step>, rounds: seq<Round>, name: string, current: Stats,
                               leftAt: Time, now: Time, first: Reading, last: Reading)
    requires |worlds| == |rounds| + 1 && |steps| == |rounds|
  {
    && first.step < last.step && ReadIn(worlds, steps, rounds, name, first) && ReadIn(worlds, steps, rounds, name, last)
    && var from := Rfc3339(first.now);
    && 0 < last.now - from <= 2 * MINUTE
    && current.startTime.Some? && from >= current.startTime.value - 10 * SECOND
    && leftAt <= last.now && now < last.now + 2 * MINUTE + SECOND
    && first.counters.transferBytes.Some? && last.counters.transferBytes.Some?
    && var moved := last.counters.transferBytes.value - first.counters.transferBytes.value;
    && 0 <= moved && moved * SECOND < IDLE_RATE * (last.now - from)
  }

  /**
   Rate soundness. An idle sample of a run was measured: between two readings of the worker at most two minutes apart,
   the first no earlier than ten seconds before the start of the current process, the bytes moved stay strictly below
   the idle rate times the time between them.
   */
  lemma IdleWasMeasured(worlds: seq<World>, steps: seq<Step>, rounds: seq<Round>, k: nat,
                        p: Pod, current: Stats, leftAt: Time, now: Time)
    returns (first: Reading, last: Reading)
    requires SampledRun(worlds, steps, rounds) && k < |worlds|
    requires IdleSample(p, RecordOf(worlds[k].status.stats, p.name), current, leftAt, now)
    ensures last.step < k && MeasuredIdle(worlds, steps, rounds, p.name, current, leftAt, now, first, last)
  {
    var stats := worlds[k].status.stats;
    var s := RecordOf(stats, p.name);
    PreviousIsRecordOf(stats, p.name);
    assert s in stats && s.name == p.name;
    last, first := RecordWasRead(worlds, steps, rounds, k, s);
    assert first.counters.readAt <= first.now;
    WindowIsIdle(s, first, last, current, leftAt, now);
  }

  lemma WindowIsIdle(s: Stats, first: Reading, last: Reading, current: Stats, leftAt: Time, now: Time)
    requires Holds(s, last) && s.transferRate.Some? && IsMeasured(s, first, last)
    requires first.counters.readAt <= first.now
    requires SameWorkerProcess(s.startTime, current.startTime) && s.transferRate.value < IDLE_RATE
    requires now - 2 * MINUTE <= s.lastSampleTime.value && leftAt <= s.lastSampleTime.value
    ensures var from := Rfc3339(first.now);
      && 0 < last.now - from <= 2 * MINUTE
      && current.startTime.Some? && from >= current.startTime.value - 10 * SECOND
      && leftAt <= last.now && now < last.now + 2 * MINUTE + SECOND
      && var moved := last.counters.transferBytes.value - first.counters.transferBytes.value;
      && 0 <= moved && moved * SECOND < IDLE_RATE * (last.now - from)
  {
    var from := Rfc3339(first.now);
    Rfc3339Monotone(StartOf(first.counters).value, first.now);
    var moved := (last.counters.transferBytes.value - first.counters.transferBytes.value) * SECOND;
    RateBelow(moved, last.now - from, s.transferRate.value, IDLE_RATE);
  }

  /** A rate is below a bound exactly when the amount is below the bound times the time. */
  lemma RateBelow(a: int, d: int, rate: int, bound: int)
    requires d > 0 && rate * d <= a < (rate + 1) * d
    ensures rate < bound <==> a < bound * d
  {
    if rate < bound {
      MulMonotone(d, rate + 1, bound);
    } else {
      MulMonotone(d, bound, rate);
    }
  }

  lemma ListedName(w: World, e: Event, name: string)
    requires Fair(e, w) && name in w.pods
    ensures w.pods[name].name == name
  {
  }

  /**
   Leave safety in terms of readings: in a run sampled by rounds, a redundant worker that held cache and is gone had
   entered the leave, and went past the timeout or because two readings measured it idle.
   */
  lemma LeaveIsMeasured(worlds: seq<World>, steps: seq<Step>, rounds: seq<Round>, name: string, e: Event)
    returns (j: int, first: Reading, last: Reading)
    requires SampledRun(worlds, steps, rounds) && Redundantly(worlds, steps, name)
    requires LeaveTime(worlds[0], name) == None
    requires var w := worlds[|steps|];
      && Fair(e, w) && !Lives(HandledWorld(e, w), name)
      && Unexpected(e, w.pods[name]) && HoldsCache(e, w.pods[name]) && !LosesPod(e, w, w.pods[name])
    ensures EntersAt(worlds, steps, name, j)
    ensures var leftAt := Rfc3339(steps[j].event.clock.during);
      || e.clock.during > leftAt + WaitingMax(e.g)
      || (last.step < |steps|
          && MeasuredIdle(worlds, steps, rounds, name, e.api(name).currentStats.value, leftAt, e.clock.during, first,
              last))
  {
    ListedName(worlds[|steps|], e, name);
    hide StepTo, HandledWorld, Fair, Unexpected, LosesPod, EntersAt, IdleSample, MeasuredIdle;
    j := LeaveSafety(worlds, steps, name, e);
    var leftAt := Rfc3339(steps[j].event.clock.during);
    var p := worlds[|steps|].pods[name];
    first, last := *, *;
    if e.clock.during <= leftAt + WaitingMax(e.g) {
      first, last := IdleWasMeasured(worlds, steps, rounds, |steps|, p, e.api(name).currentStats.value, leftAt,
          e.clock.during);
    }
  }

  // ---------- every idle worker is seen to be idle ----------

  /** Step m is no stats round, or one that lists the worker live and does not read it. */
  ghost predicate PassesBy(worlds: seq<World>, steps: seq<Step>, rounds: seq<Round>, name: string, m: nat)
    requires |worlds| == |rounds| + 1 && |steps| == |rounds| && m < |rounds|
  {
    steps[m].Sampled? ==>
      exists p :: p in rounds[m].listing && Unread(worlds[m].status.stats, p, name, rounds[m].answer(name))
  }

  predicate Unread(stats: seq<Stats>, p: Pod, name: string, a: Answer) {
    p.name == name && !p.deleting && !TakesSample(Previous(stats, name), p, a)
  }

  lemma {:induction false} PreviousOfMember(stats: seq<Stats>, i: nat)
    requires DistinctStats(stats) && i < |stats|
    ensures Previous(stats, stats[i].name) == Some(stats[i])
  {
    var init, last := stats[..|stats| - 1], stats[|stats| - 1];
    assert KeyBy(stats) == KeyBy(init)[last.name := last];
    if i < |init| {
      assert init[i] == stats[i];
      PreviousOfMember(init, i);
    }
  }

  /** What a round leaves under the name of a listed worker. */
  lemma RoundLeaves(stats: seq<Stats>, r: Round, after: seq<Stats>, p: Pod)
    requires RoundStores(stats, r, after) && p in r.listing && RecordIn(stats, r, p).Some?
    ensures Previous(after, p.name) == Some(Stored(RecordIn(stats, r, p).value))
  {
    hide RecordIn, Stored, KeyBy;
    var taken :| IsRound(stats, r, taken) && after == StoredAll(taken);
    var f := RecordIn(stats, r, p).value;
    RecordName(stats, r, p);
    var i :| 0 <= i < |taken| && taken[i] == f;
    StoredDistinct(taken);
    StoredName(f);
    PreviousOfMember(after, i);
  }

  lemma StoredName(s: Stats)
    ensures Stored(s).name == s.name
  {
  }

  lemma StoredDistinct(taken: seq<Stats>)
    requires DistinctStats(taken)
    ensures DistinctStats(StoredAll(taken))
  {
  }

  /** A reading leaves its record, rated since the reading before it. */
  lemma ReadingLeaves(worlds: seq<World>, steps: seq<Step>, rounds: seq<Round>, name: string, x: Reading)
    returns (s: Stats)
    requires SampledRun(worlds, steps, rounds) && ReadIn(worlds, steps, rounds, name, x)
    ensures Previous(worlds[x.step + 1].status.stats, name) == Some(s) && Holds(s, x)
    ensures var previous := Previous(worlds[x.step].status.stats, name);
      forall y :: previous.Some? && Holds(previous.value, y) ==> RatedSince(s, y, x)
  {
    var stats, r := worlds[x.step].status.stats, rounds[x.step];
    hide Holds, RatedSince, TakesSample, IsTotal, KeyBy;
    var p :| p in r.listing && p.name == name && TakesSample(Previous(stats, name), p, r.answer(name));
    assert StepTo(worlds[x.step], steps[x.step], worlds[x.step + 1]);
    SampledRecord(Previous(stats, name), p, r.answer(name), x.step);
    RecordTaken(Previous(stats, name), p, r.answer(name));
    RoundLeaves(stats, r, worlds[x.step + 1].status.stats, p);
    s := Stored(RecordIn(stats, r, p).value);
    assert x == Reading(x.step, r.answer(name).counters.value, r.answer(name).now);
  }

  lemma RecordTaken(previous: Option<Stats>, p: Pod, a: Answer)
    requires TakesSample(previous, p, a)
    ensures NextRecord(previous, p, a).Some?
  {
  }

  /** A record stays as long as the rounds pass the worker by. */
  lemma {:induction false} RecordStays(worlds: seq<World>, steps: seq<Step>, rounds: seq<Round>, name: string, j: nat,
                                       k: nat, s: Stats, x: Reading)
    requires SampledRun(worlds, steps, rounds) && j <= k < |worlds|
    requires Previous(worlds[j].status.stats, name) == Some(s) && Holds(s, x)
    requires forall m :: j <= m < k ==> PassesBy(worlds, steps, rounds, name, m)
    ensures Previous(worlds[k].status.stats, name) == Some(s)
  {
    hide Holds, KeyBy, IsTotal, TakesSample, Stored, RoundStores;
    if j < k {
      RecordStays(worlds, steps, rounds, name, j, k - 1, s, x);
      var w, r := worlds[k - 1], rounds[k - 1];
      assert StepTo(w, steps[k - 1], worlds[k]) && PassesBy(worlds, steps, rounds, name, k - 1);
      if steps[k - 1].Sampled? {
        var p :| p in r.listing && Unread(w.status.stats, p, name, r.answer(name));
        RecordPassedBy(s, p, r.answer(name));
        RoundLeaves(w.status.stats, r, worlds[k].status.stats, p);
        StoredTwice(s, x);
      } else {
        StepKeepsRecords(w, steps[k - 1], worlds[k]);
      }
    }
  }

  lemma RecordPassedBy(s: Stats, p: Pod, a: Answer)
    requires !p.deleting && !TakesSample(Some(s), p, a)
    ensures NextRecord(Some(s), p, a) == Some(s)
  {
  }

  /** Two readings one after the other, with nothing read in between or since. */
  ghost predicate LastTwo(worlds: seq<World>, steps: seq<Step>, rounds: seq<Round>, name: string, first: Reading,
                          last: Reading, k: nat)
    requires |worlds| == |rounds| + 1 && |steps| == |rounds|
  {
    && first.step < last.step < k < |worlds|
    && ReadIn(worlds, steps, rounds, name, first) && ReadIn(worlds, steps, rounds, name, last)
    && forall m :: first.step < m < k && m != last.step ==> PassesBy(worlds, steps, rounds, name, m)
  }

  /**
   Rate completeness. The record of a worker read twice in a row holds the second reading, and it has each rate exactly
   when both readings are of one process, at most two minutes apart, and report a counter that did not go back.
   */
  lemma LastTwoAreRated(worlds: seq<World>, steps: seq<Step>, rounds: seq<Round>, name: string, first: Reading,
                        last: Reading, k: nat) returns (s: Stats)
    requires SampledRun(worlds, steps, rounds) && LastTwo(worlds, steps, rounds, name, first, last, k)
    ensures RecordOf(worlds[k].status.stats, name) == s && Previous(worlds[k].status.stats, name) == Some(s)
    ensures Holds(s, last) && RatedSince(s, first, last)
  {
    hide Holds, RatedSince, KeyBy, ReadIn, PassesBy, SampledRun;
    var f := ReadingLeaves(worlds, steps, rounds, name, first);
    RecordStays(worlds, steps, rounds, name, first.step + 1, last.step, f, first);
    s := ReadingLeaves(worlds, steps, rounds, name, last);
    RecordStays(worlds, steps, rounds, name, last.step + 1, k, s, last);
    PreviousIsRecordOf(worlds[k].status.stats, name);
  }

  /**
   A ready worker whose last two readings are of its present process, at most two minutes apart, the second fresh and
   taken after the leave began, and between which it moved less than the idle rate allows, has an idle sample.
   */
  lemma IdleIsSampled(worlds: seq<World>, steps: seq<Step>, rounds: seq<Round>, k: nat, p: Pod, current: Stats,
                      leftAt: Time, now: Time, first: Reading, last: Reading)
    requires SampledRun(worlds, steps, rounds) && LastTwo(worlds, steps, rounds, p.name, first, last, k)
    requires IsWindow(first, last) && p.ready && OneProcess(Whole(StartOf(last.counters)), current.startTime)
    requires var at := Rfc3339(last.now); leftAt <= at && now <= at + 2 * MINUTE
    requires first.counters.transferBytes.Some? && last.counters.transferBytes.Some?
    requires var moved := last.counters.transferBytes.value - first.counters.transferBytes.value;
      0 <= moved && moved * SECOND < IDLE_RATE * (last.now - Rfc3339(first.now))
    requires last.counters.transferBytes.value != 0
             || Rfc3339(last.now) >= Whole(StartOf(last.counters)).value + Max(MINUTE, RebalanceDelay(p) + MINUTE)
    ensures IdleSample(p, RecordOf(worlds[k].status.stats, p.name), current, leftAt, now)
  {
    var s := LastTwoAreRated(worlds, steps, rounds, p.name, first, last, k);
    hide SampledRun, LastTwo, KeyBy, RecordOf, Rfc3339, IdleSample;
    SlowRate(s.transferRate, first.counters.transferBytes, last.counters.transferBytes,
             last.now - Rfc3339(first.now));
    IdleRecord(p, s, last, current, leftAt, now);
  }

  lemma SlowRate(rate: Option<int>, before: Option<int>, after: Option<int>, interval: Duration)
    requires IsRateOf(rate, before, after, interval) && before.Some? && after.Some? && interval > 0
    requires var moved := after.value - before.value; 0 <= moved && moved * SECOND < IDLE_RATE * interval
    ensures rate.Some? && rate.value < IDLE_RATE
  {
    RateBelow((after.value - before.value) * SECOND, interval, rate.value, IDLE_RATE);
  }

  lemma IdleRecord(p: Pod, s: Stats, last: Reading, current: Stats, leftAt: Time, now: Time)
    requires Holds(s, last) && p.ready && OneProcess(s.startTime, current.startTime)
    requires s.transferRate.Some? && s.transferRate.value < IDLE_RATE && s.transferBytes.Some?
    requires leftAt <= s.lastSampleTime.value && now <= s.lastSampleTime.value + 2 * MINUTE
    requires s.transferBytes.value != 0
             || s.lastSampleTime.value >= s.startTime.value + Max(MINUTE, RebalanceDelay(p) + MINUTE)
    ensures IdleSample(p, s, current, leftAt, now)
  {
  }

  /**
   A redundant worker that is leaving, still holds cache and was measured idle in this sense goes exactly when the
   reconcile gets to it and its deletion is accepted: it need not wait for its timeout.
   */
  lemma MeasuredLeaverGoes(worlds: seq<World>, steps: seq<Step>, rounds: seq<Round>, k: nat, e: Event, name: string,
                           first: Reading, last: Reading)
    requires SampledRun(worlds, steps, rounds) && LastTwo(worlds, steps, rounds, name, first, last, k)
    requires Fair(e, worlds[k]) && name in worlds[k].pods
    requires var p := worlds[k].pods[name];
      && Unexpected(e, p) && Redundant(e.g, e.expected.Keys, p) && Leaving(p) && LeaveRuns.Holds(e, p)
      && var current, at := e.api(name).currentStats.value, Rfc3339(last.now);
      && OneProcess(Whole(StartOf(last.counters)), current.startTime)
      && p.annotations.waitingAt.value <= at && e.clock.during <= at + 2 * MINUTE
    requires IsWindow(first, last) && first.counters.transferBytes.Some? && last.counters.transferBytes.Some?
    requires var moved := last.counters.transferBytes.value - first.counters.transferBytes.value;
      0 <= moved && moved * SECOND < IDLE_RATE * (last.now - Rfc3339(first.now))
    requires last.counters.transferBytes.value != 0
             || Rfc3339(last.now) >= Whole(StartOf(last.counters)).value
                                     + Max(MINUTE, RebalanceDelay(worlds[k].pods[name]) + MINUTE)
    ensures !Lives(HandledWorld(e, worlds[k]), name) <==>
      Reached(e, worlds[k], name) && !e.api(name).deletion.Refused?
  {
    var w := worlds[k];
    var p := w.pods[name];
    ListedName(w, e, name);
    var leftAt, now := p.annotations.waitingAt.value, e.clock.during;
    IdleIsSampled(worlds, steps, rounds, k, p, e.api(name).currentStats.value, leftAt, now, first, last);
    var st := FirstStatus(e, w.status);
    assert st.stats == w.status.stats;
    LeavingReleasedExactly(e.g, st, p, RecordOf(st.stats, name), e.api(name), now);
    hide IdleSample, SampledRun, LastTwo, HandledWorld, Unexpected, Redundant, Reached, FirstStatus, ShutdownOf;
    GoesExactly(e, w, name);
  }

  /**
   A ready, joining worker measured slow in the same sense, late enough after its join and after every reported start,
   has the sample that ends its join phase.
   */
  lemma JoinIsSampled(worlds: seq<World>, steps: seq<Step>, rounds: seq<Round>, k: nat, p: Pod, joinedAt: Time,
                      now: Time, first: Reading, last: Reading) returns (own: Stats)
    requires SampledRun(worlds, steps, rounds) && LastTwo(worlds, steps, rounds, p.name, first, last, k)
    requires IsWindow(first, last) && p.ready && now <= Rfc3339(last.now) + 2 * MINUTE
    requires first.counters.receiveBytes.Some? && last.counters.receiveBytes.Some?
    requires var moved := last.counters.receiveBytes.value - first.counters.receiveBytes.value;
      0 <= moved && moved * SECOND < IDLE_RATE * (last.now - Rfc3339(first.now))
    requires var late := RebalanceDelay(p) + MINUTE;
      && Rfc3339(last.now) >= joinedAt + late
      && forall s :: s in worlds[k].status.stats && s.startTime.Some? ==> Rfc3339(last.now) >= s.startTime.value + late
    requires last.counters.receiveBytes.value != 0 || Rfc3339(last.now) >= Whole(StartOf(last.counters)).value
    ensures EndsJoin(p, joinedAt, worlds[k].status.stats, own, now)
  {
    own := LastTwoAreRated(worlds, steps, rounds, p.name, first, last, k);
    hide SampledRun, LastTwo, RecordOf, Rfc3339;
    SlowRate(own.receiveRate, first.counters.receiveBytes, last.counters.receiveBytes,
             last.now - Rfc3339(first.now));
  }

  // ---------- who is let into a closed window ----------

  /** In a run sampled by rounds the stored cache size is the total of the stored records. */
  lemma {:induction false} SizeIsTotal(worlds: seq<World>, steps: seq<Step>, rounds: seq<Round>, k: nat)
    requires SampledRun(worlds, steps, rounds) && k < |worlds|
    ensures IsTotal(worlds[k].status.stats, CacheBytesOf, worlds[k].status.cacheSize)
  {
    hide IsTotal, RoundStores, ReconciledTo, Drift;
    if k == 0 {
      NothingTotal();
    } else {
      SizeIsTotal(worlds, steps, rounds, k - 1);
      assert StepTo(worlds[k - 1], steps[k - 1], worlds[k]);
      if !steps[k - 1].Sampled? {
        StepKeepsRecords(worlds[k - 1], steps[k - 1], worlds[k]);
      }
    }
  }

  lemma NothingTotal()
    ensures IsTotal([], CacheBytesOf, "")
  {
  }

  /**
   A worker outside the batch that appears in a closed window carries no join mark, and at the last round some worker
   reported its cache and the reports added up to a multiple of 2^64; for sizes that add up within 64 bits, all were
   zero.
   */
  lemma OutsiderMeansEmpty(worlds: seq<World>, steps: seq<Step>, rounds: seq<Round>, k: nat, b: Batch, name: string)
    requires SampledRun(worlds, steps, rounds) && Inv(worlds[0]) && k < |steps| && steps[k].Reconciled?
    requires var e, w := steps[k].event, worlds[k];
      FirstStatus(e, w.status).rebalance == Some(b) && ClosedAt(b, e.clock.start)
    requires name in worlds[k + 1].pods && name !in worlds[k].pods && name !in b.members
    ensures !Joining(worlds[k + 1].pods[name])
    ensures var stats := worlds[k].status.stats;
      && AnyReports(stats, CacheBytesOf) && Total(stats, CacheBytesOf) % WRAP == 0
      && (NonNegative(stats, CacheBytesOf) && Total(stats, CacheBytesOf) < INT64_LIMIT ==>
            forall s :: s in stats && s.cacheBytes.Some? ==> s.cacheBytes.value == 0)
  {
    var e, w, w' := steps[k].event, worlds[k], worlds[k + 1];
    InvAlways(worlds, steps, k);
    SizeIsTotal(worlds, steps, rounds, k);
    assert StepTo(w, steps[k], w');
    ClosedReconcile(e, w, w', b);
    hide IsTotal, Total, AnyReports, NonNegative, FirstStatus, ReconciledTo, Inv;
    TotalSaysEmptyExactly(w.status.stats, CacheBytesOf, w.status.cacheSize);
    if NonNegative(w.status.stats, CacheBytesOf) && Total(w.status.stats, CacheBytesOf) < INT64_LIMIT {
      EmptyCacheExactly(w.status.stats, CacheBytesOf, w.status.cacheSize);
      forall s | s in w.status.stats && s.cacheBytes.Some? ensures s.cacheBytes.value == 0 {
        assert CacheBytesOf(s).Some?;
      }
    }
  }
}
