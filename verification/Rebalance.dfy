/**
 The rebalance batch: calculateStatus collects the joining workers of a window into one batch, moves its start,
 and clears it when it is done or late.
 */
module Rebalance {
  import opened Wrappers
  import opened Kube
  import opened Worker
  import opened Names

  // ---------- pods of a listing ----------

  /** Kubernetes lists each name of a namespace at most once. */
  ghost predicate DistinctPods(pods: seq<Pod>) {
    forall i, j :: 0 <= i < j < |pods| ==> pods[i].name != pods[j].name
  }

  function PodNames(pods: seq<Pod>): set<string> {
    set p | p in pods :: p.name
  }

  /** lo.KeyBy: the last pod of the list with the name. */
  function Find(pods: seq<Pod>, name: string): (r: Option<Pod>)
    ensures r.Some? ==> r.value in pods && r.value.name == name
    ensures r.None? ==> forall p :: p in pods ==> p.name != name
  {
    if pods == [] then None
    else
      assert pods == pods[..|pods| - 1] + [pods[|pods| - 1]];
      if pods[|pods| - 1].name == name then Some(pods[|pods| - 1])
      else Find(pods[..|pods| - 1], name)
  }

  lemma FindListed(pods: seq<Pod>, p: Pod)
    requires DistinctPods(pods) && p in pods
    ensures Find(pods, p.name) == Some(p)
  {
  }

  /** The places of a listing at which something holds of the pod. */
  function Places(pods: seq<Pod>, holds: Pod -> bool): set<nat> {
    set k: nat | k < |pods| && holds(pods[k])
  }

  lemma PlacesOneMore(init: seq<Pod>, last: Pod, holds: Pod -> bool)
    ensures |Places(init + [last], holds)| == |Places(init, holds)| + if holds(last) then 1 else 0
  {
    var before, after := Places(init, holds), Places(init + [last], holds);
    if holds(last) {
      assert after == before + {|init|};
    } else {
      assert after == before;
    }
  }

  /** How many pods of a listing join, leave, and are ready. */
  datatype Tally = Tally(joining: nat, leaving: nat, ready: nat)

  function Count(p: Pod, t: Tally): Tally {
    Tally(t.joining + if Joining(p) then 1 else 0,
          t.leaving + if Leaving(p) then 1 else 0,
          t.ready + if p.ready then 1 else 0)
  }

  function TallyOf(pods: seq<Pod>): Tally {
    if pods == [] then Tally(0, 0, 0)
    else Count(pods[|pods| - 1], TallyOf(pods[..|pods| - 1]))
  }

  // ---------- recomputing the batch ----------

  function AddJoiner(batch: Option<Batch>, p: Pod, delay: Duration): Option<Batch> {
    match p.annotations.joinedAt
    case None => batch
    case Some(at) =>
      var b := batch.GetOr(Batch([], ZERO_TIME));
      if p.name in b.members then Some(b)
      else Some(Batch(b.members + [p.name], Max(b.startAt, at + delay)))
  }

  function Collect(batch: Option<Batch>, pods: seq<Pod>, delay: Duration): Option<Batch> {
    if pods == [] then batch
    else AddJoiner(Collect(batch, pods[..|pods| - 1], delay), pods[|pods| - 1], delay)
  }

  /** A member that has joined: expected, there, ready, and out of its join phase. */
  predicate Settled(name: string, expected: set<string>, pods: seq<Pod>) {
    && name in expected
    && Find(pods, name).Some?
    && var p := Find(pods, name).value;
    !Joining(p) && !p.deleting && p.ready
  }

  predicate Finished(b: Batch, expected: set<string>, pods: seq<Pod>, now: Time) {
    now >= b.startAt && forall name :: name in b.members ==> Settled(name, expected, pods)
  }

  function Trim(b: Batch, expected: set<string>, pods: seq<Pod>): Batch {
    b.(members := Sort(Keep(b.members, expected + PodNames(pods))))
  }

  function Settle(b: Batch, g: Group, expected: set<string>, pods: seq<Pod>, now: Time): Option<Batch> {
    var t := Trim(b, expected, pods);
    if t.members == [] || Finished(t, expected, pods, now) || now >= t.startAt + BackupDuration(g) then None
    else Some(t)
  }

  /** The batch part of calculateStatus, for a group that expects at least one worker. */
  function Recompute(batch: Option<Batch>, g: Group, expected: set<string>, pods: seq<Pod>, now: Time): Option<Batch> {
    match Collect(batch, pods, GroupDelay(pods))
    case None => None
    case Some(b) => Settle(b, g, expected, pods, now)
  }

  function ExpectedNames(g: Group, nodes: set<string>): set<string> {
    set node | node in nodes :: PodName(g, node)
  }

  function StatusOf(g: Group, status: Status, nodes: set<string>, pods: seq<Pod>, now: Time): Status {
    if nodes == {} then
      status.(phase := Waiting, rebalance := None, readyWorker := 0, expectWorker := 0, backUpWorker := 0)
    else
      var tally := TallyOf(pods);
      status.(
        rebalance := Recompute(status.rebalance, g, ExpectedNames(g, nodes), pods, now),
        readyWorker := tally.ready,
        expectWorker := |nodes|,
        backUpWorker := tally.joining,
        waitingDeletedWorker := tally.leaving,
        phase := if |nodes| != tally.ready then Progressing else Ready)
  }

  method CalculateStatus(g: Group, status: Status, nodes: set<string>, actual: seq<Pod>, now: Time)
    returns (next: Status)
    ensures next == StatusOf(g, status, nodes, actual, now)
  {
    hide IsGroupDelay, ExpectedNames, Settle;
    next := status;
    if |nodes| == 0 {
      next := next.(readyWorker := 0, expectWorker := 0, backUpWorker := 0, rebalance := None, phase := Waiting);
      return;
    }
    var backUp, waiting, ready := 0, 0, 0;
    var batch := status.rebalance;
    var delay := CacheGroupRebalanceDelay(actual);
    for i := 0 to |actual|
      invariant batch == Collect(status.rebalance, actual[..i], delay)
      invariant Tally(backUp, waiting, ready) == TallyOf(actual[..i])
    {
      assert actual[..i + 1][..i] == actual[..i];
      var worker := actual[i];
      if worker.annotations.joinedAt.Some? {
        backUp := backUp + 1;
        var b := batch.GetOr(Batch([], ZERO_TIME));
        if worker.name !in b.members {
          b := b.(members := b.members + [worker.name]);
          var startAt := worker.annotations.joinedAt.value + delay;
          if startAt > b.startAt {
            b := b.(startAt := startAt);
          }
        }
        batch := Some(b);
      }
      if worker.annotations.waitingAt.Some? {
        waiting := waiting + 1;
      }
      if worker.ready {
        ready := ready + 1;
      }
    }
    assert actual[..|actual|] == actual;
    if batch.Some? {
      batch := SettleBatch(g, batch.value, nodes, actual, now);
    }
    next := next.(rebalance := batch, readyWorker := ready, expectWorker := |nodes|, backUpWorker := backUp,
                  waitingDeletedWorker := waiting);
    next := next.(phase := if next.expectWorker != next.readyWorker then Progressing else Ready);
  }

  /** The second half of the batch computation: drop gone members, then decide whether the batch stays. */
  method SettleBatch(g: Group, batch: Batch, nodes: set<string>, actual: seq<Pod>, now: Time)
    returns (next: Option<Batch>)
    ensures next == Settle(batch, g, ExpectedNames(g, nodes), actual, now)
  {
    hide Sort, Keep, Find, ExpectedNames, PodNames;
    var expected := ExpectedNames(g, nodes);
    var b := batch.(members := Sort(Keep(batch.members, expected + PodNames(actual))));
    var finished := now >= b.startAt;
    var i := 0;
    while i < |b.members|
      invariant 0 <= i <= |b.members|
      invariant finished <==> now >= b.startAt && forall j :: 0 <= j < i ==> Settled(b.members[j], expected, actual)
    {
      var name := b.members[i];
      var worker := Find(actual, name);
      if worker.None? || name !in expected || worker.value.annotations.joinedAt.Some? || worker.value.deleting
         || !worker.value.ready {
        assert !Settled(name, expected, actual);
        finished := false;
        break;
      }
      i := i + 1;
    }
    var deadline := b.startAt + BackupDuration(g);
    if |b.members| == 0 || finished {
      return None;
    } else if now >= deadline {
      return None;
    }
    return Some(b);
  }

  // ---------- what a recomputation yields ----------

  /** A joining worker of the listing that the batch does not hold yet. */
  predicate Newcomer(batch: Option<Batch>, p: Pod) {
    Joining(p) && (batch.None? || p.name !in batch.value.members)
  }

  function StartOf(batch: Option<Batch>): Time {
    if batch.None? then ZERO_TIME else batch.value.startAt
  }

  function MembersOf(batch: Option<Batch>): seq<string> {
    if batch.None? then [] else batch.value.members
  }

  /** The start of a batch after collecting: the latest of the old start and the newcomers' joins plus delay. */
  ghost predicate IsStart(start: Time, batch: Option<Batch>, pods: seq<Pod>, delay: Duration) {
    && StartOf(batch) <= start
    && (forall p :: p in pods && Newcomer(batch, p) ==> p.annotations.joinedAt.value + delay <= start)
    && (|| start == StartOf(batch)
        || exists p :: p in pods && Newcomer(batch, p) && start == p.annotations.joinedAt.value + delay)
  }

  ghost predicate Joiner(pods: seq<Pod>, name: string) {
    exists p :: p in pods && Joining(p) && p.name == name
  }

  ghost predicate IsCollected(c: Option<Batch>, batch: Option<Batch>, pods: seq<Pod>, delay: Duration) {
    && (c.None? <==> batch.None? && forall p :: p in pods ==> !Joining(p))
    && (c.Some? ==>
          && Distinct(c.value.members)
          && (forall n :: n in c.value.members <==> n in MembersOf(batch) || Joiner(pods, n))
          && IsStart(c.value.startAt, batch, pods, delay))
  }

  lemma {:induction false} CollectIs(batch: Option<Batch>, pods: seq<Pod>, delay: Duration)
    requires DistinctPods(pods) && Distinct(MembersOf(batch))
    ensures IsCollected(Collect(batch, pods, delay), batch, pods, delay)
  {
    if pods != [] {
      var init, last := pods[..|pods| - 1], pods[|pods| - 1];
      assert pods == init + [last];
      CollectIs(batch, init, delay);
      CollectOne(Collect(batch, init, delay), batch, init, last, delay);
    }
  }

  lemma JoinerOneMore(init: seq<Pod>, last: Pod)
    ensures forall n :: Joiner(init + [last], n) <==> Joiner(init, n) || (Joining(last) && n == last.name)
  {
    var pods := init + [last];
    forall n ensures Joiner(pods, n) <==> Joiner(init, n) || (Joining(last) && n == last.name) {
      if Joiner(pods, n) {
        var p :| p in pods && Joining(p) && p.name == n;
        assert p in init || p == last;
      }
      if Joiner(init, n) {
        var p :| p in init && Joining(p) && p.name == n;
        assert p in pods;
      }
      assert last in pods;
    }
  }

  lemma StartOneMore(start: Time, batch: Option<Batch>, init: seq<Pod>, last: Pod, delay: Duration)
    requires IsStart(start, batch, init, delay)
    ensures IsStart(if Newcomer(batch, last) then Max(start, last.annotations.joinedAt.value + delay) else start,
                    batch, init + [last], delay)
  {
    var pods := init + [last];
    assert last in pods;
    assert forall p :: p in pods <==> p in init || p == last;
  }

  /** One more pod in the listing. */
  lemma CollectOne(c: Option<Batch>, batch: Option<Batch>, init: seq<Pod>, last: Pod, delay: Duration)
    requires IsCollected(c, batch, init, delay) && forall p :: p in init ==> p.name != last.name
    ensures IsCollected(AddJoiner(c, last, delay), batch, init + [last], delay)
  {
    var pods := init + [last];
    assert forall p :: p in pods <==> p in init || p == last;
    JoinerOneMore(init, last);
    if c.Some? {
      StartOneMore(c.value.startAt, batch, init, last, delay);
    } else {
      assert IsStart(ZERO_TIME, batch, init, delay);
      StartOneMore(ZERO_TIME, batch, init, last, delay);
    }
    hide IsStart;
    if Joining(last) {
      assert !Joiner(init, last.name);
      var b := c.GetOr(Batch([], ZERO_TIME));
      assert last.name in b.members <==> last.name in MembersOf(batch);
      assert Newcomer(batch, last) <==> last.name !in b.members;
    }
  }
}
