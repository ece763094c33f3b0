/** What a recomputation of the rebalance batch guarantees, for every listing, batch and clock. */
module RebalanceTheorems {
  import opened Wrappers
  import opened Kube
  import opened Worker
  import opened Names
  import opened Rebalance

  // ---------- an independent definition ----------

  /** Who belongs to the batch: members so far and joining workers, as long as they are expected or exist. */
  ghost predicate Member(name: string, batch: Option<Batch>, expected: set<string>, pods: seq<Pod>) {
    && (name in MembersOf(batch) || Joiner(pods, name))
    && (name in expected || name in PodNames(pods))
  }

  /** The worker of the name is expected and there, ready, not being deleted, and joins no more. */
  ghost predicate HasSettled(name: string, expected: set<string>, pods: seq<Pod>) {
    name in expected && exists p :: p in pods && p.name == name && HasJoined(p)
  }

  predicate HasJoined(p: Pod) {
    p.ready && !p.deleting && p.annotations.joinedAt.None?
  }

  lemma SettledExactly(name: string, expected: set<string>, pods: seq<Pod>)
    requires DistinctPods(pods)
    ensures Settled(name, expected, pods) <==> HasSettled(name, expected, pods)
  {
    if HasSettled(name, expected, pods) {
      var p :| p in pods && p.name == name && HasJoined(p);
      FindListed(pods, p);
    }
  }

  /** A batch goes when nobody is left in it, when everybody has settled after its start, or at its deadline. */
  ghost predicate Gone(start: Time, batch: Option<Batch>, g: Group, expected: set<string>, pods: seq<Pod>, now: Time) {
    || (forall name :: !Member(name, batch, expected, pods))
    || (now >= start && forall name :: Member(name, batch, expected, pods) ==> HasSettled(name, expected, pods))
    || now >= start + BackupDuration(g)
  }

  ghost predicate IsRecomputed(r: Option<Batch>, start: Time, batch: Option<Batch>, g: Group, expected: set<string>,
                               pods: seq<Pod>, now: Time) {
    && IsStart(start, batch, pods, GroupDelay(pods))
    && (r.None? <==> Gone(start, batch, g, expected, pods, now))
    && (r.Some? ==>
          && r.value.startAt == start
          && SortedNames(r.value.members) && Distinct(r.value.members)
          && forall name :: name in r.value.members <==> Member(name, batch, expected, pods))
  }

  lemma TrimIs(b: Batch, expected: set<string>, pods: seq<Pod>)
    requires Distinct(b.members)
    ensures var t := Trim(b, expected, pods);
      && t.startAt == b.startAt && SortedNames(t.members) && Distinct(t.members)
      && forall name :: name in t.members <==> name in b.members && (name in expected || name in PodNames(pods))
  {
    var kept := Keep(b.members, expected + PodNames(pods));
    SortSorts(kept);
    SortDistinct(kept);
  }

  lemma {:induction false} StartExists(batch: Option<Batch>, pods: seq<Pod>, delay: Duration) returns (start: Time)
    ensures IsStart(start, batch, pods, delay)
  {
    if pods == [] {
      start := StartOf(batch);
    } else {
      var init, last := pods[..|pods| - 1], pods[|pods| - 1];
      assert pods == init + [last];
      start := StartExists(batch, init, delay);
      if Newcomer(batch, last) {
        start := Max(start, last.annotations.joinedAt.value + delay);
      }
    }
  }

  /** calculateStatus computes the batch the definition describes. */
  lemma RecomputeIs(batch: Option<Batch>, g: Group, expected: set<string>, pods: seq<Pod>, now: Time)
    returns (start: Time)
    requires DistinctPods(pods) && Distinct(MembersOf(batch))
    ensures IsRecomputed(Recompute(batch, g, expected, pods, now), start, batch, g, expected, pods, now)
  {
    var delay := GroupDelay(pods);
    CollectIs(batch, pods, delay);
    match Collect(batch, pods, delay) {
      case None =>
        start := StartExists(batch, pods, delay);
        assert forall name :: !Member(name, batch, expected, pods);
      case Some(b) =>
        start := b.startAt;
        SettleIs(b, batch, g, expected, pods, now);
    }
  }

  lemma SettleIs(b: Batch, batch: Option<Batch>, g: Group, expected: set<string>, pods: seq<Pod>, now: Time)
    requires DistinctPods(pods) && IsCollected(Some(b), batch, pods, GroupDelay(pods))
    ensures IsRecomputed(Settle(b, g, expected, pods, now), b.startAt, batch, g, expected, pods, now)
  {
    forall name ensures Settled(name, expected, pods) <==> HasSettled(name, expected, pods) {
      SettledExactly(name, expected, pods);
    }
    hide IsStart, Settled, HasSettled, GroupDelay, IsGroupDelay, Joiner, Trim, SortedNames, Distinct, PodNames, Sort,
      Keep;
    TrimIs(b, expected, pods);
    var t := Trim(b, expected, pods);
    assert forall name :: name in t.members <==> Member(name, batch, expected, pods);
    if t.members != [] {
      assert t.members[0] in t.members;
    }
  }

  lemma StartUnique(a: Time, b: Time, batch: Option<Batch>, pods: seq<Pod>, pods': seq<Pod>, delay: Duration)
    requires IsStart(a, batch, pods, delay) && IsStart(b, batch, pods', delay)
    requires forall p :: p in pods <==> p in pods'
    ensures a == b
  {
  }

  lemma GroupDelayIgnoresOrder(pods: seq<Pod>, pods': seq<Pod>)
    requires forall p :: p in pods <==> p in pods'
    ensures GroupDelay(pods) == GroupDelay(pods')
  {
    if pods != [] { assert pods[0] in pods'; }
    if pods' != [] { assert pods'[0] in pods; }
  }

  /** The batch does not depend on the order in which the pods are listed. */
  lemma RecomputeIgnoresOrder(batch: Option<Batch>, g: Group, expected: set<string>, pods: seq<Pod>, pods': seq<Pod>,
                              now: Time)
    requires DistinctPods(pods) && DistinctPods(pods') && Distinct(MembersOf(batch))
    requires forall p :: p in pods <==> p in pods'
    ensures Recompute(batch, g, expected, pods, now) == Recompute(batch, g, expected, pods', now)
  {
    GroupDelayIgnoresOrder(pods, pods');
    var start := RecomputeIs(batch, g, expected, pods, now);
    var start' := RecomputeIs(batch, g, expected, pods', now);
    StartUnique(start, start', batch, pods, pods', GroupDelay(pods));
    assert PodNames(pods) == PodNames(pods');
    forall name ensures Member(name, batch, expected, pods) <==> Member(name, batch, expected, pods') {
    }
    forall name ensures HasSettled(name, expected, pods) <==> HasSettled(name, expected, pods') {
    }
    var r := Recompute(batch, g, expected, pods, now);
    var r' := Recompute(batch, g, expected, pods', now);
    if r.Some? {
      SortedUnique(r.value.members, r'.value.members);
    }
  }

  lemma {:induction false} TallyRemove(a: seq<Pod>, x: Pod, b: seq<Pod>)
    ensures TallyOf(a + [x] + b) == Count(x, TallyOf(a + b))
  {
    if b == [] {
      assert (a + [x] + b)[..|a|] == a && a + b == a;
    } else {
      var init, last := b[..|b| - 1], b[|b| - 1];
      TallyRemove(a, x, init);
      assert (a + [x] + b)[..|a| + |b|] == a + [x] + init;
      assert (a + b)[..|a| + |b| - 1] == a + init;
    }
  }

  lemma {:induction false} TallyIgnoresOrder(pods: seq<Pod>, pods': seq<Pod>)
    requires multiset(pods) == multiset(pods')
    ensures TallyOf(pods) == TallyOf(pods')
  {
    if pods == [] {
      assert |pods'| == |multiset(pods')|;
    } else {
      var init, last := pods[..|pods| - 1], pods[|pods| - 1];
      assert pods == init + [last];
      assert last in multiset(pods');
      var k :| 0 <= k < |pods'| && pods'[k] == last;
      var a, b := pods'[..k], pods'[k + 1..];
      assert pods' == a + [last] + b;
      assert multiset(a + b) == multiset(pods') - multiset{last};
      TallyRemove(a, last, b);
      TallyIgnoresOrder(init, a + b);
    }
  }

  /** The whole status does not depend on the order in which the pods are listed. */
  lemma StatusIgnoresOrder(g: Group, status: Status, nodes: set<string>, pods: seq<Pod>, pods': seq<Pod>, now: Time)
    requires DistinctPods(pods) && multiset(pods) == multiset(pods') && Distinct(MembersOf(status.rebalance))
    ensures StatusOf(g, status, nodes, pods, now) == StatusOf(g, status, nodes, pods', now)
  {
    forall p ensures p in pods <==> p in pods' {
      assert p in multiset(pods) <==> p in multiset(pods');
    }
    DistinctPodsOrder(pods, pods');
    TallyIgnoresOrder(pods, pods');
    RecomputeIgnoresOrder(status.rebalance, g, ExpectedNames(g, nodes), pods, pods', now);
  }

  lemma DistinctPodsOrder(pods: seq<Pod>, pods': seq<Pod>)
    requires DistinctPods(pods) && multiset(pods) == multiset(pods')
    ensures DistinctPods(pods')
  {
    forall i, j | 0 <= i < j < |pods'| ensures pods'[i].name != pods'[j].name {
      var p, q := pods'[i], pods'[j];
      assert p in multiset(pods) && q in multiset(pods);
      if p == q {
        assert pods' == pods'[..i] + [p] + pods'[i + 1..j] + [q] + pods'[j + 1..];
        assert multiset(pods')[p] >= 2;
        OnceEach(pods, p);
      }
    }
  }

  lemma {:induction false} OnceEach(pods: seq<Pod>, p: Pod)
    requires DistinctPods(pods)
    ensures multiset(pods)[p] <= 1
  {
    if pods != [] {
      var init, last := pods[..|pods| - 1], pods[|pods| - 1];
      assert pods == init + [last];
      OnceEach(init, p);
      if last == p {
        assert p !in init;
      }
    }
  }

  // ---------- the status ----------

  predicate IsReady(p: Pod) { p.ready }

  lemma {:induction false} TallyIs(pods: seq<Pod>)
    ensures TallyOf(pods) == Tally(|Places(pods, Joining)|, |Places(pods, Leaving)|, |Places(pods, IsReady)|)
  {
    if pods != [] {
      var init, last := pods[..|pods| - 1], pods[|pods| - 1];
      assert pods == init + [last];
      TallyIs(init);
      PlacesOneMore(init, last, Joining);
      PlacesOneMore(init, last, Leaving);
      PlacesOneMore(init, last, IsReady);
      hide Places, Joining, Leaving;
    } else {
      assert Places(pods, Joining) == Places(pods, Leaving) == Places(pods, IsReady) == {};
    }
  }

  /**
   The recomputed status. A group that expects nobody waits, without a batch, its counters at zero. Else the counters
   are the numbers of joining, leaving and ready pods and of expected workers, the group is ready exactly when as many
   workers are ready as expected, and the batch is the one described above. Records and cache size stay.
   */
  lemma StatusIs(g: Group, status: Status, nodes: set<string>, pods: seq<Pod>, now: Time) returns (start: Time)
    requires DistinctPods(pods) && Distinct(MembersOf(status.rebalance))
    ensures var next := StatusOf(g, status, nodes, pods, now);
      && next.stats == status.stats && next.cacheSize == status.cacheSize
      && if nodes == {} then
           && next.phase == Waiting && next.rebalance == None
           && next.readyWorker == next.expectWorker == next.backUpWorker == 0
         else
           && next.expectWorker == |nodes| && next.readyWorker == |Places(pods, IsReady)|
           && next.backUpWorker == |Places(pods, Joining)| && next.waitingDeletedWorker == |Places(pods, Leaving)|
           && next.phase == (if next.readyWorker == |nodes| then Ready else Progressing)
           && IsRecomputed(next.rebalance, start, status.rebalance, g, ExpectedNames(g, nodes), pods, now)
  {
    TallyIs(pods);
    start := RecomputeIs(status.rebalance, g, ExpectedNames(g, nodes), pods, now);
    hide TallyOf, Recompute, IsRecomputed, Places;
  }

  // ---------- lifetime ----------

  /**
   A batch that is kept has not reached its deadline, so admission is closed for less than a minute plus the backup
   duration.
   */
  lemma KeptBeforeDeadline(g: Group, status: Status, nodes: set<string>, pods: seq<Pod>, now: Time)
    requires DistinctPods(pods) && Distinct(MembersOf(status.rebalance))
    ensures var next := StatusOf(g, status, nodes, pods, now);
      next.rebalance.Some? ==>
        && now < next.rebalance.value.startAt + BackupDuration(g)
        && (!CanAddWorker(next, now) ==>
              next.rebalance.value.startAt - REBALANCE_DELAY_MARGIN <= now
              && now - (next.rebalance.value.startAt - REBALANCE_DELAY_MARGIN) < MINUTE + BackupDuration(g))
  {
    if nodes != {} {
      var start := RecomputeIs(status.rebalance, g, ExpectedNames(g, nodes), pods, now);
    }
  }

  /** A join recent enough to hold a batch of its own. */
  ghost predicate FreshJoiner(p: Pod, g: Group, pods: seq<Pod>, now: Time) {
    Joining(p) && now < Max(ZERO_TIME, p.annotations.joinedAt.value + GroupDelay(pods)) + BackupDuration(g)
  }

  lemma JoinerUnsettled(batch: Option<Batch>, expected: set<string>, pods: seq<Pod>, p: Pod)
    requires DistinctPods(pods) && p in pods && Joining(p)
    ensures Member(p.name, batch, expected, pods) && !HasSettled(p.name, expected, pods)
  {
    assert p.name in PodNames(pods);
  }

  /** Without a batch, one appears exactly when a worker joins and the latest join has not timed out. */
  lemma FreshBatch(g: Group, expected: set<string>, pods: seq<Pod>, now: Time)
    requires DistinctPods(pods)
    ensures Recompute(None, g, expected, pods, now).Some? <==> exists p :: p in pods && FreshJoiner(p, g, pods, now)
  {
    var start := RecomputeIs(None, g, expected, pods, now);
    if Recompute(None, g, expected, pods, now).Some? {
      var name :| Member(name, None, expected, pods);
      var p :| p in pods && Joining(p) && p.name == name;
      LatestJoiner(start, p, g, pods, now);
    }
    if p :| p in pods && FreshJoiner(p, g, pods, now) {
      JoinerUnsettled(None, expected, pods, p);
      assert Newcomer(None, p);
    }
  }

  lemma LatestJoiner(start: Time, p: Pod, g: Group, pods: seq<Pod>, now: Time)
    requires p in pods && Joining(p)
    requires IsStart(start, None, pods, GroupDelay(pods)) && now < start + BackupDuration(g)
    ensures exists q :: q in pods && FreshJoiner(q, g, pods, now)
  {
    assert Newcomer(None, p);
    if start == ZERO_TIME {
      assert FreshJoiner(p, g, pods, now);
    } else {
      var q :| q in pods && Newcomer(None, q) && start == q.annotations.joinedAt.value + GroupDelay(pods);
      assert FreshJoiner(q, g, pods, now);
    }
  }

  // ---------- recomputing twice ----------

  /** Recomputing a kept batch for the same pods at the same time keeps it as it is. */
  lemma KeptIsStable(batch: Option<Batch>, g: Group, expected: set<string>, pods: seq<Pod>, now: Time)
    requires DistinctPods(pods) && Distinct(MembersOf(batch)) && Recompute(batch, g, expected, pods, now).Some?
    ensures var r := Recompute(batch, g, expected, pods, now);
      Recompute(r, g, expected, pods, now) == r
  {
    var r := Recompute(batch, g, expected, pods, now);
    var start := RecomputeIs(batch, g, expected, pods, now);
    var start' := RecomputeIs(r, g, expected, pods, now);
    forall p | p in pods && Joining(p) ensures p.name in r.value.members {
      assert p.name in PodNames(pods);
      assert Member(p.name, batch, expected, pods);
    }
    forall name ensures Member(name, r, expected, pods) <==> Member(name, batch, expected, pods) {
      assert name in MembersOf(r) <==> Member(name, batch, expected, pods);
    }
    assert start' == start;
    var r' := Recompute(r, g, expected, pods, now);
    SortedUnique(r.value.members, r'.value.members);
  }

  /**
   Recomputing is idempotent for a fixed clock and listing, with one exception: a batch that timed out while a
   worker still carries a join mark recent enough to start a new batch.
   */
  lemma RecomputeTwice(batch: Option<Batch>, g: Group, expected: set<string>, pods: seq<Pod>, now: Time)
    requires DistinctPods(pods) && Distinct(MembersOf(batch))
    ensures var r := Recompute(batch, g, expected, pods, now);
      Recompute(r, g, expected, pods, now) != r <==>
        && r.None?
        && exists p :: p in pods && FreshJoiner(p, g, pods, now)
  {
    if Recompute(batch, g, expected, pods, now).Some? {
      KeptIsStable(batch, g, expected, pods, now);
    } else {
      FreshBatch(g, expected, pods, now);
    }
  }

  /** A batch that is cleared while a worker still joins was cleared by its deadline. */
  lemma ClearedWithJoinerTimedOut(batch: Option<Batch>, g: Group, expected: set<string>, pods: seq<Pod>, now: Time,
                                  p: Pod)
    returns (start: Time)
    requires DistinctPods(pods) && Distinct(MembersOf(batch)) && Recompute(batch, g, expected, pods, now).None?
    requires p in pods && Joining(p)
    ensures IsStart(start, batch, pods, GroupDelay(pods)) && now >= start + BackupDuration(g)
  {
    start := RecomputeIs(batch, g, expected, pods, now);
    JoinerUnsettled(batch, expected, pods, p);
  }

  // ---------- a closed batch ----------

  /** With every joining worker in the batch already, a recomputation can only drop members or clear the batch. */
  lemma ClosedBatchShrinks(b: Batch, g: Group, expected: set<string>, pods: seq<Pod>, now: Time)
    requires DistinctPods(pods) && Distinct(b.members)
    requires forall p :: p in pods && Joining(p) ==> p.name in b.members
    ensures match Recompute(Some(b), g, expected, pods, now)
            case None => true
            case Some(b') => b'.startAt == b.startAt && forall name :: name in b'.members ==> name in b.members
  {
    var start := RecomputeIs(Some(b), g, expected, pods, now);
    assert forall p :: p in pods ==> !Newcomer(Some(b), p);
    var r := Recompute(Some(b), g, expected, pods, now);
    if r.Some? {
      forall name | name in r.value.members ensures name in b.members {
        assert Member(name, Some(b), expected, pods);
      }
    }
  }

  /**
   Admission after a recomputation: new workers wait exactly from one minute before the batch starts until its deadline
   at the latest, while somebody belongs to the batch and, once it has started, somebody has not settled; never in a
   group whose cache is empty.
   */
  lemma AdmissionClosedExactly(batch: Option<Batch>, g: Group, expected: set<string>, pods: seq<Pod>, status: Status,
                               now: Time)
    returns (start: Time)
    requires DistinctPods(pods) && Distinct(MembersOf(batch))
    requires status.rebalance == Recompute(batch, g, expected, pods, now)
    ensures IsStart(start, batch, pods, GroupDelay(pods))
    ensures !CanAddWorker(status, now) <==>
              && status.cacheSize != EMPTY_CACHE
              && start - MINUTE <= now < start + BackupDuration(g)
              && (exists name :: Member(name, batch, expected, pods))
              && (|| now < start
                  || exists name :: Member(name, batch, expected, pods) && !HasSettled(name, expected, pods))
  {
    start := RecomputeIs(batch, g, expected, pods, now);
    var r := Recompute(batch, g, expected, pods, now);
    if r.Some? {
      var name :| Member(name, batch, expected, pods);
      assert name in r.value.members;
    }
  }

  /** A recomputed batch holds every worker of the listing that joins. */
  lemma JoinersAreMembers(batch: Option<Batch>, g: Group, expected: set<string>, pods: seq<Pod>, now: Time)
    requires DistinctPods(pods) && Distinct(MembersOf(batch))
    ensures var r := Recompute(batch, g, expected, pods, now);
      && Distinct(MembersOf(r)) && SortedNames(MembersOf(r))
      && (r.Some? ==> r.value.members != [] && forall p :: p in pods && Joining(p) ==> p.name in r.value.members)
  {
    var start := RecomputeIs(batch, g, expected, pods, now);
    var r := Recompute(batch, g, expected, pods, now);
    if r.Some? {
      forall p | p in pods && Joining(p) ensures p.name in r.value.members {
        assert p.name in PodNames(pods);
        assert Member(p.name, batch, expected, pods);
      }
      var name :| Member(name, batch, expected, pods);
      assert name in r.value.members;
    }
  }
}
