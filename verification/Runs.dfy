/**
 Runs of the operator: reconciles, stats rounds and changes of the cluster in any order. The main result is that a
 closed join window stays closed until its batch is cleared.

 Assumed of the environment: only the operator creates pods of the group and writes its annotations; a listing shows
 the pods as they are; the status a reconcile ends with is written.
 */
module Runs {
  import opened Wrappers
  import opened Kube
  import opened Worker
  import opened Names
  import opened Rebalance
  import opened RebalanceTheorems
  import opened Builder
  import opened Update
  import opened Lifecycle
  import opened SyncTheorems

  // ---------- worlds and steps ----------

  datatype World = World(pods: Pods, status: Status)

  datatype Step = Reconciled(event: Event) | Sampled(stats: seq<Stats>, cacheSize: string) | Elsewhere

  /**
   What may happen to a pod by itself or by others: it starts, fails, is bound, is deleted, gets foreign annotations.
   */
  predicate Drifts(p: Pod, q: Pod) {
    && SameBuild(q, p)
    && OwnPart(p.annotations.others) == OwnPart(q.annotations.others)
    && (p.deleting ==> q.deleting)
    && (p.nodeName != "" ==> q.nodeName == p.nodeName)
  }

  predicate Drift(pods: Pods, pods': Pods) {
    && pods'.Keys <= pods.Keys
    && forall name :: name in pods' ==> Drifts(pods[name], pods'[name])
  }

  /** The first listing of a reconcile shows the pods; its clock does not run backwards. */
  ghost predicate Fair(e: Event, w: World) {
    && IsOrder(e.order, e.expected)
    && IsListing(e.listing, w.pods)
    && e.clock.start <= e.clock.during <= e.clock.end
  }

  /** The pods as the reconcile's own handling leaves them. */
  function HandledWorld(e: Event, w: World): World
    requires IsOrder(e.order, e.expected)
  {
    World(HandledPods(e, w.pods, w.status).0, w.status)
  }

  /** Pods may drift while the workers are handled; the second listing shows them at the end. */
  ghost predicate ReconciledTo(e: Event, w: World, w': World) {
    && Fair(e, w)
    && Drift(HandledPods(e, w.pods, w.status).0, w'.pods)
    && IsListing(e.listing', w'.pods)
    && w'.status == FinalStatus(e, w.status)
  }

  ghost predicate StepTo(w: World, step: Step, w': World) {
    match step
    case Reconciled(e) => ReconciledTo(e, w, w')
    case Sampled(stats, cacheSize) => w' == World(w.pods, w.status.(stats := stats, cacheSize := cacheSize))
    case Elsewhere => Drift(w.pods, w'.pods) && w'.status == w.status
  }

  ghost predicate IsRun(worlds: seq<World>, steps: seq<Step>) {
    && |worlds| == |steps| + 1
    && forall k :: 0 <= k < |steps| ==> StepTo(worlds[k], steps[k], worlds[k + 1])
  }

  // ---------- runs exist ----------

  /** Pods under their names can be listed. */
  lemma {:induction false} ListingExists(pods: Pods) returns (listing: seq<Pod>)
    requires WellNamed(pods)
    ensures IsListing(listing, pods)
    decreases |pods|
  {
    if pods == map[] {
      listing := [];
    } else {
      var name :| name in pods;
      var rest := pods - {name};
      hide IsListing;
      assert |rest.Keys| < |pods.Keys| by {
        assert rest.Keys == pods.Keys - {name};
      }
      var init := ListingExists(rest);
      listing := init + [pods[name]];
      ListedMore(pods, name, init);
    }
  }

  lemma ListedMore(pods: Pods, name: string, init: seq<Pod>)
    requires WellNamed(pods) && name in pods && IsListing(init, pods - {name})
    ensures IsListing(init + [pods[name]], pods)
  {
    var listing := init + [pods[name]];
    forall n | n in pods ensures pods[n] in listing {
      if n != name {
        assert n in pods - {name};
      }
    }
  }

  predicate NamedAt(pods: Pods, name: string) {
    name in pods ==> pods[name].name == name
  }

  lemma SyncedNamed(e: Event, w: World, name: string)
    requires IsOrder(e.order, e.expected) && IsListing(e.listing, w.pods)
    ensures NamedAt(SyncedPods(e, w.pods, w.status).0, name)
  {
    var node, t := SyncedAt(e, w.pods, w.status, name);
    hide SyncedPods, InputOf, IsTaskOf, TaskResult, GoodTask;
    var after := At(SyncedPods(e, w.pods, w.status).0, name);
    if after != At(w.pods, name) {
      TaskResultNamed(At(w.pods, name), e.g.strategy.OnDelete?, t, e.api(name));
    }
    assert after.Some? ==> after.value.name == name;
  }

  lemma TaskResultNamed(before: Option<Pod>, onDelete: bool, t: Task, r: Response)
    requires GoodTask(t) && (before.Some? ==> before.value.name == t.name)
    ensures var after := TaskResult(before, onDelete, t, r); after.Some? ==> after.value.name == t.name
  {
  }

  lemma RemovedNamed(pods: Pods, g: Group, status: Status, nodes: set<string>, listing: seq<Pod>, api: Api, now: Time,
                     name: string)
    requires DistinctPods(listing) && NamedAt(pods, name)
    ensures NamedAt(RemoveAll(pods, g, status, nodes, listing, api, now).0, name)
  {
    hide RemoveAll, RemoveOne, Redundant;
    var after := RemoveAll(pods, g, status, nodes, listing, api, now).0;
    RemovedAt(pods, g, status, nodes, listing, api, now, name);
    assert name in after ==> At(after, name) == Some(after[name]);
    if At(after, name) != At(pods, name) {
      var p :| p in listing && p.name == name && Redundant(g, nodes, p)
        && At(after, name) == At(RemoveOne(pods, g, status, nodes, p, api(name), now).0, name);
      RemovedName(pods, g, status, nodes, p, api(name), now);
    }
  }

  /** A reconcile keeps every pod under its name, so its second listing exists. */
  lemma HandledWellNamed(e: Event, w: World)
    requires IsOrder(e.order, e.expected) && IsListing(e.listing, w.pods)
    ensures WellNamed(HandledPods(e, w.pods, w.status).0)
  {
    var synced := SyncedPods(e, w.pods, w.status);
    var after := HandledPods(e, w.pods, w.status).0;
    forall name ensures NamedAt(after, name) {
      SyncedNamed(e, w, name);
      RemovedNamed(synced.0, e.g, FirstStatus(e, w.status), e.expected.Keys, e.listing, e.api, e.clock.during, name);
    }
    assert forall name :: name in after ==> NamedAt(after, name);
  }

  lemma RemovedName(pods: Pods, g: Group, status: Status, nodes: set<string>, p: Pod, r: Response, now: Time)
    requires p.name in pods ==> pods[p.name].name == p.name
    ensures var after := At(RemoveOne(pods, g, status, nodes, p, r, now).0, p.name);
      after.Some? ==> after.value.name == p.name
  {
    hide ShutdownOf, Redundant, LeavingWorker, RestartedAnnotations;
    LeavingWorkerName(p, now);
  }

  /** A worker that the group has a place for leaves the reconcile as its own update left it. */
  lemma RemovalSpares(e: Event, w: World, name: string)
    requires Fair(e, w) && name in w.pods && Belongs(e.g, e.expected.Keys, w.pods[name])
    ensures At(HandledWorld(e, w).pods, name) == At(SyncedPods(e, w.pods, w.status).0, name)
  {
    BelongingIsSpared(e.g, e.expected.Keys, w.pods[name]);
    var synced := SyncedPods(e, w.pods, w.status);
    hide SyncedPods, FirstStatus, RemoveAll, RemoveOne, Redundant;
    if !synced.1 {
      RemovedAt(synced.0, e.g, FirstStatus(e, w.status), e.expected.Keys, e.listing, e.api, e.clock.during, name);
    }
  }

  // ---------- the two recomputations ----------

  /**
   The batch is recomputed twice: before the workers are handled, from the stored batch, the first listing and the clock
   at the start, and afterwards from that result, the second listing and the clock at the end; the start is then stored
   in whole seconds.
   */
  lemma RecomputedTwice(e: Event, w: World, w': World) returns (first: Time, second: Time, last: Option<Batch>)
    requires ReconciledTo(e, w, w') && e.expected != map[] && Distinct(MembersOf(w.status.rebalance))
    ensures var names, mid := ExpectedNames(e.g, e.expected.Keys), FirstStatus(e, w.status).rebalance;
      && IsRecomputed(mid, first, w.status.rebalance, e.g, names, e.listing, e.clock.start)
      && IsRecomputed(last, second, mid, e.g, names, e.listing', e.clock.end)
    ensures w'.status.rebalance
            == if last.None? then None else Some(Batch(last.value.members, Rfc3339(last.value.startAt)))
  {
    var names := ExpectedNames(e.g, e.expected.Keys);
    assert e.expected.Keys != {};
    first := RecomputeIs(w.status.rebalance, e.g, names, e.listing, e.clock.start);
    var mid := FirstStatus(e, w.status);
    last := Recompute(mid.rebalance, e.g, names, e.listing', e.clock.end);
    second := RecomputeIs(mid.rebalance, e.g, names, e.listing', e.clock.end);
    hide Recompute, IsRecomputed, HandledPods;
  }

  // ---------- who joins ----------

  predicate JoinersIn(pods: Pods, members: seq<string>) {
    forall name :: name in pods && Joining(pods[name]) ==> name in members
  }

  /** A worker that joins after a task joined before, or did not exist and was created with a join mark. */
  lemma TaskJoiner(i: Input, node: string, t: Task, onDelete: bool, r: Response)
    requires node in i.expected && IsTaskOf(i, node, t)
    requires var after := TaskResult(t.actual, onDelete, t, r); after.Some? && Joining(after.value)
    ensures (t.actual.Some? && Joining(t.actual.value))
            || (t.actual.None? && i.status.cacheSize != EMPTY_CACHE && i.status.cacheSize != "")
  {
    hide MayJoin, WorkerCounterIdle, Needed, MustWait, Candidate;
  }

  lemma RemovedJoiner(pods: Pods, g: Group, status: Status, nodes: set<string>, p: Pod, r: Response, now: Time)
    requires var after := At(RemoveOne(pods, g, status, nodes, p, r, now).0, p.name);
      after.Some? && Joining(after.value)
    ensures Joining(p) || (p.name in pods && Joining(pods[p.name]))
  {
    hide ShutdownOf, Redundant, LeavingWorker;
    LeavingWorkerName(p, now);
  }

  /** Every worker that joins after a reconcile joined before, or is new and was admitted with a join mark. */
  lemma HandledJoiner(e: Event, w: World, name: string)
    requires IsOrder(e.order, e.expected) && IsListing(e.listing, w.pods)
    requires var after := At(HandledPods(e, w.pods, w.status).0, name); after.Some? && Joining(after.value)
    ensures var i := InputOf(e, w.status);
      || (name in w.pods && Joining(w.pods[name]))
      || (name !in w.pods && i.status.cacheSize != EMPTY_CACHE && Admitted(i, name))
  {
    var synced := SyncedPods(e, w.pods, w.status);
    var st := FirstStatus(e, w.status);
    var joined := At(synced.0, name).Some? && Joining(At(synced.0, name).value);
    if joined {
      SyncedJoiner(e, w, name);
    }
    hide SyncedPods, FirstStatus, RemoveAll, RemoveOne, Redundant;
    if !synced.1 {
      RemovedAt(synced.0, e.g, st, e.expected.Keys, e.listing, e.api, e.clock.during, name);
      if At(HandledPods(e, w.pods, w.status).0, name) != At(synced.0, name) {
        var p :| p in e.listing && p.name == name && Redundant(e.g, e.expected.Keys, p)
          && At(HandledPods(e, w.pods, w.status).0, name)
             == At(RemoveOne(synced.0, e.g, st, e.expected.Keys, p, e.api(name), e.clock.during).0, name);
        RemovedJoiner(synced.0, e.g, st, e.expected.Keys, p, e.api(name), e.clock.during);
        assert w.pods[name] == p;
      }
    }
  }

  /** A missing worker that need not wait. */
  ghost predicate Admitted(i: Input, name: string) {
    exists node :: node in i.expected && PodName(i.g, node) == name && !MustWait(i, node)
  }

  lemma SyncedJoiner(e: Event, w: World, name: string)
    requires IsOrder(e.order, e.expected) && IsListing(e.listing, w.pods)
    requires var after := At(SyncedPods(e, w.pods, w.status).0, name); after.Some? && Joining(after.value)
    ensures var i := InputOf(e, w.status);
      || (name in w.pods && Joining(w.pods[name]))
      || (name !in w.pods && i.status.cacheSize != EMPTY_CACHE && Admitted(i, name))
  {
    var i := InputOf(e, w.status);
    var node, t := SyncedAt(e, w.pods, w.status, name);
    if At(SyncedPods(e, w.pods, w.status).0, name) != At(w.pods, name) {
      TaskJoiner(i, node, t, e.g.strategy.OnDelete?, e.api(name));
      assert Admitted(i, name);
    }
  }

  /** A pod that is new after a reconcile belongs to an admitted expected worker. */
  lemma HandledNewcomer(e: Event, w: World, name: string)
    requires IsOrder(e.order, e.expected) && IsListing(e.listing, w.pods)
    requires name !in w.pods && name in HandledPods(e, w.pods, w.status).0
    ensures Admitted(InputOf(e, w.status), name)
  {
    var i := InputOf(e, w.status);
    var synced := SyncedPods(e, w.pods, w.status);
    var node, t := SyncedAt(e, w.pods, w.status, name);
    if name in synced.0 {
      assert Admitted(i, name);
    }
    hide SyncedPods, FirstStatus, RemoveAll, RemoveOne, Redundant;
    if !synced.1 {
      RemovedAt(synced.0, e.g, FirstStatus(e, w.status), e.expected.Keys, e.listing, e.api, e.clock.during, name);
      assert forall p :: p in e.listing ==> p.name in w.pods;
    }
  }

  /** The task of a missing worker that need not wait creates it, or nothing happens. */
  lemma MissingTask(i: Input, node: string, t: Task, onDelete: bool, r: Response)
    requires node in i.expected && IsTaskOf(i, node, t) && t.actual == None
    ensures TaskResult(None, onDelete, t, r)
            == if r.pvcsOk && r.creation.Created? then Some(Wanted(i, node)) else None
  {
    hide AddJoinOption, NewCacheGroupWorker, Find, CanAddWorker, PodName, V1WorkerHash;
  }

  /**
   An expected worker that does not exist is there after the reconcile exactly when it need not wait and its calls
   succeed. It then joins, from the time of the reconcile, exactly when its image knows the option, the backup duration
   is longer than a second, its template sets none of the three options, and the group is known to hold cache. It is
   pending, and the group has a place for it.
   */
  lemma NewcomerExactly(e: Event, w: World, node: string)
    requires Fair(e, w) && node in e.expected && PodName(e.g, node) !in w.pods
    ensures var name, i := PodName(e.g, node), InputOf(e, w.status);
      var after := At(HandledWorld(e, w).pods, name);
      && (after.Some? <==> !MustWait(i, node) && e.api(name).pvcsOk && e.api(name).creation.Created?)
      && (after.Some? ==>
            && after.value.annotations.joinedAt
               == (if JoinsWhenNew(e.g, e.expected[node], w.status.cacheSize) then Some(Rfc3339(e.clock.during))
                   else None)
            && !Leaving(after.value) && !after.value.ready && after.value.phase == PodPending
            && Belongs(e.g, e.expected.Keys, after.value)
            && after.value.delay == e.expected[node].delay)
  {
    var name, i := PodName(e.g, node), InputOf(e, w.status);
    ListingFinds(e.listing, w.pods, name);
    MissingJoinsExactly(e.g, i.status, e.expected[node], i.now);
    var m, t := SyncedAt(e, w.pods, w.status, name);
    if At(SyncedPods(e, w.pods, w.status).0, name) != None {
      PodNameInjective(e.g, m, node);
    }
    UnlistedKept(e, w, name);
    if m in e.expected && IsTaskOf(i, m, t) && t.name == name {
      PodNameInjective(e.g, m, node);
      MissingTask(i, node, t, e.g.strategy.OnDelete?, e.api(name));
    }
    hide AddJoinOption, TaskResult, MustWait, FirstStatus, JoinsWhenNew, SyncedPods, Render, MountOpts, Command;
  }

  /** The removal does not touch names that were not listed. */
  lemma UnlistedKept(e: Event, w: World, name: string)
    requires Fair(e, w) && name !in w.pods
    ensures At(HandledWorld(e, w).pods, name) == At(SyncedPods(e, w.pods, w.status).0, name)
  {
    var synced := SyncedPods(e, w.pods, w.status);
    hide SyncedPods, FirstStatus, RemoveAll, RemoveOne, Redundant;
    if !synced.1 {
      RemovedAt(synced.0, e.g, FirstStatus(e, w.status), e.expected.Keys, e.listing, e.api, e.clock.during, name);
    }
  }

  // ---------- the invariant ----------

  /** Names match, the batch has no duplicates, its start is a stored time, and every joining worker is in it. */
  predicate Inv(w: World) {
    && WellNamed(w.pods)
    && Distinct(MembersOf(w.status.rebalance))
    && (w.status.rebalance.Some? ==>
          && w.status.rebalance.value.startAt % SECOND == 0
          && JoinersIn(w.pods, w.status.rebalance.value.members))
  }

  lemma ListedJoiners(listing: seq<Pod>, pods: Pods, members: seq<string>)
    requires IsListing(listing, pods)
    ensures JoinersIn(pods, members) <==> forall p :: p in listing && Joining(p) ==> p.name in members
  {
  }

  lemma StatusJoiners(g: Group, status: Status, nodes: set<string>, listing: seq<Pod>, pods: Pods, now: Time)
    requires IsListing(listing, pods) && Distinct(MembersOf(status.rebalance))
    ensures var r := StatusOf(g, status, nodes, listing, now).rebalance;
      && Distinct(MembersOf(r))
      && (r.Some? ==> r.value.members != [] && JoinersIn(pods, r.value.members))
  {
    if nodes != {} {
      JoinersAreMembers(status.rebalance, g, ExpectedNames(g, nodes), listing, now);
      ListedJoiners(listing, pods, MembersOf(Recompute(status.rebalance, g, ExpectedNames(g, nodes), listing, now)));
    }
  }

  /** The invariant is kept by every step. */
  lemma InvKept(w: World, step: Step, w': World)
    requires Inv(w) && StepTo(w, step, w')
    ensures Inv(w')
  {
    match step {
      case Sampled(_, _) =>
      case Elsewhere =>
      case Reconciled(e) =>
        StatusJoiners(e.g, w.status, e.expected.Keys, e.listing, w.pods, e.clock.start);
        StatusJoiners(e.g, FirstStatus(e, w.status), e.expected.Keys, e.listing', w'.pods, e.clock.end);
        hide StatusOf, HandledPods, JoinersIn;
    }
  }

  lemma {:induction false} InvAlways(worlds: seq<World>, steps: seq<Step>, k: nat)
    requires IsRun(worlds, steps) && Inv(worlds[0]) && k < |worlds|
    ensures Inv(worlds[k])
  {
    hide Inv, StepTo;
    if k > 0 {
      InvAlways(worlds, steps, k - 1);
      InvKept(worlds[k - 1], steps[k - 1], worlds[k]);
    }
  }

  /** A group without pods and without a batch satisfies the invariant. */
  lemma InvAtFirst(status: Status)
    requires status.rebalance.None?
    ensures Inv(World(map[], status))
  {
  }

  // ---------- the closed window ----------

  /** Admission of a batch is closed from a minute before its start on. */
  predicate ClosedAt(b: Batch, now: Time) {
    now >= b.startAt - REBALANCE_DELAY_MARGIN
  }

  /** b' is b after some members were dropped. */
  predicate Shrunk(b: Batch, b': Batch) {
    b'.startAt == b.startAt && forall name :: name in b'.members ==> name in b.members
  }

  /** In a closed window a missing worker is admitted only as a member, or into a group without cache. */
  lemma AdmittedWhenClosed(i: Input, name: string, b: Batch)
    requires i.status.rebalance == Some(b) && b.members != [] && ClosedAt(b, i.now) && Admitted(i, name)
    requires Find(i.listing, name).None?
    ensures name in b.members || i.status.cacheSize == EMPTY_CACHE
  {
  }

  /**
   A reconcile in a closed window. If the first recomputation keeps a batch whose window is closed, then at the end the
   batch is cleared or has lost members only, with the same start; every joining worker is a member; and a worker that
   did not exist before is a member, or was created without join mark in a group without cache.
   */
  lemma ClosedReconcile(e: Event, w: World, w': World, b: Batch)
    requires Inv(w) && ReconciledTo(e, w, w')
    requires FirstStatus(e, w.status).rebalance == Some(b) && ClosedAt(b, e.clock.start)
    ensures match w'.status.rebalance
            case None => true
            case Some(b') => Shrunk(b.(startAt := Rfc3339(b.startAt)), b')
    ensures JoinersIn(w'.pods, b.members)
    ensures forall name :: name in w'.pods && name !in w.pods ==>
      name in b.members || (w.status.cacheSize == EMPTY_CACHE && !Joining(w'.pods[name]))
  {
    ClosedHandling(e, w, b);
    hide FirstStatus, HandledPods, StatusOf;
    var after := HandledPods(e, w.pods, w.status).0;
    assert forall name :: name in w'.pods ==> name in after && Drifts(after[name], w'.pods[name]);
    ListedJoiners(e.listing', w'.pods, b.members);
    ClosedBatchShrinks(b, e.g, ExpectedNames(e.g, e.expected.Keys), e.listing', e.clock.end);
    ClosedFinal(e, w, b);
  }

  lemma ClosedFinal(e: Event, w: World, b: Batch)
    requires FirstStatus(e, w.status).rebalance == Some(b)
    ensures var r := Recompute(Some(b), e.g, ExpectedNames(e.g, e.expected.Keys), e.listing', e.clock.end);
      FinalStatus(e, w.status).rebalance.Some? ==>
        r.Some? && FinalStatus(e, w.status).rebalance.value == r.value.(startAt := Rfc3339(r.value.startAt))
  {
    hide Recompute;
  }

  /** What the handling of the workers leaves in a closed window. */
  lemma ClosedHandling(e: Event, w: World, b: Batch)
    requires Inv(w) && Fair(e, w)
    requires FirstStatus(e, w.status).rebalance == Some(b) && ClosedAt(b, e.clock.start)
    ensures var after := HandledPods(e, w.pods, w.status).0;
      && JoinersIn(after, b.members) && Distinct(b.members) && b.members != []
      && forall name :: name in after && name !in w.pods ==>
           name in b.members || (w.status.cacheSize == EMPTY_CACHE && !Joining(after[name]))
  {
    var after := HandledPods(e, w.pods, w.status).0;
    var i := InputOf(e, w.status);
    StatusJoiners(e.g, w.status, e.expected.Keys, e.listing, w.pods, e.clock.start);
    forall name | name in after && Joining(after[name]) ensures name in b.members {
      HandledJoiner(e, w, name);
      ListingFinds(e.listing, w.pods, name);
      if name !in w.pods {
        AdmittedWhenClosed(i, name, b);
      }
    }
    forall name | name in after && name !in w.pods
      ensures name in b.members || (w.status.cacheSize == EMPTY_CACHE && !Joining(after[name]))
    {
      HandledNewcomer(e, w, name);
      ListingFinds(e.listing, w.pods, name);
      AdmittedWhenClosed(i, name, b);
      if Joining(after[name]) {
        HandledJoiner(e, w, name);
      }
    }
  }

  /** The batch is never cleared in the run, neither in the middle of a reconcile nor at its end. */
  ghost predicate NeverCleared(worlds: seq<World>, steps: seq<Step>)
    requires IsRun(worlds, steps)
  {
    && (forall k :: 0 <= k < |worlds| ==> worlds[k].status.rebalance.Some?)
    && forall k :: 0 <= k < |steps| && steps[k].Reconciled? ==>
        FirstStatus(steps[k].event, worlds[k].status).rebalance.Some?
  }

  /** Every reconcile of the run starts when the window of b is closed. */
  predicate AllClosed(b: Batch, steps: seq<Step>) {
    forall k :: 0 <= k < |steps| && steps[k].Reconciled? ==> ClosedAt(b, steps[k].event.clock.start)
  }

  /** The first recomputation of a reconcile finds nobody new. */
  lemma FirstShrinks(e: Event, w: World)
    requires Inv(w) && Fair(e, w) && w.status.rebalance.Some?
    ensures var r := FirstStatus(e, w.status).rebalance;
      r.Some? ==> Shrunk(w.status.rebalance.value, r.value)
  {
    ListedJoiners(e.listing, w.pods, w.status.rebalance.value.members);
    if e.expected.Keys != {} {
      ClosedBatchShrinks(w.status.rebalance.value, e.g, ExpectedNames(e.g, e.expected.Keys), e.listing, e.clock.start);
    }
  }

  /**
   A closed window stays closed: until the batch is cleared, whatever happens, its start does not move, it only loses
   members, and nobody outside the members it had when it closed ever joins.
   */
  lemma {:induction false} ClosedWindowStaysClosed(worlds: seq<World>, steps: seq<Step>, b: Batch, k: nat)
    requires IsRun(worlds, steps) && Inv(worlds[0]) && worlds[0].status.rebalance == Some(b)
    requires NeverCleared(worlds, steps) && AllClosed(b, steps) && k < |worlds|
    ensures worlds[k].status.rebalance.Some? && Shrunk(b, worlds[k].status.rebalance.value)
    ensures JoinersIn(worlds[k].pods, b.members)
  {
    if k > 0 {
      ClosedWindowStaysClosed(worlds, steps, b, k - 1);
      InvAlways(worlds, steps, k - 1);
      InvAlways(worlds, steps, k);
      var w, w' := worlds[k - 1], worlds[k];
      assert StepTo(w, steps[k - 1], w');
      if steps[k - 1].Reconciled? {
        var e := steps[k - 1].event;
        FirstShrinks(e, w);
        ClosedReconcile(e, w, w', FirstStatus(e, w.status).rebalance.value);
      }
    }
  }
}
