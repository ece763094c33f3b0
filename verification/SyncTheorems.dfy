/** What handling the workers of a group guarantees: the disruption budget, and which pods a reconcile may touch. */
module SyncTheorems {
  import opened Wrappers
  import opened Kube
  import opened Worker
  import opened Names
  import opened Rebalance
  import opened Builder
  import opened Update
  import opened Lifecycle

  // ---------- the disruption budget ----------

  predicate IsUnavailable(p: Pod) { p.deleting || !p.ready }

  /** The unavailable pods of a listing are those that are being deleted or are not ready, each counted once. */
  lemma {:induction false} UnavailableIs(listing: seq<Pod>)
    ensures Unavailable(listing) == |Places(listing, IsUnavailable)|
  {
    if listing == [] {
      assert Places(listing, IsUnavailable) == {};
    } else {
      var init, last := listing[..|listing| - 1], listing[|listing| - 1];
      assert listing == init + [last];
      UnavailableIs(init);
      PlacesOneMore(init, last, IsUnavailable);
    }
  }

  /** Tasks that take a ready worker down. */
  function ReadyUpdates(tasks: seq<Task>): nat {
    if tasks == [] then 0
    else
      var t := tasks[|tasks| - 1];
      ReadyUpdates(tasks[..|tasks| - 1]) + if t.action != UpToDate && t.actual.Some?
          && t.actual.value.ready then 1 else 0
  }

  function Candidates(i: Input, order: seq<string>): set<string>
    requires forall node :: node in order ==> node in i.expected
  {
    set node | node in order && Candidate(i, node)
  }

  function Budget(i: Input): int {
    Max(0, StrategyOf(i).1 - Unavailable(i.listing))
  }

  lemma {:induction false} ReadyUpdatesAppend(a: seq<Task>, t: Task)
    ensures ReadyUpdates(a + [t])
            == ReadyUpdates(a) + if t.action != UpToDate && t.actual.Some? && t.actual.value.ready then 1 else 0
  {
    assert (a + [t])[..|a|] == a;
  }

  /**
   The disruption budget is exact. Whatever the order of iteration, the number of ready workers updated in one sync is
   the number of candidates or what the budget leaves, and the final count is the number of workers then unavailable.
   */
  lemma {:induction false} BudgetIsExact(i: Input, order: seq<string>)
    requires Distinct(order) && forall node :: node in order ==> node in i.expected
    ensures var (tasks, n) := Plan(i, order);
      && ReadyUpdates(tasks) == Min(|Candidates(i, order)|, Budget(i))
      && n == Unavailable(i.listing) + ReadyUpdates(tasks)
  {
    if order == [] {
      assert Candidates(i, order) == {};
    } else {
      var init, node := order[..|order| - 1], order[|order| - 1];
      assert order == init + [node];
      BudgetIsExact(i, init);
      CandidatesOneMore(i, init, node);
      OneMore(i, init, node);
      hide Candidate, Candidates, Plan, ReadyUpdates, StrategyOf, Unavailable;
    }
  }

  lemma CandidatesOneMore(i: Input, init: seq<string>, node: string)
    requires node in i.expected && node !in init && forall n :: n in init ==> n in i.expected
    ensures |Candidates(i, init + [node])| == |Candidates(i, init)| + if Candidate(i, node) then 1 else 0
  {
    hide Candidate;
    var before, after := Candidates(i, init), Candidates(i, init + [node]);
    if Candidate(i, node) {
      assert after == before + {node};
    } else {
      assert after == before;
    }
  }

  lemma OneMore(i: Input, init: seq<string>, node: string)
    requires node in i.expected && forall n :: n in init ==> n in i.expected
    ensures var (tasks, n) := Plan(i, init);
      var (tasks', n') := Plan(i, init + [node]);
      var taken := if Candidate(i, node) && n < StrategyOf(i).1 then 1 else 0;
      n' == n + taken && ReadyUpdates(tasks') == ReadyUpdates(tasks) + taken
  {
    hide StrategyOf, Needed, Wanted, Find, CanAddWorker, PodName;
    assert (init + [node])[..|init|] == init;
    var (tasks, n) := Plan(i, init);
    var one := PlanOne(i, node, n);
    if one.0 == [] {
      assert tasks + one.0 == tasks;
    } else {
      ReadyUpdatesAppend(tasks, one.0[0]);
      assert one.0 == [one.0[0]];
    }
  }

  /** Two orders of the same expected workers update the same number of ready ones. */
  lemma BudgetIgnoresOrder(i: Input, order: seq<string>, order': seq<string>)
    requires IsOrder(order, i.expected) && IsOrder(order', i.expected)
    ensures ReadyUpdates(Plan(i, order).0) == ReadyUpdates(Plan(i, order').0)
  {
    BudgetIsExact(i, order);
    BudgetIsExact(i, order');
    assert Candidates(i, order) == Candidates(i, order');
  }

  /** A pod that is being deleted is counted once, as unavailable: it is no candidate. */
  lemma DeletingIsNoCandidate(i: Input, node: string)
    requires node in i.expected
    requires var actual := Find(i.listing, PodName(i.g, node)); actual.Some? && actual.value.deleting
    ensures !Candidate(i, node)
  {
  }

  // ---------- who has to wait ----------

  /**
   A worker waits exactly when it does not exist, the group is not known to be empty, a batch with members starts
   within a minute or has started, and the worker is none of them.
   */
  lemma WaitsExactly(i: Input, node: string)
    ensures MustWait(i, node) <==>
      && (forall p :: p in i.listing ==> p.name != PodName(i.g, node))
      && i.status.cacheSize != "0B"
      && i.status.rebalance.Some?
      && var b := i.status.rebalance.value;
      && b.members != [] && i.now >= b.startAt - MINUTE && PodName(i.g, node) !in b.members
  {
    hide PodName;
  }

  // ---------- the tasks of a plan ----------

  /** The task of a plan for a node. */
  predicate IsTaskOf(i: Input, node: string, t: Task)
    requires node in i.expected
  {
    && !MustWait(i, node)
    && t.name == PodName(i.g, node)
    && t.actual == Find(i.listing, t.name)
    && t.want == Wanted(i, node)
    && (t.action == Needed(i, node) || (t.action == UpToDate && Candidate(i, node)))
  }

  ghost predicate PlannedFrom(i: Input, order: seq<string>, t: Task)
    requires forall node :: node in order ==> node in i.expected
  {
    exists node :: node in order && IsTaskOf(i, node, t)
  }

  predicate DistinctTasks(tasks: seq<Task>) {
    forall a, b :: 0 <= a < b < |tasks| ==> tasks[a].name != tasks[b].name
  }

  /** The tasks of a plan: one for each expected worker that need not wait, under distinct names. */
  ghost predicate TasksFor(i: Input, order: seq<string>, tasks: seq<Task>)
    requires forall node :: node in order ==> node in i.expected
  {
    && DistinctTasks(tasks)
    && (forall t :: t in tasks ==> PlannedFrom(i, order, t))
    && (forall node :: node in order && !MustWait(i, node) ==> exists t :: t in tasks && IsTaskOf(i, node, t))
  }

  lemma {:induction false} PlanTasks(i: Input, order: seq<string>)
    requires Distinct(order) && forall node :: node in order ==> node in i.expected
    ensures TasksFor(i, order, Plan(i, order).0)
  {
    if order != [] {
      var init, node := order[..|order| - 1], order[|order| - 1];
      assert order == init + [node];
      PlanTasks(i, init);
      PlanOneTask(i, node, Plan(i, init).1);
      TasksOneMore(i, init, node, Plan(i, init).0, PlanOne(i, node, Plan(i, init).1).0);
    }
  }

  lemma PlanOneTask(i: Input, node: string, n: int)
    requires node in i.expected
    ensures var one := PlanOne(i, node, n).0;
      if MustWait(i, node) then one == [] else |one| == 1 && IsTaskOf(i, node, one[0])
  {
  }

  lemma TasksOneMore(i: Input, init: seq<string>, node: string, tasks: seq<Task>, one: seq<Task>)
    requires node in i.expected && node !in init && forall n :: n in init ==> n in i.expected
    requires TasksFor(i, init, tasks)
    requires if MustWait(i, node) then one == [] else |one| == 1 && IsTaskOf(i, node, one[0])
    ensures TasksFor(i, init + [node], tasks + one)
  {
    hide MustWait, IsTaskOf, PodName, PlannedFrom;
    var order := init + [node];
    forall t | t in tasks ensures PlannedFrom(i, order, t) && t.name != PodName(i.g, node) {
      PlannedOneMore(i, init, node, t);
    }
    if one != [] {
      PlannedNow(i, init, node, one[0]);
      assert one == [one[0]];
    }
    assert DistinctTasks(tasks + one);
    forall m | m in order && !MustWait(i, m) ensures exists t :: t in tasks + one && IsTaskOf(i, m, t) {
      if m in init {
        var t :| t in tasks && IsTaskOf(i, m, t);
        assert t in tasks + one;
      } else {
        assert one[0] in tasks + one;
      }
    }
  }

  lemma PlannedOneMore(i: Input, init: seq<string>, node: string, t: Task)
    requires node in i.expected && node !in init && forall n :: n in init ==> n in i.expected
    requires PlannedFrom(i, init, t)
    ensures PlannedFrom(i, init + [node], t) && t.name != PodName(i.g, node)
  {
    var m :| m in init && IsTaskOf(i, m, t);
    assert m in init + [node];
    if t.name == PodName(i.g, node) {
      PodNameInjective(i.g, m, node);
    }
  }

  lemma PlannedNow(i: Input, init: seq<string>, node: string, t: Task)
    requires node in i.expected && forall n :: n in init ==> n in i.expected
    requires IsTaskOf(i, node, t)
    ensures PlannedFrom(i, init + [node], t) && t.name == PodName(i.g, node)
  {
    assert node in init + [node];
  }

  // ---------- pods by name ----------

  function At(pods: Pods, name: string): Option<Pod> {
    if name in pods then Some(pods[name]) else None
  }

  predicate WellNamed(pods: Pods) {
    forall name :: name in pods ==> pods[name].name == name
  }

  /** A list of the pods, in any order. */
  ghost predicate IsListing(listing: seq<Pod>, pods: Pods) {
    && DistinctPods(listing) && WellNamed(pods)
    && (forall p :: p in listing ==> p.name in pods && pods[p.name] == p)
    && (forall name :: name in pods ==> pods[name] in listing)
  }

  lemma ListingFinds(listing: seq<Pod>, pods: Pods, name: string)
    requires IsListing(listing, pods)
    ensures Find(listing, name) == At(pods, name)
  {
    if name in pods {
      FindListed(listing, pods[name]);
    }
  }

  predicate GoodTask(t: Task) {
    t.want.name == t.name && (t.actual.Some? ==> t.actual.value.name == t.name)
  }

  lemma TaskIsGood(i: Input, node: string, t: Task)
    requires node in i.expected && IsTaskOf(i, node, t)
    ensures GoodTask(t)
  {
  }

  /** What a task leaves under its name. */
  function TaskResult(before: Option<Pod>, onDelete: bool, t: Task, r: Response): Option<Pod> {
    if !r.pvcsOk then before
    else match (t.action, t.actual)
      case (UpToDate, _) => before
      case (SmoothRestart, Some(p)) =>
        if r.smoothOk then Some(Restarted(p, t.want))
        else if onDelete then before
        else Replaced(before, p, t.want, r.recreation)
      case (_, Some(p)) => Replaced(before, p, t.want, r.recreation)
      case (_, None) => if r.creation.Created? then Some(t.want) else before
  }

  function Replaced(before: Option<Pod>, p: Pod, created: Pod, r: Recreation): Option<Pod> {
    match r
    case Recreated => Some(created)
    case DeleteFailed => before
    case StuckDeleting => Some(p.(deleting := true))
    case CreateFailed => None
  }

  lemma RunTaskAt(pods: Pods, onDelete: bool, t: Task, r: Response, name: string)
    requires GoodTask(t)
    ensures At(RunTask(pods, onDelete, t, r).0, name)
            == if name == t.name then TaskResult(At(pods, name), onDelete, t, r) else At(pods, name)
  {
  }

  /** Tasks of distinct workers do not interfere: each name holds the result of its own task. */
  lemma {:induction false} RunTasksAt(pods: Pods, onDelete: bool, tasks: seq<Task>, api: Api, name: string)
    requires DistinctTasks(tasks) && forall t :: t in tasks ==> GoodTask(t)
    ensures var after := At(RunTasks(pods, onDelete, tasks, api).0, name);
      && (forall t :: t in tasks && t.name == name ==> after == TaskResult(At(pods, name), onDelete, t, api(name)))
      && ((forall t :: t in tasks ==> t.name != name) ==> after == At(pods, name))
  {
    if tasks != [] {
      var init, last := tasks[..|tasks| - 1], tasks[|tasks| - 1];
      assert tasks == init + [last];
      RunTasksAt(pods, onDelete, init, api, name);
      RunTaskAt(RunTasks(pods, onDelete, init, api).0, onDelete, last, api(last.name), name);
      hide TaskResult, RunTask;
      assert forall t :: t in init ==> t.name != last.name;
      assert forall t :: t in init ==> t in tasks;
    }
  }

  /** How the sync leaves the pod of a name: untouched, or as the one task of that name leaves it. */
  lemma SyncedAt(e: Event, pods: Pods, status: Status, name: string) returns (node: string, t: Task)
    requires IsOrder(e.order, e.expected) && IsListing(e.listing, pods)
    ensures var i := InputOf(e, status);
      var after := At(SyncedPods(e, pods, status).0, name);
      || (after == At(pods, name) && forall node :: node in e.expected && !MustWait(i, node) ==>
          PodName(e.g, node) != name)
      || (node in e.expected && IsTaskOf(i, node, t) && t.name == name && GoodTask(t) && t.actual == At(pods, name)
          && after == TaskResult(At(pods, name), e.g.strategy.OnDelete?, t, e.api(name)))
  {
    var i := InputOf(e, status);
    var tasks := Plan(i, e.order).0;
    PlanTasks(i, e.order);
    forall t | t in tasks ensures GoodTask(t) {
      var m :| m in e.order && IsTaskOf(i, m, t);
      TaskIsGood(i, m, t);
    }
    RunTasksAt(pods, e.g.strategy.OnDelete?, tasks, e.api, name);
    ListingFinds(e.listing, pods, name);
    hide TaskResult, RunTasks, Plan, MustWait, Needed, Wanted, Candidate;
    if k :| 0 <= k < |tasks| && tasks[k].name == name {
      t := tasks[k];
      assert t in tasks && PlannedFrom(i, e.order, t);
      node :| node in e.order && IsTaskOf(i, node, t);
    } else {
      node, t := "", Task("", None, NoPod(), UpToDate);
      forall m | m in e.expected && !MustWait(i, m) ensures PodName(e.g, m) != name {
        var u :| u in tasks && IsTaskOf(i, m, u);
      }
    }
  }

  function NoPod(): Pod {
    Pod("", "", NoTag, "", None, Annotations(None, None, None, false, "", map[]), false, false, PodPending)
  }

  // ---------- redundant workers, by name ----------

  /**
   The group still has a place for the pod: it is expected by its name with replicas, else by its node, or it is not
   bound yet and the group schedules its workers.
   */
  predicate Belongs(g: Group, nodes: set<string>, p: Pod) {
    if g.replicas then p.name in nodes else p.nodeName in nodes || (g.scheduling && p.nodeName == "")
  }

  /** Redundant are exactly the pods without a place that are not being deleted already. */
  lemma RedundantExactly(g: Group, nodes: set<string>, p: Pod)
    requires p.name != ""
    ensures Redundant(g, nodes, p) <==> !p.deleting && !Belongs(g, nodes, p)
  {
  }

  /** A pod with a place is never redundant. */
  lemma BelongingIsSpared(g: Group, nodes: set<string>, p: Pod)
    ensures Belongs(g, nodes, p) ==> !Redundant(g, nodes, p)
  {
  }

  function ShutdownResult(p: Pod, s: Shutdown, r: Response, now: Time): Option<Pod> {
    match s
    case Fail => Some(p)
    case Hold => Some(p)
    case Enter =>
      if p.annotations.v2 && r.smoothOk then Some(Restarted(p, LeavingWorker(p, now)))
      else Replaced(Some(p), p, FreshPod(LeavingWorker(p, now)), r.recreation)
    case Release => match r.deletion
      case Refused => Some(p)
      case Terminating => Some(p.(deleting := true))
      case Vanished => None
  }

  lemma RemoveOneElsewhere(pods: Pods, g: Group, status: Status, nodes: set<string>, p: Pod, r: Response, now: Time,
                           name: string)
    requires name != p.name
    ensures At(RemoveOne(pods, g, status, nodes, p, r, now).0, name) == At(pods, name)
  {
    hide LeavingWorker, ShutdownOf, Redundant, RestartedAnnotations;
    LeavingWorkerName(p, now);
  }

  lemma LeavingWorkerName(p: Pod, now: Time)
    ensures LeavingWorker(p, now).name == p.name
    ensures LeavingWorker(p, now).annotations.joinedAt == p.annotations.joinedAt
    ensures LeavingWorker(p, now).annotations.waitingAt == Some(Rfc3339(now))
  {
  }

  /** Looking at the redundant workers leaves the pod of a name alone, or shuts it down as decided for it. */
  lemma {:induction false} RemovedAt(pods: Pods, g: Group, status: Status, nodes: set<string>, listing: seq<Pod>,
                                     api: Api, now: Time, name: string)
    requires DistinctPods(listing)
    ensures var after := At(RemoveAll(pods, g, status, nodes, listing, api, now).0, name);
      || after == At(pods, name)
      || (exists p :: p in listing && p.name == name && Redundant(g, nodes, p)
            && after == At(RemoveOne(pods, g, status, nodes, p, api(name), now).0, name))
    decreases |listing|
  {
    if listing != [] {
      var p := listing[0];
      var one := RemoveOne(pods, g, status, nodes, p, api(p.name), now);
      assert p in listing;
      hide RemoveOne, Redundant;
      if p.name != name {
        RemoveOneElsewhere(pods, g, status, nodes, p, api(p.name), now, name);
      } else {
        RemoveOneSkips(pods, g, status, nodes, p, api(p.name), now);
      }
      if !one.1 {
        RemovedAt(one.0, g, status, nodes, listing[1..], api, now, name);
        assert RemoveAll(pods, g, status, nodes, listing, api, now)
               == RemoveAll(one.0, g, status, nodes, listing[1..], api, now);
        var after := At(RemoveAll(pods, g, status, nodes, listing, api, now).0, name);
        if q :| q in listing[1..] && q.name == name && Redundant(g, nodes, q)
                && after == At(RemoveOne(one.0, g, status, nodes, q, api(name), now).0, name) {
          assert q in listing && p.name != name;
          RemoveOneLocal(one.0, pods, g, status, nodes, q, api(name), now);
        }
      }
    }
  }

  // ---------- errors, and which workers are reached ----------

  /** A call that the task needs fails. */
  predicate TaskFails(onDelete: bool, t: Task, r: Response) {
    || !r.pvcsOk
    || match (t.action, t.actual)
       case (UpToDate, _) => false
       case (SmoothRestart, Some(_)) => !r.smoothOk && (onDelete || r.recreation != Recreated)
       case (_, Some(_)) => r.recreation != Recreated
       case (_, None) => r.creation.CreationFailed?
  }

  lemma RunTaskFails(pods: Pods, onDelete: bool, t: Task, r: Response)
    ensures RunTask(pods, onDelete, t, r).1 <==> TaskFails(onDelete, t, r)
    ensures !TaskFails(onDelete, t, r) ==> pods.Keys <= RunTask(pods, onDelete, t, r).0.Keys
  {
  }

  ghost predicate SomeTaskFails(onDelete: bool, tasks: seq<Task>, api: Api) {
    exists t :: t in tasks && TaskFails(onDelete, t, api(t.name))
  }

  /** The sync fails exactly when one of its tasks does; without a failure it loses no pod. */
  lemma {:induction false} RunTasksFail(pods: Pods, onDelete: bool, tasks: seq<Task>, api: Api)
    ensures RunTasks(pods, onDelete, tasks, api).1 <==> SomeTaskFails(onDelete, tasks, api)
    ensures !SomeTaskFails(onDelete, tasks, api) ==> pods.Keys <= RunTasks(pods, onDelete, tasks, api).0.Keys
  {
    if tasks != [] {
      var init, last := tasks[..|tasks| - 1], tasks[|tasks| - 1];
      assert tasks == init + [last];
      RunTasksFail(pods, onDelete, init, api);
      RunTaskFails(RunTasks(pods, onDelete, init, api).0, onDelete, last, api(last.name));
      hide RunTask, TaskFails;
      assert last in tasks;
      assert SomeTaskFails(onDelete, init, api) ==> SomeTaskFails(onDelete, tasks, api);
    }
  }

  /** The removal stops at this worker: its stats cannot be read, or a call that its shutdown needs fails. */
  predicate StopsAt(g: Group, status: Status, nodes: set<string>, p: Pod, r: Response, now: Time) {
    && Redundant(g, nodes, p)
    && match ShutdownOf(g, status, p, RecordOf(status.stats, p.name), r, now)
       case Fail => true
       case Hold => false
       case Enter => !(p.annotations.v2 && r.smoothOk) && r.recreation != Recreated
       case Release => r.deletion.Refused? || !r.cleanOk
  }

  /** The removal gets as far as the worker at place m of the listing. */
  predicate Reaches(g: Group, status: Status, nodes: set<string>, listing: seq<Pod>, api: Api, now: Time, m: nat)
    requires m <= |listing|
  {
    forall k :: 0 <= k < m ==> !StopsAt(g, status, nodes, listing[k], api(listing[k].name), now)
  }

  lemma RemoveOneStops(pods: Pods, g: Group, status: Status, nodes: set<string>, p: Pod, r: Response, now: Time)
    requires p.name in pods
    ensures RemoveOne(pods, g, status, nodes, p, r, now).1 <==> StopsAt(g, status, nodes, p, r, now)
  {
    hide ShutdownOf, Redundant, LeavingWorker, RestartedAnnotations;
  }

  /** Looking at a worker leaves the other pods of a listing there. */
  lemma RemoveOneKeeps(pods: Pods, g: Group, status: Status, nodes: set<string>, listing: seq<Pod>, r: Response,
                       now: Time)
    requires DistinctPods(listing) && listing != [] && forall q :: q in listing ==> q.name in pods
    ensures forall q :: q in listing[1..] ==> q.name in RemoveOne(pods, g, status, nodes, listing[0], r, now).0
  {
    hide RemoveOne;
    forall q | q in listing[1..] ensures q.name in RemoveOne(pods, g, status, nodes, listing[0], r, now).0 {
      RemoveOneElsewhere(pods, g, status, nodes, listing[0], r, now, q.name);
    }
  }

  /** A worker that is gone already when its turn comes is no error, unless its cleaning fails. */
  lemma GoneIsNoError(pods: Pods, g: Group, status: Status, nodes: set<string>, p: Pod, r: Response, now: Time)
    requires p.name !in pods && Redundant(g, nodes, p)
    requires ShutdownOf(g, status, p, RecordOf(status.stats, p.name), r, now) == Release
    ensures RemoveOne(pods, g, status, nodes, p, r, now) == (pods, !r.cleanOk)
  {
  }

  /** The removal fails exactly when it stops at some worker of the listing. */
  lemma {:induction false} RemovalFails(pods: Pods, g: Group, status: Status, nodes: set<string>, listing: seq<Pod>,
                                        api: Api, now: Time)
    requires DistinctPods(listing) && forall q :: q in listing ==> q.name in pods
    ensures RemoveAll(pods, g, status, nodes, listing, api, now).1
            <==> !Reaches(g, status, nodes, listing, api, now, |listing|)
    decreases |listing|
  {
    if listing != [] {
      var q := listing[0];
      hide RemoveOne, StopsAt;
      RemoveOneStops(pods, g, status, nodes, q, api(q.name), now);
      if !StopsAt(g, status, nodes, q, api(q.name), now) {
        RemoveOneKeeps(pods, g, status, nodes, listing, api(q.name), now);
        RemovalFails(RemoveOne(pods, g, status, nodes, q, api(q.name), now).0, g, status, nodes, listing[1..], api,
                     now);
        ReachesFurther(g, status, nodes, listing, api, now, |listing|);
      }
    }
  }

  lemma ReachesFurther(g: Group, status: Status, nodes: set<string>, listing: seq<Pod>, api: Api, now: Time, m: nat)
    requires 1 <= m <= |listing|
    ensures Reaches(g, status, nodes, listing, api, now, m) <==>
      && !StopsAt(g, status, nodes, listing[0], api(listing[0].name), now)
      && Reaches(g, status, nodes, listing[1..], api, now, m - 1)
  {
    hide StopsAt;
    var rest := listing[1..];
    assert forall k :: 0 <= k < m - 1 ==> rest[k] == listing[k + 1];
    assert forall k :: 1 <= k < m ==> listing[k] == rest[k - 1];
  }

  /**
   A listed redundant worker ends as decided for it exactly when the removal stops at no worker before it; else it is
   left alone. What happens after it does not matter.
   */
  lemma {:induction false} RemovedExactly(pods: Pods, g: Group, status: Status, nodes: set<string>, listing: seq<Pod>,
                                          api: Api, now: Time, m: nat)
    requires DistinctPods(listing) && m < |listing| && Redundant(g, nodes, listing[m])
    requires (forall q :: q in listing ==> q.name in pods) && pods[listing[m].name] == listing[m]
    ensures var p := listing[m];
      At(RemoveAll(pods, g, status, nodes, listing, api, now).0, p.name)
      == if Reaches(g, status, nodes, listing, api, now, m)
         then ShutdownResult(p, ShutdownOf(g, status, p, RecordOf(status.stats, p.name), api(p.name), now),
             api(p.name), now)
         else Some(p)
    decreases |listing|
  {
    var q, p := listing[0], listing[m];
    var one := RemoveOne(pods, g, status, nodes, q, api(q.name), now);
    hide RemoveOne, Redundant, ShutdownOf, ShutdownResult, StopsAt;
    RemoveOneStops(pods, g, status, nodes, q, api(q.name), now);
    if m == 0 {
      RemoveOneIs(pods, g, status, nodes, p, api(p.name), now);
      if !one.1 {
        RemovedAt(one.0, g, status, nodes, listing[1..], api, now, p.name);
        assert forall r :: r in listing[1..] ==> r.name != p.name;
      }
    } else {
      RemoveOneElsewhere(pods, g, status, nodes, q, api(q.name), now, p.name);
      ReachesFurther(g, status, nodes, listing, api, now, m);
      if !one.1 {
        RemoveOneKeeps(pods, g, status, nodes, listing, api(q.name), now);
        assert listing[1..][m - 1] == p;
        RemovedExactly(one.0, g, status, nodes, listing[1..], api, now, m - 1);
      }
    }
  }

  lemma RemoveOneSkips(pods: Pods, g: Group, status: Status, nodes: set<string>, p: Pod, r: Response, now: Time)
    ensures !Redundant(g, nodes, p) ==> RemoveOne(pods, g, status, nodes, p, r, now) == (pods, false)
  {
  }

  lemma RemoveOneLocal(a: Pods, b: Pods, g: Group, status: Status, nodes: set<string>, p: Pod, r: Response, now: Time)
    requires At(a, p.name) == At(b, p.name)
    ensures At(RemoveOne(a, g, status, nodes, p, r, now).0, p.name)
        == At(RemoveOne(b, g, status, nodes, p, r, now).0, p.name)
  {
    hide LeavingWorker, ShutdownOf, Redundant, RestartedAnnotations;
    LeavingWorkerName(p, now);
  }

  lemma RemoveOneIs(pods: Pods, g: Group, status: Status, nodes: set<string>, p: Pod, r: Response, now: Time)
    requires Redundant(g, nodes, p) && At(pods, p.name) == Some(p)
    ensures At(RemoveOne(pods, g, status, nodes, p, r, now).0, p.name)
            == ShutdownResult(p, ShutdownOf(g, status, p, RecordOf(status.stats, p.name), r, now), r, now)
  {
    hide ShutdownOf, Redundant, LeavingWorker;
  }
}
