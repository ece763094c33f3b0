/**
 One reconcile of a cache group: bring every expected worker to its state within the disruption budget, let the
 redundant workers leave, and recompute the status before and after.

 The pods of the group are a map by name. What a Kubernetes call or a command in a worker returns is given per worker
 by a Response, so every outcome of every call is covered.
 */
module Lifecycle {
  import opened Wrappers
  import opened Kube
  import opened Worker
  import opened Rebalance
  import opened Builder
  import opened Update

  // ---------- the outside world ----------

  /** Deleting a pod, waiting until it is gone, and creating it again. */
  datatype Recreation = Recreated | DeleteFailed | StuckDeleting | CreateFailed

  datatype Creation = Created | AlreadyExists | CreationFailed

  /** Deleting a pod without waiting: refused, accepted (still terminating), or gone at once. */
  datatype Deletion = Refused | Terminating | Vanished

  datatype Response = Response(
    pvcsOk: bool,                  // the worker's volume claims could be ensured
    smoothOk: bool,                // the smooth restart and its patch succeeded
    recreation: Recreation,
    creation: Creation,
    mounted: bool,                 // the mount point answers
    currentStats: Option<Stats>,   // the worker's counters, None when they cannot be read
    deletion: Deletion,
    cleanOk: bool)                 // cleaning the cache of a deleted worker succeeded

  type Api = string -> Response

  type Pods = map<string, Pod>

  // ---------- planning the updates ----------

  /** What syncWorkers reads and does not change. */
  datatype Input = Input(g: Group, status: Status, expected: map<string, Template>, listing: seq<Pod>, now: Time)

  datatype Task = Task(name: string, actual: Option<Pod>, want: Pod, action: Action)

  function Unavailable(listing: seq<Pod>): nat {
    if listing == [] then 0
    else
      var p := listing[|listing| - 1];
      Unavailable(listing[..|listing| - 1]) + if p.deleting || !p.ready then 1 else 0
  }

  /** A worker that does not exist has to wait while admission is closed, unless it belongs to the batch. */
  predicate MustWait(i: Input, node: string) {
    var name := PodName(i.g, node);
    Find(i.listing, name).None? && !CanAddWorker(i.status, i.now) && name !in MembersOf(i.status.rebalance)
  }

  predicate JoinFlag(i: Input, node: string)
    requires node in i.expected
  {
    AddJoinOption(i.g, i.status, Find(i.listing, PodName(i.g, node)), i.expected[node], i.now)
  }

  function Wanted(i: Input, node: string): Pod
    requires node in i.expected
  {
    NewCacheGroupWorker(i.g, i.expected[node], node, JoinFlag(i, node), i.now)
  }

  function StrategyOf(i: Input): (bool, int) {
    ParseUpdateStrategy(i.g.strategy, |i.expected|)
  }

  /** The update the worker of a node needs, before the budget. */
  function Needed(i: Input, node: string): Action
    requires node in i.expected
  {
    Decide(StrategyOf(i).0, i.g, i.expected[node], node, JoinFlag(i, node), Find(i.listing, PodName(i.g, node)), i.now)
  }

  /** A ready worker that needs an update: updating it takes one unit of the budget. */
  predicate Candidate(i: Input, node: string)
    requires node in i.expected
  {
    var actual := Find(i.listing, PodName(i.g, node));
    actual.Some? && actual.value.ready && Needed(i, node) != UpToDate
  }

  /** The task of one node when `unavailable` workers are unavailable already, and the count after it. */
  function PlanOne(i: Input, node: string, unavailable: int): (seq<Task>, int)
    requires node in i.expected
  {
    if MustWait(i, node) then ([], unavailable)
    else
      var name := PodName(i.g, node);
      var actual := Find(i.listing, name);
      var skip := Candidate(i, node) && unavailable >= StrategyOf(i).1;
      ([Task(name, actual, Wanted(i, node), if skip then UpToDate else Needed(i, node))],
       if Candidate(i, node) && !skip then unavailable + 1 else unavailable)
  }

  function Plan(i: Input, order: seq<string>): (r: (seq<Task>, int))
    requires forall node :: node in order ==> node in i.expected
  {
    if order == [] then ([], Unavailable(i.listing))
    else
      var node := order[|order| - 1];
      var init := Plan(i, order[..|order| - 1]);
      var one := PlanOne(i, node, init.1);
      (init.0 + one.0, one.1)
  }

  // ---------- carrying out one task ----------

  /** Deleting a pod and creating it anew. */
  function Replace(pods: Pods, p: Pod, created: Pod, r: Recreation): (Pods, bool) {
    match r
    case Recreated => (pods[p.name := created], false)
    case DeleteFailed => (pods, true)
    case StuckDeleting => (pods[p.name := p.(deleting := true)], true)
    case CreateFailed => (pods - {p.name}, true)
  }

  function CreateOrUpdate(pods: Pods, actual: Option<Pod>, want: Pod, r: Response): (Pods, bool) {
    match actual
    case Some(p) => Replace(pods, p, want, r.recreation)
    case None => match r.creation
      case Created => (pods[want.name := want], false)
      case AlreadyExists => (pods, false)
      case CreationFailed => (pods, true)
  }

  /** The pods after the task, and whether it failed. */
  function RunTask(pods: Pods, onDelete: bool, task: Task, r: Response): (Pods, bool) {
    if !r.pvcsOk then (pods, true)
    else match (task.action, task.actual)
      case (UpToDate, _) => (pods, false)
      case (SmoothRestart, Some(p)) =>
        if r.smoothOk then (pods[p.name := Restarted(p, task.want)], false)
        else if onDelete then (pods, true)
        else CreateOrUpdate(pods, task.actual, task.want, r)
      case (_, _) => CreateOrUpdate(pods, task.actual, task.want, r)
  }

  function RunTasks(pods: Pods, onDelete: bool, tasks: seq<Task>, api: Api): (Pods, bool) {
    if tasks == [] then (pods, false)
    else
      var init := RunTasks(pods, onDelete, tasks[..|tasks| - 1], api);
      var task := tasks[|tasks| - 1];
      var one := RunTask(init.0, onDelete, task, api(task.name));
      (one.0, init.1 || one.1)
  }

  // ---------- redundant workers ----------

  predicate Redundant(g: Group, nodes: set<string>, p: Pod) {
    var key := if g.replicas then p.name else p.nodeName;
    !(key == "" && g.scheduling) && key !in nodes && !p.deleting
  }

  /** Two process start times close enough to belong to one process. */
  predicate SameWorkerProcess(a: Option<Time>, b: Option<Time>) {
    a.Some? && b.Some? && -START_TIME_TOLERANCE <= a.value - b.value <= START_TIME_TOLERANCE
  }

  const START_TIME_TOLERANCE: Duration := 5 * SECOND

  datatype Shutdown = Release | Hold | Fail | Enter

  function MinIdle(p: Pod): Duration {
    Max(MIN_LEAVE_WORKER_DURATION, RebalanceDelay(p) + REBALANCE_DELAY_MARGIN)
  }

  /** What gracefulShutdownWorker decides for a redundant worker. */
  function ShutdownOf(g: Group, status: Status, p: Pod, stats: Stats, r: Response, now: Time): Shutdown {
    if Leaving(p) && now - p.annotations.waitingAt.value > WaitingMax(g) then Release
    else if !Leaving(p) && status.readyWorker <= 1 then Release
    else if !p.ready || !r.mounted then (if Leaving(p) then Hold else Release)
    else match r.currentStats
      case None => Fail
      case Some(current) =>
        if current.cacheBytes.None? || current.cacheBytes.value <= 0 then Release
        else if Leaving(p) then
          if SameWorkerProcess(stats.startTime, current.startTime)
             && WorkerCounterIdle(p, stats, false, p.annotations.waitingAt.value, MinIdle(p), now)
          then Release else Hold
        else Enter
  }

  /** The leaving worker created after a deletion: same pod spec, status not reported yet. */
  function FreshPod(p: Pod): Pod {
    p.(ready := false, deleting := false, phase := PodPending)
  }

  function EnterLeave(pods: Pods, p: Pod, r: Response, now: Time): (Pods, bool) {
    var leaving := LeavingWorker(p, now);
    if p.annotations.v2 && r.smoothOk then (pods[p.name := Restarted(p, leaving)], false)
    else Replace(pods, p, FreshPod(leaving), r.recreation)
  }

  function DeletePod(pods: Pods, name: string, d: Deletion): (Pods, bool) {
    if name !in pods then (pods, false)
    else match d
      case Refused => (pods, true)
      case Terminating => (pods[name := pods[name].(deleting := true)], false)
      case Vanished => (pods - {name}, false)
  }

  /** The pods after one worker of the listing was looked at, and whether the loop stops with an error. */
  function RemoveOne(pods: Pods, g: Group, status: Status, nodes: set<string>, p: Pod, r: Response,
                     now: Time): (Pods, bool) {
    if !Redundant(g, nodes, p) then (pods, false)
    else match ShutdownOf(g, status, p, RecordOf(status.stats, p.name), r, now)
      case Fail => (pods, true)
      case Hold => (pods, false)
      case Enter => EnterLeave(pods, p, r, now)
      case Release =>
        var deleted := DeletePod(pods, p.name, r.deletion);
        (deleted.0, deleted.1 || !r.cleanOk)
  }

  function RemoveAll(pods: Pods, g: Group, status: Status, nodes: set<string>, listing: seq<Pod>, api: Api,
                     now: Time): (Pods, bool)
    decreases |listing|
  {
    if listing == [] then (pods, false)
    else
      var one := RemoveOne(pods, g, status, nodes, listing[0], api(listing[0].name), now);
      if one.1 then one
      else RemoveAll(one.0, g, status, nodes, listing[1..], api, now)
  }

  // ---------- the reconcile ----------

  /** Clock readings of one reconcile: before, while the workers are handled, and after. */
  datatype Clock = Clock(start: Time, during: Time, end: Time)

  /** Everything one reconcile depends on besides the pods and the stored status. */
  datatype Event = Event(
    g: Group, expected: map<string, Template>, order: seq<string>, listing: seq<Pod>, listing': seq<Pod>,
    clock: Clock, api: Api)

  function FirstStatus(e: Event, status: Status): Status {
    StatusOf(e.g, status, e.expected.Keys, e.listing, e.clock.start)
  }

  function InputOf(e: Event, status: Status): Input {
    Input(e.g, FirstStatus(e, status), e.expected, e.listing, e.clock.during)
  }

  ghost predicate IsOrder(order: seq<string>, expected: map<string, Template>) {
    && (forall node :: node in order <==> node in expected)
    && forall i, j :: 0 <= i < j < |order| ==> order[i] != order[j]
  }

  function SyncedPods(e: Event, pods: Pods, status: Status): (Pods, bool)
    requires IsOrder(e.order, e.expected)
  {
    var i := InputOf(e, status);
    RunTasks(pods, e.g.strategy.OnDelete?, Plan(i, e.order).0, e.api)
  }

  /** The pods after the workers were handled; redundant ones are only looked at when nothing failed before. */
  function HandledPods(e: Event, pods: Pods, status: Status): (Pods, bool)
    requires IsOrder(e.order, e.expected)
  {
    var synced := SyncedPods(e, pods, status);
    if synced.1 then synced
    else RemoveAll(synced.0, e.g, FirstStatus(e, status), e.expected.Keys, e.listing, e.api, e.clock.during)
  }

  /** What is written: times in a stored status have whole seconds. */
  function Stored(status: Status): Status {
    match status.rebalance
    case None => status
    case Some(b) => status.(rebalance := Some(b.(startAt := Rfc3339(b.startAt))))
  }

  function FinalStatus(e: Event, status: Status): Status {
    Stored(StatusOf(e.g, FirstStatus(e, status), e.expected.Keys, e.listing', e.clock.end))
  }

  // ---------- the controller ----------

  class CacheGroupController {
    var pods: Pods
    var status: Status

    constructor (pods: Pods, status: Status)
      ensures this.pods == pods && this.status == status
    {
      this.pods, this.status := pods, status;
    }

    method ReplaceWorker(p: Pod, created: Pod, r: Recreation) returns (err: bool)
      modifies this`pods
      ensures (pods, err) == Replace(old(pods), p, created, r)
    {
      match r {
        case DeleteFailed => return true;
        case StuckDeleting =>
          pods := pods[p.name := p.(deleting := true)];
          return true;
        case CreateFailed =>
          pods := pods - {p.name};
          return true;
        case Recreated =>
          pods := pods - {p.name};
          pods := pods[p.name := created];
          assert pods == old(pods)[p.name := created];
          return false;
      }
    }

    method CreateOrUpdateWorker(actual: Option<Pod>, want: Pod, r: Response) returns (err: bool)
      modifies this`pods
      ensures (pods, err) == CreateOrUpdate(old(pods), actual, want, r)
    {
      if actual.None? {
        match r.creation {
          case Created =>
            pods := pods[want.name := want];
            return false;
          case AlreadyExists => return false;
          case CreationFailed => return true;
        }
      }
      err := ReplaceWorker(actual.value, want, r.recreation);
    }

    method SmoothRestartWorker(p: Pod, target: Pod, r: Response) returns (err: bool)
      modifies this`pods
      ensures err == !r.smoothOk
      ensures pods == if err then old(pods) else old(pods)[p.name := Restarted(p, target)]
    {
      if !r.smoothOk {
        return true;
      }
      var updated := RestartAnnotations(p.annotations, target.annotations);
      pods := pods[p.name := p.(annotations := updated)];
      return false;
    }

    method SyncWorker(onDelete: bool, task: Task, r: Response) returns (err: bool)
      modifies this`pods
      ensures (pods, err) == RunTask(old(pods), onDelete, task, r)
    {
      if !r.pvcsOk {
        return true;
      }
      if task.action == UpToDate {
        return false;
      }
      if task.action == SmoothRestart && task.actual.Some? {
        var failed := SmoothRestartWorker(task.actual.value, task.want, r);
        if !failed {
          return false;
        }
        if onDelete {
          return true;
        }
      }
      err := CreateOrUpdateWorker(task.actual, task.want, r);
    }

    method CountUnavailable(listing: seq<Pod>) returns (unavailable: nat)
      ensures unavailable == Unavailable(listing)
    {
      unavailable := 0;
      for k := 0 to |listing|
        invariant unavailable == Unavailable(listing[..k])
      {
        assert listing[..k + 1][..k] == listing[..k];
        if listing[k].deleting {
          unavailable := unavailable + 1;
          continue;
        }
        if listing[k].ready {
          continue;
        }
        unavailable := unavailable + 1;
      }
      assert listing[..|listing|] == listing;
    }

    /** One round of the loop over the expected workers: the task, if the worker need not wait, and the new count. */
    method PlanWorker(i: Input, strategy: (bool, int), node: string, unavailable: int)
      returns (tasks: seq<Task>, n: int)
      requires node in i.expected && strategy == StrategyOf(i)
      ensures (tasks, n) == PlanOne(i, node, unavailable)
    {
      hide AddJoinOption, UpdateAction, NewCacheGroupWorker, V1WorkerHash, Find, PodName, CanAddWorker;
      n := unavailable;
      var t := i.expected[node];
      var name := PodName(i.g, node);
      var actual := Find(i.listing, name);
      if actual.None? && !CanAddWorker(i.status, i.now) && name !in MembersOf(i.status.rebalance) {
        return [], n;
      }
      var join := ShouldAddJoinOption(i.g, i.status, actual, t, i.now);
      assert join == JoinFlag(i, node);
      var want := NewCacheGroupWorker(i.g, t, node, join, i.now);
      var action := UpdateAction(strategy.0, V1WorkerHash(i.g, t, node, join), want, actual);
      assert action == Needed(i, node);
      if action != UpToDate && actual.Some? && actual.value.ready {
        if n >= strategy.1 {
          action := UpToDate;
        } else {
          n := n + 1;
        }
      }
      tasks := [Task(name, actual, want, action)];
    }

    method SyncWorkers(g: Group, expected: map<string, Template>, order: seq<string>, listing: seq<Pod>, now: Time,
                       api: Api)
      returns (err: bool)
      requires IsOrder(order, expected)
      modifies this`pods
      ensures (pods, err)
              == RunTasks(old(pods), g.strategy.OnDelete?, Plan(Input(g, status, expected, listing, now), order).0, api)
    {
      hide PlanOne, RunTask, ParseUpdateStrategy;
      var i := Input(g, status, expected, listing, now);
      var strategy := ParseUpdateStrategy(g.strategy, |expected|);
      var unavailable: int := CountUnavailable(listing);
      var tasks: seq<Task> := [];
      for k := 0 to |order|
        invariant pods == old(pods) && status == old(status)
        invariant (tasks, unavailable) == Plan(i, order[..k])
      {
        assert order[..k + 1][..k] == order[..k];
        var planned, n := PlanWorker(i, strategy, order[k], unavailable);
        tasks, unavailable := tasks + planned, n;
      }
      assert order[..|order|] == order;
      err := false;
      for k := 0 to |tasks|
        invariant status == old(status)
        invariant (pods, err) == RunTasks(old(pods), g.strategy.OnDelete?, tasks[..k], api)
      {
        assert tasks[..k + 1][..k] == tasks[..k];
        var failed := SyncWorker(g.strategy.OnDelete?, tasks[k], api(tasks[k].name));
        err := err || failed;
      }
      assert tasks[..|tasks|] == tasks;
    }

    method GracefulShutdownWorker(g: Group, p: Pod, stats: Stats, r: Response, now: Time)
      returns (canDelete: bool, err: bool)
      modifies this`pods
      ensures match ShutdownOf(g, status, p, stats, r, now)
              case Release => pods == old(pods) && canDelete && !err
              case Hold => pods == old(pods) && !canDelete && !err
              case Fail => pods == old(pods) && !canDelete && err
              case Enter => (pods, err) == EnterLeave(old(pods), p, r, now) && !canDelete
    {
      var migrating := p.annotations.waitingAt.Some?;
      if migrating {
        if now - p.annotations.waitingAt.value > WaitingMax(g) {
          return true, false;
        }
      } else if status.readyWorker <= 1 {
        return true, false;
      }
      if !p.ready || !r.mounted {
        return !migrating, false;
      }
      if r.currentStats.None? {
        return false, true;
      }
      var current := r.currentStats.value;
      if current.cacheBytes.None? || current.cacheBytes.value <= 0 {
        return true, false;
      }
      if migrating {
        var minIdle := Max(MIN_LEAVE_WORKER_DURATION, RebalanceDelay(p) + REBALANCE_DELAY_MARGIN);
        return SameWorkerProcess(stats.startTime, current.startTime)
          && WorkerCounterIdle(p, stats, false, p.annotations.waitingAt.value, minIdle, now), false;
      }
      var leaving := LeavingWorker(p, now);
      if p.annotations.v2 {
        var failed := SmoothRestartWorker(p, leaving, r);
        if !failed {
          return false, false;
        }
      }
      err := ReplaceWorker(p, FreshPod(leaving), r.recreation);
      canDelete := false;
    }

    method DeleteWorker(name: string, d: Deletion) returns (err: bool)
      modifies this`pods
      ensures (pods, err) == DeletePod(old(pods), name, d)
    {
      if name !in pods {
        return false;
      }
      match d {
        case Refused => return true;
        case Terminating => pods := pods[name := pods[name].(deleting := true)];
        case Vanished => pods := pods - {name};
      }
      return false;
    }

    method RemoveRedundantWorkers(g: Group, nodes: set<string>, listing: seq<Pod>, now: Time, api: Api)
      returns (err: bool)
      modifies this`pods
      ensures (pods, err) == RemoveAll(old(pods), g, status, nodes, listing, api, now)
    {
      for k := 0 to |listing|
        invariant status == old(status)
        invariant RemoveAll(old(pods), g, status, nodes, listing, api, now)
                  == RemoveAll(pods, g, status, nodes, listing[k..], api, now)
      {
        var p := listing[k];
        assert listing[k..][0] == p && listing[k..][1..] == listing[k + 1..];
        var key := if g.replicas then p.name else p.nodeName;
        if key == "" && g.scheduling {
          continue;
        }
        if key in nodes {
          continue;
        }
        if p.deleting {
          continue;
        }
        var canDelete, failed := GracefulShutdownWorker(g, p, RecordOf(status.stats, p.name), api(p.name), now);
        if failed {
          return true;
        }
        if !canDelete {
          continue;
        }
        failed := DeleteWorker(p.name, api(p.name).deletion);
        if failed {
          return true;
        }
        if !api(p.name).cleanOk {
          return true;
        }
      }
      return false;
    }

    /** The order of steps of one reconcile; `listing'` lists the pods after the workers were handled. */
    method Sync(e: Event) returns (err: bool)
      requires IsOrder(e.order, e.expected)
      modifies this
      ensures (pods, err) == HandledPods(e, old(pods), old(status))
      ensures status == FinalStatus(e, old(status))
    {
      status := CalculateStatus(e.g, status, e.expected.Keys, e.listing, e.clock.start);
      err := SyncWorkers(e.g, e.expected, e.order, e.listing, e.clock.during, e.api);
      if !err {
        err := RemoveRedundantWorkers(e.g, e.expected.Keys, e.listing, e.clock.during, e.api);
      }
      status := CalculateStatus(e.g, status, e.expected.Keys, e.listing', e.clock.end);
      status := Stored(status);
    }
  }
}
