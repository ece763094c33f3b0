# Verification model of the JuiceFS operator

This project models the behaviour of the JuiceFS Kubernetes operator in Dafny 4.11 and proves properties of the model.
`dafny verify dfyconfig.toml` checks all of it.

The centre is the life of a cache group's workers. One reconcile recomputes the rebalance batch, admits and updates
workers within a disruption budget, lets redundant workers leave, and recomputes the batch again. The state is the map
of pods with their annotations, the batch with its members and start, the stats records and the clock; runs consist of
reconciles, stats rounds and changes of the cluster in any order, with every outcome of every call.

| file | what it models |
|---|---|
| `Kube.dfy` | times, images, pods, annotations, settings, status |
| `Worker.dfy` | delays, admission, idle counters, when the join option is kept |
| `Rebalance.dfy`, `RebalanceTheorems.dfy` | recomputing the batch; an order-free definition of it, lifetime, idempotence |
| `Sequences.dfy`, `Text.dfy`, `Names.dfy` | filtering and stable sorting, strings, sorted names |
| `MountOptions.dfy` | mount options and the worker's command: printing, reading, editing |
| `Builder.dfy`, `Update.dfy` | rendering a worker, the update decision, smooth restart, entering and calling off the leave |
| `Lifecycle.dfy`, `SyncTheorems.dfy` | one reconcile as a class over the map of pods; budget, independence of tasks |
| `Runs.dfy`, `JoinRuns.dfy`, `LeaveRuns.dfy`, `Rollout.dfy` | whole runs: closed join window, join phase, leave safety, convergence of updates |
| `StatsRounds.dfy` | sampling rounds, rates, totals |
| `Bytes.dfy` | printing and reading byte counts |
| `Scheduler.dfy`, `Placement.dfy` | the scheduler simulator and greedy placement; when placements stay |
| `SyncPhase.dfy`, `CronSync.dfy`, `CronRuns.dfy` | phases and expiry of a sync job; scheduled syncs and their runs |
| `CronPruning.dfy`, `CronInstances.dfy` | when the time of the last success goes back, and runs in which it does |
| `Warmup.dfy`, `ConfigVolumes.dfy` | the mount of a warm-up job; rendering that goes over Go maps |

## Conventions

- A loop or an object of the source is a method or a class here, proved against a function or predicate; the properties
  are lemmas about those. The iteration order of a Go map is a parameter, so results hold for every order.
- Times are nanoseconds. Times that pass through annotations or a stored status are cut to the second, as RFC 3339
  printing does. Durations, byte counts and rates are integers; 64-bit wrap-around is explicit where sums can reach it.
- The outcome of each Kubernetes call or command in a worker is part of a `Response`, `Turn` or `CronTurn` value, so each
  lemma covers every outcome.

## Assumptions

- Only one operator creates pods of the group and writes its juicefs.io annotations; a template uses none of the five
  annotation keys the operator writes.
- Listings show the pods and jobs as they are, the final status of a reconcile of a cache group is stored, and a name is
  listed once. Between the two listings of a reconcile pods may start, fail, be bound or be deleted by others.
- The hash of a rendered pod is injective: the annotation is modelled by the rendering it stands for.
- A worker's uptime is not negative and a stats file is read before the sample is stamped.
- A cron schedule has a tick after every time, at whole seconds. A job carries the second of the reconcile that creates
  it and is named by that second. In the counting result the status write after a creation succeeds (`SameTickExactly`
  says what happens if not).
- A new sync job gets the default phase Pending of its resource definition. A job whose deletion is accepted is gone at
  once.
- Node affinity with taints is a set of fitting nodes, a label selector a predicate on labels.

Where the source's messages and its code differ the code is followed: the duplicate check of the mount options compares
an option's value, not its key, with the options already there.

## Model

| member | source | states |
|---|---|---|
| Rebalance.CalculateStatus | internal/controller/cachegroup_controller.go:358-443 | The loop that counts pods and collects joining workers leaves the status `StatusOf` describes: counts, phase and recomputed batch; a group that expects nobody keeps counting from zero. |
| Rebalance.SettleBatch | internal/controller/cachegroup_controller.go:398-430 | The second half of the batch computation equals `Settle`: gone members dropped and sorted, then the batch kept or cleared. |
| RebalanceTheorems.RecomputeIs | internal/controller/cachegroup_controller.go:378-430 | The recomputed batch meets an order-free definition: it is gone iff nobody belongs to it, or all members have settled after its start, or its deadline has passed; else its members are, sorted and without duplicates, exactly the old members and joining workers that are expected or exist, and its start is the latest of the old start and join time plus least delay over the newcomers. |
| RebalanceTheorems.RecomputeIgnoresOrder | internal/controller/cachegroup_controller.go:378-430 | For duplicate-free listings the batch is the same under every permutation of the pod list. |
| RebalanceTheorems.StatusIgnoresOrder | internal/controller/cachegroup_controller.go:358-443 | The whole status is the same under every permutation of the pod list. |
| RebalanceTheorems.StatusIs | internal/controller/cachegroup_controller.go:358-443 | The whole status: a group that expects nobody waits without a batch and with zero counters; else the counters are the numbers of ready, joining and leaving pods and of expected workers, the phase is Ready iff as many are ready as expected, and the batch is the one of the order-free definition; records and cache size stay. |
| RebalanceTheorems.KeptBeforeDeadline | internal/controller/cachegroup_controller.go:415-430 | A kept batch has now < StartAt + BackupDuration, so while it closes admission less than 1 min + BackupDuration has passed since the cutoff. |
| RebalanceTheorems.AdmissionClosedExactly | pkg/utils/worker.go:40-47 | After a recomputation a missing worker has to wait iff the cache is not empty, now is within [start - 1 min, start + BackupDuration), somebody belongs to the batch, and either it has not started or some member has not settled. |
| RebalanceTheorems.FreshBatch | internal/controller/cachegroup_controller.go:378-430 | From no batch, a batch results iff some pod carries a join mark and now < joinedAt + delay + BackupDuration for it. |
| RebalanceTheorems.KeptIsStable | internal/controller/cachegroup_controller.go:378-430 | Recomputing a kept batch for the same clock and listing returns it unchanged. |
| RebalanceTheorems.RecomputeTwice | internal/controller/cachegroup_controller.go:378-430 | Recomputing twice differs from recomputing once iff the first result is empty while some worker carries a join mark recent enough for a batch of its own. |
| RebalanceTheorems.ClearedWithJoinerTimedOut | internal/controller/cachegroup_controller.go:415-430 | A batch cleared while a worker still joins was cleared by its deadline. |
| RebalanceTheorems.ClosedBatchShrinks | internal/controller/cachegroup_controller.go:378-430 | With every joining worker among the members, recomputing clears the batch or keeps its start and only drops members. |
| RebalanceTheorems.JoinersAreMembers | internal/controller/cachegroup_controller.go:378-430 | A batch that remains is not empty and holds every joining worker; its members are sorted and distinct. |
| Worker.GroupDelay | pkg/utils/worker.go:131-140 | The result is a lower bound of all workers' delays and one of them; the default when there is no worker. |
| Worker.CacheGroupRebalanceDelay | pkg/utils/worker.go:131-140 | The loop returns the least delay of all workers, the default when there is none. |
| Worker.RebalanceDelayIs | pkg/utils/worker.go:112-129 | The delay of a worker: the one set in its environment, else 10 s while it leaves and 10 min while it does not. |
| Worker.ShouldAddJoinOption | pkg/utils/worker.go:50-85 | The loop over the stats and its early returns compute `AddJoinOption`. |
| Worker.MissingJoinsExactly | pkg/utils/worker.go:50-62 | A worker that does not exist gets the join option iff its image is at least 5.1.0, the backup duration exceeds one second, its template sets none of commission, group-backup and decommission, and the cache size is neither unknown nor 0B. |
| Worker.JoinEndsExactly | pkg/utils/worker.go:50-109 | For a joining worker whose template may join, the join option is not wanted any more iff the backup duration is over or its own fresh idle sample was taken at least delay + 1 min after the join and after every reported worker start. |
| Worker.JoinDecisionIgnoresOrder | pkg/utils/worker.go:63-84 | For one record a name, the decision is the same under every order of the stats list. |
| Kube.CompareImageVersion | pkg/utils/utils.go:88-136 | The loop over version parts computes the lexicographic comparison, a proper prefix being smaller; missing and unversioned tags are below, rolling tags above every version. |
| Kube.CompareVersionsExactly | pkg/utils/utils.go:100-136 | A version is smaller iff it is smaller at the first part that differs or ends before the other does. |
| Kube.AtLeastExactly | pkg/utils/utils.go:88-136 | An image is at least a version iff its tag is a rolling one or carries a version that is not smaller. |
| Kube.EEImageAtLeastExactly | pkg/utils/pod.go:143-147 | Changing mount options on a smooth restart and decommission need an enterprise version of at least 5.4.4 or a rolling tag that names the enterprise edition. |
| Kube.PodNameInjective | internal/controller/cachegroup_controller.go:256-262 | Different nodes have differently named workers. |
| Lifecycle.CacheGroupController.CountUnavailable | internal/controller/cachegroup_worker_lifecycle.go:46-52 | Counts pods that are deleting or not ready, each once. |
| Lifecycle.CacheGroupController.PlanWorker | internal/controller/cachegroup_worker_lifecycle.go:54-83 | One round of the planning loop: nothing for a worker that has to wait, a skipped update when the budget is used up, one unit of budget for each ready worker updated. |
| Lifecycle.CacheGroupController.SyncWorkers | internal/controller/cachegroup_worker_lifecycle.go:38-101 | For every iteration order of the expected map, the pods end as the planned updates leave them one after the other; an error iff one of them failed. |
| Lifecycle.CacheGroupController.SyncWorker | internal/controller/cachegroup_worker_lifecycle.go:103-130 | One planned update: nothing, a recreation, or a smooth restart, with every outcome of the calls in it. |
| Lifecycle.CacheGroupController.SmoothRestartWorker | internal/controller/cachegroup_worker_lifecycle.go:234-252 | On success only the annotations of this pod change, to `Restarted`; on failure nothing does. |
| Lifecycle.CacheGroupController.RemoveRedundantWorkers | internal/controller/cachegroup_worker_lifecycle.go:133-173 | The pods become those after each redundant worker of the listing was shut down as decided, up to the first error. |
| Lifecycle.CacheGroupController.GracefulShutdownWorker | internal/controller/cachegroup_worker_lifecycle.go:176-230 | The four outcomes: let go, keep, fail, or enter the leave; only the last changes pods. |
| Lifecycle.CacheGroupController.Sync | internal/controller/cachegroup_controller.go:130-170 | Batch recomputed, workers synced, redundant ones removed only if nothing failed, batch recomputed for the new listing; the stored status is the result in whole seconds. |
| SyncTheorems.BudgetIsExact | internal/controller/cachegroup_worker_lifecycle.go:44-83 | For every iteration order, the ready workers updated in one sync number min(candidates, max(0, maxUnavailable - unavailable before)), and the counter ends at the workers then unavailable. |
| SyncTheorems.BudgetIgnoresOrder | internal/controller/cachegroup_worker_lifecycle.go:44-83 | Two iteration orders update the same number of ready workers. |
| SyncTheorems.DeletingIsNoCandidate | internal/controller/cachegroup_worker_lifecycle.go:291-294 | A pod being deleted is counted as unavailable and never also as an update. |
| SyncTheorems.UnavailableIs | internal/controller/cachegroup_worker_lifecycle.go:46-52 | The count before the updates is the number of listed pods that are being deleted or not ready. |
| SyncTheorems.WaitsExactly | internal/controller/cachegroup_worker_lifecycle.go:65-71 | A worker waits iff no pod has its name, the cache is not known to be empty, a batch with members starts within a minute or has started, and the worker is none of them. |
| SyncTheorems.PlanTasks | internal/controller/cachegroup_worker_lifecycle.go:54-83 | A plan holds exactly one update for every expected worker that need not wait, under distinct names. |
| SyncTheorems.RunTasksAt | internal/controller/cachegroup_worker_lifecycle.go:85-100 | Planned updates do not interfere: each name ends as its own update leaves it, other names are untouched. |
| SyncTheorems.RedundantExactly | internal/controller/cachegroup_worker_lifecycle.go:139-155 | A pod is redundant iff it is not being deleted and the group has no place for it: with replicas its name is not expected, else its node is not expected and it is not an unbound pod of a group that schedules its workers. |
| SyncTheorems.GoneIsNoError | internal/controller/cachegroup_worker_lifecycle.go:157-171 | Letting a worker go that is gone already is no error, unless its cleaning fails. |
| SyncTheorems.RemovedAt | internal/controller/cachegroup_worker_lifecycle.go:133-173 | Whatever fails, the pod of any name is left alone or is the listed redundant worker of that name and shut down as decided. |
| SyncTheorems.RemovedExactly | internal/controller/cachegroup_worker_lifecycle.go:133-173 | A listed redundant worker ends exactly as decided for it iff no redundant worker listed before it ends the loop, that is has unreadable stats, a failed recreation on entering the leave, a refused deletion or a failed cleaning; else it is left alone. What comes after it does not matter. |
| SyncTheorems.RemovalFails | internal/controller/cachegroup_worker_lifecycle.go:133-173 | The removal ends in an error iff one of the listed redundant workers ends the loop in one of those ways. |
| SyncTheorems.RunTasksFail | internal/controller/cachegroup_worker_lifecycle.go:85-100 | The sync ends in an error iff some planned update meets a failing call it needs; without an error no pod is lost. |
| Runs.HandledJoiner | internal/controller/cachegroup_worker_lifecycle.go:65-83 | A worker that joins after a reconcile joined before, or is new, was admitted, and the group held cache: workers let in past the empty-cache rule carry no join mark. |
| Runs.HandledNewcomer | internal/controller/cachegroup_worker_lifecycle.go:65-71 | Every pod that is new after a reconcile belongs to an expected worker that was admitted. |
| Runs.NewcomerExactly | internal/controller/cachegroup_worker_lifecycle.go:65-83 | An expected worker that does not exist is there after a whole reconcile iff it need not wait and its calls succeed; it then joins, from the second of that reconcile, iff the conditions on image, backup duration, options and cache size hold that are spelled out for a missing worker. |
| Runs.RemovalSpares | internal/controller/cachegroup_worker_lifecycle.go:139-155 | A worker that the group has a place for leaves the reconcile as its own planned update left it: the removal does not touch it. |
| Runs.HandledWellNamed | internal/controller/cachegroup_controller.go:130-170 | A reconcile keeps every pod under its own name. |
| Runs.RecomputedTwice | internal/controller/cachegroup_controller.go:130-170 | A reconcile recomputes the batch from the stored one, the first listing and the clock at its start, and again from the result, the second listing and the clock at its end, each time as in the order-free definition; the start is stored in whole seconds. |
| Runs.InvKept | internal/controller/cachegroup_controller.go:130-170 | Every step of a run keeps the invariant: every joining worker is a member of the batch that is open, which has no duplicates and starts at a stored time. |
| Runs.InvAlways | internal/controller/cachegroup_controller.go:130-170 | The invariant holds in every world of every run that starts with it, as a group without pods does. |
| Runs.InvAtFirst | internal/controller/cachegroup_controller.go:378-430 | A group without pods and batch has the invariant. |
| Runs.ListingExists | internal/controller/cachegroup_controller.go:347-356 | Any pods under their own names have a listing, so runs can always go on. |
| Runs.ClosedReconcile | internal/controller/cachegroup_controller.go:378-430 | If the first recomputation keeps a batch and now >= StartAt - 1 min, the reconcile ends with no batch or with a subset of its members and the same start, every joining worker is a member, and every new pod is a member or carries no join mark in a group without cache; pods may drift while the workers are handled. |
| Runs.ClosedWindowStaysClosed | internal/controller/cachegroup_controller.go:378-430 | Over whole runs: once a window is closed, every later world has a sub-batch of it with the same start until the batch is cleared. |
| Update.RestartAnnotations | internal/controller/cachegroup_worker_lifecycle.go:243-251 | The loops that delete and copy juicefs.io keys compute `RestartedAnnotations`. |
| Update.RestartKeepsForeign | internal/controller/cachegroup_worker_lifecycle.go:243-251 | After a smooth restart the juicefs.io annotations are exactly the target's and all foreign ones are the worker's own. |
| Update.BuiltIsUpToDate | internal/controller/cachegroup_worker_lifecycle.go:287-325 | A live worker built earlier from the same template and join flag needs no update under any strategy, also a v1 worker whose image has come to support v2. |
| Update.RenderedIsBuilt | pkg/builder/cache_group_pod.go:560-576 | What the builder renders meets that notion of built, in v1 and v2 form. |
| Update.RestartedIsBuilt | internal/controller/cachegroup_worker_lifecycle.go:234-252 | A smooth restart to the expected worker leaves a built worker built. |
| Update.SmoothRestartExactly | internal/controller/cachegroup_worker_lifecycle.go:287-325 | For builder-made v2 workers under rolling updates: smooth restart iff the worker lives and only the join option differs; recreation iff it is not being deleted and has stopped, or name, node, image, script, options, delay, annotations or any other field of its template differ. |
| Update.RecreatedExactly | internal/controller/cachegroup_worker_lifecycle.go:305-325 | A built, live worker of either form under rolling updates, its join flag unchanged: recreated iff one of those fields of the template changed, else left alone; for v1 workers with options and volume names of one line. |
| Update.OnDeleteNeverReplaces | internal/controller/cachegroup_worker_lifecycle.go:295-303 | Under OnDelete an existing worker is never recreated, and restarted only to leave the join phase, with its rendering kept. |
| Update.RestartedIsUpToDate | internal/controller/cachegroup_worker_lifecycle.go:287-325 | After a smooth restart that was chosen and succeeded the decision is UpToDate. |
| Update.V2LeavesByDecommission | internal/controller/cachegroup_worker_lifecycle.go:207-230 | A v2 worker enters the leave by its options annotation alone; its command, and so group-weight, is never touched. |
| Update.LeavesByDecommission | pkg/builder/cache_group_pod.go:772-792 | A built worker whose image knows decommission leaves with its own options but the commission, in order, and with decommission unless it is there; the same options are read back in v1 and v2 form. |
| Update.LeavesByWeight | pkg/builder/cache_group_pod.go:760-770 | Any other built worker leaves with its own options and group-weight=0 when its command speaks of no weight. |
| Update.LeavesByWeightSet | pkg/builder/cache_group_pod.go:760-770 | When one of its options sets a weight, that option becomes group-weight=0 and all others stay. |
| Update.LeavingKeeps | internal/controller/cachegroup_worker_lifecycle.go:207-230 | Entering the leave changes nothing of the worker but its command or, for v2, its options, and notes the time in whole seconds. |
| Update.DecommissionForgetsJoin | pkg/builder/cache_group_pod.go:782-792 | A leaving worker has the same options whether it was joining or not. |
| Update.LeavingOptionsExpected | internal/controller/cachegroup_worker_lifecycle.go:319-324 | Leaving options equal the expected ones iff the worker should not join and the template itself decommissions and sets no commission. |
| Update.EnteringLeave | internal/controller/cachegroup_worker_lifecycle.go:207-230 | The smooth restart that enters the leave produces a worker that left from its template. |
| Update.CalledOffLeave | internal/controller/cachegroup_worker_lifecycle.go:234-252 | Under rolling updates a v2 worker that left and is expected again is smoothly restarted iff it should join or the template sets a commission or no decommission; the restart restores exactly the expected juicefs.io annotations with all foreign ones kept, removes the leave mark, and leaves nothing to do. Otherwise the leave mark stays. |
| Update.CalledOffOnDelete | internal/controller/cachegroup_worker_lifecycle.go:295-303 | Under OnDelete such a worker is restarted iff it was joining and should not join any more; the restart restores the expected annotations and removes the leave mark, else the mark stays. |
| Update.CalledOffV1 | internal/controller/cachegroup_worker_lifecycle.go:287-325 | A v1 worker that left and is expected again is recreated, without leave mark, iff the strategy is not OnDelete and the join option differs from the one it was built with; else nothing happens and the mark stays. |
| MountOptions.ParseOptions | pkg/utils/options.go:25-46 | The loop yields, in order, the trimmed key and value of every entry except `k=` and empty keys. |
| MountOptions.GenMountOpts | pkg/builder/cache_group_pod.go:446-472 | The loop yields the base options, the template's options with its duplicate check on values, and the cache directories. |
| MountOptions.OptionsPass | pkg/builder/cache_group_pod.go:446-472 | For options of a trimmed key and an optional trimmed value, none for cache-dir and none with a value that is an option before it: the worker gets foreground, no-update, its cache group, the template's options unchanged and in order, and the cache directories. |
| MountOptions.SkippedIsDropped | pkg/builder/cache_group_pod.go:455-464 | An option for cache-dir, or whose value is an option before it, is left out and changes nothing else. |
| MountOptions.ParsePrinted | pkg/utils/options.go:25-46 | An option prints as its key or as key=value, and reading it back, with any space around it, gives its key and value. |
| MountOptions.ParseDrops | pkg/utils/options.go:25-46 | Entries without a key or with an empty value after the equals sign are dropped. |
| MountOptions.V1CommandRoundTrip | pkg/utils/pod.go:171-189 | Parsing a printed v1 command gives back the volume name and the exact option list, whatever device-mount lines come between. |
| MountOptions.V2CommandVolume | pkg/utils/pod.go:171-189 | Parsing a printed v2 command gives back the volume name. |
| MountOptions.DecommissionFields | pkg/builder/cache_group_pod.go:782-792 | Leaving drops exactly the commission options, keeps the others in order, and appends decommission unless it is there. |
| MountOptions.DecommissionIdempotent | pkg/builder/cache_group_pod.go:782-792 | Applying it twice is applying it once. |
| MountOptions.DecommissionChanges | pkg/builder/cache_group_pod.go:782-792 | Options without a commission stay as they are iff a decommission is already among them, and else only get one appended. |
| MountOptions.ReplaceWeightFirst | pkg/builder/cache_group_pod.go:760-770 | Replacing weights sets the first one found, however many digits it has, and goes on after it; text before it stays. |
| MountOptions.WeightReplaced | pkg/builder/cache_group_pod.go:760-770 | A command in which one option sets a weight is read back with that option replaced and the others in their order. |
| MountOptions.WeightAppended | pkg/builder/cache_group_pod.go:760-770 | A command that speaks of no weight is read back with one more option. |
| MountOptions.LeavingV1MatchesV2 | pkg/builder/cache_group_pod.go:772-792 | Editing a v1 command and parsing it gives the option list that editing the v2 annotation gives. |
| Builder.V2HashFixesOptions | pkg/builder/cache_group_pod.go:655-678 | Two v2 workers with the same hash have the same options iff they have the same join flag. |
| Builder.WorkerAsBuilt | pkg/builder/cache_group_pod.go:578-690 | A created worker is bound to its node unless it is named by replica or scheduled, pending, not ready, not leaving, joins from the present second iff it has the join flag, has its template's image, delay and annotations, and an options annotation only in v2 form. |
| Builder.JoinOptionIs | pkg/builder/cache_group_pod.go:474-482 | The join option is commission for images of at least 5.4.4 and group-backup before. |
| Builder.V2HashExactly | pkg/builder/cache_group_pod.go:578-678 | Two v2 workers have the same hash iff name, node, image, script text, options without the join option, delay, annotations, remaining fields and the group's replica and scheduling settings are all the same. |
| Builder.V1HashExactly | pkg/builder/cache_group_pod.go:578-678 | So for v1 workers of a group with the same join flag, whose options are part of the command, when these are one line. |
| Builder.ScriptExactly | pkg/builder/cache_group_pod.go:484-510 | The script text is the same iff auth command, device-mount scripts and volume name are, for one-line scripts and a plain volume name. |
| Builder.BuiltWorkerRoundTrip | pkg/utils/worker.go:143-149 | Reading the mount of a built worker gives its volume and exact option list with the join option, for v1 and v2. |
| LeaveRuns.LeavingReleasedExactly | internal/controller/cachegroup_worker_lifecycle.go:176-230 | A leaving worker is let go iff its timeout has passed, or it is ready, mounted and answers, and is empty or idle by a fresh sample of its own process taken after the leave began. |
| LeaveRuns.StayingReleasedExactly | internal/controller/cachegroup_controller.go:365-373 | A worker that has not entered the leave is let go iff the group expects nobody, at most one pod of the listing is ready, or it is not ready, not mounted or empty; it enters the leave iff the group expects somebody, at least two pods are ready, and it answers with cache. The ready counter the decision reads stays 0 when nobody is expected. |
| LeaveRuns.UnexpectedStep | internal/controller/cachegroup_worker_lifecycle.go:133-230 | What one reconcile can do to an unexpected worker: keep its leave time, enter the leave as decided, or let it go; others may remove the pod meanwhile, but nobody changes its leave time. |
| LeaveRuns.UnexpectedExactly | internal/controller/cachegroup_worker_lifecycle.go:133-173 | An unexpected redundant worker ends exactly as decided iff no planned update fails and the removal stops at nobody listed before it; else it is left alone. |
| LeaveRuns.ReconcileFailsExactly | internal/controller/cachegroup_controller.go:130-170 | Handling the workers ends in an error iff a planned update fails or the removal stops at some worker. |
| LeaveRuns.GoesExactly | internal/controller/cachegroup_worker_lifecycle.go:133-230 | One reconcile takes an unexpected redundant worker iff it gets that far, and either lets the worker go with its deletion accepted or loses it on entering the leave. |
| LeaveRuns.TimeoutLetsGo | internal/controller/cachegroup_worker_lifecycle.go:181-187 | Past its timeout a leaving worker goes iff no planned update fails, the removal stops at nobody listed before it, and its own deletion is accepted. |
| LeaveRuns.TimeoutBoundsLeave | internal/controller/cachegroup_worker_lifecycle.go:181-187 | Over runs: a redundant worker that entered the leave goes in a reconcile past its timeout iff that same condition on the calls holds, so only those failures let it outlive the timeout. |
| LeaveRuns.NobodyExpectedLetsGo | internal/controller/cachegroup_controller.go:365-373 | In a group that expects nobody each worker that has not entered the leave goes at once, however many are ready and whatever cache it holds, iff the reconcile gets to it and its deletion is accepted. |
| LeaveRuns.CacheDroppedAtZero | internal/controller/cachegroup_controller.go:365-373 | An instance: three ready workers holding cache, nobody expected, and one reconcile drops them all without a leave. |
| LeaveRuns.LeaveCalledOff | internal/controller/cachegroup_worker_lifecycle.go:54-83 | A v2 worker that left and is expected again loses its leave mark in one reconcile iff the decision asks for a restart, the budget reaches it and its calls succeed; it then has exactly the expected juicefs.io annotations and its own foreign ones. |
| LeaveRuns.LeaveTimeFixed | internal/controller/cachegroup_worker_lifecycle.go:207-230 | As long as a worker stays redundant its leave time never changes, over whole runs. |
| LeaveRuns.EnteredOnce | internal/controller/cachegroup_worker_lifecycle.go:207-230 | A redundant worker that leaves entered the leave in one reconcile of the run. |
| LeaveRuns.LeaveSafety | internal/controller/cachegroup_worker_lifecycle.go:133-230 | Over every run of a group, a redundant worker that is let go by a reconcile which expects somebody, lists at least two ready pods and finds it holding cache had entered the leave earlier, kept that leave time, and goes past the timeout or on an idle sample of its own process taken after the leave began. |
| LeaveRuns.EnteringLosesExactly | internal/controller/cachegroup_worker_lifecycle.go:207-230 | Entering the leave loses the worker iff it is recreated (no smooth restart) and stays deleting or is not created again. |
| JoinRuns.JoinTimeNeverRefreshed | pkg/builder/cache_group_pod.go:675-678 | While the template is fixed and the worker survives, its join time stays or goes for good. |
| JoinRuns.JoinEndsForAReason | pkg/utils/worker.go:50-109 | A join that ended in a run ended in a reconcile at which the backup duration was over or its own late enough sample showed it idle. |
| JoinRuns.EndDecided | internal/controller/cachegroup_worker_lifecycle.go:287-325 | For a built, live, joining worker whose join option is not wanted any more: smooth restart if it is v2, else nothing under OnDelete, else recreation. |
| JoinRuns.JoinEndsAtBackup | internal/controller/cachegroup_worker_lifecycle.go:54-83 | A reconcile that finds the backup duration over takes the join mark away iff the budget reaches the worker and its calls succeed, a restart for v2 or, unless the strategy is OnDelete, a recreation; a worker the budget does not reach is left alone. |
| Rollout.BudgetForAll | internal/controller/cachegroup_worker_lifecycle.go:44-83 | The budget reaches the worker in every iteration order when there are no more candidates than it allows. |
| Rollout.ChosenExactly | internal/controller/cachegroup_worker_lifecycle.go:73-81 | A ready worker is updated in one sync iff it needs an update and fewer workers that do come before it in the iteration than the budget allows. |
| Rollout.NobodyChosen | internal/controller/cachegroup_worker_lifecycle.go:73-81 | No ready worker is updated iff there is no budget or none needs it. |
| JoinRuns.JoinEndsInRun | internal/controller/cachegroup_worker_lifecycle.go:54-83 | The same equivalence over whole runs, whatever pods do while the workers are handled. |
| JoinRuns.JoinsWhilePassedOver | internal/controller/cachegroup_worker_lifecycle.go:73-81 | A ready worker that no reconcile of a run has budget for keeps its join time, whatever its backup duration. |
| JoinRuns.JoinsForeverAtZero | pkg/utils/pod.go:148-169 | With maxUnavailable 0 or below, as a percentage of less than one worker gives, a worker that is ready at every reconcile keeps its join time over the whole run. |
| JoinRuns.V1JoinsForever | internal/controller/cachegroup_worker_lifecycle.go:295-303 | Under OnDelete a v1 worker keeps its join time for as long as it lives and is wanted, whatever its backup duration. |
| Rollout.RoundShrinks | internal/controller/cachegroup_worker_lifecycle.go:42-84 | One round of rolling updates makes min(outdated, max(0, maxUnavailable)) workers up to date and no worker outdated. |
| Rollout.RolloutConverges | pkg/utils/pod.go:148-169 | After k rounds max(0, n - k * maxUnavailable) workers are outdated; with maxUnavailable 0 or below, as a percentage may round to, the same workers stay outdated forever. |
| Rollout.ReconcileIsRound | internal/controller/cachegroup_controller.go:130-170 | A whole reconcile of a steady group, removal of redundant workers included, is such a round. |
| Rollout.RolloutInRun | internal/controller/cachegroup_controller.go:130-170 | The same count over runs of the operator: whenever the group is steady again, each reconcile so far has brought maxUnavailable workers to date, whatever pods, stats and foreign annotations did in between. |
| Update.PercentRoundsDown | pkg/utils/pod.go:157-163 | A percentage is rounded down, so it allows at least one worker iff it makes up a whole one. |
| Update.StrategyAllows | pkg/utils/pod.go:148-169 | Only OnDelete waits for deletions; rolling updates allow the given number or the floor of the percentage, everything else allows one worker. |
| StatsRounds.SampleWorkers | internal/controller/cachegroup_stats_controller.go:67-90 | The sampling loop leaves one record for each listed worker that has one, sorted by name: kept while recent, resampled when ready and readable, dropped while deleting. |
| StatsRounds.RoundIgnoresOrder | internal/controller/cachegroup_stats_controller.go:67-90 | The records are the same in whatever order the workers are listed and answer. |
| StatsRounds.ReadExactly | internal/controller/cachegroup_stats_controller.go:67-90 | A worker is read iff it lives, is ready, answers, and its record is missing or at least 30 s old; the record is then what it reports with its process start, is dropped while the worker is being deleted, and else stays. |
| StatsRounds.RatedExactly | internal/controller/cachegroup_stats_controller.go:106-126 | A sample has a rate iff there is a previous sample of the same process (starts within 5 s), 0 < interval <= 2 min, both report the counter and it did not go back; the rate is the floor of the bytes moved per second. |
| StatsRounds.LastTwoAreRated | internal/controller/cachegroup_stats_controller.go:106-126 | Over every run: a worker read twice in a row, and passed by since, has a record of the second reading, with each rate iff the two readings meet that condition. |
| StatsRounds.IdleIsSampled | internal/controller/cachegroup_stats_controller.go:106-126 | Over every run: if the two readings are of the present process, the second fresh and after the leave began, and less than the idle rate was moved between them, the worker has an idle sample. |
| StatsRounds.MeasuredLeaverGoes | internal/controller/cachegroup_worker_lifecycle.go:176-206 | A leaving worker measured so goes in the next reconcile that gets to it, without waiting for its timeout, iff its deletion is accepted. |
| StatsRounds.JoinIsSampled | pkg/utils/worker.go:63-109 | A joining worker that received less than the idle rate between two such readings, late enough after its join and every reported start, has the sample that ends its join. |
| StatsRounds.RecordWasRead | internal/controller/cachegroup_stats_controller.go:107-126 | Over every run, each stored record holds a reading of its worker taken in a stats round, and its rates were measured since an earlier reading of the run: same process, at most 2 min apart, counter not gone back. |
| StatsRounds.IdleWasMeasured | internal/controller/cachegroup_stats_controller.go:107-150 | The transfer rate that lets a leaving worker go was measured between the readings of two stats rounds at most 2 min apart, the first no earlier than 10 s before the current process start, and the bytes moved are strictly below the idle rate times the time between. |
| StatsRounds.LeaveIsMeasured | internal/controller/cachegroup_worker_lifecycle.go:202-205 | Leave safety in terms of readings, under the same conditions: the worker goes past the timeout or after two such readings. |
| StatsRounds.SumBytes | internal/controller/cachegroup_stats_controller.go:129-142 | Prints the 64-bit sum of the reported counters, nothing when none reports. |
| StatsRounds.TotalSaysEmptyExactly | internal/controller/cachegroup_stats_controller.go:129-142 | The text is 0B iff somebody reports and the sum is a multiple of 2^64, and empty iff nobody reports. |
| StatsRounds.EmptyCacheExactly | pkg/utils/worker.go:41-41 | For sizes whose sum fits 64 bits the text is 0B iff somebody reports and all reports are zero. |
| StatsRounds.OutsiderMeansEmpty | internal/controller/cachegroup_worker_lifecycle.go:65-74 | In a run sampled by rounds, a worker outside the batch that appears in a closed window carries no join mark, and the last round had a report and a sum of 0 modulo 2^64; for sizes whose sum fits, all reports were zero. |
| Bytes.FormatBytes | pkg/utils/utils.go:184-195 | The loop finds the unit with div <= b < 1024 * div, its index in range, and prints b with one decimal; below 1 KiB b itself. |
| Bytes.UnitUnique | pkg/utils/utils.go:184-195 | No count fits two units. |
| Bytes.FormatRoundTrip | pkg/utils/sync.go:350-381 | Reading a printed count gives it back below 1 KiB, and else differs by at most div/20 + 1. |
| Bytes.ReadsBackInRange | pkg/utils/sync.go:350-381 | The number read back fits 64 bits iff the count is below 7.95 EiB; above, the text is 8.0EiB. |
| Bytes.ZeroText | pkg/utils/utils.go:184-195 | A non-negative count prints as 0B iff it is zero. |
| Bytes.RoundsHalfEven | pkg/utils/utils.go:194 | The decimal printed is the nearest one, and the even one of two that are equally near. |
| Bytes.ReadsQuantity | pkg/utils/sync.go:350-381 | Digits with or without a fraction, any blanks, and a binary unit in any letter case are read as their product, cut to an integer. |
| Bytes.UnitFactorExactly | pkg/utils/sync.go:361-378 | Exactly B, nothing and the six binary units have a factor, the power of 1024 they stand for. |
| Bytes.RefusesOthers | pkg/utils/sync.go:350-378 | Text that does not begin with a digit, or has any other unit, is refused. |
| Scheduler.SchedulerSimulator.ListPodAffinityTermPods | pkg/scheduler/scheduler_simulator.go:156-206 | Returns exactly the existing pods in scope that are not to be deleted and the pending ones, selected and in the domain, without the current pod; fails iff the selector or a listing does. |
| Scheduler.SchedulerSimulator.CheckPodAffinity | pkg/scheduler/scheduler_simulator.go:106-128 | The loop decides by the first term that decides: missing key, failed listing, or empty domain. |
| Scheduler.SchedulerSimulator.CheckPodAntiAffinity | pkg/scheduler/scheduler_simulator.go:130-153 | The loop skips missing keys and decides by the first failed listing or occupied domain. |
| Scheduler.SchedulerSimulator.CanSchedulePodOnNode | pkg/scheduler/scheduler_simulator.go:53-81 | Node affinity and taints, then pod affinity, then anti-affinity: the first that does not pass is the answer, a failed listing an error. |
| Scheduler.SchedulerSimulator.AppendPendingPod | pkg/scheduler/scheduler_simulator.go:83-85 | Appends to the pending pods and changes nothing else. |
| Scheduler.SchedulerSimulator.AppendToBeDeletedPod | pkg/scheduler/scheduler_simulator.go:87-89 | Adds a name to be deleted and changes nothing else. |
| Scheduler.ParseExpectStateByScheduler | internal/controller/cachegroup_controller.go:217-254 | The pass that drops rejected nodes while it goes over the nodes by name keeps exactly the states of the nodes the simulation accepts, and fails iff a check fails. |
| Scheduler.AffinityExactly | pkg/scheduler/scheduler_simulator.go:106-128 | Affinity passes iff for every term the node carries the key, its listings succeed, and another pod that the term selects is in the domain, pending or existing, in scope and staying; it fails iff the first term not met has the key but no answer. |
| Scheduler.AntiAffinityDecides | pkg/scheduler/scheduler_simulator.go:130-153 | Anti-affinity passes iff for every term the node lacks the key, or its listings succeed and no such pod is in the domain; it fails iff the first term not met has no answer. |
| Scheduler.AcceptedExactly | pkg/scheduler/scheduler_simulator.go:53-81 | A node is accepted iff it fits and meets all affinity and anti-affinity terms; the check fails iff the node fits and an unanswered listing comes before any term that is not met, affinity first. |
| Placement.AntiAffinityExactly | pkg/scheduler/scheduler_simulator.go:130-153 | With every listing answered, a pod is kept off a node iff the domain of some term is occupied. |
| Placement.OccupiedExactly | pkg/scheduler/scheduler_simulator.go:156-206 | A domain is occupied iff a foreign pod is there, or an existing worker not rejected so far, or a worker accepted so far, other than the node's own. |
| Placement.PassIsPlacement | internal/controller/cachegroup_controller.go:238-252 | For workers sharing their anti-affinity terms the simulation is the greedy placement by conflicts between nodes. |
| Placement.StaysExactly | internal/controller/cachegroup_controller.go:238-252 | A placement is returned unchanged iff its nodes fit, are pairwise free of conflict, and conflict with every other fitting node. |
| Placement.NoFlapping | internal/controller/cachegroup_controller.go:230-253 | The simulator returns exactly the nodes of the existing workers iff they are such a placement. |
| Placement.PlacedApart | internal/controller/cachegroup_controller.go:230-253 | Where nodes carry the keys, accepted nodes fit and are pairwise free of conflict, whatever workers there were. |
| Placement.FirstPlacementStays | internal/controller/cachegroup_controller.go:230-253 | From an empty cluster the accepted nodes are a maximal set without conflict. |
| Placement.SettlesInTwo | internal/controller/cachegroup_controller.go:230-253 | From any workers, the second placement keeps all nodes of the first and every later one equals it. |
| Placement.SimulatorSettles | internal/controller/cachegroup_controller.go:230-253 | The same for the simulator: once the workers are where a second pass put them, a third returns these nodes. |
| SyncPhase.SyncReconciler.Reconcile | internal/controller/sync_controller.go:66-250 | The status stored by one reconcile, which may pass several phases and stops at the first write that fails, and whether it deletes the job: a completed one whose time to live is over. |
| SyncPhase.SyncReconciler.CalculateSyncStats | internal/controller/sync_controller.go:252-298 | An ended manager sets Completed or Failed and the time; counted lost or failed files make it Failed; an unreadable log does not. |
| SyncPhase.SyncReconciler.UpdateStatus | internal/controller/sync_controller.go:492-501 | Stores the status in whole seconds or nothing. |
| SyncPhase.CompletesExactly | internal/controller/sync_controller.go:66-250 | A job that has not ended completes in a reconcile iff that reaches a succeeded manager pod, no counted file is lost or failed, and the calls and the write succeed. |
| SyncPhase.FailsExactly | internal/controller/sync_controller.go:66-250 | A job that has not ended fails iff its spec is refused, its preparation times out, or the reconcile finds no manager pod, a failed one, or a succeeded one that counted lost or failed files, and the write succeeds. |
| SyncPhase.EndedStays | internal/controller/sync_controller.go:66-250 | An ended job never runs again and keeps its end time; only a refused spec turns success into failure. |
| SyncPhase.CompletedIsDated | internal/controller/sync_controller.go:252-261 | Over every run: Completed has its end time, Progressing its start, Preparing its preparation time. |
| SyncPhase.EndedForever | internal/controller/sync_controller.go:66-250 | Over every run an ended job stays ended with the same end time. |
| SyncPhase.PreparingKept | internal/controller/sync_controller.go:139-156 | The preparation time is set once, so the timeout counts from the first reconcile. |
| SyncPhase.PhaseTimes | internal/controller/sync_controller.go:139-183 | The preparation time of a job is that of the reconcile that begins it, its start that of the reconcile that starts it, both in whole seconds. |
| SyncPhase.DeletedAfterTtl | internal/controller/sync_controller.go:186-207 | Over every run: a job that completed in a reconcile is deleted by a later one iff that comes at least its time to live after the completion, accepts its spec, could delete its worker pods, and the deletion succeeds; its status is untouched. |
| SyncPhase.OnlyCompletedExpire | internal/controller/sync_controller.go:186-207 | No job that is not completed is deleted by its own reconcile. |
| SyncPhase.FailureReason | internal/controller/sync_controller.go:66-261 | The reason a failing job gives: the refusal, the timeout of the preparation, the missing manager, or its unreadable or unparsable log. |
| CronSync.CronSyncReconciler.Reconcile | internal/controller/cronsync_controller.go:61-157 | The stored status and the jobs after one reconcile under every outcome of its calls, and whether a job was created: a failed call before the creation leaves the schedule times alone. |
| CronSync.CronSyncReconciler.Trigger | internal/controller/cronsync_controller.go:104-155 | Nothing is created before the tick after LastScheduleTime; Forbid then waits while a job runs, Replace first deletes the running ones; the tick is taken only with the job created. |
| CronSync.CronSyncReconciler.SyncHistory | internal/controller/cronsync_controller.go:198-238 | The latest success is the latest completion listed; then the oldest completed and failed jobs above the limits go, up to the first failed deletion. |
| CronSync.CronSyncReconciler.CheckAndDelete | internal/controller/cronsync_controller.go:214-230 | Removes only jobs of the phase, none younger than one kept, at most and if nothing fails exactly those above the limit. |
| CronSync.CronSyncReconciler.DeleteRunning | internal/controller/cronsync_controller.go:127-135 | Removes running jobs, all of them iff it does not fail. |
| CronRuns.HistoryLimits | internal/controller/cronsync_controller.go:198-238 | A pruning without errors leaves min(count, limit) completed and failed jobs and every running job. |
| CronRuns.PruningKeepsEnough | internal/controller/cronsync_controller.go:214-236 | Whatever deletion fails, at least min(count, limit) completed and failed jobs stay. |
| CronRuns.FailedCallsStop | internal/controller/cronsync_controller.go:75-155 | Without a valid schedule or when the first status write fails nothing happens; when listing fails only the first schedule times are written; when the last write fails no other status change is. |
| CronRuns.RunningKept | internal/controller/cronsync_controller.go:118-135 | A running job stays untouched unless the policy is Replace and a tick is due. |
| CronRuns.CompletionsAreDated | internal/controller/cronsync_controller.go:205-211 | No reconcile of any run meets a completed job without its completion time, so the unguarded reads are safe. |
| CronRuns.TickInTime | internal/controller/cronsync_controller.go:81-111 | Every created job answers a tick after the first reconcile and not after its creation. |
| CronRuns.LaterTick | internal/controller/cronsync_controller.go:139-155 | Once a creation is stored, every later job answers a later tick. |
| CronRuns.SameTickExactly | internal/controller/cronsync_controller.go:139-155 | Two consecutive jobs answer the same tick iff the status write between them was lost. |
| CronRuns.CreationsCounted | internal/controller/cronsync_controller.go:81-155 | Jobs created up to a time never outnumber the ticks after the first reconcile up to then. |
| CronRuns.NextFollowsLast | internal/controller/cronsync_controller.go:85-96 | NextScheduleTime is always the tick after LastScheduleTime. |
| CronRuns.ForbidKeepsOne | internal/controller/cronsync_controller.go:122-126 | Under Forbid no world of any run has two running jobs. |
| CronRuns.ReplaceLeavesNew | internal/controller/cronsync_controller.go:127-135 | Under Replace a trigger leaves exactly the new job running. |
| CronPruning.CreatesExactly | internal/controller/cronsync_controller.go:104-155 | A reconcile whose calls succeed creates a job iff the tick after the last schedule time has come and, under Forbid, none runs. |
| CronRuns.SuccessNeverGoesBack | internal/controller/cronsync_controller.go:204-211 | Under Forbid and Replace LastSuccessfulTime never goes back over any run, even when status writes are lost, as long as no step takes the latest completed job away while older completed ones stay: no removal by others, no expired job deleted by its own reconcile, no spec refused after completion. |
| CronPruning.PrunedExactly | internal/controller/cronsync_controller.go:214-236 | For distinct creation times a pruning without errors removes a completed job iff at least as many completed jobs as the limit were created after it. |
| CronPruning.PruningForgetsExactly | internal/controller/cronsync_controller.go:204-236 | After such a pruning the latest completion is earlier than before iff the limit is at least one and every job that completed last has at least that many completed jobs created after it. |
| CronPruning.PruningGoesBackExactly | internal/controller/cronsync_controller.go:204-236 | Of two reconciles in a row whose calls succeed and which Forbid does not make wait, the second stores an earlier LastSuccessfulTime than the first iff that condition holds of the jobs before them. |
| CronPruning.PruningGoesBackInRun | internal/controller/cronsync_controller.go:204-236 | The same for two such reconciles in a row of any run, where names by the second make creation times distinct. |
| CronPruning.GoesBackExactly | internal/controller/cronsync_controller.go:198-238 | Under every policy a reconcile that stores an earlier LastSuccessfulTime found completed jobs, all completed before the stored time; one whose calls succeed stores an earlier time iff it finds that and Forbid does not make it wait for a running job. |
| CronPruning.GoesBackInRun | internal/controller/cronsync_controller.go:198-238 | The same for every step of every run. |
| CronPruning.GoesBackAfterLoss | internal/controller/cronsync_controller.go:204-211 | Under Forbid and Replace the time goes back only after a step that took the latest completed job away and left older ones. |
| CronInstances.ForbidCanGoBack | internal/controller/sync_controller.go:194-206 | For every schedule with room for it, a reachable instance under Forbid in which only the operator acts and every call succeeds: the later of two completed jobs expires first, and the next reconcile stores the earlier time. |
| CronInstances.HourlyGoesBack | internal/controller/cronsync_controller.go:81-96 | Both happen to an hourly schedule, which gives the least tick after every time. |
| CronInstances.PruningCanForget | internal/controller/cronsync_controller.go:204-236 | For every schedule with room for it, a reachable instance under Allow with limit one: the older job completes last and is pruned, and the next reconcile stores the earlier time. |
| Warmup.GetWarmUpMountInfo | pkg/builder/job.go:309-341 | Fixed options, then the worker's options outside the ignored keys, then added user options; None where the source panics on the worker's command. |
| Warmup.AppendWarmupMountOpts | pkg/builder/job.go:426-452 | The base unchanged, then the user options whose key is neither ignored nor there yet, the first of a key winning. |
| Warmup.JobOfBuiltWorker | pkg/builder/job.go:309-341 | The job of a built worker mounts its volume with its credentials and inherits its template's options outside the ignored keys, in order, whether the worker is v1 or v2, joining or not. |
| Warmup.FixedOnce | pkg/builder/job.go:310-318 | Each fixed key occurs exactly once, first, with its fixed value: neither worker nor user overrides it. |
| Warmup.BaseOptsAre | pkg/builder/job.go:310-318 | The fixed options are the cache group, no-sharing, cache-size=0, log=/dev/stdout and no-syslog, in this order. |
| Warmup.JobWithoutWorker | pkg/builder/job.go:337-340 | Without a worker the job has the secret's command and volume, the fixed options, and the user's. |
| Warmup.PrintedPair | pkg/builder/job.go:443-447 | An added option is its key, with = and its value when it has one. |
| Warmup.AddedExactly | pkg/builder/job.go:426-452 | A user option is added iff its key is neither ignored nor taken and it is the first with the key. |
| ConfigVolumes.GenEnvs | pkg/builder/cache_group_pod.go:195-231 | The loop over the secret's variables, the stripped keys and the template's own, sorted stably. |
| ConfigVolumes.StableSortIs | pkg/builder/cache_group_pod.go:227-230 | Sorting keeps the entries of each name in their order. |
| ConfigVolumes.EnvsIgnoreOrder | pkg/builder/cache_group_pod.go:195-231 | The environment is the same for every iteration order of the secret's map. |
| ConfigVolumes.EnvOfName | pkg/builder/cache_group_pod.go:195-231 | The entries of a variable are, in order, the secret's value, the placeholder of a stripped key, and the template's own. |
| ConfigVolumes.ParseSecretConfigs | pkg/builder/cache_group_pod.go:361-385 | The loop keeps the usable entries under their trimmed names, the last visited winning. |
| ConfigVolumes.UsableExactly | pkg/builder/cache_group_pod.go:372-382 | An entry is used iff it is text whose first character other than space is a slash, under a name that is not blank. |
| ConfigVolumes.ConfigsIgnoreOrderExactly | pkg/builder/cache_group_pod.go:361-385 | The configs are the same for every iteration order iff keys that are equal once trimmed ask for equal paths. |
| ConfigVolumes.NextConfigVolumeName | pkg/builder/cache_group_pod.go:436-444 | The search ends, with the least unused number from next on. |
| ConfigVolumes.FreshNumber | pkg/builder/cache_group_pod.go:436-444 | The number found is at or above next, unused, and all between are used. |
| ConfigVolumes.AppendSecretConfigVolumes | pkg/builder/cache_group_pod.go:387-434 | The loop adds a fresh volume and mount for each secret, by name, whose path is free. |
| ConfigVolumes.VolumesIgnoreOrder | pkg/builder/cache_group_pod.go:403-407 | The secrets are visited in the same order for every iteration order of the map. |
| ConfigVolumes.AddConfigsWell | pkg/builder/cache_group_pod.go:409-433 | Old volumes and mounts stay first; each new mount names its own new volume of the secret that asks for its path; names and paths stay unique; in the end all asked paths are mounted and no others are added. |
| ConfigVolumes.NoGaps | pkg/builder/cache_group_pod.go:403-443 | No number is passed over: every one up to the last taken names a volume in the end. |

## Left out

- Kubernetes client calls, events, logs, metrics, watches, finalizers, owner references and manager setup are not modelled beyond the outcomes above.
- Workers are synced and sampled one after the other; the source does so in parallel on distinct names, with the results collected before they are used.
- An object read by the reconciler may be stale in the cluster; the runs here have fresh listings and, for cache groups, stored final statuses.
- Rates, sizes and progress are exact quotients; the rounding of floating-point numbers is not modelled.
- A malformed timestamp in an annotation makes the source panic; such annotations are not modelled.
- Pod fields that are passed through (probes, resources, volumes of the cache directories, affinity, DNS, service account) are one opaque field of the rendering; merging overwrites into templates is not modelled.
- Volume claims, cleaning a deleted worker's cache, and deleting a cache group are reduced to whether the calls succeed.
- Pod readiness is one boolean, and the delay set in a worker's environment is an optional parsed duration.
- Parsing a worker's stats file and a sync manager's log is reduced to what was read.
- MountOptions.LeavingV1MatchesV2: for volume names without comma and options that do not begin with a commission, as every built command has them.
- CronRuns.SuccessNeverGoesBack: not under Allow, where pruning by creation can drop the latest completion (`CronPruning.PruningGoesBackExactly` says when), and not when the latest completed job is taken away while older ones stay, by others or by the operator itself when that job expires first; `CronPruning.GoesBackExactly` has the condition for every policy and `CronInstances.ForbidCanGoBack` the run.
- JoinRuns.JoinEndsForAReason: says why a join ended; exactly when it ends past the backup duration is `JoinEndsAtBackup` and `JoinEndsInRun`.
- SyncTheorems.RemovedAt: is about any name, listed or not, and so allows a worker to be left alone; `RemovedExactly` says for a listed redundant worker when it is.
- LeaveRuns.LeaveSafety: not for a reconcile that expects nobody or lists one ready pod, where workers go without leaving; `StayingReleasedExactly` and `NobodyExpectedLetsGo` say when.
- Kube.CompareImageVersion: compares the parts of an image that is classified already; the regular expression that reads tags is not part of this model.
- Lifecycle.CacheGroupController.SmoothRestartWorker: a process that restarted before the wait or the patch failed is not told apart from one that did not restart, because the pods do not show it.
- Lifecycle.CacheGroupController.Sync: a reconcile that cannot read the secret or list the pods changes nothing and is not a step of its own; a status write that fails is excluded by assumption.
- SyncPhase.SyncReconciler.Reconcile: the worker pods of a job and the objects it prepares appear only as whether those calls succeed.
- SyncPhase.SyncReconciler.CalculateSyncStats: the counters, the progress and the log text copied into the status are not modelled, because no phase or time depends on them later.
- SyncPhase.SyncReconciler.UpdateStatus: reading again and retrying on a conflict is one flag, whether the write succeeded in the end.
- Update.RecreatedExactly: for v1 workers it covers options and a volume name of one line; with line breaks in them two different templates can print the same command.
- Update.LeavesByWeightSet: for a command in which nothing but one option looks like a weight; every such text is replaced, as `MountOptions.ReplaceWeightFirst` says.
- Placement.SimulatorSettles: covers shared required anti-affinity only; with pod affinity a pod counted early may be marked for deletion later, and the code makes no promise.
- Bytes.ReadsQuantity: letter case is that of ASCII; the source's folding also takes the Kelvin sign for a K.
- The shape of sync pods, sinks, SSH keys, secrets, the legacy secret key names and the commands of warm-up jobs after the mount line are string plumbing and not part of this model.
- The events recorded when a worker joins or becomes ready.
