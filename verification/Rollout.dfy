/** Rolling updates: how fast the outdated workers of a steady group go away, and when they never do. */
module Rollout {
  import opened Wrappers
  import opened Kube
  import Sequences
  import opened Worker
  import opened Names
  import opened Rebalance
  import opened Builder
  import opened Update
  import opened Lifecycle
  import opened SyncTheorems
  import opened Runs

  /** All expected workers exist, every pod of the group is ready and alive, and nobody joins. */
  predicate Steady(pods: Pods, g: Group, expected: map<string, Template>) {
    && WellNamed(pods)
    && (forall node :: node in expected ==> PodName(g, node) in pods)
    && forall name :: name in pods ==> pods[name].ready && Alive(pods[name]) && !Joining(pods[name])
  }

  /** Whether the worker of a node has to be updated; the time of asking does not matter. */
  predicate IsOutdated(pods: Pods, g: Group, expected: map<string, Template>, node: string)
    requires node in expected
  {
    Decide(false, g, expected[node], node, false, At(pods, PodName(g, node)), ZERO_TIME) != UpToDate
  }

  function Outdated(pods: Pods, g: Group, expected: map<string, Template>): set<string> {
    set node | node in expected && IsOutdated(pods, g, expected, node)
  }

  ghost predicate Succeeds(api: Api) {
    forall name :: api(name).pvcsOk && api(name).smoothOk && api(name).recreation == Recreated
  }

  /** The calls succeed that bring a worker to date: the smooth restart of a v2 worker, or a recreation. */
  predicate UpdateSucceeds(onDelete: bool, v2: bool, r: Response) {
    r.pvcsOk && ((v2 && r.smoothOk) || (!onDelete && r.recreation == Recreated))
  }

  // ---------- which workers a plan updates ----------

  /** The candidates that still fit the budget when their turn comes. */
  function Chosen(i: Input, order: seq<string>): set<string>
    requires forall node :: node in order ==> node in i.expected
  {
    if order == [] then {}
    else
      var init, node := order[..|order| - 1], order[|order| - 1];
      Chosen(i, init) + if Candidate(i, node) && Plan(i, init).1 < StrategyOf(i).1 then {node} else {}
  }

  lemma {:induction false} ChosenCount(i: Input, order: seq<string>)
    requires Distinct(order) && forall node :: node in order ==> node in i.expected
    ensures |Chosen(i, order)| == ReadyUpdates(Plan(i, order).0)
    ensures forall node :: node in Chosen(i, order) ==> node in order && Candidate(i, node)
  {
    if order != [] {
      var init, node := order[..|order| - 1], order[|order| - 1];
      assert order == init + [node];
      ChosenCount(i, init);
      OneMore(i, init, node);
      assert node !in Chosen(i, init);
      hide Candidate, ReadyUpdates, StrategyOf, Plan;
    }
  }

  /** The task of a node in a plan, with what the budget made of it. */
  ghost predicate ActsOn(i: Input, tasks: seq<Task>, node: string, chosen: bool)
    requires node in i.expected
  {
    exists t :: t in tasks && IsTaskOf(i, node, t)
      && t.action == if Candidate(i, node) && !chosen then UpToDate else Needed(i, node)
  }

  lemma {:induction false} PlanActs(i: Input, order: seq<string>, node: string)
    requires Distinct(order) && forall n :: n in order ==> n in i.expected
    requires node in order && !MustWait(i, node)
    ensures ActsOn(i, Plan(i, order).0, node, node in Chosen(i, order))
  {
    hide ActsOn, IsTaskOf, MustWait, Candidate, PlanOne;
    var init, last := order[..|order| - 1], order[|order| - 1];
    assert order == init + [last];
    var one := PlanOne(i, last, Plan(i, init).1).0;
    assert Plan(i, order).0 == Plan(i, init).0 + one;
    ChosenCount(i, init);
    if node == last {
      PlanOneActs(i, node, Plan(i, init).1);
      ActsOnOne(i, Plan(i, init).0, one, node, node in Chosen(i, order));
    } else {
      PlanActs(i, init, node);
      ActsOnMore(i, Plan(i, init).0, one, node, node in Chosen(i, init));
    }
  }

  lemma ActsOnMore(i: Input, tasks: seq<Task>, more: seq<Task>, node: string, chosen: bool)
    requires node in i.expected && ActsOn(i, tasks, node, chosen)
    ensures ActsOn(i, tasks + more, node, chosen)
  {
    hide Candidate, IsTaskOf, Needed;
    var t :| t in tasks && IsTaskOf(i, node, t)
      && t.action == if Candidate(i, node) && !chosen then UpToDate else Needed(i, node);
    assert t in tasks + more;
  }

  lemma ActsOnOne(i: Input, tasks: seq<Task>, one: seq<Task>, node: string, chosen: bool)
    requires node in i.expected && |one| == 1 && IsTaskOf(i, node, one[0])
    requires one[0].action == if Candidate(i, node) && !chosen then UpToDate else Needed(i, node)
    ensures ActsOn(i, tasks + one, node, chosen)
  {
    hide Candidate, IsTaskOf, Needed;
    assert one[0] in tasks + one;
  }

  lemma PlanOneActs(i: Input, node: string, n: int)
    requires node in i.expected && !MustWait(i, node)
    ensures var one := PlanOne(i, node, n).0;
      && |one| == 1 && IsTaskOf(i, node, one[0])
      && one[0].action == if Candidate(i, node) && !(n < StrategyOf(i).1) then UpToDate else Needed(i, node)
  {
  }

  // ---------- one round ----------

  /** One sync of a steady group with every call succeeding. */
  ghost predicate SteadySync(i: Input, order: seq<string>, api: Api, pods: Pods) {
    && !StrategyOf(i).0
    && IsOrder(order, i.expected) && IsListing(i.listing, pods)
    && Steady(pods, i.g, i.expected) && Succeeds(api)
  }

  lemma SteadyNeeds(i: Input, order: seq<string>, api: Api, pods: Pods, node: string)
    requires SteadySync(i, order, api, pods) && node in i.expected
    ensures var name := PodName(i.g, node);
      && Find(i.listing, name) == Some(pods[name])
      && !MustWait(i, node) && !JoinFlag(i, node)
      && (Needed(i, node) != UpToDate <==> IsOutdated(pods, i.g, i.expected, node))
      && (Candidate(i, node) <==> IsOutdated(pods, i.g, i.expected, node))
  {
    ListingFinds(i.listing, pods, PodName(i.g, node));
    hide MayJoin, Render, MountOpts, WithJoinOption, Command, CanAddWorker;
  }

  lemma {:induction false} NobodyUnavailable(listing: seq<Pod>)
    requires forall p :: p in listing ==> p.ready && !p.deleting
    ensures Unavailable(listing) == 0
  {
    if listing != [] {
      assert listing[|listing| - 1] in listing;
      NobodyUnavailable(listing[..|listing| - 1]);
    }
  }

  /** Updating an outdated worker makes it up to date, whichever way it is updated. */
  lemma UpdatedIsUpToDate(i: Input, node: string, t: Task, p: Pod, r: Response)
    requires node in i.expected && IsTaskOf(i, node, t) && t.actual == Some(p) && Alive(p)
    requires !StrategyOf(i).0 && !JoinFlag(i, node) && t.action == Needed(i, node) && t.action != UpToDate
    requires r.pvcsOk && r.smoothOk && r.recreation == Recreated
    ensures var after := TaskResult(Some(p), false, t, r);
      && after.Some? && after.value.name == t.name && Alive(after.value) && !Joining(after.value)
      && Decide(false, i.g, i.expected[node], node, false, after, ZERO_TIME) == UpToDate
  {
    var g, tpl := i.g, i.expected[node];
    hide Render, MountOpts, WithJoinOption, Command, MayJoin, WorkerCounterIdle, MustWait, Candidate;
    if t.action == SmoothRestart {
      RestartedIsUpToDate(false, V1WorkerHash(g, tpl, node, false), t.want, p);
    }
  }

  /** The task of an expected worker that need not wait, and that it decides what becomes of the worker. */
  lemma PlannedTask(i: Input, order: seq<string>, onDelete: bool, api: Api, pods: Pods, node: string) returns (t: Task)
    requires IsOrder(order, i.expected) && IsListing(i.listing, pods) && node in i.expected && !MustWait(i, node)
    ensures IsTaskOf(i, node, t)
    ensures t.action == if Candidate(i, node) && node !in Chosen(i, order) then UpToDate else Needed(i, node)
    ensures var name := PodName(i.g, node);
      At(RunTasks(pods, onDelete, Plan(i, order).0, api).0, name) == TaskResult(At(pods, name), onDelete, t, api(name))
  {
    var tasks := Plan(i, order).0;
    PlanTasks(i, order);
    forall t | t in tasks ensures GoodTask(t) {
      var m :| m in order && IsTaskOf(i, m, t);
      TaskIsGood(i, m, t);
    }
    RunTasksAt(pods, onDelete, tasks, api, PodName(i.g, node));
    PlanActs(i, order, node);
    var chosen := node in Chosen(i, order);
    hide RunTasks, Plan, Chosen, Needed, MustWait, Candidate, TaskResult;
    t :| t in tasks && IsTaskOf(i, node, t)
      && t.action == if Candidate(i, node) && !chosen then UpToDate else Needed(i, node);
  }

  lemma TaskActual(i: Input, node: string, task: Task)
    requires node in i.expected && IsTaskOf(i, node, task)
    ensures task.actual == Find(i.listing, PodName(i.g, node))
  {
    hide Needed, Candidate, MustWait, Wanted;
  }

  lemma NotMissing(i: Input, node: string)
    requires Find(i.listing, PodName(i.g, node)).Some?
    ensures !MustWait(i, node)
  {
  }

  /** While the candidates fit the budget, all of them are updated. */
  lemma AllChosen(i: Input, order: seq<string>, node: string)
    requires IsOrder(order, i.expected) && |Candidates(i, order)| <= Budget(i)
    requires node in i.expected && Candidate(i, node)
    ensures node in Chosen(i, order)
  {
    ChosenCount(i, order);
    BudgetIsExact(i, order);
    hide Chosen, Candidate, Plan, ReadyUpdates, Budget;
    Sequences.SubsetSize(Chosen(i, order), Candidates(i, order));
  }

  /** The budget reaches the worker: it takes none, or some is left when its turn comes. */
  ghost predicate HasBudget(e: Event, w: World, node: string)
    requires IsOrder(e.order, e.expected) && node in e.expected
  {
    var i := InputOf(e, w.status);
    Candidate(i, node) ==> node in Chosen(i, e.order)
  }

  /** The budget reaches every candidate when there are no more of them than it allows. */
  lemma BudgetForAll(e: Event, w: World, node: string)
    requires IsOrder(e.order, e.expected) && node in e.expected
    requires |Candidates(InputOf(e, w.status), e.order)| <= Budget(InputOf(e, w.status))
    ensures HasBudget(e, w, node)
  {
    var i := InputOf(e, w.status);
    hide FirstStatus, Candidates, Budget, Candidate, Chosen;
    if Candidate(i, node) {
      AllChosen(i, e.order, node);
    }
  }

  /** Nobody is chosen exactly when there is no budget or no candidate. */
  lemma NobodyChosen(i: Input, order: seq<string>)
    requires IsOrder(order, i.expected)
    ensures Chosen(i, order) == {} <==> Budget(i) == 0 || Candidates(i, order) == {}
  {
    ChosenCount(i, order);
    BudgetIsExact(i, order);
    hide Chosen, Candidate, Candidates, Plan, ReadyUpdates, Budget;
  }

  lemma BudgetLeft(i: Input, order: seq<string>)
    requires Distinct(order) && forall n :: n in order ==> n in i.expected
    ensures Plan(i, order).1 < StrategyOf(i).1 <==> |Candidates(i, order)| < Budget(i)
  {
    BudgetIsExact(i, order);
    hide Candidate, Candidates, Plan, ReadyUpdates, StrategyOf, Unavailable;
  }

  lemma ChosenOneMore(i: Input, init: seq<string>, last: string)
    requires Distinct(init) && last !in init && last in i.expected && forall n :: n in init ==> n in i.expected
    ensures last in Chosen(i, init + [last]) <==> Candidate(i, last) && |Candidates(i, init)| < Budget(i)
    ensures forall n :: n in init ==> (n in Chosen(i, init + [last]) <==> n in Chosen(i, init))
  {
    assert (init + [last])[..|init|] == init;
    ChosenCount(i, init);
    BudgetLeft(i, init);
    hide Candidate, Candidates, Plan, StrategyOf, Budget;
  }

  /** A worker is chosen exactly when it is a candidate and fewer candidates than the budget come before it. */
  lemma {:induction false} ChosenExactly(i: Input, order: seq<string>, k: nat)
    requires Distinct(order) && (forall n :: n in order ==> n in i.expected) && k < |order|
    ensures order[k] in Chosen(i, order) <==> Candidate(i, order[k]) && |Candidates(i, order[..k])| < Budget(i)
    decreases |order|
  {
    var init, last := order[..|order| - 1], order[|order| - 1];
    assert order == init + [last];
    hide Candidate, Candidates, Budget, Chosen;
    ChosenOneMore(i, init, last);
    if k == |init| {
      assert order[..k] == init;
    } else {
      assert init[..k] == order[..k] && init[k] == order[k];
      ChosenExactly(i, init, k);
    }
  }

  /** After the sync, exactly the chosen workers have stopped being outdated. */
  lemma SyncedOutdated(i: Input, order: seq<string>, api: Api, pods: Pods, node: string)
    requires SteadySync(i, order, api, pods) && node in i.expected
    ensures var after := RunTasks(pods, false, Plan(i, order).0, api).0;
      var p := At(after, PodName(i.g, node));
      && p.Some? && Alive(p.value) && !Joining(p.value)
      && (IsOutdated(after, i.g, i.expected, node)
          <==> IsOutdated(pods, i.g, i.expected, node) && node !in Chosen(i, order))
  {
    var name := PodName(i.g, node);
    SteadyNeeds(i, order, api, pods, node);
    ChosenCount(i, order);
    var t := PlannedTask(i, order, false, api, pods, node);
    if node in Chosen(i, order) {
      UpdatedIsUpToDate(i, node, t, pods[name], api(name));
    } else {
      assert t.action == UpToDate;
    }
    hide RunTasks, Plan, Chosen, Decide, Needed, MustWait, Candidate, IsTaskOf, Find;
  }

  // ---------- rounds ----------

  /** What a round is run with. */
  datatype Round = Round(status: Status, listing: seq<Pod>, now: Time, order: seq<string>, api: Api)

  function RoundInput(d: Round, g: Group, expected: map<string, Template>): Input {
    Input(g, d.status, expected, d.listing, d.now)
  }

  /** A sync, after which the expected workers drift until the group is steady again. */
  ghost predicate IsRound(d: Round, g: Group, expected: map<string, Template>, pods: Pods, pods': Pods) {
    var i := RoundInput(d, g, expected);
    && SteadySync(i, d.order, d.api, pods)
    && Steady(pods', g, expected)
    && forall node :: node in expected ==>
         DriftsAt(RunTasks(pods, false, Plan(i, d.order).0, d.api).0, pods', PodName(g, node))
  }

  predicate DriftsAt(pods: Pods, pods': Pods, name: string) {
    name in pods && name in pods' && Drifts(pods[name], pods'[name])
  }

  lemma DriftKeepsOutdated(p: Pod, q: Pod, g: Group, t: Template, node: string)
    requires Drifts(p, q) && Alive(p) && Alive(q)
    ensures Decide(false, g, t, node, false, Some(p), ZERO_TIME) == Decide(false, g, t, node, false, Some(q), ZERO_TIME)
  {
    hide Render, MountOpts, WithJoinOption, Command;
  }

  lemma OutdatedAfterRound(d: Round, g: Group, expected: map<string, Template>, pods: Pods, pods': Pods, node: string)
    requires IsRound(d, g, expected, pods, pods') && node in expected
    ensures var i := RoundInput(d, g, expected);
      IsOutdated(pods', g, expected, node) <==> IsOutdated(pods, g, expected, node) && node !in Chosen(i, d.order)
  {
    var i := RoundInput(d, g, expected);
    SyncedOutdated(i, d.order, d.api, pods, node);
    hide Plan, RunTasks, Decide, Chosen, SteadySync;
    var synced := RunTasks(pods, false, Plan(i, d.order).0, d.api).0;
    var name := PodName(g, node);
    assert DriftsAt(synced, pods', name);
    DriftKeepsOutdated(synced[name], pods'[name], g, expected[node], node);
  }

  function MaxUnavailableOf(g: Group, expected: map<string, Template>): int {
    ParseUpdateStrategy(g.strategy, |expected|).1
  }

  /** The outdated workers are the candidates of the round, and lose the chosen ones. */
  lemma RoundSets(d: Round, g: Group, expected: map<string, Template>, pods: Pods, pods': Pods)
    requires IsRound(d, g, expected, pods, pods')
    ensures var i := RoundInput(d, g, expected);
      && Candidates(i, d.order) == Outdated(pods, g, expected)
      && Chosen(i, d.order) <= Outdated(pods, g, expected)
      && Outdated(pods', g, expected) == Outdated(pods, g, expected) - Chosen(i, d.order)
  {
    var i := RoundInput(d, g, expected);
    ChosenCount(i, d.order);
    RoundCandidates(d, g, expected, pods, pods');
    hide IsOutdated, Plan, Chosen, Candidates, IsRound;
    forall node ensures node in Outdated(pods', g, expected) <==>
        node in Outdated(pods, g, expected) && node !in Chosen(i, d.order) {
      if node in expected {
        OutdatedAfterRound(d, g, expected, pods, pods', node);
      }
    }
  }

  lemma RoundCandidates(d: Round, g: Group, expected: map<string, Template>, pods: Pods, pods': Pods)
    requires IsRound(d, g, expected, pods, pods')
    ensures Candidates(RoundInput(d, g, expected), d.order) == Outdated(pods, g, expected)
  {
    var i := RoundInput(d, g, expected);
    assert SteadySync(i, d.order, d.api, pods) && i.g == g && i.expected == expected;
    assert forall node :: node in d.order <==> node in expected;
    hide IsOutdated, Candidate, Plan, Steady, SteadySync, IsRound;
    forall node ensures node in Candidates(i, d.order) <==> node in Outdated(pods, g, expected) {
      if node in expected {
        SteadyNeeds(i, d.order, d.api, pods, node);
      }
    }
  }

  lemma RoundCount(d: Round, g: Group, expected: map<string, Template>, pods: Pods, pods': Pods)
    requires IsRound(d, g, expected, pods, pods')
    ensures var i := RoundInput(d, g, expected);
      |Chosen(i, d.order)| == Min(|Candidates(i, d.order)|, Max(0, MaxUnavailableOf(g, expected)))
  {
    var i := RoundInput(d, g, expected);
    NobodyUnavailable(d.listing);
    hide Plan, Chosen, Candidate, Candidates, ReadyUpdates, Steady, Drift, IsListing, ParseUpdateStrategy;
    BudgetIsExact(i, d.order);
    ChosenCount(i, d.order);
  }

  /** One round removes as many outdated workers as maxUnavailable allows. */
  lemma RoundShrinks(d: Round, g: Group, expected: map<string, Template>, pods: Pods, pods': Pods)
    requires IsRound(d, g, expected, pods, pods')
    ensures Outdated(pods', g, expected) <= Outdated(pods, g, expected)
    ensures |Outdated(pods', g, expected)|
            == |Outdated(pods, g, expected)| - Min(|Outdated(pods, g, expected)|, Max(0, MaxUnavailableOf(g, expected)))
  {
    RoundSets(d, g, expected, pods, pods');
    RoundCount(d, g, expected, pods, pods');
    hide IsRound, Outdated, MaxUnavailableOf, Candidates, Chosen, RoundInput;
    var before, chosen := Outdated(pods, g, expected), Chosen(RoundInput(d, g, expected), d.order);
    assert |before - chosen| == |before| - |chosen|;
  }

  /** Consecutive rounds. */
  ghost predicate AreRounds(rounds: seq<Round>, g: Group, expected: map<string, Template>, states: seq<Pods>) {
    && |states| == |rounds| + 1
    && forall k :: 0 <= k < |rounds| ==> IsRound(rounds[k], g, expected, states[k], states[k + 1])
  }

  /**
   Convergence. With maxUnavailable at least 1, after k rounds k * maxUnavailable workers fewer are outdated, until
   none is.
   With maxUnavailable 0 or below, as a small percentage rounds to, the same workers stay outdated forever.
   */
  lemma {:induction false} RolloutConverges(rounds: seq<Round>, g: Group, expected: map<string, Template>,
                                            states: seq<Pods>, k: nat)
    requires AreRounds(rounds, g, expected, states) && k < |states|
    ensures var m := MaxUnavailableOf(g, expected);
      var n := |Outdated(states[0], g, expected)|;
      && (m >= 1 ==> |Outdated(states[k], g, expected)| == Max(0, n - k * m))
      && (m <= 0 ==> Outdated(states[k], g, expected) == Outdated(states[0], g, expected))
  {
    hide IsRound, Outdated, MaxUnavailableOf;
    if k > 0 {
      RolloutConverges(rounds, g, expected, states, k - 1);
      RoundShrinks(rounds[k - 1], g, expected, states[k - 1], states[k]);
      var m := MaxUnavailableOf(g, expected);
      assert k * m == (k - 1) * m + m;
      if m <= 0 {
        Sequences.SubsetSize(Outdated(states[k], g, expected), Outdated(states[k - 1], g, expected));
      }
    }
  }

  // ---------- rounds in runs ----------

  /** A steady group with a place for each expected worker. */
  predicate Settled(pods: Pods, g: Group, expected: map<string, Template>) {
    && Steady(pods, g, expected)
    && forall node :: node in expected ==> Belongs(g, expected.Keys, pods[PodName(g, node)])
  }

  /** A reconcile that expects these workers, starts when the group is settled, and whose calls succeed. */
  ghost predicate Rolls(e: Event, w: World, g: Group, expected: map<string, Template>) {
    && e.g == g && e.expected == expected && !g.strategy.OnDelete?
    && Fair(e, w) && Settled(w.pods, g, expected) && Succeeds(e.api)
  }

  function RoundOf(e: Event, w: World): Round {
    Round(FirstStatus(e, w.status), e.listing, e.clock.during, e.order, e.api)
  }

  /** A whole reconcile, after which the expected workers drift until the group is steady again, is a round. */
  lemma ReconcileIsRound(e: Event, w: World, g: Group, expected: map<string, Template>, pods': Pods)
    requires Rolls(e, w, g, expected) && Steady(pods', g, expected)
    requires forall node :: node in expected ==> DriftsAt(HandledWorld(e, w).pods, pods', PodName(g, node))
    ensures IsRound(RoundOf(e, w), g, expected, w.pods, pods')
  {
    RoundStarts(e, w, g, expected);
    hide Rolls, HandledPods, SyncedPods, FirstStatus, Plan, RunTasks, SteadySync, Steady, DriftsAt;
    forall node | node in expected
      ensures DriftsAt(SyncedPods(e, w.pods, w.status).0, pods', PodName(g, node))
    {
      HandledIsSynced(e, w, g, expected, pods', node);
    }
  }

  lemma HandledIsSynced(e: Event, w: World, g: Group, expected: map<string, Template>, pods': Pods, node: string)
    requires Rolls(e, w, g, expected) && node in expected
    requires DriftsAt(HandledWorld(e, w).pods, pods', PodName(g, node))
    ensures DriftsAt(SyncedPods(e, w.pods, w.status).0, pods', PodName(g, node))
  {
    hide HandledPods, SyncedPods, Belongs, Drifts, PodName;
    RemovalSpares(e, w, PodName(g, node));
  }

  lemma RoundStarts(e: Event, w: World, g: Group, expected: map<string, Template>)
    requires Rolls(e, w, g, expected)
    ensures RoundInput(RoundOf(e, w), g, expected) == InputOf(e, w.status)
    ensures SteadySync(InputOf(e, w.status), e.order, e.api, w.pods)
    ensures SyncedPods(e, w.pods, w.status) == RunTasks(w.pods, false, Plan(InputOf(e, w.status), e.order).0, e.api)
  {
    hide FirstStatus, IsListing, Belongs, Alive, Succeeds, PodName;
  }

  /** Without a reconcile in between, what is left of the pods has drifted. */
  lemma {:induction false} DriftBetween(worlds: seq<World>, steps: seq<Step>, j: nat, k: nat)
    requires IsRun(worlds, steps) && j <= k < |worlds| && forall m :: j <= m < k ==> !steps[m].Reconciled?
    ensures Drift(worlds[j].pods, worlds[k].pods)
  {
    hide Drifts;
    DriftSelf(worlds[j].pods);
    if j < k {
      DriftBetween(worlds, steps, j, k - 1);
      assert StepTo(worlds[k - 1], steps[k - 1], worlds[k]);
      DriftThen(worlds[j].pods, worlds[k - 1].pods, worlds[k].pods);
    }
  }

  lemma DriftSelf(a: Pods)
    ensures Drift(a, a)
  {
  }

  lemma DriftThen(a: Pods, b: Pods, c: Pods)
    requires Drift(a, b) && (Drift(b, c) || b == c)
    ensures Drift(a, c)
  {
  }

  /** How many of the first k steps are reconciles. */
  function Reconciles(steps: seq<Step>, k: nat): nat
    requires k <= |steps|
  {
    if k == 0 then 0 else Reconciles(steps, k - 1) + if steps[k - 1].Reconciled? then 1 else 0
  }

  /** Every reconcile of the run rolls the same expected workers out. */
  ghost predicate RollsOut(worlds: seq<World>, steps: seq<Step>, g: Group, expected: map<string, Template>)
    requires IsRun(worlds, steps)
  {
    forall k :: 0 <= k < |steps| && steps[k].Reconciled? ==> Rolls(steps[k].event, worlds[k], g, expected)
  }

  /** The last reconcile before step k, if any. */
  lemma {:induction false} LastReconcile(steps: seq<Step>, k: nat) returns (j: int)
    requires k <= |steps|
    ensures -1 <= j < k && forall m :: j < m < k ==> !steps[m].Reconciled?
    ensures if j == -1 then Reconciles(steps, k) == 0
            else steps[j].Reconciled? && Reconciles(steps, k) == Reconciles(steps, j) + 1
  {
    if k == 0 {
      j := -1;
    } else if steps[k - 1].Reconciled? {
      j := k - 1;
    } else {
      j := LastReconcile(steps, k - 1);
    }
  }

  /** From one settled world to the next with one reconcile between: a round. */
  lemma RoundBetween(worlds: seq<World>, steps: seq<Step>, g: Group, expected: map<string, Template>, j: nat, k: nat)
    requires IsRun(worlds, steps) && RollsOut(worlds, steps, g, expected) && j < k < |worlds|
    requires steps[j].Reconciled? && (forall m :: j < m < k ==> !steps[m].Reconciled?)
    requires Steady(worlds[k].pods, g, expected)
    ensures IsRound(RoundOf(steps[j].event, worlds[j]), g, expected, worlds[j].pods, worlds[k].pods)
  {
    var e, w := steps[j].event, worlds[j];
    assert StepTo(w, steps[j], worlds[j + 1]);
    DriftBetween(worlds, steps, j + 1, k);
    DriftThen(HandledWorld(e, w).pods, worlds[j + 1].pods, worlds[k].pods);
    hide HandledPods, FirstStatus, Drifts, IsRound, FinalStatus;
    forall node | node in expected
      ensures DriftsAt(HandledWorld(e, w).pods, worlds[k].pods, PodName(g, node))
    {
      assert PodName(g, node) in worlds[k].pods;
    }
    ReconcileIsRound(e, w, g, expected, worlds[k].pods);
  }

  lemma DriftKeepsSet(pods: Pods, pods': Pods, g: Group, expected: map<string, Template>)
    requires Drift(pods, pods') && Steady(pods, g, expected) && Steady(pods', g, expected)
    ensures Outdated(pods', g, expected) == Outdated(pods, g, expected)
  {
    hide Decide;
    forall node | node in expected
      ensures IsOutdated(pods', g, expected, node) <==> IsOutdated(pods, g, expected, node)
    {
      DriftKeepsOutdated(pods[PodName(g, node)], pods'[PodName(g, node)], g, expected[node], node);
    }
  }

  /**
   Convergence in runs of the operator, whatever else happens in between: whenever the group is steady again, each
   reconcile so far has brought maxUnavailable workers to date, until none was outdated; or, with maxUnavailable 0 or
   below, none ever.
   */
  lemma {:induction false} RolloutInRun(worlds: seq<World>, steps: seq<Step>, g: Group,
                                        expected: map<string, Template>, k: nat)
    requires IsRun(worlds, steps) && RollsOut(worlds, steps, g, expected) && k < |worlds|
    requires Steady(worlds[0].pods, g, expected) && Steady(worlds[k].pods, g, expected)
    ensures var m := MaxUnavailableOf(g, expected);
      var n := |Outdated(worlds[0].pods, g, expected)|;
      && (m >= 1 ==> |Outdated(worlds[k].pods, g, expected)| == Max(0, n - Reconciles(steps, k) * m))
      && (m <= 0 ==> Outdated(worlds[k].pods, g, expected) == Outdated(worlds[0].pods, g, expected))
    decreases k
  {
    hide IsRound, Outdated, MaxUnavailableOf, Steady, Drift, StepTo, Reconciles;
    var j := LastReconcile(steps, k);
    if j == -1 {
      DriftBetween(worlds, steps, 0, k);
      DriftKeepsSet(worlds[0].pods, worlds[k].pods, g, expected);
    } else {
      assert Rolls(steps[j].event, worlds[j], g, expected);
      RolloutInRun(worlds, steps, g, expected, j);
      RoundBetween(worlds, steps, g, expected, j, k);
      RoundShrinks(RoundOf(steps[j].event, worlds[j]), g, expected, worlds[j].pods, worlds[k].pods);
      var m := MaxUnavailableOf(g, expected);
      assert Reconciles(steps, k) * m == Reconciles(steps, j) * m + m;
      if m <= 0 {
        Sequences.SubsetSize(Outdated(worlds[k].pods, g, expected), Outdated(worlds[j].pods, g, expected));
      }
    }
  }
}
