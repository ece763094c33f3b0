/**
 Choosing the nodes of a group whose workers follow affinity rules: the scheduler simulator with its pending and
 to-be-deleted pods, and the greedy pass over the nodes. The main results say when a placement does not flap, and that
 from any placement two passes reach one that stays.

 Whether node affinity and taints admit a pod is given as a set of nodes, a label selector as a predicate on labels.
 */
module Scheduler {
  import opened Wrappers
  import opened Kube
  import opened Names

  // ---------- the cluster ----------

  type Labels = map<string, string>

  datatype Node = Node(name: string, labels: Labels)

  /** A required (anti-)affinity term; no selector stands for one that cannot be converted. */
  datatype Term = Term(selector: Option<Labels -> bool>, namespaces: seq<string>, topologyKey: string)

  datatype SchedPod = SchedPod(
    name: string, namespace: string, nodeName: string, labels: Labels,
    fits: set<string>,             // nodes whose affinity and taints admit the pod
    affinity: seq<Term>, antiAffinity: seq<Term>)

  /** The pods of the cluster, and the namespaces whose listing fails ("" for the listing of all). */
  datatype Client = Client(pods: seq<SchedPod>, down: set<string>)

  /** The label's value, "" when it is missing. */
  function LabelOf(labels: Labels, key: string): string {
    if key in labels then labels[key] else ""
  }

  // ---------- what the simulator decides ----------

  datatype View = View(client: Client, nodes: map<string, Labels>, pending: seq<SchedPod>, deleted: set<string>)

  predicate Listable(client: Client, term: Term) {
    && term.selector.Some?
    && if term.namespaces == [] then "" !in client.down else forall ns :: ns in term.namespaces ==> ns !in client.down
  }

  predicate Selects(term: Term, q: SchedPod) {
    term.selector.Some? && term.selector.value(q.labels)
  }

  /** The pod is in the topology domain and is not the current one. */
  predicate InDomain(nodes: map<string, Labels>, current: string, term: Term, value: string, q: SchedPod) {
    q.nodeName in nodes && LabelOf(nodes[q.nodeName], term.topologyKey) == value && q.name != current
  }

  predicate InScope(term: Term, q: SchedPod) {
    Selects(term, q) && (term.namespaces == [] || q.namespace in term.namespaces)
  }

  ghost predicate IsMatch(v: View, current: string, term: Term, value: string, q: SchedPod) {
    && InDomain(v.nodes, current, term, value, q)
    && ((q in v.client.pods && InScope(term, q) && q.name !in v.deleted)
        || (q in v.pending && Selects(term, q)))
  }

  ghost predicate Occupied(v: View, current: string, term: Term, value: string) {
    exists q :: IsMatch(v, current, term, value, q)
  }

  datatype Verdict = Yes | No | Failed

  /** Affinity: in every term's domain of the node there has to be a match; the first term that decides wins. */
  ghost function PodAffinity(v: View, pod: SchedPod, node: Node, terms: seq<Term>): Verdict {
    if terms == [] then Yes
    else
      var init := PodAffinity(v, pod, node, terms[..|terms| - 1]);
      var term := terms[|terms| - 1];
      if init != Yes then init
      else if term.topologyKey !in node.labels then No
      else if !Listable(v.client, term) then Failed
      else if Occupied(v, pod.name, term, node.labels[term.topologyKey]) then Yes else No
  }

  /** Anti-affinity: no match in any term's domain of the node; a node without the key is in no domain. */
  ghost function PodAntiAffinity(v: View, pod: SchedPod, node: Node, terms: seq<Term>): Verdict {
    if terms == [] then Yes
    else
      var init := PodAntiAffinity(v, pod, node, terms[..|terms| - 1]);
      var term := terms[|terms| - 1];
      if init != Yes then init
      else if term.topologyKey !in node.labels then Yes
      else if !Listable(v.client, term) then Failed
      else if Occupied(v, pod.name, term, node.labels[term.topologyKey]) then No else Yes
  }

  ghost function CanSchedule(v: View, pod: SchedPod, node: Node): Verdict {
    if node.name !in pod.fits then No
    else
      var affinity := PodAffinity(v, pod, node, pod.affinity);
      if affinity != Yes then affinity else PodAntiAffinity(v, pod, node, pod.antiAffinity)
  }

  class SchedulerSimulator {
    const client: Client
    const nodes: map<string, Labels>
    var pendingPods: seq<SchedPod>
    var toBeDeletedPods: map<string, SchedPod>

    ghost function V(): View
      reads this
    {
      View(client, nodes, pendingPods, toBeDeletedPods.Keys)
    }

    constructor (client: Client, nodes: map<string, Labels>)
      ensures V() == View(client, nodes, [], {})
    {
      this.client := client;
      this.nodes := nodes;
      pendingPods := [];
      toBeDeletedPods := map[];
    }

    method AppendPendingPod(pod: SchedPod)
      modifies this`pendingPods
      ensures V() == old(V()).(pending := old(pendingPods) + [pod])
    {
      pendingPods := pendingPods + [pod];
    }

    method AppendToBeDeletedPod(pod: SchedPod)
      modifies this`toBeDeletedPods
      ensures V() == old(V()).(deleted := old(toBeDeletedPods.Keys) + {pod.name})
    {
      toBeDeletedPods := toBeDeletedPods[pod.name := pod];
    }

    /** The pods of one listing, by namespace or over all. */
    method ListPods(term: Term) returns (r: Option<seq<SchedPod>>)
      ensures r.Some? <==> Listable(client, term)
      ensures r.Some? ==> forall q :: q in r.value <==> q in client.pods && InScope(term, q)
    {
      if term.selector.None? {
        return None;
      }
      if term.namespaces == [] {
        if "" in client.down {
          return None;
        }
        var all := SelectFrom(client.pods, term, None);
        return Some(all);
      }
      var found: seq<SchedPod> := [];
      for i := 0 to |term.namespaces|
        invariant forall j :: 0 <= j < i ==> term.namespaces[j] !in client.down
        invariant forall q :: q in found <==>
            q in client.pods && Selects(term, q) && q.namespace in term.namespaces[..i]
      {
        var ns := term.namespaces[i];
        if ns in client.down {
          return None;
        }
        var more := SelectFrom(client.pods, term, Some(ns));
        found := found + more;
        assert term.namespaces[..i + 1] == term.namespaces[..i] + [ns];
      }
      assert term.namespaces[..|term.namespaces|] == term.namespaces;
      return Some(found);
    }

    method SelectFrom(pods: seq<SchedPod>, term: Term, ns: Option<string>) returns (r: seq<SchedPod>)
      requires term.selector.Some?
      ensures forall q :: q in r <==> q in pods && Selects(term, q) && (ns.None? || q.namespace == ns.value)
    {
      r := [];
      for i := 0 to |pods|
        invariant forall q :: q in r <==> q in pods[..i] && Selects(term, q) && (ns.None? || q.namespace == ns.value)
      {
        if term.selector.value(pods[i].labels) && (ns.None? || pods[i].namespace == ns.value) {
          r := r + [pods[i]];
        }
        assert pods[..i + 1] == pods[..i] + [pods[i]];
      }
      assert pods[..|pods|] == pods;
    }

    method ListPodAffinityTermPods(currentPod: string, term: Term, topologyValue: string)
      returns (r: Option<seq<SchedPod>>)
      ensures r.Some? <==> Listable(client, term)
      ensures r.Some? ==> forall q :: q in r.value <==> IsMatch(V(), currentPod, term, topologyValue, q)
    {
      var listed := ListPods(term);
      if listed.None? {
        return None;
      }
      var matched: seq<SchedPod> := [];
      for i := 0 to |listed.value|
        invariant forall q :: q in matched <==>
          q in listed.value[..i] && InDomain(nodes, currentPod, term, topologyValue, q)
              && q.name !in toBeDeletedPods.Keys
      {
        var pod := listed.value[i];
        assert listed.value[..i + 1] == listed.value[..i] + [pod];
        if pod.nodeName !in nodes {
          continue;
        }
        if LabelOf(nodes[pod.nodeName], term.topologyKey) == topologyValue && pod.name != currentPod
            && pod.name !in toBeDeletedPods {
          matched := matched + [pod];
        }
      }
      assert listed.value[..|listed.value|] == listed.value;
      ghost var existing := matched;
      for i := 0 to |pendingPods|
        invariant forall q :: q in matched <==>
          q in existing || (q in pendingPods[..i] && InDomain(nodes, currentPod, term, topologyValue, q)
              && Selects(term, q))
      {
        var pod := pendingPods[i];
        assert pendingPods[..i + 1] == pendingPods[..i] + [pod];
        if pod.nodeName !in nodes {
          continue;
        }
        if LabelOf(nodes[pod.nodeName], term.topologyKey) == topologyValue && term.selector.value(pod.labels)
            && pod.name != currentPod {
          matched := matched + [pod];
        }
      }
      assert pendingPods[..|pendingPods|] == pendingPods;
      return Some(matched);
    }

    method CheckPodAffinity(pod: SchedPod, node: Node) returns (r: Verdict)
      ensures r == PodAffinity(V(), pod, node, pod.affinity)
    {
      hide IsMatch;
      var terms := pod.affinity;
      for i := 0 to |terms|
        invariant PodAffinity(V(), pod, node, terms[..i]) == Yes
      {
        var term := terms[i];
        assert terms[..i + 1][..i] == terms[..i];
        DecidedEarly(V(), pod, node, terms, i + 1);
        if term.topologyKey !in node.labels {
          return No;
        }
        var pods := ListPodAffinityTermPods(pod.name, term, node.labels[term.topologyKey]);
        if pods.None? {
          return Failed;
        }
        if pods.value == [] {
          return No;
        }
        assert pods.value[0] in pods.value;
      }
      assert terms[..|terms|] == terms;
      return Yes;
    }

    method CheckPodAntiAffinity(pod: SchedPod, node: Node) returns (r: Verdict)
      ensures r == PodAntiAffinity(V(), pod, node, pod.antiAffinity)
    {
      hide IsMatch;
      var terms := pod.antiAffinity;
      for i := 0 to |terms|
        invariant PodAntiAffinity(V(), pod, node, terms[..i]) == Yes
      {
        var term := terms[i];
        assert terms[..i + 1][..i] == terms[..i];
        DecidedEarly(V(), pod, node, terms, i + 1);
        if term.topologyKey !in node.labels {
          continue;
        }
        var pods := ListPodAffinityTermPods(pod.name, term, node.labels[term.topologyKey]);
        if pods.None? {
          return Failed;
        }
        if pods.value != [] {
          assert pods.value[0] in pods.value;
          return No;
        }
      }
      assert terms[..|terms|] == terms;
      return Yes;
    }

    method CanSchedulePodOnNode(pod: SchedPod, node: Node) returns (r: Verdict)
      ensures r == CanSchedule(V(), pod, node)
    {
      if node.name !in pod.fits {
        return No;
      }
      r := CheckPodAffinity(pod, node);
      if r != Yes {
        return;
      }
      r := CheckPodAntiAffinity(pod, node);
    }
  }

  /** Terms after the first one that decides do not matter. */
  lemma {:induction false} DecidedEarly(v: View, pod: SchedPod, node: Node, terms: seq<Term>, k: nat)
    requires k <= |terms|
    ensures PodAffinity(v, pod, node, terms[..k]) != Yes ==>
              PodAffinity(v, pod, node, terms) == PodAffinity(v, pod, node, terms[..k])
    ensures PodAntiAffinity(v, pod, node, terms[..k]) != Yes ==>
              PodAntiAffinity(v, pod, node, terms) == PodAntiAffinity(v, pod, node, terms[..k])
  {
    if k == |terms| {
      assert terms[..k] == terms;
    } else {
      var init := terms[..|terms| - 1];
      assert init[..k] == terms[..k];
      DecidedEarly(v, pod, node, init, k);
    }
  }

  // ---------- what the checks decide ----------

  /** Another pod that the term selects is in the domain of the value: pending, or existing, in scope and staying. */
  ghost predicate HasNeighbour(v: View, pod: SchedPod, term: Term, value: string) {
    exists q :: IsNeighbour(v, pod, term, value, q)
  }

  ghost predicate IsNeighbour(v: View, pod: SchedPod, term: Term, value: string, q: SchedPod) {
    && q.name != pod.name && term.selector.Some? && term.selector.value(q.labels)
    && q.nodeName in v.nodes
    && var labels := v.nodes[q.nodeName];
    && (if term.topologyKey in labels then labels[term.topologyKey] == value else value == "")
    && (|| q in v.pending
        || (q in v.client.pods && q.name !in v.deleted && (term.namespaces == [] || q.namespace in term.namespaces)))
  }

  lemma OccupiedIs(v: View, pod: SchedPod, term: Term, value: string)
    ensures Occupied(v, pod.name, term, value) <==> HasNeighbour(v, pod, term, value)
  {
    if Occupied(v, pod.name, term, value) {
      var q :| IsMatch(v, pod.name, term, value, q);
      assert IsNeighbour(v, pod, term, value, q);
    }
    if HasNeighbour(v, pod, term, value) {
      var q :| IsNeighbour(v, pod, term, value, q);
      assert IsMatch(v, pod.name, term, value, q);
    }
  }

  /** The listings that a term needs: of each of its namespaces, or of all pods at once. */
  function Listings(term: Term): set<string> {
    if |term.namespaces| > 0 then set ns | ns in term.namespaces else {""}
  }

  /** The term can be converted and its listings succeed. */
  predicate Answered(v: View, term: Term) {
    term.selector.Some? && Listings(term) !! v.client.down
  }

  lemma ListableExactly(v: View, term: Term)
    ensures Listable(v.client, term) <==> Answered(v, term)
  {
  }

  /** An affinity term is met: the node is in a domain, and its neighbours can be listed and are there. */
  ghost predicate Attracts(v: View, pod: SchedPod, node: Node, term: Term) {
    && term.topologyKey in node.labels && Answered(v, term)
    && HasNeighbour(v, pod, term, node.labels[term.topologyKey])
  }

  /** An anti-affinity term is met: the node is in no domain, or its neighbours can be listed and there are none. */
  ghost predicate Tolerates(v: View, pod: SchedPod, node: Node, term: Term) {
    term.topologyKey in node.labels ==>
      Answered(v, term) && !HasNeighbour(v, pod, term, node.labels[term.topologyKey])
  }

  /** The listing for the term is needed and fails. */
  predicate Unanswered(v: View, node: Node, term: Term) {
    term.topologyKey in node.labels && !Answered(v, term)
  }

  ghost predicate AllAttract(v: View, pod: SchedPod, node: Node, terms: seq<Term>) {
    forall i :: 0 <= i < |terms| ==> Attracts(v, pod, node, terms[i])
  }

  ghost predicate AllTolerate(v: View, pod: SchedPod, node: Node, terms: seq<Term>) {
    forall i :: 0 <= i < |terms| ==> Tolerates(v, pod, node, terms[i])
  }

  /** The first affinity term that is not met is one without an answer. */
  ghost predicate AttractionUnanswered(v: View, pod: SchedPod, node: Node, terms: seq<Term>) {
    exists i :: 0 <= i < |terms| && Unanswered(v, node, terms[i]) && AllAttract(v, pod, node, terms[..i])
  }

  ghost predicate ToleranceUnanswered(v: View, pod: SchedPod, node: Node, terms: seq<Term>) {
    exists i :: 0 <= i < |terms| && Unanswered(v, node, terms[i]) && AllTolerate(v, pod, node, terms[..i])
  }

  /** Affinity passes exactly when all terms are met, and fails exactly at a first term without an answer. */
  lemma {:induction false} AffinityExactly(v: View, pod: SchedPod, node: Node, terms: seq<Term>)
    ensures PodAffinity(v, pod, node, terms) == Yes <==> AllAttract(v, pod, node, terms)
    ensures PodAffinity(v, pod, node, terms) == Failed <==> AttractionUnanswered(v, pod, node, terms)
  {
    hide Occupied, Listable, HasNeighbour, Answered;
    if terms != [] {
      var init, last := terms[..|terms| - 1], terms[|terms| - 1];
      AffinityExactly(v, pod, node, init);
      if last.topologyKey in node.labels {
        ListableExactly(v, last);
        OccupiedIs(v, pod, last, node.labels[last.topologyKey]);
      }
      assert forall i :: 0 <= i < |terms| ==> init[..i] == terms[..i];
      assert forall i :: 0 <= i < |init| ==> init[i] == terms[i];
    }
  }

  /** Anti-affinity passes exactly when all terms are met, and fails exactly at a first term without an answer. */
  lemma {:induction false} AntiAffinityDecides(v: View, pod: SchedPod, node: Node, terms: seq<Term>)
    ensures PodAntiAffinity(v, pod, node, terms) == Yes <==> AllTolerate(v, pod, node, terms)
    ensures PodAntiAffinity(v, pod, node, terms) == Failed <==> ToleranceUnanswered(v, pod, node, terms)
  {
    hide Occupied, Listable, HasNeighbour, Answered;
    if terms != [] {
      var init, last := terms[..|terms| - 1], terms[|terms| - 1];
      AntiAffinityDecides(v, pod, node, init);
      if last.topologyKey in node.labels {
        ListableExactly(v, last);
        OccupiedIs(v, pod, last, node.labels[last.topologyKey]);
      }
      assert forall i :: 0 <= i < |terms| ==> init[..i] == terms[..i];
      assert forall i :: 0 <= i < |init| ==> init[i] == terms[i];
    }
  }

  /**
   A node is accepted exactly when it fits and meets all terms. The check fails exactly when the node fits and a listing
   without an answer comes before any term that is not met, affinity first.
   */
  lemma AcceptedExactly(v: View, pod: SchedPod, node: Node)
    ensures CanSchedule(v, pod, node) == Yes <==>
      && node.name in pod.fits
      && AllAttract(v, pod, node, pod.affinity) && AllTolerate(v, pod, node, pod.antiAffinity)
    ensures CanSchedule(v, pod, node) == Failed <==>
      && node.name in pod.fits
      && (|| AttractionUnanswered(v, pod, node, pod.affinity)
          || (AllAttract(v, pod, node, pod.affinity) && ToleranceUnanswered(v, pod, node, pod.antiAffinity)))
  {
    AffinityExactly(v, pod, node, pod.affinity);
    AntiAffinityDecides(v, pod, node, pod.antiAffinity);
    hide PodAffinity, PodAntiAffinity, AllAttract, AllTolerate, AttractionUnanswered, ToleranceUnanswered;
  }

  // ---------- the greedy pass ----------

  /** The worker the builder makes for a node, of which the pass knows what `shape` says. */
  function Built(g: Group, shape: string -> SchedPod, node: string): SchedPod {
    shape(node).(name := PodName(g, node))
  }

  function BoundTo(pod: SchedPod, node: string): SchedPod {
    pod.(nodeName := node)
  }

  datatype Pass = Pass(view: View, accepted: set<string>)

  /** The pass over nodes in their order; None when a check fails. */
  ghost function Simulate(g: Group, shape: string -> SchedPod, v: View, order: seq<string>): Option<Pass>
    requires forall n :: n in order ==> n in v.nodes
    ensures var r := Simulate(g, shape, v, order); r.Some? ==>
        r.value.view.nodes == v.nodes && r.value.view.client == v.client
  {
    if order == [] then Some(Pass(v, {}))
    else
      var n := order[|order| - 1];
      match Simulate(g, shape, v, order[..|order| - 1])
      case None => None
      case Some(pass) =>
        var pod := Built(g, shape, n);
        match CanSchedule(pass.view, pod, Node(n, pass.view.nodes[n]))
        case Failed => None
        case Yes => Some(Pass(pass.view.(pending := pass.view.pending + [BoundTo(pod, n)]), pass.accepted + {n}))
        case No => Some(Pass(pass.view.(deleted := pass.view.deleted + {pod.name}), pass.accepted))
  }

  function NodeNames(listing: seq<Node>): (r: seq<string>)
    ensures |r| == |listing| && forall i :: 0 <= i < |r| ==> r[i] == listing[i].name
  {
    seq(|listing|, i requires 0 <= i < |listing| => listing[i].name)
  }

  /** lo.KeyBy on the node name. */
  function NodeMap(listing: seq<Node>): (m: map<string, Labels>)
    ensures forall n :: n in m <==> exists i :: 0 <= i < |listing| && listing[i].name == n
  {
    if listing == [] then map[]
    else
      var last := |listing| - 1;
      assert forall i :: 0 <= i < last ==> listing[..last][i] == listing[i];
      NodeMap(listing[..last])[listing[last].name := listing[last].labels]
  }

  /** A failed check later in the order also fails the pass over the whole order. */
  lemma {:induction false} SimulateFails(g: Group, shape: string -> SchedPod, v: View, order: seq<string>, k: nat)
    requires forall n :: n in order ==> n in v.nodes
    requires k <= |order| && Simulate(g, shape, v, order[..k]).None?
    ensures Simulate(g, shape, v, order).None?
  {
    if k == |order| {
      assert order[..k] == order;
    } else {
      assert order[..|order| - 1][..k] == order[..k];
      SimulateFails(g, shape, v, order[..|order| - 1], k);
    }
  }

  /** The states still kept when the nodes done so far are the given ones. */
  function Remaining(states: map<string, Template>, done: seq<string>, accepted: set<string>): map<string, Template> {
    map n | n in states && (n in done ==> n in accepted) :: states[n]
  }

  lemma RemainingAfter(states: map<string, Template>, done: seq<string>, accepted: set<string>, n: string)
    requires n !in done && n !in accepted
    ensures Remaining(states, done + [n], accepted + {n}) == Remaining(states, done, accepted)
    ensures Remaining(states, done + [n], accepted) == Remaining(states, done, accepted) - {n}
  {
  }

  lemma {:induction false} AcceptedInOrder(g: Group, shape: string -> SchedPod, v: View, order: seq<string>)
    requires forall n :: n in order ==> n in v.nodes
    ensures var r := Simulate(g, shape, v, order); r.Some? ==> forall n :: n in r.value.accepted ==> n in order
  {
    hide CanSchedule;
    if order != [] {
      AcceptedInOrder(g, shape, v, order[..|order| - 1]);
    }
  }

  /** One more node of the order. */
  lemma SimulateStep(g: Group, shape: string -> SchedPod, v: View, order: seq<string>, i: nat,
                     states: map<string, Template>)
    requires (forall n :: n in order ==> n in v.nodes) && i < |order| && Distinct(order)
    requires Simulate(g, shape, v, order[..i]).Some?
    ensures var n, pod := order[i], Built(g, shape, order[i]);
      var pass := Simulate(g, shape, v, order[..i]).value;
      var next := Simulate(g, shape, v, order[..i + 1]);
      match CanSchedule(pass.view, pod, Node(n, v.nodes[n]))
      case Failed => next.None?
      case Yes =>
        && next.Some? && next.value.view == pass.view.(pending := pass.view.pending + [BoundTo(pod, n)])
        && Remaining(states, order[..i + 1], next.value.accepted) == Remaining(states, order[..i], pass.accepted)
      case No =>
        && next.Some? && next.value.view == pass.view.(deleted := pass.view.deleted + {pod.name})
        && Remaining(states, order[..i + 1], next.value.accepted) == Remaining(states, order[..i], pass.accepted) - {n}
  {
    hide CanSchedule, Remaining, Built;
    assert order[..i + 1][..i] == order[..i];
    assert order[..i + 1] == order[..i] + [order[i]];
    AcceptedInOrder(g, shape, v, order[..i]);
    RemainingAfter(states, order[..i], Simulate(g, shape, v, order[..i]).value.accepted, order[i]);
  }

  /**
   The pass that decides which nodes get a worker: the states of the rejected nodes are dropped while it goes over the
   nodes by name.
   */
  method ParseExpectStateByScheduler(g: Group, client: Client, listing: seq<Node>, shape: string -> SchedPod,
                                     states: map<string, Template>)
    returns (expected: Option<map<string, Template>>)
    requires Distinct(NodeNames(listing))
    requires forall n :: n in states <==> n in NodeNames(listing)
    ensures forall n :: n in Sort(NodeNames(listing)) ==> n in NodeMap(listing)
    ensures var pass := Simulate(g, shape, View(client, NodeMap(listing), [], {}), Sort(NodeNames(listing)));
      expected == if pass.None? then None else Some(map n | n in states && n in pass.value.accepted :: states[n])
  {
    var order := Sort(NodeNames(listing));
    SortSorts(NodeNames(listing));
    SortDistinct(NodeNames(listing));
    var nodes := NodeMap(listing);
    assert forall n :: n in order ==> n in nodes;
    hide CanSchedule, Sort, NodeMap, NodeNames, Remaining, Simulate, Distinct, Built, BoundTo;
    ghost var v := View(client, nodes, [], {});
    var sim := new SchedulerSimulator(client, nodes);
    var kept := states;
    assert order[..0] == [];
    NothingDone(g, shape, v, states);
    for i := 0 to |order|
      invariant sim.client == client && sim.nodes == nodes
      invariant Simulate(g, shape, v, order[..i]).Some?
      invariant sim.V() == Simulate(g, shape, v, order[..i]).value.view
      invariant kept == Remaining(states, order[..i], Simulate(g, shape, v, order[..i]).value.accepted)
    {
      var name := order[i];
      SimulateStep(g, shape, v, order, i, states);
      var pod := Built(g, shape, name);
      var ok := sim.CanSchedulePodOnNode(pod, Node(name, nodes[name]));
      if ok == Failed {
        SimulateFails(g, shape, v, order, i + 1);
        return None;
      }
      if ok == No {
        kept := kept - {name};
        sim.AppendToBeDeletedPod(pod);
        continue;
      }
      sim.AppendPendingPod(BoundTo(pod, name));
    }
    assert order[..|order|] == order;
    AllDone(states, order, Simulate(g, shape, v, order).value.accepted);
    return Some(kept);
  }

  lemma NothingDone(g: Group, shape: string -> SchedPod, v: View, states: map<string, Template>)
    ensures Simulate(g, shape, v, []) == Some(Pass(v, {})) && Remaining(states, [], {}) == states
  {
  }

  lemma AllDone(states: map<string, Template>, order: seq<string>, accepted: set<string>)
    requires forall n :: n in states ==> n in order
    ensures Remaining(states, order, accepted) == map n | n in states && n in accepted :: states[n]
  {
  }
}
