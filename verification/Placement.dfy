/**
 Placements of a group whose workers share their required anti-affinity terms and have no pod affinity. The greedy pass
 is first reduced to conflicts between nodes; then: which placements stay, and that two passes always reach one.
 */
module Placement {
  import opened Wrappers
  import opened Kube
  import opened Names
  import opened Scheduler

  // ---------- conflicts between nodes ----------

  /** The nodes, the shared terms, and the nodes a worker fits on as far as anything but other workers is concerned. */
  datatype Site = Site(nodes: map<string, Labels>, terms: seq<Term>, fit: set<string>)

  predicate SameDomain(s: Site, i: int, n: string, m: string)
    requires 0 <= i < |s.terms|
  {
    && n in s.nodes && m in s.nodes
    && s.terms[i].topologyKey in s.nodes[n]
    && LabelOf(s.nodes[m], s.terms[i].topologyKey) == s.nodes[n][s.terms[i].topologyKey]
  }

  /** A worker on m keeps a worker off n. */
  predicate Conflicts(s: Site, n: string, m: string) {
    exists i :: 0 <= i < |s.terms| && SameDomain(s, i, n, m)
  }

  predicate CarriesKeys(s: Site) {
    forall n, i :: n in s.nodes && 0 <= i < |s.terms| ==> s.terms[i].topologyKey in s.nodes[n]
  }

  lemma ConflictsSymmetric(s: Site, n: string, m: string)
    requires CarriesKeys(s) && Conflicts(s, n, m)
    ensures Conflicts(s, m, n)
  {
    var i :| 0 <= i < |s.terms| && SameDomain(s, i, n, m);
    assert SameDomain(s, i, m, n);
  }

  /**
   The workers that count when the k-th node is looked at: existing ones not rejected before it, and new ones accepted
   before it.
   */
  predicate Blocks(workers: set<string>, order: seq<string>, accepted: set<string>, k: int, b: string)
    requires 0 <= k < |order|
  {
    && b != order[k]
    && ((b in workers && (b in order[..k] ==> b in accepted)) || (b in accepted && b in order[..k]))
  }

  ghost predicate Accepts(s: Site, workers: set<string>, order: seq<string>, accepted: set<string>, k: int)
    requires 0 <= k < |order|
  {
    order[k] in s.fit && forall b :: Blocks(workers, order, accepted, k, b) ==> !Conflicts(s, order[k], b)
  }

  /** The nodes accepted by the greedy pass over the order when the group has these workers. */
  ghost predicate IsPlacement(s: Site, workers: set<string>, order: seq<string>, accepted: set<string>) {
    && (forall n :: n in accepted ==> n in order)
    && forall k :: 0 <= k < |order| ==> (order[k] in accepted <==> Accepts(s, workers, order, accepted, k))
  }

  // ---------- the simulator places by conflicts ----------

  ghost predicate Uniform(g: Group, shape: string -> SchedPod, client: Client, s: Site) {
    && (forall n :: n in s.nodes ==> shape(n).affinity == [] && shape(n).antiAffinity == s.terms)
    && (forall i :: 0 <= i < |s.terms| ==> Listable(client, s.terms[i]))
    && forall n, i :: n in s.nodes && 0 <= i < |s.terms| ==> Selects(s.terms[i], Built(g, shape, n))
  }

  predicate IsWorkerOn(g: Group, n: string, q: SchedPod) {
    q.name == PodName(g, n) && q.nodeName == n
  }

  /** The terms match the group's workers on these nodes and else only foreign pods. */
  ghost predicate Deployed(g: Group, client: Client, s: Site, workers: set<string>, foreign: seq<SchedPod>) {
    && workers <= s.nodes.Keys
    && (forall q, i :: q in client.pods && 0 <= i < |s.terms| && InScope(s.terms[i], q) && q.nodeName in s.nodes ==>
          q in foreign || exists n :: n in workers && IsWorkerOn(g, n, q))
    && (forall q, n :: q in foreign && n in s.nodes ==> q in client.pods && q.name != PodName(g, n))
    && forall n, i :: n in workers && 0 <= i < |s.terms| ==>
         exists q :: q in client.pods && InScope(s.terms[i], q) && IsWorkerOn(g, n, q)
  }

  /** A foreign pod keeps workers off the node. */
  ghost predicate ForeignAt(s: Site, foreign: seq<SchedPod>, i: int, n: string)
    requires 0 <= i < |s.terms|
  {
    exists q :: q in foreign && InScope(s.terms[i], q) && SameDomain(s, i, n, q.nodeName)
  }

  ghost predicate FitsSite(shape: string -> SchedPod, s: Site, foreign: seq<SchedPod>) {
    forall n :: n in s.fit <==>
      n in s.nodes && n in shape(n).fits && forall i :: 0 <= i < |s.terms| ==> !ForeignAt(s, foreign, i, n)
  }

  /** The simulator after the first k nodes of the order. */
  ghost predicate Tracks(g: Group, shape: string -> SchedPod, order: seq<string>, k: nat, pass: Pass)
    requires k <= |order|
  {
    && (forall n :: n in pass.accepted ==> n in order[..k])
    && (forall q :: q in pass.view.pending <==> exists n :: n in pass.accepted && q == BoundTo(Built(g, shape, n), n))
    && forall name :: name in pass.view.deleted <==>
        exists n :: n in order[..k] && n !in pass.accepted && name == PodName(g, n)
  }

  /** Without affinity and with every listing answered, only an occupied domain keeps the pod off the node. */
  lemma {:induction false} AntiAffinityExactly(v: View, pod: SchedPod, node: Node, terms: seq<Term>)
    requires forall i :: 0 <= i < |terms| ==> Listable(v.client, terms[i])
    ensures PodAntiAffinity(v, pod, node, terms) ==
            if exists i :: 0 <= i < |terms| && OccupiedAt(v, pod, node, terms[i]) then No else Yes
  {
    hide Occupied, Listable;
    if terms != [] {
      var init := terms[..|terms| - 1];
      assert forall i :: 0 <= i < |init| ==> terms[i] == init[i];
      AntiAffinityExactly(v, pod, node, init);
      if OccupiedAt(v, pod, node, terms[|terms| - 1]) {
      } else if i :| 0 <= i < |terms| && OccupiedAt(v, pod, node, terms[i]) {
        assert OccupiedAt(v, pod, node, init[i]);
      }
    }
  }

  ghost predicate OccupiedAt(v: View, pod: SchedPod, node: Node, term: Term) {
    term.topologyKey in node.labels && Occupied(v, pod.name, term, node.labels[term.topologyKey])
  }

  /** What occupies the domain of the k-th node: a foreign pod, or a worker that counts. */
  lemma OccupiedExactly(g: Group, shape: string -> SchedPod, s: Site, workers: set<string>, foreign: seq<SchedPod>,
                        order: seq<string>, k: nat, pass: Pass, i: nat)
    requires k < |order| && Distinct(order) && (forall n :: n in order ==> n in s.nodes)
    requires i < |s.terms| && pass.view.nodes == s.nodes
    requires Uniform(g, shape, pass.view.client, s) && Deployed(g, pass.view.client, s, workers, foreign)
    requires Tracks(g, shape, order, k, pass)
    ensures OccupiedAt(pass.view, Built(g, shape, order[k]), Node(order[k], s.nodes[order[k]]), s.terms[i]) <==>
              ForeignAt(s, foreign, i, order[k])
              || exists b :: Blocks(workers, order, pass.accepted, k, b) && SameDomain(s, i, order[k], b)
  {
    var n, v, term := order[k], pass.view, s.terms[i];
    var pod, node := Built(g, shape, n), Node(n, s.nodes[n]);
    if OccupiedAt(v, pod, node, term) {
      var q :| IsMatch(v, pod.name, term, node.labels[term.topologyKey], q);
      MatchIsBlocked(g, shape, s, workers, foreign, order, k, pass, i, q);
    }
    if ForeignAt(s, foreign, i, n) {
      var q :| q in foreign && InScope(term, q) && SameDomain(s, i, n, q.nodeName);
      ForeignMatches(g, shape, s, workers, foreign, order, k, pass, i, q);
    }
    if b :| Blocks(workers, order, pass.accepted, k, b) && SameDomain(s, i, n, b) {
      BlockerMatches(g, shape, s, workers, foreign, order, k, pass, i, b);
    }
  }

  lemma MatchIsBlocked(g: Group, shape: string -> SchedPod, s: Site, workers: set<string>, foreign: seq<SchedPod>,
                       order: seq<string>, k: nat, pass: Pass, i: nat, q: SchedPod)
    requires k < |order| && (forall n :: n in order ==> n in s.nodes)
    requires i < |s.terms| && pass.view.nodes == s.nodes
    requires Deployed(g, pass.view.client, s, workers, foreign) && Tracks(g, shape, order, k, pass)
    requires s.terms[i].topologyKey in s.nodes[order[k]]
    requires IsMatch(pass.view, PodName(g, order[k]), s.terms[i], s.nodes[order[k]][s.terms[i].topologyKey], q)
    ensures ForeignAt(s, foreign, i, order[k])
            || exists b :: Blocks(workers, order, pass.accepted, k, b) && SameDomain(s, i, order[k], b)
  {
    var n := order[k];
    assert SameDomain(s, i, n, q.nodeName);
    if q in pass.view.pending {
      var b :| b in pass.accepted && q == BoundTo(Built(g, shape, b), b);
      assert Blocks(workers, order, pass.accepted, k, b);
    } else if q !in foreign {
      var b :| b in workers && IsWorkerOn(g, b, q);
      assert Blocks(workers, order, pass.accepted, k, b);
    }
  }

  lemma ForeignMatches(g: Group, shape: string -> SchedPod, s: Site, workers: set<string>, foreign: seq<SchedPod>,
                       order: seq<string>, k: nat, pass: Pass, i: nat, q: SchedPod)
    requires k < |order| && (forall n :: n in order ==> n in s.nodes)
    requires i < |s.terms| && pass.view.nodes == s.nodes
    requires Deployed(g, pass.view.client, s, workers, foreign) && Tracks(g, shape, order, k, pass)
    requires q in foreign && InScope(s.terms[i], q) && SameDomain(s, i, order[k], q.nodeName)
    ensures OccupiedAt(pass.view, Built(g, shape, order[k]), Node(order[k], s.nodes[order[k]]), s.terms[i])
  {
    forall m | m in order[..k] ensures q.name != PodName(g, m) {
      assert m in order;
    }
    assert IsMatch(pass.view, PodName(g, order[k]), s.terms[i], s.nodes[order[k]][s.terms[i].topologyKey], q);
  }

  lemma BlockerMatches(g: Group, shape: string -> SchedPod, s: Site, workers: set<string>, foreign: seq<SchedPod>,
                       order: seq<string>, k: nat, pass: Pass, i: nat, b: string)
    requires k < |order| && (forall n :: n in order ==> n in s.nodes)
    requires i < |s.terms| && pass.view.nodes == s.nodes
    requires Uniform(g, shape, pass.view.client, s) && Deployed(g, pass.view.client, s, workers, foreign)
    requires Tracks(g, shape, order, k, pass)
    requires Blocks(workers, order, pass.accepted, k, b) && SameDomain(s, i, order[k], b)
    ensures OccupiedAt(pass.view, Built(g, shape, order[k]), Node(order[k], s.nodes[order[k]]), s.terms[i])
  {
    var n, v, term := order[k], pass.view, s.terms[i];
    if PodName(g, b) == PodName(g, n) {
      PodNameInjective(g, b, n);
    }
    if b in pass.accepted && b in order[..k] {
      var q := BoundTo(Built(g, shape, b), b);
      assert q in v.pending;
      assert Selects(term, Built(g, shape, b));
      assert IsMatch(v, PodName(g, n), term, s.nodes[n][term.topologyKey], q);
    } else {
      var q :| q in v.client.pods && InScope(term, q) && IsWorkerOn(g, b, q);
      if q.name in v.deleted {
        var m :| m in order[..k] && m !in pass.accepted && q.name == PodName(g, m);
        PodNameInjective(g, b, m);
        assert false;
      }
      assert IsMatch(v, PodName(g, n), term, s.nodes[n][term.topologyKey], q);
    }
  }

  /** The verdict on the k-th node. */
  lemma VerdictExactly(g: Group, shape: string -> SchedPod, s: Site, workers: set<string>, foreign: seq<SchedPod>,
                       order: seq<string>, k: nat, pass: Pass)
    requires k < |order| && Distinct(order) && (forall n :: n in order ==> n in s.nodes)
    requires pass.view.nodes == s.nodes && FitsSite(shape, s, foreign)
    requires Uniform(g, shape, pass.view.client, s) && Deployed(g, pass.view.client, s, workers, foreign)
    requires Tracks(g, shape, order, k, pass)
    ensures CanSchedule(pass.view, Built(g, shape, order[k]), Node(order[k], s.nodes[order[k]])) ==
            if Accepts(s, workers, order, pass.accepted, k) then Yes else No
  {
    var n, v := order[k], pass.view;
    var pod, node := Built(g, shape, n), Node(n, s.nodes[n]);
    AntiAffinityExactly(v, pod, node, s.terms);
    forall i | 0 <= i < |s.terms|
      ensures OccupiedAt(v, pod, node, s.terms[i]) <==>
                || ForeignAt(s, foreign, i, n)
                || exists b :: Blocks(workers, order, pass.accepted, k, b) && SameDomain(s, i, n, b)
    {
      OccupiedExactly(g, shape, s, workers, foreign, order, k, pass, i);
    }
    assert pod.affinity == [] && pod.antiAffinity == s.terms && pod.fits == shape(n).fits;
    hide Deployed, Uniform, Tracks, OccupiedAt, ForeignAt, Blocks, SameDomain, Distinct;
    if i :| 0 <= i < |s.terms| && OccupiedAt(v, pod, node, s.terms[i]) && !ForeignAt(s, foreign, i, n) {
      var b :| Blocks(workers, order, pass.accepted, k, b) && SameDomain(s, i, n, b);
      assert Conflicts(s, n, b);
    }
    if b :| Blocks(workers, order, pass.accepted, k, b) && Conflicts(s, n, b) {
      var i :| 0 <= i < |s.terms| && SameDomain(s, i, n, b);
      assert OccupiedAt(v, pod, node, s.terms[i]);
    }
  }

  /** The simulator after one more node. */
  function NextPass(g: Group, shape: string -> SchedPod, n: string, pass: Pass, yes: bool): Pass {
    var pod := Built(g, shape, n);
    if yes then Pass(pass.view.(pending := pass.view.pending + [BoundTo(pod, n)]), pass.accepted + {n})
    else Pass(pass.view.(deleted := pass.view.deleted + {pod.name}), pass.accepted)
  }

  lemma SimulateNext(g: Group, shape: string -> SchedPod, v: View, order: seq<string>, k: nat, pass: Pass, yes: bool)
    requires k < |order| && (forall n :: n in order ==> n in v.nodes)
    requires Simulate(g, shape, v, order[..k]) == Some(pass)
    requires CanSchedule(pass.view, Built(g, shape, order[k]), Node(order[k], v.nodes[order[k]]))
             == if yes then Yes else No
    ensures Simulate(g, shape, v, order[..k + 1]) == Some(NextPass(g, shape, order[k], pass, yes))
  {
    hide CanSchedule, Built, BoundTo;
    assert order[..k + 1][..k] == order[..k];
  }

  lemma TracksNext(g: Group, shape: string -> SchedPod, order: seq<string>, k: nat, pass: Pass, yes: bool)
    requires k < |order| && Distinct(order) && Tracks(g, shape, order, k, pass)
    ensures Tracks(g, shape, order, k + 1, NextPass(g, shape, order[k], pass, yes))
  {
    var n, pod := order[k], Built(g, shape, order[k]);
    assert order[..k + 1] == order[..k] + [n];
    assert n !in order[..k];
    if yes {
      var pending := pass.view.pending + [BoundTo(pod, n)];
      forall q ensures q in pending <==> exists m :: m in pass.accepted + {n} && q == BoundTo(Built(g, shape, m), m) {
        if q in pending && q !in pass.view.pending {
          assert n in pass.accepted + {n};
        }
      }
    }
  }

  /** The first k nodes are decided as the greedy placement decides them. */
  ghost predicate Decided(s: Site, workers: set<string>, order: seq<string>, accepted: set<string>, k: nat)
    requires k <= |order|
  {
    forall j :: 0 <= j < k ==> (order[j] in accepted <==> Accepts(s, workers, order, accepted, j))
  }

  /** The pass of the simulator over an order is the greedy placement by conflicts. */
  lemma {:induction false} SimulatePlaces(g: Group, shape: string -> SchedPod, s: Site, workers: set<string>,
                                          foreign: seq<SchedPod>,
                                          client: Client, order: seq<string>, k: nat) returns (pass: Pass)
    requires k <= |order| && Distinct(order) && (forall n :: n in order ==> n in s.nodes)
    requires Uniform(g, shape, client, s) && Deployed(g, client, s, workers, foreign) && FitsSite(shape, s, foreign)
    ensures Simulate(g, shape, View(client, s.nodes, [], {}), order[..k]) == Some(pass)
    ensures pass.view.nodes == s.nodes && pass.view.client == client
    ensures Tracks(g, shape, order, k, pass) && Decided(s, workers, order, pass.accepted, k)
  {
    var v := View(client, s.nodes, [], {});
    if k == 0 {
      assert order[..0] == [];
      pass := Pass(v, {});
      return;
    }
    hide Uniform, Deployed, FitsSite, CanSchedule, Tracks, Decided, Accepts, Built, Simulate, Distinct;
    var before := SimulatePlaces(g, shape, s, workers, foreign, client, order, k - 1);
    VerdictExactly(g, shape, s, workers, foreign, order, k - 1, before);
    var yes := Accepts(s, workers, order, before.accepted, k - 1);
    pass := NextPass(g, shape, order[k - 1], before, yes);
    SimulateNext(g, shape, v, order, k - 1, before, yes);
    TracksNext(g, shape, order, k - 1, before, yes);
    AcceptedBefore(g, shape, order, k - 1, before);
    OneMoreDecided(s, workers, order, before.accepted, k - 1);
  }

  /** The nodes decided so far are decided as the greedy placement decides them, and so they are with one more. */
  lemma OneMoreDecided(s: Site, workers: set<string>, order: seq<string>, accepted: set<string>, k: nat)
    requires k < |order| && Distinct(order) && order[k] !in accepted
    requires Decided(s, workers, order, accepted, k)
    ensures Decided(s, workers, order,
                    if Accepts(s, workers, order, accepted, k) then accepted + {order[k]} else accepted, k + 1)
  {
    hide Accepts;
    forall j | 0 <= j < k + 1 ensures Accepts(s, workers, order, accepted + {order[k]}, j) <==>
        Accepts(s, workers, order, accepted, j) {
      LaterDoesNotMatter(s, workers, order, accepted, order[k], k, j);
    }
  }

  lemma AcceptedBefore(g: Group, shape: string -> SchedPod, order: seq<string>, k: nat, pass: Pass)
    requires k < |order| && Distinct(order) && Tracks(g, shape, order, k, pass)
    ensures order[k] !in pass.accepted
  {
  }

  /** Whether a node is accepted does not depend on nodes at or after it. */
  lemma LaterDoesNotMatter(s: Site, workers: set<string>, order: seq<string>, accepted: set<string>, n: string,
                           k: nat, j: nat)
    requires Distinct(order) && j <= k < |order| && n == order[k]
    ensures Accepts(s, workers, order, accepted + {n}, j) <==> Accepts(s, workers, order, accepted, j)
  {
    hide Conflicts;
    assert n !in order[..j];
    assert forall b :: Blocks(workers, order, accepted + {n}, j, b) <==> Blocks(workers, order, accepted, j, b);
  }

  /** The whole pass. */
  lemma PassIsPlacement(g: Group, shape: string -> SchedPod, s: Site, workers: set<string>, foreign: seq<SchedPod>,
                        client: Client, order: seq<string>) returns (pass: Pass)
    requires Distinct(order) && (forall n :: n in order ==> n in s.nodes)
    requires Uniform(g, shape, client, s) && Deployed(g, client, s, workers, foreign) && FitsSite(shape, s, foreign)
    ensures Simulate(g, shape, View(client, s.nodes, [], {}), order) == Some(pass)
    ensures IsPlacement(s, workers, order, pass.accepted)
  {
    pass := SimulatePlaces(g, shape, s, workers, foreign, client, order, |order|);
    assert order[..|order|] == order;
  }

  // ---------- which placements stay ----------

  /** Workers that fit, keep out of each other's way, and leave no node free of conflict. */
  ghost predicate IsKernel(s: Site, order: seq<string>, workers: set<string>) {
    && (forall n :: n in workers ==> n in s.fit)
    && (forall n, m :: n in workers && m in workers && n != m ==> !Conflicts(s, n, m))
    && forall n :: n in order && n in s.fit && n !in workers ==> exists m :: m in workers && Conflicts(s, n, m)
  }

  /** A placement stays exactly when it is such a set of nodes. */
  lemma StaysExactly(s: Site, workers: set<string>, order: seq<string>, accepted: set<string>)
    requires Distinct(order) && (forall n :: n in workers ==> n in order)
    requires IsPlacement(s, workers, order, accepted)
    ensures accepted == workers <==> IsKernel(s, order, workers)
  {
    hide Conflicts;
    if accepted == workers {
      StayingIsKernel(s, workers, order);
    }
    if IsKernel(s, order, workers) {
      KernelStays(s, workers, order, accepted, |order|);
      assert forall n :: n in order ==> exists k :: 0 <= k < |order| && order[k] == n;
    }
  }

  lemma StayingIsKernel(s: Site, workers: set<string>, order: seq<string>)
    requires Distinct(order) && (forall n :: n in workers ==> n in order)
    requires IsPlacement(s, workers, order, workers)
    ensures IsKernel(s, order, workers)
  {
    hide Conflicts;
    forall n, m | n in workers && m in workers && n != m ensures !Conflicts(s, n, m) {
      var k :| 0 <= k < |order| && order[k] == n;
      assert Accepts(s, workers, order, workers, k) && Blocks(workers, order, workers, k, m);
    }
    forall n | n in workers ensures n in s.fit {
      var k :| 0 <= k < |order| && order[k] == n;
      assert Accepts(s, workers, order, workers, k);
    }
    forall n | n in order && n in s.fit && n !in workers ensures exists m :: m in workers && Conflicts(s, n, m) {
      var k :| 0 <= k < |order| && order[k] == n;
      assert !Accepts(s, workers, order, workers, k);
      var b :| Blocks(workers, order, workers, k, b) && Conflicts(s, n, b);
      assert b in workers;
    }
  }

  lemma {:induction false} KernelStays(s: Site, workers: set<string>, order: seq<string>, accepted: set<string>, k: nat)
    requires Distinct(order) && IsPlacement(s, workers, order, accepted) && IsKernel(s, order, workers) && k <= |order|
    ensures forall j :: 0 <= j < k ==> (order[j] in accepted <==> order[j] in workers)
  {
    hide Conflicts;
    if k > 0 {
      KernelStays(s, workers, order, accepted, k - 1);
      var n := order[k - 1];
      forall b ensures Blocks(workers, order, accepted, k - 1, b) <==> b != n && b in workers {
        if b in order[..k - 1] {
          var j :| 0 <= j < k - 1 && order[j] == b;
        }
      }
      assert n in accepted <==> Accepts(s, workers, order, accepted, k - 1);
    }
  }

  // ---------- placements are free of conflicts ----------

  /** A node accepted after another is not in its way: the later one was checked against the earlier. */
  lemma LaterAvoidsEarlier(s: Site, workers: set<string>, order: seq<string>, accepted: set<string>, j: nat, k: nat)
    requires IsPlacement(s, workers, order, accepted) && j < k < |order| && Distinct(order)
    requires order[j] in accepted && order[k] in accepted
    ensures !Conflicts(s, order[k], order[j])
  {
    hide Conflicts;
    assert order[..k][j] == order[j];
    assert Blocks(workers, order, accepted, k, order[j]);
    assert Accepts(s, workers, order, accepted, k);
  }

  /**
   Where all nodes carry the keys, accepted nodes fit and are pairwise free of conflict, whatever workers there were.
   */
  lemma PlacedApart(s: Site, workers: set<string>, order: seq<string>, accepted: set<string>)
    requires IsPlacement(s, workers, order, accepted) && Distinct(order) && CarriesKeys(s)
    ensures forall n :: n in accepted ==> n in s.fit
    ensures forall n, m :: n in accepted && m in accepted && n != m ==> !Conflicts(s, n, m)
  {
    hide Conflicts, CarriesKeys;
    forall n | n in accepted ensures n in s.fit {
      var k :| 0 <= k < |order| && order[k] == n;
      assert Accepts(s, workers, order, accepted, k);
    }
    forall n, m | n in accepted && m in accepted && n != m ensures !Conflicts(s, n, m) {
      var k :| 0 <= k < |order| && order[k] == n;
      var j :| 0 <= j < |order| && order[j] == m;
      if j < k {
        LaterAvoidsEarlier(s, workers, order, accepted, j, k);
      } else {
        LaterAvoidsEarlier(s, workers, order, accepted, k, j);
        if Conflicts(s, n, m) {
          ConflictsSymmetric(s, n, m);
        }
      }
    }
  }

  /** From an empty cluster the first pass already reaches a placement that stays. */
  lemma FirstPlacementStays(s: Site, order: seq<string>, accepted: set<string>)
    requires IsPlacement(s, {}, order, accepted) && Distinct(order) && CarriesKeys(s)
    ensures IsKernel(s, order, accepted)
  {
    hide Conflicts, CarriesKeys;
    PlacedApart(s, {}, order, accepted);
    forall n | n in order && n in s.fit && n !in accepted ensures exists m :: m in accepted && Conflicts(s, n, m) {
      var k :| 0 <= k < |order| && order[k] == n;
      assert !Accepts(s, {}, order, accepted, k);
      var b :| Blocks({}, order, accepted, k, b) && Conflicts(s, n, b);
    }
  }

  /** Workers that fit and are free of conflict are never given up. */
  lemma {:induction false} ApartStays(s: Site, workers: set<string>, order: seq<string>, accepted: set<string>, k: nat)
    requires IsPlacement(s, workers, order, accepted) && Distinct(order) && CarriesKeys(s) && k <= |order|
    requires forall n :: n in workers ==> n in s.fit
    requires forall n, m :: n in workers && m in workers && n != m ==> !Conflicts(s, n, m)
    ensures forall j :: 0 <= j < k && order[j] in workers ==> order[j] in accepted
  {
    hide Conflicts, CarriesKeys;
    if k > 0 {
      ApartStays(s, workers, order, accepted, k - 1);
      var n := order[k - 1];
      if n in workers {
        forall b | Blocks(workers, order, accepted, k - 1, b) ensures !Conflicts(s, n, b) {
          if b !in workers {
            var j :| 0 <= j < k - 1 && order[j] == b;
            assert Accepts(s, workers, order, accepted, j);
            assert Blocks(workers, order, accepted, j, n) by {
              assert n !in order[..j];
            }
            if Conflicts(s, n, b) {
              ConflictsSymmetric(s, n, b);
            }
          }
        }
        assert Accepts(s, workers, order, accepted, k - 1);
      }
    }
  }

  /**
   Two passes settle every group: whatever workers there were, the second placement keeps all nodes of the first, and
   every pass after it returns exactly the second placement.
   */
  lemma SettlesInTwo(s: Site, workers: set<string>, order: seq<string>, first: set<string>, second: set<string>,
                     third: set<string>)
    requires Distinct(order) && CarriesKeys(s)
    requires IsPlacement(s, workers, order, first) && IsPlacement(s, first, order, second)
        && IsPlacement(s, second, order, third)
    ensures first <= second && third == second && IsKernel(s, order, second)
  {
    hide Conflicts, CarriesKeys;
    PlacedApart(s, workers, order, first);
    ApartStays(s, first, order, second, |order|);
    forall n | n in first ensures n in second {
      var k :| 0 <= k < |order| && order[k] == n;
    }
    PlacedApart(s, first, order, second);
    forall n | n in order && n in s.fit && n !in second ensures exists m :: m in second && Conflicts(s, n, m) {
      var k :| 0 <= k < |order| && order[k] == n;
      assert !Accepts(s, first, order, second, k);
      var b :| Blocks(first, order, second, k, b) && Conflicts(s, n, b);
    }
    StaysExactly(s, second, order, third);
  }

  // ---------- the simulator ----------

  /** No flapping: the simulator returns the nodes of the existing workers exactly when these are such a placement. */
  lemma NoFlapping(g: Group, shape: string -> SchedPod, s: Site, workers: set<string>, foreign: seq<SchedPod>,
                   client: Client, order: seq<string>) returns (pass: Pass)
    requires Distinct(order) && (forall n :: n in order ==> n in s.nodes) && (forall n :: n in workers ==> n in order)
    requires Uniform(g, shape, client, s) && Deployed(g, client, s, workers, foreign) && FitsSite(shape, s, foreign)
    ensures Simulate(g, shape, View(client, s.nodes, [], {}), order) == Some(pass)
    ensures pass.accepted == workers <==> IsKernel(s, order, workers)
  {
    hide Uniform, Deployed, FitsSite, IsPlacement, IsKernel;
    pass := PassIsPlacement(g, shape, s, workers, foreign, client, order);
    StaysExactly(s, workers, order, pass.accepted);
  }

  /** The cluster and what the simulator makes of it: its workers are on these nodes, and these nodes are accepted. */
  ghost predicate Places(g: Group, shape: string -> SchedPod, s: Site, foreign: seq<SchedPod>, order: seq<string>,
                         client: Client, workers: set<string>, accepted: set<string>)
    requires forall n :: n in order ==> n in s.nodes
  {
    && Uniform(g, shape, client, s) && Deployed(g, client, s, workers, foreign)
    && var pass := Simulate(g, shape, View(client, s.nodes, [], {}), order);
    pass.Some? && pass.value.accepted == accepted
  }

  /**
   Once the workers are on the nodes of a second pass, the simulator returns these nodes: the placement has settled.
   */
  lemma SimulatorSettles(g: Group, shape: string -> SchedPod, s: Site, foreign: seq<SchedPod>, order: seq<string>,
                         clients: (Client, Client, Client), workers: set<string>, first: set<string>,
                             second: set<string>, third: set<string>)
    requires Distinct(order) && (forall n :: n in order ==> n in s.nodes) && CarriesKeys(s)
        && FitsSite(shape, s, foreign)
    requires Places(g, shape, s, foreign, order, clients.0, workers, first)
    requires Places(g, shape, s, foreign, order, clients.1, first, second)
    requires Places(g, shape, s, foreign, order, clients.2, second, third)
    ensures first <= second == third
  {
    hide Uniform, Deployed, FitsSite, IsPlacement, IsKernel, CarriesKeys;
    var a := PassIsPlacement(g, shape, s, workers, foreign, clients.0, order);
    var b := PassIsPlacement(g, shape, s, first, foreign, clients.1, order);
    var c := PassIsPlacement(g, shape, s, second, foreign, clients.2, order);
    SettlesInTwo(s, workers, order, first, second, third);
  }
}
