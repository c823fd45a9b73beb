/** What the router's answers mean in terms of the nodes, the edges and the policy it was given:
    whom the gate keeps out, what it reports, and what an edge costs
    (packages/atlas_router/cost.py, packages/atlas_router/dijkstra.py). */
module RouterLaws {
  import opened Wrappers
  import opened Ordering
  import opened Rounding
  import opened Graph
  import opened RouterModel
  import opened RouterSearch
  import opened RouterSpec
  import opened Router
  import opened RouterTheorems

  // ------------------------------------------------------------------ the gate

  /** The policy lets a node be entered. */
  predicate Welcome(n: Node, p: Policy) {
    && (n.privacyLevel == Private ==> p.allowPrivateNodes)
    && (n.nodeType == AtlasPeer ==> p.allowAtlasPeers)
    && (n.nodeType == CloudBrain ==> p.allowCloudBrain)
    && (n.nodeType == GraphHub ==> p.allowGraphHub)
  }

  /** The risks of an edge are within the limits of the policy. */
  predicate WithinLimits(e: Edge, p: Policy) {
    && e.privacyRisk <= p.maxPrivacyRisk && e.licenseRisk <= p.maxLicenseRisk
    && (p.requirePublicOnly ==> e.privacyRisk == 0.0)
  }

  predicate Known(e: Edge, nodes: NodeMap) {
    e.sourceId in nodes && e.targetId in nodes
  }

  predicate Lawful(e: Edge, nodes: NodeMap, p: Policy) {
    Known(e, nodes) && WithinLimits(e, p) && Welcome(nodes[e.targetId], p)
  }

  /** The gate admits just the edges within the limits whose targets are welcome. */
  lemma AdmittedIsLawful(e: Edge, nodes: NodeMap, p: Policy)
    ensures Admitted(e, nodes, p) <==> Lawful(e, nodes, p)
  {
  }

  /** The condition a reason reports. */
  predicate Holds(why: Refusal, e: Edge, n: Node, p: Policy) {
    match why
    case PublicOnly => p.requirePublicOnly && e.privacyRisk > 0.0
    case PrivacyAboveLimit => e.privacyRisk > p.maxPrivacyRisk
    case LicenseAboveLimit => e.licenseRisk > p.maxLicenseRisk
    case PrivateNode => n.privacyLevel == Private && !p.allowPrivateNodes
    case AtlasPeerRefused => n.nodeType == AtlasPeer && !p.allowAtlasPeers
    case CloudBrainRefused => n.nodeType == CloudBrain && !p.allowCloudBrain
    case GraphHubRefused => n.nodeType == GraphHub && !p.allowGraphHub
  }

  const REASONS := [PublicOnly, PrivacyAboveLimit, LicenseAboveLimit, PrivateNode,
                    AtlasPeerRefused, CloudBrainRefused, GraphHubRefused]

  /** The `k`-th reason holds and no earlier one does. */
  predicate FirstReason(k: nat, e: Edge, n: Node, p: Policy) {
    k < |REASONS| && Holds(REASONS[k], e, n, p) && forall j | 0 <= j < k :: !Holds(REASONS[j], e, n, p)
  }

  function PlaceOf(why: Refusal): (k: nat)
    ensures k < |REASONS| && REASONS[k] == why
  {
    match why
    case PublicOnly => 0
    case PrivacyAboveLimit => 1
    case LicenseAboveLimit => 2
    case PrivateNode => 3
    case AtlasPeerRefused => 4
    case CloudBrainRefused => 5
    case GraphHubRefused => 6
  }

  lemma RefusedForFirstReason(e: Edge, p: Policy, n: Node)
    ensures CostOf(e, p, n).Refused? ==> FirstReason(PlaceOf(CostOf(e, p, n).reason), e, n, p)
  {
  }

  // ------------------------------------------------------------ what is reported

  /** The line reports this edge: an endpoint is missing, or the first reason against it. */
  predicate Reports(line: BlockedEdge, e: Edge, nodes: NodeMap, p: Policy) {
    match line
    case UnknownEndpoint(id) => id == e.edgeId && !Known(e, nodes)
    case ByPolicy(id, source, target, why) =>
      && id == e.edgeId && source == e.sourceId && target == e.targetId && Known(e, nodes)
      && FirstReason(PlaceOf(why), e, nodes[e.targetId], p)
  }

  /** The edges that break a rule, in order. */
  function Unlawful(es: seq<Edge>, nodes: NodeMap, p: Policy): seq<Edge> {
    if es == [] then []
    else Unlawful(Init(es), nodes, p) + if Lawful(Last(es), nodes, p) then [] else [Last(es)]
  }

  lemma {:induction false} BlockedAreUnlawful(es: seq<Edge>, nodes: NodeMap, p: Policy)
    ensures var lines, bad := BlockedOf(es, nodes, p), Unlawful(es, nodes, p);
      |lines| == |bad| && forall i | 0 <= i < |bad| :: Reports(lines[i], bad[i], nodes, p)
  {
    if es != [] {
      BlockedAreUnlawful(Init(es), nodes, p);
      var e := Last(es);
      AdmittedIsLawful(e, nodes, p);
      if Known(e, nodes) { RefusedForFirstReason(e, p, nodes[e.targetId]); }
    }
  }

  lemma {:induction false} UnlawfulElements(es: seq<Edge>, nodes: NodeMap, p: Policy, e: Edge)
    ensures e in Unlawful(es, nodes, p) <==> e in es && !Lawful(e, nodes, p)
  {
    if es != [] {
      UnlawfulElements(Init(es), nodes, p, e);
      assert es == Init(es) + [Last(es)];
    }
  }

  /** How often an edge occurs does not change: every unlawful one is reported as often as given. */
  lemma {:induction false} UnlawfulCount(es: seq<Edge>, nodes: NodeMap, p: Policy, e: Edge)
    ensures multiset(Unlawful(es, nodes, p))[e] == if Lawful(e, nodes, p) then 0 else multiset(es)[e]
  {
    if es != [] {
      var last := Last(es);
      UnlawfulCount(Init(es), nodes, p, e);
      assert es == Init(es) + [last];
      assert multiset(es)[e] == multiset(Init(es))[e] + if e == last then 1 else 0;
    }
  }

  /** By source, then by target, then by edge id. */
  predicate InOrder(a: Edge, b: Edge) {
    && !Less(b.sourceId, a.sourceId)
    && (a.sourceId == b.sourceId ==> !Less(b.targetId, a.targetId))
    && (a.sourceId == b.sourceId && a.targetId == b.targetId ==> !Less(b.edgeId, a.edgeId))
  }

  lemma {:induction false} UnlawfulSorted(es: seq<Edge>, nodes: NodeMap, p: Policy)
    requires Sorted(es)
    ensures forall i, j | 0 <= i < j < |Unlawful(es, nodes, p)| ::
              InOrder(Unlawful(es, nodes, p)[i], Unlawful(es, nodes, p)[j])
  {
    if es != [] {
      var before, last := Unlawful(Init(es), nodes, p), Last(es);
      UnlawfulSorted(Init(es), nodes, p);
      forall i | 0 <= i < |before| ensures InOrder(before[i], last) {
        UnlawfulElements(Init(es), nodes, p, before[i]);
        var k :| 0 <= k < |Init(es)| && Init(es)[k] == before[i];
        assert !EdgeLess(es[|es| - 1], es[k]);
      }
    }
  }

  /** The report lists the unlawful edges and no others, each as often as it was given, sorted, each
      with the first reason against it. */
  lemma BlockedExactly(ns: seq<Node>, edges: seq<Edge>, s: Id, t: Id, p: Policy, o: Outcome) returns (bad: seq<Edge>)
    requires Correct(ns, edges, s, t, p, o) && o.Answer?
    ensures |o.blocked| == |bad| && forall i | 0 <= i < |bad| :: Reports(o.blocked[i], bad[i], NodeMapOf(ns), p)
    ensures forall e :: multiset(bad)[e] == if Lawful(e, NodeMapOf(ns), p) then 0 else multiset(edges)[e]
    ensures forall i, j | 0 <= i < j < |bad| :: InOrder(bad[i], bad[j])
  {
    var nodes := NodeMapOf(ns);
    bad := Unlawful(SortEdges(edges), nodes, p);
    BlockedAreUnlawful(SortEdges(edges), nodes, p);
    SortSorts(edges);
    UnlawfulSorted(SortEdges(edges), nodes, p);
    forall e ensures multiset(bad)[e] == if Lawful(e, nodes, p) then 0 else multiset(edges)[e] {
      UnlawfulCount(SortEdges(edges), nodes, p, e);
    }
  }

  // --------------------------------------------------------------- the route itself

  /** A route in terms of the edges given: consecutive lawful edges from `s` to `t`. */
  ghost predicate Chain(edges: seq<Edge>, nodes: NodeMap, p: Policy, s: Id, t: Id, c: seq<Edge>)
    decreases |c|
  {
    if c == [] then s == t
    else
      && Last(c) in edges && Lawful(Last(c), nodes, p) && Last(c).targetId == t
      && Chain(edges, nodes, p, s, Last(c).sourceId, Init(c))
  }

  /** What the policy makes an edge cost. */
  function Price(e: Edge, nodes: NodeMap, p: Policy): nat
    requires Lawful(e, nodes, p)
  {
    AdmittedIsLawful(e, nodes, p);
    CostOf(e, p, nodes[e.targetId]).cost
  }

  ghost function Sum(edges: seq<Edge>, nodes: NodeMap, p: Policy, s: Id, t: Id, c: seq<Edge>): nat
    requires Chain(edges, nodes, p, s, t, c)
    decreases |c|
  {
    if c == [] then 0 else Sum(edges, nodes, p, s, Last(c).sourceId, Init(c)) + Price(Last(c), nodes, p)
  }

  lemma {:induction false} ChainIsWalk(edges: seq<Edge>, nodes: NodeMap, p: Policy, s: Id, t: Id, c: seq<Edge>)
    returns (w: seq<Arc>)
    requires Chain(edges, nodes, p, s, t, c)
    ensures IsWalk(AdmittedArcs(edges, nodes, p), s, t, w) && Cost(w) == Sum(edges, nodes, p, s, t, c)
    decreases |c|
  {
    w := [];
    if c != [] {
      var u := ChainIsWalk(edges, nodes, p, s, Last(c).sourceId, Init(c));
      AdmittedIsLawful(Last(c), nodes, p);
      var a := ArcOf(Last(c), nodes, p);
      w := u + [a];
      assert Init(w) == u && Last(w) == a;
    }
  }

  lemma {:induction false} WalkIsChain(edges: seq<Edge>, nodes: NodeMap, p: Policy, s: Id, t: Id, w: seq<Arc>)
    returns (c: seq<Edge>)
    requires IsWalk(AdmittedArcs(edges, nodes, p), s, t, w)
    ensures Chain(edges, nodes, p, s, t, c) && Sum(edges, nodes, p, s, t, c) == Cost(w) && |c| == |w|
    ensures forall i | 0 <= i < |c| :: c[i].edgeId == w[i].eid && c[i].targetId == w[i].dst
    decreases |w|
  {
    c := [];
    if w != [] {
      var d := WalkIsChain(edges, nodes, p, s, Last(w).src, Init(w));
      var e := EdgeBehind(edges, nodes, p, Last(w));
      ChainExtends(edges, nodes, p, s, d, e);
      c := d + [e];
    }
  }

  lemma EdgeBehind(edges: seq<Edge>, nodes: NodeMap, p: Policy, a: Arc) returns (e: Edge)
    requires a in AdmittedArcs(edges, nodes, p)
    ensures e in edges && Lawful(e, nodes, p) && Price(e, nodes, p) == a.cost
    ensures e.sourceId == a.src && e.targetId == a.dst && e.edgeId == a.eid
  {
    e :| e in edges && Admitted(e, nodes, p) && ArcOf(e, nodes, p) == a;
    AdmittedIsLawful(e, nodes, p);
  }

  lemma ChainExtends(edges: seq<Edge>, nodes: NodeMap, p: Policy, s: Id, c: seq<Edge>, e: Edge)
    requires Chain(edges, nodes, p, s, e.sourceId, c) && e in edges && Lawful(e, nodes, p)
    ensures Chain(edges, nodes, p, s, e.targetId, c + [e])
    ensures Sum(edges, nodes, p, s, e.targetId, c + [e])
            == Sum(edges, nodes, p, s, e.sourceId, c) + Price(e, nodes, p)
  {
    assert Init(c + [e]) == c && Last(c + [e]) == e;
  }

  lemma {:induction false} ChainEdges(edges: seq<Edge>, nodes: NodeMap, p: Policy, s: Id, t: Id, c: seq<Edge>, i: nat)
    requires Chain(edges, nodes, p, s, t, c) && i < |c|
    ensures c[i] in edges && Lawful(c[i], nodes, p) && c[i].sourceId == if i == 0 then s else c[i - 1].targetId
    ensures c[|c| - 1].targetId == t
    decreases |c|
  {
    if i < |c| - 1 {
      ChainEdges(edges, nodes, p, s, Last(c).sourceId, Init(c), i);
    } else if i > 0 {
      ChainEdges(edges, nodes, p, s, Last(c).sourceId, Init(c), i - 1);
    }
  }

  /** The `i`-th hop of the route is this edge: no limit is passed, and no refused node entered. */
  predicate LawfulHop(e: Edge, r: Route, i: nat, nodes: NodeMap, p: Policy)
    requires r.Found? && i < |r.edgeIds| && |r.path| == |r.edgeIds| + 1
  {
    && e.edgeId == r.edgeIds[i] && e.sourceId == r.path[i] && e.targetId == r.path[i + 1]
    && r.path[i] in nodes && r.path[i + 1] in nodes
    && WithinLimits(e, p) && Welcome(nodes[r.path[i + 1]], p)
  }

  /** A returned route follows given edges from source to target. None of them passes a limit, none
      of the nodes it enters is refused, and no chain of such edges is cheaper. */
  lemma RouteIsLawful(ns: seq<Node>, edges: seq<Edge>, s: Id, t: Id, p: Policy, o: Outcome) returns (c: seq<Edge>)
    requires Correct(ns, edges, s, t, p, o) && o.Answer? && o.route.Found?
    ensures |o.route.path| == |c| + 1 && |o.route.edgeIds| == |c| && o.route.path[0] == s && o.route.path[|c|] == t
    ensures forall i | 0 <= i < |c| :: c[i] in edges && LawfulHop(c[i], o.route, i, NodeMapOf(ns), p)
    ensures Chain(edges, NodeMapOf(ns), p, s, t, c) && Sum(edges, NodeMapOf(ns), p, s, t, c) == o.route.totalCost
    ensures forall d | Chain(edges, NodeMapOf(ns), p, s, t, d) ::
              o.route.totalCost <= Sum(edges, NodeMapOf(ns), p, s, t, d)
  {
    var nodes, g := NodeMapOf(ns), AdmittedArcs(edges, NodeMapOf(ns), p);
    var w: seq<Arc> :| IsBestRoute(g, s, t, o.route.path, o.route.edgeIds, o.route.totalCost, w);
    c := WalkIsChain(edges, nodes, p, s, t, w);
    NodesShape(s, w);
    forall i | 0 <= i < |c| ensures c[i] in edges && LawfulHop(c[i], o.route, i, nodes, p) {
      ChainEdges(edges, nodes, p, s, t, c, i);
      assert c[i].targetId == w[i].dst == Nodes(s, w)[i + 1] && c[i].edgeId == w[i].eid == EdgeIds(w)[i];
      if i > 0 { assert c[i - 1].targetId == w[i - 1].dst == Nodes(s, w)[(i - 1) + 1]; }
    }
    forall d | Chain(edges, nodes, p, s, t, d) ensures o.route.totalCost <= Sum(edges, nodes, p, s, t, d) {
      var v := ChainIsWalk(edges, nodes, p, s, t, d);
    }
  }

  /** Some chain of lawful edges leads from `s` to `t`. */
  ghost predicate Linked(edges: seq<Edge>, nodes: NodeMap, p: Policy, s: Id, t: Id) {
    exists c :: Chain(edges, nodes, p, s, t, c)
  }

  lemma WalksAreLinks(edges: seq<Edge>, nodes: NodeMap, p: Policy, s: Id, t: Id)
    requires Connected(AdmittedArcs(edges, nodes, p), s, t)
    ensures Linked(edges, nodes, p, s, t)
  {
    var w: seq<Arc> :| IsWalk(AdmittedArcs(edges, nodes, p), s, t, w);
    var c := WalkIsChain(edges, nodes, p, s, t, w);
  }

  lemma LinksAreWalks(edges: seq<Edge>, nodes: NodeMap, p: Policy, s: Id, t: Id)
    requires Linked(edges, nodes, p, s, t)
    ensures Connected(AdmittedArcs(edges, nodes, p), s, t)
  {
    var c: seq<Edge> :| Chain(edges, nodes, p, s, t, c);
    var w := ChainIsWalk(edges, nodes, p, s, t, c);
  }

  lemma NoRouteMeansUnlinked(edges: seq<Edge>, nodes: NodeMap, p: Policy, s: Id, t: Id, r: Route)
    requires Answers(AdmittedArcs(edges, nodes, p), s, t, r)
    ensures r.NoRoute? <==> !Linked(edges, nodes, p, s, t)
  {
    NeverReturnsIsConnected(AdmittedArcs(edges, nodes, p), s, t, r);
    if Linked(edges, nodes, p, s, t) { LinksAreWalks(edges, nodes, p, s, t); }
    if Connected(AdmittedArcs(edges, nodes, p), s, t) { WalksAreLinks(edges, nodes, p, s, t); }
  }

  /** `no_route` is answered just when no chain of lawful edges leads to the target. */
  lemma NoRouteExactly(ns: seq<Node>, edges: seq<Edge>, s: Id, t: Id, p: Policy, o: Outcome)
    requires Correct(ns, edges, s, t, p, o) && o.Answer?
    ensures o.route.NoRoute? <==> !Linked(edges, NodeMapOf(ns), p, s, t)
  {
    NoRouteMeansUnlinked(edges, NodeMapOf(ns), p, s, t, o.route);
  }

  /** Of several nodes with one id the last counts. */
  lemma {:induction false} LastNodeCounts(ns: seq<Node>, i: nat)
    requires i < |ns| && forall j | i < j < |ns| :: ns[j].nodeId != ns[i].nodeId
    ensures ns[i].nodeId in NodeMapOf(ns) && NodeMapOf(ns)[ns[i].nodeId] == ns[i]
  {
    if i < |ns| - 1 {
      assert Init(ns)[i] == ns[i];
      LastNodeCounts(Init(ns), i);
    }
  }

  // -------------------------------------------------------------------- prices

  /** An edge with nothing but a bandwidth cost of `k` units costs `k`, where no discount applies. */
  lemma BandwidthIsThePrice(e: Edge, nodes: NodeMap, p: Policy, k: nat)
    requires Lawful(e, nodes, p) && e.bandwidthCost == k as real / 1000000000.0
    requires e.latencyMs == 0.0 && e.computeCost == 0.0 && e.staleDataRisk == 0.0 && e.failureRisk == 0.0
    requires e.licenseRisk == 0.0 && e.privacyRisk == 0.0 && e.trustPenalty == 0.0
    requires !(p.preferLocal && nodes[e.targetId].nodeType in {LocalBrain, WorkingMemory})
    ensures Price(e, nodes, p) == k
  {
    assert RawCost(e) == e.bandwidthCost;
    assert e.bandwidthCost * 1000000000.0 == k as real;
    HalfEvenExact(k);
  }

  /** What the fields of an edge are worth, in terms of its bandwidth cost. */
  function Worth(e: Edge): real {
    e.bandwidthCost + e.computeCost + e.latencyMs / 1000.0 + e.failureRisk
    + 1.5 * e.staleDataRisk + 2.0 * e.licenseRisk + 3.0 * e.trustPenalty + 5.0 * e.privacyRisk
  }

  /** Every field weighs as much as stated: a second of latency, a unit of compute cost or of failure
      risk as much as a unit of bandwidth cost, and a unit of stale-data risk as much as 1.5, of
      license risk as 2, of trust penalty as 3 and of privacy risk as 5 of them. The price of an
      edge is its worth in billionths, less a tenth for a local target if local ones are preferred,
      to the nearest whole number. */
  lemma PriceIsWorth(e: Edge, nodes: NodeMap, p: Policy)
    requires Lawful(e, nodes, p)
    ensures var local := p.preferLocal && nodes[e.targetId].nodeType in {LocalBrain, WorkingMemory};
      var exact := Worth(e) * (if local then 900000000.0 else 1000000000.0);
      exact - 0.5 <= Price(e, nodes, p) as real <= exact + 0.5
  {
    var exact := Discounted(RawCost(e), p, nodes[e.targetId]) * 1000000000.0;
    assert RawCost(e) == Worth(e) >= 0.0;
    HalfEvenNear(exact);
    HalfEvenMonotone(0.0, exact);
  }

  /** Edges of the same worth into the same node cost the same. */
  lemma SameWorthSamePrice(e: Edge, f: Edge, nodes: NodeMap, p: Policy)
    requires Lawful(e, nodes, p) && Lawful(f, nodes, p) && e.targetId == f.targetId && Worth(e) == Worth(f)
    ensures Price(e, nodes, p) == Price(f, nodes, p)
  {
    assert RawCost(e) == RawCost(f);
  }
}
