/** What right answers of the router have in common: independence of edge order, monotonicity
    in the policy, the price of the local discount, and when the router fails to return. */
module RouterTheorems {
  import opened Ordering
  import opened Graph
  import opened RouterModel
  import opened RouterSearch
  import opened RouterSpec
  import opened Router

  // --------------------------------------------------------- order of the edges

  lemma SameArcs(e1: seq<Edge>, e2: seq<Edge>, nodes: NodeMap, p: Policy)
    requires multiset(e1) == multiset(e2)
    ensures AdmittedArcs(e1, nodes, p) == AdmittedArcs(e2, nodes, p)
  {
    forall e ensures e in e1 <==> e in e2 {
      assert e in multiset(e1) <==> e in multiset(e2);
    }
  }

  /** Reordering the edges changes neither path, nor edge ids, nor cost, nor whether the call returns. */
  lemma RouteIgnoresEdgeOrder(ns: seq<Node>, e1: seq<Edge>, e2: seq<Edge>, s: Id, t: Id, p: Policy, o1: Outcome,
                              o2: Outcome)
    requires multiset(e1) == multiset(e2)
    requires Correct(ns, e1, s, t, p, o1) && Correct(ns, e2, s, t, p, o2)
    ensures o1.Answer? <==> o2.Answer?
    ensures o1.Answer? ==> o1.route == o2.route && o1.safeToAttachToWorkingMemory == o2.safeToAttachToWorkingMemory
  {
    SameArcs(e1, e2, NodeMapOf(ns), p);
    if o1.Answer? && o2.Answer? {
      AnswerIsDetermined(AdmittedArcs(e1, NodeMapOf(ns), p), s, t, o1.route, o2.route);
    }
  }

  /** Edges that agree in source, target and id are the same edge. */
  ghost predicate KeysIdentify(es: seq<Edge>) {
    forall a, b | a in es && b in es
      && a.sourceId == b.sourceId && a.targetId == b.targetId && a.edgeId == b.edgeId :: a == b
  }

  ghost predicate Sorted(es: seq<Edge>) {
    forall i, j | 0 <= i < j < |es| :: !EdgeLess(es[j], es[i])
  }

  lemma EdgeTrichotomy(a: Edge, b: Edge)
    ensures
      || EdgeLess(a, b) || EdgeLess(b, a)
      || (a.sourceId == b.sourceId && a.targetId == b.targetId && a.edgeId == b.edgeId)
  {
    LessTotal(a.sourceId, b.sourceId);
    KeyTotal(Key(a.targetId, a.edgeId), Key(b.targetId, b.edgeId));
  }

  lemma EdgeTransitive(a: Edge, b: Edge, c: Edge)
    requires EdgeLess(a, b) && EdgeLess(b, c)
    ensures EdgeLess(a, c)
  {
    LessIrreflexive(a.sourceId);
    if a.sourceId == b.sourceId == c.sourceId {
      KeyTransitive(Key(a.targetId, a.edgeId), Key(b.targetId, b.edgeId), Key(c.targetId, c.edgeId));
    } else if Less(a.sourceId, b.sourceId) && Less(b.sourceId, c.sourceId) {
      LessTransitive(a.sourceId, b.sourceId, c.sourceId);
    }
  }

  lemma EdgeNotLessTransitive(a: Edge, b: Edge, c: Edge)
    requires !EdgeLess(b, a) && !EdgeLess(c, b)
    ensures !EdgeLess(c, a)
  {
    if EdgeLess(c, a) {
      EdgeTrichotomy(a, b);
      if EdgeLess(a, b) { EdgeTransitive(c, a, b); }
    }
  }

  lemma {:induction false} InsertSorted(e: Edge, es: seq<Edge>)
    requires Sorted(es)
    ensures Sorted(Insert(e, es))
  {
    var r := Insert(e, es);
    if es == [] {
    } else if !EdgeLess(es[0], e) {
      forall j | 0 < j < |r| ensures !EdgeLess(r[j], e) {
        if j > 1 { EdgeNotLessTransitive(e, es[0], es[j - 1]); }
      }
    } else {
      InsertSorted(e, es[1..]);
      EdgeTrichotomy(e, es[0]);
      forall j | 0 < j < |r| ensures !EdgeLess(r[j], es[0]) {
        assert r[j] in multiset(Insert(e, es[1..]));
        if r[j] == e {
          if EdgeLess(e, es[0]) { EdgeTransitive(e, es[0], e); EdgeIrreflexive(e); }
        } else {
          assert r[j] in es[1..];
        }
      }
    }
  }

  lemma EdgeIrreflexive(e: Edge)
    ensures !EdgeLess(e, e)
  {
    LessIrreflexive(e.sourceId);
    KeyIrreflexive(Key(e.targetId, e.edgeId));
  }

  lemma {:induction false} SortSorts(es: seq<Edge>)
    ensures Sorted(SortEdges(es))
  {
    if es != [] {
      SortSorts(es[1..]);
      InsertSorted(es[0], SortEdges(es[1..]));
    }
  }

  lemma SortedHead(a: seq<Edge>, b: seq<Edge>)
    requires a != [] && b != [] && Sorted(a) && Sorted(b) && KeysIdentify(a)
    requires forall e :: e in a <==> e in b
    ensures a[0] == b[0]
  {
    assert a[0] in b && b[0] in a;
    var i :| 0 <= i < |b| && b[i] == a[0];
    var j :| 0 <= j < |a| && a[j] == b[0];
    EdgeIrreflexive(a[0]);
    EdgeIrreflexive(b[0]);
    EdgeTrichotomy(a[0], b[0]);
    assert !EdgeLess(b[i], b[0]) && !EdgeLess(a[j], a[0]);
  }

  lemma TailOf(a: seq<Edge>)
    requires a != [] && Sorted(a) && KeysIdentify(a)
    ensures Sorted(a[1..]) && KeysIdentify(a[1..]) && multiset(a[1..]) == multiset(a) - multiset{a[0]}
  {
    assert a == [a[0]] + a[1..];
    assert forall e | e in a[1..] :: e in a;
  }

  lemma SameMembers<T>(a: seq<T>, b: seq<T>)
    requires multiset(a) == multiset(b)
    ensures |a| == |b| && forall x :: x in a <==> x in b
  {
    assert |multiset(a)| == |a| && |multiset(b)| == |b|;
    forall x ensures x in a <==> x in b {
      assert x in multiset(a) <==> x in multiset(b);
    }
  }

  lemma {:induction false} SortedIsUnique(a: seq<Edge>, b: seq<Edge>)
    requires Sorted(a) && Sorted(b) && multiset(a) == multiset(b) && KeysIdentify(a) && KeysIdentify(b)
    ensures a == b
  {
    SameMembers(a, b);
    if a != [] {
      SortedHead(a, b);
      TailOf(a);
      TailOf(b);
      SortedIsUnique(a[1..], b[1..]);
      assert a == [a[0]] + a[1..] && b == [b[0]] + b[1..];
    }
  }

  /** With identifying keys the whole result, blocked edges in order included, ignores edge order. */
  lemma OutcomeIgnoresEdgeOrder(ns: seq<Node>, e1: seq<Edge>, e2: seq<Edge>, s: Id, t: Id, p: Policy, o1: Outcome,
                                o2: Outcome)
    requires multiset(e1) == multiset(e2) && KeysIdentify(e1)
    requires Correct(ns, e1, s, t, p, o1) && Correct(ns, e2, s, t, p, o2)
    ensures o1 == o2
  {
    RouteIgnoresEdgeOrder(ns, e1, e2, s, t, p, o1, o2);
    SortSorts(e1);
    SortSorts(e2);
    forall e ensures (e in SortEdges(e1) <==> e in e1) && (e in SortEdges(e2) <==> e in e1) {
      SortKeepsElements(e1, e);
      SortKeepsElements(e2, e);
      assert e in multiset(e1) <==> e in multiset(e2);
    }
    SortedIsUnique(SortEdges(e1), SortEdges(e2));
  }

  // ------------------------------------------------------------------ policies

  /** Opening gates never cuts the target off, and no route returned with them open costs more. Whether
      one is still returned is another matter: `RouterTraps.OpeningAGateLosesTheRoute`. */
  lemma LooserPolicyCostsNoMore(ns: seq<Node>, edges: seq<Edge>, s: Id, t: Id, p: Policy, q: Policy, o: Outcome,
                                o': Outcome)
    requires Looser(q, p)
    requires Correct(ns, edges, s, t, p, o) && Correct(ns, edges, s, t, q, o') && o.Answer?
    ensures o'.Answer? && (o'.route.NoRoute? ==> o.route.NoRoute?)
    ensures o.route.Found? && o'.route.Found? ==> o'.route.totalCost <= o.route.totalCost
  {
    var nodes := NodeMapOf(ns);
    LooserAdmitsMore(edges, nodes, p, q);
    MoreArcsCostNoMore(AdmittedArcs(edges, nodes, p), AdmittedArcs(edges, nodes, q), s, t, o.route, o'.route);
  }

  /** A route found before the gates were opened is followed by one at no higher cost if no free
      closed chain of tight edges then leads into the target. */
  lemma LooserPolicyKeepsRoute(ns: seq<Node>, edges: seq<Edge>, s: Id, t: Id, p: Policy, q: Policy, o: Outcome,
                               o': Outcome)
    requires Looser(q, p)
    requires Correct(ns, edges, s, t, p, o) && Correct(ns, edges, s, t, q, o') && o.Answer? && o.route.Found?
    requires !FreeTightCircle(AdmittedArcs(edges, NodeMapOf(ns), q), s, t)
    ensures o'.Answer? && o'.route.Found? && o'.route.totalCost <= o.route.totalCost
  {
    LooserPolicyCostsNoMore(ns, edges, s, t, p, q, o, o');
    ReturnsWithoutFreeTightCircle(AdmittedArcs(edges, NodeMapOf(ns), q), s, t, o'.route);
  }

  /** For a target that no edge enters for free the route is lost exactly when the edges then
      admitted hold a closed chain of least tight ones that leads into the target. */
  lemma LooserPolicyLosesRouteExactly(ns: seq<Node>, edges: seq<Edge>, s: Id, t: Id, p: Policy, q: Policy, o: Outcome,
                                      o': Outcome)
    requires Looser(q, p)
    requires Correct(ns, edges, s, t, p, o) && Correct(ns, edges, s, t, q, o') && o.Answer? && o.route.Found?
    requires Strict(AdmittedArcs(edges, NodeMapOf(ns), q), t)
    ensures o'.Answer? && (o'.route.Found? <==> !Circular(AdmittedArcs(edges, NodeMapOf(ns), q), s, t))
  {
    LooserPolicyCostsNoMore(ns, edges, s, t, p, q, o, o');
    NeverReturnsExactly(AdmittedArcs(edges, NodeMapOf(ns), q), s, t, o'.route);
  }

  /** Every admitted arc has a twin under the discount. */
  lemma DiscountTwin(edges: seq<Edge>, nodes: NodeMap, p: Policy, q: Policy, a: Arc) returns (b: Arc)
    requires (!p.preferLocal && q == p.(preferLocal := true)) || (p.preferLocal && q == p.(preferLocal := false))
    requires a in AdmittedArcs(edges, nodes, p)
    ensures b in AdmittedArcs(edges, nodes, q) && b.src == a.src && b.dst == a.dst && b.eid == a.eid
    ensures !p.preferLocal ==> b.cost <= a.cost
    ensures p.preferLocal ==> 9 * b.cost <= 10 * a.cost + 9
  {
    var e :| e in edges && Admitted(e, nodes, p) && ArcOf(e, nodes, p) == a;
    assert Admitted(e, nodes, q);
    b := ArcOf(e, nodes, q);
    if p.preferLocal {
      assert p == q.(preferLocal := true);
      DiscountBounds(e, q, nodes[e.targetId]);
    } else {
      DiscountBounds(e, p, nodes[e.targetId]);
    }
  }

  lemma {:induction false} DiscountWalk(edges: seq<Edge>, nodes: NodeMap, p: Policy, q: Policy, s: Id, t: Id,
                                        w: seq<Arc>)
    returns (v: seq<Arc>)
    requires (!p.preferLocal && q == p.(preferLocal := true)) || (p.preferLocal && q == p.(preferLocal := false))
    requires IsWalk(AdmittedArcs(edges, nodes, p), s, t, w)
    ensures IsWalk(AdmittedArcs(edges, nodes, q), s, t, v)
    ensures !p.preferLocal ==> Cost(v) <= Cost(w)
    ensures p.preferLocal ==> 9 * Cost(v) <= 10 * Cost(w) + 9 * |w|
    decreases |w|
  {
    if w == [] {
      v := [];
    } else {
      var u := DiscountWalk(edges, nodes, p, q, s, Last(w).src, Init(w));
      var b := DiscountTwin(edges, nodes, p, q, Last(w));
      v := u + [b];
      assert Init(v) == u;
    }
  }

  /** Preferring local nodes changes no reachability, and a route returned with it costs no more and
      at least nine tenths, up to one unit for each of its edges. Rounding may make an edge free and
      so lose the route: `RouterTraps.PreferringLocalLosesTheRoute`. */
  lemma LocalDiscountBounds(ns: seq<Node>, edges: seq<Edge>, s: Id, t: Id, p: Policy, o: Outcome, o': Outcome)
    requires !p.preferLocal
    requires Correct(ns, edges, s, t, p, o) && Correct(ns, edges, s, t, p.(preferLocal := true), o') && o.Answer?
    ensures o'.Answer? && (o.route.NoRoute? <==> o'.route.NoRoute?)
    ensures o.route.Found? && o'.route.Found? ==>
      && o'.route.totalCost <= o.route.totalCost
      && 9 * o.route.totalCost <= 10 * o'.route.totalCost + 9 * |o'.route.edgeIds|
  {
    var nodes, q: Policy := NodeMapOf(ns), p.(preferLocal := true);
    var g, h := AdmittedArcs(edges, nodes, p), AdmittedArcs(edges, nodes, q);
    assert p == q.(preferLocal := false);
    if Connected(g, s, t) {
      var w :| IsWalk(g, s, t, w);
      var v := DiscountWalk(edges, nodes, p, q, s, t, w);
    }
    if Connected(h, s, t) {
      var w :| IsWalk(h, s, t, w);
      var v := DiscountWalk(edges, nodes, q, p, s, t, w);
    }
    NeverReturnsIsConnected(g, s, t, o.route);
    NeverReturnsIsConnected(h, s, t, o'.route);
    if o.route.Found? && o'.route.Found? {
      var w :| IsBestRoute(g, s, t, o.route.path, o.route.edgeIds, o.route.totalCost, w);
      var v := DiscountWalk(edges, nodes, p, q, s, t, w);
      var w' :| IsBestRoute(h, s, t, o'.route.path, o'.route.edgeIds, o'.route.totalCost, w');
      var v' := DiscountWalk(edges, nodes, q, p, s, t, w');
      NodesShape(s, w');
    }
  }

  /** The route is not lost if at the discounted prices no free closed chain of tight edges leads
      into the target. */
  lemma LocalDiscountKeepsRoute(ns: seq<Node>, edges: seq<Edge>, s: Id, t: Id, p: Policy, o: Outcome, o': Outcome)
    requires !p.preferLocal
    requires Correct(ns, edges, s, t, p, o) && Correct(ns, edges, s, t, p.(preferLocal := true), o') && o.Answer?
            && o.route.Found?
    requires !FreeTightCircle(AdmittedArcs(edges, NodeMapOf(ns), p.(preferLocal := true)), s, t)
    ensures o'.Answer? && o'.route.Found? && o'.route.totalCost <= o.route.totalCost
    ensures 9 * o.route.totalCost <= 10 * o'.route.totalCost + 9 * |o'.route.edgeIds|
  {
    LocalDiscountBounds(ns, edges, s, t, p, o, o');
    ReturnsWithoutFreeTightCircle(AdmittedArcs(edges, NodeMapOf(ns), p.(preferLocal := true)), s, t, o'.route);
  }

  /** For a target that no discounted edge enters for free it is lost exactly when the discounted
      edges hold a closed chain of least tight ones that leads into the target. */
  lemma LocalDiscountLosesRouteExactly(ns: seq<Node>, edges: seq<Edge>, s: Id, t: Id, p: Policy, o: Outcome,
                                       o': Outcome)
    requires !p.preferLocal
    requires Correct(ns, edges, s, t, p, o) && Correct(ns, edges, s, t, p.(preferLocal := true), o') && o.Answer?
            && o.route.Found?
    requires Strict(AdmittedArcs(edges, NodeMapOf(ns), p.(preferLocal := true)), t)
    ensures o'.Answer?
    ensures o'.route.Found? <==> !Circular(AdmittedArcs(edges, NodeMapOf(ns), p.(preferLocal := true)), s, t)
  {
    LocalDiscountBounds(ns, edges, s, t, p, o, o');
    NeverReturnsExactly(AdmittedArcs(edges, NodeMapOf(ns), p.(preferLocal := true)), s, t, o'.route);
  }

  lemma NeverReturnsIsConnected(g: set<Arc>, s: Id, t: Id, r: Route)
    requires Answers(g, s, t, r)
    ensures r.NoRoute? <==> !Connected(g, s, t)
  {
    if r.NeverReturns? {
      var x, cycle, tail :| IsTrap(g, s, t, x, cycle, tail);
    }
    if r.Found? {
      var w :| IsBestRoute(g, s, t, r.path, r.edgeIds, r.totalCost, w);
    }
  }

  // ------------------------------------------------------------ termination

  /** If every admitted edge costs at least one unit the router returns, with a route exactly
      when there is one, and the source validated endpoints are the only other way out. */
  lemma PositiveCostsAlwaysReturn(ns: seq<Node>, edges: seq<Edge>, s: Id, t: Id, p: Policy, o: Outcome)
    requires Correct(ns, edges, s, t, p, o) && o.Answer?
    requires forall e | e in edges && Admitted(e, NodeMapOf(ns), p) :: ArcOf(e, NodeMapOf(ns), p).cost > 0
    ensures o.route.Found? <==> Connected(AdmittedArcs(edges, NodeMapOf(ns), p), s, t)
    ensures !o.route.NeverReturns?
  {
    var g := AdmittedArcs(edges, NodeMapOf(ns), p);
    PositiveArcsNoFreeCycle(g);
    ReturnsWithoutFreeCycles(g, s, t, o.route);
  }
}
