/** What an answer of the router means on the admitted graph, and what follows from it. */
module RouterSpec {
  import opened Wrappers
  import opened Ordering
  import opened Graph
  import opened RouterSearch
  import opened RouterRun

  /** `NeverReturns` stands for the back-walk going round a closed chain of `previous` for ever. */
  datatype Route =
    | Found(path: seq<Id>, edgeIds: seq<Id>, totalCost: nat)
    | NoRoute
    | NeverReturns

  /** The reported lists are one simple cheapest walk, the one that `previous` holds; it is the
      canonical one whenever no admitted edge enters the target for free. */
  ghost predicate IsBestRoute(g: set<Arc>, s: Id, t: Id, path: seq<Id>, edgeIds: seq<Id>, cost: nat, w: seq<Arc>) {
    && IsWalk(g, s, t, w) && path == Nodes(s, w) && edgeIds == EdgeIds(w) && Cost(w) == cost
    && Shortest(g, s, t, cost) && NoRepeats(path) && Chosen(g, s, t, w)
    && (Strict(g, t) ==> Canonical(g, s, w))
  }

  /** A closed chain of free, tight arcs from which tight arcs lead on to the target, all of them
      in `previous`. */
  ghost predicate IsTrap(g: set<Arc>, s: Id, t: Id, x: Id, cycle: seq<Arc>, tail: seq<Arc>) {
    && IsLasso(g, x, t, cycle, tail) && Cost(cycle) == 0 && Connected(g, s, t)
    && Chosen(g, s, t, cycle + tail)
    && (forall a | a in cycle + tail :: Tight(g, s, a) && a.dst != s)
    && (Strict(g, t) ==> Canonical(g, s, cycle) && Canonical(g, s, tail))
  }

  ghost predicate Answers(g: set<Arc>, s: Id, t: Id, r: Route) {
    match r
    case NoRoute => !Connected(g, s, t)
    case Found(path, edgeIds, cost) => exists w :: IsBestRoute(g, s, t, path, edgeIds, cost, w)
    case NeverReturns => exists x, cycle, tail :: IsTrap(g, s, t, x, cycle, tail)
  }

  /** The guard a caller can check: no admitted closed walk is free. */
  ghost predicate NoFreeCycle(g: set<Arc>) {
    forall x, w | w != [] && IsWalk(g, x, x, w) :: Cost(w) > 0
  }

  lemma {:induction false} PositiveArcsNoFreeCycle(g: set<Arc>)
    requires forall a | a in g :: a.cost > 0
    ensures NoFreeCycle(g)
  {
    forall x, w | w != [] && IsWalk(g, x, x, w) ensures Cost(w) > 0 {
      assert Last(w) in g;
    }
  }

  /** Without free cycles the router returns, and finds a route exactly when there is one. */
  lemma ReturnsWithoutFreeCycles(g: set<Arc>, s: Id, t: Id, r: Route)
    requires Answers(g, s, t, r) && NoFreeCycle(g)
    ensures r.Found? <==> Connected(g, s, t)
    ensures r.NoRoute? <==> !Connected(g, s, t)
  {
  }

  /** A free closed chain of tight arcs from which tight arcs lead on to `t`. */
  ghost predicate FreeTightCircle(g: set<Arc>, s: Id, t: Id) {
    exists x, cycle, tail ::
      IsLasso(g, x, t, cycle, tail) && Cost(cycle) == 0 && forall a | a in cycle + tail :: Tight(g, s, a)
  }

  /** On every graph: unless such a chain leads into the target, the router returns, and finds a
      route exactly when there is one. Free cycles anywhere else do no harm. */
  lemma ReturnsWithoutFreeTightCircle(g: set<Arc>, s: Id, t: Id, r: Route)
    requires Answers(g, s, t, r) && !FreeTightCircle(g, s, t)
    ensures r.Found? <==> Connected(g, s, t)
    ensures r.NoRoute? <==> !Connected(g, s, t)
  {
  }

  /** Where no cycle is free there is no such chain. */
  lemma NoFreeCycleNoCircle(g: set<Arc>, s: Id, t: Id)
    requires NoFreeCycle(g)
    ensures !FreeTightCircle(g, s, t)
  {
  }

  /** A closed chain of least tight arcs leads into `t`. */
  ghost predicate Circular(g: set<Arc>, s: Id, t: Id) {
    exists x, cycle, tail :: IsLasso(g, x, t, cycle, tail) && Canonical(g, s, cycle) && Canonical(g, s, tail)
  }

  /** When no edge enters the target for free, the back-walk fails to end exactly on the graphs
      in which some closed chain of least tight arcs leads into the target. */
  lemma NeverReturnsExactly(g: set<Arc>, s: Id, t: Id, r: Route)
    requires Answers(g, s, t, r) && Strict(g, t)
    ensures r.NeverReturns? <==> Circular(g, s, t)
  {
    if r.NeverReturns? {
      var x, cycle, tail :| IsTrap(g, s, t, x, cycle, tail);
      assert IsLasso(g, x, t, cycle, tail) && Canonical(g, s, cycle) && Canonical(g, s, tail);
    }
    if Circular(g, s, t) {
      var x, cycle, tail :| IsLasso(g, x, t, cycle, tail) && Canonical(g, s, cycle) && Canonical(g, s, tail);
      match r
      case NeverReturns =>
      case NoRoute =>
        var a := if tail == [] then Last(cycle) else Last(tail);
        assert a in cycle || a in tail;
        assert Tight(g, s, a) && a.dst == t;
        assert Connected(g, s, t);
      case Found(path, edgeIds, cost) =>
        var w :| IsBestRoute(g, s, t, path, edgeIds, cost, w);
        NoCanonicalWalkAndLasso(g, s, x, t, w, cycle, tail);
    }
  }

  lemma NotFoundAndNever(g: set<Arc>, s: Id, t: Id, r: Route, q: Route)
    requires Answers(g, s, t, r) && Answers(g, s, t, q) && r.Found?
    ensures q.Found?
  {
    var w :| IsBestRoute(g, s, t, r.path, r.edgeIds, r.totalCost, w);
    if q.NeverReturns? {
      var x, cycle, tail :| IsTrap(g, s, t, x, cycle, tail);
      ChosenNotBoth(g, s, t, w, x, cycle, tail);
    }
  }

  /** On every graph: the router returns a route exactly when `previous` leads back to the source,
      and goes round for ever exactly when a closed chain of it leads into the target. */
  lemma ReturnsExactly(g: set<Arc>, s: Id, t: Id, r: Route)
    requires Answers(g, s, t, r)
    ensures r.Found? <==> exists w :: IsWalk(g, s, t, w) && Chosen(g, s, t, w)
    ensures r.NeverReturns? <==> exists x, cycle, tail :: IsLasso(g, x, t, cycle, tail) && Chosen(g, s, t, cycle + tail)
  {
    if r.Found? {
      var w :| IsBestRoute(g, s, t, r.path, r.edgeIds, r.totalCost, w);
      forall x, cycle, tail ensures !(IsLasso(g, x, t, cycle, tail) && Chosen(g, s, t, cycle + tail)) {
        ChosenNotBoth(g, s, t, w, x, cycle, tail);
      }
    } else if r.NeverReturns? {
      var x, cycle, tail :| IsTrap(g, s, t, x, cycle, tail);
      forall w ensures !(IsWalk(g, s, t, w) && Chosen(g, s, t, w)) {
        if IsWalk(g, s, t, w) && Chosen(g, s, t, w) { ChosenNotBoth(g, s, t, w, x, cycle, tail); }
      }
    } else {
      forall x | Final(g, s, t, x) ensures false { FinalConnected(g, s, t, x); }
    }
  }

  /** The admitted graph alone decides the answer, free edges and ties included. */
  lemma AnswerIsDetermined(g: set<Arc>, s: Id, t: Id, r: Route, q: Route)
    requires Answers(g, s, t, r) && Answers(g, s, t, q)
    ensures r == q
  {
    if r.Found? {
      NotFoundAndNever(g, s, t, r, q);
      var w :| IsBestRoute(g, s, t, r.path, r.edgeIds, r.totalCost, w);
      var v :| IsBestRoute(g, s, t, q.path, q.edgeIds, q.totalCost, v);
      ChosenUnique(g, s, t, w, v);
    } else if q.Found? {
      NotFoundAndNever(g, s, t, q, r);
    }
  }

  /** More arcs never cut the target off, and no route returned with them costs more. */
  lemma MoreArcsCostNoMore(g: set<Arc>, h: set<Arc>, s: Id, t: Id, r: Route, q: Route)
    requires g <= h && Answers(g, s, t, r) && Answers(h, s, t, q)
    ensures q.NoRoute? ==> r.NoRoute?
    ensures r.Found? && q.Found? ==> q.totalCost <= r.totalCost
  {
    if Connected(g, s, t) {
      var w :| IsWalk(g, s, t, w);
      WalkInLarger(g, h, s, t, w);
    }
    if r.Found? && q.Found? {
      var w :| IsBestRoute(g, s, t, r.path, r.edgeIds, r.totalCost, w);
      WalkInLarger(g, h, s, t, w);
    }
    if r.NeverReturns? {
      var x, cycle, tail :| IsTrap(g, s, t, x, cycle, tail);
    }
  }

  lemma {:induction false} WalkInLarger(g: set<Arc>, h: set<Arc>, s: Id, t: Id, w: seq<Arc>)
    requires g <= h && IsWalk(g, s, t, w)
    ensures IsWalk(h, s, t, w)
    decreases |w|
  {
    if w != [] { WalkInLarger(g, h, s, Last(w).src, Init(w)); }
  }
}
