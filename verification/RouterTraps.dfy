/** Small inputs on which the tie-break closes a chain of `previous`, so that a route exists and is
    never returned (packages/atlas_router/dijkstra.py). */
module RouterTraps {
  import opened Ordering
  import opened Graph
  import opened RouterModel
  import opened RouterSearch
  import opened RouterSpec
  import opened Router
  import opened RouterTheorems

  // -------------------------------------------------------- the family of graphs

  /** Source `z` pays to enter `b`, `b` and `a` are joined for free, and `b` pays to enter `t`. */
  ghost predicate TrapShape(z: Id, a: Id, b: Id, t: Id, zb: Arc, ba: Arc, ab: Arc, bt: Arc) {
    && z != a && z != b && z != t && a != b && a != t && b != t
    && zb.src == z && zb.dst == b && zb.cost > 0 && ba.src == b && ba.dst == a && ba.cost == 0
    && ab.src == a && ab.dst == b && ab.cost == 0 && bt.src == b && bt.dst == t && bt.cost > 0
  }

  lemma TrapDistances(z: Id, a: Id, b: Id, t: Id, zb: Arc, ba: Arc, ab: Arc, bt: Arc)
    requires TrapShape(z, a, b, t, zb, ba, ab, bt)
    ensures var g := {zb, ba, ab, bt};
      && Shortest(g, z, z, 0) && Shortest(g, z, b, zb.cost)
      && Shortest(g, z, a, zb.cost) && Shortest(g, z, t, zb.cost + bt.cost)
  {
    var g := {zb, ba, ab, bt};
    var phi: map<Id, int> := map[z := 0, b := zb.cost, a := zb.cost, t := zb.cost + bt.cost];
    assert IsWalk(g, z, z, []) && Cost([]) == 0;
    ReachedStep(g, z, zb, 0);
    ReachedStep(g, z, ba, zb.cost);
    ReachedStep(g, z, bt, zb.cost);
    forall v, w | v in phi && IsWalk(g, z, v, w) ensures phi[v] <= Cost(w) {
      PotentialBound(g, z, v, w, phi);
    }
  }

  lemma TightFrom(g: set<Arc>, s: Id, x: Arc, d: nat)
    requires x in g && Shortest(g, s, x.src, d) && Shortest(g, s, x.dst, d + x.cost)
    ensures Tight(g, s, x) && Connected(g, s, x.dst)
  {
  }

  lemma FirstTight(g: set<Arc>, s: Id, x: Arc)
    requires Tight(g, s, x) && forall y | y in g && y.dst == x.dst :: y == x || Less(x.src, y.src)
    ensures LeastTight(g, s, x)
  {
    forall y | y in g && y.dst == x.dst ensures !KeyLess(y.Label(), x.Label()) {
      KeyIrreflexive(x.Label());
      if KeyLess(y.Label(), x.Label()) { KeyTransitive(x.Label(), y.Label(), x.Label()); }
    }
  }

  lemma TrapTight(z: Id, a: Id, b: Id, t: Id, zb: Arc, ba: Arc, ab: Arc, bt: Arc)
    requires TrapShape(z, a, b, t, zb, ba, ab, bt)
    ensures var g := {zb, ba, ab, bt};
      Tight(g, z, ba) && Tight(g, z, ab) && Tight(g, z, bt) && Connected(g, z, t)
  {
    var g := {zb, ba, ab, bt};
    TrapDistances(z, a, b, t, zb, ba, ab, bt);
    TightFrom(g, z, ba, zb.cost);
    TightFrom(g, z, ab, zb.cost);
    TightFrom(g, z, bt, zb.cost);
  }

  /** Whenever `a` sorts before the source, the tie-break turns `b` back towards `a`. */
  lemma TrapLeast(z: Id, a: Id, b: Id, t: Id, zb: Arc, ba: Arc, ab: Arc, bt: Arc)
    requires TrapShape(z, a, b, t, zb, ba, ab, bt) && Less(a, z)
    ensures var g := {zb, ba, ab, bt};
      LeastTight(g, z, ba) && LeastTight(g, z, ab) && LeastTight(g, z, bt) && Connected(g, z, t)
  {
    var g := {zb, ba, ab, bt};
    TrapTight(z, a, b, t, zb, ba, ab, bt);
    FirstTight(g, z, ba);
    FirstTight(g, z, ab);
    FirstTight(g, z, bt);
  }

  lemma TwoArcLasso(g: set<Arc>, there: Arc, back: Arc, out: Arc)
    requires there in g && back in g && out in g
    requires there.dst == back.src && back.dst == there.src && out.src == there.src
    ensures IsLasso(g, out.src, out.dst, [there] + [back], [out])
  {
    ArcWalk(g, there);
    ArcWalk(g, back);
    ArcWalk(g, out);
    WalkAppend(g, there.src, back.src, there.src, [there], [back]);
  }

  lemma CanonicalLasso(g: set<Arc>, s: Id, there: Arc, back: Arc, out: Arc)
    requires LeastTight(g, s, there) && LeastTight(g, s, back) && LeastTight(g, s, out)
    requires there.dst != s && back.dst != s && out.dst != s
    ensures Canonical(g, s, [there] + [back]) && Canonical(g, s, [out])
  {
  }

  lemma TrapIsCanonical(z: Id, a: Id, b: Id, t: Id, zb: Arc, ba: Arc, ab: Arc, bt: Arc)
    requires TrapShape(z, a, b, t, zb, ba, ab, bt) && Less(a, z)
    ensures var g := {zb, ba, ab, bt};
      && IsLasso(g, b, t, [ba] + [ab], [bt])
      && Canonical(g, z, [ba] + [ab]) && Canonical(g, z, [bt])
      && Connected(g, z, t) && Strict(g, t)
  {
    var g := {zb, ba, ab, bt};
    TrapLeast(z, a, b, t, zb, ba, ab, bt);
    TwoArcLasso(g, ba, ab, bt);
    CanonicalLasso(g, z, ba, ab, bt);
  }

  lemma LassoNeverReturns(g: set<Arc>, s: Id, t: Id, r: Route, x: Id, cycle: seq<Arc>, tail: seq<Arc>)
    requires Answers(g, s, t, r) && Strict(g, t)
    requires IsLasso(g, x, t, cycle, tail) && Canonical(g, s, cycle) && Canonical(g, s, tail)
    ensures r == NeverReturns
  {
    NeverReturnsExactly(g, s, t, r);
  }

  /** On the whole family the back-walk never ends, though a route exists. */
  lemma TrapNeverReturns(z: Id, a: Id, b: Id, t: Id, zb: Arc, ba: Arc, ab: Arc, bt: Arc, r: Route)
    requires TrapShape(z, a, b, t, zb, ba, ab, bt) && Less(a, z)
    requires Answers({zb, ba, ab, bt}, z, t, r)
    ensures r == NeverReturns && Connected({zb, ba, ab, bt}, z, t)
  {
    TrapIsCanonical(z, a, b, t, zb, ba, ab, bt);
    LassoNeverReturns({zb, ba, ab, bt}, z, t, r, b, [ba] + [ab], [bt]);
  }

  /** Arcs that all lead to nodes of higher rank close no cycle. */
  lemma {:induction false} WalkRises(g: set<Arc>, rank: map<Id, nat>, x: Id, y: Id, w: seq<Arc>)
    requires forall a | a in g :: a.src in rank && a.dst in rank && rank[a.src] < rank[a.dst]
    requires IsWalk(g, x, y, w) && x in rank
    ensures y in rank && rank[x] + |w| <= rank[y]
    decreases |w|
  {
    if w != [] { WalkRises(g, rank, x, Last(w).src, Init(w)); }
  }

  lemma RisingHasNoFreeCycle(g: set<Arc>, rank: map<Id, nat>)
    requires forall a | a in g :: a.src in rank && a.dst in rank && rank[a.src] < rank[a.dst]
    ensures NoFreeCycle(g)
  {
    forall x, w | w != [] ensures !IsWalk(g, x, x, w) {
      if IsWalk(g, x, x, w) { WalkRises(g, rank, Last(w).dst, x, w); }
    }
  }

  lemma TwoArcsConnect(g: set<Arc>, a: Arc, b: Arc)
    requires a in g && b in g && a.dst == b.src
    ensures Connected(g, a.src, b.dst)
  {
    ArcWalk(g, a);
    ArcWalk(g, b);
    WalkAppend(g, a.src, b.src, b.dst, [a], [b]);
  }

  lemma OpenTrapRises(z: Id, a: Id, b: Id, t: Id, zb: Arc, ba: Arc, ab: Arc, bt: Arc)
    requires TrapShape(z, a, b, t, zb, ba, ab, bt)
    ensures NoFreeCycle({zb, ab, bt})
  {
    var rank: map<Id, nat> := map[z := 0, a := 0, b := 1, t := 2];
    RisingHasNoFreeCycle({zb, ab, bt}, rank);
  }

  /** Without the edge back from `b` to `a` the same graph returns its route. */
  lemma OpenTrapReturns(z: Id, a: Id, b: Id, t: Id, zb: Arc, ba: Arc, ab: Arc, bt: Arc, r: Route)
    requires TrapShape(z, a, b, t, zb, ba, ab, bt) && Answers({zb, ab, bt}, z, t, r)
    ensures r.Found?
  {
    var g := {zb, ab, bt};
    OpenTrapRises(z, a, b, t, zb, ba, ab, bt);
    TwoArcsConnect(g, zb, bt);
    ReturnsWithoutFreeCycles(g, z, t, r);
  }

  // ------------------------------------------------------------- inputs of the router

  function FlatEdge(id: Id, source: Id, target: Id, bandwidth: real): Edge
    requires id != [] && source != [] && target != [] && bandwidth >= 0.0
  {
    RawEdge(id, source, target, 0.0, bandwidth, 0.0, 0.0, 0.0, 0.0, 0.0, 0.0)
  }

  function FourNodes(aType: NodeType, bType: NodeType): seq<Node> {
    [Node("z", PublicSource, Public), Node("a", aType, Public), Node("b", bType, Public),
     Node("t", PublicSource, Public)]
  }

  /** `z` and `t` are entered and left at price 1, `a` and `b` are joined both ways at `between`. */
  function FourEdges(between: real): seq<Edge>
    requires between >= 0.0
  {
    [FlatEdge("zb", "z", "b", 1.0), FlatEdge("ba", "b", "a", between),
     FlatEdge("ab", "a", "b", between), FlatEdge("bt", "b", "t", 1.0)]
  }

  predicate Open(nodeType: NodeType, p: Policy) {
    && (nodeType == AtlasPeer ==> p.allowAtlasPeers) && (nodeType == CloudBrain ==> p.allowCloudBrain)
    && (nodeType == GraphHub ==> p.allowGraphHub)
  }

  /** A public node of that type. */
  predicate Is(nodes: NodeMap, id: Id, nodeType: NodeType) {
    id in nodes && nodes[id].nodeType == nodeType && nodes[id].privacyLevel == Public
  }

  /** A node that shares its id with no other of the list is the one the dictionary holds. */
  lemma OnlyNode(ns: seq<Node>, i: nat)
    requires i < |ns| && forall j | 0 <= j < |ns| && j != i :: ns[j].nodeId != ns[i].nodeId
    ensures ns[i].nodeId in NodeMapOf(ns) && NodeMapOf(ns)[ns[i].nodeId] == ns[i]
  {
    assert ns[i] in ns;
  }

  lemma FourIdsDiffer(aType: NodeType, bType: NodeType, i: nat)
    requires i < 4
    ensures forall j | 0 <= j < 4 && j != i :: FourNodes(aType, bType)[j].nodeId != FourNodes(aType, bType)[i].nodeId
  {
    assert "z"[0] == 'z' && "a"[0] == 'a' && "b"[0] == 'b' && "t"[0] == 't';
  }

  function FourMap(aType: NodeType, bType: NodeType): (nodes: NodeMap)
    ensures Is(nodes, "z", PublicSource) && Is(nodes, "a", aType) && Is(nodes, "b", bType)
            && Is(nodes, "t", PublicSource)
  {
    var ns := FourNodes(aType, bType);
    forall i | 0 <= i < 4 ensures ns[i].nodeId in NodeMapOf(ns) && NodeMapOf(ns)[ns[i].nodeId] == ns[i] {
      FourIdsDiffer(aType, bType, i);
      OnlyNode(ns, i);
    }
    assert ns[0].nodeId == "z" && ns[1].nodeId == "a" && ns[2].nodeId == "b" && ns[3].nodeId == "t";
    NodeMapOf(ns)
  }

  const FREE := 0.0
  const HALF_UNIT := 0.00000000055

  function FlatPrice(bandwidth: real, p: Policy, target: Node): nat
    requires bandwidth >= 0.0
  {
    Units(Discounted(bandwidth, p, target))
  }

  lemma FlatArc(id: Id, source: Id, target: Id, bandwidth: real, nodes: NodeMap, p: Policy)
    requires id != [] && source != [] && target != [] && bandwidth >= 0.0
    requires source in nodes && target in nodes && nodes[target].privacyLevel == Public
    ensures var e := FlatEdge(id, source, target, bandwidth);
      && (Admitted(e, nodes, p) <==> Open(nodes[target].nodeType, p))
      && (Admitted(e, nodes, p) ==>
            ArcOf(e, nodes, p) == Arc(source, target, id, FlatPrice(bandwidth, p, nodes[target])))
  {
    assert RawCost(FlatEdge(id, source, target, bandwidth)) == bandwidth;
  }

  lemma ArcsOfFour(e0: Edge, e1: Edge, e2: Edge, e3: Edge, nodes: NodeMap, p: Policy)
    requires Admitted(e0, nodes, p) && Admitted(e2, nodes, p) && Admitted(e3, nodes, p)
    ensures AdmittedArcs([e0, e1, e2, e3], nodes, p) ==
            {ArcOf(e0, nodes, p), ArcOf(e2, nodes, p), ArcOf(e3, nodes, p)}
            + if Admitted(e1, nodes, p) then {ArcOf(e1, nodes, p)} else {}
  {
    var es := [e0, e1, e2, e3];
    assert forall e :: e in es <==> e == e0 || e == e1 || e == e2 || e == e3;
  }

  function ZB(cost: nat): Arc { Arc("z", "b", "zb", cost) }
  function BA(cost: nat): Arc { Arc("b", "a", "ba", cost) }
  function AB(cost: nat): Arc { Arc("a", "b", "ab", cost) }
  function BT(cost: nat): Arc { Arc("b", "t", "bt", cost) }

  /** The arcs of the four edges, when every gate but perhaps that of `a` is open. */
  lemma FourArcs(aType: NodeType, bType: NodeType, between: real, p: Policy)
    requires between >= 0.0 && Open(bType, p)
    ensures var nodes := FourMap(aType, bType);
      && "z" in nodes && "a" in nodes && "b" in nodes && "t" in nodes
      && AdmittedArcs(FourEdges(between), nodes, p) ==
         {ZB(FlatPrice(1.0, p, nodes["b"])), AB(FlatPrice(between, p, nodes["b"])), BT(FlatPrice(1.0, p, nodes["t"]))}
         + if Open(aType, p) then {BA(FlatPrice(between, p, nodes["a"]))} else {}
  {
    var nodes := FourMap(aType, bType);
    FlatArc("zb", "z", "b", 1.0, nodes, p);
    FlatArc("ba", "b", "a", between, nodes, p);
    FlatArc("ab", "a", "b", between, nodes, p);
    FlatArc("bt", "b", "t", 1.0, nodes, p);
    ArcsOfFour(FlatEdge("zb", "z", "b", 1.0), FlatEdge("ba", "b", "a", between),
               FlatEdge("ab", "a", "b", between), FlatEdge("bt", "b", "t", 1.0), nodes, p);
  }

  lemma PriceOfNothing(p: Policy, target: Node)
    ensures FlatPrice(FREE, p, target) == 0
  {
  }

  lemma PriceOfOne(p: Policy, target: Node)
    ensures FlatPrice(1.0, p, target) > 0
  {
  }

  /** Just over half a unit is rounded up to one, and nine tenths of it down to none. */
  lemma PriceOfHalfAUnit(p: Policy, target: Node)
    ensures FlatPrice(HALF_UNIT, p, target) == if p.preferLocal && IsLocal(target) then 0 else 1
  {
  }

  lemma IdsOfTrap(zb: nat, bt: nat)
    requires zb > 0 && bt > 0
    ensures TrapShape("z", "a", "b", "t", ZB(zb), BA(0), AB(0), BT(bt)) && Less("a", "z")
  {
    assert "z"[0] == 'z' && "a"[0] == 'a' && "b"[0] == 'b' && "t"[0] == 't';
  }

  /** A right answer to a call on the four nodes, in terms of the arcs. */
  lemma AnswerOf(aType: NodeType, bType: NodeType, between: real, p: Policy, o: Outcome, zb: nat, bt: nat)
    requires between >= 0.0 && Open(bType, p)
    requires Correct(FourNodes(aType, bType), FourEdges(between), "z", "t", p, o)
    requires zb == FlatPrice(1.0, p, FourMap(aType, bType)["b"]) && bt == FlatPrice(1.0, p, FourMap(aType, bType)["t"])
    ensures zb > 0 && bt > 0 && o.Answer?
    ensures var ba := FlatPrice(between, p, FourMap(aType, bType)["a"]);
      var ab := FlatPrice(between, p, FourMap(aType, bType)["b"]);
      var g := AdmittedArcs(FourEdges(between), FourMap(aType, bType), p);
      && Answers(g, "z", "t", o.route)
      && g == if Open(aType, p) then {ZB(zb), BA(ba), AB(ab), BT(bt)} else {ZB(zb), AB(ab), BT(bt)}
  {
    FourArcs(aType, bType, between, p);
    PriceOfOne(p, FourMap(aType, bType)["b"]);
    PriceOfOne(p, FourMap(aType, bType)["t"]);
    assert FourNodes(aType, bType) != [];
  }

  // ------------------------------------------------------------------- the witnesses

  /** With `a` and `b` joined for free the call never returns. */
  lemma FreeLoopTraps(aType: NodeType, bType: NodeType, between: real, p: Policy, o: Outcome)
    requires between >= 0.0 && Open(aType, p) && Open(bType, p)
    requires FlatPrice(between, p, FourMap(aType, bType)["a"]) == 0
    requires FlatPrice(between, p, FourMap(aType, bType)["b"]) == 0
    requires Correct(FourNodes(aType, bType), FourEdges(between), "z", "t", p, o)
    ensures o.Answer? && o.route == NeverReturns
    ensures Connected(AdmittedArcs(FourEdges(between), FourMap(aType, bType), p), "z", "t")
  {
    var nodes := FourMap(aType, bType);
    var zb, bt := FlatPrice(1.0, p, nodes["b"]), FlatPrice(1.0, p, nodes["t"]);
    AnswerOf(aType, bType, between, p, o, zb, bt);
    IdsOfTrap(zb, bt);
    TrapNeverReturns("z", "a", "b", "t", ZB(zb), BA(0), AB(0), BT(bt), o.route);
  }

  /** With every arc at a price the call returns. */
  lemma PaidLoopReturns(zb: Arc, ba: Arc, ab: Arc, bt: Arc, r: Route)
    requires zb.cost > 0 && ba.cost > 0 && ab.cost > 0 && bt.cost > 0 && zb.dst == bt.src
    requires Answers({zb, ba, ab, bt}, zb.src, bt.dst, r)
    ensures r.Found?
  {
    var g := {zb, ba, ab, bt};
    PositiveArcsNoFreeCycle(g);
    TwoArcsConnect(g, zb, bt);
    ReturnsWithoutFreeCycles(g, zb.src, bt.dst, r);
  }

  /** A trap within the ranges the constructors accept, whatever the types of `a` and `b`. */
  lemma RouterCanRunForEver(aType: NodeType, bType: NodeType, o: Outcome)
    requires Correct(FourNodes(aType, bType), FourEdges(FREE), "z", "t", DEFAULT_POLICY, o)
    ensures o.Answer? && o.route == NeverReturns
    ensures Connected(AdmittedArcs(FourEdges(FREE), FourMap(aType, bType), DEFAULT_POLICY), "z", "t")
  {
    PriceOfNothing(DEFAULT_POLICY, FourMap(aType, bType)["a"]);
    PriceOfNothing(DEFAULT_POLICY, FourMap(aType, bType)["b"]);
    FreeLoopTraps(aType, bType, FREE, DEFAULT_POLICY, o);
  }

  /** Atlas peers refused, everything else as by default. */
  const NO_PEERS: Policy := DEFAULT_POLICY.(allowAtlasPeers := false)

  lemma RefusedPeerReturns(o: Outcome)
    requires Correct(FourNodes(AtlasPeer, PublicSource), FourEdges(FREE), "z", "t", NO_PEERS, o)
    ensures o.Answer? && o.route.Found?
  {
    var nodes := FourMap(AtlasPeer, PublicSource);
    var zb, bt := FlatPrice(1.0, NO_PEERS, nodes["b"]), FlatPrice(1.0, NO_PEERS, nodes["t"]);
    PriceOfNothing(NO_PEERS, nodes["b"]);
    AnswerOf(AtlasPeer, PublicSource, FREE, NO_PEERS, o, zb, bt);
    IdsOfTrap(zb, bt);
    OpenTrapReturns("z", "a", "b", "t", ZB(zb), BA(0), AB(0), BT(bt), o.route);
  }

  /** Opening a gate can lose a route: while atlas peers are refused the call returns one, and once
      they are admitted it never returns. */
  lemma OpeningAGateLosesTheRoute(o: Outcome, o': Outcome)
    requires Correct(FourNodes(AtlasPeer, PublicSource), FourEdges(FREE), "z", "t", NO_PEERS, o)
    requires Correct(FourNodes(AtlasPeer, PublicSource), FourEdges(FREE), "z", "t", DEFAULT_POLICY, o')
    ensures Looser(DEFAULT_POLICY, NO_PEERS)
    ensures o.Answer? && o.route.Found? && o'.Answer? && o'.route == NeverReturns
  {
    RefusedPeerReturns(o);
    RouterCanRunForEver(AtlasPeer, PublicSource, o');
  }

  const NOT_LOCAL: Policy := DEFAULT_POLICY.(preferLocal := false)

  lemma UndiscountedReturns(o: Outcome)
    requires Correct(FourNodes(LocalBrain, LocalBrain), FourEdges(HALF_UNIT), "z", "t", NOT_LOCAL, o)
    ensures o.Answer? && o.route.Found?
  {
    var nodes := FourMap(LocalBrain, LocalBrain);
    var zb, bt := FlatPrice(1.0, NOT_LOCAL, nodes["b"]), FlatPrice(1.0, NOT_LOCAL, nodes["t"]);
    PriceOfHalfAUnit(NOT_LOCAL, nodes["a"]);
    PriceOfHalfAUnit(NOT_LOCAL, nodes["b"]);
    AnswerOf(LocalBrain, LocalBrain, HALF_UNIT, NOT_LOCAL, o, zb, bt);
    PaidLoopReturns(ZB(zb), BA(1), AB(1), BT(bt), o.route);
  }

  /** So can preferring local nodes: an edge of one unit becomes free, and the call never returns. */
  lemma PreferringLocalLosesTheRoute(o: Outcome, o': Outcome)
    requires Correct(FourNodes(LocalBrain, LocalBrain), FourEdges(HALF_UNIT), "z", "t", NOT_LOCAL, o)
    requires Correct(FourNodes(LocalBrain, LocalBrain), FourEdges(HALF_UNIT), "z", "t", DEFAULT_POLICY, o')
    ensures o.Answer? && o.route.Found? && o'.Answer? && o'.route == NeverReturns
  {
    UndiscountedReturns(o);
    PriceOfHalfAUnit(DEFAULT_POLICY, FourMap(LocalBrain, LocalBrain)["a"]);
    PriceOfHalfAUnit(DEFAULT_POLICY, FourMap(LocalBrain, LocalBrain)["b"]);
    FreeLoopTraps(LocalBrain, LocalBrain, HALF_UNIT, DEFAULT_POLICY, o');
  }
}
