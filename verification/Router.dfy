/** The deterministic trust router (packages/atlas_router/dijkstra.py). */
module Router {
  import opened Wrappers
  import opened Ordering
  import opened Graph
  import opened RouterModel
  import opened RouterSearch
  import opened RouterRun
  import opened RouterSpec

  // ------------------------------------------------------------- sorting

  predicate EdgeLess(a: Edge, b: Edge) {
    || Less(a.sourceId, b.sourceId)
    || (a.sourceId == b.sourceId && KeyLess(Key(a.targetId, a.edgeId), Key(b.targetId, b.edgeId)))
  }

  function Insert(e: Edge, es: seq<Edge>): (r: seq<Edge>)
    ensures multiset(r) == multiset{e} + multiset(es)
  {
    if es == [] || !EdgeLess(es[0], e) then [e] + es
    else
      assert es == [es[0]] + es[1..];
      [es[0]] + Insert(e, es[1..])
  }

  /** Python's stable `sorted` by (source, target, edge id). */
  function SortEdges(es: seq<Edge>): (r: seq<Edge>)
    ensures multiset(r) == multiset(es)
  {
    if es == [] then []
    else
      assert es == [es[0]] + es[1..];
      Insert(es[0], SortEdges(es[1..]))
  }

  lemma SortKeepsElements(es: seq<Edge>, e: Edge)
    ensures e in SortEdges(es) <==> e in es
  {
    assert e in multiset(SortEdges(es)) <==> e in multiset(es);
  }

  // ------------------------------------------------------------- results

  datatype BlockedEdge =
    | UnknownEndpoint(edgeId: Id)
    | ByPolicy(edgeId: Id, sourceId: Id, targetId: Id, reason: Refusal)

  datatype BadInput = NoNodes | UnknownSource | UnknownTarget

  datatype Outcome =
    | Invalid(error: BadInput)
    | Answer(route: Route, blocked: seq<BlockedEdge>, safeToAttachToWorkingMemory: bool)

  /** The node dictionary: a later node replaces an earlier one of the same id. */
  function NodeMapOf(ns: seq<Node>): (m: NodeMap)
    ensures forall id :: id in m <==> exists n :: n in ns && n.nodeId == id
    ensures forall id | id in m :: m[id] in ns && m[id].nodeId == id
  {
    if ns == [] then map[]
    else
      assert forall n | n in ns :: n == Last(ns) || n in Init(ns);
      assert Last(ns) in ns;
      NodeMapOf(Init(ns))[Last(ns).nodeId := Last(ns)]
  }

  method BuildNodeMap(ns: seq<Node>) returns (m: NodeMap)
    ensures m == NodeMapOf(ns)
  {
    m := map[];
    for i := 0 to |ns|
      invariant m == NodeMapOf(ns[..i])
    {
      assert Init(ns[..i + 1]) == ns[..i];
      m := m[ns[i].nodeId := ns[i]];
    }
    assert ns[..|ns|] == ns;
  }

  /** The edges the gate turns away, with its reasons, in list order. */
  function BlockedOf(es: seq<Edge>, nodes: NodeMap, p: Policy): seq<BlockedEdge> {
    if es == [] then []
    else
      var e, before := Last(es), BlockedOf(Init(es), nodes, p);
      if e.sourceId !in nodes || e.targetId !in nodes then before + [UnknownEndpoint(e.edgeId)]
      else match CostOf(e, p, nodes[e.targetId])
        case Refused(why) => before + [ByPolicy(e.edgeId, e.sourceId, e.targetId, why)]
        case Allowed(_) => before
  }

  type Adjacency = map<Id, seq<Edge>>

  /** The adjacency lists hold exactly the admitted edges of `es`, each under its source. */
  ghost predicate ListsExactly(adj: Adjacency, es: seq<Edge>, nodes: NodeMap, p: Policy) {
    && adj.Keys == nodes.Keys
    && (forall u, e | u in adj && e in adj[u] :: e in es && Admitted(e, nodes, p) && e.sourceId == u)
    && forall e | e in es && Admitted(e, nodes, p) :: e in adj[e.sourceId]
  }

  lemma ListsAdd(adj: Adjacency, es: seq<Edge>, e: Edge, nodes: NodeMap, p: Policy)
    requires ListsExactly(adj, es, nodes, p) && Admitted(e, nodes, p)
    ensures ListsExactly(adj[e.sourceId := adj[e.sourceId] + [e]], es + [e], nodes, p)
  {
  }

  lemma ListsSkip(adj: Adjacency, es: seq<Edge>, e: Edge, nodes: NodeMap, p: Policy)
    requires ListsExactly(adj, es, nodes, p)
    ensures !Admitted(e, nodes, p) ==> ListsExactly(adj, es + [e], nodes, p)
  {
  }

  method BuildAdjacency(es: seq<Edge>, nodes: NodeMap, p: Policy) returns (adj: Adjacency, blocked: seq<BlockedEdge>)
    ensures ListsExactly(adj, es, nodes, p)
    ensures blocked == BlockedOf(es, nodes, p)
  {
    adj := map u | u in nodes :: [];
    blocked := [];
    for i := 0 to |es|
      invariant ListsExactly(adj, es[..i], nodes, p)
      invariant blocked == BlockedOf(es[..i], nodes, p)
    {
      var e := es[i];
      assert Init(es[..i + 1]) == es[..i] && Last(es[..i + 1]) == e;
      assert es[..i + 1] == es[..i] + [e];
      ListsSkip(adj, es[..i], e, nodes, p);
      if e.sourceId !in nodes || e.targetId !in nodes {
        blocked := blocked + [UnknownEndpoint(e.edgeId)];
        continue;
      }
      var cost := CostOf(e, p, nodes[e.targetId]);
      if cost.Refused? {
        blocked := blocked + [ByPolicy(e.edgeId, e.sourceId, e.targetId, cost.reason)];
        continue;
      }
      ListsAdd(adj, es[..i], e, nodes, p);
      adj := adj[e.sourceId := adj[e.sourceId] + [e]];
    }
    assert es[..|es|] == es;
    ghost var before := adj;
    // within one list sources agree, so this is the sort by (target, edge id)
    adj := map u | u in adj :: SortEdges(adj[u]);
    SortedListsKeep(before, es, nodes, p);
  }

  lemma SortedListsKeep(adj: Adjacency, es: seq<Edge>, nodes: NodeMap, p: Policy)
    requires ListsExactly(adj, es, nodes, p)
    ensures ListsExactly(map u | u in adj :: SortEdges(adj[u]), es, nodes, p)
  {
    forall u, e | u in adj ensures e in SortEdges(adj[u]) <==> e in adj[u] {
      SortKeepsElements(adj[u], e);
    }
  }

  // ------------------------------------------------------------ the search

  datatype Previous = Previous(node: Id, edge: Edge)

  lemma EntryTransitive(x: Entry, y: Entry, z: Entry)
    requires EntryLess(x, y) && EntryLess(y, z)
    ensures EntryLess(x, z)
  {
    if x.cost == y.cost == z.cost { LessTransitive(x.node, y.node, z.node); }
  }

  lemma {:induction false} LeastEntryExists(heap: multiset<Entry>)
    requires |heap| > 0
    ensures exists x :: x in heap && forall y | y in heap :: !EntryLess(y, x)
    decreases |heap|
  {
    var z :| z in heap;
    LessIrreflexive(z.node);
    var rest := heap - multiset{z};
    assert forall y | y in heap :: y == z || y in rest;
    if |rest| > 0 {
      LeastEntryExists(rest);
      var x :| x in rest && forall y | y in rest :: !EntryLess(y, x);
      if EntryLess(z, x) {
        forall y | y in heap ensures !EntryLess(y, z) {
          if EntryLess(y, z) { EntryTransitive(y, z, x); }
        }
      } else {
        assert x in heap;
      }
    } else {
      assert forall y | y in heap :: y == z;
    }
  }

  /** `heapq.heappop`: a least pair, one occurrence removed. */
  method PopLeast(heap: multiset<Entry>) returns (top: Entry, rest: multiset<Entry>)
    requires |heap| > 0
    ensures top in heap && rest == heap - multiset{top}
    ensures forall y | y in heap :: !EntryLess(y, top)
  {
    LeastEntryExists(heap);
    top :| top in heap && forall y | y in heap :: !EntryLess(y, top);
    rest := heap - multiset{top};
  }

  /** `edge_cost` with the policy and the node dictionary fixed. */
  type Price = Edge -> nat

  function Priced(e: Edge, price: Price): Arc {
    Arc(e.sourceId, e.targetId, e.edgeId, price(e))
  }

  /** The ghost labels `l` are what the two dictionaries say. */
  ghost predicate Mirrors(l: Labels, distances: map<Id, nat>, previous: map<Id, Previous>, price: Price) {
    && l.dist == distances && l.par.Keys == previous.Keys
    && forall v | v in previous ::
         previous[v].node == previous[v].edge.sourceId && l.par[v] == Priced(previous[v].edge, price)
  }

  /** The adjacency lists hold the arcs of `g` and nothing else. */
  ghost predicate Spans(adj: Adjacency, price: Price, g: set<Arc>) {
    && (forall u, e | u in adj && e in adj[u] ::
          e.sourceId == u && e.targetId in adj && Priced(e, price) in g)
    && forall a | a in g :: a.src in adj && a in ArcsOf(adj[a.src], price)
  }

  ghost function ArcsOf(es: seq<Edge>, price: Price): set<Arc> {
    set e | e in es :: Priced(e, price)
  }

  lemma ArcsOfOneMore(es: seq<Edge>, i: nat, price: Price)
    requires i < |es|
    ensures ArcsOf(es[..i + 1], price) == ArcsOf(es[..i], price) + {Priced(es[i], price)}
  {
    assert es[..i + 1] == es[..i] + [es[i]];
  }

  /** `should_replace`, as the source computes it from its dictionaries. */
  predicate ShouldReplace(distances: map<Id, nat>, previous: map<Id, Previous>, currentId: Id, edge: Edge,
                          nextCost: nat)
  {
    if edge.targetId in distances && nextCost == distances[edge.targetId] && edge.targetId in previous then
      var record := previous[edge.targetId];
      KeyLess(Key(currentId, edge.edgeId), Key(record.node, record.edge.edgeId))
    else edge.targetId !in distances || nextCost < distances[edge.targetId]
  }

  /** The smaller of an offer and the distance already known. */
  function Lower(distances: map<Id, nat>, v: Id, offer: nat): nat {
    if v in distances && distances[v] <= offer then distances[v] else offer
  }

  /** One relaxation on the dictionaries and the heap. */
  method Relax(edge: Edge, currentCost: nat, distances0: map<Id, nat>, previous0: map<Id, Previous>,
               heap0: multiset<Entry>, price: Price, ghost l0: Labels)
    returns (distances: map<Id, nat>, previous: map<Id, Previous>, heap: multiset<Entry>, ghost l: Labels)
    requires Mirrors(l0, distances0, previous0, price)
    requires edge.sourceId in l0.dist && l0.dist[edge.sourceId] == currentCost
    ensures Mirrors(l, distances, previous, price)
    ensures Tried(l0, heap0, Priced(edge, price), l, heap)
    ensures distances == distances0[edge.targetId := Lower(distances0, edge.targetId, currentCost + price(edge))]
  {
    distances, previous, heap, l := distances0, previous0, heap0, l0;
    var nextCost: nat := currentCost + price(edge);
    if ShouldReplace(distances, previous, edge.sourceId, edge, nextCost) {
      distances := distances[edge.targetId := nextCost];
      previous := previous[edge.targetId := Previous(edge.sourceId, edge)];
      heap := heap + multiset{Entry(nextCost, edge.targetId)};
      l := Take(l0, Priced(edge, price));
    }
  }

  /** The inner loop: every admitted edge out of the node just popped is tried. */
  method Expand(out: seq<Edge>, currentId: Id, currentCost: nat,
                distances0: map<Id, nat>, previous0: map<Id, Previous>, heap0: multiset<Entry>,
                price: Price, ghost g: set<Arc>, ghost s: Id, ghost l0: Labels,
                ghost known: set<Id>, ghost ids: seq<Id>)
    returns (distances: map<Id, nat>, previous: map<Id, Previous>, heap: multiset<Entry>, ghost l: Labels)
    requires forall e | e in out :: e.sourceId == currentId && e.targetId in ids && Priced(e, price) in g
    requires forall a | a in g && a.src == currentId :: a in ArcsOf(out, price)
    requires Mirrors(l0, distances0, previous0, price) && (forall v | v in l0.dist :: v in ids)
    requires Expanding(g, s, l0, heap0, known, currentId, {}) && l0.dist[currentId] == currentCost
    ensures Mirrors(l, distances, previous, price) && forall v | v in l.dist :: v in ids
    ensures Sound(g, s, l, currentCost) && Queued(l, heap, known + {currentId}, currentCost)
    ensures AllRelaxed(g, s, l, known + {currentId})
    ensures Progress(Labelings(g), ids, l0, heap0, l, heap)
    ensures Expanded(g, s, l0, currentId, l)
    ensures forall e | e in out :: e.targetId in distances && distances[e.targetId] <= currentCost + price(e)
  {
    distances, previous, heap, l := distances0, previous0, heap0, l0;
    assert ArcsOf([], price) == {};
    CameStart(s, l);
    for i := 0 to |out|
      invariant Mirrors(l, distances, previous, price) && forall v | v in l.dist :: v in ids
      invariant Expanding(g, s, l, heap, known, currentId, ArcsOf(out[..i], price))
      invariant l.dist[currentId] == currentCost && Came(l0, ArcsOf(out[..i], price), l)
      invariant Progress(Labelings(g), ids, l0, heap0, l, heap)
    {
      var edge := out[i];
      ghost var l1, heap1 := l, heap;
      distances, previous, heap, l := Relax(edge, currentCost, distances, previous, heap, price, l);
      ArcsOfOneMore(out, i, price);
      ExpandStep(g, s, l0, heap0, l1, heap1, l, heap, known, ArcsOf(out[..i], price), Priced(edge, price), ids);
      CameStep(l0, ArcsOf(out[..i], price), l1, Priced(edge, price));
    }
    assert out[..|out|] == out;
    ExpandEnd(g, s, l, heap, known, currentId, ArcsOf(out, price));
    CameMore(l0, ArcsOf(out, price), Outgoing(g, currentId), l);
    forall e | e in out ensures e.targetId in distances && distances[e.targetId] <= currentCost + price(e) {
      assert Relaxed(s, l, Priced(e, price));
    }
  }

  /** A popped entry that is up to date names the next node to expand, unless it was expanded before. */
  lemma TopIsPicked(l: Labels, done: set<Id>, heap: multiset<Entry>, floor: nat, top: Entry)
    requires Queued(l, heap, done, floor) && top in heap && top.cost <= l.dist[top.node]
    requires forall y | y in heap :: !EntryLess(y, top)
    ensures top.node !in done ==> Picks(Stage(l, done), top.node)
  {
    assert l.dist[top.node] == top.cost;
  }

  /** An expansion either continues the run or, done a second time, changes nothing. */
  lemma RunGoesOn(g: set<Arc>, s: Id, t: Id, run0: seq<Stage>, l0: Labels, done: set<Id>, l: Labels,
                  heap0: multiset<Entry>, floor: nat, top: Entry) returns (run: seq<Stage>)
    requires IsRun(g, s, t, run0) && Last(run0) == Stage(l0, done) && AllRelaxed(g, s, l0, done)
    requires Queued(l0, heap0, done, floor) && top in heap0 && top.cost <= l0.dist[top.node]
    requires forall y | y in heap0 :: !EntryLess(y, top)
    requires Expanded(g, s, l0, top.node, l) && top.node != t
    ensures IsRun(g, s, t, run) && Last(run) == Stage(l, done + {top.node})
  {
    if top.node in done {
      CameBack(s, l0, Outgoing(g, top.node), l);
      assert done + {top.node} == done;
      run := run0;
    } else {
      TopIsPicked(l0, done, heap0, floor, top);
      var y := Stage(l, done + {top.node});
      assert Advances(g, s, Last(run0), top.node, y);
      RunExtends(g, s, t, run0, y);
      run := run0 + [y];
    }
  }

  /** Dijkstra's loop. Stale entries are skipped, ties re-push, and the target stops it. */
  method Search(adj: Adjacency, price: Price, s: Id, t: Id, ghost g: set<Arc>, ghost ids: seq<Id>)
    returns (distances: map<Id, nat>, previous: map<Id, Previous>, ghost l: Labels, ghost done: set<Id>)
    requires Spans(adj, price, g) && s in adj && t in adj
    requires forall v :: v in ids <==> v in adj
    ensures Mirrors(l, distances, previous, price)
    ensures t in l.dist ==> StoppedAt(g, s, t, l, done) && Final(g, s, t, Stage(l, done))
    ensures t !in l.dist ==> !Connected(g, s, t)
    ensures if t in distances then Shortest(g, s, t, distances[t]) else !Connected(g, s, t)
  {
    distances := map[s := 0];
    previous := map[];
    var heap: multiset<Entry> := multiset{Entry(0, s)};
    l := Labels(distances, map[]);
    done := {};
    ghost var floor: nat := 0;
    ghost var run := [Start(s)];
    assert IsWalk(g, s, s, []) && Cost([]) == 0;

    while |heap| > 0
      invariant Mirrors(l, distances, previous, price) && forall v | v in l.dist :: v in ids
      invariant Sound(g, s, l, floor) && Queued(l, heap, done, floor) && AllRelaxed(g, s, l, done)
      invariant t !in done && IsRun(g, s, t, run) && Last(run) == Stage(l, done)
      decreases |adj| - |l.dist|, Total(Labelings(g), l, ids), |heap|
    {
      var top, rest := PopLeast(heap);
      var currentCost, currentId := top.cost, top.node;
      SubsetSize(l.dist.Keys, adj.Keys);
      if currentCost > distances[currentId] {
        SkipKeeps(l, heap, done, floor, top);
        heap := rest;
        continue;
      }
      ExpandStart(g, s, l, heap, done, floor, currentId);
      ghost var l1, heap0 := l, heap;
      heap := rest;
      if currentId == t {
        SettledIsShortest(g, s, t, l, done, t);
        TopIsPicked(l, done, heap0, floor, top);
        return;
      }
      distances, previous, heap, l := Expand(adj[currentId], currentId, currentCost, distances, previous, heap,
                                             price, g, s, l, done, ids);
      run := RunGoesOn(g, s, t, run, l1, done, l, heap0, floor, top);
      floor, done := currentCost, done + {currentId};
    }
    assert t !in l.dist;
    forall w | IsWalk(g, s, t, w) ensures false {
      WalkBound(g, s, l, done, Cost(w) + 1, t, w);
    }
  }

  // ---------------------------------------------------------- the back-walk

  function Reverse<T>(xs: seq<T>): seq<T> {
    if xs == [] then [] else Reverse(xs[1..]) + [xs[0]]
  }

  lemma {:induction false} ReverseAppend<T>(xs: seq<T>, x: T)
    ensures Reverse(xs + [x]) == [x] + Reverse(xs)
  {
    if xs != [] {
      assert (xs + [x])[1..] == xs[1..] + [x];
      ReverseAppend(xs[1..], x);
    }
  }

  lemma {:induction false} ReverseTwice<T>(xs: seq<T>)
    ensures Reverse(Reverse(xs)) == xs
  {
    if xs != [] {
      ReverseTwice(xs[1..]);
      ReverseAppend(Reverse(xs[1..]), xs[0]);
    }
  }

  lemma {:induction false} ReverseElements<T>(xs: seq<T>, x: T)
    ensures x in Reverse(xs) <==> x in xs
  {
    if xs != [] { ReverseElements(xs[1..], x); }
  }

  /** A chain of back-steps from the target to `cursor`, the nodes on it all different. */
  ghost predicate WalkedBack(g: set<Arc>, l: Labels, t: Id, cursor: Id, w: seq<Arc>) {
    && IsWalk(g, cursor, t, w) && OfParents(l, w) && cursor in l.dist
    && NoRepeats(Nodes(cursor, w)) && (forall v | v in Nodes(cursor, w) :: v in l.dist)
  }

  lemma WalkBackOne(g: set<Arc>, s: Id, t: Id, l: Labels, cursor: Id, w: seq<Arc>)
    requires t in l.dist && Sound(g, s, l, l.dist[t]) && WalkedBack(g, l, t, cursor, w) && cursor != s
    ensures var a := l.par[cursor];
      && Nodes(a.src, [a] + w) == [a.src] + Nodes(cursor, w) && EdgeIds([a] + w) == [a.eid] + EdgeIds(w)
      && (a.src !in Nodes(cursor, w) ==> WalkedBack(g, l, t, a.src, [a] + w))
  {
    assert ParentFits(g, l, cursor, l.dist[t]);
    PrependArc(g, l.par[cursor], t, w);
  }

  lemma ParentsAreTight(g: set<Arc>, s: Id, t: Id, l: Labels, done: set<Id>, x: Id, w: seq<Arc>)
    requires StoppedAt(g, s, t, l, done) && IsWalk(g, x, t, w) && OfParents(l, w)
    ensures forall b | b in w :: Tight(g, s, b) && b.dst != s
  {
    ParentWalkCost(g, s, l, l.dist[t], x, t, w);
    forall b | b in w ensures Tight(g, s, b) && b.dst != s {
      assert ParentFits(g, l, b.dst, l.dist[t]);
      ParentIsTight(g, s, t, l, done, b.dst);
    }
  }

  /** A lasso of parent arcs into the target is a trap for the back-walk. */
  lemma ParentLassoIsTrap(g: set<Arc>, s: Id, t: Id, l: Labels, done: set<Id>, x: Id, cycle: seq<Arc>, tail: seq<Arc>)
    requires StoppedAt(g, s, t, l, done) && Final(g, s, t, Stage(l, done))
    requires IsLasso(g, x, t, cycle, tail) && OfParents(l, cycle + tail)
    ensures IsTrap(g, s, t, x, cycle, tail)
  {
    assert forall b | b in cycle :: b in cycle + tail;
    assert forall b | b in tail :: b in cycle + tail;
    ParentWalkCost(g, s, l, l.dist[t], x, t, tail);
    ParentWalkCost(g, s, l, l.dist[t], x, x, cycle);
    WalkAppend(g, x, x, t, cycle, tail);
    SettledIsShortest(g, s, t, l, done, t);
    ParentsAreTight(g, s, t, l, done, x, cycle + tail);
    if Strict(g, t) { ParentWalkCanonical(g, s, t, l, done, x, cycle + tail); }
  }

  /** Coming back to a node already on the chain closes a free cycle. */
  lemma WalkBackTwice(g: set<Arc>, s: Id, t: Id, l: Labels, done: set<Id>, cursor: Id, w: seq<Arc>)
    requires StoppedAt(g, s, t, l, done) && Final(g, s, t, Stage(l, done))
    requires WalkedBack(g, l, t, cursor, w) && cursor != s
    requires l.par[cursor].src in Nodes(cursor, w)
    ensures Answers(g, s, t, NeverReturns)
  {
    var a := l.par[cursor];
    assert ParentFits(g, l, cursor, l.dist[t]);
    var cycle, tail := CloseLasso(g, a, t, w);
    assert forall b | b in cycle + tail :: b == a || b in w;
    assert OfParents(l, cycle + tail);
    ParentLassoIsTrap(g, s, t, l, done, a.src, cycle, tail);
  }

  lemma WalkBackDone(g: set<Arc>, s: Id, t: Id, l: Labels, done: set<Id>, w: seq<Arc>)
    requires StoppedAt(g, s, t, l, done) && Final(g, s, t, Stage(l, done)) && WalkedBack(g, l, t, s, w)
    ensures Answers(g, s, t, Found(Nodes(s, w), EdgeIds(w), l.dist[t]))
  {
    ParentWalkCost(g, s, l, l.dist[t], s, t, w);
    SettledIsShortest(g, s, t, l, done, t);
    if Strict(g, t) { ParentWalkCanonical(g, s, t, l, done, s, w); }
    assert IsBestRoute(g, s, t, Nodes(s, w), EdgeIds(w), l.dist[t], w);
  }

  /** Reconstruction. The source has no test for a repeated node: where this method answers
      `NeverReturns`, the source's loop goes on for ever. */
  method WalkBack(distances: map<Id, nat>, previous: map<Id, Previous>, price: Price, s: Id, t: Id,
                  ghost g: set<Arc>, ghost l: Labels, ghost done: set<Id>)
    returns (r: Route)
    requires Mirrors(l, distances, previous, price)
    requires StoppedAt(g, s, t, l, done) && Final(g, s, t, Stage(l, done))
    ensures !r.NoRoute? && Answers(g, s, t, r)
  {
    var path, edgeIds, cursor := [t], [], t;
    ghost var w: seq<Arc> := [];
    while cursor != s
      invariant WalkedBack(g, l, t, cursor, w)
      invariant path == Reverse(Nodes(cursor, w)) && edgeIds == Reverse(EdgeIds(w))
      decreases l.dist.Keys - set v | v in Nodes(cursor, w)
    {
      WalkBackOne(g, s, t, l, cursor, w);
      var record := previous[cursor];
      ReverseElements(Nodes(cursor, w), record.node);
      if record.node in path {
        WalkBackTwice(g, s, t, l, done, cursor, w);
        return NeverReturns;
      }
      assert record.node in l.dist.Keys - set v | v in Nodes(cursor, w);
      edgeIds := edgeIds + [record.edge.edgeId];
      path := path + [record.node];
      w := [l.par[cursor]] + w;
      cursor := record.node;
      assert record.node in Nodes(cursor, w);
    }
    WalkBackDone(g, s, t, l, done, w);
    ReverseTwice(Nodes(s, w));
    ReverseTwice(EdgeIds(w));
    return Found(Reverse(path), Reverse(edgeIds), distances[t]);
  }

  // ----------------------------------------------------------------- the router

  function PriceUnder(nodes: NodeMap, p: Policy): Price {
    (e: Edge) => if Admitted(e, nodes, p) then CostOf(e, p, nodes[e.targetId]).cost else 0
  }

  /** A right answer of the router to one call. */
  ghost predicate Correct(ns: seq<Node>, edges: seq<Edge>, s: Id, t: Id, p: Policy, out: Outcome) {
    var nodes := NodeMapOf(ns);
    if ns == [] then out == Invalid(NoNodes)
    else if s !in nodes then out == Invalid(UnknownSource)
    else if t !in nodes then out == Invalid(UnknownTarget)
    else
      && out.Answer? && Answers(AdmittedArcs(edges, nodes, p), s, t, out.route)
      && out.blocked == BlockedOf(SortEdges(edges), nodes, p)
      && (out.safeToAttachToWorkingMemory <==>
            out.route.Found? && exists v | v in out.route.path :: v in nodes && nodes[v].nodeType == WorkingMemory)
  }

  lemma ListsSpan(adj: Adjacency, es: seq<Edge>, edges: seq<Edge>, nodes: NodeMap, p: Policy)
    requires ListsExactly(adj, es, nodes, p) && forall e :: e in es <==> e in edges
    ensures Spans(adj, PriceUnder(nodes, p), AdmittedArcs(edges, nodes, p))
  {
    var price, g := PriceUnder(nodes, p), AdmittedArcs(edges, nodes, p);
    forall u, e | u in adj && e in adj[u] ensures e.sourceId == u && e.targetId in adj && Priced(e, price) in g {
      assert Priced(e, price) == ArcOf(e, nodes, p);
    }
    forall a | a in g ensures a.src in adj && a in ArcsOf(adj[a.src], price) {
      var e :| e in edges && Admitted(e, nodes, p) && ArcOf(e, nodes, p) == a;
      assert e in adj[a.src] && Priced(e, price) == a;
    }
  }

  ghost function IdsOf(ns: seq<Node>): (ids: seq<Id>)
    ensures forall v :: v in ids <==> v in NodeMapOf(ns)
  {
    var ids := seq(|ns|, i requires 0 <= i < |ns| => ns[i].nodeId);
    assert forall v | v in NodeMapOf(ns) :: v in ids by {
      forall v | v in NodeMapOf(ns) ensures v in ids {
        var i :| 0 <= i < |ns| && ns[i].nodeId == v;
        assert ids[i] == v;
      }
    }
    ids
  }

  method FindLowestTrustCostPath(ns: seq<Node>, edges: seq<Edge>, s: Id, t: Id, p: Policy) returns (out: Outcome)
    ensures Correct(ns, edges, s, t, p, out)
  {
    if ns == [] { return Invalid(NoNodes); }
    var nodes := BuildNodeMap(ns);
    var sorted := SortEdges(edges);
    if s !in nodes { return Invalid(UnknownSource); }
    if t !in nodes { return Invalid(UnknownTarget); }
    var adj, blocked := BuildAdjacency(sorted, nodes, p);
    forall e ensures e in sorted <==> e in edges { SortKeepsElements(edges, e); }
    ListsSpan(adj, sorted, edges, nodes, p);
    var price := PriceUnder(nodes, p);
    ghost var g := AdmittedArcs(edges, nodes, p);
    ghost var ids := IdsOf(ns);
    var distances, previous, l, done := Search(adj, price, s, t, g, ids);
    if t !in distances {
      return Answer(NoRoute, blocked, false);
    }
    var route := WalkBack(distances, previous, price, s, t, g, l, done);
    var safe := route.Found? && exists v | v in route.path :: v in nodes && nodes[v].nodeType == WorkingMemory;
    return Answer(route, blocked, safe);
  }
}
