/** The label-correcting search at the heart of the router: what its labels, its heap with
    stale entries and its early stop at the target keep true (packages/atlas_router/dijkstra.py). */
module RouterSearch {
  import opened Ordering
  import opened Graph

  /** A node absent from `dist` is at distance infinity. */
  datatype Labels = Labels(dist: map<Id, nat>, par: map<Id, Arc>)

  datatype Entry = Entry(cost: nat, node: Id)

  /** The order of the heap's `(cost, node_id)` pairs. */
  predicate EntryLess(x: Entry, y: Entry) {
    x.cost < y.cost || (x.cost == y.cost && Less(x.node, y.node))
  }

  /** Every label is the cost of a walk, and every parent arc accounts for it exactly. */
  ghost predicate Sound(g: set<Arc>, s: Id, l: Labels, floor: nat) {
    && s in l.dist && l.dist[s] == 0
    && l.par.Keys == l.dist.Keys - {s}
    && (forall v | v in l.dist :: Reached(g, s, v, l.dist[v]))
    && forall v | v in l.par :: ParentFits(g, l, v, floor)
  }

  ghost predicate ParentFits(g: set<Arc>, l: Labels, v: Id, floor: nat)
    requires v in l.par
  {
    var a := l.par[v];
    a in g && a.dst == v && v in l.dist && a.src in l.dist
    && l.dist[a.src] + a.cost == l.dist[v] && l.dist[a.src] <= floor
  }

  /** `a` offers its head nothing better, neither in distance nor in label. */
  ghost predicate Relaxed(s: Id, l: Labels, a: Arc) {
    && a.src in l.dist && a.dst in l.dist && l.dist[a.dst] <= l.dist[a.src] + a.cost
    && (l.dist[a.dst] == l.dist[a.src] + a.cost && a.dst != s ==>
          a.dst in l.par && !KeyLess(a.Label(), l.par[a.dst].Label()))
  }

  ghost predicate AllRelaxed(g: set<Arc>, s: Id, l: Labels, done: set<Id>) {
    forall a | a in g && a.src in done :: Relaxed(s, l, a)
  }

  /** Heap entries are never too cheap, expanded nodes lie at or below `floor`, everything
      else labelled is still queued at its present distance, at or above `floor`. */
  ghost predicate Queued(l: Labels, heap: multiset<Entry>, done: set<Id>, floor: nat) {
    && (forall x | x in heap :: x.node in l.dist && l.dist[x.node] <= x.cost && floor <= x.cost)
    && (forall v | v in done :: v in l.dist && l.dist[v] <= floor)
    && forall v | v in l.dist && v !in done :: Entry(l.dist[v], v) in heap
  }

  /** The replacement test of one relaxation. */
  predicate Improves(l: Labels, a: Arc)
    requires a.src in l.dist
  {
    var next := l.dist[a.src] + a.cost;
    || a.dst !in l.dist
    || next < l.dist[a.dst]
    || (next == l.dist[a.dst] && a.dst in l.par && KeyLess(a.Label(), l.par[a.dst].Label()))
  }

  function Take(l: Labels, a: Arc): Labels
    requires a.src in l.dist
  {
    Labels(l.dist[a.dst := l.dist[a.src] + a.cost], l.par[a.dst := a])
  }

  // ------------------------------------------------------- one relaxation

  lemma TakeSound(g: set<Arc>, s: Id, l: Labels, a: Arc)
    requires a in g && a.src in l.dist && Sound(g, s, l, l.dist[a.src]) && Improves(l, a)
    ensures Sound(g, s, Take(l, a), l.dist[a.src])
    ensures a.dst != s && Take(l, a).dist[a.src] == l.dist[a.src]
  {
    var m, floor := Take(l, a), l.dist[a.src];
    ReachedStep(g, s, a, floor);
    forall v | v in m.dist ensures Reached(g, s, v, m.dist[v]) {
    }
    forall v | v in m.par ensures ParentFits(g, m, v, floor) {
      if v != a.dst { assert ParentFits(g, l, v, floor); }
    }
  }

  lemma TakeRelaxed(s: Id, l: Labels, a: Arc, b: Arc)
    requires a.src in l.dist && Improves(l, a) && a.dst != s
    requires l.par.Keys == l.dist.Keys - {s}
    requires Relaxed(s, l, b) && l.dist[b.src] <= l.dist[a.src]
    ensures Relaxed(s, Take(l, a), b)
  {
    if a.dst == b.dst && l.dist[b.dst] == l.dist[a.src] + a.cost == l.dist[b.src] + b.cost {
      if KeyLess(b.Label(), a.Label()) {
        KeyTransitive(b.Label(), a.Label(), l.par[a.dst].Label());
      }
    }
  }

  lemma TakeRelaxedSelf(s: Id, l: Labels, a: Arc)
    requires a.src in l.dist
    requires Improves(l, a) ==> Take(l, a).dist[a.src] == l.dist[a.src]
    requires l.par.Keys == l.dist.Keys - {s}
    ensures Relaxed(s, if Improves(l, a) then Take(l, a) else l, a)
  {
    KeyIrreflexive(a.Label());
  }

  lemma TakeQueued(l: Labels, a: Arc, heap: multiset<Entry>, done: set<Id>)
    requires a.src in l.dist && Improves(l, a) && Queued(l, heap, done, l.dist[a.src])
    ensures Queued(Take(l, a), heap + multiset{Entry(l.dist[a.src] + a.cost, a.dst)}, done, l.dist[a.src])
  {
    var m := Take(l, a);
    var more := heap + multiset{Entry(l.dist[a.src] + a.cost, a.dst)};
    forall v | v in m.dist && v !in done ensures Entry(m.dist[v], v) in more {
    }
  }

  // --------------------------------------------------------- termination

  ghost function Labelings(g: set<Arc>): set<Key> {
    set a | a in g :: a.Label()
  }

  ghost function Weight(keys: set<Key>, l: Labels, v: Id): nat {
    if v in l.par && v in l.dist then l.dist[v] * (|keys| + 1) + |Below(keys, l.par[v].Label())| else 0
  }

  ghost function Total(keys: set<Key>, l: Labels, ids: seq<Id>): nat {
    if ids == [] then 0 else Weight(keys, l, ids[0]) + Total(keys, l, ids[1..])
  }

  /** `m` comes strictly after `l` in the order that lets the main loop end: more nodes
      labelled, or as many and a smaller total of (distance, label rank). */
  ghost predicate Later(keys: set<Key>, ids: seq<Id>, l: Labels, m: Labels) {
    || |l.dist| < |m.dist|
    || (|l.dist| == |m.dist| && Total(keys, m, ids) < Total(keys, l, ids))
  }

  lemma LexicographicWeight(next: nat, now: nat, rank: nat, keys: nat)
    requires next < now && rank <= keys
    ensures next * (keys + 1) + rank < now * (keys + 1)
  {
    var m, more := keys + 1, now - next - 1;
    assert now * m == (next + 1 + more) * m == next * m + m + more * m;
    assert more * m >= 0;
  }

  lemma TakeLowersWeight(keys: set<Key>, l: Labels, a: Arc)
    requires a.src in l.dist && a.dst in l.dist && a.dst in l.par && Improves(l, a)
    requires a.Label() in keys
    ensures Weight(keys, Take(l, a), a.dst) < Weight(keys, l, a.dst)
  {
    var next, now := l.dist[a.src] + a.cost, l.dist[a.dst];
    if next == now {
      RankDrops(keys, a.Label(), l.par[a.dst].Label());
    } else {
      SubsetSize(Below(keys, a.Label()), keys);
      LexicographicWeight(next, now, |Below(keys, a.Label())|, |keys|);
    }
  }

  lemma {:induction false} TotalDrops(keys: set<Key>, l: Labels, m: Labels, ids: seq<Id>, x: Id)
    requires forall v | v in ids :: Weight(keys, m, v) <= Weight(keys, l, v)
    ensures Total(keys, m, ids) <= Total(keys, l, ids)
    ensures x in ids && Weight(keys, m, x) < Weight(keys, l, x) ==> Total(keys, m, ids) < Total(keys, l, ids)
  {
    if ids != [] {
      assert forall v | v in ids[1..] :: v in ids;
      TotalDrops(keys, l, m, ids[1..], x);
    }
  }

  /** Every push moves the labels strictly forward, ties and zero costs included. */
  lemma TakeIsLater(g: set<Arc>, s: Id, l: Labels, a: Arc, ids: seq<Id>)
    requires a in g && a.src in l.dist && Sound(g, s, l, l.dist[a.src]) && Improves(l, a)
    requires a.dst in ids
    ensures Later(Labelings(g), ids, l, Take(l, a))
  {
    var keys, m := Labelings(g), Take(l, a);
    if a.dst !in l.dist {
      assert m.dist.Keys == l.dist.Keys + {a.dst};
    } else {
      TakeSound(g, s, l, a);
      TakeLowersWeight(keys, l, a);
      assert m.dist.Keys == l.dist.Keys;
      assert |m.dist| == |m.dist.Keys| == |l.dist|;
      TotalDrops(keys, l, m, ids, a.dst);
    }
  }

  // ------------------------------------------------- expanding one node

  /** What holds between two relaxations out of `u`: the nodes of `known` and the arcs of
      `tried` have nothing left to offer. */
  ghost predicate Expanding(g: set<Arc>, s: Id, l: Labels, heap: multiset<Entry>,
                            known: set<Id>, u: Id, tried: set<Arc>)
  {
    && u in l.dist && Sound(g, s, l, l.dist[u]) && Queued(l, heap, known + {u}, l.dist[u])
    && AllRelaxed(g, s, l, known)
    && forall a | a in tried :: a.src == u && Relaxed(s, l, a)
  }

  lemma ExpandStart(g: set<Arc>, s: Id, l: Labels, heap: multiset<Entry>, known: set<Id>, floor: nat, u: Id)
    requires Sound(g, s, l, floor) && Queued(l, heap, known, floor) && AllRelaxed(g, s, l, known)
    requires u in l.dist && Entry(l.dist[u], u) in heap
    requires forall x | x in heap :: l.dist[u] <= x.cost
    ensures Expanding(g, s, l, heap - multiset{Entry(l.dist[u], u)}, known, u, {})
  {
    forall v | v in l.par ensures ParentFits(g, l, v, l.dist[u]) {
      assert ParentFits(g, l, v, floor);
    }
    var rest := heap - multiset{Entry(l.dist[u], u)};
    assert forall x | x in rest :: x in heap;
  }

  lemma SkipKeeps(l: Labels, heap: multiset<Entry>, done: set<Id>, floor: nat, x: Entry)
    requires Queued(l, heap, done, floor) && x in heap && l.dist[x.node] < x.cost
    ensures Queued(l, heap - multiset{x}, done, floor)
  {
    var rest := heap - multiset{x};
    assert forall y | y in rest :: y in heap;
  }

  lemma ExpandOne(g: set<Arc>, s: Id, l: Labels, heap: multiset<Entry>, known: set<Id>, tried: set<Arc>, a: Arc)
    requires Expanding(g, s, l, heap, known, a.src, tried) && a in g
    ensures !Improves(l, a) ==> Expanding(g, s, l, heap, known, a.src, tried + {a})
    ensures Improves(l, a) ==>
      var m, pushed := Take(l, a), heap + multiset{Entry(l.dist[a.src] + a.cost, a.dst)};
      Expanding(g, s, m, pushed, known, a.src, tried + {a}) && m.dist[a.src] == l.dist[a.src]
  {
    if Improves(l, a) {
      TakeSound(g, s, l, a);
      TakeQueued(l, a, heap, known + {a.src});
      forall b | b in g && b.src in known ensures Relaxed(s, Take(l, a), b) {
        assert Relaxed(s, l, b) && b.src in known + {a.src};
        TakeRelaxed(s, l, a, b);
      }
      forall b | b in tried ensures Relaxed(s, Take(l, a), b) {
        TakeRelaxed(s, l, a, b);
      }
    }
    TakeRelaxedSelf(s, l, a);
  }

  /** Where the labels stand after a few relaxations out of `u`: nothing moved, or moved forward. */
  ghost predicate Progress(keys: set<Key>, ids: seq<Id>, l0: Labels, heap0: multiset<Entry>,
                           l: Labels, heap: multiset<Entry>)
  {
    (l == l0 && heap == heap0) || Later(keys, ids, l0, l)
  }

  /** The labels and the heap after `a` has been tried. */
  ghost predicate Tried(l: Labels, heap: multiset<Entry>, a: Arc, m: Labels, heap': multiset<Entry>)
    requires a.src in l.dist
  {
    if Improves(l, a) then
      m == Take(l, a) && heap' == heap + multiset{Entry(l.dist[a.src] + a.cost, a.dst)}
    else m == l && heap' == heap
  }

  lemma ExpandStep(g: set<Arc>, s: Id, l0: Labels, heap0: multiset<Entry>, l: Labels, heap: multiset<Entry>,
                   m: Labels, heap': multiset<Entry>, known: set<Id>, tried: set<Arc>, a: Arc, ids: seq<Id>)
    requires Expanding(g, s, l, heap, known, a.src, tried) && a in g && a.dst in ids
    requires Tried(l, heap, a, m, heap')
    requires Progress(Labelings(g), ids, l0, heap0, l, heap)
    ensures Expanding(g, s, m, heap', known, a.src, tried + {a}) && m.dist[a.src] == l.dist[a.src]
    ensures Progress(Labelings(g), ids, l0, heap0, m, heap')
    ensures m.dist.Keys <= l.dist.Keys + {a.dst}
  {
    ExpandOne(g, s, l, heap, known, tried, a);
    if Improves(l, a) { TakeIsLater(g, s, l, a, ids); }
  }

  lemma ExpandEnd(g: set<Arc>, s: Id, l: Labels, heap: multiset<Entry>, known: set<Id>, u: Id, tried: set<Arc>)
    requires Expanding(g, s, l, heap, known, u, tried)
    requires forall a | a in g && a.src == u :: a in tried
    ensures AllRelaxed(g, s, l, known + {u})
  {
  }

  // ------------------------------------------------------------- the end

  /** Nodes below the frontier bound are settled; walks either stay below it or cost it. */
  lemma {:induction false} WalkBound(g: set<Arc>, s: Id, l: Labels, done: set<Id>, bound: nat, x: Id, w: seq<Arc>)
    requires s in l.dist && l.dist[s] == 0 && AllRelaxed(g, s, l, done)
    requires forall v | v in l.dist && v !in done :: bound <= l.dist[v]
    requires IsWalk(g, s, x, w)
    ensures (x in l.dist && l.dist[x] <= Cost(w)) || bound <= Cost(w)
    decreases |w|
  {
    if w != [] {
      var a := Last(w);
      WalkBound(g, s, l, done, bound, a.src, Init(w));
      if a.src in done { assert Relaxed(s, l, a); }
    }
  }

  /** The state in which the loop stops at the target `t`. */
  ghost predicate StoppedAt(g: set<Arc>, s: Id, t: Id, l: Labels, done: set<Id>) {
    && t in l.dist && Sound(g, s, l, l.dist[t]) && AllRelaxed(g, s, l, done)
    && forall v | v in l.dist && v !in done :: l.dist[t] <= l.dist[v]
  }

  lemma SettledIsShortest(g: set<Arc>, s: Id, t: Id, l: Labels, done: set<Id>, v: Id)
    requires StoppedAt(g, s, t, l, done) && v in l.dist && l.dist[v] <= l.dist[t]
    ensures Shortest(g, s, v, l.dist[v])
  {
    forall w | IsWalk(g, s, v, w) ensures l.dist[v] <= Cost(w) {
      WalkBound(g, s, l, done, l.dist[t], v, w);
    }
  }

  /** No admitted edge enters `t` for free. */
  ghost predicate Strict(g: set<Arc>, t: Id) {
    forall a | a in g && a.dst == t :: a.cost > 0
  }

  /** A tight arc into such a node has been tried and found no better. */
  lemma ParentBeats(g: set<Arc>, s: Id, t: Id, l: Labels, done: set<Id>, b: Arc)
    requires StoppedAt(g, s, t, l, done) && Tight(g, s, b) && b.dst in l.par
    requires l.dist[b.dst] < l.dist[t] || (b.dst == t && Strict(g, t))
    ensures !KeyLess(b.Label(), l.par[b.dst].Label())
  {
    assert ParentFits(g, l, b.dst, l.dist[t]);
    SettledIsShortest(g, s, t, l, done, b.dst);
    var d: nat :| Shortest(g, s, b.src, d) && Shortest(g, s, b.dst, d + b.cost);
    ShortestUnique(g, s, b.dst, d + b.cost, l.dist[b.dst]);
    var w :| IsWalk(g, s, b.src, w) && Cost(w) == d;
    WalkBound(g, s, l, done, l.dist[t], b.src, w);
    SettledIsShortest(g, s, t, l, done, b.src);
    ShortestUnique(g, s, b.src, d, l.dist[b.src]);
    assert Relaxed(s, l, b);
  }

  /** The parent of every node strictly below the target, and of the target itself when
      nothing enters it for free, is the least tight arc into it. */
  lemma ParentIsLeast(g: set<Arc>, s: Id, t: Id, l: Labels, done: set<Id>, v: Id)
    requires StoppedAt(g, s, t, l, done) && v in l.par
    requires l.dist[v] < l.dist[t] || (v == t && Strict(g, t))
    ensures LeastTight(g, s, l.par[v])
  {
    var a := l.par[v];
    assert ParentFits(g, l, v, l.dist[t]);
    SettledIsShortest(g, s, t, l, done, a.src);
    SettledIsShortest(g, s, t, l, done, v);
    forall b | b in g && b.dst == v && Tight(g, s, b) ensures !KeyLess(b.Label(), a.Label()) {
      ParentBeats(g, s, t, l, done, b);
    }
  }

  lemma ParentIsTight(g: set<Arc>, s: Id, t: Id, l: Labels, done: set<Id>, v: Id)
    requires StoppedAt(g, s, t, l, done) && v in l.par && l.dist[v] <= l.dist[t]
    ensures Tight(g, s, l.par[v])
  {
    assert ParentFits(g, l, v, l.dist[t]);
    SettledIsShortest(g, s, t, l, done, l.par[v].src);
    SettledIsShortest(g, s, t, l, done, v);
  }

  // -------------------------------------------------------- the back-walk

  /** The walk is made of parent arcs, as a chain of back-steps is. */
  ghost predicate OfParents(l: Labels, w: seq<Arc>) {
    forall a | a in w :: a.dst in l.par && l.par[a.dst] == a
  }

  /** Along parent arcs, cost is difference of distances. */
  lemma {:induction false} ParentWalkCost(g: set<Arc>, s: Id, l: Labels, floor: nat, x: Id, y: Id, w: seq<Arc>)
    requires Sound(g, s, l, floor) && IsWalk(g, x, y, w) && OfParents(l, w) && y in l.dist
    ensures x in l.dist && l.dist[x] + Cost(w) == l.dist[y]
    ensures forall a | a in w :: l.dist[a.src] + a.cost <= l.dist[y]
    decreases |w|
  {
    if w != [] {
      var a := Last(w);
      assert a in w;
      assert ParentFits(g, l, a.dst, floor);
      assert forall b | b in Init(w) :: b in w;
      ParentWalkCost(g, s, l, floor, x, a.src, Init(w));
      assert forall b | b in w :: b == a || b in Init(w);
    }
  }

  lemma ParentWalkCanonical(g: set<Arc>, s: Id, t: Id, l: Labels, done: set<Id>, x: Id, w: seq<Arc>)
    requires StoppedAt(g, s, t, l, done) && IsWalk(g, x, t, w) && OfParents(l, w) && Strict(g, t)
    ensures Canonical(g, s, w)
  {
    forall a | a in w ensures LeastTight(g, s, a) && a.dst != s {
      assert ParentFits(g, l, a.dst, l.dist[t]);
      if a.dst != t {
        ParentWalkBelow(g, s, t, l, x, w, a);
      }
      ParentIsLeast(g, s, t, l, done, a.dst);
    }
  }

  /** Inner nodes of a parent walk into `t` lie strictly below it when no free edge enters `t`. */
  lemma {:induction false} ParentWalkBelow(g: set<Arc>, s: Id, t: Id, l: Labels, x: Id, w: seq<Arc>, a: Arc)
    requires t in l.dist && Sound(g, s, l, l.dist[t]) && IsWalk(g, x, t, w) && OfParents(l, w) && Strict(g, t)
    requires a in w && a.dst != t
    ensures a.dst in l.dist && l.dist[a.dst] < l.dist[t]
  {
    var z := Last(w);
    assert z in w;
    assert ParentFits(g, l, t, l.dist[t]) && ParentFits(g, l, a.dst, l.dist[t]);
    assert forall b | b in Init(w) :: b in w;
    assert a in Init(w);
    ParentWalkCost(g, s, l, l.dist[t], x, z.src, Init(w));
  }
}
