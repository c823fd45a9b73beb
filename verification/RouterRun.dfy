/** The search as a run that the admitted graph alone decides: which node is expanded next, and
    what expanding it does to the labels in whatever order its edges are tried
    (packages/atlas_router/dijkstra.py). */
module RouterRun {
  import opened Ordering
  import opened Graph
  import opened RouterSearch

  /** Labels, and the nodes expanded so far. */
  datatype Stage = Stage(labels: Labels, done: set<Id>)

  function Start(s: Id): Stage { Stage(Labels(map[s := 0], map[]), {}) }

  /** `u` is the first of the labelled nodes still to be expanded. */
  ghost predicate Picks(x: Stage, u: Id) {
    && u in x.labels.dist && u !in x.done
    && forall v | v in x.labels.dist && v !in x.done ::
         !EntryLess(Entry(x.labels.dist[v], v), Entry(x.labels.dist[u], u))
  }

  lemma PicksUnique(x: Stage, u: Id, v: Id)
    requires Picks(x, u) && Picks(x, v)
    ensures u == v
  {
    LessTotal(u, v);
  }

  // ------------------------------------------------ what an expansion does

  ghost predicate Proper(s: Id, l: Labels) { l.par.Keys == l.dist.Keys - {s} }

  ghost function Outgoing(g: set<Arc>, u: Id): set<Arc> {
    set a | a in g && a.src == u
  }

  ghost predicate Unmoved(l: Labels, m: Labels, v: Id) {
    && v in l.dist && v in m.dist && m.dist[v] == l.dist[v]
    && (v in m.par <==> v in l.par) && (v in l.par ==> m.par[v] == l.par[v])
  }

  /** The label of `v` now comes from one of the arcs tried, which improves on the old one. */
  ghost predicate Moved(l: Labels, tried: set<Arc>, m: Labels, v: Id) {
    && v in m.par && v in m.dist && m.par[v] in tried && m.par[v].dst == v && m.par[v].src in l.dist
    && Improves(l, m.par[v]) && m.dist[v] == l.dist[m.par[v].src] + m.par[v].cost
  }

  ghost predicate Came(l: Labels, tried: set<Arc>, m: Labels) {
    && (forall v | v in l.dist :: v in m.dist)
    && forall v | v in m.dist :: Unmoved(l, m, v) || Moved(l, tried, m, v)
  }

  lemma CameStart(s: Id, l: Labels)
    requires Proper(s, l)
    ensures Came(l, {}, l)
  {
  }

  lemma CameMore(l: Labels, tried: set<Arc>, more: set<Arc>, m: Labels)
    requires Came(l, tried, m) && tried <= more
    ensures Came(l, more, m)
  {
    forall v | v in m.dist ensures Unmoved(l, m, v) || Moved(l, more, m, v) {
      assert Unmoved(l, m, v) || Moved(l, tried, m, v);
    }
  }

  /** An arc that improves on the labels so far improves on the first ones too. */
  lemma ImprovesFirst(l: Labels, tried: set<Arc>, m: Labels, a: Arc)
    requires Came(l, tried, m) && a.src in l.dist && a.src in m.dist && m.dist[a.src] == l.dist[a.src]
    requires Improves(m, a)
    ensures Improves(l, a)
  {
    var v := a.dst;
    if v in l.dist && v in m.dist && !Unmoved(l, m, v) {
      assert Moved(l, tried, m, v);
      var b := m.par[v];
      if v in l.par && KeyLess(a.Label(), b.Label()) && KeyLess(b.Label(), l.par[v].Label()) {
        KeyTransitive(a.Label(), b.Label(), l.par[v].Label());
      }
    }
  }

  lemma CameStep(l: Labels, tried: set<Arc>, m: Labels, a: Arc)
    requires Came(l, tried, m) && a.src in l.dist && a.src in m.dist && m.dist[a.src] == l.dist[a.src]
    ensures Came(l, tried + {a}, if Improves(m, a) then Take(m, a) else m)
  {
    CameMore(l, tried, tried + {a}, m);
    if Improves(m, a) {
      ImprovesFirst(l, tried, m, a);
      var n := Take(m, a);
      forall v | v in n.dist ensures Unmoved(l, n, v) || Moved(l, tried + {a}, n, v) {
        if v != a.dst { assert Unmoved(l, m, v) || Moved(l, tried + {a}, m, v); }
      }
    }
  }

  /** Trying again the arcs of a node that has nothing left to offer changes nothing. */
  lemma CameBack(s: Id, l: Labels, tried: set<Arc>, m: Labels)
    requires Proper(s, l) && Proper(s, m) && Came(l, tried, m)
    requires forall a | a in tried :: Relaxed(s, l, a)
    ensures m == l
  {
    forall v | v in m.dist ensures Unmoved(l, m, v) {
      assert Unmoved(l, m, v) || Moved(l, tried, m, v);
    }
    assert m.dist.Keys == l.dist.Keys;
    assert m.dist == l.dist;
    assert m.par.Keys == l.par.Keys;
    assert m.par == l.par;
  }

  /** All arcs out of `u` have been tried and have nothing left to offer. */
  ghost predicate Expanded(g: set<Arc>, s: Id, l: Labels, u: Id, m: Labels) {
    && Proper(s, l) && Proper(s, m) && Came(l, Outgoing(g, u), m)
    && u in l.dist && u in m.dist && m.dist[u] == l.dist[u]
    && forall a | a in Outgoing(g, u) :: Relaxed(s, m, a)
  }

  lemma ExpandedAt(g: set<Arc>, s: Id, l: Labels, u: Id, m: Labels, n: Labels, v: Id)
    requires Expanded(g, s, l, u, m) && Expanded(g, s, l, u, n) && v in m.dist
    ensures v in n.dist && n.dist[v] == m.dist[v] && (v in m.par ==> v in n.par && n.par[v] == m.par[v])
  {
    var out := Outgoing(g, u);
    if Moved(l, out, m, v) { assert Relaxed(s, n, m.par[v]); }
    if v in n.dist && Moved(l, out, n, v) { assert Relaxed(s, m, n.par[v]); }
    assert Unmoved(l, m, v) || Moved(l, out, m, v);
    assert Unmoved(l, n, v) || Moved(l, out, n, v);
    if Moved(l, out, m, v) && Moved(l, out, n, v) {
      KeyTotal(m.par[v].Label(), n.par[v].Label());
    }
  }

  /** The order in which the arcs are tried leaves no trace in the labels. */
  lemma ExpandedUnique(g: set<Arc>, s: Id, l: Labels, u: Id, m: Labels, n: Labels)
    requires Expanded(g, s, l, u, m) && Expanded(g, s, l, u, n)
    ensures m == n
  {
    forall v | v in m.dist ensures v in n.dist && n.dist[v] == m.dist[v]
      && (v in m.par ==> v in n.par && n.par[v] == m.par[v]) {
      ExpandedAt(g, s, l, u, m, n, v);
    }
    forall v | v in n.dist ensures v in m.dist {
      ExpandedAt(g, s, l, u, n, m, v);
    }
    assert m.dist.Keys == n.dist.Keys;
    assert m.par.Keys == n.par.Keys;
    assert m.dist == n.dist && m.par == n.par;
  }

  // ------------------------------------------------------------------- runs

  ghost predicate Advances(g: set<Arc>, s: Id, x: Stage, u: Id, y: Stage) {
    Picks(x, u) && Expanded(g, s, x.labels, u, y.labels) && y.done == x.done + {u}
  }

  /** One first expansion, of a node other than the target. */
  ghost predicate StepsTo(g: set<Arc>, s: Id, t: Id, x: Stage, y: Stage) {
    exists u :: u != t && Advances(g, s, x, u, y)
  }

  lemma StepsToUnique(g: set<Arc>, s: Id, t: Id, x: Stage, y: Stage, z: Stage)
    requires StepsTo(g, s, t, x, y) && StepsTo(g, s, t, x, z)
    ensures y == z
  {
    var u :| u != t && Advances(g, s, x, u, y);
    var v :| v != t && Advances(g, s, x, v, z);
    PicksUnique(x, u, v);
    ExpandedUnique(g, s, x.labels, u, y.labels, z.labels);
  }

  ghost predicate IsRun(g: set<Arc>, s: Id, t: Id, xs: seq<Stage>) {
    && xs != [] && xs[0] == Start(s)
    && forall i | 0 < i < |xs| :: StepsTo(g, s, t, xs[i - 1], xs[i])
  }

  lemma RunExtends(g: set<Arc>, s: Id, t: Id, xs: seq<Stage>, y: Stage)
    requires IsRun(g, s, t, xs) && StepsTo(g, s, t, Last(xs), y)
    ensures IsRun(g, s, t, xs + [y]) && Last(xs + [y]) == y
  {
  }

  /** Two runs on one graph go the same way as far as both go. */
  lemma {:induction false} RunsAgree(g: set<Arc>, s: Id, t: Id, xs: seq<Stage>, ys: seq<Stage>, i: nat)
    requires IsRun(g, s, t, xs) && IsRun(g, s, t, ys) && i < |xs| && i < |ys|
    ensures xs[i] == ys[i]
  {
    if i > 0 {
      RunsAgree(g, s, t, xs, ys, i - 1);
      StepsToUnique(g, s, t, xs[i - 1], xs[i], ys[i]);
    }
  }

  /** A run has come to `x` and the target is next. */
  ghost predicate Final(g: set<Arc>, s: Id, t: Id, x: Stage) {
    Picks(x, t) && exists xs :: IsRun(g, s, t, xs) && Last(xs) == x
  }

  lemma NoStepPastTarget(g: set<Arc>, s: Id, t: Id, xs: seq<Stage>, ys: seq<Stage>)
    requires IsRun(g, s, t, xs) && IsRun(g, s, t, ys) && Picks(Last(xs), t)
    ensures |ys| <= |xs|
  {
    if |xs| < |ys| {
      var n := |xs|;
      RunsAgree(g, s, t, xs, ys, n - 1);
      assert StepsTo(g, s, t, ys[n - 1], ys[n]);
      var u :| u != t && Advances(g, s, ys[n - 1], u, ys[n]);
      PicksUnique(Last(xs), t, u);
    }
  }

  /** The graph decides with which labels the search stops at the target. */
  lemma FinalUnique(g: set<Arc>, s: Id, t: Id, x: Stage, y: Stage)
    requires Final(g, s, t, x) && Final(g, s, t, y)
    ensures x == y
  {
    var xs :| IsRun(g, s, t, xs) && Last(xs) == x;
    var ys :| IsRun(g, s, t, ys) && Last(ys) == y;
    NoStepPastTarget(g, s, t, xs, ys);
    NoStepPastTarget(g, s, t, ys, xs);
    RunsAgree(g, s, t, xs, ys, |xs| - 1);
  }

  lemma FinalIsProper(g: set<Arc>, s: Id, t: Id, x: Stage)
    requires Final(g, s, t, x)
    ensures Proper(s, x.labels)
  {
    var xs :| IsRun(g, s, t, xs) && Last(xs) == x;
    if |xs| > 1 {
      assert StepsTo(g, s, t, xs[|xs| - 2], xs[|xs| - 1]);
    }
  }

  /** Every node a run has labelled can be walked to. */
  lemma {:induction false} RunConnected(g: set<Arc>, s: Id, t: Id, xs: seq<Stage>, i: nat, v: Id)
    requires IsRun(g, s, t, xs) && i < |xs| && v in xs[i].labels.dist
    ensures Connected(g, s, v)
  {
    if i == 0 {
      assert IsWalk(g, s, s, []);
    } else {
      var u :| u != t && Advances(g, s, xs[i - 1], u, xs[i]);
      var l, m := xs[i - 1].labels, xs[i].labels;
      if v in l.dist {
        RunConnected(g, s, t, xs, i - 1, v);
      } else {
        assert Moved(l, Outgoing(g, u), m, v);
        RunConnected(g, s, t, xs, i - 1, u);
        var w :| IsWalk(g, s, u, w);
        ReachedStep(g, s, m.par[v], Cost(w));
      }
    }
  }

  lemma FinalConnected(g: set<Arc>, s: Id, t: Id, x: Stage)
    requires Final(g, s, t, x)
    ensures Connected(g, s, t)
  {
    var xs :| IsRun(g, s, t, xs) && Last(xs) == x;
    RunConnected(g, s, t, xs, |xs| - 1, t);
  }

  // ------------------------------------------------- chains of predecessors

  /** The walk follows `previous` as it stands when the search stops at the target. */
  ghost predicate Chosen(g: set<Arc>, s: Id, t: Id, w: seq<Arc>) {
    exists x :: Final(g, s, t, x) && OfParents(x.labels, w)
  }

  ghost function ParentArcs(l: Labels): set<Arc> {
    set v | v in l.par && l.par[v].dst == v :: l.par[v]
  }

  lemma ParentsSelective(s: Id, l: Labels)
    requires Proper(s, l)
    ensures Selective(ParentArcs(l), s)
  {
  }

  lemma ParentsWithin(g: set<Arc>, l: Labels, x: Id, t: Id, w: seq<Arc>)
    requires IsWalk(g, x, t, w) && OfParents(l, w)
    ensures IsWalk(ParentArcs(l), x, t, w)
  {
    WalkWithin(g, ParentArcs(l), x, t, w);
  }

  /** At most one walk from the source follows `previous` into the target. */
  lemma ChosenUnique(g: set<Arc>, s: Id, t: Id, w: seq<Arc>, v: seq<Arc>)
    requires IsWalk(g, s, t, w) && Chosen(g, s, t, w) && IsWalk(g, s, t, v) && Chosen(g, s, t, v)
    ensures w == v
  {
    var x :| Final(g, s, t, x) && OfParents(x.labels, w);
    var y :| Final(g, s, t, y) && OfParents(y.labels, v);
    FinalUnique(g, s, t, x, y);
    FinalIsProper(g, s, t, x);
    ParentsSelective(s, x.labels);
    ParentsWithin(g, x.labels, s, t, w);
    ParentsWithin(g, x.labels, s, t, v);
    Backwards(ParentArcs(x.labels), s, s, t, w, v);
  }

  /** It cannot be that one such walk reaches the source and another goes round in circles. */
  lemma ChosenNotBoth(g: set<Arc>, s: Id, t: Id, w: seq<Arc>, x: Id, cycle: seq<Arc>, tail: seq<Arc>)
    requires IsWalk(g, s, t, w) && Chosen(g, s, t, w)
    ensures !(IsLasso(g, x, t, cycle, tail) && Chosen(g, s, t, cycle + tail))
  {
    if IsLasso(g, x, t, cycle, tail) && Chosen(g, s, t, cycle + tail) {
      var y :| Final(g, s, t, y) && OfParents(y.labels, w);
      var z :| Final(g, s, t, z) && OfParents(z.labels, cycle + tail);
      FinalUnique(g, s, t, y, z);
      FinalIsProper(g, s, t, y);
      ParentsSelective(s, y.labels);
      assert forall a | a in cycle :: a in cycle + tail;
      assert forall a | a in tail :: a in cycle + tail;
      ParentsWithin(g, y.labels, s, t, w);
      ParentsWithin(g, y.labels, x, x, cycle);
      ParentsWithin(g, y.labels, x, t, tail);
      NoWalkAndLasso(ParentArcs(y.labels), s, x, t, w, cycle, tail);
    }
  }
}
