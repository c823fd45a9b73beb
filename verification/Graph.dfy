/** Walks over weighted arcs: what the router's answer means, without the router. */
module Graph {
  import opened Ordering

  datatype Arc = Arc(src: Id, dst: Id, eid: Id, cost: nat)
  {
    function Label(): Key { Key(src, eid) }
  }

  function Init<T>(w: seq<T>): seq<T>
    requires w != []
  {
    w[..|w| - 1]
  }

  function Last<T>(w: seq<T>): T
    requires w != []
  {
    w[|w| - 1]
  }

  /** `w` leads from `s` to `t` through arcs of `g`. */
  ghost predicate IsWalk(g: set<Arc>, s: Id, t: Id, w: seq<Arc>)
    decreases |w|
  {
    if w == [] then s == t
    else Last(w) in g && Last(w).dst == t && IsWalk(g, s, Last(w).src, Init(w))
  }

  ghost function Cost(w: seq<Arc>): nat {
    if w == [] then 0 else Cost(Init(w)) + Last(w).cost
  }

  /** The node list and the edge-id list a walk from `s` is reported as. */
  ghost function Nodes(s: Id, w: seq<Arc>): seq<Id> {
    if w == [] then [s] else Nodes(s, Init(w)) + [Last(w).dst]
  }

  ghost function EdgeIds(w: seq<Arc>): seq<Id> {
    if w == [] then [] else EdgeIds(Init(w)) + [Last(w).eid]
  }

  ghost predicate Connected(g: set<Arc>, s: Id, t: Id) {
    exists w :: IsWalk(g, s, t, w)
  }

  ghost predicate Reached(g: set<Arc>, s: Id, v: Id, d: nat) {
    exists w :: IsWalk(g, s, v, w) && Cost(w) == d
  }

  /** `d` is the least cost of any walk from `s` to `v`. */
  ghost predicate Shortest(g: set<Arc>, s: Id, v: Id, d: nat) {
    && Reached(g, s, v, d)
    && forall w :: IsWalk(g, s, v, w) ==> d <= Cost(w)
  }

  /** The arc lies on a cheapest walk from `s` to its head. */
  ghost predicate Tight(g: set<Arc>, s: Id, a: Arc) {
    a in g && exists d: nat :: Shortest(g, s, a.src, d) && Shortest(g, s, a.dst, d + a.cost)
  }

  /** No tight arc into the same node has a smaller label. */
  ghost predicate LeastTight(g: set<Arc>, s: Id, a: Arc) {
    && Tight(g, s, a)
    && forall b | b in g && b.dst == a.dst && Tight(g, s, b) :: !KeyLess(b.Label(), a.Label())
  }

  /** Every arc is the least tight one into its head, and the source is never re-entered. */
  ghost predicate Canonical(g: set<Arc>, s: Id, w: seq<Arc>) {
    forall a | a in w :: LeastTight(g, s, a) && a.dst != s
  }

  /** A walk `tail` into `t` whose start lies on a closed walk `cycle`. */
  ghost predicate IsLasso(g: set<Arc>, x: Id, t: Id, cycle: seq<Arc>, tail: seq<Arc>) {
    cycle != [] && IsWalk(g, x, x, cycle) && IsWalk(g, x, t, tail)
  }

  // ------------------------------------------------------------------ walks

  lemma {:induction false} WalkAppend(g: set<Arc>, s: Id, m: Id, t: Id, u: seq<Arc>, w: seq<Arc>)
    requires IsWalk(g, s, m, u) && IsWalk(g, m, t, w)
    ensures IsWalk(g, s, t, u + w)
    ensures Cost(u + w) == Cost(u) + Cost(w)
    decreases |w|
  {
    if w == [] {
      assert u + w == u;
    } else {
      assert Init(u + w) == u + Init(w);
      WalkAppend(g, s, m, Last(w).src, u, Init(w));
    }
  }

  lemma ArcWalk(g: set<Arc>, a: Arc)
    requires a in g
    ensures IsWalk(g, a.src, a.dst, [a]) && Cost([a]) == a.cost
  {
    assert Init([a]) == [];
    assert Cost([a]) == Cost(Init([a])) + a.cost;
  }

  lemma ReachedStep(g: set<Arc>, s: Id, a: Arc, d: nat)
    requires Reached(g, s, a.src, d) && a in g
    ensures Reached(g, s, a.dst, d + a.cost)
  {
    var w :| IsWalk(g, s, a.src, w) && Cost(w) == d;
    ArcWalk(g, a);
    WalkAppend(g, s, a.src, a.dst, w, [a]);
  }

  lemma {:induction false} NodesShape(s: Id, w: seq<Arc>)
    ensures |Nodes(s, w)| == |w| + 1 && |EdgeIds(w)| == |w|
    ensures Nodes(s, w)[0] == s
    ensures Nodes(s, w)[|w|] == if w == [] then s else Last(w).dst
    ensures forall i | 0 <= i < |w| :: Nodes(s, w)[i + 1] == w[i].dst && EdgeIds(w)[i] == w[i].eid
  {
    if w != [] { NodesShape(s, Init(w)); }
  }

  lemma PrependArc(g: set<Arc>, a: Arc, t: Id, w: seq<Arc>)
    requires a in g && IsWalk(g, a.dst, t, w)
    ensures IsWalk(g, a.src, t, [a] + w) && Cost([a] + w) == a.cost + Cost(w)
    ensures Nodes(a.src, [a] + w) == [a.src] + Nodes(a.dst, w)
    ensures EdgeIds([a] + w) == [a.eid] + EdgeIds(w)
  {
    ArcWalk(g, a);
    WalkAppend(g, a.src, a.dst, t, [a], w);
    NodesShape(a.src, [a] + w);
    NodesShape(a.dst, w);
    var p, q := Nodes(a.src, [a] + w), [a.src] + Nodes(a.dst, w);
    forall i | 0 <= i < |p| ensures p[i] == q[i] {
      if i >= 1 { assert p[(i - 1) + 1] == ([a] + w)[i - 1].dst; }
      if i >= 2 { assert Nodes(a.dst, w)[(i - 2) + 1] == w[i - 2].dst; }
    }
    assert p == q;
    assert EdgeIds([a] + w) == [a.eid] + EdgeIds(w);
  }

  lemma {:induction false} SplitWalk(g: set<Arc>, x: Id, t: Id, w: seq<Arc>, k: nat)
    requires IsWalk(g, x, t, w) && k <= |w|
    ensures |Nodes(x, w)| == |w| + 1
    ensures IsWalk(g, x, Nodes(x, w)[k], w[..k]) && IsWalk(g, Nodes(x, w)[k], t, w[k..])
    decreases |w|
  {
    NodesShape(x, w);
    if k == |w| {
      assert w[..k] == w && w[k..] == [];
    } else {
      SplitWalk(g, x, Last(w).src, Init(w), k);
      NodesShape(x, Init(w));
      assert Init(w)[..k] == w[..k];
      assert Init(w[k..]) == Init(w)[k..];
    }
  }

  /** An arc that comes back to a node of the walk it extends closes a lasso. */
  lemma CloseLasso(g: set<Arc>, a: Arc, t: Id, w: seq<Arc>) returns (cycle: seq<Arc>, tail: seq<Arc>)
    requires a in g && IsWalk(g, a.dst, t, w) && a.src in Nodes(a.dst, w)
    ensures IsLasso(g, a.src, t, cycle, tail)
    ensures forall b | b in cycle + tail :: b == a || b in w
  {
    var k :| 0 <= k < |Nodes(a.dst, w)| && Nodes(a.dst, w)[k] == a.src;
    NodesShape(a.dst, w);
    SplitWalk(g, a.dst, t, w, k);
    PrependArc(g, a, a.src, w[..k]);
    cycle, tail := [a] + w[..k], w[k..];
  }

  /** A function that no arc can raise by more than its cost bounds every walk from below. */
  lemma {:induction false} PotentialBound(g: set<Arc>, s: Id, v: Id, w: seq<Arc>, phi: map<Id, int>)
    requires IsWalk(g, s, v, w)
    requires s in phi && phi[s] <= 0
    requires forall a | a in g && a.src in phi :: a.dst in phi && phi[a.dst] <= phi[a.src] + a.cost
    ensures v in phi && phi[v] <= Cost(w)
    decreases |w|
  {
    if w != [] { PotentialBound(g, s, Last(w).src, Init(w), phi); }
  }

  lemma ShortestUnique(g: set<Arc>, s: Id, v: Id, d: nat, e: nat)
    requires Shortest(g, s, v, d) && Shortest(g, s, v, e)
    ensures d == e
  {
    var w :| IsWalk(g, s, v, w) && Cost(w) == d;
    var x :| IsWalk(g, s, v, x) && Cost(x) == e;
    assert d <= Cost(x) && e <= Cost(w);
  }

  // ---------------------------------------- at most one arc into each node

  /** One arc at most enters each node, and none enters `s`. */
  ghost predicate Selective(p: set<Arc>, s: Id) {
    && (forall a | a in p :: a.dst != s)
    && forall a, b | a in p && b in p && a.dst == b.dst :: a == b
  }

  lemma {:induction false} WalkWithin(g: set<Arc>, p: set<Arc>, x: Id, t: Id, w: seq<Arc>)
    requires IsWalk(g, x, t, w) && forall a | a in w :: a in p
    ensures IsWalk(p, x, t, w)
    decreases |w|
  {
    if w != [] {
      assert forall a | a in Init(w) :: a in w;
      WalkWithin(g, p, x, Last(w).src, Init(w));
    }
  }

  /** A walk from the source is decided, from its end backwards, by its last node: any other walk
      into the same node agrees with it as far as it goes and cannot be longer. */
  lemma {:induction false} Backwards(p: set<Arc>, s: Id, x: Id, t: Id, w: seq<Arc>, v: seq<Arc>)
    requires Selective(p, s) && IsWalk(p, s, t, w) && IsWalk(p, x, t, v)
    ensures |v| <= |w|
    ensures x == s ==> v == w
    decreases |w|
  {
    if w != [] && v != [] {
      Backwards(p, s, x, Last(w).src, Init(w), Init(v));
      assert w == Init(w) + [Last(w)] && v == Init(v) + [Last(v)];
    }
  }

  ghost function Pump(cycle: seq<Arc>, n: nat): seq<Arc> {
    if n == 0 then [] else Pump(cycle, n - 1) + cycle
  }

  lemma {:induction false} PumpWalk(p: set<Arc>, x: Id, cycle: seq<Arc>, n: nat)
    requires cycle != [] && IsWalk(p, x, x, cycle)
    ensures IsWalk(p, x, x, Pump(cycle, n)) && |Pump(cycle, n)| >= n
  {
    if n > 0 {
      PumpWalk(p, x, cycle, n - 1);
      WalkAppend(p, x, x, x, Pump(cycle, n - 1), cycle);
    }
  }

  /** A node cannot end both a walk from the source and a lasso. */
  lemma NoWalkAndLasso(p: set<Arc>, s: Id, x: Id, t: Id, w: seq<Arc>, cycle: seq<Arc>, tail: seq<Arc>)
    requires Selective(p, s) && IsWalk(p, s, t, w)
    ensures !IsLasso(p, x, t, cycle, tail)
  {
    if IsLasso(p, x, t, cycle, tail) {
      var round := Pump(cycle, |w| + 1);
      PumpWalk(p, x, cycle, |w| + 1);
      WalkAppend(p, x, x, t, round, tail);
      Backwards(p, s, x, t, w, round + tail);
    }
  }

  // ------------------------------------------------------------- canonicity

  ghost function CanonicalArcs(g: set<Arc>, s: Id): set<Arc> {
    set a | a in g && LeastTight(g, s, a) && a.dst != s
  }

  /** Two least tight arcs into one node are the same. */
  lemma LeastTightUnique(g: set<Arc>, s: Id, a: Arc, b: Arc)
    requires LeastTight(g, s, a) && LeastTight(g, s, b) && a.dst == b.dst
    ensures a == b
  {
    KeyTotal(a.Label(), b.Label());
    var d: nat :| Shortest(g, s, a.src, d) && Shortest(g, s, a.dst, d + a.cost);
    var e: nat :| Shortest(g, s, b.src, e) && Shortest(g, s, b.dst, e + b.cost);
    ShortestUnique(g, s, a.src, d, e);
    ShortestUnique(g, s, a.dst, d + a.cost, e + b.cost);
  }

  lemma CanonicalSelective(g: set<Arc>, s: Id)
    ensures Selective(CanonicalArcs(g, s), s)
  {
    forall a, b | a in CanonicalArcs(g, s) && b in CanonicalArcs(g, s) && a.dst == b.dst ensures a == b {
      LeastTightUnique(g, s, a, b);
    }
  }

  lemma CanonicalWithin(g: set<Arc>, s: Id, x: Id, t: Id, w: seq<Arc>)
    requires IsWalk(g, x, t, w) && Canonical(g, s, w)
    ensures IsWalk(CanonicalArcs(g, s), x, t, w)
  {
    forall a | a in w ensures a in CanonicalArcs(g, s) {
      assert LeastTight(g, s, a);
    }
    WalkWithin(g, CanonicalArcs(g, s), x, t, w);
  }

  /** A canonical walk from the source and a canonical lasso cannot both lead into one node. */
  lemma NoCanonicalWalkAndLasso(g: set<Arc>, s: Id, x: Id, t: Id, w: seq<Arc>, cycle: seq<Arc>, tail: seq<Arc>)
    requires IsWalk(g, s, t, w) && Canonical(g, s, w)
    ensures !(IsLasso(g, x, t, cycle, tail) && Canonical(g, s, cycle) && Canonical(g, s, tail))
  {
    if IsLasso(g, x, t, cycle, tail) && Canonical(g, s, cycle) && Canonical(g, s, tail) {
      CanonicalSelective(g, s);
      CanonicalWithin(g, s, s, t, w);
      CanonicalWithin(g, s, x, x, cycle);
      CanonicalWithin(g, s, x, t, tail);
      NoWalkAndLasso(CanonicalArcs(g, s), s, x, t, w, cycle, tail);
    }
  }
}
