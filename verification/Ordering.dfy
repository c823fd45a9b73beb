/** The order Python puts on strings, and on pairs of strings: the router breaks
    every tie with it. */
module Ordering {
  type Id = string

  /** Strict lexicographic order on code points. */
  predicate Less(a: Id, b: Id) {
    if b == [] then false
    else if a == [] then true
    else a[0] < b[0] || (a[0] == b[0] && Less(a[1..], b[1..]))
  }

  /** At `k` the two first differ, `a` having the smaller code point there or none. */
  predicate DifferAt(a: Id, b: Id, k: nat) {
    k <= |a| && k < |b| && a[..k] == b[..k] && (k == |a| || a[k] < b[k])
  }

  lemma {:induction false} LessMeans(a: Id, b: Id)
    ensures Less(a, b) <==> exists k: nat :: DifferAt(a, b, k)
  {
    if a == [] && b != [] {
      assert DifferAt(a, b, 0);
    } else if a != [] && b != [] {
      LessMeans(a[1..], b[1..]);
      if a[0] < b[0] { assert DifferAt(a, b, 0); }
      if a[0] == b[0] && Less(a[1..], b[1..]) {
        var k: nat :| DifferAt(a[1..], b[1..], k);
        assert a[..k + 1] == [a[0]] + a[1..][..k] && b[..k + 1] == [b[0]] + b[1..][..k];
        assert DifferAt(a, b, k + 1);
      }
      forall k: nat | DifferAt(a, b, k) ensures Less(a, b) {
        if k > 0 {
          assert a[..k][0] == b[..k][0];
          assert a[1..][..k - 1] == a[..k][1..] && b[1..][..k - 1] == b[..k][1..];
          assert DifferAt(a[1..], b[1..], k - 1);
        }
      }
    }
  }

  lemma {:induction false} LessIrreflexive(a: Id)
    ensures !Less(a, a)
  {
    if a != [] { LessIrreflexive(a[1..]); }
  }

  lemma {:induction false} LessTransitive(a: Id, b: Id, c: Id)
    requires Less(a, b) && Less(b, c)
    ensures Less(a, c)
  {
    if a != [] && a[0] == b[0] == c[0] {
      LessTransitive(a[1..], b[1..], c[1..]);
    }
  }

  lemma {:induction false} LessTotal(a: Id, b: Id)
    ensures Less(a, b) || a == b || Less(b, a)
  {
    if a != [] && b != [] && a[0] == b[0] {
      LessTotal(a[1..], b[1..]);
      assert a == [a[0]] + a[1..] && b == [b[0]] + b[1..];
    }
  }

  /** A predecessor label: the node an edge leaves and the edge's own id. */
  datatype Key = Key(node: Id, edge: Id)

  predicate KeyLess(p: Key, q: Key) {
    Less(p.node, q.node) || (p.node == q.node && Less(p.edge, q.edge))
  }

  lemma KeyIrreflexive(p: Key)
    ensures !KeyLess(p, p)
  {
    LessIrreflexive(p.node);
    LessIrreflexive(p.edge);
  }

  lemma KeyTransitive(p: Key, q: Key, r: Key)
    requires KeyLess(p, q) && KeyLess(q, r)
    ensures KeyLess(p, r)
  {
    if Less(p.node, q.node) && Less(q.node, r.node) {
      LessTransitive(p.node, q.node, r.node);
    } else if p.node == q.node && q.node == r.node {
      LessTransitive(p.edge, q.edge, r.edge);
    }
  }

  lemma KeyTotal(p: Key, q: Key)
    ensures KeyLess(p, q) || p == q || KeyLess(q, p)
  {
    LessTotal(p.node, q.node);
    LessTotal(p.edge, q.edge);
  }

  /** How many keys of `keys` lie strictly below `p`: what a tie replacement lowers. */
  ghost function Below(keys: set<Key>, p: Key): set<Key> {
    set q | q in keys && KeyLess(q, p)
  }

  lemma RankDrops(keys: set<Key>, p: Key, q: Key)
    requires p in keys && KeyLess(p, q)
    ensures |Below(keys, p)| < |Below(keys, q)| <= |keys|
  {
    forall r | r in Below(keys, p) ensures r in Below(keys, q) {
      KeyTransitive(r, p, q);
    }
    KeyIrreflexive(p);
    assert p in Below(keys, q) && p !in Below(keys, p);
    SubsetSize(Below(keys, p), Below(keys, q) - {p});
    SubsetSize(Below(keys, q), keys);
  }

  lemma {:induction false} SubsetSize<T>(a: set<T>, b: set<T>)
    requires a <= b
    ensures |a| <= |b|
  {
    if a != {} {
      var x :| x in a;
      SubsetSize(a - {x}, b - {x});
    }
  }
}
