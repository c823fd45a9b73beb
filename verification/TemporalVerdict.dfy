/** The temporal-consistency verdict of one functional slot (scripts/temporal_4d_shadow.py). */
module TemporalVerdict {
  datatype Bound = Open | At(t: real)

  /** Half-open: `from` included, `to` excluded; an open end is unbounded. */
  datatype Interval = Interval(from: Bound, to: Bound)

  datatype Claim = Claim(value: string, interval: Interval, confident: bool)

  datatype Verdict = Consistent | Contradiction | NeedsReview

  /** `from < to` with the open ends at the two infinities. */
  predicate Before(from: Bound, to: Bound) {
    from.Open? || to.Open? || from.t < to.t
  }

  predicate Overlap(a: Interval, b: Interval) {
    Before(a.from, b.to) && Before(b.from, a.to)
  }

  predicate Covers(a: Interval, t: real) {
    (a.from.At? ==> a.from.t <= t) && (a.to.At? ==> t < a.to.t)
  }

  predicate IsEmpty(a: Interval) { !Before(a.from, a.to) }

  /** Both ends of `a` are bounded and lie strictly between the ends of `b`. */
  predicate StrictlyInside(a: Interval, b: Interval) {
    && a.from.At? && a.to.At?
    && (b.from.At? ==> b.from.t < a.from.t && b.from.t < a.to.t)
    && (b.to.At? ==> a.from.t < b.to.t && a.to.t < b.to.t)
  }

  /** Two intervals share an instant exactly when they pass the test and neither is empty. */
  lemma OverlapMeansSharedInstant(a: Interval, b: Interval)
    ensures (exists t: real :: Covers(a, t) && Covers(b, t)) <==> Overlap(a, b) && !IsEmpty(a) && !IsEmpty(b)
  {
    if Overlap(a, b) && !IsEmpty(a) && !IsEmpty(b) {
      var t: real :=
        if a.from.At? && b.from.At? then (if a.from.t < b.from.t then b.from.t else a.from.t)
        else if a.from.At? then a.from.t
        else if b.from.At? then b.from.t
        else if a.to.At? && b.to.At? then (if a.to.t < b.to.t then a.to.t else b.to.t) - 1.0
        else if a.to.At? then a.to.t - 1.0
        else if b.to.At? then b.to.t - 1.0
        else 0.0;
      assert Covers(a, t) && Covers(b, t);
    }
  }

  // ---------------------------------------------------------------- the verdict

  predicate Conflict(c: Claim, d: Claim) {
    c.confident && d.confident && c.value != d.value && Overlap(c.interval, d.interval)
  }

  ghost predicate OneValue(claims: seq<Claim>) {
    forall c, d | c in claims && d in claims :: c.value == d.value
  }

  ghost predicate HasConflict(claims: seq<Claim>) {
    exists c, d | c in claims && d in claims :: Conflict(c, d)
  }

  function ConfidentOnes(claims: seq<Claim>): seq<Claim> {
    if claims == [] then []
    else ConfidentOnes(claims[..|claims| - 1]) + if claims[|claims| - 1].confident then [claims[|claims| - 1]] else []
  }

  lemma {:induction false} ConfidentElements(claims: seq<Claim>, c: Claim)
    ensures c in ConfidentOnes(claims) <==> c in claims && c.confident
  {
    if claims != [] {
      ConfidentElements(claims[..|claims| - 1], c);
      assert claims == claims[..|claims| - 1] + [claims[|claims| - 1]];
    }
  }

  ghost predicate IsVerdict(claims: seq<Claim>, v: Verdict) {
    v == if OneValue(claims) then Consistent
         else if HasConflict(claims) then Contradiction
         else if |ConfidentOnes(claims)| >= 2 then Consistent
         else NeedsReview
  }

  method Confident(claims: seq<Claim>) returns (confident: seq<Claim>)
    ensures confident == ConfidentOnes(claims)
  {
    confident := [];
    for i := 0 to |claims|
      invariant confident == ConfidentOnes(claims[..i])
    {
      assert claims[..i + 1][..i] == claims[..i];
      if claims[i].confident { confident := confident + [claims[i]]; }
    }
    assert claims[..|claims|] == claims;
  }

  /** `tcv_check`: a scan of the pairs of confident claims. */
  method TcvCheck(claims: seq<Claim>) returns (v: Verdict)
    ensures IsVerdict(claims, v)
  {
    if forall c, d | c in claims && d in claims :: c.value == d.value { return Consistent; }
    var confident := Confident(claims);
    for i := 0 to |confident|
      invariant forall k, m | 0 <= k < i && k < m < |confident| :: !Conflict(confident[k], confident[m])
    {
      for j := i + 1 to |confident|
        invariant forall m | i < m < j :: !Conflict(confident[i], confident[m])
      {
        if Conflict(confident[i], confident[j]) {
          ConfidentElements(claims, confident[i]);
          ConfidentElements(claims, confident[j]);
          return Contradiction;
        }
      }
    }
    forall c, d | c in confident && d in confident ensures !Conflict(c, d) {
      var k :| 0 <= k < |confident| && confident[k] == c;
      var m :| 0 <= m < |confident| && confident[m] == d;
      assert Conflict(c, d) == Conflict(d, c);
    }
    forall c, d | c in claims && d in claims ensures !Conflict(c, d) {
      ConfidentElements(claims, c);
      ConfidentElements(claims, d);
    }
    return if |confident| >= 2 then Consistent else NeedsReview;
  }

  // ------------------------------------------------------------------ its meaning

  /** Some instant is claimed, with confidence, for two different values. */
  ghost predicate Clash(claims: seq<Claim>) {
    exists c, d, t: real | c in claims && d in claims ::
      c.confident && d.confident && c.value != d.value && Covers(c.interval, t) && Covers(d.interval, t)
  }

  /** A confident claim for an empty interval whose ends lie strictly inside the interval of a
      confident claim for another value: the one shape the overlap test misjudges. */
  predicate EmptyInside(claims: seq<Claim>) {
    exists c, d | c in claims && d in claims ::
      c.confident && d.confident && c.value != d.value && IsEmpty(c.interval) && StrictlyInside(c.interval, d.interval)
  }

  /** "contradiction" means a clash, except exactly on clash-free slots with such an empty claim. */
  lemma ContradictionMeansClashExactly(claims: seq<Claim>, v: Verdict)
    requires IsVerdict(claims, v)
    ensures (v == Contradiction <==> Clash(claims)) <==> (Clash(claims) || !EmptyInside(claims))
  {
    if Clash(claims) {
      var c, d, t: real :| c in claims && d in claims && c.confident && d.confident && c.value != d.value
        && Covers(c.interval, t) && Covers(d.interval, t);
      OverlapMeansSharedInstant(c.interval, d.interval);
      assert Conflict(c, d);
    } else {
      if HasConflict(claims) {
        var c, d :| c in claims && d in claims && Conflict(c, d);
        OverlapMeansSharedInstant(c.interval, d.interval);
        if IsEmpty(c.interval) {
          assert EmptyInside(claims);
        } else {
          assert IsEmpty(d.interval) && StrictlyInside(d.interval, c.interval);
          assert EmptyInside(claims);
        }
      }
      if EmptyInside(claims) {
        var c, d :| c in claims && d in claims && c.confident && d.confident && c.value != d.value
          && IsEmpty(c.interval) && StrictlyInside(c.interval, d.interval);
        assert Conflict(c, d);
      }
    }
  }

  /** On slots whose confident intervals are non-empty the verdict is about instants, both ways. */
  lemma NonEmptyContradictionIsClash(claims: seq<Claim>, v: Verdict)
    requires IsVerdict(claims, v) && forall c | c in claims && c.confident :: !IsEmpty(c.interval)
    ensures v == Contradiction <==> Clash(claims)
  {
    ContradictionMeansClashExactly(claims, v);
  }

  lemma EmptyClaimIsMisjudged(v: Verdict)
    requires IsVerdict([Claim("A", Interval(At(5.0), At(3.0)), true), Claim("B", Interval(At(1.0), At(9.0)), true)], v)
    ensures v == Contradiction
    ensures !Clash([Claim("A", Interval(At(5.0), At(3.0)), true), Claim("B", Interval(At(1.0), At(9.0)), true)])
  {
    var claims := [Claim("A", Interval(At(5.0), At(3.0)), true), Claim("B", Interval(At(1.0), At(9.0)), true)];
    assert claims[0] in claims && claims[1] in claims;
    assert "A" != "B" by { assert "A"[0] != "B"[0]; }
    assert Conflict(claims[0], claims[1]);
  }

  /** A consistent slot of confident claims is a function of time. */
  lemma ConsistentIsFunctionOfTime(claims: seq<Claim>, v: Verdict, t: real, c: Claim, d: Claim)
    requires IsVerdict(claims, v) && v == Consistent && forall x | x in claims :: x.confident
    requires c in claims && d in claims && Covers(c.interval, t) && Covers(d.interval, t)
    ensures c.value == d.value
  {
    OverlapMeansSharedInstant(c.interval, d.interval);
    if c.value != d.value { assert Conflict(c, d); }
  }

  lemma WithoutOne(b: seq<Claim>, i: nat) returns (rest: seq<Claim>)
    requires i < |b|
    ensures multiset(rest) == multiset(b) - multiset{b[i]}
    ensures |ConfidentOnes(b)| == |ConfidentOnes(rest)| + if b[i].confident then 1 else 0
  {
    var left, right := b[..i], b[i + 1..];
    rest := left + right;
    assert b == (left + [b[i]]) + right;
    ConfidentAppend(left + [b[i]], right);
    ConfidentAppend(left, right);
    assert (left + [b[i]])[..i] == left;
  }

  lemma {:induction false} ConfidentCount(a: seq<Claim>, b: seq<Claim>)
    requires multiset(a) == multiset(b)
    ensures |ConfidentOnes(a)| == |ConfidentOnes(b)|
  {
    assert |multiset(a)| == |a| && |multiset(b)| == |b|;
    if a != [] {
      var n := |a| - 1;
      assert a == a[..n] + [a[n]];
      assert a[n] in multiset(b);
      var i :| 0 <= i < |b| && b[i] == a[n];
      var rest := WithoutOne(b, i);
      assert multiset(a[..n]) == multiset(rest);
      ConfidentCount(a[..n], rest);
    }
  }

  lemma {:induction false} ConfidentAppend(a: seq<Claim>, b: seq<Claim>)
    ensures ConfidentOnes(a + b) == ConfidentOnes(a) + ConfidentOnes(b)
  {
    if b == [] {
      assert a + b == a;
    } else {
      assert (a + b)[..|a + b| - 1] == a + b[..|b| - 1];
      ConfidentAppend(a, b[..|b| - 1]);
    }
  }

  /** The order in which the claims are listed does not matter. */
  lemma VerdictIgnoresOrder(a: seq<Claim>, b: seq<Claim>, v: Verdict, w: Verdict)
    requires multiset(a) == multiset(b) && IsVerdict(a, v) && IsVerdict(b, w)
    ensures v == w
  {
    forall c ensures c in a <==> c in b {
      assert c in multiset(a) <==> c in multiset(b);
    }
    ConfidentCount(a, b);
  }

  /** Two claims of the list, at different places, are confident. */
  ghost predicate TwoConfident(claims: seq<Claim>) {
    exists i, j | 0 <= i < j < |claims| :: claims[i].confident && claims[j].confident
  }

  lemma {:induction false} AnyConfident(claims: seq<Claim>)
    ensures |ConfidentOnes(claims)| >= 1 <==> exists i | 0 <= i < |claims| :: claims[i].confident
  {
    if claims != [] {
      var before := claims[..|claims| - 1];
      AnyConfident(before);
      forall i | 0 <= i < |before| ensures before[i] == claims[i] { }
    }
  }

  lemma {:induction false} TwoConfidentCount(claims: seq<Claim>)
    ensures |ConfidentOnes(claims)| >= 2 <==> TwoConfident(claims)
  {
    if claims != [] {
      var before, n := claims[..|claims| - 1], |claims| - 1;
      TwoConfidentCount(before);
      AnyConfident(before);
      forall i | 0 <= i < n ensures before[i] == claims[i] { }
      if TwoConfident(before) {
        var i, j :| 0 <= i < j < |before| && before[i].confident && before[j].confident;
        assert claims[i].confident && claims[j].confident;
      }
    }
  }

  /** The three verdicts in terms of values, instants and confidence, where no confident interval is
      empty: a contradiction is a clash; without one the slot is consistent if all claims agree or
      two of them are confident; otherwise it needs review. */
  lemma VerdictMeans(claims: seq<Claim>, v: Verdict)
    requires IsVerdict(claims, v) && forall c | c in claims && c.confident :: !IsEmpty(c.interval)
    ensures v == Contradiction <==> Clash(claims)
    ensures v == Consistent <==>
            !Clash(claims) && ((forall c, d | c in claims && d in claims :: c.value == d.value) || TwoConfident(claims))
    ensures v == NeedsReview <==>
            !(forall c, d | c in claims && d in claims :: c.value == d.value) && !TwoConfident(claims)
  {
    NonEmptyContradictionIsClash(claims, v);
    TwoConfidentCount(claims);
    if Clash(claims) { ClashNeedsTwo(claims); }
  }

  lemma ClashNeedsTwo(claims: seq<Claim>)
    requires Clash(claims)
    ensures TwoConfident(claims)
  {
    var c, d, t: real :| c in claims && d in claims
      && c.confident && d.confident && c.value != d.value && Covers(c.interval, t) && Covers(d.interval, t);
    var i :| 0 <= i < |claims| && claims[i] == c;
    var j :| 0 <= j < |claims| && claims[j] == d;
    assert claims[if i < j then i else j].confident && claims[if i < j then j else i].confident;
  }
}
