/** The CUSUM of the measurement drift monitor and its default baseline
    (scripts/measurement_drift_monitor.py). */
module DriftMonitor {
  import opened Rounding
  import opened Wrappers

  const CUSUM_K := 0.05
  const CUSUM_H := 5.0

  datatype Sample = Sample(caseFramesHash: string, hitRate: real, leak: int, negativeAnchor: int)

  datatype Classification = QualityRegression | IsolationDrift | QualityShift | Stable

  function Round4(x: real): real { HalfEven(x * 10000.0) as real / 10000.0 }

  /** Sum of the rates with index in [i, j). */
  function Sum(q: seq<real>, i: nat, j: nat): real
    requires i <= j <= |q|
  {
    if i == j then 0.0 else Sum(q, i, j - 1) + q[j - 1]
  }

  /** Accumulated deviation above baseline and allowance over [i, j). */
  function Drift(q: seq<real>, mu: real, i: nat, j: nat): real
    requires i <= j <= |q|
  {
    if i == j then 0.0 else Drift(q, mu, i, j - 1) + (q[j - 1] - mu - CUSUM_K)
  }

  /** The mean of the window itself, to four digits. */
  function WindowMean(q: seq<real>): real {
    if q == [] then 0.0 else Round4(Sum(q, 0, |q|) / |q| as real)
  }

  function Baseline(q: seq<real>, external: Option<real>): real {
    match external
    case Some(mu) => mu
    case None => WindowMean(q)
  }

  /** The recursion the source iterates. */
  function Cusum(q: seq<real>, mu: real, n: nat): real
    requires n <= |q|
  {
    if n == 0 then 0.0
    else
      var next := Cusum(q, mu, n - 1) + (q[n - 1] - mu - CUSUM_K);
      if next < 0.0 then 0.0 else next
  }

  /** Some stretch of consecutive samples deviates by the threshold. */
  ghost predicate SomeWindowReaches(q: seq<real>, mu: real, n: nat)
    requires n <= |q|
  {
    exists i: nat, j: nat | i <= j <= n :: Drift(q, mu, i, j) >= CUSUM_H
  }

  /** Closed form: the running value is the largest of all suffix sums, the empty one included. */
  lemma {:induction false} CusumIsMaxSuffix(q: seq<real>, mu: real, n: nat) returns (best: nat)
    requires n <= |q|
    ensures best <= n && Cusum(q, mu, n) == Drift(q, mu, best, n)
    ensures forall i: nat | i <= n :: Drift(q, mu, i, n) <= Cusum(q, mu, n)
  {
    if n == 0 {
      best := 0;
    } else {
      var before := CusumIsMaxSuffix(q, mu, n - 1);
      best := if Drift(q, mu, before, n) < 0.0 then n else before;
      forall i: nat | i <= n ensures Drift(q, mu, i, n) <= Cusum(q, mu, n) {
        if i < n { assert Drift(q, mu, i, n - 1) <= Cusum(q, mu, n - 1); }
      }
    }
  }

  /** Some stretch of samples adds up to five more than its length times baseline and allowance. */
  ghost predicate SomeStretchGains(q: seq<real>, mu: real) {
    exists i: nat, j: nat | i <= j <= |q| :: Sum(q, i, j) >= 5.0 + (j - i) as real * (mu + 0.05)
  }

  lemma StretchesAreWindows(q: seq<real>, mu: real)
    ensures SomeWindowReaches(q, mu, |q|) <==> SomeStretchGains(q, mu)
  {
    if SomeWindowReaches(q, mu, |q|) {
      var i: nat, j: nat :| i <= j <= |q| && Drift(q, mu, i, j) >= CUSUM_H;
      DriftIsSum(q, mu, i, j);
      assert Sum(q, i, j) >= 5.0 + (j - i) as real * (mu + 0.05);
    }
    if SomeStretchGains(q, mu) {
      var i: nat, j: nat :| i <= j <= |q| && Sum(q, i, j) >= 5.0 + (j - i) as real * (mu + 0.05);
      DriftIsSum(q, mu, i, j);
      assert Drift(q, mu, i, j) >= CUSUM_H;
    }
  }

  /** The default baseline is the mean of the samples to within half of the fourth digit. */
  lemma WindowMeanIsNear(q: seq<real>)
    requires q != []
    ensures var mean := Sum(q, 0, |q|) / |q| as real; mean - 0.00005 <= WindowMean(q) <= mean + 0.00005
  {
    HalfEvenNear(Sum(q, 0, |q|) / |q| as real * 10000.0);
  }

  /** The loop of `run_monitor`, and the verdict it hands on. */
  method RunMonitor(rows: seq<Sample>, external: Option<real>)
    returns (series: seq<real>, fired: bool, verdict: Classification)
    ensures var q := seq(|rows|, i requires 0 <= i < |rows| => rows[i].hitRate);
      && |series| == |q| && (forall n | 0 <= n < |q| :: series[n] == Round4(Cusum(q, Baseline(q, external), n + 1)))
      && (fired <==> SomeWindowReaches(q, Baseline(q, external), |q|))
      && (external.Some? ==> (fired <==> SomeStretchGains(q, external.value)))
      && (external.None? ==> (fired <==> SomeStretchGains(q, WindowMean(q))))
    ensures verdict == QualityRegression <==> exists r :: r in rows && (r.leak != 0 || r.negativeAnchor != 0)
    ensures verdict == IsolationDrift <==>
      && (forall r | r in rows :: r.leak == 0 && r.negativeAnchor == 0)
      && exists r, t :: r in rows && t in rows && r.caseFramesHash != t.caseFramesHash
    ensures verdict == QualityShift ==> fired
    ensures verdict == Stable ==> !fired
  {
    var quals := seq(|rows|, i requires 0 <= i < |rows| => rows[i].hitRate);
    var mu0 := Baseline(quals, external);
    var s := 0.0;
    series, fired := [], false;
    for n := 0 to |quals|
      invariant s == Cusum(quals, mu0, n)
      invariant |series| == n && forall k | 0 <= k < n :: series[k] == Round4(Cusum(quals, mu0, k + 1))
      invariant fired <==> SomeWindowReaches(quals, mu0, n)
    {
      var best := CusumIsMaxSuffix(quals, mu0, n + 1);
      var next := s + (quals[n] - mu0 - CUSUM_K);
      s := if next < 0.0 then 0.0 else next;
      series := series + [Round4(s)];
      if s >= CUSUM_H {
        fired := true;
      }
    }
    StretchesAreWindows(quals, mu0);
    if exists r :: r in rows && (r.leak != 0 || r.negativeAnchor != 0) {
      verdict := QualityRegression;
    } else if exists r, t :: r in rows && t in rows && r.caseFramesHash != t.caseFramesHash {
      verdict := IsolationDrift;
    } else {
      verdict := if fired then QualityShift else Stable;
    }
  }

  // ------------------------------------------- when the default baseline can fire

  ghost predicate Rates(q: seq<real>) {
    forall x | x in q :: 0.0 <= x <= 1.0
  }

  lemma {:induction false} DriftIsSum(q: seq<real>, mu: real, i: nat, j: nat)
    requires i <= j <= |q|
    ensures Drift(q, mu, i, j) == Sum(q, i, j) - (j - i) as real * (mu + CUSUM_K)
  {
    if i < j {
      DriftIsSum(q, mu, i, j - 1);
      assert (j - i) as real == (j - 1 - i) as real + 1.0;
    }
  }

  lemma {:induction false} SumBounds(q: seq<real>, i: nat, j: nat)
    requires i <= j <= |q| && Rates(q)
    ensures 0.0 <= Sum(q, i, j) <= (j - i) as real
  {
    if i < j {
      SumBounds(q, i, j - 1);
      assert q[j - 1] in q;
    }
  }

  lemma {:induction false} SumSplits(q: seq<real>, i: nat, j: nat, k: nat)
    requires i <= j <= k <= |q|
    ensures Sum(q, i, k) == Sum(q, i, j) + Sum(q, j, k)
  {
    if j < k { SumSplits(q, i, j, k - 1); }
  }

  lemma Scale(n: real, x: real, y: real)
    requires n >= 0.0 && x <= y
    ensures n * x <= n * y
  {
  }

  lemma Unscale(n: real, x: real, y: real)
    requires n > 0.0 && n * x <= n * y
    ensures x <= y
  {
  }

  lemma NearMean(total: real, n: real, r: real, e: real)
    requires n >= 1.0 && total / n - e <= r <= total / n + e
    ensures total - n * e <= n * r && n * r <= total + n * e
  {
    var mean := total / n;
    assert n * mean == total;
    Scale(n, r, mean + e);
    Scale(n, mean - e, r);
    assert n * (mean + e) == n * mean + n * e && n * (mean - e) == n * mean - n * e;
  }

  lemma MeanBounds(q: seq<real>)
    requires q != []
    ensures Sum(q, 0, |q|) - 0.00005 * |q| as real <= |q| as real * WindowMean(q)
    ensures |q| as real * WindowMean(q) <= Sum(q, 0, |q|) + 0.00005 * |q| as real
  {
    HalfEvenNear(Sum(q, 0, |q|) / |q| as real * 10000.0);
    NearMean(Sum(q, 0, |q|), |q| as real, WindowMean(q), 0.00005);
  }

  /** A window of `w` of `n` samples with sum `s` gains most when it is all ones and about half long. */
  lemma WindowGain(n: real, w: real, s: real, mu: real)
    requires n >= 1.0 && 0.0 <= w <= n && 0.0 <= s <= w && n * mu >= s - 0.00005 * n
    ensures s - w * (mu + CUSUM_K) <= 0.22565 * n
  {
    assert w * (n * mu) >= w * (s - 0.00005 * n);
    assert (n - w) * s <= (n - w) * w;
    var gain := s - w * (mu + CUSUM_K);
    assert n * gain <= w * (0.95005 * n - w) by {
      assert n * gain == n * s - w * (n * mu) - 0.05 * (w * n);
      assert w * (s - 0.00005 * n) == w * s - 0.00005 * (w * n);
      assert w * (0.95005 * n - w) == 0.95005 * (w * n) - w * w;
      assert (n - w) * s == n * s - w * s && (n - w) * w == w * n - w * w;
    }
    var c := w - 0.475025 * n;
    assert c * c >= 0.0;
    assert w * (0.95005 * n - w) == 0.475025 * 0.475025 * (n * n) - c * c by {
      assert c * c == w * w - 0.95005 * (w * n) + 0.475025 * 0.475025 * (n * n);
      assert w * (0.95005 * n - w) == 0.95005 * (w * n) - w * w;
    }
    assert n * gain <= n * (0.22565 * n) by {
      assert n * (0.22565 * n) == 0.22565 * (n * n);
    }
  }

  /** A stretch of rates adds up to no more than the whole. */
  lemma PartOfTotal(q: seq<real>, i: nat, j: nat)
    requires Rates(q) && i <= j <= |q|
    ensures 0.0 <= Sum(q, i, j) <= (j - i) as real && Sum(q, i, j) <= Sum(q, 0, |q|)
  {
    SumBounds(q, i, j);
    SumBounds(q, 0, i);
    SumBounds(q, j, |q|);
    SumSplits(q, 0, i, j);
    SumSplits(q, 0, j, |q|);
  }

  lemma DefaultDriftBound(q: seq<real>, i: nat, j: nat)
    requires Rates(q) && i <= j <= |q| && q != []
    ensures Drift(q, WindowMean(q), i, j) <= 0.22565 * |q| as real
  {
    DriftIsSum(q, WindowMean(q), i, j);
    PartOfTotal(q, i, j);
    MeanBounds(q);
    WindowGain(|q| as real, (j - i) as real, Sum(q, i, j), WindowMean(q));
  }

  function Burst(n: nat): (q: seq<real>)
    ensures |q| == n && forall i | 0 <= i < n :: q[i] == if i < 11 then 1.0 else 0.0
  {
    seq(n, i => if i < 11 then 1.0 else 0.0)
  }

  lemma {:induction false} BurstSum(n: nat, j: nat)
    requires j <= n
    ensures Sum(Burst(n), 0, j) == (if j < 11 then j else 11) as real
  {
    if j > 0 { BurstSum(n, j - 1); }
  }

  lemma BurstReaches(n: nat)
    requires n >= 23
    ensures Rates(Burst(n)) && SomeWindowReaches(Burst(n), WindowMean(Burst(n)), n)
  {
    var q, mu := Burst(n), WindowMean(Burst(n));
    BurstSum(n, n);
    BurstSum(n, 11);
    MeanBounds(q);
    assert n as real * mu <= 11.0 + 0.00005 * n as real;
    assert n as real >= 23.0;
    Unscale(n as real, mu, 0.4784);
    DriftIsSum(q, mu, 0, 11);
    assert Drift(q, mu, 0, 11) >= CUSUM_H;
  }

  /** With its own rounded mean as baseline the monitor can fire on rates exactly from 23 samples on. */
  lemma DefaultBaselineCanFireExactlyFrom23(n: nat)
    ensures (exists q: seq<real> :: |q| == n && Rates(q) && SomeWindowReaches(q, WindowMean(q), n)) <==> n >= 23
  {
    if n >= 23 {
      BurstReaches(n);
      assert |Burst(n)| == n;
    } else {
      forall q: seq<real> | |q| == n && Rates(q) ensures !SomeWindowReaches(q, WindowMean(q), n) {
        forall i: nat, j: nat | i <= j <= n ensures Drift(q, WindowMean(q), i, j) < CUSUM_H {
          if n > 0 { DefaultDriftBound(q, i, j); }
        }
      }
    }
  }
}
