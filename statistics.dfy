/** The aggregates the analysis takes of one metric: arithmetic mean, maximum,
    minimum and sample variance (Python's `statistics.mean`, `max`, `min`, and
    `statistics.stdev` squared). */
module Statistics {

  function Sum(xs: seq<real>): real
  {
    if xs == [] then 0.0 else xs[0] + Sum(xs[1..])
  }

  function Mean(xs: seq<real>): real
    requires |xs| > 0
  {
    Sum(xs) / (|xs| as real)
  }

  /** The largest value, as `max` returns it: a value of `xs` no smaller than
      any other. */
  function Max(xs: seq<real>): (m: real)
    requires |xs| > 0
    ensures m in xs
    ensures forall i :: 0 <= i < |xs| ==> xs[i] <= m
  {
    if |xs| == 1 then xs[0]
    else
      var rest := Max(xs[1..]);
      if xs[0] >= rest then xs[0] else rest
  }

  /** The smallest value, as `min` returns it. */
  function Min(xs: seq<real>): (m: real)
    requires |xs| > 0
    ensures m in xs
    ensures forall i :: 0 <= i < |xs| ==> m <= xs[i]
  {
    if |xs| == 1 then xs[0]
    else
      var rest := Min(xs[1..]);
      if xs[0] <= rest then xs[0] else rest
  }

  /** The sum of squared deviations of `xs` from `m`. */
  function SquaredDeviations(xs: seq<real>, m: real): real
  {
    if xs == [] then 0.0 else (xs[0] - m) * (xs[0] - m) + SquaredDeviations(xs[1..], m)
  }

  /** Sample variance: squared deviations from the mean over n - 1. The
      sample standard deviation is its non-negative square root. */
  function Variance(xs: seq<real>): real
    requires |xs| > 1
  {
    SquaredDeviations(xs, Mean(xs)) / ((|xs| - 1) as real)
  }

  lemma {:induction false} SumBounds(xs: seq<real>, lo: real, hi: real)
    requires forall i :: 0 <= i < |xs| ==> lo <= xs[i] <= hi
    ensures lo * (|xs| as real) <= Sum(xs) <= hi * (|xs| as real)
  {
    if xs != [] {
      SumBounds(xs[1..], lo, hi);
      var n := (|xs| - 1) as real;
      assert lo * (n + 1.0) == lo * n + lo;
      assert hi * (n + 1.0) == hi * n + hi;
    }
  }

  /** A mean lies between any bounds of the values it averages. */
  lemma MeanWithin(xs: seq<real>, lo: real, hi: real)
    requires |xs| > 0
    requires forall i :: 0 <= i < |xs| ==> lo <= xs[i] <= hi
    ensures lo <= Mean(xs) <= hi
  {
    SumBounds(xs, lo, hi);
    QuotientBounds(Sum(xs), |xs| as real, lo, hi);
  }

  lemma QuotientBounds(s: real, n: real, lo: real, hi: real)
    requires n > 0.0 && lo * n <= s <= hi * n
    ensures lo <= s / n <= hi
  {
    var q := s / n;
    assert q * n == s;
    assert (q - lo) * n >= 0.0 && (hi - q) * n >= 0.0;
  }

  /** The mean never leaves the range of the data: min <= mean <= max. */
  lemma MeanBetweenMinAndMax(xs: seq<real>)
    requires |xs| > 0
    ensures Min(xs) <= Mean(xs) <= Max(xs)
  {
    MeanWithin(xs, Min(xs), Max(xs));
  }

  /** When every value of `hi` exceeds every value of `lo`, so does the mean. */
  lemma MeanSeparated(lo: seq<real>, hi: seq<real>)
    requires |lo| > 0 && |hi| > 0
    requires forall i, j :: 0 <= i < |lo| && 0 <= j < |hi| ==> lo[i] < hi[j]
    ensures Mean(lo) < Mean(hi)
  {
    MeanBetweenMinAndMax(lo);
    MeanBetweenMinAndMax(hi);
    var a :| 0 <= a < |lo| && lo[a] == Max(lo);
    var b :| 0 <= b < |hi| && hi[b] == Min(hi);
    assert lo[a] < hi[b];
  }

  /** When no value of `hi` exceeds any value of `lo`, neither does the mean. */
  lemma MeanNotAbove(lo: seq<real>, hi: seq<real>)
    requires |lo| > 0 && |hi| > 0
    requires forall i, j :: 0 <= i < |lo| && 0 <= j < |hi| ==> hi[j] <= lo[i]
    ensures Mean(hi) <= Mean(lo)
  {
    MeanBetweenMinAndMax(lo);
    MeanBetweenMinAndMax(hi);
    var a :| 0 <= a < |lo| && lo[a] == Min(lo);
    var b :| 0 <= b < |hi| && hi[b] == Max(hi);
    assert hi[b] <= lo[a];
  }

  lemma {:induction false} SquaredDeviationsNonNegative(xs: seq<real>, m: real)
    ensures SquaredDeviations(xs, m) >= 0.0
  {
    if xs != [] {
      SquaredDeviationsNonNegative(xs[1..], m);
      assert (xs[0] - m) * (xs[0] - m) >= 0.0;
    }
  }

  lemma VarianceNonNegative(xs: seq<real>)
    requires |xs| > 1
    ensures Variance(xs) >= 0.0
  {
    SquaredDeviationsNonNegative(xs, Mean(xs));
  }

  lemma {:induction false} SquaredDeviationsOfConstant(xs: seq<real>, c: real)
    requires forall i :: 0 <= i < |xs| ==> xs[i] == c
    ensures SquaredDeviations(xs, c) == 0.0
  {
    if xs != [] {
      SquaredDeviationsOfConstant(xs[1..], c);
    }
  }

  /** Readings that never change have that value as mean and no variance. */
  lemma ConstantHasNoVariance(xs: seq<real>, c: real)
    requires |xs| > 1
    requires forall i :: 0 <= i < |xs| ==> xs[i] == c
    ensures Mean(xs) == c && Variance(xs) == 0.0
  {
    MeanWithin(xs, c, c);
    SquaredDeviationsOfConstant(xs, c);
  }

  lemma SquareNonNegative(x: real)
    ensures x * x >= 0.0
  {
    if x < 0.0 {
      assert x * x == (-x) * (-x);
    }
  }

  lemma ScaleMonotone(a: real, b: real, c: real)
    requires a <= b && c >= 0.0
    ensures c * a <= c * b
  {
    assert c * b - c * a == c * (b - a);
  }

  /** How many values of `xs` lie more than two standard deviations from `m`,
      the variance being `v`. */
  function CountBeyondTwoSigma(xs: seq<real>, m: real, v: real): nat
  {
    if xs == [] then 0
    else (if (xs[0] - m) * (xs[0] - m) > 4.0 * v then 1 else 0) + CountBeyondTwoSigma(xs[1..], m, v)
  }

  /** The k values beyond two deviations alone contribute more than 4 * v * k
      to the squared deviations. */
  lemma {:induction false} SquaredDeviationsCoverCount(xs: seq<real>, m: real, v: real, k: nat)
    requires v >= 0.0 && k == CountBeyondTwoSigma(xs, m, v)
    ensures SquaredDeviations(xs, m) >= 4.0 * v * (k as real)
    ensures k > 0 ==> SquaredDeviations(xs, m) > 4.0 * v * (k as real)
  {
    if xs != [] {
      var rest := CountBeyondTwoSigma(xs[1..], m, v);
      SquaredDeviationsCoverCount(xs[1..], m, v, rest);
      SquareNonNegative(xs[0] - m);
      assert 4.0 * v * ((rest + 1) as real) == 4.0 * v * (rest as real) + 4.0 * v;
    }
  }

  /** A count of zero means that no value lies beyond two standard deviations. */
  lemma {:induction false} NoneBeyondTwoSigma(xs: seq<real>, m: real, v: real)
    requires CountBeyondTwoSigma(xs, m, v) == 0
    ensures forall i :: 0 <= i < |xs| ==> (xs[i] - m) * (xs[i] - m) <= 4.0 * v
  {
    if xs != [] {
      NoneBeyondTwoSigma(xs[1..], m, v);
      assert forall i :: 1 <= i < |xs| ==> xs[i] == xs[1..][i - 1];
    }
  }

  lemma QuarterBound(total: real, n: nat, v: real, k: nat)
    requires n > 0 && v >= 0.0 && v == total / (n as real)
    requires total >= 4.0 * v * (k as real) && (k > 0 ==> total > 4.0 * v * (k as real))
    ensures 4 * k < n
  {
    var nr, kr := n as real, k as real;
    assert total == v * nr;
    if k > 0 && n <= 4 * k {
      assert nr <= 4.0 * kr;
      ScaleMonotone(nr, 4.0 * kr, v);
    }
  }

  /** The two-sigma rule with the sample deviation flags fewer than a quarter
      of the other n - 1 values: 4k < n - 1. */
  lemma FewBeyondTwoSigma(xs: seq<real>)
    requires |xs| > 1
    ensures 4 * CountBeyondTwoSigma(xs, Mean(xs), Variance(xs)) < |xs| - 1
  {
    var m, v := Mean(xs), Variance(xs);
    var k := CountBeyondTwoSigma(xs, m, v);
    VarianceNonNegative(xs);
    SquaredDeviationsCoverCount(xs, m, v, k);
    QuarterBound(SquaredDeviations(xs, m), |xs| - 1, v, k);
  }
}
