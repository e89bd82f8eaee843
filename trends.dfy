/** Split-half trend detection over the time-ordered values of one metric. */
module Trends {
  import opened Statistics

  datatype Trend = Rising | Falling | Stable

  /** The half the source splits off first: positions [0, n/2). */
  function FirstHalf(xs: seq<real>): (h: seq<real>)
    ensures |h| == |xs| / 2 && h == xs[..|h|]
  {
    xs[..|xs| / 2]
  }

  /** The other half, positions [n/2, n): for odd n it holds the extra value. */
  function SecondHalf(xs: seq<real>): (h: seq<real>)
    ensures FirstHalf(xs) + h == xs
    ensures |h| == |FirstHalf(xs)| + |xs| % 2
  {
    xs[|xs| / 2..]
  }

  /** One value is Stable; otherwise Rising exactly when the later half has the
      strictly larger mean, and Falling in every other case, ties included. */
  function TrendOf(xs: seq<real>): Trend
  {
    if |xs| > 1 then
      if Mean(SecondHalf(xs)) > Mean(FirstHalf(xs)) then Rising else Falling
    else Stable
  }

  /** Stable is reserved for a single value; it is not a tie-break. */
  lemma StableIffSingle(xs: seq<real>)
    requires |xs| > 0
    ensures TrendOf(xs) == Stable <==> |xs| == 1
  {
  }

  /** The comparison without division: Rising exactly when the later half's
      sum, weighted by the earlier half's size, beats the earlier half's sum
      weighted by the later half's size. */
  lemma RisingIffWeightedSums(xs: seq<real>)
    requires |xs| > 1
    ensures var a, b := FirstHalf(xs), SecondHalf(xs);
            TrendOf(xs) == Rising <==> Sum(b) * (|a| as real) > Sum(a) * (|b| as real)
  {
    var a, b := FirstHalf(xs), SecondHalf(xs);
    var na, nb := |a| as real, |b| as real;
    var d, w := Sum(b) * na - Sum(a) * nb, na * nb;
    assert w > 0.0;
    assert Mean(b) - Mean(a) == d / w;
    QuotientSign(d, w);
  }

  lemma QuotientSign(d: real, w: real)
    requires w > 0.0
    ensures d / w > 0.0 <==> d > 0.0
  {
    assert d == (d / w) * w;
  }

  /** Values that strictly increase over time report Rising. */
  lemma IncreasingIsRising(xs: seq<real>)
    requires |xs| > 1
    requires forall i, j :: 0 <= i < j < |xs| ==> xs[i] < xs[j]
    ensures TrendOf(xs) == Rising
  {
    var a, b := FirstHalf(xs), SecondHalf(xs);
    forall i, j | 0 <= i < |a| && 0 <= j < |b|
      ensures a[i] < b[j]
    {
      assert a[i] == xs[i] && b[j] == xs[|a| + j];
    }
    MeanSeparated(a, b);
  }

  /** Values that never increase over time report Falling; in particular a
      constant series reports Falling, not Stable. */
  lemma NonIncreasingIsFalling(xs: seq<real>)
    requires |xs| > 1
    requires forall i, j :: 0 <= i < j < |xs| ==> xs[j] <= xs[i]
    ensures TrendOf(xs) == Falling
  {
    var a, b := FirstHalf(xs), SecondHalf(xs);
    forall i, j | 0 <= i < |a| && 0 <= j < |b|
      ensures b[j] <= a[i]
    {
      assert a[i] == xs[i] && b[j] == xs[|a| + j];
    }
    MeanNotAbove(a, b);
  }
}
