/** Two-sigma anomaly flagging. The source compares |x - mean| with twice the
    sample standard deviation; since the deviation is never negative, the model
    compares the squared distance with four times the sample variance, which is
    the same test without a square root (see DeviatesIffBeyondTwoSigma). */
module Anomalies {
  import opened Readings
  import opened Statistics
  import opened TimeWindow

  datatype Reason = TemperatureSpike | HumiditySpike

  /** A flagged reading, reported with its values, timestamp and reason. */
  datatype Anomaly = Anomaly(reading: Reading, reason: Reason)

  /** Mean and sample variance of each metric over the whole window. */
  datatype Baseline = Baseline(
    temperatureMean: real, temperatureVariance: real,
    humidityMean: real, humidityVariance: real)

  /** At most this many anomalies are reported. */
  const MAX_REPORTED: nat := 5

  function Abs(x: real): real { if x < 0.0 then -x else x }

  /** `x` lies more than two standard deviations from `mean`. */
  predicate Deviates(x: real, mean: real, variance: real)
  {
    (x - mean) * (x - mean) > 4.0 * variance
  }

  lemma SquareMonotone(a: real, c: real)
    requires a >= 0.0 && c >= 0.0
    ensures a > c <==> a * a > c * c
  {
    if a > c {
      var p, q := a - c, a + c;
      assert a * a - c * c == p * q;
      assert p > 0.0 && q >= p;
      assert p * q >= p * p by {
        assert p * q - p * p == p * (q - p);
        ScaleMonotone(0.0, q - p, p);
      }
      assert p * p > 0.0;
    } else {
      assert c * c - a * a == (c - a) * (c + a);
      ScaleMonotone(0.0, c + a, c - a);
    }
  }

  /** The squared test agrees with the source's test for the non-negative
      square root `sd` of the variance. */
  lemma DeviatesIffBeyondTwoSigma(x: real, mean: real, variance: real, sd: real)
    requires sd >= 0.0 && sd * sd == variance
    ensures Deviates(x, mean, variance) <==> Abs(x - mean) > 2.0 * sd
  {
    var d, t := Abs(x - mean), 2.0 * sd;
    assert d * d == (x - mean) * (x - mean);
    assert t * t == 4.0 * variance;
    SquareMonotone(d, t);
  }

  predicate TemperatureDeviates(r: Reading, b: Baseline)
  {
    Deviates(r.temperature, b.temperatureMean, b.temperatureVariance)
  }

  predicate HumidityDeviates(r: Reading, b: Baseline)
  {
    Deviates(r.humidity, b.humidityMean, b.humidityVariance)
  }

  predicate Anomalous(r: Reading, b: Baseline)
  {
    TemperatureDeviates(r, b) || HumidityDeviates(r, b)
  }

  /** The temperature test is asked first, so it names the reason whenever it
      holds, even when the humidity test holds too. */
  function ReasonFor(r: Reading, b: Baseline): (reason: Reason)
    ensures reason == TemperatureSpike <==> TemperatureDeviates(r, b)
    ensures reason == HumiditySpike <==> !TemperatureDeviates(r, b)
  {
    if TemperatureDeviates(r, b) then TemperatureSpike else HumiditySpike
  }

  function ReadingsOf(found: seq<Anomaly>): (rs: seq<Reading>)
    ensures |rs| == |found| && forall i :: 0 <= i < |found| ==> rs[i] == found[i].reading
  {
    seq(|found|, i requires 0 <= i < |found| => found[i].reading)
  }

  /** The anomalies of `rs`: each anomalous reading with its reason, in the
      order of `rs`. */
  function Flag(rs: seq<Reading>, b: Baseline): (found: seq<Anomaly>)
    ensures |found| <= |rs|
  {
    if rs == [] then []
    else
      var last := rs[|rs| - 1];
      Flag(rs[..|rs| - 1], b) + (if Anomalous(last, b) then [Anomaly(last, ReasonFor(last, b))] else [])
  }

  /** Every entry is a reading of `rs` that deviates, with its reason. */
  lemma {:induction false} FlagSound(rs: seq<Reading>, b: Baseline)
    ensures forall a :: a in Flag(rs, b) ==>
              a.reading in rs && Anomalous(a.reading, b) && a.reason == ReasonFor(a.reading, b)
  {
    if rs != [] {
      var init, last := rs[..|rs| - 1], rs[|rs| - 1];
      FlagSound(init, b);
      var here := if Anomalous(last, b) then [Anomaly(last, ReasonFor(last, b))] else [];
      var prefix, found := Flag(init, b), Flag(rs, b);
      assert found == prefix + here;
      forall a | a in found
        ensures a.reading in rs
      {
        if a in prefix {
          var j :| 0 <= j < |init| && init[j] == a.reading;
          assert rs[j] == init[j];
        } else {
          assert a in here;
        }
      }
    }
  }

  /** Every deviating reading is flagged, as often as `rs` holds it, and no
      other reading is. */
  lemma {:induction false} FlagComplete(rs: seq<Reading>, b: Baseline)
    ensures forall r :: multiset(ReadingsOf(Flag(rs, b)))[r] ==
              if Anomalous(r, b) then multiset(rs)[r] else 0
  {
    if rs != [] {
      var init, last := rs[..|rs| - 1], rs[|rs| - 1];
      assert rs == init + [last];
      FlagComplete(init, b);
      var here := if Anomalous(last, b) then [Anomaly(last, ReasonFor(last, b))] else [];
      assert ReadingsOf(Flag(rs, b)) == ReadingsOf(Flag(init, b)) + ReadingsOf(here);
    }
  }

  /** Time-ordered readings give time-ordered anomalies. */
  lemma {:induction false} FlagOrdered(rs: seq<Reading>, b: Baseline)
    requires Sorted(rs)
    ensures Sorted(ReadingsOf(Flag(rs, b)))
  {
    if rs != [] {
      var init, last := rs[..|rs| - 1], rs[|rs| - 1];
      FlagOrdered(init, b);
      FlagSound(init, b);
      var prefix := Flag(init, b);
      var here := if Anomalous(last, b) then [Anomaly(last, ReasonFor(last, b))] else [];
      assert Flag(rs, b) == prefix + here;
      assert ReadingsOf(Flag(rs, b)) == ReadingsOf(prefix) + ReadingsOf(here);
      forall i | 0 <= i < |prefix|
        ensures prefix[i].reading.timestamp <= last.timestamp
      {
        assert prefix[i] in prefix;
        var j :| 0 <= j < |init| && init[j] == prefix[i].reading;
        assert init[j] == rs[j];
      }
    }
  }

  /** The anomaly loop: walks the readings in order and appends each one that
      deviates on either metric. */
  method CollectAnomalies(rs: seq<Reading>, b: Baseline) returns (found: seq<Anomaly>)
    ensures found == Flag(rs, b)
  {
    found := [];
    var i := 0;
    while i < |rs|
      invariant 0 <= i <= |rs|
      invariant found == Flag(rs[..i], b)
    {
      assert rs[..i + 1][..i] == rs[..i];
      var r := rs[i];
      if TemperatureDeviates(r, b) || HumidityDeviates(r, b) {
        found := found + [Anomaly(r, if TemperatureDeviates(r, b) then TemperatureSpike else HumiditySpike)];
      }
      i := i + 1;
    }
    assert rs[..i] == rs;
  }

  /** The first MAX_REPORTED entries of `found`, in their order. */
  function Truncate(found: seq<Anomaly>): (t: seq<Anomaly>)
    ensures |t| <= MAX_REPORTED && |t| <= |found|
    ensures |t| == |found| || |t| == MAX_REPORTED
    ensures t == found[..|t|]
  {
    if |found| <= MAX_REPORTED then found else found[..MAX_REPORTED]
  }

  /** The statistics each reading of the window is compared with. */
  function BaselineOf(w: seq<Reading>): Baseline
    requires |w| > 1
  {
    var ts, hs := Temperatures(w), Humidities(w);
    Baseline(Mean(ts), Variance(ts), Mean(hs), Variance(hs))
  }

  /** All anomalies of a window, in time order: none unless it holds more than
      two readings. */
  function WindowAnomalies(w: seq<Reading>): (found: seq<Anomaly>)
    ensures |w| <= 2 ==> found == []
  {
    if |w| > 2 then Flag(SortByTime(w), BaselineOf(w)) else []
  }

  /** With more than two readings, exactly the deviating readings of the window
      are flagged, in ascending timestamp order. */
  lemma WindowAnomaliesExact(w: seq<Reading>)
    requires |w| > 2
    ensures var found := WindowAnomalies(w);
            && Sorted(ReadingsOf(found))
            && (forall r :: multiset(ReadingsOf(found))[r] ==
                 if Anomalous(r, BaselineOf(w)) then multiset(w)[r] else 0)
            && (forall i :: 0 <= i < |found| ==> found[i].reason == ReasonFor(found[i].reading, BaselineOf(w)))
  {
    var s, b := SortByTime(w), BaselineOf(w);
    assert WindowAnomalies(w) == Flag(s, b);
    SortByTimeCorrect(w);
    FlagOrdered(s, b);
    FlagComplete(s, b);
    FlagSound(s, b);
  }

  /** Readings that all sit at the temperature mean of a baseline without
      variance are never flagged for temperature, whatever their order. */
  lemma NoTemperatureSpikeAtMean(w: seq<Reading>, s: seq<Reading>, b: Baseline, c: real)
    requires multiset(s) == multiset(w)
    requires forall i :: 0 <= i < |w| ==> w[i].temperature == c
    requires b.temperatureMean == c && b.temperatureVariance == 0.0
    ensures forall a :: a in Flag(s, b) ==> a.reason == HumiditySpike
  {
    FlagSound(s, b);
    forall a | a in Flag(s, b)
      ensures !TemperatureDeviates(a.reading, b)
    {
      assert a.reading in multiset(w);
      assert a.reading in w;
    }
  }

  /** A sensor whose temperature held perfectly still raises no temperature
      spike. */
  lemma SteadyTemperatureNoSpike(w: seq<Reading>, c: real)
    requires |w| > 2
    requires forall i :: 0 <= i < |w| ==> w[i].temperature == c
    ensures forall a :: a in WindowAnomalies(w) ==> a.reason == HumiditySpike
  {
    ConstantHasNoVariance(Temperatures(w), c);
    SortByTimeCorrect(w);
    NoTemperatureSpikeAtMean(w, SortByTime(w), BaselineOf(w), c);
  }

  /** When no reading of `w` deviates, nothing in any ordering of it is
      flagged. */
  lemma NothingFlaggedWithoutDeviation(w: seq<Reading>, s: seq<Reading>, b: Baseline)
    requires multiset(s) == multiset(w)
    requires forall r :: r in w ==> !Anomalous(r, b)
    ensures Flag(s, b) == []
  {
    FlagComplete(s, b);
    var flagged := ReadingsOf(Flag(s, b));
    forall r
      ensures multiset(flagged)[r] == 0
    {
      if Anomalous(r, b) {
        assert r !in multiset(w);
      }
    }
    assert multiset(flagged) == multiset{};
  }

  /** In a window of three to five readings no reading deviates. */
  lemma NoDeviationInSmallWindow(w: seq<Reading>)
    requires 2 < |w| <= 5
    ensures forall r :: r in w ==> !Anomalous(r, BaselineOf(w))
  {
    var b := BaselineOf(w);
    var ts, hs := Temperatures(w), Humidities(w);
    FewBeyondTwoSigma(ts);
    FewBeyondTwoSigma(hs);
    NoneBeyondTwoSigma(ts, b.temperatureMean, b.temperatureVariance);
    NoneBeyondTwoSigma(hs, b.humidityMean, b.humidityVariance);
    forall r | r in w
      ensures !Anomalous(r, b)
    {
      var j :| 0 <= j < |w| && w[j] == r;
      assert ts[j] == r.temperature && hs[j] == r.humidity;
    }
  }

  /** With the sample deviation no value of five or fewer can lie more than two
      deviations from their mean, so windows of three to five readings never
      report an anomaly. */
  lemma SmallWindowFlagsNothing(w: seq<Reading>)
    requires |w| <= 5
    ensures WindowAnomalies(w) == []
  {
    if |w| > 2 {
      NoDeviationInSmallWindow(w);
      SortByTimeCorrect(w);
      NothingFlaggedWithoutDeviation(w, SortByTime(w), BaselineOf(w));
    }
  }

  /** A six-reading sample: five readings at 20 degrees, then one at
      80, all at 50 percent humidity. */
  function SpikeSample(): seq<Reading>
  {
    [Reading(20.0, 50.0, 1), Reading(20.0, 50.0, 2), Reading(20.0, 50.0, 3),
     Reading(20.0, 50.0, 4), Reading(20.0, 50.0, 5), Reading(80.0, 50.0, 6)]
  }

  lemma SpikeSampleBaseline()
    ensures BaselineOf(SpikeSample()) == Baseline(30.0, 600.0, 50.0, 0.0)
  {
    var ts := Temperatures(SpikeSample());
    assert ts == [20.0, 20.0, 20.0, 20.0, 20.0, 80.0];
    assert ts[5..] == [80.0] && ts[5..][1..] == [];
    assert ts[4..] == [20.0, 80.0] && ts[4..][1..] == ts[5..];
    assert ts[3..][1..] == ts[4..];
    assert ts[2..][1..] == ts[3..];
    assert ts[1..][1..] == ts[2..];
    assert Sum(ts[5..]) == 80.0;
    assert Sum(ts[4..]) == 100.0;
    assert Sum(ts[3..]) == 120.0;
    assert Sum(ts[2..]) == 140.0;
    assert Sum(ts[1..]) == 160.0;
    assert Sum(ts) == 180.0;
    assert SquaredDeviations(ts[5..], 30.0) == 2500.0;
    assert SquaredDeviations(ts[4..], 30.0) == 2600.0;
    assert SquaredDeviations(ts[3..], 30.0) == 2700.0;
    assert SquaredDeviations(ts[2..], 30.0) == 2800.0;
    assert SquaredDeviations(ts[1..], 30.0) == 2900.0;
    assert SquaredDeviations(ts, 30.0) == 3000.0;
    ConstantHasNoVariance(Humidities(SpikeSample()), 50.0);
  }

  lemma SpikeSampleSorted()
    ensures Sorted(SpikeSample())
  {
    var s := SpikeSample();
    forall i, j | 0 <= i < j < |s|
      ensures s[i].timestamp <= s[j].timestamp
    {
      assert s[i].timestamp == i + 1 && s[j].timestamp == j + 1;
    }
  }

  lemma SpikeSampleFlags()
    ensures Flag(SpikeSample(), Baseline(30.0, 600.0, 50.0, 0.0)) ==
              [Anomaly(Reading(80.0, 50.0, 6), TemperatureSpike)]
  {
    var s, b := SpikeSample(), Baseline(30.0, 600.0, 50.0, 0.0);
    assert s[..1][..0] == [];
    assert Flag(s[..1], b) == [];
    assert s[..2][..1] == s[..1];
    assert Flag(s[..2], b) == [];
    assert s[..3][..2] == s[..2];
    assert Flag(s[..3], b) == [];
    assert s[..4][..3] == s[..3];
    assert Flag(s[..4], b) == [];
    assert s[..5][..4] == s[..4];
    assert Flag(s[..5], b) == [];
    assert s[..5] == s[..|s| - 1];
  }

  /** The six-reading sample: mean 30, sample variance 600, and only the reading
      at 80 lies beyond two deviations (50 * 50 > 4 * 600, while 10 * 10 is
      not); it is flagged as a temperature spike. */
  lemma SpikeSampleFlagged()
    ensures WindowAnomalies(SpikeSample()) == [Anomaly(Reading(80.0, 50.0, 6), TemperatureSpike)]
  {
    var s := SpikeSample();
    SpikeSampleSorted();
    SortedUnchanged(s);
    SpikeSampleBaseline();
    SpikeSampleFlags();
    assert WindowAnomalies(s) == Flag(SortByTime(s), BaselineOf(s));
  }
}
