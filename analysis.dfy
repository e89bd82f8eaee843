/** The `/analysis` computation: window the store, summarise each metric,
    detect its trend, score comfort and list up to five anomalies. */
module Analysis {
  import opened Readings
  import opened Statistics
  import opened TimeWindow
  import opened Trends
  import opened Comfort
  import opened Anomalies
  import opened Validation

  datatype MetricSummary = MetricSummary(average: real, max: real, min: real, trend: Trend)

  datatype AnalysisResult = AnalysisResult(
    periodHours: int,
    readingsCount: nat,
    temperature: MetricSummary,
    humidity: MetricSummary,
    comfort: ComfortReport,
    anomalies: seq<Anomaly>)

  /** The store holds nothing at all, or nothing inside the window. */
  datatype AnalysisError = NoReadingsFound | NoRecentReadingsFound

  function ErrorMessage(e: AnalysisError): string
  {
    match e
    case NoReadingsFound => "No readings found"
    case NoRecentReadingsFound => "No recent readings found"
  }

  /** Mean, maximum and minimum over the window as collected, and the trend
      over the same values in time order. */
  function Summarize(values: seq<real>, inTimeOrder: seq<real>): MetricSummary
    requires |values| > 0
  {
    MetricSummary(Mean(values), Max(values), Min(values), TrendOf(inTimeOrder))
  }

  /** The report for a non-empty window `w`. */
  function Report(w: seq<Reading>, hours: int): AnalysisResult
    requires |w| > 0
  {
    var ordered := SortByTime(w);
    var ts, hs := Temperatures(w), Humidities(w);
    AnalysisResult(
      hours, |w|,
      Summarize(ts, Temperatures(ordered)),
      Summarize(hs, Humidities(ordered)),
      ComfortOf(Mean(ts), Mean(hs)),
      Truncate(WindowAnomalies(w)))
  }

  /** What `/analysis` answers for `store` at instant `now`. */
  function AnalysisOf(store: seq<Reading>, hours: int, now: int): Result<AnalysisResult, AnalysisError>
  {
    if store == [] then Err(NoReadingsFound)
    else
      var w := Recent(store, Cutoff(now, hours));
      if w == [] then Err(NoRecentReadingsFound) else Ok(Report(w, hours))
  }

  /** `/analysis`, step by step as the handler runs it. */
  method Analyze(store: seq<Reading>, hours: int := DEFAULT_WINDOW_HOURS, now: int) returns (r: Result<AnalysisResult, AnalysisError>)
    ensures r == AnalysisOf(store, hours, now)
  {
    if store == [] {
      return Err(NoReadingsFound);
    }
    var w := FilterWindow(store, Cutoff(now, hours));
    if w == [] {
      return Err(NoRecentReadingsFound);
    }
    var ts, hs := Temperatures(w), Humidities(w);
    var avgTemperature, avgHumidity := Mean(ts), Mean(hs);
    var ordered := SortByTime(w);
    var temperatureTrend, humidityTrend := TrendOf(Temperatures(ordered)), TrendOf(Humidities(ordered));
    var comfort := ComfortOf(avgTemperature, avgHumidity);
    var found: seq<Anomaly> := [];
    if |w| > 2 {
      found := CollectAnomalies(ordered, BaselineOf(w));
    }
    r := Ok(AnalysisResult(
      hours, |w|,
      MetricSummary(avgTemperature, Max(ts), Min(ts), temperatureTrend),
      MetricSummary(avgHumidity, Max(hs), Min(hs), humidityTrend),
      comfort,
      Truncate(found)));
  }

  /** The two failures: an empty store, and a store with nothing after the
      cutoff. Any reading after the cutoff yields a report. */
  lemma AnalysisErrors(store: seq<Reading>, hours: int, now: int)
    ensures AnalysisOf(store, hours, now) == Err(NoReadingsFound) <==> store == []
    ensures AnalysisOf(store, hours, now) == Err(NoRecentReadingsFound) <==>
              store != [] && forall r :: r in store ==> r.timestamp <= now - hours * MICROS_PER_HOUR
    ensures AnalysisOf(store, hours, now).Ok? <==>
              exists r :: r in store && r.timestamp > now - hours * MICROS_PER_HOUR
  {
    var w := Recent(store, Cutoff(now, hours));
    RecentExact(store, Cutoff(now, hours));
    if w != [] {
      assert w[0] in w;
    }
  }

  /** The window the report covers is the one `/readings` lists for the same
      arguments. */
  lemma AnalysisCountsTheListedReadings(store: seq<Reading>, hours: int, now: int)
    requires AnalysisOf(store, hours, now).Ok?
    ensures AnalysisOf(store, hours, now).value.readingsCount == |ReadingsView(store, hours, now)|
  {
    SortByTimeCorrect(Recent(store, Cutoff(now, hours)));
  }

  /** `s` summarises `xs`: its extremes are values of `xs` that bound all of
      them, and its average lies between the extremes. */
  predicate Summarizes(s: MetricSummary, xs: seq<real>)
  {
    && s.min <= s.average <= s.max
    && (forall i :: 0 <= i < |xs| ==> s.min <= xs[i] <= s.max)
    && s.max in xs && s.min in xs
  }

  lemma SummarizeFits(values: seq<real>, inTimeOrder: seq<real>)
    requires |values| > 0
    ensures Summarizes(Summarize(values, inTimeOrder), values)
  {
    MeanBetweenMinAndMax(values);
  }

  /** For each metric the reported extremes are values of the window that
      bound all of it, and the average lies between them. */
  lemma AnalysisStatistics(store: seq<Reading>, hours: int, now: int)
    requires AnalysisOf(store, hours, now).Ok?
    ensures var a, w := AnalysisOf(store, hours, now).value, Recent(store, Cutoff(now, hours));
            && a.readingsCount == |w| > 0
            && Summarizes(a.temperature, Temperatures(w))
            && Summarizes(a.humidity, Humidities(w))
  {
    var w := Recent(store, Cutoff(now, hours));
    var ordered := SortByTime(w);
    assert AnalysisOf(store, hours, now) == Ok(Report(w, hours));
    SummarizeFits(Temperatures(w), Temperatures(ordered));
    SummarizeFits(Humidities(w), Humidities(ordered));
  }

  /** A single reading in the window is Stable on both metrics; more readings
      are never Stable. */
  lemma AnalysisTrends(store: seq<Reading>, hours: int, now: int)
    requires AnalysisOf(store, hours, now).Ok?
    ensures var a := AnalysisOf(store, hours, now).value;
            && (a.temperature.trend == Stable <==> a.readingsCount == 1)
            && (a.humidity.trend == Stable <==> a.readingsCount == 1)
  {
    var w := Recent(store, Cutoff(now, hours));
    var ordered := SortByTime(w);
    assert AnalysisOf(store, hours, now) == Ok(Report(w, hours));
    SortByTimeCorrect(w);
    StableIffSingle(Temperatures(ordered));
    StableIffSingle(Humidities(ordered));
  }

  /** The anomalies reported for window `w`: the first ones it flags, in time
      order, each a reading of `w`. */
  lemma ReportedAnomalies(w: seq<Reading>)
    requires |w| > 2
    ensures var all, shown := WindowAnomalies(w), Truncate(WindowAnomalies(w));
            && Sorted(ReadingsOf(shown))
            && forall x :: x in shown ==> x.reading in w
  {
    var all, shown := WindowAnomalies(w), Truncate(WindowAnomalies(w));
    var s := SortByTime(w);
    WindowAnomaliesExact(w);
    SortByTimeCorrect(w);
    FlagSound(s, BaselineOf(w));
    assert ReadingsOf(shown) == ReadingsOf(all)[..|shown|];
    forall x | x in shown
      ensures x.reading in w
    {
      assert x in all;
      assert multiset(s)[x.reading] > 0;
    }
  }

  /** At most five anomalies, none for two readings or fewer, and exactly the
      first ones the window flags; when five or fewer readings deviate, every
      one of them is reported. */
  lemma AnalysisAnomalies(store: seq<Reading>, hours: int, now: int)
    requires AnalysisOf(store, hours, now).Ok?
    ensures var a, w := AnalysisOf(store, hours, now).value, Recent(store, Cutoff(now, hours));
            var all := WindowAnomalies(w);
            && |a.anomalies| <= MAX_REPORTED
            && (a.readingsCount <= 2 ==> a.anomalies == [])
            && a.anomalies == all[..(if |all| < MAX_REPORTED then |all| else MAX_REPORTED)]
  {
    var w := Recent(store, Cutoff(now, hours));
    var a := Report(w, hours);
    assert AnalysisOf(store, hours, now) == Ok(a);
    assert a.anomalies == Truncate(WindowAnomalies(w));
  }

  /** The reported anomalies are in time order, and each is a stored reading
      after the cutoff. */
  lemma AnalysisAnomaliesInWindow(store: seq<Reading>, hours: int, now: int)
    requires AnalysisOf(store, hours, now).Ok?
    ensures var a := AnalysisOf(store, hours, now).value;
            && Sorted(ReadingsOf(a.anomalies))
            && (forall x :: x in a.anomalies ==> x.reading in store && x.reading.timestamp > Cutoff(now, hours))
  {
    var w := Recent(store, Cutoff(now, hours));
    var a := Report(w, hours);
    assert AnalysisOf(store, hours, now) == Ok(a);
    assert a.anomalies == Truncate(WindowAnomalies(w));
    if |w| > 2 {
      ReportedAnomalies(w);
      forall x | x in a.anomalies
        ensures x.reading in store && x.reading.timestamp > Cutoff(now, hours)
      {
        RecentExact(store, Cutoff(now, hours));
      }
    }
  }

  /** Round trip: a reading accepted at `now` is listed by `/readings` with the
      values it was submitted with, for any window of positive length asked
      at that instant, and `/analysis` then has something to report. */
  lemma AcceptedReadingIsListed(store: seq<Reading>, temperature: real, humidity: real, now: int, hours: int)
    requires AddReading(store, temperature, humidity, now).Ok?
    requires hours > 0
    ensures var stored := AddReading(store, temperature, humidity, now).value;
            && Reading(temperature, humidity, now) in ReadingsView(stored, hours, now)
            && AnalysisOf(stored, hours, now).Ok?
  {
    var stored := AddReading(store, temperature, humidity, now).value;
    var r := Reading(temperature, humidity, now);
    assert stored[|stored| - 1] == r;
    FreshReadingVisible(stored, r, hours);
    AnalysisErrors(stored, hours, now);
    assert r in stored && r.timestamp > now - hours * MICROS_PER_HOUR;
  }
}
