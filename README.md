# TempTracker analysis engine, modelled in Dafny

TempTracker stores periodic temperature and humidity readings and serves two
views over a trailing time window: `/readings` (the readings in the window,
oldest first) and `/analysis` (per-metric statistics and trend, a comfort
score, and at most five two-sigma anomalies). All of this logic sits in the
route handlers of `main.py`. This project pulls it out as a small engine
whose inputs are the stored readings, the window length in hours, and the
current instant.

Modules, one file each:

- `Readings` (`readings.dfy`): the `Reading` record, `Result`/`Outcome`, and
  per-metric projections. Timestamps are integers counting microseconds.
- `Validation` (`validation.dfy`): the range checks of `add_reading`. Storing
  a reading is modelled as appending to the store sequence.
- `Statistics` (`statistics.dfy`): sum, mean, max, min and sample variance,
  plus the bound on how many values the two-sigma rule can flag.
- `TimeWindow` (`time_window.dfy`): the cutoff, the source's `for` loop
  that filters the window, as a `while` loop with invariants, and the stable sort by timestamp.
- `Trends` (`trends.dfy`): split-half trend detection.
- `Comfort` (`comfort.dfy`): the banded comfort score, its level and its
  comments.
- `Anomalies` (`anomalies.dfy`): two-sigma flagging (the source's `for` loop,
  as a `while` loop with invariants), with the temperature reason first, and the cut to five
  entries.
- `Analysis` (`analysis.dfy`): the `/analysis` handler as a method, the
  function that specifies it, and the end-to-end properties.

The source's exceptions are typed errors. For `add_reading` these are
`TemperatureOutOfRange` and `HumidityOutOfRange`. For `/analysis` they are
`NoReadingsFound` (the store is empty) and `NoRecentReadingsFound` (nothing
lies after the cutoff). The source reports two different 404 messages, and
the model keeps both errors.

Both routes default the window to 24 hours when a request omits `hours`.
`GetReadings` and `Analyze` take `hours` with the same default,
`DEFAULT_WINDOW_HOURS`.

The source's standard-deviation test `|x - mean| > 2 * stdev` is modelled as
`(x - mean)^2 > 4 * variance`. Here `variance` is the sample variance (the sum
of squared deviations divided by n - 1). `DeviatesIffBeyondTwoSigma` proves
that the two tests agree for the non-negative square root.

A consequence proved here (`FewBeyondTwoSigma`, `SmallWindowFlagsNothing`):
with the sample deviation, fewer than a quarter of the other n - 1 readings
can lie beyond two deviations. So a window of three, four or five readings
never reports an anomaly, although the source computes anomalies as soon as
there are more than two readings.

## Model

| member | source | states |
|---|---|---|
| `Validation.Validate` | main.py:55-58 | a reading passes iff -50 <= temperature <= 150 and 0 <= humidity <= 100; an out-of-range temperature always reports the temperature error, and the humidity error is reported only when the temperature is in range |
| `Validation.TemperatureCheckedFirst` | main.py:55-58 | a reading out of range on both axes reports the temperature error |
| `Validation.AddReading` | main.py:55-66 | the store grows by exactly the submitted values stamped `now` iff they pass validation; otherwise the validation error is returned |
| `Validation.AddReadingKeepsStoreValid` | main.py:55-66 | storing through the checks keeps every stored reading in range, and the stored values equal the submitted ones |
| `Statistics.Max` | main.py:133-135 | the maximum is a value of the list and no value exceeds it |
| `Statistics.Min` | main.py:134-136 | the minimum is a value of the list and no value is below it |
| `Statistics.MeanBetweenMinAndMax` | main.py:131-136 | min <= mean <= max |
| `Statistics.MeanSeparated` | main.py:144 | if every value of one list is below every value of another, its mean is strictly below the other's |
| `Statistics.VarianceNonNegative` | main.py:188-189 | the sample variance is never negative, so its square root exists |
| `Statistics.ConstantHasNoVariance` | main.py:131-132 | values that never change have that value as mean and zero variance |
| `Statistics.FewBeyondTwoSigma` | main.py:187-192 | if k values lie more than two sample deviations from the mean, then 4k < n - 1 |
| `TimeWindow.RecentExact` | main.py:88-98 | the window holds each stored reading stamped strictly after the cutoff, as often as stored, and nothing else |
| `TimeWindow.FilterWindow` | main.py:89-98 | the filter loop yields exactly the window, in store order |
| `TimeWindow.InsertCorrect` | main.py:100 | inserting into a time-ordered list keeps it ordered and adds exactly that reading |
| `TimeWindow.SortByTimeCorrect` | main.py:100 | the result is ordered by timestamp and is a permutation of the input |
| `TimeWindow.SortByTimeStable` | main.py:139 | readings with equal timestamps keep their relative order (stability of `sorted`) |
| `TimeWindow.SortedUnchanged` | main.py:100 | already ordered input is returned unchanged |
| `TimeWindow.ReadingsViewExact` | main.py:88-100 | the listed view is ordered by timestamp and holds each stored reading strictly after `now - hours` as often as stored, and nothing else |
| `TimeWindow.GetReadings` | main.py:78-100 | `/readings` returns the readings strictly after `now - hours`, each as often as stored, ordered by timestamp; an empty store gives an empty list; `hours` defaults to 24 |
| `TimeWindow.CutoffExcluded` | main.py:88-93 | a reading stamped exactly at the cutoff is not listed |
| `TimeWindow.FreshReadingVisible` | main.py:64 | a reading stamped `now` is in every window of positive length computed at `now` |
| `Trends.SecondHalf` | main.py:142-143 | the halves are consecutive, together make up the series, and the later half takes the extra value when n is odd |
| `Trends.StableIffSingle` | main.py:141-151 | for a non-empty series the trend is Stable iff it holds exactly one value |
| `Trends.RisingIffWeightedSums` | main.py:144 | for n > 1 the trend is Rising iff sum(later) * size(earlier) > sum(earlier) * size(later), i.e. the later mean is strictly greater |
| `Trends.IncreasingIsRising` | main.py:141-148 | a strictly increasing series of more than one value is Rising |
| `Trends.NonIncreasingIsFalling` | main.py:141-148 | a series that never increases, a constant one included, is Falling (the tie goes to Falling) |
| `Comfort.AxisPoints` | main.py:158-174 | each axis gives 50 exactly in its optimal band, 25 exactly in its acceptable band outside the optimal one, and 0 outside |
| `Comfort.ScoreValues` | main.py:154-174 | the comfort score is one of 0, 25, 50, 75, 100 |
| `Comfort.LevelsOfReachableScores` | main.py:176-183 | 100 is Excellent, 75 Good, 50 Fair, 25 and 0 Poor |
| `Comfort.LevelByBands` | main.py:154-183 | Excellent iff both axes are optimal; Good iff one is optimal and the other acceptable; Fair iff both are acceptable, or one is optimal and the other outside; Poor otherwise |
| `Comfort.ComfortExamples` | main.py:154-183 | 20 degrees at 45% gives 100, Excellent, both comments optimal; 35 degrees at 80% gives 0, Poor, both outside the comfort zone |
| `Anomalies.DeviatesIffBeyondTwoSigma` | main.py:192 | for any sd >= 0 with sd^2 = variance, the squared test agrees with `|x - mean| > 2 * sd` |
| `Anomalies.ReasonFor` | main.py:197 | the reason is a temperature spike iff the temperature test holds, whatever the humidity test says, and otherwise a humidity spike |
| `Anomalies.FlagSound` | main.py:191-198 | every flagged entry is a reading of the input that deviates on some metric, and it carries its reason |
| `Anomalies.FlagComplete` | main.py:191-198 | every deviating reading is flagged as often as it occurs, and no other reading is |
| `Anomalies.FlagOrdered` | main.py:139 | time-ordered input gives anomalies in ascending timestamp order |
| `Anomalies.CollectAnomalies` | main.py:186-198 | the anomaly loop produces exactly the flagged list |
| `Anomalies.Truncate` | main.py:221 | the reported list is the prefix of the flagged list of length min(5, k) |
| `Anomalies.WindowAnomalies` | main.py:186-187 | a window of two readings or fewer has no anomalies |
| `Anomalies.WindowAnomaliesExact` | main.py:186-198 | with more than two readings the flagged list is ordered by time, holds exactly the window's deviating readings and gives each its reason |
| `Anomalies.SteadyTemperatureNoSpike` | main.py:188-197 | if the temperature never changes, no anomaly is reported as a temperature spike |
| `Anomalies.SmallWindowFlagsNothing` | main.py:187-192 | a window of at most five readings reports no anomaly |
| `Anomalies.SpikeSampleFlagged` | main.py:186-198 | five readings at 20 degrees and one at 80 (mean 30, sample variance 600) flag only the 80 reading, as a temperature spike |
| `Analysis.Analyze` | main.py:105-221 | the handler, step by step, returns exactly the specified response; `hours` defaults to 24 |
| `Analysis.AnalysisErrors` | main.py:112-128 | an empty store is NoReadingsFound; a store with nothing after the cutoff is NoRecentReadingsFound; a report comes back iff some stored reading is after the cutoff |
| `Analysis.AnalysisCountsTheListedReadings` | main.py:120-128 | `readings_count` equals the number of readings `/readings` lists for the same arguments |
| `Analysis.SummarizeFits` | main.py:131-136 | each metric's reported max and min are values of the window that bound all of it, and the average lies between them |
| `Analysis.AnalysisStatistics` | main.py:131-136 | the report counts the non-empty window and summarises both metrics over it as above |
| `Analysis.AnalysisTrends` | main.py:139-151 | each metric's trend is Stable iff the window holds exactly one reading |
| `Analysis.AnalysisAnomalies` | main.py:186-221 | at most five anomalies and none for two readings or fewer; they are exactly the first min(5, k) flagged readings of the window |
| `Analysis.AnalysisAnomaliesInWindow` | main.py:139-221 | the reported anomalies are in ascending time order and each is a stored reading after the cutoff |
| `Analysis.AcceptedReadingIsListed` | main.py:55-66 | a reading accepted at `now` is listed with its submitted values by `/readings` for any window of positive length asked at `now`, and `/analysis` then reports |

## Left out

- Firebase: initialisation and every `db.reference` call (`get`, `push`, `delete`) are remote I/O. The store is an input sequence of readings in the order the database returns them. Deleting all readings and the two constant `/` routes have no logic to model.
- FastAPI plumbing: the app, CORS, the pydantic request and response models, the HTTP status codes, and the blanket handlers that turn any other exception into a 500. Errors are typed values here. The status code is 400 for validation errors and 404 for both analysis errors.
- The HTML dashboard is presentation only.
- Clock and parsing: `datetime.now()` is the `now` parameter. ISO-8601 formatting and parsing are not modelled: timestamps are integers in microseconds. `/readings` sorts by the ISO string and `/analysis` by the parsed datetime; for timestamps written by `isoformat()` both give the same order as the integers. A `timedelta` overflow for an absurd `hours` value would be a 500 error, and it is not modelled.
- Numbers: temperatures and humidities are `real`. Binary floating point, NaN and infinity are not modelled. Neither is the `round(..., 2)` applied to averages and extremes. A NaN or infinite value fails the range check it reaches, so it is never stored.
- Square root: `stdev` is replaced by the equivalent squared comparison against the sample variance (see `Anomalies.DeviatesIffBeyondTwoSigma`).
- Labels: the trend strings ("↑ Rising", "↓ Falling", "→ Stable") and the comfort levels are datatype constructors. The comfort comments and error messages are kept as the source's strings.
- Comfort scoring: the score is built as the sum of the two axis contributions rather than by two `+=` steps. It is the same value.
