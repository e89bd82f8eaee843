/** The comfort score: two independent axes, each worth 50 inside its optimal
    band, 25 inside its acceptable band, and nothing outside. */
module Comfort {

  datatype Band = Optimal | Acceptable | Outside

  datatype Level = Excellent | Good | Fair | Poor

  datatype ComfortReport = ComfortReport(
    level: Level, score: int, temperatureComment: string, humidityComment: string)

  /** Optimal within [18, 24] degrees, acceptable within [15, 30]. */
  function TemperatureBand(avg: real): Band
  {
    if 18.0 <= avg <= 24.0 then Optimal
    else if 15.0 <= avg <= 30.0 then Acceptable
    else Outside
  }

  /** Optimal within [40, 60] percent, acceptable within [30, 70]. */
  function HumidityBand(avg: real): Band
  {
    if 40.0 <= avg <= 60.0 then Optimal
    else if 30.0 <= avg <= 70.0 then Acceptable
    else Outside
  }

  function Points(b: Band): int
  {
    match b
    case Optimal => 50
    case Acceptable => 25
    case Outside => 0
  }

  function TemperatureComment(b: Band): string
  {
    match b
    case Optimal => "Optimal temperature"
    case Acceptable => "Acceptable temperature"
    case Outside => "Outside comfort zone"
  }

  function HumidityComment(b: Band): string
  {
    match b
    case Optimal => "Optimal humidity"
    case Acceptable => "Acceptable humidity"
    case Outside => "Outside comfort zone"
  }

  /** Thresholds on the summed score: 80, 60 and 40. */
  function LevelOf(score: int): Level
  {
    if score >= 80 then Excellent
    else if score >= 60 then Good
    else if score >= 40 then Fair
    else Poor
  }

  /** The comfort report for the window's average temperature and humidity. */
  function ComfortOf(avgTemperature: real, avgHumidity: real): ComfortReport
  {
    var t, h := TemperatureBand(avgTemperature), HumidityBand(avgHumidity);
    var score := Points(t) + Points(h);
    ComfortReport(LevelOf(score), score, TemperatureComment(t), HumidityComment(h))
  }

  /** What each axis contributes, as a condition on the average alone; the
      inner band takes precedence over the outer one. */
  lemma AxisPoints(avg: real)
    ensures Points(TemperatureBand(avg)) == 50 <==> 18.0 <= avg <= 24.0
    ensures Points(TemperatureBand(avg)) == 25 <==> 15.0 <= avg <= 30.0 && !(18.0 <= avg <= 24.0)
    ensures Points(TemperatureBand(avg)) == 0 <==> !(15.0 <= avg <= 30.0)
    ensures Points(HumidityBand(avg)) == 50 <==> 40.0 <= avg <= 60.0
    ensures Points(HumidityBand(avg)) == 25 <==> 30.0 <= avg <= 70.0 && !(40.0 <= avg <= 60.0)
    ensures Points(HumidityBand(avg)) == 0 <==> !(30.0 <= avg <= 70.0)
  {
  }

  /** The score is a multiple of 25 between 0 and 100. */
  lemma ScoreValues(avgTemperature: real, avgHumidity: real)
    ensures ComfortOf(avgTemperature, avgHumidity).score in {0, 25, 50, 75, 100}
  {
  }

  /** The levels the reachable scores map to: 100 is Excellent, 75 Good,
      50 Fair, and 25 and 0 Poor. */
  lemma LevelsOfReachableScores()
    ensures LevelOf(100) == Excellent && LevelOf(75) == Good && LevelOf(50) == Fair
    ensures LevelOf(25) == Poor && LevelOf(0) == Poor
  {
  }

  /** The level in terms of the two bands: Excellent needs both axes optimal,
      Good one optimal and the other acceptable, Fair either both acceptable
      or one optimal and the other outside, and anything less is Poor. */
  lemma LevelByBands(avgTemperature: real, avgHumidity: real)
    ensures var c, t, h := ComfortOf(avgTemperature, avgHumidity),
                           TemperatureBand(avgTemperature), HumidityBand(avgHumidity);
            && (c.level == Excellent <==> t == Optimal && h == Optimal)
            && (c.level == Good <==> (t == Optimal && h == Acceptable) || (t == Acceptable && h == Optimal))
            && (c.level == Fair <==> (t == Acceptable && h == Acceptable)
                                     || (t == Optimal && h == Outside) || (t == Outside && h == Optimal))
            && (c.level == Poor <==> t != Optimal && h != Optimal && (t == Outside || h == Outside))
  {
  }

  /** Two sample averages: 20 degrees at 45 percent scores 100 and is
      Excellent; 35 degrees at 80 percent scores 0 and is Poor. */
  lemma ComfortExamples()
    ensures ComfortOf(20.0, 45.0) ==
              ComfortReport(Excellent, 100, "Optimal temperature", "Optimal humidity")
    ensures ComfortOf(35.0, 80.0) ==
              ComfortReport(Poor, 0, "Outside comfort zone", "Outside comfort zone")
  {
  }
}
