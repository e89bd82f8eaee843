/** The value types shared by the whole analysis engine. */
module Readings {

  /** One stored sensor sample. The timestamp is the local wall-clock time at
      which the reading was stored, counted in microseconds (the resolution of
      the clock). Comparing these integers compares wall-clock times, as the
      source's comparisons of naive datetimes do; around a daylight-saving
      change they need not order the real instants. */
  datatype Reading = Reading(temperature: real, humidity: real, timestamp: int)

  /** An operation that either yields a value or fails with a typed error. */
  datatype Result<+T, +E> = Ok(value: T) | Err(error: E)

  /** A check that either passes or fails with a typed error. */
  datatype Outcome<+E> = Pass | Fail(error: E)

  /** Length of one hour on the timestamp clock. */
  /** The window length, in hours, when a request does not give one. */
  const DEFAULT_WINDOW_HOURS: int := 24

  const MICROS_PER_HOUR: int := 3_600_000_000

  /** The temperatures of `rs`, position by position. */
  function Temperatures(rs: seq<Reading>): (ts: seq<real>)
    ensures |ts| == |rs|
    ensures forall i :: 0 <= i < |rs| ==> ts[i] == rs[i].temperature
  {
    seq(|rs|, i requires 0 <= i < |rs| => rs[i].temperature)
  }

  /** The humidities of `rs`, position by position. */
  function Humidities(rs: seq<Reading>): (hs: seq<real>)
    ensures |hs| == |rs|
    ensures forall i :: 0 <= i < |rs| ==> hs[i] == rs[i].humidity
  {
    seq(|rs|, i requires 0 <= i < |rs| => rs[i].humidity)
  }
}
