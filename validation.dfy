/** The range checks `add_reading` applies before a reading is stored, and the
    store update that follows them. */
module Validation {
  import opened Readings

  datatype ValidationError = TemperatureOutOfRange | HumidityOutOfRange

  /** The detail text the service reports with each error. */
  function Message(e: ValidationError): string
  {
    match e
    case TemperatureOutOfRange => "Temperature out of valid range"
    case HumidityOutOfRange => "Humidity must be between 0 and 100"
  }

  const MIN_TEMPERATURE: real := -50.0
  const MAX_TEMPERATURE: real := 150.0
  const MIN_HUMIDITY: real := 0.0
  const MAX_HUMIDITY: real := 100.0

  predicate TemperatureInRange(t: real) { MIN_TEMPERATURE <= t <= MAX_TEMPERATURE }
  predicate HumidityInRange(h: real) { MIN_HUMIDITY <= h <= MAX_HUMIDITY }

  /** A reading the store may hold. */
  predicate ValidReading(r: Reading)
  {
    TemperatureInRange(r.temperature) && HumidityInRange(r.humidity)
  }

  /** The two checks, temperature first. */
  function Validate(temperature: real, humidity: real): (o: Outcome<ValidationError>)
    ensures o == Pass <==> -50.0 <= temperature <= 150.0 && 0.0 <= humidity <= 100.0
    ensures o == Fail(TemperatureOutOfRange) <==> !(-50.0 <= temperature <= 150.0)
    ensures o == Fail(HumidityOutOfRange) <==>
              -50.0 <= temperature <= 150.0 && !(0.0 <= humidity <= 100.0)
  {
    if !TemperatureInRange(temperature) then Fail(TemperatureOutOfRange)
    else if !HumidityInRange(humidity) then Fail(HumidityOutOfRange)
    else Pass
  }

  /** Stores a reading stamped `now` at the end of `store`, or reports why it
      was refused (and then leaves the store as it was). */
  function AddReading(store: seq<Reading>, temperature: real, humidity: real, now: int)
    : (r: Result<seq<Reading>, ValidationError>)
    ensures r.Ok? <==> ValidReading(Reading(temperature, humidity, now))
    ensures r.Ok? ==> r.value == store + [Reading(temperature, humidity, now)]
    ensures r.Err? ==> Validate(temperature, humidity) == Fail(r.error)
  {
    match Validate(temperature, humidity)
    case Fail(e) => Err(e)
    case Pass => Ok(store + [Reading(temperature, humidity, now)])
  }

  /** Every reading in the store passed the checks. */
  predicate ValidStore(store: seq<Reading>)
  {
    forall i :: 0 <= i < |store| ==> ValidReading(store[i])
  }

  /** Writing through `AddReading` keeps every stored reading in range, and the
      stored values are exactly the submitted ones. */
  lemma AddReadingKeepsStoreValid(store: seq<Reading>, temperature: real, humidity: real, now: int)
    requires ValidStore(store)
    ensures AddReading(store, temperature, humidity, now).Ok? ==>
              var s := AddReading(store, temperature, humidity, now).value;
              ValidStore(s) && s[|s| - 1].temperature == temperature && s[|s| - 1].humidity == humidity
  {
  }

  /** A reading out of range on both axes reports the temperature error. */
  lemma TemperatureCheckedFirst(temperature: real, humidity: real)
    requires !TemperatureInRange(temperature) && !HumidityInRange(humidity)
    ensures Validate(temperature, humidity) == Fail(TemperatureOutOfRange)
  {
  }
}
