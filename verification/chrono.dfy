/** `java.time.temporal.ChronoUnit` and `Duration.of`, with durations kept in
    nanoseconds. */
module Chrono {
  import opened Lang

  datatype ChronoUnit =
    | Nanos | Micros | Millis | Seconds | Minutes | Hours | HalfDays | Days
    | Weeks | Months | Years | Decades | Centuries | Millennia | Eras | Forever

  /** Units whose length is an estimate; `Duration` refuses them (`Days` is the
      one estimated unit it accepts, as exactly 24 hours). */
  predicate IsEstimated(unit: ChronoUnit)
  {
    unit.Weeks? || unit.Months? || unit.Years? || unit.Decades? ||
    unit.Centuries? || unit.Millennia? || unit.Eras? || unit.Forever?
  }

  /** Length of one accepted unit in nanoseconds. */
  function NanosPerUnit(unit: ChronoUnit): nat
    requires !IsEstimated(unit)
  {
    match unit
    case Nanos => 1
    case Micros => 1_000
    case Millis => 1_000_000
    case Seconds => 1_000_000_000
    case Minutes => 60_000_000_000
    case Hours => 3_600_000_000_000
    case HalfDays => 43_200_000_000_000
    case Days => 86_400_000_000_000
  }

  /** `Duration.of(amount, unit)` in nanoseconds: an estimated unit throws
      `UnsupportedTemporalTypeException`, and nothing else is refused; a
      positive amount gives a duration of at least that many nanoseconds (at
      least one unit, and no unit is shorter than a nanosecond). */
  function DurationOf(amount: int, unit: ChronoUnit): (r: Result<int, Exception>)
    ensures r.Failure? ==> IsEstimated(unit) && r.error.UnsupportedTemporalType?
    ensures amount >= 1 && r.Success? ==> r.value >= amount
  {
    if IsEstimated(unit) then Failure(UnsupportedTemporalType("Unit must not have an estimated duration"))
    else Success(amount * NanosPerUnit(unit))
  }
}
