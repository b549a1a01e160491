/** `java.util.concurrent.TimeUnit` and its conversion to milliseconds. */
module TimeUnits {

  datatype TimeUnit = Nanoseconds | Microseconds | Milliseconds | Seconds | Minutes | Hours | Days

  /** Length of one unit in nanoseconds. */
  function NanosPerUnit(unit: TimeUnit): nat
  {
    match unit
    case Nanoseconds => 1
    case Microseconds => 1_000
    case Milliseconds => 1_000_000
    case Seconds => 1_000_000_000
    case Minutes => 60_000_000_000
    case Hours => 3_600_000_000_000
    case Days => 86_400_000_000_000
  }

  /** `unit.toMillis(duration)` for a positive duration: whole milliseconds,
      the fraction of a millisecond truncated. */
  function ToMillis(duration: nat, unit: TimeUnit): (ms: nat)
    ensures ms * 1_000_000 <= duration * NanosPerUnit(unit) < (ms + 1) * 1_000_000
  {
    match unit
    case Nanoseconds => duration / 1_000_000
    case Microseconds => duration / 1_000
    case Milliseconds => duration
    case Seconds => duration * 1_000
    case Minutes => duration * 60_000
    case Hours => duration * 3_600_000
    case Days => duration * 86_400_000
  }
}
