/** The units of `java.util.concurrent.TimeUnit` and its conversion to seconds. */
module TimeUnits {

  datatype TimeUnit = Nanoseconds | Microseconds | Milliseconds | Seconds | Minutes | Hours | Days

  /** The three units the screen offers buttons for. */
  predicate IsClockUnit(unit: TimeUnit) {
    unit == Seconds || unit == Minutes || unit == Hours
  }

  /**
   * `unit.toSeconds(duration)` for a non-negative duration: sub-second units
   * truncate, coarser units scale up.
   */
  function ToSeconds(duration: nat, unit: TimeUnit): nat {
    match unit
    case Nanoseconds => duration / 1_000_000_000
    case Microseconds => duration / 1_000_000
    case Milliseconds => duration / 1000
    case Seconds => duration
    case Minutes => duration * 60
    case Hours => duration * 3600
    case Days => duration * 86400
  }
}
