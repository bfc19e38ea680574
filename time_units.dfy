/**
 * The part of java.util.concurrent.TimeUnit that the limiter's constructor uses:
 * the length of one unit, converted to whole milliseconds with `toMillis(1)`.
 */
module TimeUnits {

  datatype TimeUnit = Nanoseconds | Microseconds | Milliseconds | Seconds | Minutes | Hours | Days

  /** The exact length of one unit in nanoseconds, the common scale of every TimeUnit. */
  function NanosPerUnit(u: TimeUnit): nat
  {
    match u
    case Nanoseconds => 1
    case Microseconds => 1_000
    case Milliseconds => 1_000_000
    case Seconds => 1_000_000_000
    case Minutes => 60_000_000_000
    case Hours => 3_600_000_000_000
    case Days => 86_400_000_000_000
  }

  /**
   * `u.toMillis(1)`: one unit in milliseconds, truncated toward zero, so that the
   * units finer than a millisecond give 0.
   */
  function OneUnitMillis(u: TimeUnit): (ms: nat)
    ensures ms == NanosPerUnit(u) / 1_000_000
    ensures ms == 0 <==> u == Nanoseconds || u == Microseconds
    ensures ms * 1_000_000 <= NanosPerUnit(u) < (ms + 1) * 1_000_000
  {
    match u
    case Nanoseconds => 0
    case Microseconds => 0
    case Milliseconds => 1
    case Seconds => 1_000
    case Minutes => 60_000
    case Hours => 3_600_000
    case Days => 86_400_000
  }
}
