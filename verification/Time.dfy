/** Instants and durations, as `chrono` keeps them: whole nanoseconds, with the
    truncating conversions to seconds and milliseconds that the code calls. */
module Time {

  /** Nanoseconds since the epoch. */
  type Instant = int

  /** Signed nanoseconds. */
  type Duration = int

  const MILLI: Duration := 1_000_000
  const SECOND: Duration := 1_000_000_000
  const MINUTE: Duration := 60 * SECOND
  const HOUR: Duration := 60 * MINUTE
  const DAY: Duration := 24 * HOUR

  /** Division rounding toward zero, which Dafny's Euclidean `/` is not. */
  function TruncDiv(a: int, b: int): int
    requires b > 0
  {
    if a >= 0 then a / b else -((-a) / b)
  }

  function NumSeconds(d: Duration): int {
    TruncDiv(d, SECOND)
  }

  function NumMilliseconds(d: Duration): int {
    TruncDiv(d, MILLI)
  }

  /** `timestamp_millis` rounds down, also before the epoch. */
  function ToMillis(ts: Instant): int {
    ts / MILLI
  }

  function FromMillis(ms: int): Instant {
    ms * MILLI
  }

  predicate WholeMillis(ts: Instant) {
    ts % MILLI == 0
  }

  predicate WholeSeconds(ts: Instant) {
    ts % SECOND == 0
  }

  function Abs(d: Duration): Duration {
    if d < 0 then -d else d
  }
}
