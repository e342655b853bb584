/** Time arithmetic shared by the limiters. Instants and durations are whole microseconds. */
module Times {
  const SECOND := 1_000_000
  const DAY := 86_400 * SECOND

  function Max(a: int, b: int): int {
    if a < b then b else a
  }

  /** Python's int() of a number of seconds: rounding towards zero. */
  function WholeSeconds(micros: int): int {
    if micros >= 0 then micros / SECOND else -(-micros / SECOND)
  }

  /** Seconds to wait when `elapsed` of a period has passed. */
  function RetryAfter(period: nat, elapsed: int): int {
    Max(1, WholeSeconds(period * SECOND - elapsed) + 1)
  }
}
