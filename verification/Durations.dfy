/** Durations in whole nanoseconds, held in signed 64 bits. */
module Durations {
  const MICROSECOND: int := 1_000
  const MILLISECOND: int := 1_000_000
  const SECOND: int := 1_000_000_000
  const MINUTE: int := 60 * SECOND
  const HOUR: int := 60 * MINUTE
  const DAY: int := 24 * HOUR

  const MAX_DURATION: int := 0x7FFF_FFFF_FFFF_FFFF
  const MIN_DURATION: int := -0x8000_0000_0000_0000

  /** The difference of two instants, saturated to what a duration holds. */
  function Sub(a: int, b: int): int {
    if a - b > MAX_DURATION then MAX_DURATION else if a - b < MIN_DURATION then MIN_DURATION else a - b
  }
}
