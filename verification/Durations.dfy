/** Go's time.Duration units, in nanoseconds. */
module Durations {
  const MILLISECOND: int := 1_000_000
  const SECOND: int := 1_000_000_000
}
