/** Instants and durations of Go's time package, in nanoseconds. */
module Durations {

  const SECOND: int := 1_000_000_000

  /** The instant Go calls zero: 1 January of year 1. */
  const ZERO_TIME: int := -62_135_596_800 * SECOND

  const MAX_DURATION: int := 0x7FFF_FFFF_FFFF_FFFF

  /** Durations are 64-bit counts of nanoseconds. */
  type Duration = d: int | -MAX_DURATION - 1 <= d <= MAX_DURATION

  /** The longest duration, about 292 years, and the zero instant in seconds since
      1970. */
  lemma LimitsAre()
    ensures MAX_DURATION == 9_223_372_036_854_775_807 && ZERO_TIME == -62_135_596_800_000_000_000
  {}

  /** `t.Sub(u)`: a difference clamped to what a duration can hold. */
  function Sub(t: int, u: int): (d: Duration)
    ensures d <= 0 <==> t <= u
    ensures u + d <= t || d == -MAX_DURATION - 1
    ensures t <= u + d || d == MAX_DURATION
  {
    if t - u > MAX_DURATION then MAX_DURATION
    else if t - u < -MAX_DURATION - 1 then -MAX_DURATION - 1
    else t - u
  }
}
