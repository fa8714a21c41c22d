/** Instants and durations: integers that count nanoseconds. */
module Time {
  const SECOND: int := 1_000_000_000
  const HOUR: int := 3600 * SECOND
  const DAY: int := 24 * HOUR

  const MIN_INT64: int := -0x8000_0000_0000_0000
  const MAX_INT64: int := 0x7fff_ffff_ffff_ffff

  type Int64 = x: int | MIN_INT64 <= x <= MAX_INT64

  /** A time.Duration. */
  type Duration = Int64

  /** Time.Sub saturates. */
  function Sub(t: int, u: int): (d: Duration)
    ensures MIN_INT64 <= t - u <= MAX_INT64 ==> d == t - u
    ensures MAX_INT64 < t - u ==> d == 0x7fff_ffff_ffff_ffff
    ensures t - u < MIN_INT64 ==> d == -0x8000_0000_0000_0000
  {
    if t - u > MAX_INT64 then MAX_INT64 else if t - u < MIN_INT64 then MIN_INT64 else t - u
  }
}
