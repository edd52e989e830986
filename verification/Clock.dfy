/** Time is counted in nanoseconds, as the program's clock does. */
module Clock {
  const SECOND := 1_000_000_000
}
