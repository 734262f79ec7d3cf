/** Clock readings and durations, in nanoseconds. */
module Clock {
  const NANOS := 1_000_000_000

  /** Go's time.Time.Unix() of a clock reading: the second it lies in. */
  function Unix(nanos: int): int { nanos / NANOS }

  lemma UnixIsMonotone(a: int, b: int)
    requires a <= b
    ensures Unix(a) <= Unix(b)
  {}
}
