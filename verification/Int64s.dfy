/** Go's 64-bit signed integers: arithmetic is exact, then wraps. */
module Int64s {
  const MAX_INT64: int := 0x7fff_ffff_ffff_ffff
  const MIN_INT64: int := -0x8000_0000_0000_0000
  const TWO_TO_THE_64: int := 0x1_0000_0000_0000_0000

  type int64 = x: int | MIN_INT64 <= x <= MAX_INT64

  /** The int64 congruent to x modulo 2^64. */
  function Wrap(x: int): (r: int64)
    ensures (r - x) % TWO_TO_THE_64 == 0
    ensures MIN_INT64 <= x <= MAX_INT64 ==> r == x
  {
    (x - MIN_INT64) % TWO_TO_THE_64 + MIN_INT64
  }

  /** `x++` */
  function Increment(x: int): (r: int64)
    ensures r == Wrap(x + 1)
    ensures x < MAX_INT64 && x >= MIN_INT64 ==> r == x + 1
  {
    Wrap(x + 1)
  }

  lemma WrapIncrement(x: int)
    ensures Increment(Wrap(x)) == Wrap(x + 1)
  {
  }
}
