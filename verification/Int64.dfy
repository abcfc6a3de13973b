/** Go's int64, as unbounded integers with explicit wrap-around. */
module Int64 {
  const TWO_62: int := 0x4000_0000_0000_0000
  const TWO_63: int := 0x8000_0000_0000_0000
  const TWO_64: int := 0x1_0000_0000_0000_0000
  const MAX_INT64: int := TWO_63 - 1

  /** Two's-complement reduction to int64. */
  function Wrap(x: int): int {
    (x + TWO_63) % TWO_64 - TWO_63
  }

  /** The result is the one int64 that differs by a multiple of 2^64. */
  lemma WrapIs(x: int, y: int)
    requires -0x8000_0000_0000_0000 <= y <= 0x7fff_ffff_ffff_ffff
    ensures y == Wrap(x) <==> (x - y) % 0x1_0000_0000_0000_0000 == 0
  {
  }
}
