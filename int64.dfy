/** Go's `int64` and the two's-complement wrap-around of its atomic add. */
module Int64 {
  const MIN: int := -0x8000_0000_0000_0000
  const MAX: int := 0x7fff_ffff_ffff_ffff
  /** 2^64, the modulus of int64 arithmetic. */
  const MODULUS: int := 0x1_0000_0000_0000_0000

  newtype int64 = x: int | -0x8000_0000_0000_0000 <= x < 0x8000_0000_0000_0000

  /** The int64 that a hardware add produces for the mathematical sum `x`:
      `x` itself when it is in range, otherwise `x` reduced modulo 2^64. */
  function Wrap(x: int): (r: int64)
    ensures MIN <= x <= MAX ==> r as int == x
    ensures (x - r as int) % MODULUS == 0
  {
    var q := (x - MIN) / MODULUS;
    var m := (x - MIN) % MODULUS;
    assert x - (m + MIN) == q * MODULUS;
    (m + MIN) as int64
  }
}
