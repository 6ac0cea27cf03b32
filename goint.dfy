/**
 * Go's `int` on the 64-bit platforms the game targets: a two's-complement
 * 64-bit integer whose `+`, `-` and `*` wrap around silently.
 */
module GoInt {

  const MinInt64: int := -0x8000_0000_0000_0000
  const MaxInt64: int := 0x7FFF_FFFF_FFFF_FFFF
  const Modulus: int := 0x1_0000_0000_0000_0000

  type Int64 = v: int | MinInt64 <= v <= MaxInt64

  /** The 64-bit value congruent to `v`: what Go stores when a result overflows. */
  function Wrap64(v: int): (r: Int64)
    ensures (r - v) % Modulus == 0
    ensures MinInt64 <= v <= MaxInt64 ==> r == v
  {
    (v - MinInt64) % Modulus + MinInt64
  }

  /** Go's `a + b` on `int`. */
  function Add64(a: Int64, b: Int64): (r: Int64)
    ensures MinInt64 <= a + b <= MaxInt64 ==> r == a + b
    ensures a + b > MaxInt64 ==> r == a + b - Modulus
    ensures a + b < MinInt64 ==> r == a + b + Modulus
  {
    Wrap64(a + b)
  }

  /** Go's `a - b` on `int`. */
  function Sub64(a: Int64, b: Int64): (r: Int64)
    ensures MinInt64 <= a - b <= MaxInt64 ==> r == a - b
    ensures a - b > MaxInt64 ==> r == a - b - Modulus
    ensures a - b < MinInt64 ==> r == a - b + Modulus
  {
    Wrap64(a - b)
  }

  /** Go's `a * b` on `int`. */
  function Mul64(a: Int64, b: Int64): (r: Int64)
    ensures MinInt64 <= a * b <= MaxInt64 ==> r == a * b
    ensures (r - a * b) % Modulus == 0
  {
    Wrap64(a * b)
  }
}
