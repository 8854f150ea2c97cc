/**
 * Java's 32-bit `int`: its range and the two's-complement wrap-around of
 * `+`, `++` and `*`, which the ticketing code relies on implicitly.
 */
module JavaInt {

  const MIN_INT32: int := -0x8000_0000
  const MAX_INT32: int := 0x7fff_ffff
  /** Number of distinct 32-bit values. */
  const MODULUS: int := 0x1_0000_0000

  type Int32 = x: int | MIN_INT32 <= x <= MAX_INT32

  /** The value Java keeps when the mathematical result `x` is truncated to 32 bits. */
  function Wrap(x: int): (r: Int32)
    ensures (r - x) % MODULUS == 0
    ensures MIN_INT32 <= x <= MAX_INT32 ==> r == x
  {
    (x - MIN_INT32) % MODULUS + MIN_INT32
  }

  /** `x++` on a Java int: one more, except that the largest value wraps to the smallest. */
  function Increment(x: Int32): (r: Int32)
    ensures x < MAX_INT32 ==> r == x + 1
    ensures x == MAX_INT32 ==> r == MIN_INT32
  {
    Wrap(x + 1)
  }
}
