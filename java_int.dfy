/** Java's 32-bit `int`: the values it holds and its wrap-around addition. */
module JavaInt {

  const MinInt32: int := -0x8000_0000
  const MaxInt32: int := 0x7fff_ffff

  /** The values a Java `int` (or a non-null `Integer`) can hold. */
  type Int32 = x: int | -0x8000_0000 <= x <= 0x7fff_ffff

  /** The `int` that two's-complement arithmetic leaves for the exact value `x`. */
  function Wrap32(x: int): (r: Int32)
    ensures (x - r) % 0x1_0000_0000 == 0
    ensures MinInt32 <= x <= MaxInt32 ==> r == x
  {
    (x + 0x8000_0000) % 0x1_0000_0000 - 0x8000_0000
  }

  /** Java's `a + b` on two `int`s: exact when it fits, off by 2^32 when it overflows. */
  function AddInt32(a: Int32, b: Int32): (r: Int32)
    ensures MinInt32 <= a + b <= MaxInt32 ==> r == a + b
    ensures a + b > MaxInt32 ==> r == a + b - 0x1_0000_0000
    ensures a + b < MinInt32 ==> r == a + b + 0x1_0000_0000
  {
    Wrap32(a + b)
  }
}
