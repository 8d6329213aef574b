/**
 * Kotlin's `Int` on the JVM: 32-bit two's complement, where `+` and `*`
 * wrap around and `/` truncates toward zero.
 */
module JvmInt {

  const MinInt: int := -0x8000_0000
  const MaxInt: int := 0x7fff_ffff
  const Modulus: int := 0x1_0000_0000

  type Int32 = x: int | MinInt <= x <= MaxInt

  /** The 32-bit value congruent to `x` (what the JVM keeps of an overflowing result). */
  function Wrap(x: int): (r: Int32)
    ensures (r - x) % Modulus == 0
    ensures MinInt <= x <= MaxInt ==> r == x
  {
    (x - MinInt) % Modulus + MinInt
  }

  /** `a + 1` on `Int` (Kotlin's `++`). */
  function Inc(a: Int32): (r: Int32)
    ensures a < MaxInt ==> r == a + 1
    ensures a == MaxInt ==> r == MinInt
  {
    Wrap(a + 1)
  }

  /** `a * b` on `Int`. */
  function Mul(a: Int32, b: Int32): (r: Int32)
    ensures MinInt <= a * b <= MaxInt ==> r == a * b
    ensures (r - a * b) % Modulus == 0
  {
    Wrap(a * b)
  }

  function Abs(x: int): int {
    if x < 0 then -x else x
  }

  /**
   * Division truncating toward zero on unbounded integers (the JVM's `/`
   * before the result is narrowed): the remainder takes the sign of `a`.
   */
  function TruncDiv(a: int, b: int): (q: int)
    requires b != 0
    ensures a >= 0 ==> 0 <= a - b * q < Abs(b)
    ensures a < 0 ==> -Abs(b) < a - b * q <= 0
  {
    if a >= 0 then
      (if b > 0 then a / b else -(a / -b))
    else
      (if b > 0 then -((-a) / b) else (-a) / (-b))
  }

  /**
   * `a / b` on `Int`. Division by zero throws in Kotlin; callers check
   * for it. `MinInt / -1` overflows back to `MinInt`.
   */
  function Div(a: Int32, b: Int32): (q: Int32)
    requires b != 0
    ensures 0 <= a && 0 < b ==> q == a / b
    ensures a == MinInt && b == -1 ==> q == MinInt
  {
    Wrap(TruncDiv(a, b))
  }
}
