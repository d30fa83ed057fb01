/** The machine integers the bindings use (`u32`, `c_int`, `usize` on a 64-bit
    target) and the Rust operators on them whose meaning differs from Dafny's:
    signed `/` and `%` round toward zero, and `as u32` keeps the low 32 bits. */
module Native {

  const TWO_32: int := 0x1_0000_0000

  type U32 = x: int | 0 <= x < 0x1_0000_0000

  /** `c_int`, a 32-bit signed integer on the supported platforms. */
  type CInt = x: int | -0x8000_0000 <= x < 0x8000_0000

  /** `usize` on a 64-bit target. */
  type USize = x: int | 0 <= x < 0x1_0000_0000_0000_0000

  /** Rust's `a / d` on a signed integer: the quotient rounded toward zero.
      The remainder it leaves has the sign of `a` and is smaller than `d`. */
  function TruncDiv(a: int, d: int): (q: int)
    requires d > 0
    ensures a >= 0 ==> q == a / d
    ensures a >= 0 ==> 0 <= a - d * q < d
    ensures a < 0 ==> -d < a - d * q <= 0
  {
    if a >= 0 then a / d else -((-a) / d)
  }

  /** Rust's `a % d` on a signed integer: what `TruncDiv` leaves over. */
  function TruncRem(a: int, d: int): (r: int)
    requires d > 0
    ensures a == d * TruncDiv(a, d) + r
    ensures a >= 0 ==> r == a % d
    ensures -d < r < d
    ensures a >= 0 ==> r >= 0
    ensures a < 0 ==> r <= 0
  {
    if a >= 0 then a % d else -((-a) % d)
  }

  /** Rust's `x as u32` from a wider or signed integer: the value congruent to
      `x` modulo 2^32 that fits in 32 bits; a value that already fits is kept. */
  function AsU32(x: int): (r: U32)
    ensures (x - r) % TWO_32 == 0
    ensures 0 <= x < TWO_32 ==> r == x
  {
    x % TWO_32
  }
}
