/** Machine integers and the floor and truncating divisions of the contracts. */
module Numeric {

  const I64_MAX: int := 0x7FFF_FFFF_FFFF_FFFF
  const I64_MIN: int := -0x8000_0000_0000_0000
  const I128_MAX: int := 0x7FFF_FFFF_FFFF_FFFF_FFFF_FFFF_FFFF_FFFF
  const I128_MIN: int := -0x8000_0000_0000_0000_0000_0000_0000_0000
  const TWO_32: int := 0x1_0000_0000
  const TWO_64: int := 0x1_0000_0000_0000_0000
  const TWO_128: int := 0x1_0000_0000_0000_0000_0000_0000_0000_0000

  predicate IsI64(x: int) {
    I64_MIN <= x <= I64_MAX
  }

  predicate IsI128(x: int) {
    I128_MIN <= x <= I128_MAX
  }

  /** `u32` and `u64` addition as the release build performs it. */
  function Add32(a: int, b: int): int {
    (a + b) % TWO_32
  }

  function Add64(a: int, b: int): int {
    (a + b) % TWO_64
  }

  /** The `i128` value of an unchecked result. */
  function Wrap128(x: int): int {
    (x - I128_MIN) % TWO_128 + I128_MIN
  }

  lemma WrapInRange(x: int)
    requires IsI128(x)
    ensures Wrap128(x) == x
  {
  }

  /** Rust's `/` on signed integers, for a positive divisor. */
  function TruncDiv(a: int, d: int): int
    requires d > 0
  {
    if a >= 0 then a / d else -(-a / d)
  }

  /** `q` is `a / d`, rounded toward zero. */
  predicate Truncated(q: int, a: int, d: int) {
    if a >= 0 then d * q <= a < d * q + d else d * q - d < a <= d * q
  }

  lemma TruncDivTruncates(a: int, d: int)
    requires d > 0
    ensures Truncated(TruncDiv(a, d), a, d)
  {
    DivBounds(a, d);
    DivBounds(-a, d);
  }

  function Min(a: int, b: int): int {
    if a <= b then a else b
  }

  function Max(a: int, b: int): int {
    if a >= b then a else b
  }

  lemma MulMono(a: int, b: int, c: int)
    requires a <= b && 0 <= c
    ensures a * c <= b * c
  {
  }

  lemma MulMono2(a: int, b: int, c: int, d: int)
    requires 0 <= a <= b && 0 <= c <= d
    ensures 0 <= a * c <= b * d
  {
    MulMono(a, b, c);
    MulMono(c, d, b);
  }

  lemma DivMono(a: int, b: int, d: int)
    requires a <= b && 0 < d
    ensures a / d <= b / d
  {
    DivBounds(a, d);
    DivBounds(b, d);
    if b / d < a / d {
      MulMono(b / d + 1, a / d, d);
    }
  }

  lemma DivBounds(a: int, d: int)
    requires 0 < d
    ensures d * (a / d) <= a < d * (a / d) + d
  {
  }

  /** The quotient is the only `q` with `d * q <= a < d * q + d`. */
  lemma DivUnique(a: int, d: int, q: int)
    requires 0 < d && d * q <= a < d * q + d
    ensures a / d == q
  {
    DivBounds(a, d);
    if a / d < q {
      MulMono(a / d + 1, q, d);
    } else if q < a / d {
      MulMono(q + 1, a / d, d);
    }
  }

  lemma DivShift(a: int, d: int, k: int)
    requires 0 < d
    ensures (a + k * d) / d == a / d + k
  {
    DivBounds(a, d);
    DivUnique(a + k * d, d, a / d + k);
  }

  /** Splitting a sum before flooring loses at most one unit. */
  lemma FloorSplit(a: int, b: int, d: int)
    requires 0 < d
    ensures a / d + b / d <= (a + b) / d <= a / d + b / d + 1
  {
    var q, r := a / d, b / d;
    DivBounds(a, d);
    DivBounds(b, d);
    assert d * (q + r) == d * q + d * r;
    assert d * (q + r + 1) == d * (q + r) + d;
    if a + b < d * (q + r) + d {
      DivUnique(a + b, d, q + r);
    } else {
      DivUnique(a + b, d, q + r + 1);
    }
  }

  /** A floor that is compared with an integer decides the exact comparison. */
  lemma FloorAtLeast(a: int, d: int, t: int)
    requires 0 < d
    ensures a / d >= t <==> a >= t * d
  {
    DivBounds(a, d);
    if a / d >= t {
      MulMono(t, a / d, d);
    } else {
      MulMono(a / d + 1, t, d);
    }
  }

  /** So does a ceiling, computed as `(a + d - 1) / d`. */
  lemma CeilAtMost(a: int, d: int, t: int)
    requires 0 < d
    ensures (a + d - 1) / d <= t <==> a <= t * d
  {
    FloorAtLeast(a + d - 1, d, t + 1);
  }
}
