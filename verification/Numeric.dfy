/** The fixed-width integers of the contract and the arithmetic it does on them. */
module Numeric {

  const I128_MAX: int := 0x7fff_ffff_ffff_ffff_ffff_ffff_ffff_ffff
  const I128_MIN: int := -I128_MAX - 1
  const U32_MAX: int := 0xffff_ffff
  const U64_MAX: int := 0xffff_ffff_ffff_ffff

  type I128 = x: int | I128_MIN <= x <= I128_MAX
  type U32 = x: int | 0 <= x <= U32_MAX
  type U64 = x: int | 0 <= x <= U64_MAX

  function Min(a: int, b: int): int { if a <= b then a else b }

  function Max(a: int, b: int): int { if a >= b then a else b }

  function Clamp(x: int): I128 { Max(I128_MIN, Min(I128_MAX, x)) }

  /** `saturating_add`, `saturating_sub` and `saturating_mul` on `i128`. */
  function SatAdd(a: I128, b: I128): I128 { Clamp(a + b) }

  function SatSub(a: I128, b: I128): I128 { Clamp(a - b) }

  function SatMul(a: I128, b: I128): I128 { Clamp(a * b) }

  /** The same on the unsigned widths. */
  function SatAdd32(a: U32, b: U32): U32 { Min(U32_MAX, a + b) }

  function SatSub32(a: U32, b: U32): U32 { Max(0, a - b) }

  function SatAdd64(a: U64, b: U64): U64 { Min(U64_MAX, a + b) }

  function SatSub64(a: U64, b: U64): U64 { Max(0, a - b) }

  /** Integer division as Rust does it: the quotient is truncated towards zero. */
  function TruncDiv(a: I128, b: I128): (q: I128)
    requires b > 0
    ensures a >= 0 ==> q == a / b && 0 <= q <= a
    ensures a < 0 ==> q == 0 - (0 - a) / b && a <= q <= 0
  {
    var magnitude: int := if a >= 0 then a else 0 - a;
    QuotientBounds(magnitude, b);
    if a >= 0 then a / b else 0 - magnitude / b
  }

  lemma QuotientBounds(a: nat, b: int)
    requires b > 0
    ensures 0 <= a / b <= a
    ensures b * (a / b) <= a < b * (a / b) + b
  {
    var q, r := a / b, a % b;
    assert a == b * q + r;
    if q > a {
      MulMonotone(1, b, q);
    }
  }

  lemma MulMonotone(a: int, b: int, c: nat)
    requires a <= b
    ensures a * c <= b * c
  {
  }

  /** The quotient is the only integer in the half-open unit interval below a / b. */
  lemma QuotientIs(a: nat, b: int, q: int)
    requires b > 0
    requires b * q <= a < b * q + b
    ensures a / b == q
  {
    var p := a / b;
    QuotientBounds(a, b);
    if p < q {
      MulMonotone(p + 1, q, b);
    } else if q < p {
      MulMonotone(q + 1, p, b);
    }
  }

  lemma QuotientMonotone(a: nat, a': nat, b: int)
    requires b > 0 && a <= a'
    ensures a / b <= a' / b
  {
    QuotientBounds(a, b);
    QuotientBounds(a', b);
    if a / b > a' / b {
      MulMonotone(a' / b + 1, a / b, b);
    }
  }
}
