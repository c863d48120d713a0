/** Unsigned 128-bit arithmetic and the 1e18 fixed-point operators of the network pallet. */
module FixedPoint {

  const U32_RANGE: nat := 0x1_0000_0000

  type u32 = x: nat | x < U32_RANGE

  /** What 32-bit arithmetic leaves of a number. */
  function Wrap(x: nat): u32 {
    x % U32_RANGE
  }

  const U128_MAX: nat := 0xFFFF_FFFF_FFFF_FFFF_FFFF_FFFF_FFFF_FFFF
  const U256_MAX: nat := (U128_MAX + 1) * (U128_MAX + 1) - 1

  /** 1.0 */
  const ONE: nat := 1_000_000_000_000_000_000

  const HALF_PERCENT: nat := 500_000_000_000_000_000

  type u128 = x: nat | x <= U128_MAX

  function Min(a: nat, b: nat): nat {
    if a <= b then a else b
  }

  function SatAdd(a: u128, b: u128): (r: u128) {
    Min(a + b, U128_MAX)
  }

  function SatSub(a: u128, b: u128): (r: u128) {
    if a <= b then 0 else a - b
  }

  /** `x` scaled by the percentage `y`, rounding down; the widening to 256 bits is guarded by a
      test that answers 0, and the narrowing back saturates. */
  function PercentMul(x: u128, y: u128): u128 {
    if x == 0 || y == 0 then 0
    else if x > (U256_MAX - HALF_PERCENT) / y then 0
    else Min(x * y / ONE, U128_MAX)
  }

  /** `x` as a percentage of `y`, rounding down; dividing by 0 answers 0. */
  function PercentDiv(x: u128, y: u128): u128 {
    if x == 0 || y == 0 then 0
    else Min(x * ONE / y, U128_MAX)
  }

  lemma MulMono(a: nat, b: nat, c: nat, d: nat)
    requires a <= c && b <= d
    ensures a * b <= c * d
  {
    assert a * b <= c * b;
    assert c * b <= c * d;
  }

  lemma Distributes(a: nat, b: nat, c: nat)
    ensures (a + b) * c == a * c + b * c
  {
  }

  lemma MulAssoc(a: nat, b: nat, c: nat)
    ensures a * b * c == a * (b * c)
  {
  }

  lemma MulCancel(a: nat, b: nat, d: nat)
    requires d > 0 && a * d <= b * d
    ensures a <= b
  {
    if a > b { MulMono(b + 1, d, a, d); }
  }

  lemma MulLess(a: nat, b: nat, d: nat)
    requires a * d < b * d
    ensures a < b
  {
    if a >= b { MulMono(b, d, a, d); }
  }

  lemma DivBounds(n: nat, d: nat)
    requires d > 0
    ensures n / d * d <= n < (n / d + 1) * d
  {
    assert n == n / d * d + n % d;
  }

  lemma DivUnique(n: nat, d: nat, q: nat)
    requires d > 0 && q * d <= n < (q + 1) * d
    ensures n / d == q
  {
    DivBounds(n, d);
    if n / d < q {
      MulMono(n / d + 1, d, q, d);
    } else if n / d > q {
      MulMono(q + 1, d, n / d, d);
    }
  }

  lemma DivBelow(n: nat, d: nat, q: nat)
    requires d > 0 && n < q * d
    ensures n / d < q
  {
    DivBounds(n, d);
    if n / d >= q { MulMono(q, d, n / d, d); }
  }

  lemma DivMono(n: nat, m: nat, d: nat)
    requires d > 0 && n <= m
    ensures n / d <= m / d
  {
    DivBounds(n, d);
    DivBounds(m, d);
    if n / d > m / d {
      MulMono(m / d + 1, d, n / d, d);
    }
  }

  /** The 256-bit guard never fires on 128-bit inputs. */
  lemma PercentMulIsFloor(x: u128, y: u128)
    ensures PercentMul(x, y) == Min(x * y / ONE, U128_MAX)
  {
    if x == 0 || y == 0 {
      assert x * y == 0;
    } else {
      var room := U256_MAX - HALF_PERCENT;
      MulMono(x, y, U128_MAX, U128_MAX);
      assert x * y <= room;
      if x > room / y {
        DivBounds(room, y);
        MulMono(room / y + 1, y, x, y);
      }
    }
  }

  /** Scaling by at most 1.0 never enlarges, and is the floor without saturation. */
  lemma PercentMulShrinks(x: u128, y: u128)
    requires y <= ONE
    ensures PercentMul(x, y) <= x
    ensures PercentMul(x, y) == x * y / ONE
    ensures PercentMul(x, y) * ONE <= x * y < (PercentMul(x, y) + 1) * ONE
  {
    PercentMulIsFloor(x, y);
    MulMono(x, y, x, ONE);
    DivBounds(x * y, ONE);
    DivMono(x * y, x * ONE, ONE);
    DivUnique(x * ONE, ONE, x);
  }

  lemma ScaledByOne(x: u128)
    ensures PercentMul(x, ONE) == x
  {
    PercentMulShrinks(x, ONE);
    DivUnique(x * ONE, ONE, x);
  }

  lemma PercentMulComm(x: u128, y: u128)
    ensures PercentMul(x, y) == PercentMul(y, x)
  {
    PercentMulIsFloor(x, y);
    PercentMulIsFloor(y, x);
    assert x * y == y * x;
  }

  lemma PercentMulMono(x: u128, x': u128, y: u128, y': u128)
    requires x <= x' && y <= y'
    ensures PercentMul(x, y) <= PercentMul(x', y')
  {
    PercentMulIsFloor(x, y);
    PercentMulIsFloor(x', y');
    MulMono(x, y, x', y');
    DivMono(x * y, x' * y', ONE);
  }

  lemma PercentDivIsFloor(x: u128, y: u128)
    requires y > 0
    ensures PercentDiv(x, y) == Min(x * ONE / y, U128_MAX)
  {
    if x == 0 { DivUnique(x * ONE, y, 0); }
  }

  /** A part of a whole is a share of at most 1.0, and is the floor without saturation. */
  lemma PercentDivShare(x: u128, y: u128)
    requires x <= y && y > 0
    ensures PercentDiv(x, y) <= ONE
    ensures PercentDiv(x, y) * y <= x * ONE < (PercentDiv(x, y) + 1) * y
  {
    if x == 0 {
      assert x * ONE == 0;
    } else {
      DivBounds(x * ONE, y);
      MulMono(x, ONE, y, ONE);
      if x * ONE / y > ONE {
        MulMono(ONE + 1, y, x * ONE / y, y);
      }
    }
  }

  lemma PercentDivMono(x: u128, x': u128, y: u128)
    requires x <= x'
    ensures PercentDiv(x, y) <= PercentDiv(x', y)
  {
    if x != 0 && y != 0 {
      MulMono(x, ONE, x', ONE);
      DivMono(x * ONE, x' * ONE, y);
    }
  }
}
