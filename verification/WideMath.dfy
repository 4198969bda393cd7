/** 256-bit multiply-then-divide on u128 operands (strategy.rs).
    Bit operations of the source are written arithmetically: `x & (2^64-1)` is `x % 2^64`,
    `x >> k` is `x / 2^k`, `x << k` is `x * 2^k % 2^128`, and `|` of disjoint bits is `+`. */
module WideMath {
  import opened Base

  function Pow2(n: nat): (p: nat)
    ensures p > 0
  {
    if n == 0 then 1 else 2 * Pow2(n - 1)
  }

  /** What `mul_div` has to compute: the true quotient and remainder of the exact product. */
  function QuotRem(a: nat, b: nat, d: nat): Option<(nat, nat)> {
    if d == 0 || a * b / d >= TWO128 then None else Some((a * b / d, a * b % d))
  }

  lemma Pow2_16()
    ensures Pow2(16) == 65536
  {
    assert Pow2(4) == 16;
    Pow2Add(4, 4);
    Pow2Add(8, 8);
  }

  lemma Pow2_64()
    ensures Pow2(64) == TWO64
  {
    Pow2_16();
    Pow2Add(16, 16);
    Pow2Add(32, 32);
  }

  lemma Pow2_128()
    ensures Pow2(128) == TWO128
  {
    Pow2_64();
    Pow2Add(64, 64);
  }

  lemma {:induction false} Pow2Add(m: nat, n: nat)
    ensures Pow2(m + n) == Pow2(m) * Pow2(n)
  {
    if m == 0 {
    } else {
      Pow2Add(m - 1, n);
    }
  }

  lemma MulStep(x: int, y: int, d: int)
    requires d > 0 && x < y
    ensures x * d + d <= y * d
  {
    assert (y - x) * d >= d by { MulMono(1, d, y - x, d); }
    assert y * d == x * d + (y - x) * d;
  }

  lemma DivMod(n: int, d: int)
    requires d > 0
    ensures n == n / d * d + n % d && 0 <= n % d < d
  {
  }

  /** The quotient and remainder with 0 <= r < d are unique. */
  lemma DivModUnique(n: int, d: int, q: int, r: int)
    requires d > 0 && 0 <= r < d && n == q * d + r
    ensures n / d == q && n % d == r
  {
    DivMod(n, d);
    var q' := n / d;
    if q > q' {
      MulStep(q', q, d);
    } else if q < q' {
      MulStep(q, q', d);
    }
  }

  lemma MulMono(a: nat, b: nat, x: nat, y: nat)
    requires a <= x && b <= y
    ensures a * b <= x * y
  {
    assert a * b <= x * b;
    assert x * b <= x * y;
  }

  /** n / d >= m exactly when n >= m * d. */
  lemma DivAtLeast(n: int, d: int, m: int)
    requires d > 0
    ensures n / d >= m <==> n >= m * d
  {
    DivMod(n, d);
    var q := n / d;
    if q < m {
      MulStep(q, m, d);
    } else if q > m {
      MulStep(m, q, d);
    }
  }

  /** `x >> k`. */
  function Shr(x: nat, k: nat): nat {
    if k == 0 then x else Shr(x, k - 1) / 2
  }

  /** Shifting every bit out leaves nothing. */
  lemma {:induction false} ShrOut(x: nat, k: nat, n: nat)
    requires k <= n && x < Pow2(n)
    ensures Shr(x, k) < Pow2(n - k)
  {
    if k == 0 {
    } else {
      ShrOut(x, k - 1, n);
      assert Pow2(n - k + 1) == 2 * Pow2(n - k);
    }
  }

  lemma Product4(x1: nat, x0: nat, y1: nat, y0: nat)
    ensures (x1 + x0) * (y1 + y0) == x1 * y1 + x1 * y0 + x0 * y1 + x0 * y0
  {
  }

  /** Schoolbook expansion of a product into its four 64-bit limb products. */
  lemma Limbs(a0: nat, a1: nat, b0: nat, b1: nat)
    ensures (a1 * TWO64 + a0) * (b1 * TWO64 + b0) == a1 * b1 * TWO128 + (a0 * b1 + a1 * b0) * TWO64 + a0 * b0
  {
    Product4(a1 * TWO64, a0, b1 * TWO64, b0);
    assert (a1 * TWO64) * (b1 * TWO64) == a1 * b1 * TWO128;
    assert (a1 * TWO64) * b0 == a1 * b0 * TWO64;
    assert a0 * (b1 * TWO64) == a0 * b1 * TWO64;
  }

  /** `mul_div`: limb multiplication, then restoring long division with a carry bit.
      Every u128-typed local is a proof that the source expression does not overflow. */
  method MulDiv(a: u128, b: u128, d: u128) returns (r: Option<(u128, u128)>)
    ensures r == QuotRem(a, b, d)
  {
    if d == 0 {
      return None;
    }
    var lo, hi := WideMul(a, b);
    HighLimb(a * b, hi, lo, d);
    if hi >= d {
      return None;
    }
    if hi == 0 {
      return Some((lo / d, lo % d));
    }
    var rem, q := LongDivide(hi, lo, d);
    DivModUnique(a * b, d, q, rem);
    return Some((q, rem));
  }

  /** The quotient fits 128 bits exactly when the high limb is below the divisor. */
  lemma HighLimb(n: nat, hi: nat, lo: u128, d: nat)
    requires d > 0 && n == hi * TWO128 + lo
    ensures n / d >= TWO128 <==> hi >= d
  {
    DivAtLeast(n, d, TWO128);
  }

  /** The schoolbook product of `mul_div`: (lo, hi) limbs of the 256-bit result. */
  method WideMul(a: u128, b: u128) returns (lo: u128, hi: u128)
    ensures a * b == hi * TWO128 + lo
  {
    var a0, a1, b0, b1 := a % TWO64, a / TWO64, b % TWO64, b / TWO64;
    var p00, p01, p10, p11 := LimbMul(a0, b0), LimbMul(a0, b1), LimbMul(a1, b0), LimbMul(a1, b1);
    lo, hi := AddLimbs(p00, p01, p10, p11);
    Limbs(a0, a1, b0, b1);
  }

  /** Adding the limb products with their carries. */
  method AddLimbs(p00: u128, p01: u128, p10: u128, p11: u128) returns (lo: u128, hi: u128)
    requires p00 <= LIMB_PRODUCT_MAX && p01 <= LIMB_PRODUCT_MAX && p10 <= LIMB_PRODUCT_MAX && p11 <= LIMB_PRODUCT_MAX
    ensures p11 * TWO128 + (p01 + p10) * TWO64 + p00 == hi * TWO128 + lo
  {
    Split64(p00);
    Split64(p01);
    Split64(p10);
    var mid: u128 := p00 / TWO64 + p01 % TWO64 + p10 % TWO64;
    Split64(mid);
    ShiftedMid(mid);
    Recombine(p00 / TWO64, p00 % TWO64, p01 / TWO64, p01 % TWO64, p10 / TWO64, p10 % TWO64, p11, mid / TWO64,
      mid % TWO64);
    lo := p00 % TWO64 + mid * TWO64 % TWO128;
    hi := p11 + p01 / TWO64 + p10 / TWO64 + mid / TWO64;
  }

  lemma Split64(x: u128)
    ensures x == x / TWO64 * TWO64 + x % TWO64 && 0 <= x / TWO64 < TWO64 && 0 <= x % TWO64 < TWO64
    ensures x <= LIMB_PRODUCT_MAX ==> x / TWO64 <= TWO64 - 2
  {
  }

  /** `mid << 64` drops the high half of `mid`. */
  lemma ShiftedMid(mid: nat)
    ensures mid * TWO64 % TWO128 == mid % TWO64 * TWO64
  {
  }

  /** The carries add up, over the 64-bit halves of the limb products. */
  lemma Recombine(h00: nat, l00: nat, h01: nat, l01: nat, h10: nat, l10: nat, p11: nat, midHigh: nat, midLow: nat)
    requires h00 + l01 + l10 == midHigh * TWO64 + midLow
    ensures p11 * TWO128 + (h01 * TWO64 + l01 + h10 * TWO64 + l10) * TWO64 + h00 * TWO64 + l00 ==
            (p11 + h01 + h10 + midHigh) * TWO128 + (l00 + midLow * TWO64)
  {
  }

  const LIMB_PRODUCT_MAX: u128 := TWO128 - 2 * TWO64 + 1

  /** A product of two 64-bit limbs leaves room for two more limbs below 2^128. */
  function LimbMul(x: u64, y: u64): (p: u128)
    ensures p == x * y && p <= LIMB_PRODUCT_MAX
  {
    MulMono(x, y, TWO64 - 1, TWO64 - 1);
    x * y
  }

  /** The division loop of `mul_div`, one quotient bit per iteration. */
  method LongDivide(hi: u128, lo: u128, d: u128) returns (rem: u128, q: u128)
    requires hi < d
    ensures rem < d && hi * TWO128 + lo == q * d + rem
  {
    rem, q := hi, 0;
    Pow2_128();
    ShrOut(lo, 128, 128);
    for i := 128 downto 0
      invariant Divided(hi, d, Pow2(128 - i), Shr(lo, i), q, rem)
    {
      ghost var rem0, q0 := rem, q;
      QuotientBitsFit(i);
      var bit := Shr(lo, i) % 2;
      rem, q := DivideBit(d, rem, q, bit);
      BringDown(hi, d, Pow2(128 - i - 1), Shr(lo, i + 1), q0, rem0, bit);
    }
  }

  /** The body of the division loop. The doubled remainder can need 129 bits: `carry` is the
      bit the shift drops, and the wrapping subtraction is exact because of it. */
  method DivideBit(d: u128, rem: u128, q: u128, bit: nat) returns (rem': u128, q': u128)
    requires rem < d && q < TWO127 && bit <= 1
    ensures var wide := 2 * rem + bit;
            if wide >= d then rem' == wide - d && q' == 2 * q + 1 else rem' == wide && q' == 2 * q
  {
    var carry := rem / TWO127;
    rem' := rem * 2 % TWO128 + bit;
    q' := q * 2 % TWO128;
    if carry == 1 || rem' >= d {
      rem' := (rem' - d) % TWO128;
      q' := q' + 1;
    }
  }

  /** The loop invariant: of hi * p + top, `q * d` has been taken out, and the quotient
      has used fewer than log2(p) bits. */
  ghost predicate Divided(hi: nat, d: nat, p: nat, top: nat, q: nat, rem: nat) {
    rem < d && q < p && hi * p + top == q * d + rem
  }

  /** One step: doubling the dividend and bringing down a bit leaves a remainder that
      needs at most one subtraction of `d`. */
  lemma BringDown(hi: nat, d: nat, p: nat, top: nat, q: nat, rem: nat, bit: nat)
    requires Divided(hi, d, p, top, q, rem) && bit <= 1
    ensures var wide := 2 * rem + bit;
            if wide >= d then Divided(hi, d, 2 * p, 2 * top + bit, 2 * q + 1, wide - d)
            else Divided(hi, d, 2 * p, 2 * top + bit, 2 * q, wide)
  {
    assert hi * (2 * p) == 2 * (hi * p);
    assert (2 * q) * d == 2 * (q * d);
    assert (2 * q + 1) * d == 2 * (q * d) + d;
  }

  lemma {:induction false} QuotientBitsFit(i: nat)
    requires i < 128
    ensures Pow2(127 - i) <= TWO127
    decreases i
  {
    if i == 0 {
      Pow2_128();
    } else {
      QuotientBitsFit(i - 1);
    }
  }

  /** `mul_div_floor`. */
  function MulDivFloor(a: nat, b: nat, d: nat): Option<nat> {
    match QuotRem(a, b, d)
    case None => None
    case Some((q, _)) => Some(q)
  }

  /** `mul_div_ceil`: `checked_add` makes a rounded-up 2^128 a `None`. */
  function MulDivCeil(a: nat, b: nat, d: nat): Option<nat> {
    match QuotRem(a, b, d)
    case None => None
    case Some((q, r)) => if r == 0 then Some(q) else if q + 1 < TWO128 then Some(q + 1) else None
  }

  /** The rounded-up quotient is the least integer not below a*b/d. */
  lemma CeilIsLeastUpperBound(a: nat, b: nat, d: nat, m: nat)
    requires d > 0
    ensures MulDivCeil(a, b, d).Some? ==> (m >= MulDivCeil(a, b, d).value <==> m * d >= a * b)
    ensures MulDivCeil(a, b, d).None? <==> a * b > (TWO128 - 1) * d
  {
    var n := a * b;
    RoundUp(n, d, m);
    RoundUp(n, d, TWO128 - 1);
    DivAtLeast(n, d, TWO128);
  }

  lemma RoundUp(n: int, d: int, m: int)
    requires d > 0
    ensures m * d >= n <==> m >= n / d + (if n % d == 0 then 0 else 1)
  {
    DivMod(n, d);
    var q := n / d;
    if q < m {
      MulStep(q, m, d);
    } else if q > m {
      MulStep(m, q, d);
    }
  }
}
