/** `models/asset.go`: amounts are printed with seven decimals, read back at float32
    precision, and rounded to the nearest thousandth of a token. Every floating point step is
    modelled bit-exactly; for 32-bit amounts those at float64 precision turn out to be exact. */
module Amounts {
  import opened Types
  import opened Floats

  const STROOPS_PER_TOKEN := 10_000_000

  /** The largest amount up to which reading an amount back never fails. */
  const EXACT_BOUND: nat := 16_384_000

  const MANTISSA_FLOOR := 0x80_0000    // 2^23
  const MANTISSA_LIMIT := 0x100_0000   // 2^24

  /** The float64 constant written 1e-3. */
  const THOUSANDTH := Float(1_152_921_504_606_847, 0x1000_0000_0000_0000)    // 2^60

  /** `PPTokenToString`: the float64 product with 1e-3, printed with seven decimals. A decimal
      string is a number of stroops here: one unit is 1e-3 tokens and one stroop 1e-7 tokens. */
  function Printed(amount: Amount): nat {
    var tokens := Times(amount, THOUSANDTH);
    RoundHalfEven(tokens.mantissa * STROOPS_PER_TOKEN, tokens.scale)
  }

  /** The exact amount in stroops; what is printed, by `FormattingIsExact`. */
  function Stroops(units: nat): nat {
    10_000 * units
  }

  /** `strconv.ParseFloat(s, 32)` of the decimal number `stroops / 10^7`. Amounts stay
      below 2^23 tokens, so the scale is a positive power of two. */
  function ParseFloat32(stroops: nat): (f: Float)
    ensures f.scale > 0
  {
    if stroops == 0 then Float(0, 1)
    else
      var s := Scale(stroops, STROOPS_PER_TOKEN, MANTISSA_FLOOR);
      Float(RoundHalfEven(stroops * s, STROOPS_PER_TOKEN), s)
  }

  /** `MicroPPToken2PPtoken`: the float64 quotient by 1e-3, rounded. */
  function Divided(f: Float): nat
    requires f.scale > 0
  {
    Round(DividedBy(f, THOUSANDTH))
  }

  /** The nearest integer to the exact quotient; the same, by `DivisionIsExact`. */
  function ToAmount(f: Float): nat
    requires f.scale > 0
  {
    (2000 * f.mantissa + f.scale) / (2 * f.scale)
  }

  /** The amount `signInitialTransactions` reads from a payment operation. */
  function ReadBack(stroops: nat): Amount {
    ToAmount(ParseFloat32(stroops)) % U32
  }

  /** The scale used for `amount` thousandths of a token. */
  function UnitScale(amount: Amount): (s: nat)
    requires amount > 0
    ensures s > 0
  {
    Scale(Stroops(amount), STROOPS_PER_TOKEN, MANTISSA_FLOOR)
  }

  /** Distinct powers of two are at least a factor of two apart. */
  lemma {:induction false} PowersAreFarApart(s: nat, t: nat)
    requires PowerOfTwo(s) && PowerOfTwo(t) && t < s
    ensures 2 * t <= s
  {
    if t > 1 { PowersAreFarApart(s / 2, t / 2); }
  }

  /** In units, reading back rounds `amount * scale / 1000` to a mantissa. */
  lemma MantissaInUnits(amount: Amount)
    requires amount > 0
    ensures
      var s := UnitScale(amount);
      && ParseFloat32(Stroops(amount)) == Float(RoundHalfEven(amount * s, 1000), s)
      && 1000 * MANTISSA_FLOOR <= amount * s < 1000 * MANTISSA_LIMIT
  {
    var s := UnitScale(amount);
    var m := amount * s;
    assert Stroops(amount) * s == 10_000 * m;
    assert (10_000 * m) / STROOPS_PER_TOKEN == m / 1000;
    assert (10_000 * m) % STROOPS_PER_TOKEN == 10_000 * (m % 1000);
  }

  /** Up to the bound the float32 step is off by less than half a unit: the scale is at
      least 1024, except at the bound itself, which a float32 holds exactly. */
  lemma ScaleWithinBound(amount: Amount)
    requires 0 < amount
    ensures amount < EXACT_BOUND ==> UnitScale(amount) >= 1024
    ensures amount >= EXACT_BOUND ==> UnitScale(amount) <= 512
  {
    MantissaInUnits(amount);
    var s := UnitScale(amount);
    assert PowerOfTwo(512) && PowerOfTwo(1024) by {
      assert PowerOfTwo(2) && PowerOfTwo(4) && PowerOfTwo(8) && PowerOfTwo(16);
      assert PowerOfTwo(32) && PowerOfTwo(64) && PowerOfTwo(128) && PowerOfTwo(256);
    }
    MulMonotone(amount, s, 512);
    MulMonotone(s, EXACT_BOUND, amount);
    if s > 512 { PowersAreFarApart(s, 512); }
  }

  /** Whether the printed amount lies close enough to a float32 to be recovered: its
      remainder modulo the spacing, in 1/1000 of the mantissa step. */
  predicate NearMantissa(amount: Amount)
    requires amount > 0
  {
    Near(amount * UnitScale(amount), UnitScale(amount))
  }

  predicate Near(m: nat, s: nat) {
    2 * (m % 1000) <= s || 2 * (1000 - m % 1000) < s
  }

  /** The mantissa that `m` is rounded to is within half a unit of it. */
  predicate Recovers(m: nat, s: nat) {
    2 * m <= 2000 * RoundHalfEven(m, 1000) + s < 2 * m + 2 * s
  }

  // ----- The float64 steps are exact -----

  /** 1e-3 is the float64 nearest to 1/1000. */
  lemma ThousandthIsNearest()
    ensures RoundHalfEven(THOUSANDTH.scale, 1000) == THOUSANDTH.mantissa
    ensures DOUBLE_FLOOR <= THOUSANDTH.mantissa * 4 < 2 * DOUBLE_FLOOR
  {
  }

  /** The scale of the product is large enough for its error not to show. */
  lemma ProductScale(amount: Amount) returns (s: nat, x: nat)
    requires amount > 0
    ensures s > 16_000_000 && x == THOUSANDTH.mantissa * (amount * s)
    ensures Times(amount, THOUSANDTH) == Float(RoundHalfEven(x, THOUSANDTH.scale), s)
  {
    var c, d := THOUSANDTH.mantissa, THOUSANDTH.scale;
    s := Scale(amount * c, d, DOUBLE_FLOOR);
    x := amount * c * s;
    assert x == c * (amount * s);
    MulMonotone(s, amount, U32);
  }

  /** The float64 product that is printed never differs from the exact one in its first seven
      decimals. */
  lemma FormattingIsExact(amount: Amount)
    ensures Printed(amount) == Stroops(amount)
  {
    if amount > 0 {
      var s, x := ProductScale(amount);
      PrintsExactly(amount, s, x);
    }
  }

  lemma PrintsExactly(amount: Amount, s: nat, x: nat)
    requires x == THOUSANDTH.mantissa * (amount * s) && s > 16_000_000
    ensures RoundHalfEven(RoundHalfEven(x, THOUSANDTH.scale) * STROOPS_PER_TOKEN, s) == Stroops(amount)
  {
    var m := RoundHalfEven(x, THOUSANDTH.scale);
    MulMonotone(s, amount, U32);
    RoundingIsNear(x, THOUSANDTH.scale);
    ProductIsNear(amount * s, s, x, m);
    assert Stroops(amount) * s == 10_000 * (amount * s);
    RoundsToMultiple(m * STROOPS_PER_TOKEN, s, Stroops(amount));
  }

  lemma ProductIsNear(y: nat, s: nat, x: nat, m: nat)
    requires x == THOUSANDTH.mantissa * y && y <= U32 * s && s > 16_000_000
    requires 2 * x - THOUSANDTH.scale <= 2 * (m * THOUSANDTH.scale) <= 2 * x + THOUSANDTH.scale
    ensures 20_000 * y - s < 2 * (m * STROOPS_PER_TOKEN) < 20_000 * y + s
  {
  }

  /** The quotient of a float32 by 1e-3 has few enough bits to be exact, so the result is the
      nearest integer to `1000 k / s`. */
  lemma DivisionIsExact(k: nat, s: nat)
    requires PowerOfTwo(s) && k <= MANTISSA_LIMIT
    ensures Divided(Float(k, s)) == ToAmount(Float(k, s))
  {
    if k > 0 {
      var u, m, t := ExactQuotient(k, s);
      Cancel(k, s, u, m, t);
    } else {
      ZeroDivides(s);
    }
  }

  lemma ZeroDivides(s: nat)
    requires s > 0
    ensures Divided(Float(0, s)) == 0 == ToAmount(Float(0, s))
  {
    assert DividedBy(Float(0, s), THOUSANDTH) == Float(0, 1);
    QuotientIs(s, 2 * s, 0);
  }

  lemma ExactQuotient(k: nat, s: nat) returns (u: nat, m: nat, t: nat)
    requires PowerOfTwo(s) && 0 < k <= MANTISSA_LIMIT
    ensures u > 0 && t == s * u > 0 && m == 1000 * (k * u)
    ensures DividedBy(Float(k, s), THOUSANDTH) == Float(m, t)
  {
    var n, d := k * THOUSANDTH.scale, s * THOUSANDTH.mantissa;
    t := Scale(n, d, DOUBLE_FLOOR);
    u := QuotientScale(k, s, n, d, t);
    QuotientMantissa(k * u, s);
    Regrouped(k, s, u);
    m := RoundHalfEven(n * t, d);
  }

  lemma Regrouped(k: nat, s: nat, u: nat)
    ensures k * THOUSANDTH.scale * (s * u) == (k * u) * s * THOUSANDTH.scale
  {
    assert k * (s * u) == (k * u) * s;
  }

  lemma QuotientScale(k: nat, s: nat, n: nat, d: nat, t: nat) returns (u: nat)
    requires PowerOfTwo(s) && PowerOfTwo(t) && 0 < k <= MANTISSA_LIMIT
    requires n == k * THOUSANDTH.scale && d == s * THOUSANDTH.mantissa
    requires n * t >= DOUBLE_FLOOR * d && (n < 2 * (DOUBLE_FLOOR * d) ==> n * t < 2 * (DOUBLE_FLOOR * d))
    ensures t == s * u && u > 0 && 48 * (k * u) < THOUSANDTH.mantissa
  {
    assert n * t == THOUSANDTH.scale * (k * t);
    MulMonotone(t, k, MANTISSA_LIMIT);
    u := PowerDivides(s, t);
    FitsMantissa(k, s, u);
  }

  lemma FitsMantissa(k: nat, s: nat, u: nat)
    requires THOUSANDTH.scale * (k * (s * u)) < 2 * (DOUBLE_FLOOR * (s * THOUSANDTH.mantissa))
    ensures 48 * (k * u) < THOUSANDTH.mantissa
  {
    assert k * (s * u) == (k * u) * s;
    if 48 * (k * u) >= THOUSANDTH.mantissa { MulMonotone(s, THOUSANDTH.mantissa, 48 * (k * u)); }
  }

  lemma QuotientMantissa(t: nat, s: nat)
    requires s > 0 && 48 * t < THOUSANDTH.mantissa
    ensures RoundHalfEven(t * s * THOUSANDTH.scale, s * THOUSANDTH.mantissa) == 1000 * t
  {
    var z := t * s;
    assert 1000 * t * (s * THOUSANDTH.mantissa) == 1000 * THOUSANDTH.mantissa * z;
    assert 48 * z == (48 * t) * s;
    assert 48 * z < s * THOUSANDTH.mantissa;
    RoundsToMultiple(z * THOUSANDTH.scale, s * THOUSANDTH.mantissa, 1000 * t);
  }

  lemma Cancel(k: nat, s: nat, u: nat, m: nat, t: nat)
    requires s > 0 && u > 0 && t == s * u > 0 && m == 1000 * (k * u)
    ensures Round(Float(m, t)) == ToAmount(Float(k, s))
  {
    var n, d := 2000 * k + s, 2 * s;
    assert 2 * m + t == n * u by { assert n * u == 2000 * (k * u) + s * u; }
    assert 2 * t == d * u;
    CancelFactor(n, d, u);
  }

  lemma CancelFactor(n: nat, d: nat, u: nat)
    requires d > 0 && u > 0
    ensures n * u / (d * u) == n / d
  {
    var q, r := n / d, n % d;
    assert n * u == q * (d * u) + r * u by { assert n == q * d + r; }
    MulMonotone(u, r + 1, d);
    QuotientIs(n * u, d * u, q);
  }

  // ----- Reading back -----

  /** `1000 k / s` rounds half up to `amount` just when it is within half a unit of it. */
  lemma RoundsTo(amount: Amount, k: nat, s: nat)
    requires s > 0
    ensures ToAmount(Float(k, s)) == amount
       <==> 2 * (amount * s) <= 2000 * k + s < 2 * (amount * s) + 2 * s
  {
    QuotientIs(2000 * k + s, 2 * s, amount);
    assert amount * (2 * s) == 2 * (amount * s);
  }

  /** Rounding to the nearest mantissa moves an amount by at most 500 units. */
  lemma RoundingIsBounded(amount: Amount, k: nat, s: nat)
    requires s > 0 && amount * s - 500 <= 1000 * k <= amount * s + 500
    ensures ToAmount(Float(k, s)) <= amount + 501
  {
    var n, d := 2000 * k + s, 2 * s;
    var q := n / d;
    assert n == q * d + n % d;
    assert (amount + 502) * d == 2 * (amount * s) + 1004 * s;
    MulMonotone(d, amount + 502, q);
  }

  lemma RemainderOfMantissa(m: nat)
    ensures
      var r, k := m % 1000, RoundHalfEven(m, 1000);
      && 1000 * k == (if 2 * r < 1000 || (2 * r == 1000 && (m / 1000) % 2 == 0) then m - r else m - r + 1000)
      && m - 500 <= 1000 * k <= m + 500
  {
  }

  /** An amount is read back just when its mantissa is within half a unit of it. */
  lemma ReadBackRounds(amount: Amount)
    requires amount > 0
    ensures ReadBack(Stroops(amount)) == amount <==> Recovers(amount * UnitScale(amount), UnitScale(amount))
  {
    var s := UnitScale(amount);
    var k := RoundHalfEven(amount * s, 1000);
    MantissaInUnits(amount);
    RemainderOfMantissa(amount * s);
    RoundsTo(amount, k, s);
    RoundingIsBounded(amount, k, s);
    WrapKeeps(ToAmount(Float(k, s)), amount);
  }

  lemma WithinHalfUnit(m: nat, r: nat, up: bool, k: nat, s: nat)
    requires r < 1000 && 1000 * k == (if up then m - r + 1000 else m - r)
    requires if up then 2 * r >= 1000 else 2 * r <= 1000
    requires 0 < s != 1000
    ensures 2 * m <= 2000 * k + s < 2 * m + 2 * s <==> 2 * r <= s || 2 * (1000 - r) < s
  {
  }

  lemma NearnessOf(m: nat, s: nat)
    requires 0 < s != 1000
    ensures Recovers(m, s) <==> Near(m, s)
  {
    RemainderOfMantissa(m);
    var r := m % 1000;
    var up := !(2 * r < 1000 || (2 * r == 1000 && (m / 1000) % 2 == 0));
    WithinHalfUnit(m, r, up, RoundHalfEven(m, 1000), s);
  }

  lemma NearnessDecides(amount: Amount)
    requires amount > 0
    ensures ReadBack(Stroops(amount)) == amount <==> NearMantissa(amount)
  {
    ReadBackRounds(amount);
    ScaleWithinBound(amount);
    NearnessOf(amount * UnitScale(amount), UnitScale(amount));
  }

  /** Exactly the amounts up to the bound, and above it those whose printed value lies
      near a float32, survive being printed and read back. */
  lemma RoundTripExactly(amount: Amount)
    ensures ReadBack(Stroops(amount)) == amount
       <==> amount <= EXACT_BOUND || NearMantissa(amount)
  {
    if amount > 0 {
      NearnessDecides(amount);
      ScaleWithinBound(amount);
      if amount == EXACT_BOUND { ScaleAtBound(); }
    }
  }

  lemma WrapKeeps(q: nat, amount: Amount)
    requires q <= amount + 501
    ensures q % U32 == amount <==> q == amount
  {}

  lemma ScaleAtBound()
    ensures UnitScale(EXACT_BOUND) == 512
  {
    MantissaInUnits(EXACT_BOUND);
    ScaleWithinBound(EXACT_BOUND);
  }

  /** The bound is sharp: every amount up to `bound` survives just when `bound` does not
      exceed 16,384,000. The first amount that fails is 16,384,001. */
  lemma SharpBound(bound: Amount)
    ensures (forall a: Amount | a <= bound :: ReadBack(Stroops(a)) == a) <==> bound <= EXACT_BOUND
  {
    if bound <= EXACT_BOUND {
      forall a: Amount | a <= bound ensures ReadBack(Stroops(a)) == a {
        RoundTripExactly(a);
      }
    } else {
      FirstFailure();
    }
  }

  lemma FirstFailure()
    ensures ReadBack(Stroops(EXACT_BOUND + 1)) != EXACT_BOUND + 1
  {
    MantissaInUnits(EXACT_BOUND + 1);
    ScaleWithinBound(EXACT_BOUND + 1);
    RoundTripExactly(EXACT_BOUND + 1);
  }

  /** What the program computes in floating point is what the model computes, for every amount. */
  lemma BitExactly(amount: Amount)
    ensures Divided(ParseFloat32(Printed(amount))) % U32 == ReadBack(Stroops(amount))
  {
    FormattingIsExact(amount);
    var f := ParseFloat32(Stroops(amount));
    MantissaFits(amount);
    DivisionIsExact(f.mantissa, f.scale);
  }

  lemma MantissaFits(amount: Amount)
    ensures
      var f := ParseFloat32(Stroops(amount));
      PowerOfTwo(f.scale) && f.mantissa <= MANTISSA_LIMIT
  {
  }
}
