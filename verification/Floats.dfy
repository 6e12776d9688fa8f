/** Binary floating point numbers, as far as they are needed: the rounding of a positive
    rational to a mantissa of a given width. */
module Floats {
  /** The number `mantissa / scale`. */
  datatype Float = Float(mantissa: nat, scale: nat)

  predicate PowerOfTwo(s: nat) {
    s == 1 || (s > 0 && s % 2 == 0 && PowerOfTwo(s / 2))
  }

  /** The power of two that brings `n / d` into the range of a mantissa, from `floor` up to
      twice that. */
  function Scale(n: nat, d: nat, floor: nat): (s: nat)
    requires n > 0 && d > 0 && floor > 0
    ensures s > 0 && PowerOfTwo(s)
    ensures n * s >= floor * d
    ensures n < 2 * (floor * d) ==> n * s < 2 * (floor * d)
    decreases floor * d - n
  {
    if n >= floor * d then 1
    else
      var s := Scale(2 * n, d, floor);
      assert n * (2 * s) == (2 * n) * s;
      2 * s
  }

  /** The integer nearest to `n / d`, ties to even. */
  function RoundHalfEven(n: nat, d: nat): nat
    requires d > 0
  {
    var q, r := n / d, n % d;
    if 2 * r < d || (2 * r == d && q % 2 == 0) then q else q + 1
  }

  const DOUBLE_FLOOR := 0x10_0000_0000_0000    // 2^52

  /** The float64 nearest to `n / d`, for rationals below 2^53. */
  function ToDouble(n: nat, d: nat): (f: Float)
    requires d > 0
    ensures f.scale > 0
  {
    if n == 0 then Float(0, 1)
    else
      var s := Scale(n, d, DOUBLE_FLOOR);
      Float(RoundHalfEven(n * s, d), s)
  }

  /** The float64 product of an integer and a float64. */
  function Times(n: nat, f: Float): (r: Float)
    requires f.scale > 0
    ensures r.scale > 0
  {
    ToDouble(n * f.mantissa, f.scale)
  }

  /** The float64 quotient. */
  function DividedBy(f: Float, g: Float): (r: Float)
    requires f.scale > 0 && g.mantissa > 0
    ensures r.scale > 0
  {
    ToDouble(f.mantissa * g.scale, f.scale * g.mantissa)
  }

  /** `math.Round`: the nearest integer, ties away from zero. */
  function Round(f: Float): nat
    requires f.scale > 0
  {
    (2 * f.mantissa + f.scale) / (2 * f.scale)
  }

  /** Conversion to an integer cuts the fraction off. */
  function Truncate(f: Float): nat
    requires f.scale > 0
  {
    f.mantissa / f.scale
  }

  /** The smaller of two powers of two divides the larger. */
  lemma {:induction false} PowerDivides(s: nat, t: nat) returns (u: nat)
    requires PowerOfTwo(s) && PowerOfTwo(t) && s <= t
    ensures t == s * u && u > 0
  {
    if s == 1 {
      u := t;
    } else {
      u := PowerDivides(s / 2, t / 2);
      assert t == 2 * (s / 2 * u) && 2 * (s / 2 * u) == (2 * (s / 2)) * u;
    }
  }

  lemma MulMonotone(a: nat, s: nat, t: nat)
    ensures s <= t ==> a * s <= a * t
  {}

  lemma QuotientIs(n: nat, d: nat, a: nat)
    requires d > 0
    ensures n / d == a <==> a * d <= n < a * d + d
  {
    var q := n / d;
    assert n == q * d + n % d;
    if q < a {
      MulMonotone(d, q + 1, a);
    } else if q > a {
      MulMonotone(d, a + 1, q);
    }
  }

  lemma RoundingBounds(n: nat, d: nat)
    requires d > 0
    ensures
      var m := RoundHalfEven(n, d);
      n / d <= m && 2 * (m * d) <= 2 * n + d
  {
    assert n == n / d * d + n % d;
  }

  lemma RoundingIsNear(n: nat, d: nat)
    requires d > 0
    ensures
      var m := RoundHalfEven(n, d);
      2 * n - d <= 2 * (m * d) <= 2 * n + d
  {
    assert n == n / d * d + n % d;
  }

  /** A number within less than half a step of a multiple rounds to it. */
  lemma RoundsToMultiple(n: nat, d: nat, k: nat)
    requires d > 0 && 2 * (k * d) - d < 2 * n < 2 * (k * d) + d
    ensures RoundHalfEven(n, d) == k
  {
    if k * d <= n {
      QuotientIs(n, d, k);
    } else {
      assert (k - 1) * d == k * d - d;
      QuotientIs(n, d, k - 1);
    }
    assert n == n / d * d + n % d;
  }
}
