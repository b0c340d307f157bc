/** Normalizing and rounding decimals, and what that does to their value. */
module Rounding {
  import opened Decimals

  /** 10^-places. */
  function Unit(places: nat): (u: real)
    ensures u > 0.0
  {
    Pow10(0 - places)
  }

  /** `Decimal.normalize()`: no trailing zero in the coefficient, and exponent 0 for zero. */
  function Normalize(d: Decimal): Decimal
    decreases d.coefficient
  {
    if d.coefficient == 0 then Decimal(d.negative, 0, 0)
    else if d.coefficient % 10 == 0 then Normalize(Decimal(d.negative, d.coefficient / 10, d.exponent + 1))
    else d
  }

  predicate IsNormal(d: Decimal) {
    if d.coefficient == 0 then d.exponent == 0 else d.coefficient % 10 != 0
  }

  lemma {:induction false} SignedTimes(d: Decimal, t: nat)
    ensures Signed(Decimal(d.negative, d.coefficient * t, d.exponent)) == Signed(d) * t
  {
    assert (0 - d.coefficient) * t == 0 - d.coefficient * t;
  }

  lemma {:induction false} ScaledReal(s: int, t: int, x: real)
    ensures (s * t) as real * x == s as real * (t as real * x)
  {
    assert (s * t) as real == s as real * t as real;
    ScaleTwice(s as real, t as real, x);
  }

  lemma {:induction false} Distribute(a: real, b: real, x: real)
    ensures (a - b) * x == a * x - b * x
  {
  }

  lemma {:induction false} ScaledValue(negative: bool, c: nat, e: int, k: nat)
    ensures Value(Decimal(negative, c * Ten(k), e)) == Value(Decimal(negative, c, e + k))
  {
    Pow10Add(e, k);
    SignedTimes(Decimal(negative, c, e), Ten(k));
    ScaledReal(Signed(Decimal(negative, c, e)), Ten(k), Pow10(e));
    hide Ten, Pow10;
    assert Signed(Decimal(negative, c, e + k)) == Signed(Decimal(negative, c, e));
    hide Signed;
  }

  /** Normalizing keeps the value. */
  lemma {:induction false} NormalizeKeepsValue(d: Decimal)
    ensures Value(Normalize(d)) == Value(d) && IsNormal(Normalize(d))
    decreases d.coefficient
  {
    if d.coefficient == 0 {
      ZeroValue(d);
    } else if d.coefficient % 10 == 0 {
      var e := Decimal(d.negative, d.coefficient / 10, d.exponent + 1);
      NormalizeKeepsValue(e);
      assert Ten(1) == 10;
      ScaledValue(d.negative, d.coefficient / 10, d.exponent, 1);
    }
  }

  lemma {:induction false} ZeroValue(d: Decimal)
    requires d.coefficient == 0
    ensures Value(d) == 0.0 && Value(Decimal(d.negative, 0, 0)) == 0.0
  {
  }

  lemma {:induction false} NotSoManyUnits(s: int, n: int, t: int, x: real)
    requires x > 0.0 && s % 10 != 0 && t % 10 == 0
    ensures s as real * x != n as real * (t as real * x)
  {
    if s as real * x == n as real * (t as real * x) {
      UnitsCancel(s, n, t, x);
      MultipleOfTen(s, n, t);
    }
  }

  /**
   * The number of decimals of a normalized value is the fewest it can be written with: it is a
   * whole number of units of 10^-places exactly when it does not have more decimals than that.
   */
  lemma {:induction false} NormalDecimalsAreNeeded(d: Decimal, places: nat, n: int)
    requires IsNormal(d) && 0 - d.exponent > places
    ensures Value(d) != n as real * Unit(places)
  {
    var k: nat := 0 - d.exponent - places;
    UnitIsTens(d.exponent, places);
    TenIsTens(k);
    SignedNotTens(d);
    hide Ten, Pow10, Signed, IsNormal, Unit;
    NotSoManyUnits(Signed(d), n, Ten(k), Pow10(d.exponent));
  }

  lemma {:induction false} UnitIsTens(exponent: int, places: nat)
    requires 0 - exponent > places
    ensures Unit(places) == Ten(0 - exponent - places) as real * Pow10(exponent)
  {
    hide Ten, Pow10;
    Pow10Add(exponent, 0 - exponent - places);
  }

  lemma {:induction false} SignedNotTens(d: Decimal)
    requires IsNormal(d) && d.exponent < 0
    ensures Signed(d) % 10 != 0
  {
  }

  lemma {:induction false} TenIsTens(k: nat)
    requires k > 0
    ensures Ten(k) % 10 == 0
  {
    var t: nat := Ten(k - 1);
    assert Ten(k) == 10 * t;
    hide *;
    assert (10 * t) % 10 == 0;
  }

  lemma {:induction false} UnitsCancel(s: int, n: int, t: int, x: real)
    requires x > 0.0 && s as real * x == n as real * (t as real * x)
    ensures s == n * t
  {
    ScaledReal(n, t, x);
    Distribute(s as real, (n * t) as real, x);
    var gap := s as real - (n * t) as real;
    assert gap * x == 0.0;
    if gap > 0.0 {
      ScaleStrictOrder(0.0, gap, x);
    } else if gap < 0.0 {
      ScaleStrictOrder(gap, 0.0, x);
    }
  }

  lemma {:induction false} MultipleOfTen(s: int, n: int, t: int)
    requires s == n * t && t % 10 == 0
    ensures s % 10 == 0
  {
    var u := t / 10;
    assert t == 10 * u;
    assert s == 10 * (n * u);
  }

  /** A magnitude cut to whole multiples of `m`, one more when at least half a multiple was cut off. */
  function HalfUp(c: nat, m: nat): (q: nat)
    requires m >= 1
  {
    Division(c, m);
    if 2 * (c % m) >= m then c / m + 1 else c / m
  }

  lemma {:induction false} Division(c: nat, m: nat)
    requires m >= 1
    ensures c == m * (c / m) + c % m && 0 <= c % m < m && c / m >= 0
  {
  }

  /** `quantize(Decimal(1).scaleb(-places), ROUND_HALF_UP)` of a value with more decimals than that. */
  function Quantize(d: Decimal, places: nat): Decimal
    requires 0 - d.exponent > places
  {
    Decimal(d.negative, HalfUp(d.coefficient, Ten(0 - d.exponent - places)), 0 - places)
  }

  lemma {:induction false} HalfUpIsNearest(c: nat, m: nat)
    requires m >= 1
    ensures (2 * HalfUp(c, m) - 1) * m <= 2 * c < (2 * HalfUp(c, m) + 1) * m
  {
    Division(c, m);
    var q, k, r := HalfUp(c, m), c / m, c % m;
    assert (2 * k - 1) * m == 2 * (m * k) - m;
    assert (2 * k + 1) * m == 2 * (m * k) + m;
    assert (2 * (k + 1) + 1) * m == 2 * (m * k) + 3 * m;
    assert (2 * (k + 1) - 1) * m == 2 * (m * k) + m;
  }

  lemma {:induction false} Magnitude(d: Decimal)
    ensures Abs(Value(d)) == d.coefficient as real * Pow10(d.exponent)
  {
    var c, x := d.coefficient as real, Pow10(d.exponent);
    assert c * x >= 0.0;
    assert (0.0 - c) * x == -(c * x);
  }

  /**
   * Half up, exactly: the rounded magnitude is the one whose half-open interval of one unit holds
   * the original, and the sign is kept.
   */
  lemma {:induction false} QuantizeIsNearest(d: Decimal, places: nat)
    requires 0 - d.exponent > places
    ensures var r := Quantize(d, places);
      r.negative == d.negative && r.exponent == 0 - places && HoldsNearest(r, d, places)
  {
    hide Pow10, Ten, Unit, Value, Abs, HalfUp;
    var m, r := Ten(0 - d.exponent - places), Quantize(d, places);
    HalfUpIsNearest(d.coefficient, m);
    UnitScaled(d.exponent, places);
    Magnitude(d);
    Magnitude(r);
    assert r.negative == d.negative && r.exponent == 0 - places && r.coefficient == HalfUp(d.coefficient, m);
    hide Quantize;
    assert Abs(Value(r)) == r.coefficient as real * Unit(places);
    assert Abs(Value(d)) == d.coefficient as real * Pow10(d.exponent);
    Interval(d.coefficient, r.coefficient, m, Pow10(d.exponent), Unit(places));
  }

  lemma {:induction false} UnitScaled(e: int, places: nat)
    requires 0 - e > places
    ensures Unit(places) == Ten(0 - e - places) as real * Pow10(e) == Pow10(0 - places)
  {
    Pow10Add(e, 0 - e - places);
    hide Pow10, Ten;
  }

  /** The magnitude of `d` lies within half a unit of that of `r`, the upper end excluded. */
  ghost predicate HoldsNearest(r: Decimal, d: Decimal, places: nat) {
    Abs(Value(r)) - Unit(places) / 2.0 <= Abs(Value(d)) < Abs(Value(r)) + Unit(places) / 2.0
  }

  lemma {:induction false} Interval(c: int, q: int, m: int, x: real, unit: real)
    requires x > 0.0 && unit == m as real * x && (2 * q - 1) * m <= 2 * c < (2 * q + 1) * m
    ensures q as real * unit - unit / 2.0 <= c as real * x < q as real * unit + unit / 2.0
  {
    var cr, qr, mr := c as real, q as real, m as real;
    assert ((2 * q - 1) * m) as real == (2.0 * qr - 1.0) * mr;
    assert ((2 * q + 1) * m) as real == (2.0 * qr + 1.0) * mr;
    assert (2.0 * qr - 1.0) * mr <= 2.0 * cr < (2.0 * qr + 1.0) * mr;
    ScaleOrder((2.0 * qr - 1.0) * mr, 2.0 * cr, x);
    ScaleStrictOrder(2.0 * cr, (2.0 * qr + 1.0) * mr, x);
    ScaleTwice(2.0 * qr - 1.0, mr, x);
    ScaleTwice(2.0 * qr + 1.0, mr, x);
    ScaleTwice(2.0, cr, x);
    assert (2.0 * qr - 1.0) * unit == 2.0 * (qr * unit) - unit;
    assert (2.0 * qr + 1.0) * unit == 2.0 * (qr * unit) + unit;
  }

  lemma {:induction false} ScaleOrder(a: real, b: real, x: real)
    requires a <= b && x > 0.0
    ensures a * x <= b * x
  {
  }

  lemma {:induction false} ScaleStrictOrder(a: real, b: real, x: real)
    requires a < b && x > 0.0
    ensures a * x < b * x
  {
  }

  lemma {:induction false} SameSide(d: Decimal)
    ensures d.negative ==> Value(d) <= 0.0
    ensures !d.negative ==> Value(d) >= 0.0
  {
    Magnitude(d);
    var c, x := d.coefficient as real, Pow10(d.exponent);
    assert c * x >= 0.0;
    assert (0.0 - c) * x == -(c * x);
  }

  lemma {:induction false} LessThanUnit(p: real, q: real, u: real, v: real)
    requires p - u / 2.0 <= v < q + u / 2.0
    ensures p - q < 1.0 * u
  {
  }

  lemma {:induction false} NotAbove(a: int, b: int, u: real, v: real)
    requires u > 0.0 && a as real * u - u / 2.0 <= v < b as real * u + u / 2.0
    ensures a <= b
  {
    var p, q, gap := a as real * u, b as real * u, a as real - b as real;
    Distribute(a as real, b as real, u);
    LessThanUnit(p, q, u, v);
    if a > b {
      ScaleOrder(1.0, gap, u);
    }
  }

  /**
   * And conversely: a figure with `places` decimals and the same sign, whose half-open interval of
   * one unit holds the value, is what rounding gives.
   */
  lemma {:induction false} NearestIsQuantized(d: Decimal, places: nat, n: Decimal)
    requires 0 - d.exponent > places && n.exponent == 0 - places && n.negative == d.negative
    requires HoldsNearest(n, d, places)
    ensures n == Quantize(d, places)
  {
    hide Quantize, Value, Unit, Pow10, Abs;
    QuantizeIsNearest(d, places);
    var r := Quantize(d, places);
    UnitScaled(d.exponent, places);
    Magnitude(n);
    Magnitude(r);
    NotAbove(n.coefficient, r.coefficient, Unit(places), Abs(Value(d)));
    NotAbove(r.coefficient, n.coefficient, Unit(places), Abs(Value(d)));
  }
}
