/** Exact decimal arithmetic in the manner of java.math.BigDecimal.
    A decimal is an unscaled integer and a scale; it stands for the rational
    number unscaled / 10^scale. Two decimals with different scales (2.0 and
    2.00) are different values of the datatype but equal under Compare,
    just as BigDecimal.equals and BigDecimal.compareTo differ. */
module Decimal {
  import opened Wrappers

  /** The exception BigDecimal.setScale throws when rounding would be needed. */
  datatype Fault = RoundingNecessary

  datatype Dec = Dec(unscaled: int, scale: nat)

  /** BigDecimal.ZERO */
  const Zero := Dec(0, 0)

  function Pow10(n: nat): (r: nat)
    ensures r >= 1
  {
    if n == 0 then 1 else 10 * Pow10(n - 1)
  }

  lemma {:induction false} Pow10Add(m: nat, n: nat)
    ensures Pow10(m + n) == Pow10(m) * Pow10(n)
  {
    if n > 0 {
      Pow10Add(m, n - 1);
      calc {
        Pow10(m + n);
        10 * Pow10(m + n - 1);
        10 * (Pow10(m) * Pow10(n - 1));
        Pow10(m) * (10 * Pow10(n - 1));
        Pow10(m) * Pow10(n);
      }
    }
  }

  /** The exact rational value a decimal stands for. */
  function Value(d: Dec): real
  {
    d.unscaled as real / Pow10(d.scale) as real
  }

  function Max(a: nat, b: nat): nat
  {
    if a < b then b else a
  }

  /** The unscaled integer of d rewritten at the larger scale s. */
  function Align(d: Dec, s: nat): int
    requires d.scale <= s
  {
    d.unscaled * Pow10(s - d.scale)
  }

  lemma DivCancel(x: real, p: real, k: real)
    requires p > 0.0 && k > 0.0
    ensures (x * k) / (p * k) == x / p
  {
    var q := x / p;
    assert q * p == x;
    assert q * (p * k) == x * k;
  }

  lemma DivAdd(x: real, y: real, p: real)
    requires p > 0.0
    ensures (x + y) / p == x / p + y / p
    ensures (x - y) / p == x / p - y / p
  {
    var a, b := x / p, y / p;
    assert a * p == x && b * p == y;
    assert (a + b) * p == x + y;
    assert (a - b) * p == x - y;
  }

  lemma MulBounds(m: int, k: nat)
    requires k >= 1
    ensures m >= 1 ==> m * k >= k
    ensures m <= -1 ==> m * k + k <= 0
  {
  }

  lemma MulMod(u: int, k: nat)
    requires k >= 1
    ensures (u * k) % k == 0
  {
    var q, r := (u * k) / k, (u * k) % k;
    assert (u - q) * k == r;
    MulBounds(u - q, k);
  }

  lemma CastMul(a: int, b: int)
    ensures (a * b) as real == a as real * b as real
  {
  }

  lemma ScaleFraction(x: int, p: nat, k: nat)
    requires p >= 1 && k >= 1
    ensures (x * k) as real / (p * k) as real == x as real / p as real
  {
    CastMul(x, k);
    CastMul(p, k);
    DivCancel(x as real, p as real, k as real);
  }

  lemma AlignValue(d: Dec, s: nat)
    requires d.scale <= s
    ensures Align(d, s) as real / Pow10(s) as real == Value(d)
  {
    Pow10Add(d.scale, s - d.scale);
    ScaleFraction(d.unscaled, Pow10(d.scale), Pow10(s - d.scale));
  }

  lemma DivMonotonic(x: int, y: int, p: nat)
    requires p >= 1
    ensures x < y <==> x as real / p as real < y as real / p as real
    ensures x == y <==> x as real / p as real == y as real / p as real
  {
  }

  /** A decimal of scale zero stands for its unscaled integer. */
  lemma WholeValue(n: int)
    ensures Value(Dec(n, 0)) == n as real
  {
  }

  /** A decimal is above zero exactly when its unscaled integer is. */
  lemma PositiveValue(d: Dec)
    ensures Value(d) > 0.0 <==> d.unscaled > 0
  {
    DivMonotonic(0, d.unscaled, Pow10(d.scale));
  }

  /** BigDecimal.compareTo: -1, 0 or 1 as a is below, equal to or above b by
      value; the scales play no part. */
  function Compare(a: Dec, b: Dec): (r: int)
    ensures r == -1 || r == 0 || r == 1
    ensures r < 0 <==> Value(a) < Value(b)
    ensures r == 0 <==> Value(a) == Value(b)
    ensures r > 0 <==> Value(a) > Value(b)
  {
    var s := Max(a.scale, b.scale);
    var x := Align(a, s);
    var y := Align(b, s);
    AlignValue(a, s);
    AlignValue(b, s);
    DivMonotonic(x, y, Pow10(s));
    if x < y then -1 else if x == y then 0 else 1
  }

  /** BigDecimal.add: exact, at the larger of the two scales. */
  function Add(a: Dec, b: Dec): (r: Dec)
    ensures r.scale == Max(a.scale, b.scale)
    ensures Value(r) == Value(a) + Value(b)
  {
    var s := Max(a.scale, b.scale);
    AlignValue(a, s);
    AlignValue(b, s);
    DivAdd(Align(a, s) as real, Align(b, s) as real, Pow10(s) as real);
    Dec(Align(a, s) + Align(b, s), s)
  }

  /** BigDecimal.subtract: exact, at the larger of the two scales. */
  function Subtract(a: Dec, b: Dec): (r: Dec)
    ensures r.scale == Max(a.scale, b.scale)
    ensures Value(r) == Value(a) - Value(b)
  {
    var s := Max(a.scale, b.scale);
    AlignValue(a, s);
    AlignValue(b, s);
    DivAdd(Align(a, s) as real, Align(b, s) as real, Pow10(s) as real);
    Dec(Align(a, s) - Align(b, s), s)
  }

  /** The test setScale(2) applies: the digits past the hundredths are all zero. */
  predicate HasCentDigitsOnly(d: Dec)
  {
    d.scale <= 2 || d.unscaled % Pow10(d.scale - 2) == 0
  }

  /** BigDecimal.setScale(2) with no rounding mode: the same value written
      with two fractional digits, or ArithmeticException when that would
      drop a non-zero digit. No rounding ever takes place. */
  function SetScale2(d: Dec): (r: Result<Dec, Fault>)
    ensures r.Ok? <==> HasCentDigitsOnly(d)
    ensures r.Ok? ==> r.value.scale == 2 && Value(r.value) == Value(d)
  {
    if d.scale <= 2 then
      AlignValue(d, 2);
      Ok(Dec(Align(d, 2), 2))
    else if d.unscaled % Pow10(d.scale - 2) == 0 then
      var k := Pow10(d.scale - 2);
      var q := d.unscaled / k;
      assert q * k == d.unscaled;
      AlignValue(Dec(q, 2), d.scale);
      Ok(Dec(q, 2))
    else
      Err(RoundingNecessary)
  }

  /** When setScale(2) fails, no two-digit decimal has the value: the
      failure is exactly the case where rounding would be necessary. */
  lemma SetScale2FailsOnlyWhenInexact(d: Dec, u: int)
    requires SetScale2(d).Err?
    ensures Value(Dec(u, 2)) != Value(d)
  {
    if Value(Dec(u, 2)) == Value(d) {
      var k := Pow10(d.scale - 2);
      AlignValue(Dec(u, 2), d.scale);
      assert Align(Dec(u, 2), d.scale) == u * k;
      DivMonotonic(u * k, d.unscaled, Pow10(d.scale));
      MulMod(u, k);
      assert false;
    }
  }

  /** A value that some two-digit decimal has survives setScale(2). */
  lemma CentValueSurvivesSetScale2(d: Dec, u: int)
    requires Value(Dec(u, 2)) == Value(d)
    ensures SetScale2(d).Ok?
  {
    if SetScale2(d).Err? {
      SetScale2FailsOnlyWhenInexact(d, u);
    }
  }

  /** BigDecimal.remainder(ONE) for a non-negative scale: the remainder of the
      unscaled value by 10^scale, truncated toward zero as Java does, at the
      same scale. */
  function FractionalPart(d: Dec): (r: Dec)
    ensures r.scale == d.scale
    ensures d.unscaled >= 0 ==> 0 <= r.unscaled < Pow10(d.scale)
  {
    var p := Pow10(d.scale);
    if d.unscaled >= 0 then Dec(d.unscaled % p, d.scale)
    else Dec(-((-d.unscaled) % p), d.scale)
  }

  /** remainder(ONE) is what is left once the integer part is taken away:
      the difference is a whole number, and the remainder has the sign of
      the amount and lies strictly within one unit of zero. */
  lemma FractionalPartIsRemainder(d: Dec)
    ensures d.unscaled >= 0 ==> 0 <= FractionalPart(d).unscaled < Pow10(d.scale)
    ensures d.unscaled < 0 ==> -(Pow10(d.scale) as int) < FractionalPart(d).unscaled <= 0
    ensures (d.unscaled - FractionalPart(d).unscaled) % Pow10(d.scale) == 0
  {
    var p := Pow10(d.scale);
    if d.unscaled >= 0 {
      var q := d.unscaled / p;
      assert d.unscaled - FractionalPart(d).unscaled == q * p;
      MulMod(q, p);
    } else {
      var n := -d.unscaled;
      var q := n / p;
      assert d.unscaled - FractionalPart(d).unscaled == (-q) * p;
      MulMod(-q, p);
    }
  }
}
