/**
 * Exact decimal numbers, as Python's `decimal.Decimal` holds them: an integer
 * coefficient and a number of decimal places (the negated exponent of
 * `Decimal(str(x)).as_tuple()`). `Dec(12345, 4)` is 1.2345 and `Dec(10, 1)` is 1.0;
 * the two forms of one value are kept apart, because the quantizer reads the
 * number of places off the printed form.
 */
module Decimals {

  /** 10^n. */
  function Pow10(n: nat): (r: nat)
    ensures r >= 1
  {
    if n == 0 then 1 else 10 * Pow10(n - 1)
  }

  datatype Dec = Dec(coef: int, scale: nat)

  /** The value times 10^k, an integer once k is at least the number of places. */
  function Units(d: Dec, k: nat): int
    requires d.scale <= k
  {
    d.coef * Pow10(k - d.scale)
  }

  function MaxScale(a: Dec, b: Dec): nat {
    if a.scale <= b.scale then b.scale else a.scale
  }

  /** Order and equality of values (not of printed forms), at a common scale. */
  predicate Le(a: Dec, b: Dec) {
    var m := MaxScale(a, b); Units(a, m) <= Units(b, m)
  }

  predicate Lt(a: Dec, b: Dec) {
    var m := MaxScale(a, b); Units(a, m) < Units(b, m)
  }

  predicate SameValue(a: Dec, b: Dec) {
    var m := MaxScale(a, b); Units(a, m) == Units(b, m)
  }

  predicate Positive(d: Dec) {
    d.coef > 0
  }

  predicate IsZero(d: Dec) {
    d.coef == 0
  }

  /** `d % 1 == 0`: the value is a whole number. */
  predicate IsIntegral(d: Dec) {
    d.coef % Pow10(d.scale) == 0
  }

  /** The value can be written with at most `p` decimal places. */
  predicate FitsIn(d: Dec, p: nat) {
    d.scale <= p || d.coef % Pow10(d.scale - p) == 0
  }

  /** The shortest printed form of a value that is not whole: no trailing zero. */
  predicate Canonical(d: Dec) {
    d.scale == 0 || d.coef % 10 != 0
  }

  /** One unit in the p-th decimal place, 10^-p. */
  function Ulp(p: nat): Dec {
    Dec(1, p)
  }

  /** Exact addition, with the larger number of places (`Decimal` agrees up to its 28-digit context rounding). */
  function Add(a: Dec, b: Dec): (r: Dec)
    ensures r.scale == MaxScale(a, b)
    ensures Units(r, r.scale) == Units(a, r.scale) + Units(b, r.scale)
  {
    var m := MaxScale(a, b);
    Dec(Units(a, m) + Units(b, m), m)
  }

  /** At any scale the units of a sum are the sum of the units. */
  lemma AddUnits(a: Dec, b: Dec, k: nat)
    requires MaxScale(a, b) <= k
    ensures Units(Add(a, b), k) == Units(a, k) + Units(b, k)
  {
    var m := MaxScale(a, b);
    UnitsRescale(a, m, k);
    UnitsRescale(b, m, k);
    UnitsRescale(Add(a, b), m, k);
  }

  /** Exact multiplication, adding the numbers of places (`Decimal` agrees up to its 28-digit context rounding). */
  function Mul(a: Dec, b: Dec): (r: Dec)
    ensures r.scale == a.scale + b.scale
    ensures r.coef == a.coef * b.coef
  {
    Dec(a.coef * b.coef, a.scale + b.scale)
  }

  /** Read at scales k and l for the factors, the product's units are the product of the units. */
  lemma MulUnits(a: Dec, b: Dec, k: nat, l: nat)
    requires a.scale <= k && b.scale <= l
    ensures Units(Mul(a, b), k + l) == Units(a, k) * Units(b, l)
  {
    Pow10Add(k - a.scale, l - b.scale);
    assert k + l - (a.scale + b.scale) == (k - a.scale) + (l - b.scale);
    assert a.coef * b.coef * (Pow10(k - a.scale) * Pow10(l - b.scale))
        == (a.coef * Pow10(k - a.scale)) * (b.coef * Pow10(l - b.scale));
  }

  /** Sums of equal values are equal, whatever forms the operands are written in. */
  lemma AddRespectsValue(a: Dec, a': Dec, b: Dec, b': Dec)
    requires SameValue(a, a') && SameValue(b, b')
    ensures SameValue(Add(a, b), Add(a', b'))
  {
    var k := a.scale + a'.scale + b.scale + b'.scale;
    CompareAt(a, a', k);
    CompareAt(b, b', k);
    AddUnits(a, b, k);
    AddUnits(a', b', k);
    CompareAt(Add(a, b), Add(a', b'), k);
  }

  /** Products of equal values are equal, whatever forms the operands are written in. */
  lemma MulRespectsValue(a: Dec, a': Dec, b: Dec, b': Dec)
    requires SameValue(a, a') && SameValue(b, b')
    ensures SameValue(Mul(a, b), Mul(a', b'))
  {
    var k := a.scale + a'.scale;
    var l := b.scale + b'.scale;
    CompareAt(a, a', k);
    CompareAt(b, b', l);
    MulUnits(a, b, k, l);
    MulUnits(a', b', k, l);
    CompareAt(Mul(a, b), Mul(a', b'), k + l);
  }

  // ---------------------------------------------------------------------------
  // Arithmetic facts

  lemma {:induction false} Pow10Add(a: nat, b: nat)
    ensures Pow10(a + b) == Pow10(a) * Pow10(b)
  {
    if a > 0 {
      Pow10Add(a - 1, b);
      assert Pow10(a + b) == 10 * Pow10(a - 1 + b);
    }
  }

  lemma Pow10AtLeastTen(n: nat)
    requires n >= 1
    ensures Pow10(n) >= 10
  {
  }

  lemma MulLe(x: int, y: int, k: int)
    requires x <= y && k >= 0
    ensures x * k <= y * k
  {
    assert y * k - x * k == (y - x) * k;
  }

  lemma MulLt(x: int, y: int, k: int)
    requires x < y && k > 0
    ensures x * k < y * k
  {
    assert y * k - x * k == (y - x) * k;
  }

  /** Floor division by a positive divisor brackets the dividend. */
  lemma DivBounds(c: int, d: int)
    requires d > 0
    ensures (c / d) * d <= c < (c / d + 1) * d
  {
  }

  /** Floor division gives the greatest multiplier whose product stays below. */
  lemma DivGreatest(w: int, c: int, d: int)
    requires d > 0 && w * d <= c
    ensures w <= c / d
  {
    DivBounds(c, d);
    if w > c / d {
      MulLe(c / d + 1, w, d);
    }
  }

  lemma DivUnique(x: int, d: int, y: int)
    requires d > 0 && y * d <= x < (y + 1) * d
    ensures x / d == y
  {
    DivGreatest(y, x, d);
    DivBounds(x, d);
    if x / d > y {
      MulLe(y + 1, x / d, d);
    }
  }

  lemma DivDiv(x: int, a: int, b: int)
    requires a > 0 && b > 0
    ensures (x / a) / b == x / (a * b)
  {
    var q1 := x / a;
    var q2 := q1 / b;
    DivBounds(x, a);
    DivBounds(q1, b);
    MulLe(q2 * b, q1, a);
    MulLe(q1 + 1, (q2 + 1) * b, a);
    assert q2 * (a * b) == q2 * b * a;
    assert (q2 + 1) * (a * b) == (q2 + 1) * b * a;
    DivUnique(x, a * b, q2);
  }

  lemma MulDivCancel(x: int, d: int)
    requires d > 0
    ensures (x * d) / d == x
  {
    DivUnique(x * d, d, x);
  }

  lemma UnitsRescale(d: Dec, k: nat, k': nat)
    requires d.scale <= k <= k'
    ensures Units(d, k') == Units(d, k) * Pow10(k' - k)
  {
    Pow10Add(k - d.scale, k' - k);
    assert k' - d.scale == (k - d.scale) + (k' - k);
  }

  /** Comparisons may be made at any scale at least both numbers of places. */
  lemma CompareAt(a: Dec, b: Dec, k: nat)
    requires a.scale <= k && b.scale <= k
    ensures Le(a, b) <==> Units(a, k) <= Units(b, k)
    ensures Lt(a, b) <==> Units(a, k) < Units(b, k)
    ensures SameValue(a, b) <==> Units(a, k) == Units(b, k)
  {
    var m := MaxScale(a, b);
    UnitsRescale(a, m, k);
    UnitsRescale(b, m, k);
    var f := Pow10(k - m);
    if Units(a, m) <= Units(b, m) { MulLe(Units(a, m), Units(b, m), f); }
    if Units(a, m) > Units(b, m) { MulLt(Units(b, m), Units(a, m), f); }
    if Units(a, m) < Units(b, m) { MulLt(Units(a, m), Units(b, m), f); }
  }

  lemma LeTrans(a: Dec, b: Dec, c: Dec)
    requires Le(a, b) && Le(b, c)
    ensures Le(a, c)
  {
    var k := a.scale + b.scale + c.scale;
    CompareAt(a, b, k);
    CompareAt(b, c, k);
    CompareAt(a, c, k);
  }

  lemma SameValueLe(a: Dec, b: Dec, c: Dec)
    requires SameValue(a, b)
    ensures Le(a, c) <==> Le(b, c)
    ensures Lt(c, a) <==> Lt(c, b)
  {
    var k := a.scale + b.scale + c.scale;
    CompareAt(a, b, k);
    CompareAt(a, c, k);
    CompareAt(b, c, k);
    CompareAt(c, a, k);
    CompareAt(c, b, k);
  }

  lemma SameValueTrans(a: Dec, b: Dec, c: Dec)
    requires SameValue(a, b) && SameValue(b, c)
    ensures SameValue(a, c)
  {
    var k := a.scale + b.scale + c.scale;
    CompareAt(a, b, k);
    CompareAt(b, c, k);
    CompareAt(a, c, k);
  }

  /** 10^-k is not a whole number once k >= 1. */
  lemma UlpNotIntegral(k: nat)
    requires k >= 1
    ensures !IsIntegral(Ulp(k))
  {
    Pow10AtLeastTen(k);
    DivUnique(1, Pow10(k), 0);
  }

  /** A whole number written with one or more trailing zeros. */
  lemma IntegralUnits(d: Dec)
    requires IsIntegral(d)
    ensures d.coef == (d.coef / Pow10(d.scale)) * Pow10(d.scale)
  {
  }

  /** A coefficient divisible by 10^n with n >= 1 ends in a zero. */
  lemma {:induction false} Pow10DividesTen(x: int, n: nat)
    requires n >= 1 && x % Pow10(n) == 0
    ensures x % 10 == 0
  {
    var q := x / Pow10(n);
    assert x == q * Pow10(n);
    assert x == (q * Pow10(n - 1)) * 10;
  }
}
