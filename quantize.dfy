/**
 * The step/precision quantizer of `icgphutils/__init__.py`: flooring a value to a
 * number of decimal places, the precision implied by a step, snapping a value down
 * to a step, and add/divide/multiply, computed here exactly (not rounded to
 * `Decimal`'s 28-digit context) and then quantized.
 * Every number is an exact decimal (`Decimals.Dec`), the digits `str()` prints.
 */
module Quantize {
  import opened Decimals
  import opened Wrappers

  /** `Constants.CRYPTO_PRECISION` and `Constants.DEFAULT_STEP_VALUE` (1e-8). */
  const CryptoPrecision: nat := 8
  const DefaultStepValue: Dec := Dec(1, 8)

  // ---------------------------------------------------------------------------
  // func_floor_to_precision

  /**
   * A value with at most `precision` places comes back as it is; otherwise the
   * value is scaled up, floored and scaled back. The result never exceeds the
   * input and lies less than 10^-precision below it.
   */
  function FloorToPrecision(num: Dec, precision: nat := CryptoPrecision): (r: Dec)
    ensures num.scale <= precision ==> r == num
    ensures r.scale <= precision
    ensures Le(r, num)
    ensures Lt(num, Add(r, Ulp(precision)))
  {
    if num.scale > precision then
      var r := Dec(num.coef / Pow10(num.scale - precision), precision);
      FloorBounds(num, precision);
      r
    else
      CompareAt(num, Add(num, Ulp(precision)), precision);
      num
  }

  lemma FloorBounds(num: Dec, p: nat)
    requires num.scale > p
    ensures var r := Dec(num.coef / Pow10(num.scale - p), p);
            Le(r, num) && Lt(num, Add(r, Ulp(p)))
  {
    var s, d := num.scale, Pow10(num.scale - p);
    var r := Dec(num.coef / d, p);
    DivBounds(num.coef, d);
    CompareAt(r, num, s);
    CompareAt(num, Add(r, Ulp(p)), s);
    AddUnits(r, Ulp(p), s);
    assert Units(Add(r, Ulp(p)), s) == (num.coef / d + 1) * d;
  }

  /** Among all values with at most `p` places that do not exceed `num`, the floor is the largest. */
  lemma FloorIsGreatest(num: Dec, p: nat, w: Dec)
    requires w.scale <= p && Le(w, num)
    ensures Le(w, FloorToPrecision(num, p))
  {
    if num.scale > p {
      var s, d := num.scale, Pow10(num.scale - p);
      var r := FloorToPrecision(num, p);
      CompareAt(w, num, s);
      UnitsRescale(w, p, s);
      DivGreatest(Units(w, p), num.coef, d);
      CompareAt(w, r, p);
    }
  }

  lemma FloorIdempotent(num: Dec, p: nat)
    ensures FloorToPrecision(FloorToPrecision(num, p), p) == FloorToPrecision(num, p)
  {
  }

  /** Flooring to k places and then to p places is flooring to min(k, p) places. */
  lemma FloorTwice(num: Dec, k: nat, p: nat)
    ensures FloorToPrecision(FloorToPrecision(num, k), p) == FloorToPrecision(num, if k <= p then k else p)
  {
    if p < k && num.scale > k {
      var s := num.scale;
      DivDiv(num.coef, Pow10(s - k), Pow10(k - p));
      Pow10Add(s - k, k - p);
      assert s - p == (s - k) + (k - p);
    }
  }

  // ---------------------------------------------------------------------------
  // func_get_step_precision and func_get_step_from_precision

  /**
   * A whole step has precision 0 (the source first casts it to int); otherwise
   * the precision is the number of places of its printed form, and for the
   * shortest printed form that is the fewest places the step can be written with.
   */
  function StepPrecision(step: Dec): (r: nat)
    ensures r == 0 <==> IsIntegral(step)
    ensures FitsIn(step, r)
    ensures Canonical(step) ==> forall k: nat :: k < r ==> !FitsIn(step, k)
  {
    if IsIntegral(step) then 0
    else
      CanonicalIsShortest(step);
      step.scale
  }

  lemma CanonicalIsShortest(d: Dec)
    ensures Canonical(d) ==> forall k: nat :: k < d.scale ==> !FitsIn(d, k)
  {
    if Canonical(d) {
      forall k: nat | k < d.scale ensures !FitsIn(d, k) {
        if d.coef % Pow10(d.scale - k) == 0 {
          Pow10DividesTen(d.coef, d.scale - k);
        }
      }
    }
  }

  /** `1 / (10 ** precision)`: Python prints 1.0 for precision 0. */
  function StepFromPrecision(precision: nat): (r: Dec)
    ensures SameValue(r, Ulp(precision))
    ensures StepPrecision(r) == precision
    ensures Positive(r) && Canonical(r) == (precision > 0)
  {
    if precision == 0 then Dec(10, 1)
    else
      UlpNotIntegral(precision);
      Dec(1, precision)
  }

  // ---------------------------------------------------------------------------
  // func_apply_value_step

  /** `floor(input_val / step) * step`, exactly: the largest multiple of the step not above the value. */
  function MultipleBelow(v: Dec, step: Dec): (r: Dec)
    requires Positive(step)
    ensures r.scale == step.scale && r.coef == Quotient(v, step) * step.coef
    ensures Le(r, v) && Lt(v, Add(r, step))
  {
    var m := MaxScale(v, step);
    var r := Dec(Quotient(v, step) * step.coef, step.scale);
    MultipleBelowBounds(v, step);
    r
  }

  /** floor(v / step) for a positive step. */
  function Quotient(v: Dec, step: Dec): int
    requires Positive(step)
  {
    var m := MaxScale(v, step);
    StepUnitsPositive(step, m);
    Units(v, m) / Units(step, m)
  }

  lemma StepUnitsPositive(step: Dec, k: nat)
    requires Positive(step) && step.scale <= k
    ensures Units(step, k) > 0
  {
    MulLt(0, step.coef, Pow10(k - step.scale));
  }

  /** The units of j steps are j times the units of one step. */
  lemma MultipleUnits(step: Dec, j: int, k: nat)
    requires step.scale <= k
    ensures Units(Dec(j * step.coef, step.scale), k) == j * Units(step, k)
  {
  }

  lemma MultipleBelowBounds(v: Dec, step: Dec)
    requires Positive(step)
    ensures var r := Dec(Quotient(v, step) * step.coef, step.scale);
            Le(r, v) && Lt(v, Add(r, step))
  {
    var m := MaxScale(v, step);
    var q := Quotient(v, step);
    var r := Dec(q * step.coef, step.scale);
    StepUnitsPositive(step, m);
    DivBounds(Units(v, m), Units(step, m));
    MultipleUnits(step, q, m);
    CompareAt(r, v, m);
    MultipleUnits(step, q + 1, m);
    AddUnits(r, step, m);
    CompareAt(v, Add(r, step), m);
  }

  /** No larger multiple of the step lies at or below the value. */
  lemma MultipleBelowIsGreatest(v: Dec, step: Dec, j: int)
    requires Positive(step) && Le(Dec(j * step.coef, step.scale), v)
    ensures j <= Quotient(v, step)
  {
    var m := MaxScale(v, step);
    StepUnitsPositive(step, m);
    MultipleUnits(step, j, m);
    CompareAt(Dec(j * step.coef, step.scale), v, m);
    DivGreatest(j, Units(v, m), Units(step, m));
  }

  /**
   * A step that scales to exactly one unit at its own precision (a power of ten)
   * truncates to the step's places; any other step snaps down to a multiple of the
   * step. Either way the result is floored to `precision` at the end.
   */
  function ApplyValueStep(inputVal: Dec, step: Dec, precision: nat := CryptoPrecision): (r: Dec)
    requires Positive(step)
    ensures r.scale <= precision
    ensures Le(r, inputVal)
  {
    var stepDp := StepPrecision(step);
    var adjustedPrecision := if stepDp > 0 then stepDp else precision;
    var stepExp := (step.coef * Pow10(adjustedPrecision)) / Pow10(step.scale);
    var adjustedValue := if stepExp == 1 then FloorToPrecision(inputVal, stepDp) else MultipleBelow(inputVal, step);
    LeTrans(FloorToPrecision(adjustedValue, precision), adjustedValue, inputVal);
    FloorToPrecision(adjustedValue, precision)
  }

  /** With a step 10^-k the operation is flooring to min(k, precision) places. */
  lemma ApplyPowerOfTen(v: Dec, k: nat, p: nat)
    requires k >= 1
    ensures ApplyValueStep(v, Dec(1, k), p) == FloorToPrecision(v, if k <= p then k else p)
  {
    UlpNotIntegral(k);
    MulDivCancel(1, Pow10(k));
    FloorTwice(v, k, p);
  }

  /** A step that is not whole scales to one unit at its own precision exactly when it is 10^-k. */
  lemma FractionalStepExp(step: Dec)
    requires Positive(step) && StepPrecision(step) > 0
    ensures (step.coef * Pow10(StepPrecision(step))) / Pow10(step.scale) == 1 <==> step.coef == 1
  {
    MulDivCancel(step.coef, Pow10(step.scale));
  }

  /** A whole step n scaled to `precision` places is n * 10^precision. */
  lemma WholeStepExp(step: Dec, p: nat)
    requires Positive(step) && IsIntegral(step)
    ensures step.coef / Pow10(step.scale) >= 1
    ensures (step.coef * Pow10(p)) / Pow10(step.scale) == (step.coef / Pow10(step.scale)) * Pow10(p)
  {
    var n, f, g := step.coef / Pow10(step.scale), Pow10(p), Pow10(step.scale);
    IntegralUnits(step);
    assert step.coef * f == (n * f) * g by {
      assert step.coef == n * g;
    }
    MulDivCancel(n * f, g);
    if n < 1 {
      MulLe(n, 0, g);
    }
  }

  /** A step other than 10^-k, with at most `precision` places, does not scale to one unit. */
  lemma OtherStepExp(step: Dec, p: nat)
    requires Positive(step) && step.coef != 1 && step.scale <= p
    ensures var stepDp := StepPrecision(step);
      (step.coef * Pow10(if stepDp > 0 then stepDp else p)) / Pow10(step.scale) != 1
  {
    if StepPrecision(step) > 0 {
      FractionalStepExp(step);
    } else {
      WholeStepExp(step, p);
      var n := step.coef / Pow10(step.scale);
      if p > 0 {
        Pow10AtLeastTen(p);
        MulLe(1, n, Pow10(p));
      } else {
        assert step.scale == 0;
      }
    }
  }

  /** Any step other than a power of ten, with at most `precision` places: exactly the largest multiple below. */
  lemma ApplyOtherStep(v: Dec, step: Dec, p: nat)
    requires Positive(step) && step.coef != 1 && step.scale <= p
    ensures ApplyValueStep(v, step, p) == MultipleBelow(v, step)
  {
    OtherStepExp(step, p);
    var mb := MultipleBelow(v, step);
    assert FloorToPrecision(mb, p) == mb;
  }

  /** j steps of equal value have equal value, whatever places the steps are written with. */
  lemma MultiplesAgree(s1: Dec, s2: Dec, j: int)
    requires SameValue(s1, s2)
    ensures SameValue(Dec(j * s1.coef, s1.scale), Dec(j * s2.coef, s2.scale))
  {
    var k := s1.scale + s2.scale;
    CompareAt(s1, s2, k);
    MultipleUnits(s1, j, k);
    MultipleUnits(s2, j, k);
    CompareAt(Dec(j * s1.coef, s1.scale), Dec(j * s2.coef, s2.scale), k);
  }

  /** Snapping down depends only on the value of the step, not on its printed form. */
  lemma MultipleBelowRespectsValue(v: Dec, s1: Dec, s2: Dec)
    requires Positive(s1) && Positive(s2) && SameValue(s1, s2)
    ensures SameValue(MultipleBelow(v, s1), MultipleBelow(v, s2))
  {
    var q1, q2 := Quotient(v, s1), Quotient(v, s2);
    var m1, m2 := MultipleBelow(v, s1), MultipleBelow(v, s2);
    assert q1 <= q2 by {
      assert Le(Dec(q1 * s1.coef, s1.scale), v) by { assert m1 == Dec(q1 * s1.coef, s1.scale); }
      MultiplesAgree(s1, s2, q1);
      SameValueLe(Dec(q1 * s1.coef, s1.scale), Dec(q1 * s2.coef, s2.scale), v);
      MultipleBelowIsGreatest(v, s2, q1);
    }
    assert q2 <= q1 by {
      assert Le(Dec(q2 * s2.coef, s2.scale), v) by { assert m2 == Dec(q2 * s2.coef, s2.scale); }
      assert SameValue(s2, s1);
      MultiplesAgree(s2, s1, q2);
      SameValueLe(Dec(q2 * s2.coef, s2.scale), Dec(q2 * s1.coef, s1.scale), v);
      MultipleBelowIsGreatest(v, s1, q2);
    }
    MultiplesAgree(s1, s2, q1);
  }

  /** A step of value 1, however many places it is printed with, snaps down like flooring to a whole number. */
  lemma UnitWholeStep(v: Dec, step: Dec)
    requires step.coef == Pow10(step.scale)
    ensures SameValue(FloorToPrecision(v, 0), MultipleBelow(v, step))
  {
    FloorIsMultipleBelow(v, 0);
    assert SameValue(Dec(1, 0), step) by {
      CompareAt(Dec(1, 0), step, step.scale);
    }
    MultipleBelowRespectsValue(v, Dec(1, 0), step);
    SameValueTrans(FloorToPrecision(v, 0), MultipleBelow(v, Dec(1, 0)), MultipleBelow(v, step));
  }

  /** A multiple of 10^(scale - p) loses nothing when floored to p places. */
  lemma FloorWholeMultiple(d: Dec, c: int, p: nat)
    requires p < d.scale && d.coef == c * Pow10(d.scale - p)
    ensures FloorToPrecision(d, p) == Dec(c, p) && SameValue(Dec(c, p), d)
  {
    MulDivCancel(c, Pow10(d.scale - p));
    CompareAt(Dec(c, p), d, d.scale);
  }

  /** q steps of the whole value n, printed with s places, are q * n * 10^p units at p places. */
  lemma WholeMultipleUnits(q: int, n: int, p: nat, s: nat)
    requires p <= s
    ensures q * (n * Pow10(s)) == (q * n * Pow10(p)) * Pow10(s - p)
  {
    Pow10Add(p, s - p);
    Regroup(q, n, Pow10(p), Pow10(s - p));
  }

  lemma Regroup(q: int, n: int, f: int, g: int)
    ensures q * (n * (f * g)) == (q * n * f) * g
  {
    assert n * (f * g) == (n * f) * g;
    assert q * ((n * f) * g) == (q * (n * f)) * g;
  }

  /** A whole step printed with more places than `precision` (such as 5.0 at precision 0). */
  lemma WholeStepBeyondPrecision(v: Dec, step: Dec, p: nat)
    requires Positive(step) && IsIntegral(step) && p < step.scale
    ensures SameValue(ApplyValueStep(v, step, p), MultipleBelow(v, step))
  {
    var n := step.coef / Pow10(step.scale);
    WholeStepExp(step, p);
    IntegralUnits(step);
    var mb := MultipleBelow(v, step);
    if n * Pow10(p) == 1 {
      assert p == 0 && n == 1 by {
        if p > 0 {
          Pow10AtLeastTen(p);
          MulLe(1, n, Pow10(p));
        }
      }
      UnitWholeStep(v, step);
    } else {
      var c := Quotient(v, step) * n * Pow10(p);
      WholeMultipleUnits(Quotient(v, step), n, p, step.scale);
      FloorWholeMultiple(mb, c, p);
    }
  }

  /** For every positive step with at most `precision` places the result has the value floor(v / step) * step. */
  lemma ApplyIsMultipleBelow(v: Dec, step: Dec, p: nat)
    requires Positive(step) && StepPrecision(step) <= p
    ensures SameValue(ApplyValueStep(v, step, p), MultipleBelow(v, step))
  {
    if p < step.scale {
      WholeStepBeyondPrecision(v, step, p);
    } else if step.coef != 1 {
      ApplyOtherStep(v, step, p);
    } else if step.scale >= 1 {
      ApplyPowerOfTen(v, step.scale, p);
      FloorIsMultipleBelow(v, step.scale);
    } else {
      WholeStepExp(step, p);
      if p > 0 { Pow10AtLeastTen(p); }
      if p == 0 {
        FloorIsMultipleBelow(v, 0);
      }
    }
  }

  /** Flooring to k places is snapping down to a multiple of 10^-k. */
  lemma FloorIsMultipleBelow(v: Dec, k: nat)
    ensures SameValue(FloorToPrecision(v, k), MultipleBelow(v, Dec(1, k)))
  {
    var step := Dec(1, k);
    var m := MaxScale(v, step);
    var f := FloorToPrecision(v, k);
    var mb := MultipleBelow(v, step);
    if v.scale > k {
      assert Units(step, m) == Pow10(v.scale - k);
    } else {
      assert Units(step, m) == 1;
      CompareAt(f, mb, k);
    }
  }

  // ---------------------------------------------------------------------------
  // func_adjust_value_to_step

  /**
   * Truncates to as many places as the step has; it does not snap to a multiple
   * of a step that is not a power of ten, and a whole step gives a whole number.
   */
  function AdjustValueToStep(inputVal: Dec, step: Dec): (r: Dec)
    ensures r.scale <= StepPrecision(step)
    ensures Le(r, inputVal) && Lt(inputVal, Add(r, Ulp(StepPrecision(step))))
    ensures IsIntegral(step) ==> IsIntegral(r)
  {
    FloorToPrecision(inputVal, StepPrecision(step))
  }

  /** Both policies agree on a power-of-ten step with at most `precision` places. */
  lemma AdjustAgreesWithApply(v: Dec, k: nat, p: nat)
    requires 1 <= k <= p
    ensures AdjustValueToStep(v, Dec(1, k)) == ApplyValueStep(v, Dec(1, k), p)
  {
    UlpNotIntegral(k);
    ApplyPowerOfTen(v, k, p);
  }

  // ---------------------------------------------------------------------------
  // func_float_arithmetic_add, func_float_divide, func_float_multiply

  /** `0 + a0 + a1 + ...`, summed left to right in exact decimals. */
  function SumAll(values: seq<Dec>): Dec {
    if |values| == 0 then Dec(0, 0)
    else Add(SumAll(values[..|values| - 1]), values[|values| - 1])
  }

  method ArithmeticAdd(stepValue: Dec, args: seq<Dec>) returns (r: Dec)
    ensures r == AdjustValueToStep(SumAll(args), stepValue)
    ensures |args| == 0 ==> r == Dec(0, 0)
  {
    var total := Dec(0, 0);
    for i := 0 to |args|
      invariant total == SumAll(args[..i])
    {
      assert args[..i + 1][..i] == args[..i];
      total := Add(total, args[i]);
    }
    assert args[..|args|] == args;
    r := AdjustValueToStep(total, stepValue);
  }

  lemma AddCommutes(a: Dec, b: Dec)
    ensures Add(a, b) == Add(b, a)
  {
  }

  lemma AddAssociates(a: Dec, b: Dec, c: Dec)
    ensures Add(Add(a, b), c) == Add(a, Add(b, c))
  {
    var l, r := Add(Add(a, b), c), Add(a, Add(b, c));
    assert l.scale == r.scale;
    var k := l.scale;
    AddUnits(Add(a, b), c, k);
    AddUnits(a, b, k);
    AddUnits(a, Add(b, c), k);
    AddUnits(b, c, k);
    assert Units(l, k) == Units(r, k);
  }

  /** Removing one summand: the sum is the rest's sum plus that summand. */
  lemma {:induction false} SumRemove(xs: seq<Dec>, j: nat)
    requires j < |xs|
    ensures SumAll(xs) == Add(SumAll(xs[..j] + xs[j + 1..]), xs[j])
  {
    var n := |xs|;
    if j < n - 1 {
      var init := xs[..n - 1];
      SumRemove(init, j);
      var rest := xs[..j] + xs[j + 1..];
      assert rest[..|rest| - 1] == init[..j] + init[j + 1..];
      assert rest[|rest| - 1] == xs[n - 1];
      AddAssociates(SumAll(init[..j] + init[j + 1..]), xs[j], xs[n - 1]);
      AddCommutes(xs[j], xs[n - 1]);
      AddAssociates(SumAll(init[..j] + init[j + 1..]), xs[n - 1], xs[j]);
    } else {
      assert xs[..j] + xs[j + 1..] == xs[..n - 1];
    }
  }

  /** The sum does not depend on the order of the summands. */
  lemma {:induction false} SumPermutation(xs: seq<Dec>, ys: seq<Dec>)
    requires multiset(xs) == multiset(ys)
    ensures SumAll(xs) == SumAll(ys)
  {
    if |xs| > 0 {
      var n := |xs|;
      var x := xs[n - 1];
      assert x in multiset(ys);
      var j :| 0 <= j < |ys| && ys[j] == x;
      var ys' := ys[..j] + ys[j + 1..];
      assert ys == ys[..j] + [ys[j]] + ys[j + 1..];
      assert xs == xs[..n - 1] + [x];
      calc {
        multiset(ys);
        multiset(ys[..j] + [ys[j]] + ys[j + 1..]);
        multiset(ys[..j]) + multiset([ys[j]]) + multiset(ys[j + 1..]);
        multiset(ys') + multiset{x};
      }
      assert multiset(xs) == multiset(xs[..n - 1]) + multiset{x};
      assert multiset(xs[..n - 1]) == multiset(xs) - multiset{x};
      assert multiset(ys') == multiset(ys) - multiset{x};
      SumPermutation(xs[..n - 1], ys');
      SumRemove(ys, j);
    } else {
      assert |ys| == 0;
    }
  }

  /** `add(step, a, b) == add(step, b, a)`, and any other reordering. */
  lemma AddOrderIrrelevant(step: Dec, xs: seq<Dec>, ys: seq<Dec>)
    requires multiset(xs) == multiset(ys)
    ensures AdjustValueToStep(SumAll(xs), step) == AdjustValueToStep(SumAll(ys), step)
  {
    SumPermutation(xs, ys);
  }

  /** `decimal.DivisionByZero`, and `decimal.InvalidOperation` raised with the signal DivisionUndefined. */
  datatype ArithError = DivisionByZero | InvalidOperation

  /** q is floor(x / y), for a divisor of either sign. */
  predicate IsFloorQuotient(q: int, x: int, y: int) {
    (y > 0 && q * y <= x < (q + 1) * y) || (y < 0 && (q + 1) * y < x <= q * y)
  }

  function FloorDiv(x: int, y: int): (q: int)
    requires y != 0
    ensures IsFloorQuotient(q, x, y)
  {
    if y > 0 then
      DivBounds(x, y);
      x / y
    else
      DivBounds(-x, -y);
      assert (-x / -y) * y == -((-x / -y) * -y);
      assert (-x / -y + 1) * y == -((-x / -y + 1) * -y);
      (-x) / (-y)
  }

  /**
   * The exact quotient floored to the step's places, the step defaulting to 1e-8.
   * A zero divisor fails: InvalidOperation (signal DivisionUndefined) for 0/0, DivisionByZero otherwise.
   */
  function Divide(dividend: Dec, divisor: Dec, step: Option<Dec> := None): (r: Result<Dec, ArithError>)
    ensures r.Err? <==> IsZero(divisor)
    ensures r.Err? ==> r.error == (if IsZero(dividend) then InvalidOperation else DivisionByZero)
    ensures r.Ok? ==>
      var k := StepPrecision(step.GetOr(DefaultStepValue));
      var m := MaxScale(dividend, divisor);
      r.value.scale == k && IsFloorQuotient(r.value.coef, Units(dividend, m) * Pow10(k), Units(divisor, m))
  {
    if IsZero(divisor) then
      Err(if IsZero(dividend) then InvalidOperation else DivisionByZero)
    else
      var k := StepPrecision(step.GetOr(DefaultStepValue));
      var m := MaxScale(dividend, divisor);
      assert Units(divisor, m) != 0;
      Ok(Dec(FloorDiv(Units(dividend, m) * Pow10(k), Units(divisor, m)), k))
  }

  /** The exact product floored to the step's places, the step defaulting to 1e-8. */
  function Multiply(multiplicand: Dec, multiplier: Dec, step: Option<Dec> := None): (r: Dec)
    ensures var k := StepPrecision(step.GetOr(DefaultStepValue));
            var exact := Mul(multiplicand, multiplier);
            r.scale <= k && Le(r, exact) && Lt(exact, Add(r, Ulp(k)))
  {
    AdjustValueToStep(Mul(multiplicand, multiplier), step.GetOr(DefaultStepValue))
  }

}
