/** Worked cases of the quantizer. */
module QuantizeExamples {
  import opened Decimals
  import opened Wrappers
  import opened Quantize

  lemma FloorExample()
    ensures FloorToPrecision(Dec(123456789, 8), 4) == Dec(12345, 4)
  {
    assert Pow10(4) == 10000;
  }

  lemma ApplyExample()
    ensures ApplyValueStep(Dec(101, 2), Dec(25, 3)) == Dec(1000, 3)
    ensures ApplyValueStep(Dec(10, 1), Dec(25, 3)) == Dec(1000, 3)
    ensures ApplyValueStep(Dec(123456789, 8), Dec(1, 4)) == Dec(12345, 4)
  {
    ApplyOtherStep(Dec(101, 2), Dec(25, 3), CryptoPrecision);
    ApplyOtherStep(Dec(10, 1), Dec(25, 3), CryptoPrecision);
    assert Pow10(3) == 1000;
    assert Quotient(Dec(101, 2), Dec(25, 3)) == 40;
    assert Quotient(Dec(10, 1), Dec(25, 3)) == 40;
    ApplyPowerOfTen(Dec(123456789, 8), 4, CryptoPrecision);
    FloorExample();
  }

  /** ...and differ on 0.025: adjusting keeps 1.01, applying gives 1.000. */
  lemma AdjustDiffersFromApply()
    ensures AdjustValueToStep(Dec(101, 2), Dec(25, 3)) == Dec(101, 2)
    ensures !SameValue(AdjustValueToStep(Dec(101, 2), Dec(25, 3)), ApplyValueStep(Dec(101, 2), Dec(25, 3)))
  {
    assert Pow10(3) == 1000;
    assert StepPrecision(Dec(25, 3)) == 3;
    ApplyExample();
    CompareAt(Dec(101, 2), Dec(1000, 3), 3);
  }

  /** Quantizing the sum 0.3 to the step 1e-8 keeps it: add(1e-8, 0.1, 0.2) is 0.3. */
  lemma AddExample()
    ensures AdjustValueToStep(Dec(3, 1), Dec(1, 8)) == Dec(3, 1)
  {
    UlpNotIntegral(8);
    assert StepPrecision(Dec(1, 8)) == 8;
  }

  /** 0.1 + 0.2 is exactly 0.3 in decimal arithmetic. */
  lemma SumExample()
    ensures SumAll([Dec(1, 1), Dec(2, 1)]) == Dec(3, 1)
  {
    SumOfTwo(Dec(1, 1), Dec(2, 1));
    assert Units(Dec(0, 0), 1) == 0;
  }

  lemma SumOfTwo(a: Dec, b: Dec)
    ensures SumAll([a, b]) == Add(Add(Dec(0, 0), a), b)
  {
    assert [a, b][..1] == [a] && [a][..0] == [];
    assert SumAll([a]) == Add(Dec(0, 0), a);
  }

  lemma DivideExample()
    ensures Divide(Dec(1, 0), Dec(3, 0), Some(Dec(1, 4))) == Ok(Dec(3333, 4))
    ensures Divide(Dec(1, 0), Dec(0, 0)) == Err(DivisionByZero)
  {
    UlpNotIntegral(4);
    assert Pow10(4) == 10000;
  }

  lemma MultiplyExample()
    ensures Multiply(Dec(15, 1), Dec(333, 2), Some(Dec(1, 2))) == Dec(499, 2)
  {
    UlpNotIntegral(2);
    assert Mul(Dec(15, 1), Dec(333, 2)) == Dec(4995, 3);
    assert Pow10(1) == 10;
    assert FloorToPrecision(Dec(4995, 3), 2) == Dec(499, 2);
  }
}
