/** The static conversion helper: convert a raw value between two length units,
    rounded to six decimals, and compare two raw values with a tolerance of one
    millionth. */
module LengthConversion {
  import opened Lang
  import opened LengthUnits
  import Lengths

  /** Tolerance of `AlmostEqual`. */
  const EPSILON: real := 0.000001

  /** Half of the rounding step of `Round6`. */
  const HALF_STEP: real := 0.0000005

  /** `round6(v)`: `v` rounded to the nearest millionth, halves up. */
  function Round6(v: real): (r: real)
    ensures InRoundRange(v * 1000000.0) ==> Abs(r - v) <= HALF_STEP
  {
    Round(v * 1000000.0) as real / 1000000.0
  }

  /** `almostEqual(a, b)`: the two values are less than `EPSILON` apart. */
  function AlmostEqual(a: real, b: real): (b': bool)
    ensures b' <==> -EPSILON < a - b < EPSILON
  {
    Abs(a - b) < EPSILON
  }

  /** `convert(value, from, to)`: a null unit is refused first, then a NaN or
      infinite value, both with IllegalArgumentException. The same constant on
      both sides returns the value untouched; otherwise the value is converted
      through inches and rounded to six decimals. */
  function Convert(value: Double, from: Option<LengthUnit>, to: Option<LengthUnit>): (r: Result<real>)
    ensures from.None? || to.None? ==> r == Failure(IllegalArgumentException("Units cannot be null"))
    ensures from.Some? && to.Some? && value.IsNaNOrInfinite() ==> r == Failure(IllegalArgumentException("Invalid numeric value"))
    ensures from.Some? && to.Some? && value.Finite? ==> r.Success?
    ensures from.Some? && from == to && value.Finite? ==> r == Success(value.r)
    ensures from.Some? && to.Some? && value.Finite? && from != to ==>
              r.value == Round6(to.value.FromBaseInches(from.value.ToBaseInches(value.r)))
  {
    if from.None? || to.None? then Failure(IllegalArgumentException("Units cannot be null"))
    else if value.IsNaNOrInfinite() then Failure(IllegalArgumentException("Invalid numeric value"))
    else if from == to then Success(value.r)
    else
      var src := Lengths.New(value, from).value;
      var out := src.ConvertTo(to).value;
      Success(Round6(out.value))
  }

  /** Rounding an already rounded value changes nothing. */
  lemma Round6Idempotent(v: real)
    ensures Round6(Round6(v)) == Round6(v)
  {
    var n := Round(v * 1000000.0);
    assert Round6(v) * 1000000.0 == n as real;
    RoundOfWhole(n);
  }

  /** `AlmostEqual` is reflexive and symmetric. */
  lemma AlmostEqualReflexiveSymmetric(a: real, b: real)
    ensures AlmostEqual(a, a)
    ensures AlmostEqual(a, b) == AlmostEqual(b, a)
  {
  }

  /** The error of a conversion: within half a millionth of the exact value,
      as long as the rounding does not saturate. */
  lemma ConvertError(v: real, from: LengthUnit, to: LengthUnit)
    requires InRoundRange(to.FromBaseInches(from.ToBaseInches(v)) * 1000000.0)
    ensures Convert(Finite(v), Some(from), Some(to)).Success?
    ensures -HALF_STEP <= Convert(Finite(v), Some(from), Some(to)).value - to.FromBaseInches(from.ToBaseInches(v)) <= HALF_STEP
  {
  }

  /** Converting to a smaller unit and back comes back almost equal to the
      start value: the two roundings add at most half a millionth each, and the
      first one shrinks on the way back. */
  lemma RoundTripToSmallerUnit(v: real, big: LengthUnit, small: LengthUnit) returns (there: real, back: real)
    requires small.FactorToInches() < big.FactorToInches()
    requires -1000000000.0 <= v <= 1000000000.0
    ensures Convert(Finite(v), Some(big), Some(small)) == Success(there)
    ensures Convert(Finite(there), Some(small), Some(big)) == Success(back)
    ensures AlmostEqual(v, back)
  {
    there := OutwardLeg(v, big, small);
    back := ReturnLeg(there, big, small);
  }

  /** The ratio of the factors of two units. */
  function Ratio(a: LengthUnit, b: LengthUnit): (k: real)
    ensures k > 0.0
    ensures a.FactorToInches() < b.FactorToInches() ==> k < 1.0
  {
    a.FactorToInches() / b.FactorToInches()
  }

  /** The way out: the conversion lands within half a step of the exact image,
      so scaled back by the ratio of the factors it lies strictly within half a
      step of the start value. */
  lemma OutwardLeg(v: real, big: LengthUnit, small: LengthUnit) returns (there: real)
    requires small.FactorToInches() < big.FactorToInches()
    requires -1000000000.0 <= v <= 1000000000.0
    ensures Convert(Finite(v), Some(big), Some(small)) == Success(there)
    ensures -HALF_STEP < there * Ratio(small, big) - v < HALF_STEP
    ensures -100000000001.0 <= there <= 100000000001.0
  {
    var exact;
    exact, there := FirstConversion(v, big, small);
    ScaledError(v, exact, there, big, small);
  }

  /** The first conversion lands within half a step of the exact image, which
      the ratio of the factors maps back to the start value. */
  lemma FirstConversion(v: real, big: LengthUnit, small: LengthUnit) returns (exact: real, there: real)
    requires small.FactorToInches() < big.FactorToInches()
    requires -1000000000.0 <= v <= 1000000000.0
    ensures Convert(Finite(v), Some(big), Some(small)) == Success(there)
    ensures exact * Ratio(small, big) == v
    ensures -HALF_STEP <= there - exact <= HALF_STEP
    ensures -100000000001.0 <= there <= 100000000001.0
  {
    exact := small.FromBaseInches(big.ToBaseInches(v));
    ExactScalesBack(v, exact, big, small);
    ExactInRange(v, big, small);
    ConvertError(v, big, small);
    there := Convert(Finite(v), Some(big), Some(small)).value;
  }

  /** The way back: the conversion lands within half a step of the value scaled
      by the ratio of the factors. */
  lemma ReturnLeg(there: real, big: LengthUnit, small: LengthUnit) returns (back: real)
    requires small.FactorToInches() < big.FactorToInches()
    requires -100000000001.0 <= there <= 100000000001.0
    ensures Convert(Finite(there), Some(small), Some(big)) == Success(back)
    ensures -HALF_STEP <= back - there * Ratio(small, big) <= HALF_STEP
  {
    BackInRange(there, big, small);
    ConvertError(there, small, big);
    back := Convert(Finite(there), Some(small), Some(big)).value;
    BackIsScaled(there, big, small);
  }

  /** Converting back multiplies by the ratio of the factors. */
  lemma BackIsScaled(there: real, big: LengthUnit, small: LengthUnit)
    ensures big.FromBaseInches(small.ToBaseInches(there)) == there * Ratio(small, big)
  {
    RatioArithmetic(there, there, big.FactorToInches(), small.FactorToInches());
  }

  /** The ratio of the factors undoes the way out exactly. */
  lemma ExactScalesBack(v: real, exact: real, big: LengthUnit, small: LengthUnit)
    requires exact == small.FromBaseInches(big.ToBaseInches(v))
    ensures exact * Ratio(small, big) == v
  {
    RatioArithmetic(v, v, big.FactorToInches(), small.FactorToInches());
  }

  lemma RatioArithmetic(v: real, there: real, fb: real, fs: real)
    requires fb > 0.0 && fs > 0.0
    ensures there * fs / fb == there * (fs / fb)
    ensures v * fb / fs * (fs / fb) == v
  {
    assert v * fb / fs * (fs / fb) == v * (fb / fs * (fs / fb));
    assert fb / fs * (fs / fb) == 1.0;
  }

  /** An error of at most half a step on the exact image `exact` of `v`, scaled
      back by the ratio of a smaller to a bigger unit, is strictly less than
      half a step. */
  lemma ScaledError(v: real, exact: real, there: real, big: LengthUnit, small: LengthUnit)
    requires small.FactorToInches() < big.FactorToInches()
    requires exact * Ratio(small, big) == v
    requires -HALF_STEP <= there - exact <= HALF_STEP
    ensures -HALF_STEP < there * Ratio(small, big) - v < HALF_STEP
  {
    var k := Ratio(small, big);
    var err := there - exact;
    assert there * k - v == err * k;
    ScaledErrorBound(err, k);
  }

  /** An error of at most half a step, scaled down by a factor below one, is
      strictly less than half a step. */
  lemma ScaledErrorBound(err: real, k: real)
    requires -HALF_STEP <= err <= HALF_STEP && 0.0 < k < 1.0
    ensures -HALF_STEP < err * k < HALF_STEP
  {
    if err >= 0.0 {
      assert err * k <= HALF_STEP * k;
    } else {
      assert err * k >= -HALF_STEP * k;
    }
  }

  /** For start values up to a billion, the first conversion does not saturate. */
  lemma ExactInRange(v: real, big: LengthUnit, small: LengthUnit)
    requires small.FactorToInches() < big.FactorToInches()
    requires -1000000000.0 <= v <= 1000000000.0
    ensures -100000000000.0 <= small.FromBaseInches(big.ToBaseInches(v)) <= 100000000000.0
    ensures InRoundRange(small.FromBaseInches(big.ToBaseInches(v)) * 1000000.0)
  {
    var x := small.FromBaseInches(big.ToBaseInches(v));
    assert x == v * (big.FactorToInches() / small.FactorToInches());
    var ratio := big.FactorToInches() / small.FactorToInches();
    assert 0.0 < ratio <= 100.0;
    if v >= 0.0 {
      assert v * ratio <= 1000000000.0 * ratio;
    } else {
      assert v * ratio >= -1000000000.0 * ratio;
    }
  }

  /** The converted value, converted back, does not saturate either. */
  lemma BackInRange(there: real, big: LengthUnit, small: LengthUnit)
    requires small.FactorToInches() < big.FactorToInches()
    requires -100000000001.0 <= there <= 100000000001.0
    ensures InRoundRange(big.FromBaseInches(small.ToBaseInches(there)) * 1000000.0)
  {
    var ratio := small.FactorToInches() / big.FactorToInches();
    assert big.FromBaseInches(small.ToBaseInches(there)) == there * ratio;
    assert 0.0 < ratio < 1.0;
    if there >= 0.0 {
      assert there * ratio <= there;
    } else {
      assert there * ratio >= there;
    }
  }

  /** The test suite's round trip: inches to centimetres and back. */
  lemma InchCentimeterRoundTrip(v: real)
    requires -1000000000.0 <= v <= 1000000000.0
    ensures Convert(Finite(v), Some(INCH), Some(CENTIMETER)).Success?
    ensures var cm := Convert(Finite(v), Some(INCH), Some(CENTIMETER)).value;
            AlmostEqual(v, Convert(Finite(cm), Some(CENTIMETER), Some(INCH)).value)
  {
    var cm, back := RoundTripToSmallerUnit(v, INCH, CENTIMETER);
  }

  /** Conversions from the test suite: six feet are two yards, three yards
      are nine feet. */
  lemma ConvertFeetAndYards()
    ensures Convert(Finite(6.0), Some(FOOT), Some(YARD)) == Success(2.0)
    ensures Convert(Finite(3.0), Some(YARD), Some(FOOT)) == Success(9.0)
  {
    assert YARD.FromBaseInches(FOOT.ToBaseInches(6.0)) == 2.0;
    assert Round(2000000.0) == 2000000;
    assert FOOT.FromBaseInches(YARD.ToBaseInches(3.0)) == 9.0;
    assert Round(9000000.0) == 9000000;
  }

  /** A centimetre is 0.393701 inches once rounded, and a conversion to the
      same unit returns the value untouched. */
  lemma ConvertCentimeterAndSameUnit()
    ensures Convert(Finite(1.0), Some(CENTIMETER), Some(INCH)) == Success(0.393701)
    ensures Convert(Finite(7.25), Some(INCH), Some(INCH)) == Success(7.25)
  {
    assert INCH.FromBaseInches(CENTIMETER.ToBaseInches(1.0)) == 0.3937007874;
    assert Round(393700.7874) == 393701;
  }

  /** Converting to a larger unit first need not come back almost equal: one
      centimetre becomes 0.393701 inches, which comes back as 1.000001
      centimetres, a whole millionth away. */
  lemma LargerUnitFirstRoundTripDrifts()
    ensures Convert(Finite(1.0), Some(CENTIMETER), Some(INCH)) == Success(0.393701)
    ensures Convert(Finite(0.393701), Some(INCH), Some(CENTIMETER)) == Success(1.000001)
    ensures !AlmostEqual(1.0, 1.000001)
  {
    ConvertCentimeterAndSameUnit();
    var exact := CENTIMETER.FromBaseInches(INCH.ToBaseInches(0.393701));
    assert exact * 393700.7874 == 393701.0;
    assert 1000000.5 <= exact * 1000000.0 < 1000001.0;
    assert Round(exact * 1000000.0) == 1000001;
  }

  /** Invalid arguments from the test suite, all refused with IllegalArgumentException. */
  lemma ConvertRefusals()
    ensures Convert(NaN, Some(FOOT), Some(INCH)).error.IllegalArgumentException?
    ensures Convert(PositiveInfinity, Some(FOOT), Some(INCH)).error.IllegalArgumentException?
    ensures Convert(Finite(1.0), None, Some(INCH)).error.IllegalArgumentException?
    ensures Convert(Finite(1.0), Some(FOOT), None).error.IllegalArgumentException?
    ensures Convert(NaN, None, None) == Failure(IllegalArgumentException("Units cannot be null"))
  {
  }
}
