/** The weight-unit enumeration: three constants, each carrying its size in
    kilograms (the base unit). */
module WeightUnits {

  /** The constants in declaration order. */
  datatype WeightUnit = KILOGRAM | GRAM | POUND
  {
    /** `factorToKg()`: how many kilograms one of this unit is. */
    function FactorToKg(): (f: real)
      ensures f > 0.0
      ensures this == KILOGRAM <==> f == 1.0
    {
      match this
      case KILOGRAM => 1.0
      case GRAM => 0.001
      case POUND => 0.45359237
    }

    /** `toBase(value)`: a value in this unit expressed in kilograms. */
    function ToBase(value: real): (kg: real)
      ensures kg > 0.0 <==> value > 0.0
      ensures kg == 0.0 <==> value == 0.0
      ensures this == KILOGRAM ==> kg == value
    {
      value * FactorToKg()
    }

    /** `fromBase(baseValue)`: a value in kilograms expressed in this unit. */
    function FromBase(baseValue: real): (value: real)
      ensures value * FactorToKg() == baseValue
      ensures this == KILOGRAM ==> value == baseValue
    {
      baseValue / FactorToKg()
    }

    /** `name()`: the constant's identifier, spelled in upper-case ASCII letters. */
    function Name(): (n: string)
      ensures |n| > 0
      ensures forall i :: 0 <= i < |n| ==> 'A' <= n[i] <= 'Z'
    {
      match this
      case KILOGRAM => "KILOGRAM"
      case GRAM => "GRAM"
      case POUND => "POUND"
    }
  }

  /** The declared factors: a gram is a thousandth of a kilogram and a pound
      is 0.45359237 kilograms. */
  lemma DeclaredFactors()
    ensures KILOGRAM.FactorToKg() == 1.0
    ensures GRAM.FactorToKg() == 0.001
    ensures POUND.FactorToKg() == 0.45359237
    ensures GRAM.FactorToKg() < POUND.FactorToKg() < KILOGRAM.FactorToKg()
  {
  }

  /** Converting to kilograms and back gives the value back. */
  lemma FromBaseAfterToBase(u: WeightUnit, value: real)
    ensures u.FromBase(u.ToBase(value)) == value
  {
    var f := u.FactorToKg();
    assert value * f / f == value;
  }

  /** Converting from kilograms and back gives the kilograms back. */
  lemma ToBaseAfterFromBase(u: WeightUnit, baseValue: real)
    ensures u.ToBase(u.FromBase(baseValue)) == baseValue
  {
    var f := u.FactorToKg();
    assert baseValue / f * f == baseValue;
  }

  /** The kilogram is the base: both conversions leave a value untouched. */
  lemma KilogramIsIdentity(value: real)
    ensures KILOGRAM.ToBase(value) == value
    ensures KILOGRAM.FromBase(value) == value
  {
  }

  /** `toBase` is additive and strictly increasing. */
  lemma ToBaseLinear(u: WeightUnit, a: real, b: real)
    ensures u.ToBase(a + b) == u.ToBase(a) + u.ToBase(b)
    ensures a < b ==> u.ToBase(a) < u.ToBase(b)
  {
    var f := u.FactorToKg();
    assert (a + b) * f == a * f + b * f;
    if a < b {
      assert (b - a) * f > 0.0;
    }
  }

  /** Two values of one unit with the same size in kilograms are the same value. */
  lemma ToBaseInjective(u: WeightUnit, a: real, b: real)
    requires u.ToBase(a) == u.ToBase(b)
    ensures a == b
  {
    FromBaseAfterToBase(u, a);
    FromBaseAfterToBase(u, b);
  }
}
