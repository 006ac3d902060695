/** The immutable weight value: a finite value tagged with a weight unit.
    Every operation returns a new weight or throws; equality is tolerant, up to
    a millionth of a kilogram. */
module Weights {
  import opened Lang
  import opened JavaText
  import opened WeightUnits

  /** Tolerance of equality, in kilograms. */
  const EPS: real := 0.000001

  /** A weight. The value is finite and the unit present: `New` refuses anything else. */
  datatype Weight = Weight(value: real, unit: WeightUnit)
  {
    /** `toBaseKg()`: this weight in kilograms. */
    function ToBaseKg(): (kg: real)
      ensures kg > 0.0 <==> value > 0.0
      ensures unit == KILOGRAM ==> kg == value
    {
      unit.ToBase(value)
    }

    /** `convertTo(targetUnit)`: the same weight expressed in `targetUnit`. A
        null target is refused; there is no shortcut for the receiver's own
        unit, the value always goes through kilograms. */
    function ConvertTo(targetUnit: Option<WeightUnit>): (r: Result<Weight>)
      ensures targetUnit.None? ==> r == Failure(IllegalArgumentException("Target unit cannot be null"))
      ensures targetUnit.Some? ==> r.Success? && r.value.unit == targetUnit.value
      ensures targetUnit.Some? ==> r.value.ToBaseKg() == ToBaseKg()
    {
      match targetUnit
      case None => Failure(IllegalArgumentException("Target unit cannot be null"))
      case Some(target) =>
        var base := ToBaseKg();
        ToBaseAfterFromBase(target, base);
        New(Finite(target.FromBase(base)), targetUnit)
    }

    /** `add(other)`: the sum, expressed in the receiver's unit. A null operand
        is refused with NullPointerException. */
    function Add(other: Option<Weight>): (r: Result<Weight>)
      ensures other.None? ==> r == Failure(NullPointerException("Other weight cannot be null"))
      ensures other.Some? ==> r.Success? && r.value.unit == unit
      ensures other.Some? ==> r.value.ToBaseKg() == ToBaseKg() + other.value.ToBaseKg()
    {
      match other
      case None => Failure(NullPointerException("Other weight cannot be null"))
      case Some(o) =>
        var sumBase := ToBaseKg() + o.ToBaseKg();
        ToBaseAfterFromBase(unit, sumBase);
        New(Finite(unit.FromBase(sumBase)), Some(unit))
    }

    /** `add(other, targetUnit)`: the sum, expressed in `targetUnit`. A null
        operand is refused first, with NullPointerException, then a null
        target, with IllegalArgumentException. */
    function AddTo(other: Option<Weight>, targetUnit: Option<WeightUnit>): (r: Result<Weight>)
      ensures other.None? ==> r == Failure(NullPointerException("Other weight cannot be null"))
      ensures other.Some? && targetUnit.None? ==> r == Failure(IllegalArgumentException("Target unit cannot be null"))
      ensures other.Some? && targetUnit.Some? ==> r.Success? && r.value.unit == targetUnit.value
      ensures other.Some? && targetUnit.Some? ==> r.value.ToBaseKg() == ToBaseKg() + other.value.ToBaseKg()
    {
      match other
      case None => Failure(NullPointerException("Other weight cannot be null"))
      case Some(o) =>
        match targetUnit
        case None => Failure(IllegalArgumentException("Target unit cannot be null"))
        case Some(target) =>
          var sumBase := ToBaseKg() + o.ToBaseKg();
          ToBaseAfterFromBase(target, sumBase);
          New(Finite(target.FromBase(sumBase)), targetUnit)
    }

    /** `equals(obj)`: true for the receiver itself, false for null or another
        class, and otherwise true when the two weights are less than `EPS`
        kilograms apart. */
    function Equals(obj: ObjectRef<Weight>): (b: bool)
      ensures obj.SelfRef? ==> b
      ensures obj.NullRef? || obj.ForeignRef? ==> !b
      ensures obj.Ref? ==> (b <==> -EPS < ToBaseKg() - obj.target.ToBaseKg() < EPS)
    {
      match obj
      case SelfRef => true
      case NullRef => false
      case ForeignRef => false
      case Ref(other) => Abs(ToBaseKg() - other.ToBaseKg()) < EPS
    }

    /** `hashCode()`: the long hash of the weight in millionths of a
        kilogram, rounded. A key in the non-negative range of an int is its
        own hash. */
    function HashCode(): (h: int)
      ensures -0x8000_0000 <= h < 0x8000_0000
      ensures 0 <= HashKey() < 0x8000_0000 ==> h == HashKey()
      ensures -0x8000_0000 <= HashKey() < 0 ==> h == -1 - HashKey()
    {
      LongHashCodeOfIntRange(HashKey());
      LongHashCodeOfNegativeIntRange(HashKey());
      LongHashCode(HashKey())
    }

    /** What `hashCode()` hashes: the weight in millionths of a kilogram,
        rounded to the nearest whole number, or the end of the long range it
        lies beyond. */
    function HashKey(): (k: Long)
      ensures InRoundRange(ToBaseKg() * 1000000.0) ==>
                ToBaseKg() * 1000000.0 - 0.5 < k as real <= ToBaseKg() * 1000000.0 + 0.5
      ensures !InRoundRange(ToBaseKg() * 1000000.0) ==> k == LONG_MIN || k == LONG_MAX
    {
      Round(ToBaseKg() * 1000000.0)
    }

    /** `toString()`: `valueText` (the `Double.toString` rendering of the value)
        followed by a blank and the unit's identifier in lower case. */
    function ToString(valueText: string): (s: string)
      ensures s == valueText + UnitSuffix(unit)
    {
      valueText + " " + ToLower(unit.Name())
    }
  }

  /** The part of `toString` after the value: a blank and the unit's
      identifier in lower case. */
  function UnitSuffix(u: WeightUnit): (s: string)
    ensures |s| > 1 && s[0] == ' '
    ensures forall i :: 1 <= i < |s| ==> 'a' <= s[i] <= 'z'
  {
    var lower := ToLower(u.Name());
    assert forall i :: 0 <= i < |lower| ==> 'a' <= lower[i] <= 'z';
    " " + lower
  }

  /** `new Weight(value, unit)`: a null unit is refused, then a NaN or
      infinite value, both with IllegalArgumentException; otherwise the value
      and unit are kept as given. */
  function New(value: Double, unit: Option<WeightUnit>): (r: Result<Weight>)
    ensures unit.None? ==> r == Failure(IllegalArgumentException("Unit cannot be null"))
    ensures unit.Some? && value.IsNaNOrInfinite() ==> r == Failure(IllegalArgumentException("Invalid numeric value"))
    ensures unit.Some? && value.Finite? ==> r == Success(Weight(value.r, unit.value))
  {
    match unit
    case None => Failure(IllegalArgumentException("Unit cannot be null"))
    case Some(u) =>
      if value.IsNaNOrInfinite() then Failure(IllegalArgumentException("Invalid numeric value"))
      else Success(Weight(value.r, u))
  }

  /** Two weights in one unit with the same size in kilograms are the same weight. */
  lemma SameUnitSameBase(a: Weight, b: Weight)
    requires a.unit == b.unit && a.ToBaseKg() == b.ToBaseKg()
    ensures a == b
  {
    ToBaseInjective(a.unit, a.value, b.value);
  }

  /** Converting to the receiver's own unit gives the receiver back, although
      the value makes the trip through kilograms. */
  lemma ConvertToOwnUnit(w: Weight)
    ensures w.ConvertTo(Some(w.unit)) == Success(w)
  {
    SameUnitSameBase(w.ConvertTo(Some(w.unit)).value, w);
  }

  /** Converting to any unit and back to the original unit gives the original
      weight exactly. */
  lemma ConvertRoundTrip(w: Weight, u: WeightUnit)
    ensures w.ConvertTo(Some(u)).Success?
    ensures w.ConvertTo(Some(u)).value.ConvertTo(Some(w.unit)) == Success(w)
  {
    var there := w.ConvertTo(Some(u)).value;
    SameUnitSameBase(there.ConvertTo(Some(w.unit)).value, w);
  }

  /** A conversion is equal to the weight it came from. */
  lemma ConvertPreservesEquality(w: Weight, u: WeightUnit)
    ensures w.ConvertTo(Some(u)).Success?
    ensures w.Equals(Ref(w.ConvertTo(Some(u)).value))
  {
  }

  /** `equals` is reflexive, and the same-reference shortcut agrees with the
      comparison it skips. */
  lemma EqualsReflexive(w: Weight)
    ensures w.Equals(SelfRef) && w.Equals(Ref(w))
  {
  }

  /** `equals` is symmetric. */
  lemma EqualsSymmetric(a: Weight, b: Weight)
    ensures a.Equals(Ref(b)) == b.Equals(Ref(a))
  {
  }

  /** Measure commutativity: `a.add(b)` and `b.add(a)` are equal, although one
      is in `a`'s unit and the other in `b`'s. */
  lemma AddCommutesInMeasure(a: Weight, b: Weight)
    ensures a.Add(Some(b)).Success? && b.Add(Some(a)).Success?
    ensures a.Add(Some(b)).value.unit == a.unit && b.Add(Some(a)).value.unit == b.unit
    ensures a.Add(Some(b)).value.Equals(Ref(b.Add(Some(a)).value))
  {
  }

  /** Adding a zero of any unit gives back the left operand, value and unit. */
  lemma AddZeroIsIdentity(a: Weight, zeroUnit: WeightUnit)
    ensures a.Add(Some(Weight(0.0, zeroUnit))) == Success(a)
  {
    SameUnitSameBase(a.Add(Some(Weight(0.0, zeroUnit))).value, a);
  }

  /** With an explicit target, the order of the operands does not matter at all. */
  lemma AddToSymmetric(a: Weight, b: Weight, target: WeightUnit)
    ensures a.AddTo(Some(b), Some(target)) == b.AddTo(Some(a), Some(target))
  {
    SameUnitSameBase(a.AddTo(Some(b), Some(target)).value, b.AddTo(Some(a), Some(target)).value);
  }

  /** Naming the receiver's unit as the target gives the plain `add`. */
  lemma AddToOwnUnitIsAdd(a: Weight, b: Weight)
    ensures a.AddTo(Some(b), Some(a.unit)) == a.Add(Some(b))
  {
    SameUnitSameBase(a.AddTo(Some(b), Some(a.unit)).value, a.Add(Some(b)).value);
  }

  /** The hash depends on the weight in kilograms alone. */
  lemma HashCodeDependsOnBase(a: Weight, b: Weight)
    requires a.ToBaseKg() == b.ToBaseKg()
    ensures a.HashKey() == b.HashKey()
    ensures a.HashCode() == b.HashCode()
  {
    HashCodeDependsOnKey(a, b);
  }

  /** The hash is a function of the rounded key alone, for every key: two
      weights whose sizes round to the same millionth hash alike, even when
      their sizes differ. */
  lemma HashCodeDependsOnKey(a: Weight, b: Weight)
    requires a.HashKey() == b.HashKey()
    ensures a.HashCode() == b.HashCode()
  {
  }

  /** Equal weights need not hash alike: 0.0000004 and 0.0000006 kilograms are
      within the tolerance but round to different millionths. */
  lemma EqualsDoesNotFixHashCode()
    ensures Weight(0.0000004, KILOGRAM).Equals(Ref(Weight(0.0000006, KILOGRAM)))
    ensures Weight(0.0000004, KILOGRAM).HashCode() == 0
    ensures Weight(0.0000006, KILOGRAM).HashCode() == 1
  {
    assert Weight(0.0000004, KILOGRAM).HashKey() == 0 by {
      assert Weight(0.0000004, KILOGRAM).ToBaseKg() * 1000000.0 == 0.4;
    }
    assert Weight(0.0000006, KILOGRAM).HashKey() == 1 by {
      assert Weight(0.0000006, KILOGRAM).ToBaseKg() * 1000000.0 == 0.6;
    }
  }

  /** Distinct units print distinct suffixes, so `toString` keeps the unit. */
  lemma UnitSuffixInjective(u: WeightUnit, v: WeightUnit)
    requires u != v
    ensures UnitSuffix(u) != UnitSuffix(v)
  {
    assert |UnitSuffix(u)| != |UnitSuffix(v)|;
  }

  /** Equalities from the test suite. */
  lemma EqualityExamples()
    ensures Weight(1.0, KILOGRAM).Equals(Ref(Weight(1000.0, GRAM)))
    ensures !Weight(1.0, KILOGRAM).Equals(Ref(Weight(2.0, POUND)))
  {
  }

  /** Zero grams and zero kilograms are equal. */
  lemma ZeroWeightsEqual()
    ensures Weight(0.0, GRAM).Equals(Ref(Weight(0.0, KILOGRAM)))
  {
  }

  /** Conversions and additions from the test suite. */
  lemma ArithmeticExamples()
    ensures Weight(1.0, KILOGRAM).ConvertTo(Some(GRAM)) == Success(Weight(1000.0, GRAM))
    ensures Weight(500.0, GRAM).Add(Some(Weight(1.0, POUND))) == Success(Weight(953.59237, GRAM))
    ensures Weight(1.0, KILOGRAM).AddTo(Some(Weight(1.0, POUND)), Some(GRAM)) == Success(Weight(1453.59237, GRAM))
    ensures Weight(1.0, KILOGRAM).Add(Some(Weight(500.0, GRAM))) == Success(Weight(1.5, KILOGRAM))
    ensures Weight(-1.0, KILOGRAM).AddTo(Some(Weight(500.0, GRAM)), Some(KILOGRAM)) == Success(Weight(-0.5, KILOGRAM))
  {
    SameUnitSameBase(Weight(1.0, KILOGRAM).ConvertTo(Some(GRAM)).value, Weight(1000.0, GRAM));
    SameUnitSameBase(Weight(500.0, GRAM).Add(Some(Weight(1.0, POUND))).value, Weight(953.59237, GRAM));
    SameUnitSameBase(Weight(1.0, KILOGRAM).AddTo(Some(Weight(1.0, POUND)), Some(GRAM)).value, Weight(1453.59237, GRAM));
    SameUnitSameBase(Weight(1.0, KILOGRAM).Add(Some(Weight(500.0, GRAM))).value, Weight(1.5, KILOGRAM));
    SameUnitSameBase(Weight(-1.0, KILOGRAM).AddTo(Some(Weight(500.0, GRAM)), Some(KILOGRAM)).value, Weight(-0.5, KILOGRAM));
  }

  /** Invalid arguments, with the exception each one draws: construction
      refuses both a missing unit and a non-finite value with
      IllegalArgumentException, while `add` refuses a missing operand with
      NullPointerException. */
  lemma RefusalExamples()
    ensures New(NaN, None) == Failure(IllegalArgumentException("Unit cannot be null"))
    ensures New(NaN, Some(KILOGRAM)) == Failure(IllegalArgumentException("Invalid numeric value"))
    ensures New(NegativeInfinity, Some(GRAM)).error.IllegalArgumentException?
    ensures Weight(1.0, KILOGRAM).Add(None).error.NullPointerException?
    ensures Weight(1.0, KILOGRAM).AddTo(None, None).error.NullPointerException?
    ensures Weight(1.0, KILOGRAM).AddTo(Some(Weight(1.0, GRAM)), None).error.IllegalArgumentException?
    ensures Weight(1.0, KILOGRAM).ConvertTo(None).error.IllegalArgumentException?
  {
  }
}
