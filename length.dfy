/** The immutable length value: a finite value tagged with a length unit.
    Every operation returns a new length or throws; equality is tolerant, up to
    a millionth of an inch. */
module Lengths {
  import opened Lang
  import opened JavaText
  import opened LengthUnits

  /** Tolerance of equality, in inches. */
  const EPS: real := 0.000001

  /** A length. The value is finite and the unit present: `New` refuses anything else. */
  datatype Length = Length(value: real, unit: LengthUnit)
  {
    /** `toBaseInches()`: this length in inches. */
    function ToBaseInches(): (inches: real)
      ensures inches > 0.0 <==> value > 0.0
      ensures unit.IsBase() ==> inches == value
    {
      unit.ToBaseInches(value)
    }

    /** `convertTo(to)`: the same length expressed in `to`. A null target is
        refused; the receiver's own unit returns the receiver. */
    function ConvertTo(to: Option<LengthUnit>): (r: Result<Length>)
      ensures to.None? ==> r == Failure(IllegalArgumentException("Target unit must not be null"))
      ensures to.Some? ==> r.Success? && r.value.unit == to.value
      ensures to.Some? ==> r.value.ToBaseInches() == ToBaseInches()
      ensures to == Some(unit) ==> r == Success(this)
    {
      match to
      case None => Failure(IllegalArgumentException("Target unit must not be null"))
      case Some(target) =>
        if unit == target then Success(this)
        else
          var targetValue := target.FromBaseInches(ToBaseInches());
          ToBaseAfterFromBase(target, ToBaseInches());
          New(Finite(targetValue), to)
    }

    /** `sameAs(other)`: tolerant equality that answers false for null. */
    function SameAs(other: Option<Length>): (b: bool)
      ensures other.None? ==> !b
      ensures other.Some? ==> (b <==> Equals(Ref(other.value)))
    {
      match other
      case None => false
      case Some(o) => Abs(ToBaseInches() - o.ToBaseInches()) < EPS
    }

    /** `add(other)`: the sum, expressed in the receiver's unit. A null operand
        is refused with IllegalArgumentException. */
    function Add(other: Option<Length>): (r: Result<Length>)
      ensures other.None? ==> r == Failure(IllegalArgumentException("Second operand (Length) must not be null"))
      ensures other.Some? ==> r.Success? && r.value.unit == unit
      ensures other.Some? ==> r.value.ToBaseInches() == ToBaseInches() + other.value.ToBaseInches()
    {
      match other
      case None => Failure(IllegalArgumentException("Second operand (Length) must not be null"))
      case Some(o) =>
        var sumInches := ToBaseInches() + o.ToBaseInches();
        ToBaseAfterFromBase(unit, sumInches);
        New(Finite(unit.FromBaseInches(sumInches)), Some(unit))
    }

    /** `add(other, targetUnit)`: the sum, expressed in `targetUnit`. A null
        operand is refused first, then a null target, both with
        IllegalArgumentException. */
    function AddTo(other: Option<Length>, targetUnit: Option<LengthUnit>): (r: Result<Length>)
      ensures other.None? ==> r == Failure(IllegalArgumentException("Second operand (Length) must not be null"))
      ensures other.Some? && targetUnit.None? ==> r == Failure(IllegalArgumentException("Target unit must not be null"))
      ensures other.Some? && targetUnit.Some? ==> r.Success? && r.value.unit == targetUnit.value
      ensures other.Some? && targetUnit.Some? ==> r.value.ToBaseInches() == ToBaseInches() + other.value.ToBaseInches()
    {
      match other
      case None => Failure(IllegalArgumentException("Second operand (Length) must not be null"))
      case Some(o) =>
        match targetUnit
        case None => Failure(IllegalArgumentException("Target unit must not be null"))
        case Some(target) =>
          var baseSum := ToBaseInches() + o.ToBaseInches();
          ToBaseAfterFromBase(target, baseSum);
          New(Finite(target.FromBaseInches(baseSum)), targetUnit)
    }

    /** `equals(obj)`: true for the receiver itself, false for null or another
        class, and otherwise true when the two lengths are less than `EPS`
        inches apart. */
    function Equals(obj: ObjectRef<Length>): (b: bool)
      ensures obj.SelfRef? ==> b
      ensures obj.NullRef? || obj.ForeignRef? ==> !b
      ensures obj.Ref? ==> (b <==> -EPS < ToBaseInches() - obj.target.ToBaseInches() < EPS)
    {
      match obj
      case SelfRef => true
      case NullRef => false
      case ForeignRef => false
      case Ref(other) => Abs(ToBaseInches() - other.ToBaseInches()) < EPS
    }

    /** `hashCode()`: the long hash of the length in millionths of an inch,
        rounded. A key in the range of an int hashes to itself when it is not
        negative and to its complement `-1 - key` when it is. */
    function HashCode(): (h: int)
      ensures -0x8000_0000 <= h < 0x8000_0000
      ensures 0 <= HashKey() < 0x8000_0000 ==> h == HashKey()
      ensures -0x8000_0000 <= HashKey() < 0 ==> h == -1 - HashKey()
    {
      LongHashCodeOfIntRange(HashKey());
      LongHashCodeOfNegativeIntRange(HashKey());
      LongHashCode(HashKey())
    }

    /** What `hashCode()` hashes: the length in millionths of an inch,
        rounded to the nearest whole number, or the end of the long range it
        lies beyond. */
    function HashKey(): (k: Long)
      ensures InRoundRange(ToBaseInches() * 1000000.0) ==>
                ToBaseInches() * 1000000.0 - 0.5 < k as real <= ToBaseInches() * 1000000.0 + 0.5
      ensures !InRoundRange(ToBaseInches() * 1000000.0) ==> k == LONG_MIN || k == LONG_MAX
    {
      Round(ToBaseInches() * 1000000.0)
    }

    /** `toString()`: `valueText` (the `Double.toString` rendering of the value)
        followed by a blank and the unit's identifier in lower case. */
    function ToString(valueText: string): (s: string)
      ensures s == valueText + " " + ToLower(unit.Name())
      ensures |s| > |valueText| && s[..|valueText|] == valueText
      ensures Of(Some(s[|valueText|..])) == Success(unit.Canonical())
    {
      var suffix := " " + ToLower(unit.Name());
      var s := valueText + suffix;
      assert s[|valueText|..] == suffix;
      ToStringSuffixParses(unit);
      s
    }
  }

  /** `new Length(value, unit)`: a null unit is refused with
      NullPointerException, then a NaN or infinite value with
      IllegalArgumentException; otherwise the value and unit are kept as given. */
  function New(value: Double, unit: Option<LengthUnit>): (r: Result<Length>)
    ensures unit.None? ==> r == Failure(NullPointerException("Unit must not be null"))
    ensures unit.Some? && value.IsNaNOrInfinite() ==> r == Failure(IllegalArgumentException("Value must be a finite number"))
    ensures unit.Some? && value.Finite? ==> r == Success(Length(value.r, unit.value))
  {
    match unit
    case None => Failure(NullPointerException("Unit must not be null"))
    case Some(u) =>
      if value.IsNaNOrInfinite() then Failure(IllegalArgumentException("Value must be a finite number"))
      else Success(Length(value.r, u))
  }

  /** The unit part of `toString` parses back to the singular name of the unit. */
  lemma ToStringSuffixParses(u: LengthUnit)
    ensures Of(Some(" " + ToLower(u.Name()))) == Success(u.Canonical())
  {
    var lower := ToLower(u.Name());
    LowerNameIsLowerLetters(u);
    TrimLeadingBlank(lower);
    AliasOfLowerName(u);
  }

  /** The identifier in lower case is made of lower-case letters, which
      lower-casing again leaves alone. */
  lemma LowerNameIsLowerLetters(u: LengthUnit)
    ensures |ToLower(u.Name())| > 0
    ensures forall i :: 0 <= i < |ToLower(u.Name())| ==> 'a' <= ToLower(u.Name())[i] <= 'z'
    ensures ToLower(ToLower(u.Name())) == ToLower(u.Name())
  {
    var lower := ToLower(u.Name());
    forall i | 0 <= i < |lower| ensures LowerChar(lower[i]) == lower[i] {
      assert 'a' <= lower[i] <= 'z';
    }
  }

  /** Trimming a blank followed by lower-case letters leaves the letters. */
  lemma TrimLeadingBlank(t: string)
    requires |t| > 0
    requires forall i :: 0 <= i < |t| ==> 'a' <= t[i] <= 'z'
    ensures Trim(" " + t) == t
  {
    assert (" " + t)[1..] == t;
    assert TrimStart(" " + t) == t;
  }

  /** Two lengths in one unit with the same size in inches are the same length. */
  lemma SameUnitSameBase(a: Length, b: Length)
    requires a.unit == b.unit && a.ToBaseInches() == b.ToBaseInches()
    ensures a == b
  {
    ToBaseInjective(a.unit, a.value, b.value);
  }

  /** Converting to any unit and back to the original unit gives the original
      length exactly. */
  lemma ConvertRoundTrip(q: Length, u: LengthUnit)
    ensures q.ConvertTo(Some(u)).Success?
    ensures q.ConvertTo(Some(u)).value.ConvertTo(Some(q.unit)) == Success(q)
  {
    var there := q.ConvertTo(Some(u)).value;
    var back := there.ConvertTo(Some(q.unit)).value;
    SameUnitSameBase(back, q);
  }

  /** A conversion is equal to the length it came from. */
  lemma ConvertPreservesEquality(q: Length, u: LengthUnit)
    ensures q.ConvertTo(Some(u)).Success?
    ensures q.Equals(Ref(q.ConvertTo(Some(u)).value))
  {
  }

  /** `equals` is reflexive, and the same-reference shortcut agrees with the
      comparison it skips. */
  lemma EqualsReflexive(q: Length)
    ensures q.Equals(SelfRef) && q.Equals(Ref(q))
  {
  }

  /** `equals` is symmetric. */
  lemma EqualsSymmetric(a: Length, b: Length)
    ensures a.Equals(Ref(b)) == b.Equals(Ref(a))
  {
  }

  /** Measure commutativity: `a.add(b)` and `b.add(a)` are equal, although one
      is in `a`'s unit and the other in `b`'s. */
  lemma AddCommutesInMeasure(a: Length, b: Length)
    ensures a.Add(Some(b)).Success? && b.Add(Some(a)).Success?
    ensures a.Add(Some(b)).value.unit == a.unit && b.Add(Some(a)).value.unit == b.unit
    ensures a.Add(Some(b)).value.Equals(Ref(b.Add(Some(a)).value))
  {
  }

  /** Adding a zero of any unit gives back the left operand, value and unit. */
  lemma AddZeroIsIdentity(a: Length, zeroUnit: LengthUnit)
    ensures a.Add(Some(Length(0.0, zeroUnit))) == Success(a)
  {
    var sum := a.Add(Some(Length(0.0, zeroUnit))).value;
    SameUnitSameBase(sum, a);
  }

  /** With an explicit target, the order of the operands does not matter at all. */
  lemma AddToSymmetric(a: Length, b: Length, target: LengthUnit)
    ensures a.AddTo(Some(b), Some(target)) == b.AddTo(Some(a), Some(target))
  {
    var ab := a.AddTo(Some(b), Some(target)).value;
    var ba := b.AddTo(Some(a), Some(target)).value;
    SameUnitSameBase(ab, ba);
  }

  /** Naming the receiver's unit as the target gives the plain `add`. */
  lemma AddToOwnUnitIsAdd(a: Length, b: Length)
    ensures a.AddTo(Some(b), Some(a.unit)) == a.Add(Some(b))
  {
    SameUnitSameBase(a.AddTo(Some(b), Some(a.unit)).value, a.Add(Some(b)).value);
  }

  /** The hash depends on the length in inches alone, so two lengths of the
      same size, such as INCH and INCHES of one value, hash alike. */
  lemma HashCodeDependsOnBase(a: Length, b: Length)
    requires a.ToBaseInches() == b.ToBaseInches()
    ensures a.HashKey() == b.HashKey()
    ensures a.HashCode() == b.HashCode()
  {
    HashCodeDependsOnKey(a, b);
  }

  /** The hash is a function of the rounded key alone, for every key: two
      lengths whose sizes round to the same millionth hash alike, even when
      their sizes differ. */
  lemma HashCodeDependsOnKey(a: Length, b: Length)
    requires a.HashKey() == b.HashKey()
    ensures a.HashCode() == b.HashCode()
  {
  }

  /** Equal lengths need not hash alike: 0.0000004 and 0.0000006 inches are
      within the tolerance but round to different millionths. */
  lemma EqualsDoesNotFixHashCode()
    ensures Length(0.0000004, INCH).Equals(Ref(Length(0.0000006, INCH)))
    ensures Length(0.0000004, INCH).HashCode() == 0
    ensures Length(0.0000006, INCH).HashCode() == 1
  {
    assert Length(0.0000004, INCH).HashKey() == 0 by {
      assert Length(0.0000004, INCH).ToBaseInches() * 1000000.0 == 0.4;
    }
    assert Length(0.0000006, INCH).HashKey() == 1 by {
      assert Length(0.0000006, INCH).ToBaseInches() * 1000000.0 == 0.6;
    }
  }

  /** Tolerant equality is not transitive: each step of 0.0000007 inches is
      within the tolerance, the two steps together are not. */
  lemma EqualsNotTransitive()
    ensures Length(0.0, INCH).Equals(Ref(Length(0.0000007, INCH)))
    ensures Length(0.0000007, INCH).Equals(Ref(Length(0.0000014, INCH)))
    ensures !Length(0.0, INCH).Equals(Ref(Length(0.0000014, INCH)))
  {
  }

  /** Cross-unit equalities of the yard, foot, inch and centimeter tests. */
  lemma CrossUnitEqualities()
    ensures Length(1.0, YARD).Equals(Ref(Length(3.0, FOOT)))
    ensures Length(3.0, FOOT).Equals(Ref(Length(36.0, INCH)))
    ensures Length(1.0, YARD).Equals(Ref(Length(36.0, INCH)))
    ensures Length(1.0, CENTIMETER).Equals(Ref(Length(0.393701, INCH)))
    ensures !Length(1.0, YARD).Equals(Ref(Length(2.0, FOOT)))
    ensures !Length(1.0, CENTIMETER).Equals(Ref(Length(1.0, FOOT)))
  {
  }

  /** `sameAs` across units, from the helper's own test. */
  lemma SameAsExamples()
    ensures Length(1.0, FEET).SameAs(Some(Length(12.0, INCH)))
    ensures !Length(1.0, FEET).SameAs(Some(Length(11.9, INCH)))
  {
  }

  /** Additions from the test suite, result in the receiver's unit. */
  lemma AdditionExamples()
    ensures Length(1.0, FEET).Add(Some(Length(12.0, INCHES))) == Success(Length(2.0, FEET))
    ensures Length(12.0, INCHES).Add(Some(Length(1.0, FEET))) == Success(Length(24.0, INCHES))
    ensures Length(5.0, FEET).Add(Some(Length(0.0, INCHES))) == Success(Length(5.0, FEET))
    ensures Length(5.0, FEET).Add(Some(Length(-2.0, FEET))) == Success(Length(3.0, FEET))
  {
    SameUnitSameBase(Length(1.0, FEET).Add(Some(Length(12.0, INCHES))).value, Length(2.0, FEET));
    SameUnitSameBase(Length(12.0, INCHES).Add(Some(Length(1.0, FEET))).value, Length(24.0, INCHES));
    AddZeroIsIdentity(Length(5.0, FEET), INCHES);
    SameUnitSameBase(Length(5.0, FEET).Add(Some(Length(-2.0, FEET))).value, Length(3.0, FEET));
  }

  /** An addition with an explicit target from the test suite: 2 yd + 3 ft in feet. */
  lemma ExplicitTargetExample()
    ensures Length(2.0, YARD).AddTo(Some(Length(3.0, FEET)), Some(FEET)) == Success(Length(9.0, FEET))
  {
    SameUnitSameBase(Length(2.0, YARD).AddTo(Some(Length(3.0, FEET)), Some(FEET)).value, Length(9.0, FEET));
  }

  /** Construction refuses a missing unit and a non-finite value with different
      exceptions, the unit being checked first. */
  lemma ConstructionErrors()
    ensures New(NaN, None).Failure? && New(NaN, None).error.NullPointerException?
    ensures New(NaN, Some(FOOT)).Failure? && New(NaN, Some(FOOT)).error.IllegalArgumentException?
    ensures New(PositiveInfinity, Some(FOOT)).error.IllegalArgumentException?
    ensures New(NegativeInfinity, Some(INCHES)).error.IllegalArgumentException?
  {
  }
}
