/** The early, single-unit inch value: a raw double with exact equality, kept
    apart from the general length type. */
module InchesValue {
  import opened Lang
  import opened JavaText
  import LengthUnits

  /** An inch measurement. The constructor stores whatever double it is
      given, NaN and the infinities included. */
  datatype Inches = Inches(value: Double)
  {
    /** `getValue()`: the stored double, as given. */
    function GetValue(): (d: Double)
      ensures Inches(d) == this
    {
      value
    }

    /** `equals(obj)`: true for the receiver itself, false for null or another
        class, and otherwise true exactly when `Double.compare` puts the two
        values in the same place. */
    function Equals(obj: ObjectRef<Inches>): (b: bool)
      ensures obj.SelfRef? ==> b
      ensures obj.NullRef? || obj.ForeignRef? ==> !b
      ensures obj.Ref? ==> (b <==> value == obj.target.value)
    {
      match obj
      case SelfRef => true
      case NullRef => false
      case ForeignRef => false
      case Ref(other) => Compare(value, other.value) == 0
    }

    /** `hashCode()`: `Double.hashCode(value)`, which is the long hash of the
        value's bit pattern; `doubleToLongBits` supplies that bit pattern. */
    function HashCode(doubleToLongBits: Double -> Long): (h: int)
      ensures -0x8000_0000 <= h < 0x8000_0000
    {
      LongHashCode(doubleToLongBits(value))
    }

    /** `toString()`: `valueText` (the `Double.toString` rendering of the value)
        followed by `" in"`. */
    function ToString(valueText: string): (s: string)
      ensures |s| == |valueText| + 3 && s[..|valueText|] == valueText
      ensures s[|valueText|..] == " in"
    {
      valueText + " in"
    }
  }

  /** Equality is exactly equality of the stored doubles: `equals` on two
      instances agrees with structural equality both ways. */
  lemma EqualsIffSameValue(a: Inches, b: Inches)
    ensures a.Equals(Ref(b)) <==> a == b
  {
  }

  /** `equals` is reflexive, NaN included, and the same-reference shortcut
      agrees with the comparison it skips. */
  lemma EqualsReflexive(a: Inches)
    ensures a.Equals(SelfRef) && a.Equals(Ref(a))
  {
  }

  /** `equals` is symmetric and transitive. */
  lemma EqualsSymmetricTransitive(a: Inches, b: Inches, c: Inches)
    ensures a.Equals(Ref(b)) == b.Equals(Ref(a))
    ensures a.Equals(Ref(b)) && b.Equals(Ref(c)) ==> a.Equals(Ref(c))
  {
  }

  /** Equal instances hash alike, whatever the bit pattern of a double is. */
  lemma EqualsImpliesSameHash(a: Inches, b: Inches, doubleToLongBits: Double -> Long)
    requires a.Equals(Ref(b))
    ensures a.HashCode(doubleToLongBits) == b.HashCode(doubleToLongBits)
  {
    EqualsIffSameValue(a, b);
  }

  /** The unit text that `toString` appends parses, with the general length
      parser, to the inch. */
  lemma ToStringSuffixIsInch(a: Inches, valueText: string)
    ensures LengthUnits.Of(Some(a.ToString(valueText)[|valueText|..])) == Success(LengthUnits.INCH)
  {
    InNormalised();
    LengthUnits.OfViaAlias(" in", "in", LengthUnits.INCH);
  }

  /** `" in"` trims and lower-cases to `"in"`, an alias of the inch. */
  lemma InNormalised()
    ensures ToLower(Trim(" in")) == "in"
    ensures LengthUnits.Alias("in") == Some(LengthUnits.INCH)
  {
    assert TrimStart(" in") == "in";
    assert TrimEnd("in") == "in";
    assert ToLower("in") == "in";
  }

  /** Values from the test suite: equal values are equal, different values,
      null and another class are not, and a value is equal to itself. */
  lemma EqualityExamples()
    ensures Inches(Finite(1.0)).Equals(Ref(Inches(Finite(1.0))))
    ensures !Inches(Finite(1.0)).Equals(Ref(Inches(Finite(2.0))))
    ensures !Inches(Finite(1.0)).Equals(NullRef)
    ensures !Inches(Finite(1.0)).Equals(ForeignRef)
    ensures Inches(Finite(2.5)).Equals(SelfRef)
  {
  }
}
