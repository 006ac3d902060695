/** The length-unit enumeration: eight constants, each carrying its size in
    inches (the base unit), a collapse of plural aliases onto singular ones, and
    a lenient parser from free text. */
module LengthUnits {
  import opened Lang
  import opened JavaText

  /** The constants in declaration order: four physical units, each under a
      singular and a plural name. */
  datatype LengthUnit = INCH | INCHES | FOOT | FEET | YARD | YARDS | CENTIMETER | CENTIMETERS
  {
    /** `factorToInches()`: how many inches one of this unit is. */
    function FactorToInches(): (f: real)
      ensures f > 0.0
    {
      match this
      case INCH | INCHES => 1.0
      case FOOT | FEET => 12.0
      case YARD | YARDS => 36.0
      case CENTIMETER | CENTIMETERS => 0.3937007874
    }

    /** `isBase()`: whether this is one of the two names of the inch. */
    function IsBase(): (b: bool)
      ensures b <==> FactorToInches() == 1.0
    {
      this == INCH || this == INCHES
    }

    /** `toBaseInches(value)`: a value in this unit expressed in inches. No
        finiteness check is made here. */
    function ToBaseInches(value: real): (inches: real)
      ensures inches > 0.0 <==> value > 0.0
      ensures inches == 0.0 <==> value == 0.0
      ensures IsBase() ==> inches == value
    {
      value * FactorToInches()
    }

    /** `fromBaseInches(inches)`: a value in inches expressed in this unit. */
    function FromBaseInches(inches: real): (value: real)
      ensures value * FactorToInches() == inches
      ensures IsBase() ==> value == inches
    {
      inches / FactorToInches()
    }

    /** `toBase(value)`, an alias of `toBaseInches`. */
    function ToBase(value: real): (inches: real)
      ensures inches == ToBaseInches(value)
    {
      ToBaseInches(value)
    }

    /** `fromBase(inches)`, an alias of `fromBaseInches`. */
    function FromBase(inches: real): (value: real)
      ensures value == FromBaseInches(inches)
    {
      FromBaseInches(inches)
    }

    /** The representatives `canonical()` picks: the singular names. */
    predicate IsCanonical() {
      this == INCH || this == FOOT || this == YARD || this == CENTIMETER
    }

    /** `canonical()`: the singular name of the same physical unit. */
    function Canonical(): (c: LengthUnit)
      ensures c.IsCanonical()
      ensures c.FactorToInches() == FactorToInches()
      ensures IsCanonical() ==> c == this
    {
      match this
      case INCH | INCHES => INCH
      case FOOT | FEET => FOOT
      case YARD | YARDS => YARD
      case CENTIMETER | CENTIMETERS => CENTIMETER
    }

    /** `isLength()`: every constant is a length unit. */
    function IsLength(): (b: bool)
      ensures b
    {
      true
    }

    /** `name()`: the constant's identifier, spelled in upper-case ASCII letters. */
    function Name(): (n: string)
      ensures |n| > 0
      ensures forall i :: 0 <= i < |n| ==> 'A' <= n[i] <= 'Z'
    {
      match this
      case INCH => "INCH"
      case INCHES => "INCHES"
      case FOOT => "FOOT"
      case FEET => "FEET"
      case YARD => "YARD"
      case YARDS => "YARDS"
      case CENTIMETER => "CENTIMETER"
      case CENTIMETERS => "CENTIMETERS"
    }
  }

  /** `LengthUnit.valueOf(name)`: the constant whose identifier is exactly `name`;
      None where Java throws. */
  function ValueOf(name: string): (r: Option<LengthUnit>)
    ensures r.Some? ==> r.value.Name() == name
    ensures forall u: LengthUnit :: u.Name() == name ==> r == Some(u)
  {
    if name == "INCH" then Some(INCH)
    else if name == "INCHES" then Some(INCHES)
    else if name == "FOOT" then Some(FOOT)
    else if name == "FEET" then Some(FEET)
    else if name == "YARD" then Some(YARD)
    else if name == "YARDS" then Some(YARDS)
    else if name == "CENTIMETER" then Some(CENTIMETER)
    else if name == "CENTIMETERS" then Some(CENTIMETERS)
    else None
  }

  /** The alias table of `of`, applied to trimmed, lower-cased text. */
  function Alias(t: string): (r: Option<LengthUnit>)
    ensures r.Some? ==> r.value.IsCanonical()
  {
    if t == "inch" || t == "inches" || t == "in" then Some(INCH)
    else if t == "foot" || t == "feet" || t == "ft" then Some(FOOT)
    else if t == "yard" || t == "yards" || t == "yd" then Some(YARD)
    else if t == "centimeter" || t == "centimeters" || t == "centimetre" || t == "centimetres"
         || t == "cm" || t == "cms" then Some(CENTIMETER)
    else None
  }

  /** Every identifier, lower-cased, is in the alias table, under its singular name. */
  lemma AliasOfLowerName(u: LengthUnit)
    ensures Alias(ToLower(u.Name())) == Some(u.Canonical())
  {
    if u.IsCanonical() {
      AliasOfLowerSingular(u);
    } else {
      AliasOfLowerPlural(u);
    }
  }

  lemma AliasOfLowerSingular(u: LengthUnit)
    requires u.IsCanonical()
    ensures Alias(ToLower(u.Name())) == Some(u)
  {
    match u
    case INCH => assert ToLower("INCH") == "inch";
    case FOOT => assert ToLower("FOOT") == "foot";
    case YARD => assert ToLower("YARD") == "yard";
    case CENTIMETER => assert ToLower("CENTIMETER") == "centimeter";
  }

  lemma AliasOfLowerPlural(u: LengthUnit)
    requires !u.IsCanonical()
    ensures Alias(ToLower(u.Name())) == Some(u.Canonical())
  {
    match u
    case INCHES => assert ToLower("INCHES") == "inches";
    case FEET => assert ToLower("FEET") == "feet";
    case YARDS => assert ToLower("YARDS") == "yards";
    case CENTIMETERS => assert ToLower("CENTIMETERS") == "centimeters";
  }

  /** Under the model's ASCII case mapping, the `valueOf(text.toUpperCase())`
      fallback of `of` can only succeed on text the alias table already
      accepts: an identifier is made of letters, so text that upper-cases to
      one has nothing to trim and lower-cases to the identifier in lower case,
      which is in the table. Java's full Unicode and locale-dependent case
      mappings do not have this property. */
  lemma FallbackNeverAdds(text: string)
    ensures ValueOf(ToUpper(text)).Some? ==> Alias(ToLower(Trim(text))).Some?
  {
    var r := ValueOf(ToUpper(text));
    if r.Some? {
      var u := r.value;
      var name := u.Name();
      assert ToUpper(text) == name;
      assert forall i :: 0 <= i < |name| ==> 'A' <= name[i] <= 'Z' by {
        match u
        case _ =>
      }
      assert |text| > 0;
      UpperLetterNotTrimmable(text[0]);
      UpperLetterNotTrimmable(text[|text| - 1]);
      assert Trim(text) == text;
      LowerOfUpper(text);
      AliasOfLowerName(u);
    }
  }

  /** `LengthUnit.of(text)`: null is refused; otherwise the trimmed, lower-cased
      text is looked up in the alias table, then the raw upper-cased text as an
      identifier; anything else is refused. With ASCII case mapping the
      fallback adds nothing, so every parsed unit is a singular name. */
  function Of(text: Option<string>): (r: Result<LengthUnit>)
    ensures text.None? ==> r == Failure(IllegalArgumentException("unit text cannot be null"))
    ensures text.Some? ==> (r.Success? <==> Alias(ToLower(Trim(text.value))).Some?)
    ensures text.Some? && r.Success? ==> r.value == Alias(ToLower(Trim(text.value))).value
    ensures text.Some? && r.Failure? ==> r.error == IllegalArgumentException("Unknown length unit: " + text.value)
    ensures r.Success? ==> r.value.IsCanonical()
  {
    match text
    case None => Failure(IllegalArgumentException("unit text cannot be null"))
    case Some(s) =>
      match Alias(ToLower(Trim(s)))
      case Some(u) => Success(u)
      case None =>
        FallbackNeverAdds(s);
        match ValueOf(ToUpper(s))
        case Some(u) => Success(u)
        case None => Failure(IllegalArgumentException("Unknown length unit: " + s))
  }

  /** Both members of an alias pair share a factor. */
  lemma AliasPairsShareFactor()
    ensures INCH.FactorToInches() == INCHES.FactorToInches() == 1.0
    ensures FOOT.FactorToInches() == FEET.FactorToInches() == 12.0
    ensures YARD.FactorToInches() == YARDS.FactorToInches() == 36.0
    ensures CENTIMETER.FactorToInches() == CENTIMETERS.FactorToInches() == 0.3937007874
  {
  }

  /** `isBase()` holds of exactly INCH and INCHES. */
  lemma BaseUnitsAreTheInch(u: LengthUnit)
    ensures u.IsBase() <==> u.Canonical() == INCH
  {
  }

  /** Converting to inches and back gives the value back. */
  lemma FromBaseAfterToBase(u: LengthUnit, value: real)
    ensures u.FromBaseInches(u.ToBaseInches(value)) == value
  {
    var f := u.FactorToInches();
    assert value * f / f == value;
  }

  /** Converting from inches and back gives the inches back. */
  lemma ToBaseAfterFromBase(u: LengthUnit, inches: real)
    ensures u.ToBaseInches(u.FromBaseInches(inches)) == inches
  {
    var f := u.FactorToInches();
    assert inches / f * f == inches;
  }

  /** `toBaseInches` is additive and strictly increasing. */
  lemma ToBaseLinear(u: LengthUnit, a: real, b: real)
    ensures u.ToBaseInches(a + b) == u.ToBaseInches(a) + u.ToBaseInches(b)
    ensures a < b ==> u.ToBaseInches(a) < u.ToBaseInches(b)
  {
    var f := u.FactorToInches();
    assert (a + b) * f == a * f + b * f;
    if a < b {
      assert (b - a) * f > 0.0;
    }
  }

  /** Two values of one unit with the same size in inches are the same value. */
  lemma ToBaseInjective(u: LengthUnit, a: real, b: real)
    requires u.ToBaseInches(a) == u.ToBaseInches(b)
    ensures a == b
  {
    FromBaseAfterToBase(u, a);
    FromBaseAfterToBase(u, b);
  }

  /** `canonical()` is idempotent and keeps the factor. */
  lemma CanonicalIdempotent(u: LengthUnit)
    ensures u.Canonical().Canonical() == u.Canonical()
    ensures u.Canonical().FactorToInches() == u.FactorToInches()
  {
  }

  /** Each plural maps to its singular and each singular to itself. */
  lemma CanonicalPairs()
    ensures INCH.Canonical() == INCHES.Canonical() == INCH
    ensures FOOT.Canonical() == FEET.Canonical() == FOOT
    ensures YARD.Canonical() == YARDS.Canonical() == YARD
    ensures CENTIMETER.Canonical() == CENTIMETERS.Canonical() == CENTIMETER
  {
  }

  /** Every parse result is its own canonical form. */
  lemma OfIsCanonical(text: Option<string>)
    ensures Of(text).Success? ==> Of(text).value.Canonical() == Of(text).value
  {
  }

  /** Text made of ASCII letters is looked up in the alias table as it is, lower-cased. */
  lemma OfLetters(s: string)
    requires |s| > 0
    requires forall i :: 0 <= i < |s| ==> 'A' <= UpperChar(s[i]) <= 'Z'
    ensures Of(Some(s)) == (if Alias(ToLower(s)).Some? then Success(Alias(ToLower(s)).value)
                            else Failure(IllegalArgumentException("Unknown length unit: " + s)))
  {
    UpperLetterNotTrimmable(s[0]);
    UpperLetterNotTrimmable(s[|s| - 1]);
    assert Trim(s) == s;
  }

  /** Every identifier parses to the singular name of its unit. */
  lemma OfName(u: LengthUnit)
    ensures Of(Some(u.Name())) == Success(u.Canonical())
  {
    OfLetters(u.Name());
    AliasOfLowerName(u);
  }

  /** Every identifier, lower-cased (as `toString` shows it), parses to the singular name of its unit. */
  lemma OfLowerName(u: LengthUnit)
    ensures Of(Some(ToLower(u.Name()))) == Success(u.Canonical())
  {
    var lower := ToLower(u.Name());
    assert forall i :: 0 <= i < |lower| ==> 'a' <= lower[i] <= 'z';
    OfLetters(lower);
    assert ToLower(lower) == lower;
    AliasOfLowerName(u);
  }

  /** Text whose trimmed, lower-cased form is in the alias table parses to
      the unit the table gives. */
  lemma OfViaAlias(s: string, t: string, u: LengthUnit)
    requires ToLower(Trim(s)) == t && Alias(t) == Some(u)
    ensures Of(Some(s)) == Success(u)
  {
  }

  /** Text whose trimmed, lower-cased form is not in the alias table is refused. */
  lemma OfRefusedOutsideAlias(s: string, t: string)
    requires ToLower(Trim(s)) == t && Alias(t).None?
    ensures Of(Some(s)) == Failure(IllegalArgumentException("Unknown length unit: " + s))
  {
  }

  /** `"cms"` is already trimmed and in lower case, and abbreviates the centimetre. */
  lemma CmsNormalised()
    ensures ToLower(Trim("cms")) == "cms"
    ensures Alias("cms") == Some(CENTIMETER)
  {
    assert Trim("cms") == "cms";
  }

  /** `" Feet "` trims and lower-cases to `"feet"`, the plural of the foot. */
  lemma FeetNormalised()
    ensures ToLower(Trim(" Feet ")) == "feet"
  {
    FeetTrimmed();
    FeetLowered();
  }

  /** `"feet"` is in the alias table, under the foot. */
  lemma FeetAlias()
    ensures Alias("feet") == Some(FOOT)
  {
  }

  lemma FeetLowered()
    ensures ToLower("Feet") == "feet"
  {
    assert ToLower("Feet") == "feet";
  }

  lemma FeetTrimmed()
    ensures Trim(" Feet ") == "Feet"
  {
    assert TrimStart(" Feet ") == "Feet ";
    assert TrimEnd("Feet ") == "Feet";
  }

  /** `"metre"` is already trimmed and in lower case, and not in the table. */
  lemma MetreNormalised()
    ensures ToLower(Trim("metre")) == "metre"
    ensures Alias("metre") == None
  {
    assert Trim("metre") == "metre";
  }

  /** An abbreviation from the parser's documentation. */
  lemma OfAbbreviation()
    ensures Of(Some("cms")) == Success(CENTIMETER)
  {
    CmsNormalised();
    OfViaAlias("cms", "cms", CENTIMETER);
  }

  /** Surrounding blanks and letter case do not matter. */
  lemma OfTrimsAndFolds()
    ensures Of(Some(" Feet ")) == Success(FOOT)
  {
    FeetNormalised();
    FeetAlias();
    OfViaAlias(" Feet ", "feet", FOOT);
  }

  /** Null text is refused with IllegalArgumentException. */
  lemma OfNull()
    ensures Of(None) == Failure(IllegalArgumentException("unit text cannot be null"))
  {
  }

  /** Unknown text is refused with IllegalArgumentException naming the text. */
  lemma OfUnknown()
    ensures Of(Some("metre")) == Failure(IllegalArgumentException("Unknown length unit: " + "metre"))
  {
    MetreNormalised();
    OfRefusedOutsideAlias("metre", "metre");
  }
}
