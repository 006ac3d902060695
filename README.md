# Quantity measurement, modelled in Dafny

This project models the core of a small Java library of physical quantities.
A *length* is a finite value tagged with one of eight length units: INCH,
FOOT, YARD and CENTIMETER, each also under a plural name. Every unit carries
its size in inches, the base unit. A *weight* is a finite value tagged with
KILOGRAM, GRAM or POUND, each carrying its size in kilograms. Both kinds of
quantity are immutable. Each can be converted to another unit and added to
another quantity, with the sum expressed in the receiver's unit or in an
explicit target unit. Two quantities are equal when their sizes in the base
unit differ by less than a millionth, and the hash code hashes that size in
millionths, rounded.

The library also has:

- a static helper that converts a raw double between two length units and
  rounds the result to six decimals;
- a lenient parser from free text to a length unit;
- an early single-unit `Inches` value with exact equality.

Every class of the core is immutable and every operation is a pure function
of its arguments, so the model is functional throughout:

- each Java class or enum is a `datatype` with member functions;
- each exception is a `Failure` of a `Result`;
- each nullable argument is an `Option`;
- the argument of `equals(Object)` is an `ObjectRef`, which tells apart null,
  the receiver itself, another instance and an object of another class.

Doubles are modelled as exact reals. Where a double can be NaN or infinite,
at construction and in `convert`, the `Double` datatype carries those cases.

The modules are:

- `Lang`: the Java semantics the core relies on. It holds `Math.round`
  saturating to the long range, `Long.hashCode`, `Double.compare` on the
  values it distinguishes, and the result, option and reference wrappers.
- `JavaText`: `String.trim`, `toLowerCase` and `toUpperCase` on ASCII text.
- `LengthUnits`, `Lengths` and `LengthConversion`: the length side.
- `WeightUnits` and `Weights`: the weight side.
- `InchesValue`: the inch value.

Two behaviours of the code are worth knowing:

- Length.java:103 and Weight.java:65 say the hash is rounded to match the
  equality tolerance. It does not make equal quantities hash alike: at the
  rounding boundaries two quantities less than a millionth apart round to
  different keys. `Lengths.EqualsDoesNotFixHashCode` and
  `Weights.EqualsDoesNotFixHashCode` exhibit it.
- The two constructors refuse a missing unit differently. `Length` throws
  `NullPointerException` (Length.java:24-26). `Weight` throws
  `IllegalArgumentException`, the same exception it throws for a non-finite
  value (Weight.java:13-15). The model keeps both.

## Model

| member | source | states |
|---|---|---|
| LengthUnits.LengthUnit.FactorToInches | src/main/java/com/quantitymeasurement/LengthUnit.java:15-28 | every unit has a positive size in inches |
| LengthUnits.LengthUnit.IsBase | src/main/java/com/quantitymeasurement/LengthUnit.java:42-44 | a unit is a base unit exactly when one of it is one inch |
| LengthUnits.BaseUnitsAreTheInch | src/main/java/com/quantitymeasurement/LengthUnit.java:42-49 | the base units are exactly the two names of the inch |
| LengthUnits.AliasPairsShareFactor | src/main/java/com/quantitymeasurement/LengthUnit.java:15-28 | both names of a unit have the declared size: 1 in, 12 in, 36 in and 0.3937007874 in |
| LengthUnits.LengthUnit.ToBaseInches | src/main/java/com/quantitymeasurement/LengthUnit.java:52-54 | conversion to inches keeps the sign and zero, and is the identity for the inch |
| LengthUnits.LengthUnit.FromBaseInches | src/main/java/com/quantitymeasurement/LengthUnit.java:57-59 | the result is the value whose size in inches is the input, and the inch keeps the input |
| LengthUnits.LengthUnit.ToBase | src/main/java/com/quantitymeasurement/LengthUnit.java:66-68 | `toBase` gives the same inches as `toBaseInches` for every value |
| LengthUnits.LengthUnit.FromBase | src/main/java/com/quantitymeasurement/LengthUnit.java:71-73 | `fromBase` gives the same value as `fromBaseInches` for every input |
| LengthUnits.FromBaseAfterToBase | src/main/java/com/quantitymeasurement/LengthUnit.java:52-59 | converting a value to inches and back gives the value back |
| LengthUnits.ToBaseAfterFromBase | src/main/java/com/quantitymeasurement/LengthUnit.java:52-59 | converting inches to a unit and back gives the inches back |
| LengthUnits.ToBaseLinear | src/main/java/com/quantitymeasurement/LengthUnit.java:52-54 | conversion to inches is additive and strictly increasing |
| LengthUnits.ToBaseInjective | src/main/java/com/quantitymeasurement/LengthUnit.java:52-54 | two values of one unit with the same size in inches are equal |
| LengthUnits.LengthUnit.Canonical | src/main/java/com/quantitymeasurement/LengthUnit.java:84-101 | the result is a singular name of the same size, and a singular name maps to itself |
| LengthUnits.CanonicalIdempotent | src/main/java/com/quantitymeasurement/LengthUnit.java:84-101 | canonicalising twice is canonicalising once |
| LengthUnits.CanonicalPairs | src/main/java/com/quantitymeasurement/LengthUnit.java:84-101 | each plural name maps to its singular partner |
| LengthUnits.LengthUnit.Name | src/main/java/com/quantitymeasurement/LengthUnit.java:15-28 | `name()` is a non-empty run of upper-case ASCII letters |
| LengthUnits.LengthUnit.IsLength | src/main/java/com/quantitymeasurement/LengthUnit.java:144-146 | every unit is a length unit |
| LengthUnits.ValueOf | src/main/java/com/quantitymeasurement/LengthUnit.java:136 | the enum lookup finds exactly the constant whose identifier is the text, and nothing for other text |
| LengthUnits.Alias | src/main/java/com/quantitymeasurement/LengthUnit.java:113-132 | the alias table only ever yields a singular name |
| LengthUnits.AliasOfLowerName | src/main/java/com/quantitymeasurement/LengthUnit.java:113-132 | every identifier in lower case is in the alias table, under its singular name |
| LengthUnits.FallbackNeverAdds | src/main/java/com/quantitymeasurement/LengthUnit.java:133-139 | under ASCII case mapping, the identifier fallback only succeeds on text the alias table already accepts |
| LengthUnits.Of | src/main/java/com/quantitymeasurement/LengthUnit.java:109-141 | null text is refused; other text parses exactly when its trimmed lower-case form is in the alias table, to that entry, and is otherwise refused with a message that names the text; with ASCII case mapping a parsed unit is always a singular name |
| LengthUnits.OfIsCanonical | src/main/java/com/quantitymeasurement/LengthUnit.java:109-141 | under ASCII case mapping the parser only returns singular names |
| LengthUnits.OfName | src/main/java/com/quantitymeasurement/LengthUnit.java:109-141 | every identifier parses to its singular name |
| LengthUnits.OfLowerName | src/main/java/com/quantitymeasurement/LengthUnit.java:109-141 | every identifier in lower case parses to its singular name |
| LengthUnits.OfLetters | src/main/java/com/quantitymeasurement/LengthUnit.java:109-141 | text made of letters parses to its lower-case form's alias table entry when there is one, and is otherwise refused with a message that names the text |
| LengthUnits.OfViaAlias | src/main/java/com/quantitymeasurement/LengthUnit.java:110-132 | text whose trimmed lower-case form is an alias parses to that alias's unit |
| LengthUnits.OfRefusedOutsideAlias | src/main/java/com/quantitymeasurement/LengthUnit.java:133-139 | text whose trimmed lower-case form is no alias is refused with "Unknown length unit: " and the text |
| LengthUnits.OfAbbreviation | src/main/java/com/quantitymeasurement/LengthUnit.java:126-132 | "cms" parses to CENTIMETER |
| LengthUnits.OfTrimsAndFolds | src/main/java/com/quantitymeasurement/LengthUnit.java:111-121 | " Feet " parses to FOOT |
| LengthUnits.OfNull | src/main/java/com/quantitymeasurement/LengthUnit.java:110 | null text is refused with IllegalArgumentException |
| LengthUnits.OfUnknown | src/main/java/com/quantitymeasurement/LengthUnit.java:133-139 | "metre" is refused, with the text in the message |
| Lengths.New | src/main/java/com/quantitymeasurement/Length.java:22-33 | a missing unit is refused with NullPointerException before the value is looked at; a NaN or infinite value is refused with IllegalArgumentException; otherwise value and unit are kept |
| Lengths.ConstructionErrors | src/main/java/com/quantitymeasurement/Length.java:22-33 | the two refusals of the constructor raise different exceptions, and the unit is checked first |
| Lengths.Length.ToBaseInches | src/main/java/com/quantitymeasurement/Length.java:49-51 | a length's size in inches is positive exactly when its value is, and is its value for the inch |
| Lengths.Length.ConvertTo | src/main/java/com/quantitymeasurement/Length.java:39-46 | a missing target is refused; otherwise the result is in the target unit and has the same size in inches; the receiver's own unit returns the receiver |
| Lengths.ConvertRoundTrip | src/main/java/com/quantitymeasurement/Length.java:39-46 | converting to any unit and back to the original unit gives the original length exactly |
| Lengths.ConvertPreservesEquality | src/main/java/com/quantitymeasurement/Length.java:39-46 | a conversion is equal to the length it came from |
| Lengths.Length.SameAs | src/main/java/com/quantitymeasurement/Length.java:54-57 | `sameAs` is false for null and otherwise agrees with `equals` |
| Lengths.Length.Add | src/main/java/com/quantitymeasurement/Length.java:60-72 | a null operand is refused with IllegalArgumentException; otherwise the sum is in the receiver's unit and its size in inches is the sum of the operands' sizes |
| Lengths.Length.AddTo | src/main/java/com/quantitymeasurement/Length.java:75-91 | a null operand is refused, then a null target, both with IllegalArgumentException; otherwise the sum is in the target unit and its size in inches is the sum of the operands' sizes |
| Lengths.AddCommutesInMeasure | src/main/java/com/quantitymeasurement/Length.java:60-72 | `a.add(b)` equals `b.add(a)`, each in its own receiver's unit |
| Lengths.AddZeroIsIdentity | src/main/java/com/quantitymeasurement/Length.java:60-72 | adding a zero of any unit gives back the receiver exactly |
| Lengths.AddToSymmetric | src/main/java/com/quantitymeasurement/Length.java:75-91 | with an explicit target, swapping the operands gives the identical result |
| Lengths.AddToOwnUnitIsAdd | src/main/java/com/quantitymeasurement/Length.java:60-91 | naming the receiver's unit as the target gives the plain `add` |
| Lengths.AdditionExamples | src/test/java/com/quantitymeasurement/LengthUC6Test.java:54-123 | 1 FEET + 12 INCHES is 2 FEET, 12 INCHES + 1 FEET is 24 INCHES, 5 FEET + 0 INCHES is 5 FEET, 5 FEET + (-2 FEET) is 3 FEET |
| Lengths.ExplicitTargetExample | src/test/java/com/quantitymeasurement/LengthUC7Test.java:61-72 | 2 YARD + 3 FEET with target FEET is 9 FEET |
| Lengths.Length.Equals | src/main/java/com/quantitymeasurement/Length.java:94-99 | true for the receiver itself, false for null or another class, otherwise true exactly when the sizes in inches are less than a millionth apart |
| Lengths.EqualsReflexive | src/main/java/com/quantitymeasurement/Length.java:94-99 | `equals` is reflexive, and the same-reference shortcut agrees with the comparison |
| Lengths.EqualsSymmetric | src/main/java/com/quantitymeasurement/Length.java:94-99 | `equals` is symmetric |
| Lengths.EqualsNotTransitive | src/main/java/com/quantitymeasurement/Length.java:94-99 | tolerant equality is not transitive: two steps of 0.0000007 inches are each equal, together not |
| Lengths.CrossUnitEqualities | src/test/java/com/quantitymeasurement/LengthUC4Test.java:28-97 | 1 yd = 3 ft = 36 in, 1 cm = 0.393701 in, 1 yd differs from 2 ft and 1 cm differs from 1 ft |
| Lengths.SameAsExamples | src/test/java/com/quantitymeasurement/LengthUC8Test.java:207-211 | 1 FEET is the same as 12 INCH and not as 11.9 INCH |
| Lengths.Length.HashKey | src/main/java/com/quantitymeasurement/Length.java:104-105 | the key is the length in millionths of an inch rounded to within a half, or an end of the long range when it lies beyond |
| Lengths.Length.HashCode | src/main/java/com/quantitymeasurement/Length.java:102-107 | the hash is an int; a key in the non-negative int range is its own hash, and a negative key in the int range hashes to its complement `-1 - key` |
| Lengths.HashCodeDependsOnBase | src/main/java/com/quantitymeasurement/Length.java:102-107 | two lengths of the same size in inches hash alike, whatever their units |
| Lengths.HashCodeDependsOnKey | src/main/java/com/quantitymeasurement/Length.java:104-106 | two lengths with the same rounded key hash alike, for every key |
| Lengths.EqualsDoesNotFixHashCode | src/main/java/com/quantitymeasurement/Length.java:94-107 | 0.0000004 in and 0.0000006 in are equal but hash to 0 and 1 |
| Lengths.Length.ToString | src/main/java/com/quantitymeasurement/Length.java:110-112 | the text is the value's rendering, a blank and the unit's identifier in lower case, and the part after the value parses back to the unit's singular name |
| Lengths.ToStringSuffixParses | src/main/java/com/quantitymeasurement/Length.java:110-112 | a blank and a lower-case identifier parse to that unit's singular name |
| LengthConversion.Round6 | src/main/java/com/quantitymeasurement/LengthConversion.java:20-22 | the rounded value is within half a millionth of the input, as long as the rounding does not saturate |
| LengthConversion.Round6Idempotent | src/main/java/com/quantitymeasurement/LengthConversion.java:20-22 | rounding a rounded value changes nothing |
| LengthConversion.AlmostEqual | src/main/java/com/quantitymeasurement/LengthConversion.java:24-26 | true exactly when the two values are less than a millionth apart |
| LengthConversion.AlmostEqualReflexiveSymmetric | src/main/java/com/quantitymeasurement/LengthConversion.java:24-26 | `almostEqual` is reflexive and symmetric |
| LengthConversion.Convert | src/main/java/com/quantitymeasurement/LengthConversion.java:6-18 | a missing unit is refused, then a NaN or infinite value, both with IllegalArgumentException; the same unit on both sides returns the value untouched; otherwise the result is the exact conversion rounded to six decimals |
| LengthConversion.ConvertError | src/main/java/com/quantitymeasurement/LengthConversion.java:6-22 | a conversion is within half a millionth of the exact converted value |
| LengthConversion.RoundTripToSmallerUnit | src/main/java/com/quantitymeasurement/LengthConversion.java:6-26 | converting to a smaller unit and back comes back almost equal to the start value |
| LengthConversion.LargerUnitFirstRoundTripDrifts | src/main/java/com/quantitymeasurement/LengthConversion.java:6-26 | 1 cm converts to 0.393701 in, which converts back to 1.000001 cm, not almost equal to 1 |
| LengthConversion.InchCentimeterRoundTrip | src/test/java/com/quantitymeasurement/LengthUC5Test.java:31-36 | inches to centimeters and back is almost equal to the start |
| LengthConversion.ConvertFeetAndYards | src/test/java/com/quantitymeasurement/LengthUC5Test.java:12-22 | 6 ft is 2 yd and 3 yd is 9 ft |
| LengthConversion.ConvertCentimeterAndSameUnit | src/test/java/com/quantitymeasurement/LengthUC5Test.java:24-43 | 1 cm is 0.393701 in, and 7.25 in converted to inches is 7.25 |
| LengthConversion.ConvertRefusals | src/test/java/com/quantitymeasurement/LengthUC5Test.java:46-55 | NaN and missing units are refused with IllegalArgumentException |
| WeightUnits.WeightUnit.FactorToKg | src/main/java/com/quantitymeasurement/WeightUnit.java:4-6 | every unit has a positive size in kilograms, and only the kilogram has size one |
| WeightUnits.DeclaredFactors | src/main/java/com/quantitymeasurement/WeightUnit.java:4-6 | a gram is 0.001 kg and a pound 0.45359237 kg, so gram < pound < kilogram |
| WeightUnits.WeightUnit.Name | src/main/java/com/quantitymeasurement/WeightUnit.java:4-6 | `name()` is a non-empty run of upper-case ASCII letters |
| WeightUnits.WeightUnit.ToBase | src/main/java/com/quantitymeasurement/WeightUnit.java:15-17 | conversion to kilograms keeps the sign and zero, and is the identity for the kilogram |
| WeightUnits.WeightUnit.FromBase | src/main/java/com/quantitymeasurement/WeightUnit.java:20-22 | the result is the value whose size in kilograms is the input, and the kilogram keeps the input |
| WeightUnits.FromBaseAfterToBase | src/main/java/com/quantitymeasurement/WeightUnit.java:15-22 | converting a value to kilograms and back gives the value back |
| WeightUnits.ToBaseAfterFromBase | src/main/java/com/quantitymeasurement/WeightUnit.java:15-22 | converting kilograms to a unit and back gives the kilograms back |
| WeightUnits.KilogramIsIdentity | src/main/java/com/quantitymeasurement/WeightUnit.java:15-22 | both conversions leave a kilogram value untouched |
| WeightUnits.ToBaseLinear | src/main/java/com/quantitymeasurement/WeightUnit.java:15-17 | conversion to kilograms is additive and strictly increasing |
| WeightUnits.ToBaseInjective | src/main/java/com/quantitymeasurement/WeightUnit.java:15-17 | two values of one unit with the same size in kilograms are equal |
| Weights.New | src/main/java/com/quantitymeasurement/Weight.java:12-19 | a missing unit is refused, then a NaN or infinite value, both with IllegalArgumentException; otherwise value and unit are kept |
| Weights.Weight.ToBaseKg | src/main/java/com/quantitymeasurement/Weight.java:22-24 | a weight's size in kilograms is positive exactly when its value is, and is its value for the kilogram |
| Weights.Weight.ConvertTo | src/main/java/com/quantitymeasurement/Weight.java:27-32 | a missing target is refused; otherwise the result is in the target unit and has the same size in kilograms |
| Weights.ConvertToOwnUnit | src/main/java/com/quantitymeasurement/Weight.java:27-32 | converting to the weight's own unit gives the weight back, although no shortcut is taken |
| Weights.ConvertRoundTrip | src/main/java/com/quantitymeasurement/Weight.java:27-32 | converting to any unit and back to the original unit gives the original weight exactly |
| Weights.ConvertPreservesEquality | src/main/java/com/quantitymeasurement/Weight.java:27-32 | a conversion is equal to the weight it came from |
| Weights.Weight.Add | src/main/java/com/quantitymeasurement/Weight.java:35-40 | a null operand is refused with NullPointerException; otherwise the sum is in the receiver's unit and its size in kilograms is the sum of the operands' sizes |
| Weights.Weight.AddTo | src/main/java/com/quantitymeasurement/Weight.java:43-49 | a null operand is refused with NullPointerException, then a null target with IllegalArgumentException; otherwise the sum is in the target unit and its size in kilograms is the sum of the operands' sizes |
| Weights.AddCommutesInMeasure | src/main/java/com/quantitymeasurement/Weight.java:35-40 | `a.add(b)` equals `b.add(a)`, each in its own receiver's unit |
| Weights.AddZeroIsIdentity | src/main/java/com/quantitymeasurement/Weight.java:35-40 | adding a zero of any unit gives back the receiver exactly |
| Weights.AddToSymmetric | src/main/java/com/quantitymeasurement/Weight.java:43-49 | with an explicit target, swapping the operands gives the identical result |
| Weights.AddToOwnUnitIsAdd | src/main/java/com/quantitymeasurement/Weight.java:35-49 | naming the receiver's unit as the target gives the plain `add` |
| Weights.Weight.Equals | src/main/java/com/quantitymeasurement/Weight.java:55-60 | true for the receiver itself, false for null or another class, otherwise true exactly when the sizes in kilograms are less than a millionth apart |
| Weights.EqualsReflexive | src/main/java/com/quantitymeasurement/Weight.java:55-60 | `equals` is reflexive, and the same-reference shortcut agrees with the comparison |
| Weights.EqualsSymmetric | src/main/java/com/quantitymeasurement/Weight.java:55-60 | `equals` is symmetric |
| Weights.Weight.HashKey | src/main/java/com/quantitymeasurement/Weight.java:64-65 | the key is the weight in millionths of a kilogram rounded to within a half, or an end of the long range when it lies beyond |
| Weights.Weight.HashCode | src/main/java/com/quantitymeasurement/Weight.java:63-67 | the hash is an int; a key in the non-negative int range is its own hash, and a negative key in the int range hashes to its complement `-1 - key` |
| Weights.HashCodeDependsOnBase | src/main/java/com/quantitymeasurement/Weight.java:63-67 | two weights of the same size in kilograms hash alike, whatever their units |
| Weights.HashCodeDependsOnKey | src/main/java/com/quantitymeasurement/Weight.java:64-66 | two weights with the same rounded key hash alike, for every key |
| Weights.EqualsDoesNotFixHashCode | src/main/java/com/quantitymeasurement/Weight.java:55-67 | two weights within the tolerance can round to different hash keys |
| Weights.Weight.ToString | src/main/java/com/quantitymeasurement/Weight.java:70-72 | the text is the value's rendering followed by the unit suffix |
| Weights.UnitSuffix | src/main/java/com/quantitymeasurement/Weight.java:71 | the suffix is a blank followed by lower-case letters |
| Weights.UnitSuffixInjective | src/main/java/com/quantitymeasurement/Weight.java:71 | different units have different suffixes, so the text names the unit |
| Weights.EqualityExamples | src/test/java/com/quantitymeasurement/WeightUC9Test.java:10-21 | 1 kg equals 1000 g and differs from 2 lb |
| Weights.ZeroWeightsEqual | src/test/java/com/quantitymeasurement/WeightUC9Test.java:98-103 | 0 g equals 0 kg |
| Weights.ArithmeticExamples | src/test/java/com/quantitymeasurement/WeightUC9Test.java:37-111 | 1 kg is 1000 g; 500 g + 1 lb is 953.59237 g; 1 kg + 1 lb in grams is 1453.59237 g; 1 kg + 500 g is 1.5 kg; -1 kg + 500 g in kilograms is -0.5 kg |
| Weights.RefusalExamples | src/main/java/com/quantitymeasurement/Weight.java:12-49 | the constructor refuses a missing unit and a NaN or infinite value with IllegalArgumentException; both additions refuse a missing operand with NullPointerException; a missing target is refused with IllegalArgumentException |
| InchesValue.Inches.GetValue | src/main/java/com/quantitymeasurement/Inches.java:11-17 | `getValue` returns the double the value was built from |
| InchesValue.Inches.Equals | src/main/java/com/quantitymeasurement/Inches.java:23-29 | true for the receiver itself, false for null or another class, otherwise true exactly when the two doubles are the same |
| InchesValue.EqualsIffSameValue | src/main/java/com/quantitymeasurement/Inches.java:23-29 | two inch values are equal exactly when they are the same value |
| InchesValue.EqualsReflexive | src/main/java/com/quantitymeasurement/Inches.java:23-29 | `equals` is reflexive, NaN included |
| InchesValue.EqualsSymmetricTransitive | src/main/java/com/quantitymeasurement/Inches.java:23-29 | `equals` is symmetric and transitive |
| InchesValue.EqualsImpliesSameHash | src/main/java/com/quantitymeasurement/Inches.java:23-34 | equal inch values hash alike |
| InchesValue.Inches.HashCode | src/main/java/com/quantitymeasurement/Inches.java:32-34 | the hash is a 32-bit int |
| InchesValue.Inches.ToString | src/main/java/com/quantitymeasurement/Inches.java:37-39 | the text is the value's rendering followed by " in" |
| InchesValue.ToStringSuffixIsInch | src/main/java/com/quantitymeasurement/Inches.java:37-39 | the unit text appended by `toString` parses to the inch |
| InchesValue.EqualityExamples | src/test/java/com/quantitymeasurement/InchesTest.java:10-38 | 1.0 in equals 1.0 in and not 2.0 in, null or another class, and 2.5 in equals itself |
| Lang.Abs | src/main/java/com/quantitymeasurement/Length.java:56 | `Math.abs` is never negative and is the argument or its negation |
| Lang.Round | src/main/java/com/quantitymeasurement/Length.java:105 | `Math.round` is within a half of its argument inside the long range and saturates outside it |
| Lang.Compare | src/main/java/com/quantitymeasurement/Inches.java:28 | `Double.compare` gives zero exactly for the same value and is otherwise -1 or 1 |
| Lang.CompareAntisymmetric | src/main/java/com/quantitymeasurement/Inches.java:28 | `Double.compare` is antisymmetric |
| Lang.LongHashCode | src/main/java/com/quantitymeasurement/Length.java:106 | `Long.hashCode` yields a 32-bit signed int; its value on the int range is stated by the two lemmas below |
| Lang.LongHashCodeOfIntRange | src/main/java/com/quantitymeasurement/Length.java:106 | a long in the non-negative int range hashes to itself |
| Lang.XorZero | src/main/java/com/quantitymeasurement/Length.java:106 | xor with a zero high half leaves the low half unchanged |
| Lang.LongHashCodeOfNegativeIntRange | src/main/java/com/quantitymeasurement/Length.java:106 | a negative long in the int range hashes to its complement `-1 - v` |
| Lang.XorOnes | src/main/java/com/quantitymeasurement/Length.java:106 | xor with an all-ones high half complements the low half |
| JavaText.Trim | src/main/java/com/quantitymeasurement/LengthUnit.java:111 | the trimmed text neither starts nor ends with a character at or below the blank, and text that already does not is left unchanged |
| JavaText.TrimKeepsInfix | src/main/java/com/quantitymeasurement/LengthUnit.java:111 | `trim` keeps a contiguous part of the text and removes only characters at or below the blank before and after it |
| JavaText.TrimStartRemovesTrimmable | src/main/java/com/quantitymeasurement/LengthUnit.java:111 | the leading characters removed are all at or below the blank |
| JavaText.TrimEndRemovesTrimmable | src/main/java/com/quantitymeasurement/LengthUnit.java:111 | the trailing characters removed are all at or below the blank |
| JavaText.ToLower | src/main/java/com/quantitymeasurement/LengthUnit.java:111 | lower-casing keeps the length, turns each ASCII capital into its small letter and keeps every other character |
| JavaText.ToUpper | src/main/java/com/quantitymeasurement/LengthUnit.java:136 | upper-casing keeps the length, turns each ASCII small letter into its capital and keeps every other character |
| JavaText.LowerOfUpper | src/main/java/com/quantitymeasurement/LengthUnit.java:111-136 | lower-casing text that upper-cases to upper-case letters gives those letters in lower case |

## Left out

- Floating point: values are exact reals, so the model has no rounding of
  doubles in products and quotients and no overflow to infinity. Unit
  conversions and sums come out exact, and round trips in `Length` and
  `Weight` are exact.
- `Double.toString`: the rendering of a double in `toString` is the
  parameter `valueText`.
- `Double.doubleToLongBits`, the bit pattern behind `Double.hashCode`, is a
  parameter of `InchesValue.Inches.HashCode`.
- Negative zero is not a value of the model, so the `Double.compare` ordering
  of -0.0 and 0.0 in `Inches.equals` is not captured.
- `String.trim` and the case conversions are modelled on ASCII letters only.
  The Unicode case mappings of `toLowerCase` and `toUpperCase` are not
  modelled, and neither is the default locale they depend on.
- LengthUnits.Of: agrees with Java's `of` only on text whose case mapping is
  ASCII and under a non-Turkish default locale. Java's `of("ınches")` (dotless
  i) misses the alias table but upper-cases to `"INCHES"`, so its fallback
  returns the plural INCHES, which the model refuses. Under a Turkish locale
  `of("INCHES")` lower-cases to `"ınches"` and also returns INCHES. So the
  claims that the fallback adds nothing (`FallbackNeverAdds`) and that a parsed
  unit is singular (`OfIsCanonical`) hold for the model, not for every Java
  runtime.
- The `other.unit == null` branches of both `Length.add` methods cannot be
  reached: every `Length` has a unit. The model has no such branch.
- The getters `getValue` and `getUnit` of `Length` and `Weight` are the
  datatype fields.
- Visibility: the package-private `Length.toBaseInches` and the private
  `Weight.toBaseKg` are ordinary functions of the model.
- The demo application and the `Feet` class are not part of this model.
- LengthConversion.RoundTripToSmallerUnit: stated only for start values up to
  a billion in magnitude, where the products stay well inside the long range,
  and for a first conversion into a smaller unit. Converting into a larger
  unit first can drift by a whole millionth: 1 cm comes back as 1.000001 cm,
  which `almostEqual` rejects (`LargerUnitFirstRoundTripDrifts`).
- LengthConversion.Round6: the half-millionth bound is stated only where
  the scaled value lies in the long range; beyond it `Math.round` saturates.
- LengthConversion.ConvertError: stated only where the rounding does not
  saturate.
- Lengths.HashCodeDependsOnBase and Weights.HashCodeDependsOnBase: state that
  the same size gives the same hash, not that equal quantities hash alike.
  The latter is false, as `EqualsDoesNotFixHashCode` shows.
- InchesValue.Inches.HashCode: states only the range of the hash, since the
  bit pattern of a double is a parameter.
