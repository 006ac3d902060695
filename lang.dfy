/** The pieces of the Java platform that the quantity types lean on: nullable
    arguments, the two exception classes they throw, doubles at the validation
    boundary, the argument of `equals(Object)`, `Math.abs`, `Math.round`,
    `Double.compare` and `Long.hashCode`. */
module Lang {

  /** An argument that a Java caller may pass as null. */
  datatype Option<+T> = None | Some(value: T)

  /** The exception classes thrown by the library, with their messages. */
  datatype Exception =
    | NullPointerException(message: string)
    | IllegalArgumentException(message: string)

  /** A call that either returns a value or throws. */
  datatype Result<+T> = Success(value: T) | Failure(error: Exception)

  /** A Java `double` as the validating entry points see it. Finite doubles are
      modelled by the real they stand for; rounding is not modelled. */
  datatype Double = Finite(r: real) | NaN | PositiveInfinity | NegativeInfinity
  {
    /** `Double.isNaN(d) || Double.isInfinite(d)` */
    predicate IsNaNOrInfinite() { !Finite? }
  }

  /** The argument of an `equals(Object)` call: null, the receiver itself, another
      instance of the receiver's class, or an instance of some other class. */
  datatype ObjectRef<+T> = NullRef | SelfRef | Ref(target: T) | ForeignRef

  const LONG_MIN: int := -0x8000_0000_0000_0000
  const LONG_MAX: int := 0x7FFF_FFFF_FFFF_FFFF

  /** The values of a Java `long`. */
  type Long = x: int | LONG_MIN <= x <= LONG_MAX

  /** `Math.abs` */
  function Abs(x: real): (r: real)
    ensures r >= 0.0
    ensures r == x || r == -x
  {
    if x < 0.0 then -x else x
  }

  /** True when rounding `x` to the nearest integer lands inside the range of a long. */
  predicate InRoundRange(x: real) {
    LONG_MIN <= (x + 0.5).Floor <= LONG_MAX
  }

  /** `Math.round(double)`: the nearest integer, halves rounded up, saturated at
      the ends of the range of a long. */
  function Round(x: real): (n: Long)
    ensures InRoundRange(x) ==> x - 0.5 < n as real <= x + 0.5
    ensures !InRoundRange(x) ==> (n == LONG_MIN && x < 0.0) || (n == LONG_MAX && x > 0.0)
  {
    var f := (x + 0.5).Floor;
    if f < LONG_MIN then LONG_MIN else if f > LONG_MAX then LONG_MAX else f
  }

  /** Rounding a whole number gives that number back. */
  lemma RoundOfWhole(n: Long)
    ensures Round(n as real) == n
  {
    assert (n as real + 0.5).Floor == n;
  }

  /** `Long.hashCode(v)`: the high and low 32-bit halves of the two's-complement
      long are xor-ed and the result read as a signed int. */
  function LongHashCode(v: Long): (h: int)
    ensures -0x8000_0000 <= h < 0x8000_0000
  {
    var bits := if v < 0 then v + 0x1_0000_0000_0000_0000 else v;
    Pow2Of32();
    SignedInt(Xor(bits / 0x1_0000_0000, bits % 0x1_0000_0000, 32))
  }

  /** Two to the power `n`. */
  function Pow2(n: nat): (p: nat)
    ensures p > 0
  {
    if n == 0 then 1 else 2 * Pow2(n - 1)
  }

  lemma Pow2Of32()
    ensures Pow2(32) == 0x1_0000_0000
  {
    assert Pow2(8) == 0x100;
    assert Pow2(16) == 0x1_0000;
    assert Pow2(24) == 0x100_0000;
  }

  /** The bitwise exclusive or of the low `width` bits of `a` and `b`. */
  function Xor(a: nat, b: nat, width: nat): (x: nat)
    ensures x < Pow2(width)
  {
    if width == 0 then 0
    else (a % 2 + b % 2) % 2 + 2 * Xor(a / 2, b / 2, width - 1)
  }

  /** Xor with zero leaves a value of `width` bits unchanged. */
  lemma {:induction false} XorZero(b: nat, width: nat)
    requires b < Pow2(width)
    ensures Xor(0, b, width) == b
  {
    if width > 0 {
      XorZero(b / 2, width - 1);
    }
  }

  /** Xor with all ones complements a value of `width` bits. */
  lemma {:induction false} XorOnes(b: nat, width: nat)
    requires b < Pow2(width)
    ensures Xor(Pow2(width) - 1, b, width) == Pow2(width) - 1 - b
  {
    if width > 0 {
      assert (Pow2(width) - 1) % 2 == 1;
      assert (Pow2(width) - 1) / 2 == Pow2(width - 1) - 1;
      XorOnes(b / 2, width - 1);
    }
  }

  /** A 32-bit pattern read as a two's-complement `int`. */
  function SignedInt(x: nat): (i: int)
    requires x < 0x1_0000_0000
    ensures -0x8000_0000 <= i < 0x8000_0000
    ensures x < 0x8000_0000 ==> i == x
  {
    if x >= 0x8000_0000 then x - 0x1_0000_0000 else x
  }

  /** A long in the non-negative range of an int hashes to itself: its high
      half is zero and its low half is the value. */
  lemma LongHashCodeOfIntRange(v: Long)
    ensures 0 <= v < 0x8000_0000 ==> LongHashCode(v) == v
  {
    if 0 <= v < 0x8000_0000 {
      assert v / 0x1_0000_0000 == 0 && v % 0x1_0000_0000 == v;
      Pow2Of32();
      XorZero(v, 32);
    }
  }

  /** A long in the negative range of an int hashes to its complement
      `-1 - v`: its high half is all ones and its low half is `v + 2^32`. */
  lemma LongHashCodeOfNegativeIntRange(v: Long)
    ensures -0x8000_0000 <= v < 0 ==> LongHashCode(v) == -1 - v
  {
    if -0x8000_0000 <= v < 0 {
      var bits := v + 0x1_0000_0000_0000_0000;
      assert bits == 0xFFFF_FFFF * 0x1_0000_0000 + (v + 0x1_0000_0000);
      assert bits / 0x1_0000_0000 == 0xFFFF_FFFF && bits % 0x1_0000_0000 == v + 0x1_0000_0000;
      Pow2Of32();
      XorOnes(v + 0x1_0000_0000, 32);
    }
  }

  /** The rank `Double.compare` orders doubles by: negative infinity, the finite
      values, positive infinity, then NaN (which compares equal to itself). */
  function CompareRank(d: Double): int {
    match d
    case NegativeInfinity => 0
    case Finite(_) => 1
    case PositiveInfinity => 2
    case NaN => 3
  }

  /** `Double.compare(a, b)`: -1, 0 or 1 as `a` sorts before, with or after `b`. */
  function Compare(a: Double, b: Double): (c: int)
    ensures c == 0 <==> a == b
    ensures c in {-1, 0, 1}
  {
    if CompareRank(a) < CompareRank(b) then -1
    else if CompareRank(a) > CompareRank(b) then 1
    else if a.Finite? && b.Finite? && a.r < b.r then -1
    else if a.Finite? && b.Finite? && a.r > b.r then 1
    else 0
  }

  /** `Double.compare` is antisymmetric. */
  lemma CompareAntisymmetric(a: Double, b: Double)
    ensures Compare(a, b) == -Compare(b, a)
  {
  }
}

/** Java's `String.trim`, `toLowerCase` and `toUpperCase`, restricted to ASCII:
    letters outside `A`-`Z` and `a`-`z` are left as they are. */
module JavaText {

  /** A character `String.trim` strips: any code point up to and including the space. */
  predicate IsTrimmable(c: char) {
    c <= ' '
  }

  /** The text without its leading trimmable characters. */
  function TrimStart(s: string): (t: string)
    ensures |t| <= |s| && t == s[|s| - |t|..]
    ensures t == [] || !IsTrimmable(t[0])
    ensures s == [] || !IsTrimmable(s[0]) ==> t == s
  {
    if s != [] && IsTrimmable(s[0]) then TrimStart(s[1..]) else s
  }

  /** The text without its trailing trimmable characters. */
  function TrimEnd(s: string): (t: string)
    ensures |t| <= |s| && t == s[..|t|]
    ensures t == [] || !IsTrimmable(t[|t| - 1])
    ensures s == [] || !IsTrimmable(s[|s| - 1]) ==> t == s
  {
    if s != [] && IsTrimmable(s[|s| - 1]) then TrimEnd(s[..|s| - 1]) else s
  }

  /** `TrimStart` removes trimmable characters only. */
  lemma {:induction false} TrimStartRemovesTrimmable(s: string)
    ensures forall i :: 0 <= i < |s| - |TrimStart(s)| ==> IsTrimmable(s[i])
  {
    if s != [] && IsTrimmable(s[0]) {
      TrimStartRemovesTrimmable(s[1..]);
      assert forall i :: 1 <= i < |s| - |TrimStart(s)| ==> s[i] == s[1..][i - 1];
    }
  }

  /** `TrimEnd` removes trimmable characters only. */
  lemma {:induction false} TrimEndRemovesTrimmable(s: string)
    ensures forall i :: |TrimEnd(s)| <= i < |s| ==> IsTrimmable(s[i])
  {
    if s != [] && IsTrimmable(s[|s| - 1]) {
      TrimEndRemovesTrimmable(s[..|s| - 1]);
      assert forall i :: |TrimEnd(s)| <= i < |s| - 1 ==> s[i] == s[..|s| - 1][i];
    }
  }

  /** `String.trim`: the text without its leading and trailing trimmable characters. */
  function Trim(s: string): (t: string)
    ensures t == [] || (!IsTrimmable(t[0]) && !IsTrimmable(t[|t| - 1]))
    ensures s == [] || (!IsTrimmable(s[0]) && !IsTrimmable(s[|s| - 1])) ==> t == s
  {
    TrimEnd(TrimStart(s))
  }

  /** `trim` keeps a contiguous part of the text and removes only trimmable
      characters before and after it. */
  lemma TrimKeepsInfix(s: string)
    ensures exists i, j :: 0 <= i <= j <= |s| && Trim(s) == s[i..j]
              && (forall k :: 0 <= k < i ==> IsTrimmable(s[k]))
              && (forall k :: j <= k < |s| ==> IsTrimmable(s[k]))
  {
    var front := TrimStart(s);
    var i := |s| - |front|;
    var t := TrimEnd(front);
    TrimStartRemovesTrimmable(s);
    TrimEndRemovesTrimmable(front);
    assert t == s[i..i + |t|];
    assert forall k :: i + |t| <= k < |s| ==> s[k] == front[k - i];
  }

  function LowerChar(c: char): (d: char)
    ensures 'A' <= c <= 'Z' ==> 'a' <= d <= 'z'
    ensures !('A' <= c <= 'Z') ==> d == c
  {
    if 'A' <= c <= 'Z' then (c as int + 32) as char else c
  }

  function UpperChar(c: char): (d: char)
    ensures 'a' <= c <= 'z' ==> 'A' <= d <= 'Z'
    ensures !('a' <= c <= 'z') ==> d == c
  {
    if 'a' <= c <= 'z' then (c as int - 32) as char else c
  }

  /** `String.toLowerCase` on ASCII letters. */
  function ToLower(s: string): (t: string)
    ensures |t| == |s|
    ensures forall i :: 0 <= i < |s| ==> t[i] == LowerChar(s[i])
  {
    seq(|s|, i requires 0 <= i < |s| => LowerChar(s[i]))
  }

  /** `String.toUpperCase` on ASCII letters. */
  function ToUpper(s: string): (t: string)
    ensures |t| == |s|
    ensures forall i :: 0 <= i < |s| ==> t[i] == UpperChar(s[i])
  {
    seq(|s|, i requires 0 <= i < |s| => UpperChar(s[i]))
  }

  /** Upper-casing first loses nothing that lower-casing keeps. */
  lemma LowerOfUpper(s: string)
    ensures ToLower(ToUpper(s)) == ToLower(s)
  {
    forall i | 0 <= i < |s|
      ensures ToLower(ToUpper(s))[i] == ToLower(s)[i]
    {
      var c := s[i];
      if 'a' <= c <= 'z' {
        assert UpperChar(c) as int == c as int - 32;
      }
    }
  }

  /** A character that upper-cases to a letter is not stripped by `trim`. */
  lemma UpperLetterNotTrimmable(c: char)
    requires 'A' <= UpperChar(c) <= 'Z'
    ensures !IsTrimmable(c)
  {
  }
}
