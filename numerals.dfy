/**
 * Integer types of fixed width and the number formatting and parsing of the
 * .NET base library that the modelled code uses: Int32.ToString,
 * Int32.Parse, UInt32.Parse, Convert.ToInt32(s, 8) and Convert.ToString(v, 8).
 */
module Numerals {
  import opened Wrappers
  import opened Exceptions
  import opened Text

  const Int32Min: int := -0x8000_0000
  const Int32Max: int := 0x7FFF_FFFF
  const UInt32Max: int := 0xFFFF_FFFF

  type Int32 = i: int | Int32Min <= i <= Int32Max
  type UInt32 = i: int | 0 <= i <= UInt32Max
  type Int64 = i: int | -0x8000_0000_0000_0000 <= i <= 0x7FFF_FFFF_FFFF_FFFF

  predicate IsDigitOf(c: char, radix: nat) {
    2 <= radix <= 10 && '0' <= c && (c as int) < ('0' as int) + radix
  }

  predicate AllDigits(s: string, radix: nat) {
    forall i :: 0 <= i < |s| ==> IsDigitOf(s[i], radix)
  }

  function DigitChar(d: nat): (c: char)
    requires d < 10
    ensures IsDecimalDigit(c) && c as int - '0' as int == d
  {
    ('0' as int + d) as char
  }

  /** The value of a string of digits in the given radix, most significant first. */
  function DigitsValue(s: string, radix: nat): nat
    requires 2 <= radix <= 10 && AllDigits(s, radix)
  {
    if s == [] then 0
    else DigitsValue(s[..|s| - 1], radix) * radix + (s[|s| - 1] as int - '0' as int)
  }

  /** The shortest digit string of `n` in the given radix. */
  function ToDigits(n: nat, radix: nat): (s: string)
    requires 2 <= radix <= 10
    ensures |s| >= 1 && AllDigits(s, radix)
    ensures n > 0 ==> s[0] != '0'
    decreases n
  {
    if n < radix then [DigitChar(n)]
    else
      DivBounds(n, radix);
      var t := ToDigits(n / radix, radix);
      var c := DigitChar(n % radix);
      assert AllDigits(t + [c], radix) by {
        assert forall i :: 0 <= i < |t| ==> (t + [c])[i] == t[i];
      }
      t + [c]
  }

  lemma DivBounds(n: nat, radix: nat)
    requires 2 <= radix <= n
    ensures 1 <= n / radix < n && n % radix < radix
    ensures n == (n / radix) * radix + n % radix
  {
  }

  lemma {:induction false} DigitsValueOfToDigits(n: nat, radix: nat)
    requires 2 <= radix <= 10
    ensures DigitsValue(ToDigits(n, radix), radix) == n
    decreases n
  {
    if n < radix {
      assert ToDigits(n, radix) == [DigitChar(n)];
      assert [DigitChar(n)][..0] == [];
    } else {
      DivBounds(n, radix);
      var q, d := n / radix, n % radix;
      var t := ToDigits(q, radix);
      assert ToDigits(n, radix) == t + [DigitChar(d)];
      DigitsValueOfToDigits(q, radix);
      DigitsValueSnoc(t, DigitChar(d), radix);
    }
  }

  lemma DigitsValueSnoc(t: string, c: char, radix: nat)
    requires 2 <= radix <= 10 && AllDigits(t, radix) && IsDigitOf(c, radix)
    ensures AllDigits(t + [c], radix)
    ensures DigitsValue(t + [c], radix) == DigitsValue(t, radix) * radix + (c as int - '0' as int)
  {
    assert (t + [c])[..|t|] == t;
  }

  /** Leading zeros do not change the value of a digit string. */
  lemma {:induction false} DigitsValueLeadingZeros(z: nat, s: string, radix: nat)
    requires 2 <= radix <= 10 && AllDigits(s, radix)
    ensures AllDigits(Repeat('0', z) + s, radix)
    ensures DigitsValue(Repeat('0', z) + s, radix) == DigitsValue(s, radix)
  {
    var t := Repeat('0', z) + s;
    assert AllDigits(t, radix) by {
      forall i | 0 <= i < |t| ensures IsDigitOf(t[i], radix) {
        if i < z { assert t[i] == '0'; } else { assert t[i] == s[i - z]; }
      }
    }
    if s == [] {
      ZerosValue(z, radix);
      assert t == Repeat('0', z);
    } else {
      DigitsValueLeadingZeros(z, s[..|s| - 1], radix);
      assert t[..|t| - 1] == Repeat('0', z) + s[..|s| - 1];
    }
  }

  lemma {:induction false} ZerosValue(z: nat, radix: nat)
    requires 2 <= radix <= 10
    ensures AllDigits(Repeat('0', z), radix) && DigitsValue(Repeat('0', z), radix) == 0
  {
    if z > 0 {
      ZerosValue(z - 1, radix);
      assert Repeat('0', z)[..z - 1] == Repeat('0', z - 1);
    }
  }

  // ---------------------------------------------------------------------------
  // Decimal formatting and parsing

  /** The parameterless Int32.ToString() / Int64.ToString(), with the invariant culture's '-' as the negative sign: an optional '-' and the shortest decimal digits. */
  function FormatInteger(i: int): (s: string)
    ensures |s| >= 1
    ensures i < 0 <==> s[0] == '-'
    ensures forall k :: 0 <= k < |s| ==> IsDigitOf(s[k], 10) || (k == 0 && s[k] == '-')
  {
    if i < 0 then "-" + ToDigits(-i, 10) else ToDigits(i, 10)
  }

  /** The sign and digits of an integer literal: an optional '+' or '-' followed by decimal digits. */
  function LiteralValue(s: string): (r: Option<int>)
    ensures r.Some? <==> var body := SignedBody(s); |body| > 0 && AllDigits(body, 10)
  {
    var body := SignedBody(s);
    if |body| == 0 || !AllDigits(body, 10) then None
    else
      var v: int := DigitsValue(body, 10);
      if |s| > 0 && s[0] == '-' then Some(-v) else Some(v)
  }

  function SignedBody(s: string): string {
    if |s| > 0 && (s[0] == '-' || s[0] == '+') then s[1..] else s
  }

  // ---------------------------------------------------------------------------
  // The white space around a parsed integer

  /** The white space NumberStyles.Integer skips around a number: U+0009 to U+000D and the space. */
  predicate IsNumberWhite(c: char) {
    c == ' ' || '\t' <= c <= '\r'
  }

  function TrimStartWhite(s: string): (t: string)
    ensures t == [] || !IsNumberWhite(t[0])
    ensures |t| <= |s| && (t != [] ==> t[|t| - 1] == s[|s| - 1])
  {
    if s == [] || !IsNumberWhite(s[0]) then s else TrimStartWhite(s[1..])
  }

  function TrimEndWhite(s: string): (t: string)
    ensures t == [] || !IsNumberWhite(t[|t| - 1])
  {
    if s == [] || !IsNumberWhite(s[|s| - 1]) then s else TrimEndWhite(s[..|s| - 1])
  }

  function TrimEndNuls(s: string): (t: string)
    ensures t == [] || t[|t| - 1] != '\0'
  {
    if s == [] || s[|s| - 1] != '\0' then s else TrimEndNuls(s[..|s| - 1])
  }

  /**
   * The literal Int32.Parse and UInt32.Parse read from `s`: trailing NUL
   * characters are ignored, and so is white space before the literal and
   * after it.
   */
  function NumberBody(s: string): (t: string)
    ensures t == [] || (!IsNumberWhite(t[0]) && !IsNumberWhite(t[|t| - 1]))
  {
    TrimStartWhite(TrimEndWhite(TrimEndNuls(s)))
  }

  /** The value of the literal in `s`, as the integer parsers read it. */
  function IntegerValue(s: string): Option<int> {
    LiteralValue(NumberBody(s))
  }

  /** A literal with no white space at either end and no trailing NUL is read as it stands. */
  lemma NumberBodyOfClean(s: string)
    requires |s| > 0 && !IsNumberWhite(s[0]) && !IsNumberWhite(s[|s| - 1]) && s[|s| - 1] != '\0'
    ensures NumberBody(s) == s
  {
  }

  lemma {:induction false} TrimStartWhiteSkips(w: string, t: string)
    requires forall i :: 0 <= i < |w| ==> IsNumberWhite(w[i])
    requires t == [] || !IsNumberWhite(t[0])
    ensures TrimStartWhite(w + t) == t
    decreases |w|
  {
    if w != [] {
      assert (w + t)[1..] == w[1..] + t;
      TrimStartWhiteSkips(w[1..], t);
    }
  }

  lemma {:induction false} TrimEndWhiteSkips(t: string, w: string)
    requires forall i :: 0 <= i < |w| ==> IsNumberWhite(w[i])
    requires t == [] || !IsNumberWhite(t[|t| - 1])
    ensures TrimEndWhite(t + w) == t
    decreases |w|
  {
    if w != [] {
      assert (t + w)[..|t + w| - 1] == t + w[..|w| - 1];
      TrimEndWhiteSkips(t, w[..|w| - 1]);
    } else {
      assert t + w == t;
    }
  }

  /** White space around a literal is skipped: the parsers read `w1 + s + w2` as `s`. */
  lemma NumberBodyPadded(w1: string, s: string, w2: string)
    requires forall i :: 0 <= i < |w1| ==> IsNumberWhite(w1[i])
    requires forall i :: 0 <= i < |w2| ==> IsNumberWhite(w2[i])
    requires |s| > 0 && !IsNumberWhite(s[0]) && !IsNumberWhite(s[|s| - 1]) && s[|s| - 1] != '\0'
    ensures NumberBody(w1 + s + w2) == s
  {
    var whole := w1 + s + w2;
    assert whole[|whole| - 1] != '\0' by {
      if w2 == [] { assert whole[|whole| - 1] == s[|s| - 1]; } else { assert whole[|whole| - 1] == w2[|w2| - 1]; }
    }
    assert TrimEndNuls(whole) == whole;
    TrimEndWhiteSkips(w1 + s, w2);
    assert (w1 + s)[|w1 + s| - 1] == s[|s| - 1];
    TrimStartWhiteSkips(w1, s);
  }

  /**
   * Int32.Parse(s) with NumberStyles.Integer: a literal that is not an
   * integer throws FormatException, one out of range OverflowException.
   */
  function ParseInt32(s: string): (r: Result<Int32, Exception>)
    ensures r.Success? <==> IntegerValue(s).Some? && Int32Min <= IntegerValue(s).value <= Int32Max
    ensures r.Success? ==> r.value == IntegerValue(s).value
    ensures r.Failure? ==> r.error == (if IntegerValue(s).None? then Format else Overflow)
  {
    match IntegerValue(s)
    case None => Failure(Format)
    case Some(v) => if Int32Min <= v <= Int32Max then Success(v) else Failure(Overflow)
  }

  /** UInt32.Parse(s) with NumberStyles.Integer ("-0" is zero). */
  function ParseUInt32(s: string): (r: Result<UInt32, Exception>)
    ensures r.Success? <==> IntegerValue(s).Some? && 0 <= IntegerValue(s).value <= UInt32Max
    ensures r.Success? ==> r.value == IntegerValue(s).value
    ensures r.Failure? ==> r.error == (if IntegerValue(s).None? then Format else Overflow)
  {
    match IntegerValue(s)
    case None => Failure(Format)
    case Some(v) => if 0 <= v <= UInt32Max then Success(v) else Failure(Overflow)
  }

  /** Formatting an integer and reading it back gives the integer. */
  lemma LiteralValueOfFormat(i: int)
    ensures LiteralValue(FormatInteger(i)) == Some(i)
  {
    var n := if i < 0 then -i else i;
    DigitsValueOfToDigits(n, 10);
    var digits := ToDigits(n, 10);
    if i < 0 {
      assert FormatInteger(i)[1..] == digits;
    } else {
      assert digits[0] != '-' && digits[0] != '+';
    }
  }

  /** Written integers have no white space or NUL at either end, so the parsers read them whole. */
  lemma FormatIntegerIsClean(i: int)
    ensures NumberBody(FormatInteger(i)) == FormatInteger(i)
    ensures IntegerValue(FormatInteger(i)) == Some(i)
  {
    var s := FormatInteger(i);
    assert IsDigitOf(s[|s| - 1], 10);
    NumberBodyOfClean(s);
    LiteralValueOfFormat(i);
  }

  lemma ParseInt32OfFormat(i: Int32)
    ensures ParseInt32(FormatInteger(i)) == Success(i)
  {
    FormatIntegerIsClean(i);
  }

  lemma ParseUInt32OfFormat(i: UInt32)
    ensures ParseUInt32(FormatInteger(i)) == Success(i)
  {
    FormatIntegerIsClean(i);
  }

  /** int.Parse skips white space around the literal: " 2\t" reads as 2. */
  lemma ParseInt32Padded(w1: string, i: Int32, w2: string)
    requires forall k :: 0 <= k < |w1| ==> IsNumberWhite(w1[k])
    requires forall k :: 0 <= k < |w2| ==> IsNumberWhite(w2[k])
    ensures ParseInt32(w1 + FormatInteger(i) + w2) == Success(i)
    ensures ParseUInt32(w1 + FormatInteger(i) + w2) == (if i >= 0 then Success(i) else Failure(Overflow))
  {
    var s := FormatInteger(i);
    assert IsDigitOf(s[|s| - 1], 10);
    NumberBodyPadded(w1, s, w2);
    LiteralValueOfFormat(i);
  }

  // ---------------------------------------------------------------------------
  // Radix 8

  /** The longest prefix of `s` made of digits of the radix. */
  function DigitPrefix(s: string, radix: nat): (p: string)
    requires 2 <= radix <= 10
    ensures |p| <= |s| && p == s[..|p|] && AllDigits(p, radix)
    ensures |p| < |s| ==> !IsDigitOf(s[|p|], radix)
  {
    if s == [] || !IsDigitOf(s[0], radix) then []
    else [s[0]] + DigitPrefix(s[1..], radix)
  }

  /** The int whose two's complement bit pattern is the 32-bit value `v` (an unchecked cast from uint to int). */
  function ToInt32Bits(v: UInt32): (i: Int32)
    ensures i == v || i == v - 0x1_0000_0000
    ensures i >= 0 <==> v <= Int32Max
  {
    if v <= Int32Max then v else v - 0x1_0000_0000
  }

  /**
   * Convert.ToInt32(s, 8) on a non-empty string: a leading '-' throws
   * ArgumentException, an optional '+' is skipped, then the longest run of
   * octal digits is read; no digit or a character after the run throws
   * FormatException and a value of 2^32 or more OverflowException. The 32
   * bits are then taken as a signed int.
   */
  function ConvertToInt32Base8(s: string): (r: Result<Int32, Exception>)
    requires |s| > 0
    ensures r.Success? <==> var body := SignedBody(s);
      s[0] != '-' && |body| > 0 && AllDigits(body, 8) && DigitsValue(body, 8) <= UInt32Max
    ensures r.Success? ==> r.value == ToInt32Bits(DigitsValue(SignedBody(s), 8))
    ensures s[0] == '-' ==> r.Failure? && r.error.Argument?
  {
    if s[0] == '-' then Failure(Argument("negative number in a radix other than 10"))
    else
      var body := SignedBody(s);
      var digits := DigitPrefix(body, 8);
      assert AllDigits(body, 8) ==> digits == body;
      if |digits| == 0 then Failure(Format)
      else if DigitsValue(digits, 8) > UInt32Max then Failure(Overflow)
      else if |digits| < |body| then Failure(Format)
      else Success(ToInt32Bits(DigitsValue(digits, 8)))
  }

  /** Convert.ToString(v, 8) for a non-negative value: the shortest octal digits. */
  function FormatOctal(v: nat): (s: string)
    ensures |s| >= 1 && AllDigits(s, 8)
    ensures DigitsValue(s, 8) == v
  {
    DigitsValueOfToDigits(v, 8);
    ToDigits(v, 8)
  }

  // ---------------------------------------------------------------------------
  // Conversions of real numbers

  /** The integer part of `r`, rounded toward zero (the C# cast from double to int). */
  function Truncate(r: real): (i: int)
    ensures r >= 0.0 ==> 0 <= i && i as real <= r < i as real + 1.0
    ensures r < 0.0 ==> i <= 0 && i as real - 1.0 < r <= i as real
  {
    if r >= 0.0 then r.Floor else -((-r).Floor)
  }

  /** `r` rounded to the nearest integer, halves away from zero (the custom format "0"). */
  function RoundAwayFromZero(r: real): (i: int)
    ensures r >= 0.0 ==> i >= 0 && i as real - 0.5 <= r < i as real + 0.5
    ensures r < 0.0 ==> i <= 0 && i as real - 0.5 < r <= i as real + 0.5
  {
    if r >= 0.0 then (r + 0.5).Floor else -((-r + 0.5).Floor)
  }

  /** The C# cast from double to int: truncation; a value outside the Int32 range gives int.MinValue as on x86. */
  function TruncateToInt32(r: real): (i: Int32)
    ensures Int32Min as real <= r < Int32Max as real + 1.0 ==> i == Truncate(r)
  {
    var t := Truncate(r);
    if Int32Min <= t <= Int32Max then t else Int32Min
  }

  /** double.ToString("0"): the value rounded half away from zero, with '-' for a negative value. */
  function FormatRounded(r: real): (s: string)
    ensures |s| >= 1 && (r < 0.0 <==> s[0] == '-')
  {
    var n := RoundAwayFromZero(r);
    if r < 0.0 then "-" + ToDigits(-n, 10) else ToDigits(n, 10)
  }

  /** The text written for a rounded value reads back as the rounded integer. */
  lemma LiteralValueOfFormatRounded(r: real)
    ensures LiteralValue(FormatRounded(r)) == Some(RoundAwayFromZero(r))
  {
    var n := RoundAwayFromZero(r);
    var m := if r < 0.0 then -n else n;
    DigitsValueOfToDigits(m, 10);
    var digits := ToDigits(m, 10);
    if r < 0.0 {
      assert FormatRounded(r)[1..] == digits;
    } else {
      assert digits[0] != '-' && digits[0] != '+';
    }
  }

  /** The text written for a truncated value reads back as the truncated integer. */
  lemma LiteralValueOfTruncated(r: real)
    ensures LiteralValue(FormatInteger(TruncateToInt32(r))) == Some(TruncateToInt32(r))
  {
    LiteralValueOfFormat(TruncateToInt32(r));
  }
}
