/** Squawk: a 12-bit transponder code, written as four octal digits. */
module Squawks {
  import opened Wrappers
  import opened Exceptions
  import opened Text
  import opened Numerals

  const MaxCode: int := 0xFFF

  type Code = v: int | 0 <= v <= MaxCode

  datatype Squawk = Squawk(value: Code)

  const Emergency: Squawk := Squawk(0xFC0)
  const ComFail: Squawk := Squawk(0xF80)
  const HiJack: Squawk := Squawk(0xF40)

  /** new Squawk(v): ArgumentOutOfRangeException outside 0x000..0xFFF. */
  function New(v: int): (r: Result<Squawk, Exception>)
    ensures r.Success? <==> 0 <= v <= MaxCode
    ensures r.Success? ==> r.value.value == v
    ensures r.Failure? ==> r.error.ArgumentOutOfRange?
  {
    if v < 0 || v > MaxCode then Failure(ArgumentOutOfRange("squawk")) else Success(Squawk(v))
  }

  /**
   * Squawk.Parse: an empty input throws ArgumentNullException; otherwise the
   * text is read by Convert.ToInt32(input, 8). A FormatException from the
   * conversion and an out-of-range value are both re-thrown as plain
   * ArgumentException; the ArgumentException for a '-' sign and the
   * OverflowException for 2^32 or more pass through unchanged.
   */
  function Parse(input: string): (r: Result<Squawk, Exception>)
    ensures input == "" ==> r == Failure(ArgumentNull("input"))
    ensures r.Failure? && input != "" ==> r.error.Argument? || r.error.Overflow?
  {
    if input == "" then Failure(ArgumentNull("input"))
    else
      match ConvertToInt32Base8(input)
      case Failure(Format) => Failure(Argument("squawk could not be parsed as Int32"))
      case Failure(e) => Failure(e)
      case Success(v) =>
        match New(v)
        case Success(s) => Success(s)
        case Failure(_) => Failure(Argument("squawk is out of range"))
  }

  /** The octal text Parse accepts: an optional '+', then octal digits whose value is at most 0xFFF. */
  predicate IsSquawkText(input: string) {
    var body := SignedBody(input);
    input != "" && input[0] != '-' && |body| > 0 && AllDigits(body, 8) && DigitsValue(body, 8) <= MaxCode
  }

  /** Parse succeeds exactly on octal text of a 12-bit value, and then yields that value. */
  lemma ParseAccepts(input: string)
    ensures Parse(input).Success? <==> IsSquawkText(input)
    ensures Parse(input).Success? ==> Parse(input).value.value == DigitsValue(SignedBody(input), 8)
  {
    if input != "" {
      var r := ConvertToInt32Base8(input);
      if r.Success? {
        var v := DigitsValue(SignedBody(input), 8);
        assert r.value == ToInt32Bits(v);
        assert v <= MaxCode ==> r.value == v;
      }
    }
  }

  /** Squawk.ToString: the octal digits, padded on the left with '0' to four characters. */
  function ToString(s: Squawk): (text: string)
    ensures |text| == 4
    ensures AllDigits(text, 8) && DigitsValue(text, 8) == s.value
  {
    var digits := FormatOctal(s.value);
    OctalDigitsAtMostFour(s.value);
    var text := PadLeft(digits, 4, '0');
    assert text == Repeat('0', 4 - |digits|) + digits;
    DigitsValueLeadingZeros(4 - |digits|, digits, 8);
    text
  }

  lemma OctalDigitsAtMostFour(v: Code)
    ensures |FormatOctal(v)| <= 4
  {
    var q1 := v / 8;
    var q2 := q1 / 8;
    var q3 := q2 / 8;
    assert |ToDigits(q3, 8)| == 1;
    assert |ToDigits(q2, 8)| <= 2 by {
      if q2 >= 8 { assert ToDigits(q2, 8) == ToDigits(q3, 8) + [DigitChar(q2 % 8)]; }
    }
    assert |ToDigits(q1, 8)| <= 3 by {
      if q1 >= 8 { assert ToDigits(q1, 8) == ToDigits(q2, 8) + [DigitChar(q1 % 8)]; }
    }
    if v >= 8 {
      assert ToDigits(v, 8) == ToDigits(q1, 8) + [DigitChar(v % 8)];
    }
  }

  /** Printing a squawk and parsing the text back gives the same squawk. */
  lemma ParseToString(s: Squawk)
    ensures Parse(ToString(s)) == Success(s)
  {
    ParseOctalDigits(ToString(s));
  }

  /** Parse reads a string of octal digits of a 12-bit value as that value. */
  lemma ParseOctalDigits(text: string)
    requires |text| > 0 && AllDigits(text, 8) && DigitsValue(text, 8) <= MaxCode
    ensures Parse(text) == Success(Squawk(DigitsValue(text, 8)))
  {
    assert IsDigitOf(text[0], 8);
    assert SignedBody(text) == text;
    ParseAccepts(text);
  }

  /** The well-known codes print as 7700, 7600 and 7500. */
  lemma WellKnownCodes()
    ensures ToString(Emergency) == "7700"
    ensures ToString(ComFail) == "7600"
    ensures ToString(HiJack) == "7500"
  {
    assert FormatOctal(0xFC0) == "7700";
    assert FormatOctal(0xF80) == "7600";
    assert FormatOctal(0xF40) == "7500";
  }

  lemma OctalValue3(a: char, b: char, c: char)
    requires IsDigitOf(a, 8) && IsDigitOf(b, 8) && IsDigitOf(c, 8)
    ensures AllDigits([a, b, c], 8)
    ensures DigitsValue([a, b, c], 8) == ((a as int - 48) * 8 + (b as int - 48)) * 8 + (c as int - 48)
  {
    assert [a][..0] == [];
    assert DigitsValue([a], 8) == a as int - 48;
    assert [a, b][..1] == [a];
    assert DigitsValue([a, b], 8) == (a as int - 48) * 8 + (b as int - 48);
    assert [a, b, c][..2] == [a, b];
  }

  lemma OctalValue4(a: char, b: char, c: char, d: char)
    requires IsDigitOf(a, 8) && IsDigitOf(b, 8) && IsDigitOf(c, 8) && IsDigitOf(d, 8)
    ensures AllDigits([a, b, c, d], 8)
    ensures DigitsValue([a, b, c, d], 8)
      == (((a as int - 48) * 8 + (b as int - 48)) * 8 + (c as int - 48)) * 8 + (d as int - 48)
  {
    assert [a, b, c, d][..3] == [a, b, c];
    OctalValue3(a, b, c);
  }

  /** The accepted inputs of the parser tests. */
  lemma ParseExamples()
    ensures Parse("1200") == Success(Squawk(0x280))
    ensures Parse("741") == Success(Squawk(0x1E1))
    ensures Parse("7700") == Success(Emergency)
  {
    OctalValue4('1', '2', '0', '0');
    ParseOctalDigits("1200");
    OctalValue3('7', '4', '1');
    ParseOctalDigits("741");
    OctalValue4('7', '7', '0', '0');
    ParseOctalDigits("7700");
  }

  /** The rejected inputs of the parser tests: a non-octal digit, a sign, a value above 0xFFF, nothing. */
  lemma ParseRejections()
    ensures Parse("7800").Failure? && Parse("7800").error.Argument?
    ensures Parse("-0000").Failure? && Parse("-0000").error.Argument?
    ensures Parse("77775").Failure? && Parse("77775").error.Argument?
    ensures Parse("") == Failure(ArgumentNull("input"))
  {
    RejectNonOctal();
    RejectOutOfRange();
  }

  lemma RejectNonOctal()
    ensures Parse("7800") == Failure(Argument("squawk could not be parsed as Int32"))
  {
    assert SignedBody("7800") == "7800";
    assert !IsDigitOf("7800"[1], 8);
    assert DigitPrefix("7800", 8) == "7";
    assert ConvertToInt32Base8("7800") == Failure(Format);
  }

  lemma RejectOutOfRange()
    ensures Parse("77775") == Failure(Argument("squawk is out of range"))
  {
    var text := "77775";
    assert SignedBody(text) == text;
    OctalValue4('7', '7', '7', '7');
    assert text[..4] == "7777";
    assert AllDigits(text, 8);
    assert DigitsValue(text, 8) == 0x7FFD;
    assert DigitPrefix(text, 8) == text;
    assert ConvertToInt32Base8(text) == Success(0x7FFD);
  }

  /** Squawk.CompareTo: Int32.CompareTo of the codes. */
  function CompareTo(s: Squawk, other: Squawk): (c: int)
    ensures c == -1 || c == 0 || c == 1
    ensures c < 0 <==> s.value < other.value
    ensures c > 0 <==> s.value > other.value
  {
    if s.value < other.value then -1 else if s.value > other.value then 1 else 0
  }

  /** Squawk.Equals(Squawk): equal codes. */
  predicate Equals(s: Squawk, other: Squawk) {
    s.value == other.value
  }

  /** Equality is exactly a comparison of zero, and comparison is antisymmetric. */
  lemma CompareToConsistent(s: Squawk, other: Squawk)
    ensures CompareTo(s, other) == 0 <==> Equals(s, other)
    ensures CompareTo(s, other) == -CompareTo(other, s)
    ensures Equals(s, other) <==> s == other
  {
  }
}
