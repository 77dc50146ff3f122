/** Pressure: a value tagged with its unit; arithmetic works in the smaller of two units. */
module Pressures {
  import opened Wrappers
  import opened Exceptions
  import opened Text
  import opened Floating

  /** In declaration order: the enum index decides which unit arithmetic uses. */
  datatype PressureUnit = HectoPascals | InchHg

  function Index(u: PressureUnit): nat {
    match u
    case HectoPascals => 0
    case InchHg => 1
  }

  function MinUnit(a: PressureUnit, b: PressureUnit): (u: PressureUnit)
    ensures u == a || u == b
    ensures Index(u) <= Index(a) && Index(u) <= Index(b)
  {
    if Index(a) <= Index(b) then a else b
  }

  datatype Pressure = Pressure(value: real, unit: PressureUnit)

  const Zero: Pressure := Pressure(0.0, HectoPascals)

  /** The standard atmosphere at sea level. */
  const Standard: Pressure := Pressure(1013.25, HectoPascals)

  const HectoPascalsPerInchHg: real := 33.86
  const InchHgPerHectoPascal: real := 0.0295333727

  function AsHectoPascals(p: Pressure): (r: real)
    ensures p.unit == HectoPascals ==> r == p.value
  {
    match p.unit
    case HectoPascals => p.value
    case InchHg => p.value * HectoPascalsPerInchHg
  }

  function AsInchHg(p: Pressure): (r: real)
    ensures p.unit == InchHg ==> r == p.value
  {
    match p.unit
    case HectoPascals => p.value * InchHgPerHectoPascal
    case InchHg => p.value
  }

  /** The value expressed in `u`; in the pressure's own unit it is the stored value. */
  function AsUnit(p: Pressure, u: PressureUnit): (r: real)
    ensures u == p.unit ==> r == p.value
  {
    match u
    case HectoPascals => AsHectoPascals(p)
    case InchHg => AsInchHg(p)
  }

  function ToUnit(p: Pressure, u: PressureUnit): (r: Pressure)
    ensures r.unit == u
    ensures u == p.unit ==> r == p
  {
    Pressure(AsUnit(p, u), u)
  }

  function Convert(value: real, source: PressureUnit, target: PressureUnit): (r: real)
    ensures source == target ==> r == value
  {
    ToUnit(Pressure(value, source), target).value
  }

  function FromHectoPascals(hectoPascals: real): (p: Pressure)
    ensures p.unit == HectoPascals && AsHectoPascals(p) == hectoPascals
  {
    Pressure(hectoPascals, HectoPascals)
  }

  function FromInchHg(inchHg: real): (p: Pressure)
    ensures p.unit == InchHg && AsInchHg(p) == inchHg
  {
    Pressure(inchHg, InchHg)
  }

  /** The standard pressure is 1013.25 hPa, about 29.92 inHg. */
  lemma StandardPressure()
    ensures AsHectoPascals(Standard) == 1013.25
    ensures 29.92 < AsInchHg(Standard) < 29.93
  {
  }

  // ---------------------------------------------------------------------------
  // Arithmetic

  function Add(a: Pressure, b: Pressure): (r: Pressure)
    ensures r.unit == MinUnit(a.unit, b.unit)
    ensures AsUnit(r, r.unit) == AsUnit(a, r.unit) + AsUnit(b, r.unit)
  {
    var u := MinUnit(a.unit, b.unit);
    Pressure(AsUnit(a, u) + AsUnit(b, u), u)
  }

  function Sub(a: Pressure, b: Pressure): (r: Pressure)
    ensures r.unit == MinUnit(a.unit, b.unit)
    ensures AsUnit(r, r.unit) == AsUnit(a, r.unit) - AsUnit(b, r.unit)
  {
    var u := MinUnit(a.unit, b.unit);
    Pressure(AsUnit(a, u) - AsUnit(b, u), u)
  }

  function Neg(p: Pressure): (r: Pressure)
    ensures r.unit == p.unit && r.value == -p.value
  {
    Pressure(-p.value, p.unit)
  }

  function Scale(p: Pressure, k: real): (r: Pressure)
    ensures r.unit == p.unit && r.value == p.value * k
  {
    Pressure(p.value * k, p.unit)
  }

  function Div(p: Pressure, k: real): (r: Pressure)
    requires k != 0.0
    ensures r.unit == p.unit && r.value * k == p.value
  {
    Pressure(p.value / k, p.unit)
  }

  lemma AddSubSameUnit(a: Pressure, b: Pressure)
    requires a.unit == b.unit
    ensures Add(a, b) == Pressure(a.value + b.value, a.unit)
    ensures Sub(Add(a, b), b) == a
  {
  }

  lemma ConversionIsLinear(p: Pressure, k: real, u: PressureUnit)
    ensures AsUnit(Neg(p), u) == -AsUnit(p, u)
    ensures AsUnit(Scale(p, k), u) == AsUnit(p, u) * k
  {
    match u
    case HectoPascals =>
    case InchHg =>
  }

  // ---------------------------------------------------------------------------
  // Comparison

  /** operator ==: FloatingEqual with tolerance 1e-5 in the smaller unit. */
  predicate Eq(a: Pressure, b: Pressure)
    ensures a.unit == b.unit ==> (Eq(a, b) <==> FloatingEqual(a.value, b.value, 0.00001))
    ensures a == b ==> Eq(a, b)
  {
    var u := MinUnit(a.unit, b.unit);
    FloatingEqual(AsUnit(a, u), AsUnit(b, u), 0.00001)
  }

  /** operator <: the readings in the smaller unit compared; in one unit, the values. */
  predicate Less(a: Pressure, b: Pressure)
    ensures a.unit == b.unit ==> (Less(a, b) <==> a.value < b.value)
  {
    var u := MinUnit(a.unit, b.unit);
    AsUnit(a, u) < AsUnit(b, u)
  }

  /** operator >: the mirror image of `<`, and never both. */
  predicate Greater(a: Pressure, b: Pressure)
    ensures Greater(a, b) <==> Less(b, a)
    ensures Greater(a, b) ==> !Less(a, b)
  {
    var u := MinUnit(a.unit, b.unit);
    AsUnit(a, u) > AsUnit(b, u)
  }

  /** operator <=: `<` or `==`, so it fails only where `>` holds. */
  predicate LessOrEqual(a: Pressure, b: Pressure)
    ensures a.unit == b.unit ==> (LessOrEqual(a, b) <==> a.value < b.value || FloatingEqual(a.value, b.value, 0.00001))
    ensures LessOrEqual(a, b) || Greater(a, b)
  {
    Less(a, b) || Eq(a, b)
  }

  /** operator >=: `>` or `==`, the mirror image of `<=`. */
  predicate GreaterOrEqual(a: Pressure, b: Pressure)
    ensures GreaterOrEqual(a, b) <==> LessOrEqual(b, a)
  {
    EqSymmetric(a, b);
    Greater(a, b) || Eq(a, b)
  }

  function CompareTo(p: Pressure, other: Pressure): (c: int)
    ensures c == -1 || c == 0 || c == 1
    ensures c == 0 <==> Eq(other, p)
    ensures c == -1 <==> !Eq(other, p) && Greater(p, other)
  {
    if Eq(other, p) then 0 else if Less(other, p) then -1 else 1
  }

  lemma EqSymmetric(a: Pressure, b: Pressure)
    ensures Eq(a, b) == Eq(b, a)
  {
    var u := MinUnit(a.unit, b.unit);
    assert MinUnit(b.unit, a.unit) == u;
    FloatingEqualSymmetric(AsUnit(a, u), AsUnit(b, u), 0.00001);
  }

  lemma CompareToReversed(a: Pressure, b: Pressure)
    requires a.unit == b.unit && a.value > b.value && !Eq(a, b)
    ensures CompareTo(a, b) == -1 && CompareTo(b, a) == 1
  {
    EqSymmetric(a, b);
  }

  predicate Equals(p: Pressure, other: Pressure) {
    other.value == p.value && other.unit == p.unit
  }

  lemma EqualsIsIdentity(a: Pressure, b: Pressure)
    ensures Equals(a, b) <==> a == b
    ensures Equals(a, b) ==> Eq(a, b) && CompareTo(a, b) == 0
  {
  }

  // ---------------------------------------------------------------------------
  // Parsing

  function GetUnitDesignator(u: PressureUnit): (d: string)
    ensures |d| >= 3 && IsAsciiLetter(d[|d| - 1])
  {
    match u
    case HectoPascals => "hPa"
    case InchHg => "inHg"
  }

  function FirstDesignatorMatch(s: string, units: seq<PressureUnit>): (r: Option<(string, PressureUnit)>)
    ensures r.Some? ==>
      r.value.1 in units && EndsWithIgnoreCase(s, GetUnitDesignator(r.value.1))
      && r.value.0 == s[..|s| - |GetUnitDesignator(r.value.1)|]
    ensures r.None? <==> forall u :: u in units ==> !EndsWithIgnoreCase(s, GetUnitDesignator(u))
  {
    if units == [] then None
    else if EndsWithIgnoreCase(s, GetUnitDesignator(units[0])) then
      Some((s[..|s| - |GetUnitDesignator(units[0])|], units[0]))
    else FirstDesignatorMatch(s, units[1..])
  }

  /** TryParseUnit: trims the end, then strips the first designator, in enum order, that ends the text. */
  function TryParseUnit(input: string): (r: Option<(string, PressureUnit)>)
    ensures r.Some? ==> EndsWithIgnoreCase(TrimEnd(input), GetUnitDesignator(r.value.1))
    ensures r.Some? ==> |r.value.0| + |GetUnitDesignator(r.value.1)| <= |input| && r.value.0 == input[..|r.value.0|]
  {
    FirstDesignatorMatch(TrimEnd(input), [HectoPascals, InchHg])
  }

  lemma {:induction false} EndsWithItself(prefix: string, suffix: string)
    ensures EndsWithIgnoreCase(prefix + suffix, suffix)
  {
    if suffix != [] {
      var s := prefix + suffix;
      assert s[..|s| - 1] == prefix + suffix[..|suffix| - 1];
      EndsWithItself(prefix, suffix[..|suffix| - 1]);
    }
  }

  /** A text followed by a designator yields that unit and the text. */
  lemma TryParseUnitDesignator(number: string, u: PressureUnit)
    ensures TryParseUnit(number + GetUnitDesignator(u)) == Some((number, u))
  {
    var s := number + GetUnitDesignator(u);
    assert TrimEnd(s) == s;
    match u
    case HectoPascals => DesignatorMatchHectoPascals(number);
    case InchHg => DesignatorMatchInchHg(number);
  }

  lemma DesignatorMatchHectoPascals(number: string)
    ensures FirstDesignatorMatch(number + GetUnitDesignator(HectoPascals), [HectoPascals, InchHg]) == Some((number, HectoPascals))
  {
    var d := GetUnitDesignator(HectoPascals);
    var s := number + d;
    EndsWithItself(number, d);
    assert s[..|s| - |d|] == number;
  }

  lemma DesignatorMatchInchHg(number: string)
    ensures FirstDesignatorMatch(number + GetUnitDesignator(InchHg), [HectoPascals, InchHg]) == Some((number, InchHg))
  {
    var d := GetUnitDesignator(InchHg);
    var s := number + d;
    NotHectoPascals(s);
    assert [HectoPascals, InchHg][1..] == [InchHg];
    EndsWithItself(number, d);
    assert s[..|s| - |d|] == number;
  }

  /** A text ending in 'g' does not end in "hPa". */
  lemma NotHectoPascals(s: string)
    requires |s| > 0 && s[|s| - 1] == 'g'
    ensures !EndsWithIgnoreCase(s, GetUnitDesignator(HectoPascals))
  {
    assert GetUnitDesignator(HectoPascals)[2] == 'a';
  }

  /** TryParse: an empty input throws ArgumentNullException; `parseNumber` is double.TryParse. */
  function TryParse(input: string, parseNumber: string -> Option<real>): (r: Result<Option<Pressure>, Exception>)
    ensures input == "" <==> r.Failure?
    ensures r.Failure? ==> r.error == ArgumentNull("input")
    ensures r.Success? && r.value.Some? ==>
      TryParseUnit(input).Some? && r.value.value.unit == TryParseUnit(input).value.1
      && parseNumber(TryParseUnit(input).value.0) == Some(r.value.value.value)
  {
    if input == "" then Failure(ArgumentNull("input"))
    else
      match TryParseUnit(input)
      case None => Success(None)
      case Some((number, unit)) =>
        match parseNumber(number)
        case None => Success(None)
        case Some(v) => Success(Some(Pressure(v, unit)))
  }

  function Parse(input: string, parseNumber: string -> Option<real>): (r: Result<Pressure, Exception>)
    ensures r.Success? <==> TryParse(input, parseNumber).Success? && TryParse(input, parseNumber).value.Some?
    ensures r.Success? ==> r.value == TryParse(input, parseNumber).value.value
    ensures r.Failure? && input != "" ==> r.error.Argument?
  {
    match TryParse(input, parseNumber)
    case Failure(e) => Failure(e)
    case Success(None) => Failure(Argument("input is bad formatted."))
    case Success(Some(p)) => Success(p)
  }

  lemma ParseWithDesignator(number: string, u: PressureUnit, v: real, parseNumber: string -> Option<real>)
    requires parseNumber(number) == Some(v)
    ensures Parse(number + GetUnitDesignator(u), parseNumber) == Success(Pressure(v, u))
  {
    TryParseUnitDesignator(number, u);
  }
}
