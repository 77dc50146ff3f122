/** Speed: a value tagged with its unit; arithmetic works in the smaller of two units. */
module Speeds {
  import opened Wrappers
  import opened Exceptions
  import opened Text
  import opened Floating

  /** In declaration order: the enum index decides which unit arithmetic uses. */
  datatype SpeedUnit = MetersPerSecond | KilometersPerHour | Knots

  function Index(u: SpeedUnit): nat {
    match u
    case MetersPerSecond => 0
    case KilometersPerHour => 1
    case Knots => 2
  }

  function MinUnit(a: SpeedUnit, b: SpeedUnit): (u: SpeedUnit)
    ensures u == a || u == b
    ensures Index(u) <= Index(a) && Index(u) <= Index(b)
  {
    if Index(a) <= Index(b) then a else b
  }

  datatype Speed = Speed(value: real, unit: SpeedUnit)

  const Zero: Speed := Speed(0.0, MetersPerSecond)

  const MetersPerSecondPerKilometersPerHour: real := 0.277777778
  const KilometersPerHourPerMetersPerSecond: real := 3.6
  const MetersPerSecondPerKnots: real := 0.514444444
  const KnotsPerMetersPerSecond: real := 1.94384449
  const KilometersPerHourPerKnots: real := 1.852
  const KnotsPerKilometersPerHour: real := 0.539956803

  function AsKilometersPerHour(s: Speed): (r: real)
    ensures s.unit == KilometersPerHour ==> r == s.value
  {
    match s.unit
    case KilometersPerHour => s.value
    case Knots => s.value * KilometersPerHourPerKnots
    case MetersPerSecond => s.value * KilometersPerHourPerMetersPerSecond
  }

  function AsMetersPerSecond(s: Speed): (r: real)
    ensures s.unit == MetersPerSecond ==> r == s.value
  {
    match s.unit
    case KilometersPerHour => s.value * MetersPerSecondPerKilometersPerHour
    case Knots => s.value * MetersPerSecondPerKnots
    case MetersPerSecond => s.value
  }

  function AsKnots(s: Speed): (r: real)
    ensures s.unit == Knots ==> r == s.value
  {
    match s.unit
    case KilometersPerHour => s.value * KnotsPerKilometersPerHour
    case Knots => s.value
    case MetersPerSecond => s.value * KnotsPerMetersPerSecond
  }

  /** The value expressed in `u`; in the speed's own unit it is the stored value. */
  function AsUnit(s: Speed, u: SpeedUnit): (r: real)
    ensures u == s.unit ==> r == s.value
  {
    match u
    case KilometersPerHour => AsKilometersPerHour(s)
    case Knots => AsKnots(s)
    case MetersPerSecond => AsMetersPerSecond(s)
  }

  function ToUnit(s: Speed, u: SpeedUnit): (r: Speed)
    ensures r.unit == u
    ensures u == s.unit ==> r == s
  {
    Speed(AsUnit(s, u), u)
  }

  function Convert(value: real, source: SpeedUnit, target: SpeedUnit): (r: real)
    ensures source == target ==> r == value
  {
    ToUnit(Speed(value, source), target).value
  }

  function FromKilometersPerHour(kilometersPerHour: real): (s: Speed)
    ensures s.unit == KilometersPerHour && AsKilometersPerHour(s) == kilometersPerHour
  {
    Speed(kilometersPerHour, KilometersPerHour)
  }

  function FromKnots(knots: real): (s: Speed)
    ensures s.unit == Knots && AsKnots(s) == knots
  {
    Speed(knots, Knots)
  }

  function FromMetersPerSecond(metersPerSecond: real): (s: Speed)
    ensures s.unit == MetersPerSecond && AsMetersPerSecond(s) == metersPerSecond
  {
    Speed(metersPerSecond, MetersPerSecond)
  }

  // ---------------------------------------------------------------------------
  // Arithmetic

  function Add(a: Speed, b: Speed): (r: Speed)
    ensures r.unit == MinUnit(a.unit, b.unit)
    ensures AsUnit(r, r.unit) == AsUnit(a, r.unit) + AsUnit(b, r.unit)
  {
    var u := MinUnit(a.unit, b.unit);
    Speed(AsUnit(a, u) + AsUnit(b, u), u)
  }

  function Sub(a: Speed, b: Speed): (r: Speed)
    ensures r.unit == MinUnit(a.unit, b.unit)
    ensures AsUnit(r, r.unit) == AsUnit(a, r.unit) - AsUnit(b, r.unit)
  {
    var u := MinUnit(a.unit, b.unit);
    Speed(AsUnit(a, u) - AsUnit(b, u), u)
  }

  function Neg(s: Speed): (r: Speed)
    ensures r.unit == s.unit && r.value == -s.value
  {
    Speed(-s.value, s.unit)
  }

  function Scale(s: Speed, k: real): (r: Speed)
    ensures r.unit == s.unit && r.value == s.value * k
  {
    Speed(s.value * k, s.unit)
  }

  function Div(s: Speed, k: real): (r: Speed)
    requires k != 0.0
    ensures r.unit == s.unit && r.value * k == s.value
  {
    Speed(s.value / k, s.unit)
  }

  lemma AddSubSameUnit(a: Speed, b: Speed)
    requires a.unit == b.unit
    ensures Add(a, b) == Speed(a.value + b.value, a.unit)
    ensures Sub(Add(a, b), b) == a
  {
  }

  lemma ConversionIsLinear(s: Speed, k: real, u: SpeedUnit)
    ensures AsUnit(Neg(s), u) == -AsUnit(s, u)
    ensures AsUnit(Scale(s, k), u) == AsUnit(s, u) * k
  {
    match u
    case KilometersPerHour =>
    case Knots =>
    case MetersPerSecond =>
  }

  // ---------------------------------------------------------------------------
  // Comparison

  /** operator ==: FloatingEqual with tolerance 1e-10 in the smaller unit. */
  predicate Eq(a: Speed, b: Speed)
    ensures a.unit == b.unit ==> (Eq(a, b) <==> FloatingEqual(a.value, b.value, 0.0000000001))
    ensures a == b ==> Eq(a, b)
  {
    var u := MinUnit(a.unit, b.unit);
    FloatingEqual(AsUnit(a, u), AsUnit(b, u), 0.0000000001)
  }

  /** operator <: the readings in the smaller unit compared; in one unit, the values. */
  predicate Less(a: Speed, b: Speed)
    ensures a.unit == b.unit ==> (Less(a, b) <==> a.value < b.value)
  {
    var u := MinUnit(a.unit, b.unit);
    AsUnit(a, u) < AsUnit(b, u)
  }

  /** operator >: the mirror image of `<`, and never both. */
  predicate Greater(a: Speed, b: Speed)
    ensures Greater(a, b) <==> Less(b, a)
    ensures Greater(a, b) ==> !Less(a, b)
  {
    var u := MinUnit(a.unit, b.unit);
    AsUnit(a, u) > AsUnit(b, u)
  }

  /** operator <=: `<` or `==`, so it fails only where `>` holds. */
  predicate LessOrEqual(a: Speed, b: Speed)
    ensures a.unit == b.unit ==> (LessOrEqual(a, b) <==> a.value < b.value || FloatingEqual(a.value, b.value, 0.0000000001))
    ensures LessOrEqual(a, b) || Greater(a, b)
  {
    Less(a, b) || Eq(a, b)
  }

  /** operator >=: `>` or `==`, the mirror image of `<=`. */
  predicate GreaterOrEqual(a: Speed, b: Speed)
    ensures GreaterOrEqual(a, b) <==> LessOrEqual(b, a)
  {
    EqSymmetric(a, b);
    Greater(a, b) || Eq(a, b)
  }

  function CompareTo(s: Speed, other: Speed): (c: int)
    ensures c == -1 || c == 0 || c == 1
    ensures c == 0 <==> Eq(other, s)
    ensures c == -1 <==> !Eq(other, s) && Greater(s, other)
  {
    if Eq(other, s) then 0 else if Less(other, s) then -1 else 1
  }

  lemma EqSymmetric(a: Speed, b: Speed)
    ensures Eq(a, b) == Eq(b, a)
  {
    var u := MinUnit(a.unit, b.unit);
    assert MinUnit(b.unit, a.unit) == u;
    FloatingEqualSymmetric(AsUnit(a, u), AsUnit(b, u), 0.0000000001);
  }

  lemma CompareToReversed(a: Speed, b: Speed)
    requires a.unit == b.unit && a.value > b.value && !Eq(a, b)
    ensures CompareTo(a, b) == -1 && CompareTo(b, a) == 1
  {
    EqSymmetric(a, b);
  }

  predicate Equals(s: Speed, other: Speed) {
    other.value == s.value && other.unit == s.unit
  }

  lemma EqualsIsIdentity(a: Speed, b: Speed)
    ensures Equals(a, b) <==> a == b
    ensures Equals(a, b) ==> Eq(a, b) && CompareTo(a, b) == 0
  {
  }

  // ---------------------------------------------------------------------------
  // Parsing

  function GetUnitDesignator(u: SpeedUnit): (d: string)
    ensures |d| >= 2 && IsAsciiLetter(d[|d| - 1])
  {
    match u
    case MetersPerSecond => "ms"
    case KilometersPerHour => "kmh"
    case Knots => "kt"
  }

  function FirstDesignatorMatch(s: string, units: seq<SpeedUnit>): (r: Option<(string, SpeedUnit)>)
    ensures r.Some? ==>
      r.value.1 in units && EndsWithIgnoreCase(s, GetUnitDesignator(r.value.1))
      && r.value.0 == s[..|s| - |GetUnitDesignator(r.value.1)|]
    ensures r.None? <==> forall u :: u in units ==> !EndsWithIgnoreCase(s, GetUnitDesignator(u))
  {
    if units == [] then None
    else if EndsWithIgnoreCase(s, GetUnitDesignator(units[0])) then
      Some((s[..|s| - |GetUnitDesignator(units[0])|], units[0]))
    else FirstDesignatorMatch(s, units[1..])
  }

  /** TryParseUnit: trims the end, then strips the first designator, in enum order, that ends the text. */
  function TryParseUnit(input: string): (r: Option<(string, SpeedUnit)>)
    ensures r.Some? ==> EndsWithIgnoreCase(TrimEnd(input), GetUnitDesignator(r.value.1))
    ensures r.Some? ==> |r.value.0| + |GetUnitDesignator(r.value.1)| <= |input| && r.value.0 == input[..|r.value.0|]
  {
    FirstDesignatorMatch(TrimEnd(input), [MetersPerSecond, KilometersPerHour, Knots])
  }

  lemma {:induction false} FirstMatchAt(s: string, units: seq<SpeedUnit>, k: nat)
    requires k < |units| && EndsWithIgnoreCase(s, GetUnitDesignator(units[k]))
    requires forall j :: 0 <= j < k ==> !EndsWithIgnoreCase(s, GetUnitDesignator(units[j]))
    ensures FirstDesignatorMatch(s, units) == Some((s[..|s| - |GetUnitDesignator(units[k])|], units[k]))
  {
    if k > 0 {
      assert !EndsWithIgnoreCase(s, GetUnitDesignator(units[0]));
      var rest := units[1..];
      assert rest[k - 1] == units[k];
      forall j | 0 <= j < k - 1
        ensures !EndsWithIgnoreCase(s, GetUnitDesignator(rest[j]))
      {
        assert rest[j] == units[j + 1];
      }
      FirstMatchAt(s, rest, k - 1);
    }
  }

  lemma NoEarlierDesignator(number: string, u: SpeedUnit)
    ensures u != MetersPerSecond ==> !EndsWithIgnoreCase(number + GetUnitDesignator(u), "ms")
    ensures u == Knots ==> !EndsWithIgnoreCase(number + GetUnitDesignator(u), "kmh")
  {
    var s := number + GetUnitDesignator(u);
    EndsWithTwo(s, 'm', 's');
    assert "kmh" == ['k', 'm', 'h'];
    assert ['k', 'm', 'h'][..2] == ['k', 'm'];
    EndsWithOne(s, 'h');
  }

  lemma {:induction false} EndsWithItself(prefix: string, suffix: string)
    ensures EndsWithIgnoreCase(prefix + suffix, suffix)
  {
    if suffix != [] {
      var s := prefix + suffix;
      assert s[..|s| - 1] == prefix + suffix[..|suffix| - 1];
      EndsWithItself(prefix, suffix[..|suffix| - 1]);
    }
  }

  /** A text followed by a designator yields that unit and the text. */
  lemma TryParseUnitDesignator(number: string, u: SpeedUnit)
    ensures TryParseUnit(number + GetUnitDesignator(u)) == Some((number, u))
  {
    var s := number + GetUnitDesignator(u);
    assert TrimEnd(s) == s;
    DesignatorMatch(number, u);
  }

  lemma DesignatorMatch(number: string, u: SpeedUnit)
    ensures FirstDesignatorMatch(number + GetUnitDesignator(u), [MetersPerSecond, KilometersPerHour, Knots]) == Some((number, u))
  {
    var d := GetUnitDesignator(u);
    var s := number + d;
    EndsWithItself(number, d);
    assert s[..|s| - |d|] == number;
    var order := [MetersPerSecond, KilometersPerHour, Knots];
    NoEarlierDesignator(number, u);
    match u
    case MetersPerSecond => FirstMatchAt(s, order, 0);
    case KilometersPerHour => FirstMatchAt(s, order, 1);
    case Knots => FirstMatchAt(s, order, 2);
  }

  /** TryParse: an empty input throws ArgumentNullException; `parseNumber` is double.TryParse. */
  function TryParse(input: string, parseNumber: string -> Option<real>): (r: Result<Option<Speed>, Exception>)
    ensures input == "" <==> r.Failure?
    ensures r.Failure? ==> r.error == ArgumentNull("input")
    ensures r.Success? && r.value.Some? ==>
      TryParseUnit(input).Some? && r.value.value.unit == TryParseUnit(input).value.1
      && parseNumber(TryParseUnit(input).value.0) == Some(r.value.value.value)
  {
    if input == "" then Failure(ArgumentNull("input"))
    else
      match TryParseUnit(input)
      case None => Success(None)
      case Some((number, unit)) =>
        match parseNumber(number)
        case None => Success(None)
        case Some(v) => Success(Some(Speed(v, unit)))
  }

  function Parse(input: string, parseNumber: string -> Option<real>): (r: Result<Speed, Exception>)
    ensures r.Success? <==> TryParse(input, parseNumber).Success? && TryParse(input, parseNumber).value.Some?
    ensures r.Success? ==> r.value == TryParse(input, parseNumber).value.value
    ensures r.Failure? && input != "" ==> r.error.Argument?
  {
    match TryParse(input, parseNumber)
    case Failure(e) => Failure(e)
    case Success(None) => Failure(Argument("input is bad formatted."))
    case Success(Some(s)) => Success(s)
  }

  lemma ParseWithDesignator(number: string, u: SpeedUnit, v: real, parseNumber: string -> Option<real>)
    requires parseNumber(number) == Some(v)
    ensures Parse(number + GetUnitDesignator(u), parseNumber) == Success(Speed(v, u))
  {
    TryParseUnitDesignator(number, u);
  }
}
