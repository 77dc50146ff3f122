/** Distance: a value tagged with its unit; arithmetic works in the smaller of two units. */
module Distances {
  import opened Wrappers
  import opened Exceptions
  import opened Text
  import opened Floating

  /** In declaration order: the enum index decides which unit arithmetic uses. */
  datatype DistanceUnit = Feet | Meters | Kilometers | NauticalMiles

  function Index(u: DistanceUnit): nat {
    match u
    case Feet => 0
    case Meters => 1
    case Kilometers => 2
    case NauticalMiles => 3
  }

  /** (DistanceUnit)Math.Min((int)a, (int)b). */
  function MinUnit(a: DistanceUnit, b: DistanceUnit): (u: DistanceUnit)
    ensures u == a || u == b
    ensures Index(u) <= Index(a) && Index(u) <= Index(b)
  {
    if Index(a) <= Index(b) then a else b
  }

  datatype Distance = Distance(value: real, unit: DistanceUnit)

  const Zero: Distance := Distance(0.0, Meters)

  const NauticalMilesPerMeter: real := 0.000539956803
  const MetersPerNauticalMile: real := 1852.0
  const NauticalMilesPerKilometer: real := 0.539956803
  const KilometersPerNauticalMile: real := 1.852
  const MetersPerKilometer: real := 1000.0
  const KilometersPerMeter: real := 0.001
  const FeetPerMeter: real := 3.2808399
  const MetersPerFeet: real := 0.3048
  const FeetPerKilometer: real := 3280.8399
  const KilometersPerFeet: real := 0.0003048
  const FeetPerNauticalMile: real := 6076.11549
  const NauticalMilesPerFeet: real := 0.000164578834

  function AsMeters(d: Distance): (r: real)
    ensures d.unit == Meters ==> r == d.value
  {
    match d.unit
    case Meters => d.value
    case NauticalMiles => d.value * MetersPerNauticalMile
    case Kilometers => d.value * MetersPerKilometer
    case Feet => d.value * MetersPerFeet
  }

  function AsNauticalMiles(d: Distance): (r: real)
    ensures d.unit == NauticalMiles ==> r == d.value
  {
    match d.unit
    case Meters => d.value * NauticalMilesPerMeter
    case NauticalMiles => d.value
    case Kilometers => d.value * NauticalMilesPerKilometer
    case Feet => d.value * NauticalMilesPerFeet
  }

  function AsKilometers(d: Distance): (r: real)
    ensures d.unit == Kilometers ==> r == d.value
  {
    match d.unit
    case Meters => d.value * KilometersPerMeter
    case Kilometers => d.value
    case NauticalMiles => d.value * KilometersPerNauticalMile
    case Feet => d.value * KilometersPerFeet
  }

  function AsFeet(d: Distance): (r: real)
    ensures d.unit == Feet ==> r == d.value
  {
    match d.unit
    case Feet => d.value
    case Kilometers => d.value * FeetPerKilometer
    case Meters => d.value * FeetPerMeter
    case NauticalMiles => d.value * FeetPerNauticalMile
  }

  /** The value expressed in `u`; in the distance's own unit it is the stored value. */
  function AsUnit(d: Distance, u: DistanceUnit): (r: real)
    ensures u == d.unit ==> r == d.value
  {
    match u
    case Meters => AsMeters(d)
    case Kilometers => AsKilometers(d)
    case NauticalMiles => AsNauticalMiles(d)
    case Feet => AsFeet(d)
  }

  /** The same distance expressed in `u`. */
  function ToUnit(d: Distance, u: DistanceUnit): (r: Distance)
    ensures r.unit == u
    ensures u == d.unit ==> r == d
  {
    Distance(AsUnit(d, u), u)
  }

  /** Distance.Convert: a value of one unit in another. */
  function Convert(value: real, source: DistanceUnit, target: DistanceUnit): (r: real)
    ensures source == target ==> r == value
  {
    ToUnit(Distance(value, source), target).value
  }

  function FromFeet(feet: real): (d: Distance)
    ensures d.unit == Feet && AsFeet(d) == feet
  {
    Distance(feet, Feet)
  }

  function FromMeters(meters: real): (d: Distance)
    ensures d.unit == Meters && AsMeters(d) == meters
  {
    Distance(meters, Meters)
  }

  function FromKilometers(kilometers: real): (d: Distance)
    ensures d.unit == Kilometers && AsKilometers(d) == kilometers
  {
    Distance(kilometers, Kilometers)
  }

  function FromNauticalMiles(nauticalMiles: real): (d: Distance)
    ensures d.unit == NauticalMiles && AsNauticalMiles(d) == nauticalMiles
  {
    Distance(nauticalMiles, NauticalMiles)
  }

  // ---------------------------------------------------------------------------
  // Arithmetic

  /** operator +: both operands in the unit with the smaller index, added. */
  function Add(a: Distance, b: Distance): (r: Distance)
    ensures r.unit == MinUnit(a.unit, b.unit)
    ensures AsUnit(r, r.unit) == AsUnit(a, r.unit) + AsUnit(b, r.unit)
  {
    var u := MinUnit(a.unit, b.unit);
    Distance(AsUnit(a, u) + AsUnit(b, u), u)
  }

  /** operator -: both operands in the unit with the smaller index, subtracted. */
  function Sub(a: Distance, b: Distance): (r: Distance)
    ensures r.unit == MinUnit(a.unit, b.unit)
    ensures AsUnit(r, r.unit) == AsUnit(a, r.unit) - AsUnit(b, r.unit)
  {
    var u := MinUnit(a.unit, b.unit);
    Distance(AsUnit(a, u) - AsUnit(b, u), u)
  }

  /** Unary operator -. */
  function Neg(d: Distance): (r: Distance)
    ensures r.unit == d.unit && r.value == -d.value
  {
    Distance(-d.value, d.unit)
  }

  /** operator * (Distance, double) and operator * (double, Distance). */
  function Scale(d: Distance, k: real): (r: Distance)
    ensures r.unit == d.unit && r.value == d.value * k
  {
    Distance(d.value * k, d.unit)
  }

  /** operator / (Distance, double), for a non-zero divisor. */
  function Div(d: Distance, k: real): (r: Distance)
    requires k != 0.0
    ensures r.unit == d.unit && r.value * k == d.value
  {
    Distance(d.value / k, d.unit)
  }

  /** Sum and difference of distances of one unit stay in that unit, and a difference undoes a sum. */
  lemma AddSubSameUnit(a: Distance, b: Distance)
    requires a.unit == b.unit
    ensures Add(a, b) == Distance(a.value + b.value, a.unit)
    ensures Sub(Add(a, b), b) == a
  {
  }

  /** Conversion commutes with negation and scaling, which keep the unit. */
  lemma ConversionIsLinear(d: Distance, k: real, u: DistanceUnit)
    ensures AsUnit(Neg(d), u) == -AsUnit(d, u)
    ensures AsUnit(Scale(d, k), u) == AsUnit(d, u) * k
  {
    match u
    case Meters =>
    case Kilometers =>
    case NauticalMiles =>
    case Feet =>
  }

  // ---------------------------------------------------------------------------
  // Comparison

  /** operator ==: FloatingEqual with tolerance 1e-5 in the smaller unit. */
  predicate Eq(a: Distance, b: Distance)
    ensures a.unit == b.unit ==> (Eq(a, b) <==> FloatingEqual(a.value, b.value, 0.00001))
    ensures a == b ==> Eq(a, b)
  {
    var u := MinUnit(a.unit, b.unit);
    FloatingEqual(AsUnit(a, u), AsUnit(b, u), 0.00001)
  }

  /** operator <: the readings in the smaller unit compared; in one unit, the values. */
  predicate Less(a: Distance, b: Distance)
    ensures a.unit == b.unit ==> (Less(a, b) <==> a.value < b.value)
  {
    var u := MinUnit(a.unit, b.unit);
    AsUnit(a, u) < AsUnit(b, u)
  }

  /** operator >: the mirror image of `<`, and never both. */
  predicate Greater(a: Distance, b: Distance)
    ensures Greater(a, b) <==> Less(b, a)
    ensures Greater(a, b) ==> !Less(a, b)
  {
    var u := MinUnit(a.unit, b.unit);
    AsUnit(a, u) > AsUnit(b, u)
  }

  /** operator <=: `<` or `==`, so it fails only where `>` holds. */
  predicate LessOrEqual(a: Distance, b: Distance)
    ensures a.unit == b.unit ==> (LessOrEqual(a, b) <==> a.value < b.value || FloatingEqual(a.value, b.value, 0.00001))
    ensures LessOrEqual(a, b) || Greater(a, b)
  {
    Less(a, b) || Eq(a, b)
  }

  /** operator >=: `>` or `==`, the mirror image of `<=`. */
  predicate GreaterOrEqual(a: Distance, b: Distance)
    ensures GreaterOrEqual(a, b) <==> LessOrEqual(b, a)
  {
    EqSymmetric(a, b);
    Greater(a, b) || Eq(a, b)
  }

  /** CompareTo: 0 when equal within tolerance, -1 when `d` is the larger, +1 otherwise. */
  function CompareTo(d: Distance, other: Distance): (c: int)
    ensures c == -1 || c == 0 || c == 1
    ensures c == 0 <==> Eq(other, d)
    ensures c == -1 <==> !Eq(other, d) && Greater(d, other)
  {
    if Eq(other, d) then 0 else if Less(other, d) then -1 else 1
  }

  lemma EqSymmetric(a: Distance, b: Distance)
    ensures Eq(a, b) == Eq(b, a)
  {
    var u := MinUnit(a.unit, b.unit);
    assert MinUnit(b.unit, a.unit) == u;
    FloatingEqualSymmetric(AsUnit(a, u), AsUnit(b, u), 0.00001);
  }

  /** The comparison convention is reversed: the larger distance compares below the smaller. */
  lemma CompareToReversed(a: Distance, b: Distance)
    requires a.unit == b.unit && a.value > b.value && !Eq(a, b)
    ensures CompareTo(a, b) == -1 && CompareTo(b, a) == 1
  {
    EqSymmetric(a, b);
  }

  /** Equals(Distance): the identical value and unit; unlike ==, no tolerance and no conversion. */
  predicate Equals(d: Distance, other: Distance) {
    other.value == d.value && other.unit == d.unit
  }

  lemma EqualsIsIdentity(a: Distance, b: Distance)
    ensures Equals(a, b) <==> a == b
    ensures Equals(a, b) ==> Eq(a, b) && CompareTo(a, b) == 0
  {
  }

  /** One mile and its value in metres are equal under == but not under Equals. */
  lemma EqualsIsStricterThanEq()
    ensures Eq(Distance(1.0, NauticalMiles), Distance(1852.0, Meters))
    ensures !Equals(Distance(1.0, NauticalMiles), Distance(1852.0, Meters))
  {
  }

  // ---------------------------------------------------------------------------
  // Parsing

  function GetUnitDesignator(u: DistanceUnit): (s: string)
    ensures |s| >= 1 && IsAsciiLetter(s[|s| - 1])
  {
    match u
    case Meters => "m"
    case Kilometers => "km"
    case NauticalMiles => "nm"
    case Feet => "ft"
  }

  /**
   * The first unit of `units`, from position `i` on, whose designator ends
   * `s` ignoring case, with the designator removed.
   */
  function FirstDesignatorMatch(s: string, units: seq<DistanceUnit>, i: nat): (r: Option<(string, DistanceUnit)>)
    requires i <= |units|
    ensures r.Some? ==>
      r.value.1 in units[i..] && EndsWithIgnoreCase(s, GetUnitDesignator(r.value.1))
      && r.value.0 == s[..|s| - |GetUnitDesignator(r.value.1)|]
    decreases |units| - i
  {
    if i == |units| then None
    else if EndsWithIgnoreCase(s, GetUnitDesignator(units[i])) then
      Some((s[..|s| - |GetUnitDesignator(units[i])|], units[i]))
    else FirstDesignatorMatch(s, units, i + 1)
  }

  /** The order in which TryParseUnit as written tries the designators: the enum's order. */
  const EnumOrder: seq<DistanceUnit> := [Feet, Meters, Kilometers, NauticalMiles]

  /** The designators longest first. */
  const LongestFirst: seq<DistanceUnit> := [Feet, Kilometers, NauticalMiles, Meters]

  /** TryParseUnit as written: trims the end, then tries the designators in enum order. */
  function TryParseUnitAsWritten(input: string): (r: Option<(string, DistanceUnit)>)
    ensures r.Some? ==> EndsWithIgnoreCase(TrimEnd(input), GetUnitDesignator(r.value.1))
    ensures r.Some? ==> |r.value.0| + |GetUnitDesignator(r.value.1)| <= |input| && r.value.0 == input[..|r.value.0|]
  {
    FirstDesignatorMatch(TrimEnd(input), EnumOrder, 0)
  }

  /** As written, "km" and "nm" also end in the metre designator "m", which is tried first. */
  lemma TryParseUnitAsWrittenNeverKilometers(input: string)
    ensures TryParseUnitAsWritten(input).Some? ==> TryParseUnitAsWritten(input).value.1 in {Feet, Meters}
  {
    var t := TrimEnd(input);
    EndsWithOne(t, 'm');
    EndsWithTwo(t, 'k', 'm');
    EndsWithTwo(t, 'n', 'm');
  }

  /** "5km" and "5nm" are read as "5k" and "5n" metres. */
  lemma TryParseUnitAsWrittenExamples()
    ensures TryParseUnitAsWritten("5km") == Some(("5k", Meters))
    ensures TryParseUnitAsWritten("5nm") == Some(("5n", Meters))
  {
    ReadAsMeters("5k");
    assert "5k" + "m" == "5km";
    ReadAsMeters("5n");
    assert "5n" + "m" == "5nm";
  }

  /** As written, a text ending in a letter other than 'f' followed by 'm' is read as metres. */
  lemma ReadAsMeters(number: string)
    requires |number| > 0 && IsAsciiLetter(number[|number| - 1]) && ToUpper(number[|number| - 1]) != 'F'
    ensures TryParseUnitAsWritten(number + "m") == Some((number, Meters))
  {
    var t := number + "m";
    TrimEndOfLetter(t);
    EndsWithTwo(t, 'f', 't');
    EndsWithOne(t, 'm');
    assert t[..|t| - 1] == number;
  }

  /**
   * TryParseUnit with the designators tried longest first (feet, kilometres,
   * nautical miles, metres), so that each unit is reachable.
   */
  function TryParseUnit(input: string): (r: Option<(string, DistanceUnit)>)
    ensures r.Some? ==> EndsWithIgnoreCase(TrimEnd(input), GetUnitDesignator(r.value.1))
    ensures r.Some? ==> |r.value.0| + |GetUnitDesignator(r.value.1)| <= |input| && r.value.0 == input[..|r.value.0|]
  {
    FirstDesignatorMatch(TrimEnd(input), LongestFirst, 0)
  }

  /** A number text followed by a designator yields that unit and the number text. */
  lemma TryParseUnitDesignator(number: string, u: DistanceUnit)
    requires number == [] || !IsAsciiLetter(number[|number| - 1])
    ensures TryParseUnit(number + GetUnitDesignator(u)) == Some((number, u))
  {
    var d := GetUnitDesignator(u);
    var s := number + d;
    TrimEndOfLetter(s);
    EndsWithItself(number, d);
    assert s[..|s| - |d|] == number;
    NoEarlierDesignator(number, u);
    LongestFirstChain(s);
  }

  /** The search over LongestFirst written out as a chain of tests. */
  lemma LongestFirstChain(s: string)
    ensures FirstDesignatorMatch(s, LongestFirst, 0) ==
      if EndsWithIgnoreCase(s, "ft") then Some((s[..|s| - 2], Feet))
      else if EndsWithIgnoreCase(s, "km") then Some((s[..|s| - 2], Kilometers))
      else if EndsWithIgnoreCase(s, "nm") then Some((s[..|s| - 2], NauticalMiles))
      else if EndsWithIgnoreCase(s, "m") then Some((s[..|s| - 1], Meters))
      else None
  {
    MatchStep(s, LongestFirst, 0);
    MatchStep(s, LongestFirst, 1);
    MatchStep(s, LongestFirst, 2);
    MatchStep(s, LongestFirst, 3);
  }

  /** One test of the search: the designator at `i` matches, or the search goes on. */
  lemma MatchStep(s: string, units: seq<DistanceUnit>, i: nat)
    requires i < |units|
    ensures FirstDesignatorMatch(s, units, i) ==
      if EndsWithIgnoreCase(s, GetUnitDesignator(units[i])) then Some((s[..|s| - |GetUnitDesignator(units[i])|], units[i]))
      else if i + 1 == |units| then None else FirstDesignatorMatch(s, units, i + 1)
  {
  }

  /** No designator tried before that of `u` ends a number text followed by the designator of `u`. */
  lemma NoEarlierDesignator(number: string, u: DistanceUnit)
    requires number == [] || !IsAsciiLetter(number[|number| - 1])
    ensures u != Feet ==> !EndsWithIgnoreCase(number + GetUnitDesignator(u), "ft")
    ensures u == NauticalMiles || u == Meters ==> !EndsWithIgnoreCase(number + GetUnitDesignator(u), "km")
    ensures u == Meters ==> !EndsWithIgnoreCase(number + GetUnitDesignator(u), "nm")
  {
    var s := number + GetUnitDesignator(u);
    EndsWithTwo(s, 'f', 't');
    EndsWithTwo(s, 'k', 'm');
    EndsWithTwo(s, 'n', 'm');
    if u == Meters && number != [] {
      assert s[|s| - 2] == number[|number| - 1];
    }
  }

  lemma TrimEndOfLetter(s: string)
    requires |s| > 0 && IsAsciiLetter(s[|s| - 1])
    ensures TrimEnd(s) == s
  {
  }

  lemma {:induction false} EndsWithItself(prefix: string, suffix: string)
    ensures EndsWithIgnoreCase(prefix + suffix, suffix)
  {
    if suffix != [] {
      var s := prefix + suffix;
      assert s[..|s| - 1] == prefix + suffix[..|suffix| - 1];
      EndsWithItself(prefix, suffix[..|suffix| - 1]);
    }
  }

  /**
   * TryParse: an empty input throws ArgumentNullException; otherwise the
   * result is None when no designator matches or the number does not parse.
   * `parseNumber` is double.TryParse with the caller's style and culture.
   */
  function TryParse(input: string, parseNumber: string -> Option<real>): (r: Result<Option<Distance>, Exception>)
    ensures input == "" <==> r.Failure?
    ensures r.Failure? ==> r.error == ArgumentNull("input")
    ensures r.Success? && r.value.Some? ==>
      TryParseUnit(input).Some? && r.value.value.unit == TryParseUnit(input).value.1
      && parseNumber(TryParseUnit(input).value.0) == Some(r.value.value.value)
  {
    if input == "" then Failure(ArgumentNull("input"))
    else
      match TryParseUnit(input)
      case None => Success(None)
      case Some((number, unit)) =>
        match parseNumber(number)
        case None => Success(None)
        case Some(v) => Success(Some(Distance(v, unit)))
  }

  /** Parse: TryParse, with a failed parse thrown as ArgumentException. */
  function Parse(input: string, parseNumber: string -> Option<real>): (r: Result<Distance, Exception>)
    ensures r.Success? <==> TryParse(input, parseNumber).Success? && TryParse(input, parseNumber).value.Some?
    ensures r.Success? ==> r.value == TryParse(input, parseNumber).value.value
    ensures r.Failure? && input != "" ==> r.error.Argument?
  {
    match TryParse(input, parseNumber)
    case Failure(e) => Failure(e)
    case Success(None) => Failure(Argument("input is bad formatted."))
    case Success(Some(d)) => Success(d)
  }

  /** The text of a number and a designator parses to that number in that unit. */
  lemma ParseWithDesignator(number: string, u: DistanceUnit, v: real, parseNumber: string -> Option<real>)
    requires number == [] || !IsAsciiLetter(number[|number| - 1])
    requires parseNumber(number) == Some(v)
    ensures Parse(number + GetUnitDesignator(u), parseNumber) == Success(Distance(v, u))
  {
    TryParseUnitDesignator(number, u);
  }
}
