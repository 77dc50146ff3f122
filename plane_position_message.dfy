/**
 * PlanePositionMessage: the "@" message of the later protocol revision. It
 * carries a whole PlanePosition, whose elevation, ground speed and
 * pressure-altitude offset go on the wire rounded to whole feet and knots.
 */
module PlanePositionMessages {
  import opened Wrappers
  import opened Exceptions
  import opened Numerals
  import opened FsdMessages
  import opened PilotPositionMessages
  import Squawks
  import Distances
  import Speeds
  import PlanePositions

  datatype PlanePositionMessage = PlanePositionMessage(
    header: Header,
    squawkMode: SquawkMode,
    squawk: Squawks.Squawk,
    rating: Int32,
    position: PlanePositions.PlanePosition,
    pitchBankHeading: UInt32)

  /** What every constructed plane message satisfies: type "@", a valid source and no destination. */
  predicate Valid(m: PlanePositionMessage) {
    m.header.msgType == Type && IsValidFsdName(m.header.source) && m.header.destination == ""
  }

  /**
   * The constructor: the base constructor's checks with type "@" and no
   * destination, then a mode value outside SquawkMode.First..SquawkMode.Last
   * throws ArgumentOutOfRangeException. The rating is not checked.
   */
  function New(source: string, squawkMode: Int32, squawk: Squawks.Squawk, rating: Int32,
               position: PlanePositions.PlanePosition, pitchBankHeading: UInt32): (r: Result<PlanePositionMessage, Exception>)
    ensures r.Success? <==> IsValidFsdName(source) && 0 <= squawkMode <= 2
    ensures r.Success? ==> Valid(r.value) && IsBroadcast(r.value.header) && r.value.header.source == source
    ensures (r.Success? ==>
      ModeValue(r.value.squawkMode) == squawkMode && r.value.squawk == squawk && r.value.rating == rating
      && r.value.position == position && r.value.pitchBankHeading == pitchBankHeading)
    ensures !IsValidFsdName(source) ==> r == Failure(Argument("source"))
    ensures IsValidFsdName(source) && !(0 <= squawkMode <= 2) ==> r == Failure(ArgumentOutOfRange("squawkMode"))
  {
    var header :- NewHeader(Type, source, "");
    match ModeOfValue(squawkMode)
    case None => Failure(ArgumentOutOfRange("squawkMode"))
    case Some(mode) => Success(PlanePositionMessage(header, mode, squawk, rating, position, pitchBankHeading))
  }

  /** The Position setter, the one property that may change after construction. */
  function SetPosition(m: PlanePositionMessage, position: PlanePositions.PlanePosition): (r: PlanePositionMessage)
    ensures r.position == position
    ensures r.header == m.header && r.squawkMode == m.squawkMode && r.squawk == m.squawk
    ensures r.rating == m.rating && r.pitchBankHeading == m.pitchBankHeading
    ensures Valid(m) ==> Valid(r)
  {
    m.(position := position)
  }

  /** Elevation in feet. */
  function ElevationFeet(m: PlanePositionMessage): real {
    Distances.AsFeet(m.position.elevation)
  }

  /** Pressure altitude above the elevation, in feet. */
  function AltitudeDeltaFeet(m: PlanePositionMessage): real {
    Distances.AsFeet(m.position.pressureAltitude) - Distances.AsFeet(m.position.elevation)
  }

  /**
   * GetTokens: mode letter, source, octal squawk, rating, latitude,
   * longitude, then elevation in feet, ground speed in knots and pressure
   * altitude minus elevation in feet, each written with the format "0"
   * (rounded), then the pitch/bank/heading word ahead of the last.
   * `formatDouble` is double.ToString with the invariant culture.
   */
  function GetTokens(m: PlanePositionMessage, formatDouble: real -> string): (tokens: seq<string>)
    ensures |tokens| == 10
  {
    Tokens10(
      ModeToken(m.squawkMode),
      m.header.source,
      Squawks.ToString(m.squawk),
      FormatInteger(m.rating),
      formatDouble(m.position.position.y),
      formatDouble(m.position.position.x),
      FormatRounded(ElevationFeet(m)),
      FormatRounded(Speeds.AsKnots(m.position.groundSpeed)),
      FormatInteger(m.pitchBankHeading),
      FormatRounded(AltitudeDeltaFeet(m)))
  }

  /** The wire text of a plane message. */
  function Decompose(m: PlanePositionMessage, formatDouble: real -> string): (wire: string)
    ensures |wire| >= |m.header.msgType| + |End|
    ensures wire[..|m.header.msgType|] == m.header.msgType && wire[|wire| - |End|..] == End
  {
    FsdMessages.Decompose(m.header, GetTokens(m, formatDouble))
  }

  /**
   * The mode token decodes to the mode, the latitude comes before the
   * longitude, and the three measured quantities read back as integers
   * within half a unit of the exact value (rounding, not truncation).
   */
  lemma TokenValues(m: PlanePositionMessage, formatDouble: real -> string)
    ensures var t := GetTokens(m, formatDouble);
      t[0] == ModeToken(m.squawkMode)
      && t[4] == formatDouble(m.position.position.y) && t[5] == formatDouble(m.position.position.x)
      && LiteralValue(t[3]) == Some(m.rating)
      && LiteralValue(t[8]) == Some(m.pitchBankHeading)
      && WithinHalf(t[6], ElevationFeet(m))
      && WithinHalf(t[7], Speeds.AsKnots(m.position.groundSpeed))
      && WithinHalf(t[9], AltitudeDeltaFeet(m))
  {
    LiteralValueOfFormat(m.rating);
    LiteralValueOfFormat(m.pitchBankHeading);
    LiteralValueOfFormatRounded(ElevationFeet(m));
    LiteralValueOfFormatRounded(Speeds.AsKnots(m.position.groundSpeed));
    LiteralValueOfFormatRounded(AltitudeDeltaFeet(m));
  }

  /** The token reads back as an integer at most half a unit away from `exact`. */
  predicate WithinHalf(token: string, exact: real) {
    var v := LiteralValue(token);
    v.Some? && v.value as real - 0.5 <= exact <= v.value as real + 0.5
  }

  /** When the coordinates are written without ':', no token of a valid plane message holds the separator. */
  lemma TokensHaveNoSeparator(m: PlanePositionMessage, formatDouble: real -> string)
    requires Valid(m)
    requires ':' !in formatDouble(m.position.position.y) && ':' !in formatDouble(m.position.position.x)
    ensures SeparatorFree(GetTokens(m, formatDouble))
  {
    SquawkHasNoSeparator(m.squawk);
    ValidNameHasNoSeparator(m.header.source);
    IntegerHasNoSeparator(m.rating);
    IntegerHasNoSeparator(m.pitchBankHeading);
    RoundedHasNoSeparator(ElevationFeet(m));
    RoundedHasNoSeparator(Speeds.AsKnots(m.position.groundSpeed));
    RoundedHasNoSeparator(AltitudeDeltaFeet(m));
    SeparatorFreeTen(GetTokens(m, formatDouble));
  }

  lemma RoundedHasNoSeparator(r: real)
    ensures ':' !in FormatRounded(r)
  {
    var s := FormatRounded(r);
    var n := RoundAwayFromZero(r);
    var digits := ToDigits(if r < 0.0 then -n else n, 10);
    forall k | 0 <= k < |s|
      ensures s[k] != ':'
    {
      if r < 0.0 && k > 0 {
        assert s[k] == digits[k - 1];
      }
    }
  }
}
