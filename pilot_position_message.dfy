/**
 * PilotPositionMessage: the "@" message a pilot client broadcasts with its
 * transponder state, rating, position, altitude, ground speed and the packed
 * pitch/bank/heading word.
 */
module PilotPositionMessages {
  import opened Wrappers
  import opened Exceptions
  import opened Numerals
  import opened FsdMessages
  import Squawks
  import Distances
  import Speeds

  const Type: string := "@"

  /** The transponder mode; one enum serves the pilot and the plane message. */
  datatype SquawkMode = Standby | Charlie | Ident

  /** The value of the enum member (Standby = 0, Charlie = 1, Ident = 2). */
  function ModeValue(m: SquawkMode): (v: nat)
    ensures v <= 2
  {
    match m
    case Standby => 0
    case Charlie => 1
    case Ident => 2
  }

  /** The enum member with the given value, if there is one (SquawkMode.First..SquawkMode.Last). */
  function ModeOfValue(v: int): (m: Option<SquawkMode>)
    ensures m.Some? <==> 0 <= v <= 2
    ensures m.Some? ==> ModeValue(m.value) == v
  {
    if v == 0 then Some(Standby)
    else if v == 1 then Some(Charlie)
    else if v == 2 then Some(Ident)
    else None
  }

  /** The mode letter on the wire: S, N and Y. */
  function ModeToken(m: SquawkMode): (t: string)
    ensures |t| == 1 && ':' !in t
  {
    match m
    case Standby => "S"
    case Charlie => "N"
    case Ident => "Y"
  }

  lemma ModeTokenInjective(a: SquawkMode, b: SquawkMode)
    ensures ModeToken(a) == ModeToken(b) <==> a == b
  {
  }

  /** PilotRating: FS1 = 2 up to ShowAdministrator = 11. */
  const FirstRating: int := 2
  const LastRating: int := 11

  type PilotRating = r: int | FirstRating <= r <= LastRating witness FirstRating

  /** A geographic coordinate: x is the longitude, y the latitude. */
  datatype Coordinate = Coordinate(x: real, y: real)

  datatype PilotPositionMessage = PilotPositionMessage(
    header: Header,
    squawkMode: SquawkMode,
    squawk: Squawks.Squawk,
    pilotRating: PilotRating,
    position: Coordinate,
    trueAltitude: Distances.Distance,
    groundSpeed: Speeds.Speed,
    pitchBankHeading: UInt32,
    altitudeDifference: Int32)

  /** What every constructed pilot message satisfies: type "@", a valid source and no destination. */
  predicate Valid(m: PilotPositionMessage) {
    m.header.msgType == Type && IsValidFsdName(m.header.source) && m.header.destination == ""
  }

  /**
   * The constructor: the base constructor's checks with type "@" and no
   * destination, then a mode value outside Standby..Ident and a rating outside
   * FS1..ShowAdministrator throw ArgumentOutOfRangeException, in that order.
   * The fields are stored unchanged.
   */
  function New(source: string, squawkMode: Int32, squawk: Squawks.Squawk, rating: Int32, position: Coordinate,
               trueAltitude: Distances.Distance, groundSpeed: Speeds.Speed, pitchBankHeading: UInt32,
               altitudeDifference: Int32): (r: Result<PilotPositionMessage, Exception>)
    ensures r.Success? <==> IsValidFsdName(source) && 0 <= squawkMode <= 2 && FirstRating <= rating <= LastRating
    ensures r.Success? ==> Valid(r.value) && IsBroadcast(r.value.header) && r.value.header.source == source
    ensures (r.Success? ==>
      ModeValue(r.value.squawkMode) == squawkMode && r.value.squawk == squawk
      && r.value.pilotRating == rating && r.value.position == position
      && r.value.trueAltitude == trueAltitude && r.value.groundSpeed == groundSpeed
      && r.value.pitchBankHeading == pitchBankHeading && r.value.altitudeDifference == altitudeDifference)
    ensures !IsValidFsdName(source) ==> r == Failure(Argument("source"))
    ensures (IsValidFsdName(source) && !(0 <= squawkMode <= 2)
      ==> r == Failure(ArgumentOutOfRange("squawkMode")))
    ensures (IsValidFsdName(source) && 0 <= squawkMode <= 2 && !(FirstRating <= rating <= LastRating)
      ==> r == Failure(ArgumentOutOfRange("rating")))
  {
    var header :- NewHeader(Type, source, "");
    match ModeOfValue(squawkMode)
    case None => Failure(ArgumentOutOfRange("squawkMode"))
    case Some(mode) =>
      if rating < FirstRating || rating > LastRating then Failure(ArgumentOutOfRange("rating"))
      else Success(PilotPositionMessage(header, mode, squawk, rating, position, trueAltitude, groundSpeed,
                                        pitchBankHeading, altitudeDifference))
  }

  /**
   * OnGround on a little-endian host: the mask test against 0x2, that is
   * bit 1 of the pitch/bank/heading word.
   */
  predicate OnGround(m: PilotPositionMessage)
    ensures OnGround(m) <==> m.pitchBankHeading % 4 >= 2
  {
    (m.pitchBankHeading / 2) % 2 == 1
  }

  /** The pitch/bank/heading words of the protocol tests: 1073741826 is on the ground, 1077591040 is not. */
  lemma OnGroundExamples(m: PilotPositionMessage)
    ensures m.pitchBankHeading == 1073741826 ==> OnGround(m)
    ensures m.pitchBankHeading == 1077591040 ==> !OnGround(m)
  {
  }

  /**
   * GetTokens: mode letter, source, octal squawk, rating, latitude,
   * longitude, true altitude in whole feet and ground speed in whole knots
   * (both cast to int, that is truncated), the pitch/bank/heading word and
   * the altitude difference. `formatDouble` is double.ToString with the
   * invariant culture.
   */
  function GetTokens(m: PilotPositionMessage, formatDouble: real -> string): (tokens: seq<string>)
    ensures |tokens| == 10
  {
    Tokens10(
      ModeToken(m.squawkMode),
      m.header.source,
      Squawks.ToString(m.squawk),
      FormatInteger(m.pilotRating),
      formatDouble(m.position.y),
      formatDouble(m.position.x),
      FormatInteger(TruncateToInt32(Distances.AsFeet(m.trueAltitude))),
      FormatInteger(TruncateToInt32(Speeds.AsKnots(m.groundSpeed))),
      FormatInteger(m.pitchBankHeading),
      FormatInteger(m.altitudeDifference))
  }

  /** The wire text of a pilot message. */
  function Decompose(m: PilotPositionMessage, formatDouble: real -> string): (wire: string)
    ensures |wire| >= |m.header.msgType| + |End|
    ensures wire[..|m.header.msgType|] == m.header.msgType && wire[|wire| - |End|..] == End
  {
    FsdMessages.Decompose(m.header, GetTokens(m, formatDouble))
  }

  lemma IntegerHasNoSeparator(i: int)
    ensures ':' !in FormatInteger(i)
  {
  }

  /** When the coordinates are written without ':', no token of a valid pilot message holds the separator. */
  lemma TokensHaveNoSeparator(m: PilotPositionMessage, formatDouble: real -> string)
    requires Valid(m)
    requires ':' !in formatDouble(m.position.y) && ':' !in formatDouble(m.position.x)
    ensures SeparatorFree(GetTokens(m, formatDouble))
  {
    SquawkHasNoSeparator(m.squawk);
    ValidNameHasNoSeparator(m.header.source);
    IntegerHasNoSeparator(m.pilotRating);
    IntegerHasNoSeparator(TruncateToInt32(Distances.AsFeet(m.trueAltitude)));
    IntegerHasNoSeparator(TruncateToInt32(Speeds.AsKnots(m.groundSpeed)));
    IntegerHasNoSeparator(m.pitchBankHeading);
    IntegerHasNoSeparator(m.altitudeDifference);
    SeparatorFreeTen(GetTokens(m, formatDouble));
  }

  lemma SquawkHasNoSeparator(s: Squawks.Squawk)
    ensures ':' !in Squawks.ToString(s)
  {
    var text := Squawks.ToString(s);
    assert forall k | 0 <= k < |text| :: IsDigitOf(text[k], 8);
  }
}
