/**
 * The decoding side of the FSD protocol: the per-kind field decoders of
 * MessageVisitor, the visitor's message list, and a hand-written tokenizer
 * standing in for the generated grammar, so that the decoders can be
 * proved to invert the encoders of each message kind.
 */
module MessageVisitors {
  import opened Wrappers
  import opened Exceptions
  import opened Text
  import opened Numerals
  import opened FsdMessages
  import opened PilotPositionMessages
  import Squawks
  import Distances
  import Speeds
  import PlanePositionMessages
  import WeatherDataMessages
  import DeleteMessages

  /** A decoded or queued message of any kind. */
  datatype Message =
    | PilotPosition(pilot: PilotPositionMessage)
    | PlanePosition(plane: PlanePositionMessages.PlanePositionMessage)
    | WeatherData(weather: WeatherDataMessages.WeatherDataMessage)
    | Delete(delete: DeleteMessages.DeleteMessage)

  // ---------------------------------------------------------------------------
  // Parse-tree contexts: the token texts the grammar hands to the visitor

  datatype PilotPositionContext = PilotPositionContext(
    sqkMode: string, source: string, squawk: string, rating: string, lat: string, lon: string,
    altitude: string, speed: string, pbh: string, altitudeDiff: string)

  datatype WeatherDataContext = WeatherDataContext(source: string, destination: string, request: string, data: string)

  datatype ParseTree =
    | PilotPositionTree(pilotContext: PilotPositionContext)
    | WeatherDataTree(weatherContext: WeatherDataContext)
    | DeletePilotTree(pilotSource: string)
    | DeleteAtcTree(atcSource: string)

  // ---------------------------------------------------------------------------
  // Field decoders

  /** The squawk-mode letter, compared after upper-casing: N is Charlie, S Standby, Y Ident. */
  function DecodeSquawkMode(text: string): (r: Result<SquawkMode, Exception>)
    ensures r.Success? <==> ToUpperString(text) in {"N", "S", "Y"}
    ensures r.Success? ==> ModeToken(r.value) == ToUpperString(text)
    ensures r.Failure? ==> r.error.InvalidMessage?
  {
    var upper := ToUpperString(text);
    if upper == "N" then Success(Charlie)
    else if upper == "S" then Success(Standby)
    else if upper == "Y" then Success(Ident)
    else Failure(InvalidMessage("invalid squawk mode token"))
  }

  /** Decoding the letter the encoder writes gives the mode back. */
  lemma DecodeModeToken(m: SquawkMode)
    ensures DecodeSquawkMode(ModeToken(m)) == Success(m)
  {
    var t := ModeToken(m);
    assert ToUpperString(t) == t by { assert ToUpper(t[0]) == t[0]; }
  }

  /** Lower-case letters are accepted; "B", "5" and the empty token are refused. */
  lemma DecodeSquawkModeExamples()
    ensures DecodeSquawkMode("n") == Success(Charlie)
    ensures DecodeSquawkMode("y") == Success(Ident)
    ensures DecodeSquawkMode("B").Failure? && DecodeSquawkMode("5").Failure? && DecodeSquawkMode("").Failure?
  {
    assert ToUpperString("n") == "N" by { assert ToUpperString("n")[0] == ToUpper('n'); }
    assert ToUpperString("y") == "Y" by { assert ToUpperString("y")[0] == ToUpper('y'); }
    assert ToUpperString("B")[0] == 'B';
    assert ToUpperString("5")[0] == '5';
  }

  /**
   * Squawk.Parse with its ArgumentException (and subclasses) turned into an
   * invalid-message error; an OverflowException passes through.
   */
  function DecodeSquawk(text: string): (r: Result<Squawks.Squawk, Exception>)
    ensures r.Success? <==> Squawks.Parse(text).Success?
    ensures r.Success? ==> r.value == Squawks.Parse(text).value
    ensures r.Failure? ==> r.error.InvalidMessage? || r.error == Overflow
  {
    match Squawks.Parse(text)
    case Success(s) => Success(s)
    case Failure(e) => if IsArgumentException(e) then Failure(InvalidMessage("invalid squawk token")) else Failure(e)
  }

  /** The squawk tokens of the protocol tests that are refused become invalid-message errors. */
  lemma DecodeSquawkRejections()
    ensures DecodeSquawk("7800").Failure? && DecodeSquawk("7800").error.InvalidMessage?
    ensures DecodeSquawk("-0000").Failure? && DecodeSquawk("-0000").error.InvalidMessage?
    ensures DecodeSquawk("77775").Failure? && DecodeSquawk("77775").error.InvalidMessage?
    ensures DecodeSquawk("").Failure? && DecodeSquawk("").error.InvalidMessage?
  {
    Squawks.ParseRejections();
  }

  /** double.Parse with the invariant culture: `parseDouble` is the number reader, a refusal is a FormatException. */
  function DecodeDouble(text: string, parseDouble: string -> Option<real>): (r: Result<real, Exception>)
    ensures r.Success? <==> parseDouble(text).Some?
    ensures r.Success? ==> r.value == parseDouble(text).value
    ensures r.Failure? ==> r.error == Format
  {
    match parseDouble(text)
    case None => Failure(Format)
    case Some(v) => Success(v)
  }

  // ---------------------------------------------------------------------------
  // The visit methods as functions of the context

  /**
   * VisitPilotPosition: the mode letter, the squawk, then int.Parse of the
   * rating, double.Parse of the longitude and of the latitude, int.Parse of
   * the altitude (feet) and the speed (knots), uint.Parse of the
   * pitch/bank/heading word and int.Parse of the altitude difference, in
   * that order, and finally the constructor. The coordinate takes X from
   * the longitude token and Y from the latitude token.
   */
  function DecodePilotPosition(c: PilotPositionContext, parseDouble: string -> Option<real>): (r: Result<PilotPositionMessage, Exception>)
    ensures DecodeSquawkMode(c.sqkMode).Failure? ==> r == Failure(DecodeSquawkMode(c.sqkMode).error)
    ensures (DecodeSquawkMode(c.sqkMode).Success? && DecodeSquawk(c.squawk).Failure?
      ==> r == Failure(DecodeSquawk(c.squawk).error))
    ensures r.Success? ==> PilotPositionMessages.Valid(r.value) && r.value.header.source == c.source
    ensures r.Success? ==> ModeToken(r.value.squawkMode) == ToUpperString(c.sqkMode)
    ensures r.Success? ==> Squawks.Parse(c.squawk) == Success(r.value.squawk)
    ensures r.Success? ==> IntegerValue(c.rating) == Some(r.value.pilotRating as int)
    ensures r.Success? ==> parseDouble(c.lon) == Some(r.value.position.x) && parseDouble(c.lat) == Some(r.value.position.y)
    ensures r.Success? ==> IntegerValue(c.altitude).Some? && IntegerValue(c.speed).Some?
    ensures r.Success? ==> r.value.trueAltitude == Distances.FromFeet(IntegerValue(c.altitude).value as real)
    ensures r.Success? ==> r.value.groundSpeed == Speeds.FromKnots(IntegerValue(c.speed).value as real)
    ensures r.Success? ==> IntegerValue(c.pbh) == Some(r.value.pitchBankHeading as int)
    ensures r.Success? ==> IntegerValue(c.altitudeDiff) == Some(r.value.altitudeDifference as int)
  {
    var mode :- DecodeSquawkMode(c.sqkMode);
    var squawk :- DecodeSquawk(c.squawk);
    var rating :- ParseInt32(c.rating);
    var lon :- DecodeDouble(c.lon, parseDouble);
    var lat :- DecodeDouble(c.lat, parseDouble);
    var altitude :- ParseInt32(c.altitude);
    var speed :- ParseInt32(c.speed);
    var pbh :- ParseUInt32(c.pbh);
    var altitudeDiff :- ParseInt32(c.altitudeDiff);
    PilotPositionMessages.New(c.source, ModeValue(mode), squawk, rating, Coordinate(lon, lat),
      Distances.FromFeet(altitude as real), Speeds.FromKnots(speed as real), pbh, altitudeDiff)
  }

  /** VisitWeatherData: int.Parse of the request token, then the constructor. */
  function DecodeWeatherData(c: WeatherDataContext): (r: Result<WeatherDataMessages.WeatherDataMessage, Exception>)
    ensures (r.Success? <==>
      ParseInt32(c.request).Success? && WeatherDataMessages.New(c.source, c.destination, ParseInt32(c.request).value, c.data).Success?)
    ensures r.Success? ==> WeatherDataMessages.Valid(r.value) && r.value.data == c.data
    ensures r.Success? ==> r.value.header.source == c.source && r.value.header.destination == c.destination
    ensures r.Success? ==> IntegerValue(c.request) == Some(WeatherDataMessages.RequestValue(r.value.requestType) as int)
    ensures ParseInt32(c.request).Failure? ==> r == Failure(ParseInt32(c.request).error)
  {
    var request :- ParseInt32(c.request);
    WeatherDataMessages.New(c.source, c.destination, request, c.data)
  }

  /** VisitDeletePilot and VisitDeleteAtc: the message is built from the source token alone. */
  function DecodeDelete(kind: DeleteMessages.DeleteKind, source: string): (r: Result<DeleteMessages.DeleteMessage, Exception>)
    ensures r.Success? <==> IsValidFsdName(source)
    ensures r.Success? ==> r.value == DeleteMessages.DeleteMessage(kind, Header(DeleteMessages.TypeOf(kind), source, ""), 0)
    ensures r.Failure? ==> r.error == Argument("source")
  {
    DeleteMessages.NewDefault(kind, source)
  }

  /** The message a visit of the tree adds, or the exception it throws. */
  function DecodeTree(tree: ParseTree, parseDouble: string -> Option<real>): (r: Result<Message, Exception>)
    ensures r.Success? ==> (tree.PilotPositionTree? <==> r.value.PilotPosition?)
    ensures r.Success? ==> (tree.WeatherDataTree? <==> r.value.WeatherData?)
    ensures (r.Success? && tree.DeletePilotTree? ==>
      r.value.Delete? && r.value.delete.kind == DeleteMessages.DeletePlane && r.value.delete.header.source == tree.pilotSource)
    ensures (r.Success? && tree.DeleteAtcTree? ==>
      r.value.Delete? && r.value.delete.kind == DeleteMessages.DeleteAtc && r.value.delete.header.source == tree.atcSource)
    ensures r.Success? ==> !r.value.PlanePosition?
  {
    match tree
    case PilotPositionTree(c) =>
      var m :- DecodePilotPosition(c, parseDouble);
      Success(PilotPosition(m))
    case WeatherDataTree(c) =>
      var m :- DecodeWeatherData(c);
      Success(WeatherData(m))
    case DeletePilotTree(source) =>
      var m :- DecodeDelete(DeleteMessages.DeletePlane, source);
      Success(Delete(m))
    case DeleteAtcTree(source) =>
      var m :- DecodeDelete(DeleteMessages.DeleteAtc, source);
      Success(Delete(m))
  }

  // ---------------------------------------------------------------------------
  // The visitor object

  /** MessageVisitor: the list of messages the last visit produced. */
  class MessageVisitor {
    var messages: seq<Message>

    constructor()
      ensures messages == []
    {
      messages := [];
    }

    /** Visit: clear the list, then let the visit method of the tree's kind append its message. */
    method Visit(tree: ParseTree, parseDouble: string -> Option<real>) returns (outcome: Outcome<Exception>)
      modifies this
      ensures DecodeTree(tree, parseDouble).Success? ==> outcome == Pass && messages == [DecodeTree(tree, parseDouble).value]
      ensures DecodeTree(tree, parseDouble).Failure? ==> outcome == Fail(DecodeTree(tree, parseDouble).error) && messages == []
    {
      messages := [];
      match tree {
        case PilotPositionTree(c) => outcome := VisitPilotPosition(c, parseDouble);
        case WeatherDataTree(c) => outcome := VisitWeatherData(c);
        case DeletePilotTree(source) => outcome := VisitDelete(DeleteMessages.DeletePlane, source);
        case DeleteAtcTree(source) => outcome := VisitDelete(DeleteMessages.DeleteAtc, source);
      }
    }

    method VisitPilotPosition(c: PilotPositionContext, parseDouble: string -> Option<real>) returns (outcome: Outcome<Exception>)
      modifies this
      ensures (DecodePilotPosition(c, parseDouble).Success? ==>
        outcome == Pass && messages == old(messages) + [PilotPosition(DecodePilotPosition(c, parseDouble).value)])
      ensures (DecodePilotPosition(c, parseDouble).Failure? ==>
        outcome == Fail(DecodePilotPosition(c, parseDouble).error) && messages == old(messages))
    {
      match DecodePilotPosition(c, parseDouble)
      case Success(m) =>
        messages := messages + [PilotPosition(m)];
        outcome := Pass;
      case Failure(e) =>
        outcome := Fail(e);
    }

    method VisitWeatherData(c: WeatherDataContext) returns (outcome: Outcome<Exception>)
      modifies this
      ensures (DecodeWeatherData(c).Success? ==>
        outcome == Pass && messages == old(messages) + [WeatherData(DecodeWeatherData(c).value)])
      ensures DecodeWeatherData(c).Failure? ==> outcome == Fail(DecodeWeatherData(c).error) && messages == old(messages)
    {
      match DecodeWeatherData(c)
      case Success(m) =>
        messages := messages + [WeatherData(m)];
        outcome := Pass;
      case Failure(e) =>
        outcome := Fail(e);
    }

    method VisitDelete(kind: DeleteMessages.DeleteKind, source: string) returns (outcome: Outcome<Exception>)
      modifies this
      ensures (DecodeDelete(kind, source).Success? ==>
        outcome == Pass && messages == old(messages) + [Delete(DecodeDelete(kind, source).value)])
      ensures (DecodeDelete(kind, source).Failure? ==>
        outcome == Fail(DecodeDelete(kind, source).error) && messages == old(messages))
    {
      match DecodeDelete(kind, source)
      case Success(m) =>
        messages := messages + [Delete(m)];
        outcome := Pass;
      case Failure(e) =>
        outcome := Fail(e);
    }
  }

  // ---------------------------------------------------------------------------
  // A tokenizer for the fixed colon-separated grammar

  predicate StartsWith(s: string, prefix: string) {
    |prefix| <= |s| && s[..|prefix|] == prefix
  }

  /**
   * The parse tree of one line: the type tag selects the kind, and the rest
   * is split at ':' into exactly the kind's number of tokens. A delete
   * message may carry a second, integer token, which the visitor ignores.
   * Anything else is an invalid message.
   */
  function Tokenize(line: string): (r: Result<ParseTree, Exception>)
    ensures r.Failure? ==> r.error.InvalidMessage?
    ensures r.Success? && r.value.PilotPositionTree? ==> StartsWith(line, PilotPositionMessages.Type)
    ensures r.Success? && r.value.WeatherDataTree? ==> StartsWith(line, WeatherDataMessages.Type)
    ensures r.Success? && r.value.DeletePilotTree? ==> StartsWith(line, DeleteMessages.PlaneType)
    ensures r.Success? && r.value.DeleteAtcTree? ==> StartsWith(line, DeleteMessages.AtcType)
  {
    if StartsWith(line, PilotPositionMessages.Type) then
      var t := Split(line[1..], ':');
      if |t| != 10 then Failure(InvalidMessage("pilot position needs 10 tokens"))
      else Success(PilotPositionTree(PilotPositionContext(t[0], t[1], t[2], t[3], t[4], t[5], t[6], t[7], t[8], t[9])))
    else if StartsWith(line, WeatherDataMessages.Type) then
      var t := Split(line[2..], ':');
      if |t| != 4 then Failure(InvalidMessage("weather data needs 4 tokens"))
      else Success(WeatherDataTree(WeatherDataContext(t[0], t[1], t[2], t[3])))
    else if StartsWith(line, DeleteMessages.PlaneType) || StartsWith(line, DeleteMessages.AtcType) then
      var t := Split(line[3..], ':');
      if |t| > 2 || (|t| == 2 && LiteralValue(t[1]).None?) then Failure(InvalidMessage("delete needs a source and an optional number"))
      else if line[2] == 'P' then Success(DeletePilotTree(t[0]))
      else Success(DeleteAtcTree(t[0]))
    else Failure(InvalidMessage("unknown message type"))
  }

  /** One line, without its terminator: tokenize it, then visit the tree. */
  function ParseLine(line: string, parseDouble: string -> Option<real>): (r: Result<Message, Exception>)
    ensures Tokenize(line).Failure? ==> r == Failure(Tokenize(line).error)
    ensures Tokenize(line).Success? ==> r == DecodeTree(Tokenize(line).value, parseDouble)
  {
    var tree :- Tokenize(line);
    DecodeTree(tree, parseDouble)
  }

  /** The text up to the first "\r\n", or all of it. */
  function FirstLine(input: string): (line: string)
    ensures !HasCrLf(line)
    ensures !HasCrLf(input) ==> line == input
  {
    var k := IndexOfCrLf(input);
    if k < 0 then input
    else
      NoCrLfInPrefix(input[..k + 1], k);
      assert input[..k + 1][..k] == input[..k];
      input[..k]
  }

  /** MessageParser.Parse: the first message of the input, whose terminator is optional. */
  function Parse(input: string, parseDouble: string -> Option<real>): (r: Result<Message, Exception>)
    ensures !HasCrLf(input) ==> r == ParseLine(input, parseDouble)
  {
    ParseLine(FirstLine(input), parseDouble)
  }

  /**
   * MessageParser.Parse driving the visitor object: the visitor must hold
   * exactly one message afterwards, which it always does when the visit
   * succeeds.
   */
  method ParseWith(visitor: MessageVisitor, input: string, parseDouble: string -> Option<real>) returns (r: Result<Message, Exception>)
    modifies visitor
    ensures r == Parse(input, parseDouble)
  {
    match Tokenize(FirstLine(input)) {
      case Failure(e) =>
        r := Failure(e);
      case Success(tree) =>
        var outcome := visitor.Visit(tree, parseDouble);
        if outcome.Fail? {
          r := Failure(outcome.error);
        } else if |visitor.messages| != 1 {
          r := Failure(InvalidMessage("there are no messages"));
        } else {
          r := Success(visitor.messages[0]);
        }
    }
  }

  // ---------------------------------------------------------------------------
  // Round trips: decoding the wire text of a message gives the message back

  /** The wire text of a message without its terminator. */
  function Line(h: Header, tokens: seq<string>): (line: string)
    ensures FsdMessages.Decompose(h, tokens) == line + End
  {
    h.msgType + Join(Separator, tokens)
  }

  /** The line of a message starts with its type tag and the rest splits into its tokens. */
  lemma LineSplits(h: Header, tokens: seq<string>)
    requires |tokens| >= 1 && SeparatorFree(tokens)
    ensures StartsWith(Line(h, tokens), h.msgType)
    ensures Line(h, tokens)[|h.msgType|..] == Join(Separator, tokens)
    ensures Split(Line(h, tokens)[|h.msgType|..], ':') == tokens
  {
    var line := Line(h, tokens);
    assert line[..|h.msgType|] == h.msgType;
    assert line[|h.msgType|..] == Join(Separator, tokens);
    SplitJoin(tokens, ':');
  }

  /** Truncating an integral altitude or speed to Int32 gives the integer back. */
  lemma TruncateIntegral(n: Int32)
    ensures TruncateToInt32(n as real) == n
  {
  }

  /** The context the grammar builds from the tokens of a pilot message. */
  function PilotContextOf(m: PilotPositionMessage, formatDouble: real -> string): (c: PilotPositionContext)
    ensures c.sqkMode == ModeToken(m.squawkMode) && c.source == m.header.source
    ensures c.lat == formatDouble(m.position.y) && c.lon == formatDouble(m.position.x)
  {
    PilotPositionContext(
      ModeToken(m.squawkMode),
      m.header.source,
      Squawks.ToString(m.squawk),
      FormatInteger(m.pilotRating),
      formatDouble(m.position.y),
      formatDouble(m.position.x),
      FormatInteger(TruncateToInt32(Distances.AsFeet(m.trueAltitude))),
      FormatInteger(TruncateToInt32(Speeds.AsKnots(m.groundSpeed))),
      FormatInteger(m.pitchBankHeading),
      FormatInteger(m.altitudeDifference))
  }

  /** The tokenizer hands the pilot tokens to the visitor in wire order. */
  lemma PilotContextOfTokens(m: PilotPositionMessage, formatDouble: real -> string)
    ensures (var t := GetTokens(m, formatDouble);
      PilotContextOf(m, formatDouble) == PilotPositionContext(t[0], t[1], t[2], t[3], t[4], t[5], t[6], t[7], t[8], t[9]))
  {
  }

  /** Each field decoder reads its pilot token back as the field. */
  lemma DecodePilotFields(m: PilotPositionMessage, formatDouble: real -> string, altitude: Int32, speed: Int32)
    requires m.trueAltitude == Distances.FromFeet(altitude as real)
    requires m.groundSpeed == Speeds.FromKnots(speed as real)
    ensures (var c := PilotContextOf(m, formatDouble);
      DecodeSquawkMode(c.sqkMode) == Success(m.squawkMode)
      && DecodeSquawk(c.squawk) == Success(m.squawk)
      && ParseInt32(c.rating) == Success(m.pilotRating as Int32)
      && ParseInt32(c.altitude) == Success(altitude)
      && ParseInt32(c.speed) == Success(speed)
      && ParseUInt32(c.pbh) == Success(m.pitchBankHeading)
      && ParseInt32(c.altitudeDiff) == Success(m.altitudeDifference))
  {
    DecodeModeToken(m.squawkMode);
    Squawks.ParseToString(m.squawk);
    ParseInt32OfFormat(m.pilotRating);
    TruncateIntegral(altitude);
    TruncateIntegral(speed);
    ParseInt32OfFormat(altitude);
    ParseInt32OfFormat(speed);
    ParseUInt32OfFormat(m.pitchBankHeading);
    ParseInt32OfFormat(m.altitudeDifference);
  }

  /** The decoders read the pilot tokens back as the message's fields. */
  lemma DecodePilotTokens(m: PilotPositionMessage, formatDouble: real -> string, parseDouble: string -> Option<real>,
                          altitude: Int32, speed: Int32)
    requires PilotPositionMessages.Valid(m)
    requires parseDouble(formatDouble(m.position.x)) == Some(m.position.x)
    requires parseDouble(formatDouble(m.position.y)) == Some(m.position.y)
    requires m.trueAltitude == Distances.FromFeet(altitude as real)
    requires m.groundSpeed == Speeds.FromKnots(speed as real)
    ensures DecodePilotPosition(PilotContextOf(m, formatDouble), parseDouble) == Success(m)
  {
    var c := PilotContextOf(m, formatDouble);
    DecodePilotFields(m, formatDouble, altitude, speed);
    PilotNewOfFields(m, altitude, speed);
    DecodePilotOfFields(c, parseDouble, m, altitude, speed);
  }

  /** The constructor rebuilds a valid pilot message from its own fields. */
  lemma PilotNewOfFields(m: PilotPositionMessage, altitude: Int32, speed: Int32)
    requires PilotPositionMessages.Valid(m)
    requires m.trueAltitude == Distances.FromFeet(altitude as real)
    requires m.groundSpeed == Speeds.FromKnots(speed as real)
    ensures (PilotPositionMessages.New(m.header.source, ModeValue(m.squawkMode), m.squawk, m.pilotRating, m.position,
      Distances.FromFeet(altitude as real), Speeds.FromKnots(speed as real), m.pitchBankHeading, m.altitudeDifference)
      == Success(m))
  {
    assert ModeOfValue(ModeValue(m.squawkMode)) == Some(m.squawkMode);
    assert m.header == Header(PilotPositionMessages.Type, m.header.source, "");
  }

  /** When every field decoder succeeds with a field of `m` and the constructor gives `m`, the visit gives `m`. */
  lemma DecodePilotOfFields(c: PilotPositionContext, parseDouble: string -> Option<real>, m: PilotPositionMessage,
                            altitude: Int32, speed: Int32)
    requires DecodeSquawkMode(c.sqkMode) == Success(m.squawkMode)
    requires DecodeSquawk(c.squawk) == Success(m.squawk)
    requires ParseInt32(c.rating) == Success(m.pilotRating as Int32)
    requires parseDouble(c.lon) == Some(m.position.x) && parseDouble(c.lat) == Some(m.position.y)
    requires ParseInt32(c.altitude) == Success(altitude) && ParseInt32(c.speed) == Success(speed)
    requires ParseUInt32(c.pbh) == Success(m.pitchBankHeading)
    requires ParseInt32(c.altitudeDiff) == Success(m.altitudeDifference)
    requires c.source == m.header.source
    requires (PilotPositionMessages.New(m.header.source, ModeValue(m.squawkMode), m.squawk, m.pilotRating, m.position,
      Distances.FromFeet(altitude as real), Speeds.FromKnots(speed as real), m.pitchBankHeading, m.altitudeDifference)
      == Success(m))
    ensures DecodePilotPosition(c, parseDouble) == Success(m)
  {
    assert Coordinate(m.position.x, m.position.y) == m.position;
  }

  /** The line of a pilot message is tokenized into its ten tokens in wire order. */
  lemma TokenizePilotLine(h: Header, t: seq<string>)
    requires h.msgType == PilotPositionMessages.Type && |t| == 10 && SeparatorFree(t)
    ensures (Tokenize(Line(h, t))
      == Success(PilotPositionTree(PilotPositionContext(t[0], t[1], t[2], t[3], t[4], t[5], t[6], t[7], t[8], t[9]))))
  {
    LineSplits(h, t);
  }

  /** The line of a weather message is tokenized into its four tokens. */
  lemma TokenizeWeatherLine(h: Header, t: seq<string>)
    requires h.msgType == WeatherDataMessages.Type && |t| == 4 && SeparatorFree(t)
    ensures Tokenize(Line(h, t)) == Success(WeatherDataTree(WeatherDataContext(t[0], t[1], t[2], t[3])))
  {
    var line := Line(h, t);
    LineSplits(h, t);
    assert line[..2] == "&D";
    assert line[..1] != "@" by { assert line[..1][0] == line[..2][0]; }
    TokenizeWeather(line, t);
  }

  lemma TokenizeWeather(line: string, t: seq<string>)
    requires StartsWith(line, WeatherDataMessages.Type) && !StartsWith(line, PilotPositionMessages.Type)
    requires Split(line[2..], ':') == t && |t| == 4
    ensures Tokenize(line) == Success(WeatherDataTree(WeatherDataContext(t[0], t[1], t[2], t[3])))
  {
  }

  /** The line of a delete message with a numeric second token is tokenized by its kind and source. */
  lemma TokenizeDeleteLine(kind: DeleteMessages.DeleteKind, h: Header, t: seq<string>)
    requires h.msgType == DeleteMessages.TypeOf(kind) && |t| == 2 && SeparatorFree(t) && LiteralValue(t[1]).Some?
    ensures (Tokenize(Line(h, t))
      == Success(if kind == DeleteMessages.DeletePlane then DeletePilotTree(t[0]) else DeleteAtcTree(t[0])))
  {
    var line := Line(h, t);
    LineSplits(h, t);
    assert line[..3] == h.msgType;
    assert line[..1] != "@" by { assert line[..1][0] == line[..3][0]; }
    assert line[..2] != "&D" by { assert line[..2][0] == line[..3][0]; }
    TokenizeDelete(kind, line, t);
  }

  lemma TokenizeDelete(kind: DeleteMessages.DeleteKind, line: string, t: seq<string>)
    requires StartsWith(line, DeleteMessages.TypeOf(kind))
    requires !StartsWith(line, PilotPositionMessages.Type) && !StartsWith(line, WeatherDataMessages.Type)
    requires Split(line[3..], ':') == t && |t| == 2 && LiteralValue(t[1]).Some?
    ensures (Tokenize(line)
      == Success(if kind == DeleteMessages.DeletePlane then DeletePilotTree(t[0]) else DeleteAtcTree(t[0])))
  {
    assert line[2] == DeleteMessages.TypeOf(kind)[2];
  }

  /**
   * A pilot message whose altitude is a whole number of feet and whose
   * speed is a whole number of knots, and whose coordinates the number
   * reader reads back, decodes from its own line.
   */
  lemma PilotRoundTrip(m: PilotPositionMessage, formatDouble: real -> string, parseDouble: string -> Option<real>,
                       altitude: Int32, speed: Int32)
    requires PilotPositionMessages.Valid(m)
    requires ':' !in formatDouble(m.position.x) && ':' !in formatDouble(m.position.y)
    requires parseDouble(formatDouble(m.position.x)) == Some(m.position.x)
    requires parseDouble(formatDouble(m.position.y)) == Some(m.position.y)
    requires m.trueAltitude == Distances.FromFeet(altitude as real)
    requires m.groundSpeed == Speeds.FromKnots(speed as real)
    ensures ParseLine(Line(m.header, GetTokens(m, formatDouble)), parseDouble) == Success(PilotPosition(m))
  {
    var t := GetTokens(m, formatDouble);
    var line := Line(m.header, t);
    var c := PilotContextOf(m, formatDouble);
    PilotPositionMessages.TokensHaveNoSeparator(m, formatDouble);
    TokenizePilotLine(m.header, t);
    PilotContextOfTokens(m, formatDouble);
    assert Tokenize(line) == Success(PilotPositionTree(c));
    DecodePilotTokens(m, formatDouble, parseDouble, altitude, speed);
    PilotTreeDecodes(line, c, parseDouble, m);
  }

  /** A line tokenized into a pilot tree whose fields decode to `m` parses as `m`. */
  lemma PilotTreeDecodes(line: string, c: PilotPositionContext, parseDouble: string -> Option<real>, m: PilotPositionMessage)
    requires Tokenize(line) == Success(PilotPositionTree(c))
    requires DecodePilotPosition(c, parseDouble) == Success(m)
    ensures ParseLine(line, parseDouble) == Success(PilotPosition(m))
  {
  }

  /** The weather decoder reads the weather tokens back as the message. */
  lemma DecodeWeatherTokens(m: WeatherDataMessages.WeatherDataMessage)
    requires WeatherDataMessages.Valid(m)
    ensures (var t := WeatherDataMessages.GetTokens(m);
      DecodeWeatherData(WeatherDataContext(t[0], t[1], t[2], t[3])) == Success(m))
  {
    var request := WeatherDataMessages.RequestValue(m.requestType);
    ParseInt32OfFormat(request);
    assert WeatherDataMessages.RequestOfValue(request) == Some(m.requestType);
    assert m.header == Header(WeatherDataMessages.Type, m.header.source, m.header.destination);
  }

  /** A weather message whose data holds no ':' decodes from its own line. */
  lemma WeatherRoundTrip(m: WeatherDataMessages.WeatherDataMessage, parseDouble: string -> Option<real>)
    requires WeatherDataMessages.Valid(m) && ':' !in m.data
    ensures ParseLine(Line(m.header, WeatherDataMessages.GetTokens(m)), parseDouble) == Success(WeatherData(m))
  {
    WeatherDataMessages.TokensHaveNoSeparator(m);
    TokenizeWeatherLine(m.header, WeatherDataMessages.GetTokens(m));
    DecodeWeatherTokens(m);
  }

  /** A delete message decodes from its own line, with the unknown field back at its default 0. */
  lemma DeleteRoundTrip(m: DeleteMessages.DeleteMessage, parseDouble: string -> Option<real>)
    requires DeleteMessages.Valid(m)
    ensures ParseLine(Line(m.header, DeleteMessages.GetTokens(m)), parseDouble) == Success(Delete(m.(unknown := 0)))
  {
    var t := DeleteMessages.GetTokens(m);
    DeleteMessages.TokensHaveNoSeparator(m);
    LiteralValueOfFormat(m.unknown);
    TokenizeDeleteLine(m.kind, m.header, t);
    assert m.header == Header(DeleteMessages.TypeOf(m.kind), m.header.source, "");
  }

  // ---------------------------------------------------------------------------
  // Protocol test vectors

  /** "&DAAA:BBB:0:DATA" decodes as a METAR message from AAA to BBB with data "DATA". */
  lemma WeatherExample(line: string, m: WeatherDataMessages.WeatherDataMessage, parseDouble: string -> Option<real>)
    requires line == "&DAAA:BBB:0:DATA"
    requires m == WeatherDataMessages.WeatherDataMessage(Header("&D", "AAA", "BBB"), WeatherDataMessages.Metar, "DATA")
    ensures ParseLine(line, parseDouble) == Success(WeatherData(m))
  {
    var c := WeatherDataContext("AAA", "BBB", "0", "DATA");
    WeatherExampleTokens(line, c);
    WeatherExampleDecode(c, m);
  }

  lemma WeatherExampleTokens(line: string, c: WeatherDataContext)
    requires line == "&DAAA:BBB:0:DATA" && c == WeatherDataContext("AAA", "BBB", "0", "DATA")
    ensures Tokenize(line) == Success(WeatherDataTree(c))
  {
    var t := [c.source, c.destination, c.request, c.data];
    JoinFour(c.source, c.destination, c.request, c.data);
    assert SeparatorFree(t) by {
      assert ':' !in t[0] && ':' !in t[1] && ':' !in t[2] && ':' !in t[3];
    }
    var h := Header(WeatherDataMessages.Type, c.source, c.destination);
    assert line == Line(h, t);
    TokenizeWeatherLine(h, t);
  }

  lemma WeatherExampleDecode(c: WeatherDataContext, m: WeatherDataMessages.WeatherDataMessage)
    requires c == WeatherDataContext("AAA", "BBB", "0", "DATA")
    requires m == WeatherDataMessages.WeatherDataMessage(Header("&D", "AAA", "BBB"), WeatherDataMessages.Metar, "DATA")
    ensures DecodeWeatherData(c) == Success(m)
  {
    ParseInt32OfFormat(0);
    assert FormatInteger(0) == "0";
    WeatherDataMessages.ExampleMessage();
  }

  /** The rating and altitude-difference tokens of the first pilot test. */
  lemma PilotIntegerTokens(rating: string, altitudeDiff: string)
    requires rating == "7" && altitudeDiff == "100"
    ensures ParseInt32(rating) == Success(7) && ParseInt32(altitudeDiff) == Success(100)
  {
    ParseInt32OfFormat(7);
    ParseInt32OfFormat(100);
    assert FormatInteger(7) == "7";
    assert FormatInteger(100) == "100";
  }

  /** The altitude and speed tokens of the first pilot test. */
  lemma PilotMeasureTokens(altitude: string, speed: string)
    requires altitude == "20000" && speed == "400"
    ensures ParseInt32(altitude) == Success(20000) && ParseInt32(speed) == Success(400)
  {
    WrittenToken(altitude, 20000);
    WrittenToken(speed, 400);
  }

  /** A token written as FormatInteger writes `i` is read back as `i`. */
  lemma WrittenToken(token: string, i: Int32)
    requires token == FormatInteger(i)
    ensures ParseInt32(token) == Success(i)
  {
    ParseInt32OfFormat(i);
  }

  /** The pitch/bank/heading token of the first pilot test. */
  lemma PilotWordToken(pbh: string)
    requires pbh == "1073741826"
    ensures ParseUInt32(pbh) == Success(1073741826)
  {
    ParseUInt32OfFormat(1073741826);
    assert FormatInteger(1073741826) == "1073741826";
  }

  /**
   * The first pilot test, "@N:TEST123:1200:7:52.75:-8:20000:400:1073741826:100",
   * decodes field by field: mode Charlie, squawk 0x280, rating 7, X = -8 and
   * Y = 52.75, 20000 ft, 400 kt, on the ground, altitude difference 100.
   */
  lemma PilotExample(c: PilotPositionContext, m: PilotPositionMessage, parseDouble: string -> Option<real>)
    requires c == PilotPositionContext("N", "TEST123", "1200", "7", "52.75", "-8", "20000", "400", "1073741826", "100")
    requires (m == PilotPositionMessage(Header("@", "TEST123", ""), Charlie, Squawks.Squawk(0x280), 7, Coordinate(-8.0, 52.75),
      Distances.FromFeet(20000.0), Speeds.FromKnots(400.0), 1073741826, 100))
    requires parseDouble("52.75") == Some(52.75) && parseDouble("-8") == Some(-8.0)
    ensures DecodePilotPosition(c, parseDouble) == Success(m)
    ensures OnGround(m)
  {
    PilotExampleLetters(c, m);
    PilotExampleIntegers(c, m);
    PilotExampleWord(c, m);
    assert parseDouble(c.lon) == Some(m.position.x) && parseDouble(c.lat) == Some(m.position.y);
    PilotNewOfFields(m, 20000, 400);
    DecodePilotOfFields(c, parseDouble, m, 20000, 400);
    OnGroundExamples(m);
  }

  lemma PilotExampleLetters(c: PilotPositionContext, m: PilotPositionMessage)
    requires c == PilotPositionContext("N", "TEST123", "1200", "7", "52.75", "-8", "20000", "400", "1073741826", "100")
    requires (m == PilotPositionMessage(Header("@", "TEST123", ""), Charlie, Squawks.Squawk(0x280), 7, Coordinate(-8.0, 52.75),
      Distances.FromFeet(20000.0), Speeds.FromKnots(400.0), 1073741826, 100))
    ensures DecodeSquawkMode(c.sqkMode) == Success(m.squawkMode) && DecodeSquawk(c.squawk) == Success(m.squawk)
  {
    DecodeModeToken(Charlie);
    Squawks.ParseExamples();
  }

  lemma PilotExampleIntegers(c: PilotPositionContext, m: PilotPositionMessage)
    requires c == PilotPositionContext("N", "TEST123", "1200", "7", "52.75", "-8", "20000", "400", "1073741826", "100")
    requires (m == PilotPositionMessage(Header("@", "TEST123", ""), Charlie, Squawks.Squawk(0x280), 7, Coordinate(-8.0, 52.75),
      Distances.FromFeet(20000.0), Speeds.FromKnots(400.0), 1073741826, 100))
    ensures ParseInt32(c.rating) == Success(m.pilotRating as Int32) && ParseInt32(c.altitude) == Success(20000)
    ensures ParseInt32(c.speed) == Success(400) && ParseInt32(c.altitudeDiff) == Success(m.altitudeDifference)
  {
    PilotIntegerTokens(c.rating, c.altitudeDiff);
    PilotMeasureTokens(c.altitude, c.speed);
  }

  lemma PilotExampleWord(c: PilotPositionContext, m: PilotPositionMessage)
    requires c == PilotPositionContext("N", "TEST123", "1200", "7", "52.75", "-8", "20000", "400", "1073741826", "100")
    requires (m == PilotPositionMessage(Header("@", "TEST123", ""), Charlie, Squawks.Squawk(0x280), 7, Coordinate(-8.0, 52.75),
      Distances.FromFeet(20000.0), Speeds.FromKnots(400.0), 1073741826, 100))
    ensures PilotPositionMessages.Valid(m) && c.source == m.header.source
    ensures ParseUInt32(c.pbh) == Success(m.pitchBankHeading)
  {
    PilotWordToken(c.pbh);
    assert IsValidFsdName("TEST123");
  }

  /** Invalid-message errors for a wrong mode letter, a wrong source and a non-octal squawk. */
  lemma PilotRejections(parseDouble: string -> Option<real>)
    ensures DecodePilotPosition(PilotPositionContext("B", "A", "7000", "2", "0", "0", "0", "0", "0", "0"), parseDouble).Failure?
    ensures DecodePilotPosition(PilotPositionContext("", "A", "7000", "2", "0", "0", "0", "0", "0", "0"), parseDouble).Failure?
    ensures DecodePilotPosition(PilotPositionContext("N", "A", "7800", "2", "0", "0", "0", "0", "0", "0"), parseDouble).Failure?
    ensures DecodePilotPosition(PilotPositionContext("N", "A", "", "2", "0", "0", "0", "0", "0", "0"), parseDouble).Failure?
  {
    DecodeSquawkModeExamples();
    assert ToUpperString("N") == "N";
    DecodeSquawkRejections();
  }

  /** The weather tests' refusals: no destination, request 4, request "0.1" and no data. */
  lemma WeatherRejections()
    ensures DecodeWeatherData(WeatherDataContext("A", "", "0", "D")) == Failure(ArgumentNull("destination"))
    ensures DecodeWeatherData(WeatherDataContext("A", "B", "4", "D")) == Failure(Argument("requestType"))
    ensures DecodeWeatherData(WeatherDataContext("A", "B", "0.1", "D")) == Failure(Format)
    ensures DecodeWeatherData(WeatherDataContext("A", "B", "0", "")) == Failure(ArgumentNull("data"))
    ensures DecodeWeatherData(WeatherDataContext("A", "5T", "0", "D")) == Failure(Argument("source"))
  {
    WeatherDataMessages.RejectedExamples();
    ParseInt32OfFormat(0);
    ParseInt32OfFormat(4);
    assert FormatInteger(0) == "0";
    assert FormatInteger(4) == "4";
    assert !AllDigits("0.1", 10) by { assert "0.1"[1] == '.'; }
  }
}
