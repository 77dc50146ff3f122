/**
 * WeatherDataMessage: the "&D" message that requests or delivers a METAR or
 * TAF. Unlike the position messages it is addressed: the destination is
 * mandatory.
 */
module WeatherDataMessages {
  import opened Wrappers
  import opened Exceptions
  import opened Numerals
  import opened FsdMessages

  const Type: string := "&D"

  /** WeatherDataRequestType: Metar = 0, Taf = 1, ShortTaf = 2. */
  datatype RequestType = Metar | Taf | ShortTaf

  function RequestValue(t: RequestType): (v: nat)
    ensures v <= 2
  {
    match t
    case Metar => 0
    case Taf => 1
    case ShortTaf => 2
  }

  /** The enum member with the given value, if there is one (First..Last). */
  function RequestOfValue(v: int): (t: Option<RequestType>)
    ensures t.Some? <==> 0 <= v <= 2
    ensures t.Some? ==> RequestValue(t.value) == v
  {
    if v == 0 then Some(Metar)
    else if v == 1 then Some(Taf)
    else if v == 2 then Some(ShortTaf)
    else None
  }

  datatype WeatherDataMessage = WeatherDataMessage(header: Header, requestType: RequestType, data: string)

  /** What every constructed weather message satisfies. */
  predicate Valid(m: WeatherDataMessage) {
    m.header.msgType == Type && IsValidFsdName(m.header.source) && IsValidFsdName(m.header.destination)
    && m.data != ""
  }

  /**
   * The constructor: the base constructor's checks with type "&D", then an
   * empty destination and empty data throw ArgumentNullException and a
   * request value outside Metar..ShortTaf throws ArgumentException, in the
   * order destination, request type, data.
   */
  function New(source: string, destination: string, requestType: Int32, data: string): (r: Result<WeatherDataMessage, Exception>)
    ensures (r.Success? <==>
      IsValidFsdName(source) && IsValidFsdName(destination) && 0 <= requestType <= 2 && data != "")
    ensures (r.Success? ==>
      Valid(r.value) && r.value.header == Header(Type, source, destination)
      && RequestValue(r.value.requestType) == requestType && r.value.data == data)
    ensures !IsValidFsdName(source) ==> r == Failure(Argument("source"))
    ensures IsValidFsdName(source) && destination == "" ==> r == Failure(ArgumentNull("destination"))
    ensures (IsValidFsdName(source) && destination != "" && !IsValidFsdName(destination)
      ==> r == Failure(Argument("source")))
    ensures (IsValidFsdName(source) && IsValidFsdName(destination) && !(0 <= requestType <= 2)
      ==> r == Failure(Argument("requestType")))
    ensures (IsValidFsdName(source) && IsValidFsdName(destination) && 0 <= requestType <= 2 && data == ""
      ==> r == Failure(ArgumentNull("data")))
  {
    var header :- NewHeader(Type, source, destination);
    if destination == "" then Failure(ArgumentNull("destination"))
    else match RequestOfValue(requestType)
      case None => Failure(Argument("requestType"))
      case Some(t) => if data == "" then Failure(ArgumentNull("data")) else Success(WeatherDataMessage(header, t, data))
  }

  /** A weather message is never a broadcast. */
  lemma NeverBroadcast(m: WeatherDataMessage)
    requires Valid(m)
    ensures !IsBroadcast(m.header)
  {
  }

  /** The constructor refuses a missing destination, request type 4 and missing data. */
  lemma RejectedExamples()
    ensures New("A", "", 0, "D") == Failure(ArgumentNull("destination"))
    ensures New("A", "B", 4, "D") == Failure(Argument("requestType"))
    ensures New("A", "B", 0, "") == Failure(ArgumentNull("data"))
    ensures New("A", "5T", 0, "D") == Failure(Argument("source"))
  {
    assert IsValidFsdName("A") && IsValidFsdName("B");
    assert !IsValidFsdName("5T") by { assert "5T"[0] == '5'; }
  }

  /** GetTokens: source, destination, the request value and the data. */
  function GetTokens(m: WeatherDataMessage): (tokens: seq<string>)
    ensures |tokens| == 4
  {
    [m.header.source, m.header.destination, FormatInteger(RequestValue(m.requestType)), m.data]
  }

  function Decompose(m: WeatherDataMessage): (wire: string)
    ensures |wire| >= |m.header.msgType| + |End|
    ensures wire[..|m.header.msgType|] == m.header.msgType && wire[|wire| - |End|..] == End
  {
    FsdMessages.Decompose(m.header, GetTokens(m))
  }

  /** The weather test message: "AAA" asks "BBB" for the METAR "DATA". */
  lemma ExampleMessage()
    ensures New("AAA", "BBB", 0, "DATA") == Success(WeatherDataMessage(Header(Type, "AAA", "BBB"), Metar, "DATA"))
  {
    assert IsValidFsdName("AAA") && IsValidFsdName("BBB");
  }

  /** Its wire text. */
  lemma DecomposeExample()
    ensures Decompose(WeatherDataMessage(Header(Type, "AAA", "BBB"), Metar, "DATA")) == "&DAAA:BBB:0:DATA\r\n"
  {
    var h := Header(Type, "AAA", "BBB");
    assert FormatInteger(0) == "0";
    assert GetTokens(WeatherDataMessage(h, Metar, "DATA")) == ["AAA", "BBB", "0", "DATA"];
    DecomposeFour(h, "AAA", "BBB", "0", "DATA");
    ExampleWireText();
  }

  /** The test message's pieces spell its wire text. */
  lemma ExampleWireText()
    ensures Type + "AAA" + Separator + "BBB" + Separator + "0" + Separator + "DATA" + End == "&DAAA:BBB:0:DATA\r\n"
  {
    assert Type == "&D";
    assert "&D" + "AAA" == "&DAAA";
    assert "&DAAA" + Separator == "&DAAA:";
    assert "&DAAA:" + "BBB" == "&DAAA:BBB";
    assert "&DAAA:BBB" + Separator == "&DAAA:BBB:";
    assert "&DAAA:BBB:" + "0" == "&DAAA:BBB:0";
    assert "&DAAA:BBB:0" + Separator == "&DAAA:BBB:0:";
    assert "&DAAA:BBB:0:" + "DATA" == "&DAAA:BBB:0:DATA";
    assert "&DAAA:BBB:0:DATA" + End == "&DAAA:BBB:0:DATA\r\n";
  }

  /** When the data holds no ':', no token of a valid weather message holds the separator. */
  lemma TokensHaveNoSeparator(m: WeatherDataMessage)
    requires Valid(m) && ':' !in m.data
    ensures SeparatorFree(GetTokens(m))
  {
    ValidNameHasNoSeparator(m.header.source);
    ValidNameHasNoSeparator(m.header.destination);
    assert ':' !in FormatInteger(RequestValue(m.requestType));
  }
}
