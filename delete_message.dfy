/**
 * The delete messages: "#DP" (a pilot or plane left) and "#DA" (a
 * controller left). They are broadcast and carry, after the source, one
 * integer whose meaning is unknown.
 */
module DeleteMessages {
  import opened Wrappers
  import opened Exceptions
  import opened Numerals
  import opened FsdMessages

  const PlaneType: string := "#DP"
  const AtcType: string := "#DA"

  /** Which entity kind left: the type tag of the message. */
  datatype DeleteKind = DeletePlane | DeleteAtc

  function TypeOf(kind: DeleteKind): (t: string)
    ensures |t| == 3 && t[..2] == "#D"
  {
    match kind
    case DeletePlane => PlaneType
    case DeleteAtc => AtcType
  }

  datatype DeleteMessage = DeleteMessage(kind: DeleteKind, header: Header, unknown: Int64)

  predicate Valid(m: DeleteMessage) {
    m.header.msgType == TypeOf(m.kind) && IsValidFsdName(m.header.source) && m.header.destination == ""
  }

  /**
   * The constructor: the base constructor's checks with the kind's type and
   * no destination; the unknown field is stored as given, 0 when omitted
   * (`NewDefault`).
   */
  function New(kind: DeleteKind, source: string, unknown: Int64): (r: Result<DeleteMessage, Exception>)
    ensures r.Success? <==> IsValidFsdName(source)
    ensures r.Success? ==> Valid(r.value) && IsBroadcast(r.value.header) && r.value.kind == kind
    ensures r.Success? ==> r.value.header.source == source && r.value.unknown == unknown
    ensures r.Failure? ==> r.error == Argument("source")
  {
    var header :- NewHeader(TypeOf(kind), source, "");
    Success(DeleteMessage(kind, header, unknown))
  }

  function NewDefault(kind: DeleteKind, source: string): (r: Result<DeleteMessage, Exception>)
    ensures r.Success? <==> IsValidFsdName(source)
    ensures r.Success? ==> r.value.unknown == 0 && r.value.header.source == source && IsBroadcast(r.value.header)
  {
    New(kind, source, 0)
  }

  /** GetTokens: the source and the unknown field in decimal. */
  function GetTokens(m: DeleteMessage): (tokens: seq<string>)
    ensures |tokens| == 2
  {
    [m.header.source, FormatInteger(m.unknown)]
  }

  function Decompose(m: DeleteMessage): (wire: string)
    ensures |wire| >= |m.header.msgType| + |End|
    ensures wire[..|m.header.msgType|] == m.header.msgType && wire[|wire| - |End|..] == End
  {
    FsdMessages.Decompose(m.header, GetTokens(m))
  }

  /** The wire text is the type, the source, ':', the number and the terminator. */
  lemma DecomposeShape(m: DeleteMessage)
    requires Valid(m)
    ensures Decompose(m) == TypeOf(m.kind) + m.header.source + ":" + FormatInteger(m.unknown) + "\r\n"
    ensures LiteralValue(GetTokens(m)[1]) == Some(m.unknown as int)
  {
    DecomposeTwo(m.header, m.header.source, FormatInteger(m.unknown));
    LiteralValueOfFormat(m.unknown);
  }

  /** An invalid source such as "4D" is refused; "TEST123" is accepted and the message is broadcast. */
  lemma Examples()
    ensures New(DeletePlane, "4D", 0) == Failure(Argument("source"))
    ensures New(DeletePlane, "TEST123", 45789) == Success(DeleteMessage(DeletePlane, Header(PlaneType, "TEST123", ""), 45789))
  {
    assert "4D"[0] == '4';
    assert IsValidFsdName("TEST123");
  }

  /** The wire text of the pilot deletion test message. */
  lemma DecomposeExample()
    ensures Decompose(DeleteMessage(DeletePlane, Header(PlaneType, "TEST123", ""), 45789)) == "#DPTEST123:45789\r\n"
  {
    var h := Header(PlaneType, "TEST123", "");
    assert FormatInteger(45789) == "45789";
    assert GetTokens(DeleteMessage(DeletePlane, h, 45789)) == ["TEST123", "45789"];
    DecomposeTwo(h, "TEST123", "45789");
    ExampleWireText();
  }

  /** The test message's pieces spell its wire text. */
  lemma ExampleWireText()
    ensures PlaneType + "TEST123" + Separator + "45789" + End == "#DPTEST123:45789\r\n"
  {
    assert PlaneType == "#DP";
    assert "#DP" + "TEST123" == "#DPTEST123";
    assert "#DPTEST123" + Separator == "#DPTEST123:";
    assert "#DPTEST123:" + "45789" == "#DPTEST123:45789";
    assert "#DPTEST123:45789" + End == "#DPTEST123:45789\r\n";
  }

  lemma TokensHaveNoSeparator(m: DeleteMessage)
    requires Valid(m)
    ensures SeparatorFree(GetTokens(m))
  {
    ValidNameHasNoSeparator(m.header.source);
    assert ':' !in FormatInteger(m.unknown);
  }
}
