/**
 * Message: the part every FSD protocol message shares. A message has a type
 * tag, a source name and an optional destination name, and is written on the
 * wire as the type, the message's tokens joined by ':' and the terminator
 * "\r\n". A missing (null) destination is the empty string here.
 */
module FsdMessages {
  import opened Wrappers
  import opened Exceptions
  import opened Text

  const Separator: string := ":"
  const End: string := "\r\n"

  datatype Header = Header(msgType: string, source: string, destination: string)

  predicate IsNameChar(c: char) {
    IsLetterOrDigit(c) || c == '_'
  }

  /** IsValidFsdName: non-empty, made of letters, digits and '_', and starting with a letter. */
  predicate IsValidFsdName(name: string)
    ensures IsValidFsdName(name) ==> |name| > 0 && ':' !in name && !IsDecimalDigit(name[0])
  {
    |name| > 0
    && (forall i :: 0 <= i < |name| ==> IsNameChar(name[i]))
    && IsAsciiLetter(name[0])
  }

  /** The names the protocol tests use: "4D", "5T" and "" are refused, "TEST123" and "A" are accepted. */
  lemma NameExamples()
    ensures !IsValidFsdName("4D") && !IsValidFsdName("5T") && !IsValidFsdName("")
    ensures IsValidFsdName("TEST123") && IsValidFsdName("A") && IsValidFsdName("AAA")
  {
    assert "4D"[0] == '4';
    assert "5T"[0] == '5';
  }

  /** A valid name has no separator in it. */
  lemma ValidNameHasNoSeparator(name: string)
    requires IsValidFsdName(name)
    ensures ':' !in name
  {
  }

  /** The conditions the constructor of Message checks. */
  predicate IsValidHeader(h: Header) {
    |h.msgType| > 0
    && IsValidFsdName(h.source)
    && (h.destination == "" || IsValidFsdName(h.destination))
  }

  /**
   * The constructor of Message: an empty type throws ArgumentNullException,
   * an invalid source and a non-empty, invalid destination throw
   * ArgumentException (both name the parameter "source"), checked in this
   * order; otherwise the three values are stored unchanged.
   */
  function NewHeader(msgType: string, source: string, destination: string): (r: Result<Header, Exception>)
    ensures r.Success? <==> IsValidHeader(Header(msgType, source, destination))
    ensures r.Success? ==> r.value == Header(msgType, source, destination)
    ensures msgType == "" ==> r == Failure(ArgumentNull("type"))
    ensures msgType != "" && !IsValidFsdName(source) ==> r == Failure(Argument("source"))
    ensures (msgType != "" && IsValidFsdName(source) && destination != "" && !IsValidFsdName(destination)
      ==> r == Failure(Argument("source")))
  {
    if msgType == "" then Failure(ArgumentNull("type"))
    else if !IsValidFsdName(source) then Failure(Argument("source"))
    else if destination != "" && !IsValidFsdName(destination) then Failure(Argument("source"))
    else Success(Header(msgType, source, destination))
  }

  /** IsBroadcast: the message has no destination. */
  predicate IsBroadcast(h: Header)
    ensures IsValidHeader(h) ==> (IsBroadcast(h) <==> !IsValidFsdName(h.destination))
  {
    h.destination == ""
  }

  /** Decompose: the type, the tokens joined by the separator, and the terminator. */
  function Decompose(h: Header, tokens: seq<string>): (wire: string)
    ensures |wire| >= |h.msgType| + |End|
    ensures wire[..|h.msgType|] == h.msgType
    ensures wire[|wire| - |End|..] == End
  {
    var wire := h.msgType + Join(Separator, tokens) + End;
    assert wire[..|h.msgType|] == h.msgType;
    wire
  }

  /** A list of ten tokens, in order. */
  function Tokens10(t0: string, t1: string, t2: string, t3: string, t4: string,
                    t5: string, t6: string, t7: string, t8: string, t9: string): (t: seq<string>)
    ensures |t| == 10
    ensures t[0] == t0 && t[1] == t1 && t[2] == t2 && t[3] == t3 && t[4] == t4
    ensures t[5] == t5 && t[6] == t6 && t[7] == t7 && t[8] == t8 && t[9] == t9
  {
    [t0, t1, t2, t3, t4, t5, t6, t7, t8, t9]
  }

  /** No token holds the separator. */
  predicate SeparatorFree(tokens: seq<string>) {
    forall i :: 0 <= i < |tokens| ==> ':' !in tokens[i]
  }

  lemma SeparatorFreeTen(t: seq<string>)
    requires |t| == 10
    requires ':' !in t[0] && ':' !in t[1] && ':' !in t[2] && ':' !in t[3] && ':' !in t[4]
    requires ':' !in t[5] && ':' !in t[6] && ':' !in t[7] && ':' !in t[8] && ':' !in t[9]
    ensures SeparatorFree(t)
  {
  }

  /** The wire text of a two-token message. */
  lemma DecomposeTwo(h: Header, a: string, b: string)
    ensures Decompose(h, [a, b]) == h.msgType + a + Separator + b + End
  {
    assert [a, b][1..] == [b];
    assert Join(Separator, [b]) == b;
    assert Join(Separator, [a, b]) == a + Separator + b;
  }

  /** Four tokens joined by the separator. */
  lemma JoinFour(a: string, b: string, c: string, d: string)
    ensures Join(Separator, [a, b, c, d]) == a + Separator + b + Separator + c + Separator + d
  {
    assert [a, b, c, d][1..] == [b, c, d];
    assert [b, c, d][1..] == [c, d];
    assert [c, d][1..] == [d];
    assert Join(Separator, [d]) == d;
    assert Join(Separator, [c, d]) == c + Separator + d;
    assert Join(Separator, [b, c, d]) == b + Separator + (c + Separator + d);
    assert Join(Separator, [a, b, c, d]) == a + Separator + (b + Separator + (c + Separator + d));
  }

  /** The wire text of a four-token message. */
  lemma DecomposeFour(h: Header, a: string, b: string, c: string, d: string)
    ensures Decompose(h, [a, b, c, d]) == h.msgType + a + Separator + b + Separator + c + Separator + d + End
  {
    JoinFour(a, b, c, d);
  }

  /** The text between the type and the terminator of a wire message. */
  function Body(h: Header, wire: string): (body: string)
    requires |wire| >= |h.msgType| + |End|
  {
    wire[|h.msgType|..|wire| - |End|]
  }

  /** When no token holds the separator, splitting the body of the wire text gives the tokens back. */
  lemma DecomposeSplits(h: Header, tokens: seq<string>)
    requires |tokens| >= 1
    requires forall i :: 0 <= i < |tokens| ==> ':' !in tokens[i]
    ensures Split(Body(h, Decompose(h, tokens)), ':') == tokens
  {
    var joined := Join(Separator, tokens);
    var wire := Decompose(h, tokens);
    assert wire == h.msgType + joined + End;
    assert Body(h, wire) == joined;
    SplitJoin(tokens, ':');
  }
}
