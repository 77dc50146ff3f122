/**
 * The FSD network client: the send tick that drains the outgoing queue,
 * the read tick that frames the byte stream into CRLF-terminated lines,
 * the handling pass that parses queued lines, and the connect, disconnect,
 * shutdown and dispose state of the client object.
 *
 * The socket, the stream and the other thread are parameters: each tick
 * receives what the socket reports (connected or not, the outcome of each
 * write, the outcome of the read).
 */
module Clients {
  import opened Wrappers
  import opened Exceptions
  import opened Text
  import opened FsdMessages
  import opened MessageVisitors
  import PilotPositionMessages
  import PlanePositionMessages
  import WeatherDataMessages
  import DeleteMessages

  /** Receive timeout of the socket, in milliseconds. */
  const ReceiveTimeout: nat := 10
  /** At most this many queued messages are written per tick. */
  const MaxMessagesPerLoop: nat := 10
  /** Size of the read buffer: one read returns at most this many bytes. */
  const ReadBufferSize: nat := 256
  /** WSAETIMEDOUT: the socket error code of a receive timeout. */
  const SocketTimedOut: int := 10060

  // ---------------------------------------------------------------------------
  // Session closing arguments

  datatype SessionClosingReason = UserDisconnect | Kick | ForcedDisconnect

  /** The arguments of the Disconnected event; a kick message may be absent. */
  datatype SessionClosedEventArgs = SessionClosedEventArgs(reason: SessionClosingReason, kickMessage: Option<string>)

  // ---------------------------------------------------------------------------
  // ASCII encoding of the wire

  type Byte = b: int | 0 <= b < 256

  predicate IsAscii(s: string) {
    forall i :: 0 <= i < |s| ==> s[i] as int < 128
  }

  /** Encoding.ASCII.GetBytes: characters above U+007F become '?'. */
  function AsciiEncode(s: string): (bytes: seq<Byte>)
    ensures |bytes| == |s|
  {
    if |s| == 0 then []
    else [if s[0] as int < 128 then s[0] as int else '?' as int] + AsciiEncode(s[1..])
  }

  /** Encoding.ASCII.GetString: bytes above 0x7F become '?'. */
  function AsciiDecode(bytes: seq<Byte>): (s: string)
    ensures |s| == |bytes|
  {
    if |bytes| == 0 then []
    else [if bytes[0] < 128 then bytes[0] as char else '?'] + AsciiDecode(bytes[1..])
  }

  /** Decoding what was encoded gives an ASCII text back unchanged. */
  lemma {:induction false} AsciiRoundTrip(s: string)
    requires IsAscii(s)
    ensures AsciiDecode(AsciiEncode(s)) == s
  {
    if |s| > 0 {
      AsciiRoundTrip(s[1..]);
      assert AsciiEncode(s)[1..] == AsciiEncode(s[1..]);
    }
  }

  /** Whatever bytes arrive, the decoded text is ASCII, one character per byte. */
  lemma {:induction false} AsciiDecodeIsAscii(bytes: seq<Byte>)
    ensures IsAscii(AsciiDecode(bytes))
    ensures forall i :: 0 <= i < |bytes| && bytes[i] < 128 ==> AsciiDecode(bytes)[i] as int == bytes[i]
  {
    if |bytes| > 0 {
      AsciiDecodeIsAscii(bytes[1..]);
    }
  }

  /** Message.Decompose of any kind of message, the text written to the stream. */
  function WireText(m: Message, formatDouble: real -> string): (text: string)
    ensures |text| >= 2 && text[|text| - 2..] == End
  {
    match m
    case PilotPosition(p) => PilotPositionMessages.Decompose(p, formatDouble)
    case PlanePosition(p) => PlanePositionMessages.Decompose(p, formatDouble)
    case WeatherData(w) => WeatherDataMessages.Decompose(w)
    case Delete(d) => DeleteMessages.Decompose(d)
  }

  /** The encoder of the send loop, for a given formatting of doubles. */
  function Encoder(formatDouble: real -> string): (wireText: Message -> string)
    ensures forall m :: wireText(m) == WireText(m, formatDouble)
  {
    m => WireText(m, formatDouble)
  }

  /**
   * MessageParser.Parse as a function of a framed line, for a given parsing
   * of doubles: framed lines hold no CRLF (FrameIsClean), so the parser reads
   * the whole line (FramedLinesParse).
   */
  function Parser(parseDouble: string -> Option<real>): (parse: string -> Result<Message, Exception>)
  {
    line => ParseLine(line, parseDouble)
  }

  // ---------------------------------------------------------------------------
  // Framing: the reference definition of the read loop

  /** Complete lines cut off a buffer, and what is left of it. */
  datatype Framing = Framing(lines: seq<string>, rest: string)

  /** Repeatedly cuts the text before the first CRLF off the buffer, dropping the CRLF. */
  function Frame(buffer: string): (f: Framing)
    ensures !HasCrLf(f.rest) && |f.rest| <= |buffer|
    decreases |buffer|
  {
    var k := IndexOfCrLf(buffer);
    if k < 0 then Framing([], buffer)
    else
      var tail := Frame(buffer[k + 2..]);
      Framing([buffer[..k]] + tail.lines, tail.rest)
  }

  /** One cut of the framing loop. */
  lemma FrameStep(buffer: string)
    requires IndexOfCrLf(buffer) >= 0
    ensures (var k := IndexOfCrLf(buffer);
             Frame(buffer).lines == [buffer[..k]] + Frame(buffer[k + 2..]).lines
             && Frame(buffer).rest == Frame(buffer[k + 2..]).rest)
  {
  }

  /** A buffer without a CRLF frames to no lines and itself. */
  lemma FrameDone(buffer: string)
    requires IndexOfCrLf(buffer) < 0
    ensures Frame(buffer) == Framing([], buffer)
  {
  }

  /** The framing loop's invariant survives one cut. */
  lemma FrameAdvance(whole: Framing, taken: seq<string>, buffer: string)
    requires IndexOfCrLf(buffer) >= 0
    requires whole.lines == taken + Frame(buffer).lines && whole.rest == Frame(buffer).rest
    ensures (var k := IndexOfCrLf(buffer);
             whole.lines == (taken + [buffer[..k]]) + Frame(buffer[k + 2..]).lines
             && whole.rest == Frame(buffer[k + 2..]).rest)
  {
    var k := IndexOfCrLf(buffer);
    var line := buffer[..k];
    var next := Frame(buffer[k + 2..]);
    FrameStep(buffer);
    SeqAssociative(taken, [line], next.lines);
  }

  lemma SeqAssociative<T>(a: seq<T>, b: seq<T>, c: seq<T>)
    ensures a + (b + c) == (a + b) + c
  {
  }

  /** The text a framing came from: every line with its CRLF, then the rest. */
  function Unframe(f: Framing): (buffer: string)
    decreases |f.lines|
  {
    if |f.lines| == 0 then f.rest
    else f.lines[0] + End + Unframe(Framing(f.lines[1..], f.rest))
  }

  /** No line and not the rest holds a CRLF. */
  predicate Clean(f: Framing) {
    (forall i :: 0 <= i < |f.lines| ==> !HasCrLf(f.lines[i])) && !HasCrLf(f.rest)
  }

  /** Framing loses nothing: the lines with their terminators, then the rest, are the buffer. */
  lemma {:induction false} FrameRestores(buffer: string)
    ensures Unframe(Frame(buffer)) == buffer
    decreases |buffer|
  {
    var k := IndexOfCrLf(buffer);
    if k >= 0 {
      var line, rest := buffer[..k], buffer[k + 2..];
      var tail := Frame(rest);
      FrameRestores(rest);
      FrameStep(buffer);
      assert ([line] + tail.lines)[1..] == tail.lines;
      assert Unframe(Frame(buffer)) == line + End + Unframe(tail);
      CrLfSlice(buffer, k);
      assert buffer == line + buffer[k..k + 2] + rest;
    }
  }

  /** Framing leaves no CRLF in any line nor in the rest. */
  lemma {:induction false} FrameIsClean(buffer: string)
    ensures Clean(Frame(buffer))
    decreases |buffer|
  {
    var k := IndexOfCrLf(buffer);
    if k >= 0 {
      FrameIsClean(buffer[k + 2..]);
      NoCrLfInPrefix(buffer[..k + 1], k);
      assert buffer[..k + 1][..k] == buffer[..k];
    }
  }

  /** Every line the framing loop queues is parsed whole: MessageParser.Parse reads it as Parser does. */
  lemma FramedLinesParse(buffer: string, parseDouble: string -> Option<real>)
    ensures forall i :: 0 <= i < |Frame(buffer).lines| ==> Parse(Frame(buffer).lines[i], parseDouble) == Parser(parseDouble)(Frame(buffer).lines[i])
  {
    FrameIsClean(buffer);
  }

  /** The first CRLF after a line without one is the line's terminator. */
  lemma {:induction false} IndexOfCrLfAfterLine(line: string, more: string)
    requires !HasCrLf(line)
    ensures IndexOfCrLf(line + End + more) == |line|
    decreases |line|
  {
    var s := line + End + more;
    if |line| > 0 {
      NoCrLfInSuffix(line, 1);
      IndexOfCrLfAfterLine(line[1..], more);
      assert s[1..] == line[1..] + End + more;
      assert s[1] == (if |line| > 1 then line[1] else '\r');
      if |line| > 1 {
        assert !CrLfAt(line, 0);
      }
    }
  }

  /** Framing inverts Unframe on clean framings, so the lines of the stream come out as sent. */
  lemma {:induction false} FrameUnframe(f: Framing)
    requires Clean(f)
    ensures Frame(Unframe(f)) == f
    decreases |f.lines|
  {
    if |f.lines| > 0 {
      var line := f.lines[0];
      var tail := Framing(f.lines[1..], f.rest);
      var s := Unframe(f);
      assert s == line + End + Unframe(tail);
      IndexOfCrLfAfterLine(line, Unframe(tail));
      assert s[..|line|] == line;
      assert s[|line| + 2..] == Unframe(tail);
      FrameUnframe(tail);
      assert [line] + f.lines[1..] == f.lines;
    }
  }

  // ---------------------------------------------------------------------------
  // Sending: the reference definition of one send tick

  /** The errors a stream write may throw and the send loop catches. */
  datatype StreamError = StreamIO(reason: string) | StreamClosed(objectName: string)

  function StreamException(e: StreamError): (ex: Exception)
    ensures ex.IO? || ex.ObjectDisposed?
  {
    match e
    case StreamIO(reason) => IO(reason)
    case StreamClosed(name) => ObjectDisposed(name)
  }

  /** The messages taken off the queue, the byte blocks written and the error that ended the tick. */
  datatype SendResult = SendResult(dequeued: nat, written: seq<seq<Byte>>, error: Option<Exception>)

  /**
   * A send tick from its `sent`-th iteration: while fewer than ten messages
   * were taken, the queue is not empty and no cancellation was requested,
   * take the next message; write it when the socket says it is connected,
   * otherwise stop with ObjectDisposedException. `connected(i)` and
   * `write(i)` are what the socket reports at the i-th iteration.
   */
  function SendBatch(queue: seq<Message>, sent: nat, cancelled: bool, connected: nat -> bool,
                     write: nat -> Option<StreamError>, wireText: Message -> string): (r: SendResult)
    requires sent <= MaxMessagesPerLoop
    ensures r.dequeued <= |queue| && sent + r.dequeued <= MaxMessagesPerLoop
    decreases MaxMessagesPerLoop - sent
  {
    if sent == MaxMessagesPerLoop || |queue| == 0 || cancelled then SendResult(0, [], None)
    else if !connected(sent) then SendResult(1, [], Some(ObjectDisposed("Client is not connected anymore.")))
    else match write(sent)
      case Some(e) => SendResult(1, [], Some(StreamException(e)))
      case None =>
        var rest := SendBatch(queue[1..], sent + 1, cancelled, connected, write, wireText);
        SendResult(rest.dequeued + 1, [AsciiEncode(wireText(queue[0]))] + rest.written, rest.error)
  }

  /** One iteration of a send tick that goes ahead. */
  lemma SendBatchStep(queue: seq<Message>, i: nat, cancelled: bool, connected: nat -> bool,
                      write: nat -> Option<StreamError>, wireText: Message -> string)
    requires i < MaxMessagesPerLoop && i < |queue| && !cancelled
    ensures (var cur := SendBatch(queue[i..], i, cancelled, connected, write, wireText);
             !connected(i) ==> cur.dequeued == 1 && cur.written == [] && cur.error == Some(ObjectDisposed("Client is not connected anymore.")))
    ensures (var cur := SendBatch(queue[i..], i, cancelled, connected, write, wireText);
             connected(i) && write(i).Some? ==> cur.dequeued == 1 && cur.written == [] && cur.error == Some(StreamException(write(i).value)))
    ensures (var cur, next := SendBatch(queue[i..], i, cancelled, connected, write, wireText),
                              SendBatch(queue[i + 1..], i + 1, cancelled, connected, write, wireText);
             connected(i) && write(i).None? ==>
               cur.dequeued == next.dequeued + 1 && cur.written == [AsciiEncode(wireText(queue[i]))] + next.written && cur.error == next.error)
  {
    assert queue[i..][1..] == queue[i + 1..];
  }

  /** The bytes of a sequence of messages, one block per message. */
  function Wire(queue: seq<Message>, wireText: Message -> string): (blocks: seq<seq<Byte>>)
    ensures |blocks| == |queue|
  {
    if |queue| == 0 then [] else [AsciiEncode(wireText(queue[0]))] + Wire(queue[1..], wireText)
  }

  /**
   * A send tick writes the queue's first messages in order: the bytes of
   * each message taken, except the one whose write failed, which is lost.
   */
  lemma {:induction false} SendBatchWritesInOrder(queue: seq<Message>, sent: nat, cancelled: bool, connected: nat -> bool,
                                                  write: nat -> Option<StreamError>, wireText: Message -> string)
    requires sent <= MaxMessagesPerLoop
    ensures (var r := SendBatch(queue, sent, cancelled, connected, write, wireText);
             |r.written| == (if r.error.None? then r.dequeued else r.dequeued - 1)
             && r.written == Wire(queue[..|r.written|], wireText))
    decreases MaxMessagesPerLoop - sent
  {
    if !(sent == MaxMessagesPerLoop || |queue| == 0 || cancelled) && connected(sent) && write(sent).None? {
      SendBatchWritesInOrder(queue[1..], sent + 1, cancelled, connected, write, wireText);
      var rest := SendBatch(queue[1..], sent + 1, cancelled, connected, write, wireText);
      assert SendBatch(queue, sent, cancelled, connected, write, wireText)
        == SendResult(rest.dequeued + 1, [AsciiEncode(wireText(queue[0]))] + rest.written, rest.error);
      WireCons(queue, |rest.written|, wireText);
    }
  }

  lemma WireCons(queue: seq<Message>, n: nat, wireText: Message -> string)
    requires n < |queue|
    ensures Wire(queue[..n + 1], wireText) == [AsciiEncode(wireText(queue[0]))] + Wire(queue[1..][..n], wireText)
  {
    assert queue[..n + 1][1..] == queue[1..][..n];
  }

  /** The socket reports connected, and the write succeeds, at each of the iterations from..from + n - 1. */
  predicate WritesSucceed(connected: nat -> bool, write: nat -> Option<StreamError>, from: nat, n: nat) {
    forall i :: from <= i < from + n ==> connected(i) && write(i).None?
  }

  /** The number of messages a tick from its `sent`-th iteration takes when nothing goes wrong. */
  function BatchSize(queueLength: nat, sent: nat): (n: nat)
    requires sent <= MaxMessagesPerLoop
    ensures n <= queueLength && sent + n <= MaxMessagesPerLoop
    ensures n == queueLength || sent + n == MaxMessagesPerLoop
  {
    if queueLength < MaxMessagesPerLoop - sent then queueLength else MaxMessagesPerLoop - sent
  }

  /**
   * Without cancellation a tick ends without error exactly when every one of
   * its iterations found the socket connected and the write succeeded, and
   * then it has taken min(10, queue length) messages.
   */
  lemma {:induction false} SendBatchDrains(queue: seq<Message>, sent: nat, connected: nat -> bool,
                                           write: nat -> Option<StreamError>, wireText: Message -> string)
    requires sent <= MaxMessagesPerLoop
    ensures (var r := SendBatch(queue, sent, false, connected, write, wireText);
             (r.error.None? <==> WritesSucceed(connected, write, sent, BatchSize(|queue|, sent)))
             && (r.error.None? ==> r.dequeued == BatchSize(|queue|, sent)))
    decreases MaxMessagesPerLoop - sent
  {
    var n := BatchSize(|queue|, sent);
    if n > 0 {
      assert BatchSize(|queue| - 1, sent + 1) == n - 1;
      assert (WritesSucceed(connected, write, sent, n)
        <==> connected(sent) && write(sent).None? && WritesSucceed(connected, write, sent + 1, n - 1));
      if connected(sent) && write(sent).None? {
        SendBatchDrains(queue[1..], sent + 1, connected, write, wireText);
      }
    }
  }

  /** A cancelled tick sends nothing. */
  lemma SendBatchCancelled(queue: seq<Message>, sent: nat, connected: nat -> bool,
                           write: nat -> Option<StreamError>, wireText: Message -> string)
    requires sent <= MaxMessagesPerLoop
    ensures SendBatch(queue, sent, true, connected, write, wireText) == SendResult(0, [], None)
  {
  }

  // ---------------------------------------------------------------------------
  // Reading

  /** At most one read buffer's worth of bytes. */
  type Chunk = s: seq<Byte> | |s| <= ReadBufferSize

  /** What one NetworkStream.Read reports. */
  datatype ReadOutcome =
    | Received(bytes: Chunk)               // the number of bytes read (0 when the peer closed)
    | ReadFailed(socketError: Option<int>) // IOException, with the error code of an inner SocketException if any
    | StreamDisposed                       // ObjectDisposedException

  // ---------------------------------------------------------------------------
  // Handling: the reference definitions of one handling pass

  /**
   * The messages a handling pass delivers, in queue order: every line that
   * parses, whatever error the others raise.
   */
  /** The message a parsed line yields: none when parsing failed. */
  function Delivered(parsed: Result<Message, Exception>): (received: seq<Message>)
    ensures |received| == (if parsed.Success? then 1 else 0)
  {
    if parsed.Success? then [parsed.value] else []
  }

  function HandleAll(queue: seq<string>, parse: string -> Result<Message, Exception>): (received: seq<Message>)
    ensures |received| <= |queue|
    ensures |queue| > 0 && parse(queue[0]).Success? ==> |received| > 0 && received[0] == parse(queue[0]).value
    ensures (forall i :: 0 <= i < |queue| ==> parse(queue[i]).Failure?) ==> received == []
    decreases |queue|
  {
    if |queue| == 0 then [] else Delivered(parse(queue[0])) + HandleAll(queue[1..], parse)
  }

  /** Lines are handled first in, first out: handling a concatenation concatenates the results. */
  lemma {:induction false} HandleAllAppend(a: seq<string>, b: seq<string>, parse: string -> Result<Message, Exception>)
    ensures HandleAll(a + b, parse) == HandleAll(a, parse) + HandleAll(b, parse)
    decreases |a|
  {
    if |a| == 0 {
      assert a + b == b;
    } else {
      HandleAllAppend(a[1..], b, parse);
      assert (a + b)[0] == a[0];
      assert (a + b)[1..] == a[1..] + b;
      SeqAssociative(Delivered(parse(a[0])), HandleAll(a[1..], parse), HandleAll(b, parse));
    }
  }

  /** Every line yields at most one message, and every line yields one exactly when every line parses. */
  lemma {:induction false} HandleAllCount(queue: seq<string>, parse: string -> Result<Message, Exception>)
    ensures |HandleAll(queue, parse)| <= |queue|
    ensures |HandleAll(queue, parse)| == |queue| <==> forall i :: 0 <= i < |queue| ==> parse(queue[i]).Success?
    decreases |queue|
  {
    if |queue| > 0 {
      HandleAllCount(queue[1..], parse);
      assert forall i :: 1 <= i < |queue| ==> queue[i] == queue[1..][i - 1];
    }
  }

  /** What the handling pass as written leaves: delivered messages, unhandled lines, and the exception that ended the handling task. */
  datatype HandleResult = HandleResult(received: seq<Message>, remaining: seq<string>, fault: Option<Exception>)

  /**
   * The handling pass as written: a line that fails with InvalidMessageException
   * is skipped, but any other exception from the parser leaves the loop and
   * ends the handling task, with the lines after it still queued.
   */
  function HandleAsWritten(queue: seq<string>, parse: string -> Result<Message, Exception>): (r: HandleResult)
    ensures r.fault.None? ==> r.remaining == []
    ensures r.fault.Some? ==> !r.fault.value.InvalidMessage?
    ensures |r.received| + |r.remaining| <= |queue|
    decreases |queue|
  {
    if |queue| == 0 then HandleResult([], [], None)
    else
      var parsed := parse(queue[0]);
      if parsed.Failure? && !parsed.error.InvalidMessage? then HandleResult([], queue[1..], Some(parsed.error))
      else
        var rest := HandleAsWritten(queue[1..], parse);
        rest.(received := Delivered(parsed) + rest.received)
  }

  /** One line of the pass as written: a fault ends it there, any other outcome delivers and goes on. */
  lemma HandleAsWrittenStep(queue: seq<string>, parse: string -> Result<Message, Exception>)
    requires |queue| > 0
    ensures (var parsed := parse(queue[0]);
             var r, rest := HandleAsWritten(queue, parse), HandleAsWritten(queue[1..], parse);
             if parsed.Failure? && !parsed.error.InvalidMessage? then
               r.received == [] && r.remaining == queue[1..] && r.fault == Some(parsed.error)
             else
               r.received == Delivered(parsed) + rest.received && r.remaining == rest.remaining && r.fault == rest.fault)
  {
  }

  /** Parsing fails with nothing but InvalidMessageException on each line. */
  predicate OnlyInvalidMessages(queue: seq<string>, parse: string -> Result<Message, Exception>) {
    forall i :: 0 <= i < |queue| ==> parse(queue[i]).Success? || parse(queue[i]).error.InvalidMessage?
  }

  /**
   * The pass as written delivers what the lines before the fault give, and
   * exactly the messages of the lines it leaves queued are lost.
   */
  lemma {:induction false} HandleAsWrittenLoses(queue: seq<string>, parse: string -> Result<Message, Exception>)
    ensures (var r := HandleAsWritten(queue, parse);
             HandleAll(queue, parse) == r.received + HandleAll(r.remaining, parse))
    decreases |queue|
  {
    if |queue| > 0 {
      var parsed := parse(queue[0]);
      assert HandleAll(queue, parse) == Delivered(parsed) + HandleAll(queue[1..], parse);
      HandleAsWrittenStep(queue, parse);
      if parsed.Failure? && !parsed.error.InvalidMessage? {
        assert Delivered(parsed) == [];
      } else {
        HandleAsWrittenLoses(queue[1..], parse);
        var rest := HandleAsWritten(queue[1..], parse);
        SeqAssociative(Delivered(parsed), rest.received, HandleAll(rest.remaining, parse));
      }
    }
  }

  /**
   * The pass as written ends the handling task exactly when some line fails with
   * another exception than InvalidMessageException, and otherwise it agrees
   * with HandleAll and consumes every line.
   */
  lemma {:induction false} HandleAsWrittenFaults(queue: seq<string>, parse: string -> Result<Message, Exception>)
    ensures (var r := HandleAsWritten(queue, parse);
             (r.fault.None? <==> OnlyInvalidMessages(queue, parse))
             && (r.fault.Some? ==> !r.fault.value.InvalidMessage?)
             && (r.fault.None? ==> r == HandleResult(HandleAll(queue, parse), [], None)))
    decreases |queue|
  {
    if |queue| > 0 {
      HandleAsWrittenFaults(queue[1..], parse);
      assert forall i :: 1 <= i < |queue| ==> queue[i] == queue[1..][i - 1];
    }
  }

  // ---------------------------------------------------------------------------
  // The client

  /** What the socket and the other thread do during one iteration of the client loop. */
  datatype Tick = Tick(
    disconnect: Option<SessionClosedEventArgs>, // a Disconnect call from another thread before the iteration
    connected: nat -> bool,                     // Socket.Connected at each send of the tick
    write: nat -> Option<StreamError>,          // the outcome of each write of the tick
    readConnected: bool,                        // Socket.Connected before the read
    read: ReadOutcome)                          // the outcome of the read

  class Client {
    var isConnected: bool
    var isDisposed: bool
    /** Whether cancellation was requested. */
    var cancelled: bool
    /** The arguments the Disconnected event will carry. */
    var closing: Option<SessionClosedEventArgs>
    /** Received text not yet cut into lines. */
    var messageBuffer: string
    var sendingQueue: seq<Message>
    var handlingQueue: seq<string>
    /** The byte blocks written to the stream, oldest first. */
    var written: seq<seq<Byte>>
    /** The messages raised through MessageReceived, oldest first. */
    var received: seq<Message>
    /** The exception that ended the handling task, if any. */
    var handlingFault: Option<Exception>

    /** Cancellation is only ever requested together with closing arguments. */
    predicate Valid()
      reads this
    {
      cancelled <==> closing.Some?
    }

    constructor()
      ensures Valid()
      ensures !isConnected && !isDisposed && !cancelled && closing.None?
      ensures messageBuffer == "" && sendingQueue == [] && handlingQueue == []
      ensures written == [] && received == [] && handlingFault.None?
    {
      isConnected := false;
      isDisposed := false;
      cancelled := false;
      closing := None;
      messageBuffer := "";
      sendingQueue := [];
      handlingQueue := [];
      written := [];
      received := [];
      handlingFault := None;
    }

    /**
     * Refuses a disposed client and a connected one; otherwise connects
     * (the outcome of the TCP connect is a parameter) and is connected
     * afterwards unless the connect failed.
     */
    method ConnectAsync(connectOutcome: Outcome<Exception>) returns (r: Outcome<Exception>)
      modifies this`isConnected
      ensures old(isDisposed) ==> r == Fail(ObjectDisposed("Client")) && isConnected == old(isConnected)
      ensures !old(isDisposed) && old(isConnected) ==> r == Fail(InvalidOperation("Client is already connected.")) && isConnected
      ensures !old(isDisposed) && !old(isConnected) ==> r == connectOutcome && isConnected == connectOutcome.Pass?
    {
      if isDisposed {
        return Fail(ObjectDisposed("Client"));
      }
      if isConnected {
        return Fail(InvalidOperation("Client is already connected."));
      }
      if connectOutcome.Fail? {
        return connectOutcome;
      }
      isConnected := true;
      r := Pass;
    }

    /** One send tick, as SendBatch describes it. */
    method RunMessageQueue(connected: nat -> bool, write: nat -> Option<StreamError>, wireText: Message -> string)
      returns (error: Option<Exception>)
      modifies this`sendingQueue, this`written
      ensures (var r := SendBatch(old(sendingQueue), 0, cancelled, connected, write, wireText);
               error == r.error && sendingQueue == old(sendingQueue)[r.dequeued..] && written == old(written) + r.written)
    {
      ghost var queue := sendingQueue;
      ghost var before := written;
      ghost var taken: seq<seq<Byte>> := [];
      ghost var whole := SendBatch(queue, 0, cancelled, connected, write, wireText);
      var i := 0;
      assert queue[0..] == queue;
      if cancelled {
        error := None;
        return;
      }
      while i < MaxMessagesPerLoop && |sendingQueue| > 0 && !cancelled
        invariant !cancelled
        invariant i <= MaxMessagesPerLoop && i <= |queue| && sendingQueue == queue[i..]
        invariant written == before + taken
        invariant whole.dequeued == i + SendBatch(queue[i..], i, cancelled, connected, write, wireText).dequeued
        invariant whole.written == taken + SendBatch(queue[i..], i, cancelled, connected, write, wireText).written
        invariant whole.error == SendBatch(queue[i..], i, cancelled, connected, write, wireText).error
        decreases MaxMessagesPerLoop - i
      {
        ghost var next := SendBatch(queue[i + 1..], i + 1, cancelled, connected, write, wireText);
        SendBatchStep(queue, i, cancelled, connected, write, wireText);
        assert queue[i..][1..] == queue[i + 1..] && queue[i..][0] == queue[i];
        error := SendNext(connected(i), write(i), wireText);
        if error.Some? {
          assert whole.dequeued == i + 1 && taken + [] == taken;
          return;
        }
        ghost var bytes := AsciiEncode(wireText(queue[i]));
        SeqAssociative(taken, [bytes], next.written);
        SeqAssociative(before, taken, [bytes]);
        taken := taken + [bytes];
        i := i + 1;
      }
      assert SendBatch(queue[i..], i, cancelled, connected, write, wireText) == SendResult(0, [], None);
      assert whole.dequeued == i && taken + [] == taken;
      error := None;
    }

    /**
     * One iteration of the send loop: dequeue a message and, if the socket
     * is connected, write its bytes; a failed write or a lost connection is
     * returned as the exception that ends the tick.
     */
    method SendNext(connected: bool, write: Option<StreamError>, wireText: Message -> string) returns (error: Option<Exception>)
      requires |sendingQueue| > 0
      modifies this`sendingQueue, this`written
      ensures sendingQueue == old(sendingQueue)[1..]
      ensures !connected ==> error == Some(ObjectDisposed("Client is not connected anymore.")) && written == old(written)
      ensures connected && write.Some? ==> error == Some(StreamException(write.value)) && written == old(written)
      ensures connected && write.None? ==> error.None? && written == old(written) + [AsciiEncode(wireText(old(sendingQueue)[0]))]
    {
      var message := sendingQueue[0];
      sendingQueue := sendingQueue[1..];
      var bytes := AsciiEncode(wireText(message));
      if !connected {
        return Some(ObjectDisposed("Client is not connected anymore."));
      }
      if write.Some? {
        return Some(StreamException(write.value));
      }
      written := written + [bytes];
      error := None;
    }

    /**
     * One read tick: the read errors, then the received bytes decoded onto
     * the buffer and, unless cancelled, every complete line moved to the
     * handling queue, as Frame cuts them.
     */
    method RunMessageReading(connected: bool, outcome: ReadOutcome) returns (error: Option<Exception>)
      modifies this`messageBuffer, this`handlingQueue
      ensures !connected ==> error == Some(ObjectDisposed("Client is not connected anymore."))
      ensures connected && outcome == ReadFailed(Some(SocketTimedOut)) ==> error.None?
      ensures (connected && outcome.ReadFailed? && outcome.socketError.Some? && outcome.socketError.value != SocketTimedOut ==>
                error == Some(Socket(outcome.socketError.value)))
      ensures connected && outcome == ReadFailed(None) ==> error == Some(IO("read failed"))
      ensures connected && outcome == StreamDisposed ==> error == Some(ObjectDisposed("NetworkStream"))
      ensures connected && outcome == Received([]) ==> error == Some(ObjectDisposed("Client is not connected anymore."))
      ensures !(connected && outcome.Received? && |outcome.bytes| > 0) ==>
                messageBuffer == old(messageBuffer) && handlingQueue == old(handlingQueue)
      ensures (connected && outcome.Received? && |outcome.bytes| > 0 ==>
                var text := old(messageBuffer) + AsciiDecode(outcome.bytes);
                error.None?
                && (cancelled ==> messageBuffer == text && handlingQueue == old(handlingQueue))
                && (!cancelled ==> messageBuffer == Frame(text).rest && handlingQueue == old(handlingQueue) + Frame(text).lines))
    {
      if !connected {
        return Some(ObjectDisposed("Client is not connected anymore."));
      }
      match outcome {
        case ReadFailed(socketError) =>
          if socketError.Some? {
            if socketError.value == SocketTimedOut {
              return None;
            }
            return Some(Socket(socketError.value));
          }
          return Some(IO("read failed"));
        case StreamDisposed =>
          return Some(ObjectDisposed("NetworkStream"));
        case Received(bytes) =>
          if |bytes| == 0 {
            return Some(ObjectDisposed("Client is not connected anymore."));
          }
          messageBuffer := messageBuffer + AsciiDecode(bytes);
      }
      ExtractLines();
      error := None;
    }

    /** The framing loop of a read tick: unless cancelled, moves every complete line to the handling queue. */
    method ExtractLines()
      modifies this`messageBuffer, this`handlingQueue
      ensures cancelled ==> messageBuffer == old(messageBuffer) && handlingQueue == old(handlingQueue)
      ensures !cancelled ==> messageBuffer == Frame(old(messageBuffer)).rest
      ensures !cancelled ==> handlingQueue == old(handlingQueue) + Frame(old(messageBuffer)).lines
    {
      ghost var start := messageBuffer;
      ghost var taken: seq<string> := [];
      var buffer := messageBuffer;
      var queue := handlingQueue;
      var endIndex := IndexOfCrLf(buffer);
      while endIndex >= 0 && !cancelled
        invariant endIndex == IndexOfCrLf(buffer)
        invariant queue == old(handlingQueue) + taken
        invariant Frame(start).lines == taken + Frame(buffer).lines
        invariant Frame(start).rest == Frame(buffer).rest
        invariant cancelled ==> buffer == start && taken == []
        decreases |buffer|
      {
        var line := buffer[..endIndex];
        FrameAdvance(Frame(start), taken, buffer);
        SeqAssociative(old(handlingQueue), taken, [line]);
        buffer := buffer[endIndex + 2..];
        endIndex := IndexOfCrLf(buffer);
        queue := queue + [line];
        taken := taken + [line];
      }
      if !cancelled {
        FrameDone(buffer);
        assert taken + [] == taken;
      }
      messageBuffer, handlingQueue := buffer, queue;
    }

    /**
     * One pass of the handling loop as written, with `parse` the client's
     * parser (Parser of the double parsing in use): it stops the handling task at the
     * first parser exception that is not InvalidMessageException. A task
     * that has ended does nothing.
     */
    method RunMessageHandlingAsWritten(parse: string -> Result<Message, Exception>)
      modifies this`handlingQueue, this`received, this`handlingFault
      ensures (cancelled || old(handlingFault).Some?) ==>
                handlingQueue == old(handlingQueue) && received == old(received) && handlingFault == old(handlingFault)
      ensures (!cancelled && old(handlingFault).None? ==>
                var r := HandleAsWritten(old(handlingQueue), parse);
                handlingQueue == r.remaining && received == old(received) + r.received && handlingFault == r.fault)
    {
      if handlingFault.Some? || cancelled {
        return;
      }
      ghost var target := HandleAsWritten(handlingQueue, parse);
      ghost var delivered: seq<Message> := [];
      while |handlingQueue| > 0 && !cancelled
        invariant !cancelled && handlingFault.None?
        invariant received == old(received) + delivered
        invariant target.received == delivered + HandleAsWritten(handlingQueue, parse).received
        invariant target.remaining == HandleAsWritten(handlingQueue, parse).remaining
        invariant target.fault == HandleAsWritten(handlingQueue, parse).fault
        decreases |handlingQueue|
      {
        var line := handlingQueue[0];
        var parsed := parse(line);
        HandleAsWrittenStep(handlingQueue, parse);
        handlingQueue := handlingQueue[1..];
        if parsed.Failure? && !parsed.error.InvalidMessage? {
          handlingFault := Some(parsed.error);
          assert delivered + [] == delivered;
          return;
        }
        SeqAssociative(old(received), delivered, Delivered(parsed));
        SeqAssociative(delivered, Delivered(parsed), HandleAsWritten(handlingQueue, parse).received);
        received := received + Delivered(parsed);
        delivered := delivered + Delivered(parsed);
      }
    }

    /**
     * One pass of the handling loop, catching every parser exception: each
     * line that parses is delivered, in queue order, and every line is consumed.
     */
    method RunMessageHandling(parse: string -> Result<Message, Exception>)
      modifies this`handlingQueue, this`received
      ensures cancelled ==> handlingQueue == old(handlingQueue) && received == old(received)
      ensures !cancelled ==> handlingQueue == [] && received == old(received) + HandleAll(old(handlingQueue), parse)
    {
      ghost var queue := handlingQueue;
      ghost var delivered: seq<Message> := [];
      while |handlingQueue| > 0 && !cancelled
        invariant received == old(received) + delivered
        invariant HandleAll(queue, parse) == delivered + HandleAll(handlingQueue, parse)
        invariant cancelled ==> handlingQueue == queue && delivered == []
        decreases |handlingQueue|
      {
        var line := handlingQueue[0];
        var parsed := parse(line);
        assert HandleAll(handlingQueue, parse) == Delivered(parsed) + HandleAll(handlingQueue[1..], parse);
        SeqAssociative(old(received), delivered, Delivered(parsed));
        SeqAssociative(delivered, Delivered(parsed), HandleAll(handlingQueue[1..], parse));
        handlingQueue := handlingQueue[1..];
        received := received + Delivered(parsed);
        delivered := delivered + Delivered(parsed);
      }
    }

    /** Records the closing arguments and requests cancellation; the loop then shuts the client down. */
    method Disconnect(reason: SessionClosingReason, kickMessage: Option<string>)
      modifies this`closing, this`cancelled
      ensures Valid()
      ensures closing == Some(SessionClosedEventArgs(reason, kickMessage)) && cancelled
    {
      closing := Some(SessionClosedEventArgs(reason, kickMessage));
      cancelled := true;
    }

    /** Disconnect without a kick message. */
    method DisconnectFor(reason: SessionClosingReason)
      modifies this`closing, this`cancelled
      ensures Valid()
      ensures closing == Some(SessionClosedEventArgs(reason, None)) && cancelled
    {
      Disconnect(reason, None);
    }

    /** Releases the queues once; a second call changes nothing. */
    method Dispose()
      modifies this`isDisposed, this`sendingQueue, this`handlingQueue
      ensures isDisposed
      ensures old(isDisposed) ==> sendingQueue == old(sendingQueue) && handlingQueue == old(handlingQueue)
      ensures !old(isDisposed) ==> sendingQueue == [] && handlingQueue == []
    {
      if isDisposed {
        return;
      }
      isDisposed := true;
      sendingQueue := [];
      handlingQueue := [];
    }

    /**
     * The end of the client loop: not connected any more; a loop that ended
     * without a cancellation request was a forced disconnect. Once the
     * handling task has finished, Disconnected is raised with the closing
     * arguments and the client disposed; a handling task that ended with
     * an exception makes the wait throw, and neither happens.
     */
    method Shutdown() returns (raised: Option<SessionClosedEventArgs>)
      requires Valid()
      modifies this
      ensures Valid() && !isConnected && cancelled
      ensures old(cancelled) ==> closing == old(closing)
      ensures !old(cancelled) ==> closing == Some(SessionClosedEventArgs(ForcedDisconnect, None))
      ensures handlingFault == old(handlingFault) && received == old(received) && written == old(written)
      ensures handlingFault.None? ==> raised == closing && isDisposed
      ensures handlingFault.Some? ==> raised.None? && isDisposed == old(isDisposed)
    {
      isConnected := false;
      if !cancelled {
        closing := Some(SessionClosedEventArgs(ForcedDisconnect, None));
        cancelled := true;
      }
      if handlingFault.Some? {
        return None;
      }
      raised := closing;
      Dispose();
    }

    /**
     * One iteration of the client loop, with a Disconnect from another
     * thread first if the tick has one: stops on a cancellation request,
     * otherwise runs a send tick and then a read tick, and stops at the
     * first error.
     */
    method RunTick(tick: Tick, wireText: Message -> string) returns (stop: bool)
      requires Valid() && !cancelled
      modifies this`closing, this`cancelled, this`sendingQueue, this`written, this`messageBuffer, this`handlingQueue
      ensures Valid()
      ensures !stop ==> !cancelled && tick.disconnect.None?
      ensures cancelled ==> stop && closing == tick.disconnect
      ensures tick.disconnect.Some? ==> cancelled
    {
      if tick.disconnect.Some? {
        Disconnect(tick.disconnect.value.reason, tick.disconnect.value.kickMessage);
      }
      if cancelled {
        return true;
      }
      var error := RunMessageQueue(tick.connected, tick.write, wireText);
      if error.Some? {
        return true;
      }
      error := RunMessageReading(tick.readConnected, tick.read);
      stop := error.Some?;
    }

    /**
     * The client loop over the ticks the environment supplies, each run by
     * RunTick until one stops. A loop that stopped shuts the client down;
     * when the ticks run out first the loop is still running (`ended` false).
     */
    method ClientLoop(ticks: seq<Tick>, wireText: Message -> string) returns (ended: bool, raised: Option<SessionClosedEventArgs>)
      requires Valid() && !cancelled
      modifies this
      ensures Valid()
      ensures !ended ==> raised.None? && isConnected == old(isConnected) && !cancelled
      ensures !ended ==> forall j :: 0 <= j < |ticks| ==> ticks[j].disconnect.None?
      ensures ended ==> !isConnected && cancelled
      ensures ended && handlingFault.None? ==> raised == closing && isDisposed
      ensures (ended ==>
                closing == Some(SessionClosedEventArgs(ForcedDisconnect, None))
                || exists j :: 0 <= j < |ticks| && closing == ticks[j].disconnect)
      ensures (ended && (forall j :: 0 <= j < |ticks| ==> ticks[j].disconnect.None?) ==>
                closing == Some(SessionClosedEventArgs(ForcedDisconnect, None)))
    {
      messageBuffer := "";
      var k := 0;
      ended := false;
      while k < |ticks| && !ended
        invariant k <= |ticks|
        invariant Valid()
        invariant !ended ==> isConnected == old(isConnected) && !cancelled
        invariant !ended ==> forall j :: 0 <= j < k ==> ticks[j].disconnect.None?
        invariant ended && cancelled ==> 0 < k && closing == ticks[k - 1].disconnect
        invariant ended && !cancelled ==> forall j :: 0 <= j < k ==> ticks[j].disconnect.None?
        decreases |ticks| - k
      {
        ended := RunTick(ticks[k], wireText);
        k := k + 1;
      }
      if ended {
        raised := Shutdown();
      } else {
        raised := None;
      }
    }
  }

  // ---------------------------------------------------------------------------
  // Finding: the handling task dies on a line the message constructors refuse

  lemma RefusedWeatherTokens(line: string, c: WeatherDataContext)
    requires line == "&DA:B:4:D" && c == WeatherDataContext("A", "B", "4", "D")
    ensures Tokenize(line) == Success(WeatherDataTree(c))
  {
    var t := [c.source, c.destination, c.request, c.data];
    JoinFour(c.source, c.destination, c.request, c.data);
    assert SeparatorFree(t) by {
      assert ':' !in t[0] && ':' !in t[1] && ':' !in t[2] && ':' !in t[3];
    }
    var h := Header(WeatherDataMessages.Type, c.source, c.destination);
    assert line == Line(h, t);
    TokenizeWeatherLine(h, t);
  }

  /** "&DA:B:4:D" passes the grammar, and the constructor refuses request type 4 with ArgumentException. */
  lemma RefusedWeatherLine(line: string, parseDouble: string -> Option<real>)
    requires line == "&DA:B:4:D"
    ensures ParseLine(line, parseDouble) == Failure(Argument("requestType"))
  {
    var c := WeatherDataContext("A", "B", "4", "D");
    RefusedWeatherTokens(line, c);
    WeatherRejections();
  }

  /**
   * A weather line with request type 4 passes the grammar but its constructor
   * throws ArgumentException, which the handling loop as written does not
   * catch: the handling task ends and the valid line after it is never delivered,
   * while catching every parser exception delivers it.
   */
  lemma HandlingStopsOnRefusedLine(bad: string, good: string, m: WeatherDataMessages.WeatherDataMessage,
                                   parseDouble: string -> Option<real>)
    requires bad == "&DA:B:4:D" && good == "&DAAA:BBB:0:DATA"
    requires m == WeatherDataMessages.WeatherDataMessage(Header("&D", "AAA", "BBB"), WeatherDataMessages.Metar, "DATA")
    ensures HandleAsWritten([bad, good], Parser(parseDouble)) == HandleResult([], [good], Some(Argument("requestType")))
    ensures HandleAll([bad, good], Parser(parseDouble)) == [WeatherData(m)]
  {
    RefusedWeatherLine(bad, parseDouble);
    WeatherExample(good, m, parseDouble);
    HandleFaultThenMessage(bad, good, Parser(parseDouble));
  }

  /** A fatal line followed by a good one: the pass as written delivers nothing, HandleAll delivers the good one. */
  lemma HandleFaultThenMessage(bad: string, good: string, parse: string -> Result<Message, Exception>)
    requires parse(bad).Failure? && !parse(bad).error.InvalidMessage? && parse(good).Success?
    ensures HandleAsWritten([bad, good], parse) == HandleResult([], [good], Some(parse(bad).error))
    ensures HandleAll([bad, good], parse) == [parse(good).value]
  {
    assert [bad, good][1..] == [good];
    assert [good][1..] == [];
    assert HandleAll([good], parse) == Delivered(parse(good)) + HandleAll([], parse);
  }
}
