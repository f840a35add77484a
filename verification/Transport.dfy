/**
 The STDIO branch of the MCP transport: a second, unbuffered reader of the same frames, which
 reads the header byte by byte, and its writer.
 */
module StdioTransport {
  import opened CText
  import opened Framing
  import opened Pipes
  import StdioClient

  const PREFIX: string := "Content-Length:"
  const HEADER_ROOM: nat := 255
  const BLANK_ROOM: nat := 3
  const TWO_64: nat := ULONG_MAX + 1
  const HEADER_BUFFER: nat := 32
  /** The header of a longer message does not fit its 32-byte buffer together with the terminator. */
  const SEND_LIMIT: nat := 100_000_000_000

  // ---------------------------------------------------------------- what the reader means

  /** A line and the bytes after it. Carriage returns are dropped; a full buffer ends the line. */
  datatype Line = NoLine | Line(text: string, rest: string)

  function LineOf(s: string, room: nat): (l: Line)
    ensures l.Line? ==> |l.rest| <= |s|
    decreases |s|
  {
    if room == 0 then Line("", s)
    else if s == "" then NoLine
    else if s[0] == '\n' then Line("", s[1..])
    else if s[0] == '\r' then LineOf(s[1..], room)
    else
      match LineOf(s[1..], room - 1)
      case NoLine => NoLine
      case Line(text, rest) => Line([s[0]] + text, rest)
  }

  /** The declared length as the size_t that atol and the cast give. */
  function DeclaredLength(header: string): (n: nat)
    requires PREFIX <= header
    ensures n < TWO_64
  {
    var v := StrToL(header[15..]);
    if v < 0 then v + TWO_64 else v
  }

  /** A message, or none, and the bytes that the attempt leaves unread. */
  datatype Received = Nothing(rest: string) | Message(body: string, rest: string)

  /** The body of the declared length; too short a stream is read to its end. */
  function TakeBody(s: string, n: nat, max: nat): (r: Received)
    ensures |r.rest| <= |s|
  {
    if n == 0 || n > max then Nothing(s)
    else if |s| < n then Nothing("")
    else Message(s[..n], s[n..])
  }

  /** What one attempt to receive makes of a stream. */
  function FirstMessage(s: string, max: nat): (r: Received)
    ensures |r.rest| <= |s| && (r.Message? ==> |r.rest| < |s|)
  {
    match LineOf(s, HEADER_ROOM)
    case NoLine => Nothing("")
    case Line(header, afterHeader) =>
      if !(PREFIX <= header) then Nothing(afterHeader)
      else
        match LineOf(afterHeader, BLANK_ROOM)
        case NoLine => Nothing("")
        case Line(_, afterBlank) => TakeBody(afterBlank, DeclaredLength(header), max)
  }

  /** Every message of a stream, and what is left after the attempt that finds no further one. */
  function AllMessages(s: string, max: nat): (seq<string>, string)
    decreases |s|
  {
    match FirstMessage(s, max)
    case Nothing(rest) => ([], rest)
    case Message(body, rest) =>
      var (bodies, left) := AllMessages(rest, max);
      ([body] + bodies, left)
  }

  // ---------------------------------------------------------------- the reader

  /** A line whose first characters were read already. */
  function Prefixed(text: string, l: Line): Line {
    match l
    case NoLine => NoLine
    case Line(t, rest) => Line(text + t, rest)
  }

  lemma NothingRead(l: Line)
    ensures Prefixed("", l) == l
  {
  }

  lemma LineStep(text: string, s: string, room: nat)
    ensures var all := Prefixed(text, LineOf(s, room));
            if room == 0 then all == Line(text, s)
            else if s == "" then all == NoLine
            else if s[0] == '\n' then all == Line(text, s[1..])
            else if s[0] == '\r' then all == Prefixed(text, LineOf(s[1..], room))
            else all == Prefixed(text + [s[0]], LineOf(s[1..], room - 1))
  {
    if room > 0 && s != "" && s[0] != '\n' && s[0] != '\r' {
      var next := LineOf(s[1..], room - 1);
      assert next.Line? ==> text + ([s[0]] + next.text) == text + [s[0]] + next.text;
    } else {
      assert text + "" == text;
    }
  }

  /** Reads up to a newline, one byte at a time. */
  method ReadLine(inp: Pipe, room: nat) returns (ok: bool, text: string, ghost used: nat)
    modifies inp
    ensures inp.faults >= old(inp.faults) && (ok ==> inp.faults == old(inp.faults))
    ensures used <= |old(inp.data)| && inp.data == old(inp.data)[used..]
    ensures inp.faults == old(inp.faults) ==>
              var l := LineOf(old(inp.data), room);
              if ok then l == Line(text, inp.data) else l.NoLine? && inp.data == ""
  {
    hide LineOf, Prefixed;
    text, used := "", 0;
    ghost var all := LineOf(inp.data, room);
    NothingRead(all);
    while |text| < room
      invariant |text| <= room
      invariant used <= |old(inp.data)| && inp.data == old(inp.data)[used..]
      invariant inp.faults == old(inp.faults)
      invariant all == Prefixed(text, LineOf(inp.data, room - |text|))
      decreases |inp.data|
    {
      ghost var before := inp.data;
      LineStep(text, before, room - |text|);
      var r := inp.Read(1);
      if !r.Data? {
        return false, text, used;
      }
      var c := r.chunk[0];
      used := used + 1;
      assert before[0] == c && before[1..] == inp.data;
      if c == '\n' {
        return true, text, used;
      }
      if c != '\r' {
        text := text + [c];
      }
    }
    LineStep(text, inp.data, 0);
    return true, text, used;
  }

  /** Reads exactly `n` bytes, in pieces of any size. */
  method ReadExactly(inp: Pipe, n: nat) returns (ok: bool, body: string)
    modifies inp
    ensures inp.faults >= old(inp.faults)
    ensures ok ==> inp.faults == old(inp.faults)
    ensures inp.faults == old(inp.faults) ==> ok == (n <= |old(inp.data)|) && (!ok ==> inp.data == "")
    ensures ok ==> |body| == n && old(inp.data) == body + inp.data
  {
    body := "";
    while |body| < n
      invariant |body| <= n && inp.faults == old(inp.faults)
      invariant old(inp.data) == body + inp.data
      decreases n - |body|
    {
      var r := inp.Read(n - |body|);
      if !r.Data? {
        return false, body;
      }
      body := body + r.chunk;
    }
    return true, body;
  }

  /** A message of the declared length somewhere after the header line, and the bytes after it. */
  ghost predicate AfterHeader(s: string, message: string, rest: string, max: nat) {
    var l := LineOf(s, HEADER_ROOM);
    && l.Line? && PREFIX <= l.text
    && |message| == DeclaredLength(l.text) && 1 <= |message| <= max
    && exists k: nat :: k <= |l.rest| && l.rest[k..] == message + rest
  }

  // ---------------------------------------------------------------- the writer

  function LengthLine(n: nat): string { "Content-Length: " + Decimal(n) + SEPARATOR }

  /** The header bytes written: as many as the text has, out of a buffer that ends in a NUL. */
  function HeaderBytes(n: nat): string
    requires |LengthLine(n)| <= HEADER_BUFFER
  {
    var text := LengthLine(n);
    if |text| < HEADER_BUFFER then text else text[..HEADER_BUFFER - 1] + "\0"
  }

  function OnWire(message: string): string
    requires |LengthLine(|message|)| <= HEADER_BUFFER
  {
    HeaderBytes(|message|) + message
  }

  /** Below 10^11 bytes a message is written as the frame that both readers expect. */
  lemma OnWireIsFrame(message: string)
    requires |message| < SEND_LIMIT
    ensures |LengthLine(|message|)| < HEADER_BUFFER && OnWire(message) == Encode(message)
  {
    hide Decimal;
    assert Pow10(11) == SEND_LIMIT;
    DecimalLength(|message|, 11);
  }

  datatype TransportState = CONNECTED | DISCONNECTED | ERROR
  datatype SendStatus = Sent | InvalidMessage | NotConnected | WriteError

  class Transport {
    var state: TransportState
    const maxMessageSize: nat
    const input: Pipe
    const output: Pipe

    constructor (inp: Pipe, out: Pipe, max: nat)
      ensures state == CONNECTED && input == inp && output == out
      ensures maxMessageSize == if max > 0 then max else MAX_MESSAGE_SIZE
    {
      state, input, output := CONNECTED, inp, out;
      maxMessageSize := if max > 0 then max else MAX_MESSAGE_SIZE;
    }

    /** Writes one frame; a fault moves the transport to its error state. */
    method Send(message: string) returns (r: SendStatus)
      requires |LengthLine(|message|)| <= HEADER_BUFFER
      modifies this`state, output
      ensures r == InvalidMessage <==> message == ""
      ensures r == NotConnected <==> message != "" && old(state) != CONNECTED
      ensures r == Sent ==> output.data == old(output.data) + OnWire(message) && state == old(state)
      ensures r == WriteError ==>
                state == ERROR && output.faults > old(output.faults)
                && exists n: nat :: n <= |OnWire(message)| && output.data == old(output.data) + OnWire(message)[..n]
      ensures r == InvalidMessage || r == NotConnected ==> output.data == old(output.data) && state == old(state)
      ensures output.faults >= old(output.faults) && (r != WriteError ==> output.faults == old(output.faults))
    {
      hide HeaderBytes, LengthLine;
      if message == "" {
        return InvalidMessage;
      }
      if state != CONNECTED {
        return NotConnected;
      }
      ghost var n: nat;
      var rc: StdioClient.Rc;
      rc, n := StdioClient.SendParts(output, HeaderBytes(|message|), message);
      assert output.data == old(output.data) + OnWire(message)[..n];
      if rc != StdioClient.Ok {
        state := ERROR;
        return WriteError;
      }
      assert OnWire(message)[..n] == OnWire(message);
      return Sent;
    }

    /**
     Receives one message. Without faults the outcome is that of the first message of the stream.
     The result of reading the blank line is ignored, as in the source, so a fault there is the only
     one a delivered message can hide: the message then has the declared length and follows the
     header line at a distance of the blank-line bytes read before the fault.
     */
    method Receive() returns (ok: bool, message: string)
      modifies input
      ensures input.faults >= old(input.faults)
      ensures input.faults == old(input.faults) && state == CONNECTED ==>
                FirstMessage(old(input.data), maxMessageSize)
                == if ok then Message(message, input.data) else Nothing(input.data)
      ensures ok ==> AfterHeader(old(input.data), message, input.data, maxMessageSize)
      ensures state != CONNECTED ==> !ok && input.data == old(input.data)
    {
      hide LineOf, DeclaredLength;
      if state != CONNECTED {
        return false, "";
      }
      ghost var before := input.data;
      var headerOk, header, _ := ReadLine(input, HEADER_ROOM);
      if !headerOk {
        return false, "";
      }
      if !(PREFIX <= header) {
        return false, "";
      }
      var n := DeclaredLength(header);
      ghost var afterHeader := input.data;
      var _, _, used := ReadLine(input, BLANK_ROOM);
      if n == 0 || n > maxMessageSize {
        return false, "";
      }
      ok, message := ReadExactly(input, n);
      if ok {
        assert LineOf(before, HEADER_ROOM) == Line(header, afterHeader);
        assert afterHeader[used..] == message + input.data;
      }
    }
  }

  // ---------------------------------------------------------------- round trip

  lemma {:induction false} LineOfText(text: string, tail: string, room: nat)
    requires '\n' !in text && '\r' !in text && |text| < room
    ensures LineOf(text + CRLF + tail, room) == Line(text, tail)
  {
    var s := text + CRLF + tail;
    if text == "" {
      assert s[0] == '\r' && s[1..][0] == '\n' && s[1..][1..] == tail;
    } else {
      assert s[1..] == text[1..] + CRLF + tail;
      LineOfText(text[1..], tail, room - 1);
      assert [text[0]] + text[1..] == text;
    }
  }

  function WithoutReturns(s: string): string {
    if s == "" then "" else if s[0] == '\r' then WithoutReturns(s[1..]) else [s[0]] + WithoutReturns(s[1..])
  }

  /** A line is what stands before the newline without its carriage returns, if that fits the buffer. */
  lemma {:induction false} LineThatFits(s: string, rest: string, room: nat)
    requires '\n' !in s && |WithoutReturns(s)| < room
    ensures LineOf(s + "\n" + rest, room) == Line(WithoutReturns(s), rest)
  {
    var all := s + "\n" + rest;
    if s != "" {
      assert all[1..] == s[1..] + "\n" + rest;
      LineThatFits(s[1..], rest, if s[0] == '\r' then room else room - 1);
    }
  }

  /** One that does not fit is cut at the end of the buffer, and reading goes on there. */
  lemma {:induction false} LineCutOff(s: string, rest: string)
    requires '\n' !in s && '\r' !in s
    ensures LineOf(s + rest, |s|) == Line(s, rest)
  {
    if s == "" {
      assert s + rest == rest;
    } else {
      assert (s + rest)[1..] == s[1..] + rest;
      LineCutOff(s[1..], rest);
    }
  }

  lemma DeclaredLengthOfEncoding(n: nat)
    requires n < SEND_LIMIT
    ensures var header := "Content-Length: " + Decimal(n);
            PREFIX <= header && |header| < HEADER_ROOM && DeclaredLength(header) == n
    ensures '\n' !in Decimal(n) && '\r' !in Decimal(n)
  {
    hide Decimal, Value, LeadingDigits;
    var d := Decimal(n);
    var header := "Content-Length: " + d;
    assert header[..15] == PREFIX && header[15..] == " " + d;
    assert Pow10(11) == SEND_LIMIT;
    DecimalLength(n, 11);
    NumeralOfDecimal(n, "");
    assert d + "" == d;
    assert (" " + d)[1..] == d;
    assert SkipSpace(" " + d) == SkipSpace(d);
    assert IsDigit(d[0]);
    assert Numeral(" " + d) == Numeral(d);
  }

  lemma DeclaredIs(blanks: string, n: nat, junk: string)
    requires forall i :: 0 <= i < |blanks| ==> blanks[i] == ' ' || blanks[i] == '\t'
    requires junk == "" || !IsDigit(junk[0])
    ensures var header := PREFIX + blanks + Decimal(n) + junk;
            PREFIX <= header && DeclaredLength(header) == if n > LONG_MAX then LONG_MAX else n
  {
    hide Decimal, StrToL;
    var header := PREFIX + blanks + Decimal(n) + junk;
    assert header[..15] == PREFIX;
    assert header[15..] == blanks + "" + Decimal(n) + junk;
    NumberTexts(blanks, "", n, junk);
  }

  /** The text of a header with its blank line is read off in two lines. */
  lemma TwoLines(header: string, rest: string)
    requires '\r' !in header && '\n' !in header && |header| < 255
    ensures LineOf(header + "\r\n\r\n" + rest, HEADER_ROOM) == Line(header, "\r\n" + rest)
    ensures LineOf("\r\n" + rest, BLANK_ROOM) == Line("", rest)
  {
    LineOfText(header, "\r\n" + rest, HEADER_ROOM);
    assert header + CRLF + ("\r\n" + rest) == header + "\r\n\r\n" + rest;
    LineOfText("", rest, BLANK_ROOM);
    assert "" + CRLF + rest == "\r\n" + rest;
  }

  /**
   The unbuffered reader on any Content-Length header line of at most 254 bytes: the number, which
   saturates at 2^63 - 1, decides between a message and none, and what is left is exact.
   */
  lemma MessageWithLength(blanks: string, n: nat, junk: string, rest: string, max: nat)
    requires forall i :: 0 <= i < |blanks| ==> blanks[i] == ' ' || blanks[i] == '\t'
    requires junk == "" || !IsDigit(junk[0])
    requires '\r' !in junk && '\n' !in junk && |"Content-Length:" + blanks + Decimal(n) + junk| < 255
    ensures var header := "Content-Length:" + blanks + Decimal(n) + junk;
            var size := if n > LONG_MAX then LONG_MAX else n;
            FirstMessage(header + "\r\n\r\n" + rest, max) ==
            if size == 0 || size > max then Nothing(rest)
            else if |rest| < size then Nothing("")
            else Message(rest[..size], rest[size..])
  {
    hide LineOf, DeclaredLength, Decimal;
    var header := "Content-Length:" + blanks + Decimal(n) + junk;
    DeclaredIs(blanks, n, junk);
    assert '\r' !in Decimal(n) && '\n' !in Decimal(n);
    assert '\r' !in header && '\n' !in header;
    TwoLines(header, rest);
  }

  /** A first line that is no Content-Length line is consumed and refused. */
  lemma MessageWithoutLength(header: string, rest: string, max: nat)
    requires '\r' !in header && '\n' !in header && |header| < 255 && !("Content-Length:" <= header)
    ensures FirstMessage(header + "\r\n\r\n" + rest, max) == Nothing("\r\n" + rest)
  {
    hide LineOf;
    TwoLines(header, rest);
  }

  /** The transport reads back what the writers produce, whatever bytes the message holds. */
  lemma FirstMessageOfEncoding(body: string, tail: string, max: nat)
    requires 1 <= |body| <= max && |body| < SEND_LIMIT
    ensures FirstMessage(Encode(body) + tail, max) == Message(body, tail)
  {
    hide LineOf, Decimal, DeclaredLength;
    var header := "Content-Length: " + Decimal(|body|);
    DeclaredLengthOfEncoding(|body|);
    var s := Encode(body) + tail;
    var after := CRLF + (body + tail);
    assert s == header + CRLF + after;
    LineOfText(header, after, HEADER_ROOM);
    assert after == "" + CRLF + (body + tail);
    LineOfText("", body + tail, BLANK_ROOM);
    assert (body + tail)[..|body|] == body && (body + tail)[|body|..] == tail;
  }

  lemma NothingInEmpty(max: nat)
    ensures FirstMessage("", max) == Nothing("")
  {
  }

  lemma {:induction false} AllMessagesOfEncodeAll(bodies: seq<string>, max: nat)
    requires forall b :: b in bodies ==> 1 <= |b| <= max && |b| < SEND_LIMIT
    ensures AllMessages(EncodeAll(bodies), max) == (bodies, "")
  {
    hide FirstMessage, Encode;
    if bodies == [] {
      NothingInEmpty(max);
    } else {
      FirstMessageOfEncoding(bodies[0], EncodeAll(bodies[1..]), max);
      AllMessagesOfEncodeAll(bodies[1..], max);
      assert [bodies[0]] + bodies[1..] == bodies;
    }
  }

  /** The buffered client reader and the unbuffered transport reader agree on every written stream. */
  lemma ReadersAgree(bodies: seq<string>)
    requires forall b :: b in bodies ==> Sendable(b)
    ensures ParseStream(EncodeAll(bodies)) == Outcome(bodies, "", false)
    ensures AllMessages(EncodeAll(bodies), MAX_MESSAGE_SIZE) == (bodies, "")
  {
    hide ParseStream, AllMessages, EncodeAll;
    ParseOfEncodeAll(bodies);
    AllMessagesOfEncodeAll(bodies, MAX_MESSAGE_SIZE);
  }
}
