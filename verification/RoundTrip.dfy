/** Whole conversations over a pipe: every message written, then read back by both readers. */
module RoundTrip {
  import opened CText
  import opened Framing
  import opened FrameParsing
  import opened Pipes
  import opened StdioClient
  import opened StdioTransport

  lemma NothingEncoded()
    ensures EncodeAll([]) == ""
  {
  }

  /** Sends messages one after the other with the client's writer. */
  method SendAll(out: Pipe, bodies: seq<string>) returns (ok: bool)
    requires forall b :: b in bodies ==> '\0' !in b
    modifies out
    ensures out.faults >= old(out.faults) && (ok <==> out.faults == old(out.faults))
    ensures ok ==> out.data == old(out.data) + EncodeAll(bodies)
  {
    hide Encode, EncodeAll, CString;
    NothingEncoded();
    for i := 0 to |bodies|
      invariant out.faults == old(out.faults)
      invariant out.data == old(out.data) + EncodeAll(bodies[..i])
    {
      var rc, n := SendMessage(out, bodies[i]);
      if rc != Ok {
        return false;
      }
      assert Encode(bodies[i])[..n] == Encode(bodies[i]);
      EncodeAllLast(bodies[..i + 1]);
      assert bodies[..i + 1][..i] == bodies[..i];
    }
    assert bodies[..|bodies|] == bodies;
    return true;
  }

  /** Sends messages one after the other with the transport's writer. */
  method SendAllTransport(t: Transport, bodies: seq<string>) returns (ok: bool)
    requires t.state == CONNECTED
    requires forall b :: b in bodies ==> 1 <= |b| < SEND_LIMIT
    modifies t`state, t.output
    ensures t.output.faults >= old(t.output.faults) && (ok <==> t.output.faults == old(t.output.faults))
    ensures ok ==> t.state == CONNECTED && t.output.data == old(t.output.data) + EncodeAll(bodies)
  {
    hide Encode, EncodeAll, OnWire, LengthLine;
    NothingEncoded();
    for i := 0 to |bodies|
      invariant t.state == CONNECTED && t.output.faults == old(t.output.faults)
      invariant t.output.data == old(t.output.data) + EncodeAll(bodies[..i])
    {
      OnWireIsFrame(bodies[i]);
      var r := t.Send(bodies[i]);
      if r == WriteError {
        return false;
      }
      EncodeAllLast(bodies[..i + 1]);
      assert bodies[..i + 1][..i] == bodies[..i];
    }
    assert bodies[..|bodies|] == bodies;
    return true;
  }

  lemma BoundedTail(s: string)
    requires HeadersBounded(s) && NextFrame(s).Complete?
    ensures HeadersBounded(s[NextFrame(s).size..])
  {
    hide ContentLength, CString;
  }

  /** Reads with the buffered client reader until it stops; what is left is an unfinished frame. */
  method ReadAllBuffered(p: FrameParser, inp: Pipe) returns (bodies: seq<string>, last: Rc)
    requires p.Valid() && p.Contents() == ""
    modifies p, p.buf, inp
    ensures p.Valid() && inp.faults >= old(inp.faults)
    ensures inp.faults == old(inp.faults) && HeadersBounded(old(inp.data)) ==>
              && Outcome(bodies, Unread(p, inp), last == FrameInvalid) == ParseStream(old(inp.data))
              && (last != FrameInvalid ==> inp.data == "")
  {
    hide NextFrame, ParseStream, HeadersBounded, Cached, Capacity;
    bodies := [];
    ghost var all := ParseStream(inp.data);
    assert After([], all) == all;
    assert Unread(p, inp) == inp.data;
    while true
      invariant p.Valid() && (p.buf == old(p.buf) || fresh(p.buf))
      invariant inp.faults == old(inp.faults)
      invariant all == After(bodies, ParseStream(Unread(p, inp)))
      invariant HeadersBounded(old(inp.data)) ==> HeadersBounded(Unread(p, inp))
      decreases |Unread(p, inp)|
    {
      ghost var unread := Unread(p, inp);
      AfterStep(bodies, unread);
      var rc, body := ReadMessage(p, inp, 60000);
      if rc != Ok {
        return bodies, rc;
      }
      if HeadersBounded(unread) {
        BoundedTail(unread);
      }
      bodies := bodies + [body];
    }
  }

  /** Reads with the unbuffered transport reader until it stops. */
  method ReadAllUnbuffered(t: Transport) returns (bodies: seq<string>)
    requires t.state == CONNECTED
    modifies t.input
    ensures t.input.faults >= old(t.input.faults)
    ensures t.input.faults == old(t.input.faults) ==>
              var all := AllMessages(old(t.input.data), t.maxMessageSize);
              bodies == all.0 && t.input.data == all.1
  {
    hide FirstMessage;
    var start := t.input.faults;
    bodies := [];
    while true
      invariant t.state == CONNECTED && t.input.faults == old(t.input.faults)
      invariant var all, now := AllMessages(old(t.input.data), t.maxMessageSize),
                                AllMessages(t.input.data, t.maxMessageSize);
                all.0 == bodies + now.0 && all.1 == now.1
      decreases |t.input.data|
    {
      var ok, body := t.Receive();
      if !ok || t.input.faults > start {
        return;
      }
      bodies := bodies + [body];
    }
  }

  /**
   Writes the same messages to two empty pipes, one with the client's writer and one with the
   transport's, and reads each pipe with the other side's reader. If no call faults, both readers
   return every message unchanged and in order and no byte is left in a pipe or in the parser,
   however the writes and the reads were split.
   */
  method Loopback(first: Pipe, second: Pipe, messages: seq<string>)
    returns (buffered: seq<string>, unbuffered: seq<string>, parser: FrameParser)
    requires first != second && first.data == second.data == ""
    requires forall m :: m in messages ==> Sendable(m)
    modifies first, second
    ensures fresh(parser) && parser.Valid()
    ensures first.faults == old(first.faults) && second.faults == old(second.faults) ==>
              && buffered == messages && unbuffered == messages
              && first.data == "" && second.data == "" && parser.Contents() == ""
  {
    hide ParseStream, AllMessages, EncodeAll, HeadersBounded, Cached, Capacity;
    buffered, unbuffered := [], [];
    parser := new FrameParser();
    var server := new Transport(second, first, 0);
    var sent := SendAllTransport(server, messages);
    if sent {
      sent := SendAll(second, messages);
      if sent {
        assert first.data == EncodeAll(messages) && second.data == EncodeAll(messages);
        ReadersAgree(messages);
        EncodedHeadersBounded(messages);
        var last;
        buffered, last := ReadAllBuffered(parser, first);
        unbuffered := ReadAllUnbuffered(server);
      }
    }
  }
}
