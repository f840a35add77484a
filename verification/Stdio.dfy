/**
 The stdio side of the MCP client: writing frames to a pipe and reading them back, under any
 partial reads and writes.
 */
module Pipes {

  datatype ReadResult = Data(chunk: string) | Eof | ReadTimeout | ReadFailed
  datatype WriteResult = Wrote(count: nat) | WriteTimeout | WriteFailed

  /**
   One end of a pipe. For a reader, `data` is everything the peer will ever have sent and not yet
   read; for a writer it is everything written. How much one call moves, and whether it times out
   or fails instead, is not determined. Calls that are only interrupted are retried by the source
   and do not show.
   */
  class Pipe {
    var data: string
    var faults: nat

    constructor (bytes: string)
      ensures data == bytes && faults == 0
    {
      data, faults := bytes, 0;
    }

    /** poll and read: some of the bytes, end of file when there are none, or a fault. */
    method Read(max: nat) returns (r: ReadResult)
      requires 0 < max
      modifies this
      ensures match r
              case Data(chunk) => 0 < |chunk| <= max && old(data) == chunk + data && faults == old(faults)
              case Eof => data == old(data) == "" && faults == old(faults)
              case _ => data == old(data) && faults > old(faults)
    {
      if * {
        faults := faults + 1;
        r :| r == ReadTimeout || r == ReadFailed;
      } else if data == "" {
        r := Eof;
      } else {
        var n :| 0 < n <= max && n <= |data|;
        r := Data(data[..n]);
        data := data[n..];
      }
    }

    /** poll and write: any positive number of the given bytes, or a fault. */
    method Write(bytes: string) returns (r: WriteResult)
      requires bytes != ""
      modifies this
      ensures match r
              case Wrote(n) => 0 < n <= |bytes| && data == old(data) + bytes[..n] && faults == old(faults)
              case _ => data == old(data) && faults > old(faults)
    {
      if * {
        faults := faults + 1;
        r :| r == WriteTimeout || r == WriteFailed;
      } else {
        var n :| 0 < n <= |bytes|;
        data := data + bytes[..n];
        r := Wrote(n);
      }
    }
  }
}

module StdioClient {
  import opened CText
  import opened Framing
  import opened FrameParsing
  import opened Pipes

  datatype Rc = Ok | TimedOut | IoError | FrameInvalid | ProcessExit | BufferOverflow

  /** Writes all bytes, or a prefix of them when the pipe faults. */
  method WriteAll(out: Pipe, bytes: string) returns (rc: Rc, ghost written: nat)
    modifies out
    ensures rc == Ok || rc == TimedOut || rc == IoError
    ensures out.faults >= old(out.faults) && (rc == Ok <==> out.faults == old(out.faults))
    ensures written <= |bytes| && (rc == Ok ==> written == |bytes|)
    ensures out.data == old(out.data) + bytes[..written]
  {
    var off := 0;
    while off < |bytes|
      invariant off <= |bytes| && out.faults == old(out.faults)
      invariant out.data == old(out.data) + bytes[..off]
    {
      var r := out.Write(bytes[off..]);
      if r.WriteTimeout? {
        return TimedOut, off;
      } else if r.WriteFailed? {
        return IoError, off;
      }
      assert bytes[..off] + bytes[off..][..r.count] == bytes[..off + r.count];
      off := off + r.count;
    }
    return Ok, off;
  }

  /** Writes a header and then a body. A fault leaves a prefix of the two behind. */
  method SendParts(out: Pipe, header: string, body: string) returns (rc: Rc, ghost written: nat)
    modifies out
    ensures rc == Ok || rc == TimedOut || rc == IoError
    ensures out.faults >= old(out.faults) && (rc == Ok <==> out.faults == old(out.faults))
    ensures written <= |header + body| && (rc == Ok ==> written == |header + body|)
    ensures out.data == old(out.data) + (header + body)[..written]
  {
    ghost var w1, w2;
    rc, w1 := WriteAll(out, header);
    if rc != Ok {
      assert (header + body)[..w1] == header[..w1];
      return rc, w1;
    }
    assert header[..w1] == header;
    rc, w2 := WriteAll(out, body);
    assert (header + body)[..|header| + w2] == header + body[..w2];
    return rc, |header| + w2;
  }

  /** Sends one C string as a message. */
  method SendMessage(out: Pipe, body: string) returns (rc: Rc, ghost written: nat)
    modifies out
    ensures rc == Ok || rc == TimedOut || rc == IoError
    ensures out.faults >= old(out.faults) && (rc == Ok <==> out.faults == old(out.faults))
    ensures written <= |Encode(CString(body))| && (rc == Ok ==> written == |Encode(CString(body))|)
    ensures out.data == old(out.data) + Encode(CString(body))[..written]
  {
    hide CString, Decimal;
    var text := CString(body);
    var header := "Content-Length: " + Decimal(|text|) + SEPARATOR;
    assert Encode(text) == header + text;
    rc, written := SendParts(out, header, text);
  }

  /** Bytes the client has been sent and not yet consumed, buffered or still in the pipe. */
  ghost function Unread(p: FrameParser, inp: Pipe): string
    requires p.len <= p.buf.Length
    reads p, p.buf, inp
  {
    p.Contents() + inp.data
  }

  /** Moves one read's worth of bytes from the pipe to the parser. */
  method Fill(p: FrameParser, inp: Pipe) returns (rc: Rc)
    requires p.Valid() && NextFrame(p.Contents()).Incomplete?
    modifies p`buf, p`len, p.buf, inp
    ensures p.Valid() && (p.buf == old(p.buf) || fresh(p.buf))
    ensures rc == Ok ==>
              Unread(p, inp) == old(Unread(p, inp)) && |inp.data| < |old(inp.data)| && inp.faults == old(inp.faults)
    ensures rc == TimedOut || rc == IoError ==>
              p.Contents() == old(p.Contents()) && inp.data == old(inp.data) && inp.faults > old(inp.faults)
    ensures rc == ProcessExit ==> p.Contents() == old(p.Contents()) && inp.data == old(inp.data) == ""
    ensures rc == BufferOverflow ==>
              && !HeadersBounded(old(Unread(p, inp)))
              && p.Contents() == old(p.Contents()) && |inp.data| <= |old(inp.data)|
    ensures rc != FrameInvalid && inp.faults >= old(inp.faults)
  {
    hide NextFrame, HeadersBounded, Cached, Capacity;
    ghost var text, coming := p.Contents(), inp.data;
    var got := inp.Read(READ_CHUNK);
    match got {
      case ReadTimeout => return TimedOut;
      case ReadFailed => return IoError;
      case Eof => return ProcessExit;
      case Data(chunk) =>
        if HeadersBounded(text + coming) {
          PendingFits(text, coming);
        }
        var a := p.Append(chunk);
        if a == Overflow {
          return BufferOverflow;
        }
        assert text + chunk + inp.data == text + coming;
        return Ok;
    }
  }

  /**
   Reads one frame. Whatever the sizes of the reads, success consumes exactly the first frame of
   the unread bytes; every other result consumes nothing, except that an overflow drops the bytes
   just read. With bounded headers there is no overflow.
   */
  method ReadMessage(p: FrameParser, inp: Pipe, timeoutMs: int) returns (rc: Rc, out: string)
    requires p.Valid()
    modifies p, p.buf, inp
    ensures p.Valid() && (p.buf == old(p.buf) || fresh(p.buf))
    ensures rc == Ok ==>
              && NextFrame(old(Unread(p, inp))).Complete?
              && out == NextFrame(old(Unread(p, inp))).body
              && Unread(p, inp) == old(Unread(p, inp))[NextFrame(old(Unread(p, inp))).size..]
    ensures rc == Ok ==>
              HeaderEnd(old(Unread(p, inp))).Some? && p.headerText == HeaderText(old(Unread(p, inp)))
    ensures rc != Ok && rc != BufferOverflow ==> Unread(p, inp) == old(Unread(p, inp))
    ensures rc == FrameInvalid ==> NextFrame(old(Unread(p, inp))).Bad?
    ensures rc == ProcessExit ==> NextFrame(old(Unread(p, inp))).Incomplete? && inp.data == ""
    ensures rc == TimedOut || rc == IoError ==> inp.faults > old(inp.faults) || timeoutMs <= 0
    ensures inp.faults >= old(inp.faults) && (rc == Ok ==> inp.faults == old(inp.faults))
    ensures rc == BufferOverflow ==>
              !HeadersBounded(old(Unread(p, inp))) && |Unread(p, inp)| <= |old(Unread(p, inp))|
  {
    hide NextFrame, HeadersBounded, Cached, Capacity, HeaderEnd, HeaderText;
    ghost var all := Unread(p, inp);
    while true
      invariant p.Valid() && (p.buf == old(p.buf) || fresh(p.buf))
      invariant Unread(p, inp) == all && inp.faults == old(inp.faults)
      decreases |inp.data|
    {
      ghost var text, coming := p.Contents(), inp.data;
      var r, body := p.TakeFrame();
      if r == Taken {
        TakenFromStream(text, coming);
        return Ok, body;
      }
      if r == FrameError {
        NextFrameExtends(text, coming);
        return FrameInvalid, body;
      }
      if timeoutMs <= 0 {
        return TimedOut, "";
      }
      rc := Fill(p, inp);
      if rc != Ok {
        assert text + "" == text;
        return rc, "";
      }
    }
  }
}
