/**
 The MCP client's accumulating frame parser: a growable buffer with a HEADER/BODY state.

 Every method is proved against the stateless reading of the same bytes in `Framing`, so the
 cached header end and body length never show.
 */
module FrameParsing {
  import opened CText
  import opened Framing

  lemma SeparatorBytes(s: string, i: nat)
    requires i + 4 <= |s|
    ensures OccursAt(SEPARATOR, s, i) <==>
            s[i] == '\r' && s[i + 1] == '\n' && s[i + 2] == '\r' && s[i + 3] == '\n'
  {
    var w := s[i..i + 4];
    assert w[0] == s[i] && w[1] == s[i + 1] && w[2] == s[i + 2] && w[3] == s[i + 3];
    assert SEPARATOR[0] == SEPARATOR[2] == '\r' && SEPARATOR[1] == SEPARATOR[3] == '\n';
  }

  /** Scans for the blank line that ends a header. */
  method FindHeaderEnd(buf: array<char>, len: nat) returns (r: Option<nat>)
    requires len <= buf.Length
    ensures r == HeaderEnd(buf[..len])
  {
    ghost var s := buf[..len];
    var i := 0;
    while i + 3 < len
      invariant i <= len
      invariant forall j :: 0 <= j < i ==> !OccursAt(SEPARATOR, s, j)
    {
      SeparatorBytes(s, i);
      if buf[i] == '\r' && buf[i + 1] == '\n' && buf[i + 2] == '\r' && buf[i + 3] == '\n' {
        FoundAt(SEPARATOR, s, 0, i);
        return Some(i + 4);
      }
      i := i + 1;
    }
    NotFound(SEPARATOR, s, 0);
    return None;
  }

  lemma LineBreakBytes(s: string, i: nat)
    requires i + 2 <= |s|
    ensures OccursAt(CRLF, s, i) <==> s[i] == '\r' && s[i + 1] == '\n'
  {
    var w := s[i..i + 2];
    assert w[0] == s[i] && w[1] == s[i + 1];
    assert CRLF[0] == '\r' && CRLF[1] == '\n';
  }

  /** The case-insensitive comparison of a line's first 15 bytes. */
  method StartsWithField(buf: array<char>, pos: nat, lineEnd: nat) returns (r: bool)
    requires pos <= lineEnd <= buf.Length
    ensures r == IsLengthLine(buf[pos..lineEnd])
    ensures r ==> pos + 15 <= lineEnd
  {
    if lineEnd - pos < 15 {
      return false;
    }
    assert buf[pos..lineEnd][..15] == buf[pos..pos + 15];
    return LowerAll(buf[pos..pos + 15]) == FIELD;
  }

  lemma {:induction false} LeadingDigitsFrom(d: string, rest: string)
    requires AllDigits(d)
    ensures d <= LeadingDigits(d + rest)
  {
    if d != "" {
      assert (d + rest)[1..] == d[1..] + rest;
      LeadingDigitsFrom(d[1..], rest);
    }
  }

  lemma DigitsRead(text: string, digits: string)
    requires digits <= text && AllDigits(digits) && |digits| <= 31
    requires |digits| == |text| || |digits| == 31 || !IsDigit(text[|digits|])
    ensures digits == Truncate(LeadingDigits(text), 31)
  {
    if |digits| == 31 {
      LeadingDigitsFrom(digits, text[31..]);
      assert digits + text[31..] == text;
      return;
    }
    LeadingDigitsOf(digits, text[|digits|..]);
    assert digits + text[|digits|..] == text;
  }

  /** Reads the digits of one Content-Length line, which ends at `lineEnd`. */
  method ReadLength(buf: array<char>, pos: nat, lineEnd: nat) returns (r: Option<nat>)
    requires pos + 15 <= lineEnd <= buf.Length
    requires IsLengthLine(buf[pos..lineEnd])
    ensures r == LengthValue(buf[pos..lineEnd])
  {
    ghost var line := buf[pos..lineEnd];
    var v := pos + 15;
    assert line[15..] == buf[v..lineEnd];
    while v < lineEnd && (buf[v] == ' ' || buf[v] == '\t')
      invariant pos + 15 <= v <= lineEnd
      invariant SkipBlanks(line[15..]) == SkipBlanks(buf[v..lineEnd])
    {
      assert buf[v..lineEnd][1..] == buf[v + 1..lineEnd];
      v := v + 1;
    }
    ghost var text := buf[v..lineEnd];
    assert SkipBlanks(line[15..]) == text;
    var digits := "";
    var start := v;
    while v < lineEnd && |digits| < 31 && IsDigit(buf[v])
      invariant start <= v <= lineEnd
      invariant digits == buf[start..v] && AllDigits(digits) && |digits| <= 31
    {
      digits := digits + [buf[v]];
      v := v + 1;
    }
    DigitsRead(text, digits);
    if digits == "" {
      return None;
    }
    return Some(if Value(digits) > ULONG_MAX then ULONG_MAX else Value(digits));
  }

  lemma NoBreakAtEnd(s: string, pos: nat, end: nat)
    requires pos <= end <= |s| <= end + 1
    requires forall j :: pos <= j < end ==> !OccursAt(CRLF, s, j)
    ensures FindFrom(CRLF, s, pos).None?
  {
    NotFound(CRLF, s, pos);
  }

  /** Looks for the first Content-Length line among the first `hdrLen` bytes. */
  method ParseContentLength(buf: array<char>, hdrLen: nat) returns (r: Option<nat>)
    requires hdrLen <= buf.Length
    ensures r == ContentLength(buf[..hdrLen])
  {
    hide LengthValue, FindFrom, OccursAt, IsLengthLine;
    ghost var hdr := buf[..hdrLen];
    var pos := 0;
    while pos < hdrLen
      invariant pos <= hdrLen
      invariant ContentLength(hdr) == FirstLength(Lines(hdr, pos))
    {
      var lineEnd := pos;
      while lineEnd + 1 < hdrLen && !(buf[lineEnd] == '\r' && buf[lineEnd + 1] == '\n')
        invariant pos <= lineEnd <= hdrLen
        invariant forall j :: pos <= j < lineEnd ==> !OccursAt(CRLF, hdr, j)
      {
        LineBreakBytes(hdr, lineEnd);
        lineEnd := lineEnd + 1;
      }
      if lineEnd + 1 >= hdrLen {
        NoBreakAtEnd(hdr, pos, lineEnd);
        return None;
      }
      LineBreakBytes(hdr, lineEnd);
      FoundAt(CRLF, hdr, pos, lineEnd);
      assert hdr[pos..lineEnd] == buf[pos..lineEnd];
      assert Lines(hdr, pos) == [buf[pos..lineEnd]] + Lines(hdr, lineEnd + 2);
      var isLength := StartsWithField(buf, pos, lineEnd);
      if isLength {
        r := ReadLength(buf, pos, lineEnd);
        return;
      }
      pos := lineEnd + 2;
    }
    NoBreakAtEnd(hdr, pos, hdrLen);
    return None;
  }

  function Pow2(k: nat): (p: nat)
    ensures p > 0
  {
    if k == 0 then 1 else 2 * Pow2(k - 1)
  }

  lemma {:induction false} Pow2Monotone(j: nat, k: nat)
    requires j <= k
    ensures Pow2(j) <= Pow2(k)
    decreases k
  {
    if j < k {
      Pow2Monotone(j, k - 1);
    }
  }

  /** Capacities the buffer can have: none yet, or a read chunk doubled at most twelve times (16 MiB). */
  ghost predicate Capacity(cap: nat) {
    cap == 0 || exists k: nat :: k <= 12 && cap == READ_CHUNK * Pow2(k)
  }

  lemma DoublingStaysInRange(cap: nat)
    requires cap != 0 && Capacity(cap)
    requires cap < BUFFER_LIMIT
    ensures Capacity(2 * cap)
  {
    var k: nat :| k <= 12 && cap == READ_CHUNK * Pow2(k);
    assert Pow2(12) == 4096;
    if k == 12 {
      assert false;
    }
    assert 2 * cap == READ_CHUNK * Pow2(k + 1);
  }

  lemma CapacityBound(cap: nat)
    requires Capacity(cap)
    ensures cap <= 16 * 1024 * 1024
  {
    if cap != 0 {
      var k: nat :| k <= 12 && cap == READ_CHUNK * Pow2(k);
      Pow2Monotone(k, 12);
      assert Pow2(12) == 4096;
    }
  }

  datatype State = HEADER | BODY

  /** In BODY state the cached numbers are exactly what reading the buffer again would give. */
  ghost predicate Cached(text: string, state: State, hdrEnd: nat, bodyExpected: nat, headerText: string) {
    if state == HEADER then hdrEnd == 0 && bodyExpected == 0
    else
      && HeaderEnd(text) == Some(hdrEnd)
      && ContentLength(text[..hdrEnd]) == Some(bodyExpected)
      && 1 <= bodyExpected <= MAX_MESSAGE_SIZE
      && headerText == CString(text[..hdrEnd])
  }

  /** Later bytes do not disturb what was cached. */
  lemma CachedExtends(text: string, x: string, state: State, hdrEnd: nat, bodyExpected: nat, headerText: string)
    requires Cached(text, state, hdrEnd, bodyExpected, headerText)
    ensures Cached(text + x, state, hdrEnd, bodyExpected, headerText)
  {
    if state == BODY {
      HeaderEndExtends(text, x);
      assert (text + x)[..hdrEnd] == text[..hdrEnd];
    }
  }

  /** What the cached numbers say about the next frame. */
  lemma CachedFrame(text: string, hdrEnd: nat, bodyExpected: nat, headerText: string)
    requires Cached(text, BODY, hdrEnd, bodyExpected, headerText)
    ensures HeaderEnd(text).Some? && headerText == HeaderText(text)
    ensures var total := hdrEnd + bodyExpected;
            NextFrame(text) == if |text| < total then Incomplete
                               else Complete(CString(text[hdrEnd..total]), total)
  {
    hide HeaderEnd, ContentLength, CString;
  }

  /** The doubled capacity that first holds `need` bytes. */
  method NewCapacity(cap: nat, need: nat) returns (newCap: nat)
    requires Capacity(cap) && cap < need <= BUFFER_LIMIT
    ensures Capacity(newCap) && need <= newCap
  {
    newCap := if cap > 0 then cap else READ_CHUNK;
    assert READ_CHUNK == READ_CHUNK * Pow2(0);
    while newCap < need
      invariant 0 < newCap && Capacity(newCap)
      decreases need - newCap
    {
      DoublingStaysInRange(newCap);
      newCap := newCap * 2;
    }
  }

  datatype AppendStatus = Appended | Overflow
  datatype TakeStatus = Taken | NeedMore | FrameError

  /** Moves the bytes from `from` up to `to` to the front; the ranges may overlap. */
  method MoveDown(buf: array<char>, from: nat, to: nat)
    requires from <= to <= buf.Length
    modifies buf
    ensures buf[..to - from] == old(buf[from..to])
  {
    forall i | 0 <= i < to - from {
      buf[i] := buf[from + i];
    }
  }

  class FrameParser {
    var buf: array<char>
    var len: nat
    var state: State
    var hdrEnd: nat
    var bodyExpected: nat
    var headerText: string

    ghost predicate Valid()
      reads this, buf
    {
      && len <= buf.Length && len <= BUFFER_LIMIT && Capacity(buf.Length)
      && Cached(buf[..len], state, hdrEnd, bodyExpected, headerText)
    }

    /** The bytes accumulated and not yet consumed. */
    ghost function Contents(): string
      requires len <= buf.Length
      reads this, buf
    {
      buf[..len]
    }

    constructor ()
      ensures Valid() && fresh(buf)
      ensures Contents() == ""
    {
      buf := new char[0];
      len, state, hdrEnd, bodyExpected, headerText := 0, HEADER, 0, 0, "";
    }

    /** Grows the buffer by doubling until `need` bytes fit, keeping its contents. */
    method Grow(need: nat)
      requires Valid() && buf.Length < need <= BUFFER_LIMIT
      modifies this`buf
      ensures Valid() && fresh(buf)
      ensures Contents() == old(Contents()) && need <= buf.Length
    {
      hide HeaderEnd, ContentLength, CString, Capacity;
      ghost var text := buf[..len];
      var newCap := NewCapacity(buf.Length, need);
      var nb := new char[newCap];
      forall i | 0 <= i < len {
        nb[i] := buf[i];
      }
      assert nb[..len] == text;
      buf := nb;
    }

    /** Appends received bytes, or refuses them all when the buffer limit would be passed. */
    method Append(data: string) returns (r: AppendStatus)
      requires Valid()
      modifies this`buf, this`len, buf
      ensures Valid() && (buf == old(buf) || fresh(buf))
      ensures r == Overflow <==> data != "" && old(len) + |data| > BUFFER_LIMIT
      ensures Contents() == old(Contents()) + (if r == Appended then data else "")
    {
      hide Cached, Capacity;
      if |data| == 0 {
        assert old(Contents()) + "" == old(Contents());
        return Appended;
      }
      if len + |data| > BUFFER_LIMIT {
        assert old(Contents()) + "" == old(Contents());
        return Overflow;
      }
      if len + |data| > buf.Length {
        Grow(len + |data|);
      }
      ghost var text := buf[..len];
      CachedExtends(text, data, state, hdrEnd, bodyExpected, headerText);
      forall i | 0 <= i < |data| {
        buf[len + i] := data[i];
      }
      assert buf[..len + |data|] == text + data;
      len := len + |data|;
      return Appended;
    }

    /** In HEADER state, tries to read the header and move to BODY state. */
    method ReadHeader() returns (r: TakeStatus)
      requires Valid()
      modifies this`state, this`hdrEnd, this`bodyExpected, this`headerText
      ensures Valid()
      ensures match r
              case Taken => state == BODY
              case NeedMore => NextFrame(Contents()).Incomplete?
              case FrameError => NextFrame(Contents()).Bad?
    {
      hide HeaderEnd, ContentLength, CString, Capacity;
      if state == HEADER {
        var h := FindHeaderEnd(buf, len);
        if h.None? {
          return NeedMore;
        }
        var n := ParseContentLength(buf, h.value);
        assert buf[..h.value] == buf[..len][..h.value];
        if n.None? || n.value == 0 || n.value > MAX_MESSAGE_SIZE {
          return FrameError;
        }
        headerText := CString(buf[..h.value]);
        state, hdrEnd, bodyExpected := BODY, h.value, n.value;
      }
      return Taken;
    }

    /** Copies the body out of a buffer that holds it whole and moves the rest down. */
    method Consume() returns (out: string)
      requires Valid() && state == BODY && hdrEnd + bodyExpected <= len
      modifies this`len, this`state, this`hdrEnd, this`bodyExpected, buf
      ensures Valid()
      ensures var total := old(hdrEnd + bodyExpected);
              Contents() == old(Contents())[total..] && out == CString(old(Contents())[old(hdrEnd)..total])
    {
      hide HeaderEnd, ContentLength, CString, Capacity;
      ghost var text := buf[..len];
      var total := hdrEnd + bodyExpected;
      out := CString(buf[hdrEnd..total]);
      assert buf[hdrEnd..total] == text[hdrEnd..total];
      var remain := len - total;
      assert buf[total..len] == text[total..];
      MoveDown(buf, total, len);
      len, state, hdrEnd, bodyExpected := remain, HEADER, 0, 0;
    }

    /** Takes one frame off the front of the buffer if it is complete. */
    method TakeFrame() returns (r: TakeStatus, out: string)
      requires Valid()
      modifies this`len, this`state, this`hdrEnd, this`bodyExpected, this`headerText, buf
      ensures Valid()
      ensures match NextFrame(old(Contents()))
              case Incomplete => r == NeedMore && Contents() == old(Contents())
              case Bad => r == FrameError && Contents() == old(Contents())
              case Complete(body, size) =>
                r == Taken && out == body && Contents() == old(Contents())[size..]
      ensures r == Taken ==>
                HeaderEnd(old(Contents())).Some? && headerText == HeaderText(old(Contents()))
    {
      hide NextFrame, HeaderEnd, HeaderText, CString, ContentLength, Capacity;
      out := "";
      ghost var text := buf[..len];
      r := ReadHeader();
      if r != Taken {
        return;
      }
      assert Cached(text, BODY, hdrEnd, bodyExpected, headerText);
      CachedFrame(text, hdrEnd, bodyExpected, headerText);
      if len < hdrEnd + bodyExpected {
        return NeedMore, out;
      }
      out := Consume();
    }
  }

  // ---------------------------------------------------------------- whole runs

  function Concat(chunks: seq<string>): string {
    if chunks == [] then "" else Concat(chunks[..|chunks| - 1]) + chunks[|chunks| - 1]
  }

  datatype FeedStatus = Fed | Malformed | TooLong(at: nat)

  /** Bodies already taken, followed by the parse of what is left. */
  function After(taken: seq<string>, o: Outcome): Outcome {
    Outcome(taken + o.bodies, o.rest, o.malformed)
  }

  lemma AfterStep(taken: seq<string>, s: string)
    ensures var f := NextFrame(s);
            After(taken, ParseStream(s)) ==
            if f.Complete? then After(taken + [f.body], ParseStream(s[f.size..]))
            else Outcome(taken, s, f.Bad?)
  {
    hide NextFrame;
    var f := NextFrame(s);
    if f.Complete? {
      var o := ParseStream(s[f.size..]);
      assert taken + ([f.body] + o.bodies) == (taken + [f.body]) + o.bodies;
    } else {
      assert taken + [] == taken;
    }
  }

  /** Takes frames until no complete one is left. */
  method Drain(p: FrameParser) returns (bodies: seq<string>, malformed: bool)
    requires p.Valid()
    modifies p`len, p`state, p`hdrEnd, p`bodyExpected, p`headerText, p.buf
    ensures p.Valid()
    ensures Outcome(bodies, p.Contents(), malformed) == ParseStream(old(p.Contents()))
  {
    hide NextFrame, ParseStream, Cached, Capacity;
    bodies := [];
    ghost var all := ParseStream(p.Contents());
    assert After([], all) == all;
    while true
      invariant p.Valid()
      invariant all == After(bodies, ParseStream(p.Contents()))
      decreases p.len
    {
      AfterStep(bodies, p.Contents());
      var r, body := p.TakeFrame();
      if r != Taken {
        return bodies, r == FrameError;
      }
      bodies := bodies + [body];
    }
  }

  /** The unfinished frame before a piece and the piece itself are within the buffer limit. */
  ghost predicate Fits(chunks: seq<string>, i: nat)
    requires i < |chunks|
  {
    chunks[i] == "" || |ParseStream(Concat(chunks[..i])).rest| + |chunks[i]| <= BUFFER_LIMIT
  }

  /** Pieces as single reads deliver them. */
  ghost predicate ReadPieces(chunks: seq<string>) {
    forall c :: c in chunks ==> |c| <= READ_CHUNK
  }

  /** Appends one piece to what was left of the bytes `before` it, and drains the parser. */
  method FeedOne(p: FrameParser, chunk: string, ghost before: string)
    returns (more: Outcome, status: AppendStatus)
    requires p.Valid() && p.Contents() == ParseStream(before).rest && !ParseStream(before).malformed
    modifies p, p.buf
    ensures p.Valid() && (p.buf == old(p.buf) || fresh(p.buf))
    ensures status == Overflow <==> chunk != "" && |ParseStream(before).rest| + |chunk| > BUFFER_LIMIT
    ensures status == Appended ==>
              && more.rest == p.Contents()
              && After(ParseStream(before).bodies, more) == ParseStream(before + chunk)
  {
    hide ParseStream, Cached, Capacity;
    ParseResumes(before, chunk);
    status := p.Append(chunk);
    if status == Overflow {
      return Outcome([], "", false), status;
    }
    var bodies, malformed := Drain(p);
    more := Outcome(bodies, p.buf[..p.len], malformed);
  }

  lemma OnePiece(chunks: seq<string>, i: nat)
    requires i < |chunks|
    ensures Concat(chunks[..i + 1]) == Concat(chunks[..i]) + chunks[i]
    ensures Fits(chunks, i) <==>
              !(chunks[i] != "" && |ParseStream(Concat(chunks[..i])).rest| + |chunks[i]| > BUFFER_LIMIT)
  {
    hide ParseStream;
    assert chunks[..i + 1][..i] == chunks[..i];
  }

  lemma EmptyStream(chunks: seq<string>)
    ensures ParseStream(Concat(chunks[..0])) == Outcome([], "", false)
  {
    assert NextFrame("").Incomplete?;
  }

  lemma {:induction false} ConcatSplits(chunks: seq<string>, i: nat)
    requires i <= |chunks|
    ensures Concat(chunks) == Concat(chunks[..i]) + Concat(chunks[i..])
    decreases |chunks|
  {
    if i == |chunks| {
      assert chunks[..i] == chunks;
      assert Concat(chunks[i..]) == "";
    } else {
      var init := chunks[..|chunks| - 1];
      ConcatSplits(init, i);
      assert init[..i] == chunks[..i];
      assert chunks[i..][..|chunks[i..]| - 1] == init[i..];
    }
  }

  /** A malformed prefix decides the whole stream. */
  lemma MalformedIsFinal(chunks: seq<string>, i: nat)
    requires i <= |chunks| && ParseStream(Concat(chunks[..i])).malformed
    ensures ParseStream(Concat(chunks)).malformed
    ensures ParseStream(Concat(chunks)).bodies == ParseStream(Concat(chunks[..i])).bodies
  {
    ConcatSplits(chunks, i);
    ParseResumes(Concat(chunks[..i]), Concat(chunks[i..]));
  }

  lemma NoOverflowWhenBounded(chunks: seq<string>, i: nat)
    requires i < |chunks| && !ParseStream(Concat(chunks[..i])).malformed
    ensures HeadersBounded(Concat(chunks)) && 0 < |chunks[i]| <= READ_CHUNK ==>
              |ParseStream(Concat(chunks[..i])).rest| + |chunks[i]| <= BUFFER_LIMIT
  {
    hide HeadersBounded, NextFrame;
    if HeadersBounded(Concat(chunks)) && 0 < |chunks[i]| <= READ_CHUNK {
      var before, after := Concat(chunks[..i]), Concat(chunks[i..]);
      ConcatSplits(chunks, i);
      ConcatSplits(chunks[i..], 1);
      assert chunks[i..][..1] == [chunks[i]];
      assert Concat([chunks[i]][..0]) == "";
      assert Concat([chunks[i]]) == chunks[i];
      BoundedRest(before, after);
      PendingFits(ParseStream(before).rest, after);
    }
  }

  /** No piece of a read's size is refused while headers are bounded. */
  lemma RefusedPiece(chunks: seq<string>, i: nat)
    requires i < |chunks| && !Fits(chunks, i) && !ParseStream(Concat(chunks[..i])).malformed
    ensures !(HeadersBounded(Concat(chunks)) && ReadPieces(chunks))
  {
    hide ParseStream, HeadersBounded, Concat;
    if ReadPieces(chunks) {
      NoOverflowWhenBounded(chunks, i);
    }
  }

  /**
   Feeds a stream that arrives in pieces, draining the parser after each piece. Unless a piece is
   refused, what comes out is the parse of the whole stream, however it was cut. A piece is refused
   exactly when it and the unfinished frame before it exceed the buffer limit, which cannot happen
   when pieces are at most a read chunk long and headers are bounded.
   */
  method Feed(p: FrameParser, chunks: seq<string>) returns (bodies: seq<string>, status: FeedStatus)
    requires p.Valid() && p.Contents() == ""
    modifies p, p.buf
    ensures p.Valid() && p.buf.Length <= 16 * 1024 * 1024
    ensures status == Fed ==>
              Outcome(bodies, p.Contents(), false) == ParseStream(Concat(chunks))
    ensures status == Malformed ==>
              ParseStream(Concat(chunks)).malformed && bodies == ParseStream(Concat(chunks)).bodies
    ensures status.TooLong? ==>
              && status.at < |chunks| && !Fits(chunks, status.at)
              && bodies == ParseStream(Concat(chunks[..status.at])).bodies
    ensures status == Fed ==> forall i :: 0 <= i < |chunks| ==> Fits(chunks, i)
    ensures HeadersBounded(Concat(chunks)) && ReadPieces(chunks) ==> !status.TooLong?
  {
    hide ParseStream, HeadersBounded, Cached, Capacity, Concat, Fits, ReadPieces;
    bodies := [];
    assert ParseStream(Concat(chunks[..0])) == Outcome([], "", false) by { EmptyStream(chunks); }
    for i := 0 to |chunks|
      invariant p.Valid() && (p.buf == old(p.buf) || fresh(p.buf))
      invariant Outcome(bodies, p.Contents(), false) == ParseStream(Concat(chunks[..i]))
      invariant forall j :: 0 <= j < i ==> Fits(chunks, j)
    {
      var more, status := FeedOne(p, chunks[i], Concat(chunks[..i]));
      OnePiece(chunks, i);
      if status == Overflow {
        RefusedPiece(chunks, i);
        CapacityBound(p.buf.Length);
        return bodies, TooLong(i);
      }
      bodies := bodies + more.bodies;
      if more.malformed {
        MalformedIsFinal(chunks, i + 1);
        CapacityBound(p.buf.Length);
        return bodies, Malformed;
      }
    }
    assert chunks[..|chunks|] == chunks;
    CapacityBound(p.buf.Length);
    return bodies, Fed;
  }

  /** The parse of a stream received in pieces, resumed at every piece. */
  function ParsePieces(chunks: seq<string>): Outcome {
    if chunks == [] then ParseStream("")
    else Continue(ParsePieces(chunks[..|chunks| - 1]), chunks[|chunks| - 1])
  }

  /** Where a stream is cut makes no difference to what it means. */
  lemma {:induction false} CutsDoNotMatter(chunks: seq<string>)
    ensures ParsePieces(chunks) == ParseStream(Concat(chunks))
  {
    if chunks != [] {
      var init, last := chunks[..|chunks| - 1], chunks[|chunks| - 1];
      CutsDoNotMatter(init);
      ParseResumes(Concat(init), last);
    }
  }
}
