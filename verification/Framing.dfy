/**
 What a byte stream of Content-Length frames means.

 This is the specification side of the MCP client's frame parser: `NextFrame` reads one frame
 off the front of a stream and `ParseStream` reads a whole stream, both without any parser state.
 */
module Framing {
  import opened CText

  const MAX_MESSAGE_SIZE: nat := 10 * 1024 * 1024
  const HEADER_MAX: nat := 8192
  const READ_CHUNK: nat := 4096
  const BUFFER_LIMIT: nat := MAX_MESSAGE_SIZE + HEADER_MAX

  const CRLF: string := "\r\n"
  const SEPARATOR: string := "\r\n\r\n"
  const FIELD: string := "content-length:"

  // ---------------------------------------------------------------- headers

  function Lower(c: char): char {
    if 'A' <= c <= 'Z' then c - 'A' + 'a' else c
  }

  function LowerAll(s: string): (r: string)
    ensures |r| == |s|
    ensures forall i :: 0 <= i < |s| ==> r[i] == Lower(s[i])
  {
    seq(|s|, i requires 0 <= i < |s| => Lower(s[i]))
  }

  /** The offset just past the first blank line, if the header is complete. */
  function HeaderEnd(s: string): (r: Option<nat>)
    ensures r.Some? ==> 4 <= r.value <= |s|
  {
    match Find(SEPARATOR, s)
    case None => None
    case Some(i) => Some(i + 4)
  }

  /** The CRLF-terminated lines of a header from offset `pos` on. */
  function Lines(hdr: string, pos: nat): seq<string>
    requires pos <= |hdr|
    decreases |hdr| - pos
  {
    match FindFrom(CRLF, hdr, pos)
    case None => []
    case Some(e) => [hdr[pos..e]] + Lines(hdr, e + 2)
  }

  predicate IsLengthLine(line: string) {
    |line| >= 15 && LowerAll(line[..15]) == FIELD
  }

  function SkipBlanks(s: string): string {
    if s != "" && (s[0] == ' ' || s[0] == '\t') then SkipBlanks(s[1..]) else s
  }

  /** The value of a Content-Length line: at most 31 digits, saturating as strtoul does. */
  function LengthValue(line: string): Option<nat>
    requires IsLengthLine(line)
  {
    var digits := Truncate(LeadingDigits(SkipBlanks(line[15..])), 31);
    if digits == "" then None
    else if Value(digits) > ULONG_MAX then Some(ULONG_MAX)
    else Some(Value(digits))
  }

  /** The first Content-Length line decides, even when its value is unreadable. */
  function FirstLength(lines: seq<string>): Option<nat> {
    if lines == [] then None
    else if IsLengthLine(lines[0]) then LengthValue(lines[0])
    else FirstLength(lines[1..])
  }

  function ContentLength(hdr: string): Option<nat> {
    FirstLength(Lines(hdr, 0))
  }

  // ---------------------------------------------------------------- frames

  datatype Frame = Incomplete | Bad | Complete(body: string, size: nat)

  predicate AcceptableLength(n: Option<nat>) {
    n.Some? && 1 <= n.value <= MAX_MESSAGE_SIZE
  }

  /** The first frame of a stream. A body is handed over as a C string, so it ends at a NUL. */
  function NextFrame(s: string): (f: Frame)
    ensures f.Complete? ==> 0 < f.size <= |s|
  {
    match HeaderEnd(s)
    case None => Incomplete
    case Some(h) =>
      var n := ContentLength(s[..h]);
      if !AcceptableLength(n) then Bad
      else if |s| < h + n.value then Incomplete
      else Complete(CString(s[h..h + n.value]), h + n.value)
  }

  /** Every body of a stream, what is left over, and whether the left-over starts with a bad header. */
  datatype Outcome = Outcome(bodies: seq<string>, rest: string, malformed: bool)

  function Prepend(body: string, o: Outcome): Outcome {
    Outcome([body] + o.bodies, o.rest, o.malformed)
  }

  function ParseStream(s: string): (o: Outcome)
    ensures o.malformed <==> NextFrame(o.rest).Bad?
    ensures !o.malformed <==> NextFrame(o.rest).Incomplete?
    decreases |s|
  {
    match NextFrame(s)
    case Incomplete => Outcome([], s, false)
    case Bad => Outcome([], s, true)
    case Complete(body, size) => Prepend(body, ParseStream(s[size..]))
  }

  /** A pattern found in a stream is found at the same place however much more arrives. */
  lemma FindExtends(pat: string, s: string, x: string)
    requires Find(pat, s).Some?
    ensures Find(pat, s + x) == Find(pat, s)
  {
    FindFromFirst(pat, s, 0);
    forall j | 0 <= j && j + |pat| <= |s|
      ensures OccursAt(pat, s + x, j) <==> OccursAt(pat, s, j)
    {
      assert (s + x)[j..j + |pat|] == s[j..j + |pat|];
    }
    FoundAt(pat, s + x, 0, Find(pat, s).value);
  }

  lemma HeaderEndExtends(s: string, x: string)
    requires HeaderEnd(s).Some?
    ensures HeaderEnd(s + x) == HeaderEnd(s)
  {
    FindExtends(SEPARATOR, s, x);
  }

  /** A frame that has been decided stays decided: later bytes cannot change it. */
  lemma NextFrameExtends(s: string, x: string)
    requires !NextFrame(s).Incomplete?
    ensures NextFrame(s + x) == NextFrame(s)
  {
    hide HeaderEnd, ContentLength, CString;
    HeaderEndExtends(s, x);
    var h := HeaderEnd(s).value;
    assert (s + x)[..h] == s[..h];
    if AcceptableLength(ContentLength(s[..h])) {
      var n := ContentLength(s[..h]).value;
      assert (s + x)[h..h + n] == s[h..h + n];
    }
  }

  /** The header of the first frame as a C string. */
  function HeaderText(s: string): string
    requires HeaderEnd(s).Some?
  {
    CString(s[..HeaderEnd(s).value])
  }

  lemma HeaderTextExtends(s: string, x: string)
    requires NextFrame(s).Complete?
    ensures HeaderEnd(s).Some? && HeaderEnd(s + x).Some? && HeaderText(s + x) == HeaderText(s)
  {
    hide HeaderEnd, ContentLength, CString;
    HeaderEndExtends(s, x);
    var h := HeaderEnd(s).value;
    assert (s + x)[..h] == s[..h];
  }

  /** A frame taken off the front of the bytes received is the frame of the whole stream. */
  lemma TakenFromStream(s: string, x: string)
    requires NextFrame(s).Complete?
    ensures NextFrame(s + x) == NextFrame(s)
    ensures HeaderEnd(s).Some? && HeaderEnd(s + x).Some? && HeaderText(s + x) == HeaderText(s)
    ensures s[NextFrame(s).size..] + x == (s + x)[NextFrame(s).size..]
  {
    hide NextFrame, HeaderEnd, HeaderText;
    NextFrameExtends(s, x);
    HeaderTextExtends(s, x);
  }

  /** What `first` followed by the parse of the remaining bytes amounts to. */
  function Continue(first: Outcome, x: string): Outcome {
    if first.malformed then Outcome(first.bodies, first.rest + x, true)
    else
      var o := ParseStream(first.rest + x);
      Outcome(first.bodies + o.bodies, o.rest, o.malformed)
  }

  lemma ContinuePrepends(body: string, first: Outcome, x: string)
    ensures Continue(Prepend(body, first), x) == Prepend(body, Continue(first, x))
  {
    if !first.malformed {
      var o := ParseStream(first.rest + x);
      assert [body] + (first.bodies + o.bodies) == ([body] + first.bodies) + o.bodies;
    }
  }

  /** Parsing may stop anywhere and resume from the left-over bytes. */
  lemma {:induction false} ParseResumes(s: string, x: string)
    ensures ParseStream(s + x) == Continue(ParseStream(s), x)
    decreases |s|
  {
    hide NextFrame;
    var f := NextFrame(s);
    if f.Complete? {
      NextFrameExtends(s, x);
      assert (s + x)[f.size..] == s[f.size..] + x;
      ParseResumes(s[f.size..], x);
      ContinuePrepends(f.body, ParseStream(s[f.size..]), x);
    } else if f.Bad? {
      NextFrameExtends(s, x);
    } else {
      var o := ParseStream(s + x);
      assert ParseStream(s) == Outcome([], s, false);
      assert [] + o.bodies == o.bodies;
    }
  }

  // ---------------------------------------------------------------- writing frames

  /** The frame that the writers produce for a message. */
  function Encode(body: string): string {
    "Content-Length: " + Decimal(|body|) + SEPARATOR + body
  }

  function EncodeAll(bodies: seq<string>): string {
    if bodies == [] then "" else Encode(bodies[0]) + EncodeAll(bodies[1..])
  }

  /** Messages that the client side can carry: C strings of 1 byte to 10 MiB. */
  predicate Sendable(body: string) {
    1 <= |body| <= MAX_MESSAGE_SIZE && '\0' !in body
  }

  lemma {:induction false} EncodeAllLast(texts: seq<string>)
    requires texts != []
    ensures EncodeAll(texts) == EncodeAll(texts[..|texts| - 1]) + Encode(texts[|texts| - 1])
  {
    hide Encode;
    var init := texts[..|texts| - 1];
    if |texts| > 1 {
      EncodeAllLast(texts[1..]);
      assert texts[1..][..|texts| - 2] == init[1..];
      assert EncodeAll(init) == Encode(texts[0]) + EncodeAll(init[1..]);
      assert EncodeAll(texts) == Encode(texts[0]) + EncodeAll(texts[1..]);
    } else {
      assert EncodeAll(texts[1..]) == "" && EncodeAll(init) == "";
      assert EncodeAll(texts) == Encode(texts[0]) + "";
    }
  }

  lemma HeaderOfEncoding(n: nat, tail: string)
    ensures HeaderEnd("Content-Length: " + Decimal(n) + SEPARATOR + tail) == Some(20 + |Decimal(n)|)
  {
    var d := Decimal(n);
    var head := "Content-Length: " + d;
    var s := head + SEPARATOR + tail;
    assert forall i :: 0 <= i < |head| ==> s[i] == head[i] && head[i] != '\r';
    NoOccurrence(SEPARATOR, s, 0, |head|);
    assert s[|head|..|head| + 4] == SEPARATOR;
    FoundAt(SEPARATOR, s, 0, |head|);
  }

  lemma LengthLineOfEncoding(n: nat)
    requires n <= MAX_MESSAGE_SIZE
    ensures var line := "Content-Length: " + Decimal(n);
            IsLengthLine(line) && LengthValue(line) == Some(n)
  {
    var d := Decimal(n);
    var line := "Content-Length: " + d;
    hide Value, Decimal, LeadingDigits;
    assert line[..15] == "Content-Length:";
    assert LowerAll("Content-Length:") == FIELD;
    assert line[15..] == " " + d;
    assert line[15..][1..] == d;
    assert SkipBlanks(d) == d;
    assert d + "" == d;
    LeadingDigitsOf(d, "");
    assert Pow10(8) == 100_000_000;
    DecimalLength(n, 8);
    DecimalValue(n);
  }

  lemma LengthOfEncoding(n: nat)
    requires n <= MAX_MESSAGE_SIZE
    ensures ContentLength("Content-Length: " + Decimal(n) + SEPARATOR) == Some(n)
  {
    var d := Decimal(n);
    var line := "Content-Length: " + d;
    var hdr := line + SEPARATOR;
    assert forall i :: 0 <= i < |line| ==> hdr[i] == line[i] && line[i] != '\r';
    NoOccurrence(CRLF, hdr, 0, |line|);
    assert hdr[|line|..|line| + 2] == CRLF;
    FoundAt(CRLF, hdr, 0, |line|);
    assert hdr[0..|line|] == line;
    LengthLineOfEncoding(n);
    assert Lines(hdr, 0)[0] == line;
  }

  /** A written frame is read back whole, whatever follows it. */
  lemma NextFrameOfEncoding(body: string, tail: string)
    requires Sendable(body)
    ensures NextFrame(Encode(body) + tail) == Complete(body, |Encode(body)|)
  {
    var d := Decimal(|body|);
    var hdr := "Content-Length: " + d + SEPARATOR;
    var s := Encode(body) + tail;
    assert s == hdr + (body + tail);
    HeaderOfEncoding(|body|, body + tail);
    LengthOfEncoding(|body|);
    var h := |hdr|;
    assert s[..h] == hdr;
    assert s[h..h + |body|] == body;
  }

  /** Round trip over whole streams: the parser returns exactly what was written, with nothing left. */
  lemma {:induction false} ParseOfEncodeAll(bodies: seq<string>)
    requires forall b :: b in bodies ==> Sendable(b)
    ensures ParseStream(EncodeAll(bodies)) == Outcome(bodies, "", false)
  {
    if bodies == [] {
    } else {
      hide NextFrame, Encode;
      var head, tail := Encode(bodies[0]), EncodeAll(bodies[1..]);
      NextFrameOfEncoding(bodies[0], tail);
      assert (head + tail)[|head|..] == tail;
      ParseOfEncodeAll(bodies[1..]);
      assert [bodies[0]] + bodies[1..] == bodies;
    }
  }

  // ---------------------------------------------------------------- bounded headers

  /** Every header of the stream, finished or not, takes at most `READ_CHUNK` bytes. */
  predicate HeadersBounded(s: string)
    decreases |s|
  {
    match HeaderEnd(s)
    case None => |s| <= READ_CHUNK
    case Some(h) =>
      h <= READ_CHUNK && (NextFrame(s).Complete? ==> HeadersBounded(s[NextFrame(s).size..]))
  }

  /** What the writers produce has short headers. */
  lemma {:induction false} EncodedHeadersBounded(bodies: seq<string>)
    requires forall b :: b in bodies ==> Sendable(b)
    ensures HeadersBounded(EncodeAll(bodies))
  {
    hide NextFrame;
    if bodies != [] {
      var head, tail := Encode(bodies[0]), EncodeAll(bodies[1..]);
      NextFrameOfEncoding(bodies[0], tail);
      HeaderOfEncoding(|bodies[0]|, bodies[0] + tail);
      assert head + tail == "Content-Length: " + Decimal(|bodies[0]|) + SEPARATOR + (bodies[0] + tail);
      assert Pow10(8) == 100_000_000;
      DecimalLength(|bodies[0]|, 8);
      assert (head + tail)[|head|..] == tail;
      EncodedHeadersBounded(bodies[1..]);
    }
  }

  /** Bounded headers survive cutting the stream at the end of a parsed part. */
  lemma {:induction false} BoundedRest(s: string, x: string)
    requires HeadersBounded(s + x)
    ensures HeadersBounded(ParseStream(s).rest + x)
    decreases |s|
  {
    hide HeaderEnd, ContentLength, CString;
    match NextFrame(s)
    case Incomplete =>
    case Bad =>
    case Complete(_, size) =>
      NextFrameExtends(s, x);
      assert (s + x)[size..] == s[size..] + x;
      BoundedRest(s[size..], x);
  }

  /** A header that ends within the bytes received so far is complete already. */
  lemma HeaderEndsInside(s: string, x: string)
    requires HeaderEnd(s + x).Some? && HeaderEnd(s + x).value <= |s|
    ensures HeaderEnd(s).Some?
  {
    var h := HeaderEnd(s + x).value;
    FindFromFirst(SEPARATOR, s + x, 0);
    assert (s + x)[h - 4..h] == s[h - 4..h];
    assert OccursAt(SEPARATOR, s, h - 4);
    FindFromFirst(SEPARATOR, s, 0);
  }

  /** With bounded headers an unfinished frame leaves room for one more read. */
  lemma PendingFits(s: string, x: string)
    requires HeadersBounded(s + x)
    requires NextFrame(s).Incomplete?
    ensures |s| < MAX_MESSAGE_SIZE + READ_CHUNK
  {
    hide HeaderEnd, ContentLength, CString;
    if HeaderEnd(s).Some? {
      HeaderEndExtends(s, x);
    } else if HeaderEnd(s + x).Some? && HeaderEnd(s + x).value <= |s| {
      HeaderEndsInside(s, x);
    }
  }
}
