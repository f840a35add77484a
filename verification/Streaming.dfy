/**
 Streaming a tool's text: cut into chunks of 128 bytes, escaped, wrapped in server-sent events, and
 read back by the client's extractor.
 */
module Streaming {
  import opened CText

  // ---------------------------------------------------------------- escaping

  function EscapeChar(c: char): (r: string)
    ensures 1 <= |r| <= 2
    ensures '\n' !in r && '\r' !in r
  {
    if c == '"' then "\\\""
    else if c == '\\' then "\\\\"
    else if c == '\n' then "\\n"
    else if c == '\r' then "\\r"
    else if c == '\t' then "\\t"
    else [c]
  }

  function EscapeBody(s: string): (r: string)
    ensures |s| <= |r| <= 2 * |s|
    ensures '\n' !in r && '\r' !in r
  {
    if s == "" then "" else EscapeBody(s[..|s| - 1]) + EscapeChar(s[|s| - 1])
  }

  /** A JSON string literal. */
  function Escape(s: string): (r: string)
    ensures |r| <= 2 * |s| + 2
  {
    "\"" + EscapeBody(s) + "\""
  }

  function UnescapeChar(c: char): char {
    if c == 'n' then '\n' else if c == 'r' then '\r' else if c == 't' then '\t' else c
  }

  /** The text that an escaped body stands for. */
  function Unescape(s: string): string {
    if s == "" then ""
    else if s[0] == '\\' && |s| > 1 then [UnescapeChar(s[1])] + Unescape(s[2..])
    else [s[0]] + Unescape(s[1..])
  }

  lemma UnescapeStep(c: char, rest: string)
    ensures Unescape(EscapeChar(c) + rest) == [c] + Unescape(rest)
  {
    var e := EscapeChar(c) + rest;
    assert e[|EscapeChar(c)|..] == rest;
  }

  lemma {:induction false} EscapeFront(s: string)
    requires s != ""
    ensures EscapeBody(s) == EscapeChar(s[0]) + EscapeBody(s[1..])
  {
    if |s| > 1 {
      var init := s[..|s| - 1];
      EscapeFront(init);
      assert init[1..] == s[1..][..|s| - 2];
      assert EscapeBody(s) == EscapeChar(s[0]) + EscapeBody(init[1..]) + EscapeChar(s[|s| - 1]);
    }
  }

  /** Escaping loses nothing. */
  lemma {:induction false} UnescapeOfEscape(s: string)
    ensures Unescape(EscapeBody(s)) == s
  {
    if s != "" {
      EscapeFront(s);
      UnescapeStep(s[0], EscapeBody(s[1..]));
      UnescapeOfEscape(s[1..]);
    }
  }

  /** The five escapes of JSON; every other character stands for itself. */
  lemma EscapeCodes(c: char)
    ensures EscapeChar('"') == ['\\', '"'] && EscapeChar('\\') == ['\\', '\\']
    ensures EscapeChar('\n') == ['\\', 'n'] && EscapeChar('\r') == ['\\', 'r'] && EscapeChar('\t') == ['\\', 't']
    ensures c != '"' && c != '\\' && c != '\n' && c != '\r' && c != '\t' ==> EscapeChar(c) == [c]
  {
  }

  /** Writes the code of one character at `j` and gives the next free index. */
  method PutCode(escaped: array<char>, j: nat, c: char) returns (next: nat)
    requires j + 2 <= escaped.Length
    modifies escaped
    ensures j < next <= j + 2 && escaped[..next] == old(escaped[..j]) + EscapeChar(c)
  {
    ghost var before := escaped[..j];
    var second := c;
    match c {
      case '"' =>
      case '\\' =>
      case '\n' => second := 'n';
      case '\r' => second := 'r';
      case '\t' => second := 't';
      case _ =>
        escaped[j] := c;
        assert escaped[..j + 1] == before + [c];
        return j + 1;
    }
    escaped[j] := '\\';
    escaped[j + 1] := second;
    assert escaped[..j + 2] == before + ['\\', second];
    return j + 2;
  }

  /** Fills a buffer of 2n + 3 bytes; every write, and the terminator, is in bounds. */
  method JsonStringEscape(str: string) returns (out: string)
    ensures out == Escape(str)
  {
    hide EscapeChar;
    var escaped := new char[2 * |str| + 3];
    escaped[0] := '"';
    var j := 1;
    assert escaped[..1] == "\"";
    for i := 0 to |str|
      invariant 1 <= j <= 2 * i + 1
      invariant escaped[..j] == "\"" + EscapeBody(str[..i])
    {
      j := PutCode(escaped, j, str[i]);
      assert str[..i + 1][..i] == str[..i];
    }
    assert str[..|str|] == str;
    ghost var before := escaped[..j];
    escaped[j] := '"';
    escaped[j + 1] := '\0';
    out := escaped[..j + 1];
    assert out == before + "\"";
  }

  // ---------------------------------------------------------------- server-sent events

  function SseLine(field: string, value: string): string { field + ": " + value + "\n" }

  /** The three lines of one event. */
  function SseLines(kind: string, data: string): seq<string> {
    [SseLine("event", kind), SseLine("data", data), SseLine("", "")]
  }

  function Joined(lines: seq<string>): string {
    if lines == [] then "" else lines[0] + Joined(lines[1..])
  }

  const DATA: string := "data:"

  /** A data field starts a line at offset `p`. */
  predicate DataAt(body: string, p: nat) {
    OccursAt(DATA, body, p) && (p == 0 || body[p - 1] == '\n')
  }

  /** The offset of the first data line from `p` on, or the length of the text. */
  function FirstData(body: string, p: nat): (r: nat)
    requires p <= |body|
    ensures p <= r <= |body|
    ensures r < |body| ==> DataAt(body, r)
    ensures forall q :: p <= q < r ==> !DataAt(body, q)
    decreases |body| - p
  {
    if p == |body| || DataAt(body, p) then p else FirstData(body, p + 1)
  }

  function SkipSpaces(s: string): (r: string)
    ensures |r| <= |s|
  {
    if s != "" && s[0] == ' ' then SkipSpaces(s[1..]) else s
  }

  /** The text up to the line end. */
  function FirstLine(s: string): (r: string)
    ensures r <= s && '\n' !in r
    ensures |r| < |s| ==> s[|r|] == '\n'
  {
    if s == "" || s[0] == '\n' then "" else [s[0]] + FirstLine(s[1..])
  }

  function WithoutReturn(s: string): string {
    if s != "" && s[|s| - 1] == '\r' then s[..|s| - 1] else s
  }

  /** The value of the first data line. */
  function SseData(body: string): Option<string> {
    var p := FirstData(body, 0);
    if p == |body| then None else Some(WithoutReturn(FirstLine(SkipSpaces(body[p + 5..]))))
  }

  lemma DataBytes(body: string, p: nat)
    ensures DataAt(body, p) <==> p + 5 <= |body| && body[p..p + 5] == DATA && (p == 0 || body[p - 1] == '\n')
  {
  }

  lemma FirstDataStep(body: string, p: nat)
    requires p < |body|
    ensures FirstData(body, p) == if DataAt(body, p) then p else FirstData(body, p + 1)
  {
  }

  lemma FirstDataEnd(body: string)
    ensures FirstData(body, |body|) == |body|
  {
  }

  method SkipSpacesFrom(body: string, v: nat) returns (i: nat)
    requires v <= |body|
    ensures v <= i <= |body| && SkipSpaces(body[v..]) == body[i..]
  {
    i := v;
    while i < |body| && body[i] == ' '
      invariant v <= i <= |body| && SkipSpaces(body[v..]) == SkipSpaces(body[i..])
    {
      assert body[i..][1..] == body[i + 1..];
      i := i + 1;
    }
  }

  lemma {:induction false} LineIs(s: string, n: nat)
    requires n <= |s| && '\n' !in s[..n] && (n == |s| || s[n] == '\n')
    ensures FirstLine(s) == s[..n]
  {
    if n > 0 {
      assert s[..n][0] == s[0] && s[1..][..n - 1] == s[..n][1..];
      LineIs(s[1..], n - 1);
    }
  }

  method LineEndFrom(body: string, i: nat) returns (e: nat)
    requires i <= |body|
    ensures i <= e <= |body| && FirstLine(body[i..]) == body[i..e]
  {
    e := i;
    while e < |body| && body[e] != '\n'
      invariant i <= e <= |body| && '\n' !in body[i..e]
    {
      assert body[i..e + 1] == body[i..e] + [body[e]];
      e := e + 1;
    }
    LineIs(body[i..], e - i);
    assert body[i..][..e - i] == body[i..e];
  }

  /** The rest of a line from offset `v`, without leading blanks and a trailing carriage return. */
  method ReadValue(body: string, v: nat) returns (value: string)
    requires v <= |body|
    ensures value == WithoutReturn(FirstLine(SkipSpaces(body[v..])))
  {
    hide FirstLine, SkipSpaces;
    var i := SkipSpacesFrom(body, v);
    var e := LineEndFrom(body, i);
    var len := e - i;
    if len > 0 && body[i + len - 1] == '\r' {
      len := len - 1;
    }
    value := body[i..i + len];
  }

  method ExtractSseData(body: string) returns (r: Option<string>)
    ensures r == SseData(body)
  {
    hide FirstData, FirstLine, SkipSpaces, DataAt;
    var p := 0;
    while p < |body|
      invariant p <= |body| && FirstData(body, 0) == FirstData(body, p)
    {
      DataBytes(body, p);
      FirstDataStep(body, p);
      if p + 5 <= |body| && body[p..p + 5] == DATA && (p == 0 || body[p - 1] == '\n') {
        var line := ReadValue(body, p + 5);
        return Some(line);
      }
      p := p + 1;
    }
    FirstDataEnd(body);
    return None;
  }

  /** Data that survives being sent as one line. */
  predicate OneLine(data: string) {
    '\n' !in data && data != "" && data[0] != ' ' && data[|data| - 1] != '\r'
  }

  lemma {:induction false} FirstLineOf(s: string, rest: string)
    requires '\n' !in s
    ensures FirstLine(s + "\n" + rest) == s
  {
    var t := s + "\n" + rest;
    if s != "" {
      assert t[1..] == s[1..] + "\n" + rest;
      FirstLineOf(s[1..], rest);
    }
  }

  lemma {:induction false} FirstDataSkips(body: string, p: nat, q: nat)
    requires p <= q < |body| && DataAt(body, q) && forall k :: p <= k < q ==> !DataAt(body, k)
    ensures FirstData(body, p) == q
    decreases q - p
  {
    if p < q {
      FirstDataSkips(body, p + 1, q);
    }
  }

  lemma JoinedThree(a: string, b: string, c: string)
    ensures Joined([a, b, c]) == a + b + c
  {
    assert [a, b, c][1..] == [b, c] && [b, c][1..] == [c] && [c][1..] == [];
    assert Joined([c]) == c + "";
    assert Joined([b, c]) == b + c;
  }

  lemma {:induction false} BlanksGone(blanks: string, rest: string)
    requires (forall i :: 0 <= i < |blanks| ==> blanks[i] == ' ') && (rest == "" || rest[0] != ' ')
    ensures SkipSpaces(blanks + rest) == rest
  {
    if blanks == "" {
      assert blanks + rest == rest;
    } else {
      assert (blanks + rest)[1..] == blanks[1..] + rest;
      BlanksGone(blanks[1..], rest);
    }
  }

  lemma DataHere(pre: string, rest: string)
    requires pre == "" || pre[|pre| - 1] == '\n'
    ensures var body := pre + "data:" + rest;
            DataAt(body, |pre|) && body[|pre| + 5..] == rest
  {
    var body := pre + "data:" + rest;
    assert body[|pre|..|pre| + 5] == "data:";
  }

  lemma ValueLine(value: string, tail: string)
    requires '\n' !in value && (tail == "" || tail[0] == '\n')
    ensures FirstLine(value + tail) == value
  {
    hide FirstLine;
    assert (value + tail)[..|value|] == value;
    LineIs(value + tail, |value|);
  }

  /**
   The extractor on any text: the value of the first line that starts with the field, without blanks
   before it and without a carriage return at its end.
   */
  lemma ExtractsFirstData(body: string, pre: string, blanks: string, value: string, tail: string)
    requires body == pre + "data:" + blanks + value + tail
    requires pre == "" || pre[|pre| - 1] == '\n'
    requires forall j :: 0 <= j < |pre| ==> !(OccursAt("data:", body, j) && (j == 0 || body[j - 1] == '\n'))
    requires (forall i :: 0 <= i < |blanks| ==> blanks[i] == ' ') && '\n' !in value
    requires value == "" || value[0] != ' '
    requires tail == "" || tail[0] == '\n'
    ensures SseData(body) == Some(if value != "" && value[|value| - 1] == '\r' then value[..|value| - 1] else value)
  {
    hide FirstData, FirstLine, SkipSpaces, OccursAt;
    var p, rest := |pre|, blanks + (value + tail);
    assert body == pre + "data:" + rest;
    DataHere(pre, rest);
    FirstDataSkips(body, 0, p);
    BlanksGone(blanks, value + tail);
    ValueLine(value, tail);
  }

  /** And it returns nothing when no line starts with the field. */
  lemma ExtractsNothing(body: string)
    requires forall j :: 0 <= j < |body| ==> !(OccursAt("data:", body, j) && (j == 0 || body[j - 1] == '\n'))
    ensures SseData(body) == None
  {
  }

  /** One event on the wire. */
  lemma EventText()
    ensures Joined(SseLines("kind", "data")) == "event: kind\ndata: data\n: \n"
  {
    JoinedThree(SseLine("event", "kind"), SseLine("data", "data"), SseLine("", ""));
  }

  /** The data line is found after a first line without a data field. */
  lemma DataAfterLine(line: string, rest: string)
    requires '\n' !in line && line != "" && line[0] != 'd'
    ensures FirstData(line + "\n" + DATA + rest, 0) == |line| + 1
  {
    hide FirstData;
    var body, q := line + "\n" + DATA + rest, |line| + 1;
    assert body[q..q + 5] == DATA && body[q - 1] == '\n';
    forall k | 0 <= k < q
      ensures !DataAt(body, k)
    {
      if k == 0 {
        assert body[0..5][0] == line[0];
      } else {
        assert body[k - 1] == line[k - 1];
      }
    }
    FirstDataSkips(body, 0, q);
  }

  /** The client's extractor returns the data of an event whole. */
  lemma SseRoundTrip(kind: string, data: string)
    requires '\n' !in kind && OneLine(data)
    ensures SseData(Joined(SseLines(kind, data))) == Some(data)
  {
    hide FirstData, FirstLine, DataAt;
    var line := "event: " + kind;
    var rest := " " + data + "\n" + SseLine("", "");
    var body := Joined(SseLines(kind, data));
    JoinedThree(SseLine("event", kind), SseLine("data", data), SseLine("", ""));
    assert body == line + "\n" + DATA + rest;
    DataAfterLine(line, rest);
    assert body[|line| + 6..] == rest;
    assert rest[1..] == data + "\n" + SseLine("", "");
    assert SkipSpaces(rest) == rest[1..];
    FirstLineOf(data, SseLine("", ""));
  }

  // ---------------------------------------------------------------- chunks

  const CHUNK: nat := 128
  const SSE_BUFFER: nat := 1024

  datatype ContentType = TextContent | ImageContent | ResourceContent | EmbeddedContent
  datatype Content = Content(kind: ContentType, text: Option<string>)

  function TypeName(t: ContentType): (s: string)
    ensures |s| <= 8 && '\n' !in s
  {
    match t
    case ImageContent => "image"
    case ResourceContent => "resource"
    case EmbeddedContent => "embedded"
    case TextContent => "text"
  }

  /** The pieces a text is cut into. */
  function Chunks(text: string): seq<string> {
    if text == "" then []
    else if |text| <= CHUNK then [text]
    else [text[..CHUNK]] + Chunks(text[CHUNK..])
  }

  /** The pieces are all of the text, in order, and there are ceil(n / 128) of them. */
  lemma {:induction false} ChunksCover(text: string)
    ensures Joined(Chunks(text)) == text
    ensures |Chunks(text)| == (|text| + CHUNK - 1) / CHUNK
    ensures forall k :: 0 <= k < |Chunks(text)| ==> 1 <= |Chunks(text)[k]| <= CHUNK
  {
    if text == "" {
    } else if |text| <= CHUNK {
      assert [text][1..] == [];
      assert text + "" == text;
    } else {
      ChunksCover(text[CHUNK..]);
      assert Chunks(text)[1..] == Chunks(text[CHUNK..]);
    }
  }

  const DELTA_OPEN: string := "{\"delta\":{\"text\":\""
  const DELTA_CLOSE: string := "\"}}"

  /** The header that precedes the first chunk of a result. */
  function ChunkHeader(index: nat, kind: ContentType): string {
    "{\"index\":" + Decimal(index) + ",\"type\":\"" + TypeName(kind) + "\",\"partial\":true}"
  }

  function HeaderFor(index: nat, kind: ContentType, first: bool): string {
    if first then ChunkHeader(index, kind) else ""
  }

  function ChunkData(header: string, chunk: string): string {
    header + DELTA_OPEN + Escape(chunk) + DELTA_CLOSE
  }

  /** How the types are called. */
  lemma TypeNames()
    ensures TypeName(TextContent) == "text" && TypeName(ImageContent) == "image"
    ensures TypeName(ResourceContent) == "resource" && TypeName(EmbeddedContent) == "embedded"
  {
  }

  /** The data of an empty chunk without a header. */
  lemma EmptyChunkText()
    ensures ChunkData("", "") == "{\"delta\":{\"text\":\"\"\"\"}}"
  {
    assert Escape("") == "\"\"";
  }

  /** What a receiver that knows the header gets out of a chunk's data. */
  function RecoverDelta(header: string, data: string): Option<string> {
    var from, to := |header| + |DELTA_OPEN| + 1, |data| - |DELTA_CLOSE| - 1;
    if from <= to && header + DELTA_OPEN <= data && data[to + 1..] == DELTA_CLOSE then Some(Unescape(data[from..to]))
    else None
  }

  lemma RecoverOfChunk(header: string, chunk: string)
    ensures RecoverDelta(header, ChunkData(header, chunk)) == Some(chunk)
  {
    hide EscapeBody, Unescape;
    var data, body := ChunkData(header, chunk), EscapeBody(chunk);
    var from := |header| + |DELTA_OPEN| + 1;
    assert data == header + DELTA_OPEN + "\"" + body + "\"" + DELTA_CLOSE;
    assert data[..|header| + |DELTA_OPEN|] == header + DELTA_OPEN;
    assert data[from..from + |body|] == body;
    assert data[from + |body| + 1..] == DELTA_CLOSE;
    UnescapeOfEscape(chunk);
  }

  lemma HeaderIsPlain(index: nat, kind: ContentType, first: bool)
    ensures var header := HeaderFor(index, kind, first);
            '\n' !in header && (header == "" || header[0] == '{')
            && |header| <= |Decimal(index)| + 43
  {
    hide Decimal, TypeName;
  }

  /** The event data of every chunk fits its buffer and is a single line. */
  lemma ChunkDataFits(index: nat, kind: ContentType, first: bool, chunk: string)
    requires index <= ULONG_MAX && |chunk| <= CHUNK
    ensures var data := ChunkData(HeaderFor(index, kind, first), chunk);
            |data| < SSE_BUFFER && OneLine(data)
  {
    hide Decimal, TypeName;
    Pow10Sum(10, 10);
    assert Pow10(10) == 10_000_000_000;
    DecimalLength(index, 20);
    var header := HeaderFor(index, kind, first);
    HeaderIsPlain(index, kind, first);
    var data := ChunkData(header, chunk);
    assert data[|data| - 1] == '}';
    assert '\n' !in Escape(chunk);
    assert header == "" || data[0] == header[0];
  }

  const CHUNK_EVENT: string := "tools/call/chunk"

  /**
   Every text survives streaming: the extractor returns the data of each chunk whole, the delta in
   it is the chunk, and the chunks joined are the text.
   */
  lemma TextSurvives(index: nat, kind: ContentType, text: string)
    requires index <= ULONG_MAX
    ensures var cs := Chunks(text);
            && Joined(cs) == text && |cs| == (|text| + CHUNK - 1) / CHUNK
            && forall k :: 0 <= k < |cs| ==>
                 var header := HeaderFor(index, kind, k == 0);
                 var data := ChunkData(header, cs[k]);
                 && |data| < SSE_BUFFER
                 && SseData(Joined(SseLines(CHUNK_EVENT, data))) == Some(data)
                 && RecoverDelta(header, data) == Some(cs[k])
  {
    hide Joined, SseData, SseLines, ChunkData, RecoverDelta, OneLine, HeaderFor, Chunks;
    ChunksCover(text);
    var cs := Chunks(text);
    forall k | 0 <= k < |cs|
      ensures var header := HeaderFor(index, kind, k == 0);
              var data := ChunkData(header, cs[k]);
              && |data| < SSE_BUFFER
              && SseData(Joined(SseLines(CHUNK_EVENT, data))) == Some(data)
              && RecoverDelta(header, data) == Some(cs[k])
    {
      var header := HeaderFor(index, kind, k == 0);
      ChunkDataFits(index, kind, k == 0, cs[k]);
      SseRoundTrip(CHUNK_EVENT, ChunkData(header, cs[k]));
      RecoverOfChunk(header, cs[k]);
    }
  }
}
