/**
 The streaming tool call: its event sequence, a receiver that puts the texts together again, and the
 HTTP client that reads such a stream. Names and texts are C strings.
 */
module ToolStream {
  import opened CText
  import opened Streaming

  datatype EventKind = CONTENT | ERROR | DONE | PROGRESS

  /** One callback. Progress is on a scale to 100. */
  datatype Event = Event(kind: EventKind, data: Option<string>, progress: real)

  datatype HandlerResult = HandlerResult(results: seq<Content>, isError: bool)
  datatype Tool = Tool(name: string, handler: string -> HandlerResult)

  const RESULT_EVENT: string := "tools/call/result"

  // ---------------------------------------------------------------- the event sequence

  function LineEvent(line: string): Event { Event(CONTENT, Some(line), 0.0) }

  /** One server-sent event as three line callbacks. */
  function SseEvents(kind: string, data: string): (events: seq<Event>)
    ensures |events| == 3
  {
    var lines := SseLines(kind, data);
    [LineEvent(lines[0]), LineEvent(lines[1]), LineEvent(lines[2])]
  }

  function ChunkProgress(done: nat, total: nat): Event {
    Event(PROGRESS, None, if total == 0 then 0.0 else done as real / total as real * 80.0)
  }

  lemma NotPositive(z: real, t: real)
    requires t > 0.0
    ensures z <= 0.0 ==> z * t <= 0.0
  {
  }

  lemma ShareGrows(a: real, b: real, t: real)
    requires t > 0.0 && a < b
    ensures a / t < b / t
  {
    var x, y := a / t, b / t;
    assert x * t == a && y * t == b;
    NotPositive(y - x, t);
    assert (y - x) * t == b - a;
  }

  /** Progress grows with every chunk up to 80. */
  lemma ProgressGrows(done: nat, next: nat, total: nat)
    requires done < next <= total
    ensures 0.0 <= ChunkProgress(done, total).progress < ChunkProgress(next, total).progress <= 80.0
    ensures ChunkProgress(total, total).progress == 80.0
  {
    var d, n, t := done as real, next as real, total as real;
    ShareGrows(d, n, t);
    ShareGrows(0.0, n, t);
    assert n == t || n / t < t / t by { if n < t { ShareGrows(n, t, t); } }
    assert t / t == 1.0 && 0.0 / t == 0.0;
  }

  /** The events for the chunks still to send when `done` of `total` bytes are sent. */
  function ChunkEvents(index: nat, kind: ContentType, chunks: seq<string>, done: nat, total: nat): seq<Event>
    decreases |chunks|
  {
    if chunks == [] then []
    else
      var next := done + |chunks[0]|;
      SseEvents(CHUNK_EVENT, ChunkData(HeaderFor(index, kind, done == 0), chunks[0]))
      + [ChunkProgress(next, total)]
      + ChunkEvents(index, kind, chunks[1..], next, total)
  }

  function TextEvents(index: nat, kind: ContentType, text: string): seq<Event> {
    ChunkEvents(index, kind, Chunks(text), 0, |text|)
  }

  /** The text of a result as the C string functions see it. */
  function TextOf(c: Content): string {
    match c.text case None => "" case Some(t) => CString(t)
  }

  function ResultEvents(results: seq<Content>): seq<Event> {
    if results == [] then []
    else
      var n := |results| - 1;
      ResultEvents(results[..n]) + TextEvents(n, results[n].kind, TextOf(results[n]))
  }

  const START: Event := Event(PROGRESS, Some("{\"status\":\"started\"}"), 0.0)
  const NOT_FOUND: Event := Event(ERROR, Some("Tool not found"), 0.0)

  function Final(isError: bool): Event {
    if isError then Event(ERROR, Some("completed with errors"), 100.0)
    else Event(DONE, Some("completed successfully"), 100.0)
  }

  /** The first tool with the name, or the number of tools. */
  function ToolIndex(tools: seq<Tool>, name: string): (i: nat)
    ensures i <= |tools|
    ensures i < |tools| ==> tools[i].name == name
    ensures forall j :: 0 <= j < i ==> tools[j].name != name
  {
    if tools == [] || tools[0].name == name then 0 else 1 + ToolIndex(tools[1..], name)
  }

  // ---------------------------------------------------------------- the result messages

  const ERROR_BUFFER: nat := 512

  /** The result message for an unknown tool, cut off by its buffer. */
  function NotFoundText(name: string): string {
    Truncate("{\"isError\":true,\"content\":[{\"type\":\"text\",\"text\":\"Tool not found: " + Escape(name) + "\"}]}",
             ERROR_BUFFER - 1)
  }

  function EscapedText(c: Content): string {
    match c.text case None => "null" case Some(t) => Escape(CString(t))
  }

  /** One result in the final message. */
  function ItemText(c: Content): string {
    "{\"type\":\"" + TypeName(c.kind) + "\",\"text\":" + EscapedText(c) + "}"
  }

  function ItemTexts(results: seq<Content>): string {
    if results == [] then ""
    else
      var n := |results| - 1;
      ItemTexts(results[..n]) + (if n > 0 then "," else "") + ItemText(results[n])
  }

  function SummaryOpening(isError: bool): string {
    "{\"isError\":" + (if isError then "true" else "false") + ",\"content\":["
  }

  /** The final message up to its closing brackets. */
  function SummaryHead(r: HandlerResult): string { SummaryOpening(r.isError) + ItemTexts(r.results) }

  const CLOSING: string := "]}"

  function SummaryBuffer(count: nat): nat { 4096 + count * 1024 }

  /** The message is built inside its buffer, and snprintf can count each item. */
  predicate SummaryInBounds(r: HandlerResult) {
    && |SummaryHead(r)| <= SummaryBuffer(|r.results|)
    && forall i :: 0 <= i < |r.results| ==> |ItemText(r.results[i])| <= INT_MAX
  }

  /**
   The final message, if there is one. Beyond `SummaryInBounds` the source writes outside its
   buffer; `beyond` stands for whatever it then sends.
   */
  function Summary(r: HandlerResult, beyond: HandlerResult -> Option<string>): Option<string> {
    var size := SummaryBuffer(|r.results|);
    if size > ULONG_MAX then None
    else if SummaryInBounds(r) then Some(Truncate(SummaryHead(r) + CLOSING, size - 1))
    else beyond(r)
  }

  function SummaryEvents(text: Option<string>): seq<Event> {
    match text case None => [] case Some(t) => SseEvents(RESULT_EVENT, t)
  }

  /** All callbacks of one streaming call, in order. */
  function CallEvents(tools: seq<Tool>, name: string, args: string, beyond: HandlerResult -> Option<string>)
    : seq<Event>
  {
    var i := ToolIndex(tools, name);
    if i == |tools| then [START] + SseEvents(RESULT_EVENT, NotFoundText(name)) + [NOT_FOUND]
    else
      var r := tools[i].handler(args);
      [START] + ResultEvents(r.results) + SummaryEvents(Summary(r, beyond)) + [Final(r.isError)]
  }

  // ---------------------------------------------------------------- the receiver

  function TextOfEvent(e: Event): string {
    match e.data case None => "" case Some(t) => t
  }

  /** The text of the three line callbacks of one event. */
  function LinesOf(events: seq<Event>): string
    requires |events| >= 3
  {
    TextOfEvent(events[0]) + TextOfEvent(events[1]) + TextOfEvent(events[2])
  }

  /** A text received, under the header that announced it. */
  datatype Delivery = Delivery(header: string, text: string)

  const INDEX_OPEN: string := "{\"index\":"

  /** The line callback that opens a chunk event. */
  predicate OpensChunk(e: Event) { e == LineEvent(SseLine("event", CHUNK_EVENT)) }

  /** More text for the last delivery. */
  function Extended(acc: seq<Delivery>, more: string): (r: seq<Delivery>)
    requires acc != []
    ensures r != []
  {
    var n := |acc| - 1;
    acc[..n] + [acc[n].(text := acc[n].text + more)]
  }

  lemma ExtendedTwice(acc: seq<Delivery>, a: string, b: string)
    requires acc != []
    ensures Extended(acc, "") == acc && Extended(Extended(acc, a), b) == Extended(acc, a + b)
  {
    var n := |acc| - 1;
    assert acc[n].text + "" == acc[n].text;
    assert Extended(acc, a)[..n] == acc[..n];
    assert acc[n].text + a + b == acc[n].text + (a + b);
  }

  /** One chunk's data: with a header it starts a new text, without one it continues the last. */
  function TakeChunk(acc: seq<Delivery>, data: string): Option<seq<Delivery>> {
    match Find(DELTA_OPEN, data)
    case None => None
    case Some(k) =>
      var header := data[..k];
      match RecoverDelta(header, data)
      case None => None
      case Some(delta) =>
        if INDEX_OPEN <= header then Some(acc + [Delivery(header, delta)])
        else if acc == [] then None
        else Some(Extended(acc, delta))
  }

  /**
   What a receiver puts together from the callbacks of a call with the client's extractor: it takes
   every chunk event and passes over all other callbacks.
   */
  function Collect(acc: seq<Delivery>, events: seq<Event>): Option<seq<Delivery>>
    decreases |events|
  {
    if events == [] then Some(acc)
    else if !OpensChunk(events[0]) then Collect(acc, events[1..])
    else if |events| < 4 then None
    else
      match SseData(LinesOf(events))
      case None => None
      case Some(data) =>
        match TakeChunk(acc, data)
        case None => None
        case Some(acc') => Collect(acc', events[4..])
  }

  function DeliveryOf(index: nat, kind: ContentType, text: string): seq<Delivery> {
    if text == "" then [] else [Delivery(ChunkHeader(index, kind), text)]
  }

  /** What a receiver should get: every text that is not empty, in order, under its own header. */
  function Deliveries(results: seq<Content>): seq<Delivery> {
    if results == [] then []
    else
      var n := |results| - 1;
      Deliveries(results[..n]) + DeliveryOf(n, results[n].kind, TextOf(results[n]))
  }

  lemma LinesOfEvents(kind: string, data: string, more: seq<Event>)
    ensures LinesOf(SseEvents(kind, data) + more) == Joined(SseLines(kind, data))
  {
    var lines := SseLines(kind, data);
    JoinedThree(lines[0], lines[1], lines[2]);
  }

  lemma TypeNameHasNoBrace(kind: ContentType)
    ensures '{' !in TypeName(kind)
  {
  }

  /** A header opens with its index and holds no other brace that opens. */
  lemma HeaderBraces(index: nat, kind: ContentType, first: bool)
    ensures var header := HeaderFor(index, kind, first);
            && (forall j :: 1 <= j < |header| ==> header[j] != '{')
            && (header == "" || (INDEX_OPEN <= header && |header| >= 3 && header[2] == 'i'))
            && (first <==> header != "")
  {
    hide Decimal, TypeName;
    var header := HeaderFor(index, kind, first);
    if first {
      TypeNameHasNoBrace(kind);
      assert '{' !in Decimal(index);
      assert header[..|INDEX_OPEN|] == INDEX_OPEN;
      assert header == INDEX_OPEN + Decimal(index) + ",\"type\":\"" + TypeName(kind) + "\",\"partial\":true}";
    }
  }

  /** The delta template is found right after the header. */
  lemma DeltaAfterHeader(index: nat, kind: ContentType, first: bool, chunk: string)
    ensures Find(DELTA_OPEN, ChunkData(HeaderFor(index, kind, first), chunk))
            == Some(|HeaderFor(index, kind, first)|)
  {
    hide Escape, FindFrom, HeaderFor;
    var header := HeaderFor(index, kind, first);
    var data := ChunkData(header, chunk);
    HeaderBraces(index, kind, first);
    assert data[|header|..|header| + |DELTA_OPEN|] == DELTA_OPEN;
    if header != "" {
      assert data[0..|DELTA_OPEN|][2] == header[2];
    }
    assert forall j :: 1 <= j < |header| ==> data[j] == header[j];
    NoOccurrence(DELTA_OPEN, data, 1, |header|);
    FoundAt(DELTA_OPEN, data, 0, |header|);
  }

  lemma HeaderLeads(header: string, chunk: string)
    ensures |header| <= |ChunkData(header, chunk)| && ChunkData(header, chunk)[..|header|] == header
  {
    hide Escape;
  }

  /** The receiver's step for one chunk of a text. */
  lemma ChunkTaken(acc: seq<Delivery>, index: nat, kind: ContentType, first: bool, chunk: string)
    requires !first ==> acc != []
    ensures TakeChunk(acc, ChunkData(HeaderFor(index, kind, first), chunk))
            == Some(if first then acc + [Delivery(ChunkHeader(index, kind), chunk)]
                    else Extended(acc, chunk))
  {
    hide ChunkHeader, ChunkData, Find, RecoverDelta;
    var header := HeaderFor(index, kind, first);
    DeltaAfterHeader(index, kind, first, chunk);
    HeaderBraces(index, kind, first);
    RecoverOfChunk(header, chunk);
    HeaderLeads(header, chunk);
  }

  lemma OpensItself(data: string)
    ensures OpensChunk(SseEvents(CHUNK_EVENT, data)[0])
  {
  }

  /** The receiver takes one chunk event and passes over the progress callback after it. */
  lemma CollectEvent(acc: seq<Delivery>, acc': seq<Delivery>, data: string, progress: Event, later: seq<Event>)
    requires OneLine(data) && TakeChunk(acc, data) == Some(acc')
    ensures Collect(acc, SseEvents(CHUNK_EVENT, data) + ([progress] + later)) == Collect(acc', later)
  {
    hide SseData, SseLines, SseEvents, TakeChunk, OneLine, OpensChunk, LinesOf, Joined;
    var events := SseEvents(CHUNK_EVENT, data) + ([progress] + later);
    LinesOfEvents(CHUNK_EVENT, data, [progress] + later);
    SseRoundTrip(CHUNK_EVENT, data);
    OpensItself(data);
    assert events[0] == SseEvents(CHUNK_EVENT, data)[0];
    assert events[4..] == later;
  }

  /** The receiver takes the first chunk of some and goes on with the others. */
  lemma CollectOne(acc: seq<Delivery>, acc': seq<Delivery>, index: nat, kind: ContentType, chunks: seq<string>,
                   done: nat, total: nat, more: seq<Event>)
    requires index <= ULONG_MAX && chunks != [] && |chunks[0]| <= CHUNK
    requires TakeChunk(acc, ChunkData(HeaderFor(index, kind, done == 0), chunks[0])) == Some(acc')
    ensures Collect(acc, ChunkEvents(index, kind, chunks, done, total) + more)
            == Collect(acc', ChunkEvents(index, kind, chunks[1..], done + |chunks[0]|, total) + more)
  {
    hide Collect, SseEvents, ChunkData, TakeChunk, HeaderFor, OneLine, ChunkProgress;
    var data, next := ChunkData(HeaderFor(index, kind, done == 0), chunks[0]), done + |chunks[0]|;
    var later := ChunkEvents(index, kind, chunks[1..], next, total) + more;
    assert ChunkEvents(index, kind, chunks, done, total) + more
        == SseEvents(CHUNK_EVENT, data) + ([ChunkProgress(next, total)] + later);
    ChunkDataFits(index, kind, done == 0, chunks[0]);
    CollectEvent(acc, acc', data, ChunkProgress(next, total), later);
  }

  /** Chunks after the first are added to the last text. */
  lemma {:induction false} CollectRest(acc: seq<Delivery>, index: nat, kind: ContentType, chunks: seq<string>,
                                       done: nat, total: nat, more: seq<Event>)
    requires index <= ULONG_MAX && acc != [] && done > 0
    requires forall k :: 0 <= k < |chunks| ==> 1 <= |chunks[k]| <= CHUNK
    ensures Collect(acc, ChunkEvents(index, kind, chunks, done, total) + more)
            == Collect(Extended(acc, Joined(chunks)), more)
    decreases |chunks|
  {
    hide Collect, TakeChunk, ChunkData, Extended, SseEvents;
    if chunks == [] {
      ExtendedTwice(acc, "", "");
      assert [] + more == more;
    } else {
      hide ChunkEvents;
      ChunkTaken(acc, index, kind, false, chunks[0]);
      CollectOne(acc, Extended(acc, chunks[0]), index, kind, chunks, done, total, more);
      CollectRest(Extended(acc, chunks[0]), index, kind, chunks[1..], done + |chunks[0]|, total, more);
      ExtendedTwice(acc, chunks[0], Joined(chunks[1..]));
    }
  }

  /** Whatever its length and bytes, a streamed text is put together again by the receiver. */
  lemma StreamDelivers(acc: seq<Delivery>, index: nat, kind: ContentType, text: string, more: seq<Event>)
    requires index <= ULONG_MAX
    ensures Collect(acc, TextEvents(index, kind, text) + more)
            == Collect(acc + DeliveryOf(index, kind, text), more)
  {
    hide Collect, TakeChunk, ChunkData, ChunkHeader;
    ChunksCover(text);
    var chunks := Chunks(text);
    if text == "" {
      assert TextEvents(index, kind, text) + more == more;
      assert acc + [] == acc;
    } else {
      hide ChunkEvents, Chunks;
      var header := ChunkHeader(index, kind);
      var acc' := acc + [Delivery(header, chunks[0])];
      ChunkTaken(acc, index, kind, true, chunks[0]);
      CollectOne(acc, acc', index, kind, chunks, 0, |text|, more);
      CollectRest(acc', index, kind, chunks[1..], |chunks[0]|, |text|, more);
      assert Extended(acc', Joined(chunks[1..])) == acc + [Delivery(header, text)];
    }
  }

  lemma {:induction false} ResultsDelivered(acc: seq<Delivery>, results: seq<Content>, more: seq<Event>)
    requires |results| <= ULONG_MAX
    ensures Collect(acc, ResultEvents(results) + more) == Collect(acc + Deliveries(results), more)
    decreases |results|
  {
    hide Collect, TextEvents, TextOf, DeliveryOf;
    if results == [] {
      assert [] + more == more && acc + [] == acc;
    } else {
      var n := |results| - 1;
      var last := TextEvents(n, results[n].kind, TextOf(results[n]));
      assert ResultEvents(results) + more == ResultEvents(results[..n]) + (last + more);
      ResultsDelivered(acc, results[..n], last + more);
      StreamDelivers(acc + Deliveries(results[..n]), n, results[n].kind, TextOf(results[n]), more);
      var own := DeliveryOf(n, results[n].kind, TextOf(results[n]));
      assert acc + Deliveries(results[..n]) + own == acc + (Deliveries(results[..n]) + own);
    }
  }

  /** Callbacks that open no chunk are passed over. */
  lemma {:induction false} PassedOver(acc: seq<Delivery>, events: seq<Event>, more: seq<Event>)
    requires forall i :: 0 <= i < |events| ==> !OpensChunk(events[i])
    ensures Collect(acc, events + more) == Collect(acc, more)
  {
    hide OpensChunk;
    if events == [] {
      assert [] + more == more;
    } else {
      PassedOver(acc, events[1..], more);
      assert (events + more)[1..] == events[1..] + more;
    }
  }

  lemma ResultMessageIsNoChunk(text: string)
    ensures forall i :: 0 <= i < 3 ==> !OpensChunk(SseEvents(RESULT_EVENT, text)[i])
  {
    var chunk := SseLine("event", CHUNK_EVENT);
    assert chunk[18] == 'c' && SseLine("event", RESULT_EVENT)[18] == 'r';
    assert SseLine("data", text)[0] == 'd' && SseLine("", "")[0] == ':';
  }

  /** A receiver of all callbacks of a call gets every text that is not empty, whole and in order. */
  lemma CallDelivers(tools: seq<Tool>, name: string, args: string, beyond: HandlerResult -> Option<string>)
    requires forall t :: t in tools ==> |t.handler(args).results| <= ULONG_MAX
    ensures var i := ToolIndex(tools, name);
            Collect([], CallEvents(tools, name, args, beyond))
            == Some(if i == |tools| then [] else Deliveries(tools[i].handler(args).results))
  {
    hide ToolIndex, ResultEvents, Deliveries, SseEvents, Summary, NotFoundText;
    var i := ToolIndex(tools, name);
    var events := CallEvents(tools, name, args, beyond);
    if i == |tools| {
      var text := NotFoundText(name);
      ResultMessageIsNoChunk(text);
      assert events == events + [];
      PassedOver([], events, []);
    } else {
      assert tools[i] in tools;
      var r := tools[i].handler(args);
      var summary := Summary(r, beyond);
      var end := SummaryEvents(summary) + [Final(r.isError)];
      assert events == [START] + (ResultEvents(r.results) + end);
      PassedOver([], [START], ResultEvents(r.results) + end);
      ResultsDelivered([], r.results, end);
      assert [] + Deliveries(r.results) == Deliveries(r.results);
      if summary.Some? {
        ResultMessageIsNoChunk(summary.value);
      }
      PassedOver(Deliveries(r.results), end, []);
      assert end + [] == end;
    }
  }

  // ---------------------------------------------------------------- the handler

  lemma ChunksStep(text: string)
    requires text != ""
    ensures var n := if |text| < CHUNK then |text| else CHUNK;
            Chunks(text) == [text[..n]] + Chunks(text[n..])
  {
    if |text| <= CHUNK {
      assert text[..|text|] == text;
      assert Chunks(text[|text|..]) == [];
    }
  }

  lemma ChunkEventsStep(index: nat, kind: ContentType, chunk: string, rest: seq<string>, done: nat, total: nat)
    ensures ChunkEvents(index, kind, [chunk] + rest, done, total)
            == SseEvents(CHUNK_EVENT, ChunkData(HeaderFor(index, kind, done == 0), chunk))
               + [ChunkProgress(done + |chunk|, total)]
               + ChunkEvents(index, kind, rest, done + |chunk|, total)
  {
    assert ([chunk] + rest)[1..] == rest;
  }

  lemma NoChunks(index: nat, kind: ContentType, total: nat)
    ensures ChunkEvents(index, kind, Chunks(""), total, total) == []
  {
  }

  /** Formats one chunk into a buffer of 1024 bytes, which always holds it. */
  method BuildChunk(index: nat, kind: ContentType, first: bool, chunk: string) returns (data: string)
    requires index <= ULONG_MAX && |chunk| <= CHUNK
    ensures data == ChunkData(HeaderFor(index, kind, first), chunk)
  {
    hide HeaderFor, Escape, OneLine;
    var escaped := JsonStringEscape(chunk);
    var whole := HeaderFor(index, kind, first) + DELTA_OPEN + escaped + DELTA_CLOSE;
    ChunkDataFits(index, kind, first, chunk);
    data := Truncate(whole, SSE_BUFFER - 1);
  }

  /** Sends one text chunk by chunk. */
  method StreamText(index: nat, kind: ContentType, text: string) returns (events: seq<Event>)
    requires index <= ULONG_MAX
    ensures events == TextEvents(index, kind, text)
  {
    hide SseEvents, ChunkProgress, ChunkData, HeaderFor, ChunkEvents, Chunks, Escape, OneLine;
    events := [];
    var offset := 0;
    assert text[0..] == text;
    while offset < |text|
      invariant offset <= |text|
      invariant TextEvents(index, kind, text)
                == events + ChunkEvents(index, kind, Chunks(text[offset..]), offset, |text|)
    {
      var size := CHUNK;
      if offset + size > |text| {
        size := |text| - offset;
      }
      var rest := text[offset..];
      var chunk := text[offset..offset + size];
      ChunksStep(rest);
      assert rest[..size] == chunk && rest[size..] == text[offset + size..];
      ChunkEventsStep(index, kind, chunk, Chunks(rest[size..]), offset, |text|);
      var data := BuildChunk(index, kind, offset == 0, chunk);
      ghost var more := SseEvents(CHUNK_EVENT, data) + [ChunkProgress(offset + size, |text|)];
      ghost var later := ChunkEvents(index, kind, Chunks(text[offset + size..]), offset + size, |text|);
      assert events + (more + later) == events + more + later;
      events := events + (SseEvents(CHUNK_EVENT, data) + [ChunkProgress(offset + size, |text|)]);
      offset := offset + size;
    }
    NoChunks(index, kind, |text|);
    assert text[offset..] == "";
    assert events + [] == events;
  }

  /** Sends the texts of all results. */
  method StreamResults(results: seq<Content>) returns (events: seq<Event>)
    requires |results| <= ULONG_MAX
    ensures events == ResultEvents(results)
  {
    hide TextEvents, TextOf;
    events := [];
    for k := 0 to |results|
      invariant events == ResultEvents(results[..k])
    {
      var more := StreamText(k, results[k].kind, TextOf(results[k]));
      assert results[..k + 1][..k] == results[..k];
      events := events + more;
    }
    assert results[..|results|] == results;
  }

  /** snprintf at the end of what is in the buffer; `offset` counts what did not fit as well. */
  function Put(text: string, offset: nat, size: nat, piece: string): string
    requires offset <= size
  {
    if offset == size then text else text + Truncate(piece, size - offset - 1)
  }

  lemma PutTruncates(whole: string, size: nat, piece: string)
    requires size > 0 && |whole| <= size
    ensures Put(Truncate(whole, size - 1), |whole|, size, piece) == Truncate(whole + piece, size - 1)
  {
    if |whole| == size {
      assert (whole + piece)[..size - 1] == whole[..size - 1];
    } else if |whole + piece| >= size {
      assert (whole + piece)[..size - 1] == whole + piece[..size - 1 - |whole|];
    }
  }

  lemma {:induction false} ItemsFit(results: seq<Content>, i: nat)
    requires i <= |results|
    ensures |ItemTexts(results[..i])| <= |ItemTexts(results)|
    decreases |results|
  {
    hide ItemText;
    if i < |results| {
      var n := |results| - 1;
      ItemsFit(results[..n], i);
      assert results[..n][..i] == results[..i];
    } else {
      assert results[..i] == results;
    }
  }

  lemma NoItems(results: seq<Content>)
    ensures ItemTexts(results[..0]) == ""
  {
  }

  lemma ItemTextsStep(opening: string, results: seq<Content>, i: nat)
    requires i < |results|
    ensures opening + ItemTexts(results[..i + 1])
            == opening + ItemTexts(results[..i]) + (if i > 0 then "," else "") + ItemText(results[i])
  {
    hide ItemText;
    assert results[..i + 1][..i] == results[..i];
  }

  /** Adds one item, after a comma unless it is the first. */
  method PutItem(text: string, offset: nat, size: nat, comma: bool, item: string, ghost whole: string)
    returns (text': string, offset': nat)
    requires size > 0 && offset == |whole| && text == Truncate(whole, size - 1)
    requires |whole| + (if comma then 1 else 0) + |item| <= size
    ensures var whole' := whole + (if comma then "," else "") + item;
            text' == Truncate(whole', size - 1) && offset' == |whole'|
  {
    hide Truncate, Put;
    text', offset' := text, offset;
    ghost var before := whole;
    if comma {
      PutTruncates(whole, size, ",");
      text', offset', before := Put(text, offset, size, ","), offset + 1, whole + ",";
    } else {
      assert whole + "" == whole;
    }
    PutTruncates(before, size, item);
    text', offset' := Put(text', offset', size, item), offset' + |item|;
  }

  /** The final message built item by item in its buffer. */
  method BuildSummary(r: HandlerResult) returns (text: string)
    requires SummaryInBounds(r)
    ensures text == Truncate(SummaryHead(r) + CLOSING, SummaryBuffer(|r.results|) - 1)
  {
    hide ItemText, ItemTexts, Truncate, Put, SummaryOpening;
    var size := SummaryBuffer(|r.results|);
    var opening := SummaryOpening(r.isError);
    text := Put("", 0, size, opening);
    var offset := |opening|;
    PutTruncates("", size, opening);
    NoItems(r.results);
    assert "" + opening == opening == opening + ItemTexts(r.results[..0]) && Truncate("", size - 1) == "";
    for i := 0 to |r.results|
      invariant offset == |opening + ItemTexts(r.results[..i])|
      invariant text == Truncate(opening + ItemTexts(r.results[..i]), size - 1)
    {
      ItemsFit(r.results, i + 1);
      ItemTextsStep(opening, r.results, i);
      text, offset := PutItem(text, offset, size, i > 0, ItemText(r.results[i]), opening + ItemTexts(r.results[..i]));
    }
    assert r.results[..|r.results|] == r.results;
    PutTruncates(SummaryHead(r), size, CLOSING);
    text := Put(text, offset, size, CLOSING);
  }

  method MakeSummary(r: HandlerResult, beyond: HandlerResult -> Option<string>) returns (text: Option<string>)
    ensures text == Summary(r, beyond)
  {
    hide SummaryInBounds, SummaryHead, Truncate;
    if SummaryBuffer(|r.results|) > ULONG_MAX {
      return None;
    }
    if !SummaryInBounds(r) {
      return beyond(r);
    }
    var message := BuildSummary(r);
    return Some(message);
  }

  method FindTool(tools: seq<Tool>, name: string) returns (i: nat)
    ensures i == ToolIndex(tools, name)
  {
    hide ToolIndex;
    i := 0;
    while i < |tools| && tools[i].name != name
      invariant i <= |tools| && forall j :: 0 <= j < i ==> tools[j].name != name
    {
      i := i + 1;
    }
  }

  /** The whole streaming call. */
  method HandleStreaming(tools: seq<Tool>, name: string, args: string, beyond: HandlerResult -> Option<string>)
    returns (events: seq<Event>, found: bool)
    requires forall t :: t in tools ==> |t.handler(args).results| <= ULONG_MAX
    ensures events == CallEvents(tools, name, args, beyond)
    ensures found == exists t :: t in tools && t.name == name
  {
    hide SseEvents, ResultEvents, ToolIndex, NotFoundText, Summary;
    events := [START];
    var i := FindTool(tools, name);
    if i == |tools| {
      return events + SseEvents(RESULT_EVENT, NotFoundText(name)) + [NOT_FOUND], false;
    }
    assert tools[i] in tools;
    var r := tools[i].handler(args);
    var chunks := StreamResults(r.results);
    events := events + chunks;
    var summary := MakeSummary(r, beyond);
    return events + SummaryEvents(summary) + [Final(r.isError)], true;
  }

  // ---------------------------------------------------------------- one terminal event, at the end

  predicate Terminal(e: Event) { e.kind == DONE || e.kind == ERROR }

  ghost predicate NoneTerminal(events: seq<Event>) {
    forall i :: 0 <= i < |events| ==> !Terminal(events[i])
  }

  lemma {:induction false} ChunksNotTerminal(index: nat, kind: ContentType, chunks: seq<string>, done: nat, total: nat)
    ensures NoneTerminal(ChunkEvents(index, kind, chunks, done, total))
    decreases |chunks|
  {
    if chunks != [] {
      hide SseLines, ChunkData;
      ChunksNotTerminal(index, kind, chunks[1..], done + |chunks[0]|, total);
    }
  }

  lemma {:induction false} ResultsNotTerminal(results: seq<Content>)
    ensures NoneTerminal(ResultEvents(results))
  {
    if results != [] {
      hide ChunkEvents, TextOf;
      var n := |results| - 1;
      ResultsNotTerminal(results[..n]);
      ChunksNotTerminal(n, results[n].kind, Chunks(TextOf(results[n])), 0, |TextOf(results[n])|);
    }
  }

  /** Tool `i` is the first of that name. */
  ghost predicate IsFirstTool(tools: seq<Tool>, i: nat, name: string) {
    i < |tools| && tools[i].name == name && forall j :: 0 <= j < i ==> tools[j].name != name
  }

  /**
   Every call ends with its only DONE or ERROR event, and that is DONE exactly when the tool exists
   and its handler reports no error.
   */
  lemma OneTerminalEvent(tools: seq<Tool>, name: string, args: string,
                         beyond: HandlerResult -> Option<string>)
    ensures var events := CallEvents(tools, name, args, beyond);
            && events != [] && events[0] == Event(PROGRESS, Some("{\"status\":\"started\"}"), 0.0)
            && Terminal(events[|events| - 1]) && NoneTerminal(events[..|events| - 1])
            && (events[|events| - 1].kind == DONE <==>
                  exists i: nat :: IsFirstTool(tools, i, name) && !tools[i].handler(args).isError)
  {
    hide ToolIndex, SseLines, ResultEvents, Summary, NotFoundText;
    var i := ToolIndex(tools, name);
    var events := CallEvents(tools, name, args, beyond);
    assert forall k: nat :: IsFirstTool(tools, k, name) <==> k == i < |tools|;
    if i < |tools| {
      var r := tools[i].handler(args);
      ResultsNotTerminal(r.results);
      assert events[..|events| - 1] == [START] + ResultEvents(r.results) + SummaryEvents(Summary(r, beyond));
    } else {
      assert events[..|events| - 1] == [START] + SseEvents(RESULT_EVENT, NotFoundText(name));
    }
  }
}

module HttpClient {
  import opened CText
  import opened Framing
  import opened FrameParsing
  import opened Pipes
  import opened StdioClient
  import opened Streaming

  const EVENT_STREAM: string := "text/event-stream"

  /** The body an HTTP response amounts to: for an event stream, its first data line. */
  function ResponseBody(s: string): string
    requires NextFrame(s).Complete?
  {
    var body := NextFrame(s).body;
    if Find(EVENT_STREAM, HeaderText(s)).None? then body
    else
      match SseData(body)
      case None => ""
      case Some(data) => data
  }

  /** Reads one response with a parser of its own, whatever the sizes of the reads. */
  method ReadResponse(inp: Pipe) returns (rc: Rc, body: string)
    modifies inp
    ensures rc == Ok ==> NextFrame(old(inp.data)).Complete? && body == ResponseBody(old(inp.data))
    ensures rc == FrameInvalid ==> NextFrame(old(inp.data)).Bad?
    ensures rc == ProcessExit ==> NextFrame(old(inp.data)).Incomplete?
    ensures rc == TimedOut || rc == IoError ==> inp.faults > old(inp.faults)
    ensures rc == BufferOverflow ==> !HeadersBounded(old(inp.data))
  {
    hide NextFrame, Find, SseData, HeaderText, HeadersBounded, Cached, Capacity, HeaderEnd;
    var p := new FrameParser();
    assert Unread(p, inp) == inp.data;
    rc, body := ReadMessage(p, inp, 60000);
    if rc == Ok && Find(EVENT_STREAM, p.headerText).Some? {
      var data := ExtractSseData(body);
      body := if data.Some? then data.value else "";
    }
  }
}
