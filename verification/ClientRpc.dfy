/**
 The MCP client's JSON-RPC exchange over stdio: numbered requests, replies matched by id, and the
 initialize handshake.

 JSON itself is foreign code and enters as functions (`Json`). The ghost logs of the client record
 every call and every inbound frame, so that the client's invariant speaks of whole runs.
 */
module CallHistory {
  import opened CText

  const TWO_64: nat := ULONG_MAX + 1

  /** A count kept in a uint64_t. */
  function Wrap(n: nat): (r: nat)
    ensures n < TWO_64 ==> r == n
  {
    n % TWO_64
  }

  lemma WrapStep(n: nat)
    ensures Wrap(Wrap(n) + 1) == Wrap(n + 1)
  {
  }

  /** The "id" member of a parsed frame. A number is what the cast to uint64_t makes of it. */
  datatype FrameId = Unparsable | Absent | NumberId(value: nat) | StringId(text: string) | OtherId

  datatype Match = Matches | Differs | ParseError

  /** Whether a frame is the response to request `expected`. */
  function ResponseIdMatches(id: FrameId, expected: nat): Match {
    match id
    case Unparsable => ParseError
    case Absent => Differs
    case NumberId(v) => if v == expected then Matches else Differs
    case StringId(text) => if StrToUL(text) == expected then Matches else Differs
    case OtherId => Differs
  }

  /** How a call ended: with its reply, at an unparsable frame, or without either. */
  datatype Ending = Replied | BadFrame | Unanswered

  /** One call, and which inbound frames it consumed: those numbered `from` up to `to`. */
  datatype Call = Call(id: nat, name: string, from: nat, to: nat, ending: Ending)

  /** A call passes over frames that are not its reply and stops at the first that decides it. */
  ghost predicate CallOk(c: Call, ids: seq<FrameId>) {
    && c.from <= c.to <= |ids|
    && (c.ending != Unanswered ==> c.from < c.to)
    && forall k :: c.from <= k < c.to ==>
         ResponseIdMatches(ids[k], c.id) ==
         if k < c.to - 1 || c.ending == Unanswered then Differs
         else if c.ending == Replied then Matches
         else ParseError
  }

  /** The calls of a run: numbered in order, and consuming the inbound frames without gap or overlap. */
  ghost predicate History(calls: seq<Call>, ids: seq<FrameId>, consumed: nat) {
    if calls == [] then consumed == 0
    else
      var init, last := calls[..|calls| - 1], calls[|calls| - 1];
      && History(init, ids, last.from)
      && CallOk(last, ids)
      && last.to == consumed
      && last.id == Wrap(|calls|)
  }

  /** Frames that arrive later do not disturb the history. */
  lemma {:induction false} HistoryKeeps(calls: seq<Call>, ids: seq<FrameId>, ids': seq<FrameId>, consumed: nat)
    requires History(calls, ids, consumed)
    requires consumed <= |ids'| && consumed <= |ids| && ids'[..consumed] == ids[..consumed]
    ensures History(calls, ids', consumed)
    decreases |calls|
  {
    if calls != [] {
      var last := calls[|calls| - 1];
      assert forall k :: 0 <= k < consumed ==> ids'[k] == ids'[..consumed][k] == ids[k];
      assert ids'[..last.from] == ids[..last.from];
      HistoryKeeps(calls[..|calls| - 1], ids, ids', last.from);
    }
  }

  lemma {:induction false} HistoryAt(calls: seq<Call>, ids: seq<FrameId>, consumed: nat, i: nat)
    requires History(calls, ids, consumed) && i < |calls|
    ensures CallOk(calls[i], ids) && calls[i].id == Wrap(i + 1)
    ensures calls[i].to <= consumed <= |ids|
    decreases |calls|
  {
    var init, last := calls[..|calls| - 1], calls[|calls| - 1];
    if i < |init| {
      HistoryAt(init, ids, last.from, i);
      assert init[i] == calls[i];
    }
  }

  /** Request ids are 1, 2, 3 and so on, so they strictly increase below 2^64 calls. */
  lemma IdsIncrease(calls: seq<Call>, ids: seq<FrameId>, consumed: nat, i: nat, j: nat)
    requires History(calls, ids, consumed) && i < j < |calls| < TWO_64
    ensures calls[i].id == i + 1 < calls[j].id == j + 1
  {
    hide Wrap, CallOk, History;
    HistoryAt(calls, ids, consumed, i);
    HistoryAt(calls, ids, consumed, j);
  }

  /** A call that was answered got the first frame after the earlier calls that carries its id. */
  lemma FirstReply(calls: seq<Call>, ids: seq<FrameId>, consumed: nat, i: nat)
    requires History(calls, ids, consumed) && i < |calls| && calls[i].ending == Replied
    ensures var c := calls[i];
            && c.from < c.to <= |ids| && ResponseIdMatches(ids[c.to - 1], c.id) == Matches
            && forall k :: c.from <= k < c.to - 1 ==> ResponseIdMatches(ids[k], c.id) == Differs
  {
    HistoryAt(calls, ids, consumed, i);
  }

  /** A frame whose id is the number `n`, written as a number or as a string. */
  predicate Answers(id: FrameId, n: nat) {
    id == NumberId(n) || (id.StringId? && StrToUL(id.text) == n)
  }

  lemma MatchMeans(id: FrameId, n: nat)
    ensures ResponseIdMatches(id, n) == Matches <==> Answers(id, n)
    ensures ResponseIdMatches(id, n) == ParseError <==> id == Unparsable
  {
  }

  /**
   What a recorded call did with its frames, read off their ids: it passed over frames that neither
   answer it nor are unparsable, and ended at the first that does or is.
   */
  lemma CallMeans(calls: seq<Call>, ids: seq<FrameId>, consumed: nat, i: nat)
    requires History(calls, ids, consumed) && i < |calls|
    ensures var c := calls[i];
            && c.from <= c.to <= |ids| && c.id == Wrap(i + 1)
            && (c.ending == Replied ==> c.from < c.to && Answers(ids[c.to - 1], c.id))
            && (c.ending == BadFrame ==> c.from < c.to && ids[c.to - 1] == Unparsable)
            && forall k :: c.from <= k < (if c.ending == Unanswered then c.to else c.to - 1) ==>
                 !Answers(ids[k], c.id) && ids[k] != Unparsable
  {
    hide ResponseIdMatches, Wrap, History, Answers;
    HistoryAt(calls, ids, consumed, i);
    var c := calls[i];
    forall k | c.from <= k < c.to
      ensures ResponseIdMatches(ids[k], c.id) == Matches <==> Answers(ids[k], c.id)
      ensures ResponseIdMatches(ids[k], c.id) == ParseError <==> ids[k] == Unparsable
    {
      MatchMeans(ids[k], c.id);
    }
  }

  /** An id printed as text answers its own request and no other. */
  lemma PrintedIdAnswers(n: nat, m: nat)
    requires n <= ULONG_MAX
    ensures Answers(StringId(Decimal(n)), m) <==> m == n
    ensures Answers(NumberId(n), m) <==> m == n
  {
    hide Numeral;
    NumeralOfDecimal(n, "");
    assert Decimal(n) + "" == Decimal(n);
  }

  /** Frames without an id, or with one that is neither a number nor a string, answer nothing. */
  lemma OthersAnswerNothing(m: nat)
    ensures !Answers(Absent, m) && !Answers(OtherId, m) && !Answers(Unparsable, m)
  {
  }

  /** Frame `k` is the first from `from` on that answers request `id`, and none before it is unparsable. */
  ghost predicate FirstAnswer(ids: seq<FrameId>, from: nat, k: nat, id: nat) {
    && from <= k < |ids| && Answers(ids[k], id)
    && forall j :: from <= j < k ==> !Answers(ids[j], id) && ids[j] != Unparsable
  }

  /** A call that neither replied nor met an unparsable frame has not come to its first answer. */
  lemma NotYet(c: Call, ids: seq<FrameId>, k: nat)
    requires CallOk(c, ids) && FirstAnswer(ids, c.from, k, c.id)
    ensures c.ending == Replied ==> c.to == k + 1
    ensures c.ending == Unanswered ==> c.to <= k
    ensures c.ending != BadFrame
  {
    hide ResponseIdMatches, Answers;
    forall j | 0 <= j < |ids|
      ensures ResponseIdMatches(ids[j], c.id) == Matches <==> Answers(ids[j], c.id)
      ensures ResponseIdMatches(ids[j], c.id) == ParseError <==> ids[j] == Unparsable
    {
      MatchMeans(ids[j], c.id);
    }
    assert k < c.to ==> ResponseIdMatches(ids[k], c.id) == Matches;
    assert c.from < c.to <= k ==> ResponseIdMatches(ids[c.to - 1], c.id) == Differs;
    assert c.ending != Unanswered ==> ResponseIdMatches(ids[c.to - 1], c.id) != Differs;
  }

  /** The late reply to an abandoned call is never handed to a later call. */
  lemma LateReplyNeverDelivered(calls: seq<Call>, ids: seq<FrameId>, consumed: nat, i: nat, j: nat)
    requires History(calls, ids, consumed) && i < j < |calls| < TWO_64
    requires calls[j].ending == Replied
    ensures calls[j].from < calls[j].to <= |ids|
    ensures ResponseIdMatches(ids[calls[j].to - 1], calls[i].id) == Differs
  {
    IdsIncrease(calls, ids, consumed, i, j);
    FirstReply(calls, ids, consumed, j);
  }

  /** Every consumed frame was consumed by one call. */
  lemma {:induction false} ConsumedBySomeCall(calls: seq<Call>, ids: seq<FrameId>, consumed: nat, k: nat)
    returns (i: nat)
    requires History(calls, ids, consumed) && k < consumed
    ensures i < |calls| && calls[i].from <= k < calls[i].to
    decreases |calls|
  {
    var last := calls[|calls| - 1];
    if k < last.from {
      i := ConsumedBySomeCall(calls[..|calls| - 1], ids, last.from, k);
    } else {
      i := |calls| - 1;
    }
  }

  /** And by no other. */
  lemma {:induction false} ConsumedOnce(calls: seq<Call>, ids: seq<FrameId>, consumed: nat, i: nat, j: nat)
    requires History(calls, ids, consumed) && i < j < |calls|
    ensures calls[i].to <= calls[j].from
    decreases |calls|
  {
    var init, last := calls[..|calls| - 1], calls[|calls| - 1];
    if j < |init| {
      ConsumedOnce(init, ids, last.from, i, j);
    } else {
      HistoryAt(init, ids, last.from, i);
    }
  }

  // ---------------------------------------------------------------- the handshake

  const INITIALIZE: string := "initialize"
  const TOOLS_LIST: string := "tools/list"
  const TOOLS_CALL: string := "tools/call"

  datatype Step = Requested(name: string) | Accepted

  predicate IsToolRequest(s: Step) {
    s == Requested(TOOLS_LIST) || s == Requested(TOOLS_CALL)
  }

  datatype Phase = Unopened | Open | Violated

  /** The lifecycle as an automaton: tool requests only when open, initialize only when not. */
  function PhaseAfter(trace: seq<Step>): Phase {
    if trace == [] then Unopened
    else
      var before, s := PhaseAfter(trace[..|trace| - 1]), trace[|trace| - 1];
      if before == Violated then Violated
      else if s == Accepted then Open
      else if before == Unopened then (if IsToolRequest(s) then Violated else Unopened)
      else if s == Requested(INITIALIZE) then Violated
      else Open
  }

  /** A request that breaks no rule leaves the phase as it was. */
  lemma RequestKeepsPhase(trace: seq<Step>, name: string)
    requires PhaseAfter(trace + [Requested(name)]) != Violated
    ensures PhaseAfter(trace + [Requested(name)]) == PhaseAfter(trace)
  {
    var after := trace + [Requested(name)];
    assert after[..|after| - 1] == trace;
  }

  /** Every tool request has an accepted initialize response before it. */
  ghost predicate ToolsAfterAccept(trace: seq<Step>) {
    forall i :: 0 <= i < |trace| && IsToolRequest(trace[i]) ==> Accepted in trace[..i]
  }

  /** After an accepted response, initialize is not sent again. */
  ghost predicate InitializeOnce(trace: seq<Step>) {
    forall i :: 0 <= i < |trace| && trace[i] == Requested(INITIALIZE) ==> Accepted !in trace[..i]
  }

  /** The automaton never leaves its good states exactly when both ordering rules hold. */
  lemma {:induction false} PhaseMeaning(trace: seq<Step>)
    ensures PhaseAfter(trace) != Violated <==> ToolsAfterAccept(trace) && InitializeOnce(trace)
    ensures PhaseAfter(trace) == Open ==> Accepted in trace
    ensures PhaseAfter(trace) == Unopened ==> Accepted !in trace
  {
    if trace != [] {
      var n := |trace| - 1;
      var before, s := trace[..n], trace[n];
      PhaseMeaning(before);
      assert trace == before + [s];
      assert forall i :: 0 <= i <= n ==> before[..i] == trace[..i];
      assert forall i :: 0 <= i < n ==> before[i] == trace[i];
      assert ToolsAfterAccept(trace) <==>
               ToolsAfterAccept(before) && (IsToolRequest(s) ==> Accepted in trace[..n]);
      assert InitializeOnce(trace) <==>
               InitializeOnce(before) && (s == Requested(INITIALIZE) ==> Accepted !in trace[..n]);
    }
  }
}

module ClientRpc {
  import opened CText
  import opened Framing
  import opened FrameParsing
  import opened Pipes
  import StdioClient
  import opened CallHistory

  datatype InitVerdict = Welcome | RpcError | Unreadable

  /** The JSON library: reading a frame's id, printing a request, judging an initialize response. */
  datatype Json = Json(idOf: string -> FrameId,
                       render: (nat, string, string) -> string,
                       judge: string -> InitVerdict)

  function IdsOf(json: Json, frames: seq<string>): (ids: seq<FrameId>)
    ensures |ids| == |frames|
    ensures forall i :: 0 <= i < |frames| ==> ids[i] == json.idOf(frames[i])
  {
    seq(|frames|, i requires 0 <= i < |frames| => json.idOf(frames[i]))
  }

  /** The calls recorded so far, against the frames that came in. */
  ghost predicate Logged(json: Json, inbound: seq<string>, calls: seq<Call>, consumed: nat) {
    History(calls, IdsOf(json, inbound), consumed)
  }

  ghost predicate CallFits(json: Json, inbound: seq<string>, c: Call) {
    CallOk(c, IdsOf(json, inbound))
  }

  datatype Result = Success | Failed(rc: StdioClient.Rc) | BadJson | Rejected

  lemma BodiesStep(s: string)
    requires NextFrame(s).Complete?
    ensures ParseStream(s).bodies == [NextFrame(s).body] + ParseStream(s[NextFrame(s).size..]).bodies
  {
    hide NextFrame;
  }

  const INITIALIZED: string := "notifications/initialized"

  /** The parameters of the initialize request. */
  function InitParams(): string {
    "{\"protocolVersion\":\"2024-11-05\",\"capabilities\":{},"
    + "\"clientInfo\":{\"name\":\"agentrt-gateway\",\"version\":\"0.1.1\"}}"
  }

  predicate EndsWith(s: string, tail: string) {
    |tail| <= |s| && s[|s| - |tail|..] == tail
  }

  // ---------------------------------------------------------------- the inbound side

  /** Two inbound sequences agree on the frames consumed so far. */
  ghost predicate SamePrefix(a: seq<string>, b: seq<string>, n: nat) {
    n <= |a| && n <= |b| && a[..n] == b[..n]
  }

  lemma SameIds(json: Json, a: seq<string>, b: seq<string>, n: nat)
    requires SamePrefix(a, b, n)
    ensures IdsOf(json, a)[..n] == IdsOf(json, b)[..n]
  {
    assert forall i :: 0 <= i < n ==> a[i] == a[..n][i] == b[i];
  }

  lemma EmptyCall(json: Json, frames: seq<string>, id: nat, at: nat)
    requires at <= |frames|
    ensures CallFits(json, frames, Call(id, "", at, at, Unanswered))
  {
  }

  /** Passing over one more frame, or stopping at it. */
  lemma LongerCall(json: Json, frames: seq<string>, id: nat, from: nat, to: nat)
    requires to < |frames| && CallFits(json, frames, Call(id, "", from, to, Unanswered))
    ensures var ending := match ResponseIdMatches(json.idOf(frames[to]), id)
                          case Matches => Replied
                          case ParseError => BadFrame
                          case Differs => Unanswered;
            CallFits(json, frames, Call(id, "", from, to + 1, ending))
  {
    hide ResponseIdMatches;
  }

  /** A call fits whatever is said of frames after it. */
  lemma FitsPrefix(json: Json, a: seq<string>, b: seq<string>, c: Call)
    requires CallFits(json, a, c) && SamePrefix(a, b, c.to)
    ensures CallFits(json, b, c)
  {
    hide ResponseIdMatches;
    assert forall k :: 0 <= k < c.to ==> a[k] == a[..c.to][k] == b[k];
  }

  lemma AnswerInRange(ids: seq<FrameId>, from: nat, k: nat, id: nat)
    requires FirstAnswer(ids, from, k, id)
    ensures k < |ids|
  {
  }

  /** Where a call stands with respect to the first frame that answers it. */
  lemma NoAnswerPassed(json: Json, frames: seq<string>, id: nat, from: nat, to: nat, ending: Ending)
    requires CallFits(json, frames, Call(id, "", from, to, ending))
    ensures forall k: nat :: FirstAnswer(IdsOf(json, frames), from, k, id) ==>
              && k < |frames| && ending != BadFrame
              && (ending == Replied ==> to == k + 1) && (ending == Unanswered ==> to <= k)
  {
    hide FirstAnswer, CallOk, IdsOf;
    forall k: nat | FirstAnswer(IdsOf(json, frames), from, k, id)
      ensures && k < |frames| && ending != BadFrame
              && (ending == Replied ==> to == k + 1) && (ending == Unanswered ==> to <= k)
    {
      NotYet(Call(id, "", from, to, ending), IdsOf(json, frames), k);
      AnswerInRange(IdsOf(json, frames), from, k, id);
    }
  }

  lemma RecordCall(json: Json, frames: seq<string>, inbound: seq<string>, before: seq<Call>, name: string, c: Call)
    requires SamePrefix(frames, inbound, c.from) && Logged(json, frames, before, c.from)
    requires c.id == Wrap(|before| + 1) && CallFits(json, inbound, c)
    ensures Logged(json, inbound, before + [c.(name := name)], c.to)
  {
    hide Wrap;
    SameIds(json, frames, inbound, c.from);
    HistoryKeeps(before, IdsOf(json, frames), IdsOf(json, inbound), c.from);
    var after := before + [c.(name := name)];
    assert after[..|after| - 1] == before;
  }

  /** Which requests the two good phases allow. */
  lemma RequestPhases(trace: seq<Step>, name: string)
    ensures PhaseAfter(trace) == Unopened && !IsToolRequest(Requested(name)) ==>
              PhaseAfter(trace + [Requested(name)]) != Violated
    ensures PhaseAfter(trace) == Open && name != INITIALIZE ==>
              PhaseAfter(trace + [Requested(name)]) != Violated
  {
    var after := trace + [Requested(name)];
    assert after[..|after| - 1] == trace;
  }

  lemma AcceptOpens(trace: seq<Step>)
    requires PhaseAfter(trace) != Violated
    ensures PhaseAfter(trace + [Accepted]) == Open
  {
    var after := trace + [Accepted];
    assert after[..|after| - 1] == trace;
  }

  // ---------------------------------------------------------------- the outbound side

  /** A request, and how many bytes of its frame were written. */
  datatype Request = Request(id: nat, name: string, params: string, written: nat)

  function RequestText(json: Json, q: Request): string { CString(json.render(q.id, q.name, q.params)) }

  function FrameOf(json: Json, q: Request): string { Encode(RequestText(json, q)) }

  /** A frame written to its end. */
  lemma WholeFrame(json: Json, q: Request)
    ensures FrameOf(json, q) == Encode(CString(json.render(q.id, q.name, q.params)))
    ensures q.written >= |FrameOf(json, q)| ==> Truncate(FrameOf(json, q), q.written) == FrameOf(json, q)
  {
    hide Encode, CString;
  }

  /** The bytes written for some requests: each frame whole, or as much of it as was written. */
  function Wire(json: Json, qs: seq<Request>): string {
    if qs == [] then ""
    else Wire(json, qs[..|qs| - 1]) + Truncate(FrameOf(json, qs[|qs| - 1]), qs[|qs| - 1].written)
  }

  /** How many frames were cut short. */
  function CutFrames(json: Json, qs: seq<Request>): nat {
    if qs == [] then 0
    else CutFrames(json, qs[..|qs| - 1]) + if qs[|qs| - 1].written < |FrameOf(json, qs[|qs| - 1])| then 1 else 0
  }

  function RequestTexts(json: Json, qs: seq<Request>): (texts: seq<string>)
    ensures |texts| == |qs| && forall i :: 0 <= i < |qs| ==> texts[i] == RequestText(json, qs[i])
  {
    seq(|qs|, i requires 0 <= i < |qs| => RequestText(json, qs[i]))
  }

  /** The requests written are the calls made. */
  ghost predicate SameRequests(calls: seq<Call>, qs: seq<Request>) {
    |qs| == |calls| && forall i :: 0 <= i < |qs| ==> qs[i].id == calls[i].id && qs[i].name == calls[i].name
  }

  /** The names requested in a trace. */
  function Asked(trace: seq<Step>): seq<string> {
    if trace == [] then []
    else
      var before := Asked(trace[..|trace| - 1]);
      match trace[|trace| - 1]
      case Requested(name) => before + [name]
      case Accepted => before
  }

  function NamesOf(qs: seq<Request>): (names: seq<string>)
    ensures |names| == |qs| && forall i :: 0 <= i < |qs| ==> names[i] == qs[i].name
  {
    seq(|qs|, i requires 0 <= i < |qs| => qs[i].name)
  }

  lemma WireSnoc(json: Json, qs: seq<Request>, q: Request)
    ensures Wire(json, qs + [q]) == Wire(json, qs) + Truncate(FrameOf(json, q), q.written)
    ensures CutFrames(json, qs + [q]) == CutFrames(json, qs) + if q.written < |FrameOf(json, q)| then 1 else 0
    ensures NamesOf(qs + [q]) == NamesOf(qs) + [q.name]
  {
    assert (qs + [q])[..|qs|] == qs;
  }

  lemma AskedSnoc(trace: seq<Step>, s: Step)
    ensures Asked(trace + [s]) == Asked(trace) + if s.Requested? then [s.name] else []
  {
    assert (trace + [s])[..|trace|] == trace;
  }

  /** Without a cut frame the bytes written are the frames of all requests. */
  lemma {:induction false} WholeWire(json: Json, qs: seq<Request>)
    requires CutFrames(json, qs) == 0
    ensures Wire(json, qs) == EncodeAll(RequestTexts(json, qs))
  {
    hide Encode, RequestText;
    if qs != [] {
      var n := |qs| - 1;
      WholeWire(json, qs[..n]);
      var texts := RequestTexts(json, qs);
      assert texts[..n] == RequestTexts(json, qs[..n]);
      EncodeAllLast(texts);
    }
  }

  /** What a client has done: its calls, the requests written for them, and its lifecycle. */
  datatype Log = Log(calls: seq<Call>, requests: seq<Request>, trace: seq<Step>)

  /**
   The output gained the frames of the requests made, in order, each whole or cut short by a fault
   of its own; and those requests are the calls recorded and the requests of the trace.
   */
  ghost predicate Written(json: Json, log: Log, start: string, output: string, earlier: nat, faults: nat) {
    && SameRequests(log.calls, log.requests) && NamesOf(log.requests) == Asked(log.trace)
    && output == start + Wire(json, log.requests)
    && earlier + CutFrames(json, log.requests) <= faults
  }

  lemma RecordRequest(json: Json, log: Log, start: string, output: string, earlier: nat, faults: nat,
                      c: Call, q: Request, faults': nat)
    requires Written(json, log, start, output, earlier, faults) && q.id == c.id && q.name == c.name
    requires faults <= faults' && (q.written < |FrameOf(json, q)| ==> faults < faults')
    ensures Written(json, Log(log.calls + [c], log.requests + [q], log.trace + [Requested(c.name)]),
                    start, output + Truncate(FrameOf(json, q), q.written), earlier, faults')
  {
    hide Wire, CutFrames, Asked, NamesOf, FrameOf;
    AskedSnoc(log.trace, Requested(c.name));
    WireSnoc(json, log.requests, q);
  }

  lemma RecordAccepted(json: Json, log: Log, start: string, output: string, earlier: nat, faults: nat)
    requires Written(json, log, start, output, earlier, faults)
    ensures Written(json, log.(trace := log.trace + [Accepted]), start, output, earlier, faults)
  {
    hide Wire, CutFrames, Asked, NamesOf, FrameOf;
    AskedSnoc(log.trace, Accepted);
  }

  /** A server that parses what a client wrote without faults gets its requests in order. */
  lemma ServerSeesRequests(json: Json, qs: seq<Request>)
    requires CutFrames(json, qs) == 0
    requires forall i :: 0 <= i < |qs| ==> 1 <= |RequestText(json, qs[i])| <= MAX_MESSAGE_SIZE
    ensures ParseStream(Wire(json, qs)) == Outcome(RequestTexts(json, qs), "", false)
  {
    hide Encode, EncodeAll, ParseStream, Wire, CutFrames;
    WholeWire(json, qs);
    ParseOfEncodeAll(RequestTexts(json, qs));
  }

  lemma NoBodies(s: string)
    requires !NextFrame(s).Complete?
    ensures ParseStream(s).bodies == []
  {
    hide NextFrame;
  }

  /** A failure to read that can happen although a frame is waiting. */
  predicate Interrupted(r: Result) {
    r == Failed(StdioClient.TimedOut) || r == Failed(StdioClient.IoError) || r == Failed(StdioClient.BufferOverflow)
  }

  class Client {
    const json: Json
    const parser: FrameParser
    const input: Pipe
    const output: Pipe
    var requestId: nat
    var initialized: bool

    ghost var inbound: seq<string>
    ghost var consumed: nat
    ghost var calls: seq<Call>
    ghost var trace: seq<Step>
    ghost var requests: seq<Request>
    ghost const prologue: string
    ghost const earlierFaults: nat

    ghost function Unread(): string
      requires parser.len <= parser.buf.Length
      reads this, parser, parser.buf, input
    {
      StdioClient.Unread(parser, input)
    }

    /** The frames not yet consumed are those the unread bytes hold. */
    ghost predicate InStep()
      reads this, parser, parser.buf, input
    {
      && parser.Valid() && input != output
      && consumed <= |inbound| && ParseStream(Unread()).bodies == inbound[consumed..]
    }

    ghost predicate Recorded()
      reads this, output
    {
      Written(json, Log(calls, requests, trace), prologue, output.data, earlierFaults, output.faults)
    }

    /** What holds between any two calls of the client's interface. */
    ghost predicate Valid()
      reads this, parser, parser.buf, input, output
    {
      && InStep() && Recorded()
      && Logged(json, inbound, calls, consumed)
      && requestId == Wrap(|calls|)
      && PhaseAfter(trace) == (if initialized then Open else Unopened)
    }

    constructor (json: Json, inp: Pipe, out: Pipe)
      requires inp != out
      ensures Valid() && fresh(parser) && fresh(parser.buf)
      ensures input == inp && output == out && this.json == json
      ensures calls == [] && trace == [] && inbound == ParseStream(inp.data).bodies
      ensures prologue == out.data && earlierFaults == out.faults
    {
      this.json, input, output := json, inp, out;
      parser := new FrameParser();
      requestId, initialized := 0, false;
      inbound, consumed, calls, trace := ParseStream(inp.data).bodies, 0, [], [];
      requests, prologue, earlierFaults := [], out.data, out.faults;
      new;
      assert Unread() == inp.data;
    }

    /** Reads the next inbound frame; an overflow makes the parser see other frames from there on. */
    method NextInbound(remain: int) returns (rc: StdioClient.Rc, frame: string)
      requires InStep()
      modifies parser, parser.buf, input, this`consumed, this`inbound
      ensures InStep() && (parser.buf == old(parser.buf) || fresh(parser.buf))
      ensures rc == StdioClient.Ok ==>
                && consumed == old(consumed) + 1 && inbound == old(inbound)
                && frame == inbound[old(consumed)] && |Unread()| < |old(Unread())|
      ensures rc != StdioClient.Ok ==> consumed == old(consumed) && SamePrefix(old(inbound), inbound, consumed)
      ensures rc != StdioClient.Ok && rc != StdioClient.BufferOverflow ==> inbound == old(inbound)
      ensures rc == StdioClient.ProcessExit || rc == StdioClient.FrameInvalid ==> consumed == |inbound|
    {
      hide NextFrame, ParseStream, Cached, Capacity, HeadersBounded;
      ghost var unread := Unread();
      rc, frame := StdioClient.ReadMessage(parser, input, remain);
      if rc == StdioClient.Ok {
        BodiesStep(unread);
        assert inbound[consumed] == inbound[consumed..][0];
        assert inbound[consumed + 1..] == inbound[consumed..][1..];
        consumed := consumed + 1;
      } else if rc == StdioClient.BufferOverflow {
        inbound := inbound[..consumed] + ParseStream(Unread()).bodies;
      } else if rc == StdioClient.ProcessExit || rc == StdioClient.FrameInvalid {
        NoBodies(unread);
      }
    }

    /**
     Waits for the reply to request `id`. Frames of other requests are dropped; the frame returned
     is the first unread one that carries the id.
     */
    method AwaitReply(id: nat) returns (r: Result, response: string, ghost ending: Ending)
      requires InStep()
      modifies parser, parser.buf, input, this`consumed, this`inbound
      ensures InStep() && (parser.buf == old(parser.buf) || fresh(parser.buf))
      ensures SamePrefix(old(inbound), inbound, old(consumed))
      ensures CallFits(json, inbound, Call(id, "", old(consumed), consumed, ending))
      ensures r == Success <==> ending == Replied
      ensures r == BadJson <==> ending == BadFrame
      ensures r == Success ==> consumed > 0 && response == inbound[consumed - 1]
      ensures forall k: nat :: FirstAnswer(IdsOf(json, old(inbound)), old(consumed), k, id) ==>
                Interrupted(r) || (r == Success && response == old(inbound)[k] && consumed == k + 1)
    {
      hide NextFrame, ParseStream, ResponseIdMatches, Cached, Capacity, CallFits, FirstAnswer, IdsOf;
      ghost var start := consumed;
      EmptyCall(json, inbound, id, start);
      while true
        invariant InStep() && (parser.buf == old(parser.buf) || fresh(parser.buf))
        invariant start <= consumed && inbound == old(inbound)
        invariant CallFits(json, inbound, Call(id, "", start, consumed, Unanswered))
        decreases |Unread()|
      {
        var remain: int := *;
        if remain <= 0 {
          return Failed(StdioClient.TimedOut), "", Unanswered;
        }
        ghost var frames, at := inbound, consumed;
        var rc, frame := NextInbound(remain);
        if rc != StdioClient.Ok {
          FitsPrefix(json, frames, inbound, Call(id, "", start, consumed, Unanswered));
          NoAnswerPassed(json, frames, id, start, at, Unanswered);
          return Failed(rc), "", Unanswered;
        }
        LongerCall(json, inbound, id, start, at);
        match ResponseIdMatches(json.idOf(frame), id) {
          case Matches =>
            NoAnswerPassed(json, inbound, id, start, consumed, Replied);
            return Success, frame, Replied;
          case ParseError =>
            NoAnswerPassed(json, inbound, id, start, consumed, BadFrame);
            return BadJson, "", BadFrame;
          case Differs =>
        }
      }
    }

    /** Writes one request and, if asked to, waits for its reply. */
    method Converse(id: nat, name: string, params: string, expectResponse: bool)
      returns (r: Result, response: string, ghost ending: Ending, ghost q: Request)
      requires InStep()
      modifies parser, parser.buf, input, output, this`consumed, this`inbound
      ensures InStep() && (parser.buf == old(parser.buf) || fresh(parser.buf))
      ensures SamePrefix(old(inbound), inbound, old(consumed))
      ensures CallFits(json, inbound, Call(id, "", old(consumed), consumed, ending))
      ensures r == Success && expectResponse ==>
                ending == Replied && consumed > 0 && response == inbound[consumed - 1]
      ensures !expectResponse ==> consumed == old(consumed) && inbound == old(inbound)
      ensures q == Request(id, name, params, q.written)
      ensures output.data == old(output.data) + Truncate(FrameOf(json, q), q.written)
      ensures q.written < |FrameOf(json, q)| ==>
                r.Failed? && output.faults > old(output.faults) && consumed == old(consumed)
      ensures output.faults >= old(output.faults)
    {
      hide ParseStream, CallFits, Encode, Cached, Capacity, CString;
      EmptyCall(json, inbound, id, consumed);
      var request := CString(json.render(id, name, params));
      var rc, written := StdioClient.SendMessage(output, request);
      q := Request(id, name, params, written);
      if rc != StdioClient.Ok {
        return Failed(rc), "", Unanswered, q;
      }
      assert Encode(request)[..written] == Encode(request);
      if !expectResponse {
        return Success, "", Unanswered, q;
      }
      r, response, ending := AwaitReply(id);
    }

    /** Enters a finished call in the logs; `frames`, `sent` and `faults` are as they were before it. */
    ghost method Record(c: Call, q: Request, frames: seq<string>, sent: string, faults: nat)
      requires InStep() && c.to == consumed && c.id == q.id == requestId == Wrap(|calls| + 1) && c.name == q.name
      requires SamePrefix(frames, inbound, c.from) && Logged(json, frames, calls, c.from)
      requires CallFits(json, inbound, c.(name := ""))
      requires Written(json, Log(calls, requests, trace), prologue, sent, earlierFaults, faults)
      requires output.data == sent + Truncate(FrameOf(json, q), q.written) && faults <= output.faults
      requires q.written < |FrameOf(json, q)| ==> faults < output.faults
      requires PhaseAfter(trace + [Requested(c.name)]) == (if initialized then Open else Unopened)
      modifies this`calls, this`requests, this`trace
      ensures Valid()
      ensures calls == old(calls) + [c] && requests == old(requests) + [q] && trace == old(trace) + [Requested(c.name)]
    {
      hide ParseStream, CallFits, FrameOf, Truncate, Logged, PhaseAfter, Wrap, Cached, Capacity, Written;
      RecordCall(json, frames, inbound, calls, c.name, c.(name := ""));
      RecordRequest(json, Log(calls, requests, trace), prologue, sent, earlierFaults, faults, c, q, output.faults);
      calls, requests, trace := calls + [c], requests + [q], trace + [Requested(c.name)];
    }

    /** Sends one numbered request and, if asked to, waits for its reply. */
    method Exchange(name: string, params: string, expectResponse: bool)
      returns (r: Result, response: string, ghost c: Call, ghost q: Request)
      requires Valid() && PhaseAfter(trace + [Requested(name)]) != Violated
      modifies this, parser, parser.buf, input, output
      ensures Valid() && (parser.buf == old(parser.buf) || fresh(parser.buf))
      ensures initialized == old(initialized)
      ensures calls == old(calls) + [c] && requests == old(requests) + [q] && trace == old(trace) + [Requested(name)]
      ensures c.id == requestId && c.name == name && q == Request(requestId, name, params, q.written)
      ensures r == Success && expectResponse ==>
                c.ending == Replied && consumed > 0 && response == inbound[consumed - 1]
      ensures !expectResponse ==> consumed == old(consumed) && inbound == old(inbound)
      ensures output.data == old(output.data) + Truncate(FrameOf(json, q), q.written)
      ensures q.written < |FrameOf(json, q)| ==> r.Failed? && consumed == old(consumed)
    {
      hide ParseStream, CallFits, FrameOf, Truncate, Logged, PhaseAfter, Wrap, Cached, Capacity, Written, SamePrefix,
           StdioClient.Unread;
      WrapStep(|calls|);
      RequestKeepsPhase(trace, name);
      requestId := Wrap(requestId + 1);
      ghost var start, frames := consumed, inbound;
      ghost var ending;
      r, response, ending, q := Converse(requestId, name, params, expectResponse);
      c := Call(requestId, name, start, consumed, ending);
      assert c.(name := "") == Call(requestId, "", start, consumed, ending);
      Record(c, q, frames, old(output.data), old(output.faults));
    }

    /** Marks the session open and tells the server so; whether that message gets out does not matter. */
    method Accept()
      requires Valid() && !initialized
      modifies this, parser, parser.buf, input, output
      ensures Valid() && (parser.buf == old(parser.buf) || fresh(parser.buf))
      ensures initialized && old(calls) <= calls && trace == old(trace) + [Accepted, Requested(INITIALIZED)]
      ensures consumed == old(consumed) && inbound == old(inbound)
    {
      hide ParseStream, Logged, PhaseAfter, Cached, Capacity, Written, FrameOf, Truncate, Wrap;
      AcceptOpens(trace);
      RecordAccepted(json, Log(calls, requests, trace), prologue, output.data, earlierFaults, output.faults);
      initialized := true;
      trace := trace + [Accepted];
      RequestPhases(trace, INITIALIZED);
      var _, _, _, _ := Exchange(INITIALIZED, "{}", false);
    }

    /** Opens the session on first use. A second call does nothing. */
    method EnsureInitialized() returns (r: Result)
      requires Valid()
      modifies this, parser, parser.buf, input, output
      ensures Valid() && (parser.buf == old(parser.buf) || fresh(parser.buf))
      ensures r == Success <==> initialized
      ensures old(calls) <= calls && old(trace) <= trace
      ensures old(initialized) ==> r == Success && output.data == old(output.data)
      ensures trace == old(trace) + (if old(initialized) then []
                                     else if r == Success
                                     then [Requested(INITIALIZE), Accepted, Requested(INITIALIZED)]
                                     else [Requested(INITIALIZE)])
      ensures !old(initialized) && r == Success ==> consumed > 0 && json.judge(inbound[consumed - 1]) == Welcome
    {
      hide ParseStream, Logged, PhaseAfter, Cached, Capacity, InitParams, Encode, CString, Written, FrameOf, Truncate,
           Wrap;
      if initialized {
        return Success;
      }
      var resp: string;
      RequestPhases(trace, INITIALIZE);
      ghost var c, q;
      r, resp, c, q := Exchange(INITIALIZE, InitParams(), true);
      if r != Success {
        return;
      }
      match json.judge(resp) {
        case RpcError => return Rejected;
        case Unreadable => return BadJson;
        case Welcome =>
      }
      Accept();
      return Success;
    }

    /** Asks for the tool list, opening the session first. */
    method ListTools() returns (r: Result, response: string)
      requires Valid()
      modifies this, parser, parser.buf, input, output
      ensures Valid() && (parser.buf == old(parser.buf) || fresh(parser.buf))
      ensures old(calls) <= calls && old(trace) <= trace
      ensures r == Success ==> initialized && consumed > 0 && response == inbound[consumed - 1]
      ensures r == Success ==> trace != [] && trace[|trace| - 1] == Requested(TOOLS_LIST)
      ensures r == Success ==> EndsWith(output.data, Encode(CString(json.render(requestId, TOOLS_LIST, "{}"))))
    {
      hide ParseStream, Logged, PhaseAfter, Cached, Capacity, InitParams, Encode, CString, Written, FrameOf, Truncate,
           Wrap;
      r := EnsureInitialized();
      if r != Success {
        return r, "";
      }
      RequestPhases(trace, TOOLS_LIST);
      ghost var c, q;
      r, response, c, q := Exchange(TOOLS_LIST, "{}", true);
      WholeFrame(json, q);
    }

    /** Calls a tool, opening the session first. */
    method CallTool(params: string) returns (r: Result, response: string)
      requires Valid()
      modifies this, parser, parser.buf, input, output
      ensures Valid() && (parser.buf == old(parser.buf) || fresh(parser.buf))
      ensures old(calls) <= calls && old(trace) <= trace
      ensures r == Success ==> initialized && consumed > 0 && response == inbound[consumed - 1]
      ensures r == Success ==> trace != [] && trace[|trace| - 1] == Requested(TOOLS_CALL)
      ensures r == Success ==> EndsWith(output.data, Encode(CString(json.render(requestId, TOOLS_CALL, params))))
    {
      hide ParseStream, Logged, PhaseAfter, Cached, Capacity, InitParams, Encode, CString, Written, FrameOf, Truncate,
           Wrap;
      r := EnsureInitialized();
      if r != Success {
        return r, "";
      }
      RequestPhases(trace, TOOLS_CALL);
      ghost var c, q;
      r, response, c, q := Exchange(TOOLS_CALL, params, true);
      WholeFrame(json, q);
    }
  }
}
