# Verified model of the agent protocol mechanisms

A Dafny model of the stateful parts of the protocol library: Content-Length framing and its two
readers, the MCP client's numbered calls and handshake, SHA-256, HMAC and request signatures, the
login guard, token, session and agent tables, the protocol registry, and the text codecs.

Code that changes state in place is a class or a method with loops, proved against a specification
function; what the design promises is then proved about that function for every input or every run.
Runs are sequences of operations. Where a class keeps a ghost history, its `Valid` says that the
object is what the run function gives for that history, so the theorems about runs hold of the
object in every reachable state.

Conventions. Text is a `string` in which one `char` is one byte; the cryptographic modules use
`bv8` and `bv32`. A file descriptor is a `Pipes.Pipe`: a reader's pipe holds every byte the peer
will ever send, one call moves any positive number of bytes, and any call may time out or fail
instead (a fault). The clock is a parameter. JSON parsing and printing, token texts and session ids
enter as functions. `hide` statements only keep proof obligations small.

| file | contents |
|---|---|
| `CText.dfy`, `Division.dfy` | C strings, decimal numbers, strtol and strtoul, strstr; remainders |
| `Framing.dfy`, `FrameHeaders.dfy`, `FrameParser.dfy` | what a stream of frames means, for any header text; the buffered parser |
| `Stdio.dfy`, `Transport.dfy`, `RoundTrip.dfy` | pipes, the two readers and the writers; loopback |
| `ClientRpc.dfy` | request ids, reply matching, the initialize handshake |
| `Sha256.dfy`, `Sha256Logic.dfy`, `Sha256Constants.dfy`, `Sha256KnownAnswer.dfy` | FIPS 180-4, its functions bit by bit, its constants, a known digest |
| `Sha256Context.dfy`, `Signatures.dfy` | the incremental hash, HMAC, signing |
| `Lockout.dfy`, `AuthState.dfy`, `Sessions.dfy`, `Agents.dfy` | the A2A state machines and tables |
| `Registry.dfy`, `RegistryRuns.dfy`, `RegistryHistory.dfy`, `RegistryTable.dfy` | registry operations, theorems over runs, states and events from the history alone, the array |
| `Unified.dfy`, `Streaming.dfy`, `ToolStream.dfy` | unified message text, escaping and server-sent events, the streaming call and the HTTP reader |

Where code and text disagree the model follows the code:
- The consumed bytes of the parser's buffer are copied over an overlapping range; the header file
  says they are moved, and the model moves them.
- The transport's reader compares 15 bytes of the header, so the blank after the colon is optional.
- The method `JWT bearer` accepts every credential, like no authentication.
- A wiped session still counts as active; it is only the first to be evicted.
- Printing a unified message fails although every field is in range when the text is longer than an
  `int` can count (`Unified.PrintingCanFail`).
- An agent registered without a capability text gets the one that an earlier card left in its slot.
- A token's digest is encoded into a field one byte too short: the text has 62 digits, and the
  terminator goes to the byte after the field (`Signatures.TokenText`).

## Model

| member | source | states |
|---|---|---|
| `CText.StrnEqualIsPrefixEquality` | core/registry/src/protocol_registry.c:101-104 | comparing C strings over n bytes accepts exactly equal n-byte prefixes |
| `CText.NumberTexts` | standards/mcp/src/mcp_client_rpc.c:33-35 | what strtoul and strtol make of any white space, sign, number and rest, with their saturation |
| `Framing.NextFrameExtends` | standards/mcp/src/mcp_client_frame.c:112-150 | a frame that is decided, good or bad, is not changed by bytes that arrive later |
| `Framing.ParseResumes` | standards/mcp/src/mcp_client_frame.c:83-150 | parsing a stream may stop anywhere and resume from the left-over bytes with the same bodies, rest and error |
| `Framing.NextFrameOfEncoding` | standards/mcp/src/mcp_client_stdio.c:46-56 | the frame written for a NUL-free message of 1 byte to 10 MiB is read back whole whatever follows |
| `Framing.ParseOfEncodeAll` | standards/mcp/src/mcp_client_stdio.c:46-109 | any list of such messages is parsed back unchanged, in order, with no byte left |
| `Framing.EncodedHeadersBounded` | standards/mcp/src/mcp_client_stdio.c:46-56 | what the writer produces satisfies the header bound of the overflow theorem |
| `Framing.PendingFits` | standards/mcp/src/mcp_client_frame.c:83-104 | with headers of at most 4096 bytes an unfinished frame leaves room for one more read |
| `FrameHeaders.FrameWithLength` | standards/mcp/src/mcp_client_frame.c:38-66 | for any header lines, any spelling of the field, any blanks and anything after the number, the first Content-Length line decides: out of range the frame is bad, otherwise it is the body of that length |
| `FrameHeaders.FrameWithoutLength` | standards/mcp/src/mcp_client_frame.c:38-66 | a header without such a line makes the frame bad |
| `FrameHeaders.FrameWithoutNumber` | standards/mcp/src/mcp_client_frame.c:38-66 | so does one whose first such line has no number, whatever later lines say |
| `FrameParsing.FindHeaderEnd` | standards/mcp/src/mcp_client_frame.c:21-32 | the scan finds the first blank line, or that there is none |
| `FrameParsing.ParseContentLength` | standards/mcp/src/mcp_client_frame.c:38-66 | the line scan gives the value of the first Content-Length line of the header, or none |
| `FrameParsing.ReadLength` | standards/mcp/src/mcp_client_frame.c:49-62 | the value is the first 31 leading digits after blanks, saturated, or none without digits |
| `FrameParsing.NewCapacity` | standards/mcp/src/mcp_client_frame.c:91-100 | doubling reaches a sufficient capacity of the form 4096 times a power of two, at most the twelfth |
| `FrameParsing.CapacityBound` | standards/mcp/src/mcp_client_frame.c:91-100 | every capacity the buffer can have is at most 16 MiB |
| `FrameParsing.CachedExtends` | standards/mcp/src/mcp_client_frame.c:114-135 | the header end and body length cached in BODY state stay what re-reading the longer buffer gives |
| `FrameParsing.FrameParser.Append` | standards/mcp/src/mcp_client_frame.c:83-104 | appends all bytes and keeps the invariant, or refuses exactly when the limit would be passed |
| `FrameParsing.FrameParser.TakeFrame` | standards/mcp/src/mcp_client_frame.c:112-150 | gives exactly the first frame of the buffered bytes, with or without cached state, and removes it |
| `FrameParsing.Feed` | standards/mcp/src/mcp_client_frame.c:83-150 | however a stream is cut, the bodies and any error are those of the whole stream; exactly which piece is refused; none is when headers are bounded and pieces are reads |
| `FrameParsing.CutsDoNotMatter` | standards/mcp/src/mcp_client_frame.c:83-150 | resuming the parse piece by piece gives the parse of the concatenation for every cutting |
| `StdioClient.WriteAll` | standards/mcp/src/mcp_client_stdio.c:15-44 | under partial writes all bytes are written, or a prefix if and only if a call faults |
| `StdioClient.SendParts` | standards/mcp/src/mcp_client_stdio.c:46-56 | header and body are written in order, or a prefix of the two on a fault |
| `StdioClient.SendMessage` | standards/mcp/src/mcp_client_stdio.c:46-56 | the pipe gains exactly the encoded frame, or a prefix of it on a fault |
| `StdioClient.ReadMessage` | standards/mcp/src/mcp_client_stdio.c:61-109 | success consumes exactly the first frame of the unread bytes for any read sizes; every other result loses nothing except on overflow, which bounded headers exclude |
| `StdioTransport.ReadLine` | standards/mcp/src/mcp_transport.c:87-126 | byte-wise reading without faults gives the line and leaves the bytes after it |
| `StdioTransport.LineThatFits` | standards/mcp/src/mcp_transport.c:87-126 | a line is the text before the newline without its carriage returns |
| `StdioTransport.LineCutOff` | standards/mcp/src/mcp_transport.c:87-126 | a line longer than the buffer is cut there and reading goes on after the cut |
| `StdioTransport.OnWireIsFrame` | standards/mcp/src/mcp_transport.c:438-456 | below 10^11 bytes the transport's header fits its buffer and it writes the frame both readers expect |
| `StdioTransport.MessageWithLength` | standards/mcp/src/mcp_transport.c:510-571 | for any blanks, number and rest of the header line, the number decides between a message and none, and what is left is exact |
| `StdioTransport.MessageWithoutLength` | standards/mcp/src/mcp_transport.c:510-530 | another first line is consumed and refused |
| `StdioTransport.Transport.Send` | standards/mcp/src/mcp_transport.c:426-456 | refuses empty messages and a transport that is not connected; otherwise writes the header buffer and the body, or ends in the error state after a prefix of them |
| `StdioTransport.Transport.Receive` | standards/mcp/src/mcp_transport.c:494-571 | without faults it returns the first acceptable message of the stream, or none, and leaves exactly the rest; a message delivered after a fault still has the declared length and comes from after the header line |
| `StdioTransport.FirstMessageOfEncoding` | standards/mcp/src/mcp_transport.c:510-571 | the unbuffered reader returns a written message of any bytes whole |
| `StdioTransport.AllMessagesOfEncodeAll` | standards/mcp/src/mcp_transport.c:510-571 | and any list of messages in order with nothing left |
| `StdioTransport.ReadersAgree` | standards/mcp/src/mcp_transport.c:438-456 | the buffered and the unbuffered reader agree on every stream the writers produce |
| `RoundTrip.SendAll` | standards/mcp/src/mcp_client_stdio.c:46-56 | without faults a pipe gains the frames of all messages in order |
| `RoundTrip.SendAllTransport` | standards/mcp/src/mcp_transport.c:426-456 | without faults the transport's pipe gains the frames of all messages in order |
| `RoundTrip.ReadAllBuffered` | standards/mcp/src/mcp_client_stdio.c:61-109 | without faults and with bounded headers every frame of the stream is delivered, what is left unread is the unfinished frame, and an error comes only for a malformed one |
| `RoundTrip.ReadAllUnbuffered` | standards/mcp/src/mcp_transport.c:494-571 | without faults every message of the stream is delivered and the pipe holds exactly what the last attempt left |
| `RoundTrip.Loopback` | standards/mcp/src/mcp_client_stdio.c:46-109 | messages written by both writers come back through both readers unchanged and in order, with no byte left in a pipe or the parser, under any splitting of reads and writes |
| `HttpClient.ReadResponse` | standards/mcp/src/mcp_client_http.c:145-216 | the result is the first frame's body, or the first data line of an event stream, for any read sizes |
| `CallHistory.IdsIncrease` | standards/mcp/src/mcp_client_rpc.c:45-50 | in every run of fewer than 2^64 calls request ids are 1, 2, 3 and so on |
| `CallHistory.FirstReply` | standards/mcp/src/mcp_client_rpc.c:67-88 | an answered call got the first frame after the earlier calls that carries its id |
| `CallHistory.CallMeans` | standards/mcp/src/mcp_client_rpc.c:25-88 | in every run, read off the frame ids alone: a call ends at the first frame that carries its number, as a number or a string, or is unparsable, and passes over all others |
| `CallHistory.PrintedIdAnswers` | standards/mcp/src/mcp_client_rpc.c:25-37 | an id printed as text answers its own request and no other |
| `CallHistory.OthersAnswerNothing` | standards/mcp/src/mcp_client_rpc.c:25-37 | frames without an id, or with one of another type, answer nothing |
| `CallHistory.LateReplyNeverDelivered` | standards/mcp/src/mcp_client_rpc.c:25-88 | the frame handed to a call never carries the id of an earlier call |
| `CallHistory.ConsumedBySomeCall` | standards/mcp/src/mcp_client_rpc.c:67-88 | every consumed frame was consumed by a call |
| `CallHistory.ConsumedOnce` | standards/mcp/src/mcp_client_rpc.c:67-88 | no frame is consumed by two calls |
| `CallHistory.PhaseMeaning` | standards/mcp/src/mcp_client_rpc.c:137-161 | the lifecycle automaton is unviolated if and only if tool requests follow an accepted initialize and initialize never follows one |
| `ClientRpc.Client.NextInbound` | standards/mcp/src/mcp_client_rpc.c:74-77 | a read advances by one inbound frame or leaves the frames consumed so far as they were |
| `ClientRpc.Client.AwaitReply` | standards/mcp/src/mcp_client_rpc.c:67-88 | returns the first unread frame that answers the request, if one comes before any unparsable frame and no read fails; terminates on the bytes remaining |
| `ClientRpc.Client.Exchange` | standards/mcp/src/mcp_client_rpc.c:42-108 | one more numbered call is recorded; whether it succeeds or not, the output gains its frame, whole or cut by a fault, and every run property is kept |
| `ClientRpc.Client.EnsureInitialized` | standards/mcp/src/mcp_client_rpc.c:140-161 | succeeds if and only if the session is open afterwards, and opens it only on a response judged a welcome; the messages of each outcome exactly, none when it is already open |
| `ClientRpc.Client.ListTools` | standards/mcp/src/mcp_client_tool.c:27-34 | keeps the run properties, and only a successful handshake precedes the request |
| `ClientRpc.Client.CallTool` | standards/mcp/src/mcp_client_tool.c:110-127 | the same for a tool call |
| `ClientRpc.WholeWire` | standards/mcp/src/mcp_client_rpc.c:42-88 | in every run without a cut frame the bytes written are the frames of all requests in order |
| `ClientRpc.ServerSeesRequests` | standards/mcp/src/mcp_client_rpc.c:42-88 | and a server that parses them gets exactly the requests the client recorded |
| `Sha256Constants.RoundConstantsAreCubeRoots` | standards/a2a/src/a2a_v03_adapter_auth.c:50-58 | every round constant is the first 32 fractional bits of the cube root of its prime |
| `Sha256Constants.InitialHashIsSquareRoots` | standards/a2a/src/a2a_v03_adapter_auth.c:105-117 | the initial words are those of the square roots of the first eight primes |
| `Sha256Constants.RowsAreThePrimes` | standards/a2a/src/a2a_v03_adapter_auth.c:50-58 | the numbers whose roots the constants are are all the primes below 312, in order |
| `Sha256Logic.ChBits` | standards/a2a/src/a2a_v03_adapter_auth.c:81-81 | each bit of Ch is the second word's where the first has a one and the third's elsewhere |
| `Sha256Logic.MajBits` | standards/a2a/src/a2a_v03_adapter_auth.c:84-84 | each bit of Maj is the majority of the three |
| `Sha256Logic.BigSigma0Bits` | standards/a2a/src/a2a_v03_adapter_auth.c:83-83 | each bit is the exclusive or of the bits 2, 13 and 22 places on, around the word |
| `Sha256Logic.BigSigma1Bits` | standards/a2a/src/a2a_v03_adapter_auth.c:80-80 | the same 6, 11 and 25 places on |
| `Sha256Logic.SmallSigma0Bits` | standards/a2a/src/a2a_v03_adapter_auth.c:73-73 | 7 and 18 places on around the word and 3 places on within it |
| `Sha256Logic.SmallSigma1Bits` | standards/a2a/src/a2a_v03_adapter_auth.c:74-74 | 17 and 19 places on around the word and 10 places on within it |
| `Sha256KnownAnswer.AbcDigest` | standards/a2a/src/a2a_v03_adapter_auth.c:65-155 | the digest of "abc" is the 32 bytes ba7816bf to f20015ad of the published example |
| `Sha256Incremental.Expand` | standards/a2a/src/a2a_v03_adapter_auth.c:67-76 | the array filled in place is the recursive message schedule of section 6.2.2 |
| `Sha256Incremental.RoundLoop` | standards/a2a/src/a2a_v03_adapter_auth.c:77-94 | the eight-variable loop with its order of assignments computes the 64 rounds |
| `Sha256Incremental.Context.Transform` | standards/a2a/src/a2a_v03_adapter_auth.c:65-103 | the state becomes the compression of the buffered block |
| `Sha256Incremental.Context.Absorb` | standards/a2a/src/a2a_v03_adapter_auth.c:119-130 | one more byte is absorbed and the state stays the hash of the whole blocks |
| `Sha256Incremental.Context.Update` | standards/a2a/src/a2a_v03_adapter_auth.c:119-130 | the bytes absorbed grow by exactly the given ones |
| `Sha256Incremental.PaddedBlocks` | standards/a2a/src/a2a_v03_adapter_auth.c:132-147 | in both padding branches the blocks compressed are the padded message of section 5.1.1 |
| `Sha256Incremental.LengthField` | standards/a2a/src/a2a_v03_adapter_auth.c:134-146 | the running 64-bit counter gives the same length field as the message length in bits |
| `Sha256Incremental.Context.Final` | standards/a2a/src/a2a_v03_adapter_auth.c:132-155 | the digest is SHA-256 of everything absorbed |
| `Signatures.HashPieces` | standards/a2a/src/a2a_v03_adapter_auth.c:105-155 | init, one update per piece and final give SHA-256 of the concatenation, for every list of pieces |
| `Signatures.ComputeHmac` | standards/a2a/src/a2a_v03_adapter_auth.c:157-188 | section 2 of RFC 2104 for every key length and message |
| `Signatures.HmacPads` | standards/a2a/src/a2a_v03_adapter_auth.c:157-188 | for keys up to a block, the inner block is the key against 0x36 and the outer against 0x5c |
| `Signatures.HmacLongKey` | standards/a2a/src/a2a_v03_adapter_auth.c:160-169 | a longer key counts as its digest |
| `Signatures.PrepareKey` | standards/a2a/src/a2a_v03_adapter_auth.c:160-169 | long keys are hashed, short ones zero-padded, to one block |
| `Signatures.HexEncode` | standards/a2a/src/a2a_v03_adapter_auth.c:26-34 | lowercase hexadecimal digits of as many bytes as fit the declared size, the terminator after the place of all of them, and no other byte changed |
| `Signatures.HexDigits` | standards/a2a/src/a2a_v03_adapter_auth.c:26-34 | the sixteen digit characters, high digit first |
| `Signatures.HexInjective` | standards/a2a/src/a2a_v03_adapter_auth.c:26-34 | hexadecimal text determines the bytes |
| `Signatures.TokenText` | standards/a2a/src/a2a_v03_adapter_auth.c:248-251 | a 32-byte digest loses its last byte in the 64-byte token field, and the terminator lands after the field |
| `Signatures.ConstTimeEq` | standards/a2a/src/a2a_v03_adapter_auth.c:190-196 | the accumulated difference is zero if and only if the bytes are equal |
| `Signatures.ComputeSimpleHash` | standards/a2a/src/a2a_v03_adapter_auth.c:198-205 | the loop computes the recursive 32-bit hash with wrap-around |
| `Signatures.SignedText` | standards/a2a/src/a2a_v03_adapter_auth.c:456-460 | the signed text is method, parameters and token in that order with bars between |
| `Signatures.SignRequest` | standards/a2a/src/a2a_v03_adapter_auth.c:444-481 | signs with the hexadecimal HMAC of method, parameters and token, or without a secret of 1 to 64 bytes with the repeated 32-bit hash; refuses exactly the texts and buffers that do not fit |
| `Signatures.VerifySignature` | standards/a2a/src/a2a_v03_adapter_auth.c:483-504 | for every secret, accepts exactly the signatures whose first 64 characters are that HMAC, and none without a secret of 1 to 64 bytes, whatever the buffer held before |
| `Lockout.FailuresStayBelow` | standards/a2a/src/a2a_v03_adapter_auth.c:348-361 | in every run the failure count stays below the limit |
| `Lockout.GuardMeans` | standards/a2a/src/a2a_v03_adapter_auth.c:304-361 | after every run the count is the number of failures since the last success or completed series, and the guard is closed exactly for 300 seconds from a completed one |
| `Lockout.VerdictMeans` | standards/a2a/src/a2a_v03_adapter_auth.c:304-361 | every verdict from the verdicts and times before it: locked out if and only if a series of the limit of failures without a success was completed less than 300 seconds earlier, otherwise decided by the credential |
| `Lockout.LockoutOnlyExtends` | standards/a2a/src/a2a_v03_adapter_auth.c:306-361 | the end of the lockout never moves back |
| `Lockout.NothingGrantedWhileLocked` | standards/a2a/src/a2a_v03_adapter_auth.c:306-314 | once a lockout is in force no attempt before its end is evaluated, however many come between |
| `Lockout.FailuresTakeTime` | standards/a2a/src/a2a_v03_adapter_auth.c:304-361 | N failures without a success span at least 300 seconds per full limit of the failures before the last, counting those on record |
| `AuthState.CheckCredential` | standards/a2a/src/a2a_v03_adapter_auth.c:316-346 | accepts exactly the shared key, or exactly the hexadecimal HMAC of the agent id, as configured |
| `AuthState.Defaults` | standards/a2a/src/a2a_v03_adapter_auth.c:253-273 | five failures and an hour unless configured, all else as given |
| `AuthState.WindowPush` | standards/a2a/src/a2a_v03_adapter_auth.c:363-381 | storing a token keeps the table the window of the last 256 issued, in order |
| `AuthState.AuthTable.Authenticate` | standards/a2a/src/a2a_v03_adapter_auth.c:291-382 | the guard follows the lockout machine over all attempts so far, and the tokens ever issued are one per granted attempt, at its time |
| `AuthState.AuthTable.VerifyToken` | standards/a2a/src/a2a_v03_adapter_auth.c:384-422 | succeeds only with a still valid token of the window issued less than the lifetime ago; which slot changes when it fails |
| `AuthState.AuthTable.InvalidateToken` | standards/a2a/src/a2a_v03_adapter_auth.c:424-442 | wipes the first valid match and nothing else |
| `Sessions.RemoveAtRemoves` | standards/a2a/src/a2a_v03_adapter_auth.c:529-531 | overwriting with the last slot removes exactly one session |
| `Sessions.SessionTable.FindOldest` | standards/a2a/src/a2a_v03_adapter_auth.c:521-528 | the scan finds the first of the sessions with the least activity |
| `Sessions.SessionTable.Create` | standards/a2a/src/a2a_v03_adapter_auth.c:506-553 | the limit is kept; on a full table one least active session goes and all others survive |
| `Sessions.LifetimeMeans` | standards/a2a/src/a2a_v03_adapter_auth.c:571-575 | with a clock that has not run back a session is past twice its lifetime exactly from that many seconds and one on |
| `Sessions.SessionTable.Validate` | standards/a2a/src/a2a_v03_adapter_auth.c:555-593 | refreshes the first match or wipes it past twice the lifetime, and changes no other slot |
| `Sessions.SessionTable.Destroy` | standards/a2a/src/a2a_v03_adapter_auth.c:595-607 | wipes the first match only |
| `Sessions.WipedGoesFirst` | standards/a2a/src/a2a_v03_adapter_auth.c:520-532 | while a wiped slot exists only slots without activity are evicted |
| `Agents.TableIsMap` | standards/a2a/src/a2a_v03_adapter_agent.c:34-87 | after every run that adds cards under absent ids the table is a map of at most 256 ids to whole cards |
| `Agents.ShortIdsAreFresh` | standards/a2a/src/a2a_v03_adapter_agent.c:34-71 | every run with ids of 1 to 63 bytes is such a run |
| `Agents.MapExactlyWhenFresh` | standards/a2a/src/a2a_v03_adapter_agent.c:56-72 | over every run, with generated and overlong ids too, no id is there twice if and only if each card is added under an id absent at that moment |
| `Agents.GeneratedIdsDiffer` | standards/a2a/src/a2a_v03_adapter_agent.c:69-72 | ids generated under different counter values differ |
| `Agents.UnregisterRefines` | standards/a2a/src/a2a_v03_adapter_agent.c:208-229 | swap-remove removes one id from the map and loses no other |
| `Agents.MaskIsUnion` | standards/a2a/src/a2a_v03_adapter_agent.c:34-55 | a known agent's mask is the OR of all masks accepted for it since it was last unregistered |
| `Agents.UnionHas` | standards/a2a/src/a2a_v03_adapter_agent.c:50-52 | a merged mask has given bits exactly when one of the masks has |
| `Agents.CardShowsLatestOffer` | standards/a2a/src/a2a_v03_adapter_agent.c:38-83 | in every run the card of an id has the name, url, version and availability of the latest offer accepted for it |
| `Agents.MissingTextKeeps` | standards/a2a/src/a2a_v03_adapter_agent.c:42-45 | without a capability text a card keeps the one it had |
| `Agents.ReRegistration` | standards/a2a/src/a2a_v03_adapter_agent.c:32-87 | registering again leaves the count unchanged if and only if the id has 1 to 63 bytes or the table is full |
| `Agents.AgentTable.Register` | standards/a2a/src/a2a_v03_adapter_agent.c:22-87 | the array performs one registration of the run, with every text cut to its field, and reports exactly when it is full; the shared counter moves only for a generated id |
| `Agents.AgentTable.Unregister` | standards/a2a/src/a2a_v03_adapter_agent.c:208-229 | the array performs one removal of the run and reports an unknown id |
| `Agents.AgentTable.Get` | standards/a2a/src/a2a_v03_adapter_agent.c:155-193 | finds the card of an id or none |
| `RegistryRuns.RunIsOrderedMap` | core/registry/src/protocol_registry.c:92-202 | after every run the table is an insertion-ordered map of at most 32 distinct keys, in the order a map would have |
| `RegistryRuns.EntryIsLatestRegistration` | core/registry/src/protocol_registry.c:92-160 | after every run exactly the keys with a standing registration have an entry, whose category, kind, capabilities and built-in mark are those of that registration |
| `RegistryHistory.StateFromHistory` | core/registry/src/protocol_registry.c:92-388 | after every run each key has the state that the operations alone give it: by its registration, as a built-in, by SetState, or by an activation and what its dependencies were last heard |
| `RegistryRuns.StepKeepsOrder` | core/registry/src/protocol_registry.c:92-388 | every operation moves the key order as an ordered map does |
| `RegistryRuns.EventsTellTheState` | core/registry/src/protocol_registry.c:128-365 | replaying the emitted events gives the current states, and each event starts where the previous one for that name ended |
| `RegistryHistory.EventsFromHistory` | core/registry/src/protocol_registry.c:128-365 | the callback sees exactly the events that the operations call for, with their states |
| `RegistryHistory.NotUsableUntilActivated` | core/registry/src/protocol_registry.c:92-187 | what was registered and never activated stays REGISTERED and is not found by type, whatever else happens |
| `RegistryHistory.BuiltinIsUsable` | core/registry/src/protocol_registry.c:486-510 | every newly added built-in is found, with its definition |
| `RegistryRuns.CachedStateIsLatestBeat` | core/registry/src/protocol_registry.c:300-388 | every cached dependency state is the target's state at its latest heartbeat since the declaration |
| `RegistryRuns.ActivationOutcome` | core/registry/src/protocol_registry.c:322-353 | activation ends in ACTIVE if every dependency was usable when last heard, otherwise in ERROR |
| `RegistryTable.Registry.Register` | core/registry/src/protocol_registry.c:92-134 | one registration of the run, with the exact refusal reasons |
| `RegistryTable.Registry.Unregister` | core/registry/src/protocol_registry.c:136-160 | one removal of the run on the array |
| `RegistryTable.Registry.Find` | core/registry/src/protocol_registry.c:162-172 | the entry with the name's key, or none |
| `RegistryTable.Registry.FindByType` | core/registry/src/protocol_registry.c:174-187 | the earliest registered usable entry of the type |
| `RegistryTable.Registry.FindByCapability` | core/registry/src/protocol_registry.c:189-202 | the earliest registered usable entry with all capabilities |
| `RegistryTable.Registry.Select` | core/registry/src/protocol_registry.c:237-264 | the two passes copy exactly the matching entries in order |
| `RegistryTable.FilterMeans` | core/registry/src/protocol_registry.c:237-264 | each entry is taken or left by itself and the order is kept |
| `RegistryTable.Registry.SetState` | core/registry/src/protocol_registry.c:277-298 | one state change of the run, reported with the state it left |
| `RegistryTable.Registry.AddDependency` | core/registry/src/protocol_registry.c:300-320 | one declaration of the run, with the exact refusal reasons |
| `RegistryTable.Registry.CheckDeps` | core/registry/src/protocol_registry.c:322-333 | true exactly when all cached states are usable |
| `RegistryTable.Registry.Activate` | core/registry/src/protocol_registry.c:335-353 | one activation of the run and its result |
| `RegistryTable.Registry.Deactivate` | core/registry/src/protocol_registry.c:355-365 | a state change to READY |
| `RegistryTable.Registry.Heartbeat` | core/registry/src/protocol_registry.c:367-388 | the nested loops refresh every cached state of the entry and no other |
| `RegistryTable.Registry.RegisterBuiltin` | core/registry/src/protocol_registry.c:494-506 | a new definition becomes an ACTIVE built-in entry at the end of the table |
| `RegistryTable.Registry.RegisterBuiltins` | core/registry/src/protocol_registry.c:486-510 | one built-in step per definition, each new one ACTIVE; the result is the number of new entries |
| `Unified.ToJson` | common/src/unified_protocol.c:408-433 | printing never truncates, and succeeds if and only if 52 bytes, the three numbers and the payload shown make at most INT_MAX bytes |
| `Unified.PrintText` | common/src/unified_protocol.c:419-423 | the printed text in full |
| `Unified.PrintingCanFail` | common/src/unified_protocol.c:419-429 | a message of INT_MAX payload bytes is refused although every field is in range |
| `Unified.LongestPayloadFails` | common/src/unified_protocol.c:419-429 | so is every NUL-free payload of that length |
| `Unified.ShorterPayloadsFit` | common/src/unified_protocol.c:408-433 | payloads at least 94 bytes shorter always print |
| `Unified.MessageBox.Decode` | common/src/unified_decode.c:24-75 | fills the fields with what the text says, with the defaults for absent members, and refuses empty data |
| `Unified.DecodesProtocol` | common/src/unified_decode.c:42-45 | in any text, the number at the first place of the label, or the default |
| `Unified.DecodesDirection` | common/src/unified_decode.c:47-50 | the same for the direction, by default 1 |
| `Unified.DecodesTimestamp` | common/src/unified_decode.c:52-55 | the same for the timestamp, by default the present |
| `Unified.DecodesPayload` | common/src/unified_decode.c:57-71 | the same for the payload, up to its closing quote, by default empty |
| `Unified.DecodeOfPrint` | common/src/unified_decode.c:42-71 | decoding a printed message gives it back with the payload cut only at its first quote or NUL |
| `Unified.RoundTripExactlyWhen` | common/src/unified_decode.c:57-71 | the message comes back exactly if and only if its payload holds neither and an int can count it |
| `Unified.SendAndReceive` | common/src/unified_protocol.c:408-433 | printing and decoding together, for every message: refused exactly when the text is too long, otherwise all fields back |
| `Streaming.JsonStringEscape` | standards/mcp/src/mcp_v1_adapter.c:13-54 | the escaped text is built within 2n + 3 bytes |
| `Streaming.EscapeCodes` | standards/mcp/src/mcp_v1_adapter.c:24-50 | the code of each escaped character; all others stand for themselves |
| `Streaming.UnescapeOfEscape` | standards/mcp/src/mcp_v1_adapter.c:24-50 | escaping loses nothing |
| `Streaming.ExtractSseData` | standards/mcp/src/mcp_client_http.c:119-140 | the scan returns the value of the first data line, or none |
| `Streaming.ExtractsFirstData` | standards/mcp/src/mcp_client_http.c:119-140 | in any text, the value of the first line that starts with the field |
| `Streaming.ExtractsNothing` | standards/mcp/src/mcp_client_http.c:119-140 | nothing when no line does |
| `Streaming.SseRoundTrip` | standards/mcp/src/mcp_v1_adapter_stream.c:80-91 | the extractor returns the data of an emitted event whole |
| `Streaming.ChunksCover` | standards/mcp/src/mcp_v1_adapter_tool.c:192-210 | the chunks are the whole text, in order, ceil(n / 128) of them |
| `Streaming.ChunkDataFits` | standards/mcp/src/mcp_v1_adapter_tool.c:188-206 | the data of a chunk never exceeds its buffers and is a single line |
| `Streaming.TextSurvives` | standards/mcp/src/mcp_v1_adapter_tool.c:184-223 | every chunk's data comes back untruncated, its delta unescapes to the chunk, and the chunks joined are the text |
| `ToolStream.StreamText` | standards/mcp/src/mcp_v1_adapter_tool.c:192-219 | the chunk loop emits exactly the events of the chunks in order |
| `ToolStream.ProgressGrows` | standards/mcp/src/mcp_v1_adapter_tool.c:212-218 | progress grows with every chunk and ends at 80 |
| `ToolStream.StreamDelivers` | standards/mcp/src/mcp_v1_adapter_tool.c:184-223 | a receiver that uses the client's extractor adds every streamed text, whole and under its header, to what it has |
| `ToolStream.CallDelivers` | standards/mcp/src/mcp_v1_adapter_tool.c:130-260 | from all callbacks of a call a receiver gets every text that is not empty, whole and in order |
| `ToolStream.BuildSummary` | standards/mcp/src/mcp_v1_adapter_tool.c:225-246 | the message built item by item, offsets counting what did not fit, is the whole rendering cut off only by its buffer |
| `ToolStream.HandleStreaming` | standards/mcp/src/mcp_v1_adapter_tool.c:130-260 | the callbacks of a call, in order, for known and unknown tools, with the texts of both result messages |
| `ToolStream.OneTerminalEvent` | standards/mcp/src/mcp_v1_adapter_tool.c:140-258 | every call starts with the started event and has exactly one DONE or ERROR event, the last, which is DONE exactly when the tool exists and its handler reports no error |

## Left out

- StdioClient.ReadMessage: calls interrupted by a signal are retried by the code and do not show; allocation failures are not modelled anywhere.
- StdioTransport.Transport.Send: messages of 10^12 bytes and more, for which the code reads past its 32-byte header buffer, are excluded; those from 10^11 bytes on are written with the NUL that the buffer ends in.
- StdioTransport.Transport.Receive: a fault while reading the blank line is ignored by the code and the body is then shifted; by how much is not determined.
- ClientRpc.Client.Exchange: the HTTP branch, which accepts any parsable id, and the JSON text of a request, whose id is a double and exact below 2^53 only.
- Sessions.SessionTable.constructor: a configured limit above 128, which the code does not clamp, is excluded.
- Agents.TableIsMap: runs that add a card under an id already there, where it is false (`Agents.MapExactlyWhenFresh`).
- RegistryTable.Registry.constructor: the callback is installed from the start or never; installing it later, a callback that calls the registry, versions, timestamps, request statistics and JSON export.
- ToolStream.HandleStreaming: a final message that outgrows its buffer before its closing brackets, or has an item an int cannot count, is a parameter, because the code then writes outside the buffer or misplaces the items. Progress is an exact fraction, not a double.
- Streaming.TextSurvives: recovery against the fixed template; the escaped text is quoted twice, so the data is not claimed to be JSON.
- Unified.ToJson: payloads whose size becomes a negative precision and that hold no NUL, which the code reads past, are excluded.
- AuthState.AuthTable.Authenticate: token texts and session ids are uninterpreted and not claimed to be unique.
- Processes, sockets, DNS, poll and select themselves, and the HTTP request writer.
- The message transformers, the router, the facade manager, the catalog, protocol detection, and enum-to-string functions.
- A2A tasks, negotiation, delegation and consensus, where any state may follow any state.
