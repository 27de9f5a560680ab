# A verified model of a connection-oriented DCE/RPC client

The project models the MS-RPCE client crate from its byte codec up to whole sessions, and proves what
the layers promise together.

| file | content |
|---|---|
| `Bytes.dfy`, `WireCodes.dfy`, `Errors.dfy` | machine integers in both byte orders, protocol enumerations, errors |
| `Pdu.dfy`, `PduProofs.dfy` | common header, security trailer, packet, bind/request/response/fault bodies |
| `Syntax.dfy`, `Bind.dfy`, `BindProofs.dfy` | syntax ids, context lists, bind acknowledgements, choice of a context |
| `Wires.dfy`, `NcacnNp.dfy`, `Framing.dfy` | the state behind the transport trait; the named pipe; cutting PDUs out of an undelimited stream |
| `Calls.dfy`, `Handshake.dfy` | one call and one bind as functions on the client's state |
| `Client.dfy` | the objects: transport, authentication provider, client with its loops |
| `Fragmentation.dfy`, `Reassembly.dfy` | request fragments, exact acceptance of responses |
| `Runs.dfy`, `Conversations.dfy` | whole runs of calls: identifiers, recovery of the requests, no leaks, conversations |
| `BindOutcomes.dfy` | how a bind fails, by which error, and what the provider sees |
| `HandshakeProofs.dfy`, `PipeRefinement.dfy` | the handshake, full sessions, the pipe as a refinement of a queue, where the pipe leaks |
| `Streams.dfy` | the bytes a run really writes, failed writes included, and what a server makes of them |
| `KnownAnswers.dfy` | what any bytes mean as a header, trailer, syntax id, result or nak; literal bytes that fix the position of every field |

How the pieces of the program appear here:

- Integer widths are explicit: `byte`, `u16`, `u32` are bounded; truncating casts (`as u8` for the
  context count, `as u16` for body lengths, `as u32` for the allocation hint) and the wrapping call id
  are written out.
- The data representation reader belongs to another crate. `ReadDrep` is an unspecified constant: any
  function that reads `[0x10, 0, 0, 0]` as little-endian, so every theorem holds for each such reader
  and in both header byte orders.
- The transport trait is the datatype `Wire`: waiting input (`Queue` of PDUs or `Pipe` of bytes), the
  sent log, and a schedule that says which of the next sends fail. `NcacnNpTransport` is proved to be the
  `Pipe` case, with its buffers filled in place. A read that runs dry loses the bytes that were there; a
  failed write may leave any first part of its bytes on the pipe. `Took` says that an input, of either
  kind, is a list of PDUs followed by the rest; reassembly, conversations and sessions are stated with it
  and so hold for queues and for pipes of arbitrary bytes.
- An authentication provider has a constant level and identity and may react in any way to everything
  it has seen so far.
- A Rust panic is the error `Panic`. Sums such as `COMMON_HEADER_LEN + body.len() as u16` wrap, as in a
  release build; `FragmentPlanBounds` proves that the client never reaches the overflow.
- The class methods are proved equal to the functions of `Calls` and `Handshake`; a run (`IsRun`) is any
  sequence of states in which each follows from the one before by such a call, whatever its outcome.

Properties that hold only under a condition are stated with the exact condition: a packet with a security
trailer but an empty auth value does not survive a round trip (`PacketRoundTrip`,
`EmptyAuthFoldsIntoBody`), so an offer with an empty first token cannot be read by the server
(`OfferFidelity`); a list of more than 255 contexts or results always fails on trailing bytes
(`ContextListRoundTrip`, `BindAckRoundTrip`). The framer drops sixteen bytes when it refuses a header and
goes on behind them, so over the pipe a call can return bytes from inside another call's fragment
(`RefusedHeadLeaks`, `LeakExample`); it never loses its place exactly on streams of framable PDUs with an
incomplete end (`SynchronisedIffWellFramed`, `LosesPlaceAtRefusedHead`), and on those nothing leaks
(`WellFramedNeverLeaks`). A client that goes on after a write that failed inside a PDU makes the server
complete that PDU with bytes of the next one (`TornRequestMixes`, `TearExample`); as long as nothing is
written behind a torn PDU, the server recovers exactly the requests on the pipe (`StreamRecovery`,
`SessionStream`). The list encoder says that context counts were validated before; nothing validates
them, and an oversized context panics (`EncodeContextList`).

## Model

| member | source | states |
|---|---|---|
| `Bytes.WriteU16` | src/pdu.rs:565-571 | stores both bytes in the chosen order and leaves every other byte of the buffer alone |
| `Bytes.WriteU32` | src/pdu.rs:573-579 | stores four bytes in the chosen order and leaves every other byte of the buffer alone |
| `Bytes.U32RoundTrip` | src/pdu.rs:557-579 | reading back a written 32-bit value gives the value, in both orders, whatever follows |
| `Bytes.U32Reencode` | src/pdu.rs:557-579 | writing a read value gives the original four bytes, in both orders |
| `Pdu.EncodeTrailer` | src/pdu.rs:32-40 | the in-place trailer encoder produces the trailer layout |
| `PduProofs.TrailerRoundTrip` | src/pdu.rs:32-55 | every trailer decodes from its own bytes |
| `Pdu.EncodeHeader` | src/pdu.rs:142-153 | the in-place header encoder produces the header layout in the label's byte order |
| `PduProofs.HeaderRoundTrip` | src/pdu.rs:142-187 | a written header reads back, in either byte order and before any bytes, iff its version is 5 and its label readable |
| `PduProofs.HeaderReencode` | src/pdu.rs:155-180 | a decoded header writes back exactly the sixteen bytes it was read from |
| `Pdu.EncodePacket` | src/pdu.rs:269-304 | the growing-buffer encoder yields the five regions with recomputed lengths and zero padding, or the first applicable error |
| `PduProofs.LayoutDecodes` | src/pdu.rs:306-351 | every consistent packet decodes from its regions, with arbitrary padding bytes |
| `PduProofs.DecodedPartition` | src/pdu.rs:306-351 | header, body, padding, trailer and auth value of an accepted fragment partition it exactly |
| `PduProofs.DecodesIffLayout` | src/pdu.rs:306-351 | a byte string decodes to a packet iff it is a layout of that packet and the packet is consistent |
| `PduProofs.PacketRoundTrip` | src/pdu.rs:269-351 | when encoding succeeds, decoding gives the packet with normalised lengths iff the header is readable and a trailer is present exactly when the auth value is non-empty |
| `PduProofs.EmptyAuthFoldsIntoBody` | src/pdu.rs:278-327 | a trailer with an empty auth value comes back as part of the body, with its padding |
| `PduProofs.UnreadableNeverDecodes` | src/pdu.rs:160-177 | with a wrong version or unreadable label no encoding decodes |
| `PduProofs.CanonicalReencoding` | src/pdu.rs:269-351 | whatever decodes encodes again, to the same length and the same bytes except zeros in the padding, and decodes to the same packet |
| `PduProofs.PlainPacketRoundTrip` | src/pdu.rs:353-366 | a packet built from a body encodes iff the body is at most 65519 bytes, and then decodes to itself, provisional length included |
| `PduProofs.BindBodyRoundTrip` | src/pdu.rs:377-398 | bind bodies decode to themselves |
| `PduProofs.RequestRoundTrip` | src/pdu.rs:409-447 | request bodies decode to themselves, with and without an object id |
| `PduProofs.ResponseRoundTrip` | src/pdu.rs:457-481 | response bodies decode to themselves |
| `PduProofs.FaultRoundTrip` | src/pdu.rs:492-518 | fault bodies decode to themselves |
| `PduProofs.PacketEncodesIff` | src/pdu.rs:269-286 | encoding fails on an auth value above 65535 bytes, one without a trailer, or a fragment above 65535 bytes, with these errors in this order, and on nothing else |
| `PduProofs.PacketRefusals` | src/pdu.rs:306-344 | each way in which bytes with a good header are refused as a packet, with its error |
| `PduProofs.ShortBodies` | src/pdu.rs:387-509 | bodies are refused exactly below 8, 8 or 24, 8 and 12 bytes |
| `PduProofs.RequestPacketRoundTrip` | src/pdu.rs:229-246 | an object id sets flag 0x80 and no other bit; the request reads back through that flag iff the caller did not set it without an object id |
| `PduProofs.ProvisionalLength` | src/pdu.rs:357-366 | the provisional fragment length is 16 plus the body length modulo 65536 |
| `KnownAnswers.HeaderReading` | src/pdu.rs:83-187 | for all bytes: each field of the header as a number in the label's byte order, each of the twenty types by its code, and the errors in order |
| `KnownAnswers.TrailerReading` | src/pdu.rs:42-55 | for all bytes: each field of the trailer, mechanisms 0, 9, 10, 16, levels 0, 2, 5, 6, and the errors in order |
| `KnownAnswers.SyntaxReading` | src/syntax.rs:26-38 | for all bytes: uuid in field order and version of a syntax id, or the length error |
| `KnownAnswers.ResultReading` | src/bind.rs:167-222 | for all bytes: the four result codes, the four reasons, and the errors in order |
| `KnownAnswers.NakReading` | src/pdu.rs:533-547 | the seven reject reasons by their two bytes, whatever follows, and the error for every other pair |
| `KnownAnswers.FlagBits` | src/client.rs:325-335 | FIRST is bit 0 and LAST is bit 1, whatever the other bits |
| `KnownAnswers.HeaderAnswer` | src/pdu.rs:142-153 | the sixteen bytes of a header whose fields all differ |
| `KnownAnswers.HeaderOrders` | src/pdu.rs:149-187 | the same numbers big-endian under a big-endian label, and little-endian under an unreadable one |
| `KnownAnswers.FreshHeader` | src/pdu.rs:127-140 | the sixteen bytes of a fresh header: version 5.0, Windows label, length 16, no auth value |
| `KnownAnswers.TrailerAnswer` | src/pdu.rs:269-304 | the thirty-two bytes of an authenticated request with padding |
| `KnownAnswers.BodyAnswers` | src/pdu.rs:378-502 | field positions of bind, request (with and without object id), response and fault bodies |
| `KnownAnswers.SyntaxAnswer` | src/syntax.rs:11-23 | the twenty bytes of a syntax id: uuid in field order, major, then minor |
| `KnownAnswers.ContextsAnswer` | src/bind.rs:40-112 | the bytes of a list of two contexts: count, reserved zeros, ids, syntaxes in the order given |
| `Syntax.VersionPackingIsInjective` | src/syntax.rs:66-84 | an interface's syntax id determines uuid, major and minor version |
| `Syntax.SyntaxRoundTrip` | src/syntax.rs:18-38 | a syntax id decodes from its bytes, whatever follows |
| `Syntax.SyntaxReencode` | src/syntax.rs:18-38 | twenty bytes are the encoding of the syntax id they decode to |
| `Syntax.Ndr32Wire` | src/syntax.rs:93-100 | the wire bytes of the NDR32 transfer syntax |
| `Bind.EncodeContext` | src/bind.rs:40-54 | the loop writes the context layout, or reports too many transfer syntaxes exactly when there are more than 255 |
| `Bind.DecodeContext` | src/bind.rs:56-86 | the loop reads the counted syntaxes at their places and reports the bytes used, or the right error |
| `BindProofs.ContextRoundTrip` | src/bind.rs:40-86 | a written context reads back with exactly its own length, whatever follows |
| `Bind.EncodeContextList` | src/bind.rs:99-112 | the loop writes the list with the count truncated to a byte, and panics exactly when some context has more than 255 syntaxes |
| `Bind.DecodeContextList` | src/bind.rs:114-137 | the offset loop reads the counted contexts one after the other and accepts only if they fill the input |
| `BindProofs.ContextListRoundTrip` | src/bind.rs:99-137 | a written list reads back iff it has at most 255 contexts and nothing follows; otherwise the trailing-bytes error, truncated counts included |
| `BindProofs.ContextRefusals` | src/bind.rs:56-68 | a context is refused below 24 bytes and below 24 plus 20 per counted syntax, each with its error, and accepted otherwise |
| `BindProofs.ContextListBreaks` | src/bind.rs:114-127 | a list that breaks off inside any of its contexts is refused with that context's error |
| `BindProofs.ContextListTooShort` | src/bind.rs:114-119 | fewer than four bytes are refused as a list with that error |
| `BindProofs.ContextsAligned` | src/bind.rs:40-54 | encoded contexts take a multiple of four bytes |
| `Bind.DecodeBindAck` | src/bind.rs:243-291 | alignment loop and result loop compute the decoded acknowledgement or the first error, with every index in range |
| `BindProofs.ParseResultsAccepts` | src/bind.rs:271-278 | results parse iff there is room for all and every code pair is known |
| `BindProofs.BindAckExact` | src/bind.rs:243-291 | an ack body is accepted iff it has 12 bytes, length align4(10+L)+4+24R and known codes; limits, group id, address and each result are the bytes at their place |
| `BindProofs.BindAckRoundTrip` | examples/in_memory_bind_call.rs:77-93 | decoding inverts a server's layout for every address up to 65535 bytes iff there are at most 255 results, and fails on trailing bytes otherwise |
| `BindProofs.AckRefusals` | src/bind.rs:243-282 | each way in which an ack body is refused around its results, with its error, in the source's order |
| `BindProofs.ResultsBreak` | src/bind.rs:271-278 | results that break off or go on with an unknown code are refused at the first bad one, with its error |
| `Bind.ChooseContext` | src/bind.rs:293-324 | the loop with its remembered first rejection computes the negotiation outcome |
| `BindProofs.NegotiationOutcome` | src/bind.rs:293-324 | least accepted index if proposed; else unmatched result; else the least user or provider rejection, with its context, code and reason; else no results |
| `NcacnNp.NamedPipe.ReadExact` | src/ncacn_np.rs:52-55 | fills the rest of a buffer from the input or fails and drains it |
| `NcacnNp.NamedPipe.WriteAll` | src/ncacn_np.rs:78-83 | all bytes go out, or the write fails and any first part of them is left on the pipe |
| `NcacnNp.NcacnNpTransport.SendPdu` | src/ncacn_np.rs:110-119 | the send succeeds as scheduled and is logged; on the pipe the PDU, or after a failure a first part of it, follows what was there |
| `NcacnNp.NcacnNpTransport.RecvPdu` | src/ncacn_np.rs:121-146 | filling header and fragment buffers in place cuts exactly one PDU off the stream |
| `Framing.FrameHead` | src/ncacn_np.rs:121-146 | a PDU that states its own length is cut off exactly, whatever follows |
| `Framing.EncodedIsFramable` | src/pdu.rs:269-304 | every encoding with a readable header states its own length |
| `Framing.FramedPassesLengthChecks` | src/ncacn_np.rs:121-146 | whatever is received passes both length checks of the packet decoder |
| `Framing.StreamYieldsPdus` | src/ncacn_np.rs:121-146 | n receives on the concatenation of n PDUs give these PDUs in order and leave the rest |
| `Framing.DryIffIncomplete` | src/ncacn_np.rs:121-137 | receiving fails for lack of input exactly when a header or an announced fragment is cut off, and then nothing is left |
| `Framing.StrictPrefixIsIncomplete` | src/ncacn_np.rs:121-137 | a PDU cut short anywhere is such input |
| `Framing.TornPduCompletes` | src/ncacn_np.rs:121-146 | a PDU cut short behind its header is completed with whatever bytes come next |
| `Framing.RefusedHeadIsSkipped` | src/ncacn_np.rs:123-131 | a refused header is dropped and receiving goes on with the byte behind it |
| `Framing.SynchronisedIffWellFramed` | src/ncacn_np.rs:121-146 | no number of receives ends in a framing error iff the stream is framable PDUs and then incomplete input |
| `Framing.LosesPlaceAtRefusedHead` | src/ncacn_np.rs:123-131 | otherwise, and only then, the stream has a refused header after framable PDUs |
| `PipeRefinement.RunRefines` | src/client.rs:192-352 | every run over the pipe sends the same PDUs and has the same outcomes, call by call, as over a queue of the same PDUs, also when the connection is cut inside a further PDU |
| `PipeRefinement.BindRefines` | src/client.rs:50-154 | a bind over the pipe, even one cut inside a PDU, ends as over the queue: corresponding clients or the same error |
| `PipeRefinement.WellFramedNeverLeaks` | src/client.rs:192-352 | on a well-framed stream every call, the first included, takes whole server PDUs in order and returns only stubs of its own; a PDU of an earlier call gives exactly the call id error |
| `PipeRefinement.RefusedHeadLeaks` | src/ncacn_np.rs:123-131 | after any refused header the next call returns whatever then reads as its answer |
| `PipeRefinement.NestedFragmentLeaks` | src/ncacn_np.rs:123-131 | call 2 returns bytes from inside a fragment of call 1 whose header has RPC version 4 |
| `PipeRefinement.LeakExample` | src/ncacn_np.rs:123-131 | a concrete version-4 fragment of call 1 whose body call 2 returns |
| `PipeRefinement.NoLeakOverQueue` | src/client.rs:311-319 | over a queue an undecodable PDU fails its call and is gone, whatever waits behind it, or stays if the request did not go out |
| `Client.Transport.SendPdu` | tests/call_flow.rs:23-27 | appends to the sent log unless the schedule says the send fails |
| `Client.Transport.RecvPdu` | tests/call_flow.rs:29-33 | takes the front PDU or fails when there is none |
| `Client.RpcClient.NewBound` | src/client.rs:156-177 | initial state of a bound client: call id 1, default limit |
| `Client.RpcClient.WithMaxXmitFrag` | src/client.rs:179-182 | changes the limit and nothing else |
| `Client.RpcClient.TakeCallId` | src/client.rs:226-230 | hands out the current id and steps to the next, never 0 |
| `Client.RpcClient.CallRaw` | src/client.rs:192-213 | the whole new client state and the result of one call |
| `Client.RpcClient.SendRequestFragments` | src/client.rs:232-274 | the offset loop sends the planned fragments in order up to the first failure, or nothing |
| `Client.RpcClient.RequestPacket` | src/client.rs:286-309 | the plain packet at a supported level, otherwise the level's error |
| `Client.RpcClient.RecvResponseFragments` | src/client.rs:311-352 | the receiving loop reassembles the stub, ends at the first unusable PDU, and terminates |
| `Client.RpcClient.VerifyResponsePacket` | src/client.rs:354-368 | accepts at supported levels only |
| `Client.RpcClient.BindInterface` | src/client.rs:25-32 | binds with the interface under NDR32 as context 0 |
| `Client.RpcClient.BindWithContexts` | src/client.rs:50-154 | the handshake's whole effect on transport and provider, and the bound client or the error |
| `Client.RpcClient.FinishBind` | src/client.rs:117-147 | answers a challenge with AUTH3 when there is something to answer and hands out the client |
| `Fragmentation.ChunksFlatten` | src/client.rs:252-271 | the chunks of a stub concatenate to the stub |
| `Fragmentation.ChunkCount` | src/client.rs:245-271 | there are max(1, ceil(length / size)) chunks |
| `Fragmentation.FragmentPlanBounds` | src/client.rs:232-284 | every fragment fits the limit and all but the last fill it; exact count; FIRST and LAST on exactly one each; no overflow, no encoding error |
| `Fragmentation.PlanReads` | src/client.rs:252-284 | a server reads in the i-th PDU the i-th slice of the stub, the stub's length modulo 2^32 as hint, the call's ids, and exactly the flags FIRST and LAST at their places |
| `Fragmentation.ExactSend` | src/client.rs:252-271 | sending goes on exactly to the first scheduled fault, fails there, and uses up the schedule that far |
| `Fragmentation.SentIsPlanPrefix` | src/client.rs:232-274 | a call sends a prefix of its fragment list, all of it iff sending succeeds, nothing below the limit or at an unsupported level |
| `KnownAnswers.FragmentationAnswer` | src/client.rs:252-271 | ten bytes under a 30-byte limit go out as six and four |
| `Reassembly.ExactReassembly` | src/client.rs:311-352 | over a queue or any byte stream: a call returns a stub and leaves a rest iff the input is a complete response (own id, 8-byte header, FIRST first, LAST only last) followed by that rest, and the stub is the concatenation |
| `Reassembly.AnySplitRoundTrip` | src/client.rs:311-352 | however an answer is cut into fragments that fit, the call returns the whole and leaves later input, queued or on the pipe |
| `Reassembly.FaultEndsResponse` | src/client.rs:311-352 | over a queue or any byte stream, reassembly of a partial response (own id, FIRST first, no LAST) followed by a fault ends with the fault's status and takes no more |
| `Reassembly.RefusedStub` | src/client.rs:319-349 | a packet is refused for another call id first, whatever its type; then by type, missing FIRST or a short body, each with its error; otherwise its stub counts |
| `Reassembly.RefusalEndsResponse` | src/client.rs:311-352 | after any partial response, over a queue or any byte stream, a refused packet or bytes that are no packet end the call with that error and leave exactly what is behind |
| `Reassembly.NothingMoreEndsResponse` | src/client.rs:316-317 | after any partial response a failed receive ends the call with the receive's error |
| `Reassembly.ProtectedResponseRefused` | src/client.rs:359-367 | at PacketIntegrity and PacketPrivacy a response that decodes is refused with the level's text |
| `Runs.RunExists` | src/client.rs:192-213 | every client can make every list of calls: runs exist |
| `Runs.CallIdSequence` | src/client.rs:226-230 | the k-th call of any run uses id ((s-1+k) mod (2^32-1))+1, never 0 |
| `Runs.CallIdsDistinct` | src/client.rs:226-230 | two calls of a run share an id iff their distance is a multiple of 2^32-1 |
| `Runs.StrayIsMalformed` | src/client.rs:252-271 | grouping is strict: a fragment without FIRST that continues no open request of the same call, context and operation makes the log malformed |
| `Runs.RegroupWhole` | src/client.rs:252-271 | a server that gets all fragments of a request has exactly the request |
| `Runs.RunRecovery` | src/client.rs:192-284 | for every run, decoding and grouping the log gives exactly the completely sent requests, in order, and is never malformed |
| `Conversations.CallTakesOwnAnswers` | src/client.rs:311-352 | over a queue or any byte stream, if a call returns, it took exactly the PDUs it received and they are a complete response to it; over a queue it takes those whatever its outcome |
| `Conversations.FaultEndsCall` | src/client.rs:192-352 | a call whose request went out and whose response breaks off with a fault at any point fails with the fault's status and leaves exactly what is behind the fault |
| `Conversations.RefusalEndsCall` | src/client.rs:192-352 | the same for a whole call: a refused packet after any partial response is the call's error |
| `Conversations.ExactCall` | src/client.rs:192-274 | without a provider or at LevelNone or Connect, and above 24 bytes: a call sends its whole plan or up to the first fault; in that case it fails and receives nothing, otherwise its outcome is that of the response |
| `Conversations.StaleDataNeverLeaks` | src/client.rs:192-352 | in every run over a queue or any byte stream, returned bytes come from received PDUs with the call's own id, and receiving a PDU of any type with the id of an earlier call gives exactly the call id error, so not even a fault status leaks, within 2^32-2 calls |
| `Conversations.MuteRunIsSilent` | src/client.rs:232-309 | with a limit of at most 24, or at PacketIntegrity or PacketPrivacy, every call of every run ends in the limit's or the level's own error and the wire stays as it was |
| `Conversations.Conversation` | src/client.rs:192-352 | if the input, queued or on the pipe, begins with any split of each call's answer, every call returns its own answer and exactly the rest is left |
| `Conversations.ConversationRequests` | src/client.rs:192-284 | and the server recovers exactly the requests of the run |
| `HandshakeProofs.OfferAligned` | src/client.rs:410-412 | bind bodies are multiples of four bytes, so their padding is 0 |
| `HandshakeProofs.OfferSucceedsIff` | src/client.rs:67-98 | an offer goes out iff counts and level are fine and it fits a fragment |
| `HandshakeProofs.OfferFidelity` | src/client.rs:67-98 | the offer decodes through packet, bind and list to contexts, provider identity and token iff at most 255 contexts and no provider or a non-empty token |
| `HandshakeProofs.InterfaceOffer` | src/client.rs:25-98 | for every interface the offer is these 72 bytes: header, limits, one context with id 0, uuid, major, minor, NDR32; and it reads back |
| `HandshakeProofs.Auth3Decodes` | src/client.rs:121-129 | AUTH3 decodes to its fixed body, the token and an unpadded trailer |
| `HandshakeProofs.HandshakeRun` | src/client.rs:50-154 | a successful bind took one PDU, sent the offer and AUTH3 exactly when there was an answer, and holds context, id 2 and the ack's limit |
| `HandshakeProofs.BindSucceedsIff` | src/client.rs:50-154 | with working sends, a bind succeeds iff the provider's token and the contexts fit an offer at a supported level, the answer accepts a proposed context, and the reply to a challenge is at most 65507 bytes |
| `HandshakeProofs.Auth3SucceedsIff` | src/client.rs:121-129 | AUTH3 goes out iff the level is supported and the token is at most 65507 bytes |
| `HandshakeProofs.EveryBindAttempt` | src/client.rs:50-154 | any attempt, successful or not, adds nothing, the offer, or offer and AUTH3 to the log and takes at most one PDU |
| `HandshakeProofs.RejectedBind` | src/client.rs:149-151 | for every provider, a bind nak ends the bind with the reason its two bytes name, or the error for unknown or missing bytes, after only the offer was sent |
| `HandshakeProofs.AcceptedBind` | src/client.rs:113-148 | for every provider that can answer the challenge, a server's acceptance binds the client to the first accepted context, after offer and AUTH3 |
| `BindOutcomes.UnaskedBind` | src/client.rs:55-65 | without a context, or when the provider refuses, nothing is sent and the bind ends in that error |
| `BindOutcomes.UnofferedBind` | src/client.rs:67-98 | an offer that cannot be encoded is not sent and its error is the bind's |
| `BindOutcomes.OfferRefusals` | src/client.rs:371-388 | more than 255 transfer syntaxes panic, and PacketIntegrity and PacketPrivacy are refused with the literal text |
| `BindOutcomes.LargeOffers` | src/pdu.rs:269-286 | at the other levels a token above 65535 bytes and an offer above 65535 bytes are refused, each with its error |
| `BindOutcomes.UnsupportedBindIsSilent` | src/client.rs:371-388 | every bind at PacketIntegrity or PacketPrivacy leaves the transport as it was and fails with the error that comes first |
| `BindOutcomes.FailedOffer` | src/client.rs:98 | an offer that cannot be sent ends the bind with the transport's error and nothing received |
| `BindOutcomes.NoAnswer` | src/client.rs:100 | a failed receive or bytes that are no packet end the bind with that error |
| `BindOutcomes.RefusedAnswer` | src/client.rs:109-153 | every other refused answer: wrong call id first, then a nak, another type, a bad ack body, unmatched results, the least rejection with its context, or no result; each with its error and nothing more sent |
| `BindOutcomes.ProviderIsAsked` | src/client.rs:60-131 | the provider is asked with the target and then with the challenge; the tokens are its answers to exactly that history |
| `BindOutcomes.BoundLevel` | src/client.rs:141-147 | the bound client works at its provider's level, or at none |
| `BindOutcomes.Auth3Bytes` | src/client.rs:117-131 | all bytes of AUTH3: header, four spaces, trailer without padding, token |
| `BindOutcomes.ChallengeOutcome` | src/client.rs:113-148 | after an acceptance with a challenge: the provider's refusal, a reply too long by either limit, an empty reply without AUTH3, or AUTH3; and the provider has seen target and challenge |
| `BindOutcomes.FailedAuth3` | src/client.rs:129 | an AUTH3 that cannot be sent fails the bind |
| `HandshakeProofs.Session` | src/client.rs:50-352 | for every provider and either kind of input: after a successful bind every call gets its own answer, and the server reads the offer, AUTH3 iff a challenge was answered, and then exactly the requests, with ids counting from 2 in the first accepted context |
| `HandshakeProofs.AnySession` | src/client.rs:50-284 | after a successful bind and any run of calls, failing ones included, the log is offer, AUTH3 iff a challenge was answered, and the requests, of which exactly those sent completely are recovered, with ids counting from 2 |
| `HandshakeProofs.ServedSession` | src/client.rs:50-352 | a server that accepts and then answers gets a bound client whose calls return those answers and whose log is offer, AUTH3 if any, and the requests |
| `Streams.CallArrives` | src/client.rs:252-271 | the bytes of a call, whether its sends fail or not, are PDUs of its plan, at most one more than were sent, and an incomplete part of the next; they are the whole plan iff the bytes are |
| `Streams.StreamRecovery` | src/client.rs:192-284 | a server framing the bytes that a run writes, any part of a failed write included, gets the calls' PDUs and runs dry, and has exactly the requests that are on the pipe as a whole, if nothing is written behind a torn PDU |
| `Streams.SessionStream` | src/client.rs:50-284 | a server framing the bytes of a whole session, whatever the calls' outcomes, gets offer, AUTH3 iff a challenge was answered, and the calls' PDUs, and has exactly the requests on the pipe, with ids counting from 2 in the first accepted context |
| `Streams.TornRequestMixes` | src/ncacn_np.rs:121-146 | a request torn behind its fixed part and followed by other bytes gives the server a message made of both, which is the call's own iff those bytes repeat the missing ones |
| `Streams.TearExample` | src/ncacn_np.rs:110-119 | a first send that fails after 24 of 25 bytes and any next call: the server takes a message that no call made |

## Left out

- StreamRecovery: bytes written behind a torn PDU are followed only up to the PDU they complete (`TornPduCompletes`, `TornRequestMixes`), not through the rest of the stream; a bind that fails after a torn offer is not followed on the server's side.
- NTLM and GSSAPI providers: foreign calls; only the provider interface and wire values are modelled.
- A provider whose level changes during its life: the level is a constant here.
- Typed calls: the NDR serializer is in another crate.
- Standard I/O pipes, wire dumps, tracing, debug output and error texts for display.
- Endpoint parsing, share and pipe names: simple string work.
- NDR64 and bind-time feature negotiation syntax ids: constants that pass through the same codec.
- Alter-context, ping, shutdown and other PDU kinds beyond their type codes.
- Byte order of bodies: the program reads and writes bodies little-endian whatever the label says.
- The accepted transfer syntax and the server's receive limit: the program checks neither.
- The panic of a debug build when a fragment length sum overflows: the model wraps, as a release build does.
- The text of errors from the data representation reader and from real transports.
