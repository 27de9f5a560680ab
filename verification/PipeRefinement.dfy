/** A client over the byte pipe behaves as one over a queue of PDUs. */
module PipeRefinement {
  import opened Bytes
  import opened WireCodes
  import opened Errors
  import opened Pdu
  import opened PduProofs
  import opened Wires
  import opened Framing
  import opened Calls
  import opened Fragmentation
  import opened Bind
  import opened Handshake
  import opened Runs
  import opened Reassembly
  import opened Conversations

  // ---------------------------------------------------------------- refinement of calls and runs

  /** A result up to the wording of transport errors, which the two transports choose differently. */
  function Observed(r: Result<seq<byte>>): Result<seq<byte>> {
    if r.Failure? && r.error.Transport? then Failure(Transport("")) else r
  }

  /** The pipe holds exactly the queue's PDUs, back to back; a last one may be cut short. */
  ghost predicate Carries(pipe: Incoming, queue: Incoming) {
    && queue.Queue? && AllFramable(queue.pdus)
    && pipe.Pipe? && exists tail :: Incomplete(tail) && pipe.stream == Flatten(queue.pdus) + tail
  }

  lemma ReceiveRefines(pipe: Incoming, queue: Incoming)
    requires Carries(pipe, queue)
    ensures Carries(Receive(pipe).rest, Receive(queue).rest)
    ensures Observed(Receive(pipe).pdu) == Observed(Receive(queue).pdu)
    ensures Receive(pipe).pdu.Success? == Receive(queue).pdu.Success?
  {
    hide Framable, FrameFrom, Incomplete;
    var pdus := queue.pdus;
    var tail :| Incomplete(tail) && pipe.stream == Flatten(pdus) + tail;
    if pdus == [] {
      assert pipe.stream == tail && Flatten(pdus) + [] == [];
      DryIffIncomplete(tail);
      NothingIsIncomplete();
    } else {
      var rest := Flatten(pdus[1..]) + tail;
      assert pipe.stream == pdus[0] + rest;
      FrameHead(pdus[0], rest);
    }
  }

  lemma {:induction false} ReassembleRefines(pipe: Incoming, queue: Incoming, level: Option<AuthLevel>,
                                             callId: u32, collected: seq<byte>, sawFirst: bool)
    requires Carries(pipe, queue)
    ensures var p, q := Reassemble(pipe, level, callId, collected, sawFirst),
                        Reassemble(queue, level, callId, collected, sawFirst);
            Carries(p.rest, q.rest) && Observed(p.stub) == Observed(q.stub)
    decreases queue.Size()
  {
    hide Receive, DecodePacket, ResponseStub, Carries;
    ReceiveRefines(pipe, queue);
    var rp, rq := Receive(pipe), Receive(queue);
    if rq.pdu.Success? && DecodePacket(rq.pdu.value).Success? && Supported(level) {
      var packet := DecodePacket(rq.pdu.value).value;
      var stub := ResponseStub(packet, callId, sawFirst);
      if stub.Success? && !HasLast(packet.header.flags) {
        ReassembleRefines(rp.rest, rq.rest, level, callId, collected + stub.value, true);
      }
    }
  }

  /** Two clients that differ only in how the same PDUs wait for them. */
  ghost predicate Refines(p: ClientState, q: ClientState) {
    Carries(p.wire.incoming, q.wire.incoming) && p == q.(wire := q.wire.(incoming := p.wire.incoming))
  }

  lemma {:induction false} SendIgnoresIncoming(w: Wire, incoming: Incoming, packets: seq<PduPacket>)
    ensures var s, t := SendPackets(w, packets), SendPackets(w.(incoming := incoming), packets);
            t == Stepped(s.wire.(incoming := incoming), s.result)
    decreases |packets|
  {
    hide PacketBytes;
    if packets != [] && PacketBytes(packets[0]).Success? {
      SendIgnoresIncoming(SendOn(w, PacketBytes(packets[0]).value).wire, incoming, packets[1..]);
    }
  }

  lemma CallRefines(p: ClientState, q: ClientState, call: Invocation)
    requires Refines(p, q)
    ensures var a, b := Call(p, call.opnum, call.stub), Call(q, call.opnum, call.stub);
            Refines(a.state, b.state) && Observed(a.result) == Observed(b.result)
  {
    hide Reassemble, SendPackets, FragmentPlan, Carries;
    if q.maxXmitFrag > CALL_OVERHEAD {
      SendIgnoresIncoming(
        q.wire, p.wire.incoming,
        FragmentPlan(Target(q.callId, q.contextId, call.opnum), q.maxXmitFrag, call.stub));
    }
    ReassembleRefines(p.wire.incoming, q.wire.incoming, q.level, q.callId, [], false);
  }

  /**
   * The byte stream refines the message queue: over the concatenation of framable PDUs, even if the
   * connection is cut in the middle of another one, every run of calls sends the same PDUs and has
   * the same outcomes, call by call, as over the PDUs queued.
   */
  lemma {:induction false} RunRefines(ps: seq<ClientState>, qs: seq<ClientState>, calls: seq<Invocation>,
                                      pr: seq<Result<seq<byte>>>, qr: seq<Result<seq<byte>>>, k: nat)
    requires IsRun(ps, calls, pr) && IsRun(qs, calls, qr) && Refines(ps[0], qs[0]) && k <= |calls|
    ensures Refines(ps[k], qs[k])
    ensures forall i :: 0 <= i < k ==> Observed(pr[i]) == Observed(qr[i])
    ensures forall i :: 0 <= i < k ==> pr[i] == qr[i] || (TransportFailure(pr[i]) && TransportFailure(qr[i]))
  {
    hide Call, Refines, Observed, TransportFailure;
    if k > 0 {
      RunRefines(ps, qs, calls, pr, qr, k - 1);
      assert IsCall(ps[k - 1], calls[k - 1], ps[k], pr[k - 1]);
      assert IsCall(qs[k - 1], calls[k - 1], qs[k], qr[k - 1]);
      CallRefines(ps[k - 1], qs[k - 1], calls[k - 1]);
      ObservedAlike(pr[k - 1], qr[k - 1]);
    }
  }

  predicate TransportFailure(r: Result<seq<byte>>) {
    r.Failure? && r.error.Transport?
  }

  lemma ObservedAlike(r: Result<seq<byte>>, q: Result<seq<byte>>)
    requires Observed(r) == Observed(q)
    ensures r == q || (TransportFailure(r) && TransportFailure(q))
  {
  }

  // ---------------------------------------------------------------- binding over the pipe

  /** Two bind attempts end alike: both bound, to clients that correspond, or with the same error. */
  ghost predicate EndsAlike(p: Bound, q: Bound) {
    && p.provider == q.provider
    && Carries(p.wire.incoming, q.wire.incoming)
    && p.wire == q.wire.(incoming := p.wire.incoming)
    && match (p.result, q.result)
       case (Success(c), Success(d)) => Refines(c, d)
       case (Failure(e), Failure(f)) => e == f || (e.Transport? && f.Transport?)
       case _ => false
  }

  lemma CompleteRefines(w: Wire, pipe: Incoming, provider: Option<Provider>, challenge: seq<byte>,
                        contextId: u16, maxXmitFrag: u16)
    requires Carries(pipe, w.incoming)
    ensures EndsAlike(CompleteBind(w.(incoming := pipe), provider, challenge, contextId, maxXmitFrag),
                      CompleteBind(w, provider, challenge, contextId, maxXmitFrag))
  {
    hide Carries, Auth3Pdu;
  }

  lemma JudgeRefines(w: Wire, pipe: Incoming, proposed: seq<PresentationContext>, provider: Option<Provider>,
                     response: PduPacket)
    requires Carries(pipe, w.incoming)
    ensures EndsAlike(JudgeAnswer(w.(incoming := pipe), proposed, provider, response),
                      JudgeAnswer(w, proposed, provider, response))
  {
    hide Carries, ParseBindAck, Negotiated, DecodeBindNak, CompleteBind;
    var ack := ParseBindAck(response.body);
    if ack.Success? && Negotiated(ack.value.results, proposed).Success? {
      CompleteRefines(w, pipe, provider, response.authValue,
                      Negotiated(ack.value.results, proposed).value.contextId, ack.value.maxXmitFrag);
    }
  }

  lemma AnswerRefines(w: Wire, pipe: Incoming, proposed: seq<PresentationContext>, provider: Option<Provider>)
    requires Carries(pipe, w.incoming)
    ensures EndsAlike(AwaitAnswer(w.(incoming := pipe), proposed, provider), AwaitAnswer(w, proposed, provider))
  {
    hide Receive, DecodePacket, Carries, JudgeAnswer;
    ReceiveRefines(pipe, w.incoming);
    var received := Receive(w.incoming);
    if received.pdu.Success? && DecodePacket(received.pdu.value).Success? {
      JudgeRefines(w.(incoming := received.rest), Receive(pipe).rest, proposed, provider,
                   DecodePacket(received.pdu.value).value);
    }
  }

  /** A bind over the byte pipe ends as the bind over the queued PDUs does. */
  lemma BindRefines(w: Wire, pipe: Incoming, proposed: seq<PresentationContext>, target: string,
                    provider: Option<Provider>)
    requires Carries(pipe, w.incoming)
    ensures EndsAlike(BindClient(w.(incoming := pipe), proposed, target, provider),
                      BindClient(w, proposed, target, provider))
  {
    hide Offer, AwaitAnswer, Carries;
    forall v: Wire, asked: Option<Provider> | v.incoming == w.incoming
      ensures EndsAlike(AwaitAnswer(v.(incoming := pipe), proposed, asked), AwaitAnswer(v, proposed, asked))
    {
      AnswerRefines(v, pipe, proposed, asked);
    }
  }

  // ---------------------------------------------------------------- leaks over the pipe

  /** A run over a queue only ever takes PDUs off its front. */
  lemma {:induction false} QueueRunSuffix(states: seq<ClientState>, calls: seq<Invocation>,
                                          results: seq<Result<seq<byte>>>, k: nat)
    returns (n: nat)
    requires IsRun(states, calls, results) && k <= |calls| && states[0].wire.incoming.Queue?
    ensures n <= |states[0].wire.incoming.pdus|
    ensures states[k].wire.incoming == Queue(states[0].wire.incoming.pdus[n..])
  {
    hide Call, HeardBy;
    n := 0;
    if k > 0 {
      var pdus := states[0].wire.incoming.pdus;
      var m := QueueRunSuffix(states, calls, results, k - 1);
      assert IsCall(states[k - 1], calls[k - 1], states[k], results[k - 1]);
      CallTakesOwnAnswers(states[k - 1], calls[k - 1]);
      n := m + |HeardBy(states[k - 1], calls[k - 1])|;
      assert states[k].wire.incoming.pdus == pdus[m..][n - m..] == pdus[n..];
    }
  }

  /**
   * On a stream in which receiving never loses its place, no byte of one PDU ends up in another
   * call: each call takes whole PDUs of the server, in order; what it returns is the stubs of PDUs
   * that carry its own identifier; and a PDU of an earlier call makes it fail.
   */
  lemma WellFramedNeverLeaks(states: seq<ClientState>, calls: seq<Invocation>, results: seq<Result<seq<byte>>>,
                             pdus: seq<seq<byte>>, tail: seq<byte>, k: nat)
    returns (n: nat, taken: seq<seq<byte>>)
    requires IsRun(states, calls, results) && states[0].callId >= 1
    requires states[0].wire.incoming == Pipe(Flatten(pdus) + tail) && AllFramable(pdus) && Incomplete(tail)
    requires k < |calls|
    ensures n + |taken| <= |pdus| && taken == pdus[n..n + |taken|]
    ensures Carries(states[k].wire.incoming, Queue(pdus[n..]))
    ensures Carries(states[k + 1].wire.incoming, Queue(pdus[n + |taken|..]))
    ensures results[k].Success? ==>
              && (forall i :: 0 <= i < |taken| ==> IsResponse(taken[i], states[k].callId))
              && results[k].value == Flatten(Stubs(taken))
    ensures forall i, j | 0 <= i < |taken| && 0 <= j < k && k - j < ID_PERIOD ::
              CarriesId(taken[i], states[j].callId) ==>
                results[k] == Failure(InvalidPdu("response call id does not match request"))
  {
    hide Call, HeardBy, CarriesId, Stubs, IsResponse, Carries, Took, IsRun;
    RunShape(states, calls, results);
    var start := states[0].(wire := states[0].wire.(incoming := Queue(pdus)));
    PipeCarries(pdus, tail);
    var qs, qr := RunExists(start, calls);
    RunShape(qs, calls, qr);
    forall j | 0 <= j <= k ensures states[j].callId == qs[j].callId {
      RunRefines(states, qs, calls, results, qr, j);
    }
    RunRefines(states, qs, calls, results, qr, k);
    RunRefines(states, qs, calls, results, qr, k + 1);
    n, taken := QueueRunStep(qs, calls, qr, k);
    StaleDataNeverLeaks(qs, calls, qr, k);
  }

  /** In a run over a queue each call takes the PDUs it receives off the front. */
  lemma QueueRunStep(states: seq<ClientState>, calls: seq<Invocation>, results: seq<Result<seq<byte>>>, k: nat)
    returns (n: nat, taken: seq<seq<byte>>)
    requires IsRun(states, calls, results) && k < |calls| && states[0].wire.incoming.Queue?
    ensures var pdus := states[0].wire.incoming.pdus;
            && taken == HeardBy(states[k], calls[k])
            && n + |taken| <= |pdus| && taken == pdus[n..n + |taken|]
            && states[k].wire.incoming == Queue(pdus[n..])
            && states[k + 1].wire.incoming == Queue(pdus[n + |taken|..])
  {
    hide Call, HeardBy;
    var pdus := states[0].wire.incoming.pdus;
    n := QueueRunSuffix(states, calls, results, k);
    taken := HeardBy(states[k], calls[k]);
    assert IsCall(states[k], calls[k], states[k + 1], results[k]);
    CallTakesOwnAnswers(states[k], calls[k]);
    assert pdus[n..][|taken|..] == pdus[n + |taken|..] && pdus[n..][..|taken|] == pdus[n..n + |taken|];
  }

  lemma PipeCarries(pdus: seq<seq<byte>>, tail: seq<byte>)
    requires AllFramable(pdus) && Incomplete(tail)
    ensures Carries(Pipe(Flatten(pdus) + tail), Queue(pdus))
  {
    hide AllFramable, Incomplete;
  }

  /**
   * On a stream that is not well framed a call can return another call's bytes. Whatever sixteen
   * bytes the framer refuses: the call that meets them fails, and if the bytes after them read as an
   * answer to the next call, the next call returns them.
   */
  lemma RefusedHeadLeaks(s: ClientState, first: Invocation, second: Invocation, head: seq<byte>,
                         parts: seq<ResponsePdu>)
    requires Ready(s) && RefusedHead(head) && parts != [] && PartsFit(parts)
    requires var body := Flatten(EncodeAll(ResponseFragments(NextCallId(s.callId), true, parts)));
             s.wire.incoming == Pipe(head + body)
    ensures var a := Call(s, first.opnum, first.stub);
            var b := Call(a.state, second.opnum, second.stub);
            a.result.Failure? && b.result == Success(Flatten(PartStubs(parts)))
  {
    hide SendRequest, EncodeAll, ResponseFragments, PartStubs, PartsFit, RefusedHead, FrameFrom;
    var answer := EncodeAll(ResponseFragments(NextCallId(s.callId), true, parts));
    RefusedHeadIsSkipped(head, Flatten(answer));
    ReadySends(s, first);
    var a := Call(s, first.opnum, first.stub);
    assert a.state.wire.incoming == Pipe(Flatten(answer));
    assert Flatten(answer) + [] == Flatten(answer);
    assert Took(a.state.wire.incoming, answer, Pipe([]));
    CallAnswered(a.state, second, parts, Pipe([]));
  }

  /** A client with call id 1 whose whole input is one fragment, on a pipe or in a queue. */
  function OneFragmentClient(incoming: Incoming): ClientState {
    ClientState(0, 1, DEFAULT_MAX_XMIT_FRAG, None, Wire(incoming, [], []))
  }

  /** A response to call 2, carried as the body of a fragment of call 1 with RPC version 4. */
  function NestedFragment(part: ResponsePdu): PduPacket {
    PduPacket(NewHeader(Response, FIRST_AND_LAST, 1).(rpcVers := 4),
              Flatten(EncodeAll(ResponseFragments(2, true, [part]))), None, [])
  }

  lemma NestedFragmentEncodes(part: ResponsePdu)
    requires |part.stub| <= MAX_CHUNK - COMMON_HEADER_LEN
    ensures PacketBytes(NestedFragment(part)).Success?
    ensures var outer := NestedFragment(part);
            Encoding(outer) == HeaderBytes(Normalised(outer).header) + outer.body
  {
    hide HeaderBytes;
    var packets := ResponseFragments(2, true, [part]);
    var flags := FragmentFlags(true, true);
    PlainPacketRoundTrip(Response, 2, flags, ResponseBody(part));
    assert EncodeAll(packets) == [Encoding(FromResponseWithFlags(2, flags, part))];
    assert |Flatten(EncodeAll(packets))| == |Encoding(packets[0])| + |Flatten([])|;
  }

  /** Over the pipe, call 2 returns bytes from inside call 1's fragment. */
  lemma NestedFragmentLeaks(part: ResponsePdu, call: Invocation)
    requires |part.stub| <= MAX_CHUNK - COMMON_HEADER_LEN
    ensures var a := Call(OneFragmentClient(Pipe(Encoding(NestedFragment(part)))), call.opnum, call.stub);
            && PacketBytes(NestedFragment(part)).Success?
            && a.result.Failure? && a.state.callId == 2
            && Call(a.state, call.opnum, call.stub).result == Success(part.stub)
  {
    hide Call, EncodeAll, ResponseFragments, RefusedHead, PartStubs, HeaderBytes, DecodeHeader, PacketBytes, Encoding;
    var outer := NestedFragment(part);
    var s := OneFragmentClient(Pipe(Encoding(outer)));
    NestedFragmentEncodes(part);
    NestedHeadRefused(Normalised(outer).header);
    RefusedHeadLeaks(s, call, call, HeaderBytes(Normalised(outer).header), [part]);
    LeakedStub(part);
    NextIdOfFirst(s, call);
  }

  /** The leak at a concrete input. */
  lemma LeakExample(call: Invocation)
    ensures var pdu := Encoding(NestedFragment(ResponsePdu(0, 0, 0, [0xAA])));
            var a := Call(OneFragmentClient(Pipe(pdu)), call.opnum, call.stub);
            a.result.Failure? && Call(a.state, call.opnum, call.stub).result == Success([0xAA])
  {
    hide Call, Encoding, NestedFragment;
    NestedFragmentLeaks(ResponsePdu(0, 0, 0, [0xAA]), call);
  }

  lemma NestedHeadRefused(h: PduHeader)
    requires h.rpcVers == 4
    ensures RefusedHead(HeaderBytes(h))
  {
    hide HeaderBytes, DecodeHeader;
    UnreadableHeaderFails(h, []);
    assert HeaderBytes(h) + [] == HeaderBytes(h);
  }

  lemma LeakedStub(part: ResponsePdu)
    ensures Flatten(PartStubs([part])) == part.stub
  {
    assert PartStubs([part]) == [part.stub];
    assert Flatten([part.stub]) == part.stub + Flatten([]);
  }

  lemma NextIdOfFirst(s: ClientState, call: Invocation)
    ensures Call(s, call.opnum, call.stub).state.callId == NextCallId(s.callId)
  {
  }

  /** Over a queue an undecodable PDU fails the call that takes it, and is gone. */
  lemma NoLeakOverQueue(pdu: seq<byte>, behind: seq<seq<byte>>, s: ClientState, call: Invocation)
    requires s.wire.incoming == Queue([pdu] + behind) && DecodePacket(pdu).Failure?
    ensures var r := Call(s, call.opnum, call.stub);
            && r.result.Failure?
            && r.state.wire.incoming == (if SendsAll(s, call) then Queue(behind) else s.wire.incoming)
  {
    hide SendRequest, DecodePacket, ResponseStub;
    var pdus := s.wire.incoming.pdus;
    assert pdus[0] == pdu && pdus[1..] == behind;
  }
}
