/** Safety and progress of whole runs: no leaks between calls, silence, and full conversations. */
module Conversations {
  import opened Bytes
  import opened WireCodes
  import opened Errors
  import opened Pdu
  import opened Wires
  import opened Framing
  import opened Calls
  import opened Fragmentation
  import opened Reassembly
  import opened Runs

  // ---------------------------------------------------------------- no leaks between calls

  /** The PDUs a call receives: none if its request did not go out. */
  ghost function HeardBy(s: ClientState, call: Invocation): (pdus: seq<seq<byte>>) {
    if SendsAll(s, call) then Heard(s.wire.incoming, s.callId, false) else []
  }

  lemma SendingNeedsSupport(s: ClientState, call: Invocation)
    requires SendsAll(s, call)
    ensures !Mute(s)
  {
  }

  /**
   * Over a queue or any byte stream: if a call returns, the PDUs it received are a complete response
   * to it, nothing else was taken, and the result is their stubs. Over a queue it takes exactly the
   * PDUs it received, whatever its outcome.
   */
  lemma CallTakesOwnAnswers(s: ClientState, call: Invocation)
    ensures var r, heard := Call(s, call.opnum, call.stub), HeardBy(s, call);
            && (r.result.Success? || s.wire.incoming.Queue? ==>
                  Took(s.wire.incoming, heard, r.state.wire.incoming))
            && (r.result.Success? ==>
                  ResponseTrain(heard, s.callId, false) && r.result.value == Flatten(Stubs(heard)))
  {
    hide SendRequest, Reassemble, ResponseTrain, Stubs, Took, Heard, Mute;
    var r := Call(s, call.opnum, call.stub);
    if SendsAll(s, call) {
      SendingNeedsSupport(s, call);
      MuteMeans(s);
      var heard := Heard(s.wire.incoming, s.callId, false);
      if s.wire.incoming.Queue? {
        QueueTakesHeard(s.wire.incoming, s.level, s.callId, [], false);
      }
      if r.result.Success? {
        ReassembledTrain(s.wire.incoming, s.level, s.callId, [], false);
        TrainReassembles(s.wire.incoming, heard, r.state.wire.incoming, s.level, s.callId, [], false);
        assert [] + Flatten(Stubs(heard)) == Flatten(Stubs(heard));
      }
    } else {
      TookNothing(s.wire.incoming, r.state.wire.incoming);
    }
  }

  predicate CarriesId(pdu: seq<byte>, callId: u32) {
    match DecodePacket(pdu)
    case Success(p) => p.header.callId == callId
    case Failure(_) => false
  }

  /** A PDU with another identifier among those a call receives ends it with that error. */
  lemma ForeignPduEndsCall(s: ClientState, call: Invocation, i: nat, other: u32)
    requires i < |HeardBy(s, call)| && CarriesId(HeardBy(s, call)[i], other) && other != s.callId
    ensures Call(s, call.opnum, call.stub).result ==
            Failure(InvalidPdu("response call id does not match request"))
  {
    hide SendRequest, Reassemble, Mute, DecodePacket, Heard;
    SendingNeedsSupport(s, call);
    MuteMeans(s);
    ForeignHeard(s.wire.incoming, s.level, s.callId, [], false, i);
  }

  /**
   * How a call fails: a packet that is refused after any beginning of its response ends it with the
   * error of that packet, and exactly what is behind the packet is left.
   */
  lemma RefusalEndsCall(s: ClientState, call: Invocation, train: seq<seq<byte>>, pdu: seq<byte>, rest: Incoming)
    requires SendsAll(s, call) && PartialResponse(train, s.callId, false)
    requires Framable(pdu) && Took(s.wire.incoming, train + [pdu], rest)
    ensures var r := Call(s, call.opnum, call.stub);
            match DecodePacket(pdu)
            case Failure(e) => r.result == Failure(e) && r.state.wire.incoming == rest
            case Success(p) =>
              match Refusal(p, s.callId, train != [])
              case Some(e) => r.result == Failure(e) && r.state.wire.incoming == rest
              case None => true
  {
    hide SendRequest, Reassemble, PartialResponse, Took, Mute, DecodePacket, Framable, Refusal;
    SendingNeedsSupport(s, call);
    MuteMeans(s);
    RefusalEndsResponse(s.wire.incoming, train, pdu, rest, s.level, s.callId);
  }

  /** A call whose response breaks off with a fault fails with the fault's status and takes no more. */
  lemma FaultEndsCall(s: ClientState, call: Invocation, train: seq<seq<byte>>, flags: byte, fault: FaultPdu,
                      rest: Incoming)
    requires SendsAll(s, call) && |FaultBody(fault)| <= 0xFFFF - COMMON_HEADER_LEN
    requires PartialResponse(train, s.callId, false)
    requires Took(s.wire.incoming,
                  train + [Encoding(FromBodyWithFlags(Fault, s.callId, flags, FaultBody(fault)))], rest)
    ensures var r := Call(s, call.opnum, call.stub);
            r.result == Failure(RpcFault(fault.status)) && r.state.wire.incoming == rest
  {
    hide SendRequest, Reassemble, PartialResponse, Took, Encoding, FaultBody, Mute;
    SendingNeedsSupport(s, call);
    MuteMeans(s);
    FaultEndsResponse(s.wire.incoming, train, s.callId, flags, fault, rest, s.level);
  }

  /**
   * Stale data never leaks. In every run over a queue or any byte stream, whatever the outcomes:
   * what a call returns is made of PDUs that carry its own identifier, and a call that receives a
   * PDU carrying the identifier of an earlier call fails, for all pairs of calls less than 2^32-1
   * apart.
   */
  lemma StaleDataNeverLeaks(states: seq<ClientState>, calls: seq<Invocation>, results: seq<Result<seq<byte>>>,
                            k: nat)
    requires IsRun(states, calls, results) && states[0].callId >= 1 && k < |calls|
    ensures var heard := HeardBy(states[k], calls[k]);
            && (results[k].Success? ==>
                  && Took(states[k].wire.incoming, heard, states[k + 1].wire.incoming)
                  && (forall i :: 0 <= i < |heard| ==> IsResponse(heard[i], states[k].callId))
                  && results[k].value == Flatten(Stubs(heard)))
            && (forall i, j | 0 <= i < |heard| && 0 <= j < k && k - j < ID_PERIOD ::
                  CarriesId(heard[i], states[j].callId) ==>
                    results[k] == Failure(InvalidPdu("response call id does not match request")))
  {
    hide Call, DecodePacket, Stubs, HeardBy, Took;
    assert IsCall(states[k], calls[k], states[k + 1], results[k]);
    CallTakesOwnAnswers(states[k], calls[k]);
    forall j: nat | j < k && k - j < ID_PERIOD ensures states[j].callId != states[k].callId {
      CallIdsDistinct(states, calls, results, j, k);
    }
    forall i, j | 0 <= i < |HeardBy(states[k], calls[k])| && 0 <= j < k && k - j < ID_PERIOD
      ensures CarriesId(HeardBy(states[k], calls[k])[i], states[j].callId) ==>
                results[k] == Failure(InvalidPdu("response call id does not match request"))
    {
      if CarriesId(HeardBy(states[k], calls[k])[i], states[j].callId) {
        ForeignPduEndsCall(states[k], calls[k], i, states[j].callId);
      }
    }
  }

  // ---------------------------------------------------------------- silence

  /** A client that cannot send: its limit leaves no room, or its level is not supported. */
  predicate Mute(s: ClientState) {
    s.maxXmitFrag <= 24 || s.level == Some(PacketIntegrity) || s.level == Some(PacketPrivacy)
  }

  lemma MuteMeans(s: ClientState)
    ensures !Mute(s) <==> Supported(s.level) && s.maxXmitFrag > CALL_OVERHEAD
  {
  }

  /** Why a mute client cannot send. */
  function MuteError(s: ClientState): Error {
    if s.maxXmitFrag <= 24 then InvalidPdu("max transmit fragment is too small")
    else if s.level == Some(PacketIntegrity) then Auth("RPC auth level PacketIntegrity is not supported in v1")
    else Auth("RPC auth level PacketPrivacy is not supported in v1")
  }

  lemma MuteCall(s: ClientState, call: Invocation)
    requires Mute(s)
    ensures var r := Call(s, call.opnum, call.stub);
            r.state.wire == s.wire && r.result == Failure(MuteError(s))
  {
    hide Reassemble, SendPackets, FragmentPlan;
  }

  /**
   * A mute client is silent: every run of calls with any stubs ends in the error of the limit or the
   * level and leaves the sent log, the incoming queue and the fault schedule exactly as they were.
   */
  lemma {:induction false} MuteRunIsSilent(states: seq<ClientState>, calls: seq<Invocation>,
                                           results: seq<Result<seq<byte>>>, k: nat)
    requires IsRun(states, calls, results) && k <= |calls| && Mute(states[0])
    ensures states[k].wire == states[0].wire
    ensures forall i :: 0 <= i < k ==> results[i] == Failure(MuteError(states[0]))
  {
    hide Call, MuteError;
    if k > 0 {
      MuteRunIsSilent(states, calls, results, k - 1);
      RunKeepsConfig(states, calls, results, k - 1);
      MuteCall(states[k - 1], calls[k - 1]);
      SameMuteError(states[k - 1], states[0]);
      assert IsCall(states[k - 1], calls[k - 1], states[k], results[k - 1]);
    }
  }

  lemma SameMuteError(s: ClientState, t: ClientState)
    requires s.maxXmitFrag == t.maxXmitFrag && s.level == t.level
    ensures MuteError(s) == MuteError(t) && Mute(s) == Mute(t)
  {
  }

  /**
   * What any other client sends. A call sends its whole plan, or up to the first scheduled fault,
   * where it fails and receives nothing; otherwise its outcome is that of the response.
   */
  lemma ExactCall(s: ClientState, call: Invocation)
    requires !Mute(s)
    ensures var plan := EncodeAll(FragmentPlan(Target(s.callId, s.contextId, call.opnum), s.maxXmitFrag, call.stub));
            var n := Successes(s.wire.faults, |plan|);
            var sent, r := SentUpTo(s.wire, plan, n), Call(s, call.opnum, call.stub);
            var response := Reassemble(s.wire.incoming, s.level, s.callId, [], false);
            && r.state.callId == NextCallId(s.callId)
            && (n < |plan| ==> r.result == Failure(Transport("send failed")) && r.state.wire == sent.wire)
            && (n == |plan| ==> r.result == response.stub
                                && r.state.wire == sent.wire.(incoming := response.rest))
  {
    hide FragmentPlan, SendPackets, EncodeAll, Reassemble;
    MuteMeans(s);
    var t := Target(s.callId, s.contextId, call.opnum);
    PlanEncodes(t, s.maxXmitFrag, call.stub);
    ExactSend(s.wire, FragmentPlan(t, s.maxXmitFrag, call.stub));
  }

  // ---------------------------------------------------------------- conversations

  /** A client that can send, with no send fault ahead. */
  predicate Ready(s: ClientState) {
    !Mute(s) && NoFaults(s.wire)
  }

  predicate AnswersFit(answers: seq<seq<ResponsePdu>>) {
    forall i :: 0 <= i < |answers| ==> answers[i] != [] && PartsFit(answers[i])
  }

  /** The PDUs of a server that answers successive calls, each in any number of parts. */
  function AnswerPdus(callId: u32, answers: seq<seq<ResponsePdu>>): (pdus: seq<seq<byte>>)
    decreases |answers|
  {
    if answers == [] then []
    else EncodeAll(ResponseFragments(callId, true, answers[0])) + AnswerPdus(NextCallId(callId), answers[1..])
  }

  lemma ReadySends(s: ClientState, call: Invocation)
    requires Ready(s)
    ensures SendsAll(s, call)
    ensures NoFaults(SendRequest(s, s.callId, call.opnum, call.stub).wire)
  {
    hide SendPackets, FragmentPlan;
    var t := Target(s.callId, s.contextId, call.opnum);
    PlanEncodes(t, s.maxXmitFrag, call.stub);
    FaultFreeSend(s.wire, FragmentPlan(t, s.maxXmitFrag, call.stub));
  }

  /** One answered call returns the answer, keeps the client ready and leaves later input alone. */
  lemma CallAnswered(s: ClientState, call: Invocation, parts: seq<ResponsePdu>, rest: Incoming)
    requires Ready(s) && parts != [] && PartsFit(parts)
    requires Took(s.wire.incoming, EncodeAll(ResponseFragments(s.callId, true, parts)), rest)
    ensures var r := Call(s, call.opnum, call.stub);
            && r.result == Success(Flatten(PartStubs(parts)))
            && r.state.wire.incoming == rest
            && r.state.callId == NextCallId(s.callId)
            && Ready(r.state)
  {
    hide SendRequest, Reassemble, EncodeAll, ResponseFragments, PartStubs, Took;
    ReadySends(s, call);
    AnySplitRoundTrip(s.wire.incoming, s.callId, parts, rest, s.level);
  }

  /**
   * Conversation. If the input, queued or on the pipe, begins with any split of an answer to each
   * call of a run, in order, then every call returns its own answer and exactly the input after the
   * answers is left.
   */
  lemma {:induction false} Conversation(states: seq<ClientState>, calls: seq<Invocation>,
                                        results: seq<Result<seq<byte>>>,
                                        answers: seq<seq<ResponsePdu>>, rest: Incoming)
    requires IsRun(states, calls, results) && |answers| == |calls| && AnswersFit(answers)
    requires Ready(states[0])
    requires Took(states[0].wire.incoming, AnswerPdus(states[0].callId, answers), rest)
    ensures forall i :: 0 <= i < |calls| ==> results[i] == Success(Flatten(PartStubs(answers[i])))
    ensures forall i :: 0 <= i < |states| ==> Ready(states[i])
    ensures states[|calls|].wire.incoming == rest
    decreases |calls|
  {
    hide Call, EncodeAll, ResponseFragments, PartStubs, Ready, PartsFit, Took;
    if calls == [] {
      TookNothing(states[0].wire.incoming, rest);
    } else {
      var first := EncodeAll(ResponseFragments(states[0].callId, true, answers[0]));
      var others := AnswerPdus(NextCallId(states[0].callId), answers[1..]);
      var between := TookBoth(states[0].wire.incoming, first, others, rest);
      assert IsCall(states[0], calls[0], states[1], results[0]);
      CallAnswered(states[0], calls[0], answers[0], between);
      RunTail(states, calls, results);
      Conversation(states[1..], calls[1..], results[1..], answers[1..], rest);
      forall i | 0 <= i < |calls| ensures results[i] == Success(Flatten(PartStubs(answers[i]))) {
        if i > 0 {
          assert results[1..][i - 1] == results[i] && answers[1..][i - 1] == answers[i];
        }
      }
      forall i | 0 <= i < |states| ensures Ready(states[i]) {
        if i > 0 {
          assert states[1..][i - 1] == states[i];
        }
      }
    }
  }

  lemma RunTail(states: seq<ClientState>, calls: seq<Invocation>, results: seq<Result<seq<byte>>>)
    requires IsRun(states, calls, results) && calls != []
    ensures IsRun(states[1..], calls[1..], results[1..])
  {
  }

  /** The messages of all calls of a run. */
  function Messages(states: seq<ClientState>, calls: seq<Invocation>): (ms: seq<Message>)
    requires |states| > |calls|
  {
    seq(|calls|, i requires 0 <= i < |calls| => MessageOf(states[i], calls[i]))
  }

  lemma {:induction false} ReadyRunDelivers(states: seq<ClientState>, calls: seq<Invocation>)
    requires |states| > |calls| && forall i :: 0 <= i < |calls| ==> Ready(states[i])
    ensures Delivered(states, calls) == Messages(states, calls)
    decreases |calls|
  {
    hide SendsAll, MessageOf, Ready;
    if calls != [] {
      var n := |calls| - 1;
      ReadyRunDelivers(states, calls[..n]);
      ReadySends(states[n], calls[n]);
      assert Messages(states, calls) == Messages(states, calls[..n]) + [MessageOf(states[n], calls[n])];
    }
  }

  /** And the server, reading the log, gets exactly the requests of the run, in order. */
  lemma ConversationRequests(states: seq<ClientState>, calls: seq<Invocation>, results: seq<Result<seq<byte>>>)
    returns (log: seq<seq<byte>>)
    requires IsRun(states, calls, results)
    requires forall i :: 0 <= i < |calls| ==> Ready(states[i])
    ensures states[|calls|].wire.sent == states[0].wire.sent + log
    ensures Regroup(Regrouped([], None), log) == Regrouped(Messages(states, calls), None)
  {
    hide Regroup, Delivered, Ready;
    log := RunRecovery(states, calls, results, Regrouped([], None));
    ReadyRunDelivers(states, calls);
    assert [] + Messages(states, calls) == Messages(states, calls);
    if calls != [] {
      ReadySends(states[|calls| - 1], calls[|calls| - 1]);
    }
  }
}
