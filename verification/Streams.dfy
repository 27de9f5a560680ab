/** The bytes a run really puts on the pipe, failed writes included, and what a server makes of them. */
module Streams {
  import opened Bytes
  import opened WireCodes
  import opened Errors
  import opened Pdu
  import opened Wires
  import opened Framing
  import opened Calls
  import opened Fragmentation
  import opened Bind
  import opened BindProofs
  import opened Handshake
  import opened HandshakeProofs
  import opened Runs
  import opened Conversations

  // ---------------------------------------------------------------- what is written

  /** The entry of a list at `n`; empty behind its end. */
  function Next(plan: seq<seq<byte>>, n: nat): seq<byte> {
    if n < |plan| then plan[n] else []
  }

  /** Bytes that hold the first `n` PDUs of a plan and any first part of the next, up to all of it. */
  predicate Covers(plan: seq<seq<byte>>, n: nat, out: seq<byte>) {
    n <= |plan| && Flatten(plan[..n]) <= out <= Flatten(plan[..n]) + Next(plan, n)
  }

  /** Bytes that end inside a PDU of a plan. */
  ghost predicate Torn(plan: seq<seq<byte>>, out: seq<byte>) {
    exists n: nat, part :: n < |plan| && [] < part < plan[n] && out == Flatten(plan[..n]) + part
  }

  /** A call sends the first `n` PDUs of its plan. */
  ghost predicate Sends(s: ClientState, call: Invocation, n: nat) {
    && n <= |PlannedPdus(s, call)|
    && Call(s, call.opnum, call.stub).state.wire.sent == s.wire.sent + PlannedPdus(s, call)[..n]
  }

  /** The bytes a call may put on the pipe: what it sends, and any first part of the PDU whose send failed. */
  ghost predicate Writes(s: ClientState, call: Invocation, out: seq<byte>) {
    exists n: nat :: Sends(s, call, n) && Covers(PlannedPdus(s, call), n, out)
  }

  /** `outs` is what the calls of a run write, one after the other. */
  ghost predicate RunWrites(states: seq<ClientState>, calls: seq<Invocation>, outs: seq<seq<byte>>) {
    && |states| > |calls| == |outs|
    && forall i :: 0 <= i < |calls| ==> Writes(states[i], calls[i], outs[i])
  }

  /** A call whose bytes end inside a PDU is the last one that writes anything. */
  ghost predicate NothingBehindTear(states: seq<ClientState>, calls: seq<Invocation>, outs: seq<seq<byte>>)
    requires |states| > |calls| == |outs|
  {
    forall i, j :: 0 <= i < j < |calls| && Torn(PlannedPdus(states[i], calls[i]), outs[i]) ==> outs[j] == []
  }

  /** All of a call's request is on the pipe, even if its last send reported a failure. */
  predicate Whole(s: ClientState, call: Invocation, out: seq<byte>) {
    PlannedPdus(s, call) != [] && out == Flatten(PlannedPdus(s, call))
  }

  /** The messages of those calls whose whole request is on the pipe, in order. */
  function Arrived(states: seq<ClientState>, calls: seq<Invocation>, outs: seq<seq<byte>>): seq<Message>
    requires |states| > |calls| == |outs|
    decreases |calls|
  {
    if calls == [] then
      []
    else
      var n := |calls| - 1;
      Arrived(states, calls[..n], outs[..n])
      + (if Whole(states[n], calls[n], outs[n]) then [MessageOf(states[n], calls[n])] else [])
  }

  /** The PDUs of a call on the pipe: those it sent, and perhaps the one whose send reported a failure. */
  ghost predicate Reach(s: ClientState, call: Invocation, pdus: seq<seq<byte>>) {
    pdus <= PlannedPdus(s, call) && exists n: nat :: Sends(s, call, n) && n <= |pdus| <= n + 1
  }

  ghost predicate Reached(states: seq<ClientState>, calls: seq<Invocation>, arrivals: seq<seq<seq<byte>>>) {
    && |states| > |calls| == |arrivals|
    && forall i :: 0 <= i < |calls| ==> Reach(states[i], calls[i], arrivals[i])
  }

  /** The arrivals are complete for exactly the calls whose whole request is on the pipe. */
  ghost predicate Complete(states: seq<ClientState>, calls: seq<Invocation>, outs: seq<seq<byte>>,
                           arrivals: seq<seq<seq<byte>>>)
    requires |states| > |calls| == |outs| == |arrivals|
  {
    forall i :: 0 <= i < |calls| ==>
      (arrivals[i] != [] && arrivals[i] == PlannedPdus(states[i], calls[i]) <==> Whole(states[i], calls[i], outs[i]))
  }

  // ---------------------------------------------------------------- one call

  lemma FragmentFrames(t: Target, hint: u32, first: bool, last: bool, chunk: seq<byte>)
    requires |chunk| <= MAX_CHUNK
    ensures Framable(Encoding(RequestFragment(t, hint, first, last, chunk)))
  {
    hide Framable, PacketBytes;
    FragmentEncodes(t, hint, first, last, chunk);
    EncodedIsFramable(RequestFragment(t, hint, first, last, chunk));
  }

  lemma PlanFrames(t: Target, maxXmitFrag: u16, stub: seq<byte>)
    requires maxXmitFrag > CALL_OVERHEAD
    ensures AllFramable(EncodeAll(FragmentPlan(t, maxXmitFrag, stub)))
  {
    hide Framable, Chunks, RequestFragments, RequestFragment, Encoding;
    var plan := FragmentPlan(t, maxXmitFrag, stub);
    var chunks, hint := Chunks(stub, maxXmitFrag - CALL_OVERHEAD), |stub| % 0x1_0000_0000;
    forall i | 0 <= i < |plan| ensures Framable(EncodeAll(plan)[i]) {
      FragmentAt(t, hint, true, chunks, i);
      ChunkSizes(stub, maxXmitFrag - CALL_OVERHEAD, i);
      FragmentFrames(t, hint, i == 0, i == |chunks| - 1, chunks[i]);
    }
  }

  lemma PlannedFrame(s: ClientState, call: Invocation)
    ensures AllFramable(PlannedPdus(s, call))
  {
    hide Framable, FragmentPlan, EncodeAll;
    if s.maxXmitFrag > CALL_OVERHEAD {
      PlanFrames(Target(s.callId, s.contextId, call.opnum), s.maxXmitFrag, call.stub);
    }
  }

  /** The first PDUs and a strict part of the next are fewer bytes than all. */
  lemma TornIsShort(plan: seq<seq<byte>>, n: nat, torn: seq<byte>)
    requires n < |plan| && |torn| < |plan[n]|
    ensures |Flatten(plan[..n]) + torn| < |Flatten(plan)|
  {
    FlattenAppend(plan[..n], plan[n..]);
    assert plan == plan[..n] + plan[n..];
    assert Flatten(plan[n..]) == plan[n] + Flatten(plan[n..][1..]);
  }

  lemma CutPlan(plan: seq<seq<byte>>, n: nat, out: seq<byte>) returns (k: nat, torn: seq<byte>)
    requires Covers(plan, n, out)
    ensures n <= k <= |plan| && k <= n + 1 && out == Flatten(plan[..k]) + torn
    ensures torn == [] || (k < |plan| && torn < plan[k])
  {
    k, torn := n, out[|Flatten(plan[..n])|..];
    if n < |plan| && torn == plan[n] {
      k, torn := n + 1, [];
      assert plan[..k] == plan[..n] + [plan[n]];
      FlattenAppend(plan[..n], [plan[n]]);
      assert Flatten([plan[n]]) == plan[n] + Flatten([]);
    }
  }

  /** What a call writes is some of its PDUs and a strict part of the next. */
  lemma CallArrives(s: ClientState, call: Invocation, out: seq<byte>)
    returns (pdus: seq<seq<byte>>, torn: seq<byte>)
    requires Writes(s, call, out)
    ensures out == Flatten(pdus) + torn && Reach(s, call, pdus) && AllFramable(pdus) && Incomplete(torn)
    ensures torn == [] || Torn(PlannedPdus(s, call), out)
    ensures pdus != [] && pdus == PlannedPdus(s, call) <==> Whole(s, call, out)
  {
    hide Sends, PlannedPdus, Covers, Framable, Incomplete;
    var plan := PlannedPdus(s, call);
    var n: nat :| Sends(s, call, n) && Covers(plan, n, out);
    var k;
    k, torn := CutPlan(plan, n, out);
    pdus := plan[..k];
    PlannedFrame(s, call);
    NothingIsIncomplete();
    if torn != [] {
      StrictPrefixIsIncomplete(plan[k], torn);
    }
    if pdus != plan {
      NonEmpty(plan[k]);
      TornIsShort(plan, k, torn);
    }
  }

  lemma NonEmpty(pdu: seq<byte>)
    requires Framable(pdu)
    ensures pdu != [] && pdu[0] == RPC_VERSION
  {
  }

  /** A request that was sent completely is on the pipe as a whole. */
  lemma SentIsWhole(s: ClientState, call: Invocation, out: seq<byte>)
    requires SendsAll(s, call) && Writes(s, call, out)
    ensures Whole(s, call, out)
  {
    hide Call, SendRequest, Planned, EncodeAll;
    var log := SentIsPlanPrefix(s, call.opnum, call.stub);
    var plan := PlannedPdus(s, call);
    var n: nat :| Sends(s, call, n) && Covers(plan, n, out);
    assert |s.wire.sent + plan[..n]| == |s.wire.sent + log|;
    assert plan[..n] == plan;
  }

  // ---------------------------------------------------------------- whole runs

  /** Lists of PDUs one after the other. */
  function Join(lists: seq<seq<seq<byte>>>): (pdus: seq<seq<byte>>) {
    if lists == [] then [] else Join(lists[..|lists| - 1]) + lists[|lists| - 1]
  }

  lemma EmptyBytes(pdus: seq<seq<byte>>, torn: seq<byte>)
    requires AllFramable(pdus) && Flatten(pdus) + torn == []
    ensures pdus == [] && torn == []
  {
    hide Framable;
    if pdus != [] {
      NonEmpty(pdus[0]);
    }
  }

  /** Bytes behind whole PDUs continue them; behind a torn one there are none. */
  lemma BytesStep(joined: seq<seq<byte>>, torn: seq<byte>, pdus: seq<seq<byte>>, part: seq<byte>)
    requires AllFramable(joined) && AllFramable(pdus) && (torn != [] ==> Flatten(pdus) + part == [])
    ensures AllFramable(joined + pdus)
    ensures Flatten(joined) + torn + (Flatten(pdus) + part) ==
            Flatten(joined + pdus) + (if torn == [] then part else torn)
  {
    hide Framable;
    FlattenAppend(joined, pdus);
    if torn != [] {
      EmptyBytes(pdus, part);
    }
  }

  lemma {:induction false} RunArrives(states: seq<ClientState>, calls: seq<Invocation>, outs: seq<seq<byte>>)
    returns (arrivals: seq<seq<seq<byte>>>, torn: seq<byte>)
    requires RunWrites(states, calls, outs) && NothingBehindTear(states, calls, outs)
    ensures Reached(states, calls, arrivals) && Complete(states, calls, outs, arrivals)
    ensures Flatten(outs) == Flatten(Join(arrivals)) + torn && AllFramable(Join(arrivals)) && Incomplete(torn)
    ensures torn == [] || exists i :: 0 <= i < |calls| && Torn(PlannedPdus(states[i], calls[i]), outs[i])
    decreases |calls|
  {
    hide Writes, Reach, Torn, PlannedPdus, Incomplete, AllFramable, Whole, Flatten;
    arrivals, torn := [], [];
    if calls == [] {
      NothingIsIncomplete();
      NoBytes(outs);
    } else {
      var n := |calls| - 1;
      var earlier, before;
      earlier, before := RunArrives(states, calls[..n], outs[..n]);
      var pdus, part := CallArrives(states[n], calls[n], outs[n]);
      LastOut(outs);
      BytesStep(Join(earlier), before, pdus, part);
      arrivals, torn := earlier + [pdus], if before == [] then part else before;
      assert arrivals[..n] == earlier;
    }
  }

  lemma NoBytes(lists: seq<seq<byte>>)
    requires lists == []
    ensures Flatten(lists) == [] && AllFramable(lists)
  {
  }

  lemma {:induction false} ArrivalsRegroup(states: seq<ClientState>, calls: seq<Invocation>, outs: seq<seq<byte>>,
                                           arrivals: seq<seq<seq<byte>>>)
    requires Reached(states, calls, arrivals) && |outs| == |calls| && Complete(states, calls, outs, arrivals)
    ensures Regroup(Regrouped([], None), Join(arrivals)).Regrouped?
    ensures Regroup(Regrouped([], None), Join(arrivals)).complete == Arrived(states, calls, outs)
    decreases |calls|
  {
    hide PlannedPdus, Regroup, MessageOf, Whole, Sends;
    var none := Regrouped([], None);
    if calls == [] {
      RegroupNothing(none);
    } else {
      var n := |calls| - 1;
      ArrivalsRegroup(states, calls[..n], outs[..n], arrivals[..n]);
      PlanRecovery(Regroup(none, Join(arrivals[..n])), states[n], calls[n], arrivals[n]);
      RegroupAppend(none, Join(arrivals[..n]), arrivals[n]);
    }
  }

  lemma LastOut(outs: seq<seq<byte>>)
    requires outs != []
    ensures Flatten(outs) == Flatten(outs[..|outs| - 1]) + outs[|outs| - 1]
  {
    var n := |outs| - 1;
    FlattenAppend(outs[..n], [outs[n]]);
    assert outs == outs[..n] + [outs[n]];
    assert Flatten([outs[n]]) == outs[n] + Flatten([]);
  }

  /** A server that frames the stream gets these PDUs one by one and then runs dry on the rest. */
  ghost predicate Yields(stream: seq<byte>, pdus: seq<seq<byte>>, rest: seq<byte>) {
    && Drain(Pipe(stream), |pdus|) ==
       Drained(seq(|pdus|, i requires 0 <= i < |pdus| => Success(pdus[i])), Pipe(rest))
    && FrameFrom(rest).pdu.Failure? && FrameFrom(rest).pdu.error.Transport?
  }

  lemma StreamYields(pdus: seq<seq<byte>>, torn: seq<byte>)
    requires AllFramable(pdus) && Incomplete(torn)
    ensures Yields(Flatten(pdus) + torn, pdus, torn)
  {
    hide Drain, AllFramable, FrameFrom, Incomplete;
    StreamYieldsPdus(pdus, torn);
    DryIffIncomplete(torn);
  }

  /**
   * Request recovery from the byte stream. Let `outs` be the bytes that the calls of any run put on
   * the pipe, where a failed send leaves any first part of its PDU, up to all of it. If nothing is
   * written behind a torn PDU, a server that frames these bytes gets each call's PDUs one by one,
   * those sent and those written by a send that failed afterwards, and then runs dry; and grouping
   * them gives exactly the messages of the calls whose whole request is on the pipe, among them
   * every call that was sent completely.
   */
  lemma StreamRecovery(states: seq<ClientState>, calls: seq<Invocation>, outs: seq<seq<byte>>)
    returns (arrivals: seq<seq<seq<byte>>>, torn: seq<byte>)
    requires RunWrites(states, calls, outs) && NothingBehindTear(states, calls, outs)
    ensures Reached(states, calls, arrivals)
    ensures Yields(Flatten(outs), Join(arrivals), torn)
    ensures Regroup(Regrouped([], None), Join(arrivals)).Regrouped?
    ensures Regroup(Regrouped([], None), Join(arrivals)).complete == Arrived(states, calls, outs)
    ensures forall i :: 0 <= i < |calls| && SendsAll(states[i], calls[i]) ==> Whole(states[i], calls[i], outs[i])
  {
    hide Yields, AllFramable, Incomplete, Regroup, Arrived, Writes, SendsAll, Whole, Complete, Reached, Torn,
         NothingBehindTear;
    arrivals, torn := RunArrives(states, calls, outs);
    StreamYields(Join(arrivals), torn);
    ArrivalsRegroup(states, calls, outs, arrivals);
    forall i | 0 <= i < |calls| && SendsAll(states[i], calls[i]) ensures Whole(states[i], calls[i], outs[i]) {
      SentIsWhole(states[i], calls[i], outs[i]);
    }
  }

  // ---------------------------------------------------------------- a whole session on the pipe

  lemma OfferFrames(pdu: seq<byte>, proposed: seq<PresentationContext>, asked: Option<Provider>)
    requires IsOfferFor(pdu, proposed, asked)
    ensures Framable(pdu)
  {
    hide Framable, Offer, PacketBytes;
    OfferIsPacket(proposed, asked, FirstToken(asked));
    EncodedIsFramable(OfferPacket(proposed, asked, FirstToken(asked)));
  }

  lemma Auth3Frames(asked: Option<Provider>, challenge: seq<byte>)
    ensures AllFramable(Auth3Log(asked, challenge))
  {
    hide Framable, PacketBytes;
    var reply := ChallengeAnswer(asked, challenge);
    if reply != [] && Auth3Pdu(asked.value, reply).Success? {
      EncodedIsFramable(AuthenticatedPacket(Auth3, AUTH3_BODY, asked.value, reply).value);
    }
  }

  lemma OpeningYields(offer: seq<byte>, proposed: seq<PresentationContext>, asked: Option<Provider>,
                      challenge: seq<byte>, pdus: seq<seq<byte>>, torn: seq<byte>)
    requires IsOfferFor(offer, proposed, asked) && AllFramable(pdus) && Incomplete(torn)
    ensures var opening := [offer] + Auth3Log(asked, challenge);
            Yields(Flatten(opening) + (Flatten(pdus) + torn), opening + pdus, torn)
  {
    hide IsOfferFor, Framable, Incomplete, Yields, Auth3Log;
    OfferFrames(offer, proposed, asked);
    Auth3Frames(asked, challenge);
    var opening := [offer] + Auth3Log(asked, challenge);
    FlattenAppend(opening, pdus);
    StreamYields(opening + pdus, torn);
    assert Flatten(opening) + (Flatten(pdus) + torn) == Flatten(opening + pdus) + torn;
  }

  /**
   * A whole session as the server sees it on the pipe, whatever the outcomes of the calls. After a
   * successful bind and any run of calls that writes nothing behind a torn PDU, the server frames
   * the offer, AUTH3 exactly when a challenge was answered, and the calls' PDUs, and then runs dry;
   * and it has exactly the requests that are on the pipe as a whole, with identifiers counting from
   * 2 in the first accepted context.
   */
  lemma SessionStream(w: Wire, proposed: seq<PresentationContext>, target: string, provider: Option<Provider>,
                      states: seq<ClientState>, calls: seq<Invocation>, results: seq<Result<seq<byte>>>,
                      outs: seq<seq<byte>>)
    returns (offer: seq<byte>, answer: PduPacket, ack: BindAckPdu, k: nat,
             arrivals: seq<seq<seq<byte>>>, torn: seq<byte>)
    requires IsRun(states, calls, results)
    requires BindClient(w, proposed, target, provider).result == Success(states[0])
    requires RunWrites(states, calls, outs) && NothingBehindTear(states, calls, outs)
    ensures IsOfferFor(offer, proposed, Asked(provider, target))
    ensures Receive(w.incoming).pdu.Success? && DecodePacket(Receive(w.incoming).pdu.value) == Success(answer)
    ensures ParseBindAck(answer.body) == Success(ack) && LeastAccepted(ack.results, k) && k < |proposed|
    ensures var opening := [offer] + Auth3Log(Asked(provider, target), answer.authValue);
            && states[0].wire.sent == w.sent + opening
            && Yields(Flatten(opening) + Flatten(outs), opening + Join(arrivals), torn)
    ensures Reached(states, calls, arrivals)
    ensures Regroup(Regrouped([], None), Join(arrivals)).Regrouped?
    ensures Regroup(Regrouped([], None), Join(arrivals)).complete == Arrived(states, calls, outs)
    ensures forall i :: 0 <= i < |calls| ==>
              MessageOf(states[i], calls[i]) ==
              Message(Target(IdAfter(2, i), proposed[k].contextId, calls[i].opnum), calls[i].stub)
  {
    hide BindClient, Regroup, IsRun, IsOfferFor, Auth3Log, DecodePacket, ParseBindAck, Receive, LeastAccepted,
         Arrived, Complete, Reached, Writes, NothingBehindTear, Yields, Incomplete, AllFramable, MessageOf, Flatten;
    offer, answer, ack, k := HandshakeRun(w, proposed, target, provider);
    RunShape(states, calls, results);
    arrivals, torn := RunArrives(states, calls, outs);
    ArrivalsRegroup(states, calls, outs, arrivals);
    OpeningYields(offer, proposed, Asked(provider, target), answer.authValue, Join(arrivals), torn);
    forall i | 0 <= i < |calls|
      ensures MessageOf(states[i], calls[i]) ==
              Message(Target(IdAfter(2, i), proposed[k].contextId, calls[i].opnum), calls[i].stub)
    {
      NumberedMessage(states, calls, results, i);
    }
  }

  // ---------------------------------------------------------------- behind a torn PDU

  /** A request fragment is 24 bytes, which depend on its chunk only by its length, and the chunk. */
  lemma FragmentBytes(t: Target, hint: u32, first: bool, last: bool, chunk: seq<byte>)
    requires |chunk| <= MAX_CHUNK
    ensures Encoding(RequestFragment(t, hint, first, last, chunk)) == FixedPart(t, hint, first, last, |chunk|) + chunk
  {
    hide HeaderBytes, U32Bytes, U16Bytes;
  }

  function FixedPart(t: Target, hint: u32, first: bool, last: bool, length: nat): (bytes: seq<byte>)
    requires length <= MAX_CHUNK
    ensures |bytes| == CALL_OVERHEAD
  {
    var flags := FragmentFlags(first, last);
    HeaderBytes(NewHeader(Request, flags, t.callId).(fragLength := CALL_OVERHEAD + length))
    + U32Bytes(hint, Little) + U16Bytes(t.contextId, Little) + U16Bytes(t.opnum, Little)
  }

  /**
   * A request torn behind its fixed part is completed with the bytes written next: the server takes
   * a message whose stub is a part of the one and the beginning of the other. It is the message of
   * the call exactly when the bytes written next happen to repeat the missing ones.
   */
  lemma TornRequestMixes(st: Regrouped, t: Target, hint: u32, chunk: seq<byte>, n: nat, rest: seq<byte>)
    requires st.Regrouped? && n <= |chunk| <= MAX_CHUNK && |rest| >= |chunk| - n
    ensures var pdu := Encoding(RequestFragment(t, hint, true, true, chunk));
            var r := FrameFrom(pdu[..CALL_OVERHEAD + n] + rest);
            var mixed := Message(t, chunk[..n] + rest[..|chunk| - n]);
            && r.rest == Pipe(rest[|chunk| - n..]) && r.pdu.Success?
            && RegroupStep(st, r.pdu.value) == Regrouped(st.complete + [mixed], None)
            && (mixed == Message(t, chunk) <==> rest[..|chunk| - n] == chunk[n..])
  {
    hide Encoding, RequestFragment, FrameFrom, Framable, RegroupStep, FixedPart;
    var pdu := Encoding(RequestFragment(t, hint, true, true, chunk));
    var mixed := chunk[..n] + rest[..|chunk| - n];
    FragmentBytes(t, hint, true, true, chunk);
    FragmentBytes(t, hint, true, true, mixed);
    FragmentFrames(t, hint, true, true, chunk);
    TornPduCompletes(pdu, CALL_OVERHEAD + n, rest);
    var fixed := FixedPart(t, hint, true, true, |chunk|);
    assert pdu[..CALL_OVERHEAD + n] == fixed + chunk[..n];
    assert fixed + mixed == fixed + chunk[..n] + rest[..|chunk| - n];
    ExpectedFragment(st, t, hint, true, true, mixed);
    assert [] + mixed == mixed;
    assert chunk == chunk[..n] + chunk[n..];
  }

  /** A client with call id 1 whose first send fails. */
  function FaultyClient(incoming: Incoming): ClientState {
    ClientState(0, 1, DEFAULT_MAX_XMIT_FRAG, None, Wire(incoming, [], [true]))
  }

  lemma FirstSendFails(incoming: Incoming, call: Invocation)
    ensures var s := FaultyClient(incoming);
            var a := Call(s, call.opnum, call.stub);
            && a.result == Failure(Transport("send failed"))
            && a.state == s.(callId := 2, wire := Wire(incoming, [], []))
  {
    hide PacketBytes, FragmentPlan, Reassemble;
    var s := FaultyClient(incoming);
    var t := Target(1, 0, call.opnum);
    PlanEncodes(t, s.maxXmitFrag, call.stub);
    PlanNonEmpty(t, s.maxXmitFrag, call.stub);
  }

  /** A request that was sent completely is what its call wrote. */
  lemma SentIsWritten(s: ClientState, call: Invocation)
    requires SendsAll(s, call)
    ensures Writes(s, call, Flatten(PlannedPdus(s, call))) && PlannedPdus(s, call) != []
  {
    hide Call, SendRequest, Planned, EncodeAll;
    var plan := PlannedPdus(s, call);
    var log := SentIsPlanPrefix(s, call.opnum, call.stub);
    assert plan[..|plan|] == plan == log;
    assert Sends(s, call, |plan|) && Covers(plan, |plan|, Flatten(plan));
  }

  /**
   * A concrete tear. The first send fails after 24 of 25 bytes, and the next call goes out whole: the
   * server completes the first request with the version number of the second and takes a message
   * that no call ever made.
   */
  lemma TearExample(incoming: Incoming, next: Invocation)
    ensures var s, call := FaultyClient(incoming), Invocation(0, [0]);
            var a := Call(s, call.opnum, call.stub);
            && |PlannedPdus(s, call)| == 1 && |PlannedPdus(s, call)[0]| == 25
            && var out, more := PlannedPdus(s, call)[0][..24], Flatten(PlannedPdus(a.state, next));
               && Writes(s, call, out) && a.result.Failure?
               && Writes(a.state, next, more) && SendsAll(a.state, next)
               && FrameFrom(out + more).pdu.Success?
               && RegroupStep(Regrouped([], None), FrameFrom(out + more).pdu.value) ==
                  Regrouped([Message(Target(1, 0, 0), [5])], None)
  {
    hide Encoding, RequestFragment, FrameFrom, RegroupStep, Call, Writes, SendsAll, PlannedPdus, FixedPart, Flatten;
    var s, call, t := FaultyClient(incoming), Invocation(0, [0]), Target(1, 0, 0);
    FirstSendFails(incoming, call);
    OneFragment(s, call);
    FragmentBytes(t, 1, true, true, [0]);
    TornWrite(s, call, 24);
    var later := Call(s, call.opnum, call.stub).state;
    ReadyWrites(later, next);
    var more := Flatten(PlannedPdus(later, next));
    TornRequestMixes(Regrouped([], None), t, 1, [0], 0, more);
    assert [0][..0] + more[..1] == [5];
  }

  /** Without faults ahead a call writes its whole request, which begins with the version number. */
  lemma ReadyWrites(s: ClientState, call: Invocation)
    requires Ready(s)
    ensures var out := Flatten(PlannedPdus(s, call));
            SendsAll(s, call) && Writes(s, call, out) && out != [] && out[0] == RPC_VERSION
  {
    hide Ready, SendsAll, Writes, PlannedPdus, AllFramable;
    ReadySends(s, call);
    SentIsWritten(s, call);
    PlannedFrame(s, call);
    StreamStart(PlannedPdus(s, call));
  }

  lemma StreamStart(pdus: seq<seq<byte>>)
    requires AllFramable(pdus) && pdus != []
    ensures Flatten(pdus) != [] && Flatten(pdus)[0] == RPC_VERSION
  {
    hide Framable;
    NonEmpty(pdus[0]);
  }

  lemma OneFragment(s: ClientState, call: Invocation)
    requires !Mute(s) && |call.stub| <= s.maxXmitFrag - CALL_OVERHEAD
    ensures PlannedPdus(s, call) ==
            [Encoding(RequestFragment(Target(s.callId, s.contextId, call.opnum), |call.stub|, true, true, call.stub))]
  {
    hide Encoding, RequestFragment;
  }

  /** A call whose first send fails may have written any part of its first PDU. */
  lemma TornWrite(s: ClientState, call: Invocation, n: nat)
    requires Call(s, call.opnum, call.stub).state.wire.sent == s.wire.sent
    requires PlannedPdus(s, call) != [] && n <= |PlannedPdus(s, call)[0]|
    ensures Writes(s, call, PlannedPdus(s, call)[0][..n])
  {
    hide Call, PlannedPdus;
    var plan := PlannedPdus(s, call);
    assert plan[..0] == [] && Flatten([]) + plan[0] == plan[0];
    assert Sends(s, call, 0) && Covers(plan, 0, plan[0][..n]);
  }
}
