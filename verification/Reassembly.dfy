/** Exactly which inputs a call accepts as its response, and what it makes of them. */
module Reassembly {
  import opened Bytes
  import opened WireCodes
  import opened Errors
  import opened Pdu
  import opened PduProofs
  import opened Wires
  import opened Framing
  import opened Calls
  import opened Fragmentation

  /** A PDU that decodes as a response to `callId` with room for the response header. */
  predicate IsResponse(pdu: seq<byte>, callId: u32) {
    match DecodePacket(pdu)
    case Success(p) => p.header.ptype == Response && p.header.callId == callId && |p.body| >= 8
    case Failure(_) => false
  }

  function FlagsOf(pdu: seq<byte>): byte {
    match DecodePacket(pdu)
    case Success(p) => p.header.flags
    case Failure(_) => 0
  }

  function StubOf(pdu: seq<byte>): seq<byte> {
    match DecodePacket(pdu)
    case Success(p) => if |p.body| >= 8 then p.body[8..] else []
    case Failure(_) => []
  }

  /** A complete response: all PDUs answer `callId`, the first carries FIRST, only the last LAST. */
  ghost predicate ResponseTrain(train: seq<seq<byte>>, callId: u32, sawFirst: bool) {
    && train != []
    && (forall i :: 0 <= i < |train| ==> IsResponse(train[i], callId))
    && (sawFirst || HasFirst(FlagsOf(train[0])))
    && (forall i :: 0 <= i < |train| ==> (HasLast(FlagsOf(train[i])) <==> i == |train| - 1))
  }

  function Stubs(train: seq<seq<byte>>): (stubs: seq<seq<byte>>)
    ensures |stubs| == |train|
    ensures forall i :: 0 <= i < |train| ==> stubs[i] == StubOf(train[i])
  {
    seq(|train|, i requires 0 <= i < |train| => StubOf(train[i]))
  }

  lemma StubsCons(train: seq<seq<byte>>)
    requires train != []
    ensures Flatten(Stubs(train)) == StubOf(train[0]) + Flatten(Stubs(train[1..]))
  {
    hide StubOf;
    assert Stubs(train)[1..] == Stubs(train[1..]);
  }

  /** A PDU that the receiving loop takes stub bytes from. */
  predicate Usable(pdu: seq<byte>, callId: u32, sawFirst: bool) {
    IsResponse(pdu, callId) && (sawFirst || HasFirst(FlagsOf(pdu)))
  }

  /** A packet's contribution is its stub if it is a usable response, otherwise the call ends. */
  lemma PacketContribution(pdu: seq<byte>, callId: u32, sawFirst: bool)
    requires DecodePacket(pdu).Success?
    ensures ResponseStub(DecodePacket(pdu).value, callId, sawFirst) == Success(StubOf(pdu))
            || ResponseStub(DecodePacket(pdu).value, callId, sawFirst).Failure?
    ensures ResponseStub(DecodePacket(pdu).value, callId, sawFirst).Success? <==> Usable(pdu, callId, sawFirst)
  {
    hide DecodePacket;
  }

  /** One turn of the receiving loop, over either kind of input. */
  lemma Turn(incoming: Incoming, level: Option<AuthLevel>, callId: u32, collected: seq<byte>, sawFirst: bool)
    requires Supported(level)
    ensures var r, got := Reassemble(incoming, level, callId, collected, sawFirst), Receive(incoming);
            if got.pdu.Success? && Usable(got.pdu.value, callId, sawFirst) then
              r == if HasLast(FlagsOf(got.pdu.value))
                   then Reassembled(got.rest, Success(collected + StubOf(got.pdu.value)))
                   else Reassemble(got.rest, level, callId, collected + StubOf(got.pdu.value), true)
            else
              r.stub.Failure? && r.rest == got.rest
  {
    hide Receive, DecodePacket, ResponseStub, StubOf;
    var got := Receive(incoming);
    if got.pdu.Success? && DecodePacket(got.pdu.value).Success? {
      PacketContribution(got.pdu.value, callId, sawFirst);
    }
  }

  lemma ResponseIsFramable(pdu: seq<byte>, callId: u32)
    requires IsResponse(pdu, callId)
    ensures Framable(pdu)
  {
    hide DecodePacket, Framable;
    DecodableIsFramable(pdu);
  }

  lemma TrainTail(train: seq<seq<byte>>, callId: u32, sawFirst: bool)
    requires ResponseTrain(train, callId, sawFirst) && |train| > 1
    ensures ResponseTrain(train[1..], callId, true)
  {
    hide IsResponse, FlagsOf;
    var rest := train[1..];
    forall i | 0 <= i < |rest|
      ensures IsResponse(rest[i], callId) && (HasLast(FlagsOf(rest[i])) <==> i == |rest| - 1)
    {
      assert rest[i] == train[i + 1];
    }
  }

  /** A complete response at the front of the input is returned, and what follows stays. */
  lemma {:induction false} TrainReassembles(incoming: Incoming, train: seq<seq<byte>>, rest: Incoming,
                                            level: Option<AuthLevel>, callId: u32,
                                            collected: seq<byte>, sawFirst: bool)
    requires Supported(level) && ResponseTrain(train, callId, sawFirst) && Took(incoming, train, rest)
    ensures Reassemble(incoming, level, callId, collected, sawFirst) ==
            Reassembled(rest, Success(collected + Flatten(Stubs(train))))
    decreases |train|
  {
    hide Reassemble, IsResponse, StubOf, FlagsOf, Stubs, Took, Receive, Framable;
    ResponseIsFramable(train[0], callId);
    TookFirst(incoming, train, rest);
    Turn(incoming, level, callId, collected, sawFirst);
    StubsCons(train);
    var next := Receive(incoming).rest;
    if |train| == 1 {
      TookNothing(next, rest);
      assert Flatten(Stubs(train[1..])) == [];
      assert StubOf(train[0]) + [] == StubOf(train[0]);
    } else {
      TrainTail(train, callId, sawFirst);
      TrainReassembles(next, train[1..], rest, level, callId, collected + StubOf(train[0]), true);
      assert collected + (StubOf(train[0]) + Flatten(Stubs(train[1..])))
          == collected + StubOf(train[0]) + Flatten(Stubs(train[1..]));
    }
  }

  /** The PDUs a call receives, in order, up to the one that ends it. */
  ghost function Heard(incoming: Incoming, callId: u32, sawFirst: bool): (pdus: seq<seq<byte>>)
    decreases incoming.Size()
  {
    var got := Receive(incoming);
    if got.pdu.Failure? then
      []
    else if Usable(got.pdu.value, callId, sawFirst) && !HasLast(FlagsOf(got.pdu.value)) then
      [got.pdu.value] + Heard(got.rest, callId, true)
    else
      [got.pdu.value]
  }

  lemma TrainGrows(pdu: seq<byte>, train: seq<seq<byte>>, callId: u32, sawFirst: bool)
    requires Usable(pdu, callId, sawFirst) && !HasLast(FlagsOf(pdu)) && ResponseTrain(train, callId, true)
    ensures ResponseTrain([pdu] + train, callId, sawFirst)
  {
    hide IsResponse, FlagsOf;
    var longer := [pdu] + train;
    forall i | 0 <= i < |longer|
      ensures IsResponse(longer[i], callId) && (HasLast(FlagsOf(longer[i])) <==> i == |longer| - 1)
    {
      if i > 0 {
        assert longer[i] == train[i - 1];
      }
    }
  }

  /** If a call returns, what it received is a complete response to it, and nothing else was taken. */
  lemma {:induction false} ReassembledTrain(incoming: Incoming, level: Option<AuthLevel>,
                                            callId: u32, collected: seq<byte>, sawFirst: bool)
    requires Supported(level)
    requires Reassemble(incoming, level, callId, collected, sawFirst).stub.Success?
    ensures ResponseTrain(Heard(incoming, callId, sawFirst), callId, sawFirst)
    ensures Took(incoming, Heard(incoming, callId, sawFirst),
                 Reassemble(incoming, level, callId, collected, sawFirst).rest)
    decreases incoming.Size()
  {
    hide Reassemble, IsResponse, FlagsOf, Took, Receive, ResponseTrain;
    Turn(incoming, level, callId, collected, sawFirst);
    var got := Receive(incoming);
    var pdu, r := got.pdu.value, Reassemble(incoming, level, callId, collected, sawFirst);
    if HasLast(FlagsOf(pdu)) {
      SingleTrain(pdu, callId, sawFirst);
      TookNothing(got.rest, r.rest);
      TookMore(incoming, [], r.rest);
      assert [pdu] + [] == [pdu];
    } else {
      ReassembledTrain(got.rest, level, callId, collected + StubOf(pdu), true);
      TrainGrows(pdu, Heard(got.rest, callId, true), callId, sawFirst);
      TookMore(incoming, Heard(got.rest, callId, true), r.rest);
    }
  }

  lemma SingleTrain(pdu: seq<byte>, callId: u32, sawFirst: bool)
    requires Usable(pdu, callId, sawFirst) && HasLast(FlagsOf(pdu))
    ensures ResponseTrain([pdu], callId, sawFirst)
  {
    hide IsResponse, FlagsOf;
  }

  /**
   * Exact reassembly. Over a queue, and over a pipe of arbitrary bytes: a call to `callId` returns
   * `stub` and leaves `rest` if and only if the input is a complete response to `callId` followed by
   * `rest`, and `stub` is the concatenation of the response's stubs.
   */
  lemma ExactReassembly(incoming: Incoming, level: Option<AuthLevel>, callId: u32,
                        stub: seq<byte>, rest: Incoming)
    requires Supported(level)
    ensures Reassemble(incoming, level, callId, [], false) == Reassembled(rest, Success(stub)) <==>
            exists train :: ResponseTrain(train, callId, false) && Took(incoming, train, rest)
                            && stub == Flatten(Stubs(train))
  {
    hide Reassemble, ResponseTrain, Stubs, Took, Heard;
    var r := Reassemble(incoming, level, callId, [], false);
    forall train, after | ResponseTrain(train, callId, false) && Took(incoming, train, after)
      ensures r == Reassembled(after, Success(Flatten(Stubs(train))))
    {
      TrainReassembles(incoming, train, after, level, callId, [], false);
      assert [] + Flatten(Stubs(train)) == Flatten(Stubs(train));
    }
    if r.stub.Success? {
      ReassembledTrain(incoming, level, callId, [], false);
    }
  }

  /** Over a queue a call takes exactly the PDUs it receives, whatever its outcome. */
  lemma {:induction false} QueueTakesHeard(incoming: Incoming, level: Option<AuthLevel>,
                                           callId: u32, collected: seq<byte>, sawFirst: bool)
    requires Supported(level) && incoming.Queue?
    ensures Took(incoming, Heard(incoming, callId, sawFirst),
                 Reassemble(incoming, level, callId, collected, sawFirst).rest)
    decreases incoming.Size()
  {
    hide Reassemble, IsResponse, FlagsOf, Took;
    Turn(incoming, level, callId, collected, sawFirst);
    var got, r := Receive(incoming), Reassemble(incoming, level, callId, collected, sawFirst);
    if got.pdu.Failure? {
      TookNothing(incoming, r.rest);
    } else {
      var pdu := got.pdu.value;
      if Usable(pdu, callId, sawFirst) && !HasLast(FlagsOf(pdu)) {
        QueueTakesHeard(got.rest, level, callId, collected + StubOf(pdu), true);
        TookMore(incoming, Heard(got.rest, callId, true), r.rest);
      } else {
        TookNothing(got.rest, r.rest);
        TookMore(incoming, [], r.rest);
        assert [pdu] + [] == [pdu];
      }
    }
  }

  /** The beginning of a response: own identifier, FIRST first, and no LAST yet. */
  ghost predicate PartialResponse(train: seq<seq<byte>>, callId: u32, sawFirst: bool) {
    && (forall i :: 0 <= i < |train| ==> IsResponse(train[i], callId) && !HasLast(FlagsOf(train[i])))
    && (train == [] || sawFirst || HasFirst(FlagsOf(train[0])))
  }

  /** The loop works through the beginning of a response and goes on with what follows it. */
  lemma {:induction false} PartialResponseCollected(incoming: Incoming, train: seq<seq<byte>>, rest: Incoming,
                                                    level: Option<AuthLevel>, callId: u32,
                                                    collected: seq<byte>, sawFirst: bool)
    requires Supported(level) && PartialResponse(train, callId, sawFirst) && Took(incoming, train, rest)
    ensures Reassemble(incoming, level, callId, collected, sawFirst) ==
            Reassemble(rest, level, callId, collected + Flatten(Stubs(train)), sawFirst || train != [])
    decreases |train|
  {
    hide Reassemble, IsResponse, StubOf, FlagsOf, Stubs, Took, Receive, Framable;
    if train == [] {
      TookNothing(incoming, rest);
      assert collected + Flatten(Stubs(train)) == collected;
    } else {
      ResponseIsFramable(train[0], callId);
      TookFirst(incoming, train, rest);
      Turn(incoming, level, callId, collected, sawFirst);
      StubsCons(train);
      PartialResponseCollected(Receive(incoming).rest, train[1..], rest, level, callId,
                               collected + StubOf(train[0]), true);
      assert collected + (StubOf(train[0]) + Flatten(Stubs(train[1..])))
          == collected + StubOf(train[0]) + Flatten(Stubs(train[1..]));
    }
  }

  lemma FaultEndsTurn(incoming: Incoming, callId: u32, flags: byte, fault: FaultPdu, rest: Incoming,
                      level: Option<AuthLevel>, collected: seq<byte>, sawFirst: bool)
    requires Supported(level) && |FaultBody(fault)| <= 0xFFFF - COMMON_HEADER_LEN
    requires Took(incoming, [Encoding(FromBodyWithFlags(Fault, callId, flags, FaultBody(fault)))], rest)
    ensures Reassemble(incoming, level, callId, collected, sawFirst) ==
            Reassembled(rest, Failure(RpcFault(fault.status)))
  {
    hide PacketBytes, DecodePacket, DecodeFault, FaultBody, Took, Framable, Receive;
    PlainPacketRoundTrip(Fault, callId, flags, FaultBody(fault));
    FaultRoundTrip(fault);
    var pdu := Encoding(FromBodyWithFlags(Fault, callId, flags, FaultBody(fault)));
    DecodableIsFramable(pdu);
    var only: seq<seq<byte>> := [pdu];
    TookFirst(incoming, only, rest);
    assert only[1..] == [];
    TookNothing(Receive(incoming).rest, rest);
  }

  /** A response that breaks off with a fault: the fault's status, and what follows it stays. */
  lemma FaultEndsResponse(incoming: Incoming, train: seq<seq<byte>>, callId: u32, flags: byte, fault: FaultPdu,
                          rest: Incoming, level: Option<AuthLevel>)
    requires Supported(level) && |FaultBody(fault)| <= 0xFFFF - COMMON_HEADER_LEN
    requires PartialResponse(train, callId, false)
    requires Took(incoming, train + [Encoding(FromBodyWithFlags(Fault, callId, flags, FaultBody(fault)))], rest)
    ensures Reassemble(incoming, level, callId, [], false) == Reassembled(rest, Failure(RpcFault(fault.status)))
  {
    hide Reassemble, PartialResponse, Took, Encoding, FromBodyWithFlags, FaultBody, Stubs;
    var pdu := Encoding(FromBodyWithFlags(Fault, callId, flags, FaultBody(fault)));
    var between := TookBoth(incoming, train, [pdu], rest);
    PartialResponseCollected(incoming, train, between, level, callId, [], false);
    FaultEndsTurn(between, callId, flags, fault, rest, level, [] + Flatten(Stubs(train)), train != []);
  }

  // ---------------------------------------------------------------- how calls fail

  /** Why a packet ends a call, whatever was received before. */
  function Refusal(p: PduPacket, callId: u32, sawFirst: bool): Option<Error> {
    if p.header.callId != callId then
      Some(InvalidPdu("response call id does not match request"))
    else if p.header.ptype == Fault then
      if |p.body| < 12 then Some(InvalidPdu("fault PDU body requires at least 12 bytes"))
      else Some(RpcFault(ReadU32(p.body[8..12], Little)))
    else if p.header.ptype != Response then
      Some(InvalidPdu("expected response or fault PDU"))
    else if !sawFirst && p.header.flags % 2 == 0 then
      Some(InvalidPdu("response is missing first fragment"))
    else if |p.body| < 8 then
      Some(InvalidPdu("response PDU body requires at least 8 bytes"))
    else
      None
  }

  /** The receiving loop refuses exactly those packets, with those errors, and takes the rest's stubs. */
  lemma RefusedStub(p: PduPacket, callId: u32, sawFirst: bool)
    ensures match Refusal(p, callId, sawFirst)
            case Some(e) => ResponseStub(p, callId, sawFirst) == Failure(e)
            case None => ResponseStub(p, callId, sawFirst) == Success(p.body[8..])
  {
    hide DecodeFault, DecodeResponse, ReadU32;
    BodyOutcomes(p.body);
  }

  lemma BodyOutcomes(body: seq<byte>)
    ensures |body| < 12 ==> DecodeFault(body) == Failure(InvalidPdu("fault PDU body requires at least 12 bytes"))
    ensures |body| >= 12 ==>
              DecodeFault(body).Success? && DecodeFault(body).value.status == ReadU32(body[8..12], Little)
    ensures |body| < 8 ==> DecodeResponse(body) == Failure(InvalidPdu("response PDU body requires at least 8 bytes"))
    ensures |body| >= 8 ==> DecodeResponse(body).Success? && DecodeResponse(body).value.stub == body[8..]
  {
    hide ReadU32, ReadU16;
  }

  /** One turn that ends the call. */
  lemma RefusedTurn(incoming: Incoming, pdu: seq<byte>, rest: Incoming, level: Option<AuthLevel>, callId: u32,
                    collected: seq<byte>, sawFirst: bool)
    requires Supported(level) && Framable(pdu) && Took(incoming, [pdu], rest)
    ensures DecodePacket(pdu).Failure? ==>
              Reassemble(incoming, level, callId, collected, sawFirst) ==
              Reassembled(rest, Failure(DecodePacket(pdu).error))
    ensures DecodePacket(pdu).Success? && Refusal(DecodePacket(pdu).value, callId, sawFirst).Some? ==>
              Reassemble(incoming, level, callId, collected, sawFirst) ==
              Reassembled(rest, Failure(Refusal(DecodePacket(pdu).value, callId, sawFirst).value))
  {
    hide DecodePacket, Took, Framable, Receive, Refusal, ResponseStub;
    var only: seq<seq<byte>> := [pdu];
    TookFirst(incoming, only, rest);
    assert only[1..] == [];
    TookNothing(Receive(incoming).rest, rest);
    if DecodePacket(pdu).Success? {
      RefusedStub(DecodePacket(pdu).value, callId, sawFirst);
    }
  }

  /**
   * How a call fails. After any beginning of a response, over a queue or any byte stream: a PDU with
   * another call's identifier, of any type; a fault, long enough or not; a first response without
   * FIRST; a response without room for its header; a PDU of any other type; and bytes that are no
   * packet each end the call with their own error, and exactly what is behind that PDU is left.
   */
  lemma RefusalEndsResponse(incoming: Incoming, train: seq<seq<byte>>, pdu: seq<byte>, rest: Incoming,
                            level: Option<AuthLevel>, callId: u32)
    requires Supported(level) && PartialResponse(train, callId, false)
    requires Framable(pdu) && Took(incoming, train + [pdu], rest)
    ensures var r := Reassemble(incoming, level, callId, [], false);
            match DecodePacket(pdu)
            case Failure(e) => r == Reassembled(rest, Failure(e))
            case Success(p) =>
              match Refusal(p, callId, train != [])
              case Some(e) => r == Reassembled(rest, Failure(e))
              case None => true
  {
    hide Reassemble, PartialResponse, Took, Stubs, DecodePacket, Framable, Refusal;
    var between := TookBoth(incoming, train, [pdu], rest);
    PartialResponseCollected(incoming, train, between, level, callId, [], false);
    RefusedTurn(between, pdu, rest, level, callId, [] + Flatten(Stubs(train)), train != []);
  }

  /** When nothing more can be received, the call ends with the transport's or the framer's error. */
  lemma NothingMoreEndsResponse(incoming: Incoming, train: seq<seq<byte>>, rest: Incoming,
                                level: Option<AuthLevel>, callId: u32)
    requires Supported(level) && PartialResponse(train, callId, false)
    requires Took(incoming, train, rest) && Receive(rest).pdu.Failure?
    ensures Reassemble(incoming, level, callId, [], false) ==
            Reassembled(Receive(rest).rest, Failure(Receive(rest).pdu.error))
  {
    hide PartialResponse, Took, Stubs, DecodePacket, Receive, ResponseStub;
    PartialResponseCollected(incoming, train, rest, level, callId, [], false);
  }

  /** A protected response is never accepted: it ends the call with the level's error. */
  lemma ProtectedResponseRefused(incoming: Incoming, callId: u32)
    requires Receive(incoming).pdu.Success? && DecodePacket(Receive(incoming).pdu.value).Success?
    ensures Reassemble(incoming, Some(PacketIntegrity), callId, [], false) ==
            Reassembled(Receive(incoming).rest,
                        Failure(Auth("RPC auth level PacketIntegrity is not supported in v1")))
    ensures Reassemble(incoming, Some(PacketPrivacy), callId, [], false) ==
            Reassembled(Receive(incoming).rest, Failure(Auth("RPC auth level PacketPrivacy is not supported in v1")))
  {
    hide Receive, DecodePacket, ResponseStub;
  }

  /** A PDU with another identifier among those received is the last of them, and gives the error. */
  lemma {:induction false} ForeignHeard(incoming: Incoming, level: Option<AuthLevel>, callId: u32,
                                        collected: seq<byte>, sawFirst: bool, i: nat)
    requires Supported(level) && i < |Heard(incoming, callId, sawFirst)|
    requires DecodePacket(Heard(incoming, callId, sawFirst)[i]).Success?
    requires DecodePacket(Heard(incoming, callId, sawFirst)[i]).value.header.callId != callId
    ensures Reassemble(incoming, level, callId, collected, sawFirst).stub ==
            Failure(InvalidPdu("response call id does not match request"))
    ensures i == |Heard(incoming, callId, sawFirst)| - 1
    decreases incoming.Size()
  {
    hide Receive, DecodePacket, StubOf, FlagsOf, Reassemble;
    Turn(incoming, level, callId, collected, sawFirst);
    var got := Receive(incoming);
    var pdu := got.pdu.value;
    if Usable(pdu, callId, sawFirst) && !HasLast(FlagsOf(pdu)) {
      assert i > 0;
      ForeignHeard(got.rest, level, callId, collected + StubOf(pdu), true, i - 1);
    } else {
      ForeignTurn(incoming, level, callId, collected, sawFirst);
    }
  }

  lemma ForeignTurn(incoming: Incoming, level: Option<AuthLevel>, callId: u32, collected: seq<byte>, sawFirst: bool)
    requires Supported(level) && Receive(incoming).pdu.Success?
    requires DecodePacket(Receive(incoming).pdu.value).Success?
    requires DecodePacket(Receive(incoming).pdu.value).value.header.callId != callId
    ensures Reassemble(incoming, level, callId, collected, sawFirst).stub ==
            Failure(InvalidPdu("response call id does not match request"))
  {
    hide Receive, DecodePacket;
  }

  // ---------------------------------------------------------------- any split of a response

  /** One packet per part of the answer; FIRST on the first if `first`, LAST on the last. */
  function ResponseFragments(callId: u32, first: bool, parts: seq<ResponsePdu>): (packets: seq<PduPacket>)
    ensures |packets| == |parts|
  {
    seq(|parts|, i requires 0 <= i < |parts| =>
      FromResponseWithFlags(callId, FragmentFlags(first && i == 0, i == |parts| - 1), parts[i]))
  }

  function PartStubs(parts: seq<ResponsePdu>): (stubs: seq<seq<byte>>)
    ensures |stubs| == |parts|
  {
    seq(|parts|, i requires 0 <= i < |parts| => parts[i].stub)
  }

  predicate PartsFit(parts: seq<ResponsePdu>) {
    forall i :: 0 <= i < |parts| ==> |parts[i].stub| <= MAX_CHUNK
  }

  lemma ResponseFragmentReads(callId: u32, flags: byte, part: ResponsePdu)
    requires |part.stub| <= MAX_CHUNK
    ensures var pdu := Encoding(FromResponseWithFlags(callId, flags, part));
            IsResponse(pdu, callId) && FlagsOf(pdu) == flags && StubOf(pdu) == part.stub
  {
    hide PacketBytes, DecodePacket;
    PlainPacketRoundTrip(Response, callId, flags, ResponseBody(part));
    assert ResponseBody(part)[8..] == part.stub;
  }

  /** The encoded parts of an answer form a complete response that carries the parts' stubs. */
  lemma FragmentsFormTrain(callId: u32, parts: seq<ResponsePdu>)
    requires parts != [] && PartsFit(parts)
    ensures var train := EncodeAll(ResponseFragments(callId, true, parts));
            ResponseTrain(train, callId, false) && Stubs(train) == PartStubs(parts)
  {
    hide IsResponse, FlagsOf, StubOf, Encoding, FromResponseWithFlags;
    var packets := ResponseFragments(callId, true, parts);
    var train := EncodeAll(packets);
    forall i | 0 <= i < |train|
      ensures IsResponse(train[i], callId) && StubOf(train[i]) == parts[i].stub
      ensures FlagsOf(train[i]) == FragmentFlags(i == 0, i == |parts| - 1)
      ensures HasLast(FlagsOf(train[i])) <==> i == |train| - 1
      ensures HasFirst(FlagsOf(train[i])) <==> i == 0
    {
      ResponseFragmentReads(callId, FragmentFlags(i == 0, i == |parts| - 1), parts[i]);
      FlagsReadBack(i == 0, i == |parts| - 1);
    }
  }

  /**
   * Any-split round trip: however a server cuts its answer into fragments that fit, the call gets
   * the concatenation back and later input stays.
   */
  lemma AnySplitRoundTrip(incoming: Incoming, callId: u32, parts: seq<ResponsePdu>, rest: Incoming,
                          level: Option<AuthLevel>)
    requires parts != [] && PartsFit(parts) && Supported(level)
    requires Took(incoming, EncodeAll(ResponseFragments(callId, true, parts)), rest)
    ensures Reassemble(incoming, level, callId, [], false) ==
            Reassembled(rest, Success(Flatten(PartStubs(parts))))
  {
    hide Reassemble, ResponseTrain, Stubs, PartStubs, EncodeAll, ResponseFragments, Took;
    FragmentsFormTrain(callId, parts);
    var train := EncodeAll(ResponseFragments(callId, true, parts));
    TrainReassembles(incoming, train, rest, level, callId, [], false);
    assert [] + Flatten(PartStubs(parts)) == Flatten(PartStubs(parts));
  }
}
