/** The client object: its fields, its loops, and the bind handshake. */
module Client {
  import opened Bytes
  import opened WireCodes
  import opened Errors
  import opened Pdu
  import opened Wires
  import opened Calls
  import opened Syntax
  import opened Bind
  import opened Handshake

  /** A transport object; `incoming` says which implementation of the trait it is. */
  class Transport {
    var incoming: Incoming
    var sent: seq<seq<byte>>
    var faults: seq<bool>

    constructor (incoming: Incoming, faults: seq<bool>)
      ensures State() == Wire(incoming, [], faults)
    {
      this.incoming, sent, this.faults := incoming, [], faults;
    }

    function State(): Wire
      reads this
    {
      Wire(incoming, sent, faults)
    }

    method SendPdu(bytes: seq<byte>) returns (r: Result<()>)
      modifies this
      ensures Stepped(State(), r) == SendOn(old(State()), bytes)
    {
      var broken := faults != [] && faults[0];
      faults := if faults == [] then [] else faults[1..];
      if broken {
        return Failure(Errors.Transport("send failed"));
      }
      sent := sent + [bytes];
      return Success(());
    }

    method RecvPdu() returns (r: Result<seq<byte>>)
      modifies this`incoming
      ensures Received(incoming, r) == Receive(old(incoming))
    {
      var received := Receive(incoming);
      incoming := received.rest;
      return received.pdu;
    }
  }

  /** An authentication provider object over any mechanism. */
  class AuthProvider {
    const level: AuthLevel
    const authType: AuthType
    const contextId: u32
    const respond: seq<ProviderEvent> -> ProviderReply
    var history: seq<ProviderEvent>

    constructor (level: AuthLevel, authType: AuthType, contextId: u32,
                 respond: seq<ProviderEvent> -> ProviderReply)
      ensures View() == Provider(level, authType, contextId, respond, [])
    {
      this.level, this.authType, this.contextId := level, authType, contextId;
      this.respond, history := respond, [];
    }

    function View(): Provider
      reads this
    {
      Provider(level, authType, contextId, respond, history)
    }

    method InitContext(target: string) returns (r: Result<seq<byte>>)
      modifies this`history
      ensures View() == old(View()).Saw(Init(target)) && r == View().Reply()
    {
      history := history + [Init(target)];
      r := View().Reply();
    }

    method Step(challenge: seq<byte>) returns (r: Result<seq<byte>>)
      modifies this`history
      ensures View() == old(View()).Saw(Challenge(challenge)) && r == View().Reply()
    {
      history := history + [Challenge(challenge)];
      r := View().Reply();
    }
  }

  function ViewOf(provider: AuthProvider?): Option<Provider>
    reads provider
  {
    if provider == null then None else Some(provider.View())
  }

  class RpcClient {
    const transport: Transport
    const contextId: u16
    var callId: u32
    var maxXmitFrag: u16
    const level: Option<AuthLevel>

    constructor Bound(transport: Transport, contextId: u16, callId: u32, maxXmitFrag: u16, level: Option<AuthLevel>)
      ensures this.transport == transport
      ensures State() == ClientState(contextId, callId, maxXmitFrag, level, transport.State())
    {
      this.transport, this.contextId, this.callId := transport, contextId, callId;
      this.maxXmitFrag, this.level := maxXmitFrag, level;
    }

    constructor NewBound(transport: Transport, contextId: u16, provider: AuthProvider?)
      ensures this.transport == transport
      ensures State() == ClientState(contextId, 1, 4280, if provider == null then None else Some(provider.level),
                                     transport.State())
    {
      this.transport, this.contextId, callId := transport, contextId, 1;
      maxXmitFrag, level := DEFAULT_MAX_XMIT_FRAG, if provider == null then None else Some(provider.level);
    }

    method WithMaxXmitFrag(maxXmitFrag: u16)
      modifies this`maxXmitFrag
      ensures State() == old(State()).(maxXmitFrag := maxXmitFrag)
    {
      this.maxXmitFrag := maxXmitFrag;
    }

    function State(): ClientState
      reads this, transport
    {
      ClientState(contextId, callId, maxXmitFrag, level, transport.State())
    }

    method TakeCallId() returns (id: u32)
      modifies this`callId
      ensures id == old(callId) && callId == NextCallId(old(callId))
    {
      id := callId;
      var wrapped := (callId + 1) % 0x1_0000_0000;
      callId := if wrapped < 1 then 1 else wrapped;
    }

    method CallRaw(opnum: u16, requestStub: seq<byte>) returns (r: Result<seq<byte>>)
      modifies this`callId, transport
      ensures Called(State(), r) == Call(old(State()), opnum, requestStub)
    {
      var id := TakeCallId();
      var sending := SendRequestFragments(id, opnum, requestStub);
      if sending.Failure? {
        return Failure(sending.error);
      }
      r := RecvResponseFragments(id);
    }

    method SendRequestFragments(id: u32, opnum: u16, requestStub: seq<byte>) returns (r: Result<()>)
      modifies transport
      ensures Stepped(transport.State(), r) == SendRequest(old(State()), id, opnum, requestStub)
    {
      hide PacketBytes, FromRequestWithFlags, SendOn;
      if maxXmitFrag < CALL_OVERHEAD {
        return Failure(InvalidPdu("max transmit fragment is too small"));
      }
      var maxStubPerFrag := maxXmitFrag - CALL_OVERHEAD;
      if maxStubPerFrag == 0 {
        return Failure(InvalidPdu("max transmit fragment is too small"));
      }
      ghost var target := Target(id, contextId, opnum);
      ghost var planned := SendPackets(old(transport.State()), FragmentPlan(target, maxXmitFrag, requestStub));
      if requestStub == [] {
        var packet := RequestPacket(id, FIRST_AND_LAST, RequestPdu(0, contextId, opnum, None, requestStub));
        if packet.Failure? {
          return Failure(packet.error);
        }
        assert FragmentPlan(target, maxXmitFrag, requestStub) == [packet.value] && [packet.value][1..] == [];
        r := EncodeAndSend(packet.value);
        assert r.Success? ==> SendPackets(transport.State(), []) == Stepped(transport.State(), r);
        return;
      }
      var hint := |requestStub| % 0x1_0000_0000;
      var offset := 0;
      assert requestStub[0..] == requestStub;
      while offset < |requestStub|
        invariant offset <= |requestStub|
        invariant !Supported(level) ==> offset == 0 && transport.State() == old(transport.State())
        invariant offset < |requestStub| ==>
                    planned == SendPackets(transport.State(),
                                           RequestFragments(target, hint, offset == 0,
                                                            Chunks(requestStub[offset..], maxStubPerFrag)))
        invariant offset == |requestStub| ==> planned == Stepped(transport.State(), Success(()))
      {
        var end := if offset + maxStubPerFrag < |requestStub| then offset + maxStubPerFrag else |requestStub|;
        var flags := 0;
        if offset == 0 {
          flags := flags + PFC_FIRST_FRAG;
        }
        if end == |requestStub| {
          flags := flags + PFC_LAST_FRAG;
        }
        var packet := RequestPacket(id, flags, RequestPdu(hint, contextId, opnum, None, requestStub[offset..end]));
        if packet.Failure? {
          return Failure(packet.error);
        }
        ghost var rest := requestStub[offset..];
        if end == |requestStub| {
          assert requestStub[offset..end] == rest;
        } else {
          assert requestStub[offset..end] == rest[..maxStubPerFrag];
          assert rest[maxStubPerFrag..] == requestStub[end..];
        }
        var sending := EncodeAndSend(packet.value);
        if sending.Failure? {
          return sending;
        }
        offset := end;
      }
      return Success(());
    }

    method RequestPacket(id: u32, flags: byte, request: RequestPdu) returns (r: Result<PduPacket>)
      ensures r == if Supported(level) then Success(FromRequestWithFlags(id, flags, request))
                   else Failure(UnsupportedLevel(level.value))
    {
      if level.None? {
        return Success(FromRequestWithFlags(id, flags, request));
      }
      match level.value
      case LevelNone | Connect =>
        return Success(FromRequestWithFlags(id, flags, request));
      case PacketIntegrity =>
        return Failure(Auth("RPC auth level PacketIntegrity is not supported in v1"));
      case PacketPrivacy =>
        return Failure(Auth("RPC auth level PacketPrivacy is not supported in v1"));
    }

    method EncodeAndSend(packet: PduPacket) returns (r: Result<()>)
      modifies transport
      ensures PacketBytes(packet).Failure? ==>
                transport.State() == old(transport.State()) && r == Failure(PacketBytes(packet).error)
      ensures PacketBytes(packet).Success? ==>
                Stepped(transport.State(), r) == SendOn(old(transport.State()), PacketBytes(packet).value)
    {
      var bytes := EncodePacket(packet);
      if bytes.Failure? {
        return Failure(bytes.error);
      }
      r := transport.SendPdu(bytes.value);
    }

    method VerifyResponsePacket() returns (r: Result<()>)
      ensures r == if Supported(level) then Success(()) else Failure(UnsupportedLevel(level.value))
    {
      if level.None? {
        return Success(());
      }
      match level.value
      case LevelNone | Connect =>
        return Success(());
      case PacketIntegrity =>
        return Failure(Auth("RPC auth level PacketIntegrity is not supported in v1"));
      case PacketPrivacy =>
        return Failure(Auth("RPC auth level PacketPrivacy is not supported in v1"));
    }

    method RecvResponseFragments(expected: u32) returns (r: Result<seq<byte>>)
      modifies transport`incoming
      ensures Reassembled(transport.incoming, r) ==
              Reassemble(old(transport.incoming), level, expected, [], false)
    {
      var responseStub: seq<byte> := [];
      var sawFirst := false;
      while true
        invariant Reassemble(old(transport.incoming), level, expected, [], false) ==
                  Reassemble(transport.incoming, level, expected, responseStub, sawFirst)
        decreases transport.incoming.Size()
      {
        var bytes :- transport.RecvPdu();
        var packet :- DecodePacket(bytes);
        var _ :- VerifyResponsePacket();
        if packet.header.callId != expected {
          return Failure(InvalidPdu("response call id does not match request"));
        }
        match packet.header.ptype
        case Response =>
          if HasFirst(packet.header.flags) {
            sawFirst := true;
          }
          if !sawFirst {
            return Failure(InvalidPdu("response is missing first fragment"));
          }
          var response :- DecodeResponse(packet.body);
          responseStub := responseStub + response.stub;
          if HasLast(packet.header.flags) {
            return Success(responseStub);
          }
        case Fault =>
          var fault :- DecodeFault(packet.body);
          return Failure(RpcFault(fault.status));
        case _ =>
          return Failure(InvalidPdu("expected response or fault PDU"));
      }
    }

    // -------------------------------------------------------------- bind

    /** The objects and the result of a bind attempt are as the function on states says. */
    static ghost predicate Realises(transport: Transport, provider: AuthProvider?, r: Result<RpcClient>, b: Bound)
      reads transport, provider, if r.Success? then {r.value, r.value.transport} else {}
    {
      && transport.State() == b.wire
      && ViewOf(provider) == b.provider
      && match r
         case Success(client) => client.transport == transport && b.result == Success(client.State())
         case Failure(e) => b.result == Failure(e)
    }

    static method BindInterface(transport: Transport, id: InterfaceId) returns (r: Result<RpcClient>)
      modifies transport
      ensures r.Success? ==> fresh(r.value)
      ensures Realises(transport, null, r, BindClient(old(transport.State()), InterfaceProposal(id), "", None))
    {
      r := BindWithContexts(transport, [PresentationContext(0, InterfaceSyntax(id), [NDR32])], "", null);
    }

    static method BindWithContexts(transport: Transport, proposed: seq<PresentationContext>,
                                   target: string, provider: AuthProvider?)
      returns (r: Result<RpcClient>)
      modifies transport, provider
      ensures r.Success? ==> fresh(r.value)
      ensures Realises(transport, provider, r,
                       BindClient(old(transport.State()), proposed, target, old(ViewOf(provider))))
    {
      hide Offer, AwaitAnswer;
      if proposed == [] {
        return Failure(InvalidPdu("bind requires at least one presentation context"));
      }
      var token: seq<byte> := [];
      if provider != null {
        token :- provider.InitContext(target);
      }
      var bytes :- EncodeOffer(proposed, provider, token);
      var _ :- transport.SendPdu(bytes);
      r := AwaitBindAnswer(transport, proposed, provider);
    }

    static method EncodeOffer(proposed: seq<PresentationContext>, provider: AuthProvider?, token: seq<byte>)
      returns (r: Result<seq<byte>>)
      ensures r == Offer(proposed, ViewOf(provider), token)
    {
      hide ContextListBytes, PacketBytes, BindBody;
      var contextList :- EncodeContextList(proposed);
      var bindBody := BindBody(BindPdu(DEFAULT_MAX_XMIT_FRAG, DEFAULT_MAX_XMIT_FRAG, 0, contextList));
      var packet := PduPacket(NewHeader(PduType.Bind, FIRST_AND_LAST, BIND_CALL_ID), bindBody, None, []);
      if provider != null {
        packet :- AuthenticatedPacket(PduType.Bind, bindBody, provider.View(), token);
      }
      r := EncodePacket(packet);
    }

    static method AwaitBindAnswer(transport: Transport, proposed: seq<PresentationContext>, provider: AuthProvider?)
      returns (r: Result<RpcClient>)
      modifies transport, provider
      ensures r.Success? ==> fresh(r.value)
      ensures Realises(transport, provider, r,
                       AwaitAnswer(old(transport.State()), proposed, old(ViewOf(provider))))
    {
      hide DecodePacket, ParseBindAck, DecodeBindNak, Negotiated, CompleteBind, Receive;
      var answer :- transport.RecvPdu();
      var response :- DecodePacket(answer);
      if response.header.callId != BIND_CALL_ID {
        return Failure(InvalidPdu("bind response call id mismatch"));
      }
      match response.header.ptype
      case BindAck =>
        var ack :- DecodeBindAck(response.body);
        var accepted :- ChooseContext(ack.results, proposed);
        r := FinishBind(transport, provider, response.authValue, accepted.contextId, ack.maxXmitFrag);
      case BindNak =>
        var reason :- DecodeBindNak(response.body);
        return Failure(BindRejected(reason));
      case _ =>
        return Failure(InvalidPdu("expected bind ack or bind nak PDU"));
    }

    static method FinishBind(transport: Transport, provider: AuthProvider?, challenge: seq<byte>,
                             contextId: u16, maxXmitFrag: u16)
      returns (r: Result<RpcClient>)
      modifies transport, provider
      ensures r.Success? ==> fresh(r.value)
      ensures Realises(transport, provider, r,
                       CompleteBind(old(transport.State()), old(ViewOf(provider)), challenge, contextId, maxXmitFrag))
    {
      hide PacketBytes, NewHeader;
      if provider != null && challenge != [] {
        var token :- provider.Step(challenge);
        if token != [] {
          var auth3 :- AuthenticatedPacket(Auth3, AUTH3_BODY, provider.View(), token);
          var bytes :- EncodePacket(auth3);
          var _ :- transport.SendPdu(bytes);
        }
      }
      var level := if provider == null then None else Some(provider.level);
      var client := new RpcClient.Bound(transport, contextId, BIND_CALL_ID + 1, maxXmitFrag, level);
      return Success(client);
    }
  }
}
