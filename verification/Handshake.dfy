/** What a bind handshake does, as functions on the transport's and the provider's state. */
module Handshake {
  import opened Bytes
  import opened WireCodes
  import opened Errors
  import opened Pdu
  import opened Syntax
  import opened Bind
  import opened Wires
  import opened Calls

  const BIND_CALL_ID: u32 := 1
  const AUTH3_BODY: seq<byte> := [0x20, 0x20, 0x20, 0x20]

  // ---------------------------------------------------------------- providers

  datatype ProviderEvent = Init(target: string) | Challenge(token: seq<byte>)

  datatype ProviderReply = Token(bytes: seq<byte>) | Refused(message: string)

  /** An authentication mechanism: a constant level and identity, and any reaction to what it saw. */
  datatype Provider = Provider(
    level: AuthLevel, authType: AuthType, contextId: u32,
    respond: seq<ProviderEvent> -> ProviderReply, history: seq<ProviderEvent>)
  {
    function Saw(event: ProviderEvent): Provider {
      this.(history := history + [event])
    }

    /** The reply to the last event. */
    function Reply(): Result<seq<byte>> {
      match respond(history)
      case Token(bytes) => Success(bytes)
      case Refused(message) => Failure(Auth(message))
    }
  }

  function LevelOf(provider: Option<Provider>): Option<AuthLevel> {
    match provider
    case Some(p) => Some(p.level)
    case None => None
  }

  // ---------------------------------------------------------------- authenticated packets

  function AuthPadding(bodyLen: nat): (pad: byte)
    ensures (bodyLen + pad) % 4 == 0 && pad < 4
  {
    (4 - bodyLen % 4) % 4
  }

  function AuthenticatedPacket(ptype: PduType, body: seq<byte>, p: Provider, token: seq<byte>)
    : Result<PduPacket>
  {
    if !Supported(Some(p.level)) then
      Failure(Auth("RPC auth levels above Connect are not supported in v1"))
    else
      Success(PduPacket(
        NewHeader(ptype, FIRST_AND_LAST, BIND_CALL_ID), body,
        Some(SecurityTrailer(p.authType, p.level, AuthPadding(|body|), 0, p.contextId)), token))
  }

  /** The body of a bind that proposes these contexts. */
  function OfferBody(proposed: seq<PresentationContext>): Result<seq<byte>> {
    var list :- ContextListBytes(proposed);
    Success(BindBody(BindPdu(DEFAULT_MAX_XMIT_FRAG, DEFAULT_MAX_XMIT_FRAG, 0, list)))
  }

  /** What the plain `bind` proposes: the interface under NDR32, as context 0. */
  function InterfaceProposal(id: InterfaceId): seq<PresentationContext> {
    [PresentationContext(0, InterfaceSyntax(id), [NDR32])]
  }

  /** The encoded bind PDU; `token` is used only with a provider. */
  function Offer(proposed: seq<PresentationContext>, provider: Option<Provider>, token: seq<byte>)
    : Result<seq<byte>>
  {
    var body :- OfferBody(proposed);
    match provider
    case None =>
      PacketBytes(PduPacket(NewHeader(PduType.Bind, FIRST_AND_LAST, BIND_CALL_ID), body, None, []))
    case Some(p) =>
      var packet :- AuthenticatedPacket(PduType.Bind, body, p, token);
      PacketBytes(packet)
  }

  function Auth3Pdu(p: Provider, token: seq<byte>): Result<seq<byte>> {
    var packet :- AuthenticatedPacket(Auth3, AUTH3_BODY, p, token);
    PacketBytes(packet)
  }

  // ---------------------------------------------------------------- the handshake

  /** Both parties' state after a bind attempt, and the bound client or the error. */
  datatype Bound = Bound(wire: Wire, provider: Option<Provider>, result: Result<ClientState>)

  function BindClient(w: Wire, proposed: seq<PresentationContext>, target: string, provider: Option<Provider>)
    : Bound
  {
    if proposed == [] then
      Bound(w, provider, Failure(InvalidPdu("bind requires at least one presentation context")))
    else
      match provider
      case None => SendOffer(w, proposed, None, Offer(proposed, None, []))
      case Some(p) =>
        var asked := p.Saw(Init(target));
        match asked.Reply()
        case Failure(e) => Bound(w, Some(asked), Failure(e))
        case Success(token) => SendOffer(w, proposed, Some(asked), Offer(proposed, Some(asked), token))
  }

  function SendOffer(w: Wire, proposed: seq<PresentationContext>, provider: Option<Provider>,
                     offer: Result<seq<byte>>): Bound
  {
    match offer
    case Failure(e) => Bound(w, provider, Failure(e))
    case Success(bytes) =>
      var sent := SendOn(w, bytes);
      match sent.result
      case Failure(e) => Bound(sent.wire, provider, Failure(e))
      case Success(_) => AwaitAnswer(sent.wire, proposed, provider)
  }

  function AwaitAnswer(w: Wire, proposed: seq<PresentationContext>, provider: Option<Provider>): Bound {
    var received := Receive(w.incoming);
    var after := w.(incoming := received.rest);
    match received.pdu
    case Failure(e) => Bound(after, provider, Failure(e))
    case Success(bytes) =>
      match DecodePacket(bytes)
      case Failure(e) => Bound(after, provider, Failure(e))
      case Success(response) => JudgeAnswer(after, proposed, provider, response)
  }

  function JudgeAnswer(w: Wire, proposed: seq<PresentationContext>, provider: Option<Provider>,
                       response: PduPacket): Bound
  {
    if response.header.callId != BIND_CALL_ID then
      Bound(w, provider, Failure(InvalidPdu("bind response call id mismatch")))
    else
      match response.header.ptype
      case BindAck =>
        (match ParseBindAck(response.body)
         case Failure(e) => Bound(w, provider, Failure(e))
         case Success(ack) =>
           match Negotiated(ack.results, proposed)
           case Failure(e) => Bound(w, provider, Failure(e))
           case Success(accepted) =>
             CompleteBind(w, provider, response.authValue, accepted.contextId, ack.maxXmitFrag))
      case BindNak =>
        (match DecodeBindNak(response.body)
         case Failure(e) => Bound(w, provider, Failure(e))
         case Success(reason) => Bound(w, provider, Failure(BindRejected(reason))))
      case _ =>
        Bound(w, provider, Failure(InvalidPdu("expected bind ack or bind nak PDU")))
  }

  /** Answers the server's challenge, if there is one, and hands out the bound client. */
  function CompleteBind(w: Wire, provider: Option<Provider>, challenge: seq<byte>,
                        contextId: u16, maxXmitFrag: u16): Bound
  {
    var client := ClientState(contextId, BIND_CALL_ID + 1, maxXmitFrag, LevelOf(provider), w);
    if provider.None? || challenge == [] then
      Bound(w, provider, Success(client))
    else
      var asked := provider.value.Saw(Challenge(challenge));
      match asked.Reply()
      case Failure(e) => Bound(w, Some(asked), Failure(e))
      case Success(token) =>
        if token == [] then
          Bound(w, Some(asked), Success(client))
        else
          match Auth3Pdu(asked, token)
          case Failure(e) => Bound(w, Some(asked), Failure(e))
          case Success(bytes) =>
            var sent := SendOn(w, bytes);
            match sent.result
            case Failure(e) => Bound(sent.wire, Some(asked), Failure(e))
            case Success(_) => Bound(sent.wire, Some(asked), Success(client.(wire := sent.wire)))
  }
}
