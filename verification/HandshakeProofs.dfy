/** What a bind offers, what a successful handshake leaves behind, and a full session. */
module HandshakeProofs {
  import opened Bytes
  import opened WireCodes
  import opened Errors
  import opened Pdu
  import opened PduProofs
  import opened Syntax
  import opened Bind
  import opened BindProofs
  import opened Wires
  import opened Framing
  import opened Calls
  import opened Handshake
  import opened Fragmentation
  import opened Runs
  import opened Conversations
  import opened Reassembly

  // ---------------------------------------------------------------- the offer

  /** Bind bodies are a multiple of four bytes long, so a trailer after one needs no padding. */
  lemma OfferAligned(proposed: seq<PresentationContext>)
    requires OfferBody(proposed).Success?
    ensures |OfferBody(proposed).value| % 4 == 0
    ensures AuthPadding(|OfferBody(proposed).value|) == 0
  {
    hide ContextsBytes;
    ContextsAligned(proposed);
  }

  /** What a server reads in a bind PDU. */
  datatype Offered = Offered(
    bind: BindPdu, contexts: seq<PresentationContext>, trailer: Option<SecurityTrailer>, token: seq<byte>)

  function ReadOffer(pdu: seq<byte>): Result<Offered> {
    var p :- DecodePacket(pdu);
    var bind :- DecodeBind(p.body);
    var contexts :- ParseContextList(bind.contextList);
    if p.header.ptype != PduType.Bind then Failure(InvalidPdu("not a bind"))
    else Success(Offered(bind, contexts, p.trailer, p.authValue))
  }

  /** The packet an offer encodes. */
  function OfferPacket(proposed: seq<PresentationContext>, provider: Option<Provider>, token: seq<byte>): PduPacket
    requires AllEncodable(proposed)
  {
    var body := OfferBody(proposed).value;
    PduPacket(
      NewHeader(PduType.Bind, FIRST_AND_LAST, BIND_CALL_ID), body,
      match provider
      case None => None
      case Some(p) => Some(SecurityTrailer(p.authType, p.level, AuthPadding(|body|), 0, p.contextId)),
      if provider.None? then [] else token)
  }

  lemma OfferIsPacket(proposed: seq<PresentationContext>, provider: Option<Provider>, token: seq<byte>)
    requires Offer(proposed, provider, token).Success?
    ensures AllEncodable(proposed) && Supported(LevelOf(provider))
    ensures Offer(proposed, provider, token) == PacketBytes(OfferPacket(proposed, provider, token))
    ensures ReadableHeader(OfferPacket(proposed, provider, token).header)
  {
  }

  /** The body a server sees: the bind body, plus a trailer that no token protects. */
  function SeenBody(proposed: seq<PresentationContext>, provider: Option<Provider>, token: seq<byte>): seq<byte>
    requires AllEncodable(proposed)
  {
    var p := OfferPacket(proposed, provider, token);
    if p.trailer.Some? && p.authValue == []
    then p.body + Zeros(PadLength(p)) + TrailerBytes(p.trailer.value)
    else p.body
  }

  lemma OfferDecodes(proposed: seq<PresentationContext>, provider: Option<Provider>, token: seq<byte>)
    requires Offer(proposed, provider, token).Success?
    ensures AllEncodable(proposed)
    ensures var r := DecodePacket(Offer(proposed, provider, token).value);
            && r.Success?
            && r.value.header.ptype == PduType.Bind && r.value.header.callId == BIND_CALL_ID
            && r.value.body == SeenBody(proposed, provider, token)
            && (r.value.authValue == if provider.None? then [] else token)
            && (provider.None? || token != [] ==>
                  r.value.trailer == OfferPacket(proposed, provider, token).trailer)
  {
    hide PacketBytes, DecodePacket, OfferBody, TrailerBytes;
    OfferIsPacket(proposed, provider, token);
    var p := OfferPacket(proposed, provider, token);
    if p.trailer.Some? && p.authValue == [] {
      EmptyAuthFoldsIntoBody(p);
    } else {
      PacketRoundTrip(p);
    }
  }

  /**
   * Bind offer fidelity, sharp form. A server that decodes an offer through packet, bind body and
   * context list gets back exactly the proposed contexts, the provider's identity and the token if
   * and only if there are at most 255 contexts and the provider, if any, produced a non-empty token;
   * otherwise it gets an error.
   */
  lemma OfferFidelity(proposed: seq<PresentationContext>, provider: Option<Provider>, token: seq<byte>)
    requires Offer(proposed, provider, token).Success?
    ensures AllEncodable(proposed)
    ensures ReadOffer(Offer(proposed, provider, token).value) ==
            if |proposed| <= 0xFF && (provider.None? || token != []) then
              Success(Offered(
                BindPdu(DEFAULT_MAX_XMIT_FRAG, DEFAULT_MAX_XMIT_FRAG, 0, ContextListBytes(proposed).value),
                proposed,
                match provider
                case None => None
                case Some(p) => Some(SecurityTrailer(p.authType, p.level, 0, 0, p.contextId)),
                if provider.None? then [] else token))
            else
              Failure(InvalidPdu("presentation context list has trailing bytes"))
  {
    hide DecodePacket, Offer, DecodeBind, ParseContextList, ContextListBytes, TrailerBytes;
    OfferDecodes(proposed, provider, token);
    var p := OfferPacket(proposed, provider, token);
    var extra := if p.trailer.Some? && p.authValue == []
                 then Zeros(PadLength(p)) + TrailerBytes(p.trailer.value) else [];
    OfferBodyRead(proposed, extra);
    OfferAligned(proposed);
    assert SeenBody(proposed, provider, token) == OfferBody(proposed).value + extra;
    ContextListRoundTrip(proposed, extra);
    assert ContextListBytes(proposed).value + [] == ContextListBytes(proposed).value;
  }

  lemma OfferBodyRead(proposed: seq<PresentationContext>, extra: seq<byte>)
    requires AllEncodable(proposed)
    ensures OfferBody(proposed).Success?
    ensures DecodeBind(OfferBody(proposed).value + extra) ==
            Success(BindPdu(DEFAULT_MAX_XMIT_FRAG, DEFAULT_MAX_XMIT_FRAG, 0, ListWire(proposed, extra)))
  {
    hide DecodeBind;
    var list := ContextListBytes(proposed).value;
    var bind := BindPdu(DEFAULT_MAX_XMIT_FRAG, DEFAULT_MAX_XMIT_FRAG, 0, list + extra);
    BindBodyRoundTrip(bind);
    assert BindBody(bind) == OfferBody(proposed).value + extra;
  }

  /** An offer can be made exactly when the counts fit, the level is supported and it fits a fragment. */
  lemma OfferSucceedsIff(proposed: seq<PresentationContext>, provider: Option<Provider>, token: seq<byte>)
    ensures Offer(proposed, provider, token).Success? <==>
            && AllEncodable(proposed)
            && (provider.None? || provider.value.level == LevelNone || provider.value.level == Connect)
            && COMMON_HEADER_LEN + |OfferBody(proposed).value|
                 + (if provider.None? then 0 else TRAILER_LEN + |token|) <= 0xFFFF
  {
    hide BindBody, Layout, AuthPadding;
    if AllEncodable(proposed) {
      OfferAligned(proposed);
    }
  }

  /** A uuid in its wire order, and a two-part version, least significant bytes first. */
  function UuidAndVersion(u: Uuid, major: u16, minor: u16): (bytes: seq<byte>)
    ensures |bytes| == 20
  {
    [u[3], u[2], u[1], u[0], u[5], u[4], u[7], u[6], u[8], u[9], u[10], u[11], u[12], u[13], u[14], u[15],
     major % 0x100, major / 0x100, minor % 0x100, minor / 0x100]
  }

  /** The part of an interface's offer behind the header: limits, list, context and the two syntax ids. */
  lemma InterfaceBody(id: InterfaceId)
    ensures OfferBody(InterfaceProposal(id)) ==
            Success(
              [0xB8, 0x10, 0xB8, 0x10, 0, 0, 0, 0, 1, 0, 0, 0, 0, 0, 1, 0]
              + UuidAndVersion(id.uuid, id.major, id.minor)
              + [0x04, 0x5D, 0x88, 0x8A, 0xEB, 0x1C, 0xC9, 0x11, 0x9F, 0xE8,
                 0x08, 0x00, 0x2B, 0x10, 0x48, 0x60, 0x02, 0x00, 0x00, 0x00])
  {
    hide SyntaxBytes, UuidAndVersion, ContextListBytes, InterfaceProposal;
    InterfaceSyntaxWire(id);
    Ndr32Wire();
    InterfaceList(id);
    var list := ContextListBytes(InterfaceProposal(id)).value;
    assert OfferBody(InterfaceProposal(id)).value == [0xB8, 0x10, 0xB8, 0x10, 0, 0, 0, 0] + list;
    assert OfferBody(InterfaceProposal(id)).value ==
           [0xB8, 0x10, 0xB8, 0x10, 0, 0, 0, 0, 1, 0, 0, 0, 0, 0, 1, 0]
           + SyntaxBytes(InterfaceSyntax(id)) + SyntaxBytes(NDR32);
  }

  lemma InterfaceList(id: InterfaceId)
    ensures ContextListBytes(InterfaceProposal(id)).Success?
    ensures ContextListBytes(InterfaceProposal(id)).value ==
            [1, 0, 0, 0, 0, 0, 1, 0] + (SyntaxBytes(InterfaceSyntax(id)) + SyntaxBytes(NDR32))
  {
    hide SyntaxBytes, InterfaceSyntax;
    var proposed := InterfaceProposal(id);
    var both := SyntaxBytes(InterfaceSyntax(id)) + SyntaxBytes(NDR32);
    assert SyntaxListBytes([NDR32]) == SyntaxBytes(NDR32) + SyntaxListBytes([]);
    assert ContextBytes(proposed[0]) == [0, 0, 1, 0] + both;
    assert ContextsBytes(proposed) == ContextBytes(proposed[0]) + ContextsBytes(proposed[1..]);
  }

  lemma InterfaceSyntaxWire(id: InterfaceId)
    ensures SyntaxBytes(InterfaceSyntax(id)) == UuidAndVersion(id.uuid, id.major, id.minor)
  {
    hide U32Bytes;
    VersionBytes(id.major, id.minor);
  }

  lemma InterfaceHeader()
    ensures HeaderBytes(NewHeader(PduType.Bind, FIRST_AND_LAST, BIND_CALL_ID).(fragLength := 72)) ==
            [5, 0, 0x0B, 3, 0x10, 0, 0, 0, 72, 0, 0, 0, 1, 0, 0, 0]
  {
  }

  /**
   * The offer for an interface always goes out, as these 72 bytes: header, limits, one context with
   * id 0, the interface's uuid and version, and NDR32; and it reads back as the one proposal.
   */
  lemma InterfaceOffer(id: InterfaceId)
    ensures Offer(InterfaceProposal(id), None, []) ==
            Success(
              [5, 0, 0x0B, 3, 0x10, 0, 0, 0, 72, 0, 0, 0, 1, 0, 0, 0]
              + ([0xB8, 0x10, 0xB8, 0x10, 0, 0, 0, 0, 1, 0, 0, 0, 0, 0, 1, 0]
                 + UuidAndVersion(id.uuid, id.major, id.minor)
                 + [0x04, 0x5D, 0x88, 0x8A, 0xEB, 0x1C, 0xC9, 0x11, 0x9F, 0xE8,
                    0x08, 0x00, 0x2B, 0x10, 0x48, 0x60, 0x02, 0x00, 0x00, 0x00]))
    ensures var proposed := InterfaceProposal(id);
            && Offer(proposed, None, []).Success?
            && ReadOffer(Offer(proposed, None, []).value).Success?
            && ReadOffer(Offer(proposed, None, []).value).value.contexts == proposed
  {
    hide ReadOffer, OfferBody, HeaderBytes, InterfaceProposal, UuidAndVersion;
    InterfaceBody(id);
    InterfaceHeader();
    BodyOnlyBytes(NewHeader(PduType.Bind, FIRST_AND_LAST, BIND_CALL_ID), OfferBody(InterfaceProposal(id)).value);
    OfferFidelity(InterfaceProposal(id), None, []);
    OneContext(id);
  }

  lemma OneContext(id: InterfaceId)
    ensures |InterfaceProposal(id)| == 1
  {
  }

  lemma BodyOnlyBytes(h: PduHeader, body: seq<byte>)
    requires |body| <= 0xFFFF - COMMON_HEADER_LEN
    ensures PacketBytes(PduPacket(h, body, None, [])) ==
            Success(HeaderBytes(h.(fragLength := COMMON_HEADER_LEN + |body|, authLength := 0)) + body)
  {
    hide HeaderBytes;
    var p := PduPacket(h, body, None, []);
    assert Layout(Normalised(p), Zeros(0)) == HeaderBytes(Normalised(p).header) + body;
  }

  // ---------------------------------------------------------------- the handshake

  /** The provider after it was asked for its first token. */
  function Asked(provider: Option<Provider>, target: string): Option<Provider> {
    match provider
    case Some(p) => Some(p.Saw(Init(target)))
    case None => None
  }

  /** The answer to the server's challenge; empty when there is nothing to answer. */
  function ChallengeAnswer(asked: Option<Provider>, challenge: seq<byte>): seq<byte> {
    if asked.Some? && challenge != [] then
      match asked.value.Saw(Challenge(challenge)).Reply()
      case Success(token) => token
      case Failure(_) => []
    else []
  }

  /** The last step of a handshake sends AUTH3 exactly when there is an answer to send. */
  lemma CompletedBind(w: Wire, asked: Option<Provider>, challenge: seq<byte>, contextId: u16, maxXmitFrag: u16)
    requires CompleteBind(w, asked, challenge, contextId, maxXmitFrag).result.Success?
    ensures var b := CompleteBind(w, asked, challenge, contextId, maxXmitFrag);
            var answer := ChallengeAnswer(asked, challenge);
            && b.result.value == ClientState(contextId, 2, maxXmitFrag, LevelOf(asked), b.wire)
            && b.wire.incoming == w.incoming
            && (answer == [] ==> b.wire.sent == w.sent)
            && (answer != [] ==>
                  && Auth3Pdu(asked.value, answer).Success?
                  && b.wire.sent == w.sent + [Auth3Pdu(asked.value, answer).value])
  {
  }

  /** AUTH3 decodes to its fixed four-byte body and the token, with no padding. */
  lemma Auth3Decodes(p: Provider, token: seq<byte>)
    requires token != [] && Auth3Pdu(p, token).Success?
    ensures DecodePacket(Auth3Pdu(p, token).value).Success?
    ensures var d := DecodePacket(Auth3Pdu(p, token).value).value;
            && d.header.ptype == Auth3 && d.header.callId == BIND_CALL_ID
            && d.body == AUTH3_BODY && d.authValue == token
            && d.trailer == Some(SecurityTrailer(p.authType, p.level, 0, 0, p.contextId))
  {
    hide PacketBytes, DecodePacket;
    var packet := AuthenticatedPacket(Auth3, AUTH3_BODY, p, token).value;
    PacketRoundTrip(packet);
  }

  /** AUTH3 can be sent exactly at a supported level with a token that fits a fragment. */
  lemma Auth3SucceedsIff(p: Provider, token: seq<byte>)
    ensures Auth3Pdu(p, token).Success? <==> (p.level == LevelNone || p.level == Connect) && |token| <= 0xFFFF - 28
  {
  }

  /** The AUTH3 PDU that answers a challenge, or nothing. */
  function Auth3Log(asked: Option<Provider>, challenge: seq<byte>): (pdus: seq<seq<byte>>) {
    var reply := ChallengeAnswer(asked, challenge);
    if reply == [] then
      []
    else
      match Auth3Pdu(asked.value, reply)
      case Success(pdu) => [pdu]
      case Failure(_) => []
  }

  /**
   * Handshake run. Every successful bind consumed exactly one PDU, a BIND_ACK for call 1; it sent
   * the offer, and after it AUTH3 exactly when there was a challenge and a non-empty answer; and the
   * client holds the context at the least accepted index, call id 2 and the ack's transmit limit.
   */
  lemma HandshakeRun(w: Wire, proposed: seq<PresentationContext>, target: string, provider: Option<Provider>)
    returns (offer: seq<byte>, answer: PduPacket, ack: BindAckPdu, k: nat)
    requires BindClient(w, proposed, target, provider).result.Success?
    ensures var b := BindClient(w, proposed, target, provider);
            var client, received, asked := b.result.value, Receive(w.incoming), Asked(provider, target);
            && received.pdu.Success? && DecodePacket(received.pdu.value) == Success(answer)
            && answer.header.ptype == BindAck && answer.header.callId == BIND_CALL_ID
            && ParseBindAck(answer.body) == Success(ack)
            && LeastAccepted(ack.results, k) && k < |proposed|
            && client == ClientState(proposed[k].contextId, 2, ack.maxXmitFrag, LevelOf(provider), b.wire)
            && client.wire.incoming == received.rest
            && client.wire.sent == w.sent + [offer] + Auth3Log(asked, answer.authValue)
            && |Auth3Log(asked, answer.authValue)| == (if ChallengeAnswer(asked, answer.authValue) == [] then 0 else 1)
    ensures IsOfferFor(offer, proposed, Asked(provider, target))
  {
    hide Offer, DecodePacket, ParseBindAck, Negotiated, CompleteBind, DecodeBindNak, Receive, Auth3Pdu, LeastAccepted;
    var asked := Asked(provider, target);
    offer := Offer(proposed, asked, FirstToken(asked)).value;
    assert IsOfferFor(offer, proposed, asked);
    var sent := SendOn(w, offer).wire;
    var received := Receive(w.incoming);
    answer := DecodePacket(received.pdu.value).value;
    ack := ParseBindAck(answer.body).value;
    k := AcceptedIndex(ack.results, proposed);
    CompletedBind(sent.(incoming := received.rest), asked, answer.authValue, proposed[k].contextId, ack.maxXmitFrag);
  }

  /** The first token of a provider that gave one. */
  function FirstToken(asked: Option<Provider>): seq<byte> {
    if asked.Some? && asked.value.Reply().Success? then asked.value.Reply().value else []
  }

  /** `pdu` is the encoded offer of these contexts with the provider's first token. */
  ghost predicate IsOfferFor(pdu: seq<byte>, proposed: seq<PresentationContext>, asked: Option<Provider>) {
    (asked.Some? ==> asked.value.Reply().Success?) && Offer(proposed, asked, FirstToken(asked)) == Success(pdu)
  }

  lemma AcceptedIndex(results: seq<PresentationResult>, proposed: seq<PresentationContext>) returns (k: nat)
    requires Negotiated(results, proposed).Success?
    ensures LeastAccepted(results, k) && k < |proposed|
    ensures Negotiated(results, proposed).value.contextId == proposed[k].contextId
  {
    k := FirstAcceptance(results);
  }

  // ---------------------------------------------------------------- failed attempts

  /** What any bind attempt can have done to the transport since `w`. */
  ghost predicate Attempted(w: Wire, proposed: seq<PresentationContext>, asked: Option<Provider>,
                            after: Wire, log: seq<seq<byte>>) {
    && after.sent == w.sent + log
    && (after.incoming == w.incoming || (log != [] && after.incoming == Receive(w.incoming).rest))
    && (log == []
        || (|log| == 1 && IsOfferFor(log[0], proposed, asked))
        || (|log| == 2 && IsOfferFor(log[0], proposed, asked)
            && exists challenge :: Auth3Log(asked, challenge) == [log[1]]))
  }

  lemma CompleteLog(w: Wire, asked: Option<Provider>, challenge: seq<byte>, contextId: u16, maxXmitFrag: u16)
    ensures var b := CompleteBind(w, asked, challenge, contextId, maxXmitFrag);
            && b.wire.incoming == w.incoming
            && (b.wire.sent == w.sent
                || (|Auth3Log(asked, challenge)| == 1 && b.wire.sent == w.sent + Auth3Log(asked, challenge)))
  {
    hide PacketBytes;
  }

  lemma AnswerLog(w: Wire, proposed: seq<PresentationContext>, asked: Option<Provider>)
    returns (more: seq<seq<byte>>)
    ensures var b := AwaitAnswer(w, proposed, asked);
            && b.wire.incoming == Receive(w.incoming).rest
            && b.wire.sent == w.sent + more
            && (more == [] || (|more| == 1 && exists challenge :: Auth3Log(asked, challenge) == [more[0]]))
  {
    hide Receive, DecodePacket, ParseBindAck, Negotiated, DecodeBindNak, CompleteBind, Auth3Log;
    more := [];
    var b, received := AwaitAnswer(w, proposed, asked), Receive(w.incoming);
    if b.wire.sent != w.sent {
      var answer := DecodePacket(received.pdu.value).value;
      var ack := ParseBindAck(answer.body).value;
      var accepted := Negotiated(ack.results, proposed).value;
      CompleteLog(w.(incoming := received.rest), asked, answer.authValue, accepted.contextId, ack.maxXmitFrag);
      more := Auth3Log(asked, answer.authValue);
      assert more == [more[0]];
    } else {
      assert w.sent + [] == w.sent;
      AnswerTakesOne(w, proposed, asked);
    }
  }

  lemma AnswerTakesOne(w: Wire, proposed: seq<PresentationContext>, asked: Option<Provider>)
    ensures AwaitAnswer(w, proposed, asked).wire.incoming == Receive(w.incoming).rest
  {
    hide Receive, DecodePacket, ParseBindAck, Negotiated, DecodeBindNak, Auth3Pdu;
  }

  /**
   * Every bind attempt, successful or not, whatever the server, the provider and the transport do:
   * it adds nothing, the offer, or the offer and AUTH3 to the log, and takes at most one PDU.
   */
  lemma EveryBindAttempt(w: Wire, proposed: seq<PresentationContext>, target: string, provider: Option<Provider>)
    returns (log: seq<seq<byte>>)
    ensures Attempted(w, proposed, Asked(provider, target), BindClient(w, proposed, target, provider).wire, log)
    ensures BindClient(w, proposed, target, provider).result.Success? ==> log != []
  {
    hide Offer, AwaitAnswer, Receive, Auth3Log;
    log := [];
    var asked := Asked(provider, target);
    if proposed != [] && (provider.Some? ==> asked.value.Reply().Success?) {
      var offer := Offer(proposed, asked, FirstToken(asked));
      if offer.Success? && SendOn(w, offer.value).result.Success? {
        var sent := SendOn(w, offer.value).wire;
        var more := AnswerLog(sent, proposed, asked);
        log := [offer.value] + more;
        assert w.sent + [offer.value] + more == w.sent + log;
      }
    }
  }

  // ---------------------------------------------------------------- when a bind succeeds

  /** The client can make the offer: the provider gives a token, and everything fits. */
  predicate CanOffer(proposed: seq<PresentationContext>, asked: Option<Provider>) {
    && proposed != []
    && (asked.Some? ==> asked.value.Reply().Success?)
    && AllEncodable(proposed)
    && (asked.None? || asked.value.level == LevelNone || asked.value.level == Connect)
    && COMMON_HEADER_LEN + |OfferBody(proposed).value|
         + (if asked.None? then 0 else TRAILER_LEN + |FirstToken(asked)|) <= 0xFFFF
  }

  /** The server's answer is a usable acceptance of one of the proposed contexts. */
  ghost predicate Accepts(incoming: Incoming, proposed: seq<PresentationContext>, answer: PduPacket) {
    && Receive(incoming).pdu.Success?
    && DecodePacket(Receive(incoming).pdu.value) == Success(answer)
    && answer.header.callId == BIND_CALL_ID && answer.header.ptype == BindAck
    && ParseBindAck(answer.body).Success?
    && exists k: nat :: LeastAccepted(ParseBindAck(answer.body).value.results, k) && k < |proposed|
  }

  /** The provider can answer the challenge, if there is one, with a token that fits a fragment. */
  predicate CanAnswer(asked: Option<Provider>, challenge: seq<byte>) {
    asked.Some? && challenge != [] ==>
      var reply := asked.value.Saw(Challenge(challenge)).Reply();
      reply.Success? && |reply.value| <= 0xFFFF - 28
  }

  lemma CompleteSucceedsIff(w: Wire, asked: Option<Provider>, challenge: seq<byte>, contextId: u16, maxXmitFrag: u16)
    requires NoFaults(w) && Supported(LevelOf(asked))
    ensures CompleteBind(w, asked, challenge, contextId, maxXmitFrag).result.Success? <==> CanAnswer(asked, challenge)
  {
    hide Auth3Pdu;
    if asked.Some? && asked.value.Saw(Challenge(challenge)).Reply().Success? {
      var p := asked.value.Saw(Challenge(challenge));
      Auth3SucceedsIff(p, p.Reply().value);
    }
  }

  lemma AcceptanceIsDecoded(incoming: Incoming, proposed: seq<PresentationContext>, answer: PduPacket)
    requires Receive(incoming).pdu.Success? && DecodePacket(Receive(incoming).pdu.value) == Success(answer)
    ensures forall a :: Accepts(incoming, proposed, a) ==> a == answer
  {
    hide DecodePacket, ParseBindAck, Receive, LeastAccepted;
  }

  lemma JudgeSucceedsIff(w: Wire, proposed: seq<PresentationContext>, asked: Option<Provider>, answer: PduPacket)
    requires NoFaults(w) && Supported(LevelOf(asked))
    ensures JudgeAnswer(w, proposed, asked, answer).result.Success? <==>
            && answer.header.callId == BIND_CALL_ID && answer.header.ptype == BindAck
            && ParseBindAck(answer.body).Success?
            && Negotiated(ParseBindAck(answer.body).value.results, proposed).Success?
            && CanAnswer(asked, answer.authValue)
  {
    hide ParseBindAck, Negotiated, DecodeBindNak, CompleteBind, CanAnswer;
    if ParseBindAck(answer.body).Success? {
      var ack := ParseBindAck(answer.body).value;
      if Negotiated(ack.results, proposed).Success? {
        CompleteSucceedsIff(w, asked, answer.authValue,
                            Negotiated(ack.results, proposed).value.contextId, ack.maxXmitFrag);
      }
    }
  }

  lemma AnswerSucceedsIff(w: Wire, proposed: seq<PresentationContext>, asked: Option<Provider>)
    requires NoFaults(w) && Supported(LevelOf(asked))
    ensures AwaitAnswer(w, proposed, asked).result.Success? <==>
            exists answer :: Accepts(w.incoming, proposed, answer) && CanAnswer(asked, answer.authValue)
  {
    hide DecodePacket, ParseBindAck, Negotiated, Receive, LeastAccepted, JudgeAnswer, CanAnswer;
    var received := Receive(w.incoming).pdu;
    if received.Success? && DecodePacket(received.value).Success? {
      var answer := DecodePacket(received.value).value;
      AcceptanceIsDecoded(w.incoming, proposed, answer);
      JudgeSucceedsIff(w.(incoming := Receive(w.incoming).rest), proposed, asked, answer);
      if ParseBindAck(answer.body).Success? {
        NegotiationOutcome(ParseBindAck(answer.body).value.results, proposed, 0);
      }
    }
  }

  /**
   * When sends do not fail, a bind succeeds if and only if the offer fits, the server accepts a
   * proposed context, and the provider can answer the server's challenge.
   */
  lemma BindSucceedsIff(w: Wire, proposed: seq<PresentationContext>, target: string, provider: Option<Provider>)
    requires NoFaults(w)
    ensures BindClient(w, proposed, target, provider).result.Success? <==>
            && CanOffer(proposed, Asked(provider, target))
            && exists answer ::
                 Accepts(w.incoming, proposed, answer) && CanAnswer(Asked(provider, target), answer.authValue)
  {
    hide Offer, AwaitAnswer, Accepts, CanAnswer, OfferBody, AllEncodable;
    var asked := Asked(provider, target);
    OfferSucceedsIff(proposed, asked, FirstToken(asked));
    if CanOffer(proposed, asked) {
      AnswerSucceedsIff(SendOn(w, Offer(proposed, asked, FirstToken(asked)).value).wire, proposed, asked);
    }
  }

  lemma SendKeepsNoFaults(w: Wire, pdu: seq<byte>)
    requires NoFaults(w)
    ensures NoFaults(SendOn(w, pdu).wire)
  {
  }

  lemma CompleteKeepsNoFaults(w: Wire, asked: Option<Provider>, challenge: seq<byte>, contextId: u16, maxXmitFrag: u16)
    requires NoFaults(w)
    ensures NoFaults(CompleteBind(w, asked, challenge, contextId, maxXmitFrag).wire)
  {
    hide Auth3Pdu;
  }

  lemma AnswerKeepsNoFaults(w: Wire, proposed: seq<PresentationContext>, asked: Option<Provider>)
    requires NoFaults(w)
    ensures NoFaults(AwaitAnswer(w, proposed, asked).wire)
  {
    hide DecodePacket, ParseBindAck, Negotiated, Receive, DecodeBindNak, CompleteBind;
    var after, received := w.(incoming := Receive(w.incoming).rest), Receive(w.incoming).pdu;
    if received.Success? && DecodePacket(received.value).Success? {
      var answer := DecodePacket(received.value).value;
      var ack := ParseBindAck(answer.body);
      if ack.Success? && Negotiated(ack.value.results, proposed).Success? {
        CompleteKeepsNoFaults(after, asked, answer.authValue,
                              Negotiated(ack.value.results, proposed).value.contextId, ack.value.maxXmitFrag);
      }
    }
  }

  /** A bound client has a supported level, and a transport without faults stays without. */
  lemma BoundKeepsNoFaults(w: Wire, proposed: seq<PresentationContext>, target: string, provider: Option<Provider>)
    requires NoFaults(w) && BindClient(w, proposed, target, provider).result.Success?
    ensures NoFaults(BindClient(w, proposed, target, provider).wire)
    ensures Supported(LevelOf(provider))
  {
    hide Offer, AwaitAnswer, CanOffer, Accepts, CanAnswer, NoFaults, SendOn;
    var asked := Asked(provider, target);
    BindSucceedsIff(w, proposed, target, provider);
    CanOfferSupported(proposed, asked);
    var offer := Offer(proposed, asked, FirstToken(asked));
    if offer.Success? {
      SendKeepsNoFaults(w, offer.value);
      AnswerKeepsNoFaults(SendOn(w, offer.value).wire, proposed, asked);
    }
  }

  lemma CanOfferSupported(proposed: seq<PresentationContext>, asked: Option<Provider>)
    requires CanOffer(proposed, asked)
    ensures Supported(LevelOf(asked))
  {
  }

  // ---------------------------------------------------------------- servers that answer the offer

  /** A server's acknowledgement, with or without a challenge. */
  predicate IsAck(answer: PduPacket, ack: BindAckPdu) {
    && |ack.secondaryAddr| <= 0xFFFF && |ack.results| <= 0xFF
    && answer.body == AckBytes(ack)
    && answer.header.ptype == BindAck && answer.header.callId == BIND_CALL_ID
    && ReadableHeader(answer.header)
    && (answer.trailer.Some? <==> answer.authValue != [])
    && PacketBytes(answer).Success?
  }

  /** The next receive gives this packet's encoding and leaves `rest`. */
  lemma ReceivesPacket(incoming: Incoming, p: PduPacket, rest: Incoming)
    requires PacketBytes(p).Success? && ReadableHeader(p.header)
    requires p.trailer.Some? <==> p.authValue != []
    requires Took(incoming, [Encoding(p)], rest)
    ensures Receive(incoming).rest == rest && Receive(incoming).pdu.Success?
    ensures DecodePacket(Receive(incoming).pdu.value) == Success(Normalised(p))
  {
    hide PacketBytes, DecodePacket, Receive, Took, Framable;
    PacketRoundTrip(p);
    EncodedIsFramable(p);
    var only: seq<seq<byte>> := [Encoding(p)];
    TookFirst(incoming, only, rest);
    assert only[1..] == [];
    TookNothing(Receive(incoming).rest, rest);
  }

  lemma LeastAcceptedIsUnique(results: seq<PresentationResult>, i: nat, k: nat)
    requires LeastAccepted(results, i) && LeastAccepted(results, k)
    ensures i == k
  {
  }

  lemma AckAccepts(incoming: Incoming, proposed: seq<PresentationContext>, answer: PduPacket, ack: BindAckPdu,
                   k: nat, rest: Incoming)
    requires IsAck(answer, ack) && LeastAccepted(ack.results, k) && k < |proposed|
    requires Took(incoming, [Encoding(answer)], rest)
    ensures Accepts(incoming, proposed, Normalised(answer)) && Receive(incoming).rest == rest
    ensures ParseBindAck(answer.body) == Success(ack)
  {
    hide DecodePacket, ParseBindAck, LeastAccepted, Receive, AckBytes, PacketBytes, Took, Encoding;
    ReceivesPacket(incoming, answer, rest);
    BindAckRoundTrip(ack);
  }

  /**
   * A server that accepts one of the proposed contexts, with or without a challenge that the
   * provider can answer, gets a client bound to the first such context.
   */
  lemma AcceptedBind(w: Wire, proposed: seq<PresentationContext>, target: string, provider: Option<Provider>,
                     answer: PduPacket, ack: BindAckPdu, k: nat, rest: Incoming)
    returns (offer: seq<byte>)
    requires NoFaults(w) && CanOffer(proposed, Asked(provider, target))
    requires IsAck(answer, ack) && LeastAccepted(ack.results, k) && k < |proposed|
    requires CanAnswer(Asked(provider, target), answer.authValue)
    requires Took(w.incoming, [Encoding(answer)], rest)
    ensures var b := BindClient(w, proposed, target, provider);
            && b.result == Success(ClientState(proposed[k].contextId, 2, ack.maxXmitFrag, LevelOf(provider), b.wire))
            && b.wire.incoming == rest
            && b.wire.sent == w.sent + [offer] + Auth3Log(Asked(provider, target), answer.authValue)
    ensures IsOfferFor(offer, proposed, Asked(provider, target))
  {
    hide IsAck, LeastAccepted, BindClient, IsOfferFor, Auth3Log, CanOffer, CanAnswer, ParseBindAck, DecodePacket,
         PacketBytes, Took, Encoding;
    AckAccepts(w.incoming, proposed, answer, ack, k, rest);
    BindSucceedsIff(w, proposed, target, provider);
    assert Normalised(answer).authValue == answer.authValue;
    var got, gotAck, i;
    offer, got, gotAck, i := HandshakeRun(w, proposed, target, provider);
    LeastAcceptedIsUnique(ack.results, i, k);
  }

  /** What the body of a bind nak says, byte for byte. */
  function NakError(body: seq<byte>): Error {
    if |body| < 2 then InvalidPdu("bind nak body requires a reject reason")
    else if body[1] != 0 then InvalidPdu("unknown bind nak reject reason")
    else
      match body[0]
      case 0 => BindRejected(ReasonNotSpecified)
      case 1 => BindRejected(AbstractSyntaxNotSupported)
      case 2 => BindRejected(ProposedTransferSyntaxNotSupported)
      case 3 => BindRejected(LocalLimitExceeded)
      case 4 => BindRejected(ProtocolVersionNotSpecified)
      case 8 => BindRejected(AuthenticationTypeNotRecognized)
      case 9 => BindRejected(InvalidChecksum)
      case _ => InvalidPdu("unknown bind nak reject reason")
  }

  lemma NakSays(body: seq<byte>)
    ensures match DecodeBindNak(body)
            case Success(reason) => NakError(body) == BindRejected(reason)
            case Failure(e) => NakError(body) == e
  {
  }

  /** A server's refusal ends the bind with what its body says, and nothing beyond the offer was sent. */
  lemma RejectedBind(w: Wire, proposed: seq<PresentationContext>, target: string, provider: Option<Provider>,
                     nak: PduPacket, rest: Incoming)
    returns (offer: seq<byte>)
    requires NoFaults(w) && CanOffer(proposed, Asked(provider, target))
    requires PacketBytes(nak).Success? && ReadableHeader(nak.header) && (nak.trailer.Some? <==> nak.authValue != [])
    requires nak.header.ptype == BindNak && nak.header.callId == 1
    requires Took(w.incoming, [Encoding(nak)], rest)
    ensures var b := BindClient(w, proposed, target, provider);
            b.result == Failure(NakError(nak.body)) && b.wire.incoming == rest && b.wire.sent == w.sent + [offer]
    ensures IsOfferFor(offer, proposed, Asked(provider, target))
  {
    hide DecodePacket, PacketBytes, Took, Encoding, Receive, NakError, CanOffer, IsOfferFor, BindClient;
    ReceivesPacket(w.incoming, nak, rest);
    offer := JudgedBind(w, proposed, target, provider, Normalised(nak));
    NakSays(nak.body);
  }

  /** After the offer, the outcome of a bind is the judgement of the packet that was received. */
  lemma JudgedBind(w: Wire, proposed: seq<PresentationContext>, target: string, provider: Option<Provider>,
                   answer: PduPacket)
    returns (offer: seq<byte>)
    requires NoFaults(w) && CanOffer(proposed, Asked(provider, target))
    requires Receive(w.incoming).pdu.Success? && DecodePacket(Receive(w.incoming).pdu.value) == Success(answer)
    ensures IsOfferFor(offer, proposed, Asked(provider, target))
    ensures BindClient(w, proposed, target, provider) ==
            JudgeAnswer(SendOn(w, offer).wire.(incoming := Receive(w.incoming).rest), proposed,
                        Asked(provider, target), answer)
    ensures SendOn(w, offer).wire.sent == w.sent + [offer]
  {
    hide Offer, DecodePacket, Receive, JudgeAnswer, OfferBody, AllEncodable;
    var asked := Asked(provider, target);
    OfferSucceedsIff(proposed, asked, FirstToken(asked));
    offer := Offer(proposed, asked, FirstToken(asked)).value;
  }

  // ---------------------------------------------------------------- a whole session

  /** The messages of a bound client: identifiers count from 2, in the context it was bound to. */
  lemma NumberedMessage(states: seq<ClientState>, calls: seq<Invocation>, results: seq<Result<seq<byte>>>, i: nat)
    requires IsRun(states, calls, results) && i < |calls| && states[0].callId == 2
    ensures MessageOf(states[i], calls[i]) ==
            Message(Target(IdAfter(2, i), states[0].contextId, calls[i].opnum), calls[i].stub)
  {
    hide IsRun, IdAfter;
    RunShape(states, calls, results);
    CallIdSequence(states, calls, results, i);
    RunKeepsConfig(states, calls, results, i);
  }

  /**
   * A whole session, for every provider and over either kind of input. After any successful bind, a
   * server that answers every call, each answer in any number of fragments, has read the offer,
   * AUTH3 exactly when a challenge was answered, and then exactly the client's requests, with
   * identifiers counting from 2 in the first accepted context; and every call returned its own
   * answer.
   */
  lemma Session(w: Wire, proposed: seq<PresentationContext>, target: string, provider: Option<Provider>,
                states: seq<ClientState>, calls: seq<Invocation>, results: seq<Result<seq<byte>>>,
                answers: seq<seq<ResponsePdu>>, rest: Incoming)
    returns (offer: seq<byte>, answer: PduPacket, ack: BindAckPdu, k: nat, log: seq<seq<byte>>)
    requires NoFaults(w) && IsRun(states, calls, results)
    requires BindClient(w, proposed, target, provider).result == Success(states[0])
    requires states[0].maxXmitFrag > CALL_OVERHEAD
    requires |answers| == |calls| && AnswersFit(answers)
    requires Took(states[0].wire.incoming, AnswerPdus(2, answers), rest)
    ensures forall i :: 0 <= i < |calls| ==> results[i] == Success(Flatten(PartStubs(answers[i])))
    ensures states[|calls|].wire.incoming == rest
    ensures IsOfferFor(offer, proposed, Asked(provider, target))
    ensures Receive(w.incoming).pdu.Success? && DecodePacket(Receive(w.incoming).pdu.value) == Success(answer)
    ensures ParseBindAck(answer.body) == Success(ack) && LeastAccepted(ack.results, k) && k < |proposed|
    ensures states[|calls|].wire.sent ==
            w.sent + [offer] + Auth3Log(Asked(provider, target), answer.authValue) + log
    ensures Regroup(Regrouped([], None), log) == Regrouped(Messages(states, calls), None)
    ensures forall i :: 0 <= i < |calls| ==>
              Messages(states, calls)[i] ==
              Message(Target(IdAfter(2, i), proposed[k].contextId, calls[i].opnum), calls[i].stub)
  {
    hide BindClient, AnswerPdus, Regroup, IsRun, Took, IsOfferFor, Auth3Log, DecodePacket, ParseBindAck, Receive,
         LeastAccepted;
    offer, answer, ack, k := HandshakeRun(w, proposed, target, provider);
    BoundKeepsNoFaults(w, proposed, target, provider);
    RunShape(states, calls, results);
    Conversation(states, calls, results, answers, rest);
    log := ConversationRequests(states, calls, results);
    forall i | 0 <= i < |calls|
      ensures Messages(states, calls)[i] ==
              Message(Target(IdAfter(2, i), proposed[k].contextId, calls[i].opnum), calls[i].stub)
    {
      NumberedMessage(states, calls, results, i);
    }
  }

  /**
   * The same without any condition on server and transport. After a successful bind and any run of
   * calls, whatever their outcomes, the log is the offer, AUTH3 exactly when a challenge was
   * answered, and the requests, of which exactly those sent completely can be recovered, with
   * identifiers counting from 2 in the first accepted context.
   */
  lemma AnySession(w: Wire, proposed: seq<PresentationContext>, target: string, provider: Option<Provider>,
                   states: seq<ClientState>, calls: seq<Invocation>, results: seq<Result<seq<byte>>>)
    returns (offer: seq<byte>, answer: PduPacket, ack: BindAckPdu, k: nat, log: seq<seq<byte>>)
    requires IsRun(states, calls, results)
    requires BindClient(w, proposed, target, provider).result == Success(states[0])
    ensures IsOfferFor(offer, proposed, Asked(provider, target))
    ensures Receive(w.incoming).pdu.Success? && DecodePacket(Receive(w.incoming).pdu.value) == Success(answer)
    ensures ParseBindAck(answer.body) == Success(ack) && LeastAccepted(ack.results, k) && k < |proposed|
    ensures states[|calls|].wire.sent ==
            w.sent + [offer] + Auth3Log(Asked(provider, target), answer.authValue) + log
    ensures Regroup(Regrouped([], None), log).Regrouped?
    ensures Regroup(Regrouped([], None), log).complete == Delivered(states, calls)
    ensures forall i :: 0 <= i < |calls| ==>
              MessageOf(states[i], calls[i]) ==
              Message(Target(IdAfter(2, i), proposed[k].contextId, calls[i].opnum), calls[i].stub)
  {
    hide BindClient, Regroup, IsRun, IsOfferFor, Auth3Log, DecodePacket, ParseBindAck, Receive, LeastAccepted,
         Delivered;
    offer, answer, ack, k := HandshakeRun(w, proposed, target, provider);
    RunShape(states, calls, results);
    log := RunRecovery(states, calls, results, Regrouped([], None));
    assert [] + Delivered(states, calls) == Delivered(states, calls);
    forall i | 0 <= i < |calls|
      ensures MessageOf(states[i], calls[i]) ==
              Message(Target(IdAfter(2, i), proposed[k].contextId, calls[i].opnum), calls[i].stub)
    {
      NumberedMessage(states, calls, results, i);
    }
  }

  /**
   * The session with a server given by what it sends: an acknowledgement that accepts a context, and
   * then an answer to every call. The bind succeeds, the calls return the answers, and the server
   * reads the offer, AUTH3 if there was a challenge to answer, and the requests.
   */
  lemma ServedSession(w: Wire, proposed: seq<PresentationContext>, target: string, provider: Option<Provider>,
                      answer: PduPacket, ack: BindAckPdu, k: nat, calls: seq<Invocation>,
                      answers: seq<seq<ResponsePdu>>, rest: Incoming)
    returns (states: seq<ClientState>, results: seq<Result<seq<byte>>>, offer: seq<byte>, log: seq<seq<byte>>)
    requires NoFaults(w) && CanOffer(proposed, Asked(provider, target))
    requires IsAck(answer, ack) && LeastAccepted(ack.results, k) && k < |proposed|
    requires CanAnswer(Asked(provider, target), answer.authValue) && ack.maxXmitFrag > CALL_OVERHEAD
    requires |answers| == |calls| && AnswersFit(answers)
    requires Took(w.incoming, [Encoding(answer)] + AnswerPdus(2, answers), rest)
    ensures BindClient(w, proposed, target, provider).result.Success?
    ensures IsRun(states, calls, results) && states[0] == BindClient(w, proposed, target, provider).result.value
    ensures states[0].contextId == proposed[k].contextId && states[0].maxXmitFrag == ack.maxXmitFrag
    ensures forall i :: 0 <= i < |calls| ==> results[i] == Success(Flatten(PartStubs(answers[i])))
    ensures states[|calls|].wire.incoming == rest
    ensures IsOfferFor(offer, proposed, Asked(provider, target))
    ensures states[|calls|].wire.sent ==
            w.sent + [offer] + Auth3Log(Asked(provider, target), answer.authValue) + log
    ensures Regroup(Regrouped([], None), log) == Regrouped(Messages(states, calls), None)
  {
    hide BindClient, AnswerPdus, IsRun, Took, IsAck, LeastAccepted, CanOffer, CanAnswer, Encoding, Auth3Log, IsOfferFor,
         AnswersFit, PartStubs, ParseBindAck, DecodePacket, Receive, Regroup, Messages;
    var between := TookBoth(w.incoming, [Encoding(answer)], AnswerPdus(2, answers), rest);
    AckAccepts(w.incoming, proposed, answer, ack, k, between);
    assert Normalised(answer).authValue == answer.authValue;
    offer := AcceptedBind(w, proposed, target, provider, answer, ack, k, between);
    states, results := RunExists(BindClient(w, proposed, target, provider).result.value, calls);
    RunShape(states, calls, results);
    var a, c, i;
    offer, a, c, i, log := Session(w, proposed, target, provider, states, calls, results, answers, rest);
  }
}
