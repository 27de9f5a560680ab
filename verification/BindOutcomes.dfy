/** How a bind fails, and what the provider sees: every outcome by its own error. */
module BindOutcomes {
  import opened Bytes
  import opened WireCodes
  import opened Errors
  import opened Pdu
  import opened PduProofs
  import opened Bind
  import opened BindProofs
  import opened Wires
  import opened Framing
  import opened Fragmentation
  import opened Handshake
  import opened HandshakeProofs

  // ---------------------------------------------------------------- before the offer is out

  /** A bind without a context, or whose provider gives no token, sends nothing and asks for no more. */
  lemma UnaskedBind(w: Wire, proposed: seq<PresentationContext>, target: string, provider: Option<Provider>)
    ensures proposed == [] ==>
              BindClient(w, proposed, target, provider) ==
              Bound(w, provider, Failure(InvalidPdu("bind requires at least one presentation context")))
    ensures proposed != [] && provider.Some? ==>
              match provider.value.respond(provider.value.history + [Init(target)])
              case Token(_) => true
              case Refused(message) =>
                BindClient(w, proposed, target, provider) == Bound(w, Asked(provider, target), Failure(Auth(message)))
  {
    hide Offer, SendOffer;
  }

  /** A bind whose offer cannot be encoded sends nothing and ends in the reason. */
  lemma UnofferedBind(w: Wire, proposed: seq<PresentationContext>, target: string, provider: Option<Provider>)
    requires var asked := Asked(provider, target);
             && proposed != [] && (asked.Some? ==> asked.value.Reply().Success?)
             && Offer(proposed, asked, FirstToken(asked)).Failure?
    ensures var asked := Asked(provider, target);
            BindClient(w, proposed, target, provider) ==
            Bound(w, asked, Failure(Offer(proposed, asked, FirstToken(asked)).error))
  {
    hide Offer, AwaitAnswer;
  }

  /** Too many transfer syntaxes stop the program, and levels above Connect are refused. */
  lemma OfferRefusals(proposed: seq<PresentationContext>, asked: Option<Provider>, token: seq<byte>)
    ensures !AllEncodable(proposed) ==>
              Offer(proposed, asked, token) == Failure(Panic("presentation context count was prevalidated"))
    ensures AllEncodable(proposed) && asked.Some?
            && (asked.value.level == PacketIntegrity || asked.value.level == PacketPrivacy) ==>
              Offer(proposed, asked, token) ==
              Failure(Auth("RPC auth levels above Connect are not supported in v1"))
  {
    hide BindBody, PacketBytes;
  }

  /** Offers that do not fit a fragment are refused. */
  lemma LargeOffers(proposed: seq<PresentationContext>, asked: Option<Provider>, token: seq<byte>)
    requires AllEncodable(proposed) && (asked.None? || asked.value.level == LevelNone || asked.value.level == Connect)
    ensures asked.Some? && |token| > 0xFFFF ==>
              Offer(proposed, asked, token) == Failure(InvalidPdu("auth value is too large"))
    ensures (asked.None? || |token| <= 0xFFFF)
            && 16 + |OfferBody(proposed).value| + (if asked.None? then 0 else 8 + |token|) > 0xFFFF ==>
              Offer(proposed, asked, token) == Failure(InvalidPdu("fragment is too large"))
  {
    hide BindBody, AuthPadding, PacketBytes;
    OfferAligned(proposed);
    var body := OfferBody(proposed).value;
    PacketEncodesIff(PduPacket(NewHeader(PduType.Bind, FIRST_AND_LAST, BIND_CALL_ID), body, None, []));
    if asked.Some? {
      PacketEncodesIff(AuthenticatedPacket(PduType.Bind, body, asked.value, token).value);
    }
  }

  /**
   * A bind at PacketIntegrity or PacketPrivacy leaves the transport as it was, and fails: without a
   * context, by the provider's refusal, on too many transfer syntaxes, and otherwise by its level.
   */
  lemma UnsupportedBindIsSilent(w: Wire, proposed: seq<PresentationContext>, target: string, p: Provider)
    requires p.level == PacketIntegrity || p.level == PacketPrivacy
    ensures var b := BindClient(w, proposed, target, Some(p));
            && b.wire == w
            && b.result ==
               if proposed == [] then
                 Failure(InvalidPdu("bind requires at least one presentation context"))
               else
                 match p.respond(p.history + [Init(target)])
                 case Refused(message) => Failure(Auth(message))
                 case Token(_) =>
                   if AllEncodable(proposed) then Failure(Auth("RPC auth levels above Connect are not supported in v1"))
                   else Failure(Panic("presentation context count was prevalidated"))
  {
    hide Offer, BindClient, AllEncodable;
    UnaskedBind(w, proposed, target, Some(p));
    var asked := Asked(Some(p), target);
    OfferRefusals(proposed, asked, FirstToken(asked));
    if proposed != [] && asked.value.Reply().Success? {
      UnofferedBind(w, proposed, target, Some(p));
    }
  }

  /** When the offer cannot be sent, nothing is received and the bind ends with the transport's error. */
  lemma FailedOffer(w: Wire, proposed: seq<PresentationContext>, target: string, provider: Option<Provider>)
    requires w.faults != [] && w.faults[0] && CanOffer(proposed, Asked(provider, target))
    ensures BindClient(w, proposed, target, provider) ==
            Bound(w.(faults := w.faults[1..]), Asked(provider, target), Failure(Transport("send failed")))
  {
    hide Offer, AllEncodable, AwaitAnswer, OfferBody;
    var asked := Asked(provider, target);
    OfferSucceedsIff(proposed, asked, FirstToken(asked));
  }

  // ---------------------------------------------------------------- refused answers

  /** The offer is all that was sent, `rest` is left, and the bind failed with `e`. */
  ghost predicate FailedWith(w: Wire, offer: seq<byte>, rest: Incoming, b: Bound, e: Error) {
    b.result == Failure(e) && b.wire.incoming == rest && b.wire.sent == w.sent + [offer]
  }

  /** An answer that is no packet ends the bind with that error, a lack of answer with the transport's. */
  lemma NoAnswer(w: Wire, proposed: seq<PresentationContext>, target: string, provider: Option<Provider>)
    returns (offer: seq<byte>)
    requires NoFaults(w) && CanOffer(proposed, Asked(provider, target))
    ensures var b, received := BindClient(w, proposed, target, provider), Receive(w.incoming);
            match received.pdu
            case Failure(e) => FailedWith(w, offer, received.rest, b, e)
            case Success(pdu) =>
              match DecodePacket(pdu)
              case Failure(e) => FailedWith(w, offer, received.rest, b, e)
              case Success(_) => true
    ensures IsOfferFor(offer, proposed, Asked(provider, target))
  {
    hide Offer, DecodePacket, Receive, JudgeAnswer, OfferBody, AllEncodable;
    var asked := Asked(provider, target);
    OfferSucceedsIff(proposed, asked, FirstToken(asked));
    offer := Offer(proposed, asked, FirstToken(asked)).value;
  }

  /** Why a list of results is refused. */
  ghost predicate ResultsRefusedFor(results: seq<PresentationResult>, proposed: seq<PresentationContext>,
                                    k: nat, e: Error) {
    && (forall a: nat :: LeastAccepted(results, a) ==> a >= |proposed|)
    && if |results| > |proposed| then
         e == InvalidPdu("bind ack result has no matching proposed context")
       else if LeastRejected(results, k) then
         e == PresentationContextRejected(proposed[k].contextId, results[k].result, results[k].reason)
       else
         && (forall r :: r in results ==> r.result == NegotiateAck)
         && e == InvalidPdu("bind ack has no presentation results")
  }

  /** Why an answer that decodes is refused; `k` is the place of the first rejection, if there is one. */
  ghost predicate RefusedFor(answer: PduPacket, proposed: seq<PresentationContext>, k: nat, e: Error) {
    if answer.header.callId != 1 then
      e == InvalidPdu("bind response call id mismatch")
    else if answer.header.ptype == BindNak then
      e == NakError(answer.body)
    else if answer.header.ptype != BindAck then
      e == InvalidPdu("expected bind ack or bind nak PDU")
    else
      match ParseBindAck(answer.body)
      case Failure(wrong) => e == wrong
      case Success(ack) => ResultsRefusedFor(ack.results, proposed, k, e)
  }

  /** The bind reports exactly the error for which the answer is refused, and sends nothing more. */
  lemma RefusedAnswer(w: Wire, proposed: seq<PresentationContext>, target: string, provider: Option<Provider>,
                      answer: PduPacket, k: nat, e: Error)
    returns (offer: seq<byte>)
    requires NoFaults(w) && CanOffer(proposed, Asked(provider, target))
    requires Receive(w.incoming).pdu.Success? && DecodePacket(Receive(w.incoming).pdu.value) == Success(answer)
    requires RefusedFor(answer, proposed, k, e)
    ensures FailedWith(w, offer, Receive(w.incoming).rest, BindClient(w, proposed, target, provider), e)
    ensures IsOfferFor(offer, proposed, Asked(provider, target))
  {
    hide DecodePacket, Receive, BindClient, IsOfferFor, CanOffer, JudgeAnswer, RefusedFor;
    offer := JudgedBind(w, proposed, target, provider, answer);
    RefusedJudgement(SendOn(w, offer).wire.(incoming := Receive(w.incoming).rest), proposed,
                     Asked(provider, target), answer, k, e);
  }

  lemma RefusedJudgement(w: Wire, proposed: seq<PresentationContext>, asked: Option<Provider>, answer: PduPacket,
                         k: nat, e: Error)
    requires RefusedFor(answer, proposed, k, e)
    ensures JudgeAnswer(w, proposed, asked, answer) == Bound(w, asked, Failure(e))
  {
    hide DecodeBindNak, ParseBindAck, Negotiated, CompleteBind, NakError, LeastAccepted, LeastRejected;
    NakSays(answer.body);
    if answer.header.callId == 1 && answer.header.ptype == BindAck && ParseBindAck(answer.body).Success? {
      RefusedResults(ParseBindAck(answer.body).value.results, proposed, k, e);
    }
  }

  lemma RefusedResults(results: seq<PresentationResult>, proposed: seq<PresentationContext>, k: nat, e: Error)
    requires ResultsRefusedFor(results, proposed, k, e)
    ensures Negotiated(results, proposed) == Failure(e)
  {
    hide LeastAccepted, LeastRejected, Negotiated;
    NegotiationOutcome(results, proposed, k);
  }

  // ---------------------------------------------------------------- what the provider sees

  /** A client made with a provider has the provider's level, and one made without has none. */
  lemma BoundLevel(w: Wire, proposed: seq<PresentationContext>, target: string, provider: Option<Provider>)
    requires BindClient(w, proposed, target, provider).result.Success?
    ensures BindClient(w, proposed, target, provider).result.value.level ==
            match provider case None => None case Some(p) => Some(p.level)
  {
    hide BindClient, Auth3Log, IsOfferFor, DecodePacket, ParseBindAck, Receive, LeastAccepted, Took;
    var o, a, c, k := HandshakeRun(w, proposed, target, provider);
  }

  /** The provider is asked with the target first, and then with the server's challenge. */
  lemma ProviderIsAsked(p: Provider, target: string, challenge: seq<byte>)
    requires challenge != []
    ensures var first := p.respond(p.history + [Init(target)]);
            Asked(Some(p), target) == Some(p.(history := p.history + [Init(target)]))
            && FirstToken(Asked(Some(p), target)) == (if first.Token? then first.bytes else [])
    ensures var second := p.respond(p.history + [Init(target), Challenge(challenge)]);
            ChallengeAnswer(Asked(Some(p), target), challenge) == (if second.Token? then second.bytes else [])
  {
    assert p.history + [Init(target)] + [Challenge(challenge)] == p.history + [Init(target), Challenge(challenge)];
  }

  /** All bytes of AUTH3: header, four spaces, the trailer without padding, and the token. */
  lemma Auth3Bytes(p: Provider, token: seq<byte>)
    requires (p.level == LevelNone || p.level == Connect) && |token| <= 0xFFFF - 28
    ensures var mechanism := match p.authType
                             case TypeNone => 0 case GssNegotiate => 9 case WinNt => 10 case GssKerberos => 16;
            Auth3Pdu(p, token) ==
            Success([5, 0, 0x10, 3, 0x10, 0, 0, 0]
                    + U16Bytes(28 + |token|, Little) + U16Bytes(|token|, Little) + [1, 0, 0, 0]
                    + [0x20, 0x20, 0x20, 0x20]
                    + ([mechanism, if p.level == Connect then 2 else 0, 0, 0] + U32Bytes(p.contextId, Little))
                    + token)
  {
    hide U16Bytes, U32Bytes;
    var packet := AuthenticatedPacket(Auth3, AUTH3_BODY, p, token).value;
    assert HeaderBytes(Normalised(packet).header) ==
           [5, 0, 0x10, 3, 0x10, 0, 0, 0]
           + U16Bytes(28 + |token|, Little) + U16Bytes(|token|, Little) + U32Bytes(1, Little);
    One();
    assert PacketBytes(packet).value ==
           HeaderBytes(Normalised(packet).header) + AUTH3_BODY + TrailerBytes(packet.trailer.value) + token;
  }

  lemma One()
    ensures U32Bytes(1, Little) == [1, 0, 0, 0]
  {
  }

  /** Why AUTH3 cannot be encoded at a supported level. */
  lemma Auth3Refusals(p: Provider, token: seq<byte>)
    requires p.level == LevelNone || p.level == Connect
    ensures |token| > 0xFFFF ==> Auth3Pdu(p, token) == Failure(InvalidPdu("auth value is too large"))
    ensures 0xFFFF - 28 < |token| <= 0xFFFF ==> Auth3Pdu(p, token) == Failure(InvalidPdu("fragment is too large"))
  {
    hide Layout;
  }

  /**
   * The outcome of the last step for a provider `p` that has just seen the challenge: its refusal
   * ends the bind with its message; an answer too long for a fragment fails; an empty one needs no
   * AUTH3; any other is sent as AUTH3 behind what was sent before.
   */
  ghost predicate Answered(sent: seq<seq<byte>>, rest: Incoming, p: Provider, b: Bound) {
    && b.provider == Some(p) && b.wire.incoming == rest
    && match p.respond(p.history)
       case Refused(message) => b.wire.sent == sent && b.result == Failure(Auth(message))
       case Token(token) =>
         if |token| > 0xFFFF then
           b.wire.sent == sent && b.result == Failure(InvalidPdu("auth value is too large"))
         else if |token| > 0xFFFF - 28 then
           b.wire.sent == sent && b.result == Failure(InvalidPdu("fragment is too large"))
         else if token == [] then
           b.wire.sent == sent && b.result.Success?
         else
           Auth3Pdu(p, token).Success? && b.wire.sent == sent + [Auth3Pdu(p, token).value] && b.result.Success?
  }

  lemma CompleteOutcome(w: Wire, asked: Provider, challenge: seq<byte>, contextId: u16, maxXmitFrag: u16)
    requires NoFaults(w) && challenge != [] && (asked.level == LevelNone || asked.level == Connect)
    ensures Answered(w.sent, w.incoming, asked.(history := asked.history + [Challenge(challenge)]),
                     CompleteBind(w, Some(asked), challenge, contextId, maxXmitFrag))
  {
    hide Auth3Pdu;
    var saw := asked.Saw(Challenge(challenge));
    if saw.Reply().Success? {
      Auth3Refusals(saw, saw.Reply().value);
      Auth3SucceedsIff(saw, saw.Reply().value);
    }
  }

  /** When AUTH3 cannot be sent, the bind fails although the server has accepted. */
  lemma FailedAuth3(w: Wire, asked: Provider, challenge: seq<byte>, contextId: u16, maxXmitFrag: u16)
    requires challenge != [] && (asked.level == LevelNone || asked.level == Connect)
    requires w.faults != [] && w.faults[0]
    ensures var saw := asked.history + [Challenge(challenge)];
            match asked.respond(saw)
            case Refused(_) => true
            case Token(token) =>
              0 < |token| <= 0xFFFF - 28 ==>
                CompleteBind(w, Some(asked), challenge, contextId, maxXmitFrag) ==
                Bound(w.(faults := w.faults[1..]), Some(asked.(history := saw)), Failure(Transport("send failed")))
  {
    hide Auth3Pdu;
    var saw := asked.Saw(Challenge(challenge));
    if saw.Reply().Success? {
      Auth3SucceedsIff(saw, saw.Reply().value);
    }
  }

  lemma CanOfferLevel(proposed: seq<PresentationContext>, asked: Provider)
    requires CanOffer(proposed, Some(asked))
    ensures asked.level == LevelNone || asked.level == Connect
  {
  }

  /** An acceptance leads on to the last step. */
  lemma AcceptedJudgement(w: Wire, proposed: seq<PresentationContext>, asked: Option<Provider>, answer: PduPacket,
                          ack: BindAckPdu, k: nat)
    requires answer.header.ptype == BindAck && answer.header.callId == 1
    requires ParseBindAck(answer.body) == Success(ack) && LeastAccepted(ack.results, k) && k < |proposed|
    ensures JudgeAnswer(w, proposed, asked, answer) ==
            CompleteBind(w, asked, answer.authValue, proposed[k].contextId, ack.maxXmitFrag)
  {
    hide ParseBindAck, Negotiated, CompleteBind, LeastAccepted, DecodeBindNak;
    NegotiationOutcome(ack.results, proposed, k);
  }

  /**
   * The end of an accepted handshake with a challenge: the provider has seen the target and the
   * challenge, in this order, and its answer to them decides the outcome.
   */
  lemma ChallengeOutcome(w: Wire, proposed: seq<PresentationContext>, target: string, p: Provider,
                         answer: PduPacket, ack: BindAckPdu, k: nat, rest: Incoming)
    returns (offer: seq<byte>)
    requires NoFaults(w) && CanOffer(proposed, Asked(Some(p), target))
    requires IsAck(answer, ack) && LeastAccepted(ack.results, k) && k < |proposed| && answer.authValue != []
    requires Took(w.incoming, [Encoding(answer)], rest)
    ensures IsOfferFor(offer, proposed, Asked(Some(p), target))
    ensures Answered(w.sent + [offer], rest,
                     p.(history := p.history + [Init(target), Challenge(answer.authValue)]),
                     BindClient(w, proposed, target, Some(p)))
  {
    hide DecodePacket, Receive, BindClient, IsOfferFor, CanOffer, JudgeAnswer, LeastAccepted, Took, Encoding,
         CompleteBind, ParseBindAck, AckBytes, PacketBytes, ReadableHeader, SendOn, Answered;
    AckAccepts(w.incoming, proposed, answer, ack, k, rest);
    assert Accepts(w.incoming, proposed, Normalised(answer));
    var asked := p.(history := p.history + [Init(target)]);
    assert Asked(Some(p), target) == Some(asked);
    offer := JudgedBind(w, proposed, target, Some(p), Normalised(answer));
    var sent := SendOn(w, offer).wire.(incoming := rest);
    AcceptedJudgement(sent, proposed, Some(asked), Normalised(answer), ack, k);
    SendKeepsNoFaults(w, offer);
    CanOfferLevel(proposed, asked);
    CompleteOutcome(sent, asked, answer.authValue, proposed[k].contextId, ack.maxXmitFrag);
    assert asked.history + [Challenge(answer.authValue)] == p.history + [Init(target), Challenge(answer.authValue)];
  }
}
