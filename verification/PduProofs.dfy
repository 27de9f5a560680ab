/** Round trips and canonical forms of the PDU codec. */
module PduProofs {
  import opened Bytes
  import opened WireCodes
  import opened Errors
  import opened Pdu

  // ---------------------------------------------------------------- header and trailer

  predicate ReadableHeader(h: PduHeader) {
    h.rpcVers == RPC_VERSION && ReadDrep(h.drep).Some?
  }

  /** Only the first sixteen bytes of the input matter to the header decoder. */
  lemma HeaderPrefix(bytes: seq<byte>, rest: seq<byte>)
    requires |bytes| >= COMMON_HEADER_LEN
    ensures DecodeHeader(bytes + rest) == DecodeHeader(bytes)
  {
    var all := bytes + rest;
    assert all[4..8] == bytes[4..8] && all[8..10] == bytes[8..10];
    assert all[10..12] == bytes[10..12] && all[12..16] == bytes[12..16];
  }

  /** In either byte order, a written header reads back exactly when version and label are good. */
  lemma HeaderRoundTrip(h: PduHeader, rest: seq<byte>)
    ensures DecodeHeader(HeaderBytes(h) + rest) == Success(h) <==> ReadableHeader(h)
  {
    var bytes := HeaderBytes(h);
    var order := HeaderOrder(h.drep);
    HeaderPrefix(bytes, rest);
    assert bytes[4..8] == h.drep;
    assert bytes[8..10] == U16Bytes(h.fragLength, order) + [];
    assert bytes[10..12] == U16Bytes(h.authLength, order) + [];
    assert bytes[12..16] == U32Bytes(h.callId, order) + [];
    U16RoundTrip(h.fragLength, order, []);
    U16RoundTrip(h.authLength, order, []);
    U32RoundTrip(h.callId, order, []);
    PduTypeCodes(h.ptype, bytes[2]);
  }

  lemma UnreadableHeaderFails(h: PduHeader, rest: seq<byte>)
    requires !ReadableHeader(h)
    ensures DecodeHeader(HeaderBytes(h) + rest).Failure?
  {
    var bytes := HeaderBytes(h);
    HeaderPrefix(bytes, rest);
    assert bytes[4..8] == h.drep;
  }

  /** A decoded header writes back the sixteen bytes it came from. */
  lemma HeaderReencode(bytes: seq<byte>)
    requires DecodeHeader(bytes).Success?
    ensures HeaderBytes(DecodeHeader(bytes).value) == bytes[..COMMON_HEADER_LEN]
    ensures ReadableHeader(DecodeHeader(bytes).value)
  {
    hide U16Bytes, U32Bytes, ReadU16, ReadU32, PduTypeOf, PduTypeCode;
    var h := DecodeHeader(bytes).value;
    var order := HeaderOrder(h.drep);
    PduTypeCodes(h.ptype, bytes[2]);
    U16Reencode(bytes[8..10], order);
    U16Reencode(bytes[10..12], order);
    U32Reencode(bytes[12..16], order);
    assert bytes[..4] == [h.rpcVers, h.rpcVersMinor, PduTypeCode(h.ptype), h.flags];
    HeaderSlices(bytes);
  }

  lemma HeaderSlices(bytes: seq<byte>)
    requires |bytes| >= COMMON_HEADER_LEN
    ensures bytes[..16] == bytes[..4] + bytes[4..8] + bytes[8..10] + bytes[10..12] + bytes[12..16]
  {
    assert bytes[..8] == bytes[..4] + bytes[4..8];
    assert bytes[..10] == bytes[..8] + bytes[8..10];
    assert bytes[..12] == bytes[..10] + bytes[10..12];
    assert bytes[..16] == bytes[..12] + bytes[12..16];
  }

  lemma TrailerRoundTrip(t: SecurityTrailer)
    ensures DecodeTrailer(TrailerBytes(t)) == Success(t)
  {
    assert TrailerBytes(t)[4..8] == U32Bytes(t.contextId, Little) + [];
    U32RoundTrip(t.contextId, Little, []);
  }

  lemma TrailerReencode(bytes: seq<byte>)
    requires |bytes| == TRAILER_LEN && DecodeTrailer(bytes).Success?
    ensures TrailerBytes(DecodeTrailer(bytes).value) == bytes
  {
    U32Reencode(bytes[4..8], Little);
    assert bytes == bytes[..4] + bytes[4..8];
  }

  // ---------------------------------------------------------------- packets

  /** A packet as a decoder can produce it: readable, honest lengths, trailer iff auth value. */
  predicate WireConsistent(p: PduPacket) {
    && ReadableHeader(p.header)
    && (p.trailer.Some? <==> p.authValue != [])
    && p.header.fragLength == FragmentLength(p)
    && p.header.authLength == |p.authValue|
  }

  /** Every consistent packet, with any padding bytes, decodes to itself. */
  lemma LayoutDecodes(p: PduPacket, pad: seq<byte>)
    requires WireConsistent(p) && |pad| == PadLength(p)
    ensures DecodePacket(Layout(p, pad)) == Success(p)
  {
    hide HeaderBytes, DecodeHeader, TrailerBytes, DecodeTrailer;
    var bytes := Layout(p, pad);
    var rest := p.body + pad + OptionalTrailer(p.trailer) + p.authValue;
    assert bytes == HeaderBytes(p.header) + rest;
    HeaderRoundTrip(p.header, rest);
    if p.trailer.Some? {
      TrailerRoundTrip(p.trailer.value);
      var authStart := |bytes| - |p.authValue|;
      assert bytes[authStart - TRAILER_LEN..authStart] == TrailerBytes(p.trailer.value);
      assert bytes[authStart..] == p.authValue;
      assert bytes[COMMON_HEADER_LEN..authStart - TRAILER_LEN - PadLength(p)] == p.body;
    } else {
      assert bytes[COMMON_HEADER_LEN..] == p.body;
    }
  }

  /** The padding region of a fragment that decodes to `p`. */
  function PadOf(bytes: seq<byte>, p: PduPacket): (pad: seq<byte>)
    requires COMMON_HEADER_LEN + |p.body| + PadLength(p) <= |bytes|
    ensures |pad| == PadLength(p)
  {
    bytes[COMMON_HEADER_LEN + |p.body|..COMMON_HEADER_LEN + |p.body| + PadLength(p)]
  }

  /** Header, body, padding, trailer and auth value exactly partition an accepted fragment. */
  lemma DecodedPartition(bytes: seq<byte>, p: PduPacket)
    requires DecodePacket(bytes) == Success(p)
    ensures WireConsistent(p)
    ensures FragmentLength(p) == |bytes|
    ensures bytes == Layout(p, PadOf(bytes, p))
  {
    hide HeaderBytes, DecodeHeader, TrailerBytes, DecodeTrailer;
    HeaderReencode(bytes);
    if p.trailer.Some? {
      var authStart: nat := |bytes| - |p.authValue|;
      var trailerStart: nat := authStart - TRAILER_LEN;
      TrailerReencode(bytes[trailerStart..authStart]);
      assert bytes == bytes[..16] + p.body + PadOf(bytes, p) + bytes[trailerStart..authStart] + p.authValue;
    } else {
      assert bytes == bytes[..16] + p.body + [] + [] + [];
    }
  }

  /** Acceptance in one line: a byte string decodes to `p` iff it is a layout of the consistent `p`. */
  lemma DecodesIffLayout(bytes: seq<byte>, p: PduPacket)
    ensures DecodePacket(bytes) == Success(p) <==>
            WireConsistent(p) && exists pad :: |pad| == PadLength(p) && bytes == Layout(p, pad)
  {
    if DecodePacket(bytes) == Success(p) {
      DecodedPartition(bytes, p);
    }
    forall pad | WireConsistent(p) && |pad| == PadLength(p) && bytes == Layout(p, pad)
      ensures DecodePacket(bytes) == Success(p)
    {
      LayoutDecodes(p, pad);
    }
  }

  /**
   * Packet round trip, sharp form. Whenever encoding succeeds, decoding returns the packet with its
   * lengths normalised if and only if the header is readable and a trailer is present exactly when
   * the auth value is non-empty.
   */
  lemma PacketRoundTrip(p: PduPacket)
    requires PacketBytes(p).Success?
    ensures DecodePacket(PacketBytes(p).value) == Success(Normalised(p)) <==>
            ReadableHeader(p.header) && (p.trailer.Some? <==> p.authValue != [])
  {
    hide HeaderBytes, DecodeHeader, DecodePacket;
    var q := Normalised(p);
    if ReadableHeader(p.header) && (p.trailer.Some? <==> p.authValue != []) {
      LayoutDecodes(q, Zeros(PadLength(p)));
    }
    if DecodePacket(PacketBytes(p).value) == Success(q) {
      DecodedPartition(PacketBytes(p).value, q);
    }
  }

  lemma LayoutHeader(p: PduPacket, pad: seq<byte>)
    ensures Layout(p, pad) ==
            HeaderBytes(p.header) + (p.body + pad + OptionalTrailer(p.trailer) + p.authValue)
  {
  }

  /** What a trailer without an auth value turns into: pad and trailer become part of the body. */
  lemma EmptyAuthFoldsIntoBody(p: PduPacket)
    requires PacketBytes(p).Success? && ReadableHeader(p.header)
    requires p.trailer.Some? && p.authValue == []
    ensures DecodePacket(PacketBytes(p).value) ==
            Success(PduPacket(Normalised(p).header,
                              p.body + Zeros(PadLength(p)) + TrailerBytes(p.trailer.value), None, []))
  {
    hide HeaderBytes, DecodeHeader, DecodePacket, TrailerBytes;
    var q := PduPacket(Normalised(p).header, p.body + Zeros(PadLength(p)) + TrailerBytes(p.trailer.value), None, []);
    LayoutDecodes(q, []);
    assert Layout(q, []) == Layout(Normalised(p), Zeros(PadLength(p)));
  }

  /** An unreadable header makes every encoding undecodable. */
  lemma UnreadableNeverDecodes(p: PduPacket)
    requires PacketBytes(p).Success? && !ReadableHeader(p.header)
    ensures DecodePacket(PacketBytes(p).value).Failure?
  {
    hide HeaderBytes, DecodeHeader;
    var q := Normalised(p);
    LayoutHeader(q, Zeros(PadLength(p)));
    UnreadableHeaderFails(q.header, q.body + Zeros(PadLength(p)) + OptionalTrailer(q.trailer) + q.authValue);
  }

  /**
   * Canonical re-encoding. Whatever the decoder accepts encodes again, to a string of the same
   * length that differs from the input at most in the padding, where it is zero; and decoding that
   * string gives the same packet.
   */
  lemma CanonicalReencoding(bytes: seq<byte>, p: PduPacket)
    requires DecodePacket(bytes) == Success(p)
    ensures PacketBytes(p).Success?
    ensures var again := PacketBytes(p).value;
            && |again| == |bytes|
            && DecodePacket(again) == Success(p)
            && forall i :: 0 <= i < |bytes| ==>
                 again[i] == if 0 <= i - COMMON_HEADER_LEN - |p.body| < PadLength(p) then 0 else bytes[i]
  {
    hide HeaderBytes, DecodeHeader, DecodePacket, TrailerBytes;
    DecodedPartition(bytes, p);
    assert Normalised(p) == p;
    LayoutDecodes(p, Zeros(PadLength(p)));
    var again := PacketBytes(p).value;
    var start := COMMON_HEADER_LEN + |p.body|;
    var end := start + PadLength(p);
    assert again[..start] == bytes[..start];
    assert again[start..end] == Zeros(PadLength(p));
    assert again[end..] == bytes[end..];
    forall i | 0 <= i < |bytes|
      ensures again[i] == if start <= i < end then 0 else bytes[i]
    {
      if i < start {
        assert again[i] == again[..start][i] && bytes[i] == bytes[..start][i];
      } else if i < end {
        assert again[i] == again[start..end][i - start];
      } else {
        assert again[i] == again[end..][i - end] && bytes[i] == bytes[end..][i - end];
      }
    }
  }

  // ---------------------------------------------------------------- refusals

  /** Which packets cannot be encoded, and why. */
  lemma PacketEncodesIff(p: PduPacket)
    ensures var size := 16 + |p.body| + (if p.trailer.Some? then p.trailer.value.padLength + 8 else 0) + |p.authValue|;
            && (|p.authValue| > 0xFFFF ==> PacketBytes(p) == Failure(InvalidPdu("auth value is too large")))
            && (0 < |p.authValue| <= 0xFFFF && p.trailer.None? ==>
                  PacketBytes(p) == Failure(InvalidPdu("auth value requires security trailer")))
            && (|p.authValue| <= 0xFFFF && (p.trailer.Some? || p.authValue == []) && size > 0xFFFF ==>
                  PacketBytes(p) == Failure(InvalidPdu("fragment is too large")))
            && (PacketBytes(p).Success? <==> (p.trailer.Some? || p.authValue == []) && size <= 0xFFFF)
  {
  }

  /** Which byte strings with a good header are refused as packets, and why. */
  lemma PacketRefusals(bytes: seq<byte>)
    ensures DecodeHeader(bytes).Failure? ==> DecodePacket(bytes) == Failure(DecodeHeader(bytes).error)
    ensures DecodeHeader(bytes).Success? ==>
              var n: nat, auth: nat := DecodeHeader(bytes).value.fragLength, DecodeHeader(bytes).value.authLength;
              && (n < 16 ==>
                    DecodePacket(bytes) == Failure(InvalidPdu("fragment length is smaller than common header")))
              && (n >= 16 && |bytes| != n ==>
                    DecodePacket(bytes) == Failure(InvalidPdu("fragment length does not match input length")))
              && (n == |bytes| && auth > n - 16 ==>
                    DecodePacket(bytes) == Failure(InvalidPdu("auth length exceeds fragment body")))
              && (n == |bytes| && 0 < auth && n - 24 < auth <= n - 16 ==>
                    DecodePacket(bytes) == Failure(InvalidPdu("auth value requires security trailer")))
              && (n == |bytes| && 0 < auth <= n - 24 ==>
                    match DecodeTrailer(bytes[n - auth - 8..n - auth])
                    case Failure(e) => DecodePacket(bytes) == Failure(e)
                    case Success(trailer) =>
                      trailer.padLength > n - 24 - auth ==>
                        DecodePacket(bytes) == Failure(InvalidPdu("auth padding exceeds fragment body")))
  {
    hide DecodeHeader, DecodeTrailer;
  }

  /** Bodies shorter than their fixed parts are refused. */
  lemma ShortBodies(bytes: seq<byte>)
    ensures |bytes| < 8 <==> DecodeBind(bytes) == Failure(InvalidPdu("bind PDU body requires at least 8 bytes"))
    ensures |bytes| < 8 <==> DecodeRequest(bytes, false) == Failure(InvalidPdu("request PDU body is too short"))
    ensures |bytes| < 24 <==> DecodeRequest(bytes, true) == Failure(InvalidPdu("request PDU body is too short"))
    ensures |bytes| < 8 <==> DecodeResponse(bytes) == Failure(InvalidPdu("response PDU body requires at least 8 bytes"))
    ensures |bytes| < 12 <==> DecodeFault(bytes) == Failure(InvalidPdu("fault PDU body requires at least 12 bytes"))
  {
  }

  // ---------------------------------------------------------------- plain packets and bodies

  /** Packets without a trailer: what the client and its peers build for calls. */
  lemma PlainPacketRoundTrip(ptype: PduType, callId: u32, flags: byte, body: seq<byte>)
    ensures var p := FromBodyWithFlags(ptype, callId, flags, body);
            && (PacketBytes(p).Success? <==> |body| <= 0xFFFF - COMMON_HEADER_LEN)
            && (PacketBytes(p).Success? ==>
                  && |PacketBytes(p).value| == COMMON_HEADER_LEN + |body|
                  && DecodePacket(PacketBytes(p).value) == Success(p))
  {
    hide HeaderBytes, DecodeHeader, DecodePacket;
    var p := FromBodyWithFlags(ptype, callId, flags, body);
    if PacketBytes(p).Success? {
      PacketRoundTrip(p);
      assert Normalised(p) == p;
    }
  }

  /** The provisional length of a packet built from a body wraps modulo 2^16. */
  lemma ProvisionalLength(ptype: PduType, callId: u32, flags: byte, body: seq<byte>)
    ensures FromBodyWithFlags(ptype, callId, flags, body).header.fragLength == (16 + |body|) % 0x1_0000
  {
  }

  /**
   * Request packet round trip, sharp form. An object id sets bit 7 of the flags and leaves the other
   * bits; a reader who takes that bit to announce an object id gets the request back if and only if
   * the caller did not set it without an object id.
   */
  lemma RequestPacketRoundTrip(callId: u32, flags: byte, request: RequestPdu)
    requires |RequestBody(request)| <= 0xFFFF - COMMON_HEADER_LEN
    ensures var p := FromRequestWithFlags(callId, flags, request);
            && PacketBytes(p).Success? && DecodePacket(PacketBytes(p).value) == Success(p)
            && p.header.ptype == Request && p.header.callId == callId && p.trailer == None
            && p.header.flags % 0x80 == flags % 0x80
            && (p.header.flags >= 0x80 <==> flags >= 0x80 || request.objectId.Some?)
            && (DecodeRequest(p.body, p.header.flags >= 0x80) == Success(request) <==>
                flags < 0x80 || request.objectId.Some?)
  {
    hide DecodePacket, PacketBytes, RequestBody;
    var p := FromRequestWithFlags(callId, flags, request);
    PlainPacketRoundTrip(Request, callId, p.header.flags, RequestBody(request));
    RequestRoundTrip(request);
  }

  lemma BindBodyRoundTrip(bind: BindPdu)
    ensures DecodeBind(BindBody(bind)) == Success(bind)
  {
  }

  lemma RequestRoundTrip(request: RequestPdu)
    ensures DecodeRequest(RequestBody(request), request.objectId.Some?) == Success(request)
  {
  }

  lemma ResponseRoundTrip(response: ResponsePdu)
    ensures DecodeResponse(ResponseBody(response)) == Success(response)
  {
  }

  lemma FaultRoundTrip(fault: FaultPdu)
    ensures DecodeFault(FaultBody(fault)) == Success(fault)
  {
  }
}
