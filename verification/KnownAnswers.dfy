/** Byte-for-byte answers that pin down where each field sits on the wire. */
module KnownAnswers {
  import opened Bytes
  import opened WireCodes
  import opened Errors
  import opened Pdu
  import opened Syntax
  import opened Bind
  import opened Calls
  import opened Fragmentation

  // ---------------------------------------------------------------- what bytes mean

  /** The numbers that two and four bytes stand for, least significant byte first. */
  function Number2(a: byte, b: byte): u16 {
    a as int + 0x100 * b as int
  }

  function Number4(a: byte, b: byte, c: byte, d: byte): u32 {
    a as int + 0x100 * b as int + 0x1_0000 * c as int + 0x100_0000 * d as int
  }

  lemma NumbersAt(b: seq<byte>, i: nat)
    requires i + 2 <= |b|
    ensures ReadU16(b[i..i + 2], Little) == Number2(b[i], b[i + 1])
    ensures ReadU16(b[i..i + 2], Big) == Number2(b[i + 1], b[i])
    ensures i + 4 <= |b| ==> ReadU32(b[i..i + 4], Little) == Number4(b[i], b[i + 1], b[i + 2], b[i + 3])
    ensures i + 4 <= |b| ==> ReadU32(b[i..i + 4], Big) == Number4(b[i + 3], b[i + 2], b[i + 1], b[i])
  {
    if i + 4 <= |b| {
      var four := b[i..i + 4];
      assert four == [b[i], b[i + 1], b[i + 2], b[i + 3]];
      assert four[..2] == [b[i], b[i + 1]] && four[2..4] == [b[i + 2], b[i + 3]];
    }
  }

  /** What any bytes mean as a header, field by field; the label decides the order of the numbers. */
  lemma HeaderReading(b: seq<byte>)
    ensures |b| < 16 ==> DecodeHeader(b) == Failure(InvalidPdu("common header requires 16 bytes"))
    ensures |b| >= 16 ==>
              var types := [Request, Ping, Response, Fault, Working, NoCall, Reject, Ack, ClCancel, Fack,
                            CancelAck, PduType.Bind, BindAck, BindNak, AlterContext, AlterContextResponse,
                            Auth3, Shutdown, CoCancel, Orphaned];
              DecodeHeader(b) ==
              match ReadDrep(b[4..8])
              case None => Failure(Ndr("unreadable data representation"))
              case Some(order) =>
                if b[2] > 0x13 then Failure(InvalidPduType(b[2]))
                else if b[0] != 5 then Failure(InvalidPdu("unsupported RPC major version"))
                else if order == Little then
                  Success(PduHeader(b[0], b[1], types[b[2]], b[3], b[4..8],
                                    Number2(b[8], b[9]), Number2(b[10], b[11]), Number4(b[12], b[13], b[14], b[15])))
                else
                  Success(PduHeader(b[0], b[1], types[b[2]], b[3], b[4..8],
                                    Number2(b[9], b[8]), Number2(b[11], b[10]), Number4(b[15], b[14], b[13], b[12])))
  {
    hide ReadU16, ReadU32, Number2, Number4;
    if |b| >= 16 {
      NumbersAt(b, 8);
      NumbersAt(b, 10);
      NumbersAt(b, 12);
    }
  }

  /** What any bytes mean as a security trailer. */
  lemma TrailerReading(b: seq<byte>)
    ensures |b| < 8 ==> DecodeTrailer(b) == Failure(InvalidPdu("security trailer requires 8 bytes"))
    ensures |b| >= 8 ==>
              var types := map[0 := TypeNone, 9 := GssNegotiate, 10 := WinNt, 16 := GssKerberos];
              var levels := map[0 := LevelNone, 2 := Connect, 5 := PacketIntegrity, 6 := PacketPrivacy];
              DecodeTrailer(b) ==
              if b[0] !in types then Failure(InvalidPdu("unsupported RPC auth type"))
              else if b[1] !in levels then Failure(InvalidPdu("unsupported RPC auth level"))
              else Success(SecurityTrailer(types[b[0]], levels[b[1]], b[2], b[3],
                                           Number4(b[4], b[5], b[6], b[7])))
  {
    hide ReadU32, Number4;
    if |b| >= 8 {
      NumbersAt(b, 4);
    }
  }

  /** What any bytes mean as a syntax id. */
  lemma SyntaxReading(b: seq<byte>)
    ensures |b| < 20 ==> DecodeSyntax(b) == Failure(InvalidPdu("syntax identifier requires 20 bytes"))
    ensures |b| >= 20 ==>
              DecodeSyntax(b) == Success(SyntaxId(
                [b[3], b[2], b[1], b[0], b[5], b[4], b[7], b[6]] + b[8..16], Number4(b[16], b[17], b[18], b[19])))
  {
    hide ReadU32, Number4;
    if |b| >= 20 {
      NumbersAt(b, 16);
      assert b[..16][8..] == b[8..16];
    }
  }

  /** What any bytes mean as one result of a bind acknowledgement. */
  lemma ResultReading(b: seq<byte>)
    ensures |b| < 24 ==> DecodeResult(b) == Failure(InvalidPdu("presentation result requires 24 bytes"))
    ensures |b| >= 24 ==>
              var codes := [Acceptance, UserRejection, ProviderRejection, NegotiateAck];
              var reasons := [NoReason, AbstractSyntaxUnknown, TransferSyntaxesUnknown, LocalLimit];
              DecodeResult(b) ==
              if b[1] != 0 || b[0] > 3 then Failure(InvalidPdu("unknown presentation result code"))
              else if b[3] != 0 || b[2] > 3 then Failure(InvalidPdu("unknown presentation reject reason"))
              else Success(PresentationResult(codes[b[0]], reasons[b[2]], DecodeSyntax(b[4..24]).value))
  {
    hide DecodeSyntax;
  }

  /** The reason that the first two bytes of a bind nak give, whatever follows. */
  lemma NakReading(low: byte, high: byte, rest: seq<byte>)
    ensures DecodeBindNak([0, 0] + rest) == Success(ReasonNotSpecified)
    ensures DecodeBindNak([1, 0] + rest) == Success(AbstractSyntaxNotSupported)
    ensures DecodeBindNak([2, 0] + rest) == Success(ProposedTransferSyntaxNotSupported)
    ensures DecodeBindNak([3, 0] + rest) == Success(LocalLimitExceeded)
    ensures DecodeBindNak([4, 0] + rest) == Success(ProtocolVersionNotSpecified)
    ensures DecodeBindNak([8, 0] + rest) == Success(AuthenticationTypeNotRecognized)
    ensures DecodeBindNak([9, 0] + rest) == Success(InvalidChecksum)
    ensures high != 0 || low in {5, 6, 7} || low > 9 ==>
              DecodeBindNak([low, high] + rest) == Failure(InvalidPdu("unknown bind nak reject reason"))
    ensures |rest| < 2 ==> DecodeBindNak(rest) == Failure(InvalidPdu("bind nak body requires a reject reason"))
  {
    forall a: byte, b: byte ensures ([a, b] + rest)[0..2] == [a, b] {
    }
  }

  /** FIRST is bit 0 of the flags and LAST is bit 1, whatever the other bits are. */
  lemma FlagBits(high: nat, other: nat)
    requires high < 0x40 && other < 2
    ensures HasFirst(4 * high + 2 * other + 1) && !HasFirst(4 * high + 2 * other)
    ensures HasLast(4 * high + 2 + other) && !HasLast(4 * high + other)
  {
  }

  // ---------------------------------------------------------------- bytes on the wire

  /** The header of a bind with every multi-byte field distinct, in Windows format. */
  lemma HeaderAnswer()
    ensures HeaderBytes(NewHeader(PduType.Bind, 3, 0x1122_3344).(fragLength := 0x1234, authLength := 0x55)) ==
            [0x05, 0x00, 0x0B, 0x03, 0x10, 0x00, 0x00, 0x00,
             0x34, 0x12, 0x55, 0x00, 0x44, 0x33, 0x22, 0x11]
  {
  }

  /** A fresh header announces sixteen bytes and no auth value. */
  lemma FreshHeader()
    ensures HeaderBytes(NewHeader(Request, 3, 0x1122_3344)) ==
            [0x05, 0x00, 0x00, 0x03, 0x10, 0x00, 0x00, 0x00,
             0x10, 0x00, 0x00, 0x00, 0x44, 0x33, 0x22, 0x11]
  {
  }

  /** A header is written big-endian under a big-endian label, and little-endian under an unreadable one. */
  lemma HeaderOrders(h: PduHeader)
    requires h.fragLength == 0x1234 && h.authLength == 0x0055 && h.callId == 0x1122_3344
    ensures ReadDrep(h.drep) == Some(Big) ==>
              HeaderBytes(h)[8..] == [0x12, 0x34, 0x00, 0x55, 0x11, 0x22, 0x33, 0x44]
    ensures ReadDrep(h.drep) == Some(Little) || ReadDrep(h.drep) == None ==>
              HeaderBytes(h)[8..] == [0x34, 0x12, 0x55, 0x00, 0x44, 0x33, 0x22, 0x11]
  {
  }

  lemma TrailerParts()
    ensures HeaderBytes(NewHeader(Request, 3, 3).(fragLength := 32, authLength := 4)) ==
            [5, 0, 0, 3, 0x10, 0, 0, 0, 32, 0, 4, 0, 3, 0, 0, 0]
    ensures TrailerBytes(SecurityTrailer(WinNt, PacketIntegrity, 2, 0, 7)) == [10, 5, 2, 0, 7, 0, 0, 0]
  {
  }

  /** A request with two body bytes, two bytes of padding, a trailer and a four-byte auth value. */
  lemma TrailerAnswer()
    ensures var trailer := SecurityTrailer(WinNt, PacketIntegrity, 2, 0, 7);
            var packet := PduPacket(NewHeader(Request, 3, 3), [0xAA, 0xBB], Some(trailer), [0x11, 0x22, 0x33, 0x44]);
            && PacketBytes(packet).Success?
            && PacketBytes(packet).value ==
               [5, 0, 0, 3, 0x10, 0, 0, 0, 32, 0, 4, 0, 3, 0, 0, 0]
               + [0xAA, 0xBB] + [0, 0] + [10, 5, 2, 0, 7, 0, 0, 0] + [0x11, 0x22, 0x33, 0x44]
  {
    hide HeaderBytes, TrailerBytes;
    TrailerParts();
    var trailer := SecurityTrailer(WinNt, PacketIntegrity, 2, 0, 7);
    var packet := PduPacket(NewHeader(Request, 3, 3), [0xAA, 0xBB], Some(trailer), [0x11, 0x22, 0x33, 0x44]);
    assert Normalised(packet).header == NewHeader(Request, 3, 3).(fragLength := 32, authLength := 4);
    assert Zeros(2) == [0, 0];
  }

  lemma BodyAnswers(id: Uuid)
    ensures RequestBody(RequestPdu(0x0403_0201, 0x0605, 0x0807, None, [9])) == [1, 2, 3, 4, 5, 6, 7, 8, 9]
    ensures RequestBody(RequestPdu(0x0403_0201, 0x0605, 0x0807, Some(id), [9])) ==
            [1, 2, 3, 4, 5, 6, 7, 8] + id + [9]
    ensures ResponseBody(ResponsePdu(0x0403_0201, 0x0605, 7, [9])) == [1, 2, 3, 4, 5, 6, 7, 0, 9]
    ensures FaultBody(FaultPdu(0x0403_0201, 0x0605, 7, 0x0C0B_0A09, [13])) ==
            [1, 2, 3, 4, 5, 6, 7, 0, 9, 10, 11, 12, 13]
    ensures BindBody(BindPdu(0x0201, 0x0403, 0x0807_0605, [9])) == [1, 2, 3, 4, 5, 6, 7, 8, 9]
  {
  }

  /** A syntax id with a two-part version: the DCE field order, then major, then minor. */
  lemma SyntaxAnswer(u: Uuid, major: u16, minor: u16)
    ensures SyntaxBytes(NewSyntaxId(u, major, minor)) ==
            [u[3], u[2], u[1], u[0], u[5], u[4], u[7], u[6]] + u[8..]
            + [major % 0x100, major / 0x100, minor % 0x100, minor / 0x100]
  {
    hide U32Bytes;
    VersionBytes(major, minor);
  }

  /** Two contexts, the first with two transfer syntaxes: everything in the order given. */
  lemma ContextsAnswer(a: SyntaxId, b: SyntaxId, c: SyntaxId)
    ensures var list := [PresentationContext(0x0201, a, [b, c]), PresentationContext(0x0403, b, [])];
            ContextListBytes(list) ==
            Success([2, 0, 0, 0]
                    + ([1, 2, 2, 0] + SyntaxBytes(a) + SyntaxBytes(b) + SyntaxBytes(c))
                    + ([3, 4, 0, 0] + SyntaxBytes(b)))
  {
    hide SyntaxBytes;
    var list := [PresentationContext(0x0201, a, [b, c]), PresentationContext(0x0403, b, [])];
    assert [b, c][1..] == [c] && list[1..] == [list[1]];
    assert SyntaxListBytes([b, c]) == SyntaxBytes(b) + SyntaxBytes(c);
    assert ContextBytes(list[0]) == [1, 2, 2, 0] + SyntaxBytes(a) + SyntaxBytes(b) + SyntaxBytes(c);
    assert ContextBytes(list[1]) == [3, 4, 0, 0] + SyntaxBytes(b);
    assert ContextsBytes([list[1]]) == ContextBytes(list[1]) + ContextsBytes([]);
    assert ContextsBytes(list) == ContextBytes(list[0]) + ContextBytes(list[1]);
    assert [2, 0] + U16Bytes(0, Little) == [2, 0, 0, 0];
    assert |list| == 2 && AllEncodable(list);
    var first, second := ContextBytes(list[0]), ContextBytes(list[1]);
    assert [2, 0, 0, 0] + (first + second) == [2, 0, 0, 0] + first + second;
    assert ContextListBytes(list) == Success([2, 0, 0, 0] + (first + second));
  }

  /** A ten-byte stub with a limit of 30 bytes goes out as six bytes, then four. */
  lemma FragmentationAnswer(t: Target)
    ensures FragmentPlan(t, 30, [1, 2, 3, 4, 5, 6, 7, 8, 9, 10]) ==
            [RequestFragment(t, 10, true, false, [1, 2, 3, 4, 5, 6]),
             RequestFragment(t, 10, false, true, [7, 8, 9, 10])]
    ensures FragmentFlags(true, false) == PFC_FIRST_FRAG && FragmentFlags(false, true) == PFC_LAST_FRAG
  {
    hide RequestFragment;
    var stub: seq<byte> := [1, 2, 3, 4, 5, 6, 7, 8, 9, 10];
    assert stub[..6] == [1, 2, 3, 4, 5, 6] && stub[6..] == [7, 8, 9, 10];
    assert Chunks(stub[6..], 6) == [stub[6..]];
    var chunks := Chunks(stub, 6);
    assert chunks == [stub[..6], stub[6..]];
    FragmentAt(t, 10, true, chunks, 0);
    FragmentAt(t, 10, true, chunks, 1);
  }
}
