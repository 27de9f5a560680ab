/** Presentation syntax identifiers and their wire form. */
module Syntax {
  import opened Bytes
  import opened Errors
  import opened Pdu

  datatype SyntaxId = SyntaxId(uuid: Uuid, version: u32)

  const SYNTAX_LEN: nat := 20

  function NewSyntaxId(uuid: Uuid, major: u16, minor: u16): SyntaxId {
    SyntaxId(uuid, major + minor * 0x1_0000)
  }

  /** A packed version is written as major, then minor. */
  lemma VersionBytes(major: u16, minor: u16)
    ensures U32Bytes(major + minor * 0x1_0000, Little) ==
            [major % 0x100, major / 0x100, minor % 0x100, minor / 0x100]
  {
    SplitU32(major, minor);
  }

  datatype InterfaceId = InterfaceId(uuid: Uuid, major: u16, minor: u16)

  function InterfaceSyntax(id: InterfaceId): SyntaxId {
    NewSyntaxId(id.uuid, id.major, id.minor)
  }

  /** Two versions of an interface share a syntax id only if they are the same version. */
  lemma VersionPackingIsInjective(a: InterfaceId, b: InterfaceId)
    ensures InterfaceSyntax(a) == InterfaceSyntax(b) <==> a == b
  {
  }

  const NDR32_UUID: Uuid :=
    [0x8A, 0x88, 0x5D, 0x04, 0x1C, 0xEB, 0x11, 0xC9, 0x9F, 0xE8, 0x08, 0x00, 0x2B, 0x10, 0x48, 0x60]

  const NDR32: SyntaxId := NewSyntaxId(NDR32_UUID, 2, 0)

  /** The DCE field order: the first three fields are byte-reversed, the tail is kept. */
  function WireUuid(u: Uuid): Uuid {
    [u[3], u[2], u[1], u[0], u[5], u[4], u[7], u[6]] + u[8..]
  }

  lemma WireUuidInvolution(u: Uuid)
    ensures WireUuid(WireUuid(u)) == u
  {
  }

  function SyntaxBytes(s: SyntaxId): (bytes: seq<byte>)
    ensures |bytes| == SYNTAX_LEN
  {
    WireUuid(s.uuid) + U32Bytes(s.version, Little)
  }

  function DecodeSyntax(bytes: seq<byte>): (r: Result<SyntaxId>)
    ensures r.Success? <==> |bytes| >= SYNTAX_LEN
  {
    if |bytes| < SYNTAX_LEN then
      Failure(InvalidPdu("syntax identifier requires 20 bytes"))
    else
      Success(SyntaxId(WireUuid(bytes[..16]), ReadU32(bytes[16..20], Little)))
  }

  lemma SyntaxRoundTrip(s: SyntaxId, rest: seq<byte>)
    ensures DecodeSyntax(SyntaxBytes(s) + rest) == Success(s)
  {
    var bytes := SyntaxBytes(s) + rest;
    assert bytes[..16] == WireUuid(s.uuid);
    assert bytes[16..20] == U32Bytes(s.version, Little) + [];
    WireUuidInvolution(s.uuid);
    U32RoundTrip(s.version, Little, []);
  }

  lemma SyntaxReencode(bytes: seq<byte>)
    requires |bytes| == SYNTAX_LEN
    ensures SyntaxBytes(DecodeSyntax(bytes).value) == bytes
  {
    WireUuidInvolution(bytes[..16]);
    U32Reencode(bytes[16..20], Little);
    assert bytes == bytes[..16] + bytes[16..20];
  }

  /** The wire bytes of the NDR32 transfer syntax. */
  lemma Ndr32Wire()
    ensures SyntaxBytes(NDR32) ==
            [0x04, 0x5D, 0x88, 0x8A, 0xEB, 0x1C, 0xC9, 0x11, 0x9F, 0xE8,
             0x08, 0x00, 0x2B, 0x10, 0x48, 0x60, 0x02, 0x00, 0x00, 0x00]
  {
  }
}
