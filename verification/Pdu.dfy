/** The PDU codec: common header, security trailer, packet, and the bodies the client uses. */
module Pdu {
  import opened Bytes
  import opened WireCodes
  import opened Errors

  const RPC_VERSION: byte := 5
  const COMMON_HEADER_LEN: nat := 16
  const TRAILER_LEN: nat := 8
  const PFC_FIRST_FRAG: byte := 0x01
  const PFC_LAST_FRAG: byte := 0x02
  const PFC_OBJECT_UUID: byte := 0x80
  const FIRST_AND_LAST: byte := 0x03
  const WINDOWS_DREP: Drep := [0x10, 0, 0, 0]

  type Drep = d: seq<byte> | |d| == 4 witness Zeros(4)
  type Uuid = u: seq<byte> | |u| == 16 witness Zeros(16)

  function LabelByteOrder(drep: seq<byte>): Option<ByteOrder> {
    if drep == WINDOWS_DREP then Some(Little) else None
  }

  /** A reading of data representation labels; it reads the Windows label as little-endian. */
  type DrepReader = f: seq<byte> -> Option<ByteOrder> | f(WINDOWS_DREP) == Some(Little)
    witness LabelByteOrder

  /** The label reader belongs to another crate: every statement here holds for each reader. */
  const ReadDrep: DrepReader

  predicate HasFirst(flags: byte) {
    flags % 2 == 1
  }

  predicate HasLast(flags: byte) {
    flags / 2 % 2 == 1
  }

  function FragmentFlags(first: bool, last: bool): byte {
    (if first then PFC_FIRST_FRAG else 0) + (if last then PFC_LAST_FRAG else 0)
  }

  datatype SecurityTrailer = SecurityTrailer(
    authType: AuthType, authLevel: AuthLevel, padLength: byte, reserved: byte, contextId: u32)

  datatype PduHeader = PduHeader(
    rpcVers: byte, rpcVersMinor: byte, ptype: PduType, flags: byte, drep: Drep,
    fragLength: u16, authLength: u16, callId: u32)

  datatype PduPacket = PduPacket(
    header: PduHeader, body: seq<byte>, trailer: Option<SecurityTrailer>, authValue: seq<byte>)

  // ---------------------------------------------------------------- security trailer

  function TrailerBytes(trailer: SecurityTrailer): (bytes: seq<byte>)
    ensures |bytes| == TRAILER_LEN
  {
    [AuthTypeCode(trailer.authType), AuthLevelCode(trailer.authLevel), trailer.padLength, trailer.reserved]
    + U32Bytes(trailer.contextId, Little)
  }

  function DecodeTrailer(bytes: seq<byte>): Result<SecurityTrailer> {
    if |bytes| < TRAILER_LEN then
      Failure(InvalidPdu("security trailer requires 8 bytes"))
    else if AuthTypeOf(bytes[0]).None? then
      Failure(InvalidPdu("unsupported RPC auth type"))
    else if AuthLevelOf(bytes[1]).None? then
      Failure(InvalidPdu("unsupported RPC auth level"))
    else
      Success(SecurityTrailer(
        AuthTypeOf(bytes[0]).value, AuthLevelOf(bytes[1]).value, bytes[2], bytes[3],
        ReadU32(bytes[4..8], Little)))
  }

  method EncodeTrailer(trailer: SecurityTrailer) returns (bytes: seq<byte>)
    ensures bytes == TrailerBytes(trailer)
  {
    var buffer := new byte[TRAILER_LEN](_ => 0);
    buffer[0] := AuthTypeCode(trailer.authType);
    buffer[1] := AuthLevelCode(trailer.authLevel);
    buffer[2] := trailer.padLength;
    buffer[3] := trailer.reserved;
    assert buffer[..4] == TrailerBytes(trailer)[..4];
    WriteU32(buffer, 4, trailer.contextId, Little);
    bytes := buffer[..];
  }

  // ---------------------------------------------------------------- common header

  /** The order a header's own fields are written in; an unreadable label means little-endian. */
  function HeaderOrder(drep: Drep): ByteOrder {
    match ReadDrep(drep)
    case Some(order) => order
    case None => Little
  }

  function NewHeader(ptype: PduType, flags: byte, callId: u32): PduHeader {
    PduHeader(RPC_VERSION, 0, ptype, flags, WINDOWS_DREP, COMMON_HEADER_LEN, 0, callId)
  }

  /** The first eight bytes of a header: versions, type, flags and the data representation label. */
  function HeaderStart(h: PduHeader): (bytes: seq<byte>)
    ensures |bytes| == 8
  {
    [h.rpcVers, h.rpcVersMinor, PduTypeCode(h.ptype), h.flags] + h.drep
  }

  function HeaderBytes(h: PduHeader): (bytes: seq<byte>)
    ensures |bytes| == COMMON_HEADER_LEN
  {
    var order := HeaderOrder(h.drep);
    HeaderStart(h)
    + U16Bytes(h.fragLength, order)
    + U16Bytes(h.authLength, order)
    + U32Bytes(h.callId, order)
  }

  method WriteStart(buffer: array<byte>, h: PduHeader)
    requires buffer.Length == COMMON_HEADER_LEN
    modifies buffer
    ensures buffer[..8] == HeaderStart(h)
  {
    hide PduTypeCode;
    buffer[0], buffer[1] := h.rpcVers, h.rpcVersMinor;
    buffer[2], buffer[3] := PduTypeCode(h.ptype), h.flags;
    buffer[4], buffer[5], buffer[6], buffer[7] := h.drep[0], h.drep[1], h.drep[2], h.drep[3];
  }

  method EncodeHeader(h: PduHeader) returns (bytes: seq<byte>)
    ensures bytes == HeaderBytes(h)
  {
    hide U16Bytes, U32Bytes, HeaderStart, HeaderOrder;
    var buffer := new byte[COMMON_HEADER_LEN](_ => 0);
    var order := HeaderOrder(h.drep);
    WriteStart(buffer, h);
    WriteU16(buffer, 8, h.fragLength, order);
    assert buffer[..10] == HeaderStart(h) + U16Bytes(h.fragLength, order);
    WriteU16(buffer, 10, h.authLength, order);
    assert buffer[..12] == HeaderStart(h) + U16Bytes(h.fragLength, order) + U16Bytes(h.authLength, order);
    WriteU32(buffer, 12, h.callId, order);
    bytes := buffer[..];
  }

  function DecodeHeader(bytes: seq<byte>): (r: Result<PduHeader>)
    ensures r.Success? ==> |bytes| >= COMMON_HEADER_LEN
  {
    if |bytes| < COMMON_HEADER_LEN then
      Failure(InvalidPdu("common header requires 16 bytes"))
    else
      var drep: Drep := bytes[4..8];
      if ReadDrep(drep).None? then
        Failure(Ndr("unreadable data representation"))
      else if PduTypeOf(bytes[2]).None? then
        Failure(InvalidPduType(bytes[2]))
      else if bytes[0] != RPC_VERSION then
        Failure(InvalidPdu("unsupported RPC major version"))
      else
        var order := ReadDrep(drep).value;
        Success(PduHeader(
          bytes[0], bytes[1], PduTypeOf(bytes[2]).value, bytes[3], drep,
          ReadU16(bytes[8..10], order), ReadU16(bytes[10..12], order), ReadU32(bytes[12..16], order)))
  }

  // ---------------------------------------------------------------- packet

  function PadLength(p: PduPacket): nat {
    match p.trailer
    case Some(t) => t.padLength
    case None => 0
  }

  function OptionalTrailer(trailer: Option<SecurityTrailer>): (bytes: seq<byte>)
    ensures |bytes| == if trailer.Some? then TRAILER_LEN else 0
  {
    match trailer
    case Some(t) => TrailerBytes(t)
    case None => []
  }

  /** The size of the whole fragment a packet occupies on the wire. */
  function FragmentLength(p: PduPacket): nat {
    COMMON_HEADER_LEN + |p.body| + PadLength(p) + |OptionalTrailer(p.trailer)| + |p.authValue|
  }

  /** The five consecutive regions of a fragment. */
  function Layout(p: PduPacket, pad: seq<byte>): (bytes: seq<byte>)
    ensures |bytes| == COMMON_HEADER_LEN + |p.body| + |pad| + |OptionalTrailer(p.trailer)| + |p.authValue|
  {
    HeaderBytes(p.header) + p.body + pad + OptionalTrailer(p.trailer) + p.authValue
  }

  /** The packet with both length fields set to what its parts occupy. */
  function Normalised(p: PduPacket): PduPacket
    requires FragmentLength(p) <= 0xFFFF && |p.authValue| <= 0xFFFF
  {
    p.(header := p.header.(fragLength := FragmentLength(p), authLength := |p.authValue|))
  }

  function PacketBytes(p: PduPacket): (r: Result<seq<byte>>)
    ensures r.Success? ==> FragmentLength(p) == |r.value| <= 0xFFFF
  {
    if |p.authValue| > 0xFFFF then
      Failure(InvalidPdu("auth value is too large"))
    else if |p.authValue| > 0 && p.trailer.None? then
      Failure(InvalidPdu("auth value requires security trailer"))
    else if FragmentLength(p) > 0xFFFF then
      Failure(InvalidPdu("fragment is too large"))
    else
      Success(Layout(Normalised(p), Zeros(PadLength(p))))
  }

  method EncodePacket(p: PduPacket) returns (r: Result<seq<byte>>)
    ensures r == PacketBytes(p)
  {
    var authLen := |p.authValue|;
    if authLen > 0xFFFF {
      return Failure(InvalidPdu("auth value is too large"));
    }
    if authLen > 0 && p.trailer.None? {
      return Failure(InvalidPdu("auth value requires security trailer"));
    }
    var padLen, trailerLen := 0, 0;
    if p.trailer.Some? {
      padLen, trailerLen := p.trailer.value.padLength, TRAILER_LEN;
    }
    var fragLength := COMMON_HEADER_LEN + |p.body| + padLen + trailerLen + authLen;
    if fragLength > 0xFFFF {
      return Failure(InvalidPdu("fragment is too large"));
    }
    var header := p.header.(fragLength := fragLength, authLength := authLen);
    var bytes := EncodeHeader(header);
    bytes := bytes + p.body;
    if p.trailer.Some? {
      bytes := bytes + Zeros(p.trailer.value.padLength);
      var trailer := EncodeTrailer(p.trailer.value);
      bytes := bytes + trailer;
    } else {
      assert bytes == bytes + Zeros(PadLength(p)) + OptionalTrailer(p.trailer);
    }
    bytes := bytes + p.authValue;
    return Success(bytes);
  }

  function DecodePacket(bytes: seq<byte>): (r: Result<PduPacket>)
    ensures r.Success? ==> |bytes| >= COMMON_HEADER_LEN
  {
    var header :- DecodeHeader(bytes);
    var fragLength: nat, authLength: nat := header.fragLength, header.authLength;
    if fragLength < COMMON_HEADER_LEN then
      Failure(InvalidPdu("fragment length is smaller than common header"))
    else if |bytes| != fragLength then
      Failure(InvalidPdu("fragment length does not match input length"))
    else if authLength > fragLength - COMMON_HEADER_LEN then
      Failure(InvalidPdu("auth length exceeds fragment body"))
    else if authLength == 0 then
      Success(PduPacket(header, bytes[COMMON_HEADER_LEN..], None, []))
    else
      var authStart := fragLength - authLength;
      if authStart - TRAILER_LEN < COMMON_HEADER_LEN then
        Failure(InvalidPdu("auth value requires security trailer"))
      else
        var trailerStart: nat := authStart - TRAILER_LEN;
        var trailer :- DecodeTrailer(bytes[trailerStart..authStart]);
        if trailerStart - trailer.padLength < COMMON_HEADER_LEN then
          Failure(InvalidPdu("auth padding exceeds fragment body"))
        else
          Success(PduPacket(
            header, bytes[COMMON_HEADER_LEN..trailerStart - trailer.padLength], Some(trailer),
            bytes[authStart..]))
  }

  /** `COMMON_HEADER_LEN + body.len() as u16`: the cast truncates, the sum wraps. */
  function ProvisionalFragLength(bodyLen: nat): u16 {
    (COMMON_HEADER_LEN + bodyLen % 0x1_0000) % 0x1_0000
  }

  function FromBodyWithFlags(ptype: PduType, callId: u32, flags: byte, body: seq<byte>): PduPacket {
    PduPacket(
      NewHeader(ptype, flags, callId).(fragLength := ProvisionalFragLength(|body|)), body, None, [])
  }

  // ---------------------------------------------------------------- bodies

  datatype BindPdu = BindPdu(
    maxXmitFrag: u16, maxRecvFrag: u16, assocGroupId: u32, contextList: seq<byte>)

  function BindBody(bind: BindPdu): (bytes: seq<byte>) {
    U16Bytes(bind.maxXmitFrag, Little) + U16Bytes(bind.maxRecvFrag, Little)
    + U32Bytes(bind.assocGroupId, Little) + bind.contextList
  }

  function DecodeBind(bytes: seq<byte>): Result<BindPdu> {
    if |bytes| < 8 then
      Failure(InvalidPdu("bind PDU body requires at least 8 bytes"))
    else
      Success(BindPdu(
        ReadU16(bytes[0..2], Little), ReadU16(bytes[2..4], Little), ReadU32(bytes[4..8], Little), bytes[8..]))
  }

  datatype RequestPdu = RequestPdu(
    allocHint: u32, contextId: u16, opnum: u16, objectId: Option<Uuid>, stub: seq<byte>)

  function RequestBody(request: RequestPdu): (bytes: seq<byte>)
    ensures |bytes| == 8 + (if request.objectId.Some? then 16 else 0) + |request.stub|
  {
    U32Bytes(request.allocHint, Little) + U16Bytes(request.contextId, Little) + U16Bytes(request.opnum, Little)
    + (if request.objectId.Some? then request.objectId.value else [])
    + request.stub
  }

  function DecodeRequest(bytes: seq<byte>, hasObject: bool): Result<RequestPdu> {
    var stubStart := if hasObject then 24 else 8;
    if |bytes| < stubStart then
      Failure(InvalidPdu("request PDU body is too short"))
    else
      Success(RequestPdu(
        ReadU32(bytes[0..4], Little), ReadU16(bytes[4..6], Little), ReadU16(bytes[6..8], Little),
        if hasObject then Some(bytes[8..24]) else None, bytes[stubStart..]))
  }

  function FromRequestWithFlags(callId: u32, flags: byte, request: RequestPdu): PduPacket {
    var allFlags := if request.objectId.Some? && flags < PFC_OBJECT_UUID then flags + PFC_OBJECT_UUID else flags;
    FromBodyWithFlags(Request, callId, allFlags, RequestBody(request))
  }

  datatype ResponsePdu = ResponsePdu(allocHint: u32, contextId: u16, cancelCount: byte, stub: seq<byte>)

  function ResponseBody(response: ResponsePdu): (bytes: seq<byte>)
    ensures |bytes| == 8 + |response.stub|
  {
    U32Bytes(response.allocHint, Little) + U16Bytes(response.contextId, Little)
    + [response.cancelCount, 0] + response.stub
  }

  function DecodeResponse(bytes: seq<byte>): Result<ResponsePdu> {
    if |bytes| < 8 then
      Failure(InvalidPdu("response PDU body requires at least 8 bytes"))
    else
      Success(ResponsePdu(
        ReadU32(bytes[0..4], Little), ReadU16(bytes[4..6], Little), bytes[6], bytes[8..]))
  }

  function FromResponseWithFlags(callId: u32, flags: byte, response: ResponsePdu): PduPacket {
    FromBodyWithFlags(Response, callId, flags, ResponseBody(response))
  }

  datatype FaultPdu = FaultPdu(
    allocHint: u32, contextId: u16, cancelCount: byte, status: u32, stub: seq<byte>)

  function FaultBody(fault: FaultPdu): (bytes: seq<byte>) {
    U32Bytes(fault.allocHint, Little) + U16Bytes(fault.contextId, Little) + [fault.cancelCount, 0]
    + U32Bytes(fault.status, Little) + fault.stub
  }

  function DecodeFault(bytes: seq<byte>): Result<FaultPdu> {
    if |bytes| < 12 then
      Failure(InvalidPdu("fault PDU body requires at least 12 bytes"))
    else
      Success(FaultPdu(
        ReadU32(bytes[0..4], Little), ReadU16(bytes[4..6], Little), bytes[6],
        ReadU32(bytes[8..12], Little), bytes[12..]))
  }
}
