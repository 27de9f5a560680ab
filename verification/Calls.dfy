/** What one remote call does, as functions on the client's state. */
module Calls {
  import opened Bytes
  import opened WireCodes
  import opened Errors
  import opened Pdu
  import opened Wires

  const REQUEST_HEADER_LEN: nat := 8
  const CALL_OVERHEAD: nat := COMMON_HEADER_LEN + REQUEST_HEADER_LEN
  const DEFAULT_MAX_XMIT_FRAG: u16 := 4280

  datatype ClientState = ClientState(
    contextId: u16, callId: u32, maxXmitFrag: u16, level: Option<AuthLevel>, wire: Wire)

  /** What identifies the operation a request fragment belongs to. */
  datatype Target = Target(callId: u32, contextId: u16, opnum: u16)

  function NextCallId(callId: u32): u32 {
    var wrapped := (callId + 1) % 0x1_0000_0000;
    if wrapped < 1 then 1 else wrapped
  }

  /** Without a provider, or with one at level None or Connect, calls go out unprotected. */
  predicate Supported(level: Option<AuthLevel>) {
    level.None? || level.value == LevelNone || level.value == Connect
  }

  function UnsupportedLevel(level: AuthLevel): Error {
    if level == PacketIntegrity then Auth("RPC auth level PacketIntegrity is not supported in v1")
    else Auth("RPC auth level PacketPrivacy is not supported in v1")
  }

  // ---------------------------------------------------------------- requests

  /** A stub cut into full pieces and a last one; the empty stub is one empty piece. */
  function Chunks(stub: seq<byte>, size: nat): (chunks: seq<seq<byte>>)
    requires size > 0
    ensures chunks != []
  {
    if |stub| <= size then [stub] else [stub[..size]] + Chunks(stub[size..], size)
  }

  function RequestFragment(t: Target, hint: u32, first: bool, last: bool, chunk: seq<byte>): PduPacket {
    FromRequestWithFlags(
      t.callId, FragmentFlags(first, last), RequestPdu(hint, t.contextId, t.opnum, None, chunk))
  }

  /** One packet per chunk; FIRST on the first if `first`, LAST on the last. */
  function RequestFragments(t: Target, hint: u32, first: bool, chunks: seq<seq<byte>>)
    : (packets: seq<PduPacket>)
    ensures |packets| == |chunks|
  {
    if chunks == [] then
      []
    else
      [RequestFragment(t, hint, first, |chunks| == 1, chunks[0])]
      + RequestFragments(t, hint, false, chunks[1..])
  }

  /** All packets of one request. The allocation hint is the stub length as a 32-bit number. */
  function FragmentPlan(t: Target, maxXmitFrag: u16, stub: seq<byte>): (packets: seq<PduPacket>)
    requires maxXmitFrag > CALL_OVERHEAD
  {
    RequestFragments(t, |stub| % 0x1_0000_0000, true, Chunks(stub, maxXmitFrag - CALL_OVERHEAD))
  }

  /** Encodes and sends packets in order, up to the first failure. */
  function SendPackets(w: Wire, packets: seq<PduPacket>): (s: Stepped<()>)
    ensures s.wire.incoming == w.incoming
    decreases |packets|
  {
    if packets == [] then
      Stepped(w, Success(()))
    else
      match PacketBytes(packets[0])
      case Failure(e) => Stepped(w, Failure(e))
      case Success(bytes) =>
        var s := SendOn(w, bytes);
        if s.result.Failure? then s else SendPackets(s.wire, packets[1..])
  }

  function SendRequest(s: ClientState, callId: u32, opnum: u16, stub: seq<byte>): (r: Stepped<()>)
    ensures r.wire.incoming == s.wire.incoming
  {
    if s.maxXmitFrag <= CALL_OVERHEAD then
      Stepped(s.wire, Failure(InvalidPdu("max transmit fragment is too small")))
    else if !Supported(s.level) then
      Stepped(s.wire, Failure(UnsupportedLevel(s.level.value)))
    else
      SendPackets(s.wire, FragmentPlan(Target(callId, s.contextId, opnum), s.maxXmitFrag, stub))
  }

  // ---------------------------------------------------------------- responses

  /** The stub bytes one packet contributes to the call `callId`, or why it ends the call. */
  function ResponseStub(p: PduPacket, callId: u32, sawFirst: bool): (r: Result<seq<byte>>) {
    if p.header.callId != callId then
      Failure(InvalidPdu("response call id does not match request"))
    else
      match p.header.ptype
      case Response =>
        if !sawFirst && !HasFirst(p.header.flags) then
          Failure(InvalidPdu("response is missing first fragment"))
        else
          var response :- DecodeResponse(p.body);
          Success(response.stub)
      case Fault =>
        var fault :- DecodeFault(p.body);
        Failure(RpcFault(fault.status))
      case _ =>
        Failure(InvalidPdu("expected response or fault PDU"))
  }

  /** Input that is left, and the reassembled stub. */
  datatype Reassembled = Reassembled(rest: Incoming, stub: Result<seq<byte>>)

  /** Receives packets for `callId` until one carries LAST, adding to the stub collected so far. */
  function Reassemble(incoming: Incoming, level: Option<AuthLevel>, callId: u32,
                      collected: seq<byte>, sawFirst: bool): (r: Reassembled)
    ensures r.rest.Pipe? == incoming.Pipe?
    decreases incoming.Size()
  {
    var received := Receive(incoming);
    match received.pdu
    case Failure(e) => Reassembled(received.rest, Failure(e))
    case Success(bytes) =>
      match DecodePacket(bytes)
      case Failure(e) => Reassembled(received.rest, Failure(e))
      case Success(packet) =>
        if !Supported(level) then
          Reassembled(received.rest, Failure(UnsupportedLevel(level.value)))
        else
          match ResponseStub(packet, callId, sawFirst)
          case Failure(e) => Reassembled(received.rest, Failure(e))
          case Success(stub) =>
            if HasLast(packet.header.flags) then
              Reassembled(received.rest, Success(collected + stub))
            else
              Reassemble(received.rest, level, callId, collected + stub, true)
  }

  // ---------------------------------------------------------------- calls

  datatype Called = Called(state: ClientState, result: Result<seq<byte>>)

  /** One call: take an id, send the request, collect the response. */
  function Call(s: ClientState, opnum: u16, stub: seq<byte>): (r: Called) {
    var numbered := s.(callId := NextCallId(s.callId));
    var sent := SendRequest(s, s.callId, opnum, stub);
    match sent.result
    case Failure(e) => Called(numbered.(wire := sent.wire), Failure(e))
    case Success(_) =>
      var response := Reassemble(sent.wire.incoming, s.level, s.callId, [], false);
      Called(numbered.(wire := sent.wire.(incoming := response.rest)), response.stub)
  }
}
