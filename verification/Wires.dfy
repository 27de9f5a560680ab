/**
 * The state behind the transport trait: what is waiting to be received, what has been sent, and
 * which of the next sends will fail. The two implementations differ in how input waits.
 */
module Wires {
  import opened Bytes
  import opened Errors
  import opened Pdu

  /** A queue hands out whole PDUs; a pipe is an undelimited byte stream. */
  datatype Incoming = Queue(pdus: seq<seq<byte>>) | Pipe(stream: seq<byte>) {
    function Size(): nat {
      match this
      case Queue(pdus) => |pdus|
      case Pipe(stream) => |stream|
    }
  }

  /** `faults[i]` says whether the i-th send from now fails; further sends succeed. */
  datatype Wire = Wire(incoming: Incoming, sent: seq<seq<byte>>, faults: seq<bool>)

  datatype Stepped<+T> = Stepped(wire: Wire, result: Result<T>)

  predicate NoFaults(w: Wire) {
    forall i :: 0 <= i < |w.faults| ==> !w.faults[i]
  }

  function SendOn(w: Wire, pdu: seq<byte>): (s: Stepped<()>)
    ensures s.wire.incoming == w.incoming
    ensures s.result == Success(()) || s.result == Failure(Transport("send failed"))
  {
    var later := if w.faults == [] then [] else w.faults[1..];
    if w.faults != [] && w.faults[0] then
      Stepped(w.(faults := later), Failure(Transport("send failed")))
    else
      Stepped(w.(sent := w.sent + [pdu], faults := later), Success(()))
  }

  /** Input that is left, and what was received from its front. */
  datatype Received = Received(rest: Incoming, pdu: Result<seq<byte>>)

  /** Cuts one PDU off a byte stream by its fragment length; a short stream is drained. */
  function FrameFrom(stream: seq<byte>): (r: Received)
    ensures r.rest.Pipe? && |r.rest.stream| <= |stream|
    ensures r.pdu.Success? ==> stream == r.pdu.value + r.rest.stream && r.pdu.value != []
  {
    var dry := Received(Pipe([]), Failure(Transport("pipe has no queued bytes")));
    if |stream| < COMMON_HEADER_LEN then
      dry
    else
      match DecodeHeader(stream[..COMMON_HEADER_LEN])
      case Failure(e) => Received(Pipe(stream[COMMON_HEADER_LEN..]), Failure(e))
      case Success(header) =>
        if header.fragLength < COMMON_HEADER_LEN then
          Received(Pipe(stream[COMMON_HEADER_LEN..]),
                   Failure(InvalidPdu("fragment length is smaller than common header")))
        else if |stream| < header.fragLength then
          dry
        else
          Received(Pipe(stream[header.fragLength..]), Success(stream[..header.fragLength]))
  }

  function Receive(incoming: Incoming): (r: Received)
    ensures r.rest.Pipe? == incoming.Pipe?
    ensures r.pdu.Success? ==> r.rest.Size() < incoming.Size()
  {
    match incoming
    case Queue(pdus) =>
      if pdus == [] then
        Received(incoming, Failure(Transport("no queued PDU available")))
      else
        Received(Queue(pdus[1..]), Success(pdus[0]))
    case Pipe(stream) => FrameFrom(stream)
  }
}
