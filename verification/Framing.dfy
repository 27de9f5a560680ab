/** Cutting PDUs out of a byte stream: when it works, when it runs dry, when it loses the place. */
module Framing {
  import opened Bytes
  import opened Errors
  import opened Pdu
  import opened PduProofs
  import opened Wires

  /** A byte string that carries a readable header with its own length. */
  predicate Framable(pdu: seq<byte>) {
    DecodeHeader(pdu).Success? && DecodeHeader(pdu).value.fragLength == |pdu|
  }

  predicate AllFramable(pdus: seq<seq<byte>>) {
    forall i :: 0 <= i < |pdus| ==> Framable(pdus[i])
  }

  /** Input that ends before the PDU it began: the header, or what the header announces, is cut off. */
  predicate Incomplete(stream: seq<byte>) {
    || |stream| < COMMON_HEADER_LEN
    || (DecodeHeader(stream).Success? && COMMON_HEADER_LEN <= DecodeHeader(stream).value.fragLength
        && |stream| < DecodeHeader(stream).value.fragLength)
  }

  /** Sixteen bytes that the framer takes off the stream and then refuses. */
  predicate RefusedHead(head: seq<byte>) {
    |head| == COMMON_HEADER_LEN
    && (DecodeHeader(head).Failure? || DecodeHeader(head).value.fragLength < COMMON_HEADER_LEN)
  }

  /** A failed receive that is not just a lack of input. */
  predicate FramingError(r: Result<seq<byte>>) {
    r.Failure? && !r.error.Transport?
  }

  // ---------------------------------------------------------------- one PDU

  /** Every encoding of a packet with a readable header can be framed, trailer or not. */
  lemma EncodedIsFramable(p: PduPacket)
    requires PacketBytes(p).Success? && ReadableHeader(p.header)
    ensures Framable(PacketBytes(p).value)
  {
    hide HeaderBytes, DecodeHeader;
    var q := Normalised(p);
    LayoutHeader(q, Zeros(PadLength(p)));
    HeaderRoundTrip(q.header, q.body + Zeros(PadLength(p)) + OptionalTrailer(q.trailer) + q.authValue);
  }

  /** Whatever the packet decoder accepts can be framed. */
  lemma DecodableIsFramable(pdu: seq<byte>)
    requires DecodePacket(pdu).Success?
    ensures Framable(pdu)
  {
    hide DecodeHeader, DecodeTrailer;
  }

  lemma HeadDecodes(stream: seq<byte>)
    requires |stream| >= COMMON_HEADER_LEN
    ensures DecodeHeader(stream[..COMMON_HEADER_LEN]) == DecodeHeader(stream)
  {
    HeaderPrefix(stream[..COMMON_HEADER_LEN], stream[COMMON_HEADER_LEN..]);
    assert stream[..COMMON_HEADER_LEN] + stream[COMMON_HEADER_LEN..] == stream;
  }

  /** The framer cuts a framable PDU off whatever follows it. */
  lemma FrameHead(pdu: seq<byte>, rest: seq<byte>)
    requires Framable(pdu)
    ensures FrameFrom(pdu + rest) == Received(Pipe(rest), Success(pdu))
  {
    hide DecodeHeader;
    var stream := pdu + rest;
    HeadDecodes(stream);
    HeaderPrefix(pdu, rest);
    assert stream[..|pdu|] == pdu && stream[|pdu|..] == rest;
  }

  /** The framer runs dry exactly on incomplete input, and then nothing is left. */
  lemma DryIffIncomplete(stream: seq<byte>)
    ensures Incomplete(stream) <==> FrameFrom(stream).pdu.Failure? && FrameFrom(stream).pdu.error.Transport?
    ensures Incomplete(stream) ==> FrameFrom(stream).rest == Pipe([])
  {
    if |stream| >= COMMON_HEADER_LEN {
      HeadDecodes(stream);
      HeaderErrors(stream);
    }
    hide DecodeHeader;
  }

  lemma HeaderErrors(bytes: seq<byte>)
    ensures DecodeHeader(bytes).Failure? ==> !DecodeHeader(bytes).error.Transport?
  {
  }

  /** A refused head is lost, and the framer goes on with the byte after it. */
  lemma RefusedHeadIsSkipped(head: seq<byte>, rest: seq<byte>)
    requires RefusedHead(head)
    ensures FrameFrom(head + rest).rest == Pipe(rest) && FramingError(FrameFrom(head + rest).pdu)
  {
    hide DecodeHeader;
    assert (head + rest)[..COMMON_HEADER_LEN] == head && (head + rest)[COMMON_HEADER_LEN..] == rest;
    HeaderErrors(head);
  }

  /** A PDU cut short is incomplete input. */
  lemma StrictPrefixIsIncomplete(pdu: seq<byte>, part: seq<byte>)
    requires Framable(pdu) && part < pdu
    ensures Incomplete(part)
  {
    hide DecodeHeader;
    if |part| >= COMMON_HEADER_LEN {
      HeaderPrefix(part, pdu[|part|..]);
      assert part + pdu[|part|..] == pdu;
    }
  }

  /** A PDU cut short behind its header is completed with whatever bytes come next. */
  lemma TornPduCompletes(pdu: seq<byte>, n: nat, rest: seq<byte>)
    requires Framable(pdu) && COMMON_HEADER_LEN <= n <= |pdu| && |rest| >= |pdu| - n
    ensures FrameFrom(pdu[..n] + rest) ==
            Received(Pipe(rest[|pdu| - n..]), Success(pdu[..n] + rest[..|pdu| - n]))
  {
    hide DecodeHeader, FrameFrom;
    var forged := pdu[..n] + rest[..|pdu| - n];
    assert pdu == pdu[..n] + pdu[n..];
    HeaderPrefix(pdu[..n], pdu[n..]);
    HeaderPrefix(pdu[..n], rest[..|pdu| - n]);
    FrameHead(forged, rest[|pdu| - n..]);
    assert pdu[..n] + rest == forged + rest[|pdu| - n..];
  }

  /** Whatever the framer returns passes both length checks of the packet decoder. */
  lemma FramedPassesLengthChecks(stream: seq<byte>)
    requires FrameFrom(stream).pdu.Success?
    ensures var pdu := FrameFrom(stream).pdu.value;
            && Framable(pdu) && |pdu| >= COMMON_HEADER_LEN
            && DecodePacket(pdu) != Failure(InvalidPdu("fragment length is smaller than common header"))
            && DecodePacket(pdu) != Failure(InvalidPdu("fragment length does not match input length"))
  {
    hide DecodeHeader, DecodeTrailer;
    var pdu := FrameFrom(stream).pdu.value;
    var head := stream[..COMMON_HEADER_LEN];
    assert pdu == head + pdu[COMMON_HEADER_LEN..];
    HeaderPrefix(head, pdu[COMMON_HEADER_LEN..]);
    TrailerErrors(pdu);
  }

  /** The messages of trailer errors are not those of the length checks. */
  lemma TrailerErrors(pdu: seq<byte>)
    ensures forall a, b :: 0 <= a <= b <= |pdu| ==>
              && DecodeTrailer(pdu[a..b]) != Failure(InvalidPdu("fragment length is smaller than common header"))
              && DecodeTrailer(pdu[a..b]) != Failure(InvalidPdu("fragment length does not match input length"))
  {
  }

  // ---------------------------------------------------------------- PDUs taken from either input

  /** `before` is these PDUs followed by `after`: queued one by one, or back to back on the pipe. */
  ghost predicate Took(before: Incoming, taken: seq<seq<byte>>, after: Incoming) {
    match before
    case Queue(pdus) => after.Queue? && pdus == taken + after.pdus
    case Pipe(stream) => after.Pipe? && stream == Flatten(taken) + after.stream
  }

  lemma TookNothing(before: Incoming, after: Incoming)
    ensures Took(before, [], after) <==> before == after
  {
    match before
    case Queue(_) =>
      assert after.Queue? ==> [] + after.pdus == after.pdus;
    case Pipe(_) =>
      assert after.Pipe? ==> Flatten([]) + after.stream == after.stream;
  }

  /** Receiving gives the first of the PDUs and leaves the others. */
  lemma TookFirst(before: Incoming, taken: seq<seq<byte>>, after: Incoming)
    requires taken != [] && Framable(taken[0]) && Took(before, taken, after)
    ensures Receive(before).pdu == Success(taken[0])
    ensures Took(Receive(before).rest, taken[1..], after)
  {
    hide Framable, FrameFrom;
    match before
    case Queue(pdus) =>
      assert pdus[1..] == taken[1..] + after.pdus;
    case Pipe(stream) =>
      var rest := Flatten(taken[1..]) + after.stream;
      assert stream == taken[0] + rest;
      FrameHead(taken[0], rest);
  }

  /** What is received comes first among the PDUs taken. */
  lemma TookMore(before: Incoming, taken: seq<seq<byte>>, after: Incoming)
    requires Receive(before).pdu.Success? && Took(Receive(before).rest, taken, after)
    ensures Took(before, [Receive(before).pdu.value] + taken, after)
  {
    var pdu := Receive(before).pdu.value;
    hide FrameFrom;
    assert ([pdu] + taken)[1..] == taken;
    match before
    case Queue(pdus) =>
      assert pdus == [pdu] + (taken + after.pdus);
    case Pipe(stream) =>
      assert stream == pdu + (Flatten(taken) + after.stream);
  }

  /** Taking two lists of PDUs is taking the one and then the other. */
  lemma TookBoth(before: Incoming, first: seq<seq<byte>>, second: seq<seq<byte>>, after: Incoming)
    returns (between: Incoming)
    requires Took(before, first + second, after)
    ensures Took(before, first, between) && Took(between, second, after)
  {
    match before
    case Queue(pdus) =>
      between := Queue(second + after.pdus);
      assert pdus == first + (second + after.pdus);
    case Pipe(stream) =>
      between := Pipe(Flatten(second) + after.stream);
      FlattenAppend(first, second);
      assert stream == Flatten(first) + (Flatten(second) + after.stream);
  }

  // ---------------------------------------------------------------- whole streams

  /** The results of `n` successive receives. */
  datatype Drained = Drained(pdus: seq<Result<seq<byte>>>, rest: Incoming)

  function Drain(incoming: Incoming, n: nat): (d: Drained)
    ensures |d.pdus| == n
    decreases n
  {
    if n == 0 then Drained([], incoming)
    else
      var r := Receive(incoming);
      var more := Drain(r.rest, n - 1);
      Drained([r.pdu] + more.pdus, more.rest)
  }

  /** Receiving from the concatenation of framable PDUs gives those PDUs, in order, and the rest. */
  lemma {:induction false} StreamYieldsPdus(pdus: seq<seq<byte>>, tail: seq<byte>)
    requires AllFramable(pdus)
    ensures Drain(Pipe(Flatten(pdus) + tail), |pdus|) ==
            Drained(seq(|pdus|, i requires 0 <= i < |pdus| => Success(pdus[i])), Pipe(tail))
    decreases |pdus|
  {
    hide Framable, FrameFrom;
    if pdus == [] {
      assert Flatten(pdus) + tail == tail;
    } else {
      var rest := Flatten(pdus[1..]) + tail;
      assert Flatten(pdus) + tail == pdus[0] + rest;
      FrameHead(pdus[0], rest);
      StreamYieldsPdus(pdus[1..], tail);
    }
  }

  /** No receive, however many are made, ends in a framing error. */
  ghost predicate Synchronised(stream: seq<byte>) {
    forall n: nat, i: nat :: i < n ==> !FramingError(Drain(Pipe(stream), n).pdus[i])
  }

  /** The stream is a list of framable PDUs, the last of which may be cut short. */
  ghost predicate WellFramed(stream: seq<byte>) {
    exists pdus, tail :: AllFramable(pdus) && Incomplete(tail) && stream == Flatten(pdus) + tail
  }

  lemma {:induction false} WellFramedNeverErrs(pdus: seq<seq<byte>>, tail: seq<byte>, n: nat, i: nat)
    requires AllFramable(pdus) && Incomplete(tail) && i < n
    ensures !FramingError(Drain(Pipe(Flatten(pdus) + tail), n).pdus[i])
    decreases n
  {
    hide Framable, FrameFrom, Incomplete;
    if pdus == [] {
      assert Flatten(pdus) + tail == tail;
      DryIffIncomplete(tail);
      NothingIsIncomplete();
      if i > 0 {
        WellFramedNeverErrs([], [], n - 1, i - 1);
        assert Flatten([]) + [] == [];
      }
    } else {
      var rest := Flatten(pdus[1..]) + tail;
      assert Flatten(pdus) + tail == pdus[0] + rest;
      FrameHead(pdus[0], rest);
      if i > 0 {
        WellFramedNeverErrs(pdus[1..], tail, n - 1, i - 1);
      }
    }
  }

  lemma NothingIsIncomplete()
    ensures Incomplete([])
  {
  }

  /** Every stream is framable PDUs followed by something the framer cannot cut. */
  lemma {:induction false} CutAll(stream: seq<byte>) returns (pdus: seq<seq<byte>>, end: seq<byte>)
    ensures AllFramable(pdus) && stream == Flatten(pdus) + end && FrameFrom(end).pdu.Failure?
    decreases |stream|
  {
    hide Framable, FrameFrom;
    var r := FrameFrom(stream);
    if r.pdu.Failure? {
      pdus, end := [], stream;
      assert Flatten([]) + stream == stream;
    } else {
      var more;
      more, end := CutAll(r.rest.stream);
      FramedPassesLengthChecks(stream);
      pdus := [r.pdu.value] + more;
      assert pdus[1..] == more;
      assert r.pdu.value + (Flatten(more) + end) == r.pdu.value + Flatten(more) + end;
    }
  }

  lemma {:induction false} DrainOneMore(incoming: Incoming, n: nat)
    ensures Drain(incoming, n + 1).pdus[n] == Receive(Drain(incoming, n).rest).pdu
    decreases n
  {
    hide Receive;
    if n > 0 {
      DrainOneMore(Receive(incoming).rest, n - 1);
    }
  }

  /** After framable PDUs the next receive is what the framer makes of the rest. */
  lemma ReceiveAfter(pdus: seq<seq<byte>>, end: seq<byte>)
    requires AllFramable(pdus)
    ensures Drain(Pipe(Flatten(pdus) + end), |pdus| + 1).pdus[|pdus|] == FrameFrom(end).pdu
  {
    hide AllFramable, FrameFrom, Drain;
    StreamYieldsPdus(pdus, end);
    DrainOneMore(Pipe(Flatten(pdus) + end), |pdus|);
  }

  /** What cannot be cut is incomplete, or begins with a refused head. */
  lemma CannotCut(end: seq<byte>)
    requires FrameFrom(end).pdu.Failure?
    ensures Incomplete(end) || (|end| >= COMMON_HEADER_LEN && RefusedHead(end[..COMMON_HEADER_LEN]))
  {
    if |end| >= COMMON_HEADER_LEN {
      HeadDecodes(end);
    }
    hide DecodeHeader;
  }

  /**
   * Receiving never loses its place in a stream if and only if the stream is a list of framable
   * PDUs followed by incomplete input.
   */
  lemma SynchronisedIffWellFramed(stream: seq<byte>)
    ensures Synchronised(stream) <==> WellFramed(stream)
  {
    hide Drain, AllFramable, Incomplete, FrameFrom;
    if Synchronised(stream) {
      var pdus, end := CutAll(stream);
      ReceiveAfter(pdus, end);
      DryIffIncomplete(end);
    }
    if WellFramed(stream) {
      var pdus, tail :| AllFramable(pdus) && Incomplete(tail) && stream == Flatten(pdus) + tail;
      forall n: nat, i: nat | i < n ensures !FramingError(Drain(Pipe(stream), n).pdus[i]) {
        WellFramedNeverErrs(pdus, tail, n, i);
      }
    }
  }

  /** Otherwise it loses its place at a head that it refuses, after PDUs it has cut. */
  lemma LosesPlaceAtRefusedHead(stream: seq<byte>)
    ensures !WellFramed(stream) <==>
            exists pdus, head, rest :: AllFramable(pdus) && RefusedHead(head) && stream == Flatten(pdus) + (head + rest)
  {
    hide Drain, AllFramable, Incomplete, FrameFrom, RefusedHead;
    if !WellFramed(stream) {
      var pdus, end := CutAll(stream);
      CannotCut(end);
      assert end == end[..COMMON_HEADER_LEN] + end[COMMON_HEADER_LEN..];
    }
    if exists pdus, head, rest :: AllFramable(pdus) && RefusedHead(head) && stream == Flatten(pdus) + (head + rest) {
      var pdus, head, rest :| AllFramable(pdus) && RefusedHead(head) && stream == Flatten(pdus) + (head + rest);
      ReceiveAfter(pdus, head + rest);
      RefusedHeadIsSkipped(head, rest);
      SynchronisedIffWellFramed(stream);
    }
  }
}
