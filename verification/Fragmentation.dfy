/** What a request turns into on the wire: sizes, flags, counts, and partial sends. */
module Fragmentation {
  import opened Bytes
  import opened WireCodes
  import opened Errors
  import opened Pdu
  import opened PduProofs
  import opened Wires
  import opened Calls

  /** The largest chunk a request or response fragment can hold. */
  const MAX_CHUNK: nat := 0xFFFF - CALL_OVERHEAD

  // ---------------------------------------------------------------- chunks

  lemma {:induction false} ChunksFlatten(stub: seq<byte>, size: nat)
    requires size > 0
    ensures Flatten(Chunks(stub, size)) == stub
    decreases |stub|
  {
    if |stub| <= size {
      assert Flatten([stub]) == stub + Flatten([stub][1..]);
    } else {
      var rest := Chunks(stub[size..], size);
      ChunksFlatten(stub[size..], size);
      assert ([stub[..size]] + rest)[1..] == rest;
      assert stub == stub[..size] + stub[size..];
    }
  }

  /** Only the last chunk can be short, and only an empty stub has an empty chunk. */
  lemma {:induction false} ChunkSizes(stub: seq<byte>, size: nat, i: nat)
    requires size > 0 && i < |Chunks(stub, size)|
    ensures |Chunks(stub, size)[i]| <= size
    ensures i < |Chunks(stub, size)| - 1 ==> |Chunks(stub, size)[i]| == size
    ensures Chunks(stub, size)[i] == [] ==> stub == []
    decreases |stub|
  {
    if |stub| > size && i > 0 {
      ChunkSizes(stub[size..], size, i - 1);
    }
  }

  /** The i-th slice of `size` bytes; the last one can be shorter, and behind it there is nothing. */
  function Slice(stub: seq<byte>, size: nat, i: nat): seq<byte> {
    Window(stub, i * size, size)
  }

  /** Up to `size` bytes from position `at` on. */
  function Window(bytes: seq<byte>, at: nat, size: nat): seq<byte> {
    if at + size <= |bytes| then bytes[at..at + size]
    else if at <= |bytes| then bytes[at..]
    else []
  }

  lemma SliceShift(stub: seq<byte>, size: nat, i: nat)
    requires i > 0 && size <= |stub|
    ensures Slice(stub[size..], size, i - 1) == Slice(stub, size, i)
  {
    hide Window;
    assert i * size == (i - 1) * size + size;
    WindowShift(stub, (i - 1) * size, size);
  }

  lemma WindowShift(bytes: seq<byte>, at: nat, size: nat)
    requires size <= |bytes|
    ensures Window(bytes[size..], at, size) == Window(bytes, at + size, size)
  {
  }

  lemma {:induction false} ChunkAt(stub: seq<byte>, size: nat, i: nat)
    requires size > 0 && i < |Chunks(stub, size)|
    ensures Chunks(stub, size)[i] == Slice(stub, size, i)
    decreases |stub|
  {
    hide Slice;
    if i > 0 {
      ChunkAt(stub[size..], size, i - 1);
      SliceShift(stub, size, i);
    } else {
      FirstSlice(stub, size);
    }
  }

  lemma FirstSlice(stub: seq<byte>, size: nat)
    ensures Slice(stub, size, 0) == if size <= |stub| then stub[..size] else stub
  {
    assert 0 * size == 0;
  }

  lemma DivStep(n: nat, size: nat)
    requires size > 0
    ensures (n + size) / size == n / size + 1
  {
    var q, r := n / size, n % size;
    assert n == q * size + r;
    assert n + size == (q + 1) * size + r;
    DivUnique(n + size, size, q + 1, r);
  }

  lemma MultipleReaches(d: int, size: int)
    requires size > 0
    ensures d >= 1 ==> d * size >= size
    ensures d <= -1 ==> d * size <= -size
  {
    assert d >= 1 ==> (d - 1) * size >= 0;
    assert d <= -1 ==> (-1 - d) * size >= 0;
  }

  lemma DivUnique(n: nat, size: nat, q: nat, r: nat)
    requires size > 0 && n == q * size + r && r < size
    ensures n / size == q
  {
    var d := n / size - q;
    assert n == n / size * size + n % size;
    assert d * size == r - n % size;
    MultipleReaches(d, size);
  }

  /** The number of chunks is max(1, ceil(length / size)). */
  lemma {:induction false} ChunkCount(stub: seq<byte>, size: nat)
    requires size > 0
    ensures |Chunks(stub, size)| == if stub == [] then 1 else (|stub| + size - 1) / size
    decreases |stub|
  {
    if |stub| > size {
      ChunkCount(stub[size..], size);
      DivStep(|stub| - 1, size);
    } else if stub != [] {
      DivUnique(|stub| + size - 1, size, 1, |stub| - 1);
    }
  }

  // ---------------------------------------------------------------- fragments

  lemma {:induction false} FragmentAt(t: Target, hint: u32, first: bool, chunks: seq<seq<byte>>, i: nat)
    requires i < |chunks|
    ensures RequestFragments(t, hint, first, chunks)[i] ==
            RequestFragment(t, hint, first && i == 0, i == |chunks| - 1, chunks[i])
  {
    hide RequestFragment;
    if i > 0 {
      FragmentAt(t, hint, false, chunks[1..], i - 1);
    }
  }

  /** A request fragment always encodes, to 24 bytes more than its chunk, and decodes to itself. */
  lemma FragmentEncodes(t: Target, hint: u32, first: bool, last: bool, chunk: seq<byte>)
    requires |chunk| <= MAX_CHUNK
    ensures var p := RequestFragment(t, hint, first, last, chunk);
            && PacketBytes(p).Success?
            && |PacketBytes(p).value| == CALL_OVERHEAD + |chunk|
            && DecodePacket(PacketBytes(p).value) == Success(p)
            && p.header.fragLength == CALL_OVERHEAD + |chunk|
  {
    hide PacketBytes, DecodePacket, RequestBody;
    var body := RequestBody(RequestPdu(hint, t.contextId, t.opnum, None, chunk));
    PlainPacketRoundTrip(Request, t.callId, FragmentFlags(first, last), body);
  }

  lemma FlagsReadBack(first: bool, last: bool)
    ensures HasFirst(FragmentFlags(first, last)) == first
    ensures HasLast(FragmentFlags(first, last)) == last
    ensures FragmentFlags(first, last) < PFC_OBJECT_UUID
  {
  }

  /**
   * Fragment plan bounds. Each PDU of a request fits the limit and all but the last fill it; there
   * are max(1, ceil) of them; FIRST is on exactly the first, LAST on exactly the last; encoding
   * never fails and the 16-bit length sum never overflows.
   */
  lemma FragmentPlanBounds(t: Target, maxXmitFrag: u16, stub: seq<byte>)
    requires maxXmitFrag > CALL_OVERHEAD
    ensures var size, plan := maxXmitFrag - CALL_OVERHEAD, FragmentPlan(t, maxXmitFrag, stub);
            && |plan| == (if stub == [] then 1 else (|stub| + size - 1) / size)
            && forall i :: 0 <= i < |plan| ==>
                 && PacketBytes(plan[i]).Success?
                 && |PacketBytes(plan[i]).value| <= maxXmitFrag
                 && (i < |plan| - 1 ==> |PacketBytes(plan[i]).value| == maxXmitFrag)
                 && (HasFirst(plan[i].header.flags) <==> i == 0)
                 && (HasLast(plan[i].header.flags) <==> i == |plan| - 1)
                 && COMMON_HEADER_LEN + |plan[i].body| <= 0xFFFF
                 && plan[i].header.fragLength == |PacketBytes(plan[i]).value|
  {
    hide PacketBytes, Chunks;
    var size, plan := maxXmitFrag - CALL_OVERHEAD, FragmentPlan(t, maxXmitFrag, stub);
    var chunks, hint := Chunks(stub, size), |stub| % 0x1_0000_0000;
    ChunkCount(stub, size);
    forall i | 0 <= i < |plan|
      ensures && PacketBytes(plan[i]).Success?
              && |PacketBytes(plan[i]).value| <= maxXmitFrag
              && (i < |plan| - 1 ==> |PacketBytes(plan[i]).value| == maxXmitFrag)
              && (HasFirst(plan[i].header.flags) <==> i == 0)
              && (HasLast(plan[i].header.flags) <==> i == |plan| - 1)
              && COMMON_HEADER_LEN + |plan[i].body| <= 0xFFFF
              && plan[i].header.fragLength == |PacketBytes(plan[i]).value|
    {
      FragmentAt(t, hint, true, chunks, i);
      ChunkSizes(stub, size, i);
      FragmentEncodes(t, hint, i == 0, i == |chunks| - 1, chunks[i]);
      FlagsReadBack(i == 0, i == |chunks| - 1);
    }
  }

  /**
   * What a server reads in the i-th PDU of a request: the i-th slice of the stub, the length of the
   * whole stub as a 32-bit number, and FIRST and LAST in the right places.
   */
  lemma PlanReads(t: Target, maxXmitFrag: u16, stub: seq<byte>, i: nat)
    requires maxXmitFrag > 24 && i < |FragmentPlan(t, maxXmitFrag, stub)|
    ensures var plan, size := FragmentPlan(t, maxXmitFrag, stub), maxXmitFrag - 24;
            var p := DecodePacket(Encoding(plan[i]));
            && p == Success(plan[i])
            && p.value.header.ptype == Request && p.value.header.callId == t.callId && p.value.trailer == None
            && p.value.header.flags == (if i == 0 then 1 else 0) + (if i == |plan| - 1 then 2 else 0)
            && DecodeRequest(p.value.body, false) ==
               Success(RequestPdu(|stub| % 0x1_0000_0000, t.contextId, t.opnum, None, Slice(stub, size, i)))
  {
    hide Slice;
    hide PacketBytes, DecodePacket, Chunks, RequestFragments, Encoding;
    var size, hint := maxXmitFrag - CALL_OVERHEAD, |stub| % 0x1_0000_0000;
    var chunks := Chunks(stub, size);
    FragmentAt(t, hint, true, chunks, i);
    ChunkSizes(stub, size, i);
    ChunkAt(stub, size, i);
    FragmentReads(t, hint, i == 0, i == |chunks| - 1, chunks[i]);
  }

  lemma FragmentReads(t: Target, hint: u32, first: bool, last: bool, chunk: seq<byte>)
    requires |chunk| <= MAX_CHUNK
    ensures var p := RequestFragment(t, hint, first, last, chunk);
            && DecodePacket(Encoding(p)) == Success(p)
            && p.header.ptype == Request && p.header.callId == t.callId && p.trailer == None
            && p.header.flags == (if first then 1 else 0) + (if last then 2 else 0)
            && DecodeRequest(p.body, false) == Success(RequestPdu(hint, t.contextId, t.opnum, None, chunk))
  {
    hide PacketBytes, DecodePacket, DecodeRequest, RequestBody;
    FragmentEncodes(t, hint, first, last, chunk);
    RequestRoundTrip(RequestPdu(hint, t.contextId, t.opnum, None, chunk));
  }

  // ---------------------------------------------------------------- sending

  predicate AllEncode(packets: seq<PduPacket>) {
    forall i :: 0 <= i < |packets| ==> PacketBytes(packets[i]).Success?
  }

  /** The bytes of a packet that encodes. */
  function Encoding(p: PduPacket): seq<byte> {
    match PacketBytes(p)
    case Success(bytes) => bytes
    case Failure(_) => []
  }

  function EncodeAll(packets: seq<PduPacket>): (pdus: seq<seq<byte>>)
    ensures |pdus| == |packets|
    ensures forall i :: 0 <= i < |packets| ==> pdus[i] == Encoding(packets[i])
  {
    seq(|packets|, i requires 0 <= i < |packets| => Encoding(packets[i]))
  }

  lemma SendPacketsStep(w: Wire, packets: seq<PduPacket>)
    requires packets != [] && PacketBytes(packets[0]).Success?
    ensures var s := SendOn(w, Encoding(packets[0]));
            SendPackets(w, packets) == if s.result.Failure? then s else SendPackets(s.wire, packets[1..])
  {
  }

  lemma ConsPrefix(before: seq<seq<byte>>, x: seq<byte>, a: seq<seq<byte>>, b: seq<seq<byte>>)
    requires a <= b
    ensures before + [x] + a == before + ([x] + a)
    ensures [x] + a <= [x] + b
    ensures [x] + a == [x] + b <==> a == b
  {
    assert ([x] + a)[1..] == a && ([x] + b)[1..] == b;
  }

  lemma SendOnLog(w: Wire, pdu: seq<byte>)
    ensures SendOn(w, pdu).wire.sent == if SendOn(w, pdu).result.Success? then w.sent + [pdu] else w.sent
  {
  }

  lemma EncodeAllCons(packets: seq<PduPacket>)
    requires packets != []
    ensures EncodeAll(packets) == [Encoding(packets[0])] + EncodeAll(packets[1..])
  {
    hide Encoding;
  }

  /** Sending packets adds to the log a prefix of their encodings, the whole iff sending succeeds. */
  lemma {:induction false} SendPacketsLog(w: Wire, packets: seq<PduPacket>) returns (log: seq<seq<byte>>)
    requires AllEncode(packets)
    ensures SendPackets(w, packets).wire.sent == w.sent + log
    ensures log <= EncodeAll(packets)
    ensures SendPackets(w, packets).result.Success? <==> log == EncodeAll(packets)
    decreases |packets|
  {
    hide PacketBytes, Encoding, EncodeAll, SendOn;
    log := [];
    if packets != [] {
      var pdu := Encoding(packets[0]);
      SendPacketsStep(w, packets);
      SendOnLog(w, pdu);
      EncodeAllCons(packets);
      var s := SendOn(w, pdu);
      if s.result.Success? {
        var more := SendPacketsLog(s.wire, packets[1..]);
        ConsPrefix(w.sent, pdu, more, EncodeAll(packets[1..]));
        log := [pdu] + more;
      }
    }
  }

  /** The number of sends out of `count` that succeed before one fails. */
  function Successes(faults: seq<bool>, count: nat): (n: nat)
    ensures n <= count
    ensures forall i :: 0 <= i < n && i < |faults| ==> !faults[i]
    ensures n < count ==> n < |faults| && faults[n]
  {
    if count == 0 || (faults != [] && faults[0]) then 0
    else 1 + Successes(if faults == [] then [] else faults[1..], count - 1)
  }

  /** A fault schedule behind its first `n` entries. */
  function Later(faults: seq<bool>, n: nat): seq<bool> {
    if n < |faults| then faults[n..] else []
  }

  lemma LaterStep(faults: seq<bool>, n: nat)
    ensures Later(if faults == [] then [] else faults[1..], n) == Later(faults, n + 1)
    ensures Later(faults, 0) == faults
  {
  }

  /** The state after `n` of these sends succeeded and, if there is one more, it failed. */
  function SentUpTo(w: Wire, pdus: seq<seq<byte>>, n: nat): Stepped<()>
    requires n <= |pdus|
  {
    if n < |pdus|
    then Stepped(Wire(w.incoming, w.sent + pdus[..n], Later(w.faults, n + 1)), Failure(Transport("send failed")))
    else Stepped(Wire(w.incoming, w.sent + pdus, Later(w.faults, n)), Success(()))
  }

  lemma SentUpToStep(w: Wire, pdus: seq<seq<byte>>, n: nat)
    requires pdus != [] && n <= |pdus| - 1 && SendOn(w, pdus[0]).result.Success?
    ensures SentUpTo(SendOn(w, pdus[0]).wire, pdus[1..], n) == SentUpTo(w, pdus, n + 1)
  {
    LaterStep(w.faults, n);
    LaterStep(w.faults, n + 1);
    assert w.sent + [pdus[0]] + pdus[1..] == w.sent + pdus;
    assert w.sent + [pdus[0]] + pdus[1..][..n] == w.sent + pdus[..n + 1];
  }

  lemma SendOnFault(w: Wire, pdu: seq<byte>)
    ensures SendOn(w, pdu).result.Success? <==> w.faults == [] || !w.faults[0]
    ensures SendOn(w, pdu).wire.faults == if w.faults == [] then [] else w.faults[1..]
    ensures SendOn(w, pdu).result.Failure? ==>
              SendOn(w, pdu) == Stepped(Wire(w.incoming, w.sent, w.faults[1..]), Failure(Transport("send failed")))
  {
  }

  /** Sending goes on to the first scheduled fault, uses up the schedule that far, and fails there. */
  lemma {:induction false} ExactSend(w: Wire, packets: seq<PduPacket>)
    requires AllEncode(packets)
    ensures SendPackets(w, packets) == SentUpTo(w, EncodeAll(packets), Successes(w.faults, |packets|))
    decreases |packets|
  {
    hide PacketBytes, Encoding, EncodeAll, SendPackets, SendOn, SentUpTo;
    if packets == [] {
      SendNothing(w);
      NothingSent(w);
    } else {
      var pdus := EncodeAll(packets);
      SendPacketsStep(w, packets);
      SendOnFault(w, pdus[0]);
      EncodeAllCons(packets);
      assert pdus[1..] == EncodeAll(packets[1..]);
      var s := SendOn(w, pdus[0]);
      if s.result.Success? {
        ExactSend(s.wire, packets[1..]);
        SentUpToStep(w, pdus, Successes(s.wire.faults, |packets| - 1));
      } else {
        FirstFails(w, pdus);
      }
    }
  }

  lemma NothingSent(w: Wire)
    ensures SentUpTo(w, [], 0) == Stepped(w, Success(()))
  {
    LaterStep(w.faults, 0);
    assert w.sent + [] == w.sent;
  }

  lemma FirstFails(w: Wire, pdus: seq<seq<byte>>)
    requires pdus != [] && w.faults != []
    ensures SentUpTo(w, pdus, 0) == Stepped(Wire(w.incoming, w.sent, w.faults[1..]), Failure(Transport("send failed")))
  {
    LaterStep(w.faults, 0);
    assert w.sent + pdus[..0] == w.sent;
  }

  lemma SendNothing(w: Wire)
    ensures SendPackets(w, []) == Stepped(w, Success(()))
  {
  }

  /** With no fault ahead, everything is sent and no fault is ahead afterwards. */
  lemma {:induction false} FaultFreeSend(w: Wire, packets: seq<PduPacket>)
    requires AllEncode(packets) && NoFaults(w)
    ensures SendPackets(w, packets).result == Success(()) && NoFaults(SendPackets(w, packets).wire)
    decreases |packets|
  {
    hide PacketBytes;
    if packets != [] {
      FaultFreeSend(SendOn(w, PacketBytes(packets[0]).value).wire, packets[1..]);
    }
  }

  lemma PlanEncodes(t: Target, maxXmitFrag: u16, stub: seq<byte>)
    requires maxXmitFrag > CALL_OVERHEAD
    ensures AllEncode(FragmentPlan(t, maxXmitFrag, stub))
  {
    hide PacketBytes, FragmentPlan;
    FragmentPlanBounds(t, maxXmitFrag, stub);
  }

  /** The packets a request puts on the wire: none if the limit or the level rules it out. */
  function Planned(s: ClientState, callId: u32, opnum: u16, stub: seq<byte>): (packets: seq<PduPacket>) {
    if s.maxXmitFrag > CALL_OVERHEAD && Supported(s.level)
    then FragmentPlan(Target(callId, s.contextId, opnum), s.maxXmitFrag, stub)
    else []
  }

  /**
   * What a call sends is a prefix of its fragment list: the whole list exactly when sending
   * succeeds, nothing when the limit is too small or the level unsupported.
   */
  lemma SentIsPlanPrefix(s: ClientState, opnum: u16, stub: seq<byte>)
    returns (log: seq<seq<byte>>)
    ensures var plan := Planned(s, s.callId, opnum, stub);
            && AllEncode(plan)
            && log <= EncodeAll(plan)
            && Call(s, opnum, stub).state.wire.sent == s.wire.sent + log
            && (SendRequest(s, s.callId, opnum, stub).result.Success? <==> plan != [] && log == EncodeAll(plan))
  {
    hide PacketBytes, FragmentPlan, Reassemble;
    var plan := Planned(s, s.callId, opnum, stub);
    if s.maxXmitFrag > CALL_OVERHEAD && Supported(s.level) {
      var t := Target(s.callId, s.contextId, opnum);
      PlanEncodes(t, s.maxXmitFrag, stub);
      log := SendPacketsLog(s.wire, plan);
      PlanNonEmpty(t, s.maxXmitFrag, stub);
    } else {
      log := [];
    }
  }

  lemma PlanNonEmpty(t: Target, maxXmitFrag: u16, stub: seq<byte>)
    requires maxXmitFrag > CALL_OVERHEAD
    ensures FragmentPlan(t, maxXmitFrag, stub) != []
  {
  }
}
