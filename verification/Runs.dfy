/** Whole runs of calls on one client: identifiers, and what the server can read off the log. */
module Runs {
  import opened Bytes
  import opened WireCodes
  import opened Errors
  import opened Pdu
  import opened PduProofs
  import opened Calls
  import opened Fragmentation

  datatype Invocation = Invocation(opnum: u16, stub: seq<byte>)

  /** `states` and `results` are what a client goes through when it makes these calls in order. */
  ghost predicate IsRun(states: seq<ClientState>, calls: seq<Invocation>, results: seq<Result<seq<byte>>>) {
    && |states| == |calls| + 1
    && |results| == |calls|
    && forall i :: 0 <= i < |calls| ==> IsCall(states[i], calls[i], states[i + 1], results[i])
  }

  ghost predicate IsCall(before: ClientState, call: Invocation, after: ClientState, result: Result<seq<byte>>) {
    Call(before, call.opnum, call.stub) == Called(after, result)
  }

  lemma RunShape(states: seq<ClientState>, calls: seq<Invocation>, results: seq<Result<seq<byte>>>)
    requires IsRun(states, calls, results)
    ensures |states| == |calls| + 1 && |results| == |calls|
  {
  }

  /** A run is a shorter run followed by one call. */
  lemma RunPrefix(states: seq<ClientState>, calls: seq<Invocation>, results: seq<Result<seq<byte>>>, n: nat)
    requires IsRun(states, calls, results) && n <= |calls|
    ensures IsRun(states[..n + 1], calls[..n], results[..n])
  {
  }

  /** Every client state admits a run of every list of calls. */
  lemma {:induction false} RunExists(s: ClientState, calls: seq<Invocation>)
    returns (states: seq<ClientState>, results: seq<Result<seq<byte>>>)
    ensures IsRun(states, calls, results) && states[0] == s
  {
    hide Call;
    states, results := [s], [];
    if calls != [] {
      var n := |calls| - 1;
      states, results := RunExists(s, calls[..n]);
      var called := Call(states[n], calls[n].opnum, calls[n].stub);
      ghost var before, done := states, results;
      states, results := states + [called.state], results + [called.result];
      forall i | 0 <= i < |calls| ensures IsCall(states[i], calls[i], states[i + 1], results[i]) {
        if i < n {
          assert IsCall(before[i], calls[..n][i], before[i + 1], done[i]);
        }
      }
    }
  }

  lemma {:induction false} RunKeepsConfig(states: seq<ClientState>, calls: seq<Invocation>,
                                          results: seq<Result<seq<byte>>>, k: nat)
    requires IsRun(states, calls, results) && k <= |calls|
    ensures states[k].contextId == states[0].contextId
    ensures states[k].maxXmitFrag == states[0].maxXmitFrag
    ensures states[k].level == states[0].level
  {
    hide SendRequest, Reassemble;
    if k > 0 {
      RunKeepsConfig(states, calls, results, k - 1);
      assert IsCall(states[k - 1], calls[k - 1], states[k], results[k - 1]);
    }
  }

  // ---------------------------------------------------------------- call identifiers

  const ID_PERIOD: nat := 0xFFFF_FFFF

  /** The k-th identifier counted from `start`: it cycles through 1 .. 2^32-1. */
  function IdAfter(start: u32, k: nat): (id: u32)
    requires start >= 1
    ensures id >= 1
  {
    (start - 1 + k) % ID_PERIOD + 1
  }

  lemma NextId(start: u32, k: nat)
    requires start >= 1
    ensures NextCallId(IdAfter(start, k)) == IdAfter(start, k + 1)
    ensures IdAfter(start, 0) == start
  {
    var m := start - 1 + k;
    var q, r := m / ID_PERIOD, m % ID_PERIOD;
    assert m + 1 == q * ID_PERIOD + r + 1;
    assert r == ID_PERIOD - 1 ==> m + 1 == (q + 1) * ID_PERIOD;
  }

  /** Whatever the outcomes, the k-th call of a run uses the k-th identifier; none is ever 0. */
  lemma {:induction false} CallIdSequence(states: seq<ClientState>, calls: seq<Invocation>,
                                          results: seq<Result<seq<byte>>>, k: nat)
    requires IsRun(states, calls, results) && k <= |calls| && states[0].callId >= 1
    ensures states[k].callId == IdAfter(states[0].callId, k) >= 1
  {
    hide SendRequest, Reassemble, NextCallId, IdAfter;
    NextId(states[0].callId, 0);
    if k > 0 {
      NextId(states[0].callId, k - 1);
      CallIdSequence(states, calls, results, k - 1);
      assert IsCall(states[k - 1], calls[k - 1], states[k], results[k - 1]);
    }
  }

  /** Two calls of a run share an identifier exactly when a multiple of 2^32-1 calls lies between. */
  lemma CallIdsDistinct(states: seq<ClientState>, calls: seq<Invocation>,
                        results: seq<Result<seq<byte>>>, i: nat, j: nat)
    requires IsRun(states, calls, results) && i <= j < |calls| && states[0].callId >= 1
    ensures states[i].callId == states[j].callId <==> (j - i) % ID_PERIOD == 0
  {
    hide IsRun;
    CallIdSequence(states, calls, results, i);
    CallIdSequence(states, calls, results, j);
  }

  // ---------------------------------------------------------------- reading the log back

  datatype Message = Message(target: Target, stub: seq<byte>)

  /** A server's view of a request log: finished messages and the one being received. */
  datatype Regrouped = Malformed | Regrouped(complete: seq<Message>, open: Option<Message>)

  /** Takes in one PDU: FIRST opens a message, dropping an unfinished one; LAST finishes it. */
  function RegroupStep(st: Regrouped, pdu: seq<byte>): Regrouped {
    match DecodePacket(pdu)
    case Failure(_) => Malformed
    case Success(p) =>
      if st.Malformed? || p.header.ptype != Request then
        Malformed
      else
        match DecodeRequest(p.body, p.header.flags >= PFC_OBJECT_UUID)
        case Failure(_) => Malformed
        case Success(r) => Absorb(st, Target(p.header.callId, r.contextId, r.opnum), p.header.flags, r.stub)
  }

  function Absorb(st: Regrouped, t: Target, flags: byte, chunk: seq<byte>): Regrouped
    requires st.Regrouped?
  {
    if !HasFirst(flags) && (st.open.None? || st.open.value.target != t) then
      Malformed
    else
      var message := if HasFirst(flags) then Message(t, chunk) else Message(t, st.open.value.stub + chunk);
      if HasLast(flags) then Regrouped(st.complete + [message], None)
      else Regrouped(st.complete, Some(message))
  }

  function Regroup(st: Regrouped, log: seq<seq<byte>>): Regrouped
    decreases |log|
  {
    if log == [] then st else Regroup(RegroupStep(st, log[0]), log[1..])
  }

  lemma {:induction false} RegroupAppend(st: Regrouped, a: seq<seq<byte>>, b: seq<seq<byte>>)
    ensures Regroup(st, a + b) == Regroup(Regroup(st, a), b)
    decreases |a|
  {
    hide RegroupStep;
    if a == [] {
      assert a + b == b;
    } else {
      assert (a + b)[0] == a[0] && (a + b)[1..] == a[1..] + b;
      RegroupAppend(RegroupStep(st, a[0]), a[1..], b);
    }
  }

  /** The codec part of regrouping: a request fragment is absorbed with exactly its own fields. */
  lemma StepOnFragment(st: Regrouped, t: Target, hint: u32, first: bool, last: bool, chunk: seq<byte>)
    requires |chunk| <= MAX_CHUNK && st.Regrouped?
    ensures RegroupStep(st, Encoding(RequestFragment(t, hint, first, last, chunk))) ==
            Absorb(st, t, FragmentFlags(first, last), chunk)
  {
    hide PacketBytes, DecodePacket, RequestBody, DecodeRequest, Absorb;
    FragmentEncodes(t, hint, first, last, chunk);
    RequestRoundTrip(RequestPdu(hint, t.contextId, t.opnum, None, chunk));
    FlagsReadBack(first, last);
  }

  /** A continuation that belongs to no open message is not taken for one. */
  lemma StrayIsMalformed(st: Regrouped, t: Target, hint: u32, last: bool, chunk: seq<byte>)
    requires |chunk| <= MAX_CHUNK && st.Regrouped? && (st.open.None? || st.open.value.target != t)
    ensures RegroupStep(st, Encoding(RequestFragment(t, hint, false, last, chunk))) == Malformed
  {
    hide RegroupStep, Encoding, RequestFragment;
    StepOnFragment(st, t, hint, false, last, chunk);
    FlagsReadBack(false, last);
  }

  /** What an open message holds before the next chunk arrives. */
  function Prior(st: Regrouped, first: bool): seq<byte>
    requires st.Regrouped?
  {
    if first || st.open.None? then [] else st.open.value.stub
  }

  /** The next fragment of a message may come: it opens one, or continues the open one. */
  predicate Expects(st: Regrouped, t: Target, first: bool) {
    st.Regrouped? && (first || (st.open.Some? && st.open.value.target == t))
  }

  lemma ExpectedFragment(st: Regrouped, t: Target, hint: u32, first: bool, last: bool, chunk: seq<byte>)
    requires |chunk| <= MAX_CHUNK && Expects(st, t, first)
    ensures var message := Message(t, Prior(st, first) + chunk);
            RegroupStep(st, Encoding(RequestFragment(t, hint, first, last, chunk))) ==
            if last then Regrouped(st.complete + [message], None) else Regrouped(st.complete, Some(message))
  {
    hide RegroupStep, Encoding, RequestFragment;
    StepOnFragment(st, t, hint, first, last, chunk);
    FlagsReadBack(first, last);
    assert [] + chunk == chunk;
  }

  predicate ChunksFit(chunks: seq<seq<byte>>) {
    forall i :: 0 <= i < |chunks| ==> |chunks[i]| <= MAX_CHUNK
  }

  lemma FragmentsCons(t: Target, hint: u32, first: bool, chunks: seq<seq<byte>>)
    requires chunks != []
    ensures EncodeAll(RequestFragments(t, hint, first, chunks)) ==
            [Encoding(RequestFragment(t, hint, first, |chunks| == 1, chunks[0]))]
            + EncodeAll(RequestFragments(t, hint, false, chunks[1..]))
  {
  }

  /** A server that gets all fragments of a message has the message. */
  lemma {:induction false} RegroupWhole(st: Regrouped, t: Target, hint: u32, first: bool, chunks: seq<seq<byte>>)
    requires chunks != [] && ChunksFit(chunks) && Expects(st, t, first)
    ensures Regroup(st, EncodeAll(RequestFragments(t, hint, first, chunks))) ==
            Regrouped(st.complete + [Message(t, Prior(st, first) + Flatten(chunks))], None)
    decreases |chunks|
  {
    hide RegroupStep, Encoding, RequestFragment, EncodeAll, RequestFragments;
    FragmentsCons(t, hint, first, chunks);
    ExpectedFragment(st, t, hint, first, |chunks| == 1, chunks[0]);
    var log, tail := EncodeAll(RequestFragments(t, hint, first, chunks)), chunks[1..];
    assert log[1..] == EncodeAll(RequestFragments(t, hint, false, tail));
    assert Prior(st, first) + (chunks[0] + Flatten(tail)) == Prior(st, first) + chunks[0] + Flatten(tail);
    if tail == [] {
      RegroupNothing(RegroupStep(st, log[0]));
      assert log[1..] == [] && Flatten(chunks) == chunks[0] + [] == chunks[0];
    } else {
      RegroupWhole(RegroupStep(st, log[0]), t, hint, false, tail);
    }
  }

  /** A server that gets fewer than all fragments has nothing new that is complete. */
  lemma {:induction false} RegroupPart(st: Regrouped, t: Target, hint: u32, first: bool,
                                       chunks: seq<seq<byte>>, log: seq<seq<byte>>)
    requires ChunksFit(chunks) && Expects(st, t, first)
    requires log < EncodeAll(RequestFragments(t, hint, first, chunks))
    ensures Regroup(st, log).Regrouped? && Regroup(st, log).complete == st.complete
    decreases |chunks|
  {
    hide RegroupStep, Encoding, RequestFragment, EncodeAll, RequestFragments;
    if log != [] {
      FragmentsCons(t, hint, first, chunks);
      ExpectedFragment(st, t, hint, first, |chunks| == 1, chunks[0]);
      RegroupPart(RegroupStep(st, log[0]), t, hint, false, chunks[1..], log[1..]);
    }
  }

  // ---------------------------------------------------------------- recovery over whole runs

  /** The message a call tries to deliver. */
  function MessageOf(s: ClientState, call: Invocation): Message {
    Message(Target(s.callId, s.contextId, call.opnum), call.stub)
  }

  predicate SendsAll(s: ClientState, call: Invocation) {
    SendRequest(s, s.callId, call.opnum, call.stub).result.Success?
  }

  /** The messages of those calls of a run whose request went out completely, in order. */
  function Delivered(states: seq<ClientState>, calls: seq<Invocation>): seq<Message>
    requires |states| > |calls|
    decreases |calls|
  {
    if calls == [] then
      []
    else
      var n := |calls| - 1;
      Delivered(states, calls[..n])
      + (if SendsAll(states[n], calls[n]) then [MessageOf(states[n], calls[n])] else [])
  }

  /** The PDUs a call tries to send. */
  function PlannedPdus(s: ClientState, call: Invocation): (pdus: seq<seq<byte>>) {
    EncodeAll(Planned(s, s.callId, call.opnum, call.stub))
  }

  /** One call in the server's eyes: its message, if all of its PDUs came, and nothing else. */
  lemma PlanRecovery(st: Regrouped, s: ClientState, call: Invocation, log: seq<seq<byte>>)
    requires st.Regrouped? && log <= PlannedPdus(s, call)
    ensures var whole := log != [] && log == PlannedPdus(s, call);
            && Regroup(st, log).Regrouped?
            && Regroup(st, log).complete == st.complete + (if whole then [MessageOf(s, call)] else [])
            && (whole ==> Regroup(st, log).open.None?)
  {
    hide Regroup, RequestFragments, Chunks, EncodeAll;
    if Planned(s, s.callId, call.opnum, call.stub) == [] {
      assert log == [];
      RegroupNothing(st);
    } else {
      var t, size := Target(s.callId, s.contextId, call.opnum), s.maxXmitFrag - CALL_OVERHEAD;
      var chunks, hint := Chunks(call.stub, size), |call.stub| % 0x1_0000_0000;
      forall i | 0 <= i < |chunks| ensures |chunks[i]| <= MAX_CHUNK {
        ChunkSizes(call.stub, size, i);
      }
      if log == PlannedPdus(s, call) {
        RegroupWhole(st, t, hint, true, chunks);
        ChunksFlatten(call.stub, size);
        assert [] + call.stub == call.stub;
      } else {
        RegroupPart(st, t, hint, true, chunks, log);
      }
    }
  }

  lemma CallRecovery(st: Regrouped, s: ClientState, call: Invocation) returns (log: seq<seq<byte>>)
    requires st.Regrouped?
    ensures Call(s, call.opnum, call.stub).state.wire.sent == s.wire.sent + log
    ensures Regroup(st, log).Regrouped?
    ensures Regroup(st, log).complete ==
            st.complete + (if SendsAll(s, call) then [MessageOf(s, call)] else [])
    ensures SendsAll(s, call) ==> Regroup(st, log).open.None?
  {
    hide Call, Regroup, SendRequest, EncodeAll, Planned;
    log := SentIsPlanPrefix(s, call.opnum, call.stub);
    PlanRecovery(st, s, call, log);
  }

  lemma RegroupNothing(st: Regrouped)
    ensures Regroup(st, []) == st
  {
  }

  /**
   * Whole-run request recovery. For every run of calls, whatever their outcomes: decoding what the
   * run added to the log, packet by packet, and grouping by FIRST and LAST gives exactly the
   * messages of the calls that were sent completely, in order, and never a malformed log.
   */
  lemma {:induction false} RunRecovery(states: seq<ClientState>, calls: seq<Invocation>,
                                       results: seq<Result<seq<byte>>>, st: Regrouped)
    returns (log: seq<seq<byte>>)
    requires IsRun(states, calls, results) && st.Regrouped?
    ensures states[|calls|].wire.sent == states[0].wire.sent + log
    ensures Regroup(st, log).Regrouped?
    ensures Regroup(st, log).complete == st.complete + Delivered(states, calls)
    ensures (if calls == [] then st.open.None? else SendsAll(states[|calls| - 1], calls[|calls| - 1])) ==>
              Regroup(st, log).open.None?
    decreases |calls|
  {
    hide Call, Regroup, MessageOf, SendsAll;
    log := [];
    if calls == [] {
      RegroupNothing(st);
    } else {
      var n := |calls| - 1;
      RunPrefix(states, calls, results, n);
      var earlier := RunRecovery(states[..n + 1], calls[..n], results[..n], st);
      DeliveredPrefix(states, calls[..n]);
      var last := CallRecovery(Regroup(st, earlier), states[n], calls[n]);
      assert IsCall(states[n], calls[n], states[n + 1], results[n]);
      RegroupAppend(st, earlier, last);
      log := earlier + last;
    }
  }

  lemma {:induction false} DeliveredPrefix(states: seq<ClientState>, calls: seq<Invocation>)
    requires |states| > |calls|
    ensures Delivered(states[..|calls| + 1], calls) == Delivered(states, calls)
    decreases |calls|
  {
    hide MessageOf, SendsAll;
    if calls != [] {
      var n := |calls| - 1;
      DeliveredPrefix(states, calls[..n]);
      DeliveredPrefix(states[..|calls| + 1], calls[..n]);
      assert states[..|calls| + 1][..n + 1] == states[..n + 1];
    }
  }
}
