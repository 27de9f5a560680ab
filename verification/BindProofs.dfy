/** Round trips of context lists, exact acceptance of bind acks, and the negotiation law. */
module BindProofs {
  import opened Bytes
  import opened WireCodes
  import opened Errors
  import opened Syntax
  import opened Bind

  // ---------------------------------------------------------------- contexts

  lemma {:induction false} SyntaxListSlice(ss: seq<SyntaxId>, i: nat)
    requires i < |ss|
    ensures SyntaxListBytes(ss)[SYNTAX_LEN * i..SYNTAX_LEN * i + SYNTAX_LEN] == SyntaxBytes(ss[i])
  {
    hide SyntaxBytes;
    var bytes, head, tail := SyntaxListBytes(ss), SyntaxBytes(ss[0]), SyntaxListBytes(ss[1..]);
    if i > 0 {
      SyntaxListSlice(ss[1..], i - 1);
      var at := SYNTAX_LEN * (i - 1);
      assert bytes[SYNTAX_LEN + at..SYNTAX_LEN + at + SYNTAX_LEN] == tail[at..at + SYNTAX_LEN];
    } else {
      assert bytes[0..SYNTAX_LEN] == head;
    }
  }

  lemma SyntaxAt(ss: seq<SyntaxId>, rest: seq<byte>, i: nat)
    requires i < |ss|
    ensures var bytes := SyntaxListBytes(ss) + rest;
            DecodeSyntax(bytes[SYNTAX_LEN * i..SYNTAX_LEN * i + SYNTAX_LEN]) == Success(ss[i])
  {
    hide SyntaxBytes, DecodeSyntax, SyntaxListBytes;
    var list, at := SyntaxListBytes(ss), SYNTAX_LEN * i;
    SyntaxListSlice(ss, i);
    assert (list + rest)[at..at + SYNTAX_LEN] == list[at..at + SYNTAX_LEN];
    SyntaxRoundTrip(ss[i], []);
    assert SyntaxBytes(ss[i]) + [] == SyntaxBytes(ss[i]);
  }

  lemma SyntaxListRoundTrip(ss: seq<SyntaxId>, rest: seq<byte>)
    ensures SyntaxesAt(SyntaxListBytes(ss) + rest, |ss|) == ss
  {
    hide SyntaxBytes, DecodeSyntax, SyntaxListBytes, SyntaxesAt;
    forall i | 0 <= i < |ss|
      ensures SyntaxesAt(SyntaxListBytes(ss) + rest, |ss|)[i] == ss[i]
    {
      SyntaxAt(ss, rest, i);
    }
  }

  lemma ContextRoundTrip(c: PresentationContext, rest: seq<byte>)
    requires Encodable(c)
    ensures ParseContext(ContextBytes(c) + rest) == Success(Parsed(c, |ContextBytes(c)|))
  {
    hide SyntaxBytes, DecodeSyntax, SyntaxesAt, SyntaxListBytes;
    var bytes := ContextBytes(c) + rest;
    assert bytes[0..2] == U16Bytes(c.contextId, Little) + [];
    U16RoundTrip(c.contextId, Little, []);
    assert bytes[4..24] == SyntaxBytes(c.abstractSyntax) + [];
    SyntaxRoundTrip(c.abstractSyntax, []);
    assert bytes[CONTEXT_HEADER_LEN..] == SyntaxListBytes(c.transferSyntaxes) + rest;
    SyntaxListRoundTrip(c.transferSyntaxes, rest);
  }

  lemma ParseContextsCons(head: seq<byte>, tail: seq<byte>, c: PresentationContext, count: nat)
    requires ParseContext(head + tail) == Success(Parsed(c, |head|))
    requires ParseContexts(tail, count).Success?
    ensures var rest := ParseContexts(tail, count).value;
            ParseContexts(head + tail, count + 1) == Success(Parsed([c] + rest.item, |head| + rest.used))
  {
  }

  lemma ParseNothing(bytes: seq<byte>)
    ensures ParseContexts(bytes, 0) == Success(Parsed([], 0))
  {
  }

  lemma {:induction false} ContextsRoundTrip(cs: seq<PresentationContext>, rest: seq<byte>)
    requires AllEncodable(cs)
    ensures ParseContexts(ContextsBytes(cs) + rest, |cs|) == Success(Parsed(cs, |ContextsBytes(cs)|))
  {
    hide ParseContext, ParseContexts, ContextBytes;
    if cs == [] {
      ParseNothing(rest);
      assert ContextsBytes(cs) + rest == rest;
    } else {
      var head, tail := ContextBytes(cs[0]), ContextsBytes(cs[1..]) + rest;
      assert ContextsBytes(cs) + rest == head + tail;
      ContextRoundTrip(cs[0], tail);
      ContextsRoundTrip(cs[1..], rest);
      ParseContextsCons(head, tail, cs[0], |cs| - 1);
      assert [cs[0]] + cs[1..] == cs;
    }
  }

  /** Bytes of a written context list, with anything appended. */
  function ListWire(cs: seq<PresentationContext>, extra: seq<byte>): seq<byte>
    requires AllEncodable(cs)
  {
    ContextListBytes(cs).value + extra
  }

  /**
   * Context list round trip, sharp form. A written list reads back exactly when it has at most 255
   * contexts and nothing follows it; otherwise, the truncated count included, reading fails on the
   * trailing bytes.
   */
  lemma ContextListRoundTrip(cs: seq<PresentationContext>, extra: seq<byte>)
    requires AllEncodable(cs)
    ensures ParseContextList(ListWire(cs, extra)) ==
            if |cs| <= 0xFF && extra == [] then Success(cs)
            else Failure(InvalidPdu("presentation context list has trailing bytes"))
    ensures ListWire(cs, extra)[..4] == [|cs| % 0x100, 0, 0, 0]
  {
    hide ParseContexts, ContextsBytes;
    var bytes := ListWire(cs, extra);
    var n := |cs| % 0x100;
    var front, back := cs[..n], cs[n..];
    assert cs == front + back;
    ContextsAppend(front, back);
    assert bytes[4..] == ContextsBytes(front) + (ContextsBytes(back) + extra);
    ContextsRoundTrip(front, ContextsBytes(back) + extra);
    assert bytes[0] == n;
    if |cs| <= 0xFF {
      assert back == [] && front == cs;
      assert ContextsBytes(cs) == ContextsBytes(cs) + ContextsBytes([]);
    }
  }

  /** Which bytes are refused as a context, and why. */
  lemma ContextRefusals(bytes: seq<byte>)
    ensures |bytes| < 24 ==>
              ParseContext(bytes) == Failure(InvalidPdu("presentation context requires at least 24 bytes"))
    ensures |bytes| >= 24 && |bytes| < 24 + 20 * bytes[2] as int ==>
              ParseContext(bytes) == Failure(InvalidPdu("presentation context is truncated"))
    ensures |bytes| >= 24 && |bytes| >= 24 + 20 * bytes[2] as int ==> ParseContext(bytes).Success?
  {
    hide DecodeSyntax;
  }

  lemma {:induction false} ContextsBreak(cs: seq<PresentationContext>, rest: seq<byte>, count: nat)
    requires AllEncodable(cs) && |cs| < count && ParseContext(rest).Failure?
    ensures ParseContexts(ContextsBytes(cs) + rest, count) == Failure(ParseContext(rest).error)
  {
    hide ParseContext, ContextBytes;
    if cs == [] {
      assert ContextsBytes(cs) + rest == rest;
    } else {
      var head, tail := ContextBytes(cs[0]), ContextsBytes(cs[1..]) + rest;
      assert ContextsBytes(cs) + rest == head + tail;
      assert (head + tail)[|head|..] == tail;
      ContextRoundTrip(cs[0], tail);
      ContextsBreak(cs[1..], rest, count - 1);
    }
  }

  /** A context list that breaks off inside a context is refused with that context's error. */
  lemma ContextListBreaks(cs: seq<PresentationContext>, front: seq<byte>, rest: seq<byte>)
    requires |front| == 4 && AllEncodable(cs) && |cs| < front[0] && ParseContext(rest).Failure?
    ensures ParseContextList(front + (ContextsBytes(cs) + rest)) == Failure(ParseContext(rest).error)
  {
    hide ParseContext, ParseContexts, ContextsBytes, AllEncodable;
    var tail := ContextsBytes(cs) + rest;
    assert (front + tail)[4..] == tail && (front + tail)[0] == front[0];
    ContextsBreak(cs, rest, front[0]);
  }

  lemma ContextListTooShort(bytes: seq<byte>)
    requires |bytes| < 4
    ensures ParseContextList(bytes) == Failure(InvalidPdu("presentation context list requires at least 4 bytes"))
  {
  }

  lemma {:induction false} ContextsAligned(cs: seq<PresentationContext>)
    requires AllEncodable(cs)
    ensures |ContextsBytes(cs)| % 4 == 0
  {
    hide ContextBytes;
    if cs != [] {
      ContextsAligned(cs[1..]);
    }
  }

  // ---------------------------------------------------------------- bind acknowledgements

  /** The pair of codes at the front of a result entry is known. */
  predicate KnownCodes(bytes: seq<byte>)
    requires |bytes| >= 4
  {
    ResultCodeOf(ReadU16(bytes[0..2], Little)).Some? && ContextReasonOf(ReadU16(bytes[2..4], Little)).Some?
  }

  function ResultEntry(bytes: seq<byte>, i: nat): (entry: seq<byte>)
    requires RESULT_LEN * i + RESULT_LEN <= |bytes|
    ensures |entry| == RESULT_LEN
  {
    bytes[RESULT_LEN * i..RESULT_LEN * i + RESULT_LEN]
  }

  /** There is room for `count` results and every code pair is known. */
  predicate AllKnown(bytes: seq<byte>, count: nat) {
    RESULT_LEN * count <= |bytes| && forall i: nat :: i < count ==> KnownCodes(ResultEntry(bytes, i))
  }

  lemma EntryShift(bytes: seq<byte>, i: nat)
    requires RESULT_LEN * i + 2 * RESULT_LEN <= |bytes|
    ensures ResultEntry(bytes[RESULT_LEN..], i) == ResultEntry(bytes, i + 1)
  {
    SliceOfTail(bytes, RESULT_LEN, RESULT_LEN * i, RESULT_LEN);
  }

  lemma AllKnownCons(bytes: seq<byte>, count: nat)
    requires |bytes| >= RESULT_LEN && count > 0
    ensures AllKnown(bytes, count) <==>
            KnownCodes(bytes[..RESULT_LEN]) && AllKnown(bytes[RESULT_LEN..], count - 1)
  {
    hide KnownCodes, ResultEntry;
    var tail := bytes[RESULT_LEN..];
    FirstEntry(bytes);
    if RESULT_LEN * count <= |bytes| {
      forall i: nat | i < count - 1 ensures ResultEntry(tail, i) == ResultEntry(bytes, i + 1) {
        EntryShift(bytes, i);
      }
      if KnownCodes(bytes[..RESULT_LEN]) && AllKnown(tail, count - 1) {
        forall i: nat | i < count ensures KnownCodes(ResultEntry(bytes, i)) {
          if i > 0 {
            assert KnownCodes(ResultEntry(tail, i - 1));
          }
        }
      }
    }
  }

  lemma FirstEntry(bytes: seq<byte>)
    requires |bytes| >= RESULT_LEN
    ensures ResultEntry(bytes, 0) == bytes[..RESULT_LEN]
  {
  }

  /** Results parse if and only if there is room for them and every code pair is known. */
  lemma {:induction false} ParseResultsAccepts(bytes: seq<byte>, count: nat)
    ensures ParseResults(bytes, count).Success? <==> AllKnown(bytes, count)
  {
    hide KnownCodes, AllKnown, DecodeResult;
    if count == 0 {
      NothingKnown(bytes);
    } else if |bytes| >= RESULT_LEN {
      ParseResultsAccepts(bytes[RESULT_LEN..], count - 1);
      DecodeResultExact(bytes[..RESULT_LEN]);
      AllKnownCons(bytes, count);
    } else {
      NoRoom(bytes, count);
    }
  }

  lemma NothingKnown(bytes: seq<byte>)
    ensures AllKnown(bytes, 0)
  {
  }

  lemma NoRoom(bytes: seq<byte>, count: nat)
    requires count > 0 && |bytes| < RESULT_LEN
    ensures !AllKnown(bytes, count)
  {
  }

  /** The i-th parsed result is what the i-th entry says. */
  lemma {:induction false} ParsedEntry(bytes: seq<byte>, count: nat, i: nat)
    requires ParseResults(bytes, count).Success? && i < count
    ensures DecodeResult(ResultEntry(bytes, i)) == Success(ParseResults(bytes, count).value[i])
  {
    hide DecodeResult, ResultEntry;
    if i == 0 {
      FirstEntry(bytes);
    } else {
      ParsedEntry(bytes[RESULT_LEN..], count - 1, i - 1);
      EntryShift(bytes, i - 1);
    }
  }

  lemma DecodeResultExact(bytes: seq<byte>)
    requires |bytes| == RESULT_LEN
    ensures DecodeResult(bytes).Success? <==> KnownCodes(bytes)
  {
  }

  /** The condition under which a bind ack body is accepted. */
  predicate AckWellFormed(bytes: seq<byte>) {
    && |bytes| >= 12
    && var listAt := Align4(10 + ReadU16(bytes[8..10], Little));
    && listAt < |bytes|
    && |bytes| == listAt + 4 + RESULT_LEN * bytes[listAt]
    && AllKnown(bytes[listAt + 4..], bytes[listAt])
  }

  /** Bind-ack decoding is exact: accepted iff well formed, and every field is the bytes at its place. */
  lemma BindAckExact(bytes: seq<byte>)
    ensures ParseBindAck(bytes).Success? <==> AckWellFormed(bytes)
    ensures ParseBindAck(bytes).Success? ==>
              var ack := ParseBindAck(bytes).value;
              var addrLen := ReadU16(bytes[8..10], Little);
              var listAt := Align4(10 + addrLen);
              && ack.maxXmitFrag == ReadU16(bytes[0..2], Little)
              && ack.maxRecvFrag == ReadU16(bytes[2..4], Little)
              && ack.assocGroupId == ReadU32(bytes[4..8], Little)
              && |ack.secondaryAddr| == addrLen && ack.secondaryAddr == bytes[10..10 + addrLen]
              && |ack.results| == bytes[listAt]
              && var entries := bytes[listAt + 4..];
              && forall i: nat :: i < |ack.results| ==>
                   DecodeResult(ResultEntry(entries, i)) == Success(ack.results[i])
  {
    hide AllKnown, DecodeResult, ParseResults, ResultEntry;
    if |bytes| >= 12 {
      var listAt := Align4(10 + ReadU16(bytes[8..10], Little));
      if listAt + 4 <= |bytes| {
        var entries, count: nat := bytes[listAt + 4..], bytes[listAt];
        ParseResultsAccepts(entries, count);
        if ParseResults(entries, count).Success? {
          forall i: nat | i < count
            ensures RESULT_LEN * i + RESULT_LEN <= |entries|
            ensures DecodeResult(ResultEntry(entries, i)) == Success(ParseResults(entries, count).value[i])
          {
            ParsedEntry(entries, count, i);
          }
        }
      }
    }
  }

  function ResultBytes(r: PresentationResult): (bytes: seq<byte>)
    ensures |bytes| == RESULT_LEN
  {
    U16Bytes(ResultCodeValue(r.result), Little) + U16Bytes(ContextReasonValue(r.reason), Little)
    + SyntaxBytes(r.transferSyntax)
  }

  function ResultsBytes(rs: seq<PresentationResult>): (bytes: seq<byte>)
    ensures |bytes| == RESULT_LEN * |rs|
  {
    if rs == [] then [] else ResultBytes(rs[0]) + ResultsBytes(rs[1..])
  }

  /** A server's layout of a bind ack body. */
  function AckBytes(ack: BindAckPdu): (bytes: seq<byte>)
    requires |ack.secondaryAddr| <= 0xFFFF
  {
    var addrEnd := 10 + |ack.secondaryAddr|;
    U16Bytes(ack.maxXmitFrag, Little) + U16Bytes(ack.maxRecvFrag, Little) + U32Bytes(ack.assocGroupId, Little)
    + U16Bytes(|ack.secondaryAddr|, Little) + ack.secondaryAddr + Zeros(Align4(addrEnd) - addrEnd)
    + ([|ack.results| % 0x100, 0] + U16Bytes(0, Little))
    + ResultsBytes(ack.results)
  }

  lemma ResultRoundTrip(r: PresentationResult)
    ensures DecodeResult(ResultBytes(r)) == Success(r)
  {
    hide SyntaxBytes, DecodeSyntax;
    var bytes := ResultBytes(r);
    assert bytes[0..2] == U16Bytes(ResultCodeValue(r.result), Little) + [];
    assert bytes[2..4] == U16Bytes(ContextReasonValue(r.reason), Little) + [];
    assert bytes[4..24] == SyntaxBytes(r.transferSyntax) + [];
    U16RoundTrip(ResultCodeValue(r.result), Little, []);
    U16RoundTrip(ContextReasonValue(r.reason), Little, []);
    SyntaxRoundTrip(r.transferSyntax, []);
  }

  /** Reading `count` of the written results gives the first `count` of them. */
  lemma {:induction false} ResultsRoundTrip(rs: seq<PresentationResult>, count: nat)
    requires count <= |rs|
    ensures ParseResults(ResultsBytes(rs), count) == Success(rs[..count])
  {
    hide ResultBytes, DecodeResult;
    if count > 0 {
      var bytes := ResultsBytes(rs);
      assert bytes[..RESULT_LEN] == ResultBytes(rs[0]);
      assert bytes[RESULT_LEN..] == ResultsBytes(rs[1..]);
      ResultRoundTrip(rs[0]);
      ResultsRoundTrip(rs[1..], count - 1);
      assert [rs[0]] + rs[1..][..count - 1] == rs[..count];
    }
  }

  lemma AckFields(ack: BindAckPdu)
    requires |ack.secondaryAddr| <= 0xFFFF
    ensures var bytes, addrEnd := AckBytes(ack), 10 + |ack.secondaryAddr|;
            var listAt := Align4(addrEnd);
            && |bytes| == listAt + 4 + RESULT_LEN * |ack.results|
            && ReadU16(bytes[0..2], Little) == ack.maxXmitFrag
            && ReadU16(bytes[2..4], Little) == ack.maxRecvFrag
            && ReadU32(bytes[4..8], Little) == ack.assocGroupId
            && ReadU16(bytes[8..10], Little) == |ack.secondaryAddr|
            && bytes[10..addrEnd] == ack.secondaryAddr
            && bytes[listAt] == |ack.results| % 0x100
            && bytes[listAt + 4..] == ResultsBytes(ack.results)
  {
    hide ResultsBytes, Align4;
    var bytes := AckBytes(ack);
    assert bytes[0..2] == U16Bytes(ack.maxXmitFrag, Little) + [];
    assert bytes[2..4] == U16Bytes(ack.maxRecvFrag, Little) + [];
    assert bytes[4..8] == U32Bytes(ack.assocGroupId, Little) + [];
    assert bytes[8..10] == U16Bytes(|ack.secondaryAddr|, Little) + [];
    U16RoundTrip(ack.maxXmitFrag, Little, []);
    U16RoundTrip(ack.maxRecvFrag, Little, []);
    U32RoundTrip(ack.assocGroupId, Little, []);
    U16RoundTrip(|ack.secondaryAddr|, Little, []);
  }

  /** Decoding inverts a server's layout exactly when the result count fits its one-byte field. */
  lemma BindAckRoundTrip(ack: BindAckPdu)
    requires |ack.secondaryAddr| <= 0xFFFF
    ensures ParseBindAck(AckBytes(ack)) ==
            if |ack.results| <= 0xFF then Success(ack)
            else Failure(InvalidPdu("bind ack body has trailing bytes"))
  {
    hide AckBytes, ParseResults, ResultsBytes;
    AckFields(ack);
    var n := |ack.results| % 0x100;
    ResultsRoundTrip(ack.results, n);
    if |ack.results| <= 0xFF {
      assert ack.results[..n] == ack.results;
    }
  }

  /** Results that break off, or go on with an unknown code, are refused at the first bad one. */
  lemma {:induction false} ResultsBreak(rs: seq<PresentationResult>, rest: seq<byte>, count: nat)
    requires |rs| < count
    ensures |rest| < RESULT_LEN ==>
              ParseResults(ResultsBytes(rs) + rest, count) == Failure(InvalidPdu("bind ack result list is truncated"))
    ensures |rest| >= RESULT_LEN && DecodeResult(rest[..RESULT_LEN]).Failure? ==>
              ParseResults(ResultsBytes(rs) + rest, count) == Failure(DecodeResult(rest[..RESULT_LEN]).error)
  {
    hide ResultBytes, DecodeResult;
    if rs == [] {
      assert ResultsBytes(rs) + rest == rest;
    } else {
      var bytes := ResultsBytes(rs) + rest;
      assert bytes[..RESULT_LEN] == ResultBytes(rs[0]);
      assert bytes[RESULT_LEN..] == ResultsBytes(rs[1..]) + rest;
      ResultRoundTrip(rs[0]);
      ResultsBreak(rs[1..], rest, count - 1);
    }
  }

  /** Which bytes are refused as an acknowledgement before and after its results, and why. */
  lemma AckRefusals(bytes: seq<byte>)
    ensures |bytes| < 12 ==>
              ParseBindAck(bytes) == Failure(InvalidPdu("bind ack body requires at least 12 bytes"))
    ensures |bytes| >= 12 ==>
              var end := 10 + bytes[8] as int + 0x100 * bytes[9] as int;
              var listAt := end + (4 - end % 4) % 4;
              && (|bytes| < end ==>
                    ParseBindAck(bytes) == Failure(InvalidPdu("bind ack secondary address is truncated")))
              && (end <= |bytes| < listAt + 4 ==>
                    ParseBindAck(bytes) == Failure(InvalidPdu("bind ack result list is missing")))
              && (listAt + 4 <= |bytes| ==>
                    match ParseResults(bytes[listAt + 4..], bytes[listAt])
                    case Failure(e) => ParseBindAck(bytes) == Failure(e)
                    case Success(_) =>
                      listAt + 4 + 24 * bytes[listAt] as int != |bytes| ==>
                        ParseBindAck(bytes) == Failure(InvalidPdu("bind ack body has trailing bytes")))
  {
    hide ParseResults;
    if |bytes| >= 12 {
      var end := 10 + bytes[8] as int + 0x100 * bytes[9] as int;
      AlignedUp(end);
    }
  }

  lemma AlignedUp(n: nat)
    ensures Align4(n) == n + (4 - n % 4) % 4
  {
  }

  // ---------------------------------------------------------------- negotiation

  /** The index a negotiation settles on, in terms of the results alone. */
  ghost predicate LeastAccepted(results: seq<PresentationResult>, k: nat) {
    && k < |results|
    && results[k].result == Acceptance
    && forall i :: 0 <= i < k ==> results[i].result != Acceptance
  }

  /** The first result that is a rejection by the user or by the provider. */
  ghost predicate LeastRejected(results: seq<PresentationResult>, k: nat) {
    && k < |results|
    && (results[k].result == UserRejection || results[k].result == ProviderRejection)
    && forall i :: 0 <= i < k ==> results[i].result != UserRejection && results[i].result != ProviderRejection
  }

  /**
   * The negotiation outcome is fully determined: the least accepted index if the client proposed
   * something there; else an unmatched result; else the least rejection; else no usable result.
   */
  lemma NegotiationOutcome(results: seq<PresentationResult>, proposed: seq<PresentationContext>, k: nat)
    ensures LeastAccepted(results, k) && k < |proposed| ==>
              Negotiated(results, proposed) ==
              Success(AcceptedContext(proposed[k].contextId, results[k].transferSyntax))
    ensures Negotiated(results, proposed).Success? <==>
            exists a: nat :: LeastAccepted(results, a) && a < |proposed|
    ensures |results| > |proposed| && Negotiated(results, proposed).Failure? ==>
              Negotiated(results, proposed) ==
              Failure(InvalidPdu("bind ack result has no matching proposed context"))
    ensures |results| <= |proposed| && Negotiated(results, proposed).Failure? && LeastRejected(results, k) ==>
              Negotiated(results, proposed) ==
              Failure(PresentationContextRejected(proposed[k].contextId, results[k].result, results[k].reason))
    ensures |results| <= |proposed| && (forall r :: r in results ==> r.result == NegotiateAck) ==>
              Negotiated(results, proposed) == Failure(InvalidPdu("bind ack has no presentation results"))
  {
    var a, j := FirstAcceptance(results), FirstRejection(results);
    if a < |results| {
      assert LeastAccepted(results, a);
      assert results[a] in results;
    }
    if j < |results| {
      assert LeastRejected(results, j);
      assert results[j] in results;
    }
    forall i: nat | LeastAccepted(results, i) ensures i == a {
      assert !(i < a) && !(a < i);
    }
    if LeastRejected(results, k) {
      assert k == j;
    }
  }
}
