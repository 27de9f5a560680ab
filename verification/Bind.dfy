/** Presentation contexts, bind acknowledgements and the choice of a context. */
module Bind {
  import opened Bytes
  import opened WireCodes
  import opened Errors
  import opened Syntax

  datatype PresentationContext = PresentationContext(
    contextId: u16, abstractSyntax: SyntaxId, transferSyntaxes: seq<SyntaxId>)

  const CONTEXT_HEADER_LEN: nat := 24

  /** Something read off the front of a buffer, with the number of bytes it took. */
  datatype Parsed<+T> = Parsed(item: T, used: nat)

  // ---------------------------------------------------------------- contexts

  function SyntaxListBytes(ss: seq<SyntaxId>): (bytes: seq<byte>)
    ensures |bytes| == SYNTAX_LEN * |ss|
  {
    if ss == [] then [] else SyntaxBytes(ss[0]) + SyntaxListBytes(ss[1..])
  }

  lemma {:induction false} SyntaxListSnoc(ss: seq<SyntaxId>, s: SyntaxId)
    ensures SyntaxListBytes(ss + [s]) == SyntaxListBytes(ss) + SyntaxBytes(s)
  {
    hide SyntaxBytes;
    if ss == [] {
      assert ss + [s] == [s] && [s][1..] == [];
    } else {
      var head := SyntaxBytes(ss[0]);
      assert (ss + [s])[0] == ss[0] && (ss + [s])[1..] == ss[1..] + [s];
      SyntaxListSnoc(ss[1..], s);
      assert head + (SyntaxListBytes(ss[1..]) + SyntaxBytes(s)) == head + SyntaxListBytes(ss[1..]) + SyntaxBytes(s);
    }
  }

  /** A context can be written when its syntax count fits the one-byte count field. */
  predicate Encodable(c: PresentationContext) {
    |c.transferSyntaxes| <= 0xFF
  }

  function ContextBytes(c: PresentationContext): (bytes: seq<byte>)
    requires Encodable(c)
    ensures |bytes| == CONTEXT_HEADER_LEN + SYNTAX_LEN * |c.transferSyntaxes|
  {
    U16Bytes(c.contextId, Little) + [|c.transferSyntaxes|, 0]
    + SyntaxBytes(c.abstractSyntax) + SyntaxListBytes(c.transferSyntaxes)
  }

  method EncodeContext(c: PresentationContext) returns (r: Result<seq<byte>>)
    ensures Encodable(c) ==> r == Success(ContextBytes(c))
    ensures !Encodable(c) ==> r == Failure(InvalidPdu("too many transfer syntaxes"))
  {
    if |c.transferSyntaxes| > 0xFF {
      return Failure(InvalidPdu("too many transfer syntaxes"));
    }
    var bytes: seq<byte> := U16Bytes(c.contextId, Little);
    bytes := bytes + [|c.transferSyntaxes|];
    bytes := bytes + [0];
    bytes := bytes + SyntaxBytes(c.abstractSyntax);
    ghost var start := bytes;
    assert start == U16Bytes(c.contextId, Little) + [|c.transferSyntaxes|, 0] + SyntaxBytes(c.abstractSyntax);
    for i := 0 to |c.transferSyntaxes|
      invariant bytes == start + SyntaxListBytes(c.transferSyntaxes[..i])
    {
      SyntaxListSnoc(c.transferSyntaxes[..i], c.transferSyntaxes[i]);
      assert c.transferSyntaxes[..i + 1] == c.transferSyntaxes[..i] + [c.transferSyntaxes[i]];
      bytes := bytes + SyntaxBytes(c.transferSyntaxes[i]);
    }
    assert c.transferSyntaxes[..|c.transferSyntaxes|] == c.transferSyntaxes;
    return Success(bytes);
  }

  lemma SliceOfTail(bytes: seq<byte>, start: nat, at: nat, len: nat)
    requires start + at + len <= |bytes|
    ensures bytes[start..][at..at + len] == bytes[start + at..start + at + len]
  {
  }

  /** The `count` syntax ids that start at the front of `bytes`. */
  function SyntaxesAt(bytes: seq<byte>, count: nat): (ss: seq<SyntaxId>)
    requires |bytes| >= SYNTAX_LEN * count
    ensures |ss| == count
    ensures forall i :: 0 <= i < count ==>
              ss[i] == DecodeSyntax(bytes[SYNTAX_LEN * i..SYNTAX_LEN * i + SYNTAX_LEN]).value
  {
    seq(count, i requires 0 <= i < count =>
      DecodeSyntax(bytes[SYNTAX_LEN * i..SYNTAX_LEN * i + SYNTAX_LEN]).value)
  }

  /** Reads one context off the front and reports how many bytes it took. */
  function ParseContext(bytes: seq<byte>): (r: Result<Parsed<PresentationContext>>)
    ensures r.Success? ==> CONTEXT_HEADER_LEN <= r.value.used <= |bytes|
  {
    if |bytes| < CONTEXT_HEADER_LEN then
      Failure(InvalidPdu("presentation context requires at least 24 bytes"))
    else
      var needed := CONTEXT_HEADER_LEN + SYNTAX_LEN * bytes[2];
      if |bytes| < needed then
        Failure(InvalidPdu("presentation context is truncated"))
      else
        Success(Parsed(
          PresentationContext(
            ReadU16(bytes[0..2], Little), DecodeSyntax(bytes[4..24]).value,
            SyntaxesAt(bytes[CONTEXT_HEADER_LEN..], bytes[2])),
          needed))
  }

  method DecodeContext(bytes: seq<byte>) returns (r: Result<Parsed<PresentationContext>>)
    ensures r == ParseContext(bytes)
  {
    if |bytes| < CONTEXT_HEADER_LEN {
      return Failure(InvalidPdu("presentation context requires at least 24 bytes"));
    }
    hide DecodeSyntax;
    var contextId := ReadU16(bytes[0..2], Little);
    var transferCount: nat := bytes[2];
    var needed := CONTEXT_HEADER_LEN + transferCount * SYNTAX_LEN;
    if |bytes| < needed {
      return Failure(InvalidPdu("presentation context is truncated"));
    }
    var abstractSyntax := DecodeSyntax(bytes[4..24]).value;
    var transferSyntaxes: seq<SyntaxId> := [];
    var offset := CONTEXT_HEADER_LEN;
    ghost var tail := bytes[CONTEXT_HEADER_LEN..];
    for i := 0 to transferCount
      invariant offset == CONTEXT_HEADER_LEN + SYNTAX_LEN * i
      invariant transferSyntaxes == SyntaxesAt(tail, i)
    {
      SliceOfTail(bytes, CONTEXT_HEADER_LEN, SYNTAX_LEN * i, SYNTAX_LEN);
      var syntax := DecodeSyntax(bytes[offset..offset + SYNTAX_LEN]).value;
      transferSyntaxes := transferSyntaxes + [syntax];
      offset := offset + SYNTAX_LEN;
    }
    return Success(Parsed(PresentationContext(contextId, abstractSyntax, transferSyntaxes), needed));
  }

  // ---------------------------------------------------------------- context lists

  predicate AllEncodable(cs: seq<PresentationContext>) {
    forall c :: c in cs ==> Encodable(c)
  }

  function ContextsBytes(cs: seq<PresentationContext>): (bytes: seq<byte>)
    requires AllEncodable(cs)
    ensures |bytes| >= CONTEXT_HEADER_LEN * |cs|
  {
    if cs == [] then [] else ContextBytes(cs[0]) + ContextsBytes(cs[1..])
  }

  lemma {:induction false} ContextsAppend(a: seq<PresentationContext>, b: seq<PresentationContext>)
    requires AllEncodable(a) && AllEncodable(b)
    ensures ContextsBytes(a + b) == ContextsBytes(a) + ContextsBytes(b)
  {
    hide ContextBytes;
    if a == [] {
      assert a + b == b;
    } else {
      var head := ContextBytes(a[0]);
      assert (a + b)[0] == a[0] && (a + b)[1..] == a[1..] + b;
      ContextsAppend(a[1..], b);
      assert head + (ContextsBytes(a[1..]) + ContextsBytes(b)) == head + ContextsBytes(a[1..]) + ContextsBytes(b);
    }
  }

  /** The whole list; the context count is truncated to one byte, an oversized context panics. */
  function ContextListBytes(cs: seq<PresentationContext>): (r: Result<seq<byte>>) {
    if AllEncodable(cs) then
      var bytes: seq<byte> := [|cs| % 0x100, 0] + U16Bytes(0, Little) + ContextsBytes(cs);
      Success(bytes)
    else
      Failure(Panic("presentation context count was prevalidated"))
  }

  method EncodeContextList(cs: seq<PresentationContext>) returns (r: Result<seq<byte>>)
    ensures r == ContextListBytes(cs)
  {
    hide ContextBytes;
    var bytes: seq<byte> := [|cs| % 0x100];
    bytes := bytes + [0];
    bytes := bytes + U16Bytes(0, Little);
    ghost var start := bytes;
    assert start == [|cs| % 0x100, 0] + U16Bytes(0, Little);
    for i := 0 to |cs|
      invariant AllEncodable(cs[..i])
      invariant bytes == start + ContextsBytes(cs[..i])
    {
      var context := EncodeContext(cs[i]);
      if context.Failure? {
        assert cs[i] in cs;
        return Failure(Panic("presentation context count was prevalidated"));
      }
      assert cs[..i + 1] == cs[..i] + [cs[i]];
      ContextsAppend(cs[..i], [cs[i]]);
      assert ContextsBytes([cs[i]]) == context.value;
      bytes := bytes + context.value;
    }
    assert cs[..|cs|] == cs;
    return Success(bytes);
  }

  /** Reads `count` contexts off the front. */
  function ParseContexts(bytes: seq<byte>, count: nat): (r: Result<Parsed<seq<PresentationContext>>>)
    ensures r.Success? ==> |r.value.item| == count && r.value.used <= |bytes|
  {
    if count == 0 then
      Success(Parsed([], 0))
    else
      var context :- ParseContext(bytes);
      var contexts :- ParseContexts(bytes[context.used..], count - 1);
      Success(Parsed([context.item] + contexts.item, context.used + contexts.used))
  }

  function ParseContextList(bytes: seq<byte>): (r: Result<seq<PresentationContext>>) {
    if |bytes| < 4 then
      Failure(InvalidPdu("presentation context list requires at least 4 bytes"))
    else
      var contexts :- ParseContexts(bytes[4..], bytes[0]);
      if 4 + contexts.used != |bytes| then
        Failure(InvalidPdu("presentation context list has trailing bytes"))
      else
        Success(contexts.item)
  }

  /** What the rest of a parse amounts to once `done` contexts and `offset` bytes are behind. */
  ghost function Resumed(done: seq<PresentationContext>, offset: nat,
                         r: Result<Parsed<seq<PresentationContext>>>): Result<Parsed<seq<PresentationContext>>> {
    match r
    case Success(rest) => Success(Parsed(done + rest.item, offset + rest.used))
    case Failure(e) => Failure(e)
  }

  lemma ResumedStep(bytes: seq<byte>, offset: nat, count: nat, done: seq<PresentationContext>)
    requires offset <= |bytes| && count > 0
    requires ParseContext(bytes[offset..]).Success?
    ensures var c := ParseContext(bytes[offset..]).value;
            Resumed(done, offset, ParseContexts(bytes[offset..], count)) ==
            Resumed(done + [c.item], offset + c.used, ParseContexts(bytes[offset + c.used..], count - 1))
  {
    hide ParseContext;
    var c := ParseContext(bytes[offset..]).value;
    assert bytes[offset..][c.used..] == bytes[offset + c.used..];
    var rest := ParseContexts(bytes[offset + c.used..], count - 1);
    if rest.Success? {
      assert done + ([c.item] + rest.value.item) == done + [c.item] + rest.value.item;
    }
  }

  /** A parse resumes with nothing when no context is left, and fails where the next one fails. */
  lemma ResumedEnds(bytes: seq<byte>, count: nat, done: seq<PresentationContext>, offset: nat)
    ensures count == 0 ==> Resumed(done, offset, ParseContexts(bytes, count)) == Success(Parsed(done, offset))
    ensures count > 0 && ParseContext(bytes).Failure? ==>
              Resumed(done, offset, ParseContexts(bytes, count)) == Failure(ParseContext(bytes).error)
  {
    hide ParseContext;
    assert done + [] == done;
  }

  method DecodeContextList(bytes: seq<byte>) returns (r: Result<seq<PresentationContext>>)
    ensures r == ParseContextList(bytes)
  {
    hide ParseContext, ParseContexts;
    if |bytes| < 4 {
      return Failure(InvalidPdu("presentation context list requires at least 4 bytes"));
    }
    var count: nat := bytes[0];
    var contexts: seq<PresentationContext> := [];
    var offset := 4;
    ghost var parsed := ParseContexts(bytes[4..], count);
    ghost var whole := Resumed([], 4, parsed);
    for i := 0 to count
      invariant 4 <= offset <= |bytes|
      invariant whole == Resumed(contexts, offset, ParseContexts(bytes[offset..], count - i))
    {
      ResumedEnds(bytes[offset..], count - i, contexts, offset);
      var context :- DecodeContext(bytes[offset..]);
      ResumedStep(bytes, offset, count - i, contexts);
      contexts := contexts + [context.item];
      offset := offset + context.used;
    }
    ResumedEnds(bytes[offset..], 0, contexts, offset);
    assert [] + parsed.value.item == parsed.value.item;
    if offset != |bytes| {
      return Failure(InvalidPdu("presentation context list has trailing bytes"));
    }
    return Success(contexts);
  }

  // ---------------------------------------------------------------- bind acknowledgements

  datatype PresentationResult = PresentationResult(
    result: ResultCode, reason: ContextReason, transferSyntax: SyntaxId)

  const RESULT_LEN: nat := 24

  function DecodeResult(bytes: seq<byte>): (r: Result<PresentationResult>) {
    if |bytes| < RESULT_LEN then
      Failure(InvalidPdu("presentation result requires 24 bytes"))
    else if ResultCodeOf(ReadU16(bytes[0..2], Little)).None? then
      Failure(InvalidPdu("unknown presentation result code"))
    else if ContextReasonOf(ReadU16(bytes[2..4], Little)).None? then
      Failure(InvalidPdu("unknown presentation reject reason"))
    else
      Success(PresentationResult(
        ResultCodeOf(ReadU16(bytes[0..2], Little)).value,
        ContextReasonOf(ReadU16(bytes[2..4], Little)).value,
        DecodeSyntax(bytes[4..24]).value))
  }

  datatype BindAckPdu = BindAckPdu(
    maxXmitFrag: u16, maxRecvFrag: u16, assocGroupId: u32,
    secondaryAddr: seq<byte>, results: seq<PresentationResult>)

  /** The least multiple of four that is not below `n`. */
  function Align4(n: nat): (r: nat)
    ensures r % 4 == 0 && n <= r < n + 4
  {
    (n + 3) / 4 * 4
  }

  function ParseResults(bytes: seq<byte>, count: nat): (r: Result<seq<PresentationResult>>)
    ensures r.Success? ==> |r.value| == count && RESULT_LEN * count <= |bytes|
  {
    if count == 0 then
      Success([])
    else if |bytes| < RESULT_LEN then
      Failure(InvalidPdu("bind ack result list is truncated"))
    else
      var result :- DecodeResult(bytes[..RESULT_LEN]);
      var results :- ParseResults(bytes[RESULT_LEN..], count - 1);
      Success([result] + results)
  }

  function ParseBindAck(bytes: seq<byte>): (r: Result<BindAckPdu>) {
    if |bytes| < 12 then
      Failure(InvalidPdu("bind ack body requires at least 12 bytes"))
    else
      var addrEnd := 10 + ReadU16(bytes[8..10], Little);
      var listAt := Align4(addrEnd);
      if |bytes| < addrEnd then
        Failure(InvalidPdu("bind ack secondary address is truncated"))
      else if |bytes| < listAt + 4 then
        Failure(InvalidPdu("bind ack result list is missing"))
      else
        var results :- ParseResults(bytes[listAt + 4..], bytes[listAt]);
        if listAt + 4 + RESULT_LEN * |results| != |bytes| then
          Failure(InvalidPdu("bind ack body has trailing bytes"))
        else
          Success(BindAckPdu(
            ReadU16(bytes[0..2], Little), ReadU16(bytes[2..4], Little), ReadU32(bytes[4..8], Little),
            bytes[10..addrEnd], results))
  }

  ghost function Prefixed(done: seq<PresentationResult>, r: Result<seq<PresentationResult>>)
    : Result<seq<PresentationResult>>
  {
    match r
    case Success(results) => Success(done + results)
    case Failure(e) => Failure(e)
  }

  method DecodeResults(bytes: seq<byte>, start: nat, count: nat)
    returns (r: Result<seq<PresentationResult>>, end: nat)
    requires start <= |bytes|
    ensures r == ParseResults(bytes[start..], count)
    ensures r.Success? ==> end == start + RESULT_LEN * count
  {
    hide DecodeResult;
    end := start;
    var results: seq<PresentationResult> := [];
    ghost var parsed := ParseResults(bytes[start..], count);
    ghost var whole := Prefixed([], parsed);
    for i := 0 to count
      invariant start <= end == start + RESULT_LEN * i <= |bytes|
      invariant whole == Prefixed(results, ParseResults(bytes[end..], count - i))
    {
      if |bytes| < end + RESULT_LEN {
        return Failure(InvalidPdu("bind ack result list is truncated")), end;
      }
      assert bytes[end..][..RESULT_LEN] == bytes[end..end + RESULT_LEN];
      assert bytes[end..][RESULT_LEN..] == bytes[end + RESULT_LEN..];
      var result := DecodeResult(bytes[end..end + RESULT_LEN]);
      if result.Failure? {
        return Failure(result.error), end;
      }
      ghost var rest := ParseResults(bytes[end + RESULT_LEN..], count - i - 1);
      if rest.Success? {
        assert results + ([result.value] + rest.value) == results + [result.value] + rest.value;
      }
      results := results + [result.value];
      end := end + RESULT_LEN;
    }
    assert results + [] == results && [] + parsed.value == parsed.value;
    r := Success(results);
  }

  /** Steps up to the next multiple of four. */
  method AlignOffset(start: nat) returns (offset: nat)
    ensures offset == Align4(start)
  {
    offset := start;
    while offset % 4 != 0
      invariant start <= offset <= Align4(start)
      decreases Align4(start) - offset
    {
      offset := offset + 1;
    }
  }

  method DecodeBindAck(bytes: seq<byte>) returns (r: Result<BindAckPdu>)
    ensures r == ParseBindAck(bytes)
  {
    hide ParseResults, Align4;
    if |bytes| < 12 {
      return Failure(InvalidPdu("bind ack body requires at least 12 bytes"));
    }
    var addrEnd := 10 + ReadU16(bytes[8..10], Little);
    if |bytes| < addrEnd {
      return Failure(InvalidPdu("bind ack secondary address is truncated"));
    }
    var offset := AlignOffset(addrEnd);
    if |bytes| < offset + 4 {
      return Failure(InvalidPdu("bind ack result list is missing"));
    }
    var count: nat := bytes[offset];
    var results, end := DecodeResults(bytes, offset + 4, count);
    if results.Failure? {
      return Failure(results.error);
    }
    if end != |bytes| {
      return Failure(InvalidPdu("bind ack body has trailing bytes"));
    }
    return Success(BindAckPdu(
      ReadU16(bytes[0..2], Little), ReadU16(bytes[2..4], Little), ReadU32(bytes[4..8], Little),
      bytes[10..addrEnd], results.value));
  }

  function DecodeBindNak(bytes: seq<byte>): Result<RejectReason> {
    if |bytes| < 2 then
      Failure(InvalidPdu("bind nak body requires a reject reason"))
    else
      match RejectReasonOf(ReadU16(bytes[0..2], Little))
      case Some(reason) => Success(reason)
      case None => Failure(InvalidPdu("unknown bind nak reject reason"))
  }

  // ---------------------------------------------------------------- negotiation

  datatype AcceptedContext = AcceptedContext(contextId: u16, transferSyntax: SyntaxId)

  predicate Rejects(r: PresentationResult) {
    r.result != Acceptance && r.result != NegotiateAck
  }

  /** The least index of an acceptance, or the number of results. */
  function FirstAcceptance(results: seq<PresentationResult>): (k: nat)
    ensures k <= |results|
    ensures k < |results| ==> results[k].result == Acceptance
    ensures forall i :: 0 <= i < k ==> results[i].result != Acceptance
  {
    if results == [] || results[0].result == Acceptance then 0 else 1 + FirstAcceptance(results[1..])
  }

  /** The least index of a rejection, or the number of results. */
  function FirstRejection(results: seq<PresentationResult>): (k: nat)
    ensures k <= |results|
    ensures k < |results| ==> Rejects(results[k])
    ensures forall i :: 0 <= i < k ==> !Rejects(results[i])
  {
    if results == [] || Rejects(results[0]) then 0 else 1 + FirstRejection(results[1..])
  }

  /** The outcome of a negotiation, without a loop. */
  function Negotiated(results: seq<PresentationResult>, proposed: seq<PresentationContext>)
    : (r: Result<AcceptedContext>)
  {
    var a, j := FirstAcceptance(results), FirstRejection(results);
    if a < |results| && a < |proposed| then
      Success(AcceptedContext(proposed[a].contextId, results[a].transferSyntax))
    else if |results| > |proposed| then
      Failure(InvalidPdu("bind ack result has no matching proposed context"))
    else if j < |results| then
      Failure(PresentationContextRejected(proposed[j].contextId, results[j].result, results[j].reason))
    else
      Failure(InvalidPdu("bind ack has no presentation results"))
  }

  method ChooseContext(results: seq<PresentationResult>, proposed: seq<PresentationContext>)
    returns (r: Result<AcceptedContext>)
    ensures r == Negotiated(results, proposed)
  {
    var firstRejection: Option<Error> := None;
    ghost var j := FirstRejection(results);
    for i := 0 to |results|
      invariant i <= |proposed| && i <= FirstAcceptance(results)
      invariant firstRejection ==
                if j < i
                then Some(PresentationContextRejected(proposed[j].contextId, results[j].result, results[j].reason))
                else None
    {
      if i >= |proposed| {
        return Failure(InvalidPdu("bind ack result has no matching proposed context"));
      }
      if results[i].result == Acceptance {
        return Success(AcceptedContext(proposed[i].contextId, results[i].transferSyntax));
      }
      if results[i].result != NegotiateAck && firstRejection.None? {
        firstRejection := Some(
          PresentationContextRejected(proposed[i].contextId, results[i].result, results[i].reason));
      }
    }
    if firstRejection.Some? {
      return Failure(firstRejection.value);
    }
    return Failure(InvalidPdu("bind ack has no presentation results"));
  }
}
