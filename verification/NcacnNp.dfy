/** The named-pipe transport: PDUs cut out of an undelimited byte stream. */
module NcacnNp {
  import opened Bytes
  import opened Errors
  import opened Pdu
  import opened Wires

  class NamedPipe {
    var input: seq<byte>
    var writes: seq<seq<byte>>
    var output: seq<byte>
    var faults: seq<bool>

    constructor (input: seq<byte>, faults: seq<bool>)
      ensures this.input == input && writes == [] && output == [] && this.faults == faults
    {
      this.input, writes, output, this.faults := input, [], [], faults;
    }

    /** Fills `buffer` from position `from` on; if the input runs out, what was there is lost. */
    method ReadExact(buffer: array<byte>, from: nat) returns (r: Result<()>)
      requires from <= buffer.Length
      modifies this`input, buffer
      ensures |old(input)| < buffer.Length - from ==>
                input == [] && r == Failure(Transport("pipe has no queued bytes"))
      ensures |old(input)| >= buffer.Length - from ==>
                && r == Success(())
                && buffer[..] == old(buffer[..from]) + old(input)[..buffer.Length - from]
                && input == old(input)[buffer.Length - from..]
    {
      var filled := from;
      while filled < buffer.Length
        invariant from <= filled <= buffer.Length
        invariant filled - from <= |old(input)|
        invariant input == old(input)[filled - from..]
        invariant buffer[..filled] == old(buffer[..from]) + old(input)[..filled - from]
      {
        if input == [] {
          return Failure(Transport("pipe has no queued bytes"));
        }
        buffer[filled] := input[0];
        input := input[1..];
        filled := filled + 1;
      }
      return Success(());
    }

    /** Writes all bytes or fails; a failed write may leave any first part of them on the pipe. */
    method WriteAll(bytes: seq<byte>) returns (r: Result<()>)
      modifies this`writes, this`output, this`faults
      ensures r == if old(faults) == [] || !old(faults)[0] then Success(()) else Failure(Transport("send failed"))
      ensures writes == if r.Success? then old(writes) + [bytes] else old(writes)
      ensures faults == if old(faults) == [] then [] else old(faults)[1..]
      ensures r.Success? ==> output == old(output) + bytes
      ensures old(output) <= output <= old(output) + bytes
    {
      var broken := faults != [] && faults[0];
      faults := if faults == [] then [] else faults[1..];
      if broken {
        var n: nat :| n <= |bytes|;
        output := output + bytes[..n];
        return Failure(Transport("send failed"));
      }
      output := output + bytes;
      writes := writes + [bytes];
      return Success(());
    }
  }

  /** The framer in terms of two reads: the header, and then what it announces. */
  lemma FrameReads(stream: seq<byte>)
    ensures |stream| < COMMON_HEADER_LEN ==>
              FrameFrom(stream) == Received(Pipe([]), Failure(Transport("pipe has no queued bytes")))
    ensures |stream| >= COMMON_HEADER_LEN ==>
              var head, rest := stream[..COMMON_HEADER_LEN], stream[COMMON_HEADER_LEN..];
              match DecodeHeader(head)
              case Failure(e) => FrameFrom(stream) == Received(Pipe(rest), Failure(e))
              case Success(header) =>
                var more := header.fragLength - COMMON_HEADER_LEN;
                FrameFrom(stream) ==
                if more < 0 then
                  Received(Pipe(rest), Failure(InvalidPdu("fragment length is smaller than common header")))
                else if |rest| < more then
                  Received(Pipe([]), Failure(Transport("pipe has no queued bytes")))
                else
                  Received(Pipe(rest[more..]), Success(head + rest[..more]))
  {
    hide DecodeHeader;
    if |stream| >= COMMON_HEADER_LEN && DecodeHeader(stream[..COMMON_HEADER_LEN]).Success? {
      var n := DecodeHeader(stream[..COMMON_HEADER_LEN]).value.fragLength;
      var rest := stream[COMMON_HEADER_LEN..];
      if COMMON_HEADER_LEN <= n <= |stream| {
        assert stream[..COMMON_HEADER_LEN] + rest[..n - COMMON_HEADER_LEN] == stream[..n];
        assert rest[n - COMMON_HEADER_LEN..] == stream[n..];
      }
    }
  }

  class NcacnNpTransport {
    const pipe: NamedPipe

    constructor (pipe: NamedPipe)
      ensures this.pipe == pipe
    {
      this.pipe := pipe;
    }

    function State(): Wire
      reads pipe
    {
      Wire(Pipe(pipe.input), pipe.writes, pipe.faults)
    }

    method SendPdu(bytes: seq<byte>) returns (r: Result<()>)
      modifies pipe
      ensures Stepped(State(), r) == SendOn(old(State()), bytes)
      ensures old(pipe.output) <= pipe.output <= old(pipe.output) + bytes
      ensures r.Success? ==> pipe.output == old(pipe.output) + bytes
      ensures old(pipe.output) == Flatten(old(pipe.writes)) ==>
                r.Success? ==> pipe.output == Flatten(pipe.writes)
    {
      FlattenAppend(pipe.writes, [bytes]);
      assert Flatten([bytes]) == bytes;
      r := pipe.WriteAll(bytes);
    }

    /** Reads a common header into its own buffer. */
    method ReadHeader() returns (r: Result<seq<byte>>)
      modifies pipe`input
      ensures |old(pipe.input)| < COMMON_HEADER_LEN ==>
                pipe.input == [] && r == Failure(Transport("pipe has no queued bytes"))
      ensures |old(pipe.input)| >= COMMON_HEADER_LEN ==>
                && r == Success(old(pipe.input)[..COMMON_HEADER_LEN])
                && pipe.input == old(pipe.input)[COMMON_HEADER_LEN..]
    {
      var buffer := new byte[COMMON_HEADER_LEN](_ => 0);
      assert buffer[..0] == [];
      var read := pipe.ReadExact(buffer, 0);
      if read.Failure? {
        return Failure(read.error);
      }
      assert buffer[..] == [] + old(pipe.input)[..COMMON_HEADER_LEN];
      return Success(buffer[..]);
    }

    /** Reads the rest of a fragment behind its header into one buffer. */
    method ReadBody(header: seq<byte>, fragLength: nat) returns (r: Result<seq<byte>>)
      requires |header| == COMMON_HEADER_LEN <= fragLength
      modifies pipe`input
      ensures |old(pipe.input)| < fragLength - COMMON_HEADER_LEN ==>
                pipe.input == [] && r == Failure(Transport("pipe has no queued bytes"))
      ensures |old(pipe.input)| >= fragLength - COMMON_HEADER_LEN ==>
                && r == Success(header + old(pipe.input)[..fragLength - COMMON_HEADER_LEN])
                && pipe.input == old(pipe.input)[fragLength - COMMON_HEADER_LEN..]
    {
      var buffer := new byte[fragLength](i => if 0 <= i < |header| then header[i] else 0);
      assert buffer[..COMMON_HEADER_LEN] == header;
      var read := pipe.ReadExact(buffer, COMMON_HEADER_LEN);
      if read.Failure? {
        return Failure(read.error);
      }
      return Success(buffer[..]);
    }

    method RecvPdu() returns (r: Result<seq<byte>>)
      modifies pipe
      ensures Received(State().incoming, r) == Receive(old(State().incoming))
      ensures State() == old(State()).(incoming := State().incoming) && pipe.output == old(pipe.output)
    {
      hide DecodeHeader, FrameFrom;
      FrameReads(pipe.input);
      var headerBytes :- ReadHeader();
      var header :- DecodeHeader(headerBytes);
      var fragLength: nat := header.fragLength;
      if fragLength < COMMON_HEADER_LEN {
        return Failure(InvalidPdu("fragment length is smaller than common header"));
      }
      r := ReadBody(headerBytes, fragLength);
    }
  }
}
