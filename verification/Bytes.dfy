/** Machine integers as the wire sees them, and their two byte orders. */
module Bytes {
  type byte = x: int | 0 <= x < 0x100
  type u16 = x: int | 0 <= x < 0x1_0000
  type u32 = x: int | 0 <= x < 0x1_0000_0000

  datatype ByteOrder = Little | Big

  function U16Bytes(value: u16, order: ByteOrder): (bytes: seq<byte>)
    ensures |bytes| == 2
  {
    match order
    case Little => [value % 0x100, value / 0x100]
    case Big => [value / 0x100, value % 0x100]
  }

  function U32Bytes(value: u32, order: ByteOrder): (bytes: seq<byte>)
    ensures |bytes| == 4
  {
    var low, high := value % 0x1_0000, value / 0x1_0000;
    match order
    case Little => U16Bytes(low, Little) + U16Bytes(high, Little)
    case Big => U16Bytes(high, Big) + U16Bytes(low, Big)
  }

  function ReadU16(bytes: seq<byte>, order: ByteOrder): (value: u16)
    requires |bytes| >= 2
  {
    match order
    case Little => bytes[0] as int + bytes[1] as int * 0x100
    case Big => bytes[1] as int + bytes[0] as int * 0x100
  }

  function ReadU32(bytes: seq<byte>, order: ByteOrder): (value: u32)
    requires |bytes| >= 4
  {
    var first, second := ReadU16(bytes[..2], order) as int, ReadU16(bytes[2..4], order) as int;
    match order
    case Little => first + second * 0x1_0000
    case Big => second + first * 0x1_0000
  }

  lemma U16RoundTrip(value: u16, order: ByteOrder, rest: seq<byte>)
    ensures ReadU16(U16Bytes(value, order) + rest, order) == value
  {
  }

  lemma U32RoundTrip(value: u32, order: ByteOrder, rest: seq<byte>)
    ensures ReadU32(U32Bytes(value, order) + rest, order) == value
  {
  }

  lemma SplitU16(low: byte, high: byte)
    ensures (low as int + high as int * 0x100) % 0x100 == low
    ensures (low as int + high as int * 0x100) / 0x100 == high
  {
  }

  lemma U16Reencode(bytes: seq<byte>, order: ByteOrder)
    requires |bytes| == 2
    ensures U16Bytes(ReadU16(bytes, order), order) == bytes
  {
    SplitU16(bytes[0], bytes[1]);
    SplitU16(bytes[1], bytes[0]);
    assert bytes == [bytes[0], bytes[1]];
  }

  lemma SplitU32(low: u16, high: u16)
    ensures (low + high * 0x1_0000) % 0x1_0000 == low
    ensures (low + high * 0x1_0000) / 0x1_0000 == high
  {
  }

  lemma U32Reencode(bytes: seq<byte>, order: ByteOrder)
    requires |bytes| == 4
    ensures U32Bytes(ReadU32(bytes, order), order) == bytes
  {
    hide U16Bytes, ReadU16;
    var first, second := ReadU16(bytes[..2], order), ReadU16(bytes[2..4], order);
    SplitU32(first, second);
    SplitU32(second, first);
    U16Reencode(bytes[..2], order);
    U16Reencode(bytes[2..4], order);
    assert bytes == bytes[..2] + bytes[2..4];
  }

  /** Stores a 16-bit value into a two-byte window of a buffer and touches nothing else. */
  method WriteU16(buffer: array<byte>, at: nat, value: u16, order: ByteOrder)
    requires at + 2 <= buffer.Length
    modifies buffer
    ensures buffer[..] == old(buffer[..at]) + U16Bytes(value, order) + old(buffer[at + 2..])
  {
    var encoded := U16Bytes(value, order);
    buffer[at], buffer[at + 1] := encoded[0], encoded[1];
  }

  /** Stores a 32-bit value into a four-byte window of a buffer and touches nothing else. */
  method WriteU32(buffer: array<byte>, at: nat, value: u32, order: ByteOrder)
    requires at + 4 <= buffer.Length
    modifies buffer
    ensures buffer[..] == old(buffer[..at]) + U32Bytes(value, order) + old(buffer[at + 4..])
  {
    var encoded := U32Bytes(value, order);
    buffer[at], buffer[at + 1] := encoded[0], encoded[1];
    buffer[at + 2], buffer[at + 3] := encoded[2], encoded[3];
  }

  function Zeros(n: nat): (bytes: seq<byte>)
    ensures |bytes| == n
  {
    seq(n, _ => 0)
  }

  /** The concatenation of a sequence of byte strings. */
  function Flatten(parts: seq<seq<byte>>): (bytes: seq<byte>) {
    if parts == [] then [] else parts[0] + Flatten(parts[1..])
  }

  lemma {:induction false} FlattenAppend(a: seq<seq<byte>>, b: seq<seq<byte>>)
    ensures Flatten(a + b) == Flatten(a) + Flatten(b)
  {
    if a == [] {
      assert a + b == b;
    } else {
      assert (a + b)[0] == a[0] && (a + b)[1..] == a[1..] + b;
      FlattenAppend(a[1..], b);
      assert a[0] + (Flatten(a[1..]) + Flatten(b)) == a[0] + Flatten(a[1..]) + Flatten(b);
    }
  }
}
