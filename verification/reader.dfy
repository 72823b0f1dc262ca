/**
 The byte cursor of the XSVF player: fields are taken from a flat byte
 stream starting at a position, and each read reports where the next
 field starts.

 Unlike the firmware, which dereferences its pointer without any check,
 every read here is bounds-checked: a field that does not fit in the
 stream yields `OutOfData` instead of whatever lies past the buffer.
 */
module Reader {
  import opened Jtag

  /** The result of reading one field: its value and the position just
      after it, or the report that the stream ended first. */
  datatype Read<T> = Got(value: T, next: nat) | OutOfData

  /** read_u8: one raw byte. */
  function ReadU8(s: seq<byte>, pos: nat): (r: Read<byte>)
    ensures r.Got? <==> pos < |s|
    ensures r.Got? ==> r.next == pos + 1 && r.value == s[pos]
  {
    if pos < |s| then Got(s[pos], pos + 1) else OutOfData
  }

  /** read_state: one byte reinterpreted as a TAP state, with no check
      that it names a real state. */
  function ReadState(s: seq<byte>, pos: nat): (r: Read<State>)
    ensures r.Got? <==> ReadU8(s, pos).Got?
    ensures r.Got? ==> r.next == ReadU8(s, pos).next
    ensures r.Got? ==> r.value.code == ReadU8(s, pos).value
  {
    match ReadU8(s, pos)
    case OutOfData => OutOfData
    case Got(b, next) => Got(State(b), next)
  }

  /** The value of four bytes read as a big-endian number. */
  function BigEndian(b0: byte, b1: byte, b2: byte, b3: byte): int {
    b0 as int * 0x100_0000 + b1 as int * 0x1_0000 + b2 as int * 0x100 + b3 as int
  }

  /** One step of read_u32's accumulator on a 32-bit word: shift left by
      a byte, losing the bits pushed past bit 31, then OR the next byte
      into the eight low bits the shift cleared, which is adding it. */
  function ShiftIn(acc: u32, b: byte): (r: u32)
    ensures acc < 0x100_0000 ==> r == acc * 0x100 + b
  {
    (acc * 0x100) % 0x1_0000_0000 + b
  }

  /** read_u32's accumulation of four bytes, most significant first: the
      shifts never lose a bit, and the word is the big-endian value. */
  function Pack(b0: byte, b1: byte, b2: byte, b3: byte): (w: u32)
    ensures w == BigEndian(b0, b1, b2, b3)
  {
    ShiftIn(ShiftIn(ShiftIn(b0, b1), b2), b3)
  }

  /** read_u32: four bytes taken one at a time and packed big-endian. */
  function ReadU32(s: seq<byte>, pos: nat): (r: Read<u32>)
    ensures r.Got? <==> pos + 4 <= |s|
    ensures r.Got? ==> r.next == pos + 4
    ensures r.Got? ==> r.value == BigEndian(s[pos], s[pos + 1], s[pos + 2], s[pos + 3])
  {
    match ReadU8(s, pos)
    case OutOfData => OutOfData
    case Got(b0, p1) =>
      match ReadU8(s, p1)
      case OutOfData => OutOfData
      case Got(b1, p2) =>
        match ReadU8(s, p2)
        case OutOfData => OutOfData
        case Got(b2, p3) =>
          match ReadU8(s, p3)
          case OutOfData => OutOfData
          case Got(b3, p4) => Got(Pack(b0, b1, b2, b3), p4)
  }

  /** read_bits: a vector of `count` bits starting at the cursor; the
      cursor moves past the whole bytes that carry them. */
  function ReadBits(s: seq<byte>, pos: nat, count: nat): (r: Read<Bits>)
    ensures r.Got? <==> pos + ByteCount(count) <= |s|
    ensures r.Got? ==> r.value.count == count && WellSized(r.value)
    ensures r.Got? ==> r.next == pos + |r.value.data| && r.value.data == s[pos .. r.next]
    ensures r.Got? && count == 0 ==> r.next == pos && r.value == NoBits
  {
    var n := ByteCount(count);
    if pos + n <= |s| then Got(Bits(count, s[pos .. pos + n]), pos + n) else OutOfData
  }

  /** The four big-endian bytes of a 32-bit word: what read_u32 expects
      to find in the stream. */
  function EncodeU32(x: u32): (bytes: seq<byte>)
    ensures |bytes| == 4
  {
    [x / 0x100_0000, (x / 0x1_0000) % 0x100, (x / 0x100) % 0x100, x % 0x100]
  }

  /** Splitting a word into its four bytes and putting them back
      together gives the word. */
  lemma BigEndianOfEncoding(x: u32)
    ensures var e := EncodeU32(x); BigEndian(e[0], e[1], e[2], e[3]) == x
  {
    var a := x / 0x100;
    var b := a / 0x100;
    assert x == a * 0x100 + x % 0x100;
    assert a == b * 0x100 + a % 0x100;
    assert b == (b / 0x100) * 0x100 + b % 0x100;
    assert b == x / 0x1_0000;
    assert b / 0x100 == x / 0x100_0000;
  }

  /** Encoding a big-endian value gives back its four bytes. */
  lemma EncodingOfBigEndian(b0: byte, b1: byte, b2: byte, b3: byte)
    requires BigEndian(b0, b1, b2, b3) < 0x1_0000_0000
    ensures EncodeU32(BigEndian(b0, b1, b2, b3)) == [b0, b1, b2, b3]
  {
    var x := BigEndian(b0, b1, b2, b3);
    assert x / 0x100_0000 == b0 by {
      var low := b1 as int * 0x1_0000 + b2 as int * 0x100 + b3 as int;
      assert 0 <= low < 0x100_0000 && x == b0 as int * 0x100_0000 + low;
    }
    assert x / 0x1_0000 == b0 as int * 0x100 + b1 as int by {
      var low := b2 as int * 0x100 + b3 as int;
      assert 0 <= low < 0x1_0000 && x == (b0 as int * 0x100 + b1 as int) * 0x1_0000 + low;
    }
    assert x / 0x100 == (b0 as int * 0x100 + b1 as int) * 0x100 + b2 as int by {
      assert x == ((b0 as int * 0x100 + b1 as int) * 0x100 + b2 as int) * 0x100 + b3 as int;
    }
  }

  /** read_u32 recovers any word from its big-endian encoding, wherever
      in the stream the encoding sits. */
  lemma ReadU32Encoded(s: seq<byte>, pos: nat, x: u32)
    requires pos + 4 <= |s| && s[pos .. pos + 4] == EncodeU32(x)
    ensures ReadU32(s, pos) == Got(x, pos + 4)
  {
    var e := EncodeU32(x);
    assert s[pos] == e[0] && s[pos + 1] == e[1] && s[pos + 2] == e[2] && s[pos + 3] == e[3];
    BigEndianOfEncoding(x);
  }

  /** Conversely, the word read_u32 returns re-encodes to exactly the four
      bytes it consumed. */
  lemma ReadU32Consumed(s: seq<byte>, pos: nat)
    requires ReadU32(s, pos).Got?
    ensures EncodeU32(ReadU32(s, pos).value) == s[pos .. pos + 4]
  {
    EncodingOfBigEndian(s[pos], s[pos + 1], s[pos + 2], s[pos + 3]);
  }

  /** read_bits gives back any well-sized vector whose bytes sit at the
      cursor, and moves past exactly those bytes. */
  lemma ReadBitsEncoded(s: seq<byte>, pos: nat, b: Bits)
    requires WellSized(b)
    requires pos + |b.data| <= |s| && s[pos .. pos + |b.data|] == b.data
    ensures ReadBits(s, pos, b.count) == Got(b, pos + |b.data|)
  {
  }

  /** The byte count is the least number of bytes that hold the bits:
      one byte fewer would not do. */
  lemma ByteCountIsLeast(count: nat, n: nat)
    requires n * 8 >= count
    ensures ByteCount(count) <= n
  {
  }
}
