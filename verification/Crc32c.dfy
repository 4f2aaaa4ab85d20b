/** CRC-32C as the log uses it (util/crc32c.h, util/crc32c.cc), one bit at a time, and little-endian words
    (util/coding.cc). */
module Crc32c {
  import opened Bytes
  import opened Strides

  type Word = bv32

  const ONES: Word := 0xffff_ffff
  const POLYNOMIAL: Word := 0x82f6_3b78
  const MASK_DELTA: Word := 0xa282_ead8

  /** Division by the polynomial: one bit, and eight of them. */
  function ShiftBit(l: Word): Word {
    if l & 1 == 1 then (l >> 1) ^ POLYNOMIAL else l >> 1
  }

  function ShiftByte(l: Word): Word {
    Four(ShiftBit, Four(ShiftBit, l))
  }

  function Xor(a: Word, b: Word): Word {
    a ^ b
  }

  /** A byte as a word. */
  function Wide(b: Byte): Word {
    b as Word
  }

  /** One byte of input. */
  function ByteStep(l: Word, b: Byte): Word {
    ShiftByte(Xor(l, Wide(b)))
  }

  function Update(step: (Word, Byte) -> Word, l: Word, data: seq<Byte>): Word
    decreases data
  {
    if data == [] then l else Update(step, step(l, data[0]), data[1..])
  }

  function Flip(l: Word): Word {
    l ^ ONES
  }

  /** The crc of A + data, given the crc of A. */
  function ExtendBy(flip: Word -> Word, step: (Word, Byte) -> Word, crc: Word, data: seq<Byte>): Word {
    flip(Update(step, flip(crc), data))
  }

  function Extend(crc: Word, data: seq<Byte>): Word {
    ExtendBy(Flip, ByteStep, crc, data)
  }

  function Value(data: seq<Byte>): Word {
    Extend(0, data)
  }

  /** Rotate right by 15 bits and add a constant. */
  function Mask(crc: Word): Word {
    ((crc >> 15) | (crc << 17)) + MASK_DELTA
  }

  function Unmask(masked: Word): Word {
    var rot := masked - MASK_DELTA;
    (rot >> 17) | (rot << 15)
  }

  lemma UnmaskMask(crc: Word)
    ensures Unmask(Mask(crc)) == crc
  {
    var rot := (crc >> 15) | (crc << 17);
    assert rot + MASK_DELTA - MASK_DELTA == rot;
  }

  lemma {:induction false} UpdateConcat(step: (Word, Byte) -> Word, l: Word, a: seq<Byte>, b: seq<Byte>)
    ensures Update(step, l, a + b) == Update(step, Update(step, l, a), b)
    decreases a
  {
    if a == [] {
      assert a + b == b;
    } else {
      assert (a + b)[1..] == a[1..] + b;
      UpdateConcat(step, step(l, a[0]), a[1..], b);
    }
  }

  /** Extending the crc of `a` by `b` gives the crc of `a + b`, for any byte step. */
  lemma ExtendByConcat(flip: Word -> Word, step: (Word, Byte) -> Word, crc: Word, a: seq<Byte>, b: seq<Byte>)
    requires forall x :: flip(flip(x)) == x
    ensures ExtendBy(flip, step, ExtendBy(flip, step, crc, a), b) == ExtendBy(flip, step, crc, a + b)
  {
    UpdateConcat(step, flip(crc), a, b);
  }

  lemma FlipTwice()
    ensures forall x :: Flip(Flip(x)) == x
  {
  }

  lemma ExtendConcat(crc: Word, a: seq<Byte>, b: seq<Byte>)
    ensures Extend(Extend(crc, a), b) == Extend(crc, a + b)
  {
    FlipTwice();
    ExtendByConcat(Flip, ByteStep, crc, a, b);
  }

  // ----- little-endian 32-bit words -----

  function EncodeFixed32(n: Word): (r: seq<Byte>)
    ensures |r| == 4
  {
    Little(n as int, 4)
  }

  function DecodeFixed32(b: seq<Byte>): Word
    requires |b| == 4
  {
    LittleOfBytes(b);
    assert Pow256(4) == 0x1_0000_0000;
    FromLittle(b) as Word
  }

  lemma Fixed32RoundTrip(n: Word)
    ensures DecodeFixed32(EncodeFixed32(n)) == n
  {
    assert Pow256(4) == 0x1_0000_0000;
    LittleRoundTrip(n as int, 4);
    assert (n as int) as Word == n;
  }
}
