/** Varints, zigzag integers and fixed-width words of the protocol buffer wire format, as nanopb writes and reads
    them (pb_encode.c, pb_decode.c).  Bytes and words are integers; shifts and casts are written out as arithmetic. */
module ProtoWire {
  import opened Bytes
  import opened Varints

  datatype Error =
    | EndOfStream | VarintOverflow | IntegerTooLarge | BytesOverflow | StringOverflow | IncorrectFixedLength
    | ParentTooShort | ArrayOverflow | InvalidWireType | MissingRequiredField

  datatype Result<+T> = Ok(value: T) | Err(error: Error)

  // ----- writing varints -----

  /** The buffer holds the low digits of `value`, each with its top bit set, and `v` is what is left. */
  ghost predicate Filled(value: nat, buffer: seq<Byte>, v: nat) {
    if v > 0 then Varint(value) == buffer + Varint(v)
    else buffer != [] && Varint(value) == buffer[..|buffer| - 1] + [buffer[|buffer| - 1] % 128]
  }

  lemma FillOne(value: nat, buffer: seq<Byte>, v: nat)
    requires Filled(value, buffer, v) && v > 0
    ensures Filled(value, buffer + [v % 128 + 128], v / 128)
  {
    var next := buffer + [v % 128 + 128];
    assert next[..|next| - 1] == buffer;
    if v >= 128 { assert buffer + ([128 + v % 128] + Varint(v / 128)) == next + Varint(v / 128); }
  }

  /** pb_encode_varint: the ten bytes of its buffer are enough for any 64-bit value. */
  method EncodeVarint(value: nat) returns (buffer: seq<Byte>)
    ensures buffer == Varint(value)
    ensures value < TWO64 ==> |buffer| <= 10
  {
    TenBytes(value);
    if value <= 127 {
      buffer := [value];
    } else {
      var v: nat := value;
      buffer := [];
      while v != 0
        invariant Filled(value, buffer, v)
      {
        FillOne(value, buffer, v);
        buffer := buffer + [v % 128 + 128];
        v := v / 128;
      }
      buffer := buffer[..|buffer| - 1] + [buffer[|buffer| - 1] % 128];
    }
  }

  // ----- reading varints -----

  /** pb_decode_varint: seven bits of each byte; bits beyond the 64th fall away, an eleventh byte is an error. */
  function Loop64(): Loop {
    PlainLoop(TWO64, 64)
  }

  function ToResult(o: Outcome): Result<Parsed<nat>> {
    match o
    case Got(value, rest) => Ok(Parsed(value, rest))
    case TooLong(_) => Err(VarintOverflow)
    case CutShort => Err(EndOfStream)
  }

  function ReadVarint(input: seq<Byte>): (r: Result<Parsed<nat>>)
    ensures r.Ok? ==> |r.value.rest| < |input|
  {
    ToResult(ReadLoop(Loop64(), input, 0, 0))
  }

  lemma VarintRoundTrip(v: nat, rest: seq<Byte>)
    requires v < TWO64
    ensures ReadVarint(Varint(v) + rest) == Ok(Parsed(v, rest))
  {
    WordSizes();
    PlainRoundTrip(TWO64, 64, v, rest);
  }

  /** pb_decode_varint32 after its first byte.  The bit position lives in eight bits; bytes past the 32nd bit must be
      zero or the sign extension of a negative number. */
  function Turn32(b: Byte, bitpos: nat, result: nat): Turn {
    var extension := if bitpos < 63 then 255 else 1;
    if bitpos >= 32 && b % 128 != 0 && (result < TWO31 || b != extension) then Overflow
    else
      var result' := if bitpos >= 32 then result else OrBits(result, b % 128, bitpos) % TWO32;
      var bitpos' := (bitpos + 7) % 256;
      if b >= 128 then More(result', bitpos')
      else if bitpos' == 35 && b / 16 % 8 != 0 then Overflow
      else Last(result')
  }

  const LOOP32: Loop := Loop(Turn32, 256)

  function ReadVarint32(input: seq<Byte>): (r: Result<Parsed<nat>>)
    ensures r.Ok? ==> |r.value.rest| < |input|
  {
    ToResult(ReadQuick(LOOP32, input))
  }

  /** The quick case of a single byte, else the loop. */
  function ReadQuick(loop: Loop, input: seq<Byte>): (r: Outcome)
    ensures r.Got? ==> |r.rest| < |input|
  {
    if input == [] then CutShort
    else if input[0] < 128 then Got(input[0], input[1..])
    else ReadLoop(loop, input[1..], 7, input[0] % 128)
  }

  lemma ReadQuickVarint(loop: Loop, v: nat, rest: seq<Byte>)
    ensures ReadQuick(loop, Varint(v) + rest)
            == if v < 128 then Got(v, rest) else ReadLoop(loop, Varint(v / 128) + rest, 7, v % 128)
  {
    var input := Varint(v) + rest;
    assert input[1..] == if v < 128 then rest else Varint(v / 128) + rest;
  }

  /** The positions of the second to fifth byte. */
  predicate Position32(bitpos: nat) {
    bitpos % 7 == 0 && 0 < bitpos < 32
  }

  lemma NotYet32(bitpos: nat, p: nat)
    requires Position32(bitpos) && p == Pow2(bitpos) && 128 * p < TWO32
    ensures Position32(bitpos + 7) && 128 * p == Pow2(bitpos + 7)
  {
    SevenBits(bitpos);
    WordSizes();
    if bitpos + 7 >= 32 { Pow2Grows(32, bitpos + 7); }
  }

  /** Only the low four bits of a fifth byte fit. */
  lemma FifthByte(bits: nat, bitpos: nat, p: nat)
    requires p == Pow2(bitpos) && bits * p < TWO32
    ensures bitpos == 28 ==> bits < 16
  {
    WordSizes();
    Times(16, if bits < 16 then 16 else bits, p);
  }

  lemma Turn32Of(b: Byte, bitpos: nat, p: nat, result: nat)
    requires Position32(bitpos) && p == Pow2(bitpos) && result < p && Total(result, b % 128, p) < TWO32
    ensures var r := Total(result, b % 128, p);
            Turn32(b, bitpos, result) == if b >= 128 then More(r, bitpos + 7) else Last(r)
  {
    OrIsSum(result, b % 128, bitpos);
    FifthByte(b % 128, bitpos, p);
    Turn32Sum(b, bitpos, result, Total(result, b % 128, p));
  }

  lemma Turn32Sum(b: Byte, bitpos: nat, result: nat, sum: nat)
    requires bitpos < 32 && OrBits(result, b % 128, bitpos) == sum < TWO32 && (bitpos == 28 ==> b % 128 < 16)
    ensures Turn32(b, bitpos, result) == if b >= 128 then More(sum, bitpos + 7) else Last(sum)
  {
    SmallMod(sum, TWO32);
    SmallMod(bitpos + 7, 256);
    NoHighBits(b);
  }

  lemma NoHighBits(b: Byte)
    ensures b < 128 && b % 128 < 16 ==> b / 16 % 8 == 0
  {
  }

  lemma {:induction false} Varint32RoundTripFrom(v: nat, rest: seq<Byte>, bitpos: nat, p: nat, result: nat)
    requires Position32(bitpos) && p == Pow2(bitpos) && result < p && Total(result, v, p) < TWO32
    ensures ReadLoop(LOOP32, Varint(v) + rest, bitpos, result) == Got(Total(result, v, p), rest)
    decreases v
  {
    var b := if v < 128 then v else 128 + v % 128;
    TotalSplits(result, v, p);
    Turn32Of(b, bitpos, p, result);
    ReadLoopVarint(LOOP32, v, rest, bitpos, result);
    if v >= 128 {
      NotYet32(bitpos, p);
      Varint32RoundTripFrom(v / 128, rest, bitpos + 7, 128 * p, Total(result, v % 128, p));
    }
  }

  /** A 32-bit value written as a 64-bit varint is read back by the 32-bit reader. */
  lemma Varint32RoundTrip(v: nat, rest: seq<Byte>)
    requires v < TWO32
    ensures ReadVarint32(Varint(v) + rest) == Ok(Parsed(v, rest))
  {
    ReadQuickVarint(LOOP32, v, rest);
    SecondByte(v, rest, 7, 128);
  }

  lemma SecondByte(v: nat, rest: seq<Byte>, bitpos: nat, p: nat)
    requires bitpos == 7 && p == 128 && v < TWO32
    ensures ReadLoop(LOOP32, Varint(v / 128) + rest, bitpos, v % 128) == Got(v, rest)
  {
    SevenBits(0);
    assert v == Total(v % 128, v / 128, p);
    Varint32RoundTripFrom(v / 128, rest, bitpos, p, v % 128);
  }

  // ----- signed integers -----

  /** The integer widths that a field descriptor can name. */
  datatype Width = W8 | W16 | W32 | W64

  function Span(w: Width): (r: nat)
    ensures r % 2 == 0 && r >= 256
  {
    match w
    case W8 => 256
    case W16 => 65536
    case W32 => TWO32
    case W64 => TWO64
  }

  predicate FitsSigned(v: int, w: Width) {
    -(Span(w) / 2) <= v < Span(w) / 2
  }

  /** The cast from 64 unsigned bits to a signed integer of that width. */
  function ToSigned(u: int, w: Width): (v: int)
    ensures FitsSigned(v, w)
  {
    var low := u % Span(w);
    if low < Span(w) / 2 then low else low - Span(w)
  }

  /** The cast of a signed integer to 64 unsigned bits. */
  function ToUnsigned64(v: int): (u: nat)
    requires FitsSigned(v, W64)
    ensures u < TWO64
  {
    if v < 0 then v + TWO64 else v
  }

  /** pb_encode_svarint: the shifted value, complemented when negative. */
  function Zigzag(v: int): (u: nat)
    requires FitsSigned(v, W64)
    ensures u < TWO64
  {
    var shifted := 2 * ToUnsigned64(v) % TWO64;
    if v < 0 then TWO64 - 1 - shifted else shifted
  }

  /** pb_decode_svarint. */
  function Unzigzag(u: nat): (v: int)
    ensures FitsSigned(v, W64)
  {
    if u % 2 == 1 then ToSigned(TWO64 - 1 - u / 2, W64) else ToSigned(u / 2, W64)
  }

  lemma ZigzagRoundTrip(v: int)
    requires FitsSigned(v, W64)
    ensures Unzigzag(Zigzag(v)) == v
  {
    if v < 0 {
      assert 2 * ToUnsigned64(v) % TWO64 == 2 * v + TWO64;
      assert Zigzag(v) == -2 * v - 1;
    } else {
      assert Zigzag(v) == 2 * v;
    }
  }
}
