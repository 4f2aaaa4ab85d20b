/** The bytes of each field type, in the terms of the Protocol Buffers encoding: what the encoder writes for a value and
    what the decoder makes of any bytes (pb_encode.c, pb_decode.c). */
module ProtoBytes {
  import opened Options
  import opened Bytes
  import opened Varints
  import opened ProtoWire
  import opened WireFormat
  import opened ProtoMessages

  // ----- signed numbers -----

  /** 0, -1, 1, -2, 2 are written as 0, 1, 2, 3, 4. */
  lemma ZigzagIs(v: int)
    requires FitsSigned(v, W64)
    ensures Zigzag(v) == if v >= 0 then 2 * v else -2 * v - 1
  {
    if v < 0 { assert 2 * ToUnsigned64(v) % TWO64 == 2 * v + TWO64; }
  }

  lemma UnzigzagIs(u: nat)
    requires u < TWO64
    ensures Unzigzag(u) == if u % 2 == 0 then u / 2 else -(u / 2) - 1
  {
    SameWidthAs(u / 2, W64);
    if u % 2 == 1 { assert (TWO64 - 1 - u / 2) % TWO64 == TWO64 - 1 - u / 2; }
  }

  /** Two's complement. */
  function Complement(v: int, span: nat): int {
    if v >= 0 then v else v + span
  }

  /** The signed number of a word. */
  function AsSigned(u: int, span: nat): int {
    if 2 * u < span then u else u - span
  }

  lemma SameWidthAs(u: nat, w: Width)
    requires u < Span(w)
    ensures ToSigned(u, w) == AsSigned(u, Span(w))
  {
    SmallMod(u, Span(w));
  }

  // ----- what is written -----

  function WireNumber(s: Scalar, v: Value): int
    requires ScalarOk(s, v)
  {
    match s
    case Bool => if v.b then 1 else 0
    case Signed(_) => Complement(v.i, TWO64)
    case Zigzagged(_) => if v.i >= 0 then 2 * v.i else -2 * v.i - 1
    case _ => v.i
  }

  /** A varint field: one varint, whose digits are the number. */
  lemma VarintField(s: Scalar, v: Value)
    requires ScalarOk(s, v) && !s.Fixed32? && !s.Fixed64?
    ensures var b := EncScalar(s, v);
            IsVarint(b) && Digits(b) == WireNumber(s, v) && (|b| > 1 ==> b[|b| - 1] != 0)
  {
    match s
    case Bool => VarintIs(if v.b then 1 else 0);
    case Signed(w) => VarintIs(ToUnsigned64(v.i));
    case Unsigned(w) => VarintIs(v.i);
    case Zigzagged(w) =>
      ZigzagIs(v.i);
      VarintIs(Zigzag(v.i));
  }

  /** Small numbers of either sign take one byte as sint32 or sint64. */
  lemma SmallSint(w: Width, v: Value)
    requires ScalarOk(Zigzagged(w), v)
    ensures |EncScalar(Zigzagged(w), v)| == 1 <==> -64 <= v.i < 64
  {
    ZigzagIs(v.i);
  }

  /** A fixed field: four or eight bytes, lowest first. */
  lemma FixedField(s: Scalar, v: Value, i: nat)
    requires ScalarOk(s, v) && (s.Fixed32? || s.Fixed64?) && i < if s.Fixed32? then 4 else 8
    ensures var b := EncScalar(s, v);
            |b| == (if s.Fixed32? then 4 else 8) && b[i] == v.i / Pow256(i) % 256
  {
    LittleAt(v.i, if s.Fixed32? then 4 else 8, i);
  }

  /** The wire types of the field types. */
  lemma WireTypes()
    ensures forall s: Scalar :: s.Bool? || s.Signed? || s.Unsigned? || s.Zigzagged? ==> WireType(Type.Scalar(s)) == 0
    ensures WireType(Type.Scalar(Fixed64)) == 1 && WireType(Type.Scalar(Fixed32)) == 5
    ensures forall t: Type :: t.Bytes? || t.String? || t.FixedBytes? || t.Submessage? ==> WireType(t) == 2
  {
  }

  /** A key: the tag above three bits for the wire type, in one byte for tags below 16. */
  lemma KeyIs(tag: nat, wireType: nat)
    requires wireType < 8
    ensures IsVarint(Key(tag, wireType)) && Digits(Key(tag, wireType)) == 8 * tag + wireType
    ensures tag < 16 ==> Key(tag, wireType) == [8 * tag + wireType]
  {
    VarintIs(8 * tag + wireType);
  }

  /** A length and that many bytes. */
  lemma DelimitedIs(b: seq<Byte>)
    ensures var d, n := Delimited(b), |Delimited(b)| - |b|;
            n > 0 && IsVarint(d[..n]) && Digits(d[..n]) == |b| && d[n..] == b
  {
    VarintIs(|b|);
    var n := |Delimited(b)| - |b|;
    assert Delimited(b)[..n] == Varint(|b|);
  }

  // ----- what is left out -----

  lemma TaggedIsThere(f: Field, v: Value)
    requires ValueOk(f.t, v)
    ensures EncTagged(f, v) != []
  {
    assert Key(f.tag, WireType(f.t)) != [];
  }

  lemma SlotOmitted(f: Field, slot: Slot)
    requires SlotOk(f, slot)
    ensures EncSlot(f, slot) == [] <==> SlotDefault(f, slot)
  {
    match f.rule
    case Repeated(_) =>
      if slot.vs != [] {
        if f.t.Scalar? { assert Key(f.tag, 2) != []; } else { TaggedIsThere(f, slot.vs[0]); }
      }
    case Required => TaggedIsThere(f, slot.v);
    case Singular => TaggedIsThere(f, slot.v);
    case _ => if slot.has { TaggedIsThere(f, slot.v); }
  }

  lemma {:induction false} MessageOmitted(mt: MessageType, m: Message, k: nat)
    requires MessageOk(mt, m) && k <= |mt.fields|
    ensures EncFrom(mt, m, k) == [] <==> AllDefault(mt, m.slots, k)
    decreases |mt.fields| - k
  {
    if k < |mt.fields| {
      SlotOmitted(mt.fields[k], m.slots[k]);
      MessageOmitted(mt, m, k + 1);
    }
  }

  /** A proto3 field is left out exactly if it is false, zero or empty; a submessage if nothing would be written for
      it. */
  lemma OmittedIff(f: Field, v: Value)
    requires f.rule.Singular? && ValueOk(f.t, v)
    ensures EncSlot(f, One(v)) == []
       <==> if f.t.Scalar? then v == B(false) || v == I(0)
            else if f.t.Submessage? then Encoded(f.t.m, v.m) == []
            else if f.t.FixedBytes? then f.t.n == 0
            else v.s == []
  {
    SlotOmitted(f, One(v));
    if f.t.Submessage? { MessageOmitted(f.t.m, v.m, 0); }
  }

  // ----- what is read -----

  /** The number that a varint stands for in a field, or none if it is too large for it. */
  function Meant(s: Scalar, u: nat): Option<int> {
    match s
    case Unsigned(w) => if u < Span(w) then Some(u) else None
    case Signed(w) =>
      if w == W64 then Some(AsSigned(u, TWO64))
      else
        var v := AsSigned(u % TWO32, TWO32);
        if FitsSigned(v, w) then Some(v) else None
    case Zigzagged(w) =>
      var v := if u % 2 == 0 then u / 2 else -(u / 2) - 1;
      if FitsSigned(v, w) then Some(v) else None
    case _ => None
  }

  lemma CastIsRange(v: int, w: Width)
    ensures ToSigned(v, w) == v <==> FitsSigned(v, w)
  {
    var span := Span(w);
    if FitsSigned(v, w) {
      if v < 0 { assert v % span == v + span; } else { assert v % span == v; }
    }
  }

  lemma NarrowIs(s: Scalar, u: nat)
    requires u < TWO64 && (s.Signed? || s.Unsigned? || s.Zigzagged?)
    ensures Narrow(s, u) == if Meant(s, u).Some? then Ok(I(Meant(s, u).value)) else Err(IntegerTooLarge)
  {
    match s
    case Unsigned(w) =>
      if u < Span(w) { SmallMod(u, Span(w)); }
    case Signed(w) =>
      if w == W64 {
        SameWidthAs(u, W64);
      } else {
        SameWidthAs(u % TWO32, W32);
        assert ToSigned(u, W32) == ToSigned(u % TWO32, W32);
      }
      CastIsRange(if w == W64 then ToSigned(u, W64) else ToSigned(u, W32), w);
    case Zigzagged(w) =>
      UnzigzagIs(u);
      CastIsRange(Unzigzag(u), w);
  }

  /** A number field reads any varint of at most ten bytes, and rejects what does not fit. */
  lemma NumberReads(s: Scalar, b: seq<Byte>, rest: seq<Byte>)
    requires s.Signed? || s.Unsigned? || s.Zigzagged?
    requires IsVarint(b)
    ensures var r, meant := DecScalar(s, b + rest), Meant(s, Digits(b) % TWO64);
            if |b| > 10 then r == Err(VarintOverflow)
            else if meant.None? then r == Err(IntegerTooLarge)
            else r == Ok(Parsed(I(meant.value), rest))
  {
    Varint64Reads(b, rest);
    NarrowIs(s, Digits(b) % TWO64);
  }

  /** A bool reads any varint of 32 bits, and is true if it is not zero. */
  lemma BoolReads(b: seq<Byte>, rest: seq<Byte>)
    requires IsVarint(b) && |b| <= 5
    ensures DecScalar(Bool, b + rest)
         == if |b| == 5 && b[4] >= 16 then Err(VarintOverflow) else Ok(Parsed(B(Digits(b) != 0), rest))
  {
    ShortReads(b, rest);
  }

  /** A fixed field reads any word. */
  lemma FixedReads(s: Scalar, b: seq<Byte>, rest: seq<Byte>)
    requires (s.Fixed32? && |b| == 4) || (s.Fixed64? && |b| == 8)
    ensures var r := DecScalar(s, b + rest);
            && r.Ok? && r.value.rest == rest && r.value.value.I? && ScalarOk(s, r.value.value)
            && forall i | 0 <= i < |b| :: b[i] == r.value.value.i / Pow256(i) % 256
  {
    assert (b + rest)[..|b|] == b && (b + rest)[|b|..] == rest;
    LittleOfBytes(b);
    assert Pow256(4) == TWO32 && Pow256(8) == TWO64;
    forall i | 0 <= i < |b| ensures b[i] == FromLittle(b) / Pow256(i) % 256 {
      LittleAt(FromLittle(b), |b|, i);
    }
  }
}
