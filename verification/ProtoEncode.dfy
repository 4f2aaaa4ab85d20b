/** The encoder of pb_encode.c: streams that write or only count, and the field encoders that run every submessage
    twice, once to learn its size and once to write it. */
module ProtoEncode {
  import opened Bytes
  import opened Varints
  import opened ProtoWire
  import opened ProtoMessages

  datatype Failure = StreamFull | ArrayTooLong | BytesTooLong | SizeChanged

  datatype Status = Done | Failed(why: Failure)

  /** pb_ostream_t.  A sizing stream has no callback and only counts; any other appends to a buffer. */
  class OStream {
    const sizing: bool
    const max: nat
    var written: nat
    var out: seq<Byte>
    ghost const start: seq<Byte>

    /** Never more than max bytes, all of them counted, after what was in the buffer before. */
    ghost predicate Valid()
      reads this
    {
      if sizing then out == start else |out| == |start| + written && start <= out && written <= max
    }

    ghost predicate Room(n: nat)
      reads this
    {
      sizing || written + n <= max
    }

    constructor (sizing: bool, max: nat, buffer: seq<Byte>)
      ensures Valid() && this.sizing == sizing && this.max == max && written == 0 && out == buffer && start == buffer
    {
      this.sizing, this.max, this.start := sizing, max, buffer;
      written, out := 0, buffer;
    }

    /** pb_write. */
    method Write(buf: seq<Byte>) returns (s: Status)
      requires Valid()
      modifies this
      ensures Valid() && s in {Done, Failed(StreamFull)}
      ensures s.Done? <==> old(Room(|buf|))
      ensures s.Done? ==> written == old(written) + |buf| && out == if sizing then old(out) else old(out) + buf
    {
      if |buf| > 0 && !sizing {
        if written + |buf| > max {
          return Failed(StreamFull);
        }
        out := out + buf;
      }
      written := written + |buf|;
      s := Done;
      if |buf| == 0 { assert out + buf == out; }
    }

    /** pb_write with a null buffer: only sizing streams get one. */
    method Count(n: nat)
      requires Valid() && sizing
      modifies this
      ensures Valid() && written == old(written) + n && out == old(out)
    {
      written := written + n;
    }
  }

  /** What a successful encoder has done to its stream. */
  twostate predicate Appended(s: OStream, b: seq<Byte>)
    reads s
  {
    s.written == old(s.written) + |b| && s.out == if s.sizing then old(s.out) else old(s.out) + b
  }

  /** pb_encode_varint. */
  method WriteVarint(stream: OStream, v: nat) returns (s: Status)
    requires stream.Valid()
    modifies stream
    ensures stream.Valid() && s in {Done, Failed(StreamFull)}
    ensures s.Done? <==> old(stream.Room(|Varint(v)|))
    ensures s.Done? ==> Appended(stream, Varint(v))
  {
    var buffer := EncodeVarint(v);
    s := stream.Write(buffer);
  }

  /** pb_encode_tag. */
  method WriteKey(stream: OStream, tag: nat, wireType: nat) returns (s: Status)
    requires stream.Valid()
    modifies stream
    ensures stream.Valid() && s in {Done, Failed(StreamFull)}
    ensures s.Done? <==> old(stream.Room(|Key(tag, wireType)|))
    ensures s.Done? ==> Appended(stream, Key(tag, wireType))
  {
    s := WriteVarint(stream, 8 * tag + wireType);
  }

  /** pb_encode_string. */
  method WriteDelimited(stream: OStream, b: seq<Byte>) returns (s: Status)
    requires stream.Valid()
    modifies stream
    ensures stream.Valid() && s in {Done, Failed(StreamFull)}
    ensures s.Done? <==> old(stream.Room(|Delimited(b)|))
    ensures s.Done? ==> Appended(stream, Delimited(b))
  {
    s := WriteVarint(stream, |b|);
    if s.Done? {
      s := stream.Write(b);
    }
  }

  /** pb_enc_bool, pb_enc_varint, pb_enc_uvarint, pb_enc_svarint, pb_enc_fixed32 and pb_enc_fixed64. */
  method WriteScalar(stream: OStream, t: Scalar, v: Value) returns (s: Status)
    requires stream.Valid() && ScalarOk(t, v)
    modifies stream
    ensures stream.Valid() && s in {Done, Failed(StreamFull)}
    ensures s.Done? <==> old(stream.Room(|EncScalar(t, v)|))
    ensures s.Done? ==> Appended(stream, EncScalar(t, v))
  {
    match t
    case Bool => s := WriteVarint(stream, if v.b then 1 else 0);
    case Signed(w) => s := WriteVarint(stream, ToUnsigned64(v.i));
    case Unsigned(w) => s := WriteVarint(stream, v.i);
    case Zigzagged(w) => s := WriteVarint(stream, Zigzag(v.i));
    case Fixed32 => s := stream.Write(Little(v.i, 4));
    case Fixed64 => s := stream.Write(Little(v.i, 8));
  }

  lemma ItemsSplit(t: Scalar, vs: seq<Value>, i: nat, before: seq<Byte>)
    requires (forall i | 0 <= i < |vs| :: ValueOk(Type.Scalar(t), vs[i])) && i < |vs|
    ensures ScalarOk(t, vs[i])
    ensures |EncItems(t, vs[i..])| == |EncScalar(t, vs[i])| + |EncItems(t, vs[i + 1..])|
    ensures before + EncItems(t, vs[i..]) == before + EncScalar(t, vs[i]) + EncItems(t, vs[i + 1..])
  {
    assert ValueOk(Type.Scalar(t), vs[i]) && vs[i..][1..] == vs[i + 1..];
  }

  /** The loop over the entries of a packed array, for sizing and for writing. */
  method WriteItems(stream: OStream, t: Scalar, vs: seq<Value>) returns (s: Status)
    requires stream.Valid() && forall i | 0 <= i < |vs| :: ValueOk(Type.Scalar(t), vs[i])
    modifies stream
    ensures stream.Valid() && s in {Done, Failed(StreamFull)}
    ensures s.Done? <==> old(stream.Room(|EncItems(t, vs)|))
    ensures s.Done? ==> Appended(stream, EncItems(t, vs))
  {
    s := Done;
    ghost var all := EncItems(t, vs);
    assert vs[0..] == vs;
    for i := 0 to |vs|
      invariant stream.Valid() && s == Done
      invariant stream.written + |EncItems(t, vs[i..])| == old(stream.written) + |all|
      invariant if stream.sizing then stream.out == old(stream.out)
                else stream.out + EncItems(t, vs[i..]) == old(stream.out) + all
    {
      ItemsSplit(t, vs, i, stream.out);
      s := WriteScalar(stream, t, vs[i]);
      if s.Failed? {
        return;
      }
    }
    assert EncItems(t, vs[|vs|..]) == [];
  }

  /** The packed size: by count for fixed widths, by a sizing pass for varints. */
  method PackedSize(t: Scalar, vs: seq<Value>) returns (size: nat)
    requires forall i | 0 <= i < |vs| :: ValueOk(Type.Scalar(t), vs[i])
    ensures size == |EncItems(t, vs)|
  {
    if t.Fixed32? {
      FixedSize(t, vs, 4);
      size := 4 * |vs|;
    } else if t.Fixed64? {
      FixedSize(t, vs, 8);
      size := 8 * |vs|;
    } else {
      var sizestream := new OStream(true, 0, []);
      var _ := WriteItems(sizestream, t, vs);
      size := sizestream.written;
    }
  }

  lemma {:induction false} FixedSize(t: Scalar, vs: seq<Value>, n: nat)
    requires forall i | 0 <= i < |vs| :: ValueOk(Type.Scalar(t), vs[i])
    requires (t == Fixed32 && n == 4) || (t == Fixed64 && n == 8)
    ensures |EncItems(t, vs)| == n * |vs|
    decreases |vs|
  {
    if vs != [] {
      assert ValueOk(Type.Scalar(t), vs[0]);
      FixedSize(t, vs[1..], n);
    }
  }

  // ----- values, fields and messages -----

  /** pb_encode_submessage: the size first, from a pass that only counts; then the bytes, through a stream that holds
      exactly that many.  The second pass always agrees with the first. */
  method EncodeSubmessage(stream: OStream, mt: MessageType, m: Message) returns (s: Status)
    requires stream.Valid() && MessageOk(mt, m)
    modifies stream
    ensures stream.Valid() && s != Failed(SizeChanged)
    ensures s.Done? <==> Fits(mt, m, 0, false) && old(stream.Room(|Delimited(EncFrom(mt, m, 0))|))
    ensures s.Done? ==> Appended(stream, Delimited(EncFrom(mt, m, 0)))
    decreases mt, 2
  {
    var sub := new OStream(true, 0, []);
    s := Encode(sub, mt, m);
    if s.Failed? {
      return;
    }
    var size := sub.written;
    s := WriteVarint(stream, size);
    if s.Failed? {
      return;
    }
    if stream.sizing {
      stream.Count(size);
      return Done;
    }
    if stream.written + size > stream.max {
      return Failed(StreamFull);
    }
    sub := new OStream(false, size, stream.out);
    s := Encode(sub, mt, m);
    stream.written := stream.written + sub.written;
    stream.out := sub.out;
    if sub.written != size {
      s := Failed(SizeChanged);
    }
  }

  /** The field encoders for a single value. */
  method EncodeValue(stream: OStream, t: Type, v: Value) returns (s: Status)
    requires stream.Valid() && ValueOk(t, v)
    modifies stream
    ensures stream.Valid() && s != Failed(SizeChanged)
    ensures s.Done? <==> ValueFits(t, v, false) && old(stream.Room(|EncValue(t, v)|))
    ensures s.Done? ==> Appended(stream, EncValue(t, v))
    decreases t
  {
    match t
    case Scalar(k) => s := WriteScalar(stream, k, v);
    case Bytes(max) =>
      if |v.s| > max {
        return Failed(BytesTooLong);
      }
      s := WriteDelimited(stream, v.s);
    case String(_) => s := WriteDelimited(stream, v.s);
    case FixedBytes(_) => s := WriteDelimited(stream, v.s);
    case Submessage(mt) => s := EncodeSubmessage(stream, mt, v.m);
  }

  /** The key of a field and one value. */
  method EncodeTagged(stream: OStream, f: Field, v: Value) returns (s: Status)
    requires stream.Valid() && ValueOk(f.t, v)
    modifies stream
    ensures stream.Valid() && s != Failed(SizeChanged)
    ensures s.Done? <==> ValueFits(f.t, v, false) && old(stream.Room(|EncTagged(f, v)|))
    ensures s.Done? ==> Appended(stream, EncTagged(f, v))
    decreases f, 0
  {
    Assoc(stream.out, Key(f.tag, WireType(f.t)), EncValue(f.t, v));
    s := WriteKey(stream, f.tag, WireType(f.t));
    if s.Done? {
      s := EncodeValue(stream, f.t, v);
    }
  }

  lemma EachStep(f: Field, vs: seq<Value>, i: nat, before: seq<Byte>)
    requires (forall i | 0 <= i < |vs| :: ValueOk(f.t, vs[i])) && i < |vs|
    ensures ValueOk(f.t, vs[i])
    ensures |EncEach(f, vs[i..])| == |EncTagged(f, vs[i])| + |EncEach(f, vs[i + 1..])|
    ensures before + EncEach(f, vs[i..]) == before + EncTagged(f, vs[i]) + EncEach(f, vs[i + 1..])
  {
    assert vs[i..][1..] == vs[i + 1..];
  }

  /** The loop over the entries of an array that cannot be packed. */
  method EncodeEach(stream: OStream, f: Field, vs: seq<Value>) returns (s: Status)
    requires stream.Valid() && forall i | 0 <= i < |vs| :: ValueOk(f.t, vs[i])
    modifies stream
    ensures stream.Valid() && s != Failed(SizeChanged)
    ensures s.Done? <==>
              (forall i | 0 <= i < |vs| :: ValueFits(f.t, vs[i], false)) && old(stream.Room(|EncEach(f, vs)|))
    ensures s.Done? ==> Appended(stream, EncEach(f, vs))
    decreases f, 1
  {
    s := Done;
    ghost var all := EncEach(f, vs);
    assert vs[0..] == vs;
    for i := 0 to |vs|
      invariant stream.Valid() && s == Done
      invariant forall j | 0 <= j < i :: ValueFits(f.t, vs[j], false)
      invariant stream.written + |EncEach(f, vs[i..])| == old(stream.written) + |all|
      invariant if stream.sizing then stream.out == old(stream.out)
                else stream.out + EncEach(f, vs[i..]) == old(stream.out) + all
    {
      EachStep(f, vs, i, stream.out);
      s := EncodeTagged(stream, f, vs[i]);
      if s.Failed? {
        return;
      }
    }
    assert EncEach(f, vs[|vs|..]) == [];
  }

  /** encode_array. */
  method EncodeArray(stream: OStream, f: Field, slot: Slot) returns (s: Status)
    requires stream.Valid() && f.rule.Repeated? && SlotOk(f, slot)
    modifies stream
    ensures stream.Valid() && s != Failed(SizeChanged)
    ensures s.Done? <==> SlotFits(f, slot, false) && old(stream.Room(|EncSlot(f, slot)|))
    ensures s.Done? ==> Appended(stream, EncSlot(f, slot))
    decreases f, 2
  {
    if |slot.vs| == 0 {
      return Done;
    }
    if |slot.vs| > f.rule.max {
      return Failed(ArrayTooLong);
    }
    if f.t.Scalar? {
      s := EncodePacked(stream, f, slot);
    } else {
      s := EncodeEach(stream, f, slot.vs);
    }
  }

  /** The key, the length and the entries of a packed array. */
  method EncodePacked(stream: OStream, f: Field, slot: Slot) returns (s: Status)
    requires stream.Valid() && f.rule.Repeated? && f.t.Scalar? && SlotOk(f, slot) && slot.vs != []
    modifies stream
    ensures stream.Valid() && s in {Done, Failed(StreamFull)}
    ensures forall i | 0 <= i < |slot.vs| :: ValueFits(f.t, slot.vs[i], false)
    ensures s.Done? <==> old(stream.Room(|EncSlot(f, slot)|))
    ensures s.Done? ==> Appended(stream, EncSlot(f, slot))
  {
    Assoc(stream.out, Key(f.tag, 2), Delimited(EncItems(f.t.s, slot.vs)));
    s := WriteKey(stream, f.tag, 2);
    if s.Done? {
      s := WritePacked(stream, f.t.s, slot.vs);
    }
  }

  method WritePacked(stream: OStream, t: Scalar, vs: seq<Value>) returns (s: Status)
    requires stream.Valid() && forall i | 0 <= i < |vs| :: ValueOk(Type.Scalar(t), vs[i])
    modifies stream
    ensures stream.Valid() && s in {Done, Failed(StreamFull)}
    ensures s.Done? <==> old(stream.Room(|Delimited(EncItems(t, vs))|))
    ensures s.Done? ==> Appended(stream, Delimited(EncItems(t, vs)))
  {
    ghost var items := EncItems(t, vs);
    Assoc(stream.out, Varint(|items|), items);
    var size := PackedSize(t, vs);
    s := WriteVarint(stream, size);
    if s.Failed? {
      return;
    }
    if stream.sizing {
      stream.Count(size);
      return Done;
    }
    s := WriteItems(stream, t, vs);
  }

  /** encode_basic_field for static fields. */
  method EncodeField(stream: OStream, f: Field, slot: Slot) returns (s: Status)
    requires stream.Valid() && SlotOk(f, slot)
    modifies stream
    ensures stream.Valid() && s != Failed(SizeChanged)
    ensures s.Done? <==> SlotFits(f, slot, false) && old(stream.Room(|EncSlot(f, slot)|))
    ensures s.Done? ==> Appended(stream, EncSlot(f, slot))
    decreases f, 3
  {
    if f.rule.Repeated? {
      s := EncodeArray(stream, f, slot);
    } else {
      var present := match f.rule
        case Singular => !IsDefault(f.t, slot.v)
        case Optional => slot.has
        case Oneof(_) => slot.has
        case _ => true;
      if present {
        s := EncodeTagged(stream, f, slot.v);
      } else {
        s := Done;
      }
    }
  }

  /** pb_encode.  Whether it counts or writes, it succeeds exactly when every array and byte string fits its place and
      the stream has room, and it then accounts for exactly the bytes of the message. */
  method Encode(stream: OStream, mt: MessageType, m: Message) returns (s: Status)
    requires stream.Valid() && MessageOk(mt, m)
    modifies stream
    ensures stream.Valid() && s != Failed(SizeChanged)
    ensures s.Done? <==> Fits(mt, m, 0, false) && old(stream.Room(|EncFrom(mt, m, 0)|))
    ensures s.Done? ==> Appended(stream, EncFrom(mt, m, 0))
    decreases mt, 1
  {
    s := Done;
    ghost var all := EncFrom(mt, m, 0);
    for k := 0 to |mt.fields|
      invariant stream.Valid() && s == Done
      invariant Fits(mt, m, 0, false) <==> Fits(mt, m, k, false)
      invariant stream.written + |EncFrom(mt, m, k)| == old(stream.written) + |all|
      invariant if stream.sizing then stream.out == old(stream.out)
                else stream.out + EncFrom(mt, m, k) == old(stream.out) + all
    {
      FromStep(mt, m, k, stream.out);
      s := EncodeField(stream, mt.fields[k], m.slots[k]);
      if s.Failed? {
        return;
      }
    }
  }

  lemma FromStep(mt: MessageType, m: Message, k: nat, before: seq<Byte>)
    requires MessageOk(mt, m) && k < |mt.fields|
    ensures SlotOk(mt.fields[k], m.slots[k])
    ensures |EncFrom(mt, m, k)| == |EncSlot(mt.fields[k], m.slots[k])| + |EncFrom(mt, m, k + 1)|
    ensures before + EncFrom(mt, m, k) == before + EncSlot(mt.fields[k], m.slots[k]) + EncFrom(mt, m, k + 1)
    ensures Fits(mt, m, k, false) <==> SlotFits(mt.fields[k], m.slots[k], false) && Fits(mt, m, k + 1, false)
  {
  }

  /** pb_get_encoded_size: exact. */
  method GetEncodedSize(mt: MessageType, m: Message) returns (s: Status, size: nat)
    requires MessageOk(mt, m)
    ensures s.Done? <==> Fits(mt, m, 0, false)
    ensures s.Done? ==> size == |Encoded(mt, m)|
  {
    var stream := new OStream(true, 0, []);
    s := Encode(stream, mt, m);
    size := stream.written;
  }

  /** A buffer of the size that was announced is always large enough, and the message fills it. */
  method EncodeToFit(mt: MessageType, m: Message) returns (s: Status, buffer: seq<Byte>)
    requires MessageOk(mt, m)
    ensures s.Done? <==> Fits(mt, m, 0, false)
    ensures s.Done? ==> buffer == Encoded(mt, m)
  {
    var size;
    s, size := GetEncodedSize(mt, m);
    buffer := [];
    if s.Done? {
      var stream := new OStream(false, size, []);
      s := Encode(stream, mt, m);
      buffer := stream.out;
    }
  }
}
