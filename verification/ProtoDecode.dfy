/** The decoder of pb_decode.c and the field iterator of pb_common.c: loops that consume a stream and fill a structure
    in place, against the functions on bytes of ProtoMessages. */
module ProtoDecode {
  import opened Options
  import opened Bytes
  import opened Varints
  import opened ProtoWire
  import opened ProtoMessages
  import opened FieldBits

  /** pb_istream_t over a buffer: what is left of it. */
  class IStream {
    var left: seq<Byte>

    constructor (bytes: seq<Byte>)
      ensures left == bytes
    {
      left := bytes;
    }

    /** pb_readbyte. */
    method ReadByte() returns (r: Result<Byte>)
      modifies this
      ensures if old(left) == [] then r == Err(EndOfStream) && left == []
              else r == Ok(old(left)[0]) && left == old(left)[1..]
    {
      if left == [] {
        r := Err(EndOfStream);
      } else {
        r := Ok(left[0]);
        left := left[1..];
      }
    }

    /** pb_read, and pb_read into nowhere. */
    method Read(n: nat) returns (r: Result<seq<Byte>>)
      modifies this
      ensures if n > |old(left)| then r == Err(EndOfStream) && left == old(left)
              else r == Ok(old(left)[..n]) && left == old(left)[n..]
    {
      if n > |left| {
        r := Err(EndOfStream);
      } else {
        r := Ok(left[..n]);
        left := left[n..];
      }
    }
  }

  /** What a reading function says of the bytes that a stream held: the result, and on success the bytes left. */
  ghost predicate Reads<T>(spec: Result<Parsed<T>>, r: Result<T>, left: seq<Byte>) {
    match spec
    case Err(e) => r == Err(e)
    case Ok(p) => r == Ok(p.value) && left == p.rest
  }

  /** pb_decode_varint. */
  method DecodeVarint(stream: IStream) returns (r: Result<nat>)
    modifies stream
    ensures Reads(ReadVarint(old(stream.left)), r, stream.left)
    ensures stream.left == LeftBy(ReadLoop(Loop64(), old(stream.left), 0, 0))
  {
    var bitpos: nat, result: nat := 0, 0;
    while true
      invariant ReadLoop(Loop64(), stream.left, bitpos, result) == ReadLoop(Loop64(), old(stream.left), 0, 0)
      decreases |stream.left|
    {
      if bitpos >= 64 {
        return Err(VarintOverflow);
      }
      var b := stream.ReadByte();
      if b.Err? {
        return Err(b.error);
      }
      result := OrBits(result, b.value % 128, bitpos) % TWO64;
      bitpos := bitpos + 7;
      if b.value < 128 {
        return Ok(result);
      }
    }
  }

  /** pb_decode_varint32. */
  method DecodeVarint32(stream: IStream) returns (r: Result<nat>)
    modifies stream
    ensures Reads(ReadVarint32(old(stream.left)), r, stream.left)
    ensures stream.left == LeftBy(ReadQuick(LOOP32, old(stream.left)))
  {
    var b := stream.ReadByte();
    if b.Err? {
      return Err(b.error);
    }
    if b.value < 128 {
      return Ok(b.value);
    }
    r := DecodeVarint32Loop(stream, 7, b.value % 128);
  }

  /** The loop for the bytes after the first. */
  method DecodeVarint32Loop(stream: IStream, second: nat, low: nat) returns (r: Result<nat>)
    requires second < 256
    modifies stream
    ensures Reads(ToResult(ReadLoop(LOOP32, old(stream.left), second, low)), r, stream.left)
    ensures stream.left == LeftBy(ReadLoop(LOOP32, old(stream.left), second, low))
  {
    var bitpos, result := second, low;
    while true
      invariant bitpos < 256
      invariant ReadLoop(LOOP32, stream.left, bitpos, result) == ReadLoop(LOOP32, old(stream.left), second, low)
      decreases |stream.left|
    {
      var b := stream.ReadByte();
      if b.Err? {
        return Err(b.error);
      }
      var turn := TakeByte(b.value, bitpos, result);
      match turn
      case Overflow => return Err(VarintOverflow);
      case Last(value) => return Ok(value);
      case More(result', bitpos') => result, bitpos := result', bitpos';
    }
  }

  /** The body of that loop after the byte has been read. */
  method TakeByte(b: Byte, bitpos: nat, low: nat) returns (turn: Turn)
    ensures turn == Turn32(b, bitpos, low) && (turn.More? ==> turn.bitpos < 256)
  {
    var result := low;
    if bitpos >= 32 {
      var extension := if bitpos < 63 then 255 else 1;
      if b % 128 != 0 && (result < TWO31 || b != extension) {
        return Overflow;
      }
    } else {
      result := OrBits(result, b % 128, bitpos) % TWO32;
    }
    var next := (bitpos + 7) % 256;
    if b >= 128 {
      return More(result, next);
    }
    turn := if next == 35 && b / 16 % 8 != 0 then Overflow else Last(result);
  }

  /** pb_skip_varint. */
  method SkipVarintBytes(stream: IStream) returns (r: Result<()>)
    modifies stream
    ensures match SkipVarint(old(stream.left))
            case Err(e) => r == Err(e)
            case Ok(rest) => r == Ok(()) && stream.left == rest
  {
    while true
      invariant SkipVarint(stream.left) == SkipVarint(old(stream.left))
      decreases |stream.left|
    {
      var b := stream.ReadByte();
      if b.Err? {
        return Err(b.error);
      }
      if b.value < 128 {
        return Ok(());
      }
    }
  }

  /** pb_make_string_substream; the parent has moved past the substream. */
  method Substream(stream: IStream, tooShort: Error) returns (r: Result<seq<Byte>>)
    modifies stream
    ensures Reads(TakeDelimited(old(stream.left), tooShort), r, stream.left)
  {
    var size := DecodeVarint32(stream);
    if size.Err? {
      return Err(size.error);
    }
    if |stream.left| < size.value {
      return Err(tooShort);
    }
    r := stream.Read(size.value);
  }

  /** pb_skip_field. */
  method SkipField(stream: IStream, wireType: nat) returns (r: Result<()>)
    modifies stream
    ensures match Skip(wireType, old(stream.left))
            case Err(e) => r == Err(e)
            case Ok(rest) => r == Ok(()) && stream.left == rest
  {
    if wireType == 0 {
      r := SkipVarintBytes(stream);
    } else {
      var b: Result<seq<Byte>>;
      if wireType == 1 {
        b := stream.Read(8);
      } else if wireType == 2 {
        b := Substream(stream, EndOfStream);
      } else if wireType == 5 {
        b := stream.Read(4);
      } else {
        b := Err(InvalidWireType);
      }
      r := if b.Ok? then Ok(()) else Err(b.error);
    }
  }

  // ----- the field iterator -----

  class FieldIter {
    const mt: MessageType
    var pos: nat
    var requiredIndex: nat

    /** The number of required fields before the current one. */
    ghost predicate Valid()
      reads this
    {
      && (pos < |mt.fields| || (pos == 0 && mt.fields == []))
      && requiredIndex == RequiredBefore(mt, pos)
    }

    /** pb_field_iter_begin. */
    constructor (mt: MessageType)
      ensures Valid() && this.mt == mt && pos == 0
    {
      this.mt := mt;
      pos, requiredIndex := 0, 0;
    }

    /** pb_field_iter_next: false when it wraps around to the first field. */
    method Next() returns (more: bool)
      requires Valid()
      modifies this
      ensures Valid() && more == (old(pos) + 1 < |mt.fields|) && pos == if more then old(pos) + 1 else 0
    {
      if mt.fields == [] {
        return false;
      }
      var prev := mt.fields[pos];
      pos := pos + 1;
      if pos == |mt.fields| {
        pos, requiredIndex := 0, 0;
        more := false;
      } else {
        if prev.rule.Required? {
          requiredIndex := requiredIndex + 1;
        }
        more := true;
      }
    }

    /** pb_field_iter_find: once round from the current field. */
    method FindTag(tag: nat) returns (found: bool)
      requires Valid()
      modifies this
      ensures Valid()
      ensures match Find(mt, old(pos), tag)
              case Some(k) => found && pos == k
              case None => found == (mt.fields == [] && tag == 0) && pos == old(pos)
    {
      if mt.fields == [] {
        return tag == 0;
      }
      var start := pos;
      var wrapped := false;
      while true
        invariant Valid() && mt.fields != [] && start == old(pos) < |mt.fields|
        invariant if wrapped then pos <= start && FindIn(mt, start, |mt.fields|, tag) == None
                                  && FindIn(mt, 0, start, tag) == FindIn(mt, pos, start, tag)
                  else pos >= start && FindIn(mt, start, |mt.fields|, tag) == FindIn(mt, pos, |mt.fields|, tag)
        invariant wrapped ==> pos < start
        decreases !wrapped, |mt.fields| - pos
      {
        if mt.fields[pos].tag == tag {
          return true;
        }
        var more := Next();
        if !more {
          wrapped := true;
        }
        if pos == start {
          return false;
        }
      }
    }
  }

  // ----- values, fields and messages -----

  /** pb_dec_bool, pb_dec_varint, pb_dec_uvarint, pb_dec_svarint, pb_dec_fixed32 and pb_dec_fixed64. */
  method DecodeScalar(stream: IStream, t: Scalar) returns (r: Result<Value>)
    modifies stream
    ensures Reads(DecScalar(t, old(stream.left)), r, stream.left)
    ensures r.Err? ==> stream.left == LeftByScalar(t, old(stream.left))
  {
    if t.Bool? {
      var v := DecodeVarint32(stream);
      r := if v.Ok? then Ok(B(v.value != 0)) else Err(v.error);
    } else if t.Fixed32? || t.Fixed64? {
      var b := stream.Read(if t.Fixed32? then 4 else 8);
      r := if b.Ok? then Ok(I(FromLittle(b.value))) else Err(b.error);
    } else {
      var v := DecodeVarint(stream);
      r := if v.Ok? then Narrow(t, v.value) else Err(v.error);
    }
  }

  /** The loop over a packed array. */
  method DecodePacked(stream: IStream, t: Scalar, start: seq<Value>, max: nat) returns (r: Result<seq<Value>>)
    modifies stream
    ensures r == DecItems(t, old(stream.left), start, max)
  {
    var vs := start;
    var failed: Option<Error> := None;
    while stream.left != [] && |vs| < max && failed.None?
      invariant DecItems(t, old(stream.left), start, max)
             == if failed.None? then DecItems(t, stream.left, vs, max)
                else Err(if stream.left != [] then ArrayOverflow else failed.value)
      decreases failed.None?, |stream.left|
    {
      var v := DecodeScalar(stream, t);
      if v.Err? {
        failed := Some(v.error);
      } else {
        vs := vs + [v.value];
      }
    }
    r := if stream.left != [] then Err(ArrayOverflow) else if failed.Some? then Err(failed.value) else Ok(vs);
  }

  /** pb_dec_bytes, pb_dec_string and pb_dec_fixed_length_bytes. */
  method DecodeBytes(stream: IStream, t: Type, was: Value) returns (r: Result<Value>)
    requires !t.Scalar? && !t.Submessage?
    modifies stream
    ensures Reads(DecValue(t, was, old(stream.left)), r, stream.left)
  {
    var size := DecodeVarint32(stream);
    if size.Err? {
      return Err(size.error);
    }
    if t.Bytes? && size.value > t.max {
      return Err(BytesOverflow);
    }
    if t.String? && size.value + 1 > t.max {
      return Err(StringOverflow);
    }
    if t.FixedBytes? {
      if size.value == 0 {
        return Ok(S(Zeros(t.n)));
      }
      if size.value != t.n {
        return Err(IncorrectFixedLength);
      }
    }
    var b := stream.Read(size.value);
    if b.Err? {
      return Err(b.error);
    }
    r := Ok(S(if t.String? then UpToNul(b.value) else b.value));
  }

  /** The field decoders.  `was` is what the structure holds; only a submessage builds on it. */
  method DecodeValue(stream: IStream, t: Type, was: Value) returns (r: Result<Value>)
    modifies stream
    ensures Reads(DecValue(t, was, old(stream.left)), r, stream.left)
    decreases t
  {
    match t
    case Scalar(s) => r := DecodeScalar(stream, s);
    case Submessage(mt) =>
      var b := Substream(stream, ParentTooShort);
      if b.Err? {
        return Err(b.error);
      }
      var sub := new IStream(b.value);
      var start := if was.M? && |was.m.slots| == |mt.fields| then was.m.slots else Defaults(mt);
      var m := DecodeNoInit(sub, mt, start);
      r := if m.Ok? then Ok(M(m.value)) else Err(m.error);
    case _ => r := DecodeBytes(stream, t, was);
  }

  /** decode_static_field. */
  method DecodeStaticField(stream: IStream, f: Field, slot: Slot, wireType: nat) returns (r: Result<Slot>)
    modifies stream
    ensures Reads(DecSlot(f, slot, wireType, old(stream.left)), r, stream.left)
    decreases f, 1
  {
    if f.rule.Repeated? {
      var vs := if slot.Many? then slot.vs else [];
      if wireType == 2 && f.t.Scalar? {
        var b := Substream(stream, ParentTooShort);
        if b.Err? {
          return Err(b.error);
        }
        var sub := new IStream(b.value);
        var items := DecodePacked(sub, f.t.s, vs, f.rule.max);
        r := if items.Ok? then Ok(Many(items.value)) else Err(items.error);
      } else if |vs| >= f.rule.max {
        r := Err(ArrayOverflow);
      } else {
        var v := DecodeValue(stream, f.t, Zero(f.t));
        r := if v.Ok? then Ok(Many(vs + [v.value])) else Err(v.error);
      }
    } else {
      var v := DecodeValue(stream, f.t, if f.rule.Oneof? || slot.Many? then Zero(f.t) else slot.v);
      r := if v.Err? then Err(v.error)
           else if f.rule.Optional? || f.rule.Oneof? then Ok(Maybe(true, v.value)) else Ok(One(v.value));
    }
  }

  /** Bit i of fields_seen is set exactly when the required field with that index has been seen. */
  ghost predicate SeenBits(mt: MessageType, words: seq<nat>, seen: set<nat>) {
    |words| == 2 && AreWords(words) && SeenSet(mt, BitsOf(words), seen)
  }

  ghost predicate SeenSet(mt: MessageType, bits: set<nat>, seen: set<nat>) {
    && (forall k: nat | IsTracked(mt, k) :: RequiredBefore(mt, k) in bits <==> k in seen)
    && forall i | i in bits :: i < RequiredBefore(mt, |mt.fields|)
  }

  /** The field has a bit. */
  predicate IsTracked(mt: MessageType, k: nat) {
    k < |mt.fields| && mt.fields[k].rule.Required? && RequiredBefore(mt, k) < MAX_REQUIRED
  }

  lemma {:induction false} RequiredGrows(mt: MessageType, i: nat, j: nat)
    requires i <= j <= |mt.fields|
    ensures RequiredBefore(mt, i) <= RequiredBefore(mt, j)
    ensures i < j && mt.fields[i].rule.Required? ==> RequiredBefore(mt, i) < RequiredBefore(mt, j)
    decreases j
  {
    if i < j { RequiredGrows(mt, i, j - 1); }
  }

  lemma SeenOneMore(mt: MessageType, bits: set<nat>, seen: set<nat>, k: nat)
    requires SeenSet(mt, bits, seen) && k < |mt.fields|
    ensures SeenSet(mt, if IsTracked(mt, k) then bits + {RequiredBefore(mt, k)} else bits, seen + {k})
  {
    forall j: nat | IsTracked(mt, j) && IsTracked(mt, k) && j != k
      ensures RequiredBefore(mt, j) != RequiredBefore(mt, k)
    {
      RequiredGrows(mt, if j < k then j else k, if j < k then k else j);
    }
    RequiredGrows(mt, k, |mt.fields|);
  }

  lemma MarkSeen(mt: MessageType, words: seq<nat>, seen: set<nat>, k: nat)
    requires SeenBits(mt, words, seen) && k < |mt.fields|
    ensures SeenBits(mt, if IsTracked(mt, k) then WithBit(words, RequiredBefore(mt, k)) else words, seen + {k})
  {
    SeenOneMore(mt, BitsOf(words), seen, k);
    if IsTracked(mt, k) { WithBitSet(words, RequiredBefore(mt, k)); }
  }

  lemma {:induction false} IndexOfRequired(mt: MessageType, i: nat, n: nat) returns (k: nat)
    requires n <= |mt.fields| && i < RequiredBefore(mt, n)
    ensures k < n && mt.fields[k].rule.Required? && RequiredBefore(mt, k) == i
    decreases n
  {
    if i < RequiredBefore(mt, n - 1) {
      k := IndexOfRequired(mt, i, n - 1);
    } else {
      k := n - 1;
    }
  }

  /** Every required field among the first 64 has been seen exactly when the bits below their number are all set. */
  lemma AllBits(mt: MessageType, words: seq<nat>, seen: set<nat>, count: nat)
    requires SeenBits(mt, words, seen)
    requires count == if RequiredBefore(mt, |mt.fields|) > MAX_REQUIRED then MAX_REQUIRED
             else RequiredBefore(mt, |mt.fields|)
    ensures AllSeen(mt, seen) <==> forall i: nat | i < count :: i in BitsOf(words)
  {
    if AllSeen(mt, seen) {
      forall i: nat | i < count ensures i in BitsOf(words) {
        var k := IndexOfRequired(mt, i, |mt.fields|);
      }
    }
    if forall i: nat | i < count :: i in BitsOf(words) {
      forall k | 0 <= k < |mt.fields| && mt.fields[k].rule.Required? && RequiredBefore(mt, k) < MAX_REQUIRED
        ensures k in seen
      {
        RequiredGrows(mt, k, |mt.fields|);
        assert RequiredBefore(mt, k) in BitsOf(words);
      }
    }
  }

  /** The check that all required fields were present: word by word, then the mask for the bits that are left. */
  method CheckRequired(iter: FieldIter, words: seq<nat>, ghost seen: set<nat>) returns (ok: bool)
    requires iter.Valid() && SeenBits(iter.mt, words, seen)
    modifies iter
    ensures ok == AllSeen(iter.mt, seen)
  {
    var count := CountRequired(iter);
    if count > MAX_REQUIRED {
      count := MAX_REQUIRED;
    }
    AllBits(iter.mt, words, seen, count);
    ok := HasAll(words, count);
  }

  /** The number of required fields, by walking the iterator to the end of the descriptor. */
  method CountRequired(iter: FieldIter) returns (count: nat)
    requires iter.Valid()
    modifies iter
    ensures count == RequiredBefore(iter.mt, |iter.mt.fields|)
  {
    if iter.mt.fields == [] {
      return 0;
    }
    var more := true;
    var last: nat := iter.pos;
    count := iter.requiredIndex;
    while more
      invariant iter.Valid() && last < |iter.mt.fields| && count == RequiredBefore(iter.mt, last)
      invariant if more then last == iter.pos || last + 1 == iter.pos else last + 1 == |iter.mt.fields|
      decreases more, |iter.mt.fields| - iter.pos
    {
      count := iter.requiredIndex;
      last := iter.pos;
      more := iter.Next();
    }
    if iter.mt.fields[last].rule.Required? {
      count := count + 1;
    }
  }

  /** One field of pb_decode_noinit, its key already read: unknown fields are skipped, a required field is marked. */
  method DecodeOne(stream: IStream, iter: FieldIter, key: nat, slots: seq<Slot>, words: seq<nat>, ghost p: Progress)
    returns (failed: Option<Error>, slots': seq<Slot>, words': seq<nat>, ghost p': Progress)
    requires iter.Valid() && ProgressOk(iter.mt, p) && p.slots == slots && p.pos == iter.pos
    requires SeenBits(iter.mt, words, p.seen)
    modifies stream, iter
    ensures iter.Valid()
    ensures match DecField(iter.mt, key, old(stream.left), p)
            case Err(e) => failed == Some(e)
            case Ok(q) => failed == None && q == Parsed(p', stream.left)
    ensures failed.None? ==> p'.slots == slots' && p'.pos == iter.pos && SeenBits(iter.mt, words', p'.seen)
    decreases iter.mt, 1
  {
    failed, slots', words', p' := None, slots, words, p;
    ghost var field := DecField(iter.mt, key, stream.left, p);
    var found := iter.FindTag(key / 8);
    if !found {
      var skipped := SkipField(stream, key % 8);
      failed := if skipped.Err? then Some(skipped.error) else None;
    } else if iter.mt.fields == [] {
      var ignored := DecodeVarint32(stream);
      failed := if ignored.Err? then Some(ignored.error) else None;
    } else {
      var k := iter.pos;
      MarkSeen(iter.mt, words, p.seen, k);
      if iter.mt.fields[k].rule.Required? && iter.requiredIndex < MAX_REQUIRED {
        words' := WithBit(words, iter.requiredIndex);
      }
      var slot := DecodeStaticField(stream, iter.mt.fields[k], slots[k], key % 8);
      if slot.Err? {
        failed := Some(slot.error);
      } else {
        slots' := Store(iter.mt, slots, k, slot.value);
        p' := field.value.value;
      }
    }
  }

  /** pb_decode_noinit. */
  method DecodeNoInit(stream: IStream, mt: MessageType, start: seq<Slot>) returns (r: Result<Message>)
    requires |start| == |mt.fields|
    modifies stream
    ensures r == DecMessage(mt, start, old(stream.left))
    decreases mt, 2
  {
    var iter := new FieldIter(mt);
    var slots := start;
    var words: seq<nat> := seq(2, _ => 0);
    NoneSet(2);
    ghost var p := Progress(start, 0, {});
    while stream.left != []
      invariant iter.Valid() && fresh(iter) && iter.mt == mt
      invariant ProgressOk(mt, p) && p.slots == slots && p.pos == iter.pos && SeenBits(mt, words, p.seen)
      invariant DecLoop(mt, stream.left, p) == DecLoop(mt, old(stream.left), Progress(start, 0, {}))
      decreases |stream.left|
    {
      var key := DecodeVarint32(stream);
      if key.Err? {
        return Err(key.error);
      }
      if key.value == 0 {
        break;
      }
      var failed;
      failed, slots, words, p := DecodeOne(stream, iter, key.value, slots, words, p);
      if failed.Some? {
        return Err(failed.value);
      }
    }
    var ok := CheckRequired(iter, words, p.seen);
    r := if ok then Ok(Message(slots)) else Err(MissingRequiredField);
  }

  /** pb_decode. */
  method DecodeMessage(stream: IStream, mt: MessageType) returns (r: Result<Message>)
    modifies stream
    ensures r == Decode(mt, old(stream.left))
  {
    r := DecodeNoInit(stream, mt, Defaults(mt));
  }
}
