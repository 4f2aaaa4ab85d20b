/** Messages of nanopb as trees over their field descriptors (pb.h), what pb_encode.c writes for them and what
    pb_decode.c makes of any bytes.  Static fields only; all functions recur on the descriptor. */
module ProtoMessages {
  import opened Options
  import opened Bytes
  import opened Varints
  import opened ProtoWire

  // ----- descriptors and messages -----

  /** The packable field types. */
  datatype Scalar = Bool | Signed(w: Width) | Unsigned(w: Width) | Zigzagged(w: Width) | Fixed32 | Fixed64

  /** `max` of a string includes its terminator. */
  datatype Type = Scalar(s: Scalar) | Bytes(max: nat) | String(max: nat) | FixedBytes(n: nat)
                | Submessage(m: MessageType)

  /** Singular is the proto3 rule: optional, without a has_ field.  Oneof names its union. */
  datatype Rule = Required | Optional | Singular | Repeated(max: nat) | Oneof(union: nat)

  /** `initial` is the default value of a field that is not a submessage, if the descriptor has one. */
  datatype Field = Field(tag: nat, rule: Rule, t: Type, initial: Option<Value>)

  datatype MessageType = MessageType(fields: seq<Field>)

  /** A string is what precedes its first NUL. */
  datatype Value = B(b: bool) | I(i: int) | S(s: seq<Byte>) | M(m: Message)

  /** A member of a union is there when the union's which_ field holds its tag. */
  datatype Slot = One(v: Value) | Maybe(has: bool, v: Value) | Many(vs: seq<Value>)

  datatype Message = Message(slots: seq<Slot>)

  predicate ScalarOk(s: Scalar, v: Value) {
    match s
    case Bool => v.B?
    case Signed(w) => v.I? && FitsSigned(v.i, w)
    case Unsigned(w) => v.I? && 0 <= v.i < Span(w)
    case Zigzagged(w) => v.I? && FitsSigned(v.i, w)
    case Fixed32 => v.I? && 0 <= v.i < TWO32
    case Fixed64 => v.I? && 0 <= v.i < TWO64
  }

  /** What the C types of the message structure guarantee. */
  ghost predicate ValueOk(t: Type, v: Value)
    decreases t
  {
    match t
    case Scalar(s) => ScalarOk(s, v)
    case Bytes(max) => v.S?
    case String(max) => v.S? && |v.s| <= max && 0 !in v.s
    case FixedBytes(n) => v.S? && |v.s| == n
    case Submessage(mt) => v.M? && MessageOk(mt, v.m)
  }

  ghost predicate SlotOk(f: Field, slot: Slot)
    decreases f
  {
    match f.rule
    case Required => slot.One? && ValueOk(f.t, slot.v)
    case Singular => slot.One? && ValueOk(f.t, slot.v)
    case Optional => slot.Maybe? && (slot.has ==> ValueOk(f.t, slot.v))
    case Oneof(_) => slot.Maybe? && (slot.has ==> ValueOk(f.t, slot.v))
    case Repeated(_) => slot.Many? && forall i | 0 <= i < |slot.vs| :: ValueOk(f.t, slot.vs[i])
  }

  ghost predicate MessageOk(mt: MessageType, m: Message)
    decreases mt
  {
    && |m.slots| == |mt.fields|
    && (forall i | 0 <= i < |mt.fields| :: SlotOk(mt.fields[i], m.slots[i]))
    && OneInUnion(mt, m.slots)
  }

  predicate SameUnion(a: Field, b: Field) {
    a.rule.Oneof? && b.rule.Oneof? && a.rule.union == b.rule.union
  }

  ghost predicate OneInUnion(mt: MessageType, slots: seq<Slot>)
    requires |slots| == |mt.fields|
  {
    forall i, j | 0 <= i < j < |mt.fields| && SameUnion(mt.fields[i], mt.fields[j]) :: !(Has(slots[i]) && Has(slots[j]))
  }

  predicate Has(slot: Slot) {
    slot.Maybe? && slot.has
  }

  // ----- what the encoder writes -----

  /** pb_check_proto3_default_value. */
  predicate IsDefault(t: Type, v: Value)
    decreases t
  {
    match t
    case Scalar(s) => v == Zero(t)
    case Bytes(_) => v == S([])
    case String(_) => v == S([])
    case FixedBytes(n) => n == 0
    case Submessage(mt) => v.M? && |v.m.slots| == |mt.fields| && AllDefault(mt, v.m.slots, 0)
  }

  predicate AllDefault(mt: MessageType, slots: seq<Slot>, k: nat)
    requires |slots| == |mt.fields| && k <= |mt.fields|
    decreases mt, |mt.fields| - k
  {
    k == |mt.fields| || (SlotDefault(mt.fields[k], slots[k]) && AllDefault(mt, slots, k + 1))
  }

  predicate SlotDefault(f: Field, slot: Slot)
    decreases f
  {
    match f.rule
    case Required => false
    case Repeated(_) => slot == Many([])
    case Oneof(_) => slot.Maybe? && !slot.has
    case Optional => slot.Maybe? && !slot.has
    case Singular => slot.One? && IsDefault(f.t, slot.v)
  }

  function Zeros(n: nat): (r: seq<Byte>)
    ensures |r| == n
  {
    seq(n, _ => 0)
  }

  function Zero(t: Type): Value
    decreases t
  {
    match t
    case Scalar(s) => if s.Bool? then B(false) else I(0)
    case Bytes(_) => S([])
    case String(_) => S([])
    case FixedBytes(n) => S(Zeros(n))
    case Submessage(mt) => M(Message(Defaults(mt)))
  }

  /** pb_message_set_to_defaults. */
  function Defaults(mt: MessageType): (r: seq<Slot>)
    ensures |r| == |mt.fields|
    decreases mt, 0
  {
    seq(|mt.fields|, i requires 0 <= i < |mt.fields| => DefaultSlot(mt.fields[i]))
  }

  function DefaultSlot(f: Field): Slot
    decreases f
  {
    match f.rule
    case Required => One(InitialValue(f))
    case Singular => One(InitialValue(f))
    case Optional => Maybe(false, InitialValue(f))
    case Oneof(_) => Maybe(false, InitialValue(f))
    case Repeated(_) => Many([])
  }

  function InitialValue(f: Field): Value
    decreases f, 0
  {
    if f.t.Submessage? || f.initial.None? then Zero(f.t) else f.initial.value
  }

  function WireType(t: Type): (r: nat)
    ensures r in {0, 1, 2, 5}
  {
    if !t.Scalar? then 2 else if t.s.Fixed32? then 5 else if t.s.Fixed64? then 1 else 0
  }

  function Key(tag: nat, wireType: nat): seq<Byte> {
    Varint(8 * tag + wireType)
  }

  function Delimited(b: seq<Byte>): (r: seq<Byte>) {
    Varint(|b|) + b
  }

  function EncScalar(s: Scalar, v: Value): seq<Byte>
    requires ScalarOk(s, v)
  {
    match s
    case Bool => Varint(if v.b then 1 else 0)
    case Signed(w) => Varint(ToUnsigned64(v.i))
    case Unsigned(w) => Varint(v.i)
    case Zigzagged(w) => Varint(Zigzag(v.i))
    case Fixed32 => Little(v.i, 4)
    case Fixed64 => Little(v.i, 8)
  }

  function EncItems(s: Scalar, vs: seq<Value>): seq<Byte>
    requires forall i | 0 <= i < |vs| :: ValueOk(Type.Scalar(s), vs[i])
  {
    if vs == [] then []
    else assert ValueOk(Type.Scalar(s), vs[0]); EncScalar(s, vs[0]) + EncItems(s, vs[1..])
  }

  ghost function EncValue(t: Type, v: Value): seq<Byte>
    requires ValueOk(t, v)
    decreases t
  {
    match t
    case Scalar(s) => EncScalar(s, v)
    case Submessage(mt) => Delimited(EncFrom(mt, v.m, 0))
    case _ => Delimited(v.s)
  }

  ghost function EncTagged(f: Field, v: Value): seq<Byte>
    requires ValueOk(f.t, v)
    decreases f, 0
  {
    Key(f.tag, WireType(f.t)) + EncValue(f.t, v)
  }

  ghost function EncEach(f: Field, vs: seq<Value>): seq<Byte>
    requires forall i | 0 <= i < |vs| :: ValueOk(f.t, vs[i])
    decreases f, 1, |vs|
  {
    if vs == [] then [] else EncTagged(f, vs[0]) + EncEach(f, vs[1..])
  }

  /** Arrays of packable types are always packed. */
  ghost function EncSlot(f: Field, slot: Slot): seq<Byte>
    requires SlotOk(f, slot)
    decreases f, 2
  {
    match f.rule
    case Required => EncTagged(f, slot.v)
    case Singular => if IsDefault(f.t, slot.v) then [] else EncTagged(f, slot.v)
    case Optional => if slot.has then EncTagged(f, slot.v) else []
    case Oneof(_) => if slot.has then EncTagged(f, slot.v) else []
    case Repeated(_) =>
      if slot.vs == [] then []
      else if f.t.Scalar? then Key(f.tag, 2) + Delimited(EncItems(f.t.s, slot.vs))
      else EncEach(f, slot.vs)
  }

  /** The fields from k on. */
  ghost function EncFrom(mt: MessageType, m: Message, k: nat): seq<Byte>
    requires MessageOk(mt, m) && k <= |mt.fields|
    decreases mt, |mt.fields| - k
  {
    if k == |mt.fields| then [] else EncSlot(mt.fields[k], m.slots[k]) + EncFrom(mt, m, k + 1)
  }

  ghost function Encoded(mt: MessageType, m: Message): seq<Byte>
    requires MessageOk(mt, m)
  {
    EncFrom(mt, m, 0)
  }

  /** Nothing that gets written is larger than its place in the structure; with `nul`, every string that gets written
      has its terminator. */
  ghost predicate ValueFits(t: Type, v: Value, nul: bool)
    requires ValueOk(t, v)
    decreases t
  {
    match t
    case Bytes(max) => |v.s| <= max
    case String(max) => nul ==> |v.s| < max
    case Submessage(mt) => Fits(mt, v.m, 0, nul)
    case _ => true
  }

  ghost predicate SlotFits(f: Field, slot: Slot, nul: bool)
    requires SlotOk(f, slot)
    decreases f
  {
    match f.rule
    case Required => ValueFits(f.t, slot.v, nul)
    case Singular => IsDefault(f.t, slot.v) || ValueFits(f.t, slot.v, nul)
    case Optional => slot.has ==> ValueFits(f.t, slot.v, nul)
    case Oneof(_) => slot.has ==> ValueFits(f.t, slot.v, nul)
    case Repeated(max) => |slot.vs| <= max && forall i | 0 <= i < |slot.vs| :: ValueFits(f.t, slot.vs[i], nul)
  }

  ghost predicate Fits(mt: MessageType, m: Message, k: nat, nul: bool)
    requires MessageOk(mt, m) && k <= |mt.fields|
    decreases mt, |mt.fields| - k
  {
    k == |mt.fields| || (SlotFits(mt.fields[k], m.slots[k], nul) && Fits(mt, m, k + 1, nul))
  }

  // ----- what the decoder makes of bytes -----

  /** A length and that many bytes.  A substream that is too long is an error of its own. */
  function TakeDelimited(input: seq<Byte>, tooShort: Error): (r: Result<Parsed<seq<Byte>>>)
    ensures r.Ok? ==> |r.value.rest| < |input| && |r.value.value| < |input|
  {
    match ReadVarint32(input)
    case Err(e) => Err(e)
    case Ok(p) => if p.value > |p.rest| then Err(tooShort) else Ok(Parsed(p.rest[..p.value], p.rest[p.value..]))
  }

  /** The casts of pb_dec_varint, pb_dec_uvarint and pb_dec_svarint, with their overflow check. */
  function Narrow(s: Scalar, u: nat): Result<Value> {
    match s
    case Signed(w) =>
      var wide := if w == W64 then ToSigned(u, W64) else ToSigned(u, W32);
      if ToSigned(wide, w) != wide then Err(IntegerTooLarge) else Ok(I(wide))
    case Unsigned(w) => if u % Span(w) != u then Err(IntegerTooLarge) else Ok(I(u))
    case Zigzagged(w) => if ToSigned(Unzigzag(u), w) != Unzigzag(u) then Err(IntegerTooLarge) else Ok(I(Unzigzag(u)))
    case _ => Ok(I(u))
  }

  function DecScalar(s: Scalar, input: seq<Byte>): (r: Result<Parsed<Value>>)
    ensures r.Ok? ==> |r.value.rest| < |input|
  {
    match s
    case Bool =>
      (match ReadVarint32(input)
       case Err(e) => Err(e)
       case Ok(p) => Ok(Parsed(B(p.value != 0), p.rest)))
    case Fixed32 => if |input| < 4 then Err(EndOfStream) else Ok(Parsed(I(FromLittle(input[..4])), input[4..]))
    case Fixed64 => if |input| < 8 then Err(EndOfStream) else Ok(Parsed(I(FromLittle(input[..8])), input[8..]))
    case _ =>
      match ReadVarint(input)
      case Err(e) => Err(e)
      case Ok(p) =>
        match Narrow(s, p.value)
        case Err(e) => Err(e)
        case Ok(v) => Ok(Parsed(v, p.rest))
  }

  /** What a scalar that does not decode leaves of its bytes. */
  function LeftByScalar(s: Scalar, input: seq<Byte>): seq<Byte> {
    match s
    case Bool => LeftBy(ReadQuick(LOOP32, input))
    case Fixed32 => input
    case Fixed64 => input
    case _ => LeftBy(ReadLoop(Loop64(), input, 0, 0))
  }

  /** The loop over a packed array, up to its capacity; bytes left over are an error, also after an item that does not
      decode. */
  function DecItems(s: Scalar, input: seq<Byte>, vs: seq<Value>, max: nat): Result<seq<Value>>
    decreases |input|
  {
    if input == [] then Ok(vs)
    else if |vs| >= max then Err(ArrayOverflow)
    else
      match DecScalar(s, input)
      case Err(e) => Err(if LeftByScalar(s, input) != [] then ArrayOverflow else e)
      case Ok(p) => DecItems(s, p.rest, vs + [p.value], max)
  }

  function UpToNul(s: seq<Byte>): seq<Byte> {
    if s == [] || s[0] == 0 then [] else [s[0]] + UpToNul(s[1..])
  }

  /** `was` is what the structure holds already; array entries start from the defaults. */
  function DecValue(t: Type, was: Value, input: seq<Byte>): (r: Result<Parsed<Value>>)
    ensures r.Ok? ==> |r.value.rest| < |input|
    decreases t
  {
    match t
    case Scalar(s) => DecScalar(s, input)
    case Bytes(max) =>
      (match ReadVarint32(input)
       case Err(e) => Err(e)
       case Ok(p) =>
         if p.value > max then Err(BytesOverflow) else if p.value > |p.rest| then Err(EndOfStream)
         else Ok(Parsed(S(p.rest[..p.value]), p.rest[p.value..])))
    case String(max) =>
      (match ReadVarint32(input)
       case Err(e) => Err(e)
       case Ok(p) =>
         if p.value + 1 > max then Err(StringOverflow) else if p.value > |p.rest| then Err(EndOfStream)
         else Ok(Parsed(S(UpToNul(p.rest[..p.value])), p.rest[p.value..])))
    case FixedBytes(n) =>
      (match ReadVarint32(input)
       case Err(e) => Err(e)
       case Ok(p) =>
         if p.value == 0 then Ok(Parsed(S(Zeros(n)), p.rest))
         else if p.value != n then Err(IncorrectFixedLength) else if p.value > |p.rest| then Err(EndOfStream)
         else Ok(Parsed(S(p.rest[..p.value]), p.rest[p.value..])))
    case Submessage(mt) =>
      match TakeDelimited(input, ParentTooShort)
      case Err(e) => Err(e)
      case Ok(p) =>
        var start := if was.M? && |was.m.slots| == |mt.fields| then was.m.slots else Defaults(mt);
        match DecMessage(mt, start, p.value)
        case Err(e) => Err(e)
        case Ok(m) => Ok(Parsed(M(m), p.rest))
  }

  /** decode_static_field: the field's own place in the structure. */
  function DecSlot(f: Field, slot: Slot, wireType: nat, input: seq<Byte>): (r: Result<Parsed<Slot>>)
    ensures r.Ok? ==> |r.value.rest| < |input|
    decreases f, 1
  {
    if f.rule.Repeated? then
      var vs := if slot.Many? then slot.vs else [];
      if wireType == 2 && f.t.Scalar? then
        match TakeDelimited(input, ParentTooShort)
        case Err(e) => Err(e)
        case Ok(p) =>
          match DecItems(f.t.s, p.value, vs, f.rule.max)
          case Err(e) => Err(e)
          case Ok(vs') => Ok(Parsed(Many(vs'), p.rest))
      else if |vs| >= f.rule.max then Err(ArrayOverflow)
      else
        match DecValue(f.t, Zero(f.t), input)
        case Err(e) => Err(e)
        case Ok(p) => Ok(Parsed(Many(vs + [p.value]), p.rest))
    else
      var was := if f.rule.Oneof? || slot.Many? then Zero(f.t) else slot.v;
      match DecValue(f.t, was, input)
      case Err(e) => Err(e)
      case Ok(p) => Ok(Parsed(if f.rule.Optional? || f.rule.Oneof? then Maybe(true, p.value) else One(p.value), p.rest))
  }

  /** Writing a member of a union takes the place of the others. */
  function Store(mt: MessageType, slots: seq<Slot>, k: nat, slot: Slot): (r: seq<Slot>)
    requires |slots| == |mt.fields| && k < |mt.fields|
    ensures |r| == |mt.fields|
  {
    seq(|mt.fields|, i requires 0 <= i < |mt.fields| =>
      if i == k then slot
      else if SameUnion(mt.fields[i], mt.fields[k]) && slots[i].Maybe? then Maybe(false, slots[i].v)
      else slots[i])
  }

  /** pb_field_iter_find: the fields from the current one round to it again. */
  function Find(mt: MessageType, pos: nat, tag: nat): (r: Option<nat>)
    requires pos <= |mt.fields|
    ensures r.Some? ==> r.value < |mt.fields| && mt.fields[r.value].tag == tag
  {
    match FindIn(mt, pos, |mt.fields|, tag)
    case Some(k) => Some(k)
    case None => FindIn(mt, 0, pos, tag)
  }

  function FindIn(mt: MessageType, lo: nat, hi: nat, tag: nat): (r: Option<nat>)
    requires lo <= hi <= |mt.fields|
    ensures r.Some? ==> lo <= r.value < hi && mt.fields[r.value].tag == tag
    ensures r.None? ==> forall k | lo <= k < hi :: mt.fields[k].tag != tag
    decreases hi - lo
  {
    if lo == hi then None else if mt.fields[lo].tag == tag then Some(lo) else FindIn(mt, lo + 1, hi, tag)
  }

  function SkipVarint(input: seq<Byte>): (r: Result<seq<Byte>>)
    ensures r.Ok? ==> |r.value| <= |input|
  {
    if input == [] then Err(EndOfStream) else if input[0] >= 128 then SkipVarint(input[1..]) else Ok(input[1..])
  }

  /** pb_skip_field. */
  function Skip(wireType: nat, input: seq<Byte>): (r: Result<seq<Byte>>)
    ensures r.Ok? ==> |r.value| <= |input|
  {
    match wireType
    case 0 => SkipVarint(input)
    case 1 => if |input| < 8 then Err(EndOfStream) else Ok(input[8..])
    case 5 => if |input| < 4 then Err(EndOfStream) else Ok(input[4..])
    case 2 =>
      (match TakeDelimited(input, EndOfStream)
       case Err(e) => Err(e)
       case Ok(p) => Ok(p.rest))
    case _ => Err(InvalidWireType)
  }

  /** The variables of pb_decode_noinit: the structure, the iterator's position and the required fields seen. */
  datatype Progress = Progress(slots: seq<Slot>, pos: nat, seen: set<nat>)

  ghost predicate ProgressOk(mt: MessageType, p: Progress) {
    |p.slots| == |mt.fields| && p.pos <= |mt.fields|
  }

  /** One field, its key already read.  An unknown field is skipped; the terminator of an empty descriptor list has
      tag 0 and passes for a bool, which is read and stored nowhere. */
  function DecField(mt: MessageType, key: nat, input: seq<Byte>, p: Progress): (r: Result<Parsed<Progress>>)
    requires ProgressOk(mt, p)
    ensures r.Ok? ==> |r.value.rest| <= |input| && ProgressOk(mt, r.value.value)
    decreases mt, 0
  {
    match Find(mt, p.pos, key / 8)
    case None =>
      if mt.fields == [] && key / 8 == 0 then
        match ReadVarint32(input)
        case Err(e) => Err(e)
        case Ok(v) => Ok(Parsed(p, v.rest))
      else
        (match Skip(key % 8, input)
         case Err(e) => Err(e)
         case Ok(rest) => Ok(Parsed(p, rest)))
    case Some(k) =>
      match DecSlot(mt.fields[k], p.slots[k], key % 8, input)
      case Err(e) => Err(e)
      case Ok(q) => Ok(Parsed(Progress(Store(mt, p.slots, k, q.value), k, p.seen + {k}), q.rest))
  }

  /** The loop of pb_decode_noinit; a zero key ends the message. */
  function DecLoop(mt: MessageType, input: seq<Byte>, p: Progress): (r: Result<Progress>)
    requires ProgressOk(mt, p)
    ensures r.Ok? ==> ProgressOk(mt, r.value)
    decreases mt, 1, |input|
  {
    if input == [] then Ok(p)
    else
      match ReadVarint32(input)
      case Err(e) => Err(e)
      case Ok(key) =>
        if key.value == 0 then Ok(p)
        else
          match DecField(mt, key.value, key.rest, p)
          case Err(e) => Err(e)
          case Ok(q) => DecLoop(mt, q.rest, q.value)
  }

  const MAX_REQUIRED: nat := 64

  function RequiredBefore(mt: MessageType, k: nat): nat
    requires k <= |mt.fields|
  {
    if k == 0 then 0 else RequiredBefore(mt, k - 1) + if mt.fields[k - 1].rule.Required? then 1 else 0
  }

  /** The bits of fields_seen cover the first 64 required fields. */
  predicate AllSeen(mt: MessageType, seen: set<nat>) {
    forall k | 0 <= k < |mt.fields| && mt.fields[k].rule.Required? && RequiredBefore(mt, k) < MAX_REQUIRED :: k in seen
  }

  /** pb_decode_noinit. */
  function DecMessage(mt: MessageType, start: seq<Slot>, input: seq<Byte>): Result<Message>
    requires |start| == |mt.fields|
    decreases mt, 2
  {
    match DecLoop(mt, input, Progress(start, 0, {}))
    case Err(e) => Err(e)
    case Ok(p) => if AllSeen(mt, p.seen) then Ok(Message(p.slots)) else Err(MissingRequiredField)
  }

  /** pb_decode. */
  function Decode(mt: MessageType, input: seq<Byte>): Result<Message> {
    DecMessage(mt, Defaults(mt), input)
  }
}
