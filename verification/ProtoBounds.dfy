/** Whatever bytes arrive: a message that pb_decode.c accepts fits the structure it was decoded into.  Arrays, strings
    and byte fields keep to their sizes, numbers to their widths, and no two members of a union are there together. */
module ProtoBounds {
  import opened Options
  import opened Bytes
  import opened Varints
  import opened ProtoWire
  import opened ProtoMessages

  // ----- what the structure can hold -----

  /** In contrast to ValueOk and ValueFits this also speaks of values that are not there. */
  ghost predicate Holds(t: Type, v: Value)
    decreases t
  {
    match t
    case Scalar(s) => ScalarOk(s, v)
    case Bytes(max) => v.S? && |v.s| <= max
    case String(max) => v.S? && |v.s| <= max && 0 !in v.s
    case FixedBytes(n) => v.S? && |v.s| == n
    case Submessage(mt) => v.M? && AllHold(mt, v.m.slots)
  }

  ghost predicate SlotHolds(f: Field, slot: Slot)
    decreases f
  {
    match f.rule
    case Required => slot.One? && Holds(f.t, slot.v)
    case Singular => slot.One? && Holds(f.t, slot.v)
    case Optional => slot.Maybe? && Holds(f.t, slot.v)
    case Oneof(_) => slot.Maybe? && Holds(f.t, slot.v)
    case Repeated(max) => slot.Many? && |slot.vs| <= max && forall i | 0 <= i < |slot.vs| :: Holds(f.t, slot.vs[i])
  }

  ghost predicate AllHold(mt: MessageType, slots: seq<Slot>)
    decreases mt
  {
    && |slots| == |mt.fields|
    && (forall i | 0 <= i < |mt.fields| :: SlotHolds(mt.fields[i], slots[i]))
    && OneInUnion(mt, slots)
  }

  lemma {:induction false} HoldingValueFits(t: Type, v: Value)
    requires Holds(t, v)
    ensures ValueOk(t, v) && ValueFits(t, v, false)
    decreases t
  {
    if t.Submessage? { HoldingMessageFits(t.m, v.m); }
  }

  lemma {:induction false} HoldingSlotFits(f: Field, slot: Slot)
    requires SlotHolds(f, slot)
    ensures SlotOk(f, slot) && SlotFits(f, slot, false)
    decreases f
  {
    if slot.Many? {
      forall i | 0 <= i < |slot.vs| ensures ValueOk(f.t, slot.vs[i]) && ValueFits(f.t, slot.vs[i], false) {
        HoldingValueFits(f.t, slot.vs[i]);
      }
    } else {
      HoldingValueFits(f.t, slot.v);
    }
  }

  lemma {:induction false} HoldingMessageFits(mt: MessageType, m: Message)
    requires AllHold(mt, m.slots)
    ensures MessageOk(mt, m) && Fits(mt, m, 0, false)
    decreases mt, 1
  {
    forall i | 0 <= i < |mt.fields| ensures SlotOk(mt.fields[i], m.slots[i]) {
      HoldingSlotFits(mt.fields[i], m.slots[i]);
    }
    HoldingRestFits(mt, m, 0);
  }

  lemma {:induction false} HoldingRestFits(mt: MessageType, m: Message, k: nat)
    requires AllHold(mt, m.slots) && MessageOk(mt, m) && k <= |mt.fields|
    ensures Fits(mt, m, k, false)
    decreases mt, 0, |mt.fields| - k
  {
    if k < |mt.fields| {
      HoldingSlotFits(mt.fields[k], m.slots[k]);
      HoldingRestFits(mt, m, k + 1);
    }
  }

  // ----- the defaults -----

  /** The generator's defaults fit their fields, at every depth. */
  ghost predicate DefaultsFit(mt: MessageType)
    decreases mt
  {
    forall i | 0 <= i < |mt.fields| :: DefaultFits(mt.fields[i])
  }

  ghost predicate DefaultFits(f: Field)
    decreases f
  {
    if f.t.Submessage? then DefaultsFit(f.t.m) else f.initial.Some? ==> Holds(f.t, f.initial.value)
  }

  lemma {:induction false} ZeroHolds(t: Type)
    requires t.Submessage? ==> DefaultsFit(t.m)
    ensures Holds(t, Zero(t))
    decreases t
  {
    if t.Submessage? { DefaultsHold(t.m); }
  }

  lemma {:induction false} DefaultsHold(mt: MessageType)
    requires DefaultsFit(mt)
    ensures AllHold(mt, Defaults(mt))
    decreases mt
  {
    forall i | 0 <= i < |mt.fields| ensures SlotHolds(mt.fields[i], DefaultSlot(mt.fields[i])) {
      assert DefaultFits(mt.fields[i]);
      ZeroHolds(mt.fields[i].t);
    }
  }

  // ----- one value -----

  lemma FromLittleFits(b: seq<Byte>)
    requires |b| in {4, 8}
    ensures FromLittle(b) < if |b| == 4 then TWO32 else TWO64
  {
    FromLittleBound(b);
  }

  lemma {:induction false} FromLittleBound(b: seq<Byte>)
    ensures FromLittle(b) < Pow256(|b|)
  {
    if b != [] { FromLittleBound(b[1..]); }
  }

  lemma NarrowHolds(s: Scalar, u: nat)
    requires s.Signed? || s.Unsigned? || s.Zigzagged?
    ensures Narrow(s, u).Ok? ==> ScalarOk(s, Narrow(s, u).value)
  {
  }

  lemma DecScalarHolds(s: Scalar, input: seq<Byte>)
    ensures DecScalar(s, input).Ok? ==> ScalarOk(s, DecScalar(s, input).value.value)
  {
    match s
    case Bool =>
    case Fixed32 => if |input| >= 4 { FromLittleFits(input[..4]); }
    case Fixed64 => if |input| >= 8 { FromLittleFits(input[..8]); }
    case _ => if ReadVarint(input).Ok? { NarrowHolds(s, ReadVarint(input).value.value); }
  }

  lemma {:induction false} DecItemsHold(s: Scalar, input: seq<Byte>, vs: seq<Value>, max: nat)
    requires |vs| <= max && forall i | 0 <= i < |vs| :: ScalarOk(s, vs[i])
    ensures var r := DecItems(s, input, vs, max);
            r.Ok? ==> |r.value| <= max && forall i | 0 <= i < |r.value| :: ScalarOk(s, r.value[i])
    decreases |input|
  {
    if input != [] && |vs| < max {
      DecScalarHolds(s, input);
      var r := DecScalar(s, input);
      if r.Ok? { DecItemsHold(s, r.value.rest, vs + [r.value.value], max); }
    }
  }

  lemma {:induction false} UpToNulHolds(s: seq<Byte>)
    ensures |UpToNul(s)| <= |s| && 0 !in UpToNul(s)
  {
    if s != [] && s[0] != 0 { UpToNulHolds(s[1..]); }
  }

  lemma DecStringHolds(max: nat, was: Value, input: seq<Byte>)
    ensures var r := DecValue(String(max), was, input); r.Ok? ==> Holds(String(max), r.value.value)
  {
    var r := ReadVarint32(input);
    if r.Ok? && r.value.value <= |r.value.rest| { UpToNulHolds(r.value.rest[..r.value.value]); }
  }

  lemma {:induction false} DecValueHolds(t: Type, was: Value, input: seq<Byte>)
    requires t.Submessage? ==> DefaultsFit(t.m) && Holds(t, was)
    ensures DecValue(t, was, input).Ok? ==> Holds(t, DecValue(t, was, input).value.value)
    decreases t
  {
    match t
    case Scalar(s) => DecScalarHolds(s, input);
    case String(max) => DecStringHolds(max, was, input);
    case Submessage(mt) =>
      var r := TakeDelimited(input, ParentTooShort);
      if r.Ok? { DecMessageHolds(mt, was.m.slots, r.value.value); }
    case _ =>
  }

  // ----- fields and messages -----

  lemma {:induction false} DecSlotHolds(f: Field, slot: Slot, wireType: nat, input: seq<Byte>)
    requires DefaultFits(f) && SlotHolds(f, slot)
    ensures var r := DecSlot(f, slot, wireType, input);
            r.Ok? ==> SlotHolds(f, r.value.value) && (Has(r.value.value) ==> f.rule.Optional? || f.rule.Oneof?)
    decreases f, 1
  {
    ZeroHolds(f.t);
    if !f.rule.Repeated? {
      DecValueHolds(f.t, if f.rule.Oneof? then Zero(f.t) else slot.v, input);
    } else if wireType == 2 && f.t.Scalar? {
      var r := TakeDelimited(input, ParentTooShort);
      if r.Ok? { DecItemsHold(f.t.s, r.value.value, slot.vs, f.rule.max); }
    } else {
      DecValueHolds(f.t, Zero(f.t), input);
    }
  }

  lemma StoreHolds(mt: MessageType, slots: seq<Slot>, k: nat, slot: Slot)
    requires AllHold(mt, slots) && k < |mt.fields| && SlotHolds(mt.fields[k], slot)
    ensures AllHold(mt, Store(mt, slots, k, slot))
  {
    var r := Store(mt, slots, k, slot);
    forall i | 0 <= i < |mt.fields| ensures SlotHolds(mt.fields[i], r[i]) {
    }
    forall i, j | 0 <= i < j < |mt.fields| && SameUnion(mt.fields[i], mt.fields[j]) ensures !(Has(r[i]) && Has(r[j])) {
      if i != k && j != k { assert !(Has(slots[i]) && Has(slots[j])); }
    }
  }

  lemma {:induction false} DecFieldHolds(mt: MessageType, key: nat, input: seq<Byte>, p: Progress)
    requires ProgressOk(mt, p) && DefaultsFit(mt) && AllHold(mt, p.slots)
    ensures var r := DecField(mt, key, input, p); r.Ok? ==> AllHold(mt, r.value.value.slots)
    decreases mt, 0
  {
    var found := Find(mt, p.pos, key / 8);
    if found.Some? {
      var k := found.value;
      assert DefaultFits(mt.fields[k]);
      DecSlotHolds(mt.fields[k], p.slots[k], key % 8, input);
      var r := DecSlot(mt.fields[k], p.slots[k], key % 8, input);
      if r.Ok? { StoreHolds(mt, p.slots, k, r.value.value); }
    }
  }

  lemma {:induction false} DecLoopHolds(mt: MessageType, input: seq<Byte>, p: Progress)
    requires ProgressOk(mt, p) && DefaultsFit(mt) && AllHold(mt, p.slots)
    ensures var r := DecLoop(mt, input, p); r.Ok? ==> AllHold(mt, r.value.slots)
    decreases mt, 1, |input|
  {
    if input != [] && ReadVarint32(input).Ok? {
      var key := ReadVarint32(input).value;
      if key.value != 0 {
        DecFieldHolds(mt, key.value, key.rest, p);
        var q := DecField(mt, key.value, key.rest, p);
        if q.Ok? { DecLoopHolds(mt, q.value.rest, q.value.value); }
      }
    }
  }

  lemma {:induction false} DecMessageHolds(mt: MessageType, start: seq<Slot>, input: seq<Byte>)
    requires DefaultsFit(mt) && AllHold(mt, start)
    ensures var r := DecMessage(mt, start, input); r.Ok? ==> AllHold(mt, r.value.slots)
    decreases mt, 2
  {
    DecLoopHolds(mt, input, Progress(start, 0, {}));
  }

  /** pb_decode on any bytes: what it accepts is a message that the structure can hold. */
  lemma DecodedFits(mt: MessageType, input: seq<Byte>)
    requires DefaultsFit(mt)
    ensures var r := Decode(mt, input); r.Ok? ==> MessageOk(mt, r.value) && Fits(mt, r.value, 0, false)
  {
    DefaultsHold(mt);
    DecMessageHolds(mt, Defaults(mt), input);
    var r := Decode(mt, input);
    if r.Ok? { HoldingMessageFits(mt, r.value); }
  }
}
