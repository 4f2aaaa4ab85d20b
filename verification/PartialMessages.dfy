/** Messages that were encoded without some of their fields, at any depth: decoding them fails if and only if a required
    field among the first 64 of its message is left out; otherwise the fields that are there arrive (pb_decode.c). */
module PartialMessages {
  import opened Options
  import opened Bytes
  import opened Varints
  import opened ProtoWire
  import opened ProtoMessages
  import opened ProtoRoundTrip
  import opened ProtoDecode
  import opened WireItems
  import opened WireLaws

  // ----- what is left out -----

  /** For each field whether it is written, and if so what is left out of the submessages in it. */
  datatype Mask = Mask(keeps: seq<Keep>)

  datatype Keep = Out | In(inner: seq<Mask>)

  function KeepAt(mask: Option<Mask>, k: nat): Keep {
    if mask.Some? && k < |mask.value.keeps| then mask.value.keeps[k] else In([])
  }

  function InnerAt(keep: Keep, j: nat): Option<Mask> {
    if keep.In? && j < |keep.inner| then Some(keep.inner[j]) else None
  }

  // ----- the items that are written -----

  ghost function ValOf(t: Type, v: Value, mask: Option<Mask>): Val
    requires ValueOk(t, v)
    decreases t, 2
  {
    match t
    case Submessage(mt) => Sub(ItemsFrom(mt, v.m, mask, 0))
    case _ => Plain(v)
  }

  ghost function EachItem(k: nat, f: Field, vs: seq<Value>, keep: Keep, j: nat): seq<Item>
    requires j <= |vs| && forall i | 0 <= i < |vs| :: ValueOk(f.t, vs[i])
    decreases f, 1, |vs| - j
  {
    if j == |vs| then [] else [Known(k, Single(ValOf(f.t, vs[j], InnerAt(keep, j))))] + EachItem(k, f, vs, keep, j + 1)
  }

  ghost function SlotItems(k: nat, f: Field, slot: Slot, keep: Keep): seq<Item>
    requires SlotOk(f, slot)
    decreases f, 2
  {
    if keep.Out? || !Written(f, slot) then []
    else if !f.rule.Repeated? then [Known(k, Single(ValOf(f.t, slot.v, InnerAt(keep, 0))))]
    else if f.t.Scalar? then [Known(k, Packed(slot.vs))]
    else EachItem(k, f, slot.vs, keep, 0)
  }

  /** The field is there to be written. */
  ghost predicate Written(f: Field, slot: Slot)
    requires SlotOk(f, slot)
  {
    match f.rule
    case Required => true
    case Singular => !IsDefault(f.t, slot.v)
    case Optional => slot.has
    case Oneof(_) => slot.has
    case Repeated(_) => slot.vs != []
  }

  ghost function ItemsFrom(mt: MessageType, m: Message, mask: Option<Mask>, k: nat): seq<Item>
    requires MessageOk(mt, m) && k <= |mt.fields|
    decreases mt, |mt.fields| - k
  {
    if k == |mt.fields| then []
    else SlotItems(k, mt.fields[k], m.slots[k], KeepAt(mask, k)) + ItemsFrom(mt, m, mask, k + 1)
  }

  /** All items are good. */
  lemma {:induction false} ValIsGood(t: Type, v: Value, mask: Option<Mask>)
    requires ValueOk(t, v)
    ensures GoodVal(t, ValOf(t, v, mask))
    decreases t, 2
  {
    if t.Submessage? { ItemsAreGood(t.m, v.m, mask, 0); }
  }

  lemma {:induction false} EachIsGood(mt: MessageType, k: nat, vs: seq<Value>, keep: Keep, j: nat)
    requires k < |mt.fields| && j <= |vs| && forall i | 0 <= i < |vs| :: ValueOk(mt.fields[k].t, vs[i])
    ensures GoodItems(mt, EachItem(k, mt.fields[k], vs, keep, j))
    decreases mt, 0, 1, |vs| - j
  {
    if j < |vs| {
      var f := mt.fields[k];
      assert ValueOk(f.t, vs[j]);
      ValIsGood(f.t, vs[j], InnerAt(keep, j));
      EachIsGood(mt, k, vs, keep, j + 1);
      assert GoodContent(f, Single(ValOf(f.t, vs[j], InnerAt(keep, j))));
      FirstIsGood(mt, Known(k, Single(ValOf(f.t, vs[j], InnerAt(keep, j)))), EachItem(k, f, vs, keep, j + 1));
    }
  }

  lemma FirstIsGood(mt: MessageType, i: Item, items: seq<Item>)
    requires GoodItem(mt, i) && GoodItems(mt, items)
    ensures GoodItems(mt, [i] + items)
  {
  }

  lemma {:induction false} SlotIsGood(mt: MessageType, k: nat, slot: Slot, keep: Keep)
    requires k < |mt.fields| && SlotOk(mt.fields[k], slot)
    ensures GoodItems(mt, SlotItems(k, mt.fields[k], slot, keep))
    decreases mt, 0, 2
  {
    var f := mt.fields[k];
    if keep.In? && Written(f, slot) {
      if !f.rule.Repeated? {
        ValIsGood(f.t, slot.v, InnerAt(keep, 0));
        assert GoodContent(f, Single(ValOf(f.t, slot.v, InnerAt(keep, 0))));
      } else if f.t.Scalar? {
        assert GoodContent(f, Packed(slot.vs));
      } else {
        EachIsGood(mt, k, slot.vs, keep, 0);
      }
    }
  }

  lemma {:induction false} ItemsAreGood(mt: MessageType, m: Message, mask: Option<Mask>, k: nat)
    requires MessageOk(mt, m) && k <= |mt.fields|
    ensures GoodItems(mt, ItemsFrom(mt, m, mask, k))
    decreases mt, 1, |mt.fields| - k
  {
    if k < |mt.fields| {
      assert SlotOk(mt.fields[k], m.slots[k]);
      SlotIsGood(mt, k, m.slots[k], KeepAt(mask, k));
      ItemsAreGood(mt, m, mask, k + 1);
      BothAreGood(mt, SlotItems(k, mt.fields[k], m.slots[k], KeepAt(mask, k)), ItemsFrom(mt, m, mask, k + 1));
    }
  }

  lemma BothAreGood(mt: MessageType, a: seq<Item>, b: seq<Item>)
    requires GoodItems(mt, a) && GoodItems(mt, b)
    ensures GoodItems(mt, a + b)
  {
  }

  // ----- a message with nothing left out -----

  lemma {:induction false} EncBoth(mt: MessageType, a: seq<Item>, b: seq<Item>)
    requires GoodItems(mt, a) && GoodItems(mt, b)
    ensures GoodItems(mt, a + b) && EncAll(mt, a + b) == EncAll(mt, a) + EncAll(mt, b)
    decreases |a|
  {
    BothAreGood(mt, a, b);
    if a == [] {
      assert a + b == b;
    } else {
      assert (a + b)[0] == a[0] && (a + b)[1..] == a[1..] + b;
      EncBoth(mt, a[1..], b);
      Assoc(EncItem(mt, a[0]), EncAll(mt, a[1..]), EncAll(mt, b));
    }
  }

  lemma EncOne(mt: MessageType, i: Item)
    requires GoodItem(mt, i)
    ensures GoodItems(mt, [i]) && EncAll(mt, [i]) == EncItem(mt, i)
  {
    assert [i][1..] == [] && EncItem(mt, i) + [] == EncItem(mt, i);
  }

  lemma {:induction false} ValBytes(t: Type, v: Value)
    requires ValueOk(t, v)
    ensures GoodVal(t, ValOf(t, v, None)) && EncVal(t, ValOf(t, v, None)) == EncValue(t, v)
    decreases t, 2
  {
    ValIsGood(t, v, None);
    if t.Submessage? { ItemsBytes(t.m, v.m, 0); }
  }

  lemma {:induction false} EachBytes(mt: MessageType, k: nat, vs: seq<Value>, j: nat)
    requires k < |mt.fields| && j <= |vs| && forall i | 0 <= i < |vs| :: ValueOk(mt.fields[k].t, vs[i])
    ensures var items := EachItem(k, mt.fields[k], vs, In([]), j);
            GoodItems(mt, items) && EncAll(mt, items) == EncEach(mt.fields[k], vs[j..])
    decreases mt, 0, 1, |vs| - j
  {
    EachIsGood(mt, k, vs, In([]), j);
    if j < |vs| {
      var f := mt.fields[k];
      ValBytes(f.t, vs[j]);
      EachBytes(mt, k, vs, j + 1);
      var i, rest := Known(k, Single(ValOf(f.t, vs[j], None))), EachItem(k, f, vs, In([]), j + 1);
      assert EachItem(k, f, vs, In([]), j) == [i] + rest && ([i] + rest)[1..] == rest;
      assert GoodContent(f, i.c) && EncItem(mt, i) == EncTagged(f, vs[j]);
      assert vs[j..][1..] == vs[j + 1..];
    }
  }

  lemma {:induction false} SlotBytes(mt: MessageType, k: nat, slot: Slot)
    requires k < |mt.fields| && SlotOk(mt.fields[k], slot)
    ensures var items := SlotItems(k, mt.fields[k], slot, In([]));
            GoodItems(mt, items) && EncAll(mt, items) == EncSlot(mt.fields[k], slot)
    decreases mt, 0, 2
  {
    var f := mt.fields[k];
    SlotIsGood(mt, k, slot, In([]));
    if Written(f, slot) {
      if !f.rule.Repeated? {
        ValBytes(f.t, slot.v);
        var i := Known(k, Single(ValOf(f.t, slot.v, None)));
        assert GoodContent(f, i.c) && EncItem(mt, i) == EncTagged(f, slot.v);
        EncOne(mt, i);
      } else if f.t.Scalar? {
        EncOne(mt, Known(k, Packed(slot.vs)));
      } else {
        EachBytes(mt, k, slot.vs, 0);
        assert slot.vs[0..] == slot.vs;
      }
    }
  }

  lemma {:induction false} ItemsBytes(mt: MessageType, m: Message, k: nat)
    requires MessageOk(mt, m) && k <= |mt.fields|
    ensures var items := ItemsFrom(mt, m, None, k);
            GoodItems(mt, items) && EncAll(mt, items) == EncFrom(mt, m, k)
    decreases mt, 1, |mt.fields| - k
  {
    ItemsAreGood(mt, m, None, k);
    if k < |mt.fields| {
      assert SlotOk(mt.fields[k], m.slots[k]);
      SlotBytes(mt, k, m.slots[k]);
      ItemsBytes(mt, m, k + 1);
      EncBoth(mt, SlotItems(k, mt.fields[k], m.slots[k], In([])), ItemsFrom(mt, m, None, k + 1));
    }
  }

  /** The items go up in the order of the descriptor. */
  ghost predicate Ascending(items: seq<Item>) {
    forall i, j | 0 <= i < j < |items| :: items[i].Known? && items[j].Known? && items[i].k <= items[j].k
  }

  ghost predicate AllOf(items: seq<Item>, k: nat) {
    forall i | 0 <= i < |items| :: items[i].Known? && items[i].k == k
  }

  lemma {:induction false} EachIsOf(k: nat, f: Field, vs: seq<Value>, keep: Keep, j: nat)
    requires j <= |vs| && forall i | 0 <= i < |vs| :: ValueOk(f.t, vs[i])
    ensures AllOf(EachItem(k, f, vs, keep, j), k)
    decreases |vs| - j
  {
    if j < |vs| { EachIsOf(k, f, vs, keep, j + 1); }
  }

  lemma SlotIsOf(k: nat, f: Field, slot: Slot, keep: Keep)
    requires SlotOk(f, slot)
    ensures AllOf(SlotItems(k, f, slot, keep), k)
  {
    if f.rule.Repeated? { EachIsOf(k, f, slot.vs, keep, 0); }
  }

  lemma {:induction false} ItemsAscend(mt: MessageType, m: Message, mask: Option<Mask>, k: nat)
    requires MessageOk(mt, m) && k <= |mt.fields|
    ensures var items := ItemsFrom(mt, m, mask, k);
            Ascending(items) && forall i | 0 <= i < |items| :: items[i].Known? && k <= items[i].k < |mt.fields|
    decreases |mt.fields| - k
  {
    if k < |mt.fields| {
      assert SlotOk(mt.fields[k], m.slots[k]);
      ItemsAscend(mt, m, mask, k + 1);
      SlotIsOf(k, mt.fields[k], m.slots[k], KeepAt(mask, k));
      OneFieldMore(SlotItems(k, mt.fields[k], m.slots[k], KeepAt(mask, k)), ItemsFrom(mt, m, mask, k + 1), k,
                   |mt.fields|);
    }
  }

  lemma OneFieldMore(a: seq<Item>, b: seq<Item>, k: nat, n: nat)
    requires AllOf(a, k) && Ascending(b) && k < n
    requires forall i | 0 <= i < |b| :: b[i].Known? && k < b[i].k < n
    ensures Ascending(a + b) && forall i | 0 <= i < |a + b| :: (a + b)[i].Known? && k <= (a + b)[i].k < n
  {
  }

  /** What the encoder writes for a message: the items of its fields that are there, in the order of the descriptor. */
  lemma EncodedIsItems(mt: MessageType, m: Message)
    requires MessageOk(mt, m)
    ensures var items := ItemsFrom(mt, m, None, 0);
            GoodItems(mt, items) && Ascending(items) && Encoded(mt, m) == EncAll(mt, items)
  {
    ItemsBytes(mt, m, 0);
    ItemsAscend(mt, m, None, 0);
  }

  // ----- what is missing, and what arrives -----

  ghost predicate ValueMisses(t: Type, v: Value, mask: Option<Mask>)
    requires ValueOk(t, v)
    decreases t, 2
  {
    t.Submessage? && Misses(t.m, v.m, mask)
  }

  ghost predicate SlotMisses(f: Field, slot: Slot, keep: Keep)
    requires SlotOk(f, slot)
    decreases f, 2
  {
    keep.In? && Written(f, slot)
    && if f.rule.Repeated? then exists j: nat :: j < |slot.vs| && ValueMisses(f.t, slot.vs[j], InnerAt(keep, j))
       else ValueMisses(f.t, slot.v, InnerAt(keep, 0))
  }

  /** A required field among the first 64 is left out, here or in a submessage that is written. */
  ghost predicate Misses(mt: MessageType, m: Message, mask: Option<Mask>)
    requires MessageOk(mt, m)
    decreases mt, 1
  {
    || (exists k: nat :: IsTracked(mt, k) && KeepAt(mask, k).Out?)
    || exists k: nat :: k < |mt.fields| && SlotMisses(mt.fields[k], m.slots[k], KeepAt(mask, k))
  }

  ghost predicate PartValue(t: Type, a: Value, b: Value, mask: Option<Mask>)
    decreases t, 2
  {
    if t.Submessage? then a.M? && b.M? && PartMessage(t.m, a.m, b.m, mask) else a == b
  }

  /** A field that was left out has its default; one that was written arrives. */
  ghost predicate PartSlot(f: Field, a: Slot, b: Slot, keep: Keep)
    decreases f, 2
  {
    if keep.Out? then b == DefaultSlot(f)
    else
      match f.rule
      case Required => a.One? && b.One? && PartValue(f.t, a.v, b.v, InnerAt(keep, 0))
      case Singular =>
        && a.One?
        && if IsDefault(f.t, a.v) then b == DefaultSlot(f) else b.One? && PartValue(f.t, a.v, b.v, InnerAt(keep, 0))
      case Optional => a.Maybe? && b.Maybe? && a.has == b.has && (a.has ==> PartValue(f.t, a.v, b.v, InnerAt(keep, 0)))
      case Oneof(_) => a.Maybe? && b.Maybe? && a.has == b.has && (a.has ==> PartValue(f.t, a.v, b.v, InnerAt(keep, 0)))
      case Repeated(_) =>
        && a.Many? && b.Many? && |a.vs| == |b.vs|
        && forall i: nat | i < |a.vs| :: PartValue(f.t, a.vs[i], b.vs[i], InnerAt(keep, i))
  }

  ghost predicate PartMessage(mt: MessageType, a: Message, b: Message, mask: Option<Mask>)
    decreases mt, 1
  {
    && |a.slots| == |b.slots| == |mt.fields|
    && forall i: nat | i < |mt.fields| :: PartSlot(mt.fields[i], a.slots[i], b.slots[i], KeepAt(mask, i))
  }

  // ----- which fields occur -----

  lemma OccursInBoth(a: seq<Item>, b: seq<Item>, k: nat)
    ensures Occurs(a + b, k) <==> Occurs(a, k) || Occurs(b, k)
  {
    if i :| 0 <= i < |a| && a[i].Known? && a[i].k == k { assert (a + b)[i] == a[i]; }
    if i :| 0 <= i < |b| && b[i].Known? && b[i].k == k { assert (a + b)[|a| + i] == b[i]; }
    if i :| 0 <= i < |a + b| && (a + b)[i].Known? && (a + b)[i].k == k {
      assert if i < |a| then a[i] == (a + b)[i] else b[i - |a|] == (a + b)[i];
    }
  }

  /** A required field has an item unless it is left out. */
  lemma {:induction false} RequiredOccurs(mt: MessageType, m: Message, mask: Option<Mask>, from: nat, k: nat)
    requires MessageOk(mt, m) && from <= k < |mt.fields| && mt.fields[k].rule.Required?
    ensures Occurs(ItemsFrom(mt, m, mask, from), k) <==> KeepAt(mask, k).In?
    decreases k - from
  {
    assert SlotOk(mt.fields[from], m.slots[from]);
    var here := SlotItems(from, mt.fields[from], m.slots[from], KeepAt(mask, from));
    var rest := ItemsFrom(mt, m, mask, from + 1);
    OccursInBoth(here, rest, k);
    SlotIsOf(from, mt.fields[from], m.slots[from], KeepAt(mask, from));
    if from < k {
      RequiredOccurs(mt, m, mask, from + 1, k);
    } else {
      ItemsAscend(mt, m, mask, k + 1);
      if KeepAt(mask, k).In? { assert here[0].Known? && here[0].k == k; }
    }
  }

  lemma LacksIff(mt: MessageType, m: Message, mask: Option<Mask>)
    requires MessageOk(mt, m)
    ensures LacksField(mt, ItemsFrom(mt, m, mask, 0)) <==> exists k: nat :: IsTracked(mt, k) && KeepAt(mask, k).Out?
  {
    forall k: nat | IsTracked(mt, k)
      ensures Occurs(ItemsFrom(mt, m, mask, 0), k) <==> KeepAt(mask, k).In?
    {
      RequiredOccurs(mt, m, mask, 0, k);
    }
    if k: nat :| IsTracked(mt, k) && KeepAt(mask, k).Out? { assert !Occurs(ItemsFrom(mt, m, mask, 0), k); }
  }

  // ----- the slots on the way -----

  /** The fields before k have arrived, those after k are untouched. */
  ghost predicate PartAround(mt: MessageType, m: Message, mask: Option<Mask>, k: nat, slots: seq<Slot>)
    requires |m.slots| == |mt.fields|
  {
    && |slots| == |mt.fields|
    && (forall i: nat | i < k && i < |mt.fields| :: PartSlot(mt.fields[i], m.slots[i], slots[i], KeepAt(mask, i)))
    && (forall i: nat | k < i < |mt.fields| :: slots[i] == DefaultSlot(mt.fields[i]))
  }

  ghost predicate PartUpto(mt: MessageType, m: Message, mask: Option<Mask>, k: nat, slots: seq<Slot>)
    requires |m.slots| == |mt.fields|
  {
    PartAround(mt, m, mask, k, slots) && (k < |mt.fields| ==> slots[k] == DefaultSlot(mt.fields[k]))
  }

  lemma StoreKeepsPart(mt: MessageType, m: Message, mask: Option<Mask>, k: nat, slots: seq<Slot>, slot: Slot)
    requires MessageOk(mt, m) && k < |mt.fields| && PartAround(mt, m, mask, k, slots)
    requires mt.fields[k].rule.Oneof? ==> Has(m.slots[k])
    ensures PartAround(mt, m, mask, k, Store(mt, slots, k, slot)) && Store(mt, slots, k, slot)[k] == slot
  {
    var next := Store(mt, slots, k, slot);
    forall i: nat | i < k ensures PartSlot(mt.fields[i], m.slots[i], next[i], KeepAt(mask, i)) {
      if SameUnion(mt.fields[i], mt.fields[k]) {
        assert SlotOk(mt.fields[i], m.slots[i]);
        OtherMember(mt, m.slots, i, k);
      }
    }
  }

  lemma PartAdvance(mt: MessageType, m: Message, mask: Option<Mask>, k: nat, slots: seq<Slot>)
    requires MessageOk(mt, m) && k < |mt.fields| && PartAround(mt, m, mask, k, slots)
    requires PartSlot(mt.fields[k], m.slots[k], slots[k], KeepAt(mask, k))
    ensures PartUpto(mt, m, mask, k + 1, slots)
  {
  }

  lemma UnwrittenHasDefault(f: Field, slot: Slot, keep: Keep)
    requires SlotOk(f, slot) && (keep.Out? || !Written(f, slot))
    ensures PartSlot(f, slot, DefaultSlot(f), keep)
  {
  }

  // ----- the theorem -----

  /** A value: missing, or arrived. */
  ghost predicate ValueOutcome(t: Type, v: Value, mask: Option<Mask>, r: Result<Value>)
    requires ValueOk(t, v)
  {
    if ValueMisses(t, v, mask) then r == Err(MissingRequiredField) else r.Ok? && PartValue(t, v, r.value, mask)
  }

  lemma {:induction false} ValuePart(t: Type, v: Value, mask: Option<Mask>, was: Value)
    requires ValueOk(t, v) && ValueFits(t, v, true) && (t.Submessage? ==> was == Zero(t))
    ensures GoodVal(t, ValOf(t, v, mask)) && ValueOutcome(t, v, mask, Meaning(t, was, ValOf(t, v, mask)))
    decreases t, 2
  {
    ValIsGood(t, v, mask);
    match t
    case Submessage(mt) =>
      MessagePart(mt, v.m, mask);
      assert Zero(t) == M(Message(Defaults(mt)));
    case String(_) => NoNul(v.s);
    case FixedBytes(n) => if n == 0 { assert v.s == Zeros(0); }
    case _ =>
  }

  lemma {:induction false} MessagePart(mt: MessageType, m: Message, mask: Option<Mask>)
    requires MessageOk(mt, m) && Fits(mt, m, 0, true)
    ensures GoodItems(mt, ItemsFrom(mt, m, mask, 0))
    ensures var r := MessageOf(mt, Defaults(mt), ItemsFrom(mt, m, mask, 0));
            if Misses(mt, m, mask) then r == Err(MissingRequiredField)
            else r.Ok? && PartMessage(mt, m, r.value, mask)
    decreases mt, 1
  {
    ItemsAreGood(mt, m, mask, 0);
    LacksIff(mt, m, mask);
    FieldsPart(mt, m, mask, 0, Defaults(mt));
  }

  ghost predicate SomeMisses(mt: MessageType, m: Message, mask: Option<Mask>, k: nat)
    requires MessageOk(mt, m)
  {
    exists j: nat :: k <= j < |mt.fields| && SlotMisses(mt.fields[j], m.slots[j], KeepAt(mask, j))
  }

  lemma NextMisses(mt: MessageType, m: Message, mask: Option<Mask>, k: nat)
    requires MessageOk(mt, m) && k < |mt.fields|
    ensures SlotOk(mt.fields[k], m.slots[k])
    ensures SomeMisses(mt, m, mask, k)
       <==> SlotMisses(mt.fields[k], m.slots[k], KeepAt(mask, k)) || SomeMisses(mt, m, mask, k + 1)
  {
  }

  lemma {:induction false} FieldsPart(mt: MessageType, m: Message, mask: Option<Mask>, k: nat, slots: seq<Slot>)
    requires MessageOk(mt, m) && k <= |mt.fields| && Fits(mt, m, k, true) && PartUpto(mt, m, mask, k, slots)
    ensures GoodItems(mt, ItemsFrom(mt, m, mask, k))
    ensures var r := SlotsAfterAll(mt, slots, ItemsFrom(mt, m, mask, k));
            if SomeMisses(mt, m, mask, k) then r == Err(MissingRequiredField)
            else r.Ok? && PartUpto(mt, m, mask, |mt.fields|, r.value)
    decreases mt, 0, |mt.fields| - k + 2
  {
    ItemsAreGood(mt, m, mask, k);
    if k < |mt.fields| {
      NextMisses(mt, m, mask, k);
      FitsStep(mt, m, k, true);
      ItemsAreGood(mt, m, mask, k + 1);
      FieldPart(mt, m, mask, k, slots);
      var here := SlotItems(k, mt.fields[k], m.slots[k], KeepAt(mask, k));
      SlotsAfterBoth(mt, slots, here, ItemsFrom(mt, m, mask, k + 1));
      var next := SlotsAfterAll(mt, slots, here);
      if next.Ok? { FieldsPart(mt, m, mask, k + 1, next.value); }
    }
  }

  lemma {:induction false} FieldPart(mt: MessageType, m: Message, mask: Option<Mask>, k: nat, slots: seq<Slot>)
    requires MessageOk(mt, m) && k < |mt.fields| && SlotOk(mt.fields[k], m.slots[k])
    requires SlotFits(mt.fields[k], m.slots[k], true) && PartUpto(mt, m, mask, k, slots)
    ensures var f, slot, keep := mt.fields[k], m.slots[k], KeepAt(mask, k);
            && GoodItems(mt, SlotItems(k, f, slot, keep))
            && var r := SlotsAfterAll(mt, slots, SlotItems(k, f, slot, keep));
               if SlotMisses(f, slot, keep) then r == Err(MissingRequiredField)
               else r.Ok? && PartUpto(mt, m, mask, k + 1, r.value)
    decreases mt, 0, 1
  {
    var f, slot, keep := mt.fields[k], m.slots[k], KeepAt(mask, k);
    SlotIsGood(mt, k, slot, keep);
    if keep.Out? || !Written(f, slot) {
      UnwrittenHasDefault(f, slot, keep);
      PartAdvance(mt, m, mask, k, slots);
    } else if !f.rule.Repeated? {
      OnePart(mt, m, mask, k, slots);
    } else if f.t.Scalar? {
      PackedPart(mt, m, mask, k, slots);
    } else {
      EachPart(mt, m, mask, k, 0, slots);
    }
  }

  lemma {:induction false} OnePart(mt: MessageType, m: Message, mask: Option<Mask>, k: nat, slots: seq<Slot>)
    requires MessageOk(mt, m) && k < |mt.fields| && SlotOk(mt.fields[k], m.slots[k])
    requires SlotFits(mt.fields[k], m.slots[k], true) && PartUpto(mt, m, mask, k, slots)
    requires KeepAt(mask, k).In? && Written(mt.fields[k], m.slots[k]) && !mt.fields[k].rule.Repeated?
    ensures var f, slot, keep := mt.fields[k], m.slots[k], KeepAt(mask, k);
            && GoodItems(mt, SlotItems(k, f, slot, keep))
            && var r := SlotsAfterAll(mt, slots, SlotItems(k, f, slot, keep));
               if SlotMisses(f, slot, keep) then r == Err(MissingRequiredField)
               else r.Ok? && PartUpto(mt, m, mask, k + 1, r.value)
    decreases mt, 0, 0
  {
    var f, slot, inner := mt.fields[k], m.slots[k], InnerAt(KeepAt(mask, k), 0);
    var v := ValOf(f.t, slot.v, inner);
    var i, was := Known(k, Single(v)), if f.rule.Oneof? then Zero(f.t) else InitialValue(f);
    ValuePart(f.t, slot.v, inner, was);
    assert GoodContent(f, Single(v));
    OneItemAfter(mt, slots, i);
    var x := Meaning(f.t, was, v);
    if x.Ok? {
      var next := if f.rule.Optional? || f.rule.Oneof? then Maybe(true, x.value) else One(x.value);
      assert SlotAfter(f, slots[k], Single(v)) == Ok(next);
      StoreKeepsPart(mt, m, mask, k, slots, next);
      PartAdvance(mt, m, mask, k, Store(mt, slots, k, next));
    }
  }

  lemma PackedPart(mt: MessageType, m: Message, mask: Option<Mask>, k: nat, slots: seq<Slot>)
    requires MessageOk(mt, m) && k < |mt.fields| && SlotOk(mt.fields[k], m.slots[k])
    requires SlotFits(mt.fields[k], m.slots[k], true) && PartUpto(mt, m, mask, k, slots)
    requires KeepAt(mask, k).In? && Written(mt.fields[k], m.slots[k]) && IsArray(mt, k)
    ensures var f, slot, keep := mt.fields[k], m.slots[k], KeepAt(mask, k);
            && GoodItems(mt, SlotItems(k, f, slot, keep)) && !SlotMisses(f, slot, keep)
            && var r := SlotsAfterAll(mt, slots, SlotItems(k, f, slot, keep));
               r.Ok? && PartUpto(mt, m, mask, k + 1, r.value)
  {
    var f, slot := mt.fields[k], m.slots[k];
    var i := Known(k, Packed(slot.vs));
    assert GoodContent(f, Packed(slot.vs)) && [] + slot.vs == slot.vs;
    OneItemAfter(mt, slots, i);
    assert SlotAfter(f, slots[k], i.c) == Ok(Many(slot.vs));
    StoreKeepsPart(mt, m, mask, k, slots, Many(slot.vs));
    PartAdvance(mt, m, mask, k, Store(mt, slots, k, Many(slot.vs)));
  }

  /** At entry j of an array that is not packed. */
  ghost predicate AtPart(mt: MessageType, m: Message, mask: Option<Mask>, k: nat, j: nat, slots: seq<Slot>) {
    && MessageOk(mt, m) && k < |mt.fields| && PartAround(mt, m, mask, k, slots) && SlotOk(mt.fields[k], m.slots[k])
    && mt.fields[k].rule.Repeated? && !mt.fields[k].t.Scalar? && KeepAt(mask, k).In?
    && SlotFits(mt.fields[k], m.slots[k], true) && j <= |m.slots[k].vs|
    && slots[k].Many? && |slots[k].vs| == j
    && forall i: nat | i < j ::
         PartValue(mt.fields[k].t, m.slots[k].vs[i], slots[k].vs[i], InnerAt(KeepAt(mask, k), i))
  }

  ghost predicate EntryMisses(f: Field, vs: seq<Value>, keep: Keep, j: nat)
    requires forall i | 0 <= i < |vs| :: ValueOk(f.t, vs[i])
  {
    exists i: nat :: j <= i < |vs| && ValueMisses(f.t, vs[i], InnerAt(keep, i))
  }

  lemma NextEntryMisses(f: Field, vs: seq<Value>, keep: Keep, j: nat)
    requires j < |vs| && forall i | 0 <= i < |vs| :: ValueOk(f.t, vs[i])
    ensures EntryMisses(f, vs, keep, j)
       <==> ValueMisses(f.t, vs[j], InnerAt(keep, j)) || EntryMisses(f, vs, keep, j + 1)
  {
  }

  lemma {:induction false} EachPart(mt: MessageType, m: Message, mask: Option<Mask>, k: nat, j: nat, slots: seq<Slot>)
    requires AtPart(mt, m, mask, k, j, slots)
    ensures var f, vs, keep := mt.fields[k], m.slots[k].vs, KeepAt(mask, k);
            && GoodItems(mt, EachItem(k, f, vs, keep, j))
            && var r := SlotsAfterAll(mt, slots, EachItem(k, f, vs, keep, j));
               if EntryMisses(f, vs, keep, j) then r == Err(MissingRequiredField)
               else r.Ok? && PartUpto(mt, m, mask, k + 1, r.value)
    decreases mt, 0, 0, |m.slots[k].vs| - j
  {
    var f, vs, keep := mt.fields[k], m.slots[k].vs, KeepAt(mask, k);
    EachIsGood(mt, k, vs, keep, j);
    if j == |vs| {
      PartAdvance(mt, m, mask, k, slots);
    } else {
      assert ValueOk(f.t, vs[j]) && ValueFits(f.t, vs[j], true);
      var v := ValOf(f.t, vs[j], InnerAt(keep, j));
      var i, rest := Known(k, Single(v)), EachItem(k, f, vs, keep, j + 1);
      ValuePart(f.t, vs[j], InnerAt(keep, j), Zero(f.t));
      EachIsGood(mt, k, vs, keep, j + 1);
      NextEntryMisses(f, vs, keep, j);
      assert GoodContent(f, Single(v)) && EachItem(k, f, vs, keep, j) == [i] + rest;
      FirstAfter(mt, slots, i, rest);
      var x := Meaning(f.t, Zero(f.t), v);
      if x.Ok? {
        var next := Many(slots[k].vs + [x.value]);
        assert SlotAfter(f, slots[k], Single(v)) == Ok(next);
        StoreKeepsPart(mt, m, mask, k, slots, next);
        EachPart(mt, m, mask, k, j + 1, Store(mt, slots, k, next));
      } else {
        assert SlotAfter(f, slots[k], Single(v)) == Err(MissingRequiredField);
      }
    }
  }

  lemma FirstAfter(mt: MessageType, slots: seq<Slot>, i: Item, rest: seq<Item>)
    requires GoodItem(mt, i) && GoodItems(mt, rest) && |slots| == |mt.fields|
    ensures GoodItems(mt, [i] + rest)
    ensures var r := SlotsAfter(mt, slots, i);
            SlotsAfterAll(mt, slots, [i] + rest)
            == if r.Err? then Err(r.error) else SlotsAfterAll(mt, r.value, rest)
  {
    assert ([i] + rest)[0] == i && ([i] + rest)[1..] == rest;
    FirstIsGood(mt, i, rest);
  }

  /** The encoding of a good message with some of its fields left out, at any depth. */
  lemma PartialDecodes(mt: MessageType, m: Message, mask: Option<Mask>)
    requires MessageOk(mt, m) && GoodType(mt) && Fits(mt, m, 0, true)
    requires GoodItems(mt, ItemsFrom(mt, m, mask, 0)) && |EncAll(mt, ItemsFrom(mt, m, mask, 0))| < TWO32
    ensures var r := Decode(mt, EncAll(mt, ItemsFrom(mt, m, mask, 0)));
            if Misses(mt, m, mask) then r == Err(MissingRequiredField)
            else r.Ok? && PartMessage(mt, m, r.value, mask)
  {
    MessageDecoded(mt, Defaults(mt), ItemsFrom(mt, m, mask, 0));
    MessagePart(mt, m, mask);
  }
}
