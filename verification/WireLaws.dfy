/** Laws of the decoder over any fields (pb_decode.c): arrays gather packed and single entries in order, what comes
    again counts last or is merged, and a missing required field is an error at every depth. */
module WireLaws {
  import opened Bytes
  import opened Varints
  import opened ProtoWire
  import opened ProtoMessages
  import opened ProtoRoundTrip
  import opened ProtoDecode
  import opened WireItems

  lemma {:induction false} SlotsAfterBoth(mt: MessageType, slots: seq<Slot>, a: seq<Item>, b: seq<Item>)
    requires GoodItems(mt, a) && GoodItems(mt, b) && |slots| == |mt.fields|
    ensures GoodItems(mt, a + b)
    ensures SlotsAfterAll(mt, slots, a + b)
         == match SlotsAfterAll(mt, slots, a)
            case Err(e) => Err(e)
            case Ok(next) => SlotsAfterAll(mt, next, b)
    decreases |a|
  {
    if a == [] {
      assert a + b == b;
    } else {
      assert (a + b)[0] == a[0] && (a + b)[1..] == a[1..] + b;
      assert GoodItem(mt, a[0]);
      var next := SlotsAfter(mt, slots, a[0]);
      SlotsAfterBoth(mt, if next.Ok? then next.value else slots, a[1..], b);
    }
  }

  // ----- arrays -----

  /** A packable array: the entries that the items bring to field k, in their order. */
  function Entries(items: seq<Item>, k: nat): seq<Value> {
    if items == [] then [] else EntriesOf(items[0], k) + Entries(items[1..], k)
  }

  function EntriesOf(i: Item, k: nat): seq<Value> {
    if i.Foreign? || i.k != k then []
    else
      match i.c
      case Packed(vs) => vs
      case Single(v) => (match v case Plain(x) => [x] case Sub(_) => [])
  }

  ghost predicate IsArray(mt: MessageType, k: nat) {
    k < |mt.fields| && mt.fields[k].rule.Repeated? && mt.fields[k].t.Scalar?
  }

  lemma StoreOne(mt: MessageType, slots: seq<Slot>, k: nat, slot: Slot)
    requires |slots| == |mt.fields| && k < |mt.fields| && !mt.fields[k].rule.Oneof?
    ensures Store(mt, slots, k, slot) == slots[k := slot]
  {
  }

  lemma {:induction false} EntryAfter(mt: MessageType, slots: seq<Slot>, k: nat, vs: seq<Value>, i: Item)
    requires IsArray(mt, k) && |slots| == |mt.fields| && slots[k] == Many(vs) && |vs| <= mt.fields[k].rule.max
    requires GoodItem(mt, i) && i.Known? && i.k == k
    ensures var more := EntriesOf(i, k);
            SlotsAfter(mt, slots, i)
            == if |vs| + |more| > mt.fields[k].rule.max then Err(ArrayOverflow)
               else Ok(slots[k := Many(vs + more)])
  {
    var f, more := mt.fields[k], EntriesOf(i, k);
    assert GoodContent(f, i.c);
    match i.c {
      case Packed(_) =>
      case Single(v) => assert GoodVal(f.t, v);
    }
    if |vs| + |more| <= f.rule.max {
      assert SlotAfter(f, slots[k], i.c) == Ok(Many(vs + more));
      StoreOne(mt, slots, k, Many(vs + more));
    } else {
      assert SlotAfter(f, slots[k], i.c) == Err(ArrayOverflow);
    }
  }

  /** Items that are all of one array, packed or not, in any mix: their entries are gathered in order, and one too many
      is an error. */
  lemma {:induction false} ArrayGathers(mt: MessageType, slots: seq<Slot>, k: nat, vs: seq<Value>, items: seq<Item>)
    requires IsArray(mt, k) && |slots| == |mt.fields| && slots[k] == Many(vs) && |vs| <= mt.fields[k].rule.max
    requires GoodItems(mt, items) && forall i | 0 <= i < |items| :: items[i].Known? && items[i].k == k
    ensures SlotsAfterAll(mt, slots, items)
         == if |vs| + |Entries(items, k)| > mt.fields[k].rule.max then Err(ArrayOverflow)
            else Ok(slots[k := Many(vs + Entries(items, k))])
    decreases |items|
  {
    if items == [] {
      assert slots[k := Many(vs + [])] == slots by { assert vs + [] == vs; }
    } else {
      assert GoodItem(mt, items[0]);
      EntryAfter(mt, slots, k, vs, items[0]);
      var more, rest := EntriesOf(items[0], k), items[1..];
      if |vs| + |more| <= mt.fields[k].rule.max {
        ArrayGathers(mt, slots[k := Many(vs + more)], k, vs + more, rest);
        assert vs + more + Entries(rest, k) == vs + (more + Entries(rest, k));
        var last := Many(vs + Entries(items, k));
        assert slots[k := Many(vs + more)][k := last] == slots[k := last];
      }
      assert SlotsAfterAll(mt, slots, items)
          == match SlotsAfter(mt, slots, items[0])
             case Err(e) => Err(e)
             case Ok(next) => SlotsAfterAll(mt, next, rest);
    }
  }

  /** The bytes of an array, entry by entry, as proto2 writes it. */
  function Unpacked(f: Field, vs: seq<Value>): seq<Byte>
    requires f.t.Scalar? && forall i | 0 <= i < |vs| :: ScalarOk(f.t.s, vs[i])
  {
    if vs == [] then [] else Key(f.tag, WireType(f.t)) + EncScalar(f.t.s, vs[0]) + Unpacked(f, vs[1..])
  }

  ghost function Singles(k: nat, vs: seq<Value>): (r: seq<Item>)
    ensures |r| == |vs| && forall i | 0 <= i < |vs| :: r[i] == Known(k, Single(Plain(vs[i])))
  {
    seq(|vs|, i requires 0 <= i < |vs| => Known(k, Single(Plain(vs[i]))))
  }

  lemma {:induction false} UnpackedItems(mt: MessageType, k: nat, vs: seq<Value>)
    requires IsArray(mt, k) && forall i | 0 <= i < |vs| :: ScalarOk(mt.fields[k].t.s, vs[i])
    ensures GoodItems(mt, Singles(k, vs)) && Entries(Singles(k, vs), k) == vs
    ensures EncAll(mt, Singles(k, vs)) == Unpacked(mt.fields[k], vs)
    decreases |vs|
  {
    forall i | 0 <= i < |vs| ensures GoodItem(mt, Singles(k, vs)[i]) {
      SingleItem(mt, k, vs[i]);
    }
    if vs != [] {
      var items, i := Singles(k, vs), Singles(k, vs)[0];
      assert items[1..] == Singles(k, vs[1..]);
      UnpackedItems(mt, k, vs[1..]);
      assert i == Known(k, Single(Plain(vs[0])));
      SingleItem(mt, k, vs[0]);
    }
  }

  lemma SingleItem(mt: MessageType, k: nat, v: Value)
    requires IsArray(mt, k) && ScalarOk(mt.fields[k].t.s, v)
    ensures GoodItem(mt, Known(k, Single(Plain(v)))) && EntriesOf(Known(k, Single(Plain(v))), k) == [v]
    ensures EncItem(mt, Known(k, Single(Plain(v))))
         == Key(mt.fields[k].tag, WireType(mt.fields[k].t)) + EncScalar(mt.fields[k].t.s, v)
  {
    var f, x := mt.fields[k], Plain(v);
    assert GoodVal(f.t, x) && EncVal(f.t, x) == EncScalar(f.t.s, v);
    assert GoodContent(f, Single(x)) && EncContent(f, Single(x)) == Key(f.tag, WireType(f.t)) + EncVal(f.t, x);
  }

  /** The bytes of any items of one array, read into a structure that holds some entries already. */
  lemma ArrayMessage(mt: MessageType, start: seq<Slot>, k: nat, vs: seq<Value>, items: seq<Item>)
    requires GoodType(mt) && IsArray(mt, k) && |start| == |mt.fields| && start[k] == Many(vs)
    requires |vs| <= mt.fields[k].rule.max && forall j: nat :: !IsTracked(mt, j)
    requires GoodItems(mt, items) && forall i | 0 <= i < |items| :: items[i].Known? && items[i].k == k
    requires |EncAll(mt, items)| < TWO32
    ensures DecMessage(mt, start, EncAll(mt, items))
         == if |vs| + |Entries(items, k)| > mt.fields[k].rule.max then Err(ArrayOverflow)
            else Ok(Message(start[k := Many(vs + Entries(items, k))]))
  {
    MessageDecoded(mt, start, items);
    ArrayGathers(mt, start, k, vs, items);
  }

  /** An array that was written entry by entry is read in order, and one entry too many is an error. */
  lemma UnpackedArrayReads(mt: MessageType, start: seq<Slot>, k: nat, before: seq<Value>, vs: seq<Value>)
    requires GoodType(mt) && IsArray(mt, k) && |start| == |mt.fields| && start[k] == Many(before)
    requires |before| <= mt.fields[k].rule.max && forall j: nat :: !IsTracked(mt, j)
    requires forall i | 0 <= i < |vs| :: ScalarOk(mt.fields[k].t.s, vs[i])
    requires |Unpacked(mt.fields[k], vs)| < TWO32
    ensures DecMessage(mt, start, Unpacked(mt.fields[k], vs))
         == if |before| + |vs| > mt.fields[k].rule.max then Err(ArrayOverflow)
            else Ok(Message(start[k := Many(before + vs)]))
  {
    UnpackedItems(mt, k, vs);
    ArrayMessage(mt, start, k, before, Singles(k, vs));
  }

  // ----- submessages -----

  /** What a field of a submessage type starts from. */
  ghost function StartOf(f: Field, slot: Slot): (r: seq<Slot>)
    requires f.t.Submessage?
    ensures |r| == |f.t.m.fields|
  {
    if f.rule.Repeated? || f.rule.Oneof? || slot.Many? || !slot.v.M? || |slot.v.m.slots| != |f.t.m.fields|
    then Defaults(f.t.m) else slot.v.m.slots
  }

  ghost function WithMessage(f: Field, slot: Slot, m: Message): Slot {
    if f.rule.Repeated? then Many((if slot.Many? then slot.vs else []) + [M(m)])
    else if f.rule.Optional? || f.rule.Oneof? then Maybe(true, M(m)) else One(M(m))
  }

  lemma SubmessageAfter(f: Field, slot: Slot, items: seq<Item>)
    requires f.t.Submessage? && GoodItems(f.t.m, items)
    ensures GoodContent(f, Single(Sub(items)))
    ensures SlotAfter(f, slot, Single(Sub(items)))
         == if f.rule.Repeated? && slot.Many? && |slot.vs| >= f.rule.max then Err(ArrayOverflow)
            else if f.rule.Repeated? && !slot.Many? && f.rule.max == 0 then Err(ArrayOverflow)
            else Placed(f, slot, MessageOf(f.t.m, StartOf(f, slot), items))
  {
    assert GoodVal(f.t, Sub(items));
    var was := if f.rule.Repeated? || f.rule.Oneof? || slot.Many? then Zero(f.t) else slot.v;
    assert Zero(f.t) == M(Message(Defaults(f.t.m)));
    assert Meaning(f.t, was, Sub(items)) == AsValue(MessageOf(f.t.m, StartOf(f, slot), items));
  }

  function AsValue(r: Result<Message>): Result<Value> {
    match r
    case Err(e) => Err(e)
    case Ok(x) => Ok(M(x))
  }

  ghost function Placed(f: Field, slot: Slot, r: Result<Message>): Result<Slot> {
    match r
    case Err(e) => Err(e)
    case Ok(x) => Ok(WithMessage(f, slot, x))
  }

  // ----- fields that come again -----

  ghost predicate Touches(mt: MessageType, i: Item, k: nat)
    requires k < |mt.fields|
  {
    i.Known? && i.k < |mt.fields| && (i.k == k || SameUnion(mt.fields[i.k], mt.fields[k]))
  }

  /** A field keeps what it holds if no item is of it or of its union. */
  lemma {:induction false} Untouched(mt: MessageType, slots: seq<Slot>, items: seq<Item>, k: nat)
    requires GoodItems(mt, items) && |slots| == |mt.fields| && k < |mt.fields|
    requires forall i | 0 <= i < |items| :: !Touches(mt, items[i], k)
    ensures var r := SlotsAfterAll(mt, slots, items);
            r.Ok? ==> r.value[k] == slots[k]
    decreases |items|
  {
    if items != [] {
      assert GoodItem(mt, items[0]) && !Touches(mt, items[0], k);
      var next := SlotsAfter(mt, slots, items[0]);
      if next.Ok? { Untouched(mt, next.value, items[1..], k); }
    }
  }

  /** The last item of a plain field counts: neither earlier ones nor what the structure held shows. */
  lemma LastCounts(mt: MessageType, slots: seq<Slot>, before: seq<Item>, k: nat, v: Val, after: seq<Item>)
    requires GoodItems(mt, before) && GoodItems(mt, after) && GoodItem(mt, Known(k, Single(v)))
    requires |slots| == |mt.fields| && k < |mt.fields| && GoodVal(mt.fields[k].t, v)
    requires !mt.fields[k].rule.Repeated? && !mt.fields[k].t.Submessage?
    requires forall i | 0 <= i < |after| :: !Touches(mt, after[i], k)
    ensures GoodItems(mt, before + ([Known(k, Single(v))] + after))
    ensures var r, f := SlotsAfterAll(mt, slots, before + ([Known(k, Single(v))] + after)), mt.fields[k];
            r.Ok? ==>
              var x := Meaning(f.t, Zero(f.t), v);
              x.Ok? && r.value[k] == if f.rule.Optional? || f.rule.Oneof? then Maybe(true, x.value) else One(x.value)
  {
    var i := Known(k, Single(v));
    assert GoodItems(mt, [i]);
    SlotsAfterBoth(mt, slots, [i], after);
    SlotsAfterBoth(mt, slots, before, [i] + after);
    var first := SlotsAfterAll(mt, slots, before);
    if first.Ok? {
      SlotsAfterBoth(mt, first.value, [i], after);
      OneItemAfter(mt, first.value, i);
      PlainAfter(mt, first.value, k, v);
      var next := SlotsAfter(mt, first.value, i);
      if next.Ok? { Untouched(mt, next.value, after, k); }
    }
  }

  lemma PlainAfter(mt: MessageType, slots: seq<Slot>, k: nat, v: Val)
    requires GoodItem(mt, Known(k, Single(v))) && |slots| == |mt.fields| && k < |mt.fields|
    requires GoodVal(mt.fields[k].t, v) && !mt.fields[k].rule.Repeated? && !mt.fields[k].t.Submessage?
    ensures var r, f := SlotsAfter(mt, slots, Known(k, Single(v))), mt.fields[k];
            r.Ok? ==>
              var x := Meaning(f.t, Zero(f.t), v);
              x.Ok? && r.value[k] == if f.rule.Optional? || f.rule.Oneof? then Maybe(true, x.value) else One(x.value)
  {
    var f := mt.fields[k];
    var was := if f.rule.Oneof? || slots[k].Many? then Zero(f.t) else slots[k].v;
    assert Meaning(f.t, was, v) == Meaning(f.t, Zero(f.t), v);
  }

  lemma OneItemAfter(mt: MessageType, slots: seq<Slot>, i: Item)
    requires GoodItem(mt, i) && |slots| == |mt.fields|
    ensures GoodItems(mt, [i]) && SlotsAfterAll(mt, slots, [i]) == SlotsAfter(mt, slots, i)
  {
    assert [i][1..] == [];
  }

  /** A submessage that comes twice is merged: it holds what the items of both say together. */
  lemma SubmessagesMerge(f: Field, slot: Slot, a: seq<Item>, b: seq<Item>)
    requires f.t.Submessage? && !f.rule.Repeated? && !f.rule.Oneof?
    requires GoodItems(f.t.m, a) && GoodItems(f.t.m, b)
    ensures GoodItems(f.t.m, a + b)
    ensures var first := SlotAfter(f, slot, Single(Sub(a)));
            first.Ok? && SlotAfter(f, first.value, Single(Sub(b))).Ok? ==>
              SlotAfter(f, slot, Single(Sub(a + b))) == SlotAfter(f, first.value, Single(Sub(b)))
  {
    var mt, start := f.t.m, StartOf(f, slot);
    SlotsAfterBoth(mt, start, a, b);
    SubmessageAfter(f, slot, a);
    SubmessageAfter(f, slot, a + b);
    var first := SlotAfter(f, slot, Single(Sub(a)));
    if first.Ok? {
      SubmessageAfter(f, first.value, b);
      BothOccur(mt, a, b);
    }
  }

  lemma BothOccur(mt: MessageType, a: seq<Item>, b: seq<Item>)
    requires !LacksField(mt, a)
    ensures !LacksField(mt, a + b)
  {
    forall k: nat | Occurs(a, k) ensures Occurs(a + b, k) {
      var i :| 0 <= i < |a| && a[i].Known? && a[i].k == k;
      assert (a + b)[i] == a[i];
    }
  }

  /** A member of a union starts afresh. */
  lemma UnionStartsAfresh(f: Field, slot: Slot, c: Content)
    requires f.rule.Oneof? && GoodContent(f, c)
    ensures SlotAfter(f, slot, c) == SlotAfter(f, DefaultSlot(f), c)
  {
  }

  /** And the other members of the union are gone. */
  lemma UnionHasOne(mt: MessageType, slots: seq<Slot>, k: nat, c: Content, j: nat)
    requires |slots| == |mt.fields| && GoodItem(mt, Known(k, c)) && j < |mt.fields| && j != k
    requires SameUnion(mt.fields[j], mt.fields[k]) && slots[j].Maybe?
    ensures var r := SlotsAfter(mt, slots, Known(k, c)); r.Ok? ==> Has(r.value[k]) && !Has(r.value[j])
  {
  }

  // ----- required fields -----

  /** A required field among the first 64 has no item, here or in a submessage. */
  ghost predicate Lacks(mt: MessageType, items: seq<Item>)
    decreases mt, 1
  {
    LacksField(mt, items) || exists i :: 0 <= i < |items| && SubLacks(mt, items[i])
  }

  ghost predicate SubLacks(mt: MessageType, i: Item)
    decreases mt, 0
  {
    && i.Known? && i.k < |mt.fields| && mt.fields[i.k].t.Submessage? && i.c.Single? && i.c.v.Sub?
    && Lacks(mt.fields[i.k].t.m, i.c.v.items)
  }

  /** Decoding succeeds only if nothing is missing, and the error for a missing field means that one is: at any depth,
      for any items. */
  lemma {:induction false} MissingIff(mt: MessageType, start: seq<Slot>, items: seq<Item>)
    requires GoodItems(mt, items) && |start| == |mt.fields|
    ensures var r := MessageOf(mt, start, items);
            && (r.Ok? ==> !Lacks(mt, items)) && (r == Err(MissingRequiredField) ==> Lacks(mt, items))
    decreases mt, 1
  {
    SlotsMissing(mt, start, items);
  }

  lemma {:induction false} SlotsMissing(mt: MessageType, slots: seq<Slot>, items: seq<Item>)
    requires GoodItems(mt, items) && |slots| == |mt.fields|
    ensures var r, sub := SlotsAfterAll(mt, slots, items), exists i :: 0 <= i < |items| && SubLacks(mt, items[i]);
            && (r.Ok? ==> !sub) && (r == Err(MissingRequiredField) ==> sub)
    decreases mt, 0, |items|
  {
    if items != [] {
      var first, rest := items[0], items[1..];
      assert GoodItem(mt, first);
      ItemMissing(mt, slots, first);
      var next := SlotsAfter(mt, slots, first);
      if next.Ok? {
        SlotsMissing(mt, next.value, rest);
        if i :| 0 <= i < |items| && SubLacks(mt, items[i]) {
          if i > 0 { assert rest[i - 1] == items[i]; }
        }
        if j :| 0 <= j < |rest| && SubLacks(mt, rest[j]) { assert items[j + 1] == rest[j]; }
      }
    }
  }

  lemma {:induction false} ItemMissing(mt: MessageType, slots: seq<Slot>, i: Item)
    requires GoodItem(mt, i) && |slots| == |mt.fields|
    ensures var r := SlotsAfter(mt, slots, i);
            && (r.Ok? ==> !SubLacks(mt, i)) && (r == Err(MissingRequiredField) ==> SubLacks(mt, i))
    decreases mt, 0, 0
  {
    if i.Known? && i.c.Single? && mt.fields[i.k].t.Submessage? {
      var f := mt.fields[i.k];
      assert GoodContent(f, i.c) && GoodVal(f.t, i.c.v);
      SubmessageAfter(f, slots[i.k], i.c.v.items);
      MissingIff(f.t.m, StartOf(f, slots[i.k]), i.c.v.items);
    } else if i.Known? {
      PlainNeverMisses(mt.fields[i.k], slots[i.k], i.c);
    }
  }

  lemma PlainNeverMisses(f: Field, slot: Slot, c: Content)
    requires GoodContent(f, c) && !f.t.Submessage?
    ensures SlotAfter(f, slot, c) != Err(MissingRequiredField)
  {
    if c.Single? { assert GoodVal(f.t, c.v); }
  }
}
