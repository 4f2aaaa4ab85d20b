/** What pb_decode makes of any fields in any order (pb_decode.c): the bytes are a list of items, each a field with its
    value, a packed array, or a field that the descriptor does not know; the result is said of the items. */
module WireItems {
  import opened Bytes
  import opened Varints
  import opened ProtoWire
  import opened ProtoMessages
  import opened ProtoRoundTrip
  import ProtoDecode

  // ----- items -----

  datatype Item = Known(k: nat, c: Content) | Foreign(f: Field, v: Value)

  datatype Content = Single(v: Val) | Packed(vs: seq<Value>)

  /** A submessage is a list of items again. */
  datatype Val = Plain(v: Value) | Sub(items: seq<Item>)

  /** What can be written for a type; nothing is said of sizes, which are for the reader to check. */
  ghost predicate GoodVal(t: Type, v: Val)
    decreases t, 2
  {
    match t
    case Scalar(s) => v.Plain? && ScalarOk(s, v.v)
    case Submessage(mt) => v.Sub? && GoodItems(mt, v.items)
    case _ => v.Plain? && v.v.S?
  }

  ghost predicate GoodContent(f: Field, c: Content)
    decreases f, 0
  {
    match c
    case Single(v) => GoodVal(f.t, v)
    case Packed(vs) =>
      f.rule.Repeated? && f.t.Scalar? && forall i | 0 <= i < |vs| :: ValueOk(f.t, vs[i])
  }

  ghost predicate GoodItem(mt: MessageType, i: Item)
    decreases mt, 0
  {
    match i
    case Known(k, c) => k < |mt.fields| && GoodContent(mt.fields[k], c)
    case Foreign(f, v) => Unknown(mt, f.tag) && ValueOk(f.t, v)
  }

  ghost predicate GoodItems(mt: MessageType, items: seq<Item>)
    decreases mt, 1
  {
    forall i | 0 <= i < |items| :: GoodItem(mt, items[i])
  }

  // ----- their bytes -----

  ghost function EncVal(t: Type, v: Val): seq<Byte>
    requires GoodVal(t, v)
    decreases t, 2
  {
    match t
    case Scalar(s) => EncScalar(s, v.v)
    case Submessage(mt) => Delimited(EncAll(mt, v.items))
    case _ => Delimited(v.v.s)
  }

  ghost function EncContent(f: Field, c: Content): seq<Byte>
    requires GoodContent(f, c)
    decreases f, 0
  {
    match c
    case Single(v) => Key(f.tag, WireType(f.t)) + EncVal(f.t, v)
    case Packed(vs) => Key(f.tag, 2) + Delimited(EncItems(f.t.s, vs))
  }

  ghost function EncItem(mt: MessageType, i: Item): seq<Byte>
    requires GoodItem(mt, i)
    decreases mt, 0
  {
    match i
    case Known(k, c) => EncContent(mt.fields[k], c)
    case Foreign(f, v) => EncTagged(f, v)
  }

  ghost function EncAll(mt: MessageType, items: seq<Item>): seq<Byte>
    requires GoodItems(mt, items)
    decreases mt, 1, |items|
  {
    if items == [] then [] else EncItem(mt, items[0]) + EncAll(mt, items[1..])
  }

  // ----- their meaning -----

  /** The value of an item, for a field that held `was`. */
  ghost function Meaning(t: Type, was: Value, v: Val): Result<Value>
    requires GoodVal(t, v)
    decreases t, 2
  {
    match t
    case Scalar(_) => Ok(v.v)
    case Bytes(max) => if |v.v.s| > max then Err(BytesOverflow) else Ok(v.v)
    case String(max) => if |v.v.s| + 1 > max then Err(StringOverflow) else Ok(S(UpToNul(v.v.s)))
    case FixedBytes(n) =>
      if v.v.s == [] then Ok(S(Zeros(n))) else if |v.v.s| != n then Err(IncorrectFixedLength) else Ok(v.v)
    case Submessage(mt) =>
      match MessageOf(mt, if was.M? && |was.m.slots| == |mt.fields| then was.m.slots else Defaults(mt), v.items)
      case Err(e) => Err(e)
      case Ok(m) => Ok(M(m))
  }

  /** What the field holds afterwards: an array grows, and a submessage that is no member of a union is merged. */
  ghost function SlotAfter(f: Field, slot: Slot, c: Content): Result<Slot>
    requires GoodContent(f, c)
    decreases f, 0
  {
    if f.rule.Repeated? then
      var vs := if slot.Many? then slot.vs else [];
      match c
      case Packed(more) => if more != [] && |vs| + |more| > f.rule.max then Err(ArrayOverflow) else Ok(Many(vs + more))
      case Single(v) =>
        if |vs| >= f.rule.max then Err(ArrayOverflow)
        else
          (match Meaning(f.t, Zero(f.t), v)
           case Err(e) => Err(e)
           case Ok(x) => Ok(Many(vs + [x])))
    else
      match Meaning(f.t, if f.rule.Oneof? || slot.Many? then Zero(f.t) else slot.v, c.v)
      case Err(e) => Err(e)
      case Ok(x) => Ok(if f.rule.Optional? || f.rule.Oneof? then Maybe(true, x) else One(x))
  }

  ghost function SlotsAfter(mt: MessageType, slots: seq<Slot>, i: Item): (r: Result<seq<Slot>>)
    requires GoodItem(mt, i) && |slots| == |mt.fields|
    ensures r.Ok? ==> |r.value| == |mt.fields|
    decreases mt, 0
  {
    match i
    case Foreign(_, _) => Ok(slots)
    case Known(k, c) =>
      match SlotAfter(mt.fields[k], slots[k], c)
      case Err(e) => Err(e)
      case Ok(slot) => Ok(Store(mt, slots, k, slot))
  }

  ghost function SlotsAfterAll(mt: MessageType, slots: seq<Slot>, items: seq<Item>): (r: Result<seq<Slot>>)
    requires GoodItems(mt, items) && |slots| == |mt.fields|
    ensures r.Ok? ==> |r.value| == |mt.fields|
    decreases mt, 1, |items|
  {
    if items == [] then Ok(slots)
    else
      match SlotsAfter(mt, slots, items[0])
      case Err(e) => Err(e)
      case Ok(next) => SlotsAfterAll(mt, next, items[1..])
  }

  /** Some item is of field k. */
  ghost predicate Occurs(items: seq<Item>, k: nat) {
    exists i :: 0 <= i < |items| && items[i].Known? && items[i].k == k
  }

  /** A required field among the first 64 without an item. */
  ghost predicate LacksField(mt: MessageType, items: seq<Item>) {
    exists k: nat :: ProtoDecode.IsTracked(mt, k) && !Occurs(items, k)
  }

  ghost function MessageOf(mt: MessageType, start: seq<Slot>, items: seq<Item>): Result<Message>
    requires GoodItems(mt, items) && |start| == |mt.fields|
    decreases mt, 2
  {
    match SlotsAfterAll(mt, start, items)
    case Err(e) => Err(e)
    case Ok(slots) => if LacksField(mt, items) then Err(MissingRequiredField) else Ok(Message(slots))
  }

  // ----- the decoder reads the items -----

  lemma {:induction false} PackedDecoded(s: Scalar, vs: seq<Value>, before: seq<Value>, max: nat)
    requires forall i | 0 <= i < |vs| :: ValueOk(Type.Scalar(s), vs[i])
    ensures DecItems(s, EncItems(s, vs), before, max)
         == if vs != [] && |before| + |vs| > max then Err(ArrayOverflow) else Ok(before + vs)
    decreases |vs|
  {
    if vs == [] {
      assert before + vs == before;
    } else {
      assert ValueOk(Type.Scalar(s), vs[0]);
      ScalarBytes(s, vs[0]);
      if |before| < max {
        OneItem(s, vs, before, max);
        PackedDecoded(s, vs[1..], before + [vs[0]], max);
        assert before + [vs[0]] + vs[1..] == before + vs;
      }
    }
  }

  /** A decoder's result for a value that is followed by `rest`. */
  function Then<T>(r: Result<T>, rest: seq<Byte>): Result<Parsed<T>> {
    match r
    case Err(e) => Err(e)
    case Ok(x) => Ok(Parsed(x, rest))
  }

  lemma {:induction false} ValDecoded(t: Type, v: Val, was: Value, rest: seq<Byte>)
    requires GoodVal(t, v) && |EncVal(t, v)| < TWO32 && (t.Submessage? ==> GoodType(t.m))
    ensures DecValue(t, was, EncVal(t, v) + rest) == Then(Meaning(t, was, v), rest)
    decreases t, 2, 0
  {
    match t
    case Scalar(s) => ScalarRoundTrip(s, v.v, rest);
    case Submessage(mt) =>
      DelimitedTaken(EncAll(mt, v.items), rest, ParentTooShort);
      MessageDecoded(mt, if was.M? && |was.m.slots| == |mt.fields| then was.m.slots else Defaults(mt), v.items);
    case _ =>
      DelimitedRead(v.v.s, rest);
      if v.v.s == [] { assert v.v.s + rest == rest; }
  }

  lemma {:induction false} MessageDecoded(mt: MessageType, start: seq<Slot>, items: seq<Item>)
    requires GoodItems(mt, items) && GoodType(mt) && |start| == |mt.fields| && |EncAll(mt, items)| < TWO32
    ensures DecMessage(mt, start, EncAll(mt, items)) == MessageOf(mt, start, items)
    decreases mt, 2, 0
  {
    LoopDecoded(mt, items, Progress(start, 0, {}));
    assert {} + Seen(items) == Seen(items);
    AllSeenIff(mt, items);
  }

  lemma AllSeenIff(mt: MessageType, items: seq<Item>)
    ensures AllSeen(mt, Seen(items)) <==> !LacksField(mt, items)
  {
    forall k: nat ensures k in Seen(items) <==> Occurs(items, k) {
    }
    if !AllSeen(mt, Seen(items)) {
      var k: nat :| ProtoDecode.IsTracked(mt, k) && k !in Seen(items);
      assert LacksField(mt, items);
    }
  }

  /** The fields with an item. */
  ghost function Seen(items: seq<Item>): set<nat> {
    set i | 0 <= i < |items| && items[i].Known? :: items[i].k
  }

  lemma SeenFirst(items: seq<Item>)
    requires items != []
    ensures Seen(items) == (if items[0].Known? then {items[0].k} else {}) + Seen(items[1..])
  {
    forall k ensures k in Seen(items) <==> (items[0].Known? && k == items[0].k) || k in Seen(items[1..]) {
      if k in Seen(items[1..]) {
        var i :| 0 <= i < |items| - 1 && items[1..][i].Known? && items[1..][i].k == k;
        assert items[i + 1] == items[1..][i];
      }
      if i :| 0 < i < |items| && items[i].Known? && items[i].k == k {
        assert items[1..][i - 1] == items[i];
      }
    }
  }

  /** The loop at the end of the items: their slots, and the fields they are of. */
  ghost predicate LoopGives(r: Result<Progress>, slots: Result<seq<Slot>>, seen: set<nat>) {
    match slots
    case Err(e) => r == Err(e)
    case Ok(s) => r.Ok? && r.value.slots == s && r.value.seen == seen
  }

  lemma {:induction false} LoopDecoded(mt: MessageType, items: seq<Item>, p: Progress)
    requires GoodItems(mt, items) && GoodType(mt) && ProgressOk(mt, p) && |EncAll(mt, items)| < TWO32
    ensures LoopGives(DecLoop(mt, EncAll(mt, items), p), SlotsAfterAll(mt, p.slots, items), p.seen + Seen(items))
    decreases mt, 1, |items|
  {
    if items == [] {
      assert p.seen + Seen([]) == p.seen;
    } else {
      var i, rest := items[0], EncAll(mt, items[1..]);
      assert GoodItem(mt, i);
      SeenFirst(items);
      var q := ItemDecoded(mt, i, p, rest);
      if SlotsAfter(mt, p.slots, i).Ok? {
        LoopDecoded(mt, items[1..], q);
        assert q.seen + Seen(items[1..]) == p.seen + Seen(items);
      }
    }
  }

  /** One turn of the loop. */
  lemma {:induction false} ItemDecoded(mt: MessageType, i: Item, p: Progress, rest: seq<Byte>) returns (q: Progress)
    requires GoodItem(mt, i) && GoodType(mt) && ProgressOk(mt, p) && |EncItem(mt, i)| < TWO32
    ensures match SlotsAfter(mt, p.slots, i)
            case Err(e) => DecLoop(mt, EncItem(mt, i) + rest, p) == Err(e)
            case Ok(slots) =>
              && ProgressOk(mt, q) && q.slots == slots
              && q.seen == p.seen + (if i.Known? then {i.k} else {})
              && DecLoop(mt, EncItem(mt, i) + rest, p) == DecLoop(mt, rest, q)
    decreases mt, 0, 1
  {
    match i
    case Foreign(f, v) =>
      TaggedBytes(f, v);
      ValueSkipped(f.t, v, rest);
      UnknownTurn(mt, f.tag, WireType(f.t), EncValue(f.t, v), rest, p);
      q := p;
    case Known(k, c) =>
      var f := mt.fields[k];
      assert GoodField(f);
      var wireType := if c.Packed? then 2 else WireType(f.t);
      var body := ContentBody(f, c);
      ContentDecoded(f, c, p.slots[k], rest);
      q := p;
      match SlotAfter(f, p.slots[k], c) {
        case Err(e) => FieldFails(mt, k, wireType, body, rest, p, e);
        case Ok(slot) =>
          FieldTurn(mt, k, wireType, body, rest, p, slot);
          q := Stored(mt, p, k, slot);
      }
  }

  ghost function ContentBody(f: Field, c: Content): seq<Byte>
    requires GoodContent(f, c)
  {
    match c
    case Single(v) => EncVal(f.t, v)
    case Packed(vs) => Delimited(EncItems(f.t.s, vs))
  }

  lemma {:induction false} ContentDecoded(f: Field, c: Content, slot: Slot, rest: seq<Byte>)
    requires GoodContent(f, c) && GoodField(f) && |EncContent(f, c)| < TWO32
    ensures DecSlot(f, slot, if c.Packed? then 2 else WireType(f.t), ContentBody(f, c) + rest)
         == Then(SlotAfter(f, slot, c), rest)
    decreases f, 0, 0
  {
    match c
    case Packed(vs) =>
      DelimitedTaken(EncItems(f.t.s, vs), rest, ParentTooShort);
      PackedDecoded(f.t.s, vs, if slot.Many? then slot.vs else [], f.rule.max);
    case Single(v) =>
      if f.rule.Repeated? {
        ValDecoded(f.t, v, Zero(f.t), rest);
      } else {
        ValDecoded(f.t, v, if f.rule.Oneof? || slot.Many? then Zero(f.t) else slot.v, rest);
      }
  }
}
