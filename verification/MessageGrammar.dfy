/** Exactly which bytes pb_decode accepts as a message, and what it makes of them (pb_decode.c): overlong numbers,
    fields in any order and number, unknown fields and all that follows a zero key are let through; nothing else is. */
module MessageGrammar {
  import opened Bytes
  import opened ProtoWire
  import opened ProtoMessages
  import opened ProtoRoundTrip
  import opened ProtoGrammar
  import opened WireItems

  // ----- the grammar -----

  ghost predicate IsVal(t: Type, b: seq<Byte>, v: Val)
    decreases t, 2, 0
  {
    match t
    case Scalar(s) => v.Plain? && IsScalar(s, b, v.v)
    case Submessage(mt) => v.Sub? && exists c: seq<Byte> :: IsDelimited(b, c) && IsMessage(mt, c, v.items)
    case _ => v.Plain? && v.v.S? && IsDelimited(b, v.v.s)
  }

  /** A scalar array with the wire type of a string is packed; otherwise the wire type is not looked at. */
  ghost predicate IsContent(f: Field, wireType: nat, b: seq<Byte>, c: Content)
    decreases f, 0, 0
  {
    if f.rule.Repeated? && f.t.Scalar? && wireType == 2 then
      c.Packed? && exists d: seq<Byte> :: IsDelimited(b, d) && IsPacked(f.t.s, d, c.vs)
    else
      c.Single? && IsVal(f.t, b, c.v)
  }

  /** A key and the content of a known field. */
  ghost predicate IsField(mt: MessageType, b: seq<Byte>, i: Item)
    decreases mt, 0, 0
  {
    && i.Known? && i.k < |mt.fields|
    && exists key: seq<Byte>, w: nat, body: seq<Byte> ::
         && IsNumber32(key, 8 * mt.fields[i.k].tag + w) && w < 8 && b == key + body
         && IsContent(mt.fields[i.k], w, body, i.c)
  }

  ghost predicate HasTag(mt: MessageType, tag: nat) {
    exists i :: 0 <= i < |mt.fields| && mt.fields[i].tag == tag
  }

  /** A field that the descriptor does not know.  Tag 0 in front of an empty descriptor passes for a bool. */
  ghost predicate IsForeign(mt: MessageType, b: seq<Byte>) {
    exists key: seq<Byte>, tag: nat, w: nat, body: seq<Byte> ::
      && IsNumber32(key, 8 * tag + w) && w < 8 && 8 * tag + w > 0 && b == key + body
      && IsUnknown(mt, tag, w, body)
  }

  ghost predicate IsUnknown(mt: MessageType, tag: nat, w: nat, body: seq<Byte>) {
    && !HasTag(mt, tag)
    && if mt.fields == [] && tag == 0 then exists n :: IsNumber32(body, n) else IsSkipped(w, body)
  }

  /** A zero key, and anything behind it. */
  ghost predicate IsEnd(b: seq<Byte>) {
    exists z: seq<Byte>, rest: seq<Byte> :: IsNumber32(z, 0) && b == z + rest
  }

  ghost predicate IsMessage(mt: MessageType, b: seq<Byte>, items: seq<Item>)
    decreases mt, 1, |b|
  {
    || (items == [] && (b == [] || IsEnd(b)))
    || (exists u: seq<Byte>, rest: seq<Byte> ::
          u != [] && b == u + rest && IsForeign(mt, u) && IsMessage(mt, rest, items))
    || (items != [] && exists i: seq<Byte>, rest: seq<Byte> ::
          i != [] && b == i + rest && IsField(mt, i, items[0]) && IsMessage(mt, rest, items[1..]))
  }

  // ----- the decoder reads what the grammar has -----

  lemma {:induction false} ValReads(t: Type, b: seq<Byte>, v: Val, was: Value, rest: seq<Byte>)
    requires IsVal(t, b, v) && GoodVal(t, v) && (t.Submessage? ==> GoodType(t.m))
    ensures DecValue(t, was, b + rest) == Then(Meaning(t, was, v), rest)
    decreases t, 2, 0
  {
    match t
    case Scalar(s) => ScalarReads(s, b, v.v, rest);
    case Submessage(mt) =>
      var c: seq<Byte> :| IsDelimited(b, c) && IsMessage(mt, c, v.items);
      DelimitedReads(b, c, rest);
      MessageReads(mt, c, v.items, if was.M? && |was.m.slots| == |mt.fields| then was.m.slots else Defaults(mt));
    case _ => DelimitedReads(b, v.v.s, rest);
  }

  lemma {:induction false} ContentReads(f: Field, w: nat, b: seq<Byte>, c: Content, slot: Slot, rest: seq<Byte>)
    requires IsContent(f, w, b, c) && GoodContent(f, c) && GoodField(f)
    ensures DecSlot(f, slot, w, b + rest) == Then(SlotAfter(f, slot, c), rest)
    decreases f, 0, 0
  {
    if c.Packed? {
      var d: seq<Byte> :| IsDelimited(b, d) && IsPacked(f.t.s, d, c.vs);
      DelimitedReads(b, d, rest);
      PackedReads(f.t.s, d, c.vs, if slot.Many? then slot.vs else [], f.rule.max);
    } else if f.rule.Repeated? {
      ValReads(f.t, b, c.v, Zero(f.t), rest);
    } else {
      ValReads(f.t, b, c.v, if f.rule.Oneof? || slot.Many? then Zero(f.t) else slot.v, rest);
    }
  }

  lemma {:induction false} MessageReads(mt: MessageType, b: seq<Byte>, items: seq<Item>, start: seq<Slot>)
    requires IsMessage(mt, b, items) && GoodItems(mt, items) && GoodType(mt) && |start| == |mt.fields|
    ensures DecMessage(mt, start, b) == MessageOf(mt, start, items)
    decreases mt, 2, 0
  {
    LoopReads(mt, b, items, Progress(start, 0, {}));
    assert {} + Seen(items) == Seen(items);
    AllSeenIff(mt, items);
  }

  /** A turn of the loop in front of any bytes. */
  lemma TurnReads(mt: MessageType, key: seq<Byte>, v: nat, body: seq<Byte>, p: Progress)
    requires ProgressOk(mt, p) && IsNumber32(key, v)
    ensures DecLoop(mt, key + body, p)
         == if v == 0 then Ok(p)
            else
              var r := DecField(mt, v, body, p);
              if r.Err? then Err(r.error) else DecLoop(mt, r.value.rest, r.value.value)
  {
    Number32Reads(key, v, body);
  }

  lemma UnknownReads(mt: MessageType, tag: nat, w: nat, body: seq<Byte>, rest: seq<Byte>, p: Progress)
    requires IsUnknown(mt, tag, w, body) && w < 8 && ProgressOk(mt, p)
    ensures DecField(mt, 8 * tag + w, body + rest, p) == Ok(Parsed(p, rest))
  {
    var v := 8 * tag + w;
    assert v / 8 == tag && v % 8 == w;
    assert Find(mt, p.pos, tag).None?;
    if mt.fields == [] && tag == 0 {
      var n :| IsNumber32(body, n);
      Number32Reads(body, n, rest);
    } else {
      SkippedReads(w, body, rest);
    }
  }

  lemma ForeignReads(mt: MessageType, u: seq<Byte>, rest: seq<Byte>, p: Progress)
    requires IsForeign(mt, u) && ProgressOk(mt, p)
    ensures DecLoop(mt, u + rest, p) == DecLoop(mt, rest, p)
  {
    var key: seq<Byte>, tag: nat, w: nat, body: seq<Byte> :|
      IsNumber32(key, 8 * tag + w) && w < 8 && 8 * tag + w > 0 && u == key + body && IsUnknown(mt, tag, w, body);
    Assoc(key, body, rest);
    UnknownReads(mt, tag, w, body, rest, p);
    TurnReads(mt, key, 8 * tag + w, body + rest, p);
  }

  lemma {:induction false} LoopReads(mt: MessageType, b: seq<Byte>, items: seq<Item>, p: Progress)
    requires IsMessage(mt, b, items) && GoodItems(mt, items) && GoodType(mt) && ProgressOk(mt, p)
    ensures LoopGives(DecLoop(mt, b, p), SlotsAfterAll(mt, p.slots, items), p.seen + Seen(items))
    decreases mt, 1, |b|
  {
    if items == [] && (b == [] || IsEnd(b)) {
      assert p.seen + Seen([]) == p.seen;
      if b != [] {
        var z: seq<Byte>, rest: seq<Byte> :| IsNumber32(z, 0) && b == z + rest;
        TurnReads(mt, z, 0, rest, p);
      }
    } else if u: seq<Byte>, rest: seq<Byte> :|
        u != [] && b == u + rest && IsForeign(mt, u) && IsMessage(mt, rest, items) {
      ForeignReads(mt, u, rest, p);
      LoopReads(mt, rest, items, p);
    } else {
      var i: seq<Byte>, rest: seq<Byte> :|
        i != [] && b == i + rest && IsField(mt, i, items[0]) && IsMessage(mt, rest, items[1..]);
      SeenFirst(items);
      var q := FieldReads(mt, i, items[0], p, rest);
      if SlotsAfter(mt, p.slots, items[0]).Ok? {
        LoopReads(mt, rest, items[1..], q);
        assert q.seen + Seen(items[1..]) == p.seen + Seen(items);
      }
    }
  }

  /** The loop has read a field whose slot is `after`, and goes on at `rest`. */
  ghost predicate GoesOn(mt: MessageType, input: seq<Byte>, k: nat, p: Progress, after: Result<Slot>, rest: seq<Byte>)
    requires ProgressOk(mt, p) && k < |mt.fields|
  {
    DecLoop(mt, input, p) == if after.Err? then Err(after.error) else DecLoop(mt, rest, Stored(mt, p, k, after.value))
  }

  lemma {:induction false} FieldReads(mt: MessageType, b: seq<Byte>, i: Item, p: Progress, rest: seq<Byte>)
    returns (q: Progress)
    requires IsField(mt, b, i) && GoodItem(mt, i) && GoodType(mt) && ProgressOk(mt, p)
    ensures match SlotsAfter(mt, p.slots, i)
            case Err(e) => DecLoop(mt, b + rest, p) == Err(e)
            case Ok(slots) =>
              ProgressOk(mt, q) && q.slots == slots && q.seen == p.seen + {i.k}
              && DecLoop(mt, b + rest, p) == DecLoop(mt, rest, q)
    decreases mt, 0, 1
  {
    var key: seq<Byte>, w: nat, body: seq<Byte> :|
      && IsNumber32(key, 8 * mt.fields[i.k].tag + w) && w < 8 && b == key + body
      && IsContent(mt.fields[i.k], w, body, i.c);
    KeyAndContentRead(mt, i.k, key, w, body, i.c, p, rest);
    var after := SlotAfter(mt.fields[i.k], p.slots[i.k], i.c);
    q := if after.Ok? then Stored(mt, p, i.k, after.value) else p;
  }

  lemma {:induction false} KeyAndContentRead(mt: MessageType, k: nat, key: seq<Byte>, w: nat, body: seq<Byte>,
                                             c: Content, p: Progress, rest: seq<Byte>)
    requires GoodType(mt) && ProgressOk(mt, p) && k < |mt.fields| && w < 8 && IsNumber32(key, 8 * mt.fields[k].tag + w)
    requires IsContent(mt.fields[k], w, body, c) && GoodContent(mt.fields[k], c)
    ensures GoesOn(mt, key + body + rest, k, p, SlotAfter(mt.fields[k], p.slots[k], c), rest)
    decreases mt, 0, 0
  {
    assert GoodField(mt.fields[k]);
    Assoc(key, body, rest);
    ContentReads(mt.fields[k], w, body, c, p.slots[k], rest);
    KeyedReads(mt, k, key, w, body + rest, p, SlotAfter(mt.fields[k], p.slots[k], c), rest);
  }

  lemma KeyedReads(mt: MessageType, k: nat, key: seq<Byte>, w: nat, input: seq<Byte>, p: Progress, after: Result<Slot>,
                   rest: seq<Byte>)
    requires GoodType(mt) && ProgressOk(mt, p) && k < |mt.fields| && w < 8 && IsNumber32(key, 8 * mt.fields[k].tag + w)
    requires DecSlot(mt.fields[k], p.slots[k], w, input) == Then(after, rest)
    ensures GoesOn(mt, key + input, k, p, after, rest)
  {
    assert GoodField(mt.fields[k]);
    TurnReads(mt, key, 8 * mt.fields[k].tag + w, input, p);
    KnownReads(mt, k, w, input, p, after, rest);
  }

  lemma KnownReads(mt: MessageType, k: nat, w: nat, input: seq<Byte>, p: Progress, after: Result<Slot>,
                   rest: seq<Byte>)
    requires GoodType(mt) && ProgressOk(mt, p) && k < |mt.fields| && w < 8
    requires DecSlot(mt.fields[k], p.slots[k], w, input) == Then(after, rest)
    ensures DecField(mt, 8 * mt.fields[k].tag + w, input, p)
         == if after.Err? then Err(after.error) else Ok(Parsed(Stored(mt, p, k, after.value), rest))
  {
    var v := 8 * mt.fields[k].tag + w;
    assert v / 8 == mt.fields[k].tag && v % 8 == w;
    FindUnique(mt, p.pos, k);
  }

  // ----- the grammar has what the decoder reads -----

  lemma {:induction false} ValTaken(t: Type, was: Value, input: seq<Byte>) returns (b: seq<Byte>, v: Val)
    requires DecValue(t, was, input).Ok? && (t.Submessage? ==> GoodType(t.m))
    ensures IsVal(t, b, v) && GoodVal(t, v) && input == b + DecValue(t, was, input).value.rest
    decreases t, 2, 0
  {
    match t
    case Scalar(s) =>
      b := ScalarTaken(s, input);
      v := Plain(DecScalar(s, input).value.value);
    case Submessage(mt) =>
      b := DelimitedIsTaken(input);
      var start := if was.M? && |was.m.slots| == |mt.fields| then was.m.slots else Defaults(mt);
      var items := MessageTaken(mt, start, TakeDelimited(input, ParentTooShort).value.value);
      v := Sub(items);
    case _ =>
      b := DelimitedIsTaken(input);
      var p := ReadVarint32(input).value;
      v := Plain(S(p.rest[..p.value]));
  }

  lemma {:induction false} ContentTaken(f: Field, slot: Slot, w: nat, input: seq<Byte>)
    returns (b: seq<Byte>, c: Content)
    requires DecSlot(f, slot, w, input).Ok? && GoodField(f)
    ensures IsContent(f, w, b, c) && GoodContent(f, c) && input == b + DecSlot(f, slot, w, input).value.rest
    decreases f, 0, 0
  {
    if f.rule.Repeated? && f.t.Scalar? && w == 2 {
      b := DelimitedIsTaken(input);
      var d := TakeDelimited(input, ParentTooShort).value.value;
      var vs := PackedTaken(f.t.s, d, if slot.Many? then slot.vs else [], f.rule.max);
      assert IsDelimited(b, d) && IsPacked(f.t.s, d, vs);
      c := Packed(vs);
    } else {
      var was := if f.rule.Repeated? || f.rule.Oneof? || slot.Many? then Zero(f.t) else slot.v;
      var v: Val;
      b, v := ValTaken(f.t, was, input);
      c := Single(v);
    }
  }

  lemma {:induction false} MessageTaken(mt: MessageType, start: seq<Slot>, input: seq<Byte>)
    returns (items: seq<Item>)
    requires |start| == |mt.fields| && DecMessage(mt, start, input).Ok? && GoodType(mt)
    ensures GoodItems(mt, items) && IsMessage(mt, input, items)
    decreases mt, 2, 0
  {
    items := LoopTaken(mt, input, Progress(start, 0, {}));
  }

  /** A field behind its key: a known one, or none that is known. */
  ghost predicate IsRead(mt: MessageType, key: nat, body: seq<Byte>, one: seq<Item>) {
    if one == [] then IsUnknown(mt, key / 8, key % 8, body)
    else
      && |one| == 1 && one[0].Known? && one[0].k < |mt.fields| && mt.fields[one[0].k].tag == key / 8
      && GoodItem(mt, one[0]) && IsContent(mt.fields[one[0].k], key % 8, body, one[0].c)
  }

  lemma {:induction false} FieldTaken(mt: MessageType, key: nat, input: seq<Byte>, p: Progress)
    returns (body: seq<Byte>, one: seq<Item>)
    requires ProgressOk(mt, p) && key > 0 && DecField(mt, key, input, p).Ok? && GoodType(mt)
    ensures input == body + DecField(mt, key, input, p).value.rest
    ensures IsRead(mt, key, body, one)
    decreases mt, 0, 1
  {
    var found := Find(mt, p.pos, key / 8);
    if found.Some? {
      var k := found.value;
      assert GoodField(mt.fields[k]);
      var c: Content;
      body, c := ContentTaken(mt.fields[k], p.slots[k], key % 8, input);
      one := [Known(k, c)];
    } else {
      one := [];
      body := UnknownTaken(mt, key, input, p);
    }
  }

  lemma UnknownTaken(mt: MessageType, key: nat, input: seq<Byte>, p: Progress) returns (body: seq<Byte>)
    requires ProgressOk(mt, p) && Find(mt, p.pos, key / 8).None? && DecField(mt, key, input, p).Ok?
    ensures IsUnknown(mt, key / 8, key % 8, body) && input == body + DecField(mt, key, input, p).value.rest
  {
    assert !HasTag(mt, key / 8);
    if mt.fields == [] && key / 8 == 0 {
      body := Number32Taken(input);
    } else {
      body := SkippedTaken(key % 8, input);
    }
  }

  lemma {:induction false} LoopTaken(mt: MessageType, input: seq<Byte>, p: Progress) returns (items: seq<Item>)
    requires ProgressOk(mt, p) && DecLoop(mt, input, p).Ok? && GoodType(mt)
    ensures GoodItems(mt, items) && IsMessage(mt, input, items)
    decreases mt, 1, |input|
  {
    items := [];
    if input != [] {
      var key := ReadVarint32(input).value;
      var z := Number32Taken(input);
      if key.value == 0 {
        assert IsEnd(input);
      } else {
        var q := DecField(mt, key.value, key.rest, p).value;
        var body, one := FieldTaken(mt, key.value, key.rest, p);
        var more := LoopTaken(mt, q.rest, q.value);
        items := one + more;
        PutInFront(mt, z, key.value, body, one, q.rest, more);
        Assoc(z, body, q.rest);
      }
    }
  }

  lemma PutInFront(mt: MessageType, z: seq<Byte>, key: nat, body: seq<Byte>, one: seq<Item>, rest: seq<Byte>,
                   more: seq<Item>)
    requires IsNumber32(z, key) && key > 0 && GoodItems(mt, more) && IsMessage(mt, rest, more)
    requires IsRead(mt, key, body, one)
    ensures GoodItems(mt, one + more) && IsMessage(mt, z + body + rest, one + more)
  {
    Number32Reads(z, key, []);
    assert key == 8 * (key / 8) + key % 8;
    if one == [] {
      assert one + more == more;
      UnknownIsForeign(mt, z, key, body);
      ForeignInFront(mt, z + body, rest, more);
    } else {
      assert one == [one[0]];
      ContentIsField(mt, z, key % 8, body, one[0]);
      FieldInFront(mt, z + body, one[0], rest, more);
    }
  }

  lemma UnknownIsForeign(mt: MessageType, z: seq<Byte>, key: nat, body: seq<Byte>)
    requires IsNumber32(z, key) && key > 0 && IsUnknown(mt, key / 8, key % 8, body)
    ensures IsForeign(mt, z + body)
  {
    var tag, w := key / 8, key % 8;
    assert key == 8 * tag + w;
    assert IsNumber32(z, 8 * tag + w);
  }

  lemma ContentIsField(mt: MessageType, z: seq<Byte>, w: nat, body: seq<Byte>, i: Item)
    requires i.Known? && i.k < |mt.fields| && IsNumber32(z, 8 * mt.fields[i.k].tag + w) && w < 8
    requires IsContent(mt.fields[i.k], w, body, i.c)
    ensures IsField(mt, z + body, i)
  {
  }

  lemma ForeignInFront(mt: MessageType, u: seq<Byte>, rest: seq<Byte>, items: seq<Item>)
    requires u != [] && IsForeign(mt, u) && IsMessage(mt, rest, items)
    ensures IsMessage(mt, u + rest, items)
  {
  }

  lemma FieldInFront(mt: MessageType, b: seq<Byte>, i: Item, rest: seq<Byte>, items: seq<Item>)
    requires b != [] && IsField(mt, b, i) && GoodItem(mt, i) && IsMessage(mt, rest, items) && GoodItems(mt, items)
    ensures IsMessage(mt, b + rest, [i] + items) && GoodItems(mt, [i] + items)
  {
    assert ([i] + items)[1..] == items;
  }

  // ----- both -----

  /** pb_decode_noinit accepts exactly the messages of the grammar whose fields all fit and none of which is missing,
      and returns what its items mean.  All other bytes are an error. */
  lemma MessageIff(mt: MessageType, start: seq<Slot>, input: seq<Byte>, m: Message)
    requires |start| == |mt.fields| && GoodType(mt)
    ensures DecMessage(mt, start, input) == Ok(m)
       <==> exists items ::
              GoodItems(mt, items) && IsMessage(mt, input, items) && MessageOf(mt, start, items) == Ok(m)
  {
    if DecMessage(mt, start, input) == Ok(m) {
      var items := MessageTaken(mt, start, input);
      MessageReads(mt, input, items, start);
    }
    forall items | GoodItems(mt, items) && IsMessage(mt, input, items) && MessageOf(mt, start, items) == Ok(m)
      ensures DecMessage(mt, start, input) == Ok(m)
    {
      MessageReads(mt, input, items, start);
    }
  }
}
