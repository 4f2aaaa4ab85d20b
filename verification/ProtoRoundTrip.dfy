/** Decoding what was encoded gives the message back, up to the data of absent optional fields. */
module ProtoRoundTrip {
  import opened Options
  import opened Bytes
  import opened Varints
  import opened ProtoWire
  import opened ProtoMessages
  import ProtoEncode
  import ProtoDecode

  // ----- premises and the equality that survives -----

  ghost predicate GoodField(f: Field)
    decreases f
  {
    0 < f.tag < 0x2000_0000 && (f.t.Submessage? ==> GoodType(f.t.m))
  }

  /** Distinct tags that fit a key, at every depth. */
  ghost predicate GoodType(mt: MessageType)
    decreases mt
  {
    && (forall i | 0 <= i < |mt.fields| :: GoodField(mt.fields[i]))
    && forall i, j | 0 <= i < j < |mt.fields| :: mt.fields[i].tag != mt.fields[j].tag
  }

  ghost predicate SameValue(t: Type, a: Value, b: Value)
    decreases t
  {
    if t.Submessage? then a.M? && b.M? && SameMessage(t.m, a.m, b.m) else a == b
  }

  ghost predicate SameSlot(f: Field, a: Slot, b: Slot)
    decreases f
  {
    match f.rule
    case Required => a.One? && b.One? && SameValue(f.t, a.v, b.v)
    case Singular => a.One? && b.One? && SameValue(f.t, a.v, b.v)
    case Optional => a.Maybe? && b.Maybe? && a.has == b.has && (a.has ==> SameValue(f.t, a.v, b.v))
    case Oneof(_) => a.Maybe? && b.Maybe? && a.has == b.has && (a.has ==> SameValue(f.t, a.v, b.v))
    case Repeated(_) =>
      a.Many? && b.Many? && |a.vs| == |b.vs| && forall i | 0 <= i < |a.vs| :: SameValue(f.t, a.vs[i], b.vs[i])
  }

  ghost predicate SameMessage(mt: MessageType, a: Message, b: Message)
    decreases mt
  {
    && |a.slots| == |b.slots| == |mt.fields|
    && forall i | 0 <= i < |mt.fields| :: SameSlot(mt.fields[i], a.slots[i], b.slots[i])
  }

  // ----- what arrives -----

  ghost predicate ArrivedValue(t: Type, a: Value, b: Value)
    decreases t
  {
    if t.Submessage? then a.M? && b.M? && ArrivedMessage(t.m, a.m, b.m) else a == b
  }

  /** A proto3 field at zero is not sent, so its default arrives. */
  ghost predicate ArrivedSlot(f: Field, a: Slot, b: Slot)
    decreases f
  {
    match f.rule
    case Required => a.One? && b.One? && ArrivedValue(f.t, a.v, b.v)
    case Singular =>
      a.One? && if IsDefault(f.t, a.v) then b == DefaultSlot(f) else b.One? && ArrivedValue(f.t, a.v, b.v)
    case Optional => a.Maybe? && b.Maybe? && a.has == b.has && (a.has ==> ArrivedValue(f.t, a.v, b.v))
    case Oneof(_) => a.Maybe? && b.Maybe? && a.has == b.has && (a.has ==> ArrivedValue(f.t, a.v, b.v))
    case Repeated(_) =>
      a.Many? && b.Many? && |a.vs| == |b.vs| && forall i | 0 <= i < |a.vs| :: ArrivedValue(f.t, a.vs[i], b.vs[i])
  }

  ghost predicate ArrivedMessage(mt: MessageType, a: Message, b: Message)
    decreases mt
  {
    && |a.slots| == |b.slots| == |mt.fields|
    && forall i | 0 <= i < |mt.fields| :: ArrivedSlot(mt.fields[i], a.slots[i], b.slots[i])
  }

  // ----- the pieces of the wire format -----

  lemma DelimitedRead(b: seq<Byte>, rest: seq<Byte>)
    requires |b| < TWO32
    ensures ReadVarint32(Delimited(b) + rest) == Ok(Parsed(|b|, b + rest))
    ensures (b + rest)[..|b|] == b && (b + rest)[|b|..] == rest
  {
    assert Delimited(b) + rest == Varint(|b|) + (b + rest);
    Varint32RoundTrip(|b|, b + rest);
  }

  lemma DelimitedTaken(b: seq<Byte>, rest: seq<Byte>, e: Error)
    requires |b| < TWO32
    ensures TakeDelimited(Delimited(b) + rest, e) == Ok(Parsed(b, rest))
  {
    DelimitedRead(b, rest);
  }

  lemma WidthIsSmall(v: int, w: Width)
    requires FitsSigned(v, w)
    ensures FitsSigned(v, W64) && (w != W64 ==> FitsSigned(v, W32))
  {
  }

  lemma LowWord(v: int)
    requires 0 <= v + TWO31 && v < 0
    ensures (v + TWO64) % TWO32 == v + TWO32
  {
    var x := v + TWO64;
    assert x == 0xffff_ffff * TWO32 + (v + TWO32);
  }

  /** The cast to 64 bits and back to 32 keeps a 32-bit integer. */
  lemma CastBack(v: int, u: Width)
    requires FitsSigned(v, W64) && FitsSigned(v, u) && (u == W32 || u == W64)
    ensures ToSigned(ToUnsigned64(v), u) == v
  {
    if u == W32 {
      if v < 0 { LowWord(v); }
    } else if v < 0 {
      assert (v + TWO64) % TWO64 == v + TWO64;
    }
  }

  lemma SameWidth(v: int, w: Width)
    requires FitsSigned(v, w)
    ensures ToSigned(v, w) == v
  {
    var span := Span(w);
    if v < 0 { assert v % span == v + span; } else { assert v % span == v; }
  }

  lemma NarrowRoundTrip(s: Scalar, v: Value)
    requires ScalarOk(s, v) && (s.Signed? || s.Unsigned? || s.Zigzagged?)
    ensures s.Signed? ==> FitsSigned(v.i, W64) && Narrow(s, ToUnsigned64(v.i)) == Ok(v)
    ensures s.Unsigned? ==> Narrow(s, v.i) == Ok(v)
    ensures s.Zigzagged? ==> FitsSigned(v.i, W64) && Narrow(s, Zigzag(v.i)) == Ok(v)
  {
    if s.Signed? {
      WidthIsSmall(v.i, s.w);
      CastBack(v.i, if s.w == W64 then W64 else W32);
      SameWidth(v.i, s.w);
    } else if s.Zigzagged? {
      WidthIsSmall(v.i, s.w);
      ZigzagRoundTrip(v.i);
      SameWidth(v.i, s.w);
    }
  }

  lemma FixedRoundTrip(v: nat, n: nat, rest: seq<Byte>)
    requires v < Pow256(n)
    ensures (Little(v, n) + rest)[..n] == Little(v, n) && (Little(v, n) + rest)[n..] == rest
    ensures FromLittle(Little(v, n)) == v
  {
    LittleRoundTrip(v, n);
  }

  lemma WordsAre256()
    ensures Pow256(4) == TWO32 && Pow256(8) == TWO64
  {
  }

  lemma ScalarRoundTrip(s: Scalar, v: Value, rest: seq<Byte>)
    requires ScalarOk(s, v)
    ensures DecScalar(s, EncScalar(s, v) + rest) == Ok(Parsed(v, rest))
  {
    match s
    case Bool => Varint32RoundTrip(if v.b then 1 else 0, rest);
    case Fixed32 =>
      WordsAre256();
      FixedRoundTrip(v.i, 4, rest);
    case Fixed64 =>
      WordsAre256();
      FixedRoundTrip(v.i, 8, rest);
    case Signed(w) =>
      NarrowRoundTrip(s, v);
      VarintRoundTrip(ToUnsigned64(v.i), rest);
    case Unsigned(w) =>
      NarrowRoundTrip(s, v);
      VarintRoundTrip(v.i, rest);
    case Zigzagged(w) =>
      NarrowRoundTrip(s, v);
      VarintRoundTrip(Zigzag(v.i), rest);
  }

  lemma ScalarBytes(s: Scalar, v: Value)
    requires ScalarOk(s, v)
    ensures EncScalar(s, v) != []
  {
  }

  /** The first item of a packed array is read and the rest is left. */
  lemma OneItem(s: Scalar, vs: seq<Value>, before: seq<Value>, max: nat)
    requires vs != [] && |before| < max && forall i | 0 <= i < |vs| :: ValueOk(Type.Scalar(s), vs[i])
    ensures DecItems(s, EncItems(s, vs), before, max) == DecItems(s, EncItems(s, vs[1..]), before + [vs[0]], max)
  {
    assert ValueOk(Type.Scalar(s), vs[0]);
    ScalarBytes(s, vs[0]);
    var rest := EncItems(s, vs[1..]);
    ScalarRoundTrip(s, vs[0], rest);
    ItemTurn(s, EncItems(s, vs), before, max, Parsed(vs[0], rest));
  }

  lemma ItemTurn(s: Scalar, input: seq<Byte>, before: seq<Value>, max: nat, p: Parsed<Value>)
    requires input != [] && |before| < max && DecScalar(s, input) == Ok(p)
    ensures DecItems(s, input, before, max) == DecItems(s, p.rest, before + [p.value], max)
  {
  }

  /** What the loop makes of a packed array when it has read the first i items. */
  ghost function FromItem(s: Scalar, vs: seq<Value>, before: seq<Value>, max: nat, i: nat): Result<seq<Value>>
    requires i <= |vs| && forall j | 0 <= j < |vs| :: ValueOk(Type.Scalar(s), vs[j])
  {
    DecItems(s, EncItems(s, vs[i..]), before + vs[..i], max)
  }

  lemma NextItem(s: Scalar, vs: seq<Value>, before: seq<Value>, max: nat, i: nat)
    requires i < |vs| && |before| + |vs| <= max && forall j | 0 <= j < |vs| :: ValueOk(Type.Scalar(s), vs[j])
    ensures FromItem(s, vs, before, max, i) == FromItem(s, vs, before, max, i + 1)
  {
    assert vs[i..][1..] == vs[i + 1..] && before + vs[..i] + [vs[i]] == before + vs[..i + 1];
    OneItem(s, vs[i..], before + vs[..i], max);
  }

  lemma FirstAndLastItem(s: Scalar, vs: seq<Value>, before: seq<Value>, max: nat)
    requires forall j | 0 <= j < |vs| :: ValueOk(Type.Scalar(s), vs[j])
    ensures FromItem(s, vs, before, max, 0) == DecItems(s, EncItems(s, vs), before, max)
    ensures FromItem(s, vs, before, max, |vs|) == Ok(before + vs)
  {
    assert vs[0..] == vs && before + vs[..0] == before && vs[|vs|..] == [] && before + vs[..|vs|] == before + vs;
  }

  lemma ItemsRoundTrip(s: Scalar, vs: seq<Value>, before: seq<Value>, max: nat)
    requires forall i | 0 <= i < |vs| :: ValueOk(Type.Scalar(s), vs[i])
    requires |before| + |vs| <= max
    ensures DecItems(s, EncItems(s, vs), before, max) == Ok(before + vs)
  {
    forall i: nat | i < |vs| ensures FromItem(s, vs, before, max, i) == FromItem(s, vs, before, max, i + 1) {
      NextItem(s, vs, before, max, i);
    }
    Unchanged(i requires 0 <= i <= |vs| => FromItem(s, vs, before, max, i), |vs|);
    FirstAndLastItem(s, vs, before, max);
  }

  lemma {:induction false} Unchanged(f: nat --> Result<seq<Value>>, n: nat)
    requires (forall i: nat | i <= n :: f.requires(i)) && forall i: nat | i < n :: f(i) == f(i + 1)
    ensures f(0) == f(n)
  {
    if n > 0 {
      Unchanged(f, n - 1);
    }
  }

  lemma {:induction false} NoNul(s: seq<Byte>)
    requires 0 !in s
    ensures UpToNul(s) == s
  {
    if s != [] { NoNul(s[1..]); }
  }

  // ----- which messages arrive unchanged -----

  /** No proto3 field that is left out has another default than its zero, at any depth. */
  ghost predicate ZerosSurvive(mt: MessageType, m: Message)
    decreases mt
  {
    |m.slots| == |mt.fields| && forall i | 0 <= i < |mt.fields| :: SlotSurvives(mt.fields[i], m.slots[i])
  }

  ghost predicate SlotSurvives(f: Field, slot: Slot)
    decreases f
  {
    match f.rule
    case Required => slot.One? && ValueSurvives(f.t, slot.v)
    case Singular =>
      && slot.One? && ValueSurvives(f.t, slot.v)
      && (IsDefault(f.t, slot.v) && !f.t.Submessage? ==> f.initial in {None, Some(slot.v)})
    case Optional => slot.Maybe? && (slot.has ==> ValueSurvives(f.t, slot.v))
    case Oneof(_) => slot.Maybe? && (slot.has ==> ValueSurvives(f.t, slot.v))
    case Repeated(_) => slot.Many? && forall i | 0 <= i < |slot.vs| :: ValueSurvives(f.t, slot.vs[i])
  }

  ghost predicate ValueSurvives(t: Type, v: Value)
    decreases t
  {
    t.Submessage? ==> v.M? && ZerosSurvive(t.m, v.m)
  }

  /** A value that proto3 leaves out arrives as the zero of its type. */
  lemma DefaultIsZero(t: Type, v: Value)
    requires ValueOk(t, v) && IsDefault(t, v)
    ensures ArrivedValue(t, v, Zero(t))
  {
    if t.Submessage? {
      AllDefaultArrive(t.m, v.m, 0);
    } else if t.FixedBytes? {
      assert v.s == Zeros(0);
    }
  }

  lemma {:induction false} AllDefaultArrive(mt: MessageType, m: Message, k: nat)
    requires MessageOk(mt, m) && k <= |mt.fields| && AllDefault(mt, m.slots, k)
    ensures forall i | k <= i < |mt.fields| :: ArrivedSlot(mt.fields[i], m.slots[i], DefaultSlot(mt.fields[i]))
    decreases |mt.fields| - k
  {
    if k < |mt.fields| {
      AllDefaultArrive(mt, m, k + 1);
    }
  }

  lemma {:induction false} ArrivedValueIff(t: Type, a: Value, b: Value)
    requires ValueOk(t, a) && ArrivedValue(t, a, b)
    ensures SameValue(t, a, b) <==> ValueSurvives(t, a)
    decreases t
  {
    if t.Submessage? { ArrivedMessageIff(t.m, a.m, b.m); }
  }

  lemma {:induction false} ArrivedSlotIff(f: Field, a: Slot, b: Slot)
    requires SlotOk(f, a) && ArrivedSlot(f, a, b)
    ensures SameSlot(f, a, b) <==> SlotSurvives(f, a)
    decreases f
  {
    if a.Many? {
      forall i | 0 <= i < |a.vs| ensures SameValue(f.t, a.vs[i], b.vs[i]) <==> ValueSurvives(f.t, a.vs[i]) {
        ArrivedValueIff(f.t, a.vs[i], b.vs[i]);
      }
    } else if f.rule.Singular? && IsDefault(f.t, a.v) {
      DefaultIsZero(f.t, a.v);
      ArrivedValueIff(f.t, a.v, Zero(f.t));
      assert b == One(InitialValue(f));
      if !f.t.Submessage? { assert SameValue(f.t, a.v, b.v) <==> f.initial in {None, Some(a.v)}; }
    } else if a.Maybe? ==> a.has {
      ArrivedValueIff(f.t, a.v, b.v);
    }
  }

  lemma {:induction false} ArrivedMessageIff(mt: MessageType, a: Message, b: Message)
    requires MessageOk(mt, a) && ArrivedMessage(mt, a, b)
    ensures SameMessage(mt, a, b) <==> ZerosSurvive(mt, a)
    decreases mt
  {
    forall i | 0 <= i < |mt.fields|
      ensures SameSlot(mt.fields[i], a.slots[i], b.slots[i]) <==> SlotSurvives(mt.fields[i], a.slots[i])
    {
      assert SlotOk(mt.fields[i], a.slots[i]) && ArrivedSlot(mt.fields[i], a.slots[i], b.slots[i]);
      ArrivedSlotIff(mt.fields[i], a.slots[i], b.slots[i]);
    }
  }

  // ----- the decoder's loop -----

  lemma FindUnique(mt: MessageType, pos: nat, k: nat)
    requires GoodType(mt) && pos <= |mt.fields| && k < |mt.fields|
    ensures Find(mt, pos, mt.fields[k].tag) == Some(k)
  {
  }

  function Stored(mt: MessageType, p: Progress, k: nat, slot: Slot): (r: Progress)
    requires |p.slots| == |mt.fields| && k < |mt.fields|
    ensures |r.slots| == |mt.fields| && r.pos <= |mt.fields|
  {
    Progress(Store(mt, p.slots, k, slot), k, p.seen + {k})
  }

  /** One turn of the loop: a key and what DecField does with it. */
  lemma KeyTurn(mt: MessageType, key: nat, body: seq<Byte>, p: Progress, rest: seq<Byte>, q: Progress)
    requires ProgressOk(mt, p) && 0 < key < TWO32 && DecField(mt, key, body, p) == Ok(Parsed(q, rest))
    ensures ProgressOk(mt, q) && DecLoop(mt, Varint(key) + body, p) == DecLoop(mt, rest, q)
  {
    Varint32RoundTrip(key, body);
  }

  /** One turn of the loop, for a known field. */
  lemma FieldTurn(mt: MessageType, k: nat, wireType: nat, body: seq<Byte>, rest: seq<Byte>, p: Progress, slot: Slot)
    requires GoodType(mt) && ProgressOk(mt, p) && k < |mt.fields| && wireType < 8
    requires DecSlot(mt.fields[k], p.slots[k], wireType, body + rest) == Ok(Parsed(slot, rest))
    ensures DecLoop(mt, Key(mt.fields[k].tag, wireType) + body + rest, p) == DecLoop(mt, rest, Stored(mt, p, k, slot))
  {
    var f := mt.fields[k];
    assert GoodField(f);
    var key := 8 * f.tag + wireType;
    KeyParts(f.tag, wireType);
    KnownField(mt, k, key, body + rest, rest, p, slot);
    KeyTurn(mt, key, body + rest, p, rest, Stored(mt, p, k, slot));
    Assoc(Key(f.tag, wireType), body, rest);
  }

  lemma KeyParts(tag: nat, wireType: nat)
    requires wireType < 8
    ensures var key := 8 * tag + wireType; key / 8 == tag && key % 8 == wireType && Key(tag, wireType) == Varint(key)
  {
  }

  lemma KnownField(mt: MessageType, k: nat, key: nat, input: seq<Byte>, rest: seq<Byte>, p: Progress, slot: Slot)
    requires GoodType(mt) && ProgressOk(mt, p) && k < |mt.fields| && key / 8 == mt.fields[k].tag
    requires DecSlot(mt.fields[k], p.slots[k], key % 8, input) == Ok(Parsed(slot, rest))
    ensures DecField(mt, key, input, p) == Ok(Parsed(Stored(mt, p, k, slot), rest))
  {
    FindUnique(mt, p.pos, k);
  }

  /** The fields before k are decoded, those after k untouched. */
  ghost predicate Around(mt: MessageType, m: Message, k: nat, p: Progress)
    requires |m.slots| == |mt.fields|
  {
    && ProgressOk(mt, p)
    && (forall i | 0 <= i < k && i < |mt.fields| ::
          ArrivedSlot(mt.fields[i], m.slots[i], p.slots[i]) && (mt.fields[i].rule.Required? ==> i in p.seen))
    && (forall i | k < i < |mt.fields| :: p.slots[i] == DefaultSlot(mt.fields[i]))
  }

  ghost predicate Upto(mt: MessageType, m: Message, k: nat, p: Progress)
    requires |m.slots| == |mt.fields|
  {
    Around(mt, m, k, p) && (k < |mt.fields| ==> p.slots[k] == DefaultSlot(mt.fields[k]))
  }

  lemma OtherMember(mt: MessageType, slots: seq<Slot>, i: nat, k: nat)
    requires |slots| == |mt.fields| && OneInUnion(mt, slots) && i < k < |slots| && SameUnion(mt.fields[i], mt.fields[k])
    ensures Has(slots[k]) ==> !Has(slots[i])
  {
  }

  lemma StoreKeepsAround(mt: MessageType, m: Message, k: nat, p: Progress, slot: Slot)
    requires MessageOk(mt, m) && k < |mt.fields| && Around(mt, m, k, p)
    requires mt.fields[k].rule.Oneof? ==> Has(m.slots[k])
    ensures Around(mt, m, k, Stored(mt, p, k, slot))
    ensures Stored(mt, p, k, slot).slots[k] == slot && k in Stored(mt, p, k, slot).seen
  {
    var q := Stored(mt, p, k, slot);
    forall i | 0 <= i < k ensures ArrivedSlot(mt.fields[i], m.slots[i], q.slots[i]) {
      if SameUnion(mt.fields[i], mt.fields[k]) {
        assert SlotOk(mt.fields[i], m.slots[i]);
        OtherMember(mt, m.slots, i, k);
      }
    }
  }

  lemma Advance(mt: MessageType, m: Message, k: nat, p: Progress)
    requires MessageOk(mt, m) && k < |mt.fields| && Around(mt, m, k, p)
    requires ArrivedSlot(mt.fields[k], m.slots[k], p.slots[k]) && (mt.fields[k].rule.Required? ==> k in p.seen)
    ensures Upto(mt, m, k + 1, p)
  {
  }

  // ----- the round trip, by recursion over the descriptor -----

  lemma {:induction false} ValueRoundTrip(t: Type, v: Value, was: Value, rest: seq<Byte>)
    requires ValueOk(t, v) && ValueFits(t, v, true) && |EncValue(t, v)| < TWO32
    requires t.Submessage? ==> GoodType(t.m) && was == Zero(t)
    ensures var r := DecValue(t, was, EncValue(t, v) + rest);
            r.Ok? && r.value.rest == rest && ArrivedValue(t, v, r.value.value)
    decreases t, 2, 0
  {
    match t
    case Scalar(s) => ScalarRoundTrip(s, v, rest);
    case Bytes(_) => DelimitedRead(v.s, rest);
    case String(_) =>
      DelimitedRead(v.s, rest);
      NoNul(v.s);
    case FixedBytes(n) =>
      DelimitedRead(v.s, rest);
      if n == 0 { assert v.s == Zeros(0) && v.s + rest == rest; }
    case Submessage(mt) =>
      DelimitedTaken(EncFrom(mt, v.m, 0), rest, ParentTooShort);
      MessageRoundTrip(mt, v.m);
  }

  lemma {:induction false} MessageRoundTrip(mt: MessageType, m: Message)
    requires MessageOk(mt, m) && GoodType(mt) && Fits(mt, m, 0, true) && |EncFrom(mt, m, 0)| < TWO32
    ensures var r := DecMessage(mt, Defaults(mt), EncFrom(mt, m, 0));
            r.Ok? && ArrivedMessage(mt, m, r.value)
    decreases mt, 2, 0
  {
    var q := LoopRoundTrip(mt, m, 0, Progress(Defaults(mt), 0, {}), []);
    assert EncFrom(mt, m, 0) + [] == EncFrom(mt, m, 0);
    LoopEnds(mt, m, EncFrom(mt, m, 0), q);
  }

  lemma LoopEnds(mt: MessageType, m: Message, input: seq<Byte>, q: Progress)
    requires |m.slots| == |mt.fields| && Upto(mt, m, |mt.fields|, q)
    requires Turns(mt, input, Progress(Defaults(mt), 0, {}), [], q)
    ensures var r := DecMessage(mt, Defaults(mt), input);
            r.Ok? && ArrivedMessage(mt, m, r.value)
  {
    assert DecLoop(mt, [], q) == Ok(q);
  }

  lemma EncStep(mt: MessageType, m: Message, k: nat, tail: seq<Byte>)
    requires MessageOk(mt, m) && k < |mt.fields|
    ensures SlotOk(mt.fields[k], m.slots[k])
    ensures EncFrom(mt, m, k) == EncSlot(mt.fields[k], m.slots[k]) + EncFrom(mt, m, k + 1)
    ensures Fits(mt, m, k, true) ==> SlotFits(mt.fields[k], m.slots[k], true) && Fits(mt, m, k + 1, true)
    ensures EncFrom(mt, m, k) + tail == EncSlot(mt.fields[k], m.slots[k]) + (EncFrom(mt, m, k + 1) + tail)
  {
  }

  /** From `input` and `p` the loop comes to `rest` and `q`. */
  ghost predicate Turns(mt: MessageType, input: seq<Byte>, p: Progress, rest: seq<Byte>, q: Progress) {
    ProgressOk(mt, p) && ProgressOk(mt, q) && DecLoop(mt, input, p) == DecLoop(mt, rest, q)
  }

  lemma TurnsTrans(mt: MessageType, a: seq<Byte>, p: Progress, b: seq<Byte>, q: Progress, c: seq<Byte>, r: Progress)
    requires Turns(mt, a, p, b, q) && Turns(mt, b, q, c, r)
    ensures Turns(mt, a, p, c, r)
  {
  }

  /** All turns for the fields from k on. */
  lemma {:induction false} LoopRoundTrip(mt: MessageType, m: Message, k: nat, p: Progress, tail: seq<Byte>)
    returns (q: Progress)
    requires MessageOk(mt, m) && GoodType(mt) && k <= |mt.fields| && Fits(mt, m, k, true) && |EncFrom(mt, m, k)| < TWO32
    requires Upto(mt, m, k, p)
    ensures Upto(mt, m, |mt.fields|, q) && Turns(mt, EncFrom(mt, m, k) + tail, p, tail, q)
    decreases mt, 1, |mt.fields| - k
  {
    if k == |mt.fields| {
      assert EncFrom(mt, m, k) + tail == tail;
      q := p;
    } else {
      EncStep(mt, m, k, tail);
      var next := SlotTurns(mt, m, k, p, EncFrom(mt, m, k + 1) + tail);
      q := LoopRoundTrip(mt, m, k + 1, next, tail);
      TurnsTrans(mt, EncFrom(mt, m, k) + tail, p, EncFrom(mt, m, k + 1) + tail, next, tail, q);
    }
  }

  /** All turns of the loop that field k takes. */
  lemma {:induction false} SlotTurns(mt: MessageType, m: Message, k: nat, p: Progress, rest: seq<Byte>)
    returns (q: Progress)
    requires MessageOk(mt, m) && GoodType(mt) && k < |mt.fields| && Upto(mt, m, k, p)
    requires SlotFits(mt.fields[k], m.slots[k], true) && |EncSlot(mt.fields[k], m.slots[k])| < TWO32
    ensures Upto(mt, m, k + 1, q) && Turns(mt, EncSlot(mt.fields[k], m.slots[k]) + rest, p, rest, q)
    decreases mt, 0, 2
  {
    var f, slot := mt.fields[k], m.slots[k];
    assert SlotOk(f, slot) && GoodField(f);
    if EncSlot(f, slot) == [] {
      assert EncSlot(f, slot) + rest == rest;
      q := p;
      OmittedIsDefault(f, slot);
      Advance(mt, m, k, p);
    } else if !f.rule.Repeated? {
      q := OneTurn(mt, m, k, p, rest);
    } else if f.t.Scalar? {
      q := PackedTurn(mt, m, k, p, rest);
    } else {
      q := EachTurn(mt, m, k, p, rest);
    }
  }

  lemma TaggedBytes(f: Field, v: Value)
    requires ValueOk(f.t, v)
    ensures EncTagged(f, v) != [] && |EncValue(f.t, v)| < |EncTagged(f, v)|
  {
  }

  lemma OmittedIsDefault(f: Field, slot: Slot)
    requires SlotOk(f, slot) && GoodField(f) && EncSlot(f, slot) == []
    ensures ArrivedSlot(f, slot, DefaultSlot(f))
    ensures !f.rule.Required?
  {
    if !f.rule.Repeated? {
      if ValueOk(f.t, slot.v) { TaggedBytes(f, slot.v); }
    } else if slot.vs != [] {
      assert ValueOk(f.t, slot.vs[0]);
      TaggedBytes(f, slot.vs[0]);
    }
  }

  lemma {:induction false} OneTurn(mt: MessageType, m: Message, k: nat, p: Progress, rest: seq<Byte>)
    returns (q: Progress)
    requires MessageOk(mt, m) && GoodType(mt) && k < |mt.fields| && Upto(mt, m, k, p) && !mt.fields[k].rule.Repeated?
    requires SlotFits(mt.fields[k], m.slots[k], true) && 0 < |EncSlot(mt.fields[k], m.slots[k])| < TWO32
    ensures Upto(mt, m, k + 1, q)
    ensures DecLoop(mt, EncSlot(mt.fields[k], m.slots[k]) + rest, p) == DecLoop(mt, rest, q)
    decreases mt, 0, 1
  {
    var f, slot := mt.fields[k], m.slots[k];
    assert SlotOk(f, slot) && GoodField(f);
    TaggedBytes(f, slot.v);
    ValueRoundTrip(f.t, slot.v, InitialValue(f), rest);
    var wt := WireType(f.t);
    var d := DecSlot(f, p.slots[k], wt, EncValue(f.t, slot.v) + rest);
    if f.rule.Oneof? { ValueRoundTrip(f.t, slot.v, Zero(f.t), rest); }
    FieldTurn(mt, k, wt, EncValue(f.t, slot.v), rest, p, d.value.value);
    q := Stored(mt, p, k, d.value.value);
    StoreKeepsAround(mt, m, k, p, d.value.value);
    Advance(mt, m, k, q);
  }

  lemma {:induction false} PackedTurn(mt: MessageType, m: Message, k: nat, p: Progress, rest: seq<Byte>)
    returns (q: Progress)
    requires MessageOk(mt, m) && GoodType(mt) && k < |mt.fields| && Upto(mt, m, k, p)
    requires mt.fields[k].rule.Repeated? && mt.fields[k].t.Scalar?
    requires SlotFits(mt.fields[k], m.slots[k], true) && 0 < |EncSlot(mt.fields[k], m.slots[k])| < TWO32
    ensures Upto(mt, m, k + 1, q)
    ensures DecLoop(mt, EncSlot(mt.fields[k], m.slots[k]) + rest, p) == DecLoop(mt, rest, q)
  {
    var f, slot := mt.fields[k], m.slots[k];
    assert SlotOk(f, slot) && GoodField(f);
    var items := EncItems(f.t.s, slot.vs);
    DelimitedTaken(items, rest, ParentTooShort);
    ItemsRoundTrip(f.t.s, slot.vs, [], f.rule.max);
    assert [] + slot.vs == slot.vs;
    FieldTurn(mt, k, 2, Delimited(items), rest, p, slot);
    q := Stored(mt, p, k, slot);
    StoreKeepsAround(mt, m, k, p, slot);
    Advance(mt, m, k, q);
  }

  /** The decoder is at entry j of an array of strings, bytes or submessages. */
  ghost predicate AtEntry(mt: MessageType, m: Message, k: nat, j: nat, p: Progress) {
    && MessageOk(mt, m) && k < |mt.fields| && Around(mt, m, k, p)
    && mt.fields[k].rule.Repeated? && !mt.fields[k].t.Scalar?
    && SlotOk(mt.fields[k], m.slots[k]) && j <= |m.slots[k].vs| <= mt.fields[k].rule.max
    && p.slots[k].Many? && |p.slots[k].vs| == j
    && forall i | 0 <= i < j :: ArrivedValue(mt.fields[k].t, m.slots[k].vs[i], p.slots[k].vs[i])
  }

  lemma EntryRead(f: Field, was: Slot, input: seq<Byte>, d: Parsed<Value>)
    requires f.rule.Repeated? && !f.t.Scalar? && was.Many? && |was.vs| < f.rule.max
    requires DecValue(f.t, Zero(f.t), input) == Ok(d)
    ensures DecSlot(f, was, 2, input) == Ok(Parsed(Many(was.vs + [d.value]), d.rest))
  {
  }

  lemma EntryStored(mt: MessageType, m: Message, k: nat, j: nat, p: Progress, w: Value)
    requires GoodType(mt) && AtEntry(mt, m, k, j, p) && j < |m.slots[k].vs|
    requires ArrivedValue(mt.fields[k].t, m.slots[k].vs[j], w)
    ensures AtEntry(mt, m, k, j + 1, Stored(mt, p, k, Many(p.slots[k].vs + [w])))
  {
    StoreKeepsAround(mt, m, k, p, Many(p.slots[k].vs + [w]));
  }

  lemma {:induction false} EntryTurn(mt: MessageType, m: Message, k: nat, j: nat, p: Progress, rest: seq<Byte>)
    returns (q: Progress)
    requires GoodType(mt) && AtEntry(mt, m, k, j, p) && j < |m.slots[k].vs|
    requires ValueOk(mt.fields[k].t, m.slots[k].vs[j]) && ValueFits(mt.fields[k].t, m.slots[k].vs[j], true)
    requires |EncTagged(mt.fields[k], m.slots[k].vs[j])| < TWO32
    ensures AtEntry(mt, m, k, j + 1, q)
    ensures DecLoop(mt, EncTagged(mt.fields[k], m.slots[k].vs[j]) + rest, p) == DecLoop(mt, rest, q)
    decreases mt, 0, 0
  {
    var f, v := mt.fields[k], m.slots[k].vs[j];
    assert GoodField(f);
    TaggedBytes(f, v);
    ValueRoundTrip(f.t, v, Zero(f.t), rest);
    var d := DecValue(f.t, Zero(f.t), EncValue(f.t, v) + rest);
    var slot := Many(p.slots[k].vs + [d.value.value]);
    EntryRead(f, p.slots[k], EncValue(f.t, v) + rest, d.value);
    FieldTurn(mt, k, 2, EncValue(f.t, v), rest, p, slot);
    q := Stored(mt, p, k, slot);
    EntryStored(mt, m, k, j, p, d.value.value);
  }

  lemma EachSplit(f: Field, vs: seq<Value>, j: nat, rest: seq<Byte>)
    requires (forall i | 0 <= i < |vs| :: ValueOk(f.t, vs[i])) && j < |vs|
    ensures ValueOk(f.t, vs[j])
    ensures EncEach(f, vs[j..]) == EncTagged(f, vs[j]) + EncEach(f, vs[j + 1..])
    ensures EncEach(f, vs[j..]) + rest == EncTagged(f, vs[j]) + (EncEach(f, vs[j + 1..]) + rest)
  {
    assert vs[j..][1..] == vs[j + 1..];
  }

  /** The entries from j up to i, one turn each. */
  lemma {:induction false} EachUntil(mt: MessageType, m: Message, k: nat, j: nat, i: nat, p: Progress, rest: seq<Byte>)
    returns (q: Progress)
    requires GoodType(mt) && AtEntry(mt, m, k, j, p) && |EncEach(mt.fields[k], m.slots[k].vs[j..])| < TWO32
    requires j <= i <= |m.slots[k].vs|
    requires forall x | j <= x < i ::
               ValueOk(mt.fields[k].t, m.slots[k].vs[x]) && ValueFits(mt.fields[k].t, m.slots[k].vs[x], true)
    ensures AtEntry(mt, m, k, i, q) && |EncEach(mt.fields[k], m.slots[k].vs[i..])| < TWO32
    ensures DecLoop(mt, EncEach(mt.fields[k], m.slots[k].vs[j..]) + rest, p)
         == DecLoop(mt, EncEach(mt.fields[k], m.slots[k].vs[i..]) + rest, q)
    decreases mt, 0, 1, i - j
  {
    if j == i {
      q := p;
    } else {
      var f, vs := mt.fields[k], m.slots[k].vs;
      EachSplit(f, vs, j, rest);
      var next := EntryTurn(mt, m, k, j, p, EncEach(f, vs[j + 1..]) + rest);
      q := EachUntil(mt, m, k, j + 1, i, next, rest);
    }
  }

  lemma {:induction false} EachTurn(mt: MessageType, m: Message, k: nat, p: Progress, rest: seq<Byte>)
    returns (q: Progress)
    requires GoodType(mt) && AtEntry(mt, m, k, 0, p) && |EncEach(mt.fields[k], m.slots[k].vs)| < TWO32
    requires SlotFits(mt.fields[k], m.slots[k], true)
    ensures Upto(mt, m, k + 1, q)
    ensures DecLoop(mt, EncEach(mt.fields[k], m.slots[k].vs) + rest, p) == DecLoop(mt, rest, q)
    decreases mt, 0, 1, |m.slots[k].vs| + 1
  {
    var vs := m.slots[k].vs;
    assert vs[0..] == vs && vs[|vs|..] == [];
    q := EachUntil(mt, m, k, 0, |vs|, p, rest);
    assert EncEach(mt.fields[k], []) + rest == rest;
    Advance(mt, m, k, q);
  }

  /** pb_encode then pb_decode: the message is read, and comes back as it was if and only if no proto3 field that was
      left out has another default in its descriptor. */
  lemma RoundTripIff(mt: MessageType, m: Message)
    requires MessageOk(mt, m) && GoodType(mt) && Fits(mt, m, 0, true) && |Encoded(mt, m)| < TWO32
    ensures var r := Decode(mt, Encoded(mt, m));
            r.Ok? && ArrivedMessage(mt, m, r.value) && (SameMessage(mt, m, r.value) <==> ZerosSurvive(mt, m))
  {
    MessageRoundTrip(mt, m);
    ArrivedMessageIff(mt, m, Decode(mt, Encoded(mt, m)).value);
  }

  /** No proto3 field has a default of its own, at any depth. */
  ghost predicate PlainType(mt: MessageType)
    decreases mt
  {
    forall i | 0 <= i < |mt.fields| :: PlainField(mt.fields[i])
  }

  ghost predicate PlainField(f: Field)
    decreases f
  {
    if f.t.Submessage? then PlainType(f.t.m) else f.rule.Singular? ==> f.initial.None?
  }

  lemma {:induction false} PlainSurvives(mt: MessageType, m: Message)
    requires PlainType(mt) && MessageOk(mt, m)
    ensures ZerosSurvive(mt, m)
    decreases mt
  {
    forall i | 0 <= i < |mt.fields| ensures SlotSurvives(mt.fields[i], m.slots[i]) {
      assert PlainField(mt.fields[i]) && SlotOk(mt.fields[i], m.slots[i]);
      PlainSlotSurvives(mt.fields[i], m.slots[i]);
    }
  }

  lemma {:induction false} PlainSlotSurvives(f: Field, slot: Slot)
    requires PlainField(f) && SlotOk(f, slot)
    ensures SlotSurvives(f, slot)
    decreases f
  {
    if f.t.Submessage? {
      if slot.Many? {
        forall i | 0 <= i < |slot.vs| ensures ValueSurvives(f.t, slot.vs[i]) {
          PlainSurvives(f.t.m, slot.vs[i].m);
        }
      } else if slot.Maybe? ==> slot.has {
        PlainSurvives(f.t.m, slot.v.m);
      }
    }
  }

  /** The round trip for types in which no proto3 field has a default of its own, as proto3 has it. */
  lemma RoundTrip(mt: MessageType, m: Message)
    requires MessageOk(mt, m) && GoodType(mt) && PlainType(mt) && Fits(mt, m, 0, true) && |Encoded(mt, m)| < TWO32
    ensures var r := Decode(mt, Encoded(mt, m));
            r.Ok? && SameMessage(mt, m, r.value)
  {
    RoundTripIff(mt, m);
    PlainSurvives(mt, m);
  }

  // ----- strings without a terminator -----

  /** A string that fills its buffer to the last byte is written but not read back. */
  lemma StringSurvivesIffTerminated(max: nat, v: Value, was: Value, rest: seq<Byte>)
    requires ValueOk(String(max), v) && |v.s| < TWO32
    ensures var r := DecValue(String(max), was, EncValue(String(max), v) + rest);
            && (|v.s| < max ==> r == Ok(Parsed(v, rest)))
            && (|v.s| == max ==> r == Err(StringOverflow))
  {
    DelimitedRead(v.s, rest);
    NoNul(v.s);
  }

  /** A value that is written although a string in it has no place for its terminator. */
  ghost predicate LacksNul(t: Type, v: Value)
    requires ValueOk(t, v)
  {
    ValueFits(t, v, false) && !ValueFits(t, v, true)
  }

  lemma {:induction false} ValueFails(t: Type, v: Value, was: Value, rest: seq<Byte>)
    requires ValueOk(t, v) && LacksNul(t, v) && |EncValue(t, v)| < TWO32
    requires t.Submessage? ==> GoodType(t.m) && was == Zero(t)
    ensures DecValue(t, was, EncValue(t, v) + rest) == Err(StringOverflow)
    decreases t, 2, 0
  {
    if t.Submessage? {
      DelimitedTaken(EncFrom(t.m, v.m, 0), rest, ParentTooShort);
      MessageFails(t.m, v.m);
    } else {
      StringSurvivesIffTerminated(t.max, v, was, rest);
    }
  }

  lemma {:induction false} MessageFails(mt: MessageType, m: Message)
    requires MessageOk(mt, m) && GoodType(mt) && Fits(mt, m, 0, false) && !Fits(mt, m, 0, true)
    requires |EncFrom(mt, m, 0)| < TWO32
    ensures DecMessage(mt, Defaults(mt), EncFrom(mt, m, 0)) == Err(StringOverflow)
    decreases mt, 2, 0
  {
    LoopFails(mt, m, 0, Progress(Defaults(mt), 0, {}));
  }

  lemma FitsStep(mt: MessageType, m: Message, k: nat, nul: bool)
    requires MessageOk(mt, m) && k < |mt.fields|
    ensures SlotOk(mt.fields[k], m.slots[k])
    ensures Fits(mt, m, k, nul) <==> SlotFits(mt.fields[k], m.slots[k], nul) && Fits(mt, m, k + 1, nul)
  {
  }

  /** The loop reads the fields before the first that lacks a terminator, and stops there. */
  lemma {:induction false} LoopFails(mt: MessageType, m: Message, k: nat, p: Progress)
    requires MessageOk(mt, m) && GoodType(mt) && k <= |mt.fields| && Fits(mt, m, k, false) && !Fits(mt, m, k, true)
    requires Upto(mt, m, k, p) && |EncFrom(mt, m, k)| < TWO32
    ensures DecLoop(mt, EncFrom(mt, m, k), p) == Err(StringOverflow)
    decreases mt, 1, |mt.fields| - k
  {
    FitsStep(mt, m, k, false);
    FitsStep(mt, m, k, true);
    EncStep(mt, m, k, []);
    var rest := EncFrom(mt, m, k + 1);
    if SlotFits(mt.fields[k], m.slots[k], true) {
      var next := SlotTurns(mt, m, k, p, rest);
      LoopFails(mt, m, k + 1, next);
    } else {
      SlotFails(mt, m, k, p, rest);
    }
  }

  /** A turn that fails. */
  lemma FieldFails(mt: MessageType, k: nat, wireType: nat, body: seq<Byte>, rest: seq<Byte>, p: Progress, e: Error)
    requires GoodType(mt) && ProgressOk(mt, p) && k < |mt.fields| && wireType < 8
    requires DecSlot(mt.fields[k], p.slots[k], wireType, body + rest) == Err(e)
    ensures DecLoop(mt, Key(mt.fields[k].tag, wireType) + body + rest, p) == Err(e)
  {
    var f := mt.fields[k];
    assert GoodField(f);
    KeyParts(f.tag, wireType);
    FindUnique(mt, p.pos, k);
    KeyFails(mt, 8 * f.tag + wireType, body + rest, p, e);
    Assoc(Key(f.tag, wireType), body, rest);
  }

  lemma KeyFails(mt: MessageType, key: nat, body: seq<Byte>, p: Progress, e: Error)
    requires ProgressOk(mt, p) && 0 < key < TWO32 && DecField(mt, key, body, p) == Err(e)
    ensures DecLoop(mt, Varint(key) + body, p) == Err(e)
  {
    Varint32RoundTrip(key, body);
  }

  lemma {:induction false} SlotFails(mt: MessageType, m: Message, k: nat, p: Progress, rest: seq<Byte>)
    requires MessageOk(mt, m) && GoodType(mt) && k < |mt.fields| && Upto(mt, m, k, p)
    requires SlotOk(mt.fields[k], m.slots[k]) && |EncSlot(mt.fields[k], m.slots[k])| < TWO32
    requires SlotFits(mt.fields[k], m.slots[k], false) && !SlotFits(mt.fields[k], m.slots[k], true)
    ensures DecLoop(mt, EncSlot(mt.fields[k], m.slots[k]) + rest, p) == Err(StringOverflow)
    decreases mt, 0, 2
  {
    var f, slot := mt.fields[k], m.slots[k];
    assert GoodField(f);
    if f.rule.Repeated? {
      EachFails(mt, m, k, p, rest);
    } else {
      TaggedBytes(f, slot.v);
      ValueFails(f.t, slot.v, if f.rule.Oneof? then Zero(f.t) else InitialValue(f), rest);
      FieldFails(mt, k, 2, EncValue(f.t, slot.v), rest, p, StringOverflow);
    }
  }

  lemma EntryFails(f: Field, was: Slot, input: seq<Byte>, e: Error)
    requires f.rule.Repeated? && !f.t.Scalar? && was.Many? && |was.vs| < f.rule.max
    requires DecValue(f.t, Zero(f.t), input) == Err(e)
    ensures DecSlot(f, was, 2, input) == Err(e)
  {
  }

  lemma {:induction false} OneEntryFails(mt: MessageType, k: nat, v: Value, p: Progress, rest: seq<Byte>)
    requires GoodType(mt) && ProgressOk(mt, p) && k < |mt.fields| && GoodField(mt.fields[k])
    requires mt.fields[k].rule.Repeated? && !mt.fields[k].t.Scalar?
    requires p.slots[k].Many? && |p.slots[k].vs| < mt.fields[k].rule.max
    requires ValueOk(mt.fields[k].t, v) && LacksNul(mt.fields[k].t, v) && |EncTagged(mt.fields[k], v)| < TWO32
    ensures DecLoop(mt, EncTagged(mt.fields[k], v) + rest, p) == Err(StringOverflow)
    decreases mt, 0, 0
  {
    var f := mt.fields[k];
    TaggedBytes(f, v);
    ValueFails(f.t, v, Zero(f.t), rest);
    EntryFails(f, p.slots[k], EncValue(f.t, v) + rest, StringOverflow);
    FieldFails(mt, k, 2, EncValue(f.t, v), rest, p, StringOverflow);
  }

  lemma FirstLacking(f: Field, slot: Slot) returns (i: nat)
    requires f.rule.Repeated? && SlotOk(f, slot) && SlotFits(f, slot, false) && !SlotFits(f, slot, true)
    ensures i < |slot.vs| && ValueOk(f.t, slot.vs[i]) && LacksNul(f.t, slot.vs[i])
    ensures forall x | 0 <= x < i :: ValueOk(f.t, slot.vs[x]) && ValueFits(f.t, slot.vs[x], true)
  {
    i := 0;
    while ValueFits(f.t, slot.vs[i], true)
      invariant i < |slot.vs| && exists x :: i <= x < |slot.vs| && !ValueFits(f.t, slot.vs[x], true)
      invariant forall x | 0 <= x < i :: ValueFits(f.t, slot.vs[x], true)
      decreases |slot.vs| - i
    {
      i := i + 1;
    }
  }

  /** The entries before the first that lacks a terminator are read. */
  lemma {:induction false} EachFails(mt: MessageType, m: Message, k: nat, p: Progress, rest: seq<Byte>)
    requires GoodType(mt) && AtEntry(mt, m, k, 0, p) && |EncEach(mt.fields[k], m.slots[k].vs)| < TWO32
    requires SlotFits(mt.fields[k], m.slots[k], false) && !SlotFits(mt.fields[k], m.slots[k], true)
    ensures DecLoop(mt, EncEach(mt.fields[k], m.slots[k].vs) + rest, p) == Err(StringOverflow)
    decreases mt, 0, 1, |m.slots[k].vs| + 1
  {
    var f, vs := mt.fields[k], m.slots[k].vs;
    var i := FirstLacking(f, m.slots[k]);
    assert vs[0..] == vs && GoodField(f);
    var q := EachUntil(mt, m, k, 0, i, p, rest);
    EachSplit(f, vs, i, rest);
    OneEntryFails(mt, k, vs[i], q, EncEach(f, vs[i + 1..]) + rest);
  }

  /** What the encoder writes is decoded if and only if every string that was written leaves room for its terminator, at
      any depth; otherwise the error is that of the string. */
  lemma DecodesIffTerminated(mt: MessageType, m: Message)
    requires MessageOk(mt, m) && GoodType(mt) && Fits(mt, m, 0, false) && |Encoded(mt, m)| < TWO32
    ensures Decode(mt, Encoded(mt, m)).Ok? <==> Fits(mt, m, 0, true)
    ensures !Fits(mt, m, 0, true) ==> Decode(mt, Encoded(mt, m)) == Err(StringOverflow)
  {
    if Fits(mt, m, 0, true) {
      MessageRoundTrip(mt, m);
    } else {
      MessageFails(mt, m);
    }
  }

  /** The two programs one after the other. */
  method Transmit(mt: MessageType, m: Message) returns (s: ProtoEncode.Status, r: Result<Message>)
    requires MessageOk(mt, m) && GoodType(mt) && |Encoded(mt, m)| < TWO32
    ensures s.Done? <==> Fits(mt, m, 0, false)
    ensures s.Done? ==> (r.Ok? <==> Fits(mt, m, 0, true))
    ensures s.Done? && r.Ok? ==> (SameMessage(mt, m, r.value) <==> ZerosSurvive(mt, m))
  {
    var bytes;
    s, bytes := ProtoEncode.EncodeToFit(mt, m);
    var stream := new ProtoDecode.IStream(bytes);
    r := ProtoDecode.DecodeMessage(stream, mt);
    if s.Done? { DecodesIffTerminated(mt, m); }
    if s.Done? && Fits(mt, m, 0, true) { RoundTripIff(mt, m); }
  }

  // ----- fields that the reader does not know -----

  lemma {:induction false} VarintSkipped(v: nat, rest: seq<Byte>)
    ensures SkipVarint(Varint(v) + rest) == Ok(rest)
  {
    var input := Varint(v) + rest;
    if v < 128 {
      assert input[1..] == rest;
    } else {
      assert input[1..] == Varint(v / 128) + rest;
      VarintSkipped(v / 128, rest);
    }
  }

  lemma ScalarSkipped(s: Scalar, v: Value, rest: seq<Byte>)
    requires ScalarOk(s, v)
    ensures Skip(WireType(Type.Scalar(s)), EncScalar(s, v) + rest) == Ok(rest)
  {
    match s
    case Fixed32 => assert (Little(v.i, 4) + rest)[4..] == rest;
    case Fixed64 => assert (Little(v.i, 8) + rest)[8..] == rest;
    case Bool => VarintSkipped(if v.b then 1 else 0, rest);
    case Signed(w) => VarintSkipped(ToUnsigned64(v.i), rest);
    case Unsigned(w) => VarintSkipped(v.i, rest);
    case Zigzagged(w) => VarintSkipped(Zigzag(v.i), rest);
  }

  lemma DelimitedSkipped(b: seq<Byte>, rest: seq<Byte>)
    requires |b| < TWO32
    ensures Skip(2, Delimited(b) + rest) == Ok(rest)
  {
    DelimitedTaken(b, rest, EndOfStream);
  }

  lemma ValueSkipped(t: Type, v: Value, rest: seq<Byte>)
    requires ValueOk(t, v) && |EncValue(t, v)| < TWO32
    ensures Skip(WireType(t), EncValue(t, v) + rest) == Ok(rest)
  {
    match t
    case Scalar(s) => ScalarSkipped(s, v, rest);
    case Submessage(mt) => DelimitedSkipped(EncFrom(mt, v.m, 0), rest);
    case _ => DelimitedSkipped(v.s, rest);
  }

  ghost predicate Unknown(mt: MessageType, tag: nat) {
    0 < tag < 0x2000_0000 && forall i | 0 <= i < |mt.fields| :: mt.fields[i].tag != tag
  }

  lemma UnknownField(mt: MessageType, key: nat, input: seq<Byte>, rest: seq<Byte>, p: Progress)
    requires ProgressOk(mt, p) && Unknown(mt, key / 8) && Skip(key % 8, input) == Ok(rest)
    ensures DecField(mt, key, input, p) == Ok(Parsed(p, rest))
  {
  }

  lemma UnknownTurn(mt: MessageType, tag: nat, wireType: nat, body: seq<Byte>, rest: seq<Byte>, p: Progress)
    requires ProgressOk(mt, p) && Unknown(mt, tag) && wireType < 8 && Skip(wireType, body + rest) == Ok(rest)
    ensures DecLoop(mt, Key(tag, wireType) + body + rest, p) == DecLoop(mt, rest, p)
  {
    var key := 8 * tag + wireType;
    KeyParts(tag, wireType);
    UnknownField(mt, key, body + rest, rest, p);
    KeyTurn(mt, key, body + rest, p, rest, p);
    Assoc(Key(tag, wireType), body, rest);
  }

  lemma {:induction false} EachSkipped(mt: MessageType, f: Field, vs: seq<Value>, rest: seq<Byte>, p: Progress)
    requires ProgressOk(mt, p) && Unknown(mt, f.tag) && forall i | 0 <= i < |vs| :: ValueOk(f.t, vs[i])
    requires |EncEach(f, vs)| < TWO32
    ensures DecLoop(mt, EncEach(f, vs) + rest, p) == DecLoop(mt, rest, p)
    decreases |vs|
  {
    if vs == [] {
      assert EncEach(f, vs) + rest == rest;
    } else {
      assert vs[0..] == vs;
      EachSplit(f, vs, 0, rest);
      var rest' := EncEach(f, vs[1..]) + rest;
      ValueSkipped(f.t, vs[0], rest');
      UnknownTurn(mt, f.tag, WireType(f.t), EncValue(f.t, vs[0]), rest', p);
      EachSkipped(mt, f, vs[1..], rest, p);
    }
  }

  lemma SlotSkipped(mt: MessageType, f: Field, slot: Slot, rest: seq<Byte>, p: Progress)
    requires ProgressOk(mt, p) && Unknown(mt, f.tag) && SlotOk(f, slot) && |EncSlot(f, slot)| < TWO32
    ensures DecLoop(mt, EncSlot(f, slot) + rest, p) == DecLoop(mt, rest, p)
  {
    if EncSlot(f, slot) == [] {
      assert EncSlot(f, slot) + rest == rest;
    } else if !f.rule.Repeated? {
      ValueSkipped(f.t, slot.v, rest);
      UnknownTurn(mt, f.tag, WireType(f.t), EncValue(f.t, slot.v), rest, p);
    } else if f.t.Scalar? {
      var items := EncItems(f.t.s, slot.vs);
      DelimitedSkipped(items, rest);
      UnknownTurn(mt, f.tag, 2, Delimited(items), rest, p);
    } else {
      EachSkipped(mt, f, slot.vs, rest, p);
    }
  }

  lemma {:induction false} RestSkipped(mt: MessageType, newer: MessageType, m: Message, k: nat, p: Progress)
    requires ProgressOk(mt, p) && MessageOk(newer, m) && k <= |newer.fields| && |EncFrom(newer, m, k)| < TWO32
    requires forall i | k <= i < |newer.fields| :: Unknown(mt, newer.fields[i].tag)
    ensures DecLoop(mt, EncFrom(newer, m, k), p) == Ok(p)
    decreases |newer.fields| - k
  {
    if k < |newer.fields| {
      EncStep(newer, m, k, []);
      SlotSkipped(mt, newer.fields[k], m.slots[k], EncFrom(newer, m, k + 1), p);
      RestSkipped(mt, newer, m, k + 1, p);
    }
  }

  lemma {:induction false} EncExtended(mt: MessageType, newer: MessageType, m: Message, k: nat)
    requires MessageOk(newer, m) && |mt.fields| <= |newer.fields| && newer.fields[..|mt.fields|] == mt.fields
    requires k <= |mt.fields|
    ensures var known := Message(m.slots[..|mt.fields|]);
            && MessageOk(mt, known)
            && EncFrom(newer, m, k) == EncFrom(mt, known, k) + EncFrom(newer, m, |mt.fields|)
    decreases |mt.fields| - k
  {
    var known := Message(m.slots[..|mt.fields|]);
    assert MessageOk(mt, known) by { KnownPart(mt, newer, m); }
    if k == |mt.fields| {
      assert [] + EncFrom(newer, m, k) == EncFrom(newer, m, k);
    } else {
      EncExtended(mt, newer, m, k + 1);
      EncStep(newer, m, k, []);
      EncStep(mt, known, k, EncFrom(newer, m, |mt.fields|));
      assert newer.fields[k] == mt.fields[k];
    }
  }

  lemma KnownPart(mt: MessageType, newer: MessageType, m: Message)
    requires MessageOk(newer, m) && |mt.fields| <= |newer.fields| && newer.fields[..|mt.fields|] == mt.fields
    ensures MessageOk(mt, Message(m.slots[..|mt.fields|]))
  {
    var known := Message(m.slots[..|mt.fields|]);
    forall i | 0 <= i < |mt.fields| ensures SlotOk(mt.fields[i], known.slots[i]) {
      assert mt.fields[i] == newer.fields[i];
      assert SlotOk(newer.fields[i], m.slots[i]);
    }
    forall i, j | 0 <= i < j < |mt.fields| && SameUnion(mt.fields[i], mt.fields[j])
      ensures !(Has(known.slots[i]) && Has(known.slots[j]))
    {
      assert SameUnion(newer.fields[i], newer.fields[j]);
    }
  }

  /** A reader compiled before fields were added gets the fields it knows, and skips the others. */
  lemma OldReaderSkipsNewFields(mt: MessageType, newer: MessageType, m: Message)
    requires |mt.fields| <= |newer.fields| && newer.fields[..|mt.fields|] == mt.fields && GoodType(newer)
             && GoodType(mt)
    requires MessageOk(newer, m) && |Encoded(newer, m)| < TWO32
    requires MessageOk(mt, Message(m.slots[..|mt.fields|])) && Fits(mt, Message(m.slots[..|mt.fields|]), 0, true)
    ensures var r := Decode(mt, Encoded(newer, m));
            && r.Ok? && ArrivedMessage(mt, Message(m.slots[..|mt.fields|]), r.value)
            && (SameMessage(mt, Message(m.slots[..|mt.fields|]), r.value)
                <==> ZerosSurvive(mt, Message(m.slots[..|mt.fields|])))
  {
    var n, known := |mt.fields|, Message(m.slots[..|mt.fields|]);
    EncExtended(mt, newer, m, 0);
    var tail := EncFrom(newer, m, n);
    var q := LoopRoundTrip(mt, known, 0, Progress(Defaults(mt), 0, {}), tail);
    forall i | n <= i < |newer.fields| ensures Unknown(mt, newer.fields[i].tag) {
      assert GoodField(newer.fields[i]);
      forall j | 0 <= j < n ensures mt.fields[j].tag != newer.fields[i].tag { assert mt.fields[j] == newer.fields[j]; }
    }
    RestSkipped(mt, newer, m, n, q);
    ArrivedMessageIff(mt, known, Message(q.slots));
  }
}
