/** VersionEdit::EncodeTo and DecodeFrom (db/version_edit.cc): tagged fields in any number and order. */
module EditCodec {
  import opened Options
  import opened Bytes
  import opened Varints
  import opened Coding
  import opened Manifests

  const COMPARATOR: nat := 1
  const LOG_NUMBER: nat := 2
  const NEXT_FILE: nat := 3
  const LAST_SEQUENCE: nat := 4
  const COMPACT_KEY: nat := 5
  const DELETED_FILE: nat := 6
  const NEW_FILE: nat := 7
  const PREV_LOG: nat := 9

  datatype Pointer = Pointer(level: nat, key: Text)
  datatype Deletion = Deletion(level: nat, number: nat)
  datatype Addition = Addition(level: nat, file: Meta)

  datatype VersionEdit = VersionEdit(comparator: Option<Text>, logNumber: Option<nat>, prevLog: Option<nat>,
                                     nextFile: Option<nat>, lastSequence: Option<nat>, pointers: seq<Pointer>,
                                     deleted: set<Deletion>, added: seq<Addition>)

  /** One tagged field. */
  datatype Item =
    | Comparator(name: Text) | LogNumber(n: nat) | PrevLog(n: nat) | NextFile(n: nat) | LastSequence(n: nat)
    | Point(p: Pointer) | Delete(d: Deletion) | Add(a: Addition)

  // ----- writing -----

  function TagOf(i: Item): (t: nat)
    ensures t < 128
  {
    match i
    case Comparator(_) => COMPARATOR
    case LogNumber(_) => LOG_NUMBER
    case PrevLog(_) => PREV_LOG
    case NextFile(_) => NEXT_FILE
    case LastSequence(_) => LAST_SEQUENCE
    case Point(_) => COMPACT_KEY
    case Delete(_) => DELETED_FILE
    case Add(_) => NEW_FILE
  }

  function Body(i: Item): Text {
    match i
    case Comparator(name) => Prefixed(name)
    case LogNumber(n) => Varint(n)
    case PrevLog(n) => Varint(n)
    case NextFile(n) => Varint(n)
    case LastSequence(n) => Varint(n)
    case Point(p) => Varint(p.level) + Prefixed(p.key)
    case Delete(d) => Varint(d.level) + Varint(d.number)
    case Add(a) =>
      Varint(a.level) + (Varint(a.file.number)
          + (Varint(a.file.size) + (Prefixed(a.file.smallest) + Prefixed(a.file.largest))))
  }

  function Write(items: seq<Item>): Text {
    if items == [] then [] else Varint(TagOf(items[0])) + (Body(items[0]) + Write(items[1..]))
  }

  /** The field with one of the four tags that carry a number. */
  function NumberItem(tag: nat, n: nat): Item {
    if tag == LOG_NUMBER then LogNumber(n) else if tag == PREV_LOG then PrevLog(n)
    else if tag == NEXT_FILE then NextFile(n) else LastSequence(n)
  }

  function Number(tag: nat, o: Option<nat>): seq<Item> {
    if o.Some? then [NumberItem(tag, o.value)] else []
  }

  function Singles(e: VersionEdit): seq<Item> {
    (if e.comparator.Some? then [Comparator(e.comparator.value)] else [])
    + (Number(LOG_NUMBER, e.logNumber) + (Number(PREV_LOG, e.prevLog)
       + (Number(NEXT_FILE, e.nextFile) + Number(LAST_SEQUENCE, e.lastSequence))))
  }

  /** The fields of an edit in the order of EncodeTo; `order` lists the deletions as the set's iterator does. */
  function Items(e: VersionEdit, order: seq<Deletion>): seq<Item> {
    Singles(e) + (Points(e.pointers) + (Deletes(order) + Adds(e.added)))
  }

  function Points(ps: seq<Pointer>): (r: seq<Item>)
    ensures |r| == |ps| && forall i | 0 <= i < |ps| :: r[i] == Point(ps[i])
  {
    seq(|ps|, i requires 0 <= i < |ps| => Point(ps[i]))
  }

  function Deletes(ds: seq<Deletion>): (r: seq<Item>)
    ensures |r| == |ds| && forall i | 0 <= i < |ds| :: r[i] == Delete(ds[i])
  {
    seq(|ds|, i requires 0 <= i < |ds| => Delete(ds[i]))
  }

  function Adds(fs: seq<Addition>): (r: seq<Item>)
    ensures |r| == |fs| && forall i | 0 <= i < |fs| :: r[i] == Add(fs[i])
  {
    seq(|fs|, i requires 0 <= i < |fs| => Add(fs[i]))
  }

  // ----- reading -----

  function GetNumber(input: Text): (r: Option<Parsed<nat>>)
    ensures r.Some? ==> |r.value.rest| < |input|
  {
    match ReadLoop(PlainLoop(TWO64, 64), input, 0, 0)
    case Got(v, rest) => Some(Parsed(v, rest))
    case _ => None
  }

  function GetLevel(input: Text): (r: Option<Parsed<nat>>)
    ensures r.Some? ==> |r.value.rest| < |input|
  {
    match GetVarint32(input)
    case Got(v, rest) => if v < LEVELS then Some(Parsed(v, rest)) else None
    case _ => None
  }

  function GetPoint(input: Text): (r: Option<Parsed<Item>>)
    ensures r.Some? ==> |r.value.rest| < |input|
  {
    match GetLevel(input)
    case None => None
    case Some(level) =>
      match GetPrefixed(level.rest)
      case None => None
      case Some(key) => Some(Parsed(Point(Pointer(level.value, key.value)), key.rest))
  }

  function GetDelete(input: Text): (r: Option<Parsed<Item>>)
    ensures r.Some? ==> |r.value.rest| < |input|
  {
    match GetLevel(input)
    case None => None
    case Some(level) =>
      match GetNumber(level.rest)
      case None => None
      case Some(n) => Some(Parsed(Delete(Deletion(level.value, n.value)), n.rest))
  }

  function GetFile(input: Text): (r: Option<Parsed<Meta>>)
    ensures r.Some? ==> |r.value.rest| < |input|
  {
    match GetNumber(input)
    case None => None
    case Some(number) =>
      match GetNumber(number.rest)
      case None => None
      case Some(size) =>
        match GetPrefixed(size.rest)
        case None => None
        case Some(smallest) =>
          match GetPrefixed(smallest.rest)
          case None => None
          case Some(largest) => 
            Some(Parsed(Meta(number.value, size.value, smallest.value, largest.value), largest.rest))
  }

  function GetAdd(input: Text): (r: Option<Parsed<Item>>)
    ensures r.Some? ==> |r.value.rest| < |input|
  {
    match GetLevel(input)
    case None => None
    case Some(level) =>
      match GetFile(level.rest)
      case None => None
      case Some(f) => Some(Parsed(Add(Addition(level.value, f.value)), f.rest))
  }

  /** The field after its tag; an unknown tag is an error. */
  function GetItem(tag: nat, input: Text): (r: Option<Parsed<Item>>)
    ensures r.Some? ==> |r.value.rest| < |input|
  {
    if tag == COMPARATOR then
      match GetPrefixed(input)
      case Some(p) => Some(Parsed(Comparator(p.value), p.rest))
      case None => None
    else if tag in {LOG_NUMBER, PREV_LOG, NEXT_FILE, LAST_SEQUENCE} then
      match GetNumber(input)
      case Some(p) => Some(Parsed(NumberItem(tag, p.value), p.rest))
      case None => None
    else if tag == COMPACT_KEY then GetPoint(input)
    else if tag == DELETED_FILE then GetDelete(input)
    else if tag == NEW_FILE then GetAdd(input)
    else None
  }

  /** What a field does to the edit: the last of a single field counts, lists grow. */
  function Put(e: VersionEdit, i: Item): VersionEdit {
    match i
    case Comparator(name) => e.(comparator := Some(name))
    case LogNumber(n) => e.(logNumber := Some(n))
    case PrevLog(n) => e.(prevLog := Some(n))
    case NextFile(n) => e.(nextFile := Some(n))
    case LastSequence(n) => e.(lastSequence := Some(n))
    case Point(p) => e.(pointers := e.pointers + [p])
    case Delete(d) => e.(deleted := e.deleted + {d})
    case Add(a) => e.(added := e.added + [a])
  }

  const BLANK: VersionEdit := VersionEdit(None, None, None, None, None, [], {}, [])

  function ReadFrom(input: Text, e: VersionEdit): Option<VersionEdit>
    decreases |input|
  {
    match GetVarint32(input)
    case Got(tag, rest) =>
      (match GetItem(tag, rest)
       case Some(p) => ReadFrom(p.rest, Put(e, p.value))
       case None => None)
    case _ => if input == [] then Some(e) else None
  }

  /** DecodeFrom. */
  method DecodeFrom(src: Text) returns (r: Option<VersionEdit>)
    ensures r == ReadFrom(src, BLANK)
  {
    var input, e := src, BLANK;
    while true
      invariant ReadFrom(input, e) == ReadFrom(src, BLANK)
      decreases |input|
    {
      var tag := GetVarint32(input);
      if !tag.Got? {
        return if input == [] then Some(e) else None;
      }
      var item := GetItem(tag.value, tag.rest);
      if item.None? {
        return None;
      }
      input, e := item.value.rest, Put(e, item.value.value);
    }
  }

  // ----- the round trip -----

  /** What C++ types guarantee of an edit. */
  ghost predicate Fits(i: Item) {
    match i
    case Comparator(name) => |name| < TWO32
    case LogNumber(n) => n < TWO64
    case PrevLog(n) => n < TWO64
    case NextFile(n) => n < TWO64
    case LastSequence(n) => n < TWO64
    case Point(p) => p.level < LEVELS && |p.key| < TWO32
    case Delete(d) => d.level < LEVELS && d.number < TWO64
    case Add(a) => a.level < LEVELS && a.file.number < TWO64 && a.file.size < TWO64 && |a.file.smallest| < TWO32
                   && |a.file.largest| < TWO32
  }

  lemma NumberRead(n: nat, rest: Text)
    requires n < TWO64
    ensures GetNumber(Varint(n) + rest) == Some(Parsed(n, rest))
  {
    WordSizes();
    PlainRoundTrip(TWO64, 64, n, rest);
  }

  lemma LevelRead(n: nat, rest: Text)
    requires n < LEVELS
    ensures GetLevel(Varint(n) + rest) == Some(Parsed(n, rest))
  {
    Varint32RoundTrip(n, rest);
  }

  lemma FileRead(f: Meta, rest: Text)
    requires f.number < TWO64 && f.size < TWO64 && |f.smallest| < TWO32 && |f.largest| < TWO32
    ensures GetFile(Varint(f.number) + (Varint(f.size) + (Prefixed(f.smallest) + Prefixed(f.largest))) + rest)
            == Some(Parsed(f, rest))
  {
    var a, b, c, d := Varint(f.number), Varint(f.size), Prefixed(f.smallest), Prefixed(f.largest);
    Assoc(a, b + (c + d), rest);
    Assoc(b, c + d, rest);
    Assoc(c, d, rest);
    NumberRead(f.number, b + (c + (d + rest)));
    NumberRead(f.size, c + (d + rest));
    PrefixedRead(f.smallest, d + rest);
    PrefixedRead(f.largest, rest);
  }

  lemma PointRead(p: Pointer, rest: Text)
    requires p.level < LEVELS && |p.key| < TWO32
    ensures GetPoint(Varint(p.level) + Prefixed(p.key) + rest) == Some(Parsed(Point(p), rest))
  {
    Assoc(Varint(p.level), Prefixed(p.key), rest);
    LevelRead(p.level, Prefixed(p.key) + rest);
    PrefixedRead(p.key, rest);
  }

  lemma DeleteRead(d: Deletion, rest: Text)
    requires d.level < LEVELS && d.number < TWO64
    ensures GetDelete(Varint(d.level) + Varint(d.number) + rest) == Some(Parsed(Delete(d), rest))
  {
    Assoc(Varint(d.level), Varint(d.number), rest);
    LevelRead(d.level, Varint(d.number) + rest);
    NumberRead(d.number, rest);
  }

  lemma AddRead(a: Addition, rest: Text)
    requires Fits(Add(a))
    ensures GetAdd(Body(Add(a)) + rest) == Some(Parsed(Add(a), rest))
  {
    var f := a.file;
    var file := Varint(f.number) + (Varint(f.size) + (Prefixed(f.smallest) + Prefixed(f.largest)));
    Assoc(Varint(a.level), file, rest);
    LevelRead(a.level, file + rest);
    FileRead(f, rest);
  }

  lemma ItemRead(i: Item, rest: Text)
    requires Fits(i)
    ensures GetItem(TagOf(i), Body(i) + rest) == Some(Parsed(i, rest))
  {
    match i
    case Comparator(name) => PrefixedRead(name, rest);
    case LogNumber(n) => NumberRead(n, rest);
    case PrevLog(n) => NumberRead(n, rest);
    case NextFile(n) => NumberRead(n, rest);
    case LastSequence(n) => NumberRead(n, rest);
    case Point(p) => PointRead(p, rest);
    case Delete(d) => DeleteRead(d, rest);
    case Add(a) => AddRead(a, rest);
  }

  function PutAll(e: VersionEdit, items: seq<Item>): VersionEdit
    decreases |items|
  {
    if items == [] then e else PutAll(Put(e, items[0]), items[1..])
  }

  lemma {:induction false} ItemsRead(items: seq<Item>, e: VersionEdit)
    requires forall i | i in items :: Fits(i)
    ensures ReadFrom(Write(items), e) == Some(PutAll(e, items))
    decreases |items|
  {
    if items != [] {
      var i, rest := items[0], Write(items[1..]);
      Varint32RoundTrip(TagOf(i), Body(i) + rest);
      ItemRead(i, rest);
      ItemsRead(items[1..], Put(e, i));
    }
  }

  lemma {:induction false} PutAllAppend(e: VersionEdit, a: seq<Item>, b: seq<Item>)
    ensures PutAll(e, a + b) == PutAll(PutAll(e, a), b)
    decreases |a|
  {
    if a == [] {
      assert a + b == b;
    } else {
      assert (a + b)[1..] == a[1..] + b;
      PutAllAppend(Put(e, a[0]), a[1..], b);
    }
  }

  lemma {:induction false} PutPoints(e: VersionEdit, ps: seq<Pointer>)
    ensures PutAll(e, Points(ps)) == e.(pointers := e.pointers + ps)
    decreases |ps|
  {
    if ps == [] {
      assert e.pointers + ps == e.pointers;
    } else {
      assert Points(ps)[1..] == Points(ps[1..]);
      PutPoints(e.(pointers := e.pointers + [ps[0]]), ps[1..]);
      assert e.pointers + [ps[0]] + ps[1..] == e.pointers + ps;
    }
  }

  lemma {:induction false} PutDeletes(e: VersionEdit, ds: seq<Deletion>)
    ensures PutAll(e, Deletes(ds)) == e.(deleted := e.deleted + set d | d in ds)
    decreases |ds|
  {
    if ds == [] {
      assert e.deleted + (set d | d in ds) == e.deleted;
    } else {
      assert Deletes(ds)[1..] == Deletes(ds[1..]);
      PutDeletes(e.(deleted := e.deleted + {ds[0]}), ds[1..]);
      assert e.deleted + {ds[0]} + (set d | d in ds[1..]) == e.deleted + set d | d in ds;
    }
  }

  lemma {:induction false} PutAdds(e: VersionEdit, fs: seq<Addition>)
    ensures PutAll(e, Adds(fs)) == e.(added := e.added + fs)
    decreases |fs|
  {
    if fs == [] {
      assert e.added + fs == e.added;
    } else {
      assert Adds(fs)[1..] == Adds(fs[1..]);
      PutAdds(e.(added := e.added + [fs[0]]), fs[1..]);
      assert e.added + [fs[0]] + fs[1..] == e.added + fs;
    }
  }

  lemma PutOne(e: VersionEdit, i: Item)
    ensures PutAll(e, [i]) == Put(e, i) && PutAll(e, []) == e
  {
  }

  lemma PutNumber(e: VersionEdit, tag: nat, o: Option<nat>)
    ensures PutAll(e, Number(tag, o)) == if o.Some? then Put(e, NumberItem(tag, o.value)) else e
  {
    if o.Some? { PutOne(e, NumberItem(tag, o.value)); }
  }

  lemma PutSingles(e: VersionEdit)
    ensures PutAll(BLANK, Singles(e)) == e.(pointers := [], deleted := {}, added := [])
  {
    var c: seq<Item> := if e.comparator.Some? then [Comparator(e.comparator.value)] else [];
    var l, p, n, s := Number(LOG_NUMBER, e.logNumber), Number(PREV_LOG, e.prevLog), Number(NEXT_FILE, e.nextFile),
                      Number(LAST_SEQUENCE, e.lastSequence);
    var e1 := BLANK.(comparator := e.comparator);
    var e2 := e1.(logNumber := e.logNumber);
    var e3 := e2.(prevLog := e.prevLog);
    var e4 := e3.(nextFile := e.nextFile);
    PutAllAppend(BLANK, c, l + (p + (n + s)));
    if e.comparator.Some? { PutOne(BLANK, Comparator(e.comparator.value)); }
    assert PutAll(BLANK, c) == e1;
    PutAllAppend(e1, l, p + (n + s));
    PutNumber(e1, LOG_NUMBER, e.logNumber);
    PutAllAppend(e2, p, n + s);
    PutNumber(e2, PREV_LOG, e.prevLog);
    PutAllAppend(e3, n, s);
    PutNumber(e3, NEXT_FILE, e.nextFile);
    PutNumber(e4, LAST_SEQUENCE, e.lastSequence);
  }

  lemma PutLists(e: VersionEdit, ps: seq<Pointer>, ds: seq<Deletion>, fs: seq<Addition>)
    requires e.pointers == [] && e.deleted == {} && e.added == []
    ensures PutAll(e, Points(ps) + (Deletes(ds) + Adds(fs)))
            == e.(pointers := ps, deleted := (set d | d in ds), added := fs)
  {
    PutAllAppend(e, Points(ps), Deletes(ds) + Adds(fs));
    PutPoints(e, ps);
    assert [] + ps == ps && [] + fs == fs;
    var e1 := e.(pointers := ps);
    PutAllAppend(e1, Deletes(ds), Adds(fs));
    PutDeletes(e1, ds);
    assert {} + (set d | d in ds) == set d | d in ds;
    PutAdds(e1.(deleted := (set d | d in ds)), fs);
  }

  /** Decoding an encoded edit gives the edit back, whatever the order of its deletions. */
  lemma EditRoundTrip(e: VersionEdit, order: seq<Deletion>)
    requires (set d | d in order) == e.deleted && forall i | i in Items(e, order) :: Fits(i)
    ensures ReadFrom(Write(Items(e, order)), BLANK) == Some(e)
  {
    ItemsRead(Items(e, order), BLANK);
    var blank := e.(pointers := [], deleted := {}, added := []);
    PutAllAppend(BLANK, Singles(e), Points(e.pointers) + (Deletes(order) + Adds(e.added)));
    PutSingles(e);
    PutLists(blank, e.pointers, order, e.added);
  }

  // ----- records -----

  /** The bytes of an edit, in some order of its deletions. */
  ghost predicate Encodes(e: VersionEdit, record: Text) {
    exists order :: ListsDeletions(e, order) && record == Write(Items(e, order))
  }

  ghost predicate ListsDeletions(e: VersionEdit, order: seq<Deletion>) {
    (set d | d in order) == e.deleted
  }

  ghost predicate FitsEdit(e: VersionEdit) {
    match e
    case VersionEdit(_, _, _, _, _, pointers, deleted, added) =>
      && (forall i | i in Singles(e) :: Fits(i)) && (forall p | p in pointers :: Fits(Point(p)))
      && (forall d | d in deleted :: Fits(Delete(d))) && (forall a | a in added :: Fits(Add(a)))
  }

  predicate NumberFits(o: Option<nat>) {
    o.Some? ==> o.value < TWO64
  }

  lemma NumberItemFits(tag: nat, o: Option<nat>)
    requires tag in {LOG_NUMBER, PREV_LOG, NEXT_FILE, LAST_SEQUENCE}
    ensures (forall i | i in Number(tag, o) :: Fits(i)) <==> NumberFits(o)
  {
    if o.Some? { assert NumberItem(tag, o.value) in Number(tag, o); }
  }

  lemma SinglesFit(e: VersionEdit)
    ensures (forall i | i in Singles(e) :: Fits(i))
       <==> && (e.comparator.Some? ==> |e.comparator.value| < TWO32)
            && NumberFits(e.logNumber) && NumberFits(e.prevLog) && NumberFits(e.nextFile) && NumberFits(e.lastSequence)
  {
    var c: seq<Item> := if e.comparator.Some? then [Comparator(e.comparator.value)] else [];
    var l, p, n, s := Number(LOG_NUMBER, e.logNumber), Number(PREV_LOG, e.prevLog), Number(NEXT_FILE, e.nextFile),
                      Number(LAST_SEQUENCE, e.lastSequence);
    NumberItemFits(LOG_NUMBER, e.logNumber);
    NumberItemFits(PREV_LOG, e.prevLog);
    NumberItemFits(NEXT_FILE, e.nextFile);
    NumberItemFits(LAST_SEQUENCE, e.lastSequence);
    assert e.comparator.Some? ==> Comparator(e.comparator.value) in c;
    assert forall i :: i in Singles(e) <==> i in c || i in l || i in p || i in n || i in s;
  }

  lemma RecordReads(e: VersionEdit, record: Text)
    requires FitsEdit(e) && Encodes(e, record)
    ensures ReadFrom(record, BLANK) == Some(e)
  {
    var order :| ListsDeletions(e, order) && record == Write(Items(e, order));
    EditRoundTrip(e, order);
  }

  method ListDeletions(e: VersionEdit) returns (order: seq<Deletion>)
    ensures ListsDeletions(e, order)
  {
    order := [];
    var left := e.deleted;
    while left != {}
      invariant left <= e.deleted && (set d | d in order) == e.deleted - left
    {
      var d :| d in left;
      assert (set x | x in order + [d]) == (set x | x in order) + {d};
      order, left := order + [d], left - {d};
    }
  }

  /** EncodeTo. */
  method EncodeTo(e: VersionEdit) returns (record: Text)
    ensures Encodes(e, record)
  {
    var order := ListDeletions(e);
    record := Write(Items(e, order));
  }
}
