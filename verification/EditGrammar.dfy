/** Exactly which bytes VersionEdit::DecodeFrom accepts, and which edit it makes of them (db/version_edit.cc). */
module EditGrammar {
  import opened Options
  import opened Bytes
  import opened Varints
  import opened Coding
  import opened Manifests
  import opened Grammars
  import opened EditCodec

  // ----- the fields -----

  /** The number on the wire of each field. */
  function Tag(i: Item): nat {
    if i.Comparator? then 1 else if i.LogNumber? then 2 else if i.NextFile? then 3 else if i.LastSequence? then 4
    else if i.Point? then 5 else if i.Delete? then 6 else if i.Add? then 7 else 9
  }

  predicate IsLevel(b: Text, level: nat) {
    IsWord32(b, level) && level < 7
  }

  ghost predicate IsPoint(b: Text, p: Pointer) {
    exists l: Text, k: Text :: IsLevel(l, p.level) && IsString(k, p.key) && b == l + k
  }

  ghost predicate IsDeletion(b: Text, d: Deletion) {
    exists l: Text, n: Text :: IsLevel(l, d.level) && IsWord64(n, d.number) && b == l + n
  }

  ghost predicate IsFile(b: Text, f: Meta) {
    exists n: Text, z: Text, s: Text, t: Text ::
      IsWord64(n, f.number) && IsWord64(z, f.size) && IsString(s, f.smallest) && IsString(t, f.largest)
      && b == n + (z + (s + t))
  }

  ghost predicate IsAddition(b: Text, a: Addition) {
    exists l: Text, f: Text :: IsLevel(l, a.level) && IsFile(f, a.file) && b == l + f
  }

  ghost predicate IsBody(b: Text, i: Item) {
    if i.Comparator? then IsString(b, i.name)
    else if i.Point? then IsPoint(b, i.p)
    else if i.Delete? then IsDeletion(b, i.d)
    else if i.Add? then IsAddition(b, i.a)
    else IsWord64(b, i.n)
  }

  ghost predicate IsItem(b: Text, i: Item) {
    exists t: Text, body: Text :: IsWord32(t, Tag(i)) && IsBody(body, i) && b == t + body
  }

  ghost predicate AreItems(b: Text, items: seq<Item>)
    decreases |items|
  {
    if items == [] then b == []
    else exists i: Text, rest: Text :: IsItem(i, items[0]) && AreItems(rest, items[1..]) && b == i + rest
  }

  // ----- what the readers of the fields accept -----

  lemma LevelIff(input: Text, level: nat, rest: Text)
    ensures GetLevel(input) == Some(Parsed(level, rest)) <==> exists l: Text :: IsLevel(l, level) && input == l + rest
  {
    Word32Iff(input, level, rest);
    if GetLevel(input) == Some(Parsed(level, rest)) {
      var l: Text :| IsWord32(l, level) && input == l + rest;
      assert IsLevel(l, level);
    }
  }

  lemma NumberIff(input: Text, n: nat, rest: Text)
    ensures GetNumber(input) == Some(Parsed(n, rest)) <==> exists b: Text :: IsWord64(b, n) && input == b + rest
  {
    Word64Iff(input, n, rest);
  }

  lemma PointIff(input: Text, p: Pointer, rest: Text)
    ensures GetPoint(input) == Some(Parsed(Point(p), rest)) <==> exists b: Text :: IsPoint(b, p) && input == b + rest
  {
    if GetPoint(input) == Some(Parsed(Point(p), rest)) {
      var more := GetLevel(input).value.rest;
      LevelIff(input, p.level, more);
      StringIff(more, p.key, rest);
      var l: Text :| IsLevel(l, p.level) && input == l + more;
      var k: Text :| IsString(k, p.key) && more == k + rest;
      Assoc(l, k, rest);
      assert IsPoint(l + k, p);
    }
    forall b: Text | IsPoint(b, p) && input == b + rest ensures GetPoint(input) == Some(Parsed(Point(p), rest)) {
      var l: Text, k: Text :| IsLevel(l, p.level) && IsString(k, p.key) && b == l + k;
      Assoc(l, k, rest);
      LevelIff(input, p.level, k + rest);
      StringIff(k + rest, p.key, rest);
    }
  }

  lemma DeletionIff(input: Text, d: Deletion, rest: Text)
    ensures GetDelete(input) == Some(Parsed(Delete(d), rest))
       <==> exists b: Text :: IsDeletion(b, d) && input == b + rest
  {
    if GetDelete(input) == Some(Parsed(Delete(d), rest)) {
      var more := GetLevel(input).value.rest;
      LevelIff(input, d.level, more);
      NumberIff(more, d.number, rest);
      var l: Text :| IsLevel(l, d.level) && input == l + more;
      var n: Text :| IsWord64(n, d.number) && more == n + rest;
      Assoc(l, n, rest);
      assert IsDeletion(l + n, d);
    }
    forall b: Text | IsDeletion(b, d) && input == b + rest
      ensures GetDelete(input) == Some(Parsed(Delete(d), rest))
    {
      var l: Text, n: Text :| IsLevel(l, d.level) && IsWord64(n, d.number) && b == l + n;
      Assoc(l, n, rest);
      LevelIff(input, d.level, n + rest);
      NumberIff(n + rest, d.number, rest);
    }
  }

  lemma Four(n: Text, z: Text, s: Text, t: Text, rest: Text)
    ensures n + (z + (s + t)) + rest == n + (z + (s + (t + rest)))
  {
    Assoc(n, z + (s + t), rest);
    Assoc(z, s + t, rest);
    Assoc(s, t, rest);
  }

  lemma FileIsRead(input: Text, f: Meta, rest: Text) returns (b: Text)
    requires GetFile(input) == Some(Parsed(f, rest))
    ensures IsFile(b, f) && input == b + rest
  {
    var r1 := GetNumber(input).value.rest;
    var r2 := GetNumber(r1).value.rest;
    var r3 := GetPrefixed(r2).value.rest;
    NumberIff(input, f.number, r1);
    NumberIff(r1, f.size, r2);
    StringIff(r2, f.smallest, r3);
    StringIff(r3, f.largest, rest);
    var n: Text :| IsWord64(n, f.number) && input == n + r1;
    var z: Text :| IsWord64(z, f.size) && r1 == z + r2;
    var s: Text :| IsString(s, f.smallest) && r2 == s + r3;
    var t: Text :| IsString(t, f.largest) && r3 == t + rest;
    b := n + (z + (s + t));
    Four(n, z, s, t, rest);
  }

  lemma ReadsFile(b: Text, f: Meta, rest: Text)
    requires IsFile(b, f)
    ensures GetFile(b + rest) == Some(Parsed(f, rest))
  {
    var n: Text, z: Text, s: Text, t: Text :|
      IsWord64(n, f.number) && IsWord64(z, f.size) && IsString(s, f.smallest) && IsString(t, f.largest)
      && b == n + (z + (s + t));
    Four(n, z, s, t, rest);
    NumberIff(n + (z + (s + (t + rest))), f.number, z + (s + (t + rest)));
    NumberIff(z + (s + (t + rest)), f.size, s + (t + rest));
    StringIff(s + (t + rest), f.smallest, t + rest);
    StringIff(t + rest, f.largest, rest);
  }

  lemma AdditionIff(input: Text, a: Addition, rest: Text)
    ensures GetAdd(input) == Some(Parsed(Add(a), rest)) <==> exists b: Text :: IsAddition(b, a) && input == b + rest
  {
    if GetAdd(input) == Some(Parsed(Add(a), rest)) {
      var more := GetLevel(input).value.rest;
      LevelIff(input, a.level, more);
      var l: Text :| IsLevel(l, a.level) && input == l + more;
      var f := FileIsRead(more, a.file, rest);
      Assoc(l, f, rest);
      assert IsAddition(l + f, a);
    }
    forall b: Text | IsAddition(b, a) && input == b + rest ensures GetAdd(input) == Some(Parsed(Add(a), rest)) {
      var l: Text, f: Text :| IsLevel(l, a.level) && IsFile(f, a.file) && b == l + f;
      Assoc(l, f, rest);
      LevelIff(input, a.level, f + rest);
      ReadsFile(f, a.file, rest);
    }
  }

  /** Behind its tag a field is read as what it is, and nothing else is read behind that tag. */
  lemma BodyIff(tag: nat, input: Text, i: Item, rest: Text)
    ensures GetItem(tag, input) == Some(Parsed(i, rest))
       <==> tag == Tag(i) && exists b: Text :: IsBody(b, i) && input == b + rest
  {
    if i.Comparator? {
      StringIff(input, i.name, rest);
    } else if i.Point? {
      PointIff(input, i.p, rest);
    } else if i.Delete? {
      DeletionIff(input, i.d, rest);
    } else if i.Add? {
      AdditionIff(input, i.a, rest);
    } else {
      NumberIff(input, i.n, rest);
    }
    if GetItem(tag, input) == Some(Parsed(i, rest)) { TagTells(tag, input); }
  }

  lemma TagTells(tag: nat, input: Text)
    requires GetItem(tag, input).Some?
    ensures tag == Tag(GetItem(tag, input).value.value)
  {
  }

  // ----- what an edit is of its fields -----

  /** The last value that some field has. */
  function Latest<T>(items: seq<Item>, pick: Item -> Option<T>): Option<T> {
    if items == [] then None
    else if pick(items[|items| - 1]).Some? then pick(items[|items| - 1])
    else Latest(items[..|items| - 1], pick)
  }

  /** All values, in order. */
  function Picked<T>(items: seq<Item>, pick: Item -> Option<T>): seq<T> {
    if items == [] then []
    else
      var front := Picked(items[..|items| - 1], pick);
      match pick(items[|items| - 1])
      case Some(v) => front + [v]
      case None => front
  }

  function Name(i: Item): Option<Text> {
    if i.Comparator? then Some(i.name) else None
  }

  function NumberOf(tag: nat): Item -> Option<nat> {
    (i: Item) => if Tag(i) != tag then None
                 else if i.LogNumber? || i.PrevLog? || i.NextFile? || i.LastSequence? then Some(i.n) else None
  }

  function PointOf(i: Item): Option<Pointer> {
    if i.Point? then Some(i.p) else None
  }

  function DeletionOf(i: Item): Option<Deletion> {
    if i.Delete? then Some(i.d) else None
  }

  function AdditionOf(i: Item): Option<Addition> {
    if i.Add? then Some(i.a) else None
  }

  /** The last of each single field counts; pointers and new files are listed in order, deletions collected. */
  ghost function EditOf(items: seq<Item>): VersionEdit {
    VersionEdit(Latest(items, Name), Latest(items, NumberOf(2)), Latest(items, NumberOf(9)),
                Latest(items, NumberOf(3)), Latest(items, NumberOf(4)), Picked(items, PointOf),
                (set d | d in Picked(items, DeletionOf)), Picked(items, AdditionOf))
  }

  lemma OneFieldMore(items: seq<Item>, i: Item)
    ensures EditOf(items + [i]) == Put(EditOf(items), i)
  {
    assert (items + [i])[..|items|] == items;
  }

  lemma {:induction false} FieldsAreEdit(items: seq<Item>)
    ensures PutAll(BLANK, items) == EditOf(items)
    decreases |items|
  {
    if items != [] {
      var front, i := items[..|items| - 1], items[|items| - 1];
      assert items == front + [i];
      PutAllAppend(BLANK, front, [i]);
      PutOne(PutAll(BLANK, front), i);
      FieldsAreEdit(front);
      OneFieldMore(front, i);
    }
  }

  // ----- the loop -----

  /** A turn of the loop reads the field i and leaves the rest. */
  predicate Turn(input: Text, i: Item, rest: Text) {
    var t := GetVarint32(input);
    t.Got? && GetItem(t.value, t.rest) == Some(Parsed(i, rest))
  }

  lemma TurnIff(input: Text, i: Item, rest: Text)
    ensures Turn(input, i, rest) <==> exists b: Text :: IsItem(b, i) && input == b + rest
  {
    if Turn(input, i, rest) {
      var t := GetVarint32(input);
      Word32Iff(input, t.value, t.rest);
      BodyIff(t.value, t.rest, i, rest);
      var tag: Text :| IsWord32(tag, t.value) && input == tag + t.rest;
      var body: Text :| IsBody(body, i) && t.rest == body + rest;
      Assoc(tag, body, rest);
      assert IsItem(tag + body, i);
    }
    forall b: Text | IsItem(b, i) && input == b + rest ensures Turn(input, i, rest) {
      var t: Text, body: Text :| IsWord32(t, Tag(i)) && IsBody(body, i) && b == t + body;
      Assoc(t, body, rest);
      Word32Iff(input, Tag(i), body + rest);
      BodyIff(Tag(i), body + rest, i, rest);
    }
  }

  lemma TurnGoesOn(input: Text, e: VersionEdit, i: Item, rest: Text)
    requires Turn(input, i, rest)
    ensures ReadFrom(input, e) == ReadFrom(rest, Put(e, i)) && |rest| < |input|
  {
  }

  /** Without another field only the end of the input is good. */
  lemma LastTurn(input: Text, e: VersionEdit)
    requires ReadFrom(input, e).Some? && input != []
    ensures exists i, rest :: Turn(input, i, rest)
  {
    var t := GetVarint32(input);
    assert t.Got? && GetItem(t.value, t.rest).Some?;
    var p := GetItem(t.value, t.rest).value;
    assert Turn(input, p.value, p.rest);
  }

  lemma {:induction false} FieldsTaken(input: Text, e: VersionEdit) returns (items: seq<Item>)
    requires ReadFrom(input, e).Some?
    ensures AreItems(input, items) && ReadFrom(input, e) == Some(PutAll(e, items))
    decreases |input|
  {
    items := [];
    if input == [] {
      assert !GetVarint32(input).Got?;
    } else {
      LastTurn(input, e);
      var i: Item, rest: Text :| Turn(input, i, rest);
      TurnGoesOn(input, e, i, rest);
      TurnIff(input, i, rest);
      var b: Text :| IsItem(b, i) && input == b + rest;
      var more := FieldsTaken(rest, Put(e, i));
      items := [i] + more;
      assert items[1..] == more;
    }
  }

  lemma {:induction false} TakesFields(input: Text, items: seq<Item>, e: VersionEdit)
    requires AreItems(input, items)
    ensures ReadFrom(input, e) == Some(PutAll(e, items))
    decreases |items|
  {
    if items == [] {
      assert !GetVarint32(input).Got?;
    } else {
      var b: Text, rest: Text :| IsItem(b, items[0]) && AreItems(rest, items[1..]) && input == b + rest;
      TurnIff(input, items[0], rest);
      TurnGoesOn(input, e, items[0], rest);
      TakesFields(rest, items[1..], Put(e, items[0]));
    }
  }

  /** DecodeFrom accepts exactly the sequences of fields, in any order and any number, and makes of them the edit that
      they are.  Anything else is an error: an unknown tag, a field cut short, a level out of range. */
  lemma EditIff(src: Text, e: VersionEdit)
    ensures ReadFrom(src, BLANK) == Some(e) <==> exists items :: AreItems(src, items) && e == EditOf(items)
  {
    if ReadFrom(src, BLANK) == Some(e) {
      var items := FieldsTaken(src, BLANK);
      FieldsAreEdit(items);
    }
    forall items | AreItems(src, items) && e == EditOf(items) ensures ReadFrom(src, BLANK) == Some(e) {
      TakesFields(src, items, BLANK);
      FieldsAreEdit(items);
    }
  }
}
