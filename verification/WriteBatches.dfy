/** WriteBatch (db/write_batch.cc): a sequence number, a count and the updates, all in one string of bytes. */
module WriteBatches {
  import opened Options
  import opened Bytes
  import opened Varints
  import opened Coding

  datatype Update = Put(key: Text, value: Text) | Delete(key: Text)

  const HEADER: nat := 12
  const LONG: nat := 8
  const WORD: nat := 4
  const TYPE_DELETION: Byte := 0
  const TYPE_VALUE: Byte := 1

  ghost predicate Fits(u: Update) {
    |u.key| < TWO32 && (u.Put? ==> |u.value| < TWO32)
  }

  // ----- records -----

  function Record(u: Update): Text {
    match u
    case Put(key, value) => [TYPE_VALUE] + (Prefixed(key) + Prefixed(value))
    case Delete(key) => [TYPE_DELETION] + Prefixed(key)
  }

  function Records(us: seq<Update>): Text {
    if us == [] then [] else Record(us[0]) + Records(us[1..])
  }

  lemma {:induction false} RecordsAppend(a: seq<Update>, b: seq<Update>)
    ensures Records(a + b) == Records(a) + Records(b)
    decreases |a|
  {
    if a == [] {
      assert a + b == b;
    } else {
      assert (a + b)[1..] == a[1..] + b;
      RecordsAppend(a[1..], b);
      Assoc(Record(a[0]), Records(a[1..]), Records(b));
    }
  }

  /** One record; an unknown type or a string that runs past the end is an error. */
  function GetRecord(input: Text): (r: Option<Parsed<Update>>) {
    if input == [] then None
    else if input[0] == TYPE_VALUE then GetPut(input[1..])
    else if input[0] == TYPE_DELETION then GetDelete(input[1..])
    else None
  }

  function GetPut(input: Text): Option<Parsed<Update>> {
    match GetPrefixed(input)
    case None => None
    case Some(key) =>
      match GetPrefixed(key.rest)
      case None => None
      case Some(value) => Some(Parsed(Put(key.value, value.value), value.rest))
  }

  function GetDelete(input: Text): Option<Parsed<Update>> {
    match GetPrefixed(input)
    case None => None
    case Some(key) => Some(Parsed(Delete(key.value), key.rest))
  }

  type Parser = Text -> Option<Parsed<Update>>

  /** The loop over records, each read by `parse`. */
  function ReadRecords(parse: Parser, input: Text, before: seq<Update>): Option<seq<Update>>
    decreases |input|
  {
    if input == [] then Some(before)
    else
      match parse(input)
      case None => None
      case Some(p) => if |p.rest| >= |input| then None else ReadRecords(parse, p.rest, before + [p.value])
  }

  /** What the handler is given: the updates before the first record that is bad. */
  function Handled(parse: Parser, input: Text, before: seq<Update>): seq<Update>
    decreases |input|
  {
    if input == [] then before
    else
      match parse(input)
      case None => before
      case Some(p) => if |p.rest| >= |input| then before else Handled(parse, p.rest, before + [p.value])
  }

  lemma {:induction false} AllHandled(parse: Parser, input: Text, before: seq<Update>)
    requires ReadRecords(parse, input, before).Some?
    ensures ReadRecords(parse, input, before) == Some(Handled(parse, input, before))
    decreases |input|
  {
    if input != [] {
      var p := parse(input).value;
      AllHandled(parse, p.rest, before + [p.value]);
    }
  }

  lemma GetRecordShrinks(input: Text)
    ensures GetRecord(input).Some? ==> |GetRecord(input).value.rest| < |input|
  {
  }

  lemma PutRead(key: Text, value: Text, rest: Text)
    requires |key| < TWO32 && |value| < TWO32
    ensures GetPut(Prefixed(key) + Prefixed(value) + rest) == Some(Parsed(Put(key, value), rest))
  {
    Assoc(Prefixed(key), Prefixed(value), rest);
    PrefixedRead(key, Prefixed(value) + rest);
    PrefixedRead(value, rest);
  }

  lemma DeleteRead(key: Text, rest: Text)
    requires |key| < TWO32
    ensures GetDelete(Prefixed(key) + rest) == Some(Parsed(Delete(key), rest))
  {
    PrefixedRead(key, rest);
  }

  lemma TypeFirst(t: Byte, body: Text, rest: Text)
    ensures ([t] + body + rest)[0] == t && ([t] + body + rest)[1..] == body + rest
  {
  }

  lemma RecordRead(u: Update, rest: Text)
    requires Fits(u)
    ensures GetRecord(Record(u) + rest) == Some(Parsed(u, rest))
  {
    match u
    case Put(key, value) =>
      TypeFirst(TYPE_VALUE, Prefixed(key) + Prefixed(value), rest);
      PutRead(key, value, rest);
    case Delete(key) =>
      TypeFirst(TYPE_DELETION, Prefixed(key), rest);
      DeleteRead(key, rest);
  }

  ghost predicate Reads(parse: Parser) {
    forall u, rest | Fits(u) :: parse(Record(u) + rest) == Some(Parsed(u, rest))
  }

  lemma {:induction false} RecordsRead(parse: Parser, us: seq<Update>, before: seq<Update>)
    requires Reads(parse) && forall u | u in us :: Fits(u)
    ensures ReadRecords(parse, Records(us), before) == Some(before + us)
    decreases |us|
  {
    if us == [] {
      assert before + us == before;
    } else {
      assert Record(us[0]) != [];
      RecordsRead(parse, us[1..], before + [us[0]]);
      assert before + [us[0]] + us[1..] == before + us;
    }
  }

  lemma GetRecordReads()
    ensures Reads(GetRecord)
  {
    forall u, rest | Fits(u) ensures GetRecord(Record(u) + rest) == Some(Parsed(u, rest)) { RecordRead(u, rest); }
  }

  // ----- the whole batch -----

  function Rep(sequence: nat, updates: seq<Update>): Text {
    Little(sequence, LONG) + Little(|updates|, WORD) + Records(updates)
  }

  lemma RepParts(rep: Text, s: Text, n: Text, body: Text)
    requires rep == s + n + body && |s| == LONG && |n| == WORD
    ensures |rep| >= HEADER && rep[..LONG] == s && rep[LONG..HEADER] == n && rep[HEADER..] == body
  {
  }

  lemma WordValue(word: Text, v: nat, n: nat)
    requires word == Little(v, n) && v < Pow256(n)
    ensures FromLittle(word) == v
  {
    LittleRoundTrip(v, n);
  }

  /** The bytes of a batch. */
  ghost predicate BatchOk(rep: Text, sequence: nat, updates: seq<Update>) {
    && rep == Rep(sequence, updates) && sequence < TWO64 && |updates| < TWO32
    && forall u | u in updates :: Fits(u)
  }

  lemma ExtendOk(rep: Text, sequence: nat, updates: seq<Update>, n: nat, records: Text, us: seq<Update>)
    requires BatchOk(rep, sequence, updates) && n == |updates| + |us| < TWO32
    requires records == Records(us) && forall u | u in us :: Fits(u)
    ensures |rep| >= HEADER && BatchOk(rep[..LONG] + Little(n, WORD) + rep[HEADER..] + records, sequence, updates + us)
  {
    FitsAppend(updates, us);
    RepParts(rep, Little(sequence, LONG), Little(|updates|, WORD), Records(updates));
    ExtendedRep(sequence, updates, us, n);
  }

  lemma FitsAppend(a: seq<Update>, b: seq<Update>)
    requires (forall u | u in a :: Fits(u)) && forall u | u in b :: Fits(u)
    ensures forall u | u in a + b :: Fits(u)
  {
  }

  lemma ExtendedRep(sequence: nat, updates: seq<Update>, us: seq<Update>, n: nat)
    requires n == |updates| + |us|
    ensures Little(sequence, LONG) + Little(n, WORD) + Records(updates) + Records(us) == Rep(sequence, updates + us)
  {
    RecordsAppend(updates, us);
    assert |updates + us| == n;
    Assoc(Little(sequence, LONG) + Little(n, WORD), Records(updates), Records(us));
  }

  /** What Iterate makes of any bytes: a batch too small, a bad record or a wrong count is an error. */
  function Iterated(rep: Text): Option<seq<Update>> {
    if |rep| < HEADER then None
    else
      match ReadRecords(GetRecord, rep[HEADER..], [])
      case None => None
      case Some(us) => if |us| != FromLittle(rep[LONG..HEADER]) then None else Some(us)
  }

  /** What Iterate hands on of any bytes, also when it ends with an error. */
  function HandedOn(rep: Text): seq<Update> {
    if |rep| < HEADER then [] else Handled(GetRecord, rep[HEADER..], [])
  }

  lemma GoodBatchHandedOn(rep: Text)
    requires Iterated(rep).Some?
    ensures Iterated(rep) == Some(HandedOn(rep))
  {
    AllHandled(GetRecord, rep[HEADER..], []);
  }

  /** The bytes of a batch tell its sequence number, and its updates in order. */
  lemma BatchReads(rep: Text, sequence: nat, updates: seq<Update>)
    requires BatchOk(rep, sequence, updates)
    ensures |rep| >= HEADER && FromLittle(rep[..LONG]) == sequence && Iterated(rep) == Some(updates)
  {
    RepParts(rep, Little(sequence, LONG), Little(|updates|, WORD), Records(updates));
    GetRecordReads();
    RecordsRead(GetRecord, updates, []);
    assert [] + updates == updates;
    assert Pow256(4) == TWO32 && Pow256(8) == TWO64;
    WordValue(rep[LONG..HEADER], |updates|, WORD);
    WordValue(rep[..LONG], sequence, LONG);
  }

  lemma OneUpdateMore(before: seq<Update>, us: seq<Update>, i: nat)
    requires i < |us|
    ensures before + us[..i] + [us[i]] == before + us[..i + 1] && |before + us[..i]| == |before| + i
  {
  }

  class WriteBatch {
    var rep: Text
    ghost var sequence: nat
    ghost var updates: seq<Update>

    ghost predicate Valid()
      reads this
    {
      BatchOk(rep, sequence, updates)
    }

    constructor ()
      ensures Valid() && sequence == 0 && updates == []
    {
      rep, sequence, updates := Little(0, LONG) + Little(0, WORD), 0, [];
      new;
      assert Little(0, LONG) + Little(0, WORD) + [] == Little(0, LONG) + Little(0, WORD);
    }

    lemma Parts()
      requires Valid()
      ensures |rep| >= HEADER && rep[..LONG] == Little(sequence, LONG) && rep[LONG..HEADER] == Little(|updates|, WORD)
      ensures rep[HEADER..] == Records(updates)
    {
      RepParts(rep, Little(sequence, LONG), Little(|updates|, WORD), Records(updates));
    }

    method Count() returns (n: nat)
      requires Valid()
      ensures n == |updates|
    {
      Parts();
      var word := rep[LONG..HEADER];
      assert Pow256(4) == TWO32;
      WordValue(word, |updates|, WORD);
      n := FromLittle(word);
    }

    method Sequence() returns (s: nat)
      requires Valid()
      ensures s == sequence
    {
      Parts();
      var word := rep[..LONG];
      assert Pow256(8) == TWO64;
      WordValue(word, sequence, LONG);
      s := FromLittle(word);
    }

    method SetSequence(s: nat)
      requires Valid() && s < TWO64
      modifies this
      ensures Valid() && sequence == s && updates == old(updates)
    {
      Parts();
      rep := Little(s, LONG) + rep[LONG..];
      sequence := s;
      assert rep == Rep(s, updates);
    }

    /** The header gets the new count, the records are appended. */
    method Extend(n: nat, records: Text, ghost us: seq<Update>)
      requires Valid() && n == |updates| + |us| < TWO32 && records == Records(us) && forall u | u in us :: Fits(u)
      modifies this
      ensures Valid() && sequence == old(sequence) && updates == old(updates) + us
    {
      ExtendOk(rep, sequence, updates, n, records, us);
      rep := rep[..LONG] + Little(n, WORD) + rep[HEADER..] + records;
      updates := updates + us;
    }

    /** Put and Delete. */
    method Add(u: Update)
      requires Valid() && Fits(u) && |updates| + 1 < TWO32
      modifies this
      ensures Valid() && sequence == old(sequence) && updates == old(updates) + [u]
    {
      var n := Count();
      assert Records([u]) == Record(u) by { assert [u][1..] == []; assert Record(u) + [] == Record(u); }
      Extend(n + 1, Record(u), [u]);
    }

    method AddAll(us: seq<Update>)
      requires Valid() && |updates| + |us| < TWO32 && forall u | u in us :: Fits(u)
      modifies this
      ensures Valid() && sequence == old(sequence) && updates == old(updates) + us
    {
      ghost var before := updates;
      for i := 0 to |us|
        invariant Valid() && sequence == old(sequence) && updates == before + us[..i]
      {
        OneUpdateMore(before, us, i);
        AddNext(us, i);
      }
      assert us[..|us|] == us;
    }

    method AddNext(us: seq<Update>, i: nat)
      requires Valid() && i < |us| && |updates| + 1 < TWO32 && forall u | u in us :: Fits(u)
      modifies this
      ensures Valid() && sequence == old(sequence) && updates == old(updates) + [us[i]]
    {
      Add(us[i]);
    }

    /** Append: the updates of the other batch after those of this one. */
    method Append(source: WriteBatch)
      requires Valid() && source.Valid() && |updates| + |source.updates| < TWO32
      modifies this
      ensures Valid() && sequence == old(sequence) && updates == old(updates) + old(source.updates)
    {
      var n := Count();
      var m := source.Count();
      source.Parts();
      Extend(n + m, source.rep[HEADER..], source.updates);
    }

    /** Iterate. */
    method Iterate() returns (ok: bool, handled: seq<Update>)
      ensures handled == HandedOn(rep) && Iterated(rep) == if ok then Some(handled) else None
    {
      if |rep| < HEADER {
        return false, [];
      }
      var input := rep[HEADER..];
      handled := [];
      while input != []
        invariant ReadRecords(GetRecord, input, handled) == ReadRecords(GetRecord, rep[HEADER..], [])
        invariant Handled(GetRecord, input, handled) == Handled(GetRecord, rep[HEADER..], [])
        decreases |input|
      {
        GetRecordShrinks(input);
        var p := GetRecord(input);
        if p.None? {
          return false, handled;
        }
        input, handled := p.value.rest, handled + [p.value.value];
      }
      ok := |handled| == FromLittle(rep[LONG..HEADER]);
    }

    /** A batch gives back the updates that were put into it, in order. */
    lemma IteratesUpdates()
      requires Valid()
      ensures Iterated(rep) == Some(updates)
    {
      BatchReads(rep, sequence, updates);
    }

    /** InsertInto: consecutive sequence numbers from the batch's own. */
    method InsertInto() returns (inserted: seq<(nat, Update)>)
      requires Valid()
      ensures |inserted| == |updates| && forall i | 0 <= i < |updates| :: inserted[i] == (sequence + i, updates[i])
    {
      var s := Sequence();
      var us := Contents();
      inserted := Insert(s, us);
    }

    method Contents() returns (us: seq<Update>)
      requires Valid()
      ensures us == updates
    {
      IteratesUpdates();
      var _, handled := Iterate();
      us := handled;
    }
  }

  /** MemTableInserter. */
  method Insert(s: nat, us: seq<Update>) returns (inserted: seq<(nat, Update)>)
    ensures |inserted| == |us| && forall i | 0 <= i < |us| :: inserted[i] == (s + i, us[i])
  {
    inserted := [];
    for i := 0 to |us|
      invariant |inserted| == i && forall j | 0 <= j < i :: inserted[j] == (s + j, us[j])
    {
      inserted := inserted + [(s + i, us[i])];
    }
  }
}
