/** Exactly which bytes WriteBatch::Iterate accepts as a batch, and what it makes of them (db/write_batch.cc). */
module BatchGrammar {
  import opened Options
  import opened Bytes
  import opened Varints
  import opened Coding
  import opened Grammars
  import opened WriteBatches

  // ----- any loop over records -----

  /** Which bytes are a record of which update. */
  type Grammar = (Text, Update) -> bool

  ghost predicate StartsWith(g: Grammar, input: Text, u: Update, rest: Text) {
    exists r: Text :: g(r, u) && input == r + rest
  }

  /** The parser reads exactly the records, and none is empty. */
  ghost predicate Exact(parse: Parser, g: Grammar) {
    && (forall input, u, rest :: parse(input) == Some(Parsed(u, rest)) <==> StartsWith(g, input, u, rest))
    && (forall input | parse(input).Some? :: |parse(input).value.rest| < |input|)
  }

  ghost predicate AreRecords(g: Grammar, b: Text, us: seq<Update>)
    decreases |us|
  {
    if us == [] then b == []
    else exists r: Text, rest: Text :: g(r, us[0]) && AreRecords(g, rest, us[1..]) && b == r + rest
  }

  /** No record starts here: what a loop meets when it gives up. */
  ghost predicate Stuck(g: Grammar, input: Text) {
    input != [] && forall u, rest :: !StartsWith(g, input, u, rest)
  }

  lemma NoneIff(parse: Parser, g: Grammar, input: Text)
    requires Exact(parse, g) && input != []
    ensures parse(input).None? <==> Stuck(g, input)
  {
    if parse(input).Some? {
      var p := parse(input).value;
      assert StartsWith(g, input, p.value, p.rest);
    }
  }

  lemma OneMore(g: Grammar, r: Text, u: Update, rest: Text, us: seq<Update>)
    requires g(r, u) && AreRecords(g, rest, us)
    ensures AreRecords(g, r + rest, [u] + us)
  {
    assert ([u] + us)[1..] == us;
  }

  /** The loop takes records as long as there are any. */
  lemma {:induction false} TakesRecords(parse: Parser, g: Grammar, input: Text, before: seq<Update>)
    returns (us: seq<Update>, good: Text, bad: Text)
    requires Exact(parse, g)
    ensures input == good + bad && AreRecords(g, good, us) && (bad == [] || Stuck(g, bad))
    ensures Handled(parse, input, before) == before + us
    ensures ReadRecords(parse, input, before) == if bad == [] then Some(before + us) else None
    decreases |input|
  {
    us, good, bad := [], [], input;
    assert before + [] == before;
    if input != [] {
      NoneIff(parse, g, input);
      if parse(input).Some? {
        var p := parse(input).value;
        assert StartsWith(g, input, p.value, p.rest);
        var r: Text :| g(r, p.value) && input == r + p.rest;
        var us1, good1, bad1 := TakesRecords(parse, g, p.rest, before + [p.value]);
        OneMore(g, r, p.value, good1, us1);
        us, good, bad := [p.value] + us1, r + good1, bad1;
        Assoc(r, good1, bad1);
        assert before + [p.value] + us1 == before + us;
      }
    }
  }

  /** And it takes them in the only way. */
  lemma {:induction false} RecordsAreTaken(parse: Parser, g: Grammar, good: Text, us: seq<Update>, bad: Text,
                                           before: seq<Update>)
    requires Exact(parse, g) && AreRecords(g, good, us) && (bad == [] || Stuck(g, bad))
    ensures Handled(parse, good + bad, before) == before + us
    ensures ReadRecords(parse, good + bad, before) == if bad == [] then Some(before + us) else None
    decreases |us|
  {
    if us == [] {
      assert good + bad == bad && before + us == before;
      if bad != [] { NoneIff(parse, g, bad); }
    } else {
      var r: Text, rest: Text :| g(r, us[0]) && AreRecords(g, rest, us[1..]) && good == r + rest;
      Assoc(r, rest, bad);
      assert StartsWith(g, good + bad, us[0], rest + bad);
      RecordsAreTaken(parse, g, rest, us[1..], bad, before + [us[0]]);
      assert before + [us[0]] + us[1..] == before + us;
    }
  }

  // ----- the records of a batch -----

  /** A record: 1, the key and the value, or 0 and the key. */
  ghost predicate IsRecord(b: Text, u: Update) {
    if u.Put? then exists k: Text, v: Text :: IsString(k, u.key) && IsString(v, u.value) && b == [1] + (k + v)
    else exists k: Text :: IsString(k, u.key) && b == [0] + k
  }

  lemma DeleteIff(input: Text, key: Text, rest: Text)
    ensures GetDelete(input) == Some(Parsed(Delete(key), rest))
       <==> exists k: Text :: IsString(k, key) && input == k + rest
  {
    StringIff(input, key, rest);
  }

  lemma PutIff(input: Text, key: Text, value: Text, rest: Text)
    ensures GetPut(input) == Some(Parsed(Put(key, value), rest))
       <==> exists k: Text, v: Text :: IsString(k, key) && IsString(v, value) && input == k + v + rest
  {
    if GetPut(input) == Some(Parsed(Put(key, value), rest)) {
      var more := GetPrefixed(input).value.rest;
      StringIff(input, key, more);
      StringIff(more, value, rest);
      var k: Text :| IsString(k, key) && input == k + more;
      var v :| IsString(v, value) && more == v + rest;
      Assoc(k, v, rest);
    }
    forall k: Text, v: Text | IsString(k, key) && IsString(v, value) && input == k + v + rest
      ensures GetPut(input) == Some(Parsed(Put(key, value), rest))
    {
      Assoc(k, v, rest);
      StringIff(input, key, v + rest);
      StringIff(v + rest, value, rest);
    }
  }

  lemma PutIsRead(input: Text, u: Update, rest: Text)
    requires u.Put? && input != [] && input[0] == 1 && GetPut(input[1..]) == Some(Parsed(u, rest))
    ensures StartsWith(IsRecord, input, u, rest)
  {
    PutIff(input[1..], u.key, u.value, rest);
    var k: Text, v: Text :| IsString(k, u.key) && IsString(v, u.value) && input[1..] == k + v + rest;
    assert IsRecord([1] + (k + v), u);
    TypeFirst(1, k + v, rest);
    assert input == [1] + input[1..] == [1] + (k + v) + rest;
  }

  lemma DeleteIsRead(input: Text, u: Update, rest: Text)
    requires u.Delete? && input != [] && input[0] == 0 && GetDelete(input[1..]) == Some(Parsed(u, rest))
    ensures StartsWith(IsRecord, input, u, rest)
  {
    DeleteIff(input[1..], u.key, rest);
    var k: Text :| IsString(k, u.key) && input[1..] == k + rest;
    assert IsRecord([0] + k, u);
    assert input == [0] + input[1..] == [0] + k + rest;
  }

  lemma ReadsRecord(r: Text, u: Update, rest: Text)
    requires IsRecord(r, u)
    ensures GetRecord(r + rest) == Some(Parsed(u, rest))
  {
    if u.Put? {
      var k: Text, v: Text :| IsString(k, u.key) && IsString(v, u.value) && r == [1] + (k + v);
      TypeFirst(1, k + v, rest);
      PutIff(k + v + rest, u.key, u.value, rest);
    } else {
      var k: Text :| IsString(k, u.key) && r == [0] + k;
      TypeFirst(0, k, rest);
      DeleteIff(k + rest, u.key, rest);
    }
  }

  /** One turn of the loop reads exactly the records. */
  lemma RecordsAreExact()
    ensures Exact(GetRecord, IsRecord)
  {
    forall input, u, rest
      ensures GetRecord(input) == Some(Parsed(u, rest)) <==> StartsWith(IsRecord, input, u, rest)
    {
      if GetRecord(input) == Some(Parsed(u, rest)) {
        KindOf(input, u, rest);
        if u.Put? { PutIsRead(input, u, rest); } else { DeleteIsRead(input, u, rest); }
      }
      if StartsWith(IsRecord, input, u, rest) {
        var r: Text :| IsRecord(r, u) && input == r + rest;
        ReadsRecord(r, u, rest);
      }
    }
    forall input | GetRecord(input).Some? ensures |GetRecord(input).value.rest| < |input| { GetRecordShrinks(input); }
  }

  lemma KindOf(input: Text, u: Update, rest: Text)
    requires GetRecord(input) == Some(Parsed(u, rest))
    ensures input != []
    ensures u.Put? ==> input[0] == 1 && GetPut(input[1..]) == Some(Parsed(u, rest))
    ensures u.Delete? ==> input[0] == 0 && GetDelete(input[1..]) == Some(Parsed(u, rest))
  {
  }

  /** Iterate accepts a batch exactly if it has a header, is all records behind it, and counts them right.  The
      records are the updates. */
  lemma BatchIff(rep: Text, us: seq<Update>)
    ensures Iterated(rep) == Some(us)
       <==> |rep| >= 12 && AreRecords(IsRecord, rep[12..], us) && FromLittle(rep[8..12]) == |us|
  {
    if |rep| >= 12 {
      var body := rep[12..];
      RecordsAreExact();
      var us1, good, bad := TakesRecords(GetRecord, IsRecord, body, []);
      assert [] + us1 == us1 && good + [] == good && body + [] == body && [] + us == us;
      if AreRecords(IsRecord, body, us) { RecordsAreTaken(GetRecord, IsRecord, body, us, [], []); }
    }
  }

  /** What reaches the handler of any bytes: the updates of the records in front of the first place where none
      starts. */
  lemma HandedOnIff(rep: Text, us: seq<Update>)
    requires |rep| >= 12
    ensures HandedOn(rep) == us
       <==> exists good, bad ::
              rep[12..] == good + bad && AreRecords(IsRecord, good, us) && (bad == [] || Stuck(IsRecord, bad))
  {
    var body := rep[12..];
    RecordsAreExact();
    var us1, good1, bad1 := TakesRecords(GetRecord, IsRecord, body, []);
    assert [] + us1 == us1 && [] + us == us;
    forall good, bad
      | body == good + bad && AreRecords(IsRecord, good, us) && (bad == [] || Stuck(IsRecord, bad))
      ensures HandedOn(rep) == us
    {
      RecordsAreTaken(GetRecord, IsRecord, good, us, bad, []);
    }
  }
}
