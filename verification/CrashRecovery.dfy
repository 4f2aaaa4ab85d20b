/** What a crash leaves of the group commits (db/db_impl.cc: RecoverLogFile): the log may end at any byte, and replaying
    it, with or without paranoid_checks, gives a prefix of whole groups under their own sequence numbers.  One log
    file. */
module CrashRecovery {
  import opened Options
  import opened Bytes
  import opened Varints
  import WriteBatches
  import opened LogFormat
  import opened LogReplay
  import LogFiles
  import opened GroupCommit

  // ----- replaying records -----

  function NumberFrom(sequence: nat, us: seq<Update>): (r: seq<Insertion>)
    ensures |r| == |us| && forall i | 0 <= i < |us| :: r[i] == Insertion(sequence + i, us[i])
  {
    seq(|us|, i requires 0 <= i < |us| => Insertion(sequence + i, us[i]))
  }

  /** InsertInto of one record: its updates, numbered from the record's own sequence number. */
  function Inserted(rep: Text): Option<seq<Insertion>> {
    if |rep| < WriteBatches.HEADER then None
    else
      match WriteBatches.Iterated(rep)
      case None => None
      case Some(us) => Some(NumberFrom(FromLittle(rep[..WriteBatches.LONG]), us))
  }

  function Replayed(records: seq<Text>): Option<seq<Insertion>> {
    if records == [] then Some([])
    else
      match Replayed(records[..|records| - 1])
      case None => None
      case Some(before) =>
        match Inserted(records[|records| - 1])
        case None => None
        case Some(more) => Some(before + more)
  }

  lemma {:induction false} BadRecordStops(records: seq<Text>, i: nat)
    requires i <= |records| && Replayed(records[..i]).None?
    ensures Replayed(records).None?
    decreases |records| - i
  {
    if i == |records| {
      assert records[..i] == records;
    } else {
      assert records[..i + 1][..i] == records[..i];
      BadRecordStops(records, i + 1);
    }
  }

  /** What InsertInto leaves in the memtable of any record, also of a bad one. */
  function InsertedPart(rep: Text): seq<Insertion> {
    if |rep| < WriteBatches.HEADER then []
    else NumberFrom(FromLittle(rep[..WriteBatches.LONG]), WriteBatches.HandedOn(rep))
  }

  /** Replaying without paranoid_checks: errors are ignored. */
  function Salvaged(records: seq<Text>): seq<Insertion> {
    if records == [] then [] else Salvaged(records[..|records| - 1]) + InsertedPart(records[|records| - 1])
  }

  /** On good records errors do not matter. */
  lemma {:induction false} GoodIsSalvaged(records: seq<Text>)
    requires Replayed(records).Some?
    ensures Replayed(records) == Some(Salvaged(records))
    decreases |records|
  {
    if records != [] {
      GoodIsSalvaged(records[..|records| - 1]);
      WriteBatches.GoodBatchHandedOn(records[|records| - 1]);
    }
  }

  /** What recovery makes of any file; under paranoid_checks dropped bytes and bad records are errors. */
  function Recovered(paranoid: bool, data: Text): Option<seq<Insertion>> {
    FromRead(paranoid, Drain(data, CRC, START, NO_DROPS))
  }

  function FromRead(paranoid: bool, read: (seq<Text>, seq<nat>)): Option<seq<Insertion>> {
    if !paranoid then Some(Salvaged(read.0)) else if read.1 != [] then None else Replayed(read.0)
  }

  /** The sequence number and the count in the header. */
  function SequenceOf(rep: Text): nat
    requires |rep| >= WriteBatches.HEADER
  {
    FromLittle(rep[..WriteBatches.LONG])
  }

  function CountOf(rep: Text): nat
    requires |rep| >= WriteBatches.HEADER
  {
    FromLittle(rep[WriteBatches.LONG..WriteBatches.HEADER])
  }

  /** One less, in 64 bits. */
  function LessOne(n: nat): nat {
    (n + TWO64 - 1) % TWO64
  }

  lemma LessOneInRange(n: nat)
    requires 1 <= n <= TWO64
    ensures LessOne(n) == n - 1
  {
  }

  /** Sequence number plus count less one. */
  function LastNumber(rep: Text): nat
    requires |rep| >= WriteBatches.HEADER
  {
    LessOne(SequenceOf(rep) + CountOf(rep))
  }

  /** The largest last number of the records that have a header, or 0 if there is none. */
  function Highest(records: seq<Text>): nat {
    if records == [] then 0
    else
      var before, rep := Highest(records[..|records| - 1]), records[|records| - 1];
      if |rep| >= WriteBatches.HEADER && LastNumber(rep) > before then LastNumber(rep) else before
  }

  function HighestIn(data: Text): nat {
    Highest(Drain(data, CRC, START, NO_DROPS).0)
  }

  // ----- RecoverLogFile -----

  /** The tables written while replaying, and the memtable if the log is reused. */
  datatype Replay = Replay(tables: seq<seq<Insertion>>, memtable: Option<seq<Insertion>>)

  function Joined(tables: seq<seq<Insertion>>): seq<Insertion> {
    if tables == [] then [] else Joined(tables[..|tables| - 1]) + tables[|tables| - 1]
  }

  function InMem(mem: Option<seq<Insertion>>): seq<Insertion> {
    if mem.Some? then mem.value else []
  }

  /** Memtable after memtable, each written out as soon as it is full. */
  ghost predicate CutWhenFull(full: seq<Insertion> -> bool, tables: seq<seq<Insertion>>) {
    forall i | 0 <= i < |tables| :: full(tables[i])
  }

  lemma OneTableMore(tables: seq<seq<Insertion>>, t: seq<Insertion>)
    ensures Joined(tables + [t]) == Joined(tables) + t
  {
    assert (tables + [t])[..|tables|] == tables;
  }

  /** RecoverLogFile: the updates of the records into tables and the memtable, and the largest sequence number that the
      records name.  `reuse` is reuse_logs for the last log file; `full` tests the size of a memtable. */
  method RecoverLogFile(paranoid: bool, reuse: bool, full: seq<Insertion> -> bool, data: Text)
    returns (r: Option<Replay>, maxSequence: nat)
    ensures r.Some? <==> Recovered(paranoid, data).Some?
    ensures r.Some? ==>
              && Joined(r.value.tables) + InMem(r.value.memtable) == Recovered(paranoid, data).value
              && maxSequence == HighestIn(data)
              && (r.value.memtable.Some? <==> reuse && r.value.tables == [])
              && (reuse ==> r.value.tables == [] || full(r.value.tables[0]))
              && (forall i | 0 <= i < |r.value.tables| - 1 :: full(r.value.tables[i]))
  {
    var reader := new LogFiles.Reader(CRC, data);
    var records := reader.ReadAll();
    if paranoid && reader.drops != [] {
      return None, 0;
    }
    var ok, tables, mem;
    ok, tables, mem, maxSequence := ReplayRecords(paranoid, full, records);
    if !ok {
      return None, 0;
    }
    var replay := LastMemtable(reuse, full, tables, mem);
    r := Some(replay);
  }

  /** The last memtable stays in use if the log is reused and nothing has been written out, or becomes one more
      table. */
  method LastMemtable(reuse: bool, full: seq<Insertion> -> bool, tables: seq<seq<Insertion>>,
                      mem: Option<seq<Insertion>>) returns (r: Replay)
    requires CutWhenFull(full, tables)
    ensures Joined(r.tables) + InMem(r.memtable) == Joined(tables) + InMem(mem)
    ensures (r.memtable.Some? <==> reuse && r.tables == []) && (reuse ==> r.tables == [] || full(r.tables[0]))
    ensures forall i | 0 <= i < |r.tables| - 1 :: full(r.tables[i])
  {
    if reuse && tables == [] {
      r := Replay([], Some(InMem(mem)));
    } else if mem.Some? {
      OneTableMore(tables, mem.value);
      r := Replay(tables + [mem.value], None);
    } else {
      r := Replay(tables, None);
    }
  }

  method ReplayRecords(paranoid: bool, full: seq<Insertion> -> bool, records: seq<Text>)
    returns (ok: bool, tables: seq<seq<Insertion>>, mem: Option<seq<Insertion>>, maxSequence: nat)
    ensures ok <==> (paranoid ==> Replayed(records).Some?)
    ensures ok ==> Joined(tables) + InMem(mem) == Salvaged(records) && maxSequence == Highest(records)
    ensures ok && paranoid ==> Replayed(records) == Some(Salvaged(records))
    ensures ok ==> CutWhenFull(full, tables)
  {
    ok, tables, mem, maxSequence := true, [], None, 0;
    for i := 0 to |records|
      invariant ok && maxSequence == Highest(records[..i]) && CutWhenFull(full, tables)
      invariant Joined(tables) + InMem(mem) == Salvaged(records[..i])
      invariant paranoid ==> Replayed(records[..i]) == Some(Salvaged(records[..i]))
    {
      var rep := records[i];
      assert records[..i + 1][..i] == records[..i];
      if paranoid && Inserted(rep).None? {
        BadRecordStops(records, i + 1);
        ok := false;
        return;
      }
      if Inserted(rep).Some? { WriteBatches.GoodBatchHandedOn(rep); }
      if |rep| >= WriteBatches.HEADER {
        OneRecordSalvaged(records, i, Joined(tables), InMem(mem));
        tables, mem := AddToMemtable(full, tables, InMem(mem) + InsertedPart(rep));
        if LastNumber(rep) > maxSequence {
          maxSequence := LastNumber(rep);
        }
      }
    }
    assert records[..|records|] == records;
  }

  lemma OneRecordSalvaged(records: seq<Text>, i: nat, tables: seq<Insertion>, mem: seq<Insertion>)
    requires i < |records| && tables + mem == Salvaged(records[..i])
    ensures tables + (mem + InsertedPart(records[i])) == Salvaged(records[..i + 1])
  {
    SalvagedStep(records, i);
    Regroup(tables, mem, InsertedPart(records[i]));
  }

  lemma SalvagedStep(records: seq<Text>, i: nat)
    requires i < |records|
    ensures Salvaged(records[..i + 1]) == Salvaged(records[..i]) + InsertedPart(records[i])
  {
    assert records[..i + 1][..i] == records[..i];
  }

  lemma Regroup(a: seq<Insertion>, b: seq<Insertion>, c: seq<Insertion>)
    ensures a + (b + c) == a + b + c
  {
  }

  method AddToMemtable(full: seq<Insertion> -> bool, tables: seq<seq<Insertion>>, mem: seq<Insertion>)
    returns (tables': seq<seq<Insertion>>, mem': Option<seq<Insertion>>)
    requires CutWhenFull(full, tables)
    ensures Joined(tables') + InMem(mem') == Joined(tables) + mem && CutWhenFull(full, tables')
    ensures if full(mem) then tables' == tables + [mem] && mem'.None? else tables' == tables && mem' == Some(mem)
  {
    if full(mem) {
      OneTableMore(tables, mem);
      return tables + [mem], None;
    }
    return tables, Some(mem);
  }

  // ----- numbers -----

  /** A record whose last number does not wrap. */
  predicate InRange(rep: Text) {
    |rep| >= WriteBatches.HEADER ==> 1 <= SequenceOf(rep) && SequenceOf(rep) + CountOf(rep) <= TWO64
  }

  lemma LastInRange(rep: Text)
    requires |rep| >= WriteBatches.HEADER && InRange(rep)
    ensures LastNumber(rep) == SequenceOf(rep) + CountOf(rep) - 1
  {
    LessOneInRange(SequenceOf(rep) + CountOf(rep));
  }

  /** No number of a good record is above the highest, so that numbers given out later are new. */
  lemma {:induction false} ReplayedBelowHighest(records: seq<Text>, i: nat)
    requires Replayed(records).Some? && (forall r | r in records :: InRange(r)) && i < |Replayed(records).value|
    ensures Replayed(records).value[i].sequence <= Highest(records)
    decreases |records|
  {
    var n := |records| - 1;
    var before := Replayed(records[..n]).value;
    assert InRange(records[n]);
    LastInRange(records[n]);
    if i < |before| { ReplayedBelowHighest(records[..n], i); }
  }

  /** Where the updates of a record end, and where its header says they do. */
  function EndOf(rep: Text): nat
    requires |rep| >= WriteBatches.HEADER
  {
    SequenceOf(rep) + |WriteBatches.HandedOn(rep)|
  }

  function CountedEnd(rep: Text): nat
    requires |rep| >= WriteBatches.HEADER
  {
    SequenceOf(rep) + CountOf(rep)
  }

  /** A record whose updates go on beyond what every header says. */
  ghost predicate Overruns(records: seq<Text>, r: Text) {
    && r in records && |r| >= WriteBatches.HEADER
    && forall q | q in records && |q| >= WriteBatches.HEADER :: CountedEnd(q) < EndOf(r)
  }

  /** When errors are ignored a number can be above the highest, so that it is given out again: exactly when some record
      holds updates beyond what the header of every record says. */
  lemma SalvagedAboveIff(records: seq<Text>)
    requires forall r | r in records :: InRange(r)
    ensures (exists i | i in Salvaged(records) :: i.sequence > Highest(records))
       <==> exists r :: Overruns(records, r)
  {
    var _ := HighestIsMax(records);
    if i :| i in Salvaged(records) && i.sequence > Highest(records) {
      var r := SalvagedFrom(records, i);
      forall q | q in records && |q| >= WriteBatches.HEADER ensures CountedEnd(q) < EndOf(r) {
        LastInRange(q);
      }
      assert Overruns(records, r);
    }
    if r :| Overruns(records, r) {
      OverrunIsAbove(records, r);
    }
  }

  lemma OverrunIsAbove(records: seq<Text>, r: Text)
    requires (forall r | r in records :: InRange(r)) && Overruns(records, r)
    ensures exists i | i in Salvaged(records) :: i.sequence > Highest(records)
  {
    var q := HighestIsMax(records);
    var part := InsertedPart(r);
    assert |part| > 0;
    var i := part[|part| - 1];
    SalvagedHas(records, r, i);
    LastInRange(q);
    assert i.sequence == EndOf(r) - 1;
  }

  lemma {:induction false} HighestIsMax(records: seq<Text>) returns (q: Text)
    ensures forall r | r in records && |r| >= WriteBatches.HEADER :: LastNumber(r) <= Highest(records)
    ensures (exists r :: r in records && |r| >= WriteBatches.HEADER) ==>
              q in records && |q| >= WriteBatches.HEADER && LastNumber(q) == Highest(records)
    decreases |records|
  {
    q := [];
    if records != [] {
      var n := |records| - 1;
      var last := records[n];
      q := HighestIsMax(records[..n]);
      assert records == records[..n] + [last];
      if |last| >= WriteBatches.HEADER
         && (LastNumber(last) > Highest(records[..n]) || !exists r :: r in records[..n] && |r| >= WriteBatches.HEADER)
      {
        q := last;
        NoneIsZero(records[..n]);
      }
    }
  }

  lemma {:induction false} NoneIsZero(records: seq<Text>)
    ensures (forall r | r in records :: |r| < WriteBatches.HEADER) ==> Highest(records) == 0
    decreases |records|
  {
    if records != [] { NoneIsZero(records[..|records| - 1]); }
  }

  lemma {:induction false} SalvagedFrom(records: seq<Text>, i: Insertion) returns (r: Text)
    requires i in Salvaged(records)
    ensures r in records && |r| >= WriteBatches.HEADER && i in InsertedPart(r)
    decreases |records|
  {
    var n := |records| - 1;
    r := records[n];
    if i !in InsertedPart(r) { r := SalvagedFrom(records[..n], i); }
  }

  lemma {:induction false} SalvagedHas(records: seq<Text>, r: Text, i: Insertion)
    requires r in records && i in InsertedPart(r)
    ensures i in Salvaged(records)
    decreases |records|
  {
    var n := |records| - 1;
    assert records == records[..n] + [records[n]];
    if r in records[..n] { SalvagedHas(records[..n], r, i); }
  }

  // ----- the log of the group commits -----

  /** The records can be written as batches. */
  ghost predicate Writable(log: seq<LogRecord>) {
    forall i | 0 <= i < |log| ::
      0 < log[i].sequence < TWO64 && log[i].sequence + |log[i].updates| <= TWO64 && |log[i].updates| < TWO32
      && forall u | u in log[i].updates :: WriteBatches.Fits(u)
  }

  function Batches(log: seq<LogRecord>): (r: seq<Text>)
    ensures |r| == |log| && forall i | 0 <= i < |log| :: r[i] == WriteBatches.Rep(log[i].sequence, log[i].updates)
  {
    seq(|log|, i requires 0 <= i < |log| => WriteBatches.Rep(log[i].sequence, log[i].updates))
  }

  lemma BatchesPrefix(log: seq<LogRecord>, n: nat)
    requires n <= |log|
    ensures Batches(log)[..n] == Batches(log[..n])
  {
  }

  /** The bytes of the log file. */
  function LogBytes(log: seq<LogRecord>): Text {
    LogFrom(AddRecord(CRC), 0, Batches(log))
  }

  /** The bytes of a group's batch: its updates, and then the sequence number, which is known only now. */
  method GroupBatch(r: LogRecord) returns (rep: Text)
    requires 0 < r.sequence < TWO64 && |r.updates| < TWO32 && forall u | u in r.updates :: WriteBatches.Fits(u)
    ensures rep == WriteBatches.Rep(r.sequence, r.updates)
  {
    var batch := new WriteBatches.WriteBatch();
    batch.AddAll(r.updates);
    assert [] + r.updates == r.updates;
    batch.SetSequence(r.sequence);
    rep := batch.rep;
  }

  /** The head of the queue writes its group: the file is then the log with one more record. */
  method WriteGroup(w: LogFiles.Writer, r: LogRecord, ghost log: seq<LogRecord>)
    requires w.Inv() && w.c == CRC && w.dest == LogBytes(log) && Writable([r])
    modifies w
    ensures w.Inv() && w.dest == LogBytes(log + [r])
  {
    assert [r][0] == r;
    var rep := GroupBatch(r);
    LogOneMore(log, r);
    w.AddRecord(rep);
  }

  lemma LogOneMore(log: seq<LogRecord>, r: LogRecord)
    ensures LogBytes(log + [r])
         == LogBytes(log) + LogOf(CRC, |LogBytes(log)|, WriteBatches.Rep(r.sequence, r.updates), true)
  {
    var rep := WriteBatches.Rep(r.sequence, r.updates);
    assert Batches(log + [r]) == Batches(log) + [rep];
    OneRecordMore(AddRecord(CRC), Batches(log), rep);
  }

  lemma OneRecordMore(w: Appender, records: seq<Text>, rep: Text)
    ensures LogFrom(w, 0, records + [rep]) == LogFrom(w, 0, records) + w(|LogFrom(w, 0, records)|, rep)
  {
    LogFromConcat(w, 0, records, [rep]);
    assert [rep][1..] == [];
  }

  lemma RecordInserted(r: LogRecord)
    requires Writable([r])
    ensures Inserted(WriteBatches.Rep(r.sequence, r.updates)) == Some(NumberFrom(r.sequence, r.updates))
  {
    assert [r][0] == r;
    WriteBatches.BatchReads(WriteBatches.Rep(r.sequence, r.updates), r.sequence, r.updates);
  }

  /** The updates of a log under their sequence numbers. */
  function InsertionsOf(log: seq<LogRecord>): seq<Insertion> {
    if log == [] then []
    else
      var r := log[|log| - 1];
      InsertionsOf(log[..|log| - 1]) + NumberFrom(r.sequence, r.updates)
  }

  /** The largest number of a log, or 0 if there is none. */
  function LastOf(log: seq<LogRecord>): nat {
    if log == [] then 0
    else
      var before, r := LastOf(log[..|log| - 1]), log[|log| - 1];
      if r.sequence + |r.updates| > before + 1 then r.sequence + |r.updates| - 1 else before
  }

  /** Replaying whole groups gives their updates. */
  lemma {:induction false} GroupsReplay(log: seq<LogRecord>)
    requires Writable(log)
    ensures Replayed(Batches(log)) == Some(InsertionsOf(log))
    decreases |log|
  {
    if log != [] {
      var n := |log| - 1;
      GroupsReplay(log[..n]);
      BatchesPrefix(log, n);
      assert Writable([log[n]]);
      RecordInserted(log[n]);
    }
  }

  lemma {:induction false} GroupsHighest(log: seq<LogRecord>)
    requires Writable(log)
    ensures Highest(Batches(log)) == LastOf(log)
    decreases |log|
  {
    if log != [] {
      var n := |log| - 1;
      GroupsHighest(log[..n]);
      BatchesPrefix(log, n);
      assert Writable([log[n]]);
      RecordNumber(log[n]);
      HighestOfOneMore(Batches(log));
    }
  }

  lemma HighestOfOneMore(records: seq<Text>)
    requires records != [] && |records[|records| - 1]| >= WriteBatches.HEADER
    ensures var before, last := Highest(records[..|records| - 1]), LastNumber(records[|records| - 1]);
            Highest(records) == if last > before then last else before
  {
  }

  lemma RecordNumber(r: LogRecord)
    requires Writable([r])
    ensures var rep := WriteBatches.Rep(r.sequence, r.updates);
            |rep| >= WriteBatches.HEADER && LastNumber(rep) == r.sequence + |r.updates| - 1
  {
    assert [r][0] == r;
    WriteBatches.BatchReads(WriteBatches.Rep(r.sequence, r.updates), r.sequence, r.updates);
    LastInRange(WriteBatches.Rep(r.sequence, r.updates));
  }

  /** Cut the log at any byte and recover: the groups that were complete, and no part of any other. */
  lemma CutLogRecovers(paranoid: bool, log: seq<LogRecord>, k: nat) returns (n: nat)
    requires Writable(log) && k <= |LogBytes(log)|
    ensures n <= |log| && |LogBytes(log[..n])| <= k && (n < |log| ==> k < |LogBytes(log[..n + 1])|)
    ensures Recovered(paranoid, LogBytes(log)[..k]) == Some(InsertionsOf(log[..n]))
    ensures HighestIn(LogBytes(log)[..k]) == LastOf(log[..n])
  {
    n := CutLogRecords(log, k);
    GroupsReplay(log[..n]);
    GoodIsSalvaged(Batches(log[..n]));
    GroupsHighest(log[..n]);
  }

  // ----- a log without gaps -----

  /** Update i, counted from 0, has sequence number base + i + 1. */
  ghost predicate NumberedFrom(base: nat, memtable: seq<Insertion>, updates: seq<Update>) {
    |memtable| == |updates| && forall i | 0 <= i < |updates| :: memtable[i] == Insertion(base + i + 1, updates[i])
  }

  /** A log file that goes on from sequence number `base`. */
  ghost predicate LogFollows(base: nat, log: seq<LogRecord>) {
    forall i | 0 <= i < |log| :: log[i].sequence == base + |LogUpdates(log[..i])| + 1
  }

  lemma {:induction false} FollowingInsertions(base: nat, log: seq<LogRecord>)
    requires LogFollows(base, log)
    ensures NumberedFrom(base, InsertionsOf(log), LogUpdates(log))
    ensures LastOf(log) == if log == [] then 0 else base + |LogUpdates(log)|
    decreases |log|
  {
    if log != [] {
      var n := |log| - 1;
      PrefixFollows(base, log, n);
      FollowingInsertions(base, log[..n]);
    }
  }

  lemma PrefixFollows(base: nat, log: seq<LogRecord>, n: nat)
    requires n <= |log| && LogFollows(base, log)
    ensures LogFollows(base, log[..n])
  {
    forall i | 0 <= i < n ensures log[..n][i].sequence == base + |LogUpdates(log[..n][..i])| + 1 {
      assert log[..n][..i] == log[..i];
    }
  }

  /** A log of group commits, cut at any byte: its groups are recovered under numbers without a gap. */
  lemma CutLogRecoversGroups(paranoid: bool, base: nat, log: seq<LogRecord>, k: nat) returns (n: nat)
    requires Writable(log) && LogFollows(base, log) && k <= |LogBytes(log)|
    ensures n <= |log| && |LogBytes(log[..n])| <= k && (n < |log| ==> k < |LogBytes(log[..n + 1])|)
    ensures var r := Recovered(paranoid, LogBytes(log)[..k]);
            r.Some? && NumberedFrom(base, r.value, LogUpdates(log[..n]))
    ensures HighestIn(LogBytes(log)[..k]) == if n == 0 then 0 else base + |LogUpdates(log[..n])|
  {
    n := CutLogRecovers(paranoid, log, k);
    PrefixFollows(base, log, n);
    FollowingInsertions(base, log[..n]);
  }

  lemma CutLogRecords(log: seq<LogRecord>, k: nat) returns (n: nat)
    requires k <= |LogBytes(log)|
    ensures n <= |log| && |LogBytes(log[..n])| <= k && (n < |log| ==> k < |LogBytes(log[..n + 1])|)
    ensures Drain(LogBytes(log)[..k], CRC, START, NO_DROPS) == (Batches(log[..n]), NO_DROPS)
  {
    n := CutLog(Batches(log), k);
    BatchesPrefix(log, n);
    if n < |log| { BatchesPrefix(log, n + 1); }
  }

  // ----- in a run -----

  lemma LogBytesGrow(log: seq<LogRecord>, m: nat, n: nat)
    requires m <= n <= |log|
    ensures |LogBytes(log[..m])| <= |LogBytes(log[..n])|
  {
    BatchesPrefix(log, m);
    BatchesPrefix(log, n);
    LogFileGrows(AddRecord(CRC), Batches(log), m, n);
  }

  lemma {:induction false} LogUpdatesPrefix(log: seq<LogRecord>, m: nat, n: nat)
    requires m <= n <= |log|
    ensures LogUpdates(log[..m]) <= LogUpdates(log[..n])
    decreases n
  {
    if m < n {
      assert log[..n][..n - 1] == log[..n - 1];
      LogUpdatesPrefix(log, m, n - 1);
    }
  }

  /** The log of state i has reached the disk and the process dies at state j, or later, with the log cut at byte k.
      Whatever was published at i is recovered, as part of whole groups that are a prefix of what was logged. */
  lemma CrashKeepsFinishedWrites(paranoid: bool, states: seq<State>, steps: seq<Step>, i: nat, j: nat, k: nat)
    returns (n: nat)
    requires IsRun(states, steps) && i <= j < |states| && Writable(states[j].log)
    requires |LogBytes(states[i].log)| <= k <= |LogBytes(states[j].log)|
    ensures Inv(states[i]) && n <= |states[j].log|
    ensures var r := Recovered(paranoid, LogBytes(states[j].log)[..k]);
            && r.Some? && NumberedFrom(0, r.value, LogUpdates(states[j].log[..n]))
            && Published(states[i]) <= LogUpdates(states[j].log[..n])
  {
    RunKeepsInv(states, steps, i);
    RunKeepsInv(states, steps, j);
    RunExtends(states, steps, i, j);
    var log, m := states[j].log, |states[i].log|;
    assert log[..m] == states[i].log;
    n := CutLogRecoversGroups(paranoid, 0, log, k);
    AtLeast(log, m, n, k);
    PublishedInLog(states[i]);
  }

  /** Groups that end within the cut are among those recovered. */
  lemma AtLeast(log: seq<LogRecord>, m: nat, n: nat, k: nat)
    requires m <= |log| && n <= |log| && |LogBytes(log[..m])| <= k && (n < |log| ==> k < |LogBytes(log[..n + 1])|)
    ensures LogUpdates(log[..m]) <= LogUpdates(log[..n])
  {
    if n < m { LogBytesGrow(log, n + 1, m); }
    if m <= n { LogUpdatesPrefix(log, m, n); }
  }

  lemma PublishedInLog(s: State)
    requires QueueInv(s) && DataInv(s)
    ensures Published(s) <= LogUpdates(s.log)
  {
  }
}
