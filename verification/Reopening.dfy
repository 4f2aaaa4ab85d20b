/** Opening the database after a crash (db/db_impl.cc: Recover): the manifest gives back the version, and every log
    file, each cut at a byte of its own, a prefix of its groups; together they read like the history without what was
    lost. */
module Reopening {
  import opened Options
  import opened Bytes
  import InternalKeys
  import ManifestRecovery
  import opened GroupCommit
  import opened CrashRecovery
  import Store
  import opened Durability

  /** The order of keys under the comparator. */
  type Rank = Text -> real

  function Chars(t: Text): string {
    seq(|t|, i requires 0 <= i < |t| => t[i] as char)
  }

  /** The entry of the model that stands for an inserted update. */
  function EntryOf(rank: Rank, i: Insertion): InternalKeys.Entry {
    match i.update
    case Put(key, value) => InternalKeys.Entry(rank(key), i.sequence, InternalKeys.Kind.Put, Chars(value))
    case Delete(key) => InternalKeys.Entry(rank(key), i.sequence, InternalKeys.Deletion, "")
  }

  ghost function EntriesOf(rank: Rank, ms: seq<Insertion>): set<InternalKeys.Entry> {
    set i | 0 <= i < |ms| :: EntryOf(rank, ms[i])
  }

  lemma EntriesOfConcat(rank: Rank, a: seq<Insertion>, b: seq<Insertion>)
    ensures EntriesOf(rank, a + b) == EntriesOf(rank, a) + EntriesOf(rank, b)
  {
    var all := a + b;
    forall e ensures e in EntriesOf(rank, all) <==> e in EntriesOf(rank, a) + EntriesOf(rank, b) {
      if e in EntriesOf(rank, a) {
        var i :| 0 <= i < |a| && EntryOf(rank, a[i]) == e;
        assert all[i] == a[i];
      }
      if e in EntriesOf(rank, b) {
        var i :| 0 <= i < |b| && EntryOf(rank, b[i]) == e;
        assert all[|a| + i] == b[i];
      }
    }
  }

  // ----- one log file -----

  lemma {:induction false} PrefixInsertions(rank: Rank, log: seq<LogRecord>, n: nat)
    requires n <= |log|
    ensures EntriesOf(rank, InsertionsOf(log[..n])) <= EntriesOf(rank, InsertionsOf(log))
    decreases |log|
  {
    if n == |log| {
      assert log[..n] == log;
    } else {
      var m := |log| - 1;
      assert log[..m][..n] == log[..n];
      PrefixInsertions(rank, log[..m], n);
      EntriesOfConcat(rank, InsertionsOf(log[..m]), NumberFrom(log[m].sequence, log[m].updates));
    }
  }

  /** No record of the log names a number above `last`. */
  ghost predicate Within(log: seq<LogRecord>, last: nat) {
    forall r | r in log :: 1 <= r.sequence && r.sequence + |r.updates| <= last + 1
  }

  lemma {:induction false} WithinLast(rank: Rank, log: seq<LogRecord>, last: nat)
    requires Within(log, last)
    ensures LastOf(log) <= last
    ensures forall e | e in EntriesOf(rank, InsertionsOf(log)) :: e.seqno <= LastOf(log)
    decreases |log|
  {
    if log != [] {
      var n, r := |log| - 1, log[|log| - 1];
      assert r in log;
      WithinLast(rank, log[..n], last);
      EntriesOfConcat(rank, InsertionsOf(log[..n]), NumberFrom(r.sequence, r.updates));
      var more := NumberFrom(r.sequence, r.updates);
      forall i | 0 <= i < |more| ensures EntryOf(rank, more[i]).seqno == r.sequence + i {
      }
    }
  }

  // ----- all log files -----

  /** What is recovered from log files that are replayed one after the other. */
  function RecoveredAll(paranoid: bool, files: seq<Text>): Option<seq<Insertion>> {
    if files == [] then Some([])
    else
      match RecoveredAll(paranoid, files[..|files| - 1])
      case None => None
      case Some(before) =>
        match Recovered(paranoid, files[|files| - 1])
        case None => None
        case Some(more) => Some(before + more)
  }

  function HighestInAll(files: seq<Text>): nat {
    if files == [] then 0 else Max(HighestInAll(files[..|files| - 1]), HighestIn(files[|files| - 1]))
  }

  function Max(a: nat, b: nat): nat {
    if a < b then b else a
  }

  /** The entries of all logs. */
  ghost function Logged(rank: Rank, logs: seq<seq<LogRecord>>): set<InternalKeys.Entry> {
    if logs == [] then {}
    else Logged(rank, logs[..|logs| - 1]) + EntriesOf(rank, InsertionsOf(logs[|logs| - 1]))
  }

  ghost predicate AllWritable(logs: seq<seq<LogRecord>>, last: nat) {
    forall i | 0 <= i < |logs| :: Writable(logs[i]) && Within(logs[i], last)
  }

  /** Each log file may end at a byte of its own. */
  ghost predicate IsCut(logs: seq<seq<LogRecord>>, files: seq<Text>) {
    |files| == |logs| && forall i | 0 <= i < |logs| :: files[i] <= LogBytes(logs[i])
  }

  /** The first n records are whole, and no other. */
  ghost predicate WholeGroups(log: seq<LogRecord>, file: Text, n: nat) {
    && n <= |log| && |LogBytes(log[..n])| <= |file|
    && (n < |log| ==> |file| < |LogBytes(log[..n + 1])|)
  }

  type Test = (seq<LogRecord>, Text, nat) -> bool

  ghost function WholeTest(): Test {
    (log: seq<LogRecord>, file: Text, n: nat) => WholeGroups(log, file, n)
  }

  /** The test holds of every log, its file and its number of records. */
  ghost predicate Each(test: Test, logs: seq<seq<LogRecord>>, files: seq<Text>, n: seq<nat>) {
    |files| == |logs| == |n| && forall i | 0 <= i < |logs| :: test(logs[i], files[i], n[i])
  }

  lemma OneMore(test: Test, logs: seq<seq<LogRecord>>, files: seq<Text>, ns: seq<nat>, k: nat)
    requires |logs| == |files| > 0
    requires var m := |logs| - 1; Each(test, logs[..m], files[..m], ns) && test(logs[m], files[m], k)
    ensures Each(test, logs, files, ns + [k])
  {
  }

  function Prefixes(logs: seq<seq<LogRecord>>, n: seq<nat>): (r: seq<seq<LogRecord>>)
    requires |n| == |logs|
    ensures |r| == |logs| && forall i | 0 <= i < |logs| && n[i] <= |logs[i]| :: r[i] == logs[i][..n[i]]
  {
    seq(|logs|, i requires 0 <= i < |logs| => if n[i] <= |logs[i]| then logs[i][..n[i]] else logs[i])
  }

  /** Entries recovered: those of the whole groups, which are among the logged ones, with no number above `highest`. */
  ghost predicate Keeps(kept: set<InternalKeys.Entry>, whole: set<InternalKeys.Entry>, logged: set<InternalKeys.Entry>,
                        highest: nat) {
    kept == whole && kept <= logged && forall e | e in kept :: e.seqno <= highest
  }

  ghost predicate GivesBack(paranoid: bool, rank: Rank, logs: seq<seq<LogRecord>>, files: seq<Text>, n: seq<nat>) {
    && |logs| == |files| == |n| && RecoveredAll(paranoid, files).Some?
    && Keeps(EntriesOf(rank, RecoveredAll(paranoid, files).value), Logged(rank, Prefixes(logs, n)), Logged(rank, logs),
             HighestInAll(files))
  }

  lemma OneFile(paranoid: bool, rank: Rank, log: seq<LogRecord>, file: Text, last: nat) returns (n: nat)
    requires Writable(log) && Within(log, last) && file <= LogBytes(log)
    ensures WholeGroups(log, file, n) && Recovered(paranoid, file) == Some(InsertionsOf(log[..n]))
    ensures HighestIn(file) <= last
    ensures var part := EntriesOf(rank, InsertionsOf(log[..n]));
            Keeps(part, part, EntriesOf(rank, InsertionsOf(log)), HighestIn(file))
  {
    assert LogBytes(log)[..|file|] == file;
    n := CutLogRecovers(paranoid, log, |file|);
    PrefixInsertions(rank, log, n);
    WithinLast(rank, log[..n], last);
  }

  lemma {:induction false} CutLogsGiveBack(paranoid: bool, rank: Rank, logs: seq<seq<LogRecord>>, files: seq<Text>,
                                           last: nat)
    returns (n: seq<nat>)
    requires AllWritable(logs, last) && IsCut(logs, files)
    ensures Each(WholeTest(), logs, files, n) && GivesBack(paranoid, rank, logs, files, n)
    ensures HighestInAll(files) <= last
    decreases |logs|
  {
    n := [];
    if logs != [] {
      var m := |logs| - 1;
      var ns := CutLogsGiveBack(paranoid, rank, logs[..m], files[..m], last);
      var k := OneFile(paranoid, rank, logs[m], files[m], last);
      n := ns + [k];
      OneMore(WholeTest(), logs, files, ns, k);
      OneFileMore(paranoid, rank, logs, files, ns, k);
    }
  }

  lemma OneFileMore(paranoid: bool, rank: Rank, logs: seq<seq<LogRecord>>, files: seq<Text>, ns: seq<nat>, k: nat)
    requires |logs| == |files| > 0
    requires var m := |logs| - 1;
             && GivesBack(paranoid, rank, logs[..m], files[..m], ns) && k <= |logs[m]|
             && Recovered(paranoid, files[m]) == Some(InsertionsOf(logs[m][..k]))
             && var part := EntriesOf(rank, InsertionsOf(logs[m][..k]));
                Keeps(part, part, EntriesOf(rank, InsertionsOf(logs[m])), HighestIn(files[m]))
    ensures GivesBack(paranoid, rank, logs, files, ns + [k])
  {
    var m, n := |logs| - 1, ns + [k];
    assert Prefixes(logs, n)[..m] == Prefixes(logs[..m], ns);
    var before, part := RecoveredAll(paranoid, files[..m]).value, InsertionsOf(logs[m][..k]);
    EntriesOfConcat(rank, before, part);
    KeepsBoth(EntriesOf(rank, before), Logged(rank, Prefixes(logs[..m], ns)), Logged(rank, logs[..m]),
              HighestInAll(files[..m]), EntriesOf(rank, part), EntriesOf(rank, InsertionsOf(logs[m])),
              HighestIn(files[m]));
  }

  lemma KeepsBoth(kept: set<InternalKeys.Entry>, whole: set<InternalKeys.Entry>, logged: set<InternalKeys.Entry>,
                  highest: nat, part: set<InternalKeys.Entry>, more: set<InternalKeys.Entry>, last: nat)
    requires Keeps(kept, whole, logged, highest) && Keeps(part, part, more, last)
    ensures Keeps(kept + part, whole + part, logged + more, Max(highest, last))
  {
  }

  // ----- the store -----

  /** A reader at the last sequence number sees the plain rule over the history. */
  ghost predicate ReadsItsHistory(s: Store.State) {
    forall key :: InternalKeys.Reading(Store.AllEntries(s), key, s.lastSeq)
               == InternalKeys.Reading(s.history, key, s.lastSeq)
  }

  /** The store opened with these remains has them in its memtable, keeps the invariant, and reads like the history
      without what was lost. */
  ghost predicate OpensWell(d: Db, r: Remains) {
    && CanRemain(d, r) && DbInv(Db(Reopened(d, r), d.flushed)) && ReadsItsHistory(Reopened(d, r))
  }

  lemma RemainsOpenWell(d: Db, r: Remains)
    requires DbInv(d) && CanRemain(d, r)
    ensures OpensWell(d, r)
  {
    CrashKeepsInv(d, r);
  }

  /** The numbers that the manifest gives back: a last sequence number from the last flush on, and a next file
      number above all files. */
  ghost predicate GoodNumbers(d: Db, last: nat, nextFile: nat) {
    && d.flushed <= last <= d.s.lastSeq
    && forall l | 0 <= l < |d.s.version| :: Store.BelowNext(d.s.version[l], nextFile)
  }

  /** The logs hold the memtables, and each is cut at any byte.  The store that is opened then has the entries of the
      whole groups in its memtable, and reads like the history without the others. */
  lemma ReopenReadsWhatSurvived(paranoid: bool, d: Db, rank: Rank, logs: seq<seq<LogRecord>>, files: seq<Text>,
                                last: nat, nextFile: nat)
    returns (n: seq<nat>, r: Remains)
    requires DbInv(d) && Memory(d.s) == Logged(rank, logs) && AllWritable(logs, d.s.lastSeq) && IsCut(logs, files)
    requires GoodNumbers(d, last, nextFile)
    ensures Each(WholeTest(), logs, files, n) && GivesBack(paranoid, rank, logs, files, n)
    ensures r == Remains(EntriesOf(rank, RecoveredAll(paranoid, files).value), Max(HighestInAll(files), last), nextFile)
    ensures OpensWell(d, r)
  {
    n := CutLogsGiveBack(paranoid, rank, logs, files, d.s.lastSeq);
    r := Remains(EntriesOf(rank, RecoveredAll(paranoid, files).value), Max(HighestInAll(files), last), nextFile);
    assert CanRemain(d, r);
    RemainsOpenWell(d, r);
  }

  // ----- the program -----

  /** DBImpl::Recover: the version from the manifest, then the log files from the oldest to the newest, of which only
      the last can be reused. */
  method Open(paranoid: bool, reuseLogs: bool, full: seq<Insertion> -> bool, rank: Rank, name: Text, manifest: Text,
              files: seq<Text>)
    returns (version: Option<ManifestRecovery.Recovered>, r: Option<Replay>, last: nat)
    ensures ManifestRecovery.RecoveryOf(rank, ManifestRecovery.EditsIn(name, manifest), version)
    ensures r.Some? <==> version.Some? && RecoveredAll(paranoid, files).Some?
    ensures r.Some? ==>
              && ReplayOf(paranoid, files, r.value, HighestInAll(files)) && (r.value.memtable.Some? ==> reuseLogs)
              && last == Max(HighestInAll(files), version.value.lastSequence)
  {
    r, last := None, 0;
    version := ManifestRecovery.Recover(rank, name, manifest);
    if version.Some? {
      var maxSequence;
      r, maxSequence := ReplayFiles(paranoid, reuseLogs, full, files);
      last := Max(maxSequence, version.value.lastSequence);
    }
  }

  /** Tables and memtable hold, in order, what is recovered from the files. */
  ghost predicate ReplayOf(paranoid: bool, files: seq<Text>, r: Replay, highest: nat) {
    && RecoveredAll(paranoid, files) == Some(Joined(r.tables) + InMem(r.memtable))
    && highest == HighestInAll(files)
  }

  method ReplayFiles(paranoid: bool, reuseLogs: bool, full: seq<Insertion> -> bool, files: seq<Text>)
    returns (r: Option<Replay>, maxSequence: nat)
    ensures r.Some? <==> RecoveredAll(paranoid, files).Some?
    ensures r.Some? ==>
              ReplayOf(paranoid, files, r.value, maxSequence) && (r.value.memtable.Some? ==> reuseLogs)
  {
    maxSequence := 0;
    NoFiles(paranoid);
    assert files[..0] == [];
    r := Some(Replay([], None));
    for i := 0 to |files|
      invariant r.Some? && ReplayOf(paranoid, files[..i], r.value, maxSequence)
      invariant r.value.memtable.Some? ==> reuseLogs && i == |files|
    {
      var one, highest := RecoverLogFile(paranoid, reuseLogs && i == |files| - 1, full, files[i]);
      if one.None? {
        OneBadFile(paranoid, files, i);
        return None, 0;
      }
      OneGoodFile(paranoid, files, i, r.value, maxSequence, one.value);
      r := Some(Replay(r.value.tables + one.value.tables, one.value.memtable));
      maxSequence := Max(maxSequence, highest);
    }
    assert files[..|files|] == files;
  }

  lemma NoFiles(paranoid: bool)
    ensures RecoveredAll(paranoid, []) == Some([]) && HighestInAll([]) == 0 && Joined([]) + InMem(None) == []
  {
  }

  lemma OneGoodFile(paranoid: bool, files: seq<Text>, i: nat, r: Replay, highest: nat, one: Replay)
    requires i < |files| && ReplayOf(paranoid, files[..i], r, highest) && r.memtable.None?
    requires Recovered(paranoid, files[i]) == Some(Joined(one.tables) + InMem(one.memtable))
    ensures ReplayOf(paranoid, files[..i + 1], Replay(r.tables + one.tables, one.memtable),
                     Max(highest, HighestIn(files[i])))
  {
    OneFileRecovered(paranoid, files, i);
    JoinedReplays(r, one);
  }

  lemma JoinedReplays(r: Replay, one: Replay)
    requires r.memtable.None?
    ensures Joined(r.tables + one.tables) + InMem(one.memtable)
         == Joined(r.tables) + InMem(r.memtable) + (Joined(one.tables) + InMem(one.memtable))
  {
    JoinedConcat(r.tables, one.tables);
  }

  lemma OneFileRecovered(paranoid: bool, files: seq<Text>, i: nat)
    requires i < |files| && RecoveredAll(paranoid, files[..i]).Some? && Recovered(paranoid, files[i]).Some?
    ensures RecoveredAll(paranoid, files[..i + 1])
            == Some(RecoveredAll(paranoid, files[..i]).value + Recovered(paranoid, files[i]).value)
    ensures HighestInAll(files[..i + 1]) == Max(HighestInAll(files[..i]), HighestIn(files[i]))
  {
    assert files[..i + 1][..i] == files[..i];
  }

  lemma OneBadFile(paranoid: bool, files: seq<Text>, i: nat)
    requires i < |files| && Recovered(paranoid, files[i]).None?
    ensures RecoveredAll(paranoid, files).None?
  {
    assert files[..i + 1][..i] == files[..i];
    BadFileStops(paranoid, files, i + 1);
  }

  lemma {:induction false} BadFileStops(paranoid: bool, files: seq<Text>, i: nat)
    requires i <= |files| && RecoveredAll(paranoid, files[..i]).None?
    ensures RecoveredAll(paranoid, files).None?
    decreases |files| - i
  {
    if i == |files| {
      assert files[..i] == files;
    } else {
      assert files[..i + 1][..i] == files[..i];
      BadFileStops(paranoid, files, i + 1);
    }
  }

  lemma {:induction false} JoinedConcat(a: seq<seq<Insertion>>, b: seq<seq<Insertion>>)
    ensures Joined(a + b) == Joined(a) + Joined(b)
    decreases |b|
  {
    if b == [] {
      assert a + b == a;
    } else {
      var m, t := |b| - 1, b[|b| - 1];
      JoinedConcat(a, b[..m]);
      OneTableMore(a + b[..m], t);
      OneTableMore(b[..m], t);
      assert a + b == a + b[..m] + [t] && b == b[..m] + [t];
    }
  }
}
