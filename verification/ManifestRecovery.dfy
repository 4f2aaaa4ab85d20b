/** VersionSet::Recover (db/version_set.cc) on any bytes, and what it makes of a manifest that was cut at some byte: the
    version as it was after a prefix of the records. */
module ManifestRecovery {
  import opened Options
  import opened Bytes
  import opened Varints
  import opened Manifests
  import EditCodec
  import opened VersionSets
  import opened LogFormat
  import opened LogReplay
  import LogFiles

  datatype Recovered = Recovered(files: seq<seq<Meta>>, logNumber: nat, prevLog: nat, nextFile: nat, lastSequence: nat)

  // ----- the records of a file -----

  /** The edit of a record, unless it does not decode or names another comparator. */
  function EditOf(name: Text, record: Text): Option<VersionEdit> {
    match EditCodec.ReadFrom(record, EditCodec.BLANK)
    case None => None
    case Some(e) => if Named(e, name) then Some(e) else None
  }

  ghost predicate AllDecode(name: Text, records: seq<Text>) {
    forall r | r in records :: EditOf(name, r).Some?
  }

  ghost function Edits(name: Text, records: seq<Text>): (r: seq<VersionEdit>)
    requires AllDecode(name, records)
    ensures |r| == |records| && forall i | 0 <= i < |r| :: EditOf(name, records[i]) == Some(r[i])
  {
    seq(|records|, i requires 0 <= i < |records| => assert records[i] in records; EditOf(name, records[i]).value)
  }

  /** The edits of a file, unless bytes are dropped or a record is bad. */
  ghost function EditsIn(name: Text, data: Text): Option<seq<VersionEdit>> {
    Held(name, Drain(data, CRC, START, NO_DROPS))
  }

  ghost function Held(name: Text, read: (seq<Text>, seq<nat>)): Option<seq<VersionEdit>> {
    if read.1 == [] && AllDecode(name, read.0) then Some(Edits(name, read.0)) else None
  }

  method ReadFile(data: Text) returns (records: seq<Text>, drops: seq<nat>)
    ensures (records, drops) == Drain(data, CRC, START, NO_DROPS)
  {
    var reader := new LogFiles.Reader(CRC, data);
    records := reader.ReadAll();
    drops := reader.drops;
  }

  // ----- the numbers -----

  type Number = VersionEdit -> Option<nat>

  /** The value of the last record that has one. */
  ghost predicate IsLatest(edits: seq<VersionEdit>, number: Number, r: Option<nat>) {
    if r.None? then NoneHas(edits, number, 0)
    else exists i :: 0 <= i < |edits| && number(edits[i]) == r && NoneHas(edits, number, i + 1)
  }

  ghost predicate NoneHas(edits: seq<VersionEdit>, number: Number, i: nat) {
    forall j | i <= j < |edits| :: number(edits[j]).None?
  }

  lemma LatestStep(edits: seq<VersionEdit>, e: VersionEdit, number: Number, was: Option<nat>)
    requires IsLatest(edits, number, was)
    ensures IsLatest(edits + [e], number, Latest(was, number(e)))
  {
    var n, after := |edits|, edits + [e];
    if number(e).Some? {
      assert number(after[n]) == number(e) && NoneHas(after, number, n + 1);
    } else if was.Some? {
      var k :| 0 <= k < n && number(edits[k]) == was && NoneHas(edits, number, k + 1);
      assert number(after[k]) == was && NoneHas(after, number, k + 1);
    }
  }

  lemma LatestIsLast(edits: seq<VersionEdit>, number: Number, r: Option<nat>)
    requires edits != [] && IsLatest(edits, number, r) && number(edits[|edits| - 1]).Some?
    ensures r == number(edits[|edits| - 1])
  {
  }

  const LOG_NUMBER: Number := (e: VersionEdit) => e.logNumber
  const PREV_LOG: Number := (e: VersionEdit) => e.prevLog
  const NEXT_FILE: Number := (e: VersionEdit) => e.nextFile
  const LAST_SEQUENCE: Number := (e: VersionEdit) => e.lastSequence

  /** The latest of each number in the first records. */
  ghost predicate Collected(edits: seq<VersionEdit>, log: Option<nat>, prev: Option<nat>, next: Option<nat>,
                            last: Option<nat>) {
    && IsLatest(edits, LOG_NUMBER, log) && IsLatest(edits, PREV_LOG, prev)
    && IsLatest(edits, NEXT_FILE, next) && IsLatest(edits, LAST_SEQUENCE, last)
  }

  lemma CollectOneMore(edits: seq<VersionEdit>, e: VersionEdit, log: Option<nat>, prev: Option<nat>,
                       next: Option<nat>, last: Option<nat>)
    requires Collected(edits, log, prev, next, last)
    ensures Collected(edits + [e], Latest(log, e.logNumber), Latest(prev, e.prevLog), Latest(next, e.nextFile),
                      Latest(last, e.lastSequence))
  {
    LatestStep(edits, e, LOG_NUMBER, log);
    LatestStep(edits, e, PREV_LOG, prev);
    LatestStep(edits, e, NEXT_FILE, next);
    LatestStep(edits, e, LAST_SEQUENCE, last);
  }

  function Latest(was: Option<nat>, now: Option<nat>): Option<nat> {
    if now.Some? then now else was
  }

  // ----- Recover -----

  ghost predicate LacksNumber(edits: seq<VersionEdit>) {
    NoneHas(edits, NEXT_FILE, 0) || NoneHas(edits, LOG_NUMBER, 0) || NoneHas(edits, LAST_SEQUENCE, 0)
  }

  /** The files that one builder saves from all edits, and the latest of each number. */
  ghost predicate RecoversTo(rank: Rank, edits: seq<VersionEdit>, s: Recovered) {
    && Replays(rank, edits, |edits|, s.files) && s.nextFile > 0
    && Collected(edits, Some(s.logNumber),
                 if s.prevLog == 0 && NoneHas(edits, PREV_LOG, 0) then None else Some(s.prevLog),
                 Some(s.nextFile - 1), Some(s.lastSequence))
  }

  function StatesAfter(rank: Rank, edits: seq<VersionEdit>, i: nat): (r: seq<LevelState>)
    requires i <= |edits|
    ensures |r| == LEVELS
  {
    seq(LEVELS, l requires 0 <= l < LEVELS => Replayed(rank, OfLevel(edits, l), i))
  }

  lemma OneMoreAt(rank: Rank, edits: seq<VersionEdit>, e: VersionEdit, l: nat)
    ensures Replayed(rank, OfLevel(edits + [e], l), |edits| + 1)
            == ApplyLevel(rank, BuilderAt(rank, edits, l), LevelOf(e, l))
  {
    OfLevelAppend(edits, e, l);
    ReplayOneMore(rank, OfLevel(edits, l), LevelOf(e, l));
  }

  /** Builder::Apply on every level. */
  method ApplyToAll(rank: Rank, states: seq<LevelState>, e: VersionEdit, ghost edits: seq<VersionEdit>)
    returns (r: seq<LevelState>)
    requires states == StatesAfter(rank, edits, |edits|)
    ensures r == StatesAfter(rank, edits + [e], |edits| + 1)
  {
    r := [];
    for l := 0 to LEVELS
      invariant |r| == l && forall m: nat | m < l :: r[m] == Replayed(rank, OfLevel(edits + [e], m), |edits| + 1)
    {
      OneMoreAt(rank, edits, e, l);
      r := r + [ApplyLevel(rank, states[l], LevelOf(e, l))];
    }
  }

  /** Builder::SaveTo on every level, from an empty base. */
  method SaveAll(rank: Rank, states: seq<LevelState>, ghost edits: seq<VersionEdit>) returns (v: seq<seq<Meta>>)
    requires states == StatesAfter(rank, edits, |edits|)
    ensures Replays(rank, edits, |edits|, v)
  {
    v := [];
    for l := 0 to LEVELS
      invariant |v| == l && forall m: nat | m < l :: ReplaysTo(rank, OfLevel(edits, m), |edits|, v[m])
    {
      ReplayedSorted(rank, OfLevel(edits, l), |edits|);
      var fs := SaveLevel(rank, [], states[l]);
      v := v + [fs];
    }
  }

  /** The loop over the records. */
  method ReadRecords(rank: Rank, name: Text, records: seq<Text>)
    returns (ok: bool, states: seq<LevelState>, log: Option<nat>, prev: Option<nat>, next: Option<nat>,
             last: Option<nat>)
    ensures ok <==> AllDecode(name, records)
    ensures ok ==> && states == StatesAfter(rank, Edits(name, records), |records|)
                   && Collected(Edits(name, records), log, prev, next, last)
  {
    ghost var edits: seq<VersionEdit> := [];
    ok, states, log, prev, next, last := true, seq(LEVELS, _ => NOTHING), None, None, None, None;
    assert states == StatesAfter(rank, edits, 0);
    for i := 0 to |records|
      invariant ok && AllDecode(name, records[..i]) && edits == Edits(name, records[..i])
      invariant states == StatesAfter(rank, edits, i) && Collected(edits, log, prev, next, last)
    {
      var edit := EditCodec.DecodeFrom(records[i]);
      if edit.None? || !Named(edit.value, name) {
        assert records[i] in records && EditOf(name, records[i]).None?;
        ok := false;
        return;
      }
      var e := edit.value;
      assert records[..i + 1] == records[..i] + [records[i]];
      assert AllDecode(name, records[..i + 1]) && Edits(name, records[..i + 1]) == edits + [e];
      states := ApplyToAll(rank, states, e, edits);
      CollectOneMore(edits, e, log, prev, next, last);
      log, prev, next, last := Latest(log, e.logNumber), Latest(prev, e.prevLog), Latest(next, e.nextFile),
          Latest(last, e.lastSequence);
      edits := edits + [e];
    }
    assert records[..|records|] == records;
  }

  /** What Recover makes of edits, if there are any: an error if a number is missing. */
  ghost predicate RecoveryOf(rank: Rank, edits: Option<seq<VersionEdit>>, r: Option<Recovered>) {
    match edits
    case None => r.None?
    case Some(edits) => (r.None? <==> LacksNumber(edits)) && (r.Some? ==> RecoversTo(rank, edits, r.value))
  }

  method RecoverFrom(rank: Rank, name: Text, records: seq<Text>, drops: seq<nat>) returns (r: Option<Recovered>)
    ensures RecoveryOf(rank, Held(name, (records, drops)), r)
  {
    var ok, states, log, prev, next, last := ReadRecords(rank, name, records);
    if drops != [] || !ok {
      return None;
    }
    r := Finish(rank, states, log, prev, next, last, Edits(name, records));
  }

  /** The checks after the loop, and the new version. */
  method Finish(rank: Rank, states: seq<LevelState>, log: Option<nat>, prev: Option<nat>, next: Option<nat>,
                last: Option<nat>, ghost edits: seq<VersionEdit>)
    returns (r: Option<Recovered>)
    requires states == StatesAfter(rank, edits, |edits|) && Collected(edits, log, prev, next, last)
    ensures RecoveryOf(rank, Some(edits), r)
  {
    if next.None? || log.None? || last.None? {
      return None;
    }
    var v := SaveAll(rank, states, edits);
    r := Some(Recovered(v, log.value, if prev.Some? then prev.value else 0, next.value + 1, last.value));
  }

  /** Recover: an error if bytes are dropped, a record does not decode or names another comparator, or no record has a
      next file number, a log number or a last sequence number. */
  method Recover(rank: Rank, name: Text, data: Text) returns (r: Option<Recovered>)
    ensures RecoveryOf(rank, EditsIn(name, data), r)
  {
    var records, drops := ReadFile(data);
    r := RecoverFrom(rank, name, records, drops);
  }

  // ----- a manifest that was cut -----

  /** The records are the edits as EncodeTo writes them. */
  ghost predicate Written(edits: seq<VersionEdit>, records: seq<Text>) {
    && |records| == |edits|
    && forall i | 0 <= i < |edits| :: EditCodec.FitsEdit(edits[i]) && EditCodec.Encodes(edits[i], records[i])
  }

  function FileOf(records: seq<Text>): Text {
    LogFrom(AddRecord(CRC), 0, records)
  }

  lemma WrittenDecodes(name: Text, edits: seq<VersionEdit>, records: seq<Text>, n: nat)
    requires Written(edits, records) && n <= |edits| && forall e | e in edits :: Named(e, name)
    ensures AllDecode(name, records[..n]) && Edits(name, records[..n]) == edits[..n]
  {
    forall i | 0 <= i < n ensures EditOf(name, records[i]) == Some(edits[i]) {
      EditCodec.RecordReads(edits[i], records[i]);
    }
  }

  /** A manifest cut at any byte holds the longest prefix of its edits that ends within it. */
  lemma CutManifestHolds(name: Text, edits: seq<VersionEdit>, records: seq<Text>, k: nat) returns (n: nat)
    requires Written(edits, records) && k <= |FileOf(records)| && forall e | e in edits :: Named(e, name)
    ensures n == WholeRecords(records, k) <= |edits|
    ensures |FileOf(records[..n])| <= k && (n < |edits| ==> k < |FileOf(records[..n + 1])|)
    ensures EditsIn(name, FileOf(records)[..k]) == Some(edits[..n])
  {
    n := CutLog(records, k);
    WrittenDecodes(name, edits, records, n);
  }

  /** A recovery from the first n edits gives the files and numbers that there were after them. */
  lemma RecoversVersion(rank: Rank, name: Text, edits: seq<VersionEdit>, versions: seq<seq<seq<Meta>>>, n: nat,
                        s: Recovered)
    requires Describes(name, edits, versions) && ReplaysTill(rank, edits, versions) && 2 <= n <= |edits|
    requires RecoversTo(rank, edits[..n], s)
    ensures HasNumbers(edits[n - 1]) && Below(versions[n - 1], s.nextFile)
    ensures var e := edits[n - 1];
            s == Recovered(versions[n - 1], e.logNumber.value, e.prevLog.value, e.nextFile.value + 1,
                           e.lastSequence.value)
  {
    var some := edits[..n];
    assert edits == some + edits[n..] && some[|some| - 1] == edits[n - 1];
    assert Replays(rank, edits, n - 1 + 1, versions[n - 1]);
    ReplaysBefore(rank, some, edits[n..], n, versions[n - 1]);
    SameFiles(rank, some, n, versions[n - 1], s.files);
    LastRecordCounts(some, s);
  }

  lemma SameFiles(rank: Rank, edits: seq<VersionEdit>, n: nat, a: seq<seq<Meta>>, b: seq<seq<Meta>>)
    requires n <= |edits| && Replays(rank, edits, n, a) && Replays(rank, edits, n, b)
    ensures a == b
  {
    forall l: nat | l < LEVELS ensures a[l] == b[l] {
      ReplayIsUnique(rank, OfLevel(edits, l), n, a[l], b[l]);
    }
  }

  lemma LastRecordCounts(edits: seq<VersionEdit>, s: Recovered)
    requires edits != [] && HasNumbers(edits[|edits| - 1]) && s.nextFile > 0
    requires Collected(edits, Some(s.logNumber),
                       if s.prevLog == 0 && NoneHas(edits, PREV_LOG, 0) then None else Some(s.prevLog),
                       Some(s.nextFile - 1), Some(s.lastSequence))
    ensures var e := edits[|edits| - 1];
            && s.logNumber == e.logNumber.value && s.prevLog == e.prevLog.value
            && s.nextFile == e.nextFile.value + 1 && s.lastSequence == e.lastSequence.value
  {
    var e := edits[|edits| - 1];
    assert NEXT_FILE(e).Some? && LOG_NUMBER(e).Some? && LAST_SEQUENCE(e).Some? && PREV_LOG(e).Some?;
    LatestIsLast(edits, LOG_NUMBER, Some(s.logNumber));
    LatestIsLast(edits, PREV_LOG, Some(s.prevLog));
    LatestIsLast(edits, NEXT_FILE, Some(s.nextFile - 1));
    LatestIsLast(edits, LAST_SEQUENCE, Some(s.lastSequence));
  }

  lemma HasAllNumbers(edits: seq<VersionEdit>)
    requires edits != [] && HasNumbers(edits[|edits| - 1])
    ensures !LacksNumber(edits)
  {
    var e := edits[|edits| - 1];
    assert NEXT_FILE(e).Some? && LOG_NUMBER(e).Some? && LAST_SEQUENCE(e).Some?;
  }

  /** The version, the log numbers and the last sequence number as they were after edit n. */
  ghost predicate AsAfter(edits: seq<VersionEdit>, versions: seq<seq<seq<Meta>>>, n: nat, s: Recovered) {
    && 2 <= n <= |edits| == |versions| && HasNumbers(edits[n - 1]) && Below(s.files, s.nextFile)
    && var e := edits[n - 1];
       s == Recovered(versions[n - 1], e.logNumber.value, e.prevLog.value, e.nextFile.value + 1, e.lastSequence.value)
  }

  lemma CutRecovery(rank: Rank, name: Text, edits: seq<VersionEdit>, versions: seq<seq<seq<Meta>>>, n: nat,
                    r: Option<Recovered>)
    requires Describes(name, edits, versions) && ReplaysTill(rank, edits, versions) && 2 <= n <= |edits|
    requires RecoveryOf(rank, Some(edits[..n]), r)
    ensures r.Some? && AsAfter(edits, versions, n, r.value)
  {
    HasAllNumbers(edits[..n]);
    RecoversVersion(rank, name, edits, versions, n, r.value);
  }

  /** A manifest cut at any byte after its first edit and recovered: the state after the last edit that is whole. */
  method RecoverCut(rank: Rank, name: Text, ghost edits: seq<VersionEdit>, ghost versions: seq<seq<seq<Meta>>>,
                    records: seq<Text>, k: nat)
    returns (s: Recovered)
    requires Describes(name, edits, versions) && ReplaysTill(rank, edits, versions) && Written(edits, records)
    requires 2 <= |edits| && |FileOf(records[..2])| <= k <= |FileOf(records)|
    ensures AsAfter(edits, versions, WholeRecords(records, k), s)
    ensures WholeRecords(records, k) == |edits| <==> k == |FileOf(records)|
  {
    ghost var n := CutManifestHolds(name, edits, records, k);
    AtLeastTwo(records, n, k);
    var r := Recover(rank, name, FileOf(records)[..k]);
    CutRecovery(rank, name, edits, versions, n, r);
    s := r.value;
  }

  /** The whole manifest of a version set that meets its invariant, with its versions, files and log numbers: reopening
      gives back the files, the log numbers and the last sequence number. */
  method Reopen(rank: Rank, name: Text, ghost edits: seq<VersionEdit>, ghost versions: seq<seq<seq<Meta>>>,
                records: seq<Text>, ghost files: seq<seq<Meta>>, ghost log: nat, ghost prev: nat)
    returns (s: Recovered)
    requires Describes(name, edits, versions) && ReplaysTill(rank, edits, versions) && Written(edits, records)
    requires Ends(edits, log, prev) && versions[|versions| - 1] == files
    ensures s.files == files && s.logNumber == log && s.prevLog == prev && Below(s.files, s.nextFile)
    ensures edits[|edits| - 1].lastSequence == Some(s.lastSequence)
  {
    s := RecoverWhole(rank, name, edits, versions, records);
    EndsWith(edits, versions, s, files, log, prev);
  }

  lemma EndsWith(edits: seq<VersionEdit>, versions: seq<seq<seq<Meta>>>, s: Recovered, files: seq<seq<Meta>>, log: nat,
                 prev: nat)
    requires AsAfter(edits, versions, |edits|, s) && versions[|versions| - 1] == files && Ends(edits, log, prev)
    ensures s.files == files && s.logNumber == log && s.prevLog == prev && Below(s.files, s.nextFile)
    ensures edits[|edits| - 1].lastSequence == Some(s.lastSequence)
  {
  }

  method RecoverWhole(rank: Rank, name: Text, ghost edits: seq<VersionEdit>, ghost versions: seq<seq<seq<Meta>>>,
                      records: seq<Text>)
    returns (s: Recovered)
    requires Describes(name, edits, versions) && ReplaysTill(rank, edits, versions) && Written(edits, records)
    requires 2 <= |edits|
    ensures AsAfter(edits, versions, |edits|, s)
  {
    TwoOfAll(records);
    s := RecoverCut(rank, name, edits, versions, records, |FileOf(records)|);
  }

  /** Every edit as EncodeTo writes it. */
  method EncodeAll(edits: seq<VersionEdit>) returns (records: seq<Text>)
    requires forall e | e in edits :: EditCodec.FitsEdit(e)
    ensures Written(edits, records)
  {
    records := [];
    for i := 0 to |edits|
      invariant |records| == i && forall j | 0 <= j < i :: EditCodec.Encodes(edits[j], records[j])
    {
      var record := EditCodec.EncodeTo(edits[i]);
      records := records + [record];
    }
  }

  lemma FitsWithNumbers(edit: VersionEdit, e: VersionEdit)
    requires EditCodec.FitsEdit(edit) && HasNumbers(e)
    requires e == edit.(logNumber := e.logNumber, prevLog := e.prevLog, nextFile := e.nextFile,
                        lastSequence := e.lastSequence)
    requires e.logNumber == edit.logNumber || e.logNumber.value < TWO64
    requires e.prevLog == edit.prevLog || e.prevLog.value < TWO64
    requires e.nextFile.value < TWO64 && e.lastSequence.value < TWO64
    ensures EditCodec.FitsEdit(e)
  {
    EditCodec.SinglesFit(edit);
    EditCodec.SinglesFit(e);
  }

  lemma OneMoreFits(edits: seq<VersionEdit>, before: seq<VersionEdit>)
    requires edits != [] && edits[..|edits| - 1] == before && EditCodec.FitsEdit(edits[|edits| - 1])
    requires forall e | e in before :: EditCodec.FitsEdit(e)
    ensures forall e | e in edits :: EditCodec.FitsEdit(e)
  {
    assert edits == before + [edits[|edits| - 1]];
  }

  /** What the version set and an edit need to be written: the widths of the C++ types. */
  ghost predicate Writable(vs: VersionSet, edit: VersionEdit)
    reads vs
  {
    && (forall e | e in vs.Before() :: EditCodec.FitsEdit(e)) && EditCodec.FitsEdit(edit)
    && vs.logNumber < TWO64 && vs.prevLog < TWO64 && vs.nextFile < TWO64 && vs.lastSequence < TWO64
  }

  /** Logging an edit and reopening: the new files, the edit's own log numbers where it has them and the old ones where
      it has not, and the numbers that the version set had. */
  method LogAndReopen(vs: VersionSet, edit: VersionEdit) returns (s: Recovered)
    requires vs.Inv() && AddsApart(vs.rank, vs.files, edit) && RevivesNothing(vs.rank, vs.Before(), edit)
    requires forall a | a in edit.added :: a.file.number < vs.nextFile
    requires Named(edit, vs.name) && (edit.logNumber.Some? ==> vs.logNumber <= edit.logNumber.value < vs.nextFile)
    requires Writable(vs, edit)
    modifies vs
    ensures Installs(vs.rank, old(vs.files), edit, s.files)
    ensures s.logNumber == match edit.logNumber { case Some(n) => n case None => old(vs.logNumber) }
    ensures s.prevLog == match edit.prevLog { case Some(n) => n case None => old(vs.prevLog) }
    ensures s.nextFile == old(vs.nextFile) + 1 && s.lastSequence == old(vs.lastSequence)
  {
    ghost var before := vs.Before();
    vs.LogAndApply(edit);
    var n := |vs.manifest|;
    FitsWithNumbers(edit, vs.manifest[n - 1]);
    OneMoreFits(vs.manifest, before);
    var records := EncodeAll(vs.manifest);
    s := RecoverWhole(vs.rank, vs.name, vs.manifest, vs.versions, records);
  }

  lemma TwoOfAll(records: seq<Text>)
    requires 2 <= |records|
    ensures |FileOf(records[..2])| <= |FileOf(records)|
  {
    assert records[..|records|] == records;
    LogFileGrows(AddRecord(CRC), records, 2, |records|);
  }

  lemma AtLeastTwo(records: seq<Text>, n: nat, k: nat)
    requires 2 <= |records| && n <= |records| && |FileOf(records[..2])| <= k <= |FileOf(records)|
    requires n < |records| ==> k < |FileOf(records[..n + 1])|
    requires |FileOf(records[..n])| <= k
    ensures 2 <= n && (n == |records| <==> k == |FileOf(records)|)
  {
    AtLeastTwoOf(AddRecord(CRC), records, n, k);
  }

  lemma AtLeastTwoOf(w: Appender, records: seq<Text>, n: nat, k: nat)
    requires 2 <= |records| && n <= |records| && |LogFrom(w, 0, records[..2])| <= k <= |LogFrom(w, 0, records)|
    requires n < |records| ==> k < |LogFrom(w, 0, records[..n + 1])|
    requires |LogFrom(w, 0, records[..n])| <= k
    ensures 2 <= n && (n == |records| <==> k == |LogFrom(w, 0, records)|)
  {
    assert records[..|records|] == records;
    if n < 2 { LogFileGrows(w, records, n + 1, 2); }
    if n < |records| { LogFileGrows(w, records, n + 1, |records|); }
  }
}
