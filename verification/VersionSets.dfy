/** VersionSet (db/version_set.cc) with the records of its manifest: every LogAndApply appends one, and they replay to
    the files if and only if no edit brings back an older file. */
module VersionSets {
  import opened Options
  import opened Bytes
  import opened Manifests
  import EditCodec

  type VersionEdit = EditCodec.VersionEdit

  // ----- edits, level by level -----

  function FilesAt(added: seq<EditCodec.Addition>, l: nat): seq<Meta>
    decreases |added|
  {
    if added == [] then []
    else FileAt(added[0], l) + FilesAt(added[1..], l)
  }

  function FileAt(a: EditCodec.Addition, l: nat): seq<Meta> {
    if a.level == l then [a.file] else []
  }

  /** What an edit says of a level. */
  function LevelOf(e: VersionEdit, l: nat): LevelEdit {
    LevelEdit(set d | d in e.deleted && d.level == l :: d.number, FilesAt(e.added, l))
  }

  function OfLevel(edits: seq<VersionEdit>, l: nat): (r: seq<LevelEdit>)
    ensures |r| == |edits|
  {
    seq(|edits|, i requires 0 <= i < |edits| => LevelOf(edits[i], l))
  }

  lemma OfLevelAppend(edits: seq<VersionEdit>, e: VersionEdit, l: nat)
    ensures OfLevel(edits + [e], l) == OfLevel(edits, l) + [LevelOf(e, l)]
  {
  }

  /** The builder's state for a level after all edits. */
  function BuilderAt(rank: Rank, edits: seq<VersionEdit>, l: nat): LevelState {
    Replayed(rank, OfLevel(edits, l), |edits|)
  }

  /** One builder that is given the first n edits saves these files. */
  ghost predicate Replays(rank: Rank, edits: seq<VersionEdit>, n: nat, files: seq<seq<Meta>>)
    requires n <= |edits|
  {
    |files| == LEVELS && forall l: nat | l < LEVELS :: ReplaysTo(rank, OfLevel(edits, l), n, files[l])
  }

  /** On every level, what a builder that is given the edit alone saves. */
  ghost predicate Installs(rank: Rank, files: seq<seq<Meta>>, e: VersionEdit, v: seq<seq<Meta>>) {
    && |files| == |v| == LEVELS
    && forall l: nat | l < LEVELS :: Saves(rank, files[l], ApplyLevel(rank, NOTHING, LevelOf(e, l)), v[l])
  }

  ghost predicate SortedFiles(rank: Rank, files: seq<seq<Meta>>) {
    |files| == LEVELS && forall l: nat | l < LEVELS :: Sorted(rank, files[l])
  }

  /** The edit adds no file that is there already. */
  ghost predicate AddsApart(rank: Rank, files: seq<seq<Meta>>, e: VersionEdit) {
    |files| == LEVELS && forall l: nat | l < LEVELS :: Apart(rank, files[l], AddedFiles(rank, LevelOf(e, l)))
  }

  ghost predicate RevivesNothing(rank: Rank, edits: seq<VersionEdit>, e: VersionEdit) {
    forall l: nat | l < LEVELS :: NoneRevived(rank, BuilderAt(rank, edits, l), LevelOf(e, l))
  }

  /** Logging the edit keeps the manifest and the files in step if and only if it revives nothing. */
  lemma LoggedEditIff(rank: Rank, edits: seq<VersionEdit>, files: seq<seq<Meta>>, e: VersionEdit, v: seq<seq<Meta>>)
    requires Replays(rank, edits, |edits|, files) && AddsApart(rank, files, e) && Installs(rank, files, e, v)
    ensures Replays(rank, edits + [e], |edits| + 1, v) <==> RevivesNothing(rank, edits, e)
  {
    forall l: nat | l < LEVELS
      ensures ReplaysTo(rank, OfLevel(edits + [e], l), |edits| + 1, v[l])
         <==> NoneRevived(rank, BuilderAt(rank, edits, l), LevelOf(e, l))
    {
      OfLevelAppend(edits, e, l);
      ReplayStepIff(rank, OfLevel(edits, l), files[l], LevelOf(e, l), v[l]);
    }
  }

  lemma ReplaysBefore(rank: Rank, edits: seq<VersionEdit>, more: seq<VersionEdit>, n: nat, files: seq<seq<Meta>>)
    requires n <= |edits|
    ensures Replays(rank, edits + more, n, files) <==> Replays(rank, edits, n, files)
  {
    forall l: nat | l < LEVELS
      ensures Replayed(rank, OfLevel(edits + more, l), n) == Replayed(rank, OfLevel(edits, l), n)
    {
      assert OfLevel(edits + more, l) == OfLevel(edits, l) + OfLevel(more, l);
      ReplayedIsLocal(rank, OfLevel(edits, l), OfLevel(more, l), n);
    }
  }

  /** Builder::Apply and SaveTo over all levels, with one edit. */
  method ApplyOne(rank: Rank, files: seq<seq<Meta>>, e: VersionEdit) returns (v: seq<seq<Meta>>)
    requires SortedFiles(rank, files) && AddsApart(rank, files, e)
    ensures Installs(rank, files, e, v)
  {
    v := [];
    for l := 0 to LEVELS
      invariant |v| == l
      invariant forall m: nat | m < l :: Saves(rank, files[m], ApplyLevel(rank, NOTHING, LevelOf(e, m)), v[m])
    {
      Applied(rank, NOTHING, LevelOf(e, l));
      var fs := SaveLevel(rank, files[l], ApplyLevel(rank, NOTHING, LevelOf(e, l)));
      v := v + [fs];
    }
  }

  // ----- the snapshot -----

  function AtLevel(l: nat, fs: seq<Meta>): (r: seq<EditCodec.Addition>)
    ensures |r| == |fs| && forall i | 0 <= i < |fs| :: r[i] == EditCodec.Addition(l, fs[i])
  {
    seq(|fs|, i requires 0 <= i < |fs| => EditCodec.Addition(l, fs[i]))
  }

  /** The files of the first n levels. */
  function AllFiles(files: seq<seq<Meta>>, n: nat): seq<EditCodec.Addition>
    requires n <= |files|
  {
    if n == 0 then [] else AllFiles(files, n - 1) + AtLevel(n - 1, files[n - 1])
  }

  lemma {:induction false} FilesAtConcat(a: seq<EditCodec.Addition>, b: seq<EditCodec.Addition>, l: nat)
    ensures FilesAt(a + b, l) == FilesAt(a, l) + FilesAt(b, l)
    decreases |a|
  {
    if a == [] {
      assert a + b == b;
    } else {
      var x, xs := a[0], a[1..];
      assert (a + b)[0] == x && (a + b)[1..] == xs + b;
      FilesAtConcat(xs, b, l);
      assert FileAt(x, l) + (FilesAt(xs, l) + FilesAt(b, l)) == FileAt(x, l) + FilesAt(xs, l) + FilesAt(b, l);
    }
  }

  lemma {:induction false} FilesAtLevel(m: nat, fs: seq<Meta>, l: nat)
    ensures FilesAt(AtLevel(m, fs), l) == if m == l then fs else []
    decreases |fs|
  {
    if fs != [] {
      assert AtLevel(m, fs)[1..] == AtLevel(m, fs[1..]);
      FilesAtLevel(m, fs[1..], l);
    }
  }

  lemma OneMoreLevel(before: seq<EditCodec.Addition>, m: nat, fs: seq<Meta>, l: nat)
    ensures FilesAt(before + AtLevel(m, fs), l) == FilesAt(before, l) + if m == l then fs else []
  {
    FilesAtConcat(before, AtLevel(m, fs), l);
    FilesAtLevel(m, fs, l);
  }

  lemma {:induction false} FilesOfAll(files: seq<seq<Meta>>, n: nat, l: nat)
    requires n <= |files|
    ensures FilesAt(AllFiles(files, n), l) == if l < n then files[l] else []
    decreases n
  {
    if n > 0 {
      FilesOfAll(files, n - 1, l);
      OneMoreLevel(AllFiles(files, n - 1), n - 1, files[n - 1], l);
    }
  }

  /** WriteSnapshot: a record that adds all files. */
  function Snapshot(name: Text, files: seq<seq<Meta>>): VersionEdit {
    EditCodec.VersionEdit(Some(name), None, None, None, None, [], {}, AllFiles(files, |files|))
  }

  /** A record that names the comparator and adds the files of every level in their order, and nothing else. */
  ghost predicate IsSnapshot(e: VersionEdit, name: Text, files: seq<seq<Meta>>) {
    && e.comparator == Some(name) && e.deleted == {} && e.pointers == []
    && e.logNumber == e.prevLog == e.nextFile == e.lastSequence == None
    && |files| == LEVELS && forall l: nat | l < LEVELS :: FilesAt(e.added, l) == files[l]
  }

  lemma SnapshotReplays(rank: Rank, name: Text, files: seq<seq<Meta>>)
    requires SortedFiles(rank, files)
    ensures Replays(rank, [Snapshot(name, files)], 1, files)
    ensures IsSnapshot(Snapshot(name, files), name, files)
  {
    var e := Snapshot(name, files);
    forall l: nat | l < LEVELS ensures FilesAt(e.added, l) == files[l] {
      FilesOfAll(files, |files|, l);
    }
    forall l: nat | l < LEVELS ensures ReplaysTo(rank, OfLevel([e], l), 1, files[l]) {
      FilesOfAll(files, |files|, l);
      assert LevelOf(e, l) == LevelEdit({}, files[l]);
      assert OfLevel([e], l) == [LevelEdit({}, files[l])];
      SnapshotOfLevel(rank, files[l]);
    }
  }

  lemma SnapshotOfLevel(rank: Rank, fs: seq<Meta>)
    requires Sorted(rank, fs)
    ensures ReplaysTo(rank, [LevelEdit({}, fs)], 1, fs)
  {
    var none: seq<LevelEdit>, e := [], LevelEdit({}, fs);
    AddSorted(rank, [], fs);
    Applied(rank, NOTHING, e);
    assert none + [e] == [e] && NOTHING.deleted + {} == {} && [] + fs == fs;
    assert Replayed(rank, none, 0) == NOTHING;
    assert Saves(rank, [], NOTHING, []);
    ReplayStepIff(rank, none, [], e, fs);
  }

  /** A set that is given files in order takes them all. */
  lemma {:induction false} AddSorted(rank: Rank, before: seq<Meta>, fs: seq<Meta>)
    requires Sorted(rank, before + fs)
    ensures AddAll(rank, LevelState({}, before), fs) == LevelState({}, before + fs)
    decreases |fs|
  {
    if fs == [] {
      assert before + fs == before;
    } else {
      var f := fs[0];
      assert before + fs == before + [f] + fs[1..];
      forall i | 0 <= i < |before| ensures Lt(rank, before[i], f) {
        assert (before + fs)[i] == before[i] && (before + fs)[|before|] == f;
      }
      InsertLast(rank, before, f);
      assert {} - {f.number} == {};
      AddSorted(rank, before + [f], fs[1..]);
    }
  }

  lemma {:induction false} InsertLast(rank: Rank, before: seq<Meta>, f: Meta)
    requires forall i | 0 <= i < |before| :: Lt(rank, before[i], f)
    ensures InsertFile(rank, before, f) == before + [f]
    decreases |before|
  {
    if before != [] {
      InsertLast(rank, before[1..], f);
      assert before == [before[0]] + before[1..];
    }
  }

  // ----- the manifest -----

  predicate HasNumbers(e: VersionEdit) {
    e.logNumber.Some? && e.prevLog.Some? && e.nextFile.Some? && e.lastSequence.Some?
  }

  predicate Named(e: VersionEdit, name: Text) {
    e.comparator.Some? ==> e.comparator.value == name
  }

  ghost predicate Below(files: seq<seq<Meta>>, n: nat) {
    forall l: nat, f | l < |files| && f in files[l] :: f.number < n
  }

  /** No edit names another comparator, and every one after the snapshot has numbers, the next file number among them
      above all files of its version. */
  ghost predicate Describes(name: Text, edits: seq<VersionEdit>, versions: seq<seq<seq<Meta>>>) {
    && |versions| == |edits| && (forall e | e in edits :: Named(e, name))
    && forall n | 1 <= n < |edits| :: HasNumbers(edits[n]) && Below(versions[n], edits[n].nextFile.value)
  }

  /** The first n+1 edits replay to version n. */
  ghost predicate ReplaysTill(rank: Rank, edits: seq<VersionEdit>, versions: seq<seq<seq<Meta>>>) {
    |versions| == |edits| && forall n | 0 <= n < |edits| :: Replays(rank, edits, n + 1, versions[n])
  }

  lemma AppendIff(rank: Rank, edits: seq<VersionEdit>, versions: seq<seq<seq<Meta>>>, files: seq<seq<Meta>>,
                  e: VersionEdit, v: seq<seq<Meta>>)
    requires ReplaysTill(rank, edits, versions) && edits != [] && versions[|versions| - 1] == files
    requires AddsApart(rank, files, e) && Installs(rank, files, e, v)
    ensures ReplaysTill(rank, edits + [e], versions + [v]) <==> RevivesNothing(rank, edits, e)
  {
    LoggedEditIff(rank, edits, files, e, v);
    OneMoreReplays(rank, edits, versions, e, v);
  }

  lemma OneMoreReplays(rank: Rank, edits: seq<VersionEdit>, versions: seq<seq<seq<Meta>>>, e: VersionEdit,
                       v: seq<seq<Meta>>)
    requires ReplaysTill(rank, edits, versions)
    ensures ReplaysTill(rank, edits + [e], versions + [v]) <==> Replays(rank, edits + [e], |edits| + 1, v)
  {
    var longer, vs := edits + [e], versions + [v];
    forall n | 0 <= n < |edits| ensures Replays(rank, longer, n + 1, vs[n]) {
      EarlierReplays(rank, edits, versions, e, n);
    }
    LastDecides(rank, longer, vs);
  }

  lemma LastDecides(rank: Rank, edits: seq<VersionEdit>, versions: seq<seq<seq<Meta>>>)
    requires |edits| == |versions| > 0
    requires forall n | 0 <= n < |edits| - 1 :: Replays(rank, edits, n + 1, versions[n])
    ensures ReplaysTill(rank, edits, versions) <==> Replays(rank, edits, |edits|, versions[|edits| - 1])
  {
    var last := |edits| - 1;
    assert last + 1 == |edits|;
  }

  lemma EarlierReplays(rank: Rank, edits: seq<VersionEdit>, versions: seq<seq<seq<Meta>>>, e: VersionEdit, n: nat)
    requires ReplaysTill(rank, edits, versions) && n < |edits|
    ensures Replays(rank, edits + [e], n + 1, versions[n])
  {
    ReplaysBefore(rank, edits, [e], n + 1, versions[n]);
  }

  lemma InstalledBelow(rank: Rank, files: seq<seq<Meta>>, e: VersionEdit, v: seq<seq<Meta>>, next: nat)
    requires Installs(rank, files, e, v) && Below(files, next) && forall a | a in e.added :: a.file.number < next
    ensures Below(v, next) && SortedFiles(rank, v)
  {
    forall l: nat, f | l < LEVELS && f in v[l] ensures f.number < next {
      assert f in Elems(v[l]);
      Applied(rank, NOTHING, LevelOf(e, l));
      if f !in files[l] {
        AddsNumbers(rank, LevelState({} + LevelOf(e, l).deleted, []), FilesAt(e.added, l), f);
        FileAtLevel(e.added, l, f);
      }
    }
  }

  lemma {:induction false} FileAtLevel(added: seq<EditCodec.Addition>, l: nat, f: Meta)
    requires f in FilesAt(added, l)
    ensures EditCodec.Addition(l, f) in added
    decreases |added|
  {
    if added[0] != EditCodec.Addition(l, f) {
      FileAtLevel(added[1..], l, f);
    }
  }

  class VersionSet {
    const rank: Rank
    const name: Text                          // of the comparator
    var files: seq<seq<Meta>>                 // of the current version
    var logNumber: nat
    var prevLog: nat
    var nextFile: nat                         // next_file_number_
    var lastSequence: nat
    var manifest: seq<VersionEdit>            // the records of the descriptor log; none before the first LogAndApply
    ghost var versions: seq<seq<seq<Meta>>>   // the files after each record

    ghost predicate Good()
      reads this
    {
      && SortedFiles(rank, files) && Below(files, nextFile) && Describes(name, manifest, versions)
      && (manifest != [] ==> versions[|versions| - 1] == files && Ends(manifest, logNumber, prevLog))
    }

    /** Replaying the manifest up to any record gives the files as they were then. */
    ghost predicate Inv()
      reads this
    {
      Good() && ReplaysTill(rank, manifest, versions)
    }

    constructor (rank: Rank, name: Text)
      ensures Inv() && manifest == [] && this.rank == rank && this.name == name
    {
      this.rank, this.name := rank, name;
      files := seq(LEVELS, _ => []);
      logNumber, prevLog, nextFile, lastSequence, manifest, versions := 0, 0, 2, 0, [], [];
    }

    method NewFileNumber() returns (n: nat)
      requires Inv()
      modifies this`nextFile
      ensures Inv() && n == old(nextFile) && nextFile == n + 1
    {
      n := nextFile;
      nextFile := nextFile + 1;
    }

    /** ReuseFileNumber, for a number that has not become a table. */
    method ReuseFileNumber(n: nat)
      requires Inv() && forall l: nat | l < LEVELS :: n !in Numbers(files[l])
      modifies this`nextFile
      ensures Inv() && nextFile == if old(nextFile) == n + 1 then n else old(nextFile)
    {
      if nextFile == n + 1 {
        StillBelow(files, n);
        nextFile := n;
      }
    }

    /** The edit with the numbers that LogAndApply fills in. */
    function Completed(edit: VersionEdit): VersionEdit
      reads this
    {
      edit.(logNumber := Some(if edit.logNumber.Some? then edit.logNumber.value else logNumber),
            prevLog := Some(if edit.prevLog.Some? then edit.prevLog.value else prevLog),
            nextFile := Some(nextFile), lastSequence := Some(lastSequence))
    }

    /** What the manifest holds before an edit is appended: a new one starts with a snapshot. */
    function Before(): seq<VersionEdit>
      reads this
    {
      if manifest == [] then [Snapshot(name, files)] else manifest
    }

    /** LogAndApply, when the manifest can be written. */
    method LogAndApply(edit: VersionEdit)
      requires Inv() && AddsApart(rank, files, edit) && forall a | a in edit.added :: a.file.number < nextFile
      requires Named(edit, name) && (edit.logNumber.Some? ==> logNumber <= edit.logNumber.value < nextFile)
      modifies this
      ensures Good() && Installs(rank, old(files), edit, files)
      ensures nextFile == old(nextFile) && lastSequence == old(lastSequence)
      ensures logNumber == match edit.logNumber { case Some(n) => n case None => old(logNumber) }
      ensures prevLog == match edit.prevLog { case Some(n) => n case None => old(prevLog) }
      ensures |manifest| >= 2 && manifest[|manifest| - 1]
              == EditCodec.VersionEdit(edit.comparator, Some(logNumber), Some(prevLog), Some(nextFile),
                                       Some(lastSequence), edit.pointers, edit.deleted, edit.added)
      ensures manifest[..|manifest| - 1] == old(Before())
      ensures if old(manifest) == [] then |manifest| == 2 && IsSnapshot(manifest[0], name, old(files))
              else manifest[..|manifest| - 1] == old(manifest)
      ensures Inv() <==> RevivesNothing(rank, old(Before()), edit)
    {
      ghost var before, base := Before(), files;
      var e := Completed(edit);
      SnapshotReplays(rank, name, base);
      LogCompleted(edit, e);
      assert manifest[|manifest| - 1] == e && manifest[..|manifest| - 1] == before;
    }

    method LogCompleted(edit: VersionEdit, e: VersionEdit)
      requires Inv() && AddsApart(rank, files, edit) && forall a | a in edit.added :: a.file.number < nextFile
      requires e.deleted == edit.deleted && e.added == edit.added
      requires Named(e, name) && HasNumbers(e) && e.nextFile.value == nextFile
      modifies this
      ensures Good() && Installs(rank, old(files), edit, files)
      ensures nextFile == old(nextFile) && lastSequence == old(lastSequence)
      ensures logNumber == e.logNumber.value && prevLog == e.prevLog.value && manifest == old(Before()) + [e]
      ensures Inv() <==> RevivesNothing(rank, old(Before()), edit)
    {
      var before := Before();
      ghost var was, base := VersionsBefore(), files;
      StartReplays(rank, name, files, manifest, versions);
      SameLevels(rank, files, edit, e);
      Apply(e);
      AppendIff(rank, before, was, base, e, files);
      SameEffect(rank, base, before, edit, e, files);
    }

    /** The files before the edit, too. */
    ghost function VersionsBefore(): seq<seq<seq<Meta>>>
      reads this
    {
      if manifest == [] then [files] else versions
    }

    /** LogAndApply of an edit that has its numbers. */
    method Apply(e: VersionEdit)
      requires Good() && AddsApart(rank, files, e) && forall a | a in e.added :: a.file.number < nextFile
      requires Named(e, name) && HasNumbers(e) && e.nextFile.value == nextFile
      modifies this
      ensures Good() && Installs(rank, old(files), e, files)
      ensures nextFile == old(nextFile) && lastSequence == old(lastSequence)
      ensures logNumber == e.logNumber.value && prevLog == e.prevLog.value
      ensures manifest == old(Before()) + [e] && versions == old(VersionsBefore()) + [files]
    {
      var v := ApplyOne(rank, files, e);
      InstalledBelow(rank, files, e, v, nextFile);
      DescribesMore(name, Before(), VersionsBefore(), e, v);
      manifest, versions := Before() + [e], VersionsBefore() + [v];
      files, logNumber, prevLog := v, e.logNumber.value, e.prevLog.value;
    }
  }

  /** A new manifest starts with a snapshot. */
  lemma StartReplays(rank: Rank, name: Text, files: seq<seq<Meta>>, manifest: seq<VersionEdit>,
                     versions: seq<seq<seq<Meta>>>)
    requires SortedFiles(rank, files) && ReplaysTill(rank, manifest, versions)
    ensures ReplaysTill(rank, if manifest == [] then [Snapshot(name, files)] else manifest,
                        if manifest == [] then [files] else versions)
  {
    SnapshotReplays(rank, name, files);
  }

  lemma DescribesMore(name: Text, edits: seq<VersionEdit>, versions: seq<seq<seq<Meta>>>, e: VersionEdit,
                      v: seq<seq<Meta>>)
    requires Describes(name, edits, versions) && Named(e, name) && HasNumbers(e) && Below(v, e.nextFile.value)
    ensures Describes(name, edits + [e], versions + [v])
  {
  }

  /** The last record has the log numbers, and a snapshot is before it. */
  predicate Ends(edits: seq<VersionEdit>, logNumber: nat, prevLog: nat) {
    && |edits| >= 2
    && edits[|edits| - 1].logNumber == Some(logNumber) && edits[|edits| - 1].prevLog == Some(prevLog)
  }

  lemma StillBelow(files: seq<seq<Meta>>, n: nat)
    requires |files| == LEVELS && Below(files, n + 1) && forall l: nat | l < LEVELS :: n !in Numbers(files[l])
    ensures Below(files, n)
  {
    forall l: nat, f | l < |files| && f in files[l] ensures f.number < n {
      assert f.number in Numbers(files[l]);
    }
  }

  /** The numbers of an edit do not matter for its levels. */
  lemma SameLevels(rank: Rank, files: seq<seq<Meta>>, edit: VersionEdit, e: VersionEdit)
    requires e.deleted == edit.deleted && e.added == edit.added
    ensures AddsApart(rank, files, e) <==> AddsApart(rank, files, edit)
  {
    assert forall l: nat :: LevelOf(e, l) == LevelOf(edit, l);
  }

  lemma SameEffect(rank: Rank, files: seq<seq<Meta>>, before: seq<VersionEdit>, edit: VersionEdit, e: VersionEdit,
                   v: seq<seq<Meta>>)
    requires e.deleted == edit.deleted && e.added == edit.added
    ensures RevivesNothing(rank, before, e) <==> RevivesNothing(rank, before, edit)
    ensures Installs(rank, files, e, v) <==> Installs(rank, files, edit, v)
  {
    assert forall l: nat :: LevelOf(e, l) == LevelOf(edit, l);
  }
}
