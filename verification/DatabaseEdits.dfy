/** The edits of the database itself (db/db_impl.cc): tables get new numbers, and a trivial move takes a table one level
    down.  Such edits revive nothing, so the manifest always recovers the version. */
module DatabaseEdits {
  import opened Manifests
  import EditCodec
  import opened VersionSets

  /** The numbers that a level has ever had. */
  ghost function Had(rank: Rank, edits: seq<VersionEdit>, l: nat): set<nat> {
    Numbers(BuilderAt(rank, edits, l).added)
  }

  ghost predicate IsNew(rank: Rank, edits: seq<VersionEdit>, n: nat) {
    forall l: nat | l < LEVELS :: n !in Had(rank, edits, l)
  }

  /** A trivial move: from the level above, where it is deleted. */
  ghost predicate MovesDown(files: seq<seq<Meta>>, e: VersionEdit, a: EditCodec.Addition) {
    && 0 < a.level < |files| && a.file in files[a.level - 1]
    && EditCodec.Deletion(a.level - 1, a.file.number) in e.deleted
  }

  /** What flushes, merges and trivial moves log. */
  ghost predicate ByDatabase(rank: Rank, edits: seq<VersionEdit>, files: seq<seq<Meta>>, e: VersionEdit) {
    && (forall a | a in e.added :: a.level < LEVELS && (IsNew(rank, edits, a.file.number) || MovesDown(files, e, a)))
    && (forall a, b | a in e.added && b in e.added && a != b :: a.file.number != b.file.number)
  }

  /** No level below a file has ever had its number. */
  ghost predicate Sinks(rank: Rank, edits: seq<VersionEdit>, files: seq<seq<Meta>>) {
    forall l: nat, m: nat, f | l < m < LEVELS && l < |files| && f in files[l] :: f.number !in Had(rank, edits, m)
  }

  lemma HadHere(rank: Rank, edits: seq<VersionEdit>, files: seq<seq<Meta>>, l: nat, f: Meta)
    requires Replays(rank, edits, |edits|, files) && l < LEVELS && f in files[l]
    ensures f in BuilderAt(rank, edits, l).added && f.number in Had(rank, edits, l)
  {
    assert ReplaysTo(rank, OfLevel(edits, l), |edits|, files[l]);
    assert f in Elems(files[l]);
  }

  /** What the edit adds to a level is new there. */
  lemma AddsNew(rank: Rank, edits: seq<VersionEdit>, files: seq<seq<Meta>>, e: VersionEdit, l: nat)
    requires |files| == LEVELS && Sinks(rank, edits, files) && ByDatabase(rank, edits, files, e) && l < LEVELS
    ensures forall f | f in LevelOf(e, l).added ::
              EditCodec.Addition(l, f) in e.added && f.number !in Had(rank, edits, l)
  {
    forall f | f in LevelOf(e, l).added
      ensures EditCodec.Addition(l, f) in e.added && f.number !in Had(rank, edits, l)
    {
      FileAtLevel(e.added, l, f);
    }
  }

  lemma LevelEditIsSafe(rank: Rank, st: LevelState, fs: seq<Meta>, e: LevelEdit)
    requires Elems(fs) <= Elems(st.added) && forall f | f in e.added :: f.number !in Numbers(st.added)
    ensures Apart(rank, fs, AddedFiles(rank, e)) && NoneRevived(rank, st, e)
  {
    forall f | f in fs ensures f.number in Numbers(st.added) { assert f in Elems(fs); }
    forall g | g in AddedFiles(rank, e) ensures g in e.added {
      AddsNumbers(rank, LevelState({} + e.deleted, []), e.added, g);
    }
  }

  /** The database's edits can be logged. */
  lemma DatabaseEditIsSafe(rank: Rank, edits: seq<VersionEdit>, files: seq<seq<Meta>>, e: VersionEdit)
    requires Replays(rank, edits, |edits|, files) && Sinks(rank, edits, files) && ByDatabase(rank, edits, files, e)
    ensures AddsApart(rank, files, e) && RevivesNothing(rank, edits, e)
  {
    forall l: nat | l < LEVELS
      ensures Apart(rank, files[l], AddedFiles(rank, LevelOf(e, l)))
      ensures NoneRevived(rank, BuilderAt(rank, edits, l), LevelOf(e, l))
    {
      AddsNew(rank, edits, files, e, l);
      forall f | f in Elems(files[l]) ensures f in Elems(BuilderAt(rank, edits, l).added) {
        HadHere(rank, edits, files, l, f);
      }
      LevelEditIsSafe(rank, BuilderAt(rank, edits, l), files[l], LevelOf(e, l));
    }
  }

  lemma HadMore(rank: Rank, edits: seq<VersionEdit>, e: VersionEdit, l: nat, n: nat)
    requires n in Had(rank, edits + [e], l)
    ensures n in Had(rank, edits, l) || n in Numbers(LevelOf(e, l).added)
  {
    var st := BuilderAt(rank, edits, l);
    OfLevelAppend(edits, e, l);
    ReplayOneMore(rank, OfLevel(edits, l), LevelOf(e, l));
    ReplayedSorted(rank, OfLevel(edits, l), |edits|);
    var f :| f in BuilderAt(rank, edits + [e], l).added && f.number == n;
    AddsNumbers(rank, LevelState(st.deleted + LevelOf(e, l).deleted, st.added), LevelOf(e, l).added, f);
  }

  /** A file of the new version was there and is not deleted, or is added. */
  lemma WhereFrom(rank: Rank, edits: seq<VersionEdit>, files: seq<seq<Meta>>, e: VersionEdit, v: seq<seq<Meta>>, l: nat,
                  f: Meta)
    requires Replays(rank, edits, |edits|, files) && Sinks(rank, edits, files) && ByDatabase(rank, edits, files, e)
    requires Installs(rank, files, e, v) && l < LEVELS && f in v[l]
    ensures EditCodec.Addition(l, f) in e.added
            || (f in files[l] && EditCodec.Deletion(l, f.number) !in e.deleted)
  {
    var el := LevelOf(e, l);
    AddsNew(rank, edits, files, e, l);
    SavedInMemory(rank, files[l], el, v[l]);
    assert f in Elems(v[l]);
    if f in files[l] {
      HadHere(rank, edits, files, l, f);
      assert f.number !in Numbers(el.added);
      assert EditCodec.Deletion(l, f.number) in e.deleted ==> f.number in el.deleted;
    } else {
      AddsNumbers(rank, LevelState({} + el.deleted, []), el.added, f);
    }
  }

  lemma AddedAt(e: VersionEdit, l: nat, n: nat) returns (a: EditCodec.Addition)
    requires n in Numbers(LevelOf(e, l).added)
    ensures a in e.added && a.level == l && a.file.number == n
  {
    var f :| f in LevelOf(e, l).added && f.number == n;
    FileAtLevel(e.added, l, f);
    a := EditCodec.Addition(l, f);
  }

  lemma AddedStaysAbove(rank: Rank, edits: seq<VersionEdit>, files: seq<seq<Meta>>, e: VersionEdit, l: nat, m: nat,
                        f: Meta)
    requires |files| == LEVELS && Sinks(rank, edits, files) && ByDatabase(rank, edits, files, e) && l < m < LEVELS
    requires EditCodec.Addition(l, f) in e.added
    ensures f.number !in Had(rank, edits, m) && f.number !in Numbers(LevelOf(e, m).added)
  {
    if f.number in Numbers(LevelOf(e, m).added) {
      var _ := AddedAt(e, m, f.number);
    }
  }

  lemma KeptStaysAbove(rank: Rank, edits: seq<VersionEdit>, files: seq<seq<Meta>>, e: VersionEdit, l: nat, m: nat,
                       f: Meta)
    requires Replays(rank, edits, |edits|, files) && Sinks(rank, edits, files) && ByDatabase(rank, edits, files, e)
    requires l < m < LEVELS && f in files[l] && EditCodec.Deletion(l, f.number) !in e.deleted
    ensures f.number !in Had(rank, edits, m) && f.number !in Numbers(LevelOf(e, m).added)
  {
    HadHere(rank, edits, files, l, f);
    if f.number in Numbers(LevelOf(e, m).added) {
      var b := AddedAt(e, m, f.number);
      assert MovesDown(files, e, b);
      HadHere(rank, edits, files, m - 1, b.file);
    }
  }

  /** The database's edits keep numbers from coming up again. */
  lemma DatabaseEditSinks(rank: Rank, edits: seq<VersionEdit>, files: seq<seq<Meta>>, e: VersionEdit,
                          v: seq<seq<Meta>>)
    requires Replays(rank, edits, |edits|, files) && Sinks(rank, edits, files) && ByDatabase(rank, edits, files, e)
    requires Installs(rank, files, e, v)
    ensures Sinks(rank, edits + [e], v)
  {
    forall l: nat, m: nat, f | l < m < LEVELS && l < |v| && f in v[l] ensures f.number !in Had(rank, edits + [e], m) {
      WhereFrom(rank, edits, files, e, v, l, f);
      if EditCodec.Addition(l, f) in e.added {
        AddedStaysAbove(rank, edits, files, e, l, m, f);
      } else {
        KeptStaysAbove(rank, edits, files, e, l, m, f);
      }
      if f.number in Had(rank, edits + [e], m) { HadMore(rank, edits, e, m, f.number); }
    }
  }
}
