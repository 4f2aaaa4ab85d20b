/** Installing a flush, a trivial move or a compaction in a version (db/version_set.cc: Builder; db/db_impl.cc:
    WriteLevel0Table, BackgroundCompaction, InstallCompactionResults), and what it keeps. */
module VersionEdits {
  import opened Options
  import opened InternalKeys
  import opened Versions
  import opened InputSelection
  import Manifests

  /** BySmallestKey. */
  predicate BySmallest(f: File, g: File) {
    Before(Smallest(f), Smallest(g)) || (!Before(Smallest(g), Smallest(f)) && f.number < g.number)
  }

  ghost predicate SortedBySmallest(files: seq<File>) {
    forall i, j | 0 <= i < j < |files| :: BySmallest(files[i], files[j])
  }

  /** The result of Builder::Apply and SaveTo on one level: delete by number, add, keep sorted by smallest key. */
  ghost predicate LevelEdit(before: seq<File>, after: seq<File>, deleted: set<nat>, added: seq<File>) {
    && SortedBySmallest(after)
    && forall f :: f in after <==> (f in before && f.number !in deleted) || f in added
  }

  ghost function Numbers(files: seq<File>): set<nat> {
    set f | f in files :: f.number
  }

  ghost predicate UniqueNumbers(files: seq<File>) {
    forall f, g | f in files && g in files && f.number == g.number :: f == g
  }

  // ----- the builder's view of a level -----

  /** `meta` gives the metadata of these files: their numbers, and their order under `rank`. */
  ghost predicate Describes(rank: Manifests.Rank, meta: File -> Manifests.Meta, files: seq<File>) {
    && (forall f | f in files :: meta(f).number == f.number)
    && (forall f, g | f in files && g in files ::
          && (Manifests.Lt(rank, meta(f), meta(g)) <==> BySmallest(f, g))
          && (meta(f) == meta(g) ==> f == g))
  }

  function Metas(meta: File -> Manifests.Meta, files: seq<File>): (r: seq<Manifests.Meta>)
    ensures |r| == |files| && forall i | 0 <= i < |files| :: r[i] == meta(files[i])
  {
    seq(|files|, i requires 0 <= i < |files| => meta(files[i]))
  }

  lemma MetaIn(rank: Manifests.Rank, meta: File -> Manifests.Meta, all: seq<File>, files: seq<File>, f: File)
    requires Describes(rank, meta, all) && f in all && forall g | g in files :: g in all
    ensures meta(f) in Manifests.Elems(Metas(meta, files)) <==> f in files
  {
    var ms := Metas(meta, files);
    if f in files {
      var i :| 0 <= i < |files| && files[i] == f;
      assert ms[i] == meta(f);
    }
    if meta(f) in ms {
      var i :| 0 <= i < |ms| && ms[i] == meta(f);
      assert files[i] in files;
    }
  }

  lemma MetasSorted(rank: Manifests.Rank, meta: File -> Manifests.Meta, all: seq<File>, files: seq<File>)
    requires Describes(rank, meta, all) && forall g | g in files :: g in all
    ensures Manifests.Sorted(rank, Metas(meta, files)) <==> SortedBySmallest(files)
  {
    forall i, j | 0 <= i < j < |files|
      ensures Manifests.Lt(rank, Metas(meta, files)[i], Metas(meta, files)[j]) <==> BySmallest(files[i], files[j])
    {
      assert files[i] in files && files[j] in files;
    }
  }

  /** What the builder saves for a level is the edit of that level, and nothing else is. */
  lemma SavedIsLevelEdit(rank: Manifests.Rank, meta: File -> Manifests.Meta, before: seq<File>, after: seq<File>,
                         deleted: set<nat>, added: seq<File>)
    requires Describes(rank, meta, before + added + after) && forall f | f in added :: f.number !in deleted
    ensures Manifests.Saves(rank, Metas(meta, before), Manifests.LevelState(deleted, Metas(meta, added)),
                            Metas(meta, after))
       <==> LevelEdit(before, after, deleted, added)
  {
    var all := before + added + after;
    MetasSorted(rank, meta, all, after);
    forall f | f in all
      ensures meta(f) in Manifests.Elems(Metas(meta, after)) <==> f in after
      ensures meta(f) in Manifests.Elems(Metas(meta, before)) <==> f in before
      ensures meta(f) in Manifests.Elems(Metas(meta, added)) <==> f in added
    {
      MetaIn(rank, meta, all, after, f);
      MetaIn(rank, meta, all, before, f);
      MetaIn(rank, meta, all, added, f);
    }
    SameSets(rank, meta, before, after, deleted, added);
  }

  lemma SameSets(rank: Manifests.Rank, meta: File -> Manifests.Meta, before: seq<File>, after: seq<File>,
                 deleted: set<nat>, added: seq<File>)
    requires Describes(rank, meta, before + added + after)
    requires forall f | f in before + added + after ::
               && (meta(f) in Manifests.Elems(Metas(meta, after)) <==> f in after)
               && (meta(f) in Manifests.Elems(Metas(meta, before)) <==> f in before)
               && (meta(f) in Manifests.Elems(Metas(meta, added)) <==> f in added)
    requires forall f | f in added :: f.number !in deleted
    ensures Manifests.Elems(Metas(meta, after))
         == Manifests.Surviving(Manifests.Elems(Metas(meta, before)) + Manifests.Elems(Metas(meta, added)), deleted)
       <==> forall f :: f in after <==> (f in before && f.number !in deleted) || f in added
  {
    var all := before + added + after;
    var A, S := Manifests.Elems(Metas(meta, after)),
                Manifests.Surviving(Manifests.Elems(Metas(meta, before)) + Manifests.Elems(Metas(meta, added)),
                    deleted);
    forall f | f in all ensures meta(f) in S <==> (f in before && f.number !in deleted) || f in added {
    }
    forall m | m in A || m in S ensures exists f :: f in all && meta(f) == m {
      var files := if m in A then after else if m in Manifests.Elems(Metas(meta, before)) then before else added;
      var i :| 0 <= i < |files| && Metas(meta, files)[i] == m;
      assert files[i] in all;
    }
    if A == S {
      forall f ensures f in after <==> (f in before && f.number !in deleted) || f in added {
        assert f in after || f in before || f in added ==> f in all;
      }
    }
  }

  /** The key ranges of two files do not meet. */
  predicate Apart(f: File, g: File) {
    Before(Largest(f), Smallest(g)) || Before(Largest(g), Smallest(f))
  }

  ghost predicate PairwiseApart(files: seq<File>) {
    forall f, g | f in files && g in files && f != g :: Apart(f, g)
  }

  lemma DisjointIsApart(files: seq<File>)
    requires DisjointLevel(files)
    ensures PairwiseApart(files)
  {
    forall f, g | f in files && g in files && f != g ensures Apart(f, g) {
      var i :| 0 <= i < |files| && files[i] == f;
      var j :| 0 <= j < |files| && files[j] == g;
    }
  }

  lemma ApartIsDisjoint(files: seq<File>)
    requires ValidFiles(files) && SortedBySmallest(files) && PairwiseApart(files)
    ensures DisjointLevel(files)
  {
    forall i, j | 0 <= i < j < |files| ensures Before(Largest(files[i]), Smallest(files[j])) {
      var f, g := files[i], files[j];
      assert BySmallest(f, g) && f in files && g in files;
      assert f != g;
      WithinBounds(f, Smallest(f));
      WithinBounds(g, Smallest(g));
    }
  }

  lemma SortedHasNoDuplicates(files: seq<File>)
    requires SortedBySmallest(files)
    ensures NoDuplicates(files)
  {
    forall i, j | 0 <= i < j < |files| ensures files[i] != files[j] {
      assert BySmallest(files[i], files[j]);
    }
  }

  lemma EditValid(before: seq<File>, after: seq<File>, deleted: set<nat>, added: seq<File>)
    requires ValidFiles(before) && ValidFiles(added) && LevelEdit(before, after, deleted, added)
    ensures ValidFiles(after)
  {
    forall i | 0 <= i < |after| ensures ValidFile(after[i]) {
      assert after[i] in after;
    }
  }

  /** The entries of an edited level. */
  lemma EditEntries(before: seq<File>, after: seq<File>, deleted: set<nat>, added: seq<File>)
    requires LevelEdit(before, after, deleted, added)
    ensures Entries(after) <= Entries(before) + Entries(added)
    ensures added == [] ==> Entries(after) <= Entries(before)
  {
  }

  // ----- flushing a memtable -----

  /** What PickLevelForMemTableOutput guarantees: a file placed below level 0 overlaps nothing down to its level. */
  ghost predicate FlushLevel(v: Version, f: File, level: nat)
    requires |v| == NUM_LEVELS
  {
    && level <= MAX_MEM_COMPACT_LEVEL
    && (level > 0 ==> forall l, g | 0 <= l <= level && g in v[l] ::
          !Overlaps(g, Some(Smallest(f).key), Some(Largest(f).key)))
  }

  const MAX_MEM_COMPACT_LEVEL: nat := 2

  /** SomeFileOverlapsRange. */
  method SomeFileOverlapsRange(disjointSorted: bool, files: seq<File>, small: Key, large: Key) returns (r: bool)
    requires ValidFiles(files) && (disjointSorted ==> DisjointLevel(files))
    requires forall e | e in Entries(files) :: e.seqno <= MAX_SEQUENCE
    ensures r <==> exists f :: f in files && Overlaps(f, Some(small), Some(large))
  {
    if !disjointSorted {
      for i := 0 to |files|
        invariant forall j | 0 <= j < i :: !Overlaps(files[j], Some(small), Some(large))
      {
        if small > Largest(files[i]).key || large < Smallest(files[i]).key {
        } else {
          assert Overlaps(files[i], Some(small), Some(large));
          return true;
        }
      }
      return false;
    }
    var index := FindFile(files, LookupKey(small, MAX_SEQUENCE));
    forall i | 0 <= i < |files|
      ensures Overlaps(files[i], Some(small), Some(large)) <==> index <= i && Smallest(files[i]).key <= large
    {
      assert files[i] in files && Largest(files[i]) in files[i].entries;
      assert Largest(files[i]) in Entries(files);
    }
    if index >= |files| {
      return false;
    }
    r := !(large < Smallest(files[index]).key);
    if r {
      assert Overlaps(files[index], Some(small), Some(large));
    } else {
      forall i | index <= i < |files| ensures Smallest(files[i]).key > large {
        if index < i {
          WithinBounds(files[index], Smallest(files[index]));
          assert Before(Largest(files[index]), Smallest(files[i]));
        }
      }
    }
  }

  function TotalFileSize(size: File -> nat, files: seq<File>): nat {
    if files == [] then 0 else TotalFileSize(size, files[..|files| - 1]) + size(files[|files| - 1])
  }

  ghost predicate MeetsLevel(files: seq<File>, f: File) {
    exists g :: g in files && Overlaps(g, Some(Smallest(f).key), Some(Largest(f).key))
  }

  /** A new file may go one level below `level`: it meets no file there, and not too many bytes in the level after. */
  ghost predicate MaySink(v: Version, f: File, size: File -> nat, maxBytes: nat, level: nat)
    requires |v| == NUM_LEVELS && level < MAX_MEM_COMPACT_LEVEL
  {
    && !MeetsLevel(v[level + 1], f)
    && TotalFileSize(size, Overlapping(v[level + 2], Some(Smallest(f).key), Some(Largest(f).key))) <= maxBytes
  }

  /** The level of a new table: 0 if it meets a file there, else as far down as it may sink from level to level. */
  ghost predicate IsOutputLevel(v: Version, f: File, size: File -> nat, maxBytes: nat, level: nat)
    requires |v| == NUM_LEVELS
  {
    && level <= MAX_MEM_COMPACT_LEVEL && (MeetsLevel(v[0], f) ==> level == 0)
    && (forall l: nat | l < level :: MaySink(v, f, size, maxBytes, l))
    && (!MeetsLevel(v[0], f) && level < MAX_MEM_COMPACT_LEVEL ==> !MaySink(v, f, size, maxBytes, level))
  }

  /** PickLevelForMemTableOutput.  `maxBytes` is MaxGrandParentOverlapBytes. */
  method PickLevelForMemTableOutput(v: Version, f: File, size: File -> nat, maxBytes: nat) returns (level: nat)
    requires LevelsValid(v) && LevelsDisjoint(v) && ValidFile(f)
    requires forall l, e | 0 <= l < NUM_LEVELS && e in Entries(v[l]) :: e.seqno <= MAX_SEQUENCE
    ensures IsOutputLevel(v, f, size, maxBytes, level)
    ensures FlushLevel(v, f, level)
  {
    level := 0;
    WithinBounds(f, Smallest(f));
    var small, large := Smallest(f).key, Largest(f).key;
    var overlap := SomeFileOverlapsRange(false, v[0], small, large);
    if !overlap {
      while level < MAX_MEM_COMPACT_LEVEL
        invariant level <= MAX_MEM_COMPACT_LEVEL && forall l: nat | l < level :: MaySink(v, f, size, maxBytes, l)
      {
        var sinks := Sinks(v, f, size, maxBytes, level);
        if !sinks {
          break;
        }
        level := level + 1;
      }
    }
    SinksPastNothing(v, f, size, maxBytes, level);
  }

  /** The body of the loop: the test of the next level, and of the bytes in the one after it. */
  method Sinks(v: Version, f: File, size: File -> nat, maxBytes: nat, level: nat) returns (r: bool)
    requires LevelsValid(v) && LevelsDisjoint(v) && level < MAX_MEM_COMPACT_LEVEL
    requires forall l, e | 0 <= l < NUM_LEVELS && e in Entries(v[l]) :: e.seqno <= MAX_SEQUENCE
    ensures r <==> MaySink(v, f, size, maxBytes, level)
  {
    var small, large := Smallest(f).key, Largest(f).key;
    var overlap := SomeFileOverlapsRange(true, v[level + 1], small, large);
    if overlap {
      return false;
    }
    var overlaps, _, _ := GetOverlappingInputs(v[level + 2], false, Some(small), Some(large));
    var sum := SumOfSizes(size, overlaps);
    r := sum <= maxBytes;
  }

  method SumOfSizes(size: File -> nat, files: seq<File>) returns (sum: nat)
    ensures sum == TotalFileSize(size, files)
  {
    sum := 0;
    for i := 0 to |files|
      invariant sum == TotalFileSize(size, files[..i])
    {
      assert files[..i + 1][..i] == files[..i];
      sum := sum + size(files[i]);
    }
    assert files[..|files|] == files;
  }

  lemma SinksPastNothing(v: Version, f: File, size: File -> nat, maxBytes: nat, level: nat)
    requires |v| == NUM_LEVELS && IsOutputLevel(v, f, size, maxBytes, level)
    ensures FlushLevel(v, f, level)
  {
    forall l, g | 0 < level && 0 <= l <= level && g in v[l]
      ensures !Overlaps(g, Some(Smallest(f).key), Some(Largest(f).key))
    {
      assert l > 0 ==> MaySink(v, f, size, maxBytes, l - 1);
      assert !MeetsLevel(v[l], f);
    }
  }

  lemma NoOverlapNoSharedKey(f: File, g: File, x: Entry, y: Entry)
    requires ValidFile(f) && ValidFile(g) && !Overlaps(g, Some(Smallest(f).key), Some(Largest(f).key))
    requires x in f.entries && y in g.entries
    ensures x.key != y.key && Apart(f, g)
  {
    WithinBounds(f, x);
    WithinBounds(g, y);
  }

  /** Adding a flushed file at the level picked for it keeps both invariants. */
  lemma FlushKeepsVersionInv(v: Version, v': Version, f: File, level: nat)
    requires VersionInv(v) && ValidFile(f) && FlushLevel(v, f, level)
    requires NewerThan(Elems(f.entries), VersionEntries(v))
    requires forall l, g | 0 <= l < NUM_LEVELS && g in v[l] :: g.number < f.number
    requires |v'| == NUM_LEVELS && LevelEdit(v[level], v'[level], {}, [f])
    requires forall l | 0 <= l < NUM_LEVELS && l != level :: v'[l] == v[l]
    ensures VersionInv(v')
  {
    EditValid(v[level], v'[level], {}, [f]);
    assert LevelsValid(v');
    if level > 0 {
      DisjointIsApart(v[level]);
      forall g | g in v[level] ensures Apart(f, g) {
        NoOverlapNoSharedKey(f, g, Smallest(f), Smallest(g));
      }
      ApartIsDisjoint(v'[level]);
    }
    forall l, n | 0 <= l < n < NUM_LEVELS ensures NewerThan(Entries(v'[l]), Entries(v'[n])) {
      assert NewerThan(Entries(v[l]), Entries(v[n]));
      if l == level {
        FlushedIsNewest(v, f, n);
        EditNewerAbove(v[l], v'[l], [f], Entries(v[n]));
      } else if n == level {
        NoSharedKeysAbove(v, f, level, l);
        EditNewerBelow(v[n], v'[n], {}, [f], Entries(v[l]));
      }
    }
    if level == 0 {
      FlushKeepsAge(v, v'[0], f);
      SortedHasNoDuplicates(v'[0]);
    }
  }

  lemma FlushedIsNewest(v: Version, f: File, n: int)
    requires |v| == NUM_LEVELS && 0 <= n < NUM_LEVELS && NewerThan(Elems(f.entries), VersionEntries(v))
    ensures NewerThan(Entries([f]), Entries(v[n]))
  {
    assert forall e | e in Entries([f]) :: e in Elems(f.entries);
    assert forall e | e in Entries(v[n]) :: e in VersionEntries(v);
  }

  lemma NoSharedKeysAbove(v: Version, f: File, level: nat, l: nat)
    requires LevelsValid(v) && ValidFile(f) && FlushLevel(v, f, level) && l < level
    ensures NewerThan(Entries(v[l]), Entries([f]))
  {
    forall y, x | y in Entries(v[l]) && x in Entries([f]) ensures x.key != y.key {
      var g: File :| g in v[l] && y in g.entries;
      var i :| 0 <= i < |v[l]| && v[l][i] == g;
      assert ValidFile(v[l][i]);
      NoOverlapNoSharedKey(f, g, x, y);
    }
  }

  lemma EditNewerAbove(before: seq<File>, after: seq<File>, added: seq<File>, B: set<Entry>)
    requires LevelEdit(before, after, {}, added) && NewerThan(Entries(before), B) && NewerThan(Entries(added), B)
    ensures NewerThan(Entries(after), B)
  {
    EditEntries(before, after, {}, added);
  }

  lemma EditNewerBelow(before: seq<File>, after: seq<File>, deleted: set<nat>, added: seq<File>, A: set<Entry>)
    requires LevelEdit(before, after, deleted, added) && NewerThan(A, Entries(before)) && NewerThan(A, Entries(added))
    ensures NewerThan(A, Entries(after))
  {
    EditEntries(before, after, deleted, added);
  }

  lemma FlushKeepsAge(v: Version, after: seq<File>, f: File)
    requires |v| == NUM_LEVELS && OrderedByAge(v[0]) && LevelEdit(v[0], after, {}, [f])
    requires forall g | g in v[0] :: g.number < f.number
    requires NewerThan(Elems(f.entries), VersionEntries(v))
    ensures OrderedByAge(after)
  {
    forall g | g in v[0] ensures NewerThan(Elems(f.entries), Elems(g.entries)) {
      forall e | e in Elems(g.entries) ensures e in VersionEntries(v) {
        assert e in Entries(v[0]);
      }
    }
  }
}
