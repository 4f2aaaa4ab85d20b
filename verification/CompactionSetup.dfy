/** Setting up one compaction (db/version_set.cc: PickCompaction, CompactRange, SetupOtherInputs).  Inputs that
    PickCompaction grows from one file cover their key range without a gap; only a manual range can leave one.
    The byte-size limits only veto a choice, so they are parameters or nondeterministic.
 */
module CompactionSetup {
  import opened Options
  import opened InternalKeys
  import opened Versions
  import opened InputSelection

  // ----- key ranges without a gap -----

  ghost predicate Hit(files: seq<File>, k: Key) {
    exists f :: f in files && Overlaps(f, Some(k), Some(k))
  }

  /** The union of the files' user-key ranges is one interval. */
  ghost predicate Connected(files: seq<File>) {
    forall f, g, k | f in files && g in files && Smallest(f).key <= k <= Largest(g).key :: Hit(files, k)
  }

  /** The file's range meets the span from the smallest to the largest key of `files`. */
  ghost predicate MeetsSpan(files: seq<File>, f: File) {
    exists a, b :: a in files && b in files && Overlaps(f, Some(Smallest(a).key), Some(Largest(b).key))
  }

  lemma FileSpan(f: File)
    requires ValidFile(f)
    ensures Smallest(f).key <= Largest(f).key
  {
    WithinBounds(f, Smallest(f));
  }

  lemma OneFileConnected(f: File)
    ensures Connected([f])
  {
    forall g, h, k | g in [f] && h in [f] && Smallest(g).key <= k <= Largest(h).key ensures Hit([f], k) {
      assert f in [f] && Overlaps(f, Some(k), Some(k));
    }
  }

  /** A key that connected files miss has all of them on one side. */
  lemma MissedIsOutside(files: seq<File>, k: Key)
    requires Connected(files) && !Hit(files, k) && forall f | f in files :: ValidFile(f)
    ensures (forall f | f in files :: Largest(f).key < k) || (forall f | f in files :: k < Smallest(f).key)
  {
    forall f | f in files ensures Largest(f).key < k || k < Smallest(f).key {
      assert !Overlaps(f, Some(k), Some(k));
    }
    if f, g :| f in files && g in files && !(Largest(f).key < k) && !(k < Smallest(g).key) {
      assert false;
    }
  }

  /** Files that meet the span of connected files leave no gap either. */
  lemma GrowConnected(part: seq<File>, files: seq<File>)
    requires Connected(part) && forall f | f in files :: ValidFile(f)
    requires forall f | f in part :: f in files
    requires forall f | f in files :: f in part || MeetsSpan(part, f)
    ensures Connected(files)
  {
    forall f, g, k | f in files && g in files && Smallest(f).key <= k <= Largest(g).key ensures Hit(files, k) {
      if !Hit(files, k) {
        MissedByMore(part, files, k);
        assert false;
      }
    }
  }

  lemma MissedByMore(part: seq<File>, files: seq<File>, k: Key)
    requires Connected(part) && !Hit(files, k) && forall f | f in files :: ValidFile(f)
    requires forall f | f in part :: f in files
    requires forall f | f in files :: f in part || MeetsSpan(part, f)
    ensures (forall f | f in files :: Largest(f).key < k) || (forall f | f in files :: k < Smallest(f).key)
  {
    if h :| h in part && Overlaps(h, Some(k), Some(k)) {
      assert Hit(files, k);
    }
    MissedIsOutside(part, k);
    forall f | f in files
      ensures (forall a | a in part :: Largest(a).key < k) ==> Largest(f).key < k
      ensures (forall a | a in part :: k < Smallest(a).key) ==> k < Smallest(f).key
    {
      assert !Overlaps(f, Some(k), Some(k));
      if f !in part {
        var a, b :| a in part && b in part && Overlaps(f, Some(Smallest(a).key), Some(Largest(b).key));
      }
    }
  }

  lemma {:induction false} LinkedConnected(part: seq<File>, n: nat, files: seq<File>)
    requires n <= |files| && LinkedFrom(n, files) && forall f | f in files || f in part :: ValidFile(f)
    requires Connected(part + files[..n])
    ensures Connected(part + files)
    decreases |files| - n
  {
    if n < |files| {
      var before, after := part + files[..n], part + files[..n + 1];
      assert LinksBack(files, n);
      var j :| 0 <= j < n && Smallest(files[n]).key == Largest(files[j]).key;
      FileSpan(files[n]);
      FileSpan(files[j]);
      assert files[j] in files[..n];
      assert files[j] in before && Overlaps(files[n], Some(Smallest(files[j]).key), Some(Largest(files[j]).key));
      assert MeetsSpan(before, files[n]);
      forall f | f in after ensures f in before || f == files[n] {
      }
      GrowConnected(before, after);
      LinkedConnected(part, n + 1, files);
    } else {
      assert files[..n] == files;
    }
  }

  /** The least closed set that GetOverlappingInputs lists on level 0, starting from the span of connected files. */
  lemma ClosureConnected(files: seq<File>, part: seq<File>, lo: Entry, hi: Entry, inputs: seq<File>)
    requires Connected(part) && IsSmallestKey(part, lo) && IsLargestKey(part, hi)
    requires forall f | f in part || f in inputs :: ValidFile(f)
    requires IsLeastClosed(files, Some(lo.key), Some(hi.key), inputs)
    ensures Connected(part + inputs)
  {
    var all := part + inputs;
    forall f, g, k | f in all && g in all && Smallest(f).key <= k <= Largest(g).key ensures Hit(all, k) {
      if !Hit(all, k) {
        MissedByClosure(files, part, lo, hi, inputs, k);
        assert false;
      }
    }
  }

  /** `inputs` is closed, and part of every closed set. */
  ghost predicate IsLeastClosed(files: seq<File>, begin: Option<Key>, end: Option<Key>, inputs: seq<File>) {
    && (forall f | f in inputs :: f in files)
    && ClosedUnderOverlap(files, begin, end, set f | f in inputs)
    && forall S | ClosedUnderOverlap(files, begin, end, S) :: forall f | f in inputs :: f in S
  }

  lemma MissedByClosure(files: seq<File>, part: seq<File>, lo: Entry, hi: Entry, inputs: seq<File>, k: Key)
    requires Connected(part) && IsSmallestKey(part, lo) && IsLargestKey(part, hi)
    requires forall f | f in part || f in inputs :: ValidFile(f)
    requires IsLeastClosed(files, Some(lo.key), Some(hi.key), inputs)
    requires !Hit(part + inputs, k)
    ensures (forall f | f in part + inputs :: Largest(f).key < k) ||
            (forall f | f in part + inputs :: k < Smallest(f).key)
  {
    forall f | f in part || f in inputs ensures !Overlaps(f, Some(k), Some(k)) {
      assert f in part + inputs;
    }
    MissedIsOutside(part, k);
    var below := set f | f in inputs && Largest(f).key < k;
    var above := set f | f in inputs && k < Smallest(f).key;
    if forall f | f in part :: Largest(f).key < k {
      SideIsClosed(files, lo.key, hi.key, inputs, k, below);
      assert forall f | f in inputs :: f in below;
    } else {
      SideIsClosed(files, lo.key, hi.key, inputs, k, above);
      assert forall f | f in inputs :: f in above;
    }
  }

  lemma SideIsClosed(files: seq<File>, lo: Key, hi: Key, inputs: seq<File>, k: Key, side: set<File>)
    requires ClosedUnderOverlap(files, Some(lo), Some(hi), set f | f in inputs)
    requires forall f | f in inputs :: ValidFile(f) && (Largest(f).key < k || k < Smallest(f).key)
    requires (hi < k && side == set f | f in inputs && Largest(f).key < k)
          || (k < lo && side == set f | f in inputs && k < Smallest(f).key)
    ensures ClosedUnderOverlap(files, Some(lo), Some(hi), side)
  {
    forall f | f in inputs ensures Smallest(f).key <= Largest(f).key {
      FileSpan(f);
    }
  }

  // ----- PickCompaction -----

  /** The file a size compaction starts from: the first one that ends after the compaction pointer of the level, or
      else the first file. */
  method PickFile(files: seq<File>, pointer: Option<Entry>) returns (f: File)
    requires files != []
    ensures f in files
    ensures (forall g | g in files :: pointer.Some? && !Before(pointer.value, Largest(g))) ==> f == files[0]
    ensures forall i | 0 <= i < |files| && (pointer.None? || Before(pointer.value, Largest(files[i]))) ::
              exists j :: 0 <= j <= i && f == files[j] && (pointer.None? || Before(pointer.value, Largest(f)))
  {
    for i := 0 to |files|
      invariant i > 0 ==> pointer.Some?
      invariant forall j | 0 <= j < i :: pointer.Some? && !Before(pointer.value, Largest(files[j]))
    {
      if pointer.None? || Before(pointer.value, Largest(files[i])) {
        return files[i];
      }
    }
    return files[0];
  }

  /** What PickCompaction hands to SetupOtherInputs: one file, on level 0 with everything it reaches by overlap. */
  ghost predicate PickedFrom(level: nat, files: seq<File>, f: File, picked: seq<File>) {
    && f in files
    && if level == 0 then
         IsLeastClosed(files, Some(Smallest(f).key), Some(Largest(f).key), picked) && Picked(0, files, picked)
       else picked == [f]
  }

  method PickInputs(level: nat, files: seq<File>, f: File) returns (picked: seq<File>)
    requires ValidFiles(files) && f in files
    ensures PickedFrom(level, files, f, picked)
  {
    picked := [f];
    if level == 0 {
      ghost var b, e;
      picked, b, e := GetOverlappingInputs(files, true, Some(Smallest(f).key), Some(Largest(f).key));
      FileSpan(f);
      assert Overlaps(f, Some(Smallest(f).key), Some(Largest(f).key));
      assert f in (set f | f in picked);
      assert ClosedRange(files, picked, b, e);
      forall g | g in picked ensures g in files {
        OverlappingMember(files, b, e, g);
      }
    }
  }

  /** Automatic picks are possible starting points, contain their file and have no gap. */
  lemma AutomaticPickConnected(level: nat, files: seq<File>, f: File, picked: seq<File>)
    requires ValidFiles(files) && PickedFrom(level, files, f, picked)
    ensures Picked(level, files, picked) && f in picked && Connected(picked)
  {
    OneFileConnected(f);
    FileSpan(f);
    if level == 0 {
      assert f in [f] && IsSmallestKey([f], Smallest(f)) && IsLargestKey([f], Largest(f));
      assert Overlaps(f, Some(Smallest(f).key), Some(Largest(f).key));
      assert f in (set f | f in picked);
      ClosureConnected(files, [f], Smallest(f), Largest(f), picked);
      GrowConnected([f] + picked, picked);
    } else {
      var i :| 0 <= i < |files| && files[i] == f;
      assert picked == files[i..i + 1];
      assert SliceFrom(picked, files, i);
    }
  }

  // ----- SetupOtherInputs -----

  lemma LevelUnique(v: Version, level: nat)
    requires |v| == NUM_LEVELS && level < NUM_LEVELS && UniqueSeqs(VersionEntries(v))
    ensures UniqueSeqs(Entries(v[level]))
  {
    assert forall e | e in Entries(v[level]) :: e in VersionEntries(v);
  }

  /** GetRange, then the files of the next level that meet it. */
  method NextLevel(next: seq<File>, in0: seq<File>) returns (in1: seq<File>)
    requires ValidFiles(next) && in0 != []
    ensures NextLevelInputs(next, in0, in1)
  {
    var smallest := FindSmallestKey(in0);
    var largest := FindLargestKey(in0);
    ghost var b, e;
    in1, b, e := GetOverlappingInputs(next, false, Some(smallest.key), Some(largest.key));
  }

  lemma NextLevelMember(next: seq<File>, in0: seq<File>, in1: seq<File>, f: File)
    requires NextLevelInputs(next, in0, in1)
    ensures f in in1 <==> f in next && MeetsSpan(in0, f)
  {
    var lo, hi :| IsSmallestKey(in0, lo) && IsLargestKey(in0, hi)
                  && in1 == Overlapping(next, Some(lo.key), Some(hi.key));
    OverlappingMember(next, Some(lo.key), Some(hi.key), f);
    var a :| a in in0 && Smallest(a) == lo;
    var b :| b in in0 && Largest(b) == hi;
  }

  lemma NextLevelConnected(part: seq<File>, next: seq<File>, in0: seq<File>, in1: seq<File>)
    requires NextLevelInputs(next, in0, in1) && Connected(part + in0)
    requires forall f | f in part || f in in0 || f in next :: ValidFile(f)
    ensures Connected(part + in0 + in1)
  {
    forall f | f in in1 ensures f in next && MeetsSpan(part + in0, f) {
      NextLevelMember(next, in0, in1, f);
      var a, b :| a in in0 && b in in0 && Overlaps(f, Some(Smallest(a).key), Some(Largest(b).key));
      assert a in part + in0 && b in part + in0;
    }
    GrowConnected(part + in0, part + in0 + in1);
  }

  lemma InputsAreFiles(v: Version, level: nat, in0: seq<File>, in1: seq<File>)
    requires LevelsValid(v) && level + 1 < NUM_LEVELS && ValidInputs(v, level, in0, in1)
    ensures forall f | f in in0 :: f in v[level] && ValidFile(f)
    ensures forall f | f in in1 :: f in v[level + 1] && ValidFile(f)
  {
    forall f | f in in1 ensures f in v[level + 1] {
      NextLevelMember(v[level + 1], in0, in1, f);
    }
    LevelFilesValid(v, level);
    LevelFilesValid(v, level + 1);
  }

  lemma LevelFilesValid(v: Version, level: nat)
    requires LevelsValid(v) && level < NUM_LEVELS
    ensures forall f | f in v[level] :: ValidFile(f)
  {
  }

  /** What the attempt to grow the inputs may add: files that meet the whole span, keeping the ones there are. */
  ghost predicate Grown(v: Version, level: nat, in0: seq<File>, in1: seq<File>, more0: seq<File>)
    requires |v| == NUM_LEVELS && level + 1 < NUM_LEVELS
  {
    && UpperInputs(level, v[level], more0)
    && (forall f | f in in0 :: f in more0)
    && (Connected(in0 + in1) ==> Connected(in0 + in1 + more0))
  }

  /** The files of the level in the span of these: on level 0 all that is reached from there by overlap. */
  ghost predicate IsSpan(level: nat, files: seq<File>, all: seq<File>, inSpan: seq<File>) {
    exists lo, hi :: IsSmallestKey(all, lo) && IsLargestKey(all, hi)
        && if level == 0 then
             IsLeastClosed(files, Some(lo.key), Some(hi.key), inSpan) && Picked(0, files, inSpan)
           else inSpan == Overlapping(files, Some(lo.key), Some(hi.key))
  }

  /** The inputs of the level that SetupOtherInputs tries instead. */
  ghost predicate IsGrowth(level: nat, files: seq<File>, all: seq<File>, more0: seq<File>) {
    exists inSpan :: IsSpan(level, files, all, inSpan) && WithBoundaries(files, inSpan, more0)
  }

  /** The files of the level that meet the span of all inputs, and their boundary files. */
  method GrowUpper(v: Version, level: nat, in0: seq<File>, in1: seq<File>) returns (more0: seq<File>)
    requires VersionInv(v) && UniqueSeqs(VersionEntries(v))
    requires level + 1 < NUM_LEVELS && ValidInputs(v, level, in0, in1)
    ensures Grown(v, level, in0, in1, more0) && IsGrowth(level, v[level], in0 + in1, more0)
  {
    LevelUnique(v, level);
    InputsAreFiles(v, level, in0, in1);
    var all := in0 + in1;
    var allStart := FindSmallestKey(all);
    var allLimit := FindLargestKey(all);
    var inSpan, b, e := GetSpan(v[level], level, all, allStart, allLimit);
    more0 := CloseInputs(level, v[level], inSpan);
    LevelFilesValid(v, level);
    SpanStaysConnected(v[level], all, inSpan, more0);
  }

  lemma SpanStaysConnected(files: seq<File>, all: seq<File>, inSpan: seq<File>, more0: seq<File>)
    requires inSpan <= more0 && LinkedFrom(|inSpan|, more0)
    requires (forall f | f in more0 :: f in files) && (forall f | f in all || f in files :: ValidFile(f))
    requires Connected(all) ==> Connected(all + inSpan)
    ensures Connected(all) ==> Connected(all + more0)
    ensures forall f | f in inSpan :: f in more0
  {
    assert more0[..|inSpan|] == inSpan;
    if Connected(all) {
      LinkedConnected(all, |inSpan|, more0);
    }
  }

  method GetSpan(files: seq<File>, level: nat, all: seq<File>, allStart: Entry, allLimit: Entry)
    returns (inSpan: seq<File>, ghost b: Option<Key>, ghost e: Option<Key>)
    requires ValidFiles(files) && (level > 0 ==> DisjointLevel(files))
    requires forall f | f in all :: ValidFile(f)
    requires exists f :: f in all && f in files
    requires IsSmallestKey(all, allStart) && IsLargestKey(all, allLimit)
    ensures Picked(level, files, inSpan) && IsSpan(level, files, all, inSpan)
    ensures forall f | f in all && f in files :: f in inSpan
    ensures Connected(all) ==> Connected(all + inSpan)
  {
    inSpan, b, e := GetOverlappingInputs(files, level == 0, Some(allStart.key), Some(allLimit.key));
    forall f ensures f in inSpan <==> f in files && Overlaps(f, b, e) {
      OverlappingMember(files, b, e, f);
    }
    forall f | f in all && f in files ensures f in inSpan {
      FileSpan(f);
      assert Overlaps(f, Some(allStart.key), Some(allLimit.key));
    }
    if level == 0 {
      assert ClosedRange(files, inSpan, b, e);
      assert IsLeastClosed(files, Some(allStart.key), Some(allLimit.key), inSpan);
      if Connected(all) {
        ClosureConnected(files, all, allStart, allLimit, inSpan);
      }
    } else {
      ghost var lo := OverlappingIsSlice(files, b, e);
      if Connected(all) {
        InSpanConnected(all, allStart, allLimit, inSpan);
      }
    }
  }

  lemma InSpanConnected(all: seq<File>, lo: Entry, hi: Entry, inSpan: seq<File>)
    requires Connected(all) && IsSmallestKey(all, lo) && IsLargestKey(all, hi)
    requires forall f | f in all || f in inSpan :: ValidFile(f)
    requires forall f | f in inSpan :: Overlaps(f, Some(lo.key), Some(hi.key))
    ensures Connected(all + inSpan)
  {
    var a :| a in all && Smallest(a) == lo;
    var b :| b in all && Largest(b) == hi;
    forall f | f in inSpan ensures MeetsSpan(all, f) {
      assert Overlaps(f, Some(Smallest(a).key), Some(Largest(b).key));
    }
    GrowConnected(all, all + inSpan);
  }

  /** The grown inputs with their own next-level files still have no gap. */
  lemma GrownConnected(v: Version, level: nat, in0: seq<File>, in1: seq<File>, more0: seq<File>, more1: seq<File>)
    requires LevelsValid(v) && level + 1 < NUM_LEVELS && ValidInputs(v, level, in0, in1)
    requires Grown(v, level, in0, in1, more0) && NextLevelInputs(v[level + 1], more0, more1)
    ensures Connected(in0 + in1) ==> Connected(more0 + more1)
  {
    InputsAreFiles(v, level, in0, in1);
    InputsAreFiles(v, level, more0, more1);
    LevelFilesValid(v, level + 1);
    forall f | f in in1 ensures f in more1 {
      NextLevelMember(v[level + 1], in0, in1, f);
      NextLevelMember(v[level + 1], more0, more1, f);
      var a, b :| a in in0 && b in in0 && Overlaps(f, Some(Smallest(a).key), Some(Largest(b).key));
      assert a in more0 && b in more0;
    }
    if Connected(in0 + in1) {
      NextLevelConnected(in0 + in1, v[level + 1], more0, more1);
      GrowConnected(in0 + in1 + more0 + more1, more0 + more1);
    }
  }

  /** The second half of SetupOtherInputs: the larger inputs are taken exactly if there are more of them, they pass the
      byte-size test and they need no other number of files below. */
  ghost predicate IsExpansion(v: Version, level: nat, in0: seq<File>, in1: seq<File>, fits: bool, r0: seq<File>,
                              r1: seq<File>)
    requires |v| == NUM_LEVELS && level + 1 < NUM_LEVELS
  {
    exists e0 :: IsGrowth(level, v[level], in0 + in1, e0) && Chosen(v[level + 1], in0, in1, e0, fits, r0, r1)
  }

  ghost predicate Chosen(next: seq<File>, in0: seq<File>, in1: seq<File>, e0: seq<File>, fits: bool, r0: seq<File>,
                         r1: seq<File>)
  {
    if |e0| > |in0| && fits then
      exists e1 :: NextLevelInputs(next, e0, e1) &&
                   if |e1| == |in1| then r0 == e0 && r1 == e1 else r0 == in0 && r1 == in1
    else r0 == in0 && r1 == in1
  }

  /** What SetupOtherInputs makes of the files picked on a level. */
  ghost predicate IsSetup(v: Version, level: nat, picked: seq<File>, fits: bool, in0: seq<File>, in1: seq<File>)
    requires |v| == NUM_LEVELS && level + 1 < NUM_LEVELS
  {
    exists b0, b1 :: SetupFrom(v, level, picked, b0, b1, fits, in0, in1)
  }

  ghost predicate SetupFrom(v: Version, level: nat, picked: seq<File>, b0: seq<File>, b1: seq<File>, fits: bool,
                            in0: seq<File>, in1: seq<File>)
    requires |v| == NUM_LEVELS && level + 1 < NUM_LEVELS
  {
    && WithBoundaries(v[level], picked, b0) && NextLevelInputs(v[level + 1], b0, b1)
    && if b1 == [] then in0 == b0 && in1 == b1 else IsExpansion(v, level, b0, b1, fits, in0, in1)
  }

  /** The second half of SetupOtherInputs: grow the inputs of the level if that pulls in no further file below.
      `fits` is the byte-size test. */
  method ExpandInputs(v: Version, level: nat, in0: seq<File>, in1: seq<File>, fits: bool)
    returns (r0: seq<File>, r1: seq<File>)
    requires VersionInv(v) && UniqueSeqs(VersionEntries(v))
    requires level + 1 < NUM_LEVELS && ValidInputs(v, level, in0, in1)
    ensures ValidInputs(v, level, r0, r1)
    ensures IsExpansion(v, level, in0, in1, fits, r0, r1)
    ensures forall f | f in in0 :: f in r0
    ensures |r1| == |in1|
    ensures Connected(in0 + in1) ==> Connected(r0 + r1)
  {
    var expanded0 := GrowUpper(v, level, in0, in1);
    r0, r1 := Choose(v, level, in0, in1, expanded0, fits);
  }

  /** The inputs as they are, or the larger ones with what they need of the next level. */
  method Choose(v: Version, level: nat, in0: seq<File>, in1: seq<File>, expanded0: seq<File>, fits: bool)
    returns (r0: seq<File>, r1: seq<File>)
    requires LevelsValid(v) && level + 1 < NUM_LEVELS && ValidInputs(v, level, in0, in1)
    requires Grown(v, level, in0, in1, expanded0)
    ensures ValidInputs(v, level, r0, r1) && Chosen(v[level + 1], in0, in1, expanded0, fits, r0, r1)
    ensures forall f | f in in0 :: f in r0
    ensures |r1| == |in1|
    ensures Connected(in0 + in1) ==> Connected(r0 + r1)
  {
    r0, r1 := in0, in1;
    if |expanded0| > |in0| && fits {
      var expanded1 := NextLevel(v[level + 1], expanded0);
      GrownConnected(v, level, in0, in1, expanded0, expanded1);
      if |expanded1| == |in1| {
        r0, r1 := expanded0, expanded1;
      }
    }
  }

  /** VersionSet::SetupOtherInputs.  Inputs that start without a gap end without a gap. */
  method SetupOtherInputs(v: Version, level: nat, picked: seq<File>, fits: bool)
    returns (in0: seq<File>, in1: seq<File>)
    requires VersionInv(v) && UniqueSeqs(VersionEntries(v))
    requires level + 1 < NUM_LEVELS && Picked(level, v[level], picked)
    ensures ValidInputs(v, level, in0, in1)
    ensures IsSetup(v, level, picked, fits, in0, in1)
    ensures forall f | f in picked :: f in in0
    ensures Connected(picked) ==> Connected(in0 + in1)
  {
    var first0, first1 := FirstInputs(v, level, picked);
    in0, in1 := first0, first1;
    if first1 != [] {
      in0, in1 := ExpandInputs(v, level, first0, first1, fits);
    }
    assert SetupFrom(v, level, picked, first0, first1, fits, in0, in1);
  }

  /** The boundary files and the files of the next level. */
  method FirstInputs(v: Version, level: nat, picked: seq<File>) returns (in0: seq<File>, in1: seq<File>)
    requires VersionInv(v) && UniqueSeqs(VersionEntries(v))
    requires level + 1 < NUM_LEVELS && Picked(level, v[level], picked)
    ensures ValidInputs(v, level, in0, in1) && WithBoundaries(v[level], picked, in0)
    ensures forall f | f in picked :: f in in0
    ensures Connected(picked) ==> Connected(in0 + in1)
  {
    LevelUnique(v, level);
    in0 := CloseInputs(level, v[level], picked);
    in1 := NextLevel(v[level + 1], in0);
    LevelFilesValid(v, level);
    LevelFilesValid(v, level + 1);
    ClosedConnected(v[level + 1], picked, in0, in1);
  }

  lemma ClosedConnected(next: seq<File>, picked: seq<File>, in0: seq<File>, in1: seq<File>)
    requires picked <= in0 && LinkedFrom(|picked|, in0) && NextLevelInputs(next, in0, in1)
    requires forall f | f in in0 || f in next :: ValidFile(f)
    ensures Connected(picked) ==> Connected(in0 + in1)
    ensures forall f | f in picked :: f in in0
  {
    assert [] + in0[..|picked|] == picked && [] + in0 == in0;
    if Connected(picked) {
      LinkedConnected([], |picked|, in0);
      NextLevelConnected([], next, in0, in1);
    }
  }

  /** PickCompaction as a whole: from one file of the level to inputs without a gap. */
  method PickCompaction(v: Version, level: nat, f: File, fits: bool) returns (in0: seq<File>, in1: seq<File>)
    requires VersionInv(v) && UniqueSeqs(VersionEntries(v))
    requires level + 1 < NUM_LEVELS && f in v[level]
    ensures ValidInputs(v, level, in0, in1) && f in in0 && Connected(in0 + in1)
    ensures exists picked :: PickedFrom(level, v[level], f, picked) && IsSetup(v, level, picked, fits, in0, in1)
  {
    var picked := PickInputs(level, v[level], f);
    AutomaticPickConnected(level, v[level], f, picked);
    in0, in1 := SetupOtherInputs(v, level, picked, fits);
  }
}
