/** Installing the results of a merge compaction.  The background thread may flush memtables while a merge is
    running, so the version that receives the outputs can have grown since the inputs were chosen. */
module CompactionInstall {
  import opened Options
  import opened InternalKeys
  import opened Versions
  import opened InputSelection
  import opened CompactionSetup
  import opened Compactions
  import opened CompactionReads
  import opened VersionEdits

  /** `cur` is `base` plus files flushed since.  Their entries are newer than all of `base`, and each was put on a
      level that PickLevelForMemTableOutput allows. */
  ghost predicate GrownBy(base: Version, cur: Version) {
    && |base| == NUM_LEVELS && |cur| == NUM_LEVELS
    && (forall l, f | 0 <= l < NUM_LEVELS && f in base[l] :: f in cur[l])
    && (forall l, f | 0 <= l < NUM_LEVELS && f in cur[l] && f !in base[l] ::
          NewerThan(Elems(f.entries), VersionEntries(base)) && FlushLevel(base, f, l))
  }

  ghost predicate Installed(cur: Version, v': Version, level: nat, in0: seq<File>, in1: seq<File>, outputs: seq<File>)
    requires |cur| == NUM_LEVELS && level + 1 < NUM_LEVELS
  {
    && |v'| == NUM_LEVELS
    && LevelEdit(cur[level], v'[level], Numbers(in0), [])
    && LevelEdit(cur[level + 1], v'[level + 1], Numbers(in1), outputs)
    && forall l | 0 <= l < NUM_LEVELS && l != level && l != level + 1 :: v'[l] == cur[l]
  }

  /** A running compaction: chosen on `base`, merged input `m`. */
  ghost predicate Running(base: Version, cur: Version, level: nat, in0: seq<File>, in1: seq<File>, m: seq<Entry>) {
    && VersionInv(base) && VersionInv(cur) && GrownBy(base, cur)
    && level + 1 < NUM_LEVELS
    && (forall l | 0 <= l < NUM_LEVELS :: UniqueNumbers(cur[l]))
    && ValidInputs(base, level, in0, in1)
    && Sorted(m) && Elems(m) == Entries(in0) + Entries(in1)
  }

  // ----- files left in the output level lie on one side of everything merged -----

  ghost predicate OneSide(g: File, I: set<Entry>) {
    (forall e | e in I :: Before(Largest(g), e)) || (forall e | e in I :: Before(e, Smallest(g)))
  }

  /** An entry of an input file, next to a file that misses the range [lo, hi]. */
  lemma BesideInput(f: File, lo: Entry, hi: Entry, g: File, e: Entry)
    requires ValidFile(f) && ValidFile(g) && e in f.entries
    requires (!Before(Smallest(f), lo) && !Before(hi, Largest(f)))
          || (Overlaps(f, Some(lo.key), Some(hi.key)) && Apart(g, f))
    ensures Largest(g).key < lo.key ==> Before(Largest(g), e)
    ensures Smallest(g).key > hi.key ==> Before(e, Smallest(g))
  {
    WithinBounds(g, Smallest(g));
    WithinBounds(f, e);
    WithinBounds(f, Smallest(f));
  }

  lemma BesideInputs(next: seq<File>, in0: seq<File>, in1: seq<File>, lo: Entry, hi: Entry, g: File, e: Entry)
    requires forall f | f in in0 || f in in1 :: ValidFile(f)
    requires PairwiseApart(next)
    requires IsSmallestKey(in0, lo) && IsLargestKey(in0, hi) && in1 == Overlapping(next, Some(lo.key), Some(hi.key))
    requires g in next && g !in in1 && ValidFile(g) && e in Entries(in0) + Entries(in1)
    ensures Largest(g).key < lo.key ==> Before(Largest(g), e)
    ensures Smallest(g).key > hi.key ==> Before(e, Smallest(g))
  {
    if e in Entries(in0) {
      var f: File :| f in in0 && e in f.entries;
      BesideInput(f, lo, hi, g, e);
    } else {
      var h: File :| h in in1 && e in h.entries;
      OverlappingMember(next, Some(lo.key), Some(hi.key), h);
      BesideInput(h, lo, hi, g, e);
    }
  }

  lemma RemainingIsOneSide(next: seq<File>, in0: seq<File>, in1: seq<File>, g: File)
    requires forall f | f in in0 || f in in1 :: ValidFile(f)
    requires PairwiseApart(next) && NextLevelInputs(next, in0, in1)
    requires g in next && g !in in1 && ValidFile(g)
    ensures OneSide(g, Entries(in0) + Entries(in1))
  {
    var lo, hi :| IsSmallestKey(in0, lo) && IsLargestKey(in0, hi)
                  && in1 == Overlapping(next, Some(lo.key), Some(hi.key));
    OverlappingMember(next, Some(lo.key), Some(hi.key), g);
    forall e | e in Entries(in0) + Entries(in1)
      ensures Largest(g).key < lo.key ==> Before(Largest(g), e)
      ensures Smallest(g).key > hi.key ==> Before(e, Smallest(g))
    {
      BesideInputs(next, in0, in1, lo, hi, g, e);
    }
  }

  // ----- the outputs -----

  /** Files that can take the place of the merged inputs. */
  ghost predicate OutputShape(m: seq<Entry>, outputs: seq<File>) {
    ValidFiles(outputs) && DisjointLevel(outputs) && Entries(outputs) <= Elems(m)
  }

  lemma OutputFacts(base: Version, level: nat, m: seq<Entry>, snap: nat, outputs: seq<File>)
    requires |base| == NUM_LEVELS && Sorted(m) && CompactionOutput(base, level, m, snap, outputs)
    ensures OutputShape(m, outputs)
    ensures Entries(outputs) == Elems(Kept(base, level, m, |m|, snap))
  {
    KeptSorted(base, level, m, |m|, snap);
    CutsAreDisjoint(outputs);
    forall e ensures e in Entries(outputs) <==> e in Kept(base, level, m, |m|, snap) {
      ConcatMember(outputs, e);
    }
    forall e | e in Kept(base, level, m, |m|, snap) ensures e in Elems(m) {
      KeptMember(base, level, m, |m|, snap, e);
    }
  }

  lemma FileEntriesIn(files: seq<File>, f: File)
    requires f in files
    ensures Smallest(f) in Entries(files) && Largest(f) in Entries(files)
  {
    assert Smallest(f) in f.entries && Largest(f) in f.entries;
  }

  /** Files flushed into the output level since the compaction started keep clear of the outputs. */
  ghost predicate FlushedApart(base: Version, cur: Version, level: nat, outputs: seq<File>)
    requires |base| == NUM_LEVELS && |cur| == NUM_LEVELS && level + 1 < NUM_LEVELS
  {
    forall g, o | g in cur[level + 1] && g !in base[level + 1] && o in outputs :: Apart(g, o)
  }

  lemma DeletedByNumber(files: seq<File>, inputs: seq<File>, f: File)
    requires UniqueNumbers(files) && (forall g | g in inputs :: g in files) && f in files
    ensures f.number in Numbers(inputs) <==> f in inputs
  {
  }

  /** The files that survive in an edited level, when deletion by number means deletion of the inputs. */
  lemma EditedLevelApartIff(next: seq<File>, after: seq<File>, in1: seq<File>, outputs: seq<File>)
    requires UniqueNumbers(next) && (forall g | g in in1 :: g in next)
    requires LevelEdit(next, after, Numbers(in1), outputs)
    requires PairwiseApart(next) && PairwiseApart(outputs)
    requires forall g, o | g in next && o in outputs :: g.number != o.number
    ensures PairwiseApart(after) <==> forall g, o | g in next && g !in in1 && o in outputs :: Apart(g, o)
  {
    forall f | f in next ensures f.number in Numbers(in1) <==> f in in1 {
      DeletedByNumber(next, in1, f);
    }
  }

  /** The output level stays sorted and disjoint exactly when no file flushed meanwhile meets an output. */
  lemma OutputLevelDisjointIff(base: Version, cur: Version, v': Version, level: nat, in0: seq<File>, in1: seq<File>,
                               m: seq<Entry>, outputs: seq<File>)
    requires Running(base, cur, level, in0, in1, m) && OutputShape(m, outputs)
    requires Installed(cur, v', level, in0, in1, outputs)
    requires forall g, o | g in cur[level + 1] && o in outputs :: g.number != o.number
    ensures DisjointLevel(v'[level + 1]) <==> FlushedApart(base, cur, level, outputs)
  {
    InputsAreFiles(base, level, in0, in1);
    var next, after := cur[level + 1], v'[level + 1];
    EditValid(next, after, Numbers(in1), outputs);
    DisjointIsApart(next);
    DisjointIsApart(outputs);
    EditedLevelApartIff(next, after, in1, outputs);
    BaseFilesApart(base[level + 1], in0, in1, m, outputs);
    if DisjointLevel(after) {
      DisjointIsApart(after);
    }
    if PairwiseApart(after) {
      ApartIsDisjoint(after);
    }
  }

  lemma BaseFilesApart(next: seq<File>, in0: seq<File>, in1: seq<File>, m: seq<Entry>, outputs: seq<File>)
    requires ValidFiles(next) && DisjointLevel(next)
    requires forall f | f in in0 || f in in1 :: ValidFile(f)
    requires NextLevelInputs(next, in0, in1)
    requires Entries(outputs) <= Elems(m) == Entries(in0) + Entries(in1)
    ensures forall g, o | g in next && g !in in1 && o in outputs :: Apart(g, o)
  {
    DisjointIsApart(next);
    forall g, o | g in next && g !in in1 && o in outputs ensures Apart(g, o) {
      var i :| 0 <= i < |next| && next[i] == g;
      RemainingIsOneSide(next, in0, in1, g);
      FileEntriesIn(outputs, o);
    }
  }

  // ----- files flushed while the compaction runs -----

  /** A flushed file in the output level has a surviving entry on either side. */
  ghost predicate FlushedBetween(base: Version, cur: Version, level: nat, m: seq<Entry>, snap: nat)
    requires |base| == NUM_LEVELS && |cur| == NUM_LEVELS && level + 1 < NUM_LEVELS
  {
    exists g, a, b :: g in cur[level + 1] && g !in base[level + 1]
        && LiesBetween(g, Kept(base, level, m, |m|, snap), a, b)
  }

  ghost predicate LiesBetween(g: File, kept: seq<Entry>, a: Entry, b: Entry) {
    a in kept && b in kept && Before(a, Smallest(g)) && Before(Largest(g), b)
  }

  /** Whatever the cut of the outputs, no file flushed meanwhile meets one, if and only if no such file lies between
      two surviving entries. */
  lemma EveryCutApartIff(base: Version, cur: Version, level: nat, in0: seq<File>, in1: seq<File>, m: seq<Entry>,
                         snap: nat)
    requires Running(base, cur, level, in0, in1, m)
    ensures (forall outputs | CompactionOutput(base, level, m, snap, outputs) ::
            FlushedApart(base, cur, level, outputs))
       <==> !FlushedBetween(base, cur, level, m, snap)
  {
    if FlushedBetween(base, cur, level, m, snap) {
      UncutMeetsFlushed(base, cur, level, m, snap, 0);
    } else {
      forall outputs | CompactionOutput(base, level, m, snap, outputs) ensures FlushedApart(base, cur, level, outputs) {
        NotBetweenIsApart(base, cur, level, in0, in1, m, snap, outputs);
      }
    }
  }

  /** All surviving entries in one file. */
  ghost function Uncut(kept: seq<Entry>, number: nat): seq<File> {
    if kept == [] then [] else [File(number, kept)]
  }

  lemma UncutIsOutput(base: Version, level: nat, m: seq<Entry>, snap: nat, number: nat)
    requires |base| == NUM_LEVELS
    ensures CompactionOutput(base, level, m, snap, Uncut(Kept(base, level, m, |m|, snap), number))
  {
    var files := Uncut(Kept(base, level, m, |m|, snap), number);
    if files != [] {
      assert files[1..] == [];
    }
  }

  lemma UncutMeetsFlushed(base: Version, cur: Version, level: nat, m: seq<Entry>, snap: nat, number: nat)
    requires LevelsValid(cur) && |base| == NUM_LEVELS && level + 1 < NUM_LEVELS && Sorted(m)
    requires FlushedBetween(base, cur, level, m, snap)
    ensures var outputs := Uncut(Kept(base, level, m, |m|, snap), number);
            CompactionOutput(base, level, m, snap, outputs) && !FlushedApart(base, cur, level, outputs)
  {
    var kept := Kept(base, level, m, |m|, snap);
    KeptSorted(base, level, m, |m|, snap);
    UncutIsOutput(base, level, m, snap, number);
    var g, a, b :| g in cur[level + 1] && g !in base[level + 1] && LiesBetween(g, kept, a, b);
    LevelFilesValid(cur, level + 1);
    var o: File := File(number, kept);
    WithinBounds(o, a);
    WithinBounds(o, b);
    WithinBounds(g, Smallest(g));
    assert o in Uncut(kept, number) && !Apart(g, o);
  }

  lemma NotBetweenIsApart(base: Version, cur: Version, level: nat, in0: seq<File>, in1: seq<File>, m: seq<Entry>,
                          snap: nat, outputs: seq<File>)
    requires Running(base, cur, level, in0, in1, m) && CompactionOutput(base, level, m, snap, outputs)
    requires !FlushedBetween(base, cur, level, m, snap)
    ensures FlushedApart(base, cur, level, outputs)
  {
    OutputFacts(base, level, m, snap, outputs);
    InputsAreFiles(base, level, in0, in1);
    LevelFilesValid(cur, level + 1);
    forall g, o | g in cur[level + 1] && g !in base[level + 1] && o in outputs ensures Apart(g, o) {
      FileEntriesIn(outputs, o);
      var kept := Kept(base, level, m, |m|, snap);
      assert Smallest(o) in kept && Largest(o) in kept;
      assert !LiesBetween(g, kept, Smallest(o), Largest(o));
      BesideFlushed(base, cur, level, in0, in1, g, Smallest(o));
      BesideFlushed(base, cur, level, in0, in1, g, Largest(o));
    }
  }

  lemma FlushedMissesInput(base: Version, cur: Version, level: nat, in0: seq<File>, in1: seq<File>, g: File, f: File)
    requires GrownBy(base, cur) && level + 1 < NUM_LEVELS && g in cur[level + 1] && g !in base[level + 1]
    requires (f in in0 && f in base[level]) || (f in in1 && f in base[level + 1])
    ensures !Overlaps(f, Some(Smallest(g).key), Some(Largest(g).key))
  {
    assert FlushLevel(base, g, level + 1);
  }

  /** An input entry lies on one side of a file flushed into the output level. */
  lemma BesideFlushed(base: Version, cur: Version, level: nat, in0: seq<File>, in1: seq<File>, g: File, e: Entry)
    requires GrownBy(base, cur) && level + 1 < NUM_LEVELS && g in cur[level + 1] && g !in base[level + 1]
             && ValidFile(g)
    requires forall f | f in in0 :: f in base[level] && ValidFile(f)
    requires forall f | f in in1 :: f in base[level + 1] && ValidFile(f)
    requires e in Entries(in0) + Entries(in1)
    ensures Before(e, Smallest(g)) || Before(Largest(g), e)
  {
    var f: File :| (f in in0 || f in in1) && e in f.entries;
    FlushedMissesInput(base, cur, level, in0, in1, g, f);
    WithinBounds(f, e);
  }

  /** Inputs without a gap have every flushed file on one side, so no cut of the outputs can meet one. */
  lemma ConnectedIsSafe(base: Version, cur: Version, level: nat, in0: seq<File>, in1: seq<File>, m: seq<Entry>,
                        snap: nat)
    requires Running(base, cur, level, in0, in1, m) && Connected(in0 + in1)
    ensures !FlushedBetween(base, cur, level, m, snap)
  {
    InputsAreFiles(base, level, in0, in1);
    LevelFilesValid(cur, level + 1);
    forall g, a, b | g in cur[level + 1] && g !in base[level + 1]
      ensures !LiesBetween(g, Kept(base, level, m, |m|, snap), a, b)
    {
      forall f | f in in0 + in1 ensures !Overlaps(f, Some(Smallest(g).key), Some(Largest(g).key)) {
        FlushedMissesInput(base, cur, level, in0, in1, g, f);
      }
      ConnectedOneSide(in0 + in1, g);
      KeptOneSide(base, level, in0, in1, m, snap, g, a, b);
    }
  }

  lemma ConnectedOneSide(inputs: seq<File>, g: File)
    requires Connected(inputs) && ValidFile(g) && forall f | f in inputs :: ValidFile(f)
    requires forall f | f in inputs :: !Overlaps(f, Some(Smallest(g).key), Some(Largest(g).key))
    ensures OneSide(g, Entries(inputs))
  {
    FileSpan(g);
    var k := Smallest(g).key;
    assert !Hit(inputs, k);
    MissedIsOutside(inputs, k);
    forall e | e in Entries(inputs)
      ensures (forall f | f in inputs :: Largest(f).key < k) ==> Before(e, Smallest(g))
      ensures (forall f | f in inputs :: k < Smallest(f).key) ==> Before(Largest(g), e)
    {
      var f: File :| f in inputs && e in f.entries;
      WithinBounds(f, e);
      FileSpan(f);
    }
  }

  lemma KeptOneSide(base: Version, level: nat, in0: seq<File>, in1: seq<File>, m: seq<Entry>, snap: nat, g: File,
                    a: Entry, b: Entry)
    requires |base| == NUM_LEVELS && Elems(m) == Entries(in0) + Entries(in1) && ValidFile(g)
    requires OneSide(g, Entries(in0 + in1))
    ensures !LiesBetween(g, Kept(base, level, m, |m|, snap), a, b)
  {
    KeptMember(base, level, m, |m|, snap, a);
    KeptMember(base, level, m, |m|, snap, b);
    assert Elems(m) <= Entries(in0 + in1);
    assert a in m ==> a in Elems(m);
    assert b in m ==> b in Elems(m);
    WithinBounds(g, Smallest(g));
  }

  /** No flush goes deeper than level 2, so merges out of level 2 and below never meet one. */
  lemma DeepCompactionIsSafe(base: Version, cur: Version, level: nat, m: seq<Entry>, snap: nat)
    requires GrownBy(base, cur) && MAX_MEM_COMPACT_LEVEL <= level && level + 1 < NUM_LEVELS
    ensures !FlushedBetween(base, cur, level, m, snap)
  {
  }

  // ----- age order -----

  ghost function Left(files: seq<File>, inputs: seq<File>): set<Entry> {
    set f, e | f in files && f !in inputs && e in f.entries :: e
  }

  /** Files left behind in the input level are newer than everything taken, also those flushed meanwhile. */
  lemma LeftIsNewer(base: Version, cur: Version, level: nat, in0: seq<File>)
    requires GrownBy(base, cur) && level < NUM_LEVELS
    requires (forall f | f in in0 :: f in base[level]) && AgeClosed(base[level], in0)
    ensures NewerThan(Left(cur[level], in0), Entries(in0))
  {
    forall a, b | a in Left(cur[level], in0) && b in Entries(in0) && a.key == b.key
      ensures a.seqno > b.seqno
    {
      var g: File :| g in cur[level] && g !in in0 && a in g.entries;
      var f: File :| f in in0 && b in f.entries;
      assert a in Elems(g.entries) && b in Elems(f.entries);
      if g in base[level] {
        assert NewerThan(Elems(g.entries), Elems(f.entries));
      } else {
        assert b in Entries(base[level]);
        assert b in VersionEntries(base);
      }
    }
  }

  lemma EditedEntries(files: seq<File>, after: seq<File>, inputs: seq<File>, added: seq<File>)
    requires UniqueNumbers(files) && (forall g | g in inputs :: g in files)
    requires LevelEdit(files, after, Numbers(inputs), added)
    ensures Entries(after) == Left(files, inputs) + Entries(added)
  {
    forall f | f in files ensures f.number in Numbers(inputs) <==> f in inputs {
      DeletedByNumber(files, inputs, f);
    }
    assert forall f | f in files && f !in inputs :: f in after;
  }

  lemma AgeKept(cur: Version, v': Version, level: nat, in0: seq<File>, in1: seq<File>, outputs: seq<File>, l: nat,
                n: nat)
    requires |cur| == NUM_LEVELS && |v'| == NUM_LEVELS && level + 1 < NUM_LEVELS && LevelsByAge(cur)
             && l < n < NUM_LEVELS
    requires forall l | 0 <= l < NUM_LEVELS && l != level && l != level + 1 :: v'[l] == cur[l]
    requires Entries(v'[level]) <= Entries(cur[level]) && NewerThan(Entries(v'[level]), Entries(in0))
    requires Entries(v'[level + 1]) <= Entries(cur[level + 1]) + Entries(in0)
    requires Entries(in0) <= Entries(cur[level])
    ensures NewerThan(Entries(v'[l]), Entries(v'[n]))
  {
    assert NewerThan(Entries(cur[l]), Entries(cur[n]));
    if n == level + 1 && l < level {
      assert NewerThan(Entries(cur[l]), Entries(cur[level]));
    } else if l == level + 1 {
      assert NewerThan(Entries(cur[level]), Entries(cur[n]));
    }
  }

  lemma LeftIsPart(files: seq<File>, inputs: seq<File>)
    ensures Left(files, inputs) <= Entries(files)
  {
  }

  lemma EntriesMonotone(part: seq<File>, files: seq<File>)
    requires forall f | f in part :: f in files
    ensures Entries(part) <= Entries(files)
  {
  }

  lemma SubLevelByAge(before: seq<File>, after: seq<File>, deleted: set<nat>)
    requires OrderedByAge(before) && LevelEdit(before, after, deleted, [])
    ensures OrderedByAge(after)
  {
  }

  lemma SubLevelDisjoint(before: seq<File>, after: seq<File>, deleted: set<nat>)
    requires ValidFiles(before) && DisjointLevel(before) && LevelEdit(before, after, deleted, [])
    ensures DisjointLevel(after)
  {
    EditValid(before, after, deleted, []);
    DisjointIsApart(before);
    ApartIsDisjoint(after);
  }

  /** Installing a compaction keeps the age order between levels whatever was flushed meanwhile, and keeps the
      whole invariant when no flushed file meets an output. */
  lemma InstallKeepsVersionInv(base: Version, cur: Version, v': Version, level: nat, in0: seq<File>, in1: seq<File>,
                               m: seq<Entry>, outputs: seq<File>)
    requires Running(base, cur, level, in0, in1, m) && OutputShape(m, outputs)
    requires Installed(cur, v', level, in0, in1, outputs)
    requires forall g, o | g in cur[level + 1] && o in outputs :: g.number != o.number
    ensures LevelsValid(v') && LevelsByAge(v') && OrderedByAge(v'[0]) && NoDuplicates(v'[0])
    ensures VersionInv(v') <==> FlushedApart(base, cur, level, outputs)
  {
    InstallKeepsFilesValid(cur, v', level, in0, in1, outputs);
    InstallKeepsAge(base, cur, v', level, in0, in1, m, outputs);
    if level == 0 {
      SubLevelByAge(cur[0], v'[0], Numbers(in0));
      SortedHasNoDuplicates(v'[0]);
    }
    InstallDisjointIff(base, cur, v', level, in0, in1, m, outputs);
  }

  lemma InstallKeepsFilesValid(cur: Version, v': Version, level: nat, in0: seq<File>, in1: seq<File>,
                               outputs: seq<File>)
    requires LevelsValid(cur) && level + 1 < NUM_LEVELS && ValidFiles(outputs)
             && Installed(cur, v', level, in0, in1, outputs)
    ensures LevelsValid(v')
  {
    EditValid(cur[level], v'[level], Numbers(in0), []);
    EditValid(cur[level + 1], v'[level + 1], Numbers(in1), outputs);
  }

  lemma InstallDisjointIff(base: Version, cur: Version, v': Version, level: nat, in0: seq<File>, in1: seq<File>,
                           m: seq<Entry>, outputs: seq<File>)
    requires Running(base, cur, level, in0, in1, m) && OutputShape(m, outputs)
    requires Installed(cur, v', level, in0, in1, outputs)
    requires forall g, o | g in cur[level + 1] && o in outputs :: g.number != o.number
    ensures LevelsDisjoint(v') <==> FlushedApart(base, cur, level, outputs)
  {
    OutputLevelDisjointIff(base, cur, v', level, in0, in1, m, outputs);
    if level > 0 { SubLevelDisjoint(cur[level], v'[level], Numbers(in0)); }
    OnlyOutputLevel(cur, v', level);
  }

  lemma OnlyOutputLevel(cur: Version, v': Version, level: nat)
    requires |cur| == NUM_LEVELS && |v'| == NUM_LEVELS && level + 1 < NUM_LEVELS && LevelsDisjoint(cur)
    requires level > 0 ==> DisjointLevel(v'[level])
    requires forall l | 0 <= l < NUM_LEVELS && l != level && l != level + 1 :: v'[l] == cur[l]
    ensures LevelsDisjoint(v') <==> DisjointLevel(v'[level + 1])
  {
  }

  lemma InstallKeepsAge(base: Version, cur: Version, v': Version, level: nat, in0: seq<File>, in1: seq<File>,
                        m: seq<Entry>, outputs: seq<File>)
    requires Running(base, cur, level, in0, in1, m) && Installed(cur, v', level, in0, in1, outputs)
    requires Entries(outputs) <= Elems(m)
    ensures LevelsByAge(v')
  {
    InputsAreFiles(base, level, in0, in1);
    LeftIsNewer(base, cur, level, in0);
    EditedEntries(cur[level], v'[level], in0, []);
    EditedEntries(cur[level + 1], v'[level + 1], in1, outputs);
    LeftIsPart(cur[level], in0);
    LeftIsPart(cur[level + 1], in1);
    EntriesMonotone(in0, cur[level]);
    EntriesMonotone(in1, cur[level + 1]);
    forall l, n | 0 <= l < n < NUM_LEVELS ensures NewerThan(Entries(v'[l]), Entries(v'[n])) {
      AgeKept(cur, v', level, in0, in1, outputs, l, n);
    }
  }

  // ----- the entries of the new version -----

  lemma NewerIsDisjoint(A: set<Entry>, B: set<Entry>)
    requires NewerThan(A, B)
    ensures A !! B
  {
  }

  /** Entries level by level. */
  ghost function LevelSets(v: Version): (A: seq<set<Entry>>)
    requires |v| == NUM_LEVELS
    ensures |A| == NUM_LEVELS && forall l | 0 <= l < NUM_LEVELS :: A[l] == Entries(v[l])
  {
    seq(NUM_LEVELS, l requires 0 <= l < NUM_LEVELS => Entries(v[l]))
  }

  ghost predicate ByAge(A: seq<set<Entry>>) {
    |A| == NUM_LEVELS && forall l, n | 0 <= l < n < NUM_LEVELS :: NewerThan(A[l], A[n])
  }

  lemma LevelDisjoint(A: seq<set<Entry>>, l: nat, n: nat)
    requires ByAge(A) && l < NUM_LEVELS && n < NUM_LEVELS && l != n
    ensures A[l] !! A[n]
  {
    if l < n { NewerIsDisjoint(A[l], A[n]); } else { NewerIsDisjoint(A[n], A[l]); }
  }

  /** Taking I0 and I1 out of two levels and putting O into the lower one. */
  lemma SetsAfterEdit(A: seq<set<Entry>>, A': seq<set<Entry>>, level: nat,
                      L0: set<Entry>, L1: set<Entry>, I0: set<Entry>, I1: set<Entry>, O: set<Entry>, e: Entry)
    requires ByAge(A) && |A'| == NUM_LEVELS && level + 1 < NUM_LEVELS
    requires A[level] == L0 + I0 && A[level + 1] == L1 + I1 && L0 !! I0 && L1 !! I1
    requires A'[level] == L0 && A'[level + 1] == L1 + O
    requires forall l | 0 <= l < NUM_LEVELS && l != level && l != level + 1 :: A'[l] == A[l]
    ensures (exists l :: 0 <= l < NUM_LEVELS && e in A'[l])
       <==> ((exists l :: 0 <= l < NUM_LEVELS && e in A[l]) && e !in I0 + I1) || e in O
  {
    LevelDisjoint(A, level, level + 1);
    if e !in O {
      if l :| 0 <= l < NUM_LEVELS && e in A'[l] {
        if l != level { LevelDisjoint(A, l, level); }
        if l != level + 1 { LevelDisjoint(A, l, level + 1); }
        assert e in A[l];
      }
      if e !in I0 + I1 {
        if l :| 0 <= l < NUM_LEVELS && e in A[l] {
          assert e in A'[l];
        }
      }
    } else {
      assert e in A'[level + 1];
    }
  }

  lemma NotInTwoFiles(files: seq<File>, inputs: seq<File>)
    requires ValidFiles(files) && DisjointLevel(files) && (forall f | f in inputs :: f in files)
    ensures Left(files, inputs) !! Entries(inputs)
  {
    DisjointIsApart(files);
    forall e | e in Left(files, inputs) ensures e !in Entries(inputs) {
      var g: File :| g in files && g !in inputs && e in g.entries;
      var j :| 0 <= j < |files| && files[j] == g;
      WithinBounds(files[j], e);
      forall f | f in inputs ensures e !in f.entries {
        var i :| 0 <= i < |files| && files[i] == f;
        ApartSharesNothing(g, files[i], e);
      }
    }
  }

  lemma ApartSharesNothing(f: File, g: File, e: Entry)
    requires ValidFile(f) && ValidFile(g) && Apart(f, g) && e in f.entries
    ensures e !in g.entries
  {
    WithinBounds(f, e);
    forall x | x in g.entries ensures x != e {
      WithinBounds(g, x);
    }
  }

  lemma SplitEntries(files: seq<File>, inputs: seq<File>)
    requires forall f | f in inputs :: f in files
    ensures Entries(files) == Left(files, inputs) + Entries(inputs)
  {
  }

  /** What a compaction leaves and takes, level by level. */
  lemma EditedLevelSets(base: Version, cur: Version, v': Version, level: nat, in0: seq<File>, in1: seq<File>,
                        m: seq<Entry>, outputs: seq<File>)
    requires Running(base, cur, level, in0, in1, m) && Installed(cur, v', level, in0, in1, outputs)
    ensures var L0, L1 := Left(cur[level], in0), Left(cur[level + 1], in1);
            && Entries(cur[level]) == L0 + Entries(in0) && Entries(cur[level + 1]) == L1 + Entries(in1)
            && L0 !! Entries(in0) && L1 !! Entries(in1)
            && Entries(v'[level]) == L0 && Entries(v'[level + 1]) == L1 + Entries(outputs)
  {
    InputsAreFiles(base, level, in0, in1);
    LeftIsNewer(base, cur, level, in0);
    NewerIsDisjoint(Left(cur[level], in0), Entries(in0));
    NotInTwoFiles(cur[level + 1], in1);
    SplitEntries(cur[level], in0);
    SplitEntries(cur[level + 1], in1);
    EditedEntries(cur[level], v'[level], in0, []);
    EditedEntries(cur[level + 1], v'[level + 1], in1, outputs);
  }

  lemma SetsOfInstalled(cur: Version, v': Version, level: nat, in0: seq<File>, in1: seq<File>, O: set<Entry>, e: Entry)
    requires |cur| == NUM_LEVELS && |v'| == NUM_LEVELS && level + 1 < NUM_LEVELS && LevelsByAge(cur)
    requires forall l | 0 <= l < NUM_LEVELS && l != level && l != level + 1 :: v'[l] == cur[l]
    requires var L0, L1 := Left(cur[level], in0), Left(cur[level + 1], in1);
            && Entries(cur[level]) == L0 + Entries(in0) && Entries(cur[level + 1]) == L1 + Entries(in1)
            && L0 !! Entries(in0) && L1 !! Entries(in1)
            && Entries(v'[level]) == L0 && Entries(v'[level + 1]) == L1 + O
    ensures e in VersionEntries(v') <==> (e in VersionEntries(cur) && e !in Entries(in0) + Entries(in1)) || e in O
    ensures e in Entries(in0) + Entries(in1) ==> e in VersionEntries(cur)
  {
    var A, A' := LevelSets(cur), LevelSets(v');
    var L0, L1 := Left(cur[level], in0), Left(cur[level + 1], in1);
    SetsAfterEdit(A, A', level, L0, L1, Entries(in0), Entries(in1), O, e);
    UnionOfLevels(cur, e);
    UnionOfLevels(v', e);
    if e in Entries(in0) + Entries(in1) {
      assert e in A[level] || e in A[level + 1];
    }
  }

  /** The new version holds the old one with the merged inputs replaced by the outputs. */
  lemma InstalledEntries(base: Version, cur: Version, v': Version, level: nat, in0: seq<File>, in1: seq<File>,
                         m: seq<Entry>, outputs: seq<File>)
    requires Running(base, cur, level, in0, in1, m) && Installed(cur, v', level, in0, in1, outputs)
    ensures Elems(m) <= VersionEntries(cur)
    ensures VersionEntries(v') == (VersionEntries(cur) - Elems(m)) + Entries(outputs)
  {
    EditedLevelSets(base, cur, v', level, in0, in1, m, outputs);
    EntriesOfInstalled(cur, v', level, in0, in1, Entries(outputs));
  }

  lemma EntriesOfInstalled(cur: Version, v': Version, level: nat, in0: seq<File>, in1: seq<File>, O: set<Entry>)
    requires |cur| == NUM_LEVELS && |v'| == NUM_LEVELS && level + 1 < NUM_LEVELS && LevelsByAge(cur)
    requires forall l | 0 <= l < NUM_LEVELS && l != level && l != level + 1 :: v'[l] == cur[l]
    requires var L0, L1 := Left(cur[level], in0), Left(cur[level + 1], in1);
            && Entries(cur[level]) == L0 + Entries(in0) && Entries(cur[level + 1]) == L1 + Entries(in1)
            && L0 !! Entries(in0) && L1 !! Entries(in1)
            && Entries(v'[level]) == L0 && Entries(v'[level + 1]) == L1 + O
    ensures Entries(in0) + Entries(in1) <= VersionEntries(cur)
    ensures VersionEntries(v') == (VersionEntries(cur) - (Entries(in0) + Entries(in1))) + O
  {
    forall e
      ensures e in VersionEntries(v') <==> (e in VersionEntries(cur) && e !in Entries(in0) + Entries(in1)) || e in O
      ensures e in Entries(in0) + Entries(in1) ==> e in VersionEntries(cur)
    {
      SetsOfInstalled(cur, v', level, in0, in1, O, e);
    }
  }

  lemma UnionOfLevels(v: Version, e: Entry)
    requires |v| == NUM_LEVELS
    ensures e in VersionEntries(v) <==> exists l :: 0 <= l < NUM_LEVELS && e in LevelSets(v)[l]
  {
    if e in VersionEntries(v) {
      var l :| 0 <= l < NUM_LEVELS && e in Entries(v[l]);
      assert e in LevelSets(v)[l];
    }
  }

  // ----- where a resurfacing value can come from -----

  /** With memtable entries newer than the version, a resurfacing value lies in a file of the output level, outside
      the inputs, that starts with the user key the level+1 inputs end with. */
  lemma ResurfacingIsBoundary(base: Version, cur: Version, level: nat, in0: seq<File>, in1: seq<File>, m: seq<Entry>,
                              snap: nat, M: set<Entry>, i: int, e: Entry) returns (g: File, mx: Entry)
    requires Running(base, cur, level, in0, in1, m) && NewerThan(M, VersionEntries(cur))
    requires Resurfaces(M + VersionEntries(cur), base, level, m, snap, i, e)
    ensures g in base[level + 1] && g !in in1 && e in g.entries
    ensures IsLargestKey(in1, mx) && IsBoundary(g, mx)
  {
    var t := m[i];
    assert t in Elems(m) && e !in Elems(m);
    InputsAreFiles(base, level, in0, in1);
    OutsideMemory(base, cur, level, in0, in1, M, e, t);
    g := LocateOlder(base, cur, level, in0, in1, e, t);
    mx := BoundaryShape(base[level + 1], in0, in1, g, e, t);
  }

  lemma OutsideMemory(base: Version, cur: Version, level: nat, in0: seq<File>, in1: seq<File>, M: set<Entry>,
                      e: Entry, t: Entry)
    requires GrownBy(base, cur) && level + 1 < NUM_LEVELS && NewerThan(M, VersionEntries(cur))
    requires (forall f | f in in0 :: f in base[level]) && (forall f | f in in1 :: f in base[level + 1])
    requires t in Entries(in0) + Entries(in1) && e in M + VersionEntries(cur) && e.key == t.key && e.seqno < t.seqno
    ensures e in VersionEntries(cur)
  {
    EntriesMonotone(in0, cur[level]);
    EntriesMonotone(in1, cur[level + 1]);
    InputInVersion(cur, level, in0, in1, t);
  }

  /** An entry older than an input entry, itself outside the inputs, is in the output level of `base`. */
  lemma LocateOlder(base: Version, cur: Version, level: nat, in0: seq<File>, in1: seq<File>, e: Entry, t: Entry)
    returns (g: File)
    requires GrownBy(base, cur) && LevelsValid(base) && LevelsByAge(cur) && level + 1 < NUM_LEVELS
    requires (forall f | f in in0 :: f in base[level]) && (forall f | f in in1 :: f in base[level + 1])
    requires AgeClosed(base[level], in0) && IsBaseLevel(base, level, e.key)
    requires t in Entries(in0) + Entries(in1) && e.key == t.key && e.seqno < t.seqno
    requires e in VersionEntries(cur) && e !in Entries(in0) + Entries(in1)
    ensures g in base[level + 1] && g !in in1 && e in g.entries
  {
    var l :| 0 <= l < NUM_LEVELS && e in Entries(cur[l]);
    OlderLiesBelow(base, cur, level, in0, in1, l, e, t);
    g :| g in cur[l] && e in g.entries;
    GrownFileIsOld(base, cur, level, in0, in1, l, g, e, t);
    OlderLiesAtOutput(base, level, l, g, e);
    FileEntryIn(in1, g, e);
  }

  lemma InputInVersion(cur: Version, level: nat, in0: seq<File>, in1: seq<File>, t: Entry)
    requires |cur| == NUM_LEVELS && level + 1 < NUM_LEVELS
    requires Entries(in0) <= Entries(cur[level]) && Entries(in1) <= Entries(cur[level + 1])
    requires t in Entries(in0) + Entries(in1)
    ensures t in VersionEntries(cur)
  {
    assert t in Entries(cur[level]) || t in Entries(cur[level + 1]);
  }

  lemma FileEntryIn(files: seq<File>, g: File, e: Entry)
    requires e in g.entries && e !in Entries(files)
    ensures g !in files
  {
  }

  lemma OlderLiesAtOutput(base: Version, level: nat, l: nat, g: File, e: Entry)
    requires LevelsValid(base) && level < l < NUM_LEVELS && IsBaseLevel(base, level, e.key)
    requires g in base[l] && e in g.entries
    ensures l == level + 1
  {
    var j :| 0 <= j < |base[l]| && base[l][j] == g;
    WithinBounds(base[l][j], e);
    assert Covers(base[l][j], e.key);
  }

  /** An entry older than an input entry, itself outside the inputs, is in the output level or below. */
  lemma OlderLiesBelow(base: Version, cur: Version, level: nat, in0: seq<File>, in1: seq<File>, l: nat, e: Entry,
                       t: Entry)
    requires GrownBy(base, cur) && LevelsByAge(cur) && level + 1 < NUM_LEVELS
    requires (forall f | f in in0 :: f in base[level]) && (forall f | f in in1 :: f in base[level + 1])
    requires AgeClosed(base[level], in0)
    requires l < NUM_LEVELS && e in Entries(cur[l]) && e !in Entries(in0) && e.key == t.key && e.seqno < t.seqno
    requires t in Entries(in0) + Entries(in1)
    ensures l > level
  {
    EntriesMonotone(in0, cur[level]);
    EntriesMonotone(in1, cur[level + 1]);
    if t in Entries(in0) {
      NotAbove(cur, l, level, e, t);
      TakenLeavesNoOlder(base, cur, level, in0, e, t);
    } else {
      NotAbove(cur, l, level + 1, e, t);
    }
  }

  lemma NotAbove(cur: Version, l: nat, n: nat, e: Entry, t: Entry)
    requires |cur| == NUM_LEVELS && LevelsByAge(cur) && l < NUM_LEVELS && n < NUM_LEVELS
    requires e in Entries(cur[l]) && t in Entries(cur[n]) && e.key == t.key && e.seqno < t.seqno
    ensures l >= n
  {
    assert !NewerThan(Entries(cur[l]), Entries(cur[n]));
  }

  lemma TakenLeavesNoOlder(base: Version, cur: Version, level: nat, in0: seq<File>, e: Entry, t: Entry)
    requires GrownBy(base, cur) && level < NUM_LEVELS
    requires (forall f | f in in0 :: f in base[level]) && AgeClosed(base[level], in0)
    requires t in Entries(in0) && e !in Entries(in0) && e.key == t.key && e.seqno < t.seqno
    ensures e !in Entries(cur[level])
  {
    LeftIsNewer(base, cur, level, in0);
    SplitEntriesAny(cur[level], in0);
  }

  lemma SplitEntriesAny(files: seq<File>, inputs: seq<File>)
    ensures Entries(files) <= Left(files, inputs) + Entries(inputs)
  {
  }

  lemma GrownFileIsOld(base: Version, cur: Version, level: nat, in0: seq<File>, in1: seq<File>, l: nat, f: File,
                       e: Entry, t: Entry)
    requires GrownBy(base, cur) && level + 1 < NUM_LEVELS && l < NUM_LEVELS
    requires (forall f | f in in0 :: f in base[level]) && (forall f | f in in1 :: f in base[level + 1])
    requires t in Entries(in0) || t in Entries(in1)
    requires f in cur[l] && e in f.entries && e.key == t.key && e.seqno < t.seqno
    ensures f in base[l]
  {
    EntriesMonotone(in0, base[level]);
    EntriesMonotone(in1, base[level + 1]);
    assert t in Entries(base[level]) || t in Entries(base[level + 1]);
    assert t in VersionEntries(base);
    assert e in Elems(f.entries);
  }

  lemma BoundaryShape(next: seq<File>, in0: seq<File>, in1: seq<File>, g: File, e: Entry, t: Entry) returns (mx: Entry)
    requires ValidFiles(next) && DisjointLevel(next)
    requires forall f | f in in0 || f in in1 :: ValidFile(f)
    requires NextLevelInputs(next, in0, in1)
    requires g in next && g !in in1 && e in g.entries
    requires t in Entries(in0) + Entries(in1) && t.key == e.key && e.seqno < t.seqno
    ensures IsLargestKey(in1, mx) && IsBoundary(g, mx)
  {
    var i :| 0 <= i < |next| && next[i] == g;
    WithinBounds(next[i], e);
    WithinBounds(next[i], Smallest(g));
    DisjointIsApart(next);
    RemainingIsOneSide(next, in0, in1, g);
    assert Before(t, Smallest(g)) && Smallest(g).key == t.key;
    InputsReachKey(next, in0, in1, g, t);
    var h': File :| h' in in1 && t in h'.entries;
    mx := LargestExists(in1);
    var h :| h in in1 && Largest(h) == mx;
    FileEntriesIn(in1, h);
    WithinBounds(h', t);
    assert !Before(mx, Largest(h'));
  }

  lemma {:induction false} LargestExists(files: seq<File>) returns (m: Entry)
    requires files != []
    ensures IsLargestKey(files, m)
  {
    if |files| == 1 {
      m := Largest(files[0]);
      assert files[0] in files;
    } else {
      var rest := files[1..];
      m := LargestExists(rest);
      var f :| f in rest && Largest(f) == m;
      assert f in files && files[0] in files;
      if Before(m, Largest(files[0])) { m := Largest(files[0]); }
    }
  }

  /** The marker itself came from the output level: a key inside the range of the upper inputs pulls in every file
      with it. */
  lemma InputsReachKey(next: seq<File>, in0: seq<File>, in1: seq<File>, g: File, t: Entry)
    requires forall f | f in in0 || f in in1 :: ValidFile(f)
    requires NextLevelInputs(next, in0, in1)
    requires g in next && g !in in1 && Smallest(g).key == t.key && Largest(g).key >= t.key
    requires t in Entries(in0) + Entries(in1)
    ensures exists h :: h in in1 && t in h.entries
  {
    if t in Entries(in1) {
    } else {
      var f: File :| f in in0 && t in f.entries;
      var lo, hi :| IsSmallestKey(in0, lo) && IsLargestKey(in0, hi)
                    && in1 == Overlapping(next, Some(lo.key), Some(hi.key));
      InsideRange(f, lo, hi, t);
      OverlappingMember(next, Some(lo.key), Some(hi.key), g);
      assert false;
    }
  }

  lemma InsideRange(f: File, lo: Entry, hi: Entry, t: Entry)
    requires ValidFile(f) && t in f.entries && !Before(Smallest(f), lo) && !Before(hi, Largest(f))
    ensures lo.key <= t.key <= hi.key
  {
    WithinBounds(f, t);
  }

  /** If AddBoundaryInputs would have added nothing to the level+1 inputs, every read from `snap` on is preserved. */
  lemma CoveredCompactionPreservesReads(base: Version, cur: Version, level: nat, in0: seq<File>, in1: seq<File>,
                                        m: seq<Entry>, snap: nat, M: set<Entry>)
    requires Running(base, cur, level, in0, in1, m) && NewerThan(M, VersionEntries(cur))
    requires UniqueSeqs(M + VersionEntries(cur)) && Elems(m) <= VersionEntries(cur)
    requires NoBoundaryLeft(base[level + 1], in1)
    ensures ReadsPreserved(M + VersionEntries(cur),
                           AfterCompaction(M + VersionEntries(cur), base, level, m, snap), snap)
  {
    var E := M + VersionEntries(cur);
    CompactionPreservesReadsIff(E, base, level, m, snap);
    forall i, e ensures !Resurfaces(E, base, level, m, snap, i, e) {
      if Resurfaces(E, base, level, m, snap, i, e) {
        CoveredNeverResurfaces(base, cur, level, in0, in1, m, snap, M, i, e);
        assert false;
      }
    }
  }

  lemma CoveredNeverResurfaces(base: Version, cur: Version, level: nat, in0: seq<File>, in1: seq<File>,
                               m: seq<Entry>, snap: nat, M: set<Entry>, i: int, e: Entry)
    requires Running(base, cur, level, in0, in1, m) && NewerThan(M, VersionEntries(cur))
    requires NoBoundaryLeft(base[level + 1], in1)
    ensures !Resurfaces(M + VersionEntries(cur), base, level, m, snap, i, e)
  {
    if Resurfaces(M + VersionEntries(cur), base, level, m, snap, i, e) {
      var g, mx := ResurfacingIsBoundary(base, cur, level, in0, in1, m, snap, M, i, e);
      assert false;
    }
  }
}
