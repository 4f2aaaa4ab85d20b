/** One background compaction end to end (db/db_impl.cc: BackgroundCompaction). */
module Background {
  import opened Options
  import opened InternalKeys
  import opened Versions
  import opened InputSelection
  import opened CompactionSetup
  import opened Compactions
  import opened CompactionInstall

  lemma {:induction false} OverlappingNoDuplicates(files: seq<File>, b: Option<Key>, e: Option<Key>)
    requires NoDuplicates(files)
    ensures NoDuplicates(Overlapping(files, b, e))
  {
    if files != [] {
      OverlappingNoDuplicates(files[1..], b, e);
      var rest := Overlapping(files[1..], b, e);
      forall j | 0 <= j < |rest| ensures rest[j] != files[0] {
        OverlappingMember(files[1..], b, e, rest[j]);
        var n :| 1 <= n < |files| && files[n] == rest[j];
      }
    }
  }

  lemma {:induction false} OverlappingDisjoint(files: seq<File>, b: Option<Key>, e: Option<Key>)
    requires DisjointLevel(files)
    ensures DisjointLevel(Overlapping(files, b, e))
  {
    if files != [] {
      OverlappingDisjoint(files[1..], b, e);
      var rest := Overlapping(files[1..], b, e);
      forall j | 0 <= j < |rest| ensures Before(Largest(files[0]), Smallest(rest[j])) {
        OverlappingMember(files[1..], b, e, rest[j]);
        var n :| 1 <= n < |files| && files[n] == rest[j];
      }
    }
  }

  /** Inputs chosen by SetupOtherInputs can be merged. */
  lemma InputsMerge(v: Version, level: nat, in0: seq<File>, in1: seq<File>)
    requires VersionInv(v) && level + 1 < NUM_LEVELS && ValidInputs(v, level, in0, in1)
    ensures MergeableInputs(level, in0, in1)
  {
    InputsAreFiles(v, level, in0, in1);
    FilesValid(in0);
    FilesValid(in1);
    NextLevelDisjoint(v[level + 1], in0, in1);
    AgesOfInputs(v, level, in0, in1);
    if level == 0 {
      Level0Distinct(v[0], in0);
    }
  }

  lemma FilesValid(files: seq<File>)
    requires forall f | f in files :: ValidFile(f)
    ensures ValidFiles(files)
  {
  }

  lemma NextLevelDisjoint(next: seq<File>, in0: seq<File>, in1: seq<File>)
    requires DisjointLevel(next) && NextLevelInputs(next, in0, in1)
    ensures DisjointLevel(in1)
  {
    var lo, hi :| IsSmallestKey(in0, lo) && IsLargestKey(in0, hi)
                  && in1 == Overlapping(next, Some(lo.key), Some(hi.key));
    OverlappingDisjoint(next, Some(lo.key), Some(hi.key));
  }

  lemma AgesOfInputs(v: Version, level: nat, in0: seq<File>, in1: seq<File>)
    requires |v| == NUM_LEVELS && level + 1 < NUM_LEVELS && LevelsByAge(v)
    requires (forall f | f in in0 :: f in v[level]) && (forall f | f in in1 :: f in v[level + 1])
    ensures NewerThan(Entries(in0), Entries(in1))
  {
    EntriesMonotone(in0, v[level]);
    EntriesMonotone(in1, v[level + 1]);
    assert NewerThan(Entries(v[level]), Entries(v[level + 1]));
  }

  lemma Level0Distinct(files: seq<File>, in0: seq<File>)
    requires OrderedByAge(files) && NoDuplicates(files) && (forall f | f in in0 :: f in files)
    requires exists b, e :: ClosedRange(files, in0, b, e)
    ensures forall i, j | 0 <= i < j < |in0| ::
              NewerThan(Elems(in0[i].entries), Elems(in0[j].entries)) ||
                  NewerThan(Elems(in0[j].entries), Elems(in0[i].entries))
  {
    var b, e :| ClosedRange(files, in0, b, e);
    OverlappingNoDuplicates(files, b, e);
    forall i, j | 0 <= i < j < |in0|
      ensures NewerThan(Elems(in0[i].entries), Elems(in0[j].entries)) ||
              NewerThan(Elems(in0[j].entries), Elems(in0[i].entries))
    {
      assert in0[i] in files && in0[j] in files && in0[i] != in0[j];
      assert in0[i].number != in0[j].number;
    }
  }

  /** Set up, merge and write the outputs of one compaction: the premises of Store's StartCompaction and
      FinishCompaction steps. */
  method Compact(v: Version, level: nat, picked: seq<File>, fits: bool, snap: nat, nextNumber: nat)
    returns (in0: seq<File>, in1: seq<File>, ghost m: seq<Entry>, outputs: seq<File>)
    requires VersionInv(v) && UniqueSeqs(VersionEntries(v)) && snap < MAX_SEQUENCE
    requires level + 1 < NUM_LEVELS && Picked(level, v[level], picked)
    ensures ValidInputs(v, level, in0, in1) && (forall f | f in picked :: f in in0)
    ensures Connected(picked) ==> Connected(in0 + in1)
    ensures Sorted(m) && Elems(m) == Entries(in0) + Entries(in1)
    ensures CompactionOutput(v, level, m, snap, outputs)
    ensures forall i | 0 <= i < |outputs| :: outputs[i].number == nextNumber + i
  {
    in0, in1 := SetupOtherInputs(v, level, picked, fits);
    InputsMerge(v, level, in0, in1);
    var c := new Compaction(v, level);
    var input := MakeInputIterator(level, in0, in1);
    m := input.merged;
    outputs := DoCompactionWork(c, input, snap, nextNumber);
  }

  /** A compaction that PickCompaction starts from the file `f`: a step the store calls automatic. */
  method CompactPicked(v: Version, level: nat, f: File, fits: bool, snap: nat, nextNumber: nat)
    returns (in0: seq<File>, in1: seq<File>, ghost m: seq<Entry>, outputs: seq<File>)
    requires VersionInv(v) && UniqueSeqs(VersionEntries(v)) && snap < MAX_SEQUENCE
    requires level + 1 < NUM_LEVELS && f in v[level]
    ensures ValidInputs(v, level, in0, in1) && f in in0 && Connected(in0 + in1)
    ensures Sorted(m) && Elems(m) == Entries(in0) + Entries(in1)
    ensures CompactionOutput(v, level, m, snap, outputs)
    ensures forall i | 0 <= i < |outputs| :: outputs[i].number == nextNumber + i
  {
    var picked := PickInputs(level, v[level], f);
    AutomaticPickConnected(level, v[level], f, picked);
    in0, in1, m, outputs := Compact(v, level, picked, fits, snap, nextNumber);
  }

  // ----- small versions -----

  /** A version with files on levels l and l + 1 only. */
  function TwoLevels(l: nat, A: seq<File>, B: seq<File>): (v: Version)
    ensures |v| == NUM_LEVELS
    ensures forall i | 0 <= i < NUM_LEVELS :: v[i] == if i == l then A else if i == l + 1 then B else []
  {
    seq(NUM_LEVELS, i => if i == l then A else if i == l + 1 then B else [])
  }

  lemma TwoLevelsInv(l: nat, A: seq<File>, B: seq<File>)
    requires 0 < l && l + 1 < NUM_LEVELS
    requires ValidFiles(A) && ValidFiles(B) && DisjointLevel(A) && DisjointLevel(B) && NewerThan(Entries(A), Entries(B))
    ensures VersionInv(TwoLevels(l, A, B)) && VersionEntries(TwoLevels(l, A, B)) == Entries(A) + Entries(B)
  {
    var v := TwoLevels(l, A, B);
    assert Entries([]) == {};
    forall e ensures e in VersionEntries(v) <==> e in Entries(A) || e in Entries(B) {
      assert e in Entries(A) ==> e in Entries(v[l]);
      assert e in Entries(B) ==> e in Entries(v[l + 1]);
    }
  }

  lemma EntriesOfOne(f: File)
    ensures Entries([f]) == Elems(f.entries)
  {
    assert f in [f];
  }

  lemma EntriesOfTwo(f: File, g: File)
    ensures Entries([f, g]) == Elems(f.entries) + Elems(g.entries)
  {
    assert f in [f, g] && g in [f, g];
  }

  lemma WholeLevelPicked(l: nat, A: seq<File>)
    requires 0 < l && A != []
    ensures Picked(l, A, A)
  {
    assert A == A[0..|A|];
    assert SliceFrom(A, A, 0);
  }

  lemma WholeLevelInputs(l: nat, A: seq<File>, B: seq<File>, in1: seq<File>)
    requires 0 < l && l + 1 < NUM_LEVELS && A != [] && DisjointLevel(A) && NextLevelInputs(B, A, in1)
    ensures ValidInputs(TwoLevels(l, A, B), l, A, in1)
  {
    var v := TwoLevels(l, A, B);
    assert NextLevelInputs(v[l + 1], A, in1);
    assert AgeClosed(v[l], A);
  }
}
