/** A deleted value comes back: the second condition of `Store.SafeToFinish` can fail, and a run of the store from the
    empty state leads there. */
module Resurfacing {
  import opened Options
  import opened InternalKeys
  import opened Versions
  import opened InputSelection
  import opened CompactionSetup
  import opened Compactions
  import opened CompactionReads
  import opened VersionEdits
  import opened CompactionInstall
  import opened Background
  import opened Store
  import opened StoreRuns

  function Deleted(): Entry { Entry(2.0, 3, Put, "deleted") }
  function Older(): Entry { Entry(1.0, 4, Put, "first") }
  function Marker(): Entry { Entry(2.0, 5, Deletion, "") }
  function Newer(): Entry { Entry(1.0, 9, Put, "new") }

  /** The files flushed first, the two files they are merged into, and the file flushed later. */
  function Bottom(): File { File(4, [Deleted()]) }
  function Top(): File { File(5, [Older(), Marker()]) }
  function Lower(): File { File(6, [Older(), Marker()]) }
  function LowerRest(): File { File(7, [Deleted()]) }
  function Upper(): File { File(8, [Newer()]) }

  // ----- the version -----

  /** The marker for key 2 ends one file of level 2 and the value it deletes starts the next. */
  function SplitVersion(): Version { TwoLevels(1, [Upper()], [Lower(), LowerRest()]) }

  function Merged(): seq<Entry> { [Newer(), Older(), Marker()] }

  lemma SplitLevels()
    ensures Entries([Upper()]) == {Newer()} && Entries([Lower(), LowerRest()]) == {Older(), Marker(), Deleted()}
    ensures Entries([Lower()]) == {Older(), Marker()}
    ensures ValidFiles([Upper()]) && DisjointLevel([Upper()])
    ensures ValidFiles([Lower(), LowerRest()]) && DisjointLevel([Lower(), LowerRest()])
  {
    EntriesOfOne(Upper());
    EntriesOfOne(Lower());
    EntriesOfTwo(Lower(), LowerRest());
    assert Elems(Lower().entries) == {Older(), Marker()};
    assert Elems(LowerRest().entries) == {Deleted()};
    assert Elems(Upper().entries) == {Newer()};
  }

  lemma SplitVersionInv()
    ensures VersionInv(SplitVersion()) && UniqueSeqs(VersionEntries(SplitVersion()))
    ensures VersionEntries(SplitVersion()) == {Newer(), Older(), Marker(), Deleted()}
  {
    SplitLevels();
    SplitAges();
    TwoLevelsInv(1, [Upper()], [Lower(), LowerRest()]);
    SplitUnion(VersionEntries(SplitVersion()), Entries([Upper()]), Entries([Lower(), LowerRest()]));
  }

  lemma SplitAges()
    ensures NewerThan({Newer()}, {Older(), Marker(), Deleted()})
  {
  }

  lemma SplitUnion(E: set<Entry>, A: set<Entry>, B: set<Entry>)
    requires E == A + B && A == {Newer()} && B == {Older(), Marker(), Deleted()}
    ensures E == {Newer(), Older(), Marker(), Deleted()} && UniqueSeqs(E)
  {
  }

  lemma SplitResurfaces(E: set<Entry>)
    requires E == {Newer(), Older(), Marker(), Deleted()}
    ensures Sorted(Merged()) && Elems(Merged()) == {Newer(), Older(), Marker()}
    ensures Resurfaces(E, SplitVersion(), 1, Merged(), 9, 2, Deleted())
  {
    var m := Merged();
    assert m[2] == Marker() && m[1] == Older();
    assert E - Elems(m) == {Deleted()};
    assert IsNewest({Deleted()}, 2.0, 9, Deleted());
  }

  lemma SplitRange()
    ensures NextLevelInputs([Lower(), LowerRest()], [Upper()], [Lower()])
  {
    assert Upper() in [Upper()];
    assert IsSmallestKey([Upper()], Newer()) && IsLargestKey([Upper()], Newer());
    assert [Lower(), LowerRest()][1..] == [LowerRest()] && [LowerRest()][1..] == [];
    assert Overlapping([LowerRest()], Some(1.0), Some(1.0)) == [];
    assert Overlapping([Lower(), LowerRest()], Some(1.0), Some(1.0)) == [Lower()];
  }

  /** An automatic pick: one file, and the inputs that SetupOtherInputs gives it. */
  lemma SplitInputs()
    ensures ValidInputs(SplitVersion(), 1, [Upper()], [Lower()]) && PickedFrom(1, SplitVersion()[1], Upper(), [Upper()])
  {
    SplitRange();
    SplitLevels();
    WholeLevelInputs(1, [Upper()], [Lower(), LowerRest()], [Lower()]);
    assert SplitVersion()[1] == [Upper()];
  }

  lemma SplitConnected()
    ensures Connected([Upper()] + [Lower()])
  {
    var files := [Upper()] + [Lower()];
    forall f, g, k | f in files && g in files && Smallest(f).key <= k <= Largest(g).key ensures Hit(files, k) {
      assert files[1] in files && Overlaps(Lower(), Some(k), Some(k));
    }
  }

  lemma SplitMerged()
    ensures Sorted(Merged()) && Elems(Merged()) == Entries([Upper()]) + Entries([Lower()])
  {
    SplitLevels();
    SplitResurfaces({Newer(), Older(), Marker(), Deleted()});
  }

  /** The code's own choice of inputs for compacting level 1 leaves LowerRest out, drops the marker as obsolete,
      and the deleted value is read again, also by a reader at the newest sequence number. */
  lemma DeletedValueCanResurface()
    ensures var v, m := SplitVersion(), Merged();
            && VersionInv(v) && UniqueSeqs(VersionEntries(v))
            && PickedFrom(1, v[1], Upper(), [Upper()]) && ValidInputs(v, 1, [Upper()], [Lower()])
            && Sorted(m) && Elems(m) == Entries([Upper()]) + Entries([Lower()])
            && Reading(VersionEntries(v), 2.0, 9) == None
            && Reading(AfterCompaction(VersionEntries(v), v, 1, m, 9), 2.0, 9) == Some("deleted")
  {
    SplitVersionInv();
    SplitInputs();
    SplitMerged();
    SplitResurfaces(VersionEntries(SplitVersion()));
    ResurfacingChangesRead(VersionEntries(SplitVersion()), SplitVersion(), 1, Merged(), 9, 2, Deleted());
  }

  // ----- a run that leads there -----

  function Bottoms(): set<Entry> { {Deleted()} }
  function Tops(): set<Entry> { {Older(), Marker()} }
  function Three(): set<Entry> { {Deleted(), Older(), Marker()} }
  function All(): set<Entry> { {Deleted(), Older(), Marker(), Newer()} }

  function Empty(): Version { TwoLevels(1, [], []) }
  function OneFlushed(): Version { TwoLevels(1, [], [Bottom()]) }
  function TwoFlushed(): Version { TwoLevels(1, [Top()], [Bottom()]) }
  function Cut(): Version { TwoLevels(1, [], [Lower(), LowerRest()]) }

  function FirstMerged(): seq<Entry> { [Older(), Marker(), Deleted()] }

  /** The first compaction, while a snapshot keeps the deleted value alive, and the second, with no snapshot left. */
  function First(): Pending { Pending(false, 1, [Top()], [Bottom()], FirstMerged(), 3, TwoFlushed()) }
  function Second(): Pending { Pending(false, 1, [Upper()], [Lower()], Merged(), 9, SplitVersion()) }

  const LAST: nat := 14

  function RunState(i: nat): State {
    match i
    case 0 => State({}, None, Empty(), 0, multiset{}, 4, None, {}, 0)
    case 1 => State(Bottoms(), None, Empty(), 3, multiset{}, 4, None, Bottoms(), 0)
    case 2 => State(Bottoms(), None, Empty(), 3, multiset{3}, 4, None, Bottoms(), 0)
    case 3 => State({}, Some(Bottoms()), Empty(), 3, multiset{3}, 4, None, Bottoms(), 0)
    case 4 => State({}, None, OneFlushed(), 3, multiset{3}, 5, None, Bottoms(), 0)
    case 5 => State(Tops(), None, OneFlushed(), 5, multiset{3}, 5, None, Three(), 0)
    case 6 => State({}, Some(Tops()), OneFlushed(), 5, multiset{3}, 5, None, Three(), 0)
    case 7 => State({}, None, TwoFlushed(), 5, multiset{3}, 6, None, Three(), 0)
    case 8 => State({}, None, TwoFlushed(), 5, multiset{3}, 6, Some(First()), Three(), 0)
    case 9 => State({}, None, Cut(), 5, multiset{3}, 8, None, Three(), 3)
    case 10 => State({}, None, Cut(), 5, multiset{}, 8, None, Three(), 3)
    case 11 => State({Newer()}, None, Cut(), 9, multiset{}, 8, None, All(), 3)
    case 12 => State({}, Some({Newer()}), Cut(), 9, multiset{}, 8, None, All(), 3)
    case 13 => State({}, None, SplitVersion(), 9, multiset{}, 9, None, All(), 3)
    case _ => State({}, None, SplitVersion(), 9, multiset{}, 9, Some(Second()), All(), 3)
  }

  function RunStep(i: nat): Step {
    match i
    case 0 => Write(Bottoms())
    case 1 => TakeSnapshot
    case 2 => SwitchMemtable
    case 3 => Flush(Bottom(), 2)
    case 4 => Write(Tops())
    case 5 => SwitchMemtable
    case 6 => Flush(Top(), 1)
    case 7 => StartCompaction(First())
    case 8 => FinishCompaction([Lower(), LowerRest()])
    case 9 => ReleaseSnapshot(3)
    case 10 => Write({Newer()})
    case 11 => SwitchMemtable
    case 12 => Flush(Upper(), 1)
    case _ => StartCompaction(Second())
  }

  lemma MemoryStep(i: nat)
    requires i in {0, 1, 2, 4, 5, 9, 10, 11}
    ensures SafeNext(RunState(i), RunStep(i), RunState(i + 1))
  {
    assert multiset{3} - multiset{3} == multiset{};
    assert Bottoms() + Tops() == Three() && Three() + {Newer()} == All();
    assert {} + Bottoms() == Bottoms() && {} + Tops() == Tops() && {} + {Newer()} == {Newer()};
  }

  lemma EmptyLevelEdit(f: File)
    ensures LevelEdit([], [f], {}, [f])
  {
  }

  /** A flush into an empty level, with nothing in the levels above it. */
  lemma FlushInto(s: State, f: File, level: nat, s': State)
    requires |s.version| == NUM_LEVELS && |s'.version| == NUM_LEVELS && 0 < level <= MAX_MEM_COMPACT_LEVEL
    requires s.imm.Some? && ValidFile(f) && Elems(f.entries) == s.imm.value && s.nextFile <= f.number < s'.nextFile
    requires (forall l | 0 <= l <= level :: s.version[l] == []) && s'.version[level] == [f]
    requires forall l | 0 <= l < NUM_LEVELS && l != level :: s'.version[l] == s.version[l]
    requires s' == s.(imm := None, version := s'.version, nextFile := s'.nextFile)
    ensures SafeNext(s, Flush(f, level), s')
  {
    EmptyLevelEdit(f);
  }

  lemma FlushStep(i: nat)
    requires i in {3, 6, 12}
    ensures SafeNext(RunState(i), RunStep(i), RunState(i + 1))
  {
    assert Elems(Bottom().entries) == Bottoms() && Elems(Top().entries) == Tops()
           && Elems(Upper().entries) == {Newer()};
    if i == 3 {
      FlushInto(RunState(3), Bottom(), 2, RunState(4));
    } else if i == 6 {
      FlushInto(RunState(6), Top(), 1, RunState(7));
    } else {
      FlushInto(RunState(12), Upper(), 1, RunState(13));
    }
  }

  /** The start of an automatic compaction of level 1. */
  lemma StartFrom(s: State, v: Version, in0: seq<File>, in1: seq<File>, m: seq<Entry>, snap: nat, c: Pending, s': State)
    requires |v| == NUM_LEVELS && s.version == v && s.pending.None? && IsSmallestSnapshot(s, snap)
    requires ValidInputs(v, 1, in0, in1) && Connected(in0 + in1) && Sorted(m) && Elems(m) == Entries(in0) + Entries(in1)
    requires c == Pending(false, 1, in0, in1, m, snap, v) && s' == s.(pending := Some(c))
    ensures SafeNext(s, StartCompaction(c), s')
  {
  }

  lemma FirstRange()
    ensures NextLevelInputs([Bottom()], [Top()], [Bottom()])
  {
    assert Top() in [Top()];
    assert IsSmallestKey([Top()], Older()) && IsLargestKey([Top()], Marker());
    assert [Bottom()][1..] == [];
    assert Overlapping([Bottom()], Some(1.0), Some(2.0)) == [Bottom()];
  }

  lemma FirstInputs()
    ensures ValidInputs(TwoFlushed(), 1, [Top()], [Bottom()])
  {
    FirstRange();
    WholeLevelInputs(1, [Top()], [Bottom()], [Bottom()]);
  }

  lemma FirstConnected()
    ensures Connected([Top()] + [Bottom()])
  {
    var files := [Top()] + [Bottom()];
    forall f, g, k | f in files && g in files && Smallest(f).key <= k <= Largest(g).key ensures Hit(files, k) {
      assert files[0] in files && Overlaps(Top(), Some(k), Some(k));
    }
  }

  lemma FirstIsMerged()
    ensures Sorted(FirstMerged()) && Elems(FirstMerged()) == Entries([Top()]) + Entries([Bottom()])
  {
    EntriesOfOne(Top());
    EntriesOfOne(Bottom());
    assert Elems(Top().entries) == Tops() && Elems(Bottom().entries) == Bottoms() && Elems(FirstMerged()) == Three();
  }

  lemma StartFirst(s: State, s': State)
    requires s == State({}, None, TwoFlushed(), 5, multiset{3}, 6, None, Three(), 0)
             && s' == s.(pending := Some(First()))
    ensures SafeNext(s, StartCompaction(First()), s')
  {
    FirstInputs();
    FirstConnected();
    FirstIsMerged();
    StartFrom(s, TwoFlushed(), [Top()], [Bottom()], FirstMerged(), 3, First(), s');
  }

  lemma StartSecond(s: State, s': State)
    requires s == State({}, None, SplitVersion(), 9, multiset{}, 9, None, All(), 3)
             && s' == s.(pending := Some(Second()))
    ensures SafeNext(s, StartCompaction(Second()), s')
  {
    SplitInputs();
    SplitMerged();
    SplitConnected();
    StartFrom(s, SplitVersion(), [Upper()], [Lower()], Merged(), 9, Second(), s');
  }

  /** With the snapshot at 3 nothing is dropped. */
  lemma FirstKeepsAll()
    ensures var m := FirstMerged();
            && (forall i | 0 <= i < |m| :: !DroppedAt(TwoFlushed(), 1, m, i, 3))
            && Kept(TwoFlushed(), 1, m, |m|, 3) == m
  {
    var v, m := TwoFlushed(), FirstMerged();
    assert m[0] == Older() && m[1] == Marker() && m[2] == Deleted();
    forall i | 0 <= i < |m| ensures !DroppedAt(v, 1, m, i, 3) {
      assert i == 0 || i == 1 || i == 2;
    }
    assert Kept(v, 1, m, 1, 3) == [m[0]] && Kept(v, 1, m, 2, 3) == [m[0], m[1]];
  }

  lemma FirstOutput()
    ensures CompactionOutput(TwoFlushed(), 1, FirstMerged(), 3, [Lower(), LowerRest()])
  {
    FirstKeepsAll();
    var files := [Lower(), LowerRest()];
    assert files[1..] == [LowerRest()] && [LowerRest()][1..] == [];
    assert Concat([LowerRest()]) == [Deleted()];
  }

  lemma FirstInstalled()
    ensures Installed(TwoFlushed(), Cut(), 1, [Top()], [Bottom()], [Lower(), LowerRest()])
    ensures FreshNumbers(TwoFlushed(), [Lower(), LowerRest()]) && BelowNext([Lower(), LowerRest()], 8)
  {
    var files := [Lower(), LowerRest()];
    assert Numbers([Top()]) == {5} && Numbers([Bottom()]) == {4} && Numbers([]) == {} && Numbers(files) == {6, 7} by {
      assert Top() in [Top()] && Bottom() in [Bottom()] && files[0] in files && files[1] in files;
    }
    assert LevelEdit([Top()], [], {5}, []);
    assert LevelEdit([Bottom()], files, {4}, files);
  }

  lemma FinishStep()
    ensures SafeNext(RunState(8), RunStep(8), RunState(9))
  {
    FirstOutput();
    FirstInstalled();
    FirstKeepsAll();
  }

  lemma RunFollows(i: nat)
    requires i < LAST
    ensures SafeNext(RunState(i), RunStep(i), RunState(i + 1))
  {
    if i == 8 {
      FinishStep();
    } else if i == 3 || i == 6 || i == 12 {
      FlushStep(i);
    } else if i == 7 {
      StartFirst(RunState(7), RunState(8));
    } else if i == 13 {
      StartSecond(RunState(13), RunState(14));
    } else {
      MemoryStep(i);
    }
  }

  /** States and steps that follow each other, as a run. */
  lemma AsRun(state: nat -> State, step: nat -> Step, n: nat) returns (ss: seq<State>, steps: seq<Step>)
    requires Init(state(0)) && forall i: nat | i < n :: SafeNext(state(i), step(i), state(i + 1))
    ensures SafeRun(ss, steps) && |steps| == n && ss[n] == state(n)
  {
    ss := seq(n + 1, i requires 0 <= i => state(i));
    steps := seq(n, i requires 0 <= i => step(i));
  }

  lemma TheRun() returns (ss: seq<State>, steps: seq<Step>)
    ensures SafeRun(ss, steps) && |steps| == LAST && ss[LAST] == RunState(LAST)
  {
    StartsEmpty();
    forall i: nat | i < LAST ensures SafeNext(RunState(i), RunStep(i), RunState(i + 1)) {
      RunFollows(i);
    }
    ss, steps := AsRun(RunState, RunStep, LAST);
  }

  lemma StartsEmpty()
    ensures Init(RunState(0))
  {
  }

  lemma LastResurfaces(s: State)
    requires s.mem == {} && s.imm.None? && s.version == SplitVersion()
    ensures Resurfaces(AllEntries(s), SplitVersion(), 1, Merged(), 9, 2, Deleted())
  {
    assert VersionEntries(SplitVersion()) == {Newer(), Older(), Marker(), Deleted()} by { SplitVersionInv(); }
    assert AllEntries(s) == {Newer(), Older(), Marker(), Deleted()};
    SplitResurfaces(AllEntries(s));
  }

  lemma RunBringsBack(ss: seq<State>, steps: seq<Step>, last: State, c: Pending, i: int, e: Entry)
    requires SafeRun(ss, steps) && ss[|steps|] == last && last.pending == Some(c)
    requires |c.base| == NUM_LEVELS && Resurfaces(AllEntries(last), c.base, c.level, c.merged, c.snap, i, e)
    ensures |last.version| == NUM_LEVELS && BringsBack(last, c.merged[i].key, c.snap, e.value)
  {
    RunKeepsInv(ss, steps, |steps|);
    ResurfacingBringsBack(last, c, i, e);
  }

  /** From the empty store, through steps that are all safe, to an automatic compaction after which a reader at the
      newest sequence number sees the deleted value. */
  lemma RunToResurfacing() returns (ss: seq<State>, steps: seq<Step>)
    ensures SafeRun(ss, steps)
    ensures var s := ss[|steps|];
            && |s.version| == NUM_LEVELS && s.pending.Some? && !s.pending.value.manual && s.lastSeq == 9
            && BringsBack(s, 2.0, 9, "deleted")
  {
    ss, steps := TheRun();
    var last := RunState(LAST);
    LastResurfaces(last);
    RunBringsBack(ss, steps, last, Second(), 2, Deleted());
  }
}
