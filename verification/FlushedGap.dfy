/** A value is lost: a manual range can leave a gap, a memtable can be flushed into it while the merge runs, and the
    output then covers the flushed file.  A run of the store from the empty state leads there. */
module FlushedGap {
  import opened Options
  import opened InternalKeys
  import opened Versions
  import opened InputSelection
  import opened CompactionSetup
  import opened Compactions
  import opened VersionEdits
  import opened CompactionInstall
  import opened Background
  import opened Store
  import opened StoreRuns

  function A1(): Entry { Entry(1.0, 1, Put, "a1") }
  function Z1(): Entry { Entry(9.0, 2, Put, "z1") }
  function A2(): Entry { Entry(1.0, 3, Put, "a2") }
  function Z2(): Entry { Entry(9.0, 4, Put, "z2") }
  function Mid(): Entry { Entry(5.0, 5, Put, "m") }

  /** Two files on level 2, two above them on level 1, the file flushed into the gap, and the output. */
  function LowA(): File { File(4, [A1()]) }
  function LowZ(): File { File(5, [Z1()]) }
  function UpA(): File { File(6, [A2()]) }
  function UpZ(): File { File(7, [Z2()]) }
  function InGap(): File { File(8, [Mid()]) }
  function Output(): File { File(9, [A2(), Z2()]) }

  function Merged(): seq<Entry> { [A2(), A1(), Z2(), Z1()] }

  function V0(): Version { TwoLevels(1, [], []) }
  function V1(): Version { TwoLevels(1, [], [LowA()]) }
  function V2(): Version { TwoLevels(1, [], [LowA(), LowZ()]) }
  function V3(): Version { TwoLevels(1, [UpA()], [LowA(), LowZ()]) }
  function V4(): Version { TwoLevels(1, [UpA(), UpZ()], [LowA(), LowZ()]) }
  function V5(): Version { TwoLevels(1, [UpA(), UpZ()], [LowA(), InGap(), LowZ()]) }
  function V6(): Version { TwoLevels(1, [], [Output(), InGap()]) }

  function Range(): Pending { Pending(true, 1, [UpA(), UpZ()], [LowA(), LowZ()], Merged(), 4, V4()) }

  // ----- building a run -----

  lemma Extend(ss: seq<State>, steps: seq<Step>, step: Step, s': State)
    requires SafeRun(ss, steps) && SafeNext(ss[|steps|], step, s')
    ensures SafeRun(ss + [s'], steps + [step])
  {
  }

  /** One write with a memtable of its own, and its flush. */
  lemma WriteAndFlush(ss: seq<State>, steps: seq<Step>, s: State, e: Entry, number: nat, level: nat, v': Version)
    returns (ss': seq<State>, steps': seq<Step>)
    requires SafeRun(ss, steps) && ss[|steps|] == s && s.mem == {} && s.imm.None? && |s.version| == NUM_LEVELS
    requires s.lastSeq < e.seqno < MAX_SEQUENCE && s.nextFile <= number
    requires FlushLevel(s.version, File(number, [e]), level) && |v'| == NUM_LEVELS
    requires LevelEdit(s.version[level], v'[level], {}, [File(number, [e])])
    requires forall l | 0 <= l < NUM_LEVELS && l != level :: v'[l] == s.version[l]
    ensures SafeRun(ss', steps')
    ensures ss'[|steps'|] == s.(version := v', lastSeq := e.seqno, nextFile := number + 1, history := s.history + {e})
  {
    var f: File := File(number, [e]);
    var a := s.(mem := {e}, lastSeq := e.seqno, history := s.history + {e});
    var b := a.(imm := Some({e}), mem := {});
    var c := b.(imm := None, version := v', nextFile := number + 1);
    assert s.mem + {e} == {e} && Elems(f.entries) == {e};
    Extend(ss, steps, Write({e}), a);
    Extend(ss + [a], steps + [Write({e})], SwitchMemtable, b);
    Extend(ss + [a] + [b], steps + [Write({e})] + [SwitchMemtable], Flush(f, level), c);
    ss' := ss + [a] + [b] + [c];
    steps' := steps + [Write({e})] + [SwitchMemtable] + [Flush(f, level)];
  }

  /** Where a file may go that meets nothing of levels 1 and 2. */
  lemma MeetsNothing(A: seq<File>, B: seq<File>, f: File, level: nat)
    requires 0 < level <= MAX_MEM_COMPACT_LEVEL
    requires forall g | g in A :: !Overlaps(g, Some(Smallest(f).key), Some(Largest(f).key))
    requires level == 2 ==> forall g | g in B :: !Overlaps(g, Some(Smallest(f).key), Some(Largest(f).key))
    ensures FlushLevel(TwoLevels(1, A, B), f, level)
  {
  }

  lemma Edits()
    ensures LevelEdit([], [LowA()], {}, [LowA()]) && LevelEdit([LowA()], [LowA(), LowZ()], {}, [LowZ()])
    ensures LevelEdit([], [UpA()], {}, [UpA()]) && LevelEdit([UpA()], [UpA(), UpZ()], {}, [UpZ()])
    ensures LevelEdit([LowA(), LowZ()], [LowA(), InGap(), LowZ()], {}, [InGap()])
  {
    var after := [LowA(), InGap(), LowZ()];
    assert after[0] in after && after[1] in after && after[2] in after;
  }

  /** The four tables, in two pairs. */
  lemma FourTables() returns (ss: seq<State>, steps: seq<Step>)
    ensures SafeRun(ss, steps)
    ensures ss[|steps|] == State({}, None, V4(), 4, multiset{}, 8, None, {A1(), Z1(), A2(), Z2()}, 0)
  {
    Edits();
    var s := State({}, None, V0(), 0, multiset{}, 4, None, {}, 0);
    ss, steps := [s], [];
    MeetsNothing([], [], LowA(), 2);
    ss, steps := WriteAndFlush(ss, steps, s, A1(), 4, 2, V1());
    s := ss[|steps|];
    MeetsNothing([], [LowA()], LowZ(), 2);
    ss, steps := WriteAndFlush(ss, steps, s, Z1(), 5, 2, V2());
    s := ss[|steps|];
    MeetsNothing([], [LowA(), LowZ()], UpA(), 1);
    ss, steps := WriteAndFlush(ss, steps, s, A2(), 6, 1, V3());
    s := ss[|steps|];
    MeetsNothing([UpA()], [LowA(), LowZ()], UpZ(), 1);
    ss, steps := WriteAndFlush(ss, steps, s, Z2(), 7, 1, V4());
    assert {} + {A1()} + {Z1()} + {A2()} + {Z2()} == {A1(), Z1(), A2(), Z2()};
  }

  // ----- the manual range -----

  lemma RangeNext()
    ensures NextLevelInputs([LowA(), LowZ()], [UpA(), UpZ()], [LowA(), LowZ()])
  {
    var in0, next := [UpA(), UpZ()], [LowA(), LowZ()];
    assert in0[0] in in0 && in0[1] in in0;
    assert IsSmallestKey(in0, A2()) && IsLargestKey(in0, Z2());
    assert next[1..] == [LowZ()] && [LowZ()][1..] == [];
    assert Overlapping([LowZ()], Some(1.0), Some(9.0)) == [LowZ()];
    assert Overlapping(next, Some(1.0), Some(9.0)) == next;
  }

  lemma RangeInputs()
    ensures ValidInputs(V4(), 1, [UpA(), UpZ()], [LowA(), LowZ()])
  {
    RangeNext();
    WholeLevelInputs(1, [UpA(), UpZ()], [LowA(), LowZ()], [LowA(), LowZ()]);
  }

  lemma RangeMerged()
    ensures Sorted(Merged()) && Elems(Merged()) == Entries([UpA(), UpZ()]) + Entries([LowA(), LowZ()])
  {
    EntriesOfTwo(UpA(), UpZ());
    EntriesOfTwo(LowA(), LowZ());
    assert Elems(UpA().entries) == {A2()} && Elems(UpZ().entries) == {Z2()};
    assert Elems(LowA().entries) == {A1()} && Elems(LowZ().entries) == {Z1()};
    assert Elems(Merged()) == {A2(), A1(), Z2(), Z1()};
  }

  /** A choice of CompactRange, but not of PickCompaction, whose inputs are connected. */
  lemma RangeHasGap()
    ensures Picked(1, V4()[1], [UpA(), UpZ()]) && !Connected([UpA(), UpZ()] + [LowA(), LowZ()])
  {
    var all := [UpA(), UpZ()] + [LowA(), LowZ()];
    WholeLevelPicked(1, [UpA(), UpZ()]);
    var k: Key := 5.0;
    assert all[0] in all && all[1] in all && !Hit(all, k);
  }

  /** Only the newer value of each key survives. */
  lemma RangeOutput()
    ensures CompactionOutput(V4(), 1, Merged(), 4, [Output()])
  {
    var v, m := V4(), Merged();
    assert m[0] == A2() && m[1] == A1() && m[2] == Z2() && m[3] == Z1();
    assert !DroppedAt(v, 1, m, 0, 4) && DroppedAt(v, 1, m, 1, 4);
    assert !DroppedAt(v, 1, m, 2, 4) && DroppedAt(v, 1, m, 3, 4);
    assert Kept(v, 1, m, 1, 4) == [A2()] && Kept(v, 1, m, 2, 4) == [A2()] && Kept(v, 1, m, 3, 4) == [A2(), Z2()];
    assert [Output()][1..] == [];
  }

  lemma RangeNumbers()
    ensures Numbers([UpA(), UpZ()]) == {6, 7} && Numbers([LowA(), LowZ()]) == {4, 5} && Numbers([Output()]) == {9}
    ensures Numbers([LowA(), InGap(), LowZ()]) == {4, 8, 5} && Numbers([]) == {}
  {
    var up, low, mid := [UpA(), UpZ()], [LowA(), LowZ()], [LowA(), InGap(), LowZ()];
    assert up[0] in up && up[1] in up && low[0] in low && low[1] in low && Output() in [Output()];
    assert mid[0] in mid && mid[1] in mid && mid[2] in mid;
  }

  lemma RangeEdits()
    ensures LevelEdit([UpA(), UpZ()], [], {6, 7}, [])
    ensures LevelEdit([LowA(), InGap(), LowZ()], [Output(), InGap()], {4, 5}, [Output()])
  {
    var after := [Output(), InGap()];
    assert after[0] in after && after[1] in after;
  }

  lemma RangeInstalled()
    ensures Installed(V5(), V6(), 1, [UpA(), UpZ()], [LowA(), LowZ()], [Output()])
    ensures FreshNumbers(V5(), [Output()]) && BelowNext([Output()], 10)
  {
    RangeNumbers();
    RangeEdits();
  }

  lemma StartManual(s: State, v: Version, in0: seq<File>, in1: seq<File>, m: seq<Entry>, c: Pending, s': State)
    requires |v| == NUM_LEVELS && s.version == v && s.pending.None? && s.snapshots == multiset{}
    requires ValidInputs(v, 1, in0, in1) && Sorted(m) && Elems(m) == Entries(in0) + Entries(in1)
    requires c == Pending(true, 1, in0, in1, m, s.lastSeq, v) && s' == s.(pending := Some(c))
    ensures SafeNext(s, StartCompaction(c), s')
  {
  }

  lemma StartRange(s: State, s': State)
    requires s.version == V4() && s.pending.None? && s.snapshots == multiset{} && s.lastSeq == 4
    requires s' == s.(pending := Some(Range()))
    ensures SafeNext(s, StartCompaction(Range()), s')
  {
    assert ValidInputs(V4(), 1, [UpA(), UpZ()], [LowA(), LowZ()]) by { RangeInputs(); }
    RangeMerged();
    StartManual(s, V4(), [UpA(), UpZ()], [LowA(), LowZ()], Merged(), Range(), s');
  }

  /** The merge has begun and the memtable with key 5 has been flushed into the gap. */
  lemma RunIntoGap() returns (ss: seq<State>, steps: seq<Step>)
    ensures SafeRun(ss, steps)
    ensures ss[|steps|]
         == State({}, None, V5(), 5, multiset{}, 9, Some(Range()), {A1(), Z1(), A2(), Z2()} + {Mid()}, 0)
  {
    ss, steps := FourTables();
    var s := ss[|steps|];
    var s' := s.(pending := Some(Range()));
    StartRange(s, s');
    Extend(ss, steps, StartCompaction(Range()), s');
    ss, steps := FlushIntoGap(ss + [s'], steps + [StartCompaction(Range())], s');
  }

  lemma FlushIntoGap(ss: seq<State>, steps: seq<Step>, s: State) returns (ss': seq<State>, steps': seq<Step>)
    requires SafeRun(ss, steps) && ss[|steps|] == s && s.mem == {} && s.imm.None? && s.version == V4()
    requires s.lastSeq == 4 && s.nextFile == 8
    ensures SafeRun(ss', steps')
    ensures ss'[|steps'|] == s.(version := V5(), lastSeq := 5, nextFile := 9, history := s.history + {Mid()})
  {
    Edits();
    MeetsNothing([UpA(), UpZ()], [LowA(), LowZ()], InGap(), 2);
    ss', steps' := WriteAndFlush(ss, steps, s, Mid(), 8, 2, V5());
  }

  // ----- what a reader loses -----

  /** No level has the key, as GetFromLevel searches it. */
  ghost predicate Misses(v: Version, k: Key, t: nat) {
    |v| == NUM_LEVELS && v[0] == [] && forall l | 0 < l < NUM_LEVELS :: LevelGet(v[l], k, t) == None
  }

  lemma OutputHidesGap()
    ensures Misses(V6(), 5.0, 5)
  {
    var files, target := [Output(), InGap()], LookupKey(5.0, 5);
    assert !Before(Largest(files[0]), target) && !Before(Largest(files[1]), target);
    assert SearchFile(files, target, 0, 0) == 0;
    assert SearchFile(files, target, 0, 1) == 0;
    assert SearchFile(files, target, 0, 2) == 0;
    assert Output().entries[1..] == [Z2()];
    assert LowerBound([Z2()], target) == 0;
    assert LowerBound(Output().entries, target) == 1;
    assert LevelGet(files, 5.0, 5) == None;
    assert LevelGet([], 5.0, 5) == None;
  }

  lemma HistoryHasValue(H: set<Entry>)
    requires H == {A1(), Z1(), A2(), Z2(), Mid()}
    ensures Reading(H, 5.0, 5) == Some("m")
  {
    assert IsNewest(H, 5.0, 5, Mid());
    ReadingOfNewest(H, 5.0, 5, Mid());
  }

  lemma FinishRange(s: State, s': State)
    requires s == State({}, None, V5(), 5, multiset{}, 9, Some(Range()), {A1(), Z1(), A2(), Z2()} + {Mid()}, 0)
    requires s' == s.(version := V6(), nextFile := 10, pending := None, floor := 4)
    ensures Next(s, FinishCompaction([Output()]), s')
  {
    RangeOutput();
    RangeInstalled();
  }

  /** From the empty store, through steps that are all safe, to a merge of a manual range into which a memtable was
      flushed.  It can be finished so that the flushed value is found on no level, although it was the last written. */
  lemma RunToLostValue() returns (ss: seq<State>, steps: seq<Step>, s': State)
    ensures SafeRun(ss, steps)
    ensures ss[|steps|].pending == Some(Range()) && ss[|steps|].version == V5()
    ensures Next(ss[|steps|], FinishCompaction([Output()]), s') && s'.version == V6()
    ensures s'.mem == {} && s'.imm.None? && s'.lastSeq == 5 && LosesValue(s', 5.0, 5, "m")
  {
    ss, steps := RunIntoGap();
    var s := ss[|steps|];
    s' := s.(version := V6(), nextFile := 10, pending := None, floor := 4);
    FinishRange(s, s');
    ValueIsLost(s');
  }

  /** The history has a value that no level gives. */
  ghost predicate LosesValue(s: State, k: Key, t: nat, value: string) {
    Misses(s.version, k, t) && Reading(s.history, k, t) == Some(value)
  }

  lemma ValueIsLost(s: State)
    requires s.version == V6() && s.history == {A1(), Z1(), A2(), Z2()} + {Mid()}
    ensures LosesValue(s, 5.0, 5, "m")
  {
    OutputHidesGap();
    assert s.history == {A1(), Z1(), A2(), Z2(), Mid()};
    HistoryHasValue(s.history);
  }

  /** Why that installation is not safe: the range is a possible pick with a gap, and the flushed file lies in it. */
  lemma FlushedFileCanMeetOutput()
    ensures Picked(1, V4()[1], Range().in0) && !Connected(Range().in0 + Range().in1)
    ensures FlushedBetween(V4(), V5(), 1, Range().merged, Range().snap)
  {
    RangeHasGap();
    LiesInGap();
  }

  lemma LiesInGap()
    ensures FlushedBetween(V4(), V5(), 1, Merged(), 4)
  {
    RangeOutput();
    assert Concat([Output()]) == [A2(), Z2()] by { assert [Output()][1..] == []; }
    assert InGap() in V5()[2] && InGap() !in V4()[2];
    assert LiesBetween(InGap(), [A2(), Z2()], A2(), Z2());
  }
}
