/** The whole store as a state machine (db/db_impl.cc): writers fill the memtable, the memtable is switched and flushed,
    and the background thread moves and merges tables while writes, flushes and snapshots go on.

    `history` and `floor` are history variables: every entry ever written, and the largest snapshot bound any
    compaction has used so far.
 */
module Store {
  import opened Options
  import opened InternalKeys
  import opened Versions
  import opened InputSelection
  import opened CompactionSetup
  import opened Compactions
  import opened CompactionReads
  import opened VersionEdits
  import opened CompactionInstall

  /** A merge compaction that has been set up and not yet installed; `manual` if it came from CompactRange. */
  datatype Pending = Pending(manual: bool, level: nat, in0: seq<File>, in1: seq<File>, merged: seq<Entry>, snap: nat,
                             base: Version)

  datatype State = State(
    mem: set<Entry>,
    imm: Option<set<Entry>>,
    version: Version,
    lastSeq: nat,
    snapshots: multiset<nat>,
    nextFile: nat,
    pending: Option<Pending>,
    history: set<Entry>,
    floor: nat)

  ghost function ImmEntries(s: State): set<Entry> {
    if s.imm.Some? then s.imm.value else {}
  }

  /** Everything a read can see: memtable, immutable memtable, version. */
  ghost function AllEntries(s: State): set<Entry> {
    s.mem + ImmEntries(s) + VersionEntries(s.version)
  }

  // ----- steps -----

  datatype Step =
    | Write(es: set<Entry>)
    | SwitchMemtable
    | Flush(f: File, level: nat)
    | FlushEmpty
    | StartCompaction(c: Pending)
    | FinishCompaction(outputs: seq<File>)
    | AbandonCompaction
    | TrivialMove(level: nat, f: File)
    | TakeSnapshot
    | ReleaseSnapshot(t: nat)

  ghost predicate FreshNumbers(v: Version, files: seq<File>) {
    UniqueNumbers(files) && forall l | 0 <= l < |v| :: Numbers(v[l]) !! Numbers(files)
  }

  /** DoCompactionWork's bound: the oldest live snapshot, or the last sequence number if there is none. */
  ghost predicate IsSmallestSnapshot(s: State, snap: nat) {
    if s.snapshots == multiset{} then snap == s.lastSeq
    else snap in s.snapshots && forall t | t in s.snapshots :: snap <= t
  }

  ghost predicate Next(s: State, step: Step, s': State)
    requires |s.version| == NUM_LEVELS
  {
    match step
    case Write(es) =>
      && s.lastSeq <= s'.lastSeq < MAX_SEQUENCE
      && UniqueSeqs(es) && (forall e | e in es :: s.lastSeq < e.seqno <= s'.lastSeq)
      && s' == s.(mem := s.mem + es, lastSeq := s'.lastSeq, history := s.history + es)
    case SwitchMemtable =>
      s.imm.None? && s.nextFile <= s'.nextFile && s' == s.(imm := Some(s.mem), mem := {}, nextFile := s'.nextFile)
    case Flush(f, level) =>
      && s.imm.Some? && ValidFile(f) && Elems(f.entries) == s.imm.value
      && s.nextFile <= f.number < s'.nextFile && FlushLevel(s.version, f, level)
      && |s'.version| == NUM_LEVELS && LevelEdit(s.version[level], s'.version[level], {}, [f])
      && (forall l | 0 <= l < NUM_LEVELS && l != level :: s'.version[l] == s.version[l])
      && s' == s.(imm := None, version := s'.version, nextFile := s'.nextFile)
    case FlushEmpty =>
      s.imm == Some({}) && s.nextFile <= s'.nextFile && s' == s.(imm := None, nextFile := s'.nextFile)
    case StartCompaction(c) =>
      && s.pending.None? && c.base == s.version && c.level + 1 < NUM_LEVELS
      && ValidInputs(s.version, c.level, c.in0, c.in1) && (!c.manual ==> Connected(c.in0 + c.in1))
      && Sorted(c.merged) && Elems(c.merged) == Entries(c.in0) + Entries(c.in1)
      && IsSmallestSnapshot(s, c.snap)
      && s' == s.(pending := Some(c))
    case FinishCompaction(outputs) =>
      && s.pending.Some?
      && var c := s.pending.value;
         && |c.base| == NUM_LEVELS && c.level + 1 < NUM_LEVELS
         && CompactionOutput(c.base, c.level, c.merged, c.snap, outputs)
         && Installed(s.version, s'.version, c.level, c.in0, c.in1, outputs)
         && s.nextFile <= s'.nextFile && FreshNumbers(s.version, outputs)
         && BelowNext(outputs, s'.nextFile)
         && s' == s.(version := s'.version, nextFile := s'.nextFile, pending := None,
                     floor := if s.floor < c.snap then c.snap else s.floor)
    case AbandonCompaction =>
      s.pending.Some? && s' == s.(pending := None)
    case TrivialMove(level, f) =>
      && s.pending.None? && level + 1 < NUM_LEVELS && ValidInputs(s.version, level, [f], [])
      && Installed(s.version, s'.version, level, [f], [], [f])
      && s' == s.(version := s'.version)
    case TakeSnapshot =>
      s' == s.(snapshots := s.snapshots + multiset{s.lastSeq})
    case ReleaseSnapshot(t) =>
      t in s.snapshots && s' == s.(snapshots := s.snapshots - multiset{t})
  }

  /** The two things that can go wrong when a compaction is installed: a value below a dropped deletion marker was
      left outside the inputs, or, after a manual range only, a file flushed meanwhile lies between two surviving
      entries.  Neither depends on how the outputs are cut. */
  ghost predicate SafeToFinish(s: State)
    requires |s.version| == NUM_LEVELS
  {
    s.pending.Some? ==>
      var c := s.pending.value;
      |c.base| == NUM_LEVELS && c.level + 1 < NUM_LEVELS ==>
        && (c.manual ==> !FlushedBetween(c.base, s.version, c.level, c.merged, c.snap))
        && !SomeResurface(s, c)
  }

  ghost predicate SomeResurface(s: State, c: Pending)
    requires |c.base| == NUM_LEVELS
  {
    exists i, e :: Resurfaces(AllEntries(s), c.base, c.level, c.merged, c.snap, i, e)
  }

  ghost predicate SafeStep(s: State, step: Step)
    requires |s.version| == NUM_LEVELS
  {
    step.FinishCompaction? ==> SafeToFinish(s)
  }

  // ----- the invariant -----

  /** File numbers are unique in the version and below the next one to be given out. */
  ghost predicate NumbersInv(v: Version, nextFile: nat) {
    && (forall l | 0 <= l < |v| :: UniqueNumbers(v[l]) && BelowNext(v[l], nextFile))
    && (forall l, n | 0 <= l < n < |v| :: Numbers(v[l]) !! Numbers(v[n]))
  }

  ghost predicate BelowNext(files: seq<File>, nextFile: nat) {
    forall x | x in Numbers(files) :: x < nextFile
  }

  ghost predicate EntriesInv(s: State) {
    && UniqueSeqs(s.history) && AllEntries(s) <= s.history
    && s.lastSeq < MAX_SEQUENCE && (forall e | e in s.history :: e.seqno <= s.lastSeq)
  }

  ghost predicate MemoryIsNewer(s: State) {
    NewerThan(s.mem, ImmEntries(s)) && NewerThan(s.mem + ImmEntries(s), VersionEntries(s.version))
  }

  /** From the floor on, the store reads like the plain list of everything ever written. */
  ghost predicate ReadsLikeHistory(s: State) {
    forall k, t: nat | t >= s.floor :: Reading(AllEntries(s), k, t) == Reading(s.history, k, t)
  }

  ghost predicate SnapshotsInv(s: State) {
    s.floor <= s.lastSeq && forall t | t in s.snapshots :: s.floor <= t <= s.lastSeq
  }

  ghost predicate PendingInv(s: State) {
    s.pending.Some? ==>
      var c := s.pending.value;
      && Running(c.base, s.version, c.level, c.in0, c.in1, c.merged)
      && (!c.manual ==> Connected(c.in0 + c.in1))
      && s.floor <= c.snap <= s.lastSeq && forall t | t in s.snapshots :: c.snap <= t
  }

  ghost predicate Inv(s: State) {
    && VersionInv(s.version) && NumbersInv(s.version, s.nextFile)
    && EntriesInv(s) && MemoryIsNewer(s) && ReadsLikeHistory(s) && SnapshotsInv(s) && PendingInv(s)
  }

  ghost predicate Init(s: State) {
    && s.mem == {} && s.imm == None && s.lastSeq == 0 && s.snapshots == multiset{} && s.pending == None
    && s.history == {} && s.floor == 0 && |s.version| == NUM_LEVELS
    && forall l | 0 <= l < NUM_LEVELS :: s.version[l] == []
  }

  lemma InitInv(s: State)
    requires Init(s)
    ensures Inv(s)
  {
    assert VersionEntries(s.version) == {};
    assert AllEntries(s) == {};
  }

  // ----- each step keeps the invariant -----

  /** A step that changes no entry, sequence number or snapshot. */
  lemma SameEntriesKeep(s: State, s': State)
    requires EntriesInv(s) && MemoryIsNewer(s) && ReadsLikeHistory(s) && SnapshotsInv(s)
    requires s'.mem == s.mem && s'.imm == s.imm && VersionEntries(s'.version) == VersionEntries(s.version)
    requires s'.history == s.history && s'.lastSeq == s.lastSeq && s'.snapshots == s.snapshots && s'.floor == s.floor
    ensures EntriesInv(s') && MemoryIsNewer(s') && ReadsLikeHistory(s') && SnapshotsInv(s')
  {
    assert AllEntries(s') == AllEntries(s);
  }

  lemma WriteKeepsInv(s: State, es: set<Entry>, s': State)
    requires Inv(s) && Next(s, Write(es), s')
    ensures Inv(s')
  {
    assert AllEntries(s') == AllEntries(s) + es;
    assert NewerThan(es, s.history);
    forall k, t: nat | t >= s.floor ensures Reading(AllEntries(s'), k, t) == Reading(s'.history, k, t) {
      NewerReadsAlike(AllEntries(s), s.history, es, k, t);
    }
  }

  /** Adding the same newer entries to two stores that read alike keeps them reading alike. */
  lemma NewerReadsAlike(E: set<Entry>, H: set<Entry>, es: set<Entry>, k: Key, t: nat)
    requires E <= H && UniqueSeqs(H + es) && NewerThan(es, H)
    requires Reading(E, k, t) == Reading(H, k, t)
    ensures Reading(E + es, k, t) == Reading(H + es, k, t)
  {
    if w :| w in es && Visible(w, k, t) {
      NewestExists(es, k, t, w);
      var n :| IsNewest(es, k, t, n);
      assert IsNewest(H + es, k, t, n);
      ReadingOfPart(H + es, E + es, k, t, n);
    } else {
      ReadingSame(E, E + es, k, t);
      ReadingSame(H, H + es, k, t);
    }
  }

  lemma SwitchKeepsInv(s: State, s': State)
    requires Inv(s) && Next(s, SwitchMemtable, s')
    ensures Inv(s')
  {
    assert AllEntries(s') == AllEntries(s);
    assert s'.mem + ImmEntries(s') == s.mem + ImmEntries(s);
  }

  lemma SnapshotKeepsInv(s: State, step: Step, s': State)
    requires Inv(s) && Next(s, step, s') && (step.TakeSnapshot? || step.ReleaseSnapshot?)
    ensures Inv(s')
  {
    SnapshotsKeep(s, step, s');
    SameEntriesKeep(s, s'.(snapshots := s.snapshots));
  }

  lemma SnapshotsKeep(s: State, step: Step, s': State)
    requires |s.version| == NUM_LEVELS && Next(s, step, s') && (step.TakeSnapshot? || step.ReleaseSnapshot?)
    requires SnapshotsInv(s) && PendingInv(s)
    ensures SnapshotsInv(s') && PendingInv(s')
  {
  }

  lemma StartKeepsInv(s: State, c: Pending, s': State)
    requires Inv(s) && Next(s, StartCompaction(c), s')
    ensures Inv(s')
  {
    SameEntriesKeep(s, s');
    NumbersUniquePerLevel(s.version, s.nextFile);
    assert GrownBy(c.base, s.version);
    assert s.floor <= c.snap;
  }

  lemma AbandonKeepsInv(s: State, s': State)
    requires Inv(s) && Next(s, AbandonCompaction, s')
    ensures Inv(s')
  {
    SameEntriesKeep(s, s');
  }

  lemma FlushEmptyKeepsInv(s: State, s': State)
    requires Inv(s) && Next(s, FlushEmpty, s')
    ensures Inv(s')
  {
    assert AllEntries(s') == AllEntries(s);
  }

  // flushing

  lemma FlushedEntries(v: Version, v': Version, f: File, level: nat)
    requires |v| == NUM_LEVELS && |v'| == NUM_LEVELS && level < NUM_LEVELS
    requires LevelEdit(v[level], v'[level], {}, [f]) && forall l | 0 <= l < NUM_LEVELS && l != level :: v'[l] == v[l]
    ensures VersionEntries(v') == VersionEntries(v) + Elems(f.entries)
  {
    forall e ensures e in VersionEntries(v') <==> e in VersionEntries(v) || e in f.entries {
      if e in VersionEntries(v') {
        var l :| 0 <= l < |v'| && e in Entries(v'[l]);
        assert e in Entries(v[l]) || e in f.entries;
      }
      if e in VersionEntries(v) {
        var l :| 0 <= l < |v| && e in Entries(v[l]);
        assert e in Entries(v'[l]);
      }
      if e in f.entries {
        assert f in v'[level];
        assert e in Entries(v'[level]);
      }
    }
  }

  lemma EditNumbers(before: seq<File>, after: seq<File>, deleted: set<nat>, added: seq<File>)
    requires LevelEdit(before, after, deleted, added)
    ensures Numbers(after) == (Numbers(before) - deleted) + Numbers(added)
    ensures UniqueNumbers(before) && UniqueNumbers(added) && (Numbers(before) - deleted) !! Numbers(added) ==>
            UniqueNumbers(after)
  {
    forall x ensures x in Numbers(after) <==> x in (Numbers(before) - deleted) + Numbers(added) {
      if x in Numbers(after) {
        var f :| f in after && f.number == x;
      }
      if x in Numbers(before) - deleted {
        var f :| f in before && f.number == x;
        assert f in after;
      }
      if x in Numbers(added) {
        var f :| f in added && f.number == x;
        assert f in after;
      }
    }
    if UniqueNumbers(before) && UniqueNumbers(added) && (Numbers(before) - deleted) !! Numbers(added) {
      forall f, g | f in after && g in after && f.number == g.number ensures f == g {
        assert f in added ==> f.number in Numbers(added);
        assert g in added ==> g.number in Numbers(added);
        assert f in before && f.number !in deleted ==> f.number in Numbers(before) - deleted;
        assert g in before && g.number !in deleted ==> g.number in Numbers(before) - deleted;
      }
    }
  }

  lemma FlushedNumbers(v: Version, v': Version, f: File, level: nat, nextFile: nat, nextFile': nat)
    requires |v| == NUM_LEVELS && |v'| == NUM_LEVELS && level < NUM_LEVELS && NumbersInv(v, nextFile)
    requires nextFile <= f.number < nextFile'
    requires LevelEdit(v[level], v'[level], {}, [f]) && forall l | 0 <= l < NUM_LEVELS && l != level :: v'[l] == v[l]
    ensures NumbersInv(v', nextFile')
  {
    EditNumbers(v[level], v'[level], {}, [f]);
    assert Numbers([f]) == {f.number} && f in [f];
    forall l | 0 <= l < NUM_LEVELS ensures f.number !in Numbers(v[l]) {
      assert BelowNext(v[l], nextFile);
    }
  }

  lemma FlushedGrows(base: Version, v: Version, v': Version, f: File, level: nat)
    requires GrownBy(base, v) && |v'| == NUM_LEVELS && level < NUM_LEVELS
    requires LevelEdit(v[level], v'[level], {}, [f]) && forall l | 0 <= l < NUM_LEVELS && l != level :: v'[l] == v[l]
    requires NewerThan(Elems(f.entries), VersionEntries(v)) && FlushLevel(v, f, level)
    ensures GrownBy(base, v')
  {
    GrownHasBase(base, v);
    FlushLevelOnBase(base, v, f, level);
    forall l, g | 0 <= l < NUM_LEVELS && g in v'[l] && g !in base[l]
      ensures NewerThan(Elems(g.entries), VersionEntries(base)) && FlushLevel(base, g, l)
    {
      assert g in v[l] || g == f;
    }
  }

  /** A level that suits the present version suits the part of it that was there before. */
  lemma FlushLevelOnBase(base: Version, v: Version, f: File, level: nat)
    requires GrownBy(base, v) && FlushLevel(v, f, level)
    ensures FlushLevel(base, f, level)
  {
  }

  lemma GrownHasBase(base: Version, v: Version)
    requires GrownBy(base, v)
    ensures VersionEntries(base) <= VersionEntries(v)
  {
    forall e | e in VersionEntries(base) ensures e in VersionEntries(v) {
      var l :| 0 <= l < NUM_LEVELS && e in Entries(base[l]);
      assert e in Entries(v[l]);
    }
  }

  lemma NumbersUniquePerLevel(v: Version, nextFile: nat)
    requires NumbersInv(v, nextFile)
    ensures forall l | 0 <= l < |v| :: UniqueNumbers(v[l])
  {
  }

  lemma FlushVersion(s: State, f: File, level: nat, s': State)
    requires Inv(s) && Next(s, Flush(f, level), s')
    ensures VersionInv(s'.version) && NumbersInv(s'.version, s'.nextFile)
    ensures VersionEntries(s'.version) == VersionEntries(s.version) + ImmEntries(s)
  {
    var v, v' := s.version, s'.version;
    forall l, g: File | 0 <= l < NUM_LEVELS && g in v[l] ensures g.number < f.number {
      assert BelowNext(v[l], s.nextFile) && g.number in Numbers(v[l]);
    }
    FlushKeepsVersionInv(v, v', f, level);
    FlushedEntries(v, v', f, level);
    FlushedNumbers(v, v', f, level, s.nextFile, s'.nextFile);
  }

  lemma FlushPending(s: State, f: File, level: nat, s': State)
    requires Inv(s) && Next(s, Flush(f, level), s') && VersionInv(s'.version) && NumbersInv(s'.version, s'.nextFile)
    ensures PendingInv(s')
  {
    if s.pending.Some? {
      FlushedGrows(s.pending.value.base, s.version, s'.version, f, level);
      NumbersUniquePerLevel(s'.version, s'.nextFile);
    }
  }

  lemma FlushKeepsInv(s: State, f: File, level: nat, s': State)
    requires Inv(s) && Next(s, Flush(f, level), s')
    ensures Inv(s')
  {
    FlushVersion(s, f, level, s');
    FlushPending(s, f, level, s');
    FlushKeepsEntries(s, s');
  }

  lemma FlushKeepsEntries(s: State, s': State)
    requires EntriesInv(s) && MemoryIsNewer(s) && ReadsLikeHistory(s) && SnapshotsInv(s)
    requires s' == s.(imm := None, version := s'.version, nextFile := s'.nextFile)
    requires VersionEntries(s'.version) == VersionEntries(s.version) + ImmEntries(s)
    ensures EntriesInv(s') && MemoryIsNewer(s') && ReadsLikeHistory(s') && SnapshotsInv(s')
  {
    assert AllEntries(s') == AllEntries(s);
  }

  // installing

  lemma InstalledNumbers(v: Version, v': Version, level: nat, in0: seq<File>, in1: seq<File>, outputs: seq<File>,
                         nextFile: nat, nextFile': nat)
    requires |v| == NUM_LEVELS && level + 1 < NUM_LEVELS && NumbersInv(v, nextFile) && nextFile <= nextFile'
    requires Installed(v, v', level, in0, in1, outputs)
    requires UniqueNumbers(outputs) && BelowNext(outputs, nextFile')
    requires forall l | 0 <= l < NUM_LEVELS && l != level :: Numbers(v[l]) !! Numbers(outputs)
    requires (Numbers(v[level]) - Numbers(in0)) !! Numbers(outputs)
    ensures NumbersInv(v', nextFile')
  {
    EditNumbers(v[level], v'[level], Numbers(in0), []);
    EditNumbers(v[level + 1], v'[level + 1], Numbers(in1), outputs);
    assert Numbers([]) == {};
    NumbersPerLevel(v, v', level, Numbers(in0), Numbers(in1), Numbers(outputs));
    forall l | 0 <= l < NUM_LEVELS ensures UniqueNumbers(v'[l]) && BelowNext(v'[l], nextFile') {
      assert UniqueNumbers(v[l]) && BelowNext(v[l], nextFile);
    }
  }

  lemma NumbersPerLevel(v: Version, v': Version, level: nat, D0: set<nat>, D1: set<nat>, O: set<nat>)
    requires |v| == NUM_LEVELS && |v'| == NUM_LEVELS && level + 1 < NUM_LEVELS
    requires forall l, n | 0 <= l < n < |v| :: Numbers(v[l]) !! Numbers(v[n])
    requires forall l | 0 <= l < NUM_LEVELS && l != level && l != level + 1 :: v'[l] == v[l]
    requires Numbers(v'[level]) == Numbers(v[level]) - D0
    requires Numbers(v'[level + 1]) == (Numbers(v[level + 1]) - D1) + O
    requires forall l | 0 <= l < NUM_LEVELS && l != level :: Numbers(v[l]) !! O
    requires (Numbers(v[level]) - D0) !! O
    ensures forall l, n | 0 <= l < n < |v'| :: Numbers(v'[l]) !! Numbers(v'[n])
  {
    forall l, n | 0 <= l < n < |v'| ensures Numbers(v'[l]) !! Numbers(v'[n]) {
      assert Numbers(v[l]) !! Numbers(v[n]);
    }
  }

  /** The entry sets before and after an installation. */
  lemma InstalledAllEntries(s: State, s': State, I: set<Entry>, O: set<Entry>)
    requires MemoryIsNewer(s) && s'.mem == s.mem && s'.imm == s.imm
    requires I <= VersionEntries(s.version) && O <= I
    requires VersionEntries(s'.version) == (VersionEntries(s.version) - I) + O
    ensures AllEntries(s') == (AllEntries(s) - I) + O
    ensures AllEntries(s') <= AllEntries(s) && VersionEntries(s'.version) <= VersionEntries(s.version)
  {
    NewerIsDisjoint(s.mem + ImmEntries(s), VersionEntries(s.version));
  }

  /** The new state reads like the history if and only if no value resurfaces. */
  lemma FinishReads(s: State, c: Pending, s': State)
    requires ReadsLikeHistory(s) && EntriesInv(s)
    requires |c.base| == NUM_LEVELS && Sorted(c.merged) && Elems(c.merged) <= AllEntries(s)
    requires AllEntries(s') == AfterCompaction(AllEntries(s), c.base, c.level, c.merged, c.snap)
    requires s.floor <= c.snap == s'.floor && s'.history == s.history
    ensures ReadsLikeHistory(s') <==> !SomeResurface(s, c)
  {
    assert UniqueSeqs(AllEntries(s));
    CompactionPreservesReadsIff(AllEntries(s), c.base, c.level, c.merged, c.snap);
  }

  lemma FinishVersion(s: State, outputs: seq<File>, s': State)
    requires Inv(s) && Next(s, FinishCompaction(outputs), s')
    ensures NumbersInv(s'.version, s'.nextFile)
    ensures var c := s.pending.value;
            VersionInv(s'.version) <==> FlushedApart(c.base, s.version, c.level, outputs)
  {
    var c := s.pending.value;
    FinishNumbers(s.version, s'.version, c, outputs, s.nextFile, s'.nextFile);
    FinishKeepsVersion(s.version, s'.version, c, outputs);
  }

  lemma FinishKeepsVersion(v: Version, v': Version, c: Pending, outputs: seq<File>)
    requires Running(c.base, v, c.level, c.in0, c.in1, c.merged)
    requires CompactionOutput(c.base, c.level, c.merged, c.snap, outputs)
             && Installed(v, v', c.level, c.in0, c.in1, outputs)
    requires forall g, o | g in v[c.level + 1] && o in outputs :: g.number != o.number
    ensures VersionInv(v') <==> FlushedApart(c.base, v, c.level, outputs)
  {
    OutputFacts(c.base, c.level, c.merged, c.snap, outputs);
    InstallKeepsVersionInv(c.base, v, v', c.level, c.in0, c.in1, c.merged, outputs);
  }

  lemma FinishNumbers(v: Version, v': Version, c: Pending, outputs: seq<File>, nextFile: nat, nextFile': nat)
    requires |v| == NUM_LEVELS && c.level + 1 < NUM_LEVELS && NumbersInv(v, nextFile) && nextFile <= nextFile'
    requires Installed(v, v', c.level, c.in0, c.in1, outputs) && FreshNumbers(v, outputs)
             && BelowNext(outputs, nextFile')
    ensures NumbersInv(v', nextFile')
    ensures forall g, o | g in v[c.level + 1] && o in outputs :: g.number != o.number
  {
    ApartNumbers(v[c.level + 1], outputs);
    InstalledNumbers(v, v', c.level, c.in0, c.in1, outputs, nextFile, nextFile');
  }

  lemma ApartNumbers(files: seq<File>, outputs: seq<File>)
    requires Numbers(files) !! Numbers(outputs)
    ensures forall g, o | g in files && o in outputs :: g.number != o.number
  {
    forall g, o | g in files && o in outputs ensures g.number != o.number {
      assert g.number in Numbers(files) && o.number in Numbers(outputs);
    }
  }

  lemma FinishEntries(s: State, outputs: seq<File>, s': State)
    requires Inv(s) && Next(s, FinishCompaction(outputs), s')
    ensures var c := s.pending.value;
            && Elems(c.merged) <= VersionEntries(s.version)
            && AllEntries(s') == AfterCompaction(AllEntries(s), c.base, c.level, c.merged, c.snap)
            && AllEntries(s') <= AllEntries(s) && VersionEntries(s'.version) <= VersionEntries(s.version)
  {
    var c := s.pending.value;
    OutputFacts(c.base, c.level, c.merged, c.snap, outputs);
    InstalledEntries(c.base, s.version, s'.version, c.level, c.in0, c.in1, c.merged, outputs);
    InstalledAllEntries(s, s', Elems(c.merged), Entries(outputs));
  }

  /** One installation keeps the invariant exactly when its outputs keep clear of the files flushed meanwhile and no
      value resurfaces. */
  lemma FinishKeepsInvIff(s: State, outputs: seq<File>, s': State)
    requires Inv(s) && Next(s, FinishCompaction(outputs), s')
    ensures var c := s.pending.value;
            Inv(s') <==> FlushedApart(c.base, s.version, c.level, outputs) && !SomeResurface(s, c)
  {
    FinishVersion(s, outputs, s');
    FinishRest(s, outputs, s');
  }

  lemma FinishRest(s: State, outputs: seq<File>, s': State)
    requires Inv(s) && Next(s, FinishCompaction(outputs), s')
    ensures EntriesInv(s') && MemoryIsNewer(s') && SnapshotsInv(s') && PendingInv(s')
    ensures ReadsLikeHistory(s') <==> !SomeResurface(s, s.pending.value)
  {
    FinishEntries(s, outputs, s');
    FinishFloor(s, outputs, s');
    FinishKeepsEntries(s, s.pending.value, s');
  }

  lemma FinishFloor(s: State, outputs: seq<File>, s': State)
    requires PendingInv(s) && |s.version| == NUM_LEVELS && Next(s, FinishCompaction(outputs), s')
    ensures var c := s.pending.value;
            s' == s.(version := s'.version, nextFile := s'.nextFile, pending := None, floor := c.snap)
  {
  }

  lemma FinishKeepsEntries(s: State, c: Pending, s': State)
    requires EntriesInv(s) && MemoryIsNewer(s) && ReadsLikeHistory(s) && SnapshotsInv(s)
    requires s.floor <= c.snap <= s.lastSeq && forall t | t in s.snapshots :: c.snap <= t
    requires |c.base| == NUM_LEVELS && Sorted(c.merged) && Elems(c.merged) <= VersionEntries(s.version)
    requires s' == s.(version := s'.version, nextFile := s'.nextFile, pending := None, floor := c.snap)
    requires AllEntries(s') == AfterCompaction(AllEntries(s), c.base, c.level, c.merged, c.snap)
    requires AllEntries(s') <= AllEntries(s) && VersionEntries(s'.version) <= VersionEntries(s.version)
    ensures EntriesInv(s') && MemoryIsNewer(s') && SnapshotsInv(s') && PendingInv(s')
    ensures ReadsLikeHistory(s') <==> !SomeResurface(s, c)
  {
    FewerEntries(s, s');
    FinishReads(s, c, s');
    FinishSnapshots(s, c, s');
  }

  lemma FinishSnapshots(s: State, c: Pending, s': State)
    requires SnapshotsInv(s) && s.floor <= c.snap <= s.lastSeq && forall t | t in s.snapshots :: c.snap <= t
    requires s'.floor == c.snap && s'.lastSeq == s.lastSeq && s'.snapshots == s.snapshots
    ensures SnapshotsInv(s')
  {
  }

  lemma FewerEntries(s: State, s': State)
    requires EntriesInv(s) && MemoryIsNewer(s) && s'.mem == s.mem && s'.imm == s.imm
    requires s'.history == s.history && s'.lastSeq == s.lastSeq
    requires AllEntries(s') <= AllEntries(s) && VersionEntries(s'.version) <= VersionEntries(s.version)
    ensures EntriesInv(s') && MemoryIsNewer(s')
  {
  }

  lemma FinishKeepsInv(s: State, outputs: seq<File>, s': State)
    requires Inv(s) && Next(s, FinishCompaction(outputs), s') && SafeToFinish(s)
    ensures Inv(s')
  {
    var c := s.pending.value;
    if !c.manual {
      ConnectedIsSafe(c.base, s.version, c.level, c.in0, c.in1, c.merged, c.snap);
    }
    NotBetweenIsApart(c.base, s.version, c.level, c.in0, c.in1, c.merged, c.snap, outputs);
    FinishKeepsInvIff(s, outputs, s');
  }

  /** A reader sees a value that is deleted in the history. */
  ghost predicate ReadsDeleted(s: State, k: Key, t: nat, value: string) {
    Reading(AllEntries(s), k, t) == Some(value) && Reading(s.history, k, t) == None
  }

  lemma ResurfacedValueIsRead(s: State, c: Pending, outputs: seq<File>, s': State, i: int, e: Entry)
    requires Inv(s) && s.pending == Some(c) && Next(s, FinishCompaction(outputs), s')
    requires Resurfaces(AllEntries(s), c.base, c.level, c.merged, c.snap, i, e)
    ensures ReadsDeleted(s', c.merged[i].key, c.snap, e.value)
  {
    FinishEntries(s, outputs, s');
    ReadsDeletedAfter(s, c, s', i, e);
  }

  lemma ReadsDeletedAfter(s: State, c: Pending, s': State, i: int, e: Entry)
    requires EntriesInv(s) && ReadsLikeHistory(s) && s.floor <= c.snap && s'.history == s.history
    requires |c.base| == NUM_LEVELS && Sorted(c.merged) && Elems(c.merged) <= VersionEntries(s.version)
    requires AllEntries(s') == AfterCompaction(AllEntries(s), c.base, c.level, c.merged, c.snap)
    requires Resurfaces(AllEntries(s), c.base, c.level, c.merged, c.snap, i, e)
    ensures ReadsDeleted(s', c.merged[i].key, c.snap, e.value)
  {
    assert UniqueSeqs(AllEntries(s));
    ResurfacingChangesRead(AllEntries(s), c.base, c.level, c.merged, c.snap, i, e);
  }

  /** The compaction can be finished, and however it is, the deleted value is read. */
  ghost predicate BringsBack(s: State, k: Key, t: nat, value: string)
    requires |s.version| == NUM_LEVELS
  {
    && (exists outputs, s' :: Next(s, FinishCompaction(outputs), s'))
    && forall outputs, s' | Next(s, FinishCompaction(outputs), s') :: ReadsDeleted(s', k, t, value)
  }

  lemma ResurfacingBringsBack(s: State, c: Pending, i: int, e: Entry)
    requires Inv(s) && s.pending == Some(c) && Resurfaces(AllEntries(s), c.base, c.level, c.merged, c.snap, i, e)
    ensures BringsBack(s, c.merged[i].key, c.snap, e.value)
  {
    var outputs, s' := UncutFinish(s);
    forall outputs, s' | Next(s, FinishCompaction(outputs), s')
      ensures ReadsDeleted(s', c.merged[i].key, c.snap, e.value)
    {
      ResurfacedValueIsRead(s, c, outputs, s', i, e);
    }
  }

  /** Every way of finishing the compaction keeps the invariant if and only if the condition holds, which does
      not name the outputs. */
  lemma SafeToFinishIff(s: State)
    requires Inv(s) && s.pending.Some?
    ensures SafeToFinish(s) <==> forall outputs, s' | Next(s, FinishCompaction(outputs), s') :: Inv(s')
  {
    if SafeToFinish(s) {
      forall outputs, s' | Next(s, FinishCompaction(outputs), s') ensures Inv(s') {
        FinishKeepsInv(s, outputs, s');
      }
    } else {
      var outputs, s' := UncutFinish(s);
      FinishKeepsInvIff(s, outputs, s');
    }
  }

  /** The installation of all surviving entries in one file is a step, and meets every file that lies between. */
  lemma UncutFinish(s: State) returns (outputs: seq<File>, s': State)
    requires Inv(s) && s.pending.Some?
    ensures Next(s, FinishCompaction(outputs), s')
    ensures var c := s.pending.value;
            FlushedBetween(c.base, s.version, c.level, c.merged, c.snap) ==>
              !FlushedApart(c.base, s.version, c.level, outputs)
  {
    var c := s.pending.value;
    outputs := UncutOutputs(s.version, c, s.nextFile);
    s' := FinishExists(s, c, outputs);
  }

  lemma UncutOutputs(v: Version, c: Pending, number: nat) returns (outputs: seq<File>)
    requires LevelsValid(v) && |c.base| == NUM_LEVELS && c.level + 1 < NUM_LEVELS && Sorted(c.merged)
    ensures CompactionOutput(c.base, c.level, c.merged, c.snap, outputs)
    ensures |outputs| <= 1 && forall o | o in outputs :: o.number == number
    ensures FlushedBetween(c.base, v, c.level, c.merged, c.snap) ==> !FlushedApart(c.base, v, c.level, outputs)
  {
    outputs := Uncut(Kept(c.base, c.level, c.merged, |c.merged|, c.snap), number);
    UncutIsOutput(c.base, c.level, c.merged, c.snap, number);
    if FlushedBetween(c.base, v, c.level, c.merged, c.snap) {
      UncutMeetsFlushed(c.base, v, c.level, c.merged, c.snap, number);
    }
  }

  lemma FinishExists(s: State, c: Pending, outputs: seq<File>) returns (s': State)
    requires s.pending == Some(c) && |s.version| == NUM_LEVELS && |c.base| == NUM_LEVELS && c.level + 1 < NUM_LEVELS
    requires NumbersInv(s.version, s.nextFile) && s.floor <= c.snap
    requires CompactionOutput(c.base, c.level, c.merged, c.snap, outputs)
    requires |outputs| <= 1 && forall o | o in outputs :: o.number == s.nextFile
    ensures Next(s, FinishCompaction(outputs), s')
  {
    var v' := InstallExists(s.version, c.level, c.in0, c.in1, outputs, s.nextFile);
    s' := s.(version := v', nextFile := s.nextFile + 1, pending := None, floor := c.snap);
  }

  lemma InstallExists(v: Version, level: nat, in0: seq<File>, in1: seq<File>, outputs: seq<File>, nextFile: nat)
    returns (v': Version)
    requires |v| == NUM_LEVELS && level + 1 < NUM_LEVELS && NumbersInv(v, nextFile)
    requires |outputs| <= 1 && forall o | o in outputs :: o.number == nextFile
    ensures Installed(v, v', level, in0, in1, outputs)
    ensures FreshNumbers(v, outputs) && BelowNext(outputs, nextFile + 1)
  {
    NextNumberIsFresh(v, outputs, nextFile);
    var upper := EditExists(v[level], Numbers(in0), []);
    var lower := EditExists(v[level + 1], Numbers(in1), outputs);
    v' := v[level := upper][level + 1 := lower];
  }

  lemma NextNumberIsFresh(v: Version, outputs: seq<File>, nextFile: nat)
    requires |v| == NUM_LEVELS && NumbersInv(v, nextFile) && |outputs| <= 1
             && forall o | o in outputs :: o.number == nextFile
    ensures FreshNumbers(v, outputs) && BelowNext(outputs, nextFile + 1)
    ensures UniqueNumbers([]) && Numbers([]) == {}
    ensures forall l | 0 <= l < NUM_LEVELS :: UniqueNumbers(v[l]) && Numbers(v[l]) !! Numbers([])
  {
    forall l | 0 <= l < NUM_LEVELS ensures Numbers(v[l]) !! Numbers(outputs) {
      assert BelowNext(v[l], nextFile);
    }
  }

  /** Any edit of a level can be written out as a list sorted by smallest key. */
  lemma EditExists(before: seq<File>, deleted: set<nat>, added: seq<File>) returns (after: seq<File>)
    requires UniqueNumbers(before) && UniqueNumbers(added) && Numbers(before) !! Numbers(added)
    ensures LevelEdit(before, after, deleted, added)
  {
    var S := (set f | f in before && f.number !in deleted) + (set f | f in added);
    forall f, g | f in S && g in S && f.number == g.number ensures f == g {
      assert f in before ==> f.number in Numbers(before);
      assert g in before ==> g.number in Numbers(before);
      assert f in added ==> f.number in Numbers(added);
      assert g in added ==> g.number in Numbers(added);
    }
    after := SortedListOf(S);
  }

  lemma {:induction false} SortedListOf(S: set<File>) returns (files: seq<File>)
    requires forall f, g | f in S && g in S && f.number == g.number :: f == g
    ensures SortedBySmallest(files) && forall f :: f in files <==> f in S
  {
    if S == {} {
      files := [];
    } else {
      var f :| f in S;
      var rest := SortedListOf(S - {f});
      files := InsertedFile(rest, f);
    }
  }

  lemma {:induction false} InsertedFile(rest: seq<File>, f: File) returns (files: seq<File>)
    requires SortedBySmallest(rest) && forall g | g in rest :: g.number != f.number
    ensures SortedBySmallest(files) && forall g :: g in files <==> g in rest || g == f
  {
    if rest == [] || BySmallest(f, rest[0]) {
      files := [f] + rest;
      forall j | 1 <= j < |rest| ensures BySmallest(f, rest[j]) {
        assert BySmallest(rest[0], rest[j]);
      }
    } else {
      var tail := InsertedFile(rest[1..], f);
      files := [rest[0]] + tail;
      assert rest == [rest[0]] + rest[1..];
      forall j | 0 <= j < |tail| ensures BySmallest(rest[0], tail[j]) {
        assert tail[j] in rest[1..] || tail[j] == f;
      }
    }
  }

  // moving

  lemma MoveIsRunning(v: Version, level: nat, f: File)
    requires VersionInv(v) && (forall l | 0 <= l < NUM_LEVELS :: UniqueNumbers(v[l]))
    requires level + 1 < NUM_LEVELS && ValidInputs(v, level, [f], [])
    ensures Running(v, v, level, [f], [], f.entries) && OutputShape(f.entries, [f])
    ensures FlushedApart(v, v, level, [f])
  {
    InputsAreFiles(v, level, [f], []);
    assert f in [f];
    assert Entries([f]) == Elems(f.entries);
    assert Entries([]) == {};
  }

  lemma MoveKeepsInv(s: State, level: nat, f: File, s': State)
    requires Inv(s) && Next(s, TrivialMove(level, f), s')
    ensures Inv(s')
  {
    MoveKeepsVersion(s.version, s'.version, s.nextFile, level, f);
    SameEntriesKeep(s, s');
  }

  lemma MoveKeepsVersion(v: Version, v': Version, nextFile: nat, level: nat, f: File)
    requires VersionInv(v) && NumbersInv(v, nextFile)
    requires level + 1 < NUM_LEVELS && ValidInputs(v, level, [f], []) && Installed(v, v', level, [f], [], [f])
    ensures VersionInv(v') && NumbersInv(v', nextFile)
    ensures VersionEntries(v') == VersionEntries(v)
  {
    NumbersUniquePerLevel(v, nextFile);
    MoveIsRunning(v, level, f);
    MoveNumbers(v, nextFile, level, f);
    ApartNumbers(v[level + 1], [f]);
    InstallKeepsVersionInv(v, v, v', level, [f], [], f.entries, [f]);
    InstalledNumbers(v, v', level, [f], [], [f], nextFile, nextFile);
    InstalledEntries(v, v, v', level, [f], [], f.entries, [f]);
    MoveSameEntries(v, v', f);
  }

  lemma MoveNumbers(v: Version, nextFile: nat, level: nat, f: File)
    requires |v| == NUM_LEVELS && NumbersInv(v, nextFile) && level + 1 < NUM_LEVELS && ValidInputs(v, level, [f], [])
    ensures Numbers([f]) == {f.number} && BelowNext([f], nextFile) && UniqueNumbers([f])
    ensures forall l | 0 <= l < NUM_LEVELS && l != level :: Numbers(v[l]) !! Numbers([f])
  {
    assert f in [f] && f in v[level];
    assert f.number in Numbers(v[level]) && BelowNext(v[level], nextFile);
    forall l | 0 <= l < NUM_LEVELS && l != level ensures f.number !in Numbers(v[l]) {
      assert if l < level then Numbers(v[l]) !! Numbers(v[level]) else Numbers(v[level]) !! Numbers(v[l]);
    }
  }

  lemma MoveSameEntries(v: Version, v': Version, f: File)
    requires Elems(f.entries) <= VersionEntries(v)
    requires VersionEntries(v') == (VersionEntries(v) - Elems(f.entries)) + Entries([f])
    ensures VersionEntries(v') == VersionEntries(v)
  {
    assert Entries([f]) == Elems(f.entries);
  }

  /** Every step keeps the invariant, a compaction's installation provided it is safe. */
  lemma StepKeepsInv(s: State, step: Step, s': State)
    requires Inv(s) && Next(s, step, s') && SafeStep(s, step)
    ensures Inv(s')
  {
    match step
    case Write(es) => WriteKeepsInv(s, es, s');
    case SwitchMemtable => SwitchKeepsInv(s, s');
    case Flush(f, level) => FlushKeepsInv(s, f, level, s');
    case FlushEmpty => FlushEmptyKeepsInv(s, s');
    case StartCompaction(c) => StartKeepsInv(s, c, s');
    case FinishCompaction(outputs) => FinishKeepsInv(s, outputs, s');
    case AbandonCompaction => AbandonKeepsInv(s, s');
    case TrivialMove(level, f) => MoveKeepsInv(s, level, f, s');
    case TakeSnapshot => SnapshotKeepsInv(s, step, s');
    case ReleaseSnapshot(t) => SnapshotKeepsInv(s, step, s');
  }
}
