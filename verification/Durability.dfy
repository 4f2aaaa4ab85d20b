/** Crashes of the store.  The version is on disk; of the memtables any part may survive, since their logs are cut each
    at a byte of its own.  What is read afterwards is the plain rule over the history without what was lost. */
module Durability {
  import opened Options
  import opened InternalKeys
  import opened Versions
  import opened CompactionReads
  import opened VersionEdits
  import opened CompactionInstall
  import opened Store
  import opened StoreRuns

  /** The store, and as history the largest sequence number flushed so far. */
  datatype Db = Db(s: State, flushed: nat)

  ghost function Upto(E: set<Entry>, last: nat): set<Entry> {
    set e | e in E && e.seqno <= last
  }

  ghost function Memory(s: State): set<Entry> {
    s.mem + ImmEntries(s)
  }

  // ----- steps -----

  /** What a crash leaves: the entries that the logs give back, and the numbers to go on with. */
  datatype Remains = Remains(kept: set<Entry>, last: nat, nextFile: nat)

  datatype DbStep =
    | Live(step: Step, flushed: nat)
    | Crash(r: Remains)
    | CutMemtable(n: nat)   // recovery finds the memtable full and writes out what it has so far

  ghost function Lost(s: State, kept: set<Entry>): set<Entry> {
    Memory(s) - kept
  }

  /** The store as it is opened again: no snapshots and no running compaction. */
  ghost function Reopened(d: Db, r: Remains): State {
    d.s.(mem := r.kept, imm := None, lastSeq := r.last, snapshots := multiset{}, nextFile := r.nextFile,
         pending := None, history := d.s.history - Lost(d.s, r.kept), floor := d.flushed)
  }

  ghost predicate CanRemain(d: Db, r: Remains) {
    && r.kept <= Memory(d.s) && d.flushed <= r.last <= d.s.lastSeq && (forall e | e in r.kept :: e.seqno <= r.last)
    && forall l | 0 <= l < |d.s.version| :: BelowNext(d.s.version[l], r.nextFile)
  }

  ghost predicate Flushes(d: Db, step: Step, flushed: nat) {
    if step.Flush? then
      && d.flushed <= flushed && (forall e | e in ImmEntries(d.s) :: e.seqno <= flushed)
      && (forall e | e in d.s.mem :: flushed < e.seqno) && flushed <= d.s.lastSeq
    else flushed == d.flushed
  }

  ghost predicate DbNext(d: Db, step: DbStep, d': Db) {
    && |d.s.version| == NUM_LEVELS && d'.flushed == (if step.Live? then step.flushed else d.flushed)
    && match step
       case Live(step, flushed) => Next(d.s, step, d'.s) && Flushes(d, step, flushed)
       case Crash(r) => CanRemain(d, r) && d'.s == Reopened(d, r)
       case CutMemtable(n) =>
         d.s.imm.None? && d'.s == d.s.(imm := Some(Upto(d.s.mem, n)), mem := d.s.mem - Upto(d.s.mem, n))
  }

  /** `Store.SafeToFinish` for what is on disk: no value resurfaces there even if a memtable hides it. */
  ghost predicate SafeFromCrash(s: State)
    requires |s.version| == NUM_LEVELS
  {
    s.pending.Some? ==>
      var c := s.pending.value;
      |c.base| == NUM_LEVELS && c.level + 1 < NUM_LEVELS ==>
        && (c.manual ==> !FlushedBetween(c.base, s.version, c.level, c.merged, c.snap))
        && !OnDiskResurfaces(s, c)
  }

  ghost predicate OnDiskResurfaces(s: State, c: Pending)
    requires |c.base| == NUM_LEVELS
  {
    exists i, e :: Resurfaces(VersionEntries(s.version), c.base, c.level, c.merged, c.snap, i, e)
  }

  ghost predicate SafeDbStep(s: State, step: DbStep)
    requires |s.version| == NUM_LEVELS
  {
    step.Live? && step.step.FinishCompaction? ==> SafeFromCrash(s)
  }

  // ----- the invariant -----

  ghost predicate Below(v: Version, flushed: nat) {
    forall e | e in VersionEntries(v) :: e.seqno <= flushed
  }

  /** From the last flush on every prefix of the writes reads like the history. */
  ghost predicate DurableReads(s: State, flushed: nat) {
    forall k, t: nat | t >= flushed :: Reading(AllEntries(s), k, t) == Reading(s.history, k, t)
  }

  ghost predicate MemoryInOrder(s: State, flushed: nat) {
    && (forall e | e in Memory(s) :: flushed < e.seqno)
    && forall a, b | a in s.mem && b in ImmEntries(s) :: b.seqno < a.seqno
  }

  ghost predicate DbInv(d: Db) {
    && Inv(d.s) && Below(d.s.version, d.flushed) && d.flushed <= d.s.lastSeq
    && DurableReads(d.s, d.flushed) && MemoryInOrder(d.s, d.flushed) && RecentInMemory(d.s, d.flushed)
  }

  /** What has been written since the last flush, and survived, is in the memtables. */
  ghost predicate RecentInMemory(s: State, flushed: nat) {
    forall e | e in s.history && flushed < e.seqno :: e in Memory(s)
  }

  lemma InitDbInv(d: Db)
    requires Init(d.s) && d.flushed == 0
    ensures DbInv(d)
  {
    InitInv(d.s);
    assert VersionEntries(d.s.version) == {} && AllEntries(d.s) == {};
  }

  // ----- a crash -----

  lemma ReadingUpto(E: set<Entry>, kept: nat, k: Key, t: nat)
    requires UniqueSeqs(E)
    ensures t <= kept ==> Reading(Upto(E, kept), k, t) == Reading(E, k, t)
    ensures t > kept ==> Reading(Upto(E, kept), k, t) == Reading(E, k, kept)
  {
    if t <= kept {
      ReadingSame(Upto(E, kept), E, k, t);
    } else {
      ReadingSame(Upto(E, kept), E, k, kept);
      ReadingLater(Upto(E, kept), k, kept, t);
    }
  }

  /** Beyond the last entry all snapshots read the same. */
  lemma ReadingLater(E: set<Entry>, k: Key, t: nat, u: nat)
    requires UniqueSeqs(E) && t <= u && forall e | e in E :: e.seqno <= t
    ensures Reading(E, k, t) == Reading(E, k, u)
  {
    if w :| w in E && Visible(w, k, t) {
      NewestExists(E, k, t, w);
      var n :| IsNewest(E, k, t, n);
      assert IsNewest(E, k, u, n);
      ReadingOfNewest(E, k, t, n);
      ReadingOfNewest(E, k, u, n);
    } else {
      ReadingOfNothing(E, k, t);
      ReadingOfNothing(E, k, u);
    }
  }

  lemma FlushedReading(s: State, flushed: nat, k: Key)
    requires UniqueSeqs(AllEntries(s)) && MemoryInOrder(s, flushed)
    ensures Reading(AllEntries(s), k, flushed) == Reading(VersionEntries(s.version), k, flushed)
  {
    assert AllEntries(s) == Memory(s) + VersionEntries(s.version);
    ReadingSame(AllEntries(s), VersionEntries(s.version), k, flushed);
  }

  /** The version alone reads like the history up to the last flush. */
  lemma VersionReads(s: State, flushed: nat, k: Key, t: nat)
    requires EntriesInv(s) && DurableReads(s, flushed) && Below(s.version, flushed) && MemoryInOrder(s, flushed)
    requires t >= flushed
    ensures Reading(VersionEntries(s.version), k, t) == Reading(Upto(s.history, flushed), k, t)
  {
    assert UniqueSeqs(AllEntries(s));
    FlushedReading(s, flushed, k);
    ReadingLater(VersionEntries(s.version), k, flushed, t);
    ReadingUpto(s.history, flushed, k, t);
  }

  /** Whatever survives of the memtables, it is read above the version as in the history. */
  lemma SurvivorsRead(V: set<Entry>, H: set<Entry>, kept: set<Entry>, k: Key, t: nat)
    requires V <= H && UniqueSeqs(H + kept) && NewerThan(kept, H) && Reading(V, k, t) == Reading(H, k, t)
    ensures Reading(kept + V, k, t) == Reading(H + kept, k, t)
  {
    NewerReadsAlike(V, H, kept, k, t);
    assert V + kept == kept + V;
  }

  /** The history without what was lost: all of it up to the last flush, and the survivors. */
  lemma HistoryWithout(s: State, flushed: nat, kept: set<Entry>)
    requires EntriesInv(s) && MemoryInOrder(s, flushed) && RecentInMemory(s, flushed) && kept <= Memory(s)
    ensures s.history - Lost(s, kept) == Upto(s.history, flushed) + kept
  {
    assert Memory(s) <= AllEntries(s);
  }

  lemma CrashKeepsReads(d: Db, r: Remains)
    requires EntriesInv(d.s) && DurableReads(d.s, d.flushed) && Below(d.s.version, d.flushed)
    requires MemoryInOrder(d.s, d.flushed) && RecentInMemory(d.s, d.flushed) && CanRemain(d, r)
    ensures DurableReads(Reopened(d, r), d.flushed)
  {
    var s, s' := d.s, Reopened(d, r);
    var V, H := VersionEntries(s.version), Upto(s.history, d.flushed);
    HistoryWithout(s, d.flushed, r.kept);
    assert V <= AllEntries(s) && AllEntries(s') == r.kept + V;
    forall k, t: nat | t >= d.flushed ensures Reading(AllEntries(s'), k, t) == Reading(s'.history, k, t) {
      VersionReads(s, d.flushed, k, t);
      SurvivorsRead(V, H, r.kept, k, t);
    }
  }

  lemma CrashKeepsRest(d: Db, r: Remains)
    requires EntriesInv(d.s) && MemoryIsNewer(d.s) && Below(d.s.version, d.flushed) && d.flushed <= d.s.lastSeq
    requires MemoryInOrder(d.s, d.flushed) && RecentInMemory(d.s, d.flushed) && CanRemain(d, r)
    ensures var s' := Reopened(d, r);
            && EntriesInv(s') && MemoryIsNewer(s') && SnapshotsInv(s') && PendingInv(s')
            && MemoryInOrder(s', d.flushed) && RecentInMemory(s', d.flushed)
  {
    HistoryWithout(d.s, d.flushed, r.kept);
    var s' := Reopened(d, r);
    assert AllEntries(s') == r.kept + VersionEntries(d.s.version);
    assert VersionEntries(d.s.version) <= AllEntries(d.s) && Memory(d.s) <= AllEntries(d.s);
  }

  lemma NumbersStay(v: Version, was: nat, next: nat)
    requires NumbersInv(v, was) && forall l | 0 <= l < |v| :: BelowNext(v[l], next)
    ensures NumbersInv(v, next)
  {
  }

  /** A crash may lose any part of the memtables. */
  lemma CrashKeepsInv(d: Db, r: Remains)
    requires DbInv(d) && CanRemain(d, r)
    ensures DbInv(Db(Reopened(d, r), d.flushed))
  {
    CrashKeepsReads(d, r);
    CrashKeepsRest(d, r);
    NumbersStay(d.s.version, d.s.nextFile, r.nextFile);
  }

  lemma CutDb(d: Db, n: nat, d': Db)
    requires DbInv(d) && DbNext(d, CutMemtable(n), d')
    ensures DbInv(d')
  {
    var older, younger := Upto(d.s.mem, n), d.s.mem - Upto(d.s.mem, n);
    assert older + younger == d.s.mem;
    assert Memory(d'.s) == Memory(d.s) && AllEntries(d'.s) == AllEntries(d.s);
  }

  // ----- a live step -----

  /** What resurfaces with the memtables in place lies on disk. */
  lemma ResurfacesOnDisk(s: State, c: Pending)
    requires |c.base| == NUM_LEVELS && MemoryIsNewer(s) && Elems(c.merged) <= VersionEntries(s.version)
    ensures SomeResurface(s, c) ==> OnDiskResurfaces(s, c)
  {
    if i, e :| Resurfaces(AllEntries(s), c.base, c.level, c.merged, c.snap, i, e) {
      var V := VersionEntries(s.version);
      assert c.merged[i] in Elems(c.merged);
      assert e in V;
      assert IsNewest(V - Elems(c.merged), c.merged[i].key, c.snap, e);
      assert Resurfaces(V, c.base, c.level, c.merged, c.snap, i, e);
    }
  }

  /** With the memtables as they are, a read that they do not decide is a read of the version. */
  lemma ReadThroughMemory(M: set<Entry>, V: set<Entry>, V': set<Entry>, k: Key, t: nat)
    requires UniqueSeqs(M + V) && V' <= V && NewerThan(M, V) && Reading(V', k, t) == Reading(V, k, t)
    ensures Reading(M + V', k, t) == Reading(M + V, k, t)
  {
    if w :| w in M && Visible(w, k, t) {
      NewestExists(M, k, t, w);
      var n :| IsNewest(M, k, t, n);
      assert IsNewest(M + V, k, t, n);
      ReadingOfPart(M + V, M + V', k, t, n);
    } else {
      ReadingSame(M + V, V, k, t);
      ReadingSame(M + V', V', k, t);
    }
  }

  lemma MergedReads(V: set<Entry>, c: Pending, k: Key, t: nat)
    requires |c.base| == NUM_LEVELS && Sorted(c.merged) && UniqueSeqs(V) && Elems(c.merged) <= V
    requires (forall e | e in V :: e.seqno <= t)
    requires !exists i, e :: Resurfaces(V, c.base, c.level, c.merged, c.snap, i, e)
    ensures var V' := AfterCompaction(V, c.base, c.level, c.merged, c.snap);
            V' <= V && Reading(V', k, t) == Reading(V, k, t)
  {
    var V' := AfterCompaction(V, c.base, c.level, c.merged, c.snap);
    var u := if t < c.snap then c.snap else t;
    AfterIsPart(V, c.base, c.level, c.merged, c.snap);
    CompactionPreservesReadsIff(V, c.base, c.level, c.merged, c.snap);
    ReadingLater(V, k, t, u);
    ReadingLater(V', k, t, u);
  }

  lemma FinishKeepsDurable(s: State, c: Pending, s': State, flushed: nat)
    requires EntriesInv(s) && MemoryIsNewer(s) && DurableReads(s, flushed) && Below(s.version, flushed)
    requires |c.base| == NUM_LEVELS && Sorted(c.merged) && Elems(c.merged) <= VersionEntries(s.version)
    requires !OnDiskResurfaces(s, c) && Memory(s') == Memory(s) && s'.history == s.history
    requires VersionEntries(s'.version)
          == AfterCompaction(VersionEntries(s.version), c.base, c.level, c.merged, c.snap)
    ensures DurableReads(s', flushed) && Below(s'.version, flushed)
  {
    var M, V, V' := Memory(s), VersionEntries(s.version), VersionEntries(s'.version);
    AfterIsPart(V, c.base, c.level, c.merged, c.snap);
    assert UniqueSeqs(M + V) by { assert M + V == AllEntries(s); }
    forall k, t: nat | t >= flushed ensures Reading(AllEntries(s'), k, t) == Reading(s'.history, k, t) {
      MergedReads(V, c, k, t);
      ReadThroughMemory(M, V, V', k, t);
      assert AllEntries(s') == M + V' && AllEntries(s) == M + V;
    }
  }

  /** The new version holds the old one without what the merge drops. */
  lemma FinishOnDisk(s: State, outputs: seq<File>, s': State)
    requires Inv(s) && Next(s, FinishCompaction(outputs), s')
    ensures var c := s.pending.value;
            && Elems(c.merged) <= VersionEntries(s.version)
            && VersionEntries(s'.version)
               == AfterCompaction(VersionEntries(s.version), c.base, c.level, c.merged, c.snap)
  {
    var c := s.pending.value;
    OutputFacts(c.base, c.level, c.merged, c.snap, outputs);
    InstalledEntries(c.base, s.version, s'.version, c.level, c.in0, c.in1, c.merged, outputs);
  }

  lemma FinishFields(s: State, outputs: seq<File>, s': State)
    requires |s.version| == NUM_LEVELS && PendingInv(s) && Next(s, FinishCompaction(outputs), s')
    ensures s'.mem == s.mem && s'.imm == s.imm && s'.lastSeq == s.lastSeq && s'.history == s.history
    ensures Memory(s') == Memory(s) && |s.pending.value.base| == NUM_LEVELS && Sorted(s.pending.value.merged)
  {
  }

  /** What a finished merge needs to keep: the parts of the invariant, without the step itself. */
  lemma FinishDurable(s: State, c: Pending, s': State, flushed: nat)
    requires EntriesInv(s) && MemoryIsNewer(s) && DurableReads(s, flushed) && Below(s.version, flushed)
    requires |c.base| == NUM_LEVELS && Sorted(c.merged) && Elems(c.merged) <= VersionEntries(s.version)
    requires !OnDiskResurfaces(s, c) && s'.mem == s.mem && s'.imm == s.imm && s'.history == s.history
    requires MemoryInOrder(s, flushed) && RecentInMemory(s, flushed)
    requires VersionEntries(s'.version)
          == AfterCompaction(VersionEntries(s.version), c.base, c.level, c.merged, c.snap)
    ensures DurableReads(s', flushed) && Below(s'.version, flushed)
    ensures MemoryInOrder(s', flushed) && RecentInMemory(s', flushed)
  {
    FinishKeepsDurable(s, c, s', flushed);
    SameMemory(s, s', flushed);
  }

  lemma SameMemory(s: State, s': State, flushed: nat)
    requires MemoryInOrder(s, flushed) && RecentInMemory(s, flushed)
    requires s'.mem == s.mem && s'.imm == s.imm && s'.history == s.history
    ensures MemoryInOrder(s', flushed) && RecentInMemory(s', flushed)
  {
  }

  lemma WriteDb(d: Db, es: set<Entry>, flushed: nat, d': Db)
    requires DbInv(d) && DbNext(d, Live(Write(es), flushed), d')
    ensures DbInv(d')
  {
    WriteKeepsInv(d.s, es, d'.s);
    WriteKeepsDurable(d.s, es, d'.s, flushed);
  }

  lemma WriteKeepsDurable(s: State, es: set<Entry>, s': State, flushed: nat)
    requires EntriesInv(s) && DurableReads(s, flushed) && UniqueSeqs(es)
    requires forall e | e in es :: s.lastSeq < e.seqno
    requires s'.mem == s.mem + es && s'.imm == s.imm && s'.version == s.version && s'.history == s.history + es
    ensures DurableReads(s', flushed)
  {
    assert AllEntries(s') == AllEntries(s) + es;
    assert NewerThan(es, s.history) && UniqueSeqs(s.history + es);
    forall k, t: nat | t >= flushed ensures Reading(AllEntries(s'), k, t) == Reading(s'.history, k, t) {
      NewerReadsAlike(AllEntries(s), s.history, es, k, t);
    }
  }

  /** Steps that move entries between memtable, immutable memtable and version, or touch none. */
  lemma MovesDb(d: Db, step: Step, flushed: nat, d': Db)
    requires DbInv(d) && DbNext(d, Live(step, flushed), d') && !step.Write? && !step.FinishCompaction?
    ensures DbInv(d')
  {
    StepKeepsInv(d.s, step, d'.s);
    MovesKeepEntries(d.s, step, d'.s);
    if step.Flush? {
      FlushedEntries(d.s.version, d'.s.version, step.f, step.level);
    }
  }

  lemma MovesKeepEntries(s: State, step: Step, s': State)
    requires Inv(s) && Next(s, step, s') && !step.Write? && !step.FinishCompaction?
    ensures AllEntries(s') == AllEntries(s) && s'.history == s.history
    ensures !step.Flush? ==> VersionEntries(s'.version) == VersionEntries(s.version) && Memory(s') == Memory(s)
  {
    if step.Flush? {
      FlushVersion(s, step.f, step.level, s');
      FlushEntries(s, s');
    } else {
      if step.TrivialMove? {
        MoveVersion(s, step.level, step.f, s');
      } else {
        OtherMoves(s, step, s');
      }
      SameEntries(s, s');
    }
  }

  lemma OtherMoves(s: State, step: Step, s': State)
    requires |s.version| == NUM_LEVELS && Next(s, step, s')
    requires !step.Write? && !step.FinishCompaction? && !step.Flush? && !step.TrivialMove?
    ensures VersionEntries(s'.version) == VersionEntries(s.version) && Memory(s') == Memory(s)
            && s'.history == s.history
  {
  }

  lemma FlushEntries(s: State, s': State)
    requires s'.mem == s.mem && s'.imm.None? && VersionEntries(s'.version) == VersionEntries(s.version) + ImmEntries(s)
    ensures AllEntries(s') == AllEntries(s)
  {
  }

  lemma MoveVersion(s: State, level: nat, f: File, s': State)
    requires Inv(s) && Next(s, TrivialMove(level, f), s')
    ensures VersionEntries(s'.version) == VersionEntries(s.version) && Memory(s') == Memory(s)
            && s'.history == s.history
  {
    MoveKeepsVersion(s.version, s'.version, s.nextFile, level, f);
  }

  lemma SameEntries(s: State, s': State)
    requires VersionEntries(s'.version) == VersionEntries(s.version) && Memory(s') == Memory(s)
    ensures AllEntries(s') == AllEntries(s)
  {
  }

  // ----- tables written by recovery -----

  /** Recovery writes the older part of what it has read to a table of level 0: the cut and the flush. */
  lemma WriteTable(d: Db, n: nat, f: File) returns (d': Db, d'': Db)
    requires DbInv(d) && d.s.imm.None? && d.flushed <= n <= d.s.lastSeq && d.s.nextFile <= f.number
    requires ValidFile(f) && Elems(f.entries) == Upto(d.s.mem, n)
    ensures DbNext(d, CutMemtable(n), d') && DbNext(d', Live(Flush(f, 0), n), d'') && DbInv(d'')
    ensures d''.s.mem == d.s.mem - Upto(d.s.mem, n) && d''.s.imm.None? && d''.s.history == d.s.history
    ensures LevelEdit(d.s.version[0], d''.s.version[0], {}, [f])
  {
    d' := d.(s := d.s.(imm := Some(Upto(d.s.mem, n)), mem := d.s.mem - Upto(d.s.mem, n)));
    CutDb(d, n, d');
    var level := TableEdit(d.s.version, d.s.nextFile, f);
    d'' := Db(d'.s.(imm := None, version := d.s.version[0 := level], nextFile := f.number + 1), n);
    assert FlushLevel(d'.s.version, f, 0);
    MovesDb(d', Flush(f, 0), n, d'');
  }

  lemma TableEdit(v: Version, nextFile: nat, f: File) returns (level: seq<File>)
    requires |v| == NUM_LEVELS && NumbersInv(v, nextFile) && nextFile <= f.number
    ensures LevelEdit(v[0], level, {}, [f])
  {
    assert Numbers([f]) == {f.number} by { assert f in [f]; }
    assert BelowNext(v[0], nextFile);
    level := EditExists(v[0], {}, [f]);
  }

  // ----- installing a merge -----

  /** What comes back if a value resurfaces among what is on disk. */
  lemma LostMemoryBringsBack(d: Db, outputs: seq<File>, d': Db, i: int, e: Entry)
    requires DbInv(d) && |d.s.version| == NUM_LEVELS && Next(d.s, FinishCompaction(outputs), d'.s)
    requires var c := d.s.pending.value;
             |c.base| == NUM_LEVELS
             && Resurfaces(VersionEntries(d.s.version), c.base, c.level, c.merged, c.snap, i, e)
    ensures var c := d.s.pending.value;
            ReadsDeleted(d'.s, c.merged[i].key, Min(d.flushed, c.snap), e.value)
  {
    var s, c := d.s, d.s.pending.value;
    FinishOnDisk(s, outputs, d'.s);
    FinishFields(s, outputs, d'.s);
    if c.snap <= d.flushed {
      OnDiskIsEverywhere(s, c, d.flushed, i, e);
      ResurfacedValueIsRead(s, c, outputs, d'.s, i, e);
    } else {
      FlushedComesBack(s, c, d'.s, d.flushed, i, e);
    }
  }

  function Min(a: nat, b: nat): nat {
    if a < b then a else b
  }

  /** No memtable has an entry that a snapshot from before the last flush sees. */
  lemma OnDiskIsEverywhere(s: State, c: Pending, flushed: nat, i: int, e: Entry)
    requires MemoryInOrder(s, flushed) && c.snap <= flushed && |c.base| == NUM_LEVELS
    requires Resurfaces(VersionEntries(s.version), c.base, c.level, c.merged, c.snap, i, e)
    ensures Resurfaces(AllEntries(s), c.base, c.level, c.merged, c.snap, i, e)
  {
    assert AllEntries(s) == Memory(s) + VersionEntries(s.version);
    assert IsNewest(AllEntries(s) - Elems(c.merged), c.merged[i].key, c.snap, e);
  }

  lemma FlushedComesBack(s: State, c: Pending, s': State, flushed: nat, i: int, e: Entry)
    requires EntriesInv(s) && DurableReads(s, flushed) && Below(s.version, flushed)
    requires MemoryInOrder(s, flushed) && flushed <= c.snap
    requires |c.base| == NUM_LEVELS && Sorted(c.merged) && Elems(c.merged) <= VersionEntries(s.version)
    requires s'.mem == s.mem && s'.imm == s.imm && s'.history == s.history
    requires VersionEntries(s'.version)
          == AfterCompaction(VersionEntries(s.version), c.base, c.level, c.merged, c.snap)
    requires Resurfaces(VersionEntries(s.version), c.base, c.level, c.merged, c.snap, i, e)
    ensures ReadsDeleted(s', c.merged[i].key, flushed, e.value)
  {
    var k, V, V' := c.merged[i].key, VersionEntries(s.version), VersionEntries(s'.version);
    assert UniqueSeqs(AllEntries(s)) && UniqueSeqs(V);
    AfterIsPart(V, c.base, c.level, c.merged, c.snap);
    ResurfacingChangesRead(V, c.base, c.level, c.merged, c.snap, i, e);
    ReadingLater(V, k, flushed, c.snap);
    ReadingLater(V', k, flushed, c.snap);
    FlushedReading(s, flushed, k);
    assert AllEntries(s') <= AllEntries(s);
    FlushedReading(s', flushed, k);
  }

  /** One installation keeps every prefix of the writes since the last flush readable, and the rest of the invariant, if
      and only if its outputs meet no flushed file and no value resurfaces on disk. */
  lemma FinishKeepsDbInvIff(d: Db, outputs: seq<File>, d': Db)
    requires DbInv(d) && |d.s.version| == NUM_LEVELS && Next(d.s, FinishCompaction(outputs), d'.s)
    requires d'.flushed == d.flushed
    ensures var c := d.s.pending.value;
            DbInv(d') <==> FlushedApart(c.base, d.s.version, c.level, outputs) && !OnDiskResurfaces(d.s, c)
  {
    var s, c := d.s, d.s.pending.value;
    FinishKeepsInvIff(s, outputs, d'.s);
    FinishOnDisk(s, outputs, d'.s);
    FinishFields(s, outputs, d'.s);
    ResurfacesOnDisk(s, c);
    if OnDiskResurfaces(s, c) {
      FinishUnsafe(d, c, outputs, d');
    } else {
      FinishDurable(s, c, d'.s, d.flushed);
    }
  }

  lemma FinishUnsafe(d: Db, c: Pending, outputs: seq<File>, d': Db)
    requires DbInv(d) && |d.s.version| == NUM_LEVELS && Next(d.s, FinishCompaction(outputs), d'.s)
    requires d.s.pending == Some(c) && d'.flushed == d.flushed && |c.base| == NUM_LEVELS && OnDiskResurfaces(d.s, c)
    ensures !DbInv(d')
  {
    FloorIsSnap(d.s, outputs, d'.s);
    var i, e := SomeResurfacing(d.s, c);
    LostMemoryBringsBack(d, outputs, d', i, e);
    DeletedReadBreaks(d', c.merged[i].key, Min(d.flushed, c.snap), e.value);
  }

  lemma SomeResurfacing(s: State, c: Pending) returns (i: int, e: Entry)
    requires |c.base| == NUM_LEVELS && OnDiskResurfaces(s, c)
    ensures Resurfaces(VersionEntries(s.version), c.base, c.level, c.merged, c.snap, i, e)
    ensures 0 <= i < |c.merged|
  {
    i, e :| Resurfaces(VersionEntries(s.version), c.base, c.level, c.merged, c.snap, i, e);
  }

  lemma FloorIsSnap(s: State, outputs: seq<File>, s': State)
    requires PendingInv(s) && |s.version| == NUM_LEVELS && Next(s, FinishCompaction(outputs), s')
    ensures s'.floor == s.pending.value.snap
  {
  }

  lemma DeletedReadBreaks(d: Db, k: Key, t: nat, value: string)
    requires ReadsDeleted(d.s, k, t, value) && (d.s.floor <= t || d.flushed <= t)
    ensures !DbInv(d)
  {
    assert Reading(AllEntries(d.s), k, t) != Reading(d.s.history, k, t);
  }

  /** Every way of finishing a merge keeps the invariant under crashes if and only if the condition holds, which names
      no output. */
  lemma SafeFromCrashIff(d: Db)
    requires DbInv(d) && d.s.pending.Some?
    ensures SafeFromCrash(d.s)
       <==> forall outputs, s' | Next(d.s, FinishCompaction(outputs), s') :: DbInv(Db(s', d.flushed))
  {
    if SafeFromCrash(d.s) {
      forall outputs, s' | Next(d.s, FinishCompaction(outputs), s') ensures DbInv(Db(s', d.flushed)) {
        FinishDb(d, outputs, Db(s', d.flushed));
      }
    } else {
      var outputs, s' := UncutFinish(d.s);
      FinishKeepsDbInvIff(d, outputs, Db(s', d.flushed));
    }
  }

  lemma FinishDb(d: Db, outputs: seq<File>, d': Db)
    requires DbInv(d) && |d.s.version| == NUM_LEVELS && Next(d.s, FinishCompaction(outputs), d'.s)
    requires d'.flushed == d.flushed && SafeFromCrash(d.s)
    ensures DbInv(d')
  {
    SafeIsApart(d.s, outputs, d'.s);
    FinishKeepsDbInvIff(d, outputs, d');
  }

  lemma SafeIsApart(s: State, outputs: seq<File>, s': State)
    requires Inv(s) && Next(s, FinishCompaction(outputs), s') && SafeFromCrash(s)
    ensures var c := s.pending.value;
            FlushedApart(c.base, s.version, c.level, outputs) && !OnDiskResurfaces(s, c)
  {
    var c := s.pending.value;
    if !c.manual {
      ConnectedIsSafe(c.base, s.version, c.level, c.in0, c.in1, c.merged, c.snap);
    }
    NotBetweenIsApart(c.base, s.version, c.level, c.in0, c.in1, c.merged, c.snap, outputs);
  }

  /** If then a crash loses the memtables, every reader sees the deleted value. */
  lemma CrashShowsDeleted(d: Db, outputs: seq<File>, d': Db, i: int, e: Entry, r: Remains)
    requires DbInv(d) && |d.s.version| == NUM_LEVELS && Next(d.s, FinishCompaction(outputs), d'.s)
    requires d'.flushed == d.flushed && CanRemain(d', r) && r.kept == {}
    requires var c := d.s.pending.value;
             |c.base| == NUM_LEVELS && d.flushed <= c.snap
             && Resurfaces(VersionEntries(d.s.version), c.base, c.level, c.merged, c.snap, i, e)
    ensures ReadsDeleted(Reopened(d', r), d.s.pending.value.merged[i].key, r.last, e.value)
  {
    LostMemoryBringsBack(d, outputs, d', i, e);
    FinishFields(d.s, outputs, d'.s);
    SameMemory(d.s, d'.s, d.flushed);
    FinishEntries(d.s, outputs, d'.s);
    OnlyVersionReads(d', r, d.s.pending.value.merged[i].key);
  }

  lemma OnlyVersionReads(d: Db, r: Remains, k: Key)
    requires UniqueSeqs(d.s.history) && AllEntries(d.s) <= d.s.history && Below(d.s.version, d.flushed)
    requires MemoryInOrder(d.s, d.flushed) && RecentInMemory(d.s, d.flushed) && CanRemain(d, r) && r.kept == {}
    ensures Reading(AllEntries(Reopened(d, r)), k, r.last) == Reading(AllEntries(d.s), k, d.flushed)
    ensures Reading(Reopened(d, r).history, k, r.last) == Reading(d.s.history, k, d.flushed)
  {
    var V := VersionEntries(d.s.version);
    assert Memory(d.s) <= AllEntries(d.s) && V <= AllEntries(d.s);
    assert AllEntries(Reopened(d, r)) == V;
    assert Reopened(d, r).history == Upto(d.s.history, d.flushed);
    FlushedReading(d.s, d.flushed, k);
    ReadingLater(V, k, d.flushed, r.last);
    ReadingUpto(d.s.history, d.flushed, k, r.last);
  }

  // ----- every step -----

  /** Every safe step and every crash keeps the invariant. */
  lemma DbStepKeepsInv(d: Db, step: DbStep, d': Db)
    requires DbInv(d) && DbNext(d, step, d') && SafeDbStep(d.s, step)
    ensures DbInv(d')
  {
    match step
    case Crash(r) => CrashKeepsInv(d, r);
    case CutMemtable(n) => CutDb(d, n, d');
    case Live(step, flushed) =>
      if step.Write? {
        WriteDb(d, step.es, flushed, d');
      } else if step.FinishCompaction? {
        FinishDb(d, step.outputs, d');
      } else {
        MovesDb(d, step, flushed, d');
      }
  }

  // ----- runs with crashes -----

  ghost predicate SafeDbNext(d: Db, step: DbStep, d': Db) {
    DbNext(d, step, d') && SafeDbStep(d.s, step)
  }

  /** A run from the empty store in which every merge that finishes is safe from crashes. */
  ghost predicate SafeDbRun(ds: seq<Db>, steps: seq<DbStep>) {
    && |ds| == |steps| + 1 && Init(ds[0].s) && ds[0].flushed == 0
    && forall i | 0 <= i < |steps| :: SafeDbNext(ds[i], steps[i], ds[i + 1])
  }

  lemma DbRunKeepsInv(ds: seq<Db>, steps: seq<DbStep>, i: nat)
    requires SafeDbRun(ds, steps) && i < |ds|
    ensures DbInv(ds[i])
  {
    InitDbInv(ds[0]);
    forall d, step, d' | DbInv(d) && SafeDbNext(d, step, d') ensures DbInv(d') {
      DbStepKeepsInv(d, step, d');
    }
    KeptAlong((d: Db) => DbInv(d), (d: Db, step: DbStep, d': Db) => SafeDbNext(d, step, d'), ds, steps, i);
  }

  /** What holds first and is kept by every step holds always. */
  lemma {:induction false} KeptAlong(inv: Db -> bool, next: (Db, DbStep, Db) -> bool, ds: seq<Db>, steps: seq<DbStep>,
                                     i: nat)
    requires |ds| == |steps| + 1 && i < |ds| && inv(ds[0])
    requires forall j | 0 <= j < |steps| :: next(ds[j], steps[j], ds[j + 1])
    requires forall d, step, d' | inv(d) && next(d, step, d') :: inv(d')
    ensures inv(ds[i])
  {
    if i > 0 {
      KeptAlong(inv, next, ds, steps, i - 1);
    }
  }

  /** In every state of every safe run with any number of crashes, every read equals the plain rule over what has been
      written and survived. */
  lemma CrashedRunReadsLikeHistory(ds: seq<Db>, steps: seq<DbStep>, i: nat, k: Key, t: nat)
    requires SafeDbRun(ds, steps) && i < |ds| && Readable(ds[i].s, t)
    ensures Reading(AllEntries(ds[i].s), k, t) == Reading(ds[i].s.history, k, t)
  {
    DbRunKeepsInv(ds, steps, i);
    ReadableAboveFloor(ds[i].s, t);
  }
}
