/** A merge that is safe while the memtable lives and loses a deletion when the memtable is lost: a run of the store
    from the empty state leads there. */
module HiddenValue {
  import opened Options
  import opened InternalKeys
  import opened Versions
  import opened CompactionReads
  import opened Store
  import opened StoreRuns
  import opened Resurfacing
  import opened Durability

  /** The newest write hides the deleted value from all readers. */
  function Hiding(): Entry { Entry(2.0, 10, Put, "hide") }

  /** The merge of `Resurfacing.Second`, with the newest write already in the memtable. */
  function Third(): Pending { Pending(false, 1, [Upper()], [Lower()], Merged(), 10, SplitVersion()) }

  const WRITTEN: nat := 13
  const STARTED: nat := 15

  function HiddenState(i: nat): State {
    if i <= WRITTEN then RunState(i)
    else
      RunState(WRITTEN).(mem := {Hiding()}, lastSeq := 10, history := All() + {Hiding()},
                         pending := if i == WRITTEN + 1 then None else Some(Third()))
  }

  function HiddenStep(i: nat): Step {
    if i < WRITTEN then RunStep(i) else if i == WRITTEN then Write({Hiding()}) else StartCompaction(Third())
  }

  function FlushedAt(i: nat): nat {
    if i <= 3 then 0 else if i <= 6 then 3 else if i <= 12 then 5 else 9
  }

  function HiddenDb(i: nat): Db { Db(HiddenState(i), FlushedAt(i)) }

  function HiddenDbStep(i: nat): DbStep { Live(HiddenStep(i), FlushedAt(i + 1)) }

  lemma WriteHiding()
    ensures SafeNext(HiddenState(WRITTEN), HiddenStep(WRITTEN), HiddenState(WRITTEN + 1))
  {
    assert {} + {Hiding()} == {Hiding()};
  }

  lemma StartThird(s: State, s': State)
    requires s.version == SplitVersion() && s.pending.None? && s.snapshots == multiset{} && s.lastSeq == 10
    requires s' == s.(pending := Some(Third()))
    ensures SafeNext(s, StartCompaction(Third()), s')
  {
    SplitInputs();
    SplitMerged();
    SplitConnected();
    StartFrom(s, SplitVersion(), [Upper()], [Lower()], Merged(), 10, Third(), s');
  }

  lemma HiddenFollows(i: nat)
    requires i < STARTED
    ensures SafeNext(HiddenState(i), HiddenStep(i), HiddenState(i + 1))
  {
    if i < WRITTEN {
      RunFollows(i);
    } else if i == WRITTEN {
      WriteHiding();
    } else {
      StartThird(HiddenState(i), HiddenState(i + 1));
    }
  }

  /** Without memtables the two conditions are one. */
  lemma SafeWithoutMemory(s: State)
    requires |s.version| == NUM_LEVELS && SafeToFinish(s) && s.mem == {} && s.imm.None?
    ensures SafeFromCrash(s)
  {
    assert AllEntries(s) == VersionEntries(s.version);
  }

  lemma AsLive(d: Db, step: Step, d': Db)
    requires SafeNext(d.s, step, d'.s) && Flushes(d, step, d'.flushed)
    requires step.FinishCompaction? ==> d.s.mem == {} && d.s.imm.None?
    ensures SafeDbNext(d, Live(step, d'.flushed), d')
  {
    if step.FinishCompaction? { SafeWithoutMemory(d.s); }
  }

  lemma HiddenFlushes(i: nat)
    requires i < STARTED
    ensures Flushes(HiddenDb(i), HiddenStep(i), FlushedAt(i + 1))
    ensures HiddenStep(i).FinishCompaction? ==> HiddenState(i).mem == {} && HiddenState(i).imm.None?
  {
  }

  lemma HiddenRun() returns (ds: seq<Db>, steps: seq<DbStep>)
    ensures SafeDbRun(ds, steps) && |steps| == STARTED && ds[STARTED] == HiddenDb(STARTED)
  {
    StartsEmpty();
    forall i: nat | i < STARTED ensures SafeDbNext(HiddenDb(i), HiddenDbStep(i), HiddenDb(i + 1)) {
      HiddenFollows(i);
      HiddenFlushes(i);
      AsLive(HiddenDb(i), HiddenStep(i), HiddenDb(i + 1));
    }
    ds, steps := AsDbRun(HiddenDb, HiddenDbStep, STARTED);
  }

  lemma AsDbRun(state: nat -> Db, step: nat -> DbStep, n: nat) returns (ds: seq<Db>, steps: seq<DbStep>)
    requires Init(state(0).s) && state(0).flushed == 0
    requires forall i: nat | i < n :: SafeDbNext(state(i), step(i), state(i + 1))
    ensures SafeDbRun(ds, steps) && |steps| == n && ds[n] == state(n)
  {
    ds := seq(n + 1, i requires 0 <= i => state(i));
    steps := seq(n, i requires 0 <= i => step(i));
  }

  /** The deleted value resurfaces on disk, but not under the memtable. */
  lemma HiddenResurfaces(s: State)
    requires s.version == SplitVersion() && s.mem == {Hiding()} && s.imm.None?
    ensures Resurfaces(VersionEntries(s.version), SplitVersion(), 1, Merged(), 10, 2, Deleted())
    ensures !SomeResurface(s, Third())
  {
    var V, m := VersionEntries(s.version), Merged();
    assert V == {Newer(), Older(), Marker(), Deleted()} by { SplitVersionInv(); }
    assert m[2] == Marker() && m[1] == Older() && m[0] == Newer();
    assert V - Elems(m) == {Deleted()} by { SplitResurfaces(V); }
    assert AllEntries(s) - Elems(m) == {Deleted(), Hiding()};
  }

  /** However the merge is finished, the loss of the memtables makes a reader see the value that is deleted. */
  ghost predicate LosesWithMemory(d: Db, k: Key, value: string)
    requires |d.s.version| == NUM_LEVELS
  {
    && (exists outputs, s', r ::
          Next(d.s, FinishCompaction(outputs), s') && CanRemain(Db(s', d.flushed), r) && r.kept == {})
    && forall outputs, s', r |
         Next(d.s, FinishCompaction(outputs), s') && CanRemain(Db(s', d.flushed), r) && r.kept == {} ::
         ReadsDeleted(Reopened(Db(s', d.flushed), r), k, r.last, value)
  }

  lemma UnsafeLoses(d: Db, i: int, e: Entry)
    requires DbInv(d) && d.s.pending.Some?
    requires var c := d.s.pending.value;
             |c.base| == NUM_LEVELS && d.flushed <= c.snap
             && Resurfaces(VersionEntries(d.s.version), c.base, c.level, c.merged, c.snap, i, e)
    ensures LosesWithMemory(d, d.s.pending.value.merged[i].key, e.value)
  {
    var outputs, s' := UncutFinish(d.s);
    NothingRemains(d, outputs, s');
    forall outputs, s', r |
      Next(d.s, FinishCompaction(outputs), s') && CanRemain(Db(s', d.flushed), r) && r.kept == {}
      ensures ReadsDeleted(Reopened(Db(s', d.flushed), r), d.s.pending.value.merged[i].key, r.last, e.value)
    {
      CrashShowsDeleted(d, outputs, Db(s', d.flushed), i, e, r);
    }
  }

  /** The memtables can be lost at any time. */
  lemma NothingRemains(d: Db, outputs: seq<File>, s': State)
    requires DbInv(d) && d.s.pending.Some? && Next(d.s, FinishCompaction(outputs), s')
    ensures CanRemain(Db(s', d.flushed), Remains({}, s'.lastSeq, s'.nextFile))
  {
    FinishVersion(d.s, outputs, s');
    FinishFields(d.s, outputs, s');
  }

  /** Finishing the merge is safe, and is not safe from a crash. */
  ghost predicate HidesDeleted(d: Db, k: Key, value: string) {
    && |d.s.version| == NUM_LEVELS && d.s.pending.Some? && !d.s.pending.value.manual
    && SafeToFinish(d.s) && LosesWithMemory(d, k, value)
  }

  lemma LastHides(d: Db)
    requires DbInv(d) && d.s.version == SplitVersion() && d.s.mem == {Hiding()} && d.s.imm.None?
    requires d.s.pending == Some(Third()) && d.flushed == 9
    ensures HidesDeleted(d, 2.0, "deleted")
  {
    HiddenResurfaces(d.s);
    UnsafeLoses(d, 2, Deleted());
    assert Merged()[2] == Marker();
  }

  /** From the empty store, through steps that are all safe, to an automatic compaction that keeps every read while the
      store runs, and loses a deletion if the store crashes. */
  lemma RunToHiddenValue() returns (ds: seq<Db>, steps: seq<DbStep>)
    ensures SafeDbRun(ds, steps) && HidesDeleted(ds[|steps|], 2.0, "deleted")
  {
    ds, steps := HiddenRun();
    RunHides(ds, steps, HiddenDb(STARTED));
  }

  lemma RunHides(ds: seq<Db>, steps: seq<DbStep>, last: Db)
    requires SafeDbRun(ds, steps) && ds[|steps|] == last
    requires last.s.version == SplitVersion() && last.s.mem == {Hiding()} && last.s.imm.None?
    requires last.s.pending == Some(Third()) && last.flushed == 9
    ensures HidesDeleted(last, 2.0, "deleted")
  {
    DbRunKeepsInv(ds, steps, |steps|);
    LastHides(last);
  }
}
