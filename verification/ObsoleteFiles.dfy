/** Which table files exist, and when DeleteObsoleteFiles removes them (db/db_impl.cc, VersionSet::AddLiveFiles).  One
    background thread flushes, compacts and collects; readers take and drop references to versions and writers take
    file numbers whenever the mutex is free. */
module ObsoleteFiles {
  import opened Options

  /** CompactMemTable: the table is being built, or is built and waits for LogAndApply, or is installed. */
  datatype Flush = NoFlush | Building(n: nat) | Installing(file: Option<nat>) | Installed

  /** A merge compaction: the version it reads, its input files, the output being written and those built. */
  datatype Compaction = NoCompaction | Merging(version: nat, inputs: set<nat>, output: Option<nat>, outputs: set<nat>)

  datatype State = State(
    disk: set<nat>,                  // table files
    next: nat,                       // next_file_number_
    pending: set<nat>,               // pending_outputs_
    versions: map<nat, set<nat>>,    // the files of every version made so far
    current: nat,
    readers: multiset<nat>,          // versions that readers hold
    flush: Flush,
    compaction: Compaction,
    failed: bool)                    // bg_error_

  /** The versions in the list of the version set: those that somebody refers to. */
  ghost predicate IsLive(s: State, v: nat) {
    v == s.current || v in s.readers || (s.compaction.Merging? && v == s.compaction.version)
  }

  /** pending_outputs_ and the files of all live versions. */
  ghost predicate IsNeeded(s: State, f: nat) {
    f in s.pending || exists v :: IsLive(s, v) && v in s.versions && f in s.versions[v]
  }

  ghost function Collected(s: State): State {
    if s.failed then s else s.(disk := set f | f in s.disk && IsNeeded(s, f))
  }

  /** A new current version. */
  function Install(s: State, files: set<nat>, id: nat): State {
    s.(versions := s.versions[id := files], current := id)
  }

  datatype Step =
    | TakeNumber                     // a writer starts a new log file
    | RefVersion
    | UnrefVersion(v: nat)
    | StartFlush
    | BuildFlush
    | EndFlush(keep: bool)           // an empty table is deleted at once
    | InstallFlush(id: nat)
    | FailFlush
    | CollectAfterFlush
    | TrivialMove(id: nat)
    | StartCompaction(inputs: set<nat>)
    | OpenOutput
    | BuildOutput
    | FinishCompaction(id: nat)      // InstallCompactionResults, CleanupCompaction, ReleaseInputs, DeleteObsoleteFiles
    | FailCompaction

  ghost predicate Init(s: State) {
    s == State({}, 2, {}, map[0 := {}], 0, multiset{}, NoFlush, NoCompaction, false)
  }

  ghost predicate Next(s: State, step: Step, s': State)
    requires s.current in s.versions
  {
    match step
    case TakeNumber => s' == s.(next := s.next + 1)
    case RefVersion => s' == s.(readers := s.readers + multiset{s.current})
    case UnrefVersion(v) => v in s.readers && s' == s.(readers := s.readers - multiset{v})
    case StartFlush =>
      s.flush.NoFlush?
      && s' == s.(flush := Building(s.next), pending := s.pending + {s.next}, next := s.next + 1)
    case BuildFlush => s.flush.Building? && s' == s.(disk := s.disk + {s.flush.n})
    case EndFlush(keep) =>
      && s.flush.Building? && (keep ==> s.flush.n in s.disk)
      && s' == s.(flush := Installing(if keep then Some(s.flush.n) else None), pending := s.pending - {s.flush.n},
                  disk := if keep then s.disk else s.disk - {s.flush.n})
    case InstallFlush(id) =>
      && s.flush.Installing? && id !in s.versions
      && var files := s.versions[s.current] + (if s.flush.file.Some? then {s.flush.file.value} else {});
         s' == Install(s, files, id).(flush := Installed)
    case FailFlush => s.flush.Installing? && s' == s.(flush := NoFlush, failed := true)
    case CollectAfterFlush => s.flush.Installed? && s' == Collected(s).(flush := NoFlush)
    case TrivialMove(id) =>
      s.flush.NoFlush? && s.compaction.NoCompaction? && id !in s.versions && s' == Install(s, s.versions[s.current], id)
    case StartCompaction(inputs) =>
      && s.flush.NoFlush? && s.compaction.NoCompaction? && inputs <= s.versions[s.current]
      && s' == s.(compaction := Merging(s.current, inputs, None, {}))
    case OpenOutput =>
      && s.flush.NoFlush? && s.compaction.Merging? && s.compaction.output.None?
      && s' == s.(compaction := s.compaction.(output := Some(s.next)), pending := s.pending + {s.next},
                  next := s.next + 1,
                  disk := s.disk + {s.next})
    case BuildOutput =>
      && s.flush.NoFlush? && s.compaction.Merging? && s.compaction.output.Some?
      && var n := s.compaction.output.value;
         s' == s.(compaction := s.compaction.(output := None, outputs := s.compaction.outputs + {n}))
    case FinishCompaction(id) =>
      && s.flush.NoFlush? && s.compaction.Merging? && s.compaction.output.None? && id !in s.versions
      && var c := s.compaction;
         var done := Install(s, s.versions[s.current] - c.inputs + c.outputs, id);
         s' == Collected(done.(compaction := NoCompaction, pending := s.pending - c.outputs))
    case FailCompaction =>
      && s.flush.NoFlush? && s.compaction.Merging?
      && var c := s.compaction;
         s' == s.(compaction := NoCompaction, failed := true,
                  pending := s.pending - c.outputs - (if c.output.Some? then {c.output.value} else {}))
  }

  // ----- the invariant -----

  ghost predicate FilesThere(s: State) {
    forall v, f | IsLive(s, v) && v in s.versions && f in s.versions[v] :: f in s.disk
  }

  ghost predicate CompactionInv(s: State) {
    s.compaction.Merging? ==>
      var c := s.compaction;
      && c.version in s.versions && c.inputs <= s.versions[c.version]
      && c.outputs <= s.pending && c.outputs <= s.disk
      && (c.output.Some? ==> c.output.value in s.pending && c.output.value in s.disk && c.output.value !in c.outputs)
      && (s.flush.Building? ==> s.flush.n !in c.outputs && c.output != Some(s.flush.n))
  }

  ghost predicate FlushInv(s: State) {
    match s.flush
    case Building(n) => n in s.pending && n < s.next && IsNew(s, n)
    case Installing(Some(n)) => n in s.disk && n < s.next && n !in s.pending && IsNew(s, n)
    case _ => true
  }

  /** No live version lists the file. */
  ghost predicate IsNew(s: State, n: nat) {
    forall v | v in s.versions :: n !in s.versions[v]
  }

  ghost predicate NumbersInv(s: State) {
    && (forall f | f in s.pending :: f < s.next)
    && (forall v, f | v in s.versions && f in s.versions[v] :: f < s.next)
    && (forall v | v in s.readers :: v in s.versions)
  }

  ghost predicate Inv(s: State) {
    s.current in s.versions && FilesThere(s) && CompactionInv(s) && FlushInv(s) && NumbersInv(s)
  }

  lemma InitInv(s: State)
    requires Init(s)
    ensures Inv(s)
  {
  }

  /** A collection spares all that live versions list and all that is pending. */
  lemma CollectKeepsFiles(s: State)
    requires s.current in s.versions && FilesThere(s)
    ensures FilesThere(Collected(s))
    ensures forall f | f in s.pending && f in s.disk :: f in Collected(s).disk
  {
  }

  lemma ReaderStepKeepsInv(s: State, step: Step, s': State)
    requires Inv(s) && Next(s, step, s') && (step.TakeNumber? || step.RefVersion? || step.UnrefVersion?)
    ensures Inv(s')
  {
  }

  lemma StartFlushKeepsInv(s: State, step: Step, s': State)
    requires Inv(s) && Next(s, step, s') && (step.StartFlush? || step.BuildFlush? || step.FailFlush?)
    ensures Inv(s')
  {
  }

  lemma EndFlushKeepsInv(s: State, keep: bool, s': State)
    requires Inv(s) && Next(s, EndFlush(keep), s')
    ensures Inv(s')
  {
  }

  lemma InstallFlushKeepsInv(s: State, id: nat, s': State)
    requires Inv(s) && Next(s, InstallFlush(id), s')
    ensures Inv(s')
  {
    forall v, f | IsLive(s', v) && v in s'.versions && f in s'.versions[v] ensures f in s'.disk {
      assert v != id ==> IsLive(s, v);
      assert IsLive(s, s.current);
    }
  }

  lemma CollectKeepsInv(s: State, s': State)
    requires Inv(s) && Next(s, CollectAfterFlush, s')
    ensures Inv(s')
  {
    CollectKeepsFiles(s);
  }

  lemma FlushStepKeepsInv(s: State, step: Step, s': State)
    requires Inv(s) && Next(s, step, s')
    requires step.StartFlush? || step.BuildFlush? || step.EndFlush? || step.InstallFlush? || step.FailFlush? ||
             step.CollectAfterFlush?
    ensures Inv(s')
  {
    match step
    case EndFlush(keep) => EndFlushKeepsInv(s, keep, s');
    case InstallFlush(id) => InstallFlushKeepsInv(s, id, s');
    case CollectAfterFlush => CollectKeepsInv(s, s');
    case _ => StartFlushKeepsInv(s, step, s');
  }

  lemma CompactionStepKeepsInv(s: State, step: Step, s': State)
    requires Inv(s) && Next(s, step, s')
    requires step.TrivialMove? || step.StartCompaction? || step.OpenOutput? || step.BuildOutput? || step.FailCompaction?
    ensures Inv(s')
  {
  }

  lemma FinishKeepsInv(s: State, id: nat, s': State)
    requires Inv(s) && Next(s, FinishCompaction(id), s')
    ensures Inv(s')
  {
    var c := s.compaction;
    var done := Install(s, s.versions[s.current] - c.inputs + c.outputs, id)
                .(compaction := NoCompaction, pending := s.pending - c.outputs);
    forall v, f | IsLive(done, v) && v in done.versions && f in done.versions[v] ensures f in done.disk {
      if v != id { assert IsLive(s, v); }
    }
    CollectKeepsFiles(done);
  }

  lemma StepKeepsInv(s: State, step: Step, s': State)
    requires Inv(s) && Next(s, step, s')
    ensures Inv(s')
  {
    if step.TakeNumber? || step.RefVersion? || step.UnrefVersion? {
      ReaderStepKeepsInv(s, step, s');
    } else if step.StartFlush? || step.BuildFlush? || step.EndFlush? || step.InstallFlush? || step.FailFlush? ||
        step.CollectAfterFlush? {
      FlushStepKeepsInv(s, step, s');
    } else if step.FinishCompaction? {
      FinishKeepsInv(s, step.id, s');
    } else {
      CompactionStepKeepsInv(s, step, s');
    }
  }

  // ----- runs -----

  ghost predicate IsRun(states: seq<State>, steps: seq<Step>) {
    && |states| == |steps| + 1 && Init(states[0])
    && forall i | 0 <= i < |steps| ::
         states[i].current in states[i].versions && Next(states[i], steps[i], states[i + 1])
  }

  lemma {:induction false} RunKeepsInv(states: seq<State>, steps: seq<Step>, i: nat)
    requires IsRun(states, steps) && i < |states|
    ensures Inv(states[i])
  {
    if i == 0 {
      InitInv(states[0]);
    } else {
      RunKeepsInv(states, steps, i - 1);
      StepKeepsInv(states[i - 1], steps[i - 1], states[i]);
    }
  }

  /** The table being built by a flush and those of the compaction, and nothing else, are kept from collection. */
  ghost function Outputs(c: Compaction): set<nat> {
    if c.NoCompaction? then {} else c.outputs + if c.output.Some? then {c.output.value} else {}
  }

  ghost predicate PendingInv(s: State) {
    s.pending == Outputs(s.compaction) + if s.flush.Building? then {s.flush.n} else {}
  }

  lemma StepKeepsPending(s: State, step: Step, s': State)
    requires Inv(s) && PendingInv(s) && Next(s, step, s')
    ensures PendingInv(s')
  {
    if step.StartFlush? || step.OpenOutput? { assert s.next !in s.pending; }
  }

  lemma {:induction false} RunKeepsPending(states: seq<State>, steps: seq<Step>, i: nat)
    requires IsRun(states, steps) && i < |states|
    ensures Inv(states[i]) && PendingInv(states[i])
  {
    RunKeepsInv(states, steps, i);
    if i > 0 {
      RunKeepsPending(states, steps, i - 1);
      StepKeepsPending(states[i - 1], steps[i - 1], states[i]);
    }
  }

  /** The files that a live version lists. */
  ghost function LiveFiles(s: State): set<nat> {
    set v, f | v in s.versions && f in s.versions[v] && IsLive(s, v) :: f
  }

  /** A collection leaves no garbage: behind it the tables on disk are those that live versions list and those that a
      compaction has written so far.  With no reader and no compaction these are the files of the current version. */
  lemma CollectionIsComplete(states: seq<State>, steps: seq<Step>, i: nat)
    requires IsRun(states, steps) && i < |steps| && (steps[i].CollectAfterFlush? || steps[i].FinishCompaction?)
    requires !states[i].failed
    ensures var s := states[i + 1]; s.disk == LiveFiles(s) + Outputs(s.compaction)
    ensures var s := states[i + 1];
            s.current in s.versions && (s.readers == multiset{} && s.compaction.NoCompaction? ==>
            s.disk == s.versions[s.current])
  {
    var s, s' := states[i], states[i + 1];
    RunKeepsPending(states, steps, i);
    RunKeepsPending(states, steps, i + 1);
    assert PendingInv(s') && !s'.flush.Building?;
    forall f | f in s'.disk ensures f in LiveFiles(s') + Outputs(s'.compaction) {
      CollectedIsNeeded(s, steps[i], s', f);
    }
  }

  lemma CollectedIsNeeded(s: State, step: Step, s': State, f: nat)
    requires s.current in s.versions && Next(s, step, s') && (step.CollectAfterFlush? || step.FinishCompaction?)
    requires !s.failed && f in s'.disk
    ensures IsNeeded(s', f)
  {
    if step.FinishCompaction? {
      var c := s.compaction;
      var done := Install(s, s.versions[s.current] - c.inputs + c.outputs, step.id)
                  .(compaction := NoCompaction, pending := s.pending - c.outputs);
      assert s' == Collected(done) && IsNeeded(done, f);
      NeededAfter(done, f);
    } else {
      NeededAfter(s, f);
    }
  }

  lemma NeededAfter(s: State, f: nat)
    requires IsNeeded(s, f)
    ensures IsNeeded(Collected(s), f) && IsNeeded(Collected(s).(flush := NoFlush), f)
  {
    if f !in s.pending {
      var v :| IsLive(s, v) && v in s.versions && f in s.versions[v];
      assert IsLive(Collected(s), v) && IsLive(Collected(s).(flush := NoFlush), v);
    }
  }

  /** At every moment of every run, all files that a live version lists, that a compaction reads or has written, and
      that the next LogAndApply will install are on disk. */
  lemma NeededFilesExist(states: seq<State>, steps: seq<Step>, i: nat)
    requires IsRun(states, steps) && i < |states|
    ensures forall v, f | IsLive(states[i], v) && v in states[i].versions
            && f in states[i].versions[v] :: f in states[i].disk
    ensures states[i].compaction.Merging? ==>
            states[i].compaction.inputs + states[i].compaction.outputs <= states[i].disk
    ensures states[i].flush.Installing? && states[i].flush.file.Some? ==> states[i].flush.file.value in states[i].disk
  {
    RunKeepsInv(states, steps, i);
    var s := states[i];
    if s.compaction.Merging? {
      forall f | f in s.compaction.inputs ensures f in s.disk { assert IsLive(s, s.compaction.version); }
    }
  }

  /** Between the end of a flush and its installation the new table is neither pending nor in any version.  A
      collection, which at that moment only a thread other than the background thread could start, is safe exactly
      outside that window. */
  lemma CollectionIsSafeIff(s: State)
    requires Inv(s) && !s.failed
    ensures Inv(Collected(s)) <==> !(s.flush.Installing? && s.flush.file.Some?)
  {
    CollectKeepsFiles(s);
  }

  /** A run in which a second collector would delete the table that is about to be installed. */
  lemma SecondCollectorLosesTable() returns (states: seq<State>, steps: seq<Step>)
    ensures IsRun(states, steps) && !Inv(Collected(states[|steps|]))
  {
    var s0 := State({}, 2, {}, map[0 := {}], 0, multiset{}, NoFlush, NoCompaction, false);
    var s1 := s0.(flush := Building(2), pending := {} + {2}, next := 3);
    var s2 := s1.(disk := {} + {2});
    var s3 := s2.(flush := Installing(Some(2)), pending := {} + {2} - {2});
    states, steps := [s0, s1, s2, s3], [StartFlush, BuildFlush, EndFlush(true)];
    assert !IsNeeded(s3, 2);
    assert 2 !in Collected(s3).disk;
  }
}
