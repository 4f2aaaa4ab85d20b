/** Whole runs of the store: what every reachable state reads. */
module StoreRuns {
  import opened Options
  import opened InternalKeys
  import opened Versions
  import opened Store

  ghost predicate SafeNext(s: State, step: Step, s': State) {
    |s.version| == NUM_LEVELS && Next(s, step, s') && SafeStep(s, step)
  }

  /** A run from the empty store in which every compaction is safe to install. */
  ghost predicate SafeRun(ss: seq<State>, steps: seq<Step>) {
    && |ss| == |steps| + 1 && Init(ss[0])
    && forall i | 0 <= i < |steps| :: SafeNext(ss[i], steps[i], ss[i + 1])
  }

  lemma {:induction false} RunKeepsInv(ss: seq<State>, steps: seq<Step>, i: nat)
    requires SafeRun(ss, steps) && i < |ss|
    ensures Inv(ss[i])
  {
    if i == 0 {
      InitInv(ss[0]);
    } else {
      RunKeepsInv(ss, steps, i - 1);
      assert SafeNext(ss[i - 1], steps[i - 1], ss[i]);
      StepKeepsInv(ss[i - 1], steps[i - 1], ss[i]);
    }
  }

  /** A sequence number a reader may use in state s: a live snapshot, or the last sequence number. */
  predicate Readable(s: State, t: nat) {
    t in s.snapshots || t == s.lastSeq
  }

  /** In every state of every safe run, every read equals the plain rule over everything ever written. */
  lemma RunReadsLikeHistory(ss: seq<State>, steps: seq<Step>, i: nat, k: Key, t: nat)
    requires SafeRun(ss, steps) && i < |ss| && Readable(ss[i], t)
    ensures Reading(AllEntries(ss[i]), k, t) == Reading(ss[i].history, k, t)
  {
    RunKeepsInv(ss, steps, i);
    ReadableAboveFloor(ss[i], t);
  }

  lemma ReadableAboveFloor(s: State, t: nat)
    requires SnapshotsInv(s) && Readable(s, t)
    ensures s.floor <= t <= s.lastSeq
  {
  }

  ghost predicate HistoryExtends(s: State, s': State) {
    s.lastSeq <= s'.lastSeq && s.history <= s'.history
    && forall e | e in s'.history && e !in s.history :: e.seqno > s.lastSeq
  }

  lemma StepExtendsHistory(s: State, step: Step, s': State)
    requires |s.version| == NUM_LEVELS && Next(s, step, s')
    ensures HistoryExtends(s, s')
  {
  }

  lemma {:induction false} RunExtendsHistory(ss: seq<State>, steps: seq<Step>, i: nat, j: nat)
    requires SafeRun(ss, steps) && i <= j < |ss|
    ensures HistoryExtends(ss[i], ss[j])
    decreases j
  {
    if i < j {
      RunExtendsHistory(ss, steps, i, j - 1);
      assert SafeNext(ss[j - 1], steps[j - 1], ss[j]);
      StepExtendsHistory(ss[j - 1], steps[j - 1], ss[j]);
    }
  }

  /** A snapshot that is live at i and at j reads the same in both states, whatever was written, flushed, moved or
      compacted in between. */
  lemma SnapshotIsStable(ss: seq<State>, steps: seq<Step>, i: nat, j: nat, k: Key, t: nat)
    requires SafeRun(ss, steps) && i <= j < |ss|
    requires Readable(ss[i], t) && t in ss[j].snapshots
    ensures Reading(AllEntries(ss[j]), k, t) == Reading(AllEntries(ss[i]), k, t)
  {
    RunReadsLikeHistory(ss, steps, i, k, t);
    RunReadsLikeHistory(ss, steps, j, k, t);
    RunKeepsInv(ss, steps, i);
    RunKeepsInv(ss, steps, j);
    ReadableAboveFloor(ss[i], t);
    RunExtendsHistory(ss, steps, i, j);
    StableHistory(ss[i], ss[j], k, t);
  }

  lemma StableHistory(s: State, s': State, k: Key, t: nat)
    requires EntriesInv(s) && EntriesInv(s') && HistoryExtends(s, s') && t <= s.lastSeq
    ensures Reading(s.history, k, t) == Reading(s'.history, k, t)
  {
    ReadingSame(s.history, s'.history, k, t);
  }

  // ----- DBImpl::Get -----

  /** MemTable::Get: seek in the sorted memtable, then compare the user key. */
  function MemTableGet(mem: seq<Entry>, k: Key, t: nat): Option<Entry> {
    var i := LowerBound(mem, LookupKey(k, t));
    if i < |mem| && mem[i].key == k then Some(mem[i]) else None
  }

  /** DBImpl::Get: memtable, then immutable memtable, then the version, stopping at the first hit. */
  method Get(mem: seq<Entry>, imm: Option<seq<Entry>>, version: Version, k: Key, t: nat, ghost s: State)
    returns (r: Option<string>)
    requires Inv(s) && s.version == version && Sorted(mem) && Elems(mem) == s.mem
    requires imm.Some? == s.imm.Some? && (imm.Some? ==> Sorted(imm.value) && Elems(imm.value) == s.imm.value)
    ensures r == Reading(AllEntries(s), k, t)
    ensures Readable(s, t) ==> r == Reading(s.history, k, t)
  {
    UniqueEntries(s);
    if Readable(s, t) { ReadableAboveFloor(s, t); }
    r := Lookup(mem, imm, version, k, t, s.mem, ImmEntries(s));
  }

  lemma UniqueEntries(s: State)
    requires EntriesInv(s)
    ensures UniqueSeqs(s.mem + ImmEntries(s) + VersionEntries(s.version))
  {
  }

  method Lookup(mem: seq<Entry>, imm: Option<seq<Entry>>, version: Version, k: Key, t: nat,
                ghost M: set<Entry>, ghost I: set<Entry>) returns (r: Option<string>)
    requires VersionInv(version) && UniqueSeqs(M + I + VersionEntries(version))
    requires NewerThan(M, I) && NewerThan(M + I, VersionEntries(version))
    requires Sorted(mem) && Elems(mem) == M
    requires if imm.Some? then Sorted(imm.value) && Elems(imm.value) == I else I == {}
    ensures r == Reading(M + I + VersionEntries(version), k, t)
  {
    ghost var V := VersionEntries(version);
    SeekFindsNewest(mem, k, t);
    var hit := MemTableGet(mem, k, t);
    if hit.Some? {
      FirstHitIsNewest(M, I + V, M + I + V, k, t, hit.value);
      return ValueOf(hit.value);
    }
    if imm.Some? {
      SeekFindsNewest(imm.value, k, t);
      hit := MemTableGet(imm.value, k, t);
      if hit.Some? {
        FirstHitIsNewest(I, V, I + V, k, t, hit.value);
        NothingAbove(M, I + V, M + I + V, k, t, hit.value);
        return ValueOf(hit.value);
      }
    }
    hit := Versions.Get(version, k, t);
    if hit.Some? {
      NothingAbove(M + I, V, M + I + V, k, t, hit.value);
      return ValueOf(hit.value);
    }
    ReadingOfNothing(M + I + V, k, t);
    return None;
  }

  lemma FirstHitIsNewest(A: set<Entry>, B: set<Entry>, E: set<Entry>, k: Key, t: nat, e: Entry)
    requires E == A + B && UniqueSeqs(E) && NewerThan(A, B) && IsNewest(A, k, t, e)
    ensures IsNewest(E, k, t, e) && Reading(E, k, t) == ValueOf(e)
  {
    assert IsNewest(E, k, t, e);
    ReadingOfNewest(E, k, t, e);
  }

  lemma NothingAbove(A: set<Entry>, B: set<Entry>, E: set<Entry>, k: Key, t: nat, e: Entry)
    requires E == A + B && UniqueSeqs(E) && IsNewest(B, k, t, e) && forall x | x in A :: !Visible(x, k, t)
    ensures IsNewest(E, k, t, e) && Reading(E, k, t) == ValueOf(e)
  {
    assert IsNewest(E, k, t, e);
    ReadingOfNewest(E, k, t, e);
  }
}
