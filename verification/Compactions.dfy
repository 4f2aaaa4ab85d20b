/** The merge compaction (db/db_impl.cc: DoCompactionWork; db/version_set.cc: MakeInputIterator, IsBaseLevelForKey):
    which entries of the merged inputs are dropped, and how the rest is cut into output files.
    Where an output file ends depends on byte counts only, so those choices are nondeterministic here.
 */
module Compactions {
  import opened InternalKeys
  import opened Versions
  import opened MergingIterators

  /** No file two or more levels below the compaction covers the user key. */
  ghost predicate IsBaseLevel(v: Version, level: nat, k: Key)
    requires |v| == NUM_LEVELS
  {
    forall l, i | level + 2 <= l < NUM_LEVELS && 0 <= i < |v[l]| :: !Covers(v[l][i], k)
  }

  predicate Covers(f: File, k: Key) {
    Smallest(f).key <= k && k <= Largest(f).key
  }

  /** Rule (A): a newer entry of the same user key is already visible to every live snapshot. */
  ghost predicate HiddenAt(m: seq<Entry>, i: int, snap: nat)
    requires 0 <= i < |m|
  {
    i > 0 && m[i - 1].key == m[i].key && m[i - 1].seqno <= snap
  }

  /** A deletion marker with nothing below it. */
  ghost predicate ObsoleteAt(v: Version, level: nat, m: seq<Entry>, i: int, snap: nat)
    requires |v| == NUM_LEVELS && 0 <= i < |m|
  {
    m[i].kind.Deletion? && m[i].seqno <= snap && IsBaseLevel(v, level, m[i].key)
  }

  ghost predicate DroppedAt(v: Version, level: nat, m: seq<Entry>, i: int, snap: nat)
    requires |v| == NUM_LEVELS && 0 <= i < |m|
  {
    HiddenAt(m, i, snap) || ObsoleteAt(v, level, m, i, snap)
  }

  /** The entries among the first n that survive. */
  ghost function Kept(v: Version, level: nat, m: seq<Entry>, n: nat, snap: nat): seq<Entry>
    requires |v| == NUM_LEVELS && n <= |m|
  {
    if n == 0 then [] else
      Kept(v, level, m, n - 1, snap) + if DroppedAt(v, level, m, n - 1, snap) then [] else [m[n - 1]]
  }

  lemma {:induction false} KeptMember(v: Version, level: nat, m: seq<Entry>, n: nat, snap: nat, e: Entry)
    requires |v| == NUM_LEVELS && n <= |m|
    ensures e in Kept(v, level, m, n, snap) <==> exists i :: 0 <= i < n && m[i] == e && !DroppedAt(v, level, m, i, snap)
  {
    if n > 0 {
      KeptMember(v, level, m, n - 1, snap, e);
    }
  }

  lemma {:induction false} KeptSorted(v: Version, level: nat, m: seq<Entry>, n: nat, snap: nat)
    requires |v| == NUM_LEVELS && n <= |m| && Sorted(m)
    ensures Sorted(Kept(v, level, m, n, snap))
  {
    if n > 0 {
      var rest := Kept(v, level, m, n - 1, snap);
      KeptSorted(v, level, m, n - 1, snap);
      forall j | 0 <= j < |rest| ensures Before(rest[j], m[n - 1]) {
        KeptMember(v, level, m, n - 1, snap, rest[j]);
      }
    }
  }

  // ----- files as one run -----

  function Concat(files: seq<File>): seq<Entry> {
    if files == [] then [] else files[0].entries + Concat(files[1..])
  }

  lemma {:induction false} ConcatMember(files: seq<File>, e: Entry)
    ensures e in Concat(files) <==> e in Entries(files)
  {
    if files != [] {
      ConcatMember(files[1..], e);
      assert e in Entries(files) <==> e in files[0].entries || e in Entries(files[1..]) by {
        forall f ensures f in files <==> f == files[0] || f in files[1..] {
          assert files == [files[0]] + files[1..];
        }
      }
    }
  }

  lemma {:induction false} ConcatSorted(files: seq<File>)
    requires ValidFiles(files) && DisjointLevel(files)
    ensures Sorted(Concat(files))
  {
    if files != [] {
      var rest := Concat(files[1..]);
      ConcatSorted(files[1..]);
      forall i, j | 0 <= i < |files[0].entries| && 0 <= j < |rest| ensures Before(files[0].entries[i], rest[j]) {
        ConcatMember(files[1..], rest[j]);
        var f :| f in files[1..] && rest[j] in f.entries;
        var n :| 1 <= n < |files| && files[n] == f;
        WithinBounds(f, rest[j]);
        WithinBounds(files[0], files[0].entries[i]);
        assert Before(Largest(files[0]), Smallest(files[n]));
      }
    }
  }

  lemma {:induction false} ConcatSnoc(files: seq<File>, f: File)
    ensures Concat(files + [f]) == Concat(files) + f.entries
  {
    if files != [] {
      ConcatSnoc(files[1..], f);
      assert (files + [f])[1..] == files[1..] + [f];
    }
  }

  /** Cutting a sorted run into files gives a sorted, disjoint level. */
  lemma {:induction false} CutsAreDisjoint(files: seq<File>)
    requires Sorted(Concat(files))
    ensures ValidFiles(files) && DisjointLevel(files)
  {
    if files != [] {
      var head, rest := files[0].entries, Concat(files[1..]);
      var all := head + rest;
      assert Concat(files) == all;
      forall i, j | 0 <= i < j < |head| ensures Before(head[i], head[j]) {
        assert all[i] == head[i] && all[j] == head[j];
      }
      forall i, j | 0 <= i < j < |rest| ensures Before(rest[i], rest[j]) {
        assert all[|head| + i] == rest[i] && all[|head| + j] == rest[j];
      }
      CutsAreDisjoint(files[1..]);
      forall n | 1 <= n < |files| ensures Before(Largest(files[0]), Smallest(files[n])) {
        assert files[n] == files[1..][n - 1];
        assert files[n] in files[1..] && Smallest(files[n]) in files[n].entries;
        ConcatMember(files[1..], Smallest(files[n]));
        assert Smallest(files[n]) in rest;
        var j :| 0 <= j < |rest| && rest[j] == Smallest(files[n]);
        assert all[|head| - 1] == Largest(files[0]) && all[|head| + j] == rest[j];
      }
    }
  }

  // ----- Compaction -----

  class Compaction {
    const version: Version
    const level: nat
    var levelPtrs: seq<nat>

    ghost predicate Inv()
      reads this
    {
      && |version| == NUM_LEVELS && |levelPtrs| == NUM_LEVELS && level + 1 < NUM_LEVELS
      && forall l | 0 <= l < NUM_LEVELS :: levelPtrs[l] <= |version[l]|
    }

    /** Files the level pointers have passed end before `k`. */
    ghost predicate PassedBelow(k: Key)
      requires Inv()
      reads this
    {
      forall l, i | level + 2 <= l < NUM_LEVELS && 0 <= i < levelPtrs[l] :: Largest(version[l][i]).key < k
    }

    ghost predicate AtStart()
      reads this
    {
      |levelPtrs| == NUM_LEVELS && forall l | 0 <= l < NUM_LEVELS :: levelPtrs[l] == 0
    }

    constructor (v: Version, level: nat)
      requires |v| == NUM_LEVELS && level + 1 < NUM_LEVELS
      ensures Inv() && AtStart() && version == v && this.level == level
    {
      version := v;
      this.level := level;
      levelPtrs := seq(NUM_LEVELS, i => 0);
    }

    /** IsBaseLevelForKey: linear search that never moves a level pointer back, for keys asked in increasing order. */
    method IsBaseLevelForKey(k: Key) returns (r: bool)
      requires Inv() && PassedBelow(k) && LevelsValid(version) && LevelsDisjoint(version)
      modifies this
      ensures Inv() && PassedBelow(k)
      ensures r == IsBaseLevel(version, level, k)
    {
      for l := level + 2 to NUM_LEVELS
        invariant Inv() && PassedBelow(k)
        invariant forall l', i | level + 2 <= l' < l && 0 <= i < |version[l']| :: !Covers(version[l'][i], k)
      {
        var covered := AdvanceTo(l, k);
        if covered {
          return false;
        }
      }
      return true;
    }

    /** The scan of one level, from its level pointer to the first file that ends at or after `k`. */
    method AdvanceTo(l: nat, k: Key) returns (covered: bool)
      requires level + 2 <= l < NUM_LEVELS
      requires Inv() && PassedBelow(k) && ValidFiles(version[l]) && DisjointLevel(version[l])
      modifies this
      ensures Inv() && PassedBelow(k)
      ensures covered <==> exists i :: 0 <= i < |version[l]| && Covers(version[l][i], k)
    {
      while levelPtrs[l] < |version[l]|
        invariant Inv() && PassedBelow(k)
        decreases |version[l]| - levelPtrs[l]
      {
        var f := version[l][levelPtrs[l]];
        if k <= Largest(f).key {
          if k >= Smallest(f).key {
            assert Covers(version[l][levelPtrs[l]], k);
            return true;
          }
          break;
        }
        levelPtrs := levelPtrs[l := levelPtrs[l] + 1];
      }
      NoneCovers(version[l], levelPtrs[l], k);
      return false;
    }
  }

  lemma NoneCovers(files: seq<File>, p: nat, k: Key)
    requires ValidFiles(files) && DisjointLevel(files) && p <= |files|
    requires forall i | 0 <= i < p :: Largest(files[i]).key < k
    requires p < |files| ==> k < Smallest(files[p]).key
    ensures forall i | 0 <= i < |files| :: !Covers(files[i], k)
  {
    forall i | 0 <= i < |files| ensures !Covers(files[i], k) {
      if p < i {
        WithinBounds(files[p], Smallest(files[p]));
        assert Before(Largest(files[p]), Smallest(files[i]));
      }
    }
  }

  // ----- the merged input -----

  /** The children of MakeInputIterator: one per level-0 file, one per other level. */
  function InputLists(level: nat, in0: seq<File>, in1: seq<File>): seq<seq<Entry>> {
    (if level == 0 then EntryLists(in0) else [Concat(in0)]) + (if in1 == [] then [] else [Concat(in1)])
  }

  function EntryLists(files: seq<File>): (r: seq<seq<Entry>>)
    ensures |r| == |files| && forall i | 0 <= i < |files| :: r[i] == files[i].entries
  {
    if files == [] then [] else [files[0].entries] + EntryLists(files[1..])
  }

  /** Inputs whose entries never compare equal across lists. */
  ghost predicate MergeableInputs(level: nat, in0: seq<File>, in1: seq<File>) {
    && ValidFiles(in0) && ValidFiles(in1) && DisjointLevel(in1)
    && (level > 0 ==> DisjointLevel(in0))
    && (level == 0 ==> forall i, j | 0 <= i < j < |in0| ::
          NewerThan(Elems(in0[i].entries), Elems(in0[j].entries)) ||
              NewerThan(Elems(in0[j].entries), Elems(in0[i].entries)))
    && NewerThan(Entries(in0), Entries(in1))
  }

  lemma InputListsUnion(level: nat, in0: seq<File>, in1: seq<File>)
    ensures UnionOf(InputLists(level, in0, in1)) == Entries(in0) + Entries(in1)
  {
    var lists := InputLists(level, in0, in1);
    forall e ensures e in UnionOf(lists) <==> e in Entries(in0) || e in Entries(in1) {
      ConcatMember(in0, e);
      ConcatMember(in1, e);
      var n := if level == 0 then |in0| else 1;
      assert in1 != [] ==> lists[n] == Concat(in1);
      assert level != 0 ==> lists[0] == Concat(in0);
      if e in Entries(in0) && level == 0 {
        var f :| f in in0 && e in f.entries;
        var i :| 0 <= i < |in0| && in0[i] == f;
        assert lists[i] == in0[i].entries;
      }
    }
  }

  lemma InputListsSorted(level: nat, in0: seq<File>, in1: seq<File>)
    requires MergeableInputs(level, in0, in1)
    ensures SortedLists(InputLists(level, in0, in1))
  {
    ConcatSorted(in1);
    if level > 0 { ConcatSorted(in0); }
    var lists := InputLists(level, in0, in1);
    forall i | 0 <= i < |lists| ensures Sorted(lists[i]) {
      if level == 0 && i < |in0| { assert ValidFile(in0[i]); }
    }
  }

  lemma InputListsDistinct(level: nat, in0: seq<File>, in1: seq<File>, i: int, j: int)
    requires MergeableInputs(level, in0, in1)
    requires 0 <= i < j < |InputLists(level, in0, in1)|
    ensures forall a, b | a in InputLists(level, in0, in1)[i] && b in InputLists(level, in0, in1)[j] ::
              Before(a, b) || Before(b, a)
  {
    var lists := InputLists(level, in0, in1);
    var n := if level == 0 then |in0| else 1;
    forall a, b | a in lists[i] && b in lists[j]
      ensures Before(a, b) || Before(b, a)
    {
      if j < n {
        assert level == 0 && a in Elems(in0[i].entries) && b in Elems(in0[j].entries);
      } else {
        ConcatMember(in1, b);
        ConcatMember(in0, a);
        if level == 0 { assert in0[i] in in0; }
        assert a in Entries(in0) && b in Entries(in1);
      }
    }
  }

  method MakeInputIterator(level: nat, in0: seq<File>, in1: seq<File>) returns (it: MergingIterator)
    requires MergeableInputs(level, in0, in1)
    ensures fresh(it) && it.Inv() && Elems(it.merged) == Entries(in0) + Entries(in1)
  {
    var lists := InputLists(level, in0, in1);
    InputListsSorted(level, in0, in1);
    InputListsUnion(level, in0, in1);
    forall i, j, a, b | 0 <= i < |lists| && 0 <= j < |lists| && i != j && a in lists[i] && b in lists[j]
      ensures Before(a, b) || Before(b, a)
    {
      if i < j { InputListsDistinct(level, in0, in1, i, j); } else { InputListsDistinct(level, in0, in1, j, i); }
    }
    it := new MergingIterator(lists);
  }

  // ----- DoCompactionWork -----

  /** The outputs of a compaction are the surviving entries of the merged input, cut into files. */
  ghost predicate CompactionOutput(v: Version, level: nat, m: seq<Entry>, snap: nat, outputs: seq<File>)
    requires |v| == NUM_LEVELS
  {
    Concat(outputs) == Kept(v, level, m, |m|, snap)
  }

  /** What the loop of DoCompactionWork remembers when it has handled the first n entries. */
  ghost predicate Remembers(m: seq<Entry>, n: nat, hasKey: bool, key: Key, last: nat) {
    n <= |m| && if n == 0 then !hasKey else hasKey && key == m[n - 1].key && last == m[n - 1].seqno
  }

  method DoCompactionWork(c: Compaction, input: MergingIterator, snap: nat, nextNumber: nat)
    returns (outputs: seq<File>)
    requires c.Inv() && c.AtStart() && input.Inv()
    requires LevelsValid(c.version) && LevelsDisjoint(c.version)
    requires snap < MAX_SEQUENCE
    modifies c, input
    ensures CompactionOutput(c.version, c.level, input.merged, snap, outputs)
    ensures forall i | 0 <= i < |outputs| :: outputs[i].number == nextNumber + i
  {
    ghost var v, level, m := c.version, c.level, input.merged;
    input.SeekToFirst();
    outputs := [];
    var current: seq<Entry> := [];
    var hasKey, key, last := false, 0.0, MAX_SEQUENCE;
    while input.Valid()
      invariant c.Inv() && input.Inv()
      invariant Built(outputs, current, nextNumber, Kept(v, level, m, input.at, snap))
      invariant Remembers(m, input.at, hasKey, key, last)
      invariant if hasKey then c.PassedBelow(key) else c.AtStart()
      decreases |m| - input.at
    {
      var e := input.Entry();
      var drop;
      drop, last := HandleKey(c, e, hasKey, key, last, snap, m, input.at);
      hasKey, key := true, e.key;
      outputs, current := Emit(outputs, current, nextNumber, e, drop, Kept(v, level, m, input.at, snap));
      input.Next();
    }
    if current != [] {
      outputs, current := FinishOutput(outputs, current, nextNumber, Kept(v, level, m, |m|, snap));
    }
  }

  /** The drop decision for one entry, and the sequence number remembered for its user key. */
  method HandleKey(c: Compaction, e: Entry, hasKey: bool, key: Key, last: nat, snap: nat, ghost m: seq<Entry>,
                   ghost n: nat)
    returns (drop: bool, last': nat)
    requires c.Inv() && LevelsValid(c.version) && LevelsDisjoint(c.version) && snap < MAX_SEQUENCE
    requires Sorted(m) && n < |m| && m[n] == e && Remembers(m, n, hasKey, key, last)
    requires if hasKey then c.PassedBelow(key) else c.AtStart()
    modifies c
    ensures c.Inv() && c.PassedBelow(e.key)
    ensures drop == DroppedAt(c.version, c.level, m, n, snap)
    ensures last' == e.seqno
  {
    assert n > 0 ==> Before(m[n - 1], m[n]);
    var lastSequenceForKey := last;
    if !hasKey || e.key != key {
      lastSequenceForKey := MAX_SEQUENCE;   // first occurrence of this user key
    }
    assert c.PassedBelow(e.key);
    drop := false;
    if lastSequenceForKey <= snap {
      drop := true;
    } else if e.kind.Deletion? && e.seqno <= snap {
      drop := c.IsBaseLevelForKey(e.key);
    }
    last' := e.seqno;
  }

  /** The finished output files and the open one hold `kept`. */
  ghost predicate Built(outputs: seq<File>, current: seq<Entry>, nextNumber: nat, kept: seq<Entry>) {
    Concat(outputs) + current == kept && forall i | 0 <= i < |outputs| :: outputs[i].number == nextNumber + i
  }

  /** Writing side of the loop: ShouldStopBefore, then the entry unless dropped, then the size test. */
  method Emit(outputs: seq<File>, current: seq<Entry>, nextNumber: nat, e: Entry, drop: bool, ghost kept: seq<Entry>)
    returns (outputs': seq<File>, current': seq<Entry>)
    requires Built(outputs, current, nextNumber, kept)
    ensures Built(outputs', current', nextNumber, kept + if drop then [] else [e])
  {
    outputs', current' := MaybeFinishOutput(outputs, current, nextNumber, kept);
    if !drop {
      assert Concat(outputs') + (current' + [e]) == kept + [e];
      outputs', current' := MaybeFinishOutput(outputs', current' + [e], nextNumber, kept + [e]);
    } else {
      assert kept + [] == kept;
    }
  }

  method MaybeFinishOutput(outputs: seq<File>, current: seq<Entry>, nextNumber: nat, ghost kept: seq<Entry>)
    returns (outputs': seq<File>, current': seq<Entry>)
    requires Built(outputs, current, nextNumber, kept)
    ensures Built(outputs', current', nextNumber, kept)
  {
    outputs', current' := outputs, current;
    if * {
      if current != [] {
        outputs', current' := FinishOutput(outputs, current, nextNumber, kept);
      }
    }
  }

  method FinishOutput(outputs: seq<File>, current: seq<Entry>, nextNumber: nat, ghost kept: seq<Entry>)
    returns (outputs': seq<File>, current': seq<Entry>)
    requires current != [] && Built(outputs, current, nextNumber, kept)
    ensures current' == [] && Built(outputs', current', nextNumber, kept)
  {
    var f: File := File(nextNumber + |outputs|, current);
    ConcatSnoc(outputs, f);
    outputs', current' := outputs + [f], [];
  }
}
