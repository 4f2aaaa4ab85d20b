/** What the drop rules of a compaction do to reads (db/db_impl.cc:916-944), for any store around the inputs. */
module CompactionReads {
  import opened Options
  import opened InternalKeys
  import opened Versions
  import opened Compactions
  import opened MergingIterators

  /** All entries of the store once the merged inputs `m` are replaced by what the drop rules keep. */
  ghost function AfterCompaction(E: set<Entry>, v: Version, level: nat, m: seq<Entry>, snap: nat): set<Entry>
    requires |v| == NUM_LEVELS
  {
    (E - Elems(m)) + Elems(Kept(v, level, m, |m|, snap))
  }

  /** The marker m[i] is dropped as obsolete although an older value `e`, which no other entry hides at `snap`,
      is left outside the inputs: the deleted value comes back. */
  ghost predicate Resurfaces(E: set<Entry>, v: Version, level: nat, m: seq<Entry>, snap: nat, i: int, e: Entry)
    requires |v| == NUM_LEVELS
  {
    && 0 <= i < |m| && ObsoleteAt(v, level, m, i, snap) && !HiddenAt(m, i, snap)
    && IsNewest(E - Elems(m), m[i].key, snap, e) && e.kind.Put? && e.seqno < m[i].seqno
  }

  ghost predicate ReadsPreserved(E: set<Entry>, E': set<Entry>, snap: nat) {
    forall k, s: nat | s >= snap :: Reading(E', k, s) == Reading(E, k, s)
  }

  lemma SameKeyRun(m: seq<Entry>, i: int, j: int)
    requires Sorted(m) && UniqueSeqs(Elems(m)) && 0 <= i < j < |m| && m[i].key == m[j].key
    ensures m[j - 1].key == m[j].key && m[j].seqno < m[j - 1].seqno <= m[i].seqno
  {
    assert m[i] in Elems(m) && m[j] in Elems(m) && m[j - 1] in Elems(m);
    assert Before(m[j - 1], m[j]);
    if i < j - 1 { assert Before(m[i], m[j - 1]); }
  }

  lemma AfterIsPart(E: set<Entry>, v: Version, level: nat, m: seq<Entry>, snap: nat)
    requires |v| == NUM_LEVELS && Elems(m) <= E
    ensures AfterCompaction(E, v, level, m, snap) <= E
  {
    forall e | e in Kept(v, level, m, |m|, snap) ensures e in Elems(m) {
      KeptMember(v, level, m, |m|, snap, e);
    }
  }

  /** An input entry survives exactly when its own position is not dropped. */
  lemma SurvivesIff(E: set<Entry>, v: Version, level: nat, m: seq<Entry>, snap: nat, i: int)
    requires |v| == NUM_LEVELS && Sorted(m) && 0 <= i < |m|
    ensures m[i] in AfterCompaction(E, v, level, m, snap) <==> !DroppedAt(v, level, m, i, snap)
  {
    KeptMember(v, level, m, |m|, snap, m[i]);
    forall j | 0 <= j < |m| && m[j] == m[i] ensures j == i {
      SortedPair(m, i, j);
    }
  }

  /** Every older input entry of a key hides behind one that `snap` already sees. */
  lemma OlderInputsDrop(E: set<Entry>, v: Version, level: nat, m: seq<Entry>, snap: nat, i: int, x: Entry)
    requires |v| == NUM_LEVELS && Sorted(m) && UniqueSeqs(Elems(m))
    requires 0 <= i < |m| && m[i].seqno <= snap && x in Elems(m) && x.key == m[i].key && x.seqno < m[i].seqno
    ensures x !in AfterCompaction(E, v, level, m, snap)
  {
    var j :| 0 <= j < |m| && m[j] == x;
    if j < i { SameKeyRun(m, j, i); }
    SameKeyRun(m, i, j);
    SurvivesIff(E, v, level, m, snap, j);
  }

  /** If the newest entry a snapshot sees is dropped, it is an obsolete marker not hidden by rule (A). */
  lemma DroppedNewest(E: set<Entry>, v: Version, level: nat, m: seq<Entry>, snap: nat, k: Key, s: nat, n: Entry)
    returns (i: int)
    requires |v| == NUM_LEVELS && Sorted(m) && UniqueSeqs(E) && Elems(m) <= E && s >= snap
    requires IsNewest(E, k, s, n) && n !in AfterCompaction(E, v, level, m, snap)
    ensures 0 <= i < |m| && m[i] == n && ObsoleteAt(v, level, m, i, snap) && !HiddenAt(m, i, snap)
  {
    i :| 0 <= i < |m| && m[i] == n;
    SurvivesIff(E, v, level, m, snap, i);
    if HiddenAt(m, i, snap) {
      SameKeyRun(m, i - 1, i);
      assert m[i - 1] in Elems(m) && Visible(m[i - 1], k, s);
      assert false;
    }
  }

  /** If a read changes, some deleted value resurfaces. */
  lemma ChangedReadResurfaces(E: set<Entry>, v: Version, level: nat, m: seq<Entry>, snap: nat, k: Key, s: nat)
    requires |v| == NUM_LEVELS && Sorted(m) && UniqueSeqs(E) && Elems(m) <= E && s >= snap
    requires Reading(AfterCompaction(E, v, level, m, snap), k, s) != Reading(E, k, s)
    ensures exists i, e :: Resurfaces(E, v, level, m, snap, i, e)
  {
    var E' := AfterCompaction(E, v, level, m, snap);
    AfterIsPart(E, v, level, m, snap);
    if w :| w in E && Visible(w, k, s) {
      NewestExists(E, k, s, w);
      var n :| IsNewest(E, k, s, n);
      ReadingOfNewest(E, k, s, n);
      if n in E' {
        ReadingOfPart(E, E', k, s, n);
      } else {
        var i := DroppedNewest(E, v, level, m, snap, k, s, n);
        var e := Newest(E', k, s).value;
        assert IsNewest(E', k, s, e) && e.kind.Put?;
        assert e.seqno < n.seqno;
        if e in Elems(m) { OlderInputsDrop(E, v, level, m, snap, i, e); }
        assert IsNewest(E - Elems(m), k, snap, e);
        assert Resurfaces(E, v, level, m, snap, i, e);
      }
    } else {
      ReadingOfNothing(E, k, s);
      ReadingOfNothing(E', k, s);
    }
  }

  /** A resurfacing value does change the read at the smallest snapshot. */
  lemma ResurfacingChangesRead(E: set<Entry>, v: Version, level: nat, m: seq<Entry>, snap: nat, i: int, e: Entry)
    requires |v| == NUM_LEVELS && Sorted(m) && UniqueSeqs(E) && Elems(m) <= E
    requires Resurfaces(E, v, level, m, snap, i, e)
    ensures Reading(E, m[i].key, snap) == None
    ensures Reading(AfterCompaction(E, v, level, m, snap), m[i].key, snap) == Some(e.value)
  {
    var k := m[i].key;
    var E' := AfterCompaction(E, v, level, m, snap);
    AfterIsPart(E, v, level, m, snap);
    forall x | x in Elems(m) && Visible(x, k, snap)
      ensures x.seqno <= m[i].seqno && x !in E'
    {
      var j :| 0 <= j < |m| && m[j] == x;
      if j < i { SameKeyRun(m, j, i); }
      if i < j { SameKeyRun(m, i, j); }
      SurvivesIff(E, v, level, m, snap, j);
    }
    assert m[i] in Elems(m);
    assert IsNewest(E, k, snap, m[i]);
    ReadingOfNewest(E, k, snap, m[i]);
    assert IsNewest(E', k, snap, e);
    ReadingOfNewest(E', k, snap, e);
  }

  /** Reads at every snapshot from `snap` on survive the compaction if and only if no deleted value resurfaces. */
  lemma CompactionPreservesReadsIff(E: set<Entry>, v: Version, level: nat, m: seq<Entry>, snap: nat)
    requires |v| == NUM_LEVELS && Sorted(m) && UniqueSeqs(E) && Elems(m) <= E
    ensures ReadsPreserved(E, AfterCompaction(E, v, level, m, snap), snap)
       <==> !exists i, e :: Resurfaces(E, v, level, m, snap, i, e)
  {
    var E' := AfterCompaction(E, v, level, m, snap);
    if i, e :| Resurfaces(E, v, level, m, snap, i, e) {
      ResurfacingChangesRead(E, v, level, m, snap, i, e);
    } else {
      forall k, s: nat | s >= snap
        ensures Reading(E', k, s) == Reading(E, k, s)
      {
        if Reading(E', k, s) != Reading(E, k, s) {
          ChangedReadResurfaces(E, v, level, m, snap, k, s);
          assert false;
        }
      }
    }
  }
}
