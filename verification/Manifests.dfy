/** VersionSet::Builder, LogAndApply and Recover (db/version_set.cc): file lists change by edits; replaying all edits
    of a manifest through one builder gives the lists that applying them one at a time gave. */
module Manifests {
  import opened Bytes

  const LEVELS: nat := 7

  /** FileMetaData. */
  datatype Meta = Meta(number: nat, size: nat, smallest: Text, largest: Text)

  /** The comparator, given by the rank of each key. */
  type Rank = Text -> real

  /** BySmallestKey. */
  predicate Lt(rank: Rank, f: Meta, g: Meta) {
    rank(f.smallest) < rank(g.smallest) || (rank(f.smallest) == rank(g.smallest) && f.number < g.number)
  }

  ghost predicate Sorted(rank: Rank, fs: seq<Meta>) {
    forall i, j | 0 <= i < j < |fs| :: Lt(rank, fs[i], fs[j])
  }

  ghost function Elems(fs: seq<Meta>): set<Meta> {
    set f | f in fs
  }

  /** A sorted list is determined by its elements. */
  lemma {:induction false} SortedUnique(rank: Rank, a: seq<Meta>, b: seq<Meta>)
    requires Sorted(rank, a) && Sorted(rank, b) && Elems(a) == Elems(b)
    ensures a == b
    decreases |a|
  {
    HasFirst(a);
    HasFirst(b);
    if a != [] && b != [] {
      assert a[0] in Elems(b) && b[0] in Elems(a);
      FirstIsFirst(rank, a, b[0]);
      FirstIsFirst(rank, b, a[0]);
      assert a[0] == b[0];
      Tail(rank, a);
      Tail(rank, b);
      SortedUnique(rank, a[1..], b[1..]);
      assert a == [a[0]] + a[1..] && b == [b[0]] + b[1..];
    }
  }

  lemma HasFirst(fs: seq<Meta>)
    ensures fs == [] <==> Elems(fs) == {}
  {
    if fs != [] { assert fs[0] in Elems(fs); }
  }

  lemma FirstIsFirst(rank: Rank, fs: seq<Meta>, f: Meta)
    requires Sorted(rank, fs) && f in fs
    ensures fs[0] == f || Lt(rank, fs[0], f)
  {
  }

  lemma Tail(rank: Rank, fs: seq<Meta>)
    requires Sorted(rank, fs) && fs != []
    ensures Sorted(rank, fs[1..]) && Elems(fs[1..]) == Elems(fs) - {fs[0]}
  {
    assert forall f :: f in fs <==> f == fs[0] || f in fs[1..];
    assert fs[0] !in fs[1..];
  }

  // ----- one level of the builder -----

  datatype LevelState = LevelState(deleted: set<nat>, added: seq<Meta>)

  /** The file numbers in a list. */
  function Numbers(fs: seq<Meta>): set<nat> {
    set f | f in fs :: f.number
  }

  /** Neither comes first: one place in a file set. */
  predicate Same(rank: Rank, f: Meta, g: Meta) {
    rank(f.smallest) == rank(g.smallest) && f.number == g.number
  }

  ghost predicate Has(rank: Rank, fs: set<Meta>, f: Meta) {
    exists g :: g in fs && Same(rank, g, f)
  }

  /** What inserting a file does to a file set. */
  ghost function With(rank: Rank, fs: set<Meta>, f: Meta): set<Meta> {
    if Has(rank, fs, f) then fs else fs + {f}
  }

  /** A file set keeps its files in order, and keeps the file it has. */
  function InsertFile(rank: Rank, fs: seq<Meta>, f: Meta): seq<Meta> {
    if fs == [] || Lt(rank, f, fs[0]) then [f] + fs
    else if Same(rank, f, fs[0]) then fs
    else [fs[0]] + InsertFile(rank, fs[1..], f)
  }

  lemma {:induction false} InsertSorted(rank: Rank, fs: seq<Meta>, f: Meta)
    requires Sorted(rank, fs)
    ensures Sorted(rank, InsertFile(rank, fs, f))
    ensures Elems(InsertFile(rank, fs, f)) == With(rank, Elems(fs), f)
    decreases |fs|
  {
    if fs == [] || Lt(rank, f, fs[0]) {
      forall g | g in Elems(fs) ensures Lt(rank, f, g) { FirstIsFirst(rank, fs, g); }
      assert forall g :: g in fs ==> g in Elems(fs);
      assert forall g :: g in [f] + fs <==> g == f || g in fs;
    } else if Same(rank, f, fs[0]) {
      assert fs[0] in Elems(fs);
    } else {
      Tail(rank, fs);
      InsertSorted(rank, fs[1..], f);
      PutInFront(rank, fs, f, InsertFile(rank, fs[1..], f));
    }
  }

  lemma PutInFront(rank: Rank, fs: seq<Meta>, f: Meta, rest: seq<Meta>)
    requires Sorted(rank, fs) && fs != [] && Lt(rank, fs[0], f) && Sorted(rank, rest)
    requires Elems(rest) == With(rank, Elems(fs[1..]), f)
    ensures Sorted(rank, [fs[0]] + rest)
    ensures Elems([fs[0]] + rest) == With(rank, Elems(fs), f)
  {
    assert forall g :: g in fs <==> g == fs[0] || g in fs[1..];
    assert Elems(fs) == {fs[0]} + Elems(fs[1..]);
    assert Has(rank, Elems(fs), f) <==> Has(rank, Elems(fs[1..]), f);
    forall g | g in rest ensures Lt(rank, fs[0], g) {
      assert g in Elems(rest);
      if g != f { assert g in Elems(fs[1..]); }
    }
    assert forall g :: g in [fs[0]] + rest <==> g == fs[0] || g in rest;
    assert forall g :: g in rest <==> g in Elems(rest);
  }

  /** Files that are not deleted. */
  ghost function Surviving(fs: set<Meta>, deleted: set<nat>): set<Meta> {
    set f | f in fs && f.number !in deleted
  }

  /** What SaveTo makes of one level: the files of the base and the added ones that are not deleted, in order. */
  ghost predicate Saves(rank: Rank, base: seq<Meta>, st: LevelState, v: seq<Meta>) {
    Sorted(rank, v) && Elems(v) == Surviving(Elems(base) + Elems(st.added), st.deleted)
  }

  ghost predicate Apart(rank: Rank, a: seq<Meta>, b: seq<Meta>) {
    forall f, g | f in a && g in b :: !Same(rank, f, g)
  }

  /** MaybeAddFile. */
  function Push(v: seq<Meta>, f: Meta, deleted: set<nat>): seq<Meta> {
    if f.number in deleted then v else v + [f]
  }

  lemma PushOne(rank: Rank, v: seq<Meta>, f: Meta, deleted: set<nat>, done: set<Meta>)
    requires Sorted(rank, v) && Elems(v) == Surviving(done, deleted) && forall x | x in v :: Lt(rank, x, f)
    ensures Sorted(rank, Push(v, f, deleted)) && Elems(Push(v, f, deleted)) == Surviving(done + {f}, deleted)
    ensures forall x | x in Push(v, f, deleted) :: x in v || x == f
  {
    assert f.number !in deleted ==> Elems(v + [f]) == Elems(v) + {f};
  }

  /** The first i files of the base and the first k added ones have been merged. */
  ghost predicate Merging(rank: Rank, base: seq<Meta>, st: LevelState, i: nat, k: nat, v: seq<Meta>) {
    && i <= |base| && k <= |st.added|
    && Sorted(rank, v) && Elems(v) == Surviving(Elems(base[..i]) + Elems(st.added[..k]), st.deleted)
    && (i < |base| ==> forall x | x in v :: Lt(rank, x, base[i]))
    && (k < |st.added| ==> forall x | x in v :: Lt(rank, x, st.added[k]))
  }

  lemma OneMore(fs: seq<Meta>, i: nat)
    requires i < |fs|
    ensures Elems(fs[..i + 1]) == Elems(fs[..i]) + {fs[i]}
  {
    assert fs[..i + 1] == fs[..i] + [fs[i]];
  }

  lemma TakeBase(rank: Rank, base: seq<Meta>, st: LevelState, i: nat, k: nat, v: seq<Meta>)
    requires Sorted(rank, base) && Apart(rank, base, st.added) && Merging(rank, base, st, i, k, v) && i < |base|
    requires k < |st.added| ==> !Lt(rank, st.added[k], base[i])
    ensures Merging(rank, base, st, i + 1, k, Push(v, base[i], st.deleted))
  {
    var done := Elems(base[..i]) + Elems(st.added[..k]);
    PushOne(rank, v, base[i], st.deleted, done);
    OneMore(base, i);
    assert Elems(base[..i + 1]) + Elems(st.added[..k]) == done + {base[i]};
    if k < |st.added| { assert base[i] in base && st.added[k] in st.added; }
    if i + 1 < |base| { assert Lt(rank, base[i], base[i + 1]); }
  }

  lemma TakeAdded(rank: Rank, base: seq<Meta>, st: LevelState, i: nat, k: nat, v: seq<Meta>)
    requires Sorted(rank, st.added) && Merging(rank, base, st, i, k, v) && k < |st.added|
    requires i < |base| ==> Lt(rank, st.added[k], base[i])
    ensures Merging(rank, base, st, i, k + 1, Push(v, st.added[k], st.deleted))
  {
    var done := Elems(base[..i]) + Elems(st.added[..k]);
    PushOne(rank, v, st.added[k], st.deleted, done);
    OneMore(st.added, k);
    assert Elems(base[..i]) + Elems(st.added[..k + 1]) == done + {st.added[k]};
    if k + 1 < |st.added| { assert Lt(rank, st.added[k], st.added[k + 1]); }
  }

  /** std::upper_bound on the rest of the base. */
  method UpperBound(rank: Rank, base: seq<Meta>, from: nat, f: Meta) returns (pos: nat)
    requires from <= |base| && Sorted(rank, base)
    ensures from <= pos <= |base| && (forall m | from <= m < pos :: !Lt(rank, f, base[m]))
    ensures pos < |base| ==> Lt(rank, f, base[pos])
  {
    pos := from;
    while pos < |base| && !Lt(rank, f, base[pos])
      invariant from <= pos <= |base| && forall m | from <= m < pos :: !Lt(rank, f, base[m])
    {
      pos := pos + 1;
    }
  }

  /** The body of SaveTo for one level: a merge that leaves out what is deleted. */
  method SaveLevel(rank: Rank, base: seq<Meta>, st: LevelState) returns (v: seq<Meta>)
    requires Sorted(rank, base) && Sorted(rank, st.added) && Apart(rank, base, st.added)
    ensures Saves(rank, base, st, v)
  {
    v := [];
    var i := 0;
    for k := 0 to |st.added|
      invariant 0 <= i <= |base| && Merging(rank, base, st, i, k, v)
    {
      var pos := UpperBound(rank, base, i, st.added[k]);
      while i < pos
        invariant 0 <= i <= pos && Merging(rank, base, st, i, k, v)
      {
        TakeBase(rank, base, st, i, k, v);
        v := Push(v, base[i], st.deleted);
        i := i + 1;
      }
      TakeAdded(rank, base, st, i, k, v);
      v := Push(v, st.added[k], st.deleted);
    }
    while i < |base|
      invariant 0 <= i <= |base| && Merging(rank, base, st, i, |st.added|, v)
    {
      TakeBase(rank, base, st, i, |st.added|, v);
      v := Push(v, base[i], st.deleted);
      i := i + 1;
    }
    assert base[..|base|] == base && st.added[..|st.added|] == st.added;
  }

  // ----- edits -----

  /** What an edit says of one level. */
  datatype LevelEdit = LevelEdit(deleted: set<nat>, added: seq<Meta>)

  function AddAll(rank: Rank, st: LevelState, added: seq<Meta>): LevelState
    decreases |added|
  {
    if added == [] then st
    else
      var f := added[0];
      AddAll(rank, LevelState(st.deleted - {f.number}, InsertFile(rank, st.added, f)), added[1..])
  }

  /** Apply: deletions first, then additions, which take back the deletion of their number. */
  function ApplyLevel(rank: Rank, st: LevelState, e: LevelEdit): LevelState {
    AddAll(rank, LevelState(st.deleted + e.deleted, st.added), e.added)
  }

  const NOTHING: LevelState := LevelState({}, [])

  /** One builder that has been given the first n edits of a level. */
  function Replayed(rank: Rank, edits: seq<LevelEdit>, n: nat): LevelState
    requires n <= |edits|
  {
    if n == 0 then NOTHING else ApplyLevel(rank, Replayed(rank, edits, n - 1), edits[n - 1])
  }

  /** The replayed edits, saved to an empty base, give the list. */
  ghost predicate ReplaysTo(rank: Rank, edits: seq<LevelEdit>, n: nat, fs: seq<Meta>)
    requires n <= |edits|
  {
    Saves(rank, [], Replayed(rank, edits, n), fs)
  }

  lemma {:induction false} ReplayedIsLocal(rank: Rank, edits: seq<LevelEdit>, more: seq<LevelEdit>, n: nat)
    requires n <= |edits|
    ensures Replayed(rank, edits + more, n) == Replayed(rank, edits, n)
    decreases n
  {
    if n > 0 { ReplayedIsLocal(rank, edits, more, n - 1); }
  }

  lemma ReplayOneMore(rank: Rank, edits: seq<LevelEdit>, e: LevelEdit)
    ensures Replayed(rank, edits + [e], |edits| + 1) == ApplyLevel(rank, Replayed(rank, edits, |edits|), e)
  {
    ReplayedIsLocal(rank, edits, [e], |edits|);
  }

  // ----- what a builder makes of one more edit -----

  /** Of the files b those that a set holding a takes in. */
  ghost function Taken(rank: Rank, a: set<Meta>, b: set<Meta>): set<Meta> {
    set f | f in b && !Has(rank, a, f)
  }

  /** Adding to a set that already has files is adding to an empty one and then taking in what is new. */
  lemma {:induction false} AddAllFrom(rank: Rank, was: set<Meta>, st: LevelState, alone: LevelState, added: seq<Meta>)
    requires Sorted(rank, st.added) && Sorted(rank, alone.added)
    requires Elems(st.added) == was + Taken(rank, was, Elems(alone.added))
    ensures var st', alone' := AddAll(rank, st, added), AddAll(rank, alone, added);
            && Sorted(rank, st'.added) && Sorted(rank, alone'.added)
            && Elems(st'.added) == was + Taken(rank, was, Elems(alone'.added))
            && st'.deleted == st.deleted - Numbers(added) && alone'.deleted == alone.deleted - Numbers(added)
    decreases |added|
  {
    if added != [] {
      var f := added[0];
      InsertSorted(rank, st.added, f);
      InsertSorted(rank, alone.added, f);
      TakeOne(rank, was, Elems(st.added), Elems(alone.added), f);
      AddAllFrom(rank, was, LevelState(st.deleted - {f.number}, InsertFile(rank, st.added, f)),
                 LevelState(alone.deleted - {f.number}, InsertFile(rank, alone.added, f)), added[1..]);
      assert Numbers(added) == {f.number} + Numbers(added[1..]);
    }
  }

  lemma TakeOne(rank: Rank, was: set<Meta>, all: set<Meta>, alone: set<Meta>, f: Meta)
    requires all == was + Taken(rank, was, alone)
    ensures With(rank, all, f) == was + Taken(rank, was, With(rank, alone, f))
  {
    if g :| g in alone && Same(rank, g, f) {
      assert g in was || Has(rank, was, g) || g in all;
      assert Has(rank, all, f);
    } else if h :| h in was && Same(rank, h, f) {
      assert h in all && Has(rank, all, f) && Has(rank, was, f);
      assert Taken(rank, was, alone + {f}) == Taken(rank, was, alone);
    } else {
      assert !Has(rank, all, f);
      assert Taken(rank, was, alone + {f}) == Taken(rank, was, alone) + {f};
    }
  }

  lemma {:induction false} ReplayedSorted(rank: Rank, edits: seq<LevelEdit>, n: nat)
    requires n <= |edits|
    ensures Sorted(rank, Replayed(rank, edits, n).added)
    decreases n
  {
    if n > 0 {
      ReplayedSorted(rank, edits, n - 1);
      Applied(rank, Replayed(rank, edits, n - 1), edits[n - 1]);
    }
  }

  /** The files that an edit adds, without those that its own set refuses. */
  function AddedFiles(rank: Rank, e: LevelEdit): seq<Meta> {
    ApplyLevel(rank, NOTHING, e).added
  }

  lemma Applied(rank: Rank, st: LevelState, e: LevelEdit)
    requires Sorted(rank, st.added)
    ensures var st' := ApplyLevel(rank, st, e);
            && Sorted(rank, st'.added)
            && Elems(st'.added) == Elems(st.added) + Taken(rank, Elems(st.added), Elems(AddedFiles(rank, e)))
            && st'.deleted == st.deleted + e.deleted - Numbers(e.added) && Sorted(rank, AddedFiles(rank, e))
  {
    AddAllFrom(rank, Elems(st.added), LevelState(st.deleted + e.deleted, st.added), LevelState({} + e.deleted, []),
               e.added);
  }

  lemma {:induction false} AddsNumbers(rank: Rank, st: LevelState, added: seq<Meta>, f: Meta)
    requires Sorted(rank, st.added) && f in AddAll(rank, st, added).added
    ensures f in st.added || f in added
    decreases |added|
  {
    if added != [] {
      InsertSorted(rank, st.added, added[0]);
      var next := InsertFile(rank, st.added, added[0]);
      AddsNumbers(rank, LevelState(st.deleted - {added[0].number}, next), added[1..], f);
      assert f in next ==> f in Elems(next);
    }
  }

  /** An older file comes back under a number that the edit adds again. */
  ghost predicate Revives(rank: Rank, st: LevelState, e: LevelEdit, g: Meta) {
    g in st.added && g.number in st.deleted && g.number in Numbers(e.added) && g !in AddedFiles(rank, e)
  }

  ghost predicate NoneRevived(rank: Rank, st: LevelState, e: LevelEdit) {
    !exists g :: Revives(rank, st, e, g)
  }

  lemma AddedSurvive(rank: Rank, e: LevelEdit)
    ensures forall f | f in AddedFiles(rank, e) :: f.number in Numbers(e.added)
  {
    forall f | f in AddedFiles(rank, e) ensures f.number in Numbers(e.added) {
      AddsNumbers(rank, LevelState({} + e.deleted, []), e.added, f);
    }
  }

  lemma SameIsOne(rank: Rank, fs: seq<Meta>, f: Meta, g: Meta)
    requires Sorted(rank, fs) && f in fs && g in fs && Same(rank, f, g)
    ensures f == g
  {
    var i :| 0 <= i < |fs| && fs[i] == f;
    var j :| 0 <= j < |fs| && fs[j] == g;
  }

  /** What the edit makes of a list in memory. */
  ghost function InMemory(rank: Rank, fs: seq<Meta>, e: LevelEdit): set<Meta> {
    Surviving(Elems(fs) + Elems(AddedFiles(rank, e)), e.deleted - Numbers(e.added))
  }

  /** What it makes of a builder that has been given edits before. */
  ghost function InBuilder(rank: Rank, st: LevelState, e: LevelEdit): set<Meta> {
    Surviving(Elems(st.added) + Taken(rank, Elems(st.added), Elems(AddedFiles(rank, e))),
              st.deleted + e.deleted - Numbers(e.added))
  }

  lemma SavedInMemory(rank: Rank, fs: seq<Meta>, e: LevelEdit, fs': seq<Meta>)
    ensures Saves(rank, fs, ApplyLevel(rank, NOTHING, e), fs')
       <==> Sorted(rank, fs') && Elems(fs') == InMemory(rank, fs, e)
  {
    Applied(rank, NOTHING, e);
  }

  lemma SavedByBuilder(rank: Rank, st: LevelState, e: LevelEdit, fs': seq<Meta>)
    requires Sorted(rank, st.added)
    ensures Saves(rank, [], ApplyLevel(rank, st, e), fs')
       <==> Sorted(rank, fs') && Elems(fs') == InBuilder(rank, st, e)
  {
    Applied(rank, st, e);
    assert Elems([]) + Elems(ApplyLevel(rank, st, e).added) == Elems(ApplyLevel(rank, st, e).added);
  }

  /** Applying an edit in memory and giving it to the replaying builder have the same effect if and only if no file
      comes back. */
  lemma ReplayStepIff(rank: Rank, edits: seq<LevelEdit>, fs: seq<Meta>, e: LevelEdit, fs': seq<Meta>)
    requires ReplaysTo(rank, edits, |edits|, fs) && Apart(rank, fs, AddedFiles(rank, e))
    requires Saves(rank, fs, ApplyLevel(rank, NOTHING, e), fs')
    ensures ReplaysTo(rank, edits + [e], |edits| + 1, fs') <==> NoneRevived(rank, Replayed(rank, edits, |edits|), e)
  {
    var st := Replayed(rank, edits, |edits|);
    ReplayedSorted(rank, edits, |edits|);
    ReplayOneMore(rank, edits, e);
    BuilderStepIff(rank, st, fs, e, fs');
  }

  lemma BuilderStepIff(rank: Rank, st: LevelState, fs: seq<Meta>, e: LevelEdit, fs': seq<Meta>)
    requires Sorted(rank, st.added) && Saves(rank, [], st, fs) && Apart(rank, fs, AddedFiles(rank, e))
    requires Saves(rank, fs, ApplyLevel(rank, NOTHING, e), fs')
    ensures Saves(rank, [], ApplyLevel(rank, st, e), fs') <==> NoneRevived(rank, st, e)
  {
    SavedInMemory(rank, fs, e, fs');
    SavedByBuilder(rank, st, e, fs');
    Applied(rank, st, e);
    AddedSurvive(rank, e);
    SameSurvivorsIff(rank, fs, st, e);
  }

  lemma SameSurvivorsIff(rank: Rank, fs: seq<Meta>, st: LevelState, e: LevelEdit)
    requires Elems(fs) == Surviving(Elems([]) + Elems(st.added), st.deleted) && Apart(rank, fs, AddedFiles(rank, e))
    requires Sorted(rank, AddedFiles(rank, e)) && forall f | f in AddedFiles(rank, e) :: f.number in Numbers(e.added)
    ensures InMemory(rank, fs, e) == InBuilder(rank, st, e) <==> NoneRevived(rank, st, e)
  {
    var memory, replay := InMemory(rank, fs, e), InBuilder(rank, st, e);
    if g :| Revives(rank, st, e, g) {
      assert g in replay;
      assert g !in Elems(fs) && g !in memory;
    } else {
      forall f | f in memory && f !in fs && f !in st.added ensures !Has(rank, Elems(st.added), f) {
        TakenIn(rank, fs, st, e, f);
      }
      forall f ensures f in memory <==> f in replay {
        assert f in fs <==> f in Elems(fs);
        assert !Revives(rank, st, e, f);
      }
    }
  }

  lemma TakenIn(rank: Rank, fs: seq<Meta>, st: LevelState, e: LevelEdit, f: Meta)
    requires Elems(fs) == Surviving(Elems([]) + Elems(st.added), st.deleted) && Apart(rank, fs, AddedFiles(rank, e))
    requires Sorted(rank, AddedFiles(rank, e)) && f in AddedFiles(rank, e)
    requires f.number in Numbers(e.added) && f !in st.added
    requires NoneRevived(rank, st, e)
    ensures !Has(rank, Elems(st.added), f)
  {
    if g :| g in Elems(st.added) && Same(rank, g, f) {
      assert g.number !in st.deleted ==> g in Elems(fs);
      assert !Revives(rank, st, e, g);
      SameIsOne(rank, AddedFiles(rank, e), f, g);
    }
  }

  lemma AddOne(rank: Rank, f: Meta)
    ensures ApplyLevel(rank, NOTHING, LevelEdit({}, [f])) == LevelState({}, [f])
  {
    var st, one := LevelState({}, []), [f];
    assert one[1..] == [] && st.deleted - {f.number} == {} && InsertFile(rank, st.added, f) == [f];
    assert AddAll(rank, st, one) == AddAll(rank, LevelState({}, [f]), []);
    assert NOTHING.deleted + {} == {};
  }

  /** A number used twice on a level: in memory the level ends with b alone, replaying brings back a. */
  lemma ReusedNumberBringsBack(rank: Rank, a: Meta, b: Meta)
    requires a.number == b.number && a != b
    ensures var edits, e := [LevelEdit({}, [a]), LevelEdit({a.number}, [])], LevelEdit({}, [b]);
            && ReplaysTo(rank, edits, 2, []) && Saves(rank, [], ApplyLevel(rank, NOTHING, e), [b])
            && !ReplaysTo(rank, edits + [e], 3, [b])
  {
    var first, second, e := LevelEdit({}, [a]), LevelEdit({a.number}, []), LevelEdit({}, [b]);
    var edits := [first, second];
    AddOne(rank, a);
    AddOne(rank, b);
    assert Replayed(rank, edits, 1) == LevelState({}, [a]);
    assert Replayed(rank, edits, 2) == LevelState({a.number}, [a]);
    assert AddedFiles(rank, e) == [b];
    assert Revives(rank, Replayed(rank, edits, 2), e, a);
    ReplayStepIff(rank, edits, [], e, [b]);
  }

  /** What a builder saves from the replayed edits is the list itself. */
  lemma ReplayIsUnique(rank: Rank, edits: seq<LevelEdit>, n: nat, fs: seq<Meta>, v: seq<Meta>)
    requires n <= |edits| && ReplaysTo(rank, edits, n, fs) && ReplaysTo(rank, edits, n, v)
    ensures v == fs
  {
    SortedUnique(rank, v, fs);
  }
}
