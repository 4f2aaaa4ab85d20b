/** The searches that choose the input files of a compaction (db/version_set.cc: GetOverlappingInputs,
    AddBoundaryInputs), and what a choice of inputs has to satisfy. */
module InputSelection {
  import opened Options
  import opened InternalKeys
  import opened Versions

  /** The file's user-key range meets [begin, end]; a missing bound is unbounded. */
  predicate Overlaps(f: File, begin: Option<Key>, end: Option<Key>) {
    && (begin.Some? ==> Largest(f).key >= begin.value)
    && (end.Some? ==> Smallest(f).key <= end.value)
  }

  predicate Within(f: File, begin: Option<Key>, end: Option<Key>) {
    && (begin.Some? ==> Smallest(f).key >= begin.value)
    && (end.Some? ==> Largest(f).key <= end.value)
  }

  function Overlapping(files: seq<File>, begin: Option<Key>, end: Option<Key>): seq<File> {
    if files == [] then [] else
      (if Overlaps(files[0], begin, end) then [files[0]] else []) + Overlapping(files[1..], begin, end)
  }

  lemma {:induction false} OverlappingMember(files: seq<File>, begin: Option<Key>, end: Option<Key>, f: File)
    ensures f in Overlapping(files, begin, end) <==> f in files && Overlaps(f, begin, end)
  {
    if files != [] {
      OverlappingMember(files[1..], begin, end, f);
    }
  }

  lemma {:induction false} OverlappingSnoc(files: seq<File>, n: nat, begin: Option<Key>, end: Option<Key>)
    requires n < |files|
    ensures Overlapping(files[..n + 1], begin, end)
         == Overlapping(files[..n], begin, end) + if Overlaps(files[n], begin, end) then [files[n]] else []
  {
    if n > 0 {
      OverlappingSnoc(files[1..], n - 1, begin, end);
      assert files[..n + 1][1..] == files[1..][..n];
      assert files[..n][1..] == files[1..][..n - 1];
    } else {
      assert files[..1] == [files[0]];
    }
  }

  /** A set of files that contains every file meeting the range, and with a file every file meeting that file. */
  ghost predicate ClosedUnderOverlap(files: seq<File>, begin: Option<Key>, end: Option<Key>, S: set<File>) {
    && (forall f | f in files && Overlaps(f, begin, end) :: f in S)
    && (forall f, g | f in files && g in files && f in S
       && Overlaps(g, Some(Smallest(f).key), Some(Largest(f).key)) :: g in S)
  }

  ghost predicate CoveredBy(files: seq<File>, begin: Option<Key>, end: Option<Key>, S: set<File>) {
    forall f | f in files && Overlaps(f, begin, end) :: f in S
  }

  /** Widening a range to take in a file that meets it reaches no file outside a closed set. */
  lemma WidenStaysCovered(files: seq<File>, b0: Option<Key>, e0: Option<Key>, b: Option<Key>, e: Option<Key>,
                          f: File, b': Option<Key>, e': Option<Key>, S: set<File>)
    requires ClosedUnderOverlap(files, b0, e0, S) && CoveredBy(files, b, e, S)
    requires ValidFiles(files) && f in files && Overlaps(f, b, e)
    requires (b.Some? && b' == Some(Smallest(f).key) && e' == e) || (e.Some? && b' == b && e' == Some(Largest(f).key))
    ensures CoveredBy(files, b', e', S)
  {
    assert f in S;
    WithinBounds(f, Smallest(f));
    forall g | g in files && Overlaps(g, b', e')
      ensures g in S
    {
      WithinBounds(g, Smallest(g));
      if !Overlaps(g, b, e) {
        assert Overlaps(g, Some(Smallest(f).key), Some(Largest(f).key));
      }
    }
  }

  /** Version::GetOverlappingInputs.  Above level 0 it lists the files meeting [begin, end].  On level 0 it
      restarts with a wider range whenever an input sticks out, and so lists the least closed set of files. */
  method GetOverlappingInputs(files: seq<File>, level0: bool, begin: Option<Key>, end: Option<Key>)
    returns (inputs: seq<File>, ghost b: Option<Key>, ghost e: Option<Key>)
    requires ValidFiles(files)
    ensures inputs == Overlapping(files, b, e)
    ensures !level0 ==> b == begin && e == end
    ensures b.Some? == begin.Some? && e.Some? == end.Some?
    ensures begin.Some? ==> b.value <= begin.value
    ensures end.Some? ==> end.value <= e.value
    ensures level0 ==> forall f | f in inputs :: Within(f, b, e)
    ensures level0 ==> ClosedUnderOverlap(files, begin, end, set f | f in inputs)
    ensures level0 ==> forall S | ClosedUnderOverlap(files, begin, end, S) :: forall f | f in inputs :: f in S
  {
    var userBegin, userEnd := begin, end;
    inputs := [];
    var i := 0;
    while i < |files|
      invariant 0 <= i <= |files|
      invariant userBegin.Some? == begin.Some? && userEnd.Some? == end.Some?
      invariant begin.Some? ==> userBegin.value <= begin.value
      invariant end.Some? ==> end.value <= userEnd.value
      invariant !level0 ==> userBegin == begin && userEnd == end
      invariant inputs == Overlapping(files[..i], userBegin, userEnd)
      invariant level0 ==> forall f | f in inputs :: Within(f, userBegin, userEnd)
      invariant forall S | ClosedUnderOverlap(files, begin, end, S) :: CoveredBy(files, userBegin, userEnd, S)
      decreases StickingOutBelow(files, userBegin), StickingOutAbove(files, userEnd), |files| - i
    {
      var f := files[i];
      OverlappingSnoc(files, i, userBegin, userEnd);
      i := i + 1;
      if userBegin.Some? && Largest(f).key < userBegin.value {
      } else if userEnd.Some? && Smallest(f).key > userEnd.value {
      } else {
        inputs := inputs + [f];
        if level0 {
          if userBegin.Some? && Smallest(f).key < userBegin.value {
            forall S | ClosedUnderOverlap(files, begin, end, S)
              ensures CoveredBy(files, Some(Smallest(f).key), userEnd, S)
            {
              WidenStaysCovered(files, begin, end, userBegin, userEnd, f, Some(Smallest(f).key), userEnd, S);
            }
            assert i - 1 in StickingOutBelow(files, userBegin);
            userBegin := Some(Smallest(f).key);
            inputs := [];
            i := 0;
          } else if userEnd.Some? && Largest(f).key > userEnd.value {
            forall S | ClosedUnderOverlap(files, begin, end, S)
              ensures CoveredBy(files, userBegin, Some(Largest(f).key), S)
            {
              WidenStaysCovered(files, begin, end, userBegin, userEnd, f, userBegin, Some(Largest(f).key), S);
            }
            assert i - 1 in StickingOutAbove(files, userEnd);
            userEnd := Some(Largest(f).key);
            inputs := [];
            i := 0;
          }
        }
      }
    }
    assert files[..i] == files;
    b, e := userBegin, userEnd;
    if level0 {
      FixpointIsClosed(files, begin, end, b, e);
    }
    forall S | ClosedUnderOverlap(files, begin, end, S)
      ensures forall f | f in inputs :: f in S
    {
      assert CoveredBy(files, b, e, S);
      forall f | f in inputs ensures f in S {
        OverlappingMember(files, b, e, f);
      }
    }
  }

  lemma FixpointIsClosed(files: seq<File>, begin: Option<Key>, end: Option<Key>, b: Option<Key>, e: Option<Key>)
    requires b.Some? == begin.Some? && e.Some? == end.Some?
    requires begin.Some? ==> b.value <= begin.value
    requires end.Some? ==> end.value <= e.value
    requires forall f | f in Overlapping(files, b, e) :: Within(f, b, e)
    ensures ClosedUnderOverlap(files, begin, end, set f | f in Overlapping(files, b, e))
  {
    forall f ensures f in Overlapping(files, b, e) <==> f in files && Overlaps(f, b, e) {
      OverlappingMember(files, b, e, f);
    }
  }

  ghost function StickingOutBelow(files: seq<File>, begin: Option<Key>): set<int> {
    set i | 0 <= i < |files| && begin.Some? && Smallest(files[i]).key < begin.value
  }

  ghost function StickingOutAbove(files: seq<File>, end: Option<Key>): set<int> {
    set i | 0 <= i < |files| && end.Some? && Largest(files[i]).key > end.value
  }

  // ----- boundary files -----

  ghost predicate IsLargestKey(files: seq<File>, m: Entry) {
    && (exists f :: f in files && Largest(f) == m)
    && (forall f | f in files :: !Before(m, Largest(f)))
  }

  ghost predicate IsSmallestKey(files: seq<File>, m: Entry) {
    && (exists f :: f in files && Smallest(f) == m)
    && (forall f | f in files :: !Before(Smallest(f), m))
  }

  /** `f` starts after `largest` but with the same user key. */
  predicate IsBoundary(f: File, largest: Entry) {
    Before(largest, Smallest(f)) && Smallest(f).key == largest.key
  }

  /** FindLargestKey and the upper half of GetRange. */
  method FindLargestKey(files: seq<File>) returns (m: Entry)
    requires files != []
    ensures IsLargestKey(files, m)
  {
    m := Largest(files[0]);
    for i := 1 to |files|
      invariant exists f :: f in files && Largest(f) == m
      invariant forall j | 0 <= j < i :: !Before(m, Largest(files[j]))
    {
      if Before(m, Largest(files[i])) {
        m := Largest(files[i]);
      }
    }
  }

  /** The lower half of GetRange. */
  method FindSmallestKey(files: seq<File>) returns (m: Entry)
    requires files != []
    ensures IsSmallestKey(files, m)
  {
    m := Smallest(files[0]);
    for i := 1 to |files|
      invariant exists f :: f in files && Smallest(f) == m
      invariant forall j | 0 <= j < i :: !Before(Smallest(files[j]), m)
    {
      if Before(Smallest(files[i]), m) {
        m := Smallest(files[i]);
      }
    }
  }

  method FindSmallestBoundaryFile(files: seq<File>, largest: Entry) returns (r: Option<File>)
    ensures r.None? ==> forall f | f in files :: !IsBoundary(f, largest)
    ensures r.Some? ==> r.value in files && IsBoundary(r.value, largest)
    ensures r.Some? ==> forall f | f in files && IsBoundary(f, largest) :: !Before(Smallest(f), Smallest(r.value))
  {
    r := None;
    for i := 0 to |files|
      invariant r.None? ==> forall j | 0 <= j < i :: !IsBoundary(files[j], largest)
      invariant r.Some? ==> r.value in files && IsBoundary(r.value, largest)
      invariant r.Some? ==>
        forall j | 0 <= j < i && IsBoundary(files[j], largest) :: !Before(Smallest(files[j]), Smallest(r.value))
    {
      var f := files[i];
      if IsBoundary(f, largest) && (r.None? || Before(Smallest(f), Smallest(r.value))) {
        r := Some(f);
      }
    }
  }

  ghost predicate SliceFrom(part: seq<File>, files: seq<File>, lo: int) {
    exists hi :: 0 <= lo < hi <= |files| && part == files[lo..hi]
  }

  ghost predicate NoBoundaryLeft(files: seq<File>, inputs: seq<File>) {
    forall m, f | IsLargestKey(inputs, m) && f in files :: !IsBoundary(f, m)
  }

  /** The file at index i starts with the user key that an earlier one ends with. */
  ghost predicate LinksBack(files: seq<File>, i: int)
    requires 0 <= i < |files|
  {
    exists j :: 0 <= j < i && Smallest(files[i]).key == Largest(files[j]).key
  }

  ghost predicate LinkedFrom(n: nat, files: seq<File>) {
    forall i | n <= i < |files| :: LinksBack(files, i)
  }

  lemma LinkOneMore(n: nat, files: seq<File>, largest: Entry, b: File)
    requires LinkedFrom(n, files) && IsLargestKey(files, largest) && IsBoundary(b, largest)
    ensures LinkedFrom(n, files + [b])
  {
    var more := files + [b];
    forall i | n <= i < |more| ensures LinksBack(more, i) {
      if i < |files| {
        assert LinksBack(files, i);
        var j :| 0 <= j < i && Smallest(files[i]).key == Largest(files[j]).key;
        assert Smallest(more[i]).key == Largest(more[j]).key;
      } else {
        var f :| f in files && Largest(f) == largest;
        var j :| 0 <= j < |files| && files[j] == f;
        assert Smallest(more[i]).key == Largest(more[j]).key;
      }
    }
  }

  /** The boundary file that starts first behind the largest key of these. */
  ghost predicate IsNextBoundary(files: seq<File>, part: seq<File>, b: File) {
    exists m :: IsLargestKey(part, m) && b in files && IsBoundary(b, m)
                && forall f | f in files && IsBoundary(f, m) :: !Before(Smallest(f), Smallest(b))
  }

  ghost predicate Chained(files: seq<File>, n: nat, r: seq<File>) {
    forall i | n <= i < |r| :: IsNextBoundary(files, r[..i], r[i])
  }

  /** What AddBoundaryInputs makes of some inputs: boundary file after boundary file is appended until there is none. */
  ghost predicate WithBoundaries(files: seq<File>, inputs: seq<File>, r: seq<File>) {
    inputs <= r && Chained(files, |inputs|, r) && NoBoundaryLeft(files, r)
  }

  lemma ChainOneMore(files: seq<File>, n: nat, r: seq<File>, b: File)
    requires Chained(files, n, r) && IsNextBoundary(files, r, b)
    ensures Chained(files, n, r + [b])
  {
    var more := r + [b];
    forall i | n <= i < |more| ensures IsNextBoundary(files, more[..i], more[i]) {
      if i < |r| { assert more[..i] == r[..i] && IsNextBoundary(files, r[..i], r[i]); } else { assert more[..i] == r; }
    }
  }

  /** AddBoundaryInputs: afterwards no file of the level starts, with the same user key, right after the inputs. */
  method AddBoundaryInputs(files: seq<File>, inputs: seq<File>) returns (r: seq<File>)
    requires ValidFiles(files)
    ensures inputs <= r
    ensures forall f | f in r :: f in inputs || f in files
    ensures LinkedFrom(|inputs|, r)
    ensures WithBoundaries(files, inputs, r)
    ensures NoBoundaryLeft(files, inputs) ==> r == inputs
    ensures DisjointLevel(files) ==> forall lo | SliceFrom(inputs, files, lo) :: SliceFrom(r, files, lo)
  {
    r := inputs;
    if inputs == [] {
      return;
    }
    var largest := FindLargestKey(inputs);
    var searching := true;
    while searching
      invariant inputs <= r
      invariant forall f | f in r :: f in inputs || f in files
      invariant IsLargestKey(r, largest) && LinkedFrom(|inputs|, r) && Chained(files, |inputs|, r)
      invariant NoBoundaryLeft(files, inputs) ==> r == inputs
      invariant DisjointLevel(files) ==> forall lo | SliceFrom(inputs, files, lo) :: SliceFrom(r, files, lo)
      invariant !searching ==> forall f | f in files :: !IsBoundary(f, largest)
      decreases searching, StartingAfter(files, largest)
    {
      var b := FindSmallestBoundaryFile(files, largest);
      if b.Some? {
        WithinBounds(b.value, Smallest(b.value));
        if DisjointLevel(files) {
          forall lo | SliceFrom(r, files, lo) ensures SliceFrom(r + [b.value], files, lo) {
            SliceGrows(files, r, lo, largest, b.value);
          }
        }
        LinkOneMore(|inputs|, r, largest, b.value);
        ChainOneMore(files, |inputs|, r, b.value);
        LargestGrows(r, largest, b.value);
        StartsAfterShrinks(files, largest, b.value);
        r := r + [b.value];
        largest := Largest(b.value);
      } else {
        searching := false;
      }
    }
    SameLargest(r, largest);
  }

  ghost function StartingAfter(files: seq<File>, largest: Entry): set<int> {
    set i | 0 <= i < |files| && Before(largest, Smallest(files[i]))
  }

  lemma StartsAfterShrinks(files: seq<File>, largest: Entry, b: File)
    requires b in files && ValidFile(b) && Before(largest, Smallest(b))
    ensures StartingAfter(files, Largest(b)) < StartingAfter(files, largest)
  {
    WithinBounds(b, Smallest(b));
    var i :| 0 <= i < |files| && files[i] == b;
    assert i in StartingAfter(files, largest) && i !in StartingAfter(files, Largest(b));
  }

  lemma LargestGrows(r: seq<File>, largest: Entry, b: File)
    requires IsLargestKey(r, largest) && ValidFile(b) && Before(largest, Smallest(b))
    ensures IsLargestKey(r + [b], Largest(b))
  {
    WithinBounds(b, Smallest(b));
    assert b in r + [b];
    forall f | f in r + [b] ensures !Before(Largest(b), Largest(f)) {
      assert f in r || f == b;
    }
  }

  lemma SameLargest(r: seq<File>, largest: Entry)
    requires IsLargestKey(r, largest)
    ensures forall m, f | IsLargestKey(r, m) :: IsBoundary(f, m) == IsBoundary(f, largest)
  {
  }

  /** In a disjoint level the smallest boundary file is the next file of the level. */
  lemma SliceGrows(files: seq<File>, part: seq<File>, lo: int, largest: Entry, b: File)
    requires ValidFiles(files) && DisjointLevel(files)
    requires SliceFrom(part, files, lo) && IsLargestKey(part, largest)
    requires b in files && IsBoundary(b, largest)
    requires forall f | f in files && IsBoundary(f, largest) :: !Before(Smallest(f), Smallest(b))
    ensures SliceFrom(part + [b], files, lo)
  {
    var hi :| 0 <= lo < hi <= |files| && part == files[lo..hi];
    SliceEnd(files, part, lo, hi, largest);
    var y :| 0 <= y < |files| && files[y] == b;
    BoundaryIsNext(files, hi, y);
    OneFileMore(files, lo, hi);
  }

  lemma OneFileMore(files: seq<File>, lo: int, hi: int)
    requires 0 <= lo < hi < |files|
    ensures files[lo..hi] + [files[hi]] == files[lo..hi + 1] && SliceFrom(files[lo..hi + 1], files, lo)
  {
  }

  lemma BoundaryIsNext(files: seq<File>, hi: int, y: int)
    requires ValidFiles(files) && DisjointLevel(files)
    requires 0 < hi <= |files| && 0 <= y < |files|
    requires IsBoundary(files[y], Largest(files[hi - 1]))
    requires forall f | f in files && IsBoundary(f, Largest(files[hi - 1])) :: !Before(Smallest(f), Smallest(files[y]))
    ensures y == hi
  {
    if y < hi {
      FileOrder(files, y, hi - 1);
      WithinBounds(files[y], Smallest(files[y]));
    } else if hi < y {
      var f := files[hi];
      WithinBounds(f, Smallest(f));
      assert Before(Largest(files[hi - 1]), Smallest(f));
      assert Before(Smallest(f), Smallest(files[y]));
      assert f in files && IsBoundary(f, Largest(files[hi - 1]));
    }
  }

  lemma SliceEnd(files: seq<File>, part: seq<File>, lo: int, hi: int, largest: Entry)
    requires ValidFiles(files) && DisjointLevel(files)
    requires 0 <= lo < hi <= |files| && part == files[lo..hi] && IsLargestKey(part, largest)
    ensures largest == Largest(files[hi - 1])
  {
    var f :| f in part && Largest(f) == largest;
    var x :| 0 <= x < |part| && part[x] == f;
    assert files[hi - 1] in part;
    FileOrder(files, lo + x, hi - 1);
  }

  // ----- the files that meet a range of a disjoint level are consecutive -----

  lemma {:induction false} OverlappingNone(files: seq<File>, begin: Option<Key>, end: Option<Key>)
    requires forall i | 0 <= i < |files| :: !Overlaps(files[i], begin, end)
    ensures Overlapping(files, begin, end) == []
  {
    if files != [] {
      OverlappingNone(files[1..], begin, end);
    }
  }

  lemma {:induction false} OverlappingPrefix(files: seq<File>, begin: Option<Key>, end: Option<Key>) returns (n: nat)
    requires ValidFiles(files) && DisjointLevel(files)
    requires begin.Some? ==> forall i | 0 <= i < |files| :: Largest(files[i]).key >= begin.value
    ensures n <= |files| && Overlapping(files, begin, end) == files[..n]
  {
    if files == [] {
      n := 0;
    } else if Overlaps(files[0], begin, end) {
      n := OverlappingPrefix(files[1..], begin, end);
      n := n + 1;
    } else {
      n := 0;
      forall i | 0 <= i < |files| ensures !Overlaps(files[i], begin, end) {
        if i > 0 {
          WithinBounds(files[0], Smallest(files[0]));
          assert Before(Largest(files[0]), Smallest(files[i]));
        }
      }
      OverlappingNone(files, begin, end);
    }
  }

  lemma TailSlice(files: seq<File>, lo: int, hi: int)
    requires 0 <= lo < hi < |files|
    ensures files[1..][lo..hi] == files[lo + 1..hi + 1]
  {
    var part, whole := files[1..][lo..hi], files[lo + 1..hi + 1];
    assert |part| == |whole| && forall k | 0 <= k < |part| :: part[k] == files[lo + 1 + k] == whole[k];
  }

  lemma {:induction false} OverlappingIsSlice(files: seq<File>, begin: Option<Key>, end: Option<Key>) returns (lo: int)
    requires ValidFiles(files) && DisjointLevel(files)
    requires Overlapping(files, begin, end) != []
    ensures SliceFrom(Overlapping(files, begin, end), files, lo)
  {
    if begin.Some? && Largest(files[0]).key < begin.value {
      lo := OverlappingIsSlice(files[1..], begin, end);
      var hi :| 0 <= lo < hi <= |files[1..]| && Overlapping(files[1..], begin, end) == files[1..][lo..hi];
      TailSlice(files, lo, hi);
      lo := lo + 1;
    } else {
      forall i | 0 <= i < |files| && begin.Some? ensures Largest(files[i]).key >= begin.value {
        FileOrder(files, 0, i);
      }
      var n := OverlappingPrefix(files, begin, end);
      lo := 0;
      assert files[0..n] == files[..n];
    }
  }

  // ----- SetupOtherInputs -----

  /** Files of the level left behind are newer, key by key, than the files taken. */
  ghost predicate AgeClosed(files: seq<File>, inputs: seq<File>) {
    forall g, f | g in files && g !in inputs && f in inputs :: NewerThan(Elems(g.entries), Elems(f.entries))
  }

  ghost predicate ClosedRange(files: seq<File>, inputs: seq<File>, b: Option<Key>, e: Option<Key>) {
    inputs == Overlapping(files, b, e) && forall f | f in inputs :: Within(f, b, e)
  }

  /** What PickCompaction and CompactRange start from: on level 0 a set closed under overlap,
      on any other level some consecutive files. */
  ghost predicate Picked(level: nat, files: seq<File>, inputs: seq<File>) {
    && inputs != []
    && if level == 0 then exists b, e :: ClosedRange(files, inputs, b, e) else exists lo :: SliceFrom(inputs, files, lo)
  }

  /** The files of the next level that meet the user-key range of the inputs. */
  ghost predicate NextLevelInputs(next: seq<File>, in0: seq<File>, in1: seq<File>) {
    exists lo, hi :: IsSmallestKey(in0, lo) && IsLargestKey(in0, hi)
        && in1 == Overlapping(next, Some(lo.key), Some(hi.key))
  }

  /** Files that may leave their level together: nothing older is left behind, and on level 0 nothing that overlaps. */
  ghost predicate UpperInputs(level: nat, files: seq<File>, in0: seq<File>) {
    && in0 != []
    && (forall f | f in in0 :: f in files)
    && AgeClosed(files, in0)
    && if level == 0 then exists b, e :: ClosedRange(files, in0, b, e) else DisjointLevel(in0)
  }

  ghost predicate ValidInputs(v: Version, level: nat, in0: seq<File>, in1: seq<File>)
    requires |v| == NUM_LEVELS && level + 1 < NUM_LEVELS
  {
    UpperInputs(level, v[level], in0) && NextLevelInputs(v[level + 1], in0, in1)
  }

  lemma ClosedRangeHasNoBoundary(files: seq<File>, inputs: seq<File>, b: Option<Key>, e: Option<Key>)
    requires ValidFiles(files) && ClosedRange(files, inputs, b, e)
    ensures NoBoundaryLeft(files, inputs)
  {
    forall m, f | IsLargestKey(inputs, m) && f in files
      ensures !IsBoundary(f, m)
    {
      if IsBoundary(f, m) {
        WithinBounds(f, Smallest(f));
        var g :| g in inputs && Largest(g) == m;
        OverlappingMember(files, b, e, g);
        assert Overlaps(f, b, e);
        OverlappingMember(files, b, e, f);
      }
    }
  }

  lemma ClosedRangeIsAgeClosed(files: seq<File>, inputs: seq<File>, b: Option<Key>, e: Option<Key>)
    requires ValidFiles(files) && ClosedRange(files, inputs, b, e)
    ensures AgeClosed(files, inputs)
  {
    forall g, f, x, y | g in files && g !in inputs && f in inputs && x in Elems(g.entries) && y in Elems(f.entries)
      ensures x.key != y.key
    {
      OverlappingMember(files, b, e, g);
      OverlappingMember(files, b, e, f);
      WithinBounds(g, x);
      WithinBounds(f, y);
    }
  }

  lemma SliceIsAgeClosed(files: seq<File>, inputs: seq<File>, lo: int, hi: int)
    requires ValidFiles(files) && DisjointLevel(files) && UniqueSeqs(Entries(files))
    requires 0 <= lo < hi <= |files| && inputs == files[lo..hi]
    requires forall f | f in files :: !IsBoundary(f, Largest(files[hi - 1]))
    ensures AgeClosed(files, inputs)
  {
    forall i, j | 0 <= i < |files| && !(lo <= i < hi) && lo <= j < hi
      ensures NewerThan(Elems(files[i].entries), Elems(files[j].entries))
    {
      OutsideSliceIsNewer(files, lo, hi, i, j);
    }
    AgeClosedByIndex(files, inputs, lo, hi);
  }

  lemma AgeClosedByIndex(files: seq<File>, inputs: seq<File>, lo: int, hi: int)
    requires 0 <= lo < hi <= |files| && inputs == files[lo..hi]
    requires forall i, j | 0 <= i < |files| && !(lo <= i < hi) && lo <= j < hi ::
               NewerThan(Elems(files[i].entries), Elems(files[j].entries))
    ensures AgeClosed(files, inputs)
  {
    forall g, f | g in files && g !in inputs && f in inputs
      ensures NewerThan(Elems(g.entries), Elems(f.entries))
    {
      var i :| 0 <= i < |files| && files[i] == g;
      var j :| 0 <= j < |inputs| && inputs[j] == f;
      if lo <= i < hi { assert false; }
      assert files[lo + j] == f;
    }
  }

  lemma OutsideSliceIsNewer(files: seq<File>, lo: int, hi: int, i: int, j: int)
    requires ValidFiles(files) && DisjointLevel(files) && UniqueSeqs(Entries(files))
    requires 0 <= lo <= j < hi <= |files| && 0 <= i < |files| && !(lo <= i < hi)
    requires forall f | f in files :: !IsBoundary(f, Largest(files[hi - 1]))
    ensures NewerThan(Elems(files[i].entries), Elems(files[j].entries))
  {
    if i < lo {
      EarlierFileIsNewer(files, i, j);
    } else {
      forall x, y | x in files[i].entries && y in files[j].entries ensures x.key != y.key {
        BeyondSlice(files, hi, i, j, x, y);
      }
    }
  }

  lemma EarlierFileIsNewer(files: seq<File>, i: int, j: int)
    requires ValidFiles(files) && DisjointLevel(files) && UniqueSeqs(Entries(files))
    requires 0 <= i < j < |files|
    ensures NewerThan(Elems(files[i].entries), Elems(files[j].entries))
  {
    forall x, y | x in files[i].entries && y in files[j].entries && x.key == y.key
      ensures x.seqno > y.seqno
    {
      WithinBounds(files[i], x);
      WithinBounds(files[j], y);
      assert x in Entries(files) && y in Entries(files);
      assert Before(Largest(files[i]), Smallest(files[j]));
      assert Before(x, y);
    }
  }

  lemma SliceLargest(files: seq<File>, inputs: seq<File>, lo: int, hi: int)
    requires ValidFiles(files) && DisjointLevel(files)
    requires 0 <= lo < hi <= |files| && inputs == files[lo..hi] && NoBoundaryLeft(files, inputs)
    ensures forall f | f in files :: !IsBoundary(f, Largest(files[hi - 1]))
  {
    assert inputs[hi - 1 - lo] == files[hi - 1];
    forall f | f in inputs ensures !Before(Largest(files[hi - 1]), Largest(f)) {
      var j :| lo <= j < hi && files[j] == f;
      FileOrder(files, j, hi - 1);
    }
    assert IsLargestKey(inputs, Largest(files[hi - 1]));
  }

  lemma BeyondSlice(files: seq<File>, hi: int, i: int, j: int, x: Entry, y: Entry)
    requires ValidFiles(files) && DisjointLevel(files)
    requires 0 <= j < hi <= i < |files|
    requires forall f | f in files :: !IsBoundary(f, Largest(files[hi - 1]))
    requires x in files[i].entries && y in files[j].entries
    ensures x.key != y.key
  {
    WithinBounds(files[i], x);
    WithinBounds(files[j], y);
    FileOrder(files, j, hi - 1);
    assert files[i] in files;
    assert Before(Largest(files[hi - 1]), Smallest(files[i]));
  }

  /** AddBoundaryInputs turns picked files into inputs that are closed under age. */
  method CloseInputs(level: nat, files: seq<File>, picked: seq<File>) returns (r: seq<File>)
    requires ValidFiles(files) && UniqueSeqs(Entries(files)) && (level > 0 ==> DisjointLevel(files))
    requires Picked(level, files, picked)
    ensures UpperInputs(level, files, r)
    ensures WithBoundaries(files, picked, r) && LinkedFrom(|picked|, r)
  {
    r := AddBoundaryInputs(files, picked);
    if level == 0 {
      ClosedPick(files, picked);
    } else {
      ghost var lo :| SliceFrom(picked, files, lo);
      SlicePick(level, files, r, lo);
    }
  }

  lemma ClosedPick(files: seq<File>, picked: seq<File>)
    requires ValidFiles(files) && Picked(0, files, picked)
    ensures NoBoundaryLeft(files, picked) && UpperInputs(0, files, picked)
  {
    var b, e :| ClosedRange(files, picked, b, e);
    ClosedRangeHasNoBoundary(files, picked, b, e);
    ClosedRangeIsAgeClosed(files, picked, b, e);
    forall f | f in picked ensures f in files {
      OverlappingMember(files, b, e, f);
    }
  }

  lemma SlicePick(level: nat, files: seq<File>, r: seq<File>, lo: int)
    requires level > 0 && ValidFiles(files) && UniqueSeqs(Entries(files)) && DisjointLevel(files)
    requires SliceFrom(r, files, lo) && NoBoundaryLeft(files, r)
    ensures UpperInputs(level, files, r)
  {
    var hi :| 0 <= lo < hi <= |files| && r == files[lo..hi];
    SliceLargest(files, r, lo, hi);
    SliceIsAgeClosed(files, r, lo, hi);
  }
}
