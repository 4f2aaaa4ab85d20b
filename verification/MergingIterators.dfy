/** The merging iterator (table/merger.cc) behaves as one iterator over the sorted union of its children.

    A child iterator is a position in its sorted list of entries; the length of the list stands for
    "not valid", which is where a child also goes when it steps back from its first entry.
 */
module MergingIterators {
  import opened InternalKeys
  import opened Versions

  datatype Direction = Forward | Reverse

  /** Comparator::Compare(a, b) == 0. */
  predicate SameKey(a: Entry, b: Entry) {
    a.key == b.key && Tag(a) == Tag(b)
  }

  /** Iterator::Prev on a list of `n` entries. */
  function StepBack(pos: nat, n: nat): nat
    requires pos < n
  {
    if pos == 0 then n else pos - 1
  }

  /** Iterator::SeekToLast on a list of `n` entries. */
  function LastPosition(n: nat): nat {
    if n == 0 then 0 else n - 1
  }

  ghost predicate SortedLists(lists: seq<seq<Entry>>) {
    forall i | 0 <= i < |lists| :: Sorted(lists[i])
  }

  /** Entries of different children never compare equal. */
  ghost predicate PairwiseDistinct(lists: seq<seq<Entry>>) {
    forall i, j, a, b | 0 <= i < |lists| && 0 <= j < |lists| && i != j && a in lists[i] && b in lists[j] ::
      Before(a, b) || Before(b, a)
  }

  ghost function UnionOf(lists: seq<seq<Entry>>): set<Entry> {
    set i, e | 0 <= i < |lists| && e in lists[i] :: e
  }

  ghost predicate Comparable(U: set<Entry>) {
    forall a, b | a in U && b in U && a != b :: Before(a, b) || Before(b, a)
  }

  // ----- the sorted union exists and is unique -----

  lemma FirstExists(U: set<Entry>) returns (m: Entry)
    requires U != {} && Comparable(U)
    ensures m in U && forall a | a in U && a != m :: Before(m, a)
  {
    var x :| x in U;
    if U == {x} {
      m := x;
    } else {
      var rest := U - {x};
      assert U == rest + {x};
      m := FirstExists(rest);
      if Before(x, m) {
        m := x;
      }
      assert forall a | a in U && a != x :: a in rest;
    }
  }

  lemma SortedUnionExists(U: set<Entry>) returns (merged: seq<Entry>)
    requires Comparable(U)
    ensures Sorted(merged) && Elems(merged) == U
  {
    if U == {} {
      merged := [];
    } else {
      var m := FirstExists(U);
      var rest := SortedUnionExists(U - {m});
      forall j | 0 <= j < |rest| ensures Before(m, rest[j]) {
        assert rest[j] in Elems(rest);
      }
      merged := [m] + rest;
      assert Elems(merged) == {m} + Elems(rest);
    }
  }

  lemma {:induction false} SortedUnionUnique(a: seq<Entry>, b: seq<Entry>)
    requires Sorted(a) && Sorted(b) && Elems(a) == Elems(b)
    ensures a == b
  {
    assert b != [] ==> b[0] in Elems(b);
    if a != [] {
      assert a[0] in Elems(a);
      var j :| 0 <= j < |b| && b[j] == a[0];
      assert b[0] in Elems(a);
      var i :| 0 <= i < |a| && a[i] == b[0];
      assert i == 0 && j == 0;
      forall e ensures e in Elems(a[1..]) <==> e in Elems(b[1..]) {
        assert e in Elems(a) <==> e == a[0] || e in a[1..];
        assert e in Elems(b) <==> e == b[0] || e in b[1..];
      }
      SortedUnionUnique(a[1..], b[1..]);
    }
  }

  lemma ListsComparable(lists: seq<seq<Entry>>)
    requires SortedLists(lists) && PairwiseDistinct(lists)
    ensures Comparable(UnionOf(lists))
  {
    forall a, b | a in UnionOf(lists) && b in UnionOf(lists) && a != b
      ensures Before(a, b) || Before(b, a)
    {
      var i :| 0 <= i < |lists| && a in lists[i];
      var j :| 0 <= j < |lists| && b in lists[j];
      if i == j {
        assert Sorted(lists[i]);
        var p :| 0 <= p < |lists[i]| && lists[i][p] == a;
        var q :| 0 <= q < |lists[i]| && lists[i][q] == b;
      }
    }
  }

  // ----- where the children stand when the merged position is n -----

  ghost predicate IsMerge(lists: seq<seq<Entry>>, merged: seq<Entry>) {
    SortedLists(lists) && PairwiseDistinct(lists) && Sorted(merged) && Elems(merged) == UnionOf(lists)
  }

  ghost predicate Positions(lists: seq<seq<Entry>>, pos: seq<nat>) {
    |pos| == |lists| && forall i | 0 <= i < |lists| :: pos[i] <= |lists[i]|
  }

  /** Moving forward at `n`: a child has passed exactly its entries before merged[n]. */
  ghost predicate ForwardAt(l: seq<Entry>, p: nat, merged: seq<Entry>, n: nat)
    requires n <= |merged|
  {
    if n == |merged| then p == |l|
    else p <= |l| && forall j | 0 <= j < |l| :: j < p <==> Before(l[j], merged[n])
  }

  /** How many entries a child has at or before its position, when it moves backwards. */
  function Behind(p: nat, n: nat): nat {
    if p < n then p + 1 else 0
  }

  /** Moving backwards with `n` merged entries not yet passed: a child stands on its last one among them. */
  ghost predicate ReverseAt(l: seq<Entry>, p: nat, merged: seq<Entry>, n: nat)
    requires n <= |merged|
  {
    && p <= |l|
    && if n == 0 then p == |l|
       else forall j | 0 <= j < |l| :: j < Behind(p, |l|) <==> !Before(merged[n - 1], l[j])
  }

  lemma SortedPair(es: seq<Entry>, i: nat, j: nat)
    requires Sorted(es) && i < |es| && j < |es|
    ensures i < j ==> Before(es[i], es[j])
    ensures j < i ==> Before(es[j], es[i])
  {
  }

  lemma DistinctOwners(lists: seq<seq<Entry>>, i: nat, j: nat, i': nat, j': nat)
    requires PairwiseDistinct(lists) && i < |lists| && i' < |lists| && i != i' && j < |lists[i]| && j' < |lists[i']|
    ensures lists[i][j] != lists[i'][j']
  {
    var a, b := lists[i][j], lists[i'][j'];
    assert a in lists[i] && b in lists[i'];
    assert Before(a, b) || Before(b, a);
  }

  lemma InMerged(lists: seq<seq<Entry>>, merged: seq<Entry>, i: int, j: int) returns (q: nat)
    requires IsMerge(lists, merged) && 0 <= i < |lists| && 0 <= j < |lists[i]|
    ensures q < |merged| && merged[q] == lists[i][j]
  {
    var e := lists[i][j];
    assert e in lists[i];
    assert e in UnionOf(lists);
    assert e in Elems(merged);
    q :| 0 <= q < |merged| && merged[q] == lists[i][j];
  }

  lemma OwnerOf(lists: seq<seq<Entry>>, merged: seq<Entry>, n: nat) returns (i: nat, j: nat)
    requires IsMerge(lists, merged) && n < |merged|
    ensures i < |lists| && j < |lists[i]| && lists[i][j] == merged[n]
  {
    assert merged[n] in UnionOf(lists);
    i :| 0 <= i < |lists| && merged[n] in lists[i];
    j :| 0 <= j < |lists[i]| && lists[i][j] == merged[n];
  }

  /** The child that owns merged[n] stands on it. */
  lemma ForwardOwner(lists: seq<seq<Entry>>, merged: seq<Entry>, n: nat, i: nat, j: nat, p: nat)
    requires IsMerge(lists, merged) && n < |merged|
    requires i < |lists| && j < |lists[i]| && lists[i][j] == merged[n]
    requires ForwardAt(lists[i], p, merged, n)
    ensures p == j
  {
    assert Sorted(lists[i]);
    assert p <= j;
    SortedPair(lists[i], p, j);
  }

  lemma ReverseOwner(lists: seq<seq<Entry>>, merged: seq<Entry>, n: nat, i: nat, j: nat, p: nat)
    requires IsMerge(lists, merged) && 0 < n <= |merged|
    requires i < |lists| && j < |lists[i]| && lists[i][j] == merged[n - 1]
    requires ReverseAt(lists[i], p, merged, n)
    ensures p == j
  {
    assert Sorted(lists[i]);
    assert j < Behind(p, |lists[i]|);
    assert p < |lists[i]|;
    SortedPair(lists[i], j, p);
  }

  /** Any valid child entry is merged[n] or comes after it. */
  lemma ForwardBound(lists: seq<seq<Entry>>, merged: seq<Entry>, n: nat, i: nat, p: nat)
    requires IsMerge(lists, merged) && n <= |merged| && i < |lists|
    requires ForwardAt(lists[i], p, merged, n) && p < |lists[i]|
    ensures n < |merged| && (lists[i][p] == merged[n] || Before(merged[n], lists[i][p]))
  {
    assert !Before(lists[i][p], merged[n]);
    var q := InMerged(lists, merged, i, p);
    if q < n { assert false; }
  }

  lemma ReverseBound(lists: seq<seq<Entry>>, merged: seq<Entry>, n: nat, i: nat, p: nat)
    requires IsMerge(lists, merged) && n <= |merged| && i < |lists|
    requires ReverseAt(lists[i], p, merged, n) && p < |lists[i]|
    ensures n > 0 && (lists[i][p] == merged[n - 1] || Before(lists[i][p], merged[n - 1]))
  {
    assert p < Behind(p, |lists[i]|);
    var q := InMerged(lists, merged, i, p);
    if n - 1 < q { assert false; }
  }

  /** One child's entry relative to merged[n] and merged[n + 1]. */
  lemma StepForward(lists: seq<seq<Entry>>, merged: seq<Entry>, n: nat, i: nat, p: nat, owner: nat, oj: nat)
    requires IsMerge(lists, merged) && n < |merged| && i < |lists|
    requires ForwardAt(lists[i], p, merged, n)
    requires owner < |lists| && oj < |lists[owner]| && lists[owner][oj] == merged[n]
    ensures i == owner ==> ForwardAt(lists[i], oj + 1, merged, n + 1)
    ensures i != owner ==> ForwardAt(lists[i], p, merged, n + 1)
  {
    var l := lists[i];
    assert Sorted(l);
    if i == owner { ForwardOwner(lists, merged, n, i, oj, p); }
    var p' := if i == owner then oj + 1 else p;
    forall j | 0 <= j < |l|
      ensures exists q :: 0 <= q < |merged| && merged[q] == l[j] && (j < p' <==> q <= n)
    {
      var q := InMerged(lists, merged, i, j);
      SortedPair(merged, n, q);
      if i != owner {
        DistinctOwners(lists, i, j, owner, oj);
      } else {
        SortedPair(l, j, oj);
      }
    }
    forall j | 0 <= j < |l| && n + 1 < |merged|
      ensures j < p' <==> Before(l[j], merged[n + 1])
    {
      var q :| 0 <= q < |merged| && merged[q] == l[j] && (j < p' <==> q <= n);
      SortedPair(merged, q, n + 1);
    }
    if n + 1 == |merged| && |l| > 0 {
      var q :| 0 <= q < |merged| && merged[q] == l[|l| - 1] && (|l| - 1 < p' <==> q <= n);
    }
  }

  lemma StepBackward(lists: seq<seq<Entry>>, merged: seq<Entry>, n: nat, i: nat, p: nat, owner: nat, oj: nat)
    requires IsMerge(lists, merged) && n < |merged| && i < |lists|
    requires ReverseAt(lists[i], p, merged, n + 1)
    requires owner < |lists| && oj < |lists[owner]| && lists[owner][oj] == merged[n]
    ensures i == owner ==> ReverseAt(lists[i], StepBack(oj, |lists[i]|), merged, n)
    ensures i != owner ==> ReverseAt(lists[i], p, merged, n)
  {
    var l := lists[i];
    if i == owner { ReverseOwner(lists, merged, n + 1, i, oj, p); }
    var p' := if i == owner then StepBack(oj, |l|) else p;
    forall j | 0 <= j < |l|
      ensures exists q :: 0 <= q < |merged| && merged[q] == l[j] && (j < Behind(p', |l|) <==> q < n)
    {
      var q := InMerged(lists, merged, i, j);
      SortedPair(merged, n, q);
      if i != owner {
        DistinctOwners(lists, i, j, owner, oj);
      } else {
        SortedPair(l, j, oj);
      }
    }
    forall j | 0 <= j < |l| && 0 < n
      ensures j < Behind(p', |l|) <==> !Before(merged[n - 1], l[j])
    {
      var q :| 0 <= q < |merged| && merged[q] == l[j] && (j < Behind(p', |l|) <==> q < n);
      SortedPair(merged, q, n - 1);
    }
    if n == 0 && |l| > 0 {
      var q :| 0 <= q < |merged| && merged[q] == l[0] && (0 < Behind(p', |l|) <==> q < n);
    }
  }

  // ----- absolute positioning and changing direction -----

  lemma SeekPositions(lists: seq<seq<Entry>>, merged: seq<Entry>, target: Entry, i: nat)
    requires IsMerge(lists, merged) && i < |lists|
    ensures ForwardAt(lists[i], LowerBound(lists[i], target), merged, LowerBound(merged, target))
  {
    var l, p, n := lists[i], LowerBound(lists[i], target), LowerBound(merged, target);
    assert Sorted(l);
    forall j | 0 <= j < |l|
      ensures j < p ==> Before(l[j], target)
      ensures j >= p ==> !Before(l[j], target)
      ensures n < |merged| ==> (j < p <==> Before(l[j], merged[n]))
      ensures n == |merged| ==> j < p
    {
      var q := InMerged(lists, merged, i, j);
      if n < |merged| { SortedPair(merged, q, n); }
      if p < |l| { SortedPair(l, p, j); }
    }
  }

  lemma FirstPositions(lists: seq<seq<Entry>>, merged: seq<Entry>, i: nat)
    requires IsMerge(lists, merged) && i < |lists|
    ensures ForwardAt(lists[i], 0, merged, 0)
    ensures ReverseAt(lists[i], LastPosition(|lists[i]|), merged, |merged|)
  {
    var l := lists[i];
    forall j | 0 <= j < |l|
      ensures |merged| > 0 && !Before(l[j], merged[0]) && !Before(merged[|merged| - 1], l[j])
    {
      var q := InMerged(lists, merged, i, j);
      SortedPair(merged, 0, q);
      SortedPair(merged, q, |merged| - 1);
    }
    if |l| > 0 { assert !Before(l[0], merged[0]); }
  }

  /** Where Next puts a non-current child when it changes direction. */
  lemma TurnForward(lists: seq<seq<Entry>>, merged: seq<Entry>, n: nat, i: nat, p: nat, owner: nat, oj: nat)
    requires IsMerge(lists, merged) && n < |merged| && i < |lists|
    requires ReverseAt(lists[i], p, merged, n + 1)
    requires owner < |lists| && oj < |lists[owner]| && lists[owner][oj] == merged[n]
    ensures i == owner ==> p == oj && ForwardAt(lists[i], oj, merged, n)
    ensures i != owner ==> ForwardAt(lists[i], LowerBound(lists[i], merged[n]), merged, n)
    ensures i != owner && LowerBound(lists[i], merged[n]) < |lists[i]| ==>
              Before(merged[n], lists[i][LowerBound(lists[i], merged[n])])
  {
    var l := lists[i];
    var b := LowerBound(l, merged[n]);
    if i == owner { ReverseOwner(lists, merged, n + 1, i, oj, p); }
    forall j | 0 <= j < |l|
      ensures i == owner ==> (j < oj <==> Before(l[j], merged[n]))
      ensures i != owner ==> (j < b <==> Before(l[j], merged[n]))
    {
      if i == owner { SortedPair(l, j, oj); } else if b < |l| { SortedPair(l, b, j); }
    }
    if i != owner && b < |l| {
      var q := InMerged(lists, merged, i, b);
      SortedPair(merged, n, q);
      DistinctOwners(lists, i, b, owner, oj);
    }
  }

  /** Where Prev puts a non-current child when it changes direction. */
  function BeforeTarget(l: seq<Entry>, target: Entry): nat {
    var p := LowerBound(l, target);
    if p < |l| then StepBack(p, |l|) else LastPosition(|l|)
  }

  lemma TurnBackward(lists: seq<seq<Entry>>, merged: seq<Entry>, n: nat, i: nat, p: nat, owner: nat, oj: nat)
    requires IsMerge(lists, merged) && n < |merged| && i < |lists|
    requires ForwardAt(lists[i], p, merged, n)
    requires owner < |lists| && oj < |lists[owner]| && lists[owner][oj] == merged[n]
    ensures i == owner ==> p == oj && ReverseAt(lists[i], oj, merged, n + 1)
    ensures i != owner ==> ReverseAt(lists[i], BeforeTarget(lists[i], merged[n]), merged, n + 1)
  {
    var l := lists[i];
    var b := LowerBound(l, merged[n]);
    if i == owner { ForwardOwner(lists, merged, n, i, oj, p); }
    forall j | 0 <= j < |l|
      ensures i == owner ==> (j <= oj <==> !Before(merged[n], l[j]))
      ensures i != owner ==> (j < b <==> !Before(merged[n], l[j]))
    {
      if i == owner {
        SortedPair(l, j, oj);
      } else {
        var q := InMerged(lists, merged, i, j);
        SortedPair(merged, n, q);
        DistinctOwners(lists, i, j, owner, oj);
        if b < |l| { SortedPair(l, b, j); }
      }
    }
  }

  class MergingIterator {
    const lists: seq<seq<Entry>>
    var pos: seq<nat>
    var current: int         // index of the current child, -1 for none
    var direction: Direction
    ghost const merged: seq<Entry>   // the sorted union
    ghost var at: nat                // position in the sorted union, |merged| when not valid

    ghost predicate Inv()
      reads this
    {
      && IsMerge(lists, merged)
      && Positions(lists, pos)
      && at <= |merged|
      && -1 <= current < |lists|
      && (current == -1 <==> at == |merged|)
      && (current != -1 ==>
            && pos[current] < |lists[current]|
            && lists[current][pos[current]] == merged[at]
            && forall i | 0 <= i < |lists| ::
                 if direction.Forward? then ForwardAt(lists[i], pos[i], merged, at)
                 else ReverseAt(lists[i], pos[i], merged, at + 1))
    }

    /** NewMergingIterator over children that have not been positioned yet. */
    constructor (lists: seq<seq<Entry>>)
      requires SortedLists(lists) && PairwiseDistinct(lists)
      ensures Inv() && this.lists == lists && at == |merged|
    {
      this.lists := lists;
      pos := seq(|lists|, i requires 0 <= i < |lists| => |lists[i]|);
      current := -1;
      direction := Forward;
      ListsComparable(lists);
      ghost var m := SortedUnionExists(UnionOf(lists));
      merged := m;
      at := |m|;
    }

    predicate Valid()
      reads this
    {
      current != -1
    }

    method Entry() returns (e: Entry)
      requires Inv() && Valid()
      ensures e == merged[at]
    {
      e := lists[current][pos[current]];
    }

    method SeekToFirst()
      requires Inv()
      modifies this
      ensures Inv() && at == 0
    {
      pos := seq(|lists|, i => 0);
      forall i | 0 <= i < |lists| ensures ForwardAt(lists[i], pos[i], merged, 0) {
        FirstPositions(lists, merged, i);
      }
      FindSmallest(0);
      direction := Forward;
    }

    method SeekToLast()
      requires Inv()
      modifies this
      ensures Inv() && at == LastPosition(|merged|)
    {
      pos := seq(|lists|, i requires 0 <= i < |lists| => LastPosition(|lists[i]|));
      forall i | 0 <= i < |lists| ensures ReverseAt(lists[i], pos[i], merged, |merged|) {
        FirstPositions(lists, merged, i);
      }
      FindLargest(|merged|);
      direction := Reverse;
    }

    method Seek(target: Entry)
      requires Inv()
      modifies this
      ensures Inv() && at == LowerBound(merged, target)
    {
      pos := seq(|lists|, i requires 0 <= i < |lists| => LowerBound(lists[i], target));
      forall i | 0 <= i < |lists| ensures ForwardAt(lists[i], pos[i], merged, LowerBound(merged, target)) {
        SeekPositions(lists, merged, target, i);
      }
      FindSmallest(LowerBound(merged, target));
      direction := Forward;
    }

    method Next()
      requires Inv() && Valid()
      modifies this
      ensures Inv() && at == old(at) + 1
    {
      ghost var oj := pos[current];
      if direction != Forward {
        TurnChildrenForward();
      }
      forall i | 0 <= i < |lists|
        ensures i == current ==> ForwardAt(lists[i], oj + 1, merged, at + 1)
        ensures i != current ==> ForwardAt(lists[i], pos[i], merged, at + 1)
      {
        StepForward(lists, merged, at, i, pos[i], current, oj);
      }
      pos := pos[current := pos[current] + 1];
      FindSmallest(at + 1);
    }

    method Prev()
      requires Inv() && Valid()
      modifies this
      ensures Inv() && at == StepBack(old(at), |merged|)
    {
      ghost var oj := pos[current];
      if direction != Reverse {
        TurnChildrenBackward();
      }
      forall i | 0 <= i < |lists|
        ensures i == current ==> ReverseAt(lists[i], StepBack(oj, |lists[i]|), merged, at)
        ensures i != current ==> ReverseAt(lists[i], pos[i], merged, at)
      {
        StepBackward(lists, merged, at, i, pos[i], current, oj);
      }
      pos := pos[current := StepBack(pos[current], |lists[current]|)];
      FindLargest(at);
    }

    /** Next after Prev: seek every other child to the current key. */
    method TurnChildrenForward()
      requires Inv() && Valid() && direction.Reverse?
      modifies this`pos, this`direction
      ensures Inv() && direction.Forward? && pos[current] == old(pos[current])
    {
      var key := lists[current][pos[current]];
      ghost var oj, pos0 := pos[current], pos;
      for i := 0 to |lists|
        invariant |pos| == |lists| && pos[current] == oj
        invariant forall j | i <= j < |lists| :: pos[j] == pos0[j]
        invariant forall j | 0 <= j < i :: ForwardAt(lists[j], pos[j], merged, at)
      {
        TurnForward(lists, merged, at, i, pos0[i], current, oj);
        if i != current {
          var p := LowerBound(lists[i], key);
          if p < |lists[i]| && SameKey(key, lists[i][p]) {
            p := p + 1;
          }
          pos := pos[i := p];
        }
      }
      direction := Forward;
      assert forall i | 0 <= i < |lists| :: ForwardAt(lists[i], pos[i], merged, at);
    }

    /** Prev after Next: put every other child just before the current key. */
    method TurnChildrenBackward()
      requires Inv() && Valid() && direction.Forward?
      modifies this`pos, this`direction
      ensures Inv() && direction.Reverse? && pos[current] == old(pos[current])
    {
      var key := lists[current][pos[current]];
      ghost var oj, pos0 := pos[current], pos;
      for i := 0 to |lists|
        invariant |pos| == |lists| && pos[current] == oj
        invariant forall j | i <= j < |lists| :: pos[j] == pos0[j]
        invariant forall j | 0 <= j < i :: ReverseAt(lists[j], pos[j], merged, at + 1)
      {
        TurnBackward(lists, merged, at, i, pos0[i], current, oj);
        if i != current {
          var p := LowerBound(lists[i], key);
          if p < |lists[i]| {
            p := StepBack(p, |lists[i]|);
          } else {
            p := LastPosition(|lists[i]|);
          }
          pos := pos[i := p];
        }
      }
      direction := Reverse;
      assert forall i | 0 <= i < |lists| :: ReverseAt(lists[i], pos[i], merged, at + 1);
    }

    /** FindSmallest: the first valid child with the smallest key becomes current. */
    method FindSmallest(ghost n: nat)
      requires IsMerge(lists, merged) && |pos| == |lists| && n <= |merged|
      requires forall i | 0 <= i < |lists| :: ForwardAt(lists[i], pos[i], merged, n)
      modifies this`current, this`at
      ensures at == n && -1 <= current < |lists| && (current == -1 <==> n == |merged|)
      ensures current != -1 ==> pos[current] < |lists[current]| && lists[current][pos[current]] == merged[n]
    {
      var smallest := -1;
      for i := 0 to |lists|
        invariant -1 <= smallest < i
        invariant smallest == -1 ==> forall j | 0 <= j < i :: pos[j] == |lists[j]|
        invariant smallest != -1 ==> pos[smallest] < |lists[smallest]|
        invariant smallest != -1 ==> forall j | 0 <= j < i && pos[j] < |lists[j]| ::
                    !Before(lists[j][pos[j]], lists[smallest][pos[smallest]])
      {
        if pos[i] < |lists[i]| {
          if smallest == -1 || Before(lists[i][pos[i]], lists[smallest][pos[smallest]]) {
            smallest := i;
          }
        }
      }
      if n < |merged| {
        ghost var oi, oj := OwnerOf(lists, merged, n);
        ForwardOwner(lists, merged, n, oi, oj, pos[oi]);
        ForwardBound(lists, merged, n, smallest, pos[smallest]);
      }
      current := smallest;
      at := n;
    }

    /** FindLargest scans from the last child. */
    method FindLargest(ghost n: nat)
      requires IsMerge(lists, merged) && |pos| == |lists| && n <= |merged|
      requires forall i | 0 <= i < |lists| :: ReverseAt(lists[i], pos[i], merged, n)
      modifies this`current, this`at
      ensures at == (if n == 0 then |merged| else n - 1) && -1 <= current < |lists| && (current == -1 <==> n == 0)
      ensures current != -1 ==> pos[current] < |lists[current]| && lists[current][pos[current]] == merged[at]
    {
      var largest := -1;
      for i := |lists| downto 0
        invariant largest == -1 || i <= largest < |lists|
        invariant largest == -1 ==> forall j | i <= j < |lists| :: pos[j] == |lists[j]|
        invariant largest != -1 ==> pos[largest] < |lists[largest]|
        invariant largest != -1 ==> forall j | i <= j < |lists| && pos[j] < |lists[j]| ::
                    !Before(lists[largest][pos[largest]], lists[j][pos[j]])
      {
        assert ReverseAt(lists[i], pos[i], merged, n);
        if pos[i] < |lists[i]| {
          if largest == -1 || Before(lists[largest][pos[largest]], lists[i][pos[i]]) {
            largest := i;
          }
        }
      }
      if n > 0 {
        ghost var oi, oj := OwnerOf(lists, merged, n - 1);
        ReverseOwner(lists, merged, n, oi, oj, pos[oi]);
        ReverseBound(lists, merged, n, largest, pos[largest]);
      }
      current := largest;
      at := if n == 0 then |merged| else n - 1;
    }
  }
}
