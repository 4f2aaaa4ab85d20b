/** HandleTable (util/cache.cc): a hash table with one chain for each bucket, against a map. */
module HandleTables {
  import opened Options
  import opened Varints
  import opened Bits

  /** A pointer to an LRUHandle. */
  type Id = nat

  /** A key and its hash, as entries are compared by both. */
  datatype Name = Name(key: seq<int>, hash: nat)

  datatype Item = Item(name: Name, handle: Id)

  type Chain = seq<Item>

  /** The bucket of a name. */
  function Slot(n: Name, length: nat): (b: nat)
    requires length > 0
    ensures b < length
  {
    n.hash % length
  }

  ghost predicate IsPowerOfTwo(length: nat) {
    exists k: nat :: length == Pow2(k)
  }

  /** hash & (length - 1): the remainder, as the length is a power of two. */
  method Bucket(n: Name, length: nat) returns (b: nat)
    requires IsPowerOfTwo(length)
    ensures length > 0 && b == Slot(n, length)
  {
    ghost var k: nat :| length == Pow2(k);
    MaskIsRemainder(n.hash, k);
    b := And(n.hash, length - 1);
  }

  lemma PowersOfTwo(length: nat)
    ensures IsPowerOfTwo(4) && (IsPowerOfTwo(length) ==> IsPowerOfTwo(2 * length))
  {
    assert Pow2(2) == 4;
    if k: nat :| length == Pow2(k) { assert Pow2(k + 1) == 2 * length; }
  }

  ghost predicate DistinctNames(c: Chain) {
    forall i, j | 0 <= i < j < |c| :: c[i].name != c[j].name
  }

  /** Every chain holds the entries that hash into its bucket, each once, and the map has exactly the entries of the
      chains. */
  ghost predicate TableInv(buckets: seq<Chain>, view: map<Name, Id>) {
    && |buckets| > 0
    && (forall b: nat | b < |buckets| :: ChainInv(buckets[b], |buckets|, b, view))
    && (forall n | n in view :: InChain(buckets[Slot(n, |buckets|)], n))
  }

  ghost predicate InChain(c: Chain, n: Name) {
    exists i :: 0 <= i < |c| && c[i].name == n
  }

  ghost predicate ChainInv(c: Chain, length: nat, b: nat, view: map<Name, Id>)
    requires length > 0
  {
    && DistinctNames(c)
    && forall i | 0 <= i < |c| :: Slot(c[i].name, length) == b && c[i].name in view && view[c[i].name] == c[i].handle
  }

  /** The loop of FindPointer: the position of the name in a chain, or the end of the chain. */
  method FindInChain(c: Chain, n: Name) returns (i: nat)
    ensures i <= |c| && (i < |c| ==> c[i].name == n) && forall j | 0 <= j < i :: c[j].name != n
  {
    i := 0;
    while i < |c| && c[i].name != n
      invariant i <= |c| && forall j | 0 <= j < i :: c[j].name != n
    {
      i := i + 1;
    }
  }

  lemma FoundIffInView(buckets: seq<Chain>, view: map<Name, Id>, n: Name, i: nat)
    requires TableInv(buckets, view)
    requires var c := buckets[Slot(n, |buckets|)];
             i <= |c| && (i < |c| ==> c[i].name == n) && forall j | 0 <= j < i :: c[j].name != n
    ensures var c := buckets[Slot(n, |buckets|)];
            if i < |c| then n in view && view[n] == c[i].handle else n !in view
  {
    assert ChainInv(buckets[Slot(n, |buckets|)], |buckets|, Slot(n, |buckets|), view);
  }

  /** A change of one bucket and of the names that belong there. */
  lemma OneBucket(buckets: seq<Chain>, view: map<Name, Id>, b: nat, c': Chain, view': map<Name, Id>)
    requires TableInv(buckets, view) && b < |buckets| && ChainInv(c', |buckets|, b, view')
    requires forall n | Slot(n, |buckets|) != b :: (n in view <==> n in view') && (n in view ==> view[n] == view'[n])
    requires forall n | Slot(n, |buckets|) == b && n in view' :: InChain(c', n)
    ensures TableInv(buckets[b := c'], view')
  {
    var buckets' := buckets[b := c'];
    forall d: nat | d < |buckets'| ensures ChainInv(buckets'[d], |buckets'|, d, view') {
      assert ChainInv(buckets[d], |buckets|, d, view);
    }
  }

  /** The item takes the place of the one with its name, or goes to either end of a chain that has none. */
  ghost predicate PutInChain(c: Chain, c': Chain, x: Item) {
    || (exists i :: 0 <= i < |c| && c[i].name == x.name && c' == c[i := x])
    || ((c' == c + [x] || c' == [x] + c) && !InChain(c, x.name))
  }

  lemma PutNames(c: Chain, c': Chain, x: Item, n: Name)
    requires PutInChain(c, c', x)
    ensures InChain(c', n) <==> InChain(c, n) || n == x.name
  {
    if i :| 0 <= i < |c| && c[i].name == x.name && c' == c[i := x] {
      assert c'[i] == x;
      assert forall j | 0 <= j < |c| :: c'[j].name == c[j].name;
    } else if c' == c + [x] {
      assert c'[|c|] == x;
      assert forall j | 0 <= j < |c| :: c'[j].name == c[j].name;
    } else {
      assert c'[0] == x;
      assert forall j | 0 <= j < |c| :: c'[j + 1].name == c[j].name;
    }
  }

  lemma PutChainInv(c: Chain, c': Chain, x: Item, length: nat, b: nat, view: map<Name, Id>)
    requires length > 0 && ChainInv(c, length, b, view) && Slot(x.name, length) == b && PutInChain(c, c', x)
    ensures ChainInv(c', length, b, view[x.name := x.handle])
  {
    if c' == [x] + c && !InChain(c, x.name) {
      assert forall j | 0 < j < |c'| :: c'[j] == c[j - 1];
    }
  }

  lemma PutKeepsInv(buckets: seq<Chain>, view: map<Name, Id>, n: Name, h: Id, c': Chain)
    requires TableInv(buckets, view) && PutInChain(buckets[Slot(n, |buckets|)], c', Item(n, h))
    ensures TableInv(buckets[Slot(n, |buckets|) := c'], view[n := h])
  {
    var b := Slot(n, |buckets|);
    PutChainInv(buckets[b], c', Item(n, h), |buckets|, b, view);
    forall m | Slot(m, |buckets|) == b && m in view[n := h] ensures InChain(c', m) {
      PutNames(buckets[b], c', Item(n, h), m);
    }
    OneBucket(buckets, view, b, c', view[n := h]);
  }

  lemma DropChain(c: Chain, i: nat, length: nat, b: nat, view: map<Name, Id>)
    requires length > 0 && i < |c| && ChainInv(c, length, b, view)
    ensures ChainInv(c[..i] + c[i + 1..], length, b, view - {c[i].name})
    ensures forall m | InChain(c, m) && m != c[i].name :: InChain(c[..i] + c[i + 1..], m)
  {
    var c' := c[..i] + c[i + 1..];
    assert forall j | 0 <= j < |c'| :: c'[j] == if j < i then c[j] else c[j + 1];
    forall m | InChain(c, m) && m != c[i].name ensures InChain(c', m) {
      var j :| 0 <= j < |c| && c[j].name == m;
      assert c'[if j < i then j else j - 1].name == m;
    }
  }

  lemma DropKeepsInv(buckets: seq<Chain>, view: map<Name, Id>, n: Name, i: nat)
    requires TableInv(buckets, view)
    requires var c := buckets[Slot(n, |buckets|)]; i < |c| && c[i].name == n
    ensures var b := Slot(n, |buckets|);
            TableInv(buckets[b := buckets[b][..i] + buckets[b][i + 1..]], view - {n})
  {
    var b := Slot(n, |buckets|);
    DropChain(buckets[b], i, |buckets|, b, view);
    OneBucket(buckets, view, b, buckets[b][..i] + buckets[b][i + 1..], view - {n});
  }

  class HandleTable {
    var elems: nat
    var buckets: seq<Chain>     // list_, of length_ chains
    ghost var view: map<Name, Id>

    ghost predicate Valid()
      reads this
    {
      Counted() && IsPowerOfTwo(|buckets|) && elems <= |buckets|
    }

    /** What holds also between an insertion and the Resize it calls for. */
    ghost predicate Counted()
      reads this
    {
      TableInv(buckets, view) && elems == |view|
    }

    constructor ()
      ensures Valid() && view == map[]
    {
      elems, buckets, view := 0, [[], [], [], []], map[];
      PowersOfTwo(4);
    }

    method Lookup(n: Name) returns (r: Option<Id>)
      requires Valid()
      ensures r == if n in view then Some(view[n]) else None
    {
      var b := Bucket(n, |buckets|);
      var c := buckets[b];
      var i := FindInChain(c, n);
      FoundIffInView(buckets, view, n, i);
      r := if i < |c| then Some(c[i].handle) else None;
    }

    /** Returns the handle that had the name. */
    method Insert(n: Name, h: Id) returns (was: Option<Id>)
      requires Valid()
      modifies this
      ensures Valid() && view == old(view)[n := h]
      ensures was == if n in old(view) then Some(old(view)[n]) else None
    {
      var b := Bucket(n, |buckets|);
      var c := buckets[b];
      var i := FindInChain(c, n);
      FoundIffInView(buckets, view, n, i);
      assert ChainInv(c, |buckets|, b, view);
      if i < |c| {
        was := Some(c[i].handle);
        PutKeepsInv(buckets, view, n, h, c[i := Item(n, h)]);
        buckets := buckets[b := c[i := Item(n, h)]];
        view := view[n := h];
      } else {
        was := None;
        PutKeepsInv(buckets, view, n, h, c + [Item(n, h)]);
        buckets := buckets[b := c + [Item(n, h)]];
        view := view[n := h];
        elems := elems + 1;
        if elems > |buckets| {
          Resize();
        }
      }
    }

    method Remove(n: Name) returns (r: Option<Id>)
      requires Valid()
      modifies this
      ensures Valid() && view == old(view) - {n}
      ensures r == if n in old(view) then Some(old(view)[n]) else None
    {
      var b := Bucket(n, |buckets|);
      var c := buckets[b];
      var i := FindInChain(c, n);
      FoundIffInView(buckets, view, n, i);
      if i < |c| {
        r := Some(c[i].handle);
        DropKeepsInv(buckets, view, n, i);
        buckets := buckets[b := c[..i] + c[i + 1..]];
        view := view - {n};
        elems := elems - 1;
      } else {
        r := None;
        assert view - {n} == view;
      }
    }

    /** Moves every entry into a longer list of buckets, at least as many as entries; the map stays the same. */
    method Resize()
      requires Counted()
      modifies this`buckets
      ensures Valid()
    {
      var length := NewLength(elems);
      buckets := Rehash(length, buckets, view);
    }
  }

  /** The first power of two from 4 on that is not less than the number of entries. */
  method NewLength(elems: nat) returns (length: nat)
    ensures IsPowerOfTwo(length) && elems <= length && 4 <= length && (length > 4 ==> length < 2 * elems)
  {
    length := 4;
    PowersOfTwo(4);
    while length < elems
      invariant IsPowerOfTwo(length) && 4 <= length && (length > 4 ==> length < 2 * elems)
      decreases elems - length
    {
      PowersOfTwo(length);
      length := 2 * length;
    }
  }

  /** The entries of the first i chains and of the first j places of chain i. */
  ghost predicate Moved(buckets: seq<Chain>, i: nat, j: nat, n: Name) {
    exists b: nat, k: nat :: b < |buckets| && k < |buckets[b]| && buckets[b][k].name == n
        && (b < i || (b == i && k < j))
  }

  method Rehash(length: nat, buckets: seq<Chain>, ghost view: map<Name, Id>) returns (moved: seq<Chain>)
    requires TableInv(buckets, view) && IsPowerOfTwo(length) && length > 0
    ensures TableInv(moved, view) && |moved| == length
  {
    moved := seq(length, _ => []);
    ghost var seen: map<Name, Id> := map[];
    for i := 0 to |buckets|
      invariant |moved| == length && TableInv(moved, seen)
      invariant forall n :: n in seen <==> Moved(buckets, i, 0, n)
      invariant forall n | n in seen :: n in view && seen[n] == view[n]
    {
      var c := buckets[i];
      assert ChainInv(c, |buckets|, i, view);
      for j := 0 to |c|
        invariant |moved| == length && TableInv(moved, seen)
        invariant forall n :: n in seen <==> Moved(buckets, i, j, n)
        invariant forall n | n in seen :: n in view && seen[n] == view[n]
      {
        var x := c[j];
        var b := Bucket(x.name, length);
        NotYetMoved(buckets, view, i, j);
        NotInChain(moved, seen, x.name);
        PutKeepsInv(moved, seen, x.name, x.handle, [x] + moved[b]);
        moved := moved[b := [x] + moved[b]];
        seen := seen[x.name := x.handle];
      }
    }
    assert seen == view;
  }

  lemma NotYetMoved(buckets: seq<Chain>, view: map<Name, Id>, i: nat, j: nat)
    requires TableInv(buckets, view) && i < |buckets| && j < |buckets[i]|
    ensures !Moved(buckets, i, j, buckets[i][j].name)
  {
    assert forall b: nat | b < |buckets| :: ChainInv(buckets[b], |buckets|, b, view);
  }

  lemma NotInChain(buckets: seq<Chain>, view: map<Name, Id>, n: Name)
    requires TableInv(buckets, view) && n !in view
    ensures forall i | 0 <= i < |buckets[Slot(n, |buckets|)]| :: buckets[Slot(n, |buckets|)][i].name != n
  {
    assert ChainInv(buckets[Slot(n, |buckets|)], |buckets|, Slot(n, |buckets|), view);
  }
}
