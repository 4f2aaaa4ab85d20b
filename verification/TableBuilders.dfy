/** TableBuilder (table/table_builder.cc): the index entry of a block is written when the first key of the next block
    is known, so that it can be a short separator. */
module TableBuilders {
  import opened Options
  import opened Bytes
  import Varints
  import opened Separators
  import opened FilterBlocks
  import opened Tables

  /** The blocks written, and one more for what is still being collected. */
  ghost function WithCurrent(bs: seq<Block>, offset: nat, current: seq<Entry>): seq<Block> {
    if current == [] then bs else bs + [Block(offset, current)]
  }

  ghost predicate AllPlaced(bs: seq<Block>, placed: seq<Placed>) {
    forall i, p | IsEntry(bs, i, p) :: Placed(bs[i].offset, bs[i].entries[p].key.user) in placed
  }

  /** The index keys so far: one for every block that has a successor. */
  ghost predicate IndexedSoFar(bs: seq<Block>, index: seq<InternalKey>, n: nat)
    requires forall i | 0 <= i < |bs| :: bs[i].entries != []
  {
    |index| == n && n < |bs| + 1
    && forall i | 0 <= i < n && i + 1 < |bs| :: Separates(Last(bs[i]), index[i], First(bs[i + 1]))
  }

  ghost function LastOf(bs: seq<Block>): InternalKey
    requires bs != [] && bs[|bs| - 1].entries != []
  {
    Last(bs[|bs| - 1])
  }

  /** Adding an entry touches the last block only. */
  lemma SameBlocks(bs: seq<Block>, offset: nat, current: seq<Entry>, e: Entry)
    ensures var all, all' := WithCurrent(bs, offset, current), WithCurrent(bs, offset, current + [e]);
            && |bs| <= |all| && |all'| == |bs| + 1 && all'[|bs|] == Block(offset, current + [e])
            && (current != [] ==> |all| == |bs| + 1 && all[|bs|] == Block(offset, current))
            && forall i | 0 <= i < |bs| :: all[i] == bs[i] && all'[i] == bs[i]
  {
  }

  lemma AddOrdered(bs: seq<Block>, offset: nat, current: seq<Entry>, e: Entry)
    requires Ordered(WithCurrent(bs, offset, current))
    requires var all := WithCurrent(bs, offset, current); all != [] ==> Before(LastOf(all), e.key)
    ensures Ordered(WithCurrent(bs, offset, current + [e]))
  {
    var all, all' := WithCurrent(bs, offset, current), WithCurrent(bs, offset, current + [e]);
    var n := |bs|;
    SameBlocks(bs, offset, current, e);
    forall i, p | IsEntry(all', i, p) && !(i == n && p == |current|) ensures Before(KeyAt(all', i, p), e.key) {
      assert IsEntry(all, i, p) && KeyAt(all, i, p) == KeyAt(all', i, p);
      UpToEnd(all, i, p);
      BeforeTotal(KeyAt(all, i, p), LastOf(all));
      if Before(KeyAt(all, i, p), LastOf(all)) { BeforeTransitive(KeyAt(all, i, p), LastOf(all), e.key); }
    }
    forall i, p, j, q | IsEntry(all', i, p) && IsEntry(all', j, q) && (i < j || (i == j && p < q))
      ensures Before(KeyAt(all', i, p), KeyAt(all', j, q))
    {
      if !(j == n && q == |current|) {
        assert IsEntry(all, i, p) && IsEntry(all, j, q);
      }
    }
  }

  lemma UpToEnd(bs: seq<Block>, i: nat, p: nat)
    requires Ordered(bs) && IsEntry(bs, i, p)
    ensures !Before(LastOf(bs), KeyAt(bs, i, p))
  {
    InOrder(bs, i, p, |bs| - 1, |bs[|bs| - 1].entries| - 1);
  }

  /** The entries so far are in order, known to the filter, and end with lastKey. */
  ghost predicate Holds(bs: seq<Block>, offset: nat, current: seq<Entry>, placed: seq<Placed>, lastKey: InternalKey) {
    var all := WithCurrent(bs, offset, current);
    Ordered(all) && AllPlaced(all, placed) && (all != [] ==> lastKey == LastOf(all))
  }

  lemma AddHolds(bs: seq<Block>, offset: nat, current: seq<Entry>, placed: seq<Placed>, lastKey: InternalKey, e: Entry)
    requires Holds(bs, offset, current, placed, lastKey)
             && (WithCurrent(bs, offset, current) != [] ==> Before(lastKey, e.key))
    ensures Holds(bs, offset, current + [e], placed + [Placed(offset, e.key.user)], e.key)
  {
    AddOrdered(bs, offset, current, e);
    AddPlaced(bs, offset, current, e, placed);
    SameBlocks(bs, offset, current, e);
  }

  class TableBuilder {
    const filter: FilterBlockBuilder
    var blocks: seq<Block>
    var index: seq<InternalKey>
    var pending: bool             // pending_index_entry
    var current: seq<Entry>       // data_block
    var offset: nat
    var lastKey: InternalKey

    ghost function All(): seq<Block>
      reads this
    {
      WithCurrent(blocks, offset, current)
    }

    ghost predicate Valid()
      reads this, filter
    {
      && filter.Valid() && filter.offset == offset && Holds(blocks, offset, current, filter.placed, lastKey)
      && (pending ==> current == [] && blocks != [])
      && (!pending && blocks != [] ==> current != [])
      && IndexedSoFar(All(), index, if pending then |blocks| - 1 else |blocks|)
    }

    constructor (policy: Policy)
      requires 1 <= policy.k <= 30
      ensures Valid() && All() == [] && fresh(filter) && filter.policy == policy
    {
      var f := new FilterBlockBuilder(policy);
      filter := f;
      blocks, index, pending, current, offset := [], [], false, [], 0;
      lastKey := InternalKey([], 0);
      new;
      assert f.Valid();
    }

    /** Add.  `full` is whether the block has reached its size, `size` what it takes in the file. */
    method Add(key: InternalKey, value: Text, full: bool, size: nat)
      requires Valid() && (All() != [] ==> Before(lastKey, key)) && size > 0
      modifies this, filter
      ensures Valid() && All() != [] && lastKey == key
      ensures current == if full then [] else old(current) + [Entry(key, value)]
      ensures blocks == old(blocks) + if full then [Block(old(offset), old(current) + [Entry(key, value)])] else []
      ensures forall e :: InTable(All(), e) <==> InTable(old(All()), e) || e == Entry(key, value)
    {
      AddEntries(blocks, offset, current, Entry(key, value));
      WriteIndexEntry(Entry(key, value));
      Collect(key, value);
      if full {
        Flush(size);
      }
    }

    /** The index entry that the previous block has been waiting for. */
    method WriteIndexEntry(e: Entry)
      requires Valid() && (All() != [] ==> Before(lastKey, e.key))
      modifies this`index, this`pending
      ensures !pending && IndexedSoFar'(e)
    {
      HoldsOrdered(blocks, offset, current, filter.placed, lastKey, e);
      if pending {
        var s := InternalSeparator(lastKey, e.key);
        AddIndexed(blocks, offset, e, index, s);
        assert current + [e] == [e];
        index := index + [s];
        pending := false;
      } else {
        AddToBlock(blocks, offset, current, e, index);
      }
    }

    /** The index is complete for the blocks before the current one, once e is in it. */
    ghost predicate IndexedSoFar'(e: Entry)
      reads this
    {
      var all := WithCurrent(blocks, offset, current + [e]);
      (forall i | 0 <= i < |all| :: all[i].entries != []) && IndexedSoFar(all, index, |blocks|)
    }

    method Collect(key: InternalKey, value: Text)
      requires filter.Valid() && filter.offset == offset && Holds(blocks, offset, current, filter.placed, lastKey)
      requires !pending && IndexedSoFar'(Entry(key, value)) && (All() != [] ==> Before(lastKey, key))
      modifies this`current, this`lastKey, filter
      ensures Valid() && current == old(current) + [Entry(key, value)] && lastKey == key
    {
      AddHolds(blocks, offset, current, filter.placed, lastKey, Entry(key, value));
      ghost var all := WithCurrent(blocks, offset, current + [Entry(key, value)]);
      assert IndexedSoFar(all, index, |blocks|);
      filter.AddKey(key.user);
      lastKey := key;
      current := current + [Entry(key, value)];
      assert All() == all;
    }

    /** Flush: the block is written; its index entry waits for the next key. */
    method Flush(size: nat)
      requires Valid() && size > 0
      modifies this`blocks, this`current, this`offset, this`pending, filter
      ensures Valid() && current == [] && All() == old(All()) && (blocks != [] ==> pending)
      ensures blocks == old(All())
      ensures filter.placed == old(filter.placed)
    {
      if current != [] {
        blocks := blocks + [Block(offset, current)];
        offset := offset + size;
        current := [];
        pending := true;
        filter.StartBlock(offset);
      }
    }

    /** Finish: the last index key is a short successor. */
    method Finish(size: nat) returns (t: Table)
      requires Valid() && size > 0
      modifies this, filter
      ensures |t.filter| < Varints.TWO32 ==> IsTable(filter.policy, t, filter.filters)
      ensures forall e :: InTable(t.blocks, e) <==> InTable(old(All()), e)
    {
      Flush(size);
      ghost var placed := filter.placed;
      var filterBlock := filter.Finish();
      if pending {
        var s := InternalSuccessor(lastKey);
        LastIndexed(blocks, index, s);
        index := index + [s];
      }
      FilteredBlocks(filter.policy, blocks, placed, filter.filters);
      t := Table(blocks, index, filterBlock);
    }
  }

  lemma HoldsOrdered(bs: seq<Block>, offset: nat, current: seq<Entry>, placed: seq<Placed>, lastKey: InternalKey,
                     e: Entry)
    requires Holds(bs, offset, current, placed, lastKey)
    ensures Ordered(WithCurrent(bs, offset, current))
    ensures forall i | 0 <= i < |WithCurrent(bs, offset, current + [e])| ::
            WithCurrent(bs, offset, current + [e])[i].entries != []
  {
    SameBlocks(bs, offset, current, e);
    var all, all' := WithCurrent(bs, offset, current), WithCurrent(bs, offset, current + [e]);
    forall i | 0 <= i < |all'| ensures all'[i].entries != [] {
      if i < |bs| { assert all[i].entries != []; }
    }
  }

  lemma FilteredBlocks(policy: Policy, bs: seq<Block>, placed: seq<Placed>, filters: seq<Text>)
    requires AllPlaced(bs, placed) && forall p | p in placed :: InFilter(policy, filters, p)
    ensures Filtered(policy, bs, filters)
  {
  }

  lemma LastIndexed(bs: seq<Block>, index: seq<InternalKey>, s: InternalKey)
    requires bs != [] && Ordered(bs) && IndexedSoFar(bs, index, |bs| - 1) && !Before(s, LastOf(bs))
    ensures Indexed(bs, index + [s])
  {
    var all := index + [s];
    forall i | 0 <= i < |bs| ensures !Before(all[i], Last(bs[i])) {
      if i < |bs| - 1 { assert Separates(Last(bs[i]), index[i], First(bs[i + 1])); }
    }
  }

  lemma AddEntries(bs: seq<Block>, offset: nat, current: seq<Entry>, e: Entry)
    ensures forall x :: InTable(WithCurrent(bs, offset, current + [e]), x) <==>
            InTable(WithCurrent(bs, offset, current), x) || x == e
  {
    var all, all' := WithCurrent(bs, offset, current), WithCurrent(bs, offset, current + [e]);
    forall x ensures InTable(all', x) <==> InTable(all, x) || x == e {
      if InTable(all, x) {
        var i, p :| IsEntry(all, i, p) && all[i].entries[p] == x;
        assert IsEntry(all', i, p) && all'[i].entries[p] == x;
      }
      if x == e {
        assert IsEntry(all', |bs|, |current|) && all'[|bs|].entries[|current|] == e;
      }
      if InTable(all', x) {
        var i, p :| IsEntry(all', i, p) && all'[i].entries[p] == x;
        if !(i == |bs| && p == |current|) { assert IsEntry(all, i, p) && all[i].entries[p] == x; }
      }
    }
  }

  lemma AddPlaced(bs: seq<Block>, offset: nat, current: seq<Entry>, e: Entry, placed: seq<Placed>)
    requires AllPlaced(WithCurrent(bs, offset, current), placed)
    ensures AllPlaced(WithCurrent(bs, offset, current + [e]), placed + [Placed(offset, e.key.user)])
  {
    var all, all', placed' := WithCurrent(bs, offset, current), WithCurrent(bs, offset, current + [e]),
        placed + [Placed(offset, e.key.user)];
    forall i, p | IsEntry(all', i, p) ensures Placed(all'[i].offset, all'[i].entries[p].key.user) in placed' {
      if i == |bs| && p == |current| {
        assert placed'[|placed|] == Placed(all'[i].offset, all'[i].entries[p].key.user);
      } else {
        assert IsEntry(all, i, p);
      }
    }
  }

  /** The first entry of a block completes the index entry of the block before. */
  lemma AddIndexed(bs: seq<Block>, offset: nat, e: Entry, index: seq<InternalKey>, s: InternalKey)
    requires bs != [] && Ordered(bs) && IndexedSoFar(bs, index, |bs| - 1) && Separates(LastOf(bs), s, e.key)
    ensures IndexedSoFar(bs + [Block(offset, [e])], index + [s], |bs|)
  {
    var all, index' := bs + [Block(offset, [e])], index + [s];
    forall i | 0 <= i < |bs| ensures Separates(Last(all[i]), index'[i], First(all[i + 1])) {
      if i < |bs| - 1 { assert Separates(Last(bs[i]), index[i], First(bs[i + 1])); }
    }
  }

  lemma AddToBlock(bs: seq<Block>, offset: nat, current: seq<Entry>, e: Entry, index: seq<InternalKey>)
    requires Ordered(WithCurrent(bs, offset, current)) && IndexedSoFar(WithCurrent(bs, offset, current), index, |bs|)
    requires bs != [] ==> current != []
    ensures forall i | 0 <= i < |WithCurrent(bs, offset, current + [e])| ::
            WithCurrent(bs, offset, current + [e])[i].entries != []
    ensures IndexedSoFar(WithCurrent(bs, offset, current + [e]), index, |bs|)
  {
    var all, all' := WithCurrent(bs, offset, current), WithCurrent(bs, offset, current + [e]);
    SameBlocks(bs, offset, current, e);
    forall i | 0 <= i < |all'| ensures all'[i].entries != [] {
      if i < |bs| { assert all[i].entries != []; }
    }
    forall i | 0 <= i < |bs| && i + 1 < |all'| ensures Separates(Last(all'[i]), index[i], First(all'[i + 1])) {
      assert Separates(Last(all[i]), index[i], First(all[i + 1]));
    }
  }

  /** A table built from entries in order, cut into blocks anywhere and of any size, and one lookup in it: the entry
      found has the looked-up user key exactly when there is one at or below the snapshot, and it is the newest of
      them. */
  method BuildAndGet(policy: Policy, es: seq<Entry>, full: nat -> bool, size: nat -> nat, useFilter: bool,
                     k: InternalKey)
    returns (t: Table, r: Option<Entry>)
    requires 1 <= policy.k <= 30 && forall i, j | 0 <= i < j < |es| :: Before(es[i].key, es[j].key)
    ensures |t.filter| < Varints.TWO32 && r.Some? && r.value.key.user == k.user ==>
              r.value in es && Visible(r.value, k)
              && forall x | x in es && Visible(x, k) :: x.key.num <= r.value.key.num
    ensures |t.filter| < Varints.TWO32 && (exists x :: x in es && Visible(x, k)) ==>
            r.Some? && r.value.key.user == k.user
  {
    var builder := new TableBuilder(policy);
    AddAll(builder, es, full, size);
    t := builder.Finish(size(|es|) + 1);
    r := None;
    if |t.filter| < Varints.TWO32 {
      r := InternalGet(policy, t, useFilter, k, builder.filter.filters);
      forall x | x in es && Visible(x, k) ensures InTable(t.blocks, x) { }
    }
  }

  /** All entries into an empty table. */
  method AddAll(builder: TableBuilder, es: seq<Entry>, full: nat -> bool, size: nat -> nat)
    requires builder.Valid() && builder.All() == []
    requires forall i, j | 0 <= i < j < |es| :: Before(es[i].key, es[j].key)
    modifies builder, builder.filter
    ensures builder.Valid() && forall e :: InTable(builder.All(), e) <==> e in es
  {
    NoEntries();
    for n := 0 to |es|
      invariant builder.Valid()
      invariant (builder.All() == [] <==> n == 0) && (n > 0 ==> builder.lastKey == es[n - 1].key)
      invariant forall e :: InTable(builder.All(), e) <==> e in es[..n]
    {
      AddNext(builder, es, n, full(n), size(n) + 1);
    }
    assert es[..|es|] == es;
  }

  /** One entry more. */
  method AddNext(builder: TableBuilder, es: seq<Entry>, n: nat, full: bool, size: nat)
    requires builder.Valid() && n < |es| && size > 0
    requires builder.All() != [] ==> Before(builder.lastKey, es[n].key)
    requires forall e :: InTable(builder.All(), e) <==> e in es[..n]
    modifies builder, builder.filter
    ensures builder.Valid() && builder.All() != [] && builder.lastKey == es[n].key
    ensures forall e :: InTable(builder.All(), e) <==> e in es[..n + 1]
  {
    OneMoreIn(es, n);
    builder.Add(es[n].key, es[n].value, full, size);
  }

  lemma OneMoreIn(es: seq<Entry>, n: nat)
    requires n < |es|
    ensures forall e :: e in es[..n + 1] <==> e in es[..n] || e == Entry(es[n].key, es[n].value)
  {
    assert es[..n + 1] == es[..n] + [es[n]];
  }

  lemma NoEntries()
    ensures forall e :: !InTable([], e)
  {
  }
}
