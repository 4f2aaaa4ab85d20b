/** Tables (table/table_builder.cc, table/table.cc): data blocks with an index of short separators and a filter, and
    the lookup of one internal key.  Data and index blocks are sequences here, as BlockIters shows that their
    iterators are cursors over them; sizes are whatever the writer says. */
module Tables {
  import opened Options
  import opened Bytes
  import opened Varints
  import opened Separators
  import opened FilterBlocks
  import Blooms

  datatype Entry = Entry(key: InternalKey, value: Text)

  datatype Block = Block(offset: nat, entries: seq<Entry>)

  datatype Table = Table(blocks: seq<Block>, index: seq<InternalKey>, filter: Text)

  ghost predicate IsEntry(bs: seq<Block>, i: int, p: int) {
    0 <= i < |bs| && 0 <= p < |bs[i].entries|
  }

  function KeyAt(bs: seq<Block>, i: nat, p: nat): InternalKey
    requires IsEntry(bs, i, p)
  {
    bs[i].entries[p].key
  }

  /** Entries are in order, across blocks and within them. */
  ghost predicate Ordered(bs: seq<Block>) {
    && (forall i | 0 <= i < |bs| :: bs[i].entries != [])
    && forall i, p, j, q | IsEntry(bs, i, p) && IsEntry(bs, j, q) && (i < j || (i == j && p < q)) ::
         Before(KeyAt(bs, i, p), KeyAt(bs, j, q))
  }

  function First(b: Block): InternalKey
    requires b.entries != []
  {
    b.entries[0].key
  }

  function Last(b: Block): InternalKey
    requires b.entries != []
  {
    b.entries[|b.entries| - 1].key
  }

  /** Index keys separate blocks. */
  ghost predicate Indexed(bs: seq<Block>, index: seq<InternalKey>)
    requires forall i | 0 <= i < |bs| :: bs[i].entries != []
  {
    && |index| == |bs|
    && (forall i | 0 <= i < |bs| :: !Before(index[i], Last(bs[i])))
    && forall i | 0 <= i < |bs| - 1 :: Separates(Last(bs[i]), index[i], First(bs[i + 1]))
  }

  /** The filter of a block's offset accepts the user keys of its entries. */
  ghost predicate Filtered(policy: Policy, bs: seq<Block>, filters: seq<Text>) {
    forall i, p | IsEntry(bs, i, p) :: InFilter(policy, filters, Placed(bs[i].offset, bs[i].entries[p].key.user))
  }

  ghost predicate IsTable(policy: Policy, t: Table, filters: seq<Text>) {
    && Ordered(t.blocks) && Indexed(t.blocks, t.index)
    && t.filter == FilterBlock(filters) && |t.filter| < TWO32 && Filtered(policy, t.blocks, filters)
  }

  // ----- lookup -----

  /** An entry of the looked-up user key at or below the snapshot. */
  predicate Visible(e: Entry, k: InternalKey) {
    e.key.user == k.user && e.key.num <= k.num
  }

  ghost predicate InTable(bs: seq<Block>, e: Entry) {
    exists i, p :: IsEntry(bs, i, p) && bs[i].entries[p] == e
  }

  ghost predicate IsNewest(bs: seq<Block>, k: InternalKey, e: Entry) {
    InTable(bs, e) && Visible(e, k) && forall x | InTable(bs, x) && Visible(x, k) :: x.key.num <= e.key.num
  }

  /** The index iterator's Seek: the first block whose index key is not before the target. */
  method SeekIndex(index: seq<InternalKey>, k: InternalKey) returns (i: nat)
    ensures i <= |index| && (forall m | 0 <= m < i :: Before(index[m], k)) && (i < |index| ==> !Before(index[i], k))
  {
    i := 0;
    while i < |index| && Before(index[i], k)
      invariant i <= |index| && forall m | 0 <= m < i :: Before(index[m], k)
    {
      i := i + 1;
    }
  }

  /** Where a block iterator's Seek stops. */
  function FirstAtOrAfter(es: seq<Entry>, k: InternalKey): (p: nat)
    ensures p <= |es| && (forall m | 0 <= m < p :: Before(es[m].key, k)) && (p < |es| ==> !Before(es[p].key, k))
  {
    if es == [] || !Before(es[0].key, k) then 0 else 1 + FirstAtOrAfter(es[1..], k)
  }

  method SeekBlock(es: seq<Entry>, k: InternalKey) returns (p: nat)
    ensures p == FirstAtOrAfter(es, k)
  {
    p := 0;
    while p < |es| && Before(es[p].key, k)
      invariant p <= |es| && forall m | 0 <= m < p :: Before(es[m].key, k)
    {
      p := p + 1;
    }
  }

  /** Table::InternalGet: the entry handed to the caller, who looks at its user key.  It has the looked-up user key
      exactly when the table has an entry of it at or below the snapshot, and then it is the newest such. */
  method InternalGet(policy: Policy, t: Table, useFilter: bool, k: InternalKey, ghost filters: seq<Text>)
    returns (r: Option<Entry>)
    requires IsTable(policy, t, filters)
    ensures r.Some? && r.value.key.user == k.user ==> IsNewest(t.blocks, k, r.value)
    ensures (exists x :: InTable(t.blocks, x) && Visible(x, k)) ==> r.Some? && r.value.key.user == k.user
  {
    var i := SeekIndex(t.index, k);
    r := None;
    if i < |t.index| {
      var mayMatch := true;
      if useFilter {
        mayMatch := BlockMayMatch(policy, t.filter, t.blocks[i].offset, k.user, filters);
      }
      ghost var p := FirstAtOrAfter(t.blocks[i].entries, k);
      if mayMatch {
        var q := SeekBlock(t.blocks[i].entries, k);
        if q < |t.blocks[i].entries| {
          r := Some(t.blocks[i].entries[q]);
          assert IsEntry(t.blocks, i, q) && p == q;
        }
      }
      if p < |t.blocks[i].entries| { Accepted(policy, t, filters, i, p, k); }
    }
    forall x | InTable(t.blocks, x) && Visible(x, k)
      ensures r.Some? && r.value.key.user == k.user && x.key.num <= r.value.key.num <= k.num
    {
      var j, q :| IsEntry(t.blocks, j, q) && t.blocks[j].entries[q] == x;
      Candidate(t.blocks, t.index, k, i, j, q);
      var p := FirstAtOrAfter(t.blocks[i].entries, k);
      FirstIsNewest(t.blocks, t.index, k, i, p, j, q);
    }
    if r.Some? && r.value.key.user == k.user {
      NotBeforeIsVisible(r.value.key, k);
    }
  }

  lemma NotBeforeIsVisible(e: InternalKey, k: InternalKey)
    ensures e.user == k.user ==> (!Before(e, k) <==> e.num <= k.num)
  {
    LessIrreflexive(k.user);
  }

  /** A key between two entries that are in order. */
  lemma Chain(a: InternalKey, b: InternalKey, c: InternalKey)
    requires !Before(b, a) && !Before(c, b)
    ensures !Before(c, a)
  {
    BeforeTotal(a, b);
    BeforeTotal(b, c);
    if Before(a, b) && Before(b, c) { BeforeTransitive(a, b, c); }
    BeforeTotal(a, c);
  }

  lemma InOrder(bs: seq<Block>, i: nat, p: nat, j: nat, q: nat)
    requires Ordered(bs) && IsEntry(bs, i, p) && IsEntry(bs, j, q) && (i < j || (i == j && p <= q))
    ensures !Before(KeyAt(bs, j, q), KeyAt(bs, i, p))
  {
    BeforeTotal(KeyAt(bs, i, p), KeyAt(bs, j, q));
  }

  lemma UpToLast(bs: seq<Block>, j: nat, q: nat)
    requires Ordered(bs) && IsEntry(bs, j, q)
    ensures bs[j].entries != [] && !Before(Last(bs[j]), KeyAt(bs, j, q))
  {
    InOrder(bs, j, q, j, |bs[j].entries| - 1);
  }

  /** Entries of blocks before the one that the index leads to are before the target. */
  lemma EarlierBlock(bs: seq<Block>, index: seq<InternalKey>, k: InternalKey, j: nat, q: nat)
    requires Ordered(bs) && Indexed(bs, index) && IsEntry(bs, j, q) && Before(index[j], k)
    ensures Before(KeyAt(bs, j, q), k)
  {
    UpToLast(bs, j, q);
    Chain(KeyAt(bs, j, q), Last(bs[j]), index[j]);
    BeforeTotal(KeyAt(bs, j, q), index[j]);
    if KeyAt(bs, j, q) != index[j] { BeforeTransitive(KeyAt(bs, j, q), index[j], k); }
  }

  /** If the table has a visible entry, the index leads to a block that has an entry at or after the target. */
  lemma Candidate(bs: seq<Block>, index: seq<InternalKey>, k: InternalKey, i: nat, j: nat, q: nat)
    requires Ordered(bs) && Indexed(bs, index) && IsEntry(bs, j, q) && Visible(bs[j].entries[q], k)
    requires i <= |index| && (forall m | 0 <= m < i :: Before(index[m], k)) && (i < |index| ==> !Before(index[i], k))
    ensures i <= j && !Before(Last(bs[i]), k)
  {
    NotBeforeIsVisible(KeyAt(bs, j, q), k);
    if j < i { EarlierBlock(bs, index, k, j, q); }
    if i == j {
      UpToLast(bs, j, q);
      Chain(k, KeyAt(bs, j, q), Last(bs[j]));
    } else {
      InOrder(bs, i + 1, 0, j, q);
      SeparatorIsNotBetween(Last(bs[i]), index[i], First(bs[i + 1]), k, KeyAt(bs, j, q));
    }
  }

  /** A target at or before a separator that is not past the block's last key is not of a user key further on. */
  lemma SeparatorIsNotBetween(last: InternalKey, s: InternalKey, first: InternalKey, k: InternalKey, x: InternalKey)
    requires Separates(last, s, first) && !Before(s, k) && !Before(x, first) && x.user == k.user
    ensures !Before(last, k)
  {
    if s != last {
      LessTotal(s.user, k.user);
      LessTotal(first.user, x.user);
      if Less(k.user, s.user) { LessTransitive(k.user, s.user, first.user); }
      if Less(first.user, x.user) { LessTransitive(s.user, first.user, x.user); }
      LessIrreflexive(s.user);
    }
  }

  /** The first entry at or after the target has the user key of every visible entry, and is the newest of them. */
  lemma FirstIsNewest(bs: seq<Block>, index: seq<InternalKey>, k: InternalKey, i: nat, p: nat, j: nat, q: nat)
    requires Ordered(bs) && Indexed(bs, index) && IsEntry(bs, j, q) && Visible(bs[j].entries[q], k)
    requires i <= j && !Before(Last(bs[i]), k)
    requires p <= |bs[i].entries| && (forall m | 0 <= m < p :: Before(bs[i].entries[m].key, k))
    requires p < |bs[i].entries| ==> !Before(bs[i].entries[p].key, k)
    ensures p < |bs[i].entries| && KeyAt(bs, i, p).user == k.user && KeyAt(bs, j, q).num <= KeyAt(bs, i, p).num <= k.num
  {
    assert p < |bs[i].entries|;
    var e, x := KeyAt(bs, i, p), KeyAt(bs, j, q);
    NotBeforeIsVisible(x, k);
    InOrder(bs, i, p, j, q);
    BeforeTotal(e, x);
    LessTotal(e.user, k.user);
    LessIrreflexive(k.user);
    if Less(e.user, x.user) { LessTotal(k.user, e.user); }
    NotBeforeIsVisible(e, k);
  }

  /** The filter lets through the user key of an entry of the block. */
  lemma Accepted(policy: Policy, t: Table, filters: seq<Text>, i: nat, p: nat, k: InternalKey)
    requires IsTable(policy, t, filters) && IsEntry(t.blocks, i, p)
    ensures KeyAt(t.blocks, i, p).user == k.user ==>
              (t.blocks[i].offset / BASE < |filters| ==>
                  Blooms.MayMatch(policy.hash, k.user, filters[t.blocks[i].offset / BASE]))
  {
    assert InFilter(policy, filters, Placed(t.blocks[i].offset, KeyAt(t.blocks, i, p).user));
  }
}
