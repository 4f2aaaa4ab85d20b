/** The filter block of a table (table/filter_block.cc): one filter for every 2KB of file offset, built from the keys
    of the blocks that start there. */
module FilterBlocks {
  import opened Bytes
  import opened Varints
  import opened BlockFormat
  import opened Blooms

  const BASE_LG: Byte := 11
  const BASE: nat := 2048

  datatype Policy = Policy(hash: Text -> Word, bitsPerKey: nat, k: nat)

  /** A key and the offset of the block that it went into. */
  datatype Placed = Placed(offset: nat, key: Text)

  /** The keys of the blocks that start in the i-th range of 2KB, in order. */
  ghost function KeysIn(placed: seq<Placed>, i: nat): seq<Text> {
    if placed == [] then []
    else
      var p := placed[|placed| - 1];
      KeysIn(placed[..|placed| - 1], i) + if p.offset / BASE == i then [p.key] else []
  }

  /** A range without keys has an empty filter; any other has a Bloom filter with their probes and nothing else. */
  ghost predicate IsFilter(policy: Policy, keys: seq<Text>, filter: Text) {
    if keys == [] then filter == []
    else IsBloom(policy.hash, policy.bitsPerKey, policy.k, keys, filter)
  }

  ghost predicate AreFilters(policy: Policy, placed: seq<Placed>, filters: seq<Text>) {
    forall i: nat | i < |filters| :: IsFilter(policy, KeysIn(placed, i), filters[i])
  }

  /** Every key lies in the range of one of the filters or in the range after the last of them, whose keys these
      are. */
  ghost predicate Partitioned(placed: seq<Placed>, n: nat, keys: seq<Text>) {
    KeysIn(placed, n) == keys && forall p | p in placed :: p.offset / BASE <= n
  }

  /** A key for the range after the last filter leaves the filters as they should be. */
  lemma PlaceOne(policy: Policy, placed: seq<Placed>, filters: seq<Text>, keys: seq<Text>, p: Placed)
    requires AreFilters(policy, placed, filters) && Partitioned(placed, |filters|, keys) && p.offset / BASE == |filters|
    ensures AreFilters(policy, placed + [p], filters) && Partitioned(placed + [p], |filters|, keys + [p.key])
  {
    assert (placed + [p])[..|placed|] == placed;
    forall i: nat | i < |filters| ensures KeysIn(placed + [p], i) == KeysIn(placed, i) { }
  }

  lemma {:induction false} NoneBehind(placed: seq<Placed>, n: nat)
    requires forall p | p in placed :: p.offset / BASE < n
    ensures KeysIn(placed, n) == []
    decreases |placed|
  {
    if placed != [] { NoneBehind(placed[..|placed| - 1], n); }
  }

  lemma {:induction false} KeyIsIn(placed: seq<Placed>, j: nat)
    requires j < |placed|
    ensures placed[j].key in KeysIn(placed, placed[j].offset / BASE)
    decreases |placed|
  {
    if j < |placed| - 1 { KeyIsIn(placed[..|placed| - 1], j); }
  }

  lemma FiltersCover(policy: Policy, placed: seq<Placed>, filters: seq<Text>)
    requires AreFilters(policy, placed, filters) && Partitioned(placed, |filters|, [])
    ensures forall p | p in placed :: InFilter(policy, filters, p)
  {
    forall p | p in placed ensures InFilter(policy, filters, p) {
      var j :| 0 <= j < |placed| && placed[j] == p;
      KeyIsIn(placed, j);
      var i := p.offset / BASE;
      var keys := KeysIn(placed, i);
      assert i != |filters|;
      BloomCovers(policy.hash, policy.bitsPerKey, policy.k, keys, filters[i], p.key);
    }
  }

  /** The filter for the block's offset accepts the key. */
  ghost predicate InFilter(policy: Policy, filters: seq<Text>, p: Placed) {
    p.offset / BASE < |filters| && MayMatch(policy.hash, p.key, filters[p.offset / BASE])
  }

  class FilterBlockBuilder {
    const policy: Policy
    var keys: seq<Text>         // keys_ and start_: the keys since the last filter
    var result: Text
    var offsets: seq<nat>       // filter_offsets_
    ghost var filters: seq<Text>
    ghost var offset: nat       // of the block that keys are being added for
    ghost var placed: seq<Placed>

    ghost predicate Valid()
      reads this
    {
      && 1 <= policy.k <= 30
      && result == Join(filters, |filters|) && |offsets| == |filters|
      && (forall i: nat | i < |filters| :: offsets[i] == Offset(filters, i))
      && offset / BASE == |filters|
      && AreFilters(policy, placed, filters) && Partitioned(placed, |filters|, keys)
    }

    /** A builder whose first block starts at offset 0. */
    constructor (policy: Policy)
      requires 1 <= policy.k <= 30
      ensures Valid() && placed == [] && offset == 0 && this.policy == policy
    {
      this.policy := policy;
      keys, result, offsets, filters, offset, placed := [], [], [], [], 0, [];
    }

    method AddKey(key: Text)
      requires Valid()
      modifies this`keys, this`placed
      ensures Valid() && placed == old(placed) + [Placed(offset, key)]
    {
      PlaceOne(policy, placed, filters, keys, Placed(offset, key));
      keys := keys + [key];
      placed := placed + [Placed(offset, key)];
    }

    /** GenerateFilter: one more filter, for the keys so far. */
    method GenerateFilter()
      requires 1 <= policy.k <= 30 && result == Join(filters, |filters|) && |offsets| == |filters|
      requires forall i: nat | i < |filters| :: offsets[i] == Offset(filters, i)
      requires AreFilters(policy, placed, filters) && Partitioned(placed, |filters|, keys)
      modifies this`keys, this`result, this`offsets, this`filters
      ensures result == Join(filters, |filters|) && |offsets| == |filters| == old(|filters|) + 1
      ensures forall i: nat | i < |filters| :: offsets[i] == Offset(filters, i)
      ensures keys == [] && AreFilters(policy, placed, filters) && Partitioned(placed, |filters|, keys)
    {
      ghost var before := filters;
      var filter: Text := [];
      if keys != [] {
        filter := CreateFilter(policy.hash, policy.bitsPerKey, policy.k, keys);
      }
      offsets := offsets + [|result|];
      result := result + filter;
      filters := filters + [filter];
      keys := [];
      OneMoreFilter(before, filter);
      NoneBehind(placed, |filters|);
    }

    /** StartBlock: filters up to the one for the new offset. */
    method StartBlock(blockOffset: nat)
      requires Valid() && offset <= blockOffset
      modifies this`keys, this`result, this`offsets, this`filters, this`offset
      ensures Valid() && offset == blockOffset
    {
      var index := blockOffset / BASE;
      while index > |offsets|
        invariant index >= |offsets| == |filters| && result == Join(filters, |filters|)
        invariant forall i: nat | i < |filters| :: offsets[i] == Offset(filters, i)
        invariant AreFilters(policy, placed, filters) && Partitioned(placed, |filters|, keys)
        decreases index - |offsets|
      {
        GenerateFilter();
      }
      offset := blockOffset;
    }

    /** Finish: the filters, their offsets, the offset of the offsets and the base.  The i-th filter holds the keys of
        the blocks that start in the i-th range of 2KB and no others. */
    method Finish() returns (block: Text)
      requires Valid()
      modifies this`keys, this`result, this`offsets, this`filters
      ensures block == FilterBlock(filters)
      ensures AreFilters(policy, placed, filters) && forall p | p in placed :: InFilter(policy, filters, p)
    {
      if keys != [] {
        GenerateFilter();
      }
      FinishedBytes(filters, offsets);
      block := result + Words(offsets) + Little(|result|, 4) + [BASE_LG];
      FiltersCover(policy, placed, filters);
    }
  }

  /** A finished filter block. */
  function FilterBlock(filters: seq<Text>): Text {
    Join(filters, |filters|) + Words(AllOffsets(filters)) + [BASE_LG]
  }

  lemma OneMoreFilter(filters: seq<Text>, f: Text)
    ensures Join(filters + [f], |filters| + 1) == Join(filters, |filters|) + f
    ensures forall i: nat | i <= |filters| :: Offset(filters + [f], i) == Offset(filters, i)
  {
    forall i: nat | i <= |filters| ensures Join(filters + [f], i) == Join(filters, i) {
      JoinIsLocal(filters + [f], filters, i);
    }
  }

  lemma FinishedBytes(filters: seq<Text>, offsets: seq<nat>)
    requires |offsets| == |filters| && forall i: nat | i < |filters| :: offsets[i] == Offset(filters, i)
    ensures Join(filters, |filters|) + Words(offsets) + Little(Offset(filters, |filters|), 4) + [BASE_LG]
            == FilterBlock(filters)
  {
    var all, n := AllOffsets(filters), |filters|;
    assert all[..n] == offsets && all[n] == Offset(filters, n);
    assert Words(all) == Words(offsets) + Little(Offset(filters, n), 4);
    Assoc(Join(filters, n), Words(offsets), Little(Offset(filters, n), 4));
  }

  // ----- reading -----

  lemma ThreeParts(block: Text, a: Text, b: Text, c: Text)
    requires block == a + b + c
    ensures block[..|a|] == a && block[|a|..|a| + |b|] == b && block[|a| + |b|..] == c
  {
  }

  lemma FilterParts(block: Text, filters: seq<Text>)
    requires block == FilterBlock(filters)
    ensures var at, n := Offset(filters, |filters|), |filters|;
            && |block| == at + 4 * (n + 1) + 1
            && block[..at] == Join(filters, n) && block[at..at + 4 * (n + 1)] == Words(AllOffsets(filters))
  {
    ThreeParts(block, Join(filters, |filters|), Words(AllOffsets(filters)), [BASE_LG]);
  }

  lemma {:induction false} OffsetsGrow(filters: seq<Text>, i: nat, j: nat)
    requires i <= j <= |filters|
    ensures Offset(filters, i) <= Offset(filters, j)
  {
    var tail := JoinSplits(filters, i, j);
  }

  lemma SmallOffsets(block: Text, filters: seq<Text>)
    requires block == FilterBlock(filters) && |block| < TWO32
    ensures forall j | 0 <= j <= |filters| :: AllOffsets(filters)[j] < TWO32
  {
    FilterParts(block, filters);
    forall j | 0 <= j <= |filters| ensures AllOffsets(filters)[j] < TWO32 { OffsetsGrow(filters, j, |filters|); }
  }

  lemma WordSlice(block: Text, at: nat, words: Text, n: nat, i: nat)
    requires |words| == 4 * n && at + 4 * n <= |block| && block[at..at + 4 * n] == words && i < n
    ensures block[at + 4 * i..at + 4 * i + 4] == words[4 * i..4 * i + 4]
  {
    SubSlice(block, at, 4 * n, 4 * i, 4);
  }

  lemma WordValue(word: Text, ws: seq<nat>, i: nat)
    requires i < |ws| && (forall j | 0 <= j < |ws| :: ws[j] < TWO32) && word == Words(ws)[4 * i..4 * i + 4]
    ensures FromLittle(word) == ws[i]
  {
    WordAt(ws, i);
  }

  /** The i-th word of the offset array; the last one is the offset of the array itself. */
  method ReadOffset(block: Text, pos: nat, ghost i: nat, ghost filters: seq<Text>) returns (w: nat)
    requires block == FilterBlock(filters) && |block| < TWO32 && i <= |filters|
    requires pos == Offset(filters, |filters|) + 4 * i && pos + 4 <= |block|
    ensures w == Offset(filters, i)
  {
    FilterParts(block, filters);
    WordSlice(block, Offset(filters, |filters|), Words(AllOffsets(filters)), |filters| + 1, i);
    SmallOffsets(block, filters);
    var word := block[pos..pos + 4];
    WordValue(word, AllOffsets(filters), i);
    w := FromLittle(word);
  }

  /** Where the i-th filter is. */
  lemma FilterAt(block: Text, filters: seq<Text>, i: nat)
    requires block == FilterBlock(filters) && i < |filters|
    ensures var start, limit := Offset(filters, i), Offset(filters, i + 1);
            start <= limit <= Offset(filters, |filters|) <= |block| && block[start..limit] == filters[i]
  {
    FilterParts(block, filters);
    OffsetsGrow(filters, i + 1, |filters|);
    var tail := JoinSplits(filters, i + 1, |filters|);
    FilterSlice(block, Offset(filters, |filters|), Join(filters, i), filters[i], tail);
  }

  lemma FilterSlice(block: Text, at: nat, before: Text, filter: Text, tail: Text)
    requires at <= |block| && block[..at] == before + filter + tail
    ensures block[|before|..|before| + |filter|] == filter
  {
    assert block[|before|..|before| + |filter|] == block[..at][|before|..|before| + |filter|];
  }

  /** The offset of the offset array, from the end of the block. */
  method ReadArrayOffset(block: Text, ghost filters: seq<Text>) returns (at: nat)
    requires block == FilterBlock(filters) && |block| < TWO32
    ensures at == Offset(filters, |filters|) && |block| == at + 4 * (|filters| + 1) + 1
  {
    FilterParts(block, filters);
    at := ReadOffset(block, |block| - 5, |filters|, filters);
  }

  /** FilterBlockReader and its KeyMayMatch.  Offsets past the last filter may match. */
  method BlockMayMatch(policy: Policy, contents: Text, blockOffset: nat, key: Text, ghost filters: seq<Text>)
    returns (r: bool)
    requires contents == FilterBlock(filters) && |contents| < TWO32
    ensures r == (blockOffset / BASE < |filters| ==> MayMatch(policy.hash, key, filters[blockOffset / BASE]))
  {
    var at := ReadArrayOffset(contents, filters);
    var num := (|contents| - 5 - at) / 4;
    var index := blockOffset / BASE;
    r := true;
    if index < num {
      FilterAt(contents, filters, index);
      var start := ReadOffset(contents, at + 4 * index, index, filters);
      var limit := ReadOffset(contents, at + 4 * index + 4, index + 1, filters);
      r := KeyMayMatch(policy.hash, key, contents[start..limit]);
    }
  }
}
