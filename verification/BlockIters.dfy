/** Block::Iter (table/block.cc) over a block that a builder has made: a cursor over the entries, for any order of keys
    and any choice of restart points. */
module BlockIters {
  import opened Options
  import opened Bytes
  import opened Varints
  import opened BlockFormat
  import opened Blocks

  type Order = (Text, Text) -> bool

  ghost predicate Transitive(less: Order) {
    forall a, b, c :: less(a, b) && less(b, c) ==> less(a, c)
  }

  ghost predicate Ascending(less: Order, es: seq<Pair>) {
    forall i, j | 0 <= i < j < |es| :: less(es[i].key, es[j].key)
  }

  /** `data` is the finished block of these texts. */
  ghost predicate IsBlock(data: Text, cs: seq<Text>, starts: seq<nat>) {
    && GoodStarts(|cs|, starts) && data == BlockOf(cs, starts) && |data| < TWO32
    && forall i | 0 <= i < |cs| :: cs[i] != []
  }

  /** The parts of a block. */
  lemma BlockParts(data: Text, cs: seq<Text>, starts: seq<nat>)
    requires IsBlock(data, cs, starts)
    ensures var end := Offset(cs, |cs|);
            && |data| == end + 4 * |starts| + 4
            && data[..end] == Join(cs, |cs|)
            && data[end..end + 4 * |starts|] == Words(Offsets(cs, starts))
            && data[end + 4 * |starts|..] == Little(|starts|, 4)
  {
    var a, b, c := Join(cs, |cs|), Words(Offsets(cs, starts)), Little(|starts|, 4);
    assert data == a + b + c;
  }

  /** How entries and words are decoded. */
  datatype Codec = Codec(entry: Text -> Option<Decoded>, word: Text -> nat)

  function BlockCodec(): Codec {
    Codec(DecodeEntry, (b: Text) => FromLittle(b))
  }

  /** The i-th word after the entries. */
  ghost predicate RestartIs(c: Codec, data: Text, end: nat, i: nat, offset: nat) {
    end + 4 * i + 4 <= |data| && c.word(data[end + 4 * i..end + 4 * i + 4]) == offset
  }

  /** DecodeEntry at `off` finds an entry that ends at `next`. */
  ghost predicate EntryIs(c: Codec, data: Text, off: nat, next: nat, end: nat, shared: nat, e: Pair) {
    && off < next <= end <= |data| && shared <= |e.key|
    && var d := c.entry(data[off..end]);
       && d.Some? && d.value.header <= end - off
       && d.value.shared == shared && d.value.unshared == |e.key| - shared && d.value.length == |e.value|
       && var p := off + d.value.header;
          var q := p + d.value.unshared;
          q + d.value.length == next && data[p..q] == e.key[shared..] && data[q..next] == e.value
  }

  /** `shared` is how much of its key each entry shares with the one before: nothing at restart points. */
  ghost predicate Sharing(es: seq<Pair>, starts: seq<nat>, shared: seq<nat>) {
    && |shared| == |es|
    && (forall i | 0 <= i < |es| :: shared[i] <= |es[i].key|)
    && (forall i | 0 < i < |es| :: shared[i] <= |es[i - 1].key| && es[i].key[..shared[i]] == es[i - 1].key[..shared[i]])
    && (forall i | 0 <= i < |starts| && starts[i] < |es| :: shared[starts[i]] == 0)
  }

  /** All that a reader needs to know of a block: `offs` are the offsets of the entries and of their end. */
  ghost predicate Readable(c: Codec, data: Text, es: seq<Pair>, starts: seq<nat>, offs: seq<nat>, shared: seq<nat>) {
    && GoodStarts(|es|, starts) && |offs| == |es| + 1 && Sharing(es, starts, shared)
    && (forall i, j | 0 <= i < j < |offs| :: offs[i] < offs[j])
    && (forall i: nat | i < |starts| :: RestartIs(c, data, offs[|es|], i, offs[starts[i]]))
    && (forall m: nat | m < |es| :: EntryIs(c, data, offs[m], offs[m + 1], offs[|es|], shared[m], es[m]))
  }

  ghost function AllShared(es: seq<Pair>, starts: seq<nat>): (r: seq<nat>)
    ensures |r| == |es| && forall i | 0 <= i < |es| :: r[i] == SharedAt(es, starts, i)
  {
    seq(|es|, i requires 0 <= i < |es| => SharedAt(es, starts, i))
  }

  lemma SmallOffsets(data: Text, cs: seq<Text>, starts: seq<nat>)
    requires IsBlock(data, cs, starts)
    ensures forall j | 0 <= j < |starts| :: Offsets(cs, starts)[j] < TWO32
  {
    BlockParts(data, cs, starts);
    forall j | 0 <= j < |starts| ensures Offsets(cs, starts)[j] < TWO32 { OffsetBound(cs, starts[j]); }
  }

  /** The codec reads back the words that a builder writes. */
  ghost predicate ReadsWords(c: Codec, words: Text, ws: seq<nat>) {
    |words| == 4 * |ws| && forall i: nat | i < |ws| :: c.word(words[4 * i..4 * i + 4]) == ws[i]
  }

  lemma WordOf(c: Codec, data: Text, end: nat, ws: seq<nat>, i: nat)
    requires end + 4 * |ws| <= |data| && ReadsWords(c, data[end..end + 4 * |ws|], ws) && i < |ws|
    ensures RestartIs(c, data, end, i, ws[i])
  {
    SubSlice(data, end, 4 * |ws|, 4 * i, 4);
  }

  lemma WordsAreRead(ws: seq<nat>)
    requires forall j | 0 <= j < |ws| :: ws[j] < TWO32
    ensures ReadsWords(BlockCodec(), Words(ws), ws)
  {
    forall i: nat | i < |ws| ensures FromLittle(Words(ws)[4 * i..4 * i + 4]) == ws[i] { WordAt(ws, i); }
  }

  lemma RestartWords(c: Codec, data: Text, cs: seq<Text>, starts: seq<nat>)
    requires IsBlock(data, cs, starts) && ReadsWords(c, Words(Offsets(cs, starts)), Offsets(cs, starts))
    ensures forall i: nat | i < |starts| :: RestartIs(c, data, Offset(cs, |cs|), i, Offset(cs, starts[i]))
  {
    BlockParts(data, cs, starts);
    var ws, end := Offsets(cs, starts), Offset(cs, |cs|);
    forall i: nat | i < |starts| ensures RestartIs(c, data, end, i, Offset(cs, starts[i])) {
      WordOf(c, data, end, ws, i);
    }
  }

  lemma Slices(data: Text, end: nat, before: Text, chunk: Text, tail: Text)
    requires end <= |data| && data[..end] == before + chunk + tail
    ensures data[|before|..end] == chunk + tail
    ensures |before| + |chunk| <= end && data[|before|..|before| + |chunk|] == chunk
  {
    assert data[|before|..end] == data[..end][|before|..];
    assert data[|before|..|before| + |chunk|] == data[..end][|before|..|before| + |chunk|];
  }

  /** The data starts with these texts. */
  ghost predicate Begins(data: Text, cs: seq<Text>) {
    Offset(cs, |cs|) <= |data| && data[..Offset(cs, |cs|)] == Join(cs, |cs|) && forall i | 0 <= i < |cs| :: cs[i] != []
  }

  /** From the offset of an entry the data goes on with that entry. */
  lemma ChunkAt(data: Text, cs: seq<Text>, m: nat) returns (tail: Text)
    requires Begins(data, cs) && m < |cs|
    ensures var off, end := Offset(cs, m), Offset(cs, |cs|);
            && off < Offset(cs, m + 1) == off + |cs[m]| <= end <= |data|
            && data[off..end] == cs[m] + tail && data[off..off + |cs[m]|] == cs[m]
  {
    tail := JoinSplits(cs, m + 1, |cs|);
    assert Join(cs, m + 1) == Join(cs, m) + cs[m];
    Slices(data, Offset(cs, |cs|), Join(cs, m), cs[m], tail);
  }

  /** The codec reads back the lengths of an entry that a builder writes. */
  ghost predicate ReadsEntry(c: Codec, shared: nat, e: Pair)
    requires shared <= |e.key|
  {
    var h := |Header(shared, |e.key| - shared, |e.value|)|;
    forall tail :: c.entry(EntryBytes(shared, e) + tail) == Some(Decoded(shared, |e.key| - shared, |e.value|, h))
  }

  lemma EntryIsRead(shared: nat, e: Pair)
    requires shared <= |e.key| < TWO32 && |EntryBytes(shared, e)| < TWO32
    ensures ReadsEntry(BlockCodec(), shared, e)
  {
    var h := |Header(shared, |e.key| - shared, |e.value|)|;
    forall tail
      ensures DecodeEntry(EntryBytes(shared, e) + tail) == Some(Decoded(shared, |e.key| - shared, |e.value|, h))
    {
      EntryDecodes(shared, e, tail);
    }
  }

  lemma EntryParts(c: Codec, data: Text, off: nat, end: nat, shared: nat, e: Pair, tail: Text)
    requires shared <= |e.key| && off + |EntryBytes(shared, e)| <= end <= |data| && ReadsEntry(c, shared, e)
    requires data[off..end] == EntryBytes(shared, e) + tail
             && data[off..off + |EntryBytes(shared, e)|] == EntryBytes(shared, e)
    ensures EntryIs(c, data, off, off + |EntryBytes(shared, e)|, end, shared, e)
  {
    var h := Header(shared, |e.key| - shared, |e.value|);
    Slices(data, off + |EntryBytes(shared, e)|, data[..off] + h, e.key[shared..], e.value);
    Slices(data, off + |EntryBytes(shared, e)|, data[..off] + h + e.key[shared..], e.value, []);
  }

  lemma ChunkIs(es: seq<Pair>, starts: seq<nat>, m: nat)
    requires m < |es|
    ensures Chunks(es, starts)[m] == EntryBytes(SharedAt(es, starts, m), es[m])
  {
  }

  lemma NoEmptyChunk(es: seq<Pair>, starts: seq<nat>)
    ensures forall i | 0 <= i < |es| :: Chunks(es, starts)[i] != []
  {
  }

  lemma EntryAt(c: Codec, data: Text, cs: seq<Text>, m: nat, shared: nat, e: Pair)
    requires Begins(data, cs) && m < |cs| && shared <= |e.key| && cs[m] == EntryBytes(shared, e)
    requires ReadsEntry(c, shared, e)
    ensures EntryIs(c, data, Offset(cs, m), Offset(cs, m + 1), Offset(cs, |cs|), shared, e)
  {
    var tail := ChunkAt(data, cs, m);
    EntryParts(c, data, Offset(cs, m), Offset(cs, |cs|), shared, e, tail);
  }

  lemma BlockBegins(data: Text, cs: seq<Text>, starts: seq<nat>)
    requires IsBlock(data, cs, starts)
    ensures Begins(data, cs)
  {
    BlockParts(data, cs, starts);
  }

  lemma OffsetsIncrease(cs: seq<Text>)
    requires forall i | 0 <= i < |cs| :: cs[i] != []
    ensures forall i, j | 0 <= i < j <= |cs| :: AllOffsets(cs)[i] < AllOffsets(cs)[j]
  {
    forall i, j | 0 <= i < j <= |cs| ensures AllOffsets(cs)[i] < AllOffsets(cs)[j] { OffsetOrder(cs, i, j); }
  }

  lemma EntriesAre(c: Codec, data: Text, es: seq<Pair>, starts: seq<nat>, m: nat)
    requires Begins(data, Chunks(es, starts)) && m < |es| && ReadsEntry(c, SharedAt(es, starts, m), es[m])
    ensures var offs := AllOffsets(Chunks(es, starts));
            EntryIs(c, data, offs[m], offs[m + 1], offs[|es|], SharedAt(es, starts, m), es[m])
  {
    ChunkIs(es, starts, m);
    EntryAt(c, data, Chunks(es, starts), m, SharedAt(es, starts, m), es[m]);
  }

  lemma StartSharesNothing(es: seq<Pair>, starts: seq<nat>, i: nat)
    requires i < |starts| && starts[i] < |es|
    ensures SharedAt(es, starts, starts[i]) == 0
  {
  }

  lemma SharingOf(es: seq<Pair>, starts: seq<nat>)
    ensures Sharing(es, starts, AllShared(es, starts))
  {
    var shared := AllShared(es, starts);
    forall i | 0 < i < |es|
      ensures shared[i] <= |es[i - 1].key| && es[i].key[..shared[i]] == es[i - 1].key[..shared[i]]
    {
      var n := SharedAt(es, starts, i);
    }
    forall i | 0 <= i < |starts| && starts[i] < |es| ensures shared[starts[i]] == 0 {
      StartSharesNothing(es, starts, i);
    }
  }

  lemma ReadableBy(c: Codec, data: Text, es: seq<Pair>, starts: seq<nat>, offs: seq<nat>, shared: seq<nat>)
    requires GoodStarts(|es|, starts) && Begins(data, Chunks(es, starts)) && offs == AllOffsets(Chunks(es, starts))
    requires shared == AllShared(es, starts)
    requires forall m: nat | m < |es| :: ReadsEntry(c, SharedAt(es, starts, m), es[m])
    requires forall i: nat | i < |starts| :: RestartIs(c, data, offs[|es|], i, offs[starts[i]])
    ensures Readable(c, data, es, starts, offs, shared)
  {
    OffsetsIncrease(Chunks(es, starts));
    SharingOf(es, starts);
    forall m: nat | m < |es| ensures EntryIs(c, data, offs[m], offs[m + 1], offs[|es|], shared[m], es[m]) {
      EntriesAre(c, data, es, starts, m);
    }
  }

  lemma EntriesAreRead(data: Text, es: seq<Pair>, starts: seq<nat>)
    requires Begins(data, Chunks(es, starts)) && |data| < TWO32 && forall i | 0 <= i < |es| :: |es[i].key| < TWO32
    ensures forall m: nat | m < |es| :: ReadsEntry(BlockCodec(), SharedAt(es, starts, m), es[m])
  {
    forall m: nat | m < |es| ensures ReadsEntry(BlockCodec(), SharedAt(es, starts, m), es[m]) {
      var tail := ChunkAt(data, Chunks(es, starts), m);
      ChunkIs(es, starts, m);
      EntryIsRead(SharedAt(es, starts, m), es[m]);
    }
  }

  /** A finished block can be read. */
  lemma BlockIsReadable(data: Text, es: seq<Pair>, starts: seq<nat>)
    requires IsBlock(data, Chunks(es, starts), starts) && forall i | 0 <= i < |es| :: |es[i].key| < TWO32
    ensures Readable(BlockCodec(), data, es, starts, AllOffsets(Chunks(es, starts)), AllShared(es, starts))
  {
    var cs := Chunks(es, starts);
    BlockBegins(data, cs, starts);
    SmallOffsets(data, cs, starts);
    WordsAreRead(Offsets(cs, starts));
    RestartWords(BlockCodec(), data, cs, starts);
    EntriesAreRead(data, es, starts);
    ReadableBy(BlockCodec(), data, es, starts, AllOffsets(cs), AllShared(es, starts));
  }

  // ----- the iterator -----

  class Iter {
    const less: Order
    const c: Codec
    const data: Text
    const restarts: nat        // offset of the restart array
    const numRestarts: nat
    var current: nat           // offset of the current entry, restarts if there is none
    var restartIndex: nat
    var key: Text
    var valueOffset: nat
    var valueLength: nat
    var corrupt: bool
    ghost const es: seq<Pair>
    ghost const starts: seq<nat>
    ghost const offs: seq<nat>
    ghost const shared: seq<nat>
    ghost var at: nat          // index of the current entry, |es| if there is none

    ghost predicate Fixed() {
      && Readable(c, data, es, starts, offs, shared)
      && restarts == offs[|es|] && numRestarts == |starts|
    }

    /** NextEntryOffset leads to entry m, and the key is good to decode it. */
    ghost predicate Ready(m: nat)
      requires Fixed()
      reads this
    {
      && m <= |es| && valueOffset + valueLength == offs[m]
      && (m < |es| ==> shared[m] <= |key| && key[..shared[m]] == es[m].key[..shared[m]])
      && restartIndex < |starts| && starts[restartIndex] <= m
    }

    ghost predicate At(m: nat)
      requires Fixed()
      reads this
    {
      && m < |es| && current == offs[m] && key == es[m].key
      && valueOffset + valueLength == offs[m + 1] <= |data|
         && data[valueOffset..valueOffset + valueLength] == es[m].value
      && restartIndex < |starts| && starts[restartIndex] <= m
    }

    ghost predicate Inv()
      reads this
    {
      && Fixed() && !corrupt && at <= |es|
      && (if at < |es| then At(at) else current == restarts)
    }

    method GetRestartPoint(i: nat) returns (offset: nat)
      requires Fixed() && i < numRestarts
      ensures offset == offs[starts[i]]
    {
      assert RestartIs(c, data, offs[|es|], i, offs[starts[i]]);
      offset := c.word(data[restarts + 4 * i..restarts + 4 * i + 4]);
    }

    method SeekToRestartPoint(i: nat)
      requires Fixed() && i < numRestarts
      modifies this`key, this`restartIndex, this`valueOffset, this`valueLength
      ensures Ready(starts[i]) && restartIndex == i
    {
      key := [];
      restartIndex := i;
      var offset := GetRestartPoint(i);
      valueOffset, valueLength := offset, 0;
    }

    /** ParseNextKey: to entry m. */
    method ParseNextKey(ghost m: nat) returns (ok: bool)
      requires Fixed() && !corrupt && Ready(m)
      modifies this`current, this`restartIndex, this`key, this`valueOffset, this`valueLength, this`corrupt, this`at
      ensures Inv() && at == m && ok == (m < |es|)
    {
      current := valueOffset + valueLength;
      at := m;
      if current >= restarts {
        current := restarts;
        restartIndex := numRestarts;
        ok := false;
      } else {
        assert EntryIs(c, data, offs[m], offs[m + 1], offs[|es|], shared[m], es[m]);
        var d := c.entry(data[current..restarts]);
        corrupt := d.None? || |key| < d.value.shared;
        if !corrupt {
          TakeEntry(m, d.value);
          AdvanceRestartIndex(m);
        }
        ok := !corrupt;
      }
    }

    method TakeEntry(ghost m: nat, d: Decoded)
      requires Fixed() && Ready(m) && m < |es| && current == offs[m] && c.entry(data[current..restarts]) == Some(d)
      requires EntryIs(c, data, offs[m], offs[m + 1], offs[|es|], shared[m], es[m])
      modifies this`key, this`valueOffset, this`valueLength
      ensures key == es[m].key && valueOffset + valueLength == offs[m + 1] <= |data|
      ensures data[valueOffset..valueOffset + valueLength] == es[m].value
    {
      var p := current + d.header;
      Rejoin(key, es[m].key, d.shared);
      key := key[..d.shared] + data[p..p + d.unshared];
      valueOffset, valueLength := p + d.unshared, d.length;
    }

    /** The loop that keeps restart_index_ in step. */
    method AdvanceRestartIndex(ghost m: nat)
      requires Fixed() && m < |es| && current == offs[m] && restartIndex < |starts| && starts[restartIndex] <= m
      modifies this`restartIndex
      ensures restartIndex < |starts| && starts[restartIndex] <= m
    {
      while restartIndex + 1 < numRestarts
        invariant restartIndex < |starts| && starts[restartIndex] <= m
        decreases |starts| - restartIndex
      {
        var next := GetRestartPoint(restartIndex + 1);
        if next >= current {
          break;
        }
        restartIndex := restartIndex + 1;
      }
    }

    /** Block::Block and NewIterator. */
    constructor (less: Order, data: Text, ghost es: seq<Pair>, ghost starts: seq<nat>)
      requires IsBlock(data, Chunks(es, starts), starts) && forall i | 0 <= i < |es| :: |es[i].key| < TWO32
      ensures Inv() && at == |es| && this.es == es && this.less == less && this.data == data
    {
      var codec, end, n, o, s := OpenBlock(data, es, starts);
      this.less, this.c, this.data, this.es, this.starts := less, codec, data, es, starts;
      offs, shared := o, s;
      numRestarts := n;
      restarts := end;
      current := end;
      restartIndex := n;
      key, valueOffset, valueLength, corrupt := [], 0, 0, false;
      at := |es|;
    }

    /** Valid(). */
    method IsValid() returns (valid: bool)
      requires Inv()
      ensures valid == (at < |es|)
    {
      assert forall i | 0 <= i < |es| :: offs[i] < offs[|es|];
      valid := current < restarts;
    }

    /** key() and value(). */
    method Current() returns (p: Pair)
      requires Inv() && at < |es|
      ensures p == es[at]
    {
      p := Pair(key, data[valueOffset..valueOffset + valueLength]);
    }

    /** All entries from the current one on. */
    method ReadRest() returns (read: seq<Pair>)
      requires Inv()
      modifies this
      ensures Inv() && read == es[old(at)..]
    {
      read := [];
      var valid := IsValid();
      while valid
        invariant Inv() && old(at) <= at && valid == (at < |es|) && read == es[old(at)..at]
        decreases |es| - at
      {
        Snoc(es, old(at), at);
        var p;
        p, valid := Take();
        read := read + [p];
      }
    }

    /** The current entry, and one step forward. */
    method Take() returns (p: Pair, valid: bool)
      requires Inv() && at < |es|
      modifies this
      ensures Inv() && at == old(at) + 1 && p == es[old(at)] && valid == (at < |es|)
    {
      p := Current();
      Next();
      valid := IsValid();
    }

    method Next()
      requires Inv() && at < |es|
      modifies this
      ensures Inv() && at == old(at) + 1
    {
      var _ := ParseNextKey(at + 1);
    }

    method SeekToFirst()
      requires Inv()
      modifies this
      ensures Inv() && at == 0
    {
      SeekToRestartPoint(0);
      var _ := ParseNextKey(0);
    }

    /** Scans forward from entry m until the entry that ends at `limit`, which is the start of entry n. */
    method ScanUpTo(limit: nat, ghost m: nat, ghost n: nat)
      requires Fixed() && !corrupt && Ready(m) && m <= n <= |es| && limit == offs[n] && (m == n ==> n == |es|)
      modifies this
      ensures Inv() && at == if m == n then n else n - 1
    {
      var ok := ParseNextKey(m);
      while ok && valueOffset + valueLength < limit
        invariant Inv() && ok == (m < n) && m <= at <= n && (m < n ==> at < n)
        decreases n - at
      {
        ok := ParseNextKey(at + 1);
      }
    }

    method SeekToLast()
      requires Inv()
      modifies this
      ensures Inv() && at == if es == [] then 0 else |es| - 1
    {
      SeekToRestartPoint(numRestarts - 1);
      ScanUpTo(restarts, starts[numRestarts - 1], |es|);
    }

    /** Seek: binary search on the restart points, then a scan: the first entry not below the target. */
    method Seek(target: Text)
      requires Inv() && Transitive(less) && Ascending(less, es)
      modifies this
      ensures Inv() && (forall i | 0 <= i < at :: less(es[i].key, target))
      ensures at < |es| ==> !less(es[at].key, target)
    {
      var left := FindRestart(target);
      SeekToRestartPoint(left);
      KeysBelow(less, es, starts[left], target);
      var ok := ParseNextKey(starts[left]);
      ScanTo(target, ok);
    }

    /** The linear search after the binary one. */
    method ScanTo(target: Text, found: bool)
      requires Inv() && found == (at < |es|) && forall i | 0 <= i < at :: less(es[i].key, target)
      modifies this
      ensures Inv() && (forall i | 0 <= i < at :: less(es[i].key, target))
      ensures at < |es| ==> !less(es[at].key, target)
    {
      var ok := found;
      while ok && less(key, target)
        invariant Inv() && ok == (at < |es|) && forall i | 0 <= i < at :: less(es[i].key, target)
        decreases |es| - at
      {
        ok := ParseNextKey(at + 1);
      }
    }

    /** The key of the entry at a restart point. */
    method RestartKey(i: nat) returns (k: Text)
      requires Fixed() && i < numRestarts && starts[i] < |es|
      ensures k == es[starts[i]].key
    {
      var offset := GetRestartPoint(i);
      ghost var m := starts[i];
      assert EntryIs(c, data, offs[m], offs[m + 1], offs[|es|], shared[m], es[m]);
      var d := c.entry(data[offset..restarts]);
      k := data[offset + d.value.header..offset + d.value.header + d.value.unshared];
    }

    /** The last restart point with a key below the target, or the first. */
    method FindRestart(target: Text) returns (left: nat)
      requires Fixed()
      ensures left < numRestarts && (left > 0 ==> less(es[starts[left]].key, target))
      ensures left + 1 < numRestarts ==> !less(es[starts[left + 1]].key, target)
    {
      left := 0;
      var right := numRestarts - 1;
      while left < right
        invariant 0 <= left <= right < numRestarts
        invariant left > 0 ==> less(es[starts[left]].key, target)
        invariant right + 1 < numRestarts ==> !less(es[starts[right + 1]].key, target)
      {
        var mid := (left + right + 1) / 2;
        var k := RestartKey(mid);
        if less(k, target) {
          left := mid;
        } else {
          right := mid - 1;
        }
      }
    }

    /** Back to a restart point before the current entry, and forward again. */
    method Prev()
      requires Inv() && at < |es|
      modifies this
      ensures Inv() && at == if old(at) == 0 then |es| else old(at) - 1
    {
      ghost var m := at;
      var original := current;
      var point := GetRestartPoint(restartIndex);
      while point >= original
        invariant Fixed() && !corrupt && restartIndex < |starts| && starts[restartIndex] <= m < |es|
                  && original == offs[m]
        invariant point == offs[starts[restartIndex]]
        decreases restartIndex
      {
        if restartIndex == 0 {
          current := restarts;
          restartIndex := numRestarts;
          at := |es|;
          return;
        }
        restartIndex := restartIndex - 1;
        point := GetRestartPoint(restartIndex);
      }
      assert starts[restartIndex] != m;
      SeekToRestartPoint(restartIndex);
      ScanUpTo(original, starts[restartIndex], m);
    }
  }

  lemma KeysBelow(less: Order, es: seq<Pair>, m: nat, target: Text)
    requires Transitive(less) && Ascending(less, es) && m <= |es| && (m > 0 ==> m < |es| && less(es[m].key, target))
    ensures forall i | 0 <= i < m :: less(es[i].key, target)
  {
    forall i | 0 <= i < m ensures less(es[i].key, target) {
      assert less(es[i].key, es[m].key);
    }
  }

  /** The number of restart points, from the last word of the block. */
  method CountRestarts(data: Text, ghost cs: seq<Text>, ghost starts: seq<nat>) returns (n: nat)
    requires IsBlock(data, cs, starts)
    ensures n == |starts|
  {
    BlockSize(data, cs, starts);
    n := FromLittle(data[|data| - 4..]);
  }

  /** Where the restart words of a block begin, and how many they are. */
  method OpenBlock(data: Text, ghost es: seq<Pair>, ghost starts: seq<nat>)
    returns (c: Codec, restarts: nat, n: nat, ghost offs: seq<nat>, ghost shared: seq<nat>)
    requires IsBlock(data, Chunks(es, starts), starts) && forall i | 0 <= i < |es| :: |es[i].key| < TWO32
    ensures Readable(c, data, es, starts, offs, shared) && n == |starts| && restarts == offs[|es|]
  {
    offs, shared := BlockFacts(data, es, starts);
    n := CountRestarts(data, Chunks(es, starts), starts);
    c, restarts := BlockCodec(), |data| - (1 + n) * 4;
  }

  lemma Snoc(es: seq<Pair>, a: nat, b: nat)
    requires a <= b < |es|
    ensures es[a..b] + [es[b]] == es[a..b + 1]
  {
  }

  lemma BlockFacts(data: Text, es: seq<Pair>, starts: seq<nat>) returns (offs: seq<nat>, shared: seq<nat>)
    requires IsBlock(data, Chunks(es, starts), starts) && forall i | 0 <= i < |es| :: |es[i].key| < TWO32
    ensures Readable(BlockCodec(), data, es, starts, offs, shared) && |data| - (1 + |starts|) * 4 == offs[|es|]
  {
    BlockSize(data, Chunks(es, starts), starts);
    BlockIsReadable(data, es, starts);
    offs, shared := AllOffsets(Chunks(es, starts)), AllShared(es, starts);
  }

  lemma BlockSize(data: Text, cs: seq<Text>, starts: seq<nat>)
    requires IsBlock(data, cs, starts)
    ensures |data| >= 4 && FromLittle(data[|data| - 4..]) == |starts| && |data| - (1 + |starts|) * 4 == Offset(cs, |cs|)
  {
    BlockParts(data, cs, starts);
    assert Pow256(4) == TWO32;
    LittleRoundTrip(|starts|, 4);
  }

  /** Builds a block entry by entry and reads it back from the first entry to the last. */
  method WriteAndRead(less: Order, pairs: seq<Pair>, interval: nat) returns (block: Text, read: seq<Pair>)
    requires interval >= 1 && forall i | 0 <= i < |pairs| :: |pairs[i].key| < TWO32
    ensures |block| < TWO32 ==> read == pairs
  {
    var builder := new BlockBuilder(interval);
    for i := 0 to |pairs|
      invariant fresh(builder) && builder.Valid() && builder.es == pairs[0..i]
    {
      Snoc(pairs, 0, i);
      builder.Add(pairs[i].key, pairs[i].value);
    }
    block := builder.Finish();
    read := [];
    if |block| < TWO32 {
      assert builder.es == pairs;
      read := ReadBlock(less, block, pairs, builder.starts);
    }
  }

  method ReadBlock(less: Order, block: Text, ghost pairs: seq<Pair>, ghost starts: seq<nat>) returns (read: seq<Pair>)
    requires GoodStarts(|pairs|, starts)
    requires block == BlockOf(Chunks(pairs, starts), starts) && |block| < TWO32
    requires forall i | 0 <= i < |pairs| :: |pairs[i].key| < TWO32
    ensures read == pairs
  {
    NoEmptyChunk(pairs, starts);
    var iter := new Iter(less, block, pairs, starts);
    iter.SeekToFirst();
    read := iter.ReadRest();
  }
}
