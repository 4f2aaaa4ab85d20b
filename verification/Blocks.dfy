/** BlockBuilder and Block::Iter (table/block_builder.cc, table/block.cc).  Keys are byte strings under any transitive
    order, as the comparator is a parameter of both. */
module Blocks {
  import opened Bytes
  import opened BlockFormat

  /** The buffer and the restart points of these entries. */
  ghost predicate Holds(es: seq<Pair>, starts: seq<nat>, buffer: Text, restarts: seq<nat>) {
    && GoodStarts(|es|, starts)
    && buffer == Join(Chunks(es, starts), |es|) && restarts == Offsets(Chunks(es, starts), starts)
  }

  /** The entries 0, interval, 2 * interval and so on are restart points, and no others. */
  ghost predicate Every(interval: nat, n: nat, starts: seq<nat>) {
    && starts != [] && starts[0] == 0
    && (forall i | 0 < i < |starts| :: starts[i] == starts[i - 1] + interval && starts[i] < n)
    && n <= starts[|starts| - 1] + interval
  }

  /** The key last added, and how many entries the last run has. */
  ghost predicate InRun(es: seq<Pair>, starts: seq<nat>, lastKey: Text, counter: nat, interval: nat) {
    && starts != [] && (es != [] ==> lastKey == es[|es| - 1].key) && (es == [] ==> lastKey == [] && starts == [0])
    && counter == |es| - starts[|starts| - 1] <= interval && Every(interval, |es|, starts)
  }

  lemma InRunNext(es: seq<Pair>, starts: seq<nat>, lastKey: Text, counter: nat, interval: nat, e: Pair)
    requires InRun(es, starts, lastKey, counter, interval) && counter < interval
    ensures InRun(es + [e], starts, e.key, counter + 1, interval)
  {
  }

  lemma InRunRestart(es: seq<Pair>, starts: seq<nat>, lastKey: Text, interval: nat, e: Pair)
    requires interval >= 1 && InRun(es, starts, lastKey, interval, interval)
    ensures es != [] && InRun(es + [e], starts + [|es|], e.key, 1, interval)
  {
  }

  class BlockBuilder {
    const interval: nat
    var buffer: Text
    var restarts: seq<nat>
    var counter: nat
    var lastKey: Text
    ghost var es: seq<Pair>
    ghost var starts: seq<nat>

    /** The buffer holds the entries added so far; every `interval`-th of them is a restart point. */
    ghost predicate Valid()
      reads this
    {
      interval >= 1 && Holds(es, starts, buffer, restarts) && InRun(es, starts, lastKey, counter, interval)
    }

    constructor (interval: nat)
      requires interval >= 1
      ensures Valid() && es == [] && this.interval == interval
    {
      this.interval := interval;
      buffer, restarts, counter, lastKey := [], [0], 0, [];
      es, starts := [], [0];
    }

    method Add(key: Text, value: Text)
      requires Valid()
      modifies this
      ensures Valid() && es == old(es) + [Pair(key, value)]
    {
      if counter < interval {
        AddToRun(key, value);
      } else {
        AddAtRestart(key, value);
      }
    }

    /** Shares what it can with the previous key. */
    method AddToRun(key: Text, value: Text)
      requires Valid() && counter < interval
      modifies this
      ensures Valid() && es == old(es) + [Pair(key, value)]
    {
      var shared := SharedPrefix(key);
      AddedShared(es, starts, buffer, restarts, Pair(key, value), lastKey, shared);
      InRunNext(es, starts, lastKey, counter, interval, Pair(key, value));
      Append(key, value, shared, starts);
    }

    /** Restarts compression. */
    method AddAtRestart(key: Text, value: Text)
      requires Valid() && counter == interval
      modifies this
      ensures Valid() && es == old(es) + [Pair(key, value)]
    {
      ghost var starts' := starts + [|es|];
      AddedRestart(es, starts, buffer, restarts, Pair(key, value), starts');
      restarts := restarts + [|buffer|];
      counter := 0;
      InRunRestart(es, starts, lastKey, interval, Pair(key, value));
      Append(key, value, 0, starts');
    }

    /** Appends an entry and updates the state. */
    method Append(key: Text, value: Text, shared: nat, ghost starts': seq<nat>)
      requires shared <= |key| && shared <= |lastKey| && lastKey[..shared] == key[..shared]
      modifies this`buffer, this`lastKey, this`counter, this`es, this`starts
      ensures buffer == old(buffer) + EntryBytes(shared, Pair(key, value)) && lastKey == key
              && counter == old(counter) + 1
      ensures es == old(es) + [Pair(key, value)] && starts == starts'
    {
      buffer := buffer + EntryBytes(shared, Pair(key, value));
      Rejoin(lastKey, key, shared);
      lastKey := lastKey[..shared] + key[shared..];
      counter := counter + 1;
      es, starts := es + [Pair(key, value)], starts';
    }

    /** How much of the previous key is shared. */
    method SharedPrefix(key: Text) returns (shared: nat)
      ensures IsCommon(lastKey, key, shared)
    {
      shared := 0;
      while shared < |lastKey| && shared < |key| && lastKey[shared] == key[shared]
        invariant shared <= |lastKey| && shared <= |key| && lastKey[..shared] == key[..shared]
      {
        assert lastKey[..shared + 1] == lastKey[..shared] + [lastKey[shared]];
        assert key[..shared + 1] == key[..shared] + [key[shared]];
        shared := shared + 1;
      }
    }

    method Finish() returns (block: Text)
      requires Valid()
      modifies this`buffer
      ensures block == BlockOf(Chunks(es, starts), starts) && Every(interval, |es|, starts)
    {
      var i := 0;
      var words: Text := [];
      while i < |restarts|
        invariant 0 <= i <= |restarts| && words == Words(restarts[..i])
      {
        assert restarts[..i + 1][..i] == restarts[..i];
        words := words + Little(restarts[i], 4);
        i := i + 1;
      }
      assert restarts[..i] == restarts;
      block := buffer + words + Little(|restarts|, 4);
    }
  }

  lemma Rejoin(last: Text, key: Text, n: nat)
    requires n <= |last| && n <= |key| && last[..n] == key[..n]
    ensures last[..n] + key[n..] == key
  {
  }

  lemma SameAt(a: Text, b: Text, n: nat, i: nat)
    requires n <= |a| && n <= |b| && a[..n] == b[..n] && i < n
    ensures a[i] == b[i]
  {
    assert a[i] == a[..n][i] && b[i] == b[..n][i];
  }

  /** n is the length of the longest common prefix. */
  ghost predicate IsCommon(a: Text, b: Text, n: nat) {
    n <= |a| && n <= |b| && a[..n] == b[..n] && (n < |a| && n < |b| ==> a[n] != b[n])
  }

  lemma CommonUnique(a: Text, b: Text, n: nat)
    requires IsCommon(a, b, n)
    ensures n == Common(a, b)
  {
    var m := Common(a, b);
    if m < n {
      SameAt(a, b, n, m);
    } else if n < m {
      SameAt(a, b, m, n);
    }
  }

  lemma AddedStarts(es: seq<Pair>, starts: seq<nat>, e: Pair, starts': seq<nat>)
    requires GoodStarts(|es|, starts) && (starts' == starts || (starts' == starts + [|es|] && es != []))
    ensures GoodStarts(|es| + 1, starts') && (|es| in starts' <==> starts' != starts || es == [])
  {
    assert starts' != starts ==> starts'[|starts|] == |es|;
  }

  lemma AddedShared(es: seq<Pair>, starts: seq<nat>, buffer: Text, restarts: seq<nat>, e: Pair, last: Text, shared: nat)
    requires Holds(es, starts, buffer, restarts) && last == if es == [] then [] else es[|es| - 1].key
    requires IsCommon(last, e.key, shared)
    ensures Holds(es + [e], starts, buffer + EntryBytes(shared, e), restarts)
  {
    AddedStarts(es, starts, e, starts);
    AddedChunk(es, starts, e, starts);
    AddedBytes(Chunks(es, starts), Chunks(es + [e], starts), starts, starts);
    CommonUnique(last, e.key, shared);
    assert SharedAt(es + [e], starts, |es|) == shared;
  }

  lemma AddedRestart(es: seq<Pair>, starts: seq<nat>, buffer: Text, restarts: seq<nat>, e: Pair, starts': seq<nat>)
    requires Holds(es, starts, buffer, restarts) && es != [] && starts' == starts + [|es|]
    ensures Holds(es + [e], starts', buffer + EntryBytes(0, e), restarts + [|buffer|])
  {
    AddedStarts(es, starts, e, starts');
    AddedChunk(es, starts, e, starts');
    AddedBytes(Chunks(es, starts), Chunks(es + [e], starts'), starts, starts');
    assert SharedAt(es + [e], starts', |es|) == 0;
  }

  /** Adding an entry, at a restart point or not, leaves what was there alone. */
  lemma AddedChunk(es: seq<Pair>, starts: seq<nat>, e: Pair, starts': seq<nat>)
    requires starts' == starts || starts' == starts + [|es|]
    ensures Chunks(es + [e], starts') == Chunks(es, starts) + [EntryBytes(SharedAt(es + [e], starts', |es|), e)]
  {
    forall i: nat | i < |es| ensures SharedAt(es + [e], starts', i) == SharedAt(es, starts, i) {
      SharedStays(es, starts, e, starts', i);
    }
  }

  lemma SharedStays(es: seq<Pair>, starts: seq<nat>, e: Pair, starts': seq<nat>, i: nat)
    requires i < |es| && (starts' == starts || starts' == starts + [|es|])
    ensures SharedAt(es + [e], starts', i) == SharedAt(es, starts, i)
  {
    assert i in starts' <==> i in starts;
  }

  lemma AddedBytes(cs: seq<Text>, cs': seq<Text>, starts: seq<nat>, starts': seq<nat>)
    requires |cs'| == |cs| + 1 && cs'[..|cs|] == cs && (starts' == starts || starts' == starts + [|cs|])
    requires forall i | 0 <= i < |starts| :: starts[i] <= |cs|
    ensures Join(cs', |cs'|) == Join(cs, |cs|) + cs'[|cs|]
    ensures Offsets(cs', starts') == Offsets(cs, starts) + (if starts' == starts then [] else [Offset(cs, |cs|)])
  {
    forall n: nat | n <= |cs| ensures Join(cs', n) == Join(cs, n) {
      JoinIsLocal(cs', cs, n);
    }
  }
}
