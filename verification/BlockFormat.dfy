/** Blocks of sorted entries with prefix-compressed keys and restart points (table/block_builder.cc, table/block.cc) as
    functions on bytes. */
module BlockFormat {
  import opened Options
  import opened Bytes
  import opened Varints
  import opened Coding

  datatype Pair = Pair(key: Text, value: Text)

  // ----- what a builder writes -----

  function Common(a: Text, b: Text): (n: nat)
    ensures n <= |a| && n <= |b| && a[..n] == b[..n]
    ensures n < |a| && n < |b| ==> a[n] != b[n]
    decreases |a|, 1
  {
    if a == [] || b == [] || a[0] != b[0] then 0 else CommonTail(a, b)
  }

  function CommonTail(a: Text, b: Text): (n: nat)
    requires a != [] && b != [] && a[0] == b[0]
    ensures 0 < n <= |a| && n <= |b| && a[..n] == b[..n]
    ensures n < |a| && n < |b| ==> a[n] != b[n]
    decreases |a|, 0
  {
    var n := Common(a[1..], b[1..]);
    assert a[..n + 1] == [a[0]] + a[1..][..n] && b[..n + 1] == [b[0]] + b[1..][..n];
    n + 1
  }

  function Header(shared: nat, unshared: nat, length: nat): (h: Text)
    ensures |h| >= 3
  {
    Varint(shared) + Varint(unshared) + Varint(length)
  }

  function EntryBytes(shared: nat, e: Pair): Text
    requires shared <= |e.key|
  {
    Header(shared, |e.key| - shared, |e.value|) + e.key[shared..] + e.value
  }

  /** How many bytes of its key entry i shares with the one before: none at a restart point. */
  function SharedAt(es: seq<Pair>, starts: seq<nat>, i: nat): (n: nat)
    requires i < |es|
    ensures n <= |es[i].key|
    ensures i > 0 ==> n <= |es[i - 1].key| && es[i].key[..n] == es[i - 1].key[..n]
  {
    if i == 0 || i in starts then 0 else Common(es[i - 1].key, es[i].key)
  }

  /** The entries as they are written.  `starts` are the indices of those at restart points. */
  function Chunks(es: seq<Pair>, starts: seq<nat>): (r: seq<Text>)
    ensures |r| == |es|
  {
    seq(|es|, i requires 0 <= i < |es| => EntryBytes(SharedAt(es, starts, i), es[i]))
  }

  /** The first n of some texts, one after the other. */
  function Join(cs: seq<Text>, n: nat): Text
    requires n <= |cs|
  {
    if n == 0 then [] else Join(cs, n - 1) + cs[n - 1]
  }

  function Offset(cs: seq<Text>, n: nat): nat
    requires n <= |cs|
  {
    |Join(cs, n)|
  }

  ghost predicate GoodStarts(n: nat, starts: seq<nat>) {
    && starts != [] && starts[0] == 0
    && (forall i, j | 0 <= i < j < |starts| :: starts[i] < starts[j])
    && (forall i | 0 < i < |starts| :: starts[i] < n)
  }

  function Offsets(cs: seq<Text>, starts: seq<nat>): (r: seq<nat>)
    requires forall i | 0 <= i < |starts| :: starts[i] <= |cs|
    ensures |r| == |starts|
  {
    seq(|starts|, i requires 0 <= i < |starts| => Offset(cs, starts[i]))
  }

  function AllOffsets(cs: seq<Text>): (r: seq<nat>)
    ensures |r| == |cs| + 1 && forall n | 0 <= n <= |cs| :: r[n] == Offset(cs, n)
  {
    seq(|cs| + 1, n requires 0 <= n <= |cs| => Offset(cs, n))
  }

  function Words(ws: seq<nat>): (r: Text)
    ensures |r| == 4 * |ws|
  {
    if ws == [] then [] else Words(ws[..|ws| - 1]) + Little(ws[|ws| - 1], 4)
  }

  /** A finished block: the entries, the offsets of the restart points and their number. */
  function BlockOf(cs: seq<Text>, starts: seq<nat>): Text
    requires forall i | 0 <= i < |starts| :: starts[i] <= |cs|
  {
    Join(cs, |cs|) + Words(Offsets(cs, starts)) + Little(|starts|, 4)
  }

  lemma {:induction false} JoinSplits(cs: seq<Text>, m: nat, n: nat) returns (tail: Text)
    requires m <= n <= |cs|
    ensures Join(cs, n) == Join(cs, m) + tail
    ensures m < n ==> cs[m] <= tail
    decreases n
  {
    if m == n {
      tail := [];
    } else {
      var before := JoinSplits(cs, m, n - 1);
      tail := before + cs[n - 1];
    }
  }

  /** Offsets order entries, as no entry is empty. */
  lemma OffsetOrder(cs: seq<Text>, m: nat, n: nat)
    requires m <= |cs| && n <= |cs| && forall i | 0 <= i < |cs| :: cs[i] != []
    ensures Offset(cs, m) < Offset(cs, n) <==> m < n
  {
    if m <= n {
      var tail := JoinSplits(cs, m, n);
    } else {
      var tail := JoinSplits(cs, n, m);
    }
  }

  lemma OffsetBound(cs: seq<Text>, m: nat)
    requires m <= |cs| && forall i | 0 <= i < |cs| :: cs[i] != []
    ensures Offset(cs, m) <= Offset(cs, |cs|)
  {
    OffsetOrder(cs, |cs|, m);
  }

  lemma {:induction false} JoinIsLocal(cs: seq<Text>, ds: seq<Text>, n: nat)
    requires n <= |cs| && n <= |ds| && forall i | 0 <= i < n :: cs[i] == ds[i]
    ensures Join(cs, n) == Join(ds, n)
    decreases n
  {
    if n > 0 { JoinIsLocal(cs, ds, n - 1); }
  }

  lemma SubSlice(data: Text, at: nat, n: nat, i: nat, k: nat)
    requires at + n <= |data| && i + k <= n
    ensures data[at..at + n][i..i + k] == data[at + i..at + i + k]
  {
    var part, whole := data[at..at + n][i..i + k], data[at + i..at + i + k];
    assert |part| == |whole| && forall j | 0 <= j < k :: part[j] == data[at + i + j] == whole[j];
  }

  lemma FrontSlice(a: Text, b: Text, i: nat, j: nat)
    requires i <= j <= |a|
    ensures (a + b)[i..j] == a[i..j]
  {
  }

  lemma {:induction false} WordAt(ws: seq<nat>, i: nat)
    requires i < |ws| && forall j | 0 <= j < |ws| :: ws[j] < TWO32
    ensures FromLittle(Words(ws)[4 * i..4 * i + 4]) == ws[i]
    decreases |ws|
  {
    var n := |ws| - 1;
    if i == n {
      assert Words(ws)[4 * i..4 * i + 4] == Little(ws[n], 4);
      assert Pow256(4) == TWO32;
      LittleRoundTrip(ws[n], 4);
    } else {
      WordAt(ws[..n], i);
      FrontSlice(Words(ws[..n]), Little(ws[n], 4), 4 * i, 4 * i + 4);
    }
  }

  // ----- what a reader sees -----

  datatype Decoded = Decoded(shared: nat, unshared: nat, length: nat, header: nat)

  /** DecodeEntry on the bytes from an entry up to the limit, with its fast path for three short values. */
  function DecodeEntry(b: Text): (r: Option<Decoded>)
    ensures r.Some? ==> r.value.header <= |b|
  {
    if |b| < 3 then None
    else
      var d := Lengths(b);
      if d.Some? && |b| - d.value.header < (d.value.unshared + d.value.length) % TWO32 then None else d
  }

  function Lengths(b: Text): (r: Option<Decoded>)
    requires |b| >= 3
    ensures r.Some? ==> r.value.header <= |b|
  {
    if b[0] < 128 && b[1] < 128 && b[2] < 128 then Some(Decoded(b[0], b[1], b[2], 3)) else DecodeVarints(b)
  }

  function DecodeVarints(b: Text): (r: Option<Decoded>)
    ensures r.Some? ==> r.value.header <= |b|
  {
    match GetVarint32(b)
    case Got(shared, b1) =>
      (match GetVarint32(b1)
       case Got(unshared, b2) =>
         (match GetVarint32(b2)
          case Got(length, b3) => Some(Decoded(shared, unshared, length, |b| - |b3|))
          case _ => None)
       case _ => None)
    case _ => None
  }

  lemma HeaderDecodes(shared: nat, unshared: nat, length: nat, rest: Text)
    requires shared < TWO32 && unshared < TWO32 && length < TWO32
    ensures DecodeVarints(Header(shared, unshared, length) + rest)
            == Some(Decoded(shared, unshared, length, |Header(shared, unshared, length)|))
  {
    var v1, v2, v3 := Varint(shared), Varint(unshared), Varint(length);
    Assoc(v1 + v2, v3, rest);
    Assoc(v1, v2, v3 + rest);
    Varint32RoundTrip(shared, v2 + (v3 + rest));
    Varint32RoundTrip(unshared, v3 + rest);
    Varint32RoundTrip(length, rest);
  }

  lemma ShortByte(v: nat, rest: Text)
    ensures (Varint(v) + rest)[0] < 128 <==> v < 128
    ensures v < 128 ==> Varint(v) == [v] && (Varint(v) + rest)[1..] == rest && (Varint(v) + rest)[0] == v
  {
  }

  /** The fast path reads the same three values. */
  lemma FastPath(shared: nat, unshared: nat, length: nat, rest: Text)
    requires var b := Header(shared, unshared, length) + rest; b[0] < 128 && b[1] < 128 && b[2] < 128
    ensures var b := Header(shared, unshared, length) + rest;
            b[0] == shared && b[1] == unshared && b[2] == length && |Header(shared, unshared, length)| == 3
  {
    var v1, v2, v3 := Varint(shared), Varint(unshared), Varint(length);
    var b := Header(shared, unshared, length) + rest;
    Assoc(v1 + v2, v3, rest);
    Assoc(v1, v2, v3 + rest);
    ShortByte(shared, v2 + (v3 + rest));
    assert b[1] == (v2 + (v3 + rest))[0];
    ShortByte(unshared, v3 + rest);
    assert b[2] == (v3 + rest)[0];
    ShortByte(length, rest);
  }

  lemma HeaderLengths(shared: nat, unshared: nat, length: nat, rest: Text)
    requires shared < TWO32 && unshared < TWO32 && length < TWO32
    ensures Lengths(Header(shared, unshared, length) + rest)
            == Some(Decoded(shared, unshared, length, |Header(shared, unshared, length)|))
  {
    var b := Header(shared, unshared, length) + rest;
    HeaderDecodes(shared, unshared, length, rest);
    if b[0] < 128 && b[1] < 128 && b[2] < 128 { FastPath(shared, unshared, length, rest); }
  }

  lemma HeaderFirst(shared: nat, e: Pair, rest: Text)
    requires shared <= |e.key|
    ensures EntryBytes(shared, e) + rest
         == Header(shared, |e.key| - shared, |e.value|) + (e.key[shared..] + e.value + rest)
  {
  }

  /** Decoding an entry gives back its lengths, whichever path is taken. */
  lemma EntryDecodes(shared: nat, e: Pair, rest: Text)
    requires shared <= |e.key| < TWO32 && |EntryBytes(shared, e)| < TWO32
    ensures DecodeEntry(EntryBytes(shared, e) + rest)
            == Some(Decoded(shared, |e.key| - shared, |e.value|, |Header(shared, |e.key| - shared, |e.value|)|))
  {
    var h, tail := Header(shared, |e.key| - shared, |e.value|), e.key[shared..] + e.value + rest;
    HeaderFirst(shared, e, rest);
    HeaderLengths(shared, |e.key| - shared, |e.value|, tail);
  }
}
