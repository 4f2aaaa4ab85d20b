/** The Bloom filter policy of util/bloom.cc: no key that went into a filter is ever refused by it.  The hash is a
    parameter; filters are bytes whose last one is the number of probes. */
module Blooms {
  import opened Bytes
  import opened Varints
  import opened Bits

  // ----- probes -----

  /** uint32_t. */
  type Word = h: nat | h < 0x1_0000_0000

  /** The rotated hash that is added from probe to probe. */
  function Delta(h: Word): Word {
    h / 0x2_0000 + h % 0x2_0000 * 0x8000
  }

  /** The j-th probe of a key with hash h, in 32 bits. */
  function Probe(h: Word, j: nat): nat {
    (h + j * Delta(h)) % TWO32
  }

  /** The bit is set in the array of bytes. */
  predicate HasBit(a: seq<Byte>, bit: nat)
    requires bit / 8 < |a|
  {
    TestBit(a[bit / 8], bit % 8)
  }

  ghost predicate HasProbes(a: seq<Byte>, h: Word, n: nat)
    requires |a| > 0
  {
    forall j: nat | j < n :: ProbeSet(a, h, j)
  }

  ghost predicate ProbeSet(a: seq<Byte>, h: Word, j: nat)
    requires |a| > 0
  {
    var bit := Probe(h, j) % (8 * |a|);
    bit / 8 < |a| && HasBit(a, bit)
  }

  lemma NextProbe(h: Word, j: nat)
    ensures Probe(h, j + 1) == (Probe(h, j) + Delta(h)) % TWO32
  {
    assert h + (j + 1) * Delta(h) == (h + j * Delta(h)) + Delta(h);
    ModSum(h + j * Delta(h), Delta(h));
  }

  lemma ModSum(a: nat, b: nat)
    ensures (a + b) % TWO32 == (a % TWO32 + b) % TWO32
  {
  }

  lemma FirstProbe(h: Word)
    ensures Probe(h, 0) == h % TWO32
  {
  }

  /** Setting a bit of the array. */
  function WithBit(a: seq<Byte>, bit: nat): (r: seq<Byte>)
    requires bit / 8 < |a|
    ensures |r| == |a|
  {
    a[bit / 8 := ByteWithBit(a[bit / 8], bit % 8)]
  }

  function ByteWithBit(b: Byte, i: nat): Byte
    requires i < 8
  {
    assert Pow2(8) == 256;
    OrBitsSmall(b, i, 8);
    OrBits(b, 1, i)
  }

  lemma WithBitKeeps(a: seq<Byte>, bit: nat, other: nat)
    requires bit / 8 < |a| && other / 8 < |a|
    ensures HasBit(WithBit(a, bit), other) <==> bit == other || HasBit(a, other)
  {
    SetBit(a[bit / 8], bit % 8, other % 8);
  }

  /** One of the first n probes of a key with hash h is this bit of `len` bytes. */
  ghost predicate IsProbe(len: nat, h: Word, n: nat, bit: nat)
    requires len > 0
  {
    exists j: nat :: j < n && Probe(h, j) % (8 * len) == bit
  }

  /** The bits of b are those of a and the first n probes of h, and no others. */
  ghost predicate AddsProbes(a: seq<Byte>, b: seq<Byte>, h: Word, n: nat)
    requires |a| > 0
  {
    |a| == |b| && forall bit: nat | bit / 8 < |a| :: HasBit(b, bit) <==> HasBit(a, bit) || IsProbe(|a|, h, n, bit)
  }

  /** The bit is a probe of one of the keys. */
  ghost predicate IsKeyProbe(len: nat, hash: Text -> Word, keys: seq<Text>, k: nat, bit: nat)
    requires len > 0
  {
    exists i :: 0 <= i < |keys| && IsProbe(len, hash(keys[i]), k, bit)
  }

  /** The bits set are the probes of the keys, and no others. */
  ghost predicate HoldsKeys(a: seq<Byte>, hash: Text -> Word, keys: seq<Text>, k: nat)
    requires |a| > 0
  {
    forall bit: nat | bit / 8 < |a| :: HasBit(a, bit) <==> IsKeyProbe(|a|, hash, keys, k, bit)
  }

  /** A filter for these keys: at least 64 bits, of which the probes of the keys are set and no others, and the number
      of probes. */
  ghost predicate IsBloom(hash: Text -> Word, bitsPerKey: nat, k: nat, keys: seq<Text>, filter: Text) {
    var bits := if |keys| * bitsPerKey < 64 then 64 else |keys| * bitsPerKey;
    var n := (bits + 7) / 8;
    |filter| == n + 1 && filter[n] == k && HoldsKeys(filter[..n], hash, keys, k)
  }

  /** No key that went into a filter is ever refused. */
  lemma BloomCovers(hash: Text -> Word, bitsPerKey: nat, k: nat, keys: seq<Text>, filter: Text, key: Text)
    requires IsBloom(hash, bitsPerKey, k, keys, filter) && key in keys
    ensures MayMatch(hash, key, filter)
  {
    var i :| 0 <= i < |keys| && keys[i] == key;
    HeldIsFound(filter[..|filter| - 1], hash, keys, k, i);
  }

  /** CreateFilter. */
  method CreateFilter(hash: Text -> Word, bitsPerKey: nat, k: nat, keys: seq<Text>) returns (filter: Text)
    requires 1 <= k <= 30
    ensures IsBloom(hash, bitsPerKey, k, keys, filter)
    ensures forall key | key in keys :: MayMatch(hash, key, filter)
  {
    var bits := |keys| * bitsPerKey;
    if bits < 64 {
      bits := 64;
    }
    var bytes := (bits + 7) / 8;
    var a := new Byte[bytes](_ => 0);
    NothingHeld(a[..], hash, k);
    for i := 0 to |keys|
      invariant fresh(a) && HoldsKeys(a[..], hash, keys[..i], k)
    {
      ghost var before := a[..];
      AddProbes(a, hash(keys[i]), k);
      OneMoreKey(before, a[..], hash, keys, i, k);
    }
    filter := a[..] + [k];
    assert filter[..|filter| - 1] == a[..] && keys[..|keys|] == keys;
    forall key | key in keys ensures MayMatch(hash, key, filter) {
      BloomCovers(hash, bitsPerKey, k, keys, filter, key);
    }
  }

  lemma NothingHeld(a: seq<Byte>, hash: Text -> Word, k: nat)
    requires |a| > 0 && forall i | 0 <= i < |a| :: a[i] == 0
    ensures HoldsKeys(a, hash, [], k)
  {
    forall bit: nat | bit / 8 < |a| ensures !HasBit(a, bit) { ZeroBit(bit % 8); }
  }

  lemma OneMoreKey(a: seq<Byte>, b: seq<Byte>, hash: Text -> Word, keys: seq<Text>, i: nat, k: nat)
    requires |a| > 0 && i < |keys| && HoldsKeys(a, hash, keys[..i], k) && AddsProbes(a, b, hash(keys[i]), k)
    ensures HoldsKeys(b, hash, keys[..i + 1], k)
  {
    forall bit: nat | bit / 8 < |a|
      ensures IsKeyProbe(|a|, hash, keys[..i + 1], k, bit) <==>
              IsKeyProbe(|a|, hash, keys[..i], k, bit) || IsProbe(|a|, hash(keys[i]), k, bit)
    {
      assert keys[..i + 1] == keys[..i] + [keys[i]];
      if IsProbe(|a|, hash(keys[i]), k, bit) { assert keys[..i + 1][i] == keys[i]; }
      if IsKeyProbe(|a|, hash, keys[..i], k, bit) {
        var m :| 0 <= m < i && IsProbe(|a|, hash(keys[..i][m]), k, bit);
        assert keys[..i + 1][m] == keys[..i][m];
      }
    }
  }

  /** The probes of a key that went in are set. */
  lemma HeldIsFound(a: seq<Byte>, hash: Text -> Word, keys: seq<Text>, k: nat, i: nat)
    requires |a| > 0 && i < |keys| && HoldsKeys(a, hash, keys, k)
    ensures HasProbes(a, hash(keys[i]), k)
  {
    forall j: nat | j < k ensures ProbeSet(a, hash(keys[i]), j) {
      var bit := Probe(hash(keys[i]), j) % (8 * |a|);
      InArray(Probe(hash(keys[i]), j), |a|);
      assert IsProbe(|a|, hash(keys[i]), k, bit);
      assert IsKeyProbe(|a|, hash, keys, k, bit);
    }
  }

  lemma InArray(p: nat, n: nat)
    requires n > 0
    ensures p % (8 * n) / 8 < n
  {
  }

  /** The inner loop of CreateFilter. */
  method AddProbes(a: array<Byte>, h0: Word, k: nat)
    requires a.Length > 0
    modifies a
    ensures AddsProbes(old(a[..]), a[..], h0, k)
  {
    var h: nat := h0;
    FirstProbe(h0);
    for j := 0 to k
      invariant AddsProbes(old(a[..]), a[..], h0, j) && h == Probe(h0, j)
    {
      var bit := h % (8 * a.Length);
      InArray(h, a.Length);
      ghost var before := a[..];
      a[bit / 8] := ByteWithBit(a[bit / 8], bit % 8);
      assert a[..] == WithBit(before, bit);
      OneMoreProbe(old(a[..]), before, a[..], h0, j, bit);
      NextProbe(h0, j);
      h := (h + Delta(h0)) % TWO32;
    }
  }

  lemma OneMoreProbe(a: seq<Byte>, b: seq<Byte>, c: seq<Byte>, h0: Word, j: nat, bit: nat)
    requires |a| > 0 && AddsProbes(a, b, h0, j) && bit / 8 < |b| && c == WithBit(b, bit)
    requires bit == Probe(h0, j) % (8 * |a|)
    ensures AddsProbes(a, c, h0, j + 1)
  {
    forall other: nat | other / 8 < |a|
      ensures HasBit(c, other) <==> HasBit(a, other) || IsProbe(|a|, h0, j + 1, other)
    {
      WithBitKeeps(b, bit, other);
      assert IsProbe(|a|, h0, j + 1, other) <==> IsProbe(|a|, h0, j, other) || bit == other;
    }
  }

  /** KeyMayMatch. */
  method KeyMayMatch(hash: Text -> Word, key: Text, filter: Text) returns (r: bool)
    ensures r == MayMatch(hash, key, filter)
  {
    if |filter| < 2 {
      return false;
    }
    var a := filter[..|filter| - 1];
    var k := filter[|filter| - 1];
    if k > 30 {
      return true;
    }
    var h: nat := hash(key);
    FirstProbe(hash(key));
    for j := 0 to k
      invariant HasProbes(a, hash(key), j) && h == Probe(hash(key), j)
    {
      var bit := h % (8 * |a|);
      InArray(h, |a|);
      if !HasBit(a, bit) {
        assert !ProbeSet(a, hash(key), j);
        return false;
      }
      NextProbe(hash(key), j);
      h := (h + Delta(hash(key))) % TWO32;
    }
    r := true;
  }

  ghost predicate MayMatch(hash: Text -> Word, key: Text, filter: Text) {
    |filter| >= 2 && (filter[|filter| - 1] > 30 || HasProbes(filter[..|filter| - 1], hash(key), filter[|filter| - 1]))
  }
}
