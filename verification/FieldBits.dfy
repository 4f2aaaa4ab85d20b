/** fields_seen of pb_decode_noinit: one bit for each of the first 64 required fields, in two words of 32 bits. */
module FieldBits {
  import opened Varints
  import opened Bits

  const ALL_BITS: nat := 0xFFFF_FFFF

  const WORD_BITS: nat := 32

  /** The numbers whose bits are set. */
  ghost function BitsOf(words: seq<nat>): set<nat> {
    set i: nat | i < WORD_BITS * |words| && IsSet(words, i)
  }

  predicate IsSet(words: seq<nat>, i: nat)
    requires i < WORD_BITS * |words|
  {
    TestBit(words[i / WORD_BITS], i % WORD_BITS)
  }

  ghost predicate AreWords(words: seq<nat>) {
    forall i | 0 <= i < |words| :: words[i] < Pow2(WORD_BITS)
  }

  /** fields_seen[i >> 5] |= 1 << (i & 31). */
  function WithBit(words: seq<nat>, i: nat): seq<nat>
    requires i < WORD_BITS * |words|
  {
    words[i / WORD_BITS := OrBits(words[i / WORD_BITS], 1, i % WORD_BITS)]
  }

  lemma WithBitSet(words: seq<nat>, i: nat)
    requires AreWords(words) && i < WORD_BITS * |words|
    ensures AreWords(WithBit(words, i)) && |WithBit(words, i)| == |words|
    ensures BitsOf(WithBit(words, i)) == BitsOf(words) + {i}
  {
    var after := WithBit(words, i);
    OrBitsSmall(words[i / WORD_BITS], i % WORD_BITS, WORD_BITS);
    forall j: nat | j < WORD_BITS * |words| ensures IsSet(after, j) <==> IsSet(words, j) || j == i {
      SetBit(words[i / WORD_BITS], i % WORD_BITS, j % WORD_BITS);
    }
  }

  lemma NoneSet(n: nat)
    ensures forall words | words == seq(n, _ => 0) :: AreWords(words) && BitsOf(words) == {}
  {
    forall j: nat ensures !TestBit(0, j) { ZeroBit(j); }
  }

  /** The n low bits and no others. */
  ghost predicate LowBits(w: nat, n: nat) {
    forall j: nat :: TestBit(w, j) <==> j < n
  }

  lemma {:induction false} LowBitsTail(w: nat, n: nat)
    requires LowBits(w, n)
    ensures w % 2 == (if n > 0 then 1 else 0) && LowBits(w / 2, if n > 0 then n - 1 else 0)
  {
    assert TestBit(w, 0) <==> w % 2 == 1;
    forall j: nat ensures TestBit(w / 2, j) <==> j + 1 < n {
      assert TestBit(w, j + 1) == TestBit(w / 2, j);
    }
  }

  lemma {:induction false} LowBitsValue(w: nat, n: nat)
    requires LowBits(w, n)
    ensures w == Pow2(n) - 1
    decreases w, n
  {
    if w > 0 {
      LowBitsTail(w, n);
      LowBitsValue(w / 2, if n > 0 then n - 1 else 0);
    } else if n > 0 {
      ZeroBit(0);
    }
  }

  lemma {:induction false} MaskBits(n: nat, j: nat)
    ensures TestBit(Pow2(n) - 1, j) <==> j < n
    decreases j
  {
    if n == 0 {
      ZeroBit(j);
    } else {
      assert Pow2(n) - 1 == 2 * (Pow2(n - 1) - 1) + 1;
      if j > 0 { MaskBits(n - 1, j - 1); }
    }
  }

  /** A word equals the mask of its n low bits exactly when it has these bits and no others. */
  lemma IsMask(w: nat, n: nat)
    ensures w == Pow2(n) - 1 <==> LowBits(w, n)
  {
    var mask := Pow2(n) - 1;
    forall j: nat ensures TestBit(mask, j) <==> j < n {
      MaskBits(n, j);
    }
    if LowBits(w, n) { LowBitsValue(w, n); }
  }

  /** w >> k. */
  function ShiftRight(w: nat, k: nat): nat {
    if k == 0 then w else ShiftRight(w / 2, k - 1)
  }

  lemma {:induction false} ShiftedMask(n: nat, k: nat)
    ensures ShiftRight(Pow2(n + k) - 1, k) == Pow2(n) - 1
    decreases k
  {
    if k > 0 {
      assert (Pow2(n + k) - 1) / 2 == Pow2(n + k - 1) - 1;
      ShiftedMask(n, k - 1);
    }
  }

  lemma {:induction false} HighBit(w: nat, n: nat, j: nat)
    requires w < Pow2(n) && n <= j
    ensures !TestBit(w, j)
    decreases n
  {
    if n > 0 { HighBit(w / 2, n - 1, j - 1); } else { ZeroBit(j); }
  }

  /** The test at the end of pb_decode_noinit: whole words against all ones, the rest against a shifted mask. */
  method HasAll(words: seq<nat>, count: nat) returns (all: bool)
    requires AreWords(words) && count <= WORD_BITS * |words|
    requires forall i | i in BitsOf(words) :: i < count
    ensures all <==> forall i: nat | i < count :: i in BitsOf(words)
  {
    var whole, part := count / WORD_BITS, count % WORD_BITS;
    FullMask();
    for i := 0 to whole
      invariant forall j: nat | j < WORD_BITS * i :: j in BitsOf(words)
    {
      WordIsFull(words, i, WORD_BITS, count);
      if words[i] != ALL_BITS {
        return false;
      }
    }
    if part != 0 {
      ShiftedMask(part, WORD_BITS - part);
      WordIsFull(words, whole, part, count);
      if words[whole] != ShiftRight(ALL_BITS, WORD_BITS - part) {
        return false;
      }
    }
    return true;
  }

  lemma FullMask()
    ensures Pow2(WORD_BITS) - 1 == ALL_BITS
  {
    WordSizes();
  }

  lemma WordIsFull(words: seq<nat>, k: nat, n: nat, count: nat)
    requires AreWords(words) && k < |words| && n <= WORD_BITS && WORD_BITS * k + n <= count <= WORD_BITS * |words|
    requires n == WORD_BITS || count == WORD_BITS * k + n
    requires forall i | i in BitsOf(words) :: i < count
    ensures words[k] == Pow2(n) - 1 <==> forall i: nat | WORD_BITS * k <= i < WORD_BITS * k + n :: i in BitsOf(words)
  {
    var w := words[k];
    IsMask(w, n);
    forall j: nat | n <= j ensures !TestBit(w, j) {
      if j < WORD_BITS {
        BitAt(words, k, j);
      } else {
        HighBit(w, WORD_BITS, j);
      }
    }
    if forall i: nat | WORD_BITS * k <= i < WORD_BITS * k + n :: i in BitsOf(words) {
      forall j: nat | j < n ensures TestBit(w, j) {
        BitAt(words, k, j);
      }
    }
    if LowBits(w, n) {
      forall i: nat | WORD_BITS * k <= i < WORD_BITS * k + n ensures i in BitsOf(words) {
        BitAt(words, k, i - WORD_BITS * k);
      }
    }
  }

  lemma BitAt(words: seq<nat>, k: nat, j: nat)
    requires k < |words| && j < WORD_BITS
    ensures WORD_BITS * k + j in BitsOf(words) <==> TestBit(words[k], j)
  {
    assert (WORD_BITS * k + j) / WORD_BITS == k && (WORD_BITS * k + j) % WORD_BITS == j;
  }
}
