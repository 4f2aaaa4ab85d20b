/** Testing and setting one bit of a number. */
module Bits {
  import opened Varints

  predicate TestBit(x: nat, i: nat) {
    if i == 0 then x % 2 == 1 else TestBit(x / 2, i - 1)
  }

  lemma {:induction false} ZeroBit(j: nat)
    ensures !TestBit(0, j)
  {
    if j > 0 { ZeroBit(j - 1); }
  }

  lemma {:induction false} OrKeeps(a: nat, b: nat)
    ensures Or(a, b) % 2 == 1 <==> a % 2 == 1 || b % 2 == 1
    ensures Or(a, b) / 2 == Or(a / 2, b / 2)
  {
  }

  /** Setting a bit leaves the others alone. */
  lemma {:induction false} SetBit(x: nat, i: nat, j: nat)
    ensures TestBit(OrBits(x, 1, i), j) <==> i == j || TestBit(x, j)
    decreases i
  {
    if i == 0 {
      OrKeeps(x, 1);
    } else if j > 0 {
      SetBit(x / 2, i - 1, j - 1);
      assert OrBits(x, 1, i) / 2 == OrBits(x / 2, 1, i - 1);
    }
  }

  lemma {:induction false} OrBitsSmall(x: nat, i: nat, n: nat)
    requires x < Pow2(n) && i < n
    ensures OrBits(x, 1, i) < Pow2(n)
    decreases i
  {
    if i == 0 {
      OrOne(x);
      StaysBelow(x % 2, x / 2, Pow2(n - 1));
    } else {
      OrBitsSmall(x / 2, i - 1, n - 1);
      StaysBelow(x % 2, OrBits(x / 2, 1, i - 1), Pow2(n - 1));
    }
  }

  /** A low bit below twice the bound of the rest. */
  lemma StaysBelow(low: nat, high: nat, p: nat)
    requires low < 2
    ensures high < p ==> low + 2 * high < 2 * p && 2 * high + 1 < 2 * p
    ensures low + 2 * high < 2 * p ==> high < p
  {
  }

  function And(a: nat, b: nat): (r: nat)
    ensures r <= a && r <= b
  {
    if a == 0 || b == 0 then 0
    else (if a % 2 == 1 && b % 2 == 1 then 1 else 0) + 2 * And(a / 2, b / 2)
  }

  /** Masking with the low n bits is the remainder. */
  lemma {:induction false} MaskIsRemainder(x: nat, n: nat)
    ensures And(x, Pow2(n) - 1) == x % Pow2(n)
    decreases n
  {
    if n > 0 {
      var p := Pow2(n - 1);
      MaskIsRemainder(x / 2, n - 1);
      AndStep(x, 2 * p - 1);
      HalfMask(p);
      RemainderBits(x, p);
    }
  }

  lemma HalfMask(p: nat)
    requires p > 0
    ensures (2 * p - 1) / 2 == p - 1 && (2 * p - 1) % 2 == 1
  {
  }

  lemma AndStep(a: nat, b: nat)
    ensures And(a, b) == (if a % 2 == 1 && b % 2 == 1 then 1 else 0) + 2 * And(a / 2, b / 2)
  {
  }

  lemma RemainderBits(x: nat, p: nat)
    requires p > 0
    ensures x % (2 * p) == x % 2 + 2 * (x / 2 % p)
  {
    var q, r := x / 2 / p, x / 2 % p;
    var low := x % 2 + 2 * r;
    assert x / 2 == p * q + r && x == x % 2 + 2 * (x / 2);
    assert x == (2 * p) * q + low by { assert 2 * (p * q) == (2 * p) * q; }
    RemainderIs(x, 2 * p, q, low);
  }

  lemma RemainderIs(x: nat, d: nat, q: nat, r: nat)
    requires r < d && x == d * q + r
    ensures x % d == r
  {
    OneRemainder(d, q, r, x / d, x % d);
  }

  lemma OneRemainder(d: nat, q: nat, r: nat, q': nat, r': nat)
    requires r < d && r' < d && d * q + r == d * q' + r'
    ensures r == r'
  {
    if q < q' { AtLeastOnce(d, q' - q); } else if q' < q { AtLeastOnce(d, q - q'); }
  }

  lemma AtLeastOnce(d: nat, k: nat)
    requires k > 0
    ensures d * k >= d
  {
  }

  lemma OrOne(x: nat)
    ensures Or(x, 1) == if x % 2 == 1 then x else x + 1
  {
  }
}
