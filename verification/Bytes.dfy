/** Bytes and little-endian words as integers (util/coding.cc of LevelDB, pb_encode.c of nanopb). */
module Bytes {
  type Byte = b: int | 0 <= b < 256

  type Text = seq<Byte>

  /** A value read and the bytes left after it. */
  datatype Parsed<+T> = Parsed(value: T, rest: Text)

  lemma Assoc<T>(a: seq<T>, b: seq<T>, c: seq<T>)
    ensures a + b + c == a + (b + c)
  {
  }

  /** n bytes, lowest first. */
  function Little(v: nat, n: nat): (r: seq<Byte>)
    ensures |r| == n
    decreases n
  {
    if n == 0 then [] else [v % 256] + Little(v / 256, n - 1)
  }

  function FromLittle(b: seq<Byte>): nat {
    if b == [] then 0 else b[0] + 256 * FromLittle(b[1..])
  }

  function Pow256(n: nat): (r: nat)
    ensures r > 0
  {
    if n == 0 then 1 else 256 * Pow256(n - 1)
  }

  lemma {:induction false} LittleRoundTrip(v: nat, n: nat)
    requires v < Pow256(n)
    ensures FromLittle(Little(v, n)) == v
    decreases n
  {
    if n > 0 {
      LittleRoundTrip(v / 256, n - 1);
      assert Little(v, n)[1..] == Little(v / 256, n - 1);
    }
  }

  /** Every word of n bytes is read as the one number that is written so. */
  lemma {:induction false} LittleOfBytes(b: Text)
    ensures Little(FromLittle(b), |b|) == b && FromLittle(b) < Pow256(|b|)
    decreases |b|
  {
    if b != [] {
      LittleOfBytes(b[1..]);
      assert FromLittle(b) % 256 == b[0] && FromLittle(b) / 256 == FromLittle(b[1..]);
    }
  }
}
