/** Base-128 varints as both libraries write them, and the loops that read them in general form.  Shifts are written
    out as arithmetic. */
module Varints {
  import opened Bytes

  const TWO31: nat := 0x8000_0000
  const TWO32: nat := 0x1_0000_0000
  const TWO64: nat := 0x1_0000_0000_0000_0000

  // ----- varints -----

  /** Seven bits to a byte, lowest first; all bytes but the last have the top bit set. */
  function Varint(v: nat): (r: seq<Byte>)
    ensures |r| > 0
  {
    if v < 128 then [v] else [128 + v % 128] + Varint(v / 128)
  }

  /** 128 to the power i. */
  function Place(i: nat): (r: nat)
    ensures r > 0
  {
    if i == 0 then 1 else 128 * Place(i - 1)
  }

  lemma {:induction false} VarintLength(v: nat, n: nat)
    requires v < Place(n) && n > 0
    ensures |Varint(v)| <= n
    decreases n
  {
    if v >= 128 {
      if n == 1 { assert false; }
      VarintLength(v / 128, n - 1);
    }
  }

  lemma TenBytes(v: nat)
    ensures v < TWO64 ==> |Varint(v)| <= 10
  {
    assert TWO64 <= Place(10);
    if v < TWO64 { VarintLength(v, 10); }
  }

  /** What a varint loop does with one byte. */
  datatype Turn = Overflow | More(result: nat, bitpos: nat) | Last(result: nat)

  /** A varint loop: its body, and the bit position at which it gives up. */
  datatype Loop = Loop(turn: (Byte, nat, nat) -> Turn, limit: nat)

  /** A value and the bytes after it, or why there is none. */
  datatype Outcome = Got(value: nat, rest: seq<Byte>) | TooLong(rest: seq<Byte>) | CutShort

  /** What is not consumed. */
  function LeftBy(o: Outcome): seq<Byte> {
    if o.CutShort? then [] else o.rest
  }

  function ReadLoop(loop: Loop, input: seq<Byte>, bitpos: nat, result: nat): (r: Outcome)
    ensures r.Got? ==> |r.rest| < |input|
    decreases |input|
  {
    if bitpos >= loop.limit then TooLong(input)
    else if input == [] then CutShort
    else
      match loop.turn(input[0], bitpos, result)
      case Overflow => TooLong(input[1..])
      case More(result', bitpos') => ReadLoop(loop, input[1..], bitpos', result')
      case Last(result') => Got(result', input[1..])
  }

  /** One more byte of a varint: the low digit of what is left of the value. */
  lemma ReadLoopVarint(loop: Loop, v: nat, rest: seq<Byte>, bitpos: nat, result: nat)
    requires bitpos < loop.limit
    ensures v < 128 ==> match loop.turn(v, bitpos, result)
                        case Last(r) => ReadLoop(loop, Varint(v) + rest, bitpos, result) == Got(r, rest)
                        case _ => true
    ensures v >= 128 ==> match loop.turn(128 + v % 128, bitpos, result)
                         case More(r, b) =>
                           ReadLoop(loop, Varint(v) + rest, bitpos, result)
                               == ReadLoop(loop, Varint(v / 128) + rest, b, r)
                         case _ => true
  {
    var input := Varint(v) + rest;
    assert input[1..] == if v < 128 then rest else Varint(v / 128) + rest;
  }

  /** result | (bits << bitpos). */
  function OrBits(result: nat, bits: nat, bitpos: nat): nat
    decreases bitpos
  {
    if bitpos == 0 then Or(result, bits) else result % 2 + 2 * OrBits(result / 2, bits, bitpos - 1)
  }

  function Or(a: nat, b: nat): nat
    decreases a + b
  {
    if a == 0 then b else if b == 0 then a
    else (if a % 2 == 1 || b % 2 == 1 then 1 else 0) + 2 * Or(a / 2, b / 2)
  }

  function Pow2(n: nat): (r: nat)
    ensures r > 0
  {
    if n == 0 then 1 else 2 * Pow2(n - 1)
  }

  lemma {:induction false} OrIsSum(result: nat, bits: nat, bitpos: nat)
    requires result < Pow2(bitpos)
    ensures OrBits(result, bits, bitpos) == result + bits * Pow2(bitpos)
    decreases bitpos
  {
    if bitpos > 0 {
      OrIsSum(result / 2, bits, bitpos - 1);
      Doubled(result, bits, Pow2(bitpos - 1));
    }
  }

  lemma Doubled(result: nat, bits: nat, p: nat)
    ensures result % 2 + 2 * (result / 2 + bits * p) == result + bits * (2 * p)
  {
    assert bits * (2 * p) == 2 * (bits * p);
  }

  /** What is added for the low digit of a number and what is left for the other digits. */
  lemma Split(low: nat, high: nat, p: nat, result: nat)
    requires low < 128 && result < p
    ensures (low + 128 * high) * p == low * p + high * (128 * p)
    ensures result + low * p < 128 * p
    ensures high >= 1 ==> 128 * p <= (low + 128 * high) * p
  {
    Times(low, 127, p);
    if high >= 1 { Times(128, low + 128 * high, p); }
  }

  lemma Times(a: nat, b: nat, p: nat)
    requires a <= b
    ensures a * p <= b * p
  {
  }

  lemma SevenBits(bitpos: nat)
    ensures Pow2(bitpos + 7) == 128 * Pow2(bitpos)
  {
    Pow2Sum(bitpos, 7);
    assert Pow2(7) == 128;
  }

  lemma {:induction false} Pow2Sum(a: nat, b: nat)
    ensures Pow2(a + b) == Pow2(a) * Pow2(b)
    decreases b
  {
    if b > 0 {
      Pow2Sum(a, b - 1);
      assert Pow2(a) * (2 * Pow2(b - 1)) == 2 * (Pow2(a) * Pow2(b - 1));
    }
  }

  lemma WordSizes()
    ensures Pow2(28) == 0x1000_0000 && Pow2(32) == TWO32 && Pow2(64) == TWO64
  {
    assert Pow2(14) == 0x4000 && Pow2(16) == 0x1_0000;
    Pow2Sum(14, 14);
    Pow2Sum(16, 16);
    Pow2Sum(32, 32);
  }

  lemma {:induction false} Pow2Grows(a: nat, b: nat)
    requires a <= b
    ensures Pow2(a) <= Pow2(b)
    decreases b
  {
    if a < b { Pow2Grows(a, b - 1); }
  }

  /** The value that a loop arrives at when what is left to read is v. */
  function Total(result: nat, v: nat, p: nat): nat {
    result + v * p
  }

  lemma TotalSplits(result: nat, v: nat, p: nat)
    requires result < p
    ensures Total(result, v, p) == Total(Total(result, v % 128, p), v / 128, 128 * p)
    ensures Total(result, v % 128, p) < 128 * p && Total(result, v % 128, p) <= Total(result, v, p)
    ensures v < 128 ==> Total(result, v % 128, p) == Total(result, v, p)
    ensures v >= 128 ==> 128 * p <= Total(result, v, p)
  {
    Split(v % 128, v / 128, p, result);
    Times(v % 128, v, p);
  }

  // ----- the plain loop -----

  function PlainTurn(mod: nat, b: Byte, bitpos: nat, result: nat): Turn
    requires mod > 0
  {
    var result' := OrBits(result, b % 128, bitpos) % mod;
    if b >= 128 then More(result', bitpos + 7) else Last(result')
  }

  /** Seven bits of each byte, in a word of `mod` values, as long as the bit position is below the limit. */
  function PlainLoop(mod: nat, limit: nat): Loop
    requires mod > 0
  {
    Loop((b: Byte, bitpos: nat, result: nat) => PlainTurn(mod, b, bitpos, result), limit)
  }

  lemma PlainTurnOf(mod: nat, b: Byte, bitpos: nat, p: nat, result: nat)
    requires p == Pow2(bitpos) && result < p && Total(result, b % 128, p) < mod
    ensures var r := Total(result, b % 128, p);
            PlainTurn(mod, b, bitpos, result) == if b >= 128 then More(r, bitpos + 7) else Last(r)
  {
    OrIsSum(result, b % 128, bitpos);
    PlainTurnSum(mod, b, bitpos, result, Total(result, b % 128, p));
  }

  lemma PlainTurnSum(mod: nat, b: Byte, bitpos: nat, result: nat, sum: nat)
    requires OrBits(result, b % 128, bitpos) == sum < mod
    ensures PlainTurn(mod, b, bitpos, result) == if b >= 128 then More(sum, bitpos + 7) else Last(sum)
  {
    SmallMod(sum, mod);
  }

  lemma SmallMod(x: nat, mod: nat)
    requires x < mod
    ensures x % mod == x
  {
  }

  lemma BelowLimit(bitpos: nat, p: nat, mod: nat, limit: nat)
    requires p == Pow2(bitpos) && 128 * p < mod <= Pow2(limit)
    ensures bitpos + 7 < limit && 128 * p == Pow2(bitpos + 7)
  {
    SevenBits(bitpos);
    if bitpos + 7 >= limit { Pow2Grows(limit, bitpos + 7); }
  }

  /** One byte of a varint in the plain loop. */
  lemma PlainByte(mod: nat, limit: nat, v: nat, rest: seq<Byte>, bitpos: nat, p: nat, result: nat)
    requires 0 < mod && bitpos < limit && p == Pow2(bitpos) && result < p && Total(result, v, p) < mod
    ensures var next := Total(result, v % 128, p);
            ReadLoop(PlainLoop(mod, limit), Varint(v) + rest, bitpos, result)
            == if v < 128 then Got(next, rest)
               else ReadLoop(PlainLoop(mod, limit), Varint(v / 128) + rest, bitpos + 7, next)
  {
    var b := if v < 128 then v else 128 + v % 128;
    TotalSplits(result, v, p);
    PlainTurnOf(mod, b, bitpos, p, result);
    ReadLoopVarint(PlainLoop(mod, limit), v, rest, bitpos, result);
  }

  lemma {:induction false} PlainRoundTripFrom(mod: nat, limit: nat, v: nat, rest: seq<Byte>, bitpos: nat, p: nat,
                                              result: nat)
    requires 0 < mod <= Pow2(limit) && bitpos < limit && p == Pow2(bitpos) && result < p && Total(result, v, p) < mod
    ensures ReadLoop(PlainLoop(mod, limit), Varint(v) + rest, bitpos, result) == Got(Total(result, v, p), rest)
    decreases v
  {
    PlainByte(mod, limit, v, rest, bitpos, p, result);
    TotalSplits(result, v, p);
    if v >= 128 {
      BelowLimit(bitpos, p, mod, limit);
      PlainRoundTripFrom(mod, limit, v / 128, rest, bitpos + 7, 128 * p, Total(result, v % 128, p));
    }
  }

  /** Whatever fits the word is read back, with the bytes after it untouched. */
  lemma PlainRoundTrip(mod: nat, limit: nat, v: nat, rest: seq<Byte>)
    requires v < mod <= Pow2(limit) && 0 < limit
    ensures ReadLoop(PlainLoop(mod, limit), Varint(v) + rest, 0, 0) == Got(v, rest)
  {
    PlainRoundTripFrom(mod, limit, v, rest, 0, 1, 0);
  }
}
