/** Varints and little-endian words, digit by digit: what the writers of LevelDB and nanopb put into the bytes, and what
    their readers make of any bytes (util/coding.cc, pb_encode.c, pb_decode.c). */
module WireFormat {
  import opened Bytes
  import opened Varints
  import opened Coding
  import opened ProtoWire

  // ----- words -----

  /** Byte i of a word has weight 256 to the power i. */
  lemma {:induction false} LittleAt(v: nat, n: nat, i: nat)
    requires i < n
    ensures Little(v, n)[i] == v / Pow256(i) % 256
    decreases n
  {
    if i > 0 {
      LittleAt(v / 256, n - 1, i - 1);
      DivTwice(v, 256, Pow256(i - 1));
    }
  }

  lemma DivTwice(v: nat, a: nat, b: nat)
    requires a > 0 && b > 0
    ensures a * b > 0 && v / a / b == v / (a * b)
  {
    var q, r := v / a, v % a;
    var s, t := q / b, q % b;
    assert v == a * q + r && q == b * s + t;
    assert a * (b * s + t) == a * b * s + a * t by { Distribute(a, b, s, t); }
    assert 0 <= a * t + r < a * b by { Below(a, b, t, r); }
    Quotient(v, a * b, s, a * t + r);
  }

  lemma Distribute(a: nat, b: nat, s: nat, t: nat)
    ensures a * (b * s + t) == a * b * s + a * t
  {
  }

  lemma Below(a: nat, b: nat, t: nat, r: nat)
    requires r < a && t < b
    ensures a * t + r < a * b
  {
    assert a * (t + 1) <= a * b;
  }

  lemma Quotient(v: nat, d: nat, q: nat, r: nat)
    requires d > 0 && v == d * q + r && r < d
    ensures v / d == q
  {
    Apart(d, v / d, q);
    Apart(d, q, v / d);
  }

  lemma Apart(d: nat, a: nat, b: nat)
    ensures a < b ==> d * a + d <= d * b
  {
    if a < b { assert d * (a + 1) <= d * b; }
  }

  // ----- varints as digits -----

  /** All bytes but the last have their top bit set. */
  predicate IsVarint(b: Text) {
    b != [] && b[|b| - 1] < 128 && AllGoOn(b[..|b| - 1])
  }

  predicate AllGoOn(b: Text) {
    forall i | 0 <= i < |b| :: b[i] >= 128
  }

  /** The low seven bits of the bytes, lowest first. */
  function Digits(b: Text): nat {
    if b == [] then 0 else b[0] % 128 + 128 * Digits(b[1..])
  }

  lemma VarintTail(b: Text)
    requires IsVarint(b) && |b| > 1
    ensures IsVarint(b[1..]) && b[0] >= 128 && b[1..][|b| - 2] == b[|b| - 1]
  {
    assert b[..|b| - 1][0] == b[0];
    forall i | 0 <= i < |b| - 2 ensures b[1..][i] >= 128 {
      assert b[..|b| - 1][i + 1] == b[1..][i];
    }
  }

  /** Any input begins with a varint, or all of its bytes go on. */
  lemma {:induction false} CutVarint(input: Text) returns (b: Text, rest: Text)
    ensures input == b + rest && (IsVarint(b) || (AllGoOn(b) && rest == []))
    decreases |input|
  {
    if input == [] {
      b, rest := [], [];
    } else if input[0] < 128 {
      b, rest := [input[0]], input[1..];
    } else {
      var b1, rest1 := CutVarint(input[1..]);
      b, rest := [input[0]] + b1, rest1;
      assert b[1..] == b1;
      if IsVarint(b1) {
        assert b[..|b| - 1] == [input[0]] + b1[..|b1| - 1];
      }
    }
  }

  /** What is written for v is a varint with the digits of v and no needless last byte. */
  lemma {:induction false} VarintIs(v: nat)
    ensures IsVarint(Varint(v)) && Digits(Varint(v)) == v
    ensures |Varint(v)| > 1 ==> Varint(v)[|Varint(v)| - 1] != 0
    decreases v
  {
    if v >= 128 {
      VarintIs(v / 128);
      var rest := Varint(v / 128);
      assert Varint(v) == [128 + v % 128] + rest && Varint(v)[1..] == rest;
      assert Varint(v)[..|Varint(v)| - 1] == [128 + v % 128] + rest[..|rest| - 1];
    }
  }

  /** And it is the only one. */
  lemma {:induction false} VarintIsUnique(b: Text)
    requires IsVarint(b) && (|b| > 1 ==> b[|b| - 1] != 0)
    ensures b == Varint(Digits(b)) && (|b| > 1 ==> Digits(b) >= 128)
    decreases |b|
  {
    if |b| == 1 {
      assert b[1..] == [];
    } else {
      VarintTail(b);
      VarintIsUnique(b[1..]);
      if |b| == 2 { assert b[1..][1..] == []; }
      assert b == [b[0]] + b[1..];
    }
  }

  // ----- the plain loop -----

  /** The loop never loses a bit before its last byte. */
  ghost predicate Roomy(mod: nat, limit: nat) {
    mod > 0 && forall x | 0 <= x < limit && x % 7 == 0 :: Pow2(x) <= mod
  }

  lemma PlainTurnMod(mod: nat, b: Byte, bitpos: nat, result: nat)
    requires mod > 0 && result < Pow2(bitpos)
    ensures var r := (result + b % 128 * Pow2(bitpos)) % mod;
            PlainTurn(mod, b, bitpos, result) == if b >= 128 then More(r, bitpos + 7) else Last(r)
  {
    OrIsSum(result, b % 128, bitpos);
  }

  /** The first digit and the others. */
  lemma FirstDigit(b: Text, bitpos: nat, result: nat)
    requires b != [] && result < Pow2(bitpos)
    ensures var sum := result + b[0] % 128 * Pow2(bitpos);
            && sum < Pow2(bitpos + 7)
            && sum + Digits(b[1..]) * Pow2(bitpos + 7) == result + Digits(b) * Pow2(bitpos)
  {
    SevenBits(bitpos);
    Split(b[0] % 128, Digits(b[1..]), Pow2(bitpos), result);
  }

  lemma {:induction false} PlainReads(mod: nat, limit: nat, b: Text, rest: Text, bitpos: nat, result: nat)
    requires IsVarint(b) && Roomy(mod, limit) && bitpos < limit && bitpos % 7 == 0 && result < Pow2(bitpos)
    ensures var r := ReadLoop(PlainLoop(mod, limit), b + rest, bitpos, result);
            if bitpos + 7 * (|b| - 1) < limit then r == Got((result + Digits(b) * Pow2(bitpos)) % mod, rest)
            else r.TooLong?
    decreases |b|
  {
    var input, sum := b + rest, result + b[0] % 128 * Pow2(bitpos);
    PlainTurnMod(mod, b[0], bitpos, result);
    FirstDigit(b, bitpos, result);
    assert input[0] == b[0] && input[1..] == b[1..] + rest;
    if |b| == 1 {
      assert b[1..] == [] && [] + rest == rest;
    } else {
      VarintTail(b);
      if bitpos + 7 < limit {
        SmallMod(sum, mod);
        PlainReads(mod, limit, b[1..], rest, bitpos + 7, sum);
      }
    }
  }

  lemma {:induction false} PlainUnfinished(mod: nat, limit: nat, b: Text, bitpos: nat, result: nat)
    requires AllGoOn(b) && mod > 0
    ensures var r := ReadLoop(PlainLoop(mod, limit), b, bitpos, result);
            if bitpos + 7 * |b| < limit then r.CutShort? else r.TooLong?
    decreases |b|
  {
    if b != [] && bitpos < limit {
      PlainUnfinished(mod, limit, b[1..], bitpos + 7, OrBits(result, b[0] % 128, bitpos) % mod);
    }
  }

  lemma RoomyWords()
    ensures Roomy(TWO64, 64) && Roomy(TWO32, 35)
  {
    WordSizes();
    forall x | 0 <= x < 64 ensures Pow2(x) <= TWO64 { Pow2Grows(x, 64); }
    forall x | 0 <= x < 35 && x % 7 == 0 ensures Pow2(x) <= TWO32 { Pow2Grows(x, 32); }
  }

  /** pb_decode_varint and GetVarint64: up to ten bytes, and bits beyond the 64th fall away. */
  lemma Varint64Reads(b: Text, rest: Text)
    requires IsVarint(b)
    ensures ReadVarint(b + rest)
         == if |b| <= 10 then Ok(Parsed(Digits(b) % TWO64, rest)) else Err(VarintOverflow)
  {
    RoomyWords();
    PlainReads(TWO64, 64, b, rest, 0, 0);
    assert Pow2(0) == 1;
  }

  lemma Varint64Unfinished(b: Text)
    requires AllGoOn(b)
    ensures ReadVarint(b) == Err(if |b| < 10 then EndOfStream else VarintOverflow)
  {
    PlainUnfinished(TWO64, 64, b, 0, 0);
  }

  /** GetVarint32Ptr: up to five bytes, and bits beyond the 32nd fall away. */
  lemma Varint32Reads(b: Text, rest: Text)
    requires IsVarint(b)
    ensures var r := GetVarint32(b + rest);
            if |b| <= 5 then r == Got(Digits(b) % TWO32, rest) else r.TooLong?
  {
    RoomyWords();
    PlainReads(TWO32, 35, b, rest, 0, 0);
    assert Pow2(0) == 1;
  }

  lemma Varint32Unfinished(b: Text)
    requires AllGoOn(b)
    ensures !GetVarint32(b).Got?
  {
    PlainUnfinished(TWO32, 35, b, 0, 0);
  }

  // ----- the 32-bit reader of nanopb -----

  /** Byte i, from the sixth on, does not change a 32-bit value: it has no bits, or continues a negative number. */
  predicate Extends(r: nat, b: Byte, i: nat) {
    b % 128 == 0 || (r >= TWO31 && b == if i < 9 then 255 else 1)
  }

  lemma Turn32Is(b: Byte, bitpos: nat, result: nat, sum: nat)
    requires bitpos < 32 && OrBits(result, b % 128, bitpos) == sum
    ensures Turn32(b, bitpos, result)
         == if b >= 128 then More(sum % TWO32, bitpos + 7)
            else if bitpos == 28 && b >= 16 then Overflow else Last(sum % TWO32)
  {
    HighNibble(b);
    var word := sum % TWO32;
    assert (bitpos + 7) % 256 == bitpos + 7;
    assert Turn32(b, bitpos, result)
        == if b >= 128 then More(word, bitpos + 7)
           else if bitpos + 7 == 35 && b / 16 % 8 != 0 then Overflow else Last(word);
  }

  lemma HighNibble(b: Byte)
    ensures b < 128 ==> (b / 16 % 8 != 0 <==> b >= 16)
  {
  }

  lemma Turn32Early(b: Byte, bitpos: nat, result: nat)
    requires bitpos < 25 && bitpos != 28 && result < Pow2(bitpos)
    ensures var sum := result + b % 128 * Pow2(bitpos);
            sum < Pow2(bitpos + 7)
            && Turn32(b, bitpos, result) == if b >= 128 then More(sum, bitpos + 7) else Last(sum)
  {
    var sum := result + b % 128 * Pow2(bitpos);
    OrIsSum(result, b % 128, bitpos);
    SevenBits(bitpos);
    Split(b % 128, 0, Pow2(bitpos), result);
    EarlyIsSmall(bitpos, sum);
    Turn32Is(b, bitpos, result, sum);
  }

  lemma EarlyIsSmall(bitpos: nat, sum: nat)
    requires bitpos < 25 && sum < Pow2(bitpos + 7)
    ensures sum % TWO32 == sum
  {
    WordSizes();
    Pow2Grows(bitpos + 7, 32);
    SmallMod(sum, TWO32);
  }

  lemma Turn32Fifth(b: Byte, result: nat, p: nat)
    requires p == Pow2(28) && result < p
    ensures var sum := (result + b % 128 * p) % TWO32;
            Turn32(b, 28, result)
            == if b >= 128 then More(sum, 35) else if b >= 16 then Overflow else Last(sum)
  {
    OrIsSum(result, b % 128, 28);
    Turn32Is(b, 28, result, result + b % 128 * p);
  }

  lemma Turn32Late(b: Byte, i: nat, r: nat)
    requires 5 <= i < 36
    ensures Turn32(b, 7 * i, r)
         == if !Extends(r, b, i) then Overflow else if b >= 128 then More(r, 7 * (i + 1)) else Last(r)
  {
  }

  /** The bytes from the sixth on are read one by one. */
  ghost predicate AllExtend(r: nat, b: Text, i: nat) {
    forall j | 0 <= j < |b| :: Extends(r, b[j], i + j)
  }

  lemma {:induction false} LateReads(b: Text, rest: Text, i: nat, r: nat)
    requires IsVarint(b) && 5 <= i && i + |b| <= 36
    ensures var o := ReadLoop(LOOP32, b + rest, 7 * i, r);
            if AllExtend(r, b, i) then o == Got(r, rest) else o.TooLong?
    decreases |b|
  {
    var input := b + rest;
    Turn32Late(b[0], i, r);
    if |b| == 1 {
      assert input[1..] == rest;
    } else {
      VarintTail(b);
      assert input[1..] == b[1..] + rest && input[0] == b[0];
      LateReads(b[1..], rest, i + 1, r);
      assert AllExtend(r, b, i) <==> Extends(r, b[0], i) && AllExtend(r, b[1..], i + 1) by {
        ExtendsTail(r, b, i);
      }
    }
  }

  lemma ExtendsTail(r: nat, b: Text, i: nat)
    requires b != []
    ensures AllExtend(r, b, i) <==> Extends(r, b[0], i) && AllExtend(r, b[1..], i + 1)
  {
    if AllExtend(r, b[1..], i + 1) && Extends(r, b[0], i) {
      forall j | 0 <= j < |b| ensures Extends(r, b[j], i + j) {
        if j > 0 { assert b[j] == b[1..][j - 1]; }
      }
    }
    if AllExtend(r, b, i) {
      forall j | 0 <= j < |b| - 1 ensures Extends(r, b[1..][j], i + 1 + j) {
        assert b[1..][j] == b[j + 1];
      }
    }
  }

  lemma {:induction false} DigitsSnoc(b: Text, x: Byte)
    ensures Digits(b + [x]) == Digits(b) + x % 128 * Pow2(7 * |b|)
    decreases |b|
  {
    if b == [] {
      assert [x][1..] == [] && b + [x] == [x];
    } else {
      assert (b + [x])[1..] == b[1..] + [x] && (b + [x])[0] == b[0];
      DigitsSnoc(b[1..], x);
      SevenBits(7 * (|b| - 1));
      Shifted(Digits(b[1..]), x % 128, Pow2(7 * (|b| - 1)));
    }
  }

  lemma Shifted(d: nat, y: nat, p: nat)
    ensures 128 * (d + y * p) == 128 * d + y * (128 * p)
  {
  }

  lemma {:induction false} DigitsBelow(b: Text)
    ensures Digits(b) < Pow2(7 * |b|)
    decreases |b|
  {
    if b != [] {
      DigitsBelow(b[1..]);
      SevenBits(7 * (|b| - 1));
    }
  }

  /** One of the first five bytes, by its place in the whole. */
  lemma NextDigits(b: Text, i: nat)
    requires i < |b|
    ensures Digits(b[..i + 1]) == Digits(b[..i]) + b[i] % 128 * Pow2(7 * i) && Digits(b[..i]) < Pow2(7 * i)
  {
    assert b[..i + 1] == b[..i] + [b[i]];
    DigitsSnoc(b[..i], b[i]);
    DigitsBelow(b[..i]);
  }

  lemma LoopStep(loop: Loop, b: Text, rest: Text, i: nat, bitpos: nat, result: nat)
    requires i < |b| && bitpos < loop.limit
    ensures var o := ReadLoop(loop, b[i..] + rest, bitpos, result);
            match loop.turn(b[i], bitpos, result)
            case Overflow => o.TooLong?
            case More(r, p) => o == ReadLoop(loop, b[i + 1..] + rest, p, r)
            case Last(r) => o == Got(r, b[i + 1..] + rest)
  {
    var input := b[i..] + rest;
    assert input[0] == b[i] && input[1..] == b[i + 1..] + rest;
  }

  /** The loop has gathered the digits of the first i bytes. */
  lemma {:induction false} AfterFirst(b: Text, rest: Text, i: nat)
    requires 1 <= i <= 4 && i < |b| && AllGoOn(b[..i])
    ensures ReadLoop(LOOP32, b[1..] + rest, 7, b[0] % 128) == ReadLoop(LOOP32, b[i..] + rest, 7 * i, Digits(b[..i]))
    decreases i
  {
    if i == 1 {
      assert b[..1] == [b[0]] && [b[0]][1..] == [];
    } else {
      assert AllGoOn(b[..i - 1]) && b[i - 1] >= 128 by { assert b[..i][i - 1] == b[i - 1]; GoOnBefore(b, i); }
      AfterFirst(b, rest, i - 1);
      NextDigits(b, i - 1);
      Turn32Early(b[i - 1], 7 * (i - 1), Digits(b[..i - 1]));
      LoopStep(LOOP32, b, rest, i - 1, 7 * (i - 1), Digits(b[..i - 1]));
    }
  }

  lemma GoOnBefore(b: Text, i: nat)
    requires 0 < i <= |b| && AllGoOn(b[..i])
    ensures AllGoOn(b[..i - 1])
  {
    var all, some := b[..i], b[..i - 1];
    forall j | 0 <= j < i - 1 ensures some[j] >= 128 { assert all[j] == some[j]; }
  }

  lemma {:induction false} GoOnPart(b: Text, i: nat, j: nat)
    requires i <= j <= |b| && AllGoOn(b[..j])
    ensures AllGoOn(b[..i])
    decreases j
  {
    if i < j {
      GoOnBefore(b, j);
      GoOnPart(b, i, j - 1);
    }
  }

  lemma FirstBytes(b: Text, rest: Text, i: nat)
    requires 1 <= i <= 4 && i < |b| && AllGoOn(b[..i])
    ensures ReadVarint32(b + rest) == ToResult(ReadLoop(LOOP32, b[i..] + rest, 7 * i, Digits(b[..i])))
  {
    var input := b + rest;
    assert input[0] == b[0] && input[1..] == b[1..] + rest && b[..i][0] == b[0];
    AfterFirst(b, rest, i);
  }

  lemma LastEarlyByte(b: Text, rest: Text, n: nat)
    requires 1 <= n <= 3 && |b| == n + 1 && b[n] < 128
    ensures ReadLoop(LOOP32, b[n..] + rest, 7 * n, Digits(b[..n])) == Got(Digits(b), rest)
  {
    assert b[..n + 1] == b && b[n + 1..] + rest == rest;
    NextDigits(b, n);
    Turn32Early(b[n], 7 * n, Digits(b[..n]));
    LoopStep(LOOP32, b, rest, n, 7 * n, Digits(b[..n]));
  }

  lemma LastFifthByte(b: Text, rest: Text)
    requires |b| == 5 && b[4] < 128
    ensures var o := ReadLoop(LOOP32, b[4..] + rest, 28, Digits(b[..4]));
            if b[4] >= 16 then o.TooLong? else o == Got(Digits(b), rest)
  {
    assert b[..4 + 1] == b && b[4 + 1..] + rest == rest;
    NextDigits(b, 4);
    Turn32Fifth(b[4], Digits(b[..4]), Pow2(28));
    if b[4] < 16 { FifthFits(b[4], Digits(b[..4])); }
    LoopStep(LOOP32, b, rest, 4, 28, Digits(b[..4]));
  }

  /** pb_decode_varint32, at most five bytes: the fifth has room for four bits. */
  lemma ShortReads(b: Text, rest: Text)
    requires IsVarint(b) && |b| <= 5
    ensures ReadVarint32(b + rest)
         == if |b| == 5 && b[4] >= 16 then Err(VarintOverflow) else Ok(Parsed(Digits(b), rest))
  {
    if |b| == 1 {
      OneByteReads(b, rest);
    } else {
      SomeBytesRead(b, rest, |b| - 1);
    }
  }

  lemma OneByteReads(b: Text, rest: Text)
    requires |b| == 1 && b[0] < 128
    ensures ReadVarint32(b + rest) == Ok(Parsed(Digits(b), rest))
  {
    var input := b + rest;
    assert input[0] == b[0] && input[1..] == rest && b[1..] == [];
  }

  lemma SomeBytesRead(b: Text, rest: Text, n: nat)
    requires 1 <= n <= 4 && |b| == n + 1 && AllGoOn(b[..n]) && b[n] < 128
    ensures ReadVarint32(b + rest)
         == if n == 4 && b[4] >= 16 then Err(VarintOverflow) else Ok(Parsed(Digits(b), rest))
  {
    FirstBytes(b, rest, n);
    if n < 4 { LastEarlyByte(b, rest, n); } else { LastFifthByte(b, rest); }
  }

  lemma FifthFits(b: Byte, result: nat)
    requires result < Pow2(28) && b < 16
    ensures (result + b % 128 * Pow2(28)) % TWO32 == result + b % 128 * Pow2(28)
  {
    WordSizes();
    SmallMod(result + b % 128 * Pow2(28), TWO32);
  }

  /** And more than five bytes, as negative numbers have: the low 32 bits, if the others continue them. */
  lemma LongReads(b: Text, rest: Text)
    requires IsVarint(b) && 5 < |b| <= 36
    ensures var r := Digits(b[..5]) % TWO32;
            ReadVarint32(b + rest)
            == if AllExtend(r, b[5..], 5) then Ok(Parsed(r, rest)) else Err(VarintOverflow)
  {
    var n := |b| - 1;
    GoOnPart(b, 5, n);
    GoOnPart(b, 4, n);
    assert b[..5][4] == b[4];
    FirstBytes(b, rest, 4);
    MiddleFifthByte(b, rest);
    LastPart(b, 5);
    LateReads(b[5..], rest, 5, Digits(b[..5]) % TWO32);
  }

  lemma MiddleFifthByte(b: Text, rest: Text)
    requires |b| > 5 && b[4] >= 128
    ensures ReadLoop(LOOP32, b[4..] + rest, 28, Digits(b[..4]))
         == ReadLoop(LOOP32, b[5..] + rest, 35, Digits(b[..5]) % TWO32)
  {
    NextDigits(b, 4);
    Turn32Fifth(b[4], Digits(b[..4]), Pow2(28));
    LoopStep(LOOP32, b, rest, 4, 28, Digits(b[..4]));
  }

  lemma LastPart(b: Text, i: nat)
    requires IsVarint(b) && i < |b|
    ensures IsVarint(b[i..])
  {
    var c, n := b[i..], |b| - i - 1;
    assert c[n] == b[|b| - 1];
    var some, all := c[..n], b[..|b| - 1];
    forall j | 0 <= j < n ensures some[j] >= 128 { assert some[j] == all[i + j]; }
  }
}
