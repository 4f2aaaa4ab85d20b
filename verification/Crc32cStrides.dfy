/** crc32c::Extend as it runs (util/crc32c.cc): single bytes up to an aligned address, four interleaved partial
    checksums of sixteen bytes at a time, then words and bytes, all by table.  It computes the checksum that is defined
    one bit at a time. */
module Crc32cStrides {
  import opened Bytes
  import opened Crc32c
  import opened Crc32cTables
  import opened Strides

  /** STEP1. */
  function StepByte(l: Word, b: Byte): Word {
    ByteByTable(Xor(l, Wide(b)))
  }

  /** STEP4W. */
  function StepWord(l: Word, w: Word): Word {
    ByteByTable(ByteByTable(ByteByTable(ByteByTable(Xor(w, l)))))
  }

  /** STEP16. */
  function Swath(c: Lanes<Word>, w: Lanes<Word>): Lanes<Word> {
    Lanes(Xor(w.c0, SwathByTable(c.c0)), Xor(w.c1, SwathByTable(c.c1)), Xor(w.c2, SwathByTable(c.c2)),
          Xor(w.c3, SwathByTable(c.c3)))
  }

  /** STEP4 and the turn of the four. */
  function Turn(c: Lanes<Word>, w: Word): Lanes<Word> {
    Lanes(c.c1, c.c2, c.c3, Xor(w, SwathByTable(c.c0)))
  }

  /** Combining the four. */
  function Combine(c: Lanes<Word>): Word {
    StepWord(StepWord(StepWord(StepWord(0, c.c0), c.c1), c.c2), c.c3)
  }

  function ReadSwath(b: seq<Byte>): Lanes<Word>
    requires |b| == 16
  {
    Lanes(ReadWord(b[0..4]), ReadWord(b[4..8]), ReadWord(b[8..12]), ReadWord(b[12..16]))
  }

  lemma StepByteIs(l: Word, b: Byte)
    ensures StepByte(l, b) == ByteStep(l, b)
  {
    ByteByTableIs(Xor(l, Wide(b)));
  }

  lemma StepWordIs(l: Word, w: Word)
    ensures StepWord(l, w) == ShiftWord(Xor(w, l))
  {
    var x := Xor(w, l);
    var x1 := ByteByTable(x);
    var x2 := ByteByTable(x1);
    var x3 := ByteByTable(x2);
    ByteByTableIs(x);
    ByteByTableIs(x1);
    ByteByTableIs(x2);
    ByteByTableIs(x3);
  }

  lemma SwathIs(c: Lanes<Word>, w: Lanes<Word>)
    ensures Swath(c, w) == AddSwath(Xor, ShiftWord, c, w)
  {
    SwathByTableIs(c.c0);
    SwathByTableIs(c.c1);
    SwathByTableIs(c.c2);
    SwathByTableIs(c.c3);
  }

  lemma TurnIs(c: Lanes<Word>, w: Word)
    ensures Turn(c, w) == AddWord(Xor, ShiftWord, c, w)
  {
    SwathByTableIs(c.c0);
  }

  lemma CombineIs(c: Lanes<Word>)
    ensures Combine(c) == Combined(Xor, ShiftWord, c)
  {
    var l1 := StepWord(0, c.c0);
    var l2 := StepWord(l1, c.c1);
    var l3 := StepWord(l2, c.c2);
    StepWordIs(0, c.c0);
    StepWordIs(l1, c.c1);
    StepWordIs(l2, c.c2);
    StepWordIs(l3, c.c3);
    XorZero(c.c0);
  }

  lemma XorZero(x: Word)
    ensures Xor(x, 0) == x
  {
  }

  // ----- what the partial checksums stand for -----

  lemma OverWord(l: Word, b: seq<Byte>)
    requires |b| == 4
    ensures Update(ByteStep, l, b) == ShiftWord(Xor(ReadWord(b), l))
  {
    WordSteps(l, b);
    XorCommutes(l, ReadWord(b));
  }

  /** Sixteen bytes, word by word. */
  lemma OverSwath(l: Word, b: seq<Byte>)
    requires |b| == 16
    ensures var w := ReadSwath(b);
            Update(ByteStep, l, b) == Combined(Xor, ShiftWord, w.(c0 := Xor(w.c0, l)))
  {
    InFour(ByteStep, l, b);
    var l1 := Update(ByteStep, l, b[0..4]);
    var l2 := Update(ByteStep, l1, b[4..8]);
    var l3 := Update(ByteStep, l2, b[8..12]);
    OverWord(l, b[0..4]);
    OverWord(l1, b[4..8]);
    OverWord(l2, b[8..12]);
    OverWord(l3, b[12..16]);
  }

  lemma InFour(step: (Word, Byte) -> Word, l: Word, b: seq<Byte>)
    requires |b| == 16
    ensures Update(step, l, b)
         == Update(step, Update(step, Update(step, Update(step, l, b[0..4]), b[4..8]), b[8..12]), b[12..16])
  {
    assert b == b[0..4] + (b[4..8] + (b[8..12] + b[12..16]));
    var l1 := Update(step, l, b[0..4]);
    UpdateConcat(step, l, b[0..4], b[4..8] + (b[8..12] + b[12..16]));
    UpdateConcat(step, l1, b[4..8], b[8..12] + b[12..16]);
    UpdateConcat(step, Update(step, l1, b[4..8]), b[8..12], b[12..16]);
  }

  /** A swath more. */
  lemma MoreSwath(l: Word, c: Lanes<Word>, b: seq<Byte>)
    requires |b| == 16 && Combined(Xor, ShiftWord, c) == l
    ensures Combined(Xor, ShiftWord, Swath(c, ReadSwath(b))) == Update(ByteStep, l, b)
  {
    SwathIs(c, ReadSwath(b));
    XorIsGroup();
    WordIsLinear();
    SwathStep(Xor, ShiftWord, c, ReadSwath(b));
    OverSwath(l, b);
  }

  /** A word more. */
  lemma MoreWord(l: Word, c: Lanes<Word>, b: seq<Byte>)
    requires |b| == 4 && Combined(Xor, ShiftWord, c) == l
    ensures Combined(Xor, ShiftWord, Turn(c, ReadWord(b))) == Update(ByteStep, l, b)
  {
    TurnIs(c, ReadWord(b));
    XorIsGroup();
    WordIsLinear();
    WordStep(Xor, ShiftWord, c, ReadWord(b));
    OverWord(l, b);
  }

  /** How far the data has been taken in. */
  ghost predicate Taken(crc: Word, data: seq<Byte>, p: nat, l: Word) {
    p <= |data| && l == Update(ByteStep, Flip(crc), data[..p])
  }

  lemma TakeMore(crc: Word, data: seq<Byte>, p: nat, l: Word, n: nat)
    requires Taken(crc, data, p, l) && p + n <= |data|
    ensures Taken(crc, data, p + n, Update(ByteStep, l, data[p..p + n]))
  {
    UpdateConcat(ByteStep, Flip(crc), data[..p], data[p..p + n]);
    assert data[..p + n] == data[..p] + data[p..p + n];
  }

  lemma TakeByte(crc: Word, data: seq<Byte>, p: nat, l: Word)
    requires Taken(crc, data, p, l) && p < |data|
    ensures Taken(crc, data, p + 1, StepByte(l, data[p]))
  {
    TakeMore(crc, data, p, l, 1);
    StepByteIs(l, data[p]);
    OneStep(ByteStep, l, data[p..p + 1]);
  }

  lemma OneStep(step: (Word, Byte) -> Word, l: Word, b: seq<Byte>)
    requires |b| == 1
    ensures Update(step, l, b) == step(l, b[0])
  {
    assert b[1..] == [];
  }

  // ----- the loops -----

  /** Extend, for data that starts `toAligned` bytes before an address divisible by four. */
  method ExtendByTables(crc: Word, data: seq<Byte>, toAligned: nat) returns (r: Word)
    requires toAligned < 4
    ensures r == Extend(crc, data)
  {
    var l, p := Flip(crc), 0;
    if toAligned <= |data| {
      l, p := TakeBytes(crc, data, l, 0, toAligned);
    }
    if |data| - p >= 16 {
      l, p := TakeSwaths(crc, data, l, p);
    }
    l, p := TakeBytes(crc, data, l, p, |data|);
    assert data[..|data|] == data;
    r := Flip(l);
  }

  method TakeBytes(ghost crc: Word, data: seq<Byte>, l0: Word, p0: nat, end: nat) returns (l: Word, p: nat)
    requires Taken(crc, data, p0, l0) && p0 <= end <= |data|
    ensures Taken(crc, data, end, l) && p == end
  {
    l, p := l0, p0;
    while p != end
      invariant p <= end && Taken(crc, data, p, l)
    {
      TakeByte(crc, data, p, l);
      l, p := StepByte(l, data[p]), p + 1;
    }
  }

  /** The four partial checksums stand for what has been taken in. */
  ghost predicate TakenByFour(crc: Word, data: seq<Byte>, p: nat, c: Lanes<Word>) {
    Taken(crc, data, p, Combined(Xor, ShiftWord, c))
  }

  lemma FirstSwath(crc: Word, data: seq<Byte>, p: nat, l: Word)
    requires Taken(crc, data, p, l) && p + 16 <= |data|
    ensures var w := ReadSwath(data[p..p + 16]); TakenByFour(crc, data, p + 16, w.(c0 := Xor(w.c0, l)))
  {
    OverSwath(l, data[p..p + 16]);
    TakeMore(crc, data, p, l, 16);
  }

  lemma NextSwath(crc: Word, data: seq<Byte>, p: nat, c: Lanes<Word>)
    requires TakenByFour(crc, data, p, c) && p + 16 <= |data|
    ensures TakenByFour(crc, data, p + 16, Swath(c, ReadSwath(data[p..p + 16])))
  {
    MoreSwath(Combined(Xor, ShiftWord, c), c, data[p..p + 16]);
    TakeMore(crc, data, p, Combined(Xor, ShiftWord, c), 16);
  }

  lemma NextWord(crc: Word, data: seq<Byte>, p: nat, c: Lanes<Word>)
    requires TakenByFour(crc, data, p, c) && p + 4 <= |data|
    ensures TakenByFour(crc, data, p + 4, Turn(c, ReadWord(data[p..p + 4])))
  {
    MoreWord(Combined(Xor, ShiftWord, c), c, data[p..p + 4]);
    TakeMore(crc, data, p, Combined(Xor, ShiftWord, c), 4);
  }

  lemma AllFour(crc: Word, data: seq<Byte>, p: nat, c: Lanes<Word>)
    requires TakenByFour(crc, data, p, c)
    ensures Taken(crc, data, p, Combine(c))
  {
    CombineIs(c);
  }

  method TakeSwaths(ghost crc: Word, data: seq<Byte>, l0: Word, p0: nat) returns (l: Word, p: nat)
    requires Taken(crc, data, p0, l0) && p0 + 16 <= |data|
    ensures Taken(crc, data, p, l)
  {
    var c := ReadSwath(data[p0..p0 + 16]);
    FirstSwath(crc, data, p0, l0);
    c, p := SwathLoop(crc, data, c.(c0 := Xor(c.c0, l0)), p0 + 16);
    c, p := WordLoop(crc, data, c, p);
    AllFour(crc, data, p, c);
    l := Combine(c);
  }

  method SwathLoop(ghost crc: Word, data: seq<Byte>, f: Lanes<Word>, p0: nat) returns (c: Lanes<Word>, p: nat)
    requires TakenByFour(crc, data, p0, f) && p0 <= |data|
    ensures TakenByFour(crc, data, p, c) && p <= |data| < p + 16
  {
    c, p := f, p0;
    while |data| - p >= 16
      invariant p <= |data| && TakenByFour(crc, data, p, c)
    {
      NextSwath(crc, data, p, c);
      c, p := Swath(c, ReadSwath(data[p..p + 16])), p + 16;
    }
  }

  method WordLoop(ghost crc: Word, data: seq<Byte>, f: Lanes<Word>, p0: nat) returns (c: Lanes<Word>, p: nat)
    requires TakenByFour(crc, data, p0, f) && p0 <= |data|
    ensures TakenByFour(crc, data, p, c) && p <= |data| < p + 4
  {
    c, p := f, p0;
    while |data| - p >= 4
      invariant p <= |data| && TakenByFour(crc, data, p, c)
    {
      NextWord(crc, data, p, c);
      c, p := Turn(c, ReadWord(data[p..p + 4])), p + 4;
    }
  }
}
