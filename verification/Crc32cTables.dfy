/** The steps and tables of util/crc32c.cc: a step over a byte is linear, four of them are one over a word, and the
    entries of the five tables are what the steps make of each bit. */
module Crc32cTables {
  import opened Bytes
  import opened Crc32c
  import opened Strides

  // ----- a step over a byte is linear -----

  lemma XorAssoc(a: Word, b: Word, c: Word)
    ensures Xor(Xor(a, b), c) == Xor(a, Xor(b, c))
  {
  }

  lemma XorCommutes(a: Word, b: Word)
    ensures Xor(a, b) == Xor(b, a)
  {
  }

  lemma XorIsGroup()
    ensures Group(Xor)
  {
    forall a, b, c ensures Xor(Xor(a, b), c) == Xor(a, Xor(b, c)) { XorAssoc(a, b, c); }
    forall a, b ensures Xor(a, b) == Xor(b, a) { XorCommutes(a, b); }
  }

  lemma Halves(a: Word, b: Word)
    ensures (a ^ b) >> 1 == (a >> 1) ^ (b >> 1) && (((a ^ b) & 1 == 1) <==> ((a & 1 == 1) != (b & 1 == 1)))
  {
  }

  lemma XorOne(a: Word, b: Word, p: Word)
    ensures (a ^ p) ^ b == (a ^ b) ^ p && a ^ (b ^ p) == (a ^ b) ^ p && (a ^ p) ^ (b ^ p) == a ^ b
  {
  }

  lemma BitXor(a: Word, b: Word)
    ensures ShiftBit(a ^ b) == ShiftBit(a) ^ ShiftBit(b)
  {
    Halves(a, b);
    XorOne(a >> 1, b >> 1, POLYNOMIAL);
  }

  lemma BitIsLinear()
    ensures Linear(Xor, ShiftBit)
  {
    forall a, b ensures ShiftBit(Xor(a, b)) == Xor(ShiftBit(a), ShiftBit(b)) { BitXor(a, b); }
  }

  lemma ByteIsLinear()
    ensures Linear(Xor, ShiftByte)
  {
    BitIsLinear();
    forall a, b ensures ShiftByte(Xor(a, b)) == Xor(ShiftByte(a), ShiftByte(b)) {
      EightIsLinear(Xor, ShiftBit, a, b);
    }
  }

  /** Bits above the low byte only move down. */
  lemma HighBits(x: Word)
    requires x & 0xff == 0
    ensures ShiftByte(x) == x >> 8
  {
  }

  lemma LowAndHigh(x: Word)
    ensures x == Xor(x & 0xff, x & 0xffff_ff00)
  {
  }

  lemma HighMoves(x: Word)
    ensures ShiftByte(x & 0xffff_ff00) == x >> 8
  {
    assert (x & 0xffff_ff00) & 0xff == 0 && (x & 0xffff_ff00) >> 8 == x >> 8;
    HighBits(x & 0xffff_ff00);
  }

  /** A step by table: the entry of the low byte, and the rest moved down. */
  lemma ByTable(x: Word)
    ensures ShiftByte(x) == Xor(ShiftByte(x & 0xff), x >> 8)
  {
    LowAndHigh(x);
    HighMoves(x);
    ByteIsLinear();
    StepOver(Xor, ShiftByte, x & 0xff, x & 0xffff_ff00, x >> 8);
  }

  // ----- words -----

  /** ReadUint32LE. */
  function ReadWord(b: seq<Byte>): Word
    requires |b| == 4
  {
    Join(Wide(b[0]), Join(Wide(b[1]), Join(Wide(b[2]), Wide(b[3]))))
  }

  /** A byte below the others. */
  function Join(c: Word, w: Word): Word {
    c | (w << 8)
  }

  lemma JoinIsSum(c: Word, w: Word)
    requires c < 0x100
    ensures Join(c, w) == Xor(c, w << 8)
  {
  }

  lemma JoinIsXor(l: Word, c: Word, w: Word)
    requires c < 0x100
    ensures Xor(l, Join(c, w)) == Xor(Xor(l, c), w << 8)
  {
    JoinIsSum(c, w);
    XorAssoc(l, c, w << 8);
  }

  lemma DownAgain(w: Word)
    requires w < 0x100_0000
    ensures (w << 8) & 0xff == 0 && (w << 8) >> 8 == w
  {
  }

  lemma TopMoves(w: Word)
    requires w < 0x100_0000
    ensures ShiftByte(w << 8) == w
  {
    DownAgain(w);
    HighBits(w << 8);
  }

  lemma JoinIsSmall(c: Word, w: Word)
    requires c < 0x100
    ensures w < 0x1_0000 ==> Join(c, w) < 0x100_0000
    ensures w < 0x100 ==> Join(c, w) < 0x1_0000
  {
  }

  /** The step over the lowest byte of a word. */
  lemma OneByte(c: Word, w: Word)
    requires c < 0x100 && w < 0x100_0000
    ensures Peels(Xor, ShiftByte, Join(c, w), c, w)
  {
    ByteIsLinear();
    TopMoves(w);
    forall l ensures ShiftByte(Xor(l, Join(c, w))) == Xor(ShiftByte(Xor(l, c)), w) {
      JoinIsXor(l, c, w);
      StepOver(Xor, ShiftByte, Xor(l, c), w << 8, w);
    }
  }

  lemma WideIsSmall(b: Byte)
    ensures Wide(b) < 0x100
  {
  }

  lemma FourSteps(step: (Word, Byte) -> Word, l: Word, b: seq<Byte>)
    requires |b| == 4
    ensures Update(step, l, b) == step(step(step(step(l, b[0]), b[1]), b[2]), b[3])
  {
    var l1 := step(l, b[0]);
    var l2 := step(l1, b[1]);
    var l3 := step(l2, b[2]);
    var l4 := step(l3, b[3]);
    assert b[1..][1..] == b[2..] && b[2..][1..] == b[3..] && b[3..][1..] == [];
    assert Update(step, l3, b[3..]) == Update(step, l4, []);
    assert Update(step, l1, b[1..]) == Update(step, l2, b[2..]) == Update(step, l3, b[3..]);
  }

  lemma Peeled(c0: Word, c1: Word, c2: Word, c3: Word)
    requires c0 < 0x100 && c1 < 0x100 && c2 < 0x100 && c3 < 0x100
    ensures var w2 := Join(c2, c3);
            var w1 := Join(c1, w2);
            Peels(Xor, ShiftByte, Join(c0, w1), c0, w1) && Peels(Xor, ShiftByte, w1, c1, w2)
            && Peels(Xor, ShiftByte, w2, c2, c3)
  {
    JoinIsSmall(c2, c3);
    JoinIsSmall(c1, Join(c2, c3));
    OneByte(c0, Join(c1, Join(c2, c3)));
    OneByte(c1, Join(c2, c3));
    OneByte(c2, c3);
  }

  lemma JoinedSteps(l: Word, c0: Word, c1: Word, c2: Word, c3: Word)
    requires c0 < 0x100 && c1 < 0x100 && c2 < 0x100 && c3 < 0x100
    ensures Four(ShiftByte, Xor(l, Join(c0, Join(c1, Join(c2, c3)))))
         == ShiftByte(Xor(ShiftByte(Xor(ShiftByte(Xor(ShiftByte(Xor(l, c0)), c1)), c2)), c3))
  {
    var w2 := Join(c2, c3);
    var w1 := Join(c1, w2);
    Peeled(c0, c1, c2, c3);
    FourOver(Xor, ShiftByte, l, Join(c0, w1), c0, w1, c1, w2, c2, c3);
  }

  /** Four steps over a byte are one over the word that the bytes are. */
  lemma WordSteps(l: Word, b: seq<Byte>)
    requires |b| == 4
    ensures Update(ByteStep, l, b) == Four(ShiftByte, Xor(l, ReadWord(b)))
  {
    WideIsSmall(b[0]);
    WideIsSmall(b[1]);
    WideIsSmall(b[2]);
    WideIsSmall(b[3]);
    JoinedSteps(l, Wide(b[0]), Wide(b[1]), Wide(b[2]), Wide(b[3]));
    FourSteps(ByteStep, l, b);
  }

  // ----- tables -----

  function Bit(c: Word, m: Word, e: Word): Word {
    if c & m == 0 then 0 else e
  }

  function Entry(t: Table<Word>, c: Word): Word {
    Sum8(Xor, Bit(c, 1, t.e1), Bit(c, 2, t.e2), Bit(c, 4, t.e4), Bit(c, 8, t.e8), Bit(c, 16, t.e16),
         Bit(c, 32, t.e32), Bit(c, 64, t.e64), Bit(c, 128, t.e128))
  }

  /** kByteExtensionTable and kStrideExtensionTable0 to 3. */
  const BYTE_TABLE: Table<Word> :=
    Table(0xf26b8303, 0xe13b70f7, 0xc79a971f, 0x8ad958cf, 0x105ec76f, 0x20bd8ede, 0x417b1dbc, 0x82f63b78)
  const STRIDE_TABLE0: Table<Word> :=
    Table(0x30d23865, 0x61a470ca, 0xc348e194, 0x837db5d9, 0x03171d43, 0x062e3a86, 0x0c5c750c, 0x18b8ea18)
  const STRIDE_TABLE1: Table<Word> :=
    Table(0x54075546, 0xa80eaa8c, 0x55f123e9, 0xabe247d2, 0x5228f955, 0xa451f2aa, 0x4d4f93a5, 0x9a9f274a)
  const STRIDE_TABLE2: Table<Word> :=
    Table(0x678efd01, 0xcf1dfa02, 0x9bd782f5, 0x3243731b, 0x6486e636, 0xc90dcc6c, 0x97f7ee29, 0x2a03aaa3)
  const STRIDE_TABLE3: Table<Word> :=
    Table(0xf20c0dfe, 0xe1f46d0d, 0xc604aceb, 0x89e52f27, 0x162628bf, 0x2c4c517e, 0x5898a2fc, 0xb13145f8)

  /** The powers of two from 2^0, 2^8, 2^16 and 2^24 on. */
  const POWERS0: Table<Word> := Table(0x1, 0x2, 0x4, 0x8, 0x10, 0x20, 0x40, 0x80)
  const POWERS8: Table<Word> := Table(0x100, 0x200, 0x400, 0x800, 0x1000, 0x2000, 0x4000, 0x8000)
  const POWERS16: Table<Word> :=
    Table(0x1_0000, 0x2_0000, 0x4_0000, 0x8_0000, 0x10_0000, 0x20_0000, 0x40_0000, 0x80_0000)
  const POWERS24: Table<Word> :=
    Table(0x100_0000, 0x200_0000, 0x400_0000, 0x800_0000, 0x1000_0000, 0x2000_0000, 0x4000_0000, 0x8000_0000)

  lemma ZeroStays(s: Word -> Word)
    requires Linear(Xor, s)
    ensures s(0) == 0
  {
    SameIsZero(s(0), s(0));
    assert Xor(0, 0) == 0;
  }

  lemma SameIsZero(x: Word, y: Word)
    ensures Xor(x, y) == x ==> y == 0
  {
  }

  lemma BitIs(s: Word -> Word, c: Word, m: Word, e: Word)
    requires Linear(Xor, s)
    ensures Bit(c, m, s(e)) == s(Bit(c, m, e))
  {
    ZeroStays(s);
  }

  /** Every entry of a table is what s makes of the entry of x. */
  lemma EntryIs(s: Word -> Word, x: Table<Word>, t: Table<Word>, c: Word)
    requires Linear(Xor, s) && Maps(s, x, t)
    ensures Entry(t, c) == s(Entry(x, c))
  {
    BitIs(s, c, 1, x.e1);
    BitIs(s, c, 2, x.e2);
    BitIs(s, c, 4, x.e4);
    BitIs(s, c, 8, x.e8);
    BitIs(s, c, 16, x.e16);
    BitIs(s, c, 32, x.e32);
    BitIs(s, c, 64, x.e64);
    BitIs(s, c, 128, x.e128);
    SumOfEight(Xor, s, Bit(c, 1, x.e1), Bit(c, 2, x.e2), Bit(c, 4, x.e4), Bit(c, 8, x.e8), Bit(c, 16, x.e16),
               Bit(c, 32, x.e32), Bit(c, 64, x.e64), Bit(c, 128, x.e128));
  }

  lemma Index0(c: Word)
    requires c < 0x100
    ensures Entry(POWERS0, c) == c
  {
  }

  lemma Index8(c: Word)
    requires c < 0x100
    ensures Entry(POWERS8, c) == c << 8
  {
  }

  lemma Index16(c: Word)
    requires c < 0x100
    ensures Entry(POWERS16, c) == c << 16
  {
  }

  lemma Index24(c: Word)
    requires c < 0x100
    ensures Entry(POWERS24, c) == c << 24
  {
  }

  lemma ByteTable()
    ensures Maps(ShiftByte, POWERS0, BYTE_TABLE)
  {
  }

  /** A step over the four bytes of a word. */
  function ShiftWord(l: Word): Word {
    Four(ShiftByte, l)
  }

  /** A step over sixteen bytes. */
  function ShiftSwath(l: Word): Word {
    Four(ShiftWord, l)
  }

  lemma BitCommutes()
    ensures Commute(ShiftSwath, ShiftBit)
  {
    assert Commute(ShiftBit, ShiftBit);
    forall x ensures ShiftByte(ShiftBit(x)) == ShiftBit(ShiftByte(x)) {
      FourCommutes(ShiftBit, ShiftBit, x);
      FourCommutes(ShiftBit, ShiftBit, Four(ShiftBit, x));
    }
    assert Commute(ShiftByte, ShiftBit);
    forall x ensures ShiftWord(ShiftBit(x)) == ShiftBit(ShiftWord(x)) { FourCommutes(ShiftByte, ShiftBit, x); }
    assert Commute(ShiftWord, ShiftBit);
    forall x ensures ShiftSwath(ShiftBit(x)) == ShiftBit(ShiftSwath(x)) { FourCommutes(ShiftWord, ShiftBit, x); }
  }

  /** The highest bit of a word behind sixteen bytes more. */
  lemma HighestBit()
    ensures ShiftSwath(0x8000_0000) == STRIDE_TABLE0.e128
  {
    FirstWord();
    SecondWord();
    ThirdWord();
    FourthWord();
  }

  lemma FirstWord()
    ensures ShiftWord(0x8000_0000) == 0x82f63b78
  {
  }

  lemma SecondWord()
    ensures ShiftWord(0x82f63b78) == 0x6ea2d55c
  {
  }

  lemma ThirdWord()
    ensures ShiftWord(0x6ea2d55c) == 0xa66805eb
  {
  }

  lemma FourthWord()
    ensures ShiftWord(0xa66805eb) == 0x18b8ea18
  {
  }

  lemma PowersHalved()
    ensures Halved(ShiftBit, POWERS24) && ShiftBit(POWERS24.e1) == POWERS16.e128
    ensures Halved(ShiftBit, POWERS16) && ShiftBit(POWERS16.e1) == POWERS8.e128
    ensures Halved(ShiftBit, POWERS8) && ShiftBit(POWERS8.e1) == POWERS0.e128
    ensures Halved(ShiftBit, POWERS0)
  {
  }

  lemma TablesHalved()
    ensures Halved(ShiftBit, STRIDE_TABLE0) && ShiftBit(STRIDE_TABLE0.e1) == STRIDE_TABLE1.e128
    ensures Halved(ShiftBit, STRIDE_TABLE1) && ShiftBit(STRIDE_TABLE1.e1) == STRIDE_TABLE2.e128
    ensures Halved(ShiftBit, STRIDE_TABLE2) && ShiftBit(STRIDE_TABLE2.e1) == STRIDE_TABLE3.e128
    ensures Halved(ShiftBit, STRIDE_TABLE3)
  {
  }

  /** The tables hold what a step over sixteen bytes makes of each bit of a word. */
  lemma StrideTables()
    ensures Maps(ShiftSwath, POWERS24, STRIDE_TABLE0) && Maps(ShiftSwath, POWERS16, STRIDE_TABLE1)
    ensures Maps(ShiftSwath, POWERS8, STRIDE_TABLE2) && Maps(ShiftSwath, POWERS0, STRIDE_TABLE3)
  {
    HighestBit();
    BitCommutes();
    PowersHalved();
    TablesHalved();
    FourTables(ShiftSwath, ShiftBit, POWERS24, POWERS16, POWERS8, POWERS0, STRIDE_TABLE0, STRIDE_TABLE1, STRIDE_TABLE2,
               STRIDE_TABLE3);
  }

  lemma FourTables(s: Word -> Word, t: Word -> Word, x0: Table<Word>, x1: Table<Word>, x2: Table<Word>,
                   x3: Table<Word>, e0: Table<Word>, e1: Table<Word>, e2: Table<Word>, e3: Table<Word>)
    requires Commute(s, t) && s(x0.e128) == e0.e128
    requires Halved(t, x0) && Halved(t, x1) && Halved(t, x2) && Halved(t, x3)
    requires Halved(t, e0) && Halved(t, e1) && Halved(t, e2) && Halved(t, e3)
    requires t(x0.e1) == x1.e128 && t(x1.e1) == x2.e128 && t(x2.e1) == x3.e128
    requires t(e0.e1) == e1.e128 && t(e1.e1) == e2.e128 && t(e2.e1) == e3.e128
    ensures Maps(s, x0, e0) && Maps(s, x1, e1) && Maps(s, x2, e2) && Maps(s, x3, e3)
  {
    HalvedTable(s, t, x0, e0);
    HalvedTable(s, t, x1, e1);
    HalvedTable(s, t, x2, e2);
    HalvedTable(s, t, x3, e3);
  }

  // ----- steps by table -----

  /** STEP1, and each turn of STEP4W: the table entry of the low byte, and the rest moved down. */
  function ByteByTable(x: Word): Word {
    Xor(Entry(BYTE_TABLE, x & 0xff), x >> 8)
  }

  lemma ByteByTableIs(x: Word)
    ensures ByteByTable(x) == ShiftByte(x)
  {
    ByTable(x);
    ByteIsLinear();
    ByteTable();
    EntryIs(ShiftByte, POWERS0, BYTE_TABLE, x & 0xff);
    Index0(x & 0xff);
  }

  /** STEP4 without the new word: one table for each byte. */
  function SwathByTable(x: Word): Word {
    Xor(Xor(Entry(STRIDE_TABLE3, x & 0xff), Entry(STRIDE_TABLE2, (x >> 8) & 0xff)),
        Xor(Entry(STRIDE_TABLE1, (x >> 16) & 0xff), Entry(STRIDE_TABLE0, x >> 24)))
  }

  lemma WordIsLinear()
    ensures Linear(Xor, ShiftWord)
  {
    ByteIsLinear();
    forall a, b ensures ShiftWord(Xor(a, b)) == Xor(ShiftWord(a), ShiftWord(b)) { FourIsLinear(Xor, ShiftByte, a, b); }
  }

  lemma SwathIsLinear()
    ensures Linear(Xor, ShiftSwath)
  {
    WordIsLinear();
    forall a, b ensures ShiftSwath(Xor(a, b)) == Xor(ShiftSwath(a), ShiftSwath(b)) {
      FourIsLinear(Xor, ShiftWord, a, b);
    }
  }

  lemma BytesOfWord(x: Word)
    ensures x == Xor(Xor(x & 0xff, (((x >> 8) & 0xff) << 8)), Xor((((x >> 16) & 0xff) << 16), (x >> 24) << 24))
  {
  }

  lemma LowIsSmall(x: Word)
    ensures x & 0xff < 0x100
  {
  }

  lemma TopIsSmall(x: Word)
    ensures x >> 24 < 0x100
  {
  }

  lemma Entry3(b: Word)
    requires b < 0x100
    ensures Entry(STRIDE_TABLE3, b) == ShiftSwath(b)
  {
    SwathIsLinear();
    StrideTables();
    EntryIs(ShiftSwath, POWERS0, STRIDE_TABLE3, b);
    Index0(b);
  }

  lemma LowEntry3(b: Word)
    ensures Entry(STRIDE_TABLE3, b & 0xff) == ShiftSwath(b & 0xff)
  {
    LowIsSmall(b);
    Entry3(b & 0xff);
  }

  lemma Entry2(b: Word)
    requires b < 0x100
    ensures Entry(STRIDE_TABLE2, b) == ShiftSwath(b << 8)
  {
    SwathIsLinear();
    StrideTables();
    EntryIs(ShiftSwath, POWERS8, STRIDE_TABLE2, b);
    Index8(b);
  }

  lemma LowEntry2(b: Word)
    ensures Entry(STRIDE_TABLE2, b & 0xff) == ShiftSwath((b & 0xff) << 8)
  {
    LowIsSmall(b);
    Entry2(b & 0xff);
  }

  lemma Entry1(b: Word)
    requires b < 0x100
    ensures Entry(STRIDE_TABLE1, b) == ShiftSwath(b << 16)
  {
    SwathIsLinear();
    StrideTables();
    EntryIs(ShiftSwath, POWERS16, STRIDE_TABLE1, b);
    Index16(b);
  }

  lemma LowEntry1(b: Word)
    ensures Entry(STRIDE_TABLE1, b & 0xff) == ShiftSwath((b & 0xff) << 16)
  {
    LowIsSmall(b);
    Entry1(b & 0xff);
  }

  lemma Entry0(b: Word)
    requires b < 0x100
    ensures Entry(STRIDE_TABLE0, b) == ShiftSwath(b << 24)
  {
    SwathIsLinear();
    StrideTables();
    EntryIs(ShiftSwath, POWERS24, STRIDE_TABLE0, b);
    Index24(b);
  }

  lemma TopEntry(x: Word)
    ensures Entry(STRIDE_TABLE0, x >> 24) == ShiftSwath((x >> 24) << 24)
  {
    TopIsSmall(x);
    Entry0(x >> 24);
  }

  lemma SwathOfBytes(x: Word)
    ensures ShiftSwath(x) == Xor(Xor(ShiftSwath(x & 0xff), ShiftSwath(((x >> 8) & 0xff) << 8)),
                                 Xor(ShiftSwath(((x >> 16) & 0xff) << 16), ShiftSwath((x >> 24) << 24)))
  {
    BytesOfWord(x);
    SwathIsLinear();
    Assembled(ShiftSwath, x, x & 0xff, ((x >> 8) & 0xff) << 8, ((x >> 16) & 0xff) << 16, (x >> 24) << 24);
  }

  lemma SwathByTableIs(x: Word)
    ensures SwathByTable(x) == ShiftSwath(x)
  {
    LowEntry3(x);
    LowEntry2(x >> 8);
    LowEntry1(x >> 16);
    TopEntry(x);
    SwathOfBytes(x);
  }

  lemma Assembled(s: Word -> Word, x: Word, a: Word, b: Word, c: Word, d: Word)
    requires Linear(Xor, s) && x == Xor(Xor(a, b), Xor(c, d))
    ensures s(x) == Xor(Xor(s(a), s(b)), Xor(s(c), s(d)))
  {
    assert s(Xor(Xor(a, b), Xor(c, d))) == Xor(s(Xor(a, b)), s(Xor(c, d)));
  }

  // ----- the value that CanAccelerateCRC32C expects -----

  ghost predicate IsTestBuffer(data: seq<Byte>) {
    data == [84, 101, 115, 116, 67, 82, 67, 66, 117, 102, 102, 101, 114]
  }

  lemma TestPart0(d: seq<Byte>)
    requires d == [84, 101, 115, 116]
    ensures Update(ByteStep, 0xffff_ffff, d) == 0xae7a_99b4
  {
    assert ByteStep(0xffff_ffff, 84) == 0x3b3d_e162;
    assert ByteStep(0x3b3d_e162, 101) == 0xd4f1_590a;
    assert ByteStep(0xd4f1_590a, 115) == 0x09fe_7e98;
    assert ByteStep(0x09fe_7e98, 116) == 0xae7a_99b4;
    assert [84, 101, 115, 116][1..] == [101, 115, 116];
    assert [101, 115, 116][1..] == [115, 116];
    assert [115, 116][1..] == [116];
    assert [116][1..] == [];
  }

  lemma TestSlice0(data: seq<Byte>)
    requires IsTestBuffer(data)
    ensures Update(ByteStep, 0xffff_ffff, data[..4]) == 0xae7a_99b4
  {
    TestPart0(data[..4]);
  }

  lemma TestPart1(d: seq<Byte>)
    requires d == [67, 82, 67, 66]
    ensures Update(ByteStep, 0xae7a_99b4, d) == 0x20f1_ac0e
  {
    assert ByteStep(0xae7a_99b4, 67) == 0x270a_7107;
    assert ByteStep(0x270a_7107, 82) == 0x64f3_c4be;
    assert ByteStep(0x64f3_c4be, 67) == 0x4c22_d062;
    assert ByteStep(0x4c22_d062, 66) == 0x20f1_ac0e;
    assert [67, 82, 67, 66][1..] == [82, 67, 66];
    assert [82, 67, 66][1..] == [67, 66];
    assert [67, 66][1..] == [66];
    assert [66][1..] == [];
  }

  lemma TestSlice1(data: seq<Byte>)
    requires IsTestBuffer(data)
    ensures Update(ByteStep, 0xae7a_99b4, data[4..8]) == 0x20f1_ac0e
  {
    TestPart1(data[4..8]);
  }

  lemma TestPart2(d: seq<Byte>)
    requires d == [117, 102, 102, 101, 114]
    ensures Update(ByteStep, 0x20f1_ac0e, d) == 0x2343_a605
  {
    assert ByteStep(0x20f1_ac0e, 117) == 0xe831_0e9a;
    assert ByteStep(0xe831_0e9a, 102) == 0xbec5_91ab;
    assert ByteStep(0xbec5_91ab, 102) == 0x7c1b_af86;
    assert ByteStep(0x7c1b_af86, 101) == 0xf01c_4041;
    assert ByteStep(0xf01c_4041, 114) == 0x2343_a605;
    assert [117, 102, 102, 101, 114][1..] == [102, 102, 101, 114];
    assert [102, 102, 101, 114][1..] == [102, 101, 114];
    assert [102, 101, 114][1..] == [101, 114];
    assert [101, 114][1..] == [114];
    assert [114][1..] == [];
  }

  lemma TestSlice2(data: seq<Byte>)
    requires IsTestBuffer(data)
    ensures Update(ByteStep, 0x20f1_ac0e, data[8..]) == 0x2343_a605
  {
    TestPart2(data[8..]);
  }

  lemma InParts(step: (Word, Byte) -> Word, l0: Word, l1: Word, l2: Word, l3: Word, data: seq<Byte>)
    requires |data| == 13 && Update(step, l0, data[..4]) == l1
    requires Update(step, l1, data[4..8]) == l2 && Update(step, l2, data[8..]) == l3
    ensures Update(step, l0, data) == l3
  {
    UpdateConcat(step, l0, data[..4], data[4..8] + data[8..]);
    UpdateConcat(step, l1, data[4..8], data[8..]);
    assert data == data[..4] + (data[4..8] + data[8..]);
  }

  lemma TestUpdate(data: seq<Byte>)
    requires IsTestBuffer(data)
    ensures Update(ByteStep, ONES, data) == 0x2343_a605
  {
    TestSlice0(data);
    TestSlice1(data);
    TestSlice2(data);
    InParts(ByteStep, ONES, 0xae7a_99b4, 0x20f1_ac0e, 0x2343_a605, data);
  }

  /** The checksum of "TestCRCBuffer". */
  lemma TestValue(data: seq<Byte>)
    requires IsTestBuffer(data)
    ensures Value(data) == 0xdcbc_59fa
  {
    TestUpdate(data);
    assert Flip(0) == ONES;
  }
}
