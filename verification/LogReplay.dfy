/** The log survives truncation at any byte: reading the first k bytes of a file of records returns exactly the records
    that end within k, in order, and reports no corruption. */
module LogReplay {
  import opened Bytes
  import opened LogFormat

  ghost predicate Holds(F: seq<Byte>, off: nat, bytes: seq<Byte>) {
    off + |bytes| <= |F| && forall i | 0 <= i < |bytes| :: F[off + i] == bytes[i]
  }

  lemma HoldsParts(F: seq<Byte>, off: nat, a: seq<Byte>, b: seq<Byte>)
    requires Holds(F, off, a + b)
    ensures Holds(F, off, a) && Holds(F, off + |a|, b)
  {
    forall i | 0 <= i < |a| ensures F[off + i] == a[i] {
      assert (a + b)[i] == a[i];
    }
    forall i | 0 <= i < |b| ensures F[off + |a| + i] == b[i] {
      assert (a + b)[|a| + i] == b[i];
    }
  }

  /** The data is the file cut off at some byte. */
  ghost predicate IsPrefix(data: seq<Byte>, F: seq<Byte>) {
    |data| <= |F| && forall i | 0 <= i < |data| :: data[i] == F[i]
  }

  /** The reader stands at offset p of `data`: its buffer is the rest of p's block, or the block was cut short by the
      end of the data, or p is at a block boundary and nothing is buffered yet. */
  ghost predicate At(data: seq<Byte>, b: Buf, p: nat) {
    && ValidBuf(data, b) && b.pos == p
    && if b.eof then b.end == |data| && |data| - p < Room(p)
       else b.end - p == Room(p) || (b.end == p && Room(p) == BLOCK)
  }

  /** A refill at a block boundary buffers the next block, or what there is of it. */
  lemma RefillAt(data: seq<Byte>, b: Buf)
    requires ValidBuf(data, b) && Room(b.end) == BLOCK
    ensures At(data, Refill(data, b), b.end)
    ensures Refill(data, b).end == if |data| - b.end < BLOCK then |data| else b.end + BLOCK
  {
  }

  /** With the reader at `off`, the next header, if the data reaches it, is parsed from a buffer that starts there. */
  lemma ReachHeader(data: seq<Byte>, c: Checksum, b: Buf, off: nat) returns (b': Buf)
    requires At(data, b, off)
    ensures var q := HeaderPos(off);
            if q + HEADER <= |data| then
              && At(data, b', q) && b'.end - q >= HEADER
              && ReadPhysical(data, c, b) == ParseRecord(data, c, b')
            else
              ReadPhysical(data, c, b).code == EOF && ReadPhysical(data, c, b).drops == []
  {
    HeaderFits(off);
    BlockEnd(off);
    if b.end - b.pos >= HEADER {
      b' := b;
    } else if b.eof {
      b' := b;
    } else {
      b' := Refill(data, b);
      assert Room(b.end) == BLOCK && b.end == HeaderPos(off);
      RefillAt(data, b);
    }
  }

  lemma ThreeParts(data: seq<Byte>, q: nat, s: seq<Byte>, m: seq<Byte>, frag: seq<Byte>)
    requires |s| == 4 && |m| == 3 && Holds(data, q, s + m + frag)
    ensures data[q..q + 4] == s && data[q + 4] == m[0] && data[q + 5] == m[1] && data[q + 6] == m[2]
    ensures data[q + HEADER..q + HEADER + |frag|] == frag
  {
    HoldsParts(data, q, s + m, frag);
    HoldsParts(data, q, s, m);
    assert data[q + 4 + 0] == m[0] && data[q + 4 + 1] == m[1] && data[q + 4 + 2] == m[2];
  }

  lemma HeaderBytes(c: Checksum, data: seq<Byte>, q: nat, t: Byte, frag: seq<Byte>)
    requires |frag| <= BLOCK - HEADER && Holds(data, q, Physical(c, t, frag))
    ensures data[q + 4] as int + 256 * data[q + 5] as int == |frag| && data[q + 6] == t
    ensures data[q..q + 4] == c.stamp(t, frag) && data[q + HEADER..q + HEADER + |frag|] == frag
  {
    ThreeParts(data, q, c.stamp(t, frag), [|frag| % 256, |frag| / 256, t], frag);
  }

  /** The header of a written record, seen through the cut data. */
  lemma HeaderInPrefix(F: seq<Byte>, data: seq<Byte>, c: Checksum, q: nat, t: Byte, frag: seq<Byte>)
    requires IsPrefix(data, F) && q + HEADER <= |data|
    requires |frag| <= BLOCK - HEADER && Holds(F, q, Physical(c, t, frag))
    ensures data[q + 4] as int + 256 * data[q + 5] as int == |frag| && data[q + 6] == t
    ensures data[q..q + 4] == c.stamp(t, frag)
    ensures q + HEADER + |frag| <= |data| ==> data[q + HEADER..q + HEADER + |frag|] == frag
  {
    HeaderBytes(c, F, q, t, frag);
    assert data[q..q + 4] == F[q..q + 4];
    if q + HEADER + |frag| <= |data| {
      assert data[q + HEADER..q + HEADER + |frag|] == F[q + HEADER..q + HEADER + |frag|];
    }
  }

  lemma MovePast(data: seq<Byte>, b: Buf, q: nat, n: nat)
    requires At(data, b, q) && n <= b.end - q && n <= Room(q)
    ensures At(data, Buf(q + n, b.end, b.eof), q + n)
  {
    if n < Room(q) { RoomAfter(q, n); } else { BlockEnd(q); }
  }

  /** Parsing a whole record, or one whose end is cut off. */
  lemma ParseWritten(F: seq<Byte>, data: seq<Byte>, c: Checksum, b: Buf, q: nat, t: Byte, frag: seq<Byte>)
    requires Sound(c) && IsPrefix(data, F) && At(data, b, q) && b.end - q >= HEADER
    requires HEADER + |frag| <= Room(q) && Holds(F, q, Physical(c, t, frag)) && FULL <= t <= LAST
    ensures var r := ParseRecord(data, c, b);
            && r.drops == []
            && if q + HEADER + |frag| <= |data| then
                 r.code == t && r.frag == frag && At(data, r.buf, q + HEADER + |frag|)
               else r.code == EOF
  {
    HeaderInPrefix(F, data, c, q, t, frag);
    if q + HEADER + |frag| <= |data| {
      MovePast(data, b, q, HEADER + |frag|);
    }
  }

  lemma ReadWritten(F: seq<Byte>, data: seq<Byte>, c: Checksum, b: Buf, off: nat, t: Byte, frag: seq<Byte>)
    requires Sound(c) && IsPrefix(data, F) && At(data, b, off)
    requires HEADER + |frag| <= Room(HeaderPos(off)) && Holds(F, HeaderPos(off), Physical(c, t, frag))
             && FULL <= t <= LAST
    ensures var r, e := ReadPhysical(data, c, b), HeaderPos(off) + HEADER + |frag|;
            && r.drops == []
            && if e <= |data| then r.code == t && r.frag == frag && At(data, r.buf, e) else r.code == EOF
  {
    var b' := ReachHeader(data, c, b, off);
    if HeaderPos(off) + HEADER <= |data| {
      ParseWritten(F, data, c, b', HeaderPos(off), t, frag);
    }
  }

  /** What follows the first fragment of a record. */
  ghost function TailOf(c: Checksum, off: nat, rec: seq<Byte>): seq<Byte> {
    var n := FragmentLength(off, rec);
    if n == |rec| then [] else LogOf(c, HeaderPos(off) + HEADER + n, rec[n..], false)
  }

  lemma FirstFragment(F: seq<Byte>, c: Checksum, off: nat, rec: seq<Byte>, begin: bool)
    requires Holds(F, off, LogOf(c, off, rec, begin))
    ensures var n, q := FragmentLength(off, rec), HeaderPos(off);
            && Holds(F, q, Physical(c, TypeOf(begin, n == |rec|), rec[..n]))
            && Holds(F, q + HEADER + n, TailOf(c, off, rec))
            && off + |LogOf(c, off, rec, begin)| == q + HEADER + n + |TailOf(c, off, rec)|
  {
    var n, q := FragmentLength(off, rec), HeaderPos(off);
    var head, tail := Fragment(c, off, rec, begin), TailOf(c, off, rec);
    LogOfUnfold(c, off, rec, begin);
    HoldsParts(F, off, head, tail);
    HoldsParts(F, off, Zeros(q - off), Physical(c, TypeOf(begin, n == |rec|), rec[..n]));
  }

  lemma LogOfUnfold(c: Checksum, off: nat, rec: seq<Byte>, begin: bool)
    ensures LogOf(c, off, rec, begin) == Fragment(c, off, rec, begin) + TailOf(c, off, rec)
  {
    if FragmentLength(off, rec) == |rec| {
      assert Fragment(c, off, rec, begin) + [] == Fragment(c, off, rec, begin);
    }
  }

  /** One turn of ReadRecord's loop when the writer's next fragment comes in. */
  lemma OneTurn(data: seq<Byte>, c: Checksum, s: Loop, begin: bool, end: bool, frag: seq<Byte>)
    requires ValidBuf(data, s.buf) && s.inFragment == !begin && (begin ==> s.scratch == [])
    requires ReadPhysical(data, c, s.buf).code == TypeOf(begin, end)
          && ReadPhysical(data, c, s.buf).frag == frag && ReadPhysical(data, c, s.buf).drops == []
    ensures var b' := ReadPhysical(data, c, s.buf).buf;
            TakeTurn(data, c, s) == if end then Return(LogicalRead(true, s.scratch + frag, b', s.drops))
                                    else Again(Loop(b', true, s.scratch + frag, s.drops))
  {
    assert s.drops + [] == s.drops && s.drops + [] + [] == s.drops;
    assert begin ==> s.scratch + frag == frag;
  }

  /** One turn when the data ends in the middle of the fragment. */
  lemma CutTurn(data: seq<Byte>, c: Checksum, s: Loop)
    requires ValidBuf(data, s.buf) && ReadPhysical(data, c, s.buf).code == EOF
             && ReadPhysical(data, c, s.buf).drops == []
    ensures var t := TakeTurn(data, c, s); t.Return? && !t.read.found && t.read.drops == s.drops
  {
    assert s.drops + [] == s.drops;
  }

  /** The read returned `record` and stopped at offset e, if the data reaches e; otherwise it found nothing. */
  ghost predicate EndsAt(data: seq<Byte>, r: LogicalRead, drops: seq<nat>, e: nat, record: seq<Byte>) {
    && r.drops == drops
    && if e <= |data| then r.found && r.record == record && At(data, r.buf, e) else !r.found
  }

  /** One fragment of a record, with the offset of its header. */
  datatype Piece = Piece(at: nat, kind: Byte, payload: seq<Byte>)

  ghost function EndOf(p: Piece): nat {
    p.at + HEADER + |p.payload|
  }

  ghost predicate PieceAt(F: seq<Byte>, c: Checksum, off: nat, p: Piece, kind: Byte) {
    && p.at == HeaderPos(off) && p.kind == kind && HEADER + |p.payload| <= Room(p.at)
    && Holds(F, p.at, Physical(c, kind, p.payload))
  }

  /** The fragments of one record, from `off` on. */
  ghost predicate PiecesAt(F: seq<Byte>, c: Checksum, off: nat, ps: seq<Piece>, begin: bool)
    decreases |ps|
  {
    && ps != [] && PieceAt(F, c, off, ps[0], TypeOf(begin, |ps| == 1))
    && (|ps| > 1 ==> PiecesAt(F, c, EndOf(ps[0]), ps[1..], false))
  }

  ghost function Payload(ps: seq<Piece>): seq<Byte> {
    if ps == [] then [] else ps[0].payload + Payload(ps[1..])
  }

  /** What AddRecord wrote is such a list of fragments. */
  lemma {:induction false} WrittenPieces(F: seq<Byte>, c: Checksum, off: nat, rec: seq<Byte>, begin: bool)
    returns (ps: seq<Piece>)
    requires Holds(F, off, LogOf(c, off, rec, begin))
    ensures PiecesAt(F, c, off, ps, begin) && Payload(ps) == rec
    ensures EndOf(ps[|ps| - 1]) == off + |LogOf(c, off, rec, begin)|
    decreases |rec|, if FragmentLength(off, rec) == 0 then 1 else 0
  {
    var n := FragmentLength(off, rec);
    var p := Piece(HeaderPos(off), TypeOf(begin, n == |rec|), rec[..n]);
    FirstFragment(F, c, off, rec, begin);
    if n == |rec| {
      ps := [p];
      assert rec[..n] == rec && ps[1..] == [] && rec + [] == rec;
    } else {
      TailIsSmaller(off, rec);
      var ps' := WrittenPieces(F, c, EndOf(p), rec[n..], false);
      ps := [p] + ps';
      assert ps[1..] == ps' && rec == rec[..n] + rec[n..];
      assert ps[|ps| - 1] == ps'[|ps'| - 1];
    }
  }

  lemma TailIsSmaller(off: nat, rec: seq<Byte>)
    requires FragmentLength(off, rec) < |rec|
    ensures var n := FragmentLength(off, rec);
            |rec[n..]| < |rec| || (n == 0 && FragmentLength(HeaderPos(off) + HEADER + n, rec[n..]) > 0)
  {
    NextFragmentProgress(off, rec);
    assert rec[0..] == rec;
  }

  /** The next physical read brings in the fragment, or finds it cut off. */
  ghost predicate Comes(data: seq<Byte>, c: Checksum, b: Buf, p: Piece, kind: Byte)
    requires ValidBuf(data, b)
  {
    var r := ReadPhysical(data, c, b);
    && r.drops == []
    && if EndOf(p) <= |data| then r.code == kind && r.frag == p.payload && At(data, r.buf, EndOf(p)) else r.code == EOF
  }

  lemma PieceComes(F: seq<Byte>, data: seq<Byte>, c: Checksum, b: Buf, off: nat, p: Piece, kind: Byte)
    requires Sound(c) && IsPrefix(data, F) && At(data, b, off) && PieceAt(F, c, off, p, kind) && FULL <= kind <= LAST
    ensures Comes(data, c, b, p, kind)
  {
    ReadWritten(F, data, c, b, off, kind, p.payload);
  }

  /** One turn of the loop after that: the whole record, a cut, or the start of more. */
  ghost predicate Turned(data: seq<Byte>, c: Checksum, s: Loop, p: Piece, end: bool)
    requires ValidBuf(data, s.buf)
  {
    var t, b' := TakeTurn(data, c, s), ReadPhysical(data, c, s.buf).buf;
    if EndOf(p) > |data| then t.Return? && !t.read.found && t.read.drops == s.drops
    else
      && At(data, b', EndOf(p))
      && t == if end then Return(LogicalRead(true, s.scratch + p.payload, b', s.drops))
              else Again(Loop(b', true, s.scratch + p.payload, s.drops))
  }

  lemma TurnOnPiece(data: seq<Byte>, c: Checksum, s: Loop, p: Piece, begin: bool, end: bool)
    requires ValidBuf(data, s.buf) && Comes(data, c, s.buf, p, TypeOf(begin, end))
    requires s.inFragment == !begin && (begin ==> s.scratch == [])
    ensures Turned(data, c, s, p, end)
  {
    if EndOf(p) <= |data| {
      OneTurn(data, c, s, begin, end, p.payload);
    } else {
      CutTurn(data, c, s);
    }
  }

  lemma ReadPiece(F: seq<Byte>, data: seq<Byte>, c: Checksum, s: Loop, off: nat, p: Piece, begin: bool, end: bool)
    requires Sound(c) && IsPrefix(data, F) && At(data, s.buf, off) && PieceAt(F, c, off, p, TypeOf(begin, end))
    requires s.inFragment == !begin && (begin ==> s.scratch == [])
    ensures Turned(data, c, s, p, end)
  {
    PieceComes(F, data, c, s.buf, off, p, TypeOf(begin, end));
    TurnOnPiece(data, c, s, p, begin, end);
  }

  lemma {:induction false} PiecesGrow(F: seq<Byte>, c: Checksum, off: nat, ps: seq<Piece>, begin: bool)
    requires PiecesAt(F, c, off, ps, begin)
    ensures EndOf(ps[0]) <= EndOf(ps[|ps| - 1])
    decreases |ps|
  {
    if |ps| > 1 {
      PiecesGrow(F, c, EndOf(ps[0]), ps[1..], false);
    }
  }

  lemma PayloadStep(scratch: seq<Byte>, ps: seq<Piece>)
    requires ps != []
    ensures (scratch + ps[0].payload) + Payload(ps[1..]) == scratch + Payload(ps)
  {
  }

  lemma {:induction false} ReadPieces(F: seq<Byte>, data: seq<Byte>, c: Checksum, s: Loop, off: nat, ps: seq<Piece>,
                                      begin: bool)
    requires Sound(c) && IsPrefix(data, F) && At(data, s.buf, off) && PiecesAt(F, c, off, ps, begin)
    requires s.inFragment == !begin && (begin ==> s.scratch == [])
    ensures EndsAt(data, ReadLogical(data, c, s), s.drops, EndOf(ps[|ps| - 1]), s.scratch + Payload(ps))
    decreases |ps|
  {
    var p := ps[0];
    ReadPiece(F, data, c, s, off, p, begin, |ps| == 1);
    PiecesGrow(F, c, off, ps, begin);
    var t := TakeTurn(data, c, s);
    if |ps| == 1 {
      assert Payload(ps) == p.payload + Payload(ps[1..]) == p.payload;
    } else if EndOf(p) <= |data| {
      ReadPieces(F, data, c, t.next, EndOf(p), ps[1..], false);
      PayloadStep(s.scratch, ps);
      assert ps[1..][|ps| - 2] == ps[|ps| - 1];
    }
  }

  /** Reading one logical record that was written at `off`. */
  lemma ReadWrittenRecord(F: seq<Byte>, data: seq<Byte>, c: Checksum, b: Buf, off: nat, rec: seq<Byte>, drops: seq<nat>)
    requires Sound(c) && IsPrefix(data, F) && At(data, b, off) && Holds(F, off, LogOf(c, off, rec, true))
    ensures EndsAt(data, ReadLogical(data, c, Loop(b, false, [], drops)), drops, off + |LogOf(c, off, rec, true)|, rec)
  {
    var ps := WrittenPieces(F, c, off, rec, true);
    ReadPieces(F, data, c, Loop(b, false, [], drops), off, ps, true);
    assert [] + rec == rec;
  }

  // ----- whole files -----

  /** Nothing is read past the end of the written bytes. */
  lemma ReadAtEnd(data: seq<Byte>, c: Checksum, b: Buf, drops: seq<nat>)
    requires At(data, b, |data|)
    ensures var r := ReadLogical(data, c, Loop(b, false, [], drops)); !r.found && r.drops == drops
  {
    var b' := ReachHeader(data, c, b, |data|);
    assert drops + [] == drops;
  }

  /** A log written from `off`, cut at some byte and read from `off`: exactly the complete records, and no drops. */
  lemma {:induction false} TruncatedLogFrom(F: seq<Byte>, data: seq<Byte>, c: Checksum, b: Buf, off: nat,
                                            recs: seq<seq<Byte>>, drops: seq<nat>)
    requires Sound(c) && IsPrefix(data, F) && At(data, b, off)
    requires Holds(F, off, LogFrom(AddRecord(c), off, recs)) && |F| == off + |LogFrom(AddRecord(c), off, recs)|
    ensures Drain(data, c, b, drops) == (Complete(AddRecord(c), off, recs, |data|), drops)
    decreases recs
  {
    var w := AddRecord(c);
    if recs == [] {
      ReadAtEnd(data, c, b, drops);
    } else {
      var r := w(off, recs[0]);
      HoldsParts(F, off, r, LogFrom(w, off + |r|, recs[1..]));
      ReadWrittenRecord(F, data, c, b, off, recs[0], drops);
      if off + |r| <= |data| {
        var l := ReadLogical(data, c, Loop(b, false, [], drops));
        TruncatedLogFrom(F, data, c, l.buf, off + |r|, recs[1..], drops);
      }
    }
  }

  /** The log round trip under truncation at any byte, for the log's own checksum, whether or not it is verified. */
  lemma TruncatedLogRoundTrip(recs: seq<seq<Byte>>, k: nat, verify: bool)
    requires k <= |LogFrom(AddRecord(Crc(verify)), 0, recs)|
    ensures var w := AddRecord(Crc(verify));
            Drain(LogFrom(w, 0, recs)[..k], Crc(verify), Buf(0, 0, false), []) == (Complete(w, 0, recs, k), [])
  {
    var c := Crc(verify);
    var F := LogFrom(AddRecord(c), 0, recs);
    CrcIsSound(verify);
    assert At(F[..k], Buf(0, 0, false), 0) && IsPrefix(F[..k], F);
    TruncatedLogFrom(F, F[..k], c, Buf(0, 0, false), 0, recs, []);
  }

  /** Without truncation every record comes back. */
  lemma {:induction false} CompleteAll(w: Appender, off: nat, recs: seq<seq<Byte>>)
    ensures Complete(w, off, recs, off + |LogFrom(w, off, recs)|) == recs
    decreases recs
  {
    if recs != [] {
      CompleteAll(w, off + |w(off, recs[0])|, recs[1..]);
    }
  }

  /** The complete records are a prefix, the longest one that ends within k. */
  lemma {:induction false} CompleteIsPrefix(w: Appender, off: nat, recs: seq<seq<Byte>>, k: nat) returns (n: nat)
    requires off <= k
    ensures n <= |recs| && Complete(w, off, recs, k) == recs[..n]
    ensures off + |LogFrom(w, off, recs[..n])| <= k
    ensures n < |recs| ==> k < off + |LogFrom(w, off, recs[..n + 1])|
    decreases recs
  {
    n := 0;
    if recs != [] {
      var next := off + |w(off, recs[0])|;
      if next <= k {
        var m := CompleteIsPrefix(w, next, recs[1..], k);
        n := m + 1;
        ConsPrefix(w, off, recs, m);
        if n < |recs| { ConsPrefix(w, off, recs, m + 1); }
      } else {
        ConsPrefix(w, off, recs, 0);
      }
    }
  }

  lemma ConsPrefix(w: Appender, off: nat, recs: seq<seq<Byte>>, m: nat)
    requires recs != [] && m <= |recs| - 1
    ensures recs[..m + 1] == [recs[0]] + recs[1..][..m]
    ensures LogFrom(w, off, recs[..m + 1]) == w(off, recs[0]) + LogFrom(w, off + |w(off, recs[0])|, recs[1..][..m])
  {
    assert recs[..m + 1][1..] == recs[1..][..m];
  }

  /** The database's own readers verify checksums and start at the beginning. */
  const CRC: Checksum := Crc(true)
  const START: Buf := Buf(0, 0, false)
  const NO_DROPS: seq<nat> := []

  /** How many records of a file end within k. */
  function WholeRecords(recs: seq<seq<Byte>>, k: nat): nat {
    |Complete(AddRecord(CRC), 0, recs, k)|
  }

  /** A file cut at any byte gives back the longest prefix of its records that ends within it. */
  lemma CutLog(recs: seq<seq<Byte>>, k: nat) returns (n: nat)
    requires k <= |LogFrom(AddRecord(CRC), 0, recs)|
    ensures n == WholeRecords(recs, k) <= |recs|
    ensures |LogFrom(AddRecord(CRC), 0, recs[..n])| <= k
    ensures n < |recs| ==> k < |LogFrom(AddRecord(CRC), 0, recs[..n + 1])|
    ensures Drain(LogFrom(AddRecord(CRC), 0, recs)[..k], CRC, START, NO_DROPS) == (recs[..n], NO_DROPS)
  {
    TruncatedLogRoundTrip(recs, k, true);
    n := CompleteIsPrefix(AddRecord(CRC), 0, recs, k);
  }

  /** Writing more records, as a writer reopened at the file's length does, is writing all of them in one go. */
  lemma {:induction false} LogFromConcat(w: Appender, off: nat, a: seq<seq<Byte>>, b: seq<seq<Byte>>)
    ensures LogFrom(w, off, a + b) == LogFrom(w, off, a) + LogFrom(w, off + |LogFrom(w, off, a)|, b)
    decreases a
  {
    if a == [] {
      assert a + b == b;
    } else {
      assert (a + b)[1..] == a[1..] + b;
      LogFromConcat(w, off + |w(off, a[0])|, a[1..], b);
    }
  }

  lemma LogFileGrows(w: Appender, recs: seq<seq<Byte>>, m: nat, n: nat)
    requires m <= n <= |recs|
    ensures |LogFrom(w, 0, recs[..m])| <= |LogFrom(w, 0, recs[..n])|
  {
    assert recs[..n] == recs[..m] + recs[m..n];
    LogFromConcat(w, 0, recs[..m], recs[m..n]);
  }
}
