/** What log::Writer puts into a file, byte by byte (db/log_format.h, db/log_writer.cc). */
module LogLayout {
  import opened Bytes
  import opened Crc32c
  import opened LogFormat

  /** A physical record. */
  datatype Piece = Piece(code: Byte, payload: seq<Byte>)

  /** How many bytes are skipped because no header fits before the end of the block. */
  function Trailer(off: nat): nat {
    if BLOCK - off % BLOCK < 7 then BLOCK - off % BLOCK else 0
  }

  /** The stamp, the length with its low byte first, the type and the payload. */
  predicate IsPiece(c: Checksum, r: seq<Byte>, p: Piece) {
    && |r| == 7 + |p.payload| && r[..4] == c.stamp(p.code, p.payload)
    && r[4] as int + 256 * r[5] as int == |p.payload| && r[6] == p.code && r[7..] == p.payload
  }

  /** These pieces, written at offset `off`: each in one block, behind a trailer of zeros if need be, and all but the
      last one up to the end of its block. */
  ghost predicate Laid(c: Checksum, off: nat, r: seq<Byte>, ps: seq<Piece>)
    decreases |ps|
  {
    && ps != [] && var z, n := Trailer(off), 7 + |ps[0].payload|;
    && z + n <= |r| && (forall i | 0 <= i < z :: r[i] == 0) && IsPiece(c, r[z..z + n], ps[0])
    && (off + z) % BLOCK + n <= BLOCK
    && if |ps| == 1 then z + n == |r|
       else (off + z) % BLOCK + n == BLOCK && Laid(c, off + z + n, r[z + n..], ps[1..])
  }

  function Payload(ps: seq<Piece>): seq<Byte> {
    if ps == [] then [] else ps[0].payload + Payload(ps[1..])
  }

  /** FULL, or FIRST, any number of MIDDLE and LAST; without the FIRST for the rest of a record. */
  ghost predicate Typed(ps: seq<Piece>, begin: bool) {
    forall i | 0 <= i < |ps| ::
      ps[i].code == if begin && i == 0 then (if |ps| == 1 then 1 else 2) else if i == |ps| - 1 then 4 else 3
  }

  lemma TrailerIs(off: nat)
    ensures HeaderPos(off) == off + Trailer(off) && Room(HeaderPos(off)) == BLOCK - (off + Trailer(off)) % BLOCK
  {
    RoomIsModulo(off);
    RoomIsModulo(HeaderPos(off));
  }

  lemma {:induction false} ZerosAre(n: nat)
    ensures forall i | 0 <= i < n :: Zeros(n)[i] == 0
  {
    if n > 0 { ZerosAre(n - 1); }
  }

  lemma PhysicalIs(c: Checksum, t: Byte, frag: seq<Byte>)
    requires |frag| <= BLOCK - HEADER
    ensures IsPiece(c, Physical(c, t, frag), Piece(t, frag))
  {
    assert |frag| % 256 + 256 * (|frag| / 256) == |frag|;
  }

  /** A piece behind its trailer, in front of more. */
  ghost predicate Starts(c: Checksum, off: nat, r: seq<Byte>, p: Piece, more: seq<Byte>) {
    var z, n := Trailer(off), 7 + |p.payload|;
    && |r| == z + n + |more| && (forall i | 0 <= i < z :: r[i] == 0) && IsPiece(c, r[z..z + n], p)
    && r[z + n..] == more && (off + z) % BLOCK + n <= BLOCK
  }

  /** One turn of the loop of AddRecord. */
  lemma FragmentIs(c: Checksum, off: nat, rec: seq<Byte>, begin: bool, more: seq<Byte>)
    ensures var n := FragmentLength(off, rec);
            && Starts(c, off, Fragment(c, off, rec, begin) + more, Piece(TypeOf(begin, n == |rec|), rec[..n]), more)
            && (n < |rec| ==> (off + Trailer(off)) % BLOCK + 7 + n == BLOCK)
  {
    var n, z := FragmentLength(off, rec), Trailer(off);
    TrailerIs(off);
    ZerosAre(z);
    PhysicalIs(c, TypeOf(begin, n == |rec|), rec[..n]);
    var zeros, piece := Zeros(z), Physical(c, TypeOf(begin, n == |rec|), rec[..n]);
    var r := zeros + piece + more;
    assert r[z..z + 7 + n] == piece && r[z + 7 + n..] == more;
    assert forall i | 0 <= i < z :: r[i] == zeros[i];
  }

  lemma LaidLast(c: Checksum, off: nat, r: seq<Byte>, p: Piece)
    requires Starts(c, off, r, p, [])
    ensures Laid(c, off, r, [p])
  {
  }

  lemma LaidMore(c: Checksum, off: nat, r: seq<Byte>, p: Piece, more: seq<Byte>, ps: seq<Piece>)
    requires Starts(c, off, r, p, more) && (off + Trailer(off)) % BLOCK + 7 + |p.payload| == BLOCK
    requires ps != [] && Laid(c, off + Trailer(off) + 7 + |p.payload|, more, ps)
    ensures Laid(c, off, r, [p] + ps)
  {
    assert ([p] + ps)[1..] == ps;
  }

  /** These pieces are the record, or the rest of one, written at offset `off`. */
  ghost predicate IsCut(c: Checksum, off: nat, r: seq<Byte>, rec: seq<Byte>, begin: bool, ps: seq<Piece>) {
    ps != [] && Laid(c, off, r, ps) && Payload(ps) == rec && Typed(ps, begin)
  }

  lemma LastCut(c: Checksum, off: nat, rec: seq<Byte>, begin: bool)
    requires FragmentLength(off, rec) == |rec|
    ensures IsCut(c, off, Fragment(c, off, rec, begin), rec, begin, [Piece(TypeOf(begin, true), rec)])
  {
    var p := Piece(TypeOf(begin, true), rec);
    FragmentIs(c, off, rec, begin, []);
    assert Fragment(c, off, rec, begin) + [] == Fragment(c, off, rec, begin) && rec[..|rec|] == rec;
    LaidLast(c, off, Fragment(c, off, rec, begin), p);
    assert [p][1..] == [] && rec + [] == rec;
  }

  lemma CutMore(c: Checksum, off: nat, rec: seq<Byte>, begin: bool, n: nat, more: seq<Byte>, rest: seq<Piece>)
    requires n == FragmentLength(off, rec) < |rec|
    requires IsCut(c, HeaderPos(off) + HEADER + n, more, rec[n..], false, rest)
    ensures IsCut(c, off, Fragment(c, off, rec, begin) + more, rec, begin,
                  [Piece(TypeOf(begin, false), rec[..n])] + rest)
  {
    var p := Piece(TypeOf(begin, false), rec[..n]);
    TrailerIs(off);
    FragmentIs(c, off, rec, begin, more);
    LaidMore(c, off, Fragment(c, off, rec, begin) + more, p, more, rest);
    assert ([p] + rest)[1..] == rest && rec[..n] + rec[n..] == rec;
    TypedMore(p, rest, begin);
  }

  /** AddRecord cuts any record into pieces, at any offset, and none ends before its block does but the last. */
  lemma {:induction false} RecordIsLaid(c: Checksum, off: nat, rec: seq<Byte>, begin: bool) returns (ps: seq<Piece>)
    ensures IsCut(c, off, LogOf(c, off, rec, begin), rec, begin, ps)
    decreases |rec|, if FragmentLength(off, rec) == 0 then 1 else 0
  {
    var n := FragmentLength(off, rec);
    if n == |rec| {
      LastCut(c, off, rec, begin);
      ps := [Piece(TypeOf(begin, true), rec)];
    } else {
      NextFragmentProgress(off, rec);
      assert rec[0..] == rec;
      var next := HeaderPos(off) + HEADER + n;
      var more := LogOf(c, next, rec[n..], false);
      assert LogOf(c, off, rec, begin) == Fragment(c, off, rec, begin) + more;
      var rest := RecordIsLaid(c, next, rec[n..], false);
      CutMore(c, off, rec, begin, n, more, rest);
      ps := [Piece(TypeOf(begin, false), rec[..n])] + rest;
    }
  }

  lemma TypedMore(p: Piece, rest: seq<Piece>, begin: bool)
    requires rest != [] && Typed(rest, false) && p.code == TypeOf(begin, false)
    ensures Typed([p] + rest, begin)
  {
    var ps := [p] + rest;
    forall i | 0 < i < |ps| ensures ps[i].code == if i == |ps| - 1 then 4 else 3 { assert ps[i] == rest[i - 1]; }
  }

  /** The stamp of a piece is the masked checksum of its type and payload. */
  lemma StampIs(t: Byte, frag: seq<Byte>)
    ensures DecodeFixed32(CrcStamp(t, frag)) == Mask(Value([t] + frag))
  {
    Fixed32RoundTrip(Mask(Extend(Value([t]), frag)));
    ExtendConcat(0, [t], frag);
  }
}
