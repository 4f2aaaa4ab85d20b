/** The write-ahead log (db/log_format.h, db/log_writer.cc, db/log_reader.cc) as functions on bytes:
    what AddRecord appends, and what a reader makes of any byte sequence. */
module LogFormat {
  import opened Bytes
  import opened Crc32c

  const BLOCK: nat := 32768
  const HEADER: nat := 7

  const ZERO: int := 0
  const FULL: int := 1
  const FIRST: int := 2
  const MIDDLE: int := 3
  const LAST: int := 4
  // extensions that the reader adds to the record types
  const EOF: int := 5
  const BAD: int := 6

  // ----- physical records -----

  type Stamp = s: seq<Byte> | |s| == 4 witness [0, 0, 0, 0]

  /** How a record is stamped and how a stamp is checked.  Nothing but soundness is ever used of it. */
  datatype Checksum = Checksum(stamp: (Byte, seq<Byte>) -> Stamp, matches: (Stamp, Byte, seq<Byte>) -> bool)

  ghost predicate Sound(c: Checksum) {
    forall t: Byte, frag: seq<Byte> :: c.matches(c.stamp(t, frag), t, frag)
  }

  /** The masked checksum of the type byte and the payload, as the writer computes it. */
  function CrcStamp(t: Byte, frag: seq<Byte>): Stamp {
    EncodeFixed32(Mask(Extend(Value([t]), frag)))
  }

  /** The reader's test of a stored checksum. */
  predicate CrcMatches(stored: Stamp, t: Byte, frag: seq<Byte>) {
    Unmask(DecodeFixed32(stored)) == Value([t] + frag)
  }

  /** The log's checksum; a reader created with checksum == false accepts any stamp. */
  function Crc(verify: bool): Checksum {
    Checksum(CrcStamp, (s: Stamp, t: Byte, frag: seq<Byte>) => !verify || CrcMatches(s, t, frag))
  }

  lemma CrcIsMatched(t: Byte, frag: seq<Byte>)
    ensures CrcMatches(CrcStamp(t, frag), t, frag)
  {
    var crc := Extend(Value([t]), frag);
    Fixed32RoundTrip(Mask(crc));
    UnmaskMask(crc);
    ExtendConcat(0, [t], frag);
  }

  /** The checksum the writer stores is one the reader accepts. */
  lemma CrcIsSound(verify: bool)
    ensures Sound(Crc(verify))
  {
    forall t: Byte, frag: seq<Byte> ensures Crc(verify).matches(Crc(verify).stamp(t, frag), t, frag) {
      CrcIsMatched(t, frag);
    }
  }

  /** EmitPhysicalRecord. */
  function Physical(c: Checksum, t: Byte, frag: seq<Byte>): (r: seq<Byte>)
    requires |frag| <= BLOCK - HEADER
    ensures |r| == HEADER + |frag|
  {
    c.stamp(t, frag) + [|frag| % 256, |frag| / 256, t] + frag
  }

  // ----- what AddRecord appends -----

  /** What is left of the block that offset `off` lies in. */
  function Room(off: nat): (r: nat)
    ensures 0 < r <= BLOCK
    decreases off
  {
    if off < BLOCK then BLOCK - off else Room(off - BLOCK)
  }

  lemma {:induction false} RoomIsModulo(off: nat)
    ensures Room(off) == BLOCK - off % BLOCK
    decreases off
  {
    if off >= BLOCK {
      RoomIsModulo(off - BLOCK);
      assert off % BLOCK == (off - BLOCK) % BLOCK;
    }
  }

  lemma {:induction false} RoomAfter(p: nat, n: nat)
    requires n < Room(p)
    ensures Room(p + n) == Room(p) - n
    decreases p
  {
    if p >= BLOCK { RoomAfter(p - BLOCK, n); }
  }

  lemma {:induction false} BlockEnd(p: nat)
    ensures Room(p + Room(p)) == BLOCK
    decreases p
  {
    if p >= BLOCK { BlockEnd(p - BLOCK); } else { assert Room(BLOCK) == Room(0); }
  }

  /** Where the next header goes: a rest of a block that is too small for a header is skipped. */
  function HeaderPos(off: nat): nat {
    if Room(off) < HEADER then off + Room(off) else off
  }

  lemma HeaderFits(off: nat)
    ensures Room(HeaderPos(off)) >= HEADER
    ensures HeaderPos(off) != off ==> Room(HeaderPos(off)) == BLOCK
  {
    BlockEnd(off);
  }

  function Zeros(n: nat): (r: seq<Byte>)
    ensures |r| == n
  {
    if n == 0 then [] else [0] + Zeros(n - 1)
  }

  function TypeOf(begin: bool, end: bool): Byte {
    if begin && end then FULL else if begin then FIRST else if end then LAST else MIDDLE
  }

  /** The payload of the first fragment of `rec` written at offset `off`. */
  function FragmentLength(off: nat, rec: seq<Byte>): (n: nat)
    ensures n <= |rec| && n <= BLOCK - HEADER
    ensures HEADER + n <= Room(HeaderPos(off))
    ensures n < |rec| ==> HEADER + n == Room(HeaderPos(off))
  {
    HeaderFits(off);
    var avail := Room(HeaderPos(off)) - HEADER;
    if |rec| < avail then |rec| else avail
  }

  /** An empty first fragment fills up its block, so the next one is not empty. */
  lemma NextFragmentProgress(off: nat, rec: seq<Byte>)
    ensures FragmentLength(off, rec) == 0 && rec != [] ==> FragmentLength(HeaderPos(off) + HEADER, rec) > 0
  {
    if FragmentLength(off, rec) == 0 && rec != [] {
      var q := HeaderPos(off);
      HeaderFits(off);
      assert Room(q) == HEADER;
      BlockEnd(q);
    }
  }

  /** AddRecord at file offset `off`: a zero-length record still gets one fragment. */
  function LogOf(c: Checksum, off: nat, rec: seq<Byte>, begin: bool): (r: seq<Byte>)
    decreases |rec|, if FragmentLength(off, rec) == 0 then 1 else 0
  {
    var n := FragmentLength(off, rec);
    if n == |rec| then
      Fragment(c, off, rec, begin)
    else
      NextFragmentProgress(off, rec);
      assert rec[0..] == rec;
      Fragment(c, off, rec, begin) + LogOf(c, HeaderPos(off) + HEADER + n, rec[n..], false)
  }

  /** One turn of AddRecord's loop: trailer if needed, then a physical record. */
  function Fragment(c: Checksum, off: nat, rec: seq<Byte>, begin: bool): (r: seq<Byte>)
    ensures |r| == HeaderPos(off) - off + HEADER + FragmentLength(off, rec)
  {
    var n := FragmentLength(off, rec);
    Zeros(HeaderPos(off) - off) + Physical(c, TypeOf(begin, n == |rec|), rec[..n])
  }

  /** What writing a record at an offset appends. */
  type Appender = (nat, seq<Byte>) -> seq<Byte>

  function AddRecord(c: Checksum): Appender {
    (off: nat, rec: seq<Byte>) => LogOf(c, off, rec, true)
  }

  function LogFrom(w: Appender, off: nat, recs: seq<seq<Byte>>): seq<Byte>
    decreases recs
  {
    if recs == [] then [] else
      var r := w(off, recs[0]);
      r + LogFrom(w, off + |r|, recs[1..])
  }

  /** The records of a log written from `off` that end within the first k bytes of the file. */
  function Complete(w: Appender, off: nat, recs: seq<seq<Byte>>, k: nat): seq<seq<Byte>>
    decreases recs
  {
    if recs == [] then [] else
      var e := off + |w(off, recs[0])|;
      if e <= k then [recs[0]] + Complete(w, e, recs[1..], k) else []
  }

  // ----- what a reader does with any bytes -----

  /** buffer_ is data[pos..end]; the file has been read up to end; eof_ says the last read was short. */
  datatype Buf = Buf(pos: nat, end: nat, eof: bool)

  predicate ValidBuf(data: seq<Byte>, b: Buf) {
    b.pos <= b.end <= |data|
  }

  function Refill(data: seq<Byte>, b: Buf): (b': Buf)
    requires ValidBuf(data, b)
    ensures ValidBuf(data, b')
  {
    var n := if |data| - b.end < BLOCK then |data| - b.end else BLOCK;
    Buf(b.end, b.end + n, n < BLOCK)
  }

  /** A physical record or one of EOF and BAD, the new buffer, and the sizes of the drops reported. */
  datatype PhysicalRead = PhysicalRead(code: int, frag: seq<Byte>, buf: Buf, drops: seq<nat>)

  /** The part of ReadPhysicalRecord that runs once the buffer holds a header. */
  function ParseRecord(data: seq<Byte>, c: Checksum, b: Buf): (r: PhysicalRead)
    requires ValidBuf(data, b) && b.end - b.pos >= HEADER
    ensures ValidBuf(data, r.buf) && r.buf.pos > b.pos
  {
    var len := data[b.pos + 4] as int + 256 * data[b.pos + 5] as int;
    var t := data[b.pos + 6];
    if HEADER + len > b.end - b.pos then
      if b.eof then PhysicalRead(EOF, [], Buf(b.end, b.end, true), [])
      else PhysicalRead(BAD, [], Buf(b.end, b.end, false), [b.end - b.pos])
    else if t == ZERO && len == 0 then
      PhysicalRead(BAD, [], Buf(b.end, b.end, b.eof), [])
    else
      var frag := data[b.pos + HEADER..b.pos + HEADER + len];
      if !c.matches(data[b.pos..b.pos + 4], t, frag) then
        PhysicalRead(BAD, [], Buf(b.end, b.end, b.eof), [b.end - b.pos])
      else
        PhysicalRead(t, frag, Buf(b.pos + HEADER + len, b.end, b.eof), [])
  }

  function ReadPhysical(data: seq<Byte>, c: Checksum, b: Buf): (r: PhysicalRead)
    requires ValidBuf(data, b)
    ensures ValidBuf(data, r.buf) && r.buf.pos >= b.pos
    ensures r.code != EOF ==> r.buf.pos > b.pos
    decreases if b.end - b.pos < HEADER && !b.eof then 1 else 0
  {
    if b.end - b.pos >= HEADER then ParseRecord(data, c, b)
    else if b.eof then PhysicalRead(EOF, [], Buf(b.end, b.end, true), [])
    else ReadPhysical(data, c, Refill(data, b))
  }

  datatype LogicalRead = LogicalRead(found: bool, record: seq<Byte>, buf: Buf, drops: seq<nat>)

  /** The locals of ReadRecord's loop: `scratch` holds the fragments so far when `inFragment`. */
  datatype Loop = Loop(buf: Buf, inFragment: bool, scratch: seq<Byte>, drops: seq<nat>)

  /** One turn of the loop either returns or goes on. */
  datatype Turn = Return(read: LogicalRead) | Again(next: Loop)

  function TakeTurn(data: seq<Byte>, c: Checksum, s: Loop): (t: Turn)
    requires ValidBuf(data, s.buf)
    ensures t.Return? ==> ValidBuf(data, t.read.buf) && (t.read.found ==> t.read.buf.pos > s.buf.pos)
    ensures t.Again? ==> ValidBuf(data, t.next.buf) && t.next.buf.pos > s.buf.pos
  {
    var p := ReadPhysical(data, c, s.buf);
    var d := s.drops + p.drops;
    var torn := if s.inFragment && s.scratch != [] then [|s.scratch|] else [];
    if p.code == EOF then Return(LogicalRead(false, [], p.buf, d))
    else if p.code == FULL then Return(LogicalRead(true, p.frag, p.buf, d + torn))
    else if p.code == FIRST then Again(Loop(p.buf, true, p.frag, d + torn))
    else if p.code == MIDDLE then
      if !s.inFragment then Again(Loop(p.buf, s.inFragment, s.scratch, d + [|p.frag|]))
      else Again(Loop(p.buf, true, s.scratch + p.frag, d))
    else if p.code == LAST then
      if !s.inFragment then Again(Loop(p.buf, s.inFragment, s.scratch, d + [|p.frag|]))
      else Return(LogicalRead(true, s.scratch + p.frag, p.buf, d))
    else if p.code == BAD then
      if s.inFragment then Again(Loop(p.buf, false, [], d + [|s.scratch|]))
      else Again(Loop(p.buf, s.inFragment, s.scratch, d))
    else
      Again(Loop(p.buf, false, [], d + [|p.frag| + if s.inFragment then |s.scratch| else 0]))
  }

  /** ReadRecord from inside its loop. */
  function ReadLogical(data: seq<Byte>, c: Checksum, s: Loop): (r: LogicalRead)
    requires ValidBuf(data, s.buf)
    ensures ValidBuf(data, r.buf) && (r.found ==> r.buf.pos > s.buf.pos)
    decreases |data| - s.buf.pos
  {
    var t := TakeTurn(data, c, s);
    if t.Return? then t.read else ReadLogical(data, c, t.next)
  }

  /** All records a caller of ReadRecord gets, and every drop reported on the way. */
  function Drain(data: seq<Byte>, c: Checksum, b: Buf, drops: seq<nat>): (r: (seq<seq<Byte>>, seq<nat>))
    requires ValidBuf(data, b)
    decreases |data| - b.pos
  {
    var l := ReadLogical(data, c, Loop(b, false, [], drops));
    if !l.found then ([], l.drops) else
      var rest := Drain(data, c, l.buf, l.drops);
      ([l.record] + rest.0, rest.1)
  }
}
