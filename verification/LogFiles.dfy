/** log::Writer and log::Reader as the source has them: objects with a block offset and a read buffer
    (db/log_writer.cc, db/log_reader.cc), proved against the functions of `LogFormat`.
    A reader starts at offset 0 (initial_offset == 0), as every reader of the database does. */
module LogFiles {
  import opened Bytes
  import opened LogFormat
  import opened LogReplay

  class Writer {
    const c: Checksum
    var dest: seq<Byte>    // the file written to
    var blockOffset: nat   // current offset in block

    ghost predicate Inv()
      reads this
    {
      blockOffset <= BLOCK && (BLOCK - blockOffset == Room(|dest|) || (blockOffset == BLOCK && Room(|dest|) == BLOCK))
    }

    /** Both constructors: a new file has length 0. */
    constructor (c: Checksum, dest: seq<Byte>)
      ensures Inv() && this.c == c && this.dest == dest
    {
      this.c := c;
      this.dest := dest;
      blockOffset := |dest| % BLOCK;
      RoomIsModulo(|dest|);
    }

    method AddRecord(rec: seq<Byte>)
      requires Inv()
      modifies this
      ensures Inv() && dest == old(dest) + LogOf(c, |old(dest)|, rec, true)
    {
      var left, begin, done := rec, true, false;
      ghost var all := dest + LogOf(c, |dest|, rec, true);
      while !done
        invariant Inv()
        invariant all == if done then dest else dest + LogOf(c, |dest|, left, begin)
        decreases !done, |left|, if FragmentLength(|dest|, left) == 0 then 1 else 0
      {
        OneFragment(c, dest, left, begin);
        if FragmentLength(|dest|, left) < |left| { TailIsSmaller(|dest|, left); }
        var n := WriteFragment(left, begin);
        left, begin, done := left[n..], false, |left| == n;
      }
    }

    /** One turn of AddRecord's loop. */
    method WriteFragment(left: seq<Byte>, begin: bool) returns (n: nat)
      requires Inv()
      modifies this
      ensures Inv() && n == FragmentLength(|old(dest)|, left)
      ensures dest == old(dest) + Fragment(c, |old(dest)|, left, begin)
    {
      SwitchBlock();
      var avail := BLOCK - blockOffset - HEADER;
      n := if |left| < avail then |left| else avail;
      var end := |left| == n;
      EmitPhysicalRecord(TypeOf(begin, end), left[..n]);
    }

    /** Fills the trailer of a block that has no room for a header. */
    method SwitchBlock()
      requires Inv()
      modifies this
      ensures blockOffset < BLOCK && BLOCK - blockOffset == Room(|dest|) >= HEADER
      ensures dest == old(dest) + Zeros(HeaderPos(|old(dest)|) - |old(dest)|)
    {
      HeaderFits(|dest|);
      var leftover := BLOCK - blockOffset;
      if leftover < HEADER {
        if leftover > 0 {
          BlockEnd(|dest|);
          dest := dest + Zeros(leftover);
        } else {
          assert dest + [] == dest;
        }
        blockOffset := 0;
      } else {
        assert dest + [] == dest;
      }
    }

    method EmitPhysicalRecord(t: Byte, frag: seq<Byte>)
      requires BLOCK - blockOffset == Room(|dest|) && blockOffset + HEADER + |frag| <= BLOCK
      modifies this
      ensures Inv() && dest == old(dest) + Physical(c, t, frag)
    {
      var n := HEADER + |frag|;
      if n < Room(|dest|) { RoomAfter(|dest|, n); } else { BlockEnd(|dest|); }
      dest := dest + Physical(c, t, frag);
      blockOffset := blockOffset + n;
    }
  }

  lemma FragmentSize(c: Checksum, off: nat, left: seq<Byte>, begin: bool)
    ensures off + |Fragment(c, off, left, begin)| == HeaderPos(off) + HEADER + FragmentLength(off, left)
  {
  }

  /** After one fragment, what is still to come is the log of the rest at the new end of the file. */
  lemma OneFragment(c: Checksum, dest: seq<Byte>, left: seq<Byte>, begin: bool)
    ensures var n, dest' := FragmentLength(|dest|, left), dest + Fragment(c, |dest|, left, begin);
            && |dest'| == HeaderPos(|dest|) + HEADER + n
            && dest + LogOf(c, |dest|, left, begin)
               == (if n == |left| then dest' else dest' + LogOf(c, |dest'|, left[n..], false))
  {
    LogOfUnfold(c, |dest|, left, begin);
    FragmentSize(c, |dest|, left, begin);
    Assoc(dest, Fragment(c, |dest|, left, begin), TailOf(c, |dest|, left));
  }

  lemma SliceOfSlice(data: seq<Byte>, pos: nat, end: nat, i: nat, j: nat)
    requires pos <= end <= |data| && i <= j <= end - pos
    ensures data[pos..end][i..j] == data[pos + i..pos + j]
  {
    var part, whole := data[pos..end][i..j], data[pos + i..pos + j];
    assert |part| == |whole| && forall k | 0 <= k < |part| :: part[k] == data[pos + i + k] == whole[k];
  }

  /** What ParseRecord says of a complete record, read off the buffer. */
  lemma BufferedRecord(data: seq<Byte>, c: Checksum, b: Buf, buffer: seq<Byte>, len: nat)
    requires ValidBuf(data, b) && buffer == data[b.pos..b.end] && HEADER + len <= |buffer|
    requires len == buffer[4] as int + 256 * buffer[5] as int && !(buffer[6] == ZERO && len == 0)
    ensures ParseRecord(data, c, b)
            == if !c.matches(buffer[0..4], buffer[6], buffer[HEADER..HEADER + len])
               then PhysicalRead(BAD, [], Buf(b.end, b.end, b.eof), [|buffer|])
               else PhysicalRead(buffer[6], buffer[HEADER..HEADER + len], Buf(b.pos + HEADER + len, b.end, b.eof), [])
    ensures buffer[HEADER + len..] == data[b.pos + HEADER + len..b.end]
  {
    SliceOfSlice(data, b.pos, b.end, 0, 4);
    SliceOfSlice(data, b.pos, b.end, HEADER, HEADER + len);
    SliceOfSlice(data, b.pos, b.end, HEADER + len, |buffer|);
  }

  /** SequentialFile, read in one go; a read returns fewer bytes than asked only at the end. */
  class Reader {
    const c: Checksum
    const data: seq<Byte>       // the whole file
    var filePos: nat            // bytes read from the file so far
    var buffer: seq<Byte>
    var eof: bool
    var drops: seq<nat>         // what has been passed to Reporter::Corruption

    ghost predicate Inv()
      reads this
    {
      |buffer| <= filePos <= |data| && buffer == data[filePos - |buffer|..filePos]
    }

    ghost function Here(): (b: Buf)
      requires |buffer| <= filePos <= |data|
      reads this
      ensures ValidBuf(data, b)
    {
      Buf(filePos - |buffer|, filePos, eof)
    }

    constructor (c: Checksum, data: seq<Byte>)
      ensures Inv() && this.c == c && this.data == data && Here() == Buf(0, 0, false) && drops == []
    {
      this.c := c;
      this.data := data;
      filePos := 0;
      buffer := [];
      eof := false;
      drops := [];
    }

    method ReadPhysicalRecord() returns (code: int, frag: seq<Byte>)
      requires Inv()
      modifies this
      ensures Inv()
      ensures var r := ReadPhysical(data, c, old(Here()));
              code == r.code && frag == r.frag && Here() == r.buf && drops == old(drops) + r.drops
    {
      ghost var r := ReadPhysical(data, c, Here());
      while |buffer| < HEADER
        invariant Inv() && drops == old(drops) && r == ReadPhysical(data, c, Here())
        decreases |buffer| < HEADER, !eof
      {
        if !eof {
          // the last read was a full read, so this is a trailer to skip
          FillBuffer();
        } else {
          // a truncated header at the end of the file is not an error
          buffer := [];
          assert drops + [] == drops;
          return EOF, [];
        }
      }
      code, frag := ParseBuffer();
    }

    /** Reads up to one block from the file. */
    method FillBuffer()
      requires Inv()
      modifies this`buffer, this`filePos, this`eof
      ensures Inv() && Here() == Refill(data, old(Here()))
      ensures |buffer| < HEADER ==> eof
    {
      var n := if |data| - filePos < BLOCK then |data| - filePos else BLOCK;
      buffer := data[filePos..filePos + n];
      filePos := filePos + n;
      eof := n < BLOCK;
    }

    /** Parses the header at the front of the buffer. */
    method ParseBuffer() returns (code: int, frag: seq<Byte>)
      requires Inv() && |buffer| >= HEADER
      modifies this
      ensures Inv()
      ensures var r := ParseRecord(data, c, old(Here()));
              code == r.code && frag == r.frag && Here() == r.buf && drops == old(drops) + r.drops
    {
      ghost var b := Here();
      assert buffer == data[b.pos..b.end];
      var len := buffer[4] as int + 256 * buffer[5] as int;
      var t := buffer[6];
      code, frag := BAD, [];
      assert drops + [] == drops;
      if HEADER + len > |buffer| {
        var size := |buffer|;
        buffer := [];
        if eof {
          code := EOF;
        } else {
          drops := drops + [size];
        }
      } else if t == ZERO && len == 0 {
        buffer := [];
      } else {
        code, frag := TakeFragment(len);
      }
    }

    /** Tests the checksum of a complete record at the front of the buffer. */
    method TakeFragment(len: nat) returns (code: int, frag: seq<Byte>)
      requires Inv() && HEADER + len <= |buffer| && len == buffer[4] as int + 256 * buffer[5] as int
      requires !(buffer[6] == ZERO && len == 0)
      modifies this
      ensures Inv()
      ensures var r := ParseRecord(data, c, old(Here()));
              code == r.code && frag == r.frag && Here() == r.buf && drops == old(drops) + r.drops
    {
      ghost var b := Here();
      assert drops + [] == drops;
      BufferedRecord(data, c, b, buffer, len);
      var t := buffer[6];
      if !c.matches(buffer[0..4], t, buffer[HEADER..HEADER + len]) {
        var size := |buffer|;
        code, frag := BAD, [];
        buffer := [];
        drops := drops + [size];
      } else {
        code, frag := t, buffer[HEADER..HEADER + len];
        buffer := buffer[HEADER + len..];
      }
    }

    /** ReadRecord: reassembles fragments; `found` is its return value. */
    method ReadRecord() returns (found: bool, record: seq<Byte>)
      requires Inv()
      modifies this
      ensures Inv()
      ensures LogicalRead(found, record, Here(), drops)
              == ReadLogical(data, c, Loop(old(Here()), false, [], old(drops)))
    {
      var scratch: seq<Byte>, inFragment, done := [], false, false;
      ghost var r := ReadLogical(data, c, Loop(Here(), false, [], drops));
      found, record := false, [];
      while !done
        invariant Inv()
        invariant r == if done then LogicalRead(found, record, Here(), drops)
                       else ReadLogical(data, c, Loop(Here(), inFragment, scratch, drops))
        decreases !done, |data| - Here().pos
      {
        done, found, record, inFragment, scratch := HandleRecord(inFragment, scratch);
      }
    }

    /** One turn of ReadRecord's loop. */
    method HandleRecord(inFragment: bool, scratch: seq<Byte>)
      returns (done: bool, found: bool, record: seq<Byte>, inFragment': bool, scratch': seq<Byte>)
      requires Inv()
      modifies this
      ensures Inv()
      ensures TakeTurn(data, c, Loop(old(Here()), inFragment, scratch, old(drops)))
           == if done then Return(LogicalRead(found, record, Here(), drops))
              else Again(Loop(Here(), inFragment', scratch', drops))
    {
      done, found, record, inFragment', scratch' := true, false, [], inFragment, scratch;
      var code, frag := ReadPhysicalRecord();
      assert drops + [] == drops;
      if code == EOF {
      } else if code == FULL {
        if inFragment && scratch != [] {
          drops := drops + [|scratch|];
        }
        found, record := true, frag;
      } else if code == LAST && inFragment {
        found, record := true, scratch + frag;
      } else {
        done := false;
        inFragment', scratch' := NextFragment(code, frag, inFragment, scratch);
      }
    }

    /** The cases of ReadRecord's switch that stay in the loop. */
    method NextFragment(code: int, frag: seq<Byte>, inFragment: bool, scratch: seq<Byte>)
      returns (inFragment': bool, scratch': seq<Byte>)
      requires Inv() && code != EOF && code != FULL && !(code == LAST && inFragment)
      modifies this`drops
      ensures var torn := if inFragment && scratch != [] then [|scratch|] else [];
              Loop(Here(), inFragment', scratch', drops) ==
                if code == FIRST then Loop(Here(), true, frag, old(drops) + torn)
                else if code == MIDDLE && inFragment then Loop(Here(), true, scratch + frag, old(drops))
                else if code == MIDDLE || code == LAST then Loop(Here(), inFragment, scratch, old(drops) + [|frag|])
                else if code == BAD && !inFragment then Loop(Here(), inFragment, scratch, old(drops))
                else if code == BAD then Loop(Here(), false, [], old(drops) + [|scratch|])
                else Loop(Here(), false, [], old(drops) + [|frag| + if inFragment then |scratch| else 0])
    {
      inFragment', scratch' := inFragment, scratch;
      assert drops + [] == drops;
      if code == FIRST {
        if inFragment && scratch != [] {
          drops := drops + [|scratch|];
        }
        inFragment', scratch' := true, frag;
      } else if code == MIDDLE || code == LAST {
        if !inFragment {
          drops := drops + [|frag|];
        } else {
          scratch' := scratch + frag;
        }
      } else if code == BAD {
        if inFragment {
          drops := drops + [|scratch|];
          inFragment', scratch' := false, [];
        }
      } else {
        drops := drops + [|frag| + if inFragment then |scratch| else 0];
        inFragment', scratch' := false, [];
      }
    }

    /** The recovery loop: every record until ReadRecord fails. */
    method ReadAll() returns (records: seq<seq<Byte>>)
      requires Inv()
      modifies this
      ensures Inv()
      ensures (records, drops) == Drain(data, c, old(Here()), old(drops))
    {
      ghost var all := Drain(data, c, Here(), drops);
      records := [];
      var found, record := ReadRecord();
      if found {
        assert [] + ([record] + Drain(data, c, Here(), drops).0) == [record] + Drain(data, c, Here(), drops).0;
      }
      while found
        invariant Inv()
        invariant if found then
                    var rest := Drain(data, c, Here(), drops);
                    all == (records + ([record] + rest.0), rest.1)
                  else all == (records, drops)
        decreases found, |data| - Here().pos
      {
        records := records + [record];
        ghost var rest := Drain(data, c, Here(), drops);
        assert all.0 == records + rest.0;
        ghost var p := Here().pos;
        found, record := ReadRecord();
        assert records + [] == records;
      }
    }
  }

  /** Writes records one after the other to a file. */
  method WriteAll(w: Writer, recs: seq<seq<Byte>>)
    requires w.Inv()
    modifies w
    ensures w.Inv() && w.dest == old(w.dest) + LogFrom(AddRecord(w.c), |old(w.dest)|, recs)
  {
    ghost var add, d0 := AddRecord(w.c), w.dest;
    assert d0 + LogFrom(add, |d0|, recs[..0]) == d0;
    for i := 0 to |recs|
      invariant w.Inv() && w.dest == d0 + LogFrom(add, |d0|, recs[..i])
    {
      ghost var x := LogFrom(add, |d0|, recs[..i]);
      ghost var y := add(|w.dest|, recs[i]);
      assert |w.dest| == |d0| + |x|;
      w.AddRecord(recs[i]);
      assert w.dest == (d0 + x) + y;
      OneMoreRecord(add, d0, recs[..i], recs[i], x, y);
      assert recs[..i + 1] == recs[..i] + [recs[i]];
    }
    assert recs[..|recs|] == recs;
  }

  lemma OneMoreRecord(add: Appender, d0: seq<Byte>, recs: seq<seq<Byte>>, rec: seq<Byte>, x: seq<Byte>, y: seq<Byte>)
    requires x == LogFrom(add, |d0|, recs) && y == add(|d0| + |x|, rec)
    ensures (d0 + x) + y == d0 + LogFrom(add, |d0|, recs + [rec])
  {
    LogFromConcat(add, |d0|, recs, [rec]);
    OneRecord(add, |d0| + |x|, rec);
    Assoc(d0, x, y);
  }

  lemma OneRecord(add: Appender, off: nat, rec: seq<Byte>)
    ensures LogFrom(add, off, [rec]) == add(off, rec)
  {
    assert [rec][1..] == [];
    assert LogFrom(add, off, [rec]) == add(off, rec) + [];
  }

  /** Write records to a new file, lose everything after byte k, read: the complete records come back and
      nothing is reported. */
  method WriteCutRead(recs: seq<seq<Byte>>, k: nat, verify: bool) returns (back: seq<seq<Byte>>, drops: seq<nat>)
    requires k <= |LogFrom(AddRecord(Crc(verify)), 0, recs)|
    ensures back == Complete(AddRecord(Crc(verify)), 0, recs, k) && drops == []
  {
    var w := new Writer(Crc(verify), []);
    WriteAll(w, recs);
    ghost var F := LogFrom(AddRecord(Crc(verify)), 0, recs);
    assert [] + F == F;
    var r := new Reader(Crc(verify), w.dest[..k]);
    back := r.ReadAll();
    drops := r.drops;
    TruncatedLogRoundTrip(recs, k, verify);
  }
}
