/** Reusing a log whose tail was torn by a crash (db/db_impl.cc: RecoverLogFile with reuse_logs): the writer goes on
    at the length of the file.  If the file ends between two fragments, everything appended is read back; if it ends
    inside one, what follows in the block hangs on the test of a fragment that was never written whole. */
module TornLogs {
  import opened Bytes
  import opened LogFormat
  import opened LogReplay
  import opened LogFragments

  /** A file that ends at k ends between fragments of the record written at `off`, `done` being the payload of those
      that are there: no byte of the next header is. */
  ghost predicate EndsBetween(off: nat, rec: seq<Byte>, k: nat, done: seq<Byte>)
    decreases |rec|, if FragmentLength(off, rec) == 0 then 1 else 0
  {
    || (off <= k <= HeaderPos(off) && done == [])
    || (var n := FragmentLength(off, rec);
        var next := HeaderPos(off) + HEADER + n;
        && n < |rec| && next <= k && n <= |done| && done[..n] == rec[..n]
        && (NextFragmentProgress(off, rec); assert rec[0..] == rec; EndsBetween(next, rec[n..], k, done[n..])))
  }

  /** The report for fragments without an end. */
  function Report(scratch: seq<Byte>): seq<nat> {
    if scratch == [] then [] else [|scratch|]
  }

  // ----- the first record after the tear -----

  lemma SameHeader(off: nat, k: nat)
    requires off <= k <= HeaderPos(off)
    ensures HeaderPos(k) == HeaderPos(off)
  {
    if k < off + Room(off) {
      if k != off { RoomAfter(off, k - off); }
    } else {
      BlockEnd(off);
    }
  }

  /** A fragment that begins a record ends what was left open. */
  lemma BeginningTurn(data: seq<Byte>, c: Checksum, s: Loop, p: Piece, end: bool)
    requires ValidBuf(data, s.buf) && Comes(data, c, s.buf, p, TypeOf(true, end)) && EndOf(p) <= |data|
    requires !s.inFragment ==> s.scratch == []
    ensures var b' := ReadPhysical(data, c, s.buf).buf;
            && At(data, b', EndOf(p))
            && TakeTurn(data, c, s)
               == if end then Return(LogicalRead(true, p.payload, b', s.drops + Report(s.scratch)))
                  else Again(Loop(b', true, p.payload, s.drops + Report(s.scratch)))
  {
    assert s.drops + [] == s.drops;
  }

  /** The record written at k, read from anywhere between the last fragment and its header. */
  lemma ReadAfterTear(F: seq<Byte>, c: Checksum, s: Loop, off: nat, k: nat, ps: seq<Piece>)
    requires Sound(c) && At(F, s.buf, off) && off <= k <= HeaderPos(off) && (!s.inFragment ==> s.scratch == [])
    requires PiecesAt(F, c, k, ps, true)
    ensures EndsAt(F, ReadLogical(F, c, s), s.drops + Report(s.scratch), EndOf(ps[|ps| - 1]), Payload(ps))
  {
    PiecesInside(F, c, k, ps, true);
    if |ps| == 1 {
      FirstAfterTear(F, c, s, off, k, ps[0], true);
      OnePayload(ps);
    } else {
      FirstAfterTear(F, c, s, off, k, ps[0], false);
      var t := TakeTurn(F, c, s);
      ReadPieces(F, F, c, t.next, EndOf(ps[0]), ps[1..], false);
      GoesOn(F, c, s);
      LastOfRest(ps);
    }
  }

  lemma GoesOn(F: seq<Byte>, c: Checksum, s: Loop)
    requires ValidBuf(F, s.buf) && TakeTurn(F, c, s).Again?
    ensures ReadLogical(F, c, s) == ReadLogical(F, c, TakeTurn(F, c, s).next)
  {
  }

  lemma LastOfRest(ps: seq<Piece>)
    requires |ps| > 1
    ensures ps[1..][|ps| - 2] == ps[|ps| - 1] && Payload(ps) == ps[0].payload + Payload(ps[1..])
  {
  }

  lemma FirstAfterTear(F: seq<Byte>, c: Checksum, s: Loop, off: nat, k: nat, p: Piece, end: bool)
    requires Sound(c) && At(F, s.buf, off) && off <= k <= HeaderPos(off) && (!s.inFragment ==> s.scratch == [])
    requires PieceAt(F, c, k, p, TypeOf(true, end)) && EndOf(p) <= |F|
    ensures var b' := ReadPhysical(F, c, s.buf).buf;
            && At(F, b', EndOf(p))
            && TakeTurn(F, c, s)
               == if end then Return(LogicalRead(true, p.payload, b', s.drops + Report(s.scratch)))
                  else Again(Loop(b', true, p.payload, s.drops + Report(s.scratch)))
  {
    SameHeader(off, k);
    PieceComes(F, F, c, s.buf, off, p, TypeOf(true, end));
    BeginningTurn(F, c, s, p, end);
  }

  lemma OnePayload(ps: seq<Piece>)
    requires |ps| == 1
    ensures Payload(ps) == ps[0].payload
  {
    assert ps[1..] == [];
  }

  lemma {:induction false} PiecesInside(F: seq<Byte>, c: Checksum, off: nat, ps: seq<Piece>, begin: bool)
    requires PiecesAt(F, c, off, ps, begin)
    ensures EndOf(ps[0]) <= EndOf(ps[|ps| - 1]) <= |F|
    decreases |ps|
  {
    if |ps| > 1 {
      PiecesInside(F, c, EndOf(ps[0]), ps[1..], false);
      PiecesGrow(F, c, off, ps, begin);
    }
  }

  // ----- the fragments before the tear -----

  /** Fragments of one record without its last. */
  ghost predicate OpenPieces(F: seq<Byte>, c: Checksum, off: nat, ps: seq<Piece>, begin: bool)
    decreases |ps|
  {
    ps == [] || (PieceAt(F, c, off, ps[0], TypeOf(begin, false)) && OpenPieces(F, c, EndOf(ps[0]), ps[1..], false))
  }

  /** Where they end. */
  ghost function OpenEnd(off: nat, ps: seq<Piece>): nat
    decreases |ps|
  {
    if ps == [] then off else OpenEnd(EndOf(ps[0]), ps[1..])
  }

  lemma FirstOfTorn(F: seq<Byte>, c: Checksum, off: nat, rec: seq<Byte>, begin: bool, k: nat)
    requires var n := FragmentLength(off, rec); n < |rec| && HeaderPos(off) + HEADER + n <= k
    requires k - off <= |LogOf(c, off, rec, begin)| && Holds(F, off, LogOf(c, off, rec, begin)[..k - off])
    ensures var n := FragmentLength(off, rec);
            var next := HeaderPos(off) + HEADER + n;
            && PieceAt(F, c, off, Piece(HeaderPos(off), TypeOf(begin, false), rec[..n]), TypeOf(begin, false))
            && k - next <= |LogOf(c, next, rec[n..], false)|
            && Holds(F, next, LogOf(c, next, rec[n..], false)[..k - next])
  {
    var n := FragmentLength(off, rec);
    var q := HeaderPos(off);
    var next := q + HEADER + n;
    var head, tail := Fragment(c, off, rec, begin), LogOf(c, next, rec[n..], false);
    LogOfUnfold(c, off, rec, begin);
    CutTail(head, tail, k - off);
    HoldsParts(F, off, head, tail[..k - next]);
    HoldsParts(F, off, Zeros(q - off), Physical(c, TypeOf(begin, false), rec[..n]));
  }

  lemma CutTail(head: seq<Byte>, tail: seq<Byte>, n: nat)
    requires |head| <= n <= |head| + |tail|
    ensures (head + tail)[..n] == head + tail[..n - |head|]
  {
  }

  /** What is there of a torn record is such a list of fragments. */
  lemma {:induction false} TornPieces(F: seq<Byte>, c: Checksum, off: nat, rec: seq<Byte>, begin: bool, k: nat,
                                      done: seq<Byte>) returns (ps: seq<Piece>)
    requires EndsBetween(off, rec, k, done) && off <= k
    requires k - off <= |LogOf(c, off, rec, begin)| && Holds(F, off, LogOf(c, off, rec, begin)[..k - off])
    ensures OpenPieces(F, c, off, ps, begin) && Payload(ps) == done
    ensures OpenEnd(off, ps) <= k <= HeaderPos(OpenEnd(off, ps))
    decreases |rec|, if FragmentLength(off, rec) == 0 then 1 else 0
  {
    if off <= k <= HeaderPos(off) && done == [] {
      ps := [];
    } else {
      var n := FragmentLength(off, rec);
      var p := Piece(HeaderPos(off), TypeOf(begin, false), rec[..n]);
      FirstOfTorn(F, c, off, rec, begin, k);
      TailIsSmaller(off, rec);
      var ps' := TornPieces(F, c, EndOf(p), rec[n..], false, k, done[n..]);
      ps := [p] + ps';
      OnePieceMore(F, c, off, p, ps', begin, done, n);
    }
  }

  lemma OnePieceMore(F: seq<Byte>, c: Checksum, off: nat, p: Piece, ps: seq<Piece>, begin: bool, done: seq<Byte>,
                     n: nat)
    requires PieceAt(F, c, off, p, TypeOf(begin, false)) && OpenPieces(F, c, EndOf(p), ps, false)
    requires n <= |done| && p.payload == done[..n] && Payload(ps) == done[n..]
    ensures OpenPieces(F, c, off, [p] + ps, begin) && Payload([p] + ps) == done
    ensures OpenEnd(off, [p] + ps) == OpenEnd(EndOf(p), ps)
  {
    assert ([p] + ps)[1..] == ps && done == done[..n] + done[n..];
  }

  /** One more fragment of the record that was torn. */
  lemma OneMoreFragment(F: seq<Byte>, c: Checksum, s: Loop, off: nat, p: Piece, begin: bool)
    requires Sound(c) && At(F, s.buf, off) && PieceAt(F, c, off, p, TypeOf(begin, false)) && EndOf(p) <= |F|
    requires s.inFragment == !begin && (begin ==> s.scratch == [])
    ensures var t := TakeTurn(F, c, s);
            t.Again? && At(F, t.next.buf, EndOf(p)) && t.next == Loop(t.next.buf, true, s.scratch + p.payload, s.drops)
  {
    ReadPiece(F, F, c, s, off, p, begin, false);
  }

  lemma {:induction false} ReadThroughTear(F: seq<Byte>, c: Checksum, s: Loop, off: nat, ps: seq<Piece>, begin: bool,
                                           k: nat, first: seq<Piece>)
    requires Sound(c) && At(F, s.buf, off) && s.inFragment == !begin && (begin ==> s.scratch == [])
    requires OpenPieces(F, c, off, ps, begin) && OpenEnd(off, ps) <= k <= HeaderPos(OpenEnd(off, ps))
    requires PiecesAt(F, c, k, first, true)
    ensures EndsAt(F, ReadLogical(F, c, s), s.drops + Report(s.scratch + Payload(ps)),
                   EndOf(first[|first| - 1]), Payload(first))
    decreases |ps|
  {
    if ps == [] {
      assert s.scratch + Payload(ps) == s.scratch;
      ReadAfterTear(F, c, s, off, k, first);
    } else {
      OneMoreFragment(F, c, s, off, ps[0], begin);
      var t := TakeTurn(F, c, s);
      ReadThroughTear(F, c, t.next, EndOf(ps[0]), ps[1..], false, k, first);
      PayloadStep(s.scratch, ps);
    }
  }

  // ----- the whole file -----

  /** The file ends at k in a torn record, and what a reopened writer appended at k follows. */
  ghost predicate TornAt(F: seq<Byte>, c: Checksum, off: nat, ps: seq<Piece>, k: nat, more: seq<seq<Byte>>) {
    && OpenPieces(F, c, off, ps, true) && OpenEnd(off, ps) <= k <= HeaderPos(OpenEnd(off, ps))
    && Holds(F, k, LogFrom(AddRecord(c), k, more)) && |F| == k + |LogFrom(AddRecord(c), k, more)|
  }

  /** One record read, and the rest of the file. */
  lemma DrainOne(F: seq<Byte>, c: Checksum, b: Buf, e: nat, record: seq<Byte>, drops: seq<nat>,
                 rest: (seq<seq<Byte>>, seq<nat>))
    requires ValidBuf(F, b) && e <= |F|
    requires EndsAt(F, ReadLogical(F, c, Loop(b, false, [], [])), drops, e, record)
    requires Drain(F, c, ReadLogical(F, c, Loop(b, false, [], [])).buf, drops) == rest
    ensures Drain(F, c, b, []) == ([record] + rest.0, rest.1)
  {
  }

  /** The first record of a list, and where the others begin. */
  lemma SplitFirst(F: seq<Byte>, c: Checksum, off: nat, recs: seq<seq<Byte>>) returns (e: nat)
    requires recs != [] && Holds(F, off, LogFrom(AddRecord(c), off, recs))
    ensures Holds(F, off, LogOf(c, off, recs[0], true)) && e == off + |LogOf(c, off, recs[0], true)| <= |F|
    ensures Holds(F, e, LogFrom(AddRecord(c), e, recs[1..]))
    ensures off + |LogFrom(AddRecord(c), off, recs)| == e + |LogFrom(AddRecord(c), e, recs[1..])|
  {
    var w := AddRecord(c);
    var r := w(off, recs[0]);
    e := off + |r|;
    HoldsParts(F, off, r, LogFrom(w, e, recs[1..]));
  }

  lemma FirstOfMore(F: seq<Byte>, c: Checksum, k: nat, more: seq<seq<Byte>>) returns (fs: seq<Piece>, e: nat)
    requires more != [] && Holds(F, k, LogFrom(AddRecord(c), k, more)) && |F| == k + |LogFrom(AddRecord(c), k, more)|
    ensures PiecesAt(F, c, k, fs, true) && Payload(fs) == more[0] && EndOf(fs[|fs| - 1]) == e
    ensures Holds(F, e, LogFrom(AddRecord(c), e, more[1..])) && |F| == e + |LogFrom(AddRecord(c), e, more[1..])|
  {
    e := SplitFirst(F, c, k, more);
    fs := WrittenPieces(F, c, k, more[0], true);
  }

  lemma TornTail(F: seq<Byte>, c: Checksum, b: Buf, off: nat, ps: seq<Piece>, k: nat, more: seq<seq<Byte>>)
    requires Sound(c) && At(F, b, off) && TornAt(F, c, off, ps, k, more) && more != []
    ensures Drain(F, c, b, []) == (more, Report(Payload(ps)))
  {
    var e := TornFirst(F, c, b, off, ps, k, more);
    var report := Report(Payload(ps));
    RestOfMore(F, c, ReadLogical(F, c, Loop(b, false, [], [])).buf, e, more[1..], report);
    DrainOne(F, c, b, e, more[0], report, (more[1..], report));
    assert more == [more[0]] + more[1..];
  }

  /** The first appended record, after which the torn fragments are reported. */
  lemma TornFirst(F: seq<Byte>, c: Checksum, b: Buf, off: nat, ps: seq<Piece>, k: nat, more: seq<seq<Byte>>)
    returns (e: nat)
    requires Sound(c) && At(F, b, off) && TornAt(F, c, off, ps, k, more) && more != []
    ensures EndsAt(F, ReadLogical(F, c, Loop(b, false, [], [])), Report(Payload(ps)), e, more[0])
    ensures Holds(F, e, LogFrom(AddRecord(c), e, more[1..])) && |F| == e + |LogFrom(AddRecord(c), e, more[1..])|
  {
    var fs;
    fs, e := FirstOfMore(F, c, k, more);
    PiecesInside(F, c, k, fs, true);
    FirstAppended(F, c, b, off, ps, k, fs);
  }

  lemma FirstAppended(F: seq<Byte>, c: Checksum, b: Buf, off: nat, ps: seq<Piece>, k: nat, fs: seq<Piece>)
    requires Sound(c) && At(F, b, off) && PiecesAt(F, c, k, fs, true)
    requires OpenPieces(F, c, off, ps, true) && OpenEnd(off, ps) <= k <= HeaderPos(OpenEnd(off, ps))
    ensures EndsAt(F, ReadLogical(F, c, Loop(b, false, [], [])), Report(Payload(ps)), EndOf(fs[|fs| - 1]), Payload(fs))
  {
    ReadThroughTear(F, c, Loop(b, false, [], []), off, ps, true, k, fs);
    var payload := Payload(ps);
    assert [] + payload == payload && [] + Report(payload) == Report(payload);
  }

  lemma RestOfMore(F: seq<Byte>, c: Checksum, b: Buf, e: nat, rest: seq<seq<Byte>>, drops: seq<nat>)
    requires Sound(c) && At(F, b, e)
    requires Holds(F, e, LogFrom(AddRecord(c), e, rest)) && |F| == e + |LogFrom(AddRecord(c), e, rest)|
    ensures Drain(F, c, b, drops) == (rest, drops)
  {
    WholeIsComplete(AddRecord(c), e, rest, |F|);
    TruncatedLogFrom(F, F, c, b, e, rest, drops);
  }

  lemma WholeIsComplete(w: Appender, e: nat, rest: seq<seq<Byte>>, n: nat)
    requires n == e + |LogFrom(w, e, rest)|
    ensures Complete(w, e, rest, n) == rest
  {
    CompleteAll(w, e, rest);
  }

  /** Reading one record takes the reader from b to b', without a report. */
  ghost predicate ReadsOne(F: seq<Byte>, c: Checksum, b: Buf, record: seq<Byte>, b': Buf) {
    ValidBuf(F, b) && ValidBuf(F, b') && ReadLogical(F, c, Loop(b, false, [], [])) == LogicalRead(true, record, b', [])
  }

  lemma WholeRecord(F: seq<Byte>, c: Checksum, b: Buf, off: nat, rec: seq<Byte>) returns (b': Buf)
    requires Sound(c) && At(F, b, off) && Holds(F, off, LogOf(c, off, rec, true))
    ensures ReadsOne(F, c, b, rec, b') && At(F, b', off + |LogOf(c, off, rec, true)|)
  {
    ReadWrittenRecord(F, F, c, b, off, rec, []);
    b' := ReadLogical(F, c, Loop(b, false, [], [])).buf;
  }

  /** The places of the reader before and after each record. */
  ghost predicate ReadsAll(F: seq<Byte>, c: Checksum, bs: seq<Buf>, recs: seq<seq<Byte>>) {
    && |bs| == |recs| + 1 && (forall i | 0 <= i < |bs| :: ValidBuf(F, bs[i]))
    && forall i | 0 <= i < |recs| :: ReadsOne(F, c, bs[i], recs[i], bs[i + 1])
  }

  lemma ReadsOneMore(F: seq<Byte>, c: Checksum, b: Buf, bs: seq<Buf>, recs: seq<seq<Byte>>)
    requires recs != [] && ReadsAll(F, c, bs, recs[1..]) && ReadsOne(F, c, b, recs[0], bs[0])
    ensures ReadsAll(F, c, [b] + bs, recs)
  {
    var all := [b] + bs;
    forall i | 0 <= i < |recs| ensures ReadsOne(F, c, all[i], recs[i], all[i + 1]) {
      if i > 0 { assert ReadsOne(F, c, bs[i - 1], recs[1..][i - 1], bs[i]); }
    }
  }

  lemma {:induction false} WholeRecords(F: seq<Byte>, c: Checksum, b: Buf, off: nat, recs: seq<seq<Byte>>, end: nat)
    returns (bs: seq<Buf>)
    requires Sound(c) && At(F, b, off) && IsWritten(F, c, off, recs, end)
    ensures ReadsAll(F, c, bs, recs) && bs[0] == b && At(F, bs[|recs|], end)
    decreases |recs|
  {
    if recs == [] {
      bs := [b];
    } else {
      var e := FirstWritten(F, c, off, recs, end);
      var b' := WholeRecord(F, c, b, off, recs[0]);
      var rest := WholeRecords(F, c, b', e, recs[1..], end);
      ReadsOneMore(F, c, b, rest, recs);
      bs := [b] + rest;
    }
  }

  /** These records are in the file, from `off` up to `end`. */
  ghost predicate IsWritten(F: seq<Byte>, c: Checksum, off: nat, recs: seq<seq<Byte>>, end: nat) {
    Holds(F, off, LogFrom(AddRecord(c), off, recs)) && end == off + |LogFrom(AddRecord(c), off, recs)|
  }

  lemma FirstWritten(F: seq<Byte>, c: Checksum, off: nat, recs: seq<seq<Byte>>, end: nat) returns (e: nat)
    requires recs != [] && IsWritten(F, c, off, recs, end)
    ensures Holds(F, off, LogOf(c, off, recs[0], true)) && e == off + |LogOf(c, off, recs[0], true)|
    ensures IsWritten(F, c, e, recs[1..], end)
  {
    e := SplitFirst(F, c, off, recs);
  }

  lemma DrainsOne(F: seq<Byte>, c: Checksum, b: Buf, record: seq<Byte>, b': Buf)
    requires ReadsOne(F, c, b, record, b')
    ensures Drain(F, c, b, []) == ([record] + Drain(F, c, b', []).0, Drain(F, c, b', []).1)
  {
  }

  type Drained = (seq<seq<Byte>>, seq<nat>)

  lemma {:induction false} DrainAlong(drain: Buf --> Drained, bs: seq<Buf>, recs: seq<seq<Byte>>, last: Drained)
    requires |bs| == |recs| + 1 && (forall i | 0 <= i < |bs| :: drain.requires(bs[i])) && drain(bs[|recs|]) == last
    requires forall i | 0 <= i < |recs| :: drain(bs[i]) == ([recs[i]] + drain(bs[i + 1]).0, drain(bs[i + 1]).1)
    ensures drain(bs[0]) == (recs + last.0, last.1)
    decreases |recs|
  {
    if recs == [] {
      assert recs + last.0 == last.0;
    } else {
      DrainAlong(drain, bs[1..], recs[1..], last);
      assert recs + last.0 == [recs[0]] + (recs[1..] + last.0);
    }
  }

  lemma ReopenedLogFrom(F: seq<Byte>, c: Checksum, b: Buf, off: nat, recs: seq<seq<Byte>>, ps: seq<Piece>, k: nat,
                        more: seq<seq<Byte>>)
    requires Sound(c) && At(F, b, off) && Holds(F, off, LogFrom(AddRecord(c), off, recs)) && more != []
    requires TornAt(F, c, off + |LogFrom(AddRecord(c), off, recs)|, ps, k, more)
    ensures Drain(F, c, b, []) == (recs + more, Report(Payload(ps)))
  {
    var end := off + |LogFrom(AddRecord(c), off, recs)|;
    var bs := WholeRecords(F, c, b, off, recs, end);
    TornTail(F, c, bs[|recs|], end, ps, k, more);
    AlongRecords(F, c, bs, recs, more, Report(Payload(ps)));
  }

  lemma AlongRecords(F: seq<Byte>, c: Checksum, bs: seq<Buf>, recs: seq<seq<Byte>>, more: seq<seq<Byte>>,
                     report: seq<nat>)
    requires ReadsAll(F, c, bs, recs) && Drain(F, c, bs[|recs|], []) == (more, report)
    ensures Drain(F, c, bs[0], []) == (recs + more, report)
  {
    var drain := (b: Buf) requires ValidBuf(F, b) => Drain(F, c, b, []);
    forall i | 0 <= i < |recs| ensures drain(bs[i]) == ([recs[i]] + drain(bs[i + 1]).0, drain(bs[i + 1]).1) {
      DrainsOne(F, c, bs[i], recs[i], bs[i + 1]);
    }
    DrainAlong(drain, bs, recs, (more, report));
  }

  /** The file: whole records, the first bytes of one more, and what a writer appended who was opened at that length. */
  ghost function Reopened(c: Checksum, recs: seq<seq<Byte>>, torn: seq<Byte>, k: nat, more: seq<seq<Byte>>): seq<Byte>
    requires var e := |LogFrom(AddRecord(c), 0, recs)|; e <= k <= e + |LogOf(c, e, torn, true)|
  {
    var e := |LogFrom(AddRecord(c), 0, recs)|;
    LogFrom(AddRecord(c), 0, recs) + LogOf(c, e, torn, true)[..k - e] + LogFrom(AddRecord(c), k, more)
  }

  lemma ThreeHold(a: seq<Byte>, b: seq<Byte>, c: seq<Byte>)
    ensures Holds(a + b + c, 0, a) && Holds(a + b + c, |a|, b) && Holds(a + b + c, |a| + |b|, c)
  {
  }

  /** If the file ends between fragments, everything that was whole and everything appended is read back, and the
      fragments without an end are reported if they hold a byte. */
  lemma ReopenedLogIsRead(recs: seq<seq<Byte>>, torn: seq<Byte>, k: nat, done: seq<Byte>, more: seq<seq<Byte>>,
                          verify: bool)
    requires var e := |LogFrom(AddRecord(Crc(verify)), 0, recs)|;
             e <= k <= e + |LogOf(Crc(verify), e, torn, true)| && EndsBetween(e, torn, k, done)
    requires more != []
    ensures Drain(Reopened(Crc(verify), recs, torn, k, more), Crc(verify), Buf(0, 0, false), [])
         == (recs + more, Report(done))
  {
    var c := Crc(verify);
    CrcIsSound(verify);
    ReopenedFileIsRead(c, recs, torn, k, done, more, Buf(0, 0, false));
  }

  lemma ReopenedFileIsRead(c: Checksum, recs: seq<seq<Byte>>, torn: seq<Byte>, k: nat, done: seq<Byte>,
                           more: seq<seq<Byte>>, b: Buf)
    requires Sound(c) && b == Buf(0, 0, false) && more != []
    requires var e := |LogFrom(AddRecord(c), 0, recs)|;
             e <= k <= e + |LogOf(c, e, torn, true)| && EndsBetween(e, torn, k, done)
    ensures Drain(Reopened(c, recs, torn, k, more), c, b, []) == (recs + more, Report(done))
  {
    var F := Reopened(c, recs, torn, k, more);
    var e := |LogFrom(AddRecord(c), 0, recs)|;
    ThreeHold(LogFrom(AddRecord(c), 0, recs), LogOf(c, e, torn, true)[..k - e], LogFrom(AddRecord(c), k, more));
    PartsAreRead(F, c, e, recs, torn, k, done, more, b);
  }

  lemma PartsAreRead(F: seq<Byte>, c: Checksum, e: nat, recs: seq<seq<Byte>>, torn: seq<Byte>, k: nat, done: seq<Byte>,
                     more: seq<seq<Byte>>, b: Buf)
    requires Sound(c) && b == Buf(0, 0, false) && more != [] && e == |LogFrom(AddRecord(c), 0, recs)|
    requires e <= k <= e + |LogOf(c, e, torn, true)| && EndsBetween(e, torn, k, done)
    requires Holds(F, 0, LogFrom(AddRecord(c), 0, recs)) && Holds(F, e, LogOf(c, e, torn, true)[..k - e])
    requires Holds(F, k, LogFrom(AddRecord(c), k, more)) && |F| == k + |LogFrom(AddRecord(c), k, more)|
    ensures Drain(F, c, b, []) == (recs + more, Report(done))
  {
    var ps := TornPart(F, c, e, torn, k, done, more);
    assert At(F, b, 0);
    ReopenedLogFrom(F, c, b, 0, recs, ps, k, more);
  }

  lemma TornPart(F: seq<Byte>, c: Checksum, e: nat, torn: seq<Byte>, k: nat, done: seq<Byte>, more: seq<seq<Byte>>)
    returns (ps: seq<Piece>)
    requires e <= k <= e + |LogOf(c, e, torn, true)| && EndsBetween(e, torn, k, done)
    requires Holds(F, e, LogOf(c, e, torn, true)[..k - e])
    requires Holds(F, k, LogFrom(AddRecord(c), k, more)) && |F| == k + |LogFrom(AddRecord(c), k, more)|
    ensures TornAt(F, c, e, ps, k, more) && Payload(ps) == done
  {
    ps := TornPieces(F, c, e, torn, true, k, done);
  }

  // ----- a tear inside a fragment -----

  /** The loop of ReadRecord comes to the tear with the fragments before it in hand. */
  lemma {:induction false} ReadToTear(F: seq<Byte>, c: Checksum, s: Loop, off: nat, ps: seq<Piece>, begin: bool)
    returns (b': Buf)
    requires Sound(c) && At(F, s.buf, off) && s.inFragment == !begin && (begin ==> s.scratch == [])
    requires OpenPieces(F, c, off, ps, begin) && OpenEnd(off, ps) <= |F|
    ensures At(F, b', OpenEnd(off, ps))
    ensures ReadLogical(F, c, s)
         == ReadLogical(F, c, Loop(b', !begin || ps != [], s.scratch + Payload(ps), s.drops))
    decreases |ps|
  {
    if ps == [] {
      b' := s.buf;
      assert s.scratch + Payload(ps) == s.scratch;
    } else {
      OpenInside(F, c, EndOf(ps[0]), ps[1..], false);
      OneMoreFragment(F, c, s, off, ps[0], begin);
      var t := TakeTurn(F, c, s);
      b' := ReadToTear(F, c, t.next, EndOf(ps[0]), ps[1..], false);
      PayloadStep(s.scratch, ps);
    }
  }

  lemma {:induction false} OpenInside(F: seq<Byte>, c: Checksum, off: nat, ps: seq<Piece>, begin: bool)
    requires OpenPieces(F, c, off, ps, begin)
    ensures off <= OpenEnd(off, ps)
    decreases |ps|
  {
    if ps != [] { OpenInside(F, c, EndOf(ps[0]), ps[1..], false); }
  }

  /** The reports for the fragments before the tear. */
  ghost function OpenReport(ps: seq<Piece>): seq<nat> {
    if ps == [] then [] else [|Payload(ps)|]
  }

  /** What a reader at b gets of a file with a tear before q.  If the bytes at q run past the end of the file, nothing
      of what follows is read or reported.  If they fail the test of a fragment, the rest of the block is skipped: the
      reader goes on with the next block as if nothing had been written before, and reports the skipped bytes, unless
      they are zeros, and the fragments before the tear.  If they pass, they are the next fragment. */
  ghost predicate TornRead(F: seq<Byte>, c: Checksum, b: Buf, b': Buf, q: nat, ps: seq<Piece>)
    requires ValidBuf(F, b) && ValidBuf(F, b')
  {
    match Judge(F, c, q)
    case CutOff => Drain(F, c, b, []) == ([], [])
    case Zeroed => Drain(F, c, b, []) == Drain(F, c, NextBlock(F, q), OpenReport(ps))
    case Failed => Drain(F, c, b, []) == Drain(F, c, NextBlock(F, q), [BlockEndOf(F, q) - q] + OpenReport(ps))
    case Passed =>
      && ReadPhysical(F, c, b').code == F[q + 6] as int
      && ReadLogical(F, c, Loop(b, false, [], [])) == ReadLogical(F, c, Loop(b', ps != [], Payload(ps), []))
  }

  /** The file goes on after a tear inside a fragment, and the bytes at its place decide. */
  lemma TearInsideFragment(F: seq<Byte>, c: Checksum, b: Buf, off: nat, ps: seq<Piece>) returns (b': Buf)
    requires Sound(c) && At(F, b, off) && OpenPieces(F, c, off, ps, true) && OpenEnd(off, ps) <= |F|
    ensures At(F, b', OpenEnd(off, ps)) && TornRead(F, c, b, b', HeaderPos(OpenEnd(off, ps)), ps)
  {
    b' := ReadToTear(F, c, Loop(b, false, [], []), off, ps, true);
    var payload := Payload(ps);
    assert [] + payload == payload;
    JudgedRead(F, c, b', OpenEnd(off, ps));
    TornDrain(F, c, b, b', ps);
    JudgedDrain(F, c, b, b', HeaderPos(OpenEnd(off, ps)), ps);
  }

  lemma JudgedDrain(F: seq<Byte>, c: Checksum, b: Buf, b': Buf, q: nat, ps: seq<Piece>)
    requires ValidBuf(F, b) && ValidBuf(F, b') && ReadAsJudged(F, c, q, ReadPhysical(F, c, b'))
    requires DrainsOn(F, c, b, ReadPhysical(F, c, b'), OpenReport(ps))
    requires ReadLogical(F, c, Loop(b, false, [], [])) == ReadLogical(F, c, Loop(b', ps != [], Payload(ps), []))
    ensures TornRead(F, c, b, b', q, ps)
  {
  }

  /** After the physical record p nothing comes, or what is read from its buffer on. */
  ghost predicate DrainsOn(F: seq<Byte>, c: Checksum, b: Buf, p: PhysicalRead, open: seq<nat>)
    requires ValidBuf(F, b) && ValidBuf(F, p.buf)
  {
    && (p.code == EOF ==> Drain(F, c, b, []) == ([], p.drops))
    && (p.code == BAD ==>
          && Drain(F, c, b, []) == Drain(F, c, p.buf, p.drops + open)
          && (p.drops == [] ==> Drain(F, c, b, []) == Drain(F, c, p.buf, open)))
  }

  lemma TornDrain(F: seq<Byte>, c: Checksum, b: Buf, b': Buf, ps: seq<Piece>)
    requires ValidBuf(F, b) && ValidBuf(F, b')
    requires ReadLogical(F, c, Loop(b, false, [], [])) == ReadLogical(F, c, Loop(b', ps != [], Payload(ps), []))
    ensures DrainsOn(F, c, b, ReadPhysical(F, c, b'), OpenReport(ps))
  {
    TornTurn(F, c, b', ps != [], Payload(ps));
    assert [] + OpenReport(ps) == OpenReport(ps);
  }

  lemma TornTurn(F: seq<Byte>, c: Checksum, b: Buf, inFragment: bool, scratch: seq<Byte>)
    requires ValidBuf(F, b) && (!inFragment ==> scratch == [])
    ensures var p, r := ReadPhysical(F, c, b), ReadLogical(F, c, Loop(b, inFragment, scratch, []));
            && (p.code == EOF ==> !r.found && r.drops == p.drops)
            && (p.code == BAD ==>
                  var d := p.drops + if inFragment then [|scratch|] else [];
                  r == ReadLogical(F, c, Loop(p.buf, false, [], d)))
  {
    var p := ReadPhysical(F, c, b);
    assert [] + p.drops == p.drops && p.drops + [] == p.drops;
  }
}
