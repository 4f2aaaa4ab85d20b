/** What a reader of the log makes of any file (db/log_reader.cc), said of the fragments that the file holds: a record
    is delivered for a FULL fragment, and for a LAST that ends a run of FIRST and MIDDLE; what is not delivered is
    reported. */
module LogFragments {
  import opened Options
  import opened Bytes
  import opened LogFormat
  import opened LogReplay
  import LogFiles

  // ----- the fragments of a file -----

  /** What the reader makes of the bytes where a fragment should begin. */
  datatype Verdict = CutOff | Zeroed | Failed | Passed

  function BlockEndOf(F: seq<Byte>, q: nat): nat {
    if |F| < q + Room(q) then |F| else q + Room(q)
  }

  /** The test of a fragment at q: it must end within the file and within its block, and have its checksum. */
  function Judge(F: seq<Byte>, c: Checksum, q: nat): (v: Verdict)
    ensures v != CutOff ==> q + HEADER <= BlockEndOf(F, q)
    ensures v.Passed? ==> q + HEADER + LengthAt(F, q) <= |F|
  {
    if |F| < q + HEADER || BlockEndOf(F, q) < q + HEADER then CutOff
    else
      var len, t := LengthAt(F, q), F[q + 6];
      if q + HEADER + len > BlockEndOf(F, q) then if |F| < q + Room(q) then CutOff else Failed
      else if t == ZERO && len == 0 then Zeroed
      else if c.matches(F[q..q + 4], t, F[q + HEADER..q + HEADER + len]) then Passed else Failed
  }

  function PayloadAt(F: seq<Byte>, q: nat): seq<Byte>
    requires q + HEADER <= |F| && q + HEADER + LengthAt(F, q) <= |F|
  {
    F[q + HEADER..q + HEADER + LengthAt(F, q)]
  }

  function LengthAt(F: seq<Byte>, q: nat): nat
    requires q + HEADER <= |F|
  {
    F[q + 4] as int + 256 * F[q + 5] as int
  }

  /** The reader at the end of the block of q. */
  function NextBlock(F: seq<Byte>, q: nat): Buf {
    Buf(BlockEndOf(F, q), BlockEndOf(F, q), |F| < q + Room(q))
  }

  ghost predicate ReadAsJudged(F: seq<Byte>, c: Checksum, q: nat, p: PhysicalRead) {
    match Judge(F, c, q)
    case CutOff => p.code == EOF && p.drops == []
    case Zeroed => p.code == BAD && p.drops == [] && p.buf == NextBlock(F, q)
    case Failed => p.code == BAD && p.drops == [BlockEndOf(F, q) - q] && p.buf == NextBlock(F, q)
    case Passed =>
      && p.code == F[q + 6] as int && p.drops == [] && p.frag == PayloadAt(F, q)
      && At(F, p.buf, q + HEADER + |p.frag|)
  }

  lemma JudgedRead(F: seq<Byte>, c: Checksum, b: Buf, off: nat)
    requires At(F, b, off)
    ensures ReadAsJudged(F, c, HeaderPos(off), ReadPhysical(F, c, b))
  {
    var q := HeaderPos(off);
    var b' := ReachHeader(F, c, b, off);
    HeaderFits(off);
    if q + HEADER <= |F| { JudgedParse(F, c, b', q); }
  }

  lemma JudgedParse(F: seq<Byte>, c: Checksum, b: Buf, q: nat)
    requires At(F, b, q) && b.end - q >= HEADER && Room(q) >= HEADER
    ensures ReadAsJudged(F, c, q, ParseRecord(F, c, b))
  {
    assert b.end == BlockEndOf(F, q) && b.eof == (|F| < q + Room(q));
    var n := HEADER + LengthAt(F, q);
    if n < Room(q) {
      RoomAfter(q, n);
    } else {
      BlockEnd(q);
    }
  }

  /** A fragment that passes its test, or bytes that are skipped; `size` is what is reported of them. */
  datatype Event = Found(kind: int, payload: seq<Byte>) | Gap(size: nat)

  /** What stands in the file from `off` on, fragment after fragment.  What does not pass takes the rest of its block
      along.  A type that stands for the end of the file ends it. */
  function Events(F: seq<Byte>, c: Checksum, off: nat): seq<Event>
    decreases |F| - off
  {
    var q := HeaderPos(off);
    match Judge(F, c, q)
    case CutOff => []
    case Zeroed => [Gap(0)] + Events(F, c, BlockEndOf(F, q))
    case Failed => [Gap(BlockEndOf(F, q) - q)] + Events(F, c, BlockEndOf(F, q))
    case Passed =>
      if F[q + 6] as int == EOF then []
      else [Found(F[q + 6] as int, PayloadAt(F, q))] + Events(F, c, q + HEADER + LengthAt(F, q))
  }

  // ----- records and reports -----

  predicate Is(e: Event, kind: int) {
    e.Found? && e.kind == kind
  }

  /** Events i to k begin a record that has no end yet. */
  ghost predicate Opens(es: seq<Event>, i: nat, k: nat) {
    i < k <= |es| && Is(es[i], FIRST) && forall j | i < j < k :: Is(es[j], MIDDLE)
  }

  function Payloads(es: seq<Event>, i: nat, k: nat): seq<Byte>
    requires i <= k <= |es|
  {
    if i == k then [] else Payloads(es, i, k - 1) + if es[k - 1].Found? then es[k - 1].payload else []
  }

  /** What has been gathered of an unfinished record before event k. */
  ghost function Gathered(es: seq<Event>, k: nat): Option<seq<Byte>>
    requires k <= |es|
  {
    if i: nat :| Opens(es, i, k) then Some(Payloads(es, i, k)) else None
  }

  /** The record that event k delivers. */
  ghost function Delivered(es: seq<Event>, k: nat): seq<seq<Byte>>
    requires k < |es|
  {
    if Is(es[k], FULL) then [es[k].payload]
    else if Is(es[k], LAST) && Gathered(es, k).Some? then [Gathered(es, k).value + es[k].payload]
    else []
  }

  function SizeOf(o: Option<seq<Byte>>): seq<nat> {
    if o.Some? then [|o.value|] else []
  }

  /** The sizes that are reported at event k: bytes skipped, fragments out of place, and unfinished records. */
  ghost function Reported(es: seq<Event>, k: nat): seq<nat>
    requires k < |es|
  {
    var open := Gathered(es, k);
    match es[k]
    case Gap(size) => (if size > 0 then [size] else []) + SizeOf(open)
    case Found(kind, payload) =>
      if kind == FULL || kind == FIRST then if open == Some([]) then [] else SizeOf(open)
      else if kind == MIDDLE || kind == LAST then if open.Some? then [] else [|payload|]
      else if kind == BAD then SizeOf(open)
      else [|payload| + if open.Some? then |open.value| else 0]
  }

  ghost function AllDelivered(es: seq<Event>, k: nat): seq<seq<Byte>>
    requires k <= |es|
    decreases |es| - k
  {
    if k == |es| then [] else Delivered(es, k) + AllDelivered(es, k + 1)
  }

  ghost function AllReported(es: seq<Event>, k: nat): seq<nat>
    requires k <= |es|
    decreases |es| - k
  {
    if k == |es| then [] else Reported(es, k) + AllReported(es, k + 1)
  }

  // ----- one event more -----

  lemma OneOpening(es: seq<Event>, i: nat, j: nat, k: nat)
    requires Opens(es, i, k) && Opens(es, j, k)
    ensures i == j
  {
  }

  lemma GatheredIs(es: seq<Event>, i: nat, k: nat)
    requires Opens(es, i, k)
    ensures Gathered(es, k) == Some(Payloads(es, i, k))
  {
    forall j: nat | Opens(es, j, k) ensures j == i { OneOpening(es, i, j, k); }
  }

  lemma GatheredNext(es: seq<Event>, k: nat)
    requires k < |es|
    ensures Gathered(es, k + 1)
         == if Is(es[k], FIRST) then Some(es[k].payload)
            else if Is(es[k], MIDDLE) && Gathered(es, k).Some? then Some(Gathered(es, k).value + es[k].payload)
            else None
  {
    if Is(es[k], FIRST) {
      assert Opens(es, k, k + 1);
      GatheredIs(es, k, k + 1);
      assert Payloads(es, k, k) + es[k].payload == es[k].payload;
    } else {
      var next := k + 1;
      forall i: nat ensures Opens(es, i, next) <==> Opens(es, i, k) && Is(es[k], MIDDLE) {
      }
      if i: nat :| Opens(es, i, next) {
        GatheredIs(es, i, k);
        GatheredIs(es, i, next);
      }
    }
  }

  // ----- the reader -----

  /** Reading on from inside ReadRecord's loop to the end of the file. */
  function DrainLoop(F: seq<Byte>, c: Checksum, s: Loop): (seq<seq<Byte>>, seq<nat>)
    requires ValidBuf(F, s.buf)
  {
    var l := ReadLogical(F, c, s);
    if !l.found then ([], l.drops)
    else
      var rest := Drain(F, c, l.buf, l.drops);
      ([l.record] + rest.0, rest.1)
  }

  lemma DrainIsLoop(F: seq<Byte>, c: Checksum, b: Buf, drops: seq<nat>)
    requires ValidBuf(F, b)
    ensures Drain(F, c, b, drops) == DrainLoop(F, c, Loop(b, false, [], drops))
  {
  }

  /** The loop's variables hold what has been gathered. */
  ghost predicate Holding(s: Loop, open: Option<seq<Byte>>) {
    s.inFragment == open.Some? && s.scratch == if open.Some? then open.value else []
  }

  /** A turn of the loop at event k: it delivers and reports what the event does, and holds what is gathered then. */
  ghost predicate Took(t: Turn, s: Loop, es: seq<Event>, k: nat, p: PhysicalRead)
    requires k < |es|
  {
    if Delivered(es, k) != [] then
      t.Return? && t.read.found && Delivered(es, k) == [t.read.record] && t.read.buf == p.buf
      && t.read.drops == s.drops + Reported(es, k) && Gathered(es, k + 1) == None
    else
      t.Again? && t.next.buf == p.buf && Holding(t.next, Gathered(es, k + 1))
      && t.next.drops == s.drops + Reported(es, k)
  }

  lemma TurnAtEvent(F: seq<Byte>, c: Checksum, s: Loop, es: seq<Event>, k: nat, p: PhysicalRead)
    requires ValidBuf(F, s.buf) && k < |es| && Holding(s, Gathered(es, k)) && p == ReadPhysical(F, c, s.buf)
    requires ReadsEvent(p, es[k])
    ensures Took(TakeTurn(F, c, s), s, es, k, p)
  {
    GatheredNext(es, k);
    if es[k].Gap? { TurnAtGap(F, c, s, es, k, p); } else { TurnAtFragment(F, c, s, es, k, p); }
  }

  lemma TurnAtGap(F: seq<Byte>, c: Checksum, s: Loop, es: seq<Event>, k: nat, p: PhysicalRead)
    requires ValidBuf(F, s.buf) && k < |es| && Holding(s, Gathered(es, k)) && p == ReadPhysical(F, c, s.buf)
    requires ReadsEvent(p, es[k]) && es[k].Gap? && Gathered(es, k + 1) == None
    ensures Took(TakeTurn(F, c, s), s, es, k, p)
  {
  }

  lemma TurnAtFragment(F: seq<Byte>, c: Checksum, s: Loop, es: seq<Event>, k: nat, p: PhysicalRead)
    requires ValidBuf(F, s.buf) && k < |es| && Holding(s, Gathered(es, k)) && p == ReadPhysical(F, c, s.buf)
    requires ReadsEvent(p, es[k]) && es[k].Found?
    requires Gathered(es, k + 1)
          == if Is(es[k], FIRST) then Some(es[k].payload)
             else if Is(es[k], MIDDLE) && Gathered(es, k).Some? then Some(Gathered(es, k).value + es[k].payload)
             else None
    ensures Took(TakeTurn(F, c, s), s, es, k, p)
  {
  }

  /** Where the reader is after the event at `off`. */
  function NextOffset(F: seq<Byte>, c: Checksum, off: nat): nat {
    var q := HeaderPos(off);
    match Judge(F, c, q)
    case CutOff => off
    case Passed => q + HEADER + LengthAt(F, q)
    case _ => BlockEndOf(F, q)
  }

  /** The physical record that is read for an event. */
  ghost predicate ReadsEvent(p: PhysicalRead, e: Event) {
    match e
    case Gap(size) => p.code == BAD && p.drops == if size > 0 then [size] else []
    case Found(kind, payload) => p.code == kind && p.frag == payload && p.drops == [] && kind != EOF
  }

  lemma NextEvent(F: seq<Byte>, c: Checksum, b: Buf, off: nat)
    requires At(F, b, off)
    ensures var es, p := Events(F, c, off), ReadPhysical(F, c, b);
            if es == [] then p.code == EOF && p.drops == []
            else ReadsEvent(p, es[0]) && At(F, p.buf, NextOffset(F, c, off))
                 && es[1..] == Events(F, c, NextOffset(F, c, off))
  {
    NextIsRead(F, c, b, off);
    NextIsAt(F, c, b, off);
    EventsAreFirstAndRest(F, c, off);
  }

  lemma NextIsRead(F: seq<Byte>, c: Checksum, b: Buf, off: nat)
    requires At(F, b, off)
    ensures var es, p := Events(F, c, off), ReadPhysical(F, c, b);
            if es == [] then p.code == EOF && p.drops == [] else ReadsEvent(p, es[0])
  {
    JudgedRead(F, c, b, off);
  }

  lemma NextIsAt(F: seq<Byte>, c: Checksum, b: Buf, off: nat)
    requires At(F, b, off)
    ensures Events(F, c, off) != [] ==> At(F, ReadPhysical(F, c, b).buf, NextOffset(F, c, off))
  {
    JudgedRead(F, c, b, off);
    AtNextBlock(F, HeaderPos(off));
  }

  lemma EventsAreFirstAndRest(F: seq<Byte>, c: Checksum, off: nat)
    ensures var es := Events(F, c, off); es != [] ==> es[1..] == Events(F, c, NextOffset(F, c, off))
  {
  }

  lemma AtNextBlock(F: seq<Byte>, q: nat)
    ensures q <= |F| ==> At(F, NextBlock(F, q), BlockEndOf(F, q))
  {
    BlockEnd(q);
  }

  lemma LoopReturns(F: seq<Byte>, c: Checksum, s: Loop)
    requires ValidBuf(F, s.buf) && TakeTurn(F, c, s).Return?
    ensures var l := TakeTurn(F, c, s).read;
            if !l.found then DrainLoop(F, c, s) == ([], l.drops)
            else var rest := DrainLoop(F, c, Loop(l.buf, false, [], l.drops));
                 DrainLoop(F, c, s) == ([l.record] + rest.0, rest.1)
  {
    var l := TakeTurn(F, c, s).read;
    assert ReadLogical(F, c, s) == l;
    if l.found { DrainIsLoop(F, c, l.buf, l.drops); }
  }

  lemma LoopGoesOn(F: seq<Byte>, c: Checksum, s: Loop)
    requires ValidBuf(F, s.buf) && TakeTurn(F, c, s).Again?
    ensures DrainLoop(F, c, s) == DrainLoop(F, c, TakeTurn(F, c, s).next)
  {
    assert ReadLogical(F, c, s) == ReadLogical(F, c, TakeTurn(F, c, s).next);
  }

  /** The loop past event k. */
  lemma PastEvent(F: seq<Byte>, c: Checksum, s: Loop, es: seq<Event>, k: nat, p: PhysicalRead) returns (s': Loop)
    requires ValidBuf(F, s.buf) && k < |es| && Holding(s, Gathered(es, k)) && p == ReadPhysical(F, c, s.buf)
    requires ReadsEvent(p, es[k])
    ensures s'.buf == p.buf && Holding(s', Gathered(es, k + 1)) && s'.drops == s.drops + Reported(es, k)
    ensures var rest := DrainLoop(F, c, s'); DrainLoop(F, c, s) == (Delivered(es, k) + rest.0, rest.1)
  {
    TurnAtEvent(F, c, s, es, k, p);
    var t := TakeTurn(F, c, s);
    if t.Return? {
      LoopReturns(F, c, s);
      s' := Loop(p.buf, false, [], t.read.drops);
    } else {
      LoopGoesOn(F, c, s);
      s' := t.next;
      assert [] + DrainLoop(F, c, s').0 == DrainLoop(F, c, s').0;
    }
  }

  lemma AtTheEnd(F: seq<Byte>, c: Checksum, s: Loop, off: nat)
    requires At(F, s.buf, off) && Events(F, c, off) == []
    ensures DrainLoop(F, c, s) == ([], s.drops)
  {
    NextEvent(F, c, s.buf, off);
    LoopReturns(F, c, s);
    assert s.drops + [] == s.drops;
  }

  /** From event k on, whatever has been gathered before. */
  lemma {:induction false} LoopFromEvent(F: seq<Byte>, c: Checksum, s: Loop, off: nat, es: seq<Event>, k: nat)
    requires At(F, s.buf, off) && k <= |es| && Events(F, c, off) == es[k..] && Holding(s, Gathered(es, k))
    ensures DrainLoop(F, c, s) == (AllDelivered(es, k), s.drops + AllReported(es, k))
    decreases |es| - k
  {
    if k == |es| {
      AtTheEnd(F, c, s, off);
      assert s.drops + [] == s.drops;
    } else {
      var p := ReadPhysical(F, c, s.buf);
      NextEvent(F, c, s.buf, off);
      assert es[k..][0] == es[k] && es[k..][1..] == es[k + 1..];
      var s' := PastEvent(F, c, s, es, k, p);
      LoopFromEvent(F, c, s', NextOffset(F, c, off), es, k + 1);
      Regroup(s.drops, Reported(es, k), AllReported(es, k + 1));
    }
  }

  lemma Regroup(a: seq<nat>, b: seq<nat>, c: seq<nat>)
    ensures a + b + c == a + (b + c)
  {
  }

  /** Reading any file from its beginning delivers and reports, event by event, what its fragments say. */
  lemma AnyFileIsRead(F: seq<Byte>, c: Checksum)
    ensures var es := Events(F, c, 0);
            Drain(F, c, Buf(0, 0, false), []) == (AllDelivered(es, 0), AllReported(es, 0))
  {
    var es, b := Events(F, c, 0), Buf(0, 0, false);
    assert At(F, b, 0) && es[0..] == es;
    assert forall i: nat :: !Opens(es, i, 0);
    DrainIsLoop(F, c, b, []);
    LoopFromEvent(F, c, Loop(b, false, [], []), 0, es, 0);
    assert [] + AllReported(es, 0) == AllReported(es, 0);
  }

  /** The program: a new reader, and all that it returns and reports. */
  method ReadAnyFile(c: Checksum, data: seq<Byte>) returns (records: seq<seq<Byte>>, drops: seq<nat>)
    ensures var es := Events(data, c, 0); records == AllDelivered(es, 0) && drops == AllReported(es, 0)
  {
    AnyFileIsRead(data, c);
    var reader := new LogFiles.Reader(c, data);
    records := reader.ReadAll();
    drops := reader.drops;
  }

  // ----- what that means -----

  lemma {:induction false} DeliveredBy(es: seq<Event>, n: nat, r: seq<Byte>) returns (k: nat)
    requires n <= |es| && r in AllDelivered(es, n)
    ensures n <= k < |es| && Delivered(es, k) == [r]
    decreases |es| - n
  {
    if Delivered(es, n) == [r] {
      k := n;
    } else {
      k := DeliveredBy(es, n + 1, r);
    }
  }

  /** Every record is the payload of one FULL fragment, or of consecutive fragments FIRST, MIDDLE and so on, LAST. */
  ghost predicate IsRun(es: seq<Event>, i: nat, k: nat, r: seq<Byte>) {
    && i <= k < |es| && r == Payloads(es, i, k + 1)
    && if i == k then Is(es[k], FULL) else Opens(es, i, k) && Is(es[k], LAST)
  }

  lemma RecordIsRun(es: seq<Event>, r: seq<Byte>) returns (i: nat, k: nat)
    requires r in AllDelivered(es, 0)
    ensures IsRun(es, i, k, r)
  {
    k := DeliveredBy(es, 0, r);
    if Is(es[k], FULL) {
      i := k;
      assert Payloads(es, k, k) + es[k].payload == es[k].payload;
    } else {
      i :| Opens(es, i, k);
      GatheredIs(es, i, k);
    }
  }

  /** A MIDDLE or LAST outside a run is reported with its length, and delivers nothing. */
  lemma OutOfPlaceIsReported(es: seq<Event>, k: nat)
    requires k < |es| && (Is(es[k], MIDDLE) || Is(es[k], LAST)) && !exists i: nat :: Opens(es, i, k)
    ensures Delivered(es, k) == [] && Reported(es, k) == [|es[k].payload|]
  {
  }

  function Sum(ns: seq<nat>): nat {
    if ns == [] then 0 else ns[0] + Sum(ns[1..])
  }

  function BytesIn(records: seq<seq<Byte>>): nat {
    if records == [] then 0 else |records[0]| + BytesIn(records[1..])
  }

  /** The bytes of an event, other than headers; a fragment with the reader's own code for a bad record has none. */
  function Weight(e: Event): nat {
    match e
    case Gap(size) => size
    case Found(kind, payload) => if kind == BAD then 0 else |payload|
  }

  function Weights(es: seq<Event>, k: nat): nat
    requires k <= |es|
    decreases |es| - k
  {
    if k == |es| then 0 else Weight(es[k]) + Weights(es, k + 1)
  }

  function Held(o: Option<seq<Byte>>): nat {
    if o.Some? then |o.value| else 0
  }

  lemma {:induction false} SumOfConcat(a: seq<nat>, b: seq<nat>)
    ensures Sum(a + b) == Sum(a) + Sum(b)
    decreases |a|
  {
    if a == [] {
      assert a + b == b;
    } else {
      assert (a + b)[1..] == a[1..] + b;
      SumOfConcat(a[1..], b);
    }
  }

  lemma WeightOfOne(es: seq<Event>, k: nat)
    requires k < |es|
    ensures BytesIn(Delivered(es, k)) + Sum(Reported(es, k)) + Held(Gathered(es, k + 1))
         == Held(Gathered(es, k)) + Weight(es[k])
  {
    GatheredNext(es, k);
    var open := Gathered(es, k);
    assert Sum(SizeOf(open)) == Held(open) && BytesIn([]) == 0;
    if es[k].Gap? { SumOfConcat(if es[k].size > 0 then [es[k].size] else [], SizeOf(open)); }
  }

  /** The balance from event k on. */
  ghost predicate Balanced(es: seq<Event>, k: nat, delivered: nat, reported: nat)
    requires k <= |es|
  {
    delivered + reported + Held(Gathered(es, |es|)) == Held(Gathered(es, k)) + Weights(es, k)
  }

  lemma BalanceOne(es: seq<Event>, k: nat, delivered: nat, reported: nat)
    requires k < |es| && Balanced(es, k + 1, delivered, reported)
    ensures Balanced(es, k, BytesIn(Delivered(es, k)) + delivered, Sum(Reported(es, k)) + reported)
  {
    WeightOfOne(es, k);
  }

  lemma {:induction false} AllBalanced(es: seq<Event>, k: nat)
    requires k <= |es|
    ensures Balanced(es, k, BytesIn(AllDelivered(es, k)), Sum(AllReported(es, k)))
    decreases |es| - k
  {
    if k < |es| {
      AllBalanced(es, k + 1);
      BalanceOne(es, k, BytesIn(AllDelivered(es, k + 1)), Sum(AllReported(es, k + 1)));
      TotalsOfOneMore(es, k);
    }
  }

  /** No byte vanishes: it is delivered, reported, or part of a record that the file ends before. */
  lemma NothingVanishes(es: seq<Event>)
    ensures BytesIn(AllDelivered(es, 0)) + Sum(AllReported(es, 0)) + Held(Gathered(es, |es|)) == Weights(es, 0)
  {
    AllBalanced(es, 0);
    assert forall i: nat :: !Opens(es, i, 0);
  }

  lemma TotalsOfOneMore(es: seq<Event>, k: nat)
    requires k < |es|
    ensures BytesIn(AllDelivered(es, k)) == BytesIn(Delivered(es, k)) + BytesIn(AllDelivered(es, k + 1))
    ensures Sum(AllReported(es, k)) == Sum(Reported(es, k)) + Sum(AllReported(es, k + 1))
  {
    SumOfConcat(Reported(es, k), AllReported(es, k + 1));
    BytesOfOne(Delivered(es, k), AllDelivered(es, k + 1));
  }

  lemma BytesOfOne(a: seq<seq<Byte>>, b: seq<seq<Byte>>)
    requires |a| <= 1
    ensures BytesIn(a + b) == BytesIn(a) + BytesIn(b)
  {
    if a == [] { assert a + b == b; } else { assert (a + b)[1..] == b && a[1..] == []; }
  }
}
