/** DBImpl::Write with BuildBatchGroup (db/db_impl.cc): many threads, one queue, the head of the queue works for a
    group without holding the lock.  Steps are what a thread does between acquiring and releasing the mutex, or one
    log append or one memtable insertion outside it; they interleave freely.  No I/O errors. */
module GroupCommit {
  import opened Options
  import opened Bytes
  import WriteBatches

  type Update = WriteBatches.Update

  /** A write batch and its ByteSize; a null batch (used to force a memtable switch) carries no updates. */
  datatype Batch = Null | Batch(updates: seq<Update>, size: nat)

  datatype Request = Request(batch: Batch, sync: bool)

  type Thread = nat

  function Updates(r: Request): seq<Update> {
    if r.batch.Null? then [] else r.batch.updates
  }

  function SizeOf(r: Request): nat {
    if r.batch.Null? then 0 else r.batch.size
  }

  /** The updates of several requests, in order. */
  function AllUpdates(rs: seq<Request>): seq<Update> {
    if rs == [] then [] else AllUpdates(rs[..|rs| - 1]) + Updates(rs[|rs| - 1])
  }

  lemma {:induction false} AllUpdatesConcat(a: seq<Request>, b: seq<Request>)
    ensures AllUpdates(a + b) == AllUpdates(a) + AllUpdates(b)
    decreases |b|
  {
    if b == [] {
      assert a + b == a && AllUpdates(a) + [] == AllUpdates(a);
    } else {
      var n := |b| - 1;
      AllUpdatesConcat(a, b[..n]);
      assert (a + b)[..|a + b| - 1] == a + b[..n] && (a + b)[|a + b| - 1] == b[n];
      Assoc(AllUpdates(a), AllUpdates(b[..n]), Updates(b[n]));
    }
  }

  // ----- BuildBatchGroup -----

  function MaxGroupSize(first: nat): nat {
    if first <= 131072 then first + 131072 else 1048576
  }

  function TotalSize(rs: seq<Request>): nat {
    if rs == [] then 0 else TotalSize(rs[..|rs| - 1]) + SizeOf(rs[|rs| - 1])
  }

  /** Whether the loop of BuildBatchGroup takes request `n` after having taken the ones before it. */
  predicate Joins(rs: seq<Request>, n: nat)
    requires 0 < n < |rs|
  {
    && !(rs[n].sync && !rs[0].sync)
    && (rs[n].batch.Null? || TotalSize(rs[..n]) + SizeOf(rs[n]) <= MaxGroupSize(SizeOf(rs[0])))
  }

  /** The group is the longest prefix of the queue in which every request joins. */
  ghost predicate IsGroup(rs: seq<Request>, n: nat) {
    && 0 < n <= |rs|
    && (forall i | 0 < i < n :: Joins(rs, i))
    && (n < |rs| ==> !Joins(rs, n))
  }

  /** How far the group goes, and the batch that is written for it. */
  method BuildBatchGroup(rs: seq<Request>) returns (n: nat, updates: seq<Update>)
    requires rs != [] && !rs[0].batch.Null?
    ensures IsGroup(rs, n)
    ensures updates == AllUpdates(rs[..n])
  {
    var size: nat := SizeOf(rs[0]);
    var maxSize: nat := 1048576;
    if size <= 131072 {
      maxSize := size + 131072;
    }
    updates := Updates(rs[0]);
    n := 1;
    FirstOfGroup(rs);
    while n < |rs|
      invariant Taken(rs, n, size, updates)
    {
      var w := rs[n];
      JoinsTest(rs, n, size, updates, maxSize);
      if w.sync && !rs[0].sync {
        return;
      }
      if !w.batch.Null? {
        if size + w.batch.size > maxSize {
          return;
        }
        TakeOne(rs, n, size, updates);
        size := size + w.batch.size;
        updates := updates + w.batch.updates;
      } else {
        TakeOne(rs, n, size, updates);
      }
      n := n + 1;
    }
  }

  /** The two tests of the loop. */
  lemma JoinsTest(rs: seq<Request>, n: nat, size: nat, updates: seq<Update>, maxSize: nat)
    requires Taken(rs, n, size, updates) && n < |rs| && maxSize == MaxGroupSize(SizeOf(rs[0]))
    ensures Joins(rs, n) <==>
              !(rs[n].sync && !rs[0].sync) && (rs[n].batch.Null? || size + rs[n].batch.size <= maxSize)
  {
  }

  /** The loop of BuildBatchGroup has taken the first n requests. */
  ghost predicate Taken(rs: seq<Request>, n: nat, size: nat, updates: seq<Update>) {
    && 0 < n <= |rs| && (forall i | 0 < i < n :: Joins(rs, i))
    && size == TotalSize(rs[..n]) && updates == AllUpdates(rs[..n])
  }

  lemma TakeOne(rs: seq<Request>, n: nat, size: nat, updates: seq<Update>)
    requires Taken(rs, n, size, updates) && n < |rs| && Joins(rs, n)
    ensures Taken(rs, n + 1, size + SizeOf(rs[n]), updates + Updates(rs[n]))
    ensures rs[n].batch.Null? ==> Taken(rs, n + 1, size, updates)
  {
    OneMore(rs, n);
  }

  /** A write that does not ask for a sync never carries one that does, and a group of more than its first batch
      stays within 1 MB, or within 128 KB above a first batch of at most 128 KB.  A request that does not join
      asks for a sync that the group has not, or would exceed that. */
  lemma {:induction false} GroupIsBounded(rs: seq<Request>, n: nat)
    requires 0 < n <= |rs| && forall i | 0 < i < n :: Joins(rs, i)
    ensures !rs[0].sync ==> forall i | 0 <= i < n :: !rs[i].sync
    ensures TotalSize(rs[..n]) <= (if SizeOf(rs[0]) <= 131072 then SizeOf(rs[0]) + 131072 else 1048576)
            || (TotalSize(rs[..n]) == SizeOf(rs[0]) && forall i | 0 < i < n :: rs[i].batch.Null?)
    ensures n < |rs| && !Joins(rs, n) ==>
              || (rs[n].sync && !rs[0].sync)
              || (!rs[n].batch.Null? && TotalSize(rs[..n]) + SizeOf(rs[n])
                                        > if SizeOf(rs[0]) <= 131072 then SizeOf(rs[0]) + 131072 else 1048576)
    decreases n
  {
    if n == 1 {
      assert rs[..1] == [rs[0]];
      OneRequest(rs[0]);
    } else {
      assert Joins(rs, n - 1);
      GroupIsBounded(rs, n - 1);
      OneMore(rs, n - 1);
    }
  }

  lemma OneMore(rs: seq<Request>, n: nat)
    requires n < |rs|
    ensures TotalSize(rs[..n + 1]) == TotalSize(rs[..n]) + SizeOf(rs[n])
    ensures AllUpdates(rs[..n + 1]) == AllUpdates(rs[..n]) + Updates(rs[n])
    ensures rs[n].batch.Null? ==> AllUpdates(rs[..n + 1]) == AllUpdates(rs[..n])
  {
    assert rs[..n + 1][..n] == rs[..n];
    assert AllUpdates(rs[..n]) + [] == AllUpdates(rs[..n]);
  }

  lemma FirstOfGroup(rs: seq<Request>)
    requires rs != []
    ensures AllUpdates(rs[..1]) == Updates(rs[0]) && TotalSize(rs[..1]) == SizeOf(rs[0])
  {
    assert rs[..1] == [rs[0]];
    OneRequest(rs[0]);
  }

  lemma OneRequest(r: Request)
    ensures AllUpdates([r]) == Updates(r) && TotalSize([r]) == SizeOf(r)
  {
    assert [r][..0] == [];
    assert [] + Updates(r) == Updates(r);
  }

  // ----- the protocol -----

  /** Where a thread is that has come past the waiting loop: in MakeRoomForWrite, which gives up the lock while it
      waits, or writing outside the lock with the batch built for its group, the sequence number of the first update
      less one, the last writer of the group (and, as history, the number of writers in it), and how far it has got. */
  datatype Work =
    | MakingRoom
    | Writing(last: Thread, size: nat, updates: seq<Update>, base: nat, logged: bool, inserted: nat)

  datatype LogRecord = LogRecord(sequence: nat, updates: seq<Update>)

  datatype Insertion = Insertion(sequence: nat, update: Update)

  datatype State = State(
    requests: map<Thread, Request>,  // every thread that has called Write, and with what
    queue: seq<Thread>,              // writers_
    done: set<Thread>,               // w.done, or the head after it has popped itself
    returned: set<Thread>,           // Write has returned
    awake: set<Thread>,              // not blocked in cv.Wait
    working: map<Thread, Work>,      // threads between the waiting loop and the pop
    log: seq<LogRecord>,
    memtable: seq<Insertion>,        // in the order of insertion, over all memtable switches
    lastSequence: nat,
    arrived: seq<Thread>,            // history: threads in the order in which they entered the queue
    finished: seq<Thread>)           // history: threads in the order in which they left it

  function Requests(rs: map<Thread, Request>, ts: seq<Thread>): (r: seq<Request>)
    requires forall t | t in ts :: t in rs
    ensures |r| == |ts| && forall i | 0 <= i < |ts| :: r[i] == rs[ts[i]]
  {
    if ts == [] then [] else Requests(rs, ts[..|ts| - 1]) + [rs[ts[|ts| - 1]]]
  }

  datatype Step =
    | Enter(t: Thread, r: Request)   // lock, push_back, look at the queue
    | Sleep(t: Thread)               // neither done nor at the head: cv.Wait
    | Wake(t: Thread)                // a spurious wake-up
    | Begin(t: Thread)               // at the head and not done: past the loop, into MakeRoomForWrite
    | Lead(t: Thread, n: nat)        // room made: BuildBatchGroup, SetSequence, unlock
    | LeadNull(t: Thread)            // room made for a null batch: nothing to write
    | Append(t: Thread)              // log_->AddRecord
    | Insert(t: Thread)              // one update of WriteBatchInternal::InsertInto
    | Finish(t: Thread)              // lock, SetLastSequence, pop the group and wake it and the new head
    | Return(t: Thread)

  /** Thread t pops writers up to and including queue[n - 1]: they are done and woken, and so is the new head. */
  ghost function Popped(s: State, t: Thread, n: nat, lastSequence: nat): State
    requires 0 < n <= |s.queue|
  {
    var group, rest := s.queue[..n], s.queue[n..];
    s.(queue := rest,
       done := s.done + (set t | t in group),
       awake := s.awake + (set t | t in group) + (if rest == [] then {} else {rest[0]}),
       working := s.working - {t},
       lastSequence := lastSequence,
       finished := s.finished + group)
  }

  ghost predicate PopGroup(s: State, s': State, t: Thread, n: nat, lastSequence: nat)
    requires 0 < n <= |s.queue|
  {
    s' == Popped(s, t, n, lastSequence)
  }

  /** The loop pops until it has popped `last`. */
  ghost predicate FirstAt(queue: seq<Thread>, last: Thread, n: nat) {
    0 < n <= |queue| && queue[n - 1] == last && forall i | 0 <= i < n - 1 :: queue[i] != last
  }

  /** The batch thread t is writing. */
  ghost predicate IsWriting(s: State, t: Thread) {
    t in s.working && s.working[t].Writing?
  }

  /** A thread knows only its own place in the program, the queue and the done flags: nothing here says that no other
      thread works. */
  ghost predicate Next(s: State, step: Step, s': State)
    requires forall t | t in s.queue :: t in s.requests
  {
    match step
    case Enter(t, r) =>
      && t !in s.requests
      && s' == s.(requests := s.requests[t := r], queue := s.queue + [t], awake := s.awake + {t},
                  arrived := s.arrived + [t])
    case Sleep(t) =>
      && t in s.queue && t in s.awake && t !in s.done && t !in s.working && t != s.queue[0]
      && s' == s.(awake := s.awake - {t})
    case Wake(t) =>
      t in s.queue && s' == s.(awake := s.awake + {t})
    case Begin(t) =>
      && s.queue != [] && t == s.queue[0] && t in s.awake && t !in s.done && t !in s.working
      && s' == s.(working := s.working[t := MakingRoom])
    case Lead(t, n) =>
      && t in s.working && s.working[t].MakingRoom? && t in s.requests && !s.requests[t].batch.Null?
      && var rs := Requests(s.requests, s.queue);
         && IsGroup(rs, n)
         && var w := Writing(s.queue[n - 1], n, AllUpdates(rs[..n]), s.lastSequence, false, 0);
            s' == s.(working := s.working[t := w])
    case LeadNull(t) =>
      && t in s.working && s.working[t].MakingRoom? && t in s.requests && s.requests[t].batch.Null?
      && exists n :: FirstAt(s.queue, t, n) && PopGroup(s, s', t, n, s.lastSequence)
    case Append(t) =>
      && IsWriting(s, t) && !s.working[t].logged
      && var w := s.working[t];
         s' == s.(working := s.working[t := w.(logged := true)], log := s.log + [LogRecord(w.base + 1, w.updates)])
    case Insert(t) =>
      && IsWriting(s, t) && s.working[t].logged && s.working[t].inserted < |s.working[t].updates|
      && var w := s.working[t];
         s' == s.(working := s.working[t := w.(inserted := w.inserted + 1)],
                  memtable := s.memtable + [Insertion(w.base + 1 + w.inserted, w.updates[w.inserted])])
    case Finish(t) =>
      && IsWriting(s, t) && s.working[t].logged && s.working[t].inserted == |s.working[t].updates|
      && exists n :: FirstAt(s.queue, s.working[t].last, n)
                     && PopGroup(s, s', t, n, s.working[t].base + |s.working[t].updates|)
    case Return(t) =>
      t in s.done && t in s.awake && t !in s.returned && s' == s.(returned := s.returned + {t})
  }

  // ----- the invariant -----

  ghost predicate Distinct(ts: seq<Thread>) {
    forall i, j | 0 <= i < j < |ts| :: ts[i] != ts[j]
  }

  /** Every thread that called Write is, once, among the finished ones or in the queue, in order of arrival. */
  ghost predicate QueueInv(s: State) {
    && s.arrived == s.finished + s.queue && Distinct(s.arrived)
    && (forall t :: t in s.requests <==> t in s.arrived)
    && (forall t :: t in s.done <==> t in s.finished)
    && s.returned <= s.done
  }

  /** The updates of the writers that have left the queue, in order. */
  ghost function Published(s: State): seq<Update>
    requires QueueInv(s)
  {
    AllUpdates(Requests(s.requests, s.finished))
  }

  /** What the head of the queue is doing. */
  function Leading(s: State): Option<Work> {
    if s.queue != [] && s.queue[0] in s.working then Some(s.working[s.queue[0]]) else None
  }

  predicate HeadWrites(s: State) {
    Leading(s).Some? && Leading(s).value.Writing?
  }

  /** What the leader has logged, and inserted, beyond the published updates. */
  ghost function InLog(s: State): seq<Update> {
    if HeadWrites(s) && Leading(s).value.logged then Leading(s).value.updates else []
  }

  ghost function InMemtable(s: State): seq<Update> {
    if HeadWrites(s) && Leading(s).value.inserted <= |Leading(s).value.updates|
    then Leading(s).value.updates[..Leading(s).value.inserted] else []
  }

  /** Mutual exclusion: whoever is past the waiting loop is the head of the queue. */
  ghost predicate OnlyHead(s: State) {
    forall t | t in s.working :: s.queue != [] && t == s.queue[0] && t in s.awake
  }

  ghost predicate LeaderInv(s: State)
    requires QueueInv(s)
  {
    && OnlyHead(s)
    && (HeadWrites(s) ==>
          var l := Leading(s).value;
          && l.base == s.lastSequence && l.inserted <= |l.updates| && (!l.logged ==> l.inserted == 0)
          && GroupOf(s, l))
  }

  /** The leader's batch is exactly the updates of the first writers of the queue, up to the last of its group. */
  ghost predicate GroupOf(s: State, l: Work)
    requires QueueInv(s) && l.Writing?
  {
    && 0 < l.size <= |s.queue| && s.queue[l.size - 1] == l.last
    && l.updates == AllUpdates(Requests(s.requests, s.queue[..l.size]))
  }

  function LogUpdates(log: seq<LogRecord>): seq<Update> {
    if log == [] then [] else LogUpdates(log[..|log| - 1]) + log[|log| - 1].updates
  }

  /** Log record i starts with the number after all updates logged before it. */
  ghost predicate LogNumbered(log: seq<LogRecord>) {
    forall i | 0 <= i < |log| :: log[i].sequence == |LogUpdates(log[..i])| + 1
  }

  /** The k-th update ever inserted has sequence number k + 1. */
  ghost predicate Numbered(memtable: seq<Insertion>, updates: seq<Update>) {
    |memtable| == |updates| && forall i | 0 <= i < |updates| :: memtable[i] == Insertion(i + 1, updates[i])
  }

  ghost predicate DataInv(s: State)
    requires QueueInv(s)
  {
    && s.lastSequence == |Published(s)|
    && LogUpdates(s.log) == Published(s) + InLog(s) && LogNumbered(s.log)
    && Numbered(s.memtable, Published(s) + InMemtable(s))
  }

  /** No lost wake-up: whoever can go on is awake. */
  ghost predicate WakeInv(s: State) {
    && (forall t | t in s.done && t !in s.returned :: t in s.awake)
    && (s.queue != [] ==> s.queue[0] in s.awake)
  }

  ghost predicate Inv(s: State) {
    QueueInv(s) && LeaderInv(s) && DataInv(s) && WakeInv(s)
  }

  ghost predicate Init(s: State) {
    s == State(map[], [], {}, {}, {}, map[], [], [], 0, [], [])
  }

  lemma InitInv(s: State)
    requires Init(s)
    ensures Inv(s)
  {
    assert Published(s) == [];
  }

  // ----- every step keeps the invariant -----

  lemma RequestsOf(a: map<Thread, Request>, b: map<Thread, Request>, ts: seq<Thread>)
    requires forall t | t in ts :: t in a && t in b && a[t] == b[t]
    ensures Requests(a, ts) == Requests(b, ts)
  {
  }

  lemma RequestsConcat(rs: map<Thread, Request>, a: seq<Thread>, b: seq<Thread>)
    requires forall t | t in a + b :: t in rs
    ensures (forall t | t in a :: t in rs) && forall t | t in b :: t in rs
    ensures Requests(rs, a + b) == Requests(rs, a) + Requests(rs, b)
  {
    forall t | t in a ensures t in rs { assert t in a + b; }
    forall t | t in b ensures t in rs { assert t in a + b; }
  }

  lemma RequestsPrefix(rs: map<Thread, Request>, ts: seq<Thread>, n: nat)
    requires (forall t | t in ts :: t in rs) && n <= |ts|
    ensures Requests(rs, ts)[..n] == Requests(rs, ts[..n])
  {
  }

  lemma QueueUntouched(s: State, s': State)
    requires QueueInv(s) && s'.requests == s.requests && s'.queue == s.queue && s'.done == s.done
    requires s'.returned <= s.done && s'.arrived == s.arrived && s'.finished == s.finished
    ensures QueueInv(s') && Published(s') == Published(s)
  {
  }

  lemma NumberedGrows(memtable: seq<Insertion>, published: seq<Update>, updates: seq<Update>, i: nat)
    requires i < |updates| && Numbered(memtable, published + updates[..i])
    ensures Numbered(memtable + [Insertion(|published| + 1 + i, updates[i])], published + updates[..i + 1])
  {
    assert published + updates[..i + 1] == published + updates[..i] + [updates[i]];
  }

  lemma EnterKeepsQueue(s: State, t: Thread, r: Request, s': State)
    requires QueueInv(s) && Next(s, Enter(t, r), s')
    ensures QueueInv(s') && Published(s') == Published(s)
  {
    assert s'.arrived == s'.finished + s'.queue;
    assert forall u :: u in s'.arrived <==> u in s.arrived || u == t;
    RequestsOf(s.requests, s'.requests, s.finished);
  }

  lemma EnterKeepsLeader(s: State, t: Thread, r: Request, s': State)
    requires QueueInv(s) && QueueInv(s') && LeaderInv(s) && Next(s, Enter(t, r), s')
    ensures LeaderInv(s') && Leading(s') == Leading(s)
  {
    NewcomerIdle(s, t);
    if HeadWrites(s) {
      var n := Leading(s).value.size;
      assert s'.queue[..n] == s.queue[..n];
      RequestsOf(s.requests, s'.requests, s.queue[..n]);
    }
  }

  lemma NewcomerIdle(s: State, t: Thread)
    requires QueueInv(s) && OnlyHead(s) && t !in s.requests
    ensures t !in s.working
  {
    assert s.queue != [] ==> s.queue[0] in s.arrived;
  }

  lemma EnterKeepsInv(s: State, t: Thread, r: Request, s': State)
    requires Inv(s) && Next(s, Enter(t, r), s')
    ensures Inv(s')
  {
    EnterKeepsQueue(s, t, r, s');
    EnterKeepsLeader(s, t, r, s');
    assert DataInv(s') && WakeInv(s');
  }

  lemma SchedulingKeepsLeader(s: State, step: Step, s': State)
    requires QueueInv(s) && QueueInv(s') && LeaderInv(s) && Next(s, step, s')
             && (step.Sleep? || step.Wake? || step.Return?)
    ensures LeaderInv(s')
  {
  }

  lemma SchedulingKeepsInv(s: State, step: Step, s': State)
    requires Inv(s) && Next(s, step, s') && (step.Sleep? || step.Wake? || step.Return?)
    ensures Inv(s')
  {
    QueueUntouched(s, s');
    SchedulingKeepsLeader(s, step, s');
    assert DataInv(s') && WakeInv(s');
  }

  lemma BeginKeepsInv(s: State, t: Thread, s': State)
    requires Inv(s) && Next(s, Begin(t), s')
    ensures Inv(s')
  {
    QueueUntouched(s, s');
    assert InMemtable(s') == InMemtable(s) && InLog(s') == InLog(s);
  }

  lemma LeadKeepsInv(s: State, t: Thread, n: nat, s': State)
    requires Inv(s) && Next(s, Lead(t, n), s')
    ensures Inv(s')
  {
    RequestsPrefix(s.requests, s.queue, n);
    QueueUntouched(s, s');
    assert t == s.queue[0];
    assert InMemtable(s') == [];
  }

  lemma AppendKeepsInv(s: State, t: Thread, s': State)
    requires Inv(s) && Next(s, Append(t), s')
    ensures Inv(s')
  {
    QueueUntouched(s, s');
    AppendKeepsLeader(s, t, s');
    AppendKeepsData(s, s', s.working[t]);
  }

  lemma AppendKeepsLeader(s: State, t: Thread, s': State)
    requires QueueInv(s) && QueueInv(s') && LeaderInv(s) && Next(s, Append(t), s')
    ensures LeaderInv(s') && t == s.queue[0]
  {
  }

  lemma AppendKeepsData(s: State, s': State, l: Work)
    requires QueueInv(s) && QueueInv(s') && Published(s') == Published(s) && DataInv(s)
    requires l.Writing? && Leading(s) == Some(l) && !l.logged && l.base == s.lastSequence && l.inserted == 0
    requires Leading(s') == Some(l.(logged := true)) && s'.lastSequence == s.lastSequence
    requires s'.log == s.log + [LogRecord(l.base + 1, l.updates)] && s'.memtable == s.memtable
    ensures DataInv(s')
  {
    assert Published(s) + [] == Published(s);
    LogGrows(s.log, LogRecord(l.base + 1, l.updates));
  }

  lemma LogGrows(log: seq<LogRecord>, r: LogRecord)
    requires LogNumbered(log) && r.sequence == |LogUpdates(log)| + 1
    ensures LogNumbered(log + [r]) && LogUpdates(log + [r]) == LogUpdates(log) + r.updates
  {
    var log' := log + [r];
    assert log'[..|log|] == log;
    forall i | 0 <= i < |log'| ensures log'[i].sequence == |LogUpdates(log'[..i])| + 1 {
      assert i < |log| ==> log'[..i] == log[..i];
    }
  }

  lemma InsertKeepsData(s: State, s': State, l: Work)
    requires QueueInv(s) && QueueInv(s') && Published(s') == Published(s) && DataInv(s)
    requires l.Writing? && Leading(s) == Some(l) && l.logged && l.inserted < |l.updates| && l.base == s.lastSequence
    requires Leading(s') == Some(l.(inserted := l.inserted + 1)) && s'.log == s.log && s'.lastSequence == s.lastSequence
    requires s'.memtable == s.memtable + [Insertion(l.base + 1 + l.inserted, l.updates[l.inserted])]
    ensures DataInv(s')
  {
    NumberedGrows(s.memtable, Published(s), l.updates, l.inserted);
  }

  lemma InsertKeepsInv(s: State, t: Thread, s': State)
    requires Inv(s) && Next(s, Insert(t), s')
    ensures Inv(s')
  {
    QueueUntouched(s, s');
    InsertKeepsLeader(s, t, s');
    InsertKeepsData(s, s', s.working[t]);
  }

  lemma InsertKeepsLeader(s: State, t: Thread, s': State)
    requires QueueInv(s) && QueueInv(s') && LeaderInv(s) && Next(s, Insert(t), s')
    ensures LeaderInv(s') && t == s.queue[0]
  {
  }

  /** Publishing the first n writers of the queue adds their updates, in order, to the published ones. */
  lemma PublishGroup(s: State, s': State, t: Thread, n: nat, last: nat)
    requires QueueInv(s) && 0 < n <= |s.queue| && PopGroup(s, s', t, n, last)
    ensures QueueInv(s')
    ensures Published(s') == Published(s) + AllUpdates(Requests(s.requests, s.queue[..n]))
  {
    var group := s.queue[..n];
    assert s.queue == group + s'.queue;
    assert s'.arrived == s'.finished + s'.queue;
    RequestsConcat(s.requests, s.finished, group);
    AllUpdatesConcat(Requests(s.requests, s.finished), Requests(s.requests, group));
  }

  lemma LeadNullPublishes(s: State, t: Thread, s': State)
    requires QueueInv(s) && OnlyHead(s) && Next(s, LeadNull(t), s')
    ensures QueueInv(s') && Published(s') == Published(s)
    ensures PopGroup(s, s', t, 1, s.lastSequence)
  {
    var n :| FirstAt(s.queue, t, n) && PopGroup(s, s', t, n, s.lastSequence);
    FirstIsUnique(s, 1, n);
    PublishGroup(s, s', t, 1, s.lastSequence);
    assert Requests(s.requests, s.queue[..1]) == [s.requests[t]];
    OneRequest(s.requests[t]);
  }

  lemma LeadNullKeepsInv(s: State, t: Thread, s': State)
    requires Inv(s) && Next(s, LeadNull(t), s')
    ensures Inv(s')
  {
    LeadNullPublishes(s, t, s');
    assert s'.working == map[];
    assert InLog(s) == InLog(s') == [] && InMemtable(s) == InMemtable(s') == [];
  }

  lemma LastIsFirst(s: State, n: nat)
    requires QueueInv(s) && 0 < n <= |s.queue|
    ensures FirstAt(s.queue, s.queue[n - 1], n)
  {
    var d := |s.finished|;
    forall i | 0 <= i < n - 1 ensures s.queue[i] != s.queue[n - 1] {
      assert s.arrived[d + i] == s.queue[i] && s.arrived[d + n - 1] == s.queue[n - 1];
    }
  }

  lemma FirstIsUnique(s: State, m: nat, n: nat)
    requires QueueInv(s) && 0 < m <= |s.queue| && FirstAt(s.queue, s.queue[m - 1], n)
    ensures m == n
  {
    var d := |s.finished|;
    assert s.arrived[d + m - 1] == s.queue[m - 1] && s.arrived[d + n - 1] == s.queue[n - 1];
  }

  lemma FinishStep(s: State, t: Thread, s': State) returns (n: nat)
    requires (forall t | t in s.queue :: t in s.requests) && Next(s, Finish(t), s')
    ensures IsWriting(s, t) && s.working[t].logged && s.working[t].inserted == |s.working[t].updates|
    ensures FirstAt(s.queue, s.working[t].last, n)
            && PopGroup(s, s', t, n, s.working[t].base + |s.working[t].updates|)
  {
    n :| FirstAt(s.queue, s.working[t].last, n)
         && PopGroup(s, s', t, n, s.working[t].base + |s.working[t].updates|);
  }

  /** The pop stops at the last writer of the group that was built. */
  lemma FinishPops(s: State, t: Thread, n: nat)
    requires QueueInv(s) && LeaderInv(s) && IsWriting(s, t) && FirstAt(s.queue, s.working[t].last, n)
    ensures var l := s.working[t];
            t == s.queue[0] && Leading(s) == Some(l) && GroupOf(s, l) && l.base == s.lastSequence && l.size == n
  {
    var l := s.working[t];
    assert Leading(s) == Some(l);
    FirstIsUnique(s, l.size, n);
  }

  lemma FinishPublishes(s: State, t: Thread, s': State, l: Work)
    requires QueueInv(s) && OnlyHead(s) && l.Writing? && GroupOf(s, l) && Leading(s) == Some(l) && t == s.queue[0]
    requires l.base == s.lastSequence && PopGroup(s, s', t, l.size, l.base + |l.updates|)
    ensures QueueInv(s') && Published(s') == Published(s) + l.updates
    ensures s'.lastSequence == s.lastSequence + |l.updates|
    ensures s'.working == map[] && s'.log == s.log && s'.memtable == s.memtable
  {
    PublishGroup(s, s', t, l.size, l.base + |l.updates|);
    assert s'.working == map[];
  }

  lemma FinishKeepsData(s: State, s': State, l: Work)
    requires QueueInv(s) && QueueInv(s') && DataInv(s) && l.Writing? && Leading(s) == Some(l) && l.logged
    requires l.inserted == |l.updates| && Leading(s').None?
    requires Published(s') == Published(s) + l.updates && s'.log == s.log && s'.memtable == s.memtable
    requires s'.lastSequence == s.lastSequence + |l.updates|
    ensures DataInv(s')
  {
    assert l.updates[..|l.updates|] == l.updates;
    assert Published(s') + [] == Published(s');
  }

  lemma PopKeepsWake(s: State, t: Thread, s': State, n: nat, last: nat)
    requires WakeInv(s) && 0 < n <= |s.queue| && PopGroup(s, s', t, n, last)
    ensures WakeInv(s')
  {
  }

  lemma IdleLeader(s: State)
    requires QueueInv(s) && s.working == map[]
    ensures LeaderInv(s) && Leading(s).None?
  {
  }

  lemma FinishKeepsInv(s: State, t: Thread, s': State)
    requires Inv(s) && Next(s, Finish(t), s')
    ensures Inv(s')
  {
    var n := FinishStep(s, t, s');
    PoppedInv(s, t, s', n, s.working[t]);
  }

  lemma PoppedInv(s: State, t: Thread, s': State, n: nat, l: Work)
    requires Inv(s) && IsWriting(s, t) && l == s.working[t] && l.logged && l.inserted == |l.updates|
    requires FirstAt(s.queue, l.last, n) && PopGroup(s, s', t, n, l.base + |l.updates|)
    ensures Inv(s')
  {
    FinishPops(s, t, n);
    FinishPublishes(s, t, s', l);
    IdleLeader(s');
    FinishKeepsData(s, s', l);
    PopKeepsWake(s, t, s', n, l.base + |l.updates|);
  }

  lemma StepKeepsInv(s: State, step: Step, s': State)
    requires Inv(s) && Next(s, step, s')
    ensures Inv(s')
  {
    match step
    case Enter(t, r) => EnterKeepsInv(s, t, r, s');
    case Lead(t, n) => LeadKeepsInv(s, t, n, s');
    case LeadNull(t) => LeadNullKeepsInv(s, t, s');
    case Begin(t) => BeginKeepsInv(s, t, s');
    case Append(t) => AppendKeepsInv(s, t, s');
    case Insert(t) => InsertKeepsInv(s, t, s');
    case Finish(t) => FinishKeepsInv(s, t, s');
    case _ => SchedulingKeepsInv(s, step, s');
  }

  // ----- runs -----

  /** A run from the empty queue: any number of threads, any interleaving. */
  ghost predicate IsRun(states: seq<State>, steps: seq<Step>) {
    && |states| == |steps| + 1 && Init(states[0])
    && forall i | 0 <= i < |steps| :: StepsTo(states[i], steps[i], states[i + 1])
  }

  ghost predicate StepsTo(s: State, step: Step, s': State) {
    (forall t | t in s.queue :: t in s.requests) && Next(s, step, s')
  }

  lemma {:induction false} RunKeepsInv(states: seq<State>, steps: seq<Step>, i: nat)
    requires IsRun(states, steps) && i < |states|
    ensures Inv(states[i])
  {
    if i == 0 {
      InitInv(states[0]);
    } else {
      RunKeepsInv(states, steps, i - 1);
      assert StepsTo(states[i - 1], steps[i - 1], states[i]);
      StepKeepsInv(states[i - 1], steps[i - 1], states[i]);
    }
  }

  /** What a reader at sequence number `snapshot` sees of the memtable, in order of insertion. */
  function Seen(memtable: seq<Insertion>, snapshot: nat): seq<Update> {
    if memtable == [] then []
    else Seen(memtable[..|memtable| - 1], snapshot)
         + if memtable[|memtable| - 1].sequence <= snapshot then [memtable[|memtable| - 1].update] else []
  }

  lemma {:induction false} SeenIsPrefix(memtable: seq<Insertion>, updates: seq<Update>, snapshot: nat)
    requires Numbered(memtable, updates)
    ensures Seen(memtable, snapshot) == if snapshot <= |updates| then updates[..snapshot] else updates
    decreases |memtable|
  {
    if memtable != [] {
      var k := |memtable| - 1;
      SeenIsPrefix(memtable[..k], updates[..k], snapshot);
      if snapshot <= k { assert updates[..k][..snapshot] == updates[..snapshot]; }
      else { assert updates == updates[..k] + [updates[k]]; }
    }
  }

  /** Callers and the order in which they come and go are never taken back. */
  ghost predicate Extends(s: State, s': State) {
    && s.finished <= s'.finished && s.arrived <= s'.arrived && s.log <= s'.log
    && forall t | t in s.requests :: t in s'.requests && s'.requests[t] == s.requests[t]
  }

  lemma StepExtends(s: State, step: Step, s': State)
    requires StepsTo(s, step, s')
    ensures Extends(s, s')
  {
  }

  lemma RunExtends(states: seq<State>, steps: seq<Step>, i: nat, j: nat)
    requires IsRun(states, steps) && i <= j < |states|
    ensures Extends(states[i], states[j])
  {
    forall k | 0 <= k < |steps| ensures Extends(states[k], states[k + 1]) {
      StepExtends(states[k], steps[k], states[k + 1]);
    }
    ExtendsAlong((a: State, b: State) => Extends(a, b), states, i, j);
  }

  /** A relation that holds over every step and is reflexive and transitive holds over the run. */
  lemma {:induction false} ExtendsAlong(r: (State, State) -> bool, states: seq<State>, i: nat, j: nat)
    requires i <= j < |states| && forall k | 0 <= k < |states| - 1 :: r(states[k], states[k + 1])
    requires (forall a :: r(a, a)) && forall a, b, c | r(a, b) && r(b, c) :: r(a, c)
    ensures r(states[i], states[j])
    decreases j
  {
    if i < j {
      ExtendsAlong(r, states, i, j - 1);
    }
  }

  lemma PublishedGrows(s: State, s': State)
    requires QueueInv(s) && QueueInv(s') && Extends(s, s')
    ensures Published(s) <= Published(s')
  {
    var n := |s.finished|;
    var more := s'.finished[n..];
    assert s'.finished == s.finished + more;
    RequestsConcat(s'.requests, s.finished, more);
    RequestsOf(s.requests, s'.requests, s.finished);
    AllUpdatesConcat(Requests(s'.requests, s.finished), Requests(s'.requests, more));
  }

  /** A reader that took LastSequence at any point of a run and looks at the memtable at any later point sees exactly
      the updates of the writers that had left the queue by then, in the order in which the writers arrived: all of a
      group or none of it, whatever the leader has inserted in between. */
  lemma ReaderSeesWholeGroups(states: seq<State>, steps: seq<Step>, i: nat, j: nat)
    requires IsRun(states, steps) && i <= j < |states|
    ensures Inv(states[i]) && states[i].finished <= states[i].arrived
    ensures Seen(states[j].memtable, states[i].lastSequence)
            == AllUpdates(Requests(states[i].requests, states[i].finished))
  {
    RunKeepsInv(states, steps, i);
    RunKeepsInv(states, steps, j);
    RunExtends(states, steps, i, j);
    PublishedGrows(states[i], states[j]);
    var t := states[j];
    SeenIsPrefix(t.memtable, Published(t) + InMemtable(t), states[i].lastSequence);
  }

  /** When all writers have returned, the log and the memtable hold each batch once, in order of arrival, and the
      k-th update carries sequence number k. */
  lemma EveryBatchOnce(states: seq<State>, steps: seq<Step>)
    requires IsRun(states, steps) && states[|steps|].queue == []
    ensures var s := states[|steps|];
            && (forall t | t in s.arrived :: t in s.requests) && Distinct(s.arrived)
            && var all := AllUpdates(Requests(s.requests, s.arrived));
               LogUpdates(s.log) == all && LogNumbered(s.log) && Numbered(s.memtable, all) && s.lastSequence == |all|
  {
    RunKeepsInv(states, steps, |steps|);
    var s := states[|steps|];
    assert s.finished + s.queue == s.finished;
    assert InLog(s) == [] && InMemtable(s) == [];
    assert Published(s) + [] == Published(s);
  }

  /** In every state of every run at most one thread is past the waiting loop, it is the head of the queue, and it has
      not been popped. */
  lemma OnlyTheHeadWorks(states: seq<State>, steps: seq<Step>, i: nat)
    requires IsRun(states, steps) && i < |states|
    ensures |states[i].working| <= 1
    ensures forall t | t in states[i].working ::
              states[i].queue != [] && t == states[i].queue[0] && t !in states[i].done
  {
    RunKeepsInv(states, steps, i);
    var s := states[i];
    if s.working != map[] {
      HeadNotDone(s);
      assert s.working.Keys == {s.queue[0]};
      assert |s.working| == |s.working.Keys|;
    }
  }

  // ----- progress -----

  /** Steps that a thread takes once it is running; Wake is the scheduler's and Enter a new caller's. */
  predicate IsWork(step: Step) {
    step.Begin? || step.Lead? || step.LeadNull? || step.Append? || step.Insert? || step.Finish? || step.Return?
  }

  function Phase(s: State): nat {
    match Leading(s)
    case None => 3
    case Some(w) => if w.MakingRoom? then 2 else if w.logged then 0 else 1
  }

  function Remaining(s: State): nat {
    if HeadWrites(s) && Leading(s).value.inserted <= |Leading(s).value.updates|
    then |Leading(s).value.updates| - Leading(s).value.inserted else 0
  }

  /** Work cannot go on for ever without new callers. */
  ghost predicate Less(s': State, s: State) {
    if |s'.queue| != |s.queue| then |s'.queue| < |s.queue|
    else if Phase(s') != Phase(s) then Phase(s') < Phase(s)
    else if Remaining(s') != Remaining(s) then Remaining(s') < Remaining(s)
    else |s'.done - s'.returned| < |s.done - s.returned|
  }

  lemma WorkDecreases(s: State, step: Step, s': State)
    requires Inv(s) && Next(s, step, s') && IsWork(step)
    ensures Less(s', s)
  {
    if step.Return? {
      ReturnDecreases(s, step.t, s');
    } else if step.LeadNull? || step.Finish? {
      PopDecreases(s, step, s');
    } else {
      LeaderDecreases(s, step, s');
    }
  }

  lemma ReturnDecreases(s: State, t: Thread, s': State)
    requires (forall t | t in s.queue :: t in s.requests) && Next(s, Return(t), s')
    ensures Less(s', s)
  {
    assert s'.done - s'.returned == s.done - s.returned - {t};
    assert Leading(s') == Leading(s);
  }

  lemma PopDecreases(s: State, step: Step, s': State)
    requires (forall t | t in s.queue :: t in s.requests) && Next(s, step, s') && (step.LeadNull? || step.Finish?)
    ensures Less(s', s)
  {
    assert |s'.queue| < |s.queue|;
  }

  /** The steps of the head between the waiting loop and the pop. */
  lemma LeaderDecreases(s: State, step: Step, s': State)
    requires (forall t | t in s.queue :: t in s.requests) && OnlyHead(s) && Next(s, step, s')
    requires step.Begin? || step.Lead? || step.Append? || step.Insert?
    ensures Less(s', s)
  {
    assert Leading(s') == Some(s'.working[step.t]);
  }

  lemma {:induction false} GroupExists(rs: seq<Request>, n: nat) returns (k: nat)
    requires 0 < n <= |rs| && forall i | 0 < i < n :: Joins(rs, i)
    ensures IsGroup(rs, k)
    decreases |rs| - n
  {
    if n < |rs| && Joins(rs, n) {
      k := GroupExists(rs, n + 1);
    } else {
      k := n;
    }
  }

  /** No lost wake-up: as long as some caller of Write has not returned, some thread can take a working step. */
  lemma NoDeadlock(s: State) returns (step: Step, s': State)
    requires Inv(s) && exists t :: t in s.requests && t !in s.returned
    ensures Next(s, step, s') && IsWork(step)
  {
    var t :| t in s.requests && t !in s.returned;
    if t in s.done {
      step, s' := Return(t), s.(returned := s.returned + {t});
    } else {
      assert t in s.queue;
      HeadNotDone(s);
      if Leading(s).None? {
        step, s' := Begin(s.queue[0]), s.(working := s.working[s.queue[0] := MakingRoom]);
      } else if Leading(s).value.MakingRoom? {
        step, s' := HeadCanLead(s);
      } else {
        step, s' := LeaderCanGoOn(s);
      }
    }
  }

  lemma HeadNotDone(s: State)
    requires QueueInv(s) && s.queue != []
    ensures s.queue[0] !in s.done
  {
    var d := |s.finished|;
    assert s.arrived[d] == s.queue[0];
    forall k | 0 <= k < d ensures s.finished[k] != s.queue[0] {
      assert s.arrived[k] == s.finished[k];
    }
  }

  lemma HeadCanLead(s: State) returns (step: Step, s': State)
    requires QueueInv(s) && Leading(s) == Some(MakingRoom)
    ensures Next(s, step, s') && IsWork(step)
  {
    var t := s.queue[0];
    assert t in s.arrived;
    if s.requests[t].batch.Null? {
      step := LeadNull(t);
      LastIsFirst(s, 1);
      s' := Popped(s, t, 1, s.lastSequence);
    } else {
      var rs := Requests(s.requests, s.queue);
      var n := GroupExists(rs, 1);
      step := Lead(t, n);
      s' := s.(working := s.working[t := Writing(s.queue[n - 1], n, AllUpdates(rs[..n]), s.lastSequence, false, 0)]);
    }
  }

  lemma LeaderCanGoOn(s: State) returns (step: Step, s': State)
    requires QueueInv(s) && LeaderInv(s) && HeadWrites(s)
    ensures Next(s, step, s') && IsWork(step)
  {
    var t := s.queue[0];
    var l := s.working[t];
    if !l.logged {
      step := Append(t);
      s' := s.(working := s.working[t := l.(logged := true)], log := s.log + [LogRecord(l.base + 1, l.updates)]);
    } else if l.inserted < |l.updates| {
      step := Insert(t);
      s' := s.(working := s.working[t := l.(inserted := l.inserted + 1)],
               memtable := s.memtable + [Insertion(l.base + 1 + l.inserted, l.updates[l.inserted])]);
    } else {
      step := Finish(t);
      LastIsFirst(s, l.size);
      s' := Popped(s, t, l.size, l.base + |l.updates|);
    }
  }
}
