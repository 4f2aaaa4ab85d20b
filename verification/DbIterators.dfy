/** DBIter (db/db_iter.cc): the user's iterator over the entries of all memtables and tables.

    The contracts speak only of `Reading`: wherever the iterator lands, it shows a key that reads as a value
    at its sequence number, and no such key lies between where it was (or was asked to go) and where it is.
 */
module DbIterators {
  import opened Options
  import opened InternalKeys
  import opened Versions
  import opened MergingIterators

  /** es[i] is the newest visible entry of its user key, and it is a value. */
  ghost predicate Shown(es: seq<Entry>, s: nat, i: int) {
    && 0 <= i < |es| && es[i].seqno <= s && es[i].kind.Put?
    && forall j | 0 <= j < i && es[j].key == es[i].key :: es[j].seqno > s
  }

  lemma ShownReads(es: seq<Entry>, s: nat, i: int)
    requires Sorted(es) && UniqueSeqs(Elems(es)) && Shown(es, s, i)
    ensures Reading(Elems(es), es[i].key, s) == Some(es[i].value)
  {
    forall x | x in Elems(es) && Visible(x, es[i].key, s)
      ensures x.seqno <= es[i].seqno
    {
      var j :| 0 <= j < |es| && es[j] == x;
      if i < j {
        assert Before(es[i], es[j]);
      }
    }
    ReadingOfNewest(Elems(es), es[i].key, s, es[i]);
  }

  lemma ReadsShown(es: seq<Entry>, s: nat, k: Key) returns (i: int)
    requires Sorted(es) && UniqueSeqs(Elems(es)) && Reading(Elems(es), k, s).Some?
    ensures Shown(es, s, i) && es[i].key == k
  {
    var e := Newest(Elems(es), k, s).value;
    assert IsNewest(Elems(es), k, s, e);
    i :| 0 <= i < |es| && es[i] == e;
    forall j | 0 <= j < i && es[j].key == k
      ensures es[j].seqno > s
    {
      assert Before(es[j], es[i]) && es[j] in Elems(es);
      if es[j].seqno == es[i].seqno { assert false; }
    }
  }

  lemma KeyOrder(es: seq<Entry>, i: int, j: int)
    requires Sorted(es) && 0 <= i <= j < |es|
    ensures es[i].key <= es[j].key
  {
    if i < j { assert Before(es[i], es[j]); }
  }

  lemma KeysFrom(es: seq<Entry>, p: int)
    requires Sorted(es) && 0 <= p < |es|
    ensures forall j | p <= j < |es| :: es[j].key >= es[p].key
  {
    forall j | p <= j < |es| ensures es[j].key >= es[p].key { KeyOrder(es, p, j); }
  }

  /** No key in the open interval (lo, hi) reads as a value. */
  ghost predicate NothingBetween(E: set<Entry>, s: nat, lo: Option<Key>, hi: Option<Key>) {
    forall k | (lo.Some? ==> lo.value < k) && (hi.Some? ==> k < hi.value) :: Reading(E, k, s) == None
  }

  /** Lifting "no shown index" to "no key that reads as a value". */
  lemma NothingShownBetween(es: seq<Entry>, s: nat, lo: Option<Key>, hi: Option<Key>)
    requires Sorted(es) && UniqueSeqs(Elems(es))
    requires forall i | Shown(es, s, i) :: (lo.Some? && es[i].key <= lo.value) || (hi.Some? && hi.value <= es[i].key)
    ensures NothingBetween(Elems(es), s, lo, hi)
  {
    forall k | (lo.Some? ==> lo.value < k) && (hi.Some? ==> k < hi.value)
      ensures Reading(Elems(es), k, s) == None
    {
      if Reading(Elems(es), k, s).Some? {
        var i := ReadsShown(es, s, k);
        assert false;
      }
    }
  }

  /** What FindNextUserEntry looks for from index q0: a shown entry, past `skip` if skipping. */
  ghost predicate Wanted(es: seq<Entry>, s: nat, q0: int, skip: Option<Key>, i: int) {
    q0 <= i && Shown(es, s, i) && (skip.Some? ==> es[i].key > skip.value)
  }

  /** What lets a forward scan start at q0: no entry before q0 can hide, or be, a wanted one. */
  ghost predicate ScanStart(es: seq<Entry>, s: nat, q0: nat, skip0: Option<Key>) {
    && (skip0.Some? ==> forall i | q0 <= i < |es| && es[i].seqno <= s :: skip0.value <= es[i].key)
    && (forall i, j | 0 <= j < q0 <= i < |es| && es[i].key == es[j].key && (skip0.Some? ==> skip0.value < es[i].key) ::
          es[j].seqno > s)
  }

  /** The forward scan has reached q: nothing wanted lies behind, and what lies ahead is past `skip`. */
  ghost predicate Scanning(es: seq<Entry>, s: nat, q0: nat, skip0: Option<Key>, q: nat, skip: Option<Key>) {
    && q0 <= q <= |es|
    && (skip0.Some? ==> skip.Some? && skip0.value <= skip.value)
    && (forall i | Wanted(es, s, q0, skip0, i) :: q <= i && (skip.Some? ==> es[i].key > skip.value))
    && (forall j | q0 <= j < q && es[j].seqno <= s :: skip.Some? && es[j].key <= skip.value)
  }

  lemma ScanPastDeletion(es: seq<Entry>, s: nat, q0: nat, skip0: Option<Key>, q: nat, skip: Option<Key>)
    requires Sorted(es) && ScanStart(es, s, q0, skip0) && Scanning(es, s, q0, skip0, q, skip)
    requires q < |es| && es[q].seqno <= s && es[q].kind.Deletion?
    ensures Scanning(es, s, q0, skip0, q + 1, Some(es[q].key))
  {
    forall i | Wanted(es, s, q0, skip0, i)
      ensures q + 1 <= i && es[i].key > es[q].key
    {
      KeyOrder(es, q, i);
    }
    forall j | q0 <= j < q ensures es[j].key <= es[q].key {
      KeyOrder(es, j, q);
    }
  }

  lemma ScanPastHidden(es: seq<Entry>, s: nat, q0: nat, skip0: Option<Key>, q: nat, skip: Option<Key>)
    requires Scanning(es, s, q0, skip0, q, skip) && q < |es|
    requires es[q].seqno > s || (skip.Some? && es[q].key <= skip.value)
    ensures Scanning(es, s, q0, skip0, q + 1, skip)
  {
  }

  lemma ScanHit(es: seq<Entry>, s: nat, q0: nat, skip0: Option<Key>, q: nat, skip: Option<Key>)
    requires ScanStart(es, s, q0, skip0) && Scanning(es, s, q0, skip0, q, skip)
    requires q < |es| && es[q].seqno <= s && es[q].kind.Put? && (skip.Some? ==> es[q].key > skip.value)
    ensures Wanted(es, s, q0, skip0, q)
  {
  }

  lemma StartAtShown(es: seq<Entry>, s: nat, c: nat)
    requires Sorted(es) && c < |es|
    ensures ScanStart(es, s, c, Some(es[c].key))
  {
    forall i | 0 <= i < |es| ensures if i <= c then es[i].key <= es[c].key else es[c].key <= es[i].key {
      if i <= c { KeyOrder(es, i, c); } else { KeyOrder(es, c, i); }
    }
  }

  /** Turning forward in front of the saved entry es[c]; p is the last entry of a smaller key, -1 for none. */
  lemma StartAtSaved(es: seq<Entry>, s: nat, p: int, c: int)
    requires Sorted(es) && -1 <= p < c < |es|
    requires 0 <= p ==> es[p].key < es[c].key
    requires forall j | 0 <= j < c && p < j :: es[j].seqno > s
    ensures ScanStart(es, s, p + 1, Some(es[c].key))
    ensures forall i | 0 <= i < p + 1 :: es[i].key <= es[c].key
  {
    forall i | 0 <= i < |es| ensures (i <= p ==> es[i].key < es[c].key) && (c <= i ==> es[c].key <= es[i].key) {
      if i <= p { KeyOrder(es, i, p); } else if c <= i { KeyOrder(es, c, i); }
    }
  }

  lemma StartAtTarget(es: seq<Entry>, s: nat, t: Key)
    requires Sorted(es)
    ensures ScanStart(es, s, LowerBound(es, LookupKey(t, s)), None)
    ensures forall i | Shown(es, s, i) && t <= es[i].key :: LowerBound(es, LookupKey(t, s)) <= i
  {
    var q := LowerBound(es, LookupKey(t, s));
    forall i, j | 0 <= j < q <= i < |es| && es[i].key == es[j].key
      ensures es[j].seqno > s
    {
      assert Before(es[j], LookupKey(t, s)) && !Before(es[q], LookupKey(t, s));
      KeyOrder(es, q, i);
    }
  }

  /** A forward scan for keys past `lo` that stopped at c, or found nothing. */
  lemma LandedForward(es: seq<Entry>, s: nat, q0: nat, lo: Key, c: Option<nat>)
    requires Sorted(es) && UniqueSeqs(Elems(es))
    requires q0 <= |es| && forall i | 0 <= i < q0 :: es[i].key <= lo
    requires c.Some? ==> Wanted(es, s, q0, Some(lo), c.value)
    requires forall i | Wanted(es, s, q0, Some(lo), i) :: c.Some? && c.value <= i
    ensures NothingBetween(Elems(es), s, Some(lo), if c.Some? then Some(es[c.value].key) else None)
  {
    var hi := if c.Some? then Some(es[c.value].key) else None;
    forall i | Shown(es, s, i) ensures es[i].key <= lo || (hi.Some? && hi.value <= es[i].key) {
      if es[i].key > lo {
        assert Wanted(es, s, q0, Some(lo), i);
        KeyOrder(es, c.value, i);
      }
    }
    NothingShownBetween(es, s, Some(lo), hi);
  }

  /** A forward scan with nothing to skip: no key from `lo` on (if any) up to the landing place. */
  lemma LandedSeek(es: seq<Entry>, s: nat, q0: nat, lo: Option<Key>, c: Option<nat>, k: Key)
    requires Sorted(es) && UniqueSeqs(Elems(es))
    requires forall i | Shown(es, s, i) && (lo.Some? ==> lo.value <= es[i].key) :: q0 <= i
    requires forall i | Wanted(es, s, q0, None, i) :: c.Some? && c.value <= i
    requires c.Some? ==> Shown(es, s, c.value) && k < es[c.value].key
    requires lo.Some? ==> lo.value <= k
    ensures Reading(Elems(es), k, s) == None
  {
    if Reading(Elems(es), k, s).Some? {
      var i := ReadsShown(es, s, k);
      assert Wanted(es, s, q0, None, i);
      KeyOrder(es, c.value, i);
      assert false;
    }
  }

  /** es[x] is the lowest visible entry seen by a backward scan that has come down to p. */
  ghost predicate LowestSeen(es: seq<Entry>, s: nat, p: int, x: int, k: Key, v: string) {
    && p < x < |es| && 0 <= x && es[x].seqno <= s && es[x].kind.Put? && es[x].key == k && es[x].value == v
    && (forall j | 0 <= j < x && p < j :: es[j].seqno > s)
  }

  ghost predicate NoneShown(es: seq<Entry>, s: nat, lo: int, hi: int) {
    forall j | lo < j <= hi :: !Shown(es, s, j)
  }

  /** The backward scan from p0 has come down to p with the kind, key and value it saved last. */
  ghost predicate BackScan(es: seq<Entry>, s: nat, p0: int, p: int, kind: Kind, k: Key, v: string) {
    && -1 <= p <= p0 < |es|
    && match kind
       case Deletion => NoneShown(es, s, p, p0)
       case Put => exists x :: x <= p0 && LowestSeen(es, s, p, x, k, v) && NoneShown(es, s, x, p0)
  }

  lemma BackPastInvisible(es: seq<Entry>, s: nat, p0: int, p: int, kind: Kind, k: Key, v: string)
    requires BackScan(es, s, p0, p, kind, k, v) && 0 <= p && es[p].seqno > s
    ensures BackScan(es, s, p0, p - 1, kind, k, v)
  {
    if kind.Put? {
      var x :| x <= p0 && LowestSeen(es, s, p, x, k, v) && NoneShown(es, s, x, p0);
      assert LowestSeen(es, s, p - 1, x, k, v);
    }
  }

  lemma BackPastVisible(es: seq<Entry>, s: nat, p0: int, p: int, kind: Kind, k: Key, v: string)
    requires Sorted(es) && BackScan(es, s, p0, p, kind, k, v) && 0 <= p && es[p].seqno <= s
    requires kind.Put? ==> !(es[p].key < k)
    ensures NoneShown(es, s, p, p0)
    ensures BackScan(es, s, p0, p - 1, es[p].kind, es[p].key, es[p].value)
  {
    if kind.Put? {
      var x :| x <= p0 && LowestSeen(es, s, p, x, k, v) && NoneShown(es, s, x, p0);
      KeyOrder(es, p, x);
      assert !Shown(es, s, x);
      assert NoneShown(es, s, p, p0);
    }
    if es[p].kind.Put? {
      assert LowestSeen(es, s, p - 1, p, es[p].key, es[p].value);
    }
  }

  /** Coming down to a smaller key, or to the beginning, settles the saved entry. */
  lemma BackStop(es: seq<Entry>, s: nat, p0: int, p: int, k: Key, v: string) returns (c: int)
    requires Sorted(es) && BackScan(es, s, p0, p, Put, k, v)
    requires 0 <= p ==> es[p].key < k
    ensures c <= p0 && LowestSeen(es, s, p, c, k, v) && Shown(es, s, c) && NoneShown(es, s, c, p0)
  {
    c :| c <= p0 && LowestSeen(es, s, p, c, k, v) && NoneShown(es, s, c, p0);
    forall j | 0 <= j < c && es[j].key == es[c].key ensures es[j].seqno > s {
      if j <= p { KeyOrder(es, j, p); }
    }
  }

  /** Entries after p have keys at or past `hi`, or are invisible; entries up to p have smaller keys. */
  ghost predicate SplitBelow(es: seq<Entry>, s: nat, p: int, hi: Key) {
    && -1 <= p < |es|
    && (0 <= p ==> es[p].key < hi)
    && (forall j | p < j < |es| :: es[j].key >= hi || es[j].seqno > s)
  }

  /** A backward scan for keys below `hi` that stopped at c, or found nothing. */
  lemma LandedBackward(es: seq<Entry>, s: nat, p0: int, hi: Option<Key>, c: Option<nat>)
    requires Sorted(es) && UniqueSeqs(Elems(es))
    requires -1 <= p0 < |es|
    requires hi.Some? ==> SplitBelow(es, s, p0, hi.value)
    requires hi.None? ==> p0 == |es| - 1
    requires c.Some? ==> Shown(es, s, c.value) && c.value <= p0
    requires NoneShown(es, s, if c.Some? then c.value else -1, p0)
    ensures c.Some? && hi.Some? ==> es[c.value].key < hi.value
    ensures NothingBetween(Elems(es), s, if c.Some? then Some(es[c.value].key) else None, hi)
  {
    var lo := if c.Some? then Some(es[c.value].key) else None;
    if c.Some? { KeyOrder(es, c.value, p0); }
    forall i | Shown(es, s, i) ensures (lo.Some? && es[i].key <= lo.value) || (hi.Some? && hi.value <= es[i].key) {
      if c.Some? && i <= c.value { KeyOrder(es, i, c.value); }
    }
    NothingShownBetween(es, s, lo, hi);
  }

  class DBIter {
    const iter: MergingIterator
    const sequence: nat
    var savedKey: Key
    var savedValue: string
    var direction: Direction
    var valid: bool

    ghost function E(): set<Entry> {
      Elems(iter.merged)
    }

    ghost predicate Base()
      reads this, iter
    {
      iter.Inv() && UniqueSeqs(E())
    }

    /** In reverse the saved entry is es[c]; iter stands on a visible entry of a smaller key, or is not valid,
        and every entry between is invisible. */
    ghost predicate SavedAt(c: int)
      reads this, iter
    {
      var es := iter.merged;
      && Shown(es, sequence, c) && savedKey == es[c].key && savedValue == es[c].value
      && (iter.at < |es| ==> iter.at < c && es[iter.at].key < savedKey)
      && (forall j | 0 <= j < c && (iter.at < |es| ==> iter.at < j) :: es[j].seqno > sequence)
    }

    ghost predicate Inv()
      reads this, iter
    {
      && Base()
      && (valid && direction.Forward? ==> Shown(iter.merged, sequence, iter.at))
      && (valid && direction.Reverse? ==> exists c :: SavedAt(c))
    }

    ghost function CurrentKey(): Key
      requires Base() && (valid && direction.Forward? ==> iter.at < |iter.merged|)
      reads this, iter
    {
      if valid && direction.Forward? then iter.merged[iter.at].key else savedKey
    }

    /** The iterator stands on a key that reads as `v`. */
    ghost predicate Shows(k: Key, v: string)
      reads this, iter
    {
      Base() && valid && iter.at <= |iter.merged| && (direction.Forward? ==> iter.at < |iter.merged|)
      && CurrentKey() == k && Reading(E(), k, sequence) == Some(v)
    }

    constructor (iter: MergingIterator, s: nat)
      requires iter.Inv() && UniqueSeqs(Elems(iter.merged))
      ensures Inv() && !valid && this.iter == iter && sequence == s
    {
      this.iter := iter;
      sequence := s;
      savedKey := 0.0;
      savedValue := "";
      direction := Forward;
      valid := false;
    }

    /** key() and value(). */
    method Current() returns (k: Key, v: string)
      requires Inv() && valid
      ensures Shows(k, v)
    {
      if direction.Forward? {
        var e := iter.Entry();
        k, v := e.key, e.value;
        ShownReads(iter.merged, sequence, iter.at);
      } else {
        k, v := savedKey, savedValue;
        ghost var c :| SavedAt(c);
        ShownReads(iter.merged, sequence, c);
      }
    }

    /** FindNextUserEntry: the first wanted entry at or after the current one, if any. */
    method FindNextUserEntry(skip0: Option<Key>)
      requires Base() && direction.Forward? && iter.Valid()
      requires ScanStart(iter.merged, sequence, iter.at, skip0)
      modifies this`valid, this`savedKey, iter
      ensures Inv() && direction.Forward?
      ensures valid ==> Wanted(iter.merged, sequence, old(iter.at), skip0, iter.at)
      ensures valid ==> forall i | Wanted(iter.merged, sequence, old(iter.at), skip0, i) :: iter.at <= i
      ensures !valid ==> forall i :: !Wanted(iter.merged, sequence, old(iter.at), skip0, i)
    {
      var skip := skip0;
      ghost var es, q0 := iter.merged, iter.at;
      while iter.Valid()
        invariant Base() && Scanning(es, sequence, q0, skip0, iter.at, skip)
        decreases |es| - iter.at
      {
        var e := iter.Entry();
        if e.seqno <= sequence && e.kind.Deletion? {
          ScanPastDeletion(es, sequence, q0, skip0, iter.at, skip);
          skip := Some(e.key);
        } else if e.seqno <= sequence && !(skip.Some? && e.key <= skip.value) {
          ScanHit(es, sequence, q0, skip0, iter.at, skip);
          savedKey := 0.0;
          valid := true;
          return;
        } else {
          ScanPastHidden(es, sequence, q0, skip0, iter.at, skip);
        }
        iter.Next();
      }
      savedKey := 0.0;
      valid := false;
    }

    /** The internal iterator's position, -1 when it is not valid. */
    ghost function Position(): int
      reads iter
    {
      if iter.at < |iter.merged| then iter.at else -1
    }

    /** FindPrevUserEntry: the last shown entry at or before the current position, if any. */
    method FindPrevUserEntry()
      requires Base() && direction.Reverse?
      modifies this`valid, this`savedKey, this`savedValue, this`direction, iter
      ensures Inv()
      ensures valid ==> direction.Reverse?
      ensures valid ==>
                exists c :: SavedAt(c) && c <= old(Position()) && NoneShown(iter.merged, sequence, c, old(Position()))
      ensures !valid ==> direction.Forward? && NoneShown(iter.merged, sequence, -1, old(Position()))
    {
      var kind := Deletion;
      ghost var es, p0 := iter.merged, Position();
      while iter.Valid()
        invariant Base() && direction.Reverse? && BackScan(es, sequence, p0, Position(), kind, savedKey, savedValue)
        decreases Position()
      {
        var e := iter.Entry();
        if e.seqno <= sequence {
          if !kind.Deletion? && e.key < savedKey {
            break;
          }
          BackPastVisible(es, sequence, p0, Position(), kind, savedKey, savedValue);
          kind := e.kind;
          if kind.Deletion? {
            savedKey, savedValue := 0.0, "";
          } else {
            savedKey, savedValue := e.key, e.value;
          }
        } else {
          BackPastInvisible(es, sequence, p0, Position(), kind, savedKey, savedValue);
        }
        StepBack();
      }
      if kind.Deletion? {
        valid := false;
        savedKey, savedValue := 0.0, "";
        direction := Forward;
      } else {
        ghost var c := BackStop(es, sequence, p0, Position(), savedKey, savedValue);
        valid := true;
        assert SavedAt(c);
      }
    }

    method Next()
      requires Inv() && valid
      modifies this`valid, this`savedKey, this`direction, iter
      ensures Inv()
      ensures valid ==> old(CurrentKey()) < CurrentKey() &&
                        NothingBetween(E(), sequence, Some(old(CurrentKey())), Some(CurrentKey()))
      ensures !valid ==> NothingBetween(E(), sequence, Some(old(CurrentKey())), None)
    {
      ghost var es, k0 := iter.merged, CurrentKey();
      var skip;
      if direction.Reverse? {
        TurnToForward();
        skip := savedKey;
        if !iter.Valid() {
          valid := false;
          savedKey := 0.0;
          LandedForward(es, sequence, iter.at, k0, None);
          return;
        }
      } else {
        var e := iter.Entry();
        skip := e.key;
        StartAtShown(es, sequence, iter.at);
        forall i | 0 <= i < iter.at ensures es[i].key <= k0 { KeyOrder(es, i, iter.at); }
      }
      ghost var q0 := iter.at;
      FindNextUserEntry(Some(skip));
      LandedForward(es, sequence, q0, k0, if valid then Some(iter.at) else None);
    }

    /** The change of direction in Next: step into the entries of the saved key. */
    method TurnToForward()
      requires Inv() && valid && direction.Reverse?
      modifies this`direction, iter
      ensures Base() && direction.Forward?
      ensures ScanStart(iter.merged, sequence, iter.at, Some(savedKey))
      ensures forall i | 0 <= i < iter.at :: iter.merged[i].key <= savedKey
    {
      SavedTurn();
      direction := Forward;
      StepIn();
    }

    lemma SavedTurn()
      requires Inv() && valid && direction.Reverse?
      ensures ScanStart(iter.merged, sequence, Position() + 1, Some(savedKey))
      ensures forall i | 0 <= i < Position() + 1 :: iter.merged[i].key <= savedKey
    {
      var c :| SavedAt(c);
      StartAtSaved(iter.merged, sequence, Position(), c);
    }

    /** One entry forward from the place of a reverse iterator, which may be before the first entry. */
    method StepIn()
      requires Base()
      modifies iter
      ensures Base() && iter.at == old(Position()) + 1
    {
      if !iter.Valid() {
        iter.SeekToFirst();
      } else {
        iter.Next();
      }
    }

    method StepBack()
      requires Base() && iter.Valid()
      modifies iter
      ensures Base() && Position() == old(Position()) - 1
    {
      iter.Prev();
    }

    method Seek(target: Key)
      requires Inv()
      modifies this, iter
      ensures Inv()
      ensures valid ==>
                target <= CurrentKey() && forall k | target <= k < CurrentKey() :: Reading(E(), k, sequence) == None
      ensures !valid ==> forall k | target <= k :: Reading(E(), k, sequence) == None
    {
      direction := Forward;
      savedKey, savedValue := 0.0, "";
      ghost var es, q0 := iter.merged, LowerBound(iter.merged, LookupKey(target, sequence));
      StartAtTarget(es, sequence, target);
      iter.Seek(LookupKey(target, sequence));
      if iter.Valid() {
        FindNextUserEntry(None);
        if valid { KeyOrder(es, q0, iter.at); }
      } else {
        valid := false;
      }
      forall k | target <= k && (valid ==> k < CurrentKey())
        ensures Reading(E(), k, sequence) == None
      {
        LandedSeek(es, sequence, q0, Some(target), if valid then Some(iter.at) else None, k);
      }
    }

    method SeekToFirst()
      requires Inv()
      modifies this, iter
      ensures Inv()
      ensures NothingBetween(E(), sequence, None, if valid then Some(CurrentKey()) else None)
    {
      direction := Forward;
      savedValue := "";
      ghost var es := iter.merged;
      iter.SeekToFirst();
      if iter.Valid() {
        FindNextUserEntry(None);
      } else {
        valid := false;
      }
      forall k | valid ==> k < CurrentKey()
        ensures Reading(E(), k, sequence) == None
      {
        LandedSeek(es, sequence, 0, None, if valid then Some(iter.at) else None, k);
      }
    }

    method Prev()
      requires Inv() && valid
      modifies this, iter
      ensures Inv()
      ensures valid ==> CurrentKey() < old(CurrentKey()) &&
                        NothingBetween(E(), sequence, Some(CurrentKey()), Some(old(CurrentKey())))
      ensures !valid ==> NothingBetween(E(), sequence, None, Some(old(CurrentKey())))
    {
      ghost var es, k0 := iter.merged, CurrentKey();
      if direction.Forward? {
        TurnToReverse();
        if !valid {
          LandedBackward(es, sequence, -1, Some(k0), None);
          return;
        }
      } else {
        ghost var c :| SavedAt(c);
        forall j | c <= j < |es| ensures es[j].key >= k0 { KeyOrder(es, c, j); }
        assert SplitBelow(es, sequence, Position(), k0);
      }
      ghost var p0 := Position();
      FindPrevUserEntry();
      if valid {
        ghost var c :| SavedAt(c) && c <= p0 && NoneShown(es, sequence, c, p0);
        LandedBackward(es, sequence, p0, Some(k0), Some(c));
      } else {
        LandedBackward(es, sequence, p0, Some(k0), None);
      }
    }

    /** The change of direction in Prev: scan backwards until the key changes. */
    method TurnToReverse()
      requires Inv() && valid && direction.Forward?
      modifies this, iter
      ensures Base()
      ensures valid ==> direction.Reverse? && SplitBelow(iter.merged, sequence, Position(), old(CurrentKey()))
      ensures !valid ==> direction.Forward? && SplitBelow(iter.merged, sequence, -1, old(CurrentKey()))
    {
      ghost var es, k0 := iter.merged, CurrentKey();
      var e := iter.Entry();
      savedKey := e.key;
      KeysFrom(es, iter.at);
      while true
        invariant Base() && iter.Valid() && direction.Forward? && valid && savedKey == k0
        invariant forall j | iter.at <= j < |es| :: es[j].key >= k0
        decreases Position()
      {
        StepBack();
        if !iter.Valid() {
          valid := false;
          savedKey, savedValue := 0.0, "";
          return;
        }
        e := iter.Entry();
        if e.key < savedKey {
          break;
        }
      }
      direction := Reverse;
    }

    method SeekToLast()
      requires Inv()
      modifies this, iter
      ensures Inv()
      ensures NothingBetween(E(), sequence, if valid then Some(CurrentKey()) else None, None)
    {
      direction := Reverse;
      savedValue := "";
      ghost var es := iter.merged;
      iter.SeekToLast();
      FindPrevUserEntry();
      if valid {
        ghost var c :| SavedAt(c) && c <= |es| - 1 && NoneShown(es, sequence, c, |es| - 1);
        LandedBackward(es, sequence, |es| - 1, None, Some(c));
      } else {
        LandedBackward(es, sequence, |es| - 1, None, None);
      }
    }
  }
}
