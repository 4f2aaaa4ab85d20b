/** Internal keys, entries and the plain rule "the newest visible entry wins" (db/dbformat.h, db/dbformat.cc).

    A user key is only ever looked at through the user comparator, a total order on byte strings.
    There are countably many byte strings, and every countable total order embeds in the rationals,
    so a user key is represented by its position in that order, a `real`.
 */
module InternalKeys {
  import opened Options

  type Key = real

  /** kMaxSequenceNumber: eight bits of the 64 are left for the type. */
  const MAX_SEQUENCE: nat := 0xFF_FFFF_FFFF_FFFF

  datatype Kind = Deletion | Put

  datatype Entry = Entry(key: Key, seqno: nat, kind: Kind, value: string)

  /** PackSequenceAndType: the eight trailing bytes of an internal key, as a number. */
  function Tag(e: Entry): nat {
    e.seqno * 256 + if e.kind.Put? then 1 else 0
  }

  /** InternalKeyComparator::Compare(a, b) < 0.  The value plays no part. */
  predicate Before(a: Entry, b: Entry) {
    a.key < b.key || (a.key == b.key && Tag(a) > Tag(b))
  }

  /** The internal key that a lookup of `k` at snapshot `s` seeks to (kValueTypeForSeek is the largest type). */
  function LookupKey(k: Key, s: nat): Entry {
    Entry(k, s, Put, "")
  }

  ghost predicate Sorted(es: seq<Entry>) {
    forall i, j | 0 <= i < j < |es| :: Before(es[i], es[j])
  }

  ghost function Elems(es: seq<Entry>): set<Entry> {
    set e | e in es
  }

  // ----- newest visible entry wins -----

  predicate Visible(e: Entry, k: Key, s: nat) {
    e.key == k && e.seqno <= s
  }

  ghost predicate IsNewest(E: set<Entry>, k: Key, s: nat, e: Entry) {
    e in E && Visible(e, k, s) && forall x | x in E && Visible(x, k, s) :: x.seqno <= e.seqno
  }

  /** No two entries of one user key share a sequence number. */
  ghost predicate UniqueSeqs(E: set<Entry>) {
    forall a, b | a in E && b in E && a.key == b.key && a.seqno == b.seqno :: a == b
  }

  ghost function Newest(E: set<Entry>, k: Key, s: nat): Option<Entry> {
    if exists e :: IsNewest(E, k, s, e) then
      var e :| IsNewest(E, k, s, e);
      Some(e)
    else
      None
  }

  function ValueOf(e: Entry): Option<string> {
    if e.kind.Put? then Some(e.value) else None
  }

  /** What a read of `k` at snapshot `s` must return when the store holds the entries `E`. */
  ghost function Reading(E: set<Entry>, k: Key, s: nat): Option<string> {
    match Newest(E, k, s)
    case None => None
    case Some(e) => ValueOf(e)
  }

  lemma NewestExists(E: set<Entry>, k: Key, s: nat, w: Entry)
    requires w in E && Visible(w, k, s)
    ensures exists e :: IsNewest(E, k, s, e)
  {
    var rest := E - {w};
    if x :| x in rest && Visible(x, k, s) {
      NewestExists(rest, k, s, x);
      var e :| IsNewest(rest, k, s, e);
      var top := if w.seqno <= e.seqno then e else w;
      assert IsNewest(E, k, s, top);
    } else {
      forall x | x in E && Visible(x, k, s)
        ensures x.seqno <= w.seqno
      {
        assert x == w || x in rest;
      }
      assert IsNewest(E, k, s, w);
    }
  }

  lemma ReadingOfNewest(E: set<Entry>, k: Key, s: nat, e: Entry)
    requires UniqueSeqs(E) && IsNewest(E, k, s, e)
    ensures Newest(E, k, s) == Some(e)
    ensures Reading(E, k, s) == ValueOf(e)
  {
    var n := Newest(E, k, s).value;
    assert IsNewest(E, k, s, n);
    assert n.seqno == e.seqno;
  }

  lemma ReadingOfNothing(E: set<Entry>, k: Key, s: nat)
    requires forall x | x in E :: !Visible(x, k, s)
    ensures Newest(E, k, s) == None
    ensures Reading(E, k, s) == None
  {
  }

  /** Two entry sets with the same visible entries read the same. */
  lemma ReadingSame(E: set<Entry>, F: set<Entry>, k: Key, s: nat)
    requires UniqueSeqs(E) && UniqueSeqs(F)
    requires forall x | Visible(x, k, s) :: x in E <==> x in F
    ensures Reading(E, k, s) == Reading(F, k, s)
  {
    if w :| w in E && Visible(w, k, s) {
      NewestExists(E, k, s, w);
      var e :| IsNewest(E, k, s, e);
      assert IsNewest(F, k, s, e);
      ReadingOfNewest(E, k, s, e);
      ReadingOfNewest(F, k, s, e);
    } else {
      ReadingOfNothing(E, k, s);
      ReadingOfNothing(F, k, s);
    }
  }

  /** Removing (or adding) entries that are not the newest visible one changes no reading. */
  lemma ReadingOfPart(E: set<Entry>, F: set<Entry>, k: Key, s: nat, e: Entry)
    requires UniqueSeqs(E) && F <= E && IsNewest(E, k, s, e) && e in F
    ensures Reading(F, k, s) == Reading(E, k, s) == ValueOf(e)
  {
    assert IsNewest(F, k, s, e);
    ReadingOfNewest(E, k, s, e);
    ReadingOfNewest(F, k, s, e);
  }
}
