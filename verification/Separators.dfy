/** The bytewise comparator (util/comparator.cc) and the comparator of internal keys (db/dbformat.cc), with the short
    separators that table indexes use. */
module Separators {
  import opened Bytes

  /** Slice::compare: lexicographic. */
  predicate Less(a: Text, b: Text) {
    b != [] && (a == [] || a[0] < b[0] || (a[0] == b[0] && Less(a[1..], b[1..])))
  }

  lemma {:induction false} LessTransitive(a: Text, b: Text, c: Text)
    requires Less(a, b) && Less(b, c)
    ensures Less(a, c)
  {
    if a != [] && a[0] == b[0] == c[0] { LessTransitive(a[1..], b[1..], c[1..]); }
  }

  lemma {:induction false} LessIrreflexive(a: Text)
    ensures !Less(a, a)
  {
    if a != [] { LessIrreflexive(a[1..]); }
  }

  lemma {:induction false} LessTotal(a: Text, b: Text)
    ensures a == b || Less(a, b) || Less(b, a)
  {
    if a != [] && b != [] {
      LessTotal(a[1..], b[1..]);
      if a[0] == b[0] && a[1..] == b[1..] {
        assert a == [a[0]] + a[1..] && b == [b[0]] + b[1..];
      }
    }
  }

  /** The first byte that differs decides. */
  lemma {:induction false} LessAt(a: Text, b: Text, n: nat)
    requires n < |a| && n < |b| && a[..n] == b[..n] && a[n] < b[n]
    ensures Less(a, b)
    decreases n
  {
    if n > 0 {
      assert a[0] == a[..n][0] == b[..n][0] == b[0];
      assert a[1..][..n - 1] == a[..n][1..] && b[1..][..n - 1] == b[..n][1..];
      LessAt(a[1..], b[1..], n - 1);
    }
  }

  // ----- bytewise separators -----

  /** The two agree on their first d bytes and no further. */
  ghost predicate AgreeTo(a: Text, b: Text, d: nat) {
    && d <= |a| && d <= |b| && a[..d] == b[..d]
    && (d < |a| && d < |b| ==> a[d] != b[d])
  }

  /** What FindShortestSeparator makes of start: it is cut behind the first byte that differs and that byte is counted
      up, if this stays below limit; otherwise it is left alone. */
  ghost predicate IsShortest(start: Text, limit: Text, r: Text) {
    exists d: nat :: AgreeTo(start, limit, d) &&
                     r == if d < |start| && d < |limit| && start[d] < 255 && start[d] + 1 < limit[d]
                            then start[..d] + [start[d] + 1] else start
  }

  /** What FindShortSuccessor makes of key: its first byte below 255 is counted up and ends it; a key without one is
      left alone. */
  ghost predicate IsSuccessor(key: Text, r: Text) {
    exists i: nat :: i <= |key| && (forall j | 0 <= j < i :: key[j] == 255) && (i < |key| ==> key[i] != 255) &&
                     r == if i < |key| then key[..i] + [key[i] + 1] else key
  }

  /** FindShortestSeparator: for start < limit a key in [start, limit).  If it is not start itself, it lies strictly
      between the two, is no longer than start, and nothing shorter lies between. */
  method ShortestSeparator(start: Text, limit: Text) returns (r: Text)
    ensures IsShortest(start, limit, r)
    ensures r == start || (Less(start, r) && Less(r, limit) && |r| <= |start|)
    ensures r != start ==> forall t | Less(start, t) && Less(t, limit) :: |r| <= |t|
  {
    var n := if |start| < |limit| then |start| else |limit|;
    var d := 0;
    while d < n && start[d] == limit[d]
      invariant 0 <= d <= n && start[..d] == limit[..d]
    {
      assert start[..d + 1] == start[..d] + [start[d]] && limit[..d + 1] == limit[..d] + [limit[d]];
      d := d + 1;
    }
    r := start;
    assert AgreeTo(start, limit, d);
    if d < n && start[d] < 255 && start[d] + 1 < limit[d] {
      r := start[..d] + [start[d] + 1];
      assert r[..d] == start[..d];
      LessAt(start, r, d);
      LessAt(r, limit, d);
      forall t | Less(start, t) && Less(t, limit) ensures |r| <= |t| { BetweenIsLonger(start, t, limit, d); }
    }
  }

  /** What lies between two texts that agree on d bytes has more than d bytes. */
  lemma {:induction false} BetweenIsLonger(a: Text, t: Text, b: Text, d: nat)
    requires Less(a, t) && Less(t, b) && d <= |a| && d <= |b| && a[..d] == b[..d]
    ensures |t| > d
    decreases d
  {
    if d > 0 {
      assert a[0] == a[..d][0] == b[..d][0] == b[0];
      assert a[1..][..d - 1] == a[..d][1..] && b[1..][..d - 1] == b[..d][1..];
      BetweenIsLonger(a[1..], t[1..], b[1..], d - 1);
    }
  }

  /** FindShortSuccessor: a key not below this one, no longer than it, and shorter than any other above it. */
  method ShortSuccessor(key: Text) returns (r: Text)
    ensures IsSuccessor(key, r)
    ensures r == key || (Less(key, r) && |r| <= |key|)
    ensures r != key ==> forall t | Less(key, t) :: |r| <= |t|
  {
    for i := 0 to |key|
      invariant forall j | 0 <= j < i :: key[j] == 255
    {
      if key[i] != 255 {
        r := key[..i] + [key[i] + 1];
        assert r[..i] == key[..i];
        LessAt(key, r, i);
        forall t | Less(key, t) ensures |r| <= |t| { AboveIsLonger(key, t, i); }
        return;
      }
    }
    r := key;
  }

  /** What lies above a text that starts with i bytes of 255 has more than i bytes. */
  lemma {:induction false} AboveIsLonger(key: Text, t: Text, i: nat)
    requires Less(key, t) && i <= |key| && forall j | 0 <= j < i :: key[j] == 255
    ensures |t| > i
    decreases i
  {
    if i > 0 { AboveIsLonger(key[1..], t[1..], i - 1); }
  }

  // ----- internal keys -----

  /** A user key and the packed sequence number and type. */
  datatype InternalKey = InternalKey(user: Text, num: nat)

  /** PackSequenceAndType(kMaxSequenceNumber, kValueTypeForSeek). */
  const EARLIEST: nat := 0xff_ffff_ffff_ffff * 256 + 1

  /** Increasing user key, then decreasing number. */
  predicate Before(a: InternalKey, b: InternalKey) {
    Less(a.user, b.user) || (a.user == b.user && a.num > b.num)
  }

  lemma BeforeTransitive(a: InternalKey, b: InternalKey, c: InternalKey)
    requires Before(a, b) && Before(b, c)
    ensures Before(a, c)
  {
    if Less(a.user, b.user) && Less(b.user, c.user) { LessTransitive(a.user, b.user, c.user); }
  }

  lemma BeforeTotal(a: InternalKey, b: InternalKey)
    ensures !(Before(a, b) && Before(b, a)) && (a == b || Before(a, b) || Before(b, a))
  {
    LessTotal(a.user, b.user);
    LessIrreflexive(a.user);
    if Less(a.user, b.user) && Less(b.user, a.user) { LessTransitive(a.user, b.user, a.user); }
  }

  /** `s` can stand in the index for a block that ends with `start`, if the next one begins with `limit`: it is not
      before start, it is before limit, and no key with the user key of `limit` comes between start and s. */
  ghost predicate Separates(start: InternalKey, s: InternalKey, limit: InternalKey) {
    && !Before(s, start) && Before(s, limit)
    && (s == start || (Less(start.user, s.user) && Less(s.user, limit.user)))
  }

  /** InternalKeyComparator::FindShortestSeparator: a user key that got shorter comes with the earliest number, so that
      it stands before all entries with that user key. */
  method InternalSeparator(start: InternalKey, limit: InternalKey) returns (s: InternalKey)
    requires Before(start, limit)
    ensures Separates(start, s, limit)
    ensures exists tmp :: IsShortest(start.user, limit.user, tmp) &&
                          s == if |tmp| < |start.user| then InternalKey(tmp, EARLIEST) else start
  {
    var tmp := ShortestSeparator(start.user, limit.user);
    LessIrreflexive(start.user);
    s := if |tmp| < |start.user| && Less(start.user, tmp) then InternalKey(tmp, EARLIEST) else start;
    BeforeTotal(s, start);
  }

  /** InternalKeyComparator::FindShortSuccessor. */
  method InternalSuccessor(key: InternalKey) returns (s: InternalKey)
    ensures !Before(s, key) && (s == key || Less(key.user, s.user))
    ensures exists tmp :: IsSuccessor(key.user, tmp) &&
                          s == if |tmp| < |key.user| then InternalKey(tmp, EARLIEST) else key
  {
    var tmp := ShortSuccessor(key.user);
    s := if |tmp| < |key.user| && Less(key.user, tmp) then InternalKey(tmp, EARLIEST) else key;
    BeforeTotal(s, key);
  }
}
