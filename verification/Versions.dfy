/** Table files, versions and the multi-level read path (db/version_set.cc).

    A version is seven lists of table files.  Files of level 0 may overlap and are ordered by age
    through their numbers; every other level is sorted and its files are disjoint.
 */
module Versions {
  import opened Options
  import opened InternalKeys

  const NUM_LEVELS: nat := 7

  /** FileMetaData together with the table it names. */
  datatype FileData = File(number: nat, entries: seq<Entry>)

  /** A table that is never empty: BuildTable and the compaction loop only keep files with entries. */
  type File = f: FileData | |f.entries| > 0 witness File(0, [Entry(0.0, 0, Deletion, "")])

  type Version = seq<seq<File>>

  ghost predicate ValidFile(f: File) {
    Sorted(f.entries)
  }

  function Smallest(f: File): Entry {
    f.entries[0]
  }

  function Largest(f: File): Entry {
    f.entries[|f.entries| - 1]
  }

  ghost predicate ValidFiles(files: seq<File>) {
    forall i | 0 <= i < |files| :: ValidFile(files[i])
  }

  /** Levels above 0: sorted by key and pairwise disjoint. */
  ghost predicate DisjointLevel(files: seq<File>) {
    forall i, j | 0 <= i < j < |files| :: Before(Largest(files[i]), Smallest(files[j]))
  }

  ghost function Entries(files: seq<File>): set<Entry> {
    set f, e | f in files && e in f.entries :: e
  }

  ghost function VersionEntries(v: Version): set<Entry> {
    set l, e | 0 <= l < |v| && e in Entries(v[l]) :: e
  }

  /** Every entry of `A` is newer than every entry of `B` for the same user key. */
  ghost predicate NewerThan(A: set<Entry>, B: set<Entry>) {
    forall a, b | a in A && b in B && a.key == b.key :: a.seqno > b.seqno
  }

  /** Level 0: file numbers tell the age. */
  ghost predicate OrderedByAge(files: seq<File>) {
    && (forall f, g | f in files && g in files && f.number == g.number :: f == g)
    && (forall f, g | f in files && g in files && f.number < g.number ::
          NewerThan(Elems(g.entries), Elems(f.entries)))
  }

  ghost predicate LevelsValid(v: Version) {
    |v| == NUM_LEVELS && forall l | 0 <= l < NUM_LEVELS :: ValidFiles(v[l])
  }

  ghost predicate LevelsDisjoint(v: Version)
    requires |v| == NUM_LEVELS
  {
    forall l | 1 <= l < NUM_LEVELS :: DisjointLevel(v[l])
  }

  ghost predicate LevelsByAge(v: Version)
    requires |v| == NUM_LEVELS
  {
    forall l, m | 0 <= l < m < NUM_LEVELS :: NewerThan(Entries(v[l]), Entries(v[m]))
  }

  ghost predicate NoDuplicates(files: seq<File>) {
    forall i, j | 0 <= i < j < |files| :: files[i] != files[j]
  }

  /** The two invariants every step must keep, with the age order of level 0. */
  ghost predicate VersionInv(v: Version) {
    LevelsValid(v) && LevelsDisjoint(v) && LevelsByAge(v) && OrderedByAge(v[0]) && NoDuplicates(v[0])
  }

  // ----- searching one table -----

  /** The index of the first entry at or after `target`: where a table iterator's Seek stops. */
  function LowerBound(es: seq<Entry>, target: Entry): (i: nat)
    ensures i <= |es|
    ensures i < |es| ==> !Before(es[i], target)
    ensures forall j | 0 <= j < i :: Before(es[j], target)
  {
    if es == [] || !Before(es[0], target) then 0 else 1 + LowerBound(es[1..], target)
  }

  /** TableCache::Get with SaveValue: the entry at the seek position counts if its user key matches. */
  function TableGet(f: File, k: Key, s: nat): (hit: Option<Entry>)
  {
    var i := LowerBound(f.entries, LookupKey(k, s));
    if i < |f.entries| && f.entries[i].key == k then Some(f.entries[i]) else None
  }

  /** The seek position is the newest visible entry of a sorted run, or the run has none. */
  lemma SeekFindsNewest(es: seq<Entry>, k: Key, s: nat)
    requires Sorted(es)
    ensures var i := LowerBound(es, LookupKey(k, s));
            if i < |es| && es[i].key == k then IsNewest(Elems(es), k, s, es[i])
            else forall e | e in es :: !Visible(e, k, s)
  {
    var i := LowerBound(es, LookupKey(k, s));
    forall e | e in es && Visible(e, k, s)
      ensures i < |es| && es[i].key == k && e.seqno <= es[i].seqno
    {
      var j :| 0 <= j < |es| && es[j] == e;
      assert !Before(es[j], LookupKey(k, s));
      assert i <= j;
    }
  }

  // ----- Version::Get -----

  /** The binary search of FindFile between left and right, on any list of files. */
  function SearchFile(files: seq<File>, target: Entry, left: nat, right: nat): (r: nat)
    requires left <= right <= |files|
    ensures left <= r <= right
    decreases right - left
  {
    if left == right then right
    else
      var mid := (left + right) / 2;
      if Before(Largest(files[mid]), target) then SearchFile(files, target, mid + 1, right)
      else SearchFile(files, target, left, mid)
  }

  /** FindFile: in a disjoint level, the first file whose largest key is at or after `target`. */
  method FindFile(files: seq<File>, target: Entry) returns (r: nat)
    ensures r <= |files| && r == SearchFile(files, target, 0, |files|)
    ensures ValidFiles(files) && DisjointLevel(files) ==>
              && (forall i | 0 <= i < r :: Before(Largest(files[i]), target))
              && (forall i | r <= i < |files| :: !Before(Largest(files[i]), target))
  {
    var left, right := 0, |files|;
    while left < right
      invariant 0 <= left <= right <= |files|
      invariant SearchFile(files, target, left, right) == SearchFile(files, target, 0, |files|)
    {
      var mid := (left + right) / 2;
      if Before(Largest(files[mid]), target) {
        left := mid + 1;
      } else {
        right := mid;
      }
    }
    r := right;
    if ValidFiles(files) && DisjointLevel(files) {
      SearchSplits(files, target, 0, |files|);
    }
  }

  lemma {:induction false} SearchSplits(files: seq<File>, target: Entry, left: nat, right: nat)
    requires ValidFiles(files) && DisjointLevel(files) && left <= right <= |files|
    requires forall i | 0 <= i < left :: Before(Largest(files[i]), target)
    requires forall i | right <= i < |files| :: !Before(Largest(files[i]), target)
    ensures var r := SearchFile(files, target, left, right);
            && (forall i | 0 <= i < r :: Before(Largest(files[i]), target))
            && (forall i | r <= i < |files| :: !Before(Largest(files[i]), target))
    decreases right - left
  {
    if left < right {
      var mid := (left + right) / 2;
      forall i | 0 <= i <= mid && Before(Largest(files[mid]), target) ensures Before(Largest(files[i]), target) {
        FileOrder(files, i, mid);
      }
      forall i | mid <= i < |files| && !Before(Largest(files[mid]), target) ensures !Before(Largest(files[i]), target) {
        FileOrder(files, mid, i);
      }
      if Before(Largest(files[mid]), target) {
        SearchSplits(files, target, mid + 1, right);
      } else {
        SearchSplits(files, target, left, mid);
      }
    }
  }

  lemma FileOrder(files: seq<File>, i: nat, j: nat)
    requires ValidFiles(files) && DisjointLevel(files)
    requires i <= j < |files|
    ensures i == j || Before(Largest(files[i]), Largest(files[j]))
  {
    assert files[i] in files && files[j] in files;
  }

  /** Every entry of a file lies between the file's smallest and largest key. */
  lemma WithinBounds(f: File, e: Entry)
    requires ValidFile(f) && e in f.entries
    ensures e == Smallest(f) || Before(Smallest(f), e)
    ensures e == Largest(f) || Before(e, Largest(f))
  {
    var i :| 0 <= i < |f.entries| && f.entries[i] == e;
  }

  /** In a disjoint level only the file that FindFile picks can answer the lookup. */
  lemma OneFileSuffices(files: seq<File>, k: Key, s: nat, r: nat, e: Entry)
    requires ValidFiles(files) && DisjointLevel(files)
    requires r <= |files|
    requires forall i | 0 <= i < r :: Before(Largest(files[i]), LookupKey(k, s))
    requires forall i | r <= i < |files| :: !Before(Largest(files[i]), LookupKey(k, s))
    requires e in Entries(files) && Visible(e, k, s)
    ensures r < |files| && Smallest(files[r]).key <= k
    ensures e in files[r].entries || exists x :: x in files[r].entries && Visible(x, k, s) && e.seqno <= x.seqno
  {
    var f :| f in files && e in f.entries;
    var j :| 0 <= j < |files| && files[j] == f;
    WithinBounds(f, e);
    assert r <= j;
    if r < j {
      var x := Largest(files[r]);
      assert files[r] in files;
      WithinBounds(files[r], x);
      assert Before(x, Smallest(files[j]));
      assert x in files[r].entries && Visible(x, k, s) && e.seqno <= x.seqno;
    }
  }

  ghost predicate NewestFirst(files: seq<File>) {
    forall i, j | 0 <= i < j < |files| :: files[i].number >= files[j].number
  }

  function InsertNewestFirst(f: File, files: seq<File>): seq<File> {
    if files == [] || files[0].number <= f.number then [f] + files
    else [files[0]] + InsertNewestFirst(f, files[1..])
  }

  lemma {:induction false} InsertMember(f: File, files: seq<File>, g: File)
    ensures g in InsertNewestFirst(f, files) <==> g == f || g in files
  {
    if files != [] && files[0].number > f.number {
      InsertMember(f, files[1..], g);
    }
  }

  lemma {:induction false} InsertSorted(f: File, files: seq<File>)
    requires NewestFirst(files)
    ensures NewestFirst(InsertNewestFirst(f, files))
  {
    if files != [] && files[0].number > f.number {
      var rest := InsertNewestFirst(f, files[1..]);
      InsertSorted(f, files[1..]);
      forall j | 0 <= j < |rest| ensures rest[j].number <= files[0].number {
        InsertMember(f, files[1..], rest[j]);
      }
    }
  }

  /** std::sort with NewestFirst. */
  function SortNewestFirst(files: seq<File>): seq<File> {
    if files == [] then [] else InsertNewestFirst(files[0], SortNewestFirst(files[1..]))
  }

  lemma {:induction false} SortMember(files: seq<File>, g: File)
    ensures g in SortNewestFirst(files) <==> g in files
  {
    if files != [] {
      InsertMember(files[0], SortNewestFirst(files[1..]), g);
      SortMember(files[1..], g);
    }
  }

  lemma {:induction false} SortSorted(files: seq<File>)
    ensures NewestFirst(SortNewestFirst(files))
  {
    if files != [] {
      SortSorted(files[1..]);
      InsertSorted(files[0], SortNewestFirst(files[1..]));
    }
  }

  /** The files of level 0 whose user-key range covers `k`. */
  method Covering(files: seq<File>, k: Key) returns (tmp: seq<File>)
    ensures forall f | f in tmp :: f in files
    ensures forall f | f in files && Smallest(f).key <= k <= Largest(f).key :: f in tmp
  {
    tmp := [];
    for i := 0 to |files|
      invariant forall f | f in tmp :: f in files
      invariant forall j | 0 <= j < i && Smallest(files[j]).key <= k <= Largest(files[j]).key :: files[j] in tmp
    {
      if Smallest(files[i]).key <= k && k <= Largest(files[i]).key {
        tmp := tmp + [files[i]];
      }
    }
  }

  /** std::sort by NewestFirst. */
  method SortByAge(tmp: seq<File>) returns (order: seq<File>)
    ensures NewestFirst(order) && forall g :: g in order <==> g in tmp
  {
    order := SortNewestFirst(tmp);
    SortSorted(tmp);
    forall g ensures g in order <==> g in tmp { SortMember(tmp, g); }
  }

  /** The level-0 half of Version::Get: all overlapping files, newest first, stopping at the first hit. */
  method GetFromLevel0(files: seq<File>, k: Key, s: nat) returns (hit: Option<Entry>)
    requires ValidFiles(files) && OrderedByAge(files)
    ensures hit.None? ==> forall e | e in Entries(files) :: !Visible(e, k, s)
    ensures hit.Some? ==> IsNewest(Entries(files), k, s, hit.value)
  {
    var tmp := Covering(files, k);
    var order := SortByAge(tmp);
    hit := None;
    var i := 0;
    while i < |order| && hit.None?
      invariant 0 <= i <= |order|
      invariant hit.None? ==> forall j | 0 <= j < i :: NothingVisible(order[j], k, s)
      invariant hit.Some? ==> i > 0 && order[i - 1] in files && IsNewest(Elems(order[i - 1].entries), k, s, hit.value)
      invariant hit.Some? ==> forall j | 0 <= j < i - 1 :: NothingVisible(order[j], k, s)
    {
      assert order[i] in tmp;
      SeekFindsNewest(order[i].entries, k, s);
      hit := TableGet(order[i], k, s);
      i := i + 1;
    }
    forall x | x in Entries(files) && Visible(x, k, s)
      ensures hit.Some? && x.seqno <= hit.value.seqno
    {
      FirstHitWins(files, order, k, s, i, hit, x);
    }
  }

  /** What the scan in order of age has not found is not there, and what it has found is newest. */
  lemma FirstHitWins(files: seq<File>, order: seq<File>, k: Key, s: nat, i: nat, hit: Option<Entry>, x: Entry)
    requires ValidFiles(files) && OrderedByAge(files) && x in Entries(files) && Visible(x, k, s)
    requires NewestFirst(order) && forall f | f in files && Smallest(f).key <= k <= Largest(f).key :: f in order
    requires i <= |order| && (hit.None? ==> i == |order|)
    requires forall j | 0 <= j < (if hit.None? then i else i - 1) :: NothingVisible(order[j], k, s)
    requires hit.Some? ==> i > 0 && order[i - 1] in files && IsNewest(Elems(order[i - 1].entries), k, s, hit.value)
    ensures hit.Some? && x.seqno <= hit.value.seqno
  {
    var j := ListedFile(files, order, k, s, x);
    assert !NothingVisible(order[j], k, s);
    assert hit.Some? && i - 1 <= j;
    NewerFileWins(files, order[i - 1], order[j], k, s, hit.value, x);
  }

  /** A visible entry lies in a file that covers its key, so in one that is listed. */
  lemma ListedFile(files: seq<File>, order: seq<File>, k: Key, s: nat, x: Entry) returns (j: nat)
    requires ValidFiles(files) && x in Entries(files) && Visible(x, k, s)
    requires forall f | f in files && Smallest(f).key <= k <= Largest(f).key :: f in order
    ensures j < |order| && order[j] in files && x in order[j].entries
  {
    var f: File :| f in files && x in f.entries;
    WithinBounds(f, x);
    j :| 0 <= j < |order| && order[j] == f;
  }

  ghost predicate NothingVisible(f: File, k: Key, s: nat) {
    forall e | e in f.entries :: !Visible(e, k, s)
  }

  lemma NewerFileWins(files: seq<File>, g: File, f: File, k: Key, s: nat, e: Entry, x: Entry)
    requires OrderedByAge(files) && g in files && f in files && f.number <= g.number
    requires IsNewest(Elems(g.entries), k, s, e) && x in f.entries && Visible(x, k, s)
    ensures x.seqno <= e.seqno
  {
    assert x in Elems(f.entries);
    if f.number < g.number {
      assert NewerThan(Elems(g.entries), Elems(f.entries));
    }
  }

  /** One level above 0: binary search for the one candidate file, then look into it. */
  function LevelGet(files: seq<File>, k: Key, s: nat): Option<Entry> {
    var r := SearchFile(files, LookupKey(k, s), 0, |files|);
    if r >= |files| || k < Smallest(files[r]).key then None else TableGet(files[r], k, s)
  }

  method GetFromLevel(files: seq<File>, k: Key, s: nat) returns (hit: Option<Entry>)
    ensures hit == LevelGet(files, k, s)
    ensures ValidFiles(files) && DisjointLevel(files) ==>
              && (hit.None? ==> forall e | e in Entries(files) :: !Visible(e, k, s))
              && (hit.Some? ==> IsNewest(Entries(files), k, s, hit.value))
  {
    var r := FindFile(files, LookupKey(k, s));
    if r >= |files| || k < Smallest(files[r]).key {
      hit := None;
    } else {
      hit := TableGet(files[r], k, s);
    }
    if ValidFiles(files) && DisjointLevel(files) {
      LevelGetIsNewest(files, k, s, r, hit);
    }
  }

  lemma LevelGetIsNewest(files: seq<File>, k: Key, s: nat, r: nat, hit: Option<Entry>)
    requires ValidFiles(files) && DisjointLevel(files) && r <= |files|
    requires forall i | 0 <= i < r :: Before(Largest(files[i]), LookupKey(k, s))
    requires forall i | r <= i < |files| :: !Before(Largest(files[i]), LookupKey(k, s))
    requires hit == if r >= |files| || k < Smallest(files[r]).key then None else TableGet(files[r], k, s)
    ensures hit.None? ==> forall e | e in Entries(files) :: !Visible(e, k, s)
    ensures hit.Some? ==> IsNewest(Entries(files), k, s, hit.value)
  {
    if r < |files| {
      assert files[r] in files;
      SeekFindsNewest(files[r].entries, k, s);
    }
    forall e | e in Entries(files) && Visible(e, k, s)
      ensures r < |files| && Smallest(files[r]).key <= k
      ensures exists x :: x in files[r].entries && Visible(x, k, s) && e.seqno <= x.seqno
    {
      OneFileSuffices(files, k, s, r, e);
    }
  }

  /** Version::Get: level by level, stopping at the first level that has data for the key. */
  method Get(v: Version, k: Key, s: nat) returns (hit: Option<Entry>)
    requires VersionInv(v)
    ensures hit.None? ==> forall e | e in VersionEntries(v) :: !Visible(e, k, s)
    ensures hit.Some? ==> IsNewest(VersionEntries(v), k, s, hit.value)
  {
    hit := None;
    for level := 0 to NUM_LEVELS
      invariant hit.None?
      invariant forall l, e | 0 <= l < level && e in Entries(v[l]) :: !Visible(e, k, s)
    {
      if |v[level]| > 0 {
        if level == 0 {
          hit := GetFromLevel0(v[0], k, s);
        } else {
          hit := GetFromLevel(v[level], k, s);
        }
        if hit.Some? {
          forall x | x in VersionEntries(v) && Visible(x, k, s)
            ensures x.seqno <= hit.value.seqno
          {
            var l :| 0 <= l < |v| && x in Entries(v[l]);
            if l > level {
              assert NewerThan(Entries(v[level]), Entries(v[l]));
            }
          }
          return;
        }
      }
    }
  }
}
