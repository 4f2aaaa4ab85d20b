/** One shard of the cache of util/cache.cc: handles with reference counts, a hash table, and two lists that every
    cached handle is on exactly one of.  The circular lists are sequences, oldest first. */
module LruCaches {
  import opened Options
  import opened HandleTables

  /** What never changes in a handle. */
  datatype Info = Info(name: Name, charge: nat)

  ghost function Elems(ids: seq<Id>): set<Id> {
    set e | e in ids
  }

  ghost predicate Distinct(ids: seq<Id>) {
    |Elems(ids)| == |ids|
  }

  lemma {:induction false} AtMostLength(ids: seq<Id>)
    ensures |Elems(ids)| <= |ids|
  {
    if ids != [] {
      assert Elems(ids) == {ids[0]} + Elems(ids[1..]);
      AtMostLength(ids[1..]);
    }
  }

  lemma Absorb(e: Id, s: set<Id>)
    ensures e in s ==> {e} + s == s
  {
  }

  lemma DistinctTail(ids: seq<Id>)
    requires Distinct(ids) && ids != []
    ensures Distinct(ids[1..]) && ids[0] !in ids[1..]
  {
    assert Elems(ids) == {ids[0]} + Elems(ids[1..]);
    AtMostLength(ids[1..]);
    Absorb(ids[0], Elems(ids[1..]));
  }

  lemma DistinctAppend(ids: seq<Id>, e: Id)
    requires Distinct(ids) && e !in ids
    ensures Distinct(ids + [e])
  {
    assert Elems(ids + [e]) == Elems(ids) + {e};
  }

  /** The list with one handle unlinked. */
  function Without(ids: seq<Id>, e: Id): (r: seq<Id>)
    ensures e !in ids ==> r == ids
    ensures forall x :: x in r ==> x in ids
  {
    if ids == [] then [] else if ids[0] == e then ids[1..] else [ids[0]] + Without(ids[1..], e)
  }

  lemma {:induction false} WithoutMembers(ids: seq<Id>, e: Id)
    requires Distinct(ids)
    ensures Distinct(Without(ids, e)) && forall x :: x in Without(ids, e) <==> x in ids && x != e
  {
    if ids != [] {
      DistinctTail(ids);
      var rest := Without(ids[1..], e);
      WithoutMembers(ids[1..], e);
      assert forall x :: x in ids <==> x == ids[0] || x in ids[1..];
      if ids[0] != e {
        assert Without(ids, e) == [ids[0]] + rest;
        assert Elems([ids[0]] + rest) == {ids[0]} + Elems(rest);
      }
    }
  }

  function Charge(info: map<Id, Info>, e: Id): nat {
    if e in info then info[e].charge else 0
  }

  function ChargesFrom(info: map<Id, Info>, ids: seq<Id>, i: nat): nat
    requires i <= |ids|
    decreases |ids| - i
  {
    if i == |ids| then 0 else Charge(info, ids[i]) + ChargesFrom(info, ids, i + 1)
  }

  function Charges(info: map<Id, Info>, ids: seq<Id>): nat {
    ChargesFrom(info, ids, 0)
  }

  lemma {:induction false} ChargesSuffix(info: map<Id, Info>, info': map<Id, Info>, a: seq<Id>, i: nat, b: seq<Id>,
                                         j: nat)
    requires i <= |a| && j <= |b| && a[i..] == b[j..]
    requires forall e | e in a[i..] :: Charge(info, e) == Charge(info', e)
    ensures ChargesFrom(info, a, i) == ChargesFrom(info', b, j)
    decreases |a| - i
  {
    assert |a| - i == |a[i..]| == |b[j..]| == |b| - j;
    if i < |a| {
      assert a[i] == a[i..][0] == b[j..][0] == b[j];
      assert a[i + 1..] == a[i..][1..] == b[j..][1..] == b[j + 1..];
      ChargesSuffix(info, info', a, i + 1, b, j + 1);
    }
  }

  lemma ChargesCons(info: map<Id, Info>, ids: seq<Id>)
    requires ids != []
    ensures Charges(info, ids) == Charge(info, ids[0]) + Charges(info, ids[1..])
  {
    ChargesSuffix(info, info, ids, 1, ids[1..], 0);
  }

  lemma {:induction false} ChargesAppend(info: map<Id, Info>, ids: seq<Id>, e: Id)
    ensures Charges(info, ids + [e]) == Charges(info, ids) + Charge(info, e)
    decreases |ids|
  {
    ChargesCons(info, ids + [e]);
    if ids == [] {
      assert (ids + [e])[1..] == [];
    } else {
      assert (ids + [e])[1..] == ids[1..] + [e];
      ChargesCons(info, ids);
      ChargesAppend(info, ids[1..], e);
    }
  }

  lemma {:induction false} ChargesWithout(info: map<Id, Info>, ids: seq<Id>, e: Id)
    requires e in ids
    ensures Charges(info, Without(ids, e)) == Charges(info, ids) - Charge(info, e)
  {
    ChargesCons(info, ids);
    if ids[0] != e {
      assert Without(ids, e)[1..] == Without(ids[1..], e);
      ChargesCons(info, Without(ids, e));
      ChargesWithout(info, ids[1..], e);
    }
  }

  lemma ChargesSame(info: map<Id, Info>, info': map<Id, Info>, ids: seq<Id>)
    requires forall e | e in ids :: e in info && e in info' && info[e] == info'[e]
    ensures Charges(info, ids) == Charges(info', ids)
  {
    ChargesSuffix(info, info', ids, 0, ids, 0);
  }

  // ----- the parts of the invariant -----

  /** A cached handle that only the cache refers to is on the LRU list, one that clients hold is on the in-use list. */
  ghost predicate Lists(refs: map<Id, nat>, cached: set<Id>, lru: seq<Id>, inUse: seq<Id>) {
    && Distinct(lru) && Distinct(inUse)
    && (forall e | e in cached :: e in refs)
    && (forall e :: e in lru <==> e in cached && refs[e] == 1)
    && (forall e :: e in inUse <==> e in cached && refs[e] >= 2)
  }

  /** A handle counts its clients and the cache, and lives as long as there is one. */
  ghost predicate Counts(refs: map<Id, nat>, cached: set<Id>, held: multiset<Id>) {
    && (forall e | e in refs :: refs[e] >= 1 && refs[e] == held[e] + (if e in cached then 1 else 0))
    && (forall e | held[e] > 0 :: e in refs)
  }

  /** The table has exactly the cached handles, under their names. */
  ghost predicate Agrees(info: map<Id, Info>, cached: set<Id>, view: map<Name, Id>) {
    && (forall e | e in cached :: e in info && info[e].name in view && view[info[e].name] == e)
    && (forall n | n in view :: view[n] in cached && view[n] in info && info[view[n]].name == n)
  }

  /** Every handle ever made is alive or has been deleted, once. */
  ghost predicate Lives(info: map<Id, Info>, refs: map<Id, nat>, deleted: seq<Id>, made: nat) {
    && Distinct(deleted)
    && (forall e: Id :: e in info <==> e < made)
    && (forall e: Id :: e < made <==> e in refs || e in deleted)
    && (forall e | e in refs :: e !in deleted)
  }

  ghost predicate IsSuffix(a: seq<Id>, b: seq<Id>) {
    |a| <= |b| && a == b[|b| - |a|..]
  }

  /** The oldest handles of `lru` are deleted, oldest first, down to `lru'`, and none of them without need: before the
      last of them went, usage was over the limit. */
  ghost predicate OldestEvicted(info: map<Id, Info>, lru: seq<Id>, lru': seq<Id>, deleted: seq<Id>, deleted': seq<Id>,
                                usage: nat, limit: nat)
  {
    && IsSuffix(lru', lru)
    && var k := |lru| - |lru'|;
       deleted' == deleted + lru[..k] && (k > 0 ==> usage + Charge(info, lru[k - 1]) > limit)
  }

  /** The list without the handle that has been replaced, if one has. */
  function Dropping(ids: seq<Id>, was: Option<Id>): seq<Id> {
    match was
    case None => ids
    case Some(x) => Without(ids, x)
  }

  lemma {:induction false} WithoutAppend(ids: seq<Id>, x: Id, e: Id)
    requires x != e
    ensures Without(ids + [e], x) == Without(ids, x) + [e]
  {
    if ids == [] {
      assert Without([e], x) == [e];
    } else {
      assert (ids + [e])[1..] == ids[1..] + [e];
      WithoutAppend(ids[1..], x, e);
    }
  }

  /** All but the table. */
  datatype Core = Core(info: map<Id, Info>, refs: map<Id, nat>, cached: set<Id>, lru: seq<Id>, inUse: seq<Id>,
                       held: multiset<Id>, usage: nat, deleted: seq<Id>, made: nat)

  ghost predicate CoreInv(c: Core) {
    && Lists(c.refs, c.cached, c.lru, c.inUse) && Counts(c.refs, c.cached, c.held)
       && Lives(c.info, c.refs, c.deleted, c.made)
    && c.usage == Charges(c.info, c.lru) + Charges(c.info, c.inUse)
  }

  lemma EmptyCore(c: Core)
    requires c == Core(map[], map[], {}, [], [], multiset{}, 0, [], 0)
    ensures CoreInv(c)
  {
  }

  /** The oldest handle of the LRU list has been deleted. */
  ghost predicate OldestGone(c: Core, c': Core) {
    && c.lru != [] && c'.lru == c.lru[1..] && c'.inUse == c.inUse && c'.deleted == c.deleted + [c.lru[0]]
    && c'.info == c.info && c'.held == c.held && c'.made == c.made && c'.usage + Charge(c.info, c.lru[0]) == c.usage
  }

  ghost predicate Evicted(c: Core, c': Core, limit: nat) {
    && c'.inUse == c.inUse && c'.info == c.info && c'.held == c.held && c'.made == c.made
    && OldestEvicted(c.info, c.lru, c'.lru, c.deleted, c'.deleted, c'.usage, limit)
  }

  lemma NoneEvicted(c: Core, limit: nat)
    ensures Evicted(c, c, limit)
  {
    assert c.lru[..0] == [] && c.deleted + [] == c.deleted;
  }

  lemma OneMoreEvicted(c: Core, c': Core, c'': Core, limit: nat)
    requires Evicted(c, c', limit) && c'.usage > limit && OldestGone(c', c'')
    ensures Evicted(c, c'', limit)
  {
    var lru := c.lru;
    var k := |lru| - |c'.lru|;
    assert c'.lru[0] == lru[k] && lru[..k + 1] == lru[..k] + [lru[k]];
    assert c'.lru[1..] == lru[k + 1..];
    assert c.deleted + lru[..k + 1] == c'.deleted + [lru[k]];
  }

  /** A handle on the LRU list moves to the in-use list when it gets a reference. */
  function ReffedCore(c: Core, e: Id): Core
    requires e in c.refs
  {
    var moves := c.refs[e] == 1 && e in c.cached;
    c.(refs := c.refs[e := c.refs[e] + 1], held := c.held + multiset{e},
       lru := if moves then Without(c.lru, e) else c.lru, inUse := if moves then c.inUse + [e] else c.inUse)
  }

  lemma RefLists(c: Core, e: Id)
    requires Lists(c.refs, c.cached, c.lru, c.inUse) && e in c.refs && c.refs[e] >= 1
    ensures var c' := ReffedCore(c, e);
            Lists(c'.refs, c'.cached, c'.lru, c'.inUse) && c'.lru == Without(c.lru, e)
  {
    WithoutMembers(c.lru, e);
    if c.refs[e] == 1 && e in c.cached { DistinctAppend(c.inUse, e); }
  }

  lemma RefUsage(c: Core, e: Id)
    requires Lists(c.refs, c.cached, c.lru, c.inUse) && e in c.refs && c.refs[e] >= 1
    requires c.usage == Charges(c.info, c.lru) + Charges(c.info, c.inUse)
    ensures var c' := ReffedCore(c, e); c'.usage == Charges(c'.info, c'.lru) + Charges(c'.info, c'.inUse)
  {
    if c.refs[e] == 1 && e in c.cached {
      ChargesWithout(c.info, c.lru, e);
      ChargesAppend(c.info, c.inUse, e);
    }
  }

  lemma RefCounts(refs: map<Id, nat>, cached: set<Id>, held: multiset<Id>, e: Id)
    requires Counts(refs, cached, held) && e in refs
    ensures Counts(refs[e := refs[e] + 1], cached, held + multiset{e})
  {
  }

  lemma RefLives(info: map<Id, Info>, refs: map<Id, nat>, deleted: seq<Id>, made: nat, e: Id, n: nat)
    requires Lives(info, refs, deleted, made) && e in refs
    ensures Lives(info, refs[e := n], deleted, made)
    ensures Lives(info, refs - {e}, deleted + [e], made)
  {
    DistinctAppend(deleted, e);
  }

  lemma RefRest(c: Core, e: Id)
    requires Counts(c.refs, c.cached, c.held) && Lives(c.info, c.refs, c.deleted, c.made) && e in c.refs
    ensures var c' := ReffedCore(c, e);
            Counts(c'.refs, c'.cached, c'.held) && Lives(c'.info, c'.refs, c'.deleted, c'.made)
  {
    RefCounts(c.refs, c.cached, c.held, e);
    RefLives(c.info, c.refs, c.deleted, c.made, e, c.refs[e] + 1);
  }

  lemma RefKeepsCore(c: Core, e: Id)
    requires CoreInv(c) && e in c.refs
    ensures CoreInv(ReffedCore(c, e)) && ReffedCore(c, e).lru == Without(c.lru, e)
  {
    assert c.refs[e] >= 1;
    RefLists(c, e);
    RefUsage(c, e);
    RefRest(c, e);
  }

  /** Without its last reference a handle is deleted; with only the cache's left it becomes the newest of the LRU
      list. */
  function UnreffedCore(c: Core, e: Id): Core
    requires e in c.refs && c.refs[e] > 0
  {
    if c.refs[e] == 1 then c.(refs := c.refs - {e}, deleted := c.deleted + [e])
    else if e in c.cached && c.refs[e] == 2 then
      c.(refs := c.refs[e := 1], inUse := Without(c.inUse, e), lru := c.lru + [e])
    else c.(refs := c.refs[e := c.refs[e] - 1])
  }

  function ReleasedCore(c: Core, e: Id): Core
    requires e in c.refs && c.refs[e] > 0
  {
    UnreffedCore(c.(held := c.held - multiset{e}), e)
  }

  lemma ReleaseLists(refs: map<Id, nat>, cached: set<Id>, lru: seq<Id>, inUse: seq<Id>, e: Id)
    requires Lists(refs, cached, lru, inUse) && e in refs
    ensures refs[e] == 2 && e in cached ==> Lists(refs[e := 1], cached, lru + [e], Without(inUse, e))
    ensures refs[e] >= 3 || (refs[e] == 2 && e !in cached) ==> Lists(refs[e := refs[e] - 1], cached, lru, inUse)
    ensures e !in cached ==> Lists(refs - {e}, cached, lru, inUse)
  {
    WithoutMembers(inUse, e);
    if e !in lru { DistinctAppend(lru, e); }
  }

  lemma ReleaseCounts(refs: map<Id, nat>, cached: set<Id>, held: multiset<Id>, e: Id)
    requires Counts(refs, cached, held) && e in held
    ensures e in refs && (refs[e] == 1 ==> e !in cached && Counts(refs - {e}, cached, held - multiset{e}))
    ensures refs[e] > 1 ==> Counts(refs[e := refs[e] - 1], cached, held - multiset{e})
  {
  }

  lemma ReleasedLists(c: Core, e: Id)
    requires Lists(c.refs, c.cached, c.lru, c.inUse) && e in c.refs && c.refs[e] > 0
             && (c.refs[e] == 1 ==> e !in c.cached)
    ensures var c' := ReleasedCore(c, e); Lists(c'.refs, c'.cached, c'.lru, c'.inUse)
  {
    ReleaseLists(c.refs, c.cached, c.lru, c.inUse, e);
  }

  lemma ReleasedCounts(c: Core, e: Id)
    requires Counts(c.refs, c.cached, c.held) && Lives(c.info, c.refs, c.deleted, c.made) && e in c.held
    ensures e in c.refs && c.refs[e] > 0 && (c.refs[e] == 1 ==> e !in c.cached)
    ensures var c' := ReleasedCore(c, e);
            Counts(c'.refs, c'.cached, c'.held) && Lives(c'.info, c'.refs, c'.deleted, c'.made)
  {
    ReleaseCounts(c.refs, c.cached, c.held, e);
    RefLives(c.info, c.refs, c.deleted, c.made, e, c.refs[e] - 1);
  }

  lemma ReleasedUsage(c: Core, e: Id)
    requires Lists(c.refs, c.cached, c.lru, c.inUse) && e in c.refs && c.refs[e] > 0
    requires c.usage == Charges(c.info, c.lru) + Charges(c.info, c.inUse)
    ensures var c' := ReleasedCore(c, e); c'.usage == Charges(c'.info, c'.lru) + Charges(c'.info, c'.inUse)
  {
    if e in c.cached && c.refs[e] == 2 {
      ChargesWithout(c.info, c.inUse, e);
      ChargesAppend(c.info, c.lru, e);
    }
  }

  lemma ReleaseKeepsCore(c: Core, e: Id)
    requires CoreInv(c) && e in c.held
    ensures e in c.refs && c.refs[e] > 0 && CoreInv(ReleasedCore(c, e))
  {
    ReleasedCounts(c, e);
    ReleasedLists(c, e);
    ReleasedUsage(c, e);
  }

  /** The cache unlinks a handle and gives up its reference. */
  function ErasedCore(c: Core, e: Id): Core
    requires e in c.refs && c.refs[e] > 0 && c.usage >= Charge(c.info, e)
  {
    UnreffedCore(UnlinkedCore(c, e), e)
  }

  function UnlinkedCore(c: Core, e: Id): Core
    requires c.usage >= Charge(c.info, e)
  {
    c.(cached := c.cached - {e}, lru := Without(c.lru, e), inUse := Without(c.inUse, e),
        usage := c.usage - Charge(c.info, e))
  }

  lemma EraseLists(refs: map<Id, nat>, cached: set<Id>, lru: seq<Id>, inUse: seq<Id>, e: Id)
    requires Lists(refs, cached, lru, inUse) && e in cached && refs[e] >= 1
    ensures Lists(if refs[e] == 1 then refs - {e} else refs[e := refs[e] - 1],
                  cached - {e}, Without(lru, e), Without(inUse, e))
  {
    WithoutMembers(lru, e);
    WithoutMembers(inUse, e);
  }

  lemma EraseCounts(refs: map<Id, nat>, cached: set<Id>, held: multiset<Id>, e: Id)
    requires Counts(refs, cached, held) && e in cached && e in refs
    ensures Counts(if refs[e] == 1 then refs - {e} else refs[e := refs[e] - 1], cached - {e}, held)
    ensures refs[e] > 0 && (refs[e] == 1 <==> held[e] == 0)
  {
  }

  lemma EraseKeepsCore(c: Core, e: Id)
    requires CoreInv(c) && e in c.cached
    ensures e in c.refs && c.refs[e] > 0 && c.usage >= Charge(c.info, e) && CoreInv(ErasedCore(c, e))
    ensures c.refs[e] == 1 <==> c.held[e] == 0
  {
    EraseCounts(c.refs, c.cached, c.held, e);
    EraseLists(c.refs, c.cached, c.lru, c.inUse, e);
    RefLives(c.info, c.refs, c.deleted, c.made, e, c.refs[e] - 1);
    if e in c.lru { ChargesWithout(c.info, c.lru, e); } else { ChargesWithout(c.info, c.inUse, e); }
  }

  class LRUCache {
    const capacity: nat
    const table: HandleTable
    var usage: nat
    var lru: seq<Id>            // lru_, oldest first
    var inUse: seq<Id>          // in_use_
    var info: map<Id, Info>     // the handles: key, hash and charge
    var refs: map<Id, nat>      // of the handles that have not been freed
    var cached: set<Id>         // in_cache
    var deleted: seq<Id>        // deleter calls
    var made: nat
    ghost var held: multiset<Id>  // the references that clients have and owe a Release for

    ghost function State(): Core
      reads this
    {
      Core(info, refs, cached, lru, inUse, held, usage, deleted, made)
    }

    ghost predicate Inv()
      reads this, table
    {
      table.Valid() && CoreInv(State()) && Agrees(info, cached, table.view)
    }

    constructor (capacity: nat)
      ensures Inv() && this.capacity == capacity && fresh(table) && table.view == map[] && held == multiset{}
              && made == 0
    {
      this.capacity := capacity;
      var t := new HandleTable();
      table := t;
      usage, lru, inUse, info, refs, cached, deleted, made, held := 0, [], [], map[], map[], {}, [], 0, multiset{};
      new;
      assert table == t && t.view == map[] && t.Valid();
      assert Agrees(info, cached, map[]);
      EmptyCore(State());
    }

    /** Ref, for a client. */
    method Ref(e: Id)
      requires e in refs
      modifies this`lru, this`inUse, this`refs, this`held
      ensures State() == ReffedCore(old(State()), e)
    {
      if refs[e] == 1 && e in cached {
        lru := Without(lru, e);
        inUse := inUse + [e];
      }
      refs := refs[e := refs[e] + 1];
      held := held + multiset{e};
    }

    method Unref(e: Id)
      requires e in refs && refs[e] > 0
      modifies this`lru, this`inUse, this`refs, this`deleted
      ensures State() == UnreffedCore(old(State()), e)
    {
      if refs[e] == 1 {
        deleted := deleted + [e];
        refs := refs - {e};
      } else {
        refs := refs[e := refs[e] - 1];
        if e in cached && refs[e] == 1 {
          inUse := Without(inUse, e);
          lru := lru + [e];
        }
      }
    }

    /** FinishErase of a handle that is no longer in the table: the cache gives up its reference. */
    method FinishErase(e: Id)
      requires e in refs && refs[e] > 0 && usage >= Charge(info, e)
      modifies this`lru, this`inUse, this`refs, this`cached, this`deleted, this`usage
      ensures State() == ErasedCore(old(State()), e)
    {
      Unlink(e);
      Unref(e);
    }

    /** The handle leaves both lists and the usage count. */
    method Unlink(e: Id)
      requires usage >= Charge(info, e)
      modifies this`lru, this`inUse, this`cached, this`usage
      ensures State() == UnlinkedCore(old(State()), e)
    {
      lru, inUse := Without(lru, e), Without(inUse, e);
      cached := cached - {e};
      usage := usage - Charge(info, e);
    }

    /** Lookup: a new reference to the handle under the name, if there is one. */
    method Lookup(n: Name) returns (r: Option<Id>)
      requires Inv()
      modifies this`lru, this`inUse, this`refs, this`held
      ensures Inv() && r == if n in table.view then Some(table.view[n]) else None
      ensures r.Some? ==> r.value in old(refs) && State() == ReffedCore(old(State()), r.value)
      ensures r.None? ==> State() == old(State())
    {
      r := table.Lookup(n);
      if r.Some? {
        RefKeepsCore(State(), r.value);
        Ref(r.value);
      }
    }

    /** Release: Unref of a reference that a client has. */
    method Release(e: Id)
      requires Inv() && e in held
      modifies this`lru, this`inUse, this`refs, this`held, this`deleted
      ensures Inv() && e in old(refs) && old(refs)[e] > 0 && State() == ReleasedCore(old(State()), e)
    {
      ReleaseKeepsCore(State(), e);
      GiveUp(e);
    }

    /** Unref on behalf of a client. */
    method GiveUp(e: Id)
      requires e in refs && refs[e] > 0
      modifies this`lru, this`inUse, this`refs, this`held, this`deleted
      ensures State() == ReleasedCore(old(State()), e)
    {
      held := held - multiset{e};
      Unref(e);
    }

    /** Takes a name out of the table and its handle out of the lists. */
    method Erase(n: Name) returns (found: bool)
      requires Inv()
      modifies this`lru, this`inUse, this`refs, this`cached, this`deleted, this`usage, table
      ensures Inv() && found == (n in old(table.view)) && table.view == old(table.view) - {n}
      ensures !found ==> State() == old(State())
      ensures found ==>
                CanErase(old(State()), old(table.view)[n]) && State() == ErasedCore(old(State()), old(table.view)[n])
    {
      AgreesLess(info, cached, table.view, n);
      var e := table.Remove(n);
      found := e.Some?;
      if found {
        EraseKeepsCore(State(), e.value);
        FinishErase(e.value);
      }
    }

    /** Erases the oldest handle of the LRU list, which deletes it. */
    method EvictOldest()
      requires Inv() && lru != []
      modifies this`lru, this`inUse, this`refs, this`cached, this`deleted, this`usage, table
      ensures Inv() && OldestGone(old(State()), State()) && SubMap(table.view, old(table.view))
    {
      OldestIsCached(State(), table.view);
      ErasedOldest(State());
      var found := Erase(info[lru[0]].name);
    }

    /** Evicts the oldest handles until the rest fits, or none is left that no client holds. */
    method Evict(limit: nat)
      requires Inv()
      modifies this`lru, this`inUse, this`refs, this`cached, this`deleted, this`usage, table
      ensures Inv() && (usage <= limit || lru == []) && Evicted(old(State()), State(), limit)
      ensures SubMap(table.view, old(table.view)) && SameUnder(inUse, info, old(table.view), table.view)
    {
      ghost var c := State();
      NoneEvicted(c, limit);
      while usage > limit && lru != []
        invariant Inv() && Evicted(c, State(), limit)
        invariant SubMap(table.view, old(table.view))
        decreases |lru|
      {
        ghost var before := State();
        EvictOldest();
        OneMoreEvicted(c, before, State(), limit);
      }
      InUseStays(State(), old(table.view), table.view);
    }

    method Link(e: Id)
      modifies this`inUse, this`refs, this`cached, this`usage
      ensures State() == LinkedCore(old(State()), e)
    {
      refs := refs[e := 2];
      cached := cached + {e};
      inUse := inUse + [e];
      usage := usage + Charge(info, e);
    }

    /** Links a new handle into the cache, in place of the one that had its name. */
    method AddToCache(e: Id)
      requires Inv() && e in refs && refs[e] == 1 && e !in cached && e in info
      modifies this`lru, this`inUse, this`refs, this`cached, this`deleted, this`usage, table
      ensures Inv() && table.view == old(table.view)[info[e].name := e]
      ensures Added(old(State()), State(), e, Under(old(table.view), info[e].name))
    {
      AgreesUnder(State(), table.view, info[e].name);
      AddedLists(State(), e, Under(table.view, info[e].name));
      AgreesMore(info, cached, table.view, e);
      LinkKeepsCore(State(), e);
      Link(e);
      var was := table.Insert(info[e].name, e);
      Displace(was);
    }

    /** FinishErase of the handle that had the name, if there was one. */
    method Displace(was: Option<Id>)
      requires CoreInv(State()) && (was.Some? ==> was.value in cached)
      modifies this`lru, this`inUse, this`refs, this`cached, this`deleted, this`usage
      ensures CoreInv(State())
      ensures if was.Some? then CanErase(old(State()), was.value) && State() == ErasedCore(old(State()), was.value)
              else State() == old(State())
      ensures cached == old(cached) - (if was.Some? then {was.value} else {})
    {
      if was.Some? {
        EraseKeepsCore(State(), was.value);
        FinishErase(was.value);
      }
    }

    /** Insert: a handle that its client must release.  A capacity of zero turns caching off. */
    method Insert(n: Name, charge: nat) returns (e: Id)
      requires Inv()
      modifies this, table
      ensures Inv() && e == old(made)
      ensures capacity > 0 ==> n in table.view && table.view[n] == e
      ensures SubMap(table.view - {n}, old(table.view))
      ensures InsertResult(old(State()), State(), n, charge,
                       if capacity > 0 then Under(old(table.view), n) else None, capacity)
    {
      e := MakeAndLink(n, charge);
      ghost var a := State();
      Evict(capacity);
      PreparedResult(old(State()), a, State(), n, charge,
                     if capacity > 0 then Under(old(table.view), n) else None, capacity);
    }

    /** Insert up to the evictions. */
    method MakeAndLink(n: Name, charge: nat) returns (e: Id)
      requires Inv()
      modifies this, table
      ensures Inv() && e == old(made)
      ensures table.view == if capacity > 0 then old(table.view)[n := e] else old(table.view)
      ensures capacity > 0 ==> e in inUse && e in info && info[e].name == n
      ensures Prepared(old(State()), State(), n, charge,
                       if capacity > 0 then Under(old(table.view), n) else None, capacity)
    {
      AgreesUnder(State(), table.view, n);
      e := MakeHandle(n, charge);
      ghost var m := State();
      if capacity > 0 {
        AddToCache(e);
        PreparedLinked(old(State()), m, State(), n, charge, Under(old(table.view), n), capacity);
      } else {
        PreparedUnlinked(old(State()), n, charge);
      }
    }

    method MakeHandle(n: Name, charge: nat) returns (e: Id)
      requires Inv()
      modifies this`info, this`refs, this`held, this`made
      ensures Inv() && e == old(made) && State() == MadeCore(old(State()), n, charge)
      ensures e in refs && refs[e] == 1 && e !in cached && e in info && info[e].name == n
    {
      MadeKeepsCore(State(), n, charge);
      e := Allocate(n, charge);
      AgreesWithNew(old(info), cached, table.view, e, info);
    }

    method Allocate(n: Name, charge: nat) returns (e: Id)
      modifies this`info, this`refs, this`held, this`made
      ensures e == old(made) && State() == MadeCore(old(State()), n, charge)
    {
      e := made;
      info := info[e := Info(n, charge)];
      refs := refs[e := 1];
      held := held + multiset{e};
      made := made + 1;
    }

    /** Prune: evicts everything that no client holds. */
    method Prune()
      requires Inv()
      modifies this`lru, this`inUse, this`refs, this`cached, this`deleted, this`usage, table
      ensures Inv() && lru == [] && inUse == old(inUse) && deleted == old(deleted) + old(lru)
    {
      ghost var c := State();
      NonePruned(c);
      while lru != []
        invariant Inv() && Pruned(c, State())
        decreases |lru|
      {
        PruneNext(c);
      }
      AllPruned(c, State());
    }

    method PruneNext(ghost c: Core)
      requires Inv() && Pruned(c, State()) && lru != []
      modifies this`lru, this`inUse, this`refs, this`cached, this`deleted, this`usage, table
      ensures Inv() && Pruned(c, State()) && |lru| < |old(lru)|
    {
      ghost var before := State();
      EvictOldest();
      PruneOne(c, before, State());
    }
  }

  // ----- Prune -----

  /** The oldest handles of c have been deleted, oldest first. */
  ghost predicate Pruned(c: Core, c': Core) {
    && IsSuffix(c'.lru, c.lru) && c'.inUse == c.inUse
    && c'.deleted == c.deleted + c.lru[..|c.lru| - |c'.lru|]
  }

  lemma NonePruned(c: Core)
    ensures Pruned(c, c)
  {
    var none := |c.lru| - |c.lru|;
    assert c.lru[..none] == [] && c.lru[none..] == c.lru && c.deleted + [] == c.deleted;
  }

  lemma AllPruned(c: Core, c': Core)
    requires Pruned(c, c') && c'.lru == []
    ensures c'.inUse == c.inUse && c'.deleted == c.deleted + c.lru
  {
    assert c.lru[..|c.lru|] == c.lru;
  }

  lemma PruneOne(c: Core, c': Core, c'': Core)
    requires Pruned(c, c') && OldestGone(c', c'')
    ensures Pruned(c, c'') && |c''.lru| < |c'.lru|
  {
    var n := |c.lru| - |c'.lru|;
    assert c'.lru[0] == c.lru[n] && c'.lru[1..] == c.lru[n + 1..] && c.lru[..n + 1] == c.lru[..n] + [c.lru[n]];
    assert c'.deleted + [c'.lru[0]] == c.deleted + c.lru[..n + 1];
  }

  // ----- Insert -----

  /** A new handle, with one reference for the client. */
  function MadeCore(c: Core, n: Name, charge: nat): Core {
    c.(info := c.info[c.made := Info(n, charge)], refs := c.refs[c.made := 1], held := c.held + multiset{c.made},
       made := c.made + 1)
  }

  lemma MadeLists(refs: map<Id, nat>, cached: set<Id>, lru: seq<Id>, inUse: seq<Id>, e: Id)
    requires Lists(refs, cached, lru, inUse) && e !in refs
    ensures e !in cached && e !in lru && e !in inUse && Lists(refs[e := 1], cached, lru, inUse)
  {
  }

  lemma MadeKeepsCore(c: Core, n: Name, charge: nat)
    requires CoreInv(c)
    ensures c.made !in c.refs && c.made !in c.cached && CoreInv(MadeCore(c, n, charge))
  {
    var e, info' := c.made, c.info[c.made := Info(n, charge)];
    assert e !in c.refs;
    MadeLists(c.refs, c.cached, c.lru, c.inUse, e);
    assert Counts(c.refs[e := 1], c.cached, c.held + multiset{e});
    assert Lives(info', c.refs[e := 1], c.deleted, c.made + 1);
    MadeCharges(c.info, c.refs, c.deleted, c.made, c.lru, info');
    MadeCharges(c.info, c.refs, c.deleted, c.made, c.inUse, info');
  }

  lemma MadeCharges(info: map<Id, Info>, refs: map<Id, nat>, deleted: seq<Id>, made: nat, ids: seq<Id>,
                    info': map<Id, Info>)
    requires Lives(info, refs, deleted, made) && (forall e | e in ids :: e in refs)
    requires made in info' && info' == info[made := info'[made]]
    ensures Charges(info', ids) == Charges(info, ids)
  {
    ChargesSame(info, info', ids);
  }

  /** The cache takes a reference to a handle that a client has just got. */
  function LinkedCore(c: Core, e: Id): Core {
    c.(refs := c.refs[e := 2], cached := c.cached + {e}, inUse := c.inUse + [e], usage := c.usage + Charge(c.info, e))
  }

  lemma LinkLists(refs: map<Id, nat>, cached: set<Id>, lru: seq<Id>, inUse: seq<Id>, e: Id)
    requires Lists(refs, cached, lru, inUse) && e in refs && e !in cached
    ensures Lists(refs[e := 2], cached + {e}, lru, inUse + [e])
  {
    DistinctAppend(inUse, e);
  }

  lemma LinkKeepsCore(c: Core, e: Id)
    requires CoreInv(c) && e in c.refs && c.refs[e] == 1 && e !in c.cached
    ensures CoreInv(LinkedCore(c, e)) && c.held[e] > 0
  {
    LinkLists(c.refs, c.cached, c.lru, c.inUse, e);
    RefLives(c.info, c.refs, c.deleted, c.made, e, 2);
    assert Counts(c.refs[e := 2], c.cached + {e}, c.held);
    ChargesAppend(c.info, c.inUse, e);
  }

  lemma AgreesWithNew(info: map<Id, Info>, cached: set<Id>, view: map<Name, Id>, e: Id, info': map<Id, Info>)
    requires Agrees(info, cached, view) && e !in cached && e in info' && info' == info[e := info'[e]]
    ensures Agrees(info', cached, view)
  {
  }

  function Under(view: map<Name, Id>, n: Name): Option<Id> {
    if n in view then Some(view[n]) else None
  }

  lemma AgreesUnder(c: Core, view: map<Name, Id>, n: Name)
    requires CoreInv(c) && Agrees(c.info, c.cached, view)
    ensures Under(view, n).Some? ==> Under(view, n).value in c.cached && Under(view, n).value < c.made
  {
  }

  /** What linking a handle in the place of another does to the lists. */
  ghost predicate Added(c: Core, c': Core, e: Id, was: Option<Id>) {
    && c'.info == c.info && c'.made == c.made && c'.held == c.held
    && c'.lru == Dropping(c.lru, was) && c'.inUse == Dropping(c.inUse, was) + [e]
    && c'.deleted == c.deleted + Replaced(c.held, was)
  }

  lemma AddedLists(c: Core, e: Id, was: Option<Id>)
    requires CoreInv(c) && e in c.refs && c.refs[e] == 1 && e !in c.cached && (was.Some? ==> was.value in c.cached)
    ensures var l := LinkedCore(c, e);
            if was.Some? then CanErase(l, was.value) && Added(c, ErasedCore(l, was.value), e, was)
            else Added(c, l, e, was)
  {
    LinkKeepsCore(c, e);
    if was.Some? {
      EraseKeepsCore(LinkedCore(c, e), was.value);
      WithoutAppend(c.inUse, was.value, e);
    }
  }

  /** A replaced handle is deleted at once unless a client holds it. */
  ghost function Replaced(held: multiset<Id>, was: Option<Id>): seq<Id> {
    if was.Some? && held[was.value] == 0 then [was.value] else []
  }

  /** The new handle is made, and linked if the cache takes it; nothing has been evicted yet. */
  ghost predicate Prepared(c: Core, a: Core, n: Name, charge: nat, was: Option<Id>, capacity: nat) {
    && a.info == c.info[c.made := Info(n, charge)] && a.made == c.made + 1 && a.held == c.held + multiset{c.made}
    && a.inUse == Dropping(c.inUse, was) + (if capacity > 0 then [c.made] else [])
    && a.lru == Dropping(c.lru, was) && a.deleted == c.deleted + Replaced(c.held, was)
  }

  lemma PreparedLinked(c: Core, m: Core, a: Core, n: Name, charge: nat, was: Option<Id>, capacity: nat)
    requires m == MadeCore(c, n, charge) && Added(m, a, c.made, was) && capacity > 0
    requires was.Some? ==> was.value < c.made
    ensures Prepared(c, a, n, charge, was, capacity) && c.made in a.inUse
  {
    assert was.Some? ==> m.held[was.value] == c.held[was.value];
  }

  lemma PreparedUnlinked(c: Core, n: Name, charge: nat)
    ensures Prepared(c, MadeCore(c, n, charge), n, charge, None, 0)
  {
    assert c.deleted + [] == c.deleted && c.inUse + [] == c.inUse;
  }

  /** What Insert leaves behind, `was` being the handle it replaces. */
  ghost predicate InsertResult(c: Core, c': Core, n: Name, charge: nat, was: Option<Id>, capacity: nat) {
    && c'.info == c.info[c.made := Info(n, charge)] && c'.made == c.made + 1 && c'.held == c.held + multiset{c.made}
    && c'.inUse == Dropping(c.inUse, was) + (if capacity > 0 then [c.made] else [])
    && (c'.usage <= capacity || c'.lru == [])
    && OldestEvicted(c'.info, Dropping(c.lru, was), c'.lru, c.deleted + Replaced(c.held, was), c'.deleted,
                     c'.usage, capacity)
  }

  lemma PreparedResult(c: Core, a: Core, c': Core, n: Name, charge: nat, was: Option<Id>, capacity: nat)
    requires Prepared(c, a, n, charge, was, capacity) && Evicted(a, c', capacity)
             && (c'.usage <= capacity || c'.lru == [])
    ensures InsertResult(c, c', n, charge, was, capacity)
  {
  }

  lemma AgreesMore(info: map<Id, Info>, cached: set<Id>, view: map<Name, Id>, e: Id)
    requires Agrees(info, cached, view) && e !in cached && e in info
    ensures var n := info[e].name;
            if n in view then view[n] in cached && Agrees(info, cached + {e} - {view[n]}, view[n := e])
            else Agrees(info, cached + {e}, view[n := e])
  {
  }

  ghost predicate SubMap(a: map<Name, Id>, b: map<Name, Id>) {
    forall n | n in a :: n in b && a[n] == b[n]
  }

  /** The names of handles in use are still there. */
  ghost predicate SameUnder(ids: seq<Id>, info: map<Id, Info>, view: map<Name, Id>, view': map<Name, Id>) {
    forall e | e in ids :: e in info && Under(view', info[e].name) == Under(view, info[e].name) == Some(e)
  }

  lemma InUseStays(c: Core, view: map<Name, Id>, view': map<Name, Id>)
    requires CoreInv(c) && Agrees(c.info, c.cached, view') && SubMap(view', view)
    ensures SameUnder(c.inUse, c.info, view, view')
  {
  }

  ghost predicate CanErase(c: Core, e: Id) {
    e in c.refs && c.refs[e] > 0 && c.usage >= Charge(c.info, e)
  }

  lemma AgreesLess(info: map<Id, Info>, cached: set<Id>, view: map<Name, Id>, n: Name)
    requires Agrees(info, cached, view)
    ensures n in view ==> view[n] in cached && Agrees(info, cached - {view[n]}, view - {n})
    ensures n !in view ==> view - {n} == view
  {
  }

  lemma OldestIsCached(c: Core, view: map<Name, Id>)
    requires CoreInv(c) && Agrees(c.info, c.cached, view) && c.lru != []
    ensures c.lru[0] in c.info && c.info[c.lru[0]].name in view && view[c.info[c.lru[0]].name] == c.lru[0]
  {
    assert c.lru[0] in c.lru;
  }

  /** Erasing the oldest handle of the LRU list deletes it and touches no other. */
  lemma ErasedOldest(c: Core)
    requires CoreInv(c) && c.lru != []
    ensures CanErase(c, c.lru[0]) && c.held[c.lru[0]] == 0 && OldestGone(c, ErasedCore(c, c.lru[0]))
  {
    assert c.lru[0] in c.lru;
    EraseKeepsCore(c, c.lru[0]);
  }

  /** Once clients have released everything and the LRU list has been emptied, every handle ever made has been passed
      to its deleter, exactly once. */
  lemma EveryHandleDeletedOnce(c: Core)
    requires CoreInv(c) && c.held == multiset{} && c.lru == []
    ensures c.refs == map[] && c.usage == 0
    ensures |c.deleted| == c.made && forall e: Id :: e in c.deleted <==> e < c.made
  {
    forall e ensures e !in c.refs && e !in c.inUse { Unheld(c, e); }
    HasFirst(c.inUse);
    assert Elems(c.deleted) == Below(c.made);
  }

  /** A handle that no client holds is on the LRU list, if it is still alive. */
  lemma Unheld(c: Core, e: Id)
    requires CoreInv(c) && c.held[e] == 0
    ensures (e in c.refs ==> e in c.lru) && e !in c.inUse
  {
  }

  lemma HasFirst(ids: seq<Id>)
    ensures ids == [] || ids[0] in ids
  {
  }

  ghost function Below(n: nat): (r: set<Id>)
    ensures |r| == n && forall e: Id :: e in r <==> e < n
  {
    if n == 0 then {} else Below(n - 1) + {n - 1}
  }

  /** A handle that a client holds has not been deleted. */
  lemma HeldIsAlive(c: Core, e: Id)
    requires CoreInv(c) && e in c.held
    ensures e in c.refs && e !in c.deleted && e in c.info
  {
  }
}
