/** SkipList as its single writer sees it (db/skiplist.h): the search loops and Insert, against the set of keys. */
module SkipListOps {
  import opened SkipLists

  class SkipList {
    var links: Links
    var maxHeight: nat
    ghost var lists: Lists

    ghost predicate Valid()
      reads this
    {
      ListsInv(links, maxHeight, lists)
    }

    ghost function Keys(): set<Key>
      requires Valid()
      reads this
    {
      lists[0]
    }

    constructor ()
      ensures Valid() && Keys() == {}
    {
      links, maxHeight, lists := EmptyLinks(), 1, seq(MaxHeight, _ => {});
      new;
      EmptyInv();
    }

    /** The first node at or after the key, and at every level of the list the last node before it. */
    method FindGreaterOrEqual(key: Key) returns (next: Link, prev: map<nat, Node>)
      requires Valid()
      ensures match next
              case Null => forall k | k in Keys() :: k < key
              case To(k) => k in Keys() && key <= k && forall j | j in Keys() && key <= j :: k <= j
      ensures key !in Keys() ==> forall l: nat | l < maxHeight :: PrevAt(lists, prev, key, l)
    {
      var x, level := Head, maxHeight - 1;
      prev := map[];
      while true
        invariant 0 <= level < maxHeight && WalkInv(lists, Walk(At(key), x, level))
        invariant key !in Keys() ==>
            forall l: nat | level < l < maxHeight :: PrevAt(lists, prev, key, l)
        decreases level, |KeysAhead(lists, Walk(At(key), x, level))|
      {
        ghost var w := Walk(At(key), x, level);
        WalkStepSound(links, maxHeight, lists, w);
        WalkStepDecreases(links, maxHeight, lists, w);
        next := links[Cell(x, level)];
        assert LeadsToNext(lists[level], x, next);
        if next.To? && next.key < key {
          x := Of(next.key);
        } else {
          ghost var above := prev;
          prev := prev[level := x];
          forall l: nat | key !in Keys() && level <= l < maxHeight ensures PrevAt(lists, prev, key, l) {
            assert l > level ==> PrevAt(lists, above, key, l);
          }
          if level == 0 {
            return;
          }
          level := level - 1;
        }
      }
    }

    /** The last node before the key; the head if there is none. */
    method FindLessThan(key: Key) returns (x: Node)
      requires Valid()
      ensures match x
              case Head => forall k | k in Keys() :: key <= k
              case Of(k) => k in Keys() && k < key && forall j | j in Keys() && j < key :: j <= k
    {
      var level := maxHeight - 1;
      x := Head;
      while true
        invariant 0 <= level < maxHeight && WalkInv(lists, Walk(At(key), x, level))
        decreases level, |KeysAhead(lists, Walk(At(key), x, level))|
      {
        ghost var w := Walk(At(key), x, level);
        WalkStepSound(links, maxHeight, lists, w);
        WalkStepDecreases(links, maxHeight, lists, w);
        var next := links[Cell(x, level)];
        if next.Null? || next.key >= key {
          if level == 0 {
            return;
          }
          level := level - 1;
        } else {
          x := Of(next.key);
        }
      }
    }

    /** The last node; the head if the list is empty. */
    method FindLast() returns (x: Node)
      requires Valid()
      ensures match x
              case Head => Keys() == {}
              case Of(k) => k in Keys() && forall j | j in Keys() :: j <= k
    {
      var level := maxHeight - 1;
      x := Head;
      while true
        invariant 0 <= level < maxHeight && WalkInv(lists, Walk(Infinite, x, level))
        decreases level, |KeysAhead(lists, Walk(Infinite, x, level))|
      {
        ghost var w := Walk(Infinite, x, level);
        WalkStepSound(links, maxHeight, lists, w);
        WalkStepDecreases(links, maxHeight, lists, w);
        var next := links[Cell(x, level)];
        if next.Null? {
          if level == 0 {
            return;
          }
          level := level - 1;
        } else {
          x := Of(next.key);
        }
      }
    }

    method Contains(key: Key) returns (found: bool)
      requires Valid()
      ensures found <==> key in Keys()
    {
      var x, _ := FindGreaterOrEqual(key);
      found := x.To? && x.key == key;
    }

    /** `height` is what RandomHeight returned: the key goes into that many levels. */
    method Insert(key: Key, height: nat)
      requires Valid() && key !in Keys() && 1 <= height <= MaxHeight
      modifies this
      ensures Valid() && Keys() == old(Keys()) + {key}
      ensures maxHeight == if height > old(maxHeight) then height else old(maxHeight)
      ensures forall l | 0 <= l < MaxHeight :: lists[l] == if l < height then old(lists[l]) + {key} else old(lists[l])
    {
      var _, prev: map<nat, Node> := FindGreaterOrEqual(key);
      if height > maxHeight {
        for i := maxHeight to height
          invariant forall l: nat | l < i :: PrevAt(lists, prev, key, l)
        {
          ghost var below := prev;
          prev := prev[i := Head];
          forall l: nat | l <= i ensures PrevAt(lists, prev, key, l) {
            assert l < i ==> PrevAt(lists, below, key, l);
          }
        }
        RaiseKeepsInv(links, maxHeight, lists, height);
        maxHeight := height;
      }
      assert forall l | 0 <= l < MaxHeight :: lists[l] <= lists[0];
      Link(key, height, prev);
    }

    /** The stores of Insert, from the lowest level up. */
    method Link(key: Key, height: nat, prev: map<nat, Node>)
      requires Valid() && 1 <= height <= maxHeight
      requires forall l | 0 <= l < MaxHeight :: key !in lists[l]
      requires forall l: nat | l < height :: PrevAt(lists, prev, key, l)
      modifies this`links, this`lists
      ensures Valid()
      ensures forall l | 0 <= l < MaxHeight :: lists[l] == if l < height then old(lists[l]) + {key} else old(lists[l])
    {
      for i := 0 to height
        invariant Valid()
        invariant forall l | 0 <= l < MaxHeight :: lists[l] == if l < i then old(lists[l]) + {key} else old(lists[l])
        invariant forall l: nat | i <= l < height :: PrevAt(lists, prev, key, l)
      {
        assert PrevAt(lists, prev, key, i);
        OwnStoreKeepsInv(links, maxHeight, lists, key, i, links[Cell(prev[i], i)]);
        links := links[Cell(Of(key), i) := links[Cell(prev[i], i)]];
        PublishKeepsInv(links, maxHeight, lists, prev[i], key, i);
        links := links[Cell(prev[i], i) := To(key)];
        ghost var before := lists;
        lists := lists[i := lists[i] + {key}];
        forall l: nat | i < l < height ensures PrevAt(lists, prev, key, l) {
          assert PrevAt(before, prev, key, l);
        }
      }
    }
  }
}
