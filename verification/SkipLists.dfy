/** The skip list of db/skiplist.h.  Nodes never move and are never removed; each link of a node is one atomic cell.
    This module holds the invariant that ties the cells to twelve sets of keys, one for each level, and the effect
    of one store on it. */
module SkipLists {
  const MaxHeight: nat := 12

  /** Keys are only compared.  A run of the list meets finitely many of them, and any finite total order embeds in the
      integers, so nothing is lost by an order in which some keys have nothing between them. */
  type Key = int

  /** The head sorts before every key; any other node is known by its key, as keys are never inserted twice. */
  datatype Node = Head | Of(key: Key)

  /** The contents of a link: the null pointer or a node. */
  datatype Link = Null | To(key: Key)

  datatype Cell = Cell(node: Node, level: nat)

  /** A cell outside the map has not been stored to. */
  type Links = map<Cell, Link>

  type Lists = seq<set<Key>>

  predicate Before(n: Node, k: Key) {
    n.Head? || n.key < k
  }

  ghost predicate On(lists: Lists, n: Node, level: nat)
    requires level < |lists|
  {
    n.Head? || n.key in lists[level]
  }

  /** `l` leads from `n` to the first of `keys` after it. */
  ghost predicate LeadsToNext(keys: set<Key>, n: Node, l: Link) {
    match l
    case Null => forall k | k in keys :: !Before(n, k)
    case To(next) => next in keys && Before(n, next) && forall k | k in keys && Before(n, k) :: next <= k
  }

  /** At every level the links run through the keys of that level in order; every level is a sublist of the one
      below; levels above the height of the list are empty. */
  ghost predicate ListsInv(links: Links, height: nat, lists: Lists) {
    && |lists| == MaxHeight && 1 <= height <= MaxHeight
    && (forall i | height <= i < MaxHeight :: lists[i] == {})
    && (forall i, j | 0 <= i <= j < MaxHeight :: lists[j] <= lists[i])
    && forall i: nat, n: Node | i < MaxHeight && On(lists, n, i) ::
         Cell(n, i) in links && LeadsToNext(lists[i], n, links[Cell(n, i)])
  }

  /** `p` is where `key` belongs among `keys`. */
  ghost predicate Gap(keys: set<Key>, p: Node, key: Key) {
    Before(p, key) && forall k | k in keys && Before(p, k) :: key < k
  }

  /** prev[l] is where the key belongs on level l. */
  ghost predicate PrevAt(lists: Lists, prev: map<nat, Node>, key: Key, l: nat)
    requires |lists| == MaxHeight
  {
    l < MaxHeight && l in prev && On(lists, prev[l], l) && Gap(lists[l], prev[l], key)
  }

  function EmptyLinks(): Links {
    map i | 0 <= i < MaxHeight :: Cell(Head, i) := Null
  }

  lemma EmptyInv()
    ensures ListsInv(EmptyLinks(), 1, seq(MaxHeight, _ => {}))
  {
    var lists: Lists := seq(MaxHeight, _ => {});
    forall i: nat, n: Node | i < MaxHeight && On(lists, n, i)
      ensures Cell(n, i) in EmptyLinks() && LeadsToNext(lists[i], n, EmptyLinks()[Cell(n, i)])
    {
    }
  }

  /** Storing into a link of a node that is not on that level disturbs nothing. */
  lemma OwnStoreKeepsInv(links: Links, height: nat, lists: Lists, key: Key, i: nat, l: Link)
    requires ListsInv(links, height, lists) && i < MaxHeight && key !in lists[i]
    ensures ListsInv(links[Cell(Of(key), i) := l], height, lists)
  {
  }

  lemma RaiseKeepsInv(links: Links, height: nat, lists: Lists, height': nat)
    requires ListsInv(links, height, lists) && height <= height' <= MaxHeight
    ensures ListsInv(links, height', lists)
  {
  }

  /** The store that publishes a node on a level. */
  lemma PublishKeepsInv(links: Links, height: nat, lists: Lists, p: Node, key: Key, i: nat)
    requires ListsInv(links, height, lists) && i < height && On(lists, p, i) && Gap(lists[i], p, key)
    requires key !in lists[i] && (forall j | 0 <= j < i :: key in lists[j])
    requires Cell(Of(key), i) in links && links[Cell(Of(key), i)] == links[Cell(p, i)]
    ensures ListsInv(links[Cell(p, i) := To(key)], height, lists[i := lists[i] + {key}])
  {
    var links', lists' := links[Cell(p, i) := To(key)], lists[i := lists[i] + {key}];
    forall j: nat, n: Node | j < MaxHeight && On(lists', n, j)
      ensures Cell(n, j) in links' && LeadsToNext(lists'[j], n, links'[Cell(n, j)])
    {
      if j != i {
        assert On(lists, n, j);
      } else {
        PublishedLinks(links, lists[i], p, key, i, n);
      }
    }
  }

  lemma PublishedLinks(links: Links, keys: set<Key>, p: Node, key: Key, i: nat, n: Node)
    requires forall m: Node | m.Head? || m.key in keys :: Cell(m, i) in links && LeadsToNext(keys, m, links[Cell(m, i)])
    requires (p.Head? || p.key in keys) && Gap(keys, p, key) && key !in keys
    requires Cell(Of(key), i) in links && links[Cell(Of(key), i)] == links[Cell(p, i)]
    requires n.Head? || n.key in keys + {key}
    ensures var links' := links[Cell(p, i) := To(key)];
            Cell(n, i) in links' && LeadsToNext(keys + {key}, n, links'[Cell(n, i)])
  {
    if n == Of(key) {
      assert LeadsToNext(keys, p, links[Cell(p, i)]);
    } else if n != p {
      assert LeadsToNext(keys, n, links[Cell(n, i)]);
    }
  }

  // ----- a search -----

  /** What a search looks for: the first key not below the bound.  FindLast has no bound. */
  datatype Bound = At(key: Key) | Infinite

  predicate Below(k: Key, b: Bound) {
    b.At? ==> k < b.key
  }

  predicate NodeBelow(n: Node, b: Bound) {
    n.Of? ==> Below(n.key, b)
  }

  /** FindGreaterOrEqual, FindLessThan and FindLast share one walk: right while the next key is below the bound,
      else down.  `x` and `level` are its local variables. */
  datatype Walk = Walk(bound: Bound, x: Node, level: nat)

  ghost predicate WalkInv(lists: Lists, w: Walk) {
    |lists| == MaxHeight && w.level < MaxHeight && On(lists, w.x, w.level) && NodeBelow(w.x, w.bound)
  }

  datatype Outcome = Continue(walk: Walk) | Stop(x: Node, next: Link)

  /** One load of a link and the branch on it. */
  function WalkStep(links: Links, w: Walk): Outcome
    requires Cell(w.x, w.level) in links
  {
    var next := links[Cell(w.x, w.level)];
    if next.To? && Below(next.key, w.bound) then Continue(w.(x := Of(next.key)))
    else if w.level == 0 then Stop(w.x, next)
    else Continue(w.(level := w.level - 1))
  }

  /** `next` is the first of `keys` not below the bound and `x` the last one below it. */
  ghost predicate Splits(keys: set<Key>, b: Bound, x: Node, next: Link) {
    && (x.Of? ==> x.key in keys && Below(x.key, b))
    && (next.To? ==> next.key in keys && !Below(next.key, b))
    && (forall k | k in keys && Below(k, b) :: x.Of? && k <= x.key)
    && (forall k | k in keys && !Below(k, b) :: next.To? && next.key <= k)
  }

  lemma WalkStepSound(links: Links, height: nat, lists: Lists, w: Walk)
    requires ListsInv(links, height, lists) && WalkInv(lists, w)
    ensures Cell(w.x, w.level) in links
    ensures match WalkStep(links, w)
            case Continue(w') => WalkInv(lists, w') && w'.bound == w.bound
            case Stop(x, next) => Splits(lists[0], w.bound, x, next)
  {
    assert LeadsToNext(lists[w.level], w.x, links[Cell(w.x, w.level)]);
  }

  /** What a walk still has before it: levels to go down, keys to step over. */
  ghost function KeysAhead(lists: Lists, w: Walk): set<Key>
    requires |lists| == MaxHeight
  {
    set k | k in lists[0] && Before(w.x, k) && Below(k, w.bound)
  }

  lemma WalkStepDecreases(links: Links, height: nat, lists: Lists, w: Walk)
    requires ListsInv(links, height, lists) && WalkInv(lists, w) && Cell(w.x, w.level) in links
    ensures match WalkStep(links, w)
            case Stop(_, _) => true
            case Continue(w') =>
              if w'.level == w.level then |KeysAhead(lists, w')| < |KeysAhead(lists, w)| else w'.level < w.level
  {
    var next := links[Cell(w.x, w.level)];
    assert LeadsToNext(lists[w.level], w.x, next);
    if next.To? && Below(next.key, w.bound) {
      var w' := w.(x := Of(next.key));
      assert next.key in KeysAhead(lists, w) && next.key !in KeysAhead(lists, w');
      assert KeysAhead(lists, w') <= KeysAhead(lists, w) - {next.key};
      Smaller(KeysAhead(lists, w'), KeysAhead(lists, w) - {next.key});
    }
  }

  lemma Smaller<T>(a: set<T>, b: set<T>)
    requires a <= b
    ensures |a| <= |b|
  {
    assert b == a + (b - a);
  }
}
