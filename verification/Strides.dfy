/** The algebra behind the interleaved checksums of util/crc32c.cc.  All it takes is that stepping over a byte is
    linear: `add` is the exclusive or of words, `s` the step over the bytes of one word. */
module Strides {
  type Sum<!T> = (T, T) -> T
  type Step<!T> = T -> T

  ghost predicate Group<T(!new)>(add: Sum<T>) {
    && (forall a, b, c :: add(add(a, b), c) == add(a, add(b, c)))
    && forall a, b :: add(a, b) == add(b, a)
  }

  ghost predicate Linear<T(!new)>(add: Sum<T>, s: Step<T>) {
    forall a, b :: s(add(a, b)) == add(s(a), s(b))
  }

  lemma Mix<T(!new)>(add: Sum<T>, a: T, b: T, c: T, d: T)
    requires Group(add)
    ensures add(add(a, b), add(c, d)) == add(add(a, c), add(b, d))
  {
    assert add(add(a, b), add(c, d)) == add(a, add(b, add(c, d))) == add(a, add(add(b, c), d));
    assert add(add(b, c), d) == add(add(c, b), d) == add(c, add(b, d));
  }

  /** Four steps in a row. */
  function Four<T>(s: Step<T>, x: T): T {
    s(s(s(s(x))))
  }

  lemma FourIsLinear<T(!new)>(add: Sum<T>, s: Step<T>, a: T, b: T)
    requires Linear(add, s)
    ensures Four(s, add(a, b)) == add(Four(s, a), Four(s, b))
  {
    assert s(s(add(a, b))) == s(add(s(a), s(b))) == add(s(s(a)), s(s(b)));
    assert s(s(add(s(s(a)), s(s(b))))) == s(add(s(s(s(a))), s(s(s(b)))));
  }

  lemma EightIsLinear<T(!new)>(add: Sum<T>, s: Step<T>, a: T, b: T)
    requires Linear(add, s)
    ensures Four(s, Four(s, add(a, b))) == add(Four(s, Four(s, a)), Four(s, Four(s, b)))
  {
    FourIsLinear(add, s, a, b);
    FourIsLinear(add, s, Four(s, a), Four(s, b));
  }

  ghost predicate Commute<T(!new)>(s: Step<T>, t: Step<T>) {
    forall x :: s(t(x)) == t(s(x))
  }

  lemma FourCommutes<T(!new)>(s: Step<T>, t: Step<T>, x: T)
    requires Commute(s, t)
    ensures Four(s, t(x)) == t(Four(s, x))
  {
  }

  /** A step over a sum whose second part only moves. */
  lemma StepOver<T(!new)>(add: Sum<T>, s: Step<T>, low: T, high: T, moved: T)
    requires Linear(add, s) && s(high) == moved
    ensures s(add(low, high)) == add(s(low), moved)
  {
  }

  /** A step over w is one over c with the rest moved down. */
  ghost predicate Peels<T(!new)>(add: Sum<T>, s: Step<T>, w: T, c: T, rest: T) {
    forall l :: s(add(l, w)) == add(s(add(l, c)), rest)
  }

  /** Four bytes, lowest first: w is c0 with w1 above it, w1 is c1 with w2 above it, and so on. */
  lemma FourOver<T(!new)>(add: Sum<T>, s: Step<T>, l: T, w: T, c0: T, w1: T, c1: T, w2: T, c2: T, c3: T)
    requires Peels(add, s, w, c0, w1) && Peels(add, s, w1, c1, w2) && Peels(add, s, w2, c2, c3)
    ensures Four(s, add(l, w)) == s(add(s(add(s(add(s(add(l, c0)), c1)), c2)), c3))
  {
  }

  /** crc0 to crc3. */
  datatype Lanes<T> = Lanes(c0: T, c1: T, c2: T, c3: T)

  /** The checksum they stand for: four words, stepped over one after the other. */
  function Combined<T>(add: Sum<T>, s: Step<T>, c: Lanes<T>): T {
    s(add(c.c3, s(add(c.c2, s(add(c.c1, s(c.c0)))))))
  }

  /** Four words more: every partial checksum steps over all of them on its own. */
  function AddSwath<T>(add: Sum<T>, s: Step<T>, c: Lanes<T>, w: Lanes<T>): Lanes<T> {
    Lanes(add(w.c0, Four(s, c.c0)), add(w.c1, Four(s, c.c1)), add(w.c2, Four(s, c.c2)), add(w.c3, Four(s, c.c3)))
  }

  /** One word more: it takes the place of the oldest, and the others move up. */
  function AddWord<T>(add: Sum<T>, s: Step<T>, c: Lanes<T>, w: T): Lanes<T> {
    Lanes(c.c1, c.c2, c.c3, add(w, Four(s, c.c0)))
  }

  lemma OneLane<T(!new)>(add: Sum<T>, s: Step<T>, w: T, b: T, c: T, a: T)
    requires Group(add) && Linear(add, s)
    ensures s(add(add(w, Four(s, c)), add(b, Four(s, a)))) == add(s(add(w, b)), Four(s, s(add(c, a))))
  {
    Mix(add, w, Four(s, c), b, Four(s, a));
    FourIsLinear(add, s, c, a);
    assert s(add(add(w, b), Four(s, add(c, a)))) == add(s(add(w, b)), s(Four(s, add(c, a))));
  }

  lemma SwathLanes<T(!new)>(add: Sum<T>, s: Step<T>, c: Lanes<T>, w: Lanes<T>)
    requires Group(add) && Linear(add, s)
    ensures Combined(add, s, AddSwath(add, s, c, w)) == add(Combined(add, s, w), Four(s, Combined(add, s, c)))
  {
    var a0, b0 := s(c.c0), s(w.c0);
    var a1, b1 := s(add(c.c1, a0)), s(add(w.c1, b0));
    var a2, b2 := s(add(c.c2, a1)), s(add(w.c2, b1));
    assert s(add(w.c0, Four(s, c.c0))) == add(b0, Four(s, a0));
    OneLane(add, s, w.c1, b0, c.c1, a0);
    OneLane(add, s, w.c2, b1, c.c2, a1);
    OneLane(add, s, w.c3, b2, c.c3, a2);
  }

  /** What is added to the first of four words goes through all of them. */
  lemma Carried<T(!new)>(add: Sum<T>, s: Step<T>, w: Lanes<T>, l: T)
    requires Group(add) && Linear(add, s)
    ensures Combined(add, s, w.(c0 := add(w.c0, l))) == add(Combined(add, s, w), Four(s, l))
  {
    var b0 := s(w.c0);
    var b1 := s(add(w.c1, b0));
    var b2 := s(add(w.c2, b1));
    assert s(add(w.c0, l)) == add(b0, s(l));
    Pushed(add, s, w.c1, b0, s(l));
    Pushed(add, s, w.c2, b1, s(s(l)));
    Pushed(add, s, w.c3, b2, s(s(s(l))));
  }

  lemma Pushed<T(!new)>(add: Sum<T>, s: Step<T>, w: T, b: T, x: T)
    requires Group(add) && Linear(add, s)
    ensures s(add(w, add(b, x))) == add(s(add(w, b)), s(x))
  {
    assert add(w, add(b, x)) == add(add(w, b), x);
  }

  /** A swath: the checksum that the four stand for is stepped over its four words. */
  lemma SwathStep<T(!new)>(add: Sum<T>, s: Step<T>, c: Lanes<T>, w: Lanes<T>)
    requires Group(add) && Linear(add, s)
    ensures Combined(add, s, AddSwath(add, s, c, w))
         == Combined(add, s, w.(c0 := add(w.c0, Combined(add, s, c))))
  {
    SwathLanes(add, s, c, w);
    Carried(add, s, w, Combined(add, s, c));
  }

  /** A single word: the same for one. */
  lemma WordStep<T(!new)>(add: Sum<T>, s: Step<T>, c: Lanes<T>, w: T)
    requires Group(add) && Linear(add, s)
    ensures Combined(add, s, AddWord(add, s, c, w)) == s(add(w, Combined(add, s, c)))
  {
    var a1 := s(c.c1);
    var a2 := s(add(c.c2, a1));
    var rest := s(add(c.c3, a2));
    var x := s(c.c0);
    assert s(add(c.c1, x)) == add(a1, s(x));
    Pushed(add, s, c.c2, a1, s(x));
    Pushed(add, s, c.c3, a2, s(s(x)));
    assert Combined(add, s, c) == add(rest, Four(s, c.c0));
    assert Combined(add, s, AddWord(add, s, c, w)) == s(add(add(w, Four(s, c.c0)), rest));
    assert add(add(w, Four(s, c.c0)), rest) == add(w, add(rest, Four(s, c.c0)));
  }

  // ----- tables -----

  /** The entries of a table for the powers of two; any other entry is the sum of those of its bits. */
  datatype Table<T> = Table(e1: T, e2: T, e4: T, e8: T, e16: T, e32: T, e64: T, e128: T)

  /** Each entry is the one above it, halved. */
  ghost predicate Halved<T>(t: Step<T>, e: Table<T>) {
    && e.e64 == t(e.e128) && e.e32 == t(e.e64) && e.e16 == t(e.e32) && e.e8 == t(e.e16)
    && e.e4 == t(e.e8) && e.e2 == t(e.e4) && e.e1 == t(e.e2)
  }

  ghost predicate Maps<T>(s: Step<T>, x: Table<T>, e: Table<T>) {
    && s(x.e1) == e.e1 && s(x.e2) == e.e2 && s(x.e4) == e.e4 && s(x.e8) == e.e8
    && s(x.e16) == e.e16 && s(x.e32) == e.e32 && s(x.e64) == e.e64 && s(x.e128) == e.e128
  }

  /** A step that commutes with halving is known by the highest entry. */
  lemma HalvedTable<T(!new)>(s: Step<T>, t: Step<T>, x: Table<T>, e: Table<T>)
    requires Commute(s, t) && Halved(t, x) && Halved(t, e) && s(x.e128) == e.e128
    ensures Maps(s, x, e) && s(t(x.e1)) == t(e.e1)
  {
  }

  function Sum8<T>(add: Sum<T>, a: T, b: T, c: T, d: T, e: T, f: T, g: T, h: T): T {
    add(add(add(a, b), add(c, d)), add(add(e, f), add(g, h)))
  }

  lemma SumOfEight<T(!new)>(add: Sum<T>, s: Step<T>, a: T, b: T, c: T, d: T, e: T, f: T, g: T, h: T)
    requires Linear(add, s)
    ensures s(Sum8(add, a, b, c, d, e, f, g, h)) == Sum8(add, s(a), s(b), s(c), s(d), s(e), s(f), s(g), s(h))
  {
    assert s(add(add(a, b), add(c, d))) == add(add(s(a), s(b)), add(s(c), s(d)));
    assert s(add(add(e, f), add(g, h))) == add(add(s(e), s(f)), add(s(g), s(h)));
  }
}
