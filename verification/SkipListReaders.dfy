/** One writer that inserts any number of keys, one store at a time, and a reader whose loads fall anywhere between
    those stores (db/skiplist.h).  Readers store nothing, so one reader stands for any number of them. */
module SkipListReaders {
  import opened SkipLists

  datatype Writer =
    | Idle
    | Searching(key: Key, walk: Walk, prev: map<nat, Node>)
    | Chosen(key: Key, prev: map<nat, Node>)                                         // FindGreaterOrEqual has returned
    | Linking(key: Key, height: nat, prev: map<nat, Node>, i: nat, own: bool)        // own: x->next_[i] has been stored

  datatype Reader =
    | Away
    | Walking(walk: Walk)
    | Done(bound: Bound, x: Node, next: Link)

  /** `lists` and `inserted` are history: the keys published at each level, and the keys whose Insert has returned. */
  datatype State = State(links: Links, maxHeight: nat, writer: Writer, reader: Reader, lists: Lists, inserted: set<Key>)

  datatype Step =
    | StartInsert(key: Key)
    | Search                       // one iteration of the writer's own FindGreaterOrEqual
    | ChooseHeight(height: nat)    // RandomHeight, prev above the old height, the store to max_height_, NewNode
    | SetOwn                       // x->NoBarrier_SetNext(i, prev[i]->NoBarrier_Next(i))
    | Publish                      // prev[i]->SetNext(i, x)
    | EndInsert
    | StartRead(bound: Bound, height: nat)  // the height may be one that has since been raised
    | Read                         // one iteration of the reader's loop

  /** prev, with the head at the levels that the list did not have yet. */
  function PrevUpTo(prev: map<nat, Node>, maxHeight: nat, height: nat): map<nat, Node>
    requires forall i: nat | i < maxHeight :: i in prev
  {
    map i: nat | i < height :: if i >= maxHeight then Head else prev[i]
  }

  ghost predicate Init(s: State) {
    s == State(EmptyLinks(), 1, Idle, Away, seq(MaxHeight, _ => {}), {})
  }

  ghost predicate Next(s: State, step: Step, s': State) {
    match step
    case StartInsert(key) =>
      && s.writer.Idle? && |s.lists| == MaxHeight && key !in s.lists[0] && s.maxHeight > 0
      && s' == s.(writer := Searching(key, Walk(At(key), Head, s.maxHeight - 1), map[]))
    case Search =>
      && s.writer.Searching? && Cell(s.writer.walk.x, s.writer.walk.level) in s.links
      && var w := s.writer.walk;
         var here := s.writer.prev[w.level := w.x];
         s' == s.(writer := match WalkStep(s.links, w)
                            case Continue(w') =>
                              s.writer.(walk := w', prev := if w'.level == w.level then s.writer.prev else here)
                            case Stop(_, _) => Chosen(s.writer.key, here))
    case ChooseHeight(height) =>
      && s.writer.Chosen? && 1 <= height <= MaxHeight
      && (forall i: nat | i < s.maxHeight :: i in s.writer.prev)
      && s' == s.(writer := Linking(s.writer.key, height, PrevUpTo(s.writer.prev, s.maxHeight, height), 0, false),
                  maxHeight := if height > s.maxHeight then height else s.maxHeight)
    case SetOwn =>
      && s.writer.Linking? && s.writer.i < s.writer.height && !s.writer.own
      && var w := s.writer;
         && w.i in w.prev && Cell(w.prev[w.i], w.i) in s.links
         && s' == s.(writer := w.(own := true),
                     links := s.links[Cell(Of(w.key), w.i) := s.links[Cell(w.prev[w.i], w.i)]])
    case Publish =>
      && s.writer.Linking? && s.writer.i < s.writer.height && s.writer.own && s.writer.i < |s.lists|
      && var w := s.writer;
         && w.i in w.prev
         && s' == s.(writer := w.(own := false, i := w.i + 1), links := s.links[Cell(w.prev[w.i], w.i) := To(w.key)],
                     lists := s.lists[w.i := s.lists[w.i] + {w.key}])
    case EndInsert =>
      && s.writer.Linking? && s.writer.i == s.writer.height
      && s' == s.(writer := Idle, inserted := s.inserted + {s.writer.key})
    case StartRead(bound, height) =>
      && !s.reader.Walking? && 1 <= height <= s.maxHeight
      && s' == s.(reader := Walking(Walk(bound, Head, height - 1)))
    case Read =>
      && s.reader.Walking? && Cell(s.reader.walk.x, s.reader.walk.level) in s.links
      && s' == s.(reader := match WalkStep(s.links, s.reader.walk)
                            case Continue(w) => Walking(w)
                            case Stop(x, next) => Done(s.reader.walk.bound, x, next))
  }

  // ----- the invariant -----

  ghost predicate WriterInv(s: State)
    requires |s.lists| == MaxHeight
  {
    match s.writer
    case Idle => s.lists[0] == s.inserted
    case Searching(key, walk, prev) =>
      && s.lists[0] == s.inserted && key !in s.lists[0]
      && WalkInv(s.lists, walk) && walk.bound == At(key)
      && forall l: nat | walk.level < l < s.maxHeight :: PrevAt(s.lists, prev, key, l)
    case Chosen(key, prev) =>
      && s.lists[0] == s.inserted && key !in s.lists[0]
      && forall l: nat | l < s.maxHeight :: PrevAt(s.lists, prev, key, l)
    case Linking(key, height, prev, i, own) =>
      && s.lists[0] == s.inserted + (if i > 0 then {key} else {})
      && 1 <= height <= s.maxHeight && height <= MaxHeight && i <= height
      && (forall l | 0 <= l < i :: key in s.lists[l]) && (forall l | i <= l < MaxHeight :: key !in s.lists[l])
      && (forall l: nat | i <= l < height :: PrevAt(s.lists, prev, key, l))
      && (own ==> i < height && i in prev && Cell(Of(key), i) in s.links && Cell(prev[i], i) in s.links
                  && s.links[Cell(Of(key), i)] == s.links[Cell(prev[i], i)])
  }

  ghost predicate ReaderInv(s: State) {
    s.reader.Walking? ==> WalkInv(s.lists, s.reader.walk)
  }

  ghost predicate Inv(s: State) {
    ListsInv(s.links, s.maxHeight, s.lists) && WriterInv(s) && ReaderInv(s)
  }

  lemma InitInv(s: State)
    requires Init(s)
    ensures Inv(s)
  {
    EmptyInv();
  }

  lemma SearchKeepsInv(s: State, s': State)
    requires Inv(s) && Next(s, Search, s')
    ensures Inv(s')
  {
    var w := s.writer.walk;
    WalkStepSound(s.links, s.maxHeight, s.lists, w);
    var next := s.links[Cell(w.x, w.level)];
    assert LeadsToNext(s.lists[w.level], w.x, next);
    if !(next.To? && Below(next.key, w.bound)) {
      assert s.lists[w.level] <= s.lists[0];
      var here := s.writer.prev[w.level := w.x];
      forall l: nat | w.level <= l < s.maxHeight ensures PrevAt(s.lists, here, s.writer.key, l) {
        assert l > w.level ==> PrevAt(s.lists, s.writer.prev, s.writer.key, l);
      }
    }
  }

  lemma ChooseHeightKeepsInv(s: State, height: nat, s': State)
    requires Inv(s) && Next(s, ChooseHeight(height), s')
    ensures Inv(s')
  {
    RaiseKeepsInv(s.links, s.maxHeight, s.lists, s'.maxHeight);
    forall l: nat | l < height ensures PrevAt(s'.lists, s'.writer.prev, s'.writer.key, l) {
      if l < s.maxHeight {
        assert PrevAt(s.lists, s.writer.prev, s.writer.key, l);
      }
    }
    forall l | 0 <= l < MaxHeight ensures s.writer.key !in s.lists[l] {
      assert s.lists[l] <= s.lists[0];
    }
  }

  lemma SetOwnKeepsInv(s: State, s': State)
    requires Inv(s) && Next(s, SetOwn, s')
    ensures Inv(s')
  {
    var w := s.writer;
    OwnStoreKeepsInv(s.links, s.maxHeight, s.lists, w.key, w.i, s.links[Cell(w.prev[w.i], w.i)]);
    assert PrevAt(s.lists, w.prev, w.key, w.i);
    assert forall l: nat | w.i <= l < w.height :: PrevAt(s.lists, w.prev, w.key, l) ==>
           PrevAt(s'.lists, w.prev, w.key, l);
  }

  lemma PublishStepKeepsInv(s: State, s': State)
    requires Inv(s) && Next(s, Publish, s')
    ensures Inv(s')
  {
    var w := s.writer;
    assert PrevAt(s.lists, w.prev, w.key, w.i);
    PublishKeepsInv(s.links, s.maxHeight, s.lists, w.prev[w.i], w.key, w.i);
    forall l: nat | w.i + 1 <= l < w.height ensures PrevAt(s'.lists, w.prev, w.key, l) {
      assert PrevAt(s.lists, w.prev, w.key, l);
    }
  }

  lemma StepKeepsInv(s: State, step: Step, s': State)
    requires Inv(s) && Next(s, step, s')
    ensures Inv(s')
  {
    match step
    case Search => SearchKeepsInv(s, s');
    case ChooseHeight(height) => ChooseHeightKeepsInv(s, height, s');
    case SetOwn => SetOwnKeepsInv(s, s');
    case Publish => PublishStepKeepsInv(s, s');
    case Read => WalkStepSound(s.links, s.maxHeight, s.lists, s.reader.walk);
    case _ =>
  }

  /** The writer neither loads a link that has not been stored nor uses an entry of prev that has not been set. */
  lemma WriterNeverStuck(s: State, random: nat) returns (step: Step, s': State)
    requires Inv(s) && !s.writer.Idle? && 1 <= random <= MaxHeight
    ensures Next(s, step, s') && !step.StartInsert? && !step.StartRead? && !step.Read?
    ensures s.writer.Chosen? ==> step == ChooseHeight(random)
  {
    match s.writer
    case Searching(key, w, prev) =>
      WalkStepSound(s.links, s.maxHeight, s.lists, w);
      var here := prev[w.level := w.x];
      step := Search;
      s' := s.(writer := match WalkStep(s.links, w)
                         case Continue(w') => s.writer.(walk := w', prev := if w'.level == w.level then prev else here)
                         case Stop(_, _) => Chosen(key, here));
    case Chosen(key, prev) =>
      step := ChooseHeight(random);
      forall l: nat | l < s.maxHeight ensures l in prev { assert PrevAt(s.lists, prev, key, l); }
      s' := s.(writer := Linking(key, random, PrevUpTo(prev, s.maxHeight, random), 0, false),
               maxHeight := if random > s.maxHeight then random else s.maxHeight);
    case Linking(key, height, prev, i, own) =>
      assert i < height ==> PrevAt(s.lists, prev, key, i);
      if i == height {
        step, s' := EndInsert, s.(writer := Idle, inserted := s.inserted + {key});
      } else if own {
        step := Publish;
        s' := s.(writer := s.writer.(own := false, i := i + 1), links := s.links[Cell(prev[i], i) := To(key)],
                 lists := s.lists[i := s.lists[i] + {key}]);
      } else {
        step := SetOwn;
        s' := s.(writer := s.writer.(own := true), links := s.links[Cell(Of(key), i) := s.links[Cell(prev[i], i)]]);
      }
  }

  // ----- runs -----

  ghost predicate IsRun(states: seq<State>, steps: seq<Step>) {
    && |states| == |steps| + 1 && Init(states[0])
    && forall i | 0 <= i < |steps| :: Next(states[i], steps[i], states[i + 1])
  }

  lemma {:induction false} RunKeepsInv(states: seq<State>, steps: seq<Step>, i: nat)
    requires IsRun(states, steps) && i < |states|
    ensures Inv(states[i])
  {
    if i == 0 {
      InitInv(states[0]);
    } else {
      RunKeepsInv(states, steps, i - 1);
      StepKeepsInv(states[i - 1], steps[i - 1], states[i]);
    }
  }

  lemma {:induction false} KeysOnlyGrow(states: seq<State>, steps: seq<Step>, h: nat, i: nat)
    requires IsRun(states, steps) && h <= i < |states|
    ensures |states[h].lists| == |states[i].lists| == MaxHeight
    ensures forall l | 0 <= l < MaxHeight :: states[h].lists[l] <= states[i].lists[l]
    decreases i
  {
    RunKeepsInv(states, steps, i);
    if h < i {
      KeysOnlyGrow(states, steps, h, i - 1);
      assert Next(states[i - 1], steps[i - 1], states[i]);
    }
  }

  /** Wherever the reader stands, the link it loads next has been stored: it never follows an unset link. */
  lemma ReaderNeverMeetsUnsetLink(states: seq<State>, steps: seq<Step>, i: nat)
    requires IsRun(states, steps) && i < |states| && states[i].reader.Walking?
    ensures var w := states[i].reader.walk;
            Cell(w.x, w.level) in states[i].links
  {
    RunKeepsInv(states, steps, i);
    WalkStepSound(states[i].links, states[i].maxHeight, states[i].lists, states[i].reader.walk);
  }

  /** The answer of a search is exact for the keys in the list at the moment of its last load: the node returned by
      FindGreaterOrEqual is the first one not below the bound, the one returned by FindLessThan or FindLast the last
      one below it.  Those keys include every key whose Insert had returned at any moment `h` before (in particular
      before the search began), and no key other than those and the one being inserted. */
  lemma SearchIsExactAtItsLastLoad(states: seq<State>, steps: seq<Step>, h: nat, i: nat)
    requires IsRun(states, steps) && h <= i < |steps| && steps[i] == Read && states[i + 1].reader.Done?
    ensures |states[i].lists| == MaxHeight
    ensures var r := states[i + 1].reader; Splits(states[i].lists[0], r.bound, r.x, r.next)
    ensures states[h].inserted <= states[i].lists[0]
    ensures states[i].inserted <= states[i].lists[0]
            <= states[i].inserted + (if states[i].writer.Linking? then {states[i].writer.key} else {})
  {
    KeysOnlyGrow(states, steps, h, i);
    RunKeepsInv(states, steps, h);
    RunKeepsInv(states, steps, i);
    assert Next(states[i], steps[i], states[i + 1]);
    var s := states[i];
    WalkStepSound(s.links, s.maxHeight, s.lists, s.reader.walk);
    assert states[h].inserted <= states[h].lists[0];
  }

  /** A search for a key that was in the list when it began finds that very key. */
  lemma PresentKeyIsFound(states: seq<State>, steps: seq<Step>, h: nat, i: nat, key: Key)
    requires IsRun(states, steps) && h <= i < |steps| && steps[i] == Read
    requires states[i + 1].reader.Done? && states[i + 1].reader.bound == At(key)
    requires key in states[h].inserted
    ensures states[i + 1].reader.next == To(key)
  {
    SearchIsExactAtItsLastLoad(states, steps, h, i);
  }

  /** Each iteration of a search brings it closer to its end, in levels or in keys, as long as no key is added. */
  lemma ReadDecreases(s: State, s': State)
    requires Inv(s) && Next(s, Read, s') && s'.reader.Walking?
    ensures var w, w' := s.reader.walk, s'.reader.walk;
            if w'.level == w.level then |KeysAhead(s'.lists, w')| < |KeysAhead(s.lists, w)| else w'.level < w.level
  {
    WalkStepDecreases(s.links, s.maxHeight, s.lists, s.reader.walk);
  }
}
