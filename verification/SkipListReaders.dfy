/** Searches of the skip list while an insert is under way.

    Inserts run one at a time; searches take no lock.  Every load or store of a pointer and of the
    height is a step of its own, so a search may see a node that is linked on some of its levels only.
    The theorems hold for every interleaving. */
module SkipListReaders {
  import opened Options
  import opened SkipList

  /** An insert raises the height of the list, allocates its node and links it from the lowest level
      up: first the node's own pointer of a level, then the one of its predecessor.  `pos` are the
      positions of the predecessors. */
  datatype Writer =
    | Idle
    | Raised(e: Entry, height: nat, prev: seq<Node>, pos: seq<nat>)
    | Linking(e: Entry, height: nat, prev: seq<Node>, pos: seq<nat>, x: Node, level: nat, own: bool)

  /** `seen` are the nodes that were in the list when the search began, `next` is its result. */
  datatype Search = Search(key: Entry, node: Node, level: nat, seen: set<Node>, next: Option<Node>)

  /** `lists` are the nodes of every level, in order, as the pointers link them. */
  datatype State = State(entries: seq<Entry>, links: seq<seq<Node>>, lists: seq<seq<Node>>, maxHeight: nat,
                         writer: Writer, searches: map<nat, Search>)

  ghost predicate Shape(s: State) {
    |s.links| == MAX_HEIGHT == |s.lists| && |s.entries| > 0 && 1 <= s.maxHeight <= MAX_HEIGHT
  }

  // ---------- steps of an insert ----------

  ghost predicate Absent(s: State, e: Entry)
    requires Shape(s)
  {
    InArena(s.entries, s.lists[0]) && forall i :: 0 <= i < |s.lists[0]| ==> !SameKey(s.entries[s.lists[0][i]], e)
  }

  /** Where the new node goes: behind the last node before it, and behind the head on new levels. */
  ghost predicate Predecessor(s: State, e: Entry, prev: seq<Node>, pos: seq<nat>, l: nat)
    requires Shape(s) && |prev| == MAX_HEIGHT == |pos| && l < MAX_HEIGHT
  {
    pos[l] <= |s.lists[l]| && Splits(s.entries, s.lists[l], e, pos[l]) && prev[l] == At(s.lists[l], pos[l])
  }

  ghost predicate Raise(s: State, s': State, e: Entry, height: nat, prev: seq<Node>, pos: seq<nat>) {
    && Shape(s) && s.writer.Idle? && Absent(s, e) && 1 <= height <= MAX_HEIGHT && |prev| == MAX_HEIGHT == |pos|
    && (forall l :: 0 <= l < height && l < s.maxHeight ==> Predecessor(s, e, prev, pos, l))
    && (forall l :: s.maxHeight <= l < height ==> prev[l] == 0 && pos[l] == 0)
    && s' == s.(maxHeight := if s.maxHeight < height then height else s.maxHeight,
                writer := Raised(e, height, prev, pos))
  }

  ghost predicate Allocate(s: State, s': State) {
    && Shape(s) && s.writer.Raised?
    && var w := s.writer;
       s' == s.(entries := s.entries + [w.e],
                links := seq(MAX_HEIGHT, l requires 0 <= l < MAX_HEIGHT => s.links[l] + [-1]),
                writer := Linking(w.e, w.height, w.prev, w.pos, |s.entries|, 0, false))
  }

  ghost predicate LinkingAt(s: State, own: bool) {
    && Shape(s) && s.writer.Linking? && s.writer.own == own
    && var w := s.writer;
       && w.level < MAX_HEIGHT == |w.prev| == |w.pos| && 0 <= w.x < |s.links[w.level]|
       && 0 <= w.prev[w.level] < |s.links[w.level]| && w.pos[w.level] <= |s.lists[w.level]|
  }

  ghost predicate SetOwn(s: State, s': State) {
    && LinkingAt(s, false)
    && var w := s.writer;
       var link := s.links[w.level];
       s' == s.(links := s.links[w.level := link[w.x := link[w.prev[w.level]]]], writer := w.(own := true))
  }

  ghost predicate Publish(s: State, s': State) {
    && LinkingAt(s, true)
    && var w := s.writer;
       s' == s.(links := s.links[w.level := s.links[w.level][w.prev[w.level] := w.x]],
                lists := s.lists[w.level := Spliced(s.lists[w.level], w.pos[w.level], w.x)],
                writer := if w.level + 1 == w.height then Idle else w.(level := w.level + 1, own := false))
  }

  // ---------- steps of a search ----------

  /** The height that is loaded may be an older one. */
  ghost predicate Begin(s: State, s': State, r: nat, key: Entry, level: nat) {
    && Shape(s) && r !in s.searches && level < s.maxHeight
    && s' == s.(searches := s.searches[r := Search(key, 0, level, (set y | y in s.lists[0]), None)])
  }

  /** Load one pointer; then move on, go down a level, or finish. */
  ghost predicate Load(s: State, s': State, r: nat) {
    && Shape(s) && r in s.searches && s.searches[r].next.None?
    && var q := s.searches[r];
       && q.level < MAX_HEIGHT && 0 <= q.node < |s.links[q.level]|
       && var next := s.links[q.level][q.node];
          && (next != -1 ==> 0 <= next < |s.entries|)
          && s' == s.(searches := s.searches[r :=
               if next != -1 && Before(s.entries[next], q.key) then q.(node := next)
               else if q.level == 0 then q.(next := Some(next)) else q.(level := q.level - 1)])
  }

  ghost predicate WriterStep(s: State, s': State) {
    || (exists e, height, prev, pos :: Raise(s, s', e, height, prev, pos))
    || Allocate(s, s') || SetOwn(s, s') || Publish(s, s')
  }

  ghost predicate Next(s: State, s': State) {
    || WriterStep(s, s')
    || (exists r, key, level :: Begin(s, s', r, key, level))
    || (exists r :: Load(s, s', r))
  }

  ghost predicate Init(s: State) {
    && |s.entries| == 1 && s.maxHeight == 1 && s.writer == Idle && s.searches == map[]
    && s.links == seq(MAX_HEIGHT, _ => [-1]) && s.lists == seq(MAX_HEIGHT, _ => [])
  }

  // ---------- the invariant ----------

  ghost predicate LevelsOk(s: State)
    requires Shape(s)
  {
    forall l :: 0 <= l < MAX_HEIGHT ==> LevelOk(s.entries, s.links[l], s.lists[l])
  }

  /** Every level is a part of the one below, and the levels above the height are empty. */
  ghost predicate Nested(s: State)
    requires Shape(s)
  {
    && (forall l, k, x :: 0 <= k <= l < MAX_HEIGHT && x in s.lists[l] ==> x in s.lists[k])
    && (forall l :: s.maxHeight <= l < MAX_HEIGHT ==> s.lists[l] == [])
  }

  ghost predicate WriterOk(s: State)
    requires Shape(s)
  {
    match s.writer
    case Idle => true
    case Raised(e, height, prev, pos) =>
      && 1 <= height <= s.maxHeight && |prev| == MAX_HEIGHT == |pos| && Absent(s, e)
      && forall l :: 0 <= l < height ==> Predecessor(s, e, prev, pos, l)
    case Linking(e, height, prev, pos, x, level, own) =>
      && level < height <= s.maxHeight && |prev| == MAX_HEIGHT == |pos|
      && 0 < x == |s.entries| - 1 && s.entries[x] == e
      && (forall l :: 0 <= l < level ==> x in s.lists[l])
      && (forall l :: level <= l < MAX_HEIGHT ==> Fresh(s, e, x, l))
      && (forall l :: level <= l < height ==> Predecessor(s, e, prev, pos, l))
      && (own ==> OwnSet(s, prev, x, level))
  }

  /** The node is not yet on the level, and no other node there has its key. */
  ghost predicate Fresh(s: State, e: Entry, x: Node, l: nat)
    requires Shape(s) && l < MAX_HEIGHT
  {
    && InArena(s.entries, s.lists[l]) && x !in s.lists[l]
    && forall i :: 0 <= i < |s.lists[l]| ==> !SameKey(s.entries[s.lists[l][i]], e)
  }

  ghost predicate OwnSet(s: State, prev: seq<Node>, x: Node, level: nat)
    requires Shape(s) && level < MAX_HEIGHT == |prev|
  {
    var link := s.links[level];
    0 <= prev[level] < |link| && 0 <= x < |link| && link[x] == link[prev[level]]
  }

  /** The result is a node of the list that is not before the key, and no node that was in the list
      when the search began lies between them. */
  ghost predicate Answers(s: State, q: Search, next: Node)
    requires Shape(s)
  {
    && (next != -1 ==> next in s.lists[0] && 0 < next < |s.entries| && !Before(s.entries[next], q.key))
    && forall y :: y in q.seen && 0 <= y < |s.entries| && !Before(s.entries[y], q.key) ==>
         next != -1 && !Before(s.entries[y], s.entries[next])
  }

  ghost predicate SearchOk(s: State, q: Search)
    requires Shape(s)
  {
    && q.level < MAX_HEIGHT && 0 <= q.node < |s.entries|
    && (q.node == 0 || (q.node in s.lists[q.level] && Before(s.entries[q.node], q.key)))
    && (forall y :: y in q.seen ==> y in s.lists[0] && 0 < y < |s.entries|)
    && (q.next.Some? ==> Answers(s, q, q.next.value))
  }

  ghost predicate SearchesOk(s: State)
    requires Shape(s)
  {
    forall r :: r in s.searches ==> SearchOk(s, s.searches[r])
  }

  ghost predicate Inv(s: State) {
    Shape(s) && LevelsOk(s) && Nested(s) && WriterOk(s) && SearchesOk(s)
  }

  // ---------- the list only grows ----------

  ghost predicate Grows(s: State, s': State)
    requires Shape(s) && Shape(s')
  {
    && s.entries <= s'.entries
    && forall l, x :: 0 <= l < MAX_HEIGHT && x in s.lists[l] ==> x in s'.lists[l]
  }

  lemma {:induction false} GrowthKeepsSearches(s: State, s': State)
    requires Shape(s) && Shape(s') && SearchesOk(s) && Grows(s, s') && s'.searches == s.searches
    ensures SearchesOk(s')
  {
    hide Before;
    forall r | r in s'.searches
      ensures SearchOk(s', s'.searches[r])
    {
      var q := s.searches[r];
      assert SearchOk(s, q);
      assert forall y :: 0 <= y < |s.entries| ==> s'.entries[y] == s.entries[y];
    }
  }

  lemma {:induction false} RaiseInv(s: State, s': State, e: Entry, height: nat, prev: seq<Node>, pos: seq<nat>)
    requires Inv(s) && Raise(s, s', e, height, prev, pos)
    ensures Inv(s') && Grows(s, s')
  {
    hide LevelOk, Before, SameKey;
    forall l | 0 <= l < height
      ensures Predecessor(s', e, prev, pos, l)
    {
      if l < s.maxHeight {
        assert Predecessor(s, e, prev, pos, l);
      }
    }
    GrowthKeepsSearches(s, s');
  }

  lemma {:induction false} AllocateKeepsLevels(s: State, s': State)
    requires Shape(s) && LevelsOk(s) && Allocate(s, s')
    ensures Shape(s') && LevelsOk(s')
  {
    hide LevelOk;
    forall l | 0 <= l < MAX_HEIGHT
      ensures LevelOk(s'.entries, s'.links[l], s'.lists[l])
    {
      GrowLevel(s.entries, s.links[l], s.lists[l], s.writer.e);
    }
  }

  lemma {:induction false} AllocateLevel(s: State, s': State, l: nat)
    requires Inv(s) && Allocate(s, s') && l < MAX_HEIGHT
    ensures Shape(s') && Fresh(s', s.writer.e, |s.entries|, l)
    ensures l < s.writer.height ==> Predecessor(s', s.writer.e, s.writer.prev, s.writer.pos, l)
  {
    hide Before, SameKey;
    var e, list := s.writer.e, s.lists[l];
    assert LevelOk(s.entries, s.links[l], list);
    assert forall y :: 0 <= y < |s.entries| ==> s'.entries[y] == s.entries[y];
    forall i | 0 <= i < |list|
      ensures !SameKey(s'.entries[list[i]], e)
    {
      assert list[i] in s.lists[l] && list[i] in s.lists[0];
      var j :| 0 <= j < |s.lists[0]| && s.lists[0][j] == list[i];
    }
    if l < s.writer.height {
      assert Predecessor(s, e, s.writer.prev, s.writer.pos, l);
    }
  }

  lemma {:induction false} AllocateInv(s: State, s': State)
    requires Inv(s) && Allocate(s, s')
    ensures Inv(s') && Grows(s, s')
  {
    AllocateKeepsLevels(s, s');
    GrowthKeepsSearches(s, s');
    hide LevelsOk, SearchesOk, Fresh, Predecessor;
    forall l | 0 <= l < MAX_HEIGHT
      ensures Fresh(s', s.writer.e, |s.entries|, l)
      ensures l < s.writer.height ==> Predecessor(s', s.writer.e, s.writer.prev, s.writer.pos, l)
    {
      AllocateLevel(s, s', l);
    }
  }

  /** The node's own pointer plays no part before the node is on the level. */
  lemma {:induction false} OwnPointer(entries: seq<Entry>, link: seq<Node>, list: seq<Node>, x: Node, y: Node)
    requires LevelOk(entries, link, list) && 0 < x < |link| && x !in list
    ensures LevelOk(entries, link[x := y], list)
  {
    hide Before;
    assert forall p :: 0 <= p <= |list| ==> At(list, p) != x;
  }

  lemma {:induction false} SetOwnInv(s: State, s': State)
    requires Inv(s) && SetOwn(s, s')
    ensures Inv(s') && Grows(s, s')
  {
    hide Before, SameKey, Splits;
    var w := s.writer;
    var i, link := w.level, s.links[w.level];
    assert Fresh(s, w.e, w.x, i) && LevelOk(s.entries, link, s.lists[i]);
    OwnPointer(s.entries, link, s.lists[i], w.x, link[w.prev[i]]);
    assert Predecessor(s, w.e, w.prev, w.pos, i);
    OwnWriter(s, s');
    hide LevelOk, Fresh, Predecessor;
    GrowthKeepsSearches(s, s');
  }

  lemma {:induction false} OwnWriter(s: State, s': State)
    requires Inv(s) && SetOwn(s, s') && Predecessor(s, s.writer.e, s.writer.prev, s.writer.pos, s.writer.level)
    ensures Shape(s') && WriterOk(s')
  {
    hide LevelOk, Before, SameKey, Splits;
    var w := s.writer;
    assert Fresh(s, w.e, w.x, w.level) && LevelOk(s.entries, s.links[w.level], s.lists[w.level]);
    assert w.prev[w.level] != w.x;
    forall l | w.level <= l < MAX_HEIGHT
      ensures Fresh(s', w.e, w.x, l)
    {
      assert Fresh(s, w.e, w.x, l);
    }
    forall l | w.level <= l < w.height
      ensures Predecessor(s', w.e, w.prev, w.pos, l)
    {
      assert Predecessor(s, w.e, w.prev, w.pos, l);
    }
  }

  /** Linking the node behind its predecessor. */
  lemma {:induction false} PublishLevel(s: State, s': State)
    requires Inv(s) && Publish(s, s')
    ensures Shape(s') && LevelOk(s'.entries, s'.links[s.writer.level], s'.lists[s.writer.level])
  {
    hide Before, SameKey, Spliced;
    var w := s.writer;
    var i := w.level;
    var link, list, p, arena := s.links[i], s.lists[i], w.pos[i], s.entries[..w.x];
    assert Fresh(s, w.e, w.x, i) && Predecessor(s, w.e, w.prev, w.pos, i) && LevelOk(s.entries, link, list);
    assert link[w.x := link[w.prev[i]]] == link;
    AscendingDistinct(s.entries, list);
    SpliceLinks(link, list, p, w.x);
    assert s.entries == arena + [w.e];
    ArenaWithout(arena, w.e, list);
    SplitsWithout(arena, w.e, list, p);
    SpliceAscends(arena, list, p, w.e);
  }

  lemma {:induction false} ArenaWithout(arena: seq<Entry>, e: Entry, list: seq<Node>)
    requires InArena(arena + [e], list) && Ascending(arena + [e], list) && |arena| !in list
    ensures InArena(arena, list) && Ascending(arena, list)
  {
    hide Before;
    assert forall y :: 0 <= y < |arena| ==> (arena + [e])[y] == arena[y];
  }

  lemma {:induction false} SplitsWithout(arena: seq<Entry>, e: Entry, list: seq<Node>, p: nat)
    requires InArena(arena, list) && Splits(arena + [e], list, e, p)
    ensures Splits(arena, list, e, p)
    ensures (forall i :: 0 <= i < |list| ==> !SameKey((arena + [e])[list[i]], e)) ==>
      forall i :: 0 <= i < |list| ==> !SameKey(arena[list[i]], e)
  {
    hide Before, SameKey;
    assert forall y :: 0 <= y < |arena| ==> (arena + [e])[y] == arena[y];
  }

  lemma {:induction false} PublishGrows(s: State, s': State)
    requires Inv(s) && Publish(s, s')
    ensures Shape(s') && Grows(s, s')
    ensures forall y :: y in s'.lists[s.writer.level] <==> y == s.writer.x || y in s.lists[s.writer.level]
  {
    hide LevelsOk, WriterOk, SearchesOk, Spliced;
    SplicedMembers(s.lists[s.writer.level], s.writer.pos[s.writer.level], s.writer.x);
  }

  lemma {:induction false} PublishNested(s: State, s': State)
    requires Inv(s) && Publish(s, s')
    ensures Shape(s') && Nested(s')
  {
    PublishGrows(s, s');
    hide LevelsOk, SearchesOk, Spliced, Fresh, Predecessor;
    var w := s.writer;
    forall l, k, x | 0 <= k <= l < MAX_HEIGHT && x in s'.lists[l]
      ensures x in s'.lists[k]
    {
      if x in s.lists[l] {
        assert x in s.lists[k];
      } else {
        assert l == w.level && x == w.x;
      }
    }
  }

  lemma {:induction false} PublishWriter(s: State, s': State)
    requires Inv(s) && Publish(s, s')
    ensures Shape(s') && WriterOk(s')
  {
    PublishGrows(s, s');
    hide LevelsOk, SearchesOk, Spliced, Before, SameKey, Splits, Nested;
    var w := s.writer;
    if w.level + 1 < w.height {
      forall l | w.level < l < MAX_HEIGHT
        ensures Fresh(s', w.e, w.x, l)
      {
        assert Fresh(s, w.e, w.x, l);
      }
      forall l | w.level < l < w.height
        ensures Predecessor(s', w.e, w.prev, w.pos, l)
      {
        assert Predecessor(s, w.e, w.prev, w.pos, l);
      }
    }
  }

  lemma {:induction false} PublishInv(s: State, s': State)
    requires Inv(s) && Publish(s, s')
    ensures Inv(s') && Grows(s, s')
  {
    PublishLevel(s, s');
    PublishGrows(s, s');
    PublishNested(s, s');
    PublishWriter(s, s');
    hide LevelOk, Nested, WriterOk, Spliced, Grows;
    GrowthKeepsSearches(s, s');
  }

  // ---------- searches ----------

  lemma {:induction false} BeginInv(s: State, s': State, r: nat, key: Entry, level: nat)
    requires Inv(s) && Begin(s, s', r, key, level)
    ensures Inv(s')
  {
    assert LevelOk(s.entries, s.links[0], s.lists[0]);
    hide LevelOk, Nested, Before, SameKey;
    assert SearchOk(s', s'.searches[r]);
    SameList(s, s', r);
  }

  /** Another search changes nothing for the rest. */
  lemma {:induction false} SameList(s: State, s': State, r: nat)
    requires Shape(s) && WriterOk(s) && SearchesOk(s) && r in s'.searches
    requires s' == s.(searches := s.searches[r := s'.searches[r]]) && SearchOk(s', s'.searches[r])
    ensures WriterOk(s') && SearchesOk(s')
  {
    hide Before, SameKey, Splits;
    SameWriter(s, s');
    forall q | q in s'.searches
      ensures SearchOk(s', s'.searches[q])
    {
      if q != r {
        assert SearchOk(s, s.searches[q]);
      }
    }
  }

  lemma {:induction false} SameWriter(s: State, s': State)
    requires Shape(s) && WriterOk(s) && s' == s.(searches := s'.searches)
    ensures WriterOk(s')
  {
    hide Before, SameKey, Splits;
    match s.writer {
      case Idle =>
      case Raised(e, height, prev, pos) =>
        forall l | 0 <= l < height
          ensures Predecessor(s', e, prev, pos, l)
        {
          assert Predecessor(s, e, prev, pos, l);
        }
      case Linking(e, height, prev, pos, x, level, own) =>
        forall l | level <= l < MAX_HEIGHT
          ensures Fresh(s', e, x, l)
        {
          assert Fresh(s, e, x, l);
        }
        forall l | level <= l < height
          ensures Predecessor(s', e, prev, pos, l)
        {
          assert Predecessor(s, e, prev, pos, l);
        }
    }
  }

  /** What one load finds: the search is at a position of its level. */
  lemma {:induction false} LoadFinds(s: State, s': State, r: nat) returns (p: nat)
    requires Inv(s) && Load(s, s', r)
    ensures var q := s.searches[r];
      var list, next := s.lists[q.level], s.links[q.level][q.node];
      && p <= |list| && q.node == At(list, p) && next == (if p < |list| then list[p] else -1)
      && (next != -1 ==> 0 < next < |s.entries| && next in list)
      && (!(next != -1 && Before(s.entries[next], q.key)) ==> Splits(s.entries, list, q.key, p))
  {
    hide Nested, WriterOk, Before;
    var q := s.searches[r];
    assert SearchOk(s, q) && LevelOk(s.entries, s.links[q.level], s.lists[q.level]);
    p := GoDown(s.entries, s.links[q.level], s.lists[q.level], q.key, q.node);
    ReachedNext(s.entries, s.links[q.level], s.lists[q.level], q.key, p, q.node);
  }

  lemma {:induction false} FinishAnswers(s: State, q: Search, p: nat, next: Node)
    requires Shape(s) && LevelOk(s.entries, s.links[0], s.lists[0]) && SearchOk(s, q)
    requires Splits(s.entries, s.lists[0], q.key, p) && next == if p < |s.lists[0]| then s.lists[0][p] else -1
    ensures Answers(s, q, next)
  {
    hide Before, Linked;
    var list := s.lists[0];
    forall y | y in q.seen && 0 <= y < |s.entries| && !Before(s.entries[y], q.key)
      ensures next != -1 && !Before(s.entries[y], s.entries[next])
    {
      var i :| 0 <= i < |list| && list[i] == y;
      assert p <= i;
      NotBeforeBoth(s.entries[next], s.entries[y]);
      assert p < i ==> Before(s.entries[list[p]], s.entries[list[i]]);
    }
  }

  lemma {:induction false} NotBeforeBoth(a: Entry, b: Entry)
    ensures Before(a, b) ==> !Before(b, a)
    ensures !Before(a, a)
  {
  }

  lemma {:induction false} LoadInv(s: State, s': State, r: nat)
    requires Inv(s) && Load(s, s', r)
    ensures Inv(s')
  {
    var p := LoadFinds(s, s', r);
    var q := s.searches[r];
    var next := s.links[q.level][q.node];
    assert SearchOk(s, q);
    if !(next != -1 && Before(s.entries[next], q.key)) && q.level == 0 {
      assert LevelOk(s.entries, s.links[0], s.lists[0]);
      FinishAnswers(s, q, p, next);
    }
    hide LevelOk, Before, SameKey, Splits, Answers, WriterOk;
    LoadedOk(s, s', r);
    SameList(s, s', r);
  }

  lemma {:induction false} LoadedOk(s: State, s': State, r: nat)
    requires Inv(s) && Load(s, s', r)
    requires var q := s.searches[r];
      var next := s.links[q.level][q.node];
      && (next != -1 ==> 0 < next < |s.entries| && next in s.lists[q.level])
      && (!(next != -1 && Before(s.entries[next], q.key)) && q.level == 0 ==> Answers(s, q, next))
    ensures Shape(s') && SearchOk(s', s'.searches[r])
  {
    hide LevelsOk, WriterOk, Before;
    var q := s.searches[r];
    assert SearchOk(s, q);
    assert q.level > 0 && q.node in s.lists[q.level] ==> q.node in s.lists[q.level - 1];
  }

  lemma {:induction false} NextInv(s: State, s': State)
    requires Inv(s) && Next(s, s')
    ensures Inv(s') && Grows(s, s')
  {
    hide Inv, Raise, Allocate, SetOwn, Publish;
    if e, height, prev, pos :| Raise(s, s', e, height, prev, pos) {
      RaiseInv(s, s', e, height, prev, pos);
    } else if Allocate(s, s') {
      AllocateInv(s, s');
    } else if SetOwn(s, s') {
      SetOwnInv(s, s');
    } else if Publish(s, s') {
      PublishInv(s, s');
    } else if r, key, level :| Begin(s, s', r, key, level) {
      BeginInv(s, s', r, key, level);
    } else {
      var r :| Load(s, s', r);
      LoadInv(s, s', r);
    }
  }

  lemma {:induction false} InitInv(s: State)
    requires Init(s)
    ensures Inv(s)
  {
  }

  ghost predicate Run(trace: seq<State>) {
    && |trace| > 0 && Init(trace[0])
    && forall i :: 0 <= i < |trace| - 1 ==> Next(trace[i], trace[i + 1])
  }

  lemma {:induction false} RunInv(trace: seq<State>, n: nat)
    requires Run(trace) && n < |trace|
    ensures Inv(trace[n])
  {
    hide Inv, Init, Next;
    if n == 0 {
      InitInv(trace[0]);
    } else {
      RunInv(trace, n - 1);
      NextInv(trace[n - 1], trace[n]);
    }
  }

  // ---------- what every run guarantees ----------

  /** In every run, whatever part of an insert is done: the pointers of every level link an ascending
      list, every level is a part of the one below, and no node is ever lost. */
  lemma {:induction false} AlwaysSearchable(trace: seq<State>, i: nat, j: nat)
    requires Run(trace) && i <= j < |trace|
    ensures forall n :: i <= n <= j ==> Shape(trace[n]) && LevelsOk(trace[n]) && Nested(trace[n])
    ensures Grows(trace[i], trace[j])
    decreases j - i
  {
    hide Init, Next, LevelsOk, Nested, WriterOk, SearchesOk;
    RunInv(trace, j);
    if i < j {
      AlwaysSearchable(trace, i, j - 1);
      RunInv(trace, j - 1);
      NextInv(trace[j - 1], trace[j]);
    }
  }

  ghost predicate MayLoad(s: State, r: nat) {
    exists s' :: Load(s, s', r)
  }

  ghost predicate MayLink(s: State) {
    exists s' :: Allocate(s, s') || SetOwn(s, s') || Publish(s, s')
  }

  /** In every run, a search that has not finished can go on, and so can an insert: no pointer leads
      out of the arena. */
  lemma {:induction false} NeverStuck(trace: seq<State>, i: nat)
    requires Run(trace) && i < |trace|
    ensures forall r :: r in trace[i].searches && trace[i].searches[r].next.None? ==> MayLoad(trace[i], r)
    ensures !trace[i].writer.Idle? ==> MayLink(trace[i])
  {
    RunInv(trace, i);
    hide Init, Next, Run;
    var s := trace[i];
    forall r | r in s.searches && s.searches[r].next.None?
      ensures MayLoad(s, r)
    {
      SearchGoesOn(s, r);
    }
    if !s.writer.Idle? {
      WriterGoesOn(s);
    }
  }

  lemma {:induction false} SearchGoesOn(s: State, r: nat)
    requires Inv(s) && r in s.searches && s.searches[r].next.None?
    ensures MayLoad(s, r)
  {
    hide Before, Nested, WriterOk;
    var q := s.searches[r];
    assert SearchOk(s, q) && LevelOk(s.entries, s.links[q.level], s.lists[q.level]);
    var p := GoDown(s.entries, s.links[q.level], s.lists[q.level], q.key, q.node);
    ReachedNext(s.entries, s.links[q.level], s.lists[q.level], q.key, p, q.node);
    var next := s.links[q.level][q.node];
    var q' := if next != -1 && Before(s.entries[next], q.key) then q.(node := next)
              else if q.level == 0 then q.(next := Some(next)) else q.(level := q.level - 1);
    assert Load(s, s.(searches := s.searches[r := q']), r);
  }

  lemma {:induction false} WriterGoesOn(s: State)
    requires Inv(s) && !s.writer.Idle?
    ensures MayLink(s)
  {
    hide Before, SameKey, Splits, Ascending, Nested, SearchesOk;
    var w := s.writer;
    if w.Raised? {
      var s' := s.(entries := s.entries + [w.e],
                   links := seq(MAX_HEIGHT, l requires 0 <= l < MAX_HEIGHT => s.links[l] + [-1]),
                   writer := Linking(w.e, w.height, w.prev, w.pos, |s.entries|, 0, false));
      assert Allocate(s, s');
    } else {
      assert Predecessor(s, w.e, w.prev, w.pos, w.level) && LevelOk(s.entries, s.links[w.level], s.lists[w.level]);
      assert LinkingAt(s, w.own);
      var link := s.links[w.level];
      if w.own {
        var s' := s.(links := s.links[w.level := link[w.prev[w.level] := w.x]],
                     lists := s.lists[w.level := Spliced(s.lists[w.level], w.pos[w.level], w.x)],
                     writer := if w.level + 1 == w.height then Idle else w.(level := w.level + 1, own := false));
        assert Publish(s, s');
      } else {
        var s' := s.(links := s.links[w.level := link[w.x := link[w.prev[w.level]]]], writer := w.(own := true));
        assert SetOwn(s, s');
      }
    }
  }

  /** In every run, a search that finishes returns the last node before its key and the first one that
      is not, in the list as it is at that moment. */
  lemma {:induction false} SearchFindsSplit(trace: seq<State>, i: nat, r: nat) returns (p: nat)
    requires Run(trace) && i + 1 < |trace| && Load(trace[i], trace[i + 1], r) && trace[i + 1].searches[r].next.Some?
    ensures var s, q := trace[i], trace[i + 1].searches[r];
      && Splits(s.entries, s.lists[0], q.key, p) && q.node == At(s.lists[0], p)
      && q.next.value == if p < |s.lists[0]| then s.lists[0][p] else -1
  {
    hide Init, Next, Splits, Before;
    RunInv(trace, i);
    p := LoadFinds(trace[i], trace[i + 1], r);
  }

  lemma {:induction false} OneNodePerKey(entries: seq<Entry>, list: seq<Node>, i: nat, j: nat)
    requires InArena(entries, list) && Ascending(entries, list) && i < j < |list|
    ensures !SameKey(entries[list[i]], entries[list[j]])
  {
    assert Before(entries[list[i]], entries[list[j]]);
  }

  /** In every run, a search finds an entry with its key if it was in the list when the search began. */
  lemma {:induction false} NothingIsMissed(trace: seq<State>, i: nat, r: nat, y: Node)
    requires Run(trace) && i < |trace| && r in trace[i].searches && trace[i].searches[r].next.Some?
    requires y in trace[i].searches[r].seen && 0 <= y < |trace[i].entries|
    requires SameKey(trace[i].entries[y], trace[i].searches[r].key)
    ensures trace[i].searches[r].next == Some(y)
  {
    hide Init, Next, Nested, WriterOk;
    RunInv(trace, i);
    var s, q := trace[i], trace[i].searches[r];
    assert SearchOk(s, q) && LevelOk(s.entries, s.links[0], s.lists[0]);
    var list, next := s.lists[0], q.next.value;
    assert SameKey(s.entries[next], s.entries[y]) && SameKey(s.entries[y], s.entries[next]);
    forall a, b | 0 <= a < b < |list|
      ensures !SameKey(s.entries[list[a]], s.entries[list[b]])
    {
      OneNodePerKey(s.entries, list, a, b);
    }
    hide SameKey, Before;
    var a :| 0 <= a < |list| && list[a] == next;
    var b :| 0 <= b < |list| && list[b] == y;
  }
}
