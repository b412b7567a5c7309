/** The memtable's skip list: nodes live in an arena and are linked level by level. */
module SkipList {

  const MAX_HEIGHT: nat := 12
  const TYPE_DELETION: nat := 0
  const TYPE_VALUE: nat := 1

  /** An entry as stored in the memtable; the value plays no part in the order. */
  datatype Entry = Entry(user: nat, seqNo: nat, kind: nat, value: nat)

  function Tag(e: Entry): nat {
    e.seqNo * 256 + e.kind
  }

  /** Internal key order: user keys ascend, tags descend within a user key. */
  predicate Before(a: Entry, b: Entry) {
    a.user < b.user || (a.user == b.user && Tag(a) > Tag(b))
  }

  predicate SameKey(a: Entry, b: Entry) {
    a.user == b.user && Tag(a) == Tag(b)
  }

  /** Index into the arena; 0 is the head, -1 stands for the null pointer. */
  type Node = int

  // ---------- one level ----------

  /** Node before position p of a level: the head, or the p-th node. */
  ghost function At(list: seq<Node>, p: nat): Node
    requires p <= |list|
  {
    if p == 0 then 0 else list[p - 1]
  }

  ghost predicate InArena(entries: seq<Entry>, list: seq<Node>) {
    forall i :: 0 <= i < |list| ==> 0 < list[i] < |entries|
  }

  ghost predicate Ascending(entries: seq<Entry>, list: seq<Node>)
    requires InArena(entries, list)
  {
    forall i, j :: 0 <= i < j < |list| ==> Before(entries[list[i]], entries[list[j]])
  }

  ghost predicate Linked(link: seq<Node>, list: seq<Node>) {
    && (forall i :: 0 <= i < |list| ==> 0 < list[i] < |link|)
    && 0 < |link|
    && forall p :: 0 <= p <= |list| ==> link[At(list, p)] == if p < |list| then list[p] else -1
  }

  ghost predicate LevelOk(entries: seq<Entry>, link: seq<Node>, list: seq<Node>) {
    |link| == |entries| && InArena(entries, list) && Ascending(entries, list) && Linked(link, list)
  }

  /** Position p splits a level into what sorts before an entry and what does not. */
  ghost predicate Splits(entries: seq<Entry>, list: seq<Node>, e: Entry, p: nat) {
    && InArena(entries, list) && p <= |list|
    && (forall i :: 0 <= i < p ==> Before(entries[list[i]], e))
    && (forall i :: p <= i < |list| ==> !Before(entries[list[i]], e))
  }

  ghost function Spliced(list: seq<Node>, p: nat, x: Node): seq<Node>
    requires p <= |list|
  {
    list[..p] + [x] + list[p..]
  }

  lemma {:induction false} BeforeTrans(a: Entry, b: Entry, c: Entry)
    ensures Before(a, b) && Before(b, c) ==> Before(a, c)
  {
  }

  lemma {:induction false} EqualNotBefore(a: Entry, b: Entry)
    ensures SameKey(a, b) ==> !Before(a, b)
  {
  }

  lemma {:induction false} EqualComesFirst(a: Entry, b: Entry, c: Entry)
    ensures Before(a, b) && SameKey(b, c) ==> Before(a, c)
  {
  }

  lemma {:induction false} Total(a: Entry, b: Entry)
    ensures Before(a, b) || SameKey(a, b) || Before(b, a)
  {
  }

  ghost predicate SplicedFrom(list': seq<Node>, list: seq<Node>, p: nat, x: Node) {
    && |list'| == |list| + 1 && p <= |list| && list'[p] == x
    && (forall i :: 0 <= i < p ==> list'[i] == list[i])
    && (forall i :: p < i < |list'| ==> list'[i] == list[i - 1])
  }

  lemma {:induction false} SplicedAt(list: seq<Node>, p: nat, x: Node)
    requires p <= |list|
    ensures SplicedFrom(Spliced(list, p, x), list, p, x)
  {
  }

  lemma {:induction false} SpliceLinks(link: seq<Node>, list: seq<Node>, p: nat, x: Node)
    requires Linked(link, list) && p <= |list| && 0 < x < |link| && x !in list
    requires forall i, j :: 0 <= i < j < |list| ==> list[i] != list[j]
    ensures Linked(link[x := link[At(list, p)]][At(list, p) := x], Spliced(list, p, x))
  {
    var prev := At(list, p);
    var link', list' := link[x := link[prev]][prev := x], Spliced(list, p, x);
    SplicedAt(list, p, x);
    hide Spliced;
    assert forall q :: 0 <= q <= |list| ==> At(list, q) != x && (q != p ==> At(list, q) != prev);
    forall q | 0 <= q <= |list'|
      ensures link'[At(list', q)] == if q < |list'| then list'[q] else -1
    {
      if q <= p {
        assert At(list', q) == At(list, q);
      } else if q == p + 1 {
        assert At(list', q) == x;
      } else {
        assert At(list', q) == At(list, q - 1);
      }
    }
  }

  lemma {:induction false} SpliceAscends(entries: seq<Entry>, list: seq<Node>, p: nat, e: Entry)
    requires |entries| > 0 && InArena(entries, list) && Ascending(entries, list) && Splits(entries, list, e, p)
    requires forall i :: 0 <= i < |list| ==> !SameKey(entries[list[i]], e)
    ensures InArena(entries + [e], Spliced(list, p, |entries|)) && Ascending(entries + [e], Spliced(list, p, |entries|))
  {
    hide Before, SameKey, Spliced;
    var entries', list' := entries + [e], Spliced(list, p, |entries|);
    SplicedAt(list, p, |entries|);
    assert InArena(entries', list');
    forall i, j | 0 <= i < j < |list'|
      ensures Before(entries'[list'[i]], entries'[list'[j]])
    {
      if i < p && j < p {
        assert Before(entries[list[i]], entries[list[j]]);
      } else if i < p && j == p {
        assert Before(entries[list[i]], e);
      } else if i < p {
        assert Before(entries[list[i]], entries[list[j - 1]]);
      } else if i == p {
        Total(entries[list[j - 1]], e);
      } else {
        assert Before(entries[list[i - 1]], entries[list[j - 1]]);
      }
    }
  }

  lemma {:induction false} AscendingDistinct(entries: seq<Entry>, list: seq<Node>)
    requires InArena(entries, list) && Ascending(entries, list)
    ensures forall i, j :: 0 <= i < j < |list| ==> list[i] != list[j]
  {
    assert forall i, j :: 0 <= i < j < |list| ==> Before(entries[list[i]], entries[list[j]]);
  }

  /** The search has come to position p of a level. */
  ghost predicate Reached(entries: seq<Entry>, list: seq<Node>, e: Entry, p: nat, x: Node) {
    && InArena(entries, list) && p <= |list| && x == At(list, p)
    && forall i :: 0 <= i < p ==> Before(entries[list[i]], e)
  }

  lemma {:induction false} ReachedNext(entries: seq<Entry>, link: seq<Node>, list: seq<Node>, e: Entry, p: nat, x: Node)
    requires LevelOk(entries, link, list) && Reached(entries, list, e, p, x)
    ensures p <= |list| && 0 <= x < |link| == |entries| && link[x] == (if p < |list| then list[p] else -1)
    ensures link[x] != -1 ==> 0 < link[x] < |entries|
    ensures link[x] != -1 && Before(entries[link[x]], e) ==> Reached(entries, list, e, p + 1, link[x])
    ensures !(link[x] != -1 && Before(entries[link[x]], e)) ==> Splits(entries, list, e, p) && x == At(list, p)
    ensures x != 0 ==> x in list && Before(entries[x], e)
  {
    hide Before;
    if p == |list| || !Before(entries[list[p]], e) {
      SplitHere(entries, list, e, p);
    }
  }

  /** Where the next node is not before the entry, no later one is. */
  lemma {:induction false} SplitHere(entries: seq<Entry>, list: seq<Node>, e: Entry, p: nat)
    requires InArena(entries, list) && Ascending(entries, list) && p <= |list|
    requires forall i :: 0 <= i < p ==> Before(entries[list[i]], e)
    requires p < |list| ==> !Before(entries[list[p]], e)
    ensures Splits(entries, list, e, p)
  {
    hide Before;
    forall i | p <= i < |list|
      ensures !Before(entries[list[i]], e)
    {
      BeforeTrans(entries[list[p]], entries[list[i]], e);
    }
  }

  /** Going down a level: the same node, with everything before it still before the entry. */
  lemma {:induction false} GoDown(entries: seq<Entry>, link: seq<Node>, below: seq<Node>, e: Entry, x: Node)
    returns (p: nat)
    requires LevelOk(entries, link, below) && 0 <= x < |entries|
    requires x == 0 || (x in below && Before(entries[x], e))
    ensures Reached(entries, below, e, p, x)
  {
    hide Before, Linked;
    if x == 0 {
      p := 0;
    } else {
      var i :| 0 <= i < |below| && below[i] == x;
      p := i + 1;
      forall k | 0 <= k < p
        ensures Before(entries[below[k]], e)
      {
        BeforeTrans(entries[below[k]], entries[below[i]], e);
      }
    }
  }

  lemma {:induction false} ReachedStart(entries: seq<Entry>, link: seq<Node>, list: seq<Node>, e: Entry)
    requires LevelOk(entries, link, list)
    ensures Reached(entries, list, e, 0, 0)
  {
  }

  ghost function EntriesOf(entries: seq<Entry>, list: seq<Node>): seq<Entry>
    requires InArena(entries, list)
  {
    seq(|list|, i requires 0 <= i < |list| => entries[list[i]])
  }

  /** Appending a node to the arena leaves every level as it is. */
  lemma {:induction false} GrowLevel(entries: seq<Entry>, link: seq<Node>, list: seq<Node>, e: Entry)
    requires LevelOk(entries, link, list)
    ensures LevelOk(entries + [e], link + [-1], list)
  {
  }

  /** Linking the new node behind its predecessor, in one level. */
  lemma {:induction false} InsertLevel(entries: seq<Entry>, link: seq<Node>, list: seq<Node>, e: Entry, p: nat)
    requires |entries| > 0 && LevelOk(entries, link, list) && Splits(entries, list, e, p)
    requires forall i :: 0 <= i < |list| ==> !SameKey(entries[list[i]], e)
    ensures var x, prev, grown := |entries|, At(list, p), link + [-1];
      0 <= prev < |grown| && x < |grown|
        && LevelOk(entries + [e], grown[x := grown[prev]][prev := x], Spliced(list, p, x))
  {
    hide SameKey, Before;
    GrowLevel(entries, link, list, e);
    AscendingDistinct(entries, list);
    SpliceAscends(entries, list, p, e);
    SpliceLinks(link + [-1], list, p, |entries|);
  }

  // ---------- the list ----------

  class SkipList {
    /** The arena: node x holds entries[x], and links[l][x] is its successor at level l. */
    var entries: seq<Entry>
    var heights: seq<nat>
    var links: seq<seq<Node>>
    var maxHeight: nat
    var nputs: seq<nat>
    /** The nodes of every level, in order. */
    ghost var levels: seq<seq<Node>>

    ghost predicate Shape()
      reads this
    {
      |links| == MAX_HEIGHT == |levels| == |nputs| && |entries| > 0 && |heights| == |entries|
        && 1 <= maxHeight <= MAX_HEIGHT
    }

    ghost predicate LevelsOk()
      requires Shape()
      reads this
    {
      forall l :: 0 <= l < MAX_HEIGHT ==> LevelOk(entries, links[l], levels[l])
    }

    /** A level holds exactly the nodes that are tall enough, so it is a sublist of the one below. */
    ghost predicate Members()
      requires Shape()
      reads this
    {
      && (forall l, x :: 0 <= l < MAX_HEIGHT && x in levels[l] ==> 0 < x < |heights| && l < heights[x])
      && (forall l, x :: 0 <= l < MAX_HEIGHT && 0 < x < |heights| && l < heights[x] ==> x in levels[l])
      && (forall x :: 0 < x < |heights| ==> 1 <= heights[x])
    }

    ghost predicate Counts()
      requires Shape()
      reads this
    {
      && (forall l :: 0 <= l < MAX_HEIGHT ==> nputs[l] == |levels[l]|)
      && (forall l :: maxHeight <= l < MAX_HEIGHT ==> levels[l] == [])
    }

    ghost predicate Valid()
      reads this
    {
      Shape() && LevelsOk() && Members() && Counts()
    }

    /** Every level is a sublist of the ones below. */
    lemma {:induction false} LowerLevelHas(l: nat, k: nat, x: Node)
      requires Shape() && Members() && k <= l < MAX_HEIGHT && x in levels[l]
      ensures x in levels[k]
    {
      assert 0 < x < |heights| && l < heights[x];
    }

    /** What is in the list: the entries of the lowest level, in order. */
    ghost function Contents(): seq<Entry>
      requires Shape() && LevelsOk()
      reads this
    {
      assert LevelOk(entries, links[0], levels[0]);
      EntriesOf(entries, levels[0])
    }

    constructor ()
      ensures Valid() && Contents() == []
    {
      entries := [Entry(0, 0, 0, 0)];
      heights := [MAX_HEIGHT];
      links := seq(MAX_HEIGHT, _ => [-1]);
      maxHeight := 1;
      nputs := seq(MAX_HEIGHT, _ => 0);
      levels := seq(MAX_HEIGHT, _ => []);
    }

    /** The first node that is not before the entry, and the last node before it on every level. */
    method FindGreaterOrEqual(e: Entry) returns (x: Node, prev: seq<Node>, ghost pos: seq<nat>)
      requires Valid()
      ensures |prev| == MAX_HEIGHT == |pos|
      ensures forall l :: 0 <= l < maxHeight ==>
        pos[l] <= |levels[l]| && Splits(entries, levels[l], e, pos[l]) && prev[l] == At(levels[l], pos[l])
      ensures x == if pos[0] < |levels[0]| then levels[0][pos[0]] else -1
    {
      hide LevelOk, Splits, Before, Reached;
      prev, pos := seq(MAX_HEIGHT, _ => 0), seq(MAX_HEIGHT, _ => 0);
      var node, level := 0, maxHeight - 1;
      ghost var p: nat := 0;
      ReachedStart(entries, links[level], levels[level], e);
      while true
        invariant 0 <= level < maxHeight && |prev| == MAX_HEIGHT == |pos| && Reached(entries, levels[level], e, p, node)
        invariant forall l :: level < l < maxHeight ==>
          pos[l] <= |levels[l]| && Splits(entries, levels[l], e, pos[l]) && prev[l] == At(levels[l], pos[l])
        decreases level, |levels[level]| - p
      {
        ReachedNext(entries, links[level], levels[level], e, p, node);
        var next := links[level][node];
        if next != -1 && Before(entries[next], e) {
          node, p := next, p + 1;
        } else {
          prev, pos := prev[level := node], pos[level := p];
          if level == 0 {
            return next, prev, pos;
          }
          if node != 0 {
            LowerLevelHas(level, level - 1, node);
          }
          p := GoDown(entries, links[level - 1], levels[level - 1], e, node);
          level := level - 1;
        }
      }
    }

    /** The last node before an entry; the head if there is none. */
    method FindLessThan(e: Entry) returns (x: Node, ghost p: nat)
      requires Valid()
      ensures p <= |levels[0]| && Splits(entries, levels[0], e, p) && x == At(levels[0], p)
    {
      hide LevelOk, Splits, Before, Reached;
      var level := maxHeight - 1;
      x, p := 0, 0;
      ReachedStart(entries, links[level], levels[level], e);
      while true
        invariant 0 <= level < maxHeight && Reached(entries, levels[level], e, p, x)
        decreases level, |levels[level]| - p
      {
        ReachedNext(entries, links[level], levels[level], e, p, x);
        var next := links[level][x];
        if next == -1 || !Before(entries[next], e) {
          if level == 0 {
            return;
          }
          if x != 0 {
            LowerLevelHas(level, level - 1, x);
          }
          p := GoDown(entries, links[level - 1], levels[level - 1], e, x);
          level := level - 1;
        } else {
          x, p := next, p + 1;
        }
      }
    }

    method Has(e: Entry) returns (yes: bool)
      requires Valid()
      ensures yes <==> !Absent(e)
    {
      hide LevelOk, SameKey;
      var x, prev, pos := FindGreaterOrEqual(e);
      assert LevelOk(entries, links[0], levels[0]);
      FirstNotBefore(entries, links[0], levels[0], e, pos[0]);
      yes := x != -1 && SameKey(entries[x], e);
      if yes {
        assert Contents()[pos[0]] == entries[x];
      }
      forall i | 0 <= i < |Contents()|
        ensures SameKey(Contents()[i], e) ==> yes
      {
        assert Contents()[i] == entries[levels[0][i]];
      }
    }

    /** The level a sampling iterator walks: the highest one with more entries than the sample. */
    method SampleLevel(sample: nat) returns (level: nat)
      requires Valid()
      ensures level < MAX_HEIGHT && (level == 0 || |levels[level]| > sample)
      ensures sample > 0 ==> forall l :: level < l < MAX_HEIGHT ==> |levels[l]| <= sample
    {
      level := 0;
      if sample > 0 {
        var l := MAX_HEIGHT - 1;
        while l >= 0
          invariant -1 <= l < MAX_HEIGHT
          invariant forall k :: l < k < MAX_HEIGHT ==> |levels[k]| <= sample
        {
          if nputs[l] > sample {
            return l;
          }
          l := l - 1;
        }
      }
    }

    /** Whether no entry compares equal. */
    ghost predicate Absent(e: Entry)
      requires Shape() && LevelsOk()
      reads this
    {
      forall x :: x in Contents() ==> !SameKey(x, e)
    }

    lemma {:induction false} AbsentEverywhere(e: Entry, l: nat)
      requires Valid() && Absent(e) && l < MAX_HEIGHT
      ensures InArena(entries, levels[l]) && forall i :: 0 <= i < |levels[l]| ==> !SameKey(entries[levels[l][i]], e)
    {
      assert LevelOk(entries, links[l], levels[l]) && LevelOk(entries, links[0], levels[0]);
      hide LevelOk, SameKey;
      forall i | 0 <= i < |levels[l]|
        ensures !SameKey(entries[levels[l][i]], e)
      {
        LowerLevelHas(l, 0, levels[l][i]);
        var j :| 0 <= j < |levels[0]| && levels[0][j] == levels[l][i];
        assert Contents()[j] == entries[levels[l][i]];
      }
    }

    /** NewNode: room for the node in the arena, not yet linked. */
    method NewNode(e: Entry, height: nat) returns (x: Node)
      requires Shape() && LevelsOk() && height <= MAX_HEIGHT
      modifies this`entries, this`heights, this`links
      ensures Shape() && LevelsOk() && x == |old(entries)|
      ensures entries == old(entries) + [e] && heights == old(heights) + [height]
      ensures forall l :: 0 <= l < MAX_HEIGHT ==> links[l] == old(links)[l] + [-1]
    {
      hide LevelOk;
      x := |entries|;
      forall l | 0 <= l < MAX_HEIGHT
        ensures LevelOk(entries + [e], links[l] + [-1], levels[l])
      {
        GrowLevel(entries, links[l], levels[l], e);
      }
      entries, heights := entries + [e], heights + [height];
      var old' := links;
      links := seq(MAX_HEIGHT, l requires 0 <= l < |old'| => old'[l] + [-1]);
    }

    /** On the levels the list has not reached so far, the predecessor is the head. */
    method FindPredecessors(e: Entry, height: nat) returns (prev: seq<Node>, ghost pos: seq<nat>)
      requires Valid() && 1 <= height <= MAX_HEIGHT
      modifies this`maxHeight
      ensures Valid() && |prev| == MAX_HEIGHT == |pos|
      ensures maxHeight == if height > old(maxHeight) then height else old(maxHeight)
      ensures forall l :: 0 <= l < maxHeight ==>
        pos[l] <= |levels[l]| && Splits(entries, levels[l], e, pos[l]) && prev[l] == At(levels[l], pos[l])
    {
      hide LevelOk, Before;
      var node;
      node, prev, pos := FindGreaterOrEqual(e);
      if height > maxHeight {
        for i := maxHeight to height
          invariant |prev| == MAX_HEIGHT == |pos|
          invariant forall l :: 0 <= l < i ==>
            pos[l] <= |levels[l]| && Splits(entries, levels[l], e, pos[l]) && prev[l] == At(levels[l], pos[l])
        {
          prev, pos := prev[i := 0], pos[i := 0];
        }
        maxHeight := height;
      }
    }

    /** Link the new node x into its levels; `old'`, `list` and `n` are the links, the levels and
        the counts before the node was allocated. */
    method LinkNode(x: Node, e: Entry, height: nat, prev: seq<Node>, ghost pos: seq<nat>,
                    ghost arena: seq<Entry>, ghost link: seq<seq<Node>>)
      requires Shape() && height <= MAX_HEIGHT && |prev| == MAX_HEIGHT == |pos| == |link|
      requires x == |arena| > 0 && entries == arena + [e]
      requires forall l :: 0 <= l < MAX_HEIGHT ==> links[l] == link[l] + [-1] && LevelOk(arena, link[l], levels[l])
      requires forall l :: 0 <= l < height ==>
        && pos[l] <= |levels[l]| && Splits(arena, levels[l], e, pos[l]) && prev[l] == At(levels[l], pos[l])
        && forall i :: 0 <= i < |levels[l]| ==> !SameKey(arena[levels[l][i]], e)
      modifies this`links, this`levels, this`nputs
      ensures Shape()
      ensures forall l :: 0 <= l < MAX_HEIGHT ==> LevelOk(entries, links[l], levels[l])
      ensures forall l :: 0 <= l < height ==>
        pos[l] <= |old(levels)[l]| && levels[l] == Spliced(old(levels)[l], pos[l], x) && nputs[l] == old(nputs)[l] + 1
      ensures forall l :: height <= l < MAX_HEIGHT ==> levels[l] == old(levels)[l] && nputs[l] == old(nputs)[l]
    {
      ghost var lists, counts := levels, nputs;
      hide LevelOk, Splits, SameKey, Spliced, At;
      for i := 0 to height
        invariant Shape()
        invariant forall l :: 0 <= l < i ==>
          LevelOk(entries, links[l], levels[l]) && levels[l] == Spliced(lists[l], pos[l], x)
            && nputs[l] == counts[l] + 1
        invariant forall l :: i <= l < MAX_HEIGHT ==>
          levels[l] == lists[l] && links[l] == link[l] + [-1] && nputs[l] == counts[l]
      {
        InsertLevel(arena, link[i], lists[i], e, pos[i]);
        links := links[i := links[i][x := links[i][prev[i]]][prev[i] := x]];
        levels := levels[i := Spliced(lists[i], pos[i], x)];
        nputs := nputs[i := nputs[i] + 1];
      }
      forall l | height <= l < MAX_HEIGHT
        ensures LevelOk(entries, links[l], levels[l])
      {
        GrowLevel(arena, link[l], lists[l], e);
      }
    }

    /** The height is drawn at random; the entry goes to its place in the order. */
    method Insert(e: Entry, height: nat)
      requires Valid() && Absent(e) && 1 <= height <= MAX_HEIGHT
      modifies this
      ensures Valid()
      ensures exists p :: 0 <= p <= |old(Contents())| && Contents() == old(Contents())[..p] + [e] + old(Contents())[p..]
      ensures entries == old(entries) + [e] && heights == old(heights) + [height]
      ensures maxHeight == if height > old(maxHeight) then height else old(maxHeight)
    {
      hide LevelOk, Splits, SameKey, Spliced, Before, At;
      forall l | 0 <= l < MAX_HEIGHT
        ensures InArena(entries, levels[l]) && forall i :: 0 <= i < |levels[l]| ==> !SameKey(entries[levels[l][i]], e)
      {
        AbsentEverywhere(e, l);
      }
      ghost var arena, link, lists, before := entries, links, levels, Contents();
      var prev, pos := FindPredecessors(e, height);
      var x := NewNode(e, height);
      LinkNode(x, e, height, prev, pos, arena, link);
      forall l | 0 <= l < height
        ensures |levels[l]| == |lists[l]| + 1 && forall y :: y in levels[l] <==> y == x || y in lists[l]
      {
        SplicedMembers(lists[l], pos[l], x);
      }
      SplicedEntries(arena, e, lists[0], pos[0]);
      assert |before| == |lists[0]| && Contents() == before[..pos[0]] + [e] + before[pos[0]..];
    }
  }

  /** Around the split of a level: everything that compares equal can only be at the split. */
  lemma {:induction false} FirstNotBefore(entries: seq<Entry>, link: seq<Node>, list: seq<Node>, e: Entry, p: nat)
    requires LevelOk(entries, link, list) && Splits(entries, list, e, p)
    ensures InArena(entries, list) && p <= |list|
    ensures forall i :: 0 <= i < |list| && SameKey(entries[list[i]], e) ==> i == p
  {
    hide Linked, Before, SameKey;
    forall i | 0 <= i < p
      ensures !SameKey(entries[list[i]], e)
    {
      EqualNotBefore(entries[list[i]], e);
    }
    forall i | p < i < |list|
      ensures !SameKey(entries[list[i]], e)
    {
      assert Before(entries[list[p]], entries[list[i]]);
      EqualComesFirst(entries[list[p]], entries[list[i]], e);
    }
  }

  lemma {:induction false} SplicedMembers(list: seq<Node>, p: nat, x: Node)
    requires p <= |list|
    ensures |Spliced(list, p, x)| == |list| + 1 && forall y :: y in Spliced(list, p, x) <==> y == x || y in list
  {
    assert list == list[..p] + list[p..];
  }

  lemma {:induction false} SplicedEntries(arena: seq<Entry>, e: Entry, list: seq<Node>, p: nat)
    requires InArena(arena, list) && p <= |list| && |arena| > 0
    ensures var s := EntriesOf(arena, list);
      InArena(arena + [e], Spliced(list, p, |arena|))
        && EntriesOf(arena + [e], Spliced(list, p, |arena|)) == s[..p] + [e] + s[p..]
  {
    SplicedAt(list, p, |arena|);
  }

  // ---------- the memtable ----------

  datatype GetResult = Found(value: nat) | Deleted | Missing

  /** The newest of the added entries that a snapshot can see. */
  ghost predicate IsAnswer(added: seq<Entry>, user: nat, snapshot: nat, e: Entry) {
    && e in added && e.user == user && e.seqNo <= snapshot
    && forall x :: x in added && x.user == user && x.seqNo <= snapshot ==> Tag(x) <= Tag(e)
  }

  ghost predicate KindsOk(added: seq<Entry>) {
    forall i :: 0 <= i < |added| ==> added[i].kind <= TYPE_VALUE
  }

  /** The key a read seeks: the highest tag that the snapshot allows. */
  function LookupKey(user: nat, snapshot: nat): Entry {
    Entry(user, snapshot, TYPE_VALUE, 0)
  }

  lemma {:induction false} SeekFinds(entries: seq<Entry>, link: seq<Node>, list: seq<Node>, user: nat, snapshot: nat,
                                     p: nat)
    requires LevelOk(entries, link, list) && Splits(entries, list, LookupKey(user, snapshot), p)
    requires KindsOk(EntriesOf(entries, list))
    ensures p < |list| && entries[list[p]].user == user ==>
      IsAnswer(EntriesOf(entries, list), user, snapshot, entries[list[p]])
    ensures !(p < |list| && entries[list[p]].user == user) ==>
      forall x :: x in EntriesOf(entries, list) && x.user == user ==> x.seqNo > snapshot
  {
    hide Linked, Before;
    var added, target := EntriesOf(entries, list), LookupKey(user, snapshot);
    forall i | 0 <= i < |list|
      ensures added[i].user == user && added[i].seqNo <= snapshot ==>
        p <= i && added[p].user == user && Tag(added[i]) <= Tag(added[p])
    {
      assert added[i] == entries[list[i]] && added[i].kind <= TYPE_VALUE;
      if added[i].user == user && added[i].seqNo <= snapshot {
        VisibleNotBefore(added[i], user, snapshot);
      }
      if p <= i && added[i].user == user {
        assert added[p] == entries[list[p]];
        assert p < i ==> Before(entries[list[p]], entries[list[i]]);
        NextInOrder(added[p], added[i], user, snapshot);
      }
    }
    if p < |list| && entries[list[p]].user == user {
      assert added[p] == entries[list[p]];
      SeenIsVisible(added[p], user, snapshot);
    }
  }

  lemma {:induction false} VisibleNotBefore(x: Entry, user: nat, snapshot: nat)
    requires x.kind <= TYPE_VALUE && x.user == user && x.seqNo <= snapshot
    ensures !Before(x, LookupKey(user, snapshot))
  {
  }

  lemma {:induction false} NextInOrder(a: Entry, b: Entry, user: nat, snapshot: nat)
    requires !Before(a, LookupKey(user, snapshot)) && (a == b || Before(a, b)) && b.user == user
    ensures a.user == user && Tag(b) <= Tag(a)
  {
  }

  lemma {:induction false} SeenIsVisible(a: Entry, user: nat, snapshot: nat)
    requires !Before(a, LookupKey(user, snapshot)) && a.user == user
    ensures a.seqNo <= snapshot
  {
  }

  class MemTable {
    const table: SkipList

    constructor ()
      ensures fresh(table) && table.Valid() && table.Contents() == []
    {
      table := new SkipList();
    }

    /** Sequence numbers are unique, so no entry of the same key and tag is there yet. */
    method Add(e: Entry, height: nat)
      requires table.Valid() && table.Absent(e) && 1 <= height <= MAX_HEIGHT
      modifies table
      ensures table.Valid()
      ensures multiset(table.Contents()) == multiset(old(table.Contents())) + multiset{e}
    {
      ghost var before := table.Contents();
      table.Insert(e, height);
      ghost var p :| 0 <= p <= |before| && table.Contents() == before[..p] + [e] + before[p..];
      assert before == before[..p] + before[p..];
    }

    method Get(user: nat, snapshot: nat) returns (r: GetResult)
      requires table.Valid() && KindsOk(table.Contents())
      ensures r.Missing? ==> forall x :: x in table.Contents() && x.user == user ==> x.seqNo > snapshot
      ensures r.Found? ==>
        exists e :: IsAnswer(table.Contents(), user, snapshot, e) && e.kind == TYPE_VALUE && e.value == r.value
      ensures r.Deleted? ==> exists e :: IsAnswer(table.Contents(), user, snapshot, e) && e.kind == TYPE_DELETION
    {
      hide Splits, IsAnswer;
      var x, prev, pos := table.FindGreaterOrEqual(LookupKey(user, snapshot));
      assert LevelOk(table.entries, table.links[0], table.levels[0]);
      SeekFinds(table.entries, table.links[0], table.levels[0], user, snapshot, pos[0]);
      if x != -1 {
        var e := table.entries[x];
        if e.user == user {
          assert e == table.Contents()[pos[0]];
          return if e.kind == TYPE_VALUE then Found(e.value) else Deleted;
        }
      }
      return Missing;
    }
  }
}
