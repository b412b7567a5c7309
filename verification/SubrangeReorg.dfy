/** Minor reorganisations of the subranges: tiny ranges are pushed to neighbours, and duplicates
    of hot keys are created and destroyed.  None of it loses keys or inserts. */
module SubrangeReorg {
  import opened Subranges

  /** Inserts seen by a subrange as a share of all inserts. */
  function Ratio(s: Sub, total: real): real
    requires total > 0.0
  {
    TinyTotal(s.tiny) / total
  }

  // ---------- destroying a duplicate ----------

  function LessOne(dups: nat): nat {
    if dups <= 2 then 0 else dups - 1
  }

  /** What a duplicate becomes when its share grows and one duplicate fewer is left. */
  function Shared(s: Sub, share: real, dups: nat): Sub
    requires |s.tiny| == 1
  {
    Sub([s.tiny[0].(ninserts := s.tiny[0].ninserts + share)], dups)
  }

  ghost predicate AllShared(g: seq<Sub>, g': seq<Sub>, share: real, dups: nat) {
    |g'| == |g| && forall i :: 0 <= i < |g| ==> |g[i].tiny| == 1 && g'[i] == Shared(g[i], share, dups)
  }

  lemma {:induction false} SharedTotal(g: seq<Sub>, g': seq<Sub>, share: real, dups: nat)
    requires AllShared(g, g', share, dups)
    ensures Total(g') == Total(g) + |g| as real * share
  {
    if g != [] {
      var n := |g| - 1;
      SharedTotal(g[..n], g'[..n], share, dups);
      SharedOne(g[n], share, dups);
      assert (n + 1) as real * share == n as real * share + share;
    }
  }

  lemma {:induction false} SharedOne(s: Sub, share: real, dups: nat)
    requires |s.tiny| == 1
    ensures TinyTotal(Shared(s, share, dups).tiny) == TinyTotal(s.tiny) + share
  {
    TinyTotalOne(s.tiny[0]);
    TinyTotalOne(Shared(s, share, dups).tiny[0]);
    assert s.tiny == [s.tiny[0]];
  }

  lemma {:induction false} TotalWithout(g: seq<Sub>, k: nat)
    requires k < |g|
    ensures Total(g[..k] + g[k + 1..]) == Total(g) - TinyTotal(g[k].tiny)
  {
    var a, b := g[..k], g[k + 1..];
    TotalOne(g[k]);
    TotalConcat(a, b);
    TotalConcat(a, [g[k]]);
    TotalConcat(a + [g[k]], b);
    hide Total;
    assert g == a + [g[k]] + b;
  }

  /** The rest of a group of duplicates takes over the inserts of the one that goes. */
  lemma {:induction false} DestroyTotal(g: seq<Sub>, g': seq<Sub>, k: nat, share: real, dups: nat)
    requires AllShared(g, g', share, dups) && k < |g| && |g| >= 2 && share == TinyTotal(g[k].tiny) / (|g| - 1) as real
    ensures Total(g'[..k] + g'[k + 1..]) == Total(g)
  {
    SharedTotal(g, g', share, dups);
    SharedOne(g[k], share, dups);
    TotalWithout(g', k);
    hide Total, TinyTotal;
    var x, n := TinyTotal(g[k].tiny), (|g| - 1) as real;
    assert n * share == x;
    assert |g| as real * share == n * share + share;
  }

  lemma {:induction false} DestroyTiles(g: seq<Sub>, g': seq<Sub>, k: nat, share: real, key: nat)
    requires Block(g, key, key + 1) && g[0].dups > 0 && k < |g| && AllShared(g, g', share, LessOne(g[0].dups))
    ensures Tiles(g'[..k] + g'[k + 1..], key, key + 1)
  {
    var h, d := g'[..k] + g'[k + 1..], g[0].dups;
    forall i | 0 <= i < |h|
      ensures IsDuplicate(h[i], key, LessOne(d))
    {
      var j := if i < k then i else i + 1;
      assert h[i] == g'[j] && IsDuplicate(g[j], key, d);
    }
    if d == 2 {
      assert IsDuplicate(h[0], key, 0);
      assert h[0].tiny[1..] == [];
    }
    BlockTiles(h, key, key + 1);
  }

  /** First and last duplicate of a key. */
  method FindDuplicates(subs: seq<Sub>, ghost lo: nat, ghost hi: nat, index: nat, ghost p: Place)
    returns (start: nat, end: nat)
    requires InBlock(subs, lo, hi, index, p) && subs[index].dups > 0 && Tiles(subs, lo, hi)
    ensures start == p.first && end == p.next - 1
  {
    MembersOfBlock(subs, lo, hi, index, p);
    hide Tiles, Block;
    var lower := subs[index].tiny[0].lower;
    var first, last := -1, -1;
    for i := 0 to |subs|
      invariant i <= p.first ==> first == -1
      invariant i > p.first ==> first == p.first && last == if i < p.next then i - 1 else p.next - 1
    {
      if subs[i].dups != 0 && subs[i].tiny[0].lower == lower {
        last := i;
        if first == -1 {
          first := i;
        }
      }
    }
    start, end := first, last;
  }

  lemma {:induction false} MembersOfBlock(subs: seq<Sub>, lo: nat, hi: nat, index: nat, p: Place)
    requires InBlock(subs, lo, hi, index, p) && subs[index].dups > 0
    ensures forall i :: 0 <= i < |subs| ==> subs[i].tiny != []
    ensures Lower(subs[index]) == p.lo && p.hi == p.lo + 1 && p.next == p.first + subs[index].dups
    ensures forall i :: 0 <= i < |subs| ==> (p.first <= i < p.next <==> subs[i].dups != 0 && Lower(subs[i]) == p.lo)
  {
    var g := subs[p.first..p.next];
    TilesBounds(subs[..p.first], lo, p.lo);
    TilesBounds(subs[p.next..], p.hi, hi);
    BlockMember(g, p.lo, p.hi, index - p.first);
    assert g[index - p.first] == subs[index];
    hide Tiles;
    forall i | 0 <= i < |subs|
      ensures subs[i].tiny != [] && (p.first <= i < p.next <==> subs[i].dups != 0 && Lower(subs[i]) == p.lo)
    {
      if i < p.first {
        assert subs[i] == subs[..p.first][i];
      } else if i < p.next {
        assert subs[i] == g[i - p.first];
        BlockMember(g, p.lo, p.hi, i - p.first);
      } else {
        assert subs[i] == subs[p.next..][i - p.next];
      }
    }
  }

  function ShareOf(s: Sub): real
    requires s.dups > 1
  {
    TinyTotal(s.tiny) / (s.dups - 1) as real
  }

  /** Every duplicate of the group takes a share of the inserts of the one that will go. */
  ghost predicate ShareMoved(subs: seq<Sub>, all: seq<Sub>, first: nat, next: nat, share: real, dups: nat) {
    && |all| == |subs| && first <= next <= |subs|
    && (forall j :: first <= j < next ==> |subs[j].tiny| == 1 && all[j] == Shared(subs[j], share, dups))
    && (forall j :: 0 <= j < first || next <= j < |subs| ==> all[j] == subs[j])
  }

  method ShareRange(subs: seq<Sub>, start: nat, next: nat, share: real, dups: nat) returns (all: seq<Sub>)
    requires start <= next <= |subs| && forall j :: start <= j < next ==> |subs[j].tiny| == 1
    ensures |all| == |subs| && ShareMoved(subs, all, start, next, share, dups)
  {
    hide Shared;
    all := subs;
    for i := start to next
      invariant ShareMoved(subs, all, start, i, share, dups)
    {
      all := all[i := Shared(all[i], share, dups)];
    }
  }

  method MoveShare(subs: seq<Sub>, ghost lo: nat, ghost hi: nat, index: nat, ghost p: Place) returns (all: seq<Sub>)
    requires Tiles(subs, lo, hi) && InBlock(subs, lo, hi, index, p) && subs[index].dups > 1
    ensures |all| == |subs| && ShareMoved(subs, all, p.first, p.next, ShareOf(subs[index]), LessOne(subs[index].dups))
  {
    hide Tiles, TinyTotal, LessOne, ShareMoved;
    var start, end := FindDuplicates(subs, lo, hi, index, p);
    SinglesInBlock(subs, lo, hi, index, p);
    var share := TinyTotal(subs[index].tiny) / (end - start) as real;
    all := ShareRange(subs, start, end + 1, share, LessOne(subs[index].dups));
  }

  lemma {:induction false} SinglesInBlock(subs: seq<Sub>, lo: nat, hi: nat, index: nat, p: Place)
    requires InBlock(subs, lo, hi, index, p) && subs[index].dups > 0
    ensures p.next == p.first + subs[index].dups && forall j :: p.first <= j < p.next ==> |subs[j].tiny| == 1
  {
    MembersOfBlock(subs, lo, hi, index, p);
    var g := subs[p.first..p.next];
    assert g[index - p.first] == subs[index];
    SingleTiny(g, p.lo);
    hide Block;
    assert forall j :: p.first <= j < p.next ==> subs[j] == g[j - p.first];
  }

  lemma {:induction false} ErasedIsReplaced(subs: seq<Sub>, all: seq<Sub>, first: nat, next: nat, index: nat,
                                            share: real, dups: nat)
    requires ShareMoved(subs, all, first, next, share, dups) && first <= index < next
    ensures var g, g', k := subs[first..next], all[first..next], index - first;
      && AllShared(g, g', share, dups) && g[k] == subs[index]
      && all[..index] + all[index + 1..] == subs[..first] + (g'[..k] + g'[k + 1..]) + subs[next..]
  {
    hide Shared;
    assert all[..first] == subs[..first] && all[next..] == subs[next..];
  }

  /** Remove one duplicate; the others share its inserts evenly. */
  method DestroyDuplicate(subs: seq<Sub>, ghost lo: nat, ghost hi: nat, index: nat) returns (subs': seq<Sub>)
    requires Tiles(subs, lo, hi) && index < |subs| && subs[index].dups > 0
    ensures Tiles(subs', lo, hi) && |subs'| == |subs| - 1 && Total(subs') == Total(subs)
    ensures NonNegative(subs) ==> NonNegative(subs')
    ensures forall key :: OneLess(subs, subs', index, key)
    ensures DestroysAt(subs, subs', index) && DestroyStep(subs, subs')
  {
    hide Tiles, Total, NonNegative, ShareMoved, OneLess;
    ghost var p := FindBlock(subs, lo, hi, index);
    GroupOf(subs, lo, hi, index, p);
    var all := MoveShare(subs, lo, hi, index, p);
    subs' := all[..index] + all[index + 1..];
    DestroyedTiles(subs, lo, hi, index, p, all);
    DestroyedHot(subs, lo, hi, index, p, all, subs');
    BlockIsGroup(subs, lo, hi, index, p);
    assert Destroys(subs, subs', index, p.first, p.next, all);
    if NonNegative(subs) {
      DestroyedCounted(subs, index, p, all);
    }
  }

  lemma {:induction false} GroupOf(subs: seq<Sub>, lo: nat, hi: nat, index: nat, p: Place)
    requires InBlock(subs, lo, hi, index, p) && subs[index].dups > 0
    ensures var g := subs[p.first..p.next];
      && |g| == subs[index].dups >= 2 && AllAt(g, p.lo, |g|) && g[index - p.first] == subs[index]
      && g[0].dups == |g| && p.hi == p.lo + 1
  {
    MembersOfBlock(subs, lo, hi, index, p);
    var g := subs[p.first..p.next];
    assert g[index - p.first] == subs[index];
    SingleTiny(g, p.lo);
    assert forall i :: 0 <= i < |g| ==> IsDuplicate(g[i], p.lo, g[0].dups);
  }

  lemma {:induction false} DestroyedTiles(subs: seq<Sub>, lo: nat, hi: nat, index: nat, p: Place, all: seq<Sub>)
    requires InBlock(subs, lo, hi, index, p) && subs[index].dups > 1
    requires |all| == |subs| && ShareMoved(subs, all, p.first, p.next, ShareOf(subs[index]), LessOne(subs[index].dups))
    ensures Tiles(all[..index] + all[index + 1..], lo, hi) && Total(all[..index] + all[index + 1..]) == Total(subs)
  {
    hide Tiles, Block, Total, TinyTotal, Shared, ShareMoved, AllShared, AllAt;
    GroupOf(subs, lo, hi, index, p);
    var g, g', k := subs[p.first..p.next], all[p.first..p.next], index - p.first;
    var share, dups := ShareOf(subs[index]), LessOne(subs[index].dups);
    ErasedIsReplaced(subs, all, p.first, p.next, index, share, dups);
    DestroyTiles(g, g', k, share, p.lo);
    DestroyTotal(g, g', k, share, dups);
    var h := g'[..k] + g'[k + 1..];
    ReplaceBlock(subs, lo, hi, index, p, h);
    TotalBlocks(subs, p.first, p.next, h);
  }

  lemma {:induction false} DestroyedHot(subs: seq<Sub>, lo: nat, hi: nat, index: nat, p: Place, all: seq<Sub>,
                                        subs': seq<Sub>)
    requires InBlock(subs, lo, hi, index, p) && subs[index].dups > 1
    requires |all| == |subs| && ShareMoved(subs, all, p.first, p.next, ShareOf(subs[index]), LessOne(subs[index].dups))
    requires subs' == all[..index] + all[index + 1..]
    ensures forall key :: OneLess(subs, subs', index, key)
  {
    hide Tiles, Block, Total, TinyTotal, Shared, ShareMoved, AllShared, AllAt, OneLess;
    GroupOf(subs, lo, hi, index, p);
    var g, g', k := subs[p.first..p.next], all[p.first..p.next], index - p.first;
    var share, dups := ShareOf(subs[index]), LessOne(subs[index].dups);
    ErasedIsReplaced(subs, all, p.first, p.next, index, share, dups);
    DestroyTotal(g, g', k, share, dups);
    DestroyedGroup(g, g', k, share, p.lo);
    forall key
      ensures OneLess(subs, subs', index, key)
    {
      GroupReplaced(subs, lo, hi, index, p, g'[..k] + g'[k + 1..], key);
    }
  }

  lemma {:induction false} DestroyedCounted(subs: seq<Sub>, index: nat, p: Place, all: seq<Sub>)
    requires NonNegative(subs) && index < |subs| && subs[index].dups > 1
    requires |all| == |subs| && ShareMoved(subs, all, p.first, p.next, ShareOf(subs[index]), LessOne(subs[index].dups))
    ensures NonNegative(all[..index] + all[index + 1..])
  {
    hide Counted, ShareMoved;
    ShareNonNegative(subs[index]);
    SharedCounted(subs, all, p.first, p.next, index, ShareOf(subs[index]), LessOne(subs[index].dups));
  }

  /** The group of the destroyed duplicate has one member fewer and keeps its inserts; when only
      one is left it is no duplicate any more.  Other groups stay as they are. */
  ghost predicate OneLess(subs: seq<Sub>, subs': seq<Sub>, index: nat, key: nat)
    requires index < |subs|
  {
    if IsHot(subs[index], key) then
      && HotCount(subs, key) == subs[index].dups >= 2 && HotCount(subs', key) == LessOne(subs[index].dups)
      && (subs[index].dups > 2 ==> HotTotal(subs', key) == HotTotal(subs, key))
    else
      HotCount(subs', key) == HotCount(subs, key) && HotTotal(subs', key) == HotTotal(subs, key)
  }

  lemma {:induction false} OnlyBlockHot(subs: seq<Sub>, lo: nat, hi: nat, index: nat, p: Place)
    requires InBlock(subs, lo, hi, index, p) && subs[index].dups > 0
      && AllAt(subs[p.first..p.next], p.lo, p.next - p.first)
    ensures HotCount(subs, p.lo) == p.next - p.first
  {
    MembersOfBlock(subs, lo, hi, index, p);
    NoneHot(subs[..p.first], p.lo);
    NoneHot(subs[p.next..], p.lo);
    GroupHot(subs[p.first..p.next], p.lo, p.next - p.first, p.lo);
    hide HotCount, HotTotal;
    ThreeParts(subs, p.first, p.next);
    HotConcat(subs[..p.first], subs[p.first..p.next], p.lo);
    HotConcat(subs[..p.first] + subs[p.first..p.next], subs[p.next..], p.lo);
  }

  lemma {:induction false} GroupReplaced(subs: seq<Sub>, lo: nat, hi: nat, index: nat, p: Place, h: seq<Sub>, key: nat)
    requires InBlock(subs, lo, hi, index, p) && subs[index].dups == p.next - p.first >= 2
    requires AllAt(subs[p.first..p.next], p.lo, p.next - p.first)
    requires AllAt(h, p.lo, LessOne(p.next - p.first)) && |h| == p.next - p.first - 1
      && Total(h) == Total(subs[p.first..p.next])
    ensures OneLess(subs, subs[..p.first] + h + subs[p.next..], index, key)
  {
    MembersOfBlock(subs, lo, hi, index, p);
    hide HotCount, HotTotal, Total, AllAt, InBlock;
    OnlyBlockHot(subs, lo, hi, index, p);
    GroupHot(subs[p.first..p.next], p.lo, p.next - p.first, key);
    GroupHot(h, p.lo, LessOne(p.next - p.first), key);
    HotReplaced(subs, p.first, p.next, h, key);
  }

  lemma {:induction false} SingleTiny(g: seq<Sub>, key: nat)
    requires Block(g, key, key + 1) && g[0].dups > 0
    ensures |g| == g[0].dups >= 2 && forall i :: 0 <= i < |g| ==> |g[i].tiny| == 1 && g[i].dups == g[0].dups
  {
    assert forall i :: 0 <= i < |g| ==> IsDuplicate(g[i], key, g[0].dups);
  }

  lemma {:induction false} ThreeParts(subs: seq<Sub>, first: nat, next: nat)
    requires first <= next <= |subs|
    ensures subs == subs[..first] + subs[first..next] + subs[next..]
  {
  }

  lemma {:induction false} TotalBlocks(subs: seq<Sub>, first: nat, next: nat, h: seq<Sub>)
    requires first <= next <= |subs| && Total(h) == Total(subs[first..next])
    ensures Total(subs[..first] + h + subs[next..]) == Total(subs)
  {
    hide Total;
    var a, g, b := subs[..first], subs[first..next], subs[next..];
    ThreeParts(subs, first, next);
    TotalConcat(a, h);
    TotalConcat(a + h, b);
    TotalConcat(a, g);
    TotalConcat(a + g, b);
  }

  // ---------- duplicates of a key ----------

  predicate IsHot(s: Sub, key: nat) {
    s.dups > 0 && s.tiny != [] && Lower(s) == key
  }

  /** Number of duplicates of a key. */
  ghost function HotCount(subs: seq<Sub>, key: nat): nat {
    if subs == [] then 0
    else HotCount(subs[..|subs| - 1], key) + if IsHot(subs[|subs| - 1], key) then 1 else 0
  }

  /** Inserts that the duplicates of a key have seen together. */
  ghost function HotTotal(subs: seq<Sub>, key: nat): real {
    if subs == [] then 0.0
    else HotTotal(subs[..|subs| - 1], key)
         + if IsHot(subs[|subs| - 1], key) then TinyTotal(subs[|subs| - 1].tiny) else 0.0
  }

  lemma {:induction false} HotConcat(a: seq<Sub>, b: seq<Sub>, key: nat)
    ensures HotCount(a + b, key) == HotCount(a, key) + HotCount(b, key)
    ensures HotTotal(a + b, key) == HotTotal(a, key) + HotTotal(b, key)
  {
    if b == [] {
      assert a + b == a;
    } else {
      assert (a + b)[..|a + b| - 1] == a + b[..|b| - 1];
      HotConcat(a, b[..|b| - 1], key);
    }
  }

  lemma {:induction false} HotReplaced(subs: seq<Sub>, first: nat, next: nat, h: seq<Sub>, key: nat)
    requires first <= next <= |subs|
    ensures var subs' := subs[..first] + h + subs[next..];
      && HotCount(subs', key) == HotCount(subs, key) - HotCount(subs[first..next], key) + HotCount(h, key)
      && HotTotal(subs', key) == HotTotal(subs, key) - HotTotal(subs[first..next], key) + HotTotal(h, key)
  {
    hide HotCount, HotTotal;
    var a, g, b := subs[..first], subs[first..next], subs[next..];
    ThreeParts(subs, first, next);
    HotConcat(a, h, key);
    HotConcat(a + h, b, key);
    HotConcat(a, g, key);
    HotConcat(a + g, b, key);
  }

  lemma {:induction false} AllHot(g: seq<Sub>, key: nat)
    requires forall i :: 0 <= i < |g| ==> IsHot(g[i], key)
    ensures HotCount(g, key) == |g| && HotTotal(g, key) == Total(g)
  {
    if g != [] {
      AllHot(g[..|g| - 1], key);
    }
  }

  lemma {:induction false} NoneHot(g: seq<Sub>, key: nat)
    requires forall i :: 0 <= i < |g| ==> !IsHot(g[i], key)
    ensures HotCount(g, key) == 0 && HotTotal(g, key) == 0.0
  {
    if g != [] {
      NoneHot(g[..|g| - 1], key);
    }
  }

  ghost predicate Counted(tiny: seq<Tiny>) {
    forall j :: 0 <= j < |tiny| ==> tiny[j].ninserts >= 0.0
  }

  ghost predicate NonNegative(subs: seq<Sub>) {
    forall i :: 0 <= i < |subs| ==> Counted(subs[i].tiny)
  }

  lemma {:induction false} TinyNonNegative(tiny: seq<Tiny>)
    requires Counted(tiny)
    ensures TinyTotal(tiny) >= 0.0
  {
    if tiny != [] {
      TinyNonNegative(tiny[..|tiny| - 1]);
    }
  }

  lemma {:induction false} HotIsPart(subs: seq<Sub>, key: nat)
    requires NonNegative(subs)
    ensures 0.0 <= HotTotal(subs, key) <= Total(subs)
  {
    if subs != [] {
      var n := |subs| - 1;
      HotIsPart(subs[..n], key);
      TinyNonNegative(subs[n].tiny);
    }
  }

  /** What is not a duplicate of the key has seen at most the other inserts. */
  lemma {:induction false} OthersSeeLess(subs: seq<Sub>, key: nat, i: nat)
    requires NonNegative(subs) && i < |subs| && !IsHot(subs[i], key)
    ensures TinyTotal(subs[i].tiny) + HotTotal(subs, key) <= Total(subs)
  {
    var n := |subs| - 1;
    TinyNonNegative(subs[n].tiny);
    if i < n {
      OthersSeeLess(subs[..n], key, i);
    } else {
      HotIsPart(subs[..n], key);
    }
  }

  // ---------- pushing tiny ranges ----------

  /** No subrange, or one that is not a duplicate. */
  function Opt(tiny: seq<Tiny>): seq<Sub> {
    if tiny == [] then [] else [Sub(tiny, 0)]
  }

  lemma {:induction false} OptTiles(tiny: seq<Tiny>, lo: nat, hi: nat)
    requires Contiguous(tiny, lo, hi)
    ensures Tiles(Opt(tiny), lo, hi) && Total(Opt(tiny)) == TinyTotal(tiny)
  {
    if tiny != [] {
      SubTiles(tiny, lo, hi);
      TotalOne(Sub(tiny, 0));
    }
  }

  lemma {:induction false} PiecesTile(a: seq<Tiny>, b: seq<Tiny>, c: seq<Tiny>, lo: nat, x: nat, y: nat, hi: nat)
    requires Contiguous(a, lo, x) && Contiguous(b, x, y) && Contiguous(c, y, hi)
    ensures Tiles(Opt(a) + Opt(b) + Opt(c), lo, hi)
    ensures Total(Opt(a) + Opt(b) + Opt(c)) == TinyTotal(a) + TinyTotal(b) + TinyTotal(c)
  {
    OptTiles(a, lo, x);
    OptTiles(b, x, y);
    OptTiles(c, y, hi);
    hide Tiles, Contiguous, Opt, Total, TinyTotal;
    TilesConcat(Opt(a), Opt(b), lo, x, y);
    TilesConcat(Opt(a) + Opt(b), Opt(c), lo, y, hi);
    TotalConcat(Opt(a), Opt(b));
    TotalConcat(Opt(a) + Opt(b), Opt(c));
  }

  /** A push of the tiny ranges `mid`: the neighbours there are, all ratios at its start, and the
      direction drawn for the first tiny range. */
  datatype Push = Push(mid: seq<Tiny>, hasLeft: bool, hasRight: bool, leftRatio: real, midRatio: real,
                       rightRatio: real, total: real, fair: real, stopBelowFair: bool, direction: int)

  ghost predicate PushOk(p: Push) {
    (p.hasLeft || p.hasRight) && p.total > 0.0
  }

  /** The insertion ratio of a tiny range. */
  function TinyRatio(t: Tiny, total: real): real
    requires total > 0.0
  {
    t.ninserts / total
  }

  /** The ratio of a number of inserts. */
  ghost function Part(p: Push, tiny: seq<Tiny>): real
    requires PushOk(p)
  {
    TinyTotal(tiny) / p.total
  }

  /** Whether the next tiny range goes to the left when [i, j) is left of `mid`: the first choice is
      drawn, later ones even out the ratios, and a missing neighbour leaves no choice. */
  ghost predicate ToLeft(p: Push, i: nat, j: nat)
    requires PushOk(p) && i < j <= |p.mid|
  {
    var wanted := if i == 0 && j == |p.mid| && p.direction != -1 then p.direction == 0
                  else p.leftRatio + Part(p, p.mid[..i + 1]) < p.rightRatio + Part(p, p.mid[j - 1..]);
    if wanted then p.hasLeft else !p.hasRight
  }

  /** Nothing is left, or the next move would leave less than a fair share. */
  ghost predicate Stops(p: Push, i: nat, j: nat)
    requires PushOk(p) && i <= j <= |p.mid|
  {
    || i == j
    || (p.stopBelowFair && (0 < i || j < |p.mid|)
        && p.midRatio - (if ToLeft(p, i, j) then Part(p, p.mid[..i + 1]) + Part(p, p.mid[j..])
                         else Part(p, p.mid[..i]) + Part(p, p.mid[j - 1..])) < p.fair)
  }

  /** What is left of `mid` in the end. */
  ghost function PushEnd(p: Push, i: nat, j: nat): (e: (nat, nat))
    requires PushOk(p) && i <= j <= |p.mid|
    ensures i <= e.0 <= e.1 <= j && Stops(p, e.0, e.1)
    ensures (!p.hasLeft ==> e.0 == i) && (!p.hasRight ==> e.1 == j)
    decreases j - i
  {
    if Stops(p, i, j) then (i, j) else if ToLeft(p, i, j) then PushEnd(p, i + 1, j) else PushEnd(p, i, j - 1)
  }

  predicate Chosen(direction: int, hasLeft: bool, hasRight: bool, leftRatio: real, rightRatio: real) {
    if (if direction != -1 then direction == 0 else leftRatio < rightRatio) then hasLeft else !hasRight
  }

  method ChooseLeft(direction: int, hasLeft: bool, hasRight: bool, leftRatio: real, rightRatio: real)
    returns (left: bool)
    requires hasLeft || hasRight
    ensures left <==> Chosen(direction, hasLeft, hasRight, leftRatio, rightRatio)
  {
    left := if direction != -1 then direction == 0 else leftRatio < rightRatio;
    if left {
      if !hasLeft {
        left := false;
      }
    } else if !hasRight {
      left := true;
    }
  }

  lemma {:induction false} PartNext(p: Push, i: nat, j: nat)
    requires PushOk(p) && i < j <= |p.mid|
    ensures Part(p, p.mid[..i + 1]) == Part(p, p.mid[..i]) + TinyRatio(p.mid[i], p.total)
    ensures Part(p, p.mid[j - 1..]) == Part(p, p.mid[j..]) + TinyRatio(p.mid[j - 1], p.total)
  {
    assert p.mid[..i + 1] == p.mid[..i] + [p.mid[i]] && p.mid[j - 1..] == [p.mid[j - 1]] + p.mid[j..];
    TinyTotalConcat(p.mid[..i], [p.mid[i]]);
    TinyTotalConcat([p.mid[j - 1]], p.mid[j..]);
    TinyTotalOne(p.mid[i]);
    TinyTotalOne(p.mid[j - 1]);
    hide TinyTotal;
    DivideSum(TinyTotal(p.mid[..i]), p.mid[i].ninserts, p.total);
    DivideSum(TinyTotal(p.mid[j..]), p.mid[j - 1].ninserts, p.total);
  }

  lemma {:induction false} DivideSum(a: real, b: real, t: real)
    requires t > 0.0
    ensures (a + b) / t == a / t + b / t
  {
  }

  /** The ratios that are kept up to date while tiny ranges move. */
  ghost predicate RatiosAt(p: Push, i: nat, j: nat, l: real, m: real, r: real)
    requires PushOk(p) && i <= j <= |p.mid|
  {
    && l == p.leftRatio + Part(p, p.mid[..i]) && r == p.rightRatio + Part(p, p.mid[j..])
    && m == p.midRatio - Part(p, p.mid[..i]) - Part(p, p.mid[j..])
  }

  lemma {:induction false} RatiosStart(p: Push)
    requires PushOk(p)
    ensures RatiosAt(p, 0, |p.mid|, p.leftRatio, p.midRatio, p.rightRatio)
  {
    assert p.mid[..0] == [] == p.mid[|p.mid|..];
  }

  lemma {:induction false} RatiosNext(p: Push, i: nat, j: nat, l: real, m: real, r: real)
    requires PushOk(p) && i < j <= |p.mid| && RatiosAt(p, i, j, l, m, r)
    ensures var x := TinyRatio(p.mid[i], p.total); RatiosAt(p, i + 1, j, l + x, m - x, r)
    ensures var x := TinyRatio(p.mid[j - 1], p.total); RatiosAt(p, i, j - 1, l, m - x, r + x)
  {
    PartNext(p, i, j);
    hide Part, TinyRatio;
  }

  /** The choice made with these ratios. */
  lemma {:induction false} Decides(p: Push, i: nat, j: nat, l: real, m: real, r: real)
    requires PushOk(p) && i < j <= |p.mid| && RatiosAt(p, i, j, l, m, r)
    ensures var first, last := TinyRatio(p.mid[i], p.total), TinyRatio(p.mid[j - 1], p.total);
      var d := if i == 0 && j == |p.mid| then p.direction else -1;
      && (ToLeft(p, i, j) <==> Chosen(d, p.hasLeft, p.hasRight, l + first, r + last))
      && (Stops(p, i, j) <==> p.stopBelowFair && (0 < i || j < |p.mid|)
                              && m - (if ToLeft(p, i, j) then first else last) < p.fair)
  {
    PartNext(p, i, j);
    hide Part, TinyRatio;
  }

  lemma {:induction false} EndNext(p: Push, i: nat, j: nat)
    requires PushOk(p) && i <= j <= |p.mid|
    ensures PushEnd(p, i, j) == if Stops(p, i, j) then (i, j)
                                else if ToLeft(p, i, j) then PushEnd(p, i + 1, j) else PushEnd(p, i, j - 1)
  {
  }

  lemma {:induction false} EndEmpties(p: Push)
    requires PushOk(p) && !p.stopBelowFair
    ensures PushEnd(p, 0, |p.mid|).0 == PushEnd(p, 0, |p.mid|).1
  {
    assert Stops(p, PushEnd(p, 0, |p.mid|).0, PushEnd(p, 0, |p.mid|).1);
  }

  // ---------- what a push achieves ----------

  /** Ratios of tiny ranges are between 0 and `most`. */
  ghost predicate RatiosAtMost(p: Push, most: real)
    requires PushOk(p)
  {
    forall k :: 0 <= k < |p.mid| ==> 0.0 <= TinyRatio(p.mid[k], p.total) <= most
  }

  /** The ratio of the left neighbour once it has the first i tiny ranges. */
  ghost function LeftWith(p: Push, i: nat): real
    requires PushOk(p) && i <= |p.mid|
  {
    p.leftRatio + Part(p, p.mid[..i])
  }

  ghost function RightWith(p: Push, j: nat): real
    requires PushOk(p) && j <= |p.mid|
  {
    p.rightRatio + Part(p, p.mid[j..])
  }

  lemma {:induction false} NeighboursGrow(p: Push, i: nat, j: nat, most: real)
    requires PushOk(p) && i < j <= |p.mid| && RatiosAtMost(p, most)
    ensures LeftWith(p, i) <= LeftWith(p, i + 1) <= LeftWith(p, i) + most
    ensures RightWith(p, j) <= RightWith(p, j - 1) <= RightWith(p, j) + most
  {
    hide Part, TinyRatio;
    PartNext(p, i, j);
  }

  /** Once the first choice is made, a neighbour that gets more ends up at most one tiny range above
      the other. */
  lemma {:induction false} PushBalancesFrom(p: Push, i: nat, j: nat, most: real)
    requires PushOk(p) && i <= j <= |p.mid| && RatiosAtMost(p, most) && p.hasLeft && p.hasRight
    requires 0 < i || j < |p.mid| || p.direction == -1
    ensures var (i', j') := PushEnd(p, i, j);
      && LeftWith(p, i) <= LeftWith(p, i') && RightWith(p, j) <= RightWith(p, j')
      && (i < i' ==> LeftWith(p, i') <= RightWith(p, j') + most)
      && (j' < j ==> RightWith(p, j') <= LeftWith(p, i') + most)
    decreases j - i
  {
    hide Part, Stops, RatiosAtMost;
    if !Stops(p, i, j) {
      StopsEmpty(p, i);
      NeighboursGrow(p, i, j, most);
      if ToLeft(p, i, j) {
        PushBalancesFrom(p, i + 1, j, most);
      } else {
        PushBalancesFrom(p, i, j - 1, most);
      }
    }
  }

  /** The drawn choice apart, neither neighbour is pushed more than one tiny range above the other. */
  lemma {:induction false} PushBalances(p: Push, most: real)
    requires PushOk(p) && p.hasLeft && p.hasRight && RatiosAtMost(p, most)
    ensures var (i, j) := PushEnd(p, 0, |p.mid|);
      && (i >= 2 ==> LeftWith(p, i) <= RightWith(p, j) + most)
      && (j + 2 <= |p.mid| ==> RightWith(p, j) <= LeftWith(p, i) + most)
  {
    hide Part, Stops, RatiosAtMost, LeftWith, RightWith;
    var n := |p.mid|;
    if p.direction == -1 {
      PushBalancesFrom(p, 0, n, most);
    } else if !Stops(p, 0, n) {
      StopsEmpty(p, 0);
      if ToLeft(p, 0, n) {
        PushBalancesFrom(p, 1, n, most);
      } else {
        PushBalancesFrom(p, 0, n - 1, most);
      }
    }
  }

  /** What is left of the subrange's ratio. */
  ghost function Left(p: Push, i: nat, j: nat): real
    requires PushOk(p) && i <= j <= |p.mid|
  {
    p.midRatio - (Part(p, p.mid[..i]) + Part(p, p.mid[j..]))
  }

  lemma {:induction false} LeavesFairFrom(p: Push, i: nat, j: nat)
    requires PushOk(p) && i <= j <= |p.mid| && p.stopBelowFair && (0 < i || j < |p.mid|)
    ensures var (i', j') := PushEnd(p, i, j); (i', j') == (i, j) || Left(p, i', j') >= p.fair
    decreases j - i
  {
    hide Part, ToLeft;
    if !Stops(p, i, j) {
      if ToLeft(p, i, j) {
        LeavesFairFrom(p, i + 1, j);
      } else {
        LeavesFairFrom(p, i, j - 1);
      }
    }
  }

  /** A push that stops in time moves one tiny range, or leaves at least a fair share. */
  lemma {:induction false} PushLeavesFair(p: Push)
    requires PushOk(p) && p.stopBelowFair
    ensures var (i, j) := PushEnd(p, 0, |p.mid|); i + (|p.mid| - j) <= 1 || Left(p, i, j) >= p.fair
  {
    hide Part, ToLeft, Left;
    var n := |p.mid|;
    if !Stops(p, 0, n) {
      if ToLeft(p, 0, n) {
        LeavesFairFrom(p, 1, n);
      } else {
        LeavesFairFrom(p, 0, n - 1);
      }
    }
  }

  lemma {:induction false} StopsEmpty(p: Push, i: nat)
    requires PushOk(p) && i <= |p.mid|
    ensures PushEnd(p, i, i) == (i, i)
  {
  }

  /** What the three subranges hold when [i, j) is left of `mid`. */
  ghost predicate Parts(left: seq<Tiny>, mid: seq<Tiny>, right: seq<Tiny>, i: nat, j: nat, left': seq<Tiny>,
                        mid': seq<Tiny>, right': seq<Tiny>) {
    i <= j <= |mid| && left' == left + mid[..i] && mid' == mid[i..j] && right' == mid[j..] + right
  }

  lemma {:induction false} PartsStart(left: seq<Tiny>, mid: seq<Tiny>, right: seq<Tiny>)
    ensures Parts(left, mid, right, 0, |mid|, left, mid, right)
  {
  }

  lemma {:induction false} PartsNext(left: seq<Tiny>, mid: seq<Tiny>, right: seq<Tiny>, i: nat, j: nat,
                                     left': seq<Tiny>, mid': seq<Tiny>, right': seq<Tiny>)
    requires Parts(left, mid, right, i, j, left', mid', right') && mid' != []
    ensures i < j <= |mid| && mid'[0] == mid[i] && mid'[|mid'| - 1] == mid[j - 1]
    ensures Parts(left, mid, right, i + 1, j, left' + [mid'[0]], mid'[1..], right')
    ensures Parts(left, mid, right, i, j - 1, left', mid'[..|mid'| - 1], [mid'[|mid'| - 1]] + right')
  {
    PushedLeft(left, mid, i);
    PushedRight(right, mid, j);
  }

  /** The variables of the loop: the tiny ranges of the three subranges, their ratios, the number of
      moves so far, and the direction drawn until it is used. */
  datatype Vars = Vars(left: seq<Tiny>, mid: seq<Tiny>, right: seq<Tiny>, l: real, m: real, r: real, moved: nat,
                       direction: int)

  /** [i, j) is left of `mid`. */
  ghost predicate Moving(p: Push, left: seq<Tiny>, right: seq<Tiny>, i: nat, j: nat, v: Vars) {
    && PushOk(p) && Parts(left, p.mid, right, i, j, v.left, v.mid, v.right) && RatiosAt(p, i, j, v.l, v.m, v.r)
    && v.moved == i + |p.mid| - j && v.direction == if v.moved == 0 then p.direction else -1
  }

  lemma {:induction false} MovingStart(p: Push, left: seq<Tiny>, right: seq<Tiny>)
    requires PushOk(p)
    ensures var v := Vars(left, p.mid, right, p.leftRatio, p.midRatio, p.rightRatio, 0, p.direction);
      Moving(p, left, right, 0, |p.mid|, v)
  {
    RatiosStart(p);
    PartsStart(left, p.mid, right);
  }

  lemma {:induction false} MovingBounds(p: Push, left: seq<Tiny>, right: seq<Tiny>, i: nat, j: nat, v: Vars)
    requires Moving(p, left, right, i, j, v)
    ensures PushOk(p) && i <= j <= |p.mid| && |v.mid| == j - i
  {
  }

  function MoveLeft(v: Vars, total: real): Vars
    requires v.mid != [] && total > 0.0
  {
    var x := TinyRatio(v.mid[0], total);
    Vars(v.left + [v.mid[0]], v.mid[1..], v.right, v.l + x, v.m - x, v.r, v.moved + 1, -1)
  }

  function MoveRight(v: Vars, total: real): Vars
    requires v.mid != [] && total > 0.0
  {
    var n := |v.mid| - 1;
    var x := TinyRatio(v.mid[n], total);
    Vars(v.left, v.mid[..n], [v.mid[n]] + v.right, v.l, v.m - x, v.r + x, v.moved + 1, -1)
  }

  lemma {:induction false} MovingNext(p: Push, left: seq<Tiny>, right: seq<Tiny>, i: nat, j: nat, v: Vars)
    requires Moving(p, left, right, i, j, v) && v.mid != []
    ensures i < j && Moving(p, left, right, i + 1, j, MoveLeft(v, p.total))
    ensures Moving(p, left, right, i, j - 1, MoveRight(v, p.total))
  {
    PartsNext(left, p.mid, right, i, j, v.left, v.mid, v.right);
    RatiosNext(p, i, j, v.l, v.m, v.r);
    hide Parts, RatiosAt, TinyRatio;
  }

  /** One turn of the loop: which way the next tiny range goes, and whether the push stops before it. */
  method PushOne(v: Vars, hasLeft: bool, hasRight: bool, total: real, fair: real, stopBelowFair: bool, ghost p: Push,
                 ghost left: seq<Tiny>, ghost right: seq<Tiny>, ghost i: nat, ghost j: nat)
    returns (stop: bool, v': Vars)
    requires Moving(p, left, right, i, j, v) && i < j <= |p.mid|
    requires p == Push(p.mid, hasLeft, hasRight, p.leftRatio, p.midRatio, p.rightRatio, total, fair, stopBelowFair,
                       p.direction)
    ensures stop <==> Stops(p, i, j)
    ensures v' == if stop then v else if ToLeft(p, i, j) then MoveLeft(v, total) else MoveRight(v, total)
  {
    Decides(p, i, j, v.l, v.m, v.r);
    hide RatiosAt, Stops, ToLeft, TinyRatio, Chosen;
    var first, last := v.mid[0], v.mid[|v.mid| - 1];
    var toLeft := ChooseLeft(v.direction, hasLeft, hasRight, v.l + TinyRatio(first, total),
                             v.r + TinyRatio(last, total));
    var x := TinyRatio(if toLeft then first else last, total);
    if stopBelowFair && v.m - x < fair && v.moved > 0 {
      return true, v;
    }
    stop := false;
    v' := v.(m := v.m - x, moved := v.moved + 1, direction := -1);
    if toLeft {
      v' := v'.(l := v'.l + x, left := v'.left + [first], mid := v'.mid[1..]);
    } else {
      v' := v'.(r := v'.r + x, right := [last] + v'.right, mid := v'.mid[..|v'.mid| - 1]);
    }
  }

  /** Move tiny ranges from both ends of a subrange to its neighbours. */
  method PushLoop(left: seq<Tiny>, mid: seq<Tiny>, right: seq<Tiny>, hasLeft: bool, hasRight: bool, leftRatio: real,
                  midRatio: real, rightRatio: real, total: real, fair: real, stopBelowFair: bool, direction: int)
    returns (v: Vars)
    requires (hasLeft || hasRight) && total > 0.0
    ensures
      var p := Push(mid, hasLeft, hasRight, leftRatio, midRatio, rightRatio, total, fair, stopBelowFair, direction);
      Moving(p, left, right, PushEnd(p, 0, |mid|).0, PushEnd(p, 0, |mid|).1, v)
  {
    ghost var p := Push(mid, hasLeft, hasRight, leftRatio, midRatio, rightRatio, total, fair, stopBelowFair, direction);
    v := Vars(left, mid, right, leftRatio, midRatio, rightRatio, 0, direction);
    ghost var i, j := 0, |mid|;
    MovingStart(p, left, right);
    hide Moving, Parts, Stops, ToLeft, PushEnd, MoveLeft, MoveRight;
    while v.mid != []
      invariant i <= j <= |mid| && Moving(p, left, right, i, j, v) && PushEnd(p, i, j) == PushEnd(p, 0, |mid|)
      decreases j - i
    {
      MovingBounds(p, left, right, i, j, v);
      EndNext(p, i, j);
      MovingNext(p, left, right, i, j, v);
      var stop: bool;
      stop, v := PushOne(v, hasLeft, hasRight, total, fair, stopBelowFair, p, left, right, i, j);
      if stop {
        return;
      }
      i, j := if ToLeft(p, i, j) then i + 1 else i, if ToLeft(p, i, j) then j else j - 1;
    }
    MovingBounds(p, left, right, i, j, v);
    StopsEmpty(p, i);
  }

  lemma {:induction false} PushedLeft(left: seq<Tiny>, mid: seq<Tiny>, i: nat)
    requires i < |mid|
    ensures left + mid[..i] + [mid[i]] == left + mid[..i + 1]
  {
  }

  lemma {:induction false} PushedRight(right: seq<Tiny>, mid: seq<Tiny>, j: nat)
    requires 0 < j <= |mid|
    ensures [mid[j - 1]] + (mid[j..] + right) == mid[j - 1..] + right
  {
  }

  /** The stretch of subranges a push works on. */
  datatype Stretch = Stretch(from: nat, to: nat, x: nat, a: nat, b: nat, y: nat)

  ghost predicate IsStretch(subs: seq<Sub>, lo: nat, hi: nat, id: nat, left: seq<Tiny>, right: seq<Tiny>, r: Stretch) {
    && r.from <= id < r.to <= |subs| && Tiles(subs[..r.from], lo, r.x) && Tiles(subs[r.to..], r.y, hi)
    && Contiguous(left, r.x, r.a) && Contiguous(subs[id].tiny, r.a, r.b) && Contiguous(right, r.b, r.y)
    && subs[r.from..r.to] == Opt(left) + [subs[id]] + Opt(right) && subs[id].dups == 0
  }

  function TinyOf(subs: seq<Sub>, i: int, has: bool): seq<Tiny>
    requires has ==> 0 <= i < |subs|
  {
    if has then subs[i].tiny else []
  }

  lemma {:induction false} LeftPart(subs: seq<Sub>, lo: nat, hi: nat, id: nat, a: nat, hasLeft: bool)
    returns (from: nat, x: nat)
    requires Tiles(subs, lo, hi) && id < |subs| && Tiles(subs[..id], lo, a)
      && (hasLeft ==> id > 0 && subs[id - 1].dups == 0)
    ensures from <= id && Tiles(subs[..from], lo, x) && Contiguous(TinyOf(subs, id - 1, hasLeft), x, a)
    ensures subs[from..id] == Opt(TinyOf(subs, id - 1, hasLeft)) && from == if hasLeft then id - 1 else id
  {
    if hasLeft {
      var u: nat;
      x, u := SinglePlace(subs, lo, hi, id - 1);
      from := id - 1;
      TilesEnds(subs[..id], lo, a);
      hide Tiles;
      assert subs[..id][id - 1] == subs[id - 1];
      assert subs[from..id] == [subs[id - 1]];
    } else {
      from, x := id, a;
    }
  }

  lemma {:induction false} RightPart(subs: seq<Sub>, lo: nat, hi: nat, id: nat, b: nat, hasRight: bool)
    returns (to: nat, y: nat)
    requires Tiles(subs, lo, hi) && id < |subs| && Tiles(subs[id + 1..], b, hi)
    requires hasRight ==> id + 1 < |subs| && subs[id + 1].dups == 0
    ensures id < to <= |subs| && Tiles(subs[to..], y, hi) && Contiguous(TinyOf(subs, id + 1, hasRight), b, y)
    ensures subs[id + 1..to] == Opt(TinyOf(subs, id + 1, hasRight)) && to == if hasRight then id + 2 else id + 1
  {
    if hasRight {
      var u: nat;
      u, y := SinglePlace(subs, lo, hi, id + 1);
      to := id + 2;
      TilesEnds(subs[id + 1..], b, hi);
      hide Tiles;
      assert subs[id + 1..to] == [subs[id + 1]];
    } else {
      to, y := id + 1, b;
    }
  }

  lemma {:induction false} FindStretch(subs: seq<Sub>, lo: nat, hi: nat, id: nat, hasLeft: bool, hasRight: bool)
    returns (r: Stretch)
    requires Tiles(subs, lo, hi) && id < |subs| && subs[id].dups == 0
    requires hasLeft ==> id > 0 && subs[id - 1].dups == 0
    requires hasRight ==> id + 1 < |subs| && subs[id + 1].dups == 0
    ensures IsStretch(subs, lo, hi, id, TinyOf(subs, id - 1, hasLeft), TinyOf(subs, id + 1, hasRight), r)
    ensures r.from == (if hasLeft then id - 1 else id) && r.to == if hasRight then id + 2 else id + 1
  {
    var a, b := SinglePlace(subs, lo, hi, id);
    hide Tiles, Contiguous, Opt;
    var from, x := LeftPart(subs, lo, hi, id, a, hasLeft);
    var to, y := RightPart(subs, lo, hi, id, b, hasRight);
    r := Stretch(from, to, x, a, b, y);
    AroundSub(subs, from, id, to);
  }

  lemma {:induction false} AroundSub(subs: seq<Sub>, from: nat, id: nat, to: nat)
    requires from <= id < to <= |subs|
    ensures subs[from..to] == subs[from..id] + [subs[id]] + subs[id + 1..to]
  {
  }

  lemma {:induction false} CutInThree(mid: seq<Tiny>, a: nat, b: nat, i: nat, j: nat) returns (x: nat, y: nat)
    requires Contiguous(mid, a, b) && i <= j <= |mid|
    ensures Contiguous(mid[..i], a, x) && Contiguous(mid[i..j], x, y) && Contiguous(mid[j..], y, b)
    ensures TinyTotal(mid[..i]) + TinyTotal(mid[i..j]) + TinyTotal(mid[j..]) == TinyTotal(mid)
  {
    hide Contiguous, TinyTotal;
    y := CutAt(mid, j, b);
    x := CutAt(mid[..j], i, y);
    ContiguousSplit(mid, a, b, j);
    ContiguousSplit(mid[..j], a, y, i);
    assert mid[..j][..i] == mid[..i] && mid[..j][i..] == mid[i..j];
    TinyTotalConcat(mid[..i], mid[i..j]);
    TinyTotalConcat(mid[..j], mid[j..]);
    assert mid[..i] + mid[i..j] == mid[..j];
    assert mid[..j] + mid[j..] == mid;
  }

  /** Any cut of a stretch at tiny range boundaries tiles the same keys and keeps the inserts. */
  lemma {:induction false} RecutTiles(left: seq<Tiny>, mid: seq<Tiny>, right: seq<Tiny>, r: Stretch, i: nat, j: nat)
    requires Contiguous(left, r.x, r.a) && Contiguous(mid, r.a, r.b) && Contiguous(right, r.b, r.y) && i <= j <= |mid|
    ensures var g := Opt(left + mid[..i]) + Opt(mid[i..j]) + Opt(mid[j..] + right);
      Tiles(g, r.x, r.y) && Total(g) == TinyTotal(left) + TinyTotal(mid) + TinyTotal(right)
  {
    hide Contiguous, Tiles, Total, TinyTotal, Opt;
    var x, y := CutInThree(mid, r.a, r.b, i, j);
    ContiguousConcat(left, mid[..i], r.x, r.a, x);
    ContiguousConcat(mid[j..], right, y, r.b, r.y);
    PiecesTile(left + mid[..i], mid[i..j], mid[j..] + right, r.x, x, y, r.y);
    TinyTotalConcat(left, mid[..i]);
    TinyTotalConcat(mid[j..], right);
  }

  lemma {:induction false} OptFacts(tiny: seq<Tiny>, key: nat)
    ensures HotCount(Opt(tiny), key) == 0 && HotTotal(Opt(tiny), key) == 0.0
    ensures Counted(tiny) ==> NonNegative(Opt(tiny))
  {
    NoneHot(Opt(tiny), key);
  }

  /** Three subranges that are not duplicates. */
  lemma {:induction false} PiecesFacts(a: seq<Tiny>, b: seq<Tiny>, c: seq<Tiny>, key: nat)
    ensures var g := Opt(a) + Opt(b) + Opt(c);
      && HotCount(g, key) == 0 && HotTotal(g, key) == 0.0
      && (Counted(a) && Counted(b) && Counted(c) ==> NonNegative(g))
  {
    OptFacts(a, key);
    OptFacts(b, key);
    OptFacts(c, key);
    hide Counted, HotCount, HotTotal, Opt;
    HotConcat(Opt(a), Opt(b), key);
    HotConcat(Opt(a) + Opt(b), Opt(c), key);
  }

  lemma {:induction false} StretchTotal(left: seq<Tiny>, mid: Sub, right: seq<Tiny>)
    ensures Total(Opt(left) + [mid] + Opt(right)) == TinyTotal(left) + TinyTotal(mid.tiny) + TinyTotal(right)
  {
    OptTotal(left);
    OptTotal(right);
    TotalOne(mid);
    hide Opt, Total, TinyTotal;
    TotalConcat(Opt(left), [mid]);
    TotalConcat(Opt(left) + [mid], Opt(right));
  }

  lemma {:induction false} OptTotal(tiny: seq<Tiny>)
    ensures Total(Opt(tiny)) == TinyTotal(tiny)
  {
    if tiny != [] {
      TotalOne(Sub(tiny, 0));
    }
  }

  lemma {:induction false} RecutStretch(subs: seq<Sub>, lo: nat, hi: nat, id: nat, left: seq<Tiny>, right: seq<Tiny>,
                                        r: Stretch, i: nat, j: nat)
    requires IsStretch(subs, lo, hi, id, left, right, r) && i <= j <= |subs[id].tiny|
    ensures var mid := subs[id].tiny;
      var g := Opt(left + mid[..i]) + Opt(mid[i..j]) + Opt(mid[j..] + right);
      var subs' := subs[..r.from] + g + subs[r.to..];
      Tiles(subs', lo, hi) && Total(subs') == Total(subs)
  {
    hide Contiguous, Tiles, Total, TinyTotal, Opt;
    var mid := subs[id].tiny;
    RecutTiles(left, mid, right, r, i, j);
    StretchTotal(left, subs[id], right);
    var g := Opt(left + mid[..i]) + Opt(mid[i..j]) + Opt(mid[j..] + right);
    TotalBlocks(subs, r.from, r.to, g);
    TilesConcat(subs[..r.from], g, lo, r.x, r.y);
    TilesConcat(subs[..r.from] + g, subs[r.to..], lo, r.y, hi);
  }

  lemma {:induction false} RecutHot(subs: seq<Sub>, id: nat, left: seq<Tiny>, right: seq<Tiny>, r: Stretch, i: nat,
                                    j: nat, key: nat)
    requires r.from <= id < r.to <= |subs| && subs[id].dups == 0 && i <= j <= |subs[id].tiny| && subs[id].tiny != []
    requires subs[r.from..r.to] == Opt(left) + [subs[id]] + Opt(right)
    ensures var mid := subs[id].tiny;
      var g := Opt(left + mid[..i]) + Opt(mid[i..j]) + Opt(mid[j..] + right);
      var subs' := subs[..r.from] + g + subs[r.to..];
      HotCount(subs', key) == HotCount(subs, key) && HotTotal(subs', key) == HotTotal(subs, key)
  {
    var mid := subs[id].tiny;
    assert Opt(mid) == [subs[id]];
    hide HotCount, HotTotal, Opt, Counted;
    PiecesFacts(left, mid, right, key);
    PiecesFacts(left + mid[..i], mid[i..j], mid[j..] + right, key);
    HotReplaced(subs, r.from, r.to, Opt(left + mid[..i]) + Opt(mid[i..j]) + Opt(mid[j..] + right), key);
  }

  lemma {:induction false} RecutCounted(subs: seq<Sub>, id: nat, left: seq<Tiny>, right: seq<Tiny>, r: Stretch, i: nat,
                                        j: nat)
    requires r.from <= id < r.to <= |subs| && i <= j <= |subs[id].tiny| && NonNegative(subs) && Counted(left)
      && Counted(right)
    ensures var mid := subs[id].tiny;
      var g := Opt(left + mid[..i]) + Opt(mid[i..j]) + Opt(mid[j..] + right);
      NonNegative(subs[..r.from] + g + subs[r.to..])
  {
    var mid := subs[id].tiny;
    assert Counted(mid);
    assert Counted(left + mid[..i]) && Counted(mid[i..j]) && Counted(mid[j..] + right);
    PiecesFacts(left + mid[..i], mid[i..j], mid[j..] + right, 0);
    hide Counted, Opt, HotCount, HotTotal;
  }

  /** A neighbour to push to whose ratio is not exactly 1. */
  ghost predicate Pushable(subs: seq<Sub>, id: nat, total: real)
    requires total > 0.0
  {
    || (0 < id <= |subs| && subs[id - 1].dups == 0 && Ratio(subs[id - 1], total) != 1.0)
    || (id + 1 < |subs| && subs[id + 1].dups == 0 && Ratio(subs[id + 1], total) != 1.0)
  }

  ghost predicate SameHot(a: seq<Sub>, b: seq<Sub>) {
    forall key :: HotCount(b, key) == HotCount(a, key) && HotTotal(b, key) == HotTotal(a, key)
  }

  ghost function PushOf(subs: seq<Sub>, id: nat, total: real, fair: real, stopBelowFair: bool, direction: int): Push
    requires id < |subs| && total > 0.0
  {
    var hasLeft, hasRight := id > 0 && subs[id - 1].dups == 0, id + 1 < |subs| && subs[id + 1].dups == 0;
    Push(subs[id].tiny, hasLeft, hasRight, if hasLeft then Ratio(subs[id - 1], total) else 1.0, Ratio(subs[id], total),
         if hasRight then Ratio(subs[id + 1], total) else 1.0, total, fair, stopBelowFair, direction)
  }

  /** The subranges after a push: the tiny ranges before the end point go left, those behind right. */
  ghost function AfterPush(subs: seq<Sub>, id: nat, total: real, fair: real, stopBelowFair: bool,
                           direction: int): seq<Sub>
    requires id < |subs| && subs[id].dups == 0 && total > 0.0
  {
    var p := PushOf(subs, id, total, fair, stopBelowFair, direction);
    if p.leftRatio == 1.0 && p.rightRatio == 1.0 then subs
    else
      var (i, j) := PushEnd(p, 0, |p.mid|);
      Pushed(subs, id, p.hasLeft, p.hasRight, i, j)
  }

  lemma {:induction false} HotItself(subs: seq<Sub>)
    ensures SameHot(subs, subs)
  {
  }

  lemma {:induction false} AfterPushOk(subs: seq<Sub>, lo: nat, hi: nat, id: nat, total: real, fair: real,
                                       stopBelowFair: bool, direction: int)
    requires Tiles(subs, lo, hi) && id < |subs| && subs[id].dups == 0 && total > 0.0
    ensures var subs' := AfterPush(subs, id, total, fair, stopBelowFair, direction);
      && Tiles(subs', lo, hi) && Total(subs') == Total(subs) && SameHot(subs, subs')
      && (NonNegative(subs) ==> NonNegative(subs')) && (subs' == subs || PushStep(subs, subs'))
      && |subs| - 1 <= |subs'| <= |subs|
      && (!stopBelowFair && Pushable(subs, id, total) ==> |subs'| == |subs| - 1)
  {
    hide Tiles, Total, Ratio, SameHot, NonNegative, Opt, Stops, PushEnd, PushStep, Pushed;
    HotItself(subs);
    var p := PushOf(subs, id, total, fair, stopBelowFair, direction);
    if p.leftRatio != 1.0 || p.rightRatio != 1.0 {
      var (i, j) := PushEnd(p, 0, |p.mid|);
      if !stopBelowFair {
        EndEmpties(p);
      }
      PushedOk(subs, Pushed(subs, id, p.hasLeft, p.hasRight, i, j), lo, hi, id, p.hasLeft, p.hasRight, i, j);
    }
  }

  method PushTinyRanges(subs: seq<Sub>, ghost lo: nat, ghost hi: nat, id: nat, total: real, fair: real,
                        stopBelowFair: bool, direction: int)
    returns (subs': seq<Sub>)
    requires Tiles(subs, lo, hi) && id < |subs| && subs[id].dups == 0 && total > 0.0
    ensures subs' == AfterPush(subs, id, total, fair, stopBelowFair, direction)
    ensures Tiles(subs', lo, hi) && Total(subs') == Total(subs) && SameHot(subs, subs')
    ensures NonNegative(subs) ==> NonNegative(subs')
    ensures subs' == subs || PushStep(subs, subs')
    ensures |subs| - 1 <= |subs'| <= |subs|
    ensures !stopBelowFair && Pushable(subs, id, total) ==> |subs'| == |subs| - 1
  {
    AfterPushOk(subs, lo, hi, id, total, fair, stopBelowFair, direction);
    hide Tiles, Total, SameHot, NonNegative, PushStep, Pushable, Opt, PushEnd, RatiosAt, Parts, Pushed;
    var hasLeft, hasRight := id > 0 && subs[id - 1].dups == 0, id + 1 < |subs| && subs[id + 1].dups == 0;
    var leftRatio := if hasLeft then Ratio(subs[id - 1], total) else 1.0;
    var rightRatio := if hasRight then Ratio(subs[id + 1], total) else 1.0;
    if leftRatio == 1.0 && rightRatio == 1.0 {
      return subs;
    }
    hide Ratio, TinyTotal;
    ghost var p := PushOf(subs, id, total, fair, stopBelowFair, direction);
    var left, mid, right := TinyOf(subs, id - 1, hasLeft), subs[id].tiny, TinyOf(subs, id + 1, hasRight);
    var v := PushLoop(left, mid, right, hasLeft, hasRight, leftRatio, Ratio(subs[id], total), rightRatio, total, fair,
                      stopBelowFair, direction);
    ghost var (i, j) := PushEnd(p, 0, |mid|);
    var from, to := if hasLeft then id - 1 else id, if hasRight then id + 2 else id + 1;
    subs' := subs[..from] + (Opt(v.left) + Opt(v.mid) + Opt(v.right)) + subs[to..];
    PartsPushed(subs, id, hasLeft, hasRight, i, j, v);
  }

  lemma {:induction false} PartsPushed(subs: seq<Sub>, id: nat, hasLeft: bool, hasRight: bool, i: nat, j: nat, v: Vars)
    requires MayPush(subs, id, hasLeft, hasRight, i, j)
    requires Parts(TinyOf(subs, id - 1, hasLeft), subs[id].tiny, TinyOf(subs, id + 1, hasRight), i, j, v.left, v.mid,
                   v.right)
    ensures Pushed(subs, id, hasLeft, hasRight, i, j)
         == subs[..if hasLeft then id - 1 else id] + (Opt(v.left) + Opt(v.mid) + Opt(v.right))
            + subs[if hasRight then id + 2 else id + 1..]
  {
  }

  lemma {:induction false} PushedOk(subs: seq<Sub>, subs': seq<Sub>, lo: nat, hi: nat, id: nat, hasLeft: bool,
                                    hasRight: bool, i: nat, j: nat)
    requires Tiles(subs, lo, hi) && MayPush(subs, id, hasLeft, hasRight, i, j)
    requires subs' == Pushed(subs, id, hasLeft, hasRight, i, j)
    ensures Tiles(subs', lo, hi) && Total(subs') == Total(subs) && SameHot(subs, subs') && PushStep(subs, subs')
    ensures |subs'| == |subs| - 1 + (if i < j then 1 else 0) && (NonNegative(subs) ==> NonNegative(subs'))
  {
    hide Tiles, Total, SameHot, NonNegative, MayPush, Pushed;
    PushedTiles(subs, lo, hi, id, hasLeft, hasRight, i, j);
    PushedHot(subs, lo, hi, id, hasLeft, hasRight, i, j);
    PushedCounted(subs, lo, hi, id, hasLeft, hasRight, i, j);
  }

  ghost predicate MayPush(subs: seq<Sub>, id: nat, hasLeft: bool, hasRight: bool, i: nat, j: nat) {
    && id < |subs| && subs[id].dups == 0 && i <= j <= |subs[id].tiny|
    && (if hasLeft then id > 0 && subs[id - 1].dups == 0 else i == 0)
    && (if hasRight then id + 1 < |subs| && subs[id + 1].dups == 0 else j == |subs[id].tiny|)
  }

  /** Subrange id gives its first i tiny ranges to the left and those from j on to the right. */
  ghost function Pushed(subs: seq<Sub>, id: nat, hasLeft: bool, hasRight: bool, i: nat, j: nat): seq<Sub>
    requires MayPush(subs, id, hasLeft, hasRight, i, j)
  {
    var left, mid, right := TinyOf(subs, id - 1, hasLeft), subs[id].tiny, TinyOf(subs, id + 1, hasRight);
    subs[..if hasLeft then id - 1 else id] + (Opt(left + mid[..i]) + Opt(mid[i..j]) + Opt(mid[j..] + right))
    + subs[if hasRight then id + 2 else id + 1..]
  }

  lemma {:induction false} PushedTiles(subs: seq<Sub>, lo: nat, hi: nat, id: nat, hasLeft: bool, hasRight: bool, i: nat,
                                       j: nat)
    requires Tiles(subs, lo, hi) && MayPush(subs, id, hasLeft, hasRight, i, j)
    ensures Tiles(Pushed(subs, id, hasLeft, hasRight, i, j), lo, hi)
    ensures Total(Pushed(subs, id, hasLeft, hasRight, i, j)) == Total(subs)
  {
    hide Tiles, Contiguous, Total, Opt, IsStretch;
    var r := FindStretch(subs, lo, hi, id, hasLeft, hasRight);
    RecutStretch(subs, lo, hi, id, TinyOf(subs, id - 1, hasLeft), TinyOf(subs, id + 1, hasRight), r, i, j);
  }

  lemma {:induction false} PushedHot(subs: seq<Sub>, lo: nat, hi: nat, id: nat, hasLeft: bool, hasRight: bool, i: nat,
                                     j: nat)
    requires Tiles(subs, lo, hi) && MayPush(subs, id, hasLeft, hasRight, i, j)
    ensures SameHot(subs, Pushed(subs, id, hasLeft, hasRight, i, j))
  {
    TilesBounds(subs, lo, hi);
    hide Tiles, HotCount, HotTotal, Opt, IsStretch;
    var left, right := TinyOf(subs, id - 1, hasLeft), TinyOf(subs, id + 1, hasRight);
    var r := FindStretch(subs, lo, hi, id, hasLeft, hasRight);
    StretchOf(subs, lo, hi, id, left, right, r);
    forall key
      ensures var subs' := Pushed(subs, id, hasLeft, hasRight, i, j);
        HotCount(subs', key) == HotCount(subs, key) && HotTotal(subs', key) == HotTotal(subs, key)
    {
      RecutHot(subs, id, left, right, r, i, j, key);
    }
  }

  lemma {:induction false} PushedCounted(subs: seq<Sub>, lo: nat, hi: nat, id: nat, hasLeft: bool, hasRight: bool,
                                         i: nat, j: nat)
    requires Tiles(subs, lo, hi) && MayPush(subs, id, hasLeft, hasRight, i, j)
    ensures |Pushed(subs, id, hasLeft, hasRight, i, j)| == |subs| - 1 + if i < j then 1 else 0
    ensures NonNegative(subs) ==> NonNegative(Pushed(subs, id, hasLeft, hasRight, i, j))
  {
    TilesBounds(subs, lo, hi);
    hide Tiles, Counted;
    var left, right := TinyOf(subs, id - 1, hasLeft), TinyOf(subs, id + 1, hasRight);
    PieceCount(left, subs[id].tiny, right, i, j);
    hide Opt;
    if NonNegative(subs) {
      NothingCounted();
      var r := Stretch(if hasLeft then id - 1 else id, if hasRight then id + 2 else id + 1, 0, 0, 0, 0);
      RecutCounted(subs, id, left, right, r, i, j);
    }
  }

  lemma {:induction false} StretchOf(subs: seq<Sub>, lo: nat, hi: nat, id: nat, left: seq<Tiny>, right: seq<Tiny>,
                                     r: Stretch)
    requires IsStretch(subs, lo, hi, id, left, right, r)
    ensures r.from <= id < r.to <= |subs| && subs[r.from..r.to] == Opt(left) + [subs[id]] + Opt(right)
  {
  }

  lemma {:induction false} PieceCount(left: seq<Tiny>, mid: seq<Tiny>, right: seq<Tiny>, i: nat, j: nat)
    requires i <= j <= |mid| && (left == [] ==> i == 0) && (right == [] ==> j == |mid|)
    ensures |Opt(left + mid[..i]) + Opt(mid[i..j]) + Opt(mid[j..] + right)|
         == (if left == [] then 0 else 1) + (if i < j then 1 else 0) + if right == [] then 0 else 1
  {
  }

  lemma {:induction false} NothingCounted()
    ensures Counted([])
  {
  }

  // ---------- steps and runs ----------

  /** The subranges that go together with subrange i: the duplicates of its key, or itself. */
  ghost predicate IsGroup(subs: seq<Sub>, i: nat, first: nat, next: nat) {
    && first <= i < next <= |subs| && subs[i].tiny != []
    && if subs[i].dups == 0 then next == first + 1
       else forall j :: 0 <= j < |subs| ==> (first <= j < next <==> IsHot(subs[j], Lower(subs[i])))
  }

  ghost predicate PushStep(subs: seq<Sub>, subs': seq<Sub>) {
    exists id: nat, hasLeft: bool, hasRight: bool, i: nat, j: nat ::
      MayPush(subs, id, hasLeft, hasRight, i, j) && subs' == Pushed(subs, id, hasLeft, hasRight, i, j)
  }

  ghost predicate Destroys(subs: seq<Sub>, subs': seq<Sub>, index: nat, first: nat, next: nat, all: seq<Sub>) {
    && IsGroup(subs, index, first, next) && subs[index].dups > 1
    && ShareMoved(subs, all, first, next, ShareOf(subs[index]), LessOne(subs[index].dups))
    && subs' == all[..index] + all[index + 1..]
  }

  /** The duplicate at `index` goes. */
  ghost predicate DestroysAt(subs: seq<Sub>, subs': seq<Sub>, index: nat) {
    exists first: nat, next: nat, all :: Destroys(subs, subs', index, first, next, all)
  }

  ghost predicate DestroyStep(subs: seq<Sub>, subs': seq<Sub>) {
    exists index: nat :: DestroysAt(subs, subs', index)
  }

  ghost predicate Inserts(subs: seq<Sub>, subs': seq<Sub>, id: nat, first: nat, next: nat, all: seq<Sub>, extra: nat,
                          s: Sub, copies: seq<Sub>) {
    && IsGroup(subs, id, first, next) && IsPoint(subs[id])
    && Redup(subs, all, first, next, MoreDups(subs[id], extra))
    && CopiesOf(subs[id].tiny[0], extra, MoreDups(subs[id], extra), s, copies)
    && subs' == all[..id] + ([s] + copies) + all[id + 1..]
  }

  /** The point at `id` gets `extra` duplicates. */
  ghost predicate InsertsAt(subs: seq<Sub>, subs': seq<Sub>, id: nat, extra: nat) {
    exists first: nat, next: nat, all, s, copies :: Inserts(subs, subs', id, first, next, all, extra, s, copies)
  }

  ghost predicate InsertStep(subs: seq<Sub>, subs': seq<Sub>) {
    exists id: nat, extra: nat :: InsertsAt(subs, subs', id, extra)
  }

  /** Pushing tiny ranges, destroying a duplicate, inserting duplicates. */
  ghost predicate ReorgStep(subs: seq<Sub>, subs': seq<Sub>) {
    PushStep(subs, subs') || DestroyStep(subs, subs') || InsertStep(subs, subs')
  }

  lemma {:induction false} BlockIsGroup(subs: seq<Sub>, lo: nat, hi: nat, i: nat, p: Place)
    requires InBlock(subs, lo, hi, i, p) && subs[i].dups > 0
    ensures IsGroup(subs, i, p.first, p.next)
  {
    MembersOfBlock(subs, lo, hi, i, p);
  }

  lemma {:induction false} PointIsGroup(subs: seq<Sub>, lo: nat, hi: nat, i: nat, p: Place)
    requires InBlock(subs, lo, hi, i, p) && subs[i].tiny != [] && (subs[i].dups == 0 ==> p.next == p.first + 1)
    ensures IsGroup(subs, i, p.first, p.next)
  {
    if subs[i].dups > 0 {
      MembersOfBlock(subs, lo, hi, i, p);
    }
  }

  lemma {:induction false} GroupIsBlock(subs: seq<Sub>, first: nat, next: nat, i: nat, p: Place)
    requires IsGroup(subs, i, first, next) && IsGroup(subs, i, p.first, p.next)
    ensures first == p.first && next == p.next
  {
    if subs[i].dups > 0 {
      var key := Lower(subs[i]);
      assert IsHot(subs[p.first], key) && IsHot(subs[first], key);
      assert IsHot(subs[p.next - 1], key) && IsHot(subs[next - 1], key);
    }
  }

  lemma {:induction false} DestroyKeeps(subs: seq<Sub>, subs': seq<Sub>, lo: nat, hi: nat)
    requires Tiles(subs, lo, hi) && DestroyStep(subs, subs')
    ensures Tiles(subs', lo, hi) && Total(subs') == Total(subs) && (NonNegative(subs) ==> NonNegative(subs'))
  {
    hide Tiles, Total, NonNegative, ShareMoved, IsGroup;
    var index: nat :| DestroysAt(subs, subs', index);
    var first: nat, next: nat, all :| Destroys(subs, subs', index, first, next, all);
    InGroup(subs, index, first, next);
    var p := FindBlock(subs, lo, hi, index);
    BlockIsGroup(subs, lo, hi, index, p);
    GroupIsBlock(subs, first, next, index, p);
    SharedLength(subs, all, first, next, ShareOf(subs[index]), LessOne(subs[index].dups));
    DestroyedTiles(subs, lo, hi, index, p, all);
    if NonNegative(subs) {
      DestroyedCounted(subs, index, p, all);
    }
  }

  lemma {:induction false} InGroup(subs: seq<Sub>, i: nat, first: nat, next: nat)
    requires IsGroup(subs, i, first, next)
    ensures i < |subs| && subs[i].tiny != [] && (subs[i].dups == 0 ==> next == first + 1)
  {
  }

  lemma {:induction false} SharedLength(subs: seq<Sub>, all: seq<Sub>, first: nat, next: nat, share: real, dups: nat)
    requires ShareMoved(subs, all, first, next, share, dups)
    ensures |all| == |subs|
  {
  }

  lemma {:induction false} RedupAllLength(subs: seq<Sub>, all: seq<Sub>, first: nat, next: nat, dups: nat)
    requires Redup(subs, all, first, next, dups)
    ensures |all| == |subs|
  {
  }

  lemma {:induction false} InsertKeeps(subs: seq<Sub>, subs': seq<Sub>, lo: nat, hi: nat)
    requires Tiles(subs, lo, hi) && InsertStep(subs, subs')
    ensures Tiles(subs', lo, hi) && Total(subs') == Total(subs) && (NonNegative(subs) ==> NonNegative(subs'))
  {
    hide Tiles, Total, NonNegative, IsGroup, Redup, CopiesOf, AllAt, HotCount, HotTotal;
    var id: nat, extra: nat :| InsertsAt(subs, subs', id, extra);
    var first: nat, next: nat, all, s, copies :| Inserts(subs, subs', id, first, next, all, extra, s, copies);
    InGroup(subs, id, first, next);
    var p := PointGroup(subs, lo, hi, id);
    PointIsGroup(subs, lo, hi, id, p);
    GroupIsBlock(subs, first, next, id, p);
    RedupAllLength(subs, all, first, next, MoreDups(subs[id], extra));
    InsertedOk(subs, lo, hi, id, p, all, extra, s, copies);
  }

  lemma {:induction false} PushKeeps(subs: seq<Sub>, subs': seq<Sub>, lo: nat, hi: nat)
    requires Tiles(subs, lo, hi) && PushStep(subs, subs')
    ensures Tiles(subs', lo, hi) && Total(subs') == Total(subs) && (NonNegative(subs) ==> NonNegative(subs'))
  {
    hide Tiles, Total, NonNegative, MayPush, Pushed;
    var id: nat, hasLeft: bool, hasRight: bool, i: nat, j: nat :|
      MayPush(subs, id, hasLeft, hasRight, i, j) && subs' == Pushed(subs, id, hasLeft, hasRight, i, j);
    PushedTiles(subs, lo, hi, id, hasLeft, hasRight, i, j);
    PushedCounted(subs, lo, hi, id, hasLeft, hasRight, i, j);
  }

  ghost predicate ReorgRun(trace: seq<seq<Sub>>) {
    |trace| > 0 && forall i, j :: 0 <= i && j == i + 1 < |trace| ==> ReorgStep(trace[i], trace[j])
  }

  /** Over every sequence of steps: the keys covered, the inserts seen and the shape of the groups
      of duplicates, which are all part of the tiling, are kept. */
  lemma {:induction false} RunConserves(trace: seq<seq<Sub>>, n: nat, lo: nat, hi: nat)
    requires ReorgRun(trace) && n < |trace| && Tiles(trace[0], lo, hi)
    ensures Tiles(trace[n], lo, hi) && Total(trace[n]) == Total(trace[0])
    ensures NonNegative(trace[0]) ==> NonNegative(trace[n])
  {
    hide Tiles, Total, NonNegative, PushStep, DestroyStep, InsertStep;
    if n > 0 {
      RunConserves(trace, n - 1, lo, hi);
      var a, b := trace[n - 1], trace[n];
      assert ReorgStep(a, b);
      if PushStep(a, b) {
        PushKeeps(a, b, lo, hi);
      } else if DestroyStep(a, b) {
        DestroyKeeps(a, b, lo, hi);
      } else {
        InsertKeeps(a, b, lo, hi);
      }
    }
  }

  /** Some sequence of steps leads from one set of subranges to the other. */
  ghost predicate Reorganised(subs: seq<Sub>, subs': seq<Sub>) {
    exists trace :: ReorgRun(trace) && trace[0] == subs && trace[|trace| - 1] == subs'
  }

  lemma {:induction false} NoStep(subs: seq<Sub>)
    ensures Reorganised(subs, subs)
  {
    var trace := [subs];
    assert ReorgRun(trace) && trace[0] == subs && trace[|trace| - 1] == subs;
  }

  lemma {:induction false} OneMoreStep(subs: seq<Sub>, mid: seq<Sub>, subs': seq<Sub>)
    requires Reorganised(subs, mid) && (subs' == mid || ReorgStep(mid, subs'))
    ensures Reorganised(subs, subs')
  {
    hide ReorgStep;
    if subs' != mid {
      var trace :| ReorgRun(trace) && trace[0] == subs && trace[|trace| - 1] == mid;
      var longer := trace + [subs'];
      forall i, j | 0 <= i && j == i + 1 < |longer|
        ensures ReorgStep(longer[i], longer[j])
      {
        if j < |trace| {
          assert longer[i] == trace[i] && longer[j] == trace[j];
        }
      }
      assert ReorgRun(longer) && longer[0] == subs && longer[|longer| - 1] == subs';
    }
  }

  // ---------- what destroying a duplicate leaves of its group ----------

  ghost predicate AllAt(g: seq<Sub>, key: nat, dups: nat) {
    forall i :: 0 <= i < |g| ==> IsDuplicate(g[i], key, dups)
  }

  lemma {:induction false} GroupHot(g: seq<Sub>, key: nat, dups: nat, k: nat)
    requires AllAt(g, key, dups)
    ensures HotCount(g, k) == (if k == key && dups > 0 then |g| else 0)
    ensures HotTotal(g, k) == if k == key && dups > 0 then Total(g) else 0.0
  {
    if k == key && dups > 0 {
      AllHot(g, k);
    } else {
      NoneHot(g, k);
    }
  }

  lemma {:induction false} DestroyedGroup(g: seq<Sub>, g': seq<Sub>, k: nat, share: real, key: nat)
    requires AllAt(g, key, |g|) && |g| >= 2 && k < |g| && AllShared(g, g', share, LessOne(|g|))
    ensures AllAt(g'[..k] + g'[k + 1..], key, LessOne(|g|))
  {
    var h := g'[..k] + g'[k + 1..];
    forall i | 0 <= i < |h|
      ensures IsDuplicate(h[i], key, LessOne(|g|))
    {
      var j := if i < k then i else i + 1;
      assert h[i] == g'[j] && IsDuplicate(g[j], key, |g|);
    }
  }

  lemma {:induction false} SharedCounted(subs: seq<Sub>, all: seq<Sub>, first: nat, next: nat, index: nat, share: real,
                                         dups: nat)
    requires ShareMoved(subs, all, first, next, share, dups) && NonNegative(subs) && share >= 0.0 && index < |subs|
    ensures NonNegative(all[..index] + all[index + 1..])
  {
    forall i | 0 <= i < |all|
      ensures Counted(all[i].tiny)
    {
      assert Counted(subs[i].tiny);
    }
    hide Counted;
  }

  lemma {:induction false} ShareNonNegative(s: Sub)
    requires s.dups > 1 && Counted(s.tiny)
    ensures ShareOf(s) >= 0.0
  {
    TinyNonNegative(s.tiny);
  }

  // ---------- creating duplicates ----------

  predicate IsPoint(s: Sub) {
    |s.tiny| == 1 && s.tiny[0].upper == s.tiny[0].lower + 1
  }

  ghost predicate Redup(subs: seq<Sub>, all: seq<Sub>, first: nat, next: nat, dups: nat) {
    && |all| == |subs| && first <= next <= |subs|
    && (forall j :: first <= j < next ==> all[j] == subs[j].(dups := dups))
    && (forall j :: 0 <= j < first || next <= j < |subs| ==> all[j] == subs[j])
  }

  method SetDups(subs: seq<Sub>, start: nat, next: nat, dups: nat) returns (all: seq<Sub>)
    requires start <= next <= |subs|
    ensures Redup(subs, all, start, next, dups)
  {
    all := subs;
    for i := start to next
      invariant Redup(subs, all, start, i, dups)
    {
      all := all[i := all[i].(dups := dups)];
    }
  }

  lemma {:induction false} RedupTotal(g: seq<Sub>, all: seq<Sub>, dups: nat)
    requires Redup(g, all, 0, |g|, dups)
    ensures Total(all) == Total(g)
  {
    if g != [] {
      RedupTotal(g[..|g| - 1], all[..|g| - 1], dups);
    }
  }

  /** New duplicates, and what is left for the subrange they are taken from. */
  method MakeCopies(t: Tiny, extra: nat, dups: nat) returns (copies: seq<Sub>, rest: real)
    ensures |copies| == extra && forall i :: 0 <= i < extra ==> copies[i] == Copy(t, extra, dups)
    ensures rest == t.ninserts - extra as real * PartOf(t, extra)
  {
    copies, rest := [], t.ninserts;
    for i := 0 to extra
      invariant |copies| == i && forall k :: 0 <= k < i ==> copies[k] == Copy(t, extra, dups)
      invariant rest == t.ninserts - i as real * PartOf(t, extra)
    {
      copies := copies + [Copy(t, extra, dups)];
      rest := rest - t.ninserts / (extra + 1) as real;
    }
  }

  function PartOf(t: Tiny, extra: nat): real {
    t.ninserts / (extra + 1) as real
  }

  function Copy(t: Tiny, extra: nat, dups: nat): Sub {
    Sub([t.(ninserts := PartOf(t, extra))], dups)
  }

  lemma {:induction false} CopiesTotal(copies: seq<Sub>, t: Tiny, extra: nat, dups: nat)
    requires forall i :: 0 <= i < |copies| ==> copies[i] == Copy(t, extra, dups)
    ensures Total(copies) == |copies| as real * PartOf(t, extra)
  {
    if copies != [] {
      var n := |copies| - 1;
      CopiesTotal(copies[..n], t, extra, dups);
      TinyTotalOne(Copy(t, extra, dups).tiny[0]);
      hide PartOf;
      assert (n + 1) as real * PartOf(t, extra) == n as real * PartOf(t, extra) + PartOf(t, extra);
    }
  }

  lemma {:induction false} PartsAddUp(t: Tiny, extra: nat)
    ensures t.ninserts - extra as real * PartOf(t, extra) == PartOf(t, extra)
  {
    var n := (extra + 1) as real;
    assert n * PartOf(t, extra) == t.ninserts;
    assert n * PartOf(t, extra) == extra as real * PartOf(t, extra) + PartOf(t, extra);
  }

  /** One subrange and its new duplicates take the place of that subrange in its group. */
  lemma {:induction false} GroupWithCopies(g: seq<Sub>, gd: seq<Sub>, k: nat, s: Sub, copies: seq<Sub>, key: nat,
                                           d: nat, dups: nat)
    requires AllAt(g, key, d) && Redup(g, gd, 0, |g|, dups) && k < |g| && IsDuplicate(s, key, dups)
      && AllAt(copies, key, dups)
    ensures AllAt(gd[..k] + ([s] + copies) + gd[k + 1..], key, dups)
  {
    var h := gd[..k] + ([s] + copies) + gd[k + 1..];
    forall i | 0 <= i < |g|
      ensures IsDuplicate(gd[i], key, dups)
    {
      assert IsDuplicate(g[i], key, d);
    }
    hide IsDuplicate;
    forall i | 0 <= i < |h|
      ensures IsDuplicate(h[i], key, dups)
    {
      if k < i <= k + |copies| {
        assert h[i] == copies[i - k - 1];
      } else if i > k + |copies| {
        assert h[i] == gd[i - |copies|];
      }
    }
  }

  lemma {:induction false} TotalWithCopies(g: seq<Sub>, gd: seq<Sub>, k: nat, s: Sub, copies: seq<Sub>, dups: nat)
    requires Redup(g, gd, 0, |g|, dups) && k < |g| && TinyTotal(s.tiny) + Total(copies) == TinyTotal(g[k].tiny)
    ensures Total(gd[..k] + ([s] + copies) + gd[k + 1..]) == Total(g)
  {
    RedupTotal(g, gd, dups);
    assert gd[k].tiny == g[k].tiny;
    TotalOne(s);
    hide Total, TinyTotal, Redup;
    TotalConcat([s], copies);
    ReplaceTotal(gd, k, [s] + copies);
  }

  lemma {:induction false} AllAtTiles(h: seq<Sub>, key: nat)
    requires |h| >= 2 && AllAt(h, key, |h|)
    ensures Tiles(h, key, key + 1)
  {
    assert IsDuplicate(h[0], key, |h|);
    BlockTiles(h, key, key + 1);
  }

  function MoreDups(s: Sub, extra: nat): nat {
    if s.dups == 0 then extra + 1 else s.dups + extra
  }

  /** The group a point belongs to: itself, or its duplicates. */
  lemma {:induction false} PointGroup(subs: seq<Sub>, lo: nat, hi: nat, id: nat) returns (p: Place)
    requires Tiles(subs, lo, hi) && id < |subs| && IsPoint(subs[id])
    ensures InBlock(subs, lo, hi, id, p) && AllAt(subs[p.first..p.next], p.lo, subs[id].dups) && p.hi == p.lo + 1
    ensures p.next - p.first == (if subs[id].dups == 0 then 1 else subs[id].dups) && Lower(subs[id]) == p.lo
    ensures subs[id].dups == 0 || subs[id].dups >= 2
  {
    p := FindBlock(subs, lo, hi, id);
    var g := subs[p.first..p.next];
    BlockMember(g, p.lo, p.hi, id - p.first);
    assert g[id - p.first] == subs[id];
    if subs[id].dups > 0 {
      GroupOf(subs, lo, hi, id, p);
    } else {
      assert |g| == 1 && g[0] == subs[id];
    }
  }

  lemma {:induction false} InsertedIsReplaced(subs: seq<Sub>, all: seq<Sub>, first: nat, next: nat, id: nat,
                                              m: seq<Sub>, dups: nat)
    requires Redup(subs, all, first, next, dups) && first <= id < next
    ensures var g, gd, k := subs[first..next], all[first..next], id - first;
      && Redup(g, gd, 0, |g|, dups) && g[k] == subs[id]
      && all[..id] + m + all[id + 1..] == subs[..first] + (gd[..k] + m + gd[k + 1..]) + subs[next..]
  {
    assert all[..first] == subs[..first] && all[next..] == subs[next..];
  }

  /** The facts about the point and its copies. */
  ghost predicate CopiesOf(t: Tiny, extra: nat, dups: nat, s: Sub, copies: seq<Sub>) {
    && extra >= 1 && |copies| == extra && s == Copy(t, extra, dups)
    && forall i :: 0 <= i < extra ==> copies[i] == Copy(t, extra, dups)
  }

  lemma {:induction false} CopiesFacts(t: Tiny, extra: nat, dups: nat, s: Sub, copies: seq<Sub>)
    requires CopiesOf(t, extra, dups, s, copies) && t.upper == t.lower + 1
    ensures IsDuplicate(s, t.lower, dups) && AllAt(copies, t.lower, dups)
    ensures TinyTotal(s.tiny) + Total(copies) == t.ninserts && TinyTotal(s.tiny) == PartOf(t, extra)
  {
    CopiesTotal(copies, t, extra, dups);
    PartsAddUp(t, extra);
    TinyTotalOne(s.tiny[0]);
    hide Total, TinyTotal, PartOf;
    assert s.tiny == [s.tiny[0]];
  }

  /** The new group of the point: its size, its keys and its inserts. */
  lemma {:induction false} NewGroup(subs: seq<Sub>, lo: nat, hi: nat, id: nat, p: Place, all: seq<Sub>, extra: nat,
                                    s: Sub, copies: seq<Sub>)
    requires InBlock(subs, lo, hi, id, p) && IsPoint(subs[id]) && Lower(subs[id]) == p.lo
    requires AllAt(subs[p.first..p.next], p.lo, subs[id].dups) && p.hi == p.lo + 1
    requires p.next - p.first == (if subs[id].dups == 0 then 1 else subs[id].dups)
    requires |all| == |subs| && Redup(subs, all, p.first, p.next, MoreDups(subs[id], extra))
    requires CopiesOf(subs[id].tiny[0], extra, MoreDups(subs[id], extra), s, copies)
    ensures var gd, k := all[p.first..p.next], id - p.first;
      var h := gd[..k] + ([s] + copies) + gd[k + 1..];
      && |h| == MoreDups(subs[id], extra) >= 2 && AllAt(h, p.lo, |h|) && Tiles(h, p.lo, p.hi)
         && Total(h) == Total(subs[p.first..p.next])
      && all[..id] + ([s] + copies) + all[id + 1..] == subs[..p.first] + h + subs[p.next..]
  {
    hide Tiles, Block, Total, TinyTotal, AllAt, Redup, IsDuplicate, CopiesOf;
    var t, dups := subs[id].tiny[0], MoreDups(subs[id], extra);
    InsertedIsReplaced(subs, all, p.first, p.next, id, [s] + copies, dups);
    CopiesFacts(t, extra, dups, s, copies);
    var g, gd, k := subs[p.first..p.next], all[p.first..p.next], id - p.first;
    GroupWithCopies(g, gd, k, s, copies, p.lo, subs[id].dups, dups);
    TinyTotalOne(t);
    assert subs[id].tiny == [t];
    TotalWithCopies(g, gd, k, s, copies, dups);
    RedupLength(g, gd, dups);
    CopyCount(t, extra, dups, s, copies);
    AllAtTiles(gd[..k] + ([s] + copies) + gd[k + 1..], p.lo);
  }

  lemma {:induction false} RedupLength(g: seq<Sub>, gd: seq<Sub>, dups: nat)
    requires Redup(g, gd, 0, |g|, dups)
    ensures |gd| == |g|
  {
  }

  lemma {:induction false} CopyCount(t: Tiny, extra: nat, dups: nat, s: Sub, copies: seq<Sub>)
    requires CopiesOf(t, extra, dups, s, copies)
    ensures |copies| == extra >= 1
  {
  }

  /** What creating duplicates does to the groups of duplicates. */
  ghost predicate Duplicated(subs: seq<Sub>, subs': seq<Sub>, id: nat, extra: nat)
    requires id < |subs| && subs[id].tiny != []
  {
    && |subs'| == |subs| + extra && HotCount(subs', Lower(subs[id])) == MoreDups(subs[id], extra)
    && (NonNegative(subs) ==> NonNegative(subs'))
    && (NonNegative(subs) && TinyTotal(subs[id].tiny) > 0.0 ==> HotTotal(subs', Lower(subs[id])) > 0.0)
  }

  lemma {:induction false} NewGroupHot(subs: seq<Sub>, lo: nat, hi: nat, id: nat, p: Place, h: seq<Sub>)
    requires InBlock(subs, lo, hi, id, p) && |h| >= 2 && AllAt(h, p.lo, |h|)
    requires subs[id].dups > 0 ==>
      p.next - p.first == subs[id].dups && AllAt(subs[p.first..p.next], p.lo, p.next - p.first)
    requires subs[id].dups == 0 ==> p.next == p.first + 1
    ensures HotCount(subs[..p.first] + h + subs[p.next..], p.lo) == |h|
    ensures HotTotal(subs[..p.first] + h + subs[p.next..], p.lo) == Total(h)
  {
    OutsideNotHot(subs, lo, hi, id, p);
    GroupHot(h, p.lo, |h|, p.lo);
    NoneHot(subs[..p.first], p.lo);
    NoneHot(subs[p.next..], p.lo);
    hide HotCount, HotTotal;
    HotConcat(subs[..p.first], h, p.lo);
    HotConcat(subs[..p.first] + h, subs[p.next..], p.lo);
  }

  lemma {:induction false} OutsideNotHot(subs: seq<Sub>, lo: nat, hi: nat, id: nat, p: Place)
    requires InBlock(subs, lo, hi, id, p)
    ensures forall i :: 0 <= i < p.first ==> !IsHot(subs[..p.first][i], p.lo)
    ensures forall i :: 0 <= i < |subs| - p.next ==> !IsHot(subs[p.next..][i], p.lo)
  {
    TilesBounds(subs[..p.first], lo, p.lo);
    TilesBounds(subs[p.next..], p.hi, hi);
    BlockMember(subs[p.first..p.next], p.lo, p.hi, 0);
    hide Tiles, Block;
  }

  lemma {:induction false} InsertedCounted(subs: seq<Sub>, all: seq<Sub>, first: nat, next: nat, id: nat, extra: nat,
                                           dups: nat, s: Sub, copies: seq<Sub>)
    requires Redup(subs, all, first, next, dups) && id < |subs| && |subs[id].tiny| == 1 && NonNegative(subs)
    requires CopiesOf(subs[id].tiny[0], extra, dups, s, copies)
    ensures NonNegative(all[..id] + ([s] + copies) + all[id + 1..])
  {
    forall i | 0 <= i < |all|
      ensures Counted(all[i].tiny)
    {
      assert Counted(subs[i].tiny);
    }
    assert subs[id].tiny[0].ninserts >= 0.0 && PartOf(subs[id].tiny[0], extra) >= 0.0;
    assert Counted(s.tiny) && forall i :: 0 <= i < |copies| ==> Counted(copies[i].tiny);
    hide Counted;
  }

  lemma {:induction false} GroupPositive(subs: seq<Sub>, first: nat, next: nat, id: nat)
    requires first <= id < next <= |subs| && NonNegative(subs) && TinyTotal(subs[id].tiny) > 0.0
    ensures Total(subs[first..next]) > 0.0
  {
    var g := subs[first..next];
    assert NonNegative(g) && g[id - first] == subs[id];
    hide Counted;
    AtLeastOne(g, id - first);
  }

  lemma {:induction false} AtLeastOne(g: seq<Sub>, k: nat)
    requires k < |g| && NonNegative(g)
    ensures TinyTotal(g[k].tiny) <= Total(g)
  {
    var n := |g| - 1;
    TinyNonNegative(g[n].tiny);
    if k < n {
      AtLeastOne(g[..n], k);
    } else {
      HotIsPart(g[..n], 0);
    }
  }

  method InsertDuplicates(subs: seq<Sub>, ghost lo: nat, ghost hi: nat, id: nat, extra: nat) returns (subs': seq<Sub>)
    requires Tiles(subs, lo, hi) && id < |subs| && IsPoint(subs[id]) && extra >= 1
    ensures Tiles(subs', lo, hi) && Total(subs') == Total(subs) && Duplicated(subs, subs', id, extra)
    ensures InsertsAt(subs, subs', id, extra) && InsertStep(subs, subs')
  {
    hide Tiles, Total, TinyTotal, AllAt, HotCount, HotTotal, NonNegative, PartOf;
    ghost var p := PointGroup(subs, lo, hi, id);
    var dups, all := MoreDups(subs[id], extra), subs;
    ghost var redup := subs[id := subs[id].(dups := dups)];
    if subs[id].dups > 0 {
      var start, end := FindDuplicates(subs, lo, hi, id, p);
      all := SetDups(subs, start, end + 1, dups);
      redup := all;
    }
    var t := subs[id].tiny[0];
    var copies, rest := MakeCopies(t, extra, dups);
    PartsAddUp(t, extra);
    var s := Sub([t.(ninserts := rest)], dups);
    subs' := all[..id] + ([s] + copies) + all[id + 1..];
    assert redup[..id] == all[..id] && redup[id + 1..] == all[id + 1..];
    InsertedOk(subs, lo, hi, id, p, redup, extra, s, copies);
    PointIsGroup(subs, lo, hi, id, p);
    assert Inserts(subs, subs', id, p.first, p.next, redup, extra, s, copies);
  }

  lemma {:induction false} InsertedOk(subs: seq<Sub>, lo: nat, hi: nat, id: nat, p: Place, all: seq<Sub>, extra: nat,
                                      s: Sub, copies: seq<Sub>)
    requires InBlock(subs, lo, hi, id, p) && IsPoint(subs[id]) && Lower(subs[id]) == p.lo
    requires AllAt(subs[p.first..p.next], p.lo, subs[id].dups) && p.hi == p.lo + 1
    requires p.next - p.first == (if subs[id].dups == 0 then 1 else subs[id].dups)
    requires |all| == |subs| && Redup(subs, all, p.first, p.next, MoreDups(subs[id], extra))
    requires CopiesOf(subs[id].tiny[0], extra, MoreDups(subs[id], extra), s, copies)
    ensures var subs' := all[..id] + ([s] + copies) + all[id + 1..];
      Tiles(subs', lo, hi) && Total(subs') == Total(subs) && Duplicated(subs, subs', id, extra)
  {
    hide Tiles, Total, TinyTotal, AllAt, HotCount, HotTotal, Counted, Redup, CopiesOf, Block;
    NewGroup(subs, lo, hi, id, p, all, extra, s, copies);
    var gd, k := all[p.first..p.next], id - p.first;
    var h := gd[..k] + ([s] + copies) + gd[k + 1..];
    ReplaceBlock(subs, lo, hi, id, p, h);
    TotalBlocks(subs, p.first, p.next, h);
    NewGroupHot(subs, lo, hi, id, p, h);
    CopyCount(subs[id].tiny[0], extra, MoreDups(subs[id], extra), s, copies);
    if NonNegative(subs) {
      InsertedCounted(subs, all, p.first, p.next, id, extra, MoreDups(subs[id], extra), s, copies);
      if TinyTotal(subs[id].tiny) > 0.0 {
        GroupPositive(subs, p.first, p.next, id);
      }
    }
  }

  // ---------- trimming ----------

  predicate Skipped(s: Sub, key: nat) {
    |s.tiny| == 1 && s.tiny[0].lower == key
  }

  /** The subrange with the lowest ratio below 1 that is not one of the new ones. */
  method FindLeast(subs: seq<Sub>, key: nat, total: real) returns (found: bool, id: nat)
    requires total > 0.0
    ensures found <==> exists i :: 0 <= i < |subs| && !Skipped(subs[i], key) && Ratio(subs[i], total) < 1.0
    ensures found ==>
      && id < |subs| && !Skipped(subs[id], key) && Ratio(subs[id], total) < 1.0
      && (forall i :: 0 <= i < |subs| && !Skipped(subs[i], key) ==> Ratio(subs[id], total) <= Ratio(subs[i], total))
      && (forall i :: 0 <= i < id && !Skipped(subs[i], key) ==> Ratio(subs[id], total) < Ratio(subs[i], total))
  {
    hide Ratio;
    var least := 1.0;
    found, id := false, 0;
    for i := 0 to |subs|
      invariant found ==> id < i && !Skipped(subs[id], key) && least == Ratio(subs[id], total) < 1.0
      invariant !found ==> least == 1.0
      invariant forall k :: 0 <= k < i && !Skipped(subs[k], key) ==> least <= Ratio(subs[k], total)
      invariant found ==> forall k :: 0 <= k < id && !Skipped(subs[k], key) ==> least < Ratio(subs[k], total)
    {
      if !Skipped(subs[i], key) && Ratio(subs[i], total) < least {
        least := Ratio(subs[i], total);
        found, id := true, i;
      }
    }
  }

  /** While there are duplicates of the key, what is skipped are exactly these. */
  lemma {:induction false} SkippedIsHot(subs: seq<Sub>, lo: nat, hi: nat, key: nat, i: nat)
    requires Tiles(subs, lo, hi) && HotCount(subs, key) > 0 && i < |subs|
    ensures Skipped(subs[i], key) <==> IsHot(subs[i], key)
  {
    var h := SomeHot(subs, key);
    var p := FindBlock(subs, lo, hi, h);
    MembersOfBlock(subs, lo, hi, h, p);
    SinglesInBlock(subs, lo, hi, h, p);
    assert subs[i].tiny != [];
    if p.first <= i < p.next {
    } else if i < p.first {
      TilesBounds(subs[..p.first], lo, p.lo);
      assert subs[i] == subs[..p.first][i];
    } else {
      TilesBounds(subs[p.next..], p.hi, hi);
      assert subs[i] == subs[p.next..][i - p.next];
    }
  }

  lemma {:induction false} SomeHot(subs: seq<Sub>, key: nat) returns (h: nat)
    requires HotCount(subs, key) > 0
    ensures h < |subs| && IsHot(subs[h], key)
  {
    h := |subs| - 1;
    if !IsHot(subs[h], key) {
      h := SomeHot(subs[..h], key);
    }
  }

  lemma {:induction false} SomeOther(subs: seq<Sub>, key: nat) returns (i: nat)
    requires HotCount(subs, key) < |subs|
    ensures i < |subs| && !IsHot(subs[i], key)
  {
    i := |subs| - 1;
    if IsHot(subs[i], key) {
      i := SomeOther(subs[..i], key);
    }
  }

  /** Two subranges that are not duplicates of the key. */
  lemma {:induction false} TwoOthers(subs: seq<Sub>, key: nat, i: nat, j: nat)
    requires i < j < |subs| && !IsHot(subs[i], key) && !IsHot(subs[j], key)
    ensures HotCount(subs, key) <= |subs| - 2
  {
    var n := |subs| - 1;
    if j == n {
      OneOther(subs[..n], key, i);
    } else {
      TwoOthers(subs[..n], key, i, j);
    }
  }

  lemma {:induction false} OneOther(subs: seq<Sub>, key: nat, i: nat)
    requires i < |subs| && !IsHot(subs[i], key)
    ensures HotCount(subs, key) <= |subs| - 1
  {
    var n := |subs| - 1;
    HotAtMost(subs[..n], key);
    if i < n {
      OneOther(subs[..n], key, i);
    }
  }

  lemma {:induction false} HotAtMost(subs: seq<Sub>, key: nat)
    ensures HotCount(subs, key) <= |subs|
  {
    if subs != [] {
      HotAtMost(subs[..|subs| - 1], key);
    }
  }

  lemma {:induction false} OtherRatio(subs: seq<Sub>, key: nat, i: nat, total: real)
    requires NonNegative(subs) && Total(subs) == total > 0.0 && HotTotal(subs, key) > 0.0 && i < |subs|
      && !IsHot(subs[i], key)
    ensures Ratio(subs[i], total) < 1.0
  {
    OthersSeeLess(subs, key, i);
    hide Total, TinyTotal, HotTotal;
    BelowOne(TinyTotal(subs[i].tiny), total);
  }

  lemma {:induction false} BelowOne(x: real, total: real)
    requires x < total && total > 0.0
    ensures x / total < 1.0
  {
    var q := x / total;
    assert q * total == x;
    assert q >= 1.0 ==> q * total >= total;
  }

  /** The state of the trimming loop while there are too many subranges: the duplicates of the key
      have seen inserts and are at least as many as the subranges to remove plus one, and there is
      another subrange. */
  ghost predicate Trimming(subs: seq<Sub>, key: nat, partitions: nat) {
    && NonNegative(subs) && HotTotal(subs, key) > 0.0 && HotCount(subs, key) < |subs|
    && |subs| + 1 <= partitions + HotCount(subs, key)
  }

  /** The neighbour with the lower ratio, and of two equal ones the right. */
  ghost predicate IsLower(subs: seq<Sub>, id: nat, total: real, n: nat)
    requires total > 0.0
  {
    && n < |subs| && (n + 1 == id || n == id + 1)
    && forall k :: 0 <= k < |subs| && k != n && (k + 1 == id || k == id + 1) ==>
         if n < k then Ratio(subs[n], total) < Ratio(subs[k], total) else Ratio(subs[n], total) <= Ratio(subs[k], total)
  }

  /** The first subrange with the lowest ratio, which is below 1, among those that are not the key's. */
  ghost predicate IsLeast(subs: seq<Sub>, key: nat, total: real, id: nat)
    requires total > 0.0
  {
    && id < |subs| && !Skipped(subs[id], key) && Ratio(subs[id], total) < 1.0
    && (forall i :: 0 <= i < |subs| && !Skipped(subs[i], key) ==> Ratio(subs[id], total) <= Ratio(subs[i], total))
    && (forall i :: 0 <= i < id && !Skipped(subs[i], key) ==> Ratio(subs[id], total) < Ratio(subs[i], total))
  }

  /** A duplicate is destroyed; otherwise a duplicate that is the neighbour n is; otherwise all tiny
      ranges are pushed to the neighbours. */
  ghost predicate Removes(subs: seq<Sub>, subs': seq<Sub>, id: nat, n: nat, total: real, fair: real, direction: int)
    requires id < |subs| && total > 0.0
  {
    if subs[id].dups > 0 then DestroysAt(subs, subs', id)
    else
      && IsLower(subs, id, total, n)
      && if subs[n].dups > 0 then DestroysAt(subs, subs', n)
         else subs' == AfterPush(subs, id, total, fair, false, direction)
  }

  /** Among too many subranges, the least one is removed. */
  ghost predicate TrimStep(subs: seq<Sub>, subs': seq<Sub>, key: nat, total: real, fair: real, partitions: nat)
    requires total > 0.0
  {
    |subs| > partitions
    && exists id: nat, n: nat, direction: int ::
      IsLeast(subs, key, total, id) && Removes(subs, subs', id, n, total, fair, direction)
  }

  /** Choose the neighbour with the lower ratio; at an end there is only one. */
  method ChooseNeighbour(subs: seq<Sub>, id: nat, total: real) returns (n: nat)
    requires id < |subs| && |subs| >= 2 && total > 0.0
    ensures IsLower(subs, id, total, n)
  {
    hide Ratio;
    if id > 0 && id + 1 < |subs| {
      n := if Ratio(subs[id - 1], total) < Ratio(subs[id + 1], total) then id - 1 else id + 1;
    } else {
      n := if id > 0 then id - 1 else id + 1;
    }
  }

  /** A candidate is always found: some subrange is not a duplicate of the key. */
  lemma {:induction false} CandidateExists(subs: seq<Sub>, lo: nat, hi: nat, key: nat, total: real, partitions: nat)
    requires Tiles(subs, lo, hi) && Total(subs) == total > 0.0 && Trimming(subs, key, partitions) && |subs| > partitions
    ensures exists i :: 0 <= i < |subs| && !Skipped(subs[i], key) && Ratio(subs[i], total) < 1.0
  {
    hide Tiles, Total, HotCount, HotTotal, NonNegative, Ratio;
    var i := SomeOther(subs, key);
    SkippedIsHot(subs, lo, hi, key, i);
    OtherRatio(subs, key, i, total);
  }

  /** A block of duplicates of another key leaves at least two subranges that are not of this key. */
  lemma {:induction false} OtherGroup(subs: seq<Sub>, lo: nat, hi: nat, key: nat, i: nat)
    requires Tiles(subs, lo, hi) && i < |subs| && subs[i].dups > 0 && !IsHot(subs[i], key)
    ensures HotCount(subs, key) <= |subs| - 2
  {
    var p := FindBlock(subs, lo, hi, i);
    GroupOf(subs, lo, hi, i, p);
    MembersOfBlock(subs, lo, hi, i, p);
    hide Tiles, Block, HotCount;
    TwoOthers(subs, key, p.first, p.first + 1);
  }

  /** Whether the trimming finds a candidate. */
  lemma {:induction false} CandidateIff(subs: seq<Sub>, lo: nat, hi: nat, key: nat, total: real, partitions: nat)
    requires Tiles(subs, lo, hi) && Total(subs) == total > 0.0 && |subs| > partitions
    requires Trimming(subs, key, partitions) || HotCount(subs, key) == |subs|
    ensures (exists i :: 0 <= i < |subs| && !Skipped(subs[i], key) && Ratio(subs[i], total) < 1.0)
      <==> HotCount(subs, key) != |subs|
  {
    hide Tiles, Total, Ratio;
    if HotCount(subs, key) == |subs| {
      NoCandidateAmongDuplicates(subs, lo, hi, key);
    } else {
      CandidateExists(subs, lo, hi, key, total, partitions);
    }
  }

  /** Remove the candidate, or a duplicate next to it. */
  method RemoveOne(subs: seq<Sub>, ghost lo: nat, ghost hi: nat, key: nat, id: nat, total: real, fair: real,
                   ghost partitions: nat, direction: int)
    returns (subs': seq<Sub>)
    requires Tiles(subs, lo, hi) && Total(subs) == total > 0.0 && NonNegative(subs) && |subs| > partitions >= 2
    requires Trimming(subs, key, partitions) && id < |subs| && !Skipped(subs[id], key)
    ensures Tiles(subs', lo, hi) && Total(subs') == total && NonNegative(subs') && ReorgStep(subs, subs')
    ensures |subs'| == |subs| - 1 && (|subs'| > partitions ==> Trimming(subs', key, partitions))
    ensures exists n: nat :: Removes(subs, subs', id, n, total, fair, direction)
  {
    hide Tiles, Total, HotCount, HotTotal, NonNegative, Ratio, PushStep, DestroyStep, DestroysAt, InsertStep, AfterPush,
      IsLower;
    SkippedIsHot(subs, lo, hi, key, id);
    if subs[id].dups > 0 {
      OtherGroup(subs, lo, hi, key, id);
      subs' := DestroyDuplicate(subs, lo, hi, id);
      assert OneLess(subs, subs', id, key);
      assert Removes(subs, subs', id, 0, total, fair, direction);
      return;
    }
    var n := ChooseNeighbour(subs, id, total);
    LowerIsNeighbour(subs, id, total, n);
    if subs[n].dups > 0 {
      if !IsHot(subs[n], key) {
        OtherGroup(subs, lo, hi, key, n);
      }
      subs' := DestroyDuplicate(subs, lo, hi, n);
      assert OneLess(subs, subs', n, key);
      assert Removes(subs, subs', id, n, total, fair, direction);
      return;
    }
    OtherRatio(subs, key, n, total);
    if n < id {
      TwoOthers(subs, key, n, id);
    } else {
      TwoOthers(subs, key, id, n);
    }
    subs' := PushTinyRanges(subs, lo, hi, id, total, fair, false, direction);
    assert Removes(subs, subs', id, n, total, fair, direction);
  }

  lemma {:induction false} LowerIsNeighbour(subs: seq<Sub>, id: nat, total: real, n: nat)
    requires total > 0.0 && IsLower(subs, id, total, n)
    ensures n < |subs| && (n + 1 == id || n == id + 1)
  {
  }

  /** One pass of the trimming loop removes one subrange.  Its assert fails if and only if all
      subranges are duplicates of the key. */
  method TrimOnce(subs: seq<Sub>, ghost lo: nat, ghost hi: nat, key: nat, total: real, fair: real,
                  ghost partitions: nat, direction: int)
    returns (failed: bool, subs': seq<Sub>)
    requires Tiles(subs, lo, hi) && Total(subs) == total > 0.0 && NonNegative(subs) && |subs| > partitions >= 2
    requires Trimming(subs, key, partitions) || HotCount(subs, key) == |subs|
    ensures failed <==> HotCount(subs, key) == |subs|
    ensures failed ==> subs' == subs
    ensures !failed ==> |subs'| == |subs| - 1 && ReorgStep(subs, subs')
    ensures !failed ==> TrimStep(subs, subs', key, total, fair, partitions)
    ensures !failed && |subs'| > partitions ==> Trimming(subs', key, partitions)
    ensures Tiles(subs', lo, hi) && Total(subs') == total && NonNegative(subs')
  {
    CandidateIff(subs, lo, hi, key, total, partitions);
    hide Tiles, Total, HotCount, HotTotal, NonNegative, Ratio, ReorgStep;
    var found, id := FindLeast(subs, key, total);
    failed, subs' := !found, subs;
    if found {
      assert IsLeast(subs, key, total, id);
      subs' := RemoveOne(subs, lo, hi, key, id, total, fair, partitions, direction);
    }
  }

  ghost predicate TrimRun(trace: seq<seq<Sub>>, key: nat, total: real, fair: real, partitions: nat)
    requires total > 0.0
  {
    && |trace| > 0
    && forall i, j :: 0 <= i && j == i + 1 < |trace| ==> TrimStep(trace[i], trace[j], key, total, fair, partitions)
  }

  /** Passes of the trimming loop lead from one set of subranges to the other. */
  ghost predicate Trimmed(subs: seq<Sub>, subs': seq<Sub>, key: nat, total: real, fair: real, partitions: nat)
    requires total > 0.0
  {
    exists trace :: TrimRun(trace, key, total, fair, partitions) && trace[0] == subs && trace[|trace| - 1] == subs'
  }

  lemma {:induction false} NotTrimmed(subs: seq<Sub>, key: nat, total: real, fair: real, partitions: nat)
    requires total > 0.0
    ensures Trimmed(subs, subs, key, total, fair, partitions)
  {
    var trace := [subs];
    assert TrimRun(trace, key, total, fair, partitions) && trace[0] == subs && trace[|trace| - 1] == subs;
  }

  lemma {:induction false} TrimmedOnce(subs: seq<Sub>, mid: seq<Sub>, subs': seq<Sub>, key: nat, total: real,
                                       fair: real, partitions: nat)
    requires total > 0.0 && Trimmed(subs, mid, key, total, fair, partitions)
    requires TrimStep(mid, subs', key, total, fair, partitions)
    ensures Trimmed(subs, subs', key, total, fair, partitions)
  {
    hide TrimStep;
    var trace :| TrimRun(trace, key, total, fair, partitions) && trace[0] == subs && trace[|trace| - 1] == mid;
    var longer := trace + [subs'];
    forall i, j | 0 <= i && j == i + 1 < |longer|
      ensures TrimStep(longer[i], longer[j], key, total, fair, partitions)
    {
      if j < |trace| {
        assert longer[i] == trace[i] && longer[j] == trace[j];
      }
    }
    assert TrimRun(longer, key, total, fair, partitions) && longer[0] == subs && longer[|longer| - 1] == subs';
  }

  /** Trim to the number of partitions. */
  method Trim(subs: seq<Sub>, ghost lo: nat, ghost hi: nat, key: nat, total: real, fair: real, partitions: nat,
              random: nat -> int)
    returns (failed: bool, subs': seq<Sub>)
    requires Tiles(subs, lo, hi) && Total(subs) == total > 0.0 && NonNegative(subs) && partitions >= 2
    requires |subs| > partitions ==> Trimming(subs, key, partitions) || HotCount(subs, key) == |subs|
    ensures failed <==> |subs| > partitions && HotCount(subs, key) == |subs|
    ensures Tiles(subs', lo, hi) && Total(subs') == total && NonNegative(subs') && Reorganised(subs, subs')
    ensures !failed ==> |subs'| == if |subs| > partitions then partitions else |subs|
    ensures Trimmed(subs, subs', key, total, fair, partitions)
  {
    hide Tiles, Total, HotCount, HotTotal, NonNegative, Reorganised, ReorgStep, Trimmed, TrimStep;
    NoStep(subs);
    NotTrimmed(subs, key, total, fair, partitions);
    failed, subs' := false, subs;
    while |subs'| > partitions
      invariant !failed && Tiles(subs', lo, hi) && Total(subs') == total && NonNegative(subs')
        && Reorganised(subs, subs') && Trimmed(subs, subs', key, total, fair, partitions)
      invariant |subs'| > partitions ==> subs' == subs || Trimming(subs', key, partitions)
      invariant |subs'| < |subs| ==> HotCount(subs, key) < |subs|
      invariant |subs'| == |subs| ==> subs' == subs
      invariant |subs'| == |subs| || partitions <= |subs'| < |subs|
      decreases |subs'|
    {
      ghost var before := subs';
      failed, subs' := TrimOnce(subs', lo, hi, key, total, fair, partitions, random(|subs'|));
      OneMoreStep(subs, before, subs');
      HotAtMost(subs, key);
      if failed {
        return;
      }
      TrimmedOnce(subs, before, subs', key, total, fair, partitions);
    }
  }

  lemma {:induction false} RatioAtMostOne(subs: seq<Sub>, id: nat, total: real)
    requires NonNegative(subs) && Total(subs) == total > 0.0 && id < |subs|
    ensures Ratio(subs[id], total) <= 1.0 && (Ratio(subs[id], total) > 0.0 ==> TinyTotal(subs[id].tiny) > 0.0)
  {
    AtLeastOne(subs, id);
    hide Total, TinyTotal;
    AtMostOne(TinyTotal(subs[id].tiny), total);
  }

  lemma {:induction false} AtMostOne(x: real, total: real)
    requires x <= total && total > 0.0
    ensures x / total <= 1.0 && (x / total > 0.0 ==> x > 0.0)
  {
    var q := x / total;
    assert q * total == x;
    assert q > 1.0 ==> q * total > total;
    assert q > 0.0 ==> q * total > 0.0;
  }

  function FairRatio(partitions: nat): (fair: real)
    requires partitions >= 1
    ensures fair > 0.0
  {
    1.0 / partitions as real
  }

  /** A single partition never has duplicates. */
  lemma {:induction false} FairOfOne(partitions: nat, ratio: real)
    requires partitions >= 1 && ratio <= 1.0 && ratio > 1.5 * FairRatio(partitions)
    ensures partitions >= 2
  {
    assert FairRatio(1) == 1.0;
  }

  /** How many duplicates a hot point should get. */
  function ExtraDuplicates(s: Sub, total: real, partitions: nat): int
    requires total > 0.0 && partitions >= 1
  {
    if IsPoint(s) && Ratio(s, total) > 1.5 * FairRatio(partitions)
    then (Ratio(s, total) / FairRatio(partitions)).Floor - 1 else 0
  }

  lemma {:induction false} CancelLess(a: real, b: real, c: real)
    requires c > 0.0
    ensures a * c < b * c <==> a < b
    ensures a * c <= b * c <==> a <= b
  {
  }

  lemma {:induction false} Quotient(a: real, b: real)
    requires b != 0.0
    ensures (a / b) * b == a
  {
  }

  /** A point gets duplicates exactly from twice a fair share on, although it is looked at from one and
      a half on; and then every one of them has at least a fair share and less than one and a half, so
      none is looked at again. */
  lemma {:induction false} DuplicatesShareFairly(s: Sub, total: real, partitions: nat)
    requires total > 0.0 && partitions >= 1
    ensures var extra, fair := ExtraDuplicates(s, total, partitions), FairRatio(partitions);
      && extra >= 0 && (extra > 0 <==> IsPoint(s) && Ratio(s, total) >= 2.0 * fair)
      && (extra > 0 ==> fair <= Ratio(s, total) / (extra + 1) as real < 1.5 * fair)
  {
    hide FairRatio, Ratio;
    var ratio, fair := Ratio(s, total), FairRatio(partitions);
    Quotient(ratio, fair);
    InShares(ratio, fair, ratio / fair);
    var extra := ExtraDuplicates(s, total, partitions);
    if extra > 0 {
      Quotient(ratio, (extra + 1) as real);
      EvenShares(ratio / (extra + 1) as real, fair, ratio / fair, (extra + 1) as real);
    }
  }

  /** How many fair shares a ratio is. */
  lemma {:induction false} InShares(ratio: real, fair: real, x: real)
    requires fair > 0.0 && x * fair == ratio
    ensures (ratio > 1.5 * fair <==> x > 1.5) && (ratio >= 2.0 * fair <==> x >= 2.0)
  {
    CancelLess(1.5, x, fair);
    CancelLess(2.0, x, fair);
  }

  lemma {:induction false} EvenShares(y: real, fair: real, x: real, n: real)
    requires fair > 0.0 && y * n == x * fair && 2.0 <= n <= x < n + 1.0
    ensures fair <= y < 1.5 * fair
  {
    CancelLess(n, x, fair);
    assert fair * n <= y * n;
    CancelLess(fair, y, n);
    CancelLess(x, 1.5 * n, fair);
    assert (1.5 * fair) * n == (1.5 * n) * fair;
    assert y * n < (1.5 * fair) * n;
    CancelLess(y, 1.5 * fair, n);
  }

  lemma {:induction false} StartsTrimming(subs: seq<Sub>, subs': seq<Sub>, lo: nat, hi: nat, id: nat, extra: nat,
                                          partitions: nat)
    requires Tiles(subs, lo, hi) && id < |subs| && IsPoint(subs[id]) && NonNegative(subs)
      && TinyTotal(subs[id].tiny) > 0.0
    requires Duplicated(subs, subs', id, extra) && |subs| <= partitions && BlockSize(subs[id]) < |subs|
    ensures Trimming(subs', Lower(subs[id]), partitions)
  {
    hide Tiles, HotCount, HotTotal, NonNegative, TinyTotal;
  }

  /** The new duplicates do not fit, and there is nothing else to trim: the subranges were all
      duplicates of the point. */
  predicate CannotTrim(subs: seq<Sub>, id: nat, total: real, partitions: nat)
    requires id < |subs| && total > 0.0 && partitions >= 1
  {
    |subs| + ExtraDuplicates(subs[id], total, partitions) > partitions && BlockSize(subs[id]) == |subs|
  }

  /** The duplicates are inserted, and then subranges of other keys are trimmed. */
  ghost predicate GetsDuplicates(subs: seq<Sub>, subs': seq<Sub>, id: nat, extra: int, total: real, partitions: nat)
    requires id < |subs| && total > 0.0 && partitions >= 1
  {
    && extra > 0 && subs[id].tiny != []
    && exists mid :: InsertsAt(subs, mid, id, extra)
         && Trimmed(mid, subs', Lower(subs[id]), total, FairRatio(partitions), partitions)
  }

  /** Give a hot point duplicates and trim.  The assert of the trimming loop fails if and only if
      `CannotTrim` holds beforehand. */
  method CreateDuplicates(subs: seq<Sub>, ghost lo: nat, ghost hi: nat, id: nat, total: real, partitions: nat,
                          random: nat -> int)
    returns (done: bool, failed: bool, subs': seq<Sub>)
    requires Tiles(subs, lo, hi) && id < |subs| <= partitions && NonNegative(subs) && Total(subs) == total > 0.0
    ensures failed <==> CannotTrim(subs, id, total, partitions)
    ensures done <==> ExtraDuplicates(subs[id], total, partitions) != 0 && !failed
    ensures !done && !failed ==> subs' == subs
    ensures Tiles(subs', lo, hi) && Total(subs') == total && NonNegative(subs') && Reorganised(subs, subs')
    ensures done ==>
      var n := |subs| + ExtraDuplicates(subs[id], total, partitions);
      |subs'| == if n > partitions then partitions else n
    ensures done ==> GetsDuplicates(subs, subs', id, ExtraDuplicates(subs[id], total, partitions), total, partitions)
  {
    hide Tiles, Total, TinyTotal, NonNegative, Trimming, Ratio, FairRatio, HotCount, HotTotal, Reorganised, InsertsAt,
      Trimmed;
    NoStep(subs);
    var fair := FairRatio(partitions);
    if !IsPoint(subs[id]) {
      return false, false, subs;
    }
    if Ratio(subs[id], total) <= 1.5 * fair {
      return false, false, subs;
    }
    var extra := (Ratio(subs[id], total) / fair).Floor - 1;
    if extra == 0 {
      return false, false, subs;
    }
    RatioAtMostOne(subs, id, total);
    FairOfOne(partitions, Ratio(subs[id], total));
    AtLeastTwo(Ratio(subs[id], total), fair);
    GroupFits(subs, lo, hi, id);
    subs' := InsertDuplicates(subs, lo, hi, id, extra);
    hide InsertStep, PushStep, DestroyStep;
    OneMoreStep(subs, subs, subs');
    ghost var mid := subs';
    if |subs| + extra > partitions && BlockSize(subs[id]) < |subs| {
      StartsTrimming(subs, subs', lo, hi, id, extra, partitions);
    }
    TrimmingIsNot(mid, Lower(subs[id]), partitions);
    failed, subs' := Trim(subs', lo, hi, Lower(subs[id]), total, fair, partitions, random);
    Composed(subs, mid, subs');
    done := !failed;
  }

  lemma {:induction false} TrimmingIsNot(subs: seq<Sub>, key: nat, partitions: nat)
    ensures Trimming(subs, key, partitions) ==> HotCount(subs, key) < |subs|
  {
  }

  lemma {:induction false} GroupFits(subs: seq<Sub>, lo: nat, hi: nat, id: nat)
    requires Tiles(subs, lo, hi) && id < |subs|
    ensures BlockSize(subs[id]) <= |subs|
  {
    var p := FindBlock(subs, lo, hi, id);
    BlockMember(subs[p.first..p.next], p.lo, p.hi, id - p.first);
    assert subs[p.first..p.next][id - p.first] == subs[id];
  }

  lemma {:induction false} Composed(a: seq<Sub>, b: seq<Sub>, c: seq<Sub>)
    requires Reorganised(a, b) && Reorganised(b, c)
    ensures Reorganised(a, c)
  {
    hide ReorgStep;
    var s :| ReorgRun(s) && s[0] == a && s[|s| - 1] == b;
    var t :| ReorgRun(t) && t[0] == b && t[|t| - 1] == c;
    var all := s + t[1..];
    forall i, j | 0 <= i && j == i + 1 < |all|
      ensures ReorgStep(all[i], all[j])
    {
      if j < |s| {
        assert all[i] == s[i] && all[j] == s[j];
      } else {
        assert all[j] == t[j - |s| + 1] && all[i] == t[i - |s| + 1];
      }
    }
    assert ReorgRun(all) && all[0] == a && all[|all| - 1] == c;
  }

  /** Two partitions, both for one key, one of them with all the inserts: a third duplicate is due,
      does not fit, and nothing can be trimmed. */
  lemma {:induction false} HotKeyEverywhere()
    ensures var subs := [Sub([Tiny(7, 8, 10.0)], 2), Sub([Tiny(7, 8, 0.0)], 2)];
      && Tiles(subs, 7, 8) && NonNegative(subs) && Total(subs) == 10.0
      && ExtraDuplicates(subs[0], 10.0, 2) == 1 && CannotTrim(subs, 0, 10.0, 2)
  {
    var a, b := Sub([Tiny(7, 8, 10.0)], 2), Sub([Tiny(7, 8, 0.0)], 2);
    var subs := [a, b];
    assert IsDuplicate(a, 7, 2) && IsDuplicate(b, 7, 2);
    assert Block(subs, 7, 8);
    BlockTiles(subs, 7, 8);
    TinyTotalOne(a.tiny[0]);
    TinyTotalOne(b.tiny[0]);
    TotalOne(a);
    TotalOne(b);
    TotalConcat([a], [b]);
    assert [a] + [b] == subs;
    hide Total, TinyTotal, Tiles;
    assert Ratio(a, 10.0) == 1.0 && FairRatio(2) == 0.5;
    assert (1.0 / 0.5).Floor == 2;
  }

  /** Destroy a duplicate that is forced out or gets less than half of a fair share. */
  method DestroyDuplicates(subs: seq<Sub>, ghost lo: nat, ghost hi: nat, id: nat, total: real, partitions: nat,
                           force: bool)
    returns (done: bool, subs': seq<Sub>)
    requires Tiles(subs, lo, hi) && id < |subs| && total > 0.0 && partitions >= 1
    ensures done <==> subs[id].dups != 0 && (force || Ratio(subs[id], total) / FairRatio(partitions) < 0.5)
    ensures !done ==> subs' == subs
    ensures Tiles(subs', lo, hi) && Total(subs') == Total(subs) && (NonNegative(subs) ==> NonNegative(subs'))
    ensures Reorganised(subs, subs')
    ensures done ==> |subs'| == |subs| - 1 && DestroysAt(subs, subs', id) && forall key :: OneLess(subs, subs', id, key)
  {
    hide Tiles, Total, OneLess, FairRatio, Ratio, NonNegative, Reorganised, PushStep, DestroyStep, DestroysAt,
      InsertStep;
    NoStep(subs);
    if subs[id].dups == 0 {
      return false, subs;
    }
    if !force && Ratio(subs[id], total) / FairRatio(partitions) >= 0.5 {
      return false, subs;
    }
    subs' := DestroyDuplicate(subs, lo, hi, id);
    OneMoreStep(subs, subs, subs');
    done := true;
  }

  lemma {:induction false} AtLeastTwo(ratio: real, fair: real)
    requires fair > 0.0 && ratio > 1.5 * fair
    ensures (ratio / fair).Floor >= 1
  {
    var q := ratio / fair;
    assert q * fair == ratio;
    assert q < 1.0 ==> q * fair < fair;
  }

  /** If all subranges are duplicates of one key the trimming finds no candidate. */
  lemma {:induction false} NoCandidateAmongDuplicates(subs: seq<Sub>, lo: nat, hi: nat, key: nat)
    requires Tiles(subs, lo, hi) && HotCount(subs, key) == |subs| > 0
    ensures forall i :: 0 <= i < |subs| ==> Skipped(subs[i], key)
  {
    hide Tiles, HotCount;
    forall i | 0 <= i < |subs|
      ensures Skipped(subs[i], key)
    {
      SkippedIsHot(subs, lo, hi, key, i);
      if !IsHot(subs[i], key) {
        OneOther(subs, key, i);
      }
    }
  }
}
