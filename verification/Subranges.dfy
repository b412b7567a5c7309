/** The dynamic subranges: a tiling of the key space by subranges, each cut into tiny ranges.  A
    hot key gets several identical subranges, its duplicates. */
module Subranges {

  /** Half-open, with the number of inserts it has seen. */
  datatype Tiny = Tiny(lower: nat, upper: nat, ninserts: real)

  /** `dups` is 0, or the number of identical subranges of a hot key. */
  datatype Sub = Sub(tiny: seq<Tiny>, dups: nat)

  function Lower(s: Sub): nat
    requires s.tiny != []
  {
    s.tiny[0].lower
  }

  function Upper(s: Sub): nat
    requires s.tiny != []
  {
    s.tiny[|s.tiny| - 1].upper
  }

  // ---------- tilings ----------

  /** Non-empty ranges, one after the other, from lo to hi. */
  ghost predicate Contiguous(tiny: seq<Tiny>, lo: nat, hi: nat) {
    if tiny == [] then lo == hi
    else tiny[0].lower == lo && lo < tiny[0].upper && Contiguous(tiny[1..], tiny[0].upper, hi)
  }

  lemma {:induction false} ContiguousBounds(tiny: seq<Tiny>, lo: nat, hi: nat)
    requires Contiguous(tiny, lo, hi)
    ensures lo <= hi && (tiny != [] ==> tiny[0].lower == lo < hi == tiny[|tiny| - 1].upper)
  {
    if tiny != [] {
      ContiguousBounds(tiny[1..], tiny[0].upper, hi);
    }
  }

  lemma {:induction false} ContiguousConcat(a: seq<Tiny>, b: seq<Tiny>, lo: nat, mid: nat, hi: nat)
    requires Contiguous(a, lo, mid) && Contiguous(b, mid, hi)
    ensures Contiguous(a + b, lo, hi)
  {
    if a == [] {
      assert a + b == b;
    } else {
      ContiguousConcat(a[1..], b, a[0].upper, mid, hi);
      assert (a + b)[1..] == a[1..] + b;
    }
  }

  ghost function CutAt(tiny: seq<Tiny>, k: nat, hi: nat): nat
    requires k <= |tiny|
  {
    if k == |tiny| then hi else tiny[k].lower
  }

  lemma {:induction false} ContiguousSplit(tiny: seq<Tiny>, lo: nat, hi: nat, k: nat)
    requires Contiguous(tiny, lo, hi) && k <= |tiny|
    ensures Contiguous(tiny[..k], lo, CutAt(tiny, k, hi)) && Contiguous(tiny[k..], CutAt(tiny, k, hi), hi)
  {
    if k > 0 {
      ContiguousSplit(tiny[1..], tiny[0].upper, hi, k - 1);
      assert tiny[..k][1..] == tiny[1..][..k - 1] && tiny[1..][k - 1..] == tiny[k..];
    } else {
      assert tiny[..0] == [] && tiny[0..] == tiny;
    }
  }

  /** One subrange, or all duplicates of one key. */
  ghost predicate Block(g: seq<Sub>, lo: nat, hi: nat) {
    && g != []
    && if g[0].dups == 0 then |g| == 1 && g[0].tiny != [] && Contiguous(g[0].tiny, lo, hi)
       else |g| == g[0].dups >= 2 && hi == lo + 1 && forall i :: 0 <= i < |g| ==> IsDuplicate(g[i], lo, g[0].dups)
  }

  ghost predicate IsDuplicate(s: Sub, key: nat, dups: nat) {
    s.dups == dups && |s.tiny| == 1 && s.tiny[0].lower == key && s.tiny[0].upper == key + 1
  }

  function BlockSize(s: Sub): nat {
    if s.dups == 0 then 1 else s.dups
  }

  ghost predicate Tiles(subs: seq<Sub>, lo: nat, hi: nat)
    decreases |subs|
  {
    if subs == [] then lo == hi
    else
      && subs[0].tiny != [] && BlockSize(subs[0]) <= |subs|
      && Block(subs[..BlockSize(subs[0])], lo, Upper(subs[0]))
      && Tiles(subs[BlockSize(subs[0])..], Upper(subs[0]), hi)
  }

  lemma {:induction false} BlockHead(g: seq<Sub>, lo: nat, hi: nat)
    requires Block(g, lo, hi)
    ensures g != [] && g[0].tiny != [] && |g| == BlockSize(g[0]) && lo < hi
    ensures Lower(g[0]) == lo && Upper(g[0]) == hi
  {
    if g[0].dups == 0 {
      ContiguousBounds(g[0].tiny, lo, hi);
    } else {
      assert IsDuplicate(g[0], lo, g[0].dups);
    }
  }

  lemma {:induction false} TilesCons(g: seq<Sub>, rest: seq<Sub>, lo: nat, mid: nat, hi: nat)
    requires Block(g, lo, mid) && Tiles(rest, mid, hi)
    ensures Tiles(g + rest, lo, hi)
  {
    BlockHead(g, lo, mid);
    var s := g + rest;
    assert s[0] == g[0] && s[..|g|] == g && s[|g|..] == rest;
    hide Block;
  }

  lemma {:induction false} Regroup(a: seq<Sub>, n: nat, b: seq<Sub>)
    requires n <= |a|
    ensures a[..n] + (a[n..] + b) == a + b
  {
  }

  lemma {:induction false} TilesConcat(a: seq<Sub>, b: seq<Sub>, lo: nat, mid: nat, hi: nat)
    requires Tiles(a, lo, mid) && Tiles(b, mid, hi)
    ensures Tiles(a + b, lo, hi)
    decreases |a|
  {
    if a == [] {
      assert a + b == b;
    } else {
      var n := BlockSize(a[0]);
      hide Block;
      TilesConcat(a[n..], b, Upper(a[0]), mid, hi);
      TilesCons(a[..n], a[n..] + b, lo, Upper(a[0]), hi);
      hide Tiles;
      Regroup(a, n, b);
    }
  }

  /** Where the block of subrange i begins and ends, and the keys it covers. */
  datatype Place = Place(first: nat, next: nat, lo: nat, hi: nat)

  ghost predicate InBlock(subs: seq<Sub>, lo: nat, hi: nat, i: nat, p: Place) {
    && p.first <= i < p.next <= |subs|
    && Tiles(subs[..p.first], lo, p.lo) && Block(subs[p.first..p.next], p.lo, p.hi) && Tiles(subs[p.next..], p.hi, hi)
  }

  lemma {:induction false} FindBlock(subs: seq<Sub>, lo: nat, hi: nat, i: nat) returns (p: Place)
    requires Tiles(subs, lo, hi) && i < |subs|
    ensures InBlock(subs, lo, hi, i, p)
    decreases |subs|
  {
    hide Block;
    var n, mid := BlockSize(subs[0]), Upper(subs[0]);
    if i < n {
      p := Place(0, n, lo, mid);
      assert subs[..0] == [] && subs[0..n] == subs[..n];
    } else {
      var q := FindBlock(subs[n..], mid, hi, i - n);
      p := Place(q.first + n, q.next + n, q.lo, q.hi);
      FoundLater(subs, lo, hi, n, mid, q);
    }
  }

  lemma {:induction false} FoundLater(subs: seq<Sub>, lo: nat, hi: nat, n: nat, mid: nat, q: Place)
    requires n <= |subs| && Block(subs[..n], lo, mid) && q.first <= q.next <= |subs| - n
    requires Tiles(subs[n..][..q.first], mid, q.lo)
    ensures Tiles(subs[..q.first + n], lo, q.lo)
    ensures subs[q.first + n..q.next + n] == subs[n..][q.first..q.next] && subs[q.next + n..] == subs[n..][q.next..]
  {
    hide Block, Tiles;
    var rest := subs[n..];
    assert subs[q.first + n..q.next + n] == rest[q.first..q.next];
    assert subs[q.next + n..] == rest[q.next..];
    assert subs[..n] + rest[..q.first] == subs[..q.first + n];
    TilesCons(subs[..n], subs[n..][..q.first], lo, mid, q.lo);
  }

  /** Replacing a block by any tiling of the same keys keeps the tiling. */
  lemma {:induction false} ReplaceBlock(subs: seq<Sub>, lo: nat, hi: nat, i: nat, p: Place, g: seq<Sub>)
    requires InBlock(subs, lo, hi, i, p) && Tiles(g, p.lo, p.hi)
    ensures Tiles(subs[..p.first] + g + subs[p.next..], lo, hi)
  {
    hide Tiles, Block;
    TilesConcat(subs[..p.first], g, lo, p.lo, p.hi);
    TilesConcat(subs[..p.first] + g, subs[p.next..], lo, p.hi, hi);
  }

  lemma {:induction false} BlockTiles(g: seq<Sub>, lo: nat, hi: nat)
    requires Block(g, lo, hi)
    ensures Tiles(g, lo, hi)
  {
    TilesCons(g, [], lo, hi, hi);
    assert g + [] == g;
  }

  lemma {:induction false} BlockMember(g: seq<Sub>, lo: nat, hi: nat, i: nat)
    requires Block(g, lo, hi) && i < |g|
    ensures g[i].tiny != [] && Lower(g[i]) == lo < hi == Upper(g[i]) && BlockSize(g[i]) == |g|
  {
    if g[0].dups == 0 {
      ContiguousBounds(g[0].tiny, lo, hi);
    } else {
      assert IsDuplicate(g[i], lo, g[0].dups);
    }
  }

  lemma {:induction false} TilesBounds(subs: seq<Sub>, lo: nat, hi: nat)
    requires Tiles(subs, lo, hi)
    ensures lo <= hi && (subs == [] <==> lo == hi)
    ensures forall i :: 0 <= i < |subs| ==> subs[i].tiny != [] && lo <= Lower(subs[i]) < Upper(subs[i]) <= hi
    decreases |subs|
  {
    if subs != [] {
      var n, mid := BlockSize(subs[0]), Upper(subs[0]);
      TilesBounds(subs[n..], mid, hi);
      BlockMember(subs[..n], lo, mid, 0);
      forall i | 0 <= i < |subs|
        ensures subs[i].tiny != [] && lo <= Lower(subs[i]) < Upper(subs[i]) <= hi
      {
        if i < n {
          BlockMember(subs[..n], lo, mid, i);
        } else {
          assert subs[i] == subs[n..][i - n];
        }
      }
    }
  }

  predicate Contains(s: Sub, key: nat)
    requires s.tiny != []
  {
    Lower(s) <= key < Upper(s)
  }

  /** Every key of the tiling is in some subrange. */
  lemma {:induction false} TilesCover(subs: seq<Sub>, lo: nat, hi: nat, key: nat) returns (i: nat)
    requires Tiles(subs, lo, hi) && lo <= key < hi
    ensures i < |subs| && subs[i].tiny != [] && Contains(subs[i], key)
    decreases |subs|
  {
    var n, mid := BlockSize(subs[0]), Upper(subs[0]);
    BlockHead(subs[..n], lo, mid);
    if key < mid {
      i := 0;
    } else {
      i := TilesCover(subs[n..], mid, hi, key);
      i := i + n;
    }
  }

  /** Earlier subranges end before later ones begin, duplicates apart. */
  lemma {:induction false} TilesOrdered(subs: seq<Sub>, lo: nat, hi: nat, i: nat, j: nat)
    requires Tiles(subs, lo, hi) && i < j < |subs|
    ensures subs[i].tiny != [] && subs[j].tiny != []
    ensures Lower(subs[i]) <= Lower(subs[j]) && Upper(subs[i]) <= Upper(subs[j])
    ensures Upper(subs[i]) <= Lower(subs[j]) || (Lower(subs[i]) == Lower(subs[j]) && subs[i].dups == subs[j].dups > 0)
  {
    hide Tiles;
    var p := FindBlock(subs, lo, hi, i);
    var g := subs[p.first..p.next];
    BlockMember(g, p.lo, p.hi, i - p.first);
    if j < p.next {
      BlockMember(g, p.lo, p.hi, j - p.first);
      hide Tiles;
    } else {
      TilesBounds(subs[p.next..], p.hi, hi);
      assert subs[j] == subs[p.next..][j - p.next];
    }
  }

  // ---------- total inserts ----------

  function TinyTotal(tiny: seq<Tiny>): real {
    if tiny == [] then 0.0 else TinyTotal(tiny[..|tiny| - 1]) + tiny[|tiny| - 1].ninserts
  }

  function Total(subs: seq<Sub>): real {
    if subs == [] then 0.0 else Total(subs[..|subs| - 1]) + TinyTotal(subs[|subs| - 1].tiny)
  }

  lemma {:induction false} TinyTotalConcat(a: seq<Tiny>, b: seq<Tiny>)
    ensures TinyTotal(a + b) == TinyTotal(a) + TinyTotal(b)
  {
    if b == [] {
      assert a + b == a;
    } else {
      assert (a + b)[..|a + b| - 1] == a + b[..|b| - 1];
      TinyTotalConcat(a, b[..|b| - 1]);
    }
  }

  lemma {:induction false} TotalConcat(a: seq<Sub>, b: seq<Sub>)
    ensures Total(a + b) == Total(a) + Total(b)
  {
    if b == [] {
      assert a + b == a;
    } else {
      assert (a + b)[..|a + b| - 1] == a + b[..|b| - 1];
      TotalConcat(a, b[..|b| - 1]);
    }
  }

  lemma {:induction false} TotalOne(s: Sub)
    ensures Total([s]) == TinyTotal(s.tiny)
  {
    assert [s][..0] == [];
  }

  lemma {:induction false} TinyTotalOne(t: Tiny)
    ensures TinyTotal([t]) == t.ninserts
  {
    assert [t][..0] == [];
  }

  lemma {:induction false} TotalUpdate(subs: seq<Sub>, i: nat, s: Sub)
    requires i < |subs|
    ensures Total(subs[i := s]) == Total(subs) - TinyTotal(subs[i].tiny) + TinyTotal(s.tiny)
  {
    var a, b := subs[..i], subs[i + 1..];
    assert subs == a + [subs[i]] + b && subs[i := s] == a + [s] + b;
    TotalConcat(a + [subs[i]], b);
    TotalConcat(a, [subs[i]]);
    TotalConcat(a + [s], b);
    TotalConcat(a, [s]);
    TotalOne(subs[i]);
    TotalOne(s);
    hide Total, TinyTotal;
  }

  // ---------- finding a subrange ----------

  ghost predicate SortedSubs(subs: seq<Sub>) {
    && (forall i :: 0 <= i < |subs| ==> subs[i].tiny != [])
    && (forall i, j :: 0 <= i < j < |subs| ==> Lower(subs[i]) <= Lower(subs[j]) && Upper(subs[i]) <= Upper(subs[j]))
  }

  lemma {:induction false} TilesSorted(subs: seq<Sub>, lo: nat, hi: nat)
    requires Tiles(subs, lo, hi)
    ensures SortedSubs(subs)
  {
    TilesBounds(subs, lo, hi);
    hide Tiles, Lower, Upper;
    forall i, j | 0 <= i < j < |subs|
      ensures Lower(subs[i]) <= Lower(subs[j]) && Upper(subs[i]) <= Upper(subs[j])
    {
      TilesOrdered(subs, lo, hi, i, j);
    }
  }

  method SearchSorted(subs: seq<Sub>, key: nat) returns (found: bool, id: nat)
    requires SortedSubs(subs)
    ensures found ==> id < |subs| && Contains(subs[id], key)
    ensures !found ==> forall i :: 0 <= i < |subs| ==> !Contains(subs[i], key)
  {
    hide Lower, Upper;
    var l, r := 0, |subs| - 1;
    while l <= r
      invariant 0 <= l <= r + 1 <= |subs|
      invariant forall i :: 0 <= i < l ==> Upper(subs[i]) <= key
      invariant forall i :: r < i < |subs| ==> key < Lower(subs[i])
    {
      var m := l + (r - l) / 2;
      if key < Lower(subs[m]) {
        r := m - 1;
      } else if Upper(subs[m]) <= key {
        l := m + 1;
      } else {
        return true, m;
      }
    }
    return false, 0;
  }

  /** The key is found at an index, or lies in no subrange. */
  method BinarySearch(subs: seq<Sub>, ghost lo: nat, ghost hi: nat, key: nat) returns (found: bool, id: nat)
    requires Tiles(subs, lo, hi)
    ensures found <==> lo <= key < hi
    ensures found ==> id < |subs| && subs[id].tiny != [] && Contains(subs[id], key)
  {
    TilesSorted(subs, lo, hi);
    TilesBounds(subs, lo, hi);
    hide Tiles, Lower, Upper;
    if lo <= key < hi {
      ghost var w := TilesCover(subs, lo, hi, key);
    }
    found, id := SearchSorted(subs, key);
  }

  predicate SameBounds(a: Sub, b: Sub)
    requires a.tiny != [] && b.tiny != []
  {
    && a.dups == b.dups && |a.tiny| == |b.tiny|
    && forall i :: 0 <= i < |a.tiny| ==> a.tiny[i].lower == b.tiny[i].lower && a.tiny[i].upper == b.tiny[i].upper
  }

  /** Walk left over the duplicates of subrange id. */
  method FirstDuplicate(subs: seq<Sub>, ghost lo: nat, ghost hi: nat, id: nat, ghost p: Place) returns (first: nat)
    requires InBlock(subs, lo, hi, id, p) && subs[id].dups > 0
    ensures first == p.first
  {
    hide Tiles, Block, SameBounds;
    BlockBoundary(subs, lo, hi, id, p, id);
    var i := id - 1;
    if i >= 0 {
      BlockBoundary(subs, lo, hi, id, p, i);
    }
    while i >= 0 && SameBounds(subs[i], subs[id])
      invariant p.first - 1 <= i < id
      invariant i >= 0 ==> subs[i].tiny != [] && (SameBounds(subs[i], subs[id]) <==> p.first <= i)
    {
      i := i - 1;
      if i >= 0 {
        BlockBoundary(subs, lo, hi, id, p, i);
      }
    }
    first := i + 1;
  }

  /** A duplicate was drawn from its group by the random number. */
  ghost predicate Drawn(subs: seq<Sub>, lo: nat, hi: nat, id: nat, random: nat)
    requires id < |subs|
  {
    subs[id].dups > 0 ==>
      exists p :: InBlock(subs, lo, hi, id, p) && id == p.first + random % subs[id].dups
  }

  /** For a hot key, one of its duplicates is drawn. */
  method SearchWithDuplicates(subs: seq<Sub>, ghost lo: nat, ghost hi: nat, key: nat, random: nat)
    returns (found: bool, id: nat)
    requires Tiles(subs, lo, hi)
    ensures found <==> lo <= key < hi
    ensures found ==> id < |subs| && subs[id].tiny != [] && Contains(subs[id], key)
    ensures found ==> Drawn(subs, lo, hi, id, random)
  {
    hide Tiles, Block;
    found, id := BinarySearch(subs, lo, hi, key);
    if !found || subs[id].dups == 0 {
      return;
    }
    ghost var p := FindBlock(subs, lo, hi, id);
    var first := FirstDuplicate(subs, lo, hi, id, p);
    BlockBoundary(subs, lo, hi, id, p, id);
    SameInBlock(subs, lo, hi, id, p, first + random % subs[id].dups, key);
    id := first + random % subs[id].dups;
    assert InBlock(subs, lo, hi, id, p);
  }

  lemma {:induction false} SameInBlock(subs: seq<Sub>, lo: nat, hi: nat, id: nat, p: Place, j: nat, key: nat)
    requires InBlock(subs, lo, hi, id, p) && subs[id].tiny != [] && Contains(subs[id], key) && p.first <= j < p.next
    ensures subs[j].tiny != [] && Contains(subs[j], key) && BlockSize(subs[j]) == BlockSize(subs[id])
  {
    var g := subs[p.first..p.next];
    BlockMember(g, p.lo, p.hi, id - p.first);
    BlockMember(g, p.lo, p.hi, j - p.first);
  }

  /** Walking left from a duplicate, the bounds change exactly at the start of its block. */
  lemma {:induction false} BlockBoundary(subs: seq<Sub>, lo: nat, hi: nat, id: nat, p: Place, i: nat)
    requires InBlock(subs, lo, hi, id, p) && p.first - 1 <= i <= id && subs[id].dups > 0
    ensures subs[i].tiny != [] && subs[id].tiny != [] && (SameBounds(subs[i], subs[id]) <==> p.first <= i)
    ensures p.next == p.first + subs[id].dups
  {
    var g := subs[p.first..p.next];
    BlockMember(g, p.lo, p.hi, id - p.first);
    assert g[id - p.first] == subs[id];
    if p.first <= i {
      assert g[i - p.first] == subs[i];
      assert IsDuplicate(g[id - p.first], p.lo, g[0].dups) && IsDuplicate(g[i - p.first], p.lo, g[0].dups);
    } else {
      TilesBounds(subs[..p.first], lo, p.lo);
      assert subs[i] == subs[..p.first][i];
    }
  }

  // ---------- growing the tiling ----------

  lemma {:induction false} SinglePlace(subs: seq<Sub>, lo: nat, hi: nat, i: nat) returns (a: nat, b: nat)
    requires Tiles(subs, lo, hi) && i < |subs| && subs[i].dups == 0
    ensures subs[i].tiny != [] && Contiguous(subs[i].tiny, a, b) && Lower(subs[i]) == a < b == Upper(subs[i])
    ensures Tiles(subs[..i], lo, a) && Tiles(subs[i + 1..], b, hi)
  {
    hide Tiles;
    var p := FindBlock(subs, lo, hi, i);
    a, b := p.lo, p.hi;
    var g := subs[p.first..p.next];
    BlockMember(g, a, b, i - p.first);
    assert |g| == 1 && p.first == i && p.next == i + 1;
    hide Tiles;
  }

  lemma {:induction false} SubTiles(tiny: seq<Tiny>, lo: nat, hi: nat)
    requires tiny != [] && Contiguous(tiny, lo, hi)
    ensures Tiles([Sub(tiny, 0)], lo, hi)
  {
    BlockTiles([Sub(tiny, 0)], lo, hi);
  }

  /** Put new subranges in the place of subrange i. */
  lemma {:induction false} ReplaceSub(subs: seq<Sub>, lo: nat, hi: nat, i: nat, a: nat, b: nat, g: seq<Sub>)
    requires i < |subs| && Tiles(subs[..i], lo, a) && Tiles(g, a, b) && Tiles(subs[i + 1..], b, hi)
    ensures Tiles(subs[..i] + g + subs[i + 1..], lo, hi)
  {
    hide Tiles;
    TilesConcat(subs[..i], g, lo, a, b);
    TilesConcat(subs[..i] + g, subs[i + 1..], lo, b, hi);
  }

  lemma {:induction false} ReplaceTotal(subs: seq<Sub>, i: nat, g: seq<Sub>)
    requires i < |subs| && Total(g) == TinyTotal(subs[i].tiny)
    ensures Total(subs[..i] + g + subs[i + 1..]) == Total(subs)
  {
    var a, b := subs[..i], subs[i + 1..];
    TotalOne(subs[i]);
    TotalConcat(a, g);
    TotalConcat(a + g, b);
    TotalConcat(a, [subs[i]]);
    TotalConcat(a + [subs[i]], b);
    hide Total;
    assert subs == a + [subs[i]] + b;
  }

  /** Split the only tiny range of a subrange at the key. */
  method SplitTiny(t: Tiny, key: nat) returns (left: Tiny, right: Tiny)
    requires t.lower < key < t.upper
    ensures left == Tiny(t.lower, key, t.ninserts / 2.0) && right == Tiny(key, t.upper, t.ninserts / 2.0)
    ensures Contiguous([left], t.lower, key) && Contiguous([right], key, t.upper)
    ensures left.ninserts + right.ninserts == t.ninserts
  {
    left := t.(upper := key, ninserts := t.ninserts / 2.0);
    right := Tiny(key, t.upper, left.ninserts);
    assert [left][1..] == [] && [right][1..] == [];
  }

  /** Its only tiny range is cut at the key, half of its inserts on each side; of several, the first
      half stays on the left. */
  predicate IsSplit(s: Sub, key: nat, left: Sub, right: Sub) {
    && s.tiny != [] && left.dups == 0 && right.dups == 0
    && if |s.tiny| == 1 then
         && left.tiny == [Tiny(s.tiny[0].lower, key, s.tiny[0].ninserts / 2.0)]
         && right.tiny == [Tiny(key, s.tiny[0].upper, s.tiny[0].ninserts / 2.0)]
       else left.tiny == s.tiny[..|s.tiny| / 2] && right.tiny == s.tiny[|s.tiny| / 2..]
  }

  /** Subrange i is split at the key and the others stay. */
  ghost predicate SplitsAt(subs: seq<Sub>, i: nat, key: nat, subs': seq<Sub>) {
    && i < |subs| && |subs'| == |subs| + 1 && IsSplit(subs[i], key, subs'[i], subs'[i + 1])
    && subs'[..i] == subs[..i] && subs'[i + 2..] == subs[i + 1..]
  }

  /** The tiny ranges of the two halves of a subrange that holds the key, and the half it is in. */
  method Halve(tiny: seq<Tiny>, ghost a: nat, ghost b: nat, key: nat)
    returns (left: seq<Tiny>, right: seq<Tiny>, inRight: bool, ghost cut: nat)
    requires tiny != [] && Contiguous(tiny, a, b) && a < key < b
    ensures left != [] && right != [] && Contiguous(left, a, cut) && Contiguous(right, cut, b)
    ensures inRight <==> cut <= key
    ensures TinyTotal(left) + TinyTotal(right) == TinyTotal(tiny)
    ensures IsSplit(Sub(tiny, 0), key, Sub(left, 0), Sub(right, 0))
  {
    ContiguousBounds(tiny, a, b);
    if |tiny| == 1 {
      var l, r := SplitTiny(tiny[0], key);
      left, right, inRight, cut := [l], [r], true, key;
      TinyTotalOne(l);
      TinyTotalOne(r);
      TinyTotalOne(tiny[0]);
      assert tiny == [tiny[0]];
    } else {
      var moves := |tiny| / 2;
      left, right, cut := tiny[..moves], tiny[moves..], CutAt(tiny, moves, b);
      ContiguousSplit(tiny, a, b, moves);
      ContiguousBounds(left, a, cut);
      inRight := key >= left[|left| - 1].upper;
      TinyTotalConcat(left, right);
      assert left + right == tiny;
    }
  }

  method SplitSub(subs: seq<Sub>, ghost lo: nat, ghost hi: nat, id: nat, key: nat) returns (subs': seq<Sub>, id': nat)
    requires Tiles(subs, lo, hi) && id < |subs| && subs[id].tiny != [] && Contains(subs[id], key)
      && key != Lower(subs[id])
    ensures Tiles(subs', lo, hi) && |subs'| == |subs| + 1 && Total(subs') == Total(subs)
    ensures id' < |subs'| && subs'[id'].tiny != [] && Contains(subs'[id'], key)
    ensures SplitsAt(subs, id, key, subs') && id <= id' <= id + 1
  {
    hide Tiles, Contiguous, Total, TinyTotal, IsSplit, SplitsAt;
    InteriorIsSingle(subs, lo, hi, id, key);
    ghost var a, b := SinglePlace(subs, lo, hi, id);
    var left, right, inRight, cut := Halve(subs[id].tiny, a, b, key);
    subs' := subs[..id] + [Sub(left, 0), Sub(right, 0)] + subs[id + 1..];
    id' := if inRight then id + 1 else id;
    ContiguousBounds(left, a, cut);
    ContiguousBounds(right, cut, b);
    SplitPlaced(subs, id, key, left, right);
    SplitKeeps(subs, lo, hi, id, a, b, left, right, cut);
  }

  lemma {:induction false} SplitPlaced(subs: seq<Sub>, i: nat, key: nat, left: seq<Tiny>, right: seq<Tiny>)
    requires i < |subs| && IsSplit(Sub(subs[i].tiny, 0), key, Sub(left, 0), Sub(right, 0))
    ensures var subs' := subs[..i] + [Sub(left, 0), Sub(right, 0)] + subs[i + 1..];
      SplitsAt(subs, i, key, subs') && subs'[i] == Sub(left, 0) && subs'[i + 1] == Sub(right, 0)
  {
    var subs' := subs[..i] + [Sub(left, 0), Sub(right, 0)] + subs[i + 1..];
    assert subs'[..i] == subs[..i] && subs'[i + 2..] == subs[i + 1..];
  }

  lemma {:induction false} SplitKeeps(subs: seq<Sub>, lo: nat, hi: nat, i: nat, a: nat, b: nat, left: seq<Tiny>,
                                      right: seq<Tiny>, cut: nat)
    requires i < |subs| && Tiles(subs[..i], lo, a) && Tiles(subs[i + 1..], b, hi)
    requires left != [] && right != [] && Contiguous(left, a, cut) && Contiguous(right, cut, b)
    requires TinyTotal(left) + TinyTotal(right) == TinyTotal(subs[i].tiny)
    ensures var subs' := subs[..i] + [Sub(left, 0), Sub(right, 0)] + subs[i + 1..];
      Tiles(subs', lo, hi) && Total(subs') == Total(subs)
  {
    hide Tiles, Contiguous, Total, TinyTotal;
    var g := [Sub(left, 0), Sub(right, 0)];
    SubTiles(left, a, cut);
    SubTiles(right, cut, b);
    TilesConcat([Sub(left, 0)], [Sub(right, 0)], a, cut, b);
    assert [Sub(left, 0)] + [Sub(right, 0)] == g;
    ReplaceSub(subs, lo, hi, i, a, b, g);
    TotalOne(Sub(left, 0));
    TotalOne(Sub(right, 0));
    TotalConcat([Sub(left, 0)], [Sub(right, 0)]);
    ReplaceTotal(subs, i, g);
  }

  lemma {:induction false} InteriorIsSingle(subs: seq<Sub>, lo: nat, hi: nat, id: nat, key: nat)
    requires Tiles(subs, lo, hi) && id < |subs| && subs[id].tiny != [] && Contains(subs[id], key)
      && key != Lower(subs[id])
    ensures subs[id].dups == 0
  {
    if subs[id].dups > 0 {
      DuplicateIsPoint(subs, lo, hi, id);
    }
  }

  lemma {:induction false} OneIsNoDuplicate(subs: seq<Sub>, lo: nat, hi: nat)
    requires Tiles(subs, lo, hi) && |subs| == 1
    ensures subs[0].dups == 0 && subs[0].tiny != [] && Lower(subs[0]) == lo && Upper(subs[0]) == hi
  {
    var p := FindBlock(subs, lo, hi, 0);
    BlockMember(subs[p.first..p.next], p.lo, p.hi, 0);
    TilesEnds(subs, lo, hi);
  }

  lemma {:induction false} TilesEnds(subs: seq<Sub>, lo: nat, hi: nat)
    requires Tiles(subs, lo, hi) && subs != []
    ensures subs[0].tiny != [] && Lower(subs[0]) == lo && subs[|subs| - 1].tiny != [] && Upper(subs[|subs| - 1]) == hi
  {
    var p := FindBlock(subs, lo, hi, 0);
    var q := FindBlock(subs, lo, hi, |subs| - 1);
    BlockMember(subs[p.first..p.next], p.lo, p.hi, 0);
    BlockMember(subs[q.first..q.next], q.lo, q.hi, |subs| - 1 - q.first);
    assert subs[..0] == [] && subs[|subs|..] == [];
  }

  lemma {:induction false} DuplicateIsPoint(subs: seq<Sub>, lo: nat, hi: nat, i: nat)
    requires Tiles(subs, lo, hi) && i < |subs| && subs[i].dups > 0
    ensures |subs[i].tiny| == 1 && Upper(subs[i]) == Lower(subs[i]) + 1
  {
    var p := FindBlock(subs, lo, hi, i);
    var g := subs[p.first..p.next];
    BlockMember(g, p.lo, p.hi, i - p.first);
    assert g[i - p.first] == subs[i];
    assert IsDuplicate(g[i - p.first], p.lo, g[0].dups);
  }
}
