/** Finding the subrange of a key, and making room for it. */
module SubrangeSearch {
  import opened Subranges
  import opened SubrangeBoundary

  // ---------- extending a full set at its ends ----------

  lemma {:induction false} SameTotals(a: seq<Tiny>, b: seq<Tiny>)
    requires |a| == |b| && forall i :: 0 <= i < |a| ==> a[i].ninserts == b[i].ninserts
    ensures TinyTotal(a) == TinyTotal(b)
  {
    if a != [] {
      SameTotals(a[..|a| - 1], b[..|b| - 1]);
    }
  }

  function Lowered(tiny: seq<Tiny>, low: nat): seq<Tiny>
    requires tiny != []
  {
    tiny[0 := tiny[0].(lower := low)]
  }

  function Raised(tiny: seq<Tiny>, up: nat): seq<Tiny>
    requires tiny != []
  {
    tiny[|tiny| - 1 := tiny[|tiny| - 1].(upper := up)]
  }

  ghost predicate NonEmpty(subs: seq<Sub>) {
    forall i :: 0 <= i < |subs| ==> subs[i].tiny != []
  }

  /** The first subrange, and all its duplicates, begin at the key. */
  ghost function ExtendedFirst(subs: seq<Sub>, key: nat): seq<Sub>
    requires subs != [] && NonEmpty(subs)
  {
    seq(|subs|, i requires 0 <= i < |subs| =>
      if i < BlockSize(subs[0]) then subs[i].(tiny := Lowered(subs[i].tiny, key)) else subs[i])
  }

  /** The last subrange, and all its duplicates, end behind the key. */
  ghost function ExtendedLast(subs: seq<Sub>, key: nat): seq<Sub>
    requires subs != [] && NonEmpty(subs)
  {
    seq(|subs|, i requires 0 <= i < |subs| =>
      if |subs| - BlockSize(subs[|subs| - 1]) <= i then subs[i].(tiny := Raised(subs[i].tiny, key + 1)) else subs[i])
  }

  lemma {:induction false} TilingNonEmpty(subs: seq<Sub>, lo: nat, hi: nat)
    requires Tiles(subs, lo, hi)
    ensures NonEmpty(subs)
    ensures subs != [] ==> BlockSize(subs[0]) <= |subs| && BlockSize(subs[|subs| - 1]) <= |subs|
  {
    TilesBounds(subs, lo, hi);
    if subs != [] {
      var p := FindBlock(subs, lo, hi, |subs| - 1);
      BlockMember(subs[p.first..p.next], p.lo, p.hi, |subs| - 1 - p.first);
      assert subs[p.first..p.next][|subs| - 1 - p.first] == subs[|subs| - 1];
    }
  }

  method ExtendFirst(subs: seq<Sub>, key: nat) returns (subs': seq<Sub>)
    requires subs != [] && NonEmpty(subs) && BlockSize(subs[0]) <= |subs|
    ensures subs' == ExtendedFirst(subs, key) && |subs'| == |subs|
  {
    var dups := subs[0].dups;
    subs' := subs[0 := subs[0].(tiny := Lowered(subs[0].tiny, key))];
    var i := 1;
    while i < dups
      invariant 1 <= i <= BlockSize(subs[0]) && |subs'| == |subs|
      invariant forall j :: 0 <= j < i ==> subs'[j] == subs[j].(tiny := Lowered(subs[j].tiny, key))
      invariant forall j :: i <= j < |subs| ==> subs'[j] == subs[j]
    {
      subs' := subs'[i := subs'[i].(tiny := Lowered(subs'[i].tiny, key))];
      i := i + 1;
    }
  }

  method ExtendLast(subs: seq<Sub>, key: nat) returns (subs': seq<Sub>)
    requires subs != [] && NonEmpty(subs) && BlockSize(subs[|subs| - 1]) <= |subs|
    ensures subs' == ExtendedLast(subs, key) && |subs'| == |subs|
  {
    var n := |subs|;
    var dups := subs[n - 1].dups;
    subs' := subs[n - 1 := subs[n - 1].(tiny := Raised(subs[n - 1].tiny, key + 1))];
    var i := 1;
    while i < dups
      invariant 1 <= i <= BlockSize(subs[n - 1]) && |subs'| == n
      invariant forall j :: n - i <= j < n ==> subs'[j] == subs[j].(tiny := Raised(subs[j].tiny, key + 1))
      invariant forall j :: 0 <= j < n - i ==> subs'[j] == subs[j]
    {
      subs' := subs'[n - i - 1 := subs'[n - i - 1].(tiny := Raised(subs'[n - i - 1].tiny, key + 1))];
      i := i + 1;
    }
  }

  lemma {:induction false} ExtendedFirstTiles(subs: seq<Sub>, lo: nat, hi: nat, key: nat)
    requires Tiles(subs, lo, hi) && subs != [] && subs[0].dups == 0 && key < lo
    ensures NonEmpty(subs) && Tiles(ExtendedFirst(subs, key), key, hi) && Total(ExtendedFirst(subs, key)) == Total(subs)
    ensures var s := ExtendedFirst(subs, key)[0]; s.tiny != [] && Contains(s, key)
  {
    TilingNonEmpty(subs, lo, hi);
    var a, b := SinglePlace(subs, lo, hi, 0);
    assert a == lo by {
      assert subs[..0] == [];
    }
    var tiny := subs[0].tiny;
    var tiny' := Lowered(tiny, key);
    assert tiny'[1..] == tiny[1..];
    assert Contiguous(tiny', key, b);
    ContiguousBounds(tiny', key, b);
    hide Tiles, Contiguous;
    SubTiles(tiny', key, b);
    TilesConcat([Sub(tiny', 0)], subs[1..], key, b, hi);
    SameTotals(tiny, tiny');
    TotalUpdate(subs, 0, Sub(tiny', 0));
    assert ExtendedFirst(subs, key) == subs[0 := Sub(tiny', 0)] == [Sub(tiny', 0)] + subs[1..];
  }

  lemma {:induction false} ExtendedLastTiles(subs: seq<Sub>, lo: nat, hi: nat, key: nat)
    requires Tiles(subs, lo, hi) && subs != [] && subs[|subs| - 1].dups == 0 && hi <= key
    ensures NonEmpty(subs) && Tiles(ExtendedLast(subs, key), lo, key + 1)
      && Total(ExtendedLast(subs, key)) == Total(subs)
    ensures var s := ExtendedLast(subs, key)[|subs| - 1]; s.tiny != [] && Contains(s, key)
  {
    TilingNonEmpty(subs, lo, hi);
    TilesEnds(subs, lo, hi);
    hide Tiles, Total;
    RaisedTiles(subs, lo, hi, key + 1);
    RaisedTotal(subs, key + 1);
    var n := |subs| - 1;
    assert ExtendedLast(subs, key) == subs[n := Sub(Raised(subs[n].tiny, key + 1), 0)];
  }

  /** A duplicate that is wider than its key: nothing is tiled, and the asserts fail. */
  lemma {:induction false} WideNeverTiles(subs: seq<Sub>, i: nat, lo: nat, hi: nat)
    requires i < |subs| && subs[i].dups > 0 && !IsAPoint(subs[i])
    ensures !Tiles(subs, lo, hi)
  {
    if Tiles(subs, lo, hi) {
      DuplicateIsPoint(subs, lo, hi, i);
    }
  }

  lemma {:induction false} ExtendedFirstFails(subs: seq<Sub>, lo: nat, hi: nat, key: nat)
    requires Tiles(subs, lo, hi) && subs != [] && subs[0].dups > 0 && key < lo
    ensures NonEmpty(subs) && !BoundaryHolds(ExtendedFirst(subs, key))
    ensures forall a, b :: !Tiles(ExtendedFirst(subs, key), a, b)
  {
    TilingNonEmpty(subs, lo, hi);
    TilesEnds(subs, lo, hi);
    var s := ExtendedFirst(subs, key);
    assert s[0].dups > 0 && !IsAPoint(s[0]);
    assert s[0..0] == [];
    WideGroupFails(s, 0, 0, 0, 0);
    forall a, b
      ensures !Tiles(s, a, b)
    {
      WideNeverTiles(s, 0, a, b);
    }
  }

  lemma {:induction false} ExtendedLastFails(subs: seq<Sub>, lo: nat, hi: nat, key: nat)
    requires Tiles(subs, lo, hi) && subs != [] && subs[|subs| - 1].dups > 0 && hi <= key
    ensures NonEmpty(subs) && !BoundaryHolds(ExtendedLast(subs, key))
    ensures forall a, b :: !Tiles(ExtendedLast(subs, key), a, b)
  {
    TilingNonEmpty(subs, lo, hi);
    var n := |subs|;
    var p := FindBlock(subs, lo, hi, n - 1);
    var g := subs[p.first..p.next];
    BlockMember(g, p.lo, p.hi, n - 1 - p.first);
    BlockMember(g, p.lo, p.hi, 0);
    assert g[n - 1 - p.first] == subs[n - 1] && g[0] == subs[p.first] && p.next == n;
    assert p.first == n - BlockSize(subs[n - 1]);
    assert IsDuplicate(g[0], p.lo, g[0].dups) && p.hi == hi by {
      assert subs[n..] == [];
    }
    var s := ExtendedLast(subs, key);
    assert s[p.first].dups > 0 && !IsAPoint(s[p.first]);
    assert s[0..p.first] == subs[..p.first];
    WideGroupFails(s, 0, lo, p.lo, p.first);
    forall a, b
      ensures !Tiles(s, a, b)
    {
      WideNeverTiles(s, p.first, a, b);
    }
  }

  lemma {:induction false} RaisedTiles(subs: seq<Sub>, lo: nat, hi: nat, up: nat)
    requires Tiles(subs, lo, hi) && subs != [] && subs[|subs| - 1].dups == 0 && subs[|subs| - 1].tiny != [] && hi < up
    ensures var tiny := Raised(subs[|subs| - 1].tiny, up);
      tiny[0].lower < up && Upper(Sub(tiny, 0)) == up && Lower(Sub(tiny, 0)) < hi
        && Tiles(subs[|subs| - 1 := Sub(tiny, 0)], lo, up)
  {
    var n := |subs| - 1;
    var a, b := SinglePlace(subs, lo, hi, n);
    TilesEnds(subs, lo, hi);
    hide Tiles;
    var tiny := Raised(subs[n].tiny, up);
    RaiseEnd(subs[n].tiny, a, b, up);
    ContiguousBounds(tiny, a, up);
    hide Contiguous;
    SubTiles(tiny, a, up);
    TilesConcat(subs[..n], [Sub(tiny, 0)], lo, a, up);
    assert subs[..n] + [Sub(tiny, 0)] == subs[n := Sub(tiny, 0)];
  }

  lemma {:induction false} RaisedTotal(subs: seq<Sub>, up: nat)
    requires subs != [] && subs[|subs| - 1].tiny != []
    ensures Total(subs[|subs| - 1 := Sub(Raised(subs[|subs| - 1].tiny, up), 0)]) == Total(subs)
  {
    hide Total, TinyTotal;
    var n := |subs| - 1;
    SameTotals(subs[n].tiny, Raised(subs[n].tiny, up));
    TotalUpdate(subs, n, Sub(Raised(subs[n].tiny, up), 0));
  }

  lemma {:induction false} RaiseEnd(tiny: seq<Tiny>, lo: nat, hi: nat, up: nat)
    requires tiny != [] && Contiguous(tiny, lo, hi) && hi < up
    ensures Contiguous(Raised(tiny, up), lo, up)
  {
    var k := |tiny| - 1;
    var tiny' := tiny[k := tiny[k].(upper := up)];
    if k > 0 {
      RaiseEnd(tiny[1..], tiny[0].upper, hi, up);
      assert tiny'[1..] == tiny[1..][k - 1 := tiny[1..][k - 1].(upper := up)];
    } else {
      assert tiny'[1..] == [];
      ContiguousBounds(tiny, lo, hi);
    }
  }

  lemma {:induction false} NewRange(lo: nat, hi: nat) returns (s: Sub)
    requires lo < hi
    ensures s == Sub([Tiny(lo, hi, 0.0)], 0) && Tiles([s], lo, hi) && Total([s]) == 0.0
  {
    var t := Tiny(lo, hi, 0.0);
    s := Sub([t], 0);
    assert [t][1..] == [];
    SubTiles([t], lo, hi);
    TotalOne(s);
    TinyTotalOne(t);
  }

  lemma {:induction false} NoInserts()
    ensures Total([]) == 0.0
  {
  }

  // ---------- a subrange for a key ----------

  /** What is covered once the key is. */
  function NewLow(subs: seq<Sub>, lo: nat, key: nat): nat {
    if subs == [] || key < lo then key else lo
  }

  function NewHigh(subs: seq<Sub>, hi: nat, key: nat): nat {
    if subs == [] || hi <= key then key + 1 else hi
  }

  /** A first subrange is a point, a lone point is widened, and otherwise a new subrange fills the gap
      between the tiling and the key. */
  ghost predicate AddsOutside(subs: seq<Sub>, lo: nat, hi: nat, key: nat, subs': seq<Sub>) {
    if subs == [] then subs' == [Sub([Tiny(key, key + 1, 0.0)], 0)]
    else if |subs| == 1 && |subs[0].tiny| == 1 && hi == lo + 1 then
      var inserts := subs[0].tiny[0].ninserts;
      subs' == [Sub([if key < lo then Tiny(key, hi, inserts) else Tiny(lo, key + 1, inserts)], 0)]
    else if key < lo then subs' == [Sub([Tiny(key, lo, 0.0)], 0)] + subs
    else subs' == subs + [Sub([Tiny(hi, key + 1, 0.0)], 0)]
  }

  /** What the search makes of a set that is not settled for the key. */
  ghost predicate Makes(subs: seq<Sub>, lo: nat, hi: nat, key: nat, partitions: nat, subs': seq<Sub>, id: nat) {
    if lo <= key < hi then
      exists at: nat :: at < |subs| && subs[at].tiny != [] && Contains(subs[at], key)
        && if Lower(subs[at]) == key then subs' == subs && id == at else SplitsAt(subs, at, key, subs')
    else if |subs| < partitions then AddsOutside(subs, lo, hi, key, subs')
    else subs != [] && NonEmpty(subs) && subs' == if key < lo then ExtendedFirst(subs, key) else ExtendedLast(subs, key)
  }

  lemma {:induction false} PointIsWidened(s: Sub, key: nat)
    requires |s.tiny| == 1 && s.dups == 0
    ensures ExtendedFirst([s], key) == [Sub([s.tiny[0].(lower := key)], 0)]
    ensures ExtendedLast([s], key) == [Sub([s.tiny[0].(upper := key + 1)], 0)]
  {
    assert Lowered(s.tiny, key) == [s.tiny[0].(lower := key)];
    assert Raised(s.tiny, key + 1) == [s.tiny[0].(upper := key + 1)];
  }

  /** A subrange for a key nobody covers yet, while there is room for more subranges. */
  method AddOutside(subs: seq<Sub>, ghost lo: nat, ghost hi: nat, key: nat) returns (subs': seq<Sub>, id: nat)
    requires Tiles(subs, lo, hi) && !(lo <= key < hi)
    ensures Tiles(subs', NewLow(subs, lo, key), NewHigh(subs, hi, key)) && |subs| <= |subs'| <= |subs| + 1
    ensures Total(subs') == Total(subs)
    ensures id < |subs'| && subs'[id].tiny != [] && Contains(subs'[id], key)
    ensures AddsOutside(subs, lo, hi, key, subs')
  {
    hide Tiles, Total, ExtendedFirst, ExtendedLast;
    TilesBounds(subs, lo, hi);
    TilingNonEmpty(subs, lo, hi);
    if subs == [] {
      ghost var s := NewRange(key, key + 1);
      NoInserts();
      return [Sub([Tiny(key, key + 1, 0.0)], 0)], 0;
    }
    TilesEnds(subs, lo, hi);
    if |subs| == 1 && IsAPoint(subs[0]) {
      OneIsNoDuplicate(subs, lo, hi);
      PointIsWidened(subs[0], key);
      assert subs == [subs[0]];
      if key < Lower(subs[0]) {
        ExtendedFirstTiles(subs, lo, hi, key);
        subs' := ExtendFirst(subs, key);
      } else {
        ExtendedLastTiles(subs, lo, hi, key);
        subs' := ExtendLast(subs, key);
      }
      return subs', 0;
    }
    if key < Lower(subs[0]) {
      ghost var s := NewRange(key, lo);
      TilesConcat([s], subs, key, lo, hi);
      TotalConcat([s], subs);
      return [Sub([Tiny(key, Lower(subs[0]), 0.0)], 0)] + subs, 0;
    }
    ghost var s := NewRange(hi, key + 1);
    TilesConcat(subs, [s], lo, hi, key + 1);
    TotalConcat(subs, [s]);
    id := |subs|;
    subs' := subs + [Sub([Tiny(Upper(subs[id - 1]), key + 1, 0.0)], 0)];
  }

  /** A full set of subranges is extended at an end only if the subrange there is no duplicate. */
  ghost predicate MayExtend(subs: seq<Sub>, lo: nat, hi: nat, key: nat, partitions: nat) {
    |subs| == partitions && subs != [] ==>
      (key < lo ==> subs[0].dups == 0) && (hi <= key ==> subs[|subs| - 1].dups == 0)
  }

  /** The new set of subranges for a key that is not found, or not alone yet. */
  method Expand(subs: seq<Sub>, ghost lo: nat, ghost hi: nat, key: nat, partitions: nat, found: bool, at: nat)
    returns (subs': seq<Sub>, id: nat)
    requires Tiles(subs, lo, hi) && |subs| <= partitions && partitions >= 1 && (found <==> lo <= key < hi)
    requires found ==> |subs| < partitions && at < |subs| && subs[at].tiny != [] && Contains(subs[at], key)
    ensures MayExtend(subs, lo, hi, key, partitions) ==>
      && Tiles(subs', NewLow(subs, lo, key), NewHigh(subs, hi, key)) && |subs| <= |subs'| <= partitions
      && Total(subs') == Total(subs)
      && id < |subs'| && subs'[id].tiny != [] && Contains(subs'[id], key)
    ensures Makes(subs, lo, hi, key, partitions, subs', id)
    ensures !MayExtend(subs, lo, hi, key, partitions) ==> !BoundaryHolds(subs') && forall a, b :: !Tiles(subs', a, b)
  {
    hide Tiles, Total, BoundaryHolds, ExtendedFirst, ExtendedLast, AddsOutside, SplitsAt;
    TilesBounds(subs, lo, hi);
    TilingNonEmpty(subs, lo, hi);
    if found {
      subs', id := subs, at;
      if Lower(subs[at]) != key {
        subs', id := SplitSub(subs, lo, hi, at, key);
      }
      return;
    }
    if |subs| < partitions {
      subs', id := AddOutside(subs, lo, hi, key);
      return;
    }
    TilesEnds(subs, lo, hi);
    if key < Lower(subs[0]) {
      subs' := ExtendFirst(subs, key);
      id := 0;
      if subs[0].dups == 0 {
        ExtendedFirstTiles(subs, lo, hi, key);
      } else {
        ExtendedFirstFails(subs, lo, hi, key);
      }
    } else {
      subs' := ExtendLast(subs, key);
      id := |subs| - 1;
      if subs[|subs| - 1].dups == 0 {
        ExtendedLastTiles(subs, lo, hi, key);
      } else {
        ExtendedLastFails(subs, lo, hi, key);
      }
    }
  }

  class SubRangeManager {
    const partitions: nat
    const reorg: bool
    var latest: seq<Sub>
    /** The keys covered. */
    ghost var lo: nat
    ghost var hi: nat

    /** The subranges tile what they cover, and there are at most as many as partitions. */
    ghost predicate Valid()
      reads this
    {
      partitions >= 1 && Tiles(latest, lo, hi) && |latest| <= partitions
    }

    constructor (partitions: nat, reorg: bool)
      requires partitions >= 1
      ensures Valid() && latest == [] && this.partitions == partitions && this.reorg == reorg
    {
      this.partitions, this.reorg := partitions, reorg;
      latest, lo, hi := [], 0, 0;
    }

    /** The key is covered and no subrange is to be split for it. */
    ghost predicate Settled(key: nat)
      reads this
    {
      lo <= key < hi && (|latest| == partitions || !reorg)
    }

    /** Finds or makes a subrange that contains the key.  Keys between the old ends and the key join
        the tiling; no key leaves it, and no inserts are lost.  `next` is the new set and `ok` says
        that the asserts on it hold; without them nothing is changed.  It tiles the keys exactly when
        no full set is extended at a duplicate, and otherwise its asserts fail. */
    method SearchSubranges(key: nat, random: nat) returns (ok: bool, id: nat, ghost next: seq<Sub>)
      requires Valid()
      modifies this
      ensures Valid()
      ensures Tiles(next, NewLow(old(latest), old(lo), key), NewHigh(old(latest), old(hi), key))
        <==> old(MayExtend(latest, lo, hi, key, partitions))
      ensures old(Settled(key)) ==>
        next == old(latest) && id < |next| && Drawn(old(latest), old(lo), old(hi), id, random)
      ensures !old(Settled(key)) ==> Makes(old(latest), old(lo), old(hi), key, partitions, next, id)
      ensures ok <==> old(Settled(key)) || BoundaryHolds(next)
      ensures ok ==> old(MayExtend(latest, lo, hi, key, partitions))
      ensures old(MayExtend(latest, lo, hi, key, partitions)) && old(NewHigh(latest, hi, key)) < HALF ==> ok
      ensures !ok ==> latest == old(latest) && lo == old(lo) && hi == old(hi)
      ensures ok ==>
        && latest == next && |old(latest)| <= |latest| && Total(latest) == old(Total(latest))
        && id < |latest| && latest[id].tiny != [] && Contains(latest[id], key)
        && lo == NewLow(old(latest), old(lo), key) && hi == NewHigh(old(latest), old(hi), key)
    {
      hide Tiles, Total, BoundaryHolds, Makes, Drawn;
      TilesBounds(latest, lo, hi);
      var found;
      next := latest;
      if |latest| == partitions || !reorg {
        found, id := SearchWithDuplicates(latest, lo, hi, key, random);
        if found {
          return true, id, latest;
        }
      }
      found, id := SearchWithDuplicates(latest, lo, hi, key, random);
      if found && |latest| == partitions {
        return true, id, latest;
      }
      var subs';
      subs', id := Expand(latest, lo, hi, key, partitions, found, id);
      next := subs';
      ok := AssertSubrangeBoundary(subs');
      if MayExtend(latest, lo, hi, key, partitions) && NewHigh(latest, hi, key) < HALF {
        SmallTilingHolds(subs', NewLow(latest, lo, key), NewHigh(latest, hi, key));
      }
      if ok {
        lo, hi := NewLow(latest, lo, key), NewHigh(latest, hi, key);
        latest := subs';
      }
    }
  }

  /** Two partitions, both for the hot key 7: a search for key 9 fails the asserts. */
  lemma {:induction false} DuplicatesAtTheEndFail()
    ensures var dup := Sub([Tiny(7, 8, 1.0)], 2); var subs := [dup, dup];
      && Tiles(subs, 7, 8) && !MayExtend(subs, 7, 8, 9, 2) && NonEmpty(subs)
      && ExtendedLast(subs, 9) == [Sub([Tiny(7, 10, 1.0)], 2), Sub([Tiny(7, 10, 1.0)], 2)]
      && !BoundaryHolds(ExtendedLast(subs, 9)) && forall a, b :: !Tiles(ExtendedLast(subs, 9), a, b)
  {
    var dup := Sub([Tiny(7, 8, 1.0)], 2);
    var subs := [dup, dup];
    assert IsDuplicate(dup, 7, 2);
    assert Block(subs, 7, 8);
    BlockTiles(subs, 7, 8);
    ExtendedLastFails(subs, 7, 8, 9);
    hide Tiles, BoundaryHolds;
    assert Raised(dup.tiny, 10) == [Tiny(7, 10, 1.0)];
  }
}
