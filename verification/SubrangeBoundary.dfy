/** AssertSubrangeBoundary: the asserts that every new set of subranges has to pass. */
module SubrangeBoundary {
  import opened Options
  import opened Subranges

  // ---------- duplicates ----------

  predicate IsAPoint(s: Sub) {
    |s.tiny| == 1 && s.tiny[0].upper == s.tiny[0].lower + 1
  }

  /** The inner loop over a group of duplicates: where it stops, unless an assert fails or the loop
      runs past the end.  Counts are unsigned, so 0 - 1 is large. */
  function Walk(subs: seq<Sub>, it: nat, i: nat, key: nat): (r: Option<nat>)
    ensures r.Some? ==> it <= r.value < |subs|
    decreases |subs| - it
  {
    if it >= |subs| then None
    else if subs[it].dups == 0 || i < subs[it].dups - 1 then
      if IsAPoint(subs[it]) && subs[it].tiny[0].lower == key then Walk(subs, it + 1, i + 1, key) else None
    else Some(it)
  }

  predicate DuplicatesHold(subs: seq<Sub>, it: nat)
    decreases |subs| - it
  {
    if it >= |subs| then true
    else
      && subs[it].tiny != []
      && if subs[it].dups > 0 then
           && IsAPoint(subs[it])
           && var end := Walk(subs, it, 0, subs[it].tiny[0].lower);
              end.Some? && DuplicatesHold(subs, end.value + 1)
         else DuplicatesHold(subs, it + 1)
  }

  method AssertDuplicates(subs: seq<Sub>) returns (ok: bool)
    ensures ok == DuplicatesHold(subs, 0)
  {
    var it := 0;
    while it < |subs|
      invariant it <= |subs| && DuplicatesHold(subs, 0) == DuplicatesHold(subs, it)
    {
      if subs[it].tiny == [] {
        return false;
      }
      if subs[it].dups > 0 {
        if !IsAPoint(subs[it]) {
          return false;
        }
        var key, i := subs[it].tiny[0].lower, 0;
        ghost var goal := Walk(subs, it, 0, key);
        var start := it;
        while it < |subs| && (subs[it].dups == 0 || i < subs[it].dups - 1)
          invariant start <= it <= |subs| && Walk(subs, it, i, key) == goal
        {
          if !IsAPoint(subs[it]) || subs[it].tiny[0].lower != key {
            return false;
          }
          it, i := it + 1, i + 1;
        }
        if it == |subs| {
          return false;
        }
      }
      it := it + 1;
    }
    ok := true;
  }

  lemma {:induction false} WalkGroup(subs: seq<Sub>, first: nat, i: nat, key: nat, d: nat)
    requires 2 <= d && i <= d - 1 && first + d <= |subs|
    requires forall j :: first <= j < first + d ==> IsDuplicate(subs[j], key, d)
    ensures Walk(subs, first + i, i, key) == Some(first + d - 1)
    decreases d - i
  {
    assert IsDuplicate(subs[first + i], key, d);
    if i < d - 1 {
      WalkGroup(subs, first, i + 1, key, d);
    }
  }

  /** The group that begins a tiling, seen from the whole sequence. */
  lemma {:induction false} GroupAt(subs: seq<Sub>, it: nat, end: nat, lo: nat, hi: nat)
    requires it < end <= |subs| && Tiles(subs[it..end], lo, hi)
    ensures var n := BlockSize(subs[it]);
      && subs[it].tiny != [] && 0 < n && it + n <= end && Tiles(subs[it + n..end], Upper(subs[it]), hi)
      && (subs[it].dups > 0 ==>
            IsAPoint(subs[it]) && subs[it].tiny[0].lower == lo && Walk(subs, it, 0, lo) == Some(it + n - 1))
  {
    var part := subs[it..end];
    var n := BlockSize(part[0]);
    assert part[0] == subs[it] && part[n..] == subs[it + n..end];
    if subs[it].dups > 0 {
      var g := part[..n];
      forall j | it <= j < it + n
        ensures IsDuplicate(subs[j], lo, n)
      {
        assert subs[j] == g[j - it] && IsDuplicate(g[j - it], lo, g[0].dups);
      }
      WalkGroup(subs, it, 0, lo, n);
      assert IsDuplicate(subs[it], lo, n);
    }
  }

  lemma {:induction false} PastGroup(subs: seq<Sub>, it: nat)
    requires it < |subs| && subs[it].tiny != []
    requires subs[it].dups > 0 ==>
      IsAPoint(subs[it]) && Walk(subs, it, 0, subs[it].tiny[0].lower) == Some(it + BlockSize(subs[it]) - 1)
    ensures DuplicatesHold(subs, it) == DuplicatesHold(subs, it + BlockSize(subs[it]))
  {
    hide Walk;
  }

  lemma {:induction false} NothingLeft(subs: seq<Sub>, it: nat)
    ensures it >= |subs| ==> DuplicatesHold(subs, it)
  {
  }

  lemma {:induction false} TilingDuplicatesHold(subs: seq<Sub>, it: nat, lo: nat, hi: nat)
    requires it <= |subs| && Tiles(subs[it..|subs|], lo, hi)
    ensures DuplicatesHold(subs, it)
    decreases |subs| - it
  {
    hide Tiles, Walk, DuplicatesHold;
    NothingLeft(subs, it);
    if it < |subs| {
      GroupAt(subs, it, |subs|, lo, hi);
      PastGroup(subs, it);
      TilingDuplicatesHold(subs, it + BlockSize(subs[it]), Upper(subs[it]), hi);
    }
  }

  lemma {:induction false} WideHere(subs: seq<Sub>, at: nat)
    requires at < |subs| && subs[at].dups > 0 && !IsAPoint(subs[at])
    ensures !DuplicatesHold(subs, at)
  {
    hide Walk;
  }

  /** Asserts before a group that is no point are passed, those at the group are not. */
  lemma {:induction false} WideGroupFails(subs: seq<Sub>, it: nat, lo: nat, mid: nat, at: nat)
    requires it <= at < |subs| && Tiles(subs[it..at], lo, mid) && subs[at].dups > 0 && !IsAPoint(subs[at])
    ensures !DuplicatesHold(subs, it)
    decreases at - it
  {
    hide Tiles, Walk, DuplicatesHold;
    if it < at {
      GroupAt(subs, it, at, lo, mid);
      PastGroup(subs, it);
      WideGroupFails(subs, it + BlockSize(subs[it]), Upper(subs[it]), mid, at);
    } else {
      WideHere(subs, at);
    }
  }

  // ---------- bounds ----------

  const WORD: nat := 0x1_0000_0000
  const HALF: nat := 0x8000_0000
  const MINUS_ONE: nat := 0xffff_ffff_ffff_ffff

  /** A bound kept in an `int` and compared with an unsigned 64-bit number. */
  function AsInt(x: nat): nat {
    if x % WORD < HALF then x % WORD else 0xffff_ffff_0000_0000 + x % WORD
  }

  /** A tiny range of a subrange, and whether that is a duplicate. */
  datatype Piece = Piece(lower: nat, upper: nat, dup: bool)

  function Pieces(tiny: seq<Tiny>, dup: bool): (r: seq<Piece>)
    ensures |r| == |tiny| && forall i :: 0 <= i < |r| ==> r[i] == Piece(tiny[i].lower, tiny[i].upper, dup)
  {
    seq(|tiny|, i requires 0 <= i < |tiny| => Piece(tiny[i].lower, tiny[i].upper, dup))
  }

  function Flat(subs: seq<Sub>): seq<Piece> {
    if subs == [] then [] else Pieces(subs[0].tiny, subs[0].dups > 0) + Flat(subs[1..])
  }

  /** The running bounds; a lower bound of -1 stands for none so far. */
  datatype Prior = Prior(lower: nat, upper: nat, dup: bool)

  function Check(p: Prior, r: Piece): Option<Prior> {
    if p.lower == MINUS_ONE then Some(Prior(AsInt(r.lower), AsInt(r.upper), r.dup))
    else if r.lower == p.lower then
      if r.upper == p.upper && r.dup && p.dup then Some(p) else None
    else
      if r.lower >= p.upper && r.upper > r.lower then Some(Prior(AsInt(r.lower), AsInt(r.upper), r.dup)) else None
  }

  predicate BoundsHold(p: Prior, pieces: seq<Piece>)
    decreases |pieces|
  {
    pieces == [] || (Check(p, pieces[0]).Some? && BoundsHold(Check(p, pieces[0]).value, pieces[1..]))
  }

  const START: Prior := Prior(MINUS_ONE, MINUS_ONE, false)

  predicate BoundaryHolds(subs: seq<Sub>) {
    DuplicatesHold(subs, 0) && BoundsHold(START, Flat(subs))
  }

  method AssertBounds(subs: seq<Sub>) returns (ok: bool)
    ensures ok == BoundsHold(START, Flat(subs))
  {
    var prior := START;
    assert subs[0..] == subs;
    for i := 0 to |subs|
      invariant BoundsHold(START, Flat(subs)) == BoundsHold(prior, Flat(subs[i..]))
    {
      assert subs[i..][0] == subs[i] && subs[i..][1..] == subs[i + 1..];
      ghost var mine, later := Pieces(subs[i].tiny, subs[i].dups > 0), Flat(subs[i + 1..]);
      assert mine[0..] + later == mine + later;
      for j := 0 to |subs[i].tiny|
        invariant BoundsHold(START, Flat(subs)) == BoundsHold(prior, mine[j..] + later)
      {
        var t := subs[i].tiny[j];
        assert (mine[j..] + later)[0] == mine[j] && (mine[j..] + later)[1..] == mine[j + 1..] + later;
        var next := Check(prior, Piece(t.lower, t.upper, subs[i].dups > 0));
        if next.None? {
          return false;
        }
        prior := next.value;
      }
      assert mine[|mine|..] + later == later;
    }
    assert subs[|subs|..] == [];
    ok := true;
  }

  method AssertSubrangeBoundary(subs: seq<Sub>) returns (ok: bool)
    ensures ok == BoundaryHolds(subs)
  {
    ok := AssertDuplicates(subs);
    if ok {
      ok := AssertBounds(subs);
    }
  }

  // ---------- the bounds of a tiling ----------

  /** Ranges lie end to end; a duplicate covers one key and may be followed by another one. */
  ghost predicate Follows(a: Piece, b: Piece) {
    b.lower == a.upper || (b.lower == a.lower && b.upper == a.upper && a.dup && b.dup)
  }

  ghost predicate PieceOk(r: Piece) {
    r.lower < r.upper && (r.dup ==> r.upper == r.lower + 1)
  }

  ghost predicate InOrder(pieces: seq<Piece>) {
    && (forall i :: 0 <= i < |pieces| ==> PieceOk(pieces[i]))
    && (forall i, j :: 0 <= i && j == i + 1 < |pieces| ==> Follows(pieces[i], pieces[j]))
  }

  /** What the next range is compared with: a bound that the conversion has not made huge, or none. */
  predicate Fits(r: Piece) {
    r.upper % WORD < HALF || r.lower % WORD == WORD - 1
  }

  const LIMIT: nat := 0x8000_0000_0000_0000

  function After(r: Piece): Prior {
    Prior(AsInt(r.lower), AsInt(r.upper), r.dup)
  }

  lemma {:induction false} AsIntCases(x: nat)
    requires x < LIMIT
    ensures x % WORD < HALF ==> AsInt(x) == x % WORD <= x
    ensures x % WORD >= HALF ==> AsInt(x) >= LIMIT
    ensures AsInt(x) == MINUS_ONE <==> x % WORD == WORD - 1
    ensures AsInt(x) == x <==> x < HALF
  {
  }

  /** After a range, the next one in order passes exactly when the bounds of the first fit. */
  lemma {:induction false} NextPasses(a: Piece, b: Piece)
    requires PieceOk(a) && PieceOk(b) && Follows(a, b) && b.upper < LIMIT
    ensures Check(After(a), b).Some? <==> Fits(a)
    ensures Fits(a) ==> Check(After(a), b).value == After(b)
  {
    AsIntCases(a.lower);
    AsIntCases(a.upper);
    hide AsInt;
    if a.dup {
      assert a.lower < HALF && a.upper % WORD < HALF ==> a.upper < HALF;
      assert (a.lower + 1) % WORD < HALF && a.lower >= HALF ==> AsInt(a.upper) <= a.lower;
    }
  }

  lemma {:induction false} RestPasses(a: Piece, rest: seq<Piece>)
    requires InOrder([a] + rest) && forall i :: 0 <= i < |rest| ==> rest[i].upper < LIMIT
    ensures BoundsHold(After(a), rest) <==>
      forall i :: 0 <= i < |rest| ==> Fits(([a] + rest)[i])
    decreases |rest|
  {
    var all := [a] + rest;
    if rest != [] {
      var b := rest[0];
      assert all[0] == a && all[1] == b && PieceOk(all[0]) && PieceOk(all[1]) && Follows(all[0], all[1]);
      NextPasses(a, b);
      assert [b] + rest[1..] == rest;
      assert forall i :: 0 <= i < |rest| ==> rest[i] == all[i + 1];
      RestInOrder(a, rest);
      RestPasses(b, rest[1..]);
      assert forall i :: 0 < i < |rest| ==> all[i] == rest[i - 1];
    }
  }

  lemma {:induction false} RestInOrder(a: Piece, rest: seq<Piece>)
    requires InOrder([a] + rest)
    ensures InOrder(rest)
  {
    var all := [a] + rest;
    assert forall i :: 0 <= i < |rest| ==> rest[i] == all[i + 1];
  }

  /** Ranges in order pass the asserts exactly when the bounds of all but the last one fit. */
  lemma {:induction false} BoundsHoldIff(pieces: seq<Piece>)
    requires InOrder(pieces) && forall i :: 0 <= i < |pieces| ==> pieces[i].upper < LIMIT
    ensures BoundsHold(START, pieces) <==> forall i :: 0 <= i < |pieces| - 1 ==> Fits(pieces[i])
  {
    if pieces != [] {
      assert pieces == [pieces[0]] + pieces[1..];
      RestPasses(pieces[0], pieces[1..]);
    }
  }

  ghost predicate Spans(pieces: seq<Piece>, lo: nat, hi: nat) {
    && InOrder(pieces)
    && (pieces == [] ==> lo == hi)
    && (pieces != [] ==> pieces[0].lower == lo && pieces[|pieces| - 1].upper == hi)
    && (forall i :: 0 <= i < |pieces| ==> pieces[i].upper <= hi)
  }

  lemma {:induction false} SpansConcat(a: seq<Piece>, b: seq<Piece>, lo: nat, mid: nat, hi: nat)
    requires Spans(a, lo, mid) && Spans(b, mid, hi) && mid <= hi
    ensures Spans(a + b, lo, hi)
  {
    var all := a + b;
    assert forall i :: 0 <= i < |all| ==> all[i] == if i < |a| then a[i] else b[i - |a|];
    forall i, j | 0 <= i && j == i + 1 < |all|
      ensures Follows(all[i], all[j])
    {
      if j < |a| {
        assert Follows(a[i], a[j]);
      } else if i >= |a| {
        assert Follows(b[i - |a|], b[j - |a|]);
      }
    }
  }

  lemma {:induction false} TinySpans(tiny: seq<Tiny>, lo: nat, hi: nat)
    requires Contiguous(tiny, lo, hi)
    ensures lo <= hi && Spans(Pieces(tiny, false), lo, hi)
  {
    if tiny != [] {
      var t, rest := tiny[0], tiny[1..];
      TinySpans(rest, t.upper, hi);
      var one := [Piece(t.lower, t.upper, false)];
      assert Spans(one, lo, t.upper);
      SpansConcat(one, Pieces(rest, false), lo, t.upper, hi);
      assert Pieces(tiny, false) == one + Pieces(rest, false);
    }
  }

  lemma {:induction false} Associate(p: seq<Piece>, q: seq<Piece>, r: seq<Piece>)
    ensures p + (q + r) == (p + q) + r
  {
  }

  lemma {:induction false} FlatConcat(a: seq<Sub>, b: seq<Sub>)
    ensures Flat(a + b) == Flat(a) + Flat(b)
  {
    hide Pieces;
    if a == [] {
      assert a + b == b;
    } else {
      FlatConcat(a[1..], b);
      assert (a + b)[0] == a[0] && (a + b)[1..] == a[1..] + b;
      Associate(Pieces(a[0].tiny, a[0].dups > 0), Flat(a[1..]), Flat(b));
    }
  }

  lemma {:induction false} GroupFlat(g: seq<Sub>, key: nat, d: nat)
    requires d > 0 && forall i :: 0 <= i < |g| ==> IsDuplicate(g[i], key, d)
    ensures |Flat(g)| == |g| && forall i :: 0 <= i < |g| ==> Flat(g)[i] == Piece(key, key + 1, true)
  {
    if g != [] {
      GroupFlat(g[1..], key, d);
      assert IsDuplicate(g[0], key, d);
    }
  }

  lemma {:induction false} GroupSpans(g: seq<Sub>, key: nat, d: nat)
    requires g != [] && d > 0 && forall i :: 0 <= i < |g| ==> IsDuplicate(g[i], key, d)
    ensures Spans(Flat(g), key, key + 1)
  {
    GroupFlat(g, key, d);
    hide Flat, IsDuplicate;
    var pieces := Flat(g);
    assert forall i :: 0 <= i < |pieces| ==> pieces[i] == Piece(key, key + 1, true);
  }

  lemma {:induction false} BlockSpans(g: seq<Sub>, lo: nat, hi: nat)
    requires Block(g, lo, hi)
    ensures lo <= hi && Spans(Flat(g), lo, hi)
  {
    hide Spans, IsDuplicate;
    if g[0].dups == 0 {
      TinySpans(g[0].tiny, lo, hi);
      assert g[1..] == [] && Flat(g) == Pieces(g[0].tiny, false) + [];
      assert Pieces(g[0].tiny, false) + [] == Pieces(g[0].tiny, false);
    } else {
      GroupSpans(g, lo, g[0].dups);
    }
  }

  lemma {:induction false} TilingSpans(subs: seq<Sub>, lo: nat, hi: nat)
    requires Tiles(subs, lo, hi)
    ensures lo <= hi && Spans(Flat(subs), lo, hi)
    decreases |subs|
  {
    if subs != [] {
      var n, mid := BlockSize(subs[0]), Upper(subs[0]);
      TilingSpans(subs[n..], mid, hi);
      BlockSpans(subs[..n], lo, mid);
      hide Block, Spans;
      FlatConcat(subs[..n], subs[n..]);
      assert subs[..n] + subs[n..] == subs;
      SpansConcat(Flat(subs[..n]), Flat(subs[n..]), lo, mid, hi);
    }
  }

  /** A tiling passes the asserts exactly when the bounds of all its ranges but the last fit. */
  lemma {:induction false} TilingHoldsIff(subs: seq<Sub>, lo: nat, hi: nat)
    requires Tiles(subs, lo, hi) && hi < LIMIT
    ensures BoundaryHolds(subs) <==> forall i :: 0 <= i < |Flat(subs)| - 1 ==> Fits(Flat(subs)[i])
  {
    assert subs[0..|subs|] == subs;
    TilingDuplicatesHold(subs, 0, lo, hi);
    TilingSpans(subs, lo, hi);
    BoundsHoldIff(Flat(subs));
  }

  /** So does every tiling whose keys fit into an `int`. */
  lemma {:induction false} SmallTilingHolds(subs: seq<Sub>, lo: nat, hi: nat)
    requires Tiles(subs, lo, hi) && hi < HALF
    ensures BoundaryHolds(subs)
  {
    TilingSpans(subs, lo, hi);
    TilingHoldsIff(subs, lo, hi);
    hide Flat, BoundaryHolds, Tiles;
    forall i | 0 <= i < |Flat(subs)| - 1
      ensures Fits(Flat(subs)[i])
    {
      assert Flat(subs)[i].upper <= hi;
    }
  }

  /** Two subranges next to each other at 2^31 tile their keys and fail the asserts. */
  lemma {:induction false} LargeTilingFails()
    ensures var a, b := Sub([Tiny(HALF, HALF + 1, 0.0)], 0), Sub([Tiny(HALF + 1, HALF + 2, 0.0)], 0);
      Tiles([a, b], HALF, HALF + 2) && !BoundaryHolds([a, b])
  {
    var a, b := Sub([Tiny(HALF, HALF + 1, 0.0)], 0), Sub([Tiny(HALF + 1, HALF + 2, 0.0)], 0);
    SubTiles(a.tiny, HALF, HALF + 1) by {
      assert a.tiny[1..] == [];
    }
    SubTiles(b.tiny, HALF + 1, HALF + 2) by {
      assert b.tiny[1..] == [];
    }
    TilesConcat([a], [b], HALF, HALF + 1, HALF + 2);
    assert [a] + [b] == [a, b];
    TilingHoldsIff([a, b], HALF, HALF + 2);
    assert [a, b][1..] == [b] && [b][1..] == [];
    assert Flat([b]) == Pieces(b.tiny, false) + [];
    assert Flat([a, b]) == Pieces(a.tiny, false) + Flat([b]);
    assert Flat([a, b])[0] == Piece(HALF, HALF + 1, false) && |Flat([a, b])| == 2;
    assert !Fits(Flat([a, b])[0]);
  }
}
