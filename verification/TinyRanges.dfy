/** Cutting a subrange into tiny ranges of about the same insertion rate. */
module TinyRanges {
  import opened Subranges

  /** Range bounds are kept in 32-bit variables while ranges are cut. */
  const WORD: nat := 0x1_0000_0000

  /** Sampled insertion rates, one entry per key, in key order. */
  datatype Rate = Rate(key: nat, rate: real)

  ghost predicate RatesOk(rates: seq<Rate>, lower: nat, upper: nat) {
    && (forall i :: 0 <= i < |rates| ==> lower <= rates[i].key < upper)
    && (forall i, j :: 0 <= i < j < |rates| ==> rates[i].key < rates[j].key)
  }

  /** `gathered` are the rates recorded for the ranges, `lower` is where the next range starts, `rate`
      what it has gathered, `left` the rate not yet gathered, `share` what a range should get. */
  datatype Cut = Cut(ranges: seq<Tiny>, gathered: seq<real>, lower: nat, rate: real, left: real, share: real,
                     full: bool)

  function Start(total: real, lower: nat, n: nat): Cut
    requires n > 0
  {
    Cut([], [], lower % WORD, 0.0, total, total / n as real, false)
  }

  /** One more key.  The share is recomputed only while at least two ranges are to come. */
  function Add(c: Cut, r: Rate, n: nat): Cut {
    if c.rate + r.rate <= c.share then c.(rate := c.rate + r.rate, left := c.left - r.rate)
    else
      var point := c.lower == r.key;
      var up := (if point then r.key + 1 else r.key) % WORD;
      var c' := c.(ranges := c.ranges + [Tiny(c.lower, up, 0.0)], gathered := c.gathered + [c.rate], lower := up);
      if |c'.ranges| + 1 >= n then c'.(full := true)
      else if point then
        var left := c.left - r.rate;
        c'.(rate := 0.0, left := left, share := left / (n - |c'.ranges|) as real)
      else c'.(rate := r.rate, left := c.left - r.rate, share := c.left / (n - |c'.ranges|) as real)
  }

  function AddAll(c: Cut, rates: seq<Rate>, n: nat): Cut
    decreases |rates|
  {
    if rates == [] || c.full then c else AddAll(Add(c, rates[0], n), rates[1..], n)
  }

  /** The last range takes the rest; the outer bounds are set at the end. */
  function Finish(c: Cut, lower: nat, upper: nat): seq<Tiny> {
    var ranges := if c.lower < upper then c.ranges + [Tiny(c.lower, 0, 0.0)] else c.ranges;
    if ranges == [] then []
    else
      var first := ranges[0 := ranges[0].(lower := lower)];
      first[|first| - 1 := first[|first| - 1].(upper := upper)]
  }

  /** Nothing is recorded for the last range. */
  function Recorded(c: Cut, upper: nat): seq<real> {
    if c.lower < upper then c.gathered + [0.0] else c.gathered
  }

  function Constructed(rates: seq<Rate>, total: real, lower: nat, upper: nat, n: nat): seq<Tiny>
    requires n > 0
  {
    Finish(AddAll(Start(total, lower, n), rates, n), lower, upper)
  }

  /** The insertion ratio of a range is what was recorded for it, over the total. */
  function Gathered(rates: seq<Rate>, total: real, lower: nat, upper: nat, n: nat): seq<real>
    requires n > 0
  {
    Recorded(AddAll(Start(total, lower, n), rates, n), upper)
  }

  // ---------- the code ----------

  /** One turn of the loop over the keys. */
  method AddKey(ranges: seq<Tiny>, gathered: seq<real>, currentLower: nat, currentRate: real, total: real, share: real,
                r: Rate, n: nat)
    returns (c: Cut)
    requires |ranges| + 1 < n
    ensures c == Add(Cut(ranges, gathered, currentLower, currentRate, total, share, false), r, n)
  {
    c := Cut(ranges, gathered, currentLower, currentRate, total, share, false);
    var currentUpper: nat;
    if currentRate + r.rate > share {
      if currentLower == r.key {
        currentUpper := (r.key + 1) % WORD;
        c := c.(ranges := c.ranges + [Tiny(currentLower, currentUpper, 0.0)], gathered := c.gathered + [c.rate]);
        c := c.(lower := (r.key + 1) % WORD);
        if |c.ranges| + 1 == n {
          return c.(full := true);
        }
        c := c.(rate := 0.0, left := c.left - r.rate);
        c := c.(share := c.left / (n - |c.ranges|) as real);
        return;
      } else {
        currentUpper := r.key % WORD;
        c := c.(ranges := c.ranges + [Tiny(currentLower, currentUpper, 0.0)], gathered := c.gathered + [c.rate]);
        c := c.(lower := r.key % WORD);
        if |c.ranges| + 1 == n {
          return c.(full := true);
        }
        c := c.(rate := 0.0, share := c.left / (n - |c.ranges|) as real);
      }
    }
    c := c.(rate := c.rate + r.rate, left := c.left - r.rate);
  }

  method ConstructRanges(rates: seq<Rate>, totalRate: real, lower: nat, upper: nat, n: nat)
    returns (ranges: seq<Tiny>, gathered: seq<real>)
    requires upper > lower + 1 && n > 1
    ensures ranges == Constructed(rates, totalRate, lower, upper, n)
    ensures gathered == Gathered(rates, totalRate, lower, upper, n)
  {
    var c := Cut([], [], lower % WORD, 0.0, totalRate, totalRate / n as real, false);
    ghost var goal := AddAll(c, rates, n);
    assert rates[0..] == rates;
    var i := 0;
    while i < |rates| && !c.full
      invariant i <= |rates| && (!c.full ==> |c.ranges| + 1 < n) && goal == AddAll(c, rates[i..], n)
    {
      assert rates[i..][0] == rates[i] && rates[i..][1..] == rates[i + 1..];
      AddCounts(c, rates[i], n);
      hide Add;
      c := AddKey(c.ranges, c.gathered, c.lower, c.rate, c.left, c.share, rates[i], n);
      i := i + 1;
    }
    ranges, gathered := c.ranges, c.gathered;
    if c.lower < upper {
      ranges, gathered := ranges + [Tiny(c.lower, 0, 0.0)], gathered + [0.0];
    }
    if ranges != [] {
      ranges := ranges[0 := ranges[0].(lower := lower)];
      ranges := ranges[|ranges| - 1 := ranges[|ranges| - 1].(upper := upper)];
    }
  }

  lemma {:induction false} AddCounts(c: Cut, r: Rate, n: nat)
    requires !c.full && |c.ranges| + 1 < n
    ensures !Add(c, r, n).full ==> |Add(c, r, n).ranges| + 1 < n
  {
  }

  // ---------- the ranges tile the subrange ----------

  /** What has been cut so far tiles the keys up to where the next range starts. */
  ghost predicate CutOk(c: Cut, lower: nat, upper: nat, n: nat) {
    && lower <= c.lower <= upper && Contiguous(c.ranges, lower, c.lower)
    && |c.ranges| < n && (!c.full ==> |c.ranges| + 1 < n)
  }

  /** Below 2^32 no bound wraps around.  At 2^32 the one past the last key would, but that key is
      cut off alone only after every other key. */
  ghost predicate NoWrap(lower: nat, upper: nat, n: nat) {
    upper < WORD || (upper == WORD && lower <= 1 && n < WORD)
  }

  /** The next range starts at the next key only if all keys before got a range of their own. */
  ghost predicate Dense(c: Cut, lower: nat, key: nat) {
    c.lower <= key && (c.lower == key ==> |c.ranges| == key - lower)
  }

  lemma {:induction false} CutOne(c: Cut, lower: nat, up: nat)
    requires lower <= c.lower < up && Contiguous(c.ranges, lower, c.lower)
    ensures Contiguous(c.ranges + [Tiny(c.lower, up, 0.0)], lower, up)
  {
    var t := Tiny(c.lower, up, 0.0);
    assert [t][1..] == [] && Contiguous([t], c.lower, up);
    ContiguousConcat(c.ranges, [t], lower, c.lower, up);
  }

  lemma {:induction false} AddKeeps(c: Cut, r: Rate, lower: nat, upper: nat, n: nat)
    requires CutOk(c, lower, upper, n) && !c.full && r.key < upper && NoWrap(lower, upper, n)
    requires Dense(c, lower, r.key)
    ensures CutOk(Add(c, r, n), lower, upper, n)
    ensures forall key :: key > r.key ==> Dense(Add(c, r, n), lower, key)
  {
    hide Contiguous;
    if c.rate + r.rate > c.share {
      CutOne(c, lower, if c.lower == r.key then r.key + 1 else r.key);
    }
  }

  lemma {:induction false} AddAllKeeps(c: Cut, rates: seq<Rate>, lower: nat, upper: nat, n: nat)
    requires CutOk(c, lower, upper, n) && RatesOk(rates, lower, upper) && NoWrap(lower, upper, n)
    requires rates != [] ==> Dense(c, lower, rates[0].key)
    ensures CutOk(AddAll(c, rates, n), lower, upper, n)
    decreases |rates|
  {
    if rates != [] && !c.full {
      AddKeeps(c, rates[0], lower, upper, n);
      AddAllKeeps(Add(c, rates[0], n), rates[1..], lower, upper, n);
    }
  }

  lemma {:induction false} FinishTiles(c: Cut, lower: nat, upper: nat, n: nat)
    requires CutOk(c, lower, upper, n) && lower < upper
    ensures Contiguous(Finish(c, lower, upper), lower, upper) && 1 <= |Finish(c, lower, upper)| <= n
  {
    ContiguousBounds(c.ranges, lower, c.lower);
    if c.lower < upper {
      var t := Tiny(c.lower, upper, 0.0);
      assert [t][1..] == [] && Contiguous([t], c.lower, upper);
      ContiguousConcat(c.ranges, [t], lower, c.lower, upper);
      assert Finish(c, lower, upper) == c.ranges + [t];
    } else {
      assert Finish(c, lower, upper) == c.ranges;
    }
  }

  /** Any rates give non-empty ranges that tile exactly the keys from lower to upper, and at most
      as many as were asked for. */
  lemma {:induction false} TinyRangesTile(rates: seq<Rate>, total: real, lower: nat, upper: nat, n: nat)
    requires upper > lower + 1 && n > 1 && RatesOk(rates, lower, upper) && NoWrap(lower, upper, n)
    ensures var ranges := Constructed(rates, total, lower, upper, n);
      Contiguous(ranges, lower, upper) && 1 <= |ranges| <= n
  {
    var c := Start(total, lower, n);
    AddAllKeeps(c, rates, lower, upper, n);
    FinishTiles(AddAll(c, rates, n), lower, upper, n);
  }

  // ---------- and only then ----------

  /** Whatever the rates and the number of ranges, which is a 32-bit one, the result tiles
      [lower, upper). */
  ghost predicate AlwaysTiles(lower: nat, upper: nat) {
    forall rates, total, n :: 1 < n < WORD && RatesOk(rates, lower, upper) ==>
      && Contiguous(Constructed(rates, total, lower, upper, n), lower, upper)
      && |Constructed(rates, total, lower, upper, n)| <= n
  }

  lemma {:induction false} NonEmptyRanges(ranges: seq<Tiny>, lo: nat, hi: nat, k: nat)
    requires Contiguous(ranges, lo, hi) && k < |ranges|
    ensures ranges[k].lower < ranges[k].upper
  {
    if k > 0 {
      NonEmptyRanges(ranges[1..], ranges[0].upper, hi, k - 1);
    }
  }

  /** Two ranges, cut at a key whose truncation is not above the lower bound. */
  lemma {:induction false} TruncatedKey(lower: nat, upper: nat, key: nat)
    requires lower <= key < upper && upper > lower + 1 && WORD <= key && key % WORD <= lower
    ensures !AlwaysTiles(lower, upper)
  {
    var r := Rate(key, 1.0);
    var c := Start(1.0, lower, 2);
    var c', up := Add(c, r, 2), key % WORD;
    assert c'.ranges == [Tiny(lower % WORD, up, 0.0)] && c'.lower == up && c'.full;
    assert [r][1..] == [] && AddAll(c, [r], 2) == AddAll(c', [], 2) == c';
    assert Finish(c', lower, upper) == [Tiny(lower, up, 0.0), Tiny(up, upper, 0.0)];
    assert Constructed([r], 1.0, lower, upper, 2)[0].upper <= lower;
    assert RatesOk([r], lower, upper);
  }

  /** Every key below 2^32 inserted equally often. */
  ghost function EveryKey(lower: nat): seq<Rate>
    requires lower < WORD
  {
    seq(WORD - lower, i requires 0 <= i < WORD - lower => Rate(lower + i, 1.0))
  }

  lemma {:induction false} ShareBelowOne(left: real, n: real)
    requires 0.0 <= left < n
    ensures left / n < 1.0
  {
    assert (left / n) * n == left;
  }

  /** Then every key gets a range of its own. */
  ghost predicate OnePerKey(c: Cut, lower: nat, i: nat) {
    && c.lower == (lower + i) % WORD && c.rate == 0.0 && |c.ranges| == i
    && i < WORD - lower && c.left == (WORD - lower - i) as real && c.share < 1.0 && !c.full
  }

  lemma {:induction false} AddPoint(c: Cut, lower: nat, i: nat)
    requires lower < WORD && i < WORD - lower && OnePerKey(c, lower, i)
    ensures var n := WORD - lower + 1; var c' := Add(c, Rate(lower + i, 1.0), n);
      if i + 1 < WORD - lower then OnePerKey(c', lower, i + 1)
      else c'.full && c'.lower == 0 && |c'.ranges| == i + 1 && c'.ranges[i].upper == 0
  {
    var n := WORD - lower + 1;
    if i + 1 < WORD - lower {
      ShareBelowOne((WORD - lower - i - 1) as real, (n - (i + 1)) as real);
    }
  }

  lemma {:induction false} AddAllPoints(c: Cut, lower: nat, i: nat)
    requires lower < WORD && i < WORD - lower && OnePerKey(c, lower, i)
    ensures var n := WORD - lower + 1; var c' := AddAll(c, EveryKey(lower)[i..], n);
      c'.lower == 0 && |c'.ranges| == WORD - lower && c'.ranges[WORD - lower - 1].upper == 0
    decreases WORD - lower - i
  {
    var n := WORD - lower + 1;
    var rates := EveryKey(lower)[i..];
    assert rates[0] == Rate(lower + i, 1.0) && rates[1..] == EveryKey(lower)[i + 1..];
    AddPoint(c, lower, i);
    if i + 1 < WORD - lower {
      AddAllPoints(Add(c, rates[0], n), lower, i + 1);
    }
  }

  /** At 2^32 itself the upper bound of the last key's range wraps around, if that many ranges can be
      asked for. */
  lemma {:induction false} LastKeyWraps(lower: nat)
    requires 1 < lower < WORD - 1
    ensures !AlwaysTiles(lower, WORD)
  {
    var n, rates := WORD - lower + 1, EveryKey(lower);
    var total := (WORD - lower) as real;
    var c := Start(total, lower, n);
    ShareBelowOne(total, n as real);
    assert rates[0..] == rates;
    AddAllPoints(c, lower, 0);
    var c' := AddAll(c, rates, n);
    var ranges := Constructed(rates, total, lower, WORD, n);
    var last := WORD - lower - 1;
    assert ranges[last].upper == 0;
    if Contiguous(ranges, lower, WORD) {
      NonEmptyRanges(ranges, lower, WORD, last);
    }
    assert RatesOk(rates, lower, WORD);
  }

  /** The ranges always tile the subrange if and only if its upper bound fits into 32 bits, or is the
      first that does not and every key from 1 on is below it. */
  lemma {:induction false} TinyRangesTileIff(lower: nat, upper: nat)
    requires upper > lower + 1
    ensures AlwaysTiles(lower, upper) <==> upper < WORD || (upper == WORD && lower <= 1)
  {
    hide Constructed, Contiguous, RatesOk;
    if upper < WORD || (upper == WORD && lower <= 1) {
      forall rates, total, n | 1 < n < WORD && RatesOk(rates, lower, upper)
        ensures Contiguous(Constructed(rates, total, lower, upper, n), lower, upper)
        ensures |Constructed(rates, total, lower, upper, n)| <= n
      {
        TinyRangesTile(rates, total, lower, upper, n);
      }
    } else if upper == WORD {
      LastKeyWraps(lower);
    } else if lower <= WORD {
      TruncatedKey(lower, upper, WORD);
    } else {
      assert (lower + 1) % WORD <= lower;
      TruncatedKey(lower, upper, lower + 1);
    }
  }

  // ---------- what a sampling does to the inserts ----------

  function RateSum(rates: seq<Rate>): real {
    if rates == [] then 0.0 else RateSum(rates[..|rates| - 1]) + rates[|rates| - 1].rate
  }

  function Sum(xs: seq<real>): real {
    if xs == [] then 0.0 else Sum(xs[..|xs| - 1]) + xs[|xs| - 1]
  }

  /** Every key was seen. */
  ghost predicate AllPositive(rates: seq<Rate>) {
    forall i :: 0 <= i < |rates| ==> rates[i].rate > 0.0
  }

  /** What is recorded never includes the last key, and with what is gathered is at most what was seen. */
  ghost predicate Covers(c: Cut, seen: real) {
    |c.gathered| == |c.ranges| && (!c.full ==> Sum(c.gathered) + c.rate <= seen)
  }

  lemma {:induction false} SumAppend(xs: seq<real>, x: real)
    ensures Sum(xs + [x]) == Sum(xs) + x
  {
    assert (xs + [x])[..|xs|] == xs;
  }

  lemma {:induction false} AddCovers(c: Cut, r: Rate, n: nat, seen: real)
    requires Covers(c, seen) && !c.full && c.rate >= 0.0 && r.rate > 0.0
    ensures Covers(Add(c, r, n), seen + r.rate) && Add(c, r, n).rate >= 0.0 && Sum(Add(c, r, n).gathered) <= seen
  {
    SumAppend(c.gathered, c.rate);
  }

  lemma {:induction false} RateSumFirst(rates: seq<Rate>)
    requires rates != []
    ensures RateSum(rates) == rates[0].rate + RateSum(rates[1..])
  {
    if |rates| > 1 {
      RateSumFirst(rates[..|rates| - 1]);
      assert rates[..|rates| - 1][1..] == rates[1..][..|rates| - 2];
    } else {
      assert rates[..0] == [] && rates[1..] == [];
    }
  }

  lemma {:induction false} RateSumPositive(rates: seq<Rate>)
    requires AllPositive(rates)
    ensures RateSum(rates) >= 0.0 && (rates != [] ==> RateSum(rates) > 0.0)
  {
    if rates != [] {
      RateSumPositive(rates[..|rates| - 1]);
    }
  }

  /** Not everything that was seen is recorded. */
  lemma {:induction false} AddAllLoses(c: Cut, rates: seq<Rate>, n: nat, seen: real)
    requires Covers(c, seen) && c.rate >= 0.0 && Sum(c.gathered) <= seen && AllPositive(rates)
    ensures var c' := AddAll(c, rates, n);
      |c'.gathered| == |c'.ranges| && Sum(c'.gathered) <= seen + RateSum(rates)
    ensures rates != [] && !c.full ==> Sum(AddAll(c, rates, n).gathered) < seen + RateSum(rates)
    decreases |rates|
  {
    RateSumPositive(rates);
    if rates != [] && !c.full {
      AddCovers(c, rates[0], n, seen);
      RateSumFirst(rates);
      var c1, rest := Add(c, rates[0], n), rates[1..];
      RateSumPositive(rest);
      hide Add;
      AddAllLoses(c1, rest, n, seen + rates[0].rate);
      if rest == [] || c1.full {
        assert AddAll(c1, rest, n) == c1;
      }
    }
  }

  lemma {:induction false} GatheredLoses(rates: seq<Rate>, lower: nat, upper: nat, n: nat)
    requires n > 0 && rates != [] && AllPositive(rates)
    ensures var total := RateSum(rates);
      && |Gathered(rates, total, lower, upper, n)| == |Constructed(rates, total, lower, upper, n)|
      && Sum(Gathered(rates, total, lower, upper, n)) < total
  {
    var total := RateSum(rates);
    var c := Start(total, lower, n);
    AddAllLoses(c, rates, n, 0.0);
    var c' := AddAll(c, rates, n);
    SumAppend(c'.gathered, 0.0);
  }

  /** Every range gets its ratio of the inserts. */
  function WithInserts(ranges: seq<Tiny>, gathered: seq<real>, total: real, inserts: real): seq<Tiny>
    requires |ranges| == |gathered| && total > 0.0
  {
    seq(|ranges|, i requires 0 <= i < |ranges| => ranges[i].(ninserts := gathered[i] / total * inserts))
  }

  lemma {:induction false} InsertsTotal(ranges: seq<Tiny>, gathered: seq<real>, total: real, inserts: real)
    requires |ranges| == |gathered| && total > 0.0
    ensures TinyTotal(WithInserts(ranges, gathered, total, inserts)) == Sum(gathered) / total * inserts
  {
    if ranges != [] {
      var n := |ranges| - 1;
      var w := WithInserts(ranges, gathered, total, inserts);
      InsertsTotal(ranges[..n], gathered[..n], total, inserts);
      InsertsPrefix(ranges, gathered, total, inserts, n);
      Distribute(Sum(gathered[..n]), gathered[n], total, inserts);
    }
  }

  lemma {:induction false} InsertsPrefix(ranges: seq<Tiny>, gathered: seq<real>, total: real, inserts: real, n: nat)
    requires |ranges| == |gathered| && total > 0.0 && n < |ranges|
    ensures WithInserts(ranges, gathered, total, inserts)[..n]
         == WithInserts(ranges[..n], gathered[..n], total, inserts)
  {
    var w, w' := WithInserts(ranges, gathered, total, inserts), WithInserts(ranges[..n], gathered[..n], total, inserts);
    forall i | 0 <= i < n
      ensures w[i] == w'[i]
    {
      assert ranges[..n][i] == ranges[i] && gathered[..n][i] == gathered[i];
    }
  }

  lemma {:induction false} Distribute(a: real, b: real, t: real, x: real)
    requires t > 0.0
    ensures (a + b) / t * x == a / t * x + b / t * x
  {
    assert (a + b) / t == a / t + b / t;
  }

  lemma {:induction false} SameBounds(a: seq<Tiny>, b: seq<Tiny>, lo: nat, hi: nat)
    requires |a| == |b| && forall i :: 0 <= i < |a| ==> a[i].lower == b[i].lower && a[i].upper == b[i].upper
    ensures Contiguous(a, lo, hi) <==> Contiguous(b, lo, hi)
    decreases |a|
  {
    if a != [] {
      SameBounds(a[1..], b[1..], a[0].upper, hi);
    }
  }

  lemma {:induction false} LessThanWhole(part: real, total: real, inserts: real)
    requires part < total && total > 0.0
    ensures part / total * inserts == inserts <==> inserts == 0.0
  {
    var q := part / total;
    assert q * total == part;
    assert q < 1.0;
    assert q * inserts - inserts == (q - 1.0) * inserts;
  }

  lemma {:induction false} KeysFit(rates: seq<Rate>, lower: nat, upper: nat)
    requires RatesOk(rates, lower, upper) && rates != []
    ensures |rates| <= upper - lower && rates[|rates| - 1].key >= lower + |rates| - 1
  {
    if |rates| > 1 {
      var m := |rates| - 2;
      KeysFit(rates[..|rates| - 1], lower, upper);
      assert rates[..|rates| - 1][m] == rates[m] && rates[m].key < rates[m + 1].key;
    }
  }

  /** The ratio of a tiny range, of all inserts, differs by more than 20 percent from a fair one. */
  predicate IsUnfair(t: Tiny, fair: real, all: real)
    requires fair > 0.0 && all > 0.0
  {
    var diff := (t.ninserts / all - fair) * 100.0 / fair;
    diff > 20.0 || diff < -20.0
  }

  function Unfair(tiny: seq<Tiny>, fair: real, all: real): nat
    requires fair > 0.0 && all > 0.0
  {
    if tiny == [] then 0
    else Unfair(tiny[..|tiny| - 1], fair, all) + if IsUnfair(tiny[|tiny| - 1], fair, all) then 1 else 0
  }

  /** More than 30 percent of the tiny ranges are unfair. */
  predicate NeedsSampling(tiny: seq<Tiny>, all: real)
    requires tiny != [] && all > 0.0
  {
    Unfair(tiny, 1.0 / |tiny| as real, all) as real / |tiny| as real > 0.3
  }

  /** The tiny ranges whose ratio is below 80 or above 120 percent of an even one. */
  ghost function UnevenOnes(tiny: seq<Tiny>, even: real, all: real): set<nat>
    requires even > 0.0 && all > 0.0
  {
    set i: nat | i < |tiny| && !(0.8 * even <= tiny[i].ninserts / all <= 1.2 * even)
  }

  lemma {:induction false} UnfairMeans(t: Tiny, fair: real, all: real)
    requires fair > 0.0 && all > 0.0
    ensures IsUnfair(t, fair, all) <==> !(0.8 * fair <= t.ninserts / all <= 1.2 * fair)
  {
    var ratio := t.ninserts / all;
    var diff := (ratio - fair) * 100.0 / fair;
    assert diff * fair == (ratio - fair) * 100.0;
    OrderPreserved(diff, 20.0, fair);
    OrderPreserved(-20.0, diff, fair);
  }

  lemma {:induction false} OrderPreserved(a: real, b: real, c: real)
    requires c > 0.0
    ensures a > b <==> a * c > b * c
  {
  }

  lemma {:induction false} UnfairCounts(tiny: seq<Tiny>, fair: real, all: real)
    requires fair > 0.0 && all > 0.0
    ensures Unfair(tiny, fair, all) == |UnevenOnes(tiny, fair, all)|
  {
    hide IsUnfair;
    if tiny != [] {
      var n := |tiny| - 1;
      UnfairCounts(tiny[..n], fair, all);
      UnfairMeans(tiny[n], fair, all);
      var more := UnevenOnes(tiny[..n], fair, all);
      assert n !in more;
      assert UnevenOnes(tiny, fair, all) == if IsUnfair(tiny[n], fair, all) then more + {n} else more;
    }
  }

  method CheckFairness(tiny: seq<Tiny>, all: real) returns (yes: bool)
    requires tiny != [] && all > 0.0
    ensures yes <==> NeedsSampling(tiny, all)
    ensures yes <==> |UnevenOnes(tiny, 1.0 / |tiny| as real, all)| as real / |tiny| as real > 0.3
  {
    UnfairCounts(tiny, 1.0 / |tiny| as real, all);
    hide IsUnfair;
    var fair, unfair := 1.0 / |tiny| as real, 0;
    for i := 0 to |tiny|
      invariant unfair == Unfair(tiny[..i], fair, all)
    {
      assert tiny[..i + 1][..i] == tiny[..i];
      if IsUnfair(tiny[i], fair, all) {
        unfair := unfair + 1;
      }
    }
    assert tiny[..|tiny|] == tiny;
    yes := unfair as real / |tiny| as real > 0.3;
  }

  /** Rates sampled from the memtables of a subrange over [lo, hi), and their sum. */
  ghost predicate Samples(rates: seq<Rate>, total: real, lo: nat, hi: nat) {
    RatesOk(rates, lo, hi) && AllPositive(rates) && total == RateSum(rates)
  }

  /** Cut a subrange anew by the rates sampled from its memtables.  Every sampling loses inserts, if
      there are any: the last range gets none, and neither does the key at a cut. */
  method MinorSampling(sub: Sub, ghost lo: nat, ghost hi: nat, all: real, rates: seq<Rate>, total: real, n: nat)
    returns (sampled: bool, sub': Sub)
    requires sub.tiny != [] && Contiguous(sub.tiny, lo, hi) && all > 0.0 && n > 1
    requires Samples(rates, total, lo, hi)
    ensures sampled <==> NeedsSampling(sub.tiny, all) && |rates| > 2 * n && total > 100.0
    ensures !sampled ==> sub' == sub
    ensures sampled ==>
      var ranges, gathered := Constructed(rates, total, lo, hi, n), Gathered(rates, total, lo, hi, n);
      |gathered| == |ranges| && sub' == sub.(tiny := WithInserts(ranges, gathered, total, TinyTotal(sub.tiny)))
    ensures NoWrap(lo, hi, n) ==> Contiguous(sub'.tiny, lo, hi)
    ensures TinyTotal(sub'.tiny) == TinyTotal(sub.tiny) <==> !sampled || TinyTotal(sub.tiny) == 0.0
  {
    hide TinyTotal, Constructed, Gathered, RateSum, NeedsSampling;
    sampled, sub' := false, sub;
    var unfair := CheckFairness(sub.tiny, all);
    if !unfair {
      return;
    }
    if |rates| <= 2 * n || total <= 100.0 {
      return;
    }
    KeysFit(rates, lo, hi);
    ContiguousBounds(sub.tiny, lo, hi);
    ContiguousEnds(sub.tiny, lo, hi);
    var inserts := TinyTotal(sub.tiny);
    var ranges, gathered := ConstructRanges(rates, total, sub.tiny[0].lower, sub.tiny[|sub.tiny| - 1].upper, n);
    GatheredLoses(rates, lo, hi, n);
    sampled, sub' := true, sub.(tiny := WithInserts(ranges, gathered, total, inserts));
    InsertsTotal(ranges, gathered, total, inserts);
    LessThanWhole(Sum(gathered), total, inserts);
    if NoWrap(lo, hi, n) {
      TinyRangesTile(rates, total, lo, hi, n);
      SameBounds(sub'.tiny, ranges, lo, hi);
    }
  }

  lemma {:induction false} ContiguousEnds(tiny: seq<Tiny>, lo: nat, hi: nat)
    requires Contiguous(tiny, lo, hi) && tiny != []
    ensures tiny[0].lower == lo && tiny[|tiny| - 1].upper == hi
  {
    if |tiny| > 1 {
      ContiguousEnds(tiny[1..], tiny[0].upper, hi);
    }
  }
}
