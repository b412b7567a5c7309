/** Where a subrange is cut into tiny ranges, and what is recorded for each of them: the sampled rate
    of its keys, measured against a share of the rate that was left when it began. */
module TinyRangeShares {
  import opened Subranges
  import opened TinyRanges

  /** The rate of the keys from lo up to hi. */
  function RateIn(rates: seq<Rate>, lo: nat, hi: nat): real {
    if rates == [] then 0.0
    else
      var r := rates[|rates| - 1];
      RateIn(rates[..|rates| - 1], lo, hi) + if lo <= r.key < hi then r.rate else 0.0
  }

  /** What each of the ranges from the i-th on would get, if they could share the rest evenly. */
  function Share(rates: seq<Rate>, upper: nat, n: nat, lower: nat, i: nat): real
    requires i < n
  {
    RateIn(rates, lower, upper) / (n - i) as real
  }

  /** The i-th range is one hot key by itself, and so are those before it. */
  ghost predicate Alone(rates: seq<Rate>, upper: nat, n: nat, ranges: seq<Tiny>, i: nat)
    requires i < |ranges| && i < n
  {
    && (i > 0 ==> Alone(rates, upper, n, ranges, i - 1))
    && RateIn(rates, ranges[i].lower, ranges[i].lower + 1) > Share(rates, upper, n, ranges[i].lower, i)
  }

  /** All ranges before the i-th are single hot keys; otherwise the i-th range begins with the key
      that was too much for the one before. */
  ghost predicate Fresh(rates: seq<Rate>, upper: nat, n: nat, ranges: seq<Tiny>, i: nat)
    requires i <= |ranges| && i < n
  {
    i > 0 ==> Alone(rates, upper, n, ranges, i - 1)
  }

  /** Each key that joined a range, up to `to`, kept it within its share. */
  ghost predicate Within(rates: seq<Rate>, upper: nat, n: nat, lower: nat, i: nat, first: bool, to: nat)
    requires i < n
  {
    forall x :: 0 <= x < |rates| && rates[x].key < to && (lower < rates[x].key || (first && lower == rates[x].key)) ==>
      RateIn(rates, lower, rates[x].key + 1) <= Share(rates, upper, n, lower, i)
  }

  /** A range is a hot key, for which nothing is recorded, or it ends before the first key that would
      exceed its share and has the rate of all its keys. */
  ghost predicate CutRight(rates: seq<Rate>, upper: nat, n: nat, ranges: seq<Tiny>, gathered: seq<real>, i: nat)
    requires i < |ranges| == |gathered| && i < n
  {
    var t := ranges[i];
    if Alone(rates, upper, n, ranges, i) then t.upper == t.lower + 1 && gathered[i] == 0.0
    else
      && gathered[i] == RateIn(rates, t.lower, t.upper) && (exists x :: 0 <= x < |rates| && rates[x].key == t.upper)
      && RateIn(rates, t.lower, t.upper + 1) > Share(rates, upper, n, t.lower, i)
      && Within(rates, upper, n, t.lower, i, Fresh(rates, upper, n, ranges, i), t.upper)
  }

  // ---------- sums over keys ----------

  lemma {:induction false} RateInConcat(a: seq<Rate>, b: seq<Rate>, lo: nat, hi: nat)
    ensures RateIn(a + b, lo, hi) == RateIn(a, lo, hi) + RateIn(b, lo, hi)
  {
    if b == [] {
      assert a + b == a;
    } else {
      assert (a + b)[..|a + b| - 1] == a + b[..|b| - 1];
      RateInConcat(a, b[..|b| - 1], lo, hi);
    }
  }

  lemma {:induction false} RateInNone(rates: seq<Rate>, lo: nat, hi: nat)
    requires forall x :: 0 <= x < |rates| ==> !(lo <= rates[x].key < hi)
    ensures RateIn(rates, lo, hi) == 0.0
  {
    if rates != [] {
      RateInNone(rates[..|rates| - 1], lo, hi);
    }
  }

  lemma {:induction false} RateInAll(rates: seq<Rate>, lo: nat, hi: nat)
    requires forall x :: 0 <= x < |rates| ==> lo <= rates[x].key < hi
    ensures RateIn(rates, lo, hi) == RateSum(rates)
  {
    if rates != [] {
      RateInAll(rates[..|rates| - 1], lo, hi);
    }
  }

  lemma {:induction false} RateInSame(rates: seq<Rate>, lo: nat, hi: nat, lo': nat, hi': nat)
    requires forall x :: 0 <= x < |rates| ==> (lo <= rates[x].key < hi <==> lo' <= rates[x].key < hi')
    ensures RateIn(rates, lo, hi) == RateIn(rates, lo', hi')
  {
    if rates != [] {
      RateInSame(rates[..|rates| - 1], lo, hi, lo', hi');
    }
  }

  lemma {:induction false} RateInNonNegative(rates: seq<Rate>, lo: nat, hi: nat)
    requires AllPositive(rates)
    ensures RateIn(rates, lo, hi) >= 0.0
  {
    if rates != [] {
      RateInNonNegative(rates[..|rates| - 1], lo, hi);
    }
  }

  /** The keys before the j-th. */
  lemma {:induction false} RateInBefore(rates: seq<Rate>, lower: nat, upper: nat, j: nat, lo: nat)
    requires RatesOk(rates, lower, upper) && j < |rates| && lo <= rates[j].key
    ensures RateIn(rates, lo, rates[j].key) == RateIn(rates[..j], lo, upper)
  {
    hide RateIn;
    assert rates == rates[..j] + rates[j..];
    RateInConcat(rates[..j], rates[j..], lo, rates[j].key);
    RateInNone(rates[j..], lo, rates[j].key);
    RateInSame(rates[..j], lo, rates[j].key, lo, upper);
  }

  /** And with the j-th. */
  lemma {:induction false} RateInUpTo(rates: seq<Rate>, lower: nat, upper: nat, j: nat, lo: nat)
    requires RatesOk(rates, lower, upper) && j < |rates| && lo <= rates[j].key
    ensures RateIn(rates, lo, rates[j].key + 1) == RateIn(rates[..j + 1], lo, upper)
    ensures RateIn(rates[..j + 1], lo, upper) == RateIn(rates[..j], lo, upper) + rates[j].rate
  {
    hide RateIn;
    var a, b := rates[..j + 1], rates[j + 1..];
    assert rates == a + b;
    RateInConcat(a, b, lo, rates[j].key + 1);
    RateInNone(b, lo, rates[j].key + 1);
    RateInSame(a, lo, rates[j].key + 1, lo, upper);
    assert a == rates[..j] + [rates[j]];
    RateInConcat(rates[..j], [rates[j]], lo, upper);
    RateInOne(rates[j], lo, upper);
  }

  /** And those from the j-th on. */
  lemma {:induction false} RateInFrom(rates: seq<Rate>, lower: nat, upper: nat, j: nat, lo: nat)
    requires RatesOk(rates, lower, upper) && j <= |rates| && (j < |rates| ==> lo <= rates[j].key)
    ensures RateIn(rates, lo, upper) == RateIn(rates[..j], lo, upper) + RateSum(rates[j..])
  {
    hide RateIn;
    assert rates == rates[..j] + rates[j..];
    RateInConcat(rates[..j], rates[j..], lo, upper);
    RateInAll(rates[j..], lo, upper);
  }

  lemma {:induction false} RateInOne(r: Rate, lo: nat, hi: nat)
    ensures RateIn([r], lo, hi) == if lo <= r.key < hi then r.rate else 0.0
  {
    assert [r][..0] == [];
  }

  // ---------- cutting ----------

  /** After the first j keys, with k ranges cut. */
  ghost predicate Gathers(c: Cut, rates: seq<Rate>, j: nat, upper: nat, n: nat) {
    var k := |c.ranges|;
    && j <= |rates| && !c.full && |c.gathered| == k && k + 1 < n
    && (j < |rates| ==> c.lower <= rates[j].key)
    && c.rate == RateIn(rates[..j], c.lower, upper) && c.left == RateSum(rates[j..])
    && c.share == Share(rates, upper, n, c.lower, k)
    && AllRight(c, rates, upper, n)
    && var first := Fresh(rates, upper, n, c.ranges, k);
       && (!first ==> j > 0 && c.lower <= rates[j - 1].key)
       && JoinedWithin(rates, j, upper, n, c.lower, k, first)
  }

  ghost predicate JoinedWithin(rates: seq<Rate>, j: nat, upper: nat, n: nat, lower: nat, i: nat, first: bool)
    requires j <= |rates| && i < n
  {
    forall x :: 0 <= x < j && (lower < rates[x].key || (first && lower == rates[x].key)) ==>
      RateIn(rates, lower, rates[x].key + 1) <= Share(rates, upper, n, lower, i)
  }

  ghost predicate AllRight(c: Cut, rates: seq<Rate>, upper: nat, n: nat) {
    && |c.gathered| == |c.ranges| < n
    && forall i :: 0 <= i < |c.ranges| ==> CutRight(rates, upper, n, c.ranges, c.gathered, i)
  }

  /** Whether a range is alone depends on where it and those before it begin. */
  lemma {:induction false} SameAlone(rates: seq<Rate>, upper: nat, n: nat, a: seq<Tiny>, b: seq<Tiny>, i: nat)
    requires i < |a| && i < |b| && i < n && forall x :: 0 <= x <= i ==> a[x].lower == b[x].lower
    ensures Alone(rates, upper, n, a, i) <==> Alone(rates, upper, n, b, i)
  {
    if i > 0 {
      SameAlone(rates, upper, n, a, b, i - 1);
    }
  }

  lemma {:induction false} SameCut(rates: seq<Rate>, upper: nat, n: nat, a: seq<Tiny>, b: seq<Tiny>, x: seq<real>,
                                   y: seq<real>, i: nat)
    requires i < |a| == |x| && i < |b| == |y| && i < n && x[i] == y[i] && a[i].upper == b[i].upper
    requires forall k :: 0 <= k <= i ==> a[k].lower == b[k].lower
    ensures CutRight(rates, upper, n, a, x, i) <==> CutRight(rates, upper, n, b, y, i)
  {
    hide Alone, Within, RateIn;
    SameAlone(rates, upper, n, a, b, i);
    if i > 0 {
      SameAlone(rates, upper, n, a, b, i - 1);
    }
  }

  /** One more range. */
  lemma {:induction false} CutAppends(c: Cut, rates: seq<Rate>, upper: nat, n: nat, t: Tiny, g: real, c': Cut)
    requires AllRight(c, rates, upper, n) && |c.ranges| + 1 < n
    requires c'.ranges == c.ranges + [t] && c'.gathered == c.gathered + [g]
    requires CutRight(rates, upper, n, c'.ranges, c'.gathered, |c.ranges|)
    ensures AllRight(c', rates, upper, n)
  {
    hide CutRight;
    forall i | 0 <= i < |c'.ranges|
      ensures CutRight(rates, upper, n, c'.ranges, c'.gathered, i)
    {
      if i < |c.ranges| {
        SameCut(rates, upper, n, c.ranges, c'.ranges, c.gathered, c'.gathered, i);
      }
    }
  }

  lemma {:induction false} SameFresh(rates: seq<Rate>, upper: nat, n: nat, ranges: seq<Tiny>, t: Tiny)
    requires |ranges| < n
    ensures Fresh(rates, upper, n, ranges + [t], |ranges|) <==> Fresh(rates, upper, n, ranges, |ranges|)
  {
    if ranges != [] {
      SameAlone(rates, upper, n, ranges, ranges + [t], |ranges| - 1);
    }
  }

  /** A key that is where the range begins, and too much for it, is alone. */
  lemma {:induction false} PointIsRight(c: Cut, rates: seq<Rate>, j: nat, lower: nat, upper: nat, n: nat)
    requires RatesOk(rates, lower, upper) && Gathers(c, rates, j, upper, n) && j < |rates|
    requires c.lower == rates[j].key && c.rate + rates[j].rate > c.share
    ensures var k, t := |c.ranges|, Tiny(c.lower, c.lower + 1, 0.0);
      && Alone(rates, upper, n, c.ranges + [t], k)
      && CutRight(rates, upper, n, c.ranges + [t], c.gathered + [c.rate], k)
  {
    hide RateIn;
    RateInNone(rates[..j], c.lower, upper);
    RateInUpTo(rates, lower, upper, j, c.lower);
    SameFresh(rates, upper, n, c.ranges, Tiny(c.lower, c.lower + 1, 0.0));
  }

  lemma {:induction false} ShareNonNegative(rates: seq<Rate>, upper: nat, n: nat, lower: nat, i: nat)
    requires AllPositive(rates) && i < n
    ensures Share(rates, upper, n, lower, i) >= 0.0
  {
    RateInNonNegative(rates, lower, upper);
    var a, b := RateIn(rates, lower, upper), (n - i) as real;
    assert (a / b) * b == a;
  }

  /** The range that is being cut, before a later key that is too much, is not one key alone. */
  lemma {:induction false} NotAlone(c: Cut, rates: seq<Rate>, j: nat, lower: nat, upper: nat, n: nat, t: Tiny)
    requires RatesOk(rates, lower, upper) && AllPositive(rates) && Gathers(c, rates, j, upper, n) && j < |rates|
    requires c.lower < rates[j].key && t.lower == c.lower
    ensures !Alone(rates, upper, n, c.ranges + [t], |c.ranges|)
  {
    hide RateIn, Share;
    SameFresh(rates, upper, n, c.ranges, t);
    ShareNonNegative(rates, upper, n, c.lower, |c.ranges|);
    if x :| 0 <= x < |rates| && rates[x].key == c.lower {
      assert x < j;
    } else {
      RateInNone(rates, c.lower, c.lower + 1);
    }
  }

  lemma {:induction false} StopIsRight(c: Cut, rates: seq<Rate>, j: nat, lower: nat, upper: nat, n: nat)
    requires RatesOk(rates, lower, upper) && AllPositive(rates) && Gathers(c, rates, j, upper, n) && j < |rates|
    requires c.lower < rates[j].key && c.rate + rates[j].rate > c.share
    ensures var k, t := |c.ranges|, Tiny(c.lower, rates[j].key, 0.0);
      && !Alone(rates, upper, n, c.ranges + [t], k)
      && CutRight(rates, upper, n, c.ranges + [t], c.gathered + [c.rate], k)
  {
    hide RateIn, Share, Alone, AllRight;
    var t := Tiny(c.lower, rates[j].key, 0.0);
    RateInBefore(rates, lower, upper, j, c.lower);
    RateInUpTo(rates, lower, upper, j, c.lower);
    SameFresh(rates, upper, n, c.ranges, t);
    NotAlone(c, rates, j, lower, upper, n, t);
    assert forall x :: 0 <= x < |rates| && rates[x].key < t.upper ==> x < j;
  }

  /** A key joins the range. */
  lemma {:induction false} JoinGathers(c: Cut, rates: seq<Rate>, j: nat, lower: nat, upper: nat, n: nat)
    requires RatesOk(rates, lower, upper) && Gathers(c, rates, j, upper, n) && j < |rates|
    requires c.rate + rates[j].rate <= c.share
    ensures Gathers(Add(c, rates[j], n), rates, j + 1, upper, n)
  {
    hide RateIn, Share, Alone, CutRight;
    RateInUpTo(rates, lower, upper, j, c.lower);
    RateSumFirst(rates[j..]);
    assert rates[j..][1..] == rates[j + 1..];
  }

  lemma {:induction false} NextLeft(rates: seq<Rate>, lower: nat, upper: nat, j: nat, lo: nat)
    requires RatesOk(rates, lower, upper) && j < |rates| && rates[j].key <= lo <= rates[j].key + 1
    ensures RateSum(rates[j..]) == rates[j].rate + RateSum(rates[j + 1..])
    ensures RateIn(rates, lo, upper) == if lo == rates[j].key then RateSum(rates[j..]) else RateSum(rates[j + 1..])
    ensures RateIn(rates[..j + 1], lo, upper) == if lo == rates[j].key then rates[j].rate else 0.0
  {
    hide RateIn;
    RateSumFirst(rates[j..]);
    assert rates[j..][1..] == rates[j + 1..];
    RateInNone(rates[..j], lo, upper);
    if lo == rates[j].key {
      RateInFrom(rates, lower, upper, j, lo);
      RateInUpTo(rates, lower, upper, j, lo);
    } else {
      RateInNone(rates[..j + 1], lo, upper);
      RateInFrom(rates, lower, upper, j + 1, lo);
    }
  }

  /** A range was cut and another begins. */
  lemma {:induction false} CutGathers(c: Cut, c': Cut, rates: seq<Rate>, j: nat, lower: nat, upper: nat, n: nat)
    requires RatesOk(rates, lower, upper) && AllPositive(rates) && Gathers(c, rates, j, upper, n) && j < |rates|
    requires c.lower <= rates[j].key && c.rate + rates[j].rate > c.share
    requires c' == Add(c, rates[j], n)
    requires c'.lower == if c.lower == rates[j].key then rates[j].key + 1 else rates[j].key
    ensures AllRight(c', rates, upper, n)
    ensures if c'.full then |c'.ranges| + 1 == n else Gathers(c', rates, j + 1, upper, n)
  {
    hide RateIn, Alone, CutRight;
    var t := Tiny(c.lower, c'.lower, 0.0);
    if c.lower == rates[j].key {
      PointIsRight(c, rates, j, lower, upper, n);
    } else {
      StopIsRight(c, rates, j, lower, upper, n);
    }
    CutAppends(c, rates, upper, n, t, c.rate, c');
    NextLeft(rates, lower, upper, j, c'.lower);
  }

  // ---------- all keys ----------

  /** No bound has wrapped around: the next range begins at the key, or one behind it. */
  lemma {:induction false} NextLower(c: Cut, r: Rate, lower: nat, upper: nat, n: nat)
    requires CutOk(c, lower, upper, n) && !c.full && r.key < upper && NoWrap(lower, upper, n) && Dense(c, lower, r.key)
    requires c.rate + r.rate > c.share
    ensures Add(c, r, n).lower == if c.lower == r.key then r.key + 1 else r.key
  {
    AddKeeps(c, r, lower, upper, n);
    var c' := Add(c, r, n);
    ContiguousBounds(c'.ranges, lower, c'.lower);
  }

  lemma {:induction false} AddAllGathers(c: Cut, rates: seq<Rate>, j: nat, lower: nat, upper: nat, n: nat)
    requires RatesOk(rates, lower, upper) && AllPositive(rates) && NoWrap(lower, upper, n)
    requires Gathers(c, rates, j, upper, n) && CutOk(c, lower, upper, n)
    requires j < |rates| ==> Dense(c, lower, rates[j].key)
    ensures var c' := AddAll(c, rates[j..], n);
      && AllRight(c', rates, upper, n) && CutOk(c', lower, upper, n)
      && if c'.full then |c'.ranges| + 1 == n else Gathers(c', rates, |rates|, upper, n)
    decreases |rates| - j
  {
    hide Add, CutOk, AllRight, Dense;
    if j < |rates| {
      var r := rates[j];
      var c' := Add(c, r, n);
      AddKeeps(c, r, lower, upper, n);
      assert rates[j..][0] == r && rates[j..][1..] == rates[j + 1..];
      if c.rate + r.rate <= c.share {
        JoinGathers(c, rates, j, lower, upper, n);
        AddAllGathers(c', rates, j + 1, lower, upper, n);
      } else {
        NextLower(c, r, lower, upper, n);
        CutGathers(c, c', rates, j, lower, upper, n);
        if !c'.full {
          AddAllGathers(c', rates, j + 1, lower, upper, n);
        } else {
          assert AddAll(c', rates[j + 1..], n) == c';
        }
      }
    }
  }

  lemma {:induction false} StartGathers(rates: seq<Rate>, lower: nat, upper: nat, n: nat)
    requires upper > lower + 1 && n > 1 && RatesOk(rates, lower, upper) && NoWrap(lower, upper, n)
    ensures var c := Start(RateSum(rates), lower, n);
      && c.lower == lower && Gathers(c, rates, 0, upper, n) && CutOk(c, lower, upper, n)
      && (rates != [] ==> Dense(c, lower, rates[0].key))
  {
    RateInFrom(rates, lower, upper, 0, lower);
    assert rates[..0] == [] && rates[0..] == rates;
  }

  /** The last range has nothing recorded.  It takes the rest when as many ranges were cut as were
      asked for, or the remaining keys fit, or the last key was alone. */
  ghost predicate LastRight(rates: seq<Rate>, upper: nat, n: nat, ranges: seq<Tiny>, gathered: seq<real>)
    requires 0 < |ranges| == |gathered| && |ranges| <= n
  {
    var i := |ranges| - 1;
    var t := ranges[i];
    && gathered[i] == 0.0 && t.upper == upper
    && (|| |ranges| == n
        || Within(rates, upper, n, t.lower, i, Fresh(rates, upper, n, ranges, i), upper)
        || (Alone(rates, upper, n, ranges, i) && upper == t.lower + 1))
  }

  /** The cut of a subrange by sampled rates: every range but the last gets keys while they fit into its
      share, and what is recorded for it is the rate of its keys, except that a hot key at the very
      beginning gets a range of its own and nothing recorded. */
  lemma {:induction false} RangesGetTheirShare(rates: seq<Rate>, lower: nat, upper: nat, n: nat)
    requires upper > lower + 1 && n > 1 && RatesOk(rates, lower, upper) && AllPositive(rates)
      && NoWrap(lower, upper, n)
    ensures var total := RateSum(rates);
      var ranges, gathered := Constructed(rates, total, lower, upper, n), Gathered(rates, total, lower, upper, n);
      && 0 < |ranges| == |gathered| && |ranges| <= n
      && (forall i :: 0 <= i < |ranges| - 1 ==> CutRight(rates, upper, n, ranges, gathered, i))
      && LastRight(rates, upper, n, ranges, gathered)
  {
    hide Gathers, CutOk, Dense, CutRight, Alone, Within;
    var total := RateSum(rates);
    var c := Start(total, lower, n);
    StartGathers(rates, lower, upper, n);
    assert rates[0..] == rates;
    AddAllGathers(c, rates, 0, lower, upper, n);
    var c' := AddAll(c, rates, n);
    FinishRight(c', rates, lower, upper, n);
  }

  lemma {:induction false} FinishRight(c: Cut, rates: seq<Rate>, lower: nat, upper: nat, n: nat)
    requires upper > lower && RatesOk(rates, lower, upper) && AllRight(c, rates, upper, n) && CutOk(c, lower, upper, n)
    requires if c.full then |c.ranges| + 1 == n else Gathers(c, rates, |rates|, upper, n)
    ensures var ranges, gathered := Finish(c, lower, upper), Recorded(c, upper);
      && 0 < |ranges| == |gathered| && |ranges| <= n
      && (forall i :: 0 <= i < |ranges| - 1 ==> CutRight(rates, upper, n, ranges, gathered, i))
      && LastRight(rates, upper, n, ranges, gathered)
  {
    hide CutRight, Alone;
    ContiguousBounds(c.ranges, lower, c.lower);
    var ranges, gathered := Finish(c, lower, upper), Recorded(c, upper);
    forall i | 0 <= i < |ranges| - 1
      ensures CutRight(rates, upper, n, ranges, gathered, i)
    {
      SameCut(rates, upper, n, c.ranges, ranges, c.gathered, gathered, i);
    }
    var k := |c.ranges|;
    if c.lower < upper {
      if k > 0 {
        SameAlone(rates, upper, n, c.ranges, ranges, k - 1);
      }
      assert ranges[k].lower == c.lower && gathered[k] == 0.0;
    } else {
      SameCut(rates, upper, n, c.ranges, ranges, c.gathered, gathered, k - 1);
      EndsAlone(rates, lower, upper, n, ranges, gathered);
    }
  }

  /** Only a range of one hot key can end where the subrange ends. */
  lemma {:induction false} EndsAlone(rates: seq<Rate>, lower: nat, upper: nat, n: nat, ranges: seq<Tiny>,
                                     gathered: seq<real>)
    requires RatesOk(rates, lower, upper) && 0 < |ranges| == |gathered| && |ranges| <= n
    requires ranges[|ranges| - 1].upper == upper && CutRight(rates, upper, n, ranges, gathered, |ranges| - 1)
    ensures LastRight(rates, upper, n, ranges, gathered)
  {
    hide Alone;
  }
}
