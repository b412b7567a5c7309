/** Why an output file of a compaction ends where it does: the three reasons, none of which is
    ever ignored and without which no file ends. */
module CompactionCuts {
  import opened Options
  import opened Compaction

  // ---------- the reasons ----------

  /** Where the count of grandparents began that holds after n entries: at the entry before which the
      last cut for overlap was due, or at the first one. */
  ghost function Origin(plan: Plan, input: seq<Entry>, n: nat): (i: nat)
    requires n <= |input|
    ensures n > 0 ==> i < n
  {
    if n <= 1 then 0
    else if PassedMany(plan, input[Origin(plan, input, n - 1)], input[n - 1]) then n - 1
    else Origin(plan, input, n - 1)
  }

  /** A quarter of the grandparents, but at least one and at most five. */
  function Limit(grandparents: nat): nat {
    if grandparents < 8 then 1 else if grandparents >= 20 then 5 else grandparents / 4
  }

  ghost predicate PassedMany(plan: Plan, from: Entry, to: Entry) {
    GrandparentOf(plan, to) >= GrandparentOf(plan, from) + Limit(|plan.grandparents|)
  }

  /** The next entry read lies in another subrange, or enough grandparents were passed. */
  ghost predicate CutAt(plan: Plan, input: seq<Entry>, j: nat)
    requires 0 < j < |input|
  {
    || SubrangeOf(plan, input[j - 1]) != SubrangeOf(plan, input[j])
    || PassedMany(plan, input[Origin(plan, input, j)], input[j])
  }

  /** A cut is due behind `a`, among the first n entries read. */
  ghost predicate CutBehind(plan: Plan, input: seq<Entry>, a: Entry, n: nat) {
    exists j :: 0 < j < n && j < |input| && Less(a, input[j]) && CutAt(plan, input, j)
  }

  /** A cut is due behind `a` and not behind `b`. */
  ghost predicate CutBetween(plan: Plan, input: seq<Entry>, a: Entry, b: Entry) {
    exists j :: 0 < j < |input| && Less(a, input[j]) && !Less(b, input[j]) && CutAt(plan, input, j)
  }

  /** Without its last entries, however many, the file was not big enough. */
  ghost predicate GrewTo(plan: Plan, entries: seq<Entry>) {
    forall k :: 0 < k < |entries| ==> plan.fileSize(entries[..k]) < plan.maxFileSize
  }

  ghost predicate UncutFile(plan: Plan, input: seq<Entry>, f: Output) {
    GrewTo(plan, f.entries) && !CutBetween(plan, input, f.smallest, f.largest)
  }

  ghost predicate EndsFor(plan: Plan, input: seq<Entry>, f: Output, next: Output) {
    plan.fileSize(f.entries) >= plan.maxFileSize || CutBetween(plan, input, f.largest, next.smallest)
  }

  /** No file goes on past a reason to end, and each that is followed by another ends for a reason. */
  ghost predicate WellCut(plan: Plan, input: seq<Entry>, files: seq<Output>) {
    && (forall f :: 0 <= f < |files| ==> UncutFile(plan, input, files[f]))
    && (forall f :: 0 <= f < |files| - 1 ==> EndsFor(plan, input, files[f], files[f + 1]))
  }

  // ---------- the cursor ----------

  ghost predicate CursorAt(plan: Plan, input: seq<Entry>, n: nat, c: Cursor)
    requires n <= |input|
  {
    if n == 0 then c == Cursor(0, false, 0, 0)
    else
      && c.grandparent == GrandparentOf(plan, input[n - 1]) && c.seenKey
      && c.overlapped + GrandparentOf(plan, input[Origin(plan, input, n)]) == c.grandparent
      && c.subrange == SubrangeOf(plan, input[n - 1])
  }

  lemma {:induction false} AdvanceCuts(plan: Plan, input: seq<Entry>, n: nat, c: Cursor)
    requires n < |input| && Sorted(input) && CursorAt(plan, input, n, c)
    ensures var (c', stop) := Advance(plan, c, input[n]);
      CursorAt(plan, input, n + 1, c') && (n > 0 ==> (stop <==> CutAt(plan, input, n)))
  {
    hide SkipSubranges, SkipGrandparents;
    if n > 0 {
      assert Less(input[n - 1], input[n]);
      SkipSubrangesOn(plan.subranges, input[n - 1].key, input[n].key);
      SkipOn(plan.grandparents, input[n - 1], input[n]);
    }
  }

  // ---------- runs ----------

  ghost predicate Ended(plan: Plan, input: seq<Entry>, f: Output, n: nat) {
    plan.fileSize(f.entries) >= plan.maxFileSize || CutBehind(plan, input, f.largest, n)
  }

  ghost predicate OpenOk(plan: Plan, input: seq<Entry>, o: Output, n: nat) {
    && GrewTo(plan, o.entries) && plan.fileSize(o.entries) < plan.maxFileSize
    && !CutBehind(plan, input, o.smallest, n)
    && exists i :: 0 <= i < n && i < |input| && input[i] == o.largest
  }

  /** After n entries were read. */
  ghost predicate CutsInv(plan: Plan, input: seq<Entry>, n: nat, p: Progress)
    requires n <= |input|
  {
    && WellCut(plan, input, p.done)
    && (p.open.Some? ==>
          && OpenOk(plan, input, p.open.value, n)
          && (p.done != [] ==> EndsFor(plan, input, p.done[|p.done| - 1], p.open.value)))
    && (p.open.None? && p.done != [] ==> Ended(plan, input, p.done[|p.done| - 1], n))
  }

  /** A file whose last entry was read, and behind which no cut was due so far, has none inside. */
  lemma {:induction false} NoCutInside(plan: Plan, input: seq<Entry>, o: Output, n: nat)
    requires n <= |input| && Sorted(input) && !CutBehind(plan, input, o.smallest, n)
    requires exists i :: 0 <= i < n && input[i] == o.largest
    ensures !CutBetween(plan, input, o.smallest, o.largest)
  {
    hide CutAt;
    var i :| 0 <= i < n && input[i] == o.largest;
    assert forall j :: 0 < j < |input| && !Less(o.largest, input[j]) ==> j < n;
  }

  lemma {:induction false} CloseWellCut(plan: Plan, input: seq<Entry>, done: seq<Output>, o: Output)
    requires WellCut(plan, input, done) && UncutFile(plan, input, o)
    requires done != [] ==> EndsFor(plan, input, done[|done| - 1], o)
    ensures WellCut(plan, input, done + [o])
  {
    hide UncutFile, EndsFor;
  }

  lemma {:induction false} CutBehindGrows(plan: Plan, input: seq<Entry>, a: Entry, n: nat)
    requires n < |input|
    ensures CutBehind(plan, input, a, n) ==> CutBehind(plan, input, a, n + 1)
    ensures 0 < n && Less(a, input[n]) && CutAt(plan, input, n) ==> CutBehind(plan, input, a, n + 1)
    ensures CutBehind(plan, input, a, n + 1) ==>
      CutBehind(plan, input, a, n) || (0 < n && Less(a, input[n]) && CutAt(plan, input, n))
  {
    hide CutAt;
  }

  /** The entry with index n is read and the open file perhaps closed before it. */
  lemma {:induction false} CutKeepsCuts(plan: Plan, input: seq<Entry>, n: nat, p: Progress)
    requires n < |input| && Sorted(input) && CursorAt(plan, input, n, p.cursor) && CutsInv(plan, input, n, p)
    ensures var p' := CutBefore(plan, p, input[n]);
      CursorAt(plan, input, n + 1, p'.cursor) && CutsInv(plan, input, n + 1, p')
  {
    hide Advance, CutAt, CursorAt, WellCut, EndsFor, CutBehind, CutBetween, GrewTo;
    AdvanceCuts(plan, input, n, p.cursor);
    if p.open.Some? {
      var o := p.open.value;
      NoCutInside(plan, input, o, n);
      CloseWellCut(plan, input, p.done, o);
      CutBehindGrows(plan, input, o.smallest, n);
      CutBehindGrows(plan, input, o.largest, n);
    } else if p.done != [] {
      CutBehindGrows(plan, input, p.done[|p.done| - 1].largest, n);
    }
  }

  /** The entry with index n is added. */
  lemma {:induction false} AddKeepsCuts(plan: Plan, input: seq<Entry>, n: nat, p: Progress)
    requires n < |input| && Sorted(input) && CutsInv(plan, input, n + 1, p)
    ensures CutsInv(plan, input, n + 1, Add(plan, p, input[n]))
  {
    hide CutAt, WellCut, CutBetween, GrewTo, CutBehind;
    var e := input[n];
    var o :=
      if p.open.None? then Output(e, e, [e]) else p.open.value.(largest := e, entries := p.open.value.entries + [e]);
    AddGrows(plan, if p.open.None? then [] else p.open.value.entries, e);
    assert [] + [e] == [e];
    if p.open.None? && p.done != [] {
      EndsForThis(plan, input, p.done[|p.done| - 1], n);
    }
    NothingBehind(plan, input, n);
    assert input[n] == o.largest;
    NoCutInside(plan, input, o, n + 1);
    CloseWellCut(plan, input, p.done, o);
  }

  lemma {:induction false} NothingBehind(plan: Plan, input: seq<Entry>, n: nat)
    requires n < |input| && Sorted(input)
    ensures !CutBehind(plan, input, input[n], n + 1)
  {
    hide CutAt;
  }

  lemma {:induction false} AddGrows(plan: Plan, entries: seq<Entry>, e: Entry)
    requires entries != [] ==> GrewTo(plan, entries) && plan.fileSize(entries) < plan.maxFileSize
    ensures GrewTo(plan, entries + [e])
  {
    forall k | 0 < k < |entries + [e]|
      ensures plan.fileSize((entries + [e])[..k]) < plan.maxFileSize
    {
      assert (entries + [e])[..k] == entries[..k];
      assert entries[..|entries|] == entries;
    }
  }

  lemma {:induction false} EndsForThis(plan: Plan, input: seq<Entry>, f: Output, n: nat)
    requires n < |input| && Sorted(input) && Ended(plan, input, f, n + 1)
    ensures EndsFor(plan, input, f, Output(input[n], input[n], [input[n]]))
  {
    hide CutAt;
    if CutBehind(plan, input, f.largest, n + 1) {
      var j :| 0 < j < n + 1 && Less(f.largest, input[j]) && CutAt(plan, input, j);
      assert !Less(input[n], input[j]);
    }
  }

  lemma {:induction false} RunCuts(plan: Plan, input: seq<Entry>, n: nat)
    requires n <= |input| && Sorted(input)
    ensures CursorAt(plan, input, n, Run(plan, input, n).cursor) && CutsInv(plan, input, n, Run(plan, input, n))
  {
    hide CutBefore, Add, CursorAt, CutsInv;
    if n == 0 {
      StartCuts(plan, input);
    } else {
      RunCuts(plan, input, n - 1);
      var p := Run(plan, input, n - 1);
      CutKeepsCuts(plan, input, n - 1, p);
      AddKeepsCuts(plan, input, n - 1, CutBefore(plan, p, input[n - 1]));
      AddKeepsCursor(plan, CutBefore(plan, p, input[n - 1]), input[n - 1]);
    }
  }

  lemma {:induction false} StartCuts(plan: Plan, input: seq<Entry>)
    ensures CursorAt(plan, input, 0, START.cursor) && CutsInv(plan, input, 0, START)
  {
  }

  lemma {:induction false} AddKeepsCursor(plan: Plan, p: Progress, e: Entry)
    ensures Add(plan, p, e).cursor == p.cursor
  {
  }

  /** The output of a compaction is cut for size, for subranges and for overlap, and only there. */
  lemma {:induction false} FilesAreWellCut(plan: Plan, input: seq<Entry>)
    requires Sorted(input)
    ensures WellCut(plan, input, Compacted(plan, input))
  {
    hide WellCut, UncutFile, EndsFor, CutBehind, CutBetween, Compaction.Run;
    var p := Run(plan, input, |input|);
    RunCuts(plan, input, |input|);
    if p.open.Some? {
      OpenIsUncut(plan, input, p.open.value, |input|);
      CloseWellCut(plan, input, p.done, p.open.value);
    }
  }

  lemma {:induction false} OpenIsUncut(plan: Plan, input: seq<Entry>, o: Output, n: nat)
    requires n <= |input| && Sorted(input) && OpenOk(plan, input, o, n)
    ensures UncutFile(plan, input, o)
  {
    NoCutInside(plan, input, o, n);
  }

  // ---------- the files are determined ----------

  lemma {:induction false} ConcatFront(files: seq<Output>)
    requires files != []
    ensures Concat(files) == files[0].entries + Concat(files[1..])
  {
    if |files| > 1 {
      var init, last := files[..|files| - 1], files[|files| - 1];
      ConcatFront(init);
      assert files[1..][..|files| - 2] == init[1..];
    } else {
      assert Concat(files[..0]) == [] && Concat(files[1..]) == [];
      assert files[0].entries + [] == [] + files[0].entries;
    }
  }

  lemma {:induction false} SortedParts(a: seq<Entry>, b: seq<Entry>)
    requires Sorted(a + b)
    ensures Sorted(a) && Sorted(b) && a <= a + b
  {
    assert (a + b)[..|a|] == a && (a + b)[|a|..] == b;
  }

  lemma {:induction false} FrontOk(plan: Plan, input: seq<Entry>, files: seq<Output>)
    requires files != [] && FilesOk(files) && WellCut(plan, input, files) && Sorted(Concat(files))
    ensures FileOk(files[0]) && UncutFile(plan, input, files[0])
    ensures Sorted(files[0].entries) && files[0].entries <= Concat(files)
    ensures FilesOk(files[1..]) && WellCut(plan, input, files[1..]) && Sorted(Concat(files[1..]))
    ensures |files| > 1 ==> EndsFor(plan, input, files[0], files[1])
    ensures |files| == 1 ==> Concat(files) == files[0].entries
    ensures |files| > 1 ==>
      |Concat(files)| > |files[0].entries| && Concat(files)[|files[0].entries|] == files[1].smallest
  {
    hide UncutFile, EndsFor, Sorted;
    ConcatFront(files);
    SortedParts(files[0].entries, Concat(files[1..]));
    assert Concat([]) == [];
    if |files| > 1 {
      ConcatFront(files[1..]);
    }
  }

  /** If a file ends earlier than another that begins with the same entry, the other goes on past a cut. */
  lemma {:induction false} ShorterIsCut(plan: Plan, input: seq<Entry>, a: Output, next: Entry, b: Output)
    requires FileOk(a) && FileOk(b) && Sorted(b.entries) && GrewTo(plan, b.entries)
    requires |a.entries| < |b.entries| && a.entries == b.entries[..|a.entries|] && next == b.entries[|a.entries|]
    requires plan.fileSize(a.entries) >= plan.maxFileSize || CutBetween(plan, input, a.largest, next)
    ensures CutBetween(plan, input, b.smallest, b.largest)
  {
    hide CutAt;
    var j :| 0 < j < |input| && Less(a.largest, input[j]) && !Less(next, input[j]) && CutAt(plan, input, j);
    assert b.smallest == a.largest || Less(b.smallest, a.largest);
    assert next == b.largest || Less(next, b.largest);
  }

  lemma {:induction false} NotShorter(plan: Plan, input: seq<Entry>, a: seq<Output>, b: seq<Output>)
    requires a != [] && FilesOk(a) && WellCut(plan, input, a) && Sorted(Concat(a))
    requires b != [] && FilesOk(b) && WellCut(plan, input, b) && Concat(a) == Concat(b)
    ensures |a[0].entries| >= |b[0].entries|
  {
    hide WellCut, CutBetween, GrewTo, Sorted, Concat, FilesOk, EndsFor;
    FrontOk(plan, input, a);
    FrontOk(plan, input, b);
    var x, y := a[0].entries, b[0].entries;
    if |x| < |y| {
      Prefixes(x, y, Concat(a));
      EndsForMeans(plan, input, a);
      ShorterIsCut(plan, input, a[0], a[1].smallest, b[0]);
      assert false;
    }
  }

  lemma {:induction false} Prefixes(x: seq<Entry>, y: seq<Entry>, all: seq<Entry>)
    requires x <= all && y <= all && |x| < |y|
    ensures x == y[..|x|] && y[|x|] == all[|x|]
  {
  }

  lemma {:induction false} EndsForMeans(plan: Plan, input: seq<Entry>, a: seq<Output>)
    requires |a| > 1 && EndsFor(plan, input, a[0], a[1])
    ensures plan.fileSize(a[0].entries) >= plan.maxFileSize || CutBetween(plan, input, a[0].largest, a[1].smallest)
  {
  }

  lemma {:induction false} WellCutIsUnique(plan: Plan, input: seq<Entry>, a: seq<Output>, b: seq<Output>)
    requires FilesOk(a) && WellCut(plan, input, a) && Sorted(Concat(a))
    requires FilesOk(b) && WellCut(plan, input, b) && Concat(a) == Concat(b)
    ensures a == b
  {
    hide WellCut, Sorted, Concat;
    ConcatEmpty(a);
    ConcatEmpty(b);
    if a != [] && b != [] {
      NotShorter(plan, input, a, b);
      NotShorter(plan, input, b, a);
      FrontOk(plan, input, a);
      FrontOk(plan, input, b);
      SameFront(a, b);
      WellCutIsUnique(plan, input, a[1..], b[1..]);
      assert a == [a[0]] + a[1..] && b == [b[0]] + b[1..];
    }
  }

  lemma {:induction false} ConcatEmpty(files: seq<Output>)
    requires FilesOk(files)
    ensures Concat(files) == [] <==> files == []
  {
  }

  lemma {:induction false} SameFront(a: seq<Output>, b: seq<Output>)
    requires a != [] && b != [] && Concat(a) == Concat(b) && |a[0].entries| == |b[0].entries|
    requires FileOk(a[0]) && FileOk(b[0])
    ensures a[0] == b[0] && Concat(a[1..]) == Concat(b[1..])
  {
    hide Concat;
    ConcatFront(a);
    ConcatFront(b);
    var n := |a[0].entries|;
    assert a[0].entries == Concat(a)[..n] && b[0].entries == Concat(b)[..n];
    assert Concat(a[1..]) == Concat(a)[n..] && Concat(b[1..]) == Concat(b)[n..];
  }

  lemma {:induction false} KeptSorted(plan: Plan, input: seq<Entry>, n: nat)
    requires n <= |input| && Sorted(input)
    ensures Sorted(Kept(plan, input, n))
    ensures forall e :: e in Kept(plan, input, n) ==> forall i :: n <= i < |input| ==> Less(e, input[i])
  {
    if n > 0 {
      KeptSorted(plan, input, n - 1);
      var kept := Kept(plan, input, n - 1);
      assert forall i :: 0 <= i < |kept| ==> kept[i] in kept;
    }
  }

  /** Of all the ways to distribute the kept entries over files in order, the output is the only one
      in which every file ends where, and only where, there is a reason. */
  lemma {:induction false} CutsDetermineFiles(plan: Plan, input: seq<Entry>, files: seq<Output>)
    requires Sorted(input)
    ensures files == Compacted(plan, input) <==>
      Concat(files) == Kept(plan, input, |input|) && FilesOk(files) && WellCut(plan, input, files)
  {
    hide WellCut, Compacted, Kept, Concat;
    FilesHoldKept(plan, input);
    FilesAreWellCut(plan, input);
    KeptSorted(plan, input, |input|);
    if Concat(files) == Kept(plan, input, |input|) && FilesOk(files) && WellCut(plan, input, files) {
      WellCutIsUnique(plan, input, files, Compacted(plan, input));
    }
  }
}
