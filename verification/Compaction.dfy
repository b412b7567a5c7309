/** Compaction: which entries are kept, how the kept entries are cut into output files, and what
    readers, subranges and grandparent files can rely on afterwards. */
module Compaction {
  import opened Options

  /** `key` is the user key (0 stands for the empty one); `value` is the operation and its payload. */
  datatype Entry = Entry(key: nat, seqNo: nat, value: nat)

  const MAX_SEQUENCE: nat := 0xff_ffff_ffff_ffff

  /** Internal key order: user keys ascend, and sequence numbers descend within a user key. */
  predicate Less(a: Entry, b: Entry) {
    a.key < b.key || (a.key == b.key && a.seqNo > b.seqNo)
  }

  predicate Sorted(s: seq<Entry>) {
    forall i, j :: 0 <= i < j < |s| ==> Less(s[i], s[j])
  }

  /** The bounds of a grandparent file. */
  datatype Span = Span(smallest: Entry, largest: Entry)

  datatype SubRange = SubRange(lower: nat, upper: nat)

  datatype Output = Output(smallest: Entry, largest: Entry, entries: seq<Entry>)

  datatype Plan = Plan(grandparents: seq<Span>, subranges: seq<SubRange>, snapshot: nat, dropDuplicates: bool,
                       maxFileSize: nat, fileSize: seq<Entry> -> nat)

  // ---------- which entries are kept ----------

  function LastSequenceForKey(input: seq<Entry>, i: nat): nat
    requires i < |input|
  {
    if i > 0 && input[i - 1].key == input[i].key then input[i - 1].seqNo else MAX_SEQUENCE
  }

  predicate Dropped(plan: Plan, input: seq<Entry>, i: nat)
    requires i < |input|
  {
    plan.dropDuplicates && LastSequenceForKey(input, i) <= plan.snapshot
  }

  /** The entries kept among the first n. */
  function Kept(plan: Plan, input: seq<Entry>, n: nat): seq<Entry>
    requires n <= |input|
  {
    if n == 0 then []
    else if Dropped(plan, input, n - 1) then Kept(plan, input, n - 1)
    else Kept(plan, input, n - 1) + [input[n - 1]]
  }

  /** The first entry of a key, in internal key order, that a snapshot can see. */
  function Newest(s: seq<Entry>, k: nat, snapshot: nat): Option<Entry> {
    if s == [] then None
    else
      var e, before := s[|s| - 1], Newest(s[..|s| - 1], k, snapshot);
      if before.None? && e.key == k && e.seqNo <= snapshot then Some(e) else before
  }

  ghost predicate IsNewest(s: seq<Entry>, k: nat, snapshot: nat, e: Entry) {
    && e in s && e.key == k && e.seqNo <= snapshot
    && forall x :: x in s && x.key == k && x.seqNo <= snapshot ==> x == e || x.seqNo < e.seqNo
  }

  lemma {:induction false} NewestIsGreatest(s: seq<Entry>, k: nat, snapshot: nat)
    requires Sorted(s)
    ensures Newest(s, k, snapshot).Some? ==> IsNewest(s, k, snapshot, Newest(s, k, snapshot).value)
    ensures Newest(s, k, snapshot).None? ==> forall x :: x in s && x.key == k ==> x.seqNo > snapshot
  {
    if s != [] {
      var init, e := s[..|s| - 1], s[|s| - 1];
      NewestIsGreatest(init, k, snapshot);
      assert s == init + [e];
      LastIsGreatest(init, e);
      NewestAppend(init, e, k, snapshot);
      hide Newest, Sorted;
    }
  }

  lemma {:induction false} LastIsGreatest(init: seq<Entry>, e: Entry)
    requires Sorted(init + [e])
    ensures forall x :: x in init ==> Less(x, e)
  {
    var s := init + [e];
    forall x | x in init
      ensures Less(x, e)
    {
      var i :| 0 <= i < |init| && init[i] == x;
      assert s[i] == x && s[|init|] == e;
    }
  }

  lemma {:induction false} NewestAppend(s: seq<Entry>, e: Entry, k: nat, snapshot: nat)
    ensures Newest(s + [e], k, snapshot)
         == if Newest(s, k, snapshot).None? && e.key == k && e.seqNo <= snapshot then Some(e)
            else Newest(s, k, snapshot)
  {
    assert (s + [e])[..|s|] == s;
  }

  lemma {:induction false} KeptKeepsNewest(plan: Plan, input: seq<Entry>, n: nat, k: nat, snapshot: nat)
    requires n <= |input| && plan.snapshot < MAX_SEQUENCE && plan.snapshot <= snapshot
    ensures Newest(Kept(plan, input, n), k, snapshot) == Newest(input[..n], k, snapshot)
  {
    if n > 0 {
      KeptKeepsNewest(plan, input, n - 1, k, snapshot);
      assert input[..n] == input[..n - 1] + [input[n - 1]];
      NewestAppend(input[..n - 1], input[n - 1], k, snapshot);
      if Dropped(plan, input, n - 1) {
        assert input[..n - 1] == input[..n - 2] + [input[n - 2]];
        NewestAppend(input[..n - 2], input[n - 2], k, snapshot);
      } else {
        NewestAppend(Kept(plan, input, n - 1), input[n - 1], k, snapshot);
      }
    }
  }

  lemma {:induction false} AllDropped(plan: Plan, input: seq<Entry>, n: nat)
    requires n <= |input| && plan.dropDuplicates && MAX_SEQUENCE <= plan.snapshot
    requires forall i :: 0 <= i < |input| ==> input[i].seqNo <= MAX_SEQUENCE
    ensures Kept(plan, input, n) == []
  {
    if n > 0 {
      AllDropped(plan, input, n - 1);
    }
  }

  lemma {:induction false} NothingDropped(plan: Plan, input: seq<Entry>, n: nat)
    requires n <= |input| && !plan.dropDuplicates
    ensures Kept(plan, input, n) == input[..n]
  {
    if n > 0 {
      NothingDropped(plan, input, n - 1);
    }
  }

  /** Every snapshot from the smallest one on reads the same before and after, for every key,
      exactly when the smallest snapshot is a proper sequence number (or nothing can be lost). */
  lemma {:induction false} CompactionKeepsReadsIff(plan: Plan, input: seq<Entry>)
    requires forall i :: 0 <= i < |input| ==> input[i].seqNo <= MAX_SEQUENCE
    ensures (forall k, snapshot :: plan.snapshot <= snapshot ==>
               Newest(Kept(plan, input, |input|), k, snapshot) == Newest(input, k, snapshot))
       <==> (!plan.dropDuplicates || plan.snapshot < MAX_SEQUENCE || input == [])
  {
    var kept := Kept(plan, input, |input|);
    assert input[..|input|] == input;
    if !plan.dropDuplicates {
      NothingDropped(plan, input, |input|);
    } else if plan.snapshot < MAX_SEQUENCE {
      forall k, snapshot | plan.snapshot <= snapshot
        ensures Newest(kept, k, snapshot) == Newest(input, k, snapshot)
      {
        KeptKeepsNewest(plan, input, |input|, k, snapshot);
      }
    } else if input != [] {
      AllDropped(plan, input, |input|);
      var e := input[|input| - 1];
      assert Newest(input, e.key, plan.snapshot).Some?;
      assert Newest(kept, e.key, plan.snapshot).None?;
    }
  }

  /** A newer entry of the same user key is visible to every snapshot. */
  ghost predicate Hidden(plan: Plan, s: seq<Entry>, e: Entry) {
    exists x :: x in s && x.key == e.key && e.seqNo < x.seqNo <= plan.snapshot
  }

  lemma {:induction false} DroppedIffHidden(plan: Plan, input: seq<Entry>, i: nat)
    requires i < |input| && Sorted(input) && plan.dropDuplicates && plan.snapshot < MAX_SEQUENCE
    ensures Dropped(plan, input, i) <==> Hidden(plan, input, input[i])
  {
    if Dropped(plan, input, i) {
      assert input[i - 1] in input && Less(input[i - 1], input[i]);
    }
    if Hidden(plan, input, input[i]) {
      var x :| x in input && x.key == input[i].key && input[i].seqNo < x.seqNo <= plan.snapshot;
      var j :| 0 <= j < |input| && input[j] == x;
      assert j < i && (j == i - 1 || Less(x, input[i - 1]));
      assert Less(input[i - 1], input[i]);
    }
  }

  lemma {:induction false} KeptIffAt(plan: Plan, input: seq<Entry>, n: nat, e: Entry)
    requires n <= |input|
    ensures e in Kept(plan, input, n) <==> exists i :: 0 <= i < n && input[i] == e && !Dropped(plan, input, i)
  {
    if n > 0 {
      KeptIffAt(plan, input, n - 1, e);
    }
  }

  /** An entry is lost exactly when a newer one of its user key hides it from every snapshot. */
  lemma {:induction false} KeptIffVisible(plan: Plan, input: seq<Entry>, e: Entry)
    requires Sorted(input) && plan.dropDuplicates && plan.snapshot < MAX_SEQUENCE
    ensures e in Kept(plan, input, |input|) <==> e in input && !Hidden(plan, input, e)
  {
    hide Dropped, Hidden;
    KeptIffAt(plan, input, |input|, e);
    if e in input {
      var i :| 0 <= i < |input| && input[i] == e;
      DroppedIffHidden(plan, input, i);
      assert forall j :: 0 <= j < |input| && j != i ==> input[j] != e;
    }
  }

  // ---------- where the output is cut ----------

  datatype Cursor = Cursor(grandparent: nat, seenKey: bool, overlapped: nat, subrange: nat)

  /** `open` is the file being built; the others are finished. */
  datatype Progress = Progress(cursor: Cursor, done: seq<Output>, open: Option<Output>)

  const START := Progress(Cursor(0, false, 0, 0), [], None)

  /** First grandparent, from `i` on, that does not end before the entry. */
  function SkipGrandparents(gs: seq<Span>, e: Entry, i: nat): (j: nat)
    ensures i <= j
    decreases |gs| - i
  {
    if i < |gs| && Less(gs[i].largest, e) then SkipGrandparents(gs, e, i + 1) else i
  }

  /** First subrange, from `i` on, whose upper bound is above the key. */
  function SkipSubranges(srs: seq<SubRange>, key: nat, i: nat): (j: nat)
    ensures i <= j
    decreases |srs| - i
  {
    if i < |srs| && key >= srs[i].upper then SkipSubranges(srs, key, i + 1) else i
  }

  function MaxOverlap(gs: seq<Span>): (m: nat)
    ensures 1 <= m <= 5
  {
    var m := if 5 < |gs| / 4 then 5 else |gs| / 4;
    if m < 1 then 1 else m
  }

  /** Move to an entry and count the grandparents left behind since the last cut. */
  function Overlap(gs: seq<Span>, c: Cursor, e: Entry): (Cursor, bool) {
    var gp := SkipGrandparents(gs, e, c.grandparent);
    var overlapped := if c.seenKey then c.overlapped + (gp - c.grandparent) else c.overlapped;
    var tooMuch := overlapped >= MaxOverlap(gs);
    (Cursor(gp, true, if tooMuch then 0 else overlapped, c.subrange), tooMuch)
  }

  /** Both reasons to cut before an entry. */
  function Advance(plan: Plan, c: Cursor, e: Entry): (Cursor, bool) {
    var sr := SkipSubranges(plan.subranges, e.key, c.subrange);
    var (c', tooMuch) := Overlap(plan.grandparents, c.(subrange := sr), e);
    (c', sr > c.subrange || tooMuch)
  }

  function Close(p: Progress): Progress {
    match p.open
    case None => p
    case Some(o) => p.(done := p.done + [o], open := None)
  }

  function Add(plan: Plan, p: Progress, e: Entry): Progress {
    var o :=
      if p.open.None? then Output(e, e, [e]) else p.open.value.(largest := e, entries := p.open.value.entries + [e]);
    var p' := p.(open := Some(o));
    if plan.fileSize(o.entries) >= plan.maxFileSize then Close(p') else p'
  }

  function CutBefore(plan: Plan, p: Progress, e: Entry): Progress {
    var (c, stop) := Advance(plan, p.cursor, e);
    (if stop then Close(p) else p).(cursor := c)
  }

  function Step(plan: Plan, p: Progress, e: Entry, drop: bool): Progress {
    if drop then CutBefore(plan, p, e) else Add(plan, CutBefore(plan, p, e), e)
  }

  /** The state after the first n entries. */
  function Run(plan: Plan, input: seq<Entry>, n: nat): Progress
    requires n <= |input|
  {
    if n == 0 then START
    else Step(plan, Run(plan, input, n - 1), input[n - 1], Dropped(plan, input, n - 1))
  }

  function Compacted(plan: Plan, input: seq<Entry>): seq<Output> {
    Close(Run(plan, input, |input|)).done
  }

  // ---------- the code ----------

  class CompactionState {
    const plan: Plan
    var grandparentIndex: nat
    var seenKey: bool
    var overlapped: nat
    var subrangeIndex: nat
    /** While a builder is open, the last output is the file it builds. */
    var outputs: seq<Output>
    var builder: Option<seq<Entry>>

    ghost predicate Valid()
      reads this
    {
      builder.Some? ==> builder.value != [] && outputs != [] && outputs[|outputs| - 1].entries == []
    }

    ghost function At(): Cursor
      reads this
    {
      Cursor(grandparentIndex, seenKey, overlapped, subrangeIndex)
    }

    ghost function Value(): Progress
      requires Valid()
      reads this
    {
      if builder.None? then Progress(At(), outputs, None)
      else Progress(At(), outputs[..|outputs| - 1], Some(outputs[|outputs| - 1].(entries := builder.value)))
    }

    constructor (plan: Plan)
      ensures this.plan == plan && Valid() && Value() == START
    {
      this.plan := plan;
      grandparentIndex, seenKey, overlapped, subrangeIndex := 0, false, 0, 0;
      outputs, builder := [], None;
    }

    /** Cut by grandparent overlap. */
    method TooMuchOverlap(e: Entry) returns (stop: bool)
      modifies this`grandparentIndex, this`seenKey, this`overlapped
      ensures (At(), stop) == Overlap(plan.grandparents, old(At()), e)
    {
      ghost var goal := SkipGrandparents(plan.grandparents, e, grandparentIndex);
      while grandparentIndex < |plan.grandparents| && Less(plan.grandparents[grandparentIndex].largest, e)
        invariant old(grandparentIndex) <= grandparentIndex && seenKey == old(seenKey)
        invariant SkipGrandparents(plan.grandparents, e, grandparentIndex) == goal
        invariant overlapped == old(overlapped) + if seenKey then grandparentIndex - old(grandparentIndex) else 0
      {
        if seenKey {
          overlapped := overlapped + 1;
        }
        grandparentIndex := grandparentIndex + 1;
      }
      seenKey := true;
      stop := overlapped >= MaxOverlap(plan.grandparents);
      if stop {
        overlapped := 0;
      }
    }

    method ShouldStopBefore(e: Entry) returns (stop: bool)
      modifies this`grandparentIndex, this`seenKey, this`overlapped, this`subrangeIndex
      ensures (At(), stop) == Advance(plan, old(At()), e)
    {
      var subrangeStop := false;
      ghost var goal := SkipSubranges(plan.subranges, e.key, subrangeIndex);
      while subrangeIndex < |plan.subranges| && e.key >= plan.subranges[subrangeIndex].upper
        invariant old(subrangeIndex) <= subrangeIndex && At() == old(At()).(subrange := subrangeIndex)
        invariant SkipSubranges(plan.subranges, e.key, subrangeIndex) == goal
        invariant subrangeStop == (subrangeIndex > old(subrangeIndex))
      {
        subrangeIndex := subrangeIndex + 1;
        subrangeStop := true;
      }
      var compactionStop := TooMuchOverlap(e);
      stop := subrangeStop || compactionStop;
    }

    method FinishOutputFile()
      requires Valid() && builder.Some?
      modifies this`outputs, this`builder
      ensures Valid() && builder.None? && Value() == Close(old(Value()))
    {
      var last := |outputs| - 1;
      outputs := outputs[last := outputs[last].(entries := builder.value)];
      builder := None;
    }

    method CutIfNeeded(e: Entry)
      requires Valid()
      modifies this
      ensures Valid() && Value() == CutBefore(plan, old(Value()), e)
    {
      var stop := ShouldStopBefore(e);
      if stop && builder.Some? && |builder.value| > 0 {
        FinishOutputFile();
      }
    }

    /** Open a file if none is open, add the entry, and close the file once it is big enough. */
    method AddToOutput(e: Entry)
      requires Valid() && (builder.Some? ==> Less(builder.value[|builder.value| - 1], e))
      modifies this`outputs, this`builder
      ensures Valid() && Value() == Add(plan, old(Value()), e)
    {
      if builder.None? {
        outputs := outputs + [Output(e, e, [])];
        builder := Some([]);
      }
      var last := |outputs| - 1;
      if builder.value == [] {
        outputs := outputs[last := outputs[last].(smallest := e)];
      }
      outputs := outputs[last := outputs[last].(largest := e)];
      builder := Some(builder.value + [e]);
      ghost var was := old(Value());
      ghost var o := if was.open.None? then Output(e, e, [e])
                     else was.open.value.(largest := e, entries := was.open.value.entries + [e]);
      assert builder.value == o.entries;
      assert Value().done == was.done && Value().open == Some(o);
      if plan.fileSize(builder.value) >= plan.maxFileSize {
        FinishOutputFile();
      }
    }

    /** The table builder refuses an entry that does not sort after the last one; the loop never
        offers it such an entry. */
    method CompactTables(input: seq<Entry>)
      requires Valid() && Value() == START && Sorted(input)
      modifies this
      ensures Valid() && builder.None? && outputs == Compacted(plan, input)
    {
      hide CutBefore, Add;
      var i := 0;
      var currentUserKey: Option<nat> := None;
      var lastSequenceForKey := MAX_SEQUENCE;
      while i < |input|
        invariant i <= |input| && Valid() && Value() == Run(plan, input, i)
        invariant currentUserKey == if i == 0 then None else Some(input[i - 1].key)
        invariant i > 0 ==> lastSequenceForKey == input[i - 1].seqNo
      {
        var e := input[i];
        OpenEndsBefore(plan, input, i);
        CutIfNeeded(e);
        if currentUserKey != Some(e.key) {
          currentUserKey := Some(e.key);
          lastSequenceForKey := MAX_SEQUENCE;
        }
        var drop := lastSequenceForKey <= plan.snapshot;
        lastSequenceForKey := e.seqNo;
        if !(drop && plan.dropDuplicates) {
          AddToOutput(e);
        }
        i := i + 1;
      }
      if builder.Some? {
        FinishOutputFile();
      }
    }
  }

  /** The file being built ends with an entry that was read before, and so does what is left of
      it after a cut. */
  lemma {:induction false} OpenEndsBefore(plan: Plan, input: seq<Entry>, n: nat)
    requires n <= |input|
    ensures EndsBefore(Run(plan, input, n), input, n)
    ensures n < |input| ==> EndsBefore(CutBefore(plan, Run(plan, input, n), input[n]), input, n)
  {
    hide CutBefore, Add, EndsBefore;
    if n > 0 {
      OpenEndsBefore(plan, input, n - 1);
      AddEndsWith(plan, CutBefore(plan, Run(plan, input, n - 1), input[n - 1]), input, n);
    } else {
      StartEndsBefore(input);
    }
    if n < |input| {
      CutEndsBefore(plan, Run(plan, input, n), input, n);
    }
  }

  lemma {:induction false} StartEndsBefore(input: seq<Entry>)
    ensures EndsBefore(START, input, 0)
  {
  }

  lemma {:induction false} AddEndsWith(plan: Plan, p: Progress, input: seq<Entry>, n: nat)
    requires 0 < n <= |input| && EndsBefore(p, input, n - 1)
    ensures EndsBefore(p, input, n) && EndsBefore(Add(plan, p, input[n - 1]), input, n)
  {
  }

  lemma {:induction false} CutEndsBefore(plan: Plan, p: Progress, input: seq<Entry>, n: nat)
    requires n < |input| && EndsBefore(p, input, n)
    ensures EndsBefore(CutBefore(plan, p, input[n]), input, n)
  {
    hide SkipSubranges, SkipGrandparents;
  }

  ghost predicate EndsBefore(p: Progress, input: seq<Entry>, n: nat)
    requires n <= |input|
  {
    p.open.Some? ==>
      && p.open.value.entries != []
      && exists i :: 0 <= i < n && p.open.value.entries[|p.open.value.entries| - 1] == input[i]
  }

  // ---------- the files hold the kept entries, in order ----------

  function Concat(files: seq<Output>): seq<Entry> {
    if files == [] then [] else Concat(files[..|files| - 1]) + files[|files| - 1].entries
  }

  ghost predicate FileOk(f: Output) {
    f.entries != [] && f.smallest == f.entries[0] && f.largest == f.entries[|f.entries| - 1]
  }

  ghost predicate FilesOk(files: seq<Output>) {
    forall i :: 0 <= i < |files| ==> FileOk(files[i])
  }

  ghost predicate ProgressOk(p: Progress) {
    FilesOk(p.done) && (p.open.Some? ==> FileOk(p.open.value))
  }

  function Contents(p: Progress): seq<Entry> {
    Concat(p.done) + if p.open.Some? then p.open.value.entries else []
  }

  lemma {:induction false} CloseContents(p: Progress)
    requires ProgressOk(p)
    ensures ProgressOk(Close(p)) && Contents(Close(p)) == Contents(p)
  {
    if p.open.Some? {
      var files := p.done + [p.open.value];
      assert files[..|files| - 1] == p.done;
    }
  }

  lemma {:induction false} AddContents(plan: Plan, p: Progress, e: Entry)
    requires ProgressOk(p)
    ensures ProgressOk(Add(plan, p, e)) && Contents(Add(plan, p, e)) == Contents(p) + [e]
  {
    var o :=
      if p.open.None? then Output(e, e, [e]) else p.open.value.(largest := e, entries := p.open.value.entries + [e]);
    assert FileOk(o);
    assert Contents(p.(open := Some(o))) == Contents(p) + [e];
    CloseContents(p.(open := Some(o)));
  }

  lemma {:induction false} RunContents(plan: Plan, input: seq<Entry>, n: nat)
    requires n <= |input|
    ensures ProgressOk(Run(plan, input, n)) && Contents(Run(plan, input, n)) == Kept(plan, input, n)
  {
    hide Advance, Add;
    if n > 0 {
      RunContents(plan, input, n - 1);
      var p, e := Run(plan, input, n - 1), input[n - 1];
      CloseContents(p);
      var p' := CutBefore(plan, p, e);
      assert ProgressOk(p') && Contents(p') == Contents(p);
      AddContents(plan, p', e);
    }
  }

  /** The output files, one after the other, are the kept entries; the recorded bounds of each
      file are its first and its last entry. */
  lemma {:induction false} FilesHoldKept(plan: Plan, input: seq<Entry>)
    ensures Concat(Compacted(plan, input)) == Kept(plan, input, |input|) && FilesOk(Compacted(plan, input))
  {
    RunContents(plan, input, |input|);
    CloseContents(Run(plan, input, |input|));
  }

  // ---------- no file mixes subranges ----------

  lemma {:induction false} SkipSubrangesSpec(srs: seq<SubRange>, key: nat, i: nat)
    requires i <= |srs|
    ensures var j := SkipSubranges(srs, key, i);
      && i <= j <= |srs| && (forall x :: i <= x < j ==> key >= srs[x].upper)
      && (j < |srs| ==> key < srs[j].upper)
    decreases |srs| - i
  {
    if i < |srs| && key >= srs[i].upper {
      SkipSubrangesSpec(srs, key, i + 1);
    }
  }

  /** Continuing from where an earlier key stopped finds the same subrange as starting over. */
  lemma {:induction false} SkipSubrangesOn(srs: seq<SubRange>, a: nat, b: nat)
    requires a <= b
    ensures SkipSubranges(srs, b, SkipSubranges(srs, a, 0)) == SkipSubranges(srs, b, 0)
  {
    SkipSubrangesSpec(srs, a, 0);
    SkipSubrangesFrom(srs, b, 0, SkipSubranges(srs, a, 0));
  }

  lemma {:induction false} SkipSubrangesFrom(srs: seq<SubRange>, key: nat, i: nat, j: nat)
    requires i <= j <= |srs| && forall x :: i <= x < j ==> key >= srs[x].upper
    ensures SkipSubranges(srs, key, i) == SkipSubranges(srs, key, j)
    decreases j - i
  {
    if i < j {
      SkipSubrangesFrom(srs, key, i + 1, j);
    }
  }

  function SubrangeOf(plan: Plan, e: Entry): nat {
    SkipSubranges(plan.subranges, e.key, 0)
  }

  ghost predicate AllIn(plan: Plan, f: Output, i: nat) {
    forall e :: e in f.entries ==> SubrangeOf(plan, e) == i
  }

  ghost predicate OneSubrange(plan: Plan, f: Output) {
    exists i :: AllIn(plan, f, i)
  }

  ghost predicate SubrangesInv(plan: Plan, p: Progress) {
    && (forall i :: 0 <= i < |p.done| ==> OneSubrange(plan, p.done[i]))
    && (p.open.Some? ==> AllIn(plan, p.open.value, p.cursor.subrange))
  }

  lemma {:induction false} CutSubranges(plan: Plan, p: Progress, e: Entry)
    requires SubrangesInv(plan, p)
    requires SkipSubranges(plan.subranges, e.key, p.cursor.subrange) == SubrangeOf(plan, e)
    ensures SubrangesInv(plan, CutBefore(plan, p, e)) && CutBefore(plan, p, e).cursor.subrange == SubrangeOf(plan, e)
  {
  }

  lemma {:induction false} AddSubranges(plan: Plan, p: Progress, e: Entry)
    requires SubrangesInv(plan, p) && p.cursor.subrange == SubrangeOf(plan, e)
    ensures SubrangesInv(plan, Add(plan, p, e)) && Add(plan, p, e).cursor == p.cursor
  {
    var o :=
      if p.open.None? then Output(e, e, [e]) else p.open.value.(largest := e, entries := p.open.value.entries + [e]);
    assert AllIn(plan, o, p.cursor.subrange);
  }

  lemma {:induction false} RunSubranges(plan: Plan, input: seq<Entry>, n: nat)
    requires n <= |input| && Sorted(input)
    ensures SubrangesInv(plan, Run(plan, input, n))
    ensures Run(plan, input, n).cursor.subrange == if n == 0 then 0 else SubrangeOf(plan, input[n - 1])
  {
    hide CutBefore, Add;
    if n > 0 {
      RunSubranges(plan, input, n - 1);
      var p, e := Run(plan, input, n - 1), input[n - 1];
      if n > 1 {
        assert Less(input[n - 2], e);
        SkipSubrangesOn(plan.subranges, input[n - 2].key, e.key);
      }
      CutSubranges(plan, p, e);
      AddSubranges(plan, CutBefore(plan, p, e), e);
    }
  }

  predicate InRange(r: SubRange, key: nat) {
    r.lower <= key < r.upper
  }

  /** Sorted; two subranges are disjoint unless one duplicates the other. */
  ghost predicate SubrangesSorted(srs: seq<SubRange>) {
    forall i, j :: 0 <= i < j < |srs| ==> srs[i] == srs[j] || srs[i].upper <= srs[j].lower
  }

  lemma {:induction false} SkipFinds(srs: seq<SubRange>, key: nat, i: nat)
    requires SubrangesSorted(srs) && i < |srs| && InRange(srs[i], key)
    ensures SkipSubranges(srs, key, 0) < |srs| && srs[SkipSubranges(srs, key, 0)] == srs[i]
  {
    SkipSubrangesSpec(srs, key, 0);
  }

  /** Two keys of one output file never lie in different subranges, duplicates apart. */
  lemma {:induction false} FilesRespectSubranges(plan: Plan, input: seq<Entry>, f: nat, a: Entry, b: Entry, i: nat,
                                                 j: nat)
    requires Sorted(input) && SubrangesSorted(plan.subranges) && f < |Compacted(plan, input)|
    requires a in Compacted(plan, input)[f].entries && b in Compacted(plan, input)[f].entries
    requires i < |plan.subranges| && InRange(plan.subranges[i], a.key)
    requires j < |plan.subranges| && InRange(plan.subranges[j], b.key)
    ensures plan.subranges[i] == plan.subranges[j]
  {
    var p := Run(plan, input, |input|);
    RunSubranges(plan, input, |input|);
    if f < |p.done| {
      assert OneSubrange(plan, p.done[f]);
    } else {
      assert AllIn(plan, p.open.value, p.cursor.subrange);
    }
    SkipFinds(plan.subranges, a.key, i);
    SkipFinds(plan.subranges, b.key, j);
  }

  // ---------- grandparent overlap ----------

  ghost predicate SpansSorted(gs: seq<Span>) {
    && (forall i :: 0 <= i < |gs| ==> !Less(gs[i].largest, gs[i].smallest))
    && (forall i, j :: 0 <= i < j < |gs| ==> Less(gs[i].largest, gs[j].smallest))
  }

  lemma {:induction false} SkipSpec(gs: seq<Span>, e: Entry, i: nat)
    requires i <= |gs|
    ensures var j := SkipGrandparents(gs, e, i);
      && i <= j <= |gs| && (forall x :: i <= x < j ==> Less(gs[x].largest, e))
      && (j < |gs| ==> !Less(gs[j].largest, e))
    decreases |gs| - i
  {
    if i < |gs| && Less(gs[i].largest, e) {
      SkipSpec(gs, e, i + 1);
    }
  }

  lemma {:induction false} SkipOn(gs: seq<Span>, a: Entry, b: Entry)
    requires a == b || Less(a, b)
    ensures SkipGrandparents(gs, b, SkipGrandparents(gs, a, 0)) == SkipGrandparents(gs, b, 0)
    ensures SkipGrandparents(gs, a, 0) <= SkipGrandparents(gs, b, 0)
  {
    SkipSpec(gs, a, 0);
    SkipFrom(gs, b, 0, SkipGrandparents(gs, a, 0));
  }

  lemma {:induction false} SkipFrom(gs: seq<Span>, e: Entry, i: nat, j: nat)
    requires i <= j <= |gs| && forall x :: i <= x < j ==> Less(gs[x].largest, e)
    ensures SkipGrandparents(gs, e, i) == SkipGrandparents(gs, e, j)
    decreases j - i
  {
    if i < j {
      SkipFrom(gs, e, i + 1, j);
    }
  }

  function GrandparentOf(plan: Plan, e: Entry): nat {
    SkipGrandparents(plan.grandparents, e, 0)
  }

  /** Fewer than MaxOverlap grandparents lie between the ends of a file. */
  ghost predicate Narrow(plan: Plan, f: Output) {
    GrandparentOf(plan, f.largest) < GrandparentOf(plan, f.smallest) + MaxOverlap(plan.grandparents)
  }

  /** The counter covers at least the grandparents passed since the open file began. */
  ghost predicate OverlapInv(plan: Plan, p: Progress) {
    && (forall i :: 0 <= i < |p.done| ==> Narrow(plan, p.done[i]))
    && p.cursor.overlapped < MaxOverlap(plan.grandparents)
    && (p.open.Some? ==>
          && p.cursor.seenKey
          && GrandparentOf(plan, p.open.value.largest) <= p.cursor.grandparent
          && p.cursor.grandparent <= GrandparentOf(plan, p.open.value.smallest) + p.cursor.overlapped)
  }

  lemma {:induction false} CutOverlap(plan: Plan, p: Progress, e: Entry)
    requires OverlapInv(plan, p)
    requires SkipGrandparents(plan.grandparents, e, p.cursor.grandparent) == GrandparentOf(plan, e)
    ensures var p' := CutBefore(plan, p, e);
      OverlapInv(plan, p') && p'.cursor.grandparent == GrandparentOf(plan, e) && p'.cursor.seenKey
  {
    hide SkipSubranges;
  }

  lemma {:induction false} AddOverlap(plan: Plan, p: Progress, e: Entry)
    requires OverlapInv(plan, p) && p.cursor.grandparent == GrandparentOf(plan, e) && p.cursor.seenKey
    ensures OverlapInv(plan, Add(plan, p, e)) && Add(plan, p, e).cursor == p.cursor
  {
  }

  lemma {:induction false} RunOverlap(plan: Plan, input: seq<Entry>, n: nat)
    requires n <= |input| && Sorted(input)
    ensures OverlapInv(plan, Run(plan, input, n))
    ensures Run(plan, input, n).cursor.grandparent == if n == 0 then 0 else GrandparentOf(plan, input[n - 1])
  {
    hide CutBefore, Add, SkipGrandparents;
    if n > 0 {
      RunOverlap(plan, input, n - 1);
      var p, e := Run(plan, input, n - 1), input[n - 1];
      if n > 1 {
        assert Less(input[n - 2], e);
        SkipOn(plan.grandparents, input[n - 2], e);
      }
      CutOverlap(plan, p, e);
      AddOverlap(plan, CutBefore(plan, p, e), e);
    }
  }

  predicate Overlaps(f: Output, g: Span) {
    !Less(g.largest, f.smallest) && !Less(f.largest, g.smallest)
  }

  ghost function Overlapping(f: Output, gs: seq<Span>): set<nat> {
    set i: nat | i < |gs| && Overlaps(f, gs[i])
  }

  lemma {:induction false} IntervalSize(s: set<nat>, lo: nat, n: nat)
    requires forall x :: x in s ==> lo <= x < lo + n
    ensures |s| <= n
    decreases n
  {
    if n > 0 {
      IntervalSize(s - {lo + n - 1}, lo, n - 1);
    } else {
      assert s == {};
    }
  }

  lemma {:induction false} OverlapIsInterval(f: Output, gs: seq<Span>, i: nat)
    requires SpansSorted(gs) && i < |gs| && Overlaps(f, gs[i])
    ensures SkipGrandparents(gs, f.smallest, 0) <= i <= SkipGrandparents(gs, f.largest, 0)
  {
    SkipSpec(gs, f.smallest, 0);
    SkipSpec(gs, f.largest, 0);
  }

  /** No output file overlaps more grandparents than the limit, although the counter carries over
      between files and also counts for entries that are dropped. */
  lemma {:induction false} FilesOverlapFew(plan: Plan, input: seq<Entry>, f: nat)
    requires Sorted(input) && SpansSorted(plan.grandparents) && f < |Compacted(plan, input)|
    ensures |Overlapping(Compacted(plan, input)[f], plan.grandparents)| <= MaxOverlap(plan.grandparents)
  {
    var p, file, gs := Run(plan, input, |input|), Compacted(plan, input)[f], plan.grandparents;
    RunOverlap(plan, input, |input|);
    assert Narrow(plan, file);
    forall i | i in Overlapping(file, gs)
      ensures GrandparentOf(plan, file.smallest) <= i < GrandparentOf(plan, file.smallest) + MaxOverlap(gs)
    {
      OverlapIsInterval(file, gs, i);
    }
    IntervalSize(Overlapping(file, gs), GrandparentOf(plan, file.smallest), MaxOverlap(gs));
  }

  // ---------- when every input is old enough ----------

  /** Each user key occurs once. */
  ghost predicate KeysAscend(s: seq<Entry>) {
    forall i, j :: 0 <= i < j < |s| ==> s[i].key < s[j].key
  }

  ghost predicate Covers(plan: Plan, input: seq<Entry>) {
    && plan.dropDuplicates && plan.snapshot < MAX_SEQUENCE
    && forall i :: 0 <= i < |input| ==> input[i].seqNo <= plan.snapshot
  }

  lemma {:induction false} KeptKeysAscend(plan: Plan, input: seq<Entry>, n: nat)
    requires n <= |input| && Sorted(input) && Covers(plan, input)
    ensures KeysAscend(Kept(plan, input, n))
    ensures n > 0 ==> var kept := Kept(plan, input, n); kept != [] && kept[|kept| - 1].key == input[n - 1].key
  {
    if n > 0 {
      KeptKeysAscend(plan, input, n - 1);
      assert n > 1 ==> Less(input[n - 2], input[n - 1]);
    }
  }

  lemma {:induction false} EntriesInConcat(files: seq<Output>, f: nat, e: Entry)
    requires f < |files| && e in files[f].entries
    ensures e in Concat(files)
  {
    if f < |files| - 1 {
      EntriesInConcat(files[..|files| - 1], f, e);
    }
  }

  lemma {:induction false} FilesAscend(files: seq<Output>)
    requires FilesOk(files) && KeysAscend(Concat(files))
    ensures forall a, b :: 0 <= a < b < |files| ==> files[a].largest.key < files[b].smallest.key
  {
    if files != [] {
      var init, last := files[..|files| - 1], files[|files| - 1];
      var s := Concat(init);
      assert Concat(files)[..|s|] == s;
      FilesAscend(init);
      forall a | 0 <= a < |init|
        ensures files[a].largest.key < last.smallest.key
      {
        EntriesInConcat(init, a, files[a].largest);
        var i :| 0 <= i < |s| && s[i] == files[a].largest;
        assert Concat(files)[i] == s[i] && Concat(files)[|s|] == last.entries[0];
      }
    }
  }

  lemma {:induction false} FileKeysAscend(files: seq<Output>, f: nat)
    requires f < |files| && KeysAscend(Concat(files))
    ensures KeysAscend(files[f].entries)
  {
    var init, last := files[..|files| - 1], files[|files| - 1];
    var s, t := Concat(init), Concat(files);
    assert t == s + last.entries;
    KeysAscendSlice(t, 0, |s|);
    KeysAscendSlice(t, |s|, |t|);
    assert t[0..|s|] == s && t[|s|..|t|] == last.entries;
    hide KeysAscend;
    if f < |init| {
      FileKeysAscend(init, f);
    }
  }

  lemma {:induction false} KeysAscendSlice(s: seq<Entry>, lo: nat, hi: nat)
    requires KeysAscend(s) && lo <= hi <= |s|
    ensures KeysAscend(s[lo..hi])
  {
  }

  lemma {:induction false} WithinBounds(f: Output, e: Entry)
    requires FileOk(f) && KeysAscend(f.entries) && e in f.entries
    ensures f.smallest.key <= e.key <= f.largest.key
  {
    var i :| 0 <= i < |f.entries| && f.entries[i] == e;
  }

  lemma {:induction false} ConcatFrom(files: seq<Output>, e: Entry) returns (f: nat)
    requires e in Concat(files)
    ensures f < |files| && e in files[f].entries
  {
    if e in files[|files| - 1].entries {
      f := |files| - 1;
    } else {
      f := ConcatFrom(files[..|files| - 1], e);
    }
  }

  /** The user-key ranges of the output files are pairwise disjoint and in order. */
  lemma {:induction false} FilesDisjoint(plan: Plan, input: seq<Entry>, a: nat, b: nat)
    requires Sorted(input) && Covers(plan, input) && a < b < |Compacted(plan, input)|
    ensures Compacted(plan, input)[a].largest.key < Compacted(plan, input)[b].smallest.key
  {
    FilesHoldKept(plan, input);
    KeptKeysAscend(plan, input, |input|);
    FilesAscend(Compacted(plan, input));
  }

  lemma {:induction false} SameKeySameEntry(s: seq<Entry>, a: Entry, b: Entry)
    requires KeysAscend(s) && a in s && b in s && a.key == b.key
    ensures a == b
  {
    var i :| 0 <= i < |s| && s[i] == a;
    var j :| 0 <= j < |s| && s[j] == b;
  }

  lemma {:induction false} NewestExistsFor(s: seq<Entry>, e: Entry, snapshot: nat)
    requires e in s && e.seqNo <= snapshot
    ensures Newest(s, e.key, snapshot).Some?
  {
    var init := s[..|s| - 1];
    assert s == init + [s[|s| - 1]];
    if e in init {
      NewestExistsFor(init, e, snapshot);
    }
  }

  lemma {:induction false} KeptWithinInput(plan: Plan, input: seq<Entry>, n: nat, e: Entry)
    requires n <= |input| && e in Kept(plan, input, n)
    ensures e in input
  {
    if !Dropped(plan, input, n - 1) && e != input[n - 1] {
      KeptWithinInput(plan, input, n - 1, e);
    } else if Dropped(plan, input, n - 1) {
      KeptWithinInput(plan, input, n - 1, e);
    }
  }

  /** An entry is in the output exactly when it is the newest of its user key in the input. */
  lemma {:induction false} OutputIsNewest(plan: Plan, input: seq<Entry>, e: Entry)
    requires Sorted(input) && Covers(plan, input)
    ensures e in Kept(plan, input, |input|) <==> IsNewest(input, e.key, plan.snapshot, e)
  {
    var kept := Kept(plan, input, |input|);
    assert input[..|input|] == input;
    KeptKeepsNewest(plan, input, |input|, e.key, plan.snapshot);
    KeptKeysAscend(plan, input, |input|);
    assert Sorted(kept);
    NewestIsGreatest(input, e.key, plan.snapshot);
    NewestIsGreatest(kept, e.key, plan.snapshot);
    if e in kept {
      KeptWithinInput(plan, input, |input|, e);
      assert e.seqNo <= plan.snapshot;
      NewestExistsFor(kept, e, plan.snapshot);
      SameKeySameEntry(kept, e, Newest(kept, e.key, plan.snapshot).value);
    }
    if IsNewest(input, e.key, plan.snapshot, e) {
      NewestExistsFor(input, e, plan.snapshot);
      assert Newest(input, e.key, plan.snapshot) == Some(e);
    }
  }

  // ---------- pruning on flush ----------

  /** BuildTable skips an entry whose user key equals the previous one, unless that key is empty. */
  predicate Pruned(input: seq<Entry>, i: nat)
    requires i < |input|
  {
    i > 0 && input[i - 1].key != 0 && input[i].key == input[i - 1].key
  }

  function Flushed(input: seq<Entry>, n: nat): seq<Entry>
    requires n <= |input|
  {
    if n == 0 then []
    else if Pruned(input, n - 1) then Flushed(input, n - 1)
    else Flushed(input, n - 1) + [input[n - 1]]
  }

  /** The loop of BuildTable with pruning on. */
  method BuildTable(input: seq<Entry>) returns (table: Option<Output>)
    ensures table.None? <==> input == []
    ensures table.Some? ==> FileOk(table.value) && table.value.entries == Flushed(input, |input|)
  {
    if input == [] {
      return None;
    }
    var userKey := 0;
    var o := Output(input[0], input[0], []);
    var i := 0;
    while i < |input|
      invariant i <= |input| && o.smallest == input[0] && o.entries == Flushed(input, i)
      invariant userKey == if i == 0 then 0 else input[i - 1].key
      invariant i > 0 ==> FileOk(o)
    {
      var insert := !(userKey != 0 && input[i].key == userKey);
      userKey := input[i].key;
      if insert {
        o := o.(largest := input[i], entries := o.entries + [input[i]]);
      }
      i := i + 1;
    }
    table := Some(o);
  }

  lemma {:induction false} KeptWithinFlushed(plan: Plan, input: seq<Entry>, n: nat)
    requires n <= |input| && Sorted(input) && Covers(plan, input)
    ensures |Kept(plan, input, n)| <= |Flushed(input, n)|
    ensures n >= 2 && input[1].key == 0 ==> |Kept(plan, input, n)| < |Flushed(input, n)|
    ensures (n < 2 || input[1].key != 0) ==> Kept(plan, input, n) == Flushed(input, n)
  {
    if n > 0 {
      KeptWithinFlushed(plan, input, n - 1);
      if n > 1 {
        assert Less(input[n - 2], input[n - 1]);
        assert n > 2 ==> Less(input[1], input[n - 1]) && Less(input[0], input[1]);
      }
    }
  }

  /** Flushing with pruning and compacting keep the same entries exactly when the empty user key
      does not occur twice. */
  lemma {:induction false} FlushAgreesIff(plan: Plan, input: seq<Entry>)
    requires Sorted(input) && Covers(plan, input)
    ensures Concat(Compacted(plan, input)) == Flushed(input, |input|) <==> (|input| < 2 || input[1].key != 0)
  {
    FilesHoldKept(plan, input);
    KeptWithinFlushed(plan, input, |input|);
  }
}
