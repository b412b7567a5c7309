/** What a compaction job writes is what the install of its result relies on. */
module CompactedInstalls {
  import Compaction
  import opened Installs

  type Entry = Compaction.Entry

  /** What the input files hold is in the merged input. */
  ghost predicate Covered(v: Version, inputs: set<FileNo>, input: seq<Entry>) {
    forall f, k :: f in inputs && Holds(v, f, k) ==>
      exists e :: e in input && e.key == k && e.seqNo == EntryOf(v, f, k)
  }

  /** What is in the merged input comes from a file, which may hold newer entries of the key. */
  ghost predicate FromFiles(v: Version, inputs: set<FileNo>, input: seq<Entry>) {
    forall e :: e in input ==> exists f :: f in inputs && Holds(v, f, e.key) && e.seqNo <= EntryOf(v, f, e.key)
  }

  ghost predicate MergedInput(v: Version, inputs: set<FileNo>, input: seq<Entry>) {
    inputs <= v.l0.Keys && Covered(v, inputs, input) && FromFiles(v, inputs, input)
  }

  /** `outs` are the output files under the numbers they were given. */
  ghost predicate NamedOutputs(files: seq<Compaction.Output>, numbers: seq<FileNo>,
                               outs: map<FileNo, map<Key, SeqNo>>) {
    && |numbers| == |files|
    && (forall i, j :: 0 <= i < j < |numbers| ==> numbers[i] != numbers[j])
    && (forall f :: f in outs <==> f in numbers)
    && (forall i, k :: 0 <= i < |files| && k in outs[numbers[i]] ==>
          exists e :: e in files[i].entries && e.key == k && e.seqNo == outs[numbers[i]][k])
    && (forall i, e :: 0 <= i < |files| && e in files[i].entries ==> e.key in outs[numbers[i]])
  }

  lemma {:induction false} CoveredAtMost(v: Version, inputs: set<FileNo>, input: seq<Entry>, k: Key, top: SeqNo)
    requires Covered(v, inputs, input)
    requires forall x :: x in input && x.key == k ==> x.seqNo <= top
    ensures forall f :: f in inputs && Holds(v, f, k) ==> EntryOf(v, f, k) <= top
  {
  }

  lemma {:induction false} ComesFrom(v: Version, inputs: set<FileNo>, input: seq<Entry>, e: Entry) returns (f: FileNo)
    requires FromFiles(v, inputs, input) && e in input
    ensures f in inputs && Holds(v, f, e.key) && e.seqNo <= EntryOf(v, f, e.key)
  {
    f :| f in inputs && Holds(v, f, e.key) && e.seqNo <= EntryOf(v, f, e.key);
  }

  /** Everything in the input is visible, so the newest entry of a key is above all of them. */
  lemma {:induction false} NewestIsTop(plan: Compaction.Plan, input: seq<Entry>, e: Entry)
    requires Compaction.Covers(plan, input) && Compaction.IsNewest(input, e.key, plan.snapshot, e)
    ensures e in input && forall x :: x in input && x.key == e.key ==> x.seqNo <= e.seqNo
  {
  }

  lemma {:induction false} OutputEntryIsTop(plan: Compaction.Plan, input: seq<Entry>, i: nat, e: Entry)
    requires Compaction.Sorted(input) && Compaction.Covers(plan, input)
    requires i < |Compaction.Compacted(plan, input)| && e in Compaction.Compacted(plan, input)[i].entries
    ensures e in input && forall x :: x in input && x.key == e.key ==> x.seqNo <= e.seqNo
  {
    hide *;
    Compaction.EntriesInConcat(Compaction.Compacted(plan, input), i, e);
    Compaction.FilesHoldKept(plan, input);
    Compaction.OutputIsNewest(plan, input, e);
    NewestIsTop(plan, input, e);
  }

  lemma {:induction false} OutputEntryIsNewest(plan: Compaction.Plan, input: seq<Entry>, v: Version,
                                               inputs: set<FileNo>, i: nat, e: Entry)
    requires Compaction.Sorted(input) && Compaction.Covers(plan, input) && MergedInput(v, inputs, input)
    requires i < |Compaction.Compacted(plan, input)| && e in Compaction.Compacted(plan, input)[i].entries
    ensures NewestIn(v, inputs, e.key, e.seqNo)
  {
    hide Compaction.Compacted, Compaction.Sorted, Compaction.Covers, Covered, FromFiles;
    OutputEntryIsTop(plan, input, i, e);
    CoveredAtMost(v, inputs, input, e.key, e.seqNo);
    var f := ComesFrom(v, inputs, input, e);
  }

  lemma {:induction false} CoveredBy(plan: Compaction.Plan, v: Version, inputs: set<FileNo>, input: seq<Entry>, k: Key)
    returns (x: Entry)
    requires Covered(v, inputs, input) && InFiles(v, inputs, k) && Compaction.Covers(plan, input)
    ensures x in input && x.key == k && x.seqNo <= plan.snapshot
  {
    var f :| f in inputs && Holds(v, f, k);
    x :| x in input && x.key == k && x.seqNo == EntryOf(v, f, k);
  }

  lemma {:induction false} KeySurvives(plan: Compaction.Plan, input: seq<Entry>, v: Version, inputs: set<FileNo>,
                                       k: Key)
    returns (i: nat, e: Entry)
    requires Compaction.Sorted(input) && Compaction.Covers(plan, input) && MergedInput(v, inputs, input)
    requires InFiles(v, inputs, k)
    ensures i < |Compaction.Compacted(plan, input)| && e in Compaction.Compacted(plan, input)[i].entries && e.key == k
  {
    hide Compaction.Compacted, Compaction.Sorted, Compaction.Covers, Covered, FromFiles, Compaction.Newest,
      Compaction.Kept;
    var x := CoveredBy(plan, v, inputs, input, k);
    Compaction.NewestExistsFor(input, x, plan.snapshot);
    Compaction.NewestIsGreatest(input, k, plan.snapshot);
    e := Compaction.Newest(input, k, plan.snapshot).value;
    Compaction.OutputIsNewest(plan, input, e);
    Compaction.FilesHoldKept(plan, input);
    i := Compaction.ConcatFrom(Compaction.Compacted(plan, input), e);
  }

  lemma {:induction false} KeyInOneFile(plan: Compaction.Plan, input: seq<Entry>, i: nat, a: Entry, j: nat, b: Entry)
    requires Compaction.Sorted(input) && Compaction.Covers(plan, input)
    requires i < j < |Compaction.Compacted(plan, input)|
    requires a in Compaction.Compacted(plan, input)[i].entries && b in Compaction.Compacted(plan, input)[j].entries
    ensures a.key < b.key
  {
    var files := Compaction.Compacted(plan, input);
    Compaction.FilesDisjoint(plan, input, i, j);
    Compaction.FilesHoldKept(plan, input);
    Compaction.KeptKeysAscend(plan, input, |input|);
    Compaction.FileKeysAscend(files, i);
    Compaction.FileKeysAscend(files, j);
    Compaction.WithinBounds(files[i], a);
    Compaction.WithinBounds(files[j], b);
  }

  /** A job whose snapshot covers its input writes, for every user key of the input files, the
      newest entry into exactly one output file: what a level-0 merge install asks for. */
  lemma {:induction false} JobOutputsAreMergeOutputs(plan: Compaction.Plan, input: seq<Entry>, v: Version,
                                                     inputs: set<FileNo>, numbers: seq<FileNo>,
                                                     outs: map<FileNo, map<Key, SeqNo>>)
    requires Compaction.Sorted(input) && Compaction.Covers(plan, input) && MergedInput(v, inputs, input)
    requires NamedOutputs(Compaction.Compacted(plan, input), numbers, outs) && FreshNumbers(v, outs.Keys)
    ensures MergeOutputs(v, inputs, outs)
  {
    hide Compaction.Compacted, Compaction.Sorted, Compaction.Covers, Covered, FromFiles, NewestIn;
    var files := Compaction.Compacted(plan, input);
    forall f, k | f in outs && k in outs[f]
      ensures NewestIn(v, inputs, k, outs[f][k])
    {
      var i :| 0 <= i < |numbers| && numbers[i] == f;
      var e :| e in files[i].entries && e.key == k && e.seqNo == outs[f][k];
      OutputEntryIsNewest(plan, input, v, inputs, i, e);
    }
    forall k | InFiles(v, inputs, k)
      ensures exists f :: f in outs && k in outs[f]
    {
      var i, e := KeySurvives(plan, input, v, inputs, k);
      assert numbers[i] in outs;
    }
    forall f, g, k | f in outs && g in outs && k in outs[f] && k in outs[g]
      ensures f == g
    {
      var i :| 0 <= i < |numbers| && numbers[i] == f;
      var j :| 0 <= j < |numbers| && numbers[j] == g;
      var a :| a in files[i].entries && a.key == k && a.seqNo == outs[f][k];
      var b :| b in files[j].entries && b.key == k && b.seqNo == outs[g][k];
      if i < j {
        KeyInOneFile(plan, input, i, a, j, b);
      } else if j < i {
        KeyInOneFile(plan, input, j, b, i, a);
      }
    }
  }

  // ---------- level 0 to level 1 ----------

  /** The level-1 files that take part in a push, seen as one more input file p: they hold what
      level 1 holds, and every key of level 1 that the level-0 inputs hold. */
  ghost predicate TakesPart(v: Version, inputs: set<FileNo>, part: map<Key, SeqNo>, p: FileNo, w: Version) {
    && |v.levels| > 0 && inputs <= v.l0.Keys && p !in v.l0 && w == v.(l0 := v.l0[p := File(part, {})])
    && (forall k :: k in part ==> k in v.levels[0] && part[k] == v.levels[0][k])
    && (forall k :: k in v.levels[0] && InFiles(v, inputs, k) ==> k in part)
  }

  /** Level 1 after the files that took part are replaced by the outputs. */
  ghost predicate Replaced(l1: map<Key, SeqNo>, part: map<Key, SeqNo>, outs: map<FileNo, map<Key, SeqNo>>,
                           l1': map<Key, SeqNo>) {
    && (forall k :: k in l1' <==> (k in l1 && k !in part) || exists f :: f in outs && k in outs[f])
    && (forall k :: k in l1 && k !in part && k in l1' ==> l1'[k] == l1[k])
    && (forall f, k :: f in outs && k in outs[f] && k in l1' ==> l1'[k] == outs[f][k])
  }

  /** The newest entry of a key among the level-0 inputs and the files that take part. */
  lemma {:induction false} NewestWithPart(v: Version, inputs: set<FileNo>, part: map<Key, SeqNo>, p: FileNo, w: Version,
                                          k: Key, x: SeqNo)
    requires TakesPart(v, inputs, part, p, w) && NewestIn(w, inputs + {p}, k, x)
    ensures InFiles(v, inputs, k) || k in part
    ensures forall e :: NewestIn(v, inputs, k, e) ==> x == Absorbed(v.levels[0], k, e)
    ensures !InFiles(v, inputs, k) ==> x == v.levels[0][k]
  {
    assert forall f :: f in inputs ==> f != p && (Holds(w, f, k) <==> Holds(v, f, k));
    assert Holds(w, p, k) <==> k in part;
    assert Holds(w, p, k) ==> EntryOf(w, p, k) == part[k];
    assert forall f :: f in inputs && Holds(v, f, k) ==> EntryOf(w, f, k) == EntryOf(v, f, k);
    assert k in part ==> p in inputs + {p};
    assert forall f :: f in inputs ==> f in inputs + {p};
    assert forall e :: NewestIn(v, inputs, k, e) ==> InFiles(v, inputs, k);
    hide TakesPart;
  }

  lemma {:induction false} InPart(v: Version, inputs: set<FileNo>, part: map<Key, SeqNo>, p: FileNo, w: Version, k: Key)
    requires TakesPart(v, inputs, part, p, w) && (InFiles(v, inputs, k) || k in part)
    ensures InFiles(w, inputs + {p}, k)
  {
    if k in part {
      assert p in inputs + {p} && Holds(w, p, k);
    } else {
      var f :| f in inputs && Holds(v, f, k);
      assert f in inputs + {p} && Holds(w, f, k);
    }
  }

  /** What a job writes for a push is what level 1 absorbs. */
  lemma {:induction false} OutputsAreAbsorbed(v: Version, inputs: set<FileNo>, part: map<Key, SeqNo>, p: FileNo,
                                              w: Version, outs: map<FileNo, map<Key, SeqNo>>, l1': map<Key, SeqNo>)
    requires TakesPart(v, inputs, part, p, w) && MergeOutputs(w, inputs + {p}, outs)
    requires Replaced(v.levels[0], part, outs, l1')
    ensures Absorbs(v, inputs, v.levels[0], l1')
  {
    var l1 := v.levels[0];
    forall k
      ensures k in l1' <==> k in l1 || InFiles(v, inputs, k)
      ensures k in l1' && !InFiles(v, inputs, k) ==> l1'[k] == l1[k]
      ensures forall e :: k in l1' && NewestIn(v, inputs, k, e) ==> l1'[k] == Absorbed(l1, k, e)
    {
      if InFiles(v, inputs, k) || k in part {
        InPart(v, inputs, part, p, w, k);
        var f :| f in outs && k in outs[f];
        NewestWithPart(v, inputs, part, p, w, k, outs[f][k]);
      } else {
        NoOutput(v, inputs, part, p, w, outs, k);
        assert forall e :: !NewestIn(v, inputs, k, e);
      }
    }
  }

  lemma {:induction false} NoOutput(v: Version, inputs: set<FileNo>, part: map<Key, SeqNo>, p: FileNo, w: Version,
                                    outs: map<FileNo, map<Key, SeqNo>>, k: Key)
    requires TakesPart(v, inputs, part, p, w) && MergeOutputs(w, inputs + {p}, outs)
    ensures (exists f :: f in outs && k in outs[f]) ==> InFiles(v, inputs, k) || k in part
  {
    if f :| f in outs && k in outs[f] {
      NewestWithPart(v, inputs, part, p, w, k, outs[f][k]);
    }
  }

  /** A job whose snapshot covers its input, the merge of level-0 files with every level-1 file they
      overlap, leaves level 1 as a push install asks for. */
  lemma {:induction false} JobOutputsAreAbsorbed(plan: Compaction.Plan, input: seq<Entry>, v: Version,
                                                 inputs: set<FileNo>, part: map<Key, SeqNo>, p: FileNo, w: Version,
                                                 numbers: seq<FileNo>, outs: map<FileNo, map<Key, SeqNo>>,
                                                 l1': map<Key, SeqNo>)
    requires Compaction.Sorted(input) && Compaction.Covers(plan, input)
    requires TakesPart(v, inputs, part, p, w) && MergedInput(w, inputs + {p}, input)
    requires NamedOutputs(Compaction.Compacted(plan, input), numbers, outs) && FreshNumbers(w, outs.Keys)
    requires Replaced(v.levels[0], part, outs, l1')
    ensures Absorbs(v, inputs, v.levels[0], l1')
  {
    hide *;
    JobOutputsAreMergeOutputs(plan, input, w, inputs + {p}, numbers, outs);
    OutputsAreAbsorbed(v, inputs, part, p, w, outs, l1');
  }
}
