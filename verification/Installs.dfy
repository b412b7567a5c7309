/** What one installed version of the LSM tree does to a read that goes through a memtable id.

    A read of key `k` that the lookup index sends to memtable `m` searches the level-0 files
    recorded for `m` and then the lower levels of one version.  Flushes and compactions replace
    the version and the recorded file sets together.  This module says when such a replacement
    keeps every read at least as new as what `m` held.  Values are identified by the sequence
    number of the Put that wrote them. */
module Installs {
  import opened Options

  type Key = nat
  type SeqNo = nat
  type MemId = nat
  type FileNo = nat

  /** An SSTable at level 0: the newest entry it holds for each key, and the memtables whose
      data it carries. */
  datatype File = File(entries: map<Key, SeqNo>, mids: set<MemId>)

  /** `levels[0]` is level 1.  Files of one lower level are disjoint, so a level is a map.
      `ordered` is the option use_ordered_flush: it decides how the lower levels are searched. */
  datatype Version = Version(l0: map<FileNo, File>, levels: seq<map<Key, SeqNo>>, ordered: bool)

  predicate Holds(v: Version, f: FileNo, k: Key) {
    f in v.l0 && k in v.l0[f].entries
  }

  function EntryOf(v: Version, f: FileNo, k: Key): SeqNo
    requires Holds(v, f, k)
  {
    v.l0[f].entries[k]
  }

  ghost predicate InFiles(v: Version, fns: set<FileNo>, k: Key) {
    exists f :: f in fns && Holds(v, f, k)
  }

  /** The file whose value a search of `fns` ends up with: the scan runs from the highest file
      number to the lowest and every hit overwrites the value. */
  ghost predicate Answers(v: Version, fns: set<FileNo>, k: Key, f: FileNo) {
    && f in fns && Holds(v, f, k)
    && forall g :: g in fns && Holds(v, g, k) ==> f <= g
  }

  function FirstHit(levels: seq<map<Key, SeqNo>>, k: Key): Option<SeqNo> {
    if levels == [] then None
    else if k in levels[0] then Some(levels[0][k])
    else FirstHit(levels[1..], k)
  }

  function DeepestHit(levels: seq<map<Key, SeqNo>>, k: Key): Option<SeqNo> {
    if levels == [] then None
    else if DeepestHit(levels[1..], k).Some? then DeepestHit(levels[1..], k)
    else if k in levels[0] then Some(levels[0][k])
    else None
  }

  /** With ordered flush the search of the lower levels stops at the first hit; without it, it goes
      on and every hit overwrites the value, so that the deepest level wins. */
  function Search(v: Version, k: Key): Option<SeqNo> {
    if v.ordered then FirstHit(v.levels, k) else DeepestHit(v.levels, k)
  }

  /** A read of `k` through the file set `fns` returns an entry no older than `bound`. */
  ghost predicate ReadsAtLeast(v: Version, fns: set<FileNo>, k: Key, bound: SeqNo) {
    if InFiles(v, fns, k) then
      forall f :: Answers(v, fns, k, f) ==> bound <= EntryOf(v, f, k)
    else
      Search(v, k).Some? && bound <= Search(v, k).value
  }

  lemma {:induction false} AnswerExists(v: Version, fns: set<FileNo>, k: Key) returns (f: FileNo)
    requires InFiles(v, fns, k)
    ensures Answers(v, fns, k, f)
    decreases |fns|
  {
    f :| f in fns && Holds(v, f, k);
    if g :| g in fns && Holds(v, g, k) && g < f {
      var rest := fns - {f};
      assert g in rest;
      f := AnswerExists(v, rest, k);
    }
  }

  // ---------- the search itself ----------

  datatype ReadResult = Found(entry: SeqNo) | NotFound | IoError

  ghost predicate Ascending(fns: seq<FileNo>) {
    forall i, j :: 0 <= i < j < |fns| ==> fns[i] < fns[j]
  }

  ghost function Numbers(fns: seq<FileNo>): set<FileNo> {
    set f | f in fns
  }

  /** Version::Get over an explicit list of level-0 files. */
  method GetFromFiles(v: Version, fns: seq<FileNo>, k: Key) returns (r: ReadResult)
    requires Ascending(fns)
    ensures r.IoError? <==> exists f :: f in fns && f !in v.l0
    ensures r.NotFound? ==> !InFiles(v, Numbers(fns), k)
    ensures r.Found? ==>
      exists f :: Answers(v, Numbers(fns), k, f) && r.entry == EntryOf(v, f, k)
  {
    r := NotFound;
    var i := |fns|;
    ghost var best := 0;
    while i > 0
      invariant 0 <= i <= |fns|
      invariant !r.IoError?
      invariant forall j :: i <= j < |fns| ==> fns[j] in v.l0
      invariant r.NotFound? ==> forall j :: i <= j < |fns| ==> !Holds(v, fns[j], k)
      invariant r.Found? ==>
        && i <= best < |fns| && Holds(v, fns[best], k) && r.entry == EntryOf(v, fns[best], k)
        && forall j :: i <= j < best ==> !Holds(v, fns[j], k)
    {
      i := i - 1;
      if fns[i] !in v.l0 {
        return IoError;
      }
      if k in v.l0[fns[i]].entries {
        r := Found(v.l0[fns[i]].entries[k]);
        best := i;
      }
    }
    assert r.Found? ==> Answers(v, Numbers(fns), k, fns[best]);
  }

  /** What a read of `v` through `fns` returns when all files are there. */
  ghost predicate ReadOutcome(v: Version, fns: set<FileNo>, k: Key, r: Option<SeqNo>) {
    if InFiles(v, fns, k) then exists f :: Answers(v, fns, k, f) && r == Some(EntryOf(v, f, k))
    else r == Search(v, k)
  }

  lemma {:induction false} OutcomeIsFresh(v: Version, fns: set<FileNo>, k: Key, r: Option<SeqNo>, bound: SeqNo)
    requires ReadOutcome(v, fns, k, r) && ReadsAtLeast(v, fns, k, bound)
    ensures r.Some? && bound <= r.value
  {
  }

  /** Version::Get over level 1 and below. */
  method SearchBelow(v: Version, k: Key) returns (r: Option<SeqNo>)
    ensures r == Search(v, k)
  {
    r := None;
    assert v.levels[0..] == v.levels;
    for i := 0 to |v.levels|
      invariant v.ordered ==> r.None? && FirstHit(v.levels, k) == FirstHit(v.levels[i..], k)
      invariant !v.ordered ==>
        DeepestHit(v.levels, k) == if DeepestHit(v.levels[i..], k).Some? then DeepestHit(v.levels[i..], k) else r
    {
      assert v.levels[i..][0] == v.levels[i] && v.levels[i..][1..] == v.levels[i + 1..];
      if k in v.levels[i] {
        r := Some(v.levels[i][k]);
        if v.ordered {
          return;
        }
      }
    }
  }

  /** The part of GetWithLookupIndex that reads a version: the level-0 files of the memtable,
      then, if they do not hold the key, level 1 and below. */
  method GetFromVersion(v: Version, fns: seq<FileNo>, k: Key) returns (r: ReadResult)
    requires Ascending(fns)
    ensures r.IoError? <==> exists f :: f in fns && f !in v.l0
    ensures r.Found? ==> ReadOutcome(v, Numbers(fns), k, Some(r.entry))
    ensures r.NotFound? ==> ReadOutcome(v, Numbers(fns), k, None)
  {
    r := GetFromFiles(v, fns, k);
    if r.NotFound? {
      var low := SearchBelow(v, k);
      if low.Some? {
        r := Found(low.value);
      }
    }
  }

  // ---------- the shared state that installs rewrite ----------

  /** `tables[m]` is what flushed memtable `m` held, `l0[m]` its recorded level-0 files. */
  datatype View = View(tables: map<MemId, map<Key, SeqNo>>, l0: map<MemId, set<FileNo>>, v: Version)

  ghost predicate LevelsOrdered(levels: seq<map<Key, SeqNo>>) {
    forall i, j, k :: 0 <= i < j < |levels| && k in levels[i] && k in levels[j] ==>
      levels[j][k] <= levels[i][k]
  }

  /** A file is recorded for exactly the memtables it says it carries. */
  ghost predicate Linked(x: View) {
    && (forall m, f :: m in x.l0 && f in x.l0[m] ==> f in x.v.l0 && m in x.v.l0[f].mids)
    && (forall f, m :: f in x.v.l0 && m in x.v.l0[f].mids ==> m in x.l0 && f in x.l0[m])
  }

  ghost predicate ReadsFresh(x: View)
    requires x.tables.Keys == x.l0.Keys
  {
    forall m, k :: m in x.l0 && k in x.tables[m] ==> ReadsAtLeast(x.v, x.l0[m], k, x.tables[m][k])
  }

  ghost predicate ViewInv(x: View) {
    && x.tables.Keys == x.l0.Keys
    && Linked(x)
    && (x.v.ordered ==> LevelsOrdered(x.v.levels))
    && ReadsFresh(x)
  }

  /** A job draws its file numbers when it starts and installs them later, so that a number being
      installed is new but may be lower than others. */
  ghost predicate FreshNumbers(v: Version, fns: set<FileNo>) {
    fns !! v.l0.Keys
  }

  // ---------- flush ----------

  /** One new file for every memtable in `files`. */
  ghost predicate FlushedVersion(v: Version, files: map<MemId, FileNo>, contents: map<MemId, map<Key, SeqNo>>,
                                 v': Version) {
    && files.Keys == contents.Keys
    && FreshNumbers(v, files.Values)
    && (forall m, n :: m in files && n in files && files[m] == files[n] ==> m == n)
    && v'.levels == v.levels && v'.ordered == v.ordered
    && v'.l0.Keys == v.l0.Keys + files.Values
    && (forall f :: f in v.l0 ==> v'.l0[f] == v.l0[f])
    && (forall m :: m in files ==> files[m] in v'.l0 && v'.l0[files[m]] == File(contents[m], {m}))
  }

  ghost predicate Flushes(x: View, files: map<MemId, FileNo>, contents: map<MemId, map<Key, SeqNo>>, x': View) {
    && FlushedVersion(x.v, files, contents, x'.v)
    && files.Keys !! x.l0.Keys
    && x.tables.Keys == x.l0.Keys
    && x'.tables == x.tables + contents
    && x'.l0.Keys == x.l0.Keys + files.Keys
    && (forall m :: m in x.l0 ==> x'.l0[m] == x.l0[m])
    && (forall m :: m in files ==> x'.l0[m] == {files[m]})
  }

  lemma {:induction false} FlushKeepsReads(x: View, files: map<MemId, FileNo>, contents: map<MemId, map<Key, SeqNo>>,
                                           x': View)
    requires ViewInv(x) && Flushes(x, files, contents, x')
    ensures ViewInv(x')
  {
    FlushKeepsLinks(x, files, contents, x');
    forall m, k | m in x'.l0 && k in x'.tables[m]
      ensures ReadsAtLeast(x'.v, x'.l0[m], k, x'.tables[m][k])
    {
      FlushKeepsRead(x, files, contents, x', m, k);
    }
  }

  lemma {:induction false} FlushKeepsLinks(x: View, files: map<MemId, FileNo>, contents: map<MemId, map<Key, SeqNo>>,
                                           x': View)
    requires Linked(x) && Flushes(x, files, contents, x')
    ensures Linked(x')
  {
    forall m, f | m in x'.l0 && f in x'.l0[m]
      ensures f in x'.v.l0 && m in x'.v.l0[f].mids
    {
      FlushedFileKnowsTable(x, files, contents, x', m, f);
    }
    forall f, m | f in x'.v.l0 && m in x'.v.l0[f].mids
      ensures m in x'.l0 && f in x'.l0[m]
    {
      FlushedTableKnowsFile(x, files, contents, x', m, f);
    }
  }

  lemma {:induction false} FlushedFileKnowsTable(x: View, files: map<MemId, FileNo>,
                                                 contents: map<MemId, map<Key, SeqNo>>, x': View, m: MemId, f: FileNo)
    requires Linked(x) && Flushes(x, files, contents, x') && m in x'.l0 && f in x'.l0[m]
    ensures f in x'.v.l0 && m in x'.v.l0[f].mids
  {
    if m in files {
      assert f == files[m];
    } else {
      assert f in x.l0[m];
    }
  }

  lemma {:induction false} FlushedTableKnowsFile(x: View, files: map<MemId, FileNo>,
                                                 contents: map<MemId, map<Key, SeqNo>>, x': View, m: MemId, f: FileNo)
    requires Linked(x) && Flushes(x, files, contents, x') && f in x'.v.l0 && m in x'.v.l0[f].mids
    ensures m in x'.l0 && f in x'.l0[m]
  {
    if f in x.v.l0 {
      assert m in x.l0 && f in x.l0[m];
      assert m !in files;
    } else {
      var n :| n in files && files[n] == f;
    }
  }

  lemma {:induction false} FlushKeepsRead(x: View, files: map<MemId, FileNo>, contents: map<MemId, map<Key, SeqNo>>,
                                          x': View, m: MemId, k: Key)
    requires ViewInv(x) && Flushes(x, files, contents, x') && m in x'.l0 && k in x'.tables[m]
    ensures ReadsAtLeast(x'.v, x'.l0[m], k, x'.tables[m][k])
  {
    if m in files {
      assert x'.l0[m] == {files[m]} && Holds(x'.v, files[m], k);
      assert forall f :: Answers(x'.v, x'.l0[m], k, f) ==> f == files[m];
    } else {
      assert x'.l0[m] == x.l0[m] && x'.tables[m] == x.tables[m];
      SameFilesSameRead(x.v, x'.v, x.l0[m], k, x.tables[m][k]);
    }
  }

  /** A read does not notice a new version that keeps its files and does not lose ground below. */
  lemma {:induction false} SameFilesSameRead(v: Version, v': Version, fns: set<FileNo>, k: Key, bound: SeqNo)
    requires forall f :: f in fns ==> f in v.l0 && f in v'.l0 && v'.l0[f].entries == v.l0[f].entries
    requires Search(v, k).Some? ==> Search(v', k).Some? && Search(v, k).value <= Search(v', k).value
    requires ReadsAtLeast(v, fns, k, bound)
    ensures ReadsAtLeast(v', fns, k, bound)
  {
    assert forall f :: f in fns ==> (Holds(v, f, k) <==> Holds(v', f, k));
    assert InFiles(v, fns, k) <==> InFiles(v', fns, k);
    assert forall f :: Answers(v', fns, k, f) ==> Answers(v, fns, k, f);
  }

  // ---------- compaction inputs ----------

  ghost predicate NewestIn(v: Version, inputs: set<FileNo>, k: Key, e: SeqNo) {
    && (exists f :: f in inputs && Holds(v, f, k) && EntryOf(v, f, k) == e)
    && forall f :: f in inputs && Holds(v, f, k) ==> EntryOf(v, f, k) <= e
  }

  ghost predicate Carries(v: Version, inputs: set<FileNo>, m: MemId) {
    exists f :: f in inputs && f in v.l0 && m in v.l0[f].mids
  }

  /** The input set never takes the file that answers for a memtable while leaving behind
      another file of that memtable that holds the same key. */
  ghost predicate KeepsWinners(x: View, inputs: set<FileNo>) {
    forall m, f, g, k ::
      (m in x.l0 && f in x.l0[m] && f in inputs && g in x.l0[m] && g !in inputs && Holds(x.v, f, k) && Holds(x.v, g, k))
      ==> g < f
  }

  /** Nothing in the input set is older than what the lower levels hold for the same key. */
  ghost predicate NotOlderThanLevels(v: Version, inputs: set<FileNo>) {
    forall k, e :: NewestIn(v, inputs, k, e) && Search(v, k).Some? ==> Search(v, k).value <= e
  }

  // ---------- level 0 to level 0 ----------

  ghost predicate MergeOutputs(v: Version, inputs: set<FileNo>, outs: map<FileNo, map<Key, SeqNo>>) {
    && inputs <= v.l0.Keys
    && FreshNumbers(v, outs.Keys)
    && (forall f, k :: f in outs && k in outs[f] ==> NewestIn(v, inputs, k, outs[f][k]))
    && (forall k :: InFiles(v, inputs, k) ==> exists f :: f in outs && k in outs[f])
    && (forall f, g, k :: f in outs && g in outs && k in outs[f] && k in outs[g] ==> f == g)
  }

  function AllMids(v: Version, inputs: set<FileNo>): (ms: set<MemId>)
    requires inputs <= v.l0.Keys
    ensures forall m :: m in ms <==> Carries(v, inputs, m)
  {
    set f, m | f in inputs && m in v.l0[f].mids :: m
  }

  ghost predicate MergedVersion(v: Version, inputs: set<FileNo>, outs: map<FileNo, map<Key, SeqNo>>, v': Version) {
    && MergeOutputs(v, inputs, outs)
    && v'.levels == v.levels && v'.ordered == v.ordered
    && v'.l0.Keys == v.l0.Keys - inputs + outs.Keys
    && (forall f :: f in v.l0 && f !in inputs ==> v'.l0[f] == v.l0[f])
    && (forall f :: f in outs ==> v'.l0[f] == File(outs[f], AllMids(v, inputs)))
  }

  /** Every output is recorded for every memtable of every input. */
  ghost predicate Merges(x: View, inputs: set<FileNo>, outs: map<FileNo, map<Key, SeqNo>>, x': View) {
    && MergedVersion(x.v, inputs, outs, x'.v)
    && x'.tables == x.tables
    && x'.l0.Keys == x.l0.Keys
    && (forall m :: m in x.l0 ==>
          x'.l0[m] == if Carries(x.v, inputs, m) then x.l0[m] + outs.Keys - inputs else x.l0[m])
  }

  lemma {:induction false} MergedFilesKnown(x: View, inputs: set<FileNo>, outs: map<FileNo, map<Key, SeqNo>>, x': View,
                                            m: MemId, f: FileNo)
    requires Linked(x) && Merges(x, inputs, outs, x') && m in x'.l0 && f in x'.l0[m]
    ensures f in x'.v.l0 && m in x'.v.l0[f].mids
  {
    hide NewestIn, InFiles, Holds, FreshNumbers;
    assert f in x.l0[m] && f in inputs ==> Carries(x.v, inputs, m);
  }

  lemma {:induction false} MergedTablesKnown(x: View, inputs: set<FileNo>, outs: map<FileNo, map<Key, SeqNo>>, x': View,
                                             m: MemId, f: FileNo)
    requires Linked(x) && Merges(x, inputs, outs, x') && f in x'.v.l0 && m in x'.v.l0[f].mids
    ensures m in x'.l0 && f in x'.l0[m]
  {
    hide NewestIn, InFiles, Holds;
  }

  lemma {:induction false} MergeKeepsLinks(x: View, inputs: set<FileNo>, outs: map<FileNo, map<Key, SeqNo>>, x': View)
    requires Linked(x) && Merges(x, inputs, outs, x')
    ensures Linked(x')
  {
    hide Merges;
    forall m, f | m in x'.l0 && f in x'.l0[m]
      ensures f in x'.v.l0 && m in x'.v.l0[f].mids
    {
      MergedFilesKnown(x, inputs, outs, x', m, f);
    }
    forall f, m | f in x'.v.l0 && m in x'.v.l0[f].mids
      ensures m in x'.l0 && f in x'.l0[m]
    {
      MergedTablesKnown(x, inputs, outs, x', m, f);
    }
  }

  /** What a read through the files `fns` of a carried memtable will find: of the file left behind
      that answers and the output that holds the key, the one with the lower number. */
  ghost predicate FreshAfterMerge(v: Version, inputs: set<FileNo>, outs: map<FileNo, map<Key, SeqNo>>, fns: set<FileNo>,
                                  k: Key, bound: SeqNo) {
    && (forall f: FileNo :: Answers(v, fns - inputs, k, f) && (forall o :: o in outs && k in outs[o] ==> f < o) ==>
          bound <= EntryOf(v, f, k))
    && (forall o :: o in outs && k in outs[o] && (forall f :: f in fns - inputs && Holds(v, f, k) ==> o < f) ==>
          bound <= outs[o][k])
  }

  /** The files of a carried memtable after the merge, key by key. */
  lemma {:induction false} MergedHolds(v: Version, inputs: set<FileNo>, outs: map<FileNo, map<Key, SeqNo>>, v': Version,
                                       rest: set<FileNo>, k: Key)
    requires MergedVersion(v, inputs, outs, v') && rest <= v.l0.Keys - inputs
    ensures forall f :: f in rest ==> (Holds(v', f, k) <==> Holds(v, f, k)) && v'.l0[f] == v.l0[f] && f !in outs
    ensures forall o :: o in outs ==> (Holds(v', o, k) <==> k in outs[o]) && v'.l0[o].entries == outs[o]
  {
    hide NewestIn, InFiles, AllMids;
  }

  lemma {:induction false} MergeReadIff(v: Version, inputs: set<FileNo>, outs: map<FileNo, map<Key, SeqNo>>,
                                        v': Version, fns: set<FileNo>, k: Key, bound: SeqNo)
    requires MergedVersion(v, inputs, outs, v') && fns <= v.l0.Keys && ReadsAtLeast(v, fns, k, bound)
    ensures ReadsAtLeast(v', fns + outs.Keys - inputs, k, bound) <==> FreshAfterMerge(v, inputs, outs, fns, k, bound)
  {
    var rest := fns - inputs;
    var all := rest + outs.Keys;
    assert outs.Keys !! inputs;
    assert fns + outs.Keys - inputs == all;
    MergedHolds(v, inputs, outs, v', rest, k);
    if InFiles(v', all, k) {
      MergedAnswer(v, outs, v', rest, k, bound);
    } else {
      assert !InFiles(v, fns, k) by {
        if InFiles(v, fns, k) {
          KeysStay(v, inputs, outs, v', fns, k);
        }
      }
      assert forall f :: f in rest ==> !Holds(v, f, k);
      assert forall o :: o in outs ==> k !in outs[o];
      assert Search(v', k) == Search(v, k);
    }
  }

  lemma {:induction false} KeysStay(v: Version, inputs: set<FileNo>, outs: map<FileNo, map<Key, SeqNo>>, v': Version,
                                    fns: set<FileNo>, k: Key)
    requires MergedVersion(v, inputs, outs, v') && fns <= v.l0.Keys && InFiles(v, fns, k)
    ensures InFiles(v', fns - inputs + outs.Keys, k)
  {
    MergedHolds(v, inputs, outs, v', fns - inputs, k);
    var f :| f in fns && Holds(v, f, k);
    if f in inputs {
      assert InFiles(v, inputs, k);
      var o :| o in outs && k in outs[o];
      assert o in fns - inputs + outs.Keys && Holds(v', o, k);
    } else {
      assert f in fns - inputs + outs.Keys && Holds(v', f, k);
    }
  }

  lemma {:induction false} MergedAnswer(v: Version, outs: map<FileNo, map<Key, SeqNo>>, v': Version, rest: set<FileNo>,
                                        k: Key, bound: SeqNo)
    requires forall f :: f in rest ==>
      (Holds(v', f, k) <==> Holds(v, f, k)) && f in v.l0 && f in v'.l0 && v'.l0[f] == v.l0[f] && f !in outs
    requires forall o :: o in outs ==> (Holds(v', o, k) <==> k in outs[o]) && o in v'.l0 && v'.l0[o].entries == outs[o]
    requires forall o, p :: o in outs && p in outs && k in outs[o] && k in outs[p] ==> o == p
    requires InFiles(v', rest + outs.Keys, k)
    ensures ReadsAtLeast(v', rest + outs.Keys, k, bound) <==>
      && (forall f: FileNo :: Answers(v, rest, k, f) && (forall o :: o in outs && k in outs[o] ==> f < o) ==>
          bound <= EntryOf(v, f, k))
      && (forall o :: o in outs && k in outs[o] && (forall f :: f in rest && Holds(v, f, k) ==> o < f) ==>
            bound <= outs[o][k])
  {
    var all := rest + outs.Keys;
    var a := AnswerExists(v', all, k);
    assert forall f :: Answers(v', all, k, f) ==> f == a;
    if a in rest {
      assert Answers(v, rest, k, a);
      assert forall f :: Answers(v, rest, k, f) ==> f == a;
      assert forall o :: o in outs && k in outs[o] ==> a < o;
    } else {
      assert forall f :: f in rest && Holds(v, f, k) ==> a < f;
    }
  }

  /** `FreshAfterMerge` for every memtable the inputs carry and every key it wrote. */
  ghost predicate MergeSafe(x: View, inputs: set<FileNo>, outs: map<FileNo, map<Key, SeqNo>>) {
    forall m, k :: m in x.l0 && m in x.tables && Carries(x.v, inputs, m) && k in x.tables[m] ==>
      FreshAfterMerge(x.v, inputs, outs, x.l0[m], k, x.tables[m][k])
  }

  /** A level-0 merge keeps all reads fresh exactly when it is safe beforehand. */
  lemma {:induction false} MergeKeepsReadsIff(x: View, inputs: set<FileNo>, outs: map<FileNo, map<Key, SeqNo>>,
                                              x': View)
    requires ViewInv(x) && Merges(x, inputs, outs, x')
    ensures ViewInv(x') <==> MergeSafe(x, inputs, outs)
  {
    hide MergeOutputs, FreshAfterMerge, ReadsAtLeast, LevelsOrdered;
    MergeKeepsLinks(x, inputs, outs, x');
    forall m, k | m in x.l0 && k in x.tables[m]
      ensures ReadsAtLeast(x'.v, x'.l0[m], k, x.tables[m][k]) <==>
              (Carries(x.v, inputs, m) ==> FreshAfterMerge(x.v, inputs, outs, x.l0[m], k, x.tables[m][k]))
    {
      if Carries(x.v, inputs, m) {
        MergeReadIff(x.v, inputs, outs, x'.v, x.l0[m], k, x.tables[m][k]);
      } else {
        UntouchedByMerge(x, inputs, outs, x', m, k);
      }
    }
  }

  lemma {:induction false} UntouchedByMerge(x: View, inputs: set<FileNo>, outs: map<FileNo, map<Key, SeqNo>>, x': View,
                                            m: MemId, k: Key)
    requires ViewInv(x) && Merges(x, inputs, outs, x')
    requires m in x.l0 && k in x.tables[m] && !Carries(x.v, inputs, m)
    ensures ReadsAtLeast(x'.v, x'.l0[m], k, x.tables[m][k])
  {
    assert forall f :: f in x.l0[m] ==> f !in inputs;
    SameFilesSameRead(x.v, x'.v, x.l0[m], k, x.tables[m][k]);
  }

  /** An output that is numbered below a file left behind, for a memtable the merge touches, is not
      older than that file. */
  ghost predicate OutputsYield(x: View, inputs: set<FileNo>, outs: map<FileNo, map<Key, SeqNo>>) {
    forall m, g, o, k ::
      (m in x.l0 && Carries(x.v, inputs, m) && g in x.l0[m] && g !in inputs && Holds(x.v, g, k) && o in outs
        && k in outs[o])
      ==> g < o || EntryOf(x.v, g, k) <= outs[o][k]
  }

  /** A discipline that can be checked on files alone. */
  lemma {:induction false} CarefulMergeIsSafe(x: View, inputs: set<FileNo>, outs: map<FileNo, map<Key, SeqNo>>)
    requires ViewInv(x) && MergeOutputs(x.v, inputs, outs)
    requires KeepsWinners(x, inputs) && OutputsYield(x, inputs, outs) && NotOlderThanLevels(x.v, inputs)
    ensures MergeSafe(x, inputs, outs)
  {
    hide FreshAfterMerge, MergeOutputs, KeepsWinners, OutputsYield, NotOlderThanLevels;
    forall m, k | m in x.l0 && Carries(x.v, inputs, m) && k in x.tables[m]
      ensures FreshAfterMerge(x.v, inputs, outs, x.l0[m], k, x.tables[m][k])
    {
      CarefulMergeIsFresh(x, inputs, outs, m, k);
    }
  }

  lemma {:induction false} CarefulMergeKeepsReads(x: View, inputs: set<FileNo>, outs: map<FileNo, map<Key, SeqNo>>,
                                                  x': View)
    requires ViewInv(x) && Merges(x, inputs, outs, x')
    requires KeepsWinners(x, inputs) && OutputsYield(x, inputs, outs) && NotOlderThanLevels(x.v, inputs)
    ensures ViewInv(x')
  {
    CarefulMergeIsSafe(x, inputs, outs);
    MergeKeepsReadsIff(x, inputs, outs, x');
  }

  lemma {:induction false} CarefulMergeIsFresh(x: View, inputs: set<FileNo>, outs: map<FileNo, map<Key, SeqNo>>,
                                               m: MemId, k: Key)
    requires x.tables.Keys == x.l0.Keys && m in x.l0 && Carries(x.v, inputs, m) && k in x.tables[m]
    requires ReadsAtLeast(x.v, x.l0[m], k, x.tables[m][k]) && MergeOutputs(x.v, inputs, outs)
    requires KeepsWinners(x, inputs) && OutputsYield(x, inputs, outs) && NotOlderThanLevels(x.v, inputs)
    ensures FreshAfterMerge(x.v, inputs, outs, x.l0[m], k, x.tables[m][k])
  {
    hide Search;
    var rest, bound := x.l0[m] - inputs, x.tables[m][k];
    if InFiles(x.v, x.l0[m], k) {
      var a := AnswerExists(x.v, x.l0[m], k);
      if InFiles(x.v, rest, k) {
        var g :| g in rest && Holds(x.v, g, k);
        assert a in rest && Answers(x.v, rest, k, a);
        assert forall f :: Answers(x.v, rest, k, f) ==> f == a;
      } else {
        assert a in inputs && forall o :: o in outs && k in outs[o] ==> EntryOf(x.v, a, k) <= outs[o][k];
      }
    }
  }

  // ---------- level 0 to level 1 ----------

  function Newer(a: SeqNo, b: SeqNo): SeqNo {
    if a < b then b else a
  }

  /** What level 1 holds for a key after it has absorbed the entry e. */
  function Absorbed(l1: map<Key, SeqNo>, k: Key, e: SeqNo): SeqNo {
    if k in l1 then Newer(e, l1[k]) else e
  }

  /** Level 1 after absorbing the inputs together with every level-1 file they overlap. */
  ghost predicate Absorbs(v: Version, inputs: set<FileNo>, l1: map<Key, SeqNo>, l1': map<Key, SeqNo>) {
    && (forall k :: k in l1' <==> k in l1 || InFiles(v, inputs, k))
    && (forall k :: k in l1' && !InFiles(v, inputs, k) ==> l1'[k] == l1[k])
    && (forall k, e :: k in l1' && NewestIn(v, inputs, k, e) ==> l1'[k] == Absorbed(l1, k, e))
  }

  ghost predicate PushedVersion(v: Version, inputs: set<FileNo>, v': Version) {
    && inputs <= v.l0.Keys
    && |v.levels| > 0 && |v'.levels| == |v.levels| && v'.ordered == v.ordered
    && v'.l0.Keys == v.l0.Keys - inputs
    && (forall f :: f in v'.l0 ==> v'.l0[f] == v.l0[f])
    && Absorbs(v, inputs, v.levels[0], v'.levels[0])
    && v'.levels[1..] == v.levels[1..]
  }

  ghost predicate Pushes(x: View, inputs: set<FileNo>, x': View) {
    && PushedVersion(x.v, inputs, x'.v)
    && x'.tables == x.tables
    && x'.l0.Keys == x.l0.Keys
    && (forall m :: m in x.l0 ==> x'.l0[m] == x.l0[m] - inputs)
  }

  lemma {:induction false} NewestExists(v: Version, inputs: set<FileNo>, k: Key) returns (e: SeqNo)
    requires InFiles(v, inputs, k)
    ensures NewestIn(v, inputs, k, e)
    decreases |inputs|
  {
    var f :| f in inputs && Holds(v, f, k);
    e := EntryOf(v, f, k);
    if !NewestIn(v, inputs, k, e) {
      var g :| g in inputs && Holds(v, g, k) && e < EntryOf(v, g, k);
      var rest := inputs - {f};
      assert g in rest;
      e := NewestExists(v, rest, k);
    }
  }

  lemma {:induction false} FirstHitAbove(levels: seq<map<Key, SeqNo>>, k: Key, i: nat)
    requires i < |levels| && k in levels[i]
    ensures FirstHit(levels, k).Some?
    ensures LevelsOrdered(levels) ==> levels[i][k] <= FirstHit(levels, k).value
  {
    if i > 0 && k !in levels[0] {
      assert LevelsOrdered(levels) ==> LevelsOrdered(levels[1..]);
      FirstHitAbove(levels[1..], k, i - 1);
    }
  }

  /** What a search of the lower levels finds after a push whose newest entry of the key is e. */
  function PushedHit(v: Version, k: Key, e: SeqNo): SeqNo
    requires |v.levels| > 0
  {
    if !v.ordered && DeepestHit(v.levels[1..], k).Some? then DeepestHit(v.levels[1..], k).value
    else Absorbed(v.levels[0], k, e)
  }

  lemma {:induction false} PushedSearch(v: Version, inputs: set<FileNo>, v': Version, k: Key)
    requires PushedVersion(v, inputs, v')
    ensures !InFiles(v, inputs, k) ==> Search(v', k) == Search(v, k)
    ensures forall e :: NewestIn(v, inputs, k, e) ==> Search(v', k) == Some(PushedHit(v, k, e))
  {
    assert v'.levels[1..] == v.levels[1..];
    assert forall e :: NewestIn(v, inputs, k, e) ==> InFiles(v, inputs, k) && k in v'.levels[0];
  }

  /** No level below level 1 holds something newer than what level 1 newly gets for a key. */
  ghost predicate NewKeysNewest(v: Version, inputs: set<FileNo>) {
    forall k, e, j ::
      (NewestIn(v, inputs, k, e) && 0 < j < |v.levels| && k !in v.levels[0] && k in v.levels[j])
      ==> v.levels[j][k] <= e
  }

  /** What a read through the files `fns` will find: a file left behind if one holds the key,
      otherwise what the search of the lower levels finds after the push. */
  ghost predicate FreshAfterPush(v: Version, inputs: set<FileNo>, fns: set<FileNo>, k: Key, bound: SeqNo)
    requires |v.levels| > 0
  {
    if InFiles(v, fns - inputs, k) then forall f :: Answers(v, fns - inputs, k, f) ==> bound <= EntryOf(v, f, k)
    else forall e :: NewestIn(v, inputs, k, e) ==> bound <= PushedHit(v, k, e)
  }

  lemma {:induction false} PushOrderIff(v: Version, inputs: set<FileNo>, v': Version)
    requires LevelsOrdered(v.levels) && PushedVersion(v, inputs, v')
    ensures LevelsOrdered(v'.levels) <==> NewKeysNewest(v, inputs)
  {
    assert forall i :: 0 < i < |v.levels| ==> v'.levels[i] == v'.levels[1..][i - 1] == v.levels[i];
    if LevelsOrdered(v'.levels) {
      forall k, e, j | NewestIn(v, inputs, k, e) && 0 < j < |v.levels| && k !in v.levels[0] && k in v.levels[j]
        ensures v.levels[j][k] <= e
      {
        assert InFiles(v, inputs, k);
        assert v'.levels[j][k] <= v'.levels[0][k];
      }
    }
    if NewKeysNewest(v, inputs) {
      forall j, k | 0 < j < |v.levels| && k in v'.levels[0] && k in v'.levels[j]
        ensures v'.levels[j][k] <= v'.levels[0][k]
      {
        if InFiles(v, inputs, k) {
          var e := NewestExists(v, inputs, k);
        }
      }
    }
  }

  lemma {:induction false} PushReadIff(v: Version, inputs: set<FileNo>, v': Version, fns: set<FileNo>, k: Key,
                                       bound: SeqNo)
    requires PushedVersion(v, inputs, v') && fns <= v.l0.Keys && ReadsAtLeast(v, fns, k, bound)
    ensures ReadsAtLeast(v', fns - inputs, k, bound) <==> FreshAfterPush(v, inputs, fns, k, bound)
  {
    var rest := fns - inputs;
    PushedSearch(v, inputs, v', k);
    assert forall f :: f in rest ==> (Holds(v, f, k) <==> Holds(v', f, k)) && v'.l0[f] == v.l0[f];
    hide PushedVersion, Search, PushedHit;
    if InFiles(v, rest, k) {
      assert InFiles(v', rest, k);
      assert forall f :: Answers(v', rest, k, f) <==> Answers(v, rest, k, f);
    } else {
      assert !InFiles(v', rest, k);
      if InFiles(v, inputs, k) {
        var e := NewestExists(v, inputs, k);
        assert forall d :: NewestIn(v, inputs, k, d) ==> d == e;
      } else {
        assert !InFiles(v, fns, k) && forall e :: !NewestIn(v, inputs, k, e);
      }
    }
  }

  lemma {:induction false} RecordedFilesExist(x: View, m: MemId)
    requires Linked(x) && m in x.l0
    ensures x.l0[m] <= x.v.l0.Keys
  {
  }

  lemma {:induction false} PushKeepsLinks(x: View, inputs: set<FileNo>, x': View)
    requires Linked(x) && Pushes(x, inputs, x')
    ensures Linked(x')
  {
    hide Absorbs;
  }

  /** New keys of level 1 are newest where the order of levels matters, and `FreshAfterPush` for every
      memtable and every key it wrote. */
  ghost predicate PushSafe(x: View, inputs: set<FileNo>) {
    && |x.v.levels| > 0 && (x.v.ordered ==> NewKeysNewest(x.v, inputs))
    && forall m, k :: m in x.l0 && m in x.tables && k in x.tables[m] ==>
         FreshAfterPush(x.v, inputs, x.l0[m], k, x.tables[m][k])
  }

  /** A push into level 1 keeps all reads fresh, and the levels in order where that matters, exactly
      when it is safe beforehand. */
  lemma {:induction false} PushKeepsReadsIff(x: View, inputs: set<FileNo>, x': View)
    requires ViewInv(x) && Pushes(x, inputs, x')
    ensures ViewInv(x') <==> PushSafe(x, inputs)
  {
    assert |x.v.levels| > 0 && x'.v.ordered == x.v.ordered;
    hide PushedVersion, FreshAfterPush, ReadsAtLeast, LevelsOrdered, NewKeysNewest, Linked;
    PushKeepsLinks(x, inputs, x');
    if x.v.ordered {
      PushOrderIff(x.v, inputs, x'.v);
    }
    forall m, k | m in x.l0 && k in x.tables[m]
      ensures ReadsAtLeast(x'.v, x'.l0[m], k, x.tables[m][k]) <==>
        FreshAfterPush(x.v, inputs, x.l0[m], k, x.tables[m][k])
    {
      RecordedFilesExist(x, m);
      PushReadIff(x.v, inputs, x'.v, x.l0[m], k, x.tables[m][k]);
    }
  }

  /** Nothing that stays below level 1 is older than the inputs where it would win the search. */
  ghost predicate NotNewerThanDepths(v: Version, inputs: set<FileNo>)
    requires |v.levels| > 0
  {
    forall k, e: SeqNo :: NewestIn(v, inputs, k, e) && DeepestHit(v.levels[1..], k).Some? ==>
      e <= DeepestHit(v.levels[1..], k).value
  }

  ghost predicate PushDiscipline(v: Version, inputs: set<FileNo>) {
    |v.levels| > 0 && if v.ordered then NotOlderThanLevels(v, inputs) else NotNewerThanDepths(v, inputs)
  }

  /** A discipline that can be checked on files alone, for either way of searching the levels. */
  lemma {:induction false} CarefulPushIsSafe(x: View, inputs: set<FileNo>)
    requires ViewInv(x) && KeepsWinners(x, inputs) && PushDiscipline(x.v, inputs)
    ensures PushSafe(x, inputs)
  {
    if x.v.ordered {
      forall k, e, j | NewestIn(x.v, inputs, k, e) && 0 < j < |x.v.levels| && k !in x.v.levels[0] && k in x.v.levels[j]
        ensures x.v.levels[j][k] <= e
      {
        FirstHitAbove(x.v.levels, k, j);
      }
    }
    forall m, k | m in x.l0 && k in x.tables[m]
      ensures FreshAfterPush(x.v, inputs, x.l0[m], k, x.tables[m][k])
    {
      CarefulPushIsFresh(x, inputs, m, k);
    }
  }

  lemma {:induction false} CarefulPushKeepsReads(x: View, inputs: set<FileNo>, x': View)
    requires ViewInv(x) && Pushes(x, inputs, x')
    requires KeepsWinners(x, inputs) && PushDiscipline(x.v, inputs)
    ensures ViewInv(x')
  {
    CarefulPushIsSafe(x, inputs);
    PushKeepsReadsIff(x, inputs, x');
  }

  lemma {:induction false} CarefulPushIsFresh(x: View, inputs: set<FileNo>, m: MemId, k: Key)
    requires x.tables.Keys == x.l0.Keys && m in x.l0 && k in x.tables[m]
    requires ReadsAtLeast(x.v, x.l0[m], k, x.tables[m][k]) && KeepsWinners(x, inputs) && PushDiscipline(x.v, inputs)
    ensures FreshAfterPush(x.v, inputs, x.l0[m], k, x.tables[m][k])
  {
    var rest, bound := x.l0[m] - inputs, x.tables[m][k];
    if InFiles(x.v, x.l0[m], k) {
      var a := AnswerExists(x.v, x.l0[m], k);
      if InFiles(x.v, rest, k) {
        var g :| g in rest && Holds(x.v, g, k);
        assert a in rest && Answers(x.v, rest, k, a);
        assert forall f :: Answers(x.v, rest, k, f) ==> f == a;
      } else {
        assert forall e :: NewestIn(x.v, inputs, k, e) ==> bound <= e;
      }
    } else {
      assert !InFiles(x.v, rest, k);
    }
  }

  // ---------- level i to level i + 1 ----------

  ghost predicate LoweredVersion(v: Version, i: nat, keys: set<Key>, v': Version) {
    && i + 1 < |v.levels| && keys <= v.levels[i].Keys
    && v'.l0 == v.l0 && v'.ordered == v.ordered
    && |v'.levels| == |v.levels|
    && (forall j :: 0 <= j < |v.levels| && j != i && j != i + 1 ==> v'.levels[j] == v.levels[j])
    && v'.levels[i] == v.levels[i] - keys
    && v'.levels[i + 1].Keys == v.levels[i + 1].Keys + keys
    && (forall k :: k in v'.levels[i + 1] ==>
          v'.levels[i + 1][k] == if k in keys then Absorbed(v.levels[i + 1], k, v.levels[i][k]) else v.levels[i + 1][k])
  }

  ghost predicate Lowers(x: View, i: nat, keys: set<Key>, x': View) {
    LoweredVersion(x.v, i, keys, x'.v) && x'.tables == x.tables && x'.l0 == x.l0
  }

  lemma {:induction false} FirstHitAt(levels: seq<map<Key, SeqNo>>, k: Key, i: nat)
    requires i < |levels| && k in levels[i] && forall j :: 0 <= j < i ==> k !in levels[j]
    ensures FirstHit(levels, k) == Some(levels[i][k])
  {
    if i > 0 {
      FirstHitAt(levels[1..], k, i - 1);
    }
  }

  lemma {:induction false} FirstLevel(levels: seq<map<Key, SeqNo>>, k: Key) returns (i: nat)
    requires FirstHit(levels, k).Some?
    ensures i < |levels| && k in levels[i] && forall j :: 0 <= j < i ==> k !in levels[j]
  {
    if k in levels[0] {
      i := 0;
    } else {
      var j := FirstLevel(levels[1..], k);
      i := j + 1;
      assert forall h :: 0 < h < i ==> levels[h] == levels[1..][h - 1];
    }
  }

  lemma {:induction false} NoDeeperHit(levels: seq<map<Key, SeqNo>>, k: Key)
    ensures DeepestHit(levels, k).None? <==> forall j :: 0 <= j < |levels| ==> k !in levels[j]
  {
    if levels != [] {
      NoDeeperHit(levels[1..], k);
      assert forall j :: 0 < j < |levels| ==> levels[j] == levels[1..][j - 1];
    }
  }

  lemma {:induction false} DeepestHitAt(levels: seq<map<Key, SeqNo>>, k: Key, i: nat)
    requires i < |levels| && k in levels[i] && forall j :: i < j < |levels| ==> k !in levels[j]
    ensures DeepestHit(levels, k) == Some(levels[i][k])
  {
    if i > 0 {
      assert forall j :: 0 < j < |levels| ==> levels[j] == levels[1..][j - 1];
      DeepestHitAt(levels[1..], k, i - 1);
    } else {
      NoDeeperHit(levels[1..], k);
      assert forall j :: 0 <= j < |levels[1..]| ==> levels[1..][j] == levels[j + 1];
    }
  }

  lemma {:induction false} DeepestLevel(levels: seq<map<Key, SeqNo>>, k: Key) returns (i: nat)
    requires DeepestHit(levels, k).Some?
    ensures i < |levels| && k in levels[i] && forall j :: i < j < |levels| ==> k !in levels[j]
  {
    NoDeeperHit(levels[1..], k);
    if DeepestHit(levels[1..], k).Some? {
      var j := DeepestLevel(levels[1..], k);
      i := j + 1;
    } else {
      i := 0;
    }
    assert forall h :: 0 < h < |levels| ==> levels[h] == levels[1..][h - 1];
  }

  /** Some level holds what a search finds. */
  lemma {:induction false} HitWitness(v: Version, k: Key) returns (i: nat)
    requires Search(v, k).Some?
    ensures i < |v.levels| && k in v.levels[i] && Search(v, k).value == v.levels[i][k]
  {
    if v.ordered {
      i := FirstLevel(v.levels, k);
      FirstHitAt(v.levels, k, i);
    } else {
      i := DeepestLevel(v.levels, k);
      DeepestHitAt(v.levels, k, i);
    }
  }

  lemma {:induction false} LowerKeepsFirstHit(x: View, i: nat, keys: set<Key>, x': View, k: Key)
    requires LevelsOrdered(x.v.levels) && Lowers(x, i, keys, x') && FirstHit(x.v.levels, k).Some?
    ensures FirstHit(x'.v.levels, k) == FirstHit(x.v.levels, k)
  {
    var j := FirstLevel(x.v.levels, k);
    FirstHitAt(x.v.levels, k, j);
    FirstHitAt(x'.v.levels, k, if j == i && k in keys then i + 1 else j);
  }

  lemma {:induction false} LowerKeepsOrder(x: View, i: nat, keys: set<Key>, x': View)
    requires LevelsOrdered(x.v.levels) && Lowers(x, i, keys, x')
    ensures LevelsOrdered(x'.v.levels)
  {
    var old', new' := x.v.levels, x'.v.levels;
    forall a, b, k | 0 <= a < b < |new'| && k in new'[a] && k in new'[b]
      ensures new'[b][k] <= new'[a][k]
    {
      assert b == i + 1 ==> k in old'[i + 1] || k in old'[i];
      assert a == i + 1 ==> k in old'[i + 1] || k in old'[i];
    }
  }

  lemma {:induction false} LowerKeepsLinks(x: View, i: nat, keys: set<Key>, x': View)
    requires Linked(x) && Lowers(x, i, keys, x')
    ensures Linked(x')
  {
  }

  /** The key moves into the deepest level that holds it, over an older entry. */
  ghost predicate Overtakes(v: Version, i: nat, keys: set<Key>, k: Key) {
    && i + 1 < |v.levels| && k in keys && k in v.levels[i] && k in v.levels[i + 1]
       && v.levels[i + 1][k] < v.levels[i][k]
    && forall j :: i + 1 < j < |v.levels| ==> k !in v.levels[j]
  }

  /** Where the deepest level wins, moving keys down makes a read newer exactly when a newer entry
      overtakes the one that won, and never older. */
  lemma {:induction false} LowerDeepestIff(x: View, i: nat, keys: set<Key>, x': View, k: Key)
    requires Lowers(x, i, keys, x') && DeepestHit(x.v.levels, k).Some?
    ensures DeepestHit(x'.v.levels, k).Some? && DeepestHit(x.v.levels, k).value <= DeepestHit(x'.v.levels, k).value
    ensures DeepestHit(x'.v.levels, k) == DeepestHit(x.v.levels, k) <==> !Overtakes(x.v, i, keys, k)
  {
    var j := DeepestLevel(x.v.levels, k);
    DeepestHitAt(x.v.levels, k, j);
    DeepestHitAt(x'.v.levels, k, if j == i && k in keys then i + 1 else j);
  }

  /** Moving part of a lower level one level down makes no read older; with ordered flush it changes
      no read at all. */
  lemma {:induction false} LowerKeepsReads(x: View, i: nat, keys: set<Key>, x': View)
    requires ViewInv(x) && Lowers(x, i, keys, x')
    ensures ViewInv(x')
    ensures forall k :: Search(x.v, k).Some? ==>
      if x.v.ordered || !Overtakes(x.v, i, keys, k) then Search(x'.v, k) == Search(x.v, k)
      else Search(x'.v, k).Some? && Search(x.v, k).value < Search(x'.v, k).value
  {
    hide ReadsAtLeast, LevelsOrdered, Linked;
    LowerKeepsLinks(x, i, keys, x');
    if x.v.ordered {
      LowerKeepsOrder(x, i, keys, x');
    }
    forall k | Search(x.v, k).Some?
      ensures Search(x'.v, k).Some? && Search(x.v, k).value <= Search(x'.v, k).value
      ensures Search(x'.v, k) == Search(x.v, k) <==> x.v.ordered || !Overtakes(x.v, i, keys, k)
    {
      if x.v.ordered {
        LowerKeepsFirstHit(x, i, keys, x', k);
      } else {
        LowerDeepestIff(x, i, keys, x', k);
      }
    }
    forall m, k | m in x.l0 && k in x.tables[m]
      ensures ReadsAtLeast(x'.v, x'.l0[m], k, x.tables[m][k])
    {
      RecordedFilesExist(x, m);
      SameFilesSameRead(x.v, x'.v, x.l0[m], k, x.tables[m][k]);
    }
  }
}
