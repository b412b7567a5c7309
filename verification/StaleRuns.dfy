/** Runs in which one unsafe push, or one unsafe merge, turns a read stale.

    The runs are built step by step.  `Reachable` says that some run of the read path ends in a state;
    `SettlesTo` says that one state leads to another without any Put and without beginning another
    install.  Every lemma below carries one of them over one or more steps. */
module StaleRuns {
  import opened Installs
  import opened Options
  import opened ReadPath

  ghost predicate Reachable(s: State) {
    exists trace :: Run(trace) && trace[|trace| - 1] == s
  }

  lemma {:induction false} StartReachable(s: State)
    requires Init(s)
    ensures Reachable(s)
  {
    assert Run([s]) && [s][0] == s;
  }

  lemma {:induction false} StepReachable(s: State, s': State)
    requires Reachable(s) && Next(s, s')
    ensures Reachable(s')
  {
    hide Init, Next;
    var trace :| Run(trace) && trace[|trace| - 1] == s;
    var longer := trace + [s'];
    forall i | 0 <= i < |longer| - 1
      ensures Next(longer[i], longer[i + 1])
    {
      if i + 1 < |trace| {
        assert longer[i] == trace[i] && longer[i + 1] == trace[i + 1];
      }
    }
    assert Run(longer) && longer[|longer| - 1] == s';
  }

  /** The install under way moves on, memory is freed, or a reader moves. */
  ghost predicate Settles(s: State, s': State) {
    || (s' == s.(st := s'.st) && (Commit(s.st, s'.st) || exists m :: Touch(s.st, s'.st, m)))
    || (exists m :: FreeMem(s, s', m))
    || ReaderStep(s, s')
  }

  ghost predicate SettlingRun(trace: seq<State>) {
    |trace| > 0 && forall i :: 0 <= i < |trace| - 1 ==> Settles(trace[i], trace[i + 1])
  }

  ghost predicate SettlesTo(s: State, s': State) {
    exists trace :: SettlingRun(trace) && trace[0] == s && trace[|trace| - 1] == s'
  }

  lemma {:induction false} SettlesAtOnce(s: State)
    ensures SettlesTo(s, s)
  {
    assert SettlingRun([s]) && [s][0] == s;
  }

  lemma {:induction false} SettleStep(from: State, s: State, s': State)
    requires SettlesTo(from, s) && Settles(s, s')
    ensures SettlesTo(from, s')
  {
    hide Settles;
    var trace :| SettlingRun(trace) && trace[0] == from && trace[|trace| - 1] == s;
    var longer := trace + [s'];
    forall i | 0 <= i < |longer| - 1
      ensures Settles(longer[i], longer[i + 1])
    {
      if i + 1 < |trace| {
        assert longer[i] == trace[i] && longer[i + 1] == trace[i + 1];
      }
    }
    assert SettlingRun(longer) && longer[0] == from && longer[|longer| - 1] == s';
  }

  lemma {:induction false} SettlesIsNext(s: State, s': State)
    requires Settles(s, s')
    ensures Next(s, s')
  {
    hide Touch, Commit, FreeMem, ReaderStep;
    if !ReaderStep(s, s') && !(exists m :: FreeMem(s, s', m)) {
      assert InstallStep(s.st, s'.st);
    } else if m :| FreeMem(s, s', m) {
      assert WriterStep(s, s');
    }
  }

  lemma {:induction false} RunReachable(trace: seq<State>, n: nat)
    requires SettlingRun(trace) && n < |trace| && Reachable(trace[0])
    ensures Reachable(trace[n])
  {
    hide Reachable, Settles;
    if n > 0 {
      RunReachable(trace, n - 1);
      assert Settles(trace[n - 1], trace[n - 1 + 1]);
      SettlesIsNext(trace[n - 1], trace[n]);
      StepReachable(trace[n - 1], trace[n]);
    }
  }

  lemma {:induction false} SettledReachable(s: State, s': State)
    requires Reachable(s) && SettlesTo(s, s')
    ensures Reachable(s')
  {
    hide Reachable, Settles;
    var trace :| SettlingRun(trace) && trace[0] == s && trace[|trace| - 1] == s';
    RunReachable(trace, |trace| - 1);
  }

  // ---------- writers ----------

  function WithMem(s: State, m: MemId, mem: Mem): State {
    s.(st := s.st.(mems := s.st.mems[m := mem]))
  }

  lemma {:induction false} NewMemReaches(s: State, m: MemId)
    requires Reachable(s) && m !in s.st.mems
    ensures Reachable(WithMem(s, m, Mem(map[], false, false, true, {}, 0)))
  {
    var s' := WithMem(s, m, Mem(map[], false, false, true, {}, 0));
    assert NewMem(s, s', m) && WriterStep(s, s');
    StepReachable(s, s');
  }

  lemma {:induction false} FreezeReaches(s: State, m: MemId)
    requires Reachable(s) && m in s.st.mems && s.c.puts == map[]
    ensures Reachable(WithMem(s, m, s.st.mems[m].(immutable := true)))
  {
    var s' := WithMem(s, m, s.st.mems[m].(immutable := true));
    assert Freeze(s, s', m) && WriterStep(s, s');
    StepReachable(s, s');
  }

  lemma {:induction false} FreeReaches(from: State, s: State, m: MemId)
    requires SettlesTo(from, s) && m in s.st.mems && s.st.mems[m].flushed && s.readers == map[]
    ensures SettlesTo(from, WithMem(s, m, s.st.mems[m].(live := false)))
  {
    hide SettlesTo;
    var s' := WithMem(s, m, s.st.mems[m].(live := false));
    assert FreeMem(s, s', m) && Settles(s, s');
    SettleStep(from, s, s');
  }

  /** A whole Put. */
  function WithPut(s: State, k: Key, m: MemId): State
    requires m in s.st.mems && s.c.slots > 0
  {
    var mem := s.st.mems[m];
    WithMem(s, m, mem.(table := mem.table[k := s.c.nextSeq])).(
      c := s.c.(nextSeq := s.c.nextSeq + 1, started := s.c.started[k := s.c.nextSeq],
                index := s.c.index[k % s.c.slots := m], done := s.c.done[k := s.c.nextSeq]))
  }

  lemma {:induction false} PutReaches(s: State, k: Key, m: MemId)
    requires Reachable(s) && k in s.c.keys && s.c.puts == map[] && s.c.slots > 0
    requires m in s.st.mems && !s.st.mems[m].immutable
    ensures Reachable(WithPut(s, k, m))
  {
    hide Reachable;
    var n, mem := s.c.nextSeq, s.st.mems[m];
    var s1 := s.(c := s.c.(puts := s.c.puts[k := InFlight(m, n, false)], nextSeq := n + 1,
                           started := s.c.started[k := n]));
    assert PutBegin(s, s1, k, m) && WriterStep(s, s1);
    StepReachable(s, s1);
    var s2 := s1.(c := s1.c.(puts := s1.c.puts[k := InFlight(m, n, true)]),
                  st := s1.st.(mems := s1.st.mems[m := mem.(table := mem.table[k := n])]));
    assert PutAdd(s1, s2, k) && WriterStep(s1, s2);
    StepReachable(s1, s2);
    var s3 := s2.(c := s2.c.(puts := s2.c.puts - {k}, index := s2.c.index[k % s2.c.slots := m],
                             done := s2.c.done[k := n]));
    assert PutIndex(s2, s3, k) && WriterStep(s2, s3);
    StepReachable(s2, s3);
    assert s2.c.puts - {k} == s.c.puts;
    assert s3 == WithPut(s, k, m);
  }

  // ---------- installs ----------

  function WithStore(s: State, st: Store): State {
    s.(st := st)
  }

  lemma {:induction false} InstallReaches(s: State, st': Store)
    requires Reachable(s) && InstallStep(s.st, st')
    ensures Reachable(WithStore(s, st'))
  {
    hide InstallStep;
    StepReachable(s, WithStore(s, st'));
  }

  lemma {:induction false} DrawReaches(s: State)
    requires Reachable(s)
    ensures Reachable(WithStore(s, s.st.(drawn := s.st.drawn + {s.st.nextFile}, nextFile := s.st.nextFile + 1)))
  {
    InstallReaches(s, s.st.(drawn := s.st.drawn + {s.st.nextFile}, nextFile := s.st.nextFile + 1));
  }

  /** The store once a version is installed and the records of its memtables are rewritten. */
  function Installed(st: Store, v: Version, mems: map<MemId, Mem>, used: set<FileNo>): Store {
    st.(mems := mems, versions := st.versions[st.nextVersion := v], current := st.nextVersion,
        nextVersion := st.nextVersion + 1, drawn := st.drawn - used)
  }

  lemma {:induction false} StoreSettles(from: State, s: State, st: Store, st': Store)
    requires SettlesTo(from, WithStore(s, st)) && (Commit(st, st') || exists m :: Touch(st, st', m))
    ensures SettlesTo(from, WithStore(s, st'))
  {
    hide SettlesTo, Commit, Touch;
    assert Settles(WithStore(s, st), WithStore(s, st'));
    SettleStep(from, WithStore(s, st), WithStore(s, st'));
  }

  lemma {:induction false} CommitReaches(from: State, s: State, st: Store, v: Version, used: set<FileNo>)
    requires st.install.None? && SettlesTo(from, WithStore(s, Begun(st, v, map[], used)))
    ensures SettlesTo(from, WithStore(s, Installed(st, v, st.mems, used)))
  {
    hide SettlesTo;
    assert Commit(Begun(st, v, map[], used), Installed(st, v, st.mems, used));
    StoreSettles(from, s, Begun(st, v, map[], used), Installed(st, v, st.mems, used));
  }

  lemma {:induction false} TouchReaches(from: State, s: State, st: Store, v: Version, todo: map<MemId, Edit>,
                                        used: set<FileNo>, m: MemId)
    requires st.install.None? && SettlesTo(from, WithStore(s, Begun(st, v, todo, used))) && m in todo && m in st.mems
    ensures SettlesTo(from, WithStore(s, Begun(st.(mems := st.mems[m := Apply(st.mems[m], todo[m], st.nextVersion)]), v,
                                               todo - {m}, used)))
  {
    hide SettlesTo;
    var st' := Begun(st.(mems := st.mems[m := Apply(st.mems[m], todo[m], st.nextVersion)]), v, todo - {m}, used);
    assert Touch(Begun(st, v, todo, used), st', m);
    StoreSettles(from, s, Begun(st, v, todo, used), st');
  }

  /** Finish an install that touches one memtable. */
  lemma {:induction false} FinishOne(from: State, s: State, st: Store, v: Version, m: MemId, e: Edit, used: set<FileNo>)
    requires st.install.None? && SettlesTo(from, WithStore(s, Begun(st, v, map[m := e], used))) && m in st.mems
    ensures SettlesTo(from, WithStore(s, Installed(st, v, st.mems[m := Apply(st.mems[m], e, st.nextVersion)], used)))
  {
    hide SettlesTo;
    TouchReaches(from, s, st, v, map[m := e], used, m);
    assert map[m := e] - {m} == map[];
    var mid := st.(mems := st.mems[m := Apply(st.mems[m], e, st.nextVersion)]);
    CommitReaches(from, s, mid, v, used);
    assert Installed(mid, v, mid.mems, used) == Installed(st, v, mid.mems, used);
  }

  lemma {:induction false} FinishTwo(from: State, s: State, st: Store, v: Version, m: MemId, e: Edit, n: MemId, g: Edit,
                                     used: set<FileNo>)
    requires st.install.None? && m != n && m in st.mems && n in st.mems
    requires SettlesTo(from, WithStore(s, Begun(st, v, map[m := e, n := g], used)))
    ensures SettlesTo(from, WithStore(s, Installed(st, v, st.mems[m := Apply(st.mems[m], e, st.nextVersion)]
                                                                 [n := Apply(st.mems[n], g, st.nextVersion)], used)))
  {
    hide SettlesTo;
    TouchReaches(from, s, st, v, map[m := e, n := g], used, m);
    assert map[m := e, n := g] - {m} == map[n := g];
    var mid := st.(mems := st.mems[m := Apply(st.mems[m], e, st.nextVersion)]);
    FinishOne(from, s, mid, v, n, g, used);
  }

  function FlushedTo(v: Version, m: MemId, f: FileNo, table: map<Key, SeqNo>): Version {
    v.(l0 := v.l0[f := File(table, {m})])
  }

  /** Flush one memtable. */
  lemma {:induction false} FlushReaches(s: State, m: MemId, f: FileNo)
    requires Reachable(s) && s.st.install.None? && HasTarget(s.st) && m in s.st.mems && f in s.st.drawn
    requires s.st.mems[m].immutable && !s.st.mems[m].flushed && f !in s.st.versions[s.st.current].l0
    ensures var v := FlushedTo(s.st.versions[s.st.current], m, f, s.st.mems[m].table);
      Reachable(WithStore(s, Installed(s.st, v, s.st.mems[m := Apply(s.st.mems[m], SetFlushed(f), s.st.nextVersion)],
                                       {f})))
  {
    var st := s.st;
    var v, files := FlushedTo(st.versions[st.current], m, f, st.mems[m].table), map[m := f];
    var st' := Begun(st, v, map[m := SetFlushed(f)], {f});
    assert files.Values == {f} by {
      assert files.Keys == {m} && files[m] == f;
    }
    assert FlushEdits(files) == map[m := SetFlushed(f)];
    FlushStep(st.versions[st.current], m, f, st.mems[m].table);
    assert TablesOf(st, files.Keys) == map[m := st.mems[m].table];
    assert FlushBegin(st, st', files) && InstallStep(st, st');
    hide Reachable, SettlesTo;
    InstallReaches(s, st');
    SettlesAtOnce(WithStore(s, st'));
    FinishOne(WithStore(s, st'), s, st, v, m, SetFlushed(f), {f});
    var end := Installed(st, v, st.mems[m := Apply(st.mems[m], SetFlushed(f), st.nextVersion)], {f});
    SettledReachable(WithStore(s, st'), WithStore(s, end));
  }

  lemma {:induction false} FlushStep(v: Version, m: MemId, f: FileNo, table: map<Key, SeqNo>)
    requires f !in v.l0
    ensures FlushedVersion(v, map[m := f], map[m := table], FlushedTo(v, m, f, table))
  {
    var files := map[m := f];
    assert files.Keys == {m} && files[m] == f;
    assert files.Values == {f};
  }

  /** Level 1 absorbs a file whose keys it does not hold. */
  function PushedTo(v: Version, f: FileNo): Version
    requires f in v.l0 && |v.levels| > 0
  {
    v.(l0 := v.l0 - {f}, levels := [v.levels[0] + v.l0[f].entries] + v.levels[1..])
  }

  lemma {:induction false} PushStep(v: Version, f: FileNo)
    requires f in v.l0 && |v.levels| > 0 && v.l0[f].entries.Keys !! v.levels[0].Keys
    ensures PushedVersion(v, {f}, PushedTo(v, f))
  {
    var v' := PushedTo(v, f);
    assert v'.levels[1..] == v.levels[1..];
    assert forall k :: InFiles(v, {f}, k) <==> k in v.l0[f].entries by {
      forall k | k in v.l0[f].entries
        ensures InFiles(v, {f}, k)
      {
        assert f in {f} && Holds(v, f, k);
      }
    }
    assert forall k, e :: NewestIn(v, {f}, k, e) ==> k in v.l0[f].entries && e == v.l0[f].entries[k];
  }

  /** Push one file of one memtable. */
  lemma {:induction false} PushReaches(s: State, m: MemId, f: FileNo) returns (st': Store)
    requires Reachable(s) && !s.st.careful && s.st.install.None? && HasTarget(s.st) && m in s.st.mems
    requires var v := s.st.versions[s.st.current];
      f in v.l0 && v.l0[f].mids == {m} && |v.levels| > 0 && v.l0[f].entries.Keys !! v.levels[0].Keys
    ensures PushBegin(s.st, st', {f}) && Reachable(WithStore(s, st'))
    ensures var v := PushedTo(s.st.versions[s.st.current], f);
      var end := Installed(s.st, v, s.st.mems[m := Apply(s.st.mems[m], UpdateL0({}, {f}), s.st.nextVersion)], {});
      SettlesTo(WithStore(s, st'), WithStore(s, end)) && Reachable(WithStore(s, end))
  {
    var st, v := s.st, s.st.versions[s.st.current];
    st' := Begun(st, PushedTo(v, f), map[m := UpdateL0({}, {f})], {});
    PushStep(v, f);
    PushEdits(v, m, f);
    hide PushedVersion, PushedTo, MergeEdits, Reachable, SettlesTo;
    assert PushBegin(st, st', {f}) && InstallStep(st, st');
    InstallReaches(s, st');
    SettlesAtOnce(WithStore(s, st'));
    FinishOne(WithStore(s, st'), s, st, PushedTo(v, f), m, UpdateL0({}, {f}), {});
    var mems := st.mems[m := Apply(st.mems[m], UpdateL0({}, {f}), st.nextVersion)];
    SettledReachable(WithStore(s, st'), WithStore(s, Installed(st, PushedTo(v, f), mems, {})));
  }

  lemma {:induction false} PushEdits(v: Version, m: MemId, f: FileNo)
    requires f in v.l0 && v.l0[f].mids == {m}
    ensures {f} <= v.l0.Keys && MergeEdits(v, {f}, {}) == map[m := UpdateL0({}, {f})]
  {
    var edits := MergeEdits(v, {f}, {});
    assert Carries(v, {f}, m);
    assert edits.Keys == {m};
    var gone := set g | g in {f} && m in v.l0[g].mids;
    assert gone == {f} && edits[m] == UpdateL0({}, gone);
  }

  /** Move all of level 1 into an empty level 2. */
  lemma {:induction false} LowerReaches(s: State)
    requires Reachable(s) && s.st.install.None? && HasTarget(s.st)
    requires |s.st.versions[s.st.current].levels| == 2 && s.st.versions[s.st.current].levels[1] == map[]
    ensures var v := s.st.versions[s.st.current];
      Reachable(WithStore(s, Installed(s.st, v.(levels := [map[], v.levels[0]]), s.st.mems, {})))
  {
    var st, v := s.st, s.st.versions[s.st.current];
    var v' := v.(levels := [map[], v.levels[0]]);
    assert v.levels[0] - v.levels[0].Keys == map[];
    assert LoweredVersion(v, 0, v.levels[0].Keys, v');
    var st' := Begun(st, v', map[], {});
    assert LowerBegin(st, st', 0, v.levels[0].Keys) && InstallStep(st, st');
    hide Reachable, SettlesTo;
    InstallReaches(s, st');
    SettlesAtOnce(WithStore(s, st'));
    CommitReaches(WithStore(s, st'), s, st, v', {});
    SettledReachable(WithStore(s, st'), WithStore(s, Installed(st, v', st.mems, {})));
  }

  // ---------- a reader ----------

  function WithReader(s: State, x: Reader): State {
    s.(readers := map[0 := x])
  }

  lemma {:induction false} ReaderReaches(from: State, s: State, x: Reader, pc: Pc)
    requires SettlesTo(from, WithReader(s, x)) && ReaderMoves(s.st, x.key, x.pc, pc)
    ensures SettlesTo(from, WithReader(s, x.(pc := pc)))
  {
    hide ReaderMoves, SettlesTo;
    var s1, s2 := WithReader(s, x), WithReader(s, x.(pc := pc));
    assert s2 == s1.(readers := s1.readers[0 := s1.readers[0].(pc := pc)]);
    assert ReaderStep(s1, s2) && Settles(s1, s2);
    SettleStep(from, s1, s2);
  }

  lemma {:induction false} LookupReaches(from: State, s: State, k: Key)
    requires SettlesTo(from, s) && s.readers == map[] && s.c.slots > 0 && k in s.c.done
    ensures SettlesTo(from, WithReader(s, Reader(k, s.c.done[k], Looked(IndexAt(s.c, k)))))
  {
    hide SettlesTo;
    var x := Reader(k, s.c.done[k], Looked(IndexAt(s.c, k)));
    assert Lookup(s, 0, x);
    assert WithReader(s, x) == s.(readers := s.readers[0 := x]);
    assert ReaderStep(s, WithReader(s, x)) && Settles(s, WithReader(s, x));
    SettleStep(from, s, WithReader(s, x));
  }

  /** A whole read through a memtable that has been freed. */
  lemma {:induction false} ReadReaches(from: State, s: State, k: Key, m: MemId, result: Option<SeqNo>)
    requires SettlesTo(from, s) && s.readers == map[] && s.c.slots > 0 && k in s.c.done
    requires m == IndexAt(s.c, k) && m in s.st.mems && !s.st.mems[m].live
    requires s.st.current in s.st.versions && s.st.current !in s.st.closed && s.st.mems[m].lastVersion <= s.st.current
    requires ReadOutcome(s.st.versions[s.st.current], s.st.mems[m].l0, k, result)
    ensures SettlesTo(from, WithReader(s, Reader(k, s.c.done[k], Done(result))))
  {
    hide SettlesTo, WithReader, ReadOutcome, IndexAt;
    var st, x := s.st, Reader(k, s.c.done[k], Looked(m));
    LookupReaches(from, s, k);
    ReaderReaches(from, s, x, Choosing(m));
    ReaderReaches(from, s, x.(pc := Choosing(m)), Loaded(m, st.current));
    ReaderReaches(from, s, x.(pc := Loaded(m, st.current)), HoldsVersion(m, st.current));
    ReaderReaches(from, s, x.(pc := HoldsVersion(m, st.current)), HasFiles(m, st.current, st.mems[m].l0));
    ReaderReaches(from, s, x.(pc := HasFiles(m, st.current, st.mems[m].l0)), Done(result));
  }

  // ---------- what turning stale means ----------

  const KEY: Key := 7

  /** Every completed Put is readable, the last one of `KEY` is entry 2 in memtable 2, and a read of
      it returns that entry. */
  ghost predicate ReadsTwo(s: State, ordered: bool) {
    && !s.st.careful && KeysDistinct(s.c) && s.readers == map[] && s.st.install.None? && HasTarget(s.st)
    && s.st.versions[s.st.current].ordered == ordered
    && KEY in s.c.done && s.c.done[KEY] == 2 && IndexAt(s.c, KEY) == 2 && 2 in s.st.mems && s.st.mems[2].flushed
    && forall r :: ReadOutcome(s.st.versions[s.st.current], s.st.mems[2].l0, KEY, r) <==> r == Some(2)
  }

  /** An install that begins in s as st', and nothing else but a read, leads to a stale reader. */
  ghost predicate TurnsStale(s: State, st': Store, s': State, ordered: bool) {
    && Reachable(s) && ReadsTwo(s, ordered) && SettlesTo(WithStore(s, st'), s')
    && 0 in s'.readers && s'.readers[0] == Reader(KEY, 2, Done(Some(1)))
  }

  lemma {:induction false} StaleReads(from: State, s: State) returns (s': State)
    requires SettlesTo(from, s) && s.readers == map[] && s.c.slots > 0 && KEY in s.c.done && s.c.done[KEY] == 2
    requires IndexAt(s.c, KEY) == 2 && 2 in s.st.mems && s.st.mems[2].flushed
    requires s.st.current in s.st.versions && s.st.current !in s.st.closed && s.st.mems[2].lastVersion <= s.st.current
    requires ReadOutcome(s.st.versions[s.st.current], s.st.mems[2].l0, KEY, Some(1))
    ensures SettlesTo(from, s') && 0 in s'.readers && s'.readers[0] == Reader(KEY, 2, Done(Some(1)))
  {
    hide SettlesTo, ReadOutcome;
    FreeReaches(from, s, 2);
    var freed := WithMem(s, 2, s.st.mems[2].(live := false));
    ReadReaches(from, freed, KEY, 2, Some(1));
    s' := WithReader(freed, Reader(KEY, 2, Done(Some(1))));
  }

  // ---------- a push that serves stale data ----------

  /** Nothing put yet; one key, so that none share a slot; two lower levels. */
  ghost function Start(ordered: bool): State {
    State(Store(map[0 := Mem(map[], true, true, false, {}, 0)], map[1 := Version(map[], [map[], map[]], ordered)],
                {}, 1, 2, 2, {}, None, false),
          Clients(1, {KEY}, map[], map[], 1, map[], map[]), map[])
  }

  function Frozen(e: SeqNo): Mem {
    Mem(map[KEY := e], true, false, true, {}, 0)
  }

  /** Entry 1 in memtable 1, entry 2 in memtable 2, both complete. */
  ghost function Filled(ordered: bool): State {
    State(Start(ordered).st.(mems := map[0 := Mem(map[], true, true, false, {}, 0), 1 := Frozen(1), 2 := Frozen(2)]),
          Clients(1, {KEY}, map[0 := 2], map[], 3, map[KEY := 2], map[KEY := 2]), map[])
  }

  lemma {:induction false} FillOne(s: State, m: MemId)
    requires Reachable(s) && s.c.puts == map[] && s.c.slots == 1 && KEY in s.c.keys && m !in s.st.mems
    ensures Reachable(WithMem(s, m, Frozen(s.c.nextSeq)).(
        c := s.c.(nextSeq := s.c.nextSeq + 1, started := s.c.started[KEY := s.c.nextSeq], index := s.c.index[0 := m],
                  done := s.c.done[KEY := s.c.nextSeq])))
  {
    hide Reachable;
    NewMemReaches(s, m);
    var s1 := WithMem(s, m, Mem(map[], false, false, true, {}, 0));
    PutReaches(s1, KEY, m);
    var s2 := WithPut(s1, KEY, m);
    FreezeReaches(s2, m);
    assert KEY % 1 == 0;
    assert s2.st.mems[m] == Mem(map[KEY := s.c.nextSeq], false, false, true, {}, 0);
    assert WithMem(s2, m, s2.st.mems[m].(immutable := true)).st.mems == s.st.mems[m := Frozen(s.c.nextSeq)];
  }

  lemma {:induction false} FilledReachable(ordered: bool)
    ensures Reachable(Filled(ordered))
  {
    var s := Start(ordered);
    assert Init(s);
    StartReachable(s);
    hide Reachable;
    FillOne(s, 1);
    var s1 := WithMem(s, 1, Frozen(1)).(c := s.c.(nextSeq := 2, started := map[KEY := 1], index := map[0 := 1],
                                                  done := map[KEY := 1]));
    assert s.c.started[KEY := 1] == map[KEY := 1] && s.c.index[0 := 1] == map[0 := 1]
      && s.c.done[KEY := 1] == map[KEY := 1];
    FillOne(s1, 2);
    assert s1.c.started[KEY := 2] == map[KEY := 2] && s1.c.index[0 := 2] == map[0 := 2]
      && s1.c.done[KEY := 2] == map[KEY := 2];
    assert s1.st.mems[2 := Frozen(2)] == Filled(ordered).st.mems;
  }

  /** No install under way, and the current version as given. */
  ghost predicate Quiet(s: State, v: Version, drawn: set<FileNo>) {
    && Reachable(s) && s.readers == map[] && s.c == Filled(v.ordered).c
    && s.st.install.None? && !s.st.careful && s.st.closed == {} && s.st.drawn == drawn
    && s.st.current in s.st.versions && s.st.current < s.st.nextVersion && s.st.versions[s.st.current] == v
    && (forall m :: m in s.st.mems ==> s.st.mems[m].lastVersion <= s.st.current)
  }

  lemma {:induction false} DrawnReachable(ordered: bool) returns (s: State)
    ensures Quiet(s, Version(map[], [map[], map[]], ordered), {2, 3}) && s.st.mems == Filled(ordered).st.mems
  {
    FilledReachable(ordered);
    hide Reachable;
    var s0 := Filled(ordered);
    DrawReaches(s0);
    var s1 := WithStore(s0, s0.st.(drawn := s0.st.drawn + {2}, nextFile := 3));
    DrawReaches(s1);
    s := WithStore(s1, s1.st.(drawn := s1.st.drawn + {3}, nextFile := 4));
    assert s.st.drawn == {2, 3};
  }

  /** Memtable m in file f of level 0, and level 2 as given. */
  ghost function OneFile(m: MemId, f: FileNo, below: map<Key, SeqNo>, ordered: bool): Version {
    Version(map[f := File(map[KEY := m], {m})], [map[], below], ordered)
  }

  ghost predicate IsFlushed(s: State, m: MemId, files: set<FileNo>) {
    m in s.st.mems && s.st.mems[m].l0 == files && s.st.mems[m].flushed && s.st.mems[m].table == map[KEY := m]
  }

  /** Flush memtable m into file f. */
  lemma {:induction false} FlushQuiet(s: State, ordered: bool, below: map<Key, SeqNo>, drawn: set<FileNo>, m: MemId,
                                      f: FileNo)
    returns (s': State)
    requires Quiet(s, Version(map[], [map[], below], ordered), drawn) && f in drawn
    requires m in s.st.mems && s.st.mems[m] == Frozen(m)
    ensures Quiet(s', OneFile(m, f, below, ordered), drawn - {f})
    ensures IsFlushed(s', m, {f}) && s'.st.mems == s.st.mems[m := s'.st.mems[m]]
  {
    hide Reachable;
    FlushReaches(s, m, f);
    var v := FlushedTo(s.st.versions[s.st.current], m, f, map[KEY := m]);
    var mem := Apply(s.st.mems[m], SetFlushed(f), s.st.nextVersion);
    s' := WithStore(s, Installed(s.st, v, s.st.mems[m := mem], {f}));
    assert v == OneFile(m, f, below, ordered);
  }

  /** Push it into level 1. */
  lemma {:induction false} PushQuiet(s: State, ordered: bool, below: map<Key, SeqNo>, drawn: set<FileNo>, m: MemId,
                                     f: FileNo)
    returns (st': Store, s': State)
    requires Quiet(s, OneFile(m, f, below, ordered), drawn) && IsFlushed(s, m, {f})
    ensures PushBegin(s.st, st', {f}) && SettlesTo(WithStore(s, st'), s')
    ensures Quiet(s', Version(map[], [map[KEY := m], below], ordered), drawn)
    ensures IsFlushed(s', m, {}) && s'.st.mems == s.st.mems[m := s'.st.mems[m]]
  {
    hide Reachable, SettlesTo, PushBegin;
    var v := OneFile(m, f, below, ordered);
    st' := PushReaches(s, m, f);
    var mem := Apply(s.st.mems[m], UpdateL0({}, {f}), s.st.nextVersion);
    s' := WithStore(s, Installed(s.st, PushedTo(v, f), s.st.mems[m := mem], {}));
    PushedOnly(v, m, f, below);
    assert mem.l0 == {};
  }

  lemma {:induction false} PushedOnly(v: Version, m: MemId, f: FileNo, below: map<Key, SeqNo>)
    requires v.l0 == map[f := File(map[KEY := m], {m})] && v.levels == [map[], below]
    ensures PushedTo(v, f) == Version(map[], [map[KEY := m], below], v.ordered)
  {
    assert v.l0 - {f} == map[] && v.levels[0] + map[KEY := m] == map[KEY := m];
    assert [map[KEY := m]] + v.levels[1..] == [map[KEY := m], below];
  }

  /** Move level 1 on into level 2. */
  lemma {:induction false} LowerQuiet(s: State, ordered: bool, a: MemId, drawn: set<FileNo>) returns (s': State)
    requires Quiet(s, Version(map[], [map[KEY := a], map[]], ordered), drawn)
    ensures Quiet(s', Version(map[], [map[], map[KEY := a]], ordered), drawn) && s'.st.mems == s.st.mems
  {
    hide Reachable;
    LowerReaches(s);
    s' := WithStore(s, Installed(s.st, Version(map[], [map[], map[KEY := a]], ordered), s.st.mems, {}));
  }

  /** The state before the second push: memtable a has moved on to level 2, memtable b is in file 3. */
  lemma {:induction false} BeforePush(ordered: bool, a: MemId, b: MemId) returns (s: State)
    requires (a == 1 && b == 2) || (a == 2 && b == 1)
    ensures Quiet(s, OneFile(b, 3, map[KEY := a], ordered), {}) && IsFlushed(s, a, {}) && IsFlushed(s, b, {3})
  {
    assert {2, 3} - {2} == {3} && {3} - {3} == {};
    var s0 := DrawnReachable(ordered);
    hide Quiet, SettlesTo, PushBegin, OneFile;
    var s1 := FlushQuiet(s0, ordered, map[], {2, 3}, a, 2);
    var st', s2 := PushQuiet(s1, ordered, map[], {3}, a, 2);
    var s3 := LowerQuiet(s2, ordered, a, {3});
    s := FlushQuiet(s3, ordered, map[KEY := a], {3}, b, 3);
  }

  /** The push takes all of level 0, and no file of level 1 overlaps it. */
  ghost predicate TakesAll(v: Version, inputs: set<FileNo>) {
    inputs == v.l0.Keys && |v.levels| > 0 && forall k :: InFiles(v, inputs, k) ==> k !in v.levels[0]
  }

  /** A push that is not safe: in either search mode there is a run up to it in which a read of the key
      returns the last completed Put, and with this one install, which takes all of level 0 and
      overlaps nothing in level 1, the next read returns an older entry.  The memtable that is moved
      on first is the newer one with ordered flush, where the first hit wins, and the older one
      without, where the deepest hit wins. */
  lemma {:induction false} StalePushRun(ordered: bool)
    ensures exists s: State, st', inputs, s' ::
      && PushBegin(s.st, st', inputs) && TurnsStale(s, st', s', ordered)
      && TakesAll(s.st.versions[s.st.current], inputs) && !PushSafe(ViewOf(s.st), inputs)
  {
    hide Reachable, SettlesTo, PushBegin, ReadOutcome, ViewOf, PushSafe, TakesAll;
    var a, b := if ordered then 2 else 1, if ordered then 1 else 2;
    var s := BeforePush(ordered, a, b);
    var st', s1 := PushQuiet(s, ordered, map[KEY := a], {}, b, 3);
    StaleLevels(ordered, a, b);
    assert s1.st.mems[2].l0 == {};
    var s' := StaleReads(WithStore(s, st'), s1);
    FreshBefore(ordered, a, b, s.st.mems[2].l0);
    UnsafePush(s, ordered, a, b);
    assert ReadsTwo(s, ordered);
    assert TurnsStale(s, st', s', ordered);
  }

  lemma {:induction false} FreshBefore(ordered: bool, a: SeqNo, b: SeqNo, fns: set<FileNo>)
    requires if ordered then a == 2 && b == 1 && fns == {} else a == 1 && b == 2 && fns == {3}
    ensures forall r :: ReadOutcome(OneFile(b, 3, map[KEY := a], ordered), fns, KEY, r) <==> r == Some(2)
  {
    var v := OneFile(b, 3, map[KEY := a], ordered);
    if ordered {
      FirstHitAt(v.levels, KEY, 1);
      assert !InFiles(v, fns, KEY);
    } else {
      assert Holds(v, 3, KEY) && Answers(v, fns, KEY, 3) && EntryOf(v, 3, KEY) == 2;
    }
  }

  lemma {:induction false} UnsafePush(s: State, ordered: bool, a: SeqNo, b: SeqNo)
    requires if ordered then a == 2 && b == 1 else a == 1 && b == 2
    requires Quiet(s, OneFile(b, 3, map[KEY := a], ordered), {}) && IsFlushed(s, a, {}) && IsFlushed(s, b, {3})
    ensures TakesAll(s.st.versions[s.st.current], {3}) && !PushSafe(ViewOf(s.st), {3})
  {
    hide Reachable;
    var v, x := OneFile(b, 3, map[KEY := a], ordered), ViewOf(s.st);
    assert v.l0.Keys == {3};
    assert x.v == v && 2 in x.l0 && 2 in x.tables && x.l0[2] == s.st.mems[2].l0 && x.tables[2] == map[KEY := 2];
    hide Quiet, ViewOf;
    UnsafePushFile(v, ordered, a, b, x.l0[2]);
  }

  lemma {:induction false} UnsafePushFile(v: Version, ordered: bool, a: SeqNo, b: SeqNo, fns: set<FileNo>)
    requires if ordered then a == 2 && b == 1 && fns == {} else a == 1 && b == 2 && fns == {3}
    requires v == OneFile(b, 3, map[KEY := a], ordered)
    ensures !FreshAfterPush(v, {3}, fns, KEY, 2)
  {
    assert !InFiles(v, fns - {3}, KEY);
    assert NewestIn(v, {3}, KEY, b) by {
      assert 3 in {3} && Holds(v, 3, KEY) && EntryOf(v, 3, KEY) == b;
    }
    assert PushedHit(v, KEY, b) == 1 by {
      if !ordered {
        assert v.levels[1..] == [map[KEY := a]];
        DeepestHitAt(v.levels[1..], KEY, 0);
      }
    }
  }

  lemma {:induction false} StaleLevels(ordered: bool, a: SeqNo, b: SeqNo)
    requires if ordered then a == 2 && b == 1 else a == 1 && b == 2
    ensures ReadOutcome(Version(map[], [map[KEY := b], map[KEY := a]], ordered), {}, KEY, Some(1))
  {
    var levels := [map[KEY := b], map[KEY := a]];
    if ordered {
      FirstHitAt(levels, KEY, 0);
    } else {
      DeepestHitAt(levels, KEY, 1);
    }
  }

  // ---------- a merge that serves stale data ----------

  const OTHER: Key := 8

  ghost function MergeStart(ordered: bool): State {
    State(Store(map[0 := Mem(map[], true, true, false, {}, 0)], map[1 := Version(map[], [map[]], ordered)],
                {}, 1, 2, 2, {}, None, false),
          Clients(2, {KEY, OTHER}, map[], map[], 1, map[], map[]), map[])
  }

  const OLD: map<Key, SeqNo> := map[KEY := 1]
  const NEW: map<Key, SeqNo> := map[KEY := 2, OTHER := 3]

  /** Entry 1 in memtable 1; entry 2 and an entry of another key in memtable 2. */
  ghost predicate MergeFilled(s: State, ordered: bool) {
    && Reachable(s) && s.st.mems.Keys == {0, 1, 2}
    && s.st.mems[1] == Mem(OLD, true, false, true, {}, 0) && s.st.mems[2] == Mem(NEW, true, false, true, {}, 0)
    && s.st == MergeStart(ordered).st.(mems := s.st.mems)
    && s.readers == map[] && ClientsDone(s.c)
  }

  ghost predicate ClientsDone(c: Clients) {
    c.slots == 2 && c.keys == {KEY, OTHER} && c.puts == map[] && KEY in c.done && c.done[KEY] == 2
      && IndexAt(c, KEY) == 2
  }

  lemma {:induction false} MergeFirst(ordered: bool) returns (s: State)
    ensures Reachable(s) && s.st == MergeStart(ordered).st.(mems := s.st.mems) && s.readers == map[]
    ensures s.st.mems.Keys == {0, 1} && s.st.mems[1] == Mem(OLD, true, false, true, {}, 0)
    ensures s.c.slots == 2 && s.c.keys == {KEY, OTHER} && s.c.puts == map[] && s.c.nextSeq == 2
  {
    var s0 := MergeStart(ordered);
    assert Init(s0);
    StartReachable(s0);
    hide Reachable;
    NewMemReaches(s0, 1);
    var s1 := WithMem(s0, 1, Mem(map[], false, false, true, {}, 0));
    PutReaches(s1, KEY, 1);
    var s2 := WithPut(s1, KEY, 1);
    FreezeReaches(s2, 1);
    s := WithMem(s2, 1, s2.st.mems[1].(immutable := true));
  }

  lemma {:induction false} MergeFilledReachable(ordered: bool) returns (s: State)
    ensures MergeFilled(s, ordered)
  {
    var s0 := MergeFirst(ordered);
    hide Reachable;
    NewMemReaches(s0, 2);
    var s1 := WithMem(s0, 2, Mem(map[], false, false, true, {}, 0));
    PutReaches(s1, KEY, 2);
    var s2 := WithPut(s1, KEY, 2);
    PutReaches(s2, OTHER, 2);
    var s3 := WithPut(s2, OTHER, 2);
    FreezeReaches(s3, 2);
    s := WithMem(s3, 2, s3.st.mems[2].(immutable := true));
    assert KEY % 2 == 1 && OTHER % 2 == 0;
    assert s.st.mems[2].table == NEW;
  }

  /** The state between two installs. */
  ghost predicate Between(s: State, v: Version, drawn: set<FileNo>, fs1: set<FileNo>, fs2: set<FileNo>) {
    && Reachable(s) && s.readers == map[] && ClientsDone(s.c)
    && s.st.install.None? && !s.st.careful && s.st.closed == {} && s.st.drawn == drawn
    && s.st.current in s.st.versions && s.st.current < s.st.nextVersion && s.st.versions[s.st.current] == v
    && 1 in s.st.mems && 2 in s.st.mems && s.st.mems[1].l0 == fs1 && s.st.mems[2].l0 == fs2
    && s.st.mems[1].lastVersion <= s.st.current && s.st.mems[2].lastVersion <= s.st.current
    && s.st.mems[2].table == NEW
  }

  ghost predicate Unflushed(s: State, m: MemId, table: map<Key, SeqNo>) {
    m in s.st.mems && s.st.mems[m] == Mem(table, true, false, true, {}, 0)
  }

  lemma {:induction false} DrawMore(s: State, v: Version, drawn: set<FileNo>, f: FileNo) returns (s': State)
    requires Between(s, v, drawn, {}, {}) && s.st.nextFile == f
    ensures Between(s', v, drawn + {f}, {}, {}) && s'.st.nextFile == f + 1 && s'.st.mems == s.st.mems
  {
    hide Reachable;
    DrawReaches(s);
    s' := WithStore(s, s.st.(drawn := s.st.drawn + {s.st.nextFile}, nextFile := s.st.nextFile + 1));
  }

  /** Five numbers are drawn ahead of the jobs that will install them. */
  lemma {:induction false} MergeDrawn(ordered: bool) returns (s: State)
    ensures Between(s, Version(map[], [map[]], ordered), {2, 3, 4, 5, 6}, {}, {}) && Unflushed(s, 1, OLD)
      && Unflushed(s, 2, NEW)
  {
    s := MergeFilledReachable(ordered);
    hide Reachable;
    var v := Version(map[], [map[]], ordered);
    s := DrawMore(s, v, {}, 2);
    s := DrawMore(s, v, {} + {2}, 3);
    s := DrawMore(s, v, {} + {2} + {3}, 4);
    s := DrawMore(s, v, {} + {2} + {3} + {4}, 5);
    s := DrawMore(s, v, {} + {2} + {3} + {4} + {5}, 6);
    assert {} + {2} + {3} + {4} + {5} + {6} == {2, 3, 4, 5, 6};
  }

  lemma {:induction false} FlushBetween(s: State, v: Version, drawn: set<FileNo>, fs1: set<FileNo>, fs2: set<FileNo>,
                                        m: MemId, f: FileNo, table: map<Key, SeqNo>) returns (s': State)
    requires Between(s, v, drawn, fs1, fs2) && Unflushed(s, m, table) && f in drawn && f !in v.l0 && (m == 1 || m == 2)
    ensures Between(s', FlushedTo(v, m, f, table), drawn - {f}, if m == 1 then {f} else fs1,
                    if m == 2 then {f} else fs2)
    ensures s'.st.mems == s.st.mems[m := s'.st.mems[m]] && s'.st.mems[m].flushed
  {
    hide Reachable;
    FlushReaches(s, m, f);
    var mem := Apply(s.st.mems[m], SetFlushed(f), s.st.nextVersion);
    s' := WithStore(s, Installed(s.st, FlushedTo(v, m, f, table), s.st.mems[m := mem], {f}));
    assert mem.l0 == {f};
  }

  const FILE2: File := File(OLD, {1})
  const FILE3: File := File(NEW, {2})
  const FILE4: File := File(map[KEY := 2], {2})
  const FILE5: File := File(map[OTHER := 3], {2})
  const FILE6: File := File(map[KEY := 1, OTHER := 3], {1, 2})

  ghost function BothFlushed(ordered: bool): Version { Version(map[2 := FILE2, 3 := FILE3], [map[]], ordered) }
  ghost function SplitUp(ordered: bool): Version { Version(map[2 := FILE2, 4 := FILE4, 5 := FILE5], [map[]], ordered) }
  ghost function Pushed4(ordered: bool): Version { Version(map[2 := FILE2, 5 := FILE5], [map[KEY := 2]], ordered) }
  ghost function Rejoined(ordered: bool): Version { Version(map[6 := FILE6], [map[KEY := 2]], ordered) }

  lemma {:induction false} MergeFlushed(ordered: bool) returns (s: State)
    ensures Between(s, BothFlushed(ordered), {4, 5, 6}, {2}, {3}) && s.st.mems[2].flushed
  {
    s := MergeDrawn(ordered);
    hide Reachable;
    var v := Version(map[], [map[]], ordered);
    s := FlushBetween(s, v, {2, 3, 4, 5, 6}, {}, {}, 1, 2, OLD);
    var v1 := FlushedTo(v, 1, 2, OLD);
    assert {2, 3, 4, 5, 6} - {2} == {3, 4, 5, 6};
    s := FlushBetween(s, v1, {3, 4, 5, 6}, {2}, {}, 2, 3, NEW);
    assert {3, 4, 5, 6} - {3} == {4, 5, 6};
    assert FlushedTo(v1, 2, 3, NEW) == BothFlushed(ordered);
  }

  /** File 3 is rewritten as one file per key. */
  lemma {:induction false} SplitIsMerge(ordered: bool)
    ensures MergedVersion(BothFlushed(ordered), {3}, map[4 := map[KEY := 2], 5 := map[OTHER := 3]], SplitUp(ordered))
  {
    var v, v', outs := BothFlushed(ordered), SplitUp(ordered), map[4 := map[KEY := 2], 5 := map[OTHER := 3]];
    var e4, e5 := outs[4], outs[5];
    assert forall k :: Holds(v, 3, k) <==> k == KEY || k == OTHER;
    assert NewestIn(v, {3}, KEY, 2) by {
      assert 3 in {3} && Holds(v, 3, KEY) && EntryOf(v, 3, KEY) == 2;
    }
    assert NewestIn(v, {3}, OTHER, 3) by {
      assert 3 in {3} && Holds(v, 3, OTHER) && EntryOf(v, 3, OTHER) == 3;
    }
    assert 4 in outs && KEY in e4 && 5 in outs && OTHER in e5;
    assert MergeOutputs(v, {3}, outs) by {
      assert v.l0.Keys == {2, 3} && outs.Keys == {4, 5};
    }
    assert AllMids(v, {3}) == {2} by {
      assert Carries(v, {3}, 2);
    }
    assert v'.l0.Keys == v.l0.Keys - {3} + outs.Keys;
  }

  /** Files 2 and 5 become one file, recorded for both memtables. */
  lemma {:induction false} RejoinIsMerge(ordered: bool)
    ensures MergedVersion(Pushed4(ordered), {2, 5}, map[6 := map[KEY := 1, OTHER := 3]], Rejoined(ordered))
  {
    var v, v', outs := Pushed4(ordered), Rejoined(ordered), map[6 := map[KEY := 1, OTHER := 3]];
    var e6 := outs[6];
    assert forall f, k :: Holds(v, f, k) <==> (f == 2 && k == KEY) || (f == 5 && k == OTHER);
    assert NewestIn(v, {2, 5}, KEY, 1) by {
      assert 2 in {2, 5} && Holds(v, 2, KEY) && EntryOf(v, 2, KEY) == 1;
    }
    assert NewestIn(v, {2, 5}, OTHER, 3) by {
      assert 5 in {2, 5} && Holds(v, 5, OTHER) && EntryOf(v, 5, OTHER) == 3;
    }
    assert 6 in outs && KEY in e6 && OTHER in e6;
    assert MergeOutputs(v, {2, 5}, outs) by {
      assert v.l0.Keys == {2, 5} && outs.Keys == {6};
    }
    assert AllMids(v, {2, 5}) == {1, 2} by {
      assert Carries(v, {2, 5}, 1) && Carries(v, {2, 5}, 2);
    }
    assert v'.l0.Keys == v.l0.Keys - {2, 5} + outs.Keys;
  }

  lemma {:induction false} MergeReaches(s: State, v: Version, inputs: set<FileNo>, outs: map<FileNo, map<Key, SeqNo>>,
                                        v': Version)
    requires Reachable(s) && !s.st.careful && s.st.install.None? && HasTarget(s.st) && s.st.versions[s.st.current] == v
    requires outs.Keys <= s.st.drawn && MergedVersion(v, inputs, outs, v')
    ensures inputs <= v.l0.Keys
    ensures var st' := Begun(s.st, v', MergeEdits(v, inputs, outs.Keys), outs.Keys);
      && MergeBegin(s.st, st', inputs, outs) && Reachable(WithStore(s, st'))
      && SettlesTo(WithStore(s, st'), WithStore(s, st'))
  {
    hide Reachable, SettlesTo;
    var st' := Begun(s.st, v', MergeEdits(v, inputs, outs.Keys), outs.Keys);
    hide MergedVersion;
    assert MergeBegin(s.st, st', inputs, outs) && InstallStep(s.st, st');
    InstallReaches(s, st');
    SettlesAtOnce(WithStore(s, st'));
  }

  lemma {:induction false} SplitReached(ordered: bool) returns (s: State)
    ensures Between(s, SplitUp(ordered), {6}, {2}, {4, 5}) && s.st.mems[2].flushed
  {
    var s0 := MergeFlushed(ordered);
    hide Reachable, SettlesTo, MergeBegin, MergedVersion, MergeEdits, BothFlushed, SplitUp, Pushed4, Rejoined;
    var v, v', outs := BothFlushed(ordered), SplitUp(ordered), map[4 := map[KEY := 2], 5 := map[OTHER := 3]];
    SplitIsMerge(ordered);
    MergeReaches(s0, v, {3}, outs, v');
    var edit := UpdateL0({4, 5}, {3});
    assert outs.Keys == {4, 5};
    SplitEdits(ordered);
    var begun := WithStore(s0, Begun(s0.st, v', map[2 := edit], {4, 5}));
    FinishOne(begun, s0, s0.st, v', 2, edit, {4, 5});
    s := WithStore(s0, Installed(s0.st, v', s0.st.mems[2 := Apply(s0.st.mems[2], edit, s0.st.nextVersion)], {4, 5}));
    SettledReachable(begun, s);
    assert {4, 5, 6} - {4, 5} == {6} && {3} + {4, 5} - {3} == {4, 5};
  }

  lemma {:induction false} SplitEdits(ordered: bool)
    ensures {3} <= BothFlushed(ordered).l0.Keys
      && MergeEdits(BothFlushed(ordered), {3}, {4, 5}) == map[2 := UpdateL0({4, 5}, {3})]
  {
    var v := BothFlushed(ordered);
    var edits := MergeEdits(v, {3}, {4, 5});
    assert Carries(v, {3}, 2) && edits.Keys == {2};
    var gone := set g | g in {3} && 2 in v.l0[g].mids;
    assert gone == {3} && edits[2] == UpdateL0({4, 5}, gone);
  }

  lemma {:induction false} Pushed4Is(ordered: bool)
    ensures var v := SplitUp(ordered);
      && 4 in v.l0 && v.l0[4].mids == {2} && |v.levels| > 0 && v.l0[4].entries.Keys !! v.levels[0].Keys
      && PushedTo(v, 4) == Pushed4(ordered)
  {
    var v := SplitUp(ordered);
    assert v.l0 - {4} == map[2 := FILE2, 5 := FILE5] && v.levels[0] + map[KEY := 2] == map[KEY := 2];
    assert [map[KEY := 2]] + v.levels[1..] == [map[KEY := 2]];
  }

  lemma {:induction false} PushReached(ordered: bool) returns (s: State)
    ensures Between(s, Pushed4(ordered), {6}, {2}, {5}) && s.st.mems[2].flushed
  {
    var s0 := SplitReached(ordered);
    Pushed4Is(ordered);
    hide Reachable, SettlesTo, PushBegin, SplitUp, Pushed4, PushedTo;
    var st' := PushReaches(s0, 2, 4);
    var mem := Apply(s0.st.mems[2], UpdateL0({}, {4}), s0.st.nextVersion);
    s := WithStore(s0, Installed(s0.st, Pushed4(ordered), s0.st.mems[2 := mem], {}));
    assert mem.l0 == {5};
  }

  lemma {:induction false} RejoinEdits(ordered: bool)
    ensures {2, 5} <= Pushed4(ordered).l0.Keys
    ensures MergeEdits(Pushed4(ordered), {2, 5}, {6}) == map[1 := UpdateL0({6}, {2}), 2 := UpdateL0({6}, {5})]
  {
    var v := Pushed4(ordered);
    var edits := MergeEdits(v, {2, 5}, {6});
    assert Carries(v, {2, 5}, 1) && Carries(v, {2, 5}, 2) && edits.Keys == {1, 2};
    var gone1 := set g | g in {2, 5} && 1 in v.l0[g].mids;
    var gone2 := set g | g in {2, 5} && 2 in v.l0[g].mids;
    assert gone1 == {2} && edits[1] == UpdateL0({6}, gone1);
    assert gone2 == {5} && edits[2] == UpdateL0({6}, gone2);
  }

  /** The merge begins in s as st' and ends in s'. */
  lemma {:induction false} RejoinReached(s: State, ordered: bool) returns (st': Store, s': State)
    requires Between(s, Pushed4(ordered), {6}, {2}, {5}) && s.st.mems[2].flushed
    ensures MergeBegin(s.st, st', {2, 5}, map[6 := map[KEY := 1, OTHER := 3]]) && SettlesTo(WithStore(s, st'), s')
    ensures Between(s', Rejoined(ordered), {}, {6}, {6}) && s'.st.mems[2].flushed
  {
    hide Reachable, SettlesTo, MergeBegin, MergedVersion, MergeEdits, BothFlushed, SplitUp, Pushed4, Rejoined;
    var v, v', outs := Pushed4(ordered), Rejoined(ordered), map[6 := map[KEY := 1, OTHER := 3]];
    RejoinIsMerge(ordered);
    assert outs.Keys == {6};
    MergeReaches(s, v, {2, 5}, outs, v');
    RejoinEdits(ordered);
    var e1, e2 := UpdateL0({6}, {2}), UpdateL0({6}, {5});
    st' := Begun(s.st, v', map[1 := e1, 2 := e2], {6});
    FinishTwo(WithStore(s, st'), s, s.st, v', 1, e1, 2, e2, {6});
    s' := WithStore(s, Installed(s.st, v', s.st.mems[1 := Apply(s.st.mems[1], e1, s.st.nextVersion)]
                                                    [2 := Apply(s.st.mems[2], e2, s.st.nextVersion)], {6}));
    SettledReachable(WithStore(s, st'), s');
    assert {2} + {6} - {2} == {6} && {5} + {6} - {5} == {6} && {6} - {6} == {};
  }

  lemma {:induction false} UnsafeMergeFile(ordered: bool)
    ensures Carries(Pushed4(ordered), {2, 5}, 2)
    ensures !FreshAfterMerge(Pushed4(ordered), {2, 5}, map[6 := map[KEY := 1, OTHER := 3]], {5}, KEY, 2)
  {
    var v, outs := Pushed4(ordered), map[6 := map[KEY := 1, OTHER := 3]];
    var e6 := outs[6];
    assert 5 in {2, 5} && 5 in v.l0 && 2 in v.l0[5].mids;
    assert 6 in outs && KEY in e6 && {5} - {2, 5} == {};
  }

  lemma {:induction false} UnsafeMerge(s: State, ordered: bool)
    requires Between(s, Pushed4(ordered), {6}, {2}, {5}) && s.st.mems[2].flushed
    ensures HasTarget(s.st) && !MergeSafe(ViewOf(s.st), {2, 5}, map[6 := map[KEY := 1, OTHER := 3]])
  {
    hide Reachable, FreshAfterMerge, Carries, Pushed4;
    var x, outs := ViewOf(s.st), map[6 := map[KEY := 1, OTHER := 3]];
    assert x.v == Pushed4(ordered) && 2 in x.l0 && 2 in x.tables && x.l0[2] == {5} && x.tables[2] == NEW;
    UnsafeMergeFile(ordered);
    assert KEY in x.tables[2] && !FreshAfterMerge(x.v, {2, 5}, outs, x.l0[2], KEY, x.tables[2][KEY]);
  }

  lemma {:induction false} FreshBeforeMerge(ordered: bool)
    ensures forall r :: ReadOutcome(Pushed4(ordered), {5}, KEY, r) <==> r == Some(2)
  {
    var v := Pushed4(ordered);
    assert !InFiles(v, {5}, KEY);
    if ordered {
      FirstHitAt(v.levels, KEY, 0);
    } else {
      DeepestHitAt(v.levels, KEY, 0);
    }
  }

  /** A merge within level 0 that is not safe: in either search mode there is a run up to it in which
      a read of the key returns the last completed Put, and with this one install the next read finds
      an older entry in the merged file. */
  lemma {:induction false} StaleMergeRun(ordered: bool)
    ensures exists s: State, st', inputs, outs, s' ::
      && MergeBegin(s.st, st', inputs, outs) && TurnsStale(s, st', s', ordered)
      && !MergeSafe(ViewOf(s.st), inputs, outs)
  {
    var s := PushReached(ordered);
    hide Reachable, SettlesTo, MergeBegin, MergeSafe, ViewOf;
    var st', s1 := RejoinReached(s, ordered);
    UnsafeMerge(s, ordered);
    FreshBeforeMerge(ordered);
    var v := Rejoined(ordered);
    assert Holds(v, 6, KEY) && Answers(v, {6}, KEY, 6) && EntryOf(v, 6, KEY) == 1;
    assert ReadOutcome(v, {6}, KEY, Some(1));
    var s' := StaleReads(WithStore(s, st'), s1);
    assert ReadsTwo(s, ordered);
    assert TurnsStale(s, st', s', ordered);
  }
}
