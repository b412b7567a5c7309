/** Reads through the lookup index while writers, flushes and compactions run.

    Every step below is one critical section of the system: a Put reserves a memtable, adds its
    entry and then publishes it in the lookup index; an install allocates a version id, rewrites
    the file sets of the affected memtables one mutex at a time and only then makes the version
    current; a reader looks up a memtable id, tries to pin the memtable, and otherwise loads the
    current version id, pins that version and accepts it only if it is at least the last version
    that touched the memtable.  The theorems hold for every interleaving of these steps. */
module ReadPath {
  import opened Installs
  import opened Options

  type VersionId = nat

  /** `table` keeps what the memtable held after its memory is freed (`live` is false). */
  datatype Mem = Mem(table: map<Key, SeqNo>, immutable: bool, flushed: bool, live: bool,
                     l0: set<FileNo>, lastVersion: VersionId)

  datatype Edit = SetFlushed(fn: FileNo) | UpdateL0(add: set<FileNo>, remove: set<FileNo>)

  datatype Install = Install(vid: VersionId, version: Version, todo: map<MemId, Edit>)

  datatype InFlight = InFlight(mem: MemId, seqNo: SeqNo, added: bool)

  /** `drawn` are the file numbers jobs have drawn and not installed yet.
      `careful` is fixed for a run: it says that merges and pushes meet the exact conditions of
      `MergeKeepsReadsIff` and `PushKeepsReadsIff` when they begin, and that no two keys share a slot
      of the lookup index. */
  datatype Store = Store(
    mems: map<MemId, Mem>, versions: map<VersionId, Version>, closed: set<VersionId>, current: VersionId,
    nextVersion: VersionId, nextFile: FileNo, drawn: set<FileNo>, install: Option<Install>, careful: bool)

  /** `started` and `done` record, per key, the last Put begun and the last Put completed. */
  datatype Clients = Clients(
    slots: nat, keys: set<Key>, index: map<nat, MemId>, puts: map<Key, InFlight>,
    nextSeq: SeqNo, started: map<Key, SeqNo>, done: map<Key, SeqNo>)

  datatype Pc =
    | Looked(m: MemId)
    | Pinned(m: MemId)
    | Choosing(m: MemId)
    | Loaded(m: MemId, vid: VersionId)
    | HoldsVersion(m: MemId, vid: VersionId)
    | HasFiles(m: MemId, vid: VersionId, fns: set<FileNo>)
    | Done(result: Option<SeqNo>)

  /** `need` is the last Put of `key` that had completed when the read began (0: none). */
  datatype Reader = Reader(key: Key, need: SeqNo, pc: Pc)

  datatype State = State(st: Store, c: Clients, readers: map<nat, Reader>)

  // ---------- memtable records ----------

  function Max(a: nat, b: nat): nat { if a < b then b else a }

  /** SetFlushed and UpdateL0Files: new files are inserted before old ones are erased. */
  function Apply(mem: Mem, e: Edit, vid: VersionId): Mem {
    match e
    case SetFlushed(fn) => mem.(flushed := true, l0 := mem.l0 + {fn}, lastVersion := Max(mem.lastVersion, vid))
    case UpdateL0(add, remove) => mem.(l0 := mem.l0 + add - remove, lastVersion := Max(mem.lastVersion, vid))
  }

  /** The asserts at the top of SetFlushed and UpdateL0Files. */
  predicate MayApply(mem: Mem, e: Edit) {
    match e
    case SetFlushed(_) => !mem.flushed && mem.l0 == {} && mem.immutable && mem.live
    case UpdateL0(_, _) => mem.immutable && mem.flushed
  }

  function MergeEdits(v: Version, inputs: set<FileNo>, outs: set<FileNo>): map<MemId, Edit>
    requires inputs <= v.l0.Keys
  {
    map m | m in AllMids(v, inputs) :: UpdateL0(outs, set f | f in inputs && m in v.l0[f].mids)
  }

  function FlushEdits(files: map<MemId, FileNo>): map<MemId, Edit> {
    map m | m in files :: SetFlushed(files[m])
  }

  // ---------- writer steps ----------

  ghost predicate NewMem(s: State, s': State, m: MemId) {
    && m !in s.st.mems
    && s' == s.(st := s.st.(mems := s.st.mems[m := Mem(map[], false, false, true, {}, 0)]))
  }

  /** One Put per key at a time; the memtable it reserves is still active. */
  ghost predicate PutBegin(s: State, s': State, k: Key, m: MemId) {
    && k in s.c.keys && k !in s.c.puts && m in s.st.mems && !s.st.mems[m].immutable
    && s' == s.(c := s.c.(puts := s.c.puts[k := InFlight(m, s.c.nextSeq, false)], nextSeq := s.c.nextSeq + 1,
                          started := s.c.started[k := s.c.nextSeq]))
  }

  ghost predicate PutAdd(s: State, s': State, k: Key) {
    && k in s.c.puts && !s.c.puts[k].added && s.c.puts[k].mem in s.st.mems
    && var p := s.c.puts[k];
       var mem := s.st.mems[p.mem];
       s' == s.(c := s.c.(puts := s.c.puts[k := p.(added := true)]),
                st := s.st.(mems := s.st.mems[p.mem := mem.(table := mem.table[k := p.seqNo])]))
  }

  ghost predicate PutIndex(s: State, s': State, k: Key) {
    && s.c.slots > 0 && k in s.c.puts && s.c.puts[k].added
    && s' == s.(c := s.c.(puts := s.c.puts - {k}, index := s.c.index[k % s.c.slots := s.c.puts[k].mem],
                          done := s.c.done[k := s.c.puts[k].seqNo]))
  }

  /** A memtable becomes immutable only when no reserved write is pending. */
  ghost predicate Freeze(s: State, s': State, m: MemId) {
    && m in s.st.mems && (forall k :: k in s.c.puts ==> s.c.puts[k].mem != m)
    && s' == s.(st := s.st.(mems := s.st.mems[m := s.st.mems[m].(immutable := true)]))
  }

  /** The memory of a flushed memtable goes away once no reader pins it. */
  ghost predicate FreeMem(s: State, s': State, m: MemId) {
    && m in s.st.mems && s.st.mems[m].flushed
    && (forall r :: r in s.readers ==> s.readers[r].pc != Pinned(m))
    && s' == s.(st := s.st.(mems := s.st.mems[m := s.st.mems[m].(live := false)]))
  }

  // ---------- install steps ----------

  /** A flush or compaction job draws a file number; it may install it much later, or never. */
  ghost predicate Draw(st: Store, st': Store) {
    st' == st.(drawn := st.drawn + {st.nextFile}, nextFile := st.nextFile + 1)
  }

  function Begun(st: Store, v: Version, todo: map<MemId, Edit>, used: set<FileNo>): Store {
    st.(install := Some(Install(st.nextVersion, v, todo)), nextVersion := st.nextVersion + 1, drawn := st.drawn - used)
  }

  function TablesOf(st: Store, ms: set<MemId>): map<MemId, map<Key, SeqNo>>
    requires ms <= st.mems.Keys
  {
    map m | m in ms :: st.mems[m].table
  }

  ghost predicate FlushBegin(st: Store, st': Store, files: map<MemId, FileNo>) {
    && st.install.None? && HasTarget(st) && files.Keys <= st.mems.Keys && files.Values <= st.drawn
    && (forall m :: m in files ==> st.mems[m].immutable && !st.mems[m].flushed)
    && st'.install.Some?
    && var v := st'.install.value.version;
       && FlushedVersion(st.versions[st.current], files, TablesOf(st, files.Keys), v)
       && st' == Begun(st, v, FlushEdits(files), files.Values)
  }

  ghost predicate MergeDisciplined(st: Store, inputs: set<FileNo>, outs: map<FileNo, map<Key, SeqNo>>)
    requires HasTarget(st)
  {
    st.careful ==> MergeSafe(ViewOf(st), inputs, outs)
  }

  /** Level 0 to level 0. */
  ghost predicate MergeBegin(st: Store, st': Store, inputs: set<FileNo>, outs: map<FileNo, map<Key, SeqNo>>) {
    && st.install.None? && HasTarget(st) && outs.Keys <= st.drawn && MergeDisciplined(st, inputs, outs)
    && st'.install.Some?
    && var v := st'.install.value.version;
       && MergedVersion(st.versions[st.current], inputs, outs, v)
       && st' == Begun(st, v, MergeEdits(st.versions[st.current], inputs, outs.Keys), outs.Keys)
  }

  ghost predicate PushDisciplined(st: Store, inputs: set<FileNo>)
    requires HasTarget(st)
  {
    st.careful ==> PushSafe(ViewOf(st), inputs)
  }

  /** Level 0 to level 1, trivial moves included. */
  ghost predicate PushBegin(st: Store, st': Store, inputs: set<FileNo>) {
    && st.install.None? && HasTarget(st) && PushDisciplined(st, inputs) && st'.install.Some?
    && var v := st'.install.value.version;
       && PushedVersion(st.versions[st.current], inputs, v)
       && st' == Begun(st, v, MergeEdits(st.versions[st.current], inputs, {}), {})
  }

  ghost predicate LowerBegin(st: Store, st': Store, level: nat, keys: set<Key>) {
    && st.install.None? && HasTarget(st) && st'.install.Some?
    && var v := st'.install.value.version;
       && LoweredVersion(st.versions[st.current], level, keys, v)
       && st' == Begun(st, v, map[], {})
  }

  ghost predicate Touch(st: Store, st': Store, m: MemId) {
    && st.install.Some? && m in st.install.value.todo && m in st.mems
    && var i := st.install.value;
       st' == st.(mems := st.mems[m := Apply(st.mems[m], i.todo[m], i.vid)],
                  install := Some(i.(todo := i.todo - {m})))
  }

  ghost predicate Commit(st: Store, st': Store) {
    && st.install.Some? && st.install.value.todo == map[]
    && var i := st.install.value;
       st' == st.(versions := st.versions[i.vid := i.version], current := i.vid, install := None)
  }

  ghost predicate CloseVersion(st: Store, st': Store, vid: VersionId) {
    vid in st.versions && vid != st.current && st' == st.(closed := st.closed + {vid})
  }

  // ---------- reader steps ----------

  function IndexAt(c: Clients, k: Key): MemId
    requires c.slots > 0
  {
    if k % c.slots in c.index then c.index[k % c.slots] else 0
  }

  ghost predicate Lookup(s: State, r: nat, x: Reader) {
    && s.c.slots > 0 && r !in s.readers
    && x.need == (if x.key in s.c.done then s.c.done[x.key] else 0)
    && x.pc == Looked(IndexAt(s.c, x.key))
  }

  /** One reader step: how the program counter moves, given the shared state it sees. */
  ghost predicate ReaderMoves(st: Store, key: Key, pc: Pc, pc': Pc) {
    match pc
    case Looked(m) => m in st.mems && pc' == if m != 0 && st.mems[m].live then Pinned(m) else Choosing(m)
    case Pinned(m) =>
      m in st.mems && pc' == Done(if key in st.mems[m].table then Some(st.mems[m].table[key]) else None)
    case Choosing(m) => pc' == Loaded(m, st.current)
    case Loaded(m, vid) => pc' == if vid in st.closed then Choosing(m) else HoldsVersion(m, vid)
    case HoldsVersion(m, vid) =>
      m in st.mems && pc' == if st.mems[m].lastVersion <= vid then HasFiles(m, vid, st.mems[m].l0) else Choosing(m)
    case HasFiles(m, vid, fns) =>
      vid in st.versions && pc'.Done? && ReadOutcome(st.versions[vid], fns, key, pc'.result)
    case Done(_) => false
  }

  // ---------- the transition relation ----------

  ghost predicate WriterStep(s: State, s': State) {
    || (exists m :: NewMem(s, s', m))
    || (exists k, m :: PutBegin(s, s', k, m))
    || (exists k :: PutAdd(s, s', k))
    || (exists k :: PutIndex(s, s', k))
    || (exists m :: Freeze(s, s', m))
    || (exists m :: FreeMem(s, s', m))
  }

  ghost predicate InstallStep(st: Store, st': Store) {
    || Draw(st, st')
    || (exists files :: FlushBegin(st, st', files))
    || (exists inputs, outs :: MergeBegin(st, st', inputs, outs))
    || (exists inputs :: PushBegin(st, st', inputs))
    || (exists level: nat, keys :: LowerBegin(st, st', level, keys))
    || (exists m :: Touch(st, st', m))
    || Commit(st, st')
    || (exists vid :: CloseVersion(st, st', vid))
  }

  ghost predicate ReaderStep(s: State, s': State) {
    || (exists r, x :: Lookup(s, r, x) && s' == s.(readers := s.readers[r := x]))
    || (exists r, pc' :: r in s.readers && ReaderMoves(s.st, s.readers[r].key, s.readers[r].pc, pc')
                         && s' == s.(readers := s.readers[r := s.readers[r].(pc := pc')]))
  }

  ghost predicate Next(s: State, s': State) {
    || WriterStep(s, s')
    || (s' == s.(st := s'.st) && InstallStep(s.st, s'.st))
    || ReaderStep(s, s')
  }

  ghost predicate KeysDistinct(c: Clients) {
    c.slots > 0 && forall a, b :: a in c.keys && b in c.keys && a % c.slots == b % c.slots ==> a == b
  }

  ghost predicate Init(s: State) {
    && s.c.slots > 0 && (s.st.careful ==> KeysDistinct(s.c))
    && s.c == Clients(s.c.slots, s.c.keys, map[], map[], 1, map[], map[])
    && s.readers == map[]
    && s.st == Store(map[0 := Mem(map[], true, true, false, {}, 0)], s.st.versions, {}, 1, 2, 2, {}, None, s.st.careful)
    && s.st.versions.Keys == {1} && s.st.versions[1].l0 == map[]
    && (forall i :: 0 <= i < |s.st.versions[1].levels| ==> s.st.versions[1].levels[i] == map[])
  }

  // ---------- the invariant ----------

  ghost predicate HasTarget(st: Store) {
    st.current in st.versions
  }

  /** The version being installed, or the current one. */
  ghost function Target(st: Store): Version
    requires HasTarget(st)
  {
    if st.install.Some? then st.install.value.version else st.versions[st.current]
  }

  ghost predicate Pending(st: Store, m: MemId) {
    st.install.Some? && m in st.install.value.todo
  }

  ghost function FilesAfterInstall(st: Store, m: MemId): set<FileNo>
    requires m in st.mems
  {
    if Pending(st, m) then Apply(st.mems[m], st.install.value.todo[m], 0).l0 else st.mems[m].l0
  }

  ghost function FlushedSet(st: Store): set<MemId> {
    set m | m in st.mems && (st.mems[m].flushed || Pending(st, m))
  }

  /** The flushed memtables, their contents and files as they will be when the install ends. */
  ghost function ViewOf(st: Store): View
    requires HasTarget(st)
  {
    View(map m | m in FlushedSet(st) :: st.mems[m].table,
         map m | m in FlushedSet(st) :: FilesAfterInstall(st, m),
         Target(st))
  }

  ghost predicate IdsOk(st: Store) {
    && HasTarget(st) && st.current < st.nextVersion
    && (forall w :: w in st.versions ==> w <= st.current)
    && (st.install.Some? ==> st.current < st.install.value.vid < st.nextVersion)
    && (forall f :: f in Target(st).l0 ==> f < st.nextFile && f !in st.drawn)
    && (forall f :: f in st.drawn ==> f < st.nextFile)
  }

  ghost predicate MemOk(st: Store, m: MemId)
    requires m in st.mems
  {
    && (st.mems[m].flushed ==> st.mems[m].immutable)
    && (!st.mems[m].flushed ==> st.mems[m].live && st.mems[m].l0 == {})
    && st.mems[m].lastVersion <= (if st.install.Some? then st.install.value.vid else st.current)
    && (Pending(st, m) ==> MayApply(st.mems[m], st.install.value.todo[m]))
  }

  ghost predicate MemsOk(st: Store) {
    && 0 in st.mems && st.mems[0].table == map[] && !st.mems[0].live && st.mems[0].immutable
    && (forall m :: m in st.mems ==> MemOk(st, m))
    && (forall m :: Pending(st, m) ==> m in st.mems)
  }

  /** A version at least as new as the last one that touched a memtable has all its files and, in
      a careful run, answers reads through it freshly. */
  ghost predicate Serves(careful: bool, v: Version, mem: Mem) {
    && mem.l0 <= v.l0.Keys
    && (careful ==> forall k :: k in mem.table ==> ReadsAtLeast(v, mem.l0, k, mem.table[k]))
  }

  ghost predicate AllServe(st: Store) {
    forall m, w :: m in st.mems && st.mems[m].flushed && w in st.versions && st.mems[m].lastVersion <= w ==>
      Serves(st.careful, st.versions[w], st.mems[m])
  }

  /** No version holds an entry that was never put. */
  ghost predicate EntriesBounded(v: Version, started: map<Key, SeqNo>) {
    && (forall f, k :: Holds(v, f, k) ==> k in started && EntryOf(v, f, k) <= started[k])
    && (forall i, k :: 0 <= i < |v.levels| && k in v.levels[i] ==> k in started && v.levels[i][k] <= started[k])
  }

  ghost predicate StoreBounded(st: Store, started: map<Key, SeqNo>)
    requires HasTarget(st)
  {
    && EntriesBounded(Target(st), started)
    && (forall w :: w in st.versions ==> EntriesBounded(st.versions[w], started))
    && (forall m, k :: m in st.mems && k in st.mems[m].table ==> k in started && st.mems[m].table[k] <= started[k])
  }

  ghost predicate PutOk(c: Clients, mems: map<MemId, Mem>, k: Key)
    requires k in c.puts
  {
    var p := c.puts[k];
    && k in c.keys && p.mem in mems && !mems[p.mem].immutable
    && k in c.started && c.started[k] == p.seqNo && p.seqNo > 0
    && (p.added ==> k in mems[p.mem].table && mems[p.mem].table[k] == p.seqNo)
    && (!p.added ==> forall m :: m in mems && k in mems[m].table ==> mems[m].table[k] < p.seqNo)
  }

  ghost predicate PutsOk(c: Clients, mems: map<MemId, Mem>) {
    && c.slots > 0 && c.nextSeq > 0
    && (forall k :: k in c.puts ==> PutOk(c, mems, k))
    && (forall k :: k in c.done ==> k in c.started && 0 < c.done[k] <= c.started[k])
    && (forall k :: k in c.started ==>
          && k in c.keys && c.started[k] < c.nextSeq
          && (k !in c.puts ==> k in c.done && c.done[k] == c.started[k]))
  }

  ghost predicate IndexOk(c: Clients, mems: map<MemId, Mem>)
    requires c.slots > 0
  {
    0 in mems && forall i :: i in c.index ==> c.index[i] in mems
  }

  /** The slot of a key leads to a memtable with its last completed Put, or a newer one. */
  ghost predicate DoneOk(c: Clients, mems: map<MemId, Mem>) {
    KeysDistinct(c) && forall k :: k in c.done ==> Promised(mems, IndexAt(c, k), k, c.done[k])
  }

  /** Memtable `m` holds, or held, an entry for `k` no older than `need`. */
  ghost predicate Promised(mems: map<MemId, Mem>, m: MemId, k: Key, need: SeqNo) {
    m in mems && (need > 0 ==> k in mems[m].table && need <= mems[m].table[k])
  }

  ghost predicate Leads(st: Store, m: MemId, x: Reader) {
    m in st.mems && (st.careful ==> Promised(st.mems, m, x.key, x.need))
  }

  ghost predicate ReaderOk(st: Store, started: map<Key, SeqNo>, x: Reader) {
    match x.pc
    case Looked(m) => Leads(st, m, x)
    case Pinned(m) => Leads(st, m, x) && st.mems[m].live
    case Choosing(m) => Leads(st, m, x) && st.mems[m].flushed
    case Loaded(m, vid) => Leads(st, m, x) && st.mems[m].flushed && vid in st.versions
    case HoldsVersion(m, vid) => Leads(st, m, x) && st.mems[m].flushed && vid in st.versions
    case HasFiles(m, vid, fns) =>
      && vid in st.versions && fns <= st.versions[vid].l0.Keys
      && (st.careful && x.need > 0 ==> ReadsAtLeast(st.versions[vid], fns, x.key, x.need))
    case Done(r) =>
      && (st.careful && x.need > 0 ==> r.Some? && x.need <= r.value)
      && (r.Some? ==> x.key in started && r.value <= started[x.key])
  }

  ghost predicate ReadersOk(s: State) {
    forall r :: r in s.readers ==> ReaderOk(s.st, s.c.started, s.readers[r])
  }

  ghost predicate StoreOk(st: Store) {
    IdsOk(st) && MemsOk(st) && ViewOk(st) && AllServe(st)
  }

  ghost predicate ViewOk(st: Store)
    requires HasTarget(st)
  {
    Linked(ViewOf(st)) && (st.careful ==> ViewInv(ViewOf(st)))
  }

  ghost predicate ClientsOk(s: State) {
    && PutsOk(s.c, s.st.mems) && IndexOk(s.c, s.st.mems) && (s.st.careful ==> DoneOk(s.c, s.st.mems))
    && HasTarget(s.st) && StoreBounded(s.st, s.c.started)
  }

  ghost predicate Inv(s: State) {
    StoreOk(s.st) && ClientsOk(s) && ReadersOk(s)
  }

  lemma {:induction false} InitInv(s: State)
    requires Init(s)
    ensures Inv(s)
  {
    var v := s.st.versions[1];
    assert forall f, k :: !Holds(v, f, k);
    assert ViewOf(s.st) == View(map[0 := map[]], map[0 := {}], v);
  }

  // ---------- what no step takes away ----------

  /** Memtable records as a reader relies on them: flushed stays flushed, entries only get newer. */
  ghost predicate MemsGrow(mems: map<MemId, Mem>, mems': map<MemId, Mem>) {
    forall m :: m in mems ==>
      && m in mems' && (mems[m].flushed ==> mems'[m].flushed)
      && forall k :: k in mems[m].table ==> k in mems'[m].table && mems[m].table[k] <= mems'[m].table[k]
  }

  ghost predicate Grows(s: State, s': State) {
    && MemsGrow(s.st.mems, s'.st.mems)
    && (forall k :: k in s.c.started ==> k in s'.c.started && s.c.started[k] <= s'.c.started[k])
    && (forall w :: w in s.st.versions ==> w in s'.st.versions && s'.st.versions[w] == s.st.versions[w])
    && (forall r, m :: r in s.readers && s.readers[r].pc == Pinned(m) && m in s.st.mems && s.st.mems[m].live ==>
          m in s'.st.mems && s'.st.mems[m].live)
    && s'.readers == s.readers && s'.st.careful == s.st.careful
  }

  lemma {:induction false} GrowsKeepsReaders(s: State, s': State)
    requires Grows(s, s') && ReadersOk(s)
    ensures ReadersOk(s')
  {
    forall r | r in s'.readers
      ensures ReaderOk(s'.st, s'.c.started, s'.readers[r])
    {
      assert ReaderOk(s.st, s.c.started, s.readers[r]);
    }
  }

  // ---------- writers ----------

  /** What a writer step may do to the memtable records: it never touches the flush state, and
      contents change only while the memtable is active. */
  ghost predicate Evolves(mems: map<MemId, Mem>, mems': map<MemId, Mem>) {
    && (forall m :: m in mems ==>
          && m in mems' && mems'[m].flushed == mems[m].flushed && mems'[m].l0 == mems[m].l0
          && mems'[m].lastVersion == mems[m].lastVersion
          && (mems[m].immutable ==> mems'[m].immutable && mems'[m].table == mems[m].table)
          && (!mems[m].flushed ==> mems'[m].live == mems[m].live) && (mems'[m].live ==> mems[m].live))
    && (forall m :: m in mems' && m !in mems ==> mems'[m] == Mem(map[], false, false, true, {}, 0))
  }

  lemma {:induction false} EvolvesKeepsView(st: Store, st': Store)
    requires HasTarget(st) && MemsOk(st) && Evolves(st.mems, st'.mems) && st' == st.(mems := st'.mems)
    ensures ViewOf(st') == ViewOf(st)
  {
    assert forall m :: m in FlushedSet(st) ==> MemOk(st, m) && st.mems[m].immutable;
    assert FlushedSet(st') == FlushedSet(st);
    assert forall m :: m in FlushedSet(st) ==>
        FilesAfterInstall(st', m) == FilesAfterInstall(st, m) && st'.mems[m].table == st.mems[m].table;
  }

  lemma {:induction false} EvolvesKeepsMems(st: Store, st': Store)
    requires MemsOk(st) && Evolves(st.mems, st'.mems) && st' == st.(mems := st'.mems)
    ensures MemsOk(st')
  {
    forall m | m in st'.mems
      ensures MemOk(st', m)
    {
      if m in st.mems {
        assert MemOk(st, m);
      } else {
        assert !Pending(st, m);
      }
    }
    assert forall m :: Pending(st', m) ==> Pending(st, m);
  }

  lemma {:induction false} EvolvesKeepsServing(st: Store, st': Store)
    requires MemsOk(st) && AllServe(st) && Evolves(st.mems, st'.mems) && st' == st.(mems := st'.mems)
    ensures AllServe(st')
  {
    forall m, w | m in st'.mems && st'.mems[m].flushed && w in st'.versions && st'.mems[m].lastVersion <= w
      ensures Serves(st'.careful, st'.versions[w], st'.mems[m])
    {
      assert m in st.mems && MemOk(st, m) && Serves(st.careful, st.versions[w], st.mems[m]);
    }
  }

  lemma {:induction false} EvolvesKeepsStore(st: Store, st': Store)
    requires StoreOk(st) && Evolves(st.mems, st'.mems) && st' == st.(mems := st'.mems)
    ensures StoreOk(st')
  {
    EvolvesKeepsView(st, st');
    EvolvesKeepsMems(st, st');
    EvolvesKeepsServing(st, st');
  }

  // Steps that leave the clients alone and add no entries.

  lemma {:induction false} QuietKeepsPuts(c: Clients, mems: map<MemId, Mem>, mems': map<MemId, Mem>)
    requires PutsOk(c, mems) && MemsGrow(mems, mems')
    requires forall m, k :: m in mems' && k in mems'[m].table ==>
      m in mems && k in mems[m].table && mems'[m].table[k] == mems[m].table[k]
    requires forall k :: k in c.puts && c.puts[k].mem in mems && !mems[c.puts[k].mem].immutable ==>
      !mems'[c.puts[k].mem].immutable
    ensures PutsOk(c, mems')
  {
    forall k | k in c.puts
      ensures PutOk(c, mems', k)
    {
      assert PutOk(c, mems, k);
    }
  }

  lemma {:induction false} GrowsKeepsIndex(c: Clients, mems: map<MemId, Mem>, mems': map<MemId, Mem>)
    requires c.slots > 0 && IndexOk(c, mems) && MemsGrow(mems, mems')
    ensures IndexOk(c, mems') && (DoneOk(c, mems) ==> DoneOk(c, mems'))
  {
    if DoneOk(c, mems) {
      forall k | k in c.done
        ensures Promised(mems', IndexAt(c, k), k, c.done[k])
      {
        assert Promised(mems, IndexAt(c, k), k, c.done[k]);
      }
    }
  }

  lemma {:induction false} SameIndex(c: Clients, c': Clients, mems: map<MemId, Mem>)
    requires c.slots > 0 && IndexOk(c, mems)
    requires c'.slots == c.slots && c'.index == c.index && c'.done == c.done && c'.keys == c.keys
    ensures IndexOk(c', mems) && (DoneOk(c, mems) ==> DoneOk(c', mems))
  {
    assert forall j :: j in c.done ==> IndexAt(c', j) == IndexAt(c, j);
  }

  lemma {:induction false} TablesKeepBounds(st: Store, st': Store, started: map<Key, SeqNo>)
    requires HasTarget(st) && StoreBounded(st, started) && st' == st.(mems := st'.mems)
    requires forall m, k ::
      && m in st'.mems && k in st'.mems[m].table
      && !(m in st.mems && k in st.mems[m].table && st'.mems[m].table[k] == st.mems[m].table[k]) ==>
      k in started && st'.mems[m].table[k] <= started[k]
    ensures StoreBounded(st', started)
  {
  }

  lemma {:induction false} MemStepEvolves(s: State, s': State, m: MemId)
    requires NewMem(s, s', m) || Freeze(s, s', m) || FreeMem(s, s', m)
    ensures Evolves(s.st.mems, s'.st.mems)
  {
    if NewMem(s, s', m) {
      hide Freeze, FreeMem;
    } else if Freeze(s, s', m) {
      hide NewMem, FreeMem;
    } else {
      hide NewMem, Freeze;
    }
  }

  lemma {:induction false} MemStepGrows(s: State, s': State, m: MemId)
    requires NewMem(s, s', m) || Freeze(s, s', m) || FreeMem(s, s', m)
    ensures Grows(s, s') && s'.c == s.c && s'.st == s.st.(mems := s'.st.mems)
  {
  }

  lemma {:induction false} MemStepQuiet(s: State, s': State, m: MemId)
    requires NewMem(s, s', m) || Freeze(s, s', m) || FreeMem(s, s', m)
    ensures var mems, mems' := s.st.mems, s'.st.mems;
      && (forall n, k :: n in mems' && k in mems'[n].table ==>
            n in mems && k in mems[n].table && mems'[n].table[k] == mems[n].table[k])
      && (forall k :: k in s.c.puts && s.c.puts[k].mem in mems && !mems[s.c.puts[k].mem].immutable ==>
            s.c.puts[k].mem in mems' && !mems'[s.c.puts[k].mem].immutable)
  {
  }

  lemma {:induction false} MemStepKeepsClients(s: State, s': State, m: MemId)
    requires ClientsOk(s) && (NewMem(s, s', m) || Freeze(s, s', m) || FreeMem(s, s', m))
    ensures ClientsOk(s')
  {
    hide NewMem, Freeze, FreeMem, PutOk, StoreBounded, IndexOk, MemsGrow;
    MemStepGrows(s, s', m);
    MemStepQuiet(s, s', m);
    QuietKeepsPuts(s.c, s.st.mems, s'.st.mems);
    GrowsKeepsIndex(s.c, s.st.mems, s'.st.mems);
    TablesKeepBounds(s.st, s'.st, s.c.started);
  }

  lemma {:induction false} MemStepInv(s: State, s': State, m: MemId)
    requires Inv(s) && (NewMem(s, s', m) || Freeze(s, s', m) || FreeMem(s, s', m))
    ensures Inv(s')
  {
    MemStepKeepsClients(s, s', m);
    MemStepEvolves(s, s', m);
    MemStepGrows(s, s', m);
    EvolvesKeepsStore(s.st, s'.st);
    GrowsKeepsReaders(s, s');
  }

  lemma {:induction false} PutBeginKeepsPuts(s: State, s': State, k: Key, m: MemId)
    requires PutsOk(s.c, s.st.mems) && HasTarget(s.st) && StoreBounded(s.st, s.c.started) && PutBegin(s, s', k, m)
    ensures PutsOk(s'.c, s.st.mems)
  {
    hide StoreBounded, PutOk;
    forall j | j in s'.c.puts
      ensures PutOk(s'.c, s.st.mems, j)
    {
      if j == k {
        PutBeginOk(s, s', k, m);
      } else {
        assert PutOk(s.c, s.st.mems, j);
        PutBeginOther(s, s', k, m, j);
      }
    }
  }

  lemma {:induction false} PutBeginOther(s: State, s': State, k: Key, m: MemId, j: Key)
    requires PutBegin(s, s', k, m) && j != k && j in s.c.puts && PutOk(s.c, s.st.mems, j)
    ensures PutOk(s'.c, s.st.mems, j)
  {
  }

  lemma {:induction false} PutBeginOk(s: State, s': State, k: Key, m: MemId)
    requires HasTarget(s.st) && StoreBounded(s.st, s.c.started) && PutBegin(s, s', k, m) && s.c.nextSeq > 0
    requires forall j :: j in s.c.started ==> s.c.started[j] < s.c.nextSeq
    ensures PutOk(s'.c, s.st.mems, k)
  {
    forall n | n in s.st.mems && k in s.st.mems[n].table
      ensures s.st.mems[n].table[k] < s.c.nextSeq
    {
      assert k in s.c.started && s.st.mems[n].table[k] <= s.c.started[k];
    }
  }

  lemma {:induction false} StartedGrows(st: Store, started: map<Key, SeqNo>, started': map<Key, SeqNo>)
    requires HasTarget(st) && StoreBounded(st, started)
    requires forall k :: k in started ==> k in started' && started[k] <= started'[k]
    ensures StoreBounded(st, started')
  {
    hide Holds;
  }

  lemma {:induction false} PutBeginGrows(s: State, s': State, k: Key, m: MemId)
    requires PutsOk(s.c, s.st.mems) && PutBegin(s, s', k, m)
    ensures Grows(s, s') && s'.st == s.st
    ensures forall j :: j in s.c.started ==> j in s'.c.started && s.c.started[j] <= s'.c.started[j]
  {
  }

  lemma {:induction false} PutBeginKeepsClients(s: State, s': State, k: Key, m: MemId)
    requires ClientsOk(s) && PutBegin(s, s', k, m)
    ensures ClientsOk(s')
  {
    PutBeginGrows(s, s', k, m);
    PutBeginKeepsPuts(s, s', k, m);
    StartedGrows(s.st, s.c.started, s'.c.started);
    SameIndex(s.c, s'.c, s.st.mems);
  }

  lemma {:induction false} PutBeginInv(s: State, s': State, k: Key, m: MemId)
    requires Inv(s) && PutBegin(s, s', k, m)
    ensures Inv(s')
  {
    PutBeginGrows(s, s', k, m);
    PutBeginKeepsClients(s, s', k, m);
    GrowsKeepsReaders(s, s');
  }

  lemma {:induction false} PutAddKeepsPuts(s: State, s': State, k: Key)
    requires PutsOk(s.c, s.st.mems) && PutAdd(s, s', k)
    ensures PutsOk(s'.c, s'.st.mems)
  {
    assert PutOk(s.c, s.st.mems, k);
    forall j | j in s'.c.puts
      ensures PutOk(s'.c, s'.st.mems, j)
    {
      assert PutOk(s.c, s.st.mems, j);
    }
  }

  lemma {:induction false} PutAddEvolves(s: State, s': State, k: Key)
    requires PutsOk(s.c, s.st.mems) && PutAdd(s, s', k)
    ensures Evolves(s.st.mems, s'.st.mems) && s'.st == s.st.(mems := s'.st.mems) && s'.c == s.c.(puts := s'.c.puts)
  {
    assert PutOk(s.c, s.st.mems, k);
    hide PutsOk, PutOk;
  }

  lemma {:induction false} PutAddGrows(s: State, s': State, k: Key)
    requires PutsOk(s.c, s.st.mems) && PutAdd(s, s', k)
    ensures Grows(s, s')
  {
    assert PutOk(s.c, s.st.mems, k);
    PutAddGrowsMems(s, s', k);
    hide PutsOk, PutOk, MemsGrow;
  }

  lemma {:induction false} PutAddGrowsMems(s: State, s': State, k: Key)
    requires PutAdd(s, s', k) && PutOk(s.c, s.st.mems, k)
    ensures MemsGrow(s.st.mems, s'.st.mems)
  {
  }

  lemma {:induction false} PutAddKeepsClients(s: State, s': State, k: Key)
    requires ClientsOk(s) && PutAdd(s, s', k)
    ensures ClientsOk(s')
  {
    PutAddEvolves(s, s', k);
    PutAddGrows(s, s', k);
    PutAddKeepsPuts(s, s', k);
    PutAddKeepsBounds(s, s', k);
    GrowsKeepsIndex(s.c, s.st.mems, s'.st.mems);
    SameIndex(s.c, s'.c, s'.st.mems);
  }

  lemma {:induction false} PutAddKeepsBounds(s: State, s': State, k: Key)
    requires PutsOk(s.c, s.st.mems) && HasTarget(s.st) && StoreBounded(s.st, s.c.started) && PutAdd(s, s', k)
    ensures StoreBounded(s'.st, s'.c.started)
  {
    assert PutOk(s.c, s.st.mems, k);
    hide PutsOk, StoreBounded;
    TablesKeepBounds(s.st, s'.st, s.c.started);
  }

  lemma {:induction false} PutAddInv(s: State, s': State, k: Key)
    requires Inv(s) && PutAdd(s, s', k)
    ensures Inv(s')
  {
    PutAddEvolves(s, s', k);
    PutAddGrows(s, s', k);
    PutAddKeepsClients(s, s', k);
    EvolvesKeepsStore(s.st, s'.st);
    GrowsKeepsReaders(s, s');
  }

  lemma {:induction false} PutIndexKeepsPuts(s: State, s': State, k: Key)
    requires PutsOk(s.c, s.st.mems) && PutIndex(s, s', k)
    ensures PutsOk(s'.c, s.st.mems)
  {
    assert PutOk(s.c, s.st.mems, k);
    forall j | j in s'.c.puts
      ensures PutOk(s'.c, s.st.mems, j)
    {
      assert PutOk(s.c, s.st.mems, j);
    }
  }

  /** Publishing one key leaves the slot of every other key alone. */
  lemma {:induction false} PutIndexKeepsIndex(s: State, s': State, k: Key)
    requires PutsOk(s.c, s.st.mems) && IndexOk(s.c, s.st.mems) && DoneOk(s.c, s.st.mems) && PutIndex(s, s', k)
    ensures DoneOk(s'.c, s.st.mems)
  {
    assert PutOk(s.c, s.st.mems, k);
    forall j | j in s'.c.done
      ensures Promised(s.st.mems, IndexAt(s'.c, j), j, s'.c.done[j])
    {
      if j != k {
        assert Promised(s.st.mems, IndexAt(s.c, j), j, s.c.done[j]);
        assert j in s.c.keys && k in s.c.keys;
      }
    }
  }

  lemma {:induction false} PutIndexInv(s: State, s': State, k: Key)
    requires Inv(s) && PutIndex(s, s', k)
    ensures Inv(s')
  {
    hide StoreOk, StoreBounded, ReaderOk, DoneOk, MemsGrow;
    PutIndexKeepsPuts(s, s', k);
    assert PutOk(s.c, s.st.mems, k);
    if s.st.careful {
      PutIndexKeepsIndex(s, s', k);
    }
    GrowsKeepsReaders(s, s');
  }

  // ---------- installs ----------

  lemma {:induction false} TouchKeepsView(st: Store, st': Store, m: MemId)
    requires HasTarget(st) && MemsOk(st) && Touch(st, st', m)
    ensures HasTarget(st') && ViewOf(st') == ViewOf(st)
  {
    assert MemOk(st, m);
    assert FlushedSet(st') == FlushedSet(st);
    assert forall n :: n in FlushedSet(st) ==>
        FilesAfterInstall(st', n) == FilesAfterInstall(st, n) && st'.mems[n].table == st.mems[n].table;
  }

  lemma {:induction false} TouchKeepsMems(st: Store, st': Store, m: MemId)
    requires IdsOk(st) && MemsOk(st) && Touch(st, st', m)
    ensures IdsOk(st') && MemsOk(st')
  {
    forall n | n in st'.mems
      ensures MemOk(st', n)
    {
      assert MemOk(st, n);
    }
    assert forall n :: Pending(st', n) ==> Pending(st, n);
  }

  lemma {:induction false} TouchInv(st: Store, st': Store, m: MemId)
    requires StoreOk(st) && Touch(st, st', m)
    ensures StoreOk(st')
  {
    TouchKeepsView(st, st', m);
    TouchKeepsMems(st, st', m);
    forall n, w | n in st'.mems && st'.mems[n].flushed && w in st'.versions && st'.mems[n].lastVersion <= w
      ensures Serves(st'.careful, st'.versions[w], st'.mems[n])
    {
      assert n != m;
    }
  }

  lemma {:induction false} CommitInv(st: Store, st': Store)
    requires StoreOk(st) && Commit(st, st')
    ensures StoreOk(st') && ViewOf(st') == ViewOf(st)
  {
    hide LevelsOrdered, Search, Holds;
    assert FlushedSet(st') == FlushedSet(st);
    assert ViewOf(st') == ViewOf(st);
    forall n | n in st'.mems
      ensures MemOk(st', n)
    {
      assert MemOk(st, n);
    }
    forall m, w | m in st'.mems && st'.mems[m].flushed && w in st'.versions && st'.mems[m].lastVersion <= w
      ensures Serves(st'.careful, st'.versions[w], st'.mems[m])
    {
      if w == st'.current {
        var x := ViewOf(st);
        assert m in x.l0 && x.l0[m] == st.mems[m].l0 && x.tables[m] == st.mems[m].table;
        assert x.v == st'.versions[w];
      }
    }
  }

  lemma {:induction false} CloseInv(st: Store, st': Store, vid: VersionId)
    requires StoreOk(st) && CloseVersion(st, st', vid)
    ensures StoreOk(st') && ViewOf(st') == ViewOf(st)
  {
    hide ViewInv, Linked, Serves;
    assert FlushedSet(st') == FlushedSet(st);
    assert forall m :: m in st.mems ==> (MemOk(st, m) <==> MemOk(st', m));
    assert ViewOf(st') == ViewOf(st);
  }

  lemma {:induction false} DrawInv(st: Store, st': Store)
    requires StoreOk(st) && Draw(st, st')
    ensures StoreOk(st')
  {
    hide ViewInv, Linked, Serves;
    assert FlushedSet(st') == FlushedSet(st);
    assert forall m :: m in st.mems ==> (MemOk(st, m) <==> MemOk(st', m));
    assert ViewOf(st') == ViewOf(st);
  }

  lemma {:induction false} FlushEditsFiles(st: Store, st': Store, v: Version, files: map<MemId, FileNo>,
                                           used: set<FileNo>)
    requires st.install.None? && files.Keys <= st.mems.Keys
    requires forall m :: m in files ==> st.mems[m].l0 == {}
    requires st' == Begun(st, v, FlushEdits(files), used)
    ensures forall m :: m in st.mems ==> FilesAfterInstall(st', m) == if m in files then {files[m]} else st.mems[m].l0
    ensures FlushedSet(st') == FlushedSet(st) + files.Keys
  {
    forall m | m in files
      ensures FilesAfterInstall(st', m) == {files[m]}
    {
      assert st'.install.value.todo[m] == SetFlushed(files[m]);
    }
  }

  lemma {:induction false} FlushEditsView(st: Store, st': Store, v: Version, files: map<MemId, FileNo>,
                                          used: set<FileNo>)
    requires HasTarget(st) && st.install.None? && files.Keys <= st.mems.Keys
    requires forall m :: m in files ==> st.mems[m].l0 == {}
    requires st' == Begun(st, v, FlushEdits(files), used)
    ensures ViewOf(st').tables == ViewOf(st).tables + TablesOf(st, files.Keys)
  {
    FlushEditsFiles(st, st', v, files, used);
    hide FilesAfterInstall, FlushedSet, FlushEdits, Pending;
    SameTables(st, st', files.Keys);
  }

  lemma {:induction false} SameTables(st: Store, st': Store, more: set<MemId>)
    requires HasTarget(st) && HasTarget(st') && st'.mems == st.mems && more <= st.mems.Keys
    requires FlushedSet(st') == FlushedSet(st) + more
    ensures ViewOf(st').tables == ViewOf(st).tables + TablesOf(st, more)
  {
    hide FilesAfterInstall, Pending;
    var a, b, c := ViewOf(st').tables, ViewOf(st).tables, TablesOf(st, more);
    assert a.Keys == FlushedSet(st') && b.Keys == FlushedSet(st) && c.Keys == more;
    assert forall m :: m in a ==> a[m] == st.mems[m].table;
    assert forall m :: m in b ==> b[m] == st.mems[m].table;
    hide ViewOf, TablesOf, FlushedSet;
  }

  lemma {:induction false} FlushEditsL0(st: Store, st': Store, v: Version, files: map<MemId, FileNo>, used: set<FileNo>)
    requires HasTarget(st) && st.install.None? && files.Keys <= st.mems.Keys
    requires forall m :: m in files ==> st.mems[m].l0 == {} && !st.mems[m].flushed
    requires st' == Begun(st, v, FlushEdits(files), used)
    ensures ViewOf(st').l0.Keys == ViewOf(st).l0.Keys + files.Keys
    ensures forall m :: m in ViewOf(st).l0 ==> ViewOf(st').l0[m] == ViewOf(st).l0[m]
    ensures forall m :: m in files ==> ViewOf(st').l0[m] == {files[m]}
  {
    FlushEditsFiles(st, st', v, files, used);
  }

  lemma {:induction false} FlushBeginView(st: Store, st': Store, files: map<MemId, FileNo>)
    requires HasTarget(st) && MemsOk(st) && FlushBegin(st, st', files)
    ensures Flushes(ViewOf(st), files, TablesOf(st, files.Keys), ViewOf(st'))
  {
    assert forall m :: m in files ==> MemOk(st, m) && m !in FlushedSet(st);
    FlushEditsView(st, st', st'.install.value.version, files, files.Values);
    FlushEditsL0(st, st', st'.install.value.version, files, files.Values);
    assert files.Keys !! ViewOf(st).l0.Keys;
  }

  /** The edits computed from the input files' memtable ids rewrite exactly the recorded sets. */
  lemma {:induction false} MergeEditsView(st: Store, st': Store, v: Version, inputs: set<FileNo>, outs: set<FileNo>)
    requires HasTarget(st) && st.install.None? && MemsOk(st) && Linked(ViewOf(st))
    requires inputs <= Target(st).l0.Keys && outs !! inputs
    requires st' == Begun(st, v, MergeEdits(Target(st), inputs, outs), outs)
    ensures ViewOf(st').tables == ViewOf(st).tables && ViewOf(st').v == v
    ensures ViewOf(st').l0.Keys == ViewOf(st).l0.Keys
    ensures forall m :: m in ViewOf(st).l0 ==>
      ViewOf(st').l0[m] == if Carries(Target(st), inputs, m) then ViewOf(st).l0[m] + outs - inputs else ViewOf(st).l0[m]
  {
    var x, old' := ViewOf(st), Target(st);
    assert forall m :: Pending(st', m) <==> Carries(old', inputs, m);
    forall m | Carries(old', inputs, m)
      ensures m in FlushedSet(st)
    {
      assert m in x.l0;
    }
    assert FlushedSet(st') == FlushedSet(st);
    forall m | m in x.l0
      ensures FilesAfterInstall(st', m) == if Carries(old', inputs, m) then x.l0[m] + outs - inputs else x.l0[m]
    {
      assert x.l0[m] == st.mems[m].l0;
      var gone := set f | f in inputs && m in old'.l0[f].mids;
      assert x.l0[m] + outs - gone == x.l0[m] + outs - inputs;
    }
  }

  lemma {:induction false} MergeBeginView(st: Store, st': Store, inputs: set<FileNo>,
                                          outs: map<FileNo, map<Key, SeqNo>>)
    requires HasTarget(st) && MemsOk(st) && Linked(ViewOf(st)) && MergeBegin(st, st', inputs, outs)
    ensures Merges(ViewOf(st), inputs, outs, ViewOf(st'))
  {
    MergeEditsView(st, st', st'.install.value.version, inputs, outs.Keys);
  }

  lemma {:induction false} PushBeginView(st: Store, st': Store, inputs: set<FileNo>)
    requires HasTarget(st) && MemsOk(st) && Linked(ViewOf(st)) && PushBegin(st, st', inputs)
    ensures Pushes(ViewOf(st), inputs, ViewOf(st'))
  {
    MergeEditsView(st, st', st'.install.value.version, inputs, {});
    var x := ViewOf(st);
    forall m | m in x.l0
      ensures ViewOf(st').l0[m] == x.l0[m] - inputs
    {
      assert !Carries(x.v, inputs, m) ==> x.l0[m] - inputs == x.l0[m];
      assert x.l0[m] + {} == x.l0[m];
    }
  }

  lemma {:induction false} LowerBeginView(st: Store, st': Store, level: nat, keys: set<Key>)
    requires HasTarget(st) && LowerBegin(st, st', level, keys)
    ensures Lowers(ViewOf(st), level, keys, ViewOf(st'))
  {
    assert FlushedSet(st') == FlushedSet(st);
    assert ViewOf(st').l0 == ViewOf(st).l0;
  }

  /** Beginning an install changes no record yet; its edits are all applicable. */
  lemma {:induction false} BeginKeepsRecords(st: Store, st': Store, used: set<FileNo>)
    requires IdsOk(st) && MemsOk(st) && AllServe(st) && st.install.None? && st'.install.Some?
    requires st' == Begun(st, st'.install.value.version, st'.install.value.todo, used) && used <= st.drawn
    requires st'.install.value.version.l0.Keys <= Target(st).l0.Keys + used
    requires forall m :: Pending(st', m) ==> m in st.mems && MayApply(st.mems[m], st'.install.value.todo[m])
    ensures IdsOk(st') && MemsOk(st') && AllServe(st')
  {
    forall m | m in st'.mems
      ensures MemOk(st', m)
    {
      assert MemOk(st, m);
    }
  }

  lemma {:induction false} FlushBeginInv(st: Store, st': Store, files: map<MemId, FileNo>)
    requires StoreOk(st) && FlushBegin(st, st', files)
    ensures StoreOk(st')
  {
    FlushBeginView(st, st', files);
    FlushKeepsLinks(ViewOf(st), files, TablesOf(st, files.Keys), ViewOf(st'));
    if st.careful {
      FlushKeepsReads(ViewOf(st), files, TablesOf(st, files.Keys), ViewOf(st'));
    }
    assert forall m :: m in files ==> MemOk(st, m);
    BeginKeepsRecords(st, st', files.Values);
  }

  lemma {:induction false} CarriedAreFlushed(st: Store, inputs: set<FileNo>, m: MemId)
    requires HasTarget(st) && st.install.None? && MemsOk(st) && Linked(ViewOf(st)) && Carries(Target(st), inputs, m)
    ensures m in st.mems && st.mems[m].flushed && st.mems[m].immutable
  {
    assert m in ViewOf(st).l0;
    assert MemOk(st, m);
  }

  lemma {:induction false} MergeBeginInv(st: Store, st': Store, inputs: set<FileNo>, outs: map<FileNo, map<Key, SeqNo>>)
    requires StoreOk(st) && MergeBegin(st, st', inputs, outs)
    ensures StoreOk(st')
  {
    MergeBeginView(st, st', inputs, outs);
    MergeKeepsLinks(ViewOf(st), inputs, outs, ViewOf(st'));
    if st.careful {
      MergeKeepsReadsIff(ViewOf(st), inputs, outs, ViewOf(st'));
    }
    forall m | Pending(st', m)
      ensures m in st.mems && MayApply(st.mems[m], st'.install.value.todo[m])
    {
      CarriedAreFlushed(st, inputs, m);
    }
    BeginKeepsRecords(st, st', outs.Keys);
  }

  lemma {:induction false} PushBeginInv(st: Store, st': Store, inputs: set<FileNo>)
    requires StoreOk(st) && PushBegin(st, st', inputs)
    ensures StoreOk(st')
  {
    PushBeginView(st, st', inputs);
    PushKeepsLinks(ViewOf(st), inputs, ViewOf(st'));
    if st.careful {
      PushKeepsReadsIff(ViewOf(st), inputs, ViewOf(st'));
    }
    forall m | Pending(st', m)
      ensures m in st.mems && MayApply(st.mems[m], st'.install.value.todo[m])
    {
      CarriedAreFlushed(st, inputs, m);
    }
    BeginKeepsRecords(st, st', {});
  }

  lemma {:induction false} LowerBeginInv(st: Store, st': Store, level: nat, keys: set<Key>)
    requires StoreOk(st) && LowerBegin(st, st', level, keys)
    ensures StoreOk(st')
  {
    hide Linked, ViewInv, Serves, ViewOf;
    LowerBeginView(st, st', level, keys);
    LowerKeepsLinks(ViewOf(st), level, keys, ViewOf(st'));
    if st.careful {
      LowerKeepsReads(ViewOf(st), level, keys, ViewOf(st'));
    }
    BeginKeepsRecords(st, st', {});
  }

  // ---------- bounds on what versions hold ----------

  lemma {:induction false} FlushKeepsBounds(v: Version, files: map<MemId, FileNo>,
                                            contents: map<MemId, map<Key, SeqNo>>, v': Version,
                                            started: map<Key, SeqNo>)
    requires EntriesBounded(v, started) && FlushedVersion(v, files, contents, v')
    requires forall m, k :: m in contents && k in contents[m] ==> k in started && contents[m][k] <= started[k]
    ensures EntriesBounded(v', started)
  {
    forall f, k | Holds(v', f, k)
      ensures k in started && EntryOf(v', f, k) <= started[k]
    {
      if f in v.l0 {
        assert Holds(v, f, k);
      } else {
        var m :| m in files && files[m] == f;
        assert k in contents[m];
      }
    }
  }

  lemma {:induction false} MergeKeepsBounds(v: Version, inputs: set<FileNo>, outs: map<FileNo, map<Key, SeqNo>>,
                                            v': Version, started: map<Key, SeqNo>)
    requires EntriesBounded(v, started) && MergedVersion(v, inputs, outs, v')
    ensures EntriesBounded(v', started)
  {
    forall f, k | Holds(v', f, k)
      ensures k in started && EntryOf(v', f, k) <= started[k]
    {
      if f in outs {
        assert NewestIn(v, inputs, k, outs[f][k]);
      } else {
        assert Holds(v, f, k);
      }
    }
  }

  lemma {:induction false} PushKeepsBounds(v: Version, inputs: set<FileNo>, v': Version, started: map<Key, SeqNo>)
    requires EntriesBounded(v, started) && PushedVersion(v, inputs, v')
    ensures EntriesBounded(v', started)
  {
    assert forall f, k :: Holds(v', f, k) ==> Holds(v, f, k);
    forall i, k | 0 <= i < |v'.levels| && k in v'.levels[i]
      ensures k in started && v'.levels[i][k] <= started[k]
    {
      if i > 0 {
        assert v'.levels[i] == v'.levels[1..][i - 1] == v.levels[i];
      } else if InFiles(v, inputs, k) {
        var e := NewestExists(v, inputs, k);
      } else {
        assert k in v.levels[0];
      }
    }
  }

  lemma {:induction false} LowerKeepsBounds(v: Version, i: nat, keys: set<Key>, v': Version, started: map<Key, SeqNo>)
    requires EntriesBounded(v, started) && LoweredVersion(v, i, keys, v')
    ensures EntriesBounded(v', started)
  {
    assert forall f, k :: Holds(v', f, k) ==> Holds(v, f, k);
    forall j, k | 0 <= j < |v'.levels| && k in v'.levels[j]
      ensures k in started && v'.levels[j][k] <= started[k]
    {
      assert j == i + 1 ==> k in v.levels[i] || k in v.levels[i + 1];
    }
  }

  lemma {:induction false} BeginKeepsBounds(st: Store, st': Store, used: set<FileNo>, started: map<Key, SeqNo>)
    requires HasTarget(st) && StoreBounded(st, started) && st.install.None?
    requires st'.install.Some? && st' == Begun(st, st'.install.value.version, st'.install.value.todo, used)
    ensures HasTarget(st')
    ensures EntriesBounded(st'.install.value.version, started) ==> StoreBounded(st', started)
  {
  }

  lemma {:induction false} RecordStepKeepsBounds(st: Store, st': Store, started: map<Key, SeqNo>)
    requires HasTarget(st) && StoreBounded(st, started)
    requires Draw(st, st') || (exists m :: Touch(st, st', m)) || Commit(st, st')
      || (exists vid :: CloseVersion(st, st', vid))
    ensures HasTarget(st') && StoreBounded(st', started)
  {
    hide EntriesBounded;
  }

  lemma {:induction false} FlushBeginBounds(st: Store, st': Store, files: map<MemId, FileNo>, started: map<Key, SeqNo>)
    requires HasTarget(st) && StoreBounded(st, started) && FlushBegin(st, st', files)
    ensures HasTarget(st') && StoreBounded(st', started)
  {
    hide FlushEdits;
    FlushKeepsBounds(st.versions[st.current], files, TablesOf(st, files.Keys), st'.install.value.version, started);
    BeginKeepsBounds(st, st', files.Values, started);
  }

  lemma {:induction false} MergeBeginBounds(st: Store, st': Store, inputs: set<FileNo>,
                                            outs: map<FileNo, map<Key, SeqNo>>, started: map<Key, SeqNo>)
    requires HasTarget(st) && StoreBounded(st, started) && MergeBegin(st, st', inputs, outs)
    ensures HasTarget(st') && StoreBounded(st', started)
  {
    MergeKeepsBounds(st.versions[st.current], inputs, outs, st'.install.value.version, started);
    BeginKeepsBounds(st, st', outs.Keys, started);
  }

  lemma {:induction false} PushBeginBounds(st: Store, st': Store, inputs: set<FileNo>, started: map<Key, SeqNo>)
    requires HasTarget(st) && StoreBounded(st, started) && PushBegin(st, st', inputs)
    ensures HasTarget(st') && StoreBounded(st', started)
  {
    PushKeepsBounds(st.versions[st.current], inputs, st'.install.value.version, started);
    BeginKeepsBounds(st, st', {}, started);
  }

  lemma {:induction false} LowerBeginBounds(st: Store, st': Store, level: nat, keys: set<Key>, started: map<Key, SeqNo>)
    requires HasTarget(st) && StoreBounded(st, started) && LowerBegin(st, st', level, keys)
    ensures HasTarget(st') && StoreBounded(st', started)
  {
    LowerKeepsBounds(st.versions[st.current], level, keys, st'.install.value.version, started);
    BeginKeepsBounds(st, st', {}, started);
  }

  lemma {:induction false} InstallKeepsBounds(st: Store, st': Store, started: map<Key, SeqNo>)
    requires HasTarget(st) && StoreBounded(st, started) && InstallStep(st, st')
    ensures HasTarget(st') && StoreBounded(st', started)
  {
    if files :| FlushBegin(st, st', files) {
      FlushBeginBounds(st, st', files, started);
    } else if inputs, outs :| MergeBegin(st, st', inputs, outs) {
      MergeBeginBounds(st, st', inputs, outs, started);
    } else if inputs :| PushBegin(st, st', inputs) {
      PushBeginBounds(st, st', inputs, started);
    } else if level: nat, keys :| LowerBegin(st, st', level, keys) {
      LowerBeginBounds(st, st', level, keys, started);
    } else {
      RecordStepKeepsBounds(st, st', started);
    }
  }

  lemma {:induction false} InstallKeepsStore(st: Store, st': Store)
    requires StoreOk(st) && InstallStep(st, st')
    ensures StoreOk(st')
  {
    if files :| FlushBegin(st, st', files) {
      FlushBeginInv(st, st', files);
    } else if inputs, outs :| MergeBegin(st, st', inputs, outs) {
      MergeBeginInv(st, st', inputs, outs);
    } else if inputs :| PushBegin(st, st', inputs) {
      PushBeginInv(st, st', inputs);
    } else if level: nat, keys :| LowerBegin(st, st', level, keys) {
      LowerBeginInv(st, st', level, keys);
    } else if m :| Touch(st, st', m) {
      TouchInv(st, st', m);
    } else if Commit(st, st') {
      CommitInv(st, st');
    } else if Draw(st, st') {
      DrawInv(st, st');
    } else {
      var vid :| CloseVersion(st, st', vid);
      CloseInv(st, st', vid);
    }
  }

  lemma {:induction false} InstallGrows(st: Store, st': Store)
    requires IdsOk(st) && InstallStep(st, st')
    ensures MemsGrow(st.mems, st'.mems)
    ensures forall w :: w in st.versions ==> w in st'.versions && st'.versions[w] == st.versions[w]
    ensures forall m :: m in st.mems ==>
      st'.mems[m].live == st.mems[m].live && st'.mems[m].table == st.mems[m].table
        && st'.mems[m].immutable == st.mems[m].immutable
    ensures st'.mems.Keys == st.mems.Keys && st'.careful == st.careful
  {
    hide FlushBegin, MergeBegin, PushBegin, LowerBegin;
    if m :| Touch(st, st', m) {
    } else if Draw(st, st') || Commit(st, st') || exists vid :: CloseVersion(st, st', vid) {
      assert st'.mems == st.mems;
    } else {
      BeginGrows(st, st');
    }
  }

  lemma {:induction false} BeginGrows(st: Store, st': Store)
    requires (exists files :: FlushBegin(st, st', files)) || (exists inputs, outs :: MergeBegin(st, st', inputs, outs))
          || (exists inputs :: PushBegin(st, st', inputs))
             || (exists level: nat, keys :: LowerBegin(st, st', level, keys))
    ensures st'.mems == st.mems && st'.versions == st.versions && st'.careful == st.careful
  {
    hide FlushedVersion, MergedVersion, PushedVersion, LoweredVersion, MergeDisciplined, PushDisciplined, ViewOf;
  }

  lemma {:induction false} InstallInv(s: State, s': State)
    requires Inv(s) && s' == s.(st := s'.st) && InstallStep(s.st, s'.st)
    ensures Inv(s')
  {
    InstallKeepsStore(s.st, s'.st);
    InstallGrows(s.st, s'.st);
    InstallKeepsBounds(s.st, s'.st, s.c.started);
    QuietKeepsPuts(s.c, s.st.mems, s'.st.mems);
    GrowsKeepsIndex(s.c, s.st.mems, s'.st.mems);
    GrowsKeepsReaders(s, s');
  }

  // ---------- readers ----------

  lemma {:induction false} OutcomeBounded(v: Version, fns: set<FileNo>, k: Key, r: Option<SeqNo>,
                                          started: map<Key, SeqNo>)
    requires ReadOutcome(v, fns, k, r) && EntriesBounded(v, started) && r.Some?
    ensures k in started && r.value <= started[k]
  {
    if InFiles(v, fns, k) {
      var f :| Answers(v, fns, k, f) && r == Some(EntryOf(v, f, k));
      assert Holds(v, f, k);
    } else {
      var i := HitWitness(v, k);
    }
  }

  lemma {:induction false} ReaderMoveOk(st: Store, started: map<Key, SeqNo>, x: Reader, pc': Pc)
    requires IdsOk(st) && MemsOk(st) && AllServe(st) && StoreBounded(st, started)
    requires ReaderOk(st, started, x) && ReaderMoves(st, x.key, x.pc, pc')
    ensures ReaderOk(st, started, x.(pc := pc'))
  {
    match x.pc
    case Looked(m) => assert MemOk(st, m);
    case HoldsVersion(m, vid) =>
      if st.mems[m].lastVersion <= vid {
        assert Serves(st.careful, st.versions[vid], st.mems[m]);
        if st.careful && x.need > 0 {
          assert ReadsAtLeast(st.versions[vid], st.mems[m].l0, x.key, st.mems[m].table[x.key]);
        }
      }
    case HasFiles(m, vid, fns) =>
      if st.careful && x.need > 0 {
        OutcomeIsFresh(st.versions[vid], fns, x.key, pc'.result, x.need);
      }
      if pc'.result.Some? {
        OutcomeBounded(st.versions[vid], fns, x.key, pc'.result, started);
      }
    case _ =>
  }

  lemma {:induction false} LookupOk(s: State, r: nat, x: Reader)
    requires MemsOk(s.st) && ClientsOk(s) && Lookup(s, r, x)
    ensures ReaderOk(s.st, s.c.started, x)
  {
    hide PutsOk, StoreBounded, MemOk;
    if s.st.careful && x.key in s.c.done {
      assert Promised(s.st.mems, IndexAt(s.c, x.key), x.key, s.c.done[x.key]);
    }
  }

  lemma {:induction false} ReaderStepInv(s: State, s': State)
    requires Inv(s) && ReaderStep(s, s')
    ensures Inv(s')
  {
    hide ReaderOk, Lookup, ReaderMoves, PutsOk, IndexOk, StoreBounded, AllServe, ViewOf, ViewInv, MemsOk;
    if r, x :| Lookup(s, r, x) && s' == s.(readers := s.readers[r := x]) {
      LookupOk(s, r, x);
    } else {
      var r, pc' :| r in s.readers && ReaderMoves(s.st, s.readers[r].key, s.readers[r].pc, pc')
                    && s' == s.(readers := s.readers[r := s.readers[r].(pc := pc')]);
      assert ReaderOk(s.st, s.c.started, s.readers[r]);
      ReaderMoveOk(s.st, s.c.started, s.readers[r], pc');
    }
  }

  // ---------- all runs ----------

  lemma {:induction false} NextInv(s: State, s': State)
    requires Inv(s) && Next(s, s')
    ensures Inv(s')
  {
    hide StoreOk, ClientsOk, ReadersOk, PutBegin, PutAdd, PutIndex, NewMem, Freeze, FreeMem, ReaderStep, InstallStep;
    if m :| NewMem(s, s', m) || Freeze(s, s', m) || FreeMem(s, s', m) {
      MemStepInv(s, s', m);
    } else if k, m :| PutBegin(s, s', k, m) {
      PutBeginInv(s, s', k, m);
    } else if k :| PutAdd(s, s', k) {
      PutAddInv(s, s', k);
    } else if k :| PutIndex(s, s', k) {
      PutIndexInv(s, s', k);
    } else if ReaderStep(s, s') {
      ReaderStepInv(s, s');
    } else {
      InstallInv(s, s');
    }
  }

  ghost predicate Run(trace: seq<State>) {
    && |trace| > 0 && Init(trace[0])
    && forall i :: 0 <= i < |trace| - 1 ==> Next(trace[i], trace[i + 1])
  }

  lemma {:induction false} RunInv(trace: seq<State>, i: nat)
    requires Run(trace) && i < |trace|
    ensures Inv(trace[i])
  {
    if i == 0 {
      InitInv(trace[0]);
    } else {
      RunInv(trace, i - 1);
      NextInv(trace[i - 1], trace[i]);
    }
  }

  lemma {:induction false} NextKeepsCareful(s: State, s': State)
    requires Inv(s) && Next(s, s')
    ensures s'.st.careful == s.st.careful
  {
    hide ClientsOk, ReadersOk, InstallStep, MemsOk, ViewOk, AllServe, ReaderMoves, Lookup;
    if s' == s.(st := s'.st) && InstallStep(s.st, s'.st) {
      InstallGrows(s.st, s'.st);
    }
  }

  lemma {:induction false} RunKeepsCareful(trace: seq<State>, i: nat)
    requires Run(trace) && i < |trace|
    ensures trace[i].st.careful == trace[0].st.careful
  {
    hide Inv, Init, Next;
    if i > 0 {
      RunKeepsCareful(trace, i - 1);
      RunInv(trace, i - 1);
      NextKeepsCareful(trace[i - 1], trace[i]);
    }
  }

  /** A run in which every merge and push is safe when it begins and keys do not share index slots. */
  ghost predicate CarefulRun(trace: seq<State>) {
    Run(trace) && trace[0].st.careful
  }

  /** A merge that keeps to the discipline on files alone is safe, at every moment of a careful run. */
  lemma {:induction false} DisciplinedMergeIsSafe(trace: seq<State>, i: nat, inputs: set<FileNo>,
                                                  outs: map<FileNo, map<Key, SeqNo>>)
    requires CarefulRun(trace) && i < |trace| && trace[i].st.install.None? && HasTarget(trace[i].st)
    requires MergeOutputs(Target(trace[i].st), inputs, outs) && KeepsWinners(ViewOf(trace[i].st), inputs)
    requires OutputsYield(ViewOf(trace[i].st), inputs, outs) && NotOlderThanLevels(Target(trace[i].st), inputs)
    ensures MergeSafe(ViewOf(trace[i].st), inputs, outs)
  {
    RunInv(trace, i);
    RunKeepsCareful(trace, i);
    hide Init, Next, ClientsOk, ReadersOk, AllServe, ViewInv, MergeOutputs, KeepsWinners, OutputsYield,
      NotOlderThanLevels, MergeSafe;
    CarefulMergeIsSafe(ViewOf(trace[i].st), inputs, outs);
  }

  /** And so is such a push. */
  lemma {:induction false} DisciplinedPushIsSafe(trace: seq<State>, i: nat, inputs: set<FileNo>)
    requires CarefulRun(trace) && i < |trace| && trace[i].st.install.None? && HasTarget(trace[i].st)
    requires KeepsWinners(ViewOf(trace[i].st), inputs) && PushDiscipline(Target(trace[i].st), inputs)
    ensures PushSafe(ViewOf(trace[i].st), inputs)
  {
    RunInv(trace, i);
    RunKeepsCareful(trace, i);
    hide Init, Next, ClientsOk, ReadersOk, AllServe, ViewInv, KeepsWinners, PushDiscipline, PushSafe;
    CarefulPushIsSafe(ViewOf(trace[i].st), inputs);
  }

  lemma {:induction false} ReadersAreOk(trace: seq<State>, i: nat, r: nat)
    requires Run(trace) && i < |trace| && r in trace[i].readers
    ensures ReaderOk(trace[i].st, trace[i].c.started, trace[i].readers[r])
  {
    hide Init, Next, StoreOk, ClientsOk, ReaderOk;
    RunInv(trace, i);
  }

  /** In every run, careful or not: a reader that has left the retry loop holds only file numbers
      that its version has, so the search cannot end in the I/O error that the caller asserts away. */
  lemma {:induction false} ReadersFilesExist(trace: seq<State>, i: nat, r: nat)
    requires Run(trace) && i < |trace| && r in trace[i].readers && trace[i].readers[r].pc.HasFiles?
    ensures trace[i].readers[r].pc.vid in trace[i].st.versions
    ensures trace[i].readers[r].pc.fns <= trace[i].st.versions[trace[i].readers[r].pc.vid].l0.Keys
  {
    hide Run;
    ReadersAreOk(trace, i, r);
  }

  /** In every run, the asserts of SetFlushed and UpdateL0Files hold whenever an install reaches them. */
  lemma {:induction false} InstallAssertsHold(trace: seq<State>, i: nat, m: MemId)
    requires Run(trace) && i < |trace| && Pending(trace[i].st, m)
    ensures m in trace[i].st.mems && MayApply(trace[i].st.mems[m], trace[i].st.install.value.todo[m])
  {
    hide Init, Next, ClientsOk, ReadersOk, ViewOk, AllServe, MayApply;
    RunInv(trace, i);
    assert MemOk(trace[i].st, m);
  }

  /** In every careful run, a finished read is never older than a Put that had completed when the
      read began. */
  lemma {:induction false} ReadsAreFresh(trace: seq<State>, i: nat, r: nat)
    requires CarefulRun(trace) && i < |trace| && r in trace[i].readers && trace[i].readers[r].pc.Done?
    requires trace[i].readers[r].need > 0
    ensures trace[i].readers[r].pc.result.Some?
    ensures trace[i].readers[r].need <= trace[i].readers[r].pc.result.value
  {
    hide Run;
    ReadersAreOk(trace, i, r);
    RunKeepsCareful(trace, i);
  }

  /** A read whose key was never put finds nothing, in every run.  In a careful run a read without a
      newer Put of its key returns exactly what a plain map from keys to values would return. */
  lemma {:induction false} ReadsAgreeWithMap(trace: seq<State>, i: nat, r: nat)
    requires Run(trace) && i < |trace| && r in trace[i].readers && trace[i].readers[r].pc.Done?
    ensures var x, c := trace[i].readers[r], trace[i].c;
      && (x.key !in c.started ==> x.pc.result == None)
      && (CarefulRun(trace) && x.key in c.started && c.started[x.key] == x.need > 0 ==> x.pc.result == Some(x.need))
  {
    hide Run;
    ReadersAreOk(trace, i, r);
    RunKeepsCareful(trace, i);
  }
}
