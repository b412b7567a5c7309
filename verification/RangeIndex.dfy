/** The versioned range index and the reference counts that keep memtables alive for scans.

    A version lists, for every range, the memtables whose data a scan of the range must read.
    Listing a version takes one reference per (range, memtable) pair; unlisting it hands these
    references to a batch of unrefs that is applied later, outside the lock.  The theorems hold
    for every interleaving of version changes, scans, flushes and point reads. */
module RangeIndex {

  type MemId = nat

  /** `live` is false once the memtable has been freed. */
  datatype Mem = Mem(refs: int, flushed: bool, live: bool)

  datatype Version = Version(id: nat, tables: seq<set<MemId>>, refs: int, deleted: bool)

  /** `versions` is the linked list, oldest first; the last one is current.  `held` are the
      version ids scans hold, `pending` the unrefs still to be applied, `readers` the references
      of point reads. */
  datatype State = State(mems: map<MemId, Mem>, versions: seq<Version>, held: multiset<nat>,
                         pending: multiset<MemId>, readers: multiset<MemId>)

  /** Number of ranges that name a memtable. */
  function Count(tables: seq<set<MemId>>, m: MemId): nat {
    if tables == [] then 0
    else Count(tables[..|tables| - 1], m) + if m in tables[|tables| - 1] then 1 else 0
  }

  /** Number of (listed version, range) pairs that name a memtable. */
  function Named(versions: seq<Version>, m: MemId): nat {
    if versions == [] then 0
    else Named(versions[..|versions| - 1], m) + Count(versions[|versions| - 1].tables, m)
  }

  // ---------- steps ----------

  function Ref(mem: Mem, n: nat): Mem {
    if mem.live then mem.(refs := mem.refs + n) else mem
  }

  function Unref(mem: Mem, n: nat): Mem {
    mem.(refs := mem.refs - n, live := mem.live && mem.refs - n != 0)
  }

  function UnRefVersion(v: Version): Version {
    v.(refs := v.refs - 1, deleted := v.deleted || v.refs - 1 == 0)
  }

  ghost predicate NewMem(s: State, s': State, m: MemId) {
    m !in s.mems && s' == s.(mems := s.mems[m := Mem(1, false, true)])
  }

  /** A new version names memtables that the current one names, or one that is not flushed. */
  ghost predicate Append(s: State, s': State, tables: seq<set<MemId>>) {
    && s.versions != []
    && var last := s.versions[|s.versions| - 1];
       && (forall m :: Count(tables, m) > 0 ==> m in s.mems && (Count(last.tables, m) > 0 || !s.mems[m].flushed))
       && s' == s.(versions := s.versions[|s.versions| - 1 := UnRefVersion(last)]
                               + [Version(last.id + 1, tables, 1, false)],
                   mems := s'.mems)
       && s'.mems.Keys == s.mems.Keys
       && forall m :: m in s.mems ==> s'.mems[m] == Ref(s.mems[m], Count(tables, m))
  }

  /** A scan refs the current version unless it is deleted. */
  ghost predicate ScanBegin(s: State, s': State) {
    && s.versions != []
    && var n := |s.versions| - 1;
       var last := s.versions[n];
       && !last.deleted
       && s' == s.(versions := s.versions[n := last.(refs := last.refs + 1)], held := s.held + multiset{last.id})
  }

  ghost predicate ScanEnd(s: State, s': State, i: nat) {
    && i < |s.versions| && s.versions[i].id in s.held
    && s' == s.(versions := s.versions[i := UnRefVersion(s.versions[i])], held := s.held - multiset{s.versions[i].id})
  }

  /** Unlist one deleted version; its references become pending unrefs. */
  ghost predicate DeleteObsolete(s: State, s': State, i: nat) {
    && i < |s.versions| && s.versions[i].deleted
    && s' == s.(versions := s.versions[..i] + s.versions[i + 1..], pending := s'.pending)
    && forall m :: s'.pending[m] == s.pending[m] + Count(s.versions[i].tables, m)
  }

  ghost predicate ApplyUnref(s: State, s': State, m: MemId, n: nat) {
    && 0 < n <= s.pending[m] && m in s.mems
    && s' == s.(mems := s.mems[m := Unref(s.mems[m], n)], pending := s.pending[m := s.pending[m] - n])
  }

  ghost predicate SetFlushed(s: State, s': State, m: MemId) {
    && m in s.mems && !s.mems[m].flushed
    && s' == s.(mems := s.mems[m := Unref(s.mems[m], 1).(flushed := true)])
  }

  ghost predicate ReaderRef(s: State, s': State, m: MemId) {
    && m in s.mems && s.mems[m].live
    && s' == s.(mems := s.mems[m := Ref(s.mems[m], 1)], readers := s.readers + multiset{m})
  }

  ghost predicate ReaderUnref(s: State, s': State, m: MemId) {
    && m in s.readers && m in s.mems
    && s' == s.(mems := s.mems[m := Unref(s.mems[m], 1)], readers := s.readers - multiset{m})
  }

  ghost predicate MemStep(s: State, s': State) {
    || (exists m :: NewMem(s, s', m))
    || (exists m, n: nat :: ApplyUnref(s, s', m, n))
    || (exists m :: SetFlushed(s, s', m))
    || (exists m :: ReaderRef(s, s', m))
    || (exists m :: ReaderUnref(s, s', m))
  }

  ghost predicate Next(s: State, s': State) {
    || MemStep(s, s')
    || (exists tables :: Append(s, s', tables))
    || ScanBegin(s, s')
    || (exists i: nat :: ScanEnd(s, s', i))
    || (exists i: nat :: DeleteObsolete(s, s', i))
  }

  ghost predicate Init(s: State) {
    && |s.versions| == 1 && s.versions[0].refs == 1 && !s.versions[0].deleted
    && s.held == multiset{} && s.pending == multiset{} && s.readers == multiset{}
    && (forall m :: m in s.mems ==> s.mems[m] == Mem(1 + Count(s.versions[0].tables, m), false, true))
    && (forall m :: Count(s.versions[0].tables, m) > 0 ==> m in s.mems)
  }

  // ---------- the invariant ----------

  ghost function Expected(s: State, m: MemId): nat
    requires m in s.mems
  {
    (if s.mems[m].flushed then 0 else 1) + Named(s.versions, m) + s.pending[m] + s.readers[m]
  }

  ghost predicate MemOk(s: State, m: MemId)
    requires m in s.mems
  {
    s.mems[m].refs == Expected(s, m) && (s.mems[m].live <==> s.mems[m].refs > 0)
  }

  ghost predicate MemsOk(s: State) {
    && (forall m :: m in s.mems ==> MemOk(s, m))
    && (forall m :: Named(s.versions, m) > 0 || s.pending[m] > 0 || s.readers[m] > 0 ==> m in s.mems)
  }

  ghost predicate VersionOk(s: State, i: nat)
    requires i < |s.versions|
  {
    && s.versions[i].refs == s.held[s.versions[i].id] + (if i == |s.versions| - 1 then 1 else 0)
    && (s.versions[i].deleted <==> s.versions[i].refs == 0)
  }

  ghost predicate VersionsOk(s: State) {
    && |s.versions| > 0
    && (forall i, j :: 0 <= i < j < |s.versions| ==> s.versions[i].id < s.versions[j].id)
    && (forall i :: 0 <= i < |s.versions| ==> VersionOk(s, i))
    && (forall id :: id in s.held ==> exists i :: 0 <= i < |s.versions| && s.versions[i].id == id)
  }

  ghost predicate Inv(s: State) {
    MemsOk(s) && VersionsOk(s)
  }

  // ---------- sums over the list ----------

  lemma {:induction false} NamedAppend(versions: seq<Version>, v: Version, m: MemId)
    ensures Named(versions + [v], m) == Named(versions, m) + Count(v.tables, m)
  {
    assert (versions + [v])[..|versions|] == versions;
  }

  lemma {:induction false} NamedSame(a: seq<Version>, b: seq<Version>, m: MemId)
    requires |a| == |b| && forall i :: 0 <= i < |a| ==> a[i].tables == b[i].tables
    ensures Named(a, m) == Named(b, m)
  {
    if a != [] {
      NamedSame(a[..|a| - 1], b[..|b| - 1], m);
    }
  }

  lemma {:induction false} NamedRemove(versions: seq<Version>, i: nat, m: MemId)
    requires i < |versions|
    ensures Named(versions[..i] + versions[i + 1..], m) + Count(versions[i].tables, m) == Named(versions, m)
  {
    var init, last := versions[..|versions| - 1], versions[|versions| - 1];
    if i < |versions| - 1 {
      NamedRemove(init, i, m);
      assert init[..i] == versions[..i];
      assert versions[..i] + versions[i + 1..] == (init[..i] + init[i + 1..]) + [last];
      NamedAppend(init[..i] + init[i + 1..], last, m);
    } else {
      assert versions[..i] + versions[i + 1..] == init;
    }
  }

  lemma {:induction false} NamedAtLeast(versions: seq<Version>, i: nat, m: MemId)
    requires i < |versions|
    ensures Count(versions[i].tables, m) <= Named(versions, m)
  {
    if i < |versions| - 1 {
      NamedAtLeast(versions[..|versions| - 1], i, m);
    }
  }

  lemma {:induction false} CountAtLeast(tables: seq<set<MemId>>, i: nat, m: MemId)
    requires i < |tables| && m in tables[i]
    ensures Count(tables, m) > 0
  {
    if i < |tables| - 1 {
      CountAtLeast(tables[..|tables| - 1], i, m);
    }
  }

  // ---------- each step keeps the invariant ----------

  lemma {:induction false} CountSome(tables: seq<set<MemId>>, m: MemId) returns (i: nat)
    requires Count(tables, m) > 0
    ensures i < |tables| && m in tables[i]
  {
    i := |tables| - 1;
    if m !in tables[i] {
      i := CountSome(tables[..|tables| - 1], m);
    }
  }

  /** A step at one memtable leaves the counts of all others as they were. */
  lemma {:induction false} OneMemChanges(s: State, s': State, m: MemId)
    requires MemsOk(s) && s'.versions == s.versions && s'.mems.Keys == s.mems.Keys + {m}
    requires forall x :: x in s.mems && x != m ==> s'.mems[x] == s.mems[x]
    requires forall x :: x != m ==> s'.pending[x] == s.pending[x] && s'.readers[x] == s.readers[x]
    requires MemOk(s', m)
    ensures MemsOk(s')
  {
    hide Named, Count;
    forall x | x in s'.mems
      ensures MemOk(s', x)
    {
      if x != m {
        assert MemOk(s, x);
      }
    }
  }

  lemma {:induction false} NewMemInv(s: State, s': State, m: MemId)
    requires MemsOk(s) && NewMem(s, s', m)
    ensures MemsOk(s')
  {
    hide Named, Count;
    OneMemChanges(s, s', m);
  }

  lemma {:induction false} UnrefInv(s: State, s': State, m: MemId, n: nat)
    requires MemsOk(s) && (ApplyUnref(s, s', m, n) || ReaderUnref(s, s', m) || SetFlushed(s, s', m))
    ensures MemsOk(s')
  {
    hide Named, Count;
    assert MemOk(s, m);
    OneMemChanges(s, s', m);
  }

  lemma {:induction false} ReaderRefInv(s: State, s': State, m: MemId)
    requires MemsOk(s) && ReaderRef(s, s', m)
    ensures MemsOk(s')
  {
    hide Named, Count;
    assert MemOk(s, m);
    OneMemChanges(s, s', m);
  }

  lemma {:induction false} MemStepInv(s: State, s': State)
    requires Inv(s) && MemStep(s, s')
    ensures Inv(s')
  {
    hide MemsOk, VersionsOk, NewMem, ApplyUnref, SetFlushed, ReaderRef, ReaderUnref;
    MemStepKeepsVersions(s, s');
    if m :| NewMem(s, s', m) {
      NewMemInv(s, s', m);
    } else if m, n: nat :| ApplyUnref(s, s', m, n) {
      UnrefInv(s, s', m, n);
    } else if m :| SetFlushed(s, s', m) {
      UnrefInv(s, s', m, 1);
    } else if m :| ReaderRef(s, s', m) {
      ReaderRefInv(s, s', m);
    } else {
      var m :| ReaderUnref(s, s', m);
      UnrefInv(s, s', m, 1);
    }
  }

  lemma {:induction false} MemStepKeepsVersions(s: State, s': State)
    requires VersionsOk(s) && MemStep(s, s')
    ensures VersionsOk(s')
  {
    assert s'.versions == s.versions && s'.held == s.held;
    SameVersions(s, s');
  }

  lemma {:induction false} SameVersions(s: State, s': State)
    requires VersionsOk(s) && s'.versions == s.versions && s'.held == s.held
    ensures VersionsOk(s')
  {
    forall i | 0 <= i < |s'.versions|
      ensures VersionOk(s', i)
    {
      assert VersionOk(s, i);
    }
  }

  /** The list after an append: the old current version has lost a reference. */
  lemma {:induction false} AppendedNamed(s: State, s': State, tables: seq<set<MemId>>, m: MemId)
    requires Append(s, s', tables)
    ensures Named(s'.versions, m) == Named(s.versions, m) + Count(tables, m)
  {
    var n := |s.versions| - 1;
    var older := s.versions[n := UnRefVersion(s.versions[n])];
    NamedSame(s.versions, older, m);
    NamedAppend(older, s'.versions[n + 1], m);
    hide Named, Count;
  }

  lemma {:induction false} AppendInv(s: State, s': State, tables: seq<set<MemId>>)
    requires Inv(s) && Append(s, s', tables)
    ensures MemsOk(s')
  {
    var n := |s.versions| - 1;
    forall m | m in s'.mems
      ensures MemOk(s', m)
    {
      assert MemOk(s, m);
      AppendedNamed(s, s', tables, m);
      NamedAtLeast(s.versions, n, m);
    }
    forall m | Named(s'.versions, m) > 0 || s'.pending[m] > 0 || s'.readers[m] > 0
      ensures m in s'.mems
    {
      AppendedNamed(s, s', tables, m);
    }
    hide Named, Count;
  }

  lemma {:induction false} AppendKeepsVersions(s: State, s': State, tables: seq<set<MemId>>)
    requires VersionsOk(s) && Append(s, s', tables)
    ensures VersionsOk(s')
  {
    hide Named, Count;
    var n := |s.versions| - 1;
    forall i | 0 <= i < |s'.versions|
      ensures VersionOk(s', i)
    {
      assert i <= n ==> VersionOk(s, i);
      if i == n + 1 {
        assert s'.versions[i].id !in s.held;
      }
    }
    forall id | id in s'.held
      ensures exists i :: 0 <= i < |s'.versions| && s'.versions[i].id == id
    {
      var i :| 0 <= i < |s.versions| && s.versions[i].id == id;
      assert s'.versions[i].id == id;
    }
  }

  lemma {:induction false} ScanKeepsMems(s: State, s': State)
    requires MemsOk(s) && (ScanBegin(s, s') || exists i: nat :: ScanEnd(s, s', i))
    ensures MemsOk(s')
  {
    forall m
      ensures Named(s'.versions, m) == Named(s.versions, m)
    {
      NamedSame(s.versions, s'.versions, m);
    }
    hide Named, Count;
    assert forall m :: m in s.mems ==> MemOk(s, m) && MemOk(s', m);
  }

  lemma {:induction false} ScanBeginKeepsVersions(s: State, s': State)
    requires VersionsOk(s) && ScanBegin(s, s')
    ensures VersionsOk(s')
  {
    var n := |s.versions| - 1;
    forall i | 0 <= i < |s'.versions|
      ensures VersionOk(s', i)
    {
      assert VersionOk(s, i);
    }
    forall id | id in s'.held
      ensures exists i :: 0 <= i < |s'.versions| && s'.versions[i].id == id
    {
      if id == s.versions[n].id {
        assert s'.versions[n].id == id;
      } else {
        var i :| 0 <= i < |s.versions| && s.versions[i].id == id;
        assert s'.versions[i].id == id;
      }
    }
  }

  lemma {:induction false} ScanEndKeepsVersions(s: State, s': State, k: nat)
    requires VersionsOk(s) && ScanEnd(s, s', k)
    ensures VersionsOk(s')
  {
    forall i | 0 <= i < |s'.versions|
      ensures VersionOk(s', i)
    {
      assert VersionOk(s, i);
    }
    forall id | id in s'.held
      ensures exists i :: 0 <= i < |s'.versions| && s'.versions[i].id == id
    {
      var i :| 0 <= i < |s.versions| && s.versions[i].id == id;
      assert s'.versions[i].id == id;
    }
  }

  lemma {:induction false} DeleteKeepsMems(s: State, s': State, i: nat)
    requires MemsOk(s) && DeleteObsolete(s, s', i)
    ensures MemsOk(s')
  {
    forall m
      ensures Named(s'.versions, m) + s'.pending[m] == Named(s.versions, m) + s.pending[m]
    {
      NamedRemove(s.versions, i, m);
    }
    hide Named, Count;
    assert forall m :: m in s.mems ==> MemOk(s, m) && MemOk(s', m);
  }

  /** Position in the shorter list of the version at position j of the longer one. */
  function Shifted(j: nat, k: nat): nat {
    if j <= k then j else j - 1
  }

  lemma {:induction false} DeletedAt(s: State, s': State, k: nat)
    requires DeleteObsolete(s, s', k)
    ensures |s'.versions| == |s.versions| - 1 && s'.held == s.held
    ensures forall i :: 0 <= i < k ==> s'.versions[i] == s.versions[i]
    ensures forall i :: k <= i < |s'.versions| ==> s'.versions[i] == s.versions[i + 1]
  {
  }

  lemma {:induction false} DeleteKeepsHeld(s: State, s': State, k: nat, id: nat)
    requires VersionsOk(s) && DeleteObsolete(s, s', k) && id in s'.held
    ensures exists i :: 0 <= i < |s'.versions| && s'.versions[i].id == id
  {
    DeletedAt(s, s', k);
    assert VersionOk(s, k);
    hide DeleteObsolete;
    var j :| 0 <= j < |s.versions| && s.versions[j].id == id;
    assert j != k;
    assert s'.versions[Shifted(j, k)].id == id;
  }

  lemma {:induction false} DeleteKeepsVersions(s: State, s': State, k: nat)
    requires VersionsOk(s) && DeleteObsolete(s, s', k)
    ensures VersionsOk(s')
  {
    forall id | id in s'.held
      ensures exists i :: 0 <= i < |s'.versions| && s'.versions[i].id == id
    {
      DeleteKeepsHeld(s, s', k, id);
    }
    DeletedAt(s, s', k);
    assert VersionOk(s, k);
    hide DeleteObsolete;
    forall i | 0 <= i < |s'.versions|
      ensures VersionOk(s', i)
    {
      assert VersionOk(s, if i < k then i else i + 1);
    }
  }

  lemma {:induction false} NextInv(s: State, s': State)
    requires Inv(s) && Next(s, s')
    ensures Inv(s')
  {
    hide MemsOk, VersionsOk, MemStep, Append, ScanBegin, ScanEnd, DeleteObsolete;
    if MemStep(s, s') {
      MemStepInv(s, s');
    } else if tables :| Append(s, s', tables) {
      AppendInv(s, s', tables);
      AppendKeepsVersions(s, s', tables);
    } else if ScanBegin(s, s') {
      ScanKeepsMems(s, s');
      ScanBeginKeepsVersions(s, s');
    } else if i: nat :| ScanEnd(s, s', i) {
      ScanKeepsMems(s, s');
      ScanEndKeepsVersions(s, s', i);
    } else {
      var i: nat :| DeleteObsolete(s, s', i);
      DeleteKeepsMems(s, s', i);
      DeleteKeepsVersions(s, s', i);
    }
  }

  lemma {:induction false} InitInv(s: State)
    requires Init(s)
    ensures Inv(s)
  {
    forall m
      ensures Named(s.versions, m) == Count(s.versions[0].tables, m)
    {
      assert Named(s.versions[..0], m) == 0;
    }
    hide Named, Count;
  }

  ghost predicate Run(trace: seq<State>) {
    && |trace| > 0 && Init(trace[0])
    && forall i :: 0 <= i < |trace| - 1 ==> Next(trace[i], trace[i + 1])
  }

  lemma {:induction false} RunInv(trace: seq<State>, n: nat)
    requires Run(trace) && n < |trace|
    ensures Inv(trace[n])
  {
    hide Next, Init, Inv;
    if n == 0 {
      InitInv(trace[0]);
    } else {
      RunInv(trace, n - 1);
      NextInv(trace[n - 1], trace[n]);
    }
  }

  // ---------- what every run guarantees ----------

  /** The reference count of a memtable is exactly what the state accounts for. */
  lemma {:induction false} RefsAreExact(trace: seq<State>, n: nat, m: MemId)
    requires Run(trace) && n < |trace| && m in trace[n].mems
    ensures trace[n].mems[m].refs == Expected(trace[n], m)
    ensures !trace[n].mems[m].live <==> Expected(trace[n], m) == 0
  {
    RunInv(trace, n);
    assert MemOk(trace[n], m);
  }

  /** Every memtable named by a version that a scan holds is there. */
  lemma {:induction false} ScansSeeLiveMemtables(trace: seq<State>, n: nat, id: nat)
    requires Run(trace) && n < |trace| && id in trace[n].held
    ensures exists i :: 0 <= i < |trace[n].versions| && trace[n].versions[i].id == id && !trace[n].versions[i].deleted
    ensures forall i, r, m :: 0 <= i < |trace[n].versions| && trace[n].versions[i].id == id
              && 0 <= r < |trace[n].versions[i].tables| && m in trace[n].versions[i].tables[r]
              ==> m in trace[n].mems && trace[n].mems[m].live
  {
    RunInv(trace, n);
    hide Run;
    var s := trace[n];
    var i :| 0 <= i < |s.versions| && s.versions[i].id == id;
    assert VersionOk(s, i);
    forall i, r, m | 0 <= i < |s.versions| && s.versions[i].id == id
              && 0 <= r < |s.versions[i].tables| && m in s.versions[i].tables[r]
      ensures m in s.mems && s.mems[m].live
    {
      CountAtLeast(s.versions[i].tables, r, m);
      NamedAtLeast(s.versions, i, m);
      assert MemOk(s, m);
    }
  }

  /** The asserts of Unref hold: a memtable with a pending unref, a point read or an outstanding
      flush still exists and has at least that many references. */
  lemma {:induction false} UnrefsNeverFail(trace: seq<State>, n: nat, m: MemId)
    requires Run(trace) && n < |trace|
    ensures var s := trace[n];
      && (s.pending[m] > 0 ==> m in s.mems && s.mems[m].live && s.pending[m] <= s.mems[m].refs)
      && (s.readers[m] > 0 ==> m in s.mems && s.mems[m].live && s.readers[m] <= s.mems[m].refs)
      && (m in s.mems && !s.mems[m].flushed ==> s.mems[m].live && 1 <= s.mems[m].refs)
  {
    RunInv(trace, n);
    assert m in trace[n].mems ==> MemOk(trace[n], m);
  }

  /** The current version is never deleted, so a scan never fails to take a reference on it. */
  lemma {:induction false} CurrentIsNeverDeleted(trace: seq<State>, n: nat)
    requires Run(trace) && n < |trace|
    ensures trace[n].versions != [] && !trace[n].versions[|trace[n].versions| - 1].deleted
  {
    RunInv(trace, n);
    assert VersionOk(trace[n], |trace[n].versions| - 1);
  }
}
