/** How a new version of the range index is made from the current one, and how versions that no
    scan holds any more are unlisted. */
module RangeIndexManager {
  import opened Options
  import opened RangeIndex

  type FileNo = nat

  /** Half-open. */
  datatype Range = Range(lower: nat, upper: nat)

  datatype RangeTables = RangeTables(memtables: set<MemId>, l0: set<FileNo>)

  ghost predicate SortedRanges(ranges: seq<Range>) {
    && (forall i :: 0 <= i < |ranges| ==> ranges[i].lower < ranges[i].upper)
    && (forall i, j :: 0 <= i < j < |ranges| ==> ranges[i].upper <= ranges[j].lower)
  }

  predicate Contains(r: Range, key: nat) {
    r.lower <= key < r.upper
  }

  predicate Overlaps(r: Range, lower: nat, upper: nat) {
    r.lower < upper && lower < r.upper
  }

  method BinarySearch(ranges: seq<Range>, key: nat) returns (found: bool, id: int)
    requires SortedRanges(ranges)
    ensures found ==> 0 <= id < |ranges| && Contains(ranges[id], key)
    ensures !found ==> id == -1 && forall i :: 0 <= i < |ranges| ==> !Contains(ranges[i], key)
  {
    var l, r := 0, |ranges| - 1;
    while l <= r
      invariant 0 <= l <= r + 1 <= |ranges|
      invariant forall i :: 0 <= i < l ==> ranges[i].upper <= key
      invariant forall i :: r < i < |ranges| ==> key < ranges[i].lower
    {
      var m := l + (r - l) / 2;
      if key < ranges[m].lower {
        r := m - 1;
      } else if ranges[m].upper <= key {
        l := m + 1;
      } else {
        return true, m;
      }
    }
    return false, -1;
  }

  function WithMemtable(t: RangeTables, m: MemId): RangeTables {
    t.(memtables := t.memtables + {m})
  }

  /** Where a new memtable goes: everywhere, or to the ranges that overlap its subrange. */
  predicate Takes(r: Range, sr: Option<Range>) {
    sr.None? || Overlaps(r, sr.value.lower, sr.value.upper)
  }

  ghost predicate Placed(ranges: seq<Range>, sr: Option<Range>) {
    sr.Some? ==> exists i :: 0 <= i < |ranges| && Contains(ranges[i], sr.value.lower)
  }

  function WithNew(r: Range, t: RangeTables, sr: Option<Range>, m: MemId): RangeTables {
    if Takes(r, sr) then WithMemtable(t, m) else t
  }

  /** The assert that the subrange starts in some range may fail. */
  method AddNewMemtable(ranges: seq<Range>, tables: seq<RangeTables>, sr: Option<Range>, m: MemId)
    returns (ok: bool, tables': seq<RangeTables>)
    requires SortedRanges(ranges) && |tables| == |ranges| && (sr.Some? ==> sr.value.lower < sr.value.upper)
    ensures ok <==> Placed(ranges, sr)
    ensures ok ==> |tables'| == |tables|
    ensures ok ==> forall i :: 0 <= i < |tables| ==> tables'[i] == WithNew(ranges[i], tables[i], sr, m)
  {
    tables' := tables;
    if sr.None? {
      for i := 0 to |tables|
        invariant |tables'| == |tables|
        invariant forall k :: 0 <= k < i ==> tables'[k] == WithMemtable(tables[k], m)
        invariant forall k :: i <= k < |tables| ==> tables'[k] == tables[k]
      {
        tables' := tables'[i := WithMemtable(tables'[i], m)];
      }
      return true, tables';
    }
    var found, start := BinarySearch(ranges, sr.value.lower);
    if !found {
      return false, tables;
    }
    tables' := AddFrom(ranges, tables, start, sr.value.lower, sr.value.upper, m);
    ok := true;
  }

  /** From the range in which the subrange starts to the last one that begins before its end. */
  method AddFrom(ranges: seq<Range>, tables: seq<RangeTables>, first: nat, lower: nat, upper: nat, m: MemId)
    returns (tables': seq<RangeTables>)
    requires SortedRanges(ranges) && |tables| == |ranges| && lower < upper
    requires first < |ranges| && Contains(ranges[first], lower)
    ensures |tables'| == |tables|
    ensures forall i :: 0 <= i < |tables| ==>
      tables'[i] == if Overlaps(ranges[i], lower, upper) then WithMemtable(tables[i], m) else tables[i]
  {
    var start := first;
    tables' := tables;
    while true
      invariant first <= start < |ranges| && |tables'| == |tables|
      invariant forall i :: 0 <= i < first ==> tables'[i] == tables[i]
      invariant forall i :: first <= i < start ==> tables'[i] == WithMemtable(tables[i], m)
      invariant forall i :: start <= i < |tables| ==> tables'[i] == tables[i]
      invariant ranges[start].lower < upper
      decreases |ranges| - start
    {
      tables' := tables'[start := WithMemtable(tables'[start], m)];
      start := start + 1;
      if start == |ranges| || ranges[start].lower == upper || upper < ranges[start].lower {
        break;
      }
    }
  }

  // ---------- replacing tables ----------

  datatype Edit = Edit(removedL0: set<FileNo>, removedMemtables: set<MemId>, replaceMemtables: map<MemId, FileNo>,
                       replaceL0: map<FileNo, set<FileNo>>)

  /** Files that replace others are new. */
  ghost predicate FreshReplacements(e: Edit) {
    forall f, g :: f in e.replaceL0 && g in e.replaceL0[f] ==> g !in e.replaceL0
  }

  ghost function AfterMemtables(t: RangeTables, e: Edit): RangeTables {
    var left := t.memtables - e.removedMemtables;
    RangeTables(left - e.replaceMemtables.Keys,
                t.l0 - e.removedL0 + (set m | m in left && m in e.replaceMemtables :: e.replaceMemtables[m]))
  }

  ghost function Edited(t: RangeTables, e: Edit): RangeTables {
    var t' := AfterMemtables(t, e);
    t'.(l0 := t'.l0 - e.replaceL0.Keys + (set f, g | f in t'.l0 && f in e.replaceL0 && g in e.replaceL0[f] :: g))
  }

  /** The replacements are applied in no particular order. */
  method ReplaceMemtables(t: RangeTables, e: Edit) returns (t': RangeTables)
    ensures t' == AfterMemtables(t, e)
  {
    t' := RangeTables(t.memtables - e.removedMemtables, t.l0 - e.removedL0);
    ghost var left := t'.memtables;
    var todo := e.replaceMemtables.Keys;
    while todo != {}
      invariant todo <= e.replaceMemtables.Keys
      invariant t'.memtables == left - (e.replaceMemtables.Keys - todo)
      invariant forall f :: f in t'.l0 <==>
        || f in t.l0 - e.removedL0
        || exists m :: m in left && m in e.replaceMemtables && m !in todo && e.replaceMemtables[m] == f
    {
      var m :| m in todo;
      todo := todo - {m};
      if m in t'.memtables {
        t' := RangeTables(t'.memtables - {m}, t'.l0 + {e.replaceMemtables[m]});
      }
    }
  }

  method ReplaceL0(t: RangeTables, e: Edit) returns (t': RangeTables)
    ensures t'.memtables == t.memtables
    ensures FreshReplacements(e) ==>
      t'.l0 == t.l0 - e.replaceL0.Keys + (set f, g | f in t.l0 && f in e.replaceL0 && g in e.replaceL0[f] :: g)
  {
    t' := t;
    var todo := e.replaceL0.Keys;
    while todo != {}
      invariant todo <= e.replaceL0.Keys && t'.memtables == t.memtables
      invariant FreshReplacements(e) ==> forall g :: g in t'.l0 <==>
        || (g in t.l0 && (g !in e.replaceL0 || g in todo))
        || exists f :: f in t.l0 && f in e.replaceL0 && f !in todo && g in e.replaceL0[f]
    {
      var f :| f in todo;
      todo := todo - {f};
      if f in t'.l0 {
        t' := t'.(l0 := t'.l0 - {f} + e.replaceL0[f]);
      }
    }
  }

  method ApplyEdit(tables: seq<RangeTables>, e: Edit) returns (tables': seq<RangeTables>)
    ensures |tables'| == |tables|
    ensures forall i :: 0 <= i < |tables| ==> tables'[i].memtables == Edited(tables[i], e).memtables
    ensures FreshReplacements(e) ==> forall i :: 0 <= i < |tables| ==> tables'[i] == Edited(tables[i], e)
  {
    tables' := tables;
    for i := 0 to |tables|
      invariant |tables'| == |tables|
      invariant forall k :: 0 <= k < i ==> tables'[k].memtables == Edited(tables[k], e).memtables
      invariant FreshReplacements(e) ==> forall k :: 0 <= k < i ==> tables'[k] == Edited(tables[k], e)
      invariant forall k :: i <= k < |tables| ==> tables'[k] == tables[k]
    {
      var t := ReplaceMemtables(tables[i], e);
      t := ReplaceL0(t, e);
      tables' := tables'[i := t];
    }
  }

  /** A file is still listed, or all files that replace it are. */
  ghost predicate Represented(f: FileNo, t: RangeTables, e: Edit) {
    if f in e.replaceL0 then e.replaceL0[f] <= t.l0 else f in t.l0
  }

  /** Every table a range listed is still listed, removed on purpose, or has a successor that is
      listed; and nothing is listed that does not succeed a listed table. */
  lemma {:induction false} EditLeavesSuccessors(t: RangeTables, e: Edit)
    requires FreshReplacements(e)
    ensures var t' := Edited(t, e);
      && (forall m :: m in t.memtables && m !in e.removedMemtables ==>
            if m in e.replaceMemtables then Represented(e.replaceMemtables[m], t', e) else m in t'.memtables)
      && (forall f :: f in t.l0 && f !in e.removedL0 ==> Represented(f, t', e))
      && (forall m :: m in t'.memtables ==> m in t.memtables)
      && (forall f :: f in t'.l0 ==> Succeeds(f, t, e))
  {
    var left, t1, t' := t.memtables - e.removedMemtables, AfterMemtables(t, e), Edited(t, e);
    forall f | f in t1.l0
      ensures Represented(f, t', e)
    {
    }
    forall m | m in left && m in e.replaceMemtables
      ensures e.replaceMemtables[m] in t1.l0
    {
    }
  }

  ghost predicate Origin(f: FileNo, t: RangeTables, e: Edit) {
    f in t.l0 || exists m :: m in t.memtables && m in e.replaceMemtables && e.replaceMemtables[m] == f
  }

  ghost predicate Succeeds(f: FileNo, t: RangeTables, e: Edit) {
    Origin(f, t, e) || exists g :: Origin(g, t, e) && g in e.replaceL0 && f in e.replaceL0[g]
  }

  // ---------- the tables of a new version ----------

  datatype VersionEdit = VersionEdit(addNewMemtable: bool, sr: Option<Range>, newMemtable: MemId, changes: Edit)

  /** A new memtable alone changes nothing else. */
  predicate OnlyAdds(e: VersionEdit) {
    e.addNewMemtable && e.changes.removedMemtables == {}
  }

  ghost function NextTables(r: Range, t: RangeTables, e: VersionEdit): RangeTables {
    var t' := if e.addNewMemtable then WithNew(r, t, e.sr, e.newMemtable) else t;
    if OnlyAdds(e) then t' else Edited(t', e.changes)
  }

  ghost predicate Accepted(ranges: seq<Range>, e: VersionEdit) {
    e.addNewMemtable ==> Placed(ranges, e.sr)
  }

  method NewTables(ranges: seq<Range>, tables: seq<RangeTables>, e: VersionEdit)
    returns (ok: bool, tables': seq<RangeTables>)
    requires SortedRanges(ranges) && |tables| == |ranges| && (e.sr.Some? ==> e.sr.value.lower < e.sr.value.upper)
    ensures ok <==> Accepted(ranges, e)
    ensures ok ==> |tables'| == |tables|
    ensures ok ==> forall i :: 0 <= i < |tables| ==>
      tables'[i].memtables == NextTables(ranges[i], tables[i], e).memtables
    ensures ok && (OnlyAdds(e) || FreshReplacements(e.changes)) ==> forall i :: 0 <= i < |tables| ==>
      tables'[i] == NextTables(ranges[i], tables[i], e)
  {
    hide Edited, FreshReplacements, Placed;
    ok, tables' := true, tables;
    if e.addNewMemtable {
      ok, tables' := AddNewMemtable(ranges, tables, e.sr, e.newMemtable);
      if !ok {
        return;
      }
    }
    if !OnlyAdds(e) {
      tables' := ApplyEdit(tables', e.changes);
    }
  }

  function Memtables(tables: seq<RangeTables>): seq<set<MemId>> {
    seq(|tables|, i requires 0 <= i < |tables| => tables[i].memtables)
  }

  /** The memtables that the next version names. */
  ghost function NextNamed(ranges: seq<Range>, tables: seq<RangeTables>, e: VersionEdit): seq<set<MemId>>
    requires |tables| == |ranges|
  {
    seq(|tables|, i requires 0 <= i < |tables| => NextTables(ranges[i], tables[i], e).memtables)
  }

  /** What a range lists before anything is taken out: what it listed, and a new memtable whose
      subrange it overlaps. */
  ghost predicate Entered(r: Range, t: RangeTables, e: VersionEdit, m: MemId) {
    || m in t.memtables
    || (e.addNewMemtable && m == e.newMemtable
        && (e.sr == None || (r.lower < e.sr.value.upper && e.sr.value.lower < r.upper)))
  }

  /** The files before files are replaced: those it listed, and those that replace its memtables. */
  ghost predicate EnteredFile(r: Range, t: RangeTables, e: VersionEdit, f: FileNo) {
    || (f in t.l0 && f !in e.changes.removedL0)
    || exists m :: Entered(r, t, e, m) && m !in e.changes.removedMemtables
         && m in e.changes.replaceMemtables && e.changes.replaceMemtables[m] == f
  }

  lemma {:induction false} NextLists(r: Range, t: RangeTables, e: VersionEdit)
    ensures e.addNewMemtable && e.changes.removedMemtables == {} ==>
      NextTables(r, t, e).l0 == t.l0 && forall m :: m in NextTables(r, t, e).memtables <==> Entered(r, t, e, m)
    ensures !(e.addNewMemtable && e.changes.removedMemtables == {}) ==>
      && (forall m :: m in NextTables(r, t, e).memtables <==>
            Entered(r, t, e, m) && m !in e.changes.removedMemtables && m !in e.changes.replaceMemtables)
      && (forall f :: f in NextTables(r, t, e).l0 <==>
            exists g :: EnteredFile(r, t, e, g)
              && if g in e.changes.replaceL0 then f in e.changes.replaceL0[g] else f == g)
  {
    var t1 := if e.addNewMemtable then WithNew(r, t, e.sr, e.newMemtable) else t;
    var t2 := AfterMemtables(t1, e.changes);
    assert forall m :: m in t1.memtables <==> Entered(r, t, e, m);
    if !OnlyAdds(e) {
      assert forall g :: g in t2.l0 <==> EnteredFile(r, t, e, g);
    }
  }

  lemma {:induction false} AllNextLists(ranges: seq<Range>, tables: seq<RangeTables>, next: seq<RangeTables>,
                                        e: VersionEdit)
    requires |next| == |tables| == |ranges|
    requires forall i :: 0 <= i < |tables| ==> next[i].memtables == NextTables(ranges[i], tables[i], e).memtables
    requires OnlyAdds(e) || FreshReplacements(e.changes) ==>
      forall i :: 0 <= i < |tables| ==> next[i] == NextTables(ranges[i], tables[i], e)
    ensures e.addNewMemtable && e.changes.removedMemtables == {} ==>
      forall i :: 0 <= i < |ranges| ==>
        && next[i].l0 == tables[i].l0
        && forall m :: m in next[i].memtables <==> Entered(ranges[i], tables[i], e, m)
    ensures !(e.addNewMemtable && e.changes.removedMemtables == {}) ==>
      forall i :: 0 <= i < |ranges| ==>
        forall m :: m in next[i].memtables <==>
          && Entered(ranges[i], tables[i], e, m)
          && m !in e.changes.removedMemtables && m !in e.changes.replaceMemtables
    ensures !(e.addNewMemtable && e.changes.removedMemtables == {}) && FreshReplacements(e.changes) ==>
      forall i :: 0 <= i < |ranges| ==>
        forall f :: f in next[i].l0 <==>
          exists g :: EnteredFile(ranges[i], tables[i], e, g)
            && if g in e.changes.replaceL0 then f in e.changes.replaceL0[g] else f == g
  {
    hide NextTables, FreshReplacements, Entered, EnteredFile;
    forall i | 0 <= i < |ranges|
      ensures e.addNewMemtable && e.changes.removedMemtables == {} ==>
        next[i].l0 == tables[i].l0 && forall m :: m in next[i].memtables <==> Entered(ranges[i], tables[i], e, m)
      ensures !(e.addNewMemtable && e.changes.removedMemtables == {}) ==>
        forall m :: m in next[i].memtables <==>
          && Entered(ranges[i], tables[i], e, m)
          && m !in e.changes.removedMemtables && m !in e.changes.replaceMemtables
      ensures !(e.addNewMemtable && e.changes.removedMemtables == {}) && FreshReplacements(e.changes) ==>
        forall f :: f in next[i].l0 <==>
          exists g :: EnteredFile(ranges[i], tables[i], e, g)
            && if g in e.changes.replaceL0 then f in e.changes.replaceL0[g] else f == g
    {
      NextLists(ranges[i], tables[i], e);
    }
  }

  /** A new version names nothing that the current one does not name, except for a new memtable. */
  lemma {:induction false} NextNamesOld(ranges: seq<Range>, tables: seq<RangeTables>, e: VersionEdit, m: MemId)
    requires |tables| == |ranges| && Count(NextNamed(ranges, tables, e), m) > 0
    ensures Count(Memtables(tables), m) > 0 || (e.addNewMemtable && m == e.newMemtable)
  {
    var i := CountSome(NextNamed(ranges, tables, e), m);
    if !(e.addNewMemtable && m == e.newMemtable) {
      assert m in tables[i].memtables;
      CountAtLeast(Memtables(tables), i, m);
    }
  }

  // ---------- the list of versions ----------

  ghost function Listed(versions: seq<Version>): seq<Version> {
    if versions == [] then []
    else
      var v := versions[|versions| - 1];
      Listed(versions[..|versions| - 1]) + if v.deleted then [] else [v]
  }

  ghost function Deleted(versions: seq<Version>): seq<Version> {
    if versions == [] then []
    else
      var v := versions[|versions| - 1];
      Deleted(versions[..|versions| - 1]) + if v.deleted then [v] else []
  }

  /** Unlisting moves references from the list to the batch of unrefs and loses none. */
  lemma {:induction false} UnlistingKeepsNames(versions: seq<Version>, m: MemId)
    ensures Named(Listed(versions), m) + Named(Deleted(versions), m) == Named(versions, m)
  {
    if versions != [] {
      var init, v := versions[..|versions| - 1], versions[|versions| - 1];
      UnlistingKeepsNames(init, m);
      NamedAppend(Listed(init), v, m);
      NamedAppend(Deleted(init), v, m);
      assert Listed(init) + [] == Listed(init) && Deleted(init) + [] == Deleted(init);
    }
  }

  /** Every version that is not deleted stays, and no other. */
  lemma {:induction false} ListedIff(versions: seq<Version>, v: Version)
    ensures v in Listed(versions) <==> v in versions && !v.deleted
  {
    if versions != [] {
      ListedIff(versions[..|versions| - 1], v);
      assert versions == versions[..|versions| - 1] + [versions[|versions| - 1]];
    }
  }

  ghost function Names(tables: seq<set<MemId>>): multiset<MemId> {
    if tables == [] then multiset{} else Names(tables[..|tables| - 1]) + multiset(tables[|tables| - 1])
  }

  lemma {:induction false} NamesCount(tables: seq<set<MemId>>, m: MemId)
    ensures Names(tables)[m] == Count(tables, m)
  {
    if tables != [] {
      NamesCount(tables[..|tables| - 1], m);
    }
  }

  ghost predicate UnlistRun(trace: seq<State>) {
    |trace| > 0 && forall k, l :: 0 <= k && l == k + 1 < |trace| ==> UnlistsOne(trace[k], trace[l])
  }

  ghost predicate UnlistsOne(s: State, s': State) {
    exists i: nat :: DeleteObsolete(s, s', i)
  }

  /** The first n versions are looked at: one step of the protocol for each that is deleted. */
  lemma {:induction false} UnlistsFirst(s: State, n: nat) returns (trace: seq<State>)
    requires n <= |s.versions|
    ensures UnlistRun(trace) && trace[0] == s
    ensures var s' := trace[|trace| - 1];
      && s' == s.(versions := Listed(s.versions[..n]) + s.versions[n..], pending := s'.pending)
      && forall m :: s'.pending[m] == s.pending[m] + Named(Deleted(s.versions[..n]), m)
  {
    if n == 0 {
      trace := [s];
      assert s.versions[..0] == [] && [] + s.versions[0..] == s.versions;
    } else {
      hide Count;
      trace := UnlistsFirst(s, n - 1);
      var last, v := trace[|trace| - 1], s.versions[n - 1];
      var kept := Listed(s.versions[..n - 1]);
      assert s.versions[..n][..n - 1] == s.versions[..n - 1];
      assert s.versions[n - 1..] == [v] + s.versions[n..];
      if v.deleted {
        var next := UnlistNext(last, kept, v, s.versions[n..]);
        trace := Longer(trace, next);
        forall m
          ensures next.pending[m] == s.pending[m] + Named(Deleted(s.versions[..n]), m)
        {
          NamedAppend(Deleted(s.versions[..n - 1]), v, m);
        }
        assert kept + [] == kept;
      } else {
        assert Deleted(s.versions[..n - 1]) + [] == Deleted(s.versions[..n - 1]);
        assert kept + ([v] + s.versions[n..]) == (kept + [v]) + s.versions[n..];
      }
    }
  }

  lemma {:induction false} UnlistNext(s: State, kept: seq<Version>, v: Version, rest: seq<Version>) returns (s': State)
    requires v.deleted && s.versions == kept + ([v] + rest)
    ensures UnlistsOne(s, s') && s' == s.(versions := kept + rest, pending := s'.pending)
    ensures forall m :: s'.pending[m] == s.pending[m] + Count(v.tables, m)
  {
    var i := |kept|;
    s' := s.(versions := kept + rest, pending := s.pending + Names(v.tables));
    assert s.versions[..i] + s.versions[i + 1..] == kept + rest;
    forall m
      ensures s'.pending[m] == s.pending[m] + Count(v.tables, m)
    {
      NamesCount(v.tables, m);
    }
    assert DeleteObsolete(s, s', i);
  }

  lemma {:induction false} Longer(trace: seq<State>, s: State) returns (longer: seq<State>)
    requires UnlistRun(trace) && UnlistsOne(trace[|trace| - 1], s)
    ensures longer == trace + [s] && UnlistRun(longer)
  {
    hide UnlistsOne;
    longer := trace + [s];
    forall k, l | 0 <= k && l == k + 1 < |longer|
      ensures UnlistsOne(longer[k], longer[l])
    {
      if l < |trace| {
        assert longer[k] == trace[k] && longer[l] == trace[l];
      }
    }
  }

  /** Unlisting is a run of steps of the protocol of reference counts, one for each deleted version. */
  lemma {:induction false} UnlistingIsRun(s: State) returns (trace: seq<State>)
    ensures UnlistRun(trace) && trace[0] == s
    ensures var s' := trace[|trace| - 1];
      && s' == s.(versions := Listed(s.versions), pending := s'.pending)
      && forall m :: s'.pending[m] == s.pending[m] + Named(Deleted(s.versions), m)
  {
    hide Listed, Deleted;
    trace := UnlistsFirst(s, |s.versions|);
    assert s.versions[..|s.versions|] == s.versions && s.versions[|s.versions|..] == [];
    assert Listed(s.versions) + [] == Listed(s.versions);
  }

  function RefsOf(refs: map<MemId, nat>, m: MemId): nat {
    if m in refs then refs[m] else 0
  }

  method CountTables(refs: map<MemId, nat>, tables: seq<set<MemId>>) returns (refs': map<MemId, nat>)
    ensures forall m :: RefsOf(refs', m) == RefsOf(refs, m) + Count(tables, m)
  {
    refs' := refs;
    for i := 0 to |tables|
      invariant forall m :: RefsOf(refs', m) == RefsOf(refs, m) + Count(tables[..i], m)
    {
      ghost var before := refs';
      var todo := tables[i];
      while todo != {}
        invariant todo <= tables[i]
        invariant forall m :: RefsOf(refs', m) == RefsOf(before, m) + if m in tables[i] - todo then 1 else 0
      {
        var m :| m in todo;
        refs' := refs'[m := RefsOf(refs', m) + 1];
        todo := todo - {m};
      }
      assert tables[..i + 1][..i] == tables[..i];
    }
    assert tables[..|tables|] == tables;
  }

  ghost predicate AllKnown(mems: map<MemId, Mem>, tables: seq<set<MemId>>) {
    forall m :: Count(tables, m) > 0 ==> m in mems
  }

  ghost predicate TablesReffed(mems: map<MemId, Mem>, mems': map<MemId, Mem>, tables: seq<set<MemId>>) {
    mems'.Keys == mems.Keys && forall m :: m in mems ==> mems'[m] == Ref(mems[m], Count(tables, m))
  }

  /** Take a reference on every memtable, once for each range.  The assert that a memtable is known
      may fail. */
  method RefTables(mems: map<MemId, Mem>, tables: seq<set<MemId>>) returns (ok: bool, mems': map<MemId, Mem>)
    ensures ok <==> AllKnown(mems, tables)
    ensures ok ==> TablesReffed(mems, mems', tables)
  {
    mems' := mems;
    for i := 0 to |tables|
      invariant AllKnown(mems, tables[..i]) && TablesReffed(mems, mems', tables[..i])
    {
      ghost var before := mems';
      assert tables[..i + 1][..i] == tables[..i];
      var todo := tables[i];
      while todo != {}
        invariant todo <= tables[i] && tables[i] - todo <= mems.Keys
        invariant mems'.Keys == mems.Keys
        invariant forall m :: m in mems ==> mems'[m] == Ref(before[m], if m in tables[i] - todo then 1 else 0)
      {
        var m :| m in todo;
        if m !in mems {
          CountAtLeast(tables, i, m);
          return false, mems;
        }
        mems' := mems'[m := Ref(mems'[m], 1)];
        todo := todo - {m};
      }
    }
    assert tables[..|tables|] == tables;
    ok := true;
  }

  class Manager {
    /** The linked list, oldest first; the last one is current. */
    var versions: seq<Version>
    /** All versions have the same ranges; `tables` are those of the current version. */
    const ranges: seq<Range>
    var tables: seq<RangeTables>
    var mems: map<MemId, Mem>

    ghost predicate Valid()
      reads this
    {
      && SortedRanges(ranges) && |tables| == |ranges| && versions != []
      && versions[|versions| - 1].tables == Memtables(tables) && AllKnown(mems, Memtables(tables))
    }

    constructor (ranges: seq<Range>, tables: seq<RangeTables>, mems: map<MemId, Mem>)
      requires SortedRanges(ranges) && |tables| == |ranges| && AllKnown(mems, Memtables(tables))
      ensures Valid() && this.ranges == ranges && this.tables == tables
      ensures versions == [Version(0, Memtables(tables), 1, false)] && TablesReffed(mems, this.mems, Memtables(tables))
    {
      this.ranges, this.tables := ranges, tables;
      versions := [Version(0, Memtables(tables), 1, false)];
      var known, reffed := RefTables(mems, Memtables(tables));
      this.mems := reffed;
    }

    method TryRef(i: nat) returns (ok: bool)
      requires i < |versions|
      modifies this`versions
      ensures ok == !old(versions)[i].deleted
      ensures var v := old(versions)[i];
        versions == if ok then old(versions)[i := v.(refs := v.refs + 1)] else old(versions)
    {
      ok := !versions[i].deleted;
      if ok {
        versions := versions[i := versions[i].(refs := versions[i].refs + 1)];
      }
    }

    method UnRef(i: nat)
      requires i < |versions| && versions[i].refs >= 1
      modifies this`versions
      ensures versions == old(versions)[i := UnRefVersion(old(versions)[i])]
    {
      versions := versions[i := versions[i].(refs := versions[i].refs - 1)];
      if versions[i].refs == 0 {
        versions := versions[i := versions[i].(deleted := true)];
      }
    }

    /** One turn of the loop in current(), which gives the reference back when the LSM version of the
        index cannot be referenced. */
    method TryCurrent(lsmVersionLives: bool) returns (ok: bool, id: nat)
      requires versions != [] && (versions[|versions| - 1].refs >= 1 || versions[|versions| - 1].deleted)
      modifies this`versions
      ensures id == old(versions)[|old(versions)| - 1].id
      ensures ok == (lsmVersionLives && !old(versions)[|old(versions)| - 1].deleted)
      ensures var last := old(versions)[|old(versions)| - 1];
        versions == if ok then old(versions)[|old(versions)| - 1 := last.(refs := last.refs + 1)] else old(versions)
    {
      var n := |versions| - 1;
      id := versions[n].id;
      ok := TryRef(n);
      if ok && !lsmVersionLives {
        UnRef(n);
        ok := false;
      }
    }

    /** Make the tables of the new version, list it, drop a reference of the old one and reference
        the memtables.  If the new memtable has not been flushed this is a step of the protocol of
        reference counts, whatever the scans, the unrefs and the point reads. */
    method AppendNewVersion(e: VersionEdit) returns (ok: bool)
      requires Valid() && versions[|versions| - 1].refs >= 1
      requires e.sr.Some? ==> e.sr.value.lower < e.sr.value.upper
      modifies this
      ensures ok <==> Accepted(ranges, e) && AllKnown(old(mems), NextNamed(ranges, old(tables), e))
      ensures ok ==> Valid() && Memtables(tables) == NextNamed(ranges, old(tables), e)
      ensures ok && FreshReplacements(e.changes) ==> forall i :: 0 <= i < |tables| ==>
        tables[i] == NextTables(ranges[i], old(tables)[i], e)
      ensures ok && e.addNewMemtable && e.changes.removedMemtables == {} ==>
        forall i :: 0 <= i < |ranges| ==>
          && tables[i].l0 == old(tables)[i].l0
          && forall m :: m in tables[i].memtables <==> Entered(ranges[i], old(tables)[i], e, m)
      ensures ok && !(e.addNewMemtable && e.changes.removedMemtables == {}) ==>
        forall i :: 0 <= i < |ranges| ==>
          forall m :: m in tables[i].memtables <==>
            && Entered(ranges[i], old(tables)[i], e, m)
            && m !in e.changes.removedMemtables && m !in e.changes.replaceMemtables
      ensures ok && !(e.addNewMemtable && e.changes.removedMemtables == {}) && FreshReplacements(e.changes) ==>
        forall i :: 0 <= i < |ranges| ==>
          forall f :: f in tables[i].l0 <==>
            exists g :: EnteredFile(ranges[i], old(tables)[i], e, g)
              && if g in e.changes.replaceL0 then f in e.changes.replaceL0[g] else f == g
      ensures ok ==>
        var n := |old(versions)| - 1;
        var last := old(versions)[n];
        && versions == old(versions)[n := UnRefVersion(last)] + [Version(last.id + 1, Memtables(tables), 1, false)]
        && TablesReffed(old(mems), mems, Memtables(tables))
      ensures ok && (e.addNewMemtable ==> e.newMemtable in old(mems) && !old(mems)[e.newMemtable].flushed) ==>
        forall s: State :: s.mems == old(mems) && s.versions == old(versions) ==>
          Append(s, s.(mems := mems, versions := versions), Memtables(tables))
    {
      hide NextTables, FreshReplacements, Entered, EnteredFile;
      var next: seq<RangeTables>, reffed: map<MemId, Mem>;
      ok, next := NewTables(ranges, tables, e);
      if !ok {
        return;
      }
      assert Memtables(next) == NextNamed(ranges, tables, e);
      ok, reffed := RefTables(mems, Memtables(next));
      if !ok {
        return;
      }
      forall m | Count(Memtables(next), m) > 0
        ensures Count(Memtables(tables), m) > 0 || (e.addNewMemtable && m == e.newMemtable)
      {
        NextNamesOld(ranges, tables, e, m);
      }
      AllNextLists(ranges, tables, next, e);
      hide NextNamed, Memtables, RangeIndex.Count;
      var n := |versions| - 1;
      var id := versions[n].id + 1;
      UnRef(n);
      versions := versions + [Version(id, Memtables(next), 1, false)];
      tables, mems := next, reffed;
    }

    method DeleteObsoleteVersions() returns (unrefs: map<MemId, nat>)
      modifies this`versions
      ensures versions == Listed(old(versions)) && forall v :: v in versions <==> v in old(versions) && !v.deleted
      ensures forall m :: RefsOf(unrefs, m) == Named(Deleted(old(versions)), m)
    {
      forall v
        ensures v in Listed(versions) <==> v in versions && !v.deleted
      {
        ListedIff(versions, v);
      }
      unrefs := map[];
      var kept: seq<Version> := [];
      for i := 0 to |versions|
        invariant versions == old(versions) && kept == Listed(versions[..i])
        invariant forall m :: RefsOf(unrefs, m) == Named(Deleted(versions[..i]), m)
      {
        assert versions[..i + 1][..i] == versions[..i];
        if versions[i].deleted {
          forall m
            ensures Named(Deleted(versions[..i + 1]), m)
              == Named(Deleted(versions[..i]), m) + Count(versions[i].tables, m)
          {
            NamedAppend(Deleted(versions[..i]), versions[i], m);
          }
          unrefs := CountTables(unrefs, versions[i].tables);
        } else {
          assert Deleted(versions[..i]) + [] == Deleted(versions[..i]);
          kept := kept + [versions[i]];
        }
      }
      assert versions[..|versions|] == versions;
      versions := kept;
    }
  }
}
