/** The slots of a memtable partition under concurrent writers and flushes.

    A writer reserves room in the active memtable, gives up the partition mutex while its log
    record is replicated, and adds its entry afterwards.  A full memtable without reserved writes
    is moved to a free slot and scheduled for flushing; a flush install frees the slot.  Each step
    below is one critical section; the theorems hold for every interleaving. */
module Partition {
  import opened Options

  type MemId = nat
  type Slot = nat
  type ThreadId = nat

  datatype Mem = Mem(size: nat, pending: int, immutable: bool)

  /** `imms` maps an occupied slot to its memtable and `slotImm` is the partition's own copy. */
  datatype Part = Part(active: Option<MemId>, available: seq<Slot>, imms: map<Slot, MemId>, slotImm: map<Slot, MemId>,
                       mems: map<MemId, Mem>, next: MemId)

  /** How a pass through the writer's loop ends; `rotated` is the slot it filled, if any. */
  datatype Outcome = Reserved(mem: MemId, rotated: Option<Slot>) | Blocked(rotated: Option<Slot>)

  // ---------- one pass through the loop ----------

  function Reserve(p: Part, m: MemId, bytes: nat): Part
    requires m in p.mems
  {
    p.(mems := p.mems[m := p.mems[m].(pending := p.mems[m].pending + 1, size := p.mems[m].size + bytes)])
  }

  /** Make the full active memtable immutable and put it into the first free slot. */
  function Rotate(p: Part, m: MemId): Part
    requires m in p.mems && p.available != []
  {
    var slot := p.available[0];
    p.(active := None, available := p.available[1..], imms := p.imms[slot := m], slotImm := p.slotImm[slot := m],
       mems := p.mems[m := p.mems[m].(immutable := true)])
  }

  /** Continue without an active memtable: create one if a slot is left for it, otherwise wait. */
  function CreateOrWait(p: Part, rotated: Option<Slot>, bytes: nat): (Part, Outcome) {
    if p.available == [] then (p, Blocked(rotated))
    else
      var m := p.next;
      (Reserve(p.(active := Some(m), next := m + 1, mems := p.mems[m := Mem(0, 0, false)]), m, bytes),
        Reserved(m, rotated))
  }

  /** The assert that a full active memtable finds a free slot, and that the slot is empty. */
  predicate SlotAsserts(p: Part) {
    p.available != [] && p.available[0] !in p.imms
  }

  predicate Known(p: Part) {
    p.active.Some? ==> p.active.value in p.mems
  }

  predicate MustRotate(p: Part, buffer: nat)
    requires Known(p)
  {
    p.active.Some? && p.mems[p.active.value].size > buffer && p.mems[p.active.value].pending <= 0
  }

  function Pass(p: Part, bytes: nat, buffer: nat): (Part, Outcome)
    requires Known(p) && (MustRotate(p, buffer) ==> SlotAsserts(p))
  {
    if p.active.None? then CreateOrWait(p, None, bytes)
    else
      var m := p.active.value;
      if p.mems[m].size <= buffer then (Reserve(p, m, bytes), Reserved(m, None))
      else if p.mems[m].pending > 0 then (p, Blocked(None))
      else CreateOrWait(Rotate(p, m), Some(p.available[0]), bytes)
  }

  function Finish(p: Part, m: MemId): Part
    requires m in p.mems
  {
    p.(mems := p.mems[m := p.mems[m].(pending := p.mems[m].pending - 1)])
  }

  predicate ReleaseAsserts(p: Part, slots: set<Slot>, slot: Slot) {
    slot in p.imms && |p.available| + 1 <= |slots| && slot in p.slotImm
  }

  function Release(p: Part, slot: Slot): Part {
    p.(imms := p.imms - {slot}, slotImm := p.slotImm - {slot}, available := p.available + [slot])
  }

  // ---------- threads ----------

  datatype Pc =
    | Ready
    | Stalled(table: MemId)
    | Logging(mem: MemId, rotated: Option<Slot>)
    | Scheduling(slot: Slot)
    | Done

  /** `tasks` are the scheduled flushes: slot and memtable.  With `ordered` flushes a task may be
      refused; `refused` are the slots this happened to.  `written` is the history: the bytes of the
      writes that were given to each memtable, in order. */
  datatype State = State(p: Part, slots: set<Slot>, buffer: nat, writers: map<ThreadId, Pc>,
                         tasks: multiset<(Slot, MemId)>, ordered: bool, refused: set<Slot>,
                         written: map<MemId, seq<nat>>)

  function Written(s: State, m: MemId): seq<nat> {
    if m in s.written then s.written[m] else []
  }

  function Record(s: State, m: MemId, bytes: nat): map<MemId, seq<nat>> {
    s.written[m := Written(s, m) + [bytes]]
  }

  /** What scheduling a flush leads to. */
  ghost predicate Attempts(s: State, slot: Slot, m: MemId, s': State) {
    || (s'.tasks == s.tasks + multiset{(slot, m)} && s'.refused == s.refused)
    || (s.ordered && s'.tasks == s.tasks && s'.refused == s.refused + {slot})
  }

  /** Other partitions take memtable ids from the same counter. */
  ghost predicate TakeIds(s: State, s': State, next: MemId) {
    s.p.next <= next && s' == s.(p := s.p.(next := next))
  }

  ghost predicate Arrive(s: State, s': State, w: ThreadId) {
    w !in s.writers && s' == s.(writers := s.writers[w := Ready])
  }

  /** A writer that must not wait gives up. */
  ghost predicate Leave(s: State, s': State, w: ThreadId) {
    w in s.writers && s.writers[w] == Ready && s' == s.(writers := s.writers[w := Done])
  }

  /** Too many bytes at level 0: wait, remembering the table. */
  ghost predicate Stall(s: State, s': State, w: ThreadId) {
    && w in s.writers && s.writers[w] == Ready && s.p.active.Some?
    && s' == s.(writers := s.writers[w := Stalled(s.p.active.value)])
  }

  /** After a stall the writer goes on with the remembered table if it still has room. */
  ghost predicate Resume(s: State, s': State, w: ThreadId, bytes: nat) {
    && w in s.writers && s.writers[w].Stalled? && s.writers[w].table in s.p.mems
    && var m := s.writers[w].table;
       s' == if s.p.mems[m].size <= s.buffer
             then s.(p := Reserve(s.p, m, bytes), writers := s.writers[w := Logging(m, None)],
                     written := Record(s, m, bytes))
             else s.(writers := s.writers[w := Ready])
  }

  /** A blocked writer that has just filled the last slot schedules the flush before it waits. */
  ghost predicate Try(s: State, s': State, w: ThreadId, bytes: nat) {
    && w in s.writers && s.writers[w] == Ready && Known(s.p) && (MustRotate(s.p, s.buffer) ==> SlotAsserts(s.p))
    && var (p, o) := Pass(s.p, bytes, s.buffer);
       match o
       case Reserved(m, rotated) =>
         s' == s.(p := p, writers := s.writers[w := Logging(m, rotated)], written := Record(s, m, bytes))
       case Blocked(None) => s' == s.(p := p)
       case Blocked(Some(slot)) =>
         && slot in p.imms && Attempts(s, slot, p.imms[slot], s')
         && s' == s.(p := p, tasks := s'.tasks, refused := s'.refused)
  }

  /** The log record is replicated: add the entry. */
  ghost predicate FinishWrite(s: State, s': State, w: ThreadId) {
    && w in s.writers && s.writers[w].Logging? && s.writers[w].mem in s.p.mems
    && var pc := s.writers[w];
       s' == s.(p := Finish(s.p, pc.mem),
                writers := s.writers[w := if pc.rotated.Some? then Scheduling(pc.rotated.value) else Done])
  }

  /** Without the mutex: schedule the memtable found in the slot. */
  ghost predicate Schedule(s: State, s': State, w: ThreadId) {
    && w in s.writers && s.writers[w].Scheduling? && s.writers[w].slot in s.p.imms
    && Attempts(s, s.writers[w].slot, s.p.imms[s.writers[w].slot], s')
    && s' == s.(tasks := s'.tasks, refused := s'.refused, writers := s.writers[w := Done])
  }

  /** A refused flush is scheduled again. */
  ghost predicate Reschedule(s: State, s': State, slot: Slot) {
    && slot in s.refused && slot in s.p.imms
    && s' == s.(tasks := s.tasks + multiset{(slot, s.p.imms[slot])}, refused := s.refused - {slot})
  }

  ghost predicate FlushInstall(s: State, s': State, slot: Slot, m: MemId) {
    && (slot, m) in s.tasks && ReleaseAsserts(s.p, s.slots, slot)
    && s' == s.(p := Release(s.p, slot), tasks := s.tasks - multiset{(slot, m)})
  }

  ghost predicate Next(s: State, s': State) {
    || (exists next :: TakeIds(s, s', next))
    || (exists w :: Arrive(s, s', w))
    || (exists w :: Leave(s, s', w))
    || (exists w :: Stall(s, s', w))
    || (exists w, bytes: nat :: Resume(s, s', w, bytes))
    || (exists w, bytes: nat :: Try(s, s', w, bytes))
    || (exists w :: FinishWrite(s, s', w))
    || (exists w :: Schedule(s, s', w))
    || (exists slot :: Reschedule(s, s', slot))
    || (exists slot, m :: FlushInstall(s, s', slot, m))
  }

  ghost predicate Distinct(a: seq<Slot>) {
    forall i, j :: 0 <= i < j < |a| ==> a[i] != a[j]
  }

  ghost predicate Init(s: State) {
    && s.slots != {} && Distinct(s.p.available) && (forall x :: x in s.slots <==> x in s.p.available)
    && s.p.imms == map[] && s.p.slotImm == map[] && s.writers == map[] && s.tasks == multiset{} && s.refused == {}
    && s.p.active.Some? && s.p.mems == map[s.p.active.value := Mem(0, 0, false)] && 0 < s.p.active.value < s.p.next
    && s.written == map[]
  }

  // ---------- the invariant ----------

  /** Every slot is free once or holds one memtable, never both. */
  ghost predicate SlotsOk(p: Part, slots: set<Slot>) {
    && Distinct(p.available) && p.slotImm == p.imms
    && (forall x :: x in p.available ==> x in slots && x !in p.imms)
    && (forall x :: x in p.imms ==> x in slots)
    && (forall x :: x in slots ==> x in p.available || x in p.imms)
    && (p.active.Some? ==> p.available != [])
  }

  /** Only the active memtable is mutable; an immutable one is full and has no reserved write. */
  ghost predicate MemsOk(p: Part, buffer: nat) {
    && (forall m :: m in p.mems ==> m < p.next)
    && (p.active.Some? ==> p.active.value in p.mems)
    && (forall m :: m in p.mems ==> (!p.mems[m].immutable <==> p.active == Some(m)))
    && (forall m :: m in p.mems && p.mems[m].immutable ==> p.mems[m].size > buffer && p.mems[m].pending == 0)
    && (forall x :: x in p.imms ==> p.imms[x] in p.mems && p.mems[p.imms[x]].immutable)
    && (forall x, y :: x in p.imms && y in p.imms && p.imms[x] == p.imms[y] ==> x == y)
  }

  ghost function Loggers(writers: map<ThreadId, Pc>, m: MemId): set<ThreadId> {
    set w | w in writers && writers[w].Logging? && writers[w].mem == m
  }

  /** Reserved writes are exactly the writers that wait for their log record. */
  ghost predicate PendingOk(p: Part, writers: map<ThreadId, Pc>) {
    && (forall m :: m in p.mems ==> p.mems[m].pending == |Loggers(writers, m)|)
    && (forall w :: w in writers && writers[w].Logging? ==> writers[w].mem in p.mems)
    && (forall w :: w in writers && writers[w].Stalled? ==> writers[w].table in p.mems)
  }

  predicate WillSchedule(pc: Pc, slot: Slot) {
    pc == Scheduling(slot) || (pc.Logging? && pc.rotated == Some(slot))
  }

  ghost function Schedulers(writers: map<ThreadId, Pc>, slot: Slot): set<ThreadId> {
    set w | w in writers && WillSchedule(writers[w], slot)
  }

  /** Tasks and refusals. */
  ghost function TasksOf(s: State, slot: Slot): nat {
    (if slot in s.p.imms then s.tasks[(slot, s.p.imms[slot])] else 0) + if slot in s.refused then 1 else 0
  }

  /** An occupied slot is scheduled exactly once, now or later, or was refused; a free one not at all. */
  ghost predicate SchedulingOk(s: State) {
    && (!s.ordered ==> s.refused == {})
    && (forall x :: |Schedulers(s.writers, x)| + TasksOf(s, x) == if x in s.p.imms then 1 else 0)
    && (forall t :: t in s.tasks ==> t.0 in s.p.imms && s.p.imms[t.0] == t.1)
  }

  function Sum(a: seq<nat>): nat {
    if a == [] then 0 else Sum(a[..|a| - 1]) + a[|a| - 1]
  }

  /** The size of a memtable is what was written to it, and before its last write it was not full. */
  ghost predicate SizesOk(s: State) {
    && (forall m :: m in s.written ==> m in s.p.mems)
    && (forall m :: m in s.p.mems ==> SizeOk(s.p.mems[m].size, Written(s, m), s.buffer))
  }

  ghost predicate SizeOk(size: nat, written: seq<nat>, buffer: nat) {
    size == Sum(written) && (written != [] ==> Sum(written[..|written| - 1]) <= buffer)
  }

  ghost predicate Inv(s: State) {
    && SlotsOk(s.p, s.slots) && MemsOk(s.p, s.buffer) && PendingOk(s.p, s.writers) && SchedulingOk(s)
    && SizesOk(s)
  }

  // ---------- operations on the partition ----------

  lemma {:induction false} ReserveKeeps(p: Part, slots: set<Slot>, buffer: nat, m: MemId, bytes: nat)
    requires SlotsOk(p, slots) && MemsOk(p, buffer) && p.active == Some(m)
    ensures SlotsOk(Reserve(p, m, bytes), slots) && MemsOk(Reserve(p, m, bytes), buffer)
  {
  }

  lemma {:induction false} FinishKeeps(p: Part, slots: set<Slot>, buffer: nat, m: MemId)
    requires SlotsOk(p, slots) && MemsOk(p, buffer) && p.active == Some(m)
    ensures SlotsOk(Finish(p, m), slots) && MemsOk(Finish(p, m), buffer)
  {
  }

  lemma {:induction false} RotateKeepsSlots(p: Part, slots: set<Slot>, m: MemId)
    requires SlotsOk(p, slots) && p.active == Some(m) && m in p.mems
    ensures p.available[0] !in p.imms && SlotsOk(Rotate(p, m), slots)
  {
    var p' := Rotate(p, m);
    assert p.available == [p.available[0]] + p'.available;
    forall x | x in slots
      ensures x in p'.available || x in p'.imms
    {
    }
    forall x | x in p'.available
      ensures x !in p'.imms
    {
      var i :| 0 <= i < |p'.available| && p'.available[i] == x;
      assert p.available[i + 1] == x;
    }
  }

  lemma {:induction false} RotateKeepsMems(p: Part, slots: set<Slot>, buffer: nat, m: MemId)
    requires SlotsOk(p, slots) && MemsOk(p, buffer) && p.active == Some(m)
    requires p.mems[m].size > buffer && p.mems[m].pending == 0
    ensures MemsOk(Rotate(p, m), buffer)
  {
  }

  lemma {:induction false} CreateKeeps(p: Part, slots: set<Slot>, buffer: nat, bytes: nat, rotated: Option<Slot>)
    requires SlotsOk(p, slots) && MemsOk(p, buffer) && p.active.None?
    ensures var p' := CreateOrWait(p, rotated, bytes).0; SlotsOk(p', slots) && MemsOk(p', buffer)
  {
  }

  lemma {:induction false} ReleaseKeeps(p: Part, slots: set<Slot>, buffer: nat, slot: Slot)
    requires SlotsOk(p, slots) && MemsOk(p, buffer) && slot in p.imms
    ensures SlotsOk(Release(p, slot), slots) && MemsOk(Release(p, slot), buffer)
  {
    assert forall x :: x in Release(p, slot).available <==> x in p.available || x == slot;
  }

  lemma {:induction false} PassKeeps(p: Part, slots: set<Slot>, buffer: nat, bytes: nat)
    requires SlotsOk(p, slots) && MemsOk(p, buffer) && (MustRotate(p, buffer) ==> SlotAsserts(p))
    requires p.active.Some? ==> p.mems[p.active.value].pending >= 0
    ensures var p' := Pass(p, bytes, buffer).0; SlotsOk(p', slots) && MemsOk(p', buffer)
  {
    hide SlotsOk, Distinct, Rotate, Reserve, CreateOrWait;
    if p.active.None? {
      CreateKeeps(p, slots, buffer, bytes, None);
    } else {
      var m := p.active.value;
      if p.mems[m].size <= buffer {
        ReserveKeeps(p, slots, buffer, m, bytes);
      } else if p.mems[m].pending <= 0 {
        RotateKeepsSlots(p, slots, m);
        RotateKeepsMems(p, slots, buffer, m);
        RotateDeactivates(p, m);
        CreateKeeps(Rotate(p, m), slots, buffer, bytes, Some(p.available[0]));
      }
    }
  }

  lemma {:induction false} RotateDeactivates(p: Part, m: MemId)
    requires m in p.mems && p.available != []
    ensures Rotate(p, m).active.None?
  {
  }

  // ---------- who is writing ----------

  lemma {:induction false} LoggersUpdate(writers: map<ThreadId, Pc>, w: ThreadId, pc: Pc, m: MemId)
    ensures Loggers(writers[w := pc], m)
         == if pc.Logging? && pc.mem == m then Loggers(writers, m) + {w} else Loggers(writers, m) - {w}
  {
  }

  lemma {:induction false} SchedulersUpdate(writers: map<ThreadId, Pc>, w: ThreadId, pc: Pc, slot: Slot)
    ensures Schedulers(writers[w := pc], slot)
         == if WillSchedule(pc, slot) then Schedulers(writers, slot) + {w} else Schedulers(writers, slot) - {w}
  {
  }

  lemma {:induction false} OneMoreLogger(writers: map<ThreadId, Pc>, w: ThreadId, m: MemId, rotated: Option<Slot>,
                                         x: MemId)
    requires w in writers ==> !writers[w].Logging?
    ensures |Loggers(writers[w := Logging(m, rotated)], x)| == |Loggers(writers, x)| + if x == m then 1 else 0
  {
    LoggersUpdate(writers, w, Logging(m, rotated), x);
    assert w !in Loggers(writers, x);
    assert x != m ==> Loggers(writers, x) - {w} == Loggers(writers, x);
  }

  lemma {:induction false} NoLoggers(p: Part, writers: map<ThreadId, Pc>, m: MemId)
    requires PendingOk(p, writers) && m !in p.mems
    ensures |Loggers(writers, m)| == 0
  {
    assert Loggers(writers, m) == {};
  }

  /** A thread that does not write starts writing to m. */
  lemma {:induction false} StartsLogging(p: Part, p': Part, writers: map<ThreadId, Pc>, w: ThreadId, m: MemId,
                                         rotated: Option<Slot>)
    requires PendingOk(p, writers) && (w in writers ==> !writers[w].Logging?)
    requires m in p'.mems && p'.mems[m].pending == (if m in p.mems then p.mems[m].pending else 0) + 1
    requires p.mems.Keys <= p'.mems.Keys && p'.mems.Keys <= p.mems.Keys + {m}
    requires forall x :: x in p.mems && x != m ==> p'.mems[x].pending == p.mems[x].pending
    ensures PendingOk(p', writers[w := Logging(m, rotated)])
  {
    hide Loggers;
    if m !in p.mems {
      NoLoggers(p, writers, m);
    }
    forall x | x in p'.mems
      ensures p'.mems[x].pending == |Loggers(writers[w := Logging(m, rotated)], x)|
    {
      OneMoreLogger(writers, w, m, rotated, x);
    }
  }

  /** A thread changes without writing before or after. */
  lemma {:induction false} StaysQuiet(p: Part, writers: map<ThreadId, Pc>, w: ThreadId, pc: Pc)
    requires PendingOk(p, writers) && (w in writers ==> !writers[w].Logging?)
    requires !pc.Logging? && (pc.Stalled? ==> pc.table in p.mems)
    ensures PendingOk(p, writers[w := pc])
  {
    forall x | x in p.mems
      ensures p.mems[x].pending == |Loggers(writers[w := pc], x)|
    {
      LoggersUpdate(writers, w, pc, x);
      assert Loggers(writers, x) - {w} == Loggers(writers, x);
    }
  }

  lemma {:induction false} StopsLogging(p: Part, writers: map<ThreadId, Pc>, w: ThreadId, pc: Pc)
    requires PendingOk(p, writers) && w in writers && writers[w].Logging? && !pc.Logging? && !pc.Stalled?
    ensures PendingOk(Finish(p, writers[w].mem), writers[w := pc])
  {
    var p' := Finish(p, writers[w].mem);
    forall x | x in p'.mems
      ensures p'.mems[x].pending == |Loggers(writers[w := pc], x)|
    {
      LoggersUpdate(writers, w, pc, x);
      if x == writers[w].mem {
        assert w in Loggers(writers, x);
      } else {
        assert Loggers(writers, x) - {w} == Loggers(writers, x);
      }
    }
  }

  /** The memtable of a writer that waits for its log record is active, so it is not immutable. */
  lemma {:induction false} LoggedIsActive(p: Part, buffer: nat, writers: map<ThreadId, Pc>, w: ThreadId)
    requires MemsOk(p, buffer) && PendingOk(p, writers) && w in writers && writers[w].Logging?
    ensures p.active == Some(writers[w].mem)
  {
    assert w in Loggers(writers, writers[w].mem);
  }

  lemma {:induction false} SchedulersGain(writers: map<ThreadId, Pc>, w: ThreadId, pc: Pc, slot: Slot)
    requires w in writers ==> !WillSchedule(writers[w], slot)
    ensures |Schedulers(writers[w := pc], slot)|
         == |Schedulers(writers, slot)| + if WillSchedule(pc, slot) then 1 else 0
  {
    SchedulersUpdate(writers, w, pc, slot);
    assert w !in Schedulers(writers, slot);
    assert Schedulers(writers, slot) - {w} == Schedulers(writers, slot);
  }

  lemma {:induction false} SchedulersLose(writers: map<ThreadId, Pc>, w: ThreadId, pc: Pc, slot: Slot)
    requires w in writers && (forall x :: !WillSchedule(pc, x))
    ensures |Schedulers(writers[w := pc], slot)|
         == |Schedulers(writers, slot)| - if WillSchedule(writers[w], slot) then 1 else 0
  {
    SchedulersUpdate(writers, w, pc, slot);
    assert w in Schedulers(writers, slot) <==> WillSchedule(writers[w], slot);
    assert w !in Schedulers(writers, slot) ==> Schedulers(writers, slot) - {w} == Schedulers(writers, slot);
  }

  // ---------- what is written ----------

  lemma {:induction false} WriteFits(size: nat, written: seq<nat>, bytes: nat, buffer: nat)
    requires SizeOk(size, written, buffer) && size <= buffer
    ensures SizeOk(size + bytes, written + [bytes], buffer)
  {
    assert (written + [bytes])[..|written|] == written;
  }

  /** A write goes to m, which was not full or is new; the sizes of the others stay. */
  lemma {:induction false} WriteKeepsSizes(s: State, s': State, m: MemId, bytes: nat)
    requires SizesOk(s) && s'.buffer == s.buffer && s'.written == Record(s, m, bytes)
    requires forall x :: x in s'.p.mems <==> x in s.p.mems || x == m
    requires forall x :: x in s.p.mems && x != m ==> s'.p.mems[x].size == s.p.mems[x].size
    requires s'.p.mems[m].size == (if m in s.p.mems then s.p.mems[m].size else 0) + bytes
    requires m in s.p.mems ==> s.p.mems[m].size <= s.buffer
    ensures SizesOk(s')
  {
    hide SizeOk;
    EmptyFits(s.buffer);
    WriteFits(if m in s.p.mems then s.p.mems[m].size else 0, Written(s, m), bytes, s.buffer);
    forall x | x in s'.p.mems
      ensures SizeOk(s'.p.mems[x].size, Written(s', x), s'.buffer)
    {
      assert x != m ==> Written(s', x) == Written(s, x);
    }
  }

  lemma {:induction false} EmptyFits(buffer: nat)
    ensures SizeOk(0, [], buffer)
  {
  }

  lemma {:induction false} SameSizes(s: State, s': State)
    requires SizesOk(s) && s'.buffer == s.buffer && s'.written == s.written && s'.p.mems.Keys == s.p.mems.Keys
    requires forall x :: x in s.p.mems ==> s'.p.mems[x].size == s.p.mems[x].size
    ensures SizesOk(s')
  {
    hide SizeOk;
    assert forall x :: Written(s', x) == Written(s, x);
  }

  // ---------- who schedules ----------

  lemma {:induction false} SameSchedulers(s: State, s': State, w: ThreadId, pc: Pc)
    requires SchedulingOk(s) && s'.writers == s.writers[w := pc] && s'.tasks == s.tasks && s'.p.imms == s.p.imms
    requires s'.refused == s.refused && s'.ordered == s.ordered
    requires forall x :: WillSchedule(pc, x) <==> w in s.writers && WillSchedule(s.writers[w], x)
    ensures SchedulingOk(s')
  {
    forall x
      ensures Schedulers(s'.writers, x) == Schedulers(s.writers, x)
    {
    }
    assert forall x :: TasksOf(s', x) == TasksOf(s, x);
  }

  /** A writer fills a slot and will schedule it itself. */
  lemma {:induction false} FillsSlot(s: State, s': State, w: ThreadId, slot: Slot, m: MemId, mem: MemId)
    requires SchedulingOk(s) && w in s.writers && s.writers[w] == Ready && slot !in s.p.imms
    requires s'.writers == s.writers[w := Logging(mem, Some(slot))] && s'.tasks == s.tasks
      && s'.p.imms == s.p.imms[slot := m] && s'.refused == s.refused && s'.ordered == s.ordered
    ensures SchedulingOk(s')
  {
    hide Schedulers;
    assert (slot, m) !in s.tasks;
    forall x
      ensures |Schedulers(s'.writers, x)| + TasksOf(s', x) == if x in s'.p.imms then 1 else 0
    {
      SchedulersGain(s.writers, w, Logging(mem, Some(slot)), x);
      assert TasksOf(s', x) == TasksOf(s, x);
    }
  }

  /** A writer fills the last slot and schedules it at once. */
  lemma {:induction false} FillsAndSchedules(s: State, s': State, slot: Slot, m: MemId)
    requires SchedulingOk(s) && slot !in s.p.imms
    requires s'.writers == s.writers && s'.p.imms == s.p.imms[slot := m] && Attempts(s, slot, m, s')
    requires s'.ordered == s.ordered
    ensures SchedulingOk(s')
  {
    hide Schedulers;
    assert (slot, m) !in s.tasks && |Schedulers(s.writers, slot)| + TasksOf(s, slot) == 0;
    OneMoreTask(s, s', slot, m);
  }

  lemma {:induction false} OneMoreTask(s: State, s': State, slot: Slot, m: MemId)
    requires slot !in s.p.imms && slot !in s.refused && (slot, m) !in s.tasks
    requires s'.p.imms == s.p.imms[slot := m] && Attempts(s, slot, m, s')
    ensures forall x :: TasksOf(s', x) == TasksOf(s, x) + if x == slot then 1 else 0
  {
  }

  lemma {:induction false} RescheduleInv(s: State, s': State, slot: Slot)
    requires Inv(s) && Reschedule(s, s', slot)
    ensures Inv(s')
  {
    hide SlotsOk, MemsOk, PendingOk, SizesOk;
    SameSizes(s, s');
    forall x
      ensures |Schedulers(s'.writers, x)| + TasksOf(s', x) == if x in s'.p.imms then 1 else 0
    {
      assert TasksOf(s', x) == TasksOf(s, x);
    }
  }

  lemma {:induction false} ScheduleKeeps(s: State, s': State, w: ThreadId)
    requires SchedulingOk(s) && Schedule(s, s', w)
    ensures SchedulingOk(s')
  {
    var slot := s.writers[w].slot;
    hide Schedulers;
    forall x
      ensures |Schedulers(s'.writers, x)| + TasksOf(s', x) == if x in s'.p.imms then 1 else 0
    {
      SchedulersLose(s.writers, w, Done, x);
      assert x != slot ==> TasksOf(s', x) == TasksOf(s, x);
    }
  }

  lemma {:induction false} FlushKeeps(s: State, s': State, slot: Slot, m: MemId)
    requires SchedulingOk(s) && FlushInstall(s, s', slot, m)
    ensures SchedulingOk(s')
  {
    assert s.tasks[(slot, m)] == TasksOf(s, slot) == 1;
    forall x
      ensures |Schedulers(s'.writers, x)| + TasksOf(s', x) == if x in s'.p.imms then 1 else 0
    {
      assert x != slot ==> TasksOf(s', x) == TasksOf(s, x);
    }
    forall t | t in s'.tasks
      ensures t.0 in s'.p.imms && s'.p.imms[t.0] == t.1
    {
      assert t in s.tasks;
      assert t.0 != slot;
    }
  }

  // ---------- every step keeps the invariant ----------

  lemma {:induction false} QuietStepInv(s: State, s': State, w: ThreadId)
    requires Inv(s) && (Arrive(s, s', w) || Leave(s, s', w) || Stall(s, s', w))
    ensures Inv(s')
  {
    hide SlotsOk, SchedulingOk, PendingOk, SizesOk;
    SameSizes(s, s');
    StaysQuiet(s.p, s.writers, w, s'.writers[w]);
    SameSchedulers(s, s', w, s'.writers[w]);
  }

  lemma {:induction false} ResumeInv(s: State, s': State, w: ThreadId, bytes: nat)
    requires Inv(s) && Resume(s, s', w, bytes)
    ensures Inv(s')
  {
    hide SlotsOk, SchedulingOk, PendingOk, SizesOk;
    var m := s.writers[w].table;
    if s.p.mems[m].size <= s.buffer {
      WriteKeepsSizes(s, s', m, bytes);
      ReserveKeeps(s.p, s.slots, s.buffer, m, bytes);
      StartsLogging(s.p, s'.p, s.writers, w, m, None);
    } else {
      SameSizes(s, s');
      StaysQuiet(s.p, s.writers, w, Ready);
    }
    SameSchedulers(s, s', w, s'.writers[w]);
  }

  /** What a pass does to the slots and the memtable records. */
  lemma {:induction false} PassEffect(p: Part, slots: set<Slot>, buffer: nat, bytes: nat)
    requires SlotsOk(p, slots) && MemsOk(p, buffer) && (MustRotate(p, buffer) ==> SlotAsserts(p))
    ensures var (p', o) := Pass(p, bytes, buffer);
      && (match o.rotated
          case None => p'.imms == p.imms
          case Some(slot) => p.active.Some? && slot !in p.imms && p'.imms == p.imms[slot := p.active.value])
      && p.mems.Keys <= p'.mems.Keys
      && (o.Blocked? ==> p'.mems.Keys == p.mems.Keys && forall x :: x in p.mems ==>
          p'.mems[x].pending == p.mems[x].pending)
      && (o.Reserved? ==>
            && o.mem in p'.mems && p'.mems.Keys <= p.mems.Keys + {o.mem}
            && p'.mems[o.mem].pending == (if o.mem in p.mems then p.mems[o.mem].pending else 0) + 1
            && (forall x :: x in p.mems && x != o.mem ==> p'.mems[x].pending == p.mems[x].pending)
            && p'.mems[o.mem].size == (if o.mem in p.mems then p.mems[o.mem].size else 0) + bytes
            && (o.mem in p.mems ==> p.mems[o.mem].size <= buffer))
      && (forall x :: x in p.mems && o != Reserved(x, None) ==> p'.mems[x].size == p.mems[x].size)
  {
    if p.active.Some? && MustRotate(p, buffer) {
      RotateKeepsSlots(p, slots, p.active.value);
    }
    hide SlotsOk, Distinct;
  }

  lemma {:induction false} BlockedPending(p: Part, p': Part, writers: map<ThreadId, Pc>)
    requires PendingOk(p, writers) && p'.mems.Keys == p.mems.Keys
    requires forall x :: x in p.mems ==> p'.mems[x].pending == p.mems[x].pending
    ensures PendingOk(p', writers)
  {
  }

  lemma {:induction false} TryInv(s: State, s': State, w: ThreadId, bytes: nat)
    requires Inv(s) && Try(s, s', w, bytes)
    ensures Inv(s')
  {
    hide SlotsOk, SchedulingOk, Pass, MustRotate, SlotAsserts, SizesOk, PendingOk;
    PassKeeps(s.p, s.slots, s.buffer, bytes) by {
      PendingNotNegative(s.p, s.writers);
    }
    PassEffect(s.p, s.slots, s.buffer, bytes);
    if Pass(s.p, bytes, s.buffer).1.Reserved? {
      TryReserves(s, s', w, bytes);
    } else {
      TryBlocks(s, s', w, bytes);
    }
  }

  lemma {:induction false} PendingNotNegative(p: Part, writers: map<ThreadId, Pc>)
    requires PendingOk(p, writers)
    ensures forall m :: m in p.mems ==> p.mems[m].pending >= 0
  {
  }

  lemma {:induction false} TryReserves(s: State, s': State, w: ThreadId, bytes: nat)
    requires Inv(s) && Try(s, s', w, bytes) && Pass(s.p, bytes, s.buffer).1.Reserved?
    ensures PendingOk(s'.p, s'.writers) && SchedulingOk(s') && SizesOk(s')
  {
    hide SlotsOk, SchedulingOk, Pass, MustRotate, SlotAsserts, SizesOk, PendingOk;
    var (p, o) := Pass(s.p, bytes, s.buffer);
    PassEffect(s.p, s.slots, s.buffer, bytes);
    hide MemsOk;
    WriteKeepsSizes(s, s', o.mem, bytes);
    StartsLogging(s.p, p, s.writers, w, o.mem, o.rotated);
    if o.rotated.Some? {
      FillsSlot(s, s', w, o.rotated.value, s.p.active.value, o.mem);
    } else {
      SameSchedulers(s, s', w, Logging(o.mem, None));
    }
  }

  lemma {:induction false} TryBlocks(s: State, s': State, w: ThreadId, bytes: nat)
    requires Inv(s) && Try(s, s', w, bytes) && Pass(s.p, bytes, s.buffer).1.Blocked?
    ensures PendingOk(s'.p, s'.writers) && SchedulingOk(s') && SizesOk(s')
  {
    hide SlotsOk, SchedulingOk, Pass, MustRotate, SlotAsserts, SizesOk, PendingOk;
    var (p, o) := Pass(s.p, bytes, s.buffer);
    PassEffect(s.p, s.slots, s.buffer, bytes);
    hide MemsOk;
    SameSizes(s, s');
    BlockedPending(s.p, p, s.writers);
    if o.rotated.Some? {
      FillsAndSchedules(s, s', o.rotated.value, s.p.active.value);
    } else {
      assert s'.writers == s.writers[w := Ready];
      SameSchedulers(s, s', w, Ready);
    }
  }

  lemma {:induction false} FinishInv(s: State, s': State, w: ThreadId)
    requires Inv(s) && FinishWrite(s, s', w)
    ensures Inv(s')
  {
    hide SlotsOk, SchedulingOk, PendingOk, MemsOk, Loggers, SizesOk;
    SameSizes(s, s');
    LoggedIsActive(s.p, s.buffer, s.writers, w);
    FinishKeeps(s.p, s.slots, s.buffer, s.writers[w].mem);
    StopsLogging(s.p, s.writers, w, s'.writers[w]);
    SameSchedulers(s, s', w, s'.writers[w]);
  }

  lemma {:induction false} ScheduleInv(s: State, s': State, w: ThreadId)
    requires Inv(s) && Schedule(s, s', w)
    ensures Inv(s')
  {
    hide SlotsOk, SchedulingOk, PendingOk, MemsOk, SizesOk;
    SameSizes(s, s');
    ScheduleKeeps(s, s', w);
    StaysQuiet(s.p, s.writers, w, Done);
  }

  lemma {:induction false} FlushInv(s: State, s': State, slot: Slot, m: MemId)
    requires Inv(s) && FlushInstall(s, s', slot, m)
    ensures Inv(s')
  {
    hide SlotsOk, SchedulingOk, PendingOk, MemsOk, SizesOk;
    SameSizes(s, s');
    ReleaseKeeps(s.p, s.slots, s.buffer, slot);
    FlushKeeps(s, s', slot, m);
    BlockedPending(s.p, s'.p, s.writers);
  }

  lemma {:induction false} TakeIdsInv(s: State, s': State, next: MemId)
    requires Inv(s) && TakeIds(s, s', next)
    ensures Inv(s')
  {
    assert forall x :: TasksOf(s', x) == TasksOf(s, x);
    SameSizes(s, s');
  }

  lemma {:induction false} NextInv(s: State, s': State)
    requires Inv(s) && Next(s, s')
    ensures Inv(s')
  {
    hide Inv, TakeIds, Arrive, Leave, Stall, Resume, Try, FinishWrite, Schedule, Reschedule, FlushInstall;
    if w :| Arrive(s, s', w) || Leave(s, s', w) || Stall(s, s', w) {
      QuietStepInv(s, s', w);
    } else if next :| TakeIds(s, s', next) {
      TakeIdsInv(s, s', next);
    } else if w, bytes: nat :| Resume(s, s', w, bytes) {
      ResumeInv(s, s', w, bytes);
    } else if w, bytes: nat :| Try(s, s', w, bytes) {
      TryInv(s, s', w, bytes);
    } else if w :| FinishWrite(s, s', w) {
      FinishInv(s, s', w);
    } else if w :| Schedule(s, s', w) {
      ScheduleInv(s, s', w);
    } else if slot :| Reschedule(s, s', slot) {
      RescheduleInv(s, s', slot);
    } else {
      var slot, m :| FlushInstall(s, s', slot, m);
      FlushInv(s, s', slot, m);
    }
  }

  lemma {:induction false} InitInv(s: State)
    requires Init(s)
    ensures Inv(s)
  {
    var x :| x in s.slots;
    assert forall m :: Loggers(s.writers, m) == {};
    assert forall slot :: Schedulers(s.writers, slot) == {};
  }

  ghost predicate Run(trace: seq<State>) {
    && |trace| > 0 && Init(trace[0])
    && forall i :: 0 <= i < |trace| - 1 ==> Next(trace[i], trace[i + 1])
  }

  lemma {:induction false} RunInv(trace: seq<State>, n: nat)
    requires Run(trace) && n < |trace|
    ensures Inv(trace[n])
  {
    hide Next, Init, Inv;
    if n == 0 {
      InitInv(trace[0]);
    } else {
      RunInv(trace, n - 1);
      NextInv(trace[n - 1], trace[n]);
    }
  }

  // ---------- what every run guarantees ----------

  /** A full active memtable always finds a free, empty slot. */
  lemma {:induction false} SlotAssertsHold(trace: seq<State>, n: nat)
    requires Run(trace) && n < |trace|
    ensures Known(trace[n].p) && (trace[n].p.active.Some? ==> SlotAsserts(trace[n].p))
  {
    RunInv(trace, n);
    hide Run;
  }

  /** No memtable becomes immutable while a reserved write has not been added to it. */
  lemma {:induction false} WritesGoToTheActiveMemtable(trace: seq<State>, n: nat, w: ThreadId)
    requires Run(trace) && n < |trace| && w in trace[n].writers && trace[n].writers[w].Logging?
    ensures var p, m := trace[n].p, trace[n].writers[w].mem;
      p.active == Some(m) && m in p.mems && !p.mems[m].immutable
  {
    RunInv(trace, n);
    hide Run;
    LoggedIsActive(trace[n].p, trace[n].buffer, trace[n].writers, w);
  }

  /** A memtable holds exactly what was written to it.  Without its last write it was not full, and if
      it is immutable it is full: it is made immutable by the first write that goes past the buffer. */
  lemma {:induction false} MemtablesFillUp(trace: seq<State>, n: nat, m: MemId)
    requires Run(trace) && n < |trace| && m in trace[n].p.mems
    ensures var mem, written := trace[n].p.mems[m], Written(trace[n], m);
      && mem.size == Sum(written) && (written != [] ==> Sum(written[..|written| - 1]) <= trace[n].buffer)
      && (mem.immutable ==> Sum(written) > trace[n].buffer && written != [])
  {
    RunInv(trace, n);
    hide Run;
  }

  lemma {:induction false} DistinctFits(a: seq<Slot>, slots: set<Slot>)
    requires Distinct(a) && forall x :: x in a ==> x in slots
    ensures |a| <= |slots|
  {
    if a != [] {
      var init, last := a[..|a| - 1], a[|a| - 1];
      forall x | x in init
        ensures x in slots - {last}
      {
        var i :| 0 <= i < |init| && init[i] == x;
        assert a[i] == x;
      }
      DistinctFits(init, slots - {last});
    }
  }

  /** The asserts of a flush install hold for every scheduled task, and the slot still holds the
      memtable that was flushed. */
  lemma {:induction false} ReleaseAssertsHold(trace: seq<State>, n: nat, slot: Slot, m: MemId)
    requires Run(trace) && n < |trace| && (slot, m) in trace[n].tasks
    ensures ReleaseAsserts(trace[n].p, trace[n].slots, slot) && trace[n].p.imms[slot] == m
  {
    RunInv(trace, n);
    hide Run;
    var s := trace[n];
    DistinctFits(s.p.available, s.slots - {slot});
  }

  /** An occupied slot is scheduled for flushing exactly once, unless that was refused, which happens
      with ordered flushes only; and whoever will schedule it, after giving up the mutex, still finds
      its memtable there. */
  lemma {:induction false} ScheduledExactlyOnce(trace: seq<State>, n: nat, slot: Slot)
    requires Run(trace) && n < |trace|
    ensures var s := trace[n];
      && (slot in s.p.imms ==>
            |Schedulers(s.writers, slot)| + s.tasks[(slot, s.p.imms[slot])] == if slot in s.refused then 0 else 1)
      && (slot in s.refused ==> s.ordered && slot in s.p.imms)
      && (forall w :: w in s.writers && s.writers[w] == Scheduling(slot) ==>
            slot in s.p.imms && s.p.mems.Keys >= {s.p.imms[slot]} && s.p.mems[s.p.imms[slot]].immutable)
  {
    RunInv(trace, n);
    hide Run;
    var s := trace[n];
    assert TasksOf(s, slot) >= 0;
    forall w | w in s.writers && s.writers[w] == Scheduling(slot)
      ensures slot in s.p.imms
    {
      assert w in Schedulers(s.writers, slot);
    }
  }

  // ---------- the code ----------

  class MemTablePartition {
    const buffer: nat
    var active: Option<MemId>
    var available: seq<Slot>
    var imms: map<Slot, MemId>
    var slotImm: map<Slot, MemId>
    var mems: map<MemId, Mem>
    var next: MemId

    ghost function Value(): Part
      reads this
    {
      Part(active, available, imms, slotImm, mems, next)
    }

    constructor (buffer: nat, slots: seq<Slot>, m: MemId)
      ensures this.buffer == buffer
      ensures Value() == Part(Some(m), slots, map[], map[], map[m := Mem(0, 0, false)], m + 1)
    {
      this.buffer := buffer;
      active, available, imms, slotImm, mems, next := Some(m), slots, map[], map[], map[m := Mem(0, 0, false)], m + 1;
    }

    /** One pass through the loop of a writer, from taking the mutex to giving it up. */
    method TryWrite(bytes: nat) returns (o: Outcome)
      requires Known(Value()) && (MustRotate(Value(), buffer) ==> SlotAsserts(Value()))
      modifies this
      ensures (Value(), o) == Pass(old(Value()), bytes, buffer)
      ensures old(active).Some? && old(mems)[old(active).value].size <= buffer ==>
        var m := old(active).value;
        var mem := old(mems)[m];
        && o == Reserved(m, None)
        && Value() == old(Value()).(mems := old(mems)[m := Mem(mem.size + bytes, mem.pending + 1, mem.immutable)])
      ensures old(active).Some? && old(mems)[old(active).value].size > buffer ==>
        var m := old(active).value;
        var mem := old(mems)[m];
        if mem.pending > 0 then o == Blocked(None) && Value() == old(Value())
        else
          var slot := old(available)[0];
          && o.rotated == Some(slot) && imms == old(imms)[slot := m] && slotImm == old(slotImm)[slot := m]
          && available == old(available)[1..]
          && (available == [] ==> o.Blocked? && active == None && mems == old(mems)[m := mem.(immutable := true)])
          && (available != [] ==>
                && o.Reserved? && o.mem == old(next) && active == Some(old(next))
                && mems == old(mems)[m := mem.(immutable := true)][old(next) := Mem(bytes, 1, false)])
      ensures old(active).None? && available == [] ==> o == Blocked(None) && Value() == old(Value())
      ensures old(active).None? && available != [] ==>
        && o == Reserved(old(next), None)
        && Value() == old(Value()).(active := Some(old(next)), next := old(next) + 1,
                                    mems := old(mems)[old(next) := Mem(bytes, 1, false)])
    {
      var rotated: Option<Slot> := None;
      if active.Some? {
        var m := active.value;
        if mems[m].size <= buffer {
          ReserveIn(m, bytes);
          return Reserved(m, None);
        }
        if mems[m].pending > 0 {
          return Blocked(None);
        }
        var slot := available[0];
        available := available[1..];
        imms := imms[slot := m];
        slotImm := slotImm[slot := m];
        mems := mems[m := mems[m].(immutable := true)];
        active := None;
        rotated := Some(slot);
      }
      if available == [] {
        return Blocked(rotated);
      }
      var m := next;
      next := m + 1;
      mems := mems[m := Mem(0, 0, false)];
      active := Some(m);
      ReserveIn(m, bytes);
      return Reserved(m, rotated);
    }

    method ReserveIn(m: MemId, bytes: nat)
      requires m in mems
      modifies this`mems
      ensures Value() == Reserve(old(Value()), m, bytes)
    {
      mems := mems[m := mems[m].(pending := mems[m].pending + 1)];
      mems := mems[m := mems[m].(size := mems[m].size + bytes)];
    }

    method FinishIn(m: MemId)
      requires m in mems
      modifies this`mems
      ensures Value() == Finish(old(Value()), m)
    {
      mems := mems[m := mems[m].(pending := mems[m].pending - 1)];
    }

    method ReleaseSlots(flushed: seq<Slot>)
      modifies this`imms, this`available, this`slotImm
      ensures Value() == ReleaseAll(old(Value()), flushed)
      ensures available == old(available) + flushed
      ensures imms == old(imms) - (set x | x in flushed) && slotImm == old(slotImm) - (set x | x in flushed)
    {
      assert flushed[..0] == [];
      for i := 0 to |flushed|
        invariant Value() == ReleaseAll(old(Value()), flushed[..i]) && available == old(available) + flushed[..i]
        invariant imms == old(imms) - (set x | x in flushed[..i])
        invariant slotImm == old(slotImm) - (set x | x in flushed[..i])
      {
        var slot := flushed[i];
        imms := imms - {slot};
        available := available + [slot];
        slotImm := slotImm - {slot};
        assert flushed[..i + 1][..i] == flushed[..i];
      }
      assert flushed[..|flushed|] == flushed;
    }
  }

  /** A flush install frees the slots of all memtables it has flushed. */
  function ReleaseAll(p: Part, flushed: seq<Slot>): Part {
    if flushed == [] then p else Release(ReleaseAll(p, flushed[..|flushed| - 1]), flushed[|flushed| - 1])
  }
}
