/** The memtable record and the lookup index as the objects the store updates in place.

    Each method is one critical section.  Its contract says which step of the read path and of
    the reference-counting protocol it is, so that the theorems about all runs of those two
    protocols speak about these objects. */
module AtomicMemTables {
  import RangeIndex
  import ReadPath

  type FileNo = nat

  /** One memtable slot record.  `present` is false once the memtable has been freed; `table` then
      keeps what it held for the specification. */
  class AtomicMemTable {
    var refs: int
    var present: bool
    var immutable: bool
    var flushed: bool
    var l0: set<FileNo>
    var lastVersion: nat
    ghost var table: map<ReadPath.Installs.Key, ReadPath.Installs.SeqNo>

    ghost function AsRead(): ReadPath.Mem
      reads this
    {
      ReadPath.Mem(table, immutable, flushed, present, l0, lastVersion)
    }

    ghost function AsCounted(): RangeIndex.Mem
      reads this
    {
      RangeIndex.Mem(refs, flushed, present)
    }

    /** A new memtable, without references of its own, takes the record over. */
    constructor ()
      ensures AsRead() == ReadPath.Mem(map[], false, false, true, {}, 0)
      ensures AsCounted() == RangeIndex.Mem(1, false, true)
    {
      refs, present, immutable, flushed, l0, lastVersion, table := 1, true, false, false, {}, 0, map[];
    }

    /** The flush install of this memtable.  The record's own reference goes, and with it the
        memtable unless somebody else holds one. */
    method SetFlushed(fn: FileNo, version: nat)
      requires ReadPath.MayApply(AsRead(), ReadPath.SetFlushed(fn))
      modifies this
      ensures AsCounted() == RangeIndex.Unref(old(AsCounted()), 1).(flushed := true)
      ensures AsRead() == ReadPath.Apply(old(AsRead()), ReadPath.SetFlushed(fn), version).(live := present)
      ensures present <==> old(refs) != 1
    {
      if lastVersion < version {
        lastVersion := version;
      }
      l0 := l0 + {fn};
      flushed := true;
      refs := refs - 1;
      if refs == 0 {
        present := false;
      }
    }

    /** A compaction install: new files are inserted one by one before old ones are erased. */
    method UpdateL0Files(add: seq<FileNo>, remove: seq<FileNo>, version: nat)
      requires ReadPath.MayApply(AsRead(), ReadPath.UpdateL0(set f | f in add, set f | f in remove))
      modifies this`l0, this`lastVersion
      ensures AsRead()
        == ReadPath.Apply(old(AsRead()), ReadPath.UpdateL0(set f | f in add, set f | f in remove), version)
      ensures forall f :: f in l0 <==> (f in old(l0) || f in add) && f !in remove
    {
      if lastVersion < version {
        lastVersion := version;
      }
      for i := 0 to |add|
        invariant lastVersion == ReadPath.Max(old(lastVersion), version)
        invariant l0 == old(l0) + set f | f in add[..i]
      {
        l0 := l0 + {add[i]};
        assert add[..i + 1] == add[..i] + [add[i]];
      }
      assert add[..|add|] == add;
      for i := 0 to |remove|
        invariant lastVersion == ReadPath.Max(old(lastVersion), version)
        invariant l0 == (old(l0) + set f | f in add) - set f | f in remove[..i]
      {
        l0 := l0 - {remove[i]};
        assert remove[..i + 1] == remove[..i] + [remove[i]];
      }
      assert remove[..|remove|] == remove;
    }

    /** Pin the memtable if it still exists: the reader's step out of `Looked`. */
    method RefMemTable() returns (pinned: bool)
      modifies this`refs
      ensures pinned == present
      ensures AsCounted() == RangeIndex.Ref(old(AsCounted()), 1)
    {
      pinned := present;
      if pinned {
        refs := refs + 1;
      }
    }

    /** Give back references; the last one frees the memtable. */
    method Unref(count: nat)
      requires present && count <= refs
      modifies this`refs, this`present
      ensures AsCounted() == RangeIndex.Unref(old(AsCounted()), count)
      ensures refs >= 0 && (present <==> refs > 0)
    {
      refs := refs - count;
      if refs == 0 {
        present := false;
      }
    }
  }

  /** The lookup index: one memtable id per hash slot, 0 for none. */
  class LookupIndex {
    const locations: array<nat>

    constructor (size: nat)
      requires size > 0
      ensures fresh(locations) && locations.Length == size
      ensures forall c: ReadPath.Clients :: c.slots == size && c.index == map[] ==> Represents(c)
    {
      locations := new nat[size](_ => 0);
    }

    /** The index of the read path that the array stands for. */
    ghost predicate Represents(c: ReadPath.Clients)
      reads locations
    {
      && c.slots == locations.Length && c.slots > 0
      && forall h: nat :: h < c.slots ==> locations[h] == if h in c.index then c.index[h] else 0
    }

    method Lookup(hash: nat) returns (id: nat)
      requires locations.Length > 0
      ensures forall c :: Represents(c) ==> id == ReadPath.IndexAt(c, hash)
    {
      id := locations[hash % locations.Length];
    }

    method Insert(hash: nat, id: nat)
      requires locations.Length > 0
      modifies locations
      ensures forall c :: old(Represents(c)) ==> Represents(c.(index := c.index[hash % c.slots := id]))
    {
      locations[hash % locations.Length] := id;
    }

    method CAS(hash: nat, current: nat, id: nat)
      requires locations.Length > 0
      modifies locations
      ensures forall c :: old(Represents(c)) ==>
        Represents(if ReadPath.IndexAt(c, hash) == current then c.(index := c.index[hash % c.slots := id]) else c)
    {
      var slot := hash % locations.Length;
      if locations[slot] == current {
        locations[slot] := id;
      }
    }
  }
}
