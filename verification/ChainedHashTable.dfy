/** The chained hash table: fixed-size buckets whose last entry may point to an indirect bucket.
    Entries are matched by hash alone. */
module ChainedHashTable {
  import opened Options

  datatype Entry = Empty | Indirect(bucket: nat) | Data(hash: nat, time: nat, value: nat)

  /** `width` entries per bucket, `main` main buckets; `used` indirect buckets have been handed out. */
  datatype Table = Table(buckets: seq<seq<Entry>>, width: nat, main: nat, used: nat)

  /** The buckets reachable from every main bucket, in order. */
  type Chains = seq<seq<nat>>

  ghost predicate Shape(t: Table) {
    && t.width >= 2 && 0 < t.main && t.main + t.used <= |t.buckets|
    && forall i :: 0 <= i < |t.buckets| ==> |t.buckets[i]| == t.width
  }

  function At(t: Table, id: nat, i: nat): Entry
    requires id < |t.buckets| && i < |t.buckets[id]|
  {
    t.buckets[id][i]
  }

  ghost predicate Member(t: Table, chains: Chains, b: nat, id: nat) {
    b < |chains| && id in chains[b] && id < |t.buckets|
  }

  /** Only the last entry of a bucket points on, and the chain follows these pointers. */
  ghost predicate ChainLinked(t: Table, chain: seq<nat>)
    requires Shape(t)
  {
    && chain != [] && (forall j :: 0 <= j < |chain| ==> chain[j] < |t.buckets|)
    && (forall j :: 0 <= j < |chain| - 1 ==> At(t, chain[j], t.width - 1) == Indirect(chain[j + 1]))
    && At(t, chain[|chain| - 1], t.width - 1) == Empty
  }

  /** Chains start at their main bucket, and no bucket is in two places. */
  ghost predicate ChainsOk(t: Table, chains: Chains)
    requires Shape(t)
  {
    && |chains| == t.main
    && (forall b :: 0 <= b < t.main ==> ChainLinked(t, chains[b]) && chains[b][0] == b)
    && (forall b, j :: 0 <= b < t.main && 1 <= j < |chains[b]| ==> t.main <= chains[b][j] < t.main + t.used)
    && Disjoint(chains)
  }

  ghost predicate Disjoint(chains: Chains) {
    forall b, j, b', j' ::
      (0 <= b < |chains| && 0 <= j < |chains[b]| && 0 <= b' < |chains| && 0 <= j' < |chains[b']|
        && chains[b][j] == chains[b'][j'])
      ==> b == b' && j == j'
  }

  ghost predicate SlotsOk(t: Table)
    requires Shape(t)
  {
    && (forall id, i :: 0 <= id < |t.buckets| && 0 <= i < t.width - 1 ==> !At(t, id, i).Indirect?)
    && (forall id, i :: t.main + t.used <= id < |t.buckets| && 0 <= i < t.width ==> At(t, id, i) == Empty)
  }

  ghost predicate HoldsAt(t: Table, chains: Chains, b: nat, e: Entry, id: nat, i: nat)
    requires Shape(t)
  {
    Member(t, chains, b, id) && i < t.width - 1 && At(t, id, i) == e && e.Data?
  }

  /** The chain of main bucket b holds an entry. */
  ghost predicate Holds(t: Table, chains: Chains, b: nat, e: Entry)
    requires Shape(t)
  {
    exists id, i :: HoldsAt(t, chains, b, e, id, i)
  }

  /** A hash occurs at most once in a chain. */
  ghost predicate Unique(t: Table, chains: Chains)
    requires Shape(t)
  {
    forall b, x, id, i, y, id', i' ::
      HoldsAt(t, chains, b, x, id, i) && HoldsAt(t, chains, b, y, id', i') && x.hash == y.hash ==>
      id == id' && i == i'
  }

  ghost predicate TableOk(t: Table, chains: Chains) {
    Shape(t) && ChainsOk(t, chains) && SlotsOk(t) && Unique(t, chains)
  }

  // ---------- writing an entry ----------

  function SetSlot(t: Table, id: nat, i: nat, e: Entry): Table
    requires id < |t.buckets| && i < |t.buckets[id]|
  {
    t.(buckets := t.buckets[id := t.buckets[id][i := e]])
  }

  lemma {:induction false} SetSlotAt(t: Table, id: nat, i: nat, e: Entry)
    requires Shape(t) && id < |t.buckets| && i < t.width
    ensures var t' := SetSlot(t, id, i, e);
      Shape(t') && forall x, k :: 0 <= x < |t.buckets| && 0 <= k < t.width ==>
        At(t', x, k) == if x == id && k == i then e else At(t, x, k)
  {
  }

  /** Data slots can be written without touching the chains. */
  lemma {:induction false} SetSlotKeepsChains(t: Table, chains: Chains, id: nat, i: nat, e: Entry)
    requires Shape(t) && ChainsOk(t, chains) && SlotsOk(t) && id < t.main + t.used && i < t.width - 1 && !e.Indirect?
    ensures var t' := SetSlot(t, id, i, e); Shape(t') && ChainsOk(t', chains) && SlotsOk(t')
  {
    SetSlotAt(t, id, i, e);
    var t' := SetSlot(t, id, i, e);
    hide At, SetSlot;
    forall b | 0 <= b < t.main
      ensures ChainLinked(t', chains[b])
    {
      assert ChainLinked(t, chains[b]);
    }
  }

  /** What the chains hold afterwards: the new entry instead of what was in the slot. */
  lemma {:induction false} SetSlotHolds(t: Table, chains: Chains, b: nat, id: nat, i: nat, e: Entry, c: nat, x: Entry)
    requires Shape(t) && ChainsOk(t, chains) && Unique(t, chains) && b < t.main && id in chains[b] && id < |t.buckets|
    requires i < t.width - 1 && !e.Indirect? && c < t.main
    ensures var t' := SetSlot(t, id, i, e);
      && Shape(t')
      && (Holds(t', chains, c, x) <==>
            (c == b && x == e && e.Data?) || (Holds(t, chains, c, x) && (c != b || x != At(t, id, i))))
  {
    SetSlotAt(t, id, i, e);
    var t', old' := SetSlot(t, id, i, e), At(t, id, i);
    hide At, SetSlot;
    if c == b && x == e && e.Data? {
      assert HoldsAt(t', chains, c, x, id, i);
    }
    if Holds(t, chains, c, x) && (c != b || x != old') {
      var y, k :| HoldsAt(t, chains, c, x, y, k);
      OneChain(t, chains, b, id, c);
      assert HoldsAt(t', chains, c, x, y, k);
    }
    if Holds(t', chains, c, x) {
      var y, k :| HoldsAt(t', chains, c, x, y, k);
      OneChain(t, chains, b, id, c);
      if y == id && k == i {
      } else {
        assert HoldsAt(t, chains, c, x, y, k);
        SamePlace(t, chains, b, old', id, i, x, y, k, c);
      }
    }
  }

  /** A bucket belongs to one chain only. */
  lemma {:induction false} OneChain(t: Table, chains: Chains, b: nat, id: nat, c: nat)
    requires Shape(t) && ChainsOk(t, chains) && b < t.main && c < t.main && id in chains[b]
    ensures id in chains[c] ==> c == b
  {
    hide ChainLinked;
    if id in chains[c] {
      var j :| 0 <= j < |chains[b]| && chains[b][j] == id;
      var k :| 0 <= k < |chains[c]| && chains[c][k] == id;
    }
  }

  lemma {:induction false} SamePlace(t: Table, chains: Chains, b: nat, o: Entry, id: nat, i: nat, x: Entry, y: nat,
                                     k: nat, c: nat)
    requires Shape(t) && Unique(t, chains) && HoldsAt(t, chains, c, x, y, k) && (y != id || k != i)
    requires c == b ==> Member(t, chains, b, id) && i < t.width - 1 && At(t, id, i) == o
    ensures c == b ==> x != o
  {
    hide At;
    if c == b {
      assert x == o ==> HoldsAt(t, chains, c, x, id, i);
    }
  }

  /** Writing an entry whose hash occurs nowhere else in the chain keeps hashes unique. */
  lemma {:induction false} SetSlotUnique(t: Table, chains: Chains, b: nat, id: nat, i: nat, e: Entry)
    requires Shape(t) && ChainsOk(t, chains) && Unique(t, chains) && b < t.main && id in chains[b] && id < |t.buckets|
    requires i < t.width - 1 && !e.Indirect?
    requires e.Data? ==> forall x, y, k :: HoldsAt(t, chains, b, x, y, k) && x.hash == e.hash ==> y == id && k == i
    ensures var t' := SetSlot(t, id, i, e); Shape(t') && Unique(t', chains)
  {
    SetSlotAt(t, id, i, e);
    var t' := SetSlot(t, id, i, e);
    hide At, SetSlot;
    forall c, x, y, k, x', y', k' | HoldsAt(t', chains, c, x, y, k) && HoldsAt(t', chains, c, x', y', k')
      && x.hash == x'.hash
      ensures y == y' && k == k'
    {
      InMain(t, chains, c);
      OneChain(t, chains, b, id, c);
      assert (y == id && k == i) || HoldsAt(t, chains, c, x, y, k);
      assert (y' == id && k' == i) || HoldsAt(t, chains, c, x', y', k');
    }
  }

  lemma {:induction false} InMain(t: Table, chains: Chains, c: nat)
    requires Shape(t) && ChainsOk(t, chains) && c < |chains|
    ensures c < t.main
  {
  }

  // ---------- adding an indirect bucket ----------

  function Extend(t: Table, last: nat): Table
    requires last < |t.buckets| && t.width >= 1 && t.width <= |t.buckets[last]|
  {
    SetSlot(t, last, t.width - 1, Indirect(t.main + t.used)).(used := t.used + 1)
  }

  ghost function Longer(t: Table, chains: Chains, b: nat): Chains
    requires b < |chains|
  {
    chains[b := chains[b] + [t.main + t.used]]
  }

  lemma {:induction false} ExtendAt(t: Table, last: nat)
    requires Shape(t) && last < |t.buckets| && t.main + t.used < |t.buckets|
    ensures var t' := Extend(t, last);
      && Shape(t') && t'.main == t.main && t'.used == t.used + 1 && t'.width == t.width && |t'.buckets| == |t.buckets|
      && (forall x, k :: 0 <= x < |t.buckets| && 0 <= k < t.width ==>
            At(t', x, k) == if x == last && k == t.width - 1 then Indirect(t.main + t.used) else At(t, x, k))
  {
    SetSlotAt(t, last, t.width - 1, Indirect(t.main + t.used));
  }

  lemma {:induction false} ExtendChain(t: Table, chains: Chains, b: nat)
    requires TableOk(t, chains) && b < t.main && t.main + t.used < |t.buckets|
    ensures chains[b] != [] && chains[b][|chains[b]| - 1] < |t.buckets|
      && |t.buckets[chains[b][|chains[b]| - 1]]| == t.width
    ensures var t' := Extend(t, chains[b][|chains[b]| - 1]);
      Shape(t') && ChainLinked(t', chains[b] + [t.main + t.used])
  {
    assert ChainLinked(t, chains[b]);
    var chain, next := chains[b], t.main + t.used;
    var last := chain[|chain| - 1];
    ExtendAt(t, last);
    assert At(t, next, t.width - 1) == Empty && next !in chain;
    hide Extend, At;
    LinkedLonger(t, Extend(t, last), chain, next);
  }

  lemma {:induction false} LinkedLonger(t: Table, t': Table, chain: seq<nat>, next: nat)
    requires Shape(t) && Shape(t') && t'.width == t.width && |t'.buckets| == |t.buckets| && ChainLinked(t, chain)
    requires next < |t.buckets| && next !in chain && At(t, next, t.width - 1) == Empty
    requires forall i, j :: 0 <= i < j < |chain| ==> chain[i] != chain[j]
    requires forall x, k :: 0 <= x < |t.buckets| && 0 <= k < t.width ==>
      At(t', x, k) == if x == chain[|chain| - 1] && k == t.width - 1 then Indirect(next) else At(t, x, k)
    ensures ChainLinked(t', chain + [next])
  {
    hide At;
    var longer := chain + [next];
    forall j | 0 <= j < |longer| - 1
      ensures At(t', longer[j], t.width - 1) == Indirect(longer[j + 1])
    {
    }
  }

  lemma {:induction false} ExtendOtherChain(t: Table, chains: Chains, b: nat, c: nat)
    requires TableOk(t, chains) && b < t.main && c < t.main && c != b && t.main + t.used < |t.buckets|
    ensures chains[b] != [] && chains[b][|chains[b]| - 1] < |t.buckets|
      && |t.buckets[chains[b][|chains[b]| - 1]]| == t.width
    ensures var t' := Extend(t, chains[b][|chains[b]| - 1]); Shape(t') && ChainLinked(t', chains[c])
  {
    assert ChainLinked(t, chains[b]) && ChainLinked(t, chains[c]);
    var last := chains[b][|chains[b]| - 1];
    ExtendAt(t, last);
    assert forall j :: 0 <= j < |chains[c]| ==> chains[c][j] != last;
    hide Extend, At;
  }

  lemma {:induction false} ExtendSlots(t: Table, last: nat)
    requires Shape(t) && SlotsOk(t) && last < |t.buckets| && t.main + t.used < |t.buckets|
    requires last < t.main + t.used
    ensures Shape(Extend(t, last)) && SlotsOk(Extend(t, last))
  {
    ExtendAt(t, last);
    hide Extend, At;
  }

  /** The numbers in the chains: the new bucket is in none of them. */
  lemma {:induction false} NumbersBelow(t: Table, chains: Chains)
    requires Shape(t) && ChainsOk(t, chains)
    ensures |chains| == t.main && Disjoint(chains)
    ensures forall c, j :: 0 <= c < |chains| && 0 <= j < |chains[c]| ==> chains[c][j] < t.main + t.used
  {
    hide ChainLinked, Disjoint;
    forall c, j | 0 <= c < |chains| && 0 <= j < |chains[c]|
      ensures chains[c][j] < t.main + t.used
    {
      assert j == 0 ==> chains[c][0] == c;
    }
  }

  lemma {:induction false} ExtendKeeps(t: Table, chains: Chains, b: nat)
    requires TableOk(t, chains) && b < t.main && t.main + t.used < |t.buckets|
    ensures chains[b] != [] && chains[b][|chains[b]| - 1] < |t.buckets|
      && |t.buckets[chains[b][|chains[b]| - 1]]| == t.width
    ensures var t' := Extend(t, chains[b][|chains[b]| - 1]);
      Shape(t') && ChainsOk(t', Longer(t, chains, b)) && SlotsOk(t')
  {
    hide Extend, At, ChainLinked, Unique, Disjoint, SlotsOk;
    ExtendChain(t, chains, b);
    NumbersBelow(t, chains);
    var last := chains[b][|chains[b]| - 1];
    ExtendAt(t, last);
    ExtendSlots(t, last);
    StayDisjoint(chains, b, t.main + t.used);
    var t', chains' := Extend(t, last), Longer(t, chains, b);
    forall c | 0 <= c < t.main
      ensures ChainLinked(t', chains'[c]) && chains'[c] != [] && chains'[c][0] == c
    {
      if c != b {
        ExtendOtherChain(t, chains, b, c);
        ChainNonEmpty(t, chains, c);
      }
    }
  }

  lemma {:induction false} ChainNonEmpty(t: Table, chains: Chains, c: nat)
    requires Shape(t) && ChainsOk(t, chains) && c < t.main
    ensures chains[c] != [] && chains[c][0] == c
  {
    assert ChainLinked(t, chains[c]);
  }

  lemma {:induction false} StayDisjoint(chains: Chains, b: nat, id: nat)
    requires Disjoint(chains) && b < |chains|
    requires forall c, j :: 0 <= c < |chains| && 0 <= j < |chains[c]| ==> chains[c][j] != id
    ensures Disjoint(chains[b := chains[b] + [id]])
  {
    var chains' := chains[b := chains[b] + [id]];
    assert forall c, j :: 0 <= c < |chains'| && 0 <= j < |chains'[c]| ==>
      if c == b && j == |chains[b]| then chains'[c][j] == id else j < |chains[c]| && chains'[c][j] == chains[c][j];
  }

  /** A new bucket is empty, so the chains hold what they held. */
  lemma {:induction false} ExtendHolds(t: Table, chains: Chains, b: nat, last: nat, c: nat, x: Entry, id: nat, i: nat)
    requires TableOk(t, chains) && b < t.main && t.main + t.used < |t.buckets| && last < |t.buckets|
    ensures Shape(Extend(t, last))
    ensures HoldsAt(Extend(t, last), Longer(t, chains, b), c, x, id, i) <==> HoldsAt(t, chains, c, x, id, i)
  {
    ExtendAt(t, last);
    hide Extend, At, Unique, ChainsOk;
    SameLength(t, chains);
    var chains' := Longer(t, chains, b);
    assert c < |chains| ==> (id in chains'[c] <==> id in chains[c] || (c == b && id == t.main + t.used));
  }

  lemma {:induction false} SameLength(t: Table, chains: Chains)
    requires Shape(t) && ChainsOk(t, chains)
    ensures |chains| == t.main
  {
  }

  lemma {:induction false} ExtendUnique(t: Table, chains: Chains, b: nat, last: nat)
    requires TableOk(t, chains) && b < t.main && t.main + t.used < |t.buckets| && last < |t.buckets|
    ensures Shape(Extend(t, last)) && Unique(Extend(t, last), Longer(t, chains, b))
    ensures forall c, x :: Holds(Extend(t, last), Longer(t, chains, b), c, x) <==> Holds(t, chains, c, x)
  {
    ExtendAt(t, last);
    hide Extend, At, ChainsOk, SlotsOk, HoldsAt, Longer;
    var t', chains' := Extend(t, last), Longer(t, chains, b);
    forall c, x, id, i
      ensures HoldsAt(t', chains', c, x, id, i) <==> HoldsAt(t, chains, c, x, id, i)
    {
      ExtendHolds(t, chains, b, last, c, x, id, i);
    }
  }

  // ---------- walking a chain ----------

  /** A place in the table. */
  datatype Place = Place(bucket: nat, slot: nat)

  function EntryAt(t: Table, p: Place): Entry
    requires p.bucket < |t.buckets| && p.slot < |t.buckets[p.bucket]|
  {
    t.buckets[p.bucket][p.slot]
  }

  /** p is a data slot of the first n buckets of the chain. */
  ghost predicate Within(t: Table, chain: seq<nat>, n: nat, p: Place) {
    && Shape(t) && n <= |chain| && p.bucket in chain[..n] && p.bucket < |t.buckets| && p.slot < t.width - 1
  }

  /** What a walk over the first n buckets has found. */
  ghost predicate Summary(t: Table, chain: seq<nat>, n: nat, hash: nat, empty: Option<Place>, lru: Option<Place>) {
    && (forall p :: Within(t, chain, n, p) && EntryAt(t, p).Data? ==> EntryAt(t, p).hash != hash)
    && (match empty
        case None => forall p :: Within(t, chain, n, p) ==> EntryAt(t, p) != Empty
        case Some(q) => Within(t, chain, n, q) && EntryAt(t, q) == Empty)
    && (match lru
        case None => forall p :: Within(t, chain, n, p) ==> !EntryAt(t, p).Data?
        case Some(q) =>
          && Within(t, chain, n, q) && EntryAt(t, q).Data?
          && forall p :: Within(t, chain, n, p) && EntryAt(t, p).Data? ==> EntryAt(t, q).time <= EntryAt(t, p).time)
  }

  /** No slot of the chain is empty. */
  ghost predicate Packed(t: Table, chain: seq<nat>) {
    forall p :: Within(t, chain, |chain|, p) ==> EntryAt(t, p) != Empty
  }

  lemma {:induction false} PackedIff(t: Table, chain: seq<nat>, hash: nat, empty: Option<Place>, lru: Option<Place>)
    requires Summary(t, chain, |chain|, hash, empty, lru)
    ensures Packed(t, chain) <==> empty.None?
  {
  }

  /** What walking over one bucket without a match adds to what was known before. */
  ghost predicate Walked(t: Table, bucket: nat, hash: nat, empty: Option<Place>, lru: Option<Place>,
                         empty': Option<Place>, lru': Option<Place>)
    requires Shape(t) && bucket < |t.buckets|
  {
    && (forall i :: 0 <= i < t.width - 1 && At(t, bucket, i).Data? ==> At(t, bucket, i).hash != hash)
    && (empty.Some? ==> empty' == empty)
    && (empty.None? && empty'.Some? ==>
        empty'.value.bucket == bucket && empty'.value.slot < t.width - 1 && EntryAt(t, empty'.value) == Empty)
    && (empty'.None? ==> forall i :: 0 <= i < t.width - 1 ==> At(t, bucket, i) != Empty)
    && (lru'.None? <==> lru.None? && forall i :: 0 <= i < t.width - 1 ==> !At(t, bucket, i).Data?)
    && (lru'.Some? ==>
          && (lru' == lru || (lru'.value.bucket == bucket && lru'.value.slot < t.width - 1))
          && lru'.value.bucket < |t.buckets| && lru'.value.slot < t.width && EntryAt(t, lru'.value).Data?
          && (lru.Some? ==> lru.value.bucket < |t.buckets| && lru.value.slot < t.width && EntryAt(t, lru.value).Data?
                            && EntryAt(t, lru'.value).time <= EntryAt(t, lru.value).time)
          && forall i :: 0 <= i < t.width - 1 && At(t, bucket, i).Data? ==>
             EntryAt(t, lru'.value).time <= At(t, bucket, i).time)
  }

  /** Walk over one bucket: stop at a matching hash, remember the first empty slot and the entry
      with the least time, and follow the pointer at the end. */
  method WalkBucket(t: Table, bucket: nat, hash: nat, empty: Option<Place>, lru: Option<Place>)
    returns (found: Option<Place>, empty': Option<Place>, lru': Option<Place>, next: Option<nat>)
    requires Shape(t) && SlotsOk(t) && bucket < |t.buckets| && !At(t, bucket, t.width - 1).Data?
    requires lru.Some? ==> lru.value.bucket < |t.buckets| && lru.value.slot < t.width && EntryAt(t, lru.value).Data?
    ensures found.Some? ==>
      found.value.bucket == bucket && found.value.slot < t.width - 1 && EntryAt(t, found.value).Data?
        && EntryAt(t, found.value).hash == hash
    ensures found.None? ==> Walked(t, bucket, hash, empty, lru, empty', lru')
    ensures found.None? ==> next == match At(t, bucket, t.width - 1) case Indirect(n) => Some(n) case _ => None
  {
    found, empty', lru', next := None, empty, lru, None;
    for i := 0 to t.width
      invariant forall k :: 0 <= k < i && k < t.width - 1 && At(t, bucket, k).Data? ==> At(t, bucket, k).hash != hash
      invariant empty.Some? ==> empty' == empty
      invariant empty.None? && empty'.Some? ==>
        empty'.value.bucket == bucket && empty'.value.slot < t.width - 1 && EntryAt(t, empty'.value) == Empty
      invariant empty'.None? ==> forall k :: 0 <= k < i && k < t.width - 1 ==> At(t, bucket, k) != Empty
      invariant lru'.None? <==> lru.None? && forall k :: 0 <= k < i && k < t.width - 1 ==> !At(t, bucket, k).Data?
      invariant lru'.Some? ==>
        && (lru' == lru || (lru'.value.bucket == bucket && lru'.value.slot < t.width - 1))
        && lru'.value.bucket < |t.buckets| && lru'.value.slot < t.width && EntryAt(t, lru'.value).Data?
        && (lru.Some? ==> EntryAt(t, lru'.value).time <= EntryAt(t, lru.value).time)
        && forall k :: 0 <= k < i && k < t.width - 1 && At(t, bucket, k).Data? ==>
           EntryAt(t, lru'.value).time <= At(t, bucket, k).time
      invariant i == t.width ==> At(t, bucket, t.width - 1) == Empty
    {
      var e := At(t, bucket, i);
      if e.Empty? {
        if i != t.width - 1 && empty'.None? {
          empty' := Some(Place(bucket, i));
        }
      } else if e.Indirect? {
        next := Some(e.bucket);
        return;
      } else {
        if lru'.None? || e.time < EntryAt(t, lru'.value).time {
          lru' := Some(Place(bucket, i));
        }
        if e.hash == hash {
          found := Some(Place(bucket, i));
          return;
        }
      }
    }
  }

  lemma {:induction false} SummaryNext(t: Table, chain: seq<nat>, n: nat, hash: nat, empty: Option<Place>,
                                       lru: Option<Place>, empty': Option<Place>, lru': Option<Place>)
    requires Shape(t) && n < |chain| && chain[n] < |t.buckets| && Summary(t, chain, n, hash, empty, lru)
    requires Walked(t, chain[n], hash, empty, lru, empty', lru')
    ensures Summary(t, chain, n + 1, hash, empty', lru')
  {
    assert chain[..n + 1] == chain[..n] + [chain[n]];
    forall p | Within(t, chain, n + 1, p)
      ensures Within(t, chain, n, p)
        || (p.bucket == chain[n] && p.slot < t.width - 1 && EntryAt(t, p) == At(t, chain[n], p.slot))
    {
    }
    hide Shape;
  }

  /** Walk a whole chain.  It ends because the chain does. */
  method Walk(t: Table, ghost chains: Chains, b: nat, hash: nat)
    returns (found: Option<Place>, empty: Option<Place>, lru: Option<Place>, last: nat)
    requires TableOk(t, chains) && b < t.main
    ensures found.Some? ==> Within(t, chains[b], |chains[b]|, found.value)
    ensures found.Some? ==> EntryAt(t, found.value).Data? && EntryAt(t, found.value).hash == hash
    ensures found.None? ==>
      Summary(t, chains[b], |chains[b]|, hash, empty, lru) && chains[b] != [] && last == chains[b][|chains[b]| - 1]
  {
    hide Unique, Disjoint;
    assert ChainLinked(t, chains[b]);
    empty, lru := None, None;
    var bucket := b;
    ghost var chain, n := chains[b], 0;
    while true
      invariant n < |chain| && bucket == chain[n] && Summary(t, chain, n, hash, empty, lru)
      decreases |chain| - n
    {
      hide Summary, Walked;
      LinkAt(t, chain, n);
      SummaryLru(t, chain, n, hash, empty, lru);
      ghost var empty0, lru0 := empty, lru;
      var next;
      found, empty, lru, next := WalkBucket(t, bucket, hash, empty, lru);
      if found.Some? {
        assert chain[..|chain|] == chain;
        last := bucket;
        return;
      }
      SummaryNext(t, chain, n, hash, empty0, lru0, empty, lru);
      if next.None? {
        last := bucket;
        return;
      }
      bucket := next.value;
      n := n + 1;
    }
  }

  lemma {:induction false} LinkAt(t: Table, chain: seq<nat>, n: nat)
    requires Shape(t) && ChainLinked(t, chain) && n < |chain|
    ensures chain[n] < |t.buckets|
      && At(t, chain[n], t.width - 1) == if n < |chain| - 1 then Indirect(chain[n + 1]) else Empty
  {
  }

  lemma {:induction false} SummaryLru(t: Table, chain: seq<nat>, n: nat, hash: nat, empty: Option<Place>,
                                      lru: Option<Place>)
    requires Shape(t) && Summary(t, chain, n, hash, empty, lru)
    ensures lru.Some? ==> lru.value.bucket < |t.buckets| && lru.value.slot < t.width && EntryAt(t, lru.value).Data?
  {
  }

  // ---------- the table as a map ----------

  /** Low 32 bits of the hash, modulo the number of main buckets. */
  function BucketIndex(hash: nat, main: nat): nat
    requires main > 0
  {
    hash % 0x1_0000_0000 % main
  }

  lemma {:induction false} PlaceHolds(t: Table, chains: Chains, b: nat, p: Place)
    requires TableOk(t, chains) && b < t.main && Within(t, chains[b], |chains[b]|, p)
    ensures p.bucket in chains[b] && p.bucket < t.main + t.used && EntryAt(t, p) == At(t, p.bucket, p.slot)
    ensures EntryAt(t, p).Data? ==> HoldsAt(t, chains, b, EntryAt(t, p), p.bucket, p.slot)
  {
    NumbersBelow(t, chains);
    hide Unique, Disjoint;
    assert chains[b][..|chains[b]|] == chains[b];
    var j :| 0 <= j < |chains[b]| && chains[b][j] == p.bucket;
  }

  lemma {:induction false} HoldsPlace(t: Table, chains: Chains, b: nat, x: Entry, id: nat, i: nat)
    requires Shape(t) && HoldsAt(t, chains, b, x, id, i)
    ensures Within(t, chains[b], |chains[b]|, Place(id, i)) && EntryAt(t, Place(id, i)) == x
  {
    assert chains[b][..|chains[b]|] == chains[b];
  }

  /** A walk without a match: no entry of the chain has the hash. */
  lemma {:induction false} NotFound(t: Table, chains: Chains, b: nat, hash: nat, empty: Option<Place>,
                                    lru: Option<Place>)
    requires TableOk(t, chains) && b < t.main && Summary(t, chains[b], |chains[b]|, hash, empty, lru)
    ensures forall x, id, i :: HoldsAt(t, chains, b, x, id, i) ==> x.hash != hash
    ensures lru.Some? ==> forall x, id, i :: HoldsAt(t, chains, b, x, id, i) ==> EntryAt(t, lru.value).time <= x.time
  {
    hide Unique, ChainsOk, SlotsOk;
    forall x, id, i | HoldsAt(t, chains, b, x, id, i)
      ensures x.hash != hash && (lru.Some? ==> EntryAt(t, lru.value).time <= x.time)
    {
      HoldsPlace(t, chains, b, x, id, i);
    }
  }

  /** Every main bucket has a data slot, so a chain without an empty slot has an entry to evict. */
  lemma {:induction false} SomethingToEvict(t: Table, chains: Chains, b: nat, hash: nat, lru: Option<Place>)
    requires TableOk(t, chains) && b < t.main && Summary(t, chains[b], |chains[b]|, hash, None, lru)
    ensures lru.Some?
  {
    ChainNonEmpty(t, chains, b);
    assert chains[b][..|chains[b]|] == chains[b];
    var p := Place(chains[b][0], 0);
    assert Within(t, chains[b], |chains[b]|, p);
    assert EntryAt(t, p) == At(t, p.bucket, 0);
  }

  /** Overwriting a place of chain b, and what all chains hold afterwards. */
  lemma {:induction false} Overwrite(t: Table, chains: Chains, b: nat, p: Place, e: Entry)
    requires TableOk(t, chains) && b < t.main && Within(t, chains[b], |chains[b]|, p) && !e.Indirect?
    requires e.Data? ==> forall x, id, i :: HoldsAt(t, chains, b, x, id, i) && x.hash == e.hash ==>
      id == p.bucket && i == p.slot
    ensures var t' := SetSlot(t, p.bucket, p.slot, e);
      && TableOk(t', chains)
      && forall c, x :: 0 <= c < t.main ==>
           (Holds(t', chains, c, x) <==>
              (c == b && x == e && e.Data?) || (Holds(t, chains, c, x) && (c != b || x != EntryAt(t, p))))
  {
    PlaceHolds(t, chains, b, p);
    SetSlotKeepsChains(t, chains, p.bucket, p.slot, e);
    SetSlotUnique(t, chains, b, p.bucket, p.slot, e);
    hide ChainsOk, SlotsOk, Unique, Holds, At;
    forall c, x | 0 <= c < t.main
      ensures var t' := SetSlot(t, p.bucket, p.slot, e);
        Holds(t', chains, c, x) <==>
          (c == b && x == e && e.Data?) || (Holds(t, chains, c, x) && (c != b || x != EntryAt(t, p)))
    {
      SetSlotHolds(t, chains, b, p.bucket, p.slot, e, c, x);
    }
  }

  /** Entries are in the chain of their own hash. */
  ghost predicate Home(t: Table, chains: Chains)
    requires Shape(t)
  {
    forall c, x :: 0 <= c < t.main && Holds(t, chains, c, x) ==> c == BucketIndex(x.hash, t.main)
  }

  ghost predicate Has(t: Table, chains: Chains, x: Entry)
    requires Shape(t)
  {
    x.Data? && Holds(t, chains, BucketIndex(x.hash, t.main), x)
  }

  /** The entries of a table are the graph of a map from hashes. */
  lemma {:induction false} OneEntryPerHash(t: Table, chains: Chains, x: Entry, y: Entry)
    requires TableOk(t, chains) && Has(t, chains, x) && Has(t, chains, y) && x.hash == y.hash
    ensures x == y
  {
    hide ChainsOk, SlotsOk;
    var b := BucketIndex(x.hash, t.main);
    var id, i :| HoldsAt(t, chains, b, x, id, i);
    var id', i' :| HoldsAt(t, chains, b, y, id', i');
  }

  lemma {:induction false} OnlyOne(t: Table, chains: Chains, o: Entry)
    requires TableOk(t, chains) && Has(t, chains, o)
    ensures forall x :: Has(t, chains, x) ==> (x == o <==> x.hash == o.hash)
  {
    hide ChainsOk, SlotsOk, Unique, Holds, BucketIndex;
    forall x | Has(t, chains, x)
      ensures x == o <==> x.hash == o.hash
    {
      if x.hash == o.hash {
        OneEntryPerHash(t, chains, x, o);
      }
    }
  }

  /** From what the chains hold to what the table has. */
  lemma {:induction false} OverwriteHas(t: Table, chains: Chains, b: nat, p: Place, e: Entry, t': Table)
    requires TableOk(t, chains) && Home(t, chains) && b < t.main && Within(t, chains[b], |chains[b]|, p) && !e.Indirect?
    requires e.Data? ==> b == BucketIndex(e.hash, t.main)
    requires e.Data? ==> forall x, id, i :: HoldsAt(t, chains, b, x, id, i) && x.hash == e.hash ==>
      id == p.bucket && i == p.slot
    requires t' == SetSlot(t, p.bucket, p.slot, e)
    ensures TableOk(t', chains) && Home(t', chains)
    ensures forall x :: Has(t', chains, x) <==> (x == e && e.Data?) || (Has(t, chains, x) && x != EntryAt(t, p))
  {
    PlaceHolds(t, chains, b, p);
    Overwrite(t, chains, b, p, e);
    var o := EntryAt(t, p);
    assert o.Data? ==> Holds(t, chains, b, o);
    assert Shape(t) && Shape(t') && t'.main == t.main;
    hide TableOk, BucketIndex, Holds, HoldsAt, SetSlot, Shape, Within, EntryAt;
    StaysHome(t, t', chains, b, o, e);
  }

  /** The same in terms of the two tables alone. */
  lemma {:induction false} StaysHome(t: Table, t': Table, chains: Chains, b: nat, o: Entry, e: Entry)
    requires Shape(t) && Shape(t') && t'.main == t.main && Home(t, chains) && b < t.main
    requires e.Data? ==> b == BucketIndex(e.hash, t.main)
    requires o.Data? ==> Holds(t, chains, b, o)
    requires forall c, x :: 0 <= c < t.main ==>
      (Holds(t', chains, c, x) <==> (c == b && x == e && e.Data?) || (Holds(t, chains, c, x) && (c != b || x != o)))
    ensures Home(t', chains)
    ensures forall x :: Has(t', chains, x) <==> (x == e && e.Data?) || (Has(t, chains, x) && x != o)
  {
    hide BucketIndex, Holds, Shape;
    forall x: Entry
      ensures Has(t', chains, x) <==> (x == e && e.Data?) || (Has(t, chains, x) && x != o)
    {
      if x.Data? {
        BucketInRange(x.hash, t.main);
      }
    }
  }

  lemma {:induction false} BucketInRange(hash: nat, main: nat)
    requires main > 0
    ensures BucketIndex(hash, main) < main
  {
  }

  /** A longer chain has a new empty place, and the table has what it had. */
  lemma {:induction false} Extended(t: Table, chains: Chains, b: nat, last: nat)
    requires TableOk(t, chains) && Home(t, chains) && b < t.main && t.main + t.used < |t.buckets|
    requires chains[b] != [] && last == chains[b][|chains[b]| - 1]
    ensures last < |t.buckets| && |t.buckets[last]| == t.width
    ensures var t', chains' := Extend(t, last), Longer(t, chains, b); var p := Place(t.main + t.used, 0);
      && TableOk(t', chains') && Home(t', chains') && Within(t', chains'[b], |chains'[b]|, p) && EntryAt(t', p) == Empty
      && (forall x :: Has(t', chains', x) <==> Has(t, chains, x))
      && (forall x, id, i :: HoldsAt(t', chains', b, x, id, i) <==> HoldsAt(t, chains, b, x, id, i))
  {
    ExtendKeeps(t, chains, b);
    ExtendUnique(t, chains, b, last);
    ExtendAt(t, last);
    var t', chains' := Extend(t, last), Longer(t, chains, b);
    NewPlace(t, chains, b, last);
    hide Extend, ChainsOk, Unique, Holds, BucketIndex, Longer, Within, SlotsOk, HoldsAt, EntryAt;
    forall x, id, i
      ensures HoldsAt(t', chains', b, x, id, i) <==> HoldsAt(t, chains, b, x, id, i)
    {
      ExtendHolds(t, chains, b, last, b, x, id, i);
    }
  }

  lemma {:induction false} NewPlace(t: Table, chains: Chains, b: nat, last: nat)
    requires TableOk(t, chains) && b < t.main && t.main + t.used < |t.buckets| && last < t.main + t.used
    ensures var t', chains' := Extend(t, last), Longer(t, chains, b); var p := Place(t.main + t.used, 0);
      |chains'| == |chains| && Within(t', chains'[b], |chains'[b]|, p) && EntryAt(t', p) == Empty
  {
    ExtendAt(t, last);
    hide Extend, ChainsOk, Unique;
    SameLength(t, chains);
    var chain := chains[b] + [t.main + t.used];
    assert chain[|chains[b]|] == t.main + t.used && chain[..|chain|] == chain;
    assert At(t, t.main + t.used, 0) == Empty;
    assert EntryAt(Extend(t, last), Place(t.main + t.used, 0)) == At(Extend(t, last), t.main + t.used, 0);
  }

  /** o has the least time of all entries in the chain of main bucket b. */
  ghost predicate Oldest(t: Table, chains: Chains, b: nat, o: Entry)
    requires Shape(t)
  {
    && o.Data? && BucketIndex(o.hash, t.main) == b
    && forall x :: Has(t, chains, x) && BucketIndex(x.hash, t.main) == b ==> o.time <= x.time
  }

  lemma {:induction false} FoundPlace(t: Table, chains: Chains, b: nat, p: Place)
    requires TableOk(t, chains) && Home(t, chains) && b < t.main && Within(t, chains[b], |chains[b]|, p)
      && EntryAt(t, p).Data?
    ensures Has(t, chains, EntryAt(t, p))
    ensures forall x, id, i :: HoldsAt(t, chains, b, x, id, i) && x.hash == EntryAt(t, p).hash ==>
      id == p.bucket && i == p.slot
  {
    PlaceHolds(t, chains, b, p);
    hide ChainsOk, SlotsOk, BucketIndex;
    assert Holds(t, chains, b, EntryAt(t, p));
  }

  lemma {:induction false} NotThere(t: Table, chains: Chains, b: nat, hash: nat)
    requires Shape(t) && b == BucketIndex(hash, t.main)
    requires forall x, id, i :: HoldsAt(t, chains, b, x, id, i) ==> x.hash != hash
    ensures forall x :: Has(t, chains, x) ==> x.hash != hash
  {
    hide HoldsAt, BucketIndex;
  }

  lemma {:induction false} OldestIsLru(t: Table, chains: Chains, b: nat, hash: nat, lru: Place)
    requires TableOk(t, chains) && Home(t, chains) && b < t.main
      && Summary(t, chains[b], |chains[b]|, hash, None, Some(lru))
    ensures Within(t, chains[b], |chains[b]|, lru) && Has(t, chains, EntryAt(t, lru))
      && Oldest(t, chains, b, EntryAt(t, lru))
  {
    NotFound(t, chains, b, hash, None, Some(lru));
    FoundPlace(t, chains, b, lru);
    PlaceHolds(t, chains, b, lru);
    hide ChainsOk, SlotsOk, Unique, HoldsAt, BucketIndex, EntryAt, Summary;
    assert Holds(t, chains, b, EntryAt(t, lru));
  }

  lemma {:induction false} EmptyPlace(t: Table, chains: Chains, b: nat, hash: nat, p: Place, lru: Option<Place>)
    requires TableOk(t, chains) && b < t.main && Summary(t, chains[b], |chains[b]|, hash, Some(p), lru)
    ensures Within(t, chains[b], |chains[b]|, p) && EntryAt(t, p) == Empty
  {
  }

  lemma {:induction false} NothingYet(t: Table, chains: Chains)
    requires Shape(t) && t.used == 0 && |chains| == t.main && forall b :: 0 <= b < t.main ==> chains[b] == [b]
    requires forall id, i :: 0 <= id < |t.buckets| && 0 <= i < t.width ==> At(t, id, i) == Empty
    ensures TableOk(t, chains) && Home(t, chains) && forall x :: !Has(t, chains, x)
  {
    assert ChainsOk(t, chains) by {
      assert forall b :: 0 <= b < t.main ==> ChainLinked(t, chains[b]);
    }
    hide ChainsOk, At, BucketIndex, Shape;
    assert forall b, x, id, i :: !HoldsAt(t, chains, b, x, id, i);
  }

  class HashTable {
    const width: nat
    const main: nat
    const evict: bool
    var buckets: seq<seq<Entry>>
    var used: nat
    var full: bool
    ghost var chains: Chains

    ghost function T(): Table
      reads this
    {
      Table(buckets, width, main, used)
    }

    ghost predicate Valid()
      reads this
    {
      TableOk(T(), chains) && Home(T(), chains) && (full ==> main + used == |buckets|)
    }

    /** All buckets start empty; each main bucket is a chain of its own. */
    constructor (width: nat, main: nat, indirect: nat, evict: bool)
      requires width >= 2 && main > 0
      ensures Valid() && forall x :: !Has(T(), chains, x)
    {
      this.width, this.main, this.evict := width, main, evict;
      buckets := seq(main + indirect, _ => seq(width, _ => Empty));
      used, full := 0, false;
      chains := seq(main, b => [b]);
      new;
      NothingYet(T(), chains);
    }

    /** Write a data slot of chain b. */
    method Store(p: Place, e: Entry, ghost b: nat)
      requires Valid() && b < main && Within(T(), chains[b], |chains[b]|, p) && !e.Indirect?
      requires e.Data? ==> b == BucketIndex(e.hash, main)
      requires e.Data? ==> forall x, id, i :: HoldsAt(T(), chains, b, x, id, i) && x.hash == e.hash ==>
        id == p.bucket && i == p.slot
      modifies this`buckets
      ensures Valid()
      ensures forall x :: Has(T(), chains, x) <==>
        (x == e && e.Data?) || (Has(old(T()), chains, x) && x != EntryAt(old(T()), p))
    {
      ghost var t := T();
      buckets := buckets[p.bucket := buckets[p.bucket][p.slot := e]];
      OverwriteHas(t, chains, b, p, e, T());
    }

    method Find(hash: nat, updateTime: bool, now: nat) returns (r: Option<Entry>)
      requires Valid()
      modifies this`buckets
      ensures Valid()
      ensures r.Some? ==>
        exists o :: Has(old(T()), chains, o) && o.hash == hash && r.value == if updateTime then o.(time := now) else o
      ensures r.Some? ==> forall x :: Has(T(), chains, x) <==>
        x == r.value || (Has(old(T()), chains, x) && x.hash != hash)
      ensures r.None? ==> forall x :: Has(old(T()), chains, x) ==> x.hash != hash
      ensures r.None? || !updateTime ==> buckets == old(buckets)
    {
      ghost var t := T();
      var b := hash % 0x1_0000_0000 % main;
      BucketInRange(hash, main);
      var found, empty, lru, last := Walk(Table(buckets, width, main, used), chains, b, hash);
      hide ChainsOk, SlotsOk, Summary, Home;
      if found.Some? {
        var p := found.value;
        PlaceHolds(t, chains, b, p);
        var o := buckets[p.bucket][p.slot];
        OnlyOne(t, chains, o);
        r := Some(o);
        if updateTime {
          r := Some(o.(time := now));
          Store(p, r.value, b);
        }
        return;
      }
      NotFound(t, chains, b, hash, empty, lru);
      return None;
    }

    method Delete(hash: nat) returns (old': Option<Entry>)
      requires Valid()
      modifies this`buckets
      ensures Valid()
      ensures forall x :: Has(T(), chains, x) <==> Has(old(T()), chains, x) && x.hash != hash
      ensures old'.Some? ==> Has(old(T()), chains, old'.value) && old'.value.hash == hash
      ensures old'.None? ==> buckets == old(buckets)
    {
      ghost var t := T();
      var b := hash % 0x1_0000_0000 % main;
      BucketInRange(hash, main);
      var found, empty, lru, last := Walk(Table(buckets, width, main, used), chains, b, hash);
      hide ChainsOk, SlotsOk, Unique, Summary, Home;
      if found.Some? {
        var p := found.value;
        PlaceHolds(t, chains, b, p);
        old' := Some(buckets[p.bucket][p.slot]);
        Store(p, Empty, b);
        OnlyOne(t, chains, old'.value);
      } else {
        NotFound(t, chains, b, hash, empty, lru);
        old' := None;
      }
    }

    /** Hand out an indirect bucket to chain b, or note that there is none left. */
    method AddBucket(last: nat, ghost b: nat) returns (r: Option<Place>)
      requires Valid() && b < main && chains[b] != [] && last == chains[b][|chains[b]| - 1]
      modifies this
      ensures Valid()
      ensures forall x :: Has(T(), chains, x) <==> Has(old(T()), old(chains), x)
      ensures r.None? ==> full && buckets == old(buckets) && used == old(used) && chains == old(chains)
      ensures r.Some? ==> Within(T(), chains[b], |chains[b]|, r.value) && EntryAt(T(), r.value) == Empty
      ensures forall x, id, i :: HoldsAt(T(), chains, b, x, id, i) <==> HoldsAt(old(T()), old(chains), b, x, id, i)
    {
      hide ChainsOk, SlotsOk, Unique, Home, HoldsAt, Holds, BucketIndex;
      r := None;
      if !full {
        if main + used < |buckets| {
          ghost var t, c := T(), chains;
          Extended(t, c, b, last);
          SameLength(t, c);
          r := Some(Place(main + used, 0));
          buckets := buckets[last := buckets[last][width - 1 := Indirect(main + used)]];
          used := used + 1;
          chains := Longer(t, c, b);
          assert T() == Extend(t, last);
        } else {
          full := true;
        }
      }
    }

    /** Overwrite the entry with the same hash; or take an empty slot of the chain, in a new indirect
        bucket if need be; or evict the entry of the chain with the least time; or fail. */
    method Put(e: Entry) returns (success: bool, old': Option<Entry>)
      requires Valid() && e.Data?
      modifies this
      ensures Valid()
      ensures success ==> forall x :: Has(T(), chains, x) <==>
        x == e || (Has(old(T()), old(chains), x) && Some(x) != old')
      ensures forall x :: Has(old(T()), old(chains), x) && x.hash == e.hash ==> success && old' == Some(x)
      ensures !success ==> !evict && full && buckets == old(buckets) && used == old(used) && chains == old(chains)
      ensures old'.Some? ==> Has(old(T()), old(chains), old'.value)
      ensures old'.Some? && old'.value.hash != e.hash ==>
        evict && full && Oldest(old(T()), old(chains), BucketIndex(e.hash, main), old'.value)
      ensures !success || used != old(used) || (old'.Some? && old'.value.hash != e.hash) ==>
        BucketIndex(e.hash, main) < |old(chains)| && Packed(old(T()), old(chains)[BucketIndex(e.hash, main)])
    {
      ghost var t := T();
      var b := e.hash % 0x1_0000_0000 % main;
      BucketInRange(e.hash, main);
      var found, empty, lru, last := Walk(Table(buckets, width, main, used), chains, b, e.hash);
      hide TableOk, Summary, Home, HoldsAt, Holds, Within, Packed;
      if found.Some? {
        FoundPlace(t, chains, b, found.value);
        var o := buckets[found.value.bucket][found.value.slot];
        OnlyOne(t, chains, o);
        Store(found.value, e, b);
        return true, Some(o);
      }
      PackedIff(t, chains[b], e.hash, empty, lru);
      success, old' := Insert(e, empty, lru, last, b);
    }

    /** The second half: there is no entry with the hash. */
    method Insert(e: Entry, empty: Option<Place>, lru: Option<Place>, last: nat, ghost b: nat)
      returns (success: bool, old': Option<Entry>)
      requires Valid() && e.Data? && b < main && b == BucketIndex(e.hash, main)
      requires Summary(T(), chains[b], |chains[b]|, e.hash, empty, lru) && chains[b] != []
        && last == chains[b][|chains[b]| - 1]
      modifies this
      ensures Valid()
      ensures success ==> forall x :: Has(T(), chains, x) <==>
        x == e || (Has(old(T()), old(chains), x) && Some(x) != old')
      ensures forall x :: Has(old(T()), old(chains), x) ==> x.hash != e.hash
      ensures !success ==> !evict && full && buckets == old(buckets) && used == old(used) && chains == old(chains)
      ensures old'.Some? ==>
        evict && full && Has(old(T()), old(chains), old'.value) && Oldest(old(T()), old(chains), b, old'.value)
      ensures !success || used != old(used) || old'.Some? ==> empty.None?
    {
      hide ChainsOk, SlotsOk, Unique, Summary, Home, HoldsAt, Holds, Oldest, BucketIndex;
      ghost var t, c := T(), chains;
      SameLength(t, c);
      NotFound(t, chains, b, e.hash, empty, lru);
      NotThere(t, chains, b, e.hash);
      old' := None;
      success := true;
      var place := empty;
      if place.None? {
        SomethingToEvict(t, chains, b, e.hash, lru);
        OldestIsLru(t, chains, b, e.hash, lru.value);
        place := AddBucket(last, b);
      } else {
        EmptyPlace(t, chains, b, e.hash, place.value, lru);
      }
      if place.Some? {
        Store(place.value, e, b);
      } else if evict {
        old' := Some(buckets[lru.value.bucket][lru.value.slot]);
        Store(lru.value, e, b);
      } else {
        success := false;
      }
    }
  }
}
