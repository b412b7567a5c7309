/** The slab allocator of a memory partition: slabs are handed to size classes, items are carved
    out of a slab one after the other, and freed items are queued for reuse.  A slab keeps the size of
    its items, their number and the bytes left in 32-bit arithmetic, which matters for large slabs. */
module SlabAllocator {
  import opened Options

  const CLASSES: nat := 64
  const MIB: nat := 0x10_0000
  const WORD: nat := 0x1_0000_0000
  const LIMIT: nat := 0x8000_0000_0000_0000
  const SMALLEST: nat := 1200

  /** `next` is an address in the partition, `available` the bytes not yet carved. */
  datatype Slab = Slab(next: nat, itemSize: nat, available: nat)

  // ---------- sizes ----------

  function Pow2(i: nat): nat {
    if i == 0 then 1 else 2 * Pow2(i - 1)
  }

  /** Class sizes double until they reach the size of a slab. */
  function ClassSize(i: nat, slabSize: nat): nat {
    var size := SMALLEST * Pow2(i);
    if size > slabSize then slabSize else size
  }

  lemma {:induction false} Pow2Grows(i: nat, j: nat)
    requires i <= j
    ensures 1 <= Pow2(i) <= Pow2(j)
    decreases j
  {
    if i < j {
      Pow2Grows(i, j - 1);
    } else if i > 0 {
      Pow2Grows(i - 1, i - 1);
    }
  }

  lemma {:induction false} ClassSizesAscend(i: nat, j: nat, slabSize: nat)
    requires i <= j && slabSize >= SMALLEST
    ensures 0 < ClassSize(i, slabSize) <= ClassSize(j, slabSize) <= slabSize
  {
    Pow2Grows(i, j);
  }

  lemma {:induction false} Pow2Of22()
    ensures Pow2(22) == 0x40_0000
  {
    assert Pow2(4) == 16;
    assert Pow2(8) == 256;
    assert Pow2(12) == 4096;
    assert Pow2(16) == 65536;
    assert Pow2(20) == 1048576;
  }

  lemma {:induction false} Pow2Of63()
    ensures Pow2(63) == LIMIT
  {
    Pow2Of22();
    assert Pow2(26) == 0x400_0000;
    assert Pow2(30) == 0x4000_0000;
    assert Pow2(34) == 0x4_0000_0000;
    assert Pow2(38) == 0x40_0000_0000;
    assert Pow2(42) == 0x400_0000_0000;
    assert Pow2(46) == 0x4000_0000_0000;
    assert Pow2(50) == 0x4_0000_0000_0000;
    assert Pow2(54) == 0x40_0000_0000_0000;
    assert Pow2(58) == 0x400_0000_0000_0000;
    assert Pow2(62) == 0x4000_0000_0000_0000;
  }

  /** The last class always holds a whole slab. */
  lemma {:induction false} LastClassIsSlab(slabSize: nat)
    requires slabSize < LIMIT
    ensures ClassSize(CLASSES - 1, slabSize) == slabSize
  {
    Pow2Of63();
  }

  lemma {:induction false} NextSize(i: nat, slabSize: nat)
    requires slabSize >= SMALLEST
    ensures ClassSize(i + 1, slabSize)
         == if ClassSize(i, slabSize) * 2 > slabSize then slabSize else ClassSize(i, slabSize) * 2
  {
    assert Pow2(i + 1) == 2 * Pow2(i);
  }

  // ---------- one slab ----------

  /** Bytes of a new slab that will be carved. */
  function Available(slabSize: nat, itemSize: nat): nat
    requires itemSize > 0
  {
    itemSize * ((slabSize / itemSize) % WORD) % WORD
  }

  /** How many items of a class a slab yields. */
  function Capacity(slabSize: nat, size: nat): nat {
    var itemSize := size % WORD;
    if itemSize == 0 then 0
    else
      QuotientNonNegative(Available(slabSize, itemSize), itemSize);
      Available(slabSize, itemSize) / itemSize
  }

  lemma {:induction false} QuotientNonNegative(a: int, b: int)
    requires a >= 0 && b > 0
    ensures a / b >= 0
  {
    var q := a / b;
    assert a == b * q + a % b;
    assert q <= -1 ==> b * q <= -b;
  }

  /** Slab::Init; none if it divides by zero. */
  function InitSlab(slab: Slab, slabSize: nat, size: nat): Option<Slab> {
    var itemSize := size % WORD;
    if itemSize == 0 then None else Some(Slab(slab.next, itemSize, Available(slabSize, itemSize)))
  }

  /** Slab::AllocItem. */
  function AllocFromSlab(slab: Slab): (Option<nat>, Slab) {
    if slab.available < slab.itemSize then (None, slab)
    else (Some(slab.next), Slab(slab.next + slab.itemSize, slab.itemSize, slab.available - slab.itemSize))
  }

  lemma {:induction false} MulMonotone(a: nat, b: nat, c: nat)
    requires a <= b
    ensures a * c <= b * c && c * a <= c * b
  {
  }

  lemma {:induction false} ModAtMost(x: nat)
    ensures x % WORD <= x
  {
  }

  lemma {:induction false} AvailableFits(slabSize: nat, itemSize: nat)
    requires itemSize > 0
    ensures Available(slabSize, itemSize) <= slabSize
  {
    QuotientNonNegative(slabSize, itemSize);
    var q := slabSize / itemSize;
    ModAtMost(q);
    MulMonotone(q % WORD, q, itemSize);
    ModAtMost(itemSize * (q % WORD));
    assert slabSize == itemSize * q + slabSize % itemSize;
  }

  /** There is room for another item exactly below the capacity. */
  lemma {:induction false} RoomIff(slabSize: nat, size: nat, n: nat)
    requires size % WORD > 0 && n <= Capacity(slabSize, size)
    ensures var item := size % WORD;
      && n * item <= Available(slabSize, item) <= slabSize
      && (Available(slabSize, item) - n * item >= item <==> n < Capacity(slabSize, size))
      && (n < Capacity(slabSize, size) ==> (n + 1) * item <= Available(slabSize, item))
  {
    var item, cap := size % WORD, Capacity(slabSize, size);
    var left := Available(slabSize, item);
    AvailableFits(slabSize, item);
    hide Available;
    assert left == item * cap + left % item;
    MulMonotone(n, cap, item);
    assert (n + 1) * item == n * item + item;
    if n < cap {
      MulMonotone(n + 1, cap, item);
    }
  }

  // ---------- cells ----------

  /** Where n steps of a size lead. */
  function Steps(n: nat, size: nat): nat {
    if n == 0 then 0 else Steps(n - 1, size) + size
  }

  lemma {:induction false} StepsIsProduct(n: nat, size: nat)
    ensures Steps(n, size) == n * size
  {
    if n > 0 {
      StepsIsProduct(n - 1, size);
      assert n * size == (n - 1) * size + size;
    }
  }

  /** The k-th item of a slab. */
  function Cell(slabSize: nat, s: nat, size: nat, k: nat): nat {
    Steps(s, slabSize) + Steps(k, size)
  }

  predicate Apart(a: nat, aSize: nat, b: nat, bSize: nat) {
    a + aSize <= b || b + bSize <= a
  }

  lemma {:induction false} CellsOfOneSlabApart(slabSize: nat, s: nat, item: nat, j: nat, k: nat)
    requires j < k
    ensures Cell(slabSize, s, item, j) + item <= Cell(slabSize, s, item, k)
  {
    StepsIsProduct(j, item);
    StepsIsProduct(k, item);
    MulMonotone(j + 1, k, item);
    assert (j + 1) * item == j * item + item;
  }

  lemma {:induction false} CellInSlab(slabSize: nat, s: nat, size: nat, k: nat)
    requires size % WORD > 0 && k < Capacity(slabSize, size)
    ensures s * slabSize <= Cell(slabSize, s, size % WORD, k)
    ensures Cell(slabSize, s, size % WORD, k) + size % WORD <= (s + 1) * slabSize
  {
    StepsIsProduct(s, slabSize);
    StepsIsProduct(k, size % WORD);
    RoomIff(slabSize, size, k);
    assert (k + 1) * (size % WORD) == k * (size % WORD) + size % WORD;
    assert (s + 1) * slabSize == s * slabSize + slabSize;
  }

  lemma {:induction false} CellZero(slabSize: nat, s: nat, item: nat)
    ensures Cell(slabSize, s, item, 0) == s * slabSize
  {
    StepsIsProduct(s, slabSize);
  }

  lemma {:induction false} CellNext(slabSize: nat, s: nat, item: nat, k: nat)
    ensures Cell(slabSize, s, item, k + 1) == Cell(slabSize, s, item, k) + item
  {
  }

  lemma {:induction false} SlabsApart(slabSize: nat, s: nat, t: nat)
    requires s < t
    ensures (s + 1) * slabSize <= t * slabSize
  {
    MulMonotone(s + 1, t, slabSize);
  }

  // ---------- the books ----------

  /** For the specification: the class that owns a slab, how many items of it are carved, and the
      addresses of the items in use, per class. */
  datatype Book = Book(owner: seq<Option<nat>>, carved: seq<nat>, live: seq<set<nat>>)

  function ItemSize(c: nat, slabSize: nat): nat {
    ClassSize(c, slabSize) % WORD
  }

  function ClassCapacity(c: nat, slabSize: nat): nat {
    Capacity(slabSize, ClassSize(c, slabSize))
  }

  ghost predicate BookOk(b: Book, slabSize: nat) {
    && |b.carved| == |b.owner| && |b.live| == CLASSES
    && forall s :: 0 <= s < |b.owner| && b.owner[s].Some? ==>
         b.owner[s].value < CLASSES && 0 < ItemSize(b.owner[s].value, slabSize)
         && b.carved[s] <= ClassCapacity(b.owner[s].value, slabSize)
  }

  ghost predicate CellAt(b: Book, slabSize: nat, c: nat, a: nat, s: nat, k: nat) {
    s < |b.owner| == |b.carved| && b.owner[s] == Some(c) && k < b.carved[s]
      && a == Cell(slabSize, s, ItemSize(c, slabSize), k)
  }

  /** An address is an item of a class if it is a carved cell of one of its slabs. */
  ghost predicate IsCell(b: Book, slabSize: nat, c: nat, a: nat) {
    exists s: nat, k: nat :: CellAt(b, slabSize, c, a, s, k)
  }

  /** Any two different cells are as far apart as the items of their slabs. */
  lemma {:induction false} CellsApart(b: Book, slabSize: nat, c: nat, a: nat, s: nat, k: nat, c': nat, a': nat, s': nat,
                                      k': nat)
    requires BookOk(b, slabSize) && CellAt(b, slabSize, c, a, s, k) && CellAt(b, slabSize, c', a', s', k')
    requires s != s' || k != k'
    ensures Apart(a, ItemSize(c, slabSize), a', ItemSize(c', slabSize)) && a != a'
  {
    CellInSlab(slabSize, s, ClassSize(c, slabSize), k);
    CellInSlab(slabSize, s', ClassSize(c', slabSize), k');
    hide ClassSize, Cell, Capacity;
    if s < s' {
      SlabsApart(slabSize, s, s');
    } else if s' < s {
      SlabsApart(slabSize, s', s);
    } else if k < k' {
      CellsOfOneSlabApart(slabSize, s, ItemSize(c, slabSize), k, k');
    } else {
      CellsOfOneSlabApart(slabSize, s, ItemSize(c, slabSize), k', k);
    }
  }

  function Carve(b: Book, s: nat): Book
    requires s < |b.carved|
  {
    b.(carved := b.carved[s := b.carved[s] + 1])
  }

  /** Carving the next item of a slab adds exactly one address, which was no item before. */
  lemma {:induction false} CarveAddsCell(b: Book, slabSize: nat, c: nat, s: nat)
    requires BookOk(b, slabSize) && s < |b.owner| && b.owner[s] == Some(c)
    requires b.carved[s] < ClassCapacity(c, slabSize)
    ensures BookOk(Carve(b, s), slabSize)
    ensures var next := Cell(slabSize, s, ItemSize(c, slabSize), b.carved[s]);
      && !IsCell(b, slabSize, c, next)
      && (forall c', a :: IsCell(Carve(b, s), slabSize, c', a) <==>
          IsCell(b, slabSize, c', a) || (c' == c && a == next))
  {
    hide ItemSize, ClassCapacity, Cell;
    var b', n := Carve(b, s), b.carved[s];
    var next := Cell(slabSize, s, ItemSize(c, slabSize), n);
    assert CellAt(b', slabSize, c, next, s, n);
    forall s': nat, k': nat | CellAt(b, slabSize, c, next, s', k')
      ensures s' == s && k' == n
    {
      assert CellAt(b', slabSize, c, next, s', k');
      if s' != s || k' != n {
        CellsApart(b', slabSize, c, next, s, n, c, next, s', k');
      }
    }
    forall c', a
      ensures IsCell(b', slabSize, c', a) <==> IsCell(b, slabSize, c', a) || (c' == c && a == next)
    {
      if IsCell(b, slabSize, c', a) {
        var s': nat, k': nat :| CellAt(b, slabSize, c', a, s', k');
        assert CellAt(b', slabSize, c', a, s', k');
      }
      if IsCell(b', slabSize, c', a) {
        var s': nat, k': nat :| CellAt(b', slabSize, c', a, s', k');
        assert s' != s || k' != n ==> CellAt(b, slabSize, c', a, s', k');
      }
    }
  }

  /** Giving a fresh slab to a class changes no items. */
  lemma {:induction false} OwnKeepsCells(b: Book, slabSize: nat, c: nat, s: nat)
    requires BookOk(b, slabSize) && s < |b.owner| && b.owner[s] == None && b.carved[s] == 0
    requires c < CLASSES && 0 < ItemSize(c, slabSize)
    ensures var b' := b.(owner := b.owner[s := Some(c)]);
      BookOk(b', slabSize) && forall c', a :: IsCell(b', slabSize, c', a) <==> IsCell(b, slabSize, c', a)
  {
    hide ItemSize, ClassCapacity, Cell;
    var b' := b.(owner := b.owner[s := Some(c)]);
    forall c', a
      ensures IsCell(b', slabSize, c', a) <==> IsCell(b, slabSize, c', a)
    {
      if IsCell(b, slabSize, c', a) {
        var s': nat, k': nat :| CellAt(b, slabSize, c', a, s', k');
        assert CellAt(b', slabSize, c', a, s', k');
      }
      if IsCell(b', slabSize, c', a) {
        var s': nat, k': nat :| CellAt(b', slabSize, c', a, s', k');
        assert CellAt(b, slabSize, c', a, s', k');
      }
    }
  }

  /** Every item of a class is either in use or on the class's free list, once. */
  ghost predicate ItemsOk(b: Book, slabSize: nat, freeLists: seq<seq<nat>>) {
    && |freeLists| == CLASSES == |b.live|
    && (forall c, a :: 0 <= c < CLASSES ==> (IsCell(b, slabSize, c, a) <==> a in b.live[c] || a in freeLists[c]))
    && (forall c, a :: 0 <= c < CLASSES && a in b.live[c] ==> a !in freeLists[c])
    && (forall c, i, j :: 0 <= c < CLASSES && 0 <= i < j < |freeLists[c]| ==> freeLists[c][i] != freeLists[c][j])
  }

  /** The fields of a slab say how much of it is carved. */
  ghost predicate SlabOk(b: Book, slabSize: nat, slabs: seq<Slab>, s: nat)
    requires s < |slabs| == |b.owner| == |b.carved|
  {
    match b.owner[s]
    case None => b.carved[s] == 0 && slabs[s].next == s * slabSize
    case Some(c) =>
      var item, n := ItemSize(c, slabSize), b.carved[s];
      && item > 0 && n <= ClassCapacity(c, slabSize)
      && slabs[s].next == Cell(slabSize, s, item, n) && slabs[s].itemSize == item
      && slabs[s].available == Available(slabSize, item) - n * item
  }

  ghost predicate SlabsOk(b: Book, slabSize: nat, slabs: seq<Slab>) {
    |slabs| == |b.owner| == |b.carved| && forall s :: 0 <= s < |slabs| ==> SlabOk(b, slabSize, slabs, s)
  }

  /** Free slabs belong to no class; the slabs of a class belong to it. */
  ghost predicate OwnersOk(b: Book, classSlabs: seq<seq<nat>>, freeSlabs: seq<nat>) {
    && |classSlabs| == CLASSES
    && (forall i :: 0 <= i < |freeSlabs| ==> freeSlabs[i] < |b.owner| && b.owner[freeSlabs[i]] == None)
    && (forall i, j :: 0 <= i < j < |freeSlabs| ==> freeSlabs[i] != freeSlabs[j])
    && (forall c, i :: 0 <= c < CLASSES && 0 <= i < |classSlabs[c]| ==>
          classSlabs[c][i] < |b.owner| && b.owner[classSlabs[c][i]] == Some(c))
  }

  /** The size of a class fits into 32 bits, or a slab yields at most one of its items. */
  ghost predicate ClassSafe(c: nat, slabSize: nat) {
    ClassSize(c, slabSize) < WORD || ClassCapacity(c, slabSize) <= 1
  }

  ghost predicate Safe(slabSize: nat) {
    forall c: nat :: c < CLASSES ==> ClassSafe(c, slabSize)
  }

  lemma {:induction false} SafeCellInSlab(slabSize: nat, s: nat, c: nat, k: nat)
    requires Safe(slabSize) && c < CLASSES && ItemSize(c, slabSize) > 0 && k < ClassCapacity(c, slabSize)
    ensures s * slabSize <= Cell(slabSize, s, ItemSize(c, slabSize), k)
    ensures Cell(slabSize, s, ItemSize(c, slabSize), k) + ClassSize(c, slabSize) <= (s + 1) * slabSize
  {
    CellInSlab(slabSize, s, ClassSize(c, slabSize), k);
    CellZero(slabSize, s, ItemSize(c, slabSize));
    hide Cell;
    assert ClassSafe(c, slabSize) && ClassSize(c, slabSize) <= slabSize;
    hide ClassSize, Capacity;
    assert (s + 1) * slabSize == s * slabSize + slabSize;
  }

  /** In safe slabs a live item has all the bytes of its class, and no two of them overlap. */
  lemma {:induction false} LiveItemsApart(b: Book, slabSize: nat, freeLists: seq<seq<nat>>, c: nat, a: nat, c': nat,
                                          a': nat)
    requires BookOk(b, slabSize) && ItemsOk(b, slabSize, freeLists) && Safe(slabSize)
    requires c < CLASSES && a in b.live[c] && c' < CLASSES && a' in b.live[c'] && (c != c' || a != a')
    ensures Apart(a, ClassSize(c, slabSize), a', ClassSize(c', slabSize))
    ensures a + ClassSize(c, slabSize) <= |b.owner| * slabSize
  {
    assert IsCell(b, slabSize, c, a) && IsCell(b, slabSize, c', a');
    hide Safe, Cell, ItemsOk, Capacity;
    var s: nat, k: nat :| CellAt(b, slabSize, c, a, s, k);
    var s': nat, k': nat :| CellAt(b, slabSize, c', a', s', k');
    SafeCellInSlab(slabSize, s, c, k);
    SafeCellInSlab(slabSize, s', c', k');
    MulMonotone(s + 1, |b.owner|, slabSize);
    if s < s' {
      SlabsApart(slabSize, s, s');
    } else if s' < s {
      SlabsApart(slabSize, s', s);
    } else {
      SameSlabApart(slabSize, s, c, k, k');
    }
  }

  lemma {:induction false} LiveItemInside(b: Book, slabSize: nat, freeLists: seq<seq<nat>>, c: nat, a: nat)
    requires BookOk(b, slabSize) && ItemsOk(b, slabSize, freeLists) && Safe(slabSize) && c < CLASSES && a in b.live[c]
    ensures a + ClassSize(c, slabSize) <= |b.owner| * slabSize
  {
    assert IsCell(b, slabSize, c, a);
    hide Safe, Cell, ItemsOk, Capacity;
    var s: nat, k: nat :| CellAt(b, slabSize, c, a, s, k);
    SafeCellInSlab(slabSize, s, c, k);
    MulMonotone(s + 1, |b.owner|, slabSize);
  }

  lemma {:induction false} SameSlabApart(slabSize: nat, s: nat, c: nat, j: nat, k: nat)
    requires Safe(slabSize) && c < CLASSES && j < ClassCapacity(c, slabSize) && k < ClassCapacity(c, slabSize) && j != k
    ensures var size, item := ClassSize(c, slabSize), ItemSize(c, slabSize);
      Apart(Cell(slabSize, s, item, j), size, Cell(slabSize, s, item, k), size)
  {
    hide Cell, Capacity;
    assert ClassSafe(c, slabSize);
    assert ClassSize(c, slabSize) < WORD;
    hide ClassSize;
    if j < k {
      CellsOfOneSlabApart(slabSize, s, ItemSize(c, slabSize), j, k);
    } else {
      CellsOfOneSlabApart(slabSize, s, ItemSize(c, slabSize), k, j);
    }
  }

  function Use(b: Book, c: nat, a: nat): Book
    requires c < |b.live|
  {
    b.(live := b.live[c := b.live[c] + {a}])
  }

  lemma {:induction false} SameCells(b: Book, b': Book, slabSize: nat)
    requires b'.owner == b.owner && b'.carved == b.carved
    ensures forall c, a :: IsCell(b', slabSize, c, a) <==> IsCell(b, slabSize, c, a)
  {
    forall c, a
      ensures IsCell(b', slabSize, c, a) <==> IsCell(b, slabSize, c, a)
    {
      assert forall s: nat, k: nat :: CellAt(b', slabSize, c, a, s, k) <==> CellAt(b, slabSize, c, a, s, k);
    }
  }

  /** What is in use does not matter for the slabs. */
  lemma {:induction false} LiveOnly(b: Book, b': Book, slabSize: nat, slabs: seq<Slab>, classSlabs: seq<seq<nat>>,
                                    freeSlabs: seq<nat>)
    requires b'.owner == b.owner && b'.carved == b.carved && |b'.live| == CLASSES
    requires BookOk(b, slabSize) && SlabsOk(b, slabSize, slabs) && OwnersOk(b, classSlabs, freeSlabs)
    ensures BookOk(b', slabSize) && SlabsOk(b', slabSize, slabs) && OwnersOk(b', classSlabs, freeSlabs)
  {
    hide ItemSize, ClassCapacity, Cell, Available;
    forall s | 0 <= s < |slabs|
      ensures SlabOk(b', slabSize, slabs, s)
    {
      assert SlabOk(b, slabSize, slabs, s);
    }
  }

  function EmptyBook(n: nat): (b: Book)
    ensures |b.live| == CLASSES && forall c :: 0 <= c < CLASSES ==> b.live[c] == {}
  {
    Book(seq(n, _ => None), seq(n, _ => 0), seq(CLASSES, _ => {}))
  }

  function FreshSlabs(n: nat, slabSize: nat): (slabs: seq<Slab>)
    ensures |slabs| == n
  {
    seq(n, s requires 0 <= s < n => Slab(s * slabSize, 0, 0))
  }

  function NoLists(): seq<seq<nat>> {
    seq(CLASSES, _ => [])
  }

  function AllIds(n: nat): seq<nat> {
    seq(n, s requires 0 <= s < n => s)
  }

  lemma {:induction false} NothingAllocated(n: nat, slabSize: nat)
    ensures BookOk(EmptyBook(n), slabSize) && SlabsOk(EmptyBook(n), slabSize, FreshSlabs(n, slabSize))
    ensures OwnersOk(EmptyBook(n), NoLists(), AllIds(n)) && ItemsOk(EmptyBook(n), slabSize, NoLists())
  {
    hide ItemSize, ClassCapacity, Cell, Available;
    assert forall c, a :: !IsCell(EmptyBook(n), slabSize, c, a);
  }

  /** An item from the free list goes into use. */
  lemma {:induction false} ReuseKeepsItems(b: Book, slabSize: nat, freeLists: seq<seq<nat>>, c: nat)
    requires ItemsOk(b, slabSize, freeLists) && c < CLASSES && freeLists[c] != []
    ensures ItemsOk(Use(b, c, freeLists[c][0]), slabSize, freeLists[c := freeLists[c][1..]])
    ensures freeLists[c][0] !in b.live[c]
  {
    var a, b', f' := freeLists[c][0], Use(b, c, freeLists[c][0]), freeLists[c := freeLists[c][1..]];
    SameCells(b, b', slabSize);
    hide IsCell;
    assert freeLists[c] == [a] + f'[c];
    assert a !in f'[c];
  }

  /** An item in use goes to the free list. */
  lemma {:induction false} FreeKeepsItems(b: Book, slabSize: nat, freeLists: seq<seq<nat>>, c: nat, a: nat)
    requires ItemsOk(b, slabSize, freeLists) && c < CLASSES && a in b.live[c]
    ensures ItemsOk(b.(live := b.live[c := b.live[c] - {a}]), slabSize, freeLists[c := freeLists[c] + [a]])
  {
    var b', f' := b.(live := b.live[c := b.live[c] - {a}]), freeLists[c := freeLists[c] + [a]];
    SameCells(b, b', slabSize);
    hide IsCell;
    assert forall x :: x in f'[c] <==> x in freeLists[c] || x == a;
  }

  /** A newly carved item goes into use. */
  lemma {:induction false} CarveKeepsItems(b: Book, slabSize: nat, freeLists: seq<seq<nat>>, c: nat, s: nat)
    requires BookOk(b, slabSize) && ItemsOk(b, slabSize, freeLists) && s < |b.owner| && c < CLASSES
      && b.owner[s] == Some(c)
    requires b.carved[s] < ClassCapacity(c, slabSize)
    ensures var a := Cell(slabSize, s, ItemSize(c, slabSize), b.carved[s]);
      var b' := Use(Carve(b, s), c, a);
      ItemsOk(b', slabSize, freeLists) && BookOk(b', slabSize) && a !in b.live[c]
  {
    CarveAddsCell(b, slabSize, c, s);
    var a := Cell(slabSize, s, ItemSize(c, slabSize), b.carved[s]);
    SameCells(Carve(b, s), Use(Carve(b, s), c, a), slabSize);
    hide IsCell, ItemSize, ClassCapacity, Cell;
  }

  lemma {:induction false} CarveKeepsSlabs(b: Book, slabSize: nat, slabs: seq<Slab>, c: nat, s: nat)
    requires SlabsOk(b, slabSize, slabs) && s < |slabs| && b.owner[s] == Some(c)
    ensures slabs[s].available >= slabs[s].itemSize <==> b.carved[s] < ClassCapacity(c, slabSize)
    ensures slabs[s].next == Cell(slabSize, s, ItemSize(c, slabSize), b.carved[s])
    ensures b.carved[s] < ClassCapacity(c, slabSize) ==>
      SlabsOk(Carve(b, s), slabSize, slabs[s := AllocFromSlab(slabs[s]).1])
  {
    assert SlabOk(b, slabSize, slabs, s);
    var item, n := ItemSize(c, slabSize), b.carved[s];
    RoomIff(slabSize, ClassSize(c, slabSize), n);
    CellNext(slabSize, s, item, n);
    assert (n + 1) * item == n * item + item;
    hide ClassSize, Cell, Available, Capacity;
    if n < ClassCapacity(c, slabSize) {
      var b', slabs' := Carve(b, s), slabs[s := AllocFromSlab(slabs[s]).1];
      forall t | 0 <= t < |slabs'|
        ensures SlabOk(b', slabSize, slabs', t)
      {
        assert SlabOk(b, slabSize, slabs, t);
      }
    }
  }

  lemma {:induction false} CarveKeepsOwners(b: Book, s: nat, classSlabs: seq<seq<nat>>, freeSlabs: seq<nat>)
    requires s < |b.carved| && OwnersOk(b, classSlabs, freeSlabs)
    ensures OwnersOk(Carve(b, s), classSlabs, freeSlabs)
  {
  }

  // ---------- the pool ----------

  /** `freeSlabs` are the free slabs up to the free slab index. */
  datatype Pool = Pool(slabSize: nat, slabs: seq<Slab>, classSlabs: seq<seq<nat>>, freeLists: seq<seq<nat>>,
                       freeSlabs: seq<nat>)

  datatype Outcome = Item(address: nat) | NoMemory | DivisionByZero

  ghost predicate Shape(p: Pool) {
    && |p.classSlabs| == CLASSES == |p.freeLists|
    && (forall c, i :: 0 <= c < CLASSES && 0 <= i < |p.classSlabs[c]| ==> p.classSlabs[c][i] < |p.slabs|)
    && (forall i :: 0 <= i < |p.freeSlabs| ==> p.freeSlabs[i] < |p.slabs|)
  }

  function CarveFrom(p: Pool, s: nat): (Option<nat>, Pool)
    requires s < |p.slabs|
  {
    var (a, slab) := AllocFromSlab(p.slabs[s]);
    (a, p.(slabs := p.slabs[s := slab]))
  }

  /** SlabClass::AllocItem. */
  function AllocFromClass(p: Pool, c: nat): (Option<nat>, Pool)
    requires Shape(p) && c < CLASSES
  {
    if p.freeLists[c] != [] then
      (Some(p.freeLists[c][0]), p.(freeLists := p.freeLists[c := p.freeLists[c][1..]]))
    else if p.classSlabs[c] == [] then (None, p)
    else CarveFrom(p, p.classSlabs[c][|p.classSlabs[c]| - 1])
  }

  /** The last free slab goes to a class. */
  function AddSlab(p: Pool, c: nat): Option<Pool>
    requires Shape(p) && c < CLASSES && p.freeSlabs != []
  {
    var n := |p.freeSlabs| - 1;
    var s := p.freeSlabs[n];
    match InitSlab(p.slabs[s], p.slabSize, ClassSize(c, p.slabSize))
    case None => None
    case Some(slab) =>
      Some(p.(slabs := p.slabs[s := slab], freeSlabs := p.freeSlabs[..n],
              classSlabs := p.classSlabs[c := p.classSlabs[c] + [s]]))
  }

  function Alloc(p: Pool, c: nat): (Outcome, Pool)
    requires Shape(p) && c < CLASSES
  {
    var (a, p1) := AllocFromClass(p, c);
    if a.Some? then (Item(a.value), p1)
    else if p.freeSlabs == [] then (NoMemory, p)
    else
      match AddSlab(p, c)
      case None => (DivisionByZero, p)
      case Some(p2) =>
        var (b, p3) := CarveFrom(p2, p.freeSlabs[|p.freeSlabs| - 1]);
        (if b.Some? then Item(b.value) else NoMemory, p3)
  }

  /** The last slab of a class can be carved once more. */
  ghost predicate HasRoom(p: Pool, c: nat)
    requires Shape(p) && c < CLASSES
  {
    var mine := p.classSlabs[c];
    mine != [] && p.slabs[mine[|mine| - 1]].available >= p.slabs[mine[|mine| - 1]].itemSize
  }

  /** Freed items are handed out again before anything is carved, oldest first; a slab is carved up
      before another is taken; and there is no memory only when all of that fails. */
  lemma {:induction false} AllocOrder(p: Pool, c: nat)
    requires Shape(p) && c < CLASSES
    ensures p.freeLists[c] != [] ==>
      Alloc(p, c) == (Item(p.freeLists[c][0]), p.(freeLists := p.freeLists[c := p.freeLists[c][1..]]))
    ensures p.freeLists[c] == [] && HasRoom(p, c) ==>
      var s := p.classSlabs[c][|p.classSlabs[c]| - 1];
      var slab := p.slabs[s];
      && Alloc(p, c).0 == Item(slab.next)
      && Alloc(p, c).1 == p.(slabs := p.slabs[s := Slab(slab.next + slab.itemSize, slab.itemSize,
                                                        slab.available - slab.itemSize)])
    ensures p.freeLists[c] == [] && !HasRoom(p, c) && p.freeSlabs == [] ==> Alloc(p, c) == (NoMemory, p)
    ensures p.freeLists[c] == [] && !HasRoom(p, c) && p.freeSlabs != [] ==>
      var n := |p.freeSlabs| - 1;
      var s := p.freeSlabs[n];
      var (r, p') := Alloc(p, c);
      if ClassSize(c, p.slabSize) % WORD == 0 then r == DivisionByZero && p' == p
      else
        && p'.freeSlabs == p.freeSlabs[..n] && p'.classSlabs == p.classSlabs[c := p.classSlabs[c] + [s]]
        && p' == p.(freeSlabs := p'.freeSlabs, classSlabs := p'.classSlabs, slabs := p.slabs[s := p'.slabs[s]])
        && r == if Available(p.slabSize, ClassSize(c, p.slabSize) % WORD) >= ClassSize(c, p.slabSize) % WORD
                then Item(p.slabs[s].next) else NoMemory
  {
    hide ClassSize, Available;
    var mine := p.classSlabs[c];
    if mine != [] {
      assert p.slabs[mine[|mine| - 1] := p.slabs[mine[|mine| - 1]]] == p.slabs;
    }
  }

  function Free(p: Pool, a: nat, c: nat): Pool
    requires c < |p.freeLists|
  {
    p.(freeLists := p.freeLists[c := p.freeLists[c] + [a]])
  }

  ghost predicate PoolOk(p: Pool, b: Book) {
    && BookOk(b, p.slabSize) && SlabsOk(b, p.slabSize, p.slabs) && OwnersOk(b, p.classSlabs, p.freeSlabs)
    && ItemsOk(b, p.slabSize, p.freeLists)
  }

  lemma {:induction false} OkHasShape(p: Pool, b: Book)
    requires PoolOk(p, b)
    ensures Shape(p) && |b.owner| == |p.slabs| && |b.live| == CLASSES
  {
    hide ItemSize, ClassCapacity, Cell, Available, IsCell;
  }

  lemma {:induction false} CarveOk(p: Pool, b: Book, c: nat, s: nat) returns (b': Book)
    requires PoolOk(p, b) && c < CLASSES && s < |p.slabs| && s < |b.owner| && b.owner[s] == Some(c)
    ensures CarveFrom(p, s).0.Some? <==> b.carved[s] < ClassCapacity(c, p.slabSize)
    ensures PoolOk(CarveFrom(p, s).1, b')
    ensures match CarveFrom(p, s).0
      case None => CarveFrom(p, s).1 == p && b'.live == b.live
      case Some(a) => |b.live| == CLASSES && a !in b.live[c] && b'.live == b.live[c := b.live[c] + {a}]
  {
    CarveKeepsSlabs(b, p.slabSize, p.slabs, c, s);
    hide ItemSize, ClassCapacity, Cell, Available, IsCell;
    assert p.slabs[s := p.slabs[s]] == p.slabs;
    b' := b;
    if b.carved[s] < ClassCapacity(c, p.slabSize) {
      var p' := CarveFrom(p, s).1;
      CarveKeepsItems(b, p.slabSize, p.freeLists, c, s);
      CarveKeepsOwners(b, s, p.classSlabs, p.freeSlabs);
      b' := Use(Carve(b, s), c, p.slabs[s].next);
      hide ItemsOk, SlabsOk, OwnersOk;
      LiveOnly(Carve(b, s), b', p.slabSize, p'.slabs, p.classSlabs, p.freeSlabs);
    }
  }

  lemma {:induction false} AddSlabOk(p: Pool, b: Book, c: nat) returns (b': Book)
    requires PoolOk(p, b) && Shape(p) && c < CLASSES && p.freeSlabs != [] && ItemSize(c, p.slabSize) > 0
    ensures AddSlab(p, c).Some? && PoolOk(AddSlab(p, c).value, b') && b'.live == b.live
    ensures var s := p.freeSlabs[|p.freeSlabs| - 1];
      s < |b'.owner| == |b'.carved| && b'.owner[s] == Some(c) && b'.carved[s] == 0
  {
    var n := |p.freeSlabs| - 1;
    var s, p' := p.freeSlabs[n], AddSlab(p, c).value;
    assert SlabOk(b, p.slabSize, p.slabs, s);
    OwnKeepsCells(b, p.slabSize, c, s);
    CellZero(p.slabSize, s, ItemSize(c, p.slabSize));
    b' := b.(owner := b.owner[s := Some(c)]);
    hide ClassSize, Cell, Available, Capacity, IsCell;
    forall t | 0 <= t < |p'.slabs|
      ensures SlabOk(b', p.slabSize, p'.slabs, t)
    {
      assert SlabOk(b, p.slabSize, p.slabs, t);
    }
  }

  /** What one allocation does: an item that was not in use, or none because nothing is left for the
      class, or a division by zero. */
  lemma {:induction false} AllocOk(p: Pool, b: Book, c: nat) returns (b': Book)
    requires PoolOk(p, b) && Shape(p) && c < CLASSES
    ensures PoolOk(Alloc(p, c).1, b') && |b.live| == CLASSES
    ensures match Alloc(p, c).0
      case Item(a) => a !in b.live[c] && b'.live == b.live[c := b.live[c] + {a}]
      case NoMemory =>
        && b'.live == b.live && p.freeLists[c] == []
        && (p.freeSlabs == [] || ClassCapacity(c, p.slabSize) == 0)
      case DivisionByZero => b'.live == b.live && p.freeLists[c] == [] && ItemSize(c, p.slabSize) == 0
  {
    hide ItemSize, ClassCapacity, Cell, Available, IsCell, SlabsOk;
    if p.freeLists[c] != [] {
      b' := ReuseOk(p, b, c);
      return;
    }
    b' := b;
    if p.classSlabs[c] != [] {
      OkHasShape(p, b);
      b' := CarveOk(p, b, c, p.classSlabs[c][|p.classSlabs[c]| - 1]);
      if AllocFromClass(p, c).0.Some? {
        return;
      }
      b' := b;
    }
    if p.freeSlabs != [] {
      b' := NewSlabOk(p, b, c);
    }
  }

  lemma {:induction false} ReuseOk(p: Pool, b: Book, c: nat) returns (b': Book)
    requires PoolOk(p, b) && Shape(p) && c < CLASSES && p.freeLists[c] != []
    ensures PoolOk(AllocFromClass(p, c).1, b') && |b.live| == CLASSES
    ensures p.freeLists[c][0] !in b.live[c] && b'.live == b.live[c := b.live[c] + {p.freeLists[c][0]}]
  {
    ReuseKeepsItems(b, p.slabSize, p.freeLists, c);
    b' := Use(b, c, p.freeLists[c][0]);
    hide ItemsOk, SlabsOk, OwnersOk;
    LiveOnly(b, b', p.slabSize, p.slabs, p.classSlabs, p.freeSlabs);
  }

  lemma {:induction false} NewSlabOk(p: Pool, b: Book, c: nat) returns (b': Book)
    requires PoolOk(p, b) && Shape(p) && c < CLASSES && p.freeSlabs != []
    ensures ItemSize(c, p.slabSize) == 0 ==> AddSlab(p, c).None? && b' == b
    ensures ItemSize(c, p.slabSize) > 0 ==>
      && |b.live| == CLASSES && AddSlab(p, c).Some?
      && var (a, p') := CarveFrom(AddSlab(p, c).value, p.freeSlabs[|p.freeSlabs| - 1]);
         && PoolOk(p', b') && (a.None? ==> b'.live == b.live && ClassCapacity(c, p.slabSize) == 0)
         && (a.Some? ==> a.value !in b.live[c] && b'.live == b.live[c := b.live[c] + {a.value}])
  {
    b' := b;
    if ItemSize(c, p.slabSize) > 0 {
      var b1 := AddSlabOk(p, b, c);
      hide ItemSize, ClassCapacity, Cell, Available, IsCell, BookOk, ItemsOk, SlabsOk, OwnersOk;
      b' := CarveOk(AddSlab(p, c).value, b1, c, p.freeSlabs[|p.freeSlabs| - 1]);
    }
  }

  lemma {:induction false} FreeOk(p: Pool, b: Book, c: nat, a: nat) returns (b': Book)
    requires PoolOk(p, b) && Shape(p) && c < CLASSES == |b.live| && a in b.live[c]
    ensures PoolOk(Free(p, a, c), b') && b'.live == b.live[c := b.live[c] - {a}]
  {
    FreeKeepsItems(b, p.slabSize, p.freeLists, c, a);
    b' := b.(live := b.live[c := b.live[c] - {a}]);
    hide ItemsOk, SlabsOk, OwnersOk;
    LiveOnly(b, b', p.slabSize, p.slabs, p.classSlabs, p.freeSlabs);
  }

  // ---------- runs ----------

  /** `live` are the addresses handed out and not given back, per class. */
  datatype State = State(p: Pool, live: seq<set<nat>>, crashed: bool)

  function StartPool(slabSize: nat, n: nat): Pool {
    Pool(slabSize, FreshSlabs(n, slabSize), NoLists(), NoLists(), AllIds(n))
  }

  ghost function Start(slabSize: nat, n: nat): State {
    State(StartPool(slabSize, n), seq(CLASSES, _ => {}), false)
  }

  ghost predicate AllocStep(s: State, s': State, c: nat) {
    && !s.crashed && Shape(s.p) && c < CLASSES == |s.live|
    && var (o, p') := Alloc(s.p, c);
       s' == match o
             case Item(a) => State(p', s.live[c := s.live[c] + {a}], false)
             case NoMemory => State(p', s.live, false)
             case DivisionByZero => State(p', s.live, true)
  }

  /** Only items in use are given back. */
  ghost predicate FreeStep(s: State, s': State, c: nat, a: nat) {
    && !s.crashed && c < CLASSES == |s.live| == |s.p.freeLists| && a in s.live[c]
    && s' == State(Free(s.p, a, c), s.live[c := s.live[c] - {a}], false)
  }

  ghost predicate Next(s: State, s': State) {
    (exists c: nat :: AllocStep(s, s', c)) || (exists c: nat, a: nat :: FreeStep(s, s', c, a))
  }

  ghost predicate Run(trace: seq<State>, slabSize: nat, n: nat) {
    && |trace| > 0 && trace[0] == Start(slabSize, n)
    && forall i :: 0 <= i < |trace| - 1 ==> Next(trace[i], trace[i + 1])
  }

  ghost predicate Accounted(p: Pool, live: seq<set<nat>>) {
    exists b :: PoolOk(p, b) && b.live == live
  }

  ghost predicate Inv(s: State, slabSize: nat, n: nat) {
    s.p.slabSize == slabSize && |s.p.slabs| == n && Accounted(s.p, s.live)
  }

  lemma {:induction false} StartInv(slabSize: nat, n: nat)
    ensures Inv(Start(slabSize, n), slabSize, n)
  {
    NothingAllocated(n, slabSize);
    hide BookOk, SlabsOk, OwnersOk, ItemsOk;
    assert PoolOk(StartPool(slabSize, n), EmptyBook(n)) && EmptyBook(n).live == Start(slabSize, n).live;
  }

  lemma {:induction false} AllocKeepsSize(p: Pool, c: nat)
    requires Shape(p) && c < CLASSES
    ensures Alloc(p, c).1.slabSize == p.slabSize && |Alloc(p, c).1.slabs| == |p.slabs|
  {
    hide InitSlab, AllocFromSlab, ClassSize;
  }

  lemma {:induction false} NextInv(s: State, s': State, slabSize: nat, n: nat)
    requires Inv(s, slabSize, n) && Next(s, s')
    ensures Inv(s', slabSize, n)
    ensures s'.crashed ==> exists c :: 0 <= c < CLASSES && ItemSize(c, slabSize) == 0
  {
    hide PoolOk, Alloc, ItemSize, Shape;
    var b :| PoolOk(s.p, b) && b.live == s.live;
    OkHasShape(s.p, b);
    if c: nat :| AllocStep(s, s', c) {
      AllocKeepsSize(s.p, c);
      var b' := AllocOk(s.p, b, c);
      assert PoolOk(s'.p, b') && b'.live == s'.live;
    } else {
      var c: nat, a: nat :| FreeStep(s, s', c, a);
      var b' := FreeOk(s.p, b, c, a);
      assert PoolOk(s'.p, b') && b'.live == s'.live;
    }
  }

  lemma {:induction false} RunInv(trace: seq<State>, slabSize: nat, n: nat, i: nat)
    requires Run(trace, slabSize, n) && i < |trace|
    ensures Inv(trace[i], slabSize, n)
    ensures trace[i].crashed ==> exists c :: 0 <= c < CLASSES && ItemSize(c, slabSize) == 0
  {
    hide Inv, Next, ItemSize;
    if i == 0 {
      StartInv(slabSize, n);
    } else {
      RunInv(trace, slabSize, n, i - 1);
      NextInv(trace[i - 1], trace[i], slabSize, n);
    }
  }

  // ---------- items stay apart ----------

  /** No two items in use overlap, and every one lies inside the partition, with the bytes that its
      class promises. */
  ghost predicate LiveApart(s: State) {
    && |s.live| == CLASSES
    && (forall c, a :: 0 <= c < CLASSES && a in s.live[c] ==>
          a + ClassSize(c, s.p.slabSize) <= |s.p.slabs| * s.p.slabSize)
    && (forall c, a, c', a' ::
          0 <= c < CLASSES && a in s.live[c] && 0 <= c' < CLASSES && a' in s.live[c'] && (c != c' || a != a') ==>
            Apart(a, ClassSize(c, s.p.slabSize), a', ClassSize(c', s.p.slabSize)))
  }

  lemma {:induction false} SafeLiveApart(s: State, slabSize: nat, n: nat)
    requires Inv(s, slabSize, n) && Safe(slabSize)
    ensures LiveApart(s)
  {
    hide Safe, ClassSize, BookOk, SlabsOk, OwnersOk, ItemsOk, Apart;
    var b :| PoolOk(s.p, b) && b.live == s.live;
    OkHasShape(s.p, b);
    forall c, a | 0 <= c < CLASSES && a in s.live[c]
      ensures a + ClassSize(c, slabSize) <= |s.p.slabs| * slabSize
    {
      LiveItemInside(b, slabSize, s.p.freeLists, c, a);
    }
    forall c, a, c', a' | 0 <= c < CLASSES && a in s.live[c] && 0 <= c' < CLASSES && a' in s.live[c']
                          && (c != c' || a != a')
      ensures Apart(a, ClassSize(c, slabSize), a', ClassSize(c', slabSize))
    {
      LiveItemsApart(b, slabSize, s.p.freeLists, c, a, c', a');
    }
  }

  /** A new pool gives the first two items of a class out of one slab. */
  lemma {:induction false} FirstTwoItems(slabSize: nat, n: nat, c: nat) returns (trace: seq<State>)
    requires n > 0 && c < CLASSES && ItemSize(c, slabSize) > 0 && ClassCapacity(c, slabSize) >= 2
    ensures Run(trace, slabSize, n) && |trace| == 3 && |trace[2].live| == CLASSES && trace[2].p.slabSize == slabSize
    ensures var a := (n - 1) * slabSize; trace[2].live[c] == {a, a + ItemSize(c, slabSize)}
  {
    var s0, item := Start(slabSize, n), ItemSize(c, slabSize);
    var a, avail := (n - 1) * slabSize, Available(slabSize, item);
    RoomIff(slabSize, ClassSize(c, slabSize), 0);
    RoomIff(slabSize, ClassSize(c, slabSize), 1);
    hide Available, Capacity, ClassSize;
    var (o1, p1) := Alloc(s0.p, c);
    assert o1 == Item(a) && p1.freeLists[c] == [] && p1.classSlabs[c] == [n - 1];
    assert p1.slabs[n - 1] == Slab(a + item, item, avail - item);
    var s1 := State(p1, s0.live[c := s0.live[c] + {a}], false);
    assert Shape(p1) && AllocStep(s0, s1, c);
    var (o2, p2) := Alloc(p1, c);
    assert o2 == Item(a + item);
    var s2 := State(p2, s1.live[c := s1.live[c] + {a + item}], false);
    assert AllocStep(s1, s2, c);
    trace := [s0, s1, s2];
  }

  lemma {:induction false} UnsafeClass(slabSize: nat) returns (c: nat)
    requires !Safe(slabSize)
    ensures c < CLASSES && ClassSize(c, slabSize) >= WORD && ClassCapacity(c, slabSize) >= 2
    ensures ItemSize(c, slabSize) > 0
  {
    c :| c < CLASSES && !ClassSafe(c, slabSize);
  }

  lemma {:induction false} OverlappingPair(s: State, slabSize: nat, c: nat, a: nat)
    requires |s.live| == CLASSES && s.p.slabSize == slabSize && c < CLASSES && ClassSize(c, slabSize) >= WORD
    requires ItemSize(c, slabSize) > 0 && s.live[c] == {a, a + ItemSize(c, slabSize)}
    ensures !LiveApart(s)
  {
    var size, item := ClassSize(c, slabSize), ItemSize(c, slabSize);
    assert item < WORD && !Apart(a, size, a + item, size);
  }

  // ---------- which slab sizes are safe ----------

  /** The 32-bit arithmetic of Init rounds the slab down to whole items, modulo 2^32. */
  lemma {:induction false} AvailableIs(slabSize: nat, item: nat)
    requires item > 0
    ensures Available(slabSize, item) == (slabSize - slabSize % item) % WORD
  {
    QuotientNonNegative(slabSize, item);
    var q := slabSize / item;
    ProductMod(item, q);
    assert slabSize == item * q + slabSize % item;
  }

  lemma {:induction false} ProductMod(a: nat, b: nat)
    ensures a * (b % WORD) % WORD == a * b % WORD
  {
    QuotientNonNegative(b, WORD);
    var t: nat := b / WORD;
    assert b == WORD * t + b % WORD;
    assert a * b == a * (b % WORD) + WORD * (a * t);
    AddMultiple(a * (b % WORD), a * t);
  }

  lemma {:induction false} AddMultiple(x: nat, t: nat)
    ensures (x + WORD * t) % WORD == x % WORD
  {
  }

  /** The class that holds a slab whole gets one item if its size divides evenly, and else none. */
  lemma {:induction false} WholeSlabCapacity(slabSize: nat)
    requires slabSize >= WORD && slabSize % WORD > 0
    ensures Capacity(slabSize, slabSize) == if slabSize % (slabSize % WORD) == 0 then 1 else 0
  {
    QuotientNonNegative(slabSize, WORD);
    var r, t: nat := slabSize % WORD, slabSize / WORD;
    var rest := slabSize % r;
    AvailableIs(slabSize, r);
    assert slabSize - rest == (r - rest) + WORD * t;
    AddMultiple(r - rest, t);
    SmallMod(r - rest);
    hide Available;
    WholeOrNone(r - rest, r);
  }

  lemma {:induction false} SmallMod(x: nat)
    requires x < WORD
    ensures x % WORD == x
  {
  }

  lemma {:induction false} WholeOrNone(x: nat, r: nat)
    requires 0 < x <= r
    ensures x / r == if x == r then 1 else 0
  {
    assert x == r * (x / r) + x % r;
  }

  /** Two items of class size `size` MiB out of one slab, `item` MiB apart. */
  predicate Fits(slabSize: nat, size: nat, item: nat)
    requires item > 0
  {
    size * MIB <= slabSize ==> (slabSize - slabSize % (item * MIB)) % WORD < 2 * (item * MIB)
  }

  /** Only three classes can overlap: the others are below 2^32 bytes, whole slabs, or have items of
      half of 2^32 bytes and more, or none. */
  predicate SafeSize(slabSize: nat) {
    Fits(slabSize, 4800, 704) && Fits(slabSize, 9600, 1408) && Fits(slabSize, 38400, 1536)
  }

  lemma {:induction false} TwoItemsIff(slabSize: nat, size: nat)
    requires size % WORD > 0
    ensures var item := size % WORD;
      Capacity(slabSize, size) <= 1 <==> (slabSize - slabSize % item) % WORD < 2 * item
  {
    var item := size % WORD;
    AvailableIs(slabSize, item);
    var left := Available(slabSize, item);
    hide Available;
    assert left == item * (left / item) + left % item;
    var q := left / item;
    QuotientNonNegative(left, item);
    if q >= 2 {
      MulMonotone(2, q, item);
    } else {
      MulMonotone(q, 1, item);
    }
  }

  lemma {:induction false} LargePowers()
    ensures Pow2(21) == 0x20_0000 && Pow2(22) == 0x40_0000 && Pow2(23) == 0x80_0000 && Pow2(24) == 0x100_0000
    ensures Pow2(25) == 0x200_0000 && Pow2(26) == 0x400_0000 && Pow2(27) == 0x800_0000 && Pow2(28) == 0x1000_0000
  {
    Pow2Of22();
    assert Pow2(22) == 2 * Pow2(21);
  }

  /** From class 28 on sizes are multiples of 2^32. */
  lemma {:induction false} HugeClass(c: nat)
    requires c >= 28
    ensures SMALLEST * Pow2(c) % WORD == 0 && SMALLEST * Pow2(c) >= 75 * WORD
  {
    if c == 28 {
      LargePowers();
    } else {
      HugeClass(c - 1);
      assert SMALLEST * Pow2(c) == 2 * (SMALLEST * Pow2(c - 1));
      DoubleMod(SMALLEST * Pow2(c - 1));
    }
  }

  lemma {:induction false} DoubleMod(x: nat)
    requires x % WORD == 0
    ensures 2 * x % WORD == 0
  {
  }

  lemma {:induction false} CappedSafe(c: nat, slabSize: nat)
    requires SMALLEST * Pow2(c) > slabSize
    ensures ClassSafe(c, slabSize)
  {
    if slabSize >= WORD && slabSize % WORD > 0 {
      WholeSlabCapacity(slabSize);
    }
  }

  /** A class of a whole number of MiB. */
  lemma {:induction false} LargeSafeIff(c: nat, slabSize: nat, size: nat, item: nat)
    requires SMALLEST * Pow2(c) == size * MIB >= WORD && size * MIB % WORD == item * MIB && item > 0
    ensures ClassSafe(c, slabSize) <==> Fits(slabSize, size, item)
    ensures item >= 2048 ==> ClassSafe(c, slabSize)
  {
    if size * MIB <= slabSize {
      TwoItemsIff(slabSize, size * MIB);
      hide Capacity;
    } else {
      CappedSafe(c, slabSize);
    }
  }

  lemma {:induction false} ClassSafeIff(c: nat, slabSize: nat)
    requires c < CLASSES
    ensures ClassSafe(c, slabSize) <==>
      && (c == 22 ==> Fits(slabSize, 4800, 704)) && (c == 23 ==> Fits(slabSize, 9600, 1408))
      && (c == 25 ==> Fits(slabSize, 38400, 1536))
  {
    LargePowers();
    hide Capacity, Pow2, Fits, ClassSafe;
    if c <= 21 {
      SmallClassSafe(c, slabSize);
    } else if c == 22 {
      LargeSafeIff(c, slabSize, 4800, 704);
    } else if c == 23 {
      LargeSafeIff(c, slabSize, 9600, 1408);
    } else if c == 24 {
      LargeSafeIff(c, slabSize, 19200, 2816);
    } else if c == 25 {
      LargeSafeIff(c, slabSize, 38400, 1536);
    } else if c == 26 {
      LargeSafeIff(c, slabSize, 76800, 3072);
    } else if c == 27 {
      LargeSafeIff(c, slabSize, 153600, 2048);
    } else {
      HugeClassSafe(c, slabSize);
    }
  }

  lemma {:induction false} SmallClassSafe(c: nat, slabSize: nat)
    requires c <= 21
    ensures ClassSafe(c, slabSize)
  {
    LargePowers();
    Pow2Grows(c, 21);
    hide Capacity;
  }

  lemma {:induction false} HugeClassSafe(c: nat, slabSize: nat)
    requires c >= 28
    ensures ClassSafe(c, slabSize)
  {
    HugeClass(c);
    if SMALLEST * Pow2(c) > slabSize {
      CappedSafe(c, slabSize);
    }
  }

  /** Which slab sizes keep items apart. */
  lemma {:induction false} SafeIff(slabSize: nat)
    ensures Safe(slabSize) <==> SafeSize(slabSize)
  {
    hide Fits, ClassSafe;
    forall c: nat | c < CLASSES
      ensures ClassSafe(c, slabSize) <==>
        && (c == 22 ==> Fits(slabSize, 4800, 704)) && (c == 23 ==> Fits(slabSize, 9600, 1408))
        && (c == 25 ==> Fits(slabSize, 38400, 1536))
    {
      ClassSafeIff(c, slabSize);
    }
    assert Safe(slabSize) ==> ClassSafe(22, slabSize) && ClassSafe(23, slabSize) && ClassSafe(25, slabSize);
  }

  ghost predicate AlwaysApart(slabSize: nat, n: nat) {
    forall trace: seq<State>, i :: Run(trace, slabSize, n) && 0 <= i < |trace| ==> LiveApart(trace[i])
  }

  /** Over all runs, items in use stay apart if and only if no class of 2^32 bytes or more gets two
      items out of a slab; and which slab sizes these are. */
  lemma {:induction false} AlwaysApartIff(slabSize: nat, n: nat)
    requires n > 0
    ensures AlwaysApart(slabSize, n) <==> Safe(slabSize)
    ensures AlwaysApart(slabSize, n) <==> SafeSize(slabSize)
  {
    SafeIff(slabSize);
    hide Run, LiveApart, Safe, SafeSize, Inv;
    if Safe(slabSize) {
      forall trace: seq<State>, i | Run(trace, slabSize, n) && 0 <= i < |trace|
        ensures LiveApart(trace[i])
      {
        RunInv(trace, slabSize, n, i);
        SafeLiveApart(trace[i], slabSize, n);
      }
    } else {
      var c := UnsafeClass(slabSize);
      var trace := FirstTwoItems(slabSize, n, c);
      OverlappingPair(trace[2], slabSize, c, (n - 1) * slabSize);
    }
  }

  lemma {:induction false} Class22()
    ensures var slabSize := 5632 * MIB;
      && ClassSize(22, slabSize) == 4800 * MIB && ItemSize(22, slabSize) == 704 * MIB
      && Available(slabSize, 704 * MIB) == 1536 * MIB
  {
    LargePowers();
    AvailableIs(5632 * MIB, 704 * MIB);
    hide Available, Pow2;
  }

  /** Slabs of 5632 MiB: two items of 4800 MiB are handed out 704 MiB apart. */
  lemma {:induction false} LargeSlabItemsOverlap()
    ensures var slabSize := 5632 * MIB;
      var p := StartPool(slabSize, 1);
      && Shape(p) && Shape(Alloc(p, 22).1) && ClassSize(22, slabSize) == 4800 * MIB
      && Alloc(p, 22).0 == Item(0) && Alloc(Alloc(p, 22).1, 22).0 == Item(704 * MIB)
      && !Apart(0, ClassSize(22, slabSize), 704 * MIB, ClassSize(22, slabSize))
  {
    Class22();
    hide Available, ClassSize;
    var p := StartPool(5632 * MIB, 1);
    var p1 := Alloc(p, 22).1;
    assert p1.freeLists[22] == [] && p1.classSlabs[22] == [0];
    assert p1.slabs[0] == Slab(704 * MIB, 704 * MIB, 832 * MIB);
  }

  // ---------- division by zero ----------

  ghost predicate NeverCrashes(slabSize: nat, n: nat) {
    forall trace: seq<State>, i :: Run(trace, slabSize, n) && 0 <= i < |trace| ==> !trace[i].crashed
  }

  lemma {:induction false} FirstAllocCrashes(slabSize: nat, n: nat, c: nat) returns (trace: seq<State>)
    requires n > 0 && c < CLASSES && ItemSize(c, slabSize) == 0
    ensures Run(trace, slabSize, n) && |trace| == 2 && trace[1].crashed
  {
    var s := Start(slabSize, n);
    var s' := State(Alloc(s.p, c).1, s.live, true);
    assert Alloc(s.p, c).0 == DivisionByZero && AllocStep(s, s', c);
    trace := [s, s'];
  }

  lemma {:induction false} ZeroItemIff(slabSize: nat)
    requires MIB <= slabSize < LIMIT
    ensures (exists c :: 0 <= c < CLASSES && ItemSize(c, slabSize) == 0) <==>
      slabSize % WORD == 0 || slabSize >= 75 * WORD
  {
    LargePowers();
    if slabSize % WORD == 0 {
      LastClassIsSlab(slabSize);
      assert ItemSize(CLASSES - 1, slabSize) == 0;
    } else if slabSize >= 75 * WORD {
      HugeClass(28);
      assert ItemSize(28, slabSize) == 0;
    } else {
      forall c | 0 <= c < CLASSES
        ensures ItemSize(c, slabSize) != 0
      {
        NonZeroItem(c, slabSize);
      }
    }
  }

  lemma {:induction false} NonZeroItem(c: nat, slabSize: nat)
    requires MIB <= slabSize < 75 * WORD && slabSize % WORD != 0
    ensures ItemSize(c, slabSize) != 0
  {
    LargePowers();
    if c <= 21 {
      Pow2Grows(0, c);
      Pow2Grows(c, 21);
    } else if c >= 28 {
      HugeClass(c);
    } else {
      MiddleItem(c);
    }
  }

  lemma {:induction false} MiddleItem(c: nat)
    requires 22 <= c <= 27
    ensures SMALLEST * Pow2(c) % WORD != 0
  {
    LargePowers();
  }

  /** Over all runs, no allocation divides by zero if and only if the slab size is no multiple of 4 GiB
      and below 300 GiB. */
  lemma {:induction false} NeverCrashesIff(slabSize: nat, n: nat)
    requires MIB <= slabSize < LIMIT && n > 0
    ensures NeverCrashes(slabSize, n) <==> slabSize % WORD != 0 && slabSize < 75 * WORD
  {
    ZeroItemIff(slabSize);
    hide Run, ItemSize, Inv;
    if c: nat :| c < CLASSES && ItemSize(c, slabSize) == 0 {
      var trace := FirstAllocCrashes(slabSize, n, c);
      assert trace[1].crashed;
    } else {
      forall trace: seq<State>, i | Run(trace, slabSize, n) && 0 <= i < |trace|
        ensures !trace[i].crashed
      {
        RunInv(trace, slabSize, n, i);
      }
    }
  }

  /** Init keeps the size of a class and yields all items that fit. */
  predicate InitExact(slabSize: nat, size: nat) {
    size % WORD == size > 0 && Available(slabSize, size) == size * (slabSize / size)
  }

  /** That holds for every class if and only if slabs are below 4 GiB. */
  lemma {:induction false} ItemsFitIff(slabSize: nat)
    requires MIB <= slabSize < LIMIT
    ensures (forall c :: 0 <= c < CLASSES ==> InitExact(slabSize, ClassSize(c, slabSize))) <==> slabSize < WORD
  {
    if slabSize < WORD {
      forall c | 0 <= c < CLASSES
        ensures InitExact(slabSize, ClassSize(c, slabSize))
      {
        ClassSizesAscend(c, c, slabSize);
        hide ClassSize;
        ExactBelow(slabSize, ClassSize(c, slabSize));
      }
    } else {
      LastClassIsSlab(slabSize);
      assert !InitExact(slabSize, ClassSize(CLASSES - 1, slabSize));
    }
  }

  lemma {:induction false} ExactBelow(slabSize: nat, size: nat)
    requires 0 < size <= slabSize < WORD
    ensures InitExact(slabSize, size)
  {
    AvailableIs(slabSize, size);
    hide Available;
    assert slabSize == size * (slabSize / size) + slabSize % size;
  }

  // ---------- the code ----------

  function WholeSlabs(dataSize: nat, slabSize: nat): nat
    requires slabSize > 0
  {
    QuotientNonNegative(dataSize, slabSize);
    dataSize / slabSize
  }

  class PartitionedMemManager {
    const slabSize: nat
    var sizes: seq<nat>
    var slabs: seq<Slab>
    var classSlabs: seq<seq<nat>>
    var freeLists: seq<seq<nat>>
    var freeSlabs: seq<nat>
    /** The items in use, per class. */
    ghost var live: seq<set<nat>>

    function Value(): Pool
      reads this
    {
      Pool(slabSize, slabs, classSlabs, freeLists, freeSlabs)
    }

    ghost predicate Valid()
      reads this
    {
      && MIB <= slabSize < LIMIT && Shape(Value()) && Accounted(Value(), live) && |live| == CLASSES
      && |sizes| == CLASSES && (forall c :: 0 <= c < CLASSES ==> sizes[c] == ClassSize(c, slabSize) > 0)
    }

    constructor (slabSize: nat, dataSize: nat)
      requires MIB <= slabSize < LIMIT
      ensures Valid() && Value() == StartPool(slabSize, WholeSlabs(dataSize, slabSize))
      ensures forall c :: 0 <= c < CLASSES ==> live[c] == {}
    {
      this.slabSize := slabSize;
      var n := WholeSlabs(dataSize, slabSize);
      slabs := FreshSlabs(n, slabSize);
      freeSlabs, classSlabs, freeLists := AllIds(n), NoLists(), NoLists();
      live := seq(CLASSES, _ => {});
      sizes := [];
      new;
      StartInv(slabSize, n);
      hide ClassSize, Accounted;
      InitSizes();
    }

    method InitSizes()
      requires MIB <= slabSize < LIMIT
      modifies this`sizes
      ensures |sizes| == CLASSES && forall c :: 0 <= c < CLASSES ==> sizes[c] == ClassSize(c, slabSize) > 0
    {
      sizes := [];
      var size := SMALLEST;
      for i := 0 to CLASSES
        invariant |sizes| == i && size == ClassSize(i, slabSize)
        invariant forall c :: 0 <= c < i ==> sizes[c] == ClassSize(c, slabSize) > 0
      {
        ClassSizesAscend(i, i, slabSize);
        sizes := sizes + [size];
        size := size * 2;
        if size > slabSize {
          size := slabSize;
        }
        NextSize(i, slabSize);
      }
    }

    /** The smallest class that holds the size; the search stops in time. */
    method SlabClassId(size: nat) returns (id: nat)
      requires Valid() && 0 < size <= slabSize
      ensures id < CLASSES && size <= ClassSize(id, slabSize)
      ensures forall c :: 0 <= c < id ==> ClassSize(c, slabSize) < size
    {
      hide ClassSize, Accounted, Shape;
      LastClassIsSlab(slabSize);
      id := 0;
      while size > sizes[id]
        invariant id < CLASSES && forall c :: 0 <= c < id ==> ClassSize(c, slabSize) < size
        decreases CLASSES - id
      {
        id := id + 1;
      }
    }

    method SlabAllocItem(s: nat) returns (item: Option<nat>)
      requires s < |slabs|
      modifies this`slabs
      ensures (item, Value()) == CarveFrom(old(Value()), s)
    {
      if slabs[s].available < slabs[s].itemSize {
        assert slabs[s := slabs[s]] == slabs;
        return None;
      }
      var slab := slabs[s];
      item := Some(slab.next);
      slab := slab.(next := slab.next + slab.itemSize);
      slab := slab.(available := slab.available - slab.itemSize);
      slabs := slabs[s := slab];
    }

    method ClassAllocItem(c: nat) returns (item: Option<nat>)
      requires Shape(Value()) && c < CLASSES
      modifies this`slabs, this`freeLists
      ensures (item, Value()) == AllocFromClass(old(Value()), c)
    {
      if freeLists[c] != [] {
        item := Some(freeLists[c][0]);
        freeLists := freeLists[c := freeLists[c][1..]];
        return;
      }
      if classSlabs[c] == [] {
        return None;
      }
      item := SlabAllocItem(classSlabs[c][|classSlabs[c]| - 1]);
    }

    /** The last free slab goes to the class; not ok if Init divides by zero. */
    method GrabSlab(c: nat) returns (ok: bool, s: nat)
      requires Valid() && c < CLASSES && freeSlabs != []
      modifies this`slabs, this`freeSlabs, this`classSlabs
      ensures s == old(freeSlabs)[|old(freeSlabs)| - 1] && s < |slabs|
      ensures ok <==> AddSlab(old(Value()), c).Some?
      ensures ok ==> AddSlab(old(Value()), c) == Some(Value())
      ensures !ok ==> Value() == old(Value())
    {
      hide ClassSize, Accounted;
      s := freeSlabs[|freeSlabs| - 1];
      var itemSize := sizes[c] % WORD;
      if itemSize == 0 {
        return false, s;
      }
      freeSlabs := freeSlabs[..|freeSlabs| - 1];
      var items := (slabSize / itemSize) % WORD;
      slabs := slabs[s := Slab(slabs[s].next, itemSize, itemSize * items % WORD)];
      classSlabs := classSlabs[c := classSlabs[c] + [s]];
      ok := true;
    }

    /** The first item of a new slab. */
    method NewSlabItem(c: nat) returns (r: Outcome)
      requires Valid() && c < CLASSES && freeSlabs != [] && AllocFromClass(Value(), c).0.None?
      modifies this`slabs, this`freeSlabs, this`classSlabs
      ensures (r, Value()) == Alloc(old(Value()), c)
    {
      AllocInSteps(Value(), c);
      hide Accounted, ClassSize, Shape, Alloc, AllocFromClass, AddSlab, CarveFrom;
      var ok, s := GrabSlab(c);
      if !ok {
        return DivisionByZero;
      }
      var item := SlabAllocItem(s);
      r := if item.Some? then Item(item.value) else NoMemory;
    }

    /** A freed item of a class, the next one of its last slab, or the first of a new slab. */
    method Take(c: nat) returns (r: Outcome)
      requires Valid() && c < CLASSES
      modifies this`slabs, this`freeLists, this`freeSlabs, this`classSlabs
      ensures (r, Value()) == Alloc(old(Value()), c)
    {
      ghost var p := Value();
      AllocInSteps(p, c);
      hide Accounted, ClassSize, Shape, Alloc, AllocFromClass, AddSlab, CarveFrom;
      var item := ClassAllocItem(c);
      if item.Some? {
        return Item(item.value);
      }
      NothingTaken(p, c);
      if freeSlabs == [] {
        return NoMemory;
      }
      r := NewSlabItem(c);
    }

    /** An item that was not in use; or none, because nothing is left for the class. */
    method ItemAlloc(c: nat) returns (r: Outcome)
      requires Valid() && c < CLASSES
      modifies this
      ensures (r, Value()) == Alloc(old(Value()), c)
      ensures Valid() && live == if r.Item? then old(live)[c := old(live)[c] + {r.address}] else old(live)
      ensures r.Item? ==> r.address !in old(live)[c]
      ensures r.NoMemory? ==>
        && old(freeLists)[c] == []
        && (old(freeSlabs) == [] || ClassCapacity(c, slabSize) == 0)
      ensures r.DivisionByZero? ==> ItemSize(c, slabSize) == 0
    {
      AllocAccounted(Value(), live, c);
      AllocKeepsSize(Value(), c);
      hide Accounted, ClassSize, ClassCapacity, ItemSize, Shape, Alloc;
      r := Take(c);
      if r.Item? {
        live := live[c := live[c] + {r.address}];
      }
    }

    method FreeItem(a: nat, c: nat)
      requires Valid() && c < CLASSES && a in live[c]
      modifies this`freeLists, this`live
      ensures Valid() && Value() == Free(old(Value()), a, c) && live == old(live)[c := old(live)[c] - {a}]
    {
      FreeAccounted(Value(), live, c, a);
      hide Accounted, ClassSize;
      freeLists := freeLists[c := freeLists[c] + [a]];
      live := live[c := live[c] - {a}];
    }
  }

  lemma {:induction false} AllocInSteps(p: Pool, c: nat)
    requires Shape(p) && c < CLASSES
    ensures var (a, p1) := AllocFromClass(p, c);
      if a.Some? then Alloc(p, c) == (Item(a.value), p1)
      else if p.freeSlabs == [] then Alloc(p, c) == (NoMemory, p)
      else if AddSlab(p, c).None? then Alloc(p, c) == (DivisionByZero, p)
      else
        var s := p.freeSlabs[|p.freeSlabs| - 1];
        && s < |AddSlab(p, c).value.slabs|
        && var (b, p3) := CarveFrom(AddSlab(p, c).value, s);
           Alloc(p, c) == (if b.Some? then Item(b.value) else NoMemory, p3)
  {
    hide ClassSize, InitSlab, AllocFromSlab;
  }

  lemma {:induction false} NothingTaken(p: Pool, c: nat)
    requires Shape(p) && c < CLASSES && AllocFromClass(p, c).0.None?
    ensures AllocFromClass(p, c).1 == p
  {
    if p.freeLists[c] == [] && p.classSlabs[c] != [] {
      var s := p.classSlabs[c][|p.classSlabs[c]| - 1];
      assert p.slabs[s := p.slabs[s]] == p.slabs;
    }
  }

  lemma {:induction false} AllocAccounted(p: Pool, live: seq<set<nat>>, c: nat)
    requires Shape(p) && Accounted(p, live) && |live| == CLASSES && c < CLASSES
    ensures var (r, p') := Alloc(p, c);
      && Shape(p') && Accounted(p', if r.Item? then live[c := live[c] + {r.address}] else live)
      && (r.Item? ==> r.address !in live[c])
      && (r.NoMemory? ==> p.freeLists[c] == [] && (p.freeSlabs == [] || ClassCapacity(c, p.slabSize) == 0))
      && (r.DivisionByZero? ==> ItemSize(c, p.slabSize) == 0)
  {
    hide PoolOk, Alloc, Shape, ClassCapacity, ItemSize;
    var b :| PoolOk(p, b) && b.live == live;
    var b' := AllocOk(p, b, c);
    OkHasShape(Alloc(p, c).1, b');
  }

  lemma {:induction false} FreeAccounted(p: Pool, live: seq<set<nat>>, c: nat, a: nat)
    requires Shape(p) && Accounted(p, live) && |live| == CLASSES && c < CLASSES && a in live[c]
    ensures Shape(Free(p, a, c)) && Accounted(Free(p, a, c), live[c := live[c] - {a}])
  {
    hide PoolOk;
    var b :| PoolOk(p, b) && b.live == live;
    var b' := FreeOk(p, b, c, a);
    OkHasShape(Free(p, a, c), b');
  }
}
