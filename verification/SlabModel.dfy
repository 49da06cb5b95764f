/**
  The object allocator of kernel/mm/snub.c over the buddy allocator. A page
  taken for size class i is carved into objects of 16 << i bytes; free objects
  sit on nine lists. kfree() does not know an object's class and guesses it from
  the address.

  `pages` (the class each page was carved for) and `live` (the objects handed
  out, with the size asked for) are specification-only: no decision reads them.
 */
module SlabModel {
  import opened Basics
  import opened Bits
  import opened BuddyModel
  import opened BuddyInvariant
  import opened BuddyCalls

  const CLASSES: nat := 9

  datatype Slab = Slab(
    zone: Zone,
    base: nat,                   // buddy_base_phys / PAGE_SIZE
    lists: seq<seq<nat>>,        // addresses of free objects, by class
    pages: map<nat, nat>,        // specification only
    live: map<nat, nat>          // specification only
  )

  /** object_size of a class: 16, 32, ... 4096 */
  function ClassSize(i: nat): (n: nat)
    ensures n > 0
  {
    Pow2(4 + i)
  }

  /** objs_per_page */
  function PerPage(i: nat): nat {
    QuotientIsNat(PAGE, ClassSize(i));
    PAGE / ClassSize(i)
  }

  lemma QuotientIsNat(x: nat, y: nat)
    requires y > 0
    ensures x / y >= 0
  {
    assert x == x / y * y + x % y;
  }

  lemma ProductGrows(d: nat, y: nat)
    requires d > 0
    ensures d * y >= y
  {
    assert d * y == (d - 1) * y + y;
  }

  /** The loop of size_to_idx() from shift 4 + i. */
  function SizeIndexFrom(size: nat, i: nat): (r: Option<nat>)
    ensures r.Some? ==> i <= r.value < CLASSES
    decreases CLASSES - i
  {
    if i >= CLASSES then None
    else if ClassSize(i) < size then SizeIndexFrom(size, i + 1)
    else Some(i)
  }

  function SizeIndex(size: nat): (r: Option<nat>)
    ensures r.Some? ==> r.value < CLASSES
  {
    SizeIndexFrom(size, 0)
  }

  /** The carving loop after k turns: every object is pushed in front of the ones before it. */
  function Carve(page: nat, size: nat, k: nat): seq<nat> {
    if k == 0 then [] else [page + (k - 1) * size] + Carve(page, size, k - 1)
  }

  function Refill(s: Slab, i: nat): Option<Slab>
    requires WellFormed(s.zone) && |s.lists| == CLASSES && i < CLASSES
  {
    match Alloc(s.zone, 0)
    case Allocated(z, h) =>
      var f := s.base + h;
      Some(s.(zone := z, pages := s.pages[f := i],
              lists := s.lists[i := Carve(f * PAGE, ClassSize(i), PerPage(i))]))
    case _ => None
  }

  datatype Given = Refused(slab: Slab) | Given(slab: Slab, addr: nat)

  function TakeFirst(s: Slab, i: nat, size: nat): (r: Given)
    requires |s.lists| == CLASSES && i < CLASSES && s.lists[i] != []
  {
    var a := s.lists[i][0];
    Given(s.(lists := s.lists[i := s.lists[i][1..]], live := s.live[a := size]), a)
  }

  /** kmalloc() */
  function Kmalloc(s: Slab, size: nat): Given
    requires WellFormed(s.zone) && |s.lists| == CLASSES
  {
    match SizeIndex(size)
    case None => Refused(s)
    case Some(i) =>
      if s.lists[i] != [] then TakeFirst(s, i, size)
      else
        match Refill(s, i)
        case None => Refused(s)
        case Some(s') => if s'.lists[i] != [] then TakeFirst(s', i, size) else Refused(s)
  }

  /** The offset kfree() computes: the page index goes through a 32-bit int. */
  function KfreeOffset(base: nat, addr: nat): int
    requires base * PAGE <= addr
  {
    var index := (addr - base * PAGE) / PAGE % 0x1_0000_0000;
    var signed := if index < 0x8000_0000 then index else index - 0x1_0000_0000;
    addr - (base * PAGE + signed * PAGE)
  }

  /** The loop of kfree() over the classes: the first whose size divides the offset. None: the free_pages() fallback. */
  function KfreeClassFrom(offset: int, i: nat): (r: Option<nat>)
    ensures r.Some? ==> i <= r.value < CLASSES
    decreases CLASSES - i
  {
    if i >= CLASSES then None
    else if offset % ClassSize(i) == 0 && offset < PAGE then Some(i)
    else KfreeClassFrom(offset, i + 1)
  }

  function KfreeClass(base: nat, addr: nat): (r: Option<nat>)
    requires base * PAGE <= addr
    ensures r.Some? ==> r.value < CLASSES
  {
    KfreeClassFrom(KfreeOffset(base, addr), 0)
  }

  datatype Kfreed = FellBack | Kfreed(slab: Slab)

  /** kfree() */
  function Kfree(s: Slab, addr: nat): Kfreed
    requires |s.lists| == CLASSES && s.base * PAGE <= addr
  {
    match KfreeClass(s.base, addr)
    case None => FellBack
    case Some(i) => Kfreed(s.(lists := s.lists[i := [addr] + s.lists[i]], live := s.live - {addr}))
  }

  // ----- objects

  /** Address a is the start of an object carved from a page of the slab. */
  predicate Object(pages: map<nat, nat>, a: nat) {
    a / PAGE in pages && a % PAGE % ClassSize(pages[a / PAGE]) == 0
  }

  /** The bytes that belong to an object. */
  function Capacity(pages: map<nat, nat>, a: nat): nat
    requires a / PAGE in pages
  {
    ClassSize(pages[a / PAGE])
  }

  predicate Listed(lists: seq<seq<nat>>, a: nat, i: nat) {
    i < |lists| && a in lists[i]
  }

  ghost predicate OnSomeList(lists: seq<seq<nat>>, a: nat) {
    exists i: nat :: Listed(lists, a, i)
  }

  ghost predicate PagesOk(zone: Zone, base: nat, pages: map<nat, nat>)
    requires WellFormed(zone)
  {
    forall f :: f in pages ==> base <= f && Live(zone, f - base, 0) && pages[f] < CLASSES
  }

  /** What is on a list is a free object at least as large as the class, and is there once. */
  ghost predicate ListsOk(lists: seq<seq<nat>>, pages: map<nat, nat>, live: map<nat, nat>) {
    && |lists| == CLASSES
    && (forall i: nat :: i < CLASSES ==> NoDuplicates(lists[i]))
    && (forall i: nat, a: nat :: Listed(lists, a, i) ==> Object(pages, a) && i <= pages[a / PAGE] && a !in live)
    && (forall i: nat, j: nat, a: nat :: Listed(lists, a, i) && Listed(lists, a, j) ==> i == j)
  }

  /** Objects handed out are objects, with room for what was asked. */
  ghost predicate LiveOk(pages: map<nat, nat>, live: map<nat, nat>) {
    forall a :: a in live ==> Object(pages, a) && live[a] <= Capacity(pages, a)
  }

  /** No object is lost: each is handed out or on a list. */
  ghost predicate NothingLost(lists: seq<seq<nat>>, pages: map<nat, nat>, live: map<nat, nat>) {
    forall a: nat :: Object(pages, a) ==> a in live || OnSomeList(lists, a)
  }

  ghost predicate ObjectsOk(lists: seq<seq<nat>>, pages: map<nat, nat>, live: map<nat, nat>) {
    ListsOk(lists, pages, live) && LiveOk(pages, live) && NothingLost(lists, pages, live)
  }

  ghost predicate SlabOk(s: Slab) {
    match s
    case Slab(zone, base, lists, pages, live) =>
      && WellFormed(zone) && Invariant(zone) && Coalesced(zone) && 0 < base && zone.n <= 0x8_0000
      && PagesOk(zone, base, pages) && ObjectsOk(lists, pages, live)
  }

  // ----- sizes

  lemma ClassSizes()
    ensures ClassSize(0) == 16 && ClassSize(1) == 32 && ClassSize(2) == 64 && ClassSize(3) == 128 && ClassSize(4) == 256
    ensures ClassSize(5) == 512 && ClassSize(6) == 1024 && ClassSize(7) == 2048 && ClassSize(8) == 4096
  {
    assert Pow2(4) == 16;
    assert Pow2(8) == 256;
    assert Pow2(12) == 4096;
  }

  lemma ClassDivides(i: nat)
    requires i < CLASSES
    ensures ClassSize(i) % 16 == 0 && 16 <= ClassSize(i) <= PAGE && PerPage(i) * ClassSize(i) == PAGE
  {
    ClassSizes();
    hide ClassSize;
    assert i == 0 || i == 1 || i == 2 || i == 3 || i == 4 || i == 5 || i == 6 || i == 7 || i == 8;
  }

  lemma ClassMonotone(i: nat, j: nat)
    requires i <= j < CLASSES
    ensures ClassSize(i) <= ClassSize(j)
  {
    Pow2Monotonic(4 + i, 4 + j);
  }

  /** size_to_idx() finds the smallest class that fits, and none exactly for more than a page. */
  lemma {:induction false} SizeIndexLeast(size: nat, i: nat)
    requires i <= CLASSES
    ensures match SizeIndexFrom(size, i)
            case Some(r) => size <= ClassSize(r) && (forall j: nat :: i <= j < r ==> ClassSize(j) < size)
            case None => forall j: nat :: i <= j < CLASSES ==> ClassSize(j) < size
    decreases CLASSES - i
  {
    hide ClassSize;
    if i < CLASSES && ClassSize(i) < size { SizeIndexLeast(size, i + 1); }
  }

  lemma SizeIndexExact(size: nat)
    ensures SizeIndex(size) == None <==> size > PAGE
    ensures SizeIndex(size).Some? ==>
              var r := SizeIndex(size).value;
              size <= ClassSize(r) && forall j: nat :: j < r ==> ClassSize(j) < size
  {
    ClassSizes();
    SizeIndexLeast(size, 0);
    hide ClassSize, SizeIndexFrom;
    assert ClassSize(8) < size <==> size > PAGE;
    if SizeIndex(size) == None { assert ClassSize(8) < size; }
    if SizeIndex(size).Some? { ClassDivides(SizeIndex(size).value); }
  }

  // ----- kfree's guess

  /**
    In the allocator's range the guess is always class 0, and free_pages() is reached exactly
    by addresses that are no multiple of 16.
   */
  lemma KfreeGuess(base: nat, addr: nat)
    requires base * PAGE <= addr < base * PAGE + 0x8000_0000 * PAGE
    ensures KfreeClass(base, addr) == if addr % 16 == 0 then Some(0) else None
  {
    var offset := KfreeOffset(base, addr);
    assert offset == addr % PAGE by { OffsetInPage(base, addr); }
    ClassSizes();
    hide ClassSize, KfreeOffset;
    if addr % 16 != 0 { NoClassDivides(offset, 0); }
  }

  lemma OffsetInPage(base: nat, addr: nat)
    requires base * PAGE <= addr < base * PAGE + 0x8000_0000 * PAGE
    ensures KfreeOffset(base, addr) == addr % PAGE
  {
    var d := addr - base * PAGE;
    assert d / PAGE < 0x8000_0000;
    assert addr % PAGE == d % PAGE;
  }

  lemma {:induction false} NoClassDivides(offset: nat, i: nat)
    requires offset % 16 != 0
    ensures KfreeClassFrom(offset, i) == None
    decreases CLASSES - i
  {
    hide ClassSize;
    if i < CLASSES {
      if offset % ClassSize(i) == 0 { MultipleOf16(offset, ClassSize(i), i); }
      NoClassDivides(offset, i + 1);
    }
  }

  lemma MultipleOf16(x: nat, size: nat, i: nat)
    requires size == ClassSize(i) && x % size == 0
    ensures x % 16 == 0
  {
    AlignedIsMultiple(x, 4 + i);
    AlignedDown(x, 4, 4 + i);
    AlignedIsMultiple(x, 4);
    assert Pow2(4) == 16;
  }
}
