/**
  Every run of kmalloc(), kfree() of objects handed out, and page allocations by
  the rest of the kernel keeps the slab's objects apart and accounted for.
 */
module SlabRuns {
  import opened Basics
  import opened Bits
  import opened BuddyModel
  import opened BuddyInvariant
  import opened BuddyCalls
  import opened SlabModel

  // ----- carving a page

  lemma MulStep(k: nat, size: nat)
    requires k > 0
    ensures (k - 1) * size + size == k * size && (k - 1) * size >= 0
  {
  }

  lemma MultipleMod(k: nat, size: nat)
    requires size > 0
    ensures k * size % size == 0
  {
    ModUnique(k * size, k, 0, size);
  }

  lemma ModUnique(x: nat, q: nat, r: nat, size: nat)
    requires x == q * size + r && r < size
    ensures x % size == r
  {
    var d := x / size - q;
    assert x == x / size * size + x % size;
    assert d * size == r - x % size;
    if d > 0 { ProductGrows(d, size); }
    if d < 0 { ProductGrows(-d, size); }
  }

  /** One multiple of `size` per stretch of that length. */
  lemma OnlyMultiple(x: nat, k: nat, size: nat)
    requires k > 0 && size > 0 && (k - 1) * size <= x < k * size && x % size == 0
    ensures x == (k - 1) * size
  {
    MulStep(k, size);
    ModUnique(x, k - 1, x - (k - 1) * size, size);
  }

  /** Carving covers the page: exactly its multiples of the object size, each once. */
  lemma {:induction false} CarveExact(page: nat, size: nat, k: nat)
    requires size > 0
    ensures NoDuplicates(Carve(page, size, k))
    ensures forall a: nat :: a in Carve(page, size, k) <==> page <= a < page + k * size && (a - page) % size == 0
    decreases k
  {
    if k > 0 {
      CarveExact(page, size, k - 1);
      MulStep(k, size);
      MultipleMod(k - 1, size);
      var rest, first := Carve(page, size, k - 1), page + (k - 1) * size;
      forall a: nat ensures a in Carve(page, size, k) <==> page <= a < page + k * size && (a - page) % size == 0 {
        if first <= a < page + k * size && (a - page) % size == 0 { OnlyMultiple(a - page, k, size); }
      }
      assert first !in rest;
      PushProperties(rest, first);
    }
  }

  lemma InPage(f: nat, a: nat)
    ensures f * PAGE <= a < f * PAGE + PAGE <==> a / PAGE == f
    ensures a / PAGE == f ==> a % PAGE == a - f * PAGE
  {
  }

  /** The objects of a freshly carved page are its list. */
  lemma CarvedPage(f: nat, i: nat)
    requires i < CLASSES
    ensures var l := Carve(f * PAGE, ClassSize(i), PerPage(i));
            && NoDuplicates(l) && l != []
            && forall a: nat :: a in l <==> a / PAGE == f && a % PAGE % ClassSize(i) == 0
  {
    ClassDivides(i);
    var size := ClassSize(i);
    var k := PerPage(i);
    hide ClassSize, PerPage, Carve, NoDuplicates;
    CarveExact(f * PAGE, size, k);
    var l := Carve(f * PAGE, size, k);
    forall a: nat ensures a in l <==> a / PAGE == f && a % PAGE % size == 0 { InPage(f, a); }
    InPage(f, f * PAGE);
    assert f * PAGE in l;
  }

  // ----- kmalloc

  /** A new page on an empty list. */
  lemma RefillObjects(s: Slab, i: nat, f: nat, l: seq<nat>)
    requires ObjectsOk(s.lists, s.pages, s.live) && |s.lists| == CLASSES
    requires i < CLASSES && s.lists[i] == [] && f !in s.pages
    requires NoDuplicates(l) && forall a: nat :: a in l <==> a / PAGE == f && a % PAGE % ClassSize(i) == 0
    ensures ObjectsOk(s.lists[i := l], s.pages[f := i], s.live)
  {
    hide ClassSize, NoDuplicates;
    var pages', lists' := s.pages[f := i], s.lists[i := l];
    forall a: nat ensures Object(pages', a) <==> Object(s.pages, a) || a in l {}
    forall a: nat, j: nat ensures Listed(lists', a, j) <==> (if j == i then a in l else Listed(s.lists, a, j)) {}
    forall a: nat | Object(pages', a) ensures a in s.live || OnSomeList(lists', a) {
      if a in l {
        assert Listed(lists', a, i);
      } else if a !in s.live {
        assert Object(s.pages, a);
        var j: nat :| Listed(s.lists, a, j);
        assert Listed(lists', a, j);
      }
    }
  }

  /** A page handed out by the allocator is none of the slab's. */
  lemma NewPage(s: Slab)
    requires SlabOk(s) && WellFormed(s.zone) && Alloc(s.zone, 0).Allocated?
    ensures s.base + Alloc(s.zone, 0).page !in s.pages && 0 < s.base
  {
    hide InvariantExcept, CoalescedExcept, LiveExcept, Alloc, ObjectsOk;
    AllocOne(s.zone);
  }

  lemma RefillKeeps(s: Slab, i: nat)
    requires SlabOk(s) && WellFormed(s.zone) && |s.lists| == CLASSES
    requires i < CLASSES && s.lists[i] == [] && Refill(s, i).Some?
    ensures var s' := Refill(s, i).value; SlabOk(s') && |s'.lists| == CLASSES && s'.lists[i] != [] && s'.base == s.base
  {
    hide InvariantExcept, CoalescedExcept, LiveExcept, Alloc, Carve, ClassSize, ObjectsOk;
    AllocOne(s.zone);
    var h := Alloc(s.zone, 0).page;
    var f := s.base + h;
    CarvedPage(f, i);
    RefillObjects(s, i, f, Carve(f * PAGE, ClassSize(i), PerPage(i)));
  }

  /** Taking the first object of a list whose class fits the request. */
  lemma TakeFirstKeeps(s: Slab, i: nat, size: nat)
    requires ObjectsOk(s.lists, s.pages, s.live) && |s.lists| == CLASSES
    requires i < CLASSES && s.lists[i] != [] && size <= ClassSize(i)
    requires forall f :: f in s.pages ==> s.pages[f] < CLASSES
    ensures var r := TakeFirst(s, i, size);
            && ObjectsOk(r.slab.lists, r.slab.pages, r.slab.live) && r.addr !in s.live
            && r.addr in r.slab.live && r.slab.live[r.addr] == size
            && Object(s.pages, r.addr) && size <= Capacity(s.pages, r.addr)
  {
    var a := s.lists[i][0];
    var lists', live' := s.lists[i := s.lists[i][1..]], s.live[a := size];
    assert Listed(s.lists, a, i);
    ClassMonotone(i, s.pages[a / PAGE]);
    hide ClassSize;
    PopProperties(s.lists[i]);
    hide NoDuplicates;
    forall b: nat, j: nat ensures Listed(lists', b, j) <==> Listed(s.lists, b, j) && b != a {
      if Listed(s.lists, b, j) && b == a { assert j == i; }
    }
    forall b: nat | Object(s.pages, b) ensures b in live' || OnSomeList(lists', b) {
      if b !in live' {
        var j: nat :| Listed(s.lists, b, j);
        assert Listed(lists', b, j);
      }
    }
    assert ListsOk(lists', s.pages, live');
    assert LiveOk(s.pages, live');
  }

  /**
    kmalloc(): it refuses exactly what is larger than a page or needs a page when
    there is none; otherwise it hands out an object nobody had, with room for the
    request.
   */
  lemma KmallocKeeps(s: Slab, size: nat)
    requires SlabOk(s) && WellFormed(s.zone) && |s.lists| == CLASSES
    ensures var r := Kmalloc(s, size);
            && SlabOk(r.slab) && r.slab.base == s.base
            && (r.Refused? ==> r.slab == s && (size > PAGE || Alloc(s.zone, 0).NoMemory?))
            && (r.Given? ==> size <= PAGE && r.addr !in s.live && r.slab.live == s.live[r.addr := size]
                             && Object(r.slab.pages, r.addr) && size <= Capacity(r.slab.pages, r.addr)
                             && (Object(s.pages, r.addr) ==> OnSomeList(s.lists, r.addr)))
  {
    SizeIndexExact(size);
    hide SizeIndex, ClassSize, Refill, ObjectsOk;
    match SizeIndex(size)
    case None =>
    case Some(i) =>
      if s.lists[i] == [] {
        RefillSome(s, i);
        if Refill(s, i).Some? {
          RefillKeeps(s, i);
          GiveFirst(Refill(s, i).value, i, size);
          RefillLive(s, i);
          NothingLostAt(s, TakeFirst(Refill(s, i).value, i, size).addr);
        }
      } else {
        GiveFirst(s, i, size);
        NothingLostAt(s, TakeFirst(s, i, size).addr);
      }
  }

  lemma NothingLostAt(s: Slab, a: nat)
    requires ObjectsOk(s.lists, s.pages, s.live)
    ensures Object(s.pages, a) && a !in s.live ==> OnSomeList(s.lists, a)
  {
    hide Object, OnSomeList;
  }

  lemma RefillSome(s: Slab, i: nat)
    requires SlabOk(s) && WellFormed(s.zone) && |s.lists| == CLASSES && i < CLASSES
    ensures Refill(s, i) == None ==> Alloc(s.zone, 0).NoMemory?
  {
    AllocKeeps(s.zone, 0);
    hide Alloc, InvariantExcept, CoalescedExcept, ObjectsOk;
  }

  lemma RefillLive(s: Slab, i: nat)
    requires WellFormed(s.zone) && |s.lists| == CLASSES && i < CLASSES && Refill(s, i).Some?
    ensures Refill(s, i).value.live == s.live
  {
    hide Alloc, Carve, ClassSize;
  }

  lemma GiveFirst(s: Slab, i: nat, size: nat)
    requires SlabOk(s) && |s.lists| == CLASSES && i < CLASSES && s.lists[i] != [] && size <= ClassSize(i)
    ensures var r := TakeFirst(s, i, size);
            && SlabOk(r.slab) && r.slab.base == s.base && r.addr !in s.live && r.slab.live == s.live[r.addr := size]
            && r.slab.pages == s.pages && Object(s.pages, r.addr) && size <= Capacity(s.pages, r.addr)
  {
    hide ClassSize, ObjectsOk, Live, InvariantExcept, CoalescedExcept, Object, Capacity;
    TakeFirstKeeps(s, i, size);
  }

  // ----- kfree

  /** An object is a multiple of 16 inside the allocator's range. */
  lemma ObjectAddress(s: Slab, a: nat)
    requires SlabOk(s) && Object(s.pages, a)
    ensures a % 16 == 0 && s.base * PAGE <= a < s.base * PAGE + 0x8000_0000 * PAGE && s.pages[a / PAGE] < CLASSES
    ensures s.base <= a / PAGE && Live(s.zone, a / PAGE - s.base, 0)
  {
    hide ClassSize, InvariantExcept, CoalescedExcept, ObjectsOk;
    var f := a / PAGE;
    MultipleOf16(a % PAGE, ClassSize(s.pages[f]), s.pages[f]);
    InPage(f, a);
    assert Live(s.zone, f - s.base, 0);
    assert a % 16 == a % PAGE % 16;
  }

  lemma FreeObjects(s: Slab, a: nat)
    requires ObjectsOk(s.lists, s.pages, s.live) && |s.lists| == CLASSES && a in s.live
    ensures ObjectsOk(s.lists[0 := [a] + s.lists[0]], s.pages, s.live - {a})
  {
    hide ClassSize;
    var lists', live' := s.lists[0 := [a] + s.lists[0]], s.live - {a};
    assert forall j: nat :: !Listed(s.lists, a, j);
    assert a !in s.lists[0] by { assert !Listed(s.lists, a, 0); }
    PushProperties(s.lists[0], a);
    hide NoDuplicates;
    forall b: nat, j: nat ensures Listed(lists', b, j) <==> Listed(s.lists, b, j) || (b == a && j == 0) {}
    forall b: nat | Object(s.pages, b) ensures b in live' || OnSomeList(lists', b) {
      if b == a {
        assert Listed(lists', a, 0);
      } else if b !in s.live {
        var j: nat :| Listed(s.lists, b, j);
        assert Listed(lists', b, j);
      }
    }
  }

  /** kfree() of an object handed out: whatever its class, it goes to the 16-byte list, and never to free_pages(). */
  lemma KfreeKeeps(s: Slab, a: nat)
    requires SlabOk(s) && |s.lists| == CLASSES && a in s.live
    ensures s.base * PAGE <= a
    ensures var r := Kfree(s, a);
            && r == Kfreed(s.(lists := s.lists[0 := [a] + s.lists[0]], live := s.live - {a}))
            && SlabOk(r.slab)
  {
    LiveIsObject(s, a);
    ObjectAddress(s, a);
    KfreeGuess(s.base, a);
    hide KfreeClass, ClassSize, ObjectsOk, InvariantExcept, CoalescedExcept, Live;
    FreeObjects(s, a);
  }

  lemma LiveIsObject(s: Slab, a: nat)
    requires SlabOk(s) && a in s.live
    ensures Object(s.pages, a) && s.live[a] <= Capacity(s.pages, a)
  {
    hide Object, Capacity, NothingLost, ListsOk, InvariantExcept, CoalescedExcept;
  }

  // ----- runs

  datatype Op = Malloc(size: nat) | FreeObj(addr: nat) | PageTake(order: nat) | PageGive(page: nat)

  datatype Outcome = Halted | Ran(slab: Slab)

  /** kfree() gets only objects handed out; other code frees only its own blocks. */
  predicate Valid(s: Slab, op: Op)
    requires WellFormed(s.zone)
  {
    match op
    case Malloc(_) => true
    case FreeObj(a) => a in s.live
    case PageTake(_) => true
    case PageGive(page) => s.base + page !in s.pages && page < s.zone.n && Live(s.zone, page, s.zone.order[page])
  }

  function Perform(s: Slab, op: Op): (r: Outcome)
    requires SlabOk(s) && WellFormed(s.zone) && |s.lists| == CLASSES && Valid(s, op)
  {
    match op
    case Malloc(size) => Ran(Kmalloc(s, size).slab)
    case FreeObj(a) =>
      KfreeKeeps(s, a);
      Ran(Kfree(s, a).slab)
    case PageTake(k) =>
      (match Alloc(s.zone, k)
       case NoMemory => Ran(s)
       case AllocHalt => Halted
       case Allocated(z, _) => Ran(s.(zone := z)))
    case PageGive(page) =>
      (match Free(s.zone, page)
       case FreeHalt => Halted
       case Freed(z) => Ran(s.(zone := z)))
  }

  lemma ZoneChange(s: Slab, z: Zone)
    requires SlabOk(s) && WellFormed(s.zone) && WellFormed(z) && Invariant(z) && Coalesced(z) && z.n == s.zone.n
    requires forall f :: f in s.pages && Live(s.zone, f - s.base, 0) ==> Live(z, f - s.base, 0)
    ensures SlabOk(s.(zone := z))
  {
    hide ObjectsOk, InvariantExcept, CoalescedExcept, Live;
  }

  lemma PageTakeKeeps(s: Slab, k: nat)
    requires SlabOk(s) && WellFormed(s.zone)
    ensures !Alloc(s.zone, k).AllocHalt?
    ensures Alloc(s.zone, k).Allocated? ==> SlabOk(s.(zone := Alloc(s.zone, k).zone))
  {
    AllocKeeps(s.zone, k);
    hide ObjectsOk, InvariantExcept, CoalescedExcept, Alloc;
    if Alloc(s.zone, k).Allocated? {
      AllocCoalesced(s.zone, k);
      ZoneChange(s, Alloc(s.zone, k).zone);
    }
  }

  lemma PageGiveKeeps(s: Slab, page: nat)
    requires SlabOk(s) && WellFormed(s.zone) && Valid(s, PageGive(page)) && Free(s.zone, page).Freed?
    ensures SlabOk(s.(zone := Free(s.zone, page).zone))
  {
    hide ObjectsOk, InvariantExcept, CoalescedExcept, Free;
    FreeKeeps(s.zone, page, s.zone.order[page]);
    ZoneChange(s, Free(s.zone, page).zone);
  }

  lemma PerformKeeps(s: Slab, op: Op)
    requires SlabOk(s) && WellFormed(s.zone) && |s.lists| == CLASSES && Valid(s, op)
    ensures Perform(s, op).Ran? ==> SlabOk(Perform(s, op).slab)
    ensures Perform(s, op).Halted? ==> op.PageGive?
  {
    hide SlabOk, Kmalloc, Kfree, Alloc, Free, Invariant;
    match op
    case Malloc(size) => KmallocKeeps(s, size);
    case FreeObj(a) => KfreeKeeps(s, a);
    case PageTake(k) => PageTakeKeeps(s, k);
    case PageGive(page) => if Free(s.zone, page).Freed? { PageGiveKeeps(s, page); }
  }

  lemma Shape(s: Slab)
    requires SlabOk(s)
    ensures WellFormed(s.zone) && |s.lists| == CLASSES
  {
  }

  function Step(s: Slab, op: Op): (r: Outcome)
    requires SlabOk(s) && WellFormed(s.zone) && Valid(s, op)
    ensures r.Ran? ==> SlabOk(r.slab) && WellFormed(r.slab.zone)
  {
    Shape(s);
    PerformKeeps(s, op);
    var r := Perform(s, op);
    assert r.Ran? ==> WellFormed(r.slab.zone) by { if r.Ran? { Shape(r.slab); } }
    r
  }

  ghost predicate ValidRun(s: Slab, ops: seq<Op>)
    requires SlabOk(s) && WellFormed(s.zone)
    decreases |ops|
  {
    ops == [] || (Valid(s, ops[0]) && (Step(s, ops[0]).Ran? ==> ValidRun(Step(s, ops[0]).slab, ops[1..])))
  }

  /** Every state a valid run reaches keeps SlabOk. */
  function Run(s: Slab, ops: seq<Op>): (r: Outcome)
    requires SlabOk(s) && WellFormed(s.zone) && ValidRun(s, ops)
    ensures r.Ran? ==> SlabOk(r.slab)
    decreases |ops|
  {
    if ops == [] then Ran(s)
    else
      match Step(s, ops[0])
      case Halted => Halted
      case Ran(s') => Run(s', ops[1..])
  }

  /** After snub_init() on a fresh allocator. */
  lemma EmptySlabOk(zone: Zone, base: nat)
    requires WellFormed(zone) && Invariant(zone) && Coalesced(zone) && 0 < base && zone.n <= 0x8_0000
    ensures SlabOk(Slab(zone, base, seq(CLASSES, _ => []), map[], map[]))
  {
    hide InvariantExcept, CoalescedExcept;
  }

  // ----- what it means

  /** Two different objects share no byte. */
  lemma ObjectsApart(pages: map<nat, nat>, a: nat, b: nat)
    requires Object(pages, a) && Object(pages, b) && a != b
    requires pages[a / PAGE] < CLASSES && pages[b / PAGE] < CLASSES
    ensures a + Capacity(pages, a) <= b || b + Capacity(pages, b) <= a
  {
    ClassDivides(pages[a / PAGE]);
    ClassDivides(pages[b / PAGE]);
    var x, y := a % PAGE, b % PAGE;
    InPage(a / PAGE, a);
    InPage(b / PAGE, b);
    hide ClassSize;
    EndsInPage(x, ClassSize(pages[a / PAGE]), PerPage(pages[a / PAGE]));
    EndsInPage(y, ClassSize(pages[b / PAGE]), PerPage(pages[b / PAGE]));
    if a / PAGE == b / PAGE {
      if x < y { MultiplesApart(x, y, Capacity(pages, a)); } else { MultiplesApart(y, x, Capacity(pages, a)); }
    }
  }

  lemma MultiplesApart(x: nat, y: nat, size: nat)
    requires size > 0 && x % size == 0 == y % size && x < y
    ensures x + size <= y
  {
    if y < x + size {
      ModUnique(y, x / size, y - x, size);
    }
  }

  /** An object ends before its page does. */
  lemma EndsInPage(x: nat, size: nat, k: nat)
    requires x < PAGE && 0 < size <= PAGE && x % size == 0 && k * size == PAGE
    ensures x + size <= PAGE
  {
    MultipleMod(k, size);
    MultiplesApart(x, PAGE, size);
  }

  /**
    Over every run: any two objects, handed out or free, share no byte, and each is
    on a live page of the allocator; an object handed out has room for the
    request; an object on the list of a class is at least as large as the class
    and is on no other list; every object is in exactly one place.
   */
  lemma RunObjects(s: Slab, ops: seq<Op>, a: nat, b: nat)
    requires SlabOk(s) && WellFormed(s.zone) && ValidRun(s, ops) && Run(s, ops).Ran?
    requires Object(Run(s, ops).slab.pages, a) && Object(Run(s, ops).slab.pages, b) && a != b
    ensures var t := Run(s, ops).slab;
            && (a + Capacity(t.pages, a) <= b || b + Capacity(t.pages, b) <= a)
            && (a in t.live ==> t.live[a] <= Capacity(t.pages, a) && !OnSomeList(t.lists, a))
            && (a !in t.live ==> OnSomeList(t.lists, a))
            && t.base <= a / PAGE && Live(t.zone, a / PAGE - t.base, 0)
            && (forall i: nat :: Listed(t.lists, a, i) ==>
                  && i < CLASSES && ClassSize(i) <= Capacity(t.pages, a)
                  && forall j: nat :: Listed(t.lists, a, j) ==> j == i)
  {
    hide ValidRun, Run, InvariantExcept, CoalescedExcept, ClassSize, Live;
    var t := Run(s, ops).slab;
    ObjectAddress(t, a);
    ObjectAddress(t, b);
    ObjectsApart(t.pages, a, b);
    NothingLostAt(t, a);
    forall i: nat | Listed(t.lists, a, i) ensures ClassSize(i) <= Capacity(t.pages, a) {
      ClassMonotone(i, t.pages[a / PAGE]);
    }
  }
}
