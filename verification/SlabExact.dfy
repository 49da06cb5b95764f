/**
  Which object kmalloc() hands out: the first of the smallest class that fits, or
  the last object of a new page; and when an object just freed comes back.
 */
module SlabExact {
  import opened Basics
  import opened Bits
  import opened BuddyModel
  import opened BuddyInvariant
  import opened BuddyCalls
  import opened BuddyCount
  import opened SlabModel
  import opened SlabRuns

  /** Objects of class i have 16 * 2^i bytes. */
  function Bytes(i: nat): nat {
    16 * Pow2(i)
  }

  lemma ClassIsShift(i: nat)
    ensures ClassSize(i) == Bytes(i)
  {
    assert Pow2(4 + i) == 2 * Pow2(3 + i) == 4 * Pow2(2 + i) == 8 * Pow2(1 + i);
  }

  /** Class i is the smallest whose objects have room for `size` bytes. */
  predicate LeastClass(size: nat, i: nat) {
    i < CLASSES && size <= Bytes(i) && (i > 0 ==> Bytes(i - 1) < size)
  }

  lemma LeastIsIndex(size: nat, i: nat)
    requires LeastClass(size, i)
    ensures SizeIndex(size) == Some(i)
  {
    SizeIndexExact(size);
    ClassIsShift(i);
    ClassDivides(i);
    hide SizeIndex, ClassSize, Pow2;
    var r := SizeIndex(size).value;
    if r < i {
      ClassMonotone(r, i - 1);
      ClassIsShift(i - 1);
    }
  }

  /** The objects of a page, last one first. */
  lemma {:induction false} CarveAt(page: nat, size: nat, k: nat)
    ensures |Carve(page, size, k)| == k
    ensures forall j: nat :: j < k ==> Carve(page, size, k)[j] == page + (k - 1 - j) * size
    decreases k
  {
    if k > 0 { CarveAt(page, size, k - 1); }
  }

  lemma LastObject(page: nat, size: nat, k: nat)
    requires k * size == PAGE && k > 0
    ensures page + (k - 1) * size == page + PAGE - size
  {
  }

  /** A class with free objects: the first one, and only its list loses it. */
  lemma KmallocListed(s: Slab, size: nat, i: nat)
    requires WellFormed(s.zone) && |s.lists| == CLASSES && LeastClass(size, i) && s.lists[i] != []
    ensures var a := s.lists[i][0];
            Kmalloc(s, size) == Given(s.(lists := s.lists[i := s.lists[i][1..]], live := s.live[a := size]), a)
  {
    LeastIsIndex(size, i);
    hide LeastClass, SizeIndex, Refill;
  }

  /** Only object k of the page is gone; the others are listed, last one first. */
  ghost predicate RestListed(l: seq<nat>, page: nat, size: nat) {
    (|l| + 1) * size == PAGE && forall j: nat :: j < |l| ==> l[j] == page + (|l| - 1 - j) * size
  }

  /**
    A class without free objects: if no page is free, NULL; otherwise exactly one page
    is taken, its last object is handed out and the class keeps the others. Nothing
    else changes.
   */
  lemma KmallocCarves(s: Slab, size: nat, i: nat)
    requires SlabOk(s) && WellFormed(s.zone) && |s.lists| == CLASSES && LeastClass(size, i) && s.lists[i] == []
    ensures FreeCount(s.zone) == 0 ==> Kmalloc(s, size) == Refused(s)
    ensures FreeCount(s.zone) > 0 ==>
              && Kmalloc(s, size).Given? && Alloc(s.zone, 0).Allocated?
              && var r, f := Kmalloc(s, size), s.base + Alloc(s.zone, 0).page;
                 && r.addr == f * PAGE + PAGE - Bytes(i) && |r.slab.lists| == CLASSES
                 && r.slab == s.(zone := Alloc(s.zone, 0).zone, pages := s.pages[f := i],
                                 lists := s.lists[i := r.slab.lists[i]], live := s.live[r.addr := size])
                 && RestListed(r.slab.lists[i], f * PAGE, Bytes(i))
                 && FreeCount(r.slab.zone) + 1 == FreeCount(s.zone)
                 && !Live(s.zone, f - s.base, 0) && Live(r.slab.zone, f - s.base, 0)
  {
    hide LeastClass, SizeIndex, Alloc, SlabOk, Invariant, Coalesced, CountFrom, LiveExcept, Bytes, Refill, RestListed,
         WellFormed;
    LeastIsIndex(size, i);
    RefillExact(s, i);
  }

  /** Taking and carving a page, its last object in front. */
  lemma RefillExact(s: Slab, i: nat)
    requires SlabOk(s) && WellFormed(s.zone) && |s.lists| == CLASSES && i < CLASSES && s.lists[i] == []
    ensures FreeCount(s.zone) == 0 ==> Refill(s, i) == None
    ensures FreeCount(s.zone) > 0 ==>
              && Refill(s, i).Some? && Alloc(s.zone, 0).Allocated?
              && var s', z, f := Refill(s, i).value, Alloc(s.zone, 0).zone, s.base + Alloc(s.zone, 0).page;
                 && |s'.lists| == CLASSES && s'.lists[i] != [] && s'.lists[i][0] == f * PAGE + PAGE - Bytes(i)
                 && RestListed(s'.lists[i][1..], f * PAGE, Bytes(i))
                 && s' == s.(zone := z, pages := s.pages[f := i], lists := s.lists[i := s'.lists[i]])
                 && FreeCount(z) + 1 == FreeCount(s.zone) && !Live(s.zone, f - s.base, 0) && Live(z, f - s.base, 0)
  {
    SlabZone(s);
    PageOfOne();
    hide Alloc, SlabOk, Invariant, Coalesced, CountFrom, LiveExcept, Bytes, ClassSize, PerPage, Carve, RestListed,
         WellFormed, Pow2, FreeHead;
    AllocKeeps(s.zone, 0);
    AllocNone(s.zone);
    RefillIs(s, i);
    hide Refill;
    if FreeCount(s.zone) > 0 {
      AllocOne(s.zone);
      AllocCount(s.zone, 0);
      CarvedClass((s.base + Alloc(s.zone, 0).page) * PAGE, i);
    }
  }

  lemma RefillIs(s: Slab, i: nat)
    requires WellFormed(s.zone) && |s.lists| == CLASSES && i < CLASSES
    ensures !Alloc(s.zone, 0).Allocated? ==> Refill(s, i) == None
    ensures Alloc(s.zone, 0).Allocated? ==>
              var f := s.base + Alloc(s.zone, 0).page; var l := Carve(f * PAGE, ClassSize(i), PerPage(i));
              Refill(s, i) ==
                Some(s.(zone := Alloc(s.zone, 0).zone, pages := s.pages[f := i], lists := s.lists[i := l]))
  {
    hide Alloc, Carve, ClassSize, PerPage;
  }

  lemma CarvedClass(page: nat, i: nat)
    requires i < CLASSES
    ensures var l := Carve(page, ClassSize(i), PerPage(i));
            l != [] && l[0] == page + PAGE - Bytes(i) && RestListed(l[1..], page, Bytes(i))
  {
    ClassIsShift(i);
    ClassDivides(i);
    var k := PerPage(i);
    hide ClassSize, PerPage, Bytes, Carve;
    CarveAt(page, ClassSize(i), k);
    LastObject(page, ClassSize(i), k);
    CarvedRest(page, ClassSize(i), k);
  }

  lemma PageOfOne()
    ensures Pow2(0) == 1
  {
  }

  lemma CarvedRest(page: nat, size: nat, k: nat)
    requires k * size == PAGE && k > 0
    ensures Carve(page, size, k) != [] && RestListed(Carve(page, size, k)[1..], page, size)
  {
    CarveAt(page, size, k);
    var l := Carve(page, size, k)[1..];
    hide Carve;
    forall j: nat | j < |l| ensures l[j] == page + (|l| - 1 - j) * size {
      assert l[j] == Carve(page, size, k)[j + 1];
    }
  }

  lemma SlabZone(s: Slab)
    requires SlabOk(s)
    ensures WellFormed(s.zone) && Invariant(s.zone) && Coalesced(s.zone)
  {
    hide InvariantExcept, CoalescedExcept;
  }

  // ----- an object just freed

  /**
    kmalloc() right after kfree(a) hands out a again, and undoes the kfree(), for up to
    16 bytes, whatever class a was carved for; a larger request never gets it.
   */
  lemma FreedIsNext(s: Slab, a: nat, size: nat)
    requires SlabOk(s) && |s.lists| == CLASSES && a in s.live
    ensures s.base * PAGE <= a && Kfree(s, a).Kfreed?
    ensures var t := Kfree(s, a).slab;
            && WellFormed(t.zone) && |t.lists| == CLASSES
            && (size <= 16 ==> Kmalloc(t, size) == Given(s.(live := s.live[a := size]), a))
            && (size > 16 ==> Kmalloc(t, size).Refused? || Kmalloc(t, size).addr != a)
  {
    PageOfOne();
    hide SlabOk, Kfree, Kmalloc, WellFormed, Pow2;
    KfreeKeeps(s, a);
    var t := Kfree(s, a).slab;
    Shape(t);
    if size <= 16 {
      KmallocListed(t, size, 0);
      assert t.lists[0 := s.lists[0]] == s.lists;
      assert (s.live - {a})[a := size] == s.live[a := size];
    } else {
      LargerMisses(t, a, size);
    }
  }

  /** What is on the first list is not handed out for more than 16 bytes. */
  lemma LargerMisses(t: Slab, a: nat, size: nat)
    requires SlabOk(t) && WellFormed(t.zone) && |t.lists| == CLASSES
    requires t.lists[0] != [] && t.lists[0][0] == a && size > 16
    ensures Kmalloc(t, size).Refused? || Kmalloc(t, size).addr != a
  {
    SizeIndexExact(size);
    ClassSizes();
    hide SizeIndex, ClassSize, ObjectsOk, InvariantExcept, CoalescedExcept;
    match SizeIndex(size)
    case None =>
    case Some(i) =>
      assert i > 0;
      FirstElsewhere(t, a, i);
      if t.lists[i] == [] && Refill(t, i).Some? { RefillElsewhere(t, a, i); }
  }

  lemma FirstElsewhere(t: Slab, a: nat, i: nat)
    requires SlabOk(t) && |t.lists| == CLASSES && t.lists[0] != [] && t.lists[0][0] == a && 0 < i < CLASSES
    ensures a / PAGE in t.pages && (t.lists[i] != [] ==> t.lists[i][0] != a)
  {
    hide ClassSize, InvariantExcept, CoalescedExcept, NothingLost, LiveOk;
    assert Listed(t.lists, a, 0);
    assert !Listed(t.lists, a, i);
    assert t.lists[i] != [] ==> t.lists[i][0] in t.lists[i];
  }

  lemma RefillElsewhere(t: Slab, a: nat, i: nat)
    requires SlabOk(t) && WellFormed(t.zone) && |t.lists| == CLASSES && i < CLASSES && t.lists[i] == []
    requires Refill(t, i).Some? && a / PAGE in t.pages
    ensures var l := Refill(t, i).value.lists; |l| == CLASSES && (l[i] != [] ==> l[i][0] != a)
  {
    hide SlabOk, Alloc, Carve, ClassSize, PerPage, WellFormed, NoDuplicates;
    NewPage(t);
    var f := t.base + Alloc(t.zone, 0).page;
    CarvedPage(f, i);
    var l := Carve(f * PAGE, ClassSize(i), PerPage(i));
    assert l[0] in l;
  }
}
