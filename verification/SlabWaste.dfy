/**
  What kfree()'s guess costs: an object of a large class never returns to its
  class, so asking for a page-sized object and giving it back, again and again,
  takes a fresh page each time.
 */
module SlabWaste {
  import opened Basics
  import opened Bits
  import opened BuddyModel
  import opened BuddyInvariant
  import opened BuddyCalls
  import opened SlabModel
  import opened SlabRuns
  import BuddyHalts

  const LARGEST: nat := 8

  /** kmalloc(4096), and kfree() of the result; None when the request is refused. */
  function Turn(s: Slab): (r: Option<Slab>)
    requires SlabOk(s) && WellFormed(s.zone) && |s.lists| == CLASSES
    ensures r.Some? ==> SlabOk(r.value) && WellFormed(r.value.zone) && |r.value.lists| == CLASSES
  {
    KmallocKeeps(s, PAGE);
    match Kmalloc(s, PAGE)
    case Refused(_) => None
    case Given(t, a) =>
      Shape(t);
      KfreeKeeps(t, a);
      var u := Kfree(t, a).slab;
      Shape(u);
      Some(u)
  }

  /** n turns, as long as none is refused. */
  function Alternate(s: Slab, n: nat): (r: Option<Slab>)
    requires SlabOk(s) && WellFormed(s.zone) && |s.lists| == CLASSES
    ensures r.Some? ==> SlabOk(r.value) && WellFormed(r.value.zone) && |r.value.lists| == CLASSES
    decreases n
  {
    if n == 0 then Some(s)
    else
      match Turn(s)
      case None => None
      case Some(u) => Alternate(u, n - 1)
  }

  // ----- one turn

  lemma LargestClass()
    ensures SizeIndex(PAGE) == Some(LARGEST) && PerPage(LARGEST) == 1
  {
    ClassSizes();
    SizeIndexExact(PAGE);
    OnePerPage(ClassSize(LARGEST));
    hide ClassSize, SizeIndexFrom;
    assert forall j: nat :: j < SizeIndex(PAGE).value ==> ClassSize(j) < PAGE;
  }

  lemma OnePerPage(size: nat)
    requires size == PAGE
    ensures PAGE / size == 1
  {
  }

  /** A refill of the largest class is one object, the page itself. */
  lemma RefillTop(s: Slab)
    requires SlabOk(s) && WellFormed(s.zone) && |s.lists| == CLASSES && Refill(s, LARGEST).Some?
    ensures var s' := Refill(s, LARGEST).value;
            && |s'.lists| == CLASSES && |s'.lists[LARGEST]| == 1 && s'.zone.n == s.zone.n && s'.base == s.base
            && s'.live == s.live && |s'.pages| == |s.pages| + 1
  {
    hide SlabOk, Alloc, ClassSize, PerPage, Carve, SizeIndex, WellFormed;
    LargestClass();
    var h := Alloc(s.zone, 0).page;
    NewPage(s);
    CarveOne((s.base + h) * PAGE, ClassSize(LARGEST));
    MapGrows(s.pages, s.base + h, LARGEST);
  }

  lemma CarveOne(page: nat, size: nat)
    ensures |Carve(page, size, 1)| == 1
  {
  }

  /** kmalloc(4096) with nothing on the largest class's list: the new page is taken off again. */
  lemma MallocTop(s: Slab)
    requires SlabOk(s) && WellFormed(s.zone) && |s.lists| == CLASSES
    requires s.lists[LARGEST] == [] && Kmalloc(s, PAGE).Given?
    ensures var t, a := Kmalloc(s, PAGE).slab, Kmalloc(s, PAGE).addr;
            && SlabOk(t) && |t.lists| == CLASSES && t.lists[LARGEST] == []
            && a !in s.live && t.live == s.live[a := PAGE]
            && t.base == s.base && t.zone.n == s.zone.n && |t.pages| == |s.pages| + 1
  {
    KmallocKeeps(s, PAGE);
    LargestClass();
    hide SlabOk, SizeIndex, Refill, WellFormed, Object, Capacity, OnSomeList;
    RefillTop(s);
  }

  /** One request and its return. */
  lemma TurnTakes(s: Slab)
    requires SlabOk(s) && WellFormed(s.zone) && |s.lists| == CLASSES && s.lists[LARGEST] == []
    ensures match Turn(s)
            case None => Kmalloc(s, PAGE) == Refused(s)
            case Some(u) =>
              && u.lists[LARGEST] == [] && u.live == s.live && u.base == s.base && u.zone.n == s.zone.n
              && |u.pages| == |s.pages| + 1
  {
    hide SlabOk, Kmalloc, Kfree, WellFormed, Object, Capacity, OnSomeList;
    KmallocKeeps(s, PAGE);
    if Kmalloc(s, PAGE).Given? {
      var a := Kmalloc(s, PAGE).addr;
      MallocTop(s);
      KfreeKeeps(Kmalloc(s, PAGE).slab, a);
      PutAndTake(s.live, a, PAGE);
    }
  }

  lemma MapGrows(m: map<nat, nat>, f: nat, v: nat)
    requires f !in m
    ensures |m[f := v]| == |m| + 1
  {
    var m' := m[f := v];
    assert m'.Keys == m.Keys + {f};
    assert |m'| == |m'.Keys| && |m| == |m.Keys|;
  }

  lemma PutAndTake(m: map<nat, nat>, a: nat, v: nat)
    requires a !in m
    ensures m[a := v] - {a} == m
  {
  }

  // ----- any number of turns

  /** Over any number of turns: nothing more is handed out, and every turn took a page for good. */
  lemma {:induction false} AlternateTakes(s: Slab, n: nat)
    requires SlabOk(s) && WellFormed(s.zone) && |s.lists| == CLASSES && s.lists[LARGEST] == []
    ensures match Alternate(s, n)
            case None => true
            case Some(u) =>
              && u.lists[LARGEST] == [] && u.live == s.live && u.base == s.base && u.zone.n == s.zone.n
              && |u.pages| == |s.pages| + n
    decreases n
  {
    hide SlabOk, Turn, WellFormed;
    if n > 0 {
      TurnTakes(s);
      if Turn(s).Some? { AlternateTakes(Turn(s).value, n - 1); }
    }
  }

  /** The slab cannot have more pages than the allocator. */
  lemma PagesBounded(s: Slab)
    requires SlabOk(s)
    ensures |s.pages| <= s.zone.n
  {
    hide InvariantExcept, CoalescedExcept, ObjectsOk;
    var range := FramesFrom(s.base, s.zone.n);
    forall f | f in s.pages ensures f in range { assert Live(s.zone, f - s.base, 0); }
    BuddyHalts.SubsetSize(s.pages.Keys, range);
  }

  function FramesFrom(base: nat, n: nat): (r: set<nat>)
    ensures |r| == n && forall f: nat :: f in r <==> base <= f < base + n
  {
    if n == 0 then {} else FramesFrom(base, n - 1) + {base + n - 1}
  }

  /**
    With nothing on the largest class's list, alternating kmalloc(4096) and
    kfree() is refused in the end, after at most as many turns as there are pages,
    although nothing more is handed out than before.
   */
  lemma AlternateEnds(s: Slab) returns (n: nat, u: Slab)
    requires SlabOk(s) && WellFormed(s.zone) && |s.lists| == CLASSES && s.lists[LARGEST] == []
    ensures n <= s.zone.n && Alternate(s, n) == Some(u) && Alternate(s, n + 1) == None
    ensures u.live == s.live && WellFormed(u.zone) && |u.lists| == CLASSES && Kmalloc(u, PAGE) == Refused(u)
  {
    assert Alternate(s, 0) == Some(s);
    hide SlabOk, Turn, WellFormed, Kmalloc, Alternate;
    n := LastTurn(s, 0, s.zone.n + 1);
    u := Alternate(s, n).value;
    AlternateTakes(s, n);
    PagesBounded(u);
    AlternateNext(s, n);
    TurnTakes(u);
  }

  /** The last number of turns that works, between one that does and one that does not. */
  lemma {:induction false} LastTurn(s: Slab, lo: nat, hi: nat) returns (n: nat)
    requires SlabOk(s) && WellFormed(s.zone) && |s.lists| == CLASSES && s.lists[LARGEST] == []
    requires lo < hi && Alternate(s, lo).Some? && hi == s.zone.n + 1
    ensures Alternate(s, n).Some? && Alternate(s, n + 1) == None
    decreases hi - lo
  {
    hide SlabOk, Turn, WellFormed, Alternate;
    AlternateTakes(s, lo);
    PagesBounded(Alternate(s, lo).value);
    if Alternate(s, lo + 1) == None {
      n := lo;
    } else {
      AlternateTakes(s, lo + 1);
      PagesBounded(Alternate(s, lo + 1).value);
      n := LastTurn(s, lo + 1, hi);
    }
  }

  /** One more turn at the end. */
  lemma {:induction false} AlternateNext(s: Slab, n: nat)
    requires SlabOk(s) && WellFormed(s.zone) && |s.lists| == CLASSES && Alternate(s, n).Some?
    ensures Alternate(s, n + 1) == Turn(Alternate(s, n).value)
    decreases n
  {
    hide SlabOk, Turn, WellFormed;
    if n > 0 { AlternateNext(Turn(s).value, n - 1); }
  }
}
