/**
  snub.c in its own form: nine caches whose free lists are threaded through the
  memory of the free objects themselves. Memory is a map from the addresses of
  64-bit words to their values; 0 is NULL.
 */
module SlabAllocator {
  import opened Basics
  import opened Bits
  import opened BuddyModel
  import opened BuddyInvariant
  import opened BuddyCalls
  import opened SlabModel
  import opened SlabRuns

  /** From `head`, following the first word of each object, the list is l. */
  ghost predicate Threaded(mem: map<nat, nat>, head: nat, l: seq<nat>)
    decreases |l|
  {
    if l == [] then head == 0 else head == l[0] && head != 0 && head in mem && Threaded(mem, mem[head], l[1..])
  }

  /** Two memories agree on the first words of the objects in a list. */
  ghost predicate SameWords(mem: map<nat, nat>, mem': map<nat, nat>, l: seq<nat>) {
    forall a: nat :: a in l && a in mem ==> a in mem' && mem'[a] == mem[a]
  }

  lemma {:induction false} ThreadedFrame(mem: map<nat, nat>, mem': map<nat, nat>, head: nat, l: seq<nat>)
    requires Threaded(mem, head, l) && SameWords(mem, mem', l)
    ensures Threaded(mem', head, l)
    decreases |l|
  {
    if l != [] {
      assert l[0] in l && forall a: nat :: a in l[1..] ==> a in l;
      ThreadedFrame(mem, mem', mem[head], l[1..]);
    }
  }

  ghost predicate AllThreaded(mem: map<nat, nat>, heads: seq<nat>, lists: seq<seq<nat>>) {
    |heads| == |lists| && forall i: nat :: i < |lists| ==> Threaded(mem, heads[i], lists[i])
  }

  lemma AllThreadedFrame(mem: map<nat, nat>, mem': map<nat, nat>, heads: seq<nat>, lists: seq<seq<nat>>)
    requires AllThreaded(mem, heads, lists)
    requires forall a: nat, i: nat :: Listed(lists, a, i) && a in mem ==> a in mem' && mem'[a] == mem[a]
    ensures AllThreaded(mem', heads, lists)
  {
    hide Threaded;
    forall i: nat | i < |lists| ensures Threaded(mem', heads[i], lists[i]) {
      forall a: nat | a in lists[i] && a in mem ensures a in mem' && mem'[a] == mem[a] { assert Listed(lists, a, i); }
      ThreadedFrame(mem, mem', heads[i], lists[i]);
    }
  }

  /** memset() of a whole page to zero */
  function ZeroPage(mem: map<nat, nat>, f: nat): map<nat, nat> {
    mem + map w: nat | f * PAGE <= w < f * PAGE + PAGE && w % 8 == 0 :: 0
  }

  /** Free objects lie on pages of the slab. */
  lemma ListedOnPage(s: Slab, a: nat, i: nat)
    requires SlabOk(s) && Listed(s.lists, a, i)
    ensures a / PAGE in s.pages && a !in s.live && Object(s.pages, a) && i <= s.pages[a / PAGE] && i < CLASSES
  {
    hide InvariantExcept, CoalescedExcept, NothingLost, LiveOk, ClassSize, NoDuplicates;
  }

  lemma NoHalt(s: Slab)
    requires SlabOk(s) && WellFormed(s.zone)
    ensures !Alloc(s.zone, 0).AllocHalt?
  {
    hide InvariantExcept, CoalescedExcept, Alloc, ObjectsOk;
    AllocKeeps(s.zone, 0);
  }

  /** Inside a live object there is no free object. */
  lemma StoreMisses(s: Slab, a: nat, w: nat, b: nat, i: nat)
    requires SlabOk(s) && a in s.live && a / PAGE in s.pages
    requires a <= w < a + Capacity(s.pages, a) && Listed(s.lists, b, i)
    ensures w != b
  {
    hide SlabOk, ClassSize;
    LiveIsObject(s, a);
    ListedOnPage(s, b, i);
    ObjectAddress(s, a);
    ObjectAddress(s, b);
    ObjectsApart(s.pages, a, b);
  }

  class Snub {
    var zone: Zone
    const base: nat
    const objectSize: array<nat>
    const partial: array<nat>
    var mem: map<nat, nat>
    ghost var slab: Slab

    ghost predicate Ok()
      reads this, objectSize, partial
    {
      && SlabOk(slab) && WellFormed(zone) && |slab.lists| == CLASSES && slab.zone == zone && slab.base == base
      && objectSize.Length == CLASSES == partial.Length && objectSize != partial
      && (forall i: nat :: i < CLASSES ==> objectSize[i] == ClassSize(i))
      && AllThreaded(mem, partial[..], slab.lists)
    }

    /** snub_init() on an allocator that is already up */
    constructor (start: Zone, base: nat)
      requires WellFormed(start) && Invariant(start) && Coalesced(start) && 0 < base && start.n <= 0x8_0000
      ensures Ok() && slab == Slab(start, base, seq(CLASSES, _ => []), map[], map[])
      ensures fresh(objectSize) && fresh(partial)
    {
      EmptySlabOk(start, base);
      zone, this.base, mem := start, base, map[];
      var sizes, heads := new nat[CLASSES], new nat[CLASSES];
      for i := 0 to CLASSES
        invariant forall j: nat :: j < i ==> sizes[j] == ClassSize(j) && heads[j] == 0
      {
        sizes[i], heads[i] := ClassSize(i), 0;
      }
      objectSize, partial := sizes, heads;
      slab := Slab(start, base, seq(CLASSES, _ => []), map[], map[]);
      new;
      assert forall i: nat :: i < CLASSES ==> Threaded(mem, partial[i], slab.lists[i]);
    }

    /** size_to_idx() */
    static method SizeToIdx(size: nat) returns (idx: int)
      ensures idx == if SizeIndex(size).Some? then SizeIndex(size).value else -1
      ensures idx == -1 <==> size > PAGE
      ensures idx != -1 ==> size <= ClassSize(idx) && forall j: nat :: j < idx ==> ClassSize(j) < size
    {
      SizeIndexExact(size);
      hide ClassSize;
      var i: nat := 0;
      while i < CLASSES && ClassSize(i) < size
        invariant i <= CLASSES && SizeIndex(size) == SizeIndexFrom(size, i)
      {
        i := i + 1;
      }
      idx := if i >= CLASSES then -1 else i;
    }

    /** The branch of kmalloc() that takes and carves a new page. */
    method RefillCache(idx: nat) returns (ok: bool)
      requires Ok() && idx < CLASSES && slab.lists[idx] == []
      modifies this, partial
      ensures Ok()
      ensures match Refill(old(slab), idx)
              case None => !ok && slab == old(slab)
              case Some(s) => ok && slab == s && s.lists[idx] != []
    {
      hide SlabOk, Alloc, Carve, ClassSize, PerPage;
      NoHalt(slab);
      match Alloc(zone, 0)
      case NoMemory => ok := false;
      case Allocated(z, h) =>
        NewPage(slab);
        RefillKeeps(slab, idx);
        ghost var before := slab;
        var f := base + h;
        var heads := CarvePage(f, idx);
        zone := z;
        partial[idx] := heads;
        slab := Refill(slab, idx).value;
        RefillThreads(before, mem, old(partial[..]), partial[..], idx, f, heads);
        ok := true;
    }

    /** Zeroing the new page and threading a list through its objects. */
    method CarvePage(f: nat, idx: nat) returns (head: nat)
      requires Ok() && idx < CLASSES && 0 < f && f !in slab.pages
      modifies this`mem
      ensures AllThreaded(mem, partial[..], slab.lists)
      ensures Threaded(mem, head, Carve(f * PAGE, ClassSize(idx), PerPage(idx)))
    {
      var page: nat, size: nat, n: nat := f * PAGE, objectSize[idx], PerPage(idx);
      ClassDivides(idx);
      hide ClassSize, PerPage, Threaded, AllThreaded, SlabOk, ObjectsOk, Carve;
      ZeroOffPage(slab, mem, partial[..], f);
      mem := ZeroPage(mem, f);
      hide ZeroPage;
      head := 0;
      CarveStart(mem, page, size);
      for i := 0 to n
        invariant AllThreaded(mem, partial[..], slab.lists) && Threaded(mem, head, Carve(page, size, i))
      {
        var obj: nat := page + i * size;
        CarveNext(mem, head, f, size, i, n);
        WriteOffPage(slab, mem, partial[..], f, obj, head);
        mem := mem[obj := head];
        head := obj;
      }
    }

    /** kmalloc(); 0 is NULL */
    method Kmalloc(size: nat) returns (ptr: nat)
      requires Ok()
      modifies this, partial
      ensures Ok()
      ensures match SlabModel.Kmalloc(old(slab), size)
              case Refused(s) => ptr == 0 && slab == s
              case Given(s, a) => ptr == a && ptr != 0 && slab == s
    {
      hide SlabOk, ClassSize, SizeIndex, Refill;
      KmallocKeeps(slab, size);
      var idx := SizeToIdx(size);
      if idx < 0 { return 0; }
      if partial[idx] == 0 {
        EmptyThread(mem, partial[idx], slab.lists[idx]);
        var ok := RefillCache(idx);
        if !ok { return 0; }
      }
      ptr := PopFirst(idx, size);
    }

    /** Unlinking the first object of a cache. */
    method PopFirst(idx: nat, size: nat) returns (ptr: nat)
      requires Ok() && idx < CLASSES && slab.lists[idx] != [] && size <= ClassSize(idx)
      modifies this`slab, partial
      ensures Ok() && ptr != 0 && Given(slab, ptr) == TakeFirst(old(slab), idx, size)
    {
      hide SlabOk, ClassSize;
      GiveFirst(slab, idx, size);
      ptr := partial[idx];
      assert Threaded(mem, partial[idx], slab.lists[idx]);
      partial[idx] := mem[ptr];
      slab := TakeFirst(slab, idx, size).slab;
      assert slab.lists[idx] == old(slab.lists[idx])[1..];
      assert forall i: nat :: i < CLASSES && i != idx ==>
               slab.lists[i] == old(slab.lists[i]) && partial[i] == old(partial[i]);
      hide Threaded;
      assert AllThreaded(mem, partial[..], slab.lists);
    }

    /** kfree() of an object handed out */
    method Kfree(ptr: nat)
      requires Ok() && ptr in slab.live
      modifies this, partial
      ensures Ok() && SlabModel.Kfreed(slab) == SlabModel.Kfree(old(slab), ptr)
      ensures partial[0] == ptr
    {
      hide SlabOk, KfreeOffset, ClassSize;
      KfreeKeeps(slab, ptr);
      LiveIsObject(slab, ptr);
      ObjectAddress(slab, ptr);
      KfreeGuess(base, ptr);
      BasePositive(slab);
      var i := GuessClass(KfreeOffset(base, ptr));
      hide KfreeClassFrom;
      PushObject(i, ptr);
    }

    /** The loop of kfree() over the caches; CLASSES when none matches, where the source calls free_pages(). */
    method GuessClass(diff: int) returns (i: nat)
      requires Ok()
      ensures KfreeClassFrom(diff, 0) == if i < CLASSES then Some(i) else None
    {
      hide SlabOk, ClassSize;
      i := 0;
      while i < CLASSES && !(diff % objectSize[i] == 0 && diff < PAGE)
        invariant i <= CLASSES && KfreeClassFrom(diff, i) == KfreeClassFrom(diff, 0)
      {
        i := i + 1;
      }
    }

    /** Linking a live object in front of a cache's list. */
    method PushObject(idx: nat, ptr: nat)
      requires Ok() && idx < CLASSES && ptr in slab.live && ptr != 0
      requires SlabOk(slab.(lists := slab.lists[idx := [ptr] + slab.lists[idx]], live := slab.live - {ptr}))
      modifies this`mem, this`slab, partial
      ensures Ok() && partial[idx] == ptr
      ensures slab == old(slab).(lists := old(slab).lists[idx := [ptr] + old(slab).lists[idx]],
                live := old(slab).live - {ptr})
    {
      hide SlabOk, ClassSize;
      ghost var was, heads := mem, partial[..];
      forall a: nat, i: nat | Listed(slab.lists, a, i) ensures a != ptr { ListedOnPage(slab, a, i); }
      mem := mem[ptr := partial[idx]];
      AllThreadedFrame(was, mem, heads, slab.lists);
      partial[idx] := ptr;
      slab := slab.(lists := slab.lists[idx := [ptr] + slab.lists[idx]], live := slab.live - {ptr});
      assert [ptr] + old(slab.lists[idx]) == slab.lists[idx] && slab.lists[idx][1..] == old(slab.lists[idx]);
      assert Threaded(mem, partial[idx], slab.lists[idx]);
      assert forall i: nat :: i < CLASSES && i != idx ==> slab.lists[i] == old(slab.lists[i]) && partial[i] == heads[i];
      hide Threaded;
      assert AllThreaded(mem, partial[..], slab.lists);
    }

    /** A client writes a word of an object it holds: the lists do not see it. */
    method Store(a: nat, w: nat, v: nat)
      requires Ok() && a in slab.live && a <= w && w + 8 <= a + slab.live[a] && w % 8 == 0
      modifies this`mem
      ensures Ok() && mem == old(mem)[w := v]
    {
      LiveIsObject(slab, a);
      hide SlabOk, ClassSize;
      forall b: nat, i: nat | Listed(slab.lists, b, i) ensures w != b { StoreMisses(slab, a, w, b, i); }
      mem := mem[w := v];
      AllThreadedFrame(old(mem), mem, partial[..], slab.lists);
    }
  }

  // ----- steps of the methods

  lemma BasePositive(s: Slab)
    requires SlabOk(s)
    ensures 0 < s.base
  {
  }

  lemma EmptyThread(mem: map<nat, nat>, head: nat, l: seq<nat>)
    requires Threaded(mem, head, l)
    ensures head == 0 <==> l == []
  {
  }

  /** Writes confined to a page the slab does not have yet leave every list alone. */
  lemma OffPage(s: Slab, mem: map<nat, nat>, mem': map<nat, nat>, heads: seq<nat>, f: nat)
    requires SlabOk(s) && f !in s.pages && AllThreaded(mem, heads, s.lists)
    requires forall w: nat :: w in mem && w / PAGE != f ==> w in mem' && mem'[w] == mem[w]
    ensures AllThreaded(mem', heads, s.lists)
  {
    hide SlabOk, AllThreaded;
    forall a: nat, i: nat | Listed(s.lists, a, i) && a in mem
      ensures a in mem' && mem'[a] == mem[a]
    {
      ListedOnPage(s, a, i);
    }
    AllThreadedFrame(mem, mem', heads, s.lists);
  }

  lemma ZeroOffPage(s: Slab, mem: map<nat, nat>, heads: seq<nat>, f: nat)
    requires SlabOk(s) && f !in s.pages && AllThreaded(mem, heads, s.lists)
    ensures AllThreaded(ZeroPage(mem, f), heads, s.lists)
  {
    hide SlabOk, AllThreaded;
    OffPage(s, mem, ZeroPage(mem, f), heads, f);
  }

  lemma WriteOffPage(s: Slab, mem: map<nat, nat>, heads: seq<nat>, f: nat, w: nat, v: nat)
    requires SlabOk(s) && f !in s.pages && AllThreaded(mem, heads, s.lists) && w / PAGE == f
    ensures AllThreaded(mem[w := v], heads, s.lists)
  {
    hide SlabOk, AllThreaded;
    OffPage(s, mem, mem[w := v], heads, f);
  }

  lemma CarveStart(mem: map<nat, nat>, page: nat, size: nat)
    ensures Threaded(mem, 0, Carve(page, size, 0))
  {
  }

  /** One turn of the carving loop. */
  lemma CarveNext(mem: map<nat, nat>, head: nat, f: nat, size: nat, i: nat, n: nat)
    requires Threaded(mem, head, Carve(f * PAGE, size, i)) && 0 < f && 0 < size && i < n && n * size == PAGE
    ensures var obj: nat := f * PAGE + i * size;
            Threaded(mem[obj := head], obj, Carve(f * PAGE, size, i + 1)) && obj / PAGE == f
  {
    var page := f * PAGE;
    var obj := page + i * size;
    MulStep(i + 1, size);
    assert (n - i - 1) * size >= 0;
    assert obj < page + PAGE;
    CarveExact(page, size, i);
    ThreadedFrame(mem, mem[obj := head], head, Carve(page, size, i));
    assert Carve(page, size, i + 1)[1..] == Carve(page, size, i);
    InPage(f, obj);
  }

  lemma RefillThreads(s: Slab, mem: map<nat, nat>, heads: seq<nat>, heads': seq<nat>, idx: nat, f: nat, head: nat)
    requires WellFormed(s.zone) && |s.lists| == CLASSES && idx < CLASSES && AllThreaded(mem, heads, s.lists)
    requires heads' == heads[idx := head] && Alloc(s.zone, 0).Allocated? && f == s.base + Alloc(s.zone, 0).page
    requires Threaded(mem, head, Carve(f * PAGE, ClassSize(idx), PerPage(idx)))
    ensures AllThreaded(mem, heads', Refill(s, idx).value.lists)
  {
    hide Alloc, Carve, ClassSize, PerPage, Threaded;
  }
}
