/**
  The allocator in place: page_array as three arrays, the free lists threaded
  through `next` by page index, and the loops of kernel/mm/mem.c. Each method is
  proved to compute the function of BuddyModel on the same state.

  One address space is assumed (va_offset = 0), so a page struct has one address.
 */
module BuddyAllocator {
  import opened Basics
  import opened Bits
  import opened BuddyModel
  import opened BuddyInvariant
  import opened BuddyCalls
  import opened BuddyRuns
  import opened BuddyInit
  import opened BuddyHalts

  const NIL: int := -1
  const ADDRESSES: nat := 0x1_0000_0000_0000_0000

  /** From `head` the links lead through exactly the pages of l and then to NIL. */
  ghost predicate Chain(links: seq<int>, head: int, l: seq<nat>)
    decreases |l|
  {
    if l == [] then head == NIL
    else head == l[0] && l[0] < |links| && Chain(links, links[l[0]], l[1..])
  }

  lemma {:induction false} ChainElsewhere(links: seq<int>, head: int, l: seq<nat>, x: nat, v: int)
    requires Chain(links, head, l) && x < |links| && x !in l
    ensures Chain(links[x := v], head, l)
    decreases |l|
  {
    if l != [] { ChainElsewhere(links, links[l[0]], l[1..], x, v); }
  }

  lemma ChainPush(links: seq<int>, head: int, l: seq<nat>, x: nat)
    requires Chain(links, head, l) && x < |links| && x !in l
    ensures Chain(links[x := head], x, [x] + l)
  {
    ChainElsewhere(links, head, l, x, head);
    assert ([x] + l)[1..] == l;
  }

  /** Unlinking the page at position i > 0 through its predecessor. */
  lemma {:induction false} ChainUnlink(links: seq<int>, head: int, l: seq<nat>, i: nat)
    requires Chain(links, head, l) && NoDuplicates(l) && 0 < i < |l|
    ensures l[i] < |links| && l[i - 1] < |links|
    ensures Chain(links[l[i - 1] := links[l[i]]], head, l[..i] + l[i + 1..])
    decreases i
  {
    var t, l' := l[1..], l[..i] + l[i + 1..];
    assert t[i - 1] == l[i] && NoDuplicates(t);
    if i == 1 {
      assert l'[1..] == t[1..] == l[2..];
      ChainElsewhere(links, links[l[1]], l[2..], l[0], links[l[1]]);
    } else {
      assert t[i - 2] == l[i - 1];
      ChainUnlink(links, links[l[0]], t, i - 1);
      assert l'[1..] == t[..i - 1] + t[i..];
    }
  }

  lemma {:induction false} RemoveAt(l: seq<nat>, i: nat)
    requires i < |l| && l[i] !in l[..i]
    ensures Remove(l, l[i]) == l[..i] + l[i + 1..]
    decreases i
  {
    if i > 0 {
      assert l[0] == l[..i][0] && l[1..][i - 1] == l[i] && l[1..][..i - 1] == l[1..i];
      assert l[1..i] == l[..i][1..];
      RemoveAt(l[1..], i - 1);
      assert l[..i] + l[i + 1..] == [l[0]] + (l[1..i] + l[i + 1..]);
    }
  }

  lemma {:induction false} RemoveAbsent(l: seq<nat>, x: nat)
    requires x !in l
    ensures Remove(l, x) == l
  {
    if l != [] { RemoveAbsent(l[1..], x); assert l == [l[0]] + l[1..]; }
  }

  /** A page on list k is marked free with order k, so it is on no other list; and it is there once. */
  ghost predicate ListsApart(z: Zone)
    requires WellFormed(z)
  {
    forall k: nat :: k <= MAX_ORDER ==> NoDuplicates(z.lists[k]) && MarkedAs(z, z.lists[k], k)
  }

  predicate MarkedAs(z: Zone, l: seq<nat>, k: nat)
    requires WellFormed(z)
  {
    forall x: nat :: x in l ==> x < z.n && z.free[x] && z.order[x] == k
  }

  ghost predicate OffLists(z: Zone, a: nat)
    requires WellFormed(z)
  {
    forall k: nat :: k <= MAX_ORDER ==> a !in z.lists[k]
  }

  lemma InvariantApart(z: Zone)
    requires Invariant(z)
    ensures ListsApart(z)
  {
    hide Tiles, InteriorsHarmless, NoDuplicates;
    forall k: nat, x: nat | k <= MAX_ORDER && x in z.lists[k] ensures x < z.n && z.free[x] && z.order[x] == k {
      assert FreeHead(z, z.n, k, x);
    }
  }

  /** Relinking a page of list k leaves the chain of list j alone. */
  lemma ChainsApart(z: Zone, links: seq<int>, head: int, j: nat, k: nat, i: nat, v: int)
    requires WellFormed(z) && ListsApart(z) && j <= MAX_ORDER && k <= MAX_ORDER && j != k
    requires i < |z.lists[k]| && z.lists[k][i] < |links| && Chain(links, head, z.lists[j])
    ensures Chain(links[z.lists[k][i] := v], head, z.lists[j])
  {
    var x := z.lists[k][i];
    assert x in z.lists[k] && MarkedAs(z, z.lists[k], k) && MarkedAs(z, z.lists[j], j);
    ChainElsewhere(links, head, z.lists[j], x, v);
  }

  /** Every list is a chain of links from its head. */
  ghost predicate Threaded(links: seq<int>, heads: seq<int>, lists: seq<seq<nat>>) {
    && |heads| == |lists| == MAX_ORDER + 1
    && forall k: nat :: k <= MAX_ORDER ==> Chain(links, heads[k], lists[k])
  }

  lemma ListEmpty(links: seq<int>, heads: seq<int>, lists: seq<seq<nat>>, k: nat)
    requires Threaded(links, heads, lists) && k <= MAX_ORDER
    ensures k < |heads| && k < |lists| && (heads[k] == NIL <==> lists[k] == [])
  {
    assert Chain(links, heads[k], lists[k]);
  }

  lemma UnlinkFirst(links: seq<int>, heads: seq<int>, lists: seq<seq<nat>>, k: nat)
    requires Threaded(links, heads, lists) && k <= MAX_ORDER && lists[k] != []
    ensures lists[k][0] < |links|
    ensures Threaded(links, heads[k := links[lists[k][0]]], lists[k := lists[k][1..]])
  {
  }

  lemma UnlinkInside(z: Zone, links: seq<int>, heads: seq<int>, k: nat, i: nat)
    requires WellFormed(z) && ListsApart(z) && Threaded(links, heads, z.lists) && k <= MAX_ORDER
    requires 0 < i < |z.lists[k]|
    ensures var l := z.lists[k];
            && l[i] < |links| && l[i - 1] < |links|
            && Threaded(links[l[i - 1] := links[l[i]]], heads, z.lists[k := l[..i] + l[i + 1..]])
  {
    var l := z.lists[k];
    ChainUnlink(links, heads[k], l, i);
    forall j: nat | j <= MAX_ORDER && j != k ensures Chain(links[l[i - 1] := links[l[i]]], heads[j], z.lists[j]) {
      ChainsApart(z, links, heads[j], j, k, i - 1, links[l[i]]);
    }
  }

  /** alloc_pages() finds nothing exactly if every list from k up is empty. */
  lemma AllocUnrolls(z: Zone, k: nat)
    requires Invariant(z) && WellFormed(z)
    ensures k > MAX_ORDER ==> Alloc(z, k) == NoMemory
    ensures k <= MAX_ORDER && FirstNonEmpty(z.lists, k) > MAX_ORDER ==> Alloc(z, k) == NoMemory
  {
    hide InvariantExcept;
  }

  lemma {:induction false} FirstNonEmptyIs(lists: seq<seq<nat>>, k: nat, o: nat)
    requires |lists| == MAX_ORDER + 1 && k <= o <= MAX_ORDER + 1
    requires forall j :: k <= j < o ==> lists[j] == []
    requires o <= MAX_ORDER ==> lists[o] != []
    ensures FirstNonEmpty(lists, k) == o
  {
  }

  /** buddy_of on byte offsets flips the page index and keeps the offset inside the page. */
  lemma BuddyOfBytes(i: nat, r: nat, k: nat)
    requires r < PAGE
    ensures Xor(PAGE * i + r, PAGE * Pow2(k)) == PAGE * BuddyOf(i, k) + r
  {
    assert Pow2(12) == PAGE;
    XorScale(i, Pow2(k), 12, r);
    BuddyIsXor(i, k);
  }

  /** From (a, k) the merge loop climbs to `goal`, with the page in hand on no list all the way. */
  ghost predicate Climbing(z: Zone, a: nat, k: nat, goal: FreeOutcome)
    decreases MAX_ORDER - k
  {
    && WellFormed(z) && a < z.n && k <= MAX_ORDER && ListsApart(z) && OffLists(z, a)
    && var b := BuddyOf(a, k);
       if k == MAX_ORDER || (b < z.n && (!z.free[b] || z.order[b] != k)) then goal == Freed(Push(z, a, k))
       else if b >= z.n then goal == FreeHalt
       else Climbing(MergeStep(z, a, b, k), if a > b then b else a, k + 1, goal)
  }

  predicate Joins(z: Zone, a: nat, k: nat) {
    k < MAX_ORDER && var b := BuddyOf(a, k); b < z.n && b < |z.free| && b < |z.order| && z.free[b] && z.order[b] == k
  }

  lemma ClimbEnds(z: Zone, a: nat, k: nat)
    requires WellFormed(z) && a < z.n && k <= MAX_ORDER && ListsApart(z) && OffLists(z, a) && !Joins(z, a, k)
    ensures Climbing(z, a, k, Merge(z, a, k))
  {
    hide ListsApart, OffLists, BuddyOf, Push;
  }

  lemma ClimbGoesOn(z: Zone, a: nat, k: nat, z': Zone, lo: nat)
    requires WellFormed(z) && a < z.n && k <= MAX_ORDER && ListsApart(z) && OffLists(z, a) && Joins(z, a, k)
    requires z' == MergeStep(z, a, BuddyOf(a, k), k) && lo == if a > BuddyOf(a, k) then BuddyOf(a, k) else a
    requires WellFormed(z') && lo < z'.n && Climbing(z', lo, k + 1, Merge(z', lo, k + 1))
    ensures Climbing(z, a, k, Merge(z, a, k))
  {
    hide ListsApart, OffLists, BuddyOf, MergeStep;
  }

  /** The merge loop climbs like this from every page on no list, whoever owns it. */
  lemma {:induction false} MergeClimbs(z: Zone, a: nat, k: nat)
    requires WellFormed(z) && a < z.n && k <= MAX_ORDER && ListsApart(z) && OffLists(z, a)
    ensures Climbing(z, a, k, Merge(z, a, k))
    decreases MAX_ORDER - k
  {
    hide BuddyOf, ListsApart, OffLists, MergeStep, Merge, Climbing;
    if Joins(z, a, k) {
      var b := BuddyOf(a, k);
      var z', lo := MergeStep(z, a, b, k), if a > b then b else a;
      StepApart(z, a, b, k);
      MergeClimbs(z', lo, k + 1);
      ClimbGoesOn(z, a, k, z', lo);
    } else {
      ClimbEnds(z, a, k);
    }
  }

  /** One merge: the buddy leaves its list, and both pages are then on none. */
  lemma StepApart(z: Zone, a: nat, b: nat, k: nat)
    requires WellFormed(z) && k < MAX_ORDER && ListsApart(z)
    requires OffLists(z, a) && b < z.n && z.free[b] && z.order[b] == k
    ensures var z' := MergeStep(z, a, b, k);
            WellFormed(z') && z'.n == z.n && ListsApart(z') && OffLists(z', a) && OffLists(z', b)
  {
    RemoveProperties(z.lists[k], b);
    hide Remove, NoDuplicates;
    var z' := MergeStep(z, a, b, k);
    forall m: nat | m <= MAX_ORDER
      ensures NoDuplicates(z'.lists[m]) && MarkedAs(z', z'.lists[m], m) && b !in z'.lists[m]
    {
      assert MarkedAs(z, z.lists[m], m);
    }
  }

  lemma OrderBound(z: Zone, h: nat)
    requires InvariantExcept(z, h) && h in z.blocks
    ensures z.blocks[h] <= MAX_ORDER
  {
  }

  /** Before a turn of the split loop: the upper half is in range and on no list. */
  lemma SplitReady(z: Zone, h: nat, c: nat)
    requires InvariantExcept(z, h) && WellFormed(z) && h in z.blocks && z.blocks[h] == c && c > 0
    ensures c <= MAX_ORDER && h + Pow2(c - 1) < z.n
    ensures forall j: nat :: j <= MAX_ORDER ==> h + Pow2(c - 1) !in z.lists[j]
  {
    SplitTiles(z.blocks, z.n, h, c - 1);
    hide Pow2, InteriorsHarmless, Disjoint, AllCovered;
    Unlisted(z, h, h + Pow2(c - 1));
  }

  /** Before a turn of the populating loop: the page is on no list, and the turn keeps what has been done. */
  lemma PopulateReady(z: Zone, first: nat, i: nat, o: nat)
    requires WellFormed(z) && Populated(z, first, i) && i < z.n
    requires o == GreedyOrder(first + i, first + z.n, MAX_ORDER)
    ensures o <= MAX_ORDER && i + Pow2(o) <= z.n && Populated(PopulateOne(z, i, o), first, i + Pow2(o))
    ensures forall j: nat :: j <= MAX_ORDER ==> i !in z.lists[j]
  {
    assert Fits(first + i, first + z.n, o);
    ExtendTiles(z.blocks, i, o);
    PopulateStep(z, first, i, o);
    hide Pow2, Aligned, GreedyOrder, PopulateOne, Tiles;
    Unlisted(z, z.n, i);
  }

  datatype Turn = Halt | Stop | Climb

  class Allocator {
    var base: nat              // buddy_base_phys
    var numPages: nat
    var order: array<nat>      // page_array[i].order
    var isFree: array<bool>    // page_array[i].is_free
    var next: array<int>       // page_array[i].next, as a page index
    var heads: array<int>      // free_lists
    ghost var zone: Zone       // the same state as a value

    ghost predicate Shaped()
      reads this
    {
      && order.Length == isFree.Length == next.Length == numPages
      && heads.Length == MAX_ORDER + 1
      && next != heads && order as object != next && order as object != heads
      && 0 < base && base + numPages * PAGE <= ADDRESSES
    }

    /** The arrays hold the zone: metadata page by page, each list as a chain of links. */
    ghost predicate Holds()
      reads this, order, isFree, next, heads
    {
      && Shaped() && zone.n == numPages && WellFormed(zone)
      && order[..] == zone.order && isFree[..] == zone.free
      && Threaded(next[..], heads[..], zone.lists)
    }

    ghost predicate Valid()
      reads this, order, isFree, next, heads
    {
      Holds() && Invariant(zone)
    }

    /** buddy_allocator_init (lines 68-132), with the kernel image ending at kernelEnd. */
    constructor (kernelEnd: nat)
      requires 0 < kernelEnd && AlignUp(kernelEnd) + PAGE <= USER_END
      ensures Valid() && Coalesced(zone) && fresh(order) && fresh(isFree) && fresh(next) && fresh(heads)
      ensures numPages == NumPages((USER_END - AlignUp(kernelEnd)) / PAGE - 1)
      ensures base == USER_END - numPages * PAGE && zone == Init(base / PAGE, numPages)
    {
      hide AlignUp, NumPages, Invariant, Coalesced, Init, GreedyOrder;
      InitLayout(kernelEnd);
      var physStart := AlignUp(kernelEnd) + PAGE;              // the kernel page table comes first
      var estimated := (USER_END - physStart) / (PAGE + PAGE_T_SIZE);
      var start := AlignUp(physStart + AlignUp(estimated * PAGE_T_SIZE));
      var n := (USER_END - start) / PAGE;
      base, numPages := start, n;
      order, isFree, next := new nat[n](_ => 0), new bool[n](_ => false), new int[n](_ => NIL);
      heads := new int[MAX_ORDER + 1](_ => NIL);
      zone := Blank(n);
      new;
      assert order[..] == zone.order && isFree[..] == zone.free;
      Populate();
    }

    /** The greedy choice of a block order (lines 107-114), in page numbers. */
    static method PickOrder(p: nat, end: nat) returns (o: nat)
      requires p < end
      ensures o == GreedyOrder(p, end, MAX_ORDER)
    {
      o := MAX_ORDER;
      while o > 0 && !Fits(p, end, o)
        invariant o <= MAX_ORDER && GreedyOrder(p, end, o) == GreedyOrder(p, end, MAX_ORDER)
      {
        o := o - 1;
      }
    }

    /** The populating loop (lines 104-123), in page numbers. */
    method Populate()
      requires Holds() && zone == Blank(numPages) && base % PAGE == 0
      requires base / PAGE + numPages == USER_END / PAGE
      modifies order, isFree, next, heads, `zone
      ensures Valid() && Coalesced(zone) && zone == Init(base / PAGE, numPages)
    {
      hide Invariant, Coalesced, Populated, Chain, Threaded, Pow2, GreedyOrder, Fits, Aligned, Blank, LedgerExact;
      ghost var n := numPages;
      var first, end := base / PAGE, USER_END / PAGE;
      UserEndAligned(first, n);
      BlankPopulated(first, n);
      BootIsGood(first, n);
      var curr := first;
      while curr < end
        invariant first <= curr <= end && Holds() && Populated(zone, first, curr - first)
        invariant BuddyInit.Populate(zone, first, curr - first) == Init(first, n)
      {
        var o := PickOrder(curr, end);
        PopulateTurn(curr - first, o);
        curr := curr + Pow2(o);
      }
    }

    /** One turn of the populating loop (lines 116-122). */
    method PopulateTurn(i: nat, o: nat)
      requires Holds() && i < numPages && Populated(zone, base / PAGE, i)
      requires base / PAGE + numPages == USER_END / PAGE
      requires o == GreedyOrder(base / PAGE + i, base / PAGE + numPages, MAX_ORDER)
      modifies order, isFree, next, heads, `zone
      ensures Holds() && zone == PopulateOne(old(zone), i, o) && i + Pow2(o) <= numPages
      ensures Populated(zone, base / PAGE, i + Pow2(o))
    {
      hide Populated, GreedyOrder, Aligned, Pow2, Threaded, Fits;
      PopulateReady(zone, base / PAGE, i, o);
      PushFree(i, o);
      zone := zone.(blocks := zone.blocks[i := o]);
    }

    /** page->order = k; page->is_free = true; page->next = free_lists[k]; free_lists[k] = page */
    method PushFree(x: nat, k: nat)
      requires Holds() && x < numPages && k <= MAX_ORDER
      requires forall j: nat :: j <= MAX_ORDER ==> x !in zone.lists[j]
      modifies order, isFree, next, heads, `zone
      ensures Holds() && zone == Push(old(zone), x, k)
    {
      ghost var links, tops, lists := next[..], heads[..], zone.lists;
      order[x] := k;
      isFree[x] := true;
      next[x] := heads[k];
      heads[k] := x;
      zone := Push(zone, x, k);
      assert next[..] == links[x := tops[k]];
      forall j: nat | j <= MAX_ORDER ensures Chain(next[..], heads[j], zone.lists[j]) {
        if j == k { ChainPush(links, tops[k], lists[k], x); }
        else { ChainElsewhere(links, tops[j], lists[j], x, tops[k]); }
      }
    }

    // ----- alloc_pages

    /** One turn of the split loop (lines 164-175). */
    method SplitOnce(h: nat, c: nat)
      requires Holds() && InvariantExcept(zone, h) && h in zone.blocks && zone.blocks[h] == c && c > 0
      modifies order, isFree, next, heads, `zone
      ensures Holds() && h + Pow2(c - 1) < zone.n && zone == SplitStep(old(zone), h, c)
    {
      hide InvariantExcept, Pow2, Threaded;
      var buddyIdx := h + Pow2(c - 1);
      SplitReady(zone, h, c);
      PushFree(buddyIdx, c - 1);
      zone := zone.(blocks := zone.blocks[h := c - 1][buddyIdx := c - 1]);
    }

    /** The split loop (lines 163-176). */
    method SplitDown(h: nat, o: nat, k: nat)
      requires Holds() && InvariantExcept(zone, h) && h in zone.blocks && zone.blocks[h] == o && k <= o
      modifies order, isFree, next, heads, `zone
      ensures Holds() && Split(old(zone), h, o, k) == Freed(zone)
    {
      OrderBound(zone, h);
      hide Threaded, Pow2, InvariantExcept, SplitStep;
      var curr := o;
      while curr > k
        invariant k <= curr <= o <= MAX_ORDER && Holds()
        invariant InvariantExcept(zone, h) && h in zone.blocks && zone.blocks[h] == curr
        invariant Split(zone, h, curr, k) == Split(old(zone), h, o, k)
      {
        SplitStepKeeps(zone, h, curr);
        SplitOnce(h, curr);
        curr := curr - 1;
      }
    }

    /** Take the first page of a list for order k (lines 154-158). */
    method PopFirst(o: nat, k: nat) returns (h: nat)
      requires Holds() && o <= MAX_ORDER && k <= MAX_ORDER && zone.lists[o] != []
      modifies order, isFree, heads, `zone
      ensures Holds() && h < numPages && h == old(zone).lists[o][0] && zone == Pop(old(zone), o, k)
    {
      ghost var links, tops := next[..], heads[..];
      UnlinkFirst(links, tops, zone.lists, o);
      h := heads[o];
      order[h] := k;
      isFree[h] := false;
      heads[o] := next[h];
      zone := Pop(zone, o, k);
      assert heads[..] == tops[o := links[h]];
    }

    /** alloc_pages: the address of a block of 2^k pages, or 0. */
    method AllocPages(k: nat) returns (addr: nat)
      requires Valid()
      modifies order, isFree, next, heads, `zone
      ensures Valid()
      ensures !Alloc(old(zone), k).AllocHalt?
      ensures Alloc(old(zone), k).NoMemory? ==> addr == 0 && zone == old(zone)
      ensures Alloc(old(zone), k).Allocated? ==>
                addr == base + Alloc(old(zone), k).page * PAGE && zone == Alloc(old(zone), k).zone
    {
      AllocKeeps(zone, k);
      hide Invariant, Alloc, Threaded, Live, FreeHead;
      AllocUnrolls(zone, k);
      if k > MAX_ORDER { return 0; }
      var o := FindList(k);
      if o > MAX_ORDER { return 0; }
      addr := TakeFrom(o, k);
    }

    /** The first non-empty list from k up (lines 149-151). */
    method FindList(k: nat) returns (o: nat)
      requires Holds() && k <= MAX_ORDER
      ensures o == FirstNonEmpty(zone.lists, k)
    {
      hide Threaded, FirstNonEmpty;
      o := k;
      while o <= MAX_ORDER
        invariant k <= o <= MAX_ORDER + 1 && forall j :: k <= j < o ==> zone.lists[j] == []
      {
        ListEmpty(next[..], heads[..], zone.lists, o);
        if heads[o] != NIL { break; }
        o := o + 1;
      }
      FirstNonEmptyIs(zone.lists, k, o);
    }

    /** Pop list o, the first non-empty one, and split the block down to order k (lines 153-187). */
    method TakeFrom(o: nat, k: nat) returns (addr: nat)
      requires Valid() && k <= o <= MAX_ORDER && zone.lists[o] != [] && FirstNonEmpty(zone.lists, k) == o
      modifies order, isFree, next, heads, `zone
      ensures Valid() && Alloc(old(zone), k).Allocated?
      ensures addr == base + Alloc(old(zone), k).page * PAGE && zone == Alloc(old(zone), k).zone
    {
      AllocKeeps(zone, k);
      PopKeeps(zone, o, k);
      hide InvariantExcept, Split, Pow2, Threaded, Live;
      var h := PopFirst(o, k);
      SplitDown(h, o, k);
      addr := base + h * PAGE;
    }

    // ----- free_pages

    /** get_page_struct: the page index of an address; the source halts when it is out of range. */
    function PageIndex(pa: nat): (i: nat)
      reads this
      requires Shaped() && pa < ADDRESSES
      ensures i < numPages <==> base <= pa < base + numPages * PAGE
      ensures i < numPages ==> i == (pa - base) / PAGE
    {
      (if pa >= base then pa - base else pa - base + ADDRESSES) / PAGE
    }

    /** Walk list k to page b: the position of b, or the length of the list (lines 239-241). */
    method Find(k: nat, b: nat) returns (prev: int, cur: int, ghost i: nat)
      requires Holds() && k <= MAX_ORDER
      ensures var l := zone.lists[k];
              && i <= |l| && b !in l[..i] && prev == (if i == 0 then NIL else l[i - 1])
              && cur == (if i < |l| then b else NIL) && (i < |l| ==> l[i] == b)
    {
      ghost var l := zone.lists[k];
      i, prev, cur := 0, NIL, heads[k];
      assert l[0..] == l && Chain(next[..], cur, l[0..]);
      while cur != NIL && cur != b
        invariant 0 <= i <= |l| && prev == (if i == 0 then NIL else l[i - 1]) && b !in l[..i]
        invariant Chain(next[..], cur, l[i..])
        decreases |l| - i
      {
        assert l[i..][0] == l[i] && l[i..][1..] == l[i + 1..] && l[..i + 1] == l[..i] + [l[i]];
        prev, cur := cur, next[cur];
        i := i + 1;
      }
      assert i < |l| ==> l[i..][0] == l[i];
    }

    /** Remove a page from a free list by walking the links (lines 239-244). */
    method Unlink(k: nat, b: nat)
      requires Holds() && ListsApart(zone) && k <= MAX_ORDER
      modifies next, heads, `zone
      ensures Holds() && zone == old(zone).(lists := old(zone).lists[k := Remove(old(zone).lists[k], b)])
    {
      ghost var links, tops, l := next[..], heads[..], zone.lists[k];
      var prev, cur, i := Find(k, b);
      if cur == b {
        RemoveAt(l, i);
        if prev == NIL {
          UnlinkFirst(links, tops, zone.lists, k);
          heads[k] := next[b];
        } else {
          UnlinkInside(zone, links, tops, k, i);
          next[prev] := next[b];
        }
      } else {
        assert l[..i] == l;
        RemoveAbsent(l, b);
      }
      hide ListsApart, Remove, Chain, Threaded;
      zone := zone.(lists := zone.lists[k := Remove(l, b)]);
      assert next[..] == if cur == b && prev != NIL then links[l[i - 1] := links[l[i]]] else links;
      assert heads[..] == if cur == b && prev == NIL then tops[k := links[l[0]]] else tops;
    }

    /** One merge, once the buddy is found free (lines 239-250). */
    method MergeOnce(ghost a: nat, b: nat, k: nat)
      requires Holds() && ListsApart(zone) && b < numPages && k < MAX_ORDER
      modifies isFree, next, heads, `zone
      ensures Holds() && zone == MergeStep(old(zone), a, b, k)
    {
      Unlink(k, b);
      isFree[b] := false;
      zone := MergeStep(old(zone), a, b, k);
    }

    /** The page index of the buddy, computed on byte addresses (lines 44-52, 17). */
    method BuddyIndex(addr: nat, k: nat) returns (buddyAddr: nat, b: nat)
      requires base <= addr
      ensures base <= buddyAddr && b == (buddyAddr - base) / PAGE == BuddyOf((addr - base) / PAGE, k)
      ensures addr > buddyAddr <==> (addr - base) / PAGE > b
    {
      ghost var a := (addr - base) / PAGE;
      buddyAddr := base + Xor(addr - base, PAGE * Pow2(k));
      BuddyOfBytes(a, (addr - base) % PAGE, k);
      BuddyInvolution(a, k);
      b := (buddyAddr - base) / PAGE;
    }

    /** The final push (lines 253-257). */
    method PutBack(addr: nat, k: nat, ghost a: nat)
      requires Holds() && base <= addr && a == (addr - base) / PAGE
      requires k <= MAX_ORDER && a < numPages && OffLists(zone, a)
      modifies order, isFree, next, heads, `zone
      ensures Holds() && zone == Push(old(zone), a, k)
    {
      PushFree((addr - base) / PAGE, k);
    }

    /** One turn of the merge loop (lines 232-250); None where the source halts, else whether it climbed. */
    method MergeTurn(addr: nat, k: nat, ghost a: nat) returns (turn: Turn, addr': nat)
      requires Holds() && base <= addr && a == (addr - base) / PAGE && k < MAX_ORDER && ListsApart(zone)
      modifies isFree, next, heads, `zone
      ensures base <= addr' && (turn != Halt ==> Holds()) && (turn != Climb ==> zone == old(zone) && addr' == addr)
      ensures var b := BuddyOf(a, k);
              && (turn == Halt <==> b >= zone.n)
              && (turn == Climb <==> b < zone.n && old(zone).free[b] && old(zone).order[b] == k)
              && (turn == Climb ==>
                    zone == MergeStep(old(zone), a, b, k) && (addr' - base) / PAGE == if a > b then b else a)
    {
      var buddyAddr, b := BuddyIndex(addr, k);
      if b >= numPages { return Halt, addr; }
      if !isFree[b] || order[b] != k { return Stop, addr; }
      MergeOnce(a, b, k);
      return Climb, if addr > buddyAddr then buddyAddr else addr;
    }

    /** The merge loop and the final push (lines 231-257), on byte addresses. */
    method MergeUp(start: nat, k0: nat, ghost goal: FreeOutcome) returns (halted: bool)
      requires Holds() && base <= start && Climbing(zone, (start - base) / PAGE, k0, goal)
      modifies order, isFree, next, heads, `zone
      ensures halted <==> goal.FreeHalt?
      ensures !halted ==> Holds() && goal == Freed(zone)
    {
      hide ListsApart, OffLists, BuddyOf, Threaded;
      var addr, k := start, k0;
      ghost var a := (start - base) / PAGE;
      while k < MAX_ORDER
        invariant Holds() && base <= addr && a == (addr - base) / PAGE && Climbing(zone, a, k, goal)
        decreases MAX_ORDER - k
      {
        var turn, addr' := MergeTurn(addr, k, a);
        if turn == Halt { return true; }
        if turn == Stop {
          PutBack(addr, k, a);
          return false;
        }
        addr, k, a := addr', k + 1, (addr' - base) / PAGE;
      }
      PutBack(addr, k, a);
      return false;
    }

    /**
      free_pages on any address. What it leaves is the invariant again if the
      address is 0, is marked free already, or starts a block that was handed out.
     */
    method FreePages(addr: nat) returns (halted: bool)
      requires Valid() && addr < ADDRESSES
      modifies order, isFree, next, heads, `zone
      ensures addr == 0 ==> !halted && zone == old(zone)
      ensures addr != 0 ==> var r := Free(old(zone), old(PageIndex(addr)));
                            (halted <==> r.FreeHalt?) && (!halted ==> r == Freed(zone))
      ensures !halted ==> Holds()
      ensures !halted && Coalesced(old(zone)) && (addr == 0 || Freeable(old(zone), old(PageIndex(addr)))) ==>
                Valid() && Coalesced(zone)
    {
      hide Invariant, Coalesced, Threaded, Merge;
      if addr == 0 { return false; }
      var i := PageIndex(addr);
      if i >= numPages { return true; }
      if isFree[i] { return false; }
      halted := FreeMarked(addr, i);
    }

    /** free_pages on a page in range that is not marked free (lines 228-257). */
    method FreeMarked(addr: nat, i: nat) returns (halted: bool)
      requires Valid() && base <= addr && i == (addr - base) / PAGE < numPages && !isFree[i]
      modifies order, isFree, next, heads, `zone
      ensures var r := Free(old(zone), i); (halted <==> r.FreeHalt?) && (!halted ==> r == Freed(zone))
      ensures !halted ==> Holds()
      ensures !halted && Coalesced(old(zone)) && Freeable(old(zone), i) ==> Valid() && Coalesced(zone)
    {
      hide Invariant, Coalesced, ListsApart, OffLists, Threaded, Climbing, Freeable, Free, WellFormed;
      FreeReady(zone, i);
      ghost var goal := Free(zone, i);
      var k := order[i];
      isFree[i] := true;
      zone := zone.(free := zone.free[i := true]);
      halted := MergeUp(addr, k, goal);
    }
  }

  /** A page that free_pages() may be given: marked free already, or the first of a block. */
  predicate Freeable(z: Zone, i: nat)
    requires WellFormed(z)
  {
    i < z.n ==> z.free[i] || i in z.blocks
  }

  lemma FreeReady(z: Zone, i: nat)
    requires Invariant(z) && WellFormed(z) && i < z.n && !z.free[i]
    ensures i < |z.free| && i < |z.order|
    ensures var z1 := z.(free := z.free[i := true]);
            WellFormed(z1) && Climbing(z1, i, z1.order[i], Free(z, i))
    ensures Coalesced(z) && Freeable(z, i) && Free(z, i).Freed? ==>
              Invariant(Free(z, i).zone) && Coalesced(Free(z, i).zone)
  {
    InvariantApart(z);
    MarkApart(z, i);
    hide InvariantExcept, CoalescedExcept, ListsApart, OffLists, Climbing, Merge;
    MergeClimbs(z.(free := z.free[i := true]), i, z.order[i]);
    if Coalesced(z) && i in z.blocks {
      assert Live(z, i, z.blocks[i]);
      FreeKeeps(z, i, z.blocks[i]);
    }
  }

  lemma MarkApart(z: Zone, i: nat)
    requires WellFormed(z) && ListsApart(z) && i < z.n && !z.free[i]
    ensures var z1 := z.(free := z.free[i := true]); WellFormed(z1) && ListsApart(z1) && OffLists(z1, i)
  {
    hide NoDuplicates;
    var z1 := z.(free := z.free[i := true]);
    forall k: nat | k <= MAX_ORDER ensures MarkedAs(z1, z1.lists[k], k) && i !in z1.lists[k] {
      assert MarkedAs(z, z.lists[k], k);
    }
  }
}
