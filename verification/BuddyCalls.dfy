/**
  What one whole call of alloc_pages and of free_pages does, for every state
  that satisfies the invariant: the step lemmas of BuddyInvariant carried
  through the split and merge loops.
 */
module BuddyCalls {
  import opened Basics
  import opened Bits
  import opened BuddyModel
  import opened BuddyInvariant

  /** Page g heads an allocated order-j block, other than c. */
  predicate LiveExcept(z: Zone, c: nat, g: nat, j: nat)
    requires WellFormed(z)
  {
    g < z.n && g in z.blocks && g != c && z.blocks[g] == j && !z.free[g]
  }

  predicate Live(z: Zone, g: nat, j: nat)
    requires WellFormed(z)
  {
    LiveExcept(z, z.n, g, j)
  }

  /** No two buddies of one order below MAX_ORDER are both free; c is set aside. */
  ghost predicate CoalescedExcept(z: Zone, c: nat)
    requires WellFormed(z)
  {
    forall k: nat, x: nat, y: nat :: k < MAX_ORDER && FreeHead(z, c, k, x) && FreeHead(z, c, k, y) ==>
      y != BuddyOf(x, k)
  }

  ghost predicate Coalesced(z: Zone)
    requires WellFormed(z)
  {
    CoalescedExcept(z, z.n)
  }

  /** Every block starts at a multiple of its size. */
  ghost predicate HeadsAligned(z: Zone) {
    forall h :: h in z.blocks ==> Aligned(h, z.blocks[h])
  }

  /** The allocated blocks of z, c set aside, are those of z', c' set aside. */
  ghost predicate SameLive(z: Zone, c: nat, z': Zone, c': nat)
    requires WellFormed(z) && WellFormed(z')
  {
    forall g: nat, j: nat :: LiveExcept(z', c', g, j) <==> LiveExcept(z, c, g, j)
  }

  // ----- alloc_pages

  /** The split loop never runs out of range and keeps the invariant. */
  lemma {:induction false} SplitKeeps(z: Zone, h: nat, c: nat, k: nat)
    requires WellFormed(z) && InvariantExcept(z, h) && h in z.blocks && z.blocks[h] == c <= MAX_ORDER && k <= c
    ensures Split(z, h, c, k).Freed?
    ensures var z' := Split(z, h, c, k).zone;
            InvariantExcept(z', h) && h in z'.blocks && z'.blocks[h] == k
    decreases c
  {
    hide InvariantExcept, Pow2;
    if c > k {
      SplitStepKeeps(z, h, c);
      SplitKeeps(SplitStep(z, h, c), h, c - 1, k);
    }
  }

  lemma SplitStepLive(z: Zone, h: nat, c: nat)
    requires WellFormed(z) && Tiles(z.blocks, z.n) && h in z.blocks && z.blocks[h] == c > 0
    requires h + Pow2(c - 1) < z.n
    ensures SameLive(z, h, SplitStep(z, h, c), h)
  {
    assert Covers(z.blocks, h, h + Pow2(c - 1)) by { assert Pow2(c) == 2 * Pow2(c - 1); }
    NoHeadInside(z.blocks, z.n, h, h + Pow2(c - 1));
  }

  /** The split loop touches no other allocated block and not the metadata of the block in hand. */
  lemma {:induction false} SplitLive(z: Zone, h: nat, c: nat, k: nat)
    requires WellFormed(z) && InvariantExcept(z, h) && h in z.blocks && z.blocks[h] == c && k <= c && h < z.n
    ensures Split(z, h, c, k).Freed?
    ensures var z' := Split(z, h, c, k).zone;
            SameLive(z, h, z', h) && h < z.n && z'.free[h] == z.free[h] && z'.order[h] == z.order[h]
    decreases c
  {
    SplitKeeps(z, h, c, k);
    if c > k {
      SplitStepKeeps(z, h, c);
      hide Tiles, InteriorsHarmless, ListsExact, HeadsTruthful;
      SplitStepLive(z, h, c);
      SplitLive(SplitStep(z, h, c), h, c - 1, k);
    }
  }

  /** What the split loop adds to list j when it halves order c down to order k. */
  function SplitEntry(h: nat, c: nat, k: nat, j: nat): seq<nat> {
    if k <= j < c then [h + Pow2(j)] else []
  }

  /** The exact effect of the split loop on the lists: one block per order from k to c - 1. */
  lemma {:induction false} SplitList(z: Zone, h: nat, c: nat, k: nat, j: nat)
    requires WellFormed(z) && c <= MAX_ORDER && k <= c && Split(z, h, c, k).Freed? && j <= MAX_ORDER
    ensures Split(z, h, c, k).zone.lists[j] == SplitEntry(h, c, k, j) + z.lists[j]
    decreases c
  {
    hide Pow2;
    if c > k { SplitList(SplitStep(z, h, c), h, c - 1, k, j); }
  }

  lemma SplitLists(z: Zone, h: nat, c: nat, k: nat)
    requires WellFormed(z) && c <= MAX_ORDER && k <= c && Split(z, h, c, k).Freed?
    ensures var z' := Split(z, h, c, k).zone;
            forall j: nat :: j <= MAX_ORDER ==> z'.lists[j] == SplitEntry(h, c, k, j) + z.lists[j]
  {
    hide Split, SplitEntry;
    forall j: nat | j <= MAX_ORDER ensures Split(z, h, c, k).zone.lists[j] == SplitEntry(h, c, k, j) + z.lists[j] {
      SplitList(z, h, c, k, j);
    }
  }

  lemma SplitStepAligned(z: Zone, h: nat, c: nat)
    requires WellFormed(z) && 0 < c <= MAX_ORDER && h + Pow2(c - 1) < z.n && HeadsAligned(z) && Aligned(h, c)
    ensures HeadsAligned(SplitStep(z, h, c)) && Aligned(h, c - 1)
  {
    AlignedDown(h, c - 1, c);
    AddPow2Low(h, c - 1, c - 1);
  }

  lemma {:induction false} SplitAligned(z: Zone, h: nat, c: nat, k: nat)
    requires WellFormed(z) && c <= MAX_ORDER && k <= c && Split(z, h, c, k).Freed?
    requires HeadsAligned(z) && Aligned(h, c)
    ensures HeadsAligned(Split(z, h, c, k).zone)
    decreases c
  {
    if c > k {
      var z' := SplitStep(z, h, c);
      assert HeadsAligned(z') && Aligned(h, c - 1) by { SplitStepAligned(z, h, c); }
      SplitAligned(z', h, c - 1, k);
    }
  }

  /** An allocated block in hand whose own metadata is settled is just a block. */
  lemma SettleLive(z: Zone, h: nat)
    requires InvariantExcept(z, h) && h in z.blocks && !z.free[h] && z.order[h] == z.blocks[h]
    ensures Invariant(z)
  {
    forall m: nat | m <= MAX_ORDER
      ensures NoDuplicates(z.lists[m]) && forall x: nat :: x in z.lists[m] <==> FreeHead(z, z.n, m, x)
    {
      forall x: nat ensures x in z.lists[m] <==> FreeHead(z, z.n, m, x) {
        assert x in z.lists[m] <==> FreeHead(z, h, m, x);
      }
    }
  }

  /**
    alloc_pages never halts. It fails exactly when no free block has the order
    or more; otherwise it takes a block that was free, hands out its low end at
    the order asked for, and leaves every other allocated block as it was.
   */
  lemma AllocKeeps(z: Zone, k: nat)
    requires Invariant(z)
    ensures !Alloc(z, k).AllocHalt?
    ensures Alloc(z, k).NoMemory? <==> forall o: nat, x: nat :: k <= o <= MAX_ORDER ==> !FreeHead(z, z.n, o, x)
    ensures Alloc(z, k).Allocated? ==>
              var z', h := Alloc(z, k).zone, Alloc(z, k).page;
              && Invariant(z')
              && (exists o: nat :: k <= o <= MAX_ORDER && FreeHead(z, z.n, o, h))
              && (forall g: nat, j: nat :: Live(z', g, j) <==> Live(z, g, j) || (g == h && j == k))
  {
    if k <= MAX_ORDER {
      var o := FirstNonEmpty(z.lists, k);
      if o <= MAX_ORDER {
        var h := z.lists[o][0];
        PopKeeps(z, o, k);
        var z1 := Pop(z, o, k);
        SplitKeeps(z1, h, o, k);
        SplitLive(z1, h, o, k);
        SettleLive(Split(z1, h, o, k).zone, h);
        AllocLive(z, k, o);
      } else {
        forall o: nat, x: nat | k <= o <= MAX_ORDER ensures !FreeHead(z, z.n, o, x) {
          assert x in z.lists[o] <==> FreeHead(z, z.n, o, x);
        }
      }
    }
  }

  /**
    alloc_pages(k), exactly: it takes the first block of the lowest order o from k up
    that has one, and leaves the upper halves, one of each order from k to o - 1, in
    front of the lists.
   */
  lemma AllocExact(z: Zone, k: nat, o: nat, j: nat)
    requires Invariant(z) && WellFormed(z) && k <= o <= MAX_ORDER && j <= MAX_ORDER
    requires z.lists[o] != [] && forall i: nat :: k <= i < o ==> z.lists[i] == []
    ensures Alloc(z, k).Allocated? && Alloc(z, k).page == z.lists[o][0]
    ensures Alloc(z, k).zone.lists[j] ==
              SplitEntry(z.lists[o][0], o, k, j) + (if j == o then z.lists[o][1..] else z.lists[j])
  {
    AllocListAt(z, k, o, j);
    PopList(z, o, k);
    hide Alloc, Invariant, FirstNonEmpty, Pop, WellFormed, SplitEntry;
  }

  lemma AllocListAt(z: Zone, k: nat, o: nat, j: nat)
    requires Invariant(z) && WellFormed(z) && k <= o <= MAX_ORDER && j <= MAX_ORDER
    requires z.lists[o] != [] && forall i: nat :: k <= i < o ==> z.lists[i] == []
    ensures z.lists[o][0] < z.n && Alloc(z, k).Allocated? && Alloc(z, k).page == z.lists[o][0]
    ensures Alloc(z, k).zone.lists[j] == SplitEntry(z.lists[o][0], o, k, j) + Pop(z, o, k).lists[j]
  {
    LowestIs(z.lists, k, o);
    AllocIsSplit(z, k, o);
    PopList(z, o, k);
    hide Alloc, Invariant, Split, SplitEntry, FirstNonEmpty, Pop;
    SplitList(Pop(z, o, k), z.lists[o][0], o, k, j);
  }

  lemma PopList(z: Zone, o: nat, k: nat)
    requires WellFormed(z) && o <= MAX_ORDER && k <= MAX_ORDER && z.lists[o] != [] && z.lists[o][0] < z.n
    ensures WellFormed(Pop(z, o, k)) && Pop(z, o, k).n == z.n
    ensures forall j: nat :: j <= MAX_ORDER ==>
              Pop(z, o, k).lists[j] == if j == o then z.lists[o][1..] else z.lists[j]
  {
  }

  lemma AllocIsSplit(z: Zone, k: nat, o: nat)
    requires Invariant(z) && WellFormed(z) && k <= o <= MAX_ORDER && FirstNonEmpty(z.lists, k) == o && z.lists[o] != []
    ensures z.lists[o][0] < z.n && Split(Pop(z, o, k), z.lists[o][0], o, k).Freed?
    ensures Alloc(z, k) == Allocated(Split(Pop(z, o, k), z.lists[o][0], o, k).zone, z.lists[o][0])
  {
    AllocKeeps(z, k);
    PopKeeps(z, o, k);
    hide InvariantExcept, Split, LiveExcept;
  }

  lemma {:induction false} LowestIs(lists: seq<seq<nat>>, k: nat, o: nat)
    requires |lists| == MAX_ORDER + 1 && k <= o <= MAX_ORDER
    requires lists[o] != [] && forall j: nat :: k <= j < o ==> lists[j] == []
    ensures FirstNonEmpty(lists, k) == o
    decreases o - k
  {
    if k < o { LowestIs(lists, k + 1, o); }
  }

  lemma AllocLive(z: Zone, k: nat, o: nat)
    requires Invariant(z) && k <= o <= MAX_ORDER && z.lists[o] != []
    ensures var h := z.lists[o][0];
            && FreeHead(z, z.n, o, h) && InvariantExcept(Pop(z, o, k), h)
            && var r := Split(Pop(z, o, k), h, o, k);
            && r.Freed?
            && forall g: nat, j: nat :: Live(r.zone, g, j) <==> Live(z, g, j) || (g == h && j == k)
  {
    var h := z.lists[o][0];
    PopKeeps(z, o, k);
    var z1 := Pop(z, o, k);
    SplitKeeps(z1, h, o, k);
    SplitLive(z1, h, o, k);
    var z' := Split(z1, h, o, k).zone;
    forall g: nat, j: nat ensures Live(z', g, j) <==> Live(z, g, j) || (g == h && j == k) {
      assert LiveExcept(z', h, g, j) <==> LiveExcept(z1, h, g, j);
    }
  }

  lemma SplitCoalesced(z: Zone, z': Zone, h: nat, o: nat, k: nat)
    requires WellFormed(z) && WellFormed(z') && ListsExact(z, z.n) && ListsExact(z', z'.n) && Coalesced(z)
    requires o <= MAX_ORDER && forall j: nat :: k <= j < o ==> z.lists[j] == []
    requires forall j: nat, x :: j <= MAX_ORDER && x in z'.lists[j] ==>
               x in z.lists[j] || (k <= j < o && x == h + Pow2(j))
    ensures Coalesced(z')
  {
    forall j: nat, x: nat, y: nat | j < MAX_ORDER && FreeHead(z', z'.n, j, x) && FreeHead(z', z'.n, j, y)
      ensures y != BuddyOf(x, j)
    {
      assert x in z'.lists[j] && y in z'.lists[j];
      BuddyInvolution(x, j);
      assert !(k <= j < o) ==> FreeHead(z, z.n, j, x) && FreeHead(z, z.n, j, y);
    }
  }

  /** Below the popped order every list from k up was empty, so the split makes no buddy pair. */
  lemma AllocCoalesced(z: Zone, k: nat)
    requires Invariant(z) && Coalesced(z) && Alloc(z, k).Allocated?
    ensures Coalesced(Alloc(z, k).zone)
  {
    assert Invariant(Alloc(z, k).zone) by { AllocKeeps(z, k); }
    var o := FirstNonEmpty(z.lists, k);
    var h := z.lists[o][0];
    SplitLists(Pop(z, o, k), h, o, k);
    SplitCoalesced(z, Alloc(z, k).zone, h, o, k);
  }

  // ----- free_pages

  /** What alloc_page() does to the allocator. */
  lemma AllocOne(z: Zone)
    requires Invariant(z) && Coalesced(z) && Alloc(z, 0).Allocated?
    ensures var z', h := Alloc(z, 0).zone, Alloc(z, 0).page;
            && Invariant(z') && Coalesced(z') && z'.n == z.n
            && Live(z', h, 0) && !Live(z, h, 0) && (forall g: nat :: Live(z, g, 0) ==> Live(z', g, 0))
  {
    AllocKeeps(z, 0);
    AllocCoalesced(z, 0);
    hide InvariantExcept, CoalescedExcept;
    var h := Alloc(z, 0).page;
    var o: nat :| 0 <= o <= MAX_ORDER && FreeHead(z, z.n, o, h);
    assert Live(Alloc(z, 0).zone, h, 0);
  }

  lemma MergeStepLive(z: Zone, a: nat, b: nat, k: nat)
    requires WellFormed(z) && a in z.blocks && FreeHead(z, a, k, b) && k < MAX_ORDER
    ensures SameLive(z, a, MergeStep(z, a, b, k), if a > b then b else a)
  {
  }

  lemma MergeStepCoalesced(z: Zone, a: nat, b: nat, k: nat)
    requires WellFormed(z) && CoalescedExcept(z, a) && b < z.n && k < MAX_ORDER && a < z.n
    ensures CoalescedExcept(MergeStep(z, a, b, k), if a > b then b else a)
  {
    var z', lo := MergeStep(z, a, b, k), if a > b then b else a;
    forall j: nat, x: nat | FreeHead(z', lo, j, x) ensures FreeHead(z, a, j, x) {
    }
  }

  /** The block just freed has no free buddy left to merge with. */
  lemma PushCoalesced(z: Zone, a: nat)
    requires InvariantExcept(z, a) && CoalescedExcept(z, a) && a in z.blocks
    requires z.blocks[a] == MAX_ORDER ||
             var b := BuddyOf(a, z.blocks[a]);
             b < z.n && !(z.free[b] && z.order[b] == z.blocks[a])
    ensures Coalesced(Push(z, a, z.blocks[a]))
  {
    var k := z.blocks[a];
    var z' := Push(z, a, k);
    forall j: nat, x: nat, y: nat | j < MAX_ORDER && FreeHead(z', z'.n, j, x) && FreeHead(z', z'.n, j, y)
      ensures y != BuddyOf(x, j)
    {
      BuddyInvolution(x, j);
      if x != a && y != a { assert FreeHead(z, a, j, x) && FreeHead(z, a, j, y); }
    }
  }

  /** The merge loop's state: an order-k block at a in hand, everything else coalesced. */
  ghost predicate Merging(z: Zone, a: nat, k: nat) {
    match z
    case Zone(_, _, _, _, blocks) =>
      && WellFormed(z) && a in blocks && a < z.n && blocks[a] == k <= MAX_ORDER
      && InvariantExcept(z, a) && HandHarmless(z, a) && CoalescedExcept(z, a)
  }

  lemma MergingStep(z: Zone, a: nat, k: nat)
    requires Merging(z, a, k) && k < MAX_ORDER
    requires BuddyOf(a, k) < z.n && z.free[BuddyOf(a, k)] && z.order[BuddyOf(a, k)] == k
    ensures var b := BuddyOf(a, k); var lo := if a > b then b else a;
            var z' := MergeStep(z, a, b, k);
            Merging(z', lo, k + 1) && SameLive(z, a, z', lo)
  {
    var b := BuddyOf(a, k);
    BuddyIsAHead(z, a, k);
    MergeStepKeeps(z, a, k);
    MergeStepLive(z, a, b, k);
    MergeStepCoalesced(z, a, b, k);
  }

  /** The merge loop keeps the invariant and every other allocated block, and leaves no buddy pair. */
  lemma {:induction false} MergeKeeps(z: Zone, a: nat, k: nat)
    requires Merging(z, a, k)
    ensures Merge(z, a, k).Freed? ==>
              var z' := Merge(z, a, k).zone;
              Invariant(z') && Coalesced(z') && SameLive(z, a, z', z'.n)
    decreases MAX_ORDER - k
  {
    hide InvariantExcept, CoalescedExcept, HandHarmless, BuddyOf;
    var b := BuddyOf(a, k);
    if k == MAX_ORDER || (b < z.n && !(z.free[b] && z.order[b] == k)) {
      PushKeeps(z, a);
      PushCoalesced(z, a);
    } else if b < z.n {
      MergingStep(z, a, k);
      MergeKeeps(MergeStep(z, a, b, k), if a > b then b else a, k + 1);
    }
  }

  /** free_pages starts its merge loop with the freed block in hand. */
  lemma MarkIsMerging(z: Zone, a: nat, k: nat)
    requires Invariant(z) && Coalesced(z) && Live(z, a, k)
    ensures z.order[a] == k && Merging(z.(free := z.free[a := true]), a, k)
  {
    MarkKeeps(z, a);
    var w := z.(free := z.free[a := true]);
    forall i: nat, x: nat | FreeHead(w, a, i, x) ensures FreeHead(z, z.n, i, x) {
    }
  }

  /**
    free_pages on a live block either halts or returns exactly that block: the
    other live blocks are untouched and the free blocks are fully coalesced.
   */
  lemma FreeKeeps(z: Zone, a: nat, m: nat)
    requires Invariant(z) && Coalesced(z) && Live(z, a, m)
    ensures Free(z, a).Freed? ==>
              var z' := Free(z, a).zone;
              && Invariant(z') && Coalesced(z')
              && forall g: nat, j: nat :: Live(z', g, j) <==> Live(z, g, j) && g != a
  {
    MarkIsMerging(z, a, m);
    var z1 := z.(free := z.free[a := true]);
    MergeKeeps(z1, a, z.order[a]);
    if Free(z, a).Freed? {
      var z' := Free(z, a).zone;
      forall g: nat, j: nat ensures Live(z', g, j) <==> Live(z, g, j) && g != a {
        assert LiveExcept(z', z'.n, g, j) <==> LiveExcept(z1, a, g, j);
      }
    }
  }

  lemma {:induction false} MergeAligned(z: Zone, a: nat, k: nat)
    requires WellFormed(z) && a < z.n && k <= MAX_ORDER && HeadsAligned(z) && Aligned(a, k)
    requires Merge(z, a, k).Freed?
    ensures HeadsAligned(Merge(z, a, k).zone)
    decreases MAX_ORDER - k
  {
    hide BuddyOf, Aligned, HeadsAligned, MergeStep;
    var b := BuddyOf(a, k);
    if k < MAX_ORDER && b < z.n && z.free[b] && z.order[b] == k {
      MergeStepAligned(z, a, k);
      MergeAligned(MergeStep(z, a, b, k), if a > b then b else a, k + 1);
    } else {
      PushAligned(z, a, k);
    }
  }

  lemma MergeStepAligned(z: Zone, a: nat, k: nat)
    requires WellFormed(z) && k < MAX_ORDER && HeadsAligned(z) && Aligned(a, k) && BuddyOf(a, k) < z.n
    ensures var b := BuddyOf(a, k); var lo := if a > b then b else a;
            Aligned(lo, k + 1) && WellFormed(MergeStep(z, a, b, k)) && HeadsAligned(MergeStep(z, a, b, k))
  {
    var b := BuddyOf(a, k);
    var lo := if a > b then b else a;
    BuddiesAdjoin(a, k);
    AddPow2Low(lo, k, k);
    AlignedSucc(lo, k);
    hide BuddyOf, Aligned;
  }

  lemma PushAligned(z: Zone, a: nat, k: nat)
    requires WellFormed(z) && a < z.n && k <= MAX_ORDER && HeadsAligned(z)
    ensures WellFormed(Push(z, a, k)) && HeadsAligned(Push(z, a, k))
  {
    hide Aligned;
  }

  /** With a whole number of order-10 blocks every buddy is in range, so freeing never halts. */
  lemma {:induction false} MergeInRange(z: Zone, a: nat, k: nat)
    requires WellFormed(z) && a < z.n && k <= MAX_ORDER && Aligned(z.n, MAX_ORDER)
    ensures Merge(z, a, k).Freed?
    decreases MAX_ORDER - k
  {
    var b := BuddyOf(a, k);
    if k < MAX_ORDER {
      FlipStaysBelow(a, k, z.n, MAX_ORDER);
      if z.free[b] && z.order[b] == k {
        MergeInRange(MergeStep(z, a, b, k), if a > b then b else a, k + 1);
      }
    }
  }
}
