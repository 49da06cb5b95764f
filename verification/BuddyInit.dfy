/**
  buddy_allocator_init: how much memory the page metadata takes, and how the
  rest is cut into initial free blocks. Pages are counted from address 0, so
  `base` is buddy_base_phys / PAGE_SIZE and `base + n` is USER_END / PAGE_SIZE.
 */
module BuddyInit {
  import opened Basics
  import opened Bits
  import opened BuddyModel
  import opened BuddyInvariant
  import opened BuddyCalls
  import opened BuddyRuns

  const PAGE_T_SIZE: nat := 16
  const USER_END: nat := 0x8800_0000

  // ----- metadata sizing

  /** estimated_pages, when `total` pages lie between the first early_alloc and USER_END. */
  function EstimatedPages(total: nat): nat {
    (total * PAGE) / (PAGE + PAGE_T_SIZE)
  }

  /** num_pages: what is left once the metadata pages are taken. */
  function NumPages(total: nat): int {
    total - PagesFor(EstimatedPages(total) * PAGE_T_SIZE)
  }

  lemma MetadataFits(total: nat)
    ensures 0 <= NumPages(total) <= total
  {
    var e := EstimatedPages(total);
    assert e <= total && (e * 16 + 4095) / 4096 <= total;
  }

  /** The byte arithmetic of lines 82-98, in pages: k pages lie below the first early_alloc(). */
  lemma LayoutPages(k: nat)
    requires k + 1 <= USER_END / PAGE
    ensures var total := USER_END / PAGE - k - 1;
            var physStart := k * PAGE + PAGE;
            && USER_END - physStart == total * PAGE && 0 <= NumPages(total) <= total
            && physStart + PagesFor(EstimatedPages(total) * PAGE_T_SIZE) * PAGE == USER_END - NumPages(total) * PAGE
  {
    MetadataFits(USER_END / PAGE - k - 1);
    hide EstimatedPages, PagesFor;
  }

  lemma AlignUpPages(bytes: nat)
    ensures AlignUp(bytes) == PagesFor(bytes) * PAGE
  {
  }

  lemma AlignUpAligned(pages: nat)
    ensures AlignUp(pages * PAGE) == pages * PAGE && pages * PAGE % PAGE == 0 && pages * PAGE / PAGE == pages
  {
  }

  /** ... and in bytes, as the source computes them. */
  lemma InitLayout(kernelEnd: nat)
    requires AlignUp(kernelEnd) + PAGE <= USER_END
    ensures var physStart := AlignUp(kernelEnd) + PAGE;
            var estimated := (USER_END - physStart) / (PAGE + PAGE_T_SIZE);
            var start := AlignUp(physStart + AlignUp(estimated * PAGE_T_SIZE));
            var n := NumPages((USER_END - AlignUp(kernelEnd)) / PAGE - 1);
            && n >= 0 && (USER_END - start) / PAGE == n
            && start == USER_END - n * PAGE && start % PAGE == 0 && start > 0
  {
    hide AlignUp, PagesFor, NumPages;
    var k := PagesFor(kernelEnd);
    AlignUpPages(kernelEnd);
    var total := USER_END / PAGE - k - 1;
    assert (USER_END - AlignUp(kernelEnd)) / PAGE - 1 == total;
    LayoutPages(k);
    var n: nat, e: nat := NumPages(total), EstimatedPages(total);
    AlignUpPages(e * PAGE_T_SIZE);
    LayoutEnd(k + 1 + PagesFor(e * PAGE_T_SIZE), n);
  }

  /** The rounded start of the pages, p pages up, with n pages between it and USER_END. */
  lemma LayoutEnd(p: nat, n: nat)
    requires p * PAGE == USER_END - n * PAGE && p > 0
    ensures AlignUp(p * PAGE) == p * PAGE && p * PAGE % PAGE == 0 && (USER_END - p * PAGE) / PAGE == n
  {
    AlignUpAligned(p);
    AlignUpAligned(n);
    hide AlignUp;
  }

  /**
    The metadata reserved is exactly enough for num_pages entries, except when
    the total is 1 modulo 257: then page_array is one entry too short.
   */
  lemma MetadataSizing(total: nat)
    ensures NumPages(total) == EstimatedPages(total) <==> total % 257 != 1
    ensures total % 257 == 1 ==> NumPages(total) == EstimatedPages(total) + 1
  {
    var q, r := total / 257, total % 257;
    assert total * 4096 == 4112 * (256 * q) + 4096 * r;
    if r == 0 {
      assert EstimatedPages(total) == 256 * q;
    } else {
      assert 4096 * r == 4112 * (r - 1) + (4112 - 16 * r);
      assert EstimatedPages(total) == 256 * q + (r - 1);
    }
  }

  /**
    What the missing entry costs: then the last entry of page_array starts exactly
    where the metadata ends, at the first bytes of page 0, and there alone.
   */
  lemma LastEntryInPageZero(total: nat)
    ensures var n, metadata := NumPages(total), PagesFor(EstimatedPages(total) * PAGE_T_SIZE) * PAGE;
            && (total % 257 == 1 ==> n > 0 && (n - 1) * PAGE_T_SIZE == metadata)
            && (total % 257 != 1 ==> n * PAGE_T_SIZE <= metadata)
  {
    MetadataSizing(total);
    var q := total / 257;
    if total % 257 == 1 {
      assert total * 4096 == 4112 * (256 * q) + 4096;
      assert EstimatedPages(total) == 256 * q;
    }
  }

  // ----- the initial blocks

  /** An order-j block at page p is naturally aligned and ends by `end`. */
  predicate Fits(p: nat, end: nat, j: nat) {
    p + Pow2(j) <= end && Aligned(p, j)
  }

  /** The order the greedy loop picks for the block at page p, trying from order o down. */
  function GreedyOrder(p: nat, end: nat, o: nat): (r: nat)
    requires p < end
    ensures r <= o && Fits(p, end, r)
  {
    if o > 0 && !Fits(p, end, o) then GreedyOrder(p, end, o - 1) else o
  }

  /** It is the greatest order at which the block is aligned and fits. */
  lemma {:induction false} GreedyIsGreatest(p: nat, end: nat, o: nat, j: nat)
    requires p < end && GreedyOrder(p, end, o) < j <= o
    ensures !Fits(p, end, j)
  {
    if j < o { GreedyIsGreatest(p, end, o - 1, j); }
  }

  /** When the end is aligned for order 10, a smaller block is exactly as big as its alignment. */
  lemma GreedyFollowsAlignment(p: nat, end: nat)
    requires p < end && Aligned(end, MAX_ORDER)
    ensures var r := GreedyOrder(p, end, MAX_ORDER); r < MAX_ORDER ==> !Aligned(p, r + 1)
  {
    var r := GreedyOrder(p, end, MAX_ORDER);
    if r < MAX_ORDER && Aligned(p, r + 1) {
      AlignedDown(end, r + 1, MAX_ORDER);
      AddAlignedLow(end - p, p, r + 1, r + 1);
      AlignedAtLeast(end - p, r + 1);
      GreedyIsGreatest(p, end, MAX_ORDER, r + 1);
    }
  }

  /** One turn of the populating loop: the order-o block at i becomes free. */
  function PopulateOne(z: Zone, i: nat, o: nat): Zone
    requires WellFormed(z) && i < z.n && o <= MAX_ORDER
  {
    Push(z, i, o).(blocks := z.blocks[i := o])
  }

  /** The populating loop, from page index i on. */
  function Populate(z: Zone, base: nat, i: nat): Zone
    requires WellFormed(z)
    decreases z.n - i
  {
    if i >= z.n then z
    else
      var o := GreedyOrder(base + i, base + z.n, MAX_ORDER);
      Populate(PopulateOne(z, i, o), base, i + Pow2(o))
  }

  /** One turn of the populating loop. */
  lemma PopulateUnroll(z: Zone, base: nat, i: nat)
    requires WellFormed(z)
    ensures Populate(z, base, i) ==
              if i >= z.n then z
              else var o := GreedyOrder(base + i, base + z.n, MAX_ORDER);
                   Populate(PopulateOne(z, i, o), base, i + Pow2(o))
  {
    hide GreedyOrder, PopulateOne, Pow2, Fits;
  }

  /** All metadata zero, all lists empty. */
  function Blank(n: nat): (z: Zone)
    ensures WellFormed(z)
  {
    Zone(n, seq(n, _ => 0), seq(n, _ => false), seq(MAX_ORDER + 1, _ => []), map[])
  }

  function Init(base: nat, n: nat): Zone {
    Populate(Blank(n), base, 0)
  }

  ghost predicate MarkedHeads(z: Zone)
    requires WellFormed(z)
  {
    forall x: nat :: x < z.n ==> (z.free[x] <==> x in z.blocks)
  }

  ghost predicate AddressAligned(blocks: map<nat, nat>, base: nat) {
    forall h :: h in blocks ==> Aligned(base + h, blocks[h])
  }

  /** The pages below i are cut into free, naturally aligned blocks; nothing else is marked. */
  ghost predicate Populated(z: Zone, base: nat, i: nat) {
    match z
    case Zone(n, _, _, _, blocks) =>
      && WellFormed(z) && Tiles(blocks, i) && HeadsTruthful(z, n) && ListsExact(z, n)
      && MarkedHeads(z) && AddressAligned(blocks, base)
  }

  /** Each order below MAX_ORDER is used at most once: later blocks sit at coarser addresses. */
  ghost predicate Ascending(z: Zone, base: nat, i: nat) {
    match z
    case Zone(_, _, _, _, blocks) => AscendingBlocks(blocks, base + i)
  }

  ghost predicate AscendingBlocks(blocks: map<nat, nat>, p: nat) {
    && (forall g, h :: g in blocks && h in blocks && blocks[g] == blocks[h] < MAX_ORDER ==> g == h)
    && (forall h :: h in blocks && blocks[h] < MAX_ORDER ==> Aligned(p, blocks[h] + 1))
  }

  lemma ExtendTiles(blocks: map<nat, nat>, i: nat, o: nat)
    requires Tiles(blocks, i) && o <= MAX_ORDER
    ensures i !in blocks && Tiles(blocks[i := o], i + Pow2(o))
  {
    var after := blocks[i := o];
    forall x: nat | x < i + Pow2(o) ensures Covered(after, x) {
      if x < i {
        assert Covered(blocks, x);
        var g: nat :| Covers(blocks, g, x);
        assert Covers(after, g, x);
      } else {
        assert Covers(after, i, x);
      }
    }
  }

  lemma PopulateLists(z: Zone, i: nat, o: nat)
    requires WellFormed(z) && ListsExact(z, z.n) && i < z.n && o <= MAX_ORDER && i !in z.blocks
    ensures ListsExact(PopulateOne(z, i, o), z.n)
  {
    var z' := PopulateOne(z, i, o);
    forall m: nat | m <= MAX_ORDER
      ensures NoDuplicates(z'.lists[m]) && forall x: nat :: x in z'.lists[m] <==> FreeHead(z', z.n, m, x)
    {
      assert i in z.lists[m] <==> FreeHead(z, z.n, m, i);
      PushProperties(z.lists[m], i);
      forall x: nat ensures x in z'.lists[m] <==> FreeHead(z', z.n, m, x) {
        assert x in z.lists[m] <==> FreeHead(z, z.n, m, x);
      }
    }
  }

  lemma PopulateHeads(z: Zone, i: nat, o: nat)
    requires WellFormed(z) && HeadsTruthful(z, z.n) && MarkedHeads(z) && i < z.n && o <= MAX_ORDER
    ensures var z' := PopulateOne(z, i, o); WellFormed(z') && HeadsTruthful(z', z'.n) && MarkedHeads(z')
  {
  }

  lemma PopulateStep(z: Zone, base: nat, i: nat, o: nat)
    requires Populated(z, base, i) && i < z.n && o <= MAX_ORDER && i + Pow2(o) <= z.n && Aligned(base + i, o)
    ensures Populated(PopulateOne(z, i, o), base, i + Pow2(o))
  {
    hide Pow2, Aligned, HeadsTruthful, ListsExact, MarkedHeads, Tiles;
    var z' := PopulateOne(z, i, o);
    PopulateHeads(z, i, o);
    assert i !in z.blocks && Tiles(z'.blocks, i + Pow2(o)) by { ExtendTiles(z.blocks, i, o); }
    assert ListsExact(z', z'.n) by { PopulateLists(z, i, o); }
  }

  /** The address after a block is coarser than the block, if the block was as big as its alignment. */
  lemma NextAligned(p: nat, o: nat)
    requires Aligned(p, o) && !Aligned(p, o + 1)
    ensures Aligned(p + Pow2(o), o + 1)
  {
    AlignedSucc(p, o);
    AddPow2(p, o);
    AddPow2Low(p, o, o);
    AlignedSucc(p + Pow2(o), o);
  }

  lemma StillAligned(p: nat, o: nat, k: nat)
    requires Aligned(p, k + 1) && k < MAX_ORDER && o <= MAX_ORDER && (o < MAX_ORDER ==> !Aligned(p, o + 1))
    ensures k != o && Aligned(p + Pow2(o), k + 1)
  {
    if o <= k { AlignedDown(p, o + 1, k + 1); }
    AddPow2Low(p, o, k + 1);
  }

  lemma AscendingStep(z: Zone, base: nat, i: nat, o: nat)
    requires WellFormed(z) && Ascending(z, base, i) && i < z.n && o <= MAX_ORDER
    requires Aligned(base + i, o) && (o < MAX_ORDER ==> !Aligned(base + i, o + 1))
    ensures Ascending(PopulateOne(z, i, o), base, i + Pow2(o))
  {
    hide Aligned, Pow2, AscendingBlocks, WellFormed;
    AscendingAdd(z.blocks, i, base + i, o);
    assert base + i + Pow2(o) == base + (i + Pow2(o));
  }

  lemma AscendingAdd(blocks: map<nat, nat>, i: nat, p: nat, o: nat)
    requires AscendingBlocks(blocks, p) && o <= MAX_ORDER && Aligned(p, o) && (o < MAX_ORDER ==> !Aligned(p, o + 1))
    ensures AscendingBlocks(blocks[i := o], p + Pow2(o))
  {
    hide Aligned, Pow2;
    forall h | h in blocks && blocks[h] < MAX_ORDER ensures Aligned(p + Pow2(o), blocks[h] + 1) && blocks[h] != o {
      StillAligned(p, o, blocks[h]);
    }
    if o < MAX_ORDER { NextAligned(p, o); }
  }

  /** The order of the block the populating loop puts at i. */
  lemma PopulateOrder(base: nat, i: nat, n: nat) returns (o: nat)
    requires i < n && Aligned(base + n, MAX_ORDER)
    ensures o == GreedyOrder(base + i, base + n, MAX_ORDER) <= MAX_ORDER && i + Pow2(o) <= n
    ensures Aligned(base + i, o) && (o < MAX_ORDER ==> !Aligned(base + i, o + 1))
  {
    o := GreedyOrder(base + i, base + n, MAX_ORDER);
    assert Fits(base + i, base + n, o);
    GreedyFollowsAlignment(base + i, base + n);
  }

  lemma {:induction false} PopulateKeeps(z: Zone, base: nat, i: nat)
    requires WellFormed(z) && Populated(z, base, i) && i <= z.n && Aligned(base + z.n, MAX_ORDER)
    ensures var z' := Populate(z, base, i); z'.n == z.n && WellFormed(z') && Populated(z', base, z.n)
    decreases z.n - i
  {
    hide Populated, Aligned, GreedyOrder, Pow2;
    if i < z.n {
      var o := PopulateOrder(base, i, z.n);
      var z' := PopulateOne(z, i, o);
      assert Populated(z', base, i + Pow2(o)) by { PopulateStep(z, base, i, o); }
      PopulateKeeps(z', base, i + Pow2(o));
    }
  }

  lemma {:induction false} PopulateAscends(z: Zone, base: nat, i: nat)
    requires WellFormed(z) && i <= z.n && Aligned(base + z.n, MAX_ORDER) && Ascending(z, base, i)
    ensures Ascending(Populate(z, base, i), base, z.n)
    decreases z.n - i
  {
    hide Ascending, Aligned, GreedyOrder, Pow2;
    if i < z.n {
      var o := PopulateOrder(base, i, z.n);
      var z' := PopulateOne(z, i, o);
      assert Ascending(z', base, i + Pow2(o)) by { AscendingStep(z, base, i, o); }
      PopulateAscends(z', base, i + Pow2(o));
    }
  }

  lemma InitPopulated(base: nat, n: nat)
    requires Aligned(base + n, MAX_ORDER)
    ensures var z := Init(base, n); z.n == n && Populated(z, base, n) && Ascending(z, base, n)
  {
    BlankPopulated(base, n);
    PopulateKeeps(Blank(n), base, 0);
    PopulateAscends(Blank(n), base, 0);
  }

  /**
    The populating loop tiles the zone with free blocks aligned by address, and
    uses each order below MAX_ORDER at most once.
   */
  lemma InitTiles(base: nat, n: nat)
    requires Aligned(base + n, MAX_ORDER)
    ensures var z := Init(base, n);
            && z.n == n && WellFormed(z) && Tiles(z.blocks, n)
            && (forall h :: h in z.blocks ==> Aligned(base + h, z.blocks[h]) && h < n && z.free[h])
            && (forall g, h :: g in z.blocks && h in z.blocks && z.blocks[g] == z.blocks[h] < MAX_ORDER ==> g == h)
  {
    InitPopulated(base, n);
  }

  lemma BlankPopulated(base: nat, n: nat)
    ensures Populated(Blank(n), base, 0) && Ascending(Blank(n), base, 0)
  {
    var z := Blank(n);
    forall m: nat | m <= MAX_ORDER
      ensures NoDuplicates(z.lists[m]) && forall x: nat :: x in z.lists[m] <==> FreeHead(z, n, m, x)
    {
    }
  }

  lemma PopulatedIsGood(z: Zone, base: nat)
    requires Populated(z, base, z.n) && Ascending(z, base, z.n)
    ensures Good(Client(z, map[]))
  {
    forall h: nat, i: nat | Covers(z.blocks, h, i) && i != h && i < z.n ensures !z.free[i] {
      NoHeadInside(z.blocks, z.n, h, i);
    }
    forall k: nat, x: nat, y: nat | k < MAX_ORDER && FreeHead(z, z.n, k, x) && FreeHead(z, z.n, k, y)
      ensures y != BuddyOf(x, k)
    {
      BuddyInvolution(x, k);
    }
  }

  lemma UserEndAligned(base: nat, n: nat)
    requires base + n == USER_END / PAGE
    ensures Aligned(base + n, MAX_ORDER)
  {
    AlignedIsMultiple(USER_END / PAGE, MAX_ORDER);
    assert Pow2(10) == 1024;
  }

  /** Every state a permitted run from boot reaches without halting is good. */
  lemma BootRunKeeps(base: nat, n: nat, ops: seq<Op>)
    requires Aligned(base + n, MAX_ORDER)
    requires WellFormed(Init(base, n)) && PermittedRun(Client(Init(base, n), map[]), ops)
    ensures var r := Run(Client(Init(base, n), map[]), ops); r.Finished? ==> Good(r.client)
  {
    InitPopulated(base, n);
    PopulatedIsGood(Init(base, n), base);
    RunKeeps(Client(Init(base, n), map[]), ops);
  }

  /** With a base aligned to 4 MB the blocks are aligned within the zone as well. */
  lemma InitAligned(base: nat, n: nat)
    requires Aligned(base + n, MAX_ORDER) && n % 1024 == 0
    ensures HeadsAligned(Init(base, n)) && Good(Client(Init(base, n), map[]))
  {
    InitPopulated(base, n);
    PopulatedIsGood(Init(base, n), base);
    assert Pow2(10) == 1024;
    AlignedIsMultiple(n, MAX_ORDER);
    AddAlignedLow(base, n, MAX_ORDER, MAX_ORDER);
    var z := Init(base, n);
    forall h | h in z.blocks ensures Aligned(h, z.blocks[h]) {
      AlignedDown(base, z.blocks[h], MAX_ORDER);
      AddAlignedLow(h, base, z.blocks[h], z.blocks[h]);
    }
  }
}
