/**
  The invariant of the buddy allocator and its preservation, one step of the
  split and merge loops at a time.

  The hard part is stale metadata. free_pages marks the page it is given free
  (kernel/mm/mem.c:229) and leaves that mark, and the page's old order, in place
  when a lower buddy absorbs the block. Such a page sits inside a bigger block
  and still reads "free, order j". `Stale` is what makes it harmless.
 */
module BuddyInvariant {
  import opened Basics
  import opened Bits
  import opened BuddyModel

  predicate Covers(blocks: map<nat, nat>, h: nat, i: nat) {
    h in blocks && h <= i < h + Pow2(blocks[h])
  }

  ghost predicate Covered(blocks: map<nat, nat>, i: nat) {
    exists h: nat :: Covers(blocks, h, i)
  }

  ghost predicate InRange(blocks: map<nat, nat>, n: nat) {
    forall h :: h in blocks ==> blocks[h] <= MAX_ORDER && h + Pow2(blocks[h]) <= n
  }

  ghost predicate Disjoint(blocks: map<nat, nat>) {
    forall g, h :: g in blocks && h in blocks && g < h ==> g + Pow2(blocks[g]) <= h
  }

  ghost predicate AllCovered(blocks: map<nat, nat>, n: nat) {
    forall i: nat :: i < n ==> Covered(blocks, i)
  }

  /** The blocks lie inside [0, n), do not overlap and leave no page out. */
  ghost predicate Tiles(blocks: map<nat, nat>, n: nat) {
    InRange(blocks, n) && Disjoint(blocks) && AllCovered(blocks, n)
  }

  /** A page i inside the order-m block at h may read "free, order j" only like this. */
  predicate Stale(i: nat, j: nat, h: nat, m: nat) {
    h <= i && j < m && Aligned(i - h, j) && Bit(h, j) == 0
  }

  ghost predicate InteriorsHarmless(z: Zone)
    requires WellFormed(z)
  {
    forall h: nat, i: nat :: Covers(z.blocks, h, i) && i != h && i < z.n && z.free[i] ==>
      Stale(i, z.order[i], h, z.blocks[h])
  }

  /** The head x of a free order-k block, other than c. */
  predicate FreeHead(z: Zone, c: nat, k: nat, x: nat)
    requires WellFormed(z)
  {
    x < z.n && x in z.blocks && x != c && z.blocks[x] == k && z.free[x]
  }

  /** List k holds exactly the heads of the free order-k blocks, once each; c is set aside. */
  ghost predicate ListsExact(z: Zone, c: nat)
    requires WellFormed(z)
  {
    forall k: nat :: k <= MAX_ORDER ==>
      && NoDuplicates(z.lists[k])
      && forall x: nat :: x in z.lists[k] <==> FreeHead(z, c, k, x)
  }

  ghost predicate HeadsTruthful(z: Zone, c: nat)
    requires WellFormed(z)
  {
    forall h :: h in z.blocks && h != c && h < z.n ==> z.order[h] == z.blocks[h]
  }

  /** The invariant with the block headed by c in hand: on no list, flags unsettled. */
  ghost predicate InvariantExcept(z: Zone, c: nat) {
    match z
    case Zone(n, _, _, _, blocks) =>
      && WellFormed(z)
      && Tiles(blocks, n)
      && InteriorsHarmless(z)
      && HeadsTruthful(z, c)
      && ListsExact(z, c)
  }

  /** The invariant between calls (n is no page, so no block is in hand). */
  ghost predicate Invariant(z: Zone) {
    InvariantExcept(z, z.n)
  }

  /** What the merge loop knows about the metadata of the block in hand. */
  ghost predicate HandHarmless(z: Zone, c: nat)
    requires WellFormed(z)
  {
    && c < z.n && c in z.blocks
    && (z.free[c] ==>
          && z.order[c] <= z.blocks[c]
          && (z.order[c] < z.blocks[c] ==> Bit(c, z.order[c]) == 0))
  }

  // ----- tiling

  /** A page of two blocks is a page of one block. */
  lemma CoverUnique(blocks: map<nat, nat>, n: nat, g: nat, h: nat, i: nat)
    requires Tiles(blocks, n) && Covers(blocks, g, i) && Covers(blocks, h, i)
    ensures g == h
  {
  }

  lemma NoHeadInside(blocks: map<nat, nat>, n: nat, h: nat, i: nat)
    requires Tiles(blocks, n) && Covers(blocks, h, i) && i != h
    ensures i !in blocks
  {
    if i in blocks { CoverUnique(blocks, n, h, i, i); }
  }

  lemma SplitCovers(blocks: map<nat, nat>, n: nat, h: nat, m: nat)
    requires AllCovered(blocks, n) && h in blocks && blocks[h] == m + 1 && h + Pow2(m) !in blocks
    ensures AllCovered(blocks[h := m][h + Pow2(m) := m], n)
  {
    var b := h + Pow2(m);
    var after := blocks[h := m][b := m];
    forall i: nat | i < n ensures Covered(after, i) {
      assert Covered(blocks, i);
      var g: nat :| Covers(blocks, g, i);
      assert Covers(after, if g != h then g else if i < b then h else b, i);
    }
  }

  lemma SplitApart(blocks: map<nat, nat>, h: nat, m: nat, f: nat, g: nat)
    requires Disjoint(blocks) && h in blocks && blocks[h] == m + 1 && h + Pow2(m) !in blocks
    requires var after := blocks[h := m][h + Pow2(m) := m]; f in after && g in after && f < g
    ensures f + Pow2(blocks[h := m][h + Pow2(m) := m][f]) <= g
  {
    var b := h + Pow2(m);
    assert Pow2(m + 1) == 2 * Pow2(m);
    hide Pow2;
    assert f != h && f != b && g == b ==> f < h;
    assert f != h && f != b && f < h ==> f + Pow2(blocks[f]) <= h;
    assert g != h && g != b && h < g ==> h + Pow2(m + 1) <= g;
  }

  lemma SplitTiles(blocks: map<nat, nat>, n: nat, h: nat, m: nat)
    requires Tiles(blocks, n) && h in blocks && blocks[h] == m + 1
    ensures h + Pow2(m) !in blocks && h + Pow2(m) < n
    ensures Tiles(blocks[h := m][h + Pow2(m) := m], n)
  {
    hide InRange, Disjoint, AllCovered, Pow2;
    SplitFits(blocks, n, h, m);
    SplitCovers(blocks, n, h, m);
    SplitDisjoint(blocks, h, m);
  }

  lemma SplitFits(blocks: map<nat, nat>, n: nat, h: nat, m: nat)
    requires Tiles(blocks, n) && h in blocks && blocks[h] == m + 1
    ensures h + Pow2(m) !in blocks && h + Pow2(m) < n && InRange(blocks[h := m][h + Pow2(m) := m], n)
  {
    assert Pow2(m + 1) == 2 * Pow2(m);
    hide AllCovered;
    NoHeadInside(blocks, n, h, h + Pow2(m));
  }

  lemma SplitDisjoint(blocks: map<nat, nat>, h: nat, m: nat)
    requires Disjoint(blocks) && h in blocks && blocks[h] == m + 1 && h + Pow2(m) !in blocks
    ensures Disjoint(blocks[h := m][h + Pow2(m) := m])
  {
    hide Pow2, Disjoint;
    var after := blocks[h := m][h + Pow2(m) := m];
    forall f, g | f in after && g in after && f < g ensures f + Pow2(after[f]) <= g { SplitApart(blocks, h, m, f, g); }
    DisjointFrom(after);
  }

  lemma DisjointFrom(blocks: map<nat, nat>)
    requires forall g, h :: g in blocks && h in blocks && g < h ==> g + Pow2(blocks[g]) <= h
    ensures Disjoint(blocks)
  {
    hide Pow2;
  }

  lemma MergeCovers(blocks: map<nat, nat>, n: nat, lo: nat, k: nat)
    requires AllCovered(blocks, n)
    requires lo in blocks && lo + Pow2(k) in blocks && blocks[lo] == k == blocks[lo + Pow2(k)]
    ensures AllCovered((blocks - {lo + Pow2(k)})[lo := k + 1], n)
  {
    var hi := lo + Pow2(k);
    var after := (blocks - {hi})[lo := k + 1];
    forall i: nat | i < n ensures Covered(after, i) {
      assert Covered(blocks, i);
      var g: nat :| Covers(blocks, g, i);
      assert Covers(after, if g == lo || g == hi then lo else g, i);
    }
  }

  lemma MergeDisjoint(blocks: map<nat, nat>, lo: nat, k: nat)
    requires Disjoint(blocks)
    requires lo in blocks && lo + Pow2(k) in blocks && blocks[lo] == k == blocks[lo + Pow2(k)]
    ensures Disjoint((blocks - {lo + Pow2(k)})[lo := k + 1])
  {
    var hi := lo + Pow2(k);
    var after := (blocks - {hi})[lo := k + 1];
    assert Pow2(k + 1) == 2 * Pow2(k);
    hide Pow2;
    forall f, g | f in after && g in after && f < g ensures f + Pow2(after[f]) <= g {
      assert f + Pow2(blocks[f]) <= g;
      if f == lo { assert hi + Pow2(blocks[hi]) <= g; }
    }
  }

  lemma MergeTiles(blocks: map<nat, nat>, n: nat, lo: nat, k: nat)
    requires Tiles(blocks, n) && k < MAX_ORDER
    requires lo in blocks && lo + Pow2(k) in blocks && blocks[lo] == k == blocks[lo + Pow2(k)]
    ensures Tiles((blocks - {lo + Pow2(k)})[lo := k + 1], n)
  {
    hide InRange, Disjoint, AllCovered, Pow2;
    MergeFits(blocks, n, lo, k);
    MergeCovers(blocks, n, lo, k);
    MergeDisjoint(blocks, lo, k);
  }

  lemma MergeFits(blocks: map<nat, nat>, n: nat, lo: nat, k: nat)
    requires InRange(blocks, n) && k < MAX_ORDER
    requires lo in blocks && lo + Pow2(k) in blocks && blocks[lo] == k == blocks[lo + Pow2(k)]
    ensures InRange((blocks - {lo + Pow2(k)})[lo := k + 1], n)
  {
    assert Pow2(k + 1) == 2 * Pow2(k);
    hide Pow2;
  }

  // ----- lists

  lemma {:induction false} RemoveProperties(l: seq<nat>, x: nat)
    requires NoDuplicates(l)
    ensures NoDuplicates(Remove(l, x))
    ensures forall y :: y in Remove(l, x) <==> y in l && y != x
  {
    hide NoDuplicates;
    if l != [] {
      PopProperties(l);
      RemoveProperties(l[1..], x);
      if l[0] != x { PushProperties(Remove(l[1..], x), l[0]); }
    }
  }

  /** A page that heads no free block, or is in hand, is on no list. */
  lemma Unlisted(z: Zone, c: nat, x: nat)
    requires WellFormed(z) && ListsExact(z, c) && (x == c || x !in z.blocks)
    ensures forall j: nat :: j <= MAX_ORDER ==> x !in z.lists[j]
  {
    forall j: nat | j <= MAX_ORDER ensures x !in z.lists[j] {
      assert x in z.lists[j] <==> FreeHead(z, c, j, x);
    }
  }

  // ----- one step of the split loop

  lemma SplitStepStale(z: Zone, h: nat, m: nat)
    requires WellFormed(z) && Tiles(z.blocks, z.n) && InteriorsHarmless(z) && m < MAX_ORDER
    requires h in z.blocks && z.blocks[h] == m + 1 && h + Pow2(m) < z.n
    ensures InteriorsHarmless(SplitStep(z, h, m + 1))
  {
    var z' := SplitStep(z, h, m + 1);
    var b := h + Pow2(m);
    assert Pow2(m + 1) == 2 * Pow2(m);
    forall g: nat, i: nat | Covers(z'.blocks, g, i) && i != g && i < z'.n && z'.free[i]
      ensures Stale(i, z'.order[i], g, z'.blocks[g])
    {
      if g == h {
        assert Covers(z.blocks, h, i);
        AlignedOffset(i - h, z.order[i], m);
      } else if g == b {
        assert Covers(z.blocks, h, i);
        SplitUpperHalf(i, z.order[i], h, m);
      } else {
        assert Covers(z.blocks, g, i);
        assert Covers(z.blocks, h, b);
        if i == b { CoverUnique(z.blocks, z.n, g, h, i); }
      }
    }
  }

  lemma SplitUpperHalf(i: nat, j: nat, h: nat, m: nat)
    requires Stale(i, j, h, m + 1) && h + Pow2(m) < i < h + Pow2(m + 1)
    ensures Stale(i, j, h + Pow2(m), m)
  {
    var b := h + Pow2(m);
    assert Pow2(m + 1) == 2 * Pow2(m) && i - h == (i - b) + Pow2(m);
    AddPow2Low(i - b, m, j);
    AlignedOffset(i - b, j, m);
    AddPow2Low(h, m, j);
  }

  lemma SplitStepLists(z: Zone, h: nat, m: nat)
    requires WellFormed(z) && ListsExact(z, h) && m < MAX_ORDER
    requires h in z.blocks && h + Pow2(m) < z.n && h + Pow2(m) !in z.blocks
    ensures ListsExact(SplitStep(z, h, m + 1), h)
  {
    var z' := SplitStep(z, h, m + 1);
    var b := h + Pow2(m);
    forall k: nat | k <= MAX_ORDER
      ensures NoDuplicates(z'.lists[k]) && forall x: nat :: x in z'.lists[k] <==> FreeHead(z', h, k, x)
    {
      assert b !in z.lists[k];
      PushProperties(z.lists[k], b);
      forall x: nat ensures x in z'.lists[k] <==> FreeHead(z', h, k, x) {
        assert x != b ==> (x in z.lists[k] <==> FreeHead(z, h, k, x));
      }
    }
  }

  /** Halving the block in hand keeps the invariant; the free half is the one new list entry. */
  lemma SplitStepKeeps(z: Zone, h: nat, c: nat)
    requires InvariantExcept(z, h) && h in z.blocks && z.blocks[h] == c && c > 0
    ensures h + Pow2(c - 1) < z.n
    ensures InvariantExcept(SplitStep(z, h, c), h)
    ensures SplitStep(z, h, c).blocks == z.blocks[h := c - 1][h + Pow2(c - 1) := c - 1]
  {
    hide InteriorsHarmless, ListsExact, Pow2;
    SplitTiles(z.blocks, z.n, h, c - 1);
    SplitStepStale(z, h, c - 1);
    SplitStepLists(z, h, c - 1);
  }

  // ----- one step of the merge loop

  /**
    No stale page is taken for a buddy: if the exclusive-or buddy of the block
    in hand reads "free, order k", then it heads a free order-k block.
   */
  lemma BuddyIsAHead(z: Zone, a: nat, k: nat)
    requires InvariantExcept(z, a) && a in z.blocks && z.blocks[a] == k
    requires BuddyOf(a, k) < z.n && z.free[BuddyOf(a, k)] && z.order[BuddyOf(a, k)] == k
    ensures BuddyOf(a, k) != a && FreeHead(z, a, k, BuddyOf(a, k))
  {
    hide Bit, Aligned, BuddyOf, Pow2;
    var b := BuddyOf(a, k);
    BuddyInvolution(a, k);
    assert Covered(z.blocks, b);
    var h: nat :| Covers(z.blocks, h, b);
    if h != b {
      assert Stale(b, k, h, z.blocks[h]);
      assert Aligned(b - h, k) && Bit(h, k) == 0 && h + (b - h) == b;
      SiblingInside(h, b - h, k, z.blocks[h]);
      CoverUnique(z.blocks, z.n, a, h, a);
    }
  }

  /** A block and its buddy, ordered: the upper one starts where the lower one ends. */
  lemma BuddiesAdjoin(a: nat, k: nat)
    ensures var b := BuddyOf(a, k);
            var lo, hi := if a > b then b else a, if a > b then a else b;
            hi == lo + Pow2(k) && Bit(lo, k) == 0
  {
    BuddyInvolution(a, k);
  }

  lemma MergeStepStale(z: Zone, a: nat, b: nat, k: nat, lo: nat)
    requires WellFormed(z) && InteriorsHarmless(z) && k < MAX_ORDER
    requires HandHarmless(z, a) && a in z.blocks && z.blocks[a] == k
    requires b in z.blocks && z.blocks[b] == k && b < z.n
    requires Bit(lo, k) == 0
    requires (lo == a && b == lo + Pow2(k)) || (lo == b && a == lo + Pow2(k))
    ensures InteriorsHarmless(MergeStep(z, a, b, k))
  {
    var z' := MergeStep(z, a, b, k);
    var hi := lo + Pow2(k);
    assert z'.blocks == (z.blocks - {hi})[lo := k + 1];
    forall g: nat, i: nat | Covers(z'.blocks, g, i) && i != g && i < z'.n && z'.free[i]
      ensures Stale(i, z'.order[i], g, z'.blocks[g])
    {
      if g != lo {
        assert Covers(z.blocks, g, i);
      } else {
        MergeStepStaleAt(z, a, b, k, lo, i);
      }
    }
  }

  lemma MergeStepStaleAt(z: Zone, a: nat, b: nat, k: nat, lo: nat, i: nat)
    requires WellFormed(z) && InteriorsHarmless(z)
    requires HandHarmless(z, a) && z.blocks[a] == k
    requires b in z.blocks && z.blocks[b] == k
    requires Bit(lo, k) == 0
    requires (lo == a && b == lo + Pow2(k)) || (lo == b && a == lo + Pow2(k))
    requires lo < i < lo + Pow2(k + 1) && i < z.n && i != b && z.free[i]
    ensures Stale(i, z.order[i], lo, k + 1)
  {
    var hi := lo + Pow2(k);
    assert Pow2(k + 1) == 2 * Pow2(k);
    if i < hi {
      assert Covers(z.blocks, lo, i);
    } else if i == hi {
      MergeAbsorbs(lo, k, z.order[i]);
    } else {
      assert Covers(z.blocks, hi, i);
      MergeUpperHalf(i, z.order[i], lo, k);
    }
  }

  lemma MergeAbsorbs(lo: nat, k: nat, j: nat)
    requires Bit(lo, k) == 0 && j <= k && (j < k ==> Bit(lo + Pow2(k), j) == 0)
    ensures Stale(lo + Pow2(k), j, lo, k + 1)
  {
    AddPow2Low(lo, k, j);
    Pow2Bits(k);
    AlignedDown(Pow2(k), j, k);
  }

  lemma MergeUpperHalf(i: nat, j: nat, lo: nat, k: nat)
    requires Stale(i, j, lo + Pow2(k), k)
    ensures Stale(i, j, lo, k + 1)
  {
    var hi := lo + Pow2(k);
    AddPow2Low(i - hi, k, j);
    assert i - lo == (i - hi) + Pow2(k);
    AddPow2Low(lo, k, j);
  }

  lemma MergeStepLists(z: Zone, a: nat, b: nat, k: nat)
    requires WellFormed(z) && ListsExact(z, a) && k < MAX_ORDER && a != b
    requires a in z.blocks && b in z.blocks && z.blocks[b] == k && b < z.n
    ensures ListsExact(MergeStep(z, a, b, k), if a > b then b else a)
  {
    var z' := MergeStep(z, a, b, k);
    var lo := if a > b then b else a;
    forall m: nat | m <= MAX_ORDER
      ensures NoDuplicates(z'.lists[m]) && forall x: nat :: x in z'.lists[m] <==> FreeHead(z', lo, m, x)
    {
      RemoveProperties(z.lists[m], b);
      forall x: nat ensures x in z'.lists[m] <==> FreeHead(z', lo, m, x) {
        assert x in z.lists[m] <==> FreeHead(z, a, m, x);
      }
    }
  }

  lemma MergeStepHand(z: Zone, a: nat, b: nat, k: nat, lo: nat)
    requires WellFormed(z) && HandHarmless(z, a) && z.blocks[a] == k < MAX_ORDER && b < z.n
    requires Bit(lo, k) == 0 && lo == (if a > b then b else a) && a != b
    ensures HandHarmless(MergeStep(z, a, b, k), lo) && MergeStep(z, a, b, k).blocks[lo] == k + 1
  {
  }

  lemma MergeStepHeads(z: Zone, a: nat, b: nat, k: nat)
    requires WellFormed(z) && HeadsTruthful(z, a) && b < z.n && k < MAX_ORDER
    ensures WellFormed(MergeStep(z, a, b, k))
    ensures HeadsTruthful(MergeStep(z, a, b, k), if a > b then b else a)
  {
  }

  /** Joining the block in hand with its free buddy keeps the invariant, with the union in hand. */
  lemma MergeStepKeeps(z: Zone, a: nat, k: nat)
    requires InvariantExcept(z, a) && a in z.blocks && z.blocks[a] == k && k < MAX_ORDER
    requires HandHarmless(z, a)
    requires BuddyOf(a, k) < z.n && z.free[BuddyOf(a, k)] && z.order[BuddyOf(a, k)] == k
    ensures var b := BuddyOf(a, k); var lo := if a > b then b else a;
            var z' := MergeStep(z, a, b, k);
            && InvariantExcept(z', lo) && HandHarmless(z', lo) && z'.blocks[lo] == k + 1
  {
    var b := BuddyOf(a, k);
    var lo := if a > b then b else a;
    BuddyIsAHead(z, a, k);
    BuddiesAdjoin(a, k);
    MergeJoin(z, a, b, k, lo);
  }

  lemma MergeJoin(z: Zone, a: nat, b: nat, k: nat, lo: nat)
    requires InvariantExcept(z, a) && a in z.blocks && z.blocks[a] == k && k < MAX_ORDER
    requires HandHarmless(z, a) && FreeHead(z, a, k, b) && Bit(lo, k) == 0
    requires (lo == a && b == lo + Pow2(k)) || (lo == b && a == lo + Pow2(k))
    ensures var z' := MergeStep(z, a, b, k);
            && InvariantExcept(z', lo) && HandHarmless(z', lo) && z'.blocks[lo] == k + 1
  {
    hide Tiles, InteriorsHarmless, HeadsTruthful, ListsExact, Bit, Pow2;
    var z' := MergeStep(z, a, b, k);
    assert Tiles(z'.blocks, z'.n) by { MergeTiles(z.blocks, z.n, lo, k); }
    assert InteriorsHarmless(z') by { MergeStepStale(z, a, b, k, lo); }
    assert ListsExact(z', lo) by { MergeStepLists(z, a, b, k); }
    MergeStepHeads(z, a, b, k);
    MergeStepHand(z, a, b, k, lo);
  }

  // ----- taking a block in hand and putting it back

  lemma PushLists(z: Zone, a: nat, k: nat)
    requires WellFormed(z) && ListsExact(z, a) && a in z.blocks && a < z.n && z.blocks[a] == k <= MAX_ORDER
    ensures ListsExact(Push(z, a, k), z.n)
  {
    var z' := Push(z, a, k);
    forall m: nat | m <= MAX_ORDER
      ensures NoDuplicates(z'.lists[m]) && forall x: nat :: x in z'.lists[m] <==> FreeHead(z', z.n, m, x)
    {
      assert a in z.lists[m] <==> FreeHead(z, a, m, a);
      PushProperties(z.lists[m], a);
      forall x: nat ensures x in z'.lists[m] <==> FreeHead(z', z.n, m, x) {
        assert x in z.lists[m] <==> FreeHead(z, a, m, x);
      }
    }
  }

  lemma HeadWriteStale(z: Zone, a: nat, k: nat, f: bool)
    requires WellFormed(z) && Tiles(z.blocks, z.n) && InteriorsHarmless(z) && a in z.blocks && a < z.n
    requires k <= MAX_ORDER
    ensures InteriorsHarmless(z.(order := z.order[a := k], free := z.free[a := f]))
  {
    var z' := z.(order := z.order[a := k], free := z.free[a := f]);
    forall g: nat, i: nat | Covers(z'.blocks, g, i) && i != g && i < z'.n && z'.free[i]
      ensures Stale(i, z'.order[i], g, z'.blocks[g])
    {
      NoHeadInside(z.blocks, z.n, g, i);
      assert Covers(z.blocks, g, i);
    }
  }

  /** Putting the block in hand on the free list of its order restores the invariant. */
  lemma PushKeeps(z: Zone, a: nat)
    requires InvariantExcept(z, a) && a in z.blocks
    ensures Invariant(Push(z, a, z.blocks[a]))
  {
    PushLists(z, a, z.blocks[a]);
    HeadWriteStale(z, a, z.blocks[a], true);
  }

  lemma PopLists(z: Zone, o: nat, k: nat)
    requires WellFormed(z) && ListsExact(z, z.n) && o <= MAX_ORDER && k <= MAX_ORDER && z.lists[o] != []
    ensures FreeHead(z, z.n, o, z.lists[o][0])
    ensures ListsExact(Pop(z, o, k), z.lists[o][0])
  {
    var h := z.lists[o][0];
    assert h in z.lists[o] <==> FreeHead(z, z.n, o, h);
    var z' := Pop(z, o, k);
    forall m: nat | m <= MAX_ORDER
      ensures NoDuplicates(z'.lists[m]) && forall x: nat :: x in z'.lists[m] <==> FreeHead(z', h, m, x)
    {
      PopProperties(z.lists[o]);
      forall x: nat ensures x in z'.lists[m] <==> FreeHead(z', h, m, x) {
        assert x in z.lists[m] <==> FreeHead(z, z.n, m, x);
      }
    }
  }

  /** Taking the first block of a list into hand. */
  lemma PopKeeps(z: Zone, o: nat, k: nat)
    requires Invariant(z) && o <= MAX_ORDER && k <= MAX_ORDER && z.lists[o] != []
    ensures FreeHead(z, z.n, o, z.lists[o][0])
    ensures InvariantExcept(Pop(z, o, k), z.lists[o][0])
  {
    PopLists(z, o, k);
    HeadWriteStale(z, z.lists[o][0], k, false);
  }

  /** Marking a live head free takes its block into hand. */
  lemma MarkKeeps(z: Zone, a: nat)
    requires Invariant(z) && a in z.blocks && !z.free[a]
    ensures var z' := z.(free := z.free[a := true]);
            InvariantExcept(z', a) && HandHarmless(z', a)
  {
    var z' := z.(free := z.free[a := true]);
    HeadWriteStale(z, a, z.order[a], true);
    assert z.order[a := z.order[a]] == z.order;
    forall m: nat | m <= MAX_ORDER
      ensures NoDuplicates(z'.lists[m]) && forall x: nat :: x in z'.lists[m] <==> FreeHead(z', a, m, x)
    {
      forall x: nat ensures x in z'.lists[m] <==> FreeHead(z', a, m, x) {
        assert x in z.lists[m] <==> FreeHead(z, z.n, m, x);
      }
    }
  }
}
