/**
  alloc_pages followed at once by free_pages. The split loop and the merge loop
  are inverse moves between the states `Halved(z, _, h, o, j)`; whether the
  merge loop retraces the split depends only on bits of the block's index.
 */
module BuddyRoundTrip {
  import opened Basics
  import opened Bits
  import opened BuddyModel
  import opened BuddyInvariant
  import opened BuddyCalls

  /** The blocks after the order-o block at h is halved down to order j. */
  function HalvedBlocks(blocks: map<nat, nat>, h: nat, o: nat, j: nat): map<nat, nat>
    decreases o - j
  {
    if j >= o then blocks else HalvedBlocks(blocks, h, o, j + 1)[h := j][h + Pow2(j) := j]
  }

  /** Page h + 2^i reads "free, order i". */
  predicate HalfMarked(w: Zone, h: nat, i: nat)
    requires WellFormed(w)
  {
    h + Pow2(i) < w.n && w.order[h + Pow2(i)] == i && w.free[h + Pow2(i)]
  }

  ghost predicate HalvesMarked(w: Zone, h: nat, o: nat, j: nat)
    requires WellFormed(w)
  {
    forall i: nat :: j <= i < o ==> HalfMarked(w, h, i)
  }

  /** List i of z without the block in hand. */
  function Remaining(z: Zone, o: nat, i: nat): seq<nat>
    requires WellFormed(z) && o <= MAX_ORDER && z.lists[o] != [] && i <= MAX_ORDER
  {
    if i == o then z.lists[o][1..] else z.lists[i]
  }

  ghost predicate HalvedLists(z: Zone, lists: seq<seq<nat>>, h: nat, o: nat, j: nat)
    requires WellFormed(z) && o <= MAX_ORDER && z.lists[o] != [] && |lists| == MAX_ORDER + 1
  {
    forall i: nat :: i <= MAX_ORDER ==> lists[i] == SplitEntry(h, o, j, i) + Remaining(z, o, i)
  }

  /** w is z with the first block of list o, at h, in hand and halved down to order j. */
  ghost predicate Halved(z: Zone, w: Zone, h: nat, o: nat, j: nat)
    requires WellFormed(z) && o <= MAX_ORDER
  {
    match w
    case Zone(n, _, _, lists, blocks) =>
      && WellFormed(w) && n == z.n && j <= o && z.lists[o] != [] && z.lists[o][0] == h
      && blocks == HalvedBlocks(z.blocks, h, o, j) && HalvedLists(z, lists, h, o, j) && HalvesMarked(w, h, o, j)
  }

  lemma Pow2Distinct(i: nat, j: nat)
    requires i != j
    ensures Pow2(i) != Pow2(j)
  {
    if i < j { Pow2Monotonic(i, j); } else { Pow2Monotonic(j, i); }
  }

  /** One split step goes one order down. */
  lemma HalveStep(z: Zone, w: Zone, h: nat, o: nat, c: nat)
    requires WellFormed(z) && WellFormed(w) && o <= MAX_ORDER && Halved(z, w, h, o, c)
    requires 0 < c && h + Pow2(c - 1) < w.n
    ensures Halved(z, SplitStep(w, h, c), h, o, c - 1)
  {
    hide Pow2;
    var w' := SplitStep(w, h, c);
    forall i: nat | c - 1 <= i < o ensures HalfMarked(w', h, i) {
      if i >= c { assert HalfMarked(w, h, i); Pow2Distinct(i, c - 1); }
    }
  }

  lemma {:induction false} SplitIsHalved(z: Zone, w: Zone, h: nat, o: nat, c: nat, k: nat)
    requires WellFormed(z) && WellFormed(w) && o <= MAX_ORDER && Halved(z, w, h, o, c) && k <= c <= MAX_ORDER
    requires Split(w, h, c, k).Freed?
    ensures Halved(z, Split(w, h, c, k).zone, h, o, k)
    decreases c
  {
    hide Halved, Pow2;
    if c > k {
      HalveStep(z, w, h, o, c);
      SplitIsHalved(z, SplitStep(w, h, c), h, o, c - 1, k);
    }
  }

  lemma {:induction false} HalvedKeys(blocks: map<nat, nat>, h: nat, o: nat, j: nat, m: nat)
    requires h in blocks && blocks[h] == o && m < j <= o && h + Pow2(m) !in blocks
    ensures h in HalvedBlocks(blocks, h, o, j) && HalvedBlocks(blocks, h, o, j)[h] == j
    ensures h + Pow2(m) !in HalvedBlocks(blocks, h, o, j)
    decreases o - j
  {
    if j < o {
      HalvedKeys(blocks, h, o, j + 1, m);
      Pow2Distinct(m, j);
    }
  }

  lemma UnhalveBlocks(blocks: map<nat, nat>, h: nat, o: nat, j: nat)
    requires h in blocks && blocks[h] == o && j < o && h + Pow2(j) !in blocks
    ensures (HalvedBlocks(blocks, h, o, j) - {h + Pow2(j)})[h := j + 1] == HalvedBlocks(blocks, h, o, j + 1)
  {
    HalvedKeys(blocks, h, o, j + 1, j);
  }

  lemma UnhalveList(w: Zone, l: seq<nat>, h: nat, o: nat, j: nat, i: nat)
    requires WellFormed(w) && h + Pow2(j) < w.n && j < o <= MAX_ORDER && i <= MAX_ORDER
    requires w.lists[i] == SplitEntry(h, o, j, i) + l
    ensures MergeStep(w, h, h + Pow2(j), j).lists[i] == SplitEntry(h, o, j + 1, i) + l
  {
    if i == j {
      assert w.lists[j][0] == h + Pow2(j) && w.lists[j][1..] == l;
      assert [] + l == l;
    }
  }

  lemma UnhalveMarks(w: Zone, h: nat, o: nat, j: nat)
    requires WellFormed(w) && h + Pow2(j) < w.n && j < o <= MAX_ORDER && HalvesMarked(w, h, o, j)
    ensures WellFormed(MergeStep(w, h, h + Pow2(j), j)) && HalvesMarked(MergeStep(w, h, h + Pow2(j), j), h, o, j + 1)
  {
    var w' := MergeStep(w, h, h + Pow2(j), j);
    hide Pow2, Remove;
    forall i: nat | j + 1 <= i < o ensures HalfMarked(w', h, i) {
      assert HalfMarked(w, h, i);
      Pow2Distinct(i, j);
    }
  }

  lemma UnhalveLists(z: Zone, w: Zone, h: nat, o: nat, j: nat)
    requires WellFormed(z) && WellFormed(w) && h + Pow2(j) < w.n && j < o <= MAX_ORDER && z.lists[o] != []
    requires HalvedLists(z, w.lists, h, o, j)
    ensures |MergeStep(w, h, h + Pow2(j), j).lists| == MAX_ORDER + 1
    ensures HalvedLists(z, MergeStep(w, h, h + Pow2(j), j).lists, h, o, j + 1)
  {
    hide Pow2, SplitEntry, Remove, Remaining;
    forall i: nat | i <= MAX_ORDER
      ensures MergeStep(w, h, h + Pow2(j), j).lists[i] == SplitEntry(h, o, j + 1, i) + Remaining(z, o, i)
    {
      UnhalveList(w, Remaining(z, o, i), h, o, j, i);
    }
  }

  /** One merge step undoes the last split step. */
  lemma UnhalveStep(z: Zone, w: Zone, h: nat, o: nat, j: nat)
    requires WellFormed(z) && o <= MAX_ORDER && Halved(z, w, h, o, j) && j < o
    requires h in z.blocks && z.blocks[h] == o && h + Pow2(j) !in z.blocks && h + Pow2(j) < w.n
    ensures Halved(z, MergeStep(w, h, h + Pow2(j), j), h, o, j + 1)
  {
    hide Pow2, HalvedBlocks, HalvedLists, HalvesMarked, Remove, WellFormed;
    UnhalveBlocks(z.blocks, h, o, j);
    UnhalveMarks(w, h, o, j);
    UnhalveLists(z, w, h, o, j);
  }

  /** A turn of the merge loop. */
  lemma MergeUnroll(w: Zone, a: nat, k: nat)
    requires WellFormed(w) && a < w.n && k < MAX_ORDER && BuddyOf(a, k) < w.n
    ensures var b := BuddyOf(a, k);
            Merge(w, a, k) ==
              if w.free[b] && w.order[b] == k then Merge(MergeStep(w, a, b, k), if a > b then b else a, k + 1)
              else Freed(Push(w, a, k))
  {
    hide BuddyOf, MergeStep, Push;
  }

  /** The merge loop from order m up leaves every list below m alone. */
  lemma {:induction false} MergeKeepsLower(w: Zone, a: nat, m: nat, j: nat)
    requires WellFormed(w) && a < w.n && j < m <= MAX_ORDER && Merge(w, a, m).Freed?
    ensures Merge(w, a, m).zone.lists[j] == w.lists[j]
    decreases MAX_ORDER - m
  {
    var b := BuddyOf(a, m);
    if m < MAX_ORDER && w.free[b] && w.order[b] == m {
      MergeKeepsLower(MergeStep(w, a, b, m), if a > b then b else a, m + 1, j);
    }
  }

  /** With bit j of h set, the upper half split off at order j is never taken back. */
  lemma WrongSideStays(z: Zone, w: Zone, h: nat, o: nat, j: nat)
    requires WellFormed(z) && o <= MAX_ORDER && Halved(z, w, h, o, j) && j < o && h < w.n
    requires Bit(h, j) == 1 && z.lists[j] == []
    requires Merge(w, h, j).Freed?
    ensures Merge(w, h, j).zone.lists[j] != []
  {
    var b := BuddyOf(h, j);
    assert b + Pow2(j) == h;
    assert Pow2(j) > 0;
    hide Pow2, Bit, BuddyOf, Halved, Merge, MergeStep, WellFormed;
    HalfList(z, w, h, o, j);
    MergeUnroll(w, h, j);
    if w.free[b] && w.order[b] == j {
      UpperHalfStays(w, h, b, j, h + Pow2(j));
      MergeKeepsLower(MergeStep(w, h, b, j), b, j + 1, j);
    }
  }

  lemma HalfList(z: Zone, w: Zone, h: nat, o: nat, j: nat)
    requires WellFormed(z) && o <= MAX_ORDER && Halved(z, w, h, o, j) && j < o && z.lists[j] == []
    ensures WellFormed(w) && w.lists[j] == [h + Pow2(j)]
  {
    hide HalvedBlocks, HalvesMarked, Pow2;
  }

  lemma UpperHalfStays(w: Zone, h: nat, b: nat, j: nat, x: nat)
    requires WellFormed(w) && b < w.n && j < MAX_ORDER && w.lists[j] == [x] && x != b
    ensures WellFormed(MergeStep(w, h, b, j)) && MergeStep(w, h, b, j).n == w.n && MergeStep(w, h, b, j).lists[j] == [x]
  {
    assert Remove([x], b) == [x] + Remove([], b);
  }

  /** Every bit of h from j to o - 1 is clear, and the order-o buddy, if asked for, is in range. */
  ghost predicate Retraces(h: nat, j: nat, o: nat, n: nat) {
    (forall i: nat :: j <= i < o ==> Bit(h, i) == 0) && (o == MAX_ORDER || BuddyOf(h, o) < n)
  }

  lemma RetracesUnroll(h: nat, j: nat, o: nat, n: nat)
    requires j < o
    ensures Retraces(h, j, o, n) <==> Bit(h, j) == 0 && Retraces(h, j + 1, o, n)
  {
  }

  ghost predicate Restores(z: Zone, r: FreeOutcome) {
    r.Freed? && r.zone.lists == z.lists && r.zone.blocks == z.blocks
  }

  lemma TwinWasFree(z: Zone, w: Zone, h: nat, o: nat, b: nat)
    requires WellFormed(z) && ListsExact(z, z.n) && o <= MAX_ORDER && Halved(z, w, h, o, o)
    requires ListsExact(w, h) && FreeHead(w, h, o, b)
    ensures FreeHead(z, z.n, o, b)
  {
    assert b in w.lists[o];
    assert b in z.lists[o];
  }

  /** At the popped order the merge loop stops: the block's own buddy was not free before the call. */
  lemma TopOfRetrace(z: Zone, w: Zone, h: nat, o: nat)
    requires Invariant(z) && Coalesced(z) && o <= MAX_ORDER && Halved(z, w, h, o, o) && Merging(w, h, o)
    ensures Merge(w, h, o).Freed? <==> Retraces(h, o, o, z.n)
    ensures Merge(w, h, o).Freed? ==> Restores(z, Merge(w, h, o))
  {
    assert h in z.lists[o];
    assert FreeHead(z, z.n, o, h);
    if o < MAX_ORDER && BuddyOf(h, o) < z.n {
      var b := BuddyOf(h, o);
      if w.free[b] && w.order[b] == o {
        BuddyIsAHead(w, h, o);
        TwinWasFree(z, w, h, o, b);
      }
      assert Merge(w, h, o) == Freed(Push(w, h, o));
    }
    if Merge(w, h, o).Freed? {
      var z' := Push(w, h, o);
      assert z'.lists[o] == [h] + z.lists[o][1..] == z.lists[o];
      assert forall i: nat :: i <= MAX_ORDER ==> z'.lists[i] == z.lists[i];
      assert z'.lists == z.lists;
    }
  }

  /** With bit j of h clear, the merge loop takes the step that undoes the last split step. */
  lemma RetraceStep(z: Zone, w: Zone, h: nat, o: nat, j: nat) returns (w': Zone)
    requires WellFormed(z) && Tiles(z.blocks, z.n) && o <= MAX_ORDER && Halved(z, w, h, o, j) && j < o
    requires Merging(w, h, j) && h in z.blocks && z.blocks[h] == o && Bit(h, j) == 0
    ensures Halved(z, w', h, o, j + 1) && Merging(w', h, j + 1)
    ensures Merge(w, h, j) == Merge(w', h, j + 1)
  {
    var b := h + Pow2(j);
    HalfMark(z, w, h, o, j);
    HalfIsNoHead(z.blocks, z.n, h, o, j);
    assert BuddyOf(h, j) == b > h;
    hide Tiles, Halved, Pow2, Bit, BuddyOf, Merge, Merging, MergeStep;
    MergingShape(w, h, j);
    w' := MergeStep(w, h, b, j);
    UnhalveStep(z, w, h, o, j);
    MergingStep(w, h, j);
    MergeUnroll(w, h, j);
  }

  lemma HalfMark(z: Zone, w: Zone, h: nat, o: nat, j: nat)
    requires WellFormed(z) && o <= MAX_ORDER && Halved(z, w, h, o, j) && j < o
    ensures WellFormed(w) && HalfMarked(w, h, j)
  {
    hide HalvedBlocks, HalvedLists, Pow2;
  }

  lemma HalfIsNoHead(blocks: map<nat, nat>, n: nat, h: nat, o: nat, j: nat)
    requires Tiles(blocks, n) && h in blocks && blocks[h] == o && j < o
    ensures h + Pow2(j) !in blocks
  {
    Pow2Monotonic(j, o);
    Pow2Distinct(j, o);
    assert Covers(blocks, h, h + Pow2(j));
    NoHeadInside(blocks, n, h, h + Pow2(j));
  }

  lemma MergingShape(w: Zone, h: nat, j: nat)
    requires Merging(w, h, j)
    ensures WellFormed(w) && h < w.n
  {
  }

  /** From (h, j) the merge loop restores the lists of z exactly if it retraces the splits. */
  ghost predicate RetraceExact(z: Zone, w: Zone, h: nat, o: nat, j: nat) {
    && WellFormed(w) && h < w.n && j <= MAX_ORDER
    && ((Merge(w, h, j).Freed? && Merge(w, h, j).zone.lists == z.lists) <==> Retraces(h, j, o, z.n))
    && (Retraces(h, j, o, z.n) ==> Restores(z, Merge(w, h, j)))
  }

  lemma RetraceWrong(z: Zone, w: Zone, h: nat, o: nat, j: nat)
    requires WellFormed(z) && o <= MAX_ORDER && Halved(z, w, h, o, j) && Merging(w, h, j)
    requires j < o && Bit(h, j) == 1 && z.lists[j] == []
    ensures RetraceExact(z, w, h, o, j)
  {
    hide Halved, Merging, Merge, Restores;
    MergingShape(w, h, j);
    if Merge(w, h, j).Freed? { WrongSideStays(z, w, h, o, j); }
  }

  lemma {:induction false} RetraceFrom(z: Zone, w: Zone, h: nat, o: nat, j: nat)
    requires Invariant(z) && Coalesced(z) && o <= MAX_ORDER && Halved(z, w, h, o, j) && Merging(w, h, j)
    requires FreeHead(z, z.n, o, h)
    requires forall i: nat :: j <= i < o ==> z.lists[i] == []
    ensures RetraceExact(z, w, h, o, j)
    decreases o - j
  {
    hide Halved, Merging, Merge, Retraces, Bit, Invariant, Coalesced, Tiles, Restores, FreeHead;
    MergingShape(w, h, j);
    RetraceParts(z, w, h, o, j);
    BitIsDigit(h, j);
    if j == o {
      TopOfRetrace(z, w, h, o);
      RestoresLists(z, Merge(w, h, o));
    } else if Bit(h, j) == 1 {
      RetraceWrong(z, w, h, o, j);
    } else {
      RetracesUnroll(h, j, o, z.n);
      var w' := RetraceStep(z, w, h, o, j);
      RetraceFrom(z, w', h, o, j + 1);
    }
  }

  lemma RestoresLists(z: Zone, r: FreeOutcome)
    ensures Restores(z, r) ==> r.Freed? && r.zone.lists == z.lists
  {
  }

  lemma RetraceParts(z: Zone, w: Zone, h: nat, o: nat, j: nat)
    requires Invariant(z) && o <= MAX_ORDER && Halved(z, w, h, o, j) && FreeHead(z, z.n, o, h)
    ensures WellFormed(z) && Tiles(z.blocks, z.n) && h in z.blocks && z.blocks[h] == o && j <= o
  {
    hide Tiles, HalvedBlocks, HalvedLists;
  }

  lemma BitIsDigit(h: nat, j: nat)
    ensures Bit(h, j) == 0 || Bit(h, j) == 1
  {
  }

  lemma AllocIsHalved(z: Zone, k: nat)
    requires Invariant(z) && Alloc(z, k).Allocated?
    ensures var z1, h, o := Alloc(z, k).zone, Alloc(z, k).page, FirstNonEmpty(z.lists, k);
            Halved(z, z1, h, o, k) && FreeHead(z, z.n, o, h)
  {
    var h, o := Alloc(z, k).page, FirstNonEmpty(z.lists, k);
    PopKeeps(z, o, k);
    SplitIsHalved(z, Pop(z, o, k), h, o, o, k);
  }

  lemma MarkIsHalved(z: Zone, w: Zone, h: nat, o: nat, k: nat)
    requires WellFormed(z) && o <= MAX_ORDER && Halved(z, w, h, o, k) && h < w.n
    ensures Halved(z, w.(free := w.free[h := true]), h, o, k)
  {
    var w' := w.(free := w.free[h := true]);
    forall i: nat | k <= i < o ensures HalfMarked(w', h, i) { assert HalfMarked(w, h, i); }
  }

  lemma AllocIsLive(z: Zone, k: nat)
    requires Invariant(z) && Coalesced(z) && Alloc(z, k).Allocated?
    ensures Invariant(Alloc(z, k).zone) && Coalesced(Alloc(z, k).zone)
    ensures Live(Alloc(z, k).zone, Alloc(z, k).page, k)
  {
    AllocKeeps(z, k);
    AllocCoalesced(z, k);
  }

  /**
    Allocating at order k and freeing the result at once restores every free
    list, order included, and the tiling, exactly when bits k to o - 1 of the
    popped index are clear and, for a popped order o below MAX_ORDER, its
    order-o buddy exists.
   */
  lemma RoundTrip(z: Zone, k: nat)
    requires Invariant(z) && Coalesced(z) && Alloc(z, k).Allocated?
    ensures var z1, h, o := Alloc(z, k).zone, Alloc(z, k).page, FirstNonEmpty(z.lists, k);
            && ((Free(z1, h).Freed? && Free(z1, h).zone.lists == z.lists) <==> Retraces(h, k, o, z.n))
            && (Retraces(h, k, o, z.n) ==> Restores(z, Free(z1, h)))
  {
    var z1, h, o := Alloc(z, k).zone, Alloc(z, k).page, FirstNonEmpty(z.lists, k);
    AllocIsHalved(z, k);
    AllocIsLive(z, k);
    MarkIsMerging(z1, h, k);
    MarkIsHalved(z, z1, h, o, k);
    RetraceFrom(z, z1.(free := z1.free[h := true]), h, o, k);
  }

  // ----- freeing twice

  /** The merge loop never clears the mark of a page inside the block in hand. */
  lemma {:induction false} MergeKeepsMark(z: Zone, a: nat, k: nat, p: nat)
    requires WellFormed(z) && a <= p < z.n && p < a + Pow2(k) && k <= MAX_ORDER && z.free[p]
    requires Merge(z, a, k).Freed?
    ensures Merge(z, a, k).zone.free[p]
    decreases MAX_ORDER - k
  {
    hide BuddyOf, MergeStep, Pow2;
    var b := BuddyOf(a, k);
    if k < MAX_ORDER && z.free[b] && z.order[b] == k {
      var lo := if a > b then b else a;
      MarkStays(z, a, k, p);
      MergeKeepsMark(MergeStep(z, a, b, k), lo, k + 1, p);
    }
  }

  /** A marked page inside the block in hand stays marked and inside when the block doubles. */
  lemma MarkStays(z: Zone, a: nat, k: nat, p: nat)
    requires WellFormed(z) && a <= p < z.n && p < a + Pow2(k) && k < MAX_ORDER && z.free[p] && BuddyOf(a, k) < z.n
    ensures var b := BuddyOf(a, k); var lo := if a > b then b else a;
            var z' := MergeStep(z, a, b, k);
            WellFormed(z') && z'.n == z.n && z'.free[p] && lo <= p < lo + Pow2(k + 1)
  {
    BuddiesAdjoin(a, k);
    assert Pow2(k + 1) == 2 * Pow2(k);
    hide BuddyOf, Pow2, Remove;
  }

  /** The mark a freed page keeps, stale or not, makes freeing it again at once a no-op. */
  lemma DoubleFreeIsNoOp(z: Zone, a: nat)
    requires WellFormed(z) && Free(z, a).Freed?
    ensures Free(Free(z, a).zone, a) == Free(z, a)
  {
    if !z.free[a] {
      MergeKeepsMark(z.(free := z.free[a := true]), a, z.order[a], a);
    }
  }
}
