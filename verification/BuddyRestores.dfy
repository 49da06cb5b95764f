/**
  When alloc_pages() followed at once by free_pages() restores the free lists, in
  every state the code reaches from boot: exactly if num_pages is a multiple of
  1024. Otherwise the first block after boot, or the one popped once that block is
  held, is on the wrong side of its buddy, or has none.
 */
module BuddyRestores {
  import opened Basics
  import opened Bits
  import opened BuddyModel
  import opened BuddyInvariant
  import opened BuddyCalls
  import opened BuddyRuns
  import opened BuddyInit
  import opened BuddyHalts
  import opened BuddyRoundTrip

  /** Allocating at order k, if that succeeds, and freeing the block at once gives the lists back. */
  ghost predicate RestoresAt(z: Zone, k: nat)
    requires WellFormed(z)
  {
    match Alloc(z, k)
    case Allocated(z1, h) => Free(z1, h).Freed? && Free(z1, h).zone.lists == z.lists
    case _ => true
  }

  // ----- a multiple of 1024

  lemma AlignedRetraces(h: nat, k: nat, o: nat, n: nat)
    requires Aligned(h, o) && h < n && Aligned(n, MAX_ORDER) && o <= MAX_ORDER
    ensures Retraces(h, k, o, n)
  {
    forall i: nat | k <= i < o ensures Bit(h, i) == 0 { AlignedDown(h, i, o); }
    if o < MAX_ORDER { FlipStaysBelow(h, o, n, MAX_ORDER); }
  }

  lemma AlignedRestores(z: Zone, k: nat)
    requires Invariant(z) && WellFormed(z) && Coalesced(z) && HeadsAligned(z) && Aligned(z.n, MAX_ORDER)
    ensures RestoresAt(z, k)
  {
    hide Invariant, Coalesced, Alloc, Free, Retraces, Aligned;
    if Alloc(z, k).Allocated? {
      PoppedHead(z, k);
      var h, o := Alloc(z, k).page, FirstNonEmpty(z.lists, k);
      AlignedRetraces(h, k, o, z.n);
      RoundTrip(z, k);
    }
  }

  /** The block handed out is the first of the first non-empty list. */
  lemma PoppedHead(z: Zone, k: nat)
    requires Invariant(z) && WellFormed(z) && Alloc(z, k).Allocated?
    ensures k <= MAX_ORDER && FirstNonEmpty(z.lists, k) <= MAX_ORDER
    ensures FreeHead(z, z.n, FirstNonEmpty(z.lists, k), Alloc(z, k).page)
  {
    AllocIsHalved(z, k);
  }

  lemma RunRestores(base: nat, n: nat, ops: seq<Op>, k: nat)
    requires Aligned(base + n, MAX_ORDER) && n % 1024 == 0
    requires WellFormed(Boot(base, n).zone) && PermittedRun(Boot(base, n), ops)
    ensures Run(Boot(base, n), ops).Finished? && RestoresAt(Run(Boot(base, n), ops).client.zone, k)
  {
    var c := Boot(base, n);
    InitAligned(base, n);
    BootIsGood(base, n);
    AlignedIsMultiple(n, MAX_ORDER);
    assert Pow2(10) == 1024;
    hide Good, Run, PermittedRun, RestoresAt, Aligned, HeadsAligned, Init;
    RunNeverHalts(c, ops);
    RunKeeps(c, ops);
    GoodParts(Run(c, ops).client);
    AlignedRestores(Run(c, ops).client.zone, k);
  }

  lemma GoodParts(c: Client)
    requires Good(c)
    ensures WellFormed(c.zone) && Invariant(c.zone) && Coalesced(c.zone)
  {
  }

  // ----- the first blocks after boot

  /** The populating loop never touches the blocks it has already made. */
  lemma {:induction false} PopulateLeaves(z: Zone, base: nat, i: nat, h: nat)
    requires WellFormed(z) && h in z.blocks && h < i
    ensures h in Populate(z, base, i).blocks && Populate(z, base, i).blocks[h] == z.blocks[h]
    decreases z.n - i
  {
    hide Populate, GreedyOrder, Pow2, Fits;
    PopulateUnroll(z, base, i);
    if i < z.n {
      var o := GreedyOrder(base + i, base + z.n, MAX_ORDER);
      PopulateLeaves(PopulateOne(z, i, o), base, i + Pow2(o), h);
    }
  }

  /** The base of such a zone is not a multiple of 1024 pages either. */
  lemma BaseUnaligned(base: nat, n: nat)
    requires Aligned(base + n, MAX_ORDER) && n % 1024 != 0
    ensures !Aligned(base, MAX_ORDER) && n > 0
  {
    assert Pow2(10) == 1024;
    AlignedIsMultiple(n, MAX_ORDER);
    if Aligned(base, MAX_ORDER) { AddAlignedLow(n, base, MAX_ORDER, MAX_ORDER); }
  }

  /** After a first block that does not reach the end, the next one is larger. */
  lemma SecondOrder(base: nat, n: nat, j: nat)
    requires Aligned(base + n, MAX_ORDER) && j < MAX_ORDER && Aligned(base, j) && !Aligned(base, j + 1) && Pow2(j) < n
    ensures GreedyOrder(base + Pow2(j), base + n, MAX_ORDER) > j
  {
    var p, end := base + Pow2(j), base + n;
    NextAligned(base, j);
    AlignedDown(end, j + 1, MAX_ORDER);
    AddAlignedLow(end - p, p, j + 1, j + 1);
    AlignedAtLeast(end - p, j + 1);
    if GreedyOrder(p, end, MAX_ORDER) <= j { GreedyIsGreatest(p, end, MAX_ORDER, j + 1); }
  }

  /** Page 0 heads a block below MAX_ORDER; base has exactly its alignment, and the block after it is larger. */
  lemma FirstBlocks(base: nat, n: nat) returns (j: nat)
    requires Aligned(base + n, MAX_ORDER) && n % 1024 != 0
    ensures j < MAX_ORDER && Aligned(base, j) && Bit(base, j) == 1 && Pow2(j) <= n
    ensures var blocks := Init(base, n).blocks;
            && 0 in blocks && blocks[0] == j
            && (Pow2(j) < n ==> Pow2(j) in blocks && blocks[Pow2(j)] > j)
  {
    hide Aligned, Pow2, Bit, GreedyOrder, Populate, Fits, WellFormed;
    BaseUnaligned(base, n);
    j := PopulateOrder(base, 0, n);
    AlignedSucc(base, j);
    if Pow2(j) < n { SecondOrder(base, n, j); }
    FirstTurns(Blank(n), base, j, if Pow2(j) < n then GreedyOrder(base + Pow2(j), base + n, MAX_ORDER) else 0);
  }

  /** One turn of the populating loop: its block stays. */
  lemma PopulateTurn(z: Zone, base: nat, i: nat, o: nat)
    requires WellFormed(z) && i < z.n && o == GreedyOrder(base + i, base + z.n, MAX_ORDER)
    ensures Populate(z, base, i) == Populate(PopulateOne(z, i, o), base, i + Pow2(o))
    ensures i in Populate(z, base, i).blocks && Populate(z, base, i).blocks[i] == o
    ensures WellFormed(PopulateOne(z, i, o)) && PopulateOne(z, i, o).n == z.n
  {
    hide Populate, GreedyOrder, Pow2, Fits, PopulateOne, WellFormed;
    PopulateShape(z, i, o);
    PopulateUnroll(z, base, i);
    PopulateLeaves(PopulateOne(z, i, o), base, i + Pow2(o), i);
  }

  /** The first two turns. */
  lemma FirstTurns(z: Zone, base: nat, j: nat, o: nat)
    requires WellFormed(z) && 0 < z.n && j == GreedyOrder(base, base + z.n, MAX_ORDER)
    requires Pow2(j) < z.n ==> o == GreedyOrder(base + Pow2(j), base + z.n, MAX_ORDER)
    ensures var blocks := Populate(z, base, 0).blocks;
            && 0 in blocks && blocks[0] == j
            && (Pow2(j) < z.n ==> Pow2(j) in blocks && blocks[Pow2(j)] == o)
  {
    hide Populate, GreedyOrder, Pow2, Fits, PopulateOne, WellFormed;
    PopulateTurn(z, base, 0, j);
    if Pow2(j) < z.n { PopulateTurn(PopulateOne(z, 0, j), base, Pow2(j), o); }
  }

  lemma PopulateShape(z: Zone, i: nat, o: nat)
    requires WellFormed(z) && i < z.n && o <= MAX_ORDER
    ensures var z' := PopulateOne(z, i, o);
            WellFormed(z') && z'.n == z.n && i in z'.blocks && z'.blocks[i] == o
  {
  }

  // ----- not a multiple of 1024

  lemma OnlyMember(l: seq<nat>, x: nat)
    requires NoDuplicates(l) && x in l && forall y: nat :: y in l ==> y == x
    ensures l == [x]
  {
    RemoveProperties(l, x);
    RemoveLength(l, x);
    if Remove(l, x) != [] { NonEmptyHasMember(Remove(l, x)); }
  }

  /** At boot, list j holds page 0 alone. */
  lemma FirstAlone(base: nat, n: nat, j: nat)
    requires Aligned(base + n, MAX_ORDER) && j < MAX_ORDER && 0 in Init(base, n).blocks && Init(base, n).blocks[0] == j
    ensures var z := Init(base, n);
            && z.n == n && WellFormed(z) && z.lists[j] == [0] && AddressAligned(z.blocks, base)
            && forall h: nat :: h in z.blocks ==> FreeHead(z, n, z.blocks[h], h)
  {
    InitPopulated(base, n);
    var z := Init(base, n);
    hide Init, Tiles, Aligned, HeadsTruthful;
    HeadsFree(z, base, n);
    assert FreeHead(z, n, j, 0);
    OnlyMember(z.lists[j], 0);
  }

  lemma HeadsFree(z: Zone, base: nat, n: nat)
    requires z.n == n && Populated(z, base, n)
    ensures forall h: nat :: h in z.blocks ==> FreeHead(z, n, z.blocks[h], h)
  {
    hide Aligned, ListsExact, HeadsTruthful;
    forall h | h in z.blocks ensures h < n { assert Pow2(z.blocks[h]) > 0; }
  }

  /** The first allocation takes page 0 whole. */
  lemma TakeFirst(z: Zone, j: nat)
    requires WellFormed(z) && j <= MAX_ORDER && z.n > 0 && z.lists[j] == [0]
    ensures FirstNonEmpty(z.lists, j) == j && Alloc(z, j) == Allocated(Pop(z, j, j), 0)
  {
  }

  /** The next one takes a larger block, on the wrong side of its buddy. */
  lemma TakeNext(z: Zone, base: nat, j: nat)
    requires Invariant(z) && WellFormed(z) && AddressAligned(z.blocks, base) && j < MAX_ORDER && z.lists[j] == []
    requires Aligned(base, j) && Bit(base, j) == 1
    requires Pow2(j) < z.n && Pow2(j) in z.blocks
    requires FreeHead(z, z.n, z.blocks[Pow2(j)], Pow2(j)) && z.blocks[Pow2(j)] > j
    ensures Alloc(z, j).Allocated? && !Retraces(Alloc(z, j).page, j, FirstNonEmpty(z.lists, j), z.n)
  {
    hide Alloc, Aligned, Bit, Pow2;
    AllocKeeps(z, j);
    OrdersBound(z, Pow2(j));
    hide Invariant;
    PoppedHead(z, j);
    var h, o := Alloc(z, j).page, FirstNonEmpty(z.lists, j);
    AlignedDown(base + h, j, o);
    AddAligned(h, base, j);
    assert Bit(h, j) != 0;
  }

  lemma OrdersBound(z: Zone, h: nat)
    requires Invariant(z) && h in z.blocks
    ensures z.blocks[h] <= MAX_ORDER
  {
  }

  /** For every other size: at boot, or after one call. */
  lemma SomeRoundTripFails(base: nat, n: nat) returns (ops: seq<Op>, k: nat)
    requires Aligned(base + n, MAX_ORDER) && n % 1024 != 0
    ensures |ops| <= 1 && WellFormed(Boot(base, n).zone)
    ensures PermittedRun(Boot(base, n), ops) && Run(Boot(base, n), ops).Finished?
    ensures !RestoresAt(Run(Boot(base, n), ops).client.zone, k)
  {
    var c := Boot(base, n);
    BootIsGood(base, n);
    k := FirstBlocks(base, n);
    FirstAlone(base, n, k);
    TakeFirst(c.zone, k);
    GoodParts(c);
    hide Good, Init, Aligned, Bit, Pow2, Invariant, Coalesced, Run, PermittedRun, Alloc, AddressAligned, Retraces,
         WellFormed, Free;
    if Pow2(k) == n {
      ops := [];
      RunNothing(c);
      RoundTrip(c.zone, k);
      NoTwin(k, n);
    } else {
      ops := [AllocOp(k)];
      RunFirst(c, k);
      RunKeeps(c, ops);
      var z := Run(c, ops).client.zone;
      GoodParts(Run(c, ops).client);
      TakeNext(z, base, k);
      RoundTrip(z, k);
    }
  }

  lemma NoTwin(k: nat, n: nat)
    requires k < MAX_ORDER && n == Pow2(k)
    ensures !Retraces(0, k, k, n)
  {
    ZeroBit(k);
  }

  lemma {:induction false} ZeroBit(k: nat)
    ensures Bit(0, k) == 0
  {
    if k > 0 { ZeroBit(k - 1); }
  }

  lemma RunFirst(c: Client, k: nat)
    requires WellFormed(c.zone) && Alloc(c.zone, k).Allocated?
    ensures PermittedRun(c, [AllocOp(k)]) && Run(c, [AllocOp(k)]).Finished?
    ensures Run(c, [AllocOp(k)]).client.zone == Alloc(c.zone, k).zone
  {
    hide Alloc;
    var ops := [AllocOp(k)];
    assert ops[0] == AllocOp(k) && ops[1..] == [];
  }

  /**
    Allocating and freeing at once restores every free list, in order, in every
    state a permitted run from boot reaches and at every order, if and only if
    num_pages is a multiple of 1024.
   */
  lemma RestoresExactly(base: nat, n: nat)
    requires Aligned(base + n, MAX_ORDER)
    ensures WellFormed(Boot(base, n).zone)
    ensures (forall ops: seq<Op>, k: nat :: PermittedRun(Boot(base, n), ops) && Run(Boot(base, n), ops).Finished? ==>
               RestoresAt(Run(Boot(base, n), ops).client.zone, k))
            <==> n % 1024 == 0
  {
    BootIsGood(base, n);
    BootIsEmpty(base, n);
    hide Good, Boot, Run, PermittedRun, RestoresAt, Aligned, WellFormed;
    if n % 1024 == 0 {
      forall ops: seq<Op>, k: nat | PermittedRun(Boot(base, n), ops) && Run(Boot(base, n), ops).Finished?
        ensures RestoresAt(Run(Boot(base, n), ops).client.zone, k)
      {
        RunRestores(base, n, ops, k);
      }
    } else {
      var ops, k := SomeRoundTripFails(base, n);
    }
  }
}
