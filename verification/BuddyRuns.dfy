/**
  Whole runs of the allocator under a client that frees only what it holds.
  The client's ledger names the blocks it was given and has not given back.
 */
module BuddyRuns {
  import opened Basics
  import opened Bits
  import opened BuddyModel
  import opened BuddyInvariant
  import opened BuddyCalls

  datatype Op = AllocOp(order: nat) | FreeOp(page: nat)

  datatype Client = Client(zone: Zone, ledger: map<nat, nat>)

  datatype RunOutcome = Halted | Finished(client: Client)

  function Perform(c: Client, op: Op): (r: RunOutcome)
    requires WellFormed(c.zone)
    ensures r.Finished? ==> WellFormed(r.client.zone) && r.client.zone.n == c.zone.n
  {
    match op
    case AllocOp(k) =>
      (match Alloc(c.zone, k)
       case AllocHalt => Halted
       case NoMemory => Finished(c)
       case Allocated(z, h) => Finished(Client(z, c.ledger[h := k])))
    case FreeOp(p) =>
      (match Free(c.zone, p)
       case FreeHalt => Halted
       case Freed(z) => Finished(Client(z, c.ledger - {p})))
  }

  function Run(c: Client, ops: seq<Op>): (r: RunOutcome)
    requires WellFormed(c.zone)
    ensures r.Finished? ==> WellFormed(r.client.zone) && r.client.zone.n == c.zone.n
    decreases ops
  {
    if ops == [] then Finished(c)
    else
      match Perform(c, ops[0])
      case Halted => Halted
      case Finished(c') => Run(c', ops[1..])
  }

  /** The client frees only a block it holds, or a page the allocator already marks free. */
  predicate Permitted(c: Client, op: Op)
    requires WellFormed(c.zone)
  {
    op.FreeOp? ==> op.page in c.ledger || (op.page < c.zone.n && c.zone.free[op.page])
  }

  predicate PermittedRun(c: Client, ops: seq<Op>)
    requires WellFormed(c.zone)
    decreases ops
  {
    ops == [] ||
    (Permitted(c, ops[0]) && (Perform(c, ops[0]).Finished? ==> PermittedRun(Perform(c, ops[0]).client, ops[1..])))
  }

  /** The ledger is exactly the allocated blocks. */
  ghost predicate LedgerExact(c: Client)
    requires WellFormed(c.zone)
  {
    forall g: nat, j: nat :: (g in c.ledger && c.ledger[g] == j) <==> Live(c.zone, g, j)
  }

  ghost predicate Good(c: Client) {
    match c
    case Client(zone, _) => Invariant(zone) && Coalesced(zone) && LedgerExact(c)
  }

  lemma PerformKeeps(c: Client, op: Op)
    requires Good(c) && Permitted(c, op)
    ensures Perform(c, op).Finished? ==> Good(Perform(c, op).client)
    ensures Perform(c, op).Halted? ==> op.FreeOp?
  {
    hide Alloc, Free;
    match op
    case AllocOp(k) => AllocOpKeeps(c, k);
    case FreeOp(p) => FreeOpKeeps(c, p);
  }

  lemma AllocOpKeeps(c: Client, k: nat)
    requires Good(c)
    ensures !Alloc(c.zone, k).AllocHalt?
    ensures Alloc(c.zone, k).Allocated? ==> Good(Client(Alloc(c.zone, k).zone, c.ledger[Alloc(c.zone, k).page := k]))
  {
    AllocKeeps(c.zone, k);
    assert WellFormed(c.zone);
    hide InvariantExcept, CoalescedExcept, Alloc;
    if Alloc(c.zone, k).Allocated? {
      AllocCoalesced(c.zone, k);
      LedgerTakes(c, Alloc(c.zone, k).zone, Alloc(c.zone, k).page, k);
    }
  }

  lemma LedgerTakes(c: Client, z: Zone, h: nat, k: nat)
    requires WellFormed(c.zone) && LedgerExact(c) && WellFormed(z)
    requires forall g: nat, j: nat :: Live(z, g, j) <==> Live(c.zone, g, j) || (g == h && j == k)
    ensures LedgerExact(Client(z, c.ledger[h := k]))
  {
    var c' := Client(z, c.ledger[h := k]);
    forall g: nat, j: nat ensures (g in c'.ledger && c'.ledger[g] == j) <==> Live(z, g, j) {
      assert (g in c.ledger && c.ledger[g] == j) <==> Live(c.zone, g, j);
      assert Live(z, h, k) && (Live(z, h, j) ==> j == z.blocks[h]);
    }
  }

  lemma FreeOpKeeps(c: Client, p: nat)
    requires Good(c) && WellFormed(c.zone) && Permitted(c, FreeOp(p))
    ensures Free(c.zone, p).Freed? ==> Good(Client(Free(c.zone, p).zone, c.ledger - {p}))
  {
    if p in c.ledger {
      assert Live(c.zone, p, c.ledger[p]);
      FreeKeeps(c.zone, p, c.ledger[p]);
      hide InvariantExcept, CoalescedExcept, Free, LiveExcept;
      if Free(c.zone, p).Freed? { LedgerGives(c, Free(c.zone, p).zone, p); }
    } else {
      assert Free(c.zone, p) == Freed(c.zone) && c.ledger - {p} == c.ledger;
    }
  }

  lemma LedgerGives(c: Client, z: Zone, p: nat)
    requires WellFormed(c.zone) && LedgerExact(c) && WellFormed(z)
    requires forall g: nat, j: nat :: Live(z, g, j) <==> Live(c.zone, g, j) && g != p
    ensures LedgerExact(Client(z, c.ledger - {p}))
  {
    hide LiveExcept;
  }

  /**
    Safety over every run: whatever the alignment of the zone, in every state a
    permitted run reaches without halting the free and allocated blocks tile the
    zone, every free list is exact, every head's metadata is truthful, free
    buddies are merged and the ledger is exactly the allocated blocks.
   */
  lemma {:induction false} RunKeeps(c: Client, ops: seq<Op>)
    requires Good(c) && PermittedRun(c, ops)
    ensures Run(c, ops).Finished? ==> Good(Run(c, ops).client)
    decreases ops
  {
    if ops != [] {
      PerformKeeps(c, ops[0]);
      if Perform(c, ops[0]).Finished? { RunKeeps(Perform(c, ops[0]).client, ops[1..]); }
    }
  }

  /** The client's view: blocks it holds at the same time never share a page. */
  lemma HeldBlocksDisjoint(c: Client, ops: seq<Op>)
    requires Good(c) && PermittedRun(c, ops)
    ensures Run(c, ops).Finished? ==>
              var held := Run(c, ops).client.ledger;
              && (forall g :: g in held ==> g + Pow2(held[g]) <= c.zone.n)
              && (forall g, h :: g in held && h in held && g < h ==> g + Pow2(held[g]) <= h)
  {
    RunKeeps(c, ops);
    if Run(c, ops).Finished? {
      var c' := Run(c, ops).client;
      forall g | g in c'.ledger
        ensures g in c'.zone.blocks && c'.zone.blocks[g] == c'.ledger[g]
      {
        assert Live(c'.zone, g, c'.ledger[g]);
      }
    }
  }

  // ----- a whole number of order-10 blocks

  lemma PerformInRange(c: Client, op: Op)
    requires Good(c) && Permitted(c, op) && Aligned(c.zone.n, MAX_ORDER)
    ensures Perform(c, op).Finished?
    ensures HeadsAligned(c.zone) ==> HeadsAligned(Perform(c, op).client.zone)
  {
    PerformKeeps(c, op);
    var z := c.zone;
    match op
    case AllocOp(k) =>
      if HeadsAligned(z) && Alloc(z, k).Allocated? {
        var o := FirstNonEmpty(z.lists, k);
        PopKeeps(z, o, k);
        SplitAligned(Pop(z, o, k), z.lists[o][0], o, k);
      }
    case FreeOp(p) =>
      if p in c.ledger {
        assert Live(z, p, c.ledger[p]);
        var z1 := z.(free := z.free[p := true]);
        MergeInRange(z1, p, z.order[p]);
        if HeadsAligned(z) { MergeAligned(z1, p, z.order[p]); }
      }
  }

  /** If num_pages is a multiple of 1024, no permitted run ever halts. */
  lemma {:induction false} RunNeverHalts(c: Client, ops: seq<Op>)
    requires Good(c) && PermittedRun(c, ops) && c.zone.n % 1024 == 0
    ensures Run(c, ops).Finished?
    ensures HeadsAligned(c.zone) ==> HeadsAligned(Run(c, ops).client.zone)
    decreases ops
  {
    AlignedIsMultiple(c.zone.n, MAX_ORDER);
    assert Pow2(10) == 1024;
    if ops != [] {
      PerformKeeps(c, ops[0]);
      PerformInRange(c, ops[0]);
      RunNeverHalts(Perform(c, ops[0]).client, ops[1..]);
    }
  }

  // ----- everything freed

  lemma AlignedCoverIsHead(g: nat, b: nat, k: nat)
    requires Aligned(g, k) && Aligned(b, k) && g <= b < g + Pow2(k)
    ensures g == b
  {
    if g < b {
      AddAlignedLow(b - g, g, k, k);
      AlignedOffset(b - g, k, k);
    }
  }

  /** A block over the buddy of h that is no smaller than h's block is that buddy. */
  lemma CoverOfTwin(blocks: map<nat, nat>, n: nat, h: nat, k: nat, g: nat)
    requires Tiles(blocks, n) && h in blocks && blocks[h] == k && Aligned(h, k)
    requires Covers(blocks, g, BuddyOf(h, k)) && Aligned(g, blocks[g]) && k <= blocks[g]
    ensures g == BuddyOf(h, k) && blocks[g] == k
  {
    var b, m := BuddyOf(h, k), blocks[g];
    BuddyInvolution(h, k);
    AlignedDown(g, k, m);
    BuddyAligned(h, k);
    if m == k {
      AlignedCoverIsHead(g, b, k);
    } else {
      TwinInside(g, b, k, m);
      CoverUnique(blocks, n, g, h, h);
    }
  }

  /** The buddy of a smallest block is a block of the same order. */
  lemma SmallestHasTwin(blocks: map<nat, nat>, n: nat, h: nat, k: nat)
    requires Tiles(blocks, n) && Aligned(n, MAX_ORDER) && h in blocks && blocks[h] == k < MAX_ORDER
    requires forall x :: x in blocks ==> Aligned(x, blocks[x]) && k <= blocks[x]
    ensures BuddyOf(h, k) in blocks && blocks[BuddyOf(h, k)] == k
  {
    FlipStaysBelow(h, k, n, MAX_ORDER);
    assert Covered(blocks, BuddyOf(h, k));
    var g: nat :| Covers(blocks, g, BuddyOf(h, k));
    CoverOfTwin(blocks, n, h, k, g);
  }

  lemma TwinInside(g: nat, b: nat, k: nat, m: nat)
    requires Aligned(g, k) && Bit(g, k) == 0 && Aligned(b, k) && g <= b < g + Pow2(m) && k < m
    ensures g <= BuddyOf(b, k) < g + Pow2(m)
  {
    Pow2Monotonic(k, m);
    hide Bit, Aligned, Pow2;
    if b != g {
      AddAlignedLow(b - g, g, k, k);
      SiblingInside(g, b - g, k, m);
    }
  }

  lemma BuddyAligned(h: nat, k: nat)
    requires Aligned(h, k)
    ensures Aligned(BuddyOf(h, k), k)
  {
    if Bit(h, k) == 0 { AddPow2Low(h, k, k); } else { AddPow2Low(BuddyOf(h, k), k, k); }
  }

  ghost predicate NothingLive(z: Zone)
    requires WellFormed(z)
  {
    forall g: nat, j: nat :: !Live(z, g, j)
  }

  lemma {:induction false} NoBlockBelow(z: Zone, k: nat)
    requires Invariant(z) && Coalesced(z) && HeadsAligned(z) && Aligned(z.n, MAX_ORDER) && NothingLive(z)
    requires k <= MAX_ORDER
    ensures forall h :: h in z.blocks ==> k <= z.blocks[h]
  {
    if k > 0 {
      NoBlockBelow(z, k - 1);
      forall h | h in z.blocks ensures k <= z.blocks[h] {
        if z.blocks[h] == k - 1 {
          SmallestHasTwin(z.blocks, z.n, h, k - 1);
          var b := BuddyOf(h, k - 1);
          assert !Live(z, h, k - 1) && !Live(z, b, k - 1);
          assert FreeHead(z, z.n, k - 1, h) && FreeHead(z, z.n, k - 1, b);
        }
      }
    }
  }

  lemma NonEmptyHasMember(l: seq<nat>)
    requires l != []
    ensures exists x: nat :: x in l
  {
    assert l[0] in l;
  }

  /** A duplicate-free list of exactly the multiples of 1024 below 1024 q has length q. */
  lemma {:induction false} CountMultiples(l: seq<nat>, q: nat)
    requires NoDuplicates(l) && forall x: nat :: x in l <==> x < 1024 * q && x % 1024 == 0
    ensures |l| == q
    decreases q
  {
    if q == 0 {
      if l != [] { NonEmptyHasMember(l); }
    } else {
      var x := 1024 * (q - 1);
      assert x in l;
      RemoveProperties(l, x);
      RemoveLength(l, x);
      forall y: nat ensures y in Remove(l, x) <==> y < 1024 * (q - 1) && y % 1024 == 0 {
      }
      CountMultiples(Remove(l, x), q - 1);
    }
  }

  lemma {:induction false} RemoveLength(l: seq<nat>, x: nat)
    requires x in l
    ensures |Remove(l, x)| == |l| - 1
  {
    if l[0] != x { RemoveLength(l[1..], x); }
  }

  /** With nothing allocated, the free lists are as coarse as they can be. */
  lemma FullyCoalesced(z: Zone)
    requires Invariant(z) && Coalesced(z) && HeadsAligned(z) && z.n % 1024 == 0 && NothingLive(z)
    ensures forall k: nat :: k < MAX_ORDER ==> z.lists[k] == []
    ensures forall x: nat :: x in z.lists[MAX_ORDER] <==> x < z.n && x % 1024 == 0
    ensures |z.lists[MAX_ORDER]| == z.n / 1024
  {
    assert Pow2(10) == 1024;
    AlignedIsMultiple(z.n, MAX_ORDER);
    NoBlockBelow(z, MAX_ORDER);
    forall k: nat | k < MAX_ORDER ensures z.lists[k] == [] {
      if z.lists[k] != [] { NonEmptyHasMember(z.lists[k]); }
    }
    forall x: nat ensures x in z.lists[MAX_ORDER] <==> x < z.n && x % 1024 == 0 {
      CoarseHead(z, x);
    }
    CountMultiples(z.lists[MAX_ORDER], z.n / 1024);
  }

  lemma CoarseHead(z: Zone, x: nat)
    requires Invariant(z) && HeadsAligned(z) && NothingLive(z)
    requires forall h :: h in z.blocks ==> MAX_ORDER <= z.blocks[h]
    ensures x in z.lists[MAX_ORDER] <==> x < z.n && x % 1024 == 0
  {
    assert Pow2(10) == 1024;
    AlignedIsMultiple(x, MAX_ORDER);
    assert x in z.lists[MAX_ORDER] <==> FreeHead(z, z.n, MAX_ORDER, x);
    if x < z.n && x % 1024 == 0 {
      assert Covered(z.blocks, x);
      var g: nat :| Covers(z.blocks, g, x);
      AlignedCoverIsHead(g, x, MAX_ORDER);
      assert !Live(z, x, MAX_ORDER);
    }
  }

  /**
    Freeing everything: after any permitted run that ends with an empty ledger
    the zone is back to exactly num_pages / 1024 free blocks of order 10.
   */
  lemma EverythingFreed(c: Client, ops: seq<Op>)
    requires Good(c) && PermittedRun(c, ops) && c.zone.n % 1024 == 0 && HeadsAligned(c.zone)
    ensures Run(c, ops).Finished?
    ensures Run(c, ops).client.ledger == map[] ==>
              var z := Run(c, ops).client.zone;
              && (forall k: nat :: k < MAX_ORDER ==> z.lists[k] == [])
              && (forall x: nat :: x in z.lists[MAX_ORDER] <==> x < z.n && x % 1024 == 0)
              && |z.lists[MAX_ORDER]| == z.n / 1024
  {
    RunKeeps(c, ops);
    RunNeverHalts(c, ops);
    var c' := Run(c, ops).client;
    if c'.ledger == map[] {
      forall g: nat, j: nat ensures !Live(c'.zone, g, j) {
        assert g !in c'.ledger;
      }
      FullyCoalesced(c'.zone);
    }
  }
}
