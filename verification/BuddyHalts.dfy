/**
  When free_pages can halt the machine. free_pages looks up the exclusive-or
  buddy of the block before it knows that buddy exists, and the look-up halts on
  an index out of range (kernel/mm/mem.c:232-233, 18-24). No permitted run from
  boot meets this if num_pages is a multiple of 1024; otherwise some run does.
 */
module BuddyHalts {
  import opened Basics
  import opened Bits
  import opened BuddyModel
  import opened BuddyInvariant
  import opened BuddyCalls
  import opened BuddyRuns
  import opened BuddyInit

  // ----- joining runs

  lemma {:induction false} RunJoin(c: Client, xs: seq<Op>, ys: seq<Op>)
    requires WellFormed(c.zone) && PermittedRun(c, xs) && Run(c, xs).Finished?
    requires PermittedRun(Run(c, xs).client, ys)
    ensures PermittedRun(c, xs + ys) && Run(c, xs + ys) == Run(Run(c, xs).client, ys)
    decreases xs
  {
    if xs == [] {
      assert xs + ys == ys;
    } else {
      assert (xs + ys)[0] == xs[0] && (xs + ys)[1..] == xs[1..] + ys;
      RunJoin(Perform(c, xs[0]).client, xs[1..], ys);
    }
  }

  lemma RunCons(c: Client, op: Op, ops: seq<Op>)
    requires WellFormed(c.zone) && Permitted(c, op)
    ensures Perform(c, op).Halted? ==> PermittedRun(c, [op] + ops) && Run(c, [op] + ops).Halted?
    ensures Perform(c, op).Finished? ==>
              var c' := Perform(c, op).client;
              (PermittedRun(c, [op] + ops) <==> PermittedRun(c', ops)) && Run(c, [op] + ops) == Run(c', ops)
  {
    assert ([op] + ops)[0] == op && ([op] + ops)[1..] == ops;
  }

  lemma LedgerIsLive(c: Client, g: nat)
    requires Good(c) && g in c.ledger
    ensures Live(c.zone, g, c.ledger[g])
  {
  }

  // ----- taking every page

  ghost predicate AllZero(ledger: map<nat, nat>) {
    forall g :: g in ledger ==> ledger[g] == 0
  }

  function Pages(n: nat): (s: set<nat>)
    ensures |s| == n && forall i: nat :: i in s <==> i < n
  {
    if n == 0 then {} else Pages(n - 1) + {n - 1}
  }

  function Allocs(m: nat): seq<Op> {
    if m == 0 then [] else [AllocOp(0)] + Allocs(m - 1)
  }

  lemma SubsetSize(a: set<nat>, b: set<nat>)
    requires a <= b
    ensures |a| <= |b| && (|a| == |b| ==> a == b)
    decreases b
  {
    if a != b {
      var x :| x in b && x !in a;
      SubsetSize(a, b - {x});
    }
  }

  lemma NoMemoryMeansAllTaken(c: Client)
    requires Good(c) && AllZero(c.ledger) && Alloc(c.zone, 0).NoMemory?
    ensures |c.ledger| >= c.zone.n
  {
    var z := c.zone;
    AllocKeeps(z, 0);
    forall i: nat | i < z.n ensures i in c.ledger {
      assert Covered(z.blocks, i);
      var g: nat :| Covers(z.blocks, g, i);
      assert !FreeHead(z, z.n, z.blocks[g], g);
      assert Live(z, g, z.blocks[g]);
    }
    SubsetSize(Pages(z.n), c.ledger.Keys);
  }

  lemma TakeOne(c: Client)
    requires Good(c) && AllZero(c.ledger) && |c.ledger| < c.zone.n
    ensures Perform(c, AllocOp(0)).Finished?
    ensures var c' := Perform(c, AllocOp(0)).client;
            Good(c') && AllZero(c'.ledger) && |c'.ledger| == |c.ledger| + 1
  {
    PerformKeeps(c, AllocOp(0));
    if Alloc(c.zone, 0).NoMemory? { NoMemoryMeansAllTaken(c); }
    AllocKeeps(c.zone, 0);
    var h := Alloc(c.zone, 0).page;
    if h in c.ledger { LedgerIsLive(c, h); }
  }

  lemma {:induction false} TakeAll(c: Client, m: nat)
    requires Good(c) && AllZero(c.ledger) && |c.ledger| + m == c.zone.n
    ensures PermittedRun(c, Allocs(m)) && Run(c, Allocs(m)).Finished?
    ensures var c' := Run(c, Allocs(m)).client;
            Good(c') && AllZero(c'.ledger) && |c'.ledger| == c.zone.n
    decreases m
  {
    if m > 0 {
      TakeOne(c);
      RunCons(c, AllocOp(0), Allocs(m - 1));
      TakeAll(Perform(c, AllocOp(0)).client, m - 1);
    }
  }

  // ----- giving back the pages from lo to n - 1

  ghost predicate TwinsInRange(z: Zone, c: nat)
    requires WellFormed(z)
  {
    forall k: nat, x: nat :: k < MAX_ORDER && FreeHead(z, c, k, x) ==> BuddyOf(x, k) < z.n
  }

  /** free_pages leaves a block on a list only after it found the block's buddy in range. */
  lemma {:induction false} MergeTwins(z: Zone, a: nat, k: nat)
    requires WellFormed(z) && a < z.n && k <= MAX_ORDER && a in z.blocks && z.blocks[a] == k
    requires TwinsInRange(z, a) && Merge(z, a, k).Freed?
    ensures TwinsInRange(Merge(z, a, k).zone, z.n)
    decreases MAX_ORDER - k
  {
    hide BuddyOf;
    var b := BuddyOf(a, k);
    if k == MAX_ORDER || !z.free[b] || z.order[b] != k {
      var z' := Push(z, a, k);
      forall j: nat, x: nat | j < MAX_ORDER && FreeHead(z', z.n, j, x) ensures BuddyOf(x, j) < z.n {
        if x != a { assert FreeHead(z, a, j, x); }
      }
    } else {
      var z', lo := MergeStep(z, a, b, k), if a > b then b else a;
      forall j: nat, x: nat | j < MAX_ORDER && FreeHead(z', lo, j, x) ensures BuddyOf(x, j) < z.n {
        assert FreeHead(z, a, j, x);
      }
      MergeTwins(z', lo, k + 1);
    }
  }

  /** Pages below lo and from t up are held one by one; those between have been given back. */
  ghost predicate Swept(c: Client, lo: nat, t: nat) {
    match c
    case Client(zone, ledger) =>
      && Good(c) && AllZero(ledger) && lo <= t <= zone.n
      && HeadsAligned(zone) && TwinsInRange(zone, zone.n)
      && (forall g: nat :: g in ledger <==> g < zone.n && !(lo <= g < t))
  }

  lemma SweepOne(c: Client, lo: nat, t: nat)
    requires Swept(c, lo, t) && t < c.zone.n
    ensures Permitted(c, FreeOp(t))
    ensures Perform(c, FreeOp(t)).Finished? ==> Swept(Perform(c, FreeOp(t)).client, lo, t + 1)
  {
    LedgerIsLive(c, t);
    assert Permitted(c, FreeOp(t)) && Live(c.zone, t, 0);
    SweepFree(c.zone, t);
    hide InvariantExcept, CoalescedExcept, HeadsAligned, TwinsInRange, LedgerExact, Free, LiveExcept;
    PerformKeeps(c, FreeOp(t));
  }

  lemma SweepFree(z: Zone, t: nat)
    requires Invariant(z) && WellFormed(z) && Live(z, t, 0) && HeadsAligned(z) && TwinsInRange(z, z.n)
    ensures Free(z, t).Freed? ==> HeadsAligned(Free(z, t).zone) && TwinsInRange(Free(z, t).zone, z.n)
  {
    TruthfulOrder(z, t, 0);
    LiveBlock(z, t);
    MarkSwept(z, t);
    hide InvariantExcept, HeadsAligned, TwinsInRange, Merge;
    if Free(z, t).Freed? {
      MergeTwins(z.(free := z.free[t := true]), t, 0);
      MergeAligned(z.(free := z.free[t := true]), t, 0);
    }
  }

  lemma LiveBlock(z: Zone, t: nat)
    requires WellFormed(z) && Live(z, t, 0)
    ensures t < z.n && t in z.blocks && z.blocks[t] == 0
  {
  }

  lemma TruthfulOrder(z: Zone, t: nat, k: nat)
    requires Invariant(z) && Live(z, t, k)
    ensures z.order[t] == k && !z.free[t]
  {
  }

  /** Marking a live page free, with it in hand. */
  lemma MarkSwept(z: Zone, t: nat)
    requires WellFormed(z) && Live(z, t, 0) && TwinsInRange(z, z.n) && HeadsAligned(z)
    ensures var z1 := z.(free := z.free[t := true]);
            WellFormed(z1) && TwinsInRange(z1, t) && HeadsAligned(z1) && Aligned(t, 0)
  {
    hide BuddyOf;
    var z1 := z.(free := z.free[t := true]);
    forall k: nat, x: nat | k < MAX_ORDER && FreeHead(z1, t, k, x) ensures BuddyOf(x, k) < z.n {
      assert FreeHead(z, z.n, k, x);
    }
  }

  function Frees(t: nat, n: nat): seq<Op>
    decreases n - t
  {
    if t >= n then [] else [FreeOp(t)] + Frees(t + 1, n)
  }

  lemma SweptShape(c: Client, lo: nat, t: nat)
    requires Swept(c, lo, t)
    ensures WellFormed(c.zone) && lo <= t <= c.zone.n
  {
  }

  lemma {:induction false} Sweep(c: Client, lo: nat, t: nat)
    requires Swept(c, lo, t)
    ensures PermittedRun(c, Frees(t, c.zone.n))
    ensures Run(c, Frees(t, c.zone.n)).Finished? ==>
              && Run(c, Frees(t, c.zone.n)).client.zone.n == c.zone.n
              && Swept(Run(c, Frees(t, c.zone.n)).client, lo, c.zone.n)
    decreases c.zone.n - t
  {
    hide Swept, Perform, WellFormed, PermittedRun, Run;
    SweptShape(c, lo, t);
    if t == c.zone.n {
      RunNothing(c);
    } else {
      SweepOne(c, lo, t);
      RunCons(c, FreeOp(t), Frees(t + 1, c.zone.n));
      if Perform(c, FreeOp(t)).Finished? { Sweep(Perform(c, FreeOp(t)).client, lo, t + 1); }
    }
  }

  lemma RunNothing(c: Client)
    requires WellFormed(c.zone)
    ensures PermittedRun(c, []) && Run(c, []) == Finished(c)
  {
  }

  // ----- the sweep cannot finish

  lemma CoverAbove(c: Client, lo: nat, i: nat) returns (g: nat)
    requires Swept(c, lo, c.zone.n) && lo <= i < c.zone.n
    ensures Covers(c.zone.blocks, g, i) && lo <= g && FreeHead(c.zone, c.zone.n, c.zone.blocks[g], g)
  {
    assert Covered(c.zone.blocks, i);
    g :| Covers(c.zone.blocks, g, i);
    if g < lo { LedgerIsLive(c, g); }
    assert !Live(c.zone, g, c.zone.blocks[g]);
  }

  /** In the swept region the smallest free block has a free twin, so no block is smaller than 2^j. */
  lemma {:induction false} NoneBelow(c: Client, lo: nat, j: nat, k: nat)
    requires Swept(c, lo, c.zone.n) && c.zone.n == lo + Pow2(j) && Aligned(lo, j) && k <= j < MAX_ORDER
    ensures forall h :: h in c.zone.blocks && lo <= h ==> k <= c.zone.blocks[h]
    decreases k
  {
    if k > 0 {
      NoneBelow(c, lo, j, k - 1);
      forall h | h in c.zone.blocks && lo <= h ensures k <= c.zone.blocks[h] {
        SmallTwin(c, lo, j, k - 1, h);
      }
    }
  }

  lemma SmallTwin(c: Client, lo: nat, j: nat, k: nat, h: nat)
    requires Swept(c, lo, c.zone.n) && c.zone.n == lo + Pow2(j) && Aligned(lo, j) && k < j < MAX_ORDER
    requires forall x :: x in c.zone.blocks && lo <= x ==> k <= c.zone.blocks[x]
    requires h in c.zone.blocks && lo <= h
    ensures c.zone.blocks[h] != k
  {
    var z, b := c.zone, BuddyOf(h, k);
    if z.blocks[h] == k {
      AlignedDown(lo, k, j);
      TwinInside(lo, h, k, j);
      var g' := CoverAbove(c, lo, h);
      CoverUnique(z.blocks, z.n, g', h, h);
      var g := CoverAbove(c, lo, b);
      CoverOfTwin(z.blocks, z.n, h, k, g);
    }
  }

  lemma SweepMustHalt(c: Client, lo: nat, j: nat)
    requires c.zone.n == lo + Pow2(j) && Aligned(lo, j) && Bit(lo, j) == 0 && j < MAX_ORDER
    ensures !Swept(c, lo, c.zone.n)
  {
    if Swept(c, lo, c.zone.n) {
      NoneBelow(c, lo, j, j);
      var g := CoverAbove(c, lo, c.zone.n - 1);
      var k := c.zone.blocks[g];
      if k > j { Pow2Monotonic(j, k); }
    }
  }

  // ----- the exact condition

  lemma {:induction false} LowestBit(n: nat, m: nat) returns (j: nat)
    requires !Aligned(n, m)
    ensures j < m && Aligned(n, j) && Bit(n, j) == 1
  {
    if Aligned(n, m - 1) {
      AlignedSucc(n, m - 1);
      j := m - 1;
    } else {
      j := LowestBit(n, m - 1);
    }
  }

  function Boot(base: nat, n: nat): Client {
    Client(Init(base, n), map[])
  }

  lemma BootIsGood(base: nat, n: nat)
    requires Aligned(base + n, MAX_ORDER)
    ensures Good(Boot(base, n)) && Boot(base, n).zone.n == n
  {
    InitPopulated(base, n);
    PopulatedIsGood(Init(base, n), base);
  }

  lemma AllTaken(c: Client)
    requires Good(c) && |c.ledger| == c.zone.n
    ensures forall g: nat :: g in c.ledger <==> g < c.zone.n
  {
    forall g | g in c.ledger ensures g < c.zone.n { LedgerIsLive(c, g); }
    SubsetSize(c.ledger.Keys, Pages(c.zone.n));
  }

  lemma AllTakenIsSwept(c: Client, lo: nat)
    requires Good(c) && AllZero(c.ledger) && |c.ledger| == c.zone.n && lo <= c.zone.n
    ensures Swept(c, lo, lo)
  {
    AllTaken(c);
    var z := c.zone;
    forall h | h in z.blocks ensures z.blocks[h] == 0 && !z.free[h] {
      LedgerIsLive(c, h);
    }
  }

  lemma BootIsEmpty(base: nat, n: nat)
    requires Aligned(base + n, MAX_ORDER)
    ensures Boot(base, n).ledger == map[] && WellFormed(Boot(base, n).zone)
  {
    BootIsGood(base, n);
    hide Init;
  }

  /** The end of the range is an order-j block whose buddy lies beyond it. */
  lemma LastHole(n: nat) returns (j: nat, lo: nat)
    requires n % 1024 != 0
    ensures j < MAX_ORDER && n == lo + Pow2(j) && Aligned(lo, j) && Bit(lo, j) == 0
  {
    AlignedIsMultiple(n, MAX_ORDER);
    assert Pow2(10) == 1024;
    j := LowestBit(n, MAX_ORDER);
    AlignedAtLeast(n, j);
    lo := n - Pow2(j);
    AddPow2Low(lo, j, j);
    AddPow2(lo, j);
  }

  lemma SomeRunHalts(base: nat, n: nat) returns (ops: seq<Op>)
    requires Aligned(base + n, MAX_ORDER) && n % 1024 != 0
    ensures WellFormed(Boot(base, n).zone) && PermittedRun(Boot(base, n), ops) && Run(Boot(base, n), ops).Halted?
  {
    hide Good, PermittedRun, Run, Swept, Allocs, Frees, Pow2, Aligned, Bit, Boot;
    var c := Boot(base, n);
    BootIsGood(base, n);
    BootIsEmpty(base, n);
    TakeAll(c, n);
    var c1 := Run(c, Allocs(n)).client;
    var j, lo := LastHole(n);
    AllTakenIsSwept(c1, lo);
    Sweep(c1, lo, lo);
    ops := Allocs(n) + Frees(lo, n);
    RunJoin(c, Allocs(n), Frees(lo, n));
    if Run(c1, Frees(lo, n)).Finished? { SweepMustHalt(Run(c1, Frees(lo, n)).client, lo, j); }
  }

  /** No permitted run from boot halts if and only if num_pages is a multiple of 1024. */
  lemma NeverHaltsExactly(base: nat, n: nat)
    requires Aligned(base + n, MAX_ORDER)
    ensures WellFormed(Boot(base, n).zone)
    ensures (forall ops: seq<Op> :: PermittedRun(Boot(base, n), ops) ==> Run(Boot(base, n), ops).Finished?)
            <==> n % 1024 == 0
  {
    BootIsGood(base, n);
    if n % 1024 == 0 {
      forall ops: seq<Op> | PermittedRun(Boot(base, n), ops) ensures Run(Boot(base, n), ops).Finished? {
        RunNeverHalts(Boot(base, n), ops);
      }
    } else {
      var ops := SomeRunHalts(base, n);
    }
  }

  /** From a boot with num_pages a multiple of 1024, freeing everything restores the boot partition. */
  lemma BootFreedAgain(base: nat, n: nat, ops: seq<Op>)
    requires Aligned(base + n, MAX_ORDER) && n % 1024 == 0
    requires WellFormed(Boot(base, n).zone) && PermittedRun(Boot(base, n), ops)
    ensures var r := Run(Boot(base, n), ops);
            && r.Finished?
            && (r.client.ledger == map[] ==>
                  var z := r.client.zone;
                  && (forall k: nat :: k < MAX_ORDER ==> z.lists[k] == [])
                  && (forall x: nat :: x in z.lists[MAX_ORDER] <==> x < n && x % 1024 == 0)
                  && |z.lists[MAX_ORDER]| == n / 1024)
  {
    BootIsGood(base, n);
    InitAligned(base, n);
    EverythingFreed(Boot(base, n), ops);
  }
}
