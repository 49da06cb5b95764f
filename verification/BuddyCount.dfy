/**
  How many pages are free: each allocation of order k takes exactly 2^k of them,
  each free of an order-k block gives exactly 2^k back, and at boot all are free.
 */
module BuddyCount {
  import opened Basics
  import opened Bits
  import opened BuddyModel
  import opened BuddyInvariant
  import opened BuddyCalls
  import opened BuddyInit
  import BuddyRuns

  /** The pages of the free blocks on the lists from k up. */
  function CountFrom(lists: seq<seq<nat>>, k: nat): nat
    requires |lists| == MAX_ORDER + 1
    decreases MAX_ORDER + 1 - k
  {
    if k > MAX_ORDER then 0 else |lists[k]| * Pow2(k) + CountFrom(lists, k + 1)
  }

  function FreeCount(z: Zone): nat
    requires WellFormed(z)
  {
    CountFrom(z.lists, 0)
  }

  lemma TimesSucc(m: nat, p: nat)
    ensures (m + 1) * p == m * p + p
  {
  }

  /** One element more on list j. */
  lemma {:induction false} CountGrows(lists: seq<seq<nat>>, k: nat, j: nat, l: seq<nat>)
    requires |lists| == MAX_ORDER + 1 && j <= MAX_ORDER && |l| == |lists[j]| + 1
    ensures CountFrom(lists[j := l], k) == CountFrom(lists, k) + if k <= j then Pow2(j) else 0
    decreases MAX_ORDER + 1 - k
  {
    hide Pow2;
    if k <= MAX_ORDER {
      CountGrows(lists, k + 1, j, l);
      TimesSucc(|lists[j]|, Pow2(j));
    }
  }

  lemma CountShrinks(lists: seq<seq<nat>>, j: nat, l: seq<nat>)
    requires |lists| == MAX_ORDER + 1 && j <= MAX_ORDER && |l| + 1 == |lists[j]|
    ensures CountFrom(lists, 0) == CountFrom(lists[j := l], 0) + Pow2(j)
  {
    hide CountFrom, Pow2;
    assert lists[j := l][j := lists[j]] == lists;
    CountGrows(lists[j := l], 0, j, lists[j]);
  }

  /** No page is free exactly if every list is empty. */
  lemma {:induction false} CountZero(lists: seq<seq<nat>>, k: nat)
    requires |lists| == MAX_ORDER + 1 && k <= MAX_ORDER + 1
    ensures CountFrom(lists, k) == 0 <==> FirstNonEmpty(lists, k) > MAX_ORDER
    decreases MAX_ORDER + 1 - k
  {
    if k <= MAX_ORDER {
      CountZero(lists, k + 1);
      assert Pow2(k) > 0;
      hide Pow2;
      Positive(|lists[k]|, Pow2(k));
    }
  }

  lemma Positive(m: nat, p: nat)
    requires p > 0
    ensures m * p == 0 <==> m == 0
    ensures m * p >= 0
  {
  }

  // ----- alloc_pages

  lemma {:induction false} SplitCount(z: Zone, h: nat, c: nat, k: nat)
    requires WellFormed(z) && c <= MAX_ORDER && k <= c && Split(z, h, c, k).Freed?
    ensures FreeCount(Split(z, h, c, k).zone) + Pow2(k) == FreeCount(z) + Pow2(c)
    decreases c
  {
    if c > k {
      assert Pow2(c) == 2 * Pow2(c - 1);
      hide Pow2, CountFrom;
      var z' := SplitStep(z, h, c);
      CountGrows(z.lists, 0, c - 1, [h + Pow2(c - 1)] + z.lists[c - 1]);
      SplitCount(z', h, c - 1, k);
    }
  }

  /** alloc_pages(k) takes 2^k pages. */
  lemma AllocCount(z: Zone, k: nat)
    requires WellFormed(z) && Alloc(z, k).Allocated?
    ensures FreeCount(Alloc(z, k).zone) + Pow2(k) == FreeCount(z)
  {
    hide CountFrom, Pow2, Split;
    var o := FirstNonEmpty(z.lists, k);
    CountShrinks(z.lists, o, z.lists[o][1..]);
    SplitCount(Pop(z, o, k), z.lists[o][0], o, k);
  }

  /** alloc_page() is refused exactly if no page is free. */
  lemma AllocNone(z: Zone)
    requires Invariant(z) && WellFormed(z)
    ensures Alloc(z, 0).NoMemory? <==> FreeCount(z) == 0
  {
    AllocKeeps(z, 0);
    hide InvariantExcept, Split, LiveExcept, FreeHead;
    CountZero(z.lists, 0);
  }

  // ----- free_pages

  lemma {:induction false} MergeCount(z: Zone, a: nat, k: nat)
    requires Merging(z, a, k) && WellFormed(z) && a < z.n && k <= MAX_ORDER && Merge(z, a, k).Freed?
    ensures FreeCount(Merge(z, a, k).zone) == FreeCount(z) + Pow2(k)
    decreases MAX_ORDER - k
  {
    var b := BuddyOf(a, k);
    hide BuddyOf, Merging, CountFrom, Pow2, MergeStep, WellFormed;
    MergeTurn(z, a, k);
    hide Merge;
    if k < MAX_ORDER && z.free[b] && z.order[b] == k {
      MergingStep(z, a, k);
      StepCount(z, a, k);
      MergeCount(MergeStep(z, a, b, k), if a > b then b else a, k + 1);
    } else {
      CountGrows(z.lists, 0, k, [a] + z.lists[k]);
    }
  }

  /** One turn of the merge loop. */
  lemma MergeTurn(z: Zone, a: nat, k: nat)
    requires WellFormed(z) && a < z.n && k <= MAX_ORDER && Merge(z, a, k).Freed?
    ensures k == MAX_ORDER || BuddyOf(a, k) < z.n
    ensures var b := BuddyOf(a, k);
            && |z.free| == |z.order| == z.n && |z.lists| == MAX_ORDER + 1
            && Merge(z, a, k) ==
                 if k < MAX_ORDER && z.free[b] && z.order[b] == k then
                   Merge(MergeStep(z, a, b, k), if a > b then b else a, k + 1)
                 else Freed(Push(z, a, k))
  {
    hide BuddyOf, MergeStep;
  }

  /** A merge takes the buddy, which is on its list, off it. */
  lemma StepCount(z: Zone, a: nat, k: nat)
    requires Merging(z, a, k) && WellFormed(z) && k < MAX_ORDER && BuddyOf(a, k) < z.n
    requires z.free[BuddyOf(a, k)] && z.order[BuddyOf(a, k)] == k
    ensures var b := BuddyOf(a, k); var z' := MergeStep(z, a, b, k);
            && WellFormed(z') && z'.n == z.n && (if a > b then b else a) < z.n
            && FreeCount(z') + Pow2(k) == FreeCount(z) && Pow2(k + 1) == 2 * Pow2(k)
  {
    var b := BuddyOf(a, k);
    BuddyIsAHead(z, a, k);
    BuddyListed(z, a, k, b);
    BuddyRuns.RemoveLength(z.lists[k], b);
    assert Pow2(k + 1) == 2 * Pow2(k);
    MergingPage(z, a, k);
    hide CountFrom, Pow2, Remove, Merging, BuddyOf;
    CountShrinks(z.lists, k, Remove(z.lists[k], b));
  }

  lemma MergingPage(z: Zone, a: nat, k: nat)
    requires Merging(z, a, k)
    ensures a < z.n
  {
  }

  lemma BuddyListed(z: Zone, a: nat, k: nat, b: nat)
    requires InvariantExcept(z, a) && k <= MAX_ORDER && FreeHead(z, a, k, b)
    ensures b in z.lists[k]
  {
    hide Tiles, InteriorsHarmless, HeadsTruthful;
  }

  /** free_pages() of a live order-m block gives 2^m pages back. */
  lemma FreeGives(z: Zone, a: nat, m: nat)
    requires Invariant(z) && Coalesced(z) && Live(z, a, m) && Free(z, a).Freed?
    ensures FreeCount(Free(z, a).zone) == FreeCount(z) + Pow2(m)
  {
    MarkIsMerging(z, a, m);
    LiveOrder(z, a, m);
    hide InvariantExcept, CoalescedExcept, CountFrom, Pow2, Merge, Merging;
    MergeCount(z.(free := z.free[a := true]), a, m);
  }

  lemma LiveOrder(z: Zone, a: nat, m: nat)
    requires Invariant(z) && Live(z, a, m)
    ensures a < z.n && !z.free[a] && z.order[a] == m <= MAX_ORDER
  {
  }

  // ----- boot

  lemma {:induction false} PopulateCount(z: Zone, base: nat, i: nat)
    requires WellFormed(z) && i <= z.n && Aligned(base + z.n, MAX_ORDER)
    ensures WellFormed(Populate(z, base, i)) && FreeCount(Populate(z, base, i)) == FreeCount(z) + (z.n - i)
    decreases z.n - i
  {
    hide CountFrom, Pow2, GreedyOrder, Aligned, Populate, PopulateOne, Fits;
    PopulateUnroll(z, base, i);
    if i < z.n {
      var o := PopulateOrder(base, i, z.n);
      PopulateOneCount(z, i, o);
      PopulateCount(PopulateOne(z, i, o), base, i + Pow2(o));
    }
  }

  lemma PopulateOneCount(z: Zone, i: nat, o: nat)
    requires WellFormed(z) && i < z.n && o <= MAX_ORDER
    ensures var z' := PopulateOne(z, i, o); WellFormed(z') && z'.n == z.n && FreeCount(z') == FreeCount(z) + Pow2(o)
    ensures Pow2(o) > 0
  {
    assert Pow2(o) > 0;
    PopulateOneShape(z, i, o);
    hide CountFrom, Pow2, WellFormed;
    CountGrows(z.lists, 0, o, [i] + z.lists[o]);
  }

  lemma PopulateOneShape(z: Zone, i: nat, o: nat)
    requires WellFormed(z) && i < z.n && o <= MAX_ORDER
    ensures |z.lists| == MAX_ORDER + 1
    ensures var z' := PopulateOne(z, i, o); WellFormed(z') && z'.n == z.n && z'.lists == z.lists[o := [i] + z.lists[o]]
  {
  }

  lemma {:induction false} CountEmpty(lists: seq<seq<nat>>, k: nat)
    requires |lists| == MAX_ORDER + 1 && forall j: nat :: j <= MAX_ORDER ==> lists[j] == []
    ensures CountFrom(lists, k) == 0
    decreases MAX_ORDER + 1 - k
  {
    if k <= MAX_ORDER { CountEmpty(lists, k + 1); }
  }

  /** At boot every page is free. */
  lemma BootCount(base: nat, n: nat)
    requires Aligned(base + n, MAX_ORDER)
    ensures WellFormed(Init(base, n)) && FreeCount(Init(base, n)) == n
  {
    PopulateCount(Blank(n), base, 0);
    CountEmpty(Blank(n).lists, 0);
  }

  // ----- runs

  /** The pages of the blocks a client holds. */
  ghost function HeldPages(ledger: map<nat, nat>): nat
    decreases |ledger|
  {
    if ledger == map[] then 0
    else
      var g :| g in ledger;
      Pow2(ledger[g]) + HeldPages(ledger - {g})
  }

  lemma {:induction false} HeldWithout(ledger: map<nat, nat>, g: nat)
    requires g in ledger
    ensures HeldPages(ledger) == Pow2(ledger[g]) + HeldPages(ledger - {g})
    decreases |ledger|
  {
    hide Pow2;
    var c :| c in ledger && HeldPages(ledger) == Pow2(ledger[c]) + HeldPages(ledger - {c});
    if c != g {
      HeldWithout(ledger - {c}, g);
      assert ledger - {c} - {g} == ledger - {g} - {c};
      HeldWithout(ledger - {g}, c);
    }
  }

  lemma HeldWith(ledger: map<nat, nat>, g: nat, k: nat)
    requires g !in ledger
    ensures HeldPages(ledger[g := k]) == Pow2(k) + HeldPages(ledger)
  {
    hide Pow2;
    HeldWithout(ledger[g := k], g);
    assert ledger[g := k] - {g} == ledger;
  }

  /** Free pages and held pages add up to n. */
  ghost predicate Conserved(c: BuddyRuns.Client) {
    WellFormed(c.zone) && FreeCount(c.zone) + HeldPages(c.ledger) == c.zone.n
  }

  lemma PerformConserves(c: BuddyRuns.Client, op: BuddyRuns.Op)
    requires BuddyRuns.Good(c) && Conserved(c) && BuddyRuns.Permitted(c, op) && BuddyRuns.Perform(c, op).Finished?
    ensures Conserved(BuddyRuns.Perform(c, op).client)
  {
    assert Invariant(c.zone) && Coalesced(c.zone);
    hide InvariantExcept, CoalescedExcept, Pow2, CountFrom, Alloc, Merge, HeldPages;
    match op
    case AllocOp(k) =>
      if Alloc(c.zone, k).Allocated? {
        AllocCount(c.zone, k);
        NewHead(c, k);
        HeldWith(c.ledger, Alloc(c.zone, k).page, k);
      }
    case FreeOp(p) =>
      if p in c.ledger {
        HeldIsLive(c, p);
        FreeGives(c.zone, p, c.ledger[p]);
        HeldWithout(c.ledger, p);
      } else {
        assert c.ledger - {p} == c.ledger;
      }
  }

  /** What is handed out was not held. */
  lemma NewHead(c: BuddyRuns.Client, k: nat)
    requires BuddyRuns.Good(c) && Alloc(c.zone, k).Allocated?
    ensures Alloc(c.zone, k).page !in c.ledger
  {
    AllocKeeps(c.zone, k);
    hide InvariantExcept, CoalescedExcept, Alloc;
    var h := Alloc(c.zone, k).page;
    var o: nat :| k <= o <= MAX_ORDER && FreeHead(c.zone, c.zone.n, o, h);
    if h in c.ledger { HeldIsLive(c, h); }
  }

  lemma HeldIsLive(c: BuddyRuns.Client, g: nat)
    requires BuddyRuns.Good(c) && g in c.ledger
    ensures WellFormed(c.zone) && Live(c.zone, g, c.ledger[g])
  {
    assert WellFormed(c.zone);
    hide InvariantExcept, CoalescedExcept;
  }

  /** Conservation over every permitted run that does not halt. */
  lemma {:induction false} RunConserves(c: BuddyRuns.Client, ops: seq<BuddyRuns.Op>)
    requires BuddyRuns.Good(c) && Conserved(c) && BuddyRuns.PermittedRun(c, ops) && BuddyRuns.Run(c, ops).Finished?
    ensures Conserved(BuddyRuns.Run(c, ops).client)
    decreases |ops|
  {
    hide BuddyRuns.Good, CountFrom, HeldPages, BuddyRuns.Perform, BuddyRuns.Permitted;
    if ops != [] {
      BuddyRuns.PerformKeeps(c, ops[0]);
      PerformConserves(c, ops[0]);
      RunConserves(BuddyRuns.Perform(c, ops[0]).client, ops[1..]);
    }
  }

  lemma BootConserved(base: nat, n: nat)
    requires Aligned(base + n, MAX_ORDER)
    ensures var c := BuddyRuns.Client(Init(base, n), map[]);
            BuddyRuns.Good(c) && c.zone.n == n && Conserved(c)
  {
    BootCount(base, n);
    InitPopulated(base, n);
    PopulatedIsGood(Init(base, n), base);
  }

  /** In every state reached from boot, free pages and held pages add up to num_pages. */
  lemma BootRunConserves(base: nat, n: nat, ops: seq<BuddyRuns.Op>)
    requires Aligned(base + n, MAX_ORDER)
    requires WellFormed(Init(base, n)) && BuddyRuns.PermittedRun(BuddyRuns.Client(Init(base, n), map[]), ops)
    ensures match BuddyRuns.Run(BuddyRuns.Client(Init(base, n), map[]), ops)
            case Halted => true
            case Finished(c) => WellFormed(c.zone) && FreeCount(c.zone) + HeldPages(c.ledger) == n
  {
    hide BuddyRuns.Good, BuddyRuns.Run, BuddyRuns.PermittedRun, Init, Aligned, CountFrom, HeldPages;
    BootConserved(base, n);
    var c := BuddyRuns.Client(Init(base, n), map[]);
    if BuddyRuns.Run(c, ops).Finished? { RunConserves(c, ops); }
  }
}
