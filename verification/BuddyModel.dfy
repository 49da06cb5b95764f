/**
  The buddy page allocator of kernel/mm/mem.c as functions on a value.

  A page is named by its index in page_array. The lists are the contents of
  free_lists[0..MAX_ORDER], head first; BuddyAllocator.dfy threads them through
  the `next` fields in place and is proved to compute these functions.

  `blocks` is specification-only: it records which blocks (head page, order)
  the operations have made so far. No branch reads it.
 */
module BuddyModel {
  import opened Basics
  import opened Bits

  const MAX_ORDER: nat := 10

  datatype Zone = Zone(
    n: nat,                  // num_pages
    order: seq<nat>,         // page_array[i].order
    free: seq<bool>,         // page_array[i].is_free
    lists: seq<seq<nat>>,    // free_lists[k], head first
    blocks: map<nat, nat>    // specification only: head page -> order
  )

  datatype AllocOutcome = AllocHalt | NoMemory | Allocated(zone: Zone, page: nat)
  datatype FreeOutcome = FreeHalt | Freed(zone: Zone)

  predicate WellFormed(z: Zone) {
    && |z.order| == z.n
    && |z.free| == z.n
    && |z.lists| == MAX_ORDER + 1
    && forall i :: 0 <= i < z.n ==> z.order[i] <= MAX_ORDER
  }

  /** Write page x's order, mark it free and push it on that order's list. */
  function Push(z: Zone, x: nat, k: nat): Zone
    requires WellFormed(z) && x < z.n && k <= MAX_ORDER
  {
    z.(order := z.order[x := k], free := z.free[x := true], lists := z.lists[k := [x] + z.lists[k]])
  }

  /** Remove the first occurrence of x, if there is one. */
  function Remove(l: seq<nat>, x: nat): seq<nat> {
    if l == [] then [] else if l[0] == x then l[1..] else [l[0]] + Remove(l[1..], x)
  }

  // ----- alloc_pages

  /** The lowest order from k up whose list is non-empty, or MAX_ORDER + 1. */
  function FirstNonEmpty(lists: seq<seq<nat>>, k: nat): (o: nat)
    requires |lists| == MAX_ORDER + 1 && k <= MAX_ORDER + 1
    ensures k <= o <= MAX_ORDER + 1
    ensures o <= MAX_ORDER ==> lists[o] != []
    ensures forall j :: k <= j < o ==> lists[j] == []
    decreases MAX_ORDER + 1 - k
  {
    if k > MAX_ORDER || lists[k] != [] then k else FirstNonEmpty(lists, k + 1)
  }

  /** Take the first block of list o, to be handed out at order k. */
  function Pop(z: Zone, o: nat, k: nat): Zone
    requires WellFormed(z) && o <= MAX_ORDER && k <= MAX_ORDER
    requires z.lists[o] != [] && z.lists[o][0] < z.n
  {
    var h := z.lists[o][0];
    z.(order := z.order[h := k], free := z.free[h := false], lists := z.lists[o := z.lists[o][1..]])
  }

  /** Halve the order-c block at h and put its upper half on the free list. */
  function SplitStep(z: Zone, h: nat, c: nat): Zone
    requires WellFormed(z) && 0 < c <= MAX_ORDER && h + Pow2(c - 1) < z.n
  {
    var b := h + Pow2(c - 1);
    Push(z, b, c - 1).(blocks := z.blocks[h := c - 1][b := c - 1])
  }

  /** Halve the block at h from order c down to order k. */
  function Split(z: Zone, h: nat, c: nat, k: nat): (r: FreeOutcome)
    requires WellFormed(z) && c <= MAX_ORDER
    ensures r.Freed? ==> WellFormed(r.zone) && r.zone.n == z.n
    decreases c
  {
    if c <= k then Freed(z)
    else if h + Pow2(c - 1) >= z.n then FreeHalt
    else Split(SplitStep(z, h, c), h, c - 1, k)
  }

  /** alloc_pages(k); an index out of range halts (the checks at lines 165 and 179). */
  function Alloc(z: Zone, k: nat): (r: AllocOutcome)
    requires WellFormed(z)
    ensures r.Allocated? ==> WellFormed(r.zone) && r.zone.n == z.n
  {
    if k > MAX_ORDER then NoMemory
    else
      var o := FirstNonEmpty(z.lists, k);
      if o > MAX_ORDER then NoMemory
      else
        var h := z.lists[o][0];
        if h >= z.n then AllocHalt
        else
          match Split(Pop(z, o, k), h, o, k)
          case FreeHalt => AllocHalt
          case Freed(z') => Allocated(z', h)
  }

  // ----- free_pages

  /** Join the order-k block at a with its buddy b: b leaves its list unmarked. */
  function MergeStep(z: Zone, a: nat, b: nat, k: nat): Zone
    requires WellFormed(z) && b < z.n && k < MAX_ORDER
  {
    var (lo, hi) := if a > b then (b, a) else (a, b);
    z.(lists := z.lists[k := Remove(z.lists[k], b)],
       free := z.free[b := false],
       blocks := (z.blocks - {hi})[lo := k + 1])
  }

  /** Climb: merge with the buddy while it is flagged free at the same order. */
  function Merge(z: Zone, a: nat, k: nat): (r: FreeOutcome)
    requires WellFormed(z) && a < z.n && k <= MAX_ORDER
    ensures r.Freed? ==> WellFormed(r.zone) && r.zone.n == z.n
    decreases MAX_ORDER - k
  {
    if k == MAX_ORDER then Freed(Push(z, a, k))
    else
      var b := BuddyOf(a, k);
      if b >= z.n then FreeHalt
      else if !z.free[b] || z.order[b] != k then Freed(Push(z, a, k))
      else Merge(MergeStep(z, a, b, k), if a > b then b else a, k + 1)
  }

  /** free_pages on the page with index a; an index out of range halts. */
  function Free(z: Zone, a: nat): (r: FreeOutcome)
    requires WellFormed(z)
    ensures r.Freed? ==> WellFormed(r.zone) && r.zone.n == z.n
  {
    if a >= z.n then FreeHalt
    else if z.free[a] then Freed(z)
    else Merge(z.(free := z.free[a := true]), a, z.order[a])
  }
}
