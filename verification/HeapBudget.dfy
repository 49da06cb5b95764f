/**
  sys_sbrk(), exactly: when it succeeds, what it takes and gives back, and what a
  program finds on a new page of its heap.
 */
module HeapBudget {
  import opened Basics
  import opened Bits
  import opened Sv39
  import opened BuddyModel
  import opened BuddyInvariant
  import opened BuddyCalls
  import opened BuddyCount
  import opened PageTable
  import opened PageMap
  import opened PageBudget
  import opened UserMemory
  import opened Loader
  import opened KernelMappings
  import opened ProcessImage
  import opened SpawnBudget

  // ----- what growing takes

  lemma GrowOneCost(vm: Vm, root: nat, p: nat)
    requires VmOk(vm) && Invariant(vm.zone) && BuddyModel.WellFormed(vm.zone) && IsRoot(vm, root) && p < USER_PAGES
    ensures var r, h := GrowOne(vm, root, p), HaveOf(vm.tables, root);
            && BuddyModel.WellFormed(r.vm.zone)
            && (r.Grown? <==> Pool(vm) >= 1 + Miss(h, p))
            && (r.Grown? ==> Pool(r.vm) + 1 + Miss(h, p) == Pool(vm) && HaveOf(r.vm.tables, root) == Add(h, p))
            && (r.GrowFailed? ==> Pool(r.vm) == 0)
  {
    hide VmOk, Invariant, AllocPage, MapPage, HaveOf, Miss, Add, FreeCount, BuddyModel.WellFormed, Extends, LiveFrame;
    AllocPageCost(vm);
    if AllocPage(vm).GotPage? {
      AllocPageFresh(vm);
      RootStays(vm, AllocPage(vm).vm, root);
      TakeAndMap(vm, AllocPage(vm).vm, root, p, AllocPage(vm).frame, HEAP_PERM);
    }
  }

  /** The mapping loop: a frame per page, and the missing tables; when it fails it has taken every free page. */
  lemma {:induction false} GrowCost(vm: Vm, root: nat, p: nat, n: nat)
    requires VmOk(vm) && Invariant(vm.zone) && BuddyModel.WellFormed(vm.zone) && IsRoot(vm, root) && p + n <= USER_PAGES
    ensures var r, cost := Grow(vm, root, p, p + n), n + Need(HaveOf(vm.tables, root), Range(p, n));
            && BuddyModel.WellFormed(r.vm.zone)
            && (r.Grown? <==> Pool(vm) >= cost)
            && (r.Grown? ==> Pool(r.vm) + cost == Pool(vm))
            && (r.GrowFailed? ==> Pool(r.vm) == 0)
    decreases n
  {
    hide VmOk, Invariant, GrowOne, HaveOf, Miss, Add, Pool, BuddyModel.WellFormed, IsRoot, SameOutside, HeapPage;
    if n > 0 {
      GrowOneCost(vm, root, p);
      GrowOneRefines(vm, root, p);
      var r := GrowOne(vm, root, p);
      VmZone(r.vm);
      assert Range(p, n)[0] == p && Range(p, n)[1..] == Range(p + 1, n - 1);
      hide Range;
      if r.Grown? { GrowCost(r.vm, root, p + 1, n - 1); }
    }
  }

  // ----- what a program finds there

  /** A user page of zeroes that can be read and written but not executed, on a live frame. */
  ghost predicate FreshHeap(vm: Vm, root: nat, q: nat) {
    match Translate(vm.tables, root, q)
    case None => false
    case Some(e) =>
      && Rights(e, 1, 1, 0, 1) && Bytes(vm, Target(e)) == ZeroBytes()
      && BuddyModel.WellFormed(vm.zone) && LiveFrame(vm.zone, vm.base, Target(e))
  }

  /** Mapping a zeroed page that nobody owns. */
  lemma FreshMapped(v: Vm, root: nat, p: nat, g: nat)
    requires VmOk(v) && Invariant(v.zone) && IsRoot(v, root) && p < USER_PAGES && Translate(v.tables, root, p) == None
    requires Unowned(v, g) && g * PAGE < PHYS && Bytes(v, g) == ZeroBytes()
    ensures MapPage(v, root, p, g, HEAP_PERM).MapDone? ==> FreshHeap(MapPage(v, root, p, g, HEAP_PERM).vm, root, p)
  {
    hide VmOk, Invariant, MapPage, Translate, Target, LeafPte, LiveFrame, KeepsBytes, Rights, BuddyModel.WellFormed;
    MapRefines(v, root, p, g, HEAP_PERM);
    MapKeepsBytes(v, root, p, g, HEAP_PERM);
    LeafPteRoundTrip(g, HEAP_PERM);
    VmZone(v);
    KeepsAt(v, MapPage(v, root, p, g, HEAP_PERM).vm, g);
    HeapRights(LeafPte(g * PAGE, HEAP_PERM));
  }

  lemma GrowOneFresh(vm: Vm, root: nat, p: nat)
    requires VmOk(vm) && Invariant(vm.zone) && IsRoot(vm, root) && p < USER_PAGES
    ensures KeepsBytes(vm, GrowOne(vm, root, p).vm)
    ensures GrowOne(vm, root, p).Grown? && Translate(vm.tables, root, p) == None ==>
              FreshHeap(GrowOne(vm, root, p).vm, root, p)
  {
    hide VmOk, Invariant, AllocPage, MapPage, Translate, KeepsBytes, LiveFrame, FreshHeap, BuddyModel.WellFormed,
         Extends;
    KeepsRefl(vm);
    if AllocPage(vm).GotPage? {
      AllocPageFresh(vm);
      AllocKeepsBytes(vm);
      var v, g := AllocPage(vm).vm, AllocPage(vm).frame;
      RootStays(vm, v, root);
      ExtendsAt(vm, v, root, p);
      VmZone(v);
      MapKeepsBytes(v, root, p, g, HEAP_PERM);
      KeepsTrans(vm, v, MapPage(v, root, p, g, HEAP_PERM).vm);
      if Translate(vm.tables, root, p) == None { FreshMapped(v, root, p, g); }
    }
  }

  lemma FreshStays(v: Vm, w: Vm, root: nat, q: nat)
    requires FreshHeap(v, root, q) && KeepsBytes(v, w) && Translate(w.tables, root, q) == Translate(v.tables, root, q)
    ensures FreshHeap(w, root, q)
  {
    hide Translate, LiveFrame, Rights, Target, Bytes;
  }

  /** A page of the range after growing: an old binding is kept, a new one is a fresh heap page. */
  ghost predicate GrownPage(vm: Vm, v: Vm, root: nat, q: nat) {
    && (Translate(vm.tables, root, q).Some? ==> Translate(v.tables, root, q) == Translate(vm.tables, root, q))
    && (Translate(vm.tables, root, q) == None ==> Translate(v.tables, root, q) == None || FreshHeap(v, root, q))
  }

  /** Growing never touches the contents of a live page, and every page it adds is fresh. */
  lemma {:induction false} GrowFresh(vm: Vm, root: nat, p: nat, end: nat)
    requires VmOk(vm) && Invariant(vm.zone) && IsRoot(vm, root) && p <= end <= USER_PAGES
    ensures KeepsBytes(vm, Grow(vm, root, p, end).vm)
    ensures forall q: nat :: p <= q < end ==> GrownPage(vm, Grow(vm, root, p, end).vm, root, q)
    decreases end - p
  {
    hide VmOk, Invariant, GrowOne, Translate, SameOutside, KeepsBytes, FreshHeap, IsRoot;
    KeepsRefl(vm);
    if p < end {
      GrowOneFresh(vm, root, p);
      GrowOneRefines(vm, root, p);
      var v := GrowOne(vm, root, p).vm;
      OutsideAt(vm, v, root, p, p + 1);
      if GrowOne(vm, root, p).Grown? {
        GrowFresh(v, root, p + 1, end);
        GrowRefines(v, root, p + 1, end);
        var w := Grow(v, root, p + 1, end).vm;
        KeepsTrans(vm, v, w);
        OutsideAt(v, w, root, p + 1, end);
        GrownJoin(vm, v, w, root, p, end);
      }
    }
  }

  lemma GrownJoin(vm: Vm, v: Vm, w: Vm, root: nat, p: nat, end: nat)
    requires p < end <= USER_PAGES && GrownPage(vm, v, root, p) && KeepsBytes(v, w)
    requires Translate(w.tables, root, p) == Translate(v.tables, root, p)
    requires forall q: nat :: p < q < end ==>
               Translate(v.tables, root, q) == Translate(vm.tables, root, q) && GrownPage(v, w, root, q)
    ensures forall q: nat :: p <= q < end ==> GrownPage(vm, w, root, q)
  {
    hide Translate, KeepsBytes, FreshHeap;
    if FreshHeap(v, root, p) { FreshStays(v, w, root, p); }
    forall q: nat | p <= q < end ensures GrownPage(vm, w, root, q) {
      if q > p { assert GrownPage(v, w, root, q); }
    }
  }

  // ----- what shrinking gives back

  lemma UnmapOneCost(vm: Vm, root: nat, p: nat)
    requires VmOk(vm) && Invariant(vm.zone) && BuddyModel.WellFormed(vm.zone) && IsRoot(vm, root) && p < USER_PAGES
    ensures UnmapOne(vm, root, p).Unmapped? ==>
              var v := UnmapOne(vm, root, p).vm; BuddyModel.WellFormed(v.zone) && Pool(v) == Pool(vm) + 1
  {
    hide VmOk, Invariant, FreeCount, LiveFrame, Translate, Target, UnmapPage, BuddyModel.WellFormed;
    UnmapRefines(vm, root, p);
    if UnmapOne(vm, root, p).Unmapped? {
      var v := UnmapOne(vm, root, p).vm;
      UnmapZone(vm, root, p);
      FreedOne(vm, Target(Translate(vm.tables, root, p).value));
    }
  }

  lemma UnmapZone(vm: Vm, root: nat, p: nat)
    requires VmOk(vm) && IsRoot(vm, root) && p < USER_PAGES && UnmapPage(vm, root, p).Unmapped?
    ensures Translate(vm.tables, root, p).Some?
    ensures var f := Target(Translate(vm.tables, root, p).value);
            && FreeFrame(vm.zone, vm.base, f).Freed?
            && UnmapPage(vm, root, p).vm.zone == FreeFrame(vm.zone, vm.base, f).zone
  {
    hide Index, FreeFrame, Target;
    var low := UnmapCases(vm, root, p);
  }

  lemma FreedOne(vm: Vm, f: nat)
    requires VmOk(vm) && BuddyModel.WellFormed(vm.zone) && f in vm.owner && vm.owner[f].Page?
    requires FreeFrame(vm.zone, vm.base, f).Freed?
    ensures FreeCount(FreeFrame(vm.zone, vm.base, f).zone) == FreeCount(vm.zone) + 1
  {
    assert Pow2(0) == 1;
    hide VmOk, Invariant, Coalesced, CountFrom, Free, LiveExcept, Pow2;
    VmZone(vm);
    OwnedIsLive(vm, f);
    FreeGives(vm.zone, f - vm.base, 0);
  }

  /** The unmapping loop gives one page back for each page that was mapped. */
  lemma {:induction false} ShrinkCost(vm: Vm, root: nat, p: nat, end: nat)
    requires VmOk(vm) && Invariant(vm.zone) && BuddyModel.WellFormed(vm.zone) && IsRoot(vm, root)
    requires p <= end <= USER_PAGES && Shrink(vm, root, p, end).Shrunk?
    ensures var v := Shrink(vm, root, p, end).vm;
            BuddyModel.WellFormed(v.zone) && Pool(v) == Pool(vm) + |MappedPages(vm.tables, root, p, end)|
    decreases end - p
  {
    hide VmOk, Invariant, UnmapOne, Translate, SameOutside, IsRoot, Pool, BuddyModel.WellFormed;
    if p < end {
      UnmapOneRefines(vm, root, p);
      UnmapOneCost(vm, root, p);
      ShrinkOneRefines(vm, root, p);
      var v := ShrinkOne(vm, root, p).vm;
      VmZone(v);
      OutsideAt(vm, v, root, p, p + 1);
      MappedSame(vm.tables, v.tables, root, p + 1, end);
      ShrinkCost(v, root, p + 1, end);
    }
  }

  lemma UnmapOneKeepsSize(vm: Vm, root: nat, p: nat)
    requires VmOk(vm) && IsRoot(vm, root) && p < USER_PAGES && vm.zone.n % 1024 == 0
    ensures !UnmapOne(vm, root, p).UnmapHalt?
    ensures UnmapOne(vm, root, p).Unmapped? ==> UnmapOne(vm, root, p).vm.zone.n == vm.zone.n
  {
    UnmapNeverHalts(vm, root, p);
    UnmapRefines(vm, root, p);
    hide VmOk, UnmapPage;
  }

  lemma {:induction false} ShrinkNeverHalts(vm: Vm, root: nat, p: nat, end: nat)
    requires VmOk(vm) && IsRoot(vm, root) && end <= USER_PAGES && vm.zone.n % 1024 == 0
    ensures Shrink(vm, root, p, end).Shrunk? && Shrink(vm, root, p, end).vm.zone.n == vm.zone.n
    decreases end - p
  {
    hide VmOk, UnmapOne, IsRoot;
    if p < end {
      UnmapOneKeepsSize(vm, root, p);
      ShrinkNeverHalts(ShrinkOne(vm, root, p).vm, root, p + 1, end);
    }
  }

  // ----- sys_sbrk

  /** Growth by n pages: it succeeds exactly if the free pages cover them and their missing tables. */
  ghost predicate GrewBy(vm: Vm, proc: Proc, n: nat, r: SbrkOutcome)
    requires BuddyModel.WellFormed(vm.zone)
  {
    var b := proc.heapEnd / PAGE;
    var cost := n + Need(HaveOf(vm.tables, proc.root), Range(b, n));
    && r.SbrkDone? && VmOk(r.vm) && BuddyModel.WellFormed(r.vm.zone)
    && SameOutside(vm, r.vm, proc.root, b, b + n) && KeepsBytes(vm, r.vm)
    && (forall q: nat :: b <= q < b + n ==> GrownPage(vm, r.vm, proc.root, q))
    && if Pool(vm) >= cost then
         && r.ret == proc.heapEnd && r.proc == proc.(heapEnd := proc.heapEnd + n * PAGE)
         && Pool(r.vm) + cost == Pool(vm)
         && forall q: nat :: b <= q < b + n ==> Translate(r.vm.tables, proc.root, q).Some?
       else r.ret == -1 && r.proc == proc && Pool(r.vm) == 0
  }

  /** Shrinking by n pages: it unmaps all of them and gives back exactly the frames behind them. */
  ghost predicate ShrankBy(vm: Vm, proc: Proc, n: nat, r: SbrkOutcome)
    requires BuddyModel.WellFormed(vm.zone) && n <= proc.heapEnd / PAGE
  {
    var b := proc.heapEnd / PAGE;
    match r
    case SbrkHalt => vm.zone.n % 1024 != 0
    case SbrkDone(v, proc', ret) =>
      && ret == proc.heapEnd && proc' == proc.(heapEnd := proc.heapEnd - n * PAGE)
      && VmOk(v) && BuddyModel.WellFormed(v.zone)
      && SameOutside(vm, v, proc.root, b - n, b) && NoneIn(v, proc.root, b - n, b)
      && GaveBack(vm, v, proc.root, b - n, b)
      && Pool(v) == Pool(vm) + |MappedPages(vm.tables, proc.root, b - n, b)|
  }

  /** k is the size in pages, rounded up. */
  predicate RoundsTo(size: int, k: int) {
    (k - 1) * PAGE < size <= k * PAGE
  }

  lemma BreaksAt(proc: Proc, size: int, k: int)
    requires proc.heapEnd % PAGE == 0 && proc.heapEnd <= USER_HEAP_END && RoundsTo(size, k)
    requires -0x8000_0000_0000_0000 <= size <= 0x7fff_ffff_ffff_f000
    ensures AlignUp(size) == k * PAGE && OldBreak(proc) == proc.heapEnd
    ensures 0 <= proc.heapEnd + k * PAGE <= USER_HEAP_END <==> NewBreak(proc, size) <= USER_HEAP_END
    ensures 0 <= proc.heapEnd + k * PAGE <= USER_HEAP_END ==>
              && NewBreak(proc, size) == proc.heapEnd + k * PAGE
              && NewBreak(proc, size) / PAGE == proc.heapEnd / PAGE + k
  {
  }

  /**
    sys_sbrk(), exactly, for a size of k pages. It refuses a zero size and a break out
    of bounds, and touches nothing. Otherwise a growth succeeds exactly if there are
    enough free pages, takes exactly those, and takes every free page when it fails;
    and a shrink always succeeds (unless freeing halts).
   */
  lemma SbrkExact(vm: Vm, proc: Proc, size: int, k: int)
    requires VmOk(vm) && Invariant(vm.zone) && BuddyModel.WellFormed(vm.zone) && ProcOk(vm, proc)
    requires -0x8000_0000_0000_0000 <= size <= 0x7fff_ffff_ffff_f000 && RoundsTo(size, k)
    ensures var r, now := SysSbrk(vm, proc, size), proc.heapEnd + k * PAGE;
            if size == 0 || now < proc.heapStart || now > USER_HEAP_END then r == SbrkDone(vm, proc, -1)
            else if k > 0 then GrewBy(vm, proc, k, r)
            else proc.heapEnd / PAGE + k >= 0 && ShrankBy(vm, proc, -k, r)
  {
    hide VmOk, Invariant, IsRoot, Grow, Shrink, GrewBy, ShrankBy, BuddyModel.WellFormed, SysSbrk;
    var now := proc.heapEnd + k * PAGE;
    if size == 0 || now < proc.heapStart || now > USER_HEAP_END {
      SbrkRefused(vm, proc, size, k);
    } else if k > 0 {
      SbrkGrows(vm, proc, size, k);
      GrowExact(vm, proc, k);
    } else {
      PagesDown(proc.heapEnd, -k);
      SbrkShrinks(vm, proc, size, -k);
      ShrinkExact(vm, proc, -k);
    }
  }

  lemma PagesDown(end: nat, n: nat)
    requires n * PAGE <= end
    ensures n <= end / PAGE
  {
  }

  lemma SbrkRefused(vm: Vm, proc: Proc, size: int, k: int)
    requires VmOk(vm) && Invariant(vm.zone) && ProcOk(vm, proc)
    requires -0x8000_0000_0000_0000 <= size <= 0x7fff_ffff_ffff_f000 && RoundsTo(size, k)
    requires size == 0 || proc.heapEnd + k * PAGE < proc.heapStart || proc.heapEnd + k * PAGE > USER_HEAP_END
    ensures SysSbrk(vm, proc, size) == SbrkDone(vm, proc, -1)
  {
    BreaksAt(proc, size, k);
    hide VmOk, Invariant, AlignUp, OldBreak, NewBreak, IsRoot, Grow, Shrink, RoundsTo;
  }

  lemma ProcBounds(vm: Vm, proc: Proc)
    requires ProcOk(vm, proc)
    ensures proc.heapEnd % PAGE == 0 && proc.heapStart <= proc.heapEnd <= USER_HEAP_END
  {
  }

  lemma BreaksUp(proc: Proc, size: int, n: nat)
    requires proc.heapEnd % PAGE == 0 && proc.heapEnd + n * PAGE <= USER_HEAP_END && RoundsTo(size, n) && n > 0
    requires -0x8000_0000_0000_0000 <= size <= 0x7fff_ffff_ffff_f000
    ensures AlignUp(size) > 0 && OldBreak(proc) == proc.heapEnd && NewBreak(proc, size) == proc.heapEnd + n * PAGE
    ensures (proc.heapEnd + n * PAGE) / PAGE == proc.heapEnd / PAGE + n
  {
    BreaksAt(proc, size, n);
  }

  lemma BreaksDown(proc: Proc, size: int, n: nat)
    requires proc.heapEnd % PAGE == 0 && n * PAGE <= proc.heapEnd <= USER_HEAP_END && RoundsTo(size, 0 - n)
    requires -0x8000_0000_0000_0000 <= size <= 0x7fff_ffff_ffff_f000
    ensures AlignUp(size) <= 0 && OldBreak(proc) == proc.heapEnd && NewBreak(proc, size) == proc.heapEnd - n * PAGE
    ensures (proc.heapEnd - n * PAGE) / PAGE == proc.heapEnd / PAGE - n
  {
    BreaksAt(proc, size, 0 - n);
  }

  lemma SbrkGrows(vm: Vm, proc: Proc, size: int, n: nat)
    requires VmOk(vm) && Invariant(vm.zone) && ProcOk(vm, proc)
    requires -0x8000_0000_0000_0000 <= size <= 0x7fff_ffff_ffff_f000 && RoundsTo(size, n)
    requires size != 0 && n > 0 && proc.heapEnd + n * PAGE <= USER_HEAP_END
    ensures var b := proc.heapEnd / PAGE;
            SysSbrk(vm, proc, size) ==
              match Grow(vm, proc.root, b, b + n)
              case GrowFailed(v) => SbrkDone(v, proc, -1)
              case Grown(v) => SbrkDone(v, proc.(heapEnd := proc.heapEnd + n * PAGE), proc.heapEnd)
  {
    hide VmOk, Invariant, AlignUp, OldBreak, NewBreak, IsRoot, Grow, Shrink, RoundsTo, ProcOk;
    ProcBounds(vm, proc);
    BreaksUp(proc, size, n);
  }

  lemma SbrkShrinks(vm: Vm, proc: Proc, size: int, n: nat)
    requires VmOk(vm) && Invariant(vm.zone) && ProcOk(vm, proc)
    requires -0x8000_0000_0000_0000 <= size <= 0x7fff_ffff_ffff_f000 && RoundsTo(size, 0 - n)
    requires size != 0 && proc.heapStart <= proc.heapEnd - n * PAGE && n <= proc.heapEnd / PAGE
    ensures var b := proc.heapEnd / PAGE;
            SysSbrk(vm, proc, size) ==
              match Shrink(vm, proc.root, b - n, b)
              case ShrinkHalt => SbrkHalt
              case Shrunk(v) => SbrkDone(v, proc.(heapEnd := proc.heapEnd - n * PAGE), proc.heapEnd)
  {
    hide VmOk, Invariant, AlignUp, OldBreak, NewBreak, IsRoot, Grow, Shrink, RoundsTo, ProcOk;
    ProcBounds(vm, proc);
    BreaksDown(proc, size, n);
  }

  lemma GrowExact(vm: Vm, proc: Proc, n: nat)
    requires VmOk(vm) && Invariant(vm.zone) && BuddyModel.WellFormed(vm.zone) && ProcOk(vm, proc)
    requires proc.heapEnd + n * PAGE <= USER_HEAP_END
    ensures var b := proc.heapEnd / PAGE;
            GrewBy(vm, proc, n,
              match Grow(vm, proc.root, b, b + n)
              case GrowFailed(v) => SbrkDone(v, proc, -1)
              case Grown(v) => SbrkDone(v, proc.(heapEnd := proc.heapEnd + n * PAGE), proc.heapEnd))
  {
    hide VmOk, Invariant, IsRoot, Grow, Pool, HaveOf, SameOutside, KeepsBytes, Translate, FreshHeap,
         BuddyModel.WellFormed, Range, Need;
    var b := proc.heapEnd / PAGE;
    GrowCost(vm, proc.root, b, n);
    GrowRefines(vm, proc.root, b, b + n);
    GrowFresh(vm, proc.root, b, b + n);
  }

  lemma ShrinkExact(vm: Vm, proc: Proc, n: nat)
    requires VmOk(vm) && Invariant(vm.zone) && BuddyModel.WellFormed(vm.zone) && ProcOk(vm, proc)
    requires n * PAGE <= proc.heapEnd
    ensures n <= proc.heapEnd / PAGE
    ensures var b := proc.heapEnd / PAGE;
            ShrankBy(vm, proc, n,
              match Shrink(vm, proc.root, b - n, b)
              case ShrinkHalt => SbrkHalt
              case Shrunk(v) => SbrkDone(v, proc.(heapEnd := proc.heapEnd - n * PAGE), proc.heapEnd))
  {
    hide VmOk, Invariant, IsRoot, Shrink, Pool, SameOutside, Translate, GaveBack, MappedPages, BuddyModel.WellFormed;
    var b := proc.heapEnd / PAGE;
    if Shrink(vm, proc.root, b - n, b).Shrunk? {
      ShrinkRefines(vm, proc.root, b - n, b);
      ShrinkGives(vm, proc.root, b - n, b);
      ShrinkCost(vm, proc.root, b - n, b);
    } else if vm.zone.n % 1024 == 0 {
      ShrinkNeverHalts(vm, proc.root, b - n, b);
    }
  }
}
