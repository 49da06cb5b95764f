/**
  The system calls that change a user address space: sys_sbrk and sys_munmap
  (kernel/syscall.c), over page tables made by alloc_pagetable().
 */
module UserMemory {
  import opened Basics
  import opened Bits
  import opened Sv39
  import opened BuddyModel
  import opened BuddyInvariant
  import opened BuddyCalls
  import opened PageTable
  import opened PageMap

  const USER_HEAP_END: nat := 0x77F_E000
  const HEAP_PERM: nat := PTE_R + PTE_W + PTE_U

  datatype Proc = Proc(root: nat, heapStart: nat, heapEnd: nat)

  // ----- ranges of pages

  /** Only pages [a, b) of this root may translate differently. */
  ghost predicate SameOutside(vm: Vm, vm': Vm, root: nat, a: nat, b: nat) {
    match vm
    case Vm(_, _, _, _, _) =>
      && vm'.base == vm.base
      && (forall r: nat :: IsRoot(vm, r) ==> IsRoot(vm', r))
      && (forall r: nat, q: nat :: IsRoot(vm, r) && q < VPNS && !(r == root && a <= q < b) ==>
            Translate(vm'.tables, r, q) == Translate(vm.tables, r, q))
  }

  /** None of the pages [a, b) is mapped. */
  ghost predicate NoneIn(vm: Vm, root: nat, a: nat, b: nat) {
    forall q: nat :: a <= q < b ==> Translate(vm.tables, root, q) == None
  }

  lemma OutsideRefl(vm: Vm, root: nat, a: nat, b: nat)
    ensures SameOutside(vm, vm, root, a, b)
  {
  }

  lemma OutsideTrans(x: Vm, y: Vm, z: Vm, root: nat, a: nat, b: nat)
    requires SameOutside(x, y, root, a, b) && SameOutside(y, z, root, a, b)
    ensures SameOutside(x, z, root, a, b)
  {
    hide Translate;
  }

  lemma OutsideWiden(x: Vm, y: Vm, root: nat, a: nat, b: nat, a': nat, b': nat)
    requires SameOutside(x, y, root, a, b) && a' <= a && b <= b'
    ensures SameOutside(x, y, root, a', b')
  {
    hide Translate;
  }

  lemma ExtendsIsOutside(x: Vm, y: Vm, root: nat, a: nat, b: nat)
    requires Extends(x, y)
    ensures SameOutside(x, y, root, a, b)
  {
    hide Translate, LiveFrame;
  }

  lemma ExceptIsOutside(x: Vm, y: Vm, root: nat, p: nat)
    requires SameExcept(x, y, root, p) && x.base == y.base
    ensures SameOutside(x, y, root, p, p + 1)
  {
    hide Translate;
  }

  // ----- growing

  datatype GrowOutcome = GrowFailed(vm: Vm) | Grown(vm: Vm)

  /** One turn of the mapping loop: a new page at p. */
  function GrowOne(vm: Vm, root: nat, p: nat): (r: GrowOutcome)
    requires Invariant(vm.zone)
    ensures Invariant(r.vm.zone)
  {
    match AllocPage(vm)
    case NoPage => GrowFailed(vm)
    case GotPage(v, f) =>
      match MapPage(v, root, p, f, HEAP_PERM)
      case MapFailed(w) => GrowFailed(w)
      case MapDone(w) => Grown(w)
  }

  /** The mapping loop of sys_sbrk over pages [p, end). */
  function Grow(vm: Vm, root: nat, p: nat, end: nat): (r: GrowOutcome)
    requires Invariant(vm.zone)
    ensures Invariant(r.vm.zone)
    decreases end - p
  {
    if p >= end then Grown(vm)
    else
      match GrowOne(vm, root, p)
      case GrowFailed(v) => GrowFailed(v)
      case Grown(v) => Grow(v, root, p + 1, end)
  }

  /** Heap and stack can be read and written from user mode, and not executed. */
  lemma HeapRights(e: nat)
    requires PteFlags(e) == LeafFlags(HEAP_PERM)
    ensures Rights(e, 1, 1, 0, 1)
  {
    hide PteFlags, LeafFlags;
    RightsAsked(e, HEAP_PERM);
    assert HEAP_PERM == 22 && Bit(22, 1) == 1 && Bit(22, 2) == 1 && Bit(22, 3) == 0 && Bit(22, 4) == 1;
  }

  /** What growing leaves at a page: an old binding stays, a new one is a heap page. */
  predicate HeapPage(before: Option<nat>, after: Option<nat>) {
    after.Some? && (if before.Some? then after == before else PteFlags(after.value) == LeafFlags(HEAP_PERM))
  }

  lemma GrowOneRefines(vm: Vm, root: nat, p: nat)
    requires VmOk(vm) && IsRoot(vm, root) && p < USER_PAGES
    ensures var r := GrowOne(vm, root, p);
            && VmOk(r.vm) && SameOutside(vm, r.vm, root, p, p + 1) && IsRoot(r.vm, root)
            && (r.Grown? ==> HeapPage(Translate(vm.tables, root, p), Translate(r.vm.tables, root, p)))
            && (r.GrowFailed? ==> Translate(r.vm.tables, root, p) == Translate(vm.tables, root, p))
  {
    hide Translate, TreesOk, InvariantExcept, CoalescedExcept, LiveFrame, LeafPte;
    OutsideRefl(vm, root, p, p + 1);
    if AllocPage(vm).GotPage? {
      AllocPageFresh(vm);
      var v, f := AllocPage(vm).vm, AllocPage(vm).frame;
      ExtendsIsOutside(vm, v, root, p, p + 1);
      assert Translate(v.tables, root, p) == Translate(vm.tables, root, p);
      hide VmOk, AllocPage;
      MapRefines(v, root, p, f, HEAP_PERM);
      var w := MapPage(v, root, p, f, HEAP_PERM).vm;
      LeafPteRoundTrip(f, HEAP_PERM);
      if MapPage(v, root, p, f, HEAP_PERM).MapFailed? || Translate(v.tables, root, p).Some? {
        ExtendsIsOutside(v, w, root, p, p + 1);
        ExtendsAt(v, w, root, p);
      } else {
        ExceptIsOutside(v, w, root, p);
      }
      OutsideTrans(vm, v, w, root, p, p + 1);
    }
  }

  /** What a growth that fails leaves at a page: what was there, or a heap page. */
  predicate HeapPageOrSame(before: Option<nat>, after: Option<nat>) {
    after == before || HeapPage(before, after)
  }

  /**
    Growing maps every page of the range or fails; either way nothing outside the
    range changes, and inside it no page loses its binding.
   */
  lemma {:induction false} GrowRefines(vm: Vm, root: nat, p: nat, end: nat)
    requires VmOk(vm) && Invariant(vm.zone) && IsRoot(vm, root) && p <= end <= USER_PAGES
    ensures var r := Grow(vm, root, p, end);
            && VmOk(r.vm) && SameOutside(vm, r.vm, root, p, end)
            && (r.Grown? ==> forall q: nat :: p <= q < end ==>
                  HeapPage(Translate(vm.tables, root, q), Translate(r.vm.tables, root, q)))
            && (forall q: nat :: p <= q < end ==>
                  HeapPageOrSame(Translate(vm.tables, root, q), Translate(r.vm.tables, root, q)))
    decreases end - p
  {
    hide VmOk, Translate, SameOutside, GrowOne, InvariantExcept;
    OutsideRefl(vm, root, p, end);
    if p < end {
      GrowOneRefines(vm, root, p);
      var v := GrowOne(vm, root, p).vm;
      OutsideWiden(vm, v, root, p, p + 1, p, end);
      OutsideAt(vm, v, root, p, p + 1);
      if GrowOne(vm, root, p).Grown? {
        GrowRefines(v, root, p + 1, end);
        var w := Grow(v, root, p + 1, end).vm;
        OutsideAt(v, w, root, p + 1, end);
        OutsideWiden(v, w, root, p + 1, end, p, end);
        OutsideTrans(vm, v, w, root, p, end);
      }
    }
  }

  lemma OutsideAt(x: Vm, y: Vm, root: nat, a: nat, b: nat)
    requires SameOutside(x, y, root, a, b) && IsRoot(x, root)
    ensures forall q: nat :: q < VPNS && !(a <= q < b) ==> Translate(y.tables, root, q) == Translate(x.tables, root, q)
    ensures IsRoot(y, root)
  {
  }

  // ----- shrinking

  datatype ShrinkOutcome = ShrinkHalt | Shrunk(vm: Vm)

  /** unmap_page() on a user page. */
  function UnmapOne(vm: Vm, root: nat, p: nat): (r: UnmapOutcome)
    requires VmOk(vm) && IsRoot(vm, root) && p < USER_PAGES
    ensures r.Unmapped? ==> VmOk(r.vm) && IsRoot(r.vm, root)
  {
    UnmapRefines(vm, root, p);
    UnmapPage(vm, root, p)
  }

  lemma UnmapOneRefines(vm: Vm, root: nat, p: nat)
    requires VmOk(vm) && IsRoot(vm, root) && p < USER_PAGES
    ensures UnmapOne(vm, root, p).NotMapped? <==> Translate(vm.tables, root, p) == None
    ensures UnmapOne(vm, root, p).Unmapped? ==>
              var v := UnmapOne(vm, root, p).vm;
              SameOutside(vm, v, root, p, p + 1) && Translate(v.tables, root, p) == None
  {
    UnmapRefines(vm, root, p);
    hide VmOk, Translate, UnmapPage;
    if UnmapOne(vm, root, p).Unmapped? { ExceptIsOutside(vm, UnmapOne(vm, root, p).vm, root, p); }
  }

  /** One turn of the unmapping loop; a page that is not mapped is passed over. */
  function ShrinkOne(vm: Vm, root: nat, p: nat): (r: ShrinkOutcome)
    requires VmOk(vm) && IsRoot(vm, root) && p < USER_PAGES
    ensures r.Shrunk? ==> VmOk(r.vm) && IsRoot(r.vm, root)
  {
    match UnmapOne(vm, root, p)
    case UnmapHalt => ShrinkHalt
    case NotMapped => Shrunk(vm)
    case Unmapped(v) => Shrunk(v)
  }

  /** The unmapping loop of sys_sbrk over pages [p, end). */
  function Shrink(vm: Vm, root: nat, p: nat, end: nat): (r: ShrinkOutcome)
    requires VmOk(vm) && IsRoot(vm, root) && end <= USER_PAGES
    ensures r.Shrunk? ==> VmOk(r.vm) && IsRoot(r.vm, root)
    decreases end - p
  {
    if p >= end then Shrunk(vm)
    else
      match ShrinkOne(vm, root, p)
      case ShrinkHalt => ShrinkHalt
      case Shrunk(v) => Shrink(v, root, p + 1, end)
  }

  lemma ShrinkOneRefines(vm: Vm, root: nat, p: nat)
    requires VmOk(vm) && IsRoot(vm, root) && p < USER_PAGES && ShrinkOne(vm, root, p).Shrunk?
    ensures var v := ShrinkOne(vm, root, p).vm;
            SameOutside(vm, v, root, p, p + 1) && Translate(v.tables, root, p) == None
  {
    hide VmOk, Translate, UnmapOne, SameOutside;
    OutsideRefl(vm, root, p, p + 1);
    UnmapOneRefines(vm, root, p);
  }

  /** Shrinking unmaps every page of the range and changes nothing outside it. */
  lemma {:induction false} ShrinkRefines(vm: Vm, root: nat, p: nat, end: nat)
    requires VmOk(vm) && IsRoot(vm, root) && p <= end <= USER_PAGES && Shrink(vm, root, p, end).Shrunk?
    ensures var v := Shrink(vm, root, p, end).vm;
            && SameOutside(vm, v, root, p, end)
            && forall q: nat :: p <= q < end ==> Translate(v.tables, root, q) == None
    decreases end - p
  {
    hide VmOk, Translate, SameOutside, ShrinkOne;
    OutsideRefl(vm, root, p, end);
    if p < end {
      ShrinkOneRefines(vm, root, p);
      var v := ShrinkOne(vm, root, p).vm;
      OutsideWiden(vm, v, root, p, p + 1, p, end);
      ShrinkRefines(v, root, p + 1, end);
      var w := Shrink(v, root, p + 1, end).vm;
      OutsideAt(v, w, root, p + 1, end);
      OutsideWiden(v, w, root, p + 1, end, p, end);
      OutsideTrans(vm, v, w, root, p, end);
    }
  }

  // ----- sys_sbrk

  datatype SbrkOutcome = SbrkHalt | SbrkDone(vm: Vm, proc: Proc, ret: int)

  /** The addresses of sys_sbrk, with the 64-bit wrap of the new break. */
  function OldBreak(proc: Proc): nat
    requires proc.heapEnd <= USER_HEAP_END
  {
    AlignUp(proc.heapEnd)
  }

  function NewBreak(proc: Proc, size: int): nat
    requires proc.heapEnd <= USER_HEAP_END
  {
    (OldBreak(proc) + AlignUp(size)) % WORD
  }

  ghost predicate ProcOk(vm: Vm, proc: Proc) {
    && IsRoot(vm, proc.root) && proc.heapStart <= proc.heapEnd <= USER_HEAP_END
    && proc.heapStart % PAGE == 0 == proc.heapEnd % PAGE
  }

  /** sys_sbrk(): -1 for a zero size or a break out of bounds, else the old break. */
  function SysSbrk(vm: Vm, proc: Proc, size: int): (r: SbrkOutcome)
    requires VmOk(vm) && Invariant(vm.zone) && ProcOk(vm, proc)
    requires -0x8000_0000_0000_0000 <= size <= 0x7fff_ffff_ffff_f000
  {
    var was, now, step := OldBreak(proc), NewBreak(proc, size), AlignUp(size);
    if size == 0 || now < proc.heapStart || now > USER_HEAP_END then SbrkDone(vm, proc, -1)
    else if step > 0 then
      match Grow(vm, proc.root, was / PAGE, now / PAGE)
      case GrowFailed(v) => SbrkDone(v, proc, -1)
      case Grown(v) => SbrkDone(v, proc.(heapEnd := now), was)
    else
      match Shrink(vm, proc.root, now / PAGE, was / PAGE)
      case ShrinkHalt => SbrkHalt
      case Shrunk(v) => SbrkDone(v, proc.(heapEnd := now), was)
  }

  /** An in-bounds break is the old break moved by whole pages. */
  lemma BreakPages(vm: Vm, proc: Proc, size: int)
    requires ProcOk(vm, proc) && -0x8000_0000_0000_0000 <= size <= 0x7fff_ffff_ffff_f000
    ensures OldBreak(proc) == proc.heapEnd && OldBreak(proc) % PAGE == 0 && OldBreak(proc) / PAGE <= USER_PAGES
    ensures NewBreak(proc, size) <= USER_HEAP_END ==>
              && NewBreak(proc, size) == OldBreak(proc) + AlignUp(size) && NewBreak(proc, size) % PAGE == 0
              && NewBreak(proc, size) / PAGE <= USER_PAGES
    ensures AlignUp(size) % PAGE == 0 && size <= AlignUp(size) < size + PAGE
  {
  }

  /**
    sys_sbrk(): whatever it returns, no translation outside the pages between the
    two breaks changes. Success moves the break; a successful growth maps every
    page between the breaks, a shrink unmaps them; failure leaves the break alone.
   */
  lemma SbrkRefines(vm: Vm, proc: Proc, size: int)
    requires VmOk(vm) && Invariant(vm.zone) && ProcOk(vm, proc)
    requires -0x8000_0000_0000_0000 <= size <= 0x7fff_ffff_ffff_f000 && SysSbrk(vm, proc, size).SbrkDone?
    ensures var r, was, now := SysSbrk(vm, proc, size), OldBreak(proc), NewBreak(proc, size);
            var lo, hi := if now <= was then now / PAGE else was / PAGE, if now <= was then was / PAGE else now / PAGE;
            && VmOk(r.vm) && ProcOk(r.vm, r.proc)
            && SameOutside(vm, r.vm, proc.root, lo, hi)
            && (r.ret == -1 ==> r.proc == proc)
            && (r.ret == -1 ==> forall q: nat :: lo <= q < hi && q < VPNS ==>
                  HeapPageOrSame(Translate(vm.tables, proc.root, q), Translate(r.vm.tables, proc.root, q)))
            && (r.ret != -1 ==> r.ret == was && r.proc == proc.(heapEnd := now))
            && (r.ret != -1 ==> forall q: nat :: lo <= q < hi ==>
                  if now > was then HeapPage(Translate(vm.tables, proc.root, q), Translate(r.vm.tables, proc.root, q))
                  else Translate(r.vm.tables, proc.root, q) == None)
  {
    BreakPages(vm, proc, size);
    var root, was, now, step := proc.root, OldBreak(proc), NewBreak(proc, size), AlignUp(size);
    hide VmOk, Translate, SameOutside, OldBreak, NewBreak, AlignUp, InvariantExcept;
    OutsideRefl(vm, root, if now <= was then now / PAGE else was / PAGE, if now <= was then was / PAGE else now / PAGE);
    if !(size == 0 || now < proc.heapStart || now > USER_HEAP_END) {
      if step > 0 {
        GrowRefines(vm, root, was / PAGE, now / PAGE);
        OutsideAt(vm, Grow(vm, root, was / PAGE, now / PAGE).vm, root, was / PAGE, now / PAGE);
      } else {
        ShrinkRefines(vm, root, now / PAGE, was / PAGE);
      }
    }
  }

  /** Every translation in every address space is the same. */
  ghost predicate Restored(vm: Vm, vm': Vm) {
    match vm
    case Vm(_, _, _, _, _) =>
      forall r: nat, q: nat :: IsRoot(vm, r) && q < VPNS ==>
        IsRoot(vm', r) && Translate(vm'.tables, r, q) == Translate(vm.tables, r, q)
  }

  lemma RestoredFrom(x: Vm, y: Vm, z: Vm, root: nat, a: nat, b: nat)
    requires SameOutside(x, y, root, a, b) && SameOutside(y, z, root, a, b)
    requires forall q: nat :: a <= q < b ==> Translate(x.tables, root, q) == None == Translate(z.tables, root, q)
    ensures Restored(x, z)
  {
    hide Translate;
  }

  /**
    Growing by n pages over an unmapped range and then shrinking by n pages
    restores every translation and the break.
   */
  lemma GrowThenShrink(vm: Vm, proc: Proc, n: nat)
    requires VmOk(vm) && Invariant(vm.zone) && ProcOk(vm, proc) && 0 < n < 0x1_0000_0000
    requires NoneIn(vm, proc.root, proc.heapEnd / PAGE, proc.heapEnd / PAGE + n)
    requires SysSbrk(vm, proc, n * PAGE).SbrkDone? && SysSbrk(vm, proc, n * PAGE).ret != -1
    ensures var r1 := SysSbrk(vm, proc, n * PAGE);
            && VmOk(r1.vm) && Invariant(r1.vm.zone) && ProcOk(r1.vm, r1.proc)
            && var r2 := SysSbrk(r1.vm, r1.proc, -(n * PAGE));
               r2.SbrkDone? ==> r2.ret == proc.heapEnd + n * PAGE && r2.proc == proc && Restored(vm, r2.vm)
  {
    hide VmOk, Translate, SameOutside, InvariantExcept, AlignUp, NewBreak, OldBreak, SysSbrk;
    BreaksMatch(vm, proc, n);
    SbrkRefines(vm, proc, n * PAGE);
    var r1 := SysSbrk(vm, proc, n * PAGE);
    VmZone(r1.vm);
    if SysSbrk(r1.vm, r1.proc, -(n * PAGE)).SbrkDone? {
      SbrkRefines(r1.vm, r1.proc, -(n * PAGE));
      ShrinkAccepted(r1.vm, r1.proc, -(n * PAGE));
      RestoredFrom(vm, r1.vm, SysSbrk(r1.vm, r1.proc, -(n * PAGE)).vm, proc.root, proc.heapEnd / PAGE,
          proc.heapEnd / PAGE + n);
    }
  }

  /** A shrink that stays above the heap's start is never refused. */
  lemma ShrinkAccepted(vm: Vm, proc: Proc, size: int)
    requires VmOk(vm) && Invariant(vm.zone) && ProcOk(vm, proc) && -0x8000_0000_0000_0000 <= size < 0
    requires AlignUp(size) <= 0 && proc.heapStart <= NewBreak(proc, size) <= USER_HEAP_END
    requires SysSbrk(vm, proc, size).SbrkDone?
    ensures SysSbrk(vm, proc, size).ret == OldBreak(proc)
  {
    hide VmOk, InvariantExcept, AlignUp, NewBreak, OldBreak;
  }

  /** The two calls move between the same two breaks. */
  lemma BreaksMatch(vm: Vm, proc: Proc, n: nat)
    requires ProcOk(vm, proc) && 0 < n < 0x1_0000_0000
    ensures OldBreak(proc) == proc.heapEnd && AlignUp(n * PAGE) == n * PAGE && AlignUp(-(n * PAGE)) == -(n * PAGE)
    ensures NewBreak(proc, n * PAGE) == proc.heapEnd + n * PAGE
    ensures proc.heapEnd + n * PAGE <= USER_HEAP_END ==>
              var proc' := proc.(heapEnd := proc.heapEnd + n * PAGE);
              OldBreak(proc') == proc'.heapEnd && NewBreak(proc', -(n * PAGE)) == proc.heapEnd
    ensures (proc.heapEnd + n * PAGE) / PAGE == proc.heapEnd / PAGE + n
  {
    hide AlignUp, IsRoot;
    WholeIsAligned(proc.heapEnd / PAGE);
    WholeIsAligned(n);
    var m: int := n;
    WholeIsAligned(-m);
    WholeIsAligned(proc.heapEnd / PAGE + n);
  }

  lemma WholeIsAligned(k: int)
    ensures AlignUp(k * PAGE) == k * PAGE
  {
  }

  // ----- sys_munmap

  datatype MunmapOutcome = MunmapHalt | MunmapDone(vm: Vm, ret: int)

  /** The loop of sys_munmap over pages [p, end): it stops with -1 at the first page not mapped. */
  function MunmapLoop(vm: Vm, root: nat, p: nat, end: nat): (r: MunmapOutcome)
    requires VmOk(vm) && IsRoot(vm, root) && (p < end ==> end <= USER_PAGES)
    ensures r.MunmapDone? ==> VmOk(r.vm) && IsRoot(r.vm, root)
    decreases end - p
  {
    if p >= end then MunmapDone(vm, 0)
    else
      match UnmapOne(vm, root, p)
      case UnmapHalt => MunmapHalt
      case NotMapped => MunmapDone(vm, -1)
      case Unmapped(v) => MunmapLoop(v, root, p + 1, end)
  }

  /** The end of the range, with the 64-bit wraps of the sum and of the rounding. */
  function MunmapEnd(addr: nat, size: nat): nat {
    AlignUp((addr + size) % WORD) % WORD
  }

  /** A call that stays inside the user range, or touches nothing because it is refused or its end wraps round. */
  predicate Confined(addr: nat, size: nat) {
    && addr < WORD && size < WORD
    && (size == 0 || addr % PAGE != 0 || Inside(addr, size) || WrapsRound(addr, size))
  }

  /** Every byte of the range is at a user address. */
  predicate Inside(addr: nat, size: nat) {
    addr + size <= USER_PAGES * PAGE
  }

  /** The range reaches into the last page of the 64-bit addresses, or past it. */
  predicate WrapsRound(addr: nat, size: nat) {
    addr + size > WORD - PAGE
  }

  /** The loop's end: in range, or not after the start. */
  lemma EndInRange(addr: nat, size: nat)
    requires size > 0 && addr % PAGE == 0 && addr < WORD && size < WORD
    ensures Inside(addr, size) ==>
              && addr / PAGE < MunmapEnd(addr, size) / PAGE <= USER_PAGES
              && forall q: nat :: q < MunmapEnd(addr, size) / PAGE <==> q * PAGE < addr + size
    ensures WrapsRound(addr, size) ==> MunmapEnd(addr, size) / PAGE <= addr / PAGE
  {
    hide AlignUp, MunmapEnd, Inside, WrapsRound;
    if Inside(addr, size) { EndInside(addr, size); }
    if WrapsRound(addr, size) { EndWraps(addr, size); }
  }

  lemma EndInside(addr: nat, size: nat)
    requires size > 0 && addr % PAGE == 0 && Inside(addr, size)
    ensures addr / PAGE < MunmapEnd(addr, size) / PAGE <= USER_PAGES
    ensures forall q: nat :: q < MunmapEnd(addr, size) / PAGE <==> q * PAGE < addr + size
  {
    hide AlignUp;
    AlignUpMeets(addr + size);
    var end := MunmapEnd(addr, size) / PAGE;
    assert addr / PAGE < end <==> addr / PAGE * PAGE < addr + size;
    assert USER_PAGES < end <==> USER_PAGES * PAGE < addr + size;
  }

  lemma EndWraps(addr: nat, size: nat)
    requires addr % PAGE == 0 && addr < WORD && size < WORD && WrapsRound(addr, size)
    ensures MunmapEnd(addr, size) / PAGE <= addr / PAGE
  {
    hide AlignUp;
    if addr + size <= WORD {
      LastPage(addr + size);
    } else {
      AlignUpBelow(addr + size - WORD, addr / PAGE);
    }
  }

  lemma AlignUpMeets(x: nat)
    requires 0 < x < WORD - PAGE
    ensures AlignUp(x) % WORD == AlignUp(x) && forall q: nat :: q < AlignUp(x) / PAGE <==> q * PAGE < x
  {
  }

  lemma LastPage(x: nat)
    requires WORD - PAGE < x <= WORD
    ensures AlignUp(x % WORD) % WORD == 0
  {
    if x < WORD {
      assert WORD == 0x10_0000_0000_0000 * PAGE;
      assert x / PAGE == 0xF_FFFF_FFFF_FFFF;
    }
  }

  lemma AlignUpBelow(x: nat, k: nat)
    requires x < k * PAGE < WORD
    ensures AlignUp(x % WORD) % WORD / PAGE <= k
  {
  }

  /** sys_munmap() */
  function SysMunmap(vm: Vm, root: nat, addr: nat, size: nat): (r: MunmapOutcome)
    requires VmOk(vm) && IsRoot(vm, root) && Confined(addr, size)
    ensures r.MunmapDone? ==> VmOk(r.vm) && IsRoot(r.vm, root)
  {
    if size == 0 || addr % PAGE != 0 then MunmapDone(vm, -1)
    else
      EndInRange(addr, size);
      MunmapLoop(vm, root, addr / PAGE, MunmapEnd(addr, size) / PAGE)
  }

  /** The first page of [p, end) that is not mapped, or end. */
  function FirstHole(t: map<nat, seq<nat>>, root: nat, p: nat, end: nat): (h: nat)
    ensures p <= h && (p <= end ==> h <= end)
    ensures forall q: nat :: p <= q < h ==> Translate(t, root, q).Some?
    ensures h < end ==> Translate(t, root, h) == None
    decreases end - p
  {
    if p >= end || Translate(t, root, p) == None then p else FirstHole(t, root, p + 1, end)
  }

  lemma {:induction false} SameHole(t: map<nat, seq<nat>>, t': map<nat, seq<nat>>, root: nat, p: nat, end: nat)
    requires forall q: nat :: p <= q < end ==> Translate(t', root, q) == Translate(t, root, q)
    ensures FirstHole(t', root, p, end) == FirstHole(t, root, p, end)
    decreases end - p
  {
    hide Translate;
    if p < end { SameHole(t, t', root, p + 1, end); }
  }

  /**
    The loop of sys_munmap unmaps the pages from the front of the range up to the first
    hole and changes nothing from there on; it returns 0 exactly if there is none.
   */
  lemma {:induction false} MunmapRefines(vm: Vm, root: nat, p: nat, end: nat)
    requires VmOk(vm) && IsRoot(vm, root) && (p < end ==> end <= USER_PAGES)
    requires MunmapLoop(vm, root, p, end).MunmapDone?
    ensures var r, h := MunmapLoop(vm, root, p, end), FirstHole(vm.tables, root, p, end);
            && SameOutside(vm, r.vm, root, p, h) && NoneIn(r.vm, root, p, h)
            && r.ret == if h < end then -1 else 0
    decreases end - p
  {
    hide VmOk, Translate, UnmapOne, SameOutside, IsRoot, NoneIn, FirstHole;
    HoleStep(vm.tables, root, p, end);
    OutsideRefl(vm, root, p, p);
    NoneEmpty(MunmapLoop(vm, root, p, end).vm, root, p);
    if p < end {
      UnmapOneRefines(vm, root, p);
      if UnmapOne(vm, root, p).Unmapped? {
        var v := UnmapOne(vm, root, p).vm;
        MunmapRefines(v, root, p + 1, end);
        MunmapJoin(vm, v, MunmapLoop(v, root, p + 1, end).vm, root, p, end);
      }
    }
  }

  lemma HoleStep(t: map<nat, seq<nat>>, root: nat, p: nat, end: nat)
    ensures FirstHole(t, root, p, end) ==
              if p >= end || Translate(t, root, p) == None then p else FirstHole(t, root, p + 1, end)
  {
    hide Translate;
  }

  lemma NoneEmpty(vm: Vm, root: nat, p: nat)
    ensures NoneIn(vm, root, p, p)
  {
  }

  /** One page unmapped, and then the rest up to the first hole. */
  lemma MunmapJoin(vm: Vm, v: Vm, w: Vm, root: nat, p: nat, end: nat)
    requires SameOutside(vm, v, root, p, p + 1) && IsRoot(vm, root) && p < end <= USER_PAGES
    requires Translate(v.tables, root, p) == None
    requires var h := FirstHole(v.tables, root, p + 1, end);
             SameOutside(v, w, root, p + 1, h) && NoneIn(w, root, p + 1, h)
    ensures var h := FirstHole(v.tables, root, p + 1, end);
            && h == FirstHole(vm.tables, root, p + 1, end)
            && SameOutside(vm, w, root, p, h) && NoneIn(w, root, p, h)
  {
    hide Translate, SameOutside, FirstHole;
    OutsideAt(vm, v, root, p, p + 1);
    SameHole(vm.tables, v.tables, root, p + 1, end);
    var h := FirstHole(v.tables, root, p + 1, end);
    OutsideWiden(vm, v, root, p, p + 1, p, h);
    OutsideAt(v, w, root, p + 1, h);
    OutsideWiden(v, w, root, p + 1, h, p, h);
    OutsideTrans(vm, v, w, root, p, h);
  }

  // ----- what unmapping gives back

  predicate MapsTo(t: map<nat, seq<nat>>, root: nat, q: nat, f: nat) {
    Translate(t, root, q).Some? && Target(Translate(t, root, q).value) == f
  }

  /** Frame f is behind one of the pages [a, b). */
  ghost predicate Behind(t: map<nat, seq<nat>>, root: nat, a: nat, b: nat, f: nat) {
    exists q: nat :: a <= q < b && MapsTo(t, root, q, f)
  }

  /** Exactly the frames behind these pages are no longer live, and no byte of memory has changed. */
  ghost predicate GaveBack(vm: Vm, vm': Vm, root: nat, a: nat, b: nat) {
    match vm
    case Vm(_, _, _, _, _) =>
      && BuddyModel.WellFormed(vm.zone) && BuddyModel.WellFormed(vm'.zone)
      && vm'.base == vm.base && vm'.zone.n == vm.zone.n && vm'.data == vm.data
      && forall f: nat :: LiveFrame(vm'.zone, vm.base, f) <==>
           LiveFrame(vm.zone, vm.base, f) && !Behind(vm.tables, root, a, b, f)
  }

  lemma GaveNothing(vm: Vm, root: nat, p: nat)
    requires VmOk(vm)
    ensures GaveBack(vm, vm, root, p, p)
  {
  }

  lemma UnmapGives(vm: Vm, root: nat, p: nat)
    requires VmOk(vm) && IsRoot(vm, root) && p < USER_PAGES
    ensures UnmapOne(vm, root, p).Unmapped? ==> GaveBack(vm, UnmapOne(vm, root, p).vm, root, p, p + 1)
    ensures UnmapOne(vm, root, p).NotMapped? ==> GaveBack(vm, vm, root, p, p + 1)
  {
    hide VmOk, Translate, UnmapPage, LiveFrame, Target, Behind, SameExcept, BuddyModel.WellFormed;
    VmZone(vm);
    UnmapRefines(vm, root, p);
    if UnmapOne(vm, root, p).Unmapped? {
      var v := UnmapOne(vm, root, p).vm;
      VmZone(v);
      forall f: nat
        ensures LiveFrame(v.zone, vm.base, f) <==>
                LiveFrame(vm.zone, vm.base, f) && !Behind(vm.tables, root, p, p + 1, f)
      {
        BehindOne(vm.tables, root, p, f);
      }
    } else if UnmapOne(vm, root, p).NotMapped? {
      forall f: nat
        ensures LiveFrame(vm.zone, vm.base, f) ==> !Behind(vm.tables, root, p, p + 1, f)
      {
        BehindOne(vm.tables, root, p, f);
      }
    }
  }

  lemma BehindOne(t: map<nat, seq<nat>>, root: nat, p: nat, f: nat)
    ensures Behind(t, root, p, p + 1, f) <==> MapsTo(t, root, p, f)
  {
    hide MapsTo;
    if MapsTo(t, root, p, f) { assert p <= p < p + 1; }
  }

  lemma GaveJoin(x: Vm, y: Vm, z: Vm, root: nat, p: nat, m: nat, b: nat)
    requires GaveBack(x, y, root, p, m) && GaveBack(y, z, root, m, b) && p <= m <= b <= VPNS
    requires IsRoot(x, root) && SameOutside(x, y, root, p, m)
    ensures GaveBack(x, z, root, p, b)
  {
    hide Translate, LiveFrame, Target;
    forall f: nat ensures Behind(x.tables, root, p, b, f) <==>
                          Behind(x.tables, root, p, m, f) || Behind(y.tables, root, m, b, f) {
      if Behind(x.tables, root, p, b, f) {
        var q: nat :| p <= q < b && MapsTo(x.tables, root, q, f);
        if q >= m { assert MapsTo(y.tables, root, q, f); }
      }
      if Behind(y.tables, root, m, b, f) {
        var q: nat :| m <= q < b && MapsTo(y.tables, root, q, f);
        assert MapsTo(x.tables, root, q, f);
      }
    }
  }

  /** sys_munmap() frees exactly the frames behind the pages it unmaps. */
  lemma {:induction false} MunmapGives(vm: Vm, root: nat, p: nat, end: nat)
    requires VmOk(vm) && IsRoot(vm, root) && p <= end <= USER_PAGES && MunmapLoop(vm, root, p, end).MunmapDone?
    ensures GaveBack(vm, MunmapLoop(vm, root, p, end).vm, root, p, FirstHole(vm.tables, root, p, end))
    decreases end - p
  {
    hide VmOk, Translate, UnmapOne, SameOutside, IsRoot, GaveBack, FirstHole;
    HoleStep(vm.tables, root, p, end);
    GaveNothing(vm, root, p);
    if p < end {
      UnmapOneRefines(vm, root, p);
      UnmapGives(vm, root, p);
      if UnmapOne(vm, root, p).Unmapped? {
        var v := UnmapOne(vm, root, p).vm;
        MunmapGives(v, root, p + 1, end);
        OutsideAt(vm, v, root, p, p + 1);
        SameHole(vm.tables, v.tables, root, p + 1, end);
        GaveJoin(vm, v, MunmapLoop(v, root, p + 1, end).vm, root, p, p + 1, FirstHole(v.tables, root, p + 1, end));
      }
    }
  }

  /** A shrinking sys_sbrk() frees exactly the frames behind the pages between the breaks. */
  lemma {:induction false} ShrinkGives(vm: Vm, root: nat, p: nat, end: nat)
    requires VmOk(vm) && IsRoot(vm, root) && p <= end <= USER_PAGES && Shrink(vm, root, p, end).Shrunk?
    ensures GaveBack(vm, Shrink(vm, root, p, end).vm, root, p, end)
    decreases end - p
  {
    hide VmOk, Translate, UnmapOne, SameOutside, IsRoot, GaveBack;
    GaveNothing(vm, root, p);
    if p < end {
      ShrinkOneRefines(vm, root, p);
      UnmapGives(vm, root, p);
      var v := ShrinkOne(vm, root, p).vm;
      ShrinkGives(v, root, p + 1, end);
      GaveJoin(vm, v, Shrink(v, root, p + 1, end).vm, root, p, p + 1, end);
    }
  }

  // ----- sys_munmap, exactly

  /** Page q holds a byte of [addr, addr + size). */
  predicate Meets(addr: nat, size: nat, q: nat) {
    q * PAGE < addr + size && addr < (q + 1) * PAGE
  }

  /** Page q holds a byte of the range and is mapped, and so is every page of the range before it. */
  ghost predicate Reached(vm: Vm, root: nat, addr: nat, size: nat, q: nat) {
    Meets(addr, size, q) && forall p: nat :: p <= q && Meets(addr, size, p) ==> Translate(vm.tables, root, p).Some?
  }

  /** Exactly these pages have lost their translation; every other page of every space has kept its own. */
  ghost predicate OnlyReachedGone(vm: Vm, vm': Vm, root: nat, addr: nat, size: nat) {
    match vm
    case Vm(_, _, _, _, _) =>
      && (forall q: nat :: Reached(vm, root, addr, size, q) ==> Translate(vm'.tables, root, q) == None)
      && forall r: nat, q: nat :: IsRoot(vm, r) && q < VPNS && !(r == root && Reached(vm, root, addr, size, q)) ==>
           IsRoot(vm', r) && Translate(vm'.tables, r, q) == Translate(vm.tables, r, q)
  }

  /** Frame f is behind one of these pages. */
  ghost predicate BehindReached(vm: Vm, root: nat, addr: nat, size: nat, f: nat) {
    exists q: nat :: Reached(vm, root, addr, size, q) && MapsTo(vm.tables, root, q, f)
  }

  /** Exactly the frames behind them are no longer live, and no byte of memory has changed. */
  ghost predicate ReachedFreed(vm: Vm, vm': Vm, root: nat, addr: nat, size: nat) {
    match vm
    case Vm(_, _, _, _, _) =>
      && BuddyModel.WellFormed(vm.zone) && BuddyModel.WellFormed(vm'.zone)
      && vm'.base == vm.base && vm'.zone.n == vm.zone.n && vm'.data == vm.data
      && forall f: nat :: LiveFrame(vm'.zone, vm.base, f) <==>
           LiveFrame(vm.zone, vm.base, f) && !BehindReached(vm, root, addr, size, f)
  }

  lemma MunmapNothing(vm: Vm, root: nat, p: nat, end: nat)
    requires VmOk(vm) && IsRoot(vm, root) && end <= p
    ensures MunmapLoop(vm, root, p, end) == MunmapDone(vm, 0)
  {
    hide VmOk, IsRoot, UnmapOne;
  }

  lemma MeetsPages(addr: nat, size: nat, end: nat)
    requires size > 0 && addr % PAGE == 0 && forall q: nat :: q < end <==> q * PAGE < addr + size
    ensures forall q: nat :: Meets(addr, size, q) <==> addr / PAGE <= q < end
  {
  }

  lemma ReachedPages(vm: Vm, v: Vm, root: nat, addr: nat, size: nat, end: nat)
    requires IsRoot(vm, root) && addr / PAGE < end <= USER_PAGES
    requires forall q: nat :: Meets(addr, size, q) <==> addr / PAGE <= q < end
    requires var h := FirstHole(vm.tables, root, addr / PAGE, end);
             && SameOutside(vm, v, root, addr / PAGE, h) && NoneIn(v, root, addr / PAGE, h)
             && GaveBack(vm, v, root, addr / PAGE, h)
    ensures OnlyReachedGone(vm, v, root, addr, size) && ReachedFreed(vm, v, root, addr, size)
    ensures FirstHole(vm.tables, root, addr / PAGE, end) < end <==>
            !forall q: nat :: Meets(addr, size, q) ==> Translate(vm.tables, root, q).Some?
  {
    var h := FirstHole(vm.tables, root, addr / PAGE, end);
    hide Translate, Meets, FirstHole;
    forall q: nat ensures Reached(vm, root, addr, size, q) <==> addr / PAGE <= q < h {
      if h <= q < end { assert Meets(addr, size, h); }
    }
    if h < end { assert Meets(addr, size, h); }
    hide Reached, LiveFrame;
    BehindSame(vm, root, addr, size, addr / PAGE, h);
  }

  lemma BehindSame(vm: Vm, root: nat, addr: nat, size: nat, a: nat, b: nat)
    requires forall q: nat :: Reached(vm, root, addr, size, q) <==> a <= q < b
    ensures forall f: nat :: Behind(vm.tables, root, a, b, f) <==> BehindReached(vm, root, addr, size, f)
  {
    hide Reached, MapsTo;
    forall f: nat | Behind(vm.tables, root, a, b, f) ensures BehindReached(vm, root, addr, size, f) {
      var q: nat :| a <= q < b && MapsTo(vm.tables, root, q, f);
      assert Reached(vm, root, addr, size, q);
    }
  }

  /**
    sys_munmap(), call by call. A zero size or an unaligned start is refused. Otherwise
    every page that holds a byte of the range is unmapped, from the front up to the
    first that is not mapped, and its frame freed; nothing else changes, and the result
    is 0 exactly if all of them were mapped. A range that wraps round unmaps nothing, and
    the result is 0.
   */
  lemma MunmapExact(vm: Vm, root: nat, addr: nat, size: nat)
    requires VmOk(vm) && IsRoot(vm, root) && Confined(addr, size)
    ensures size == 0 || addr % PAGE != 0 ==> SysMunmap(vm, root, addr, size) == MunmapDone(vm, -1)
    ensures size > 0 && addr % PAGE == 0 && WrapsRound(addr, size) ==>
              SysMunmap(vm, root, addr, size) == MunmapDone(vm, 0)
    ensures size > 0 && addr % PAGE == 0 && Inside(addr, size) && SysMunmap(vm, root, addr, size).MunmapDone? ==>
              var r := SysMunmap(vm, root, addr, size);
              && OnlyReachedGone(vm, r.vm, root, addr, size) && ReachedFreed(vm, r.vm, root, addr, size)
              && (r.ret == 0 || r.ret == -1)
              && (r.ret == 0 <==> forall q: nat :: Meets(addr, size, q) ==> Translate(vm.tables, root, q).Some?)
  {
    if size > 0 && addr % PAGE == 0 {
      EndInRange(addr, size);
      hide VmOk, Translate, AlignUp, MunmapEnd, MunmapLoop, FirstHole, SameOutside, NoneIn, GaveBack;
      var p, end := addr / PAGE, MunmapEnd(addr, size) / PAGE;
      if Inside(addr, size) {
        MeetsPages(addr, size, end);
        if MunmapLoop(vm, root, p, end).MunmapDone? {
          MunmapRefines(vm, root, p, end);
          MunmapGives(vm, root, p, end);
          ReachedPages(vm, MunmapLoop(vm, root, p, end).vm, root, addr, size, end);
        }
      } else {
        MunmapNothing(vm, root, p, end);
      }
    }
  }
}
