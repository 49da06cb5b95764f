/**
  Ownership across the page tables and the allocator, over whole runs: any
  number of address spaces, created with a program in them (and taken apart again
  when memory runs out half way), growing, shrinking and unmapping.
 */
module AddressSpaces {
  import opened Basics
  import opened Bits
  import opened Sv39
  import opened BuddyModel
  import opened BuddyInvariant
  import opened BuddyCalls
  import opened PageTable
  import opened PageMap
  import opened UserMemory
  import opened PageBudget
  import opened ProcessImage
  import opened SpawnBudget
  import opened SpawnGivesBack
  import opened HeapBudget
  import BuddyInit
  import BuddyRuns

  datatype Sys = Sys(
    vm: Vm,
    procs: map<nat, Proc>,     // by root
    kernelRoot: nat,           // kernel_pagetable
    kernelEnd: nat             // the page after the kernel image
  )

  datatype SysOp =
    | MapKernel(p: nat, frame: nat, perm: nat)
    | Spawn(binary: seq<nat>, procPage: nat, procFrame: nat, kstackPage: nat, kstackFrame: nat)
    | SbrkOp(root: nat, size: int)
    | MunmapOp(root: nat, addr: nat, bytes: nat)

  datatype SysOutcome = SysHalt | SysDone(sys: Sys)

  ghost predicate SysOk(sys: Sys) {
    match sys
    case Sys(vm, procs, kernelRoot, kernelEnd) =>
      && VmOk(vm) && Invariant(vm.zone) && IsRoot(vm, kernelRoot) && kernelEnd <= VPNS
      && forall root :: root in procs ==> procs[root].root == root && ProcOk(vm, procs[root])
  }

  /**
    The kernel maps its own pages above the user range; a program fits below the
    heap's limit, and kzalloc() put its proc_t and kernel stack outside the UART's
    gigabyte; calls name an existing space; unmapping stays inside the user range.
   */
  predicate Legal(sys: Sys, op: SysOp) {
    match op
    case MapKernel(p, frame, perm) => USER_PAGES <= p < VPNS && frame * PAGE < WORD && perm < 1024
    case Spawn(binary, procPage, procFrame, kstackPage, kstackFrame) =>
      && PagesFor(|binary|) * PAGE <= USER_HEAP_END && Above(procPage) && Above(kstackPage)
      && procFrame * PAGE < WORD && kstackFrame * PAGE < WORD
    case SbrkOp(root, size) => root in sys.procs && -0x8000_0000_0000_0000 <= size <= 0x7fff_ffff_ffff_f000
    case MunmapOp(root, addr, size) => root in sys.procs && Confined(addr, size)
  }

  function PlacesOf(sys: Sys, op: SysOp): Places
    requires op.Spawn?
  {
    Places(sys.kernelRoot, sys.kernelEnd, op.procPage, op.procFrame, op.kstackPage, op.kstackFrame)
  }

  /**
    map_page() on the kernel's table, which halts when it fails (kernel/start.c),
    create_proc(), sys_sbrk() or sys_munmap().
   */
  function SysCall(sys: Sys, op: SysOp): SysOutcome
    requires SysOk(sys) && Legal(sys, op)
  {
    match op
    case MapKernel(p, frame, perm) =>
      (match MapPage(sys.vm, sys.kernelRoot, p, frame, perm)
       case MapFailed(_) => SysHalt
       case MapDone(v) => SysDone(sys.(vm := v)))
    case Spawn(binary, _, _, _, _) =>
      (match CreateProc(sys.vm, PlacesOf(sys, op), binary)
       case CreateHalt => SysHalt
       case CreateFailed(v) => SysDone(sys.(vm := v))
       case CreatedProc(v, proc, _) => SysDone(sys.(vm := v, procs := sys.procs[proc.root := proc])))
    case SbrkOp(root, size) =>
      (match SysSbrk(sys.vm, sys.procs[root], size)
       case SbrkHalt => SysHalt
       case SbrkDone(v, proc, _) => SysDone(sys.(vm := v, procs := sys.procs[root := proc])))
    case MunmapOp(root, addr, size) =>
      (match SysMunmap(sys.vm, root, addr, size)
       case MunmapHalt => SysHalt
       case MunmapDone(v, _) => SysDone(sys.(vm := v)))
  }

  // ----- boot

  /** After buddy_allocator_init(): an allocator nobody has used and an empty kernel page table below it. */
  function BootSys(base: nat, n: nat, kernelRoot: nat, kernelEnd: nat): Sys {
    Sys(Vm(BuddyInit.Init(base, n), base, map[kernelRoot := ZeroTable()], map[], map[kernelRoot := Root]), map[],
        kernelRoot, kernelEnd)
  }

  lemma BootIsOk(base: nat, n: nat, kernelRoot: nat, kernelEnd: nat)
    requires base + n == BuddyInit.USER_END / PAGE && kernelRoot < base && kernelEnd <= VPNS
    ensures SysOk(BootSys(base, n, kernelRoot, kernelEnd))
  {
    BuddyInit.UserEndAligned(base, n);
    BuddyInit.InitPopulated(base, n);
    BuddyInit.PopulatedIsGood(BuddyInit.Init(base, n), base);
    hide InvariantExcept, CoalescedExcept, BuddyInit.Init, BuddyInit.Populated, BuddyInit.Ascending, Aligned;
  }

  // ----- what every call keeps

  lemma ProcsKept(vm: Vm, vm': Vm, procs: map<nat, Proc>)
    requires forall root :: root in procs ==> procs[root].root == root && ProcOk(vm, procs[root])
    requires forall r: nat :: IsRoot(vm, r) ==> IsRoot(vm', r)
    ensures forall root :: root in procs ==> procs[root].root == root && ProcOk(vm', procs[root])
  {
    hide IsRoot;
  }

  lemma MapKernelKeeps(sys: Sys, p: nat, frame: nat, perm: nat)
    requires SysOk(sys) && Legal(sys, MapKernel(p, frame, perm)) && SysCall(sys, MapKernel(p, frame, perm)).SysDone?
    ensures SysOk(SysCall(sys, MapKernel(p, frame, perm)).sys)
  {
    hide VmOk, InvariantExcept, MapPage, Translate;
    MapRefines(sys.vm, sys.kernelRoot, p, frame, perm);
    var v := MapPage(sys.vm, sys.kernelRoot, p, frame, perm).vm;
    RootsAfterMap(sys.vm, v, sys.kernelRoot, p);
    ProcsKept(sys.vm, v, sys.procs);
  }

  lemma RootsAfterMap(vm: Vm, v: Vm, root: nat, p: nat)
    requires Extends(vm, v) || SameExcept(vm, v, root, p)
    ensures forall r: nat :: IsRoot(vm, r) ==> IsRoot(v, r)
  {
    hide Translate, LiveFrame;
  }

  /** create_proc() keeps the ownership invariant, also when it runs out of memory half way. */
  lemma SpawnKeeps(sys: Sys, op: SysOp)
    requires op.Spawn? && SysOk(sys) && Legal(sys, op) && SysCall(sys, op).SysDone?
    ensures SysOk(SysCall(sys, op).sys)
  {
    hide VmOk, Invariant, CreateProc, Translate, PagesFor;
    CreateKeeps(sys.vm, PlacesOf(sys, op), op.binary);
    var r := CreateProc(sys.vm, PlacesOf(sys, op), op.binary);
    VmZone(r.vm);
    RestoredRoots(sys.vm, r.vm);
    ProcsKept(sys.vm, r.vm, sys.procs);
    if r.CreatedProc? { HeapAligned(PagesFor(|op.binary|)); }
  }

  lemma HeapAligned(pages: nat)
    ensures pages * PAGE % PAGE == 0
  {
  }

  lemma RestoredRoots(vm: Vm, v: Vm)
    requires Restored(vm, v)
    ensures forall r: nat :: IsRoot(vm, r) ==> IsRoot(v, r)
  {
    forall r: nat | IsRoot(vm, r) ensures IsRoot(v, r) {
      assert Translate(v.tables, r, 0) == Translate(vm.tables, r, 0);
    }
  }

  lemma SbrkOpKeeps(sys: Sys, root: nat, size: int)
    requires SysOk(sys) && Legal(sys, SbrkOp(root, size)) && SysCall(sys, SbrkOp(root, size)).SysDone?
    ensures SysOk(SysCall(sys, SbrkOp(root, size)).sys)
  {
    hide InvariantExcept, VmOk, SysSbrk;
    SbrkRefines(sys.vm, sys.procs[root], size);
    var r := SysSbrk(sys.vm, sys.procs[root], size);
    VmZone(r.vm);
    SbrkRoot(sys.vm, sys.procs[root], size);
    ProcsKept(sys.vm, r.vm, sys.procs);
  }

  lemma SbrkRoot(vm: Vm, proc: Proc, size: int)
    requires VmOk(vm) && Invariant(vm.zone) && ProcOk(vm, proc)
    requires -0x8000_0000_0000_0000 <= size <= 0x7fff_ffff_ffff_f000 && SysSbrk(vm, proc, size).SbrkDone?
    ensures SysSbrk(vm, proc, size).proc.root == proc.root
    ensures forall r: nat :: IsRoot(vm, r) ==> IsRoot(SysSbrk(vm, proc, size).vm, r)
  {
    hide InvariantExcept, VmOk, SysSbrk;
    SbrkRefines(vm, proc, size);
  }

  lemma MunmapOpKeeps(sys: Sys, root: nat, addr: nat, size: nat)
    requires SysOk(sys) && Legal(sys, MunmapOp(root, addr, size)) && SysCall(sys, MunmapOp(root, addr, size)).SysDone?
    ensures SysOk(SysCall(sys, MunmapOp(root, addr, size)).sys)
  {
    hide InvariantExcept, VmOk;
    var v := SysMunmap(sys.vm, root, addr, size).vm;
    VmZone(v);
    if !(size == 0 || addr % PAGE != 0) {
      EndInRange(addr, size);
      hide MunmapEnd, Translate;
      MunmapRefines(sys.vm, root, addr / PAGE, MunmapEnd(addr, size) / PAGE);
    }
    hide SysMunmap;
    ProcsKept(sys.vm, v, sys.procs);
  }

  lemma SysCallKeeps(sys: Sys, op: SysOp)
    requires SysOk(sys) && Legal(sys, op)
    ensures SysCall(sys, op).SysDone? ==> SysOk(SysCall(sys, op).sys)
  {
    hide VmOk, Invariant, CreateProc;
    if SysCall(sys, op).SysDone? {
      match op
      case MapKernel(p, frame, perm) => MapKernelKeeps(sys, p, frame, perm);
      case Spawn(_, _, _, _, _) => SpawnKeeps(sys, op);
      case SbrkOp(root, size) => SbrkOpKeeps(sys, root, size);
      case MunmapOp(root, addr, bytes) => MunmapOpKeeps(sys, root, addr, bytes);
    }
  }

  function Perform(sys: Sys, op: SysOp): (r: SysOutcome)
    requires SysOk(sys) && Legal(sys, op)
    ensures r.SysDone? ==> SysOk(r.sys)
  {
    SysCallKeeps(sys, op);
    SysCall(sys, op)
  }

  /** Every call of the run is legal when it is made. */
  ghost predicate LegalRun(sys: Sys, ops: seq<SysOp>)
    requires SysOk(sys)
    decreases |ops|
  {
    ops == [] ||
    (Legal(sys, ops[0]) && (Perform(sys, ops[0]).SysDone? ==> LegalRun(Perform(sys, ops[0]).sys, ops[1..])))
  }

  /** In every state a legal run reaches, all table pages and user pages are owned as SysOk says. */
  function RunSys(sys: Sys, ops: seq<SysOp>): (r: SysOutcome)
    requires SysOk(sys) && LegalRun(sys, ops)
    ensures r.SysDone? ==> SysOk(r.sys)
    decreases |ops|
  {
    if ops == [] then SysDone(sys)
    else
      match Perform(sys, ops[0])
      case SysHalt => SysHalt
      case SysDone(s) => RunSys(s, ops[1..])
  }

  // ----- what ownership means

  /** The frame behind a mapped user page is a live page of the allocator, owned by that page. */
  lemma MappedOwner(vm: Vm, r: nat, p: nat)
    requires VmOk(vm) && IsRoot(vm, r) && p < USER_PAGES && Translate(vm.tables, r, p).Some?
    ensures var f := Target(Translate(vm.tables, r, p).value);
            f in vm.owner && vm.owner[f] == Page(r, p) && LiveFrame(vm.zone, vm.base, f)
  {
    hide InvariantExcept, CoalescedExcept;
    WalkRoles(vm.tables, vm.owner, r, p);
    var low := LeafTable(vm.tables, r, p).value;
    UnmapOwner(vm, r, p, low);
    OwnedIsLive(vm, Target(Translate(vm.tables, r, p).value));
  }

  /**
    No sharing, over every run: two user pages, in the same or in different
    address spaces, translate to the same frame only if they are the same page;
    and no user page translates to a frame that is in use as a table.
   */
  lemma NoSharing(sys: Sys, ops: seq<SysOp>, r: nat, p: nat, r': nat, q: nat)
    requires SysOk(sys) && LegalRun(sys, ops) && RunSys(sys, ops).SysDone?
    requires var vm := RunSys(sys, ops).sys.vm;
             && IsRoot(vm, r) && IsRoot(vm, r') && p < USER_PAGES && q < USER_PAGES
             && Translate(vm.tables, r, p).Some? && Translate(vm.tables, r', q).Some?
    ensures var vm := RunSys(sys, ops).sys.vm;
            var f, g := Target(Translate(vm.tables, r, p).value), Target(Translate(vm.tables, r', q).value);
            && (f == g ==> r == r' && p == q)
            && f in vm.owner && vm.owner[f].Page? && LiveFrame(vm.zone, vm.base, f)
  {
    hide LegalRun, VmOk, Translate, Target;
    var vm := RunSys(sys, ops).sys.vm;
    MappedOwner(vm, r, p);
    MappedOwner(vm, r', q);
  }

  // ----- never halting

  lemma {:induction false} MunmapNeverHalts(vm: Vm, root: nat, p: nat, end: nat)
    requires VmOk(vm) && IsRoot(vm, root) && end <= USER_PAGES && vm.zone.n % 1024 == 0
    ensures MunmapLoop(vm, root, p, end).MunmapDone? && MunmapLoop(vm, root, p, end).vm.zone.n == vm.zone.n
    decreases end - p
  {
    hide VmOk, UnmapOne, IsRoot;
    if p < end {
      UnmapOneKeepsSize(vm, root, p);
      if UnmapOne(vm, root, p).Unmapped? { MunmapNeverHalts(UnmapOne(vm, root, p).vm, root, p + 1, end); }
    }
  }

  lemma AllocPageKeepsSize(vm: Vm)
    requires Invariant(vm.zone)
    ensures AllocPage(vm).GotPage? ==> AllocPage(vm).vm.zone.n == vm.zone.n
  {
    AllocKeeps(vm.zone, 0);
  }

  lemma NextTableKeepsSize(vm: Vm, g: nat, i: nat, child: Role)
    requires Invariant(vm.zone)
    ensures NextTable(vm, g, i, child, true).vm.zone.n == vm.zone.n
  {
    hide Invariant, AllocPage;
    AllocPageKeepsSize(vm);
  }

  lemma MapKeepsSize(vm: Vm, root: nat, p: nat, frame: nat, perm: nat)
    requires Invariant(vm.zone)
    ensures MapPage(vm, root, p, frame, perm).vm.zone.n == vm.zone.n
  {
    hide InvariantExcept, NextTable, Index, LeafPte;
    var mid := Mid(root, Index(p, 2));
    NextTableKeepsSize(vm, root, Index(p, 2), mid);
    var s := NextTable(vm, root, Index(p, 2), mid, true);
    if s.StepTo? { NextTableKeepsSize(s.vm, s.frame, Index(p, 1), Low(root, Index(p, 2), Index(p, 1))); }
  }

  lemma GrowOneKeepsSize(vm: Vm, root: nat, p: nat)
    requires Invariant(vm.zone)
    ensures GrowOne(vm, root, p).vm.zone.n == vm.zone.n
  {
    hide Invariant, AllocPage, MapPage;
    AllocPageKeepsSize(vm);
    if AllocPage(vm).GotPage? { MapKeepsSize(AllocPage(vm).vm, root, p, AllocPage(vm).frame, HEAP_PERM); }
  }

  lemma {:induction false} GrowKeepsSize(vm: Vm, root: nat, p: nat, end: nat)
    requires Invariant(vm.zone)
    ensures Grow(vm, root, p, end).vm.zone.n == vm.zone.n
    decreases end - p
  {
    hide Invariant, GrowOne;
    if p < end {
      GrowOneKeepsSize(vm, root, p);
      if GrowOne(vm, root, p).Grown? { GrowKeepsSize(GrowOne(vm, root, p).vm, root, p + 1, end); }
    }
  }

  lemma SbrkNeverHalts(vm: Vm, proc: Proc, size: int)
    requires VmOk(vm) && Invariant(vm.zone) && ProcOk(vm, proc) && vm.zone.n % 1024 == 0
    requires -0x8000_0000_0000_0000 <= size <= 0x7fff_ffff_ffff_f000
    ensures SysSbrk(vm, proc, size).SbrkDone? && SysSbrk(vm, proc, size).vm.zone.n == vm.zone.n
  {
    BreakPages(vm, proc, size);
    var was, now, step := OldBreak(proc), NewBreak(proc, size), AlignUp(size);
    hide VmOk, Invariant, AlignUp, OldBreak, NewBreak, Grow, Shrink, IsRoot;
    if !(size == 0 || now < proc.heapStart || now > USER_HEAP_END) {
      if step > 0 {
        GrowKeepsSize(vm, proc.root, was / PAGE, now / PAGE);
      } else {
        ShrinkNeverHalts(vm, proc.root, now / PAGE, was / PAGE);
      }
    }
  }

  /** With such a size, growing by n pages over an unmapped range and shrinking by n restores everything. */
  lemma GrowShrinkRestores(vm: Vm, proc: Proc, n: nat)
    requires VmOk(vm) && Invariant(vm.zone) && ProcOk(vm, proc) && 0 < n < 0x1_0000_0000 && vm.zone.n % 1024 == 0
    requires NoneIn(vm, proc.root, proc.heapEnd / PAGE, proc.heapEnd / PAGE + n)
    requires SysSbrk(vm, proc, n * PAGE).SbrkDone? && SysSbrk(vm, proc, n * PAGE).ret != -1
    ensures var r1 := SysSbrk(vm, proc, n * PAGE);
            && VmOk(r1.vm) && Invariant(r1.vm.zone) && ProcOk(r1.vm, r1.proc)
            && var r2 := SysSbrk(r1.vm, r1.proc, -(n * PAGE));
               r2.SbrkDone? && r2.ret == proc.heapEnd + n * PAGE && r2.proc == proc && Restored(vm, r2.vm)
  {
    hide VmOk, Invariant, Translate, SysSbrk, ProcOk, Restored;
    GrowThenShrink(vm, proc, n);
    SbrkNeverHalts(vm, proc, n * PAGE);
    var r1 := SysSbrk(vm, proc, n * PAGE);
    SbrkNeverHalts(r1.vm, r1.proc, -(n * PAGE));
  }

  // ----- what each call does to the system

  /** Nothing but the memory and this process has changed. */
  ghost predicate OnlyProc(sys: Sys, sys': Sys, root: nat) {
    && root in sys.procs && root in sys'.procs
    && sys' == sys.(vm := sys'.vm, procs := sys.procs[root := sys'.procs[root]])
  }

  /** sys_sbrk() in a running system, by a size of k pages. */
  lemma SbrkInRun(sys: Sys, root: nat, size: int, k: int)
    requires SysOk(sys) && Legal(sys, SbrkOp(root, size)) && RoundsTo(size, k) && BuddyModel.WellFormed(sys.vm.zone)
    ensures var proc, o := sys.procs[root], Perform(sys, SbrkOp(root, size));
            var now := proc.heapEnd + k * PAGE;
            if size == 0 || now < proc.heapStart || now > USER_HEAP_END then o == SysDone(sys)
            else if k > 0 then
              && o.SysDone? && OnlyProc(sys, o.sys, root)
              && exists ret: int :: GrewBy(sys.vm, proc, k, SbrkDone(o.sys.vm, o.sys.procs[root], ret))
            else
              && proc.heapEnd / PAGE + k >= 0 && (o.SysHalt? ==> sys.vm.zone.n % 1024 != 0)
              && (o.SysDone? ==>
                    && OnlyProc(sys, o.sys, root)
                    && ShrankBy(sys.vm, proc, -k, SbrkDone(o.sys.vm, o.sys.procs[root], proc.heapEnd)))
  {
    hide VmOk, Invariant, SysSbrk, GrewBy, ShrankBy, BuddyModel.WellFormed, ProcOk, RoundsTo;
    SbrkExact(sys.vm, sys.procs[root], size, k);
    SbrkReturns(sys.vm, sys.procs[root], k, SysSbrk(sys.vm, sys.procs[root], size));
    assert sys.procs[root := sys.procs[root]] == sys.procs;
  }

  lemma SbrkReturns(vm: Vm, proc: Proc, k: int, r: SbrkOutcome)
    requires BuddyModel.WellFormed(vm.zone)
    ensures k > 0 && GrewBy(vm, proc, k, r) ==> r.SbrkDone?
    ensures k <= 0 && proc.heapEnd / PAGE + k >= 0 && ShrankBy(vm, proc, -k, r) ==>
              if r.SbrkHalt? then vm.zone.n % 1024 != 0 else r.ret == proc.heapEnd
  {
  }

  lemma SysProcs(sys: Sys, root: nat)
    requires SysOk(sys) && root in sys.procs
    ensures IsRoot(sys.vm, root)
  {
    hide VmOk, Invariant;
  }

  /** sys_munmap() in a running system. */
  lemma MunmapInRun(sys: Sys, root: nat, addr: nat, size: nat)
    requires SysOk(sys) && Legal(sys, MunmapOp(root, addr, size)) && Perform(sys, MunmapOp(root, addr, size)).SysDone?
    ensures var sys' := Perform(sys, MunmapOp(root, addr, size)).sys;
            && sys' == sys.(vm := sys'.vm)
            && if size > 0 && addr % PAGE == 0 && Inside(addr, size) then
                 OnlyReachedGone(sys.vm, sys'.vm, root, addr, size) && ReachedFreed(sys.vm, sys'.vm, root, addr, size)
               else sys' == sys
  {
    hide VmOk, Invariant, SysMunmap, OnlyReachedGone, ReachedFreed, ProcOk;
    SysProcs(sys, root);
    MunmapExact(sys.vm, root, addr, size);
  }

  /** create_proc() in a running system: the new process, or the program's pages and nothing else. */
  lemma SpawnInRun(sys: Sys, op: SysOp)
    requires op.Spawn? && SysOk(sys) && Legal(sys, op) && BuddyModel.WellFormed(sys.vm.zone)
    requires Perform(sys, op).SysDone?
    ensures var sys', pl, n := Perform(sys, op).sys, PlacesOf(sys, op), PagesFor(|op.binary|);
            if Pool(sys.vm) >= NeededInAll(sys.vm.tables, pl, n) then
              exists root: nat :: Spawned(sys, sys', op, root)
            else
              && sys' == sys.(vm := sys'.vm)
              && OnlyProgramLeft(sys.vm, sys'.vm, op.binary, LoadedBy(pl, n, Pool(sys.vm)))
  {
    hide VmOk, Invariant, CreateProc, BuddyModel.WellFormed, PagesFor, Pool, NeededInAll, OnlyProgramLeft, ImagePage,
         IsRoot, LoadedBy, SysOk, Legal, Perform, PlacesOk;
    SpawnParts(sys, op);
    NewOrNothing(sys.vm, PlacesOf(sys, op), op.binary);
    var r := CreateProc(sys.vm, PlacesOf(sys, op), op.binary);
    if r.CreatedProc? { assert Spawned(sys, Perform(sys, op).sys, op, r.proc.root); }
  }

  lemma SpawnParts(sys: Sys, op: SysOp)
    requires op.Spawn? && SysOk(sys) && Legal(sys, op)
    ensures VmOk(sys.vm) && Invariant(sys.vm.zone) && PlacesOk(sys.vm, PlacesOf(sys, op))
    ensures PagesFor(|op.binary|) * PAGE <= USER_HEAP_END
    ensures Perform(sys, op) ==
              match CreateProc(sys.vm, PlacesOf(sys, op), op.binary)
              case CreateHalt => SysHalt
              case CreateFailed(v) => SysDone(sys.(vm := v))
              case CreatedProc(v, proc, _) => SysDone(sys.(vm := v, procs := sys.procs[proc.root := proc]))
  {
    hide VmOk, Invariant, CreateProc, Index, PagesFor;
  }

  lemma NewOrNothing(vm: Vm, pl: Places, binary: seq<nat>)
    requires VmOk(vm) && Invariant(vm.zone) && BuddyModel.WellFormed(vm.zone) && PlacesOk(vm, pl)
    requires PagesFor(|binary|) * PAGE <= USER_HEAP_END
    ensures var r, n := CreateProc(vm, pl, binary), PagesFor(|binary|);
            && (r.CreatedProc? <==> Pool(vm) >= NeededInAll(vm.tables, pl, n))
            && (r.CreatedProc? ==>
                  && !IsRoot(vm, r.proc.root) && r.proc == Proc(r.proc.root, n * PAGE, n * PAGE)
                  && forall q: nat :: q < VPNS ==> ImagePage(vm, r.vm, r.proc.root, pl, n, true, q))
            && (r.CreateFailed? ==> OnlyProgramLeft(vm, r.vm, binary, LoadedBy(pl, n, Pool(vm))))
  {
    hide VmOk, Invariant, CreateProc, BuddyModel.WellFormed, Translate, PagesFor, Pool, NeededInAll, NeededEarly,
         OnlyProgramLeft, ImagePage, Restored, IsRoot, Starved, ShortAtUart, PlacesOk, LoadedBy;
    CreateExactly(vm, pl, binary);
    CreateKeeps(vm, pl, binary);
    var r, n := CreateProc(vm, pl, binary), PagesFor(|binary|);
    if r.CreatedProc? {
      forall q: nat | q < VPNS ensures ImagePage(vm, r.vm, r.proc.root, pl, n, true, q) {
        CreateImage(vm, pl, binary, q);
      }
    }
    if r.CreateFailed? { CreateGivesBack(vm, pl, binary); }
  }

  /** A process with a new root, the whole image and an empty heap after its program. */
  ghost predicate Spawned(sys: Sys, sys': Sys, op: SysOp, root: nat)
    requires op.Spawn?
  {
    var n := PagesFor(|op.binary|);
    && !IsRoot(sys.vm, root)
    && sys' == sys.(vm := sys'.vm, procs := sys.procs[root := Proc(root, n * PAGE, n * PAGE)])
    && forall q: nat :: q < VPNS ==> ImagePage(sys.vm, sys'.vm, root, PlacesOf(sys, op), n, true, q)
  }

  /**
    What makes a call halt, with a whole number of order-10 blocks: a UART, or a kernel page,
    that cannot be mapped.
   */
  ghost predicate HaltsOn(sys: Sys, op: SysOp)
    requires BuddyModel.WellFormed(sys.vm.zone)
  {
    match op
    case MapKernel(p, _, _) => Pool(sys.vm) < Miss(HaveOf(sys.vm.tables, sys.kernelRoot), p)
    case Spawn(binary, _, _, _, _) =>
      var pl, n := PlacesOf(sys, op), PagesFor(|binary|);
      NeededEarly(pl, n) <= Pool(sys.vm) < NeededInAll(sys.vm.tables, pl, n)
    case _ => false
  }

  lemma PerformHaltsExactly(sys: Sys, op: SysOp)
    requires SysOk(sys) && BuddyModel.WellFormed(sys.vm.zone) && Legal(sys, op) && sys.vm.zone.n % 1024 == 0
    ensures Perform(sys, op).SysHalt? <==> HaltsOn(sys, op)
    ensures Perform(sys, op).SysDone? ==> Perform(sys, op).sys.vm.zone.n == sys.vm.zone.n
  {
    hide VmOk, Invariant, SysSbrk, ProcOk, CreateProc, PagesFor, NeededEarly, NeededInAll, Pool, HaveOf, Miss,
         MapPage, BuddyModel.WellFormed, Starved, Index, Translate;
    match op
    case MapKernel(p, frame, perm) =>
      MapKeepsSize(sys.vm, sys.kernelRoot, p, frame, perm);
      MapCost(sys.vm, sys.kernelRoot, p, frame, perm);
    case Spawn(binary, _, _, _, _) =>
      CreateKeeps(sys.vm, PlacesOf(sys, op), binary);
      CreateExactly(sys.vm, PlacesOf(sys, op), binary);
    case SbrkOp(root, size) => SbrkNeverHalts(sys.vm, sys.procs[root], size);
    case MunmapOp(root, addr, size) => MunmapOpNeverHalts(sys, root, addr, size);
  }

  lemma MunmapOpNeverHalts(sys: Sys, root: nat, addr: nat, size: nat)
    requires SysOk(sys) && Legal(sys, MunmapOp(root, addr, size)) && sys.vm.zone.n % 1024 == 0
    ensures SysMunmap(sys.vm, root, addr, size).MunmapDone?
    ensures SysMunmap(sys.vm, root, addr, size).vm.zone.n == sys.vm.zone.n
  {
    hide VmOk, InvariantExcept;
    if size > 0 && addr % PAGE == 0 {
      EndInRange(addr, size);
      hide MunmapEnd;
      if Inside(addr, size) {
        MunmapNeverHalts(sys.vm, root, addr / PAGE, MunmapEnd(addr, size) / PAGE);
      } else {
        MunmapNothing(sys.vm, root, addr / PAGE, MunmapEnd(addr, size) / PAGE);
      }
    }
  }

  /** No call of the run halts, judged when it is made. */
  ghost predicate RoomyRun(sys: Sys, ops: seq<SysOp>)
    requires SysOk(sys) && LegalRun(sys, ops)
    decreases |ops|
  {
    ops != [] ==>
      && BuddyModel.WellFormed(sys.vm.zone) && !HaltsOn(sys, ops[0])
      && (Perform(sys, ops[0]).SysDone? ==> RoomyRun(Perform(sys, ops[0]).sys, ops[1..]))
  }

  /**
    With a whole number of order-10 blocks, a legal run halts exactly if in it some
    create_proc() is made with enough free pages to get to the UART but not enough
    to map it, or some page of the kernel cannot be mapped.
   */
  lemma {:induction false} RunHaltsExactly(sys: Sys, ops: seq<SysOp>)
    requires SysOk(sys) && LegalRun(sys, ops) && sys.vm.zone.n % 1024 == 0
    ensures RunSys(sys, ops).SysDone? <==> RoomyRun(sys, ops)
    decreases |ops|
  {
    SysZone(sys);
    hide SysOk, Perform, Legal, HaltsOn, BuddyModel.WellFormed;
    if ops != [] {
      PerformHaltsExactly(sys, ops[0]);
      if Perform(sys, ops[0]).SysDone? { RunHaltsExactly(Perform(sys, ops[0]).sys, ops[1..]); }
    }
  }

  lemma SysZone(sys: Sys)
    requires SysOk(sys)
    ensures BuddyModel.WellFormed(sys.vm.zone)
  {
    VmZone(sys.vm);
  }
}
