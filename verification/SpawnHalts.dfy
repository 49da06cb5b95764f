/**
  A legal run that halts: processes are created as long as there is ample memory,
  then the last one takes page after page, until there are enough left to create
  another process but not enough to map its UART. One growth takes one or two pages,
  and the two thresholds are at least two apart, so no growth steps over them.
 */
module SpawnHalts {
  import opened Basics
  import opened Bits
  import opened Sv39
  import opened BuddyModel
  import opened BuddyInvariant
  import opened BuddyCalls
  import opened BuddyCount
  import opened PageTable
  import opened PageMap
  import opened PageBudget
  import opened UserMemory
  import opened KernelMappings
  import opened ProcessImage
  import opened SpawnBudget
  import opened HeapBudget
  import opened AddressSpaces
  import BuddyInit

  const HEAP_PAGES: nat := 0x77FE      // USER_HEAP_END / PAGE_SIZE

  // ----- one page of growth

  /** A root with its stack mapped has the middle table of the user range. */
  lemma StackHasMid(vm: Vm, root: nat, p: nat)
    requires Translate(vm.tables, root, STACK_PAGE).Some? && p < USER_PAGES
    ensures Miss(HaveOf(vm.tables, root), p) <= 1
  {
    UserSlot(STACK_PAGE);
    UserSlot(p);
    assert Valid(Entry(vm.tables, root, 0));
    hide Index, Target;
    assert 0 in HaveOf(vm.tables, root).mids;
  }

  /** sys_sbrk() by one page. */
  lemma SbrkOnePage(vm: Vm, root: nat, t: nat)
    requires VmOk(vm) && Invariant(vm.zone) && IsRoot(vm, root) && t < HEAP_PAGES
    ensures var proc := Proc(root, 0, t * PAGE);
            && ProcOk(vm, proc)
            && SysSbrk(vm, proc, PAGE) ==
                 match GrowOne(vm, root, t)
                 case GrowFailed(v) => SbrkDone(v, proc, -1)
                 case Grown(v) => SbrkDone(v, Proc(root, 0, (t + 1) * PAGE), t * PAGE)
  {
    BreaksOfOne(vm, root, t);
    hide VmOk, Invariant, GrowOne, AlignUp, OldBreak, NewBreak, IsRoot;
    GrowOnce(vm, root, t);
    hide Grow;
  }

  lemma BreaksOfOne(vm: Vm, root: nat, t: nat)
    requires IsRoot(vm, root) && t < HEAP_PAGES
    ensures var proc := Proc(root, 0, t * PAGE);
            && ProcOk(vm, proc) && OldBreak(proc) == t * PAGE
            && NewBreak(proc, PAGE) == (t + 1) * PAGE && AlignUp(PAGE) == PAGE
            && (t + 1) * PAGE <= USER_HEAP_END && t * PAGE / PAGE == t && (t + 1) * PAGE / PAGE == t + 1
  {
    hide IsRoot;
    WholeIsAligned(t);
    WholeIsAligned(1);
  }

  lemma GrowOnce(vm: Vm, root: nat, t: nat)
    requires Invariant(vm.zone)
    ensures Grow(vm, root, t, t + 1) == GrowOne(vm, root, t)
  {
    hide Invariant, GrowOne;
  }

  /** What one page of growth leaves alone, and what it takes. */
  lemma GrowKeepsRest(vm: Vm, root: nat, t: nat, src: nat, end: nat)
    requires VmOk(vm) && Invariant(vm.zone) && BuddyModel.WellFormed(vm.zone) && IsRoot(vm, root) && t < HEAP_PAGES
    requires Translate(vm.tables, root, STACK_PAGE).Some? && Pool(vm) >= 2
    requires IsRoot(vm, src) && src != root && end <= VPNS
    ensures var r := GrowOne(vm, root, t);
            && r.Grown? && BuddyModel.WellFormed(r.vm.zone) && r.vm.zone.n == vm.zone.n
            && Pool(r.vm) < Pool(vm) <= Pool(r.vm) + 2 && Translate(r.vm.tables, root, STACK_PAGE).Some?
            && MappedPages(r.vm.tables, src, KERNEL_PAGE, end) == MappedPages(vm.tables, src, KERNEL_PAGE, end)
  {
    hide VmOk, Invariant, GrowOne, Pool, HaveOf, Translate, BuddyModel.WellFormed, Miss, MappedPages, SameOutside,
         IsRoot;
    StackHasMid(vm, root, t);
    GrowOneCost(vm, root, t);
    GrowOneRefines(vm, root, t);
    GrowOneKeepsSize(vm, root, t);
    var v := GrowOne(vm, root, t).vm;
    OutsideOther(vm, v, root, t, t + 1, root, STACK_PAGE);
    GrowSource(vm, v, root, src, t, end);
  }

  lemma GrowSource(vm: Vm, v: Vm, root: nat, src: nat, t: nat, end: nat)
    requires SameOutside(vm, v, root, t, t + 1) && IsRoot(vm, src) && src != root && end <= VPNS
    ensures MappedPages(v.tables, src, KERNEL_PAGE, end) == MappedPages(vm.tables, src, KERNEL_PAGE, end)
  {
    hide Translate, MappedPages;
    MappedSame(vm.tables, v.tables, src, KERNEL_PAGE, end);
  }

  // ----- what a create_proc() needs, as long as the kernel's table stays the same

  /** create_proc() with an empty program and any places. */
  predicate EmptySpawn(op: SysOp) {
    && op.Spawn? && op.binary == [] && Above(op.procPage) && Above(op.kstackPage)
    && op.procFrame * PAGE < WORD && op.kstackFrame * PAGE < WORD
  }

  lemma EmptyIsLegal(sys: Sys, op: SysOp)
    requires EmptySpawn(op)
    ensures Legal(sys, op)
  {
  }

  function KernelPagesOf(sys: Sys): seq<nat> {
    MappedPages(sys.vm.tables, sys.kernelRoot, KERNEL_PAGE, sys.kernelEnd)
  }

  ghost predicate SameKernel(s: Sys, s': Sys) {
    s'.kernelRoot == s.kernelRoot && s'.kernelEnd == s.kernelEnd && KernelPagesOf(s') == KernelPagesOf(s)
  }

  function Lo(sys: Sys, op: SysOp): nat
    requires op.Spawn?
  {
    NeededEarly(PlacesOf(sys, op), 0)
  }

  function Hi(sys: Sys, op: SysOp): nat
    requires op.Spawn?
  {
    NeededInAll(sys.vm.tables, PlacesOf(sys, op), 0)
  }

  lemma SameNeeds(s: Sys, s': Sys, op: SysOp)
    requires SameKernel(s, s') && op.Spawn?
    ensures Lo(s', op) == Lo(s, op) && Hi(s', op) == Hi(s, op)
  {
    hide MappedPages, EarlyPages;
  }

  lemma Thresholds(sys: Sys, op: SysOp)
    requires SysOk(sys) && EmptySpawn(op)
    ensures 2 <= Lo(sys, op) && Lo(sys, op) + 2 <= Hi(sys, op)
  {
    hide VmOk, Invariant, NeededEarly, NeededInAll;
    NeededSplit(sys.vm, PlacesOf(sys, op), 0);
    NeededPositive(PlacesOf(sys, op), 0);
  }

  /** Every page takes at most two tables. */
  lemma {:induction false} FewTables(h: Have, ps: seq<nat>)
    ensures Need(h, ps) <= 2 * |ps|
    decreases |ps|
  {
    hide Miss, Add;
    if ps != [] {
      MissFew(h, ps[0]);
      FewTables(Add(h, ps[0]), ps[1..]);
    }
  }

  lemma MissFew(h: Have, p: nat)
    ensures Miss(h, p) <= 2
  {
  }

  /** More than any create_proc() of an empty program can need. */
  function Ample(sys: Sys): nat {
    10 + 2 * |KernelPagesOf(sys)|
  }

  lemma AmpleSuffices(sys: Sys, op: SysOp)
    requires EmptySpawn(op)
    ensures Hi(sys, op) <= Ample(sys)
  {
    var ps := EarlyPages(PlacesOf(sys, op), 0) + (KernelPagesOf(sys) + [UART_PAGE]);
    assert |EarlyPages(PlacesOf(sys, op), 0)| == 3;
    hide MappedPages, Need, EarlyPages;
    FewTables(Have({}, {}), ps);
  }

  // ----- down to the threshold

  /** A process with t pages of heap and its stack mapped. */
  ghost predicate Growing(sys: Sys, root: nat, t: nat) {
    match sys
    case Sys(vm, procs, kernelRoot, _) =>
      && SysOk(sys) && vm.zone.n % 1024 == 0 && root in procs
      && procs[root] == Proc(root, 0, t * PAGE) && t <= HEAP_PAGES
      && root != kernelRoot && Translate(vm.tables, root, STACK_PAGE).Some?
  }

  lemma GrowStep(sys: Sys, root: nat, t: nat)
    requires Growing(sys, root, t) && SysOk(sys) && BuddyModel.WellFormed(sys.vm.zone)
    requires Pool(sys.vm) >= 2 && t < HEAP_PAGES
    ensures Legal(sys, SbrkOp(root, PAGE)) && Perform(sys, SbrkOp(root, PAGE)).SysDone?
    ensures var sys' := Perform(sys, SbrkOp(root, PAGE)).sys;
            && Growing(sys', root, t + 1) && BuddyModel.WellFormed(sys'.vm.zone) && SameKernel(sys, sys')
            && Pool(sys'.vm) < Pool(sys.vm) <= Pool(sys'.vm) + 2
  {
    hide VmOk, Invariant, GrowOne, SysSbrk, Pool, Translate, BuddyModel.WellFormed, MappedPages, IsRoot, ProcOk;
    SysProcs(sys, root);
    SbrkOnePage(sys.vm, root, t);
    GrowKeepsRest(sys.vm, root, t, sys.kernelRoot, sys.kernelEnd);
  }

  lemma RunCons(sys: Sys, op: SysOp, ops: seq<SysOp>)
    requires SysOk(sys) && Legal(sys, op)
    ensures Perform(sys, op).SysHalt? ==> LegalRun(sys, [op] + ops) && RunSys(sys, [op] + ops).SysHalt?
    ensures Perform(sys, op).SysDone? && LegalRun(Perform(sys, op).sys, ops) ==>
              LegalRun(sys, [op] + ops) && RunSys(sys, [op] + ops) == RunSys(Perform(sys, op).sys, ops)
  {
    hide SysOk, Legal, Perform;
    assert ([op] + ops)[0] == op && ([op] + ops)[1..] == ops;
  }

  /** Growing one page at a time, until the next process can be started but not finished. */
  lemma {:induction false} HaltAhead(sys: Sys, root: nat, t: nat, op: SysOp) returns (ops: seq<SysOp>)
    requires SysOk(sys) && Growing(sys, root, t) && EmptySpawn(op) && BuddyModel.WellFormed(sys.vm.zone)
    requires Lo(sys, op) <= Pool(sys.vm) <= HEAP_PAGES - t
    ensures LegalRun(sys, ops) && RunSys(sys, ops).SysHalt?
    decreases Pool(sys.vm)
  {
    GrowingSize(sys, root, t);
    EmptyIsLegal(sys, op);
    hide SysOk, Growing, Legal, Perform, Lo, Hi, Pool, BuddyModel.WellFormed, LegalRun, RunSys, SameKernel,
         EmptySpawn;
    Thresholds(sys, op);
    EmptySpawnIs(op);
    if Pool(sys.vm) < Hi(sys, op) {
      SpawnHaltsNow(sys, op);
      RunCons(sys, op, []);
      ops := [op] + [];
    } else {
      GrowStep(sys, root, t);
      var sys' := Perform(sys, SbrkOp(root, PAGE)).sys;
      SameNeeds(sys, sys', op);
      var rest := HaltAhead(sys', root, t + 1, op);
      RunCons(sys, SbrkOp(root, PAGE), rest);
      ops := [SbrkOp(root, PAGE)] + rest;
    }
  }

  lemma GrowingSize(sys: Sys, root: nat, t: nat)
    requires Growing(sys, root, t)
    ensures sys.vm.zone.n % 1024 == 0
  {
  }

  lemma EmptySpawnIs(op: SysOp)
    requires EmptySpawn(op)
    ensures op.Spawn?
  {
  }

  lemma SpawnHaltsNow(sys: Sys, op: SysOp)
    requires SysOk(sys) && BuddyModel.WellFormed(sys.vm.zone) && EmptySpawn(op) && Legal(sys, op)
    requires sys.vm.zone.n % 1024 == 0 && Lo(sys, op) <= Pool(sys.vm) < Hi(sys, op)
    ensures Perform(sys, op).SysHalt?
  {
    assert PagesFor(0) == 0;
    hide SysOk, Legal, Perform, NeededEarly, NeededInAll, Pool, BuddyModel.WellFormed, PagesFor;
    PerformHaltsExactly(sys, op);
  }

  // ----- filling memory with processes

  /** A process created with enough pages. */
  lemma SpawnStep(sys: Sys, op: SysOp) returns (root: nat)
    requires SysOk(sys) && BuddyModel.WellFormed(sys.vm.zone) && EmptySpawn(op)
    requires sys.vm.zone.n % 1024 == 0 && Pool(sys.vm) >= Ample(sys)
    ensures Legal(sys, op) && Perform(sys, op).SysDone?
    ensures var sys' := Perform(sys, op).sys;
            && Growing(sys', root, 0) && BuddyModel.WellFormed(sys'.vm.zone) && SameKernel(sys, sys')
            && Pool(sys'.vm) < Pool(sys.vm) <= Pool(sys'.vm) + Ample(sys)
  {
    EmptyIsLegal(sys, op);
    AmpleSuffices(sys, op);
    Thresholds(sys, op);
    SysParts(sys, op);
    hide VmOk, Invariant, CreateProc, Pool, Translate, BuddyModel.WellFormed, MappedPages, PlacesOk, EmptySpawn,
         Legal, SysOk, Perform, NeededEarly, NeededInAll, Ample, Growing;
    SpawnParts(sys.vm, PlacesOf(sys, op));
    root := CreateProc(sys.vm, PlacesOf(sys, op), []).proc.root;
    SpawnOutcome(sys, op);
    NewlyGrowing(Perform(sys, op).sys, root);
  }

  lemma NewlyGrowing(sys: Sys, root: nat)
    requires SysOk(sys) && sys.vm.zone.n % 1024 == 0 && root in sys.procs && sys.procs[root] == Proc(root, 0, 0)
    requires root != sys.kernelRoot && Translate(sys.vm.tables, root, STACK_PAGE).Some?
    ensures Growing(sys, root, 0)
  {
    hide SysOk, Translate;
  }

  lemma SysParts(sys: Sys, op: SysOp)
    requires SysOk(sys) && EmptySpawn(op)
    ensures VmOk(sys.vm) && Invariant(sys.vm.zone) && PlacesOk(sys.vm, PlacesOf(sys, op))
  {
    hide VmOk, Invariant, Index;
  }

  lemma SpawnOutcome(sys: Sys, op: SysOp)
    requires SysOk(sys) && EmptySpawn(op) && Legal(sys, op) && CreateProc(sys.vm, PlacesOf(sys, op), []).CreatedProc?
    ensures var r := CreateProc(sys.vm, PlacesOf(sys, op), []);
            Perform(sys, op) == SysDone(sys.(vm := r.vm, procs := sys.procs[r.proc.root := r.proc]))
                && SysOk(Perform(sys, op).sys)
  {
    hide VmOk, Invariant, CreateProc, Above, PagesFor;
  }

  lemma SpawnParts(vm: Vm, pl: Places)
    requires VmOk(vm) && Invariant(vm.zone) && BuddyModel.WellFormed(vm.zone) && PlacesOk(vm, pl)
    requires Pool(vm) >= NeededInAll(vm.tables, pl, 0)
    ensures var r := CreateProc(vm, pl, []);
            && r.CreatedProc? && BuddyModel.WellFormed(r.vm.zone)
            && Pool(r.vm) + NeededInAll(vm.tables, pl, 0) == Pool(vm)
            && r.proc == Proc(r.proc.root, 0, 0) && r.vm.zone.n == vm.zone.n && r.proc.root != pl.kernelRoot
            && Translate(r.vm.tables, r.proc.root, STACK_PAGE).Some?
            && MappedPages(r.vm.tables, pl.kernelRoot, KERNEL_PAGE, pl.kernelEnd) ==
               MappedPages(vm.tables, pl.kernelRoot, KERNEL_PAGE, pl.kernelEnd)
  {
    NoPages();
    PlacesBound(vm, pl);
    hide VmOk, Invariant, CreateProc, Pool, Translate, BuddyModel.WellFormed, NeededEarly, NeededInAll, Starved,
         MappedPages, PagesFor, StackOk, IsRoot, OthersKept, Restored, PlacesOk, Early, PageCopied, LeafPte;
    CreateExactly(vm, pl, []);
    CreateKeeps(vm, pl, []);
    CreateImage(vm, pl, [], STACK_PAGE);
    var r := CreateProc(vm, pl, []);
    StackThere(r.vm, r.proc.root);
    KernelStill(vm, r.vm, pl.kernelRoot, pl.kernelEnd);
  }

  lemma NoPages()
    ensures PagesFor(0) == 0
  {
  }

  lemma StackThere(vm: Vm, root: nat)
    requires StackOk(vm, root)
    ensures Translate(vm.tables, root, STACK_PAGE).Some?
  {
    hide Translate;
  }

  lemma KernelStill(vm: Vm, v: Vm, src: nat, end: nat)
    requires Restored(vm, v) && IsRoot(vm, src) && end <= VPNS
    ensures MappedPages(v.tables, src, KERNEL_PAGE, end) == MappedPages(vm.tables, src, KERNEL_PAGE, end)
  {
    hide Translate, MappedPages;
    MappedSame(vm.tables, v.tables, src, KERNEL_PAGE, end);
  }

  /**
    Any number of create_proc() calls, then growth of the last process, then one
    more create_proc(): a legal run that halts.
   */
  lemma {:induction false} FillUp(sys: Sys, root: nat, spawn: nat -> SysOp, i: nat) returns (ops: seq<SysOp>)
    requires SysOk(sys) && Growing(sys, root, 0) && BuddyModel.WellFormed(sys.vm.zone)
    requires (forall j: nat :: EmptySpawn(spawn(j))) && Ample(sys) <= Pool(sys.vm) && 2 * Ample(sys) <= HEAP_PAGES
    ensures LegalRun(sys, ops) && RunSys(sys, ops).SysHalt?
    decreases Pool(sys.vm)
  {
    GrowingSize(sys, root, 0);
    hide SysOk, Growing, Legal, Perform, Lo, Hi, Pool, BuddyModel.WellFormed, LegalRun, RunSys, EmptySpawn,
         MappedPages;
    if Pool(sys.vm) < 2 * Ample(sys) {
      Thresholds(sys, spawn(i));
      AmpleSuffices(sys, spawn(i));
      ops := HaltAhead(sys, root, 0, spawn(i));
    } else {
      var next := SpawnStep(sys, spawn(i));
      var rest := FillUp(Perform(sys, spawn(i)).sys, next, spawn, i + 1);
      RunCons(sys, spawn(i), rest);
      ops := [spawn(i)] + rest;
    }
  }

  /**
    From every state with enough free pages, whatever places the processes get,
    some legal run halts.
   */
  lemma SomeLegalRunHalts(sys: Sys, spawn: nat -> SysOp) returns (ops: seq<SysOp>)
    requires SysOk(sys) && BuddyModel.WellFormed(sys.vm.zone) && sys.vm.zone.n % 1024 == 0
    requires (forall j: nat :: EmptySpawn(spawn(j))) && 2 * Ample(sys) <= Pool(sys.vm) && 2 * Ample(sys) <= HEAP_PAGES
    ensures LegalRun(sys, ops) && RunSys(sys, ops).SysHalt?
  {
    hide SysOk, Growing, Legal, Perform, Pool, BuddyModel.WellFormed, LegalRun, RunSys, EmptySpawn, MappedPages;
    var root := SpawnStep(sys, spawn(0));
    var rest := FillUp(Perform(sys, spawn(0)).sys, root, spawn, 1);
    RunCons(sys, spawn(0), rest);
    ops := [spawn(0)] + rest;
  }

  // ----- from boot

  lemma {:induction false} NothingMapped(t: map<nat, seq<nat>>, root: nat, p: nat, end: nat)
    requires forall q: nat :: Translate(t, root, q) == None
    ensures MappedPages(t, root, p, end) == []
    decreases end - p
  {
    hide Translate;
    if p < end { NothingMapped(t, root, p + 1, end); }
  }

  lemma BootPool(base: nat, n: nat, kernelRoot: nat, kernelEnd: nat)
    requires base + n == BuddyInit.USER_END / PAGE
    ensures var sys := BootSys(base, n, kernelRoot, kernelEnd);
            && BuddyModel.WellFormed(sys.vm.zone) && Pool(sys.vm) == n && sys.vm.zone.n == n && Ample(sys) == 10
  {
    BuddyInit.UserEndAligned(base, n);
    BuddyInit.InitPopulated(base, n);
    var sys := BootSys(base, n, kernelRoot, kernelEnd);
    EmptyRoot(sys.vm.tables, kernelRoot);
    hide BuddyInit.Init, BuddyInit.Populated, BuddyInit.Ascending, Aligned, FreeCount, Translate;
    NothingMapped(sys.vm.tables, kernelRoot, KERNEL_PAGE, kernelEnd);
    BootCount(base, n);
  }

  /** So from boot, for every whole number of order-10 blocks. */
  lemma BootRunHalts(base: nat, n: nat, kernelRoot: nat, kernelEnd: nat, spawn: nat -> SysOp) returns (ops: seq<SysOp>)
    requires base + n == BuddyInit.USER_END / PAGE && kernelRoot < base && kernelEnd <= VPNS
    requires n > 0 && n % 1024 == 0 && forall j: nat :: EmptySpawn(spawn(j))
    ensures var boot := BootSys(base, n, kernelRoot, kernelEnd);
            SysOk(boot) && LegalRun(boot, ops) && RunSys(boot, ops).SysHalt?
  {
    BootIsOk(base, n, kernelRoot, kernelEnd);
    BootPool(base, n, kernelRoot, kernelEnd);
    hide SysOk, Pool, BuddyModel.WellFormed, LegalRun, RunSys, BootSys, EmptySpawn, Ample;
    ops := SomeLegalRunHalts(BootSys(base, n, kernelRoot, kernelEnd), spawn);
  }
}
