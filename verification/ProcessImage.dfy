/**
  The memory side of create_proc() (kernel/proc.c): a page table with the pages of
  proc_t and of the kernel stack, the program, the user stack, the kernel's pages
  and the UART; and, when memory runs out half way, what free_proc() gives back, or
  where the machine stops. Where kzalloc() put proc_t and the stack is a parameter.
 */
module ProcessImage {
  import opened Basics
  import opened Bits
  import opened Sv39
  import opened BuddyModel
  import opened BuddyInvariant
  import opened BuddyCalls
  import opened PageTable
  import opened PageMap
  import opened UserMemory
  import opened Loader
  import opened KernelMappings
  import opened FreeTables

  const STACK_VA: nat := 0x77F_F000            // USER_STACK_BASE
  const STACK_PAGE: nat := 0x77FF              // its page number (StackPage)
  const KERNEL_PAGE: nat := 0x7f8_0000         // the page number of KERNEL_START_VA (KernelPages)

  const UART_VA: nat := 0xffff_ffff_1000_0000  // UART0
  const UART_PAGE: nat := 0x7f1_0000           // its page number (UartPage)
  const UART_FRAME: nat := 0x1_0000
  const UART_SLOT: nat := 508                  // its entry in the root
  const KERNEL_RW: nat := PTE_R + PTE_W

  lemma UartPage()
    ensures Vpn(UART_VA) == UART_PAGE && Index(UART_PAGE, 2) == UART_SLOT
    ensures USER_PAGES <= UART_PAGE < KERNEL_PAGE < VPNS
  {
  }

  lemma StackPage()
    ensures Vpn(STACK_VA) == STACK_PAGE
  {
  }

  datatype Created = CreateHalt | CreateFailed(vm: Vm) | CreatedProc(vm: Vm, proc: Proc, complete: bool)

  /** The kernel's table and end, and where kzalloc() put proc_t and the kernel stack. */
  datatype Places = Places(kernelRoot: nat, kernelEnd: nat, procPage: nat, procFrame: nat, kstackPage: nat,
      kstackFrame: nat)

  /** A page above the user range, outside the gigabyte of the UART. */
  predicate Above(p: nat) {
    USER_PAGES <= p < VPNS && Index(p, 2) != UART_SLOT
  }

  ghost predicate PlacesOk(vm: Vm, pl: Places) {
    match pl
    case Places(kernelRoot, kernelEnd, procPage, procFrame, kstackPage, kstackFrame) =>
      && IsRoot(vm, kernelRoot) && kernelEnd <= VPNS && Above(procPage) && Above(kstackPage)
      && procFrame * PAGE < WORD && kstackFrame * PAGE < WORD
  }

  datatype Stack = NoStack | StackUnmapped(vm: Vm, frame: nat) | StackAt(vm: Vm)

  /** The user stack: a page from the allocator, mapped below USER_END_VA. */
  function AddStack(vm: Vm, root: nat): (s: Stack)
    requires Invariant(vm.zone)
    ensures !s.NoStack? ==> Invariant(s.vm.zone)
  {
    match AllocPage(vm)
    case NoPage => NoStack
    case GotPage(v, g) =>
      match MapPage(v, root, STACK_PAGE, g, HEAP_PERM)
      case MapFailed(w) => StackUnmapped(w, g)
      case MapDone(w) => StackAt(w)
  }

  /** free_proc() on a page table: its tables are freed; pages already loaded stay live and belong to nobody. */
  function TakeDown(vm: Vm, root: nat): (r: Created)
    requires BuddyModel.WellFormed(vm.zone)
    ensures !r.CreatedProc?
  {
    match FreeTable(vm.tables, vm.zone, vm.base, root, 0, 2)
    case TreeFreed(z) => CreateFailed(vm.(zone := z, owner := Without(vm.owner, root)))
    case _ => CreateHalt
  }

  /** free_proc() when the stack page could not be mapped: that page goes first. */
  function GiveBack(vm: Vm, root: nat, frame: nat): (r: Created)
    requires BuddyModel.WellFormed(vm.zone)
    ensures !r.CreatedProc?
  {
    match FreeFrame(vm.zone, vm.base, frame)
    case FreeHalt => CreateHalt
    case Freed(z) => TakeDown(vm.(zone := z), root)
  }

  /** create_proc() after the program: the heap starts here, then the stack and the kernel's pages. */
  function FinishSpace(vm: Vm, root: nat, kernelRoot: nat, kernelEnd: nat, heap: nat): (r: Created)
    requires Invariant(vm.zone)
    ensures r.CreatedProc? ==> Invariant(r.vm.zone)
  {
    match AddStack(vm, root)
    case NoStack => TakeDown(vm, root)
    case StackUnmapped(x, g) => GiveBack(x, root, g)
    case StackAt(x) =>
      var c := CopyLoop(x, root, kernelRoot, KERNEL_PAGE, kernelEnd);
      CreatedProc(c.vm, Proc(root, heap, heap), c.complete)
  }

  /** create_proc() from the program to the kernel's pages. */
  function FillSpace(vm: Vm, root: nat, kernelRoot: nat, kernelEnd: nat, binary: seq<nat>): (r: Created)
    requires Invariant(vm.zone)
    ensures r.CreatedProc? ==> Invariant(r.vm.zone)
  {
    match Load(vm, root, 0, binary)
    case LoadFailed(u) => TakeDown(u, root)
    case LoadedTo(u, page) => FinishSpace(u, root, kernelRoot, kernelEnd, page * PAGE)
  }

  /** The pages of proc_t and of the kernel stack. */
  function MapProc(vm: Vm, root: nat, pl: Places): (r: MapOutcome)
    requires Invariant(vm.zone)
    ensures Invariant(r.vm.zone)
  {
    match MapPage(vm, root, pl.procPage, pl.procFrame, KERNEL_RW)
    case MapFailed(x) => MapFailed(x)
    case MapDone(x) => MapPage(x, root, pl.kstackPage, pl.kstackFrame, KERNEL_RW)
  }

  /** create_proc() up to the UART, in a new root. */
  function BeforeUart(vm: Vm, root: nat, pl: Places, binary: seq<nat>): (r: Created)
    requires Invariant(vm.zone)
    ensures r.CreatedProc? ==> Invariant(r.vm.zone)
  {
    match MapProc(vm, root, pl)
    case MapFailed(x) => TakeDown(x, root)
    case MapDone(x) => FillSpace(x, root, pl.kernelRoot, pl.kernelEnd, binary)
  }

  /** The UART's page; the machine stops when it cannot be mapped. */
  function AddUart(r: Created, root: nat): (u: Created)
    requires r.CreatedProc? ==> Invariant(r.vm.zone)
    ensures u.CreatedProc? ==> r.CreatedProc? && u.proc == r.proc && u.complete == r.complete
  {
    match r
    case CreateHalt => CreateHalt
    case CreateFailed(v) => CreateFailed(v)
    case CreatedProc(v, proc, complete) =>
      match MapPage(v, root, UART_PAGE, UART_FRAME, KERNEL_RW)
      case MapFailed(_) => CreateHalt
      case MapDone(w) => CreatedProc(w, proc, complete)
  }

  /** create_proc() */
  function CreateProc(vm: Vm, pl: Places, binary: seq<nat>): Created
    requires Invariant(vm.zone)
  {
    match AllocPage(vm)
    case NoPage => CreateFailed(vm)
    case GotPage(v, f) => AddUart(BeforeUart(v.(owner := v.owner[f := Root]), f, pl, binary), f)
  }

  // ----- a new root

  lemma AdoptRoot(vm: Vm, f: nat)
    requires VmOk(vm) && f !in vm.owner && LiveFrame(vm.zone, vm.base, f)
    requires f in vm.tables && vm.tables[f] == ZeroTable()
    ensures VmOk(vm.(owner := vm.owner[f := Root]))
  {
    var t, owner, owner' := vm.tables, vm.owner, vm.owner[f := Root];
    hide InvariantExcept, CoalescedExcept, Target, Translate;
    forall g: nat, i: nat | g in owner' && i < PTES ensures EntryOk(t, owner', g, i) {
      if g != f { assert EntryOk(t, owner, g, i); }
    }
    forall g | g in owner' ensures LinkOk(t, owner', g) {
      if g != f { assert LinkOk(t, owner, g); }
    }
  }

  /** Nothing is mapped in a zeroed root. */
  lemma EmptyRoot(t: map<nat, seq<nat>>, f: nat)
    requires f in t && t[f] == ZeroTable()
    ensures forall p: nat :: Translate(t, f, p) == None
  {
    hide Index;
  }

  /** alloc_pagetable() */
  lemma NewRoot(vm: Vm)
    requires VmOk(vm) && Invariant(vm.zone) && AllocPage(vm).GotPage?
    ensures var v, f := AllocPage(vm).vm, AllocPage(vm).frame;
            var w := v.(owner := v.owner[f := Root]);
            && VmOk(w) && Invariant(w.zone) && IsRoot(w, f) && !IsRoot(vm, f) && w.base <= f && w.zone.n == vm.zone.n
            && OthersKept(vm, w, f) && (forall p: nat :: Translate(w.tables, f, p) == None)
  {
    hide InvariantExcept, CoalescedExcept, TreesOk, Translate, AllocPage;
    AllocPageFresh(vm);
    var v, f := AllocPage(vm).vm, AllocPage(vm).frame;
    AdoptRoot(v, f);
    EmptyRoot(v.tables, f);
  }

  /** Every other space keeps its translations. */
  ghost predicate OthersKept(vm: Vm, vm': Vm, root: nat) {
    match vm
    case Vm(_, _, _, _, _) =>
      && (forall r: nat :: IsRoot(vm, r) && r != root ==> IsRoot(vm', r))
      && (forall r: nat, q: nat :: IsRoot(vm, r) && r != root && q < VPNS ==>
            Translate(vm'.tables, r, q) == Translate(vm.tables, r, q))
  }

  lemma OthersTrans(x: Vm, y: Vm, z: Vm, root: nat)
    requires OthersKept(x, y, root) && OthersKept(y, z, root)
    ensures OthersKept(x, z, root)
  {
    hide Translate;
  }

  lemma OutsideIsOthers(x: Vm, y: Vm, root: nat, a: nat, b: nat)
    requires SameOutside(x, y, root, a, b)
    ensures OthersKept(x, y, root)
  {
    hide Translate;
  }

  // ----- loading, also when it fails

  ghost predicate AllAccessible(vm: Vm, root: nat) {
    forall q: nat :: q < VPNS && Translate(vm.tables, root, q).Some? ==> !NoAccess(Translate(vm.tables, root, q).value)
  }

  lemma CodeIsAccessible(e: nat)
    requires PteFlags(e) == LeafFlags(CODE_PERM)
    ensures !NoAccess(e)
  {
    LeafFlagBits(CODE_PERM);
    assert Bit(CODE_PERM, 1) == 1;
    FlagBits(e, 1);
    assert Bit(e, 1) == 1;
  }

  lemma LoadOneAccessible(vm: Vm, root: nat, p: nat, chunk: seq<nat>)
    requires VmOk(vm) && Invariant(vm.zone) && IsRoot(vm, root) && p < USER_PAGES && |chunk| <= PAGE
    requires Translate(vm.tables, root, p) == None && AllAccessible(vm, root)
    ensures AllAccessible(LoadOne(vm, root, p, chunk).vm, root)
  {
    hide VmOk, Invariant, LoadOne, Translate, SameOutside, KeepsBytes, LiveFrame, NoAccess, Padded, PteFlags,
         LeafFlags, IsRoot;
    LoadOneHolds(vm, root, p, chunk);
    var v := LoadOne(vm, root, p, chunk).vm;
    OutsideAt(vm, v, root, p, p + 1);
    if Translate(v.tables, root, p).Some? { CodeIsAccessible(Translate(v.tables, root, p).value); }
  }

  lemma {:induction false} LoadAccessible(vm: Vm, root: nat, p: nat, bytes: seq<nat>)
    requires VmOk(vm) && Invariant(vm.zone) && IsRoot(vm, root) && p + PagesFor(|bytes|) <= USER_PAGES
    requires NoneIn(vm, root, p, p + PagesFor(|bytes|)) && AllAccessible(vm, root)
    ensures AllAccessible(Load(vm, root, p, bytes).vm, root)
    decreases |bytes|
  {
    hide VmOk, Invariant, LoadOne, Translate, SameOutside, KeepsBytes, PageHolds, AllAccessible, IsRoot;
    if bytes != [] {
      var n := ChunkSize(bytes);
      LoadOneHolds(vm, root, p, bytes[..n]);
      LoadOneAccessible(vm, root, p, bytes[..n]);
      var r := LoadOne(vm, root, p, bytes[..n]);
      LoadRest(vm, r.vm, root, p, bytes);
      if r.LoadedTo? { LoadAccessible(r.vm, root, p + 1, bytes[n..]); }
    }
  }

  /** The load into a new root, whether it succeeds or not. */
  lemma LoadNewRoot(vm: Vm, f: nat, binary: seq<nat>)
    requires VmOk(vm) && Invariant(vm.zone) && IsRoot(vm, f) && PagesFor(|binary|) * PAGE <= USER_HEAP_END
    requires NoneIn(vm, f, 0, USER_PAGES) && AllAccessible(vm, f)
    ensures var r := Load(vm, f, 0, binary);
            && VmOk(r.vm) && Invariant(r.vm.zone) && AllAccessible(r.vm, f) && KeepsBytes(vm, r.vm)
            && SameOutside(vm, r.vm, f, 0, PagesFor(|binary|)) && PagesFor(|binary|) < STACK_PAGE
            && (r.LoadedTo? ==> r.page == PagesFor(|binary|))
            && (r.LoadedTo? ==> forall j: nat :: j * PAGE < |binary| ==> HoldsAt(r.vm, f, 0, binary, j))
  {
    assert PagesFor(|binary|) < STACK_PAGE;
    hide VmOk, Invariant, Load, Translate, KeepsBytes, HoldsAt, PagesFor, SameOutside, AllAccessible;
    LoadHolds(vm, f, 0, binary);
    LoadAccessible(vm, f, 0, binary);
  }

  // ----- the stack

  /** The stack page: nothing but its own page changes, and it is new, zeroed and writable. */
  lemma StackKeeps(vm: Vm, root: nat)
    requires VmOk(vm) && Invariant(vm.zone) && IsRoot(vm, root) && Translate(vm.tables, root, STACK_PAGE) == None
    ensures match AddStack(vm, root)
            case NoStack => true
            case StackUnmapped(x, g) =>
              && VmOk(x) && BuddyModel.WellFormed(x.zone)
              && SameOutside(vm, x, root, 0, 0) && KeepsBytes(vm, x) && Unowned(x, g)
            case StackAt(x) =>
              && VmOk(x) && Invariant(x.zone) && KeepsBytes(vm, x)
              && SameOutside(vm, x, root, STACK_PAGE, STACK_PAGE + 1)
              && StackOk(x, root)
  {
    hide Translate, TreesOk, InvariantExcept, CoalescedExcept, LiveFrame, LeafPte;
    if AllocPage(vm).GotPage? {
      AllocPageFresh(vm);
      AllocKeepsBytes(vm);
      var v, g := AllocPage(vm).vm, AllocPage(vm).frame;
      ExtendsAt(vm, v, root, STACK_PAGE);
      hide VmOk, AllocPage, BuddyModel.WellFormed;
      StackMapped(vm, v, root, g);
    }
  }

  ghost predicate StackOk(vm: Vm, root: nat) {
    match Translate(vm.tables, root, STACK_PAGE)
    case None => false
    case Some(e) =>
      && PteFlags(e) == LeafFlags(HEAP_PERM) && Rights(e, 1, 1, 0, 1) && Bytes(vm, Target(e)) == ZeroBytes()
      && BuddyModel.WellFormed(vm.zone) && LiveFrame(vm.zone, vm.base, Target(e))
  }

  lemma StackMapped(vm: Vm, v: Vm, root: nat, g: nat)
    requires VmOk(v) && Invariant(v.zone) && BuddyModel.WellFormed(v.zone)
    requires IsRoot(vm, root) && Extends(vm, v) && KeepsBytes(vm, v)
    requires Unowned(v, g) && g * PAGE < PHYS && Bytes(v, g) == ZeroBytes()
    requires Translate(v.tables, root, STACK_PAGE) == None
    ensures match MapPage(v, root, STACK_PAGE, g, HEAP_PERM)
            case MapFailed(x) =>
              && VmOk(x) && BuddyModel.WellFormed(x.zone)
              && SameOutside(vm, x, root, 0, 0) && KeepsBytes(vm, x) && Unowned(x, g)
            case MapDone(x) =>
              && VmOk(x) && KeepsBytes(vm, x)
              && SameOutside(vm, x, root, STACK_PAGE, STACK_PAGE + 1) && StackOk(x, root)
  {
    var r := MapPage(v, root, STACK_PAGE, g, HEAP_PERM);
    RootStays(vm, v, root);
    hide VmOk, Translate, MapPage, Invariant, LeafPte, Target, SameOutside, KeepsBytes, LiveFrame,
         BuddyModel.WellFormed, Extends, StackOk;
    MapRefines(v, root, STACK_PAGE, g, HEAP_PERM);
    MapKeepsBytes(v, root, STACK_PAGE, g, HEAP_PERM);
    KeepsTrans(vm, v, r.vm);
    VmZone(r.vm);
    KeepsAt(v, r.vm, g);
    if r.MapFailed? {
      ExtendsTrans(vm, v, r.vm);
      ExtendsIsOutside(vm, r.vm, root, 0, 0);
      MapUnowned(v, r.vm, g);
    } else {
      ExtendsIsOutside(vm, v, root, STACK_PAGE, STACK_PAGE + 1);
      ExceptIsOutside(v, r.vm, root, STACK_PAGE);
      OutsideTrans(vm, v, r.vm, root, STACK_PAGE, STACK_PAGE + 1);
      StackIs(r.vm, root, g);
    }
  }

  lemma StackIs(vm: Vm, root: nat, g: nat)
    requires Translate(vm.tables, root, STACK_PAGE) == Some(LeafPte(g * PAGE, HEAP_PERM)) && g * PAGE < PHYS
    requires Bytes(vm, g) == ZeroBytes() && BuddyModel.WellFormed(vm.zone) && LiveFrame(vm.zone, vm.base, g)
    ensures StackOk(vm, root)
  {
    hide Translate, LeafPte, Target, LiveFrame, Rights, PteFlags, LeafFlags, Bytes, BuddyModel.WellFormed;
    LeafPteRoundTrip(g, HEAP_PERM);
    HeapRights(LeafPte(g * PAGE, HEAP_PERM));
  }

  lemma KeepsAt(vm: Vm, vm': Vm, f: nat)
    requires KeepsBytes(vm, vm') && BuddyModel.WellFormed(vm.zone) && LiveFrame(vm.zone, vm.base, f)
    ensures BuddyModel.WellFormed(vm'.zone) && LiveFrame(vm'.zone, vm'.base, f) && Bytes(vm', f) == Bytes(vm, f)
    ensures vm'.base == vm.base && vm'.zone.n == vm.zone.n
  {
  }

  // ----- taking a space apart again

  lemma TakeDownKeeps(vm: Vm, f: nat)
    requires VmOk(vm) && BuddyModel.WellFormed(vm.zone) && IsRoot(vm, f) && vm.base <= f && AllAccessible(vm, f)
    ensures match TakeDown(vm, f)
            case CreateHalt => vm.zone.n % 1024 != 0
            case CreateFailed(v) => VmOk(v) && v.zone.n == vm.zone.n && OthersKept(vm, v, f)
            case CreatedProc(_, _, _) => false
  {
    hide VmOk, FreeTable, Translate, LiveFrame, NoAccess, BuddyModel.WellFormed;
    FreePagetableExact(vm, f);
  }

  /** Freeing a live page that nobody owns. */
  lemma FreeUnowned(vm: Vm, g: nat)
    requires VmOk(vm) && BuddyModel.WellFormed(vm.zone) && Unowned(vm, g)
    ensures match FreeFrame(vm.zone, vm.base, g)
            case FreeHalt => vm.zone.n % 1024 != 0
            case Freed(z) => VmOk(vm.(zone := z)) && z.n == vm.zone.n
  {
    hide InvariantExcept, CoalescedExcept, TreesOk, LiveFrame, FreeFrame;
    FreeLive(vm.zone, vm.base, g);
    if FreeFrame(vm.zone, vm.base, g).Freed? {
      var z := FreeFrame(vm.zone, vm.base, g).zone;
      forall f | f in vm.owner
        ensures Held(z, vm.base, vm.owner[f], f)
      {
        assert Held(vm.zone, vm.base, vm.owner[f], f);
      }
    }
  }

  lemma GiveBackKeeps(vm: Vm, f: nat, g: nat)
    requires VmOk(vm) && BuddyModel.WellFormed(vm.zone) && IsRoot(vm, f)
    requires vm.base <= f && AllAccessible(vm, f) && Unowned(vm, g)
    ensures match GiveBack(vm, f, g)
            case CreateHalt => vm.zone.n % 1024 != 0
            case CreateFailed(v) => VmOk(v) && v.zone.n == vm.zone.n && OthersKept(vm, v, f)
            case CreatedProc(_, _, _) => false
  {
    hide VmOk, BuddyModel.WellFormed, FreeFrame, TakeDown, LiveFrame, Translate, NoAccess;
    FreeUnowned(vm, g);
    if FreeFrame(vm.zone, vm.base, g).Freed? {
      TakeDownKeeps(vm.(zone := FreeFrame(vm.zone, vm.base, g).zone), f);
    }
  }

  // ----- the kernel's pages

  lemma {:induction false} CopyKeepsBytes(vm: Vm, dst: nat, src: nat, p: nat, end: nat)
    requires VmOk(vm) && Invariant(vm.zone) && IsRoot(vm, dst) && IsRoot(vm, src) && USER_PAGES <= p && end <= VPNS
    ensures KeepsBytes(vm, CopyLoop(vm, dst, src, p, end).vm)
    decreases end - p
  {
    hide VmOk, Translate, SameOutside, InvariantExcept, IsRoot, KeepsBytes, MapPage, SourceEntry, PageCopied;
    KeepsRefl(vm);
    if p < end {
      var c := CopyOne(vm, dst, src, p);
      CopyOneRefines(vm, dst, src, p);
      OutsideOther(vm, c.vm, dst, p, p + 1, dst, p + 1);
      OutsideOther(vm, c.vm, dst, p, p + 1, src, p + 1);
      match SourceEntry(vm, src, p) {
        case None =>
        case Some(e) => MapKeepsBytes(vm, dst, p, Target(e), PteFlags(e));
      }
      CopyKeepsBytes(c.vm, dst, src, p + 1, end);
      KeepsTrans(vm, c.vm, CopyLoop(c.vm, dst, src, p + 1, end).vm);
    }
  }

  // ----- create_proc

  /** What create_proc() may change: one new space, or nothing that anybody can see. */
  ghost predicate FillOk(vm: Vm, f: nat, binary: seq<nat>, r: Created) {
    match r
    case CreateHalt => vm.zone.n % 1024 != 0
    case CreateFailed(v) => VmOk(v) && v.zone.n == vm.zone.n && OthersKept(vm, v, f)
    case CreatedProc(v, proc, _) =>
      && VmOk(v) && v.zone.n == vm.zone.n && OthersKept(vm, v, f) && IsRoot(v, f)
      && proc == Proc(f, PagesFor(|binary|) * PAGE, PagesFor(|binary|) * PAGE)
  }

  lemma AccessibleSame(vm: Vm, vm': Vm, root: nat)
    requires SameOutside(vm, vm', root, 0, 0) && IsRoot(vm, root) && AllAccessible(vm, root)
    ensures AllAccessible(vm', root) && IsRoot(vm', root)
  {
    hide Translate, NoAccess;
  }

  lemma FillKeeps(vm: Vm, f: nat, kernelRoot: nat, kernelEnd: nat, binary: seq<nat>)
    requires VmOk(vm) && Invariant(vm.zone) && IsRoot(vm, f) && IsRoot(vm, kernelRoot) && vm.base <= f
    requires kernelEnd <= VPNS && PagesFor(|binary|) * PAGE <= USER_HEAP_END
    requires NoneIn(vm, f, 0, USER_PAGES) && AllAccessible(vm, f)
    ensures FillOk(vm, f, binary, FillSpace(vm, f, kernelRoot, kernelEnd, binary))
  {
    hide VmOk, Invariant, Load, AddStack, TakeDown, GiveBack, CopyLoop, Translate, AllAccessible, PagesFor,
         SameOutside, KeepsBytes, HoldsAt, BuddyModel.WellFormed, IsRoot, OthersKept, StackOk, Unowned, NoneIn;
    NoneAt(vm, f, 0, USER_PAGES, STACK_PAGE);
    LoadNewRoot(vm, f, binary);
    var n := PagesFor(|binary|);
    var u := Load(vm, f, 0, binary).vm;
    StepKept(vm, u, f, 0, n);
    VmZone(u);
    if Load(vm, f, 0, binary).LoadFailed? {
      FillFails(vm, u, f, binary, TakeDown(u, f));
    } else {
      OutsideOther(vm, u, f, 0, n, f, STACK_PAGE);
      StackKeeps(u, f);
      match AddStack(u, f)
      case NoStack => FillFails(vm, u, f, binary, TakeDown(u, f));
      case StackUnmapped(x, g) =>
        StepKept(u, x, f, 0, 0);
        OthersTrans(vm, u, x, f);
        AccessibleSame(u, x, f);
        GiveBackKeeps(x, f, g);
        FillTrans(vm, x, f, binary, GiveBack(x, f, g));
      case StackAt(x) =>
        StepKept(u, x, f, STACK_PAGE, STACK_PAGE + 1);
        OthersTrans(vm, u, x, f);
        OutsideOther(vm, u, f, 0, n, kernelRoot, VPNS);
        OutsideOther(u, x, f, STACK_PAGE, STACK_PAGE + 1, kernelRoot, VPNS);
        CopyRefines(x, f, kernelRoot, KERNEL_PAGE, kernelEnd);
        CopyKeepsBytes(x, f, kernelRoot, KERNEL_PAGE, kernelEnd);
        StepKept(x, CopyLoop(x, f, kernelRoot, KERNEL_PAGE, kernelEnd).vm, f, KERNEL_PAGE, kernelEnd);
        OthersTrans(vm, x, CopyLoop(x, f, kernelRoot, KERNEL_PAGE, kernelEnd).vm, f);
    }
  }

  lemma NoneAt(vm: Vm, f: nat, a: nat, b: nat, q: nat)
    requires NoneIn(vm, f, a, b) && a <= q < b
    ensures Translate(vm.tables, f, q) == None
  {
    hide Translate;
  }

  lemma StepKept(x: Vm, y: Vm, f: nat, a: nat, b: nat)
    requires SameOutside(x, y, f, a, b) && KeepsBytes(x, y) && IsRoot(x, f)
    ensures OthersKept(x, y, f) && IsRoot(y, f) && y.base == x.base && y.zone.n == x.zone.n
  {
    OutsideIsOthers(x, y, f, a, b);
    hide Translate, LiveFrame;
  }

  lemma FillTrans(vm: Vm, x: Vm, f: nat, binary: seq<nat>, r: Created)
    requires OthersKept(vm, x, f) && x.zone.n == vm.zone.n && FillOk(x, f, binary, r)
    ensures FillOk(vm, f, binary, r)
  {
    hide VmOk, OthersKept, PagesFor;
    if !r.CreateHalt? { OthersTrans(vm, x, r.vm, f); }
  }

  lemma FillFails(vm: Vm, u: Vm, f: nat, binary: seq<nat>, r: Created)
    requires VmOk(u) && BuddyModel.WellFormed(u.zone) && IsRoot(u, f) && u.base <= f && AllAccessible(u, f)
    requires OthersKept(vm, u, f) && u.zone.n == vm.zone.n && r == TakeDown(u, f)
    ensures FillOk(vm, f, binary, r)
  {
    hide VmOk, OthersKept, PagesFor, TakeDown, AllAccessible, BuddyModel.WellFormed;
    TakeDownKeeps(u, f);
    FillTrans(vm, u, f, binary, r);
  }

  // ----- the pages above the user range

  lemma RwIsAccessible(frame: nat)
    requires frame * PAGE < WORD
    ensures !NoAccess(LeafPte(frame * PAGE, KERNEL_RW))
  {
    LeafPteRoundTrip(frame, KERNEL_RW);
    var e := LeafPte(frame * PAGE, KERNEL_RW);
    hide LeafPte, Target, Pte2Pa;
    LeafFlagBits(KERNEL_RW);
    assert Bit(KERNEL_RW, 1) == 1;
    FlagBits(e, 1);
    assert Bit(e, 1) == 1;
  }

  /** What map_page() leaves at its page. */
  function Bound(before: Option<nat>, e: nat): Option<nat> {
    if before.Some? then before else Some(e)
  }

  /** map_page() with R and W above the user range. */
  lemma SuperMap(vm: Vm, root: nat, p: nat, frame: nat)
    requires VmOk(vm) && Invariant(vm.zone) && IsRoot(vm, root) && USER_PAGES <= p < VPNS && frame * PAGE < WORD
    ensures var r := MapPage(vm, root, p, frame, KERNEL_RW);
            && VmOk(r.vm) && KeepsBytes(vm, r.vm) && SameOutside(vm, r.vm, root, p, p + 1)
            && (AllAccessible(vm, root) ==> AllAccessible(r.vm, root))
            && Translate(r.vm.tables, root, p) ==
                 if r.MapDone? then Bound(Translate(vm.tables, root, p), LeafPte(frame * PAGE, KERNEL_RW))
                 else Translate(vm.tables, root, p)
  {
    hide VmOk, Translate, MapPage, Invariant, SameOutside, LeafPte, KeepsBytes, Extends, NoAccess;
    MapRefines(vm, root, p, frame, KERNEL_RW);
    MapKeepsBytes(vm, root, p, frame, KERNEL_RW);
    RwIsAccessible(frame);
    var r := MapPage(vm, root, p, frame, KERNEL_RW);
    if r.MapFailed? || Translate(vm.tables, root, p).Some? {
      ExtendsIsOutside(vm, r.vm, root, p, p + 1);
      ExtendsAt(vm, r.vm, root, p);
    } else {
      ExceptIsOutside(vm, r.vm, root, p);
    }
    OutsideAt(vm, r.vm, root, p, p + 1);
  }

  /** What the root maps once proc_t and the kernel stack are in. */
  function Early(pl: Places, q: nat): Option<nat> {
    if q == pl.procPage then Some(LeafPte(pl.procFrame * PAGE, KERNEL_RW))
    else if q == pl.kstackPage then Some(LeafPte(pl.kstackFrame * PAGE, KERNEL_RW))
    else None
  }

  /** The two mappings, in a root that maps nothing. */
  lemma ProcMapped(vm: Vm, root: nat, pl: Places)
    requires VmOk(vm) && Invariant(vm.zone) && IsRoot(vm, root) && PlacesOk(vm, pl)
    requires forall p: nat :: Translate(vm.tables, root, p) == None
    ensures var r := MapProc(vm, root, pl);
            && VmOk(r.vm) && KeepsBytes(vm, r.vm) && SameOutside(vm, r.vm, root, USER_PAGES, VPNS)
            && AllAccessible(r.vm, root) && IsRoot(r.vm, root) && IsRoot(r.vm, pl.kernelRoot)
            && (r.MapDone? ==> forall q: nat :: q < VPNS ==> Translate(r.vm.tables, root, q) == Early(pl, q))
  {
    hide VmOk, Translate, MapPage, Invariant, SameOutside, LeafPte, KeepsBytes, NoAccess, Index;
    SuperMap(vm, root, pl.procPage, pl.procFrame);
    var x := MapPage(vm, root, pl.procPage, pl.procFrame, KERNEL_RW).vm;
    OutsideAt(vm, x, root, pl.procPage, pl.procPage + 1);
    OutsideOther(vm, x, root, pl.procPage, pl.procPage + 1, pl.kernelRoot, VPNS);
    OutsideWiden(vm, x, root, pl.procPage, pl.procPage + 1, USER_PAGES, VPNS);
    if MapPage(vm, root, pl.procPage, pl.procFrame, KERNEL_RW).MapDone? {
      SuperMap(x, root, pl.kstackPage, pl.kstackFrame);
      var y := MapPage(x, root, pl.kstackPage, pl.kstackFrame, KERNEL_RW).vm;
      OutsideAt(x, y, root, pl.kstackPage, pl.kstackPage + 1);
      OutsideOther(x, y, root, pl.kstackPage, pl.kstackPage + 1, pl.kernelRoot, VPNS);
      OutsideWiden(x, y, root, pl.kstackPage, pl.kstackPage + 1, USER_PAGES, VPNS);
      OutsideTrans(vm, x, y, root, USER_PAGES, VPNS);
      KeepsTrans(vm, x, y);
    }
  }

  lemma NoneBelow(vm: Vm, v: Vm, root: nat)
    requires SameOutside(vm, v, root, USER_PAGES, VPNS) && IsRoot(vm, root)
    requires forall p: nat :: Translate(vm.tables, root, p) == None
    ensures NoneIn(v, root, 0, USER_PAGES)
  {
    hide Translate;
  }

  lemma BeforeKeeps(vm: Vm, f: nat, pl: Places, binary: seq<nat>)
    requires VmOk(vm) && Invariant(vm.zone) && IsRoot(vm, f) && PlacesOk(vm, pl) && vm.base <= f
    requires PagesFor(|binary|) * PAGE <= USER_HEAP_END && forall p: nat :: Translate(vm.tables, f, p) == None
    ensures FillOk(vm, f, binary, BeforeUart(vm, f, pl, binary))
  {
    PlacesBound(vm, pl);
    hide VmOk, Invariant, MapProc, FillSpace, TakeDown, Translate, AllAccessible, PagesFor, SameOutside, KeepsBytes,
         BuddyModel.WellFormed, IsRoot, OthersKept, Early, PlacesOk, FillOk, NoneIn;
    ProcMapped(vm, f, pl);
    var x := MapProc(vm, f, pl).vm;
    StepKept(vm, x, f, USER_PAGES, VPNS);
    VmZone(x);
    if MapProc(vm, f, pl).MapFailed? {
      FillFails(vm, x, f, binary, TakeDown(x, f));
    } else {
      NoneBelow(vm, x, f);
      FillKeeps(x, f, pl.kernelRoot, pl.kernelEnd, binary);
      FillTrans(vm, x, f, binary, FillSpace(x, f, pl.kernelRoot, pl.kernelEnd, binary));
    }
  }

  lemma PlacesBound(vm: Vm, pl: Places)
    requires PlacesOk(vm, pl)
    ensures IsRoot(vm, pl.kernelRoot) && pl.kernelEnd <= VPNS
  {
  }

  /** The UART's mapping fails in an otherwise complete process. */
  ghost predicate UartFails(r: Created, root: nat)
    requires r.CreatedProc? ==> Invariant(r.vm.zone)
  {
    r.CreatedProc? && MapPage(r.vm, root, UART_PAGE, UART_FRAME, KERNEL_RW).MapFailed?
  }

  lemma UartKeeps(vm: Vm, f: nat, binary: seq<nat>, r: Created)
    requires FillOk(vm, f, binary, r) && (r.CreatedProc? ==> Invariant(r.vm.zone))
    ensures match AddUart(r, f)
            case CreateHalt => vm.zone.n % 1024 != 0 || UartFails(r, f)
            case CreateFailed(v) => FillOk(vm, f, binary, CreateFailed(v)) && !UartFails(r, f)
            case CreatedProc(v, proc, c) => FillOk(vm, f, binary, CreatedProc(v, proc, c)) && !UartFails(r, f)
  {
    hide VmOk, Invariant, Translate, AllAccessible, PagesFor, SameOutside, KeepsBytes, IsRoot, OthersKept, MapPage,
         LeafPte;
    if r.CreatedProc? {
      UartPage();
      SuperMap(r.vm, f, UART_PAGE, UART_FRAME);
      var w := MapPage(r.vm, f, UART_PAGE, UART_FRAME, KERNEL_RW).vm;
      StepKept(r.vm, w, f, UART_PAGE, UART_PAGE + 1);
      OthersTrans(vm, r.vm, w, f);
    }
  }

  /** create_proc() in the state that alloc_pagetable() leaves. */
  function NewSpace(vm: Vm): Vm
    requires Invariant(vm.zone) && AllocPage(vm).GotPage?
  {
    AllocPage(vm).vm.(owner := AllocPage(vm).vm.owner[AllocPage(vm).frame := Root])
  }

  /** The UART's mapping is reached and fails. */
  ghost predicate Starved(vm: Vm, pl: Places, binary: seq<nat>)
    requires Invariant(vm.zone)
  {
    && AllocPage(vm).GotPage? && Invariant(NewSpace(vm).zone)
    && UartFails(BeforeUart(NewSpace(vm), AllocPage(vm).frame, pl, binary), AllocPage(vm).frame)
  }

  /**
    create_proc() keeps the ownership invariant and every translation of every
    other space, whether it succeeds or runs out of memory half way. It can halt
    only because the UART's page cannot be mapped, or if the allocator's size is
    not a whole number of order-10 blocks.
   */
  lemma CreateKeeps(vm: Vm, pl: Places, binary: seq<nat>)
    requires VmOk(vm) && Invariant(vm.zone) && PlacesOk(vm, pl) && PagesFor(|binary|) * PAGE <= USER_HEAP_END
    ensures match CreateProc(vm, pl, binary)
            case CreateHalt => vm.zone.n % 1024 != 0 || Starved(vm, pl, binary)
            case CreateFailed(v) => VmOk(v) && v.zone.n == vm.zone.n && Restored(vm, v) && !Starved(vm, pl, binary)
            case CreatedProc(v, proc, _) =>
              && VmOk(v) && v.zone.n == vm.zone.n && Restored(vm, v) && IsRoot(v, proc.root) && !IsRoot(vm, proc.root)
              && proc.heapStart == proc.heapEnd == PagesFor(|binary|) * PAGE && !Starved(vm, pl, binary)
  {
    hide VmOk, Invariant, AllocPage, BeforeUart, Translate, OthersKept, PagesFor, Restored, PlacesOk, UartFails,
         IsRoot;
    RestoredRefl(vm);
    if AllocPage(vm).GotPage? {
      NewRoot(vm);
      var f, w := AllocPage(vm).frame, NewSpace(vm);
      PlacesKept(vm, w, f, pl);
      BeforeKeeps(w, f, pl, binary);
      UartKeeps(w, f, binary, BeforeUart(w, f, pl, binary));
      var r := AddUart(BeforeUart(w, f, pl, binary), f);
      hide AddUart;
      if !r.CreateHalt? {
        OthersTrans(vm, w, r.vm, f);
        OthersAreAll(vm, r.vm, f);
      }
    }
  }

  lemma PlacesKept(vm: Vm, w: Vm, f: nat, pl: Places)
    requires PlacesOk(vm, pl) && OthersKept(vm, w, f) && !IsRoot(vm, f)
    ensures PlacesOk(w, pl)
  {
    hide Translate;
  }

  lemma RestoredRefl(vm: Vm)
    ensures Restored(vm, vm)
  {
  }

  lemma OthersAreAll(vm: Vm, v: Vm, f: nat)
    requires OthersKept(vm, v, f) && !IsRoot(vm, f)
    ensures Restored(vm, v)
  {
    hide Translate;
  }

  // ----- the image of a new process

  /** What filling a space makes of its page q. */
  ghost predicate FillPage(vm: Vm, v: Vm, f: nat, kernelRoot: nat, kernelEnd: nat, pages: nat, complete: bool, q: nat) {
    if q < pages then Translate(v.tables, f, q).Some?
    else if q == STACK_PAGE then StackOk(v, f)
    else if KERNEL_PAGE <= q < kernelEnd then
      PageCopied(Translate(vm.tables, kernelRoot, q), Translate(vm.tables, f, q), Translate(v.tables, f, q), complete)
    else Translate(v.tables, f, q) == Translate(vm.tables, f, q)
  }

  lemma HoldsStill(x: Vm, y: Vm, f: nat, binary: seq<nat>, j: nat)
    requires j * PAGE < |binary| && HoldsAt(x, f, 0, binary, j) && KeepsBytes(x, y)
    requires Translate(y.tables, f, j) == Translate(x.tables, f, j)
    ensures HoldsAt(y, f, 0, binary, j)
  {
    hide Translate, PageHolds, KeepsBytes;
    HoldsAfter(x, y, f, j, binary[j * PAGE..][..ChunkSize(binary[j * PAGE..])]);
  }

  lemma StackStill(x: Vm, y: Vm, f: nat)
    requires StackOk(x, f) && KeepsBytes(x, y)
    requires Translate(y.tables, f, STACK_PAGE) == Translate(x.tables, f, STACK_PAGE)
    ensures StackOk(y, f)
  {
    hide Translate, LiveFrame, Bytes, Target, LeafFlags;
  }

  /** The three steps of filling a space: after the program, after the stack, after the kernel's pages. */
  ghost predicate Filled(vm: Vm, u: Vm, x: Vm, r: Created, f: nat, kernelRoot: nat, kernelEnd: nat, binary: seq<nat>) {
    match r
    case CreatedProc(y, _, complete) =>
      && IsRoot(u, f) && IsRoot(x, f) && IsRoot(y, f) && PagesFor(|binary|) < STACK_PAGE
      && SameOutside(vm, u, f, 0, PagesFor(|binary|)) && SameOutside(u, x, f, STACK_PAGE, STACK_PAGE + 1)
      && SameOutside(x, y, f, KERNEL_PAGE, kernelEnd) && KeepsBytes(u, x) && KeepsBytes(x, y)
      && (forall j: nat :: j * PAGE < |binary| ==> HoldsAt(u, f, 0, binary, j)) && StackOk(x, f)
      && (forall q: nat :: KERNEL_PAGE <= q < kernelEnd ==>
            PageCopied(Translate(x.tables, kernelRoot, q), Translate(x.tables, f, q), Translate(y.tables, f, q),
                complete))
    case _ => false
  }

  lemma FillSteps(vm: Vm, f: nat, kernelRoot: nat, kernelEnd: nat, binary: seq<nat>) returns (u: Vm, x: Vm)
    requires VmOk(vm) && Invariant(vm.zone) && IsRoot(vm, f) && IsRoot(vm, kernelRoot) && vm.base <= f
    requires kernelEnd <= VPNS && PagesFor(|binary|) * PAGE <= USER_HEAP_END
    requires NoneIn(vm, f, 0, USER_PAGES) && AllAccessible(vm, f)
    requires FillSpace(vm, f, kernelRoot, kernelEnd, binary).CreatedProc?
    ensures Filled(vm, u, x, FillSpace(vm, f, kernelRoot, kernelEnd, binary), f, kernelRoot, kernelEnd, binary)
  {
    hide VmOk, Invariant, Load, AddStack, TakeDown, GiveBack, CopyLoop, Translate, AllAccessible, SameOutside,
         KeepsBytes, HoldsAt, BuddyModel.WellFormed, IsRoot, StackOk, PageCopied, Unowned, PagesFor, NoneIn;
    NoneAt(vm, f, 0, USER_PAGES, STACK_PAGE);
    LoadNewRoot(vm, f, binary);
    var n := PagesFor(|binary|);
    u := Load(vm, f, 0, binary).vm;
    OutsideOther(vm, u, f, 0, n, f, STACK_PAGE);
    StackKeeps(u, f);
    x := AddStack(u, f).vm;
    OutsideOther(u, x, f, STACK_PAGE, STACK_PAGE + 1, f, VPNS);
    OutsideOther(vm, u, f, 0, n, kernelRoot, VPNS);
    OutsideOther(u, x, f, STACK_PAGE, STACK_PAGE + 1, kernelRoot, VPNS);
    CopyRefines(x, f, kernelRoot, KERNEL_PAGE, kernelEnd);
    CopyKeepsBytes(x, f, kernelRoot, KERNEL_PAGE, kernelEnd);
    OutsideOther(x, CopyLoop(x, f, kernelRoot, KERNEL_PAGE, kernelEnd).vm, f, KERNEL_PAGE, kernelEnd, f, VPNS);
  }

  /** Filling a space: the program, the stack and the kernel's pages are there, and every other page is as it was. */
  lemma FillImage(vm: Vm, f: nat, kernelRoot: nat, kernelEnd: nat, binary: seq<nat>, q: nat)
    requires VmOk(vm) && Invariant(vm.zone) && IsRoot(vm, f)
    requires IsRoot(vm, kernelRoot) && kernelRoot != f && vm.base <= f
    requires kernelEnd <= VPNS && PagesFor(|binary|) * PAGE <= USER_HEAP_END
    requires NoneIn(vm, f, 0, USER_PAGES) && AllAccessible(vm, f)
    requires FillSpace(vm, f, kernelRoot, kernelEnd, binary).CreatedProc? && q < VPNS
    ensures var r := FillSpace(vm, f, kernelRoot, kernelEnd, binary);
            FillPage(vm, r.vm, f, kernelRoot, kernelEnd, PagesFor(|binary|), r.complete, q)
  {
    hide VmOk, Invariant, FillSpace, Translate, AllAccessible, IsRoot, PagesFor, NoneIn, Filled;
    var u, x := FillSteps(vm, f, kernelRoot, kernelEnd, binary);
    FilledPages(vm, u, x, FillSpace(vm, f, kernelRoot, kernelEnd, binary), f, kernelRoot, kernelEnd, q, binary);
  }

  /** ... and reading the program gives it back byte for byte, padded with zeroes. */
  lemma FillBytes(vm: Vm, f: nat, kernelRoot: nat, kernelEnd: nat, binary: seq<nat>, i: nat)
    requires VmOk(vm) && Invariant(vm.zone) && IsRoot(vm, f) && IsRoot(vm, kernelRoot) && vm.base <= f
    requires kernelEnd <= VPNS && PagesFor(|binary|) * PAGE <= USER_HEAP_END
    requires NoneIn(vm, f, 0, USER_PAGES) && AllAccessible(vm, f)
    requires FillSpace(vm, f, kernelRoot, kernelEnd, binary).CreatedProc? && i < PagesFor(|binary|) * PAGE
    ensures var r := FillSpace(vm, f, kernelRoot, kernelEnd, binary);
            i / PAGE * PAGE < |binary| && HoldsAt(r.vm, f, 0, binary, i / PAGE)
  {
    hide VmOk, Invariant, FillSpace, Translate, AllAccessible, IsRoot, NoneIn, Filled, HoldsAt;
    assert i / PAGE * PAGE < |binary|;
    hide PagesFor;
    var u, x := FillSteps(vm, f, kernelRoot, kernelEnd, binary);
    FilledBytes(vm, u, x, FillSpace(vm, f, kernelRoot, kernelEnd, binary), f, kernelRoot, kernelEnd, binary, i / PAGE);
  }

  lemma FilledBytes(vm: Vm, u: Vm, x: Vm, r: Created, f: nat, kernelRoot: nat, kernelEnd: nat, binary: seq<nat>, j: nat)
    requires Filled(vm, u, x, r, f, kernelRoot, kernelEnd, binary) && j * PAGE < |binary|
    ensures HoldsAt(r.vm, f, 0, binary, j)
  {
    hide Translate, SameOutside, KeepsBytes, HoldsAt, IsRoot, StackOk, PageCopied;
    assert j < PagesFor(|binary|);
    OutsideOther(u, x, f, STACK_PAGE, STACK_PAGE + 1, f, j);
    OutsideOther(x, r.vm, f, KERNEL_PAGE, kernelEnd, f, j);
    KeepsTrans(u, x, r.vm);
    HoldsStill(u, r.vm, f, binary, j);
  }

  lemma FilledPages(vm: Vm, u: Vm, x: Vm, r: Created, f: nat, kernelRoot: nat, kernelEnd: nat, q: nat, binary: seq<nat>)
    requires Filled(vm, u, x, r, f, kernelRoot, kernelEnd, binary) && q < VPNS && kernelEnd <= VPNS
    requires IsRoot(vm, f) && IsRoot(vm, kernelRoot) && kernelRoot != f
    ensures FillPage(vm, r.vm, f, kernelRoot, kernelEnd, PagesFor(|binary|), r.complete, q)
  {
    var n := PagesFor(|binary|);
    hide Translate, SameOutside, KeepsBytes, IsRoot, StackOk, PageCopied;
    if q < n {
      assert q * PAGE < |binary|;
      assert HoldsAt(u, f, 0, binary, q);
    }
    hide PagesFor, HoldsAt;
    if n <= q { OutsideOther(vm, u, f, 0, n, f, q); }
    if q != STACK_PAGE { OutsideOther(u, x, f, STACK_PAGE, STACK_PAGE + 1, f, q); }
    if !(KERNEL_PAGE <= q < kernelEnd) { OutsideOther(x, r.vm, f, KERNEL_PAGE, kernelEnd, f, q); }
    OutsideOther(vm, u, f, 0, n, kernelRoot, q);
    OutsideOther(u, x, f, STACK_PAGE, STACK_PAGE + 1, kernelRoot, q);
    if q == STACK_PAGE { StackStill(x, r.vm, f); }
  }

  /** What page q of a new process is. */
  ghost predicate ImagePage(vm: Vm, v: Vm, f: nat, pl: Places, pages: nat, complete: bool, q: nat) {
    if q < pages then Translate(v.tables, f, q).Some?
    else if q == STACK_PAGE then StackOk(v, f)
    else if q == UART_PAGE then Translate(v.tables, f, q) == Some(LeafPte(UART_FRAME * PAGE, KERNEL_RW))
    else if KERNEL_PAGE <= q < pl.kernelEnd then
      PageCopied(Translate(vm.tables, pl.kernelRoot, q), Early(pl, q), Translate(v.tables, f, q), complete)
    else Translate(v.tables, f, q) == Early(pl, q)
  }

  /**
    The image of a new process: its program; one zeroed writable stack page; the
    pages of proc_t, of its kernel stack, of the kernel and of the UART; and
    nothing else.
   */
  lemma CreateImage(vm: Vm, pl: Places, binary: seq<nat>, q: nat)
    requires VmOk(vm) && Invariant(vm.zone) && PlacesOk(vm, pl) && PagesFor(|binary|) * PAGE <= USER_HEAP_END
    requires CreateProc(vm, pl, binary).CreatedProc? && q < VPNS
    ensures var r := CreateProc(vm, pl, binary);
            ImagePage(vm, r.vm, r.proc.root, pl, PagesFor(|binary|), r.complete, q)
  {
    hide VmOk, Invariant, AllocPage, Translate, OthersKept, PagesFor, PlacesOk, IsRoot, BeforeUart, AddUart;
    NewRoot(vm);
    var f, w := AllocPage(vm).frame, NewSpace(vm);
    PlacesKept(vm, w, f, pl);
    PlacesBound(vm, pl);
    SourceSame(vm, w, f, pl.kernelRoot, q);
    BeforeImage(w, f, pl, binary, q);
    BeforeKeeps(w, f, pl, binary);
    UartImage(w, BeforeUart(w, f, pl, binary), f, pl, binary, q);
  }

  /** A supervisor page: frame f, readable and writable, neither executable nor open to user mode. */
  predicate Supervisor(e: Option<nat>, f: nat) {
    e.Some? && Target(e.value) == f && Rights(e.value, 1, 1, 0, 0)
  }

  lemma KernelRights(frame: nat)
    requires frame * PAGE < WORD
    ensures Supervisor(Some(LeafPte(frame * PAGE, KERNEL_RW)), frame)
  {
    LeafPteRoundTrip(frame, KERNEL_RW);
    hide PteFlags, LeafFlags, LeafPte, Target, Pte2Pa;
    RightsAsked(LeafPte(frame * PAGE, KERNEL_RW), KERNEL_RW);
    assert KERNEL_RW == 6 && Bit(6, 1) == 1 && Bit(6, 2) == 1 && Bit(6, 3) == 0 && Bit(6, 4) == 0;
  }

  /** User mode cannot reach the three pages that are not copied from the kernel's table. */
  lemma CreateSupervisor(vm: Vm, pl: Places, binary: seq<nat>)
    requires VmOk(vm) && Invariant(vm.zone) && PlacesOk(vm, pl) && PagesFor(|binary|) * PAGE <= USER_HEAP_END
    requires CreateProc(vm, pl, binary).CreatedProc? && pl.procPage != pl.kstackPage
    ensures var v, root := CreateProc(vm, pl, binary).vm, CreateProc(vm, pl, binary).proc.root;
            && Supervisor(Translate(v.tables, root, pl.procPage), pl.procFrame)
            && Supervisor(Translate(v.tables, root, pl.kstackPage), pl.kstackFrame)
            && Supervisor(Translate(v.tables, root, UART_PAGE), UART_FRAME)
  {
    hide VmOk, Invariant, CreateProc, Translate, PagesFor, PlacesOk, LeafPte, Supervisor;
    PlacesAbove(vm, pl, binary);
    ImageAbove(vm, pl, binary, pl.procPage);
    ImageAbove(vm, pl, binary, pl.kstackPage);
    ImageAbove(vm, pl, binary, UART_PAGE);
    KernelRights(pl.procFrame);
    KernelRights(pl.kstackFrame);
    KernelRights(UART_FRAME);
  }

  lemma ImageAbove(vm: Vm, pl: Places, binary: seq<nat>, q: nat)
    requires VmOk(vm) && Invariant(vm.zone) && PlacesOk(vm, pl) && PagesFor(|binary|) * PAGE <= USER_HEAP_END
    requires CreateProc(vm, pl, binary).CreatedProc? && USER_PAGES <= q < VPNS
    ensures var now := Translate(CreateProc(vm, pl, binary).vm.tables, CreateProc(vm, pl, binary).proc.root, q);
            && (q == UART_PAGE ==> now == Some(LeafPte(UART_FRAME * PAGE, KERNEL_RW)))
            && (q != UART_PAGE && Early(pl, q).Some? ==> now == Early(pl, q))
  {
    hide VmOk, Invariant, CreateProc, Translate, PagesFor, PlacesOk, LeafPte, StackOk, Early;
    PlacesAbove(vm, pl, binary);
    CreateImage(vm, pl, binary, q);
  }

  lemma PlacesAbove(vm: Vm, pl: Places, binary: seq<nat>)
    requires PlacesOk(vm, pl) && PagesFor(|binary|) * PAGE <= USER_HEAP_END
    ensures pl.procFrame * PAGE < WORD && pl.kstackFrame * PAGE < WORD && PagesFor(|binary|) <= STACK_PAGE < USER_PAGES
    ensures USER_PAGES <= pl.procPage < VPNS && pl.procPage != UART_PAGE
    ensures USER_PAGES <= pl.kstackPage < VPNS && pl.kstackPage != UART_PAGE && USER_PAGES <= UART_PAGE < VPNS
  {
    UartPage();
  }

  lemma SourceSame(vm: Vm, w: Vm, f: nat, r: nat, q: nat)
    requires OthersKept(vm, w, f) && IsRoot(vm, r) && !IsRoot(vm, f) && q < VPNS
    ensures Translate(w.tables, r, q) == Translate(vm.tables, r, q) && r != f
  {
    hide Translate;
  }

  /** The image before the UART is added. */
  ghost predicate BeforePage(vm: Vm, v: Vm, f: nat, pl: Places, pages: nat, complete: bool, q: nat) {
    if q < pages then Translate(v.tables, f, q).Some?
    else if q == STACK_PAGE then StackOk(v, f)
    else if KERNEL_PAGE <= q < pl.kernelEnd then
      PageCopied(Translate(vm.tables, pl.kernelRoot, q), Early(pl, q), Translate(v.tables, f, q), complete)
    else Translate(v.tables, f, q) == Early(pl, q)
  }

  lemma BeforeImage(vm: Vm, f: nat, pl: Places, binary: seq<nat>, q: nat)
    requires VmOk(vm) && Invariant(vm.zone) && IsRoot(vm, f) && PlacesOk(vm, pl) && vm.base <= f && pl.kernelRoot != f
    requires PagesFor(|binary|) * PAGE <= USER_HEAP_END && forall p: nat :: Translate(vm.tables, f, p) == None
    requires BeforeUart(vm, f, pl, binary).CreatedProc? && q < VPNS
    ensures var r := BeforeUart(vm, f, pl, binary);
            BeforePage(vm, r.vm, f, pl, PagesFor(|binary|), r.complete, q)
  {
    hide VmOk, Invariant, MapProc, FillSpace, TakeDown, Translate, AllAccessible, PagesFor, SameOutside, KeepsBytes,
         IsRoot, PlacesOk, NoneIn, StackOk, PageCopied, Early, FillPage, BeforePage;
    PlacesBound(vm, pl);
    ProcMapped(vm, f, pl);
    var x := MapProc(vm, f, pl).vm;
    NoneBelow(vm, x, f);
    StepKept(vm, x, f, USER_PAGES, VPNS);
    OutsideOther(vm, x, f, USER_PAGES, VPNS, pl.kernelRoot, q);
    FillImage(x, f, pl.kernelRoot, pl.kernelEnd, binary, q);
    var r := FillSpace(x, f, pl.kernelRoot, pl.kernelEnd, binary);
    FillIsBefore(vm, x, r.vm, f, pl, PagesFor(|binary|), r.complete, q);
  }

  lemma FillIsBefore(vm: Vm, x: Vm, v: Vm, f: nat, pl: Places, pages: nat, complete: bool, q: nat)
    requires FillPage(x, v, f, pl.kernelRoot, pl.kernelEnd, pages, complete, q)
    requires Translate(x.tables, pl.kernelRoot, q) == Translate(vm.tables, pl.kernelRoot, q)
    requires Translate(x.tables, f, q) == Early(pl, q)
    ensures BeforePage(vm, v, f, pl, pages, complete, q)
  {
    hide Translate, PageCopied, StackOk, Early;
  }

  lemma UartImage(vm: Vm, r: Created, f: nat, pl: Places, binary: seq<nat>, q: nat)
    requires r.CreatedProc? && FillOk(vm, f, binary, r) && Invariant(r.vm.zone) && AddUart(r, f).CreatedProc?
    requires PlacesOk(vm, pl) && q < VPNS && PagesFor(|binary|) * PAGE <= USER_HEAP_END
    requires BeforePage(vm, r.vm, f, pl, PagesFor(|binary|), r.complete, q)
    ensures AddUart(r, f).proc.root == f
    ensures ImagePage(vm, AddUart(r, f).vm, f, pl, PagesFor(|binary|), r.complete, q)
    ensures AddUart(r, f).complete == r.complete
  {
    UartPage();
    assert PagesFor(|binary|) < STACK_PAGE;
    assert Early(pl, UART_PAGE) == None;
    hide VmOk, Invariant, Translate, AllAccessible, PagesFor, SameOutside, KeepsBytes, IsRoot, MapPage, LeafPte,
         StackOk, PageCopied, Early, PlacesOk, OthersKept;
    SuperMap(r.vm, f, UART_PAGE, UART_FRAME);
    var w := MapPage(r.vm, f, UART_PAGE, UART_FRAME, KERNEL_RW).vm;
    if q != UART_PAGE {
      OutsideOther(r.vm, w, f, UART_PAGE, UART_PAGE + 1, f, q);
      if q == STACK_PAGE && PagesFor(|binary|) <= q { StackStill(r.vm, w, f); }
    }
  }

  /** A new process reads its program back byte for byte, and zeroes to the end of the last page. */
  lemma CreateBytes(vm: Vm, pl: Places, binary: seq<nat>, i: nat)
    requires VmOk(vm) && Invariant(vm.zone) && PlacesOk(vm, pl) && PagesFor(|binary|) * PAGE <= USER_HEAP_END
    requires CreateProc(vm, pl, binary).CreatedProc? && i < PagesFor(|binary|) * PAGE
    ensures var r := CreateProc(vm, pl, binary);
            && ByteAt(r.vm, r.proc.root, i) == Some(if i < |binary| then binary[i] else 0)
            && Rights(Translate(r.vm.tables, r.proc.root, i / PAGE).value, 1, 0, 1, 1)
  {
    hide VmOk, Invariant, AllocPage, Translate, OthersKept, PagesFor, PlacesOk, IsRoot, BeforeUart, AddUart, HoldsAt,
         ByteAt;
    NewRoot(vm);
    var f, w := AllocPage(vm).frame, NewSpace(vm);
    PlacesKept(vm, w, f, pl);
    BeforeBytes(w, f, pl, binary, i);
    BeforeKeeps(w, f, pl, binary);
    UartBytes(w, BeforeUart(w, f, pl, binary), f, binary, i);
    PageReads(CreateProc(vm, pl, binary).vm, f, binary, i);
  }

  lemma BeforeBytes(vm: Vm, f: nat, pl: Places, binary: seq<nat>, i: nat)
    requires VmOk(vm) && Invariant(vm.zone) && IsRoot(vm, f) && PlacesOk(vm, pl) && vm.base <= f
    requires PagesFor(|binary|) * PAGE <= USER_HEAP_END && forall p: nat :: Translate(vm.tables, f, p) == None
    requires BeforeUart(vm, f, pl, binary).CreatedProc? && i < PagesFor(|binary|) * PAGE
    ensures i / PAGE * PAGE < |binary| && HoldsAt(BeforeUart(vm, f, pl, binary).vm, f, 0, binary, i / PAGE)
  {
    PlacesBound(vm, pl);
    hide VmOk, Invariant, MapProc, FillSpace, TakeDown, Translate, AllAccessible, PagesFor, SameOutside, KeepsBytes,
         IsRoot, PlacesOk, NoneIn, Early, HoldsAt;
    ProcMapped(vm, f, pl);
    var x := MapProc(vm, f, pl).vm;
    NoneBelow(vm, x, f);
    StepKept(vm, x, f, USER_PAGES, VPNS);
    FillBytes(x, f, pl.kernelRoot, pl.kernelEnd, binary, i);
  }

  lemma UartBytes(vm: Vm, r: Created, f: nat, binary: seq<nat>, i: nat)
    requires r.CreatedProc? && FillOk(vm, f, binary, r) && Invariant(r.vm.zone) && AddUart(r, f).CreatedProc?
    requires i / PAGE * PAGE < |binary| && i < PagesFor(|binary|) * PAGE <= USER_HEAP_END
    requires HoldsAt(r.vm, f, 0, binary, i / PAGE)
    ensures AddUart(r, f).proc.root == f && HoldsAt(AddUart(r, f).vm, f, 0, binary, i / PAGE)
  {
    UartPage();
    assert i / PAGE < STACK_PAGE;
    hide VmOk, Invariant, Translate, AllAccessible, PagesFor, SameOutside, KeepsBytes, IsRoot, MapPage, LeafPte,
         OthersKept, HoldsAt;
    SuperMap(r.vm, f, UART_PAGE, UART_FRAME);
    var w := MapPage(r.vm, f, UART_PAGE, UART_FRAME, KERNEL_RW).vm;
    OutsideOther(r.vm, w, f, UART_PAGE, UART_PAGE + 1, f, i / PAGE);
    HoldsStill(r.vm, w, f, binary, i / PAGE);
  }
}
