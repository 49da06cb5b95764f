/**
  The page-table code in its own form: walk(), map_page(), unmap_page() and
  free_pagetable() (kernel/mm/pagetable.c), the loops of sys_sbrk() and
  sys_munmap() (kernel/syscall.c), and the loader and the kernel copy of
  create_proc() (kernel/proc.c), as methods that update physical memory in
  place. Each is proved against the function that the theorems are about.
 */
module MemoryManager {
  import opened Basics
  import opened Bits
  import opened Sv39
  import opened BuddyModel
  import opened BuddyInvariant
  import opened BuddyCalls
  import opened PageTable
  import opened PageMap
  import opened UserMemory
  import opened Loader
  import opened KernelMappings
  import opened FreeTables
  import opened ProcessImage

  /** The fields of proc_t that sys_sbrk() reads and writes. */
  class Task {
    const root: nat
    const heapStart: nat
    var heapEnd: nat

    constructor (root: nat, heapStart: nat)
      ensures Value() == Proc(root, heapStart, heapStart)
    {
      this.root, this.heapStart, heapEnd := root, heapStart, heapStart;
    }

    function Value(): Proc
      reads this
    {
      Proc(root, heapStart, heapEnd)
    }
  }

  lemma VpnSmall(va: nat)
    ensures Vpn(va) < VPNS
  {
  }

  lemma PageOfVa(va: nat)
    requires va % PAGE == 0 && va < VPNS * PAGE
    ensures Vpn(va) == va / PAGE && (va + PAGE) / PAGE == va / PAGE + 1 && (va + PAGE) % PAGE == 0
  {
  }

  class Memory {
    var vm: Vm

    constructor (start: Vm)
      ensures vm == start
    {
      vm := start;
    }

    // ----- alloc_page, free_page

    method TakePage() returns (got: Option<nat>)
      requires Invariant(vm.zone)
      modifies this
      ensures Invariant(vm.zone)
      ensures match AllocPage(old(vm))
              case NoPage => got == None && vm == old(vm)
              case GotPage(v, f) => got == Some(f) && vm == v
    {
      AllocSafe(vm.zone);
      hide Invariant, Alloc;
      match Alloc(vm.zone, 0)
      case NoMemory => got := None;
      case Allocated(z, h) =>
        var f := vm.base + h;
        vm := vm.(zone := z, tables := vm.tables[f := ZeroTable()], data := vm.data[f := ZeroBytes()]);
        got := Some(f);
    }

    /** free_page(); `halted` says get_page_struct() stopped the machine. */
    method GivePage(frame: nat) returns (halted: bool)
      requires BuddyModel.WellFormed(vm.zone)
      modifies this
      ensures match FreeFrame(old(vm.zone), old(vm.base), frame)
              case FreeHalt => halted
              case Freed(z) => !halted && BuddyModel.WellFormed(z) && vm == old(vm).(zone := z)
    {
      halted := false;
      if frame != 0 {
        if frame < vm.base { return true; }
        match Free(vm.zone, frame - vm.base)
        case FreeHalt => halted := true;
        case Freed(z) => vm := vm.(zone := z);
      }
    }

    // ----- walk, map_page, unmap_page

    /** The role a new table below entry `idx` of a level-`level` table gets. */
    static function NewRole(root: nat, va: nat, level: nat): Role {
      if level == 2 then Mid(root, Index(Vpn(va), 2)) else Low(root, Index(Vpn(va), 2), Index(Vpn(va), 1))
    }

    /** walk(): the low table, or None where the source returns NULL. */
    method WalkTables(root: nat, va: nat, alloc: bool) returns (low: Option<nat>)
      requires Invariant(vm.zone)
      modifies this
      ensures Invariant(vm.zone)
      ensures Walk(old(vm), root, Vpn(va), alloc) == if low.Some? then StepTo(vm, low.value) else NoStep(vm)
    {
      VpnDigits(va);
      var pagetable, level := root, 2;
      while level > 0
        invariant 0 <= level <= 2 && Invariant(vm.zone)
        invariant level == 2 ==> pagetable == root && vm == old(vm)
        invariant level == 1 ==>
                    NextTable(old(vm), root, Index(Vpn(va), 2), NewRole(root, va, 2), alloc) == StepTo(vm, pagetable)
        invariant level == 0 ==> Walk(old(vm), root, Vpn(va), alloc) == StepTo(vm, pagetable)
      {
        hide InvariantExcept, TablePte, Target, Vpn, VpnLevel, Pow2, AllocPage;
        var idx := VpnLevel(va, level);
        var pte := Entry(vm.tables, pagetable, idx);
        if Valid(pte) {
          pagetable := Target(pte);
        } else {
          if !alloc { return None; }
          var page := TakePage();
          if page == None { return None; }
          vm := vm.(tables := SetEntry(vm.tables, pagetable, idx, TablePte(page.value)),
                    owner := vm.owner[page.value := NewRole(root, va, level)]);
          pagetable := page.value;
        }
        level := level - 1;
      }
      low := Some(pagetable);
    }

    /** map_page(), with the physical address given by its frame. */
    method Map(root: nat, va: nat, frame: nat, perm: nat) returns (ret: int)
      requires Invariant(vm.zone)
      modifies this
      ensures Invariant(vm.zone)
      ensures MapPage(old(vm), root, Vpn(va), frame, perm) == if ret == 0 then MapDone(vm) else MapFailed(vm)
      ensures ret == 0 || ret == -1
    {
      hide InvariantExcept, LeafPte, Vpn, VpnLevel, Walk;
      var low := WalkTables(root, va, true);
      if low == None { return -1; }
      var idx := VpnLevel(va, 0);
      VpnDigits(va);
      if !Valid(Entry(vm.tables, low.value, idx)) {
        vm := vm.(tables := SetEntry(vm.tables, low.value, idx, LeafPte(frame * PAGE, perm)),
                  owner := if Vpn(va) < USER_PAGES then vm.owner[frame := Page(root, Vpn(va))] else vm.owner);
      }
      ret := 0;
    }

    /** unmap_page() */
    method Unmap(root: nat, va: nat) returns (ret: int, halted: bool)
      requires VmOk(vm) && Invariant(vm.zone) && BuddyModel.WellFormed(vm.zone) && IsRoot(vm, root)
      modifies this
      ensures match UnmapPage(old(vm), root, Vpn(va))
              case UnmapHalt => halted
              case NotMapped => !halted && ret == -1 && vm == old(vm)
              case Unmapped(v) => !halted && ret == 0 && vm == v
    {
      WalkKeeps(vm, root, Vpn(va), false);
      VpnDigits(va);
      hide VmOk, InvariantExcept, Vpn, VpnLevel, Walk, Target, FreeFrame;
      halted := false;
      var low := WalkTables(root, va, false);
      if low == None { return -1, false; }
      var idx := VpnLevel(va, 0);
      var pte := Entry(vm.tables, low.value, idx);
      if !Valid(pte) { return -1, false; }
      halted := GivePage(Target(pte));
      if halted { return 0, true; }
      vm := vm.(tables := SetEntry(vm.tables, low.value, idx, 0), owner := vm.owner - {Target(pte)});
      ret := 0;
    }

    // ----- free_pagetable

    /** `height` is the height of the tree below; it only serves termination. */
    method FreePagetable(frame: nat, ghost height: nat) returns (halted: bool)
      requires BuddyModel.WellFormed(vm.zone) && Order(vm.tables, frame, 0, height).Some?
      modifies this
      ensures match FreeTable(old(vm.tables), old(vm.zone), old(vm.base), frame, 0, height)
              case TooDeep => false
              case TreeHalt => halted
              case TreeFreed(z) => !halted && BuddyModel.WellFormed(z) && vm == old(vm).(zone := z)
      decreases height
    {
      hide BuddyModel.WellFormed, FreeFrame, Target;
      FreeTableIsFreeAll(vm.tables, vm.zone, vm.base, frame, 0, height);
      var i := 0;
      while i < PTES
        invariant 0 <= i <= PTES && BuddyModel.WellFormed(vm.zone)
        invariant vm == old(vm).(zone := vm.zone) && Order(vm.tables, frame, i, height).Some?
        invariant FreeTable(old(vm.tables), old(vm.zone), old(vm.base), frame, 0, height)
                    == FreeTable(vm.tables, vm.zone, vm.base, frame, i, height)
      {
        var pte := Entry(vm.tables, frame, i);
        if Valid(pte) && NoAccess(pte) {
          halted := FreePagetable(Target(pte), height - 1);
          if halted { return true; }
        }
        i := i + 1;
      }
      halted := GivePage(frame);
    }

    // ----- sys_sbrk, sys_munmap

    /** One page of the growing loop. */
    method GrowPage(root: nat, va: nat) returns (ok: bool)
      requires Invariant(vm.zone) && va % PAGE == 0 && va < USER_HEAP_END
      modifies this
      ensures Invariant(vm.zone)
      ensures GrowOne(old(vm), root, va / PAGE) == if ok then Grown(vm) else GrowFailed(vm)
    {
      PageOfVa(va);
      hide Invariant, Vpn, AllocPage, MapPage;
      var page := TakePage();
      if page == None { return false; }
      var ret := Map(root, va, page.value, HEAP_PERM);
      ok := ret != -1;
    }

    method GrowLoop(root: nat, was: nat, now: nat) returns (ok: bool)
      requires Invariant(vm.zone) && was % PAGE == 0 == now % PAGE && now <= USER_HEAP_END
      modifies this
      ensures Invariant(vm.zone)
      ensures Grow(old(vm), root, was / PAGE, now / PAGE) == if ok then Grown(vm) else GrowFailed(vm)
    {
      hide Invariant, Grow, GrowOne;
      var va := was;
      while va < now
        invariant Invariant(vm.zone) && va % PAGE == 0
        invariant Grow(old(vm), root, was / PAGE, now / PAGE) == Grow(vm, root, va / PAGE, now / PAGE)
        decreases now - va
      {
        GrowUnroll(vm, root, va, now);
        ok := GrowPage(root, va);
        if !ok { return false; }
        va := va + PAGE;
      }
      GrowUnroll(vm, root, va, now);
      ok := true;
    }

    method ShrinkLoop(root: nat, now: nat, was: nat) returns (halted: bool)
      requires VmOk(vm) && Invariant(vm.zone) && IsRoot(vm, root)
      requires was % PAGE == 0 == now % PAGE && was <= USER_HEAP_END
      modifies this
      ensures match Shrink(old(vm), root, now / PAGE, was / PAGE)
              case ShrinkHalt => halted
              case Shrunk(v) => !halted && vm == v
    {
      hide VmOk, Invariant, Shrink, UnmapOne, IsRoot;
      var va := now;
      while va < was
        invariant VmOk(vm) && Invariant(vm.zone) && IsRoot(vm, root) && va % PAGE == 0
        invariant Shrink(old(vm), root, now / PAGE, was / PAGE) == Shrink(vm, root, va / PAGE, was / PAGE)
        decreases was - va
      {
        ShrinkUnroll(vm, root, va, was);
        var r, stop := UnmapUser(root, va);
        if stop { return true; }
        va := va + PAGE;
      }
      ShrinkUnroll(vm, root, va, was);
      halted := false;
    }

    /** unmap_page() on a page of the user range; what it leaves when it fails is what it found. */
    method UnmapUser(root: nat, va: nat) returns (ret: int, halted: bool)
      requires VmOk(vm) && Invariant(vm.zone) && IsRoot(vm, root) && va % PAGE == 0 && va < USER_PAGES * PAGE
      modifies this
      ensures !halted ==> VmOk(vm) && Invariant(vm.zone) && IsRoot(vm, root)
      ensures match UnmapOne(old(vm), root, va / PAGE)
              case UnmapHalt => halted
              case NotMapped => !halted && ret == -1 && vm == old(vm)
              case Unmapped(v) => !halted && ret == 0 && vm == v
    {
      VmZone(vm);
      PageOfVa(va);
      UnmapOneIs(vm, root, va / PAGE);
      hide VmOk, Invariant, Vpn, UnmapPage, UnmapOne, IsRoot, BuddyModel.WellFormed;
      ret, halted := Unmap(root, va);
      if !halted { VmZone(vm); }
    }

    /** sys_sbrk() */
    method SysSbrkCall(task: Task, size: int) returns (ret: int, halted: bool)
      requires VmOk(vm) && Invariant(vm.zone) && ProcOk(vm, task.Value())
      requires -0x8000_0000_0000_0000 <= size <= 0x7fff_ffff_ffff_f000
      modifies this, task
      ensures match SysSbrk(old(vm), old(task.Value()), size)
              case SbrkHalt => halted
              case SbrkDone(v, proc, r) => !halted && vm == v && task.Value() == proc && ret == r
    {
      BreakPages(vm, task.Value(), size);
      hide VmOk, InvariantExcept, OldBreak, NewBreak, AlignUp, IsRoot, Grow, Shrink;
      halted := false;
      if size == 0 { return -1, false; }
      var was, step, now := OldBreak(task.Value()), AlignUp(size), NewBreak(task.Value(), size);
      if now < task.heapStart || now > USER_HEAP_END { return -1, false; }
      if step > 0 {
        var ok := GrowLoop(task.root, was, now);
        if !ok { return -1, false; }
      } else {
        halted := ShrinkLoop(task.root, now, was);
        if halted { return 0, true; }
      }
      task.heapEnd := now;
      ret := was;
    }

    /** sys_munmap() */
    method SysMunmapCall(root: nat, addr: nat, size: nat) returns (ret: int, halted: bool)
      requires VmOk(vm) && Invariant(vm.zone) && IsRoot(vm, root) && Confined(addr, size)
      modifies this
      ensures match SysMunmap(old(vm), root, addr, size)
              case MunmapHalt => halted
              case MunmapDone(v, r) => !halted && vm == v && ret == r
    {
      hide VmOk, Invariant, IsRoot, MunmapEnd, MunmapLoop, UnmapOne;
      if size == 0 || addr % PAGE != 0 { return -1, false; }
      var end, va := MunmapEnd(addr, size), addr;
      EndAligned(addr, size);
      EndInRange(addr, size);
      while va < end
        invariant VmOk(vm) && Invariant(vm.zone) && IsRoot(vm, root) && va % PAGE == 0
        invariant va < end ==> end <= USER_PAGES * PAGE
        invariant MunmapLoop(old(vm), root, addr / PAGE, end / PAGE) == MunmapLoop(vm, root, va / PAGE, end / PAGE)
        decreases end - va
      {
        MunmapUnroll(vm, root, va, end);
        var r, stop := UnmapUser(root, va);
        if stop { return 0, true; }
        if r == -1 { return -1, false; }
        va := va + PAGE;
      }
      MunmapUnroll(vm, root, va, end);
      ret, halted := 0, false;
    }

    // ----- the loader and the kernel copy of create_proc

    /** One page of the loading loop. */
    method LoadPage(root: nat, va: nat, chunk: seq<nat>) returns (ok: bool)
      requires Invariant(vm.zone) && va % PAGE == 0 && va < VPNS * PAGE && |chunk| <= PAGE
      modifies this
      ensures Invariant(vm.zone)
      ensures LoadOne(old(vm), root, va / PAGE, chunk) ==
                if ok then LoadedTo(vm, (va + PAGE) / PAGE) else LoadFailed(vm)
    {
      PageOfVa(va);
      hide InvariantExcept, Vpn, MapPage;
      var page := TakePage();
      if page == None { return false; }
      hide AllocPage;
      vm := CopyIn(vm, page.value, chunk);
      var ret := Map(root, va, page.value, CODE_PERM);
      ok := ret != -1;
    }

    /** The loading loop; on success `end` is where the heap starts. */
    method LoadBinary(root: nat, binary: seq<nat>) returns (ok: bool, end: nat)
      requires Invariant(vm.zone) && |binary| <= VPNS * PAGE
      modifies this
      ensures Invariant(vm.zone)
      ensures end % PAGE == 0
      ensures Load(old(vm), root, 0, binary) == if ok then LoadedTo(vm, end / PAGE) else LoadFailed(vm)
    {
      hide Invariant, Load, LoadOne;
      var va: nat, src: nat, remaining: nat := 0, 0, |binary|;
      assert binary[0..] == binary;
      while remaining > 0
        invariant Invariant(vm.zone) && va % PAGE == 0 && src + remaining == |binary|
        invariant remaining > 0 ==> src == va
        invariant Load(old(vm), root, 0, binary) == Load(vm, root, va / PAGE, binary[src..])
        decreases remaining
      {
        LoadUnroll(vm, root, va / PAGE, binary, src);
        var n := if remaining > PAGE then PAGE else remaining;
        ok := LoadPage(root, va, binary[src..src + n]);
        if !ok { return false, va; }
        va := va + PAGE;
        src := src + n;
        remaining := remaining - n;
      }
      LoadUnroll(vm, root, va / PAGE, binary, src);
      ok, end := true, va;
    }

    /** One page of copy_kernel_mappings(). */
    method CopyPage(dst: nat, src: nat, va: nat) returns (mapped: bool)
      requires VmOk(vm) && Invariant(vm.zone) && IsRoot(vm, src)
      modifies this
      ensures Invariant(vm.zone)
      ensures CopyOne(old(vm), dst, src, Vpn(va)) == Copied(vm, mapped)
    {
      hide VmOk, Invariant, Vpn, VpnLevel, IsRoot, Walk, MapPage, Target, PteFlags, Translate, LeafTable, Extends,
           Index;
      VpnSmall(va);
      WalkKeeps(vm, src, Vpn(va), false);
      VpnDigits(va);
      mapped := true;
      var low := WalkTables(src, va, false);
      if low.Some? {
        var pte := Entry(vm.tables, low.value, VpnLevel(va, 0));
        if Valid(pte) {
          var ret := Map(dst, va, Target(pte), PteFlags(pte));
          mapped := ret == 0;
        }
      }
    }

    /** copy_kernel_mappings() over [start, end); the end of the kernel image need not be page aligned. */
    method CopyKernelMappings(dst: nat, src: nat, start: nat, end: nat) returns (complete: bool)
      requires VmOk(vm) && Invariant(vm.zone) && IsRoot(vm, src) && IsRoot(vm, dst)
      requires start % PAGE == 0 && start <= end
      requires USER_PAGES <= Vpn(start) && Vpn(start) + PagesFor(end - start) <= VPNS
      modifies this
      ensures CopyLoop(old(vm), dst, src, Vpn(start), Vpn(start) + PagesFor(end - start)) == Copied(vm, complete)
    {
      hide VmOk, Invariant, Vpn, IsRoot, CopyOne, CopyLoop, AtPage, PagesFor;
      complete := true;
      var va: nat := start;
      ghost var p: nat, last: nat := Vpn(start), Vpn(start) + PagesFor(end - start);
      AtStart(start, end);
      while va < end
        invariant AtPage(va, end, p, last)
        invariant VmOk(vm) && Invariant(vm.zone) && IsRoot(vm, src) && IsRoot(vm, dst)
        invariant USER_PAGES <= p <= last <= VPNS
        invariant CopyLoop(old(vm), dst, src, Vpn(start), last)
                    == Copied(CopyLoop(vm, dst, src, p, last).vm, complete && CopyLoop(vm, dst, src, p, last).complete)
        decreases end - va
      {
        AtNext(va, end, p, last);
        CopyUnroll(vm, dst, src, p, last);
        var mapped := CopyPage(dst, src, va);
        complete := complete && mapped;
        va := va + PAGE;
        p := p + 1;
      }
      CopyDone(vm, dst, src, va, end, p, last);
    }

    // ----- create_proc

    /** free_proc() on a root whose pages all have an access right. */
    method TakeDownSpace(root: nat) returns (halted: bool)
      requires VmOk(vm) && BuddyModel.WellFormed(vm.zone) && IsRoot(vm, root)
      requires vm.base <= root && AllAccessible(vm, root)
      modifies this
      ensures match TakeDown(old(vm), root)
              case CreateHalt => halted
              case CreateFailed(v) => !halted && vm == v
              case CreatedProc(_, _, _) => false
    {
      FreePagetableExact(vm, root);
      hide VmOk, BuddyModel.WellFormed, FreeTable, Order, Translate, LiveFrame, NoAccess, FreeAll, NoDuplicates;
      halted := FreePagetable(root, 2);
      if !halted { vm := vm.(owner := Without(vm.owner, root)); }
    }

    method AddStackPage(root: nat) returns (got: Option<nat>, mapped: bool)
      requires Invariant(vm.zone)
      modifies this
      ensures Invariant(vm.zone)
      ensures match AddStack(old(vm), root)
              case NoStack => got == None && vm == old(vm)
              case StackUnmapped(x, g) => got == Some(g) && !mapped && vm == x
              case StackAt(x) => got.Some? && mapped && vm == x
    {
      StackPage();
      hide Invariant, Vpn, AllocPage, MapPage;
      got := TakePage();
      if got == None { return None, false; }
      var ret := Map(root, STACK_VA, got.value, HEAP_PERM);
      mapped := ret == 0;
    }

    /**
      create_proc(): kernelEnd is the address of _kernel_end, the next four say where kzalloc()
      put proc_t and the stack.
     */
    method CreateProcess(kernelRoot: nat, kernelEnd: nat, procVa: nat, procFrame: nat, kstackVa: nat, kstackFrame: nat,
        binary: seq<nat>) returns (root: Option<nat>, heap: nat, complete: bool, halted: bool)
      requires VmOk(vm) && Invariant(vm.zone) && PagesFor(|binary|) * PAGE <= USER_HEAP_END
      requires KERNEL_START_VA <= kernelEnd
      requires PlacesOk(vm, PlacesAt(kernelRoot, kernelEnd, procVa, procFrame, kstackVa, kstackFrame))
      modifies this
      ensures match CreateProc(old(vm), PlacesAt(kernelRoot, kernelEnd, procVa, procFrame, kstackVa, kstackFrame),
                binary)
              case CreateHalt => halted
              case CreateFailed(v) => !halted && root == None && vm == v
              case CreatedProc(v, proc, c) =>
                !halted && root == Some(proc.root) && proc == Proc(proc.root, heap, heap) && complete == c && vm == v
    {
      UartPage();
      hide VmOk, Invariant, AllocPage, BeforeUart, PagesFor, Translate, OthersKept, IsRoot, Vpn, Index, PlacesOk,
           MapPage;
      ghost var pl := PlacesAt(kernelRoot, kernelEnd, procVa, procFrame, kstackVa, kstackFrame);
      halted, heap, complete := false, 0, false;
      if AllocPage(vm).GotPage? {
        NewRoot(vm);
        PlacesKept(vm, NewSpace(vm), AllocPage(vm).frame, pl);
      }
      root := TakePage();
      if root.Some? {
        vm := vm.(owner := vm.owner[root.value := Root]);
        var ok;
        ok, heap, complete, halted :=
          MakeSpace(root.value, kernelRoot, kernelEnd, procVa, procFrame, kstackVa, kstackFrame, binary);
        if !ok {
          root := None;
        } else if !halted {
          var ret := Map(root.value, UART_VA, UART_FRAME, KERNEL_RW);
          halted := ret == -1;
        }
      }
    }

    /** create_proc() in a new root, up to the UART. */
    method MakeSpace(root: nat, kernelRoot: nat, kernelEnd: nat, procVa: nat, procFrame: nat, kstackVa: nat,
        kstackFrame: nat, binary: seq<nat>) returns (ok: bool, heap: nat, complete: bool, halted: bool)
      requires VmOk(vm) && Invariant(vm.zone) && PagesFor(|binary|) * PAGE <= USER_HEAP_END
      requires KERNEL_START_VA <= kernelEnd
      requires PlacesOk(vm, PlacesAt(kernelRoot, kernelEnd, procVa, procFrame, kstackVa, kstackFrame))
      requires IsRoot(vm, root) && vm.base <= root && forall p: nat :: Translate(vm.tables, root, p) == None
      modifies this
      ensures ok && !halted ==> Invariant(vm.zone)
      ensures match BeforeUart(old(vm), root, PlacesAt(kernelRoot, kernelEnd, procVa, procFrame, kstackVa,
                kstackFrame), binary)
              case CreateHalt => halted
              case CreateFailed(v) => !halted && !ok && vm == v
              case CreatedProc(v, proc, c) =>
                !halted && ok && proc == Proc(root, heap, heap) && complete == c && vm == v
    {
      BinaryFits(binary);
      ghost var pl := PlacesAt(kernelRoot, kernelEnd, procVa, procFrame, kstackVa, kstackFrame);
      PlacesBound(vm, pl);
      hide VmOk, Invariant, FillSpace, TakeDown, Translate, AllAccessible, PagesFor, SameOutside, KeepsBytes, Vpn,
           MapProc, BuddyModel.WellFormed, IsRoot, PlacesOk, NoneIn, Early, OthersKept;
      ProcMapped(vm, root, pl);
      ghost var was := vm;
      var done := MapProcPages(root, procVa, procFrame, kstackVa, kstackFrame, pl);
      StepKept(was, vm, root, USER_PAGES, VPNS);
      if done {
        NoneBelow(was, vm, root);
        ok, heap, complete, halted := FillNewSpace(root, kernelRoot, kernelEnd, binary);
      } else {
        VmZone(vm);
        halted := TakeDownSpace(root);
        ok, heap, complete := false, 0, false;
      }
    }

    /** The pages of proc_t and of the kernel stack. */
    method MapProcPages(root: nat, procVa: nat, procFrame: nat, kstackVa: nat, kstackFrame: nat, ghost pl: Places)
        returns (done: bool)
      requires Invariant(vm.zone) && pl.procPage == Vpn(procVa) && pl.procFrame == procFrame
      requires pl.kstackPage == Vpn(kstackVa) && pl.kstackFrame == kstackFrame
      modifies this
      ensures Invariant(vm.zone) && MapProc(old(vm), root, pl) == if done then MapDone(vm) else MapFailed(vm)
    {
      hide Invariant, MapPage, Vpn;
      var ret := Map(root, procVa, procFrame, KERNEL_RW);
      if ret == -1 { return false; }
      ret := Map(root, kstackVa, kstackFrame, KERNEL_RW);
      done := ret == 0;
    }

    /** create_proc() from the program on. */
    method FillNewSpace(root: nat, kernelRoot: nat, kernelEnd: nat, binary: seq<nat>)
        returns (ok: bool, heap: nat, complete: bool, halted: bool)
      requires VmOk(vm) && Invariant(vm.zone) && IsRoot(vm, root) && IsRoot(vm, kernelRoot) && vm.base <= root
      requires PagesFor(|binary|) * PAGE <= USER_HEAP_END && |binary| <= VPNS * PAGE
      requires KERNEL_START_VA <= kernelEnd && KERNEL_PAGE + PagesFor(kernelEnd - KERNEL_START_VA) <= VPNS
      requires NoneIn(vm, root, 0, USER_PAGES) && AllAccessible(vm, root)
      modifies this
      ensures ok && !halted ==> Invariant(vm.zone)
      ensures match FillSpace(old(vm), root, kernelRoot, KERNEL_PAGE + PagesFor(kernelEnd - KERNEL_START_VA), binary)
              case CreateHalt => halted
              case CreateFailed(v) => !halted && !ok && vm == v
              case CreatedProc(v, proc, c) =>
                !halted && ok && proc == Proc(root, heap, heap) && complete == c && vm == v
    {
      hide VmOk, Invariant, Load, FinishSpace, TakeDown, Translate, AllAccessible, PagesFor, SameOutside, KeepsBytes,
           HoldsAt, BuddyModel.WellFormed, IsRoot, OthersKept;
      NoneAt(vm, root, 0, USER_PAGES, STACK_PAGE);
      LoadNewRoot(vm, root, binary);
      ghost var was, n := vm, PagesFor(|binary|);
      ok, heap := LoadBinary(root, binary);
      WholePages(heap);
      StepKept(was, vm, root, 0, n);
      if ok {
        OutsideOther(was, vm, root, 0, n, kernelRoot, VPNS);
        OutsideOther(was, vm, root, 0, n, root, STACK_PAGE);
        ok, complete, halted := FinishNewSpace(root, kernelRoot, kernelEnd, heap);
      } else {
        VmZone(vm);
        halted := TakeDownSpace(root);
        complete := false;
      }
    }

    /** create_proc() after the program. */
    method FinishNewSpace(root: nat, kernelRoot: nat, kernelEnd: nat, ghost heap: nat)
        returns (ok: bool, complete: bool, halted: bool)
      requires VmOk(vm) && Invariant(vm.zone) && IsRoot(vm, root) && IsRoot(vm, kernelRoot) && vm.base <= root
      requires KERNEL_START_VA <= kernelEnd && KERNEL_PAGE + PagesFor(kernelEnd - KERNEL_START_VA) <= VPNS
      requires Translate(vm.tables, root, STACK_PAGE) == None && AllAccessible(vm, root)
      modifies this
      ensures ok && !halted ==> Invariant(vm.zone)
      ensures match FinishSpace(old(vm), root, kernelRoot, KERNEL_PAGE + PagesFor(kernelEnd - KERNEL_START_VA), heap)
              case CreateHalt => halted
              case CreateFailed(v) => !halted && !ok && vm == v
              case CreatedProc(v, proc, c) =>
                !halted && ok && proc == Proc(root, heap, heap) && complete == c && vm == v
    {
      hide VmOk, Invariant, AddStack, TakeDown, GiveBack, CopyLoop, Translate, AllAccessible, PagesFor, SameOutside,
           KeepsBytes, BuddyModel.WellFormed, IsRoot, OthersKept, StackOk, Unowned, Vpn;
      KernelPages();
      VmZone(vm);
      StackKeeps(vm, root);
      ghost var was := vm;
      ok, complete, halted := false, false, false;
      var stack, mapped := AddStackPage(root);
      if stack == None {
        halted := TakeDownSpace(root);
      } else if !mapped {
        StepKept(was, vm, root, 0, 0);
        AccessibleSame(was, vm, root);
        halted := GiveBackSpace(root, stack.value);
      } else {
        StepKept(was, vm, root, STACK_PAGE, STACK_PAGE + 1);
        OutsideOther(was, vm, root, STACK_PAGE, STACK_PAGE + 1, kernelRoot, VPNS);
        complete := CopyKernelMappings(root, kernelRoot, KERNEL_START_VA, kernelEnd);
        ok := true;
      }
    }

    /** free_proc() with a stack page that could not be mapped. */
    method GiveBackSpace(root: nat, frame: nat) returns (halted: bool)
      requires VmOk(vm) && BuddyModel.WellFormed(vm.zone) && IsRoot(vm, root)
      requires vm.base <= root && AllAccessible(vm, root)
      requires Unowned(vm, frame)
      modifies this
      ensures match GiveBack(old(vm), root, frame)
              case CreateHalt => halted
              case CreateFailed(v) => !halted && vm == v
              case CreatedProc(_, _, _) => false
    {
      FreeUnowned(vm, frame);
      hide VmOk, BuddyModel.WellFormed, FreeFrame, TakeDown, LiveFrame, Translate, NoAccess;
      halted := GivePage(frame);
      if !halted { halted := TakeDownSpace(root); }
    }
  }

  /** The places by address: kernelEnd is _kernel_end, procVa and kstackVa what kzalloc() returned. */
  function PlacesAt(kernelRoot: nat, kernelEnd: nat, procVa: nat, procFrame: nat, kstackVa: nat,
                    kstackFrame: nat): Places
    requires KERNEL_START_VA <= kernelEnd
  {
    Places(kernelRoot, KERNEL_PAGE + PagesFor(kernelEnd - KERNEL_START_VA), Vpn(procVa), procFrame, Vpn(kstackVa),
        kstackFrame)
  }

  // ----- the loops' functions, one turn at a time

  lemma GrowUnroll(vm: Vm, root: nat, va: nat, now: nat)
    requires Invariant(vm.zone) && va % PAGE == 0 == now % PAGE
    ensures Grow(vm, root, va / PAGE, now / PAGE) ==
              if va >= now then Grown(vm)
              else match GrowOne(vm, root, va / PAGE)
                   case GrowFailed(v) => GrowFailed(v)
                   case Grown(v) => Grow(v, root, (va + PAGE) / PAGE, now / PAGE)
  {
    hide Invariant, GrowOne;
  }

  lemma ShrinkUnroll(vm: Vm, root: nat, va: nat, was: nat)
    requires VmOk(vm) && IsRoot(vm, root) && va % PAGE == 0 == was % PAGE && was <= USER_HEAP_END
    ensures Shrink(vm, root, va / PAGE, was / PAGE) ==
              if va >= was then Shrunk(vm)
              else match UnmapOne(vm, root, va / PAGE)
                   case UnmapHalt => ShrinkHalt
                   case NotMapped => Shrink(vm, root, (va + PAGE) / PAGE, was / PAGE)
                   case Unmapped(v) => Shrink(v, root, (va + PAGE) / PAGE, was / PAGE)
  {
    hide VmOk, IsRoot, UnmapOne;
  }

  lemma MunmapUnroll(vm: Vm, root: nat, va: nat, end: nat)
    requires VmOk(vm) && IsRoot(vm, root) && va % PAGE == 0 == end % PAGE && (va < end ==> end <= USER_PAGES * PAGE)
    ensures MunmapLoop(vm, root, va / PAGE, end / PAGE) ==
              if va >= end then MunmapDone(vm, 0)
              else match UnmapOne(vm, root, va / PAGE)
                   case UnmapHalt => MunmapHalt
                   case NotMapped => MunmapDone(vm, -1)
                   case Unmapped(v) => MunmapLoop(v, root, (va + PAGE) / PAGE, end / PAGE)
  {
    hide VmOk, IsRoot, UnmapOne;
  }

  lemma LoadUnroll(vm: Vm, root: nat, p: nat, binary: seq<nat>, src: nat)
    requires Invariant(vm.zone) && src <= |binary|
    ensures Load(vm, root, p, binary[src..]) ==
              if src == |binary| then LoadedTo(vm, p)
              else var n := if |binary| - src > PAGE then PAGE else |binary| - src;
                   match LoadOne(vm, root, p, binary[src..src + n])
                   case LoadFailed(v) => LoadFailed(v)
                   case LoadedTo(v, q) => Load(v, root, q, binary[src + n..])
  {
    hide Invariant, LoadOne;
    var n := if |binary| - src > PAGE then PAGE else |binary| - src;
    assert binary[src..][..n] == binary[src..src + n] && binary[src..][n..] == binary[src + n..];
  }

  lemma CopyUnroll(vm: Vm, dst: nat, src: nat, p: nat, last: nat)
    requires VmOk(vm) && Invariant(vm.zone) && IsRoot(vm, dst) && IsRoot(vm, src) && USER_PAGES <= p < last <= VPNS
    ensures var c := CopyOne(vm, dst, src, p);
            && VmOk(c.vm) && Invariant(c.vm.zone) && IsRoot(c.vm, dst) && IsRoot(c.vm, src)
            && var d := CopyLoop(c.vm, dst, src, p + 1, last);
               CopyLoop(vm, dst, src, p, last) == Copied(d.vm, c.complete && d.complete)
  {
    hide VmOk, Invariant, IsRoot, CopyOne, SameOutside, Translate;
    CopyOneRefines(vm, dst, src, p);
    OutsideOther(vm, CopyOne(vm, dst, src, p).vm, dst, p, p + 1, dst, p + 1);
    OutsideOther(vm, CopyOne(vm, dst, src, p).vm, dst, p, p + 1, src, p + 1);
  }

  lemma CopyDone(vm: Vm, dst: nat, src: nat, va: nat, end: nat, p: nat, last: nat)
    requires Invariant(vm.zone) && AtPage(va, end, p, last) && end <= va
    ensures CopyLoop(vm, dst, src, p, last) == Copied(vm, true)
  {
    hide Invariant;
  }

  lemma AllocSafe(z: Zone)
    requires Invariant(z)
    ensures !Alloc(z, 0).AllocHalt? && (Alloc(z, 0).Allocated? ==> Invariant(Alloc(z, 0).zone))
  {
    hide InvariantExcept, Alloc;
    AllocKeeps(z, 0);
  }

  lemma UnmapOneIs(vm: Vm, root: nat, p: nat)
    requires VmOk(vm) && Invariant(vm.zone) && IsRoot(vm, root) && BuddyModel.WellFormed(vm.zone) && p < USER_PAGES
    ensures UnmapOne(vm, root, p) == UnmapPage(vm, root, p)
  {
    hide VmOk, Invariant, UnmapPage;
  }

  lemma WholePages(end: nat)
    requires end % PAGE == 0
    ensures end / PAGE * PAGE == end
  {
  }

  lemma BinaryFits(binary: seq<nat>)
    requires PagesFor(|binary|) * PAGE <= USER_HEAP_END
    ensures |binary| <= VPNS * PAGE
  {
  }

  lemma EndAligned(addr: nat, size: nat)
    ensures MunmapEnd(addr, size) % PAGE == 0
  {
    assert WORD == 0x10_0000_0000_0000 * PAGE;
  }

  /** Address va is that of page p, and the pages of [va, end) are [p, last). */
  ghost predicate AtPage(va: nat, end: nat, p: nat, last: nat) {
    && va % PAGE == 0 && p <= last <= VPNS
    && (if va < end then Vpn(va) == p && last - p == PagesFor(end - va) else last == p)
  }

  lemma AtStart(start: nat, end: nat)
    requires start % PAGE == 0 && start <= end && Vpn(start) + PagesFor(end - start) <= VPNS
    ensures AtPage(start, end, Vpn(start), Vpn(start) + PagesFor(end - start))
  {
  }

  lemma AtNext(va: nat, end: nat, p: nat, last: nat)
    requires AtPage(va, end, p, last) && va < end
    ensures p < last && Vpn(va) == p && AtPage(va + PAGE, end, p + 1, last)
  {
    hide Vpn, PagesFor;
    PagesNext(end - va);
    VpnNext(va);
  }

  lemma PagesNext(bytes: nat)
    requires bytes > 0
    ensures PagesFor(bytes) == 1 + if bytes > PAGE then PagesFor(bytes - PAGE) else 0
    ensures bytes > PAGE ==> PagesFor(bytes - PAGE) > 0
  {
  }

  lemma VpnNext(va: nat)
    requires va % PAGE == 0
    ensures (va + PAGE) % PAGE == 0 && (Vpn(va) + 1 < VPNS ==> Vpn(va + PAGE) == Vpn(va) + 1)
  {
    var q := va / PAGE;
    assert (va + PAGE) / PAGE == q + 1;
    if q % VPNS + 1 < VPNS { NextCut(q); }
  }

  lemma NextCut(q: nat)
    requires q % VPNS + 1 < VPNS
    ensures (q + 1) % VPNS == q % VPNS + 1
  {
    assert q + 1 == VPNS * (q / VPNS) + (q % VPNS + 1);
  }
}
