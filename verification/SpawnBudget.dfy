/**
  What create_proc() needs, page by page: the number of free pages alone decides
  whether it succeeds, fails and gives everything back, or stops the machine
  because the UART cannot be mapped.
 */
module SpawnBudget {
  import opened Basics
  import opened Bits
  import opened Sv39
  import opened BuddyModel
  import opened BuddyInvariant
  import opened BuddyCalls
  import opened BuddyCount
  import opened PageTable
  import opened PageMap
  import opened PageBudget
  import opened UserMemory
  import opened Loader
  import opened KernelMappings
  import opened ProcessImage

  /** n pages from p on. */
  function Range(p: nat, n: nat): (ps: seq<nat>)
    ensures forall q :: q in ps ==> p <= q < p + n
    decreases n
  {
    if n == 0 then [] else [p] + Range(p + 1, n - 1)
  }

  // ----- single steps

  lemma AllocHave(vm: Vm, root: nat)
    requires VmOk(vm) && AllocPage(vm).GotPage? && IsRoot(vm, root)
    ensures HaveOf(AllocPage(vm).vm.tables, root) == HaveOf(vm.tables, root)
  {
    hide AllocPage, HaveOf;
    AllocPageFresh(vm);
    VmTrees(vm, root);
    hide VmOk, EntriesOk;
    HaveKept(vm.tables, AllocPage(vm).vm.tables, vm.owner, root);
  }

  /** A page taken and mapped, as the loader and the stack do it. */
  lemma TakeAndMap(vm: Vm, v: Vm, root: nat, p: nat, frame: nat, perm: nat)
    requires VmOk(vm) && Invariant(vm.zone) && BuddyModel.WellFormed(vm.zone) && IsRoot(vm, root) && p < VPNS
    requires AllocPage(vm).GotPage? && VmOk(v) && v.zone == AllocPage(vm).vm.zone && v.tables == AllocPage(vm).vm.tables
    requires IsRoot(v, root)
    ensures var r, h := MapPage(v, root, p, frame, perm), HaveOf(vm.tables, root);
            && BuddyModel.WellFormed(r.vm.zone) && Pool(vm) > 0
            && (r.MapDone? <==> Pool(vm) >= 1 + Miss(h, p))
            && (r.MapDone? ==> Pool(r.vm) + 1 + Miss(h, p) == Pool(vm) && HaveOf(r.vm.tables, root) == Add(h, p))
            && (r.MapFailed? ==> Pool(r.vm) == 0)
  {
    hide VmOk, Invariant, AllocPage, MapPage, HaveOf, Miss, Add, FreeCount, BuddyModel.WellFormed, IsRoot;
    AllocPageCost(vm);
    AllocHave(vm, root);
    VmZone(v);
    MapCost(v, root, p, frame, perm);
  }

  lemma LoadOneCost(vm: Vm, root: nat, p: nat, chunk: seq<nat>)
    requires VmOk(vm) && Invariant(vm.zone) && BuddyModel.WellFormed(vm.zone) && IsRoot(vm, root)
    requires p < USER_PAGES && |chunk| <= PAGE
    ensures var r, h := LoadOne(vm, root, p, chunk), HaveOf(vm.tables, root);
            && BuddyModel.WellFormed(r.vm.zone)
            && (r.LoadedTo? <==> Pool(vm) >= 1 + Miss(h, p))
            && (r.LoadedTo? ==> Pool(r.vm) + 1 + Miss(h, p) == Pool(vm) && HaveOf(r.vm.tables, root) == Add(h, p))
  {
    hide VmOk, Invariant, AllocPage, MapPage, HaveOf, Miss, Add, FreeCount, BuddyModel.WellFormed, Extends, LiveFrame;
    AllocPageCost(vm);
    if AllocPage(vm).GotPage? {
      AllocPageFresh(vm);
      AllocKeepsBytes(vm);
      RootStays(vm, AllocPage(vm).vm, root);
      var w := CopyIn(AllocPage(vm).vm, AllocPage(vm).frame, chunk);
      CopyInKeeps(AllocPage(vm).vm, AllocPage(vm).frame, chunk);
      TakeAndMap(vm, w, root, p, AllocPage(vm).frame, CODE_PERM);
    }
  }

  /** The loading loop: a frame per page, and the tables. */
  lemma {:induction false} LoadCost(vm: Vm, root: nat, p: nat, bytes: seq<nat>)
    requires VmOk(vm) && Invariant(vm.zone) && BuddyModel.WellFormed(vm.zone) && IsRoot(vm, root)
    requires p + PagesFor(|bytes|) <= USER_PAGES && NoneIn(vm, root, p, p + PagesFor(|bytes|))
    ensures var r, h := Load(vm, root, p, bytes), HaveOf(vm.tables, root);
            var n := PagesFor(|bytes|);
            var cost := n + Need(h, Range(p, n));
            && BuddyModel.WellFormed(r.vm.zone)
            && (r.LoadedTo? <==> Pool(vm) >= cost)
            && (r.LoadedTo? ==> Pool(r.vm) + cost == Pool(vm) && HaveOf(r.vm.tables, root) == AddAll(h, Range(p, n)))
    decreases |bytes|
  {
    hide VmOk, Invariant, LoadOne, HaveOf, Miss, Add, Pool, BuddyModel.WellFormed, IsRoot, Translate, NoneIn,
         SameOutside, KeepsBytes, PageHolds;
    if bytes != [] {
      var c := ChunkSize(bytes);
      NoneAt(vm, root, p, p + PagesFor(|bytes|), p);
      LoadOneCost(vm, root, p, bytes[..c]);
      LoadOneHolds(vm, root, p, bytes[..c]);
      var r := LoadOne(vm, root, p, bytes[..c]);
      LoadRest(vm, r.vm, root, p, bytes);
      VmZone(r.vm);
      var n := PagesFor(|bytes|);
      assert Range(p, n)[0] == p && Range(p, n)[1..] == Range(p + 1, n - 1);
      hide PagesFor, Range;
      if r.LoadedTo? { LoadCost(r.vm, root, p + 1, bytes[c..]); }
    }
  }

  lemma StackCost(vm: Vm, root: nat)
    requires VmOk(vm) && Invariant(vm.zone) && BuddyModel.WellFormed(vm.zone) && IsRoot(vm, root)
    ensures var s, h := AddStack(vm, root), HaveOf(vm.tables, root);
            && (s.StackAt? <==> Pool(vm) >= 1 + Miss(h, STACK_PAGE))
            && (s.StackAt? ==>
                  && BuddyModel.WellFormed(s.vm.zone) && Pool(s.vm) + 1 + Miss(h, STACK_PAGE) == Pool(vm)
                  && HaveOf(s.vm.tables, root) == Add(h, STACK_PAGE))
  {
    hide VmOk, Invariant, AllocPage, MapPage, HaveOf, Miss, Add, FreeCount, BuddyModel.WellFormed, Extends, LiveFrame;
    AllocPageCost(vm);
    if AllocPage(vm).GotPage? {
      AllocPageFresh(vm);
      RootStays(vm, AllocPage(vm).vm, root);
      TakeAndMap(vm, AllocPage(vm).vm, root, STACK_PAGE, AllocPage(vm).frame, HEAP_PERM);
    }
  }

  // ----- the kernel's pages

  /** The pages of [p, end) that a table maps. */
  function MappedPages(t: map<nat, seq<nat>>, root: nat, p: nat, end: nat): (ps: seq<nat>)
    ensures forall q :: q in ps ==> p <= q < end
    decreases end - p
  {
    if p >= end then []
    else (if Translate(t, root, p).Some? then [p] else []) + MappedPages(t, root, p + 1, end)
  }

  lemma {:induction false} MappedSame(t: map<nat, seq<nat>>, t': map<nat, seq<nat>>, root: nat, p: nat, end: nat)
    requires forall q: nat :: p <= q < end ==> Translate(t', root, q) == Translate(t, root, q)
    ensures MappedPages(t', root, p, end) == MappedPages(t, root, p, end)
    decreases end - p
  {
    hide Translate;
    if p < end { MappedSame(t, t', root, p + 1, end); }
  }

  ghost predicate SlotFree(h: Have) {
    UART_SLOT !in h.mids
  }

  lemma KernelSlot(p: nat)
    requires KERNEL_PAGE <= p < VPNS
    ensures Index(p, 2) != UART_SLOT
  {
  }

  lemma CopyOneCost(vm: Vm, dst: nat, src: nat, p: nat)
    requires VmOk(vm) && Invariant(vm.zone) && BuddyModel.WellFormed(vm.zone) && IsRoot(vm, dst) && IsRoot(vm, src)
    requires KERNEL_PAGE <= p < VPNS
    ensures var c, h := CopyOne(vm, dst, src, p), HaveOf(vm.tables, dst);
            var h', n := HaveOf(c.vm.tables, dst), if Translate(vm.tables, src, p).Some? then Miss(h, p) else 0;
            && BuddyModel.WellFormed(c.vm.zone) && (SlotFree(h) ==> SlotFree(h'))
            && (c.complete <==> Pool(vm) >= n)
            && (c.complete ==>
                  Pool(c.vm) + n == Pool(vm) && h' == if Translate(vm.tables, src, p).Some? then Add(h, p) else h)
            && (!c.complete ==> Pool(c.vm) == 0)
  {
    hide VmOk, Invariant, SourceEntry, MapPage, HaveOf, Miss, Add, Pool, BuddyModel.WellFormed, IsRoot, Translate,
         Target, PteFlags, Index;
    KernelSlot(p);
    SourceIsTranslation(vm, src, p);
    match SourceEntry(vm, src, p)
    case None =>
    case Some(e) => MapCost(vm, dst, p, Target(e), PteFlags(e));
  }

  /** copy_kernel_mappings() is complete exactly if its tables can be had; otherwise it leaves no page free. */
  lemma {:induction false} CopyCost(vm: Vm, dst: nat, src: nat, p: nat, end: nat)
    requires VmOk(vm) && Invariant(vm.zone) && BuddyModel.WellFormed(vm.zone) && IsRoot(vm, dst) && IsRoot(vm, src)
    requires KERNEL_PAGE <= p && end <= VPNS && dst != src
    ensures var c, h := CopyLoop(vm, dst, src, p, end), HaveOf(vm.tables, dst);
            var h', ps := HaveOf(c.vm.tables, dst), MappedPages(vm.tables, src, p, end);
            && BuddyModel.WellFormed(c.vm.zone) && (SlotFree(h) ==> SlotFree(h'))
            && (c.complete <==> Pool(vm) >= Need(h, ps))
            && (c.complete ==> Pool(c.vm) + Need(h, ps) == Pool(vm) && h' == AddAll(h, ps))
            && (!c.complete ==> Pool(c.vm) == 0)
    decreases end - p
  {
    hide VmOk, Invariant, CopyOne, HaveOf, Miss, Add, Pool, BuddyModel.WellFormed, IsRoot, Translate, SameOutside,
         SlotFree, PageCopied;
    if p < end {
      CopyOneCost(vm, dst, src, p);
      CopyOneRefines(vm, dst, src, p);
      var c := CopyOne(vm, dst, src, p);
      OutsideOther(vm, c.vm, dst, p, p + 1, dst, VPNS);
      SourceKept(vm, c.vm, dst, src, p, end);
      CopyCost(c.vm, dst, src, p + 1, end);
      var h, rest := HaveOf(vm.tables, dst), MappedPages(vm.tables, src, p + 1, end);
      NeedFirst(h, if Translate(vm.tables, src, p).Some? then [p] else [], p, rest);
    }
  }

  lemma NeedFirst(h: Have, first: seq<nat>, p: nat, rest: seq<nat>)
    requires first == [] || first == [p]
    ensures Need(h, first + rest) == if first == [] then Need(h, rest) else Miss(h, p) + Need(Add(h, p), rest)
    ensures AddAll(h, first + rest) == if first == [] then AddAll(h, rest) else AddAll(Add(h, p), rest)
  {
    hide Miss, Add;
    if first == [] {
      assert first + rest == rest;
    } else {
      assert (first + rest)[0] == p && (first + rest)[1..] == rest;
    }
  }

  lemma SourceKept(vm: Vm, v: Vm, dst: nat, src: nat, p: nat, end: nat)
    requires SameOutside(vm, v, dst, p, p + 1) && IsRoot(vm, src) && dst != src && end <= VPNS
    ensures IsRoot(v, src) && MappedPages(v.tables, src, p + 1, end) == MappedPages(vm.tables, src, p + 1, end)
  {
    hide Translate, MappedPages;
    MappedSame(vm.tables, v.tables, src, p + 1, end);
  }

  // ----- create_proc

  lemma {:induction false} SlotAll(h: Have, ps: seq<nat>)
    requires SlotFree(h) && forall p :: p in ps ==> Index(p, 2) != UART_SLOT
    ensures SlotFree(AddAll(h, ps))
    decreases |ps|
  {
    hide Index;
    if ps != [] { SlotAll(Add(h, ps[0]), ps[1..]); }
  }

  /** The pages of proc_t and the kernel stack: their tables. */
  lemma ProcCost(vm: Vm, root: nat, pl: Places)
    requires VmOk(vm) && Invariant(vm.zone) && BuddyModel.WellFormed(vm.zone) && IsRoot(vm, root) && PlacesOk(vm, pl)
    ensures var r, h := MapProc(vm, root, pl), HaveOf(vm.tables, root);
            var ps := [pl.procPage, pl.kstackPage];
            && BuddyModel.WellFormed(r.vm.zone)
            && (r.MapDone? <==> Pool(vm) >= Need(h, ps))
            && (r.MapDone? ==> Pool(r.vm) + Need(h, ps) == Pool(vm) && HaveOf(r.vm.tables, root) == AddAll(h, ps))
  {
    hide VmOk, Invariant, MapPage, HaveOf, Miss, Add, FreeCount, BuddyModel.WellFormed, IsRoot, Translate, Index,
         SameOutside, KeepsBytes, AllAccessible, LeafPte;
    var ps := [pl.procPage, pl.kstackPage];
    assert ps[0] == pl.procPage && ps[1..] == [pl.kstackPage];
    NeedOne(Add(HaveOf(vm.tables, root), pl.procPage), pl.kstackPage);
    MapCost(vm, root, pl.procPage, pl.procFrame, KERNEL_RW);
    SuperMap(vm, root, pl.procPage, pl.procFrame);
    var x := MapPage(vm, root, pl.procPage, pl.procFrame, KERNEL_RW).vm;
    OutsideOther(vm, x, root, pl.procPage, pl.procPage + 1, root, VPNS);
    MapCost(x, root, pl.kstackPage, pl.kstackFrame, KERNEL_RW);
  }

  /** What is left after the kernel's pages: everything paid, or nothing. */
  ghost predicate Paid(pool: nat, cost: nat, h: Have, ps: seq<nat>, f: nat, r: Created) {
    match r
    case CreatedProc(v, _, complete) =>
      && BuddyModel.WellFormed(v.zone) && pool >= cost && (SlotFree(h) ==> SlotFree(HaveOf(v.tables, f)))
      && (complete <==> pool >= cost + Need(h, ps))
      && Pool(v) == if complete then pool - cost - Need(h, ps) else 0
    case _ => pool < cost
  }

  lemma FinishCost(vm: Vm, f: nat, kernelRoot: nat, kernelEnd: nat, heap: nat)
    requires VmOk(vm) && Invariant(vm.zone) && BuddyModel.WellFormed(vm.zone) && IsRoot(vm, f) && IsRoot(vm, kernelRoot)
    requires kernelEnd <= VPNS && kernelRoot != f && Translate(vm.tables, f, STACK_PAGE) == None
    ensures var h := HaveOf(vm.tables, f);
            Paid(Pool(vm), 1 + Miss(h, STACK_PAGE), Add(h, STACK_PAGE),
                 MappedPages(vm.tables, kernelRoot, KERNEL_PAGE, kernelEnd), f,
                 FinishSpace(vm, f, kernelRoot, kernelEnd, heap))
  {
    hide VmOk, Invariant, AddStack, HaveOf, Miss, Add, Pool, BuddyModel.WellFormed, IsRoot, Translate, SameOutside,
         KeepsBytes, CopyLoop, TakeDown, GiveBack, StackOk, Unowned, SlotFree, MappedPages;
    StackCost(vm, f);
    StackKeeps(vm, f);
    if AddStack(vm, f).StackAt? {
      var x := AddStack(vm, f).vm;
      OutsideOther(vm, x, f, STACK_PAGE, STACK_PAGE + 1, f, VPNS);
      StackSource(vm, x, f, kernelRoot, kernelEnd);
      CopyCost(x, f, kernelRoot, KERNEL_PAGE, kernelEnd);
    }
  }

  lemma StackSource(vm: Vm, x: Vm, f: nat, src: nat, end: nat)
    requires SameOutside(vm, x, f, STACK_PAGE, STACK_PAGE + 1) && IsRoot(vm, src) && end <= VPNS && src != f
    ensures IsRoot(x, src)
    ensures MappedPages(x.tables, src, KERNEL_PAGE, end) == MappedPages(vm.tables, src, KERNEL_PAGE, end)
  {
    hide Translate, MappedPages;
    MappedSame(vm.tables, x.tables, src, KERNEL_PAGE, end);
  }

  lemma FillCost(vm: Vm, f: nat, kernelRoot: nat, kernelEnd: nat, binary: seq<nat>)
    requires VmOk(vm) && Invariant(vm.zone) && BuddyModel.WellFormed(vm.zone) && IsRoot(vm, f) && IsRoot(vm, kernelRoot)
    requires kernelEnd <= VPNS && kernelRoot != f && PagesFor(|binary|) * PAGE <= USER_HEAP_END
    requires NoneIn(vm, f, 0, USER_PAGES) && AllAccessible(vm, f)
    ensures var h, n := HaveOf(vm.tables, f), PagesFor(|binary|);
            var ps := Range(0, n) + [STACK_PAGE];
            Paid(Pool(vm), n + 1 + Need(h, ps), AddAll(h, ps),
                MappedPages(vm.tables, kernelRoot, KERNEL_PAGE, kernelEnd), f,
                 FillSpace(vm, f, kernelRoot, kernelEnd, binary))
  {
    hide VmOk, Invariant, Load, FinishSpace, HaveOf, Pool, BuddyModel.WellFormed, IsRoot, Translate, SameOutside,
         KeepsBytes, TakeDown, PagesFor, AllAccessible, HoldsAt, MappedPages, Range, NoneIn, Add, Miss;
    LoadNewRoot(vm, f, binary);
    var h, n := HaveOf(vm.tables, f), PagesFor(|binary|);
    NoneRange(vm, f, n);
    LoadCost(vm, f, 0, binary);
    NeedJoin(h, Range(0, n), [STACK_PAGE]);
    NeedOne(AddAll(h, Range(0, n)), STACK_PAGE);
    hide Need, AddAll;
    if Load(vm, f, 0, binary).LoadedTo? {
      var u := Load(vm, f, 0, binary).vm;
      NoneAt(vm, f, 0, USER_PAGES, STACK_PAGE);
      OutsideOther(vm, u, f, 0, n, f, STACK_PAGE);
      LoadSource(vm, u, f, kernelRoot, n, kernelEnd);
      FinishCost(u, f, kernelRoot, kernelEnd, n * PAGE);
    }
  }

  lemma NoneRange(vm: Vm, f: nat, n: nat)
    requires NoneIn(vm, f, 0, USER_PAGES) && n <= USER_PAGES
    ensures NoneIn(vm, f, 0, 0 + n)
  {
    hide Translate;
  }

  lemma NeedOne(h: Have, p: nat)
    ensures Need(h, [p]) == Miss(h, p) && AddAll(h, [p]) == Add(h, p)
  {
    hide Miss, Add;
    assert [p][1..] == [];
  }

  lemma LoadSource(vm: Vm, u: Vm, f: nat, src: nat, n: nat, end: nat)
    requires SameOutside(vm, u, f, 0, n) && IsRoot(vm, src) && end <= VPNS && src != f
    ensures IsRoot(u, src)
    ensures MappedPages(u.tables, src, KERNEL_PAGE, end) == MappedPages(vm.tables, src, KERNEL_PAGE, end)
  {
    hide Translate, MappedPages;
    MappedSame(vm.tables, u.tables, src, KERNEL_PAGE, end);
  }

  /** The pages mapped before the kernel's: each takes its tables. */
  function EarlyPages(pl: Places, n: nat): seq<nat> {
    [pl.procPage, pl.kstackPage] + (Range(0, n) + [STACK_PAGE])
  }

  lemma EmptyHave(t: map<nat, seq<nat>>, f: nat)
    requires f in t && t[f] == ZeroTable()
    ensures HaveOf(t, f) == Have({}, {})
  {
  }

  lemma BeforeCost(vm: Vm, f: nat, pl: Places, binary: seq<nat>)
    requires VmOk(vm) && Invariant(vm.zone) && BuddyModel.WellFormed(vm.zone) && IsRoot(vm, f) && PlacesOk(vm, pl)
    requires pl.kernelRoot != f && vm.base <= f && PagesFor(|binary|) * PAGE <= USER_HEAP_END
    requires (forall p: nat :: Translate(vm.tables, f, p) == None) && HaveOf(vm.tables, f) == Have({}, {})
    ensures var n := PagesFor(|binary|);
            Paid(Pool(vm), n + 1 + Need(Have({}, {}), EarlyPages(pl, n)), AddAll(Have({}, {}), EarlyPages(pl, n)),
                 MappedPages(vm.tables, pl.kernelRoot, KERNEL_PAGE, pl.kernelEnd), f, BeforeUart(vm, f, pl, binary))
  {
    hide VmOk, Invariant, MapProc, FillSpace, TakeDown, HaveOf, Pool, BuddyModel.WellFormed, IsRoot, Translate,
         SameOutside, KeepsBytes, PagesFor, AllAccessible, MappedPages, Range, NoneIn, Need, AddAll, PlacesOk, Early;
    var h, n := Have({}, {}), PagesFor(|binary|);
    PlacesBound(vm, pl);
    ProcMapped(vm, f, pl);
    ProcCost(vm, f, pl);
    NeedJoin(h, [pl.procPage, pl.kstackPage], Range(0, n) + [STACK_PAGE]);
    if MapProc(vm, f, pl).MapDone? {
      var x := MapProc(vm, f, pl).vm;
      NoneBelow(vm, x, f);
      VmZone(x);
      ProcSource(vm, x, f, pl.kernelRoot, pl.kernelEnd);
      FillCost(x, f, pl.kernelRoot, pl.kernelEnd, binary);
    }
  }

  lemma ProcSource(vm: Vm, x: Vm, f: nat, src: nat, end: nat)
    requires SameOutside(vm, x, f, USER_PAGES, VPNS) && IsRoot(vm, src) && end <= VPNS && src != f
    ensures MappedPages(x.tables, src, KERNEL_PAGE, end) == MappedPages(vm.tables, src, KERNEL_PAGE, end)
  {
    hide Translate, MappedPages;
    MappedSame(vm.tables, x.tables, src, KERNEL_PAGE, end);
  }

  /** With fewer free pages than this, create_proc() does not get to the UART. */
  function NeededEarly(pl: Places, n: nat): nat {
    2 + n + Need(Have({}, {}), EarlyPages(pl, n))
  }

  /** From this many on, it succeeds. */
  function NeededInAll(t: map<nat, seq<nat>>, pl: Places, n: nat): nat {
    2 + n + Need(Have({}, {}), EarlyPages(pl, n) + (MappedPages(t, pl.kernelRoot, KERNEL_PAGE,
        pl.kernelEnd) + [UART_PAGE]))
  }

  lemma UserSlot(p: nat)
    requires p < USER_PAGES
    ensures Index(p, 2) == 0
  {
  }

  /** No page mapped before the kernel's lies in the UART's gigabyte. */
  lemma EarlySlots(vm: Vm, pl: Places, n: nat)
    requires PlacesOk(vm, pl) && n <= USER_PAGES
    ensures SlotFree(AddAll(Have({}, {}), EarlyPages(pl, n)))
  {
    hide Index, Range;
    forall p | p in EarlyPages(pl, n) ensures Index(p, 2) != UART_SLOT {
      if p in Range(0, n) + [STACK_PAGE] { UserSlot(p); }
    }
    SlotAll(Have({}, {}), EarlyPages(pl, n));
  }

  /** The UART always needs two tables of its own, so the two thresholds are at least two apart. */
  lemma NeededSplit(vm: Vm, pl: Places, n: nat)
    requires PlacesOk(vm, pl) && n <= USER_PAGES
    ensures var ps := MappedPages(vm.tables, pl.kernelRoot, KERNEL_PAGE, pl.kernelEnd);
            NeededInAll(vm.tables, pl, n) == NeededEarly(pl, n) + Need(AddAll(Have({}, {}), EarlyPages(pl, n)), ps) + 2
  {
    EarlySlots(vm, pl, n);
    PlacesBound(vm, pl);
    UartPage();
    var h0, early := Have({}, {}), EarlyPages(pl, n);
    var h, ps := AddAll(h0, early), MappedPages(vm.tables, pl.kernelRoot, KERNEL_PAGE, pl.kernelEnd);
    forall p | p in ps ensures Index(p, 2) != UART_SLOT { KernelSlot(p); }
    SlotAll(h, ps);
    hide Index, MappedPages, EarlyPages, Need, AddAll, PlacesOk;
    NeedJoin(h0, early, ps + [UART_PAGE]);
    NeedJoin(h, ps, [UART_PAGE]);
    NeedOne(AddAll(h, ps), UART_PAGE);
  }

  /** The UART's mapping in a process that is complete but for it. */
  lemma UartCost(vm: Vm, f: nat, binary: seq<nat>, r: Created)
    requires r.CreatedProc? && FillOk(vm, f, binary, r) && Invariant(r.vm.zone) && BuddyModel.WellFormed(r.vm.zone)
    requires SlotFree(HaveOf(r.vm.tables, f))
    ensures UartFails(r, f) <==> Pool(r.vm) < 2
    ensures AddUart(r, f).CreateHalt? <==> Pool(r.vm) < 2
    ensures AddUart(r, f).CreatedProc? ==>
              BuddyModel.WellFormed(AddUart(r, f).vm.zone) && Pool(AddUart(r, f).vm) + 2 == Pool(r.vm)
  {
    UartPage();
    hide VmOk, Invariant, MapPage, HaveOf, Pool, BuddyModel.WellFormed, IsRoot, Index, OthersKept, PagesFor;
    MapCost(r.vm, f, UART_PAGE, UART_FRAME, KERNEL_RW);
  }

  lemma NewSpaceCost(vm: Vm)
    requires VmOk(vm) && Invariant(vm.zone) && BuddyModel.WellFormed(vm.zone) && AllocPage(vm).GotPage?
    ensures BuddyModel.WellFormed(NewSpace(vm).zone) && Pool(NewSpace(vm)) + 1 == Pool(vm)
    ensures HaveOf(NewSpace(vm).tables, AllocPage(vm).frame) == Have({}, {})
  {
    hide VmOk, Invariant, AllocPage, HaveOf, FreeCount, BuddyModel.WellFormed, Extends, LiveFrame;
    AllocPageCost(vm);
    AllocPageFresh(vm);
    EmptyHave(NewSpace(vm).tables, AllocPage(vm).frame);
  }

  /** create_proc() gets to the UART with fewer than two free pages. */
  ghost predicate ShortAtUart(vm: Vm, pl: Places, binary: seq<nat>)
    requires Invariant(vm.zone)
  {
    && AllocPage(vm).GotPage? && Invariant(NewSpace(vm).zone)
    && match BeforeUart(NewSpace(vm), AllocPage(vm).frame, pl, binary)
       case CreatedProc(v, _, _) => BuddyModel.WellFormed(v.zone) && Pool(v) < 2
       case _ => false
  }

  /**
    create_proc(), exactly. With fewer free pages than it needs up to the kernel's
    pages it does not succeed (and, with a whole number of order-10 blocks, returns
    NULL); with as many as it needs in all it succeeds, and
    takes exactly those; in between it halts, because it gets to the UART with fewer
    than two free pages.
   */
  lemma CreateExactly(vm: Vm, pl: Places, binary: seq<nat>)
    requires VmOk(vm) && Invariant(vm.zone) && BuddyModel.WellFormed(vm.zone) && PlacesOk(vm, pl)
    requires PagesFor(|binary|) * PAGE <= USER_HEAP_END
    ensures var r, n := CreateProc(vm, pl, binary), PagesFor(|binary|);
            var lo, hi := NeededEarly(pl, n), NeededInAll(vm.tables, pl, n);
            && lo + 2 <= hi
            && (r.CreatedProc? <==> Pool(vm) >= hi)
            && (r.CreatedProc? ==> r.complete && BuddyModel.WellFormed(r.vm.zone) && Pool(r.vm) + hi == Pool(vm))
            && (lo <= Pool(vm) < hi ==> r.CreateHalt?)
            && (vm.zone.n % 1024 == 0 ==> (r.CreateHalt? <==> lo <= Pool(vm) < hi) && (r.CreateFailed? <==>
                 Pool(vm) < lo))
            && (Starved(vm, pl, binary) <==> lo <= Pool(vm) < hi)
            && (ShortAtUart(vm, pl, binary) <==> lo <= Pool(vm) < hi)
  {
    hide VmOk, Invariant, AllocPage, BeforeUart, AddUart, Translate, OthersKept, PagesFor, PlacesOk, IsRoot, HaveOf,
         Pool, BuddyModel.WellFormed, Need, MappedPages, EarlyPages, AddAll, NeededEarly, NeededInAll, SlotFree,
         Restored, UartFails;
    var n := PagesFor(|binary|);
    PagesSmall(binary);
    NeededSplit(vm, pl, n);
    CreateKeeps(vm, pl, binary);
    AllocPageCost(vm);
    NeededPositive(pl, n);
    if AllocPage(vm).GotPage? { GotExactly(vm, pl, binary); }
  }

  lemma PagesSmall(binary: seq<nat>)
    requires PagesFor(|binary|) * PAGE <= USER_HEAP_END
    ensures PagesFor(|binary|) <= USER_PAGES
  {
  }

  lemma NeededPositive(pl: Places, n: nat)
    ensures NeededEarly(pl, n) >= 2
  {
  }

  lemma GotExactly(vm: Vm, pl: Places, binary: seq<nat>)
    requires VmOk(vm) && Invariant(vm.zone) && BuddyModel.WellFormed(vm.zone) && PlacesOk(vm, pl)
    requires PagesFor(|binary|) * PAGE <= USER_HEAP_END && PagesFor(|binary|) <= USER_PAGES && AllocPage(vm).GotPage?
    ensures var r, n := CreateProc(vm, pl, binary), PagesFor(|binary|);
            var lo, hi := NeededEarly(pl, n), NeededInAll(vm.tables, pl, n);
            && (r.CreatedProc? <==> Pool(vm) >= hi)
            && (r.CreatedProc? ==> r.complete && BuddyModel.WellFormed(r.vm.zone) && Pool(r.vm) + hi == Pool(vm))
            && (lo <= Pool(vm) < hi ==> r.CreateHalt?)
            && (Starved(vm, pl, binary) <==> lo <= Pool(vm) < hi)
            && (ShortAtUart(vm, pl, binary) <==> lo <= Pool(vm) < hi)
  {
    hide VmOk, Invariant, AllocPage, BeforeUart, Translate, OthersKept, PagesFor, PlacesOk, IsRoot, HaveOf, FreeCount,
         BuddyModel.WellFormed, Need, MappedPages, EarlyPages, AddAll, NeededInAll, SlotFree, UartFails, FillOk,
         MapPage;
    var n := PagesFor(|binary|);
    NeededSplit(vm, pl, n);
    EarlySlots(vm, pl, n);
    NewRoot(vm);
    var f, w := AllocPage(vm).frame, NewSpace(vm);
    NewSpaceCost(vm);
    PlacesKept(vm, w, f, pl);
    PlacesBound(vm, pl);
    RootSource(vm, w, f, pl.kernelRoot, pl.kernelEnd);
    BeforeKeeps(w, f, pl, binary);
    BeforeCost(w, f, pl, binary);
    var b := BeforeUart(w, f, pl, binary);
    UartNotFailing(b, f);
    if b.CreatedProc? { UartCost(w, f, binary, b); }
  }

  lemma UartNotFailing(r: Created, f: nat)
    requires r.CreatedProc? ==> Invariant(r.vm.zone)
    ensures !r.CreatedProc? ==> !UartFails(r, f)
  {
  }

  lemma RootSource(vm: Vm, w: Vm, f: nat, src: nat, end: nat)
    requires OthersKept(vm, w, f) && IsRoot(vm, src) && !IsRoot(vm, f) && end <= VPNS
    ensures src != f && MappedPages(w.tables, src, KERNEL_PAGE, end) == MappedPages(vm.tables, src, KERNEL_PAGE, end)
  {
    hide Translate, MappedPages;
    MappedSame(vm.tables, w.tables, src, KERNEL_PAGE, end);
  }
}
