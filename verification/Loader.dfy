/**
  The binary-loading loop of create_proc() (kernel/proc.c), judged by what a
  user program reads back through the page table.
 */
module Loader {
  import opened Basics
  import opened Bits
  import opened Sv39
  import opened BuddyModel
  import opened BuddyInvariant
  import opened BuddyCalls
  import opened PageTable
  import opened PageMap
  import opened UserMemory

  const CODE_PERM: nat := PTE_R + PTE_X + PTE_U

  datatype LoadOutcome = LoadFailed(vm: Vm) | LoadedTo(vm: Vm, page: nat)

  function Bytes(vm: Vm, f: nat): seq<nat> {
    if f in vm.data then vm.data[f] else []
  }

  /** memcpy() to the start of a frame. */
  function CopyIn(vm: Vm, f: nat, chunk: seq<nat>): Vm
    requires |chunk| <= |Bytes(vm, f)|
  {
    vm.(data := vm.data[f := chunk + Bytes(vm, f)[|chunk|..]])
  }

  /** to_copy */
  function ChunkSize(bytes: seq<nat>): (n: nat)
    ensures n <= |bytes| && n <= PAGE && (bytes != [] ==> n > 0)
  {
    if |bytes| > PAGE then PAGE else |bytes|
  }

  /** One turn of the loop: a new page holding `chunk` at virtual page p. */
  function LoadOne(vm: Vm, root: nat, p: nat, chunk: seq<nat>): (r: LoadOutcome)
    requires Invariant(vm.zone) && |chunk| <= PAGE
    ensures Invariant(r.vm.zone)
  {
    match AllocPage(vm)
    case NoPage => LoadFailed(vm)
    case GotPage(v, f) =>
      match MapPage(CopyIn(v, f, chunk), root, p, f, CODE_PERM)
      case MapFailed(w) => LoadFailed(w)
      case MapDone(w) => LoadedTo(w, p + 1)
  }

  /** The loop, from virtual page p with these bytes remaining; it ends with the page after the last. */
  function Load(vm: Vm, root: nat, p: nat, bytes: seq<nat>): (r: LoadOutcome)
    requires Invariant(vm.zone)
    ensures Invariant(r.vm.zone)
    decreases |bytes|
  {
    if bytes == [] then LoadedTo(vm, p)
    else
      match LoadOne(vm, root, p, bytes[..ChunkSize(bytes)])
      case LoadFailed(v) => LoadFailed(v)
      case LoadedTo(v, q) => Load(v, root, q, bytes[ChunkSize(bytes)..])
  }

  // ----- what a program reads

  /** The byte at a virtual address, read through the page table. */
  function ByteAt(vm: Vm, root: nat, va: nat): Option<nat> {
    match Translate(vm.tables, root, va / PAGE)
    case None => None
    case Some(e) => if va % PAGE < |Bytes(vm, Target(e))| then Some(Bytes(vm, Target(e))[va % PAGE]) else None
  }

  /** Live frames stay live and keep their contents. */
  ghost predicate KeepsBytes(vm: Vm, vm': Vm) {
    match vm
    case Vm(_, _, _, _, _) =>
      && vm'.base == vm.base && vm'.zone.n == vm.zone.n
      && BuddyModel.WellFormed(vm.zone) && BuddyModel.WellFormed(vm'.zone)
      && forall f: nat :: LiveFrame(vm.zone, vm.base, f) ==>
           LiveFrame(vm'.zone, vm.base, f) && Bytes(vm', f) == Bytes(vm, f)
  }

  lemma KeepsRefl(vm: Vm)
    requires VmOk(vm)
    ensures KeepsBytes(vm, vm)
  {
  }

  lemma KeepsTrans(a: Vm, b: Vm, c: Vm)
    requires KeepsBytes(a, b) && KeepsBytes(b, c)
    ensures KeepsBytes(a, c)
  {
    hide LiveFrame, Bytes;
  }

  lemma AllocKeepsBytes(vm: Vm)
    requires VmOk(vm) && AllocPage(vm).GotPage?
    ensures KeepsBytes(vm, AllocPage(vm).vm) && Bytes(AllocPage(vm).vm, AllocPage(vm).frame) == ZeroBytes()
  {
    AllocPageFresh(vm);
    hide LiveFrame, SameTranslations, TreesOk, AllocPage;
  }

  lemma NextKeepsBytes(vm: Vm, g: nat, i: nat, child: Role)
    requires VmOk(vm)
    ensures KeepsBytes(vm, NextTable(vm, g, i, child, true).vm)
  {
    KeepsRefl(vm);
    assert Invariant(vm.zone);
    hide LiveFrame, VmOk, AllocPage;
    if AllocPage(vm).GotPage? { AllocKeepsBytes(vm); }
  }

  lemma WalkKeepsBytes(vm: Vm, root: nat, p: nat)
    requires VmOk(vm) && IsRoot(vm, root) && p < VPNS
    ensures KeepsBytes(vm, Walk(vm, root, p, true).vm)
  {
    assert Invariant(vm.zone);
    hide KeepsBytes, VmOk, NextTable, Index;
    var i2, i1 := Index(p, 2), Index(p, 1);
    NextKeepsBytes(vm, root, i2, Mid(root, i2));
    NextTableKeeps(vm, root, i2, Mid(root, i2), true);
    var s := NextTable(vm, root, i2, Mid(root, i2), true);
    if s.StepTo? {
      NextKeepsBytes(s.vm, s.frame, i1, Low(root, i2, i1));
      KeepsTrans(vm, s.vm, NextTable(s.vm, s.frame, i1, Low(root, i2, i1), true).vm);
    }
  }

  lemma MapKeepsBytes(vm: Vm, root: nat, p: nat, frame: nat, perm: nat)
    requires VmOk(vm) && Invariant(vm.zone) && IsRoot(vm, root) && p < VPNS
    ensures KeepsBytes(vm, MapPage(vm, root, p, frame, perm).vm)
  {
    hide VmOk, Walk, LiveFrame, Invariant, LeafPte, Index, BuddyModel.WellFormed;
    WalkKeepsBytes(vm, root, p);
  }

  /** Writing the bytes of a frame nobody owns is invisible to the page tables. */
  lemma CopyInKeeps(vm: Vm, f: nat, chunk: seq<nat>)
    requires VmOk(vm) && |chunk| <= |Bytes(vm, f)|
    ensures VmOk(CopyIn(vm, f, chunk))
  {
    hide TreesOk, LiveFrame, InvariantExcept, CoalescedExcept;
  }

  function Padded(chunk: seq<nat>): (s: seq<nat>)
    requires |chunk| <= PAGE
    ensures |s| == PAGE
  {
    chunk + ZeroBytes()[|chunk|..]
  }

  /** The program can be read and executed from user mode, and not written. */
  lemma CodeRights(e: nat)
    requires PteFlags(e) == LeafFlags(CODE_PERM)
    ensures Rights(e, 1, 0, 1, 1)
  {
    hide PteFlags, LeafFlags;
    RightsAsked(e, CODE_PERM);
    assert CODE_PERM == 26 && Bit(26, 1) == 1 && Bit(26, 2) == 0 && Bit(26, 3) == 1 && Bit(26, 4) == 1;
  }

  ghost predicate PageHolds(vm: Vm, root: nat, p: nat, chunk: seq<nat>)
    requires |chunk| <= PAGE
  {
    match Translate(vm.tables, root, p)
    case None => false
    case Some(e) =>
      && PteFlags(e) == LeafFlags(CODE_PERM) && Rights(e, 1, 0, 1, 1) && Bytes(vm, Target(e)) == Padded(chunk)
      && BuddyModel.WellFormed(vm.zone) && LiveFrame(vm.zone, vm.base, Target(e))
  }

  /** The page just allocated and filled, mapped at p. */
  lemma LoadMapped(v: Vm, root: nat, p: nat, f: nat, chunk: seq<nat>)
    requires VmOk(v) && Invariant(v.zone) && IsRoot(v, root) && p < USER_PAGES && Unowned(v, f) && f * PAGE < WORD
    requires |chunk| <= PAGE && Bytes(v, f) == Padded(chunk) && Translate(v.tables, root, p) == None
    ensures var r := MapPage(v, root, p, f, CODE_PERM);
            && VmOk(r.vm) && KeepsBytes(v, r.vm) && SameOutside(v, r.vm, root, p, p + 1)
            && (r.MapDone? ==> PageHolds(r.vm, root, p, chunk))
            && (r.MapFailed? ==> Translate(r.vm.tables, root, p) == None)
  {
    hide VmOk, LiveFrame, MapPage, LeafPte, Target, Translate, Padded, Rights;
    MapRefines(v, root, p, f, CODE_PERM);
    MapKeepsBytes(v, root, p, f, CODE_PERM);
    LeafPteRoundTrip(f, CODE_PERM);
    CodeRights(LeafPte(f * PAGE, CODE_PERM));
    var r := MapPage(v, root, p, f, CODE_PERM);
    if r.MapFailed? {
      ExtendsIsOutside(v, r.vm, root, p, p + 1);
      ExtendsAt(v, r.vm, root, p);
    } else {
      ExceptIsOutside(v, r.vm, root, p);
    }
  }

  lemma LoadOneHolds(vm: Vm, root: nat, p: nat, chunk: seq<nat>)
    requires VmOk(vm) && Invariant(vm.zone) && IsRoot(vm, root) && p < USER_PAGES
    requires |chunk| <= PAGE && Translate(vm.tables, root, p) == None
    ensures var r := LoadOne(vm, root, p, chunk);
            && VmOk(r.vm) && KeepsBytes(vm, r.vm) && SameOutside(vm, r.vm, root, p, p + 1)
            && (r.LoadedTo? ==> r.page == p + 1 && PageHolds(r.vm, root, p, chunk))
            && (r.LoadFailed? ==> Translate(r.vm.tables, root, p) == None)
  {
    hide VmOk, Invariant, AllocPage, SameOutside, KeepsBytes, Padded, MapPage, Translate, LiveFrame, Extends,
         BuddyModel.WellFormed;
    KeepsRefl(vm);
    OutsideRefl(vm, root, p, p + 1);
    VmZone(vm);
    if AllocPage(vm).GotPage? {
      AllocPageFresh(vm);
      AllocKeepsBytes(vm);
      var v, f := AllocPage(vm).vm, AllocPage(vm).frame;
      VmZone(v);
      CopyInKeeps(v, f, chunk);
      var w := CopyIn(v, f, chunk);
      LoadAllocated(vm, v, f, chunk, root, p);
      LoadMapped(w, root, p, f, chunk);
      KeepsTrans(vm, w, MapPage(w, root, p, f, CODE_PERM).vm);
      OutsideTrans(vm, w, MapPage(w, root, p, f, CODE_PERM).vm, root, p, p + 1);
    }
  }

  /** Allocating and filling a page touches nothing that was live. */
  lemma LoadAllocated(vm: Vm, v: Vm, f: nat, chunk: seq<nat>, root: nat, p: nat)
    requires VmOk(v) && KeepsBytes(vm, v) && Extends(vm, v) && !LiveFrame(vm.zone, vm.base, f) && |chunk| <= PAGE
    requires f !in v.owner && LiveFrame(v.zone, v.base, f)
    requires Bytes(v, f) == ZeroBytes() && IsRoot(vm, root) && p < USER_PAGES
    ensures var w := CopyIn(v, f, chunk);
            && KeepsBytes(vm, w) && SameOutside(vm, w, root, p, p + 1) && Unowned(w, f) && IsRoot(w, root)
            && Bytes(w, f) == Padded(chunk) && Translate(w.tables, root, p) == Translate(vm.tables, root, p)
  {
    hide VmOk, LiveFrame, Translate;
    ExtendsIsOutside(vm, v, root, p, p + 1);
  }

  /** A loaded page survives whatever keeps its translation and the live bytes. */
  lemma HoldsAfter(v: Vm, w: Vm, root: nat, p: nat, chunk: seq<nat>)
    requires |chunk| <= PAGE && PageHolds(v, root, p, chunk) && KeepsBytes(v, w)
    requires Translate(w.tables, root, p) == Translate(v.tables, root, p)
    ensures PageHolds(w, root, p, chunk)
  {
    hide LiveFrame, Padded, Translate, Bytes, Target;
  }

  /** Page j of the range holds the j-th 4096 bytes, padded with zeroes. */
  ghost predicate HoldsAt(vm: Vm, root: nat, p: nat, bytes: seq<nat>, j: nat)
    requires j * PAGE < |bytes|
  {
    PageHolds(vm, root, p + j, bytes[j * PAGE..][..ChunkSize(bytes[j * PAGE..])])
  }

  lemma ChunkShift(bytes: seq<nat>, j: nat)
    requires 0 < j && j * PAGE < |bytes|
    ensures ChunkSize(bytes) == PAGE && (j - 1) * PAGE < |bytes[PAGE..]|
    ensures bytes[PAGE..][(j - 1) * PAGE..] == bytes[j * PAGE..]
  {
  }

  /** The loop keeps every page it has filled, and fills the rest of the range. */
  lemma {:induction false} LoadHolds(vm: Vm, root: nat, p: nat, bytes: seq<nat>)
    requires VmOk(vm) && Invariant(vm.zone) && IsRoot(vm, root) && p + PagesFor(|bytes|) <= USER_PAGES
    requires NoneIn(vm, root, p, p + PagesFor(|bytes|))
    ensures var r := Load(vm, root, p, bytes);
            && VmOk(r.vm) && KeepsBytes(vm, r.vm) && SameOutside(vm, r.vm, root, p, p + PagesFor(|bytes|))
            && (r.LoadedTo? ==> r.page == p + PagesFor(|bytes|))
            && (r.LoadedTo? ==> forall j: nat :: j * PAGE < |bytes| ==> HoldsAt(r.vm, root, p, bytes, j))
    decreases |bytes|
  {
    hide VmOk, LoadOne, SameOutside, KeepsBytes, PageHolds, InvariantExcept, Translate;
    var end := p + PagesFor(|bytes|);
    if bytes == [] {
      KeepsRefl(vm);
      OutsideRefl(vm, root, p, end);
    } else {
      var n := ChunkSize(bytes);
      LoadOneHolds(vm, root, p, bytes[..n]);
      var r1 := LoadOne(vm, root, p, bytes[..n]);
      OutsideWiden(vm, r1.vm, root, p, p + 1, p, end);
      if r1.LoadedTo? {
        LoadRest(vm, r1.vm, root, p, bytes);
        var rest := bytes[n..];
        LoadHolds(r1.vm, root, p + 1, rest);
        var w := Load(r1.vm, root, p + 1, rest).vm;
        KeepsTrans(vm, r1.vm, w);
        OutsideAt(r1.vm, w, root, p + 1, end);
        OutsideWiden(r1.vm, w, root, p + 1, end, p, end);
        OutsideTrans(vm, r1.vm, w, root, p, end);
        if Load(r1.vm, root, p + 1, rest).LoadedTo? {
          LoadJoin(r1.vm, w, root, p, bytes);
        }
      }
    }
  }

  lemma LoadRest(vm: Vm, v: Vm, root: nat, p: nat, bytes: seq<nat>)
    requires bytes != [] && IsRoot(vm, root) && SameOutside(vm, v, root, p, p + 1)
    requires p + PagesFor(|bytes|) <= USER_PAGES && NoneIn(vm, root, p, p + PagesFor(|bytes|))
    ensures var rest := bytes[ChunkSize(bytes)..];
            && PagesFor(|bytes|) == 1 + PagesFor(|rest|)
            && NoneIn(v, root, p + 1, p + 1 + PagesFor(|rest|)) && IsRoot(v, root)
  {
    hide Translate;
  }

  lemma LoadJoin(v: Vm, w: Vm, root: nat, p: nat, bytes: seq<nat>)
    requires bytes != [] && PageHolds(v, root, p, bytes[..ChunkSize(bytes)]) && KeepsBytes(v, w)
    requires Translate(w.tables, root, p) == Translate(v.tables, root, p)
    requires var rest := bytes[ChunkSize(bytes)..];
             forall j: nat :: j * PAGE < |rest| ==> HoldsAt(w, root, p + 1, rest, j)
    ensures forall j: nat :: j * PAGE < |bytes| ==> HoldsAt(w, root, p, bytes, j)
  {
    hide Translate, PageHolds, KeepsBytes;
    HoldsAfter(v, w, root, p, bytes[..ChunkSize(bytes)]);
    forall j: nat | j * PAGE < |bytes| ensures HoldsAt(w, root, p, bytes, j) {
      if j == 0 {
        assert bytes[0..] == bytes;
      } else {
        ChunkShift(bytes, j);
        assert HoldsAt(w, root, p + 1, bytes[PAGE..], j - 1);
      }
    }
  }

  /**
    Loader correctness. From a page table with nothing in the user range: if the
    loop succeeds, reading virtual address i gives byte i of the binary, and the
    rest of the last page is zero; nothing outside the loaded pages has changed.
   */
  lemma LoaderCorrect(vm: Vm, root: nat, binary: seq<nat>, i: nat)
    requires VmOk(vm) && Invariant(vm.zone) && IsRoot(vm, root)
    requires PagesFor(|binary|) * PAGE <= USER_HEAP_END && NoneIn(vm, root, 0, PagesFor(|binary|))
    requires Load(vm, root, 0, binary).LoadedTo? && i < PagesFor(|binary|) * PAGE
    ensures var r := Load(vm, root, 0, binary);
            && VmOk(r.vm) && r.page == PagesFor(|binary|) && SameOutside(vm, r.vm, root, 0, r.page)
            && ByteAt(r.vm, root, i) == Some(if i < |binary| then binary[i] else 0)
            && Rights(Translate(r.vm.tables, root, i / PAGE).value, 1, 0, 1, 1)
  {
    hide VmOk, SameOutside, KeepsBytes, InvariantExcept, Translate, Target, Load, ByteAt, HoldsAt, IsRoot;
    assert i / PAGE * PAGE < |binary|;
    var m := PagesFor(|binary|);
    assert m <= USER_PAGES;
    hide PagesFor;
    LoadHolds(vm, root, 0, binary);
    PageReads(Load(vm, root, 0, binary).vm, root, binary, i);
  }

  lemma PageReads(vm: Vm, root: nat, binary: seq<nat>, i: nat)
    requires i < PagesFor(|binary|) * PAGE && i / PAGE * PAGE < |binary| && HoldsAt(vm, root, 0, binary, i / PAGE)
    ensures Translate(vm.tables, root, i / PAGE).Some?
    ensures Rights(Translate(vm.tables, root, i / PAGE).value, 1, 0, 1, 1)
    ensures ByteAt(vm, root, i) == Some(if i < |binary| then binary[i] else 0)
  {
    hide Translate, Target, LiveFrame;
  }
}
