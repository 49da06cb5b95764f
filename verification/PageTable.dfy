/**
  The three-level page tables of kernel/mm/pagetable.c over physical memory,
  with table pages and user pages taken from the buddy allocator.

  Physical pages are named by frame number. `tables` is the memory of a frame
  seen as 512 entries and `data` the same memory seen as 4096 bytes; a frame is
  used through one of the two between an allocation, which zeroes both, and the
  next. `owner` is specification-only: it says what each frame taken from the
  allocator is for. That it is a map is what rules out aliasing.

  One address space is assumed (va_offset = 0).
 */
module PageTable {
  import opened Basics
  import opened Bits
  import opened Sv39
  import opened BuddyModel
  import opened BuddyInvariant
  import opened BuddyCalls

  const USER_PAGES: nat := 0x7800       // USER_END_VA / PAGE_SIZE

  datatype Role =
    | Root
    | Mid(root: nat, i2: nat)
    | Low(root: nat, i2: nat, i1: nat)
    | Page(root: nat, p: nat)

  datatype Vm = Vm(
    zone: Zone,
    base: nat,                       // buddy_base_phys / PAGE_SIZE
    tables: map<nat, seq<nat>>,
    data: map<nat, seq<nat>>,
    owner: map<nat, Role>            // specification only
  )

  // ----- memory

  function Entry(t: map<nat, seq<nat>>, f: nat, i: nat): nat {
    if f in t && i < |t[f]| then t[f][i] else 0
  }

  function SetEntry(t: map<nat, seq<nat>>, f: nat, i: nat, v: nat): map<nat, seq<nat>> {
    if f in t && i < |t[f]| then
      var s: seq<nat> := t[f][i := v];
      t[f := s]
    else t
  }

  /** The entry a walk for virtual page p ends at, if every level on the way is valid. */
  function LeafTable(t: map<nat, seq<nat>>, root: nat, p: nat): Option<nat> {
    var e2 := Entry(t, root, Index(p, 2));
    if !Valid(e2) then None
    else
      var e1 := Entry(t, Target(e2), Index(p, 1));
      if !Valid(e1) then None else Some(Target(e1))
  }

  /** The map a page table stands for: virtual page number to leaf entry. */
  function Translate(t: map<nat, seq<nat>>, root: nat, p: nat): Option<nat> {
    match LeafTable(t, root, p)
    case None => None
    case Some(low) =>
      var e0 := Entry(t, low, Index(p, 0));
      if Valid(e0) then Some(e0) else None
  }

  // ----- the invariant

  /** A pointer to a table: no flag but V, and no reserved bit. */
  predicate TableEntry(pte: nat) {
    PteFlags(pte) == PTE_V && pte < RESERVED
  }

  /** A valid entry leads to the frame whose role is the matching child. */
  ghost predicate EntryOk(t: map<nat, seq<nat>>, owner: map<nat, Role>, f: nat, i: nat)
    requires f in owner
  {
    Valid(Entry(t, f, i)) ==>
      var g := Target(Entry(t, f, i));
      match owner[f]
      case Root => TableEntry(Entry(t, f, i)) && g in owner && owner[g] == Mid(f, i)
      case Mid(r, i2) => TableEntry(Entry(t, f, i)) && g in owner && owner[g] == Low(r, i2, i)
      case Low(r, i2, i1) =>
        var p := i2 * 262144 + i1 * 512 + i;
        p < USER_PAGES ==> g in owner && owner[g] == Page(r, p)
      case Page(_, _) => true
  }

  ghost predicate Shaped(t: map<nat, seq<nat>>, owner: map<nat, Role>) {
    forall f :: f in owner && !owner[f].Page? ==> f in t && |t[f]| == PTES
  }

  ghost predicate EntriesOk(t: map<nat, seq<nat>>, owner: map<nat, Role>) {
    forall f: nat, i: nat :: f in owner && i < PTES ==> EntryOk(t, owner, f, i)
  }

  predicate Points(t: map<nat, seq<nat>>, g: nat, i: nat, f: nat) {
    Valid(Entry(t, g, i)) && Target(Entry(t, g, i)) == f
  }

  /** An owned frame is reachable in exactly the way its role says, so no two frames have one role. */
  ghost predicate LinkOk(t: map<nat, seq<nat>>, owner: map<nat, Role>, f: nat)
    requires f in owner
  {
    match owner[f]
    case Root => true
    case Mid(r, i2) => r in owner && owner[r] == Root && i2 < PTES && Points(t, r, i2, f)
    case Low(r, i2, i1) =>
      && r in owner && owner[r] == Root && i2 < PTES && i1 < PTES
      && Valid(Entry(t, r, i2)) && Points(t, Target(Entry(t, r, i2)), i1, f)
    case Page(r, p) =>
      && r in owner && owner[r] == Root && p < USER_PAGES
      && Translate(t, r, p).Some? && Target(Translate(t, r, p).value) == f
  }

  ghost predicate LinksOk(t: map<nat, seq<nat>>, owner: map<nat, Role>) {
    forall f :: f in owner ==> LinkOk(t, owner, f)
  }

  ghost predicate TreesOk(t: map<nat, seq<nat>>, owner: map<nat, Role>) {
    Shaped(t, owner) && EntriesOk(t, owner) && LinksOk(t, owner)
  }

  /** Frame f is a live order-0 block of the allocator. */
  ghost predicate LiveFrame(zone: Zone, base: nat, f: nat)
    requires BuddyModel.WellFormed(zone)
  {
    base <= f && Live(zone, f - base, 0)
  }

  /** A page taken from the allocator, or the kernel's root table, which early_alloc() took before it existed. */
  ghost predicate Held(zone: Zone, base: nat, role: Role, f: nat)
    requires BuddyModel.WellFormed(zone)
  {
    LiveFrame(zone, base, f) || (role == Root && f < base)
  }

  ghost predicate OwnedLive(vm: Vm)
    requires BuddyModel.WellFormed(vm.zone)
  {
    forall f :: f in vm.owner ==> Held(vm.zone, vm.base, vm.owner[f], f)
  }

  /** Every owned frame is a live page of the allocator or a boot root, and the tables are trees without sharing. */
  ghost predicate VmOk(vm: Vm) {
    match vm
    case Vm(zone, base, tables, _, owner) =>
      && BuddyModel.WellFormed(zone) && Invariant(zone) && Coalesced(zone)
      && 0 < base && (base + zone.n) * PAGE <= PHYS
      && OwnedLive(vm) && TreesOk(tables, owner)
  }

  ghost predicate IsRoot(vm: Vm, r: nat) {
    r in vm.owner && vm.owner[r] == Root
  }

  /** No page of any address space changes its translation. */
  ghost predicate SameTranslations(vm: Vm, vm': Vm) {
    && (forall r: nat :: IsRoot(vm, r) ==> IsRoot(vm', r))
    && (forall r: nat, p: nat :: IsRoot(vm, r) && p < VPNS ==>
         Translate(vm'.tables, r, p) == Translate(vm.tables, r, p))
  }

  /** Nobody's frame is taken away, and a frame gains an owner only if it was free before. */
  ghost predicate Grows(vm: Vm, vm': Vm) {
    && vm'.base == vm.base && vm'.zone.n == vm.zone.n
    && BuddyModel.WellFormed(vm.zone) && BuddyModel.WellFormed(vm'.zone)
    && (forall f :: f in vm.owner ==> f in vm'.owner && vm'.owner[f] == vm.owner[f])
    && (forall f: nat :: LiveFrame(vm.zone, vm.base, f) ==> LiveFrame(vm'.zone, vm.base, f))
    && (forall f :: f in vm'.owner && f !in vm.owner ==> !LiveFrame(vm.zone, vm.base, f))
  }

  /** Only memory no translation sees has been added. */
  ghost predicate Extends(vm: Vm, vm': Vm) {
    match vm
    case Vm(_, _, _, _, _) => SameTranslations(vm, vm') && Grows(vm, vm')
  }

  lemma ExtendsRefl(vm: Vm)
    requires VmOk(vm)
    ensures Extends(vm, vm)
  {
  }

  lemma ExtendsTrans(a: Vm, b: Vm, c: Vm)
    requires Extends(a, b) && Extends(b, c)
    ensures Extends(a, c)
  {
    hide Translate;
  }

  lemma ExtendsAt(vm: Vm, vm': Vm, r: nat, p: nat)
    requires Extends(vm, vm') && IsRoot(vm, r) && p < VPNS
    ensures Translate(vm'.tables, r, p) == Translate(vm.tables, r, p)
  {
    hide Translate, LiveFrame;
  }

  lemma RootStays(vm: Vm, v: Vm, root: nat)
    requires Extends(vm, v) && IsRoot(vm, root)
    ensures IsRoot(v, root)
  {
  }

  lemma OwnedIsLive(vm: Vm, f: nat)
    requires VmOk(vm) && f in vm.owner && (vm.owner[f] != Root || vm.base <= f)
    ensures LiveFrame(vm.zone, vm.base, f)
  {
  }

  /** The allocator's part of the invariant. */
  lemma VmZone(vm: Vm)
    requires VmOk(vm)
    ensures BuddyModel.WellFormed(vm.zone) && Invariant(vm.zone) && Coalesced(vm.zone) && 0 < vm.base
  {
    hide InvariantExcept, CoalescedExcept, TreesOk;
  }

  // ----- alloc_page

  datatype Got = NoPage | GotPage(vm: Vm, frame: nat)

  function ZeroTable(): (s: seq<nat>)
    ensures |s| == PTES
  {
    seq(PTES, _ => 0)
  }

  function ZeroBytes(): (s: seq<nat>)
    ensures |s| == PAGE
  {
    seq(PAGE, _ => 0)
  }

  /** alloc_page(), with the zeroing of the page. */
  function AllocPage(vm: Vm): (g: Got)
    requires Invariant(vm.zone)
    ensures g.GotPage? ==> Invariant(g.vm.zone)
  {
    AllocKeeps(vm.zone, 0);
    match Alloc(vm.zone, 0)
    case NoMemory => NoPage
    case Allocated(z, h) =>
      var f := vm.base + h;
      GotPage(vm.(zone := z, tables := vm.tables[f := ZeroTable()], data := vm.data[f := ZeroBytes()]), f)
  }

  /** The page handed out is live, zeroed and nobody's. */
  lemma AllocPageFresh(vm: Vm)
    requires VmOk(vm) && AllocPage(vm).GotPage?
    ensures var g := AllocPage(vm);
            && VmOk(g.vm) && Extends(vm, g.vm) && g.vm.owner == vm.owner && g.vm.base == vm.base
            && g.frame !in vm.owner && LiveFrame(g.vm.zone, g.vm.base, g.frame) && !LiveFrame(vm.zone, vm.base, g.frame)
            && g.frame * PAGE < PHYS
            && g.vm.tables == vm.tables[g.frame := ZeroTable()] && g.vm.data == vm.data[g.frame := ZeroBytes()]
  {
    AllocFrames(vm);
    hide InvariantExcept, CoalescedExcept, TreesOk, Translate, LiveFrame, AllocPage;
    var f, vm' := AllocPage(vm).frame, AllocPage(vm).vm;
    forall g | g in vm.owner ensures Held(vm'.zone, vm'.base, vm.owner[g], g) && g != f {
      assert Held(vm.zone, vm.base, vm.owner[g], g);
    }
    TreeTables(vm.tables, vm.owner);
    FreshTable(vm.tables, vm.owner, f, ZeroTable());
    forall r: nat, p: nat | IsRoot(vm, r) && p < VPNS
      ensures Translate(vm'.tables, r, p) == Translate(vm.tables, r, p)
    {
      TranslateFrame(vm.tables, vm'.tables, vm.owner, r, p);
    }
  }

  lemma TreeTables(t: map<nat, seq<nat>>, owner: map<nat, Role>)
    requires TreesOk(t, owner)
    ensures EntriesOk(t, owner)
  {
  }

  /** What alloc_page() does, in frames. */
  lemma AllocFrames(vm: Vm)
    requires VmOk(vm) && AllocPage(vm).GotPage?
    ensures var f, vm' := AllocPage(vm).frame, AllocPage(vm).vm;
            && BuddyModel.WellFormed(vm.zone) && BuddyModel.WellFormed(vm'.zone)
            && Invariant(vm'.zone) && Coalesced(vm'.zone)
            && vm' == vm.(zone := vm'.zone, tables := vm.tables[f := ZeroTable()], data := vm.data[f := ZeroBytes()])
            && vm'.zone.n == vm.zone.n && vm.base <= f && f * PAGE < PHYS
            && LiveFrame(vm'.zone, vm.base, f) && !LiveFrame(vm.zone, vm.base, f)
            && forall g: nat :: LiveFrame(vm.zone, vm.base, g) ==> LiveFrame(vm'.zone, vm.base, g)
  {
    hide InvariantExcept, CoalescedExcept, TreesOk, Alloc, LiveExcept;
    AllocKeeps(vm.zone, 0);
    AllocOne(vm.zone);
  }

  lemma FreshTable(t: map<nat, seq<nat>>, owner: map<nat, Role>, f: nat, s: seq<nat>)
    requires TreesOk(t, owner) && f !in owner
    ensures TreesOk(t[f := s], owner)
  {
    var t' := t[f := s];
    forall g | g in owner ensures LinkOk(t', owner, g) {
      assert LinkOk(t, owner, g);
      LinkFrame(t, t', owner, g);
    }
    forall g: nat, i: nat | g in owner && i < PTES ensures EntryOk(t', owner, g, i) {
      assert EntryOk(t, owner, g, i);
    }
  }

  /** On its way down, a walk from a root visits a middle table and a low table with the right roles. */
  lemma WalkRoles(t: map<nat, seq<nat>>, owner: map<nat, Role>, r: nat, p: nat)
    requires EntriesOk(t, owner) && r in owner && owner[r] == Root
    ensures var e2 := Entry(t, r, Index(p, 2));
            Valid(e2) ==>
              && Target(e2) in owner && owner[Target(e2)] == Mid(r, Index(p, 2))
              && (LeafTable(t, r, p).Some? ==>
                    var low := LeafTable(t, r, p).value;
                    low in owner && owner[low] == Low(r, Index(p, 2), Index(p, 1)))
  {
    assert EntryOk(t, owner, r, Index(p, 2));
    var e2 := Entry(t, r, Index(p, 2));
    if Valid(e2) { assert EntryOk(t, owner, Target(e2), Index(p, 1)); }
  }

  lemma LinkFrame(t: map<nat, seq<nat>>, t': map<nat, seq<nat>>, owner: map<nat, Role>, g: nat)
    requires EntriesOk(t, owner) && g in owner && LinkOk(t, owner, g)
    requires forall f: nat, i: nat :: f in owner ==> Entry(t', f, i) == Entry(t, f, i)
    ensures LinkOk(t', owner, g)
  {
    match owner[g]
    case Low(r, i2, i1) => assert EntryOk(t, owner, r, i2);
    case Page(r, p) => TranslateFrame(t, t', owner, r, p);
    case _ =>
  }

  /** No two frames have the same role, roots apart. */
  lemma RoleUnique(t: map<nat, seq<nat>>, owner: map<nat, Role>, f: nat, g: nat)
    requires LinksOk(t, owner) && f in owner && g in owner && owner[f] == owner[g] && owner[f] != Root
    ensures f == g
  {
    assert LinkOk(t, owner, f) && LinkOk(t, owner, g);
  }

  /** Memory that agrees on every owned frame translates alike. */
  lemma TranslateFrame(t: map<nat, seq<nat>>, t': map<nat, seq<nat>>, owner: map<nat, Role>, r: nat, p: nat)
    requires EntriesOk(t, owner) && r in owner && owner[r] == Root
    requires forall f: nat, i: nat :: f in owner ==> Entry(t', f, i) == Entry(t, f, i)
    ensures Translate(t', r, p) == Translate(t, r, p)
  {
    WalkRoles(t, owner, r, p);
  }

  // ----- walk

  datatype Step = NoStep(vm: Vm) | StepTo(vm: Vm, frame: nat)

  /** One level of walk(): follow entry i of table g, or give it a new table with role `child`. */
  function NextTable(vm: Vm, g: nat, i: nat, child: Role, alloc: bool): (s: Step)
    requires Invariant(vm.zone)
    ensures Invariant(s.vm.zone)
  {
    var e := Entry(vm.tables, g, i);
    if Valid(e) then StepTo(vm, Target(e))
    else if !alloc then NoStep(vm)
    else
      match AllocPage(vm)
      case NoPage => NoStep(vm)
      case GotPage(v, f) =>
        StepTo(v.(tables := SetEntry(v.tables, g, i, TablePte(f)), owner := v.owner[f := child]), f)
  }

  /** walk(): the low table for virtual page p; the entry is at Index(p, 0) in it. */
  function Walk(vm: Vm, root: nat, p: nat, alloc: bool): (s: Step)
    requires Invariant(vm.zone)
    ensures Invariant(s.vm.zone)
  {
    match NextTable(vm, root, Index(p, 2), Mid(root, Index(p, 2)), alloc)
    case NoStep(v) => NoStep(v)
    case StepTo(v, m) => NextTable(v, m, Index(p, 1), Low(root, Index(p, 2), Index(p, 1)), alloc)
  }

  /** The child role that entry i of a table with role r must lead to. */
  ghost predicate ChildOf(r: Role, g: nat, i: nat, child: Role) {
    (r == Root && child == Mid(g, i)) || (r.Mid? && child == Low(r.root, r.i2, i))
  }

  lemma HookEntries(t: map<nat, seq<nat>>, owner: map<nat, Role>, g: nat, i: nat, f: nat, child: Role)
    requires Shaped(t, owner) && EntriesOk(t, owner) && g in owner && i < PTES && f !in owner
    requires ChildOf(owner[g], g, i, child) && !Valid(Entry(t, g, i))
    requires f in t && t[f] == ZeroTable() && f * PAGE < PHYS
    ensures var t', owner' := SetEntry(t, g, i, TablePte(f)), owner[f := child];
            Shaped(t', owner') && EntriesOk(t', owner')
  {
    TablePteRoundTrip(f);
    hide TablePte, Target;
    var t', owner' := SetEntry(t, g, i, TablePte(f)), owner[f := child];
    forall h: nat, j: nat | h in owner' && j < PTES ensures EntryOk(t', owner', h, j) {
      if h != f { assert EntryOk(t, owner, h, j); }
    }
  }

  lemma HookLink(t: map<nat, seq<nat>>, owner: map<nat, Role>, g: nat, i: nat, f: nat, child: Role, h: nat)
    requires TreesOk(t, owner) && g in owner && i < PTES && f !in owner && h in owner
    requires ChildOf(owner[g], g, i, child) && !Valid(Entry(t, g, i))
    requires f in t && t[f] == ZeroTable() && f * PAGE < PHYS
    ensures LinkOk(SetEntry(t, g, i, TablePte(f)), owner[f := child], h)
  {
    assert LinkOk(t, owner, h);
    match owner[h]
    case Low(r, i2, i1) => assert EntryOk(t, owner, r, i2);
    case Page(r, p) => HookTranslates(t, owner, g, i, f, r, p);
    case _ =>
  }

  /** Hooking a fresh zeroed table into an invalid entry keeps the trees. */
  lemma Hook(t: map<nat, seq<nat>>, owner: map<nat, Role>, g: nat, i: nat, f: nat, child: Role)
    requires TreesOk(t, owner) && g in owner && i < PTES && f !in owner
    requires ChildOf(owner[g], g, i, child) && !Valid(Entry(t, g, i))
    requires f in t && t[f] == ZeroTable() && f * PAGE < PHYS
    ensures TreesOk(SetEntry(t, g, i, TablePte(f)), owner[f := child])
  {
    var t', owner' := SetEntry(t, g, i, TablePte(f)), owner[f := child];
    TablePteRoundTrip(f);
    ShapedAt(t, owner, g);
    HookEntries(t, owner, g, i, f, child);
    forall h | h in owner' ensures LinkOk(t', owner', h) {
      if h == f {
        assert LinkOk(t, owner, g);
      } else {
        HookLink(t, owner, g, i, f, child, h);
      }
    }
  }

  lemma HookTranslates(t: map<nat, seq<nat>>, owner: map<nat, Role>, g: nat, i: nat, f: nat, r: nat, p: nat)
    requires EntriesOk(t, owner) && g in owner && f !in owner && r in owner && owner[r] == Root
    requires (owner[g] == Root || owner[g].Mid?) && !Valid(Entry(t, g, i))
    requires f in t && t[f] == ZeroTable() && f * PAGE < PHYS
    ensures Translate(SetEntry(t, g, i, TablePte(f)), r, p) == Translate(t, r, p)
  {
    TablePteRoundTrip(f);
    WalkRoles(t, owner, r, p);
    hide TablePte, Target, Index, EntriesOk;
  }

  /** A level of walk() keeps everything; what it adds is a table no translation sees. */
  lemma NextTableKeeps(vm: Vm, g: nat, i: nat, child: Role, alloc: bool)
    requires VmOk(vm) && g in vm.owner && i < PTES && ChildOf(vm.owner[g], g, i, child)
    ensures var s := NextTable(vm, g, i, child, alloc);
            && VmOk(s.vm) && Extends(vm, s.vm)
            && (s.StepTo? ==> s.frame in s.vm.owner && s.vm.owner[s.frame] == child
                              && Valid(Entry(s.vm.tables, g, i)) && Target(Entry(s.vm.tables, g, i)) == s.frame)
            && (!alloc ==> s.vm == vm && (s.NoStep? ==> !Valid(Entry(vm.tables, g, i))))
  {
    hide VmOk, Extends, Target, AllocPage, Invariant, BuddyModel.WellFormed;
    VmZone(vm);
    ExtendsRefl(vm);
    if Valid(Entry(vm.tables, g, i)) {
      ChildAt(vm, g, i, child);
    } else if alloc && AllocPage(vm).GotPage? {
      AllocPageFresh(vm);
      HookUp(vm, AllocPage(vm).vm, g, i, AllocPage(vm).frame, child);
    }
  }

  /** A valid upper entry leads to the right child. */
  lemma ChildAt(vm: Vm, g: nat, i: nat, child: Role)
    requires VmOk(vm) && g in vm.owner && i < PTES && ChildOf(vm.owner[g], g, i, child) && Valid(Entry(vm.tables, g, i))
    ensures var f := Target(Entry(vm.tables, g, i)); f in vm.owner && vm.owner[f] == child
  {
    hide InvariantExcept, CoalescedExcept, LinksOk, Target;
    assert EntryOk(vm.tables, vm.owner, g, i);
  }

  lemma HookUp(vm0: Vm, vm: Vm, g: nat, i: nat, f: nat, child: Role)
    requires VmOk(vm) && g in vm.owner && i < PTES && ChildOf(vm.owner[g], g, i, child)
    requires f !in vm.owner && LiveFrame(vm.zone, vm.base, f) && f in vm.tables && vm.tables[f] == ZeroTable()
    requires f * PAGE < PHYS && !Valid(Entry(vm.tables, g, i))
    requires Extends(vm0, vm) && vm.owner == vm0.owner && !LiveFrame(vm0.zone, vm0.base, f)
    ensures var vm' := vm.(tables := SetEntry(vm.tables, g, i, TablePte(f)), owner := vm.owner[f := child]);
            && VmOk(vm') && Extends(vm0, vm')
            && Valid(Entry(vm'.tables, g, i)) && Target(Entry(vm'.tables, g, i)) == f
  {
    hide InvariantExcept, CoalescedExcept, EntryOk, Translate, TablePte, Target, Shaped, EntriesOk, LinksOk, Live;
    ShapedAt(vm.tables, vm.owner, g);
    var vm' := vm.(tables := SetEntry(vm.tables, g, i, TablePte(f)), owner := vm.owner[f := child]);
    Hook(vm.tables, vm.owner, g, i, f, child);
    TablePteRoundTrip(f);
    forall r: nat, p: nat | IsRoot(vm0, r) && p < VPNS
      ensures Translate(vm'.tables, r, p) == Translate(vm0.tables, r, p)
    {
      assert IsRoot(vm, r);
      HookTranslates(vm.tables, vm.owner, g, i, f, r, p);
    }
  }

  lemma ShapedAt(t: map<nat, seq<nat>>, owner: map<nat, Role>, f: nat)
    requires Shaped(t, owner) && f in owner && !owner[f].Page?
    ensures f in t && |t[f]| == PTES
  {
  }

  /** walk() changes no translation, whether it succeeds or fails half way; it ends at the page's own entry. */
  lemma WalkKeeps(vm: Vm, root: nat, p: nat, alloc: bool)
    requires VmOk(vm) && IsRoot(vm, root) && p < VPNS
    ensures var s := Walk(vm, root, p, alloc);
            && VmOk(s.vm) && Extends(vm, s.vm) && IsRoot(s.vm, root)
            && (s.StepTo? ==> LeafTable(s.vm.tables, root, p) == Some(s.frame)
                              && s.frame in s.vm.owner && s.vm.owner[s.frame] == Low(root, Index(p, 2), Index(p, 1)))
            && (!alloc ==> s.vm == vm && (s.NoStep? ==> Translate(vm.tables, root, p) == None))
  {
    var i2, i1 := Index(p, 2), Index(p, 1);
    var s := NextTable(vm, root, i2, Mid(root, i2), alloc);
    NextTableKeeps(vm, root, i2, Mid(root, i2), alloc);
    if s.StepTo? {
      var s2 := NextTable(s.vm, s.frame, i1, Low(root, i2, i1), alloc);
      NextTableKeeps(s.vm, s.frame, i1, Low(root, i2, i1), alloc);
      SecondLevelKeepsFirst(s.vm, s.frame, i1, Low(root, i2, i1), alloc, root, i2);
      ExtendsTrans(vm, s.vm, s2.vm);
      hide VmOk, Index, Target, Valid, NextTable, Translate;
      assert IsRoot(s2.vm, root);
      assert s2.StepTo? ==> LeafTable(s2.vm.tables, root, p) == Some(s2.frame);
    }
  }

  /** Filling an entry of one table leaves the entries of every other owned table alone. */
  lemma SecondLevelKeepsFirst(vm: Vm, g: nat, i: nat, child: Role, alloc: bool, h: nat, j: nat)
    requires VmOk(vm) && g in vm.owner && h in vm.owner && h != g
    ensures Entry(NextTable(vm, g, i, child, alloc).vm.tables, h, j) == Entry(vm.tables, h, j)
  {
    hide InvariantExcept, CoalescedExcept;
    if !Valid(Entry(vm.tables, g, i)) && alloc && AllocPage(vm).GotPage? { AllocPageFresh(vm); }
  }
}
