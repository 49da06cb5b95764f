/**
  What a create_proc() that runs out of memory leaves behind: no table, no owner, and
  of the frames it took exactly those of the program, which free_proc() does not free.
 */
module SpawnGivesBack {
  import opened Basics
  import opened Bits
  import opened Sv39
  import opened BuddyModel
  import opened BuddyInvariant
  import opened BuddyCalls
  import opened BuddyCount
  import opened PageTable
  import opened PageMap
  import opened PageBudget
  import opened UserMemory
  import opened Loader
  import opened KernelMappings
  import opened FreeTables
  import opened ProcessImage
  import opened SpawnBudget

  // ----- live frames, tables and contents

  /** The live frames. */
  ghost function Frames(vm: Vm): set<nat>
    requires BuddyModel.WellFormed(vm.zone)
  {
    set f: nat | f < vm.base + vm.zone.n && LiveFrame(vm.zone, vm.base, f)
  }

  lemma InFrames(vm: Vm, f: nat)
    requires BuddyModel.WellFormed(vm.zone)
    ensures f in Frames(vm) <==> LiveFrame(vm.zone, vm.base, f)
  {
  }

  /** Free pages and live frames, together. */
  ghost function Total(vm: Vm): nat
    requires BuddyModel.WellFormed(vm.zone)
  {
    Pool(vm) + |Frames(vm)|
  }

  /** The tables of the space at root f. */
  ghost function Tables(vm: Vm, f: nat): set<nat> {
    set g | g in vm.owner && TableOf(vm.owner[g], g, f)
  }

  /** Free pages and those in tables of this space. */
  ghost function Spent(vm: Vm, f: nat): nat
    requires BuddyModel.WellFormed(vm.zone)
  {
    Pool(vm) + |Tables(vm, f)|
  }

  /** Frame g holds the j-th 4096 bytes of the program, padded with zeroes. */
  predicate IsChunk(vm: Vm, g: nat, binary: seq<nat>, j: nat) {
    j * PAGE < |binary| && Bytes(vm, g) == Padded(binary[j * PAGE..][..ChunkSize(binary[j * PAGE..])])
  }

  ghost predicate HoldsChunk(vm: Vm, g: nat, binary: seq<nat>) {
    exists j: nat :: IsChunk(vm, g, binary, j)
  }

  /** Only this space has gained frames, and its new tables were not live before. */
  ghost predicate OwnersGrow(v: Vm, u: Vm, f: nat)
    requires BuddyModel.WellFormed(v.zone)
  {
    && (forall g :: g in v.owner ==> g in u.owner && u.owner[g] == v.owner[g])
    && (forall g :: g in u.owner && g !in v.owner ==> u.owner[g] != Root && u.owner[g].root == f)
    && (forall g :: g in Tables(u, f) && g !in v.owner ==> g !in Frames(v))
  }

  /** A frame that is newly live is a table of this space or holds a piece of the program. */
  ghost predicate NewFrames(v: Vm, u: Vm, f: nat, binary: seq<nat>)
    requires BuddyModel.WellFormed(v.zone) && BuddyModel.WellFormed(u.zone)
  {
    forall g :: g in Frames(u) && g !in Frames(v) ==> g in Tables(u, f) || HoldsChunk(u, g, binary)
  }

  ghost predicate Built(v: Vm, u: Vm, f: nat, binary: seq<nat>) {
    match v
    case Vm(_, _, _, _, _) =>
      KeepsBytes(v, u) && OwnersGrow(v, u, f) && NewFrames(v, u, f, binary) && Total(u) == Total(v)
  }

  lemma BuiltRefl(vm: Vm, f: nat, binary: seq<nat>)
    requires VmOk(vm)
    ensures Built(vm, vm, f, binary)
  {
    hide HoldsChunk, Frames, VmOk;
    KeepsRefl(vm);
    hide KeepsBytes;
    VmZone(vm);
  }

  lemma KeepsFrames(v: Vm, u: Vm)
    requires KeepsBytes(v, u)
    ensures BuddyModel.WellFormed(v.zone) && BuddyModel.WellFormed(u.zone) && Frames(v) <= Frames(u)
    ensures forall g :: g in Frames(v) ==> Bytes(u, g) == Bytes(v, g)
  {
    hide LiveFrame;
  }

  lemma BuiltTrans(x: Vm, y: Vm, z: Vm, f: nat, binary: seq<nat>)
    requires Built(x, y, f, binary) && Built(y, z, f, binary)
    ensures Built(x, z, f, binary)
  {
    KeepsFrames(x, y);
    KeepsFrames(y, z);
    KeepsTrans(x, y, z);
    hide KeepsBytes, Frames, LiveFrame, Total, BuddyModel.WellFormed;
    NewTrans(x, y, z, f, binary);
    hide NewFrames;
  }

  lemma NewTrans(x: Vm, y: Vm, z: Vm, f: nat, binary: seq<nat>)
    requires BuddyModel.WellFormed(x.zone) && BuddyModel.WellFormed(y.zone) && BuddyModel.WellFormed(z.zone)
    requires NewFrames(x, y, f, binary) && NewFrames(y, z, f, binary) && OwnersGrow(y, z, f)
    requires forall g :: g in Frames(y) ==> Bytes(z, g) == Bytes(y, g)
    ensures NewFrames(x, z, f, binary)
  {
    hide Frames, BuddyModel.WellFormed;
    forall g | g in Frames(z) && g !in Frames(x) ensures g in Tables(z, f) || HoldsChunk(z, g, binary) {
      if g in Frames(y) && g !in Tables(y, f) {
        var j: nat :| IsChunk(y, g, binary, j);
        assert IsChunk(z, g, binary, j);
      }
    }
  }

  // ----- one page taken

  lemma AllocStep(vm: Vm)
    requires VmOk(vm) && Invariant(vm.zone) && BuddyModel.WellFormed(vm.zone) && AllocPage(vm).GotPage?
    ensures var v, g := AllocPage(vm).vm, AllocPage(vm).frame;
            && BuddyModel.WellFormed(v.zone) && Frames(v) == Frames(vm) + {g} && g !in Frames(vm)
            && Pool(v) + 1 == Pool(vm) && Total(v) == Total(vm)
  {
    hide VmOk, Invariant, AllocPage, LiveFrame, CountFrom, Extends;
    AllocPageCost(vm);
    AllocPageFresh(vm);
    AllocExactly(vm);
    var v, g := AllocPage(vm).vm, AllocPage(vm).frame;
    forall f: nat ensures f in Frames(v) <==> f in Frames(vm) || f == g {
      InFrames(v, f);
      InFrames(vm, f);
    }
    hide Frames;
    assert Frames(v) == Frames(vm) + {g};
  }

  lemma AllocExactly(vm: Vm)
    requires VmOk(vm) && Invariant(vm.zone) && BuddyModel.WellFormed(vm.zone) && AllocPage(vm).GotPage?
    ensures var v, g := AllocPage(vm).vm, AllocPage(vm).frame;
            && BuddyModel.WellFormed(v.zone) && v.base == vm.base && vm.base <= g
            && forall f: nat :: LiveFrame(v.zone, vm.base, f) <==> LiveFrame(vm.zone, vm.base, f) || f == g
  {
    AllocKeeps(vm.zone, 0);
    hide VmOk, InvariantExcept, Alloc, LiveExcept, FreeHead;
    var v, h := AllocPage(vm).vm, Alloc(vm.zone, 0).page;
    forall f: nat ensures LiveFrame(v.zone, vm.base, f) <==> LiveFrame(vm.zone, vm.base, f) || f == vm.base + h {
      if vm.base <= f { assert Live(v.zone, f - vm.base, 0) <==> Live(vm.zone, f - vm.base, 0) || f - vm.base == h; }
    }
  }

  /** A new table of this space, or an old one. */
  lemma NextBuilt(vm: Vm, t: nat, i: nat, child: Role, f: nat, binary: seq<nat>)
    requires VmOk(vm) && Invariant(vm.zone) && BuddyModel.WellFormed(vm.zone)
    requires (child.Mid? || child.Low?) && child.root == f
    ensures var s := NextTable(vm, t, i, child, true);
            Built(vm, s.vm, f, binary) && BuddyModel.WellFormed(s.vm.zone) && Spent(s.vm, f) == Spent(vm, f)
  {
    hide VmOk, Invariant, AllocPage, BuddyModel.WellFormed, KeepsBytes, Extends, LiveFrame, HoldsChunk, Pool, Frames,
         Built, TablePte;
    BuiltRefl(vm, f, binary);
    NextKeepsBytes(vm, t, i, child);
    if !Valid(Entry(vm.tables, t, i)) && AllocPage(vm).GotPage? {
      AllocPageFresh(vm);
      AllocStep(vm);
      var v, g := AllocPage(vm).vm, AllocPage(vm).frame;
      var u := NextTable(vm, t, i, child, true).vm;
      SameFrames(v, u);
      NewTable(vm, u, g, child, f);
      NewTableBuilt(vm, u, g, child, f, binary);
    }
  }

  lemma NewTableBuilt(vm: Vm, u: Vm, g: nat, child: Role, f: nat, binary: seq<nat>)
    requires KeepsBytes(vm, u) && BuddyModel.WellFormed(vm.zone) && BuddyModel.WellFormed(u.zone)
    requires g !in vm.owner && u.owner == vm.owner[g := child] && (child.Mid? || child.Low?) && child.root == f
    requires Tables(u, f) == Tables(vm, f) + {g} && Frames(u) == Frames(vm) + {g} && g !in Frames(vm)
    requires Total(u) == Total(vm)
    ensures Built(vm, u, f, binary)
  {
    hide KeepsBytes, Frames, HoldsChunk, Total;
  }

  lemma SameFrames(v: Vm, u: Vm)
    requires u.zone == v.zone && u.base == v.base && BuddyModel.WellFormed(v.zone)
    ensures Frames(u) == Frames(v) && Pool(u) == Pool(v)
  {
  }

  lemma NewTable(vm: Vm, u: Vm, g: nat, child: Role, f: nat)
    requires g !in vm.owner && u.owner == vm.owner[g := child] && (child.Mid? || child.Low?) && child.root == f
    ensures Tables(u, f) == Tables(vm, f) + {g} && |Tables(u, f)| == |Tables(vm, f)| + 1
  {
    assert Tables(u, f) == Tables(vm, f) + {g};
  }

  lemma WalkBuilt(vm: Vm, f: nat, p: nat, binary: seq<nat>)
    requires VmOk(vm) && Invariant(vm.zone) && BuddyModel.WellFormed(vm.zone) && IsRoot(vm, f) && p < VPNS
    ensures var s := Walk(vm, f, p, true);
            Built(vm, s.vm, f, binary) && BuddyModel.WellFormed(s.vm.zone) && Spent(s.vm, f) == Spent(vm, f)
  {
    hide VmOk, Invariant, NextTable, BuddyModel.WellFormed, Built, Spent, Extends, Index;
    var i2, i1 := Index(p, 2), Index(p, 1);
    NextBuilt(vm, f, i2, Mid(f, i2), f, binary);
    NextTableKeeps(vm, f, i2, Mid(f, i2), true);
    var s := NextTable(vm, f, i2, Mid(f, i2), true);
    if s.StepTo? {
      VmZone(s.vm);
      NextBuilt(s.vm, s.frame, i1, Low(f, i2, i1), f, binary);
      BuiltTrans(vm, s.vm, NextTable(s.vm, s.frame, i1, Low(f, i2, i1), true).vm, f, binary);
    }
  }

  /** map_page() takes tables of this space, and nothing else. */
  lemma MapBuilt(vm: Vm, f: nat, p: nat, frame: nat, perm: nat, binary: seq<nat>)
    requires VmOk(vm) && Invariant(vm.zone) && BuddyModel.WellFormed(vm.zone) && IsRoot(vm, f) && p < VPNS
    requires p < USER_PAGES ==> Unowned(vm, frame)
    ensures var r := MapPage(vm, f, p, frame, perm);
            Built(vm, r.vm, f, binary) && BuddyModel.WellFormed(r.vm.zone) && Spent(r.vm, f) == Spent(vm, f)
  {
    hide VmOk, Invariant, Walk, BuddyModel.WellFormed, Built, Extends, Index, LiveFrame, Pool, LeafPte, LeafTable,
         Tables, Translate;
    WalkBuilt(vm, f, p, binary);
    WalkKeeps(vm, f, p, true);
    var s := Walk(vm, f, p, true);
    if s.StepTo? && !Valid(Entry(s.vm.tables, s.frame, Index(p, 0))) {
      VmZone(s.vm);
      MapUnowned(vm, s.vm, frame);
      LeafBuilt(s.vm, MapPage(vm, f, p, frame, perm).vm, f, p, frame, binary);
      BuiltTrans(vm, s.vm, MapPage(vm, f, p, frame, perm).vm, f, binary);
    }
  }

  /** A leaf entry gives its frame an owner, and takes nothing. */
  lemma LeafBuilt(v: Vm, u: Vm, f: nat, p: nat, frame: nat, binary: seq<nat>)
    requires VmOk(v) && BuddyModel.WellFormed(v.zone) && (p < USER_PAGES ==> frame !in v.owner)
    requires u == v.(tables := u.tables, owner := if p < USER_PAGES then v.owner[frame := Page(f, p)] else v.owner)
    ensures Built(v, u, f, binary) && Tables(u, f) == Tables(v, f) && Pool(u) == Pool(v)
  {
    KeepsLeaf(v, u);
    SameFrames(v, u);
    hide VmOk, LiveFrame, HoldsChunk, BuddyModel.WellFormed, KeepsBytes, Frames, CountFrom;
    LeafTables(v, u, f, p, frame);
    LeafOwners(v, u, f, p, frame);
    hide Tables, OwnersGrow;
  }

  lemma LeafOwners(v: Vm, u: Vm, f: nat, p: nat, frame: nat)
    requires BuddyModel.WellFormed(v.zone) && (p < USER_PAGES ==> frame !in v.owner) && Tables(u, f) == Tables(v, f)
    requires u.owner == if p < USER_PAGES then v.owner[frame := Page(f, p)] else v.owner
    ensures OwnersGrow(v, u, f)
  {
    hide Frames, BuddyModel.WellFormed;
    assert forall g :: g in Tables(v, f) ==> g in v.owner;
    hide Tables;
  }

  lemma LeafTables(v: Vm, u: Vm, f: nat, p: nat, frame: nat)
    requires p < USER_PAGES ==> frame !in v.owner
    requires u.owner == if p < USER_PAGES then v.owner[frame := Page(f, p)] else v.owner
    ensures Tables(u, f) == Tables(v, f)
  {
  }

  lemma KeepsLeaf(v: Vm, u: Vm)
    requires VmOk(v) && u == v.(tables := u.tables, owner := u.owner)
    ensures KeepsBytes(v, u)
  {
    hide LiveFrame, TreesOk, InvariantExcept, CoalescedExcept;
  }

  // ----- the program

  /** How many pages of a program of n pages the loader takes, when it may use `pool` free pages. */
  function Taken(h: Have, p: nat, n: nat, pool: nat): nat
    decreases n
  {
    if n == 0 then 0
    else Taken(h, p, n - 1, pool) + if n - 1 + Need(h, Range(p, n - 1)) < pool then 1 else 0
  }

  lemma RangeFirst(h: Have, p: nat, n: nat)
    requires n > 0
    ensures Need(h, Range(p, n)) == Miss(h, p) + Need(Add(h, p), Range(p + 1, n - 1))
  {
    assert Range(p, n)[0] == p && Range(p, n)[1..] == Range(p + 1, n - 1);
    hide Miss, Add;
  }

  lemma {:induction false} TakenShift(h: Have, p: nat, n: nat, pool: nat)
    requires n > 0 && pool >= 1 + Miss(h, p)
    ensures Taken(h, p, n, pool) == 1 + Taken(Add(h, p), p + 1, n - 1, pool - 1 - Miss(h, p))
    decreases n
  {
    hide Miss, Add, Range;
    if n > 1 {
      RangeFirst(h, p, n - 1);
      TakenShift(h, p, n - 1, pool);
    } else {
      NeedNothing(h, p);
    }
  }

  lemma NeedNothing(h: Have, p: nat)
    ensures Need(h, Range(p, 0)) == 0
  {
  }

  lemma {:induction false} TakenShort(h: Have, p: nat, n: nat, pool: nat)
    requires n > 0 && pool < 1 + Miss(h, p)
    ensures Taken(h, p, n, pool) == if pool == 0 then 0 else 1
    decreases n
  {
    hide Miss, Add, Range;
    if n > 1 {
      RangeFirst(h, p, n - 1);
      TakenShort(h, p, n - 1, pool);
    } else {
      NeedNothing(h, p);
    }
  }

  lemma ChunkOne(vm: Vm, g: nat, bytes: seq<nat>)
    requires bytes != [] && Bytes(vm, g) == Padded(bytes[..ChunkSize(bytes)])
    ensures HoldsChunk(vm, g, bytes)
  {
    assert bytes[0 * PAGE..] == bytes;
    assert IsChunk(vm, g, bytes, 0);
  }

  lemma ChunkLater(vm: Vm, g: nat, bytes: seq<nat>)
    requires bytes != [] && HoldsChunk(vm, g, bytes[ChunkSize(bytes)..])
    ensures HoldsChunk(vm, g, bytes)
  {
    var rest := bytes[ChunkSize(bytes)..];
    var j: nat :| IsChunk(vm, g, rest, j);
    ChunkShift(bytes, j + 1);
    assert IsChunk(vm, g, bytes, j + 1);
  }

  /** What holds a piece of the rest holds a piece of the whole. */
  lemma BuiltWhole(v: Vm, u: Vm, f: nat, bytes: seq<nat>)
    requires bytes != [] && Built(v, u, f, bytes[ChunkSize(bytes)..])
    ensures Built(v, u, f, bytes)
  {
    KeepsFrames(v, u);
    hide KeepsBytes, Frames, HoldsChunk, Tables;
    forall g | g in Frames(u) && g !in Frames(v) ensures g in Tables(u, f) || HoldsChunk(u, g, bytes) {
      if HoldsChunk(u, g, bytes[ChunkSize(bytes)..]) { ChunkLater(u, g, bytes); }
    }
  }

  /** A page taken for the program and filled. */
  lemma FilledBuilt(vm: Vm, f: nat, bytes: seq<nat>)
    requires VmOk(vm) && Invariant(vm.zone) && BuddyModel.WellFormed(vm.zone) && IsRoot(vm, f)
    requires bytes != [] && AllocPage(vm).GotPage?
    ensures |Bytes(AllocPage(vm).vm, AllocPage(vm).frame)| == PAGE
    ensures var w := CopyIn(AllocPage(vm).vm, AllocPage(vm).frame, bytes[..ChunkSize(bytes)]);
            && VmOk(w) && Invariant(w.zone) && BuddyModel.WellFormed(w.zone) && IsRoot(w, f)
            && Unowned(w, AllocPage(vm).frame)
            && Built(vm, w, f, bytes) && Spent(w, f) + 1 == Spent(vm, f)
  {
    hide VmOk, Invariant, AllocPage, BuddyModel.WellFormed, KeepsBytes, Extends, LiveFrame, Padded, Pool, HoldsChunk,
         SameOutside;
    AllocPageFresh(vm);
    AllocKeepsBytes(vm);
    AllocStep(vm);
    RootStays(vm, AllocPage(vm).vm, f);
    var v, g := AllocPage(vm).vm, AllocPage(vm).frame;
    VmZone(v);
    CopyInKeeps(v, g, bytes[..ChunkSize(bytes)]);
    LoadAllocated(vm, v, g, bytes[..ChunkSize(bytes)], f, 0);
    var w := CopyIn(v, g, bytes[..ChunkSize(bytes)]);
    SameFrames(v, w);
    ChunkOne(w, g, bytes);
    hide Frames, CopyIn, Bytes;
    assert w.owner == vm.owner;
    assert Tables(w, f) == Tables(vm, f);
  }

  lemma LoadOneBuilt(vm: Vm, f: nat, p: nat, bytes: seq<nat>)
    requires VmOk(vm) && Invariant(vm.zone) && BuddyModel.WellFormed(vm.zone) && IsRoot(vm, f) && p < USER_PAGES
    requires bytes != []
    ensures var r := LoadOne(vm, f, p, bytes[..ChunkSize(bytes)]);
            && Built(vm, r.vm, f, bytes) && BuddyModel.WellFormed(r.vm.zone)
            && Spent(r.vm, f) + (if Pool(vm) == 0 then 0 else 1) == Spent(vm, f)
  {
    hide VmOk, Invariant, AllocPage, BuddyModel.WellFormed, Pool, Built, Spent, MapPage, Unowned, CopyIn, Bytes;
    BuiltRefl(vm, f, bytes);
    AllocPageCost(vm);
    if AllocPage(vm).GotPage? {
      FilledBuilt(vm, f, bytes);
      var g := AllocPage(vm).frame;
      var w := CopyIn(AllocPage(vm).vm, g, bytes[..ChunkSize(bytes)]);
      MapBuilt(w, f, p, g, CODE_PERM, bytes);
      BuiltTrans(vm, w, MapPage(w, f, p, g, CODE_PERM).vm, f, bytes);
    }
  }

  /** The loading loop, whether it succeeds or not. */
  lemma {:induction false} LoadBuilt(vm: Vm, f: nat, p: nat, bytes: seq<nat>)
    requires VmOk(vm) && Invariant(vm.zone) && BuddyModel.WellFormed(vm.zone) && IsRoot(vm, f)
    requires p + PagesFor(|bytes|) <= USER_PAGES && NoneIn(vm, f, p, p + PagesFor(|bytes|))
    ensures var r, h := Load(vm, f, p, bytes), HaveOf(vm.tables, f);
            && Built(vm, r.vm, f, bytes) && BuddyModel.WellFormed(r.vm.zone)
            && Spent(r.vm, f) + Taken(h, p, PagesFor(|bytes|), Pool(vm)) == Spent(vm, f)
    decreases |bytes|
  {
    hide VmOk, Invariant, LoadOne, HaveOf, Miss, Add, Pool, BuddyModel.WellFormed, IsRoot, Translate, NoneIn,
         SameOutside, KeepsBytes, PageHolds, Built, Spent, Taken;
    BuiltRefl(vm, f, bytes);
    LoadBuiltNone(vm, f, p);
    if bytes != [] {
      var c, n, h := ChunkSize(bytes), PagesFor(|bytes|), HaveOf(vm.tables, f);
      NoneAt(vm, f, p, p + n, p);
      LoadOneCost(vm, f, p, bytes[..c]);
      LoadOneHolds(vm, f, p, bytes[..c]);
      LoadOneBuilt(vm, f, p, bytes);
      var r := LoadOne(vm, f, p, bytes[..c]);
      LoadRest(vm, r.vm, f, p, bytes);
      VmZone(r.vm);
      hide PagesFor;
      if r.LoadedTo? {
        TakenShift(h, p, n, Pool(vm));
        LoadBuilt(r.vm, f, p + 1, bytes[c..]);
        var u := Load(r.vm, f, p + 1, bytes[c..]).vm;
        BuiltWhole(r.vm, u, f, bytes);
        BuiltTrans(vm, r.vm, u, f, bytes);
      } else {
        TakenShort(h, p, n, Pool(vm));
      }
    }
  }

  lemma LoadBuiltNone(vm: Vm, f: nat, p: nat)
    requires BuddyModel.WellFormed(vm.zone)
    ensures Taken(HaveOf(vm.tables, f), p, PagesFor(0), Pool(vm)) == 0
  {
    hide HaveOf, Pool;
  }

  // ----- taking the space apart

  /** Freeing one live page. */
  lemma FreeStep(vm: Vm, g: nat)
    requires FreeTables.Sound(vm.zone) && BuddyModel.WellFormed(vm.zone) && 0 < vm.base
    requires LiveFrame(vm.zone, vm.base, g) && FreeFrame(vm.zone, vm.base, g).Freed?
    ensures var y := vm.(zone := FreeFrame(vm.zone, vm.base, g).zone);
            && BuddyModel.WellFormed(y.zone) && y.zone.n == vm.zone.n
            && Frames(y) == Frames(vm) - {g} && g in Frames(vm)
            && Pool(y) == Pool(vm) + 1 && Total(y) == Total(vm)
  {
    FreeLive(vm.zone, vm.base, g);
    FreedPool(vm, g);
    hide FreeTables.Sound, LiveFrame, FreeFrame, CountFrom, BuddyModel.WellFormed;
    var y := vm.(zone := FreeFrame(vm.zone, vm.base, g).zone);
    forall f: nat ensures f in Frames(y) <==> f in Frames(vm) && f != g {
      InFrames(y, f);
      InFrames(vm, f);
    }
    InFrames(vm, g);
    hide Frames;
    assert Frames(y) == Frames(vm) - {g};
  }

  lemma FreedPool(vm: Vm, g: nat)
    requires FreeTables.Sound(vm.zone) && BuddyModel.WellFormed(vm.zone) && 0 < vm.base
    requires LiveFrame(vm.zone, vm.base, g) && FreeFrame(vm.zone, vm.base, g).Freed?
    ensures FreeCount(FreeFrame(vm.zone, vm.base, g).zone) == FreeCount(vm.zone) + 1
  {
    hide Invariant, Coalesced, FreeCount, Free, LiveExcept, Pow2, BuddyModel.WellFormed;
    PowZero();
    FreeGives(vm.zone, g - vm.base, 0);
  }

  lemma PowZero()
    ensures Pow2(0) == 1
  {
  }

  function AsSet(s: seq<nat>): set<nat> {
    set x | x in s
  }

  lemma {:induction false} FreeAllStep(vm: Vm, s: seq<nat>)
    requires FreeTables.Sound(vm.zone) && BuddyModel.WellFormed(vm.zone) && 0 < vm.base
    requires NoDuplicates(s) && AllLive(vm.zone, vm.base, s) && FreeAll(vm.zone, vm.base, s).Freed?
    ensures var y := vm.(zone := FreeAll(vm.zone, vm.base, s).zone);
            && BuddyModel.WellFormed(y.zone) && Frames(y) == Frames(vm) - AsSet(s)
            && Pool(y) == Pool(vm) + |s| && Total(y) == Total(vm)
    decreases |s|
  {
    hide FreeTables.Sound, BuddyModel.WellFormed, FreeFrame, LiveFrame, Frames, Pool, Total, NoDuplicates, AsSet;
    if s == [] {
      AsSetNone();
    } else {
      var g, rest := s[0], s[1..];
      var y := vm.(zone := FreeFrame(vm.zone, vm.base, g).zone);
      FreeLive(vm.zone, vm.base, g);
      FreeStep(vm, g);
      RestDistinct(s);
      FreeAllStep(y, rest);
      AsSetCons(s);
    }
  }

  lemma AsSetNone()
    ensures AsSet([]) == {}
  {
  }

  lemma RestDistinct(s: seq<nat>)
    requires s != [] && NoDuplicates(s)
    ensures s[0] !in s[1..] && NoDuplicates(s[1..])
  {
  }

  lemma AsSetCons(s: seq<nat>)
    requires s != []
    ensures AsSet(s) == {s[0]} + AsSet(s[1..])
  {
    assert s == [s[0]] + s[1..];
  }

  lemma {:induction false} AsSetSize(s: seq<nat>)
    requires NoDuplicates(s)
    ensures |AsSet(s)| == |s|
    decreases |s|
  {
    AsSetNone();
    if s != [] {
      RestDistinct(s);
      AsSetSize(s[1..]);
      AsSetCons(s);
    }
  }

  /** free_pagetable() of a failing create_proc(): exactly the tables are freed. */
  lemma TakeDownGives(vm: Vm, f: nat)
    requires VmOk(vm) && BuddyModel.WellFormed(vm.zone) && IsRoot(vm, f) && vm.base <= f && AllAccessible(vm, f)
    requires TakeDown(vm, f).CreateFailed?
    ensures var v := TakeDown(vm, f).vm;
            && BuddyModel.WellFormed(v.zone) && v.zone.n == vm.zone.n && v == vm.(zone := v.zone, owner := v.owner)
            && v.owner == Without(vm.owner, f) && Frames(v) == Frames(vm) - Tables(vm, f)
            && Pool(v) == Spent(vm, f) && Total(v) == Total(vm)
  {
    hide VmOk, FreeTable, Translate, LiveFrame, NoAccess, BuddyModel.WellFormed, Order, FreeTables.Sound, FreeAll,
         Frames, CountFrom, Without;
    FreePagetableExact(vm, f);
    VmParts(vm);
    var s := Order(vm.tables, f, 0, 2).value;
    forall g: nat | g in s ensures LiveFrame(vm.zone, vm.base, g) { OwnedIsLive(vm, g); }
    FreeAllStep(vm, s);
    AsSetSize(s);
    assert AsSet(s) == Tables(vm, f);
    var v := TakeDown(vm, f).vm;
    SameFrames(vm.(zone := v.zone), v);
  }

  // ----- the stack that could not be mapped

  /** free_proc() when the stack could not be mapped: its page and the tables are free again, and nothing else. */
  lemma GiveBackGives(vm: Vm, f: nat, g: nat)
    requires VmOk(vm) && BuddyModel.WellFormed(vm.zone) && IsRoot(vm, f)
    requires vm.base <= f && AllAccessible(vm, f) && Unowned(vm, g) && GiveBack(vm, f, g).CreateFailed?
    ensures var v := GiveBack(vm, f, g).vm;
            && VmOk(v) && BuddyModel.WellFormed(v.zone) && OthersKept(vm, v, f) && v.data == vm.data
            && v.owner == Without(vm.owner, f) && Frames(v) == Frames(vm) - {g} - Tables(vm, f)
            && Pool(v) == Spent(vm, f) + 1
  {
    hide VmOk, BuddyModel.WellFormed, FreeFrame, TakeDown, LiveFrame, Frames, CountFrom, Without, AllAccessible,
         OthersKept, FreeTables.Sound;
    VmParts(vm);
    GiveBackKeeps(vm, f, g);
    FreeUnowned(vm, g);
    FreeStep(vm, g);
    var y := vm.(zone := FreeFrame(vm.zone, vm.base, g).zone);
    SameSpace(vm, y, f);
    TakeDownGives(y, f);
    VmZone(GiveBack(vm, f, g).vm);
    assert Tables(y, f) == Tables(vm, f);
  }

  lemma StackGone(vm: Vm, f: nat, binary: seq<nat>)
    requires VmOk(vm) && Invariant(vm.zone) && BuddyModel.WellFormed(vm.zone) && IsRoot(vm, f)
    requires AddStack(vm, f).StackUnmapped? && BuddyModel.WellFormed(AddStack(vm, f).vm.zone)
    requires FreeFrame(AddStack(vm, f).vm.zone, AddStack(vm, f).vm.base, AddStack(vm, f).frame).Freed?
    ensures var x, g := AddStack(vm, f).vm, AddStack(vm, f).frame;
            var y := x.(zone := FreeFrame(x.zone, x.base, g).zone);
            Built(vm, y, f, binary) && BuddyModel.WellFormed(y.zone) && Spent(y, f) == Spent(vm, f)
  {
    hide VmOk, Invariant, AllocPage, BuddyModel.WellFormed, LiveFrame, MapPage, FreeFrame, Frames, CountFrom, Built,
         KeepsBytes, Extends, LeafPte, Translate, SameExcept;
    AllocPageFresh(vm);
    AllocKeepsBytes(vm);
    AllocStep(vm);
    var v, g := AllocPage(vm).vm, AllocPage(vm).frame;
    RootStays(vm, v, f);
    VmZone(v);
    assert Tables(v, f) == Tables(vm, f);
    MapBuilt(v, f, STACK_PAGE, g, HEAP_PERM, binary);
    MapRefines(v, f, STACK_PAGE, g, HEAP_PERM);
    var x := MapPage(v, f, STACK_PAGE, g, HEAP_PERM).vm;
    VmParts(x);
    BuiltKeeps(v, x, f, binary);
    KeepsAt(v, x, g);
    FreeStep(x, g);
    GoneBuilt(vm, v, x, x.(zone := FreeFrame(x.zone, x.base, g).zone), f, g, binary);
  }

  lemma BuiltKeeps(v: Vm, u: Vm, f: nat, binary: seq<nat>)
    requires Built(v, u, f, binary)
    ensures KeepsBytes(v, u)
  {
  }

  /** A page taken and freed again leaves only the tables taken in between. */
  lemma GoneBuilt(vm: Vm, v: Vm, x: Vm, y: Vm, f: nat, g: nat, binary: seq<nat>)
    requires KeepsBytes(vm, v) && Built(v, x, f, binary) && v.owner == vm.owner && Total(v) == Total(vm)
    requires Frames(v) == Frames(vm) + {g} && g !in Frames(vm)
    requires BuddyModel.WellFormed(y.zone) && y == x.(zone := y.zone) && y.zone.n == x.zone.n
    requires Frames(y) == Frames(x) - {g} && Total(y) == Total(x)
    ensures Built(vm, y, f, binary)
  {
    hide KeepsBytes, Frames, LiveFrame, Total, BuddyModel.WellFormed;
    KeepsFrames(vm, v);
    KeepsFrames(v, x);
    assert Frames(vm) <= Frames(y);
    KeepsFrom(vm, v, x, y);
    GoneNew(vm, v, x, y, f, g, binary);
    hide NewFrames;
  }

  lemma GoneNew(vm: Vm, v: Vm, x: Vm, y: Vm, f: nat, g: nat, binary: seq<nat>)
    requires BuddyModel.WellFormed(vm.zone) && BuddyModel.WellFormed(v.zone) && BuddyModel.WellFormed(x.zone)
    requires BuddyModel.WellFormed(y.zone) && y == x.(zone := y.zone) && NewFrames(v, x, f, binary)
    requires Frames(v) == Frames(vm) + {g} && Frames(y) == Frames(x) - {g}
    ensures NewFrames(vm, y, f, binary)
  {
    hide Frames, BuddyModel.WellFormed;
    assert Tables(y, f) == Tables(x, f);
    hide Tables;
    forall h | h in Frames(y) && h !in Frames(vm) ensures h in Tables(y, f) || HoldsChunk(y, h, binary) {
      if h !in Tables(x, f) {
        var j: nat :| IsChunk(x, h, binary, j);
        assert IsChunk(y, h, binary, j);
      }
    }
  }

  lemma KeepsFrom(vm: Vm, v: Vm, x: Vm, y: Vm)
    requires KeepsBytes(vm, v) && KeepsBytes(v, x) && BuddyModel.WellFormed(y.zone)
    requires y.base == x.base && y.data == x.data && y.zone.n == x.zone.n && Frames(vm) <= Frames(y)
    ensures KeepsBytes(vm, y)
  {
    hide LiveFrame, BuddyModel.WellFormed;
    forall h: nat | LiveFrame(vm.zone, vm.base, h)
      ensures LiveFrame(y.zone, vm.base, h) && Bytes(y, h) == Bytes(vm, h)
    {
      InFrames(vm, h);
      InFrames(y, h);
    }
  }

  // ----- create_proc

  /** The pages create_proc() has taken when it has loaded j pages of the program. */
  function NeededFor(pl: Places, j: nat): nat {
    1 + j + Need(Have({}, {}), [pl.procPage, pl.kstackPage] + Range(0, j))
  }

  /** How many pages of a program of n pages are taken with `pool` pages free: page j if there is one more than that. */
  function LoadedBy(pl: Places, n: nat, pool: nat): nat {
    if n == 0 then 0 else LoadedBy(pl, n - 1, pool) + if NeededFor(pl, n - 1) < pool then 1 else 0
  }

  lemma {:induction false} LoadedIsTaken(pl: Places, n: nat, pool: nat)
    requires pool >= 1 + Need(Have({}, {}), [pl.procPage, pl.kstackPage])
    ensures var ps := [pl.procPage, pl.kstackPage];
            LoadedBy(pl, n, pool) == Taken(AddAll(Have({}, {}), ps), 0, n, pool - 1 - Need(Have({}, {}), ps))
  {
    hide Need, AddAll, Range;
    if n > 0 {
      LoadedIsTaken(pl, n - 1, pool);
      NeedJoin(Have({}, {}), [pl.procPage, pl.kstackPage], Range(0, n - 1));
    }
  }

  lemma {:induction false} NothingLoaded(pl: Places, n: nat, pool: nat)
    requires pool < 1 + Need(Have({}, {}), [pl.procPage, pl.kstackPage])
    ensures LoadedBy(pl, n, pool) == 0
  {
    hide Need, AddAll, Range;
    if n > 0 {
      NothingLoaded(pl, n - 1, pool);
      NeedJoin(Have({}, {}), [pl.procPage, pl.kstackPage], Range(0, n - 1));
    }
  }

  /** A new root, and nothing else. */
  lemma RootBuilt(vm: Vm)
    requires VmOk(vm) && Invariant(vm.zone) && BuddyModel.WellFormed(vm.zone) && AllocPage(vm).GotPage?
    ensures var w, f := NewSpace(vm), AllocPage(vm).frame;
            && BuddyModel.WellFormed(w.zone) && f !in vm.owner && w.owner == vm.owner[f := Root]
            && Frames(w) == Frames(vm) + {f} && f !in Frames(vm) && Total(w) == Total(vm)
            && KeepsBytes(vm, w) && Tables(w, f) == {f} && Spent(w, f) == Pool(vm)
  {
    hide VmOk, Invariant, AllocPage, BuddyModel.WellFormed, LiveFrame, Frames, CountFrom, Extends, KeepsBytes, Tables;
    AllocPageFresh(vm);
    AllocKeepsBytes(vm);
    AllocStep(vm);
    var v, f := AllocPage(vm).vm, AllocPage(vm).frame;
    SameFrames(v, NewSpace(vm));
    NoTables(vm, NewSpace(vm), f);
    OwnerOnly(vm, v, NewSpace(vm));
  }

  lemma OwnerOnly(vm: Vm, v: Vm, w: Vm)
    requires KeepsBytes(vm, v) && w == v.(owner := w.owner)
    ensures KeepsBytes(vm, w)
  {
    hide LiveFrame;
  }

  /** Every role belongs to an owned root. */
  lemma RootsOwned(vm: Vm, g: nat)
    requires VmOk(vm) && g in vm.owner && vm.owner[g] != Root
    ensures vm.owner[g].root in vm.owner
  {
    hide InvariantExcept, CoalescedExcept, Target, Translate;
    assert LinkOk(vm.tables, vm.owner, g);
  }

  lemma NoTables(vm: Vm, w: Vm, f: nat)
    requires VmOk(vm) && f !in vm.owner && w.owner == vm.owner[f := Root]
    ensures Tables(w, f) == {f}
  {
    hide VmOk;
    forall g | g in vm.owner ensures !TableOf(vm.owner[g], g, f) {
      if vm.owner[g] != Root { RootsOwned(vm, g); }
    }
  }

  /** Without the space at f, the owners are those of before. */
  lemma OwnersBack(vm: Vm, w: Vm, u: Vm, f: nat)
    requires VmOk(vm) && f !in vm.owner && w.owner == vm.owner[f := Root]
    requires BuddyModel.WellFormed(w.zone) && OwnersGrow(w, u, f)
    ensures Without(u.owner, f) == vm.owner
  {
    hide VmOk, Tables, Frames;
    forall g | g in vm.owner ensures !BelongsTo(vm.owner[g], g, f) {
      if vm.owner[g] != Root { RootsOwned(vm, g); }
    }
    forall g ensures g in Without(u.owner, f) <==> g in vm.owner {
      if g in u.owner && g !in w.owner { assert BelongsTo(u.owner[g], g, f); }
    }
  }

  /**
    No frame has a new owner; what was live is live with its bytes; exactly k more frames are,
    and hold the program.
   */
  ghost predicate OnlyProgramLeft(vm: Vm, v: Vm, binary: seq<nat>, k: nat) {
    match vm
    case Vm(_, _, _, _, _) =>
      && KeepsBytes(vm, v) && v.owner == vm.owner
      && |Frames(v) - Frames(vm)| == k && Pool(v) + k == Pool(vm)
      && forall g :: g in Frames(v) - Frames(vm) ==> HoldsChunk(v, g, binary)
  }

  /** Whatever has been built in a new space, freeing its tables leaves only the program. */
  lemma TornDown(vm: Vm, u: Vm, f: nat, binary: seq<nat>, k: nat)
    requires VmOk(vm) && Invariant(vm.zone) && BuddyModel.WellFormed(vm.zone) && AllocPage(vm).GotPage?
    requires f == AllocPage(vm).frame && Built(NewSpace(vm), u, f, binary) && BuddyModel.WellFormed(u.zone)
    requires Spent(u, f) + k == Pool(vm)
    requires VmOk(u) && IsRoot(u, f) && u.base <= f && AllAccessible(u, f) && TakeDown(u, f).CreateFailed?
    ensures OnlyProgramLeft(vm, TakeDown(u, f).vm, binary, k)
  {
    hide VmOk, Invariant, AllocPage, BuddyModel.WellFormed, LiveFrame, Frames, CountFrom, TakeDown, KeepsBytes,
         HoldsChunk, AllAccessible, Without, Tables;
    RootBuilt(vm);
    TakeDownGives(u, f);
    OwnersBack(vm, NewSpace(vm), u, f);
    var w, v := NewSpace(vm), TakeDown(u, f).vm;
    KeepsFrames(vm, w);
    KeepsFrames(w, u);
    TablesNew(vm, w, u, f);
    KeepsTrans(vm, w, u);
    assert Frames(vm) <= Frames(v);
    KeepsFrom(vm, w, u, v);
    RootIsTable(u, f);
    LeftFrames(vm, w, u, v, f, binary);
    Difference(Frames(vm), Frames(v));
  }

  lemma RootIsTable(u: Vm, f: nat)
    requires IsRoot(u, f)
    ensures f in Tables(u, f)
  {
  }

  /** None of the tables was live before. */
  lemma TablesNew(vm: Vm, w: Vm, u: Vm, f: nat)
    requires BuddyModel.WellFormed(vm.zone) && BuddyModel.WellFormed(w.zone) && OwnersGrow(w, u, f)
    requires Tables(w, f) == {f} && f !in Frames(vm) && Frames(vm) <= Frames(w)
    ensures Tables(u, f) !! Frames(vm)
  {
    hide Frames, BuddyModel.WellFormed;
    forall g | g in Tables(u, f) ensures g !in Frames(vm) {
      if g in w.owner { assert g in Tables(w, f); }
    }
  }

  lemma LeftFrames(vm: Vm, w: Vm, u: Vm, v: Vm, f: nat, binary: seq<nat>)
    requires BuddyModel.WellFormed(vm.zone) && BuddyModel.WellFormed(w.zone) && BuddyModel.WellFormed(u.zone)
    requires BuddyModel.WellFormed(v.zone) && NewFrames(w, u, f, binary) && v.data == u.data
    requires Frames(w) == Frames(vm) + {f} && Frames(v) == Frames(u) - Tables(u, f) && f in Tables(u, f)
    ensures forall g :: g in Frames(v) - Frames(vm) ==> HoldsChunk(v, g, binary)
  {
    hide Frames, BuddyModel.WellFormed, Tables;
    forall g | g in Frames(v) - Frames(vm) ensures HoldsChunk(v, g, binary) {
      var j: nat :| IsChunk(u, g, binary, j);
      assert IsChunk(v, g, binary, j);
    }
  }

  lemma Difference(a: set<nat>, b: set<nat>)
    requires a <= b
    ensures |b - a| + |a| == |b|
  {
    assert b == (b - a) + a;
  }

  /**
    create_proc() that returns NULL. No root is new, and no frame has a new owner;
    every table and stack page it took is free again; what stays live are the pages it
    had taken for the program, as many as the free pages allowed, each with its piece
    of it. With an empty program nothing is lost.
   */
  lemma CreateGivesBack(vm: Vm, pl: Places, binary: seq<nat>)
    requires VmOk(vm) && Invariant(vm.zone) && BuddyModel.WellFormed(vm.zone) && PlacesOk(vm, pl)
    requires PagesFor(|binary|) * PAGE <= USER_HEAP_END && CreateProc(vm, pl, binary).CreateFailed?
    ensures OnlyProgramLeft(vm, CreateProc(vm, pl, binary).vm, binary, LoadedBy(pl, PagesFor(|binary|), Pool(vm)))
    ensures binary == [] ==>
              var v := CreateProc(vm, pl, binary).vm;
              Frames(v) == Frames(vm) && Pool(v) == Pool(vm)
  {
    hide VmOk, Invariant, AllocPage, BuddyModel.WellFormed, BeforeUart, PagesFor, PlacesOk, Pool, Translate, IsRoot,
         OthersKept, OnlyProgramLeft, NeededFor;
    AllocPageCost(vm);
    NothingLoaded(pl, PagesFor(|binary|), 0);
    if AllocPage(vm).GotPage? {
      NewRoot(vm);
      var f, w := AllocPage(vm).frame, NewSpace(vm);
      PlacesKept(vm, w, f, pl);
      BeforeGivesBack(vm, w, f, pl, binary);
    } else {
      NothingLeft(vm, binary);
    }
    EmptyLeft(vm, CreateProc(vm, pl, binary).vm, pl);
  }

  lemma NothingLeft(vm: Vm, binary: seq<nat>)
    requires VmOk(vm) && BuddyModel.WellFormed(vm.zone)
    ensures OnlyProgramLeft(vm, vm, binary, 0)
  {
    KeepsRefl(vm);
    hide VmOk, Frames, BuddyModel.WellFormed;
    assert Frames(vm) - Frames(vm) == {};
  }

  lemma EmptyLeft(vm: Vm, v: Vm, pl: Places)
    requires BuddyModel.WellFormed(vm.zone)
    ensures OnlyProgramLeft(vm, v, [], LoadedBy(pl, PagesFor(0), Pool(vm))) ==>
              BuddyModel.WellFormed(v.zone) && Frames(v) == Frames(vm) && Pool(v) == Pool(vm)
  {
    if OnlyProgramLeft(vm, v, [], LoadedBy(pl, PagesFor(0), Pool(vm))) {
      KeepsFrames(vm, v);
      hide KeepsBytes, Frames, Pool;
      assert Frames(v) == Frames(vm) + (Frames(v) - Frames(vm));
    }
  }

  /** The new space once proc_t and the kernel stack are in, or one of them could not be mapped. */
  ghost predicate ProcState(vm: Vm, x: Vm, f: nat, pl: Places, binary: seq<nat>, done: bool)
    requires BuddyModel.WellFormed(vm.zone) && Invariant(vm.zone) && AllocPage(vm).GotPage?
  {
    var h, ps := Have({}, {}), [pl.procPage, pl.kstackPage];
    && VmOk(x) && Invariant(x.zone) && BuddyModel.WellFormed(x.zone) && IsRoot(x, f) && x.base <= f
    && AllAccessible(x, f) && Built(NewSpace(vm), x, f, binary) && Spent(x, f) == Pool(vm)
    && if done then
         && NoneIn(x, f, 0, USER_PAGES) && Pool(vm) >= 1 + Need(h, ps)
         && Pool(x) == Pool(vm) - 1 - Need(h, ps) && HaveOf(x.tables, f) == AddAll(h, ps)
       else Pool(vm) < 1 + Need(h, ps)
  }

  lemma ProcReached(vm: Vm, w: Vm, f: nat, pl: Places, binary: seq<nat>)
    requires VmOk(vm) && Invariant(vm.zone) && BuddyModel.WellFormed(vm.zone) && AllocPage(vm).GotPage?
    requires w == NewSpace(vm) && f == AllocPage(vm).frame
    requires VmOk(w) && Invariant(w.zone) && PlacesOk(w, pl) && IsRoot(w, f) && w.base <= f
    requires forall p: nat :: Translate(w.tables, f, p) == None
    ensures ProcState(vm, MapProc(w, f, pl).vm, f, pl, binary, MapProc(w, f, pl).MapDone?)
  {
    hide VmOk, Invariant, AllocPage, BuddyModel.WellFormed, MapProc, PlacesOk, Pool, Translate, IsRoot, Built, Spent,
         AllAccessible, SameOutside, KeepsBytes, NoneIn, Early, HaveOf, Need, AddAll, Frames, Tables, NewSpace, Total;
    VmZone(w);
    RootBuilt(vm);
    NewSpaceCost(vm);
    ProcMapped(w, f, pl);
    ProcCost(w, f, pl);
    ProcBuilt(w, f, pl, binary);
    var x := MapProc(w, f, pl).vm;
    SameBase(w, x, f);
    VmZone(x);
    if MapProc(w, f, pl).MapDone? { NoneBelow(w, x, f); }
  }

  lemma SameBase(x: Vm, y: Vm, f: nat)
    requires SameOutside(x, y, f, USER_PAGES, VPNS)
    ensures y.base == x.base
  {
    hide Translate;
  }

  /** The outcome of the part before the UART, in the new space. */
  lemma BeforeGivesBack(vm: Vm, w: Vm, f: nat, pl: Places, binary: seq<nat>)
    requires VmOk(vm) && Invariant(vm.zone) && BuddyModel.WellFormed(vm.zone) && AllocPage(vm).GotPage?
    requires w == NewSpace(vm) && f == AllocPage(vm).frame
    requires VmOk(w) && Invariant(w.zone) && PlacesOk(w, pl) && IsRoot(w, f) && w.base <= f
    requires forall p: nat :: Translate(w.tables, f, p) == None
    requires PagesFor(|binary|) * PAGE <= USER_HEAP_END && BeforeUart(w, f, pl, binary).CreateFailed?
    ensures OnlyProgramLeft(vm, BeforeUart(w, f, pl, binary).vm, binary, LoadedBy(pl, PagesFor(|binary|), Pool(vm)))
  {
    hide VmOk, Invariant, AllocPage, BuddyModel.WellFormed, MapProc, FillSpace, TakeDown, PagesFor, PlacesOk, Pool,
         Translate, IsRoot, OnlyProgramLeft, Built, Spent, AllAccessible, NoneIn, HaveOf, Need, AddAll, NewSpace,
         LoadedBy, Taken;
    ProcReached(vm, w, f, pl, binary);
    var x, n := MapProc(w, f, pl).vm, PagesFor(|binary|);
    if MapProc(w, f, pl).MapFailed? {
      NothingLoaded(pl, n, Pool(vm));
      TornDown(vm, x, f, binary, 0);
    } else {
      LoadedIsTaken(pl, n, Pool(vm));
      FillGivesBack(vm, x, f, pl, binary, LoadedBy(pl, n, Pool(vm)));
    }
  }

  lemma ProcBuilt(vm: Vm, f: nat, pl: Places, binary: seq<nat>)
    requires VmOk(vm) && Invariant(vm.zone) && BuddyModel.WellFormed(vm.zone) && IsRoot(vm, f) && PlacesOk(vm, pl)
    ensures var r := MapProc(vm, f, pl);
            Built(vm, r.vm, f, binary) && BuddyModel.WellFormed(r.vm.zone) && Spent(r.vm, f) == Spent(vm, f)
  {
    hide VmOk, Invariant, MapPage, BuddyModel.WellFormed, IsRoot, Built, Spent, Index, SameOutside, KeepsBytes,
         Translate, AllAccessible, LeafPte;
    MapBuilt(vm, f, pl.procPage, pl.procFrame, KERNEL_RW, binary);
    SuperMap(vm, f, pl.procPage, pl.procFrame);
    var x := MapPage(vm, f, pl.procPage, pl.procFrame, KERNEL_RW).vm;
    OutsideOther(vm, x, f, pl.procPage, pl.procPage + 1, f, VPNS);
    VmZone(x);
    if MapPage(vm, f, pl.procPage, pl.procFrame, KERNEL_RW).MapDone? {
      MapBuilt(x, f, pl.kstackPage, pl.kstackFrame, KERNEL_RW, binary);
      BuiltTrans(vm, x, MapPage(x, f, pl.kstackPage, pl.kstackFrame, KERNEL_RW).vm, f, binary);
    }
  }

  /** From the program on: k pages of it are taken, whatever it is that fails. */
  lemma FillGivesBack(vm: Vm, x: Vm, f: nat, pl: Places, binary: seq<nat>, k: nat)
    requires VmOk(vm) && Invariant(vm.zone) && BuddyModel.WellFormed(vm.zone) && AllocPage(vm).GotPage?
    requires f == AllocPage(vm).frame && Built(NewSpace(vm), x, f, binary)
    requires VmOk(x) && Invariant(x.zone) && BuddyModel.WellFormed(x.zone) && IsRoot(x, f) && x.base <= f
    requires NoneIn(x, f, 0, USER_PAGES) && AllAccessible(x, f) && PagesFor(|binary|) * PAGE <= USER_HEAP_END
    requires Spent(x, f) == Pool(vm) && k == Taken(HaveOf(x.tables, f), 0, PagesFor(|binary|), Pool(x))
    requires FillSpace(x, f, pl.kernelRoot, pl.kernelEnd, binary).CreateFailed?
    ensures OnlyProgramLeft(vm, FillSpace(x, f, pl.kernelRoot, pl.kernelEnd, binary).vm, binary, k)
  {
    hide VmOk, Invariant, AllocPage, BuddyModel.WellFormed, Load, FinishSpace, TakeDown, PagesFor, Pool, Translate,
         IsRoot, OthersKept, OnlyProgramLeft, Built, Spent, AllAccessible, SameOutside, KeepsBytes, NoneIn, HaveOf,
         Taken, HoldsAt, NewSpace;
    NoneAt(x, f, 0, USER_PAGES, STACK_PAGE);
    LoadNewRoot(x, f, binary);
    NoneRange(x, f, PagesFor(|binary|));
    LoadBuilt(x, f, 0, binary);
    var n, u := PagesFor(|binary|), Load(x, f, 0, binary).vm;
    StepKept(x, u, f, 0, n);
    VmZone(u);
    BuiltTrans(NewSpace(vm), x, u, f, binary);
    if Load(x, f, 0, binary).LoadFailed? {
      TornDown(vm, u, f, binary, k);
    } else {
      OutsideOther(x, u, f, 0, n, f, STACK_PAGE);
      FinishGivesBack(vm, u, f, pl, binary, n * PAGE, k);
    }
  }

  lemma FinishGivesBack(vm: Vm, u: Vm, f: nat, pl: Places, binary: seq<nat>, heap: nat, k: nat)
    requires VmOk(vm) && Invariant(vm.zone) && BuddyModel.WellFormed(vm.zone) && AllocPage(vm).GotPage?
    requires f == AllocPage(vm).frame && Built(NewSpace(vm), u, f, binary)
    requires VmOk(u) && Invariant(u.zone) && BuddyModel.WellFormed(u.zone) && IsRoot(u, f) && u.base <= f
    requires AllAccessible(u, f) && Translate(u.tables, f, STACK_PAGE) == None && Spent(u, f) + k == Pool(vm)
    requires FinishSpace(u, f, pl.kernelRoot, pl.kernelEnd, heap).CreateFailed?
    ensures OnlyProgramLeft(vm, FinishSpace(u, f, pl.kernelRoot, pl.kernelEnd, heap).vm, binary, k)
  {
    hide VmOk, Invariant, AllocPage, BuddyModel.WellFormed, AddStack, TakeDown, Pool, Translate, IsRoot,
         OnlyProgramLeft, Built, Spent, AllAccessible, SameOutside, KeepsBytes, CopyLoop, StackOk, Unowned, FreeFrame,
         NewSpace;
    StackKeeps(u, f);
    match AddStack(u, f)
    case NoStack => TornDown(vm, u, f, binary, k);
    case StackUnmapped(x, g) =>
      StepKept(u, x, f, 0, 0);
      AccessibleSame(u, x, f);
      FreeUnowned(x, g);
      StackGone(u, f, binary);
      var y := x.(zone := FreeFrame(x.zone, x.base, g).zone);
      BuiltTrans(NewSpace(vm), u, y, f, binary);
      SameSpace(x, y, f);
      TornDown(vm, y, f, binary, k);
    case StackAt(_) =>
  }

  lemma SameSpace(x: Vm, y: Vm, f: nat)
    requires IsRoot(x, f) && AllAccessible(x, f) && y == x.(zone := y.zone)
    ensures IsRoot(y, f) && AllAccessible(y, f)
  {
    hide Translate, NoAccess;
  }
}
