/**
  free_pagetable() (kernel/mm/pagetable.c): a recursive walk that frees the
  tables below an entry, in the order of the entries, and then the table itself.
 */
module FreeTables {
  import opened Basics
  import opened Bits
  import opened Sv39
  import opened BuddyModel
  import opened BuddyInvariant
  import opened BuddyCalls
  import opened PageTable
  import opened PageMap

  type Memory = map<nat, seq<nat>>

  /** None of R, W and X: what free_pagetable() takes for a pointer to a table. */
  predicate NoAccess(pte: nat) {
    pte / 2 % 8 == 0
  }

  predicate Descends(pte: nat) {
    Valid(pte) && NoAccess(pte)
  }

  datatype Tree = TooDeep | TreeHalt | TreeFreed(zone: Zone)

  /**
    free_pagetable() from entry i of a table on. The recursion of the source is
    bounded by the tree alone; here `height` bounds it and TooDeep says the bound
    was not enough.
   */
  function FreeTable(t: Memory, zone: Zone, base: nat, frame: nat, i: nat, height: nat): (r: Tree)
    requires BuddyModel.WellFormed(zone)
    ensures r.TreeFreed? ==> BuddyModel.WellFormed(r.zone)
    decreases height, PTES - i
  {
    if i >= PTES then
      match FreeFrame(zone, base, frame)
      case FreeHalt => TreeHalt
      case Freed(z) => TreeFreed(z)
    else if !Descends(Entry(t, frame, i)) then FreeTable(t, zone, base, frame, i + 1, height)
    else if height == 0 then TooDeep
    else
      match FreeTable(t, zone, base, Target(Entry(t, frame, i)), 0, height - 1)
      case TooDeep => TooDeep
      case TreeHalt => TreeHalt
      case TreeFreed(z) => FreeTable(t, z, base, frame, i + 1, height)
  }

  // ----- the order in which frames are freed

  function Order(t: Memory, frame: nat, i: nat, height: nat): Option<seq<nat>>
    decreases height, PTES - i
  {
    if i >= PTES then Some([frame])
    else if !Descends(Entry(t, frame, i)) then Order(t, frame, i + 1, height)
    else if height == 0 then None
    else
      match (Order(t, Target(Entry(t, frame, i)), 0, height - 1), Order(t, frame, i + 1, height))
      case (Some(xs), Some(ys)) => Some(xs + ys)
      case _ => None
  }

  /** free_page() on each frame in turn. */
  function FreeAll(zone: Zone, base: nat, frames: seq<nat>): (r: FreeOutcome)
    requires BuddyModel.WellFormed(zone)
    ensures r.Freed? ==> BuddyModel.WellFormed(r.zone)
    decreases |frames|
  {
    if frames == [] then Freed(zone)
    else
      match FreeFrame(zone, base, frames[0])
      case FreeHalt => FreeHalt
      case Freed(z) => FreeAll(z, base, frames[1..])
  }

  lemma {:induction false} FreeAllJoin(zone: Zone, base: nat, xs: seq<nat>, ys: seq<nat>)
    requires BuddyModel.WellFormed(zone)
    ensures FreeAll(zone, base, xs + ys) ==
              match FreeAll(zone, base, xs)
              case FreeHalt => FreeHalt
              case Freed(z) => FreeAll(z, base, ys)
    decreases |xs|
  {
    hide BuddyModel.WellFormed, FreeFrame;
    if xs == [] {
      assert xs + ys == ys;
    } else {
      assert (xs + ys)[1..] == xs[1..] + ys && (xs + ys)[0] == xs[0];
      if FreeFrame(zone, base, xs[0]).Freed? { FreeAllJoin(FreeFrame(zone, base, xs[0]).zone, base, xs[1..], ys); }
    }
  }

  function AsTree(r: FreeOutcome): Tree {
    match r
    case FreeHalt => TreeHalt
    case Freed(z) => TreeFreed(z)
  }

  /** The recursion frees the frames of Order, in that order. */
  lemma {:induction false} FreeTableIsFreeAll(t: Memory, zone: Zone, base: nat, frame: nat, i: nat, height: nat)
    requires BuddyModel.WellFormed(zone) && Order(t, frame, i, height).Some?
    ensures FreeTable(t, zone, base, frame, i, height) == AsTree(FreeAll(zone, base, Order(t, frame, i, height).value))
    decreases height, PTES - i
  {
    hide BuddyModel.WellFormed, FreeFrame, Target, Descends;
    if i >= PTES {
      SingleFree(zone, base, frame);
    } else if !Descends(Entry(t, frame, i)) {
      FreeTableIsFreeAll(t, zone, base, frame, i + 1, height);
    } else {
      var child := Target(Entry(t, frame, i));
      var xs, ys := Order(t, child, 0, height - 1).value, Order(t, frame, i + 1, height).value;
      FreeTableIsFreeAll(t, zone, base, child, 0, height - 1);
      FreeAllJoin(zone, base, xs, ys);
      if FreeAll(zone, base, xs).Freed? {
        FreeTableIsFreeAll(t, FreeAll(zone, base, xs).zone, base, frame, i + 1, height);
      }
    }
  }

  lemma SingleFree(zone: Zone, base: nat, frame: nat)
    requires BuddyModel.WellFormed(zone)
    ensures FreeAll(zone, base, [frame]) == FreeFrame(zone, base, frame)
  {
    hide FreeFrame;
  }

  // ----- what that order contains

  /** The role is that of a table in the tree under `root`. */
  predicate TableOf(role: Role, f: nat, root: nat) {
    match role
    case Root => f == root
    case Mid(r, _) => r == root
    case Low(r, _, _) => r == root
    case Page(_, _) => false
  }

  /** Every valid leaf entry below `root` has an access right. */
  ghost predicate LeavesAccessible(t: Memory, owner: map<nat, Role>, root: nat) {
    forall f: nat, i: nat :: f in owner && owner[f].Low? && owner[f].root == root && i < PTES ==>
        !Descends(Entry(t, f, i))
  }

  lemma {:induction false} OrderLow(t: Memory, owner: map<nat, Role>, root: nat, low: nat, i: nat)
    requires LeavesAccessible(t, owner, root) && low in owner && owner[low].Low? && owner[low].root == root && i <= PTES
    ensures Order(t, low, i, 0) == Some([low])
    decreases PTES - i
  {
    if i < PTES { OrderLow(t, owner, root, low, i + 1); }
  }

  /** A valid upper entry is descended into, and leads to the child it should. */
  lemma UpperEntry(t: Memory, owner: map<nat, Role>, f: nat, i: nat)
    requires EntriesOk(t, owner) && f in owner && (owner[f] == Root || owner[f].Mid?) && i < PTES
    ensures Descends(Entry(t, f, i)) <==> Valid(Entry(t, f, i))
    ensures Valid(Entry(t, f, i)) ==>
              var g := Target(Entry(t, f, i));
              g in owner && owner[g] == if owner[f] == Root then Mid(f, i) else Low(owner[f].root, owner[f].i2, i)
  {
    assert EntryOk(t, owner, f, i);
    var e := Entry(t, f, i);
    if Valid(e) { TableDescends(e); }
    hide Target, Descends, TableEntry, Valid;
  }

  lemma TableDescends(e: nat)
    requires TableEntry(e)
    ensures Descends(e)
  {
    assert e == 1024 * (e / 1024) + 1;
    assert e / 2 == 8 * (64 * (e / 1024));
  }

  predicate LowFrom(role: Role, r: nat, i2: nat, i: nat) {
    role.Low? && role.root == r && role.i2 == i2 && i <= role.i1
  }

  /** The frames freed from entry i of a middle table on. */
  ghost predicate MidLog(owner: map<nat, Role>, m: nat, r: nat, i2: nat, i: nat, s: seq<nat>) {
    NoDuplicates(s) && forall f: nat :: f in s <==> f in owner && (f == m || LowFrom(owner[f], r, i2, i))
  }

  lemma {:induction false} OrderMid(t: Memory, owner: map<nat, Role>, root: nat, m: nat, i: nat)
    requires TreesOk(t, owner) && LeavesAccessible(t, owner, root) && m in owner
    requires owner[m].Mid? && owner[m].root == root && i <= PTES
    ensures Order(t, m, i, 1).Some? && MidLog(owner, m, root, owner[m].i2, i, Order(t, m, i, 1).value)
    decreases PTES - i
  {
    hide EntriesOk, LinksOk, Shaped, LeavesAccessible, Descends, Target;
    if i == PTES {
      NoLowBeyond(t, owner, m, root);
    } else {
      OrderMid(t, owner, root, m, i + 1);
      UpperEntry(t, owner, m, i);
      LowChild(t, owner, m, i, root);
      if Valid(Entry(t, m, i)) {
        OrderLow(t, owner, root, Target(Entry(t, m, i)), 0);
        MidLogCons(owner, m, root, owner[m].i2, i, Target(Entry(t, m, i)), Order(t, m, i + 1, 1).value);
      } else {
        MidLogSkip(owner, m, root, owner[m].i2, i, Order(t, m, i + 1, 1).value);
      }
    }
  }

  lemma NoLowBeyond(t: Memory, owner: map<nat, Role>, m: nat, root: nat)
    requires LinksOk(t, owner) && m in owner && owner[m].Mid? && owner[m].root == root
    ensures MidLog(owner, m, root, owner[m].i2, PTES, [m])
  {
    forall f | f in owner ensures !LowFrom(owner[f], root, owner[m].i2, PTES) { assert LinkOk(t, owner, f); }
  }

  /** The frame with role Low(root, i2, i) is exactly what entry i of the middle table points to. */
  lemma LowChild(t: Memory, owner: map<nat, Role>, m: nat, i: nat, root: nat)
    requires TreesOk(t, owner) && m in owner && owner[m].Mid? && owner[m].root == root && i < PTES
    ensures forall f :: f in owner && owner[f] == Low(root, owner[m].i2, i) ==>
              Valid(Entry(t, m, i)) && Target(Entry(t, m, i)) == f
  {
    assert LinkOk(t, owner, m);
    forall f | f in owner && owner[f] == Low(root, owner[m].i2, i)
      ensures Valid(Entry(t, m, i)) && Target(Entry(t, m, i)) == f
    {
      assert LinkOk(t, owner, f);
    }
  }

  lemma MidLogCons(owner: map<nat, Role>, m: nat, r: nat, i2: nat, i: nat, g: nat, s: seq<nat>)
    requires MidLog(owner, m, r, i2, i + 1, s) && g in owner && owner[g] == Low(r, i2, i) && m in owner && owner[m].Mid?
    requires forall f :: f in owner && owner[f] == Low(r, i2, i) ==> f == g
    ensures MidLog(owner, m, r, i2, i, [g] + s)
  {
    LowFromSplit(owner, r, i2, i);
    JoinDistinct([g], s);
    hide NoDuplicates, LowFrom;
  }

  lemma MidLogSkip(owner: map<nat, Role>, m: nat, r: nat, i2: nat, i: nat, s: seq<nat>)
    requires MidLog(owner, m, r, i2, i + 1, s)
    requires forall f :: f in owner ==> owner[f] != Low(r, i2, i)
    ensures MidLog(owner, m, r, i2, i, s)
  {
    LowFromSplit(owner, r, i2, i);
    hide NoDuplicates, LowFrom;
  }

  lemma LowFromSplit(owner: map<nat, Role>, r: nat, i2: nat, i: nat)
    ensures forall f :: f in owner ==>
              (LowFrom(owner[f], r, i2, i) <==> LowFrom(owner[f], r, i2, i + 1) || owner[f] == Low(r, i2, i))
    ensures forall f :: f in owner && LowFrom(owner[f], r, i2, i + 1) ==> owner[f] != Low(r, i2, i)
  {
  }

  lemma JoinDistinct(xs: seq<nat>, ys: seq<nat>)
    requires NoDuplicates(xs) && NoDuplicates(ys) && forall x: nat :: x in xs ==> x !in ys
    ensures NoDuplicates(xs + ys)
  {
    var s := xs + ys;
    forall i, j | 0 <= i < j < |s| ensures s[i] != s[j] {
      if i < |xs| <= j { assert xs[i] in xs && ys[j - |xs|] in ys; }
    }
  }

  /** The role is that of a table below entry i or a later entry of `root`. */
  predicate Under(role: Role, root: nat, i: nat) {
    (role.Mid? && role.root == root && i <= role.i2) || (role.Low? && role.root == root && i <= role.i2)
  }

  ghost predicate RootLog(owner: map<nat, Role>, root: nat, i: nat, s: seq<nat>) {
    NoDuplicates(s) && forall f: nat :: f in s <==> f in owner && (f == root || Under(owner[f], root, i))
  }

  lemma {:induction false} OrderRoot(t: Memory, owner: map<nat, Role>, root: nat, i: nat)
    requires TreesOk(t, owner) && LeavesAccessible(t, owner, root) && root in owner && owner[root] == Root && i <= PTES
    ensures Order(t, root, i, 2).Some? && RootLog(owner, root, i, Order(t, root, i, 2).value)
    decreases PTES - i
  {
    hide EntriesOk, LinksOk, Shaped, LeavesAccessible, Descends, Target, MidLog, RootLog;
    if i == PTES {
      NothingBeyond(t, owner, root);
    } else {
      OrderRoot(t, owner, root, i + 1);
      UpperEntry(t, owner, root, i);
      UnderChild(t, owner, root, i);
      if Valid(Entry(t, root, i)) {
        var m := Target(Entry(t, root, i));
        OrderMid(t, owner, root, m, 0);
        RootLogCons(owner, root, i, m, Order(t, m, 0, 1).value, Order(t, root, i + 1, 2).value);
      } else {
        RootLogSkip(owner, root, i, Order(t, root, i + 1, 2).value);
      }
    }
  }

  lemma NothingBeyond(t: Memory, owner: map<nat, Role>, root: nat)
    requires LinksOk(t, owner) && root in owner
    ensures RootLog(owner, root, PTES, [root])
  {
    forall f | f in owner ensures !Under(owner[f], root, PTES) { assert LinkOk(t, owner, f); }
  }

  /** Tables with index i under the root exist only if its entry i is valid, and the middle one is its target. */
  lemma UnderChild(t: Memory, owner: map<nat, Role>, root: nat, i: nat)
    requires LinksOk(t, owner) && root in owner && owner[root] == Root && i < PTES
    ensures forall f :: f in owner && Under(owner[f], root, i) && owner[f].i2 == i ==>
              Valid(Entry(t, root, i)) && (owner[f].Mid? ==> Target(Entry(t, root, i)) == f)
  {
    forall f | f in owner && Under(owner[f], root, i) && owner[f].i2 == i
      ensures Valid(Entry(t, root, i)) && (owner[f].Mid? ==> Target(Entry(t, root, i)) == f)
    {
      assert LinkOk(t, owner, f);
    }
  }

  lemma RootLogCons(owner: map<nat, Role>, root: nat, i: nat, m: nat, xs: seq<nat>, ys: seq<nat>)
    requires MidLog(owner, m, root, i, 0, xs) && RootLog(owner, root, i + 1, ys)
    requires root in owner && owner[root] == Root && m in owner && owner[m] == Mid(root, i)
    requires forall f :: f in owner && Under(owner[f], root, i) && owner[f].i2 == i && owner[f].Mid? ==> m == f
    ensures RootLog(owner, root, i, xs + ys)
  {
    hide NoDuplicates;
    JoinDistinct(xs, ys);
  }

  lemma RootLogSkip(owner: map<nat, Role>, root: nat, i: nat, s: seq<nat>)
    requires RootLog(owner, root, i + 1, s)
    requires forall f :: f in owner && Under(owner[f], root, i) ==> owner[f].i2 != i
    ensures RootLog(owner, root, i, s)
  {
    hide NoDuplicates;
  }

  /** The frames freed are the tables of the tree, each exactly once, and no page. */
  lemma OrderExact(t: Memory, owner: map<nat, Role>, root: nat)
    requires TreesOk(t, owner) && LeavesAccessible(t, owner, root) && root in owner && owner[root] == Root
    ensures Order(t, root, 0, 2).Some?
    ensures var s := Order(t, root, 0, 2).value;
            NoDuplicates(s) && forall f: nat :: f in s <==> f in owner && TableOf(owner[f], f, root)
  {
    hide TreesOk, LeavesAccessible, Order, NoDuplicates;
    OrderRoot(t, owner, root, 0);
  }

  // ----- freeing live frames, each once

  ghost predicate AllLive(zone: Zone, base: nat, frames: seq<nat>)
    requires BuddyModel.WellFormed(zone)
  {
    forall f: nat :: f in frames ==> LiveFrame(zone, base, f)
  }

  ghost predicate Sound(zone: Zone) {
    BuddyModel.WellFormed(zone) && Invariant(zone) && Coalesced(zone)
  }

  lemma FreeLive(zone: Zone, base: nat, f: nat)
    requires Sound(zone) && BuddyModel.WellFormed(zone) && 0 < base && LiveFrame(zone, base, f)
    ensures FreeFrame(zone, base, f).FreeHalt? ==> zone.n % 1024 != 0
    ensures FreeFrame(zone, base, f).Freed? ==>
              var z := FreeFrame(zone, base, f).zone;
              && Sound(z) && BuddyModel.WellFormed(z) && z.n == zone.n
              && forall g: nat :: LiveFrame(z, base, g) <==> LiveFrame(zone, base, g) && g != f
  {
    hide InvariantExcept, CoalescedExcept, LiveExcept, Free;
    if zone.n % 1024 == 0 { FreeInRange(zone, f - base); }
    if Free(zone, f - base).Freed? {
      FreeOne(zone, f - base);
      var z := Free(zone, f - base).zone;
      forall g: nat ensures LiveFrame(z, base, g) <==> LiveFrame(zone, base, g) && g != f {
        if base <= g { assert Live(z, g - base, 0) <==> Live(zone, g - base, 0) && g - base != f - base; }
      }
    }
  }

  /** Freeing distinct live frames in turn frees each of them, and only them; every single call is on a live frame. */
  lemma {:induction false} FreeAllLive(zone: Zone, base: nat, frames: seq<nat>)
    requires Sound(zone) && BuddyModel.WellFormed(zone) && 0 < base
    requires NoDuplicates(frames) && AllLive(zone, base, frames)
    ensures FreeAll(zone, base, frames).FreeHalt? ==> zone.n % 1024 != 0
    ensures FreeAll(zone, base, frames).Freed? ==>
              var z := FreeAll(zone, base, frames).zone;
              && Sound(z) && BuddyModel.WellFormed(z) && z.n == zone.n
              && forall g: nat :: LiveFrame(z, base, g) <==> LiveFrame(zone, base, g) && g !in frames
    decreases |frames|
  {
    hide Sound, BuddyModel.WellFormed, FreeFrame, LiveFrame;
    if frames != [] {
      var f, rest := frames[0], frames[1..];
      FreeLive(zone, base, f);
      assert f !in rest && NoDuplicates(rest);
      if FreeFrame(zone, base, f).Freed? {
        FreeAllLive(FreeFrame(zone, base, f).zone, base, rest);
        assert frames == [f] + rest;
      }
    }
  }

  // ----- free_pagetable() in a running system

  /** The tree a role belongs to. */
  predicate BelongsTo(role: Role, f: nat, root: nat) {
    if role == Root then f == root else role.root == root
  }

  function Without(owner: map<nat, Role>, root: nat): map<nat, Role> {
    map f | f in owner && !BelongsTo(owner[f], f, root) :: owner[f]
  }

  lemma WithoutTrees(t: Memory, owner: map<nat, Role>, root: nat)
    requires TreesOk(t, owner)
    ensures TreesOk(t, Without(owner, root))
  {
    var owner' := Without(owner, root);
    hide Target, Translate;
    forall f: nat, i: nat | f in owner' && i < PTES ensures EntryOk(t, owner', f, i) { assert EntryOk(t, owner, f, i); }
    forall f | f in owner' ensures LinkOk(t, owner', f) { assert LinkOk(t, owner, f); }
  }

  /** In terms of translations: every mapped page of the space has an access right. */
  lemma AccessibleFromTranslations(vm: Vm, root: nat)
    requires VmOk(vm) && IsRoot(vm, root)
    requires forall p: nat :: p < VPNS && Translate(vm.tables, root, p).Some? ==>
               !NoAccess(Translate(vm.tables, root, p).value)
    ensures LeavesAccessible(vm.tables, vm.owner, root)
  {
    hide VmOk, Translate, NoAccess, Entry;
    var t, owner := vm.tables, vm.owner;
    forall f: nat, i: nat | f in owner && owner[f].Low? && owner[f].root == root && i < PTES
      ensures !Descends(Entry(t, f, i))
    {
      LowEntry(vm, f, i);
    }
  }

  lemma LowEntry(vm: Vm, f: nat, i: nat)
    requires VmOk(vm) && f in vm.owner && vm.owner[f].Low? && i < PTES
    ensures var p := vm.owner[f].i2 * 262144 + vm.owner[f].i1 * 512 + i;
            && p < VPNS
            && (Valid(Entry(vm.tables, f, i)) ==>
                  Translate(vm.tables, vm.owner[f].root, p) == Some(Entry(vm.tables, f, i)))
  {
    hide InvariantExcept, CoalescedExcept, Target, Index;
    assert LinkOk(vm.tables, vm.owner, f);
    PageOf(vm.owner[f].i2, vm.owner[f].i1, i);
    LowIsLeafTable(vm.tables, vm.owner, f, vm.owner[f].i2 * 262144 + vm.owner[f].i1 * 512 + i);
  }

  lemma PageOf(i2: nat, i1: nat, i: nat)
    requires i2 < PTES && i1 < PTES && i < PTES
    ensures var p := i2 * 262144 + i1 * 512 + i; p < VPNS && Index(p, 2) == i2 && Index(p, 1) == i1 && Index(p, 0) == i
  {
  }

  lemma LowIsLeafTable(t: Memory, owner: map<nat, Role>, f: nat, p: nat)
    requires LinksOk(t, owner) && f in owner && owner[f].Low?
    requires owner[f].i2 == Index(p, 2) && owner[f].i1 == Index(p, 1)
    ensures LeafTable(t, owner[f].root, p) == Some(f)
  {
    assert LinkOk(t, owner, f);
  }

  lemma {:induction false} DeepFrom(t: Memory, frame: nat, i: nat, j: nat, height: nat)
    requires i <= j < PTES && Descends(Entry(t, frame, j))
    requires height == 0 || Order(t, Target(Entry(t, frame, j)), 0, height - 1) == None
    ensures Order(t, frame, i, height) == None
    decreases j - i
  {
    hide Descends, Target;
    if i < j { DeepFrom(t, frame, i + 1, j, height); }
  }

  /** One mapped page without an access right, and the recursion goes on into the page's own contents. */
  lemma AccessNeeded(vm: Vm, root: nat, p: nat)
    requires VmOk(vm) && IsRoot(vm, root) && p < VPNS
    requires Translate(vm.tables, root, p).Some? && NoAccess(Translate(vm.tables, root, p).value)
    ensures Order(vm.tables, root, 0, 2) == None
  {
    var t := vm.tables;
    VmParts(vm);
    WalkRoles(t, vm.owner, root, p);
    UpperEntry(t, vm.owner, root, Index(p, 2));
    var m := Target(Entry(t, root, Index(p, 2)));
    UpperEntry(t, vm.owner, m, Index(p, 1));
    hide VmOk, TreesOk, Index, Target, Sound;
    var low := Target(Entry(t, m, Index(p, 1)));
    DeepFrom(t, low, 0, Index(p, 0), 0);
    DeepFrom(t, m, 0, Index(p, 1), 1);
    DeepFrom(t, root, 0, Index(p, 2), 2);
  }

  /** The recursion stops at the three levels if and only if every mapped page has an access right. */
  lemma StopsExactly(vm: Vm, root: nat)
    requires VmOk(vm) && IsRoot(vm, root)
    ensures Order(vm.tables, root, 0, 2).Some? <==>
            forall p: nat :: p < VPNS && Translate(vm.tables, root, p).Some? ==>
                !NoAccess(Translate(vm.tables, root, p).value)
  {
    hide VmOk, Translate, NoAccess, Order, Sound, TreesOk;
    if Order(vm.tables, root, 0, 2).Some? {
      forall p: nat | p < VPNS && Translate(vm.tables, root, p).Some?
        ensures !NoAccess(Translate(vm.tables, root, p).value)
      {
        if NoAccess(Translate(vm.tables, root, p).value) { AccessNeeded(vm, root, p); }
      }
    } else {
      if forall p: nat :: p < VPNS && Translate(vm.tables, root, p).Some? ==>
          !NoAccess(Translate(vm.tables, root, p).value) {
        AccessibleFromTranslations(vm, root);
        VmParts(vm);
        OrderExact(vm.tables, vm.owner, root);
      }
    }
  }

  /**
    free_pagetable() on the root of an address space all of whose mapped pages
    have an access right: the recursion never goes deeper than the three levels;
    it frees every table of the tree exactly once and no other page, so mapped
    pages stay live; and every other address space is left intact. It can halt
    only if the allocator's size is not a whole number of order-10 blocks.
   */
  lemma FreePagetableExact(vm: Vm, root: nat)
    requires VmOk(vm) && BuddyModel.WellFormed(vm.zone) && IsRoot(vm, root) && vm.base <= root
    requires forall p: nat :: p < VPNS && Translate(vm.tables, root, p).Some? ==>
               !NoAccess(Translate(vm.tables, root, p).value)
    ensures var r := FreeTable(vm.tables, vm.zone, vm.base, root, 0, 2);
            && r != TooDeep
            && (r == TreeHalt ==> vm.zone.n % 1024 != 0)
            && Order(vm.tables, root, 0, 2).Some?
            && var s := Order(vm.tables, root, 0, 2).value;
               && NoDuplicates(s) && (forall f: nat :: f in s <==> f in vm.owner && TableOf(vm.owner[f], f, root))
               && r == AsTree(FreeAll(vm.zone, vm.base, s))
               && (r.TreeFreed? ==>
                     && r.zone.n == vm.zone.n
                     && VmOk(vm.(zone := r.zone, owner := Without(vm.owner, root)))
                     && forall f: nat :: LiveFrame(r.zone, vm.base, f) <==> LiveFrame(vm.zone, vm.base, f) && f !in s)
  {
    hide VmOk, Translate, NoAccess, FreeTable, Order, FreeAll, BuddyModel.WellFormed, LiveFrame, NoDuplicates, Sound;
    AccessibleFromTranslations(vm, root);
    VmParts(vm);
    OrderExact(vm.tables, vm.owner, root);
    var s := Order(vm.tables, root, 0, 2).value;
    FreeTableIsFreeAll(vm.tables, vm.zone, vm.base, root, 0, 2);
    forall f: nat | f in s ensures LiveFrame(vm.zone, vm.base, f) { OwnedIsLive(vm, f); }
    FreeAllLive(vm.zone, vm.base, s);
    if FreeAll(vm.zone, vm.base, s).Freed? {
      RestStays(vm, root, s, FreeAll(vm.zone, vm.base, s).zone);
    }
  }

  lemma VmParts(vm: Vm)
    requires VmOk(vm)
    ensures Sound(vm.zone) && TreesOk(vm.tables, vm.owner) && 0 < vm.base
  {
    hide InvariantExcept, CoalescedExcept, TreesOk;
  }

  lemma RestStays(vm: Vm, root: nat, s: seq<nat>, z: Zone)
    requires VmOk(vm) && BuddyModel.WellFormed(vm.zone) && Sound(z) && BuddyModel.WellFormed(z) && z.n == vm.zone.n
    requires forall f: nat :: f in s <==> f in vm.owner && TableOf(vm.owner[f], f, root)
    requires forall f: nat :: LiveFrame(z, vm.base, f) <==> LiveFrame(vm.zone, vm.base, f) && f !in s
    ensures VmOk(vm.(zone := z, owner := Without(vm.owner, root)))
  {
    hide InvariantExcept, CoalescedExcept, TreesOk, LiveFrame;
    WithoutTrees(vm.tables, vm.owner, root);
    var owner' := Without(vm.owner, root);
    forall f | f in owner' ensures Held(z, vm.base, owner'[f], f) { assert Held(vm.zone, vm.base, vm.owner[f], f); }
  }
}
