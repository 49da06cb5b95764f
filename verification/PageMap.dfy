/**
  map_page() and unmap_page() as updates of the map the page table stands for,
  and the walk the hardware does over the same memory.
 */
module PageMap {
  import opened Basics
  import opened Bits
  import opened Sv39
  import opened BuddyModel
  import opened BuddyInvariant
  import opened BuddyCalls
  import opened PageTable

  // ----- map_page

  datatype MapOutcome = MapFailed(vm: Vm) | MapDone(vm: Vm)

  /** map_page(); the owner of a user page's frame is recorded when the page is newly mapped. */
  function MapPage(vm: Vm, root: nat, p: nat, frame: nat, perm: nat): (r: MapOutcome)
    requires Invariant(vm.zone)
    ensures Invariant(r.vm.zone)
  {
    match Walk(vm, root, p, true)
    case NoStep(v) => MapFailed(v)
    case StepTo(v, low) =>
      if Valid(Entry(v.tables, low, Index(p, 0))) then MapDone(v)
      else MapDone(v.(tables := SetEntry(v.tables, low, Index(p, 0), LeafPte(frame * PAGE, perm)),
                      owner := if p < USER_PAGES then v.owner[frame := Page(root, p)] else v.owner))
  }

  /** Only virtual page p of this root may translate differently. */
  ghost predicate SameExcept(vm: Vm, vm': Vm, root: nat, p: nat) {
    && (forall r: nat :: IsRoot(vm, r) ==> IsRoot(vm', r))
    && (forall r: nat, q: nat :: IsRoot(vm, r) && q < VPNS && !(r == root && q == p) ==>
          Translate(vm'.tables, r, q) == Translate(vm.tables, r, q))
  }

  /** A frame a caller may map at a user page: live, and nobody's yet. */
  ghost predicate Unowned(vm: Vm, frame: nat)
    requires BuddyModel.WellFormed(vm.zone)
  {
    frame !in vm.owner && LiveFrame(vm.zone, vm.base, frame)
  }

  lemma LeafIndex(p: nat, q: nat)
    requires p < VPNS && q < VPNS
    requires Index(p, 2) == Index(q, 2) && Index(p, 1) == Index(q, 1) && Index(p, 0) == Index(q, 0)
    ensures p == q
  {
    IndexInjective(p);
    IndexInjective(q);
  }

  /** Two pages share a leaf entry only if they are the same page. */
  lemma LeafEntryUnique(t: map<nat, seq<nat>>, owner: map<nat, Role>, r: nat, p: nat, r': nat, q: nat)
    requires EntriesOk(t, owner) && r in owner && owner[r] == Root && r' in owner && owner[r'] == Root
    requires p < VPNS && q < VPNS && LeafTable(t, r, p).Some? && LeafTable(t, r', q) == LeafTable(t, r, p)
    requires Index(p, 0) == Index(q, 0)
    ensures r == r' && p == q
  {
    WalkRoles(t, owner, r, p);
    WalkRoles(t, owner, r', q);
    hide Index, LeafTable, EntriesOk;
    LeafIndex(p, q);
  }

  /** Writing a leaf entry changes the tables on nobody's way down ... */
  lemma LeafWritePath(t: map<nat, seq<nat>>, owner: map<nat, Role>, low: nat, i: nat, v: nat, r: nat, q: nat)
    requires EntriesOk(t, owner) && r in owner && owner[r] == Root && low in owner && owner[low].Low?
    ensures LeafTable(SetEntry(t, low, i, v), r, q) == LeafTable(t, r, q)
  {
    WalkRoles(t, owner, r, q);
    hide Index, EntriesOk, Target, Valid;
  }

  /** ... and so the translation of one page only. */
  lemma LeafWriteTranslates(t: map<nat, seq<nat>>, owner: map<nat, Role>, root: nat, p: nat, v: nat, r: nat, q: nat)
    requires EntriesOk(t, owner) && r in owner && owner[r] == Root && root in owner && owner[root] == Root
    requires p < VPNS && q < VPNS && LeafTable(t, root, p).Some?
    requires var low := LeafTable(t, root, p).value; low in owner && owner[low].Low? && low in t && |t[low]| == PTES
    ensures var t' := SetEntry(t, LeafTable(t, root, p).value, Index(p, 0), v);
            Translate(t', r, q) ==
              if r == root && q == p then (if Valid(v) then Some(v) else None) else Translate(t, r, q)
  {
    var low := LeafTable(t, root, p).value;
    LeafWritePath(t, owner, low, Index(p, 0), v, r, q);
    if LeafTable(t, r, q) == Some(low) && Index(q, 0) == Index(p, 0) { LeafEntryUnique(t, owner, root, p, r, q); }
    hide LeafTable, EntriesOk, Index, Valid;
  }

  /** The owners after a leaf entry is written: at most the frame of page p of this root changes hands. */
  ghost predicate OwnersExcept(owner: map<nat, Role>, owner': map<nat, Role>, root: nat, p: nat) {
    && (forall f :: f in owner && owner[f] != Page(root, p) ==> f in owner' && owner'[f] == owner[f])
    && (forall f :: f in owner' && owner'[f] != Page(root, p) ==> f in owner && owner[f] == owner'[f])
  }

  lemma LeafWriteEntry(t: map<nat, seq<nat>>, owner: map<nat, Role>, owner': map<nat, Role>, root: nat, p: nat,
                       low: nat, v: nat, f: nat, i: nat)
    requires TreesOk(t, owner) && p < VPNS && OwnersExcept(owner, owner', root, p)
    requires low in owner && owner[low] == Low(root, Index(p, 2), Index(p, 1)) && low in t && |t[low]| == PTES
    requires Valid(v) && p < USER_PAGES ==> Target(v) in owner' && owner'[Target(v)] == Page(root, p)
    requires f in owner' && f in owner && owner'[f] == owner[f] && i < PTES
    ensures EntryOk(SetEntry(t, low, Index(p, 0), v), owner', f, i)
  {
    hide Index, Valid, Target, Points, Translate;
    IndexInjective(p);
    assert EntryOk(t, owner, f, i) && LinkOk(t, owner, f);
    if owner[f] == owner[low] { RoleUnique(t, owner, f, low); }
    if f != low && owner[f].Low? { OtherLow(owner[f], root, p, i); }
    hide TreesOk, LinkOk;
  }

  lemma OtherLow(role: Role, root: nat, p: nat, i: nat)
    requires p < VPNS && role.Low? && role != Low(root, Index(p, 2), Index(p, 1)) && i < PTES
    requires role.i2 < PTES && role.i1 < PTES
    ensures role.root != root || role.i2 * 262144 + role.i1 * 512 + i != p
  {
    IndexInjective(p);
  }

  lemma LeafWriteShaped(t: map<nat, seq<nat>>, owner: map<nat, Role>, owner': map<nat, Role>, root: nat, p: nat,
                        low: nat, v: nat)
    requires Shaped(t, owner) && OwnersExcept(owner, owner', root, p)
    ensures Shaped(SetEntry(t, low, Index(p, 0), v), owner')
  {
    hide Index;
  }

  lemma LeafWriteLinks(t: map<nat, seq<nat>>, owner: map<nat, Role>, owner': map<nat, Role>, root: nat, p: nat,
                       low: nat, v: nat, f: nat)
    requires TreesOk(t, owner) && p < VPNS && OwnersExcept(owner, owner', root, p)
    requires root in owner && owner[root] == Root
    requires LeafTable(t, root, p) == Some(low) && low in owner && owner[low].Low? && low in t && |t[low]| == PTES
    requires f in owner' && f in owner && owner'[f] == owner[f] && owner[f] != Page(root, p)
    ensures LinkOk(SetEntry(t, low, Index(p, 0), v), owner', f)
  {
    assert LinkOk(t, owner, f);
    match owner[f]
    case Low(r, i2, i1) => assert EntryOk(t, owner, r, i2);
    case Page(r, q) => LeafWriteTranslates(t, owner, root, p, v, r, q);
    case _ =>
  }

  /** Writing the leaf entry of page p, and settling who owns its frame, keeps the trees. */
  lemma LeafWriteOk(t: map<nat, seq<nat>>, owner: map<nat, Role>, owner': map<nat, Role>, root: nat, p: nat, low: nat,
                    v: nat)
    requires TreesOk(t, owner) && p < VPNS && OwnersExcept(owner, owner', root, p)
    requires root in owner && owner[root] == Root
    requires LeafTable(t, root, p) == Some(low) && low in owner && owner[low] == Low(root, Index(p, 2), Index(p, 1))
    requires Valid(v) && p < USER_PAGES ==> Target(v) in owner' && owner'[Target(v)] == Page(root, p)
    requires forall f :: f in owner' && owner'[f] == Page(root, p) ==> Valid(v) && Target(v) == f && p < USER_PAGES
    ensures TreesOk(SetEntry(t, low, Index(p, 0), v), owner')
  {
    var t' := SetEntry(t, low, Index(p, 0), v);
    ShapedAt(t, owner, low);
    LeafWriteShaped(t, owner, owner', root, p, low, v);
    LeafWriteTranslates(t, owner, root, p, v, root, p);
    hide TreesOk, Index, Valid, Target, Translate, LeafTable;
    forall f: nat, i: nat | f in owner' && i < PTES ensures EntryOk(t', owner', f, i) {
      if owner'[f] != Page(root, p) { LeafWriteEntry(t, owner, owner', root, p, low, v, f, i); }
    }
    forall f | f in owner' ensures LinkOk(t', owner', f) {
      if owner'[f] != Page(root, p) { LeafWriteLinks(t, owner, owner', root, p, low, v, f); }
    }
    assert TreesOk(t', owner') by { TreesAre(t', owner'); }
  }

  lemma TreesAre(t: map<nat, seq<nat>>, owner: map<nat, Role>)
    requires Shaped(t, owner) && EntriesOk(t, owner) && LinksOk(t, owner)
    ensures TreesOk(t, owner)
  {
  }

  /** The new leaf entry of a successful map_page(). */
  lemma MapWrites(vm: Vm, root: nat, p: nat, low: nat, frame: nat, perm: nat)
    requires VmOk(vm) && IsRoot(vm, root) && p < VPNS && frame * PAGE < WORD && perm < 1024
    requires LeafTable(vm.tables, root, p) == Some(low) && low in vm.owner
    requires vm.owner[low] == Low(root, Index(p, 2), Index(p, 1))
    requires !Valid(Entry(vm.tables, low, Index(p, 0))) && (p < USER_PAGES ==> Unowned(vm, frame))
    ensures var vm' := vm.(tables := SetEntry(vm.tables, low, Index(p, 0), LeafPte(frame * PAGE, perm)),
                           owner := if p < USER_PAGES then vm.owner[frame := Page(root, p)] else vm.owner);
            && VmOk(vm') && SameExcept(vm, vm', root, p)
            && Translate(vm'.tables, root, p) == Some(LeafPte(frame * PAGE, perm))
  {
    hide LeafPte, Index, Target, Valid, InvariantExcept, CoalescedExcept, Live, TreesOk, LeafTable, Translate;
    var v := LeafPte(frame * PAGE, perm);
    var owner' := if p < USER_PAGES then vm.owner[frame := Page(root, p)] else vm.owner;
    var vm' := vm.(tables := SetEntry(vm.tables, low, Index(p, 0), v), owner := owner');
    LeafPteRoundTrip(frame, perm);
    TreeParts(vm.tables, vm.owner, low);
    NoPageOwner(vm, root, p, low);
    LeafWriteOk(vm.tables, vm.owner, owner', root, p, low, v);
    forall r: nat, q: nat | IsRoot(vm, r) && q < VPNS && !(r == root && q == p)
      ensures Translate(vm'.tables, r, q) == Translate(vm.tables, r, q)
    {
      LeafWriteTranslates(vm.tables, vm.owner, root, p, v, r, q);
    }
    LeafWriteTranslates(vm.tables, vm.owner, root, p, v, root, p);
  }

  lemma TreeParts(t: map<nat, seq<nat>>, owner: map<nat, Role>, f: nat)
    requires TreesOk(t, owner) && f in owner && !owner[f].Page?
    ensures EntriesOk(t, owner) && f in t && |t[f]| == PTES
  {
  }

  /** Nobody owns a frame for a page that is not mapped. */
  lemma NoPageOwner(vm: Vm, root: nat, p: nat, low: nat)
    requires VmOk(vm) && LeafTable(vm.tables, root, p) == Some(low) && !Valid(Entry(vm.tables, low, Index(p, 0)))
    ensures forall f :: f in vm.owner ==> vm.owner[f] != Page(root, p)
  {
    hide InvariantExcept, CoalescedExcept, LeafTable, Index;
    assert Translate(vm.tables, root, p) == None;
    forall f | f in vm.owner ensures vm.owner[f] != Page(root, p) { assert LinkOk(vm.tables, vm.owner, f); }
  }

  /**
    map_page() refines the update of a map. A failure changes no translation,
    even when intermediate tables were already added. A success keeps an
    existing binding and otherwise adds exactly the new one.
   */
  lemma MapRefines(vm: Vm, root: nat, p: nat, frame: nat, perm: nat)
    requires VmOk(vm) && IsRoot(vm, root) && p < VPNS && frame * PAGE < WORD && perm < 1024
    requires p < USER_PAGES ==> Unowned(vm, frame)
    ensures var r := MapPage(vm, root, p, frame, perm);
            && VmOk(r.vm) && r.vm.base == vm.base
            && (r.MapFailed? || Translate(vm.tables, root, p).Some? ==> Extends(vm, r.vm))
            && (r.MapDone? && Translate(vm.tables, root, p) == None ==>
                  && SameExcept(vm, r.vm, root, p)
                  && Translate(r.vm.tables, root, p) == Some(LeafPte(frame * PAGE, perm)))
  {
    WalkKeeps(vm, root, p, true);
    var s := Walk(vm, root, p, true);
    hide VmOk, Index, InvariantExcept, LeafPte;
    if s.StepTo? {
      MapUnowned(vm, s.vm, frame);
      assert Translate(s.vm.tables, root, p) == Translate(vm.tables, root, p);
      if !Valid(Entry(s.vm.tables, s.frame, Index(p, 0))) {
        MapWrites(s.vm, root, p, s.frame, frame, perm);
        ExceptAfter(vm, s.vm, MapPage(vm, root, p, frame, perm).vm, root, p);
      }
    }
  }

  /** A live frame without an owner stays one while walk() adds tables. */
  lemma MapUnowned(vm: Vm, vm': Vm, frame: nat)
    requires VmOk(vm) && VmOk(vm') && Extends(vm, vm')
    ensures Unowned(vm, frame) ==> Unowned(vm', frame)
  {
    hide InvariantExcept, CoalescedExcept, TreesOk, SameTranslations;
  }

  lemma ExceptAfter(a: Vm, b: Vm, c: Vm, root: nat, p: nat)
    requires Extends(a, b) && SameExcept(b, c, root, p)
    ensures SameExcept(a, c, root, p)
  {
    hide Translate, LiveFrame;
  }

  // ----- unmap_page

  datatype UnmapOutcome = UnmapHalt | NotMapped | Unmapped(vm: Vm)

  /** free_page() on the address of a frame: null is ignored, an address outside the zone halts. */
  function FreeFrame(zone: Zone, base: nat, frame: nat): (r: FreeOutcome)
    requires BuddyModel.WellFormed(zone)
    ensures r.Freed? ==> BuddyModel.WellFormed(r.zone)
  {
    if frame == 0 then Freed(zone) else if frame < base then FreeHalt else Free(zone, frame - base)
  }

  /** unmap_page() */
  function UnmapPage(vm: Vm, root: nat, p: nat): UnmapOutcome
    requires Invariant(vm.zone) && BuddyModel.WellFormed(vm.zone)
  {
    match Walk(vm, root, p, false)
    case NoStep(_) => NotMapped
    case StepTo(_, low) =>
      var e := Entry(vm.tables, low, Index(p, 0));
      if !Valid(e) then NotMapped
      else
        match FreeFrame(vm.zone, vm.base, Target(e))
        case FreeHalt => UnmapHalt
        case Freed(z) =>
          Unmapped(vm.(zone := z, tables := SetEntry(vm.tables, low, Index(p, 0), 0), owner := vm.owner - {Target(e)}))
  }

  /** The frame given back is no longer live and no longer owned; every other live frame stays live, with its bytes. */
  ghost predicate Released(vm: Vm, vm': Vm, frame: nat)
    requires BuddyModel.WellFormed(vm.zone) && BuddyModel.WellFormed(vm'.zone)
  {
    && vm'.base == vm.base && vm'.zone.n == vm.zone.n && vm'.owner == vm.owner - {frame} && vm'.data == vm.data
    && (forall f: nat :: LiveFrame(vm'.zone, vm.base, f) <==> LiveFrame(vm.zone, vm.base, f) && f != frame)
  }

  /** What free_page() on a live page does to the allocator. */
  lemma FreeOne(z: Zone, a: nat)
    requires Invariant(z) && Coalesced(z) && Live(z, a, 0) && Free(z, a).Freed?
    ensures var z' := Free(z, a).zone;
            && Invariant(z') && Coalesced(z') && z'.n == z.n
            && (forall g: nat :: Live(z', g, 0) <==> Live(z, g, 0) && g != a)
  {
    FreeKeeps(z, a, 0);
  }

  lemma ReleaseZone(vm: Vm, frame: nat)
    requires VmOk(vm) && frame in vm.owner && vm.owner[frame] != Root && FreeFrame(vm.zone, vm.base, frame).Freed?
    ensures var z := FreeFrame(vm.zone, vm.base, frame).zone;
            && BuddyModel.WellFormed(z) && Invariant(z) && Coalesced(z) && z.n == vm.zone.n
            && (forall f: nat :: LiveFrame(z, vm.base, f) <==> LiveFrame(vm.zone, vm.base, f) && f != frame)
  {
    hide InvariantExcept, CoalescedExcept, TreesOk, LiveFrame, FreeFrame;
    OwnedIsLive(vm, frame);
    ReleaseLive(vm.zone, vm.base, frame);
  }

  lemma ReleaseLive(zone: Zone, base: nat, frame: nat)
    requires Invariant(zone) && Coalesced(zone) && frame > 0 && LiveFrame(zone, base, frame)
    requires FreeFrame(zone, base, frame).Freed?
    ensures var z := FreeFrame(zone, base, frame).zone;
            && BuddyModel.WellFormed(z) && Invariant(z) && Coalesced(z) && z.n == zone.n
            && (forall f: nat :: LiveFrame(z, base, f) <==> LiveFrame(zone, base, f) && f != frame)
  {
    assert BuddyModel.WellFormed(zone);
    hide InvariantExcept, CoalescedExcept, LiveExcept, Free;
    FreeOne(zone, frame - base);
    var z := FreeFrame(zone, base, frame).zone;
    forall f: nat ensures LiveFrame(z, base, f) <==> LiveFrame(zone, base, f) && f != frame {
      if base <= f {
        assert Live(z, f - base, 0) <==> Live(zone, f - base, 0) && f - base != frame - base;
      }
    }
  }

  /**
    unmap_page() on a user page refines the removal from a map: it fails exactly
    on an unmapped page, and otherwise removes exactly that binding and gives
    back exactly the frame behind it.
   */
  lemma UnmapRefines(vm: Vm, root: nat, p: nat)
    requires VmOk(vm) && IsRoot(vm, root) && p < USER_PAGES
    ensures var r := UnmapPage(vm, root, p);
            && (r.NotMapped? <==> Translate(vm.tables, root, p) == None)
            && (r.Unmapped? ==>
                  var f := Target(Translate(vm.tables, root, p).value);
                  && VmOk(r.vm) && SameExcept(vm, r.vm, root, p) && Translate(r.vm.tables, root, p) == None
                  && f in vm.owner && vm.owner[f] == Page(root, p) && Released(vm, r.vm, f))
  {
    var low := UnmapCases(vm, root, p);
    if UnmapPage(vm, root, p).Unmapped? {
      hide InvariantExcept, CoalescedExcept, UnmapPage, LiveFrame, TreesOk, Index, Target, LeafTable;
      UnmapWrites(vm, root, p, low);
    }
  }

  lemma UnmapCases(vm: Vm, root: nat, p: nat) returns (low: nat)
    requires VmOk(vm) && IsRoot(vm, root) && p < USER_PAGES
    ensures UnmapPage(vm, root, p).NotMapped? <==> Translate(vm.tables, root, p) == None
    ensures UnmapPage(vm, root, p).Unmapped? ==>
              var e := Entry(vm.tables, low, Index(p, 0));
              var z := FreeFrame(vm.zone, vm.base, Target(e));
              && LeafTable(vm.tables, root, p) == Some(low)
              && low in vm.owner && vm.owner[low] == Low(root, Index(p, 2), Index(p, 1))
              && Translate(vm.tables, root, p) == Some(e) && z.Freed?
              && UnmapPage(vm, root, p).vm ==
                   vm.(zone := z.zone, tables := SetEntry(vm.tables, low, Index(p, 0), 0),
                       owner := vm.owner - {Target(e)})
  {
    WalkKeeps(vm, root, p, false);
    var s := Walk(vm, root, p, false);
    hide InvariantExcept, CoalescedExcept, Walk, TreesOk, Free, Index;
    low := if s.StepTo? then s.frame else 0;
  }

  lemma UnmapWrites(vm: Vm, root: nat, p: nat, low: nat)
    requires VmOk(vm) && IsRoot(vm, root) && p < USER_PAGES && LeafTable(vm.tables, root, p) == Some(low)
    requires low in vm.owner && vm.owner[low] == Low(root, Index(p, 2), Index(p, 1))
    requires Valid(Entry(vm.tables, low, Index(p, 0)))
    requires FreeFrame(vm.zone, vm.base, Target(Entry(vm.tables, low, Index(p, 0)))).Freed?
    ensures var f := Target(Entry(vm.tables, low, Index(p, 0)));
            var vm' := vm.(zone := FreeFrame(vm.zone, vm.base, f).zone,
                           tables := SetEntry(vm.tables, low, Index(p, 0), 0), owner := vm.owner - {f});
            && VmOk(vm') && SameExcept(vm, vm', root, p) && Translate(vm'.tables, root, p) == None
            && f in vm.owner && vm.owner[f] == Page(root, p) && Released(vm, vm', f)
  {
    hide InvariantExcept, CoalescedExcept, LiveFrame, TreesOk, FreeFrame, Index, Target, LeafTable, Translate;
    var f := Target(Entry(vm.tables, low, Index(p, 0)));
    UnmapOwner(vm, root, p, low);
    ReleaseZone(vm, f);
    LeafWriteOk(vm.tables, vm.owner, vm.owner - {f}, root, p, low, 0);
    UnmapSame(vm, vm.(tables := SetEntry(vm.tables, low, Index(p, 0), 0), owner := vm.owner - {f}), root, p, low);
  }

  /** The frame behind a mapped user page is owned by that page and no other frame is. */
  lemma UnmapOwner(vm: Vm, root: nat, p: nat, low: nat)
    requires VmOk(vm) && p < USER_PAGES && low in vm.owner && vm.owner[low] == Low(root, Index(p, 2), Index(p, 1))
    requires Valid(Entry(vm.tables, low, Index(p, 0)))
    ensures var f := Target(Entry(vm.tables, low, Index(p, 0)));
            && f in vm.owner && vm.owner[f] == Page(root, p)
            && forall g :: g in vm.owner && vm.owner[g] == Page(root, p) ==> g == f
  {
    hide InvariantExcept, CoalescedExcept, LinkOk;
    assert EntryOk(vm.tables, vm.owner, low, Index(p, 0));
    IndexInjective(p);
    var f := Target(Entry(vm.tables, low, Index(p, 0)));
    forall g | g in vm.owner && vm.owner[g] == Page(root, p) ensures g == f { RoleUnique(vm.tables, vm.owner, f, g); }
  }

  lemma UnmapSame(vm: Vm, vm': Vm, root: nat, p: nat, low: nat)
    requires VmOk(vm) && IsRoot(vm, root) && p < USER_PAGES && LeafTable(vm.tables, root, p) == Some(low)
    requires low in vm.owner && vm.owner[low].Low? && vm'.tables == SetEntry(vm.tables, low, Index(p, 0), 0)
    requires forall r: nat :: IsRoot(vm, r) ==> IsRoot(vm', r)
    ensures SameExcept(vm, vm', root, p) && Translate(vm'.tables, root, p) == None
  {
    ShapedAt(vm.tables, vm.owner, low);
    hide InvariantExcept, CoalescedExcept, Translate, Index, LeafTable, LinksOk;
    forall r: nat, q: nat | IsRoot(vm, r) && q < VPNS && !(r == root && q == p)
      ensures Translate(vm'.tables, r, q) == Translate(vm.tables, r, q)
    {
      LeafWriteTranslates(vm.tables, vm.owner, root, p, 0, r, q);
    }
    LeafWriteTranslates(vm.tables, vm.owner, root, p, 0, root, p);
  }

  /**
    unmap_page() on a mapped page above the user range, whose frame the page table
    does not own: it halts if that frame lies outside the allocator (the kernel
    image does); if the frame is live, as those behind proc_t and the kernel stack
    are, that frame and no other is freed; and if it is in use as somebody's user
    page, that page still translates to it.
   */
  lemma UnmapAbove(vm: Vm, root: nat, p: nat)
    requires VmOk(vm) && BuddyModel.WellFormed(vm.zone) && IsRoot(vm, root) && USER_PAGES <= p < VPNS
    requires Translate(vm.tables, root, p).Some?
    ensures var f := Target(Translate(vm.tables, root, p).value);
            && (f != 0 && (f < vm.base || vm.base + vm.zone.n <= f) ==> UnmapPage(vm, root, p).UnmapHalt?)
            && (LiveFrame(vm.zone, vm.base, f) && vm.zone.n % 1024 == 0 ==> UnmapPage(vm, root, p).Unmapped?)
            && (LiveFrame(vm.zone, vm.base, f) && UnmapPage(vm, root, p).Unmapped? ==>
                  var v := UnmapPage(vm, root, p).vm;
                  && v.base == vm.base && BuddyModel.WellFormed(v.zone)
                  && forall g: nat :: LiveFrame(v.zone, v.base, g) <==> LiveFrame(vm.zone, vm.base, g) && g != f)
            && (f in vm.owner && vm.owner[f].Page? && UnmapPage(vm, root, p).Unmapped? ==>
                  var v := UnmapPage(vm, root, p).vm;
                  && BuddyModel.WellFormed(v.zone) && !LiveFrame(v.zone, v.base, f)
                  && var victim := vm.owner[f];
                     && Translate(v.tables, victim.root, victim.p).Some?
                     && Target(Translate(v.tables, victim.root, victim.p).value) == f)
  {
    var f := Target(Translate(vm.tables, root, p).value);
    AboveIs(vm, root, p);
    FrameOutside(vm.zone, vm.base, f);
    var low := Walk(vm, root, p, false).frame;
    hide VmOk, InvariantExcept, CoalescedExcept, Walk, FreeFrame, Index, LiveFrame, LeafTable, UnmapPage, Translate,
         Target, BuddyModel.WellFormed;
    if LiveFrame(vm.zone, vm.base, f) {
      if vm.zone.n % 1024 == 0 { FrameInRange(vm.zone, vm.base, f); }
      if FreeFrame(vm.zone, vm.base, f).Freed? { ReleaseLive(vm.zone, vm.base, f); }
    }
    if f in vm.owner && vm.owner[f].Page? && FreeFrame(vm.zone, vm.base, f).Freed? {
      ReleaseZone(vm, f);
      VictimStays(vm, root, p, low, f);
    }
  }

  /** What unmap_page() does to a mapped page: free its frame and clear its entry. */
  lemma AboveIs(vm: Vm, root: nat, p: nat)
    requires VmOk(vm) && BuddyModel.WellFormed(vm.zone) && IsRoot(vm, root)
    requires p < VPNS && Translate(vm.tables, root, p).Some?
    ensures Coalesced(vm.zone) && Invariant(vm.zone) && vm.base > 0
    ensures Walk(vm, root, p, false).StepTo? && LeafTable(vm.tables, root, p) == Some(Walk(vm, root, p, false).frame)
    ensures Walk(vm, root, p, false).frame in vm.owner && vm.owner[Walk(vm, root, p, false).frame].Low?
    ensures var f, low := Target(Translate(vm.tables, root, p).value), Walk(vm, root, p, false).frame;
            UnmapPage(vm, root, p) ==
              match FreeFrame(vm.zone, vm.base, f)
              case FreeHalt => UnmapHalt
              case Freed(z) => Unmapped(vm.(zone := z, tables := SetEntry(vm.tables, low, Index(p, 0), 0),
                  owner := vm.owner - {f}))
  {
    WalkKeeps(vm, root, p, false);
    hide InvariantExcept, CoalescedExcept, Walk, TreesOk, Free, Index, LiveExcept;
  }

  lemma FrameOutside(zone: Zone, base: nat, f: nat)
    requires BuddyModel.WellFormed(zone)
    ensures f != 0 && (f < base || base + zone.n <= f) ==> FreeFrame(zone, base, f).FreeHalt?
  {
  }

  lemma VictimStays(vm: Vm, root: nat, p: nat, low: nat, f: nat)
    requires VmOk(vm) && IsRoot(vm, root) && USER_PAGES <= p < VPNS && LeafTable(vm.tables, root, p) == Some(low)
    requires low in vm.owner && vm.owner[low].Low? && f in vm.owner && vm.owner[f].Page?
    ensures var t', victim := SetEntry(vm.tables, low, Index(p, 0), 0), vm.owner[f];
            Translate(t', victim.root, victim.p).Some? && Target(Translate(t', victim.root, victim.p).value) == f
  {
    assert LinkOk(vm.tables, vm.owner, f);
    ShapedAt(vm.tables, vm.owner, low);
    hide InvariantExcept, CoalescedExcept, Translate, Index, LeafTable, LinksOk, Target;
    LeafWriteTranslates(vm.tables, vm.owner, root, p, 0, vm.owner[f].root, vm.owner[f].p);
  }

  /** With a whole number of order-10 blocks, unmap_page() never halts. */
  lemma UnmapNeverHalts(vm: Vm, root: nat, p: nat)
    requires VmOk(vm) && IsRoot(vm, root) && p < USER_PAGES && vm.zone.n % 1024 == 0
    ensures !UnmapPage(vm, root, p).UnmapHalt?
  {
    VmZone(vm);
    WalkKeeps(vm, root, p, false);
    var s := Walk(vm, root, p, false);
    hide VmOk, Invariant, BuddyModel.WellFormed, Walk, FreeFrame, Index, Target, LeafTable, LiveFrame, Translate,
         Extends;
    if s.StepTo? && Valid(Entry(vm.tables, s.frame, Index(p, 0))) {
      UnmapOwner(vm, root, p, s.frame);
      var f := Target(Entry(vm.tables, s.frame, Index(p, 0)));
      OwnedIsLive(vm, f);
      FrameInRange(vm.zone, vm.base, f);
    }
  }

  lemma FrameInRange(zone: Zone, base: nat, f: nat)
    requires BuddyModel.WellFormed(zone) && 0 < base && LiveFrame(zone, base, f) && zone.n % 1024 == 0
    ensures FreeFrame(zone, base, f).Freed?
  {
    hide Free, LiveExcept;
    FreeInRange(zone, f - base);
  }

  lemma FreeInRange(z: Zone, a: nat)
    requires BuddyModel.WellFormed(z) && Live(z, a, 0) && z.n % 1024 == 0
    ensures Free(z, a).Freed?
  {
    AlignedIsMultiple(z.n, MAX_ORDER);
    assert Pow2(10) == 1024;
    MergeInRange(z.(free := z.free[a := true]), a, z.order[a]);
  }

  // ----- the hardware's walk

  /** The page number field of an entry, bits 53 to 10. */
  function Ppn(pte: nat): nat {
    pte / 1024 % PPNS
  }

  datatype HwLeaf = HwLeaf(ppn: nat, flags: nat, level: nat)

  /**
    Section 4.3.2 of the RISC-V Privileged Architecture, steps 2 to 5, for a table
    at `frame` and level `level`: an entry with V clear, with W but not R, or with
    a reserved bit set faults; one with R or X is a leaf.
   */
  function HardwareWalk(t: map<nat, seq<nat>>, frame: nat, p: nat, level: nat): Option<HwLeaf>
    requires level <= 2
    decreases level
  {
    var pte := Entry(t, frame, Index(p, level));
    if !Valid(pte) || (Bit(pte, 1) == 0 && Bit(pte, 2) == 1) || pte >= RESERVED then None
    else if Bit(pte, 1) == 1 || Bit(pte, 3) == 1 then Some(HwLeaf(Ppn(pte), PteFlags(pte), level))
    else if level == 0 then None
    else HardwareWalk(t, Ppn(pte), p, level - 1)
  }

  /**
    A leaf entry the hardware accepts: readable or executable, not writable without being
    readable, nothing reserved.
   */
  predicate LeafAccepted(pte: nat) {
    (Bit(pte, 1) == 1 || Bit(pte, 3) == 1) && !(Bit(pte, 1) == 0 && Bit(pte, 2) == 1) && pte < RESERVED
  }

  /** Without reserved bits the kernel and the hardware read the same page number. */
  lemma PpnIsTarget(pte: nat)
    requires pte < RESERVED
    ensures Ppn(pte) == Target(pte)
  {
    var q := pte / 1024;
    assert q < PPNS;
    assert q * PAGE < WORD;
  }

  /** A pointer to a table is followed. */
  lemma TableStep(t: map<nat, seq<nat>>, frame: nat, p: nat, level: nat)
    requires 0 < level <= 2
    ensures var e := Entry(t, frame, Index(p, level));
            && (!Valid(e) ==> HardwareWalk(t, frame, p, level) == None)
            && (Valid(e) && TableEntry(e) ==>
                  HardwareWalk(t, frame, p, level) == HardwareWalk(t, Target(e), p, level - 1))
  {
    var e := Entry(t, frame, Index(p, level));
    hide Index, Bit, Entry;
    if TableEntry(e) {
      TableBits(e);
      PpnIsTarget(e);
    }
  }

  lemma LeafStep(t: map<nat, seq<nat>>, frame: nat, p: nat)
    ensures var e := Entry(t, frame, Index(p, 0));
            HardwareWalk(t, frame, p, 0) ==
              if Valid(e) && LeafAccepted(e) then Some(HwLeaf(Target(e), PteFlags(e), 0)) else None
  {
    var e := Entry(t, frame, Index(p, 0));
    hide Index, Bit, Entry;
    if e < RESERVED { PpnIsTarget(e); }
  }

  /** On the kernel's trees the hardware's walk finds exactly the kernel's translation, always at level 0. */
  lemma HardwareAgrees(vm: Vm, root: nat, p: nat)
    requires VmOk(vm) && IsRoot(vm, root) && p < VPNS
    ensures HardwareWalk(vm.tables, root, p, 2) ==
              match Translate(vm.tables, root, p)
              case None => None
              case Some(e) => if LeafAccepted(e) then Some(HwLeaf(Target(e), PteFlags(e), 0)) else None
  {
    var t := vm.tables;
    assert EntryOk(t, vm.owner, root, Index(p, 2));
    var e2 := Entry(t, root, Index(p, 2));
    if Valid(e2) { assert EntryOk(t, vm.owner, Target(e2), Index(p, 1)); }
    hide VmOk, HardwareWalk, Index, Target, LeafAccepted;
    TableStep(t, root, p, 2);
    if Valid(e2) {
      TableStep(t, Target(e2), p, 1);
      LeafStep(t, Target(Entry(t, Target(e2), Index(p, 1))), p);
    }
  }

  lemma TableBits(pte: nat)
    requires PteFlags(pte) == PTE_V
    ensures Bit(pte, 1) == 0 && Bit(pte, 2) == 0 && Bit(pte, 3) == 0
  {
    FlagBits(pte, 1);
    FlagBits(pte, 2);
    FlagBits(pte, 3);
  }
}
