/**
  How many pages mapping takes. A page table has a middle table per first digit
  and a low table per pair of digits of the pages it maps; map_page() takes the
  missing ones from the allocator, and succeeds exactly if there are enough.
 */
module PageBudget {
  import opened Basics
  import opened Bits
  import opened Sv39
  import opened BuddyModel
  import opened BuddyInvariant
  import opened BuddyCalls
  import opened BuddyCount
  import opened PageTable
  import opened PageMap

  /** The free pages of the allocator. */
  function Pool(vm: Vm): nat
    requires BuddyModel.WellFormed(vm.zone)
  {
    FreeCount(vm.zone)
  }

  /** Which tables a root has: first digits, and pairs of digits. */
  datatype Have = Have(mids: set<nat>, lows: set<(nat, nat)>)

  ghost function HaveOf(t: map<nat, seq<nat>>, root: nat): Have {
    Have(set i: nat | i < PTES && Valid(Entry(t, root, i)),
         set i: nat, j: nat | i < PTES && j < PTES && LowAt(t, root, i, j) :: (i, j))
  }

  predicate LowAt(t: map<nat, seq<nat>>, root: nat, i: nat, j: nat) {
    Valid(Entry(t, root, i)) && Valid(Entry(t, Target(Entry(t, root, i)), j))
  }

  function Add(h: Have, p: nat): Have {
    Have(h.mids + {Index(p, 2)}, h.lows + {(Index(p, 2), Index(p, 1))})
  }

  /** The tables that mapping page p still needs. */
  function Miss(h: Have, p: nat): (n: nat)
    ensures n <= 2
  {
    if Index(p, 2) !in h.mids then 2 else if (Index(p, 2), Index(p, 1)) !in h.lows then 1 else 0
  }

  /** The tables that mapping these pages, one after the other, takes. */
  function Need(h: Have, ps: seq<nat>): nat
    decreases |ps|
  {
    if ps == [] then 0 else Miss(h, ps[0]) + Need(Add(h, ps[0]), ps[1..])
  }

  function AddAll(h: Have, ps: seq<nat>): Have
    decreases |ps|
  {
    if ps == [] then h else AddAll(Add(h, ps[0]), ps[1..])
  }

  lemma {:induction false} NeedJoin(h: Have, xs: seq<nat>, ys: seq<nat>)
    ensures Need(h, xs + ys) == Need(h, xs) + Need(AddAll(h, xs), ys)
    ensures AddAll(h, xs + ys) == AddAll(AddAll(h, xs), ys)
    decreases |xs|
  {
    hide Miss, Add;
    if xs == [] {
      assert xs + ys == ys;
    } else {
      assert (xs + ys)[0] == xs[0] && (xs + ys)[1..] == xs[1..] + ys;
      NeedJoin(Add(h, xs[0]), xs[1..], ys);
    }
  }

  // ----- in an empty table: one middle table per first digit, one low table per pair

  ghost function Digits(ps: seq<nat>): Have {
    Have(set p: nat | p in ps :: Index(p, 2), set p: nat | p in ps :: (Index(p, 2), Index(p, 1)))
  }

  /** A low table has its middle table. */
  ghost predicate Rooted(h: Have) {
    forall i: nat, j: nat :: (i, j) in h.lows ==> i in h.mids
  }

  lemma AddSizes(h: Have, p: nat)
    requires Rooted(h)
    ensures Rooted(Add(h, p)) && |Add(h, p).mids| + |Add(h, p).lows| == |h.mids| + |h.lows| + Miss(h, p)
  {
    hide Index;
    var i, j := Index(p, 2), Index(p, 1);
    if i in h.mids { assert h.mids + {i} == h.mids; }
    if (i, j) in h.lows { assert h.lows + {(i, j)} == h.lows; }
  }

  lemma {:induction false} NeedSizes(h: Have, ps: seq<nat>)
    requires Rooted(h)
    ensures |AddAll(h, ps).mids| + |AddAll(h, ps).lows| == |h.mids| + |h.lows| + Need(h, ps)
    decreases |ps|
  {
    hide Add, Miss, Rooted;
    if ps != [] {
      AddSizes(h, ps[0]);
      NeedSizes(Add(h, ps[0]), ps[1..]);
    }
  }

  lemma {:induction false} AddAllDigits(h: Have, ps: seq<nat>)
    ensures AddAll(h, ps) == Have(h.mids + Digits(ps).mids, h.lows + Digits(ps).lows)
    decreases |ps|
  {
    if ps == [] {
      assert Digits(ps).mids == {} && Digits(ps).lows == {};
    } else {
      DigitsCons(ps);
      hide Index, Digits;
      AddAllDigits(Add(h, ps[0]), ps[1..]);
      JoinOne(h.mids, Index(ps[0], 2), Digits(ps[1..]).mids);
      JoinOne(h.lows, (Index(ps[0], 2), Index(ps[0], 1)), Digits(ps[1..]).lows);
    }
  }

  lemma JoinOne<T>(a: set<T>, x: T, b: set<T>)
    ensures (a + {x}) + b == a + ({x} + b)
  {
  }

  lemma DigitsCons(ps: seq<nat>)
    requires ps != []
    ensures Digits(ps).mids == {Index(ps[0], 2)} + Digits(ps[1..]).mids
    ensures Digits(ps).lows == {(Index(ps[0], 2), Index(ps[0], 1))} + Digits(ps[1..]).lows
  {
    hide Index;
    assert ps == [ps[0]] + ps[1..];
    forall x ensures x in Digits(ps).mids <==> x in {Index(ps[0], 2)} + Digits(ps[1..]).mids {
      if x in Digits(ps).mids {
        var p :| p in ps && x == Index(p, 2);
        assert p == ps[0] || p in ps[1..];
      }
    }
    forall x ensures x in Digits(ps).lows <==> x in {(Index(ps[0], 2), Index(ps[0], 1))} + Digits(ps[1..]).lows {
      if x in Digits(ps).lows {
        var p :| p in ps && x == (Index(p, 2), Index(p, 1));
        assert p == ps[0] || p in ps[1..];
      }
    }
  }

  /** The tables for a set of pages, from an empty root, whatever their order. */
  lemma TablesForPages(ps: seq<nat>)
    ensures Need(Have({}, {}), ps) == |Digits(ps).mids| + |Digits(ps).lows|
    ensures AddAll(Have({}, {}), ps) == Digits(ps)
  {
    NeedSizes(Have({}, {}), ps);
    AddAllDigits(Have({}, {}), ps);
    assert {} + Digits(ps).mids == Digits(ps).mids && {} + Digits(ps).lows == Digits(ps).lows;
    hide Need, AddAll, Digits;
  }

  // ----- what walk() takes

  /** alloc_page() takes one page, and is refused exactly if there is none. */
  lemma AllocPageCost(vm: Vm)
    requires Invariant(vm.zone) && BuddyModel.WellFormed(vm.zone)
    ensures AllocPage(vm).NoPage? <==> Pool(vm) == 0
    ensures AllocPage(vm).GotPage? ==>
              BuddyModel.WellFormed(AllocPage(vm).vm.zone) && Pool(AllocPage(vm).vm) + 1 == Pool(vm)
  {
    AllocKeeps(vm.zone, 0);
    AllocNone(vm.zone);
    assert Pow2(0) == 1;
    hide InvariantExcept, FreeCount, Alloc, LiveExcept, FreeHead;
    if Alloc(vm.zone, 0).Allocated? { AllocCount(vm.zone, 0); }
  }

  /** Memory that agrees on the root and on its middle tables gives the same tables. */
  lemma HaveKept(t: map<nat, seq<nat>>, t': map<nat, seq<nat>>, owner: map<nat, Role>, root: nat)
    requires EntriesOk(t, owner) && root in owner && owner[root] == Root
    requires forall f: nat, i: nat :: f in owner && !owner[f].Low? && !owner[f].Page? ==>
               Entry(t', f, i) == Entry(t, f, i)
    ensures HaveOf(t', root) == HaveOf(t, root)
  {
    forall i: nat, j: nat | i < PTES ensures LowAt(t', root, i, j) <==> LowAt(t, root, i, j) {
      assert EntryOk(t, owner, root, i);
    }
    hide LowAt;
  }

  /** A new middle table under the root. */
  lemma HaveMid(t: map<nat, seq<nat>>, owner: map<nat, Role>, root: nat, i: nat, f: nat)
    requires EntriesOk(t, owner) && root in owner && owner[root] == Root && i < PTES && !Valid(Entry(t, root, i))
    requires root in t && |t[root]| == PTES && f !in owner && f in t && t[f] == ZeroTable() && f * PAGE < PHYS
    ensures HaveOf(SetEntry(t, root, i, TablePte(f)), root) == Have(HaveOf(t, root).mids + {i}, HaveOf(t, root).lows)
  {
    TablePteRoundTrip(f);
    hide TablePte, Target;
    var t' := SetEntry(t, root, i, TablePte(f));
    forall a: nat, b: nat | a < PTES ensures LowAt(t', root, a, b) <==> LowAt(t, root, a, b) {
      assert EntryOk(t, owner, root, a);
    }
    hide LowAt;
    assert HaveOf(t', root).mids == HaveOf(t, root).mids + {i};
    assert HaveOf(t', root).lows == HaveOf(t, root).lows;
  }

  /** A new low table under a middle table. */
  lemma HaveLow(t: map<nat, seq<nat>>, owner: map<nat, Role>, root: nat, i: nat, g: nat, j: nat, f: nat)
    requires EntriesOk(t, owner) && root in owner && owner[root] == Root && i < PTES && j < PTES
    requires Valid(Entry(t, root, i)) && Target(Entry(t, root, i)) == g && g in owner && owner[g] == Mid(root, i)
    requires g in t && |t[g]| == PTES && f * PAGE < PHYS
    ensures HaveOf(SetEntry(t, g, j, TablePte(f)), root) == Have(HaveOf(t, root).mids, HaveOf(t, root).lows + {(i, j)})
  {
    TablePteRoundTrip(f);
    hide TablePte, Target;
    var t' := SetEntry(t, g, j, TablePte(f));
    forall a: nat, b: nat | a < PTES ensures LowAt(t', root, a, b) <==> LowAt(t, root, a, b) || (a == i && b == j) {
      assert EntryOk(t, owner, root, a);
    }
    hide LowAt;
    assert HaveOf(t', root).mids == HaveOf(t, root).mids;
    assert HaveOf(t', root).lows == HaveOf(t, root).lows + {(i, j)};
  }

  /** The first level of walk(). */
  lemma MidCost(vm: Vm, root: nat, i: nat)
    requires VmOk(vm) && BuddyModel.WellFormed(vm.zone) && Invariant(vm.zone) && IsRoot(vm, root) && i < PTES
    ensures var s, h := NextTable(vm, root, i, Mid(root, i), true), HaveOf(vm.tables, root);
            && BuddyModel.WellFormed(s.vm.zone)
            && (i in h.mids ==> s.StepTo? && s.vm == vm)
            && (i !in h.mids ==> (s.NoStep? <==> Pool(vm) == 0) && (s.NoStep? ==> s.vm == vm))
            && (i !in h.mids && s.StepTo? ==>
                  Pool(s.vm) + 1 == Pool(vm) && HaveOf(s.vm.tables, root) == Have(h.mids + {i}, h.lows))
  {
    assert i in HaveOf(vm.tables, root).mids <==> Valid(Entry(vm.tables, root, i));
    hide VmOk, Invariant, AllocPage, Pool, HaveOf, BuddyModel.WellFormed;
    AllocPageCost(vm);
    if !Valid(Entry(vm.tables, root, i)) && AllocPage(vm).GotPage? { NewMid(vm, root, i); }
  }

  lemma NewMid(vm: Vm, root: nat, i: nat)
    requires VmOk(vm) && Invariant(vm.zone) && AllocPage(vm).GotPage?
    requires IsRoot(vm, root) && i < PTES && !Valid(Entry(vm.tables, root, i))
    ensures var v, f := AllocPage(vm).vm, AllocPage(vm).frame; var h := HaveOf(vm.tables, root);
            HaveOf(SetEntry(v.tables, root, i, TablePte(f)), root) == Have(h.mids + {i}, h.lows)
  {
    hide AllocPage, TablePte;
    AllocPageFresh(vm);
    var v, f := AllocPage(vm).vm, AllocPage(vm).frame;
    VmTrees(vm, root);
    VmTrees(v, root);
    hide VmOk, HaveOf, Target;
    HaveKept(vm.tables, v.tables, vm.owner, root);
    HaveMid(v.tables, v.owner, root, i, f);
  }

  lemma VmTrees(vm: Vm, f: nat)
    requires VmOk(vm) && f in vm.owner && !vm.owner[f].Page?
    ensures EntriesOk(vm.tables, vm.owner) && f in vm.tables && |vm.tables[f]| == PTES
  {
    hide InvariantExcept, CoalescedExcept, EntriesOk, LinksOk;
  }

  /** The second level of walk(). */
  lemma LowCost(vm: Vm, root: nat, i: nat, g: nat, j: nat)
    requires VmOk(vm) && BuddyModel.WellFormed(vm.zone) && Invariant(vm.zone)
    requires IsRoot(vm, root) && i < PTES && j < PTES
    requires Valid(Entry(vm.tables, root, i)) && Target(Entry(vm.tables, root, i)) == g
    requires g in vm.owner && vm.owner[g] == Mid(root, i)
    ensures var s, h := NextTable(vm, g, j, Low(root, i, j), true), HaveOf(vm.tables, root);
            && BuddyModel.WellFormed(s.vm.zone)
            && ((i, j) in h.lows ==> s.StepTo? && s.vm == vm)
            && ((i, j) !in h.lows ==> (s.NoStep? <==> Pool(vm) == 0) && (s.NoStep? ==> s.vm == vm))
            && ((i, j) !in h.lows && s.StepTo? ==>
                  Pool(s.vm) + 1 == Pool(vm) && HaveOf(s.vm.tables, root) == Have(h.mids, h.lows + {(i, j)}))
  {
    assert (i, j) in HaveOf(vm.tables, root).lows <==> Valid(Entry(vm.tables, g, j));
    hide VmOk, Invariant, AllocPage, Pool, HaveOf, BuddyModel.WellFormed, Target;
    AllocPageCost(vm);
    if !Valid(Entry(vm.tables, g, j)) && AllocPage(vm).GotPage? { NewLow(vm, root, i, g, j); }
  }

  lemma NewLow(vm: Vm, root: nat, i: nat, g: nat, j: nat)
    requires VmOk(vm) && Invariant(vm.zone) && AllocPage(vm).GotPage? && IsRoot(vm, root) && i < PTES && j < PTES
    requires Valid(Entry(vm.tables, root, i)) && Target(Entry(vm.tables, root, i)) == g
    requires g in vm.owner && vm.owner[g] == Mid(root, i) && !Valid(Entry(vm.tables, g, j))
    ensures var v, f := AllocPage(vm).vm, AllocPage(vm).frame; var h := HaveOf(vm.tables, root);
            HaveOf(SetEntry(v.tables, g, j, TablePte(f)), root) == Have(h.mids, h.lows + {(i, j)})
  {
    hide AllocPage, TablePte;
    AllocPageFresh(vm);
    var v, f := AllocPage(vm).vm, AllocPage(vm).frame;
    VmTrees(vm, root);
    VmTrees(v, g);
    hide VmOk, HaveOf, Target;
    HaveKept(vm.tables, v.tables, vm.owner, root);
    HaveLow(v.tables, v.owner, root, i, g, j, f);
  }

  /**
    walk() with allocation: it succeeds exactly if the missing tables can be had,
    takes exactly them, and on failure leaves no page free.
   */
  lemma WalkCost(vm: Vm, root: nat, p: nat)
    requires VmOk(vm) && BuddyModel.WellFormed(vm.zone) && Invariant(vm.zone) && IsRoot(vm, root) && p < VPNS
    ensures var s, h := Walk(vm, root, p, true), HaveOf(vm.tables, root);
            var h' := HaveOf(s.vm.tables, root);
            && BuddyModel.WellFormed(s.vm.zone) && h'.mids <= h.mids + {Index(p, 2)}
            && (s.StepTo? <==> Pool(vm) >= Miss(h, p))
            && (s.StepTo? ==> Pool(s.vm) + Miss(h, p) == Pool(vm) && h' == Add(h, p))
            && (s.NoStep? ==> Pool(s.vm) == 0)
  {
    var i, j := Index(p, 2), Index(p, 1);
    var h := HaveOf(vm.tables, root);
    MidHolds(vm.tables, root, i, j);
    hide VmOk, Invariant, NextTable, HaveOf, BuddyModel.WellFormed, Index, Extends, Pool, Target, Valid;
    MidCost(vm, root, i);
    NextTableKeeps(vm, root, i, Mid(root, i), true);
    var s := NextTable(vm, root, i, Mid(root, i), true);
    if s.StepTo? {
      RootStays(vm, s.vm, root);
      VmZone(s.vm);
      LowCost(s.vm, root, i, s.frame, j);
      AddKnown(h, i, j);
    }
  }

  lemma AddKnown(h: Have, i: nat, j: nat)
    ensures i in h.mids ==> h.mids + {i} == h.mids
    ensures (i, j) in h.lows ==> h.lows + {(i, j)} == h.lows
  {
  }

  lemma MidHolds(t: map<nat, seq<nat>>, root: nat, i: nat, j: nat)
    ensures (i, j) in HaveOf(t, root).lows ==> i in HaveOf(t, root).mids
  {
  }

  /** map_page() succeeds exactly if the missing tables can be had, and takes exactly them. */
  lemma MapCost(vm: Vm, root: nat, p: nat, frame: nat, perm: nat)
    requires VmOk(vm) && BuddyModel.WellFormed(vm.zone) && Invariant(vm.zone) && IsRoot(vm, root) && p < VPNS
    ensures var r, h := MapPage(vm, root, p, frame, perm), HaveOf(vm.tables, root);
            var h' := HaveOf(r.vm.tables, root);
            && BuddyModel.WellFormed(r.vm.zone) && h'.mids <= h.mids + {Index(p, 2)}
            && (r.MapDone? <==> Pool(vm) >= Miss(h, p))
            && (r.MapDone? ==> Pool(r.vm) + Miss(h, p) == Pool(vm) && h' == Add(h, p))
            && (r.MapFailed? ==> Pool(r.vm) == 0)
  {
    hide VmOk, Invariant, Walk, HaveOf, BuddyModel.WellFormed, Index, Extends, LeafPte, Miss, Add, Translate,
         LeafTable, FreeCount;
    WalkCost(vm, root, p);
    WalkKeeps(vm, root, p, true);
    var s := Walk(vm, root, p, true);
    if s.StepTo? {
      VmTrees(s.vm, root);
      LeafKeepsTables(s.vm.tables, s.vm.owner, root, s.frame, Index(p, 0), LeafPte(frame * PAGE, perm));
    }
  }

  lemma LeafKeepsTables(t: map<nat, seq<nat>>, owner: map<nat, Role>, root: nat, low: nat, i: nat, v: nat)
    requires EntriesOk(t, owner) && root in owner && owner[root] == Root && low in owner && owner[low].Low?
    ensures HaveOf(SetEntry(t, low, i, v), root) == HaveOf(t, root)
  {
    hide HaveOf, EntriesOk;
    HaveKept(t, SetEntry(t, low, i, v), owner, root);
  }
}
