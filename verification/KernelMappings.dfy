/**
  copy_kernel_mappings() (kernel/proc.c): the kernel image's pages, copied entry
  by entry from one page table into another through walk() and map_page().
 */
module KernelMappings {
  import opened Basics
  import opened Bits
  import opened Sv39
  import opened BuddyModel
  import opened BuddyInvariant
  import opened BuddyCalls
  import opened PageTable
  import opened PageMap
  import opened UserMemory

  const KERNEL_START_VA: nat := 0xffff_ffff_8000_0000

  /** The kernel's pages lie above the user range: the first has number Vpn(KERNEL_START_VA). */
  lemma KernelPages()
    ensures Vpn(KERNEL_START_VA) == 0x7f8_0000 && USER_PAGES < Vpn(KERNEL_START_VA) < VPNS
  {
  }

  /** `complete` is false when some map_page() failed; the loop goes on all the same. */
  datatype Copied = Copied(vm: Vm, complete: bool)

  /** The entry walk(src, va, 0) finds, if it is valid. */
  function SourceEntry(vm: Vm, src: nat, p: nat): Option<nat>
    requires Invariant(vm.zone)
  {
    match Walk(vm, src, p, false)
    case NoStep(_) => None
    case StepTo(_, low) =>
      var e := Entry(vm.tables, low, Index(p, 0));
      if Valid(e) then Some(e) else None
  }

  function CopyOne(vm: Vm, dst: nat, src: nat, p: nat): (c: Copied)
    requires Invariant(vm.zone)
    ensures Invariant(c.vm.zone)
  {
    match SourceEntry(vm, src, p)
    case None => Copied(vm, true)
    case Some(e) =>
      var r := MapPage(vm, dst, p, Target(e), PteFlags(e));
      Copied(r.vm, r.MapDone?)
  }

  function CopyLoop(vm: Vm, dst: nat, src: nat, p: nat, end: nat): (c: Copied)
    requires Invariant(vm.zone)
    ensures Invariant(c.vm.zone)
    decreases end - p
  {
    if p >= end then Copied(vm, true)
    else
      var c := CopyOne(vm, dst, src, p);
      var d := CopyLoop(c.vm, dst, src, p + 1, end);
      Copied(d.vm, c.complete && d.complete)
  }

  lemma SourceIsTranslation(vm: Vm, src: nat, p: nat)
    requires VmOk(vm) && Invariant(vm.zone) && IsRoot(vm, src) && p < VPNS
    ensures SourceEntry(vm, src, p) == Translate(vm.tables, src, p)
  {
    WalkKeeps(vm, src, p, false);
    hide VmOk, Walk, Index, InvariantExcept;
  }

  /** The copy of an entry: the same frame, and the same flags with V, A and D set. */
  ghost predicate CopyOf(e: nat, d: nat) {
    Valid(d) && Target(d) == Target(e) && Pte2Pa(d) == Pte2Pa(e) && PteFlags(d) == LeafFlags(PteFlags(e))
  }

  lemma CopyEncodes(e: nat)
    ensures Target(e) * PAGE < WORD && Target(e) * PAGE == Pte2Pa(e)
    ensures CopyOf(e, LeafPte(Target(e) * PAGE, PteFlags(e)))
  {
    assert Pte2Pa(e) % PAGE == 0 by { PaAligned(e); }
    LeafPteRoundTrip(Target(e), PteFlags(e));
  }

  lemma PaAligned(e: nat)
    ensures Pte2Pa(e) % PAGE == 0 && Pte2Pa(e) < WORD
  {
    var q := e / 1024;
    var k := q * PAGE / WORD;
    assert q * PAGE == k * WORD + q * PAGE % WORD;
    assert WORD == PAGE * 0x10_0000_0000_0000;
    assert Pte2Pa(e) == (q - k * 0x10_0000_0000_0000) * PAGE;
  }

  /** What copying makes of one destination page: an old binding stays, an unmapped page gets the source's. */
  ghost predicate PageCopied(s: Option<nat>, before: Option<nat>, after: Option<nat>, complete: bool) {
    match (before, s)
    case (Some(_), _) => after == before
    case (None, None) => after == None
    case (None, Some(e)) => (complete ==> after.Some?) && (after.Some? ==> CopyOf(e, after.value))
  }

  lemma CopyOneRefines(vm: Vm, dst: nat, src: nat, p: nat)
    requires VmOk(vm) && Invariant(vm.zone) && IsRoot(vm, dst) && IsRoot(vm, src) && USER_PAGES <= p < VPNS
    ensures var c := CopyOne(vm, dst, src, p);
            && VmOk(c.vm) && SameOutside(vm, c.vm, dst, p, p + 1)
            && PageCopied(Translate(vm.tables, src, p), Translate(vm.tables, dst, p), Translate(c.vm.tables, dst, p),
                 c.complete)
  {
    hide VmOk, Translate, MapPage, InvariantExcept, SameOutside, Target, LeafPte, PteFlags, SourceEntry;
    SourceIsTranslation(vm, src, p);
    OutsideRefl(vm, dst, p, p + 1);
    match SourceEntry(vm, src, p)
    case None =>
    case Some(e) =>
      CopyEncodes(e);
      FlagsSmall(e);
      MapRefines(vm, dst, p, Target(e), PteFlags(e));
      var r := MapPage(vm, dst, p, Target(e), PteFlags(e));
      if r.MapFailed? || Translate(vm.tables, dst, p).Some? {
        ExtendsIsOutside(vm, r.vm, dst, p, p + 1);
        ExtendsAt(vm, r.vm, dst, p);
      } else {
        ExceptIsOutside(vm, r.vm, dst, p);
      }
  }

  lemma FlagsSmall(e: nat)
    ensures PteFlags(e) < 1024
  {
  }

  lemma OutsideOther(x: Vm, y: Vm, root: nat, a: nat, b: nat, r: nat, q: nat)
    requires SameOutside(x, y, root, a, b) && IsRoot(x, r) && (r != root || q < a || b <= q)
    ensures IsRoot(y, r) && (q < VPNS ==> Translate(y.tables, r, q) == Translate(x.tables, r, q))
  {
  }

  /**
    The copy gives every page the source maps and the destination does not the
    source's physical page and flags, A and D added (all of them unless some
    map_page() failed). Old bindings of the destination stay; nothing outside the
    range and nothing in any other page table changes.
   */
  lemma {:induction false} CopyRefines(vm: Vm, dst: nat, src: nat, p: nat, end: nat)
    requires VmOk(vm) && Invariant(vm.zone) && IsRoot(vm, dst) && IsRoot(vm, src) && USER_PAGES <= p && end <= VPNS
    ensures var c := CopyLoop(vm, dst, src, p, end);
            && VmOk(c.vm) && SameOutside(vm, c.vm, dst, p, end)
            && forall q: nat :: p <= q < end ==>
                 PageCopied(Translate(vm.tables, src, q), Translate(vm.tables, dst, q),
                     Translate(c.vm.tables, dst, q), c.complete)
    decreases end - p
  {
    hide VmOk, Translate, SameOutside, CopyOne, InvariantExcept, IsRoot, PageCopied;
    OutsideRefl(vm, dst, p, end);
    if p < end {
      CopyOneRefines(vm, dst, src, p);
      var c := CopyOne(vm, dst, src, p);
      OutsideOther(vm, c.vm, dst, p, p + 1, dst, p + 1);
      OutsideOther(vm, c.vm, dst, p, p + 1, src, p + 1);
      CopyRefines(c.vm, dst, src, p + 1, end);
      var d := CopyLoop(c.vm, dst, src, p + 1, end);
      OutsideWiden(vm, c.vm, dst, p, p + 1, p, end);
      OutsideOther(c.vm, d.vm, dst, p + 1, end, dst, p);
      OutsideWiden(c.vm, d.vm, dst, p + 1, end, p, end);
      OutsideTrans(vm, c.vm, d.vm, dst, p, end);
      forall q: nat | p <= q < end
        ensures PageCopied(Translate(vm.tables, src, q), Translate(vm.tables, dst, q), Translate(d.vm.tables, dst, q),
                           c.complete && d.complete)
      {
        if q == p {
          CopiedWeaken(Translate(vm.tables, src, q), Translate(vm.tables, dst, q), Translate(d.vm.tables, dst, q),
              c.complete, d.complete);
        } else {
          OutsideOther(vm, c.vm, dst, p, p + 1, src, q);
          OutsideOther(vm, c.vm, dst, p, p + 1, dst, q);
          CopiedWeaken(Translate(vm.tables, src, q), Translate(vm.tables, dst, q), Translate(d.vm.tables, dst, q),
              d.complete, c.complete);
        }
      }
    }
  }

  lemma CopiedWeaken(s: Option<nat>, before: Option<nat>, after: Option<nat>, a: bool, b: bool)
    requires PageCopied(s, before, after, a)
    ensures PageCopied(s, before, after, a && b) && PageCopied(s, before, after, b && a)
  {
  }

  // ----- exactly when the flags agree too

  lemma FlagsCopiedExactly(e: nat)
    requires Valid(e)
    ensures LeafFlags(PteFlags(e)) == PteFlags(e) <==> Bit(e, 6) == 1 && Bit(e, 7) == 1
  {
    FlagBits(e, 0);
    FlagBits(e, 6);
    FlagBits(e, 7);
    LeafFlagBits(PteFlags(e));
    assert Bit(e, 0) == 1;
    if Bit(e, 6) == 1 && Bit(e, 7) == 1 {
      LeafFlagsIdempotent(PteFlags(e));
    }
  }

  /** Every entry map_page() writes has A and D, so a copy of one has equal flags. */
  lemma MappedFlagsCopied(frame: nat, perm: nat)
    requires frame * PAGE < WORD && perm < 1024
    ensures var e := LeafPte(frame * PAGE, perm); LeafFlags(PteFlags(e)) == PteFlags(e)
  {
    LeafPteRoundTrip(frame, perm);
    LeafFlagBits(perm);
    LeafPteSplit(frame * PAGE, perm);
    hide LeafPte, LeafFlags, Bit;
    LeafFlagsIdempotent(LeafFlags(perm));
  }

  /** Both page tables end up with the same address and flags on every kernel page the source maps. */
  lemma CopyAgrees(vm: Vm, dst: nat, src: nat, p: nat, end: nat, q: nat)
    requires VmOk(vm) && Invariant(vm.zone) && IsRoot(vm, dst) && IsRoot(vm, src) && dst != src
    requires USER_PAGES <= p <= q < end <= VPNS && NoneIn(vm, dst, p, end) && CopyLoop(vm, dst, src, p, end).complete
    requires Translate(vm.tables, src, q).Some?
    ensures var vm' := CopyLoop(vm, dst, src, p, end).vm;
            && Translate(vm'.tables, src, q) == Translate(vm.tables, src, q)
            && Translate(vm'.tables, dst, q).Some?
            && var e, d := Translate(vm'.tables, src, q).value, Translate(vm'.tables, dst, q).value;
               && Pte2Pa(d) == Pte2Pa(e)
               && (PteFlags(d) == PteFlags(e) <==> Bit(e, 6) == 1 && Bit(e, 7) == 1)
  {
    hide VmOk, Translate, SameOutside, CopyLoop, InvariantExcept, IsRoot, LeafFlags, Bit, PteFlags, Target;
    CopyRefines(vm, dst, src, p, end);
    OutsideOther(vm, CopyLoop(vm, dst, src, p, end).vm, dst, p, end, src, q);
    TranslatesValid(vm.tables, src, q);
    FlagsCopiedExactly(Translate(vm.tables, src, q).value);
  }

  lemma TranslatesValid(t: map<nat, seq<nat>>, r: nat, q: nat)
    requires Translate(t, r, q).Some?
    ensures Valid(Translate(t, r, q).value)
  {
  }
}
