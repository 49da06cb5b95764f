/**
  Page table entries and the three-way split of a virtual address, as in
  kernel/mm/mem.h and kernel/mm/pagetable.c. The format is Sv39, section 4.4 of
  the RISC-V Privileged Architecture, version 20211203: ten flag bits under the
  physical page number, and nine bits of page number per level.
 */
module Sv39 {
  import opened Basics
  import opened Bits

  const WORD: nat := 0x1_0000_0000_0000_0000
  const PHYS: nat := 0x100_0000_0000_0000       // 2^56 bytes of physical memory
  const PPNS: nat := 0x1000_0000_0000           // 2^44 physical pages: bits 53 to 10 of an entry
  const RESERVED: nat := 0x40_0000_0000_0000    // bits 63 to 54 of an entry must be zero
  const PTES: nat := 512
  const VPNS: nat := 0x800_0000     // 2^27 virtual pages

  const PTE_V: nat := 1
  const PTE_R: nat := 2
  const PTE_W: nat := 4
  const PTE_X: nat := 8
  const PTE_U: nat := 16
  const PTE_A: nat := 64
  const PTE_D: nat := 128

  /** PTE2PA: the shift left by 12 is cut to 64 bits. */
  function Pte2Pa(pte: nat): nat {
    (pte / 1024 * PAGE) % WORD
  }

  function Pa2Pte(pa: nat): nat {
    pa / PAGE * 1024
  }

  function PteFlags(pte: nat): nat {
    pte % 1024
  }

  predicate Valid(pte: nat) {
    pte % 2 == 1
  }

  /** The physical page number an entry points to. */
  function Target(pte: nat): nat {
    Pte2Pa(pte) / PAGE
  }

  /** What walk() writes for a new table page. */
  function TablePte(frame: nat): nat {
    Or(Pa2Pte(frame * PAGE), PTE_V)
  }

  /** What map_page() writes. */
  function LeafPte(pa: nat, perm: nat): nat {
    Or(Or(Or(Or(Pa2Pte(pa), perm), PTE_V), PTE_A), PTE_D)
  }

  /** The flags map_page() gives a page. */
  function LeafFlags(perm: nat): nat {
    Or(Or(Or(perm, PTE_V), PTE_A), PTE_D)
  }

  /** Flags are or-ed in below the page number. */
  lemma OrFlags(frame: nat, r: nat, s: nat)
    requires r < 1024 && s < 1024
    ensures Or(frame * 1024 + r, s) == frame * 1024 + Or(r, s) && Or(r, s) < 1024
  {
    TenBits(frame);
    OrLow(frame, 10, r, s);
    hide Or, Pow2, Shift;
  }

  lemma TenBits(a: nat)
    ensures Pow2(10) == 1024 && Shift(a, 10) == a * 1024
  {
    assert Shift(a, 1) == 2 * a;
    assert Shift(a, 3) == 8 * a;
    assert Shift(a, 5) == 32 * a;
    assert Shift(a, 7) == 128 * a;
    assert Shift(a, 9) == 512 * a;
  }

  lemma LeafPteSplit(pa: nat, perm: nat)
    requires perm < 1024
    ensures LeafPte(pa, perm) == Pa2Pte(pa) + LeafFlags(perm) && LeafFlags(perm) < 1024
  {
    hide Or;
    var f := pa / PAGE;
    OrFlags(f, 0, perm);
    OrSym0(perm);
    var f1 := Or(perm, PTE_V);
    OrFlags(f, perm, PTE_V);
    var f2 := Or(f1, PTE_A);
    OrFlags(f, f1, PTE_A);
    OrFlags(f, f2, PTE_D);
  }

  lemma {:induction false} OrSym0(a: nat)
    ensures Or(0, a) == a
  {
    if a > 0 { OrSym0(a / 2); }
  }

  /** Encoding an entry and decoding it gives the address and the flags back. */
  lemma PteRoundTrip(frame: nat, flags: nat)
    requires frame * PAGE < WORD && flags < 1024
    ensures var pte := Pa2Pte(frame * PAGE) + flags;
            Pte2Pa(pte) == frame * PAGE && Target(pte) == frame && PteFlags(pte) == flags
  {
    assert Pa2Pte(frame * PAGE) == frame * 1024;
    assert (frame * 1024 + flags) / 1024 == frame;
  }

  lemma LeafPteRoundTrip(frame: nat, perm: nat)
    requires frame * PAGE < WORD && perm < 1024
    ensures var pte := LeafPte(frame * PAGE, perm);
            Valid(pte) && Target(pte) == frame && Pte2Pa(pte) == frame * PAGE && PteFlags(pte) == LeafFlags(perm)
  {
    hide Or, LeafFlags, Target, Pte2Pa;
    LeafPteSplit(frame * PAGE, perm);
    PteRoundTrip(frame, LeafFlags(perm));
    var pte := LeafPte(frame * PAGE, perm);
    OrBits(Or(Or(Or(Pa2Pte(frame * PAGE), perm), PTE_V), PTE_A), PTE_D, 0);
    OrBits(Or(Or(Pa2Pte(frame * PAGE), perm), PTE_V), PTE_A, 0);
    OrBits(Or(Pa2Pte(frame * PAGE), perm), PTE_V, 0);
    assert Bit(pte, 0) == 1;
  }

  lemma TablePteIs(frame: nat)
    ensures TablePte(frame) == Pa2Pte(frame * PAGE) + PTE_V && Valid(TablePte(frame))
  {
    hide Or, Pa2Pte;
    PaOfFrame(frame);
    OrFlags(frame, 0, PTE_V);
    OrSym0(PTE_V);
    assert frame * 1024 + 0 == Pa2Pte(frame * PAGE);
    OddIsValid(frame * 512, TablePte(frame));
  }

  lemma OddIsValid(half: nat, pte: nat)
    requires pte == 2 * half + 1
    ensures Valid(pte)
  {
  }

  lemma PaOfFrame(frame: nat)
    ensures Pa2Pte(frame * PAGE) == frame * 1024
  {
  }

  lemma TablePteRoundTrip(frame: nat)
    requires frame * PAGE < WORD
    ensures Valid(TablePte(frame)) && Target(TablePte(frame)) == frame && PteFlags(TablePte(frame)) == PTE_V
    ensures frame * PAGE < PHYS ==> TablePte(frame) < RESERVED
  {
    TablePteIs(frame);
    hide TablePte;
    PteRoundTrip(frame, PTE_V);
  }

  /** Copying an entry's flags through map_page() only ever adds V, A and D. */
  lemma LeafFlagsIdempotent(flags: nat)
    requires flags < 1024 && Bit(flags, 0) == 1 && Bit(flags, 6) == 1 && Bit(flags, 7) == 1
    ensures LeafFlags(flags) == flags
  {
    OrSet(flags, 0);
    OrSet(flags, 6);
    OrSet(flags, 7);
    assert Pow2(0) == PTE_V && Pow2(6) == PTE_A && Pow2(7) == PTE_D;
  }

  lemma {:induction false} OrSet(a: nat, k: nat)
    requires Bit(a, k) == 1
    ensures Or(a, Pow2(k)) == a
    decreases k
  {
    OrUnroll(a, Pow2(k));
    if k == 0 {
      OrZero(a / 2);
    } else {
      OrSet(a / 2, k - 1);
      assert Pow2(k) / 2 == Pow2(k - 1);
    }
  }

  lemma LeafFlagBits(perm: nat)
    ensures forall k: nat :: k in {0, 6, 7} ==> Bit(LeafFlags(perm), k) == 1
    ensures forall k: nat :: Bit(perm, k) == 1 ==> Bit(LeafFlags(perm), k) == 1
  {
    assert Bit(1, 0) == 1 && Bit(64, 6) == 1 && Bit(128, 7) == 1;
    forall k: nat ensures Bit(LeafFlags(perm), k) ==
      if Bit(perm, k) == 1 || Bit(PTE_V, k) == 1 || Bit(PTE_A, k) == 1 || Bit(PTE_D, k) == 1 then 1 else 0
    {
      OrBits(perm, PTE_V, k);
      OrBits(Or(perm, PTE_V), PTE_A, k);
      OrBits(Or(Or(perm, PTE_V), PTE_A), PTE_D, k);
    }
  }

  lemma {:induction false} FlagBits(pte: nat, k: nat)
    requires k < 10
    ensures Bit(PteFlags(pte), k) == Bit(pte, k)
  {
    var q := pte / 1024;
    assert Pow2(10) == 1024 && pte == q * 1024 + pte % 1024;
    AlignedIsMultiple(q * 1024, 10);
    AddAlignedLow(pte % 1024, q * 1024, 10, k);
  }

  /** What a user program may do with a page: the R, W, X and U bits of its entry. */
  predicate Rights(e: nat, r: nat, w: nat, x: nat, u: nat) {
    Valid(e) && Bit(e, 1) == r && Bit(e, 2) == w && Bit(e, 3) == x && Bit(e, 4) == u
  }

  /** map_page() gives a page exactly the rights asked for. */
  lemma RightsAsked(e: nat, perm: nat)
    requires PteFlags(e) == LeafFlags(perm)
    ensures Rights(e, Bit(perm, 1), Bit(perm, 2), Bit(perm, 3), Bit(perm, 4))
  {
    LeafFlagBits(perm);
    FlagBits(e, 0);
    FlagBits(e, 1);
    FlagBits(e, 2);
    FlagBits(e, 3);
    FlagBits(e, 4);
    assert Bit(e, 0) == 1;
    hide LeafFlags, PteFlags;
    LeafBitExact(perm, 1);
    LeafBitExact(perm, 2);
    LeafBitExact(perm, 3);
    LeafBitExact(perm, 4);
  }

  /** Between V and A the flags are the bits asked for. */
  lemma LeafBitExact(perm: nat, k: nat)
    requires 1 <= k <= 4
    ensures Bit(LeafFlags(perm), k) == Bit(perm, k)
  {
    OrBits(perm, PTE_V, k);
    OrBits(Or(perm, PTE_V), PTE_A, k);
    OrBits(Or(Or(perm, PTE_V), PTE_A), PTE_D, k);
    hide Or;
    assert k == 1 || k == 2 || k == 3 || k == 4;
  }

  // ----- virtual addresses

  /** vpn_level */
  function VpnLevel(va: nat, level: nat): nat {
    (va / Pow2(12 + 9 * level)) % PTES
  }

  /** The virtual page number: the 27 bits above the page offset. */
  function Vpn(va: nat): nat {
    (va / PAGE) % VPNS
  }

  function Index(p: nat, level: nat): (i: nat)
    requires level <= 2
    ensures i < PTES
  {
    if level == 0 then p % 512 else if level == 1 then p / 512 % 512 else p / 262144 % 512
  }

  /** The three indices are the three nine-bit digits of the virtual page number ... */
  lemma VpnDigits(va: nat)
    ensures VpnLevel(va, 0) == Index(Vpn(va), 0)
    ensures VpnLevel(va, 1) == Index(Vpn(va), 1)
    ensures VpnLevel(va, 2) == Index(Vpn(va), 2)
  {
    hide VpnLevel, Index, Vpn;
    LowDigit(va);
    MiddleDigit(va);
    TopDigit(va);
  }

  lemma DigitShifts()
    ensures Pow2(12) == 4096 && Pow2(21) == 2097152 && Pow2(30) == 1073741824
  {
    assert Pow2(12) == 4096;
    assert Pow2(21) == 2097152;
  }

  lemma LowDigit(va: nat)
    ensures VpnLevel(va, 0) == Index(Vpn(va), 0)
  {
    DigitShifts();
    hide Pow2;
    CutDigit(va / PAGE, 1);
  }

  lemma MiddleDigit(va: nat)
    ensures VpnLevel(va, 1) == Index(Vpn(va), 1)
  {
    DigitShifts();
    hide Pow2;
    DivTwice(va, 512);
    CutDigit(va / PAGE, 512);
  }

  lemma TopDigit(va: nat)
    ensures VpnLevel(va, 2) == Index(Vpn(va), 2)
  {
    DigitShifts();
    hide Pow2;
    DivTwice(va, 262144);
    CutDigit(va / PAGE, 262144);
  }

  /** Dividing by the page size and then by d. */
  lemma DivTwice(x: nat, d: nat)
    requires d == 512 || d == 262144
    ensures x / PAGE / d == x / (PAGE * d)
  {
  }

  /** Cutting a page number to 27 bits keeps its nine-bit digits. */
  lemma CutDigit(q: nat, d: nat)
    requires d == 1 || d == 512 || d == 262144
    ensures q % VPNS / d % 512 == q / d % 512
  {
    var h, p := q / VPNS, q % VPNS;
    assert q == VPNS * h + p;
    if d == 1 {
      LastDigit(262144 * h, p);
    } else if d == 512 {
      assert q == 512 * (262144 * h + p / 512) + p % 512;
      LastDigit(512 * h, p / 512);
    } else {
      assert q == 262144 * (512 * h + p / 262144) + p % 262144;
      LastDigit(h, p / 262144);
    }
  }

  lemma LastDigit(k: nat, y: nat)
    ensures (512 * k + y) % 512 == y % 512
  {
  }

  /** ... and together they give it back, so distinct pages take distinct paths. */
  lemma IndexInjective(p: nat)
    requires p < VPNS
    ensures p == Index(p, 2) * 262144 + Index(p, 1) * 512 + Index(p, 0)
  {
  }
}
