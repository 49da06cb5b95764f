/**
  Arithmetic on powers of two. The kernel finds the buddy of a block with one
  exclusive-or (kernel/mm/mem.c:44-52); the proofs need it as "plus or minus
  one power of two", so this module defines the exclusive-or bit by bit and
  connects the two.
 */
module Bits {

  function Pow2(k: nat): (r: nat)
    ensures r >= 1
  {
    if k == 0 then 1 else 2 * Pow2(k - 1)
  }

  /** Bit k of x. */
  function Bit(x: nat, k: nat): (b: nat)
    ensures b <= 1
  {
    if k == 0 then x % 2 else Bit(x / 2, k - 1)
  }

  /** The low k bits of x are zero; AlignedIsMultiple says it as a remainder. */
  predicate Aligned(x: nat, k: nat) {
    k == 0 || (x % 2 == 0 && Aligned(x / 2, k - 1))
  }

  /** Exclusive-or, digit by digit. */
  function Xor(a: nat, b: nat): nat
    decreases a + b
  {
    if a == 0 && b == 0 then 0
    else 2 * Xor(a / 2, b / 2) + (if a % 2 == b % 2 then 0 else 1)
  }

  /** The buddy of a page index: the index with bit k flipped. BuddyIsXor ties it to the source. */
  function BuddyOf(x: nat, k: nat): nat {
    if Bit(x, k) == 0 then x + Pow2(k) else SetBitAtLeast(x, k); x - Pow2(k)
  }

  lemma {:induction false} SetBitAtLeast(x: nat, k: nat)
    requires Bit(x, k) == 1
    ensures x >= Pow2(k)
  {
    if k > 0 { SetBitAtLeast(x / 2, k - 1); }
  }

  // ----- halving: every fact below goes by induction on the bit number

  lemma HalveDiv(x: nat, p: nat)
    requires p > 0
    ensures x / (2 * p) == (x / 2) / p
    ensures x % (2 * p) == 2 * ((x / 2) % p) + x % 2
  {
    var q, r := (x / 2) / p, (x / 2) % p;
    assert x == 2 * (p * q + r) + x % 2;
    assert 2 * (p * q) == (2 * p) * q;
    assert x == (2 * p) * q + (2 * r + x % 2);
    DivModUnique(x, 2 * p, q, 2 * r + x % 2);
  }

  lemma MulAtLeast(d: nat, t: int)
    requires d > 0 && t >= 1
    ensures d * t >= d
  {
  }

  /** Quotient and remainder are unique. */
  lemma DivModUnique(x: nat, d: nat, q: nat, r: nat)
    requires d > 0 && r < d && x == d * q + r
    ensures x / d == q && x % d == r
  {
    var q', r' := x / d, x % d;
    DivModDifference(d, q, r, q', r');
  }

  lemma DivModDifference(d: nat, q: int, r: nat, q': int, r': nat)
    requires d > 0 && r < d && r' < d && d * q + r == d * q' + r'
    ensures q == q' && r == r'
  {
    assert d * (q - q') == d * q - d * q' == r' - r;
    if q > q' {
      MulAtLeast(d, q - q');
    } else if q < q' {
      assert d * (q' - q) == d * q' - d * q;
      MulAtLeast(d, q' - q);
    }
  }

  lemma {:induction false} AlignedIsMultiple(x: nat, k: nat)
    ensures Aligned(x, k) <==> x % Pow2(k) == 0
  {
    if k > 0 {
      AlignedIsMultiple(x / 2, k - 1);
      HalveDiv(x, Pow2(k - 1));
    }
  }

  lemma {:induction false} BitIsQuotient(x: nat, k: nat)
    ensures Bit(x, k) == (x / Pow2(k)) % 2
  {
    if k > 0 {
      BitIsQuotient(x / 2, k - 1);
      HalveDiv(x, Pow2(k - 1));
    }
  }

  lemma Pow2Monotonic(j: nat, k: nat)
    requires j <= k
    ensures Pow2(j) <= Pow2(k)
    ensures j < k ==> 2 * Pow2(j) <= Pow2(k)
  {
    if j < k { Pow2Monotonic(j, k - 1); }
  }

  // ----- the exclusive-or with one bit

  lemma XorZero(x: nat)
    ensures Xor(x, 0) == x
  {
    if x > 0 { XorZero(x / 2); }
  }

  /** Exclusive-or with 2^k adds or subtracts exactly 2^k. */
  lemma {:induction false} BuddyIsXor(x: nat, k: nat)
    ensures BuddyOf(x, k) == Xor(x, Pow2(k))
  {
    if k == 0 {
      XorZero(x / 2);
      assert Xor(x, 1) == 2 * Xor(x / 2, 0) + (if x % 2 == 1 then 0 else 1);
    } else {
      BuddyIsXor(x / 2, k - 1);
      assert Pow2(k) / 2 == Pow2(k - 1) && Pow2(k) % 2 == 0;
    }
  }

  /** Exclusive-or with a multiple of 2^k acts on the high part and keeps the low k bits. */
  lemma {:induction false} XorScale(a: nat, b: nat, k: nat, r: nat)
    requires r < Pow2(k)
    ensures Xor(Pow2(k) * a + r, Pow2(k) * b) == Pow2(k) * Xor(a, b) + r
  {
    if k > 0 {
      var p := Pow2(k - 1);
      XorScale(a, b, k - 1, r / 2);
      XorScaleStep(a, b, p, r);
    }
  }

  lemma XorScaleStep(a: nat, b: nat, p: nat, r: nat)
    requires Xor(p * a + r / 2, p * b) == p * Xor(a, b) + r / 2
    ensures Xor((2 * p) * a + r, (2 * p) * b) == (2 * p) * Xor(a, b) + r
  {
    hide Xor;
    Doubled(p, a);
    Doubled(p, b);
    Doubled(p, Xor(a, b));
    XorHalves(p * a + r / 2, p * b, r % 2);
    assert 2 * (p * a) + r == 2 * (p * a + r / 2) + r % 2;
  }

  lemma Doubled(p: nat, a: nat)
    ensures (2 * p) * a == 2 * (p * a)
  {
  }

  lemma XorHalves(a: nat, b: nat, r: nat)
    requires r < 2
    ensures Xor(2 * a + r, 2 * b) == 2 * Xor(a, b) + r
  {
    if a + b + r > 0 {
      assert (2 * a + r) / 2 == a && (2 * b) / 2 == b && (2 * a + r) % 2 == r;
    }
  }

  // ----- bits of sums

  /** Adding an offset aligned to 2^k adds the two bits k ... */
  lemma {:induction false} AddAligned(x: nat, d: nat, k: nat)
    requires Aligned(d, k)
    ensures Bit(x + d, k) == (Bit(x, k) + Bit(d, k)) % 2
  {
    if k > 0 {
      AddAligned(x / 2, d / 2, k - 1);
      assert (x + d) / 2 == x / 2 + d / 2;
    }
  }

  /** ... and keeps the lower bits and alignments. */
  lemma {:induction false} AddAlignedLow(x: nat, d: nat, k: nat, j: nat)
    requires Aligned(d, k) && j <= k
    ensures j < k ==> Bit(x + d, j) == Bit(x, j)
    ensures Aligned(x + d, j) <==> Aligned(x, j)
  {
    if j > 0 {
      AddAlignedLow(x / 2, d / 2, k - 1, j - 1);
      assert (x + d) / 2 == x / 2 + d / 2;
    }
  }

  lemma {:induction false} Pow2Bits(k: nat)
    ensures Aligned(Pow2(k), k) && Bit(Pow2(k), k) == 1
  {
    if k > 0 {
      Pow2Bits(k - 1);
      assert Pow2(k) / 2 == Pow2(k - 1);
    }
  }

  /** Adding 2^k flips bit k ... */
  lemma AddPow2(x: nat, k: nat)
    ensures Bit(x + Pow2(k), k) == 1 - Bit(x, k)
  {
    Pow2Bits(k);
    AddAligned(x, Pow2(k), k);
  }

  /** ... and keeps every lower bit and alignment. */
  lemma AddPow2Low(x: nat, k: nat, j: nat)
    requires j <= k
    ensures j < k ==> Bit(x + Pow2(k), j) == Bit(x, j)
    ensures Aligned(x + Pow2(k), j) <==> Aligned(x, j)
  {
    Pow2Bits(k);
    AddAlignedLow(x, Pow2(k), k, j);
  }

  /** Aligned to 2^(k+1) means aligned to 2^k with bit k clear. */
  lemma {:induction false} AlignedSucc(x: nat, k: nat)
    ensures Aligned(x, k + 1) <==> Aligned(x, k) && Bit(x, k) == 0
  {
    if k > 0 {
      AlignedSucc(x / 2, k - 1);
    }
  }

  /** Alignment passes to every smaller power, and clears the bits below. */
  lemma {:induction false} AlignedDown(x: nat, j: nat, k: nat)
    requires Aligned(x, k) && j <= k
    ensures Aligned(x, j)
    ensures j < k ==> Bit(x, j) == 0
    decreases k
  {
    if j < k {
      AlignedSucc(x, k - 1);
      AlignedDown(x, j, k - 1);
    }
  }

  lemma {:induction false} AlignedAtLeast(d: nat, j: nat)
    requires Aligned(d, j) && d > 0
    ensures Pow2(j) <= d
  {
    if j > 0 { AlignedAtLeast(d / 2, j - 1); }
  }

  /** A positive offset inside a block of size 2^m that is aligned to 2^j has j < m. */
  lemma {:induction false} AlignedOffset(d: nat, j: nat, m: nat)
    requires 0 < d < Pow2(m) && Aligned(d, j)
    ensures j < m && Pow2(j) <= d
  {
    AlignedAtLeast(d, j);
    if m <= j { Pow2Monotonic(m, j); }
  }

  lemma FlipHalves(x: nat, k: nat)
    ensures k > 0 ==> BuddyOf(x, k) == 2 * BuddyOf(x / 2, k - 1) + x % 2
    ensures k == 0 ==> BuddyOf(x, k) == if x % 2 == 0 then x + 1 else x - 1
  {
  }

  /** Below a bound aligned to 2^m, flipping a bit lower than m stays below the bound. */
  lemma {:induction false} FlipStaysBelow(x: nat, k: nat, n: nat, m: nat)
    requires x < n && Aligned(n, m) && k < m
    ensures BuddyOf(x, k) < n
  {
    FlipHalves(x, k);
    if k > 0 {
      hide BuddyOf;
      FlipStaysBelow(x / 2, k - 1, n / 2, m - 1);
    }
  }

  /** Flipping a bit twice gives the index back; a block and its buddy differ. */
  lemma BuddyInvolution(x: nat, k: nat)
    ensures BuddyOf(BuddyOf(x, k), k) == x
    ensures BuddyOf(x, k) != x
    ensures Bit(BuddyOf(x, k), k) == 1 - Bit(x, k)
  {
    var y := BuddyOf(x, k);
    if Bit(x, k) == 0 { AddPow2(x, k); } else { AddPow2(y, k); }
  }

  /**
    In the halving tree of a block at h with bit k of h clear, an offset d
    aligned to 2^k names a node whose exclusive-or buddy is its sibling, so the
    buddy stays inside the block.
   */
  lemma {:induction false} SiblingInside(h: nat, d: nat, k: nat, m: nat)
    requires 0 < d < Pow2(m) && Aligned(d, k) && Bit(h, k) == 0
    ensures h <= BuddyOf(h + d, k) < h + Pow2(m)
  {
    AlignedOffset(d, k, m);
    AddAligned(h, d, k);
    Pow2Bits(m);
    FlipStaysBelow(d, k, Pow2(m), m);
  }

  // ----- bitwise or

  /** Bitwise or, digit by digit. */
  function Or(a: nat, b: nat): nat
    decreases a + b
  {
    if a == 0 && b == 0 then 0
    else 2 * Or(a / 2, b / 2) + (if a % 2 == 1 || b % 2 == 1 then 1 else 0)
  }

  /** a shifted left by k bits */
  function Shift(a: nat, k: nat): nat {
    if k == 0 then a else 2 * Shift(a, k - 1)
  }

  /** Or-ing low bits into a word leaves the part above them alone. */
  lemma {:induction false} OrLow(a: nat, k: nat, r: nat, s: nat)
    requires r < Pow2(k) && s < Pow2(k)
    ensures Or(Shift(a, k) + r, s) == Shift(a, k) + Or(r, s)
    ensures Or(r, s) < Pow2(k)
  {
    if k == 0 {
      OrZero(a);
    } else {
      assert Pow2(k) == 2 * Pow2(k - 1);
      hide Or, Pow2;
      OrLow(a, k - 1, r / 2, s / 2);
      OrDigit(Shift(a, k - 1), r, s);
      OrUnroll(r, s);
    }
  }

  /** The step on the last digit, for a high part w. */
  lemma OrDigit(w: nat, r: nat, s: nat)
    requires Or(w + r / 2, s / 2) == w + Or(r / 2, s / 2)
    ensures Or(2 * w + r, s) == 2 * w + Or(r, s)
  {
    hide Or;
    OrUnroll(2 * w + r, s);
    OrUnroll(r, s);
  }

  lemma OrUnroll(a: nat, b: nat)
    ensures Or(a, b) == 2 * Or(a / 2, b / 2) + (if a % 2 == 1 || b % 2 == 1 then 1 else 0)
  {
  }

  lemma {:induction false} OrZero(a: nat)
    ensures Or(a, 0) == a
  {
    if a > 0 { OrZero(a / 2); }
  }

  /** Each bit of the or is the or of the bits. */
  lemma {:induction false} OrBits(a: nat, b: nat, k: nat)
    ensures Bit(Or(a, b), k) == (if Bit(a, k) == 1 || Bit(b, k) == 1 then 1 else 0)
  {
    OrUnroll(a, b);
    if k > 0 { OrBits(a / 2, b / 2, k - 1); }
  }
}
