/** Where an allocation of pages is placed. */
module HeapPages {
  import opened MachineWord
  import opened Bits
  import opened MemoryPages

  // ----- rounding down with a mask

  predicate LowZero(x: nat, k: nat) {
    k == 0 || (x % 2 == 0 && LowZero(x / 2, k - 1))
  }

  ghost predicate IsMultiple(x: nat, n: nat) {
    exists q: nat :: x == q * n
  }

  lemma {:induction false} LowZeroMultiple(x: nat, k: nat) returns (q: nat)
    requires LowZero(x, k)
    ensures x == q * Pow2(k)
  {
    if k == 0 {
      q := x;
    } else {
      q := LowZeroMultiple(x / 2, k - 1);
      assert q * (2 * Pow2(k - 1)) == 2 * (q * Pow2(k - 1));
    }
  }

  lemma {:induction false} AndOnes(x: nat, w: nat)
    requires x < Pow2(w)
    ensures And(x, Not(0, w)) == x
  {
    if x > 0 && w > 0 {
      AndOnes(x / 2, w - 1);
    }
  }

  /** Clearing the k lowest bits rounds down to a multiple. */
  lemma {:induction false} MaskRounds(x: nat, k: nat, w: nat)
    requires k <= w && x < Pow2(w)
    ensures var r := And(x, Not(Pow2(k) - 1, w)); r <= x < r + Pow2(k) && LowZero(r, k)
  {
    hide And, Not;
    if k == 0 {
      AndOnes(x, w);
    } else {
      MaskRounds(x / 2, k - 1, w - 1);
      NotOnes(k, w);
      AndEven(x, Not(Pow2(k - 1) - 1, w - 1));
    }
  }

  lemma NotOnes(k: nat, w: nat)
    requires 0 < k <= w
    ensures Not(Pow2(k) - 1, w) == 2 * Not(Pow2(k - 1) - 1, w - 1)
  {
    assert (Pow2(k) - 1) / 2 == Pow2(k - 1) - 1 && (Pow2(k) - 1) % 2 == 1;
  }

  lemma AndEven(x: nat, t: nat)
    ensures And(x, 2 * t) == 2 * And(x / 2, t)
  {
    assert (2 * t) / 2 == t && (2 * t) % 2 == 0;
  }

  lemma {:induction false} PowerSplit(j: nat)
    requires j >= 12
    ensures Pow2(j) == PAGE * Pow2(j - 12)
  {
    if j == 12 {
      assert Pow2(8) == 256;
    } else {
      PowerSplit(j - 1);
    }
  }

  // ----- allocation of pages

  /** Pages needed for `size` bytes, in 64-bit arithmetic. */
  function NumPages(size: nat): nat {
    (size + PAGE - 1) % WORD / PAGE
  }

  /** The first page of an allocation that ends at page `end` at the latest. */
  function AllocPage(end: nat, size: nat, alignment: nat): nat
    requires alignment > 0
  {
    And((end - NumPages(size)) % WORD, Not((alignment - 1) / PAGE, 64))
  }

  /** The number of page-address bits an alignment of 2^j bytes clears. */
  function PageBits(j: nat): nat {
    if j < 12 then 0 else j - 12
  }

  lemma AlignmentMask(j: nat)
    requires j < 64
    ensures (Pow2(j) - 1) / PAGE == Pow2(PageBits(j)) - 1
  {
    hide Pow2;
    if j < 12 {
      PowerGrows(j, 12);
      SmallPowers();
    } else {
      PowerSplit(j);
    }
  }

  lemma SmallPowers()
    ensures Pow2(0) == 1 && Pow2(12) == PAGE
  {
    assert Pow2(8) == 256;
  }

  /** A request that fits below the end page gives the highest aligned place for it. */
  lemma AllocPlaces(end: nat, size: nat, j: nat)
    requires end < WORD / PAGE && j < 64 && size <= PAGE * end
    ensures var r := AllocPage(end, size, Pow2(j));
      && r + NumPages(size) <= end && end < r + NumPages(size) + Pow2(PageBits(j))
      && size <= PAGE * NumPages(size) < size + PAGE
      && LowZero(r, PageBits(j))
  {
    hide Pow2, And, Not, LowZero;
    AlignmentMask(j);
    WordIsPower();
    MaskRounds(end - NumPages(size), PageBits(j), 64);
  }

  lemma {:induction false} PageAligned(r: nat, j: nat)
    requires LowZero(r, PageBits(j))
    ensures LowZero(PAGE * r, j)
  {
    ShiftedZeros(r, PageBits(j), 12);
    FewerZeroBits(Pow2(12) * r, PageBits(j) + 12, j);
    SmallPowers();
  }

  lemma {:induction false} ShiftedZeros(r: nat, k: nat, n: nat)
    requires LowZero(r, k)
    ensures LowZero(Pow2(n) * r, k + n)
  {
    hide Pow2;
    PowerStep(n);
    if n > 0 {
      ShiftedZeros(r, k, n - 1);
      DoubledFactor(Pow2(n - 1), r);
    }
  }

  lemma PowerStep(n: nat)
    ensures Pow2(n) == if n == 0 then 1 else 2 * Pow2(n - 1)
  {
  }

  lemma DoubledFactor(a: nat, r: nat)
    ensures (2 * a) * r == 2 * (a * r)
  {
  }

  lemma {:induction false} FewerZeroBits(x: nat, k: nat, j: nat)
    requires LowZero(x, k) && j <= k
    ensures LowZero(x, j)
  {
    if j > 0 {
      FewerZeroBits(x / 2, k - 1, j - 1);
    }
  }

  /** The allocated byte address is a multiple of the alignment. */
  lemma AllocAligned(end: nat, size: nat, j: nat)
    requires end < WORD / PAGE && j < 64 && size <= PAGE * end
    ensures IsMultiple(PAGE * AllocPage(end, size, Pow2(j)), Pow2(j))
  {
    hide AllocPage, Pow2;
    AllocPlaces(end, size, j);
    var r := AllocPage(end, size, Pow2(j));
    PageAligned(r, j);
    var q := LowZeroMultiple(PAGE * r, j);
  }

  /** A request for more than lies below the end wraps around to a page past all others. */
  lemma AllocWraps(end: nat, size: nat, j: nat)
    requires end < WORD / PAGE && j < 64 && PAGE * end < size <= WORD - PAGE
    ensures AllocPage(end, size, Pow2(j)) >= WORD / PAGE
  {
    hide Pow2, And, Not, LowZero;
    AlignmentMask(j);
    WordIsPower();
    var x := (end - NumPages(size)) % WORD;
    assert x == end - NumPages(size) + WORD;
    MaskRounds(x, PageBits(j), 64);
    if PageBits(j) < 52 {
      PowerGrows(PageBits(j), 52);
    }
    TopPower();
  }

  /** The allocation is in bounds iff the request fits. */
  lemma AllocInBoundsIff(end: nat, size: nat, j: nat)
    requires end < WORD / PAGE && j < 64 && size <= WORD - PAGE
    ensures AllocPage(end, size, Pow2(j)) + NumPages(size) <= end <==> size <= PAGE * end
  {
    hide Pow2, AllocPage;
    if size <= PAGE * end {
      AllocPlaces(end, size, j);
    } else {
      AllocWraps(end, size, j);
    }
  }

  lemma TopPower()
    ensures Pow2(52) == WORD / PAGE
  {
    hide Pow2;
    WordIsPower();
    PowerSplit(64);
  }
}
