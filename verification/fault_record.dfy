/** The bounded record of faulty addresses. */
module FaultRecord {
  import opened MachineWord
  import opened Bits

  const MAX_PATTERNS: nat := 20

  /** Patterns of address and mask, or ranges of a lower and an upper address (kept in the
      field `mask`). */
  datatype Mode = BadRam | Ranges

  datatype Pattern = Pattern(addr: nat, mask: nat)

  /** The mode, and the size of a test word: 8 or 4 bytes. */
  datatype Config = Config(mode: Mode, ws: nat)

  ghost predicate ValidConfig(c: Config) {
    c.ws == 8 || c.ws == 4
  }

  /** What a pattern stands for: an address that equals `addr` on all one bits of `mask`, or
      one that lies in the range. */
  ghost predicate Matches(mode: Mode, p: Pattern, x: nat) {
    if mode == BadRam then MatchBits(p.addr, p.mask, x, 64) else p.addr <= x <= p.mask
  }

  ghost predicate Fits(p: Pattern) {
    p.addr < WORD && p.mask < WORD
  }

  // ----- combining patterns

  function Combine(mode: Mode, p: Pattern, q: Pattern): Pattern {
    if mode == BadRam then
      var mask := And(And(p.mask, q.mask), Not(Xor(p.addr, q.addr), 64));
      Pattern(And(Or(p.addr, q.addr), mask), mask)
    else
      Pattern(if p.addr < q.addr then p.addr else q.addr, if p.mask > q.mask then p.mask else q.mask)
  }

  lemma CombinedBits(p: Pattern, q: Pattern, i: nat)
    requires i < 64
    ensures var r := Combine(BadRam, p, q);
      && (Bit(r.mask, i) <==> Bit(p.mask, i) && Bit(q.mask, i) && Bit(p.addr, i) == Bit(q.addr, i))
      && (Bit(r.mask, i) ==> Bit(r.addr, i) == Bit(p.addr, i))
  {
    hide Bit, And, Or, Xor, Not;
    AndBit(And(p.mask, q.mask), Not(Xor(p.addr, q.addr), 64), i);
    AndBit(p.mask, q.mask, i);
    NotBit(Xor(p.addr, q.addr), 64, i);
    XorBit(p.addr, q.addr, i);
    OrBit(p.addr, q.addr, i);
    AndBit(Or(p.addr, q.addr), Combine(BadRam, p, q).mask, i);
  }

  /** The combination matches whatever either pattern matches. */
  lemma CombineUpper(mode: Mode, p: Pattern, q: Pattern, x: nat)
    requires Matches(mode, p, x) || Matches(mode, q, x)
    ensures Matches(mode, Combine(mode, p, q), x)
  {
    if mode == BadRam {
      hide Bit, Combine;
      var r := Combine(mode, p, q);
      forall i: nat | i < 64 && Bit(r.mask, i)
        ensures Bit(x, i) == Bit(r.addr, i)
      {
        CombinedBits(p, q, i);
      }
    }
  }

  /** p with bit i of the address flipped when it is a bit the mask ignores. */
  lemma FlippedMatch(p: Pattern, i: nat) returns (x: nat)
    requires i < 64 && !Bit(p.mask, i)
    ensures Matches(BadRam, p, x) && Bit(x, i) != Bit(p.addr, i)
  {
    hide Bit, Xor, Pow2;
    x := Xor(p.addr, Pow2(i));
    forall k: nat | k < 64
      ensures Bit(x, k) == (Bit(p.addr, k) != (k == i))
    {
      XorBit(p.addr, Pow2(i), k);
      PowerBit(i, k);
    }
  }

  lemma {:induction false} PowerBit(i: nat, k: nat)
    ensures Bit(Pow2(i), k) <==> i == k
  {
    if i == 0 {
      if k > 0 {
        ZeroBit(k - 1);
      }
    } else if k > 0 {
      PowerBit(i - 1, k - 1);
    }
  }

  /** The mask of r has ones only where the mask of p has, and there the addresses
      agree. */
  ghost predicate AgreesOn(p: Pattern, r: Pattern) {
    forall i: nat :: i < 64 && Bit(r.mask, i) ==> Bit(p.mask, i) && Bit(p.addr, i) == Bit(r.addr, i)
  }

  /** r matches everything p matches. */
  ghost predicate CoveredBy(mode: Mode, p: Pattern, r: Pattern) {
    forall x: nat :: Matches(mode, p, x) ==> Matches(mode, r, x)
  }

  lemma CoveredAgrees(p: Pattern, r: Pattern)
    requires CoveredBy(BadRam, p, r)
    ensures AgreesOn(p, r)
  {
    hide Bit;
    forall i: nat | i < 64 && Bit(r.mask, i)
      ensures Bit(p.mask, i) && Bit(p.addr, i) == Bit(r.addr, i)
    {
      assert Matches(BadRam, p, p.addr);
      if !Bit(p.mask, i) {
        var x := FlippedMatch(p, i);
      }
    }
  }

  lemma AgreesCovers(p: Pattern, r: Pattern)
    requires AgreesOn(p, r)
    ensures CoveredBy(BadRam, p, r)
  {
    hide Bit;
    forall x: nat | Matches(BadRam, p, x)
      ensures Matches(BadRam, r, x)
    {
    }
  }

  /** In the pattern mode the combination is the least pattern that matches what both
      match. */
  lemma CombineLeast(p: Pattern, q: Pattern, r: Pattern, x: nat)
    requires CoveredBy(BadRam, p, r) && CoveredBy(BadRam, q, r)
    requires Matches(BadRam, Combine(BadRam, p, q), x)
    ensures Matches(BadRam, r, x)
  {
    hide Bit, Combine, CoveredBy;
    CoveredAgrees(p, r);
    CoveredAgrees(q, r);
    forall i: nat | i < 64 && Bit(r.mask, i)
      ensures Bit(x, i) == Bit(r.addr, i)
    {
      CombinedBits(p, q, i);
    }
  }

  lemma CombineFits(mode: Mode, p: Pattern, q: Pattern)
    requires Fits(p) && Fits(q)
    ensures Fits(Combine(mode, p, q))
  {
    hide And, Or, Xor, Not;
  }

  // ----- counting addresses

  /** Doubles a 64-bit counter for each of the lowest n bits that is zero. */
  function Doubled(ctr: nat, mask: nat, n: nat): nat
    decreases n
  {
    if n == 0 then ctr else Doubled(if mask % 2 == 0 then (ctr + ctr) % WORD else ctr, mask / 2, n - 1)
  }

  /** How many addresses a mask covers, in 64 bits. */
  function Addresses(mask: nat): nat {
    Doubled(1, mask, 64)
  }

  method CountAddresses(mask: nat) returns (ctr: nat)
    ensures ctr == Addresses(mask)
  {
    ctr := 1;
    var m, i := mask, 64;
    while i > 0
      invariant 0 <= i <= 64 && Doubled(ctr, m, i) == Addresses(mask)
    {
      if m % 2 == 0 {
        ctr := (ctr + ctr) % WORD;
      }
      m, i := m / 2, i - 1;
    }
  }

  /** n doublings. */
  function Doublings(ctr: nat, n: nat): nat
    decreases n
  {
    if n == 0 then ctr else Doublings(ctr + ctr, n - 1)
  }

  lemma DoubleModulo(ctr: nat)
    ensures (ctr % WORD + ctr % WORD) % WORD == (ctr + ctr) % WORD
  {
    var (q, r) := (ctr / WORD, ctr % WORD);
    assert ctr + ctr == 2 * q * WORD + (r + r);
    assert (ctr + ctr) / WORD == 2 * q + (if r + r < WORD then 0 else 1);
  }

  lemma {:induction false} DoubledIsPower(ctr: nat, mask: nat, n: nat)
    ensures Doubled(ctr % WORD, mask, n) == Doublings(ctr, Zeros(mask, n)) % WORD
    decreases n
  {
    if n > 0 {
      if mask % 2 == 0 {
        DoubledIsPower(ctr + ctr, mask / 2, n - 1);
        DoubleModulo(ctr);
      } else {
        DoubledIsPower(ctr, mask / 2, n - 1);
      }
    }
  }

  lemma {:induction false} DoublingsAdd(ctr: nat, n: nat)
    ensures Doublings(2 * ctr, n) == 2 * Doublings(ctr, n)
    decreases n
  {
    if n > 0 {
      DoublingsAdd(2 * ctr, n - 1);
    }
  }

  lemma {:induction false} DoublingsOfOne(n: nat)
    ensures Doublings(1, n) == Pow2(n)
  {
    if n > 0 {
      DoublingsOfOne(n - 1);
      DoublingsAdd(1, n - 1);
    }
  }

  /** The count is the number of 64-bit words the pattern matches, modulo 2^64. */
  lemma AddressesCount(p: Pattern)
    ensures Addresses(p.mask) == |MatchSet(p.addr, p.mask, 64)| % WORD
    ensures forall x: nat :: x in MatchSet(p.addr, p.mask, 64) <==> x < WORD && Matches(BadRam, p, x)
  {
    hide MatchBits, MatchSet, Pow2, Zeros, Doubled;
    DoubledIsPower(1, p.mask, 64);
    DoublingsOfOne(Zeros(p.mask, 64));
    MatchCount(p.addr, p.mask, 64);
    WordIsPower();
    forall x: nat
      ensures x in MatchSet(p.addr, p.mask, 64) <==> x < WORD && MatchBits(p.addr, p.mask, x, 64)
    {
      InMatchSet(p.addr, p.mask, 64, x);
    }
  }

  /** The counts of two masks, one with fewer ones, agree only when the masks do. */
  lemma SameCount(m: nat, n: nat)
    requires m < WORD && n < WORD && Fewer(m, n, 64)
    ensures Addresses(m) == Addresses(n) <==> m == n
  {
    hide Doubled, Zeros, Fewer, Pow2;
    DoubledIsPower(1, m, 64);
    DoubledIsPower(1, n, 64);
    DoublingsOfOne(Zeros(m, 64));
    DoublingsOfOne(Zeros(n, 64));
    WordIsPower();
    FewerZeros(m, n, 64);
    PowerModulo(Zeros(m, 64));
    PowerModulo(Zeros(n, 64));
    if Zeros(n, 64) < Zeros(m, 64) {
      PowerGrows(Zeros(n, 64), Zeros(m, 64));
    }
  }

  lemma PowerModulo(k: nat)
    requires k <= 64
    ensures Pow2(k) % WORD == if k == 64 then 0 else Pow2(k)
  {
    hide Pow2;
    WordIsPower();
    if k < 64 {
      PowerGrows(k, 64);
    }
  }

  // ----- the cost of combining

  /** How many more addresses p covers when combined with q, in 64 bits. */
  function Cost(mode: Mode, p: Pattern, q: Pattern): (n: nat)
    ensures n < WORD
  {
    var r := Combine(mode, p, q);
    if mode == BadRam then (Addresses(r.mask) - Addresses(p.mask)) % WORD
    else ((r.mask - r.addr) - (p.mask - p.addr)) % WORD
  }

  method CombiCost(mode: Mode, p: Pattern, q: Pattern) returns (n: nat)
    ensures n == Cost(mode, p, q)
  {
    hide Addresses, Combine;
    var r := Combine(mode, p, q);
    if mode == BadRam {
      var c := CountAddresses(r.mask);
      var d := CountAddresses(p.mask);
      n := (c - d) % WORD;
    } else {
      n := ((r.mask - r.addr) - (p.mask - p.addr)) % WORD;
    }
  }

  lemma NoCostIffSameMask(p: Pattern, q: Pattern)
    requires Fits(p) && Fits(q)
    ensures Cost(BadRam, p, q) == 0 <==> Combine(BadRam, p, q).mask == p.mask
  {
    hide Bit, Combine, Addresses;
    var r := Combine(BadRam, p, q);
    forall i: nat | i < 64
      ensures Bit(r.mask, i) ==> Bit(p.mask, i)
    {
      CombinedBits(p, q, i);
    }
    CombineFits(BadRam, p, q);
    SameCount(r.mask, p.mask);
    CountBound(r.mask);
    CountBound(p.mask);
  }

  lemma SameMaskIffAgrees(p: Pattern, q: Pattern)
    requires Fits(p) && Fits(q)
    ensures Combine(BadRam, p, q).mask == p.mask <==> AgreesOn(q, p)
  {
    hide Bit, Combine, Pow2;
    var r := Combine(BadRam, p, q);
    forall i: nat | i < 64
      ensures Bit(r.mask, i) <==> Bit(p.mask, i) && Bit(q.mask, i) && Bit(p.addr, i) == Bit(q.addr, i)
    {
      CombinedBits(p, q, i);
    }
    if AgreesOn(q, p) {
      CombineFits(BadRam, p, q);
      WordIsPower();
      SameBits(r.mask, p.mask, 64);
    }
  }

  /** In the pattern mode combining costs nothing iff the pattern matches all that the
      other one matches. */
  lemma NoCostIffCovered(p: Pattern, q: Pattern)
    requires Fits(p) && Fits(q)
    ensures Cost(BadRam, p, q) == 0 <==> CoveredBy(BadRam, q, p)
  {
    hide Cost, Combine, AgreesOn, CoveredBy;
    NoCostIffSameMask(p, q);
    SameMaskIffAgrees(p, q);
    if AgreesOn(q, p) {
      AgreesCovers(q, p);
    }
    if CoveredBy(BadRam, q, p) {
      CoveredAgrees(q, p);
    }
  }

  lemma CountBound(m: nat)
    ensures Addresses(m) < WORD
  {
    hide Doublings;
    DoubledIsPower(1, m, 64);
  }

  /** A range of which the ends are in order. */
  ghost predicate InOrder(p: Pattern) {
    p.addr <= p.mask < WORD
  }

  /** In the range mode the cost is how far the range is extended, and nothing iff the other
      range lies inside. */
  lemma RangeCost(p: Pattern, q: Pattern)
    requires InOrder(p) && InOrder(q)
    ensures Cost(Ranges, p, q) == (if q.addr < p.addr then p.addr - q.addr else 0) + (if q.mask > p.mask then q.mask - p.mask else 0)
    ensures InOrder(Combine(Ranges, p, q))
  {
  }
}
