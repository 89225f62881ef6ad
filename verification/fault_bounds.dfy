/** What the record matches beyond the addresses that were inserted: nothing, until it is
    full. */
module FaultBounds {
  import opened MachineWord
  import opened Bits
  import opened FaultRecord
  import opened FaultInsert

  // ----- words

  /** The number of address bits inside a word. */
  function LowBits(c: Config): nat {
    if c.ws == 8 then 3 else 2
  }

  lemma {:induction false} OnesBit(w: nat, i: nat)
    requires i < w
    ensures Bit(Pow2(w) - 1, i)
  {
    assert (Pow2(w) - 1) / 2 == Pow2(w - 1) - 1;
    if i > 0 {
      OnesBit(w - 1, i - 1);
    }
  }

  lemma {:induction false} OnesZeros(w: nat)
    ensures Zeros(Pow2(w) - 1, w) == 0
  {
    if w > 0 {
      assert (Pow2(w) - 1) / 2 == Pow2(w - 1) - 1;
      OnesZeros(w - 1);
    }
  }

  lemma HighPowers()
    ensures Pow2(61) == 0x2000_0000_0000_0000 && Pow2(62) == 0x4000_0000_0000_0000
  {
    WordIsPower();
    assert Pow2(64) == 2 * Pow2(63) && Pow2(63) == 2 * Pow2(62) && Pow2(62) == 2 * Pow2(61);
  }

  lemma BitAbove(x: nat, i: nat)
    ensures i >= 2 ==> Bit(x, i) == Bit(x / 4, i - 2)
    ensures i >= 3 ==> Bit(x, i) == Bit(x / 8, i - 3)
  {
    assert x / 2 / 2 == x / 4 && x / 4 / 2 == x / 8;
    if i >= 2 {
      assert Bit(x, i) == Bit(x / 2, i - 1) == Bit(x / 2 / 2, i - 2);
    }
  }

  /** The mask of a word has its ones above the bits inside the word. */
  lemma MaskBits(c: Config, i: nat)
    requires ValidConfig(c) && i < 64
    ensures Bit(DefaultMask(c), i) <==> i >= LowBits(c)
  {
    hide Pow2;
    HighPowers();
    var m := DefaultMask(c);
    BitAbove(m, i);
    if i >= LowBits(c) {
      OnesBit(64 - LowBits(c), i - LowBits(c));
    } else {
      LowBitsZero(m, i);
    }
  }

  lemma LowBitsZero(m: nat, i: nat)
    requires (i < 2 && m % 4 == 0) || (i < 3 && m % 8 == 0)
    ensures !Bit(m, i)
  {
    if i == 1 {
      assert (m / 2) % 2 == 0;
    } else if i == 2 {
      BitAbove(m, 2);
      assert (m / 4) % 2 == 0;
    }
  }

  lemma MaskZeros(c: Config)
    requires ValidConfig(c)
    ensures Zeros(DefaultMask(c), 64) == LowBits(c) && Pow2(LowBits(c)) == c.ws
  {
    HighPowers();
    OnesZeros(61);
    OnesZeros(62);
    var m := DefaultMask(c);
    assert Zeros(m, 64) == Zeros(m / 2, 63) + 1 && Zeros(m / 2, 63) == Zeros(m / 2 / 2, 62) + 1;
    assert c.ws == 8 ==> Zeros(m / 2 / 2, 62) == Zeros(m / 2 / 2 / 2, 61) + 1;
  }

  /** x and y agree on the bits above those inside a word. */
  ghost predicate SameHigh(c: Config, x: nat, y: nat) {
    forall i: nat :: LowBits(c) <= i < 64 ==> Bit(x, i) == Bit(y, i)
  }

  lemma SameWord(c: Config, x: nat, y: nat)
    requires ValidConfig(c) && x < WORD && y < WORD
    ensures SameHigh(c, x, y) <==> x / c.ws == y / c.ws
  {
    hide Bit, Pow2;
    HighPowers();
    var l := LowBits(c);
    var (u, v) := (x / c.ws, y / c.ws);
    forall i: nat | l <= i < 64
      ensures Bit(x, i) == Bit(u, i - l) && Bit(y, i) == Bit(v, i - l)
    {
      BitAbove(x, i);
      BitAbove(y, i);
    }
    if SameHigh(c, x, y) {
      forall i: nat | i < 64 - l
        ensures Bit(u, i) == Bit(v, i)
      {
        assert Bit(x, i + l) == Bit(y, i + l);
      }
      SameBits(u, v, 64 - l);
    }
  }

  /** A pattern with the mask of a word matches that word and nothing else. */
  lemma WordMatched(c: Config, p: Pattern, x: nat)
    requires ValidConfig(c) && p.addr < WORD && p.mask == DefaultMask(c) && x < WORD
    ensures Matches(BadRam, p, x) <==> x / c.ws == p.addr / c.ws
  {
    hide Bit, DefaultMask, LowBits;
    SameWord(c, x, p.addr);
    forall i: nat | i < 64
      ensures Bit(p.mask, i) <==> i >= LowBits(c)
    {
      MaskBits(c, i);
    }
  }

  /** The new address stands for its word, or in the range mode for itself. */
  ghost predicate IsNew(c: Config, a: nat, x: nat)
    requires ValidConfig(c)
  {
    if c.mode == BadRam then x / c.ws == a / c.ws else x == a
  }

  lemma NewMatches(c: Config, a: nat, x: nat)
    requires ValidConfig(c) && a < WORD && x < WORD
    ensures Matches(c.mode, NewPattern(c, a), x) <==> IsNew(c, a, x)
  {
    hide DefaultMask;
    if c.mode == BadRam {
      WordMatched(c, NewPattern(c, a), x);
    }
  }

  // ----- one word more

  /** x and y differ in bit k and in no other bit above those inside a word. */
  ghost predicate DifferOnlyAt(c: Config, x: nat, y: nat, k: nat) {
    LowBits(c) <= k < 64 && forall i: nat :: LowBits(c) <= i < 64 ==> (Bit(x, i) != Bit(y, i) <==> i == k)
  }

  /** Clearing one bit of a mask. */
  lemma {:induction false} ClearedZeros(m: nat, n: nat, k: nat, w: nat)
    requires k < w && m < Pow2(w) && n < Pow2(w)
    requires forall i: nat :: i < w ==> (Bit(m, i) <==> Bit(n, i) && i != k)
    requires Bit(n, k)
    ensures Zeros(m, w) == Zeros(n, w) + 1
  {
    assert Bit(m, 0) <==> Bit(n, 0) && k != 0;
    forall i: nat | i < w - 1
      ensures Bit(m / 2, i) <==> Bit(n / 2, i) && i + 1 != k
    {
      assert Bit(m, i + 1) <==> Bit(n, i + 1) && i + 1 != k;
    }
    if k == 0 {
      SameBits(m / 2, n / 2, w - 1);
    } else {
      ClearedZeros(m / 2, n / 2, k - 1, w - 1);
    }
  }

  /** The bits of the combined mask. */
  lemma CombinedMask(c: Config, p: Pattern, a: nat, i: nat)
    requires ValidConfig(c) && c.mode == BadRam && p.mask == DefaultMask(c) && i < 64
    ensures Bit(Combine(BadRam, p, NewPattern(c, a)).mask, i) <==> i >= LowBits(c) && Bit(p.addr, i) == Bit(a, i)
  {
    hide Bit, Combine, DefaultMask, LowBits;
    CombinedBits(p, NewPattern(c, a), i);
    MaskBits(c, i);
  }

  lemma CostOfMasks(p: Pattern, r: Pattern)
    requires Fits(p) && Fits(r)
    ensures Zeros(p.mask, 64) <= 64 && Zeros(r.mask, 64) <= 64
    ensures Addresses(p.mask) == (if Zeros(p.mask, 64) == 64 then 0 else Pow2(Zeros(p.mask, 64)))
    ensures Addresses(r.mask) == (if Zeros(r.mask, 64) == 64 then 0 else Pow2(Zeros(r.mask, 64)))
  {
    hide Doubled, Zeros, Pow2, Bit;
    DoubledIsPower(1, p.mask, 64);
    DoubledIsPower(1, r.mask, 64);
    DoublingsOfOne(Zeros(p.mask, 64));
    DoublingsOfOne(Zeros(r.mask, 64));
    WordIsPower();
    FewerZeros(p.mask, p.mask, 64);
    FewerZeros(r.mask, r.mask, 64);
    PowerModulo(Zeros(p.mask, 64));
    PowerModulo(Zeros(r.mask, 64));
  }

  /** Two powers of two are one word apart only when they are one word and two. */
  lemma WordApart(c: Config, zp: nat, zr: nat)
    requires ValidConfig(c) && LowBits(c) <= zp <= zr
    ensures Pow2(zr) - Pow2(zp) == c.ws <==> zp == LowBits(c) && zr == LowBits(c) + 1
  {
    hide Pow2;
    SmallPowersOfTwo();
    if LowBits(c) < zp {
      PowerGrows(LowBits(c), zp);
    }
    if zp < zr {
      NextPower(zp, zr);
    }
    if zp == LowBits(c) && LowBits(c) + 1 < zr {
      PowerGrows(LowBits(c) + 1, zr);
    }
  }

  /** Also in 64 bits. */
  lemma WordApartModulo(c: Config, zp: nat, zr: nat)
    requires ValidConfig(c) && LowBits(c) <= zp <= zr <= 64
    ensures var (np, nr) := (if zp == 64 then 0 else Pow2(zp), if zr == 64 then 0 else Pow2(zr));
      (nr - np) % WORD == c.ws <==> zp == LowBits(c) && zr == LowBits(c) + 1
  {
    hide Pow2, LowBits;
    WordIsPower();
    WordApart(c, zp, zr);
    FewLowBits(c);
    if zp < 64 {
      NextPower(zp, 64);
    }
    if zr < 64 {
      PowerGrows(zr, 64);
      if zp < zr {
        PowerGrows(zp, zr);
      }
      assert 0 <= Pow2(zr) - Pow2(zp) < WORD;
    } else if zp < 64 {
      assert (0 - Pow2(zp)) % WORD == WORD - Pow2(zp);
    }
  }

  lemma FewLowBits(c: Config)
    ensures LowBits(c) < 4
  {
  }

  lemma NextPower(j: nat, k: nat)
    requires j < k
    ensures 2 * Pow2(j) <= Pow2(k)
  {
    if j + 1 < k {
      PowerGrows(j + 1, k);
    }
  }

  lemma SmallPowersOfTwo()
    ensures Pow2(2) == 4 && Pow2(3) == 8 && Pow2(4) == 16
  {
  }

  /** In the pattern mode a pattern takes in a new address at the cost of one word iff it
      stands for a single word, and the two words differ in one address bit. */
  lemma OneWordIff(c: Config, p: Pattern, a: nat)
    requires ValidConfig(c) && c.mode == BadRam && Sound(c, p) && a < WORD
    ensures Cost(BadRam, p, NewPattern(c, a)) == c.ws <==> p.mask == DefaultMask(c) && exists k :: DifferOnlyAt(c, p.addr, a, k)
  {
    hide Combine, DefaultMask, Bit, Pow2, Zeros, Addresses, LowBits, DifferOnlyAt;
    var (q, d) := (NewPattern(c, a), DefaultMask(c));
    var r := Combine(BadRam, p, q);
    NewSound(c, a);
    CombineFits(BadRam, p, q);
    WordIsPower();
    forall i: nat | i < 64
      ensures Bit(r.mask, i) ==> Bit(p.mask, i)
    {
      CombinedBits(p, q, i);
    }
    FewerZeros(r.mask, p.mask, 64);
    FewerZeros(p.mask, d, 64);
    MaskZeros(c);
    CostOfMasks(p, r);
    WordApartModulo(c, Zeros(p.mask, 64), Zeros(r.mask, 64));
    if p.mask == d {
      OneBitIff(c, p, a);
    }
  }

  lemma OneBitIff(c: Config, p: Pattern, a: nat)
    requires ValidConfig(c) && c.mode == BadRam && Fits(p) && p.mask == DefaultMask(c) && a < WORD
    ensures Zeros(Combine(BadRam, p, NewPattern(c, a)).mask, 64) == LowBits(c) + 1 <==> exists k :: DifferOnlyAt(c, p.addr, a, k)
  {
    hide Combine, DefaultMask, Bit, Pow2, Zeros, LowBits, And, Not;
    var m := Combine(BadRam, p, NewPattern(c, a)).mask;
    NewSound(c, a);
    CombineFits(BadRam, p, NewPattern(c, a));
    WordIsPower();
    MaskZeros(c);
    forall i: nat | i < 64
      ensures Bit(m, i) <==> i >= LowBits(c) && Bit(p.addr, i) == Bit(a, i)
      ensures Bit(p.mask, i) <==> i >= LowBits(c)
    {
      CombinedMask(c, p, a, i);
      MaskBits(c, i);
    }
    if SameHigh(c, p.addr, a) {
      SameBits(m, p.mask, 64);
      forall k
        ensures !DifferOnlyAt(c, p.addr, a, k)
      {
        assert DifferOnlyAt(c, p.addr, a, k) ==> Bit(p.addr, k) != Bit(a, k);
      }
    } else {
      var k: nat :| LowBits(c) <= k < 64 && Bit(p.addr, k) != Bit(a, k);
      var n := And(p.mask, Not(Pow2(k), 64));
      forall i: nat | i < 64
        ensures Bit(n, i) <==> Bit(p.mask, i) && i != k
      {
        AndBit(p.mask, Not(Pow2(k), 64), i);
        NotBit(Pow2(k), 64, i);
        PowerBit(k, i);
      }
      ClearedZeros(n, p.mask, k, 64);
      FewerZeros(m, n, 64);
      if m == n {
        assert DifferOnlyAt(c, p.addr, a, k);
      } else if exists j :: DifferOnlyAt(c, p.addr, a, j) {
        var j :| DifferOnlyAt(c, p.addr, a, j);
        SameBits(m, n, 64);
      }
    }
  }

  /** The pattern then grows by exactly that word. */
  lemma OneWordMore(c: Config, p: Pattern, a: nat, x: nat)
    requires ValidConfig(c) && c.mode == BadRam && Sound(c, p) && a < WORD && x < WORD
    requires Cost(BadRam, p, NewPattern(c, a)) == c.ws
    ensures Matches(BadRam, Combine(BadRam, p, NewPattern(c, a)), x) <==> Matches(BadRam, p, x) || x / c.ws == a / c.ws
  {
    hide Combine, DefaultMask, Bit, Cost, LowBits;
    var q := NewPattern(c, a);
    OneWordIff(c, p, a);
    WordMatched(c, p, x);
    WordMatched(c, q, x);
    if Matches(BadRam, p, x) || Matches(BadRam, q, x) {
      CombineUpper(BadRam, p, q, x);
    }
    if Matches(BadRam, Combine(BadRam, p, q), x) {
      var k :| DifferOnlyAt(c, p.addr, a, k);
      AgreeApartFrom(c, p, a, x, k);
      SameWord(c, x, p.addr);
      SameWord(c, x, a);
    }
  }

  lemma AgreeApartFrom(c: Config, p: Pattern, a: nat, x: nat, k: nat)
    requires ValidConfig(c) && c.mode == BadRam && p.mask == DefaultMask(c) && DifferOnlyAt(c, p.addr, a, k)
    requires Matches(BadRam, Combine(BadRam, p, NewPattern(c, a)), x)
    ensures SameHigh(c, x, p.addr) || SameHigh(c, x, a)
  {
    hide Combine, DefaultMask, Bit, LowBits;
    forall i: nat | LowBits(c) <= i < 64 && i != k
      ensures Bit(x, i) == Bit(p.addr, i) == Bit(a, i)
    {
      CombinedMask(c, p, a, i);
      MaskBits(c, i);
      CombinedBits(p, NewPattern(c, a), i);
    }
  }

  // ----- the record

  /** Addresses the test can report: in the range mode, multiples of the word size. */
  ghost predicate Reportable(c: Config, s: seq<Pattern>, a: nat) {
    a < WORD && (c.mode == Ranges ==> GoodRanges(c, s) && Aligned(c, a))
  }

  /** A range that is extended at the cost of one word takes in one aligned address. */
  lemma RangeExtended(c: Config, p: Pattern, a: nat, x: nat)
    requires ValidConfig(c) && c.mode == Ranges && InOrder(p) && Aligned(c, p.addr) && Aligned(c, p.mask)
    requires a < WORD && Aligned(c, a) && Aligned(c, x) && Cost(Ranges, p, NewPattern(c, a)) == c.ws
    ensures Matches(Ranges, Combine(Ranges, p, NewPattern(c, a)), x) <==> Matches(Ranges, p, x) || x == a
  {
    hide Cost;
    RangeCost(p, NewPattern(c, a));
  }

  lemma UpdatedCovers(mode: Mode, s: seq<Pattern>, i: nat, r: Pattern, x: nat, more: bool)
    requires i < |s| && (Matches(mode, r, x) <==> Matches(mode, s[i], x) || more)
    ensures Covers(mode, s[i := r], x) <==> Covers(mode, s, x) || more
  {
    hide Matches;
    var t := s[i := r];
    if Covers(mode, s, x) || more {
      var k :| 0 <= k < |s| && (Matches(mode, s[k], x) || (k == i && more));
      assert Matches(mode, t[k], x);
    }
    if Covers(mode, t, x) {
      var k :| 0 <= k < |t| && Matches(mode, t[k], x);
      assert Matches(mode, s[k], x) || more;
    }
  }

  /** Until the record is full it matches what was inserted and nothing else: an insertion
      adds exactly the word of the address, or in the range mode the address. */
  lemma InsertExact(c: Config, s: seq<Pattern>, a: nat, x: nat)
    requires ValidConfig(c) && Good(c, s) && Reportable(c, s, a) && Reportable(c, s, x)
    requires |s| < 20 || exists i :: 0 <= i < |s| && Hit(c, s[i], NewPattern(c, a))
    ensures Covers(c.mode, Insert(c, s, a).s, x) <==> Covers(c.mode, s, x) || IsNew(c, a, x)
  {
    hide Matches, Covers, Combine, Cost, Normal, NewPattern, Sound, Aligned, IsNew;
    var q := NewPattern(c, a);
    var i := FirstHit(c, s, q, 0);
    NewMatches(c, a, x);
    if i == |s| {
      NormalMatches(c.mode, q, x);
      InsertedCovers(c.mode, s, Normal(c.mode, q), PlaceFor(s, Normal(c.mode, q).addr), x);
    } else if Cost(c.mode, s[i], q) == 0 {
      if IsNew(c, a, x) {
        WordCovered(c, s[i], a, x);
        OneCovers(c.mode, s, i, x);
      }
    } else {
      HitMatches(c, s[i], a, x);
      UpdatedCovers(c.mode, s, i, Combine(c.mode, s[i], q), x, IsNew(c, a, x));
    }
  }

  /** A pattern that matches an address matches its word. */
  lemma WordCovered(c: Config, p: Pattern, a: nat, x: nat)
    requires ValidConfig(c) && Sound(c, p) && a < WORD && x < WORD && Cost(c.mode, p, NewPattern(c, a)) == 0 && IsNew(c, a, x)
    ensures Matches(c.mode, p, x)
  {
    hide Cost, Matches, NewPattern, Sound;
    NoCostIffMatched(c, p, a);
    if c.mode == BadRam {
      NewSound(c, a);
      NewMatches(c, a, x);
      SoundFits(c, p, NewPattern(c, a));
      NoCostIffCovered(p, NewPattern(c, a));
    }
  }

  lemma SoundFits(c: Config, p: Pattern, q: Pattern)
    requires c.mode == BadRam && Sound(c, p) && Sound(c, q)
    ensures Fits(p) && Fits(q)
  {
  }

  lemma HitMatches(c: Config, p: Pattern, a: nat, x: nat)
    requires ValidConfig(c) && Sound(c, p) && a < WORD && x < WORD && Cost(c.mode, p, NewPattern(c, a)) == c.ws
    requires c.mode == Ranges ==> Aligned(c, p.addr) && Aligned(c, p.mask) && Aligned(c, a) && Aligned(c, x)
    ensures Matches(c.mode, Combine(c.mode, p, NewPattern(c, a)), x) <==> Matches(c.mode, p, x) || IsNew(c, a, x)
  {
    hide Cost, Matches, Combine;
    if c.mode == BadRam {
      OneWordMore(c, p, a, x);
    } else {
      RangeExtended(c, p, a, x);
    }
  }

  /** A forced merge gives up one pair of neighbours for their combination. */
  lemma MergeExact(mode: Mode, s: seq<Pattern>, x: nat)
    requires |s| == 21
    ensures var k := CheapestPair(mode, s, 20);
      Covers(mode, ForceMerge(mode, s), x) <==> Covers(mode, s[..k] + s[k + 2..], x) || Matches(mode, Combine(mode, s[k], s[k + 1]), x)
  {
    hide Matches, Covers, Combine, Cost, InsertAt, Normal;
    var k := CheapestPair(mode, s, 20);
    var r := Combine(mode, s[k], s[k + 1]);
    NormalMatches(mode, r, x);
    InsertedCovers(mode, RemovePair(s, k), Normal(mode, r), PlaceFor(RemovePair(s, k), Normal(mode, r).addr), x);
  }

  /** The first faulty address: its word, with all bits of the mask set but those inside the
      word. */
  lemma FirstAddress(c: Config, a: nat, x: nat)
    requires ValidConfig(c) && Reportable(c, [], a) && Reportable(c, [], x)
    ensures Covers(c.mode, Insert(c, [], a).s, x) <==> if c.mode == BadRam then x / c.ws == a / c.ws else x == a
    ensures c.mode == BadRam ==> |Insert(c, [], a).s| == 1 && Insert(c, [], a).s[0].mask == if c.ws == 8 then 0xFFFF_FFFF_FFFF_FFF8 else 0xFFFF_FFFF_FFFF_FFFC
  {
    hide Matches;
    InsertExact(c, [], a, x);
  }

  /** Two neighbouring words end as one pattern. */
  lemma NeighboursMerge(x: nat)
    requires x < WORD
    ensures var c := Config(BadRam, 8);
      |Record(c, [0x1000, 0x1008])| == 1 && (Covers(BadRam, Record(c, [0x1000, 0x1008]), x) <==> x / 16 == 0x100)
  {
    hide Matches, Covers, Cost, Combine, Normal, NewPattern, ForceMerge, Sound, DifferOnlyAt;
    var c := Config(BadRam, 8);
    var w := [0x1000, 0x1008];
    assert w[..1] == [0x1000] && w[..1][..0] == [];
    var s := Insert(c, [], 0x1000).s;
    FirstAddress(c, 0x1000, x);
    InsertGood(c, [], 0x1000);
    FirstIsWord(c);
    OneBitApart();
    OneWordIff(c, s[0], 0x1008);
    assert Hit(c, s[0], NewPattern(c, 0x1008));
    InsertExact(c, s, 0x1008, x);
    WordPair(x);
  }

  lemma WordPair(x: nat)
    ensures x / 16 == 0x100 <==> x / 8 == 0x200 || x / 8 == 0x201
    ensures 0x1000 / 8 == 0x200 && 0x1008 / 8 == 0x201
  {
  }

  lemma FirstIsWord(c: Config)
    requires c == Config(BadRam, 8)
    ensures Insert(c, [], 0x1000).s == [Pattern(0x1000, DefaultMask(c))]
  {
    hide Bit, And, Pow2;
    WordIsPower();
    var m := And(0x1000, DefaultMask(c));
    forall i: nat | i < 64
      ensures Bit(m, i) == Bit(0x1000, i)
    {
      AndBit(0x1000, DefaultMask(c), i);
      MaskBits(c, i);
      if i < 3 {
        LowBitsZero(0x1000, i);
      }
    }
    SameBits(m, 0x1000, 64);
  }

  lemma OneBitApart()
    ensures DifferOnlyAt(Config(BadRam, 8), 0x1000, 0x1008, 3)
  {
    forall i: nat | 3 <= i < 64
      ensures Bit(0x1000, i) != Bit(0x1008, i) <==> i == 3
    {
      BitAbove(0x1000, i);
      BitAbove(0x1008, i);
      if i > 3 {
        assert Bit(0x200, i - 3) == Bit(0x100, i - 4) && Bit(0x201, i - 3) == Bit(0x100, i - 4);
      }
    }
  }
}
