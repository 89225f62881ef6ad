/** Inserting addresses into the record. */
module FaultInsert {
  import opened MachineWord
  import opened Bits
  import opened FaultRecord

  // ----- the operations on the list

  /** Clears the address bits the mask ignores. */
  function Normal(mode: Mode, p: Pattern): Pattern {
    if mode == BadRam then Pattern(And(p.addr, p.mask), p.mask) else p
  }

  /** The place before the first larger address. */
  function PlaceFor(s: seq<Pattern>, a: nat): (i: nat)
    ensures i <= |s|
  {
    if s == [] || a < s[0].addr then 0 else 1 + PlaceFor(s[1..], a)
  }

  function InsertAt(s: seq<Pattern>, p: Pattern, i: nat): seq<Pattern>
    requires i <= |s|
  {
    s[..i] + [p] + s[i..]
  }

  function InsertSorted(mode: Mode, s: seq<Pattern>, p: Pattern): seq<Pattern> {
    InsertAt(s, Normal(mode, p), PlaceFor(s, Normal(mode, p).addr))
  }

  function RemovePair(s: seq<Pattern>, i: nat): seq<Pattern>
    requires i + 1 < |s|
  {
    s[..i] + s[i + 2..]
  }

  function PairCost(mode: Mode, s: seq<Pattern>, i: nat): nat
    requires i + 1 < |s|
  {
    Cost(mode, s[i], s[i + 1])
  }

  /** Among the first n pairs of neighbours the cheapest one, the last such. */
  function CheapestPair(mode: Mode, s: seq<Pattern>, n: nat): (k: nat)
    requires 0 < n < |s|
    ensures k < n
  {
    if n == 1 then 0
    else
      var k := CheapestPair(mode, s, n - 1);
      if PairCost(mode, s, n - 1) <= PairCost(mode, s, k) then n - 1 else k
  }

  /** No pair is cheaper, and any pair behind it is dearer. */
  lemma {:induction false} CheapestIsLast(mode: Mode, s: seq<Pattern>, n: nat, i: nat)
    requires 0 < n < |s| && i < n
    ensures PairCost(mode, s, CheapestPair(mode, s, n)) <= PairCost(mode, s, i)
    ensures CheapestPair(mode, s, n) < i ==> PairCost(mode, s, CheapestPair(mode, s, n)) < PairCost(mode, s, i)
  {
    hide PairCost;
    if n > 1 {
      CheapestIsLast(mode, s, n - 1, if i < n - 1 then i else 0);
    }
  }

  /** When the list is too long its cheapest pair of neighbours is merged. */
  function ForceMerge(mode: Mode, s: seq<Pattern>): seq<Pattern> {
    if |s| <= MAX_PATTERNS then s
    else
      var k := CheapestPair(mode, s, |s| - 1);
      InsertSorted(mode, RemovePair(s, k), Combine(mode, s[k], s[k + 1]))
  }

  /** The mask that ignores the bytes of a word. */
  function DefaultMask(c: Config): nat {
    WORD - (if c.ws == 8 then 8 else 4)
  }

  /** A new address: matched to the test word in the pattern mode, a range of one in the
      other. */
  function NewPattern(c: Config, a: nat): Pattern
  {
    if c.mode == BadRam then Pattern(a, DefaultMask(c)) else Pattern(a, a)
  }

  predicate Hit(c: Config, p: Pattern, q: Pattern) {
    Cost(c.mode, p, q) == 0 || Cost(c.mode, p, q) == c.ws
  }

  /** From i on, the first pattern that covers q or that q extends by one word. */
  function FirstHit(c: Config, s: seq<Pattern>, q: Pattern, i: nat): (k: nat)
    requires i <= |s|
    ensures i <= k <= |s| && (forall j :: i <= j < k ==> !Hit(c, s[j], q)) && (k < |s| ==> Hit(c, s[k], q))
    decreases |s| - i
  {
    if i == |s| || Hit(c, s[i], q) then i else FirstHit(c, s, q, i + 1)
  }

  datatype Outcome = Outcome(s: seq<Pattern>, changed: bool)

  /** The record after an address is inserted. */
  function Insert(c: Config, s: seq<Pattern>, a: nat): Outcome
  {
    var q := NewPattern(c, a);
    var i := FirstHit(c, s, q, 0);
    if i < |s| then
      if Cost(c.mode, s[i], q) == 0 then Outcome(s, false)
      else Outcome(s[i := Combine(c.mode, s[i], q)], true)
    else
      Outcome(ForceMerge(c.mode, InsertSorted(c.mode, s, q)), true)
  }

  /** The record after a stream of addresses. */
  function Record(c: Config, words: seq<nat>): seq<Pattern>
  {
    if words == [] then [] else Insert(c, Record(c, words[..|words| - 1]), words[|words| - 1]).s
  }

  // ----- nothing is lost

  ghost predicate Covers(mode: Mode, s: seq<Pattern>, x: nat) {
    exists i :: 0 <= i < |s| && Matches(mode, s[i], x)
  }

  /** A pattern the record can hold. */
  ghost predicate Sound(c: Config, p: Pattern) {
    if c.mode == BadRam then Fits(p) && Fewer(p.mask, DefaultMask(c), 64) else InOrder(p)
  }

  ghost predicate Good(c: Config, s: seq<Pattern>) {
    |s| <= MAX_PATTERNS && forall i :: 0 <= i < |s| ==> Sound(c, s[i])
  }

  lemma NormalMatches(mode: Mode, p: Pattern, x: nat)
    ensures Matches(mode, Normal(mode, p), x) <==> Matches(mode, p, x)
  {
    hide Bit, And;
    if mode == BadRam {
      forall i: nat | i < 64
        ensures Bit(And(p.addr, p.mask), i) <==> Bit(p.addr, i) && Bit(p.mask, i)
      {
        AndBit(p.addr, p.mask, i);
      }
    }
  }

  lemma NormalSound(c: Config, p: Pattern)
    requires Sound(c, p)
    ensures Sound(c, Normal(c.mode, p))
  {
  }

  lemma CombineSound(c: Config, p: Pattern, q: Pattern)
    requires Sound(c, p) && Sound(c, q)
    ensures Sound(c, Combine(c.mode, p, q))
  {
    hide Bit, And, Or, Xor, Not;
    CombineFits(c.mode, p, q);
    if c.mode == BadRam {
      forall i: nat | i < 64 && Bit(Combine(BadRam, p, q).mask, i)
        ensures Bit(DefaultMask(c), i)
      {
        CombinedBits(p, q, i);
      }
    }
  }

  lemma NewSound(c: Config, a: nat)
    requires ValidConfig(c) && a < WORD
    ensures Sound(c, NewPattern(c, a)) && Matches(c.mode, NewPattern(c, a), a)
  {
  }

  lemma InsertedCovers(mode: Mode, s: seq<Pattern>, p: Pattern, i: nat, x: nat)
    requires i <= |s|
    ensures Covers(mode, InsertAt(s, p, i), x) <==> Covers(mode, s, x) || Matches(mode, p, x)
  {
    hide Matches;
    var t := InsertAt(s, p, i);
    assert t[i] == p && (forall k :: 0 <= k < i ==> t[k] == s[k]) && (forall k :: i <= k < |s| ==> t[k + 1] == s[k]);
    assert forall k :: i < k < |t| ==> t[k] == s[k - 1];
    if Covers(mode, s, x) {
      var k :| 0 <= k < |s| && Matches(mode, s[k], x);
      assert Matches(mode, t[if k < i then k else k + 1], x);
    }
  }

  lemma RemovedCovers(mode: Mode, s: seq<Pattern>, i: nat, x: nat)
    requires i + 1 < |s|
    ensures Covers(mode, s, x) ==> Covers(mode, RemovePair(s, i), x) || Matches(mode, s[i], x) || Matches(mode, s[i + 1], x)
  {
    hide Matches;
    var t := RemovePair(s, i);
    if Covers(mode, s, x) {
      var k :| 0 <= k < |s| && Matches(mode, s[k], x);
      if k < i {
        assert t[k] == s[k];
      } else if k > i + 1 {
        assert t[k - 2] == s[k];
      }
    }
  }

  /** A forced merge loses no address. */
  lemma MergeKeeps(mode: Mode, s: seq<Pattern>, x: nat)
    requires Covers(mode, s, x)
    ensures Covers(mode, ForceMerge(mode, s), x)
  {
    hide Matches, Covers, Combine, Cost, InsertAt, RemovePair, Normal;
    if |s| > MAX_PATTERNS {
      var k := CheapestPair(mode, s, |s| - 1);
      var r := Combine(mode, s[k], s[k + 1]);
      RemovedCovers(mode, s, k, x);
      NormalMatches(mode, r, x);
      InsertedCovers(mode, RemovePair(s, k), Normal(mode, r), PlaceFor(RemovePair(s, k), Normal(mode, r).addr), x);
      if Matches(mode, s[k], x) || Matches(mode, s[k + 1], x) {
        CombineUpper(mode, s[k], s[k + 1], x);
      }
    }
  }

  lemma UpdateCovers(mode: Mode, s: seq<Pattern>, i: nat, q: Pattern, x: nat)
    requires i < |s| && (Covers(mode, s, x) || Matches(mode, q, x))
    ensures Covers(mode, s[i := Combine(mode, s[i], q)], x)
  {
    hide Matches, Combine;
    var t := s[i := Combine(mode, s[i], q)];
    if Matches(mode, q, x) {
      CombineUpper(mode, s[i], q, x);
      assert Matches(mode, t[i], x);
    } else {
      var k :| 0 <= k < |s| && Matches(mode, s[k], x);
      if k == i {
        CombineUpper(mode, s[i], q, x);
      }
      assert Matches(mode, t[k], x);
    }
  }

  /** Combining costs nothing iff the new address is matched already. */
  lemma NoCostIffMatched(c: Config, p: Pattern, a: nat)
    requires ValidConfig(c) && Sound(c, p) && a < WORD
    ensures Cost(c.mode, p, NewPattern(c, a)) == 0 <==> Matches(c.mode, p, a)
  {
    hide Cost, Bit;
    var q := NewPattern(c, a);
    NewSound(c, a);
    if c.mode == BadRam {
      NoCostIffCovered(p, q);
      if Matches(BadRam, p, a) {
        AgreesCovers(q, p);
      }
    } else {
      RangeCost(p, q);
    }
  }

  /** The set of matched addresses only grows, and takes in the new address. */
  lemma InsertKeeps(c: Config, s: seq<Pattern>, a: nat, x: nat)
    requires ValidConfig(c) && Good(c, s) && a < WORD && (Covers(c.mode, s, x) || x == a)
    ensures Covers(c.mode, Insert(c, s, a).s, x)
  {
    hide Matches, Covers, Combine, Cost, InsertAt, Normal, ForceMerge, NewPattern, Sound;
    var q := NewPattern(c, a);
    var i := FirstHit(c, s, q, 0);
    NewSound(c, a);
    if i < |s| {
      if Cost(c.mode, s[i], q) == 0 {
        NoCostIffMatched(c, s[i], a);
        OneCovers(c.mode, s, i, a);
      } else {
        UpdateCovers(c.mode, s, i, q, x);
      }
    } else {
      NormalMatches(c.mode, q, x);
      InsertedCovers(c.mode, s, Normal(c.mode, q), PlaceFor(s, Normal(c.mode, q).addr), x);
      MergeKeeps(c.mode, InsertSorted(c.mode, s, q), x);
    }
  }

  lemma OneCovers(mode: Mode, s: seq<Pattern>, i: nat, x: nat)
    requires i < |s|
    ensures Matches(mode, s[i], x) ==> Covers(mode, s, x)
  {
  }

  lemma MergeGood(c: Config, s: seq<Pattern>)
    requires |s| <= MAX_PATTERNS + 1 && forall i :: 0 <= i < |s| ==> Sound(c, s[i])
    ensures Good(c, ForceMerge(c.mode, s))
  {
    hide Sound, Combine, Cost, Normal;
    if |s| > MAX_PATTERNS {
      var k := CheapestPair(c.mode, s, |s| - 1);
      CombineSound(c, s[k], s[k + 1]);
      NormalSound(c, Combine(c.mode, s[k], s[k + 1]));
    }
  }

  lemma InsertGood(c: Config, s: seq<Pattern>, a: nat)
    requires ValidConfig(c) && Good(c, s) && a < WORD
    ensures Good(c, Insert(c, s, a).s)
  {
    hide Sound, Combine, Cost, Normal, ForceMerge, NewPattern;
    var q := NewPattern(c, a);
    var i := FirstHit(c, s, q, 0);
    NewSound(c, a);
    if i < |s| {
      CombineSound(c, s[i], q);
    } else {
      NormalSound(c, q);
      MergeGood(c, InsertSorted(c.mode, s, q));
    }
  }

  /** The result says exactly whether the record changed; and when it did not, the address
      was matched already. */
  lemma InsertReports(c: Config, s: seq<Pattern>, a: nat)
    requires ValidConfig(c) && Good(c, s) && a < WORD
    ensures Insert(c, s, a).changed <==> Insert(c, s, a).s != s
    ensures !Insert(c, s, a).changed ==> Covers(c.mode, s, a)
  {
    hide Matches, Covers, Combine, InsertSorted, ForceMerge, NewPattern, Sound, Addresses;
    var q := NewPattern(c, a);
    var i := FirstHit(c, s, q, 0);
    if i < |s| {
      NoCostIffMatched(c, s[i], a);
      OneCovers(c.mode, s, i, a);
      assert Combine(c.mode, s[i], q) == s[i] ==> Cost(c.mode, s[i], q) == 0;
    } else {
      forall k | 0 <= k < |s|
        ensures !Matches(c.mode, s[k], a)
      {
        NoCostIffMatched(c, s[k], a);
      }
      NoneCovers(c.mode, s, a);
      InsertKeeps(c, s, a, a);
    }
  }

  lemma NoneCovers(mode: Mode, s: seq<Pattern>, x: nat)
    requires forall k :: 0 <= k < |s| ==> !Matches(mode, s[k], x)
    ensures !Covers(mode, s, x)
  {
  }

  /** An insertion reports no change iff the first pattern it hits covers the address
      already. */
  lemma UnchangedIff(c: Config, s: seq<Pattern>, a: nat)
    requires ValidConfig(c) && Good(c, s) && a < WORD
    ensures !Insert(c, s, a).changed <==>
            exists i :: 0 <= i < |s| && Matches(c.mode, s[i], a) && forall j :: 0 <= j < i ==> !Hit(c, s[j], NewPattern(c, a))
  {
    hide Matches, Combine, InsertSorted, ForceMerge, NewPattern, Sound, Cost;
    var q := NewPattern(c, a);
    var k := FirstHit(c, s, q, 0);
    forall i | 0 <= i < |s|
      ensures Matches(c.mode, s[i], a) <==> Cost(c.mode, s[i], q) == 0
    {
      NoCostIffMatched(c, s[i], a);
    }
  }

  /** A covered address may still change the record: an earlier range grows to it. */
  lemma CoveredButChanged()
    ensures var c := Config(Ranges, 8);
      && Record(c, [16, 32, 24]) == [Pattern(16, 24), Pattern(32, 32)]
      && Insert(c, Record(c, [16, 32, 24]), 32) == Outcome([Pattern(16, 32), Pattern(32, 32)], true)
  {
    var c := Config(Ranges, 8);
    var w := [16, 32, 24];
    assert w[..2] == [16, 32] && w[..2][..1] == [16] && w[..2][..1][..0] == [];
    assert Record(c, [16]) == [Pattern(16, 16)];
    assert FirstHit(c, [Pattern(16, 16)], Pattern(32, 32), 0) == 1;
    assert Record(c, [16, 32]) == [Pattern(16, 16), Pattern(32, 32)];
    assert FirstHit(c, [Pattern(16, 16), Pattern(32, 32)], Pattern(24, 24), 0) == 0;
    assert FirstHit(c, [Pattern(16, 24), Pattern(32, 32)], Pattern(32, 32), 0) == 0;
  }

  /** No address is ever lost: whatever is inserted, in whatever order, the at most twenty
      patterns match all of it. */
  lemma {:induction false} NothingLost(c: Config, words: seq<nat>, k: nat)
    requires ValidConfig(c) && k < |words| && forall i :: 0 <= i < |words| ==> words[i] < WORD
    ensures Covers(c.mode, Record(c, words), words[k])
  {
    hide Covers, Insert, Good;
    var n := |words| - 1;
    RecordGood(c, words[..n]);
    if k < n {
      NothingLost(c, words[..n], k);
    }
    InsertKeeps(c, Record(c, words[..n]), words[n], words[k]);
  }

  lemma {:induction false} RecordGood(c: Config, words: seq<nat>)
    requires ValidConfig(c) && forall i :: 0 <= i < |words| ==> words[i] < WORD
    ensures Good(c, Record(c, words))
  {
    hide Insert, Sound;
    if words != [] {
      RecordGood(c, words[..|words| - 1]);
      InsertGood(c, Record(c, words[..|words| - 1]), words[|words| - 1]);
    }
  }

  // ----- the order in the range mode

  predicate Aligned(c: Config, a: nat) {
    if c.ws == 8 then a % 8 == 0 else a % 4 == 0
  }

  /** In order of their lower ends, all different. */
  ghost predicate Sorted(s: seq<Pattern>) {
    forall i, j :: 0 <= i < j < |s| ==> s[i].addr < s[j].addr
  }

  ghost predicate GoodRanges(c: Config, s: seq<Pattern>) {
    && Sorted(s)
    && forall i :: 0 <= i < |s| ==> InOrder(s[i]) && Aligned(c, s[i].addr) && Aligned(c, s[i].mask)
  }

  lemma {:induction false} PlaceSplits(s: seq<Pattern>, a: nat)
    requires Sorted(s)
    ensures forall i :: 0 <= i < PlaceFor(s, a) ==> s[i].addr <= a
    ensures forall i :: PlaceFor(s, a) <= i < |s| ==> a < s[i].addr
  {
    if s != [] && a >= s[0].addr {
      PlaceSplits(s[1..], a);
    }
  }

  lemma InsertedSorted(s: seq<Pattern>, p: Pattern)
    requires Sorted(s) && forall i :: 0 <= i < |s| ==> s[i].addr != p.addr
    ensures Sorted(InsertSorted(Ranges, s, p))
  {
    PlaceSplits(s, p.addr);
  }

  lemma RemovedRanges(c: Config, s: seq<Pattern>, k: nat)
    requires GoodRanges(c, s) && k + 1 < |s|
    ensures GoodRanges(c, RemovePair(s, k)) && forall i :: 0 <= i < |RemovePair(s, k)| ==> RemovePair(s, k)[i].addr != s[k].addr
  {
    hide Aligned;
    var t := RemovePair(s, k);
    assert forall i :: 0 <= i < |t| ==> t[i] == if i < k then s[i] else s[i + 2];
  }

  lemma InsertedRanges(c: Config, s: seq<Pattern>, p: Pattern)
    requires GoodRanges(c, s) && InOrder(p) && Aligned(c, p.addr) && Aligned(c, p.mask)
    requires forall i :: 0 <= i < |s| ==> s[i].addr != p.addr
    ensures GoodRanges(c, InsertSorted(Ranges, s, p))
  {
    hide Aligned;
    InsertedSorted(s, p);
  }

  lemma MergedRanges(c: Config, s: seq<Pattern>)
    requires GoodRanges(c, s)
    ensures GoodRanges(c, ForceMerge(Ranges, s))
  {
    hide Aligned, Cost, InsertSorted, RemovePair;
    if |s| > MAX_PATTERNS {
      var k := CheapestPair(Ranges, s, |s| - 1);
      RemovedRanges(c, s, k);
      InsertedRanges(c, RemovePair(s, k), Combine(Ranges, s[k], s[k + 1]));
    }
  }

  /** A range that is extended downwards stays above the ones before it. */
  lemma BelowExtended(c: Config, p: Pattern, q: Pattern, a: nat)
    requires ValidConfig(c) && c.mode == Ranges && InOrder(p) && InOrder(q) && a < WORD && p.addr < q.addr
    requires Aligned(c, p.addr) && Aligned(c, q.addr) && Aligned(c, a)
    requires Cost(Ranges, q, Pattern(a, a)) == c.ws && !Hit(c, p, Pattern(a, a))
    ensures p.addr < Combine(Ranges, q, Pattern(a, a)).addr
  {
    hide Cost;
    RangeCost(q, Pattern(a, a));
    RangeCost(p, Pattern(a, a));
  }

  lemma ExtendedRanges(c: Config, s: seq<Pattern>, i: nat, a: nat)
    requires ValidConfig(c) && c.mode == Ranges && GoodRanges(c, s) && a < WORD && Aligned(c, a)
    requires i < |s| && Cost(Ranges, s[i], Pattern(a, a)) == c.ws
    requires forall j :: 0 <= j < i ==> !Hit(c, s[j], Pattern(a, a))
    ensures GoodRanges(c, s[i := Combine(Ranges, s[i], Pattern(a, a))])
  {
    hide Cost, Hit, Aligned;
    forall j | 0 <= j < i
      ensures s[j].addr < Combine(Ranges, s[i], Pattern(a, a)).addr
    {
      BelowExtended(c, s[j], s[i], a);
    }
  }

  lemma InsertKeepsOrder(c: Config, s: seq<Pattern>, a: nat)
    requires ValidConfig(c) && c.mode == Ranges && GoodRanges(c, s) && a < WORD && Aligned(c, a)
    ensures GoodRanges(c, Insert(c, s, a).s)
  {
    hide Aligned, Cost, ForceMerge;
    var q := NewPattern(c, a);
    var i := FirstHit(c, s, q, 0);
    if i < |s| {
      if Cost(Ranges, s[i], q) != 0 {
        ExtendedRanges(c, s, i, a);
      }
    } else {
      forall k | 0 <= k < |s|
        ensures s[k].addr != a
      {
        RangeCost(s[k], q);
      }
      InsertedRanges(c, s, q);
      MergedRanges(c, InsertSorted(Ranges, s, q));
    }
  }

  /** With word-aligned addresses the ranges stay in order of their lower ends. */
  lemma {:induction false} RecordSorted(c: Config, words: seq<nat>)
    requires ValidConfig(c) && c.mode == Ranges
    requires forall i :: 0 <= i < |words| ==> words[i] < WORD && Aligned(c, words[i])
    ensures GoodRanges(c, Record(c, words))
  {
    hide Insert, Aligned;
    if words != [] {
      RecordSorted(c, words[..|words| - 1]);
      InsertKeepsOrder(c, Record(c, words[..|words| - 1]), words[|words| - 1]);
    }
  }

  // ----- neighbours suffice

  ghost predicate OrderedRanges(s: seq<Pattern>) {
    Sorted(s) && forall i :: 0 <= i < |s| ==> InOrder(s[i])
  }

  /** Between two ranges there are neighbours that are no dearer to merge. */
  lemma {:induction false} CheaperNeighbours(s: seq<Pattern>, p: nat, q: nat) returns (k: nat)
    requires OrderedRanges(s) && p < q < |s|
    ensures p <= k < q && PairCost(Ranges, s, k) <= Cost(Ranges, s[p], s[q])
    decreases q - p
  {
    hide Cost;
    RangeCost(s[p], s[q]);
    k := q - 1;
    RangeCost(s[k], s[q]);
    if p < k && s[k].mask < s[p].mask {
      k := CheaperNeighbours(s, p, k);
      RangeCost(s[p], s[q - 1]);
    }
  }

  /** The cheapest pair of neighbours is as cheap as any pair. */
  lemma CheapestOfAll(s: seq<Pattern>, p: nat, q: nat)
    requires OrderedRanges(s) && p < q < |s|
    ensures PairCost(Ranges, s, CheapestPair(Ranges, s, |s| - 1)) <= Cost(Ranges, s[p], s[q])
  {
    hide Cost, OrderedRanges;
    var k := CheaperNeighbours(s, p, q);
    CheapestIsLast(Ranges, s, |s| - 1, k);
  }
}
