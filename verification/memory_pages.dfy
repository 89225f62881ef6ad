/** From the map without overlaps to segments of whole pages. */
module MemoryPages {
  import opened MachineWord
  import opened FiniteSets
  import opened MemoryPoints
  import opened MemoryMap

  const PAGE: nat := 4096
  const RESERVED_START: nat := 0xA0000
  const RESERVED_END: nat := 0x100000
  const MAX_SEGMENTS: nat := 128

  /** Pages start..end - 1. */
  datatype Segment = Segment(start: nat, end: nat)

  /** The part of an entry that may be used. */
  datatype Extent = Nowhere | Extent(lo: nat, hi: nat)

  /** RAM, or ACPI tables that may be overwritten. */
  predicate Usable(e: Entry) {
    e.kind == 1 || e.kind == 3
  }

  /** Cuts off what an entry has between 640KB and 1MB. An entry that spans the whole hole
      is left alone. */
  function Clip(e: Entry): Extent {
    var lo := e.addr;
    var hi := (e.addr + e.size) % WORD;
    if !Usable(e) || (RESERVED_START < lo < RESERVED_END && hi < RESERVED_END) then Nowhere
    else
      Extent(if RESERVED_START < lo < RESERVED_END then RESERVED_END else lo,
             if RESERVED_START < hi < RESERVED_END then RESERVED_START else hi)
  }

  /** The pages of an extent: the start rounded up, in 64 bits, and the end rounded down. */
  function Rounded(x: Extent): Segment
    requires x.Extent?
  {
    Segment((x.lo + PAGE - 1) % WORD / PAGE, x.hi / PAGE)
  }

  /** A segment that continues the last one is merged with it. */
  function AddSegment(s: seq<Segment>, x: Segment): seq<Segment> {
    if s != [] && x.start == s[|s| - 1].end then s[..|s| - 1] + [Segment(s[|s| - 1].start, x.end)] else s + [x]
  }

  function Segments(es: seq<Entry>): (s: seq<Segment>)
    ensures |s| <= |es|
  {
    if es == [] then []
    else
      var n := |es| - 1;
      var x := Clip(es[n]);
      if x.Nowhere? then Segments(es[..n]) else AddSegment(Segments(es[..n]), Rounded(x))
  }

  // ----- what the segments are to contain

  /** Page p lies wholly inside the usable part of the entry. */
  ghost predicate Inside(e: Entry, p: nat) {
    var x := Clip(e);
    x.Extent? && x.lo <= PAGE * p && PAGE * p + PAGE <= x.hi
  }

  ghost predicate Wanted(es: seq<Entry>, p: nat) {
    exists i :: 0 <= i < |es| && Inside(es[i], p)
  }

  ghost predicate Contains(s: seq<Segment>, p: nat) {
    exists i :: 0 <= i < |s| && s[i].start <= p < s[i].end
  }

  /** In order and without overlap. */
  ghost predicate InOrder(s: seq<Segment>) {
    forall i, j :: 0 <= i < j < |s| ==> s[i].start <= s[j].start && s[i].end <= s[j].start
  }

  /** Rounding may put the end of a segment one page before its start, not more. */
  ghost predicate AtMostInverted(s: seq<Segment>) {
    forall i :: 0 <= i < |s| ==> s[i].start <= s[i].end + 1
  }

  /** The segments are in order and contain exactly the pages wanted. */
  ghost predicate Exact(es: seq<Entry>, s: seq<Segment>) {
    InOrder(s) && forall p :: Contains(s, p) <==> Wanted(es, p)
  }

  /** An input of the page step: a map as the sweep leaves it. */
  ghost predicate CleanMap(es: seq<Entry>) {
    Clean(es) && forall i :: 0 <= i < |es| ==> End(es[i]) < WORD
  }

  /** Some usable entry starts inside the last page of the address space, so that rounding
      its start up wraps to zero. */
  ghost predicate StartsTooHigh(e: Entry) {
    Clip(e).Extent? && e.addr + PAGE > WORD
  }

  ghost predicate NoneTooHigh(es: seq<Entry>) {
    forall i :: 0 <= i < |es| ==> !StartsTooHigh(es[i])
  }

  /** The address after the last entry. */
  ghost function Limit(es: seq<Entry>): nat {
    if es == [] then 0 else End(es[|es| - 1])
  }

  /** No segment reaches past the limit, and no start by more than its rounding. */
  ghost predicate Within(s: seq<Segment>, lim: nat) {
    forall i :: 0 <= i < |s| ==> PAGE * s[i].end <= lim && PAGE * s[i].start < lim + PAGE && s[i].start <= s[i].end + 1
  }

  lemma ClipFacts(e: Entry)
    requires End(e) < WORD && e.size > 0
    ensures Clip(e).Extent? ==> e.addr <= Clip(e).lo <= Clip(e).hi <= End(e)
    ensures Clip(e).Extent? && !StartsTooHigh(e) ==> Clip(e).lo + PAGE <= WORD
  {
  }

  lemma RoundedFacts(e: Entry, p: nat)
    requires End(e) < WORD && e.size > 0 && Clip(e).Extent? && !StartsTooHigh(e)
    ensures var x := Clip(e); var s := Rounded(x);
      && (Inside(e, p) <==> s.start <= p < s.end)
      && x.lo <= PAGE * s.start < x.lo + PAGE && PAGE * s.end <= x.hi < PAGE * s.end + PAGE
  {
    ClipFacts(e);
  }

  lemma WantedStep(es: seq<Entry>, p: nat)
    requires es != []
    ensures Wanted(es, p) <==> Wanted(es[..|es| - 1], p) || Inside(es[|es| - 1], p)
  {
    hide Inside;
    var n := |es| - 1;
    if Wanted(es[..n], p) {
      var i :| 0 <= i < n && Inside(es[..n][i], p);
      assert Inside(es[i], p);
    }
    if Wanted(es, p) && !Inside(es[n], p) {
      var i :| 0 <= i < |es| && Inside(es[i], p);
      assert Inside(es[..n][i], p);
    }
  }

  lemma ContainsAppended(s: seq<Segment>, x: Segment, p: nat)
    ensures Contains(s + [x], p) <==> Contains(s, p) || x.start <= p < x.end
  {
    var t := s + [x];
    if Contains(s, p) {
      var i :| 0 <= i < |s| && s[i].start <= p < s[i].end;
      assert t[i].start <= p < t[i].end;
    }
    if x.start <= p < x.end {
      assert t[|s|].start <= p < t[|s|].end;
    }
  }

  /** Merging with the last segment loses no page and adds none, whether or not one of the
      two is inverted by rounding. */
  lemma ContainsAdded(s: seq<Segment>, x: Segment, p: nat)
    requires s != [] && x.start == s[|s| - 1].end ==> s[|s| - 1].start <= x.start <= x.end
    ensures Contains(AddSegment(s, x), p) <==> Contains(s, p) || x.start <= p < x.end
  {
    if s != [] && x.start == s[|s| - 1].end {
      var l := s[|s| - 1];
      assert s == s[..|s| - 1] + [l];
      ContainsAppended(s[..|s| - 1], l, p);
      ContainsAppended(s[..|s| - 1], Segment(l.start, x.end), p);
    } else {
      ContainsAppended(s, x, p);
    }
  }

  /** Segments that meet have become one. */
  ghost predicate Merged(s: seq<Segment>) {
    forall i :: 0 <= i < |s| - 1 ==> s[i].end != s[i + 1].start
  }

  lemma {:induction false} SegmentsMerged(es: seq<Entry>)
    ensures Merged(Segments(es))
  {
    hide Clip, Rounded;
    if es != [] {
      SegmentsMerged(es[..|es| - 1]);
    }
  }

  /** What the page step keeps from entry to entry. */
  lemma {:induction false} SegmentsExact(es: seq<Entry>)
    requires CleanMap(es) && NoneTooHigh(es)
    ensures Exact(es, Segments(es)) && Within(Segments(es), Limit(es))
  {
    hide Inside, Contains, Wanted, Rounded, Clip;
    if es == [] {
      NothingWanted();
    } else {
      var n := |es| - 1;
      SegmentsExact(es[..n]);
      LimitBelow(es);
      var s := Segments(es[..n]);
      var x := Clip(es[n]);
      if x.Nowhere? {
        forall p
          ensures Contains(s, p) <==> Wanted(es, p)
        {
          WantedStep(es, p);
          NothingInside(es[n], p);
        }
      } else {
        AddedExact(es);
      }
    }
  }

  lemma NothingWanted()
    ensures forall p :: !Wanted([], p) && !Contains([], p)
  {
  }

  lemma NothingInside(e: Entry, p: nat)
    requires Clip(e).Nowhere?
    ensures !Inside(e, p)
  {
  }

  lemma LimitBelow(es: seq<Entry>)
    requires CleanMap(es) && es != []
    ensures CleanMap(es[..|es| - 1]) && Limit(es[..|es| - 1]) <= es[|es| - 1].addr
    ensures es[|es| - 1].size > 0 && Limit(es) == End(es[|es| - 1])
  {
  }

  /** The rounded extent of the next entry against the segments so far. */
  lemma NextSegment(s: seq<Segment>, e: Entry, lim: nat)
    requires InOrder(s) && Within(s, lim) && lim <= e.addr && e.size > 0 && End(e) < WORD
    requires Clip(e).Extent? && !StartsTooHigh(e)
    ensures var x := Rounded(Clip(e));
      && (s != [] && x.start == s[|s| - 1].end ==> s[|s| - 1].start <= x.start <= x.end)
      && x.start <= x.end + 1
      && InOrder(AddSegment(s, x)) && Within(AddSegment(s, x), End(e))
  {
    hide Clip;
    ClipFacts(e);
    RoundedFacts(e, 0);
  }

  lemma AddedExact(es: seq<Entry>)
    requires CleanMap(es) && es != [] && Clip(es[|es| - 1]).Extent? && !StartsTooHigh(es[|es| - 1])
    requires var s := Segments(es[..|es| - 1]); Exact(es[..|es| - 1], s) && Within(s, Limit(es[..|es| - 1]))
    ensures Exact(es, Segments(es)) && Within(Segments(es), Limit(es))
  {
    hide Inside, Contains, Wanted, Rounded, Clip, AddSegment, StartsTooHigh;
    var n := |es| - 1;
    var s := Segments(es[..n]);
    LimitBelow(es);
    NextSegment(s, es[n], Limit(es[..n]));
    forall p
      ensures Contains(Segments(es), p) <==> Wanted(es, p)
    {
      WantedStep(es, p);
      ContainsAdded(s, Rounded(Clip(es[n])), p);
      RoundedFacts(es[n], p);
    }
  }

  /** The next segment reaches as far as any before it. */
  lemma EndAdded(s: seq<Segment>, e: Entry, lim: nat, i: nat)
    requires Within(s, lim) && lim <= e.addr && e.size > 0 && End(e) < WORD && Clip(e).Extent? && !StartsTooHigh(e)
    requires i < |s|
    ensures s[i].end <= Rounded(Clip(e)).end
  {
    hide Clip, Rounded;
    ClipFacts(e);
    RoundedFacts(e, 0);
  }

  /** Later segments reach further, though any may be inverted by rounding. */
  lemma {:induction false} EndsAscend(es: seq<Entry>, i: nat, j: nat)
    requires CleanMap(es) && NoneTooHigh(es) && i < j < |Segments(es)|
    ensures Segments(es)[i].end <= Segments(es)[j].end
  {
    hide Clip, Rounded, StartsTooHigh, Exact, CleanMap, Within;
    var n := |es| - 1;
    LimitBelow(es);
    SegmentsExact(es[..n]);
    var s := Segments(es[..n]);
    if j < |Segments(es)| - 1 || Clip(es[n]).Nowhere? {
      EndsAscend(es[..n], i, j);
    } else {
      EndBound(es);
      EndAdded(s, es[n], Limit(es[..n]), i);
    }
  }

  lemma EndBound(es: seq<Entry>)
    requires CleanMap(es) && es != []
    ensures End(es[|es| - 1]) < WORD
  {
  }

  lemma LimitFits(es: seq<Entry>)
    requires CleanMap(es)
    ensures Limit(es) < WORD
  {
  }

  /** A page between 640KB and 1MB is used iff its entry spans the whole hole. */
  lemma HolePages(e: Entry, p: nat)
    requires End(e) < WORD && e.size > 0 && RESERVED_START <= PAGE * p < RESERVED_END
    ensures Inside(e, p) <==> Usable(e) && e.addr <= RESERVED_START && End(e) >= RESERVED_END
  {
  }

  /** Every page taken consists of addresses to which the firmware map gives type RAM or
      ACPI. */
  lemma PagesAreUsable(orig: seq<Entry>, es: seq<Entry>, p: nat, a: nat)
    requires Finished(orig, es) && |es| <= E820_MAP_SIZE && Wanted(es, p) && PAGE * p <= a < PAGE * p + PAGE
    ensures IsTypeAt(orig, a, 1) || IsTypeAt(orig, a, 3)
  {
    hide IsTypeAt;
    var i :| 0 <= i < |es| && Inside(es[i], p);
    ClipFacts(es[i]);
    assert Covers(es[i], a);
    assert i < |es| - 1 ==> End(es[i]) <= es[|es| - 1].addr;
    assert Agrees(orig, es, a);
  }

  // ----- the one way it goes wrong

  const LAST_PAGE: nat := 0xF_FFFF_FFFF_FFFF

  /** A segment reaches from the first pages to the last one, and page LAST_PAGE - 1 is
      either in another segment as well or not wanted at all. */
  ghost predicate Overrun(es: seq<Entry>, s: seq<Segment>, i: nat, j: nat) {
    && i < |s| && s[i].start <= 1 && s[i].end == LAST_PAGE
    && (!Wanted(es, LAST_PAGE - 1) || (j < |s| && i != j && s[j].start <= LAST_PAGE - 1 < s[j].end))
  }

  lemma OverrunIsInexact(es: seq<Entry>, s: seq<Segment>, i: nat, j: nat)
    requires Overrun(es, s, i, j)
    ensures !Exact(es, s)
  {
    hide Wanted;
    assert Contains(s, LAST_PAGE - 1);
  }

  lemma ExactAt(es: seq<Entry>, s: seq<Segment>, p: nat)
    requires Exact(es, s)
    ensures Contains(s, p) <==> Wanted(es, p)
  {
    hide Contains, Wanted;
  }

  lemma TooHighSegment(e: Entry)
    requires End(e) < WORD && e.size > 0 && e.addr + PAGE > WORD && Clip(e).Extent?
    ensures Rounded(Clip(e)) == Segment(0, LAST_PAGE) && !Inside(e, LAST_PAGE - 1)
  {
  }

  lemma OverrunStarts(es: seq<Entry>) returns (i: nat, j: nat)
    requires CleanMap(es) && es != [] && NoneTooHigh(es[..|es| - 1]) && StartsTooHigh(es[|es| - 1])
    ensures Overrun(es, Segments(es), i, j)
  {
    hide Inside, Wanted, Rounded, Clip, Exact;
    var n := |es| - 1;
    var s := Segments(es[..n]);
    SegmentsExact(es[..n]);
    ExactAt(es[..n], s, LAST_PAGE - 1);
    TooHighSegment(es[n]);
    WantedStep(es, LAST_PAGE - 1);
    i := if s != [] && s[|s| - 1].end == 0 then |s| - 1 else |s|;
    j := 0;
    if Contains(s, LAST_PAGE - 1) {
      j :| 0 <= j < |s| && s[j].start <= LAST_PAGE - 1 < s[j].end;
    }
  }

  lemma {:induction false} OverrunStays(es: seq<Entry>, i: nat, j: nat)
    requires CleanMap(es) && es != [] && es[|es| - 1].addr + PAGE > WORD
    requires Overrun(es[..|es| - 1], Segments(es[..|es| - 1]), i, j)
    ensures Overrun(es, Segments(es), i, j)
  {
    hide Inside, Wanted, Rounded, Clip;
    var n := |es| - 1;
    WantedStep(es, LAST_PAGE - 1);
    if Clip(es[n]).Nowhere? {
      NothingInside(es[n], LAST_PAGE - 1);
    } else {
      TooHighSegment(es[n]);
    }
  }

  lemma {:induction false} TooHighOverruns(es: seq<Entry>) returns (i: nat, j: nat)
    requires CleanMap(es) && !NoneTooHigh(es)
    ensures Overrun(es, Segments(es), i, j)
  {
    hide Overrun, Clip, Segments;
    var n := |es| - 1;
    if NoneTooHigh(es[..n]) {
      i, j := OverrunStarts(es);
    } else {
      var k :| 0 <= k < n && StartsTooHigh(es[..n][k]);
      assert End(es[k]) <= es[n].addr;
      i, j := TooHighOverruns(es[..n]);
      OverrunStays(es, i, j);
    }
  }

  /** The page step is exact iff no usable entry starts inside the last page of the address
      space. */
  lemma ExactIff(es: seq<Entry>)
    requires CleanMap(es)
    ensures Exact(es, Segments(es)) <==> NoneTooHigh(es)
  {
    hide Exact, NoneTooHigh, Segments;
    if NoneTooHigh(es) {
      SegmentsExact(es);
    } else {
      var i, j := TooHighOverruns(es);
      OverrunIsInexact(es, Segments(es), i, j);
    }
  }

  /** One RAM entry inside the last page: the map then claims nearly all pages. */
  lemma TooHighExample()
    ensures var es := [Entry(WORD - 200, 100, 1)]; CleanMap(es) && Segments(es) == [Segment(0, LAST_PAGE)] && !Exact(es, Segments(es))
  {
    var es := [Entry(WORD - 200, 100, 1)];
    assert Segments(es[..0]) == [];
    assert StartsTooHigh(es[0]);
    ExactIff(es);
  }

  // ----- the number of pages

  ghost function Range(lo: nat, hi: nat): set<nat>
    decreases hi
  {
    if lo < hi then Range(lo, hi - 1) + {hi - 1} else {}
  }

  lemma {:induction false} RangeCount(lo: nat, hi: nat)
    ensures forall p :: p in Range(lo, hi) <==> lo <= p < hi
    ensures |Range(lo, hi)| == if lo <= hi then hi - lo else 0
    decreases hi
  {
    if lo < hi {
      RangeCount(lo, hi - 1);
    }
  }

  /** The pages in the segments. */
  ghost function Pages(s: seq<Segment>): set<nat> {
    if s == [] then {} else Pages(s[..|s| - 1]) + Range(s[|s| - 1].start, s[|s| - 1].end)
  }

  lemma {:induction false} InPages(s: seq<Segment>, p: nat)
    ensures p in Pages(s) <==> Contains(s, p)
  {
    if s != [] {
      var n := |s| - 1;
      InPages(s[..n], p);
      RangeCount(s[n].start, s[n].end);
      ContainsAppended(s[..n], s[n], p);
      assert s == s[..n] + [s[n]];
    }
  }

  /** The entry lies between two page boundaries, so its start is rounded past its end. */
  predicate RoundsInside(e: Entry) {
    var x := Clip(e);
    x.Extent? && Rounded(x).start > Rounded(x).end
  }

  function InvertedEntries(es: seq<Entry>): nat {
    if es == [] then 0 else InvertedEntries(es[..|es| - 1]) + (if RoundsInside(es[|es| - 1]) then 1 else 0)
  }

  /** The sum the code accumulates, before it is cut to 64 bits. */
  function PageTotal(es: seq<Entry>): int {
    if es == [] then 0
    else
      var x := Clip(es[|es| - 1]);
      PageTotal(es[..|es| - 1]) + (if x.Nowhere? then 0 else Rounded(x).end - Rounded(x).start)
  }

  lemma ContainedBelow(s: seq<Segment>, p: nat, lim: nat)
    requires forall i :: 0 <= i < |s| ==> s[i].end <= lim
    ensures Contains(s, p) ==> p < lim
  {
  }

  /** The pages wanted. */
  ghost function WantedPages(es: seq<Entry>): set<nat> {
    if es == [] then {}
    else
      var e := es[|es| - 1];
      WantedPages(es[..|es| - 1]) + (if Clip(e).Nowhere? || StartsTooHigh(e) then {} else Range(Rounded(Clip(e)).start, Rounded(Clip(e)).end))
  }

  ghost function TooHighEntries(es: seq<Entry>): nat {
    if es == [] then 0 else TooHighEntries(es[..|es| - 1]) + (if StartsTooHigh(es[|es| - 1]) then 1 else 0)
  }

  lemma {:induction false} InWantedPages(es: seq<Entry>, p: nat)
    requires CleanMap(es)
    ensures p in WantedPages(es) <==> Wanted(es, p)
    ensures p in WantedPages(es) ==> PAGE * p + PAGE <= Limit(es)
  {
    hide Clip, Rounded, StartsTooHigh, Inside, Range, Wanted;
    if es == [] {
      NothingWanted();
    } else {
      var n := |es| - 1;
      LimitBelow(es);
      InWantedPages(es[..n], p);
      WantedStep(es, p);
      InsideLast(es[n], p);
    }
  }

  lemma InsideLast(e: Entry, p: nat)
    requires End(e) < WORD && e.size > 0
    ensures Inside(e, p) <==> Clip(e).Extent? && !StartsTooHigh(e) && p in Range(Rounded(Clip(e)).start, Rounded(Clip(e)).end)
    ensures Inside(e, p) ==> e.addr <= PAGE * p && PAGE * p + PAGE <= End(e)
  {
    hide Clip, Rounded, Range;
    ClipFacts(e);
    if Clip(e).Extent? && !StartsTooHigh(e) {
      RoundedFacts(e, p);
      RangeCount(Rounded(Clip(e)).start, Rounded(Clip(e)).end);
    }
  }

  /** What one more entry adds: its pages, less one when it is inverted by rounding, and
      nearly all pages when it starts too high. */
  lemma WantedAdded(es: seq<Entry>)
    requires CleanMap(es) && es != []
    ensures var e := es[|es| - 1];
      |WantedPages(es)| == |WantedPages(es[..|es| - 1])| +
        (if Clip(e).Nowhere? || StartsTooHigh(e) then 0 else Rounded(Clip(e)).end - Rounded(Clip(e)).start + (if RoundsInside(e) then 1 else 0))
    ensures var e := es[|es| - 1]; StartsTooHigh(e) ==> Rounded(Clip(e)) == Segment(0, LAST_PAGE)
  {
    hide Clip, Rounded, Inside, Range, Wanted;
    var n := |es| - 1;
    var e := es[n];
    LimitBelow(es);
    EndBound(es);
    if StartsTooHigh(e) {
      TooHighSegment(e);
    } else if Clip(e).Extent? {
      var x := Rounded(Clip(e));
      ClipFacts(e);
      RoundedFacts(e, 0);
      RangeCount(x.start, x.end);
      forall p | p in WantedPages(es[..n])
        ensures p !in Range(x.start, x.end)
      {
        InWantedPages(es[..n], p);
        InsideLast(e, p);
      }
      assert WantedPages(es[..n]) !! Range(x.start, x.end);
    }
  }

  lemma {:induction false} TotalOfPages(es: seq<Entry>)
    requires CleanMap(es)
    ensures PageTotal(es) == |WantedPages(es)| - InvertedEntries(es) + LAST_PAGE * TooHighEntries(es)
  {
    hide Clip, Rounded, StartsTooHigh, WantedPages;
    if es == [] {
      NoneWanted();
    } else {
      var n := |es| - 1;
      LimitBelow(es);
      TotalOfPages(es[..n]);
      WantedAdded(es);
      TooHighIsExtent(es[n]);
    }
  }

  lemma NoneWanted()
    ensures WantedPages([]) == {}
  {
  }

  lemma TooHighIsExtent(e: Entry)
    ensures StartsTooHigh(e) ==> Clip(e).Extent?
  {
  }

  lemma {:induction false} InvertedBound(es: seq<Entry>)
    ensures InvertedEntries(es) <= |es|
  {
    hide RoundsInside;
    if es != [] {
      InvertedBound(es[..|es| - 1]);
    }
  }

  lemma {:induction false} TooHighBound(es: seq<Entry>)
    ensures TooHighEntries(es) <= |es|
    ensures TooHighEntries(es) == 0 <==> NoneTooHigh(es)
  {
    hide StartsTooHigh;
    if es != [] {
      var n := |es| - 1;
      TooHighBound(es[..n]);
      assert forall i :: 0 <= i < n ==> es[..n][i] == es[i];
    }
  }

  lemma WantedBound(es: seq<Entry>)
    requires CleanMap(es)
    ensures |WantedPages(es)| <= LAST_PAGE
  {
    hide WantedPages;
    assert Limit(es) < WORD;
    forall p | p in WantedPages(es)
      ensures p < LAST_PAGE
    {
      InWantedPages(es, p);
    }
    RangeSize(WantedPages(es), 0, LAST_PAGE);
  }

  /** The page count is the number of pages wanted iff no usable entry is inverted by
      rounding and none starts inside the last page of the address space. */
  lemma CountIff(es: seq<Entry>)
    requires CleanMap(es) && |es| <= MAX_SEGMENTS
    ensures PageTotal(es) % WORD == |WantedPages(es)| <==> NoneTooHigh(es) && forall i :: 0 <= i < |es| ==> !RoundsInside(es[i])
  {
    hide RoundsInside, PageTotal, WantedPages, CleanMap, NoneTooHigh;
    TotalOfPages(es);
    WantedBound(es);
    InvertedBound(es);
    TooHighBound(es);
    NoneInverted(es);
  }

  /** The pages wanted are those in the segments, where these are exact. */
  lemma WantedAreContained(es: seq<Entry>)
    requires CleanMap(es) && NoneTooHigh(es)
    ensures WantedPages(es) == Pages(Segments(es))
  {
    hide WantedPages, Pages, Segments, Contains, Wanted;
    SegmentsExact(es);
    forall p: nat
      ensures p in WantedPages(es) <==> p in Pages(Segments(es))
    {
      InWantedPages(es, p);
      InPages(Segments(es), p);
    }
  }

  lemma {:induction false} NoneInverted(es: seq<Entry>)
    ensures InvertedEntries(es) == 0 <==> forall i :: 0 <= i < |es| ==> !RoundsInside(es[i])
  {
    hide RoundsInside;
    if es != [] {
      var n := |es| - 1;
      NoneInverted(es[..n]);
      assert forall i :: 0 <= i < n ==> es[..n][i] == es[i];
    }
  }

  // ----- the same, told from the entries alone

  /** Page p may be used: the entry is RAM (1) or ACPI (3) and holds the whole page, and the
      page is not between 640KB and 1MB, unless the entry spans all that is there. */
  ghost predicate PageOf(e: Entry, p: nat) {
    && (e.kind == 1 || e.kind == 3) && e.addr <= 4096 * p && 4096 * p + 4096 <= e.addr + e.size
    && (4096 * p + 4096 <= 0xA0000 || 0x100000 <= 4096 * p || (e.addr <= 0xA0000 && 0x100000 <= e.addr + e.size))
  }

  /** Such an entry starts in the last page of the address space. */
  ghost predicate InLastPage(e: Entry) {
    (e.kind == 1 || e.kind == 3) && e.addr + 4096 > 0x1_0000_0000_0000_0000
  }

  /** Such an entry lies strictly between two neighbouring page boundaries. */
  ghost predicate BetweenPages(e: Entry) {
    && (e.kind == 1 || e.kind == 3) && !(0xA0000 <= e.addr < 0x100000)
    && e.addr % 4096 != 0 && e.addr / 4096 == (e.addr + e.size) / 4096
  }

  lemma EntryPages(e: Entry, p: nat)
    requires End(e) < WORD && e.size > 0
    ensures Inside(e, p) <==> PageOf(e, p)
    ensures StartsTooHigh(e) <==> InLastPage(e)
  {
  }

  lemma EntryInverted(e: Entry)
    requires End(e) < WORD && e.size > 0 && !InLastPage(e)
    ensures RoundsInside(e) <==> BetweenPages(e)
  {
  }

  lemma MapPages(es: seq<Entry>)
    requires CleanMap(es)
    ensures NoneTooHigh(es) <==> forall i :: 0 <= i < |es| ==> !InLastPage(es[i])
    ensures forall p: nat :: Wanted(es, p) <==> exists i :: 0 <= i < |es| && PageOf(es[i], p)
  {
    hide StartsTooHigh, Inside, InLastPage, PageOf;
    forall i, p: nat | 0 <= i < |es|
      ensures Inside(es[i], p) <==> PageOf(es[i], p)
    {
      EntryPages(es[i], p);
    }
    forall i | 0 <= i < |es|
      ensures StartsTooHigh(es[i]) <==> InLastPage(es[i])
    {
      EntryPages(es[i], 0);
    }
  }

  /** The count is the number of these pages iff no such entry starts in the last page or
      lies between two page boundaries. */
  lemma PagesCounted(es: seq<Entry>, P: set<nat>)
    requires CleanMap(es) && |es| <= 128
    requires forall p: nat :: p in P <==> exists i :: 0 <= i < |es| && PageOf(es[i], p)
    ensures PageTotal(es) % 0x1_0000_0000_0000_0000 == |P| <==> forall i :: 0 <= i < |es| ==> !InLastPage(es[i]) && !BetweenPages(es[i])
  {
    hide StartsTooHigh, RoundsInside, Wanted, PageOf, InLastPage, BetweenPages, PageTotal, WantedPages;
    MapPages(es);
    forall p: nat
      ensures p in P <==> p in WantedPages(es)
    {
      InWantedPages(es, p);
    }
    assert P == WantedPages(es);
    CountIff(es);
    forall i | 0 <= i < |es|
      ensures !InLastPage(es[i]) ==> (RoundsInside(es[i]) <==> BetweenPages(es[i]))
    {
      if !InLastPage(es[i]) {
        EntryInverted(es[i]);
      }
    }
  }

  // ----- sorting

  ghost predicate ByStart(s: seq<Segment>) {
    forall i, j :: 0 <= i < j < |s| ==> s[i].start <= s[j].start
  }

  /** The physical memory map and its page count. */
  class PhysicalMap {
    const segs: array<Segment>
    var size: nat
    var pages: nat

    constructor ()
      ensures Valid() && size == 0 && pages == 0 && fresh(segs)
    {
      segs, size, pages := new Segment[MAX_SEGMENTS](_ => Segment(0, 0)), 0, 0;
    }

    ghost predicate Valid()
      reads this
    {
      segs.Length == MAX_SEGMENTS && size <= MAX_SEGMENTS
    }

    ghost function Contents(): seq<Segment>
      requires Valid()
      reads this, segs
    {
      segs[..size]
    }

    /** Stores a segment behind the last one and merges the two when they meet. */
    method Append(x: Segment)
      requires Valid() && size < MAX_SEGMENTS
      modifies this, segs
      ensures Valid() && Contents() == AddSegment(old(Contents()), x)
      ensures pages == (old(pages) + x.end - x.start) % WORD
    {
      segs[size] := x;
      pages := (pages + segs[size].end - segs[size].start) % WORD;
      if size > 0 && segs[size].start == segs[size - 1].end {
        segs[size - 1] := segs[size - 1].(end := segs[size].end);
      } else {
        size := size + 1;
      }
    }

    /** The whole initialisation, from the table and entry count the firmware left. The
        result es is the map without overlaps on the way. */
    method Init(table: seq<Entry>, entries: nat) returns (ghost es: seq<Entry>)
      requires Valid() && |table| == 128 && Fits(table)
      modifies this, segs
      ensures Valid() && |es| <= MAX_SEGMENTS
      ensures var orig := table[..if entries > 128 then 128 else entries];
        if Wraps(orig) then es == [] else Finished(orig, es)
      ensures multiset(Contents()) == multiset(Segments(es)) && ByStart(Contents()) && pages == PageTotal(es) % WORD
      ensures NoneTooHigh(es) ==> Contents() == Segments(es) && Exact(es, Contents())
      ensures CleanMap(es) && |es| <= 128
      ensures (forall i :: 0 <= i < |es| ==> !InLastPage(es[i])) ==>
        (forall p: nat :: Contains(Contents(), p) <==> exists i :: 0 <= i < |es| && PageOf(es[i], p)) && Merged(Contents())
    {
      hide Segments, PageTotal, Finished, Wraps, ByStart, NoneTooHigh, Exact, CleanMap, Contains, PageOf, InLastPage, Merged;
      pages := 0;
      var n := if entries > E820_MAP_SIZE then E820_MAP_SIZE else entries;
      var sane := new Entry[E820_MAP_SIZE](_ => Entry(0, 0, 0));
      var k := SanitizeMap(sane, table[..n]);
      es := sane[..k];
      FinishedIsClean(table[..n], es);
      Fill(sane[..k]);
      MapPages(es);
      if NoneTooHigh(es) {
        SegmentsExact(es);
        ExactByStart(es);
        SegmentsMerged(es);
        ExactContains(es, Segments(es));
      }
      Sort();
    }

    /** Fills the map. */
    method Fill(es: seq<Entry>)
      requires Valid() && |es| <= MAX_SEGMENTS && pages == 0
      modifies this, segs
      ensures Valid() && Contents() == Segments(es) && pages == PageTotal(es) % WORD
    {
      hide Segments, PageTotal, Clip, Rounded, AddSegment;
      NoSegments();
      size := 0;
      var i := 0;
      while i < |es|
        invariant 0 <= i <= |es| && Valid() && size <= i
        invariant Contents() == Segments(es[..i]) && pages == PageTotal(es[..i]) % WORD
      {
        SegmentsNext(es, i);
        var x := Clip(es[i]);
        if x.Extent? {
          Append(Rounded(x));
        }
        i := i + 1;
      }
      assert es[..i] == es;
    }

    /** Insertion sort by start page. */
    method Sort()
      requires Valid()
      modifies segs
      ensures ByStart(Contents()) && multiset(Contents()) == multiset(old(Contents()))
      ensures old(ByStart(Contents())) ==> Contents() == old(Contents())
    {
      hide ByStart;
      ShortIsSorted(Contents());
      assert size > 0 ==> segs[..1] == Contents()[..1];
      var i := 1;
      while i < size
        invariant 1 <= i && Valid()
        invariant if i <= size then ByStart(segs[..i]) else ByStart(segs[..size])
        invariant multiset(Contents()) == multiset(old(Contents()))
        invariant old(ByStart(Contents())) ==> Contents() == old(Contents())
      {
        Insert(i);
        i := i + 1;
      }
    }

    /** Moves the segments below i that start after x up by one place. */
    method MakeRoom(i: nat, x: Segment) returns (j: nat)
      requires Valid() && i < size
      modifies segs
      ensures j <= i && (j > 0 ==> old(segs[j - 1]).start <= x.start) && (j < i ==> old(segs[j]).start > x.start)
      ensures forall k :: 0 <= k < size && !(j < k <= i) ==> segs[k] == old(segs[k])
      ensures forall k :: j < k <= i ==> segs[k] == old(segs[k - 1])
    {
      ghost var s := segs[..];
      j := i;
      while j > 0 && segs[j - 1].start > x.start
        invariant 0 <= j <= i
        invariant forall k :: 0 <= k < size && !(j < k <= i) ==> segs[k] == s[k]
        invariant forall k :: j < k <= i ==> segs[k] == s[k - 1]
        invariant j < i ==> s[j].start > x.start
      {
        segs[j] := segs[j - 1];
        j := j - 1;
      }
    }

    /** Moves segment i down to its place among the sorted ones below it. */
    method Insert(i: nat)
      requires Valid() && 0 < i < size && ByStart(segs[..i])
      modifies segs
      ensures ByStart(segs[..i + 1]) && multiset(Contents()) == multiset(old(Contents()))
      ensures old(ByStart(Contents())) ==> Contents() == old(Contents())
    {
      hide ByStart;
      var candidate := segs[i];
      ghost var s := Contents();
      var j := MakeRoom(i, candidate);
      segs[j] := candidate;
      assert s[..i] == old(segs[..i]) && segs[..i + 1] == Contents()[..i + 1];
      assert MovedTo(s, Contents(), j, i);
      MovedDown(s, Contents(), j, i);
    }
  }

  lemma FinishedIsClean(orig: seq<Entry>, es: seq<Entry>)
    requires es == [] || Finished(orig, es)
    ensures CleanMap(es)
  {
  }

  lemma ExactByStart(es: seq<Entry>)
    requires Exact(es, Segments(es))
    ensures ByStart(Segments(es))
  {
    hide Segments, Contains, Wanted;
  }

  lemma ExactContains(es: seq<Entry>, s: seq<Segment>)
    requires Exact(es, s)
    ensures forall p: nat :: Contains(s, p) <==> Wanted(es, p)
  {
    hide Contains, Wanted;
  }

  lemma NoSegments()
    ensures Segments([]) == [] && PageTotal([]) == 0
  {
  }

  lemma SegmentsNext(es: seq<Entry>, i: nat)
    requires i < |es|
    ensures es[..0] == []
    ensures var x := Clip(es[i]);
      Segments(es[..i + 1]) == if x.Nowhere? then Segments(es[..i]) else AddSegment(Segments(es[..i]), Rounded(x))
    ensures var x := Clip(es[i]);
      PageTotal(es[..i + 1]) % WORD == if x.Nowhere? then PageTotal(es[..i]) % WORD
                                       else (PageTotal(es[..i]) % WORD + Rounded(x).end - Rounded(x).start) % WORD
  {
    hide Clip, Rounded, AddSegment;
    assert es[..i + 1][..i] == es[..i];
  }

  lemma ShortIsSorted(s: seq<Segment>)
    ensures |s| > 0 ==> ByStart(s[..1])
    ensures |s| <= 1 ==> ByStart(s)
  {
  }

  /** t is s with element i moved down to place j. */
  ghost predicate MovedTo(s: seq<Segment>, t: seq<Segment>, j: nat, i: nat) {
    && j <= i < |s| == |t| && t[j] == s[i]
    && (forall k :: 0 <= k < |s| && !(j <= k <= i) ==> t[k] == s[k])
    && forall k :: j < k <= i ==> t[k] == s[k - 1]
  }

  lemma MovedParts(s: seq<Segment>, t: seq<Segment>, j: nat, i: nat)
    requires MovedTo(s, t, j, i)
    ensures t == s[..j] + [s[i]] + s[j..i] + s[i + 1..]
  {
  }

  lemma MovedSame(s: seq<Segment>, t: seq<Segment>, j: nat, i: nat)
    requires MovedTo(s, t, j, i)
    ensures multiset(t) == multiset(s)
  {
    MovedParts(s, t, j, i);
    assert s[..i] == s[..j] + s[j..i];
    assert s == s[..i] + [s[i]] + s[i + 1..];
  }

  lemma MovedInOrder(s: seq<Segment>, t: seq<Segment>, j: nat, i: nat, k: nat, l: nat)
    requires MovedTo(s, t, j, i) && ByStart(s[..i])
    requires j > 0 ==> s[j - 1].start <= s[i].start
    requires j < i ==> s[j].start > s[i].start
    requires k < l <= i
    ensures t[k].start <= t[l].start
  {
    var u := s[..i];
    assert k < j && j - 1 != k ==> u[k].start <= u[j - 1].start;
    assert l > j && l - 1 != j ==> u[j].start <= u[l - 1].start;
    assert k != j && l != j ==> u[if k < j then k else k - 1].start <= u[if l < j then l else l - 1].start;
  }

  lemma MovedDown(s: seq<Segment>, t: seq<Segment>, j: nat, i: nat)
    requires MovedTo(s, t, j, i) && ByStart(s[..i])
    requires j > 0 ==> s[j - 1].start <= s[i].start
    requires j < i ==> s[j].start > s[i].start
    ensures multiset(t) == multiset(s) && ByStart(t[..i + 1])
    ensures ByStart(s) ==> t == s
  {
    MovedSame(s, t, j, i);
    forall k: nat, l: nat | k < l <= i
      ensures t[k].start <= t[l].start
    {
      MovedInOrder(s, t, j, i, k, l);
    }
  }
}
