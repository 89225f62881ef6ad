/** The windows through which a test runs over memory. */
module Windows {
  import opened MachineWord
  import opened MemoryPages
  import opened MemoryPoints
  import Heap

  /** 4MB in bytes and in pages, and 1GB in pages. */
  const LOW_LOAD_LIMIT: nat := 0x40_0000
  const LOW_PAGES: nat := 0x400
  const VM_WINDOW_SIZE: nat := 0x4_0000

  // ----- parts of segments

  /** The part of a segment from page lo to page hi. */
  function Cut(x: Segment, lo: nat, hi: nat): Segment {
    Segment(if x.start <= lo then lo else x.start, if x.end >= hi then hi else x.end)
  }

  /** The parts that are not empty. */
  function Cuts(s: seq<Segment>, lo: nat, hi: nat): (r: seq<Segment>)
    ensures |r| <= |s|
  {
    if s == [] then []
    else
      var x := Cut(s[|s| - 1], lo, hi);
      Cuts(s[..|s| - 1], lo, hi) + (if x.start < x.end then [x] else [])
  }

  /** How many pages a part has. */
  function Overlap(x: Segment, lo: nat, hi: nat): nat {
    var y := Cut(x, lo, hi);
    if y.start < y.end then y.end - y.start else 0
  }

  function PagesBetween(s: seq<Segment>, lo: nat, hi: nat): nat {
    if s == [] then 0 else PagesBetween(s[..|s| - 1], lo, hi) + Overlap(s[|s| - 1], lo, hi)
  }

  lemma {:induction false} CutsContain(s: seq<Segment>, lo: nat, hi: nat, p: nat)
    ensures Contains(Cuts(s, lo, hi), p) <==> Contains(s, p) && lo <= p < hi
  {
    hide Contains;
    if s == [] {
      NothingWanted();
    } else {
      var n := |s| - 1;
      CutsContain(s[..n], lo, hi, p);
      assert s == s[..n] + [s[n]];
      ContainsAppended(s[..n], s[n], p);
      ContainsAppended(Cuts(s[..n], lo, hi), Cut(s[n], lo, hi), p);
      assert Cuts(s[..n], lo, hi) + [] == Cuts(s[..n], lo, hi);
    }
  }

  /** The parts up to a page and from it on make up the whole. */
  lemma {:induction false} PagesSplit(s: seq<Segment>, lo: nat, mid: nat, hi: nat)
    requires lo <= mid <= hi
    ensures PagesBetween(s, lo, hi) == PagesBetween(s, lo, mid) + PagesBetween(s, mid, hi)
  {
    if s != [] {
      PagesSplit(s[..|s| - 1], lo, mid, hi);
    }
  }

  lemma {:induction false} NoPages(s: seq<Segment>, lo: nat, hi: nat)
    requires hi <= lo
    ensures PagesBetween(s, lo, hi) == 0 && Cuts(s, lo, hi) == []
  {
    if s != [] {
      NoPages(s[..|s| - 1], lo, hi);
    }
  }

  lemma {:induction false} PagesBeyond(s: seq<Segment>, lo: nat, hi: nat, end: nat)
    requires end <= hi && forall i :: 0 <= i < |s| ==> s[i].end <= end
    ensures PagesBetween(s, lo, hi) == PagesBetween(s, lo, end)
  {
    if s != [] {
      PagesBeyond(s[..|s| - 1], lo, hi, end);
    }
  }

  /** The pages of the segments from lo to hi. */
  ghost function PageSet(s: seq<Segment>, lo: nat, hi: nat): set<nat> {
    set p | p in Pages(s) && lo <= p < hi
  }

  /** The sum is the number of pages: segments in order share none. */
  lemma {:induction false} PagesBetweenCounts(s: seq<Segment>, lo: nat, hi: nat)
    requires InOrder(s)
    ensures PagesBetween(s, lo, hi) == |PageSet(s, lo, hi)|
  {
    hide Contains, Range;
    if s == [] {
      assert PageSet(s, lo, hi) == {};
    } else {
      var n := |s| - 1;
      PagesBetweenCounts(s[..n], lo, hi);
      var x := Cut(s[n], lo, hi);
      RangeCount(s[n].start, s[n].end);
      RangeCount(x.start, x.end);
      assert PageSet(s, lo, hi) == PageSet(s[..n], lo, hi) + Range(x.start, x.end);
      forall p | p in Pages(s[..n])
        ensures p < s[n].start
      {
        InPages(s[..n], p);
        ContainedBelow(s[..n], p, s[n].start);
      }
    }
  }

  // ----- windows within the limits

  function Max(a: nat, b: nat): nat {
    if a > b then a else b
  }

  function Min(a: nat, b: nat): nat {
    if a < b then a else b
  }

  /** Pages of the window that are within the limits. */
  ghost function WindowPages(s: seq<Segment>, lower: nat, upper: nat, a: nat, b: nat): nat {
    PagesBetween(s, Max(a, lower), Min(b, upper))
  }

  lemma WindowsAdd(s: seq<Segment>, lower: nat, upper: nat, a: nat, b: nat, c: nat)
    requires a <= b <= c
    ensures WindowPages(s, lower, upper, a, c) == WindowPages(s, lower, upper, a, b) + WindowPages(s, lower, upper, b, c)
  {
    hide PagesBetween;
    var (lo, hi) := (Max(a, lower), Min(c, upper));
    if hi <= lo {
      NoPages(s, lo, hi);
      NoPages(s, lo, Min(b, upper));
      NoPages(s, Max(b, lower), hi);
    } else if b <= lo {
      NoPages(s, lo, Min(b, upper));
    } else if hi <= b {
      NoPages(s, Max(b, lower), hi);
    } else {
      PagesSplit(s, lo, b, hi);
    }
  }

  // ----- the number of pages to test

  /** What one segment adds to the sum, before it is cut to 64 bits. */
  function Counted(x: Segment, lower: nat, upper: nat): int {
    if x.start >= lower && x.end <= upper then x.end - x.start
    else if x.start < lower then
      (if x.end < lower then 0 else if x.end > upper then upper - lower else x.end - lower)
    else if x.end > upper then
      (if x.start > upper then 0 else upper - x.start)
    else 0
  }

  function CountedPages(s: seq<Segment>, lower: nat, upper: nat): int {
    if s == [] then 0 else CountedPages(s[..|s| - 1], lower, upper) + Counted(s[|s| - 1], lower, upper)
  }

  /** The segment is inverted by rounding and starts within the limits, or one past them. */
  predicate InvertedIn(x: Segment, lower: nat, upper: nat) {
    x.start == x.end + 1 && lower <= x.start <= upper + 1
  }

  function CountInverted(s: seq<Segment>, lower: nat, upper: nat): nat {
    if s == [] then 0 else CountInverted(s[..|s| - 1], lower, upper) + (if InvertedIn(s[|s| - 1], lower, upper) then 1 else 0)
  }

  /** The sum is the number of pages within the limits, less one for each inverted
      segment. */
  lemma {:induction false} CountedIsPages(s: seq<Segment>, lower: nat, upper: nat)
    requires AtMostInverted(s) && lower <= upper
    ensures CountedPages(s, lower, upper) == PagesBetween(s, lower, upper) - CountInverted(s, lower, upper)
  {
    if s != [] {
      CountedIsPages(s[..|s| - 1], lower, upper);
    }
  }

  /** The map as the tests see it. */
  ghost predicate Listed(s: seq<Segment>) {
    && 0 < |s| <= MAX_SEGMENTS && AtMostInverted(s) && InOrder(s)
    && forall i :: 0 <= i < |s| ==> s[i].end <= s[|s| - 1].end < 0x10_0000_0000_0000
  }

  /** The map that initialisation builds is such a map. */
  lemma MapIsListed(es: seq<Entry>)
    requires CleanMap(es) && NoneTooHigh(es) && |es| <= MAX_SEGMENTS && Segments(es) != []
    ensures Listed(Segments(es))
  {
    hide Clip, StartsTooHigh, CleanMap, Segments, Contains, Wanted;
    SegmentsExact(es);
    var s := Segments(es);
    forall i: nat | i < |s|
      ensures s[i].end <= s[|s| - 1].end
    {
      if i < |s| - 1 {
        EndsAscend(es, i, |s| - 1);
      }
    }
    LimitFits(es);
  }

  /** So is every map the heaps make of it. */
  lemma ShrunkIsListed(base: seq<Segment>, cur: seq<Segment>)
    requires Listed(base) && Heap.Shrunk(base, cur)
    ensures Listed(cur)
  {
    var n := |cur| - 1;
    forall i | 0 <= i < n
      ensures cur[i].end <= cur[n].end
    {
      assert base[i].end <= base[n].start && base[i].end <= base[n].end;
    }
  }

  /** Allocations and rewinds leave a map the windows can cover. */
  lemma HeapsKeepListed(h: Heap.Heaps)
    requires h.Valid() && Listed(h.base)
    ensures Listed(h.Map())
  {
    hide Listed;
    ShrunkIsListed(h.base, h.Map());
  }

  /** One window of a test: its pages, and what was mapped for it. */
  datatype Window = Window(start: nat, end: nat, mapped: seq<Segment>, count: nat)

  /** The window from page 0 ends at 4MB, any other at the next multiple of 1GB. */
  predicate EndsAtBoundary(x: Window) {
    x.end == if x.start == 0 then 0x400 else (x.start / 0x4_0000 + 1) * 0x4_0000
  }

  /** No window is longer than 1GB, and none crosses a multiple of it. */
  lemma WindowSize(x: Window)
    requires EndsAtBoundary(x)
    ensures x.start < x.end <= x.start + 0x4_0000 && x.start / 0x4_0000 == (x.end - 1) / 0x4_0000
  {
  }

  /** Where the windows have got to. */
  ghost function Front(first: nat, w: seq<Window>): nat {
    if w == [] then first else w[|w| - 1].end
  }

  /** Consecutive windows, each mapped with its part of the memory within the limits. */
  ghost predicate Consecutive(s: seq<Segment>, lower: nat, upper: nat, first: nat, w: seq<Window>) {
    w == [] ||
    var n := |w| - 1;
    && Consecutive(s, lower, upper, first, w[..n])
    && Front(first, w[..n]) == w[n].start < w[n].end
    && w[n].mapped == Cuts(s, Max(w[n].start, lower), Min(w[n].end, upper))
  }

  lemma {:induction false} WindowAt(s: seq<Segment>, lower: nat, upper: nat, first: nat, w: seq<Window>, i: nat)
    requires Consecutive(s, lower, upper, first, w) && i < |w|
    ensures first <= w[i].start < w[i].end <= Front(first, w)
    ensures w[i].mapped == Cuts(s, Max(w[i].start, lower), Min(w[i].end, upper))
  {
    hide Cuts;
    var n := |w| - 1;
    if i < n {
      WindowAt(s, lower, upper, first, w[..n], i);
    } else if n > 0 {
      WindowAt(s, lower, upper, first, w[..n], n - 1);
    }
  }

  lemma {:induction false} WindowOf(s: seq<Segment>, lower: nat, upper: nat, first: nat, w: seq<Window>, p: nat) returns (i: nat)
    requires Consecutive(s, lower, upper, first, w) && first <= p < Front(first, w)
    ensures i < |w| && w[i].start <= p < w[i].end
  {
    hide Cuts;
    var n := |w| - 1;
    if p >= w[n].start {
      i := n;
    } else {
      i := WindowOf(s, lower, upper, first, w[..n], p);
    }
  }

  lemma {:induction false} WindowsAscend(s: seq<Segment>, lower: nat, upper: nat, first: nat, w: seq<Window>, i: nat, j: nat)
    requires Consecutive(s, lower, upper, first, w) && i < j < |w|
    ensures w[i].end <= w[j].start
  {
    hide Cuts;
    var n := |w| - 1;
    if j < n {
      WindowsAscend(s, lower, upper, first, w[..n], i, j);
    } else {
      WindowAt(s, lower, upper, first, w[..n], i);
    }
  }

  /** Of all windows only window i has page p mapped. */
  ghost predicate OnlyIn(w: seq<Window>, p: nat, i: nat) {
    i < |w| && forall j :: 0 <= j < |w| ==> (Contains(w[j].mapped, p) <==> j == i)
  }

  /** Every page of memory within the limits, from the first window on, is mapped in exactly
      one window; no other page is mapped in any. */
  lemma MappedOnce(s: seq<Segment>, lower: nat, upper: nat, first: nat, w: seq<Window>, p: nat)
    requires Listed(s) && Consecutive(s, lower, upper, first, w) && s[|s| - 1].end <= Front(first, w)
    ensures if Contains(s, p) && Max(lower, first) <= p < upper then exists i :: OnlyIn(w, p, i)
            else forall j :: 0 <= j < |w| ==> !Contains(w[j].mapped, p)
  {
    hide Contains, Cuts, Consecutive, Front;
    forall j | 0 <= j < |w|
      ensures Contains(w[j].mapped, p) <==> Contains(s, p) && Max(w[j].start, lower) <= p < Min(w[j].end, upper)
      ensures w[j].start >= first
    {
      WindowAt(s, lower, upper, first, w, j);
      CutsContain(s, Max(w[j].start, lower), Min(w[j].end, upper), p);
    }
    if Contains(s, p) && Max(lower, first) <= p < upper {
      ContainedBelow(s, p, s[|s| - 1].end);
      var i := WindowOf(s, lower, upper, first, w, p);
      forall j | 0 <= j < |w|
        ensures Contains(w[j].mapped, p) <==> j == i
      {
        if j < i {
          WindowsAscend(s, lower, upper, first, w, j, i);
        } else if j > i {
          WindowsAscend(s, lower, upper, first, w, i, j);
        }
      }
      assert OnlyIn(w, p, i);
    }
  }

  ghost function TotalMapped(w: seq<Window>): nat {
    if w == [] then 0 else TotalMapped(w[..|w| - 1]) + w[|w| - 1].count
  }

  // ----- the test loop

  class Tester {
    const memory: PhysicalMap
    var lower: nat
    var upper: nat
    var windowNum: nat
    var windowStart: nat
    var windowEnd: nat
    const vmMap: array<Segment>
    var vmMapSize: nat
    var numMapped: nat

    constructor (memory: PhysicalMap, lower: nat, upper: nat)
      requires memory.Valid()
      ensures Valid() && this.memory == memory && this.lower == lower && this.upper == upper && windowNum == 0 && fresh(vmMap)
    {
      this.memory, this.lower, this.upper := memory, lower, upper;
      windowNum, windowStart, windowEnd, vmMapSize, numMapped := 0, 0, 0, 0, 0;
      vmMap := new Segment[MAX_SEGMENTS](_ => Segment(0, 0));
    }

    ghost predicate Valid()
      reads this, memory
    {
      memory.Valid() && vmMap.Length == MAX_SEGMENTS && vmMapSize <= MAX_SEGMENTS && vmMap != memory.segs
    }

    ghost function Map(): seq<Segment>
      requires Valid()
      reads this, memory, memory.segs
    {
      memory.Contents()
    }

    ghost function Mapped(): seq<Segment>
      requires Valid()
      reads this, memory, vmMap
    {
      vmMap[..vmMapSize]
    }

    /** Adds one segment to the sum. */
    method CountSegment(n: nat, x: Segment) returns (m: nat)
      requires n < WORD && lower <= upper
      ensures m == (n + Counted(x, lower, upper)) % WORD
    {
      m := n;
      if x.start >= lower && x.end <= upper {
        m := (n + x.end - x.start) % WORD;
        return;
      }
      if x.start < lower {
        if x.end < lower {
          return;
        }
        if x.end > upper {
          m := (n + upper - lower) % WORD;
        } else {
          m := (n + x.end - lower) % WORD;
        }
        return;
      }
      if x.end > upper {
        if x.start > upper {
          return;
        }
        m := (n + upper - x.start) % WORD;
      }
    }

    /** Sums up the pages within the limits: the right number iff no inverted segment is
        counted. */
    method CountPagesToTest() returns (n: nat)
      requires Valid() && Listed(Map()) && lower <= upper
      ensures n == CountedPages(Map(), lower, upper) % WORD
      ensures n == PagesBetween(Map(), lower, upper) <==> CountInverted(Map(), lower, upper) == 0
    {
      hide Listed, CountedPages, Counted, CountInverted, PagesBetween;
      ghost var s := Map();
      CountNothing(lower, upper);
      n := 0;
      var i := 0;
      while i < memory.size
        invariant 0 <= i <= memory.size && n == CountedPages(s[..i], lower, upper) % WORD
      {
        CountNext(s, i, lower, upper);
        n := CountSegment(n, memory.segs[i]);
        i := i + 1;
      }
      assert s[..i] == s;
      SumIff(s, lower, upper);
    }

    /** Maps the part of the memory that lies in the window and within the limits. */
    method SetupVmMap(start: nat, end: nat)
      requires Valid() && Listed(Map())
      modifies this`vmMapSize, this`numMapped, vmMap
      ensures Valid() && Mapped() == Cuts(Map(), Max(start, lower), Min(end, upper))
      ensures numMapped == WindowPages(Map(), lower, upper, start, end)
    {
      hide Listed, Cuts, PagesBetween;
      ghost var s := Map();
      vmMapSize, numMapped := 0, 0;
      NoCuts(s);
      var lo := if start < lower then lower else start;
      var hi := if end > upper then upper else end;
      if lo >= hi {
        NoPages(s, lo, hi);
        return;
      }
      var i := 0;
      while i < memory.size
        invariant 0 <= i <= memory.size && Valid() && vmMapSize <= i
        invariant Mapped() == Cuts(s[..i], lo, hi) && numMapped == PagesBetween(s[..i], lo, hi)
      {
        CutsNext(s, i, lo, hi);
        var segStart, segEnd := memory.segs[i].start, memory.segs[i].end;
        if segStart <= lo {
          segStart := lo;
        }
        if segEnd >= hi {
          segEnd := hi;
        }
        if segStart < segEnd && segStart < hi && segEnd > lo {
          numMapped := numMapped + (segEnd - segStart);
          vmMap[vmMapSize] := Segment(segStart, segEnd);
          vmMapSize := vmMapSize + 1;
        }
        i := i + 1;
      }
      assert s[..i] == s;
    }

    /** The bounds of the next window; the first may be skipped. The lower limit is in pages
        and is compared with a limit in bytes, as in the source; where that skips the first
        window, the window holds nothing to test. */
    method NextBounds(stages: nat)
      modifies this`windowNum, this`windowStart, this`windowEnd
      ensures windowNum == if old(windowNum) == 0 && (stages > 1 || lower >= LOW_LOAD_LIMIT) then 1 else old(windowNum)
      ensures windowStart == if windowNum == 0 then 0 else if windowNum == 1 then LOW_PAGES else old(windowEnd)
      ensures windowEnd == if windowNum == 0 then LOW_PAGES else if windowNum == 1 then VM_WINDOW_SIZE else old(windowEnd) + VM_WINDOW_SIZE
    {
      if windowNum == 0 && stages > 1 {
        windowNum := 1;
      }
      if windowNum == 0 && lower >= LOW_LOAD_LIMIT {
        windowNum := 1;
      }
      if windowNum == 0 {
        windowStart := 0;
        windowEnd := LOW_LOAD_LIMIT / PAGE;
      } else if windowNum == 1 {
        windowStart := LOW_LOAD_LIMIT / PAGE;
        windowEnd := VM_WINDOW_SIZE;
      } else {
        windowStart := windowEnd;
        windowEnd := windowEnd + VM_WINDOW_SIZE;
      }
    }

    /** Runs a test over all windows. The result lists the windows with what was mapped in
        each; `first` is where they start. */
    method TestAllWindows(stages: nat) returns (w: seq<Window>, ghost first: nat)
      requires Valid() && Listed(Map()) && windowNum == 0
      modifies this`windowNum, this`windowStart, this`windowEnd, this`vmMapSize, this`numMapped, vmMap
      ensures Valid() && Map() == old(Map()) && w != [] && Consecutive(Map(), lower, upper, first, w)
      ensures Map()[|Map()| - 1].end <= Front(first, w)
      ensures w[0].start == first == if stages > 1 || lower >= 0x40_0000 then 0x400 else 0
      ensures forall i :: 0 <= i < |w| ==> EndsAtBoundary(w[i])
      ensures forall i :: 0 <= i < |w| ==> w[i].end - w[i].start <= 0x4_0000 && w[i].start / 0x4_0000 == (w[i].end - 1) / 0x4_0000
      ensures TotalMapped(w) == PagesBetween(Map(), Max(first, lower), upper)
      ensures stages <= 1 ==> TotalMapped(w) == PagesBetween(Map(), lower, upper)
    {
      hide Listed, Consecutive, Cuts, PagesBetween, TotalMapped, WindowPages, Front;
      ghost var s := Map();
      MapNotEmpty(s);
      first := if stages > 1 || lower >= LOW_LOAD_LIMIT then LOW_PAGES else 0;
      w := [];
      var more := true;
      NoWindows(s, lower, upper, first);
      while more
        invariant Valid() && Map() == s && Listed(s) && Consecutive(s, lower, upper, first, w)
        invariant TotalMapped(w) == WindowPages(s, lower, upper, first, Front(first, w))
        invariant w == [] ==> windowNum == 0 && more
        invariant w != [] ==> windowNum > 0 && windowEnd == Front(first, w) >= first
        invariant w != [] && windowNum == 1 ==> windowEnd == LOW_PAGES
        invariant w != [] && windowNum > 1 ==> windowEnd > 0 && windowEnd % VM_WINDOW_SIZE == 0
        invariant (forall i :: 0 <= i < |w| ==> EndsAtBoundary(w[i])) && (w != [] ==> w[0].start == first)
        invariant !more ==> s[|s| - 1].end <= windowEnd
        decreases more, w == [], if w == [] then 0 else s[|s| - 1].end - windowEnd
      {
        NextBounds(stages);
        SetupVmMap(windowStart, windowEnd);
        var x := Window(windowStart, windowEnd, vmMap[..vmMapSize], numMapped);
        NextWindow(s, lower, upper, first, w, x);
        assert EndsAtBoundary(x) by {
          if windowNum > 1 {
            NextBoundary(windowStart, windowEnd);
          }
        }
        w := w + [x];
        windowNum := windowNum + 1;
        more := windowEnd < memory.segs[memory.size - 1].end;
      }
      WindowsTotal(s, lower, upper, first, windowEnd);
      forall i | 0 <= i < |w|
        ensures w[i].end - w[i].start <= 0x4_0000 && w[i].start / 0x4_0000 == (w[i].end - 1) / 0x4_0000
      {
        WindowSize(w[i]);
      }
    }
  }

  /** Counting the pages and running a test that has one stage: the pages mapped over all
      windows are those within the limits, each once, and as many as were counted iff no
      inverted segment was. */
  method CountAndTest(t: Tester) returns (n: nat, w: seq<Window>)
    requires t.Valid() && Listed(t.Map()) && t.lower <= t.upper && t.windowNum == 0
    modifies t`windowNum, t`windowStart, t`windowEnd, t`vmMapSize, t`numMapped, t.vmMap
    ensures t.Valid() && TotalMapped(w) == |PageSet(t.Map(), t.lower, t.upper)|
    ensures TotalMapped(w) == n <==> CountInverted(t.Map(), t.lower, t.upper) == 0
    ensures forall p :: p in PageSet(t.Map(), t.lower, t.upper) ==> exists i :: OnlyIn(w, p, i)
  {
    hide Listed, TotalMapped, CountedPages, CountInverted, PagesBetween, Consecutive, OnlyIn, Pages, Contains, Front;
    n := t.CountPagesToTest();
    ghost var first;
    w, first := t.TestAllWindows(1);
    InOrderOf(t.Map());
    PagesBetweenCounts(t.Map(), t.lower, t.upper);
    forall p | p in PageSet(t.Map(), t.lower, t.upper)
      ensures exists i :: OnlyIn(w, p, i)
    {
      InPages(t.Map(), p);
      MappedOnce(t.Map(), t.lower, t.upper, first, w, p);
    }
  }

  lemma NextBoundary(start: nat, end: nat)
    requires start % VM_WINDOW_SIZE == 0 && end == start + VM_WINDOW_SIZE
    ensures end == (start / 0x4_0000 + 1) * 0x4_0000 && end % VM_WINDOW_SIZE == 0
  {
  }

  lemma InOrderOf(s: seq<Segment>)
    requires Listed(s)
    ensures InOrder(s)
  {
  }

  lemma MapNotEmpty(s: seq<Segment>)
    requires Listed(s)
    ensures s != []
  {
  }

  lemma {:induction false} InvertedFew(s: seq<Segment>, lower: nat, upper: nat)
    ensures CountInverted(s, lower, upper) <= |s|
  {
    if s != [] {
      InvertedFew(s[..|s| - 1], lower, upper);
    }
  }

  lemma NoCuts(s: seq<Segment>)
    ensures s[..0] == [] && forall lo: nat, hi: nat :: Cuts([], lo, hi) == [] && PagesBetween([], lo, hi) == 0
  {
  }

  lemma CutsNext(s: seq<Segment>, i: nat, lo: nat, hi: nat)
    requires i < |s|
    ensures var x := Cut(s[i], lo, hi);
      && Cuts(s[..i + 1], lo, hi) == (if x.start < x.end then Cuts(s[..i], lo, hi) + [x] else Cuts(s[..i], lo, hi))
      && PagesBetween(s[..i + 1], lo, hi) == PagesBetween(s[..i], lo, hi) + (if x.start < x.end then x.end - x.start else 0)
  {
    assert s[..i + 1][..i] == s[..i];
  }

  lemma CountNothing(lower: nat, upper: nat)
    ensures CountedPages([], lower, upper) == 0
  {
  }

  lemma CountNext(s: seq<Segment>, i: nat, lower: nat, upper: nat)
    requires i < |s|
    ensures s[..0] == []
    ensures CountedPages(s[..i + 1], lower, upper) % WORD == (CountedPages(s[..i], lower, upper) % WORD + Counted(s[i], lower, upper)) % WORD
  {
    hide Counted;
    assert s[..i + 1][..i] == s[..i];
    AddModulo(CountedPages(s[..i], lower, upper), Counted(s[i], lower, upper));
  }

  lemma AddModulo(c: int, d: int)
    ensures (c % WORD + d) % WORD == (c + d) % WORD
  {
  }

  lemma {:induction false} SumBound(s: seq<Segment>, lo: nat, hi: nat)
    requires forall i :: 0 <= i < |s| ==> s[i].end < 0x10_0000_0000_0000
    ensures PagesBetween(s, lo, hi) <= 0x10_0000_0000_0000 * |s|
  {
    if s != [] {
      SumBound(s[..|s| - 1], lo, hi);
    }
  }

  lemma SumIff(s: seq<Segment>, lower: nat, upper: nat)
    requires Listed(s) && lower <= upper
    ensures CountedPages(s, lower, upper) % WORD == PagesBetween(s, lower, upper) <==> CountInverted(s, lower, upper) == 0
  {
    hide CountedPages, CountInverted, PagesBetween;
    CountedIsPages(s, lower, upper);
    InvertedFew(s, lower, upper);
    SumBound(s, lower, upper);
  }

  lemma NoWindows(s: seq<Segment>, lower: nat, upper: nat, first: nat)
    ensures Consecutive(s, lower, upper, first, []) && Front(first, []) == first
    ensures TotalMapped([]) == WindowPages(s, lower, upper, first, first) == 0
  {
    NoPages(s, Max(first, lower), Min(first, upper));
  }

  lemma NextWindow(s: seq<Segment>, lower: nat, upper: nat, first: nat, w: seq<Window>, x: Window)
    requires Consecutive(s, lower, upper, first, w) && Front(first, w) == x.start < x.end
    requires x.mapped == Cuts(s, Max(x.start, lower), Min(x.end, upper)) && x.count == WindowPages(s, lower, upper, x.start, x.end)
    requires first <= x.start && TotalMapped(w) == WindowPages(s, lower, upper, first, x.start)
    ensures Consecutive(s, lower, upper, first, w + [x]) && Front(first, w + [x]) == x.end
    ensures TotalMapped(w + [x]) == WindowPages(s, lower, upper, first, x.end)
  {
    hide Cuts, WindowPages;
    assert (w + [x])[..|w|] == w;
    WindowsAdd(s, lower, upper, first, x.start, x.end);
  }

  /** Windows that reach past the last segment hold all pages from the first window on. */
  lemma WindowsTotal(s: seq<Segment>, lower: nat, upper: nat, first: nat, end: nat)
    requires Listed(s) && s[|s| - 1].end <= end
    ensures WindowPages(s, lower, upper, first, end) == PagesBetween(s, Max(first, lower), upper)
  {
    hide PagesBetween;
    if upper > end {
      PagesBeyond(s, Max(first, lower), upper, s[|s| - 1].end);
      PagesBeyond(s, Max(first, lower), end, s[|s| - 1].end);
    }
  }
}
