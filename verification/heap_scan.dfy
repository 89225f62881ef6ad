/** The scan that chooses a segment for each heap. */
module HeapScan {
  import opened MachineWord
  import opened MemoryPoints
  import opened MemoryPages

  /** A heap: the index of its segment, or -1, and its first page and the page after its
      last. */
  datatype Area = Area(segment: int, start: nat, end: nat)

  const NO_AREA := Area(-1, 0, 0)
  const LOW_LIMIT: nat := 0x100
  const HEAP_LIMIT: nat := 0x10_0000

  /** What the scan over the segments has chosen. */
  datatype Choice = Choice(most: nat, low: Area, high: Area)

  /** Where a heap in segment x may start: after the program, when it lies in the segment. */
  function HeapStart(x: Segment, programStart: nat, programEnd: nat): nat {
    if programStart >= x.start && programEnd <= x.end then programEnd else x.start
  }

  /** The size of the heap segment x could hold, in 64-bit arithmetic. */
  function HeapSize(x: Segment, programStart: nat, programEnd: nat): nat {
    (x.end - HeapStart(x, programStart, programEnd)) % WORD
  }

  /** One step of the scan. */
  function Consider(c: Choice, x: Segment, i: nat, programStart: nat, programEnd: nat): Choice {
    var size := HeapSize(x, programStart, programEnd);
    var area := Area(i, HeapStart(x, programStart, programEnd), x.end);
    if size >= c.most then Choice(size, if x.end <= LOW_LIMIT then area else c.low, area) else c
  }

  /** The choice after the first n segments. */
  function Chosen(s: seq<Segment>, n: nat, programStart: nat, programEnd: nat): Choice
    requires n <= |s|
  {
    if n == 0 then Choice(0, NO_AREA, NO_AREA)
    else Consider(Chosen(s, n - 1, programStart, programEnd), s[n - 1], n - 1, programStart, programEnd)
  }

  /** How many segments the scan sees, from the i-th on: it stops at the first that ends
      above the limit. */
  function Scanned(s: seq<Segment>, i: nat): (n: nat)
    requires i <= |s|
    ensures i <= n <= |s| && (forall k :: i <= k < n ==> s[k].end <= HEAP_LIMIT) && (n < |s| ==> s[n].end > HEAP_LIMIT)
    decreases |s| - i
  {
    if i < |s| && s[i].end <= HEAP_LIMIT then Scanned(s, i + 1) else i
  }

  // ----- what the scan finds

  /** The memory map when the heaps are made. */
  ghost predicate OrderedMap(s: seq<Segment>) {
    InOrder(s) && AtMostInverted(s) && forall i :: 0 <= i < |s| ==> s[i].end < WORD / PAGE
  }

  /** An area for one of the first n segments, outside the program and below the limit. */
  ghost predicate AreaFor(s: seq<Segment>, n: nat, limit: nat, a: Area, programStart: nat, programEnd: nat)
    requires n <= |s|
  {
    && 0 <= a.segment < n && a.end <= limit
    && a == Area(a.segment, HeapStart(s[a.segment], programStart, programEnd), s[a.segment].end)
  }

  /** The area has the largest 64-bit size among those that end at or below the limit, and
      is the last of this size; there is none iff no segment ends there. */
  ghost predicate Largest(s: seq<Segment>, n: nat, limit: nat, a: Area, programStart: nat, programEnd: nat)
    requires n <= |s|
  {
    && (a == NO_AREA || AreaFor(s, n, limit, a, programStart, programEnd))
    && forall i :: 0 <= i < n && s[i].end <= limit ==>
         && a != NO_AREA && HeapSize(s[i], programStart, programEnd) <= HeapSize(s[a.segment], programStart, programEnd)
         && (i > a.segment ==> HeapSize(s[i], programStart, programEnd) < HeapSize(s[a.segment], programStart, programEnd))
  }

  /** One more segment, for a heap with this limit. */
  lemma LargestNext(s: seq<Segment>, n: nat, limit: nat, a: Area, programStart: nat, programEnd: nat)
    requires n < |s| && Largest(s, n, limit, a, programStart, programEnd)
    ensures var x := s[n]; var size := HeapSize(x, programStart, programEnd);
      if x.end <= limit && (a == NO_AREA || size >= HeapSize(s[a.segment], programStart, programEnd))
      then Largest(s, n + 1, limit, Area(n, HeapStart(x, programStart, programEnd), x.end), programStart, programEnd)
      else Largest(s, n + 1, limit, a, programStart, programEnd)
  {
    hide HeapSize, HeapStart;
  }

  /** The 64-bit size of a proper segment is its page count; that of an inverted one is the
      largest there is. */
  lemma SizeOf(x: Segment, programStart: nat, programEnd: nat)
    requires x.start <= x.end + 1 && x.end < WORD / PAGE && programStart <= programEnd
    ensures if x.start <= x.end
            then HeapStart(x, programStart, programEnd) <= x.end && HeapSize(x, programStart, programEnd) == x.end - HeapStart(x, programStart, programEnd)
            else HeapStart(x, programStart, programEnd) == x.end + 1 && HeapSize(x, programStart, programEnd) == WORD - 1
    ensures HeapStart(x, programStart, programEnd) >= x.start
  {
  }

  /** A segment that is not at least as large as all before it is proper, so the ones before
      it end at or below its end. */
  lemma EndsBefore(s: seq<Segment>, n: nat, programStart: nat, programEnd: nat)
    requires OrderedMap(s) && n < |s| && programStart <= programEnd && HeapSize(s[n], programStart, programEnd) < WORD - 1
    ensures forall i :: 0 <= i < n ==> s[i].end <= s[n].end
  {
    hide HeapSize, HeapStart;
    SizeOf(s[n], programStart, programEnd);
  }

  /** The scan finds the largest 64-bit size for each heap. */
  lemma {:induction false} ScanFindsLargest(s: seq<Segment>, n: nat, programStart: nat, programEnd: nat)
    requires OrderedMap(s) && n <= |s| && programStart <= programEnd && forall i :: 0 <= i < n ==> s[i].end <= HEAP_LIMIT
    ensures var c := Chosen(s, n, programStart, programEnd);
      && Largest(s, n, HEAP_LIMIT, c.high, programStart, programEnd)
      && Largest(s, n, LOW_LIMIT, c.low, programStart, programEnd)
      && c.most == (if c.high == NO_AREA then 0 else HeapSize(s[c.high.segment], programStart, programEnd)) < WORD
      && ((forall i :: 0 <= i < n ==> s[i].end <= LOW_LIMIT) ==> c.low == c.high)
  {
    hide HeapSize, HeapStart, OrderedMap;
    if n > 0 {
      ScanFindsLargest(s, n - 1, programStart, programEnd);
      var c := Chosen(s, n - 1, programStart, programEnd);
      LargestNext(s, n - 1, HEAP_LIMIT, c.high, programStart, programEnd);
      LargestNext(s, n - 1, LOW_LIMIT, c.low, programStart, programEnd);
      SizeBound(s[n - 1], programStart, programEnd);
      if HeapSize(s[n - 1], programStart, programEnd) < c.most {
        EndsBefore(s, n - 1, programStart, programEnd);
      }
    }
  }

  lemma SizeBound(x: Segment, programStart: nat, programEnd: nat)
    ensures HeapSize(x, programStart, programEnd) < WORD
  {
  }

  // ----- the same, told from the segments alone

  /** The pages of a segment behind the program, when it lies in the segment, or all. */
  function Room(x: Segment, programStart: nat, programEnd: nat): int {
    x.end - (if x.start <= programStart && programEnd <= x.end then programEnd else x.start)
  }

  /** The area of a heap: it ends with its segment, at or below the limit, and starts behind
      the program, when that lies in the segment, or with the segment; no proper segment in
      question has more room, and no later one as much, unless the area is that of an
      inverted one. A segment is in
      question when it ends at or below the limit and no segment up to it ends above 4GB. */
  ghost predicate AreaChosen(s: seq<Segment>, a: Area, limit: nat, programStart: nat, programEnd: nat) {
    && (a == Area(-1, 0, 0) ||
        (0 <= a.segment < |s| && a.end == s[a.segment].end <= limit && a.end - a.start == Room(s[a.segment], programStart, programEnd)))
    && forall i :: 0 <= i < |s| && s[i].end <= limit && (forall k :: 0 <= k <= i ==> s[k].end <= 0x10_0000) ==>
         a.segment >= 0 && (a.start == a.end + 1 || (s[i].start <= s[i].end ==> NoBetter(Room(s[i], programStart, programEnd), i, a)))
  }

  predicate NoBetter(room: int, i: nat, a: Area) {
    room <= a.end - a.start && (i > a.segment ==> room < a.end - a.start)
  }

  lemma LargestIsChosen(s: seq<Segment>, n: nat, limit: nat, a: Area, programStart: nat, programEnd: nat)
    requires OrderedMap(s) && programStart <= programEnd && n == Scanned(s, 0)
    requires Largest(s, n, limit, a, programStart, programEnd)
    ensures AreaChosen(s, a, limit, programStart, programEnd)
  {
    hide HeapSize, HeapStart, InOrder, Room;
    if a != NO_AREA {
      SizeOf(s[a.segment], programStart, programEnd);
      RoomIs(s[a.segment], programStart, programEnd);
    }
    forall i | 0 <= i < |s| && s[i].end <= limit && (forall k :: 0 <= k <= i ==> s[k].end <= 0x10_0000)
      ensures a.segment >= 0 && (a.start == a.end + 1 || (s[i].start <= s[i].end ==> NoBetter(Room(s[i], programStart, programEnd), i, a)))
    {
      assert i < n;
      SizeOf(s[i], programStart, programEnd);
      RoomIs(s[i], programStart, programEnd);
    }
  }

  lemma RoomIs(x: Segment, programStart: nat, programEnd: nat)
    ensures Room(x, programStart, programEnd) == x.end - HeapStart(x, programStart, programEnd)
  {
  }

  // ----- when that is the segment with most pages

  /** The pages a heap in segment x really has. */
  function Offer(x: Segment, programStart: nat, programEnd: nat): nat {
    var start := HeapStart(x, programStart, programEnd);
    if start <= x.end then x.end - start else 0
  }

  /** No segment that was seen and ends at or below the limit has more pages to offer. */
  ghost predicate MostPages(s: seq<Segment>, n: nat, limit: nat, a: Area, programStart: nat, programEnd: nat)
    requires n <= |s|
  {
    forall i :: 0 <= i < n && s[i].end <= limit ==>
      0 <= a.segment < |s| && Offer(s[i], programStart, programEnd) <= Offer(s[a.segment], programStart, programEnd)
  }

  ghost predicate NoneInverted(s: seq<Segment>, n: nat, limit: nat)
    requires n <= |s|
  {
    forall i :: 0 <= i < n && s[i].end <= limit ==> s[i].start <= s[i].end
  }

  ghost predicate NothingToOffer(s: seq<Segment>, n: nat, limit: nat, programStart: nat, programEnd: nat)
    requires n <= |s|
  {
    forall i :: 0 <= i < n && s[i].end <= limit ==> Offer(s[i], programStart, programEnd) == 0
  }

  /** An inverted segment below the limit wins over every proper one. */
  lemma InvertedWins(s: seq<Segment>, n: nat, limit: nat, a: Area, i: nat, programStart: nat, programEnd: nat)
    requires OrderedMap(s) && n <= |s| && programStart <= programEnd && Largest(s, n, limit, a, programStart, programEnd)
    requires i < n && s[i].end <= limit && s[i].start > s[i].end
    ensures AreaFor(s, n, limit, a, programStart, programEnd) && a.start == a.end + 1 && Offer(s[a.segment], programStart, programEnd) == 0
  {
    hide HeapSize, HeapStart, InOrder;
    SizeOf(s[i], programStart, programEnd);
    SizeOf(s[a.segment], programStart, programEnd);
  }

  /** The area with the largest 64-bit size has most pages iff no segment in question is
      inverted by rounding, or none has a page to offer. */
  lemma LargestHasMostPagesIff(s: seq<Segment>, n: nat, limit: nat, a: Area, programStart: nat, programEnd: nat)
    requires OrderedMap(s) && n <= |s| && programStart <= programEnd && Largest(s, n, limit, a, programStart, programEnd)
    ensures MostPages(s, n, limit, a, programStart, programEnd) <==>
            NoneInverted(s, n, limit) || NothingToOffer(s, n, limit, programStart, programEnd)
  {
    hide HeapSize, HeapStart, InOrder;
    forall i | 0 <= i < n
      ensures s[i].start <= s[i].end ==> Offer(s[i], programStart, programEnd) == HeapSize(s[i], programStart, programEnd)
      ensures s[i].start > s[i].end ==> Offer(s[i], programStart, programEnd) == 0
    {
      SizeOf(s[i], programStart, programEnd);
    }
    if !NoneInverted(s, n, limit) {
      var i :| 0 <= i < n && s[i].end <= limit && s[i].start > s[i].end;
      InvertedWins(s, n, limit, a, i, programStart, programEnd);
    }
  }

  /** What the scan chooses has most pages, for each heap, iff no segment the scan sees below
      the heap's limit is inverted by rounding, or none has a page to offer. */
  lemma ScanFindsMostPagesIff(s: seq<Segment>, programStart: nat, programEnd: nat)
    requires OrderedMap(s) && programStart <= programEnd
    ensures var n := Scanned(s, 0); var c := Chosen(s, n, programStart, programEnd);
      && (MostPages(s, n, HEAP_LIMIT, c.high, programStart, programEnd) <==>
          NoneInverted(s, n, HEAP_LIMIT) || NothingToOffer(s, n, HEAP_LIMIT, programStart, programEnd))
      && (MostPages(s, n, LOW_LIMIT, c.low, programStart, programEnd) <==>
          NoneInverted(s, n, LOW_LIMIT) || NothingToOffer(s, n, LOW_LIMIT, programStart, programEnd))
  {
    hide Chosen, Largest, MostPages, NoneInverted, NothingToOffer, OrderedMap;
    var n := Scanned(s, 0);
    var c := Chosen(s, n, programStart, programEnd);
    ScanFindsLargest(s, n, programStart, programEnd);
    LargestHasMostPagesIff(s, n, HEAP_LIMIT, c.high, programStart, programEnd);
    LargestHasMostPagesIff(s, n, LOW_LIMIT, c.low, programStart, programEnd);
  }

  /** The map that initialisation builds can be scanned, and no segment that ends at or below
      the limit is missed. */
  lemma StartUpMap(es: seq<Entry>, i: nat)
    requires CleanMap(es) && NoneTooHigh(es)
    ensures OrderedMap(Segments(es))
    ensures i < |Segments(es)| && Segments(es)[i].end <= HEAP_LIMIT ==> i < Scanned(Segments(es), 0)
  {
    hide Clip, StartsTooHigh, CleanMap, NoneTooHigh, Segments, Contains, Wanted;
    SegmentsExact(es);
    LimitFits(es);
    var s := Segments(es);
    var n := Scanned(s, 0);
    if n < i < |s| {
      EndsAscend(es, n, i);
    }
  }

  /** A firmware map with a RAM entry inside one page, and a megabyte of RAM above: both
      heaps get the empty, inverted segment. */
  lemma InvertedChosen(programStart: nat, programEnd: nat)
    requires programStart <= programEnd
    ensures var es := [Entry(0x1100, 0x100, 1), Entry(0x10_0000, 0x10_0000, 1)]; var s := Segments(es);
      && CleanMap(es) && NoneTooHigh(es) && s == [Segment(2, 1), Segment(0x100, 0x200)] && Scanned(s, 0) == 2
      && Chosen(s, 2, programStart, programEnd).low == Chosen(s, 2, programStart, programEnd).high == Area(0, 2, 1)
  {
    var es := [Entry(0x1100, 0x100, 1), Entry(0x10_0000, 0x10_0000, 1)];
    assert es[..1] == [Entry(0x1100, 0x100, 1)] && es[..1][..0] == [];
    assert Segments(es[..1]) == [Segment(2, 1)];
    var s := Segments(es);
    assert s == [Segment(2, 1), Segment(0x100, 0x200)];
    SizeOf(s[0], programStart, programEnd);
    SizeOf(s[1], programStart, programEnd);
    assert Chosen(s, 1, programStart, programEnd) == Choice(WORD - 1, Area(0, 2, 1), Area(0, 2, 1));
  }
}
