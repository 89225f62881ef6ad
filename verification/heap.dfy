/** The two heaps that take pages away from the physical memory map. */
module Heap {
  import opened MachineWord
  import opened Bits
  import opened MemoryPages
  import opened HeapPages
  import opened HeapScan

  /** Pages that a heap handed out. */
  datatype Chunk = Chunk(heap: nat, segment: nat, lo: nat, hi: nat)

  // ----- what the heaps keep

  /** The map is the original one, but for pages taken from the ends of segments. */
  ghost predicate Shrunk(base: seq<Segment>, cur: seq<Segment>) {
    && |base| == |cur|
    && forall i :: 0 <= i < |cur| ==>
         && cur[i].start == base[i].start && cur[i].end <= base[i].end < WORD / PAGE
         && (cur[i].start <= cur[i].end || cur[i].end == base[i].end)
  }

  /** The heap lies in its segment, or the segment is inverted by rounding and the heap is
      empty for good. */
  ghost predicate AreaFine(base: seq<Segment>, cur: seq<Segment>, a: Area)
    requires |base| == |cur|
  {
    a == NO_AREA ||
    (0 <= a.segment < |cur| && base[a.segment].start <= a.start && base[a.segment].end == a.end
     && (a.start <= cur[a.segment].end || a.start == a.end + 1))
  }

  /** Chunks lie above the end of their segment and do not meet within it. */
  ghost predicate ChunksFine(base: seq<Segment>, cur: seq<Segment>, held: set<Chunk>)
    requires |base| == |cur|
  {
    && (forall k :: k in held ==> k.segment < |cur| && cur[k.segment].start <= k.lo && cur[k.segment].end <= k.lo < k.hi <= base[k.segment].end)
    && forall k, l :: k in held && l in held && k != l && k.segment == l.segment ==> k.hi <= l.lo || l.hi <= k.lo
  }

  /** Marks lie above the end of their segment and cut no chunk. */
  ghost predicate MarksFine(base: seq<Segment>, cur: seq<Segment>, held: set<Chunk>, marks: set<(nat, nat)>)
    requires |base| == |cur|
  {
    && (forall m :: m in marks ==> m.0 < |cur| && cur[m.0].end <= m.1 <= base[m.0].end)
    && forall m, k :: m in marks && k in held && k.segment == m.0 ==> k.hi <= m.1 || m.1 <= k.lo
  }

  /** Chunks share no page with each other, whatever heaps they came from, nor with the pages
      left for testing. */
  ghost predicate Apart(cur: seq<Segment>, chunks: set<Chunk>) {
    && (forall k, l :: k in chunks && l in chunks && k != l ==> k.hi <= l.lo || l.hi <= k.lo)
    && forall k, p :: k in chunks && k.lo <= p < k.hi ==> !Contains(cur, p)
  }

  lemma Separation(base: seq<Segment>, cur: seq<Segment>, held: set<Chunk>)
    requires InOrder(base) && Shrunk(base, cur) && ChunksFine(base, cur, held)
    ensures Apart(cur, held)
  {
    forall k, p | k in held && k.lo <= p < k.hi
      ensures !Contains(cur, p)
    {
      forall i | 0 <= i < |cur|
        ensures !(cur[i].start <= p < cur[i].end)
      {
        assert i < k.segment ==> base[i].end <= base[k.segment].start;
        assert i > k.segment ==> base[k.segment].end <= base[i].start;
      }
    }
  }

  /** What an allocation hands out. */
  ghost function Taken(heap: nat, g: nat, r: nat, n: nat): set<Chunk> {
    if n == 0 then {} else {Chunk(heap, g, r, r + n)}
  }

  lemma AllocKeeps(base: seq<Segment>, cur: seq<Segment>, held: set<Chunk>, marks: set<(nat, nat)>, heap: nat, g: nat, r: nat, n: nat)
    requires Shrunk(base, cur) && ChunksFine(base, cur, held) && MarksFine(base, cur, held, marks)
    requires g < |cur| && cur[g].start <= r && r + n <= cur[g].end
    ensures var now := cur[g := cur[g].(end := r)]; var more := held + Taken(heap, g, r, n);
      Shrunk(base, now) && ChunksFine(base, now, more) && MarksFine(base, now, more, marks)
  {
  }

  /** Chunks that keep their pages when segment g is rewound to page m. */
  ghost function Kept(held: set<Chunk>, g: nat, m: nat): set<Chunk> {
    set k | k in held && !(k.segment == g && k.lo < m)
  }

  /** Chunks still in use after a heap is rewound: only its own are given up. */
  ghost function StillInUse(live: set<Chunk>, heap: nat, g: nat, m: nat): set<Chunk> {
    set k | k in live && !(k.heap == heap && k.segment == g && k.lo < m)
  }

  /** Marks that are not undercut by a rewind of segment g to page m. */
  ghost function ValidMarks(marks: set<(nat, nat)>, g: nat, m: nat): set<(nat, nat)> {
    set x | x in marks && !(x.0 == g && x.1 < m)
  }

  lemma RewindKeeps(base: seq<Segment>, cur: seq<Segment>, held: set<Chunk>, marks: set<(nat, nat)>, g: nat, m: nat)
    requires Shrunk(base, cur) && ChunksFine(base, cur, held) && MarksFine(base, cur, held, marks)
    requires (g, m) in marks && m > cur[g].end
    ensures var now := cur[g := cur[g].(end := m)]; var kept := Kept(held, g, m); var valid := ValidMarks(marks, g, m);
      Shrunk(base, now) && ChunksFine(base, now, kept) && MarksFine(base, now, kept, valid)
  {
  }

  // ----- a rewind of one heap and the chunks of the other

  /** No chunk of the other heap lies in the segment below the mark. */
  ghost predicate OtherClear(live: set<Chunk>, heap: nat, g: nat, m: nat) {
    forall k :: k in live && k.segment == g && k.heap != heap ==> m <= k.lo
  }

  /** A rewind leaves every chunk in use its pages iff no chunk of the other heap lies below
      the mark; in particular when the heaps are in different segments. Otherwise pages in
      use are back in the map. */
  lemma RewindSafeIff(base: seq<Segment>, cur: seq<Segment>, live: set<Chunk>, marks: set<(nat, nat)>, heap: nat, g: nat, m: nat)
    requires InOrder(base) && Shrunk(base, cur) && ChunksFine(base, cur, live) && MarksFine(base, cur, live, marks)
    requires (g, m) in marks && g < |cur| && cur[g].end < m
    ensures var now := cur[g := cur[g].(end := m)]; var used := StillInUse(live, heap, g, m);
      && (Apart(now, used) <==> OtherClear(live, heap, g, m))
      && (used == Kept(live, g, m) <==> OtherClear(live, heap, g, m))
  {
    hide InOrder, Apart, Contains, ChunksFine, MarksFine;
    var now := cur[g := cur[g].(end := m)];
    RewindKeeps(base, cur, live, marks, g, m);
    if OtherClear(live, heap, g, m) {
      assert StillInUse(live, heap, g, m) == Kept(live, g, m);
      Separation(base, now, Kept(live, g, m));
    } else {
      var k :| k in live && k.segment == g && k.heap != heap && k.lo < m;
      assert k in StillInUse(live, heap, g, m) && k !in Kept(live, g, m);
      PageReturned(base, cur, live, k, m);
      NotApart(now, StillInUse(live, heap, g, m), k);
    }
  }

  lemma PageReturned(base: seq<Segment>, cur: seq<Segment>, live: set<Chunk>, k: Chunk, m: nat)
    requires |base| == |cur| && ChunksFine(base, cur, live) && k in live && k.lo < m
    ensures k.lo < k.hi && Contains(cur[k.segment := cur[k.segment].(end := m)], k.lo)
  {
    var now := cur[k.segment := cur[k.segment].(end := m)];
    assert now[k.segment].start <= k.lo < now[k.segment].end;
  }

  lemma NotApart(cur: seq<Segment>, chunks: set<Chunk>, k: Chunk)
    requires k in chunks && k.lo < k.hi && Contains(cur, k.lo)
    ensures !Apart(cur, chunks)
  {
  }

  /** Rewinding both heaps to marks taken at the same page, as the xHCI driver does, gives
      up exactly the chunks that lose their pages. */
  lemma RewindBoth(live: set<Chunk>, g: nat, m: nat)
    requires forall k :: k in live ==> k.heap < 2
    ensures StillInUse(StillInUse(live, 0, g, m), 1, g, m) == Kept(live, g, m) == Kept(Kept(live, g, m), g, m)
  {
  }

  /** The chunk lies in the area. */
  ghost predicate InArea(k: Chunk, a: Area) {
    k.segment == a.segment && a.start <= k.lo && k.hi <= a.end
  }

  /** Every chunk comes from the area of its heap. */
  ghost predicate FromAreas(live: set<Chunk>, low: Area, high: Area) {
    forall k :: k in live ==> k.heap < 2 && InArea(k, if k.heap == 0 then low else high)
  }

  // ----- the running program

  /** Pages of the program in the heap's segment lie below the heap. */
  ghost predicate BehindProgram(base: seq<Segment>, a: Area, programStart: nat, programEnd: nat) {
    0 <= a.segment < |base| && base[a.segment].start <= programStart && programEnd <= base[a.segment].end ==> programEnd <= a.start
  }

  /** When the program lies in a segment of the map, no chunk meets it. */
  ghost predicate ProgramClear(base: seq<Segment>, chunks: set<Chunk>, programStart: nat, programEnd: nat) {
    forall i, k :: 0 <= i < |base| && base[i].start <= programStart && programEnd <= base[i].end && k in chunks ==>
      k.hi <= programStart || programEnd <= k.lo
  }

  lemma ProgramSafe(base: seq<Segment>, cur: seq<Segment>, live: set<Chunk>, low: Area, high: Area, programStart: nat, programEnd: nat)
    requires InOrder(base) && FromAreas(live, low, high) && |base| == |cur| && programStart <= programEnd
    requires AreaFine(base, cur, low) && BehindProgram(base, low, programStart, programEnd)
    requires AreaFine(base, cur, high) && BehindProgram(base, high, programStart, programEnd)
    ensures ProgramClear(base, live, programStart, programEnd)
  {
    forall i, k | 0 <= i < |base| && base[i].start <= programStart && programEnd <= base[i].end && k in live
      ensures k.hi <= programStart || programEnd <= k.lo
    {
      assert InArea(k, if k.heap == 0 then low else high);
      assert k.segment < i ==> base[k.segment].end <= base[i].start;
      assert i < k.segment ==> base[i].end <= base[k.segment].start;
    }
  }

  // ----- all of it together

  /** What every operation on the heaps keeps. */
  ghost predicate Consistent(base: seq<Segment>, cur: seq<Segment>, low: Area, high: Area, live: set<Chunk>, held: set<Chunk>,
                             marks: set<(nat, nat)>, programStart: nat, programEnd: nat) {
    && InOrder(base) && Shrunk(base, cur) && programStart <= programEnd
    && AreaFine(base, cur, low) && BehindProgram(base, low, programStart, programEnd)
    && AreaFine(base, cur, high) && BehindProgram(base, high, programStart, programEnd)
    && (low.segment == high.segment ==> low == high)
    && held <= live && FromAreas(live, low, high)
    && ChunksFine(base, cur, held) && MarksFine(base, cur, held, marks)
  }

  ghost predicate AreaInMap(base: seq<Segment>, cur: seq<Segment>, a: Area) {
    a == NO_AREA ||
    (0 <= a.segment < |cur| == |base| && cur[a.segment].start <= a.start && cur[a.segment].end <= a.end == base[a.segment].end < WORD / PAGE)
  }

  lemma ConsistentFacts(base: seq<Segment>, cur: seq<Segment>, low: Area, high: Area, live: set<Chunk>, held: set<Chunk>,
                        marks: set<(nat, nat)>, programStart: nat, programEnd: nat)
    requires Consistent(base, cur, low, high, live, held, marks, programStart, programEnd)
    ensures Apart(cur, held) && ProgramClear(base, live, programStart, programEnd)
    ensures AreaInMap(base, cur, low) && AreaInMap(base, cur, high)
  {
    hide ChunksFine, MarksFine, Apart, FromAreas, BehindProgram, ProgramClear;
    Separation(base, cur, held);
    ProgramSafe(base, cur, live, low, high, programStart, programEnd);
  }

  lemma AllocConsistent(base: seq<Segment>, cur: seq<Segment>, low: Area, high: Area, live: set<Chunk>, held: set<Chunk>,
                        marks: set<(nat, nat)>, programStart: nat, programEnd: nat, heap: nat, r: nat, n: nat)
    requires Consistent(base, cur, low, high, live, held, marks, programStart, programEnd) && heap < 2
    requires var a := if heap == 0 then low else high; 0 <= a.segment < |cur| && a.start <= r && r + n <= cur[a.segment].end
    ensures var g := (if heap == 0 then low else high).segment; var more := Taken(heap, g, r, n);
      Consistent(base, cur[g := Segment(cur[g].start, r)], low, high, live + more, held + more, marks, programStart, programEnd)
  {
    hide InOrder, ChunksFine, MarksFine, FromAreas, BehindProgram, Taken;
    var g := (if heap == 0 then low else high).segment;
    AllocKeeps(base, cur, held, marks, heap, g, r, n);
    TakenFrom(live, low, high, heap, g, r, n);
  }

  lemma RewindConsistent(base: seq<Segment>, cur: seq<Segment>, low: Area, high: Area, live: set<Chunk>, held: set<Chunk>,
                         marks: set<(nat, nat)>, programStart: nat, programEnd: nat, heap: nat, m: nat)
    requires Consistent(base, cur, low, high, live, held, marks, programStart, programEnd) && heap < 2
    requires var a := if heap == 0 then low else high; 0 <= a.segment < |cur| && cur[a.segment].end < m <= a.end && (a.segment as nat, m) in marks
    ensures var g := (if heap == 0 then low else high).segment; var now := cur[g := Segment(cur[g].start, m)];
      && Consistent(base, now, low, high, StillInUse(live, heap, g, m), Kept(held, g, m), ValidMarks(marks, g, m), programStart, programEnd)
      && (live == held ==> (Apart(now, StillInUse(live, heap, g, m)) <==> OtherClear(live, heap, g, m)))
      && (live == held ==> (StillInUse(live, heap, g, m) == Kept(held, g, m) <==> OtherClear(live, heap, g, m)))
      && (low.segment != high.segment ==> OtherClear(live, heap, g, m))
  {
    hide InOrder, ChunksFine, MarksFine, FromAreas, BehindProgram, Kept, StillInUse, ValidMarks, Apart, OtherClear;
    var g := (if heap == 0 then low else high).segment;
    RewindKeeps(base, cur, held, marks, g, m);
    if live == held {
      RewindSafeIff(base, cur, live, marks, heap, g, m);
    }
    UsesOf(live, held, heap, g, m);
    OtherElsewhere(live, low, high, heap, g, m);
  }

  lemma MarkConsistent(base: seq<Segment>, cur: seq<Segment>, low: Area, high: Area, live: set<Chunk>, held: set<Chunk>,
                       marks: set<(nat, nat)>, programStart: nat, programEnd: nat, g: nat)
    requires Consistent(base, cur, low, high, live, held, marks, programStart, programEnd) && g < |cur|
    ensures Consistent(base, cur, low, high, live, held, marks + {(g, cur[g].end)}, programStart, programEnd)
  {
    hide InOrder, FromAreas, BehindProgram, AreaFine;
  }

  /** The heaps over the physical memory map. The ghost fields hold the map as it was when
      the heaps were made, the pages of the program, the chunks in use (handed out, and not given up by a rewind of
      their own heap), those of them that still have their pages, and the marks that may be
      rewound to. */
  class Heaps {
    const memory: PhysicalMap
    const areas: array<Area>
    ghost var base: seq<Segment>
    ghost var live: set<Chunk>
    ghost var held: set<Chunk>
    ghost var marks: set<(nat, nat)>
    ghost var programStart: nat
    ghost var programEnd: nat

    ghost predicate Shape()
      reads memory
    {
      memory.Valid() && areas.Length == 2
    }

    ghost function Map(): seq<Segment>
      requires Shape()
      reads memory, memory.segs
    {
      memory.Contents()
    }

    ghost predicate Valid()
      reads this, areas, memory, memory.segs
    {
      Shape() && Consistent(base, Map(), areas[0], areas[1], live, held, marks, programStart, programEnd)
    }

    constructor (memory: PhysicalMap)
      ensures this.memory == memory && fresh(areas) && areas[..] == [NO_AREA, NO_AREA]
    {
      this.memory := memory;
      areas := new Area[2](_ => NO_AREA);
    }

    /** Chooses the areas of the two heaps. */
    method Init(programStart: nat, programEnd: nat)
      requires Shape() && areas[..] == [NO_AREA, NO_AREA] && programStart <= programEnd
      modifies this, areas
      ensures var n := Scanned(Map(), 0); var c := Chosen(Map(), n, programStart, programEnd);
        areas[0] == c.low && areas[1] == c.high
      ensures OrderedMap(Map()) ==> Valid() && live == held == {} && marks == {} && base == Map()
      ensures OrderedMap(Map()) ==>
        AreaChosen(Map(), areas[0], 0x100, programStart, programEnd) && AreaChosen(Map(), areas[1], 0x10_0000, programStart, programEnd)
      ensures this.programStart == programStart && this.programEnd == programEnd
    {
      hide HeapSize, HeapStart, OrderedMap, Chosen, Scanned, Consider, AreaChosen, Consistent;
      ghost var s := Map();
      ScanStarts(s, programStart, programEnd);
      var most, i := 0, 0;
      while i < memory.size && memory.segs[i].end <= HEAP_LIMIT
        invariant 0 <= i <= memory.size && Scanned(s, 0) == Scanned(s, i)
        invariant Chosen(s, i, programStart, programEnd) == Choice(most, areas[0], areas[1])
      {
        ScanNext(s, i, programStart, programEnd);
        var x := memory.segs[i];
        var start := HeapStart(x, programStart, programEnd);
        var size := HeapSize(x, programStart, programEnd);
        if size >= most {
          most := size;
          if x.end <= LOW_LIMIT {
            areas[0] := Area(i, start, x.end);
          }
          areas[1] := Area(i, start, x.end);
        }
        i := i + 1;
      }
      ScanStops(s, i);
      base, live, held, marks := s, {}, {}, {};
      this.programStart, this.programEnd := programStart, programEnd;
      if OrderedMap(s) {
        ScanFindsLargest(s, i, programStart, programEnd);
        AreasFine(s, i, areas[0], areas[1], programStart, programEnd);
        LargestIsChosen(s, i, LOW_LIMIT, areas[0], programStart, programEnd);
        LargestIsChosen(s, i, HEAP_LIMIT, areas[1], programStart, programEnd);
      }
    }

    /** Takes pages for `size` bytes from the end of the heap's segment. Fails, with nothing
        changed, when the aligned place for them lies below the heap, as it always does for a
        heap in an inverted segment. A request that does not fit below the end of the segment
        is not refused: it wraps around, and what is handed out is out of bounds or too
        small, so that the allocation is sound iff the request fits. */
    method Alloc(id: nat, size: nat, alignment: nat, ghost j: nat) returns (addr: nat)
      requires Valid() && id < 2 && j < 64 && alignment == Pow2(j) && size < WORD
      modifies this`live, this`held, memory.segs
      ensures Shape()
      ensures areas[id] == NO_AREA ==> addr == 0 && Valid() && Map() == old(Map()) && live == old(live) && held == old(held)
      ensures areas[id] != NO_AREA ==>
        var g := areas[id].segment;
        var r := AllocPage(old(Map())[g].end, size, alignment);
        if r < areas[id].start then addr == 0 && Valid() && Map() == old(Map()) && live == old(live) && held == old(held)
        else
          && addr == PAGE * r % WORD
          && Map() == old(Map())[g := Segment(old(Map())[g].start, r)]
          && live == old(live) + Taken(id, g, r, NumPages(size)) && held == old(held) + Taken(id, g, r, NumPages(size))
          && (Valid() && size <= PAGE * NumPages(size) <==> size <= PAGE * old(Map())[g].end)
      ensures areas[id] != NO_AREA && size <= PAGE * old(Map())[areas[id].segment].end ==>
        && Valid() && Apart(Map(), held) && ProgramClear(base, live, programStart, programEnd)
        && (areas[id].start > areas[id].end ==> Map() == old(Map()))
        && (Map() != old(Map()) || live != old(live) ==>
            IsMultiple(addr, alignment) && PAGE * areas[id].start <= addr && addr + size <= PAGE * old(Map())[areas[id].segment].end <= PAGE * areas[id].end)
    {
      hide AllocPage, NumPages, Pow2, IsMultiple, Apart, Taken, ProgramClear, Consistent;
      var a := areas[id];
      ConsistentFacts(base, Map(), areas[0], areas[1], live, held, marks, programStart, programEnd);
      if a.segment < 0 {
        return 0;
      }
      var end := memory.segs[a.segment].end;
      var r := AllocPage(end, size, alignment);
      AllocBounds(end, size, j);
      if r < a.start {
        return 0;
      }
      ghost var n := NumPages(size);
      if size <= PAGE * end {
        AllocConsistent(base, Map(), areas[0], areas[1], live, held, marks, programStart, programEnd, id, r, n);
      }
      memory.segs[a.segment] := memory.segs[a.segment].(end := r);
      live, held := live + Taken(id, a.segment, r, n), held + Taken(id, a.segment, r, n);
      assert Map() == old(Map())[a.segment := Segment(old(Map())[a.segment].start, r)];
      if Valid() {
        ConsistentFacts(base, Map(), areas[0], areas[1], live, held, marks, programStart, programEnd);
      }
      addr := PAGE * r % WORD;
    }

    /** The current end of the heap's segment. */
    method Mark(id: nat) returns (mark: nat)
      requires Valid() && id < 2
      modifies this`marks
      ensures Valid()
      ensures areas[id] == NO_AREA ==> mark == 0 && marks == old(marks)
      ensures areas[id] != NO_AREA ==> mark == Map()[areas[id].segment].end && marks == old(marks) + {(areas[id].segment, mark)}
    {
      hide Consistent;
      var a := areas[id];
      ConsistentFacts(base, Map(), areas[0], areas[1], live, held, marks, programStart, programEnd);
      if a.segment < 0 {
        return 0;
      }
      mark := memory.segs[a.segment].end;
      MarkConsistent(base, Map(), areas[0], areas[1], live, held, marks, programStart, programEnd, a.segment);
      marks := marks + {(a.segment, mark)};
    }

    /** Gives back the pages of the heap's segment below the mark. A mark that is not above
        the current end, or above the heap, does nothing. If all chunks had their pages
        before, they all have them afterwards iff no chunk of the other heap lies below the
        mark in the same segment. */
    method Rewind(id: nat, mark: nat)
      requires Valid() && id < 2
      requires areas[id] != NO_AREA && Map()[areas[id].segment].end < mark <= areas[id].end ==> (areas[id].segment as nat, mark) in marks
      modifies this`live, this`held, this`marks, memory.segs
      ensures Valid() && Apart(Map(), held)
      ensures areas[id] == NO_AREA || !(old(Map())[areas[id].segment].end < mark <= areas[id].end) ==>
        Map() == old(Map()) && live == old(live) && held == old(held) && marks == old(marks)
      ensures areas[id] != NO_AREA && old(Map())[areas[id].segment].end < mark <= areas[id].end ==>
        var g := areas[id].segment;
        && Map() == old(Map())[g := Segment(old(Map())[g].start, mark)]
        && live == StillInUse(old(live), id, g, mark) && held == Kept(old(held), g, mark) && marks == ValidMarks(old(marks), g, mark)
        && (old(live) == old(held) ==> (Apart(Map(), live) <==> OtherClear(old(live), id, g, mark)))
        && (old(live) == old(held) ==> (live == held <==> OtherClear(old(live), id, g, mark)))
        && (areas[0].segment != areas[1].segment ==> OtherClear(old(live), id, g, mark))
      ensures areas[id] != NO_AREA && (areas[id].segment as nat, mark) in old(marks) ==> Map()[areas[id].segment].end == mark
    {
      hide Kept, StillInUse, ValidMarks, Apart, OtherClear, Consistent;
      var a := areas[id];
      ConsistentFacts(base, Map(), areas[0], areas[1], live, held, marks, programStart, programEnd);
      if a.segment >= 0 && mark > memory.segs[a.segment].end && mark <= a.end {
        RewindConsistent(base, Map(), areas[0], areas[1], live, held, marks, programStart, programEnd, id, mark);
        memory.segs[a.segment] := memory.segs[a.segment].(end := mark);
        live, held, marks := StillInUse(live, id, a.segment, mark), Kept(held, a.segment, mark), ValidMarks(marks, a.segment, mark);
        assert Map() == old(Map())[a.segment := Segment(old(Map())[a.segment].start, mark)];
        ConsistentFacts(base, Map(), areas[0], areas[1], live, held, marks, programStart, programEnd);
      } else if a.segment >= 0 {
        MarkAbove(base, Map(), areas[0], areas[1], live, held, marks, programStart, programEnd, a.segment, mark);
      }
    }
  }

  /** A mark lies at or above the end of its segment, and within the segment as it was. */
  lemma MarkAbove(base: seq<Segment>, cur: seq<Segment>, low: Area, high: Area, live: set<Chunk>, held: set<Chunk>,
                  marks: set<(nat, nat)>, programStart: nat, programEnd: nat, g: nat, m: nat)
    requires Consistent(base, cur, low, high, live, held, marks, programStart, programEnd)
    ensures (g, m) in marks ==> g < |cur| == |base| && cur[g].end <= m <= base[g].end
  {
    hide InOrder, FromAreas, BehindProgram, AreaFine, ChunksFine;
  }

  lemma ScanStarts(s: seq<Segment>, programStart: nat, programEnd: nat)
    ensures Chosen(s, 0, programStart, programEnd) == Choice(0, NO_AREA, NO_AREA)
  {
  }

  lemma ScanNext(s: seq<Segment>, i: nat, programStart: nat, programEnd: nat)
    requires i < |s| && s[i].end <= HEAP_LIMIT
    ensures Scanned(s, i) == Scanned(s, i + 1)
    ensures var c := Chosen(s, i, programStart, programEnd); var size := HeapSize(s[i], programStart, programEnd);
      var area := Area(i, HeapStart(s[i], programStart, programEnd), s[i].end);
      Chosen(s, i + 1, programStart, programEnd) == if size >= c.most then Choice(size, if s[i].end <= LOW_LIMIT then area else c.low, area) else c
  {
    hide HeapSize, HeapStart;
  }

  lemma ScanStops(s: seq<Segment>, i: nat)
    requires i <= |s| && (i < |s| ==> s[i].end > HEAP_LIMIT)
    ensures Scanned(s, i) == i
  {
  }

  lemma TakenFrom(live: set<Chunk>, low: Area, high: Area, heap: nat, g: nat, r: nat, n: nat)
    requires FromAreas(live, low, high) && heap < 2
    requires InArea(Chunk(heap, g, r, r + n), if heap == 0 then low else high)
    ensures FromAreas(live + Taken(heap, g, r, n), low, high)
  {
    hide InArea;
  }

  lemma OtherElsewhere(live: set<Chunk>, low: Area, high: Area, heap: nat, g: nat, m: nat)
    requires FromAreas(live, low, high) && heap < 2 && g == (if heap == 0 then low else high).segment
    ensures low.segment != high.segment ==> OtherClear(live, heap, g, m)
    ensures FromAreas(StillInUse(live, heap, g, m), low, high)
  {
  }

  lemma UsesOf(live: set<Chunk>, held: set<Chunk>, heap: nat, g: nat, m: nat)
    requires held <= live
    ensures Kept(held, g, m) <= StillInUse(live, heap, g, m) <= live
  {
  }

  lemma AreasFine(s: seq<Segment>, n: nat, low: Area, high: Area, programStart: nat, programEnd: nat)
    requires OrderedMap(s) && n <= |s| && programStart <= programEnd
    requires Largest(s, n, LOW_LIMIT, low, programStart, programEnd) && Largest(s, n, HEAP_LIMIT, high, programStart, programEnd)
    ensures Consistent(s, s, low, high, {}, {}, {}, programStart, programEnd)
  {
    hide HeapSize, InOrder;
    if low != NO_AREA {
      SizeOf(s[low.segment], programStart, programEnd);
    }
    if high != NO_AREA {
      SizeOf(s[high.segment], programStart, programEnd);
    }
  }

  /** Bounds of an allocated page, whether or not the request fits. */
  lemma AllocBounds(end: nat, size: nat, j: nat)
    requires end < WORD / PAGE && j < 64 && size < WORD
    ensures var r := AllocPage(end, size, Pow2(j));
      && (size <= PAGE * end ==>
           r + NumPages(size) <= end && size <= PAGE * NumPages(size) && PAGE * r % WORD == PAGE * r && IsMultiple(PAGE * r, Pow2(j)))
      && (size > PAGE * end ==> r >= WORD / PAGE || size > PAGE * NumPages(size))
  {
    hide AllocPage, Pow2, IsMultiple;
    if size <= PAGE * end {
      AllocPlaces(end, size, j);
      AllocAligned(end, size, j);
    } else if size + PAGE <= WORD {
      AllocWraps(end, size, j);
    }
  }

  // ----- the header's promise fails for a shared segment

  /** Heaps over a map of one segment below 1MB. */
  method SharedSegment() returns (h: Heaps)
    ensures fresh(h) && fresh(h.memory) && fresh(h.memory.segs) && fresh(h.areas)
    ensures h.Valid() && h.live == h.held == {} && h.Map() == [Segment(0x10, 0x80)]
    ensures h.areas[0] == h.areas[1] == Area(0, 0x10, 0x80)
  {
    hide Chosen, Scanned, OrderedMap, AddSegment, Consistent, AreaChosen;
    SharedScan();
    var memory := new PhysicalMap();
    assert memory.Contents() == [];
    memory.Append(Segment(0x10, 0x80));
    h := new Heaps(memory);
    h.Init(0x1000, 0x1100);
  }

  /** With both heaps in one segment: mark heap 0, allocate a page from heap 1, rewind heap 0,
      allocate a page from heap 0. Both heaps now have the same page, although heap 1 was
      never rewound. */
  method OnePageTwice() returns (h: Heaps, a: nat, b: nat)
    ensures a == b == 0x7F000 && Chunk(0, 0, 0x7F, 0x80) in h.live && Chunk(1, 0, 0x7F, 0x80) in h.live
  {
    hide Pow2, AllocPage, NumPages, Apart, IsMultiple, OtherClear, ValidMarks, Kept, Consistent, ProgramClear;
    h := SharedSegment();
    LastPage();
    var m := h.Mark(0);
    a := h.Alloc(1, 0x1000, 0x1000, 12);
    h.Rewind(0, m);
    b := h.Alloc(0, 0x1000, 0x1000, 12);
  }

  lemma SharedScan()
    ensures var s := [Segment(0x10, 0x80)];
      && OrderedMap(s) && Scanned(s, 0) == 1 && AddSegment([], s[0]) == s && s == [s[0]]
      && Chosen(s, 1, 0x1000, 0x1100) == Choice(0x70, Area(0, 0x10, 0x80), Area(0, 0x10, 0x80))
  {
    hide Chosen, HeapSize, HeapStart, Scanned;
    var s := [Segment(0x10, 0x80)];
    ScanStarts(s, 0x1000, 0x1100);
    ScanNext(s, 0, 0x1000, 0x1100);
    ScanStops(s, 1);
    SizeOf(s[0], 0x1000, 0x1100);
    assert HeapStart(s[0], 0x1000, 0x1100) == 0x10 by {
      OutsideProgram(s[0], 0x1000, 0x1100);
    }
  }

  lemma OutsideProgram(x: Segment, programStart: nat, programEnd: nat)
    requires programEnd > x.end
    ensures HeapStart(x, programStart, programEnd) == x.start
  {
  }

  lemma LastPage()
    ensures Pow2(12) == 0x1000 && NumPages(0x1000) == 1 && AllocPage(0x80, 0x1000, 0x1000) == 0x7F
  {
    hide Pow2, And, Not;
    SmallPowers();
    WordIsPower();
    AndOnes(0x7F, 64);
  }
}
