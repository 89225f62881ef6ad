/** The sweep over the change points that removes overlaps from the firmware map. */
module MemoryMap {
  import opened MachineWord
  import opened FiniteSets
  import opened MemoryPoints

  const E820_MAP_SIZE: nat := 128

  /** The entries as 64-bit fields. */
  ghost predicate Fits(orig: seq<Entry>) {
    forall e :: 0 <= e < |orig| ==> orig[e].addr < WORD && orig[e].size < WORD
  }

  /** Some entry runs past the last address. */
  ghost predicate Wraps(orig: seq<Entry>) {
    exists e :: 0 <= e < |orig| && End(orig[e]) >= WORD
  }

  // ----- what the map is to say

  /** t is the largest type over the entries that cover a, or 0 if there is none. */
  ghost predicate IsTypeAt(orig: seq<Entry>, a: nat, t: nat) {
    && (forall e :: 0 <= e < |orig| && Covers(orig[e], a) ==> orig[e].kind <= t)
    && (t == 0 || exists e :: 0 <= e < |orig| && Covers(orig[e], a) && orig[e].kind == t)
  }

  /** Non-empty entries in order, without overlap, with a type. */
  ghost predicate Clean(s: seq<Entry>) {
    && (forall i :: 0 <= i < |s| ==> s[i].size > 0 && s[i].kind != 0)
    && forall i, j :: 0 <= i < j < |s| ==> End(s[i]) <= s[j].addr
  }

  /** The new map gives address a the type the original map gives it. */
  ghost predicate Agrees(orig: seq<Entry>, s: seq<Entry>, a: nat) {
    && (forall i :: 0 <= i < |s| && Covers(s[i], a) ==> IsTypeAt(orig, a, s[i].kind))
    && ((forall i :: 0 <= i < |s| ==> !Covers(s[i], a)) ==> IsTypeAt(orig, a, 0))
  }

  /** Where entries overlap the larger type counts; behind the last address of an entry it
      says nothing. */
  lemma OverlapExample(t: nat)
    ensures var orig := [Entry(0x1000, 0x1000, 1), Entry(0x1800, 0x1000, 2)];
      && (IsTypeAt(orig, 0x0FFF, t) <==> t == 0) && (IsTypeAt(orig, 0x1000, t) <==> t == 1)
      && (IsTypeAt(orig, 0x1800, t) <==> t == 2) && (IsTypeAt(orig, 0x2800, t) <==> t == 0)
  {
    var orig := [Entry(0x1000, 0x1000, 1), Entry(0x1800, 0x1000, 2)];
    assert orig[0] == Entry(0x1000, 0x1000, 1) && orig[1] == Entry(0x1800, 0x1000, 2);
  }

  // ----- change points

  function StartOf(orig: seq<Entry>, e: nat): Point
    requires e < |orig|
  {
    Point(e, true, orig[e].addr)
  }

  function EndOf(orig: seq<Entry>, e: nat): Point
    requires e < |orig|
  {
    Point(e, false, End(orig[e]))
  }

  /** The change points of a map, each once. */
  ghost predicate PointsOf(orig: seq<Entry>, pts: seq<Point>) {
    && (forall k :: 0 <= k < |pts| ==> pts[k].entry < |orig| && (pts[k] == StartOf(orig, pts[k].entry) || pts[k] == EndOf(orig, pts[k].entry)))
    && (forall e :: 0 <= e < |orig| ==> StartOf(orig, e) in pts && EndOf(orig, e) in pts)
    && forall i, j :: 0 <= i < j < |pts| ==> pts[i] != pts[j]
  }

  /** Entry e has started and not ended among the first c points. */
  ghost predicate Open(orig: seq<Entry>, pts: seq<Point>, c: nat, e: nat)
    requires e < |orig| && c <= |pts|
  {
    StartOf(orig, e) in pts[..c] && EndOf(orig, e) !in pts[..c]
  }

  /** t is the largest type over the open entries. */
  ghost predicate IsTop(orig: seq<Entry>, pts: seq<Point>, c: nat, t: nat)
    requires c <= |pts|
  {
    && (forall e :: 0 <= e < |orig| && Open(orig, pts, c, e) ==> orig[e].kind <= t)
    && (t == 0 || exists e :: 0 <= e < |orig| && Open(orig, pts, c, e) && orig[e].kind == t)
  }

  /** Address a lies between point c - 1 and point c. */
  ghost predicate InRegion(pts: seq<Point>, c: nat, a: nat)
    requires c <= |pts|
  {
    (c == 0 || pts[c - 1].addr <= a) && (c == |pts| || a < pts[c].addr)
  }

  /** Between two points of a sorted list, a point is among those seen iff its address has
      been reached. */
  lemma SeenIffReached(pts: seq<Point>, c: nat, a: nat, p: Point)
    requires Ordered(pts) && c <= |pts| && InRegion(pts, c, a) && p in pts
    ensures p in pts[..c] <==> p.addr <= a
  {
    var k :| 0 <= k < |pts| && pts[k] == p;
    if k < c {
      assert pts[..c][k] == p;
      assert k < c - 1 ==> !Before(pts[c - 1], pts[k]);
    } else {
      assert k > c ==> !Before(pts[k], pts[c]);
    }
  }

  lemma OpenIffCovers(orig: seq<Entry>, pts: seq<Point>, c: nat, a: nat, e: nat)
    requires PointsOf(orig, pts) && Ordered(pts) && c <= |pts| && InRegion(pts, c, a) && e < |orig|
    ensures Open(orig, pts, c, e) <==> Covers(orig[e], a)
  {
    hide Ordered;
    SeenIffReached(pts, c, a, StartOf(orig, e));
    SeenIffReached(pts, c, a, EndOf(orig, e));
  }

  /** The open entries are those that cover the region, so their largest type is its type. */
  lemma RegionType(orig: seq<Entry>, pts: seq<Point>, c: nat, a: nat, t: nat)
    requires PointsOf(orig, pts) && Ordered(pts) && c <= |pts| && InRegion(pts, c, a) && IsTop(orig, pts, c, t)
    ensures IsTypeAt(orig, a, t)
  {
    hide PointsOf, Ordered, Open, InRegion;
    forall e | 0 <= e < |orig|
      ensures Open(orig, pts, c, e) <==> Covers(orig[e], a)
    {
      OpenIffCovers(orig, pts, c, a, e);
    }
  }

  /** An entry starts before it ends. */
  lemma EndIsOpen(orig: seq<Entry>, pts: seq<Point>, c: nat)
    requires PointsOf(orig, pts) && Ordered(pts) && c < |pts| && !pts[c].start
    ensures Open(orig, pts, c, pts[c].entry)
  {
    var e := pts[c].entry;
    forall k | c < k < |pts|
      ensures pts[k] != StartOf(orig, e)
    {
      assert !Before(pts[k], pts[c]);
    }
    var k :| 0 <= k < |pts| && pts[k] == StartOf(orig, e);
    assert pts[..c][k] == pts[k];
  }

  lemma OpenStep(orig: seq<Entry>, pts: seq<Point>, c: nat, e: nat)
    requires PointsOf(orig, pts) && c < |pts| && e < |orig|
    ensures pts[c].start ==> (Open(orig, pts, c + 1, e) <==> Open(orig, pts, c, e) || (e == pts[c].entry && EndOf(orig, e) !in pts[..c]))
    ensures !pts[c].start ==> (Open(orig, pts, c + 1, e) <==> Open(orig, pts, c, e) && e != pts[c].entry)
  {
    assert pts[..c + 1] == pts[..c] + [pts[c]];
  }

  /** A start is seen before its end, and is new. */
  lemma StartIsNew(orig: seq<Entry>, pts: seq<Point>, c: nat)
    requires PointsOf(orig, pts) && Ordered(pts) && c < |pts| && pts[c].start
    ensures EndOf(orig, pts[c].entry) !in pts[..c] && !Open(orig, pts, c, pts[c].entry)
  {
    forall k | 0 <= k < c
      ensures pts[k] != EndOf(orig, pts[c].entry)
    {
      assert !Before(pts[c], pts[k]);
    }
  }

  // ----- sorting keeps the change points

  lemma {:induction false} CountDistinct(s: seq<Point>, x: Point)
    requires forall i, j :: 0 <= i < j < |s| ==> s[i] != s[j]
    ensures multiset(s)[x] <= 1
  {
    if s != [] {
      var n := |s| - 1;
      assert s == s[..n] + [s[n]];
      CountDistinct(s[..n], x);
      if x == s[n] {
        assert x !in s[..n];
        assert x !in multiset(s[..n]);
      }
    }
  }

  lemma CountRepeated(s: seq<Point>, i: nat, j: nat)
    requires i < j < |s| && s[i] == s[j]
    ensures multiset(s)[s[i]] >= 2
  {
    assert s == s[..j] + s[j..];
    assert s[..j][i] == s[i] && s[j..][0] == s[i];
    assert s[i] in multiset(s[..j]) && s[i] in multiset(s[j..]);
  }

  lemma SortedPoints(orig: seq<Entry>, s: seq<Point>, t: seq<Point>)
    requires PointsOf(orig, s) && multiset(s) == multiset(t)
    ensures PointsOf(orig, t)
  {
    forall k | 0 <= k < |t|
      ensures t[k] in s
    {
      assert t[k] in multiset(t);
    }
    forall e | 0 <= e < |orig|
      ensures StartOf(orig, e) in t && EndOf(orig, e) in t
    {
      assert StartOf(orig, e) in multiset(s) && EndOf(orig, e) in multiset(s);
    }
    forall i, j | 0 <= i < j < |t|
      ensures t[i] != t[j]
    {
      CountDistinct(s, t[i]);
      if t[i] == t[j] {
        CountRepeated(t, i, j);
      }
    }
  }

  /** Starts at even places and ends at odd ones. */
  ghost predicate InPairs(orig: seq<Entry>, s: seq<Point>) {
    && |s| == 2 * |orig|
    && forall e :: 0 <= e < |orig| ==> s[2 * e] == StartOf(orig, e) && s[2 * e + 1] == EndOf(orig, e)
  }

  lemma PairAt(orig: seq<Entry>, s: seq<Point>, k: nat)
    requires InPairs(orig, s) && k < |s|
    ensures s[k].entry == k / 2 < |orig|
    ensures s[k] == if k % 2 == 0 then StartOf(orig, k / 2) else EndOf(orig, k / 2)
  {
    var e := k / 2;
    if k % 2 == 0 {
      assert k == 2 * e && s[2 * e] == StartOf(orig, e);
    } else {
      assert k == 2 * e + 1 && s[2 * e + 1] == EndOf(orig, e);
    }
  }

  lemma PairsDistinct(orig: seq<Entry>, s: seq<Point>, i: nat, j: nat)
    requires InPairs(orig, s) && i < j < |s|
    ensures s[i] != s[j]
  {
    PairAt(orig, s, i);
    PairAt(orig, s, j);
  }

  lemma PairsArePoints(orig: seq<Entry>, s: seq<Point>)
    requires InPairs(orig, s)
    ensures PointsOf(orig, s)
  {
    hide InPairs, StartOf, EndOf;
    PairsLength(orig, s);
    forall k: nat | k < |s|
      ensures s[k].entry < |orig| && (s[k] == StartOf(orig, s[k].entry) || s[k] == EndOf(orig, s[k].entry))
    {
      PairAt(orig, s, k);
    }
    forall e: nat | e < |orig|
      ensures StartOf(orig, e) in s && EndOf(orig, e) in s
    {
      PairIn(orig, s, e);
    }
    forall i: nat, j: nat | i < j < |s|
      ensures s[i] != s[j]
    {
      PairsDistinct(orig, s, i, j);
    }
  }

  lemma PairsLength(orig: seq<Entry>, s: seq<Point>)
    requires InPairs(orig, s)
    ensures |s| == 2 * |orig|
  {
  }

  lemma PairIn(orig: seq<Entry>, s: seq<Point>, e: nat)
    requires InPairs(orig, s) && e < |orig|
    ensures StartOf(orig, e) in s && EndOf(orig, e) in s
  {
    assert s[2 * e] == StartOf(orig, e) && s[2 * e + 1] == EndOf(orig, e);
  }

  method MakePoints(orig: seq<Entry>) returns (a: array<Point>)
    ensures fresh(a) && a.Length == 2 * |orig| && PointsOf(orig, a[..])
  {
    a := new Point[2 * |orig|](_ => Point(0, true, 0));
    var i := 0;
    while i < |orig|
      invariant 0 <= i <= |orig|
      invariant forall e :: 0 <= e < i ==> a[2 * e] == StartOf(orig, e) && a[2 * e + 1] == EndOf(orig, e)
    {
      a[2 * i] := StartOf(orig, i);
      a[2 * i + 1] := EndOf(orig, i);
      i := i + 1;
    }
    PairsArePoints(orig, a[..]);
  }

  // ----- the list of open entries

  ghost predicate Distinct(s: seq<nat>) {
    forall i, j :: 0 <= i < j < |s| ==> s[i] != s[j]
  }

  /** Distinct entries that leave one out are fewer than all. */
  lemma DistinctSize(s: seq<nat>, n: nat, e: nat)
    requires Distinct(s) && e < n && e !in s && forall i :: 0 <= i < |s| ==> s[i] < n
    ensures |s| < n
  {
    SetOfSize(s);
    assert |SetOf(s) + {e}| == |s| + 1;
    RangeSize(SetOf(s) + {e}, 0, n);
  }

  /** Takes e off the list: the last element goes into its place. */
  method RemoveOverlap(list: array<nat>, m: nat, e: nat)
    requires m <= list.Length && Distinct(list[..m]) && e in list[..m]
    modifies list
    ensures m > 0 && Distinct(list[..m - 1])
    ensures forall x :: x in list[..m - 1] <==> x in old(list[..m]) && x != e
  {
    ghost var s := list[..m];
    ghost var k :| 0 <= k < m && s[k] == e;
    var i := 0;
    while i < m
      invariant 0 <= i <= m
      invariant i <= k ==> list[..m] == s
      invariant i > k ==> list[..m] == s[k := s[m - 1]]
    {
      if list[i] == e {
        assert i == k || (k == m - 1 && i > k);
        list[i] := list[m - 1];
      }
      i := i + 1;
    }
    assert list[..m - 1] == s[k := s[m - 1]][..m - 1];
    forall x
      ensures x in list[..m - 1] <==> x in s && x != e
    {
      if x in s && x != e {
        var j :| 0 <= j < m && s[j] == x;
        assert list[..m - 1][if j < m - 1 then j else k] == x;
      }
    }
  }

  /** The largest type on the list. */
  method LargestType(orig: seq<Entry>, list: array<nat>, m: nat) returns (t: nat)
    requires m <= list.Length && forall i :: 0 <= i < m ==> list[i] < |orig|
    ensures forall i :: 0 <= i < m ==> orig[list[i]].kind <= t
    ensures t == 0 || exists i :: 0 <= i < m && orig[list[i]].kind == t
  {
    t := 0;
    var i := 0;
    while i < m
      invariant 0 <= i <= m
      invariant forall k :: 0 <= k < i ==> orig[list[k]].kind <= t
      invariant t == 0 || exists k :: 0 <= k < i && orig[list[k]].kind == t
    {
      if orig[list[i]].kind > t {
        t := orig[list[i]].kind;
      }
      i := i + 1;
    }
  }

  /** The list holds the open entries. */
  ghost predicate ListsOpen(orig: seq<Entry>, pts: seq<Point>, c: nat, s: seq<nat>)
    requires c <= |pts|
  {
    && Distinct(s)
    && (forall i :: 0 <= i < |s| ==> s[i] < |orig| && Open(orig, pts, c, s[i]))
    && forall e :: 0 <= e < |orig| && Open(orig, pts, c, e) ==> e in s
  }

  lemma ListsStart(orig: seq<Entry>, pts: seq<Point>, c: nat, s: seq<nat>)
    requires PointsOf(orig, pts) && Ordered(pts) && c < |pts| && pts[c].start && ListsOpen(orig, pts, c, s)
    ensures pts[c].entry < |orig| && |s| < |orig| && ListsOpen(orig, pts, c + 1, s + [pts[c].entry])
  {
    hide PointsOf, Ordered, Open;
    PointEntry(orig, pts, c);
    StartIsNew(orig, pts, c);
    forall e: nat | e < |orig| {
      OpenStep(orig, pts, c, e);
    }
    DistinctSize(s, |orig|, pts[c].entry);
  }

  lemma ListsEnd(orig: seq<Entry>, pts: seq<Point>, c: nat, s: seq<nat>, t: seq<nat>)
    requires PointsOf(orig, pts) && Ordered(pts) && c < |pts| && !pts[c].start && ListsOpen(orig, pts, c, s)
    requires Distinct(t) && forall x :: x in t <==> x in s && x != pts[c].entry
    ensures ListsOpen(orig, pts, c + 1, t)
  {
    hide PointsOf, Ordered, Open;
    forall e: nat | e < |orig| {
      OpenStep(orig, pts, c, e);
    }
    forall i | 0 <= i < |t|
      ensures t[i] in s && t[i] != pts[c].entry
    {
      assert t[i] in t;
    }
  }

  /** Brings the list up to date with point c. */
  method TrackOverlaps(orig: seq<Entry>, p: Point, list: array<nat>, m: nat, ghost pts: seq<Point>, ghost c: nat) returns (m': nat)
    requires |orig| <= list.Length && PointsOf(orig, pts) && Ordered(pts) && c < |pts| && p == pts[c]
    requires m <= list.Length && ListsOpen(orig, pts, c, list[..m])
    modifies list
    ensures m' <= list.Length && ListsOpen(orig, pts, c + 1, list[..m'])
  {
    hide PointsOf, Ordered, Open;
    PointEntry(orig, pts, c);
    if p.start {
      ListsStart(orig, pts, c, list[..m]);
      list[m] := p.entry;
      m' := m + 1;
      assert list[..m'] == old(list[..m]) + [p.entry];
    } else {
      EndIsOpen(orig, pts, c);
      RemoveOverlap(list, m, p.entry);
      m' := m - 1;
      ListsEnd(orig, pts, c, old(list[..m]), list[..m']);
    }
  }

  lemma PointEntry(orig: seq<Entry>, pts: seq<Point>, c: nat)
    requires PointsOf(orig, pts) && c < |pts|
    ensures pts[c].entry < |orig|
  {
  }

  // ----- building the new map

  /** The map as far as address x: n entries are closed; when a region is open its start and
      type are in entry n. */
  ghost predicate Built(orig: seq<Entry>, s: seq<Entry>, n: nat, lastAddr: nat, lastType: nat, x: nat) {
    && n < |s| && x < WORD
    && Clean(s[..n])
    && (forall i :: 0 <= i < n ==> End(s[i]) <= x && (lastType != 0 ==> End(s[i]) <= lastAddr))
    && (lastType != 0 ==> lastAddr <= x && s[n].addr == lastAddr && s[n].kind == lastType)
    && forall a: nat :: a < x ==>
         if lastType != 0 && lastAddr <= a then IsTypeAt(orig, a, lastType) else Agrees(orig, s[..n], a)
  }

  ghost predicate AgreesBelow(orig: seq<Entry>, s: seq<Entry>, x: nat) {
    forall a: nat :: a < x ==> Agrees(orig, s, a)
  }

  /** What is promised of the finished map. A full map is right below its end. */
  ghost predicate Finished(orig: seq<Entry>, s: seq<Entry>) {
    && Clean(s) && (forall i :: 0 <= i < |s| ==> End(s[i]) < WORD)
    && forall a: nat :: |s| < E820_MAP_SIZE || a < End(s[|s| - 1]) ==> Agrees(orig, s, a)
  }

  lemma BuiltFurther(orig: seq<Entry>, s: seq<Entry>, n: nat, lastAddr: nat, lastType: nat, x: nat, y: nat)
    requires Built(orig, s, n, lastAddr, lastType, x) && x <= y < WORD
    requires forall a: nat :: x <= a < y ==> IsTypeAt(orig, a, lastType)
    ensures Built(orig, s, n, lastAddr, lastType, y)
  {
    hide IsTypeAt;
  }

  /** Closing the open region at y. An empty region leaves no entry behind. */
  lemma RegionClosed(orig: seq<Entry>, s: seq<Entry>, n: nat, lastAddr: nat, lastType: nat, y: nat)
    requires Built(orig, s, n, lastAddr, lastType, y) && lastType != 0
    ensures lastAddr == y ==> Built(orig, s, n, 0, 0, y)
    ensures var t := s[n := s[n].(size := y - lastAddr)];
      lastAddr < y ==> Clean(t[..n + 1]) && AgreesBelow(orig, t[..n + 1], y) && (forall i :: 0 <= i <= n ==> End(t[i]) <= y)
  {
    hide IsTypeAt;
    var t := s[n := s[n].(size := y - lastAddr)];
    if lastAddr < y {
      assert t[..n + 1] == s[..n] + [t[n]];
      var u := t[..n + 1];
      forall a: nat | a < y
        ensures Agrees(orig, u, a)
      {
        ClosedAgrees(orig, s[..n], t[n], a);
      }
    }
  }

  lemma ClosedAgrees(orig: seq<Entry>, s: seq<Entry>, e: Entry, a: nat)
    requires forall i :: 0 <= i < |s| ==> End(s[i]) <= e.addr
    requires if e.addr <= a then IsTypeAt(orig, a, e.kind) && Covers(e, a) else Agrees(orig, s, a)
    ensures Agrees(orig, s + [e], a)
  {
    hide IsTypeAt;
    if e.addr > a {
      if forall i :: 0 <= i < |s + [e]| ==> !Covers((s + [e])[i], a) {
        forall i | 0 <= i < |s|
          ensures !Covers(s[i], a)
        {
          assert (s + [e])[i] == s[i];
        }
      }
    } else {
      assert Covers((s + [e])[|s|], a);
    }
  }

  /** The type changes at y: the open region is closed and a new one opened. Stops when the
      map is full. */
  method ChangeType(newMap: array<Entry>, n: nat, lastAddr: nat, lastType: nat, current: nat, y: nat, ghost orig: seq<Entry>)
    returns (n': nat, lastAddr': nat, full: bool)
    requires newMap.Length == E820_MAP_SIZE && Built(orig, newMap[..], n, lastAddr, lastType, y) && current != lastType
    modifies newMap
    ensures !full ==> Built(orig, newMap[..], n', lastAddr', current, y)
    ensures full ==> n' == E820_MAP_SIZE && Finished(orig, newMap[..n'])
  {
    hide IsTypeAt;
    n', lastAddr', full := n, lastAddr, false;
    if lastType != 0 {
      RegionClosed(orig, newMap[..], n, lastAddr, lastType, y);
      ghost var s := newMap[..];
      newMap[n] := newMap[n].(size := y - lastAddr);
      assert newMap[..] == s[n := s[n].(size := y - lastAddr)];
      if newMap[n].size != 0 {
        n' := n + 1;
        if n' >= E820_MAP_SIZE {
          full := true;
          return;
        }
        assert Built(orig, newMap[..], n', 0, 0, y);
      } else {
        assert newMap[..n] == s[..n];
      }
    }
    assert Built(orig, newMap[..], n', 0, 0, y);
    if current != 0 {
      ghost var s := newMap[..];
      newMap[n'] := newMap[n'].(addr := y, kind := current);
      lastAddr' := y;
      assert newMap[..n'] == s[..n'];
    }
  }

  lemma TopOfList(orig: seq<Entry>, pts: seq<Point>, c: nat, s: seq<nat>, t: nat)
    requires c <= |pts| && ListsOpen(orig, pts, c, s)
    requires forall i :: 0 <= i < |s| ==> orig[s[i]].kind <= t
    requires t == 0 || exists i :: 0 <= i < |s| && orig[s[i]].kind == t
    ensures IsTop(orig, pts, c, t)
  {
    hide Open;
    forall e | 0 <= e < |orig| && Open(orig, pts, c, e)
      ensures orig[e].kind <= t
    {
      assert e in s;
    }
  }

  /** The address reached after c points. */
  ghost function Reached(pts: seq<Point>, c: nat): nat
    requires c <= |pts|
  {
    if c == 0 then 0 else pts[c - 1].addr
  }

  lemma ReachNext(orig: seq<Entry>, pts: seq<Point>, c: nat, t: nat)
    requires PointsOf(orig, pts) && Ordered(pts) && c < |pts| && IsTop(orig, pts, c, t) && !Wraps(orig)
    ensures Reached(pts, c) <= pts[c].addr < WORD
    ensures forall a: nat :: Reached(pts, c) <= a < pts[c].addr ==> IsTypeAt(orig, a, t)
  {
    hide IsTypeAt, IsTop, Wraps;
    assert c > 0 ==> !Before(pts[c], pts[c - 1]);
    PointFits(orig, pts, c);
    forall a: nat | Reached(pts, c) <= a < pts[c].addr
      ensures IsTypeAt(orig, a, t)
    {
      RegionType(orig, pts, c, a, t);
    }
  }

  lemma PointFits(orig: seq<Entry>, pts: seq<Point>, c: nat)
    requires PointsOf(orig, pts) && c < |pts| && !Wraps(orig)
    ensures pts[c].addr < WORD
  {
    assert End(orig[pts[c].entry]) < WORD;
  }

  /** After the last point nothing is open, and no entry covers an address further on. */
  lemma SweepEnds(orig: seq<Entry>, pts: seq<Point>, s: seq<Entry>, n: nat, lastAddr: nat, t: nat)
    requires PointsOf(orig, pts) && Ordered(pts) && IsTop(orig, pts, |pts|, t)
    requires |s| == E820_MAP_SIZE && Built(orig, s, n, lastAddr, t, Reached(pts, |pts|))
    ensures Finished(orig, s[..n])
  {
    hide IsTypeAt, PointsOf, Ordered;
    NothingOpen(orig, pts, t);
    forall a: nat
      ensures Agrees(orig, s[..n], a)
    {
      if a >= Reached(pts, |pts|) {
        RegionType(orig, pts, |pts|, a, t);
      }
    }
  }

  lemma NothingOpen(orig: seq<Entry>, pts: seq<Point>, t: nat)
    requires PointsOf(orig, pts) && IsTop(orig, pts, |pts|, t)
    ensures t == 0
  {
    assert pts[..|pts|] == pts;
  }

  /** The loop over the sorted change points. */
  method Sweep(newMap: array<Entry>, orig: seq<Entry>, pts: array<Point>) returns (n: nat)
    requires newMap.Length == E820_MAP_SIZE && |orig| <= E820_MAP_SIZE && !Wraps(orig)
    requires PointsOf(orig, pts[..]) && Ordered(pts[..])
    modifies newMap
    ensures n <= E820_MAP_SIZE && Finished(orig, newMap[..n])
  {
    hide IsTypeAt, PointsOf, Ordered, Built, Finished, ListsOpen, IsTop, Wraps;
    var list := new nat[E820_MAP_SIZE](_ => 0);
    var m, lastAddr, lastType, c := 0, 0, 0, 0;
    n := 0;
    ghost var p := pts[..];
    SweepStarts(orig, p, newMap[..]);
    while c < pts.Length
      invariant 0 <= c <= pts.Length && p == pts[..]
      invariant m <= list.Length && ListsOpen(orig, p, c, list[..m])
      invariant IsTop(orig, p, c, lastType)
      invariant Built(orig, newMap[..], n, lastAddr, lastType, Reached(p, c))
    {
      ReachNext(orig, p, c, lastType);
      BuiltFurther(orig, newMap[..], n, lastAddr, lastType, Reached(p, c), pts[c].addr);
      m := TrackOverlaps(orig, pts[c], list, m, p, c);
      ListedEntries(orig, p, c + 1, list[..m]);
      var current := LargestType(orig, list, m);
      TopOfList(orig, p, c + 1, list[..m], current);
      if current != lastType {
        var full;
        n, lastAddr, full := ChangeType(newMap, n, lastAddr, lastType, current, pts[c].addr, orig);
        if full {
          return;
        }
        lastType := current;
      }
      c := c + 1;
    }
    BuiltBound(orig, newMap[..], n, lastAddr, lastType, Reached(p, c));
    SweepEnds(orig, p, newMap[..], n, lastAddr, lastType);
  }

  lemma SweepStarts(orig: seq<Entry>, pts: seq<Point>, s: seq<Entry>)
    requires |s| == E820_MAP_SIZE
    ensures ListsOpen(orig, pts, 0, []) && IsTop(orig, pts, 0, 0) && Built(orig, s, 0, 0, 0, 0)
  {
    hide IsTypeAt;
  }

  lemma ListedEntries(orig: seq<Entry>, pts: seq<Point>, c: nat, s: seq<nat>)
    requires c <= |pts| && ListsOpen(orig, pts, c, s)
    ensures forall i :: 0 <= i < |s| ==> s[i] < |orig|
  {
    hide Open;
  }

  lemma BuiltBound(orig: seq<Entry>, s: seq<Entry>, n: nat, lastAddr: nat, lastType: nat, x: nat)
    requires Built(orig, s, n, lastAddr, lastType, x)
    ensures n < |s|
  {
    hide IsTypeAt;
  }

  /** Makes a map without overlaps that gives every address the largest type over the
      entries that cover it; below its own end only, when it is full. An original map that
      runs past the last address gives an empty one. */
  method SanitizeMap(newMap: array<Entry>, orig: seq<Entry>) returns (n: nat)
    requires newMap.Length == E820_MAP_SIZE && |orig| <= E820_MAP_SIZE && Fits(orig)
    modifies newMap
    ensures n <= E820_MAP_SIZE
    ensures Wraps(orig) ==> n == 0
    ensures !Wraps(orig) ==> Finished(orig, newMap[..n])
  {
    hide Finished, PointsOf, Ordered;
    var i := 0;
    while i < |orig|
      invariant 0 <= i <= |orig| && forall e :: 0 <= e < i ==> End(orig[e]) < WORD
    {
      if (orig[i].addr + orig[i].size) % WORD < orig[i].addr {
        return 0;
      }
      i := i + 1;
    }
    var pts := MakePoints(orig);
    ghost var s := pts[..];
    SortPoints(pts);
    SortedPoints(orig, s, pts[..]);
    n := Sweep(newMap, orig, pts);
  }
}
