/** The firmware memory map and its change points: where each entry starts and ends. */
module MemoryPoints {
  /** An entry of the map: `size` bytes from `addr` on, of type `kind`. */
  datatype Entry = Entry(addr: nat, size: nat, kind: nat)

  function End(e: Entry): nat {
    e.addr + e.size
  }

  /** Address a lies in the entry. */
  predicate Covers(e: Entry, a: nat) {
    e.addr <= a < End(e)
  }

  datatype Point = Point(entry: nat, start: bool, addr: nat)

  /** The order of the sort: by address, starts before ends. */
  predicate Before(p: Point, q: Point) {
    p.addr < q.addr || (p.addr == q.addr && p.start && !q.start)
  }

  ghost predicate Ordered(s: seq<Point>) {
    forall i, j :: 0 <= i < j < |s| ==> !Before(s[j], s[i])
  }

  // ----- inversions

  /** How many points of s belong after p. */
  ghost function CountAfter(s: seq<Point>, p: Point): nat {
    if s == [] then 0 else CountAfter(s[..|s| - 1], p) + (if Before(p, s[|s| - 1]) then 1 else 0)
  }

  /** How many pairs are in the wrong order. */
  ghost function Inversions(s: seq<Point>): nat {
    if s == [] then 0 else Inversions(s[..|s| - 1]) + CountAfter(s[..|s| - 1], s[|s| - 1])
  }

  /** s with the points at i - 1 and i swapped. */
  ghost function Swapped(s: seq<Point>, i: nat): seq<Point>
    requires 0 < i < |s|
  {
    s[i - 1 := s[i]][i := s[i - 1]]
  }

  lemma {:induction false} CountSwapped(s: seq<Point>, i: nat, p: Point)
    requires 0 < i < |s|
    ensures CountAfter(Swapped(s, i), p) == CountAfter(s, p)
  {
    var n := |s| - 1;
    if i < n {
      CountSwapped(s[..n], i, p);
      assert Swapped(s, i)[..n] == Swapped(s[..n], i);
    } else {
      assert Swapped(s, i)[..n][..n - 1] == s[..n][..n - 1];
    }
  }

  /** Swapping neighbours that are in the wrong order removes one inversion. */
  lemma {:induction false} SwapRemovesOne(s: seq<Point>, i: nat)
    requires 0 < i < |s| && Before(s[i], s[i - 1])
    ensures Inversions(Swapped(s, i)) == Inversions(s) - 1
  {
    var n := |s| - 1;
    var t := Swapped(s, i);
    if i < n {
      SwapRemovesOne(s[..n], i);
      CountSwapped(s[..n], i, s[n]);
      assert t[..n] == Swapped(s[..n], i);
    } else {
      var u := s[..n - 1];
      assert s[..n][..n - 1] == u && t[..n][..n - 1] == u;
      assert Inversions(s) == Inversions(u) + CountAfter(u, s[n - 1]) + CountAfter(s[..n], s[n]);
      assert Inversions(t) == Inversions(u) + CountAfter(u, s[n]) + CountAfter(t[..n], s[n - 1]);
    }
  }

  /** Neighbours in order make the whole list ordered. */
  lemma {:induction false} NeighboursSuffice(s: seq<Point>, i: nat, j: nat)
    requires i < j < |s| && forall k :: 0 < k < |s| ==> !Before(s[k], s[k - 1])
    ensures !Before(s[j], s[i])
  {
    if i < j - 1 {
      NeighboursSuffice(s, i, j - 1);
    }
  }

  // ----- the sort

  method SwapAt(a: array<Point>, i: nat)
    requires 0 < i < a.Length
    modifies a
    ensures a[..] == Swapped(old(a[..]), i) && multiset(a[..]) == multiset(old(a[..]))
  {
    a[i], a[i - 1] := a[i - 1], a[i];
    assert a[..] == Swapped(old(a[..]), i);
  }

  /** One pass over the list: swaps neighbours in the wrong order. */
  method SortPass(a: array<Point>) returns (changed: bool)
    modifies a
    ensures multiset(a[..]) == multiset(old(a[..]))
    ensures Inversions(a[..]) <= Inversions(old(a[..]))
    ensures changed ==> Inversions(a[..]) < Inversions(old(a[..]))
    ensures !changed ==> forall k :: 0 < k < a.Length ==> !Before(a[k], a[k - 1])
  {
    changed := false;
    var i := 1;
    while i < a.Length
      invariant 1 <= i && (i <= a.Length || a.Length == 0)
      invariant multiset(a[..]) == multiset(old(a[..]))
      invariant Inversions(a[..]) <= Inversions(old(a[..]))
      invariant changed ==> Inversions(a[..]) < Inversions(old(a[..]))
      invariant !changed ==> forall k :: 0 < k < i && k < a.Length ==> !Before(a[k], a[k - 1])
    {
      if Before(a[i], a[i - 1]) {
        SwapRemovesOne(a[..], i);
        SwapAt(a, i);
        changed := true;
      }
      i := i + 1;
    }
  }

  /** Passes until nothing changes. Every pass that changes something removes inversions. */
  method SortPoints(a: array<Point>)
    modifies a
    ensures multiset(a[..]) == multiset(old(a[..]))
    ensures Ordered(a[..])
  {
    var changing := true;
    while changing
      invariant multiset(a[..]) == multiset(old(a[..]))
      invariant !changing ==> forall k :: 0 < k < a.Length ==> !Before(a[k], a[k - 1])
      decreases if changing then Inversions(a[..]) + 1 else 0
    {
      changing := SortPass(a);
    }
    forall i, j | 0 <= i < j < a.Length
      ensures !Before(a[j], a[i])
    {
      NeighboursSuffice(a[..], i, j);
    }
  }
}
