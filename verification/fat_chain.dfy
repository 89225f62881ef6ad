/** Cluster chains: what following the links of a table of numbers can reach. Nothing
    here assumes that the table is free of cycles, cross links or garbage. */
module FatChain {
  import opened FiniteSets

  predicate IsLink(F: seq<nat>, c: nat) {
    2 <= c < |F|
  }

  /** The clusters of C are all marked free. */
  ghost predicate AllFree(F: seq<nat>, C: set<nat>) {
    forall c :: c in C ==> IsLink(F, c) && F[c] == 0
  }

  /** No cluster below the limit is marked free. */
  ghost predicate NoneFree(F: seq<nat>, limit: nat) {
    forall c :: 2 <= c < limit && c < |F| ==> F[c] != 0
  }

  /** No link leads out of C. */
  ghost predicate Closed(F: seq<nat>, C: set<nat>) {
    forall c :: c in C ==> IsLink(F, c) && (IsLink(F, F[c]) ==> F[c] in C)
  }

  /** The cluster after k links from c; a number that is not a cluster stops the walk. */
  ghost function Nth(F: seq<nat>, c: nat, k: nat): nat {
    if k == 0 then c
    else
      var d := Nth(F, c, k - 1);
      if IsLink(F, d) then F[d] else d
  }

  ghost predicate Reachable(F: seq<nat>, c: nat, d: nat) {
    IsLink(F, d) && exists k: nat :: Nth(F, c, k) == d
  }

  lemma ReachesItself(F: seq<nat>, c: nat)
    requires IsLink(F, c)
    ensures Reachable(F, c, c)
  {
    assert Nth(F, c, 0) == c;
  }

  lemma ReachesNext(F: seq<nat>, c: nat, d: nat)
    requires Reachable(F, c, d) && IsLink(F, F[d])
    ensures Reachable(F, c, F[d])
  {
    var k: nat :| Nth(F, c, k) == d;
    assert Nth(F, c, k + 1) == F[d];
  }

  /** A set that holds the start and the valid successors of its members holds
      everything reachable. */
  lemma {:induction false} ReachableIn(F: seq<nat>, c: nat, Z: set<nat>, d: nat)
    requires IsLink(F, c) ==> c in Z
    requires forall z :: z in Z && IsLink(F, z) && IsLink(F, F[z]) ==> F[z] in Z
    requires Reachable(F, c, d)
    ensures d in Z
  {
    var k: nat :| Nth(F, c, k) == d;
    NthIn(F, c, Z, k);
  }

  lemma {:induction false} NthIn(F: seq<nat>, c: nat, Z: set<nat>, k: nat)
    requires IsLink(F, c) ==> c in Z
    requires forall z :: z in Z && IsLink(F, z) && IsLink(F, F[z]) ==> F[z] in Z
    ensures IsLink(F, Nth(F, c, k)) ==> Nth(F, c, k) in Z
  {
    if k > 0 {
      NthIn(F, c, Z, k - 1);
    }
  }

  /** A list of distinct clusters, each linked to the next and the last to `end`. */
  ghost predicate Linked(F: seq<nat>, cl: seq<nat>, end: nat) {
    && (forall i :: 0 <= i < |cl| ==> IsLink(F, cl[i]))
    && (forall i, j :: 0 <= i < j < |cl| ==> cl[i] != cl[j])
    && (forall i :: 0 <= i < |cl| - 1 ==> F[cl[i]] == cl[i + 1])
    && (|cl| > 0 ==> F[cl[|cl| - 1]] == end)
  }

  lemma {:induction false} NthOfLinked(F: seq<nat>, cl: seq<nat>, end: nat, i: nat)
    requires Linked(F, cl, end) && i < |cl|
    ensures Nth(F, cl[0], i) == cl[i]
  {
    if i > 0 {
      NthOfLinked(F, cl, end, i - 1);
    }
  }

  /** Following a well-formed chain reaches exactly its clusters. */
  lemma {:induction false} LinkedReaches(F: seq<nat>, cl: seq<nat>, end: nat, d: nat)
    requires Linked(F, cl, end) && |cl| > 0 && !IsLink(F, end)
    ensures Reachable(F, cl[0], d) <==> d in cl
  {
    if d in cl {
      var i :| 0 <= i < |cl| && cl[i] == d;
      NthOfLinked(F, cl, end, i);
    }
    if Reachable(F, cl[0], d) {
      var Z := set z | z in cl;
      forall z | z in Z && IsLink(F, z) && IsLink(F, F[z])
        ensures F[z] in Z
      {
        var i :| 0 <= i < |cl| && cl[i] == z;
        if i < |cl| - 1 {
          assert F[z] == cl[i + 1];
        }
      }
      ReachableIn(F, cl[0], Z, d);
    }
  }

  /** The free clusters. */
  ghost function FreeSet(F: seq<nat>): set<nat> {
    set c: nat | 2 <= c < |F| && F[c] == 0
  }
}
