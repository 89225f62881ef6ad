/** Counting in finite sets of numbers. */
module FiniteSets {
  lemma {:induction false} RangeSize(Z: set<nat>, lo: nat, hi: nat)
    requires lo <= hi
    requires forall z :: z in Z ==> lo <= z < hi
    ensures |Z| <= hi - lo
    decreases hi - lo
  {
    if lo == hi {
      assert Z == {};
    } else {
      RangeSize(Z - {hi - 1}, lo, hi - 1);
    }
  }

  lemma {:induction false} SubsetSize<T>(A: set<T>, B: set<T>)
    requires A <= B
    ensures |A| <= |B|
  {
    if A != {} {
      var a :| a in A;
      SubsetSize(A - {a}, B - {a});
    }
  }

  /** The numbers in a list. */
  ghost function SetOf(s: seq<nat>): set<nat> {
    set x | x in s
  }

  lemma {:induction false} SetOfSize(s: seq<nat>)
    ensures |SetOf(s)| <= |s|
    ensures (forall i, j :: 0 <= i < j < |s| ==> s[i] != s[j]) ==> |SetOf(s)| == |s|
  {
    if s != [] {
      var n := |s| - 1;
      SetOfSize(s[..n]);
      assert SetOf(s) == SetOf(s[..n]) + {s[n]};
    }
  }

  /** As many numbers as a range has places fill it. */
  lemma {:induction false} RangeFilled(Z: set<nat>, lo: nat, hi: nat, x: nat)
    requires lo <= x < hi && |Z| == hi - lo
    requires forall z :: z in Z ==> lo <= z < hi
    ensures x in Z
  {
    if x !in Z {
      RangeSize(Z + {x}, lo, hi);
    }
  }
}
