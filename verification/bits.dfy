/** Bits of natural numbers, and what masks match. */
module Bits {
  import opened MachineWord

  predicate Bit(x: nat, i: nat) {
    if i == 0 then x % 2 == 1 else Bit(x / 2, i - 1)
  }

  function And(x: nat, y: nat): (z: nat)
    ensures z <= x && z <= y
  {
    if x == 0 || y == 0 then 0 else 2 * And(x / 2, y / 2) + (if x % 2 == 1 && y % 2 == 1 then 1 else 0)
  }

  function Or(x: nat, y: nat): nat {
    if x == 0 && y == 0 then 0 else 2 * Or(x / 2, y / 2) + (if x % 2 == 1 || y % 2 == 1 then 1 else 0)
  }

  function Xor(x: nat, y: nat): nat {
    if x == 0 && y == 0 then 0 else 2 * Xor(x / 2, y / 2) + (if x % 2 != y % 2 then 1 else 0)
  }

  /** The complement in w bits. */
  function Not(x: nat, w: nat): nat {
    if w == 0 then 0 else 2 * Not(x / 2, w - 1) + (1 - x % 2)
  }

  lemma {:induction false} ZeroBit(i: nat)
    ensures !Bit(0, i)
  {
    if i > 0 {
      ZeroBit(i - 1);
    }
  }

  lemma {:induction false} AndBit(x: nat, y: nat, i: nat)
    ensures Bit(And(x, y), i) <==> Bit(x, i) && Bit(y, i)
  {
    if x == 0 || y == 0 {
      ZeroBit(i);
    } else if i > 0 {
      AndBit(x / 2, y / 2, i - 1);
    }
  }

  lemma {:induction false} OrBit(x: nat, y: nat, i: nat)
    ensures Bit(Or(x, y), i) <==> Bit(x, i) || Bit(y, i)
  {
    if x == 0 && y == 0 {
      ZeroBit(i);
    } else if i > 0 {
      OrBit(x / 2, y / 2, i - 1);
    }
  }

  lemma {:induction false} XorBit(x: nat, y: nat, i: nat)
    ensures Bit(Xor(x, y), i) <==> Bit(x, i) != Bit(y, i)
  {
    if x == 0 && y == 0 {
      ZeroBit(i);
    } else if i > 0 {
      XorBit(x / 2, y / 2, i - 1);
    }
  }

  lemma {:induction false} NotBit(x: nat, w: nat, i: nat)
    requires i < w
    ensures Bit(Not(x, w), i) <==> !Bit(x, i)
  {
    var t := Not(x / 2, w - 1);
    assert Not(x, w) / 2 == t && Not(x, w) % 2 == 1 - x % 2;
    if i > 0 {
      NotBit(x / 2, w - 1, i - 1);
    }
  }

  function Pow2(w: nat): (n: nat)
    ensures n > 0
  {
    if w == 0 then 1 else 2 * Pow2(w - 1)
  }

  lemma WordIsPower()
    ensures Pow2(64) == WORD
  {
    assert Pow2(8) == 256;
    assert Pow2(16) == 0x1_0000;
    assert Pow2(24) == 0x100_0000;
    assert Pow2(32) == 0x1_0000_0000;
    assert Pow2(40) == 0x100_0000_0000;
    assert Pow2(48) == 0x1_0000_0000_0000;
    assert Pow2(56) == 0x100_0000_0000_0000;
  }

  lemma {:induction false} PowerGrows(j: nat, k: nat)
    requires j < k
    ensures Pow2(j) < Pow2(k)
  {
    if j < k - 1 {
      PowerGrows(j, k - 1);
    }
  }

  /** Numbers of w bits with the same bits are equal. */
  lemma {:induction false} SameBits(x: nat, y: nat, w: nat)
    requires x < Pow2(w) && y < Pow2(w) && forall i: nat :: i < w ==> Bit(x, i) == Bit(y, i)
    ensures x == y
  {
    if w > 0 {
      forall i: nat | i < w - 1
        ensures Bit(x / 2, i) == Bit(y / 2, i)
      {
        assert Bit(x, i + 1) == Bit(y, i + 1);
      }
      SameBits(x / 2, y / 2, w - 1);
      assert Bit(x, 0) == Bit(y, 0);
    }
  }

  // ----- matching

  /** x equals a on all one bits of m, among the lowest w bits. */
  ghost predicate MatchBits(a: nat, m: nat, x: nat, w: nat) {
    forall i: nat :: i < w && Bit(m, i) ==> Bit(x, i) == Bit(a, i)
  }

  lemma MatchHalves(a: nat, m: nat, x: nat, w: nat)
    requires w > 0
    ensures MatchBits(a, m, x, w) <==> MatchBits(a / 2, m / 2, x / 2, w - 1) && (m % 2 == 1 ==> x % 2 == a % 2)
  {
    if MatchBits(a, m, x, w) {
      forall i: nat | i < w - 1 && Bit(m / 2, i)
        ensures Bit(x / 2, i) == Bit(a / 2, i)
      {
        assert Bit(m, i + 1);
      }
      assert m % 2 == 1 ==> Bit(m, 0);
    }
    if MatchBits(a / 2, m / 2, x / 2, w - 1) && (m % 2 == 1 ==> x % 2 == a % 2) {
      forall i: nat | i < w && Bit(m, i)
        ensures Bit(x, i) == Bit(a, i)
      {
        if i > 0 {
          assert Bit(m / 2, i - 1);
        }
      }
    }
  }

  /** How many of the lowest w bits are zero. */
  function Zeros(m: nat, w: nat): nat {
    if w == 0 then 0 else Zeros(m / 2, w - 1) + (if m % 2 == 0 then 1 else 0)
  }

  ghost function Shifted(S: set<nat>, b: nat): set<nat> {
    set x | x in S :: 2 * x + b
  }

  lemma InShifted(S: set<nat>, b: nat, x: nat)
    requires b < 2
    ensures x in Shifted(S, b) <==> x / 2 in S && x % 2 == b
  {
    if x / 2 in S && x % 2 == b {
      assert x == 2 * (x / 2) + b;
    }
  }

  lemma ShiftedNext(S: set<nat>, x: nat, b: nat)
    requires b < 2 && x in S
    ensures Shifted(S, b) == Shifted(S - {x}, b) + {2 * x + b} && 2 * x + b !in Shifted(S - {x}, b)
  {
    hide Shifted;
    forall y: nat
      ensures y in Shifted(S, b) <==> y in Shifted(S - {x}, b) || y == 2 * x + b
    {
      InShifted(S, b, y);
      InShifted(S - {x}, b, y);
    }
    InShifted(S - {x}, b, 2 * x + b);
  }

  lemma {:induction false} ShiftedSize(S: set<nat>, b: nat)
    requires b < 2
    ensures |Shifted(S, b)| == |S|
  {
    hide Shifted;
    if S == {} {
      ShiftedNothing(b);
    } else {
      var x :| x in S;
      ShiftedSize(S - {x}, b);
      ShiftedNext(S, x, b);
    }
  }

  lemma ShiftedNothing(b: nat)
    ensures Shifted({}, b) == {}
  {
  }

  /** The numbers of w bits that match. */
  ghost function MatchSet(a: nat, m: nat, w: nat): set<nat> {
    if w == 0 then {0}
    else
      var S := MatchSet(a / 2, m / 2, w - 1);
      if m % 2 == 1 then Shifted(S, a % 2) else Shifted(S, 0) + Shifted(S, 1)
  }

  lemma {:induction false} InMatchSet(a: nat, m: nat, w: nat, x: nat)
    ensures x in MatchSet(a, m, w) <==> x < Pow2(w) && MatchBits(a, m, x, w)
  {
    hide Shifted, Bit;
    if w > 0 {
      InMatchSet(a / 2, m / 2, w - 1, x / 2);
      MatchHalves(a, m, x, w);
      var S := MatchSet(a / 2, m / 2, w - 1);
      InShifted(S, a % 2, x);
      InShifted(S, 0, x);
      InShifted(S, 1, x);
      HalfBelow(x, w);
    }
  }

  lemma HalfBelow(x: nat, w: nat)
    requires w > 0
    ensures x < Pow2(w) <==> x / 2 < Pow2(w - 1)
  {
  }

  /** A mask matches two to the power of its zero bits. */
  lemma {:induction false} MatchCount(a: nat, m: nat, w: nat)
    ensures |MatchSet(a, m, w)| == Pow2(Zeros(m, w))
  {
    hide Shifted;
    if w > 0 {
      MatchCount(a / 2, m / 2, w - 1);
      var S := MatchSet(a / 2, m / 2, w - 1);
      ShiftedSize(S, a % 2);
      ShiftedSize(S, 0);
      ShiftedSize(S, 1);
      EvenOdd(S);
    }
  }

  lemma EvenOdd(S: set<nat>)
    ensures Shifted(S, 0) !! Shifted(S, 1)
  {
    hide Shifted;
    forall x | x in Shifted(S, 0)
      ensures x !in Shifted(S, 1)
    {
      InShifted(S, 0, x);
      InShifted(S, 1, x);
    }
  }

  // ----- masks with fewer ones

  ghost predicate Fewer(m: nat, n: nat, w: nat) {
    forall i: nat :: i < w && Bit(m, i) ==> Bit(n, i)
  }

  lemma FewerHalves(m: nat, n: nat, w: nat)
    requires w > 0 && Fewer(m, n, w)
    ensures Fewer(m / 2, n / 2, w - 1) && (m % 2 == 1 ==> n % 2 == 1)
  {
    forall i: nat | i < w - 1 && Bit(m / 2, i)
      ensures Bit(n / 2, i)
    {
      assert Bit(m, i + 1);
    }
    assert m % 2 == 1 ==> Bit(m, 0);
  }

  /** Fewer ones are more zeros, and as many zeros only for the same mask. */
  lemma {:induction false} FewerZeros(m: nat, n: nat, w: nat)
    requires Fewer(m, n, w) && m < Pow2(w) && n < Pow2(w)
    ensures Zeros(n, w) <= Zeros(m, w) <= w
    ensures Zeros(n, w) == Zeros(m, w) <==> m == n
  {
    if w > 0 {
      FewerHalves(m, n, w);
      FewerZeros(m / 2, n / 2, w - 1);
    }
  }
}
