/** Arithmetic in GF(2^8), FIPS-197 section 4, and the powers of 3 that the table
    generator steps through. */
module AesField {
  import opened FiniteSets

  /** Addition, FIPS-197 section 4.1. */
  function Add(x: bv8, y: bv8): bv8 {
    x ^ y
  }

  /** Multiplication by x, FIPS-197 section 4.2.1. */
  function XTime(x: bv8): bv8 {
    (x << 1) ^ (if x & 0x80 != 0 then 0x1B else 0x00)
  }

  function IfOdd(x: bv8, y: bv8): bv8 {
    if x & 1 != 0 then y else 0
  }

  /** Multiplication, FIPS-197 section 4.2: the sum of x^i times y over the bits i of x. */
  function Mul(x: bv8, y: bv8): bv8 {
    if x == 0 then 0 else Add(IfOdd(x, y), XTime(Mul(x >> 1, y)))
  }

  // ----- multiplication is linear

  lemma AddLaws(a: bv8, b: bv8, c: bv8)
    ensures Add(a, b) == Add(b, a) && Add(Add(a, b), c) == Add(a, Add(b, c))
    ensures Add(a, a) == 0 && Add(a, 0) == a && Add(0, a) == a
  {
  }

  lemma AddRegroup(a: bv8, b: bv8, c: bv8, d: bv8)
    ensures Add(Add(a, b), Add(c, d)) == Add(Add(a, c), Add(b, d))
  {
    hide Add;
    AddLaws(a, b, Add(c, d));
    AddLaws(b, c, d);
    AddLaws(c, b, d);
    AddLaws(a, c, Add(b, d));
  }

  lemma XTimeShifts(x: bv8)
    ensures XTime(x) == (x << 1) ^ (x >> 7) ^ ((x >> 7) << 1) ^ ((x >> 7) << 3) ^ ((x >> 7) << 4)
  {
  }

  lemma XTimeAdds(x: bv8, y: bv8)
    ensures XTime(Add(x, y)) == Add(XTime(x), XTime(y)) && XTime(0) == 0
  {
    hide XTime;
    XTimeShifts(0);
    XTimeShifts(x);
    XTimeShifts(y);
    XTimeShifts(x ^ y);
  }

  lemma IfOddAdds(x: bv8, x': bv8, y: bv8)
    ensures IfOdd(Add(x, x'), y) == Add(IfOdd(x, y), IfOdd(x', y))
    ensures Add(x, x') >> 1 == Add(x >> 1, x' >> 1)
  {
    assert x & 1 == 0 || x & 1 == 1;
    assert x' & 1 == 0 || x' & 1 == 1;
    assert (x ^ x') & 1 == (x & 1) ^ (x' & 1);
  }

  /** The recursion also holds at 0. */
  lemma MulStep(x: bv8, y: bv8)
    ensures Mul(x, y) == Add(IfOdd(x, y), XTime(Mul(x >> 1, y)))
  {
    XTimeAdds(0, 0);
  }

  lemma HalfLess(x: bv8, y: bv8)
    requires x != 0 || y != 0
    ensures (x >> 1) | (y >> 1) < x | y
  {
  }

  lemma {:induction false} MulAddsLeft(x: bv8, x': bv8, y: bv8)
    ensures Mul(Add(x, x'), y) == Add(Mul(x, y), Mul(x', y))
    decreases x | x'
  {
    hide Add, XTime, IfOdd;
    if x == 0 && x' == 0 {
      AddLaws(0, 0, 0);
    } else {
      HalfLess(x, x');
      var (h, h') := (x >> 1, x' >> 1);
      MulStep(x, y);
      MulStep(x', y);
      MulStep(Add(x, x'), y);
      IfOddAdds(x, x', y);
      MulAddsLeft(h, h', y);
      XTimeAdds(Mul(h, y), Mul(h', y));
      AddRegroup(IfOdd(x, y), IfOdd(x', y), XTime(Mul(h, y)), XTime(Mul(h', y)));
    }
  }

  /** No reduction is needed below x^7. */
  lemma MulShiftsLow(x: bv8, y: bv8)
    requires x & 0x80 == 0
    ensures Mul(x << 1, y) == XTime(Mul(x, y))
  {
    hide XTime, Mul;
    assert (x << 1) >> 1 == x && IfOdd(x << 1, y) == 0;
    MulStep(x << 1, y);
  }

  lemma MulPowersOfTwo(y: bv8)
    ensures Mul(0, y) == 0 && Mul(1, y) == y && Mul(2, y) == XTime(y) && Mul(4, y) == XTime(XTime(y))
    ensures Mul(8, y) == XTime(Mul(4, y)) && Mul(16, y) == XTime(Mul(8, y)) && Mul(128, y) == XTime(XTime(XTime(Mul(16, y))))
  {
    hide XTime;
    assert Mul(1, y) == Add(IfOdd(1, y), XTime(Mul(0, y)));
    XTimeAdds(0, 0);
    AddLaws(y, 0, 0);
    MulShiftsLow(1, y);
    MulShiftsLow(2, y);
    MulShiftsLow(4, y);
    MulShiftsLow(8, y);
    MulShiftsLow(16, y);
    MulShiftsLow(32, y);
    MulShiftsLow(64, y);
  }

  /** The other constants the tables use. */
  lemma MulConstants(y: bv8)
    ensures Mul(3, y) == Add(y, Mul(2, y)) && Mul(9, y) == Add(y, Mul(8, y)) && Mul(11, y) == Add(Mul(3, y), Mul(8, y))
    ensures Mul(13, y) == Add(Add(y, Mul(4, y)), Mul(8, y)) && Mul(14, y) == Add(Add(Mul(2, y), Mul(4, y)), Mul(8, y))
    ensures Mul(27, y) == Add(Mul(11, y), Mul(16, y))
  {
    hide XTime, Mul;
    assert Add(1, 2) == 3 && Add(1, 8) == 9 && Add(3, 8) == 11 && Add(1, 4) == 5 && Add(5, 8) == 13;
    assert Add(2, 4) == 6 && Add(6, 8) == 14 && Add(11, 16) == 27;
    MulPowersOfTwo(y);
    MulAddsLeft(1, 2, y);
    MulAddsLeft(1, 8, y);
    MulAddsLeft(3, 8, y);
    MulAddsLeft(1, 4, y);
    MulAddsLeft(5, 8, y);
    MulAddsLeft(2, 4, y);
    MulAddsLeft(6, 8, y);
    MulAddsLeft(11, 16, y);
  }

  /** x^8 = x^4 + x^3 + x + 1. */
  lemma Reduction(y: bv8)
    ensures XTime(Mul(0x80, y)) == Mul(0x1B, y)
  {
    hide Mul, XTime;
    MulPowersOfTwo(y);
    MulConstants(y);
    var y1 := XTime(y);
    var y2 := XTime(y1);
    var y3 := XTime(y2);
    var y4 := XTime(y3);
    assert Mul(27, y) == y ^ y1 ^ y3 ^ y4;
    assert Mul(128, y) == XTime(XTime(XTime(y4)));
    XTime8(y);
  }

  lemma XTime8(y: bv8)
    ensures var y4 := XTime(XTime(XTime(XTime(y))));
      XTime(XTime(XTime(XTime(y4)))) == y ^ XTime(y) ^ XTime(XTime(XTime(y))) ^ y4
  {
  }

  lemma MulXTime(x: bv8, y: bv8)
    ensures Mul(XTime(x), y) == XTime(Mul(x, y))
  {
    hide Mul;
    var lo, hi := x & 0x7F, x & 0x80;
    assert x == Add(lo, hi);
    MulAddsLeft(lo, hi, y);
    XTimeAdds(Mul(lo, y), Mul(hi, y));
    MulShiftsLow(lo, y);
    if hi == 0 {
      assert XTime(x) == lo << 1;
      MulPowersOfTwo(y);
      assert XTime(x) == Add(lo << 1, 0);
    } else {
      assert hi == 0x80;
      assert XTime(x) == Add(lo << 1, 0x1B);
      MulAddsLeft(lo << 1, 0x1B, y);
      Reduction(y);
    }
  }

  // ----- powers of 3

  /** Multiplication by 3, the step of the generator's first loop. */
  function Step(x: bv8): bv8 {
    x ^ XTime(x)
  }

  lemma StepInjective(x: bv8, y: bv8)
    requires Step(x) == Step(y)
    ensures x == y
  {
  }

  lemma MulOfStep(x: bv8, y: bv8)
    ensures Mul(Step(x), y) == Step(Mul(x, y))
  {
    hide Mul, XTime;
    assert Step(x) == Add(x, XTime(x));
    MulAddsLeft(x, XTime(x), y);
    MulXTime(x, y);
  }

  /** The n-th power of 3. */
  function Pow(n: nat): bv8 {
    if n == 0 then 1 else Step(Pow(n - 1))
  }

  lemma {:induction false} MulOfPowers(m: nat, n: nat)
    ensures Mul(Pow(m), Pow(n)) == Pow(m + n)
  {
    hide Step, Mul;
    if m == 0 {
      MulPowersOfTwo(Pow(n));
    } else {
      MulOfStep(Pow(m - 1), Pow(n));
      MulOfPowers(m - 1, n);
    }
  }

  /** The recursion of Mul written out. */
  lemma MulUnrolled(x: bv8, y: bv8)
    ensures Mul(x, y) == Add(IfOdd(x, y), XTime(Add(IfOdd(x >> 1, y), XTime(Add(IfOdd(x >> 2, y), XTime(Add(IfOdd(x >> 3, y),
              XTime(Add(IfOdd(x >> 4, y), XTime(Add(IfOdd(x >> 5, y), XTime(Add(IfOdd(x >> 6, y), XTime(IfOdd(x >> 7, y)))))))))))))))
  {
    hide Mul, Add, XTime, IfOdd;
    MulStep(x, y);
    MulStep(x >> 1, y);
    MulStep(x >> 2, y);
    MulStep(x >> 3, y);
    MulStep(x >> 4, y);
    MulStep(x >> 5, y);
    MulStep(x >> 6, y);
    MulStep(x >> 7, y);
    assert (x >> 1) >> 1 == x >> 2 && (x >> 2) >> 1 == x >> 3 && (x >> 3) >> 1 == x >> 4 && (x >> 4) >> 1 == x >> 5;
    assert (x >> 5) >> 1 == x >> 6 && (x >> 6) >> 1 == x >> 7 && (x >> 7) >> 1 == 0;
    MulPowersOfTwo(y);
    XTimeAdds(0, 0);
    AddLaws(IfOdd(x >> 7, y), 0, 0);
  }

  lemma SquareStep(n: nat, p: bv8, q: bv8)
    requires Pow(n) == p && Step(Mul(p, p)) == q
    ensures Pow(2 * n + 1) == q
  {
    hide Step, Mul;
    MulOfPowers(n, n);
  }

  lemma DoubleStep(n: nat, p: bv8, q: bv8)
    requires Pow(n) == p && Mul(p, p) == q
    ensures Pow(2 * n) == q
  {
    hide Mul;
    MulOfPowers(n, n);
  }

  lemma Pow255()
    ensures Pow(15) == 0x35 && Pow(255) == 1
  {
    hide Mul, Pow;
    assert Pow(1) == Step(1) by { SmallPowers(); }
    MulUnrolled(0x03, 0x03);
    SquareStep(1, 0x03, 0x0F);
    MulUnrolled(0x0F, 0x0F);
    SquareStep(3, 0x0F, 0xFF);
    MulUnrolled(0xFF, 0xFF);
    SquareStep(7, 0xFF, 0x35);
    MulUnrolled(0x35, 0x35);
    SquareStep(15, 0x35, 0xAA);
    MulUnrolled(0xAA, 0xAA);
    SquareStep(31, 0xAA, 0xCD);
    MulUnrolled(0xCD, 0xCD);
    SquareStep(63, 0xCD, 0xA0);
    MulUnrolled(0xA0, 0xA0);
    SquareStep(127, 0xA0, 0x01);
  }

  lemma SmallPowers()
    ensures Pow(0) == 1 && Pow(1) == Step(1) && Pow(2) == Step(Step(1)) && Pow(3) == Step(Step(Step(1)))
  {
  }

  lemma Pow51()
    ensures Pow(51) == 0x0C
  {
    hide Mul, Pow;
    SmallPowers();
    MulUnrolled(0x0F, 0x0F);
    DoubleStep(3, 0x0F, 0x55);
    MulUnrolled(0x55, 0x55);
    DoubleStep(6, 0x55, 0xA1);
    MulUnrolled(0xA1, 0xA1);
    SquareStep(12, 0xA1, 0x02);
    MulUnrolled(0x02, 0x02);
    SquareStep(25, 0x02, 0x0C);
  }

  lemma Pow85()
    ensures Pow(85) == 0xBD
  {
    hide Mul, Pow;
    SmallPowers();
    MulUnrolled(0x05, 0x05);
    SquareStep(2, 0x05, 0x33);
    MulUnrolled(0x33, 0x33);
    DoubleStep(5, 0x33, 0x72);
    MulUnrolled(0x72, 0x72);
    SquareStep(10, 0x72, 0x73);
    MulUnrolled(0x73, 0x73);
    DoubleStep(21, 0x73, 0xD9);
    MulUnrolled(0xD9, 0xD9);
    SquareStep(42, 0xD9, 0xBD);
  }

  // ----- 3 generates every nonzero byte

  lemma {:induction false} PowCancels(m: nat, n: nat)
    requires m <= n && Pow(m) == Pow(n)
    ensures Pow(n - m) == 1
  {
    hide Step;
    if m > 0 {
      StepInjective(Pow(m - 1), Pow(n - 1));
      PowCancels(m - 1, n - 1);
    }
  }

  /** Exponents at which 3 gives 1 can be added and subtracted, so their multiples and
      remainders give 1 too. */
  lemma {:induction false} PowMultiple(d: nat, k: nat)
    requires Pow(d) == 1
    ensures Pow(k * d) == 1
  {
    hide Mul, Step;
    if k > 0 {
      PowMultiple(d, k - 1);
      MulOfPowers((k - 1) * d, d);
      MulPowersOfTwo(1);
      assert k * d == (k - 1) * d + d;
    } else {
      assert k * d == 0;
    }
  }

  lemma {:induction false} PowRemainder(d: nat, n: nat)
    requires d > 0 && Pow(d) == 1 && Pow(n) == 1
    ensures Pow(n % d) == 1
  {
    hide Pow, Step, Mul;
    PowMultiple(d, n / d);
    assert n == (n / d) * d + n % d;
    PowDifference((n / d) * d, n % d);
  }

  lemma PowDifference(m: nat, r: nat)
    requires Pow(m) == 1 && Pow(m + r) == 1
    ensures Pow(r) == 1
  {
    hide Step, Mul;
    MulOfPowers(m, r);
    MulPowersOfTwo(Pow(r));
  }

  /** The factors of 255 up to 15. */
  lemma {:induction false} SmallFactor(c: nat, e: nat)
    requires c <= 15 && c * e == 255
    ensures c == 1 || c == 3 || c == 5 || c == 15
  {
    assert c == 0 ==> c * e == 0 * e;
    assert c == 2 ==> c * e == 2 * e;
    assert c == 4 ==> c * e == 4 * e;
    assert c == 6 ==> c * e == 6 * e;
    assert c == 7 ==> c * e == 7 * e;
    assert c == 8 ==> c * e == 8 * e;
    assert c == 9 ==> c * e == 9 * e;
    assert c == 10 ==> c * e == 10 * e;
    assert c == 11 ==> c * e == 11 * e;
    assert c == 12 ==> c * e == 12 * e;
    assert c == 13 ==> c * e == 13 * e;
    assert c == 14 ==> c * e == 14 * e;
  }

  lemma {:induction false} LargeFactors(c: nat, e: nat)
    requires c >= 16 && e >= 16
    ensures c * e >= 256
  {
    assert c * e == 16 * e + (c - 16) * e;
    assert (c - 16) * e >= 0;
  }

  /** An exponent that divides 255 properly does not give 1. */
  lemma {:induction false} NoProperDivisor(d: nat, k: nat)
    requires d * k == 255 && k > 1
    ensures Pow(d) != 1
  {
    hide Pow;
    Pow255();
    Pow51();
    Pow85();
    if Pow(d) == 1 {
      if d <= 15 {
        SmallFactor(d, k);
        PowMultiple(d, 15 / d);
      } else if k <= 15 {
        assert k * d == 255;
        SmallFactor(k, d);
        if k == 15 {
          PowMultiple(d, 3);
        }
      } else {
        LargeFactors(d, k);
      }
    }
  }

  /** The least positive exponent that gives 1 divides every other one. */
  lemma {:induction false} OrderDivides(d: nat, n: nat)
    requires 0 < d && Pow(d) == 1 && Pow(n) == 1
    requires forall e :: 0 < e < d ==> Pow(e) != 1
    ensures n == d * (n / d)
  {
    hide Pow;
    PowRemainder(d, n);
    assert n == d * (n / d) + n % d;
  }

  lemma {:induction false} LeastExponent(n: nat) returns (d: nat)
    requires 0 < n && Pow(n) == 1
    ensures 0 < d <= n && Pow(d) == 1 && forall e :: 0 < e < d ==> Pow(e) != 1
  {
    hide Pow;
    d := 1;
    while Pow(d) != 1
      invariant 0 < d <= n && forall e :: 0 < e < d ==> Pow(e) != 1
      decreases n - d
    {
      d := d + 1;
    }
  }

  lemma {:induction false} FactorAboveOne(d: int, k: int)
    requires 0 < d < 255 && 0 <= k && d * k == 255
    ensures k > 1
  {
  }

  lemma {:induction false} OrderIs255(n: nat)
    requires 0 < n < 255
    ensures Pow(n) != 1
  {
    hide Pow;
    if Pow(n) == 1 {
      var d := LeastExponent(n);
      Pow255();
      OrderDivides(d, 255);
      FactorAboveOne(d, 255 / d);
      NoProperDivisor(d, 255 / d);
    }
  }

  /** The first 255 powers are all different. */
  lemma {:induction false} PowInjective(m: nat, n: nat)
    requires m < n < 255 || (0 < m < n <= 255)
    ensures Pow(m) != Pow(n)
  {
    hide Pow;
    if Pow(m) == Pow(n) {
      PowCancels(m, n);
      OrderIs255(n - m);
    }
  }

  lemma {:induction false} PowPeriodic(n: nat)
    ensures Pow(n % 255) == Pow(n)
    decreases n
  {
    hide Pow;
    if n >= 255 {
      PowPeriodic(n - 255);
      Pow255();
      MulOfPowers(255, n - 255);
      MulPowersOfTwo(Pow(n - 255));
    }
  }

  lemma {:induction false} PowNonzero(n: nat)
    ensures Pow(n) != 0
  {
    hide Step;
    if n > 0 {
      PowNonzero(n - 1);
      StepNonzero(Pow(n - 1));
    }
  }

  lemma StepNonzero(x: bv8)
    ensures Step(x) == 0 ==> x == 0
  {
  }

  /** The index of a byte in a table. */
  function Code(x: bv8): (n: nat)
    ensures n < 256
  {
    x as nat
  }

  lemma CodeInjective(x: bv8, y: bv8)
    ensures Code(x) == Code(y) ==> x == y
    ensures x != 0 ==> Code(x) > 0
  {
  }

  ghost function Powers(n: nat): set<nat> {
    if n == 0 then {} else Powers(n - 1) + {Code(Pow(n))}
  }

  ghost predicate IsPower(z: nat, n: nat) {
    exists k: nat :: 1 <= k <= n && Code(Pow(k)) == z
  }

  lemma {:induction false} PowersCount(n: nat)
    requires n <= 255
    ensures |Powers(n)| == n
    ensures forall z: nat :: z in Powers(n) ==> 1 <= z < 256 && IsPower(z, n)
  {
    hide Pow, Code;
    if n > 0 {
      PowersCount(n - 1);
      PowNonzero(n);
      CodeInjective(Pow(n), 0);
      if Code(Pow(n)) in Powers(n - 1) {
        var k: nat :| 1 <= k <= n - 1 && Code(Pow(k)) == Code(Pow(n));
        CodeInjective(Pow(k), Pow(n));
        PowInjective(k, n);
      }
      forall z: nat | z in Powers(n)
        ensures 1 <= z < 256 && IsPower(z, n)
      {
        if z in Powers(n - 1) {
          var k: nat :| 1 <= k <= n - 1 && Code(Pow(k)) == z;
        } else {
          assert z == Code(Pow(n));
        }
      }
    }
  }

  /** Every nonzero byte is a power of 3. */
  lemma {:induction false} PowOnto(x: bv8)
    requires x != 0
    ensures exists n :: 1 <= n <= 255 && Pow(n) == x
  {
    hide Pow, Code;
    PowersCount(255);
    CodeInjective(x, 0);
    RangeFilled(Powers(255), 1, 256, Code(x));
    assert IsPower(Code(x), 255);
    var n: nat :| 1 <= n <= 255 && Code(Pow(n)) == Code(x);
    CodeInjective(Pow(n), x);
  }

  /** The discrete logarithm that the generator tabulates (255, not 0, for 1). */
  ghost function Log(x: bv8): (n: nat)
    requires x != 0
    ensures 1 <= n <= 255 && Pow(n) == x
  {
    PowOnto(x);
    var n :| 1 <= n <= 255 && Pow(n) == x;
    n
  }

  // ----- inverses

  /** The multiplicative inverse, 0 for 0, as FIPS-197 section 5.1.1 wants it. */
  ghost function Inverse(x: bv8): bv8 {
    if x == 0 then 0 else Pow(255 - Log(x))
  }

  lemma InverseIsInverse(x: bv8)
    requires x != 0
    ensures Inverse(x) != 0 && Mul(x, Inverse(x)) == 1 && Mul(Inverse(x), x) == 1
  {
    hide Pow, Mul;
    MulOfPowers(Log(x), 255 - Log(x));
    MulOfPowers(255 - Log(x), Log(x));
    Pow255();
    PowNonzero(255 - Log(x));
  }

  lemma MulCommutes(x: bv8, y: bv8)
    ensures Mul(x, y) == Mul(y, x)
  {
    hide Pow, Mul;
    if x == 0 || y == 0 {
      MulZero(x);
      MulZero(y);
    } else {
      MulOfPowers(Log(x), Log(y));
      MulOfPowers(Log(y), Log(x));
    }
  }

  lemma {:induction false} MulZero(x: bv8)
    ensures Mul(x, 0) == 0 && Mul(0, x) == 0
    decreases x
  {
    hide XTime;
    XTimeAdds(0, 0);
    AddLaws(0, 0, 0);
    if x != 0 {
      assert x >> 1 < x;
      MulZero(x >> 1);
    }
  }

  /** There is only one inverse. */
  lemma InverseUnique(x: bv8, y: bv8)
    requires Mul(x, y) == 1
    ensures x != 0 && y == Inverse(x)
  {
    hide Pow, Mul;
    MulZero(x);
    MulZero(y);
    var (m, n) := (Log(x), Log(y));
    MulOfPowers(m, n);
    Pow255();
    SmallPowers();
    if m + n < 255 {
      OrderIs255(m + n);
    } else if m + n > 255 {
      MulOfPowers(255, m + n - 255);
      MulPowersOfTwo(Pow(m + n - 255));
      if m + n < 510 {
        OrderIs255(m + n - 255);
      }
    }
  }

  lemma PowersAssociate(m: nat, n: nat, k: nat)
    ensures Mul(Pow(m), Mul(Pow(n), Pow(k))) == Mul(Mul(Pow(m), Pow(n)), Pow(k))
  {
    hide Pow, Mul;
    MulOfPowers(n, k);
    MulOfPowers(m, n + k);
    MulOfPowers(m, n);
    MulOfPowers(m + n, k);
  }

  lemma MulAssociates(x: bv8, y: bv8, z: bv8)
    ensures Mul(x, Mul(y, z)) == Mul(Mul(x, y), z)
  {
    hide Pow, Mul;
    if x == 0 {
      MulZero(y);
      MulZero(z);
      MulZero(Mul(y, z));
    } else if y == 0 {
      MulZero(x);
      MulZero(z);
    } else if z == 0 {
      MulZero(x);
      MulZero(y);
      MulZero(Mul(x, y));
    } else {
      PowersAssociate(Log(x), Log(y), Log(z));
    }
  }

  lemma InverseTwice(x: bv8)
    ensures Inverse(Inverse(x)) == x
  {
    hide Pow, Mul;
    if x != 0 {
      InverseIsInverse(x);
      InverseUnique(Inverse(x), x);
    }
  }
}
