/** The cipher of FIPS-197: S-box, rounds, key expansion, and its inverse. */
module AesCipher {
  import opened AesField

  // ----- S-box, FIPS-197 sections 5.1.1 and 5.3.2

  function Affine(x: bv8): bv8 {
    x ^ ((x << 1) | (x >> 7)) ^ ((x << 2) | (x >> 6)) ^ ((x << 3) | (x >> 5)) ^ ((x << 4) | (x >> 4)) ^ 0x63
  }

  function InvAffine(y: bv8): bv8 {
    ((y << 1) | (y >> 7)) ^ ((y << 3) | (y >> 5)) ^ ((y << 6) | (y >> 2)) ^ 0x05
  }

  ghost function Sub(x: bv8): bv8 {
    Affine(Inverse(x))
  }

  ghost function InvSub(y: bv8): bv8 {
    Inverse(InvAffine(y))
  }

  lemma AffineInverse(x: bv8)
    ensures InvAffine(Affine(x)) == x && Affine(InvAffine(x)) == x
  {
  }

  lemma SubInverse(x: bv8)
    ensures InvSub(Sub(x)) == x && Sub(InvSub(x)) == x
  {
    hide Affine, InvAffine, Inverse;
    AffineInverse(Inverse(x));
    InverseTwice(x);
    AffineInverse(x);
    InverseTwice(InvAffine(x));
  }

  // ----- columns, FIPS-197 sections 4.3 and 5.1.3

  /** A column of the state, a word of the key. */
  datatype Column = Column(a: bv8, b: bv8, c: bv8, d: bv8)

  function Plus(s: Column, t: Column): Column {
    Column(Add(s.a, t.a), Add(s.b, t.b), Add(s.c, t.c), Add(s.d, t.d))
  }

  lemma PlusLaws(s: Column, t: Column, u: Column)
    ensures Plus(s, t) == Plus(t, s) && Plus(Plus(s, t), u) == Plus(s, Plus(t, u)) && Plus(Plus(s, t), t) == s
  {
    hide Add;
    AddLaws(s.a, t.a, u.a);
    AddLaws(s.b, t.b, u.b);
    AddLaws(s.c, t.c, u.c);
    AddLaws(s.d, t.d, u.d);
    AddLaws(s.a, t.a, t.a);
    AddLaws(s.b, t.b, t.b);
    AddLaws(s.c, t.c, t.c);
    AddLaws(s.d, t.d, t.d);
    AddLaws(t.a, 0, 0);
    AddLaws(t.b, 0, 0);
    AddLaws(t.c, 0, 0);
    AddLaws(t.d, 0, 0);
  }

  /** A row of a matrix times a column. */
  function Dot(k: Column, s: Column): bv8 {
    Add(Add(Mul(k.a, s.a), Mul(k.b, s.b)), Add(Mul(k.c, s.c), Mul(k.d, s.d)))
  }

  datatype Matrix = Matrix(r0: Column, r1: Column, r2: Column, r3: Column)

  function Apply(m: Matrix, s: Column): Column {
    Column(Dot(m.r0, s), Dot(m.r1, s), Dot(m.r2, s), Dot(m.r3, s))
  }

  const MIX := Matrix(Column(2, 3, 1, 1), Column(1, 2, 3, 1), Column(1, 1, 2, 3), Column(3, 1, 1, 2))

  const INV_MIX := Matrix(Column(14, 11, 13, 9), Column(9, 14, 11, 13), Column(13, 9, 14, 11), Column(11, 13, 9, 14))

  lemma MulAddsRight(k: bv8, x: bv8, y: bv8)
    ensures Mul(k, Add(x, y)) == Add(Mul(k, x), Mul(k, y))
  {
    hide Mul, Add;
    MulCommutes(k, Add(x, y));
    MulCommutes(k, x);
    MulCommutes(k, y);
    MulAddsLeft(x, y, k);
  }

  lemma DotAdds(k: Column, s: Column, t: Column)
    ensures Dot(k, Plus(s, t)) == Add(Dot(k, s), Dot(k, t))
  {
    hide Mul, Add;
    MulAddsRight(k.a, s.a, t.a);
    MulAddsRight(k.b, s.b, t.b);
    MulAddsRight(k.c, s.c, t.c);
    MulAddsRight(k.d, s.d, t.d);
    AddRegroup(Mul(k.a, s.a), Mul(k.a, t.a), Mul(k.b, s.b), Mul(k.b, t.b));
    AddRegroup(Mul(k.c, s.c), Mul(k.c, t.c), Mul(k.d, s.d), Mul(k.d, t.d));
    AddRegroup(Add(Mul(k.a, s.a), Mul(k.b, s.b)), Add(Mul(k.a, t.a), Mul(k.b, t.b)),
               Add(Mul(k.c, s.c), Mul(k.d, s.d)), Add(Mul(k.c, t.c), Mul(k.d, t.d)));
  }

  lemma ApplyAdds(m: Matrix, s: Column, t: Column)
    ensures Apply(m, Plus(s, t)) == Plus(Apply(m, s), Apply(m, t))
  {
    hide Dot, Add;
    DotAdds(m.r0, s, t);
    DotAdds(m.r1, s, t);
    DotAdds(m.r2, s, t);
    DotAdds(m.r3, s, t);
  }

  /** Scaling a column scales its product with a row. */
  lemma DotScales(k: Column, m: Column, x: bv8)
    ensures Dot(k, Column(Mul(m.a, x), Mul(m.b, x), Mul(m.c, x), Mul(m.d, x))) == Mul(Dot(k, m), x)
  {
    hide Mul, Add;
    MulAssociates(k.a, m.a, x);
    MulAssociates(k.b, m.b, x);
    MulAssociates(k.c, m.c, x);
    MulAssociates(k.d, m.d, x);
    MulAddsLeft(Mul(k.a, m.a), Mul(k.b, m.b), x);
    MulAddsLeft(Mul(k.c, m.c), Mul(k.d, m.d), x);
    MulAddsLeft(Add(Mul(k.a, m.a), Mul(k.b, m.b)), Add(Mul(k.c, m.c), Mul(k.d, m.d)), x);
  }

  /** A column is the sum of its entries in place. */
  lemma ColumnSum(s: Column)
    ensures s == Plus(Plus(Column(s.a, 0, 0, 0), Column(0, s.b, 0, 0)), Plus(Column(0, 0, s.c, 0), Column(0, 0, 0, s.d)))
  {
    hide Add;
    AddLaws(s.a, 0, 0);
    AddLaws(s.b, 0, 0);
    AddLaws(s.c, 0, 0);
    AddLaws(s.d, 0, 0);
    AddLaws(0, 0, 0);
  }

  lemma DotUnits(k: Column, x: bv8)
    ensures Dot(k, Column(x, 0, 0, 0)) == Mul(k.a, x) && Dot(k, Column(0, x, 0, 0)) == Mul(k.b, x)
    ensures Dot(k, Column(0, 0, x, 0)) == Mul(k.c, x) && Dot(k, Column(0, 0, 0, x)) == Mul(k.d, x)
  {
    hide Mul, Add;
    MulZero(k.a);
    MulZero(k.b);
    MulZero(k.c);
    MulZero(k.d);
    AddLaws(Mul(k.a, x), 0, 0);
    AddLaws(Mul(k.b, x), 0, 0);
    AddLaws(Mul(k.c, x), 0, 0);
    AddLaws(Mul(k.d, x), 0, 0);
    AddLaws(0, 0, 0);
  }

  /** A row times a matrix. */
  function RowTimes(k: Column, m: Matrix): Column {
    Column(Dot(k, Column(m.r0.a, m.r1.a, m.r2.a, m.r3.a)), Dot(k, Column(m.r0.b, m.r1.b, m.r2.b, m.r3.b)),
           Dot(k, Column(m.r0.c, m.r1.c, m.r2.c, m.r3.c)), Dot(k, Column(m.r0.d, m.r1.d, m.r2.d, m.r3.d)))
  }

  lemma DotApplyUnits(k: Column, m: Matrix, x: bv8)
    ensures Dot(k, Apply(m, Column(x, 0, 0, 0))) == Mul(RowTimes(k, m).a, x)
    ensures Dot(k, Apply(m, Column(0, x, 0, 0))) == Mul(RowTimes(k, m).b, x)
    ensures Dot(k, Apply(m, Column(0, 0, x, 0))) == Mul(RowTimes(k, m).c, x)
    ensures Dot(k, Apply(m, Column(0, 0, 0, x))) == Mul(RowTimes(k, m).d, x)
  {
    hide Mul, Add, Dot;
    DotUnits(m.r0, x);
    DotUnits(m.r1, x);
    DotUnits(m.r2, x);
    DotUnits(m.r3, x);
    DotScales(k, Column(m.r0.a, m.r1.a, m.r2.a, m.r3.a), x);
    DotScales(k, Column(m.r0.b, m.r1.b, m.r2.b, m.r3.b), x);
    DotScales(k, Column(m.r0.c, m.r1.c, m.r2.c, m.r3.c), x);
    DotScales(k, Column(m.r0.d, m.r1.d, m.r2.d, m.r3.d), x);
  }

  /** A row times the image of a column is the row times the matrix, times the column. */
  lemma DotApply(k: Column, m: Matrix, s: Column)
    ensures Dot(k, Apply(m, s)) == Dot(RowTimes(k, m), s)
  {
    hide Mul, Add, Apply, RowTimes, Plus;
    var (s0, s1, s2, s3) := (Column(s.a, 0, 0, 0), Column(0, s.b, 0, 0), Column(0, 0, s.c, 0), Column(0, 0, 0, s.d));
    ColumnSum(s);
    ApplyAdds(m, s0, s1);
    ApplyAdds(m, s2, s3);
    ApplyAdds(m, Plus(s0, s1), Plus(s2, s3));
    DotAdds(k, Apply(m, s0), Apply(m, s1));
    DotAdds(k, Apply(m, s2), Apply(m, s3));
    DotAdds(k, Plus(Apply(m, s0), Apply(m, s1)), Plus(Apply(m, s2), Apply(m, s3)));
    DotApplyUnits(k, m, s.a);
    DotApplyUnits(k, m, s.b);
    DotApplyUnits(k, m, s.c);
    DotApplyUnits(k, m, s.d);
  }

  lemma SmallProducts(k: bv8)
    ensures Mul(k, 1) == k && Mul(k, 2) == XTime(k) && Mul(k, 3) == Add(k, XTime(k))
  {
    hide Mul, XTime;
    MulCommutes(k, 1);
    MulCommutes(k, 2);
    MulCommutes(k, 3);
    MulPowersOfTwo(k);
    MulConstants(k);
  }

  /** The two matrices are inverse to each other. */
  lemma InverseMatrices()
    ensures RowTimes(INV_MIX.r0, MIX) == Column(1, 0, 0, 0) && RowTimes(INV_MIX.r1, MIX) == Column(0, 1, 0, 0)
    ensures RowTimes(INV_MIX.r2, MIX) == Column(0, 0, 1, 0) && RowTimes(INV_MIX.r3, MIX) == Column(0, 0, 0, 1)
  {
    hide Mul;
    SmallProducts(9);
    SmallProducts(11);
    SmallProducts(13);
    SmallProducts(14);
  }

  function MixColumn(s: Column): Column {
    Apply(MIX, s)
  }

  function InvMixColumn(s: Column): Column {
    Apply(INV_MIX, s)
  }

  /** A unit row picks an entry. */
  lemma UnitRows(s: Column)
    ensures Dot(Column(1, 0, 0, 0), s) == s.a && Dot(Column(0, 1, 0, 0), s) == s.b
    ensures Dot(Column(0, 0, 1, 0), s) == s.c && Dot(Column(0, 0, 0, 1), s) == s.d
  {
    hide Mul, Add;
    MulPowersOfTwo(s.a);
    MulPowersOfTwo(s.b);
    MulPowersOfTwo(s.c);
    MulPowersOfTwo(s.d);
    AddLaws(s.a, 0, 0);
    AddLaws(s.b, 0, 0);
    AddLaws(s.c, 0, 0);
    AddLaws(s.d, 0, 0);
    AddLaws(0, 0, 0);
  }

  lemma MixInverse(s: Column)
    ensures InvMixColumn(MixColumn(s)) == s
  {
    hide Dot, RowTimes;
    InverseMatrices();
    UnitRows(s);
    DotApply(INV_MIX.r0, MIX, s);
    DotApply(INV_MIX.r1, MIX, s);
    DotApply(INV_MIX.r2, MIX, s);
    DotApply(INV_MIX.r3, MIX, s);
  }
}
