/** Columns as the code holds them: four bytes in the low half of a 64-bit `unsigned
    long`. */
module AesWords {
  import opened AesField
  import opened AesCipher
  import opened AesRounds

  function Pack(s: Column): (w: bv64) {
    (((s.a as bv64) << 24) | ((s.b as bv64) << 16)) | (((s.c as bv64) << 8) | (s.d as bv64))
  }

  /** The four casts `(uint8) (w >> n)`. */
  function Byte24(w: bv64): bv8 {
    ((w >> 24) & 0xFF) as bv8
  }

  function Byte16(w: bv64): bv8 {
    ((w >> 16) & 0xFF) as bv8
  }

  function Byte8(w: bv64): bv8 {
    ((w >> 8) & 0xFF) as bv8
  }

  function Byte0(w: bv64): bv8 {
    (w & 0xFF) as bv8
  }

  /** Every word that packs a column fits in 32 bits, and its bytes are the entries. */
  lemma PackedBytes(s: Column)
    ensures Pack(s) < 0x1_0000_0000
    ensures Byte24(Pack(s)) == s.a && Byte16(Pack(s)) == s.b && Byte8(Pack(s)) == s.c && Byte0(Pack(s)) == s.d
  {
  }

  lemma PackAdds(s: Column, t: Column)
    ensures Pack(s) ^ Pack(t) == Pack(Plus(s, t))
  {
  }

  /** Addition of words. */
  function Xor(v: bv64, w: bv64): bv64 {
    v ^ w
  }

  lemma PackXor(s: Column, t: Column)
    ensures Xor(Pack(s), Pack(t)) == Pack(Plus(s, t))
  {
    hide Pack, Plus;
    PackAdds(s, t);
  }

  function RotR8(w: bv64): bv64 {
    ((w << 24) & 0xFFFF_FFFF) | ((w & 0xFFFF_FFFF) >> 8)
  }

  lemma RotatedPack(s: Column)
    ensures RotR8(Pack(s)) == Pack(Column(s.d, s.a, s.b, s.c))
  {
  }

  function Low32(w: bv64): bv64 {
    w & 0xFFFF_FFFF
  }

  /** Bytes shifted into place and added, as the table generator does. */
  function Spread(d: bv8, c: bv8, b: bv8, a: bv8): bv64 {
    Low32(Xor(Xor(Xor(d as bv64, (c as bv64) << 8), (b as bv64) << 16), (a as bv64) << 24))
  }

  lemma SpreadIsPack(s: Column)
    ensures Spread(s.d, s.c, s.b, s.a) == Pack(s)
  {
    hide Pack, Xor, Low32;
    PackedSum(s);
    PackMasked(s);
  }

  /** The four bytes do not overlap, so adding them is joining them. */
  lemma PackedSum(s: Column)
    ensures Xor(Xor(Xor(s.d as bv64, (s.c as bv64) << 8), (s.b as bv64) << 16), (s.a as bv64) << 24) == Pack(s)
  {
  }

  lemma PackMasked(s: Column)
    ensures Low32(Pack(s)) == Pack(s)
  {
  }

  /** Four substituted bytes shifted into place and added to a word. */
  lemma ShiftedBytes(k: Column, s: Column)
    ensures Xor(Xor(Xor(Xor(Pack(k), (s.a as bv64) << 24), (s.b as bv64) << 16), (s.c as bv64) << 8), s.d as bv64) == Pack(Plus(k, s))
  {
  }

  // ----- tables are indexed by bytes

  /** The index as a byte. */
  function ByteOf(i: nat): bv8
    requires i < 256
  {
    if i == 0 then 0 else ByteOf(i - 1) + 1
  }

  lemma CodeOfNext(x: bv8)
    requires x != 0xFF
    ensures Code(x + 1) == Code(x) + 1
  {
  }

  lemma {:induction false} CodeOfByte(i: nat)
    requires i < 256
    ensures Code(ByteOf(i)) == i
  {
    hide Code;
    if i > 0 {
      CodeOfByte(i - 1);
      CodeInjective(ByteOf(i - 1), 0xFF);
      CodeLimits();
      CodeOfNext(ByteOf(i - 1));
    } else {
      CodeLimits();
    }
  }

  lemma CodeLimits()
    ensures Code(0) == 0 && Code(0xFF) == 255
  {
  }

  lemma ByteOfCode(x: bv8)
    ensures ByteOf(Code(x)) == x
  {
    hide Code, ByteOf;
    CodeOfByte(Code(x));
    CodeInjective(ByteOf(Code(x)), x);
  }

  // ----- what the round tables hold

  /** The column with x in row k and zeros elsewhere. */
  function Unit(k: nat, x: bv8): Column {
    if k == 0 then Column(x, 0, 0, 0)
    else if k == 1 then Column(0, x, 0, 0)
    else if k == 2 then Column(0, 0, x, 0)
    else Column(0, 0, 0, x)
  }

  /** Row k of a round table: the image of a byte in row k. */
  function TableWord(m: Matrix, k: nat, x: bv8): bv64 {
    Pack(Apply(m, Unit(k, x)))
  }

  lemma ForwardEntry(x: bv8)
    ensures Spread(x ^ XTime(x), x, x, XTime(x)) == TableWord(MIX, 0, x)
  {
    hide Mul, Dot, Pack, Spread, XTime;
    DotUnits(MIX.r0, x);
    DotUnits(MIX.r1, x);
    DotUnits(MIX.r2, x);
    DotUnits(MIX.r3, x);
    MulPowersOfTwo(x);
    MulConstants(x);
    SpreadIsPack(Column(XTime(x), x, x, Add(x, XTime(x))));
  }

  lemma InverseEntry(y: bv8)
    ensures Spread(Mul(0x0B, y), Mul(0x0D, y), Mul(0x09, y), Mul(0x0E, y)) == TableWord(INV_MIX, 0, y)
  {
    hide Mul, Dot, Pack, Spread;
    DotUnits(INV_MIX.r0, y);
    DotUnits(INV_MIX.r1, y);
    DotUnits(INV_MIX.r2, y);
    DotUnits(INV_MIX.r3, y);
    SpreadIsPack(Column(Mul(14, y), Mul(9, y), Mul(13, y), Mul(11, y)));
  }

  /** Both matrices are circulant, so each row of a table is the one above rotated. */
  lemma RowsRotate(k: nat, x: bv8)
    requires k < 3
    ensures RotR8(TableWord(MIX, k, x)) == TableWord(MIX, k + 1, x)
    ensures RotR8(TableWord(INV_MIX, k, x)) == TableWord(INV_MIX, k + 1, x)
  {
    hide Mul, Dot, Pack, RotR8;
    RotatedPack(Apply(MIX, Unit(k, x)));
    RotatedPack(Apply(INV_MIX, Unit(k, x)));
    DotUnits(MIX.r0, x);
    DotUnits(MIX.r1, x);
    DotUnits(MIX.r2, x);
    DotUnits(MIX.r3, x);
    DotUnits(INV_MIX.r0, x);
    DotUnits(INV_MIX.r1, x);
    DotUnits(INV_MIX.r2, x);
    DotUnits(INV_MIX.r3, x);
  }

  /** A matrix product, column by column. */
  lemma ApplyByUnits(m: Matrix, k: Column, s: Column)
    ensures Plus(Plus(Plus(Plus(k, Apply(m, Unit(0, s.a))), Apply(m, Unit(1, s.b))), Apply(m, Unit(2, s.c))), Apply(m, Unit(3, s.d)))
         == Plus(Apply(m, s), k)
  {
    hide Apply, Plus;
    var (t0, t1, t2, t3) := (Apply(m, Unit(0, s.a)), Apply(m, Unit(1, s.b)), Apply(m, Unit(2, s.c)), Apply(m, Unit(3, s.d)));
    ColumnSum(s);
    ApplyAdds(m, Unit(0, s.a), Unit(1, s.b));
    ApplyAdds(m, Unit(2, s.c), Unit(3, s.d));
    ApplyAdds(m, Plus(Unit(0, s.a), Unit(1, s.b)), Plus(Unit(2, s.c), Unit(3, s.d)));
    PlusLaws(k, t0, t1);
    PlusLaws(k, Plus(t0, t1), t2);
    PlusLaws(k, Plus(Plus(t0, t1), t2), t3);
    PlusLaws(Plus(t0, t1), t2, t3);
    PlusLaws(k, Plus(Plus(t0, t1), Plus(t2, t3)), k);
  }

  /** Four table words added to a key word give a column of the matrix product plus the
      key. */
  lemma TableSum(m: Matrix, k: Column, s: Column)
    ensures Xor(Xor(Xor(Xor(Pack(k), TableWord(m, 0, s.a)), TableWord(m, 1, s.b)), TableWord(m, 2, s.c)), TableWord(m, 3, s.d))
         == Pack(Plus(Apply(m, s), k))
  {
    hide Apply, Pack, Plus, Xor;
    var (t0, t1, t2, t3) := (Apply(m, Unit(0, s.a)), Apply(m, Unit(1, s.b)), Apply(m, Unit(2, s.c)), Apply(m, Unit(3, s.d)));
    PackXor(k, t0);
    PackXor(Plus(k, t0), t1);
    PackXor(Plus(Plus(k, t0), t1), t2);
    PackXor(Plus(Plus(Plus(k, t0), t1), t2), t3);
    ApplyByUnits(m, k, s);
  }

  // ----- words of a block

  ghost predicate Packs(x0: bv64, x1: bv64, x2: bv64, x3: bv64, s: Block) {
    x0 == Pack(s.c0) && x1 == Pack(s.c1) && x2 == Pack(s.c2) && x3 == Pack(s.c3)
  }

  /** Four consecutive words of an array hold a block. */
  ghost predicate HoldsAt(a: array<bv64>, o: nat, s: Block)
    reads a
  {
    o + 4 <= a.Length && Packs(a[o], a[o + 1], a[o + 2], a[o + 3], s)
  }

  lemma RconWord(x: bv8)
    ensures (x as bv64) << 24 == Pack(Column(x, 0, 0, 0))
  {
  }

  /** The bytes of a block, column by column. */
  function BlockBytes(s: Block): seq<bv8> {
    [s.c0.a, s.c0.b, s.c0.c, s.c0.d, s.c1.a, s.c1.b, s.c1.c, s.c1.d,
     s.c2.a, s.c2.b, s.c2.c, s.c2.d, s.c3.a, s.c3.b, s.c3.c, s.c3.d]
  }

  function ColumnAt(b: seq<bv8>, i: nat): Column
    requires i + 4 <= |b|
  {
    Column(b[i], b[i + 1], b[i + 2], b[i + 3])
  }

  function BlockOf(b: seq<bv8>): Block
    requires |b| == 16
  {
    Block(ColumnAt(b, 0), ColumnAt(b, 4), ColumnAt(b, 8), ColumnAt(b, 12))
  }

  lemma BlockOfBytes(s: Block, b: seq<bv8>)
    ensures BlockOf(BlockBytes(s)) == s
    ensures |b| == 16 ==> BlockBytes(BlockOf(b)) == b
  {
  }
}
