/** The table-driven implementation: generated tables, key schedule, encryption and
    decryption of a block. */
module Aes {
  import opened AesField
  import opened AesCipher
  import opened AesRounds
  import opened AesWords

  /** A table of powers and one of logarithms, complete. */
  ghost predicate IsPowLog(pow: seq<bv8>, log: seq<bv8>) {
    && |pow| == |log| == 256
    && (forall j :: 0 <= j < 256 ==> pow[j] == Pow(j))
    && (forall j :: 1 <= j < 256 ==> log[Code(Pow(j))] == ByteOf(j))
  }

  lemma LogEntry(pow: seq<bv8>, log: seq<bv8>, x: bv8)
    requires IsPowLog(pow, log) && x != 0
    ensures Code(log[Code(x)]) == Log(x)
  {
    hide Code, ByteOf, Pow;
    CodeOfByte(Log(x));
  }

  /** Fills the tables of powers of 3 and of logarithms. The entry for 1 is written twice
      and ends as 255. */
  method GenPowers(pow: array<bv8>, log: array<bv8>)
    requires pow != log && pow.Length == 256 && log.Length == 256
    modifies pow, log
    ensures IsPowLog(pow[..], log[..])
  {
    hide Code, ByteOf, Pow, Step;
    var i: nat, x: bv8 := 0, 1;
    PowStart();
    while i < 256
      invariant 0 <= i <= 256 && x == Pow(i)
      invariant forall j :: 0 <= j < i ==> pow[j] == Pow(j)
      invariant forall j :: (if i == 256 then 1 else 0) <= j < i ==> log[Code(Pow(j))] == ByteOf(j)
    {
      forall j | (if i == 255 then 1 else 0) <= j < i
        ensures Code(Pow(j)) != Code(Pow(i))
      {
        PowInjective(j, i);
        CodeInjective(Pow(j), Pow(i));
      }
      pow[i] := x;
      log[Code(x)] := ByteOf(i);
      PowNext(i);
      x := x ^ XTime(x);
      i := i + 1;
    }
  }

  lemma PowStart()
    ensures Pow(0) == 1
  {
  }

  lemma PowNext(i: nat)
    ensures Pow(i + 1) == Pow(i) ^ XTime(Pow(i))
  {
  }

  /** Multiplication through the tables. */
  function TableMul(pow: seq<bv8>, log: seq<bv8>, x: bv8, y: bv8): (z: bv8)
    requires IsPowLog(pow, log)
    ensures z == Mul(x, y)
  {
    TableMulCorrect(pow, log, x, y);
    if x != 0 && y != 0 then pow[(Code(log[Code(x)]) + Code(log[Code(y)])) % 255] else 0
  }

  lemma TableMulCorrect(pow: seq<bv8>, log: seq<bv8>, x: bv8, y: bv8)
    requires IsPowLog(pow, log)
    ensures if x != 0 && y != 0 then pow[(Code(log[Code(x)]) + Code(log[Code(y)])) % 255] == Mul(x, y) else Mul(x, y) == 0
  {
    hide Code, ByteOf, Pow, Mul;
    if x == 0 {
      MulZero(y);
    } else if y == 0 {
      MulZero(x);
    } else {
      LogEntry(pow, log, x);
      LogEntry(pow, log, y);
      MulOfPowers(Log(x), Log(y));
      PowPeriodic(Log(x) + Log(y));
    }
  }

  // ----- steps of the S-box loop

  lemma SubOfZero()
    ensures Sub(ByteOf(0)) == 0x63 && ByteOf(0) == 0 && Code(Sub(ByteOf(0))) == 0x63
  {
    assert Affine(0) == 0x63;
  }

  lemma InverseByTables(pow: seq<bv8>, log: seq<bv8>, i: nat)
    requires IsPowLog(pow, log) && 1 <= i < 256
    ensures pow[255 - Code(log[i])] == Inverse(ByteOf(i))
  {
    hide Code, ByteOf, Pow;
    CodeOfByte(i);
    CodeLimits();
    LogEntry(pow, log, ByteOf(i));
  }

  function RotL(y: bv8): bv8 {
    (y << 1) | (y >> 7)
  }

  /** Four rotations by one, added up on the way, are the affine map. */
  lemma AffineByTurns(x: bv8)
    ensures var y1 := RotL(x); var y2 := RotL(y1); var y3 := RotL(y2); var y4 := RotL(y3);
      x ^ y1 ^ y2 ^ y3 ^ (y4 ^ 0x63) == Affine(x)
  {
  }

  lemma SubDistinct(j: nat, i: nat)
    requires j < i < 256
    ensures Code(Sub(ByteOf(j))) != Code(Sub(ByteOf(i)))
  {
    hide Code, ByteOf, Sub, InvSub;
    SubInverse(ByteOf(j));
    SubInverse(ByteOf(i));
    CodeInjective(Sub(ByteOf(j)), Sub(ByteOf(i)));
    CodeOfByte(j);
    CodeOfByte(i);
  }

  /** Filling the reverse table through the forward one reaches every place. */
  lemma InvSubEntry(j: nat) returns (i: nat)
    requires j < 256
    ensures i < 256 && Code(Sub(ByteOf(i))) == j && ByteOf(i) == InvSub(ByteOf(j))
  {
    hide Code, ByteOf, Sub, InvSub;
    i := Code(InvSub(ByteOf(j)));
    ByteOfCode(InvSub(ByteOf(j)));
    SubInverse(ByteOf(j));
    CodeOfByte(j);
  }

  /** The global tables. Row k of FT, RT and KT is the source's FTk, RTk and KTk. */
  class Tables {
    const FSb: array<bv64>
    const RSb: array<bv64>
    const RCON: array<bv64>
    const FT: array2<bv64>
    const RT: array2<bv64>
    const KT: array2<bv64>
    var doInit: bool
    var ktInit: bool

    ghost predicate Shape() {
      && FSb.Length == RSb.Length == 256 && RCON.Length == 10
      && FT.Length0 == RT.Length0 == KT.Length0 == 4 && FT.Length1 == RT.Length1 == KT.Length1 == 256
      && FSb != RSb && FSb != RCON && RSb != RCON && FT != RT && FT != KT && RT != KT
    }

    ghost predicate HasSboxes()
      requires Shape()
      reads FSb, RSb
    {
      forall j :: 0 <= j < 256 ==> FSb[j] == Sub(ByteOf(j)) as bv64 && RSb[j] == InvSub(ByteOf(j)) as bv64
    }

    ghost predicate HasRcon()
      requires Shape()
      reads RCON
    {
      forall j :: 0 <= j < 10 ==> RCON[j] == (RconByte(j) as bv64) << 24
    }

    ghost predicate HasRounds()
      requires Shape()
      reads FT, RT
    {
      forall k, j :: 0 <= k < 4 && 0 <= j < 256 ==>
        FT[k, j] == TableWord(MIX, k, Sub(ByteOf(j))) && RT[k, j] == TableWord(INV_MIX, k, InvSub(ByteOf(j)))
    }

    ghost predicate HasKeyTables()
      requires Shape()
      reads KT
    {
      forall k, j :: 0 <= k < 4 && 0 <= j < 256 ==> KT[k, j] == TableWord(INV_MIX, k, ByteOf(j))
    }

    ghost predicate Valid()
      reads this, FSb, RSb, RCON, FT, RT, KT
    {
      && Shape()
      && (!doInit ==> HasSboxes() && HasRcon() && HasRounds())
      && (!ktInit ==> HasKeyTables())
    }

    constructor ()
      ensures Valid() && doInit && ktInit && fresh(FSb) && fresh(RSb) && fresh(RCON) && fresh(FT) && fresh(RT) && fresh(KT)
    {
      FSb, RSb, RCON := new bv64[256](_ => 0), new bv64[256](_ => 0), new bv64[10](_ => 0);
      FT, RT, KT := new bv64[4, 256]((_, _) => 0), new bv64[4, 256]((_, _) => 0), new bv64[4, 256]((_, _) => 0);
      doInit, ktInit := true, true;
    }

    method GenRcon()
      requires Shape()
      modifies RCON
      ensures HasRcon()
    {
      var i: nat, x: bv8 := 0, 1;
      while i < 10
        invariant 0 <= i <= 10 && x == RconByte(i)
        invariant forall j :: 0 <= j < i ==> RCON[j] == (RconByte(j) as bv64) << 24
      {
        RCON[i] := (x as bv64) << 24;
        x := XTime(x);
        i := i + 1;
      }
    }

    method GenSboxes(pow: array<bv8>, log: array<bv8>)
      requires Shape() && IsPowLog(pow[..], log[..])
      modifies FSb, RSb
      ensures HasSboxes()
    {
      hide Code, ByteOf, Pow, Sub, InvSub, IsPowLog, Inverse, Affine;
      SubOfZero();
      FSb[0] := 0x63;
      RSb[0x63] := 0;
      var i := 1;
      while i < 256
        invariant 1 <= i <= 256
        invariant forall j :: 0 <= j < i ==> FSb[j] == Sub(ByteOf(j)) as bv64
        invariant forall j :: 0 <= j < i ==> RSb[Code(Sub(ByteOf(j)))] == ByteOf(j) as bv64
      {
        var x := SboxEntry(pow, log, i);
        forall j | 0 <= j < i
          ensures Code(Sub(ByteOf(j))) != Code(x)
        {
          SubDistinct(j, i);
        }
        FSb[i] := x as bv64;
        RSb[Code(x)] := ByteOf(i) as bv64;
        i := i + 1;
      }
      forall j | 0 <= j < 256
        ensures RSb[j] == InvSub(ByteOf(j)) as bv64
      {
        var k := InvSubEntry(j);
      }
    }

    /** The inverse of the index, through the affine map. */
    method SboxEntry(pow: array<bv8>, log: array<bv8>, i: nat) returns (x: bv8)
      requires IsPowLog(pow[..], log[..]) && 1 <= i < 256
      ensures x == Sub(ByteOf(i))
    {
      hide Code, ByteOf, Pow, Inverse;
      InverseByTables(pow[..], log[..], i);
      x := pow[255 - Code(log[i])];
      AffineByTurns(x);
      var y := x;
      y := RotL(y);
      x := x ^ y;
      y := RotL(y);
      x := x ^ y;
      y := RotL(y);
      x := x ^ y;
      y := RotL(y);
      x := x ^ (y ^ 0x63);
    }

    /** The first row of a table column, and its rotations in the other rows. */
    static method FillColumn(t: array2<bv64>, i: nat, w: bv64, ghost m: Matrix, ghost x: bv8)
      requires t.Length0 == 4 && t.Length1 == 256 && i < 256 && (m == MIX || m == INV_MIX) && w == TableWord(m, 0, x)
      modifies t
      ensures forall k :: 0 <= k < 4 ==> t[k, i] == TableWord(m, k, x)
      ensures forall k, j :: 0 <= k < 4 && 0 <= j < 256 && j != i ==> t[k, j] == old(t[k, j])
    {
      hide RotR8, TableWord;
      AllRowsRotate(m, x);
      t[0, i] := w;
      t[1, i] := RotR8(t[0, i]);
      t[2, i] := RotR8(t[1, i]);
      t[3, i] := RotR8(t[2, i]);
    }

    /** Column i of the forward table. */
    method FillForward(i: nat)
      requires Shape() && HasSboxes() && i < 256
      modifies FT
      ensures forall k :: 0 <= k < 4 ==> FT[k, i] == TableWord(MIX, k, Sub(ByteOf(i)))
      ensures forall k, j :: 0 <= k < 4 && 0 <= j < 256 && j != i ==> FT[k, j] == old(FT[k, j])
    {
      hide Code, ByteOf, Sub, InvSub, TableWord, Spread, RotR8, XTime, Low8;
      ghost var b := Sub(ByteOf(i));
      LowOfByte(b);
      ForwardEntry(b);
      var x := Low8(FSb[i]);
      var y := XTime(x);
      FillColumn(FT, i, Spread(x ^ y, x, x, y), MIX, b);
    }

    /** Column i of the reverse table. */
    method FillReverse(i: nat, pow: seq<bv8>, log: seq<bv8>)
      requires Shape() && HasSboxes() && i < 256 && IsPowLog(pow, log)
      modifies RT
      ensures forall k :: 0 <= k < 4 ==> RT[k, i] == TableWord(INV_MIX, k, InvSub(ByteOf(i)))
      ensures forall k, j :: 0 <= k < 4 && 0 <= j < 256 && j != i ==> RT[k, j] == old(RT[k, j])
    {
      hide Code, ByteOf, Sub, InvSub, TableWord, Spread, RotR8, Mul, Low8, TableMul, IsPowLog;
      ghost var b := InvSub(ByteOf(i));
      LowOfByte(b);
      InverseEntry(b);
      var y := Low8(RSb[i]);
      var w := Spread(TableMul(pow, log, 0x0B, y), TableMul(pow, log, 0x0D, y), TableMul(pow, log, 0x09, y), TableMul(pow, log, 0x0E, y));
      FillColumn(RT, i, w, INV_MIX, b);
    }

    method GenRounds(pow: array<bv8>, log: array<bv8>)
      requires Shape() && HasSboxes() && IsPowLog(pow[..], log[..])
      modifies FT, RT
      ensures HasRounds()
    {
      hide Code, ByteOf, Sub, InvSub, IsPowLog, TableWord;
      var i := 0;
      while i < 256
        invariant 0 <= i <= 256 && IsPowLog(pow[..], log[..])
        invariant forall k, j :: 0 <= k < 4 && 0 <= j < i ==> FT[k, j] == TableWord(MIX, k, Sub(ByteOf(j)))
        invariant forall k, j :: 0 <= k < 4 && 0 <= j < i ==> RT[k, j] == TableWord(INV_MIX, k, InvSub(ByteOf(j)))
      {
        FillForward(i);
        FillReverse(i, pow[..], log[..]);
        i := i + 1;
      }
    }

    /** The tables generation routine. */
    method GenTables()
      requires Valid()
      modifies FSb, RSb, RCON, FT, RT
      ensures Shape() && HasSboxes() && HasRcon() && HasRounds()
    {
      var pow, log := new bv8[256](_ => 0), new bv8[256](_ => 0);
      GenPowers(pow, log);
      GenRcon();
      GenSboxes(pow, log);
      GenRounds(pow, log);
    }

    lemma ReverseOfSub(i: nat)
      requires Shape() && HasSboxes() && HasRounds() && i < 256
      ensures Low8(FSb[i]) == Sub(ByteOf(i))
      ensures forall k :: 0 <= k < 4 ==> RT[k, Code(Sub(ByteOf(i)))] == TableWord(INV_MIX, k, ByteOf(i))
    {
      hide Code, ByteOf, Sub, InvSub, TableWord, Low8;
      LowOfByte(Sub(ByteOf(i)));
      ByteOfCode(Sub(ByteOf(i)));
      SubInverse(ByteOf(i));
    }

    /** Column i of the key tables: what the reverse tables hold at the S-box entry. */
    method FillKey(i: nat)
      requires Shape() && HasSboxes() && HasRounds() && i < 256
      modifies KT
      ensures forall k :: 0 <= k < 4 ==> KT[k, i] == TableWord(INV_MIX, k, ByteOf(i))
      ensures forall k, j :: 0 <= k < 4 && 0 <= j < 256 && j != i ==> KT[k, j] == old(KT[k, j])
    {
      hide Code, ByteOf, Sub, InvSub, TableWord, Low8, HasSboxes, HasRounds;
      ReverseOfSub(i);
      var x := Code(Low8(FSb[i]));
      KT[0, i] := RT[0, x];
      KT[1, i] := RT[1, x];
      KT[2, i] := RT[2, x];
      KT[3, i] := RT[3, x];
    }

    /** The decryption key schedule tables: the reverse tables without their S-box. */
    method GenKeyTables()
      requires Shape() && HasSboxes() && HasRounds()
      modifies KT
      ensures HasKeyTables()
    {
      hide Code, ByteOf, Sub, InvSub, TableWord;
      var i := 0;
      while i < 256
        invariant 0 <= i <= 256
        invariant forall k, j :: 0 <= k < 4 && 0 <= j < i ==> KT[k, j] == TableWord(INV_MIX, k, ByteOf(j))
      {
        FillKey(i);
        i := i + 1;
      }
    }

    // ----- sums of table entries

    /** Four substituted bytes shifted into place and added to p. */
    static function AddBytes(box: array<bv64>, p: bv64, b3: bv8, b2: bv8, b1: bv8, b0: bv8): bv64
      requires box.Length == 256
      reads box
    {
      Xor(Xor(Xor(Xor(p, box[Code(b3)] << 24), box[Code(b2)] << 16), box[Code(b1)] << 8), box[Code(b0)])
    }

    /** One entry of each row of a round table added to p. */
    static function AddEntries(t: array2<bv64>, p: bv64, b3: bv8, b2: bv8, b1: bv8, b0: bv8): bv64
      requires t.Length0 == 4 && t.Length1 == 256
      reads t
    {
      Xor(Xor(Xor(Xor(p, t[0, Code(b3)]), t[1, Code(b2)]), t[2, Code(b1)]), t[3, Code(b0)])
    }

    lemma SubstitutedSum(k: Column, p: bv64, b3: bv8, b2: bv8, b1: bv8, b0: bv8)
      requires Shape() && HasSboxes() && p == Pack(k)
      ensures AddBytes(FSb, p, b3, b2, b1, b0) == Pack(Plus(k, Column(Sub(b3), Sub(b2), Sub(b1), Sub(b0))))
      ensures AddBytes(RSb, p, b3, b2, b1, b0) == Pack(Plus(k, Column(InvSub(b3), InvSub(b2), InvSub(b1), InvSub(b0))))
    {
      hide Code, ByteOf, Pack, Xor, Sub, InvSub, Plus;
      ByteOfCode(b3);
      ByteOfCode(b2);
      ByteOfCode(b1);
      ByteOfCode(b0);
      ShiftedBytes(k, Column(Sub(b3), Sub(b2), Sub(b1), Sub(b0)));
      ShiftedBytes(k, Column(InvSub(b3), InvSub(b2), InvSub(b1), InvSub(b0)));
    }

    lemma MixedSum(k: Column, p: bv64, b3: bv8, b2: bv8, b1: bv8, b0: bv8)
      requires Shape() && HasRounds() && p == Pack(k)
      ensures AddEntries(FT, p, b3, b2, b1, b0) == Pack(Plus(MixColumn(Column(Sub(b3), Sub(b2), Sub(b1), Sub(b0))), k))
      ensures AddEntries(RT, p, b3, b2, b1, b0) == Pack(Plus(InvMixColumn(Column(InvSub(b3), InvSub(b2), InvSub(b1), InvSub(b0))), k))
    {
      hide Code, ByteOf, Pack, Xor, Sub, InvSub, Plus, TableWord, Apply;
      ByteOfCode(b3);
      ByteOfCode(b2);
      ByteOfCode(b1);
      ByteOfCode(b0);
      TableSum(MIX, k, Column(Sub(b3), Sub(b2), Sub(b1), Sub(b0)));
      TableSum(INV_MIX, k, Column(InvSub(b3), InvSub(b2), InvSub(b1), InvSub(b0)));
    }

    // ----- rounds

    /** The macro AES_FROUND: one round with the key words from o on. */
    method ForwardRound(rk: array<bv64>, o: nat, y0: bv64, y1: bv64, y2: bv64, y3: bv64, ghost s: Block, ghost k: Block)
      returns (x0: bv64, x1: bv64, x2: bv64, x3: bv64)
      requires Shape() && HasRounds() && HoldsAt(rk, o, k) && Packs(y0, y1, y2, y3, s)
      ensures Packs(x0, x1, x2, x3, Round(s, k))
    {
      hide Code, ByteOf, Pack, Xor, Sub, InvSub, Plus, MixColumn, InvMixColumn, AddEntries, Byte24, Byte16, Byte8, Byte0;
      BytesOfBlock(s);
      x0 := AddEntries(FT, rk[o], Byte24(y0), Byte16(y1), Byte8(y2), Byte0(y3));
      x1 := AddEntries(FT, rk[o + 1], Byte24(y1), Byte16(y2), Byte8(y3), Byte0(y0));
      x2 := AddEntries(FT, rk[o + 2], Byte24(y2), Byte16(y3), Byte8(y0), Byte0(y1));
      x3 := AddEntries(FT, rk[o + 3], Byte24(y3), Byte16(y0), Byte8(y1), Byte0(y2));
      MixedSum(k.c0, rk[o], s.c0.a, s.c1.b, s.c2.c, s.c3.d);
      MixedSum(k.c1, rk[o + 1], s.c1.a, s.c2.b, s.c3.c, s.c0.d);
      MixedSum(k.c2, rk[o + 2], s.c2.a, s.c3.b, s.c0.c, s.c1.d);
      MixedSum(k.c3, rk[o + 3], s.c3.a, s.c0.b, s.c1.c, s.c2.d);
    }

    /** The macro AES_RROUND. */
    method ReverseRound(rk: array<bv64>, o: nat, y0: bv64, y1: bv64, y2: bv64, y3: bv64, ghost s: Block, ghost k: Block)
      returns (x0: bv64, x1: bv64, x2: bv64, x3: bv64)
      requires Shape() && HasRounds() && HoldsAt(rk, o, k) && Packs(y0, y1, y2, y3, s)
      ensures Packs(x0, x1, x2, x3, EqInvRound(s, k))
    {
      hide Code, ByteOf, Pack, Xor, Sub, InvSub, Plus, MixColumn, InvMixColumn, AddEntries, Byte24, Byte16, Byte8, Byte0;
      BytesOfBlock(s);
      x0 := AddEntries(RT, rk[o], Byte24(y0), Byte16(y3), Byte8(y2), Byte0(y1));
      x1 := AddEntries(RT, rk[o + 1], Byte24(y1), Byte16(y0), Byte8(y3), Byte0(y2));
      x2 := AddEntries(RT, rk[o + 2], Byte24(y2), Byte16(y1), Byte8(y0), Byte0(y3));
      x3 := AddEntries(RT, rk[o + 3], Byte24(y3), Byte16(y2), Byte8(y1), Byte0(y0));
      MixedSum(k.c0, rk[o], s.c0.a, s.c3.b, s.c2.c, s.c1.d);
      MixedSum(k.c1, rk[o + 1], s.c1.a, s.c0.b, s.c3.c, s.c2.d);
      MixedSum(k.c2, rk[o + 2], s.c2.a, s.c1.b, s.c0.c, s.c3.d);
      MixedSum(k.c3, rk[o + 3], s.c3.a, s.c2.b, s.c1.c, s.c0.d);
    }

    /** The last round of encryption. */
    method ForwardLast(rk: array<bv64>, o: nat, y0: bv64, y1: bv64, y2: bv64, y3: bv64, ghost s: Block, ghost k: Block)
      returns (x0: bv64, x1: bv64, x2: bv64, x3: bv64)
      requires Shape() && HasSboxes() && HoldsAt(rk, o, k) && Packs(y0, y1, y2, y3, s)
      ensures Packs(x0, x1, x2, x3, FinalRound(s, k))
    {
      hide Code, ByteOf, Pack, Xor, Sub, InvSub, Plus, AddBytes, Byte24, Byte16, Byte8, Byte0;
      BytesOfBlock(s);
      x0 := AddBytes(FSb, rk[o], Byte24(y0), Byte16(y1), Byte8(y2), Byte0(y3));
      x1 := AddBytes(FSb, rk[o + 1], Byte24(y1), Byte16(y2), Byte8(y3), Byte0(y0));
      x2 := AddBytes(FSb, rk[o + 2], Byte24(y2), Byte16(y3), Byte8(y0), Byte0(y1));
      x3 := AddBytes(FSb, rk[o + 3], Byte24(y3), Byte16(y0), Byte8(y1), Byte0(y2));
      SubstitutedSum(k.c0, rk[o], s.c0.a, s.c1.b, s.c2.c, s.c3.d);
      SubstitutedSum(k.c1, rk[o + 1], s.c1.a, s.c2.b, s.c3.c, s.c0.d);
      SubstitutedSum(k.c2, rk[o + 2], s.c2.a, s.c3.b, s.c0.c, s.c1.d);
      SubstitutedSum(k.c3, rk[o + 3], s.c3.a, s.c0.b, s.c1.c, s.c2.d);
      KeyLast(k, ShiftRows(SubBytes(s)));
    }

    /** The last round of decryption. */
    method ReverseLast(rk: array<bv64>, o: nat, y0: bv64, y1: bv64, y2: bv64, y3: bv64, ghost s: Block, ghost k: Block)
      returns (x0: bv64, x1: bv64, x2: bv64, x3: bv64)
      requires Shape() && HasSboxes() && HoldsAt(rk, o, k) && Packs(y0, y1, y2, y3, s)
      ensures Packs(x0, x1, x2, x3, AddRoundKey(InvShiftRows(InvSubBytes(s)), k))
    {
      hide Code, ByteOf, Pack, Xor, Sub, InvSub, Plus, AddBytes, Byte24, Byte16, Byte8, Byte0;
      BytesOfBlock(s);
      x0 := AddBytes(RSb, rk[o], Byte24(y0), Byte16(y3), Byte8(y2), Byte0(y1));
      x1 := AddBytes(RSb, rk[o + 1], Byte24(y1), Byte16(y0), Byte8(y3), Byte0(y2));
      x2 := AddBytes(RSb, rk[o + 2], Byte24(y2), Byte16(y1), Byte8(y0), Byte0(y3));
      x3 := AddBytes(RSb, rk[o + 3], Byte24(y3), Byte16(y2), Byte8(y1), Byte0(y0));
      SubstitutedSum(k.c0, rk[o], s.c0.a, s.c3.b, s.c2.c, s.c1.d);
      SubstitutedSum(k.c1, rk[o + 1], s.c1.a, s.c0.b, s.c3.c, s.c2.d);
      SubstitutedSum(k.c2, rk[o + 2], s.c2.a, s.c1.b, s.c0.c, s.c3.d);
      SubstitutedSum(k.c3, rk[o + 3], s.c3.a, s.c2.b, s.c1.c, s.c0.d);
      KeyLast(k, InvShiftRows(InvSubBytes(s)));
    }
  }

  lemma BytesOfBlock(s: Block)
    ensures Byte24(Pack(s.c0)) == s.c0.a && Byte16(Pack(s.c0)) == s.c0.b && Byte8(Pack(s.c0)) == s.c0.c && Byte0(Pack(s.c0)) == s.c0.d
    ensures Byte24(Pack(s.c1)) == s.c1.a && Byte16(Pack(s.c1)) == s.c1.b && Byte8(Pack(s.c1)) == s.c1.c && Byte0(Pack(s.c1)) == s.c1.d
    ensures Byte24(Pack(s.c2)) == s.c2.a && Byte16(Pack(s.c2)) == s.c2.b && Byte8(Pack(s.c2)) == s.c2.c && Byte0(Pack(s.c2)) == s.c2.d
    ensures Byte24(Pack(s.c3)) == s.c3.a && Byte16(Pack(s.c3)) == s.c3.b && Byte8(Pack(s.c3)) == s.c3.c && Byte0(Pack(s.c3)) == s.c3.d
  {
    hide Byte24, Byte16, Byte8, Byte0, Pack;
    PackedBytes(s.c0);
    PackedBytes(s.c1);
    PackedBytes(s.c2);
    PackedBytes(s.c3);
  }

  lemma KeyLast(k: Block, s: Block)
    ensures Plus(k.c0, s.c0) == AddRoundKey(s, k).c0 && Plus(k.c1, s.c1) == AddRoundKey(s, k).c1
    ensures Plus(k.c2, s.c2) == AddRoundKey(s, k).c2 && Plus(k.c3, s.c3) == AddRoundKey(s, k).c3
  {
    hide Plus;
    PlusLaws(k.c0, s.c0, s.c0);
    PlusLaws(k.c1, s.c1, s.c1);
    PlusLaws(k.c2, s.c2, s.c2);
    PlusLaws(k.c3, s.c3, s.c3);
  }

  function Low8(w: bv64): bv8 {
    (w & 0xFF) as bv8
  }

  lemma LowOfByte(x: bv8)
    ensures Low8(x as bv64) == x
  {
  }

  lemma AllRowsRotate(m: Matrix, x: bv8)
    requires m == MIX || m == INV_MIX
    ensures RotR8(TableWord(m, 0, x)) == TableWord(m, 1, x)
    ensures RotR8(TableWord(m, 1, x)) == TableWord(m, 2, x)
    ensures RotR8(TableWord(m, 2, x)) == TableWord(m, 3, x)
  {
    hide RotR8, TableWord;
    RowsRotate(0, x);
    RowsRotate(1, x);
    RowsRotate(2, x);
  }
}
