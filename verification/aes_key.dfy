/** Key set-up: the expanded key and the decryption round keys. */
module AesKey {
  import opened AesField
  import opened AesCipher
  import opened AesRounds
  import opened AesWords
  import opened Aes
  import opened AesBlock

  /** The first n words of the expanded key are in place. */
  ghost predicate HasWords(rk: array<bv64>, key: seq<Column>, n: nat)
    requires |key| > 0
    reads rk
  {
    n <= rk.Length && forall j :: 0 <= j < n ==> rk[j] == Pack(ExpandedWord(key, j))
  }

  /** The arrays of a context are not those of the tables. */
  ghost predicate Separate(t: Tables, ctx: Context) {
    && t.Shape() && ctx.Shape()
    && ctx.erk != t.FSb && ctx.erk != t.RSb && ctx.erk != t.RCON
    && ctx.drk != t.FSb && ctx.drk != t.RSb && ctx.drk != t.RCON
  }

  // ----- words of the expanded key, in the order the code adds them up

  lemma FirstWordOf(key: seq<Column>, i: nat)
    requires 0 < |key| <= i && i % |key| == 0 && i / |key| > 0
    ensures ExpandedWord(key, i)
         == Plus(Plus(ExpandedWord(key, i - |key|), Column(RconByte(i / |key| - 1), 0, 0, 0)), SubColumn(RotWord(ExpandedWord(key, i - 1))))
  {
    hide Plus, SubColumn, RotWord, RconByte;
    var (k, c, u) := (ExpandedWord(key, i - |key|), Column(RconByte(i / |key| - 1), 0, 0, 0), SubColumn(RotWord(ExpandedWord(key, i - 1))));
    PlusLaws(k, c, u);
    PlusLaws(c, u, u);
  }

  lemma PlainWordOf(key: seq<Column>, i: nat)
    requires 0 < |key| <= i && i % |key| != 0 && !(|key| > 6 && i % |key| == 4)
    ensures ExpandedWord(key, i) == Plus(ExpandedWord(key, i - |key|), ExpandedWord(key, i - 1))
  {
    hide Plus, SubColumn, RotWord, RconByte;
  }

  lemma MiddleWordOf(key: seq<Column>, i: nat)
    requires 6 < |key| <= i && i % |key| == 4
    ensures ExpandedWord(key, i) == Plus(ExpandedWord(key, i - |key|), SubColumn(ExpandedWord(key, i - 1)))
  {
    hide Plus, SubColumn, RotWord, RconByte;
  }

  /** The first word of a group of nk: through a rotation, the S-box and a constant. */
  method FirstWord(t: Tables, rk: array<bv64>, i: nat, nk: nat, c: nat, ghost key: seq<Column>)
    requires t.Shape() && t.HasSboxes() && t.HasRcon() && rk != t.FSb && rk != t.RSb && rk != t.RCON
    requires 0 < nk == |key| <= i < rk.Length && i % nk == 0 && c == i / nk - 1 && 0 <= c < 10
    requires HasWords(rk, key, i)
    modifies rk
    ensures HasWords(rk, key, i + 1)
  {
    hide Pack, Xor, Plus, Sub, InvSub, ExpandedWord, Byte24, Byte16, Byte8, Byte0, RconByte, Code, ByteOf, Tables.AddBytes;
    ghost var s := ExpandedWord(key, i - 1);
    ghost var k := ExpandedWord(key, i - nk);
    var w := rk[i - 1];
    var p := Xor(rk[i - nk], t.RCON[c]);
    RconWord(RconByte(c));
    PackXor(k, Column(RconByte(c), 0, 0, 0));
    PackedBytes(s);
    t.SubstitutedSum(Plus(k, Column(RconByte(c), 0, 0, 0)), p, s.b, s.c, s.d, s.a);
    FirstWordOf(key, i);
    rk[i] := Tables.AddBytes(t.FSb, p, Byte16(w), Byte8(w), Byte0(w), Byte24(w));
  }

  method PlainWord(rk: array<bv64>, i: nat, nk: nat, ghost key: seq<Column>)
    requires 0 < nk == |key| <= i < rk.Length && i % nk != 0 && !(nk > 6 && i % nk == 4)
    requires HasWords(rk, key, i)
    modifies rk
    ensures HasWords(rk, key, i + 1)
  {
    hide Pack, Xor, Plus, ExpandedWord;
    PackXor(ExpandedWord(key, i - nk), ExpandedWord(key, i - 1));
    PlainWordOf(key, i);
    rk[i] := Xor(rk[i - nk], rk[i - 1]);
  }

  /** The middle word of a group of eight: through the S-box. */
  method MiddleWord(t: Tables, rk: array<bv64>, i: nat, nk: nat, ghost key: seq<Column>)
    requires t.Shape() && t.HasSboxes() && rk != t.FSb && rk != t.RSb
    requires 6 < nk == |key| <= i < rk.Length && i % nk == 4
    requires HasWords(rk, key, i)
    modifies rk
    ensures HasWords(rk, key, i + 1)
  {
    hide Pack, Xor, Plus, Sub, InvSub, ExpandedWord, Byte24, Byte16, Byte8, Byte0, Code, ByteOf, Tables.AddBytes;
    ghost var s := ExpandedWord(key, i - 1);
    var w := rk[i - 1];
    PackedBytes(s);
    t.SubstitutedSum(ExpandedWord(key, i - nk), rk[i - nk], s.a, s.b, s.c, s.d);
    MiddleWordOf(key, i);
    rk[i] := Tables.AddBytes(t.FSb, rk[i - nk], Byte24(w), Byte16(w), Byte8(w), Byte0(w));
  }

  method Expand128(t: Tables, rk: array<bv64>, ghost key: seq<Column>)
    requires t.Shape() && t.HasSboxes() && t.HasRcon() && rk != t.FSb && rk != t.RSb && rk != t.RCON
    requires rk.Length == 64 && |key| == 4 && HasWords(rk, key, 4)
    modifies rk
    ensures HasWords(rk, key, 44)
  {
    hide HasWords, Sub, InvSub, RconByte, ByteOf;
    var i, o := 0, 0;
    while i < 10
      invariant 0 <= i <= 10 && o == 4 * i && HasWords(rk, key, o + 4)
    {
      FirstWord(t, rk, o + 4, 4, i, key);
      PlainWord(rk, o + 5, 4, key);
      PlainWord(rk, o + 6, 4, key);
      PlainWord(rk, o + 7, 4, key);
      i, o := i + 1, o + 4;
    }
  }

  method Expand192(t: Tables, rk: array<bv64>, ghost key: seq<Column>)
    requires t.Shape() && t.HasSboxes() && t.HasRcon() && rk != t.FSb && rk != t.RSb && rk != t.RCON
    requires rk.Length == 64 && |key| == 6 && HasWords(rk, key, 6)
    modifies rk
    ensures HasWords(rk, key, 54)
  {
    hide HasWords, Sub, InvSub, RconByte, ByteOf;
    var i, o := 0, 0;
    while i < 8
      invariant 0 <= i <= 8 && o == 6 * i && HasWords(rk, key, o + 6)
    {
      FirstWord(t, rk, o + 6, 6, i, key);
      PlainWord(rk, o + 7, 6, key);
      PlainWord(rk, o + 8, 6, key);
      PlainWord(rk, o + 9, 6, key);
      PlainWord(rk, o + 10, 6, key);
      PlainWord(rk, o + 11, 6, key);
      i, o := i + 1, o + 6;
    }
  }

  method Expand256(t: Tables, rk: array<bv64>, ghost key: seq<Column>)
    requires t.Shape() && t.HasSboxes() && t.HasRcon() && rk != t.FSb && rk != t.RSb && rk != t.RCON
    requires rk.Length == 64 && |key| == 8 && HasWords(rk, key, 8)
    modifies rk
    ensures HasWords(rk, key, 64)
  {
    hide HasWords, Sub, InvSub, RconByte, ByteOf;
    var i, o := 0, 0;
    while i < 7
      invariant 0 <= i <= 7 && o == 8 * i && HasWords(rk, key, o + 8)
    {
      FirstWord(t, rk, o + 8, 8, i, key);
      PlainWord(rk, o + 9, 8, key);
      PlainWord(rk, o + 10, 8, key);
      PlainWord(rk, o + 11, 8, key);
      MiddleWord(t, rk, o + 12, 8, key);
      PlainWord(rk, o + 13, 8, key);
      PlainWord(rk, o + 14, 8, key);
      PlainWord(rk, o + 15, 8, key);
      i, o := i + 1, o + 8;
    }
  }

  // ----- decryption round keys

  /** One entry of each row of a table, added up. */
  function Entries(t: array2<bv64>, b3: bv8, b2: bv8, b1: bv8, b0: bv8): bv64
    requires t.Length0 == 4 && t.Length1 == 256
    reads t
  {
    Xor(Xor(Xor(t[0, Code(b3)], t[1, Code(b2)]), t[2, Code(b1)]), t[3, Code(b0)])
  }

  lemma XorZero(w: bv64)
    ensures Xor(Pack(Column(0, 0, 0, 0)), w) == w
  {
  }

  lemma PlusZero(s: Column)
    ensures Plus(s, Column(0, 0, 0, 0)) == s
  {
    hide Add;
    AddLaws(s.a, 0, 0);
    AddLaws(s.b, 0, 0);
    AddLaws(s.c, 0, 0);
    AddLaws(s.d, 0, 0);
  }

  /** The key tables act on a word as InvMixColumns. */
  lemma MixedWord(t: Tables, s: Column)
    requires t.Shape() && t.HasKeyTables()
    ensures Entries(t.KT, s.a, s.b, s.c, s.d) == Pack(InvMixColumn(s))
  {
    hide Code, ByteOf, Pack, Xor, Plus, TableWord, Apply;
    ByteOfCode(s.a);
    ByteOfCode(s.b);
    ByteOfCode(s.c);
    ByteOfCode(s.d);
    XorZero(TableWord(INV_MIX, 0, s.a));
    TableSum(INV_MIX, Column(0, 0, 0, 0), s);
    PlusZero(Apply(INV_MIX, s));
  }

  method CopyKey(from: array<bv64>, i: nat, to: array<bv64>, o: nat, ghost s: Block)
    requires from != to && HoldsAt(from, i, s) && o + 4 <= to.Length
    modifies to
    ensures HoldsAt(to, o, s)
    ensures forall q: nat, u :: q + 4 <= o && old(HoldsAt(to, q, u)) ==> HoldsAt(to, q, u)
  {
    hide Pack;
    to[o] := from[i];
    to[o + 1] := from[i + 1];
    to[o + 2] := from[i + 2];
    to[o + 3] := from[i + 3];
  }

  method MixWord(t: Tables, w: bv64, to: array<bv64>, o: nat, ghost s: Column)
    requires t.Shape() && t.HasKeyTables() && w == Pack(s) && o < to.Length
    modifies to
    ensures to[o] == Pack(InvMixColumn(s))
    ensures forall j :: 0 <= j < to.Length && j != o ==> to[j] == old(to[j])
  {
    hide Pack, Entries, InvMixColumn, Byte24, Byte16, Byte8, Byte0, Tables.HasKeyTables;
    PackedBytes(s);
    MixedWord(t, s);
    to[o] := Entries(t.KT, Byte24(w), Byte16(w), Byte8(w), Byte0(w));
  }

  method MixKey(t: Tables, from: array<bv64>, i: nat, to: array<bv64>, o: nat, ghost s: Block)
    requires t.Shape() && t.HasKeyTables()
    requires from != to && HoldsAt(from, i, s) && o + 4 <= to.Length
    modifies to
    ensures HoldsAt(to, o, InvMixColumns(s))
    ensures forall q: nat, u :: q + 4 <= o && old(HoldsAt(to, q, u)) ==> HoldsAt(to, q, u)
  {
    hide Pack, InvMixColumn, Tables.HasKeyTables;
    MixWord(t, from[i], to, o, s.c0);
    MixWord(t, from[i + 1], to, o + 1, s.c1);
    MixWord(t, from[i + 2], to, o + 2, s.c2);
    MixWord(t, from[i + 3], to, o + 3, s.c3);
  }

  /** Writes the round keys backwards, the inner ones through the key tables. */
  method InvertKey(t: Tables, ctx: Context, ghost key: seq<Column>)
    requires t.Shape() && t.HasKeyTables() && Separate(t, ctx)
    requires |key| in {4, 6, 8} && ctx.HasEncryptionKey(key)
    modifies ctx.drk
    ensures ctx.HasDecryptionKey(key)
  {
    hide Pack, HoldsAt, InvMixColumns, RoundKey, TableWord, ByteOf;
    CopyKey(ctx.erk, 4 * ctx.nr, ctx.drk, 0, RoundKey(key, ctx.nr));
    var i := 1;
    while i < ctx.nr
      invariant 1 <= i <= ctx.nr && t.HasKeyTables() && ctx.HasEncryptionKey(key)
      invariant forall r :: 0 <= r < i ==> HoldsAt(ctx.drk, 4 * r, DecryptionKey(key, r))
    {
      MixKey(t, ctx.erk, 4 * (ctx.nr - i), ctx.drk, 4 * i, RoundKey(key, ctx.nr - i));
      i := i + 1;
    }
    CopyKey(ctx.erk, 0, ctx.drk, 4 * ctx.nr, RoundKey(key, 0));
  }

  // ----- the whole routine

  /** Loads the key words. */
  method LoadKey(rk: array<bv64>, b: array<bv8>, nk: nat)
    requires rk.Length == 64 && 4 * nk <= b.Length && 0 < nk <= 8
    modifies rk
    ensures HasWords(rk, KeyColumns(b[..], nk), nk)
  {
    hide Pack;
    var i := 0;
    while i < nk
      invariant 0 <= i <= nk
      invariant forall j :: 0 <= j < i ==> rk[j] == Pack(ColumnAt(b[..], 4 * j))
    {
      rk[i] := Pack(ColumnAt(b[..], 4 * i));
      i := i + 1;
    }
  }

  lemma RoundKeysOfWords(ctx: Context, key: seq<Column>, n: nat)
    requires |key| > 0 && ctx.nr == |key| + 6 && 4 * (|key| + 7) <= n && HasWords(ctx.erk, key, n)
    ensures ctx.HasEncryptionKey(key)
  {
    hide Pack, ExpandedWord;
  }

  /** Sets up a context for a key. Returns 1 for an unsupported size, else 0. */
  method SetKey(t: Tables, ctx: Context, b: array<bv8>, nbits: int) returns (r: int)
    requires t.Valid() && Separate(t, ctx)
    requires nbits in {128, 192, 256} ==> nbits / 8 <= b.Length
    modifies t`doInit, t`ktInit, t.FSb, t.RSb, t.RCON, t.FT, t.RT, t.KT, ctx`nr, ctx.erk, ctx.drk
    ensures t.Valid() && !t.doInit
    ensures r == if nbits in {128, 192, 256} then 0 else 1
    ensures r == 0 ==> ctx.Holds(KeyColumns(b[..], nbits / 32))
    ensures r == 1 ==> ctx.nr == old(ctx.nr) && ctx.erk[..] == old(ctx.erk[..]) && ctx.drk[..] == old(ctx.drk[..])
  {
    hide HasWords, Pack, HoldsAt, RoundKey, DecryptionKey, TableWord, Sub, InvSub, ByteOf, RconByte, KeyColumns, Tables.HasRcon, Tables.HasKeyTables;
    if t.doInit {
      t.GenTables();
      t.doInit := false;
    }
    if nbits !in {128, 192, 256} {
      return 1;
    }
    ctx.nr := nbits / 32 + 6;
    LoadKey(ctx.erk, b, nbits / 32);
    ghost var key := KeyColumns(b[..], nbits / 32);
    ExpandKey(t, ctx, nbits, key);
    if t.ktInit {
      t.GenKeyTables();
      t.ktInit := false;
    }
    InvertKey(t, ctx, key);
    r := 0;
  }

  method ExpandKey(t: Tables, ctx: Context, nbits: int, ghost key: seq<Column>)
    requires Separate(t, ctx) && t.HasSboxes() && t.HasRcon()
    requires nbits in {128, 192, 256} && |key| == nbits / 32 && ctx.nr == |key| + 6 && HasWords(ctx.erk, key, |key|)
    modifies ctx.erk
    ensures ctx.HasEncryptionKey(key)
  {
    hide HasWords, Sub, InvSub, RconByte, ByteOf, HoldsAt, RoundKey;
    if nbits == 128 {
      Expand128(t, ctx.erk, key);
      RoundKeysOfWords(ctx, key, 44);
    } else if nbits == 192 {
      Expand192(t, ctx.erk, key);
      RoundKeysOfWords(ctx, key, 54);
    } else {
      Expand256(t, ctx.erk, key);
      RoundKeysOfWords(ctx, key, 64);
    }
  }

  /** Setting a key, encrypting a block and decrypting the result gives the block back,
      for every key size, key and block. */
  method EncryptThenDecrypt(t: Tables, ctx: Context, b: array<bv8>, nbits: int, block: array<bv8>)
    requires t.Valid() && Separate(t, ctx) && b != block
    requires nbits in {128, 192, 256} && nbits / 8 <= b.Length && block.Length == 16
    modifies t`doInit, t`ktInit, t.FSb, t.RSb, t.RCON, t.FT, t.RT, t.KT, ctx`nr, ctx.erk, ctx.drk, block
    ensures block[..] == old(block[..])
  {
    hide Sub, InvSub, ByteOf, RconByte, KeyColumns, TableWord, HoldsAt, BlockOf, BlockBytes, Cipher, EqInvCipher, KeySchedule, DecryptionSchedule, RoundKey, DecryptionKey;
    ghost var key := KeyColumns(b[..], nbits / 32);
    ghost var s := BlockOf(block[..]);
    var r := SetKey(t, ctx, b, nbits);
    Encrypt(t, ctx, block, block, key);
    BlockOfBytes(Cipher(KeySchedule(key), s), block[..]);
    Decrypt(t, ctx, block, block, key);
    ScheduledRoundTrip(key, s);
    BlockOfBytes(s, old(block[..]));
  }
}
