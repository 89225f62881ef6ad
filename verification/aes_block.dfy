/** Key set-up, and encryption and decryption of a block. */
module AesBlock {
  import opened AesField
  import opened AesCipher
  import opened AesRounds
  import opened AesWords
  import opened Aes

  /** The words of a key of nk words. */
  function KeyColumns(b: seq<bv8>, nk: nat): (key: seq<Column>)
    requires 4 * nk <= |b|
    ensures |key| == nk
  {
    seq(nk, i requires 0 <= i < nk => ColumnAt(b, 4 * i))
  }

  class Context {
    const erk: array<bv64>
    const drk: array<bv64>
    var nr: nat

    constructor ()
      ensures fresh(erk) && fresh(drk) && erk.Length == drk.Length == 64 && erk != drk
    {
      erk, drk, nr := new bv64[64](_ => 0), new bv64[64](_ => 0), 0;
    }

    ghost predicate Shape() {
      erk.Length == drk.Length == 64 && erk != drk
    }

    /** Both schedules of this key are in place. */
    ghost predicate Holds(key: seq<Column>)
      reads this, erk, drk
    {
      && Shape() && HasEncryptionKey(key) && HasDecryptionKey(key)
    }

    ghost predicate HasEncryptionKey(key: seq<Column>)
      reads this, erk
    {
      && |key| > 0 && nr == |key| + 6
      && forall r :: 0 <= r <= nr ==> HoldsAt(erk, 4 * r, RoundKey(key, r))
    }

    ghost predicate HasDecryptionKey(key: seq<Column>)
      reads this, drk
    {
      && |key| > 0 && nr == |key| + 6
      && forall r :: 0 <= r <= nr ==> HoldsAt(drk, 4 * r, DecryptionKey(key, r))
    }
  }

  // ----- blocks of bytes

  method GetBlock(input: array<bv8>, rk: array<bv64>, ghost k: Block) returns (x0: bv64, x1: bv64, x2: bv64, x3: bv64)
    requires input.Length == 16 && HoldsAt(rk, 0, k)
    ensures Packs(x0, x1, x2, x3, AddRoundKey(BlockOf(input[..]), k))
  {
    hide Pack, Xor, Plus;
    var b := BlockOf(input[..]);
    x0 := Xor(Pack(b.c0), rk[0]);
    x1 := Xor(Pack(b.c1), rk[1]);
    x2 := Xor(Pack(b.c2), rk[2]);
    x3 := Xor(Pack(b.c3), rk[3]);
    PackXor(b.c0, k.c0);
    PackXor(b.c1, k.c1);
    PackXor(b.c2, k.c2);
    PackXor(b.c3, k.c3);
  }

  method PutBlock(output: array<bv8>, x0: bv64, x1: bv64, x2: bv64, x3: bv64, ghost s: Block)
    requires output.Length == 16 && Packs(x0, x1, x2, x3, s)
    modifies output
    ensures output[..] == BlockBytes(s)
  {
    hide Byte24, Byte16, Byte8, Byte0, Pack;
    BytesOfBlock(s);
    PutWord(output, 0, x0);
    PutWord(output, 4, x1);
    PutWord(output, 8, x2);
    PutWord(output, 12, x3);
    assert output[..] == BlockBytes(s);
  }

  /** The macro PUT_UINT32. */
  method PutWord(b: array<bv8>, i: nat, n: bv64)
    requires i + 4 <= b.Length
    modifies b
    ensures b[i] == Byte24(n) && b[i + 1] == Byte16(n) && b[i + 2] == Byte8(n) && b[i + 3] == Byte0(n)
    ensures forall j :: 0 <= j < b.Length && !(i <= j < i + 4) ==> b[j] == old(b[j])
  {
    hide Byte24, Byte16, Byte8, Byte0;
    b[i] := Byte24(n);
    b[i + 1] := Byte16(n);
    b[i + 2] := Byte8(n);
    b[i + 3] := Byte0(n);
  }

  // ----- encryption

  /** Rounds r + 1 and r + 2: one use of the macro in each direction. */
  method TwoForwardRounds(t: Tables, ctx: Context, r: nat, a0: bv64, a1: bv64, a2: bv64, a3: bv64, ghost key: seq<Column>, ghost s: Block)
    returns (x0: bv64, x1: bv64, x2: bv64, x3: bv64)
    requires t.Shape() && t.HasRounds() && ctx.HasEncryptionKey(key) && r + 2 <= ctx.nr
    requires Packs(a0, a1, a2, a3, Rounds(KeySchedule(key), r, s))
    ensures Packs(x0, x1, x2, x3, Rounds(KeySchedule(key), r + 2, s))
  {
    hide Pack, Round, RoundKey, AddRoundKey, TableWord, Sub, InvSub;
    ghost var w := KeySchedule(key);
    var y0, y1, y2, y3 := t.ForwardRound(ctx.erk, 4 * (r + 1), a0, a1, a2, a3, Rounds(w, r, s), RoundKey(key, r + 1));
    x0, x1, x2, x3 := t.ForwardRound(ctx.erk, 4 * (r + 2), y0, y1, y2, y3, Rounds(w, r + 1, s), RoundKey(key, r + 2));
  }

  method TwoReverseRounds(t: Tables, ctx: Context, r: nat, a0: bv64, a1: bv64, a2: bv64, a3: bv64, ghost key: seq<Column>, ghost s: Block)
    returns (x0: bv64, x1: bv64, x2: bv64, x3: bv64)
    requires t.Shape() && t.HasRounds() && ctx.HasDecryptionKey(key) && r + 2 <= ctx.nr
    requires Packs(a0, a1, a2, a3, EqInvRounds(DecryptionSchedule(key), r, s))
    ensures Packs(x0, x1, x2, x3, EqInvRounds(DecryptionSchedule(key), r + 2, s))
  {
    hide Pack, EqInvRound, DecryptionKey, AddRoundKey, TableWord, Sub, InvSub;
    ghost var w := DecryptionSchedule(key);
    var y0, y1, y2, y3 := t.ReverseRound(ctx.drk, 4 * (r + 1), a0, a1, a2, a3, EqInvRounds(w, r, s), DecryptionKey(key, r + 1));
    x0, x1, x2, x3 := t.ReverseRound(ctx.drk, 4 * (r + 2), y0, y1, y2, y3, EqInvRounds(w, r + 1, s), DecryptionKey(key, r + 2));
  }

  /** All rounds but the last. */
  method ForwardRounds(t: Tables, ctx: Context, a0: bv64, a1: bv64, a2: bv64, a3: bv64, ghost key: seq<Column>, ghost s: Block)
    returns (x0: bv64, x1: bv64, x2: bv64, x3: bv64)
    requires t.Shape() && t.HasRounds() && ctx.HasEncryptionKey(key) && |key| in {4, 6, 8}
    requires Packs(a0, a1, a2, a3, s)
    ensures Packs(x0, x1, x2, x3, Rounds(KeySchedule(key), ctx.nr - 1, s))
  {
    hide Pack, Packs, Rounds, KeySchedule, HoldsAt, Round, RoundKey, TableWord, Sub, InvSub;
    KeyOfRound(key);
    RoundsFrom(KeySchedule(key), s);
    x0, x1, x2, x3 := TwoForwardRounds(t, ctx, 0, a0, a1, a2, a3, key, s);
    x0, x1, x2, x3 := TwoForwardRounds(t, ctx, 2, x0, x1, x2, x3, key, s);
    x0, x1, x2, x3 := TwoForwardRounds(t, ctx, 4, x0, x1, x2, x3, key, s);
    x0, x1, x2, x3 := TwoForwardRounds(t, ctx, 6, x0, x1, x2, x3, key, s);
    var r := 8;
    if ctx.nr > 10 {
      x0, x1, x2, x3 := TwoForwardRounds(t, ctx, 8, x0, x1, x2, x3, key, s);
      r := 10;
    }
    if ctx.nr > 12 {
      x0, x1, x2, x3 := TwoForwardRounds(t, ctx, 10, x0, x1, x2, x3, key, s);
      r := 12;
    }
    x0, x1, x2, x3 := t.ForwardRound(ctx.erk, 4 * (r + 1), x0, x1, x2, x3, Rounds(KeySchedule(key), r, s), RoundKey(key, r + 1));
  }

  method ReverseRounds(t: Tables, ctx: Context, a0: bv64, a1: bv64, a2: bv64, a3: bv64, ghost key: seq<Column>, ghost s: Block)
    returns (x0: bv64, x1: bv64, x2: bv64, x3: bv64)
    requires t.Shape() && t.HasRounds() && ctx.HasDecryptionKey(key) && |key| in {4, 6, 8}
    requires Packs(a0, a1, a2, a3, s)
    ensures Packs(x0, x1, x2, x3, EqInvRounds(DecryptionSchedule(key), ctx.nr - 1, s))
  {
    hide Pack, Packs, EqInvRounds, DecryptionSchedule, HoldsAt, EqInvRound, DecryptionKey, TableWord, Sub, InvSub;
    KeyOfRound(key);
    RoundsFrom(DecryptionSchedule(key), s);
    x0, x1, x2, x3 := TwoReverseRounds(t, ctx, 0, a0, a1, a2, a3, key, s);
    x0, x1, x2, x3 := TwoReverseRounds(t, ctx, 2, x0, x1, x2, x3, key, s);
    x0, x1, x2, x3 := TwoReverseRounds(t, ctx, 4, x0, x1, x2, x3, key, s);
    x0, x1, x2, x3 := TwoReverseRounds(t, ctx, 6, x0, x1, x2, x3, key, s);
    var r := 8;
    if ctx.nr > 10 {
      x0, x1, x2, x3 := TwoReverseRounds(t, ctx, 8, x0, x1, x2, x3, key, s);
      r := 10;
    }
    if ctx.nr > 12 {
      x0, x1, x2, x3 := TwoReverseRounds(t, ctx, 10, x0, x1, x2, x3, key, s);
      r := 12;
    }
    x0, x1, x2, x3 := t.ReverseRound(ctx.drk, 4 * (r + 1), x0, x1, x2, x3, EqInvRounds(DecryptionSchedule(key), r, s), DecryptionKey(key, r + 1));
  }

  /** Encrypts one block; input and output may be the same array. */
  method Encrypt(t: Tables, ctx: Context, input: array<bv8>, output: array<bv8>, ghost key: seq<Column>)
    requires t.Shape() && t.HasSboxes() && t.HasRounds() && ctx.HasEncryptionKey(key) && |key| in {4, 6, 8}
    requires input.Length == output.Length == 16
    modifies output
    ensures output[..] == BlockBytes(Cipher(KeySchedule(key), BlockOf(old(input[..]))))
  {
    hide Pack, Packs, Rounds, KeySchedule, RoundKey, AddRoundKey, TableWord, Sub, InvSub, BlockBytes, BlockOf, FinalRound, HoldsAt;
    KeyOfRound(key);
    ghost var b := BlockOf(input[..]);
    ghost var s := AddRoundKey(b, RoundKey(key, 0));
    var x0, x1, x2, x3 := GetBlock(input, ctx.erk, RoundKey(key, 0));
    x0, x1, x2, x3 := ForwardRounds(t, ctx, x0, x1, x2, x3, key, s);
    x0, x1, x2, x3 := t.ForwardLast(ctx.erk, 4 * ctx.nr, x0, x1, x2, x3, Rounds(KeySchedule(key), ctx.nr - 1, s), RoundKey(key, ctx.nr));
    PutBlock(output, x0, x1, x2, x3, Cipher(KeySchedule(key), b));
  }

  /** Decrypts one block; input and output may be the same array. */
  method Decrypt(t: Tables, ctx: Context, input: array<bv8>, output: array<bv8>, ghost key: seq<Column>)
    requires t.Shape() && t.HasSboxes() && t.HasRounds() && ctx.HasDecryptionKey(key) && |key| in {4, 6, 8}
    requires input.Length == output.Length == 16
    modifies output
    ensures output[..] == BlockBytes(EqInvCipher(DecryptionSchedule(key), BlockOf(old(input[..]))))
  {
    hide Pack, Packs, EqInvRounds, DecryptionSchedule, DecryptionKey, AddRoundKey, TableWord, Sub, InvSub, BlockBytes, BlockOf, HoldsAt, InvShiftRows, InvSubBytes;
    KeyOfRound(key);
    ghost var b := BlockOf(input[..]);
    ghost var s := AddRoundKey(b, DecryptionKey(key, 0));
    var x0, x1, x2, x3 := GetBlock(input, ctx.drk, DecryptionKey(key, 0));
    x0, x1, x2, x3 := ReverseRounds(t, ctx, x0, x1, x2, x3, key, s);
    x0, x1, x2, x3 := t.ReverseLast(ctx.drk, 4 * ctx.nr, x0, x1, x2, x3, EqInvRounds(DecryptionSchedule(key), ctx.nr - 1, s), DecryptionKey(key, ctx.nr));
    PutBlock(output, x0, x1, x2, x3, EqInvCipher(DecryptionSchedule(key), b));
  }

  lemma KeyOfRound(key: seq<Column>)
    requires |key| > 0
    ensures forall r :: 0 <= r < |key| + 7 ==> KeySchedule(key)[r] == RoundKey(key, r)
    ensures forall r :: 0 <= r < |key| + 7 ==> DecryptionSchedule(key)[r] == DecryptionKey(key, r)
  {
    hide RoundKey, DecryptionKey;
  }

  lemma RoundsFrom(w: seq<Block>, s: Block)
    requires |w| > 0
    ensures Rounds(w, 0, s) == s && EqInvRounds(w, 0, s) == s
    ensures forall r :: 0 < r < |w| ==> Rounds(w, r, s) == Round(Rounds(w, r - 1, s), w[r])
    ensures forall r :: 0 < r < |w| ==> EqInvRounds(w, r, s) == EqInvRound(EqInvRounds(w, r - 1, s), w[r])
  {
    hide Round, EqInvRound;
  }
}
