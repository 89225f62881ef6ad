/** The rounds of FIPS-197 over a whole block, and the key expansion. */
module AesRounds {
  import opened AesField
  import opened AesCipher

  /** The state: four columns. */
  datatype Block = Block(c0: Column, c1: Column, c2: Column, c3: Column)

  ghost function SubColumn(s: Column): Column {
    Column(Sub(s.a), Sub(s.b), Sub(s.c), Sub(s.d))
  }

  ghost function InvSubColumn(s: Column): Column {
    Column(InvSub(s.a), InvSub(s.b), InvSub(s.c), InvSub(s.d))
  }

  ghost function SubBytes(s: Block): Block {
    Block(SubColumn(s.c0), SubColumn(s.c1), SubColumn(s.c2), SubColumn(s.c3))
  }

  ghost function InvSubBytes(s: Block): Block {
    Block(InvSubColumn(s.c0), InvSubColumn(s.c1), InvSubColumn(s.c2), InvSubColumn(s.c3))
  }

  function ShiftRows(s: Block): Block {
    Block(Column(s.c0.a, s.c1.b, s.c2.c, s.c3.d), Column(s.c1.a, s.c2.b, s.c3.c, s.c0.d),
          Column(s.c2.a, s.c3.b, s.c0.c, s.c1.d), Column(s.c3.a, s.c0.b, s.c1.c, s.c2.d))
  }

  function InvShiftRows(s: Block): Block {
    Block(Column(s.c0.a, s.c3.b, s.c2.c, s.c1.d), Column(s.c1.a, s.c0.b, s.c3.c, s.c2.d),
          Column(s.c2.a, s.c1.b, s.c0.c, s.c3.d), Column(s.c3.a, s.c2.b, s.c1.c, s.c0.d))
  }

  function MixColumns(s: Block): Block {
    Block(MixColumn(s.c0), MixColumn(s.c1), MixColumn(s.c2), MixColumn(s.c3))
  }

  function InvMixColumns(s: Block): Block {
    Block(InvMixColumn(s.c0), InvMixColumn(s.c1), InvMixColumn(s.c2), InvMixColumn(s.c3))
  }

  function AddRoundKey(s: Block, k: Block): Block {
    Block(Plus(s.c0, k.c0), Plus(s.c1, k.c1), Plus(s.c2, k.c2), Plus(s.c3, k.c3))
  }

  // ----- FIPS-197 section 5.1

  ghost function Round(s: Block, k: Block): Block {
    AddRoundKey(MixColumns(ShiftRows(SubBytes(s))), k)
  }

  ghost function FinalRound(s: Block, k: Block): Block {
    AddRoundKey(ShiftRows(SubBytes(s)), k)
  }

  /** The state after rounds 1..r. */
  ghost function Rounds(w: seq<Block>, r: nat, s: Block): Block
    requires r < |w|
  {
    if r == 0 then s else Round(Rounds(w, r - 1, s), w[r])
  }

  /** Encryption with the round keys w[0..nr]. */
  ghost function Cipher(w: seq<Block>, s: Block): Block
    requires |w| > 1
  {
    var nr := |w| - 1;
    FinalRound(Rounds(w, nr - 1, AddRoundKey(s, w[0])), w[nr])
  }

  // ----- FIPS-197 section 5.3

  ghost function InvRound(s: Block, k: Block): Block {
    InvMixColumns(AddRoundKey(InvSubBytes(InvShiftRows(s)), k))
  }

  /** Rounds r, r-1, ..., 1. */
  ghost function InvRounds(w: seq<Block>, r: nat, s: Block): Block
    requires r < |w|
  {
    if r == 0 then s else InvRounds(w, r - 1, InvRound(s, w[r]))
  }

  /** Decryption with the round keys w[0..nr]. */
  ghost function InvCipher(w: seq<Block>, s: Block): Block
    requires |w| > 1
  {
    var nr := |w| - 1;
    AddRoundKey(InvSubBytes(InvShiftRows(InvRounds(w, nr - 1, AddRoundKey(s, w[nr])))), w[0])
  }

  // ----- decryption undoes encryption

  lemma SubBytesInverse(s: Block)
    ensures InvSubBytes(SubBytes(s)) == s
  {
    hide Sub, InvSub;
    SubColumnInverse(s.c0);
    SubColumnInverse(s.c1);
    SubColumnInverse(s.c2);
    SubColumnInverse(s.c3);
  }

  lemma SubColumnInverse(s: Column)
    ensures InvSubColumn(SubColumn(s)) == s
  {
    hide Sub, InvSub;
    SubInverse(s.a);
    SubInverse(s.b);
    SubInverse(s.c);
    SubInverse(s.d);
  }

  lemma MixColumnsInverse(s: Block)
    ensures InvMixColumns(MixColumns(s)) == s
  {
    hide MixColumn, InvMixColumn;
    MixInverse(s.c0);
    MixInverse(s.c1);
    MixInverse(s.c2);
    MixInverse(s.c3);
  }

  lemma AddRoundKeyTwice(s: Block, k: Block)
    ensures AddRoundKey(AddRoundKey(s, k), k) == s
  {
    hide Plus;
    PlusLaws(s.c0, k.c0, k.c0);
    PlusLaws(s.c1, k.c1, k.c1);
    PlusLaws(s.c2, k.c2, k.c2);
    PlusLaws(s.c3, k.c3, k.c3);
  }

  lemma ShiftRowsInverse(s: Block)
    ensures InvShiftRows(ShiftRows(s)) == s
  {
  }

  /** A round, seen from the other side: the state after a decryption round that removes
      key k, when that key was the last thing added. */
  lemma RoundUndone(s: Block, k: Block)
    ensures InvMixColumns(AddRoundKey(Round(s, k), k)) == ShiftRows(SubBytes(s))
  {
    hide SubBytes, ShiftRows, MixColumns, InvMixColumns, AddRoundKey;
    AddRoundKeyTwice(MixColumns(ShiftRows(SubBytes(s))), k);
    MixColumnsInverse(ShiftRows(SubBytes(s)));
  }

  /** Decryption rounds r..1 undo encryption rounds 1..r, up to the S-box layer that the
      next decryption step removes. */
  lemma {:induction false} RoundsUndone(w: seq<Block>, r: nat, s: Block)
    requires r < |w|
    ensures InvRounds(w, r, ShiftRows(SubBytes(Rounds(w, r, s)))) == ShiftRows(SubBytes(s))
  {
    hide SubBytes, InvSubBytes, ShiftRows, InvShiftRows, MixColumns, InvMixColumns, AddRoundKey, Round;
    if r > 0 {
      var t := Rounds(w, r - 1, s);
      var u := Round(t, w[r]);
      ShiftRowsInverse(SubBytes(u));
      SubBytesInverse(u);
      RoundUndone(t, w[r]);
      RoundsUndone(w, r - 1, s);
    }
  }

  /** Decrypting an encrypted block gives the block back, for any round keys. */
  lemma InvCipherOfCipher(w: seq<Block>, s: Block)
    requires |w| > 1
    ensures InvCipher(w, Cipher(w, s)) == s
  {
    hide SubBytes, InvSubBytes, ShiftRows, InvShiftRows, AddRoundKey, Rounds, InvRounds;
    var nr := |w| - 1;
    var t := Rounds(w, nr - 1, AddRoundKey(s, w[0]));
    AddRoundKeyTwice(ShiftRows(SubBytes(t)), w[nr]);
    RoundsUndone(w, nr - 1, AddRoundKey(s, w[0]));
    ShiftRowsInverse(SubBytes(AddRoundKey(s, w[0])));
    SubBytesInverse(AddRoundKey(s, w[0]));
    AddRoundKeyTwice(s, w[0]);
  }

  // ----- the equivalent inverse cipher, FIPS-197 section 5.3.5

  ghost function EqInvRound(s: Block, k: Block): Block {
    AddRoundKey(InvMixColumns(InvShiftRows(InvSubBytes(s))), k)
  }

  ghost function EqInvRounds(dw: seq<Block>, r: nat, s: Block): Block
    requires r < |dw|
  {
    if r == 0 then s else EqInvRound(EqInvRounds(dw, r - 1, s), dw[r])
  }

  ghost function EqInvCipher(dw: seq<Block>, s: Block): Block
    requires |dw| > 1
  {
    var nr := |dw| - 1;
    AddRoundKey(InvShiftRows(InvSubBytes(EqInvRounds(dw, nr - 1, AddRoundKey(s, dw[0])))), dw[nr])
  }

  /** The decryption round keys: the round keys backwards, the inner ones through
      InvMixColumns. */
  ghost predicate IsDecryptionKey(w: seq<Block>, dw: seq<Block>) {
    && |dw| == |w| > 1
    && dw[0] == w[|w| - 1] && dw[|w| - 1] == w[0]
    && forall r :: 0 < r < |w| - 1 ==> dw[r] == InvMixColumns(w[|w| - 1 - r])
  }

  lemma SubShiftCommute(s: Block)
    ensures InvSubBytes(InvShiftRows(s)) == InvShiftRows(InvSubBytes(s))
  {
    hide InvSub;
  }

  lemma InvMixAdds(s: Block, k: Block)
    ensures InvMixColumns(AddRoundKey(s, k)) == AddRoundKey(InvMixColumns(s), InvMixColumns(k))
  {
    hide Apply, Plus;
    ApplyAdds(INV_MIX, s.c0, k.c0);
    ApplyAdds(INV_MIX, s.c1, k.c1);
    ApplyAdds(INV_MIX, s.c2, k.c2);
    ApplyAdds(INV_MIX, s.c3, k.c3);
  }

  lemma EqInvRoundIsInvRound(s: Block, k: Block)
    ensures EqInvRound(s, InvMixColumns(k)) == InvRound(s, k)
  {
    hide InvSubBytes, InvShiftRows, InvMixColumns, AddRoundKey;
    SubShiftCommute(s);
    InvMixAdds(InvSubBytes(InvShiftRows(s)), k);
  }

  /** Decryption rounds counted from the front: keys nr-1, nr-2, ... */
  lemma {:induction false} EqRoundsStep(w: seq<Block>, dw: seq<Block>, r: nat, s: Block)
    requires IsDecryptionKey(w, dw) && r < |w| - 1
    ensures InvRounds(w, |w| - 2 - r, EqInvRounds(dw, r, s)) == InvRounds(w, |w| - 2, s)
  {
    hide InvRound, EqInvRound, InvMixColumns;
    if r > 0 {
      EqRoundsStep(w, dw, r - 1, s);
      EqInvRoundIsInvRound(EqInvRounds(dw, r - 1, s), w[|w| - 1 - r]);
    }
  }

  /** The equivalent inverse cipher with the decryption keys is the inverse cipher. */
  lemma EqInvCipherIsInvCipher(w: seq<Block>, dw: seq<Block>, s: Block)
    requires IsDecryptionKey(w, dw)
    ensures EqInvCipher(dw, s) == InvCipher(w, s)
  {
    hide InvSubBytes, InvShiftRows, AddRoundKey, EqInvRounds;
    var t := AddRoundKey(s, dw[0]);
    EqRoundsStep(w, dw, |w| - 2, t);
    SubShiftCommute(EqInvRounds(dw, |w| - 2, t));
  }

  // ----- key expansion, FIPS-197 section 5.2

  function RotWord(t: Column): Column {
    Column(t.b, t.c, t.d, t.a)
  }

  /** x^n in the field, the first byte of a round constant. */
  function RconByte(n: nat): bv8 {
    if n == 0 then 1 else XTime(RconByte(n - 1))
  }

  /** Word i of the expanded key. */
  ghost function ExpandedWord(key: seq<Column>, i: nat): Column
    requires |key| > 0
  {
    var nk := |key|;
    if i < nk then key[i]
    else
      var t := ExpandedWord(key, i - 1);
      var u := if i % nk == 0 then Plus(SubColumn(RotWord(t)), Column(RconByte(i / nk - 1), 0, 0, 0))
               else if nk > 6 && i % nk == 4 then SubColumn(t)
               else t;
      Plus(ExpandedWord(key, i - nk), u)
  }

  ghost function RoundKey(key: seq<Column>, r: nat): Block
    requires |key| > 0
  {
    Block(ExpandedWord(key, 4 * r), ExpandedWord(key, 4 * r + 1), ExpandedWord(key, 4 * r + 2), ExpandedWord(key, 4 * r + 3))
  }

  /** The round keys of a key of 4, 6 or 8 words. */
  ghost function KeySchedule(key: seq<Column>): (w: seq<Block>)
    requires |key| > 0
    ensures |w| == |key| + 7
  {
    seq(|key| + 7, r requires 0 <= r => RoundKey(key, r))
  }

  /** Round key r of the equivalent inverse cipher. */
  ghost function DecryptionKey(key: seq<Column>, r: nat): Block
    requires |key| > 0 && r <= |key| + 6
  {
    var nr := |key| + 6;
    if r == 0 then RoundKey(key, nr) else if r == nr then RoundKey(key, 0) else InvMixColumns(RoundKey(key, nr - r))
  }

  ghost function DecryptionSchedule(key: seq<Column>): (dw: seq<Block>)
    requires |key| > 0
    ensures |dw| == |key| + 7
  {
    seq(|key| + 7, r requires 0 <= r < |key| + 7 => DecryptionKey(key, r))
  }

  lemma ScheduleInverse(key: seq<Column>)
    requires |key| > 0
    ensures IsDecryptionKey(KeySchedule(key), DecryptionSchedule(key))
  {
    hide RoundKey, InvMixColumns;
  }

  /** Decrypting through the decryption schedule undoes encrypting through the key
      schedule. */
  lemma ScheduledRoundTrip(key: seq<Column>, s: Block)
    requires |key| > 0
    ensures EqInvCipher(DecryptionSchedule(key), Cipher(KeySchedule(key), s)) == s
  {
    hide Cipher, InvCipher, EqInvCipher, KeySchedule, DecryptionSchedule;
    ScheduleInverse(key);
    EqInvCipherIsInvCipher(KeySchedule(key), DecryptionSchedule(key), Cipher(KeySchedule(key), s));
    InvCipherOfCipher(KeySchedule(key), s);
  }
}
