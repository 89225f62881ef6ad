/** The worked examples of FIPS-197, appendices A and B: key schedules and a cipher run, word
    by word and round by round. */
module AesExample {
  import opened AesField
  import opened AesCipher
  import opened AesRounds
  import opened AesWords
  import opened AesSbox
  import opened Aes
  import opened AesBlock
  import opened AesKey

  /** Sixteen bytes, column after column, as the standard prints them. */
  function State(a0: bv8, b0: bv8, c0: bv8, d0: bv8, a1: bv8, b1: bv8, c1: bv8, d1: bv8,
                 a2: bv8, b2: bv8, c2: bv8, d2: bv8, a3: bv8, b3: bv8, c3: bv8, d3: bv8): Block {
    Block(Column(a0, b0, c0, d0), Column(a1, b1, c1, d1), Column(a2, b2, c2, d2), Column(a3, b3, c3, d3))
  }

  lemma SubWord(a: bv8, b: bv8, c: bv8, d: bv8, e: bv8, f: bv8, g: bv8, h: bv8)
    requires Sub(a) == e && Sub(b) == f && Sub(c) == g && Sub(d) == h
    ensures SubColumn(Column(a, b, c, d)) == Column(e, f, g, h)
  {
    hide Sub;
  }

  lemma SubState(a0: bv8, b0: bv8, c0: bv8, d0: bv8, a1: bv8, b1: bv8, c1: bv8, d1: bv8,
                 a2: bv8, b2: bv8, c2: bv8, d2: bv8, a3: bv8, b3: bv8, c3: bv8, d3: bv8,
                 e0: bv8, f0: bv8, g0: bv8, h0: bv8, e1: bv8, f1: bv8, g1: bv8, h1: bv8,
                 e2: bv8, f2: bv8, g2: bv8, h2: bv8, e3: bv8, f3: bv8, g3: bv8, h3: bv8)
    requires Sub(a0) == e0 && Sub(b0) == f0 && Sub(c0) == g0 && Sub(d0) == h0
    requires Sub(a1) == e1 && Sub(b1) == f1 && Sub(c1) == g1 && Sub(d1) == h1
    requires Sub(a2) == e2 && Sub(b2) == f2 && Sub(c2) == g2 && Sub(d2) == h2
    requires Sub(a3) == e3 && Sub(b3) == f3 && Sub(c3) == g3 && Sub(d3) == h3
    ensures SubBytes(State(a0, b0, c0, d0, a1, b1, c1, d1, a2, b2, c2, d2, a3, b3, c3, d3))
         == State(e0, f0, g0, h0, e1, f1, g1, h1, e2, f2, g2, h2, e3, f3, g3, h3)
  {
    hide Sub;
  }

  /** The first byte of each round constant, section 5.2. */
  lemma RoundConstants()
    ensures RconByte(0) == 0x01 && RconByte(1) == 0x02 && RconByte(2) == 0x04 && RconByte(3) == 0x08 && RconByte(4) == 0x10
    ensures RconByte(5) == 0x20 && RconByte(6) == 0x40 && RconByte(7) == 0x80 && RconByte(8) == 0x1B && RconByte(9) == 0x36
  {
    assert RconByte(3) == 0x08;
    assert RconByte(6) == 0x40;
  }

  // ----- the key schedule

  /** The next round key of a key of four words. */
  ghost function NextKey(k: Block, c: bv8): Block {
    var n0 := Plus(Plus(k.c0, Column(c, 0, 0, 0)), SubColumn(RotWord(k.c3)));
    var n1 := Plus(k.c1, n0);
    var n2 := Plus(k.c2, n1);
    Block(n0, n1, n2, Plus(k.c3, n2))
  }

  lemma NextRoundKey(key: seq<Column>, r: nat)
    requires |key| == 4 && r > 0
    ensures RoundKey(key, r) == NextKey(RoundKey(key, r - 1), RconByte(r - 1))
  {
    hide ExpandedWord, Plus, SubColumn, RotWord, RconByte;
    FirstWordOf(key, 4 * r);
    PlainWordOf(key, 4 * r + 1);
    PlainWordOf(key, 4 * r + 2);
    PlainWordOf(key, 4 * r + 3);
  }

  lemma NextKeyIs(k: Block, u: Column, c: bv8, t: Column, n: Block)
    requires u == RotWord(k.c3) && SubColumn(u) == t
    requires n.c0 == Plus(Plus(k.c0, Column(c, 0, 0, 0)), t) && n.c1 == Plus(k.c1, n.c0)
    requires n.c2 == Plus(k.c2, n.c1) && n.c3 == Plus(k.c3, n.c2)
    ensures NextKey(k, c) == n
  {
    hide Plus, SubColumn, RotWord;
  }

  const KEY128: seq<bv8> := [0x2B, 0x7E, 0x15, 0x16, 0x28, 0xAE, 0xD2, 0xA6, 0xAB, 0xF7, 0x15, 0x88, 0x09, 0xCF, 0x4F, 0x3C]

  lemma FirstKey()
    ensures RoundKey(KeyColumns(KEY128, 4), 0) == State(0x2B, 0x7E, 0x15, 0x16, 0x28, 0xAE, 0xD2, 0xA6, 0xAB, 0xF7, 0x15, 0x88, 0x09, 0xCF, 0x4F, 0x3C)
  {
  }

  /** Appendix A.1. */
  lemma Schedule128()
    ensures RoundKey(KeyColumns(KEY128, 4), 1) == State(0xA0, 0xFA, 0xFE, 0x17, 0x88, 0x54, 0x2C, 0xB1, 0x23, 0xA3, 0x39, 0x39, 0x2A, 0x6C, 0x76, 0x05)
    ensures RoundKey(KeyColumns(KEY128, 4), 2) == State(0xF2, 0xC2, 0x95, 0xF2, 0x7A, 0x96, 0xB9, 0x43, 0x59, 0x35, 0x80, 0x7A, 0x73, 0x59, 0xF6, 0x7F)
    ensures RoundKey(KeyColumns(KEY128, 4), 3) == State(0x3D, 0x80, 0x47, 0x7D, 0x47, 0x16, 0xFE, 0x3E, 0x1E, 0x23, 0x7E, 0x44, 0x6D, 0x7A, 0x88, 0x3B)
    ensures RoundKey(KeyColumns(KEY128, 4), 4) == State(0xEF, 0x44, 0xA5, 0x41, 0xA8, 0x52, 0x5B, 0x7F, 0xB6, 0x71, 0x25, 0x3B, 0xDB, 0x0B, 0xAD, 0x00)
    ensures RoundKey(KeyColumns(KEY128, 4), 5) == State(0xD4, 0xD1, 0xC6, 0xF8, 0x7C, 0x83, 0x9D, 0x87, 0xCA, 0xF2, 0xB8, 0xBC, 0x11, 0xF9, 0x15, 0xBC)
    ensures RoundKey(KeyColumns(KEY128, 4), 6) == State(0x6D, 0x88, 0xA3, 0x7A, 0x11, 0x0B, 0x3E, 0xFD, 0xDB, 0xF9, 0x86, 0x41, 0xCA, 0x00, 0x93, 0xFD)
    ensures RoundKey(KeyColumns(KEY128, 4), 7) == State(0x4E, 0x54, 0xF7, 0x0E, 0x5F, 0x5F, 0xC9, 0xF3, 0x84, 0xA6, 0x4F, 0xB2, 0x4E, 0xA6, 0xDC, 0x4F)
    ensures RoundKey(KeyColumns(KEY128, 4), 8) == State(0xEA, 0xD2, 0x73, 0x21, 0xB5, 0x8D, 0xBA, 0xD2, 0x31, 0x2B, 0xF5, 0x60, 0x7F, 0x8D, 0x29, 0x2F)
    ensures RoundKey(KeyColumns(KEY128, 4), 9) == State(0xAC, 0x77, 0x66, 0xF3, 0x19, 0xFA, 0xDC, 0x21, 0x28, 0xD1, 0x29, 0x41, 0x57, 0x5C, 0x00, 0x6E)
    ensures RoundKey(KeyColumns(KEY128, 4), 10) == State(0xD0, 0x14, 0xF9, 0xA8, 0xC9, 0xEE, 0x25, 0x89, 0xE1, 0x3F, 0x0C, 0xC8, 0xB6, 0x63, 0x0C, 0xA6)
  {
    hide RoundKey, KeyColumns, NextKey, State, RconByte;
    var key := KeyColumns(KEY128, 4);
    FirstKey();
    RoundConstants();
    SchedulePart1();
    SchedulePart2();
    NextRoundKey(key, 1);
    NextRoundKey(key, 2);
    NextRoundKey(key, 3);
    NextRoundKey(key, 4);
    NextRoundKey(key, 5);
    NextRoundKey(key, 6);
    NextRoundKey(key, 7);
    NextRoundKey(key, 8);
    NextRoundKey(key, 9);
    NextRoundKey(key, 10);
  }

  lemma SubstitutedWords()
    ensures SubColumn(Column(0xCF, 0x4F, 0x3C, 0x09)) == Column(0x8A, 0x84, 0xEB, 0x01)
    ensures SubColumn(Column(0x6C, 0x76, 0x05, 0x2A)) == Column(0x50, 0x38, 0x6B, 0xE5)
    ensures SubColumn(Column(0x59, 0xF6, 0x7F, 0x73)) == Column(0xCB, 0x42, 0xD2, 0x8F)
    ensures SubColumn(Column(0x7A, 0x88, 0x3B, 0x6D)) == Column(0xDA, 0xC4, 0xE2, 0x3C)
    ensures SubColumn(Column(0x0B, 0xAD, 0x00, 0xDB)) == Column(0x2B, 0x95, 0x63, 0xB9)
    ensures SubColumn(Column(0xF9, 0x15, 0xBC, 0x11)) == Column(0x99, 0x59, 0x65, 0x82)
    ensures SubColumn(Column(0x00, 0x93, 0xFD, 0xCA)) == Column(0x63, 0xDC, 0x54, 0x74)
    ensures SubColumn(Column(0xA6, 0xDC, 0x4F, 0x4E)) == Column(0x24, 0x86, 0x84, 0x2F)
    ensures SubColumn(Column(0x8D, 0x29, 0x2F, 0x7F)) == Column(0x5D, 0xA5, 0x15, 0xD2)
    ensures SubColumn(Column(0x5C, 0x00, 0x6E, 0x57)) == Column(0x4A, 0x63, 0x9F, 0x5B)
  {
    hide Sub, SubColumn;
    Sbox();
    SubWord(0xCF, 0x4F, 0x3C, 0x09, 0x8A, 0x84, 0xEB, 0x01);
    SubWord(0x6C, 0x76, 0x05, 0x2A, 0x50, 0x38, 0x6B, 0xE5);
    SubWord(0x59, 0xF6, 0x7F, 0x73, 0xCB, 0x42, 0xD2, 0x8F);
    SubWord(0x7A, 0x88, 0x3B, 0x6D, 0xDA, 0xC4, 0xE2, 0x3C);
    SubWord(0x0B, 0xAD, 0x00, 0xDB, 0x2B, 0x95, 0x63, 0xB9);
    SubWord(0xF9, 0x15, 0xBC, 0x11, 0x99, 0x59, 0x65, 0x82);
    SubWord(0x00, 0x93, 0xFD, 0xCA, 0x63, 0xDC, 0x54, 0x74);
    SubWord(0xA6, 0xDC, 0x4F, 0x4E, 0x24, 0x86, 0x84, 0x2F);
    SubWord(0x8D, 0x29, 0x2F, 0x7F, 0x5D, 0xA5, 0x15, 0xD2);
    SubWord(0x5C, 0x00, 0x6E, 0x57, 0x4A, 0x63, 0x9F, 0x5B);
  }

  lemma SchedulePart1()
    ensures NextKey(State(0x2B, 0x7E, 0x15, 0x16, 0x28, 0xAE, 0xD2, 0xA6, 0xAB, 0xF7, 0x15, 0x88, 0x09, 0xCF, 0x4F, 0x3C), 0x01)
         == State(0xA0, 0xFA, 0xFE, 0x17, 0x88, 0x54, 0x2C, 0xB1, 0x23, 0xA3, 0x39, 0x39, 0x2A, 0x6C, 0x76, 0x05)
    ensures NextKey(State(0xA0, 0xFA, 0xFE, 0x17, 0x88, 0x54, 0x2C, 0xB1, 0x23, 0xA3, 0x39, 0x39, 0x2A, 0x6C, 0x76, 0x05), 0x02)
         == State(0xF2, 0xC2, 0x95, 0xF2, 0x7A, 0x96, 0xB9, 0x43, 0x59, 0x35, 0x80, 0x7A, 0x73, 0x59, 0xF6, 0x7F)
    ensures NextKey(State(0xF2, 0xC2, 0x95, 0xF2, 0x7A, 0x96, 0xB9, 0x43, 0x59, 0x35, 0x80, 0x7A, 0x73, 0x59, 0xF6, 0x7F), 0x04)
         == State(0x3D, 0x80, 0x47, 0x7D, 0x47, 0x16, 0xFE, 0x3E, 0x1E, 0x23, 0x7E, 0x44, 0x6D, 0x7A, 0x88, 0x3B)
    ensures NextKey(State(0x3D, 0x80, 0x47, 0x7D, 0x47, 0x16, 0xFE, 0x3E, 0x1E, 0x23, 0x7E, 0x44, 0x6D, 0x7A, 0x88, 0x3B), 0x08)
         == State(0xEF, 0x44, 0xA5, 0x41, 0xA8, 0x52, 0x5B, 0x7F, 0xB6, 0x71, 0x25, 0x3B, 0xDB, 0x0B, 0xAD, 0x00)
    ensures NextKey(State(0xEF, 0x44, 0xA5, 0x41, 0xA8, 0x52, 0x5B, 0x7F, 0xB6, 0x71, 0x25, 0x3B, 0xDB, 0x0B, 0xAD, 0x00), 0x10)
         == State(0xD4, 0xD1, 0xC6, 0xF8, 0x7C, 0x83, 0x9D, 0x87, 0xCA, 0xF2, 0xB8, 0xBC, 0x11, 0xF9, 0x15, 0xBC)
  {
    hide SubColumn, NextKey;
    SubstitutedWords();
    NextKeyIs(State(0x2B, 0x7E, 0x15, 0x16, 0x28, 0xAE, 0xD2, 0xA6, 0xAB, 0xF7, 0x15, 0x88, 0x09, 0xCF, 0x4F, 0x3C),
      Column(0xCF, 0x4F, 0x3C, 0x09), 0x01, Column(0x8A, 0x84, 0xEB, 0x01),
      State(0xA0, 0xFA, 0xFE, 0x17, 0x88, 0x54, 0x2C, 0xB1, 0x23, 0xA3, 0x39, 0x39, 0x2A, 0x6C, 0x76, 0x05));
    NextKeyIs(State(0xA0, 0xFA, 0xFE, 0x17, 0x88, 0x54, 0x2C, 0xB1, 0x23, 0xA3, 0x39, 0x39, 0x2A, 0x6C, 0x76, 0x05),
      Column(0x6C, 0x76, 0x05, 0x2A), 0x02, Column(0x50, 0x38, 0x6B, 0xE5),
      State(0xF2, 0xC2, 0x95, 0xF2, 0x7A, 0x96, 0xB9, 0x43, 0x59, 0x35, 0x80, 0x7A, 0x73, 0x59, 0xF6, 0x7F));
    NextKeyIs(State(0xF2, 0xC2, 0x95, 0xF2, 0x7A, 0x96, 0xB9, 0x43, 0x59, 0x35, 0x80, 0x7A, 0x73, 0x59, 0xF6, 0x7F),
      Column(0x59, 0xF6, 0x7F, 0x73), 0x04, Column(0xCB, 0x42, 0xD2, 0x8F),
      State(0x3D, 0x80, 0x47, 0x7D, 0x47, 0x16, 0xFE, 0x3E, 0x1E, 0x23, 0x7E, 0x44, 0x6D, 0x7A, 0x88, 0x3B));
    NextKeyIs(State(0x3D, 0x80, 0x47, 0x7D, 0x47, 0x16, 0xFE, 0x3E, 0x1E, 0x23, 0x7E, 0x44, 0x6D, 0x7A, 0x88, 0x3B),
      Column(0x7A, 0x88, 0x3B, 0x6D), 0x08, Column(0xDA, 0xC4, 0xE2, 0x3C),
      State(0xEF, 0x44, 0xA5, 0x41, 0xA8, 0x52, 0x5B, 0x7F, 0xB6, 0x71, 0x25, 0x3B, 0xDB, 0x0B, 0xAD, 0x00));
    NextKeyIs(State(0xEF, 0x44, 0xA5, 0x41, 0xA8, 0x52, 0x5B, 0x7F, 0xB6, 0x71, 0x25, 0x3B, 0xDB, 0x0B, 0xAD, 0x00),
      Column(0x0B, 0xAD, 0x00, 0xDB), 0x10, Column(0x2B, 0x95, 0x63, 0xB9),
      State(0xD4, 0xD1, 0xC6, 0xF8, 0x7C, 0x83, 0x9D, 0x87, 0xCA, 0xF2, 0xB8, 0xBC, 0x11, 0xF9, 0x15, 0xBC));
  }

  lemma SchedulePart2()
    ensures NextKey(State(0xD4, 0xD1, 0xC6, 0xF8, 0x7C, 0x83, 0x9D, 0x87, 0xCA, 0xF2, 0xB8, 0xBC, 0x11, 0xF9, 0x15, 0xBC), 0x20)
         == State(0x6D, 0x88, 0xA3, 0x7A, 0x11, 0x0B, 0x3E, 0xFD, 0xDB, 0xF9, 0x86, 0x41, 0xCA, 0x00, 0x93, 0xFD)
    ensures NextKey(State(0x6D, 0x88, 0xA3, 0x7A, 0x11, 0x0B, 0x3E, 0xFD, 0xDB, 0xF9, 0x86, 0x41, 0xCA, 0x00, 0x93, 0xFD), 0x40)
         == State(0x4E, 0x54, 0xF7, 0x0E, 0x5F, 0x5F, 0xC9, 0xF3, 0x84, 0xA6, 0x4F, 0xB2, 0x4E, 0xA6, 0xDC, 0x4F)
    ensures NextKey(State(0x4E, 0x54, 0xF7, 0x0E, 0x5F, 0x5F, 0xC9, 0xF3, 0x84, 0xA6, 0x4F, 0xB2, 0x4E, 0xA6, 0xDC, 0x4F), 0x80)
         == State(0xEA, 0xD2, 0x73, 0x21, 0xB5, 0x8D, 0xBA, 0xD2, 0x31, 0x2B, 0xF5, 0x60, 0x7F, 0x8D, 0x29, 0x2F)
    ensures NextKey(State(0xEA, 0xD2, 0x73, 0x21, 0xB5, 0x8D, 0xBA, 0xD2, 0x31, 0x2B, 0xF5, 0x60, 0x7F, 0x8D, 0x29, 0x2F), 0x1B)
         == State(0xAC, 0x77, 0x66, 0xF3, 0x19, 0xFA, 0xDC, 0x21, 0x28, 0xD1, 0x29, 0x41, 0x57, 0x5C, 0x00, 0x6E)
    ensures NextKey(State(0xAC, 0x77, 0x66, 0xF3, 0x19, 0xFA, 0xDC, 0x21, 0x28, 0xD1, 0x29, 0x41, 0x57, 0x5C, 0x00, 0x6E), 0x36)
         == State(0xD0, 0x14, 0xF9, 0xA8, 0xC9, 0xEE, 0x25, 0x89, 0xE1, 0x3F, 0x0C, 0xC8, 0xB6, 0x63, 0x0C, 0xA6)
  {
    hide SubColumn, NextKey;
    SubstitutedWords();
    NextKeyIs(State(0xD4, 0xD1, 0xC6, 0xF8, 0x7C, 0x83, 0x9D, 0x87, 0xCA, 0xF2, 0xB8, 0xBC, 0x11, 0xF9, 0x15, 0xBC),
      Column(0xF9, 0x15, 0xBC, 0x11), 0x20, Column(0x99, 0x59, 0x65, 0x82),
      State(0x6D, 0x88, 0xA3, 0x7A, 0x11, 0x0B, 0x3E, 0xFD, 0xDB, 0xF9, 0x86, 0x41, 0xCA, 0x00, 0x93, 0xFD));
    NextKeyIs(State(0x6D, 0x88, 0xA3, 0x7A, 0x11, 0x0B, 0x3E, 0xFD, 0xDB, 0xF9, 0x86, 0x41, 0xCA, 0x00, 0x93, 0xFD),
      Column(0x00, 0x93, 0xFD, 0xCA), 0x40, Column(0x63, 0xDC, 0x54, 0x74),
      State(0x4E, 0x54, 0xF7, 0x0E, 0x5F, 0x5F, 0xC9, 0xF3, 0x84, 0xA6, 0x4F, 0xB2, 0x4E, 0xA6, 0xDC, 0x4F));
    NextKeyIs(State(0x4E, 0x54, 0xF7, 0x0E, 0x5F, 0x5F, 0xC9, 0xF3, 0x84, 0xA6, 0x4F, 0xB2, 0x4E, 0xA6, 0xDC, 0x4F),
      Column(0xA6, 0xDC, 0x4F, 0x4E), 0x80, Column(0x24, 0x86, 0x84, 0x2F),
      State(0xEA, 0xD2, 0x73, 0x21, 0xB5, 0x8D, 0xBA, 0xD2, 0x31, 0x2B, 0xF5, 0x60, 0x7F, 0x8D, 0x29, 0x2F));
    NextKeyIs(State(0xEA, 0xD2, 0x73, 0x21, 0xB5, 0x8D, 0xBA, 0xD2, 0x31, 0x2B, 0xF5, 0x60, 0x7F, 0x8D, 0x29, 0x2F),
      Column(0x8D, 0x29, 0x2F, 0x7F), 0x1B, Column(0x5D, 0xA5, 0x15, 0xD2),
      State(0xAC, 0x77, 0x66, 0xF3, 0x19, 0xFA, 0xDC, 0x21, 0x28, 0xD1, 0x29, 0x41, 0x57, 0x5C, 0x00, 0x6E));
    NextKeyIs(State(0xAC, 0x77, 0x66, 0xF3, 0x19, 0xFA, 0xDC, 0x21, 0x28, 0xD1, 0x29, 0x41, 0x57, 0x5C, 0x00, 0x6E),
      Column(0x5C, 0x00, 0x6E, 0x57), 0x36, Column(0x4A, 0x63, 0x9F, 0x5B),
      State(0xD0, 0x14, 0xF9, 0xA8, 0xC9, 0xEE, 0x25, 0x89, 0xE1, 0x3F, 0x0C, 0xC8, 0xB6, 0x63, 0x0C, 0xA6));
  }

  // ----- the rounds

  /** MixColumns written with shifts, section 5.1.3. */
  function Mixed(s: Column): Column {
    Column(Add(Add(XTime(s.a), Add(s.b, XTime(s.b))), Add(s.c, s.d)), Add(Add(s.a, XTime(s.b)), Add(Add(s.c, XTime(s.c)), s.d)),
           Add(Add(s.a, s.b), Add(XTime(s.c), Add(s.d, XTime(s.d)))), Add(Add(Add(s.a, XTime(s.a)), s.b), Add(s.c, XTime(s.d))))
  }

  lemma MixedIs(s: Column)
    ensures MixColumn(s) == Mixed(s)
  {
    hide Mul, XTime, Add;
    MulPowersOfTwo(s.a);
    MulPowersOfTwo(s.b);
    MulPowersOfTwo(s.c);
    MulPowersOfTwo(s.d);
    MulConstants(s.a);
    MulConstants(s.b);
    MulConstants(s.c);
    MulConstants(s.d);
  }

  lemma RoundIs(s: Block, t: Block, k: Block)
    requires SubBytes(s) == t
    ensures var u := ShiftRows(t);
      Round(s, k) == AddRoundKey(Block(Mixed(u.c0), Mixed(u.c1), Mixed(u.c2), Mixed(u.c3)), k)
  {
    hide SubBytes, ShiftRows, Mixed, MixColumn, AddRoundKey;
    var u := ShiftRows(t);
    MixedIs(u.c0);
    MixedIs(u.c1);
    MixedIs(u.c2);
    MixedIs(u.c3);
  }

  lemma Bytes1()
    ensures SubBytes(State(0x19, 0x3D, 0xE3, 0xBE, 0xA0, 0xF4, 0xE2, 0x2B, 0x9A, 0xC6, 0x8D, 0x2A, 0xE9, 0xF8, 0x48, 0x08))
         == State(0xD4, 0x27, 0x11, 0xAE, 0xE0, 0xBF, 0x98, 0xF1, 0xB8, 0xB4, 0x5D, 0xE5, 0x1E, 0x41, 0x52, 0x30)
  {
    hide Sub, SubBytes, State;
    Sbox();
    SubState(0x19, 0x3D, 0xE3, 0xBE, 0xA0, 0xF4, 0xE2, 0x2B, 0x9A, 0xC6, 0x8D, 0x2A, 0xE9, 0xF8, 0x48, 0x08,
      0xD4, 0x27, 0x11, 0xAE, 0xE0, 0xBF, 0x98, 0xF1, 0xB8, 0xB4, 0x5D, 0xE5, 0x1E, 0x41, 0x52, 0x30);
  }

  lemma Round1()
    ensures Round(State(0x19, 0x3D, 0xE3, 0xBE, 0xA0, 0xF4, 0xE2, 0x2B, 0x9A, 0xC6, 0x8D, 0x2A, 0xE9, 0xF8, 0x48, 0x08),
                  State(0xA0, 0xFA, 0xFE, 0x17, 0x88, 0x54, 0x2C, 0xB1, 0x23, 0xA3, 0x39, 0x39, 0x2A, 0x6C, 0x76, 0x05))
         == State(0xA4, 0x9C, 0x7F, 0xF2, 0x68, 0x9F, 0x35, 0x2B, 0x6B, 0x5B, 0xEA, 0x43, 0x02, 0x6A, 0x50, 0x49)
  {
    hide SubBytes, Round;
    Bytes1();
    RoundIs(State(0x19, 0x3D, 0xE3, 0xBE, 0xA0, 0xF4, 0xE2, 0x2B, 0x9A, 0xC6, 0x8D, 0x2A, 0xE9, 0xF8, 0x48, 0x08),
      State(0xD4, 0x27, 0x11, 0xAE, 0xE0, 0xBF, 0x98, 0xF1, 0xB8, 0xB4, 0x5D, 0xE5, 0x1E, 0x41, 0x52, 0x30),
      State(0xA0, 0xFA, 0xFE, 0x17, 0x88, 0x54, 0x2C, 0xB1, 0x23, 0xA3, 0x39, 0x39, 0x2A, 0x6C, 0x76, 0x05));
  }

  lemma Bytes2()
    ensures SubBytes(State(0xA4, 0x9C, 0x7F, 0xF2, 0x68, 0x9F, 0x35, 0x2B, 0x6B, 0x5B, 0xEA, 0x43, 0x02, 0x6A, 0x50, 0x49))
         == State(0x49, 0xDE, 0xD2, 0x89, 0x45, 0xDB, 0x96, 0xF1, 0x7F, 0x39, 0x87, 0x1A, 0x77, 0x02, 0x53, 0x3B)
  {
    hide Sub, SubBytes, State;
    Sbox();
    SubState(0xA4, 0x9C, 0x7F, 0xF2, 0x68, 0x9F, 0x35, 0x2B, 0x6B, 0x5B, 0xEA, 0x43, 0x02, 0x6A, 0x50, 0x49,
      0x49, 0xDE, 0xD2, 0x89, 0x45, 0xDB, 0x96, 0xF1, 0x7F, 0x39, 0x87, 0x1A, 0x77, 0x02, 0x53, 0x3B);
  }

  lemma Round2()
    ensures Round(State(0xA4, 0x9C, 0x7F, 0xF2, 0x68, 0x9F, 0x35, 0x2B, 0x6B, 0x5B, 0xEA, 0x43, 0x02, 0x6A, 0x50, 0x49),
                  State(0xF2, 0xC2, 0x95, 0xF2, 0x7A, 0x96, 0xB9, 0x43, 0x59, 0x35, 0x80, 0x7A, 0x73, 0x59, 0xF6, 0x7F))
         == State(0xAA, 0x8F, 0x5F, 0x03, 0x61, 0xDD, 0xE3, 0xEF, 0x82, 0xD2, 0x4A, 0xD2, 0x68, 0x32, 0x46, 0x9A)
  {
    hide SubBytes, Round;
    Bytes2();
    RoundIs(State(0xA4, 0x9C, 0x7F, 0xF2, 0x68, 0x9F, 0x35, 0x2B, 0x6B, 0x5B, 0xEA, 0x43, 0x02, 0x6A, 0x50, 0x49),
      State(0x49, 0xDE, 0xD2, 0x89, 0x45, 0xDB, 0x96, 0xF1, 0x7F, 0x39, 0x87, 0x1A, 0x77, 0x02, 0x53, 0x3B),
      State(0xF2, 0xC2, 0x95, 0xF2, 0x7A, 0x96, 0xB9, 0x43, 0x59, 0x35, 0x80, 0x7A, 0x73, 0x59, 0xF6, 0x7F));
  }

  lemma Bytes3()
    ensures SubBytes(State(0xAA, 0x8F, 0x5F, 0x03, 0x61, 0xDD, 0xE3, 0xEF, 0x82, 0xD2, 0x4A, 0xD2, 0x68, 0x32, 0x46, 0x9A))
         == State(0xAC, 0x73, 0xCF, 0x7B, 0xEF, 0xC1, 0x11, 0xDF, 0x13, 0xB5, 0xD6, 0xB5, 0x45, 0x23, 0x5A, 0xB8)
  {
    hide Sub, SubBytes, State;
    Sbox();
    SubState(0xAA, 0x8F, 0x5F, 0x03, 0x61, 0xDD, 0xE3, 0xEF, 0x82, 0xD2, 0x4A, 0xD2, 0x68, 0x32, 0x46, 0x9A,
      0xAC, 0x73, 0xCF, 0x7B, 0xEF, 0xC1, 0x11, 0xDF, 0x13, 0xB5, 0xD6, 0xB5, 0x45, 0x23, 0x5A, 0xB8);
  }

  lemma Round3()
    ensures Round(State(0xAA, 0x8F, 0x5F, 0x03, 0x61, 0xDD, 0xE3, 0xEF, 0x82, 0xD2, 0x4A, 0xD2, 0x68, 0x32, 0x46, 0x9A),
                  State(0x3D, 0x80, 0x47, 0x7D, 0x47, 0x16, 0xFE, 0x3E, 0x1E, 0x23, 0x7E, 0x44, 0x6D, 0x7A, 0x88, 0x3B))
         == State(0x48, 0x6C, 0x4E, 0xEE, 0x67, 0x1D, 0x9D, 0x0D, 0x4D, 0xE3, 0xB1, 0x38, 0xD6, 0x5F, 0x58, 0xE7)
  {
    hide SubBytes, Round;
    Bytes3();
    RoundIs(State(0xAA, 0x8F, 0x5F, 0x03, 0x61, 0xDD, 0xE3, 0xEF, 0x82, 0xD2, 0x4A, 0xD2, 0x68, 0x32, 0x46, 0x9A),
      State(0xAC, 0x73, 0xCF, 0x7B, 0xEF, 0xC1, 0x11, 0xDF, 0x13, 0xB5, 0xD6, 0xB5, 0x45, 0x23, 0x5A, 0xB8),
      State(0x3D, 0x80, 0x47, 0x7D, 0x47, 0x16, 0xFE, 0x3E, 0x1E, 0x23, 0x7E, 0x44, 0x6D, 0x7A, 0x88, 0x3B));
  }

  lemma Bytes4()
    ensures SubBytes(State(0x48, 0x6C, 0x4E, 0xEE, 0x67, 0x1D, 0x9D, 0x0D, 0x4D, 0xE3, 0xB1, 0x38, 0xD6, 0x5F, 0x58, 0xE7))
         == State(0x52, 0x50, 0x2F, 0x28, 0x85, 0xA4, 0x5E, 0xD7, 0xE3, 0x11, 0xC8, 0x07, 0xF6, 0xCF, 0x6A, 0x94)
  {
    hide Sub, SubBytes, State;
    Sbox();
    SubState(0x48, 0x6C, 0x4E, 0xEE, 0x67, 0x1D, 0x9D, 0x0D, 0x4D, 0xE3, 0xB1, 0x38, 0xD6, 0x5F, 0x58, 0xE7,
      0x52, 0x50, 0x2F, 0x28, 0x85, 0xA4, 0x5E, 0xD7, 0xE3, 0x11, 0xC8, 0x07, 0xF6, 0xCF, 0x6A, 0x94);
  }

  lemma Round4()
    ensures Round(State(0x48, 0x6C, 0x4E, 0xEE, 0x67, 0x1D, 0x9D, 0x0D, 0x4D, 0xE3, 0xB1, 0x38, 0xD6, 0x5F, 0x58, 0xE7),
                  State(0xEF, 0x44, 0xA5, 0x41, 0xA8, 0x52, 0x5B, 0x7F, 0xB6, 0x71, 0x25, 0x3B, 0xDB, 0x0B, 0xAD, 0x00))
         == State(0xE0, 0x92, 0x7F, 0xE8, 0xC8, 0x63, 0x63, 0xC0, 0xD9, 0xB1, 0x35, 0x50, 0x85, 0xB8, 0xBE, 0x01)
  {
    hide SubBytes, Round;
    Bytes4();
    RoundIs(State(0x48, 0x6C, 0x4E, 0xEE, 0x67, 0x1D, 0x9D, 0x0D, 0x4D, 0xE3, 0xB1, 0x38, 0xD6, 0x5F, 0x58, 0xE7),
      State(0x52, 0x50, 0x2F, 0x28, 0x85, 0xA4, 0x5E, 0xD7, 0xE3, 0x11, 0xC8, 0x07, 0xF6, 0xCF, 0x6A, 0x94),
      State(0xEF, 0x44, 0xA5, 0x41, 0xA8, 0x52, 0x5B, 0x7F, 0xB6, 0x71, 0x25, 0x3B, 0xDB, 0x0B, 0xAD, 0x00));
  }

  lemma Bytes5()
    ensures SubBytes(State(0xE0, 0x92, 0x7F, 0xE8, 0xC8, 0x63, 0x63, 0xC0, 0xD9, 0xB1, 0x35, 0x50, 0x85, 0xB8, 0xBE, 0x01))
         == State(0xE1, 0x4F, 0xD2, 0x9B, 0xE8, 0xFB, 0xFB, 0xBA, 0x35, 0xC8, 0x96, 0x53, 0x97, 0x6C, 0xAE, 0x7C)
  {
    hide Sub, SubBytes, State;
    Sbox();
    SubState(0xE0, 0x92, 0x7F, 0xE8, 0xC8, 0x63, 0x63, 0xC0, 0xD9, 0xB1, 0x35, 0x50, 0x85, 0xB8, 0xBE, 0x01,
      0xE1, 0x4F, 0xD2, 0x9B, 0xE8, 0xFB, 0xFB, 0xBA, 0x35, 0xC8, 0x96, 0x53, 0x97, 0x6C, 0xAE, 0x7C);
  }

  lemma Round5()
    ensures Round(State(0xE0, 0x92, 0x7F, 0xE8, 0xC8, 0x63, 0x63, 0xC0, 0xD9, 0xB1, 0x35, 0x50, 0x85, 0xB8, 0xBE, 0x01),
                  State(0xD4, 0xD1, 0xC6, 0xF8, 0x7C, 0x83, 0x9D, 0x87, 0xCA, 0xF2, 0xB8, 0xBC, 0x11, 0xF9, 0x15, 0xBC))
         == State(0xF1, 0x00, 0x6F, 0x55, 0xC1, 0x92, 0x4C, 0xEF, 0x7C, 0xC8, 0x8B, 0x32, 0x5D, 0xB5, 0xD5, 0x0C)
  {
    hide SubBytes, Round;
    Bytes5();
    RoundIs(State(0xE0, 0x92, 0x7F, 0xE8, 0xC8, 0x63, 0x63, 0xC0, 0xD9, 0xB1, 0x35, 0x50, 0x85, 0xB8, 0xBE, 0x01),
      State(0xE1, 0x4F, 0xD2, 0x9B, 0xE8, 0xFB, 0xFB, 0xBA, 0x35, 0xC8, 0x96, 0x53, 0x97, 0x6C, 0xAE, 0x7C),
      State(0xD4, 0xD1, 0xC6, 0xF8, 0x7C, 0x83, 0x9D, 0x87, 0xCA, 0xF2, 0xB8, 0xBC, 0x11, 0xF9, 0x15, 0xBC));
  }

  lemma Bytes6()
    ensures SubBytes(State(0xF1, 0x00, 0x6F, 0x55, 0xC1, 0x92, 0x4C, 0xEF, 0x7C, 0xC8, 0x8B, 0x32, 0x5D, 0xB5, 0xD5, 0x0C))
         == State(0xA1, 0x63, 0xA8, 0xFC, 0x78, 0x4F, 0x29, 0xDF, 0x10, 0xE8, 0x3D, 0x23, 0x4C, 0xD5, 0x03, 0xFE)
  {
    hide Sub, SubBytes, State;
    Sbox();
    SubState(0xF1, 0x00, 0x6F, 0x55, 0xC1, 0x92, 0x4C, 0xEF, 0x7C, 0xC8, 0x8B, 0x32, 0x5D, 0xB5, 0xD5, 0x0C,
      0xA1, 0x63, 0xA8, 0xFC, 0x78, 0x4F, 0x29, 0xDF, 0x10, 0xE8, 0x3D, 0x23, 0x4C, 0xD5, 0x03, 0xFE);
  }

  lemma Round6()
    ensures Round(State(0xF1, 0x00, 0x6F, 0x55, 0xC1, 0x92, 0x4C, 0xEF, 0x7C, 0xC8, 0x8B, 0x32, 0x5D, 0xB5, 0xD5, 0x0C),
                  State(0x6D, 0x88, 0xA3, 0x7A, 0x11, 0x0B, 0x3E, 0xFD, 0xDB, 0xF9, 0x86, 0x41, 0xCA, 0x00, 0x93, 0xFD))
         == State(0x26, 0x0E, 0x2E, 0x17, 0x3D, 0x41, 0xB7, 0x7D, 0xE8, 0x64, 0x72, 0xA9, 0xFD, 0xD2, 0x8B, 0x25)
  {
    hide SubBytes, Round;
    Bytes6();
    RoundIs(State(0xF1, 0x00, 0x6F, 0x55, 0xC1, 0x92, 0x4C, 0xEF, 0x7C, 0xC8, 0x8B, 0x32, 0x5D, 0xB5, 0xD5, 0x0C),
      State(0xA1, 0x63, 0xA8, 0xFC, 0x78, 0x4F, 0x29, 0xDF, 0x10, 0xE8, 0x3D, 0x23, 0x4C, 0xD5, 0x03, 0xFE),
      State(0x6D, 0x88, 0xA3, 0x7A, 0x11, 0x0B, 0x3E, 0xFD, 0xDB, 0xF9, 0x86, 0x41, 0xCA, 0x00, 0x93, 0xFD));
  }

  lemma Bytes7()
    ensures SubBytes(State(0x26, 0x0E, 0x2E, 0x17, 0x3D, 0x41, 0xB7, 0x7D, 0xE8, 0x64, 0x72, 0xA9, 0xFD, 0xD2, 0x8B, 0x25))
         == State(0xF7, 0xAB, 0x31, 0xF0, 0x27, 0x83, 0xA9, 0xFF, 0x9B, 0x43, 0x40, 0xD3, 0x54, 0xB5, 0x3D, 0x3F)
  {
    hide Sub, SubBytes, State;
    Sbox();
    SubState(0x26, 0x0E, 0x2E, 0x17, 0x3D, 0x41, 0xB7, 0x7D, 0xE8, 0x64, 0x72, 0xA9, 0xFD, 0xD2, 0x8B, 0x25,
      0xF7, 0xAB, 0x31, 0xF0, 0x27, 0x83, 0xA9, 0xFF, 0x9B, 0x43, 0x40, 0xD3, 0x54, 0xB5, 0x3D, 0x3F);
  }

  lemma Round7()
    ensures Round(State(0x26, 0x0E, 0x2E, 0x17, 0x3D, 0x41, 0xB7, 0x7D, 0xE8, 0x64, 0x72, 0xA9, 0xFD, 0xD2, 0x8B, 0x25),
                  State(0x4E, 0x54, 0xF7, 0x0E, 0x5F, 0x5F, 0xC9, 0xF3, 0x84, 0xA6, 0x4F, 0xB2, 0x4E, 0xA6, 0xDC, 0x4F))
         == State(0x5A, 0x41, 0x42, 0xB1, 0x19, 0x49, 0xDC, 0x1F, 0xA3, 0xE0, 0x19, 0x65, 0x7A, 0x8C, 0x04, 0x0C)
  {
    hide SubBytes, Round;
    Bytes7();
    RoundIs(State(0x26, 0x0E, 0x2E, 0x17, 0x3D, 0x41, 0xB7, 0x7D, 0xE8, 0x64, 0x72, 0xA9, 0xFD, 0xD2, 0x8B, 0x25),
      State(0xF7, 0xAB, 0x31, 0xF0, 0x27, 0x83, 0xA9, 0xFF, 0x9B, 0x43, 0x40, 0xD3, 0x54, 0xB5, 0x3D, 0x3F),
      State(0x4E, 0x54, 0xF7, 0x0E, 0x5F, 0x5F, 0xC9, 0xF3, 0x84, 0xA6, 0x4F, 0xB2, 0x4E, 0xA6, 0xDC, 0x4F));
  }

  lemma Bytes8()
    ensures SubBytes(State(0x5A, 0x41, 0x42, 0xB1, 0x19, 0x49, 0xDC, 0x1F, 0xA3, 0xE0, 0x19, 0x65, 0x7A, 0x8C, 0x04, 0x0C))
         == State(0xBE, 0x83, 0x2C, 0xC8, 0xD4, 0x3B, 0x86, 0xC0, 0x0A, 0xE1, 0xD4, 0x4D, 0xDA, 0x64, 0xF2, 0xFE)
  {
    hide Sub, SubBytes, State;
    Sbox();
    SubState(0x5A, 0x41, 0x42, 0xB1, 0x19, 0x49, 0xDC, 0x1F, 0xA3, 0xE0, 0x19, 0x65, 0x7A, 0x8C, 0x04, 0x0C,
      0xBE, 0x83, 0x2C, 0xC8, 0xD4, 0x3B, 0x86, 0xC0, 0x0A, 0xE1, 0xD4, 0x4D, 0xDA, 0x64, 0xF2, 0xFE);
  }

  lemma Round8()
    ensures Round(State(0x5A, 0x41, 0x42, 0xB1, 0x19, 0x49, 0xDC, 0x1F, 0xA3, 0xE0, 0x19, 0x65, 0x7A, 0x8C, 0x04, 0x0C),
                  State(0xEA, 0xD2, 0x73, 0x21, 0xB5, 0x8D, 0xBA, 0xD2, 0x31, 0x2B, 0xF5, 0x60, 0x7F, 0x8D, 0x29, 0x2F))
         == State(0xEA, 0x83, 0x5C, 0xF0, 0x04, 0x45, 0x33, 0x2D, 0x65, 0x5D, 0x98, 0xAD, 0x85, 0x96, 0xB0, 0xC5)
  {
    hide SubBytes, Round;
    Bytes8();
    RoundIs(State(0x5A, 0x41, 0x42, 0xB1, 0x19, 0x49, 0xDC, 0x1F, 0xA3, 0xE0, 0x19, 0x65, 0x7A, 0x8C, 0x04, 0x0C),
      State(0xBE, 0x83, 0x2C, 0xC8, 0xD4, 0x3B, 0x86, 0xC0, 0x0A, 0xE1, 0xD4, 0x4D, 0xDA, 0x64, 0xF2, 0xFE),
      State(0xEA, 0xD2, 0x73, 0x21, 0xB5, 0x8D, 0xBA, 0xD2, 0x31, 0x2B, 0xF5, 0x60, 0x7F, 0x8D, 0x29, 0x2F));
  }

  lemma Bytes9()
    ensures SubBytes(State(0xEA, 0x83, 0x5C, 0xF0, 0x04, 0x45, 0x33, 0x2D, 0x65, 0x5D, 0x98, 0xAD, 0x85, 0x96, 0xB0, 0xC5))
         == State(0x87, 0xEC, 0x4A, 0x8C, 0xF2, 0x6E, 0xC3, 0xD8, 0x4D, 0x4C, 0x46, 0x95, 0x97, 0x90, 0xE7, 0xA6)
  {
    hide Sub, SubBytes, State;
    Sbox();
    SubState(0xEA, 0x83, 0x5C, 0xF0, 0x04, 0x45, 0x33, 0x2D, 0x65, 0x5D, 0x98, 0xAD, 0x85, 0x96, 0xB0, 0xC5,
      0x87, 0xEC, 0x4A, 0x8C, 0xF2, 0x6E, 0xC3, 0xD8, 0x4D, 0x4C, 0x46, 0x95, 0x97, 0x90, 0xE7, 0xA6);
  }

  lemma Round9()
    ensures Round(State(0xEA, 0x83, 0x5C, 0xF0, 0x04, 0x45, 0x33, 0x2D, 0x65, 0x5D, 0x98, 0xAD, 0x85, 0x96, 0xB0, 0xC5),
                  State(0xAC, 0x77, 0x66, 0xF3, 0x19, 0xFA, 0xDC, 0x21, 0x28, 0xD1, 0x29, 0x41, 0x57, 0x5C, 0x00, 0x6E))
         == State(0xEB, 0x40, 0xF2, 0x1E, 0x59, 0x2E, 0x38, 0x84, 0x8B, 0xA1, 0x13, 0xE7, 0x1B, 0xC3, 0x42, 0xD2)
  {
    hide SubBytes, Round;
    Bytes9();
    RoundIs(State(0xEA, 0x83, 0x5C, 0xF0, 0x04, 0x45, 0x33, 0x2D, 0x65, 0x5D, 0x98, 0xAD, 0x85, 0x96, 0xB0, 0xC5),
      State(0x87, 0xEC, 0x4A, 0x8C, 0xF2, 0x6E, 0xC3, 0xD8, 0x4D, 0x4C, 0x46, 0x95, 0x97, 0x90, 0xE7, 0xA6),
      State(0xAC, 0x77, 0x66, 0xF3, 0x19, 0xFA, 0xDC, 0x21, 0x28, 0xD1, 0x29, 0x41, 0x57, 0x5C, 0x00, 0x6E));
  }

  lemma Bytes10()
    ensures SubBytes(State(0xEB, 0x40, 0xF2, 0x1E, 0x59, 0x2E, 0x38, 0x84, 0x8B, 0xA1, 0x13, 0xE7, 0x1B, 0xC3, 0x42, 0xD2))
         == State(0xE9, 0x09, 0x89, 0x72, 0xCB, 0x31, 0x07, 0x5F, 0x3D, 0x32, 0x7D, 0x94, 0xAF, 0x2E, 0x2C, 0xB5)
  {
    hide Sub, SubBytes, State;
    Sbox();
    SubState(0xEB, 0x40, 0xF2, 0x1E, 0x59, 0x2E, 0x38, 0x84, 0x8B, 0xA1, 0x13, 0xE7, 0x1B, 0xC3, 0x42, 0xD2,
      0xE9, 0x09, 0x89, 0x72, 0xCB, 0x31, 0x07, 0x5F, 0x3D, 0x32, 0x7D, 0x94, 0xAF, 0x2E, 0x2C, 0xB5);
  }

  lemma Round10()
    ensures FinalRound(State(0xEB, 0x40, 0xF2, 0x1E, 0x59, 0x2E, 0x38, 0x84, 0x8B, 0xA1, 0x13, 0xE7, 0x1B, 0xC3, 0x42, 0xD2),
                  State(0xD0, 0x14, 0xF9, 0xA8, 0xC9, 0xEE, 0x25, 0x89, 0xE1, 0x3F, 0x0C, 0xC8, 0xB6, 0x63, 0x0C, 0xA6))
         == State(0x39, 0x25, 0x84, 0x1D, 0x02, 0xDC, 0x09, 0xFB, 0xDC, 0x11, 0x85, 0x97, 0x19, 0x6A, 0x0B, 0x32)
  {
    hide SubBytes;
    Bytes10();
  }

  /** Appendix B. */
  lemma Cipher128()
    ensures Cipher(KeySchedule(KeyColumns(KEY128, 4)), State(0x32, 0x43, 0xF6, 0xA8, 0x88, 0x5A, 0x30, 0x8D, 0x31, 0x31, 0x98, 0xA2, 0xE0, 0x37, 0x07, 0x34))
         == State(0x39, 0x25, 0x84, 0x1D, 0x02, 0xDC, 0x09, 0xFB, 0xDC, 0x11, 0x85, 0x97, 0x19, 0x6A, 0x0B, 0x32)
  {
    hide KeyColumns, RoundKey, SubBytes, ShiftRows, MixColumns, Round, FinalRound, KeySchedule, State, Rounds;
    var (key, s) := (KeyColumns(KEY128, 4), State(0x19, 0x3D, 0xE3, 0xBE, 0xA0, 0xF4, 0xE2, 0x2B, 0x9A, 0xC6, 0x8D, 0x2A, 0xE9, 0xF8, 0x48, 0x08));
    var w := KeySchedule(key);
    KeyOfRound(key);
    FirstKey();
    Schedule128();
    assert AddRoundKey(State(0x32, 0x43, 0xF6, 0xA8, 0x88, 0x5A, 0x30, 0x8D, 0x31, 0x31, 0x98, 0xA2, 0xE0, 0x37, 0x07, 0x34), w[0]) == s by {
      Whitened();
    }
    RoundsFrom(w, s);
    Round1(); Round2(); Round3(); Round4(); Round5();
    Round6(); Round7(); Round8(); Round9(); Round10();
  }

  lemma Whitened()
    ensures AddRoundKey(State(0x32, 0x43, 0xF6, 0xA8, 0x88, 0x5A, 0x30, 0x8D, 0x31, 0x31, 0x98, 0xA2, 0xE0, 0x37, 0x07, 0x34),
                        State(0x2B, 0x7E, 0x15, 0x16, 0x28, 0xAE, 0xD2, 0xA6, 0xAB, 0xF7, 0x15, 0x88, 0x09, 0xCF, 0x4F, 0x3C))
         == State(0x19, 0x3D, 0xE3, 0xBE, 0xA0, 0xF4, 0xE2, 0x2B, 0x9A, 0xC6, 0x8D, 0x2A, 0xE9, 0xF8, 0x48, 0x08)
  {
  }

  const PLAIN: seq<bv8> := [0x32, 0x43, 0xF6, 0xA8, 0x88, 0x5A, 0x30, 0x8D, 0x31, 0x31, 0x98, 0xA2, 0xE0, 0x37, 0x07, 0x34]

  const ENCRYPTED: seq<bv8> := [0x39, 0x25, 0x84, 0x1D, 0x02, 0xDC, 0x09, 0xFB, 0xDC, 0x11, 0x85, 0x97, 0x19, 0x6A, 0x0B, 0x32]

  lemma InBytes()
    ensures BlockOf(PLAIN) == State(0x32, 0x43, 0xF6, 0xA8, 0x88, 0x5A, 0x30, 0x8D, 0x31, 0x31, 0x98, 0xA2, 0xE0, 0x37, 0x07, 0x34)
    ensures BlockBytes(State(0x39, 0x25, 0x84, 0x1D, 0x02, 0xDC, 0x09, 0xFB, 0xDC, 0x11, 0x85, 0x97, 0x19, 0x6A, 0x0B, 0x32)) == ENCRYPTED
  {
  }

  /** Setting the key of the examples leaves its schedule in the context, and encrypting the
      example block gives the printed one. */
  method EncryptExample(t: Tables, ctx: Context, b: array<bv8>, block: array<bv8>)
    requires t.Valid() && Separate(t, ctx) && b != block && b[..] == KEY128 && block[..] == PLAIN
    modifies t`doInit, t`ktInit, t.FSb, t.RSb, t.RCON, t.FT, t.RT, t.KT, ctx`nr, ctx.erk, ctx.drk, block
    ensures block[..] == ENCRYPTED
    ensures ctx.nr == 10 && ctx.erk.Length > 43 && ctx.erk[4] == 0xA0FAFE17 && ctx.erk[43] == 0xB6630CA6
  {
    hide Sub, InvSub, ByteOf, RconByte, KeyColumns, TableWord, BlockOf, BlockBytes,
         Cipher, EqInvCipher, KeySchedule, DecryptionSchedule, RoundKey, DecryptionKey, State;
    var r := SetKey(t, ctx, b, 128);
    Encrypt(t, ctx, block, block, KeyColumns(KEY128, 4));
    InBytes();
    Cipher128();
    Schedule128();
    PackedExamples();
  }

  lemma PackedExamples()
    ensures State(0xA0, 0xFA, 0xFE, 0x17, 0x88, 0x54, 0x2C, 0xB1, 0x23, 0xA3, 0x39, 0x39, 0x2A, 0x6C, 0x76, 0x05).c0
         == Column(0xA0, 0xFA, 0xFE, 0x17) && Pack(Column(0xA0, 0xFA, 0xFE, 0x17)) == 0xA0FAFE17
    ensures State(0xD0, 0x14, 0xF9, 0xA8, 0xC9, 0xEE, 0x25, 0x89, 0xE1, 0x3F, 0x0C, 0xC8, 0xB6, 0x63, 0x0C, 0xA6).c3
         == Column(0xB6, 0x63, 0x0C, 0xA6) && Pack(Column(0xB6, 0x63, 0x0C, 0xA6)) == 0xB6630CA6
  {
  }

  // ----- the longer keys

  lemma KeyWord(key: seq<Column>, i: nat)
    requires i < |key|
    ensures ExpandedWord(key, i) == key[i]
  {
  }

  const KEY192: seq<Column> :=
    [Column(0x8E, 0x73, 0xB0, 0xF7), Column(0xDA, 0x0E, 0x64, 0x52), Column(0xC8, 0x10, 0xF3, 0x2B), Column(0x80, 0x90, 0x79, 0xE5),
     Column(0x62, 0xF8, 0xEA, 0xD2), Column(0x52, 0x2C, 0x6B, 0x7B)]

  lemma Substituted192()
    ensures SubColumn(Column(0x2C, 0x6B, 0x7B, 0x52)) == Column(0x71, 0x7F, 0x21, 0x00)
  {
    hide Sub, SubColumn;
    Sbox();
    SubWord(0x2C, 0x6B, 0x7B, 0x52, 0x71, 0x7F, 0x21, 0x00);
  }

  /** Appendix A.2: the words after those of the key, and the number of round keys. */
  lemma Schedule192()
    ensures |KeySchedule(KEY192)| == 13
    ensures ExpandedWord(KEY192, 6) == Column(0xFE, 0x0C, 0x91, 0xF7)
    ensures ExpandedWord(KEY192, 7) == Column(0x24, 0x02, 0xF5, 0xA5)
    ensures ExpandedWord(KEY192, 8) == Column(0xEC, 0x12, 0x06, 0x8E)
    ensures ExpandedWord(KEY192, 9) == Column(0x6C, 0x82, 0x7F, 0x6B)
    ensures ExpandedWord(KEY192, 10) == Column(0x0E, 0x7A, 0x95, 0xB9)
    ensures ExpandedWord(KEY192, 11) == Column(0x5C, 0x56, 0xFE, 0xC2)
  {
    hide ExpandedWord, Sub, RconByte, SubColumn;
    KeyWord(KEY192, 0);
    KeyWord(KEY192, 1);
    KeyWord(KEY192, 2);
    KeyWord(KEY192, 3);
    KeyWord(KEY192, 4);
    KeyWord(KEY192, 5);
    Substituted192();
    RoundConstants();
    FirstWordOf(KEY192, 6);
    PlainWordOf(KEY192, 7);
    PlainWordOf(KEY192, 8);
    PlainWordOf(KEY192, 9);
    PlainWordOf(KEY192, 10);
    PlainWordOf(KEY192, 11);
  }

  const KEY256: seq<Column> :=
    [Column(0x60, 0x3D, 0xEB, 0x10), Column(0x15, 0xCA, 0x71, 0xBE), Column(0x2B, 0x73, 0xAE, 0xF0), Column(0x85, 0x7D, 0x77, 0x81),
     Column(0x1F, 0x35, 0x2C, 0x07), Column(0x3B, 0x61, 0x08, 0xD7), Column(0x2D, 0x98, 0x10, 0xA3), Column(0x09, 0x14, 0xDF, 0xF4)]

  lemma Substituted256()
    ensures SubColumn(Column(0x14, 0xDF, 0xF4, 0x09)) == Column(0xFA, 0x9E, 0xBF, 0x01)
    ensures SubColumn(Column(0x20, 0x67, 0xFC, 0xDE)) == Column(0xB7, 0x85, 0xB0, 0x1D)
  {
    hide Sub, SubColumn;
    Sbox();
    SubWord(0x14, 0xDF, 0xF4, 0x09, 0xFA, 0x9E, 0xBF, 0x01);
    SubWord(0x20, 0x67, 0xFC, 0xDE, 0xB7, 0x85, 0xB0, 0x1D);
  }

  /** Appendix A.3: the words after those of the key, and the number of round keys. */
  lemma Schedule256()
    ensures |KeySchedule(KEY256)| == 15
    ensures ExpandedWord(KEY256, 8) == Column(0x9B, 0xA3, 0x54, 0x11)
    ensures ExpandedWord(KEY256, 9) == Column(0x8E, 0x69, 0x25, 0xAF)
    ensures ExpandedWord(KEY256, 10) == Column(0xA5, 0x1A, 0x8B, 0x5F)
    ensures ExpandedWord(KEY256, 11) == Column(0x20, 0x67, 0xFC, 0xDE)
    ensures ExpandedWord(KEY256, 12) == Column(0xA8, 0xB0, 0x9C, 0x1A)
    ensures ExpandedWord(KEY256, 13) == Column(0x93, 0xD1, 0x94, 0xCD)
    ensures ExpandedWord(KEY256, 14) == Column(0xBE, 0x49, 0x84, 0x6E)
    ensures ExpandedWord(KEY256, 15) == Column(0xB7, 0x5D, 0x5B, 0x9A)
  {
    hide ExpandedWord, Sub, RconByte, SubColumn;
    KeyWord(KEY256, 0);
    KeyWord(KEY256, 1);
    KeyWord(KEY256, 2);
    KeyWord(KEY256, 3);
    KeyWord(KEY256, 4);
    KeyWord(KEY256, 5);
    KeyWord(KEY256, 6);
    KeyWord(KEY256, 7);
    Substituted256();
    RoundConstants();
    FirstWordOf(KEY256, 8);
    PlainWordOf(KEY256, 9);
    PlainWordOf(KEY256, 10);
    PlainWordOf(KEY256, 11);
    MiddleWordOf(KEY256, 12);
    PlainWordOf(KEY256, 13);
    PlainWordOf(KEY256, 14);
    PlainWordOf(KEY256, 15);
  }
}
