/** The worked examples of FIPS 197: key expansions of all three sizes and the cipher round by round. */
module AesExamples {
  import opened AesField
  import opened AesSbox
  import opened AesSpec

  /** The bytes of a word as the standard writes them, first byte first. */
  function Word(w: bv32): Column {
    Column(((w >> 24) & 0xff) as bv8, ((w >> 16) & 0xff) as bv8, ((w >> 8) & 0xff) as bv8, (w & 0xff) as bv8)
  }

  function Block(w0: bv32, w1: bv32, w2: bv32, w3: bv32): State { State(Word(w0), Word(w1), Word(w2), Word(w3)) }

  /** MixColumns with doublings. */
  function Mixed(c: Column): Column {
    Column(Add(Add(Add(Xtime(c.b0), Add(c.b1, Xtime(c.b1))), c.b2), c.b3),
           Add(Add(Add(c.b0, Xtime(c.b1)), Add(c.b2, Xtime(c.b2))), c.b3),
           Add(Add(Add(c.b0, c.b1), Xtime(c.b2)), Add(c.b3, Xtime(c.b3))),
           Add(Add(Add(Add(c.b0, Xtime(c.b0)), c.b1), c.b2), Xtime(c.b3)))
  }

  lemma MixColumnIsMixed(c: Column)
    ensures MixColumn(c) == Mixed(c)
  {
    SmallProducts(c.b0);
    SmallProducts(c.b1);
    SmallProducts(c.b2);
    SmallProducts(c.b3);
    hide Xtime, Mul, Add;
  }

  /** SubBytes on a word. */
  predicate Becomes(w: bv32, v: bv32) { SubColumn(Word(w)) == Word(v) }

  /** The keys of Appendix A. */
  function Key128(): (key: seq<bv8>)
    ensures |key| == 16 && IsKeySize(|key|)
  {
    [0x2b, 0x7e, 0x15, 0x16, 0x28, 0xae, 0xd2, 0xa6, 0xab, 0xf7, 0x15, 0x88, 0x09, 0xcf, 0x4f, 0x3c]
  }

  function Key192(): (key: seq<bv8>)
    ensures |key| == 24 && IsKeySize(|key|)
  {
    [0x8e, 0x73, 0xb0, 0xf7, 0xda, 0x0e, 0x64, 0x52, 0xc8, 0x10, 0xf3, 0x2b, 0x80, 0x90, 0x79, 0xe5,
     0x62, 0xf8, 0xea, 0xd2, 0x52, 0x2c, 0x6b, 0x7b]
  }

  function Key256(): (key: seq<bv8>)
    ensures |key| == 32 && IsKeySize(|key|)
  {
    LowKey256() + HighKey256()
  }

  function LowKey256(): (key: seq<bv8>)
    ensures |key| == 16
  {
    [0x60, 0x3d, 0xeb, 0x10, 0x15, 0xca, 0x71, 0xbe, 0x2b, 0x73, 0xae, 0xf0, 0x85, 0x7d, 0x77, 0x81]
  }

  function HighKey256(): (key: seq<bv8>)
    ensures |key| == 16
  {
    [0x1f, 0x35, 0x2c, 0x07, 0x3b, 0x61, 0x08, 0xd7, 0x2d, 0x98, 0x10, 0xa3, 0x09, 0x14, 0xdf, 0xf4]
  }

  /** The round key after k under a 16-byte key. */
  function NextRoundKey(k: State, rc: bv8): State {
    var s := SubColumn(Column(k.c3.b1, k.c3.b2, k.c3.b3, k.c3.b0));
    var c0 := Column(Add(k.c0.b0, Add(s.b0, rc)), Add(k.c0.b1, s.b1), Add(k.c0.b2, s.b2), Add(k.c0.b3, s.b3));
    var c1 := AddColumn(k.c1, c0);
    var c2 := AddColumn(k.c2, c1);
    State(c0, c1, c2, AddColumn(k.c3, c2))
  }

  lemma RoundKeyFollows(key: seq<bv8>, r: nat)
    requires |key| == 16
    ensures RoundKey(key, r + 1) == NextRoundKey(RoundKey(key, r), RoundConstant(r + 1))
  {
    hide Sbox, RoundConstant, KeyWord, Add;
    KeyWordBytes(key, 4 * r + 4);
    KeyWordBytes(key, 4 * r + 5);
    KeyWordBytes(key, 4 * r + 6);
    KeyWordBytes(key, 4 * r + 7);
  }

  // ----- SubBytes on the words of the examples -----

  lemma Sub00() ensures Becomes(0xcf4f3c09, 0x8a84eb01) {}
  lemma Sub01() ensures Becomes(0x6c76052a, 0x50386be5) {}
  lemma Sub02() ensures Becomes(0x59f67f73, 0xcb42d28f) {}
  lemma Sub03() ensures Becomes(0x7a883b6d, 0xdac4e23c) {}
  lemma Sub04() ensures Becomes(0x0bad00db, 0x2b9563b9) {}
  lemma Sub05() ensures Becomes(0xf915bc11, 0x99596582) {}
  lemma Sub06() ensures Becomes(0x0093fdca, 0x63dc5474) {}
  lemma Sub07() ensures Becomes(0xa6dc4f4e, 0x2486842f) {}
  lemma Sub08() ensures Becomes(0x8d292f7f, 0x5da515d2) {}
  lemma Sub09() ensures Becomes(0x5c006e57, 0x4a639f5b) {}
  lemma Sub10() ensures Becomes(0x2c6b7b52, 0x717f2100) {}
  lemma Sub11() ensures Becomes(0x14dff409, 0xfa9ebf01) {}
  lemma Sub12() ensures Becomes(0x2067fcde, 0xb785b01d) {}
  lemma Sub13() ensures Becomes(0x193de3be, 0xd42711ae) {}
  lemma Sub14() ensures Becomes(0xa0f4e22b, 0xe0bf98f1) {}
  lemma Sub15() ensures Becomes(0x9ac68d2a, 0xb8b45de5) {}
  lemma Sub16() ensures Becomes(0xe9f84808, 0x1e415230) {}
  lemma Sub17() ensures Becomes(0xa49c7ff2, 0x49ded289) {}
  lemma Sub18() ensures Becomes(0x689f352b, 0x45db96f1) {}
  lemma Sub19() ensures Becomes(0x6b5bea43, 0x7f39871a) {}
  lemma Sub20() ensures Becomes(0x026a5049, 0x7702533b) {}
  lemma Sub21() ensures Becomes(0xaa8f5f03, 0xac73cf7b) {}
  lemma Sub22() ensures Becomes(0x61dde3ef, 0xefc111df) {}
  lemma Sub23() ensures Becomes(0x82d24ad2, 0x13b5d6b5) {}
  lemma Sub24() ensures Becomes(0x6832469a, 0x45235ab8) {}
  lemma Sub25() ensures Becomes(0x486c4eee, 0x52502f28) {}
  lemma Sub26() ensures Becomes(0x671d9d0d, 0x85a45ed7) {}
  lemma Sub27() ensures Becomes(0x4de3b138, 0xe311c807) {}
  lemma Sub28() ensures Becomes(0xd65f58e7, 0xf6cf6a94) {}
  lemma Sub29() ensures Becomes(0xe0927fe8, 0xe14fd29b) {}
  lemma Sub30() ensures Becomes(0xc86363c0, 0xe8fbfbba) {}
  lemma Sub31() ensures Becomes(0xd9b13550, 0x35c89653) {}
  lemma Sub32() ensures Becomes(0x85b8be01, 0x976cae7c) {}
  lemma Sub33() ensures Becomes(0xf1006f55, 0xa163a8fc) {}
  lemma Sub34() ensures Becomes(0xc1924cef, 0x784f29df) {}
  lemma Sub35() ensures Becomes(0x7cc88b32, 0x10e83d23) {}
  lemma Sub36() ensures Becomes(0x5db5d50c, 0x4cd503fe) {}
  lemma Sub37() ensures Becomes(0x260e2e17, 0xf7ab31f0) {}
  lemma Sub38() ensures Becomes(0x3d41b77d, 0x2783a9ff) {}
  lemma Sub39() ensures Becomes(0xe86472a9, 0x9b4340d3) {}
  lemma Sub40() ensures Becomes(0xfdd28b25, 0x54b53d3f) {}
  lemma Sub41() ensures Becomes(0x5a4142b1, 0xbe832cc8) {}
  lemma Sub42() ensures Becomes(0x1949dc1f, 0xd43b86c0) {}
  lemma Sub43() ensures Becomes(0xa3e01965, 0x0ae1d44d) {}
  lemma Sub44() ensures Becomes(0x7a8c040c, 0xda64f2fe) {}
  lemma Sub45() ensures Becomes(0xea835cf0, 0x87ec4a8c) {}
  lemma Sub46() ensures Becomes(0x0445332d, 0xf26ec3d8) {}
  lemma Sub47() ensures Becomes(0x655d98ad, 0x4d4c4695) {}
  lemma Sub48() ensures Becomes(0x8596b0c5, 0x9790e7a6) {}
  lemma Sub49() ensures Becomes(0xeb40f21e, 0xe9098972) {}
  lemma Sub50() ensures Becomes(0x592e3884, 0xcb31075f) {}
  lemma Sub51() ensures Becomes(0x8ba113e7, 0x3d327d94) {}
  lemma Sub52() ensures Becomes(0x1bc342d2, 0xaf2e2cb5) {}

  lemma RoundUnfolds(k: nat)
    requires 0 < k <= 9
    ensures var ks, before := ExpandedKey(Key128()), Rounds(ExpandedKey(Key128()), Input128(), k - 1);
            Rounds(ks, Input128(), k) == AddState(MixColumns(ShiftRows(SubBytes(before))), RoundKey(Key128(), k))
  {
    hide AddState, MixColumns, ShiftRows, SubBytes, RoundKey;
  }

  // ----- the examples -----

  lemma Mixes(s: State)
    ensures var t := ShiftRows(SubBytes(s)); MixColumns(t) == State(Mixed(t.c0), Mixed(t.c1), Mixed(t.c2), Mixed(t.c3))
  {
    hide SubBytes, ShiftRows, Mixed, MixColumn;
    var t := ShiftRows(SubBytes(s));
    MixColumnIsMixed(t.c0);
    MixColumnIsMixed(t.c1);
    MixColumnIsMixed(t.c2);
    MixColumnIsMixed(t.c3);
  }

  lemma Expanded0()
    ensures RoundKey(Key128(), 0) == Block(0x2b7e1516, 0x28aed2a6, 0xabf71588, 0x09cf4f3c)
  {
    FirstWords(Key128(), 0);
    FirstWords(Key128(), 1);
    FirstWords(Key128(), 2);
    FirstWords(Key128(), 3);
  }

  lemma Expanded1()
    ensures RoundKey(Key128(), 1) == Block(0xa0fafe17, 0x88542cb1, 0x23a33939, 0x2a6c7605)
  {
    hide RoundKey, RoundConstant, Sbox, KeyWord, Key128;
    Expanded0();
    RoundKeyFollows(Key128(), 0);
    RoundConstants();
    Sub00();
  }

  lemma Expanded2()
    ensures RoundKey(Key128(), 2) == Block(0xf2c295f2, 0x7a96b943, 0x5935807a, 0x7359f67f)
  {
    hide RoundKey, RoundConstant, Sbox, KeyWord, Key128;
    Expanded1();
    RoundKeyFollows(Key128(), 1);
    RoundConstants();
    Sub01();
  }

  lemma Expanded3()
    ensures RoundKey(Key128(), 3) == Block(0x3d80477d, 0x4716fe3e, 0x1e237e44, 0x6d7a883b)
  {
    hide RoundKey, RoundConstant, Sbox, KeyWord, Key128;
    Expanded2();
    RoundKeyFollows(Key128(), 2);
    RoundConstants();
    Sub02();
  }

  lemma Expanded4()
    ensures RoundKey(Key128(), 4) == Block(0xef44a541, 0xa8525b7f, 0xb671253b, 0xdb0bad00)
  {
    hide RoundKey, RoundConstant, Sbox, KeyWord, Key128;
    Expanded3();
    RoundKeyFollows(Key128(), 3);
    RoundConstants();
    Sub03();
  }

  lemma Expanded5()
    ensures RoundKey(Key128(), 5) == Block(0xd4d1c6f8, 0x7c839d87, 0xcaf2b8bc, 0x11f915bc)
  {
    hide RoundKey, RoundConstant, Sbox, KeyWord, Key128;
    Expanded4();
    RoundKeyFollows(Key128(), 4);
    RoundConstants();
    Sub04();
  }

  lemma Expanded6()
    ensures RoundKey(Key128(), 6) == Block(0x6d88a37a, 0x110b3efd, 0xdbf98641, 0xca0093fd)
  {
    hide RoundKey, RoundConstant, Sbox, KeyWord, Key128;
    Expanded5();
    RoundKeyFollows(Key128(), 5);
    RoundConstants();
    Sub05();
  }

  lemma Expanded7()
    ensures RoundKey(Key128(), 7) == Block(0x4e54f70e, 0x5f5fc9f3, 0x84a64fb2, 0x4ea6dc4f)
  {
    hide RoundKey, RoundConstant, Sbox, KeyWord, Key128;
    Expanded6();
    RoundKeyFollows(Key128(), 6);
    RoundConstants();
    Sub06();
  }

  lemma Expanded8()
    ensures RoundKey(Key128(), 8) == Block(0xead27321, 0xb58dbad2, 0x312bf560, 0x7f8d292f)
  {
    hide RoundKey, RoundConstant, Sbox, KeyWord, Key128;
    Expanded7();
    RoundKeyFollows(Key128(), 7);
    RoundConstants();
    Sub07();
  }

  lemma Expanded9()
    ensures RoundKey(Key128(), 9) == Block(0xac7766f3, 0x19fadc21, 0x28d12941, 0x575c006e)
  {
    hide RoundKey, RoundConstant, Sbox, KeyWord, Key128;
    Expanded8();
    RoundKeyFollows(Key128(), 8);
    RoundConstants();
    Sub08();
  }

  lemma Expanded10()
    ensures RoundKey(Key128(), 10) == Block(0xd014f9a8, 0xc9ee2589, 0xe13f0cc8, 0xb6630ca6)
  {
    hide RoundKey, RoundConstant, Sbox, KeyWord, Key128;
    Expanded9();
    RoundKeyFollows(Key128(), 9);
    RoundConstants();
    Sub09();
  }

  lemma First192()
    ensures KeyWord(Key192(), 0) == Column(0x8e, 0x73, 0xb0, 0xf7)
    ensures KeyWord(Key192(), 1) == Column(0xda, 0x0e, 0x64, 0x52)
    ensures KeyWord(Key192(), 2) == Column(0xc8, 0x10, 0xf3, 0x2b)
    ensures KeyWord(Key192(), 3) == Column(0x80, 0x90, 0x79, 0xe5)
    ensures KeyWord(Key192(), 4) == Column(0x62, 0xf8, 0xea, 0xd2)
    ensures KeyWord(Key192(), 5) == Column(0x52, 0x2c, 0x6b, 0x7b)
  {
    hide KeyWord;
    FirstWords(Key192(), 0);
    FirstWords(Key192(), 1);
    FirstWords(Key192(), 2);
    FirstWords(Key192(), 3);
    FirstWords(Key192(), 4);
    FirstWords(Key192(), 5);
  }

  /** Appendix A.2: the first words after a 24-byte key. */
  lemma Example192()
    ensures KeyWord(Key192(), 6) == Word(0xfe0c91f7)
    ensures KeyWord(Key192(), 7) == Word(0x2402f5a5)
    ensures KeyWord(Key192(), 8) == Word(0xec12068e)
    ensures KeyWord(Key192(), 9) == Word(0x6c827f6b)
    ensures KeyWord(Key192(), 10) == Word(0x0e7a95b9)
    ensures KeyWord(Key192(), 11) == Word(0x5c56fec2)
  {
    hide KeyWord, RoundConstant, Sbox, Key192;
    First192();
    KeyWordBytes(Key192(), 6);
    KeyWordBytes(Key192(), 7);
    KeyWordBytes(Key192(), 8);
    KeyWordBytes(Key192(), 9);
    KeyWordBytes(Key192(), 10);
    KeyWordBytes(Key192(), 11);
    RoundConstants();
    Sub10();
  }

  lemma First256()
    ensures KeyWord(Key256(), 0) == Column(0x60, 0x3d, 0xeb, 0x10)
    ensures KeyWord(Key256(), 1) == Column(0x15, 0xca, 0x71, 0xbe)
    ensures KeyWord(Key256(), 2) == Column(0x2b, 0x73, 0xae, 0xf0)
    ensures KeyWord(Key256(), 3) == Column(0x85, 0x7d, 0x77, 0x81)
  {
    hide KeyWord, HighKey256;
    FirstWords(Key256(), 0);
    FirstWords(Key256(), 1);
    FirstWords(Key256(), 2);
    FirstWords(Key256(), 3);
  }

  lemma Second256()
    ensures KeyWord(Key256(), 4) == Column(0x1f, 0x35, 0x2c, 0x07)
    ensures KeyWord(Key256(), 5) == Column(0x3b, 0x61, 0x08, 0xd7)
    ensures KeyWord(Key256(), 6) == Column(0x2d, 0x98, 0x10, 0xa3)
    ensures KeyWord(Key256(), 7) == Column(0x09, 0x14, 0xdf, 0xf4)
  {
    hide KeyWord, LowKey256;
    FirstWords(Key256(), 4);
    FirstWords(Key256(), 5);
    FirstWords(Key256(), 6);
    FirstWords(Key256(), 7);
  }

  /** Appendix A.3: the first words after a 32-byte key. */
  lemma Example256()
    ensures KeyWord(Key256(), 8) == Word(0x9ba35411)
    ensures KeyWord(Key256(), 9) == Word(0x8e6925af)
    ensures KeyWord(Key256(), 10) == Word(0xa51a8b5f)
    ensures KeyWord(Key256(), 11) == Word(0x2067fcde)
    ensures KeyWord(Key256(), 12) == Word(0xa8b09c1a)
    ensures KeyWord(Key256(), 13) == Word(0x93d194cd)
    ensures KeyWord(Key256(), 14) == Word(0xbe49846e)
    ensures KeyWord(Key256(), 15) == Word(0xb75d5b9a)
  {
    hide KeyWord, RoundConstant, Sbox, Key256;
    First256();
    Second256();
    KeyWordBytes(Key256(), 8);
    KeyWordBytes(Key256(), 9);
    KeyWordBytes(Key256(), 10);
    KeyWordBytes(Key256(), 11);
    KeyWordBytes(Key256(), 12);
    KeyWordBytes(Key256(), 13);
    KeyWordBytes(Key256(), 14);
    KeyWordBytes(Key256(), 15);
    RoundConstants();
    Sub11();
    Sub12();
  }

  function Input128(): State { Block(0x3243f6a8, 0x885a308d, 0x313198a2, 0xe0370734) }

  lemma Round0()
    ensures Rounds(ExpandedKey(Key128()), Input128(), 0) == Block(0x193de3be, 0xa0f4e22b, 0x9ac68d2a, 0xe9f84808)
  {
    Expanded0();
    hide RoundKey;
  }

  lemma Round1()
    ensures Rounds(ExpandedKey(Key128()), Input128(), 1) == Block(0xa49c7ff2, 0x689f352b, 0x6b5bea43, 0x026a5049)
  {
    hide Sbox, RoundKey, MixColumn, Key128, Rounds, ExpandedKey, KeyWord;
    Round0();
    Expanded1();
    Sub13(); Sub14(); Sub15(); Sub16();
    Mixes(Rounds(ExpandedKey(Key128()), Input128(), 0));
    RoundUnfolds(1);
  }

  lemma Round2()
    ensures Rounds(ExpandedKey(Key128()), Input128(), 2) == Block(0xaa8f5f03, 0x61dde3ef, 0x82d24ad2, 0x6832469a)
  {
    hide Sbox, RoundKey, MixColumn, Key128, Rounds, ExpandedKey, KeyWord;
    Round1();
    Expanded2();
    Sub17(); Sub18(); Sub19(); Sub20();
    Mixes(Rounds(ExpandedKey(Key128()), Input128(), 1));
    RoundUnfolds(2);
  }

  lemma Round3()
    ensures Rounds(ExpandedKey(Key128()), Input128(), 3) == Block(0x486c4eee, 0x671d9d0d, 0x4de3b138, 0xd65f58e7)
  {
    hide Sbox, RoundKey, MixColumn, Key128, Rounds, ExpandedKey, KeyWord;
    Round2();
    Expanded3();
    Sub21(); Sub22(); Sub23(); Sub24();
    Mixes(Rounds(ExpandedKey(Key128()), Input128(), 2));
    RoundUnfolds(3);
  }

  lemma Round4()
    ensures Rounds(ExpandedKey(Key128()), Input128(), 4) == Block(0xe0927fe8, 0xc86363c0, 0xd9b13550, 0x85b8be01)
  {
    hide Sbox, RoundKey, MixColumn, Key128, Rounds, ExpandedKey, KeyWord;
    Round3();
    Expanded4();
    Sub25(); Sub26(); Sub27(); Sub28();
    Mixes(Rounds(ExpandedKey(Key128()), Input128(), 3));
    RoundUnfolds(4);
  }

  lemma Round5()
    ensures Rounds(ExpandedKey(Key128()), Input128(), 5) == Block(0xf1006f55, 0xc1924cef, 0x7cc88b32, 0x5db5d50c)
  {
    hide Sbox, RoundKey, MixColumn, Key128, Rounds, ExpandedKey, KeyWord;
    Round4();
    Expanded5();
    Sub29(); Sub30(); Sub31(); Sub32();
    Mixes(Rounds(ExpandedKey(Key128()), Input128(), 4));
    RoundUnfolds(5);
  }

  lemma Round6()
    ensures Rounds(ExpandedKey(Key128()), Input128(), 6) == Block(0x260e2e17, 0x3d41b77d, 0xe86472a9, 0xfdd28b25)
  {
    hide Sbox, RoundKey, MixColumn, Key128, Rounds, ExpandedKey, KeyWord;
    Round5();
    Expanded6();
    Sub33(); Sub34(); Sub35(); Sub36();
    Mixes(Rounds(ExpandedKey(Key128()), Input128(), 5));
    RoundUnfolds(6);
  }

  lemma Round7()
    ensures Rounds(ExpandedKey(Key128()), Input128(), 7) == Block(0x5a4142b1, 0x1949dc1f, 0xa3e01965, 0x7a8c040c)
  {
    hide Sbox, RoundKey, MixColumn, Key128, Rounds, ExpandedKey, KeyWord;
    Round6();
    Expanded7();
    Sub37(); Sub38(); Sub39(); Sub40();
    Mixes(Rounds(ExpandedKey(Key128()), Input128(), 6));
    RoundUnfolds(7);
  }

  lemma Round8()
    ensures Rounds(ExpandedKey(Key128()), Input128(), 8) == Block(0xea835cf0, 0x0445332d, 0x655d98ad, 0x8596b0c5)
  {
    hide Sbox, RoundKey, MixColumn, Key128, Rounds, ExpandedKey, KeyWord;
    Round7();
    Expanded8();
    Sub41(); Sub42(); Sub43(); Sub44();
    Mixes(Rounds(ExpandedKey(Key128()), Input128(), 7));
    RoundUnfolds(8);
  }

  lemma Round9()
    ensures Rounds(ExpandedKey(Key128()), Input128(), 9) == Block(0xeb40f21e, 0x592e3884, 0x8ba113e7, 0x1bc342d2)
  {
    hide Sbox, RoundKey, MixColumn, Key128, Rounds, ExpandedKey, KeyWord;
    Round8();
    Expanded9();
    Sub45(); Sub46(); Sub47(); Sub48();
    Mixes(Rounds(ExpandedKey(Key128()), Input128(), 8));
    RoundUnfolds(9);
  }

  /** Appendix B: the cipher on the block 3243f6a8 885a308d 313198a2 e0370734. */
  lemma CipherExample()
    ensures Cipher(ExpandedKey(Key128()), Input128()) == Block(0x3925841d, 0x02dc09fb, 0xdc118597, 0x196a0b32)
  {
    hide Sbox, RoundKey, Rounds, Key128, KeyWord;
    Round9();
    Expanded10();
    Sub49(); Sub50(); Sub51(); Sub52();
  }

}
