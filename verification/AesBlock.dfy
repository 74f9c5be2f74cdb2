/** Key setup and the block functions of Aes.c. */
module AesBlock {
  import opened AesField
  import opened AesSbox
  import opened AesSpec
  import opened AesTables

  // ----- words as states -----

  /** The block held by four words starting at index p. */
  function StateAt(w: seq<bv32>, p: nat): State
    requires p + 4 <= |w|
  {
    State(ColumnOf(w[p]), ColumnOf(w[p + 1]), ColumnOf(w[p + 2]), ColumnOf(w[p + 3]))
  }

  /** The round keys held by an expanded key of nr + 1 rounds. */
  function KeysOf(w: seq<bv32>, nr: nat): (ks: KeySchedule)
    requires nr > 0 && 4 * (nr + 1) <= |w|
    ensures |ks| == nr + 1
  {
    seq(nr + 1, r requires 0 <= r <= nr => StateAt(w, 4 * r))
  }

  // ----- table rounds -----

  /** Four table words and a round key, as HT4 and HD4 combine them. */
  function Xor5(a: bv32, b: bv32, c: bv32, d: bv32, k: bv32): bv32 {
    Xor(Xor(Xor(Xor(a, b), c), d), k)
  }

  lemma ColumnOfXor5(a: bv32, b: bv32, c: bv32, d: bv32, k: bv32)
    ensures ColumnOf(Xor5(a, b, c, d, k))
         == AddColumn(AddColumn(AddColumn(AddColumn(ColumnOf(a), ColumnOf(b)), ColumnOf(c)), ColumnOf(d)), ColumnOf(k))
  {
    ColumnOfXor(a, b);
    ColumnOfXor(Xor(a, b), c);
    ColumnOfXor(Xor(Xor(a, b), c), d);
    ColumnOfXor(Xor(Xor(Xor(a, b), c), d), k);
  }

  /** Summing the terms of four bytes multiplies the column they form by the matrix. */
  lemma MixTermsSum(c: Column)
    ensures AddColumn(AddColumn(AddColumn(MixTerm(0, c.b0), MixTerm(1, c.b1)), MixTerm(2, c.b2)), MixTerm(3, c.b3))
         == MixColumn(c)
  {
    hide Mul, Add;
  }

  lemma InvMixTermsSum(c: Column)
    ensures AddColumn(AddColumn(AddColumn(InvMixTerm(0, c.b0), InvMixTerm(1, c.b1)), InvMixTerm(2, c.b2)), InvMixTerm(3, c.b3))
         == InvMixColumn(c)
  {
    hide Mul, Add;
  }

  lemma ColumnOfWord(c: Column)
    ensures ColumnOf(WordOf(c)) == c
  {
    ColumnOfUi32(c.b0, c.b1, c.b2, c.b3);
  }

  lemma MixWordsSum(c: Column, k: bv32)
    ensures ColumnOf(Xor5(MixWord(0, c.b0), MixWord(1, c.b1), MixWord(2, c.b2), MixWord(3, c.b3), k))
         == AddColumn(MixColumn(c), ColumnOf(k))
  {
    ColumnOfXor5(MixWord(0, c.b0), MixWord(1, c.b1), MixWord(2, c.b2), MixWord(3, c.b3), k);
    ColumnOfWord(MixTerm(0, c.b0));
    ColumnOfWord(MixTerm(1, c.b1));
    ColumnOfWord(MixTerm(2, c.b2));
    ColumnOfWord(MixTerm(3, c.b3));
    MixTermsSum(c);
  }

  lemma InvMixWordsSum(c: Column, k: bv32)
    ensures ColumnOf(Xor5(InvMixWord(0, c.b0), InvMixWord(1, c.b1), InvMixWord(2, c.b2), InvMixWord(3, c.b3), k))
         == AddColumn(InvMixColumn(c), ColumnOf(k))
  {
    ColumnOfXor5(InvMixWord(0, c.b0), InvMixWord(1, c.b1), InvMixWord(2, c.b2), InvMixWord(3, c.b3), k);
    ColumnOfWord(InvMixTerm(0, c.b0));
    ColumnOfWord(InvMixTerm(1, c.b1));
    ColumnOfWord(InvMixTerm(2, c.b2));
    ColumnOfWord(InvMixTerm(3, c.b3));
    InvMixTermsSum(c);
  }

  lemma LookupT(t: Tables, b: bv8)
    requires t.Ready()
    ensures var i := Index(b);
            && t.T[i] == MixWord(0, Sbox(b)) && t.T[0x100 + i] == MixWord(1, Sbox(b))
            && t.T[0x200 + i] == MixWord(2, Sbox(b)) && t.T[0x300 + i] == MixWord(3, Sbox(b))
  {
    ByteAtIndex(b);
    hide Sbox, MixWord;
    assert SboxArray()[Index(b)] == Sbox(b);
  }

  lemma LookupInvS(t: Tables, b: bv8)
    requires t.Ready()
    ensures t.InvS[Index(b)] == InvSbox(b)
  {
    var i := Index(InvSbox(b));
    ByteAtIndex(InvSbox(b));
    SboxInverse(b);
    assert SboxArray()[i] == b;
  }

  lemma LookupD(t: Tables, b: bv8)
    requires t.Ready()
    ensures var i := Index(b);
            && t.D[i] == InvMixWord(0, InvSbox(b)) && t.D[0x100 + i] == InvMixWord(1, InvSbox(b))
            && t.D[0x200 + i] == InvMixWord(2, InvSbox(b)) && t.D[0x300 + i] == InvMixWord(3, InvSbox(b))
  {
    LookupInvS(t, b);
    assert t.InvS[..][Index(b)] == InvSbox(b);
  }

  /** Macro HT4 on the four bytes it selects: one column of a table round. */
  method HT4(t: Tables, b0: bv8, b1: bv8, b2: bv8, b3: bv8, k: bv32) returns (r: bv32)
    requires t.Ready()
    ensures ColumnOf(r) == AddColumn(MixColumn(SubColumn(Column(b0, b1, b2, b3))), ColumnOf(k))
  {
    hide Sbox, Xor5, MixColumn, AddColumn, ColumnOf, MixWord;
    LookupT(t, b0);
    LookupT(t, b1);
    LookupT(t, b2);
    LookupT(t, b3);
    MixWordsSum(SubColumn(Column(b0, b1, b2, b3)), k);
    r := Xor5(t.T[Index(b0)], t.T[0x100 + Index(b1)], t.T[0x200 + Index(b2)], t.T[0x300 + Index(b3)], k);
  }

  /** Macro HD4 on the four bytes it selects. */
  method HD4(t: Tables, b0: bv8, b1: bv8, b2: bv8, b3: bv8, k: bv32) returns (r: bv32)
    requires t.Ready()
    ensures ColumnOf(r) == AddColumn(InvMixColumn(InvSubColumn(Column(b0, b1, b2, b3))), ColumnOf(k))
  {
    hide InvSbox, Xor5, InvMixColumn, AddColumn, ColumnOf, InvMixWord;
    LookupD(t, b0);
    LookupD(t, b1);
    LookupD(t, b2);
    LookupD(t, b3);
    InvMixWordsSum(InvSubColumn(Column(b0, b1, b2, b3)), k);
    r := Xor5(t.D[Index(b0)], t.D[0x100 + Index(b1)], t.D[0x200 + Index(b2)], t.D[0x300 + Index(b3)], k);
  }

  /** Macro HT16: a full round from s into m with the round key at w[p..p + 4]. */
  method HT16(t: Tables, m: array<bv32>, s: array<bv32>, w: array<bv32>, p: nat)
    requires t.Ready() && m != t.T && m != t.D && m != s && m != w
    requires m.Length == s.Length == 4 && p + 4 <= w.Length
    modifies m
    ensures StateAt(m[..], 0) == AddState(MixColumns(ShiftRows(SubBytes(StateAt(s[..], 0)))), StateAt(w[..], p))
  {
    hide Sbox, MixColumn, AddColumn, Gb0, Gb1, Gb2, Gb3, t.Ready;
    m[2] := HT4(t, Gb0(s[2]), Gb1(s[3]), Gb2(s[0]), Gb3(s[1]), w[p + 2]);
    m[0] := HT4(t, Gb0(s[0]), Gb1(s[1]), Gb2(s[2]), Gb3(s[3]), w[p]);
    m[3] := HT4(t, Gb0(s[3]), Gb1(s[0]), Gb2(s[1]), Gb3(s[2]), w[p + 3]);
    m[1] := HT4(t, Gb0(s[1]), Gb1(s[2]), Gb2(s[3]), Gb3(s[0]), w[p + 1]);
  }

  /** Macro HD16: a full inverse round from s into m with the round key at w[p..p + 4]. */
  method HD16(t: Tables, m: array<bv32>, s: array<bv32>, w: array<bv32>, p: nat)
    requires t.Ready() && m != t.T && m != t.D && m != s && m != w
    requires m.Length == s.Length == 4 && p + 4 <= w.Length
    modifies m
    ensures StateAt(m[..], 0)
         == AddState(InvMixColumns(InvShiftRows(InvSubBytes(StateAt(s[..], 0)))), StateAt(w[..], p))
  {
    hide InvSbox, InvMixColumn, AddColumn, Gb0, Gb1, Gb2, Gb3, t.Ready;
    m[0] := HD4(t, Gb0(s[0]), Gb1(s[3]), Gb2(s[2]), Gb3(s[1]), w[p]);
    m[2] := HD4(t, Gb0(s[2]), Gb1(s[1]), Gb2(s[0]), Gb3(s[3]), w[p + 2]);
    m[3] := HD4(t, Gb0(s[3]), Gb1(s[2]), Gb2(s[1]), Gb3(s[0]), w[p + 3]);
    m[1] := HD4(t, Gb0(s[1]), Gb1(s[0]), Gb2(s[3]), Gb3(s[2]), w[p + 1]);
  }

  /** Macro FT4 on the four bytes it selects: one column of the last round. */
  method FT4(b0: bv8, b1: bv8, b2: bv8, b3: bv8, k: bv32) returns (r: bv32)
    ensures ColumnOf(r) == AddColumn(SubColumn(Column(b0, b1, b2, b3)), ColumnOf(k))
  {
    hide Sbox, Ui32, AddColumn, ColumnOf, Xor;
    var u := Ui32(Sbox(b0), Sbox(b1), Sbox(b2), Sbox(b3));
    ColumnOfUi32(Sbox(b0), Sbox(b1), Sbox(b2), Sbox(b3));
    ColumnOfXor(u, k);
    r := Xor(u, k);
  }

  /** Macro FD4 on the four bytes it selects. */
  method FD4(t: Tables, b0: bv8, b1: bv8, b2: bv8, b3: bv8, k: bv32) returns (r: bv32)
    requires t.Ready()
    ensures ColumnOf(r) == AddColumn(InvSubColumn(Column(b0, b1, b2, b3)), ColumnOf(k))
  {
    hide InvSbox, Ui32, AddColumn, ColumnOf, Xor;
    LookupInvS(t, b0);
    LookupInvS(t, b1);
    LookupInvS(t, b2);
    LookupInvS(t, b3);
    var u := Ui32(t.InvS[Index(b0)], t.InvS[Index(b1)], t.InvS[Index(b2)], t.InvS[Index(b3)]);
    ColumnOfUi32(InvSbox(b0), InvSbox(b1), InvSbox(b2), InvSbox(b3));
    ColumnOfXor(u, k);
    r := Xor(u, k);
  }

  /** s[i] = src[i] ^ w[p + i]. */
  method Whiten(s: array<bv32>, src: array<bv32>, w: array<bv32>, p: nat)
    requires s.Length == src.Length == 4 && s != src && s != w && p + 4 <= w.Length
    modifies s
    ensures StateAt(s[..], 0) == AddState(StateAt(src[..], 0), StateAt(w[..], p))
  {
    hide ColumnOf, AddColumn, Xor;
    s[0] := Xor(src[0], w[p]);
    s[1] := Xor(src[1], w[p + 1]);
    s[2] := Xor(src[2], w[p + 2]);
    s[3] := Xor(src[3], w[p + 3]);
    ColumnOfXor(src[0], w[p]);
    ColumnOfXor(src[1], w[p + 1]);
    ColumnOfXor(src[2], w[p + 2]);
    ColumnOfXor(src[3], w[p + 3]);
  }

  /** The block in src is enciphered into dest; the two may be the same block. */
  method AesEncode32(t: Tables, dest: array<bv32>, src: array<bv32>, w: array<bv32>, numRounds2: nat)
    requires t.Ready() && dest != t.T && dest != t.D && dest != w
    requires dest.Length == src.Length == 4
    requires numRounds2 > 0 && 4 * (2 * numRounds2 + 1) <= w.Length
    modifies dest
    ensures StateAt(dest[..], 0) == Cipher(KeysOf(w[..], 2 * numRounds2), StateAt(old(src[..]), 0))
  {
    hide StateAt, MixColumns, AddState, ShiftRows, SubBytes, t.Ready;
    var s := new bv32[4];
    var m := new bv32[4];
    ghost var ks := KeysOf(w[..], 2 * numRounds2);
    ghost var input := StateAt(src[..], 0);
    Whiten(s, src, w, 0);
    var p := 4;
    var n := numRounds2;
    while true
      invariant 1 <= n <= numRounds2 && p == 4 + 8 * (numRounds2 - n)
      invariant StateAt(s[..], 0) == Rounds(ks, input, 2 * (numRounds2 - n))
      decreases n
    {
      HT16(t, m, s, w, p);
      n := n - 1;
      if n == 0 { break; }
      HT16(t, s, m, w, p + 4);
      p := p + 8;
    }
    p := p + 4;
    assert StateAt(m[..], 0) == Rounds(ks, input, 2 * numRounds2 - 1);
    LastRound(dest, m, w, p);
  }

  /** The FT4 round. */
  method LastRound(dest: array<bv32>, m: array<bv32>, w: array<bv32>, p: nat)
    requires dest != w && dest != m && dest.Length == m.Length == 4 && p + 4 <= w.Length
    modifies dest
    ensures StateAt(dest[..], 0) == AddState(ShiftRows(SubBytes(StateAt(m[..], 0))), StateAt(w[..], p))
  {
    hide Sbox, AddColumn, Gb0, Gb1, Gb2, Gb3;
    dest[0] := FT4(Gb0(m[0]), Gb1(m[1]), Gb2(m[2]), Gb3(m[3]), w[p]);
    dest[1] := FT4(Gb0(m[1]), Gb1(m[2]), Gb2(m[3]), Gb3(m[0]), w[p + 1]);
    dest[2] := FT4(Gb0(m[2]), Gb1(m[3]), Gb2(m[0]), Gb3(m[1]), w[p + 2]);
    dest[3] := FT4(Gb0(m[3]), Gb1(m[0]), Gb2(m[1]), Gb3(m[2]), w[p + 3]);
  }

  /** The FD4 round. */
  method LastInvRound(t: Tables, dest: array<bv32>, m: array<bv32>, w: array<bv32>, p: nat)
    requires t.Ready() && dest != t.T && dest != t.D
    requires dest != w && dest != m && dest.Length == m.Length == 4 && p + 4 <= w.Length
    modifies dest
    ensures StateAt(dest[..], 0) == AddState(InvShiftRows(InvSubBytes(StateAt(m[..], 0))), StateAt(w[..], p))
  {
    hide InvSbox, AddColumn, Gb0, Gb1, Gb2, Gb3, t.Ready;
    dest[0] := FD4(t, Gb0(m[0]), Gb1(m[3]), Gb2(m[2]), Gb3(m[1]), w[p]);
    dest[1] := FD4(t, Gb0(m[1]), Gb1(m[0]), Gb2(m[3]), Gb3(m[2]), w[p + 1]);
    dest[2] := FD4(t, Gb0(m[2]), Gb1(m[1]), Gb2(m[0]), Gb3(m[3]), w[p + 2]);
    dest[3] := FD4(t, Gb0(m[3]), Gb1(m[2]), Gb2(m[1]), Gb3(m[0]), w[p + 3]);
  }

  /** The block in src is deciphered into dest; the two may be the same block. */
  method AesDecode32(t: Tables, dest: array<bv32>, src: array<bv32>, w: array<bv32>, numRounds2: nat)
    requires t.Ready() && dest != t.T && dest != t.D && dest != w
    requires dest.Length == src.Length == 4
    requires numRounds2 > 0 && 4 * (2 * numRounds2 + 1) <= w.Length
    modifies dest
    ensures StateAt(dest[..], 0) == EqInvCipher(KeysOf(w[..], 2 * numRounds2), StateAt(old(src[..]), 0))
  {
    hide StateAt, InvMixColumns, AddState, InvShiftRows, InvSubBytes, t.Ready;
    var s := new bv32[4];
    var m := new bv32[4];
    ghost var dk := KeysOf(w[..], 2 * numRounds2);
    ghost var input := StateAt(src[..], 0);
    var p := numRounds2 * 8;
    var n := numRounds2;
    Whiten(s, src, w, p);
    while true
      invariant 1 <= n <= numRounds2 && p == 8 * n
      invariant StateAt(s[..], 0) == InvRounds(dk, input, 2 * n)
      decreases n
    {
      p := p - 8;
      HD16(t, m, s, w, p + 4);
      n := n - 1;
      if n == 0 { break; }
      HD16(t, s, m, w, p);
    }
    assert StateAt(m[..], 0) == InvRounds(dk, input, 1);
    LastInvRound(t, dest, m, w, p);
  }
}
