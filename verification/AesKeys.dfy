/** Key setup: Aes_SetKeyEncode and Aes_SetKeyDecode. */
module AesKeys {
  import opened AesField
  import opened AesSbox
  import opened AesSpec
  import opened AesTables
  import opened AesBlock

  const Rcon: seq<bv8> := [0x00, 0x01, 0x02, 0x04, 0x08, 0x10, 0x20, 0x40, 0x80, 0x1b, 0x36]

  /** The table holds the powers of x (FIPS 197, section 5.2). */
  lemma RconEntry(j: nat)
    requires j <= 10
    ensures |Rcon| == 11 && Rcon[j] == RoundConstant(j)
  {
    RoundConstants();
  }

  /** Words that agree with the key expansion form its round keys. */
  lemma KeysOfWords(w: seq<bv32>, key: seq<bv8>)
    requires IsKeySize(|key|) && 4 * (RoundCount(key) + 1) <= |w|
    requires forall j | 0 <= j < 4 * (RoundCount(key) + 1) :: ColumnOf(w[j]) == KeyWord(key, j)
    ensures KeysOf(w, RoundCount(key)) == ExpandedKey(key)
  {
    hide ColumnOf, KeyWord;
    var nr := RoundCount(key);
    forall r | 0 <= r <= nr
      ensures StateAt(w, 4 * r) == RoundKey(key, r)
    {}
  }

  class CAes {
    var numRounds2: nat
    const rkey: array<bv32>

    ghost predicate Shape() { rkey.Length == 60 }

    ghost predicate HasKeys(ks: KeySchedule)
      reads this, rkey
    {
      Shape() && 2 * numRounds2 + 1 == |ks| <= 15 && KeysOf(rkey[..], 2 * numRounds2) == ks
    }

    constructor ()
      ensures Shape() && fresh(rkey)
    {
      rkey := new bv32[60](_ => 0);
      numRounds2 := 0;
    }

    method SetKeyEncode(key: seq<bv8>)
      requires Shape() && IsKeySize(|key|)
      modifies this, rkey
      ensures HasKeys(ExpandedKey(key))
    {
      hide ColumnOf, Xor, KeyWord, KeyStep, AddColumn, ExpandedKey;
      var nk := |key| / 4;
      numRounds2 := nk / 2 + 3;
      var wSize := (numRounds2 * 2 + 1) * 4;
      LoadKey(key, nk);
      var i := nk;
      while i < wSize
        invariant nk <= i <= wSize && numRounds2 == nk / 2 + 3
        invariant forall j | 0 <= j < i :: ColumnOf(rkey[j]) == KeyWord(key, j)
      {
        NextKeyWord(key, i);
        var t := NextWord(nk, i, rkey[i - 1]);
        ColumnOfXor(rkey[i - nk], t);
        rkey[i] := Xor(rkey[i - nk], t);
        i := i + 1;
      }
      KeysOfWords(rkey[..], key);
    }

    /** The first loop: the key itself. */
    method LoadKey(key: seq<bv8>, nk: nat)
      requires Shape() && IsKeySize(|key|) && nk == |key| / 4
      modifies rkey
      ensures forall j | 0 <= j < nk :: ColumnOf(rkey[j]) == KeyWord(key, j)
    {
      hide Ui32, ColumnOf, KeyStep, AddColumn;
      var i := 0;
      while i < nk
        invariant 0 <= i <= nk
        invariant forall j | 0 <= j < i :: ColumnOf(rkey[j]) == KeyWord(key, j)
      {
        rkey[i] := Ui32(key[4 * i], key[4 * i + 1], key[4 * i + 2], key[4 * i + 3]);
        ColumnOfUi32(key[4 * i], key[4 * i + 1], key[4 * i + 2], key[4 * i + 3]);
        i := i + 1;
      }
    }

    /** The encryption schedule, then InvMixColumns of all round keys but the outer two, in place. */
    method SetKeyDecode(t: Tables, key: seq<bv8>)
      requires Shape() && IsKeySize(|key|) && t.Ready() && rkey != t.T && rkey != t.D
      modifies this, rkey
      ensures HasKeys(DecryptionKeys(ExpandedKey(key)))
    {
      hide ColumnOf, InvMixColumn, ExpandedKey, t.Ready;
      SetKeyEncode(key);
      var num := numRounds2 * 8 - 4;
      ghost var old_w := rkey[..];
      var i := 0;
      while i < num
        invariant 0 <= i <= num && |old_w| == 60 && num == numRounds2 * 8 - 4
        invariant forall j | 4 <= j < 4 + i :: ColumnOf(rkey[j]) == InvMixColumn(ColumnOf(old_w[j]))
        invariant forall j | 0 <= j < 60 && !(4 <= j < 4 + i) :: rkey[j] == old_w[j]
      {
        rkey[4 + i] := UnmixWord(t, rkey[4 + i]);
        i := i + 1;
      }
      UnmixedKeys(old_w, rkey[..], 2 * numRounds2);
    }
  }

  lemma UnmixedKeys(before: seq<bv32>, after: seq<bv32>, nr: nat)
    requires nr > 0 && 4 * (nr + 1) <= |before| == |after|
    requires forall j | 4 <= j < 4 * nr :: ColumnOf(after[j]) == InvMixColumn(ColumnOf(before[j]))
    requires forall j | 0 <= j < 4 || 4 * nr <= j < |before| :: after[j] == before[j]
    ensures KeysOf(after, nr) == DecryptionKeys(KeysOf(before, nr))
  {
    hide ColumnOf, InvMixColumn;
    forall r | 0 <= r <= nr
      ensures KeysOf(after, nr)[r] == DecryptionKeys(KeysOf(before, nr))[r]
    {
      assert KeysOf(before, nr)[r] == StateAt(before, 4 * r);
    }
  }

  /** The loop body of Aes.c:149-154: the D tables undo the substitution they contain. */
  method UnmixWord(t: Tables, r: bv32) returns (u: bv32)
    requires t.Ready()
    ensures ColumnOf(u) == InvMixColumn(ColumnOf(r))
  {
    hide Sbox, InvSbox, Xor, AddColumn, InvMixColumn, Gb0, Gb1, Gb2, Gb3, InvMixTerm, Index;
    var b0, b1, b2, b3 := Gb0(r), Gb1(r), Gb2(r), Gb3(r);
    SboxInverse(b0);
    SboxInverse(b1);
    SboxInverse(b2);
    SboxInverse(b3);
    LookupD(t, Sbox(b0));
    LookupD(t, Sbox(b1));
    LookupD(t, Sbox(b2));
    LookupD(t, Sbox(b3));
    u := Xor(Xor(Xor(t.D[Index(Sbox(b0))], t.D[0x100 + Index(Sbox(b1))]),
                 t.D[0x200 + Index(Sbox(b2))]), t.D[0x300 + Index(Sbox(b3))]);
    ColumnOfWord(InvMixTerm(0, b0));
    ColumnOfWord(InvMixTerm(1, b1));
    ColumnOfWord(InvMixTerm(2, b2));
    ColumnOfWord(InvMixTerm(3, b3));
    ColumnOfXor(InvMixWord(0, b0), InvMixWord(1, b1));
    ColumnOfXor(Xor(InvMixWord(0, b0), InvMixWord(1, b1)), InvMixWord(2, b2));
    ColumnOfXor(Xor(Xor(InvMixWord(0, b0), InvMixWord(1, b1)), InvMixWord(2, b2)), InvMixWord(3, b3));
    InvMixTermsSum(Column(b0, b1, b2, b3));
  }

  /** The loop body of Aes.c:129-134 that turns word i - 1 into the summand of word i. */
  method NextWord(nk: nat, i: nat, w: bv32) returns (t: bv32)
    requires nk == 4 || nk == 6 || nk == 8
    requires nk <= i < 4 * nk + 28
    ensures ColumnOf(t) == KeyStep(nk, i, ColumnOf(w))
  {
    hide Ui32, Sbox, Xor, Xtime;
    t := w;
    var rem := i % nk;
    if rem == 0 {
      var s1, s2, s3, s0 := Sbox(Gb1(t)), Sbox(Gb2(t)), Sbox(Gb3(t)), Sbox(Gb0(t));
      RconEntry(i / nk);
      ColumnOfUi32(Add(s1, Rcon[i / nk]), s2, s3, s0);
      AddZero(s2);
      AddZero(s3);
      AddZero(s0);
      t := Ui32(Add(s1, Rcon[i / nk]), s2, s3, s0);
    } else if nk > 6 && rem == 4 {
      ColumnOfUi32(Sbox(Gb0(t)), Sbox(Gb1(t)), Sbox(Gb2(t)), Sbox(Gb3(t)));
      t := Ui32(Sbox(Gb0(t)), Sbox(Gb1(t)), Sbox(Gb2(t)), Sbox(Gb3(t)));
    }
  }
}
