/** The cipher of FIPS 197: key expansion, cipher, and equivalent inverse cipher. */
module AesSpec {
  import opened AesField
  import opened AesSbox

  /** The state, column by column (FIPS 197, section 3.5). */
  datatype State = State(c0: Column, c1: Column, c2: Column, c3: Column)

  // ----- the transformations of sections 5.1 and 5.3 -----

  function AddState(s: State, k: State): State {
    State(AddColumn(s.c0, k.c0), AddColumn(s.c1, k.c1), AddColumn(s.c2, k.c2), AddColumn(s.c3, k.c3))
  }

  function SubColumn(c: Column): Column {
    Column(Sbox(c.b0), Sbox(c.b1), Sbox(c.b2), Sbox(c.b3))
  }

  function InvSubColumn(c: Column): Column {
    Column(InvSbox(c.b0), InvSbox(c.b1), InvSbox(c.b2), InvSbox(c.b3))
  }

  function SubBytes(s: State): State {
    State(SubColumn(s.c0), SubColumn(s.c1), SubColumn(s.c2), SubColumn(s.c3))
  }

  function InvSubBytes(s: State): State {
    State(InvSubColumn(s.c0), InvSubColumn(s.c1), InvSubColumn(s.c2), InvSubColumn(s.c3))
  }

  /** Row r moves r columns to the left. */
  function ShiftRows(s: State): State {
    State(Column(s.c0.b0, s.c1.b1, s.c2.b2, s.c3.b3),
          Column(s.c1.b0, s.c2.b1, s.c3.b2, s.c0.b3),
          Column(s.c2.b0, s.c3.b1, s.c0.b2, s.c1.b3),
          Column(s.c3.b0, s.c0.b1, s.c1.b2, s.c2.b3))
  }

  /** Row r moves r columns to the right. */
  function InvShiftRows(s: State): State {
    State(Column(s.c0.b0, s.c3.b1, s.c2.b2, s.c1.b3),
          Column(s.c1.b0, s.c0.b1, s.c3.b2, s.c2.b3),
          Column(s.c2.b0, s.c1.b1, s.c0.b2, s.c3.b3),
          Column(s.c3.b0, s.c2.b1, s.c1.b2, s.c0.b3))
  }

  function MixColumns(s: State): State {
    State(MixColumn(s.c0), MixColumn(s.c1), MixColumn(s.c2), MixColumn(s.c3))
  }

  function InvMixColumns(s: State): State {
    State(InvMixColumn(s.c0), InvMixColumn(s.c1), InvMixColumn(s.c2), InvMixColumn(s.c3))
  }

  // ----- the cipher and the equivalent inverse cipher -----

  /** Round keys 0..Nr. */
  type KeySchedule = ks: seq<State> | |ks| >= 2 witness [Zeros(), Zeros()]

  function Zeros(): State {
    var z := Column(0, 0, 0, 0);
    State(z, z, z, z)
  }

  /** The state after the first k full rounds of Cipher (section 5.1). */
  function Rounds(ks: KeySchedule, input: State, k: nat): State
    requires k < |ks|
  {
    if k == 0 then AddState(input, ks[0])
    else AddState(MixColumns(ShiftRows(SubBytes(Rounds(ks, input, k - 1)))), ks[k])
  }

  function Cipher(ks: KeySchedule, input: State): State {
    var nr := |ks| - 1;
    AddState(ShiftRows(SubBytes(Rounds(ks, input, nr - 1))), ks[nr])
  }

  /** The state of EqInvCipher (section 5.3.5) when rounds Nr-1 down to k are done. */
  function InvRounds(dk: KeySchedule, input: State, k: nat): State
    requires 1 <= k < |dk|
    decreases |dk| - k
  {
    if k == |dk| - 1 then AddState(input, dk[k])
    else AddState(InvMixColumns(InvShiftRows(InvSubBytes(InvRounds(dk, input, k + 1)))), dk[k])
  }

  function EqInvCipher(dk: KeySchedule, input: State): State {
    AddState(InvShiftRows(InvSubBytes(InvRounds(dk, input, 1))), dk[0])
  }

  /** The decryption keys: InvMixColumns of every round key but the first and the last. */
  function DecryptionKeys(ks: KeySchedule): (dk: KeySchedule)
    ensures |dk| == |ks|
  {
    seq(|ks|, k requires 0 <= k < |ks| => if 0 < k < |ks| - 1 then InvMixColumns(ks[k]) else ks[k])
  }

  // ----- key expansion -----

  /** Key sizes in bytes. */
  predicate IsKeySize(n: int) { n == 16 || n == 24 || n == 32 }

  /** Word i of the expanded key (section 5.2), for a key of |key| / 4 words. */
  function KeyWord(key: seq<bv8>, i: nat): Column
    requires IsKeySize(|key|)
  {
    var nk := |key| / 4;
    if i < nk then Column(key[4 * i], key[4 * i + 1], key[4 * i + 2], key[4 * i + 3])
    else AddColumn(KeyWord(key, i - nk), KeyStep(nk, i, KeyWord(key, i - 1)))
  }

  /** What word i - nk is added to, given word i - 1. */
  function KeyStep(nk: nat, i: nat, temp: Column): Column
    requires nk > 0
  {
    if i % nk == 0 then AddColumn(SubColumn(RotWord(temp)), Column(RoundConstant(i / nk), 0, 0, 0))
    else if nk > 6 && i % nk == 4 then SubColumn(temp)
    else temp
  }

  function RotWord(c: Column): Column { Column(c.b1, c.b2, c.b3, c.b0) }

  /** x to the power j - 1 (section 5.2). */
  function RoundConstant(j: int): bv8 {
    if j <= 0 then 0 else if j == 1 then 1 else Xtime(RoundConstant(j - 1))
  }

  /** Nr: 10, 12 or 14 rounds. */
  function RoundCount(key: seq<bv8>): nat { |key| / 4 + 6 }

  function ExpandedKey(key: seq<bv8>): (ks: KeySchedule)
    requires IsKeySize(|key|)
    ensures |ks| == RoundCount(key) + 1
  {
    seq(RoundCount(key) + 1, r requires 0 <= r => RoundKey(key, r))
  }

  function RoundKey(key: seq<bv8>, r: nat): State
    requires IsKeySize(|key|)
  {
    State(KeyWord(key, 4 * r), KeyWord(key, 4 * r + 1), KeyWord(key, 4 * r + 2), KeyWord(key, 4 * r + 3))
  }

  // ----- the key expansion, byte by byte -----

  lemma NextKeyWord(key: seq<bv8>, i: nat)
    requires IsKeySize(|key|) && i >= |key| / 4
    ensures var nk := |key| / 4;
            KeyWord(key, i) == AddColumn(KeyWord(key, i - nk), KeyStep(nk, i, KeyWord(key, i - 1)))
  {
    hide KeyStep, AddColumn;
  }

  lemma FirstWords(key: seq<bv8>, i: nat)
    requires IsKeySize(|key|) && i < |key| / 4
    ensures KeyWord(key, i) == Column(key[4 * i], key[4 * i + 1], key[4 * i + 2], key[4 * i + 3])
  {}

  /** Every word of the expanded key (section 5.2): the key itself, and then the word one key length before plus the
      last word, of which at multiples of the key length the bytes are substituted one place further on and the first
      gets a power of x, and of which for 32-byte keys half way between the bytes are substituted in place. */
  lemma KeyWordBytes(key: seq<bv8>, i: nat)
    requires IsKeySize(|key|)
    ensures var nk, w := |key| / 4, KeyWord(key, i);
            && (i < nk ==> w == Column(key[4 * i], key[4 * i + 1], key[4 * i + 2], key[4 * i + 3]))
            && (i >= nk ==>
                  var p, t := KeyWord(key, i - nk), KeyWord(key, i - 1);
                  if i % nk == 0 then
                    w == Column(Add(p.b0, Add(Sbox(t.b1), RoundConstant(i / nk))), Add(p.b1, Sbox(t.b2)),
                                Add(p.b2, Sbox(t.b3)), Add(p.b3, Sbox(t.b0)))
                  else if |key| == 32 && i % 8 == 4 then
                    w == Column(Add(p.b0, Sbox(t.b0)), Add(p.b1, Sbox(t.b1)), Add(p.b2, Sbox(t.b2)), Add(p.b3, Sbox(t.b3)))
                  else w == Column(Add(p.b0, t.b0), Add(p.b1, t.b1), Add(p.b2, t.b2), Add(p.b3, t.b3)))
  {
    hide Sbox, RoundConstant, Add, KeyWord;
    if i < |key| / 4 {
      FirstWords(key, i);
    } else {
      NextKeyWord(key, i);
      var t := KeyWord(key, i - 1);
      AddZero(Sbox(t.b2));
      AddZero(Sbox(t.b3));
      AddZero(Sbox(t.b0));
    }
  }

  /** The constant at the j-th multiple of the key length. */
  lemma {:induction false} PowersOfX(j: nat)
    ensures j >= 1 ==> RoundConstant(j) == Power(j - 1)
  {
    if j >= 2 {
      PowersOfX(j - 1);
      SmallProducts(Power(j - 2));
    }
  }

  /** x * x * ... * x in the field */
  function Power(n: nat): bv8 { if n == 0 then 1 else Mul(2, Power(n - 1)) }

  /** The round constants as numbers. */
  lemma RoundConstants()
    ensures RoundConstant(1) == 0x01 && RoundConstant(2) == 0x02 && RoundConstant(3) == 0x04 && RoundConstant(4) == 0x08
    ensures RoundConstant(5) == 0x10 && RoundConstant(6) == 0x20 && RoundConstant(7) == 0x40 && RoundConstant(8) == 0x80
    ensures RoundConstant(9) == 0x1b && RoundConstant(10) == 0x36
  {
    assert RoundConstant(1) == 0x01;
    assert RoundConstant(2) == 0x02;
    assert RoundConstant(3) == 0x04;
    assert RoundConstant(4) == 0x08;
    assert RoundConstant(5) == 0x10;
    assert RoundConstant(6) == 0x20;
    assert RoundConstant(7) == 0x40;
    assert RoundConstant(8) == 0x80;
    assert RoundConstant(9) == 0x1b;
  }

  // ----- the rows of the state -----

  /** The byte in row r and column c. */
  function ByteOf(s: State, r: nat, c: nat): bv8
    requires r < 4 && c < 4
  {
    var col := if c == 0 then s.c0 else if c == 1 then s.c1 else if c == 2 then s.c2 else s.c3;
    if r == 0 then col.b0 else if r == 1 then col.b1 else if r == 2 then col.b2 else col.b3
  }

  /** ShiftRows takes the byte in row r from r columns to the right (section 5.1.2). */
  lemma RowsShift(s: State, r: nat, c: nat)
    requires r < 4 && c < 4
    ensures ByteOf(ShiftRows(s), r, c) == ByteOf(s, r, (c + r) % 4)
  {
    match r
    case 0 =>
    case 1 =>
    case 2 =>
    case _ =>
  }

  /** InvShiftRows takes it from r columns to the left (section 5.3.1). */
  lemma InvRowsShift(s: State, r: nat, c: nat)
    requires r < 4 && c < 4
    ensures ByteOf(InvShiftRows(s), r, c) == ByteOf(s, r, (c + 4 - r) % 4)
  {
    match r
    case 0 =>
    case 1 =>
    case 2 =>
    case _ =>
  }

  // ----- decryption undoes encryption -----

  lemma AddStateCancels(s: State, k: State)
    ensures AddState(AddState(s, k), k) == s
  {
    AddColumnCancels(s.c0, k.c0);
    AddColumnCancels(s.c1, k.c1);
    AddColumnCancels(s.c2, k.c2);
    AddColumnCancels(s.c3, k.c3);
  }

  lemma SubColumnInverse(c: Column)
    ensures InvSubColumn(SubColumn(c)) == c
  {
    SboxInverse(c.b0);
    SboxInverse(c.b1);
    SboxInverse(c.b2);
    SboxInverse(c.b3);
  }

  /** InvSubBytes and InvShiftRows commute, and together undo SubBytes then ShiftRows. */
  lemma UnshiftUnsub(s: State)
    ensures InvShiftRows(InvSubBytes(ShiftRows(SubBytes(s)))) == s
  {
    SubColumnInverse(s.c0);
    SubColumnInverse(s.c1);
    SubColumnInverse(s.c2);
    SubColumnInverse(s.c3);
  }

  lemma UnmixRound(s: State, k: State)
    ensures AddState(InvMixColumns(AddState(MixColumns(s), k)), InvMixColumns(k)) == s
  {
    UnmixMix(s.c0); UnmixMix(s.c1); UnmixMix(s.c2); UnmixMix(s.c3);
    var m := MixColumns(s);
    InvMixColumnDistributes(m.c0, k.c0);
    InvMixColumnDistributes(m.c1, k.c1);
    InvMixColumnDistributes(m.c2, k.c2);
    InvMixColumnDistributes(m.c3, k.c3);
    AddStateCancels(s, InvMixColumns(k));
  }

  /** Before inverse round k - 1 the decryption state is the encryption state of round k, half done. */
  lemma {:induction false} InvRoundsMirror(ks: KeySchedule, input: State, k: nat)
    requires 1 <= k < |ks|
    ensures InvRounds(DecryptionKeys(ks), Cipher(ks, input), k) == ShiftRows(SubBytes(Rounds(ks, input, k - 1)))
    decreases |ks| - k
  {
    hide AddState, ShiftRows, SubBytes, MixColumns, InvMixColumns, InvShiftRows, InvSubBytes;
    var half := ShiftRows(SubBytes(Rounds(ks, input, k - 1)));
    if k == |ks| - 1 {
      AddStateCancels(half, ks[k]);
    } else {
      InvRoundsMirror(ks, input, k + 1);
      UnshiftUnsub(Rounds(ks, input, k));
      UnmixRound(half, ks[k]);
    }
  }

  /** The equivalent inverse cipher inverts the cipher, for every key schedule and every block. */
  lemma DecryptEncrypt(ks: KeySchedule, input: State)
    ensures EqInvCipher(DecryptionKeys(ks), Cipher(ks, input)) == input
  {
    hide AddState, ShiftRows, SubBytes, MixColumns, InvMixColumns, InvShiftRows, InvSubBytes;
    InvRoundsMirror(ks, input, 1);
    UnshiftUnsub(Rounds(ks, input, 0));
    AddStateCancels(input, ks[0]);
  }
}
