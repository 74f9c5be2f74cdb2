/** Cipher block chaining, in place over a byte buffer. */
module AesCbc {
  import opened AesField
  import opened AesSpec
  import opened AesTables
  import opened AesBlock
  import opened AesKeys

  const AES_BLOCK_SIZE := 16

  // ----- CBC on byte sequences (section 6.2 of NIST SP 800-38A) -----

  function BlockAt(b: seq<bv8>, p: nat): State
    requires p + 16 <= |b|
  {
    State(ColumnAt(b, p), ColumnAt(b, p + 4), ColumnAt(b, p + 8), ColumnAt(b, p + 12))
  }

  function ColumnAt(b: seq<bv8>, p: nat): Column
    requires p + 4 <= |b|
  {
    Column(b[p], b[p + 1], b[p + 2], b[p + 3])
  }

  function ColumnBytes(c: Column): seq<bv8> { [c.b0, c.b1, c.b2, c.b3] }

  function BytesOf(s: State): (r: seq<bv8>)
    ensures |r| == 16
  {
    ColumnBytes(s.c0) + ColumnBytes(s.c1) + ColumnBytes(s.c2) + ColumnBytes(s.c3)
  }

  /** Whole blocks are chained; a last piece shorter than a block is left as it is. */
  function Encrypt(ks: KeySchedule, iv: State, data: seq<bv8>): (r: seq<bv8>)
    ensures |r| == |data|
    decreases |data|
  {
    hide Cipher, AddState;
    if |data| < 16 then data
    else
      var c := Cipher(ks, AddState(iv, BlockAt(data, 0)));
      BytesOf(c) + Encrypt(ks, c, data[16..])
  }

  /** The chaining value after Encrypt. */
  function EncryptChain(ks: KeySchedule, iv: State, data: seq<bv8>): State
    decreases |data|
  {
    hide Cipher, AddState;
    if |data| < 16 then iv
    else EncryptChain(ks, Cipher(ks, AddState(iv, BlockAt(data, 0))), data[16..])
  }

  function Decrypt(dk: KeySchedule, iv: State, data: seq<bv8>): (r: seq<bv8>)
    ensures |r| == |data|
    decreases |data|
  {
    hide EqInvCipher, AddState;
    if |data| < 16 then data
    else
      var c := BlockAt(data, 0);
      BytesOf(AddState(iv, EqInvCipher(dk, c))) + Decrypt(dk, c, data[16..])
  }

  /** The chaining value after Decrypt: the last whole block of ciphertext. */
  function DecryptChain(iv: State, data: seq<bv8>): State
    decreases |data|
  {
    if |data| < 16 then iv else DecryptChain(BlockAt(data, 0), data[16..])
  }

  lemma BlockOfBytes(s: State, rest: seq<bv8>)
    ensures BlockAt(BytesOf(s) + rest, 0) == s
  {}

  lemma BytesOfBlock(data: seq<bv8>)
    requires |data| >= 16
    ensures BytesOf(BlockAt(data, 0)) == data[..16]
  {}

  lemma AddStateSwap(a: State, b: State)
    ensures AddState(a, AddState(a, b)) == b
  {
    AddColumnSwap(a.c0, b.c0);
    AddColumnSwap(a.c1, b.c1);
    AddColumnSwap(a.c2, b.c2);
    AddColumnSwap(a.c3, b.c3);
  }

  lemma AddColumnSwap(a: Column, b: Column)
    ensures AddColumn(a, AddColumn(a, b)) == b
  {
    AddColumnCommutes(a, b);
    AddColumnCommutes(a, AddColumn(b, a));
    AddColumnCancels(b, a);
  }

  lemma AddColumnCommutes(a: Column, b: Column)
    ensures AddColumn(a, b) == AddColumn(b, a)
  {
    AddCommutes(a.b0, b.b0);
    AddCommutes(a.b1, b.b1);
    AddCommutes(a.b2, b.b2);
    AddCommutes(a.b3, b.b3);
  }

  /** Decryption undoes encryption: any keys, any starting value, any length, and the chaining values agree. */
  lemma {:induction false} DecryptUndoesEncrypt(ks: KeySchedule, iv: State, data: seq<bv8>)
    ensures Decrypt(DecryptionKeys(ks), iv, Encrypt(ks, iv, data)) == data
    ensures DecryptChain(iv, Encrypt(ks, iv, data)) == EncryptChain(ks, iv, data)
    decreases |data|
  {
    hide Cipher, EqInvCipher, AddState, DecryptionKeys;
    if |data| >= 16 {
      var p := BlockAt(data, 0);
      var c := Cipher(ks, AddState(iv, p));
      var rest := Encrypt(ks, c, data[16..]);
      BlockOfBytes(c, rest);
      assert (BytesOf(c) + rest)[16..] == rest;
      DecryptEncrypt(ks, AddState(iv, p));
      AddStateSwap(iv, p);
      BytesOfBlock(data);
      DecryptUndoesEncrypt(ks, c, data[16..]);
    }
  }

  /** Data may be fed in pieces: a split at any multiple of the block size changes nothing. */
  lemma {:induction false} EncryptSplit(ks: KeySchedule, iv: State, a: seq<bv8>, b: seq<bv8>)
    requires |a| % 16 == 0
    ensures Encrypt(ks, iv, a + b) == Encrypt(ks, iv, a) + Encrypt(ks, EncryptChain(ks, iv, a), b)
    ensures EncryptChain(ks, iv, a + b) == EncryptChain(ks, EncryptChain(ks, iv, a), b)
    decreases |a|
  {
    hide Cipher, AddState;
    if |a| == 0 {
      assert a + b == b;
    } else {
      assert (a + b)[16..] == a[16..] + b;
      EncryptSplit(ks, Cipher(ks, AddState(iv, BlockAt(a, 0))), a[16..], b);
    }
  }

  lemma {:induction false} DecryptSplit(dk: KeySchedule, iv: State, a: seq<bv8>, b: seq<bv8>)
    requires |a| % 16 == 0
    ensures Decrypt(dk, iv, a + b) == Decrypt(dk, iv, a) + Decrypt(dk, DecryptChain(iv, a), b)
    ensures DecryptChain(iv, a + b) == DecryptChain(DecryptChain(iv, a), b)
    decreases |a|
  {
    hide EqInvCipher, AddState;
    if |a| == 0 {
      assert a + b == b;
    } else {
      assert (a + b)[16..] == a[16..] + b;
      DecryptSplit(dk, BlockAt(a, 0), a[16..], b);
    }
  }

  /** Exactly the whole blocks are touched: the last |data| % 16 bytes stay as they are. */
  lemma {:induction false} TailUntouched(ks: KeySchedule, iv: State, data: seq<bv8>)
    ensures var n := |data| - |data| % 16;
            Encrypt(ks, iv, data)[n..] == data[n..] && Decrypt(ks, iv, data)[n..] == data[n..]
  {
    var n := |data| - |data| % 16;
    assert data == data[..n] + data[n..];
    EncryptSplit(ks, iv, data[..n], data[n..]);
    DecryptSplit(ks, iv, data[..n], data[n..]);
  }

  lemma BlockOfConcat(a: seq<bv8>, b: seq<bv8>, p: nat)
    requires |a| <= p && p + 16 <= |a| + |b|
    ensures BlockAt(a + b, p) == BlockAt(b, p - |a|)
  {}

  lemma BlockOfTail(d: seq<bv8>, n: nat, p: nat)
    requires n + p + 16 <= |d|
    ensures BlockAt(d[n..], p) == BlockAt(d, n + p)
  {}

  /** Block j of the result is Cipher of block j of the data plus block j - 1 of the result, the starting value before
      the first (section 6.2 of NIST SP 800-38A). */
  lemma {:induction false} EncryptedBlock(ks: KeySchedule, iv: State, data: seq<bv8>, j: nat)
    requires 16 * (j + 1) <= |data|
    ensures var r := Encrypt(ks, iv, data);
            var last := if j == 0 then iv else BlockAt(r, 16 * (j - 1));
            BlockAt(r, 16 * j) == Cipher(ks, AddState(last, BlockAt(data, 16 * j)))
    decreases j
  {
    hide Cipher, AddState, BlockAt;
    var c := Cipher(ks, AddState(iv, BlockAt(data, 0)));
    var rest := Encrypt(ks, c, data[16..]);
    BlockOfBytes(c, rest);
    if j > 0 {
      EncryptedBlock(ks, c, data[16..], j - 1);
      BlockOfTail(data, 16, 16 * (j - 1));
      BlockOfConcat(BytesOf(c), rest, 16 * j);
      if j > 1 { BlockOfConcat(BytesOf(c), rest, 16 * (j - 1)); }
    }
  }

  /** And block j of a decryption is the inverse cipher of block j of the data plus block j - 1 of the data. */
  lemma {:induction false} DecryptedBlock(dk: KeySchedule, iv: State, data: seq<bv8>, j: nat)
    requires 16 * (j + 1) <= |data|
    ensures var last := if j == 0 then iv else BlockAt(data, 16 * (j - 1));
            BlockAt(Decrypt(dk, iv, data), 16 * j) == AddState(last, EqInvCipher(dk, BlockAt(data, 16 * j)))
    decreases j
  {
    hide EqInvCipher, AddState, BlockAt;
    var p := AddState(iv, EqInvCipher(dk, BlockAt(data, 0)));
    var rest := Decrypt(dk, BlockAt(data, 0), data[16..]);
    BlockOfBytes(p, rest);
    if j > 0 {
      DecryptedBlock(dk, BlockAt(data, 0), data[16..], j - 1);
      BlockOfTail(data, 16, 16 * (j - 1));
      BlockOfConcat(BytesOf(p), rest, 16 * j);
      if j > 1 { BlockOfTail(data, 16, 16 * (j - 2)); }
    }
  }

  /** The byte in row r and column c of a block is byte r + 4 * c of its sixteen. */
  lemma BlockBytes(b: seq<bv8>, p: nat, r: nat, c: nat)
    requires p + 16 <= |b| && r < 4 && c < 4
    ensures ByteOf(BlockAt(b, p), r, c) == b[p + r + 4 * c]
  {
    assert c == 0 || c == 1 || c == 2 || c == 3;
  }

  /** What both functions return (Aes.h:40-44): the bytes converted, or the size one block needs. */
  function Converted(size: nat): nat {
    if size == 0 then 0 else if size < AES_BLOCK_SIZE then AES_BLOCK_SIZE else size - size % AES_BLOCK_SIZE
  }

  /** All whole blocks are converted, and a size too small for one asks for one. */
  lemma ConvertedExactly(size: nat)
    ensures var r := Converted(size);
            r % 16 == 0 && (r <= size < r + 16 || (0 < size < 16 && r == 16))
  {}

  // ----- the buffer functions -----

  /** The buffer d with b written over the bytes from p on. */
  function Splice(d: seq<bv8>, p: nat, b: seq<bv8>): (r: seq<bv8>)
    requires p + |b| <= |d|
    ensures |r| == |d|
  {
    d[..p] + b + d[p + |b|..]
  }

  lemma SpliceTwice(d: seq<bv8>, p: nat, b: seq<bv8>, c: seq<bv8>)
    requires p + |b| + |c| <= |d|
    ensures Splice(Splice(d, p, b), p + |b|, c) == Splice(d, p, b + c)
  {}

  lemma EncryptOne(ks: KeySchedule, iv: State, b: seq<bv8>)
    requires |b| == 16
    ensures Encrypt(ks, iv, b) == BytesOf(Cipher(ks, AddState(iv, BlockAt(b, 0))))
    ensures EncryptChain(ks, iv, b) == Cipher(ks, AddState(iv, BlockAt(b, 0)))
  {
    hide Cipher, AddState, BlockAt;
    assert b[16..] == [];
  }

  lemma DecryptOne(dk: KeySchedule, iv: State, b: seq<bv8>)
    requires |b| == 16
    ensures Decrypt(dk, iv, b) == BytesOf(AddState(iv, EqInvCipher(dk, BlockAt(b, 0))))
    ensures DecryptChain(iv, b) == BlockAt(b, 0)
  {
    hide EqInvCipher, AddState, BlockAt;
    assert b[16..] == [];
  }

  lemma EncryptShort(ks: KeySchedule, iv: State, b: seq<bv8>)
    ensures |b| < 16 ==> Encrypt(ks, iv, b) == b && EncryptChain(ks, iv, b) == iv
  {}

  lemma DecryptShort(dk: KeySchedule, iv: State, b: seq<bv8>)
    ensures |b| < 16 ==> Decrypt(dk, iv, b) == b && DecryptChain(iv, b) == iv
  {}

  lemma SpliceSame(d: seq<bv8>, p: nat, n: nat)
    requires p + n <= |d|
    ensures Splice(d, p, d[p..p + n]) == d
  {}

  lemma SliceOfSplice(d: seq<bv8>, p: nat, b: seq<bv8>, n: nat)
    requires p + |b| + n <= |d|
    ensures Splice(d, p, b)[p + |b|..p + |b| + n] == d[p + |b|..p + |b| + n]
  {}

  /** The block at p is the first block of the slice that starts at p. */
  lemma BlockOfSlice(d: seq<bv8>, p: nat)
    requires p + 16 <= |d|
    ensures BlockAt(d[p..p + 16], 0) == BlockAt(d, p)
  {}

  /** One more block: the buffer with i bytes done, and block p + i then replaced, is the buffer with i + 16 done. */
  lemma EncryptStep(ks: KeySchedule, iv: State, d: seq<bv8>, p: nat, i: nat)
    requires i % 16 == 0 && p + i + 16 <= |d|
    ensures var cur := Splice(d, p, Encrypt(ks, iv, d[p..p + i]));
            var chain := EncryptChain(ks, iv, d[p..p + i]);
            var c := BlockAt(cur, p + i);
            && Splice(cur, p + i, BytesOf(Cipher(ks, AddState(chain, c)))) == Splice(d, p, Encrypt(ks, iv, d[p..p + i + 16]))
            && EncryptChain(ks, iv, d[p..p + i + 16]) == Cipher(ks, AddState(chain, c))
  {
    hide Cipher, AddState, BytesOf, BlockAt, Splice, Encrypt, EncryptChain;
    var a, b := d[p..p + i], d[p + i..p + i + 16];
    var cur := Splice(d, p, Encrypt(ks, iv, a));
    var chain := EncryptChain(ks, iv, a);
    assert d[p..p + i + 16] == a + b;
    BlockOfSlice(cur, p + i);
    SliceOfSplice(d, p, Encrypt(ks, iv, a), 16);
    EncryptOne(ks, chain, b);
    EncryptSplit(ks, iv, a, b);
    SpliceTwice(d, p, Encrypt(ks, iv, a), Encrypt(ks, chain, b));
  }

  /** A last piece shorter than a block changes nothing. */
  lemma EncryptFinish(ks: KeySchedule, iv: State, d: seq<bv8>, p: nat, i: nat, n: nat)
    requires i % 16 == 0 && i <= n < i + 16 && p + n <= |d|
    ensures Splice(d, p, Encrypt(ks, iv, d[p..p + i])) == Splice(d, p, Encrypt(ks, iv, d[p..p + n]))
    ensures EncryptChain(ks, iv, d[p..p + i]) == EncryptChain(ks, iv, d[p..p + n])
  {
    hide Cipher, AddState, BytesOf, BlockAt, Splice, Encrypt, EncryptChain;
    var a, b := d[p..p + i], d[p + i..p + n];
    var cur := Splice(d, p, Encrypt(ks, iv, a));
    assert d[p..p + n] == a + b;
    EncryptSplit(ks, iv, a, b);
    EncryptShort(ks, EncryptChain(ks, iv, a), b);
    SliceOfSplice(d, p, Encrypt(ks, iv, a), n - i);
    SpliceTwice(d, p, Encrypt(ks, iv, a), b);
    SpliceSame(cur, p + i, n - i);
  }

  /** One more block: the buffer with i bytes done, and block p + i then replaced, is the buffer with i + 16 done. */
  lemma DecryptStep(dk: KeySchedule, iv: State, d: seq<bv8>, p: nat, i: nat)
    requires i % 16 == 0 && p + i + 16 <= |d|
    ensures var cur := Splice(d, p, Decrypt(dk, iv, d[p..p + i]));
            var chain := DecryptChain(iv, d[p..p + i]);
            var c := BlockAt(cur, p + i);
            && Splice(cur, p + i, BytesOf(AddState(chain, EqInvCipher(dk, c)))) == Splice(d, p, Decrypt(dk, iv, d[p..p + i + 16]))
            && DecryptChain(iv, d[p..p + i + 16]) == c
  {
    hide EqInvCipher, AddState, BytesOf, BlockAt, Splice, Decrypt, DecryptChain;
    var a, b := d[p..p + i], d[p + i..p + i + 16];
    var cur := Splice(d, p, Decrypt(dk, iv, a));
    var chain := DecryptChain(iv, a);
    assert d[p..p + i + 16] == a + b;
    BlockOfSlice(cur, p + i);
    SliceOfSplice(d, p, Decrypt(dk, iv, a), 16);
    DecryptOne(dk, chain, b);
    DecryptSplit(dk, iv, a, b);
    SpliceTwice(d, p, Decrypt(dk, iv, a), Decrypt(dk, chain, b));
  }

  /** A last piece shorter than a block changes nothing. */
  lemma DecryptFinish(dk: KeySchedule, iv: State, d: seq<bv8>, p: nat, i: nat, n: nat)
    requires i % 16 == 0 && i <= n < i + 16 && p + n <= |d|
    ensures Splice(d, p, Decrypt(dk, iv, d[p..p + i])) == Splice(d, p, Decrypt(dk, iv, d[p..p + n]))
    ensures DecryptChain(iv, d[p..p + i]) == DecryptChain(iv, d[p..p + n])
  {
    hide EqInvCipher, AddState, BytesOf, BlockAt, Splice, Decrypt, DecryptChain;
    var a, b := d[p..p + i], d[p + i..p + n];
    var cur := Splice(d, p, Decrypt(dk, iv, a));
    assert d[p..p + n] == a + b;
    DecryptSplit(dk, iv, a, b);
    DecryptShort(dk, DecryptChain(iv, a), b);
    SliceOfSplice(d, p, Decrypt(dk, iv, a), n - i);
    SpliceTwice(d, p, Decrypt(dk, iv, a), b);
    SpliceSame(cur, p + i, n - i);
  }

  /** Macro GetUi32 at data[p..p + 4]. */
  method GetUi32(data: array<bv8>, p: nat) returns (w: bv32)
    requires p + 4 <= data.Length
    ensures ColumnOf(w) == ColumnAt(data[..], p)
  {
    w := Ui32(data[p], data[p + 1], data[p + 2], data[p + 3]);
    ColumnOfUi32(data[p], data[p + 1], data[p + 2], data[p + 3]);
  }

  /** Macro SetUi32 at data[p..p + 4]. */
  method SetUi32(data: array<bv8>, p: nat, w: bv32)
    requires p + 4 <= data.Length
    modifies data
    ensures data[..] == Splice(old(data[..]), p, ColumnBytes(ColumnOf(w)))
  {
    data[p] := Gb0(w);
    data[p + 1] := Gb1(w);
    data[p + 2] := Gb2(w);
    data[p + 3] := Gb3(w);
  }

  /** Four words written to data[p..p + 16]. */
  method SetBlock(data: array<bv8>, p: nat, w0: bv32, w1: bv32, w2: bv32, w3: bv32)
    requires p + 16 <= data.Length
    modifies data
    ensures data[..] == Splice(old(data[..]), p, BytesOf(State(ColumnOf(w0), ColumnOf(w1), ColumnOf(w2), ColumnOf(w3))))
  {
    hide ColumnOf, Splice;
    ghost var d := data[..];
    ghost var b0, b1 := ColumnBytes(ColumnOf(w0)), ColumnBytes(ColumnOf(w1));
    ghost var b2, b3 := ColumnBytes(ColumnOf(w2)), ColumnBytes(ColumnOf(w3));
    SetUi32(data, p, w0);
    SetUi32(data, p + 4, w1);
    SpliceTwice(d, p, b0, b1);
    SetUi32(data, p + 8, w2);
    SpliceTwice(d, p, b0 + b1, b2);
    SetUi32(data, p + 12, w3);
    SpliceTwice(d, p, b0 + b1 + b2, b3);
  }

  class CAesCbc {
    const prev: array<bv32>
    const aes: CAes

    ghost predicate Shape()
      ensures Shape() ==> prev.Length == 4
    {
      prev.Length == 4 && aes.Shape() && prev != aes.rkey
    }

    /** The chaining value. */
    ghost function Chain(): State
      requires Shape()
      reads prev
    {
      StateAt(prev[..], 0)
    }

    constructor ()
      ensures Shape() && fresh(prev) && fresh(aes) && fresh(aes.rkey)
    {
      prev := new bv32[4](_ => 0);
      aes := new CAes();
    }

    method Init(iv: array<bv8>)
      requires Shape() && iv.Length == 16
      modifies prev
      ensures Chain() == BlockAt(iv[..], 0)
    {
      hide ColumnOf, ColumnAt;
      for i := 0 to 4
        invariant forall j | 0 <= j < i :: ColumnOf(prev[j]) == ColumnAt(iv[..], 4 * j)
      {
        prev[i] := GetUi32(iv, 4 * i);
      }
    }

    /** One iteration of the encoding loop, on data[p..p + 16]. */
    method EncodeBlock(t: Tables, data: array<bv8>, p: nat, ghost ks: KeySchedule)
      requires Shape() && aes.HasKeys(ks) && t.Ready() && prev != t.T && prev != t.D && data != t.InvS
      requires p + 16 <= data.Length
      modifies prev, data
      ensures Chain() == Cipher(ks, AddState(old(Chain()), BlockAt(old(data[..]), p)))
      ensures data[..] == Splice(old(data[..]), p, BytesOf(Chain()))
    {
      hide ColumnOf, Xor, AddColumn, Cipher, ColumnAt, KeysOf, t.Ready, Splice, BytesOf;
      var w0 := GetUi32(data, p);
      var w1 := GetUi32(data, p + 4);
      var w2 := GetUi32(data, p + 8);
      var w3 := GetUi32(data, p + 12);
      ColumnOfXor(prev[0], w0);
      ColumnOfXor(prev[1], w1);
      ColumnOfXor(prev[2], w2);
      ColumnOfXor(prev[3], w3);
      prev[0] := Xor(prev[0], w0);
      prev[1] := Xor(prev[1], w1);
      prev[2] := Xor(prev[2], w2);
      prev[3] := Xor(prev[3], w3);
      assert Chain() == AddState(old(Chain()), BlockAt(data[..], p));
      AesEncode32(t, prev, prev, aes.rkey, aes.numRounds2);
      SetBlock(data, p, prev[0], prev[1], prev[2], prev[3]);
    }

    /** One iteration of the decoding loop, on data[p..p + 16]. */
    method DecodeBlock(t: Tables, data: array<bv8>, p: nat, ghost dk: KeySchedule)
      requires Shape() && aes.HasKeys(dk) && t.Ready() && prev != t.T && prev != t.D && data != t.InvS
      requires p + 16 <= data.Length
      modifies prev, data
      ensures Chain() == BlockAt(old(data[..]), p)
      ensures data[..] == Splice(old(data[..]), p, BytesOf(AddState(old(Chain()), EqInvCipher(dk, BlockAt(old(data[..]), p)))))
    {
      hide ColumnOf, Xor, AddColumn, EqInvCipher, ColumnAt, KeysOf, t.Ready, Splice, BytesOf;
      var input := new bv32[4];
      var out := new bv32[4];
      input[0] := GetUi32(data, p);
      input[1] := GetUi32(data, p + 4);
      input[2] := GetUi32(data, p + 8);
      input[3] := GetUi32(data, p + 12);
      AesDecode32(t, out, input, aes.rkey, aes.numRounds2);
      ColumnOfXor(prev[0], out[0]);
      ColumnOfXor(prev[1], out[1]);
      ColumnOfXor(prev[2], out[2]);
      ColumnOfXor(prev[3], out[3]);
      SetBlock(data, p, Xor(prev[0], out[0]), Xor(prev[1], out[1]), Xor(prev[2], out[2]), Xor(prev[3], out[3]));
      prev[0] := input[0];
      prev[1] := input[1];
      prev[2] := input[2];
      prev[3] := input[3];
    }

    /** AesCbc_Encode on the `size` bytes of the buffer that start at p. */
    method Encode(t: Tables, data: array<bv8>, p: nat, size: nat, ghost ks: KeySchedule) returns (res: nat)
      requires Shape() && aes.HasKeys(ks) && t.Ready() && prev != t.T && prev != t.D && data != t.InvS
      requires p + size <= data.Length
      modifies prev, data
      ensures res == Converted(size)
      ensures data[..] == Splice(old(data[..]), p, Encrypt(ks, old(Chain()), old(data[p..p + size])))
      ensures Chain() == EncryptChain(ks, old(Chain()), old(data[p..p + size]))
    {
      hide Cipher, AddState, KeysOf, t.Ready, ColumnOf, BytesOf, BlockAt, Splice, Encrypt, EncryptChain, aes.HasKeys;
      ghost var before, iv := data[..], Chain();
      EncryptShort(ks, iv, before[p..p]);
      SpliceSame(before, p, 0);
      if size < AES_BLOCK_SIZE { EncryptFinish(ks, iv, before, p, 0, size); }
      if size == 0 { return 0; }
      if size < AES_BLOCK_SIZE { return AES_BLOCK_SIZE; }
      var limit := size - AES_BLOCK_SIZE;
      var i := 0;
      while i <= limit
        invariant 0 <= i <= size && i % 16 == 0
        invariant aes.HasKeys(ks) && t.Ready()
        invariant data[..] == Splice(before, p, Encrypt(ks, iv, before[p..p + i]))
        invariant Chain() == EncryptChain(ks, iv, before[p..p + i])
      {
        EncryptStep(ks, iv, before, p, i);
        EncodeBlock(t, data, p + i, ks);
        i := i + AES_BLOCK_SIZE;
      }
      EncryptFinish(ks, iv, before, p, i, size);
      return i;
    }

    /** AesCbc_Decode on the `size` bytes of the buffer that start at p. */
    method Decode(t: Tables, data: array<bv8>, p: nat, size: nat, ghost dk: KeySchedule) returns (res: nat)
      requires Shape() && aes.HasKeys(dk) && t.Ready() && prev != t.T && prev != t.D && data != t.InvS
      requires p + size <= data.Length
      modifies prev, data
      ensures res == Converted(size)
      ensures data[..] == Splice(old(data[..]), p, Decrypt(dk, old(Chain()), old(data[p..p + size])))
      ensures Chain() == DecryptChain(old(Chain()), old(data[p..p + size]))
    {
      hide EqInvCipher, AddState, KeysOf, t.Ready, ColumnOf, BytesOf, BlockAt, Splice, Decrypt, DecryptChain, aes.HasKeys;
      ghost var before, iv := data[..], Chain();
      DecryptShort(dk, iv, before[p..p]);
      SpliceSame(before, p, 0);
      if size < AES_BLOCK_SIZE { DecryptFinish(dk, iv, before, p, 0, size); }
      if size == 0 { return 0; }
      if size < AES_BLOCK_SIZE { return AES_BLOCK_SIZE; }
      var limit := size - AES_BLOCK_SIZE;
      var i := 0;
      while i <= limit
        invariant 0 <= i <= size && i % 16 == 0
        invariant aes.HasKeys(dk) && t.Ready()
        invariant data[..] == Splice(before, p, Decrypt(dk, iv, before[p..p + i]))
        invariant Chain() == DecryptChain(iv, before[p..p + i])
      {
        DecryptStep(dk, iv, before, p, i);
        DecodeBlock(t, data, p + i, dk);
        i := i + AES_BLOCK_SIZE;
      }
      DecryptFinish(dk, iv, before, p, i, size);
      return i;
    }
  }
}
