/** The global tables of Aes.c. */
module AesTables {
  import opened AesField
  import opened AesSbox

  // ----- bytes as table indices -----

  function Index(b: bv8): (i: nat)
    ensures i < 256
  {
    b as int
  }

  function ByteAt(i: nat): bv8
    requires i < 256
  {
    i as bv8
  }

  lemma ByteAtIndex(b: bv8)
    ensures ByteAt(Index(b)) == b
  {}

  lemma Successor(b: bv8)
    requires b != 255
    ensures Index(b + 1) == Index(b) + 1
  {}

  /** Counting up reaches the byte with value i. */
  ghost function Nth(i: nat): (b: bv8)
    requires i < 256
    ensures Index(b) == i
  {
    if i == 0 then 0
    else
      Successor(Nth(i - 1));
      Nth(i - 1) + 1
  }

  lemma IndexByteAt(i: nat)
    requires i < 256
    ensures Index(ByteAt(i)) == i
  {
    hide Index, ByteAt;
    ByteAtIndex(Nth(i));
  }

  /** The array Sbox as it stands in Aes.c: entry i is the substitution of byte i. */
  function SboxArray(): (s: seq<bv8>)
    ensures |s| == 256
  {
    seq(256, i requires 0 <= i < 256 => Sbox(ByteAt(i)))
  }

  lemma SboxArrayInjective(i: nat, j: nat)
    requires i < 256 && j < 256 && SboxArray()[i] == SboxArray()[j]
    ensures i == j
  {
    SboxInverse(ByteAt(i));
    SboxInverse(ByteAt(j));
    IndexByteAt(i);
    IndexByteAt(j);
  }

  // ----- what the tables must hold -----

  /** Column x of the MixColumns matrix times s. */
  function MixTerm(x: nat, s: bv8): Column {
    match x
    case 0 => Column(Mul(2, s), Mul(1, s), Mul(1, s), Mul(3, s))
    case 1 => Column(Mul(3, s), Mul(2, s), Mul(1, s), Mul(1, s))
    case 2 => Column(Mul(1, s), Mul(3, s), Mul(2, s), Mul(1, s))
    case _ => Column(Mul(1, s), Mul(1, s), Mul(3, s), Mul(2, s))
  }

  /** Column x of the InvMixColumns matrix times s. */
  function InvMixTerm(x: nat, s: bv8): Column {
    match x
    case 0 => Column(Mul(0x0e, s), Mul(0x09, s), Mul(0x0d, s), Mul(0x0b, s))
    case 1 => Column(Mul(0x0b, s), Mul(0x0e, s), Mul(0x09, s), Mul(0x0d, s))
    case 2 => Column(Mul(0x0d, s), Mul(0x0b, s), Mul(0x0e, s), Mul(0x09, s))
    case _ => Column(Mul(0x09, s), Mul(0x0d, s), Mul(0x0b, s), Mul(0x0e, s))
  }

  function MixWord(x: nat, s: bv8): bv32 { WordOf(MixTerm(x, s)) }

  function InvMixWord(x: nat, s: bv8): bv32 { WordOf(InvMixTerm(x, s)) }

  /** The first n entries of each of the four quarters of `table` hold the words of `bytes`. */
  ghost predicate Filled(table: seq<bv32>, bytes: seq<bv8>, n: nat, word: (nat, bv8) -> bv32)
    requires |table| == 1024 && n <= 256 <= |bytes|
  {
    forall i | 0 <= i < n ::
      && table[i] == word(0, bytes[i]) && table[0x100 + i] == word(1, bytes[i])
      && table[0x200 + i] == word(2, bytes[i]) && table[0x300 + i] == word(3, bytes[i])
  }

  function With4(table: seq<bv32>, i: nat, w0: bv32, w1: bv32, w2: bv32, w3: bv32): (r: seq<bv32>)
    requires |table| == 1024 && i < 256
    ensures |r| == 1024
  {
    table[i := w0][0x100 + i := w1][0x200 + i := w2][0x300 + i := w3]
  }

  lemma FilledOneMore(table: seq<bv32>, bytes: seq<bv8>, i: nat, word: (nat, bv8) -> bv32)
    requires |table| == 1024 && i < 256 == |bytes| && Filled(table, bytes, i, word)
    ensures var b := bytes[i];
            Filled(With4(table, i, word(0, b), word(1, b), word(2, b), word(3, b)), bytes, i + 1, word)
  {}

  lemma Reverse3(a: bv8, b: bv8, c: bv8)
    ensures Add(Add(a, b), c) == Add(c, Add(b, a))
  {
    AddCommutes(a, b);
    AddCommutes(c, Add(b, a));
  }

  /** The words of Aes.c:50-56 are the columns that section 5.1.3 of FIPS 197 asks for. */
  lemma TWords(a1: bv8)
    ensures var a2 := Xtime(a1); var a3 := Add(Xtime(a1), a1);
            && Ui32(a2, a1, a1, a3) == MixWord(0, a1)
            && Ui32(a3, a2, a1, a1) == MixWord(1, a1)
            && Ui32(a1, a3, a2, a1) == MixWord(2, a1)
            && Ui32(a1, a1, a3, a2) == MixWord(3, a1)
  {
    SmallProducts(a1);
    AddCommutes(a1, Xtime(a1));
  }

  /** The words of Aes.c:59-70 are the columns of section 5.3.3. */
  lemma DWords(a1: bv8)
    ensures var a2 := Xtime(a1); var a4 := Xtime(a2); var a8 := Xtime(a4);
            var a9 := Add(a8, a1); var aB := Add(Add(a8, a2), a1);
            var aD := Add(Add(a8, a4), a1); var aE := Add(Add(a8, a4), a2);
            && Ui32(aE, a9, aD, aB) == InvMixWord(0, a1)
            && Ui32(aB, aE, a9, aD) == InvMixWord(1, a1)
            && Ui32(aD, aB, aE, a9) == InvMixWord(2, a1)
            && Ui32(a9, aD, aB, aE) == InvMixWord(3, a1)
  {
    var a2 := Xtime(a1);
    var a4 := Xtime(a2);
    var a8 := Xtime(a4);
    SmallProducts(a1);
    AddCommutes(a1, a8);
    Reverse3(a8, a2, a1);
    Reverse3(a8, a4, a1);
    Reverse3(a8, a4, a2);
  }

  class Tables {
    const T: array<bv32>
    const D: array<bv32>
    const InvS: array<bv8>

    ghost predicate Shape() {
      T.Length == 1024 && D.Length == 1024 && InvS.Length == 256 && T != D
    }

    /** What GenTables establishes and every other function relies on. */
    ghost predicate Ready()
      reads T, D, InvS
      ensures Ready() ==> Shape()
    {
      && Shape()
      && (forall i | 0 <= i < 256 :: InvS[Index(SboxArray()[i])] == ByteAt(i))
      && Filled(T[..], SboxArray(), 256, MixWord)
      && Filled(D[..], InvS[..], 256, InvMixWord)
    }

    constructor ()
      ensures Shape() && fresh(T) && fresh(D) && fresh(InvS)
    {
      T := new bv32[1024](_ => 0);
      D := new bv32[1024](_ => 0);
      InvS := new bv8[256](_ => 0);
    }

    /** The first loop: invert a permutation of the bytes. */
    method Invert(sbox: seq<bv8>)
      requires Shape() && |sbox| == 256
      requires forall i, j | 0 <= i < 256 && 0 <= j < 256 && sbox[i] == sbox[j] :: i == j
      modifies InvS
      ensures forall i | 0 <= i < 256 :: InvS[Index(sbox[i])] == ByteAt(i)
    {
      for i := 0 to 256
        invariant forall j | 0 <= j < i :: InvS[Index(sbox[j])] == ByteAt(j)
      {
        forall j | 0 <= j < i
          ensures Index(sbox[j]) != Index(sbox[i])
        {
          ByteAtIndex(sbox[j]);
          ByteAtIndex(sbox[i]);
        }
        InvS[Index(sbox[i])] := ByteAt(i);
      }
    }

    method Set4(table: array<bv32>, i: nat, w0: bv32, w1: bv32, w2: bv32, w3: bv32)
      requires table.Length == 1024 && i < 256
      modifies table
      ensures table[..] == With4(old(table[..]), i, w0, w1, w2, w3)
    {
      table[i] := w0;
      table[0x100 + i] := w1;
      table[0x200 + i] := w2;
      table[0x300 + i] := w3;
    }

    method GenTables()
      requires Shape()
      modifies T, D, InvS
      ensures Ready()
    {
      var sbox := SboxArray();
      forall i, j | 0 <= i < 256 && 0 <= j < 256 && sbox[i] == sbox[j]
        ensures i == j
      {
        SboxArrayInjective(i, j);
      }
      Invert(sbox);
      for i := 0 to 256
        invariant forall j | 0 <= j < 256 :: InvS[Index(sbox[j])] == ByteAt(j)
        invariant Filled(T[..], sbox, i, MixWord)
        invariant Filled(D[..], InvS[..], i, InvMixWord)
      {
        {
          hide Xtime, Add, Ui32, MixWord, Index, ByteAt, With4, Filled;
          var a1 := sbox[i];
          var a2 := Xtime(a1);
          var a3 := Add(Xtime(a1), a1);
          TWords(a1);
          FilledOneMore(T[..], sbox, i, MixWord);
          Set4(T, i, Ui32(a2, a1, a1, a3), Ui32(a3, a2, a1, a1), Ui32(a1, a3, a2, a1), Ui32(a1, a1, a3, a2));
        }
        {
          hide Xtime, Add, Ui32, InvMixWord, Index, ByteAt, With4, Filled;
          var a1 := InvS[i];
          var a2 := Xtime(a1);
          var a4 := Xtime(a2);
          var a8 := Xtime(a4);
          var a9 := Add(a8, a1);
          var aB := Add(Add(a8, a2), a1);
          var aD := Add(Add(a8, a4), a1);
          var aE := Add(Add(a8, a4), a2);
          DWords(a1);
          FilledOneMore(D[..], InvS[..], i, InvMixWord);
          Set4(D, i, Ui32(aE, a9, aD, aB), Ui32(aB, aE, a9, aD), Ui32(aD, aB, aE, a9), Ui32(a9, aD, aB, aE));
        }
      }
    }
  }
}
