/** Bytes, words and columns: the macros of Aes.c over the field GF(2^8) of FIPS 197, section 4. */
module AesField {

  /** One column of the AES state; `b0` is row 0. */
  datatype Column = Column(b0: bv8, b1: bv8, b2: bv8, b3: bv8)

  // ----- little-endian words -----

  function Ui32(a0: bv8, a1: bv8, a2: bv8, a3: bv8): bv32 {
    (a0 as bv32) | ((a1 as bv32) << 8) | ((a2 as bv32) << 16) | ((a3 as bv32) << 24)
  }

  function Gb0(x: bv32): bv8 { (x & 0xFF) as bv8 }

  function Gb1(x: bv32): bv8 { ((x >> 8) & 0xFF) as bv8 }

  function Gb2(x: bv32): bv8 { ((x >> 16) & 0xFF) as bv8 }

  function Gb3(x: bv32): bv8 { ((x >> 24) & 0xFF) as bv8 }

  function Xor(x: bv32, y: bv32): bv32 { x ^ y }

  /** The column held by a word. */
  function ColumnOf(w: bv32): Column { Column(Gb0(w), Gb1(w), Gb2(w), Gb3(w)) }

  function WordOf(c: Column): bv32 { Ui32(c.b0, c.b1, c.b2, c.b3) }

  lemma ColumnOfUi32(a0: bv8, a1: bv8, a2: bv8, a3: bv8)
    ensures ColumnOf(Ui32(a0, a1, a2, a3)) == Column(a0, a1, a2, a3)
  {}

  // ----- the field -----

  /** Addition in the field (FIPS 197, section 4.1). */
  function Add(a: bv8, b: bv8): bv8 { a ^ b }

  /** Multiplication by x (FIPS 197, section 4.2.1). */
  function Xtime(b: bv8): bv8 {
    if b & 0x80 != 0 then (b << 1) ^ 0x1B else b << 1
  }

  /** The sum of b * x^k over the bits k < n set in c. */
  function PartialProduct(c: bv8, b: bv8, n: nat): bv8
    decreases n
  {
    if n == 0 then 0 else Add(if c & 1 != 0 then b else 0, PartialProduct(c >> 1, Xtime(b), n - 1))
  }

  /** The product c * b of FIPS 197, section 4.2. */
  function Mul(c: bv8, b: bv8): bv8 { PartialProduct(c, b, 8) }

  function AddColumn(a: Column, b: Column): Column {
    Column(Add(a.b0, b.b0), Add(a.b1, b.b1), Add(a.b2, b.b2), Add(a.b3, b.b3))
  }

  /** One row of a matrix applied to a column. */
  function Row(k0: bv8, k1: bv8, k2: bv8, k3: bv8, c: Column): bv8 {
    Add(Add(Add(Mul(k0, c.b0), Mul(k1, c.b1)), Mul(k2, c.b2)), Mul(k3, c.b3))
  }

  /** FIPS 197, section 5.1.3. */
  function MixColumn(c: Column): Column {
    Column(Row(2, 3, 1, 1, c), Row(1, 2, 3, 1, c), Row(1, 1, 2, 3, c), Row(3, 1, 1, 2, c))
  }

  /** FIPS 197, section 5.3.3. */
  function InvMixColumn(c: Column): Column {
    Column(Row(0x0e, 0x0b, 0x0d, 0x09, c), Row(0x09, 0x0e, 0x0b, 0x0d, c),
           Row(0x0d, 0x09, 0x0e, 0x0b, c), Row(0x0b, 0x0d, 0x09, 0x0e, c))
  }

  // ----- addition -----

  lemma ColumnOfXor(x: bv32, y: bv32)
    ensures ColumnOf(Xor(x, y)) == AddColumn(ColumnOf(x), ColumnOf(y))
  {}

  lemma AddZero(a: bv8)
    ensures Add(a, 0) == a && Add(0, a) == a && Add(a, a) == 0
  {}

  lemma AddCommutes(a: bv8, b: bv8)
    ensures Add(a, b) == Add(b, a)
  {}

  lemma AddAssociates(a: bv8, b: bv8, c: bv8)
    ensures Add(Add(a, b), c) == Add(a, Add(b, c))
  {}

  lemma Medial(a: bv8, b: bv8, c: bv8, d: bv8)
    ensures Add(Add(a, b), Add(c, d)) == Add(Add(a, c), Add(b, d))
  {
    AddAssociates(a, b, Add(c, d));
    AddAssociates(b, c, d);
    AddCommutes(b, c);
    AddAssociates(c, b, d);
    AddAssociates(a, c, Add(b, d));
  }

  lemma AddCancels(a: bv8, b: bv8)
    ensures Add(Add(a, b), b) == a
  {}

  lemma AddColumnCancels(a: Column, b: Column)
    ensures AddColumn(AddColumn(a, b), b) == a
  {
    AddCancels(a.b0, b.b0);
    AddCancels(a.b1, b.b1);
    AddCancels(a.b2, b.b2);
    AddCancels(a.b3, b.b3);
  }

  // ----- multiplication -----

  lemma XtimeDistributes(a: bv8, b: bv8)
    ensures Xtime(Add(a, b)) == Add(Xtime(a), Xtime(b))
  {
    if a & 0x80 != 0 {
      if b & 0x80 != 0 {} else {}
    } else {
      if b & 0x80 != 0 {} else {}
    }
  }

  lemma {:induction false} PartialProductDistributes(c: bv8, a: bv8, b: bv8, n: nat)
    ensures PartialProduct(c, Add(a, b), n) == Add(PartialProduct(c, a, n), PartialProduct(c, b, n))
    decreases n
  {
    AddZero(0);
    if n > 0 {
      XtimeDistributes(a, b);
      PartialProductDistributes(c >> 1, Xtime(a), Xtime(b), n - 1);
      var p, q := PartialProduct(c >> 1, Xtime(a), n - 1), PartialProduct(c >> 1, Xtime(b), n - 1);
      Medial(a, b, p, q);
      Medial(0, 0, p, q);
    }
  }

  /** Multiplication distributes over addition, for every multiplier. */
  lemma MulDistributes(c: bv8, a: bv8, b: bv8)
    ensures Mul(c, Add(a, b)) == Add(Mul(c, a), Mul(c, b))
  {
    PartialProductDistributes(c, a, b, 8);
  }

  lemma RowDistributes(k0: bv8, k1: bv8, k2: bv8, k3: bv8, c: Column, d: Column)
    ensures Row(k0, k1, k2, k3, AddColumn(c, d)) == Add(Row(k0, k1, k2, k3, c), Row(k0, k1, k2, k3, d))
  {
    var p0, p1, p2, p3 := Mul(k0, c.b0), Mul(k1, c.b1), Mul(k2, c.b2), Mul(k3, c.b3);
    var q0, q1, q2, q3 := Mul(k0, d.b0), Mul(k1, d.b1), Mul(k2, d.b2), Mul(k3, d.b3);
    MulDistributes(k0, c.b0, d.b0);
    MulDistributes(k1, c.b1, d.b1);
    MulDistributes(k2, c.b2, d.b2);
    MulDistributes(k3, c.b3, d.b3);
    Medial(p0, q0, p1, q1);
    Medial(Add(p0, p1), Add(q0, q1), p2, q2);
    Medial(Add(Add(p0, p1), p2), Add(Add(q0, q1), q2), p3, q3);
  }

  lemma MixColumnDistributes(c: Column, d: Column)
    ensures MixColumn(AddColumn(c, d)) == AddColumn(MixColumn(c), MixColumn(d))
  {
    RowDistributes(2, 3, 1, 1, c, d);
    RowDistributes(1, 2, 3, 1, c, d);
    RowDistributes(1, 1, 2, 3, c, d);
    RowDistributes(3, 1, 1, 2, c, d);
  }

  /** InvMixColumns is linear: the fact that lets the decryption keys be transformed in advance. */
  lemma InvMixColumnDistributes(c: Column, d: Column)
    ensures InvMixColumn(AddColumn(c, d)) == AddColumn(InvMixColumn(c), InvMixColumn(d))
  {
    RowDistributes(0x0e, 0x0b, 0x0d, 0x09, c, d);
    RowDistributes(0x09, 0x0e, 0x0b, 0x0d, c, d);
    RowDistributes(0x0d, 0x09, 0x0e, 0x0b, c, d);
    RowDistributes(0x0b, 0x0d, 0x09, 0x0e, c, d);
  }

  // ----- the six multipliers of the cipher -----

  lemma {:induction false} ZeroTimes(b: bv8, n: nat)
    ensures PartialProduct(0, b, n) == 0
    decreases n
  {
    AddZero(0);
    if n > 0 { ZeroTimes(Xtime(b), n - 1); }
  }

  lemma {:induction false} TimesZero(c: bv8, n: nat)
    ensures PartialProduct(c, 0, n) == 0
    decreases n
  {
    AddZero(0);
    if n > 0 { TimesZero(c >> 1, n - 1); }
  }

  lemma OneTimes(b: bv8, n: nat)
    requires n > 0
    ensures PartialProduct(1, b, n) == b
  {
    ZeroTimes(Xtime(b), n - 1);
    AddZero(b);
  }

  /** One step of the product: the lowest bit of the multiplier is peeled off. */
  lemma Peel(c: bv8, b: bv8, n: nat)
    requires n > 0
    ensures var rest := PartialProduct(c >> 1, Xtime(b), n - 1);
            PartialProduct(c, b, n) == if c & 1 != 0 then Add(b, rest) else rest
  {
    AddZero(PartialProduct(c >> 1, Xtime(b), n - 1));
  }

  /** The products of Aes.c:60-66, for every byte. */
  lemma SmallProducts(b: bv8)
    ensures var b2 := Xtime(b); var b4 := Xtime(b2); var b8 := Xtime(b4);
            && Mul(1, b) == b && Mul(2, b) == b2 && Mul(3, b) == Add(b, b2)
            && Mul(0x09, b) == Add(b, b8) && Mul(0x0b, b) == Add(b, Add(b2, b8))
            && Mul(0x0d, b) == Add(b, Add(b4, b8)) && Mul(0x0e, b) == Add(b2, Add(b4, b8))
  {
    var b2 := Xtime(b);
    var b4 := Xtime(b2);
    var b8 := Xtime(b4);
    OneTimes(b, 8); OneTimes(b2, 7); OneTimes(b4, 6); OneTimes(b8, 5);
    Peel(2, b, 8);
    Peel(3, b, 8);
    Peel(2, b4, 6);
    Peel(3, b4, 6);
    Peel(4, b2, 7);
    Peel(5, b2, 7);
    Peel(6, b2, 7);
    Peel(7, b2, 7);
    Peel(0x09, b, 8);
    Peel(0x0b, b, 8);
    Peel(0x0d, b, 8);
    Peel(0x0e, b, 8);
  }

  // ----- InvMixColumn inverts MixColumn -----

  function Sum4(a: bv8, b: bv8, c: bv8, d: bv8): bv8 { Add(Add(Add(a, b), c), d) }

  lemma SumRotates(a: bv8, b: bv8, c: bv8, d: bv8)
    ensures Sum4(d, a, b, c) == Sum4(a, b, c, d)
  {
    AddAssociates(d, a, b);
    AddAssociates(d, Add(a, b), c);
    AddCommutes(d, Add(Add(a, b), c));
  }

  function Rotate(c: Column): Column { Column(c.b3, c.b0, c.b1, c.b2) }

  lemma RowRotates(k0: bv8, k1: bv8, k2: bv8, k3: bv8, c: Column)
    ensures Row(k0, k1, k2, k3, Rotate(c)) == Row(k1, k2, k3, k0, c)
  {
    SumRotates(Mul(k1, c.b0), Mul(k2, c.b1), Mul(k3, c.b2), Mul(k0, c.b3));
  }

  lemma MixRotates(c: Column)
    ensures MixColumn(Rotate(c)) == Rotate(MixColumn(c))
    ensures InvMixColumn(Rotate(c)) == Rotate(InvMixColumn(c))
  {
    RowRotates(2, 3, 1, 1, c);
    RowRotates(1, 2, 3, 1, c);
    RowRotates(1, 1, 2, 3, c);
    RowRotates(3, 1, 1, 2, c);
    RowRotates(0x0e, 0x0b, 0x0d, 0x09, c);
    RowRotates(0x09, 0x0e, 0x0b, 0x0d, c);
    RowRotates(0x0d, 0x09, 0x0e, 0x0b, c);
    RowRotates(0x0b, 0x0d, 0x09, 0x0e, c);
  }

  // The four sums below are rows of the product of the two matrices, written out in powers of x.

  /** Two sums that share c: (a + (c + d)) + (b + (c + e)) = (a + d) + (b + e). */
  lemma Shared(a: bv8, b: bv8, c: bv8, d: bv8, e: bv8)
    ensures Add(Add(a, Add(c, d)), Add(b, Add(c, e))) == Add(Add(a, b), Add(d, e))
  {
    Medial(a, Add(c, d), b, Add(c, e));
    Medial(c, d, c, e);
    AddZero(c);
    AddZero(Add(d, e));
  }

  lemma Diagonal(b: bv8, b2: bv8, b4: bv8, b8: bv8, b16: bv8)
    ensures Sum4(Add(b4, Add(b8, b16)), Add(b, Add(b2, b8)), Add(b, Add(b4, b8)),
                 Add(Add(b, b8), Add(b2, b16))) == b
  {}

  lemma OffDiagonal1(b: bv8, b2: bv8, b4: bv8, b8: bv8, b16: bv8)
    ensures Sum4(Add(b2, b16), Add(b2, Add(b4, b8)), Add(b, Add(b2, b8)),
                 Add(Add(b, Add(b4, b8)), Add(b2, Add(b8, b16)))) == 0
  {}

  lemma OffDiagonal2(b: bv8, b2: bv8, b4: bv8, b8: bv8, b16: bv8)
    ensures Sum4(Add(b2, Add(b8, b16)), Add(b, b8), Add(b2, Add(b4, b8)),
                 Add(Add(b, Add(b2, b8)), Add(b2, Add(b4, b16)))) == 0
  {}

  lemma OffDiagonal3(b: bv8, b2: bv8, b4: bv8, b8: bv8, b16: bv8)
    ensures Sum4(Add(b2, Add(b4, b16)), Add(b, Add(b4, b8)), Add(b, b8),
                 Add(Add(b2, Add(b4, b8)), Add(b4, Add(b8, b16)))) == 0
  {
    Shared(b2, b, b4, b16, b8);                 // first two: (b2 + b) + (b16 + b8)
    Medial(b2, b, b16, b8);                     // = (b2 + b16) + (b + b8)
    AddCancels(Add(b2, b16), Add(b, b8));       // first three: b2 + b16
    var v := Add(b4, b8);
    AddAssociates(b4, b8, b16);
    AddAssociates(Add(b2, v), v, b16);
    AddCancels(b2, v);                          // last: b2 + b16
    AddZero(Add(b2, b16));
  }

  lemma UnmixUnit(b: bv8)
    ensures InvMixColumn(MixColumn(Column(b, 0, 0, 0))) == Column(b, 0, 0, 0)
  {
    var b2 := Xtime(b); var b4 := Xtime(b2); var b8 := Xtime(b4); var b16 := Xtime(b8);
    TimesZero(1, 8); TimesZero(2, 8); TimesZero(3, 8);
    AddZero(b); AddZero(b2); AddZero(Add(b, b2));
    SmallProducts(b);
    SmallProducts(b2);
    assert MixColumn(Column(b, 0, 0, 0)) == Column(b2, b, b, Add(b, b2));
    MulDistributes(0x09, b, b2); MulDistributes(0x0b, b, b2);
    MulDistributes(0x0d, b, b2); MulDistributes(0x0e, b, b2);
    Diagonal(b, b2, b4, b8, b16);
    OffDiagonal1(b, b2, b4, b8, b16);
    OffDiagonal2(b, b2, b4, b8, b16);
    OffDiagonal3(b, b2, b4, b8, b16);
  }

  lemma UnmixRotated(c: Column)
    requires InvMixColumn(MixColumn(c)) == c
    ensures InvMixColumn(MixColumn(Rotate(c))) == Rotate(c)
  {
    MixRotates(c);
    MixRotates(MixColumn(c));
  }

  lemma UnmixSum(c: Column, d: Column)
    requires InvMixColumn(MixColumn(c)) == c && InvMixColumn(MixColumn(d)) == d
    ensures InvMixColumn(MixColumn(AddColumn(c, d))) == AddColumn(c, d)
  {
    MixColumnDistributes(c, d);
    InvMixColumnDistributes(MixColumn(c), MixColumn(d));
  }

  /** InvMixColumns undoes MixColumns on every column. */
  lemma UnmixMix(c: Column)
    ensures InvMixColumn(MixColumn(c)) == c
  {
    UnmixUnit(c.b0);
    UnmixUnit(c.b1);
    UnmixUnit(c.b2);
    UnmixUnit(c.b3);
    var e0, e1 := Column(c.b0, 0, 0, 0), Column(0, c.b1, 0, 0);
    var e2, e3 := Column(0, 0, c.b2, 0), Column(0, 0, 0, c.b3);
    UnmixRotated(Column(c.b1, 0, 0, 0));
    UnmixRotated(Column(c.b2, 0, 0, 0));
    UnmixRotated(Rotate(Column(c.b2, 0, 0, 0)));
    UnmixRotated(Column(c.b3, 0, 0, 0));
    UnmixRotated(Rotate(Column(c.b3, 0, 0, 0)));
    UnmixRotated(Rotate(Rotate(Column(c.b3, 0, 0, 0))));
    AddZero(0); AddZero(c.b0); AddZero(c.b1); AddZero(c.b2); AddZero(c.b3);
    UnmixSum(e0, e1);
    UnmixSum(e2, e3);
    UnmixSum(AddColumn(e0, e1), AddColumn(e2, e3));
  }
}
