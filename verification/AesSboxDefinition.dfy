/** The substitution table agrees with its definition in section 5.1.1 of FIPS 197. */
module AesSboxDefinition {
  import opened AesField
  import opened AesSbox

  /** The affine transformation of section 5.1.1. */
  function Affine(b: bv8): bv8 {
    b ^ b.RotateLeft(1) ^ b.RotateLeft(2) ^ b.RotateLeft(3) ^ b.RotateLeft(4) ^ 0x63
  }

  function InvAffine(b: bv8): bv8 {
    b.RotateLeft(1) ^ b.RotateLeft(3) ^ b.RotateLeft(6) ^ 0x05
  }

  lemma AffineInverse(b: bv8)
    ensures Affine(InvAffine(b)) == b
  {}

  function Pick(c: bv8, b: bv8): bv8 { if c & 1 != 0 then b else 0 }

  /** The product with its recursion unrolled. */
  function Unrolled(c: bv8, b: bv8): bv8 {
    var b1 := Xtime(b); var b2 := Xtime(b1); var b3 := Xtime(b2); var b4 := Xtime(b3);
    var b5 := Xtime(b4); var b6 := Xtime(b5); var b7 := Xtime(b6);
    Add(Pick(c, b), Add(Pick(c >> 1, b1), Add(Pick(c >> 2, b2), Add(Pick(c >> 3, b3),
    Add(Pick(c >> 4, b4), Add(Pick(c >> 5, b5), Add(Pick(c >> 6, b6), Pick(c >> 7, b7))))))))
  }

  lemma UnrolledIsMul(c: bv8, b: bv8)
    ensures Mul(c, b) == Unrolled(c, b)
  {
    hide Add, Xtime;
    var b1 := Xtime(b); var b2 := Xtime(b1); var b3 := Xtime(b2); var b4 := Xtime(b3);
    var b5 := Xtime(b4); var b6 := Xtime(b5); var b7 := Xtime(b6);
    AddZero(Pick(c >> 7, b7));
    assert PartialProduct(c >> 7, b7, 1) == Pick(c >> 7, b7);
    assert (c >> 6) >> 1 == c >> 7;
    assert PartialProduct(c >> 6, b6, 2) == Add(Pick(c >> 6, b6), PartialProduct(c >> 7, b7, 1));
    assert (c >> 5) >> 1 == c >> 6;
    assert PartialProduct(c >> 5, b5, 3) == Add(Pick(c >> 5, b5), PartialProduct(c >> 6, b6, 2));
    assert (c >> 4) >> 1 == c >> 5;
    assert PartialProduct(c >> 4, b4, 4) == Add(Pick(c >> 4, b4), PartialProduct(c >> 5, b5, 3));
    assert (c >> 3) >> 1 == c >> 4;
    assert PartialProduct(c >> 3, b3, 5) == Add(Pick(c >> 3, b3), PartialProduct(c >> 4, b4, 4));
    assert (c >> 2) >> 1 == c >> 3;
    assert PartialProduct(c >> 2, b2, 6) == Add(Pick(c >> 2, b2), PartialProduct(c >> 3, b3, 5));
    assert (c >> 1) >> 1 == c >> 2;
    assert PartialProduct(c >> 1, b1, 7) == Add(Pick(c >> 1, b1), PartialProduct(c >> 2, b2, 6));
  }

  lemma Row0(b: bv8)
    requires b >> 4 == 0x0
    ensures if b == 0 then Sbox(b) == 0x63 else Unrolled(b, InvAffine(Sbox(b))) == 1
  {}

  lemma Row1(b: bv8)
    requires b >> 4 == 0x1
    ensures if b == 0 then Sbox(b) == 0x63 else Unrolled(b, InvAffine(Sbox(b))) == 1
  {}

  lemma Row2(b: bv8)
    requires b >> 4 == 0x2
    ensures if b == 0 then Sbox(b) == 0x63 else Unrolled(b, InvAffine(Sbox(b))) == 1
  {}

  lemma Row3(b: bv8)
    requires b >> 4 == 0x3
    ensures if b == 0 then Sbox(b) == 0x63 else Unrolled(b, InvAffine(Sbox(b))) == 1
  {}

  lemma Row4(b: bv8)
    requires b >> 4 == 0x4
    ensures if b == 0 then Sbox(b) == 0x63 else Unrolled(b, InvAffine(Sbox(b))) == 1
  {}

  lemma Row5(b: bv8)
    requires b >> 4 == 0x5
    ensures if b == 0 then Sbox(b) == 0x63 else Unrolled(b, InvAffine(Sbox(b))) == 1
  {}

  lemma Row6(b: bv8)
    requires b >> 4 == 0x6
    ensures if b == 0 then Sbox(b) == 0x63 else Unrolled(b, InvAffine(Sbox(b))) == 1
  {}

  lemma Row7(b: bv8)
    requires b >> 4 == 0x7
    ensures if b == 0 then Sbox(b) == 0x63 else Unrolled(b, InvAffine(Sbox(b))) == 1
  {}

  lemma Row8(b: bv8)
    requires b >> 4 == 0x8
    ensures if b == 0 then Sbox(b) == 0x63 else Unrolled(b, InvAffine(Sbox(b))) == 1
  {}

  lemma Row9(b: bv8)
    requires b >> 4 == 0x9
    ensures if b == 0 then Sbox(b) == 0x63 else Unrolled(b, InvAffine(Sbox(b))) == 1
  {}

  lemma RowA(b: bv8)
    requires b >> 4 == 0xa
    ensures if b == 0 then Sbox(b) == 0x63 else Unrolled(b, InvAffine(Sbox(b))) == 1
  {}

  lemma RowB(b: bv8)
    requires b >> 4 == 0xb
    ensures if b == 0 then Sbox(b) == 0x63 else Unrolled(b, InvAffine(Sbox(b))) == 1
  {}

  lemma RowC(b: bv8)
    requires b >> 4 == 0xc
    ensures if b == 0 then Sbox(b) == 0x63 else Unrolled(b, InvAffine(Sbox(b))) == 1
  {}

  lemma RowD(b: bv8)
    requires b >> 4 == 0xd
    ensures if b == 0 then Sbox(b) == 0x63 else Unrolled(b, InvAffine(Sbox(b))) == 1
  {}

  lemma RowE(b: bv8)
    requires b >> 4 == 0xe
    ensures if b == 0 then Sbox(b) == 0x63 else Unrolled(b, InvAffine(Sbox(b))) == 1
  {}

  lemma RowF(b: bv8)
    requires b >> 4 == 0xf
    ensures if b == 0 then Sbox(b) == 0x63 else Unrolled(b, InvAffine(Sbox(b))) == 1
  {}

  /** The multiplicative inverse of a byte, with 0 sent to 0. */
  ghost predicate IsFieldInverse(b: bv8, c: bv8) {
    if b == 0 then c == 0 else Mul(b, c) == 1
  }

  /** Every entry of the table is the affine image of the inverse of its index. */
  lemma SboxIsAffineOfInverse(b: bv8)
    ensures IsFieldInverse(b, InvAffine(Sbox(b)))
    ensures Sbox(b) == Affine(InvAffine(Sbox(b)))
  {
    hide Mul, Sbox, Unrolled;
    AffineInverse(Sbox(b));
    UnrolledIsMul(b, InvAffine(Sbox(b)));
    match b >> 4
    case 0x0 => Row0(b);
    case 0x1 => Row1(b);
    case 0x2 => Row2(b);
    case 0x3 => Row3(b);
    case 0x4 => Row4(b);
    case 0x5 => Row5(b);
    case 0x6 => Row6(b);
    case 0x7 => Row7(b);
    case 0x8 => Row8(b);
    case 0x9 => Row9(b);
    case 0xa => RowA(b);
    case 0xb => RowB(b);
    case 0xc => RowC(b);
    case 0xd => RowD(b);
    case 0xe => RowE(b);
    case _ => RowF(b);
  }
}
