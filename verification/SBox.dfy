/** The byte substitution of AES (lib/lorawan_tools/AES-128_V10.c, FIPS 197 section 5.1.1). */
module SBox {
  import opened GaloisField

  /** One row of the substitution table; column 0 is the most significant byte. */
  function TableRow(row: bv8): bv128 {
    if row == 0x0 then 0x637C777BF26B6FC53001672BFED7AB76
    else if row == 0x1 then 0xCA82C97DFA5947F0ADD4A2AF9CA472C0
    else if row == 0x2 then 0xB7FD9326363FF7CC34A5E5F171D83115
    else if row == 0x3 then 0x04C723C31896059A071280E2EB27B275
    else if row == 0x4 then 0x09832C1A1B6E5AA0523BD6B329E32F84
    else if row == 0x5 then 0x53D100ED20FCB15B6ACBBE394A4C58CF
    else if row == 0x6 then 0xD0EFAAFB434D338545F9027F503C9FA8
    else if row == 0x7 then 0x51A3408F929D38F5BCB6DA2110FFF3D2
    else if row == 0x8 then 0xCD0C13EC5F974417C4A77E3D645D1973
    else if row == 0x9 then 0x60814FDC222A908846EEB814DE5E0BDB
    else if row == 0xA then 0xE0323A0A4906245CC2D3AC629195E479
    else if row == 0xB then 0xE7C8376D8DD54EA96C56F4EA657AAE08
    else if row == 0xC then 0xBA78252E1CA6B4C6E8DD741F4BBD8B8A
    else if row == 0xD then 0x703EB5664803F60E613557B986C11D9E
    else if row == 0xE then 0xE1F8981169D98E949B1E87E9CE5528DF
    else 0x8CA1890DBFE6426841992D0FB054BB16
  }

  /** Look the byte up by its upper nibble (row) and lower nibble (column). */
  function SubByte(b: bv8): bv8 {
    var row := (b >> 4) & 0x0F;
    var column := b & 0x0F;
    ((TableRow(row) << (8 * column)) >> 120) as bv8
  }

  /** The affine map of FIPS 197 section 5.1.1, and its inverse. */
  function Affine(b: bv8): bv8 {
    b ^ b.RotateLeft(1) ^ b.RotateLeft(2) ^ b.RotateLeft(3) ^ b.RotateLeft(4) ^ 0x63
  }

  function InverseAffine(b: bv8): bv8 {
    b.RotateLeft(1) ^ b.RotateLeft(3) ^ b.RotateLeft(6) ^ 0x05
  }

  /** The field inverse, read back out of the table; 0 stands for its own inverse. */
  function FieldInverse(b: bv8): bv8 {
    InverseAffine(SubByte(b))
  }

  /** FIPS 197 section 5.3.2: undo the affine map, then take the field inverse. */
  function InvSubByte(b: bv8): bv8 {
    FieldInverse(InverseAffine(b))
  }

  lemma AffineRoundTrip(b: bv8)
    ensures InverseAffine(Affine(b)) == b
    ensures Affine(InverseAffine(b)) == b
  {
  }

  // The facts about all bytes, a quarter at a time.

  lemma Inverse0(b: bv8)
    requires b >> 6 == 0
    ensures b != 0 ==> Mul(b, FieldInverse(b)) == 1
  {
    assert b != 0 ==> Reduce(PolynomialProduct(b, FieldInverse(b))) == 1;
  }

  lemma Inverse1(b: bv8)
    requires b >> 6 == 1
    ensures b != 0 ==> Mul(b, FieldInverse(b)) == 1
  {
    assert b != 0 ==> Reduce(PolynomialProduct(b, FieldInverse(b))) == 1;
  }

  lemma Inverse2(b: bv8)
    requires b >> 6 == 2
    ensures b != 0 ==> Mul(b, FieldInverse(b)) == 1
  {
    assert b != 0 ==> Reduce(PolynomialProduct(b, FieldInverse(b))) == 1;
  }

  lemma Inverse3(b: bv8)
    requires b >> 6 == 3
    ensures b != 0 ==> Mul(b, FieldInverse(b)) == 1
  {
    assert b != 0 ==> Reduce(PolynomialProduct(b, FieldInverse(b))) == 1;
  }

  lemma Involution0(b: bv8)
    requires b >> 6 == 0
    ensures FieldInverse(FieldInverse(b)) == b
  {
  }

  lemma Involution1(b: bv8)
    requires b >> 6 == 1
    ensures FieldInverse(FieldInverse(b)) == b
  {
  }

  lemma Involution2(b: bv8)
    requires b >> 6 == 2
    ensures FieldInverse(FieldInverse(b)) == b
  {
  }

  lemma Involution3(b: bv8)
    requires b >> 6 == 3
    ensures FieldInverse(FieldInverse(b)) == b
  {
  }

  lemma Quarters(b: bv8)
    ensures b >> 6 == 0 || b >> 6 == 1 || b >> 6 == 2 || b >> 6 == 3
  {
  }

  lemma FieldInverseIsInverse(b: bv8)
    ensures b != 0 ==> Mul(b, FieldInverse(b)) == 1
  {
    hide Mul, FieldInverse;
    Quarters(b);
    if b >> 6 == 0 {
      Inverse0(b);
    } else if b >> 6 == 1 {
      Inverse1(b);
    } else if b >> 6 == 2 {
      Inverse2(b);
    } else {
      Inverse3(b);
    }
  }

  lemma FieldInverseInvolution(b: bv8)
    ensures FieldInverse(FieldInverse(b)) == b
  {
    hide FieldInverse;
    Quarters(b);
    if b >> 6 == 0 {
      Involution0(b);
    } else if b >> 6 == 1 {
      Involution1(b);
    } else if b >> 6 == 2 {
      Involution2(b);
    } else {
      Involution3(b);
    }
  }

  /** Every table entry is the affine image of the inverse of its index. */
  lemma SubByteIsAffineOfInverse(b: bv8)
    ensures SubByte(b) == Affine(FieldInverse(b))
    ensures if b == 0 then FieldInverse(b) == 0 else Mul(b, FieldInverse(b)) == 1
  {
    AffineRoundTrip(SubByte(b));
    FieldInverseIsInverse(b);
  }

  lemma SubByteRoundTrip(b: bv8)
    ensures InvSubByte(SubByte(b)) == b
    ensures SubByte(InvSubByte(b)) == b
  {
    FieldInverseInvolution(b);
    FieldInverseInvolution(InverseAffine(b));
    AffineRoundTrip(b);
    AffineRoundTrip(SubByte(InvSubByte(b)));
  }
}
