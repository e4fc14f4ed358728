// src/aes.c: the byte arithmetic of FIPS 197 and the two substitution tables.
module AesField {

  // Multiplication by x in GF(2^8), modulo x^8 + x^4 + x^3 + x + 1 (GfMultBy02).
  function XTime(b: bv8): bv8 {
    if b & 0x80 == 0 then b << 1 else (b << 1) ^ 0x1B
  }

  // Every bit of the result is the lowest bit of b.
  function Spread(b: bv8): bv8 {
    0 - (b & 1)
  }

  function Doubled(b: bv8): bv8 {
    (b << 1) ^ (0x1B & Spread(b >> 7))
  }

  // Multiplication in GF(2^8) (section 4.2 of FIPS 197), by Horner's rule over
  // the bits of the first factor, highest first.
  function Mul(c: bv8, b: bv8): bv8 {
    var r7 := b & Spread(c >> 7);
    var r6 := Doubled(r7) ^ (b & Spread(c >> 6));
    var r5 := Doubled(r6) ^ (b & Spread(c >> 5));
    var r4 := Doubled(r5) ^ (b & Spread(c >> 4));
    var r3 := Doubled(r4) ^ (b & Spread(c >> 3));
    var r2 := Doubled(r3) ^ (b & Spread(c >> 2));
    var r1 := Doubled(r2) ^ (b & Spread(c >> 1));
    Doubled(r1) ^ (b & Spread(c))
  }

  function Rotate(b: bv8, n: nat): bv8
    requires 0 < n < 8
  {
    (b << n) | (b >> (8 - n))
  }

  // The affine map of section 5.1.1 of FIPS 197 and its inverse.
  function Affine(b: bv8): bv8 {
    b ^ Rotate(b, 1) ^ Rotate(b, 2) ^ Rotate(b, 3) ^ Rotate(b, 4) ^ 0x63
  }

  function InvAffine(b: bv8): bv8 {
    Rotate(b, 1) ^ Rotate(b, 3) ^ Rotate(b, 6) ^ 0x05
  }

  function Pick(i: bv8, v0: bv8, v1: bv8, v2: bv8, v3: bv8, v4: bv8, v5: bv8, v6: bv8, v7: bv8,
                v8: bv8, v9: bv8, v10: bv8, v11: bv8, v12: bv8, v13: bv8, v14: bv8, v15: bv8): bv8 {
    if i == 0 then v0 else if i == 1 then v1 else if i == 2 then v2 else if i == 3 then v3 else
    if i == 4 then v4 else if i == 5 then v5 else if i == 6 then v6 else if i == 7 then v7 else
    if i == 8 then v8 else if i == 9 then v9 else if i == 10 then v10 else if i == 11 then v11 else
    if i == 12 then v12 else if i == 13 then v13 else if i == 14 then v14 else v15
  }

  function SBox(b: bv8): bv8 {
    if b < 0x10 then Pick(b & 0xF, 0x63, 0x7c, 0x77, 0x7b, 0xf2, 0x6b, 0x6f, 0xc5, 0x30, 0x01, 0x67, 0x2b, 0xfe, 0xd7, 0xab, 0x76) else
    if b < 0x20 then Pick(b & 0xF, 0xca, 0x82, 0xc9, 0x7d, 0xfa, 0x59, 0x47, 0xf0, 0xad, 0xd4, 0xa2, 0xaf, 0x9c, 0xa4, 0x72, 0xc0) else
    if b < 0x30 then Pick(b & 0xF, 0xb7, 0xfd, 0x93, 0x26, 0x36, 0x3f, 0xf7, 0xcc, 0x34, 0xa5, 0xe5, 0xf1, 0x71, 0xd8, 0x31, 0x15) else
    if b < 0x40 then Pick(b & 0xF, 0x04, 0xc7, 0x23, 0xc3, 0x18, 0x96, 0x05, 0x9a, 0x07, 0x12, 0x80, 0xe2, 0xeb, 0x27, 0xb2, 0x75) else
    if b < 0x50 then Pick(b & 0xF, 0x09, 0x83, 0x2c, 0x1a, 0x1b, 0x6e, 0x5a, 0xa0, 0x52, 0x3b, 0xd6, 0xb3, 0x29, 0xe3, 0x2f, 0x84) else
    if b < 0x60 then Pick(b & 0xF, 0x53, 0xd1, 0x00, 0xed, 0x20, 0xfc, 0xb1, 0x5b, 0x6a, 0xcb, 0xbe, 0x39, 0x4a, 0x4c, 0x58, 0xcf) else
    if b < 0x70 then Pick(b & 0xF, 0xd0, 0xef, 0xaa, 0xfb, 0x43, 0x4d, 0x33, 0x85, 0x45, 0xf9, 0x02, 0x7f, 0x50, 0x3c, 0x9f, 0xa8) else
    if b < 0x80 then Pick(b & 0xF, 0x51, 0xa3, 0x40, 0x8f, 0x92, 0x9d, 0x38, 0xf5, 0xbc, 0xb6, 0xda, 0x21, 0x10, 0xff, 0xf3, 0xd2) else
    if b < 0x90 then Pick(b & 0xF, 0xcd, 0x0c, 0x13, 0xec, 0x5f, 0x97, 0x44, 0x17, 0xc4, 0xa7, 0x7e, 0x3d, 0x64, 0x5d, 0x19, 0x73) else
    if b < 0xa0 then Pick(b & 0xF, 0x60, 0x81, 0x4f, 0xdc, 0x22, 0x2a, 0x90, 0x88, 0x46, 0xee, 0xb8, 0x14, 0xde, 0x5e, 0x0b, 0xdb) else
    if b < 0xb0 then Pick(b & 0xF, 0xe0, 0x32, 0x3a, 0x0a, 0x49, 0x06, 0x24, 0x5c, 0xc2, 0xd3, 0xac, 0x62, 0x91, 0x95, 0xe4, 0x79) else
    if b < 0xc0 then Pick(b & 0xF, 0xe7, 0xc8, 0x37, 0x6d, 0x8d, 0xd5, 0x4e, 0xa9, 0x6c, 0x56, 0xf4, 0xea, 0x65, 0x7a, 0xae, 0x08) else
    if b < 0xd0 then Pick(b & 0xF, 0xba, 0x78, 0x25, 0x2e, 0x1c, 0xa6, 0xb4, 0xc6, 0xe8, 0xdd, 0x74, 0x1f, 0x4b, 0xbd, 0x8b, 0x8a) else
    if b < 0xe0 then Pick(b & 0xF, 0x70, 0x3e, 0xb5, 0x66, 0x48, 0x03, 0xf6, 0x0e, 0x61, 0x35, 0x57, 0xb9, 0x86, 0xc1, 0x1d, 0x9e) else
    if b < 0xf0 then Pick(b & 0xF, 0xe1, 0xf8, 0x98, 0x11, 0x69, 0xd9, 0x8e, 0x94, 0x9b, 0x1e, 0x87, 0xe9, 0xce, 0x55, 0x28, 0xdf) else
    Pick(b & 0xF, 0x8c, 0xa1, 0x89, 0x0d, 0xbf, 0xe6, 0x42, 0x68, 0x41, 0x99, 0x2d, 0x0f, 0xb0, 0x54, 0xbb, 0x16)
  }

  function InvSBox(b: bv8): bv8 {
    if b < 0x10 then Pick(b & 0xF, 0x52, 0x09, 0x6a, 0xd5, 0x30, 0x36, 0xa5, 0x38, 0xbf, 0x40, 0xa3, 0x9e, 0x81, 0xf3, 0xd7, 0xfb) else
    if b < 0x20 then Pick(b & 0xF, 0x7c, 0xe3, 0x39, 0x82, 0x9b, 0x2f, 0xff, 0x87, 0x34, 0x8e, 0x43, 0x44, 0xc4, 0xde, 0xe9, 0xcb) else
    if b < 0x30 then Pick(b & 0xF, 0x54, 0x7b, 0x94, 0x32, 0xa6, 0xc2, 0x23, 0x3d, 0xee, 0x4c, 0x95, 0x0b, 0x42, 0xfa, 0xc3, 0x4e) else
    if b < 0x40 then Pick(b & 0xF, 0x08, 0x2e, 0xa1, 0x66, 0x28, 0xd9, 0x24, 0xb2, 0x76, 0x5b, 0xa2, 0x49, 0x6d, 0x8b, 0xd1, 0x25) else
    if b < 0x50 then Pick(b & 0xF, 0x72, 0xf8, 0xf6, 0x64, 0x86, 0x68, 0x98, 0x16, 0xd4, 0xa4, 0x5c, 0xcc, 0x5d, 0x65, 0xb6, 0x92) else
    if b < 0x60 then Pick(b & 0xF, 0x6c, 0x70, 0x48, 0x50, 0xfd, 0xed, 0xb9, 0xda, 0x5e, 0x15, 0x46, 0x57, 0xa7, 0x8d, 0x9d, 0x84) else
    if b < 0x70 then Pick(b & 0xF, 0x90, 0xd8, 0xab, 0x00, 0x8c, 0xbc, 0xd3, 0x0a, 0xf7, 0xe4, 0x58, 0x05, 0xb8, 0xb3, 0x45, 0x06) else
    if b < 0x80 then Pick(b & 0xF, 0xd0, 0x2c, 0x1e, 0x8f, 0xca, 0x3f, 0x0f, 0x02, 0xc1, 0xaf, 0xbd, 0x03, 0x01, 0x13, 0x8a, 0x6b) else
    if b < 0x90 then Pick(b & 0xF, 0x3a, 0x91, 0x11, 0x41, 0x4f, 0x67, 0xdc, 0xea, 0x97, 0xf2, 0xcf, 0xce, 0xf0, 0xb4, 0xe6, 0x73) else
    if b < 0xa0 then Pick(b & 0xF, 0x96, 0xac, 0x74, 0x22, 0xe7, 0xad, 0x35, 0x85, 0xe2, 0xf9, 0x37, 0xe8, 0x1c, 0x75, 0xdf, 0x6e) else
    if b < 0xb0 then Pick(b & 0xF, 0x47, 0xf1, 0x1a, 0x71, 0x1d, 0x29, 0xc5, 0x89, 0x6f, 0xb7, 0x62, 0x0e, 0xaa, 0x18, 0xbe, 0x1b) else
    if b < 0xc0 then Pick(b & 0xF, 0xfc, 0x56, 0x3e, 0x4b, 0xc6, 0xd2, 0x79, 0x20, 0x9a, 0xdb, 0xc0, 0xfe, 0x78, 0xcd, 0x5a, 0xf4) else
    if b < 0xd0 then Pick(b & 0xF, 0x1f, 0xdd, 0xa8, 0x33, 0x88, 0x07, 0xc7, 0x31, 0xb1, 0x12, 0x10, 0x59, 0x27, 0x80, 0xec, 0x5f) else
    if b < 0xe0 then Pick(b & 0xF, 0x60, 0x51, 0x7f, 0xa9, 0x19, 0xb5, 0x4a, 0x0d, 0x2d, 0xe5, 0x7a, 0x9f, 0x93, 0xc9, 0x9c, 0xef) else
    if b < 0xf0 then Pick(b & 0xF, 0xa0, 0xe0, 0x3b, 0x4d, 0xae, 0x2a, 0xf5, 0xb0, 0xc8, 0xeb, 0xbb, 0x3c, 0x83, 0x53, 0x99, 0x61) else
    Pick(b & 0xF, 0x17, 0x2b, 0x04, 0x7e, 0xba, 0x77, 0xd6, 0x26, 0xe1, 0x69, 0x14, 0x63, 0x55, 0x21, 0x0c, 0x7d)
  }

  lemma AffineInverse(b: bv8)
    ensures InvAffine(Affine(b)) == b && Affine(InvAffine(b)) == b
  {
  }

  lemma RestoredFrom0(b: bv8)
    requires b < 0x40
    ensures InvSBox(SBox(b)) == b
  {
  }

  lemma RestoredFrom1(b: bv8)
    requires 0x40 <= b < 0x80
    ensures InvSBox(SBox(b)) == b
  {
  }

  lemma RestoredFrom2(b: bv8)
    requires 0x80 <= b < 0xc0
    ensures InvSBox(SBox(b)) == b
  {
  }

  lemma RestoredFrom3(b: bv8)
    requires 0xc0 <= b
    ensures InvSBox(SBox(b)) == b
  {
  }

  lemma CoveredFrom0(b: bv8)
    requires b < 0x40
    ensures SBox(InvSBox(b)) == b
  {
  }

  lemma CoveredFrom1(b: bv8)
    requires 0x40 <= b < 0x80
    ensures SBox(InvSBox(b)) == b
  {
  }

  lemma CoveredFrom2(b: bv8)
    requires 0x80 <= b < 0xc0
    ensures SBox(InvSBox(b)) == b
  {
  }

  lemma CoveredFrom3(b: bv8)
    requires 0xc0 <= b
    ensures SBox(InvSBox(b)) == b
  {
  }

  lemma ReciprocalFrom0(b: bv8)
    requires 0 < b < 0x40
    ensures Mul(b, InvAffine(SBox(b))) == 1
  {
  }

  lemma ReciprocalFrom1(b: bv8)
    requires 0x40 <= b < 0x80
    ensures Mul(b, InvAffine(SBox(b))) == 1
  {
  }

  lemma ReciprocalFrom2(b: bv8)
    requires 0x80 <= b < 0xc0
    ensures Mul(b, InvAffine(SBox(b))) == 1
  {
  }

  lemma ReciprocalFrom3(b: bv8)
    requires 0xc0 <= b
    ensures Mul(b, InvAffine(SBox(b))) == 1
  {
  }

  // The table SBox holds what section 5.1.1 of FIPS 197 prescribes: the affine
  // image of the multiplicative inverse, zero counting as its own inverse.
  lemma SBoxIsFips(b: bv8)
    ensures SBox(0) == Affine(0)
    ensures b != 0 ==> Mul(b, InvAffine(SBox(b))) == 1
    ensures Affine(InvAffine(SBox(b))) == SBox(b)
  {
    AffineInverse(SBox(b));
    assert SBox(0) == Affine(0);
    hide SBox, Mul, Affine, InvAffine;
    if b == 0 { }
    else if b < 0x40 { ReciprocalFrom0(b); }
    else if b < 0x80 { ReciprocalFrom1(b); }
    else if b < 0xc0 { ReciprocalFrom2(b); }
    else { ReciprocalFrom3(b); }
  }

  // InvSBox undoes SBox.
  lemma SBoxRestored(b: bv8)
    ensures InvSBox(SBox(b)) == b
  {
    hide SBox, InvSBox;
    if b < 0x40 { RestoredFrom0(b); }
    else if b < 0x80 { RestoredFrom1(b); }
    else if b < 0xc0 { RestoredFrom2(b); }
    else { RestoredFrom3(b); }
  }

  // SBox undoes InvSBox.
  lemma SBoxCovered(b: bv8)
    ensures SBox(InvSBox(b)) == b
  {
    hide SBox, InvSBox;
    if b < 0x40 { CoveredFrom0(b); }
    else if b < 0x80 { CoveredFrom1(b); }
    else if b < 0xc0 { CoveredFrom2(b); }
    else { CoveredFrom3(b); }
  }

  // ---- Addition, and what it shares with multiplication.

  function Add(a: bv8, b: bv8): bv8 {
    a ^ b
  }

  function Sum4(a: bv8, b: bv8, c: bv8, d: bv8): bv8 {
    Add(Add(a, b), Add(c, d))
  }

  function XTime2(b: bv8): bv8 {
    XTime(XTime(b))
  }

  function XTime3(b: bv8): bv8 {
    XTime(XTime(XTime(b)))
  }

  lemma AddCommutes(a: bv8, b: bv8)
    ensures Add(a, b) == Add(b, a)
  {
  }

  lemma AddAssociates(a: bv8, b: bv8, c: bv8)
    ensures Add(Add(a, b), c) == Add(a, Add(b, c))
  {
  }

  lemma Swap(a: bv8, b: bv8, c: bv8, d: bv8)
    ensures Add(Add(a, b), Add(c, d)) == Add(Add(a, c), Add(b, d))
  {
    hide Add;
    AddAssociates(a, b, Add(c, d));
    AddAssociates(b, c, d);
    AddCommutes(b, c);
    AddAssociates(c, b, d);
    AddAssociates(a, c, Add(b, d));
  }

  lemma SumOfSums(a: bv8, b: bv8, c: bv8, d: bv8, w: bv8, x: bv8, y: bv8, z: bv8)
    ensures Add(Sum4(a, b, c, d), Sum4(w, x, y, z)) == Sum4(Add(a, w), Add(b, x), Add(c, y), Add(d, z))
  {
    hide Add;
    Swap(Add(a, b), Add(c, d), Add(w, x), Add(y, z));
    Swap(a, b, w, x);
    Swap(c, d, y, z);
  }

  lemma XTimeLinear(a: bv8, b: bv8)
    ensures XTime(Add(a, b)) == Add(XTime(a), XTime(b))
  {
    HighBitOfSum(a, b);
    ShiftedSum(a, b, if a & 0x80 == 0 then 0 else 0x1B, if b & 0x80 == 0 then 0 else 0x1B);
    Reduction(a);
    Reduction(b);
    Reduction(Add(a, b));
    hide XTime;
  }

  lemma Reduction(b: bv8)
    ensures XTime(b) == (b << 1) ^ (if b & 0x80 == 0 then 0 else 0x1B)
  {
  }

  lemma HighBitOfSum(a: bv8, b: bv8)
    ensures (a ^ b) & 0x80 == 0 <==> a & 0x80 == b & 0x80
    ensures a & 0x80 == 0 || a & 0x80 == 0x80
  {
  }

  lemma ShiftedSum(a: bv8, b: bv8, x: bv8, y: bv8)
    ensures ((a << 1) ^ x) ^ ((b << 1) ^ y) == ((a ^ b) << 1) ^ (x ^ y)
  {
  }

  lemma XTime2Linear(a: bv8, b: bv8)
    ensures XTime2(Add(a, b)) == Add(XTime2(a), XTime2(b))
  {
    hide XTime, Add;
    XTimeLinear(a, b);
    XTimeLinear(XTime(a), XTime(b));
  }

  lemma XTime3Linear(a: bv8, b: bv8)
    ensures XTime3(Add(a, b)) == Add(XTime3(a), XTime3(b))
  {
    hide XTime, Add;
    XTimeLinear(a, b);
    XTime2Linear(XTime(a), XTime(b));
  }

  // ---- The coefficients of the MixColumns matrices in powers of x.

  lemma MulByOne(b: bv8)
    ensures Mul(0x01, b) == b
  {
  }

  lemma MulByTwo(b: bv8)
    ensures Mul(0x02, b) == XTime(b)
  {
  }

  lemma MulByThree(b: bv8)
    ensures Mul(0x03, b) == Add(XTime(b), b)
  {
  }

  lemma MulByNine(b: bv8)
    ensures Mul(0x09, b) == Add(XTime3(b), b)
  {
  }

  lemma MulByEleven(b: bv8)
    ensures Mul(0x0b, b) == Add(XTime3(b), Add(XTime(b), b))
  {
  }

  lemma MulByThirteen(b: bv8)
    ensures Mul(0x0d, b) == Add(XTime3(b), Add(XTime2(b), b))
  {
  }

  lemma MulByFourteen(b: bv8)
    ensures Mul(0x0e, b) == Add(XTime3(b), Add(XTime2(b), XTime(b)))
  {
  }

  predicate MixCoefficient(k: bv8) {
    k in {0x01, 0x02, 0x03, 0x09, 0x0b, 0x0d, 0x0e}
  }

  lemma Coefficients(b: bv8)
    ensures Mul(0x01, b) == b
    ensures Mul(0x02, b) == XTime(b)
    ensures Mul(0x03, b) == Add(XTime(b), b)
    ensures Mul(0x09, b) == Add(XTime3(b), b)
    ensures Mul(0x0b, b) == Add(XTime3(b), Add(XTime(b), b))
    ensures Mul(0x0d, b) == Add(XTime3(b), Add(XTime2(b), b))
    ensures Mul(0x0e, b) == Add(XTime3(b), Add(XTime2(b), XTime(b)))
  {
    hide Mul, Add, XTime, XTime2, XTime3;
    MulByOne(b);
    MulByTwo(b);
    MulByThree(b);
    MulByNine(b);
    MulByEleven(b);
    MulByThirteen(b);
    MulByFourteen(b);
  }

  lemma MulLinear(k: bv8, a: bv8, b: bv8)
    requires MixCoefficient(k)
    ensures Mul(k, Add(a, b)) == Add(Mul(k, a), Mul(k, b))
  {
    hide Add, Mul, XTime3, XTime2, XTime;
    Coefficients(a);
    Coefficients(b);
    Coefficients(Add(a, b));
    XTimeLinear(a, b);
    XTime2Linear(a, b);
    XTime3Linear(a, b);
    var a1, a2, a3, b1, b2, b3 := XTime(a), XTime2(a), XTime3(a), XTime(b), XTime2(b), XTime3(b);
    Swap(a1, b1, a, b);
    Swap(a2, b2, a, b);
    Swap(a2, b2, a1, b1);
    Swap(a3, b3, a, b);
    Swap(a3, b3, Add(a1, a), Add(b1, b));
    Swap(a3, b3, Add(a2, a), Add(b2, b));
    Swap(a3, b3, Add(a2, a1), Add(b2, b1));
  }

  lemma MulSum(k: bv8, a: bv8, b: bv8, c: bv8, d: bv8)
    requires MixCoefficient(k)
    ensures Mul(k, Sum4(a, b, c, d)) == Sum4(Mul(k, a), Mul(k, b), Mul(k, c), Mul(k, d))
  {
    hide Add, Mul;
    MulLinear(k, Add(a, b), Add(c, d));
    MulLinear(k, a, b);
    MulLinear(k, c, d);
  }
}
