// src/aes.c: MixColumns and its doubling shortcut, against the matrices of
// FIPS 197.
module AesColumn {
  import opened AesField

  // One row of the circulant matrix of section 5.1.3 of FIPS 197, or of its
  // inverse in section 5.3.3, applied to a column read from byte a downwards.
  function MixByte(a: bv8, b: bv8, c: bv8, d: bv8, invert: bool): bv8 {
    if invert then Sum4(Mul(0x0e, a), Mul(0x0b, b), Mul(0x0d, c), Mul(0x09, d))
    else Sum4(Mul(0x02, a), Mul(0x03, b), Mul(0x01, c), Mul(0x01, d))
  }

  // What the source computes: one doubling, and to invert three more.
  function Total(a: bv8, b: bv8, c: bv8, d: bv8): bv8 {
    Add(Add(Add(a, b), c), d)
  }

  function Half(a: bv8, b: bv8, c: bv8, d: bv8): bv8 {
    Add(Add(Total(a, b, c, d), a), XTime(Add(a, b)))
  }

  function Correction(a: bv8, b: bv8, c: bv8, d: bv8): bv8 {
    var p, q := XTime(XTime(Add(a, c))), XTime(XTime(Add(b, d)));
    Add(XTime(Add(p, q)), p)
  }

  function Shortcut(a: bv8, b: bv8, c: bv8, d: bv8, invert: bool): bv8 {
    if invert then Add(Half(a, b, c, d), Correction(a, b, c, d)) else Half(a, b, c, d)
  }

  lemma AddTwice(a: bv8, b: bv8)
    ensures Add(Add(a, b), a) == b
  {
  }

  lemma HalfTerms(a: bv8, b: bv8, c: bv8, d: bv8)
    ensures Half(a, b, c, d) == Add(Add(b, Add(c, d)), XTime(Add(a, b)))
  {
    hide XTime, Add;
    AddAssociates(Add(a, b), c, d);
    AddAssociates(a, b, Add(c, d));
    AddTwice(a, Add(b, Add(c, d)));
  }

  // The column total and the two partial sums serve all four rows.
  lemma TotalRotates(a: bv8, b: bv8, c: bv8, d: bv8)
    ensures Total(b, c, d, a) == Total(a, b, c, d)
  {
    hide Add;
    AddCommutes(Add(Add(b, c), d), a);
    AddAssociates(b, c, d);
    AddAssociates(Add(a, b), c, d);
    AddAssociates(a, b, Add(c, d));
  }

  lemma CorrectionRotates(a: bv8, b: bv8, c: bv8, d: bv8)
    ensures var even, odd := XTime(XTime(Add(a, c))), XTime(XTime(Add(b, d)));
            && Correction(a, b, c, d) == Correction(c, d, a, b) == Add(XTime(Add(even, odd)), even)
            && Correction(b, c, d, a) == Correction(d, a, b, c) == Add(XTime(Add(even, odd)), odd)
  {
    hide Add, XTime;
    AddCommutes(a, c);
    AddCommutes(b, d);
    AddCommutes(XTime(XTime(Add(a, c))), XTime(XTime(Add(b, d))));
  }

  lemma ForwardIsMatrix(a: bv8, b: bv8, c: bv8, d: bv8)
    ensures Shortcut(a, b, c, d, false) == MixByte(a, b, c, d, false)
  {
    hide Add, Mul, XTime, Half;
    HalfTerms(a, b, c, d);
    Coefficients(a);
    Coefficients(b);
    Coefficients(c);
    Coefficients(d);
    XTimeLinear(a, b);
    AddAssociates(XTime(a), XTime(b), b);
    AddAssociates(Add(XTime(a), XTime(b)), b, Add(c, d));
    AddCommutes(XTime(Add(a, b)), Add(b, Add(c, d)));
  }

  lemma Regrouped(b: bv8, c: bv8, d: bv8, a1: bv8, a2: bv8, a3: bv8, b1: bv8, b3: bv8, c2: bv8, c3: bv8, d3: bv8)
    ensures Sum4(Add(a3, Add(a2, a1)), Add(b3, Add(b1, b)), Add(c3, Add(c2, c)), Add(d3, d))
            == Add(Add(Add(b, Add(c, d)), Add(a1, b1)), Add(Add(Add(a3, c3), Add(b3, d3)), Add(a2, c2)))
  {
    hide Add;
    var l, p, r, t := Add(a1, b1), Add(a2, c2), Add(Add(a3, c3), Add(b3, d3)), Add(b, Add(c, d));
    Swap(a3, Add(a2, a1), b3, Add(b1, b));
    Swap(c3, Add(c2, c), d3, d);
    Swap(Add(a3, b3), Add(Add(a2, a1), Add(b1, b)), Add(c3, d3), Add(Add(c2, c), d));
    Swap(a3, b3, c3, d3);
    AddAssociates(a2, a1, Add(b1, b));
    AddAssociates(a1, b1, b);
    AddAssociates(c2, c, d);
    Swap(a2, Add(l, b), c2, Add(c, d));
    AddAssociates(l, b, Add(c, d));
    AddAssociates(r, p, Add(l, t));
    AddCommutes(Add(r, p), Add(l, t));
    AddCommutes(l, t);
  }

  // The doubling shortcut of the inverse computes the inverse matrix.
  lemma InverseIsMatrix(a: bv8, b: bv8, c: bv8, d: bv8)
    ensures Shortcut(a, b, c, d, true) == MixByte(a, b, c, d, true)
  {
    hide Add, Mul, XTime, XTime3, Half, Correction, Sum4;
    HalfTerms(a, b, c, d);
    CorrectionTerms(a, b, c, d);
    Coefficients(a);
    Coefficients(b);
    Coefficients(c);
    Coefficients(d);
    XTimeLinear(a, b);
    XTime2Linear(a, c);
    XTimeLinear(XTime2(Add(a, c)), XTime2(Add(b, d)));
    Thrice(Add(a, c));
    Thrice(Add(b, d));
    XTime3Linear(a, c);
    XTime3Linear(b, d);
    Regrouped(b, c, d, XTime(a), XTime2(a), XTime3(a), XTime(b), XTime3(b), XTime2(c), XTime3(c), XTime3(d));
  }

  lemma CorrectionTerms(a: bv8, b: bv8, c: bv8, d: bv8)
    ensures var p, q := XTime2(Add(a, c)), XTime2(Add(b, d));
            Correction(a, b, c, d) == Add(XTime(Add(p, q)), p)
  {
    hide XTime, Add;
  }

  lemma Thrice(b: bv8)
    ensures XTime3(b) == XTime(XTime2(b))
  {
    hide XTime;
  }

  // Each entry of the product of the two matrices, column by column.
  lemma ProductDiagonal(b: bv8)
    ensures Sum4(Mul(0x0e, Mul(0x02, b)), Mul(0x0b, Mul(0x01, b)), Mul(0x0d, Mul(0x01, b)), Mul(0x09, Mul(0x03, b))) == b
  {
  }

  lemma ProductSecond(b: bv8)
    ensures Sum4(Mul(0x0e, Mul(0x03, b)), Mul(0x0b, Mul(0x02, b)), Mul(0x0d, Mul(0x01, b)), Mul(0x09, Mul(0x01, b))) == 0
  {
  }

  lemma ProductThird(b: bv8)
    ensures Sum4(Mul(0x0e, Mul(0x01, b)), Mul(0x0b, Mul(0x03, b)), Mul(0x0d, Mul(0x02, b)), Mul(0x09, Mul(0x01, b))) == 0
  {
  }

  lemma ProductFourth(b: bv8)
    ensures Sum4(Mul(0x0e, Mul(0x01, b)), Mul(0x0b, Mul(0x01, b)), Mul(0x0d, Mul(0x03, b)), Mul(0x09, Mul(0x02, b))) == 0
  {
  }

  lemma OtherDiagonal(b: bv8)
    ensures Sum4(Mul(0x02, Mul(0x0e, b)), Mul(0x03, Mul(0x09, b)), Mul(0x01, Mul(0x0d, b)), Mul(0x01, Mul(0x0b, b))) == b
  {
  }

  lemma OtherSecond(b: bv8)
    ensures Sum4(Mul(0x02, Mul(0x0b, b)), Mul(0x03, Mul(0x0e, b)), Mul(0x01, Mul(0x09, b)), Mul(0x01, Mul(0x0d, b))) == 0
  {
  }

  lemma OtherThird(b: bv8)
    ensures Sum4(Mul(0x02, Mul(0x0d, b)), Mul(0x03, Mul(0x0b, b)), Mul(0x01, Mul(0x0e, b)), Mul(0x01, Mul(0x09, b))) == 0
  {
  }

  lemma OtherFourth(b: bv8)
    ensures Sum4(Mul(0x02, Mul(0x09, b)), Mul(0x03, Mul(0x0d, b)), Mul(0x01, Mul(0x0b, b)), Mul(0x01, Mul(0x0e, b))) == 0
  {
  }

  lemma Transposed(a0: bv8, a1: bv8, a2: bv8, a3: bv8, b0: bv8, b1: bv8, b2: bv8, b3: bv8,
                   c0: bv8, c1: bv8, c2: bv8, c3: bv8, d0: bv8, d1: bv8, d2: bv8, d3: bv8)
    ensures Sum4(Sum4(a0, a1, a2, a3), Sum4(b0, b1, b2, b3), Sum4(c0, c1, c2, c3), Sum4(d0, d1, d2, d3))
            == Sum4(Sum4(a0, b0, c0, d0), Sum4(a1, b1, c1, d1), Sum4(a2, b2, c2, d2), Sum4(a3, b3, c3, d3))
  {
    hide Add;
    SumOfSums(a0, a1, a2, a3, b0, b1, b2, b3);
    SumOfSums(c0, c1, c2, c3, d0, d1, d2, d3);
    SumOfSums(Add(a0, b0), Add(a1, b1), Add(a2, b2), Add(a3, b3),
              Add(c0, d0), Add(c1, d1), Add(c2, d2), Add(c3, d3));
  }

  lemma SumOfOne(b: bv8)
    ensures Sum4(b, 0, 0, 0) == b
  {
  }

  // The two matrices are inverse to each other.
  lemma MixedBack(a: bv8, b: bv8, c: bv8, d: bv8)
    ensures MixByte(MixByte(a, b, c, d, false), MixByte(b, c, d, a, false),
                    MixByte(c, d, a, b, false), MixByte(d, a, b, c, false), true) == a
  {
    hide Mul, Sum4;
    MulSum(0x0e, Mul(0x02, a), Mul(0x03, b), Mul(0x01, c), Mul(0x01, d));
    MulSum(0x0b, Mul(0x01, a), Mul(0x02, b), Mul(0x03, c), Mul(0x01, d));
    MulSum(0x0d, Mul(0x01, a), Mul(0x01, b), Mul(0x02, c), Mul(0x03, d));
    MulSum(0x09, Mul(0x03, a), Mul(0x01, b), Mul(0x01, c), Mul(0x02, d));
    Rotations(Mul(0x02, b), Mul(0x03, c), Mul(0x01, d), Mul(0x01, a));
    Rotations(Mul(0x02, c), Mul(0x03, d), Mul(0x01, a), Mul(0x01, b));
    Rotations(Mul(0x02, d), Mul(0x03, a), Mul(0x01, b), Mul(0x01, c));
    ProductDiagonal(a);
    ProductSecond(b);
    ProductThird(c);
    ProductFourth(d);
    Transposed(Mul(0x0e, Mul(0x02, a)), Mul(0x0e, Mul(0x03, b)), Mul(0x0e, Mul(0x01, c)), Mul(0x0e, Mul(0x01, d)),
               Mul(0x0b, Mul(0x01, a)), Mul(0x0b, Mul(0x02, b)), Mul(0x0b, Mul(0x03, c)), Mul(0x0b, Mul(0x01, d)),
               Mul(0x0d, Mul(0x01, a)), Mul(0x0d, Mul(0x01, b)), Mul(0x0d, Mul(0x02, c)), Mul(0x0d, Mul(0x03, d)),
               Mul(0x09, Mul(0x03, a)), Mul(0x09, Mul(0x01, b)), Mul(0x09, Mul(0x01, c)), Mul(0x09, Mul(0x02, d)));
    SumOfOne(a);
  }

  lemma MixedForth(a: bv8, b: bv8, c: bv8, d: bv8)
    ensures MixByte(MixByte(a, b, c, d, true), MixByte(b, c, d, a, true),
                    MixByte(c, d, a, b, true), MixByte(d, a, b, c, true), false) == a
  {
    hide Mul, Sum4;
    MulSum(0x02, Mul(0x0e, a), Mul(0x0b, b), Mul(0x0d, c), Mul(0x09, d));
    MulSum(0x03, Mul(0x09, a), Mul(0x0e, b), Mul(0x0b, c), Mul(0x0d, d));
    MulSum(0x01, Mul(0x0d, a), Mul(0x09, b), Mul(0x0e, c), Mul(0x0b, d));
    MulSum(0x01, Mul(0x0b, a), Mul(0x0d, b), Mul(0x09, c), Mul(0x0e, d));
    Rotations(Mul(0x0e, b), Mul(0x0b, c), Mul(0x0d, d), Mul(0x09, a));
    Rotations(Mul(0x0e, c), Mul(0x0b, d), Mul(0x0d, a), Mul(0x09, b));
    Rotations(Mul(0x0e, d), Mul(0x0b, a), Mul(0x0d, b), Mul(0x09, c));
    OtherDiagonal(a);
    OtherSecond(b);
    OtherThird(c);
    OtherFourth(d);
    Transposed(Mul(0x02, Mul(0x0e, a)), Mul(0x02, Mul(0x0b, b)), Mul(0x02, Mul(0x0d, c)), Mul(0x02, Mul(0x09, d)),
               Mul(0x03, Mul(0x09, a)), Mul(0x03, Mul(0x0e, b)), Mul(0x03, Mul(0x0b, c)), Mul(0x03, Mul(0x0d, d)),
               Mul(0x01, Mul(0x0d, a)), Mul(0x01, Mul(0x09, b)), Mul(0x01, Mul(0x0e, c)), Mul(0x01, Mul(0x0b, d)),
               Mul(0x01, Mul(0x0b, a)), Mul(0x01, Mul(0x0d, b)), Mul(0x01, Mul(0x09, c)), Mul(0x01, Mul(0x0e, d)));
    SumOfOne(a);
  }

  lemma Rotations(a: bv8, b: bv8, c: bv8, d: bv8)
    ensures Sum4(a, b, c, d) == Sum4(b, c, d, a) == Sum4(c, d, a, b) == Sum4(d, a, b, c)
  {
    hide Add;
    RotatedSum(a, b, c, d);
    RotatedSum(b, c, d, a);
    RotatedSum(c, d, a, b);
  }

  lemma RotatedSum(a: bv8, b: bv8, c: bv8, d: bv8)
    ensures Sum4(a, b, c, d) == Sum4(b, c, d, a)
  {
    hide Add;
    AddCommutes(a, b);
    AddCommutes(c, d);
    Swap(b, a, d, c);
    AddCommutes(a, c);
    Swap(b, d, c, a);
  }
}
