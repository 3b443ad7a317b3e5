/**
 The field GF(2^8) of FIPS 197 section 4: bytes are polynomials over GF(2), multiplied modulo
 x^8 + x^4 + x^3 + x + 1.  `Mul` is the definition; the lemmas relate it to the shift-and-xor
 step that the firmware uses instead of a multiplication.
 */
module GaloisField {

  /** `p` if bit `i` of `selector` is set, else zero. */
  function Select(p: bv16, selector: bv16, i: bv16): bv16
    requires i < 16
  {
    p & (0 - ((selector >> i) & 1))
  }

  /** The sum of two polynomials that are not reduced yet. */
  function PolynomialSum(p: bv16, q: bv16): bv16 {
    p ^ q
  }

  /** The polynomial product, before reduction: bit i of `b` contributes `a` shifted by i. */
  function PolynomialProduct(a: bv8, b: bv8): bv16 {
    var x, y := a as bv16, b as bv16;
    Select(x, y, 0) ^ Select(x << 1, y, 1) ^ Select(x << 2, y, 2) ^ Select(x << 3, y, 3) ^
    Select(x << 4, y, 4) ^ Select(x << 5, y, 5) ^ Select(x << 6, y, 6) ^ Select(x << 7, y, 7)
  }

  /** `p` with its term of degree `i` cancelled by a multiple of x^8 + x^4 + x^3 + x + 1. */
  function Cancel(p: bv16, i: bv16): bv16
    requires 8 <= i < 15
  {
    PolynomialSum(p, Select(0x11B << (i - 8), p, i))
  }

  function LowByte(p: bv16): bv8 {
    (p & 0xFF) as bv8
  }

  /** The remainder modulo x^8 + x^4 + x^3 + x + 1, cancelling one leading term at a time. */
  function Reduce(p: bv16): bv8 {
    var p := Cancel(Cancel(Cancel(p, 14), 13), 12);
    LowByte(Cancel(Cancel(Cancel(Cancel(p, 11), 10), 9), 8))
  }

  function Mul(a: bv8, b: bv8): bv8 {
    Reduce(PolynomialProduct(a, b))
  }

  /** Addition in the field. */
  function Add(a: bv8, b: bv8): bv8 {
    a ^ b
  }

  function Sum3(a: bv8, b: bv8, c: bv8): bv8 {
    Add(Add(a, b), c)
  }

  function Sum4(a: bv8, b: bv8, c: bv8, d: bv8): bv8 {
    Add(Add(a, b), Add(c, d))
  }

  /** x^n in the field. */
  function XPower(n: nat): bv8 {
    if n == 0 then 1 else Mul(XPower(n - 1), 2)
  }

  /** Shift left and fold the overflow back in: multiplication by x without a product. */
  function XTime(a: bv8): bv8 {
    if a & 0x80 == 0x80 then (a << 1) ^ 0x1B else a << 1
  }

  lemma MulByTwo(a: bv8)
    ensures Mul(a, 2) == XTime(a)
  {
  }

  lemma MulByThree(a: bv8)
    ensures Mul(a, 3) == Add(XTime(a), a)
  {
  }

  lemma MulByOne(a: bv8)
    ensures Mul(a, 1) == a
  {
  }

  lemma SelectLinear(c: bv16, p: bv16, q: bv16, i: bv16)
    requires i < 16
    ensures Select(c, PolynomialSum(p, q), i) == PolynomialSum(Select(c, p, i), Select(c, q, i))
  {
  }

  lemma PolynomialSumLaws(p: bv16, q: bv16, r: bv16)
    ensures PolynomialSum(p, q) == PolynomialSum(q, p)
    ensures PolynomialSum(PolynomialSum(p, q), r) == PolynomialSum(p, PolynomialSum(q, r))
  {
  }

  lemma PolynomialMiddleFour(p: bv16, q: bv16, r: bv16, s: bv16)
    ensures PolynomialSum(PolynomialSum(p, q), PolynomialSum(r, s))
         == PolynomialSum(PolynomialSum(p, r), PolynomialSum(q, s))
  {
    hide PolynomialSum;
    PolynomialSumLaws(p, q, PolynomialSum(r, s));
    PolynomialSumLaws(q, r, s);
    PolynomialSumLaws(r, q, s);
    PolynomialSumLaws(p, r, PolynomialSum(q, s));
  }

  lemma CancelLinear(p: bv16, q: bv16, i: bv16)
    requires 8 <= i < 15
    ensures Cancel(PolynomialSum(p, q), i) == PolynomialSum(Cancel(p, i), Cancel(q, i))
  {
    hide Select, PolynomialSum;
    var c := 0x11B << (i - 8);
    SelectLinear(c, p, q, i);
    PolynomialMiddleFour(p, q, Select(c, p, i), Select(c, q, i));
  }

  lemma LowByteLinear(p: bv16, q: bv16)
    ensures LowByte(PolynomialSum(p, q)) == Add(LowByte(p), LowByte(q))
  {
  }

  /** Reduction is linear, so products can be taken apart bit by bit. */
  lemma ReduceLinear(p: bv16, q: bv16)
    ensures Reduce(PolynomialSum(p, q)) == Add(Reduce(p), Reduce(q))
  {
    hide Cancel, PolynomialSum, LowByte, Add;
    var p13, q13 := Cancel(p, 14), Cancel(q, 14);
    var p12, q12 := Cancel(p13, 13), Cancel(q13, 13);
    var p11, q11 := Cancel(p12, 12), Cancel(q12, 12);
    var p10, q10 := Cancel(p11, 11), Cancel(q11, 11);
    var p9, q9 := Cancel(p10, 10), Cancel(q10, 10);
    var p8, q8 := Cancel(p9, 9), Cancel(q9, 9);
    CancelLinear(p, q, 14);
    CancelLinear(p13, q13, 13);
    CancelLinear(p12, q12, 12);
    CancelLinear(p11, q11, 11);
    CancelLinear(p10, q10, 10);
    CancelLinear(p9, q9, 9);
    CancelLinear(p8, q8, 8);
    LowByteLinear(Cancel(p8, 8), Cancel(q8, 8));
  }

  lemma MulByFour(a: bv8)
    ensures Mul(a, 4) == XTime(XTime(a))
  {
  }

  lemma MulByEight(a: bv8)
    ensures Mul(a, 8) == XTime(XTime(XTime(a)))
  {
  }

  lemma ProductOf09(a: bv8)
    ensures PolynomialProduct(a, 0x09)
         == PolynomialSum(PolynomialProduct(a, 8), PolynomialProduct(a, 1))
  {
  }

  lemma ProductOf0B(a: bv8)
    ensures PolynomialProduct(a, 0x0B)
         == PolynomialSum(PolynomialSum(PolynomialProduct(a, 8), PolynomialProduct(a, 2)), PolynomialProduct(a, 1))
  {
  }

  lemma ProductOf0D(a: bv8)
    ensures PolynomialProduct(a, 0x0D)
         == PolynomialSum(PolynomialSum(PolynomialProduct(a, 8), PolynomialProduct(a, 4)), PolynomialProduct(a, 1))
  {
  }

  lemma ProductOf0E(a: bv8)
    ensures PolynomialProduct(a, 0x0E)
         == PolynomialSum(PolynomialSum(PolynomialProduct(a, 8), PolynomialProduct(a, 4)), PolynomialProduct(a, 2))
  {
  }

  lemma MulBy09(a: bv8)
    ensures Mul(a, 0x09) == Sum3(XTime(XTime(XTime(a))), a, 0)
  {
    hide PolynomialProduct, PolynomialSum, Reduce, XTime, Add;
    MulByEight(a);
    MulByOne(a);
    ProductOf09(a);
    AddProperties(Add(XTime(XTime(XTime(a))), a), 0);
    ReduceLinear(PolynomialProduct(a, 8), PolynomialProduct(a, 1));
  }

  lemma MulBy0B(a: bv8)
    ensures Mul(a, 0x0B) == Sum3(XTime(XTime(XTime(a))), XTime(a), a)
  {
    hide PolynomialProduct, PolynomialSum, Reduce, XTime, Add;
    MulByEight(a);
    MulByTwo(a);
    MulByOne(a);
    ProductOf0B(a);
    ReduceLinear(PolynomialSum(PolynomialProduct(a, 8), PolynomialProduct(a, 2)), PolynomialProduct(a, 1));
    ReduceLinear(PolynomialProduct(a, 8), PolynomialProduct(a, 2));
  }

  lemma MulBy0D(a: bv8)
    ensures Mul(a, 0x0D) == Sum3(XTime(XTime(XTime(a))), XTime(XTime(a)), a)
  {
    hide PolynomialProduct, PolynomialSum, Reduce, XTime, Add;
    MulByEight(a);
    MulByFour(a);
    MulByOne(a);
    ProductOf0D(a);
    ReduceLinear(PolynomialSum(PolynomialProduct(a, 8), PolynomialProduct(a, 4)), PolynomialProduct(a, 1));
    ReduceLinear(PolynomialProduct(a, 8), PolynomialProduct(a, 4));
  }

  lemma MulBy0E(a: bv8)
    ensures Mul(a, 0x0E) == Sum3(XTime(XTime(XTime(a))), XTime(XTime(a)), XTime(a))
  {
    hide PolynomialProduct, PolynomialSum, Reduce, XTime, Add;
    MulByEight(a);
    MulByFour(a);
    MulByTwo(a);
    ProductOf0E(a);
    ReduceLinear(PolynomialSum(PolynomialProduct(a, 8), PolynomialProduct(a, 4)), PolynomialProduct(a, 2));
    ReduceLinear(PolynomialProduct(a, 8), PolynomialProduct(a, 4));
  }

  lemma XTimeLinear(a: bv8, b: bv8)
    ensures XTime(Add(a, b)) == Add(XTime(a), XTime(b))
  {
    if a & 0x80 == 0x80 {
      if b & 0x80 == 0x80 { } else { }
    } else {
      if b & 0x80 == 0x80 { } else { }
    }
  }

  // Rearrangements of sums; the proofs below use them instead of the bits.

  lemma AddProperties(a: bv8, b: bv8)
    ensures Add(a, b) == Add(b, a)
    ensures Add(Add(a, b), b) == a
    ensures Add(a, 0) == a && Add(0, 0) == 0
  {
  }

  lemma MiddleFour(a: bv8, b: bv8, c: bv8, d: bv8)
    ensures Add(Add(a, b), Add(c, d)) == Add(Add(a, c), Add(b, d))
  {
    assert (a ^ b) ^ (c ^ d) == (a ^ c) ^ (b ^ d);
  }

  lemma Sum3OfSums(a: bv8, b: bv8, c: bv8, x: bv8, y: bv8, z: bv8)
    ensures Sum3(Add(a, x), Add(b, y), Add(c, z)) == Add(Sum3(a, b, c), Sum3(x, y, z))
  {
    hide Add;
    MiddleFour(a, x, b, y);
    MiddleFour(Add(a, b), Add(x, y), c, z);
  }

  lemma Sum4OfSums(a: bv8, b: bv8, c: bv8, d: bv8, x: bv8, y: bv8, z: bv8, w: bv8)
    ensures Add(Sum4(a, b, c, d), Sum4(x, y, z, w)) == Sum4(Add(a, x), Add(b, y), Add(c, z), Add(d, w))
  {
    hide Add;
    MiddleFour(Add(a, b), Add(c, d), Add(x, y), Add(z, w));
    MiddleFour(a, b, x, y);
    MiddleFour(c, d, z, w);
  }

  lemma Sum4Transposed(a: bv8, b: bv8, c: bv8, d: bv8, e: bv8, f: bv8, g: bv8, h: bv8,
                       i: bv8, j: bv8, k: bv8, l: bv8, m: bv8, n: bv8, o: bv8, p: bv8)
    ensures Sum4(Sum4(a, b, c, d), Sum4(e, f, g, h), Sum4(i, j, k, l), Sum4(m, n, o, p))
         == Sum4(Sum4(a, e, i, m), Sum4(b, f, j, n), Sum4(c, g, k, o), Sum4(d, h, l, p))
  {
    hide Add;
    Sum4OfSums(a, b, c, d, e, f, g, h);
    Sum4OfSums(i, j, k, l, m, n, o, p);
    Sum4OfSums(Add(a, e), Add(b, f), Add(c, g), Add(d, h), Add(i, m), Add(j, n), Add(k, o), Add(l, p));
  }

  predicate IsMixCoefficient(k: bv8) {
    k == 1 || k == 2 || k == 3 || k == 0x09 || k == 0x0B || k == 0x0D || k == 0x0E
  }

  /** Multiplication by each coefficient of the column mix and its inverse distributes over sums. */
  lemma MulLinear(a: bv8, b: bv8, k: bv8)
    requires IsMixCoefficient(k)
    ensures Mul(Add(a, b), k) == Add(Mul(a, k), Mul(b, k))
  {
    hide Mul, XTime, Add, Sum3;
    var s := Add(a, b);
    var a1, b1 := XTime(a), XTime(b);
    var a2, b2 := XTime(a1), XTime(b1);
    var a3, b3 := XTime(a2), XTime(b2);
    XTimeLinear(a, b);
    XTimeLinear(a1, b1);
    XTimeLinear(a2, b2);
    AddProperties(0, 0);
    if k == 1 {
      MulByOne(a); MulByOne(b); MulByOne(s);
    } else if k == 2 {
      MulByTwo(a); MulByTwo(b); MulByTwo(s);
    } else if k == 3 {
      MulByThree(a); MulByThree(b); MulByThree(s);
      MiddleFour(a1, b1, a, b);
    } else if k == 0x09 {
      MulBy09(a); MulBy09(b); MulBy09(s);
      Sum3OfSums(a3, a, 0, b3, b, 0);
    } else if k == 0x0B {
      MulBy0B(a); MulBy0B(b); MulBy0B(s);
      Sum3OfSums(a3, a1, a, b3, b1, b);
    } else if k == 0x0D {
      MulBy0D(a); MulBy0D(b); MulBy0D(s);
      Sum3OfSums(a3, a2, a, b3, b2, b);
    } else {
      MulBy0E(a); MulBy0E(b); MulBy0E(s);
      Sum3OfSums(a3, a2, a1, b3, b2, b1);
    }
  }

  lemma MulLinear4(a: bv8, b: bv8, c: bv8, d: bv8, k: bv8)
    requires IsMixCoefficient(k)
    ensures Mul(Sum4(a, b, c, d), k) == Sum4(Mul(a, k), Mul(b, k), Mul(c, k), Mul(d, k))
  {
    hide Mul, Add;
    MulLinear(a, b, k);
    MulLinear(c, d, k);
    MulLinear(Add(a, b), Add(c, d), k);
  }

  lemma SumWithZeros(a: bv8)
    ensures Sum4(a, 0, 0, 0) == a
  {
  }

  // The entries of the product of the two circulant matrices, taken in both orders: 1 on the
  // diagonal and 0 off it.

  /** The multiples of `a` and of `a` times x by the coefficients of the inverse mix, as sums of powers of x. */
  lemma Multiples(a: bv8)
    ensures
      var b := XTime(a);
      var c := XTime(b);
      var d := XTime(c);
      var e := XTime(d);
      && Mul(a, 0x09) == Sum3(d, a, 0) && Mul(b, 0x09) == Sum3(e, b, 0)
      && Mul(a, 0x0B) == Sum3(d, b, a) && Mul(b, 0x0B) == Sum3(e, c, b)
      && Mul(a, 0x0D) == Sum3(d, c, a) && Mul(b, 0x0D) == Sum3(e, d, b)
      && Mul(a, 0x0E) == Sum3(d, c, b) && Mul(b, 0x0E) == Sum3(e, d, c)
  {
    hide Mul, XTime, Sum3;
    var b := XTime(a);
    MulBy09(a); MulBy09(b);
    MulBy0B(a); MulBy0B(b);
    MulBy0D(a); MulBy0D(b);
    MulBy0E(a); MulBy0E(b);
  }

  /** Multiplying by 1, 2 and 3 before or after is the same. */
  lemma MixedMultiple(a: bv8, k: bv8)
    requires k == 0x09 || k == 0x0B || k == 0x0D || k == 0x0E
    ensures Mul(Mul(a, 1), k) == Mul(Mul(a, k), 1) == Mul(a, k)
    ensures Mul(Mul(a, 2), k) == Mul(Mul(a, k), 2) == Mul(XTime(a), k)
    ensures Mul(Mul(a, 3), k) == Mul(Mul(a, k), 3) == Add(Mul(XTime(a), k), Mul(a, k))
  {
    hide Mul, XTime, Add, Sum3;
    MulByOne(a);
    MulByTwo(a);
    MulByThree(a);
    MulByOne(Mul(a, k));
    MulByTwo(Mul(a, k));
    MulByThree(Mul(a, k));
    MulLinear(XTime(a), a, k);
    XTimeOfMultiple(a, k);
  }

  lemma XTimeOfMultiple(a: bv8, k: bv8)
    requires k == 0x09 || k == 0x0B || k == 0x0D || k == 0x0E
    ensures XTime(Mul(a, k)) == Mul(XTime(a), k)
  {
    hide Mul, XTime, Add, Sum3;
    Multiples(a);
    var b := XTime(a);
    var c := XTime(b);
    var d := XTime(c);
    XTimeOfSum(d, a, 0);
    XTimeOfSum(d, b, a);
    XTimeOfSum(d, c, a);
    XTimeOfSum(d, c, b);
    XTimeOfZero();
  }

  lemma XTimeOfSum(a: bv8, b: bv8, c: bv8)
    ensures XTime(Sum3(a, b, c)) == Sum3(XTime(a), XTime(b), XTime(c))
  {
    hide XTime, Add;
    XTimeLinear(Add(a, b), c);
    XTimeLinear(a, b);
  }

  lemma XTimeOfZero()
    ensures XTime(0) == 0
  {
  }

  // With a, b, c, d, e for a times 1, x, x^2, x^3 and x^4, each entry is a sum of these five in which
  // everything cancels but, on the diagonal, a itself.  Sums are kept as masks that say which of the
  // five they hold.

  /** `x` if the mask holds the bit. */
  function CombinationTerm(mask: bv5, bit: bv5, x: bv8): bv8 {
    if mask & bit == bit then x else 0
  }

  function Combination(mask: bv5, a: bv8, b: bv8, c: bv8, d: bv8, e: bv8): bv8 {
    Add(Add(Sum3(CombinationTerm(mask, 16, e), CombinationTerm(mask, 8, d), CombinationTerm(mask, 4, c)),
            CombinationTerm(mask, 2, b)), CombinationTerm(mask, 1, a))
  }

  lemma TermsAdd(m: bv5, n: bv5, bit: bv5, x: bv8)
    requires bit == 1 || bit == 2 || bit == 4 || bit == 8 || bit == 16
    ensures Add(CombinationTerm(m, bit, x), CombinationTerm(n, bit, x)) == CombinationTerm(m ^ n, bit, x)
  {
  }

  lemma CombinationsAdd(m: bv5, n: bv5, a: bv8, b: bv8, c: bv8, d: bv8, e: bv8)
    ensures Add(Combination(m, a, b, c, d, e), Combination(n, a, b, c, d, e)) == Combination(m ^ n, a, b, c, d, e)
  {
    hide Add, CombinationTerm;
    TermsAdd(m, n, 16, e);
    TermsAdd(m, n, 8, d);
    TermsAdd(m, n, 4, c);
    TermsAdd(m, n, 2, b);
    TermsAdd(m, n, 1, a);
    var e0, e1 := CombinationTerm(m, 16, e), CombinationTerm(n, 16, e);
    var d0, d1 := CombinationTerm(m, 8, d), CombinationTerm(n, 8, d);
    var c0, c1 := CombinationTerm(m, 4, c), CombinationTerm(n, 4, c);
    var b0, b1 := CombinationTerm(m, 2, b), CombinationTerm(n, 2, b);
    Sum3OfSums(e0, d0, c0, e1, d1, c1);
    MiddleFour(Sum3(e0, d0, c0), b0, Sum3(e1, d1, c1), b1);
    MiddleFour(Add(Sum3(e0, d0, c0), b0), CombinationTerm(m, 1, a),
               Add(Sum3(e1, d1, c1), b1), CombinationTerm(n, 1, a));
  }

  lemma ZeroIsNeutral()
    ensures forall x :: Add(x, 0) == Add(0, x) == x
  {
  }

  lemma MasksOfThree(a: bv8, b: bv8, c: bv8, d: bv8, e: bv8)
    ensures Combination(0x1C, a, b, c, d, e) == Sum3(e, d, c) && Combination(0x0E, a, b, c, d, e) == Sum3(d, c, b)
    ensures Combination(0x16, a, b, c, d, e) == Sum3(e, c, b) && Combination(0x0D, a, b, c, d, e) == Sum3(d, c, a)
    ensures Combination(0x0B, a, b, c, d, e) == Sum3(d, b, a) && Combination(0x1A, a, b, c, d, e) == Sum3(e, d, b)
  {
    hide Add;
    ZeroIsNeutral();
  }

  lemma MasksOfTwo(a: bv8, b: bv8, c: bv8, d: bv8, e: bv8)
    ensures Combination(0x09, a, b, c, d, e) == Sum3(d, a, 0) && Combination(0x12, a, b, c, d, e) == Sum3(e, b, 0)
    ensures Combination(0x00, a, b, c, d, e) == 0 && Combination(0x01, a, b, c, d, e) == a
  {
    hide Add;
    ZeroIsNeutral();
  }

  lemma DiagonalCancels(a: bv8, b: bv8, c: bv8, d: bv8, e: bv8)
    ensures Sum4(Sum3(e, d, c), Sum3(d, b, a), Sum3(d, c, a), Add(Sum3(e, b, 0), Sum3(d, a, 0))) == a
    ensures Sum4(Sum3(e, d, c), Add(Sum3(e, b, 0), Sum3(d, a, 0)), Sum3(d, c, a), Sum3(d, b, a)) == a
  {
    hide Add, Combination, Sum3;
    MasksOfThree(a, b, c, d, e);
    MasksOfTwo(a, b, c, d, e);
    CombinationsAdd(18, 9, a, b, c, d, e);
    CombinationsAdd(28, 11, a, b, c, d, e);
    CombinationsAdd(13, 27, a, b, c, d, e);
    CombinationsAdd(23, 22, a, b, c, d, e);
    CombinationsAdd(28, 27, a, b, c, d, e);
    CombinationsAdd(13, 11, a, b, c, d, e);
    CombinationsAdd(7, 6, a, b, c, d, e);
  }

  lemma FirstCancels(a: bv8, b: bv8, c: bv8, d: bv8, e: bv8)
    ensures Sum4(Add(Sum3(e, d, c), Sum3(d, c, b)), Sum3(e, c, b), Sum3(d, c, a), Sum3(d, a, 0)) == 0
    ensures Sum4(Sum3(e, c, b), Add(Sum3(e, d, c), Sum3(d, c, b)), Sum3(d, a, 0), Sum3(d, c, a)) == 0
  {
    hide Add, Combination, Sum3;
    MasksOfThree(a, b, c, d, e);
    MasksOfTwo(a, b, c, d, e);
    CombinationsAdd(28, 14, a, b, c, d, e);
    CombinationsAdd(18, 22, a, b, c, d, e);
    CombinationsAdd(13, 9, a, b, c, d, e);
    CombinationsAdd(4, 4, a, b, c, d, e);
    CombinationsAdd(22, 18, a, b, c, d, e);
    CombinationsAdd(9, 13, a, b, c, d, e);
  }

  lemma SecondCancels(a: bv8, b: bv8, c: bv8, d: bv8, e: bv8)
    ensures Sum4(Sum3(d, c, b), Add(Sum3(e, c, b), Sum3(d, b, a)), Sum3(e, d, b), Sum3(d, a, 0)) == 0
    ensures Sum4(Sum3(e, d, b), Add(Sum3(e, c, b), Sum3(d, b, a)), Sum3(d, c, b), Sum3(d, a, 0)) == 0
  {
    hide Add, Combination, Sum3;
    MasksOfThree(a, b, c, d, e);
    MasksOfTwo(a, b, c, d, e);
    CombinationsAdd(22, 11, a, b, c, d, e);
    CombinationsAdd(14, 29, a, b, c, d, e);
    CombinationsAdd(26, 9, a, b, c, d, e);
    CombinationsAdd(19, 19, a, b, c, d, e);
    CombinationsAdd(26, 29, a, b, c, d, e);
    CombinationsAdd(14, 9, a, b, c, d, e);
    CombinationsAdd(7, 7, a, b, c, d, e);
  }

  lemma ThirdCancels(a: bv8, b: bv8, c: bv8, d: bv8, e: bv8)
    ensures Sum4(Sum3(d, c, b), Sum3(d, b, a), Add(Sum3(e, d, b), Sum3(d, c, a)), Sum3(e, b, 0)) == 0
    ensures Sum4(Sum3(e, b, 0), Add(Sum3(e, d, b), Sum3(d, c, a)), Sum3(d, b, a), Sum3(d, c, b)) == 0
  {
    hide Add, Combination, Sum3;
    MasksOfThree(a, b, c, d, e);
    MasksOfTwo(a, b, c, d, e);
    CombinationsAdd(26, 13, a, b, c, d, e);
    CombinationsAdd(14, 11, a, b, c, d, e);
    CombinationsAdd(23, 18, a, b, c, d, e);
    CombinationsAdd(5, 5, a, b, c, d, e);
    CombinationsAdd(18, 23, a, b, c, d, e);
    CombinationsAdd(11, 14, a, b, c, d, e);
  }

  lemma AllMixedMultiples(a: bv8)
    ensures forall k | k == 0x09 || k == 0x0B || k == 0x0D || k == 0x0E ::
      && Mul(Mul(a, 1), k) == Mul(Mul(a, k), 1) == Mul(a, k)
      && Mul(Mul(a, 2), k) == Mul(Mul(a, k), 2) == Mul(XTime(a), k)
      && Mul(Mul(a, 3), k) == Mul(Mul(a, k), 3) == Add(Mul(XTime(a), k), Mul(a, k))
  {
    hide Mul, XTime, Add;
    MixedMultiple(a, 0x09);
    MixedMultiple(a, 0x0B);
    MixedMultiple(a, 0x0D);
    MixedMultiple(a, 0x0E);
  }

  lemma Entry0(a: bv8)
    ensures Sum4(Mul(Mul(a, 2), 0x0E), Mul(Mul(a, 1), 0x0B), Mul(Mul(a, 1), 0x0D), Mul(Mul(a, 3), 0x09)) == a
    ensures Sum4(Mul(Mul(a, 0x0E), 2), Mul(Mul(a, 0x09), 3), Mul(Mul(a, 0x0D), 1), Mul(Mul(a, 0x0B), 1)) == a
  {
    hide Mul, XTime, Add, Sum3, Sum4;
    AllMixedMultiples(a);
    Multiples(a);
    DiagonalCancels(a, XTime(a), XTime(XTime(a)), XTime(XTime(XTime(a))), XTime(XTime(XTime(XTime(a)))));
  }

  lemma Entry1(a: bv8)
    ensures Sum4(Mul(Mul(a, 3), 0x0E), Mul(Mul(a, 2), 0x0B), Mul(Mul(a, 1), 0x0D), Mul(Mul(a, 1), 0x09)) == 0
    ensures Sum4(Mul(Mul(a, 0x0B), 2), Mul(Mul(a, 0x0E), 3), Mul(Mul(a, 0x09), 1), Mul(Mul(a, 0x0D), 1)) == 0
  {
    hide Mul, XTime, Add, Sum3, Sum4;
    AllMixedMultiples(a);
    Multiples(a);
    FirstCancels(a, XTime(a), XTime(XTime(a)), XTime(XTime(XTime(a))), XTime(XTime(XTime(XTime(a)))));
  }

  lemma Entry2(a: bv8)
    ensures Sum4(Mul(Mul(a, 1), 0x0E), Mul(Mul(a, 3), 0x0B), Mul(Mul(a, 2), 0x0D), Mul(Mul(a, 1), 0x09)) == 0
    ensures Sum4(Mul(Mul(a, 0x0D), 2), Mul(Mul(a, 0x0B), 3), Mul(Mul(a, 0x0E), 1), Mul(Mul(a, 0x09), 1)) == 0
  {
    hide Mul, XTime, Add, Sum3, Sum4;
    AllMixedMultiples(a);
    Multiples(a);
    SecondCancels(a, XTime(a), XTime(XTime(a)), XTime(XTime(XTime(a))), XTime(XTime(XTime(XTime(a)))));
  }

  lemma Entry3(a: bv8)
    ensures Sum4(Mul(Mul(a, 1), 0x0E), Mul(Mul(a, 1), 0x0B), Mul(Mul(a, 3), 0x0D), Mul(Mul(a, 2), 0x09)) == 0
    ensures Sum4(Mul(Mul(a, 0x09), 2), Mul(Mul(a, 0x0D), 3), Mul(Mul(a, 0x0B), 1), Mul(Mul(a, 0x0E), 1)) == 0
  {
    hide Mul, XTime, Add, Sum3, Sum4;
    AllMixedMultiples(a);
    Multiples(a);
    ThirdCancels(a, XTime(a), XTime(XTime(a)), XTime(XTime(XTime(a))), XTime(XTime(XTime(XTime(a)))));
  }

  /**
   A column (a, b, c, d) mixed with first row (2, 3, 1, 1) and multiplied by the first row of the
   inverse matrix gives back its first byte; the other rows are the same fact rotated.
   */
  lemma UnmixFirstByte(a: bv8, b: bv8, c: bv8, d: bv8)
    ensures
      var m0 := Sum4(Mul(a, 2), Mul(b, 3), Mul(c, 1), Mul(d, 1));
      var m1 := Sum4(Mul(a, 1), Mul(b, 2), Mul(c, 3), Mul(d, 1));
      var m2 := Sum4(Mul(a, 1), Mul(b, 1), Mul(c, 2), Mul(d, 3));
      var m3 := Sum4(Mul(a, 3), Mul(b, 1), Mul(c, 1), Mul(d, 2));
      Sum4(Mul(m0, 0x0E), Mul(m1, 0x0B), Mul(m2, 0x0D), Mul(m3, 0x09)) == a
  {
    hide Mul, Add, Sum4;
    MulLinear4(Mul(a, 2), Mul(b, 3), Mul(c, 1), Mul(d, 1), 0x0E);
    MulLinear4(Mul(a, 1), Mul(b, 2), Mul(c, 3), Mul(d, 1), 0x0B);
    MulLinear4(Mul(a, 1), Mul(b, 1), Mul(c, 2), Mul(d, 3), 0x0D);
    MulLinear4(Mul(a, 3), Mul(b, 1), Mul(c, 1), Mul(d, 2), 0x09);
    Sum4Transposed(Mul(Mul(a, 2), 0x0E), Mul(Mul(b, 3), 0x0E), Mul(Mul(c, 1), 0x0E), Mul(Mul(d, 1), 0x0E),
                   Mul(Mul(a, 1), 0x0B), Mul(Mul(b, 2), 0x0B), Mul(Mul(c, 3), 0x0B), Mul(Mul(d, 1), 0x0B),
                   Mul(Mul(a, 1), 0x0D), Mul(Mul(b, 1), 0x0D), Mul(Mul(c, 2), 0x0D), Mul(Mul(d, 3), 0x0D),
                   Mul(Mul(a, 3), 0x09), Mul(Mul(b, 1), 0x09), Mul(Mul(c, 1), 0x09), Mul(Mul(d, 2), 0x09));
    Entry0(a);
    Entry1(b);
    Entry2(c);
    Entry3(d);
    SumWithZeros(a);
  }

  /** The same with the two matrices in the other order. */
  lemma RemixFirstByte(a: bv8, b: bv8, c: bv8, d: bv8)
    ensures
      var m0 := Sum4(Mul(a, 0x0E), Mul(b, 0x0B), Mul(c, 0x0D), Mul(d, 0x09));
      var m1 := Sum4(Mul(a, 0x09), Mul(b, 0x0E), Mul(c, 0x0B), Mul(d, 0x0D));
      var m2 := Sum4(Mul(a, 0x0D), Mul(b, 0x09), Mul(c, 0x0E), Mul(d, 0x0B));
      var m3 := Sum4(Mul(a, 0x0B), Mul(b, 0x0D), Mul(c, 0x09), Mul(d, 0x0E));
      Sum4(Mul(m0, 2), Mul(m1, 3), Mul(m2, 1), Mul(m3, 1)) == a
  {
    hide Mul, Add, Sum4;
    MulLinear4(Mul(a, 0x0E), Mul(b, 0x0B), Mul(c, 0x0D), Mul(d, 0x09), 2);
    MulLinear4(Mul(a, 0x09), Mul(b, 0x0E), Mul(c, 0x0B), Mul(d, 0x0D), 3);
    MulLinear4(Mul(a, 0x0D), Mul(b, 0x09), Mul(c, 0x0E), Mul(d, 0x0B), 1);
    MulLinear4(Mul(a, 0x0B), Mul(b, 0x0D), Mul(c, 0x09), Mul(d, 0x0E), 1);
    Sum4Transposed(Mul(Mul(a, 0x0E), 2), Mul(Mul(b, 0x0B), 2), Mul(Mul(c, 0x0D), 2), Mul(Mul(d, 0x09), 2),
                   Mul(Mul(a, 0x09), 3), Mul(Mul(b, 0x0E), 3), Mul(Mul(c, 0x0B), 3), Mul(Mul(d, 0x0D), 3),
                   Mul(Mul(a, 0x0D), 1), Mul(Mul(b, 0x09), 1), Mul(Mul(c, 0x0E), 1), Mul(Mul(d, 0x0B), 1),
                   Mul(Mul(a, 0x0B), 1), Mul(Mul(b, 0x0D), 1), Mul(Mul(c, 0x09), 1), Mul(Mul(d, 0x0E), 1));
    Entry0(a);
    Entry1(b);
    Entry2(c);
    Entry3(d);
    SumWithZeros(a);
  }
}
