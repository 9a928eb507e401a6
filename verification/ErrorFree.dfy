// The error-free transformations of src/common/df.h (p = 24) and src/common/dd.h (p = 53): sums
// and products returned as an unevaluated pair of floats.
module ErrorFree {
  import opened Arithmetic
  import opened Powers
  import opened Floats

  datatype Double = Double(x: int, y: int)

  // dfadd_vf2_vf_vf and ddadd_vd2_vd_vd: three operations.
  function FastTwoSum(p: nat, x: int, y: int): Double {
    var s := RN(p, x + y);
    Double(s, RN(p, RN(p, x - s) + y))
  }

  // dfadd2_vf2_vf_vf and ddadd2_vd2_vd_vd: six operations.
  function TwoSum(p: nat, x: int, y: int): Double {
    var s := RN(p, x + y);
    var v := RN(p, s - x);
    Double(s, RN(p, RN(p, x - RN(p, s - v)) + RN(p, y - v)))
  }

  // dfnormalize_vf2_vf2 and ddnormalize_vd2_vd2.
  function Normalize(p: nat, t: Double): Double {
    var s := RN(p, t.x + t.y);
    Double(s, RN(p, RN(p, t.x - s) + t.y))
  }

  // The pair is the exact value z: both parts are floats, they add up to z, and the high part is
  // z rounded.
  ghost predicate Exactly(p: nat, d: Double, z: int) {
    Rep(p, d.x) && Rep(p, d.y) && d.x + d.y == z && d.x == RN(p, z)
  }

  // ---------------------------------------------------------------- the error of a sum

  lemma RepExponent(p: nat, x: int, k: nat)
    requires p >= 1 && Rep(p, x) && k <= Exponent(p, Abs(x))
    ensures x % Pow2(k) == 0
  {
    RepIsMultiple(p, x);
    MultipleOfSmaller(x, k, Exponent(p, Abs(x)));
  }

  lemma RoundingKeepsMultiple(p: nat, v: int, k: nat)
    requires p >= 1 && v % Pow2(k) == 0
    ensures RN(p, v) % Pow2(k) == 0
  {
    var j := Exponent(p, Abs(v));
    RoundsToRep(p, v);
    if k <= j {
      MultipleOfSmaller(RN(p, v), k, j);
    } else {
      MultipleOfSmaller(v, j, k);
      NearestIsMultiple(v, Pow2(j));
    }
  }

  lemma ErrorIsRepOrdered(p: nat, x: int, y: int)
    requires p >= 1 && Rep(p, x) && Rep(p, y) && Abs(y) <= Abs(x)
    ensures Rep(p, x + y - RN(p, x + y))
  {
    var k := Exponent(p, Abs(y));
    ExponentMonotone(p, Abs(y), Abs(x));
    RepExponent(p, x, k);
    RepExponent(p, y, k);
    MultipleSum(x, y, Pow2(k));
    RoundingKeepsMultiple(p, x + y, k);
    MultipleSum(x + y, RN(p, x + y), Pow2(k));
    RoundsToNearest(p, x + y, x);
    ExponentBounds(p, Abs(y));
    RepByMultiple(p, x + y - RN(p, x + y), k);
  }

  // The rounding error of a sum of two floats is a float, no larger than either.
  lemma ErrorIsRep(p: nat, x: int, y: int)
    requires p >= 1 && Rep(p, x) && Rep(p, y)
    ensures Rep(p, x + y - RN(p, x + y))
    ensures Abs(x + y - RN(p, x + y)) <= Abs(x) && Abs(x + y - RN(p, x + y)) <= Abs(y)
  {
    RoundsToNearest(p, x + y, x);
    RoundsToNearest(p, x + y, y);
    if Abs(y) <= Abs(x) {
      ErrorIsRepOrdered(p, x, y);
    } else {
      ErrorIsRepOrdered(p, y, x);
    }
  }

  // Sterbenz: nearby floats subtract exactly.
  lemma NearbyDifference(p: nat, a: int, b: int)
    requires p >= 1 && Rep(p, a) && Rep(p, b) && 0 <= b <= a <= 2 * b
    ensures Rep(p, a - b)
  {
    var k := Exponent(p, b);
    ExponentMonotone(p, b, a);
    RepExponent(p, a, k);
    RepExponent(p, b, k);
    MultipleSum(a, b, Pow2(k));
    ExponentBounds(p, b);
    RepByMultiple(p, a - b, k);
  }

  lemma RepDoubles(p: nat, x: int)
    requires p >= 1 && Rep(p, x)
    ensures Rep(p, 2 * x)
  {
    var m: int, k: nat :| IsScaled(p, x, m, k);
    Associate(m, 2, Pow2(k));
    Associate(2, m, Pow2(k));
    assert IsScaled(p, 2 * x, m, k + 1);
  }

  lemma RepHalves(p: nat, x: int)
    requires p >= 1 && Rep(p, x) && Exponent(p, Abs(x)) > 0
    ensures x % 2 == 0 && Rep(p, x / 2)
  {
    var k := Exponent(p, Abs(x)) - 1;
    RepIsMultiple(p, x);
    ExponentBounds(p, Abs(x));
    HalfOfMultiple(x, Pow2(k), Pow2(p));
    RepByMultiple(p, x / 2, k);
  }

  lemma HalfOfMultiple(x: int, u: nat, b: nat)
    requires u > 0 && x % (2 * u) == 0 && Abs(x) <= b * (2 * u)
    ensures x % 2 == 0 && (x / 2) % u == 0 && Abs(x / 2) <= b * u
  {
    var q := x / (2 * u);
    assert x == q * (2 * u);
    Associate(q, 2, u);
    assert x == 2 * (q * u);
    assert x / 2 == q * u;
    Quotient(x / 2, u, q);
    assert b * (2 * u) == 2 * (b * u);
  }

  // The first operation of the fast sum is exact.
  lemma DifferenceIsRepPositive(p: nat, x: int, y: int)
    requires p >= 1 && Rep(p, x) && Rep(p, y) && Abs(y) <= x
    ensures Rep(p, x - RN(p, x + y))
  {
    var s := RN(p, x + y);
    hide RN;
    RoundsToRep(p, x + y);
    RoundsAbove(p, x + y, x);
    if y >= 0 {
      RepDoubles(p, x);
      RoundsAbove(p, x + y, 2 * x);
      var k := Exponent(p, x);
      ExponentMonotone(p, x, s);
      RepExponent(p, s, k);
      RepExponent(p, x, k);
      MultipleSum(x, s, Pow2(k));
      ExponentBounds(p, x);
      RepByMultiple(p, x - s, k);
    } else {
      ZeroIsRep(p);
      RoundsAbove(p, x + y, 0);
      if 2 * s >= x {
        NearbyDifference(p, x, s);
      } else {
        CancellingSum(p, x, y);
        RepIsFixed(p, x + y);
        RepNegates(p, y);
      }
    }
  }

  lemma CancellingSum(p: nat, x: int, y: int)
    requires p >= 1 && Rep(p, x) && Rep(p, y) && 0 <= -y <= x && 2 * RN(p, x + y) < x
    ensures Rep(p, x + y)
  {
    if Exponent(p, x) == 0 {
      ExponentBounds(p, x);
      RepByMultiple(p, x + y, 0);
    } else {
      RepHalves(p, x);
      RoundsAbove(p, x + y, x / 2);
      RepNegates(p, y);
      NearbyDifference(p, x, -y);
    }
  }

  lemma DifferenceIsRep(p: nat, x: int, y: int)
    requires p >= 1 && Rep(p, x) && Rep(p, y) && Abs(y) <= Abs(x)
    ensures Rep(p, x - RN(p, x + y))
  {
    if x >= 0 {
      DifferenceIsRepPositive(p, x, y);
    } else {
      RepNegates(p, x);
      RepNegates(p, y);
      DifferenceIsRepPositive(p, -x, -y);
      RoundingNegates(p, x + y);
      assert -x + -y == -(x + y);
      RepNegates(p, -x - RN(p, -x + -y));
    }
  }

  // The fast sum is exact when the operands come in order of magnitude.
  lemma FastTwoSumExact(p: nat, x: int, y: int)
    requires p >= 1 && Rep(p, x) && Rep(p, y) && Abs(x) >= Abs(y)
    ensures Exactly(p, FastTwoSum(p, x, y), x + y)
  {
    var s := RN(p, x + y);
    RoundsToRep(p, x + y);
    DifferenceIsRep(p, x, y);
    RepIsFixed(p, x - s);
    ErrorIsRep(p, x, y);
    RepIsFixed(p, x - s + y);
  }

  // Normalization keeps the value of a pair whose parts come in order of magnitude.
  lemma NormalizeExact(p: nat, t: Double)
    requires p >= 1 && Rep(p, t.x) && Rep(p, t.y) && Abs(t.x) >= Abs(t.y)
    ensures Exactly(p, Normalize(p, t), t.x + t.y)
  {
    hide RN, Exactly;
    FastTwoSumExact(p, t.x, t.y);
  }

  // What an exact sum or product returns is normalized already.
  lemma ExactIsNormalized(p: nat, d: Double, z: int)
    requires p >= 1 && Exactly(p, d, z)
    ensures Normalize(p, d) == d
  {
    hide RN, Rep;
    assert d.x + d.y == z;
    ZeroIsRep(p);
    RepIsFixed(p, 0);
    RepIsFixed(p, d.y);
  }

  // ---------------------------------------------------------------- the six-operation sum

  // Half of the least normal value of exponent j is at least one last place of it.
  lemma BinadeBelow(p: nat, j: nat)
    requires p >= 2 && j >= 1
    ensures Pow2(p - 1) * Pow2(j) == 2 * (Pow2(p - 1) * Pow2(j - 1))
    ensures Pow2(j) <= Pow2(p - 1) * Pow2(j - 1) <= Pow2(p) * Pow2(j - 1)
    ensures Rep(p, Pow2(p - 1) * Pow2(j - 1))
  {
    DoubledRight(Pow2(p - 1), Pow2(j - 1));
    ProductMonotone(2, Pow2(p - 1), Pow2(j - 1));
    ProductMonotone(Pow2(p - 1), Pow2(p), Pow2(j - 1));
    RepScaled(p, Pow2(p - 1), j - 1);
  }

  lemma ResidueExponent(p: nat, y: int, e: int, v: int, j: nat)
    requires p >= 2 && j >= 1 && Pow2(p - 1) * Pow2(j) <= y && Abs(e) <= Pow2(j)
    requires v == RN(p, y - e)
    ensures v >= 0 && Exponent(p, v) >= j - 1
  {
    BinadeBelow(p, j);
    hide Pow2;
    RoundsAbove(p, y - e, Pow2(p - 1) * Pow2(j - 1));
    var k := Exponent(p, v);
    if k < j - 1 {
      ExponentBounds(p, v);
      TopOfBinade(p, k, j - 1);
    }
  }

  lemma ExponentOfSum(p: nat, x: int, y: int)
    requires p >= 1 && Abs(x) < y
    ensures Ulp(p, x + y) <= 2 * Pow2(Exponent(p, y))
  {
    var j := Exponent(p, y);
    ExponentBounds(p, y);
    DoubledRight(Pow2(p), Pow2(j));
    ExponentLeast(p, Abs(x + y), j + 1);
    Pow2Monotone(Exponent(p, Abs(x + y)), j + 1);
  }

  // v approximates y within two of its last places.
  lemma ResidueBounds(p: nat, x: int, y: int)
    requires p >= 2 && Rep(p, x) && Rep(p, y) && Abs(x) < y
    ensures Abs(x + y - RN(p, x + y)) <= Pow2(Exponent(p, y))
    ensures Abs(y - RN(p, RN(p, x + y) - x)) <= 2 * Pow2(Exponent(p, y))
  {
    var s, j := RN(p, x + y), Exponent(p, y);
    hide RN, Rep, Exponent, Pow2, Ulp;
    RoundsToRep(p, x + y);
    RoundsToNearest(p, s - x, y);
    ExponentOfSum(p, x, y);
  }

  // The approximation v of y that the six-operation sum recovers from s.
  function Recovered(p: nat, x: int, y: int): int {
    RN(p, RN(p, x + y) - x)
  }

  lemma RecoveredNegates(p: nat, x: int, y: int)
    ensures Recovered(p, -x, -y) == -Recovered(p, x, y)
  {
    hide RN;
    RoundingNegates(p, x + y);
    assert -x + -y == -(x + y);
    RoundingNegates(p, RN(p, x + y) - x);
    assert -RN(p, x + y) - -x == -(RN(p, x + y) - x);
  }

  lemma NearFloatsSubtract(p: nat, y: int, v: int, j: nat)
    requires p >= 2 && j >= 1 && Rep(p, y) && Rep(p, v) && Abs(y - v) <= 2 * Pow2(j)
    requires Exponent(p, Abs(y)) >= j - 1 && Exponent(p, Abs(v)) >= j - 1
    ensures Rep(p, y - v)
  {
    Pow2Monotone(2, p);
    assert Pow2(2) == 4 && Pow2(j) == 2 * Pow2(j - 1);
    hide Rep, Exponent, Pow2;
    RepExponent(p, y, j - 1);
    RepExponent(p, v, j - 1);
    MultipleSum(y, v, Pow2(j - 1));
    ProductMonotone(4, Pow2(p), Pow2(j - 1));
    RepByMultiple(p, y - v, j - 1);
  }

  lemma TinyIsRep(p: nat, d: int)
    requires p >= 2 && Abs(d) <= 2 * Pow2(0)
    ensures Rep(p, d)
  {
    Pow2Monotone(2, p);
    assert Pow2(2) == 4 && Pow2(0) == 1;
    hide Pow2;
    RepByMultiple(p, d, 0);
  }

  // y - v is a float when x is the smaller operand.
  lemma ResidueIsRepPositive(p: nat, x: int, y: int)
    requires p >= 2 && Rep(p, x) && Rep(p, y) && Abs(x) < y
    ensures Rep(p, y - Recovered(p, x, y))
  {
    var s := RN(p, x + y);
    var v := Recovered(p, x, y);
    var j := Exponent(p, y);
    hide RN, Rep, Exponent;
    ResidueBounds(p, x, y);
    ExponentBounds(p, y);
    if j == 0 {
      TinyIsRep(p, y - v);
    } else {
      hide Pow2;
      assert s - x == y - (x + y - s);
      ResidueExponent(p, y, x + y - s, v, j);
      RoundsToRep(p, s - x);
      NearFloatsSubtract(p, y, v, j);
    }
  }

  lemma ResidueIsRep(p: nat, x: int, y: int)
    requires p >= 2 && Rep(p, x) && Rep(p, y) && Abs(x) < Abs(y)
    ensures Rep(p, y - Recovered(p, x, y))
  {
    hide Rep, Recovered;
    if y > 0 {
      ResidueIsRepPositive(p, x, y);
    } else {
      RepNegates(p, x);
      RepNegates(p, y);
      ResidueIsRepPositive(p, -x, -y);
      RecoveredNegates(p, x, y);
      RepNegates(p, -y - Recovered(p, -x, -y));
    }
  }

  // When the rounded sum is smaller than the smaller operand, the operands cancel exactly.
  lemma SmallSumIsRep(p: nat, x: int, y: int)
    requires p >= 1 && Rep(p, x) && Rep(p, y) && Abs(x) < y && Abs(RN(p, x + y)) < Abs(x)
    ensures Rep(p, x + y)
  {
    RepNegates(p, x);
    RoundsAbove(p, x + y, y);
    RoundsAbove(p, x + y, -x);
    NearbyDifference(p, y, -x);
  }

  lemma TwoSumSmallResult(p: nat, x: int, y: int)
    requires p >= 1 && Rep(p, x) && Rep(p, y) && Abs(x) < Abs(y) && Abs(RN(p, x + y)) < Abs(x)
    ensures Rep(p, x + y)
  {
    if y > 0 {
      SmallSumIsRep(p, x, y);
    } else {
      RepNegates(p, x);
      RepNegates(p, y);
      RoundingNegates(p, x + y);
      assert -x + -y == -(x + y);
      SmallSumIsRep(p, -x, -y);
      RepNegates(p, -x + -y);
    }
  }

  lemma TwoSumOrdered(p: nat, x: int, y: int)
    requires p >= 1 && Rep(p, x) && Rep(p, y) && Abs(x) >= Abs(y)
    ensures TwoSum(p, x, y).y == x + y - RN(p, x + y)
  {
    hide RN, Rep;
    var s := RN(p, x + y);
    ErrorIsRep(p, x, y);
    DifferenceIsRep(p, x, y);
    RepNegates(p, x - s);
    RepIsFixed(p, s - x);
    RepIsFixed(p, x);
    ZeroIsRep(p);
    RepIsFixed(p, 0);
    RepIsFixed(p, x + y - s);
  }

  lemma TwoSumCancelling(p: nat, x: int, y: int)
    requires p >= 1 && Rep(p, x) && Rep(p, y) && Abs(x) < Abs(y) && Abs(RN(p, x + y)) < Abs(x)
    ensures TwoSum(p, x, y).y == x + y - RN(p, x + y)
  {
    hide RN, Rep;
    TwoSumSmallResult(p, x, y);
    RepIsFixed(p, x + y);
    RepIsFixed(p, x);
    RepIsFixed(p, y);
    ZeroIsRep(p);
    RepIsFixed(p, 0);
  }

  lemma TwoSumReversed(p: nat, x: int, y: int)
    requires p >= 2 && Rep(p, x) && Rep(p, y) && Abs(x) < Abs(y) && Abs(RN(p, x + y)) >= Abs(x)
    ensures TwoSum(p, x, y).y == x + y - RN(p, x + y)
  {
    hide RN, Rep;
    var s := RN(p, x + y);
    var v := RN(p, s - x);
    ErrorIsRep(p, x, y);
    RoundsToRep(p, x + y);
    RepNegates(p, x);
    DifferenceIsRep(p, s, -x);
    RepIsFixed(p, s - v);
    ErrorIsRep(p, s, -x);
    RepNegates(p, s - x - v);
    RepIsFixed(p, x - (s - v));
    ResidueIsRep(p, x, y);
    RepIsFixed(p, y - v);
    RepIsFixed(p, x + y - s);
  }

  // The six-operation sum is exact whatever the order of the operands.
  lemma TwoSumExact(p: nat, x: int, y: int)
    requires p >= 2 && Rep(p, x) && Rep(p, y)
    ensures Exactly(p, TwoSum(p, x, y), x + y)
  {
    var s := RN(p, x + y);
    assert TwoSum(p, x, y).x == s;
    hide RN, Rep, TwoSum;
    RoundsToRep(p, x + y);
    ErrorIsRep(p, x, y);
    if Abs(x) >= Abs(y) {
      TwoSumOrdered(p, x, y);
    } else if Abs(s) < Abs(x) {
      TwoSumCancelling(p, x, y);
    } else {
      TwoSumReversed(p, x, y);
    }
  }

  // ---------------------------------------------------------------- products

  // Multiplication followed by an addition, each rounded (vmla without FMA).
  function MulAdd(p: nat, x: int, y: int, z: int): int {
    RN(p, RN(p, x * y) + z)
  }

  // dfmul_vf2_vf_vf and ddmul_vd2_vd_vd with FMA: the product minus s is rounded once.
  function MulFma(p: nat, x: int, y: int): Double {
    var s := RN(p, x * y);
    Double(s, RN(p, x * y - s))
  }

  const SINGLE: nat := 24

  // x without what is below u.
  function Masked(x: int, u: nat): int
    requires u > 0
  {
    if x < 0 then -(-x / u * u) else x / u * u
  }

  // vupper_vf_vf: the mask 0xfffff000 clears the low 12 bits of the significand.
  function Upper(x: int): int {
    Masked(x, 4096 * Ulp(SINGLE, x))
  }

  // The four multiply-adds of the split product.
  function AddPartialProducts(xh: int, xl: int, yh: int, yl: int, s: int): int {
    var t := MulAdd(SINGLE, xh, yh, -s);
    var t := MulAdd(SINGLE, xl, yh, t);
    var t := MulAdd(SINGLE, xh, yl, t);
    MulAdd(SINGLE, xl, yl, t)
  }

  // dfmul_vf2_vf_vf without FMA.
  function MulSplit(x: int, y: int): Double {
    var xh := Upper(x);
    var xl := RN(SINGLE, x - xh);
    var yh := Upper(y);
    var yl := RN(SINGLE, y - yh);
    var s := RN(SINGLE, x * y);
    Double(s, AddPartialProducts(xh, xl, yh, yl, s))
  }

  // The significand of zero or of a normal number.
  predicate Significand(p: nat, x: int)
    requires p >= 1
  {
    x == 0 || Pow2(p - 1) <= Abs(x) < Pow2(p)
  }

  lemma ProductBound(a: int, b: int, m: nat, n: nat)
    requires Abs(a) <= m && Abs(b) <= n
    ensures Abs(a * b) <= m * n
  {
    AbsOfProduct(a, b);
    ProductMonotone(Abs(a), m, Abs(b));
    ProductMonotone(Abs(b), n, m);
  }

  lemma StrictProductBound(a: int, b: int, m: nat)
    requires Abs(a) < m && Abs(b) < m
    ensures Abs(a * b) < m * m
  {
    ProductBound(a, b, m - 1, m - 1);
    ProductMonotone(m - 1, m, m - 1);
    ProductStrict(m - 1, m, m);
  }

  lemma ProductErrorBound(p: nat, x: int, y: int)
    requires p >= 1 && Abs(x) < Pow2(p) && Abs(y) < Pow2(p)
    ensures 2 * Abs(x * y - RN(p, x * y)) <= Pow2(p)
  {
    hide RN;
    RoundsToRep(p, x * y);
    StrictProductBound(x, y, Pow2(p));
    hide Pow2;
    ExponentLeast(p, Abs(x * y), p);
    Pow2Monotone(Exponent(p, Abs(x * y)), p);
  }

  lemma FmaOfSignificands(p: nat, x: int, y: int)
    requires p >= 1 && Abs(x) < Pow2(p) && Abs(y) < Pow2(p)
    ensures Exactly(p, MulFma(p, x, y), x * y)
  {
    hide RN;
    var s := RN(p, x * y);
    RoundsToRep(p, x * y);
    ProductErrorBound(p, x, y);
    RepByMultiple(p, x * y - s, 0);
    RepIsFixed(p, x * y - s);
  }

  lemma UpperOfSignificand(x: int)
    requires Abs(x) < 4096 * 4096
    ensures Upper(x) == Masked(x, 4096)
  {
    Binary24();
    hide Pow2, Masked;
    assert Exponent(SINGLE, Abs(x)) == 0;
    assert Pow2(0) == 1 by { Binary24(); }
  }

  lemma UpperParts(x: int)
    requires Abs(x) < 4096 * 4096
    ensures Upper(x) % 4096 == 0 && Abs(Upper(x) / 4096) <= 4095 && Abs(x - Upper(x)) <= 4095
  {
    UpperOfSignificand(x);
    hide Upper, Masked;
    var q, r := QuotientAndRest(Abs(x), 4096);
    MaskedAt(x, 4096, q, r);
  }

  lemma {:induction false} Binary24()
    ensures Pow2(0) == 1 && Pow2(12) == 4096 && Pow2(23) == 8388608 && Pow2(24) == 16777216
  {
    assert Pow2(6) == 64;
    Pow2Add(6, 6);
    Pow2Add(12, 11);
    assert Pow2(11) == 2048 by { Pow2Add(6, 5); }
  }

  lemma Rearrange(a: int, u: int, b: int, v: int)
    ensures (a * u) * (b * v) == (a * b) * (u * v)
  {
    assert (a * u) * (b * v) == ((a * u) * b) * v == ((a * b) * u) * v;
    Associate(a * b, u, v);
  }

  // A product of two half-width parts is a float.
  lemma PartialProduct(a: int, b: int, i: nat, j: nat)
    requires Abs(a) <= 4095 && Abs(b) <= 4095
    ensures RN(SINGLE, (a * Pow2(i)) * (b * Pow2(j))) == (a * Pow2(i)) * (b * Pow2(j))
  {
    Binary24();
    ProductBound(a, b, 4095, 4095);
    Pow2Add(i, j);
    Rearrange(a, Pow2(i), b, Pow2(j));
    hide RN, Pow2;
    RepScaled(SINGLE, a * b, i + j);
    RepIsFixed(SINGLE, (a * b) * Pow2(i + j));
  }

  lemma PartialProducts(xh: int, xl: int, yh: int, yl: int)
    requires xh % 4096 == 0 && yh % 4096 == 0 && Abs(xh / 4096) <= 4095 && Abs(yh / 4096) <= 4095
    requires Abs(xl) <= 4095 && Abs(yl) <= 4095
    ensures RN(SINGLE, xh * yh) == xh * yh && RN(SINGLE, xl * yh) == xl * yh
    ensures RN(SINGLE, xh * yl) == xh * yl && RN(SINGLE, xl * yl) == xl * yl
  {
    Binary24();
    assert Pow2(0) == 1;
    var a, b := xh / 4096, yh / 4096;
    assert xh == a * Pow2(12) && yh == b * Pow2(12) && xl == xl * Pow2(0) && yl == yl * Pow2(0);
    hide RN, Pow2;
    PartialProduct(a, b, 12, 12);
    PartialProduct(xl, b, 0, 12);
    PartialProduct(a, yl, 12, 0);
    PartialProduct(xl, yl, 0, 0);
  }

  lemma SplitProduct(xh: int, xl: int, yh: int, yl: int)
    requires xh % 4096 == 0 && yh % 4096 == 0
    ensures (xh + xl) * (yh + yl) == xh * yh + xl * yh + xh * yl + xl * yl
    ensures (xh * yh) % 8388608 == 0 && (xl * yh) % 4096 == 0 && (xh * yl) % 4096 == 0
  {
    var a, b := xh / 4096, yh / 4096;
    assert xh == a * 4096 && yh == b * 4096;
    assert xl * yh == (xl * b) * 4096 && xh * yl == (a * yl) * 4096;
    Rearrange(a, 4096, b, 4096);
    assert xh * yh == (2 * (a * b)) * 8388608;
    assert (xh + xl) * (yh + yl) == xh * (yh + yl) + xl * (yh + yl);
  }

  lemma SplitBounds(xh: int, xl: int, yh: int, yl: int)
    requires Abs(xh + xl) < 16777216 && Abs(yh) < 16777216 && Abs(xl) <= 4095 && Abs(yl) <= 4095
    ensures Abs(xl * yh) <= 4095 * 16777215 && Abs(xl * yl) <= 4095 * 4095
    ensures Abs(xh * yl + xl * yl) <= 16777215 * 4095
  {
    ProductBound(xl, yh, 4095, 16777215);
    ProductBound(xl, yl, 4095, 4095);
    ProductBound(xh + xl, yl, 16777215, 4095);
    assert (xh + xl) * yl == xh * yl + xl * yl;
  }

  lemma RepOnGrid23(v: int)
    requires v % 8388608 == 0 && Abs(v) <= 16777216 * 8388608
    ensures Rep(SINGLE, v) && v % 4096 == 0
  {
    Binary24();
    hide Pow2;
    RepByMultiple(SINGLE, v, 23);
    MultipleOfSmaller(v, 12, 23);
  }

  lemma RepOnGrid12(v: int)
    requires v % 4096 == 0 && Abs(v) <= 16777216 * 4096
    ensures Rep(SINGLE, v)
  {
    Binary24();
    hide Pow2;
    RepByMultiple(SINGLE, v, 12);
  }

  lemma RepSmall(v: int)
    requires Abs(v) <= 16777216
    ensures Rep(SINGLE, v)
  {
    Binary24();
    assert Pow2(0) == 1;
    hide Pow2;
    RepByMultiple(SINGLE, v, 0);
  }

  // The accumulator after each partial product; e is the rounding error of the product.
  lemma PartialSums(hh: int, lh: int, hl: int, ll: int, e: int)
    requires hh % 8388608 == 0 && lh % 4096 == 0 && hl % 4096 == 0
    requires Abs(lh) <= 4095 * 16777215 && Abs(ll) <= 4095 * 4095 && Abs(hl + ll) <= 16777215 * 4095
    requires Abs(e) <= 8388608 && (hh + lh + hl + ll - e) % 8388608 == 0
    ensures Rep(SINGLE, e - ll - hl - lh) && Rep(SINGLE, e - ll - hl) && Rep(SINGLE, e - ll) && Rep(SINGLE, e)
  {
    var t1 := e - ll - hl - lh;
    MultipleSum(hh, hh + lh + hl + ll - e, 8388608);
    assert t1 == hh - (hh + lh + hl + ll - e);
    RepOnGrid23(t1);
    MultipleSum(t1, lh, 4096);
    RepOnGrid12(t1 + lh);
    MultipleSum(t1 + lh, hl, 4096);
    RepOnGrid12(t1 + lh + hl);
    RepSmall(e);
  }

  lemma AbsOfProduct(x: int, y: int)
    ensures Abs(x * y) == Abs(x) * Abs(y)
  {
    if y >= 0 {
      AbsProduct(x, y);
    } else {
      AbsProduct(x, -y);
      assert x * y == -(x * (-y));
    }
  }

  lemma ProductOnGrid(x: int, y: int)
    requires 8388608 <= Abs(x) < 16777216 && 8388608 <= Abs(y) < 16777216
    ensures RN(SINGLE, x * y) % 8388608 == 0
  {
    Binary24();
    assert Pow2(22) == 4194304;
    hide RN, Pow2;
    AbsOfProduct(x, y);
    ProductMonotone(8388608, Abs(x), Abs(y));
    ExponentAbove(SINGLE, Abs(x * y), 22);
    RoundsToRep(SINGLE, x * y);
    MultipleOfSmaller(RN(SINGLE, x * y), 23, Exponent(SINGLE, Abs(x * y)));
  }

  function AddUp(hh: int, lh: int, hl: int, ll: int, s: int): int {
    RN(SINGLE, ll + RN(SINGLE, hl + RN(SINGLE, lh + RN(SINGLE, hh + -s))))
  }

  // The chain of roundings when every partial product and partial sum is a float.
  lemma Accumulate(hh: int, lh: int, hl: int, ll: int, s: int)
    requires var e := hh + lh + hl + ll - s;
      && Rep(SINGLE, e - ll - hl - lh) && Rep(SINGLE, e - ll - hl) && Rep(SINGLE, e - ll) && Rep(SINGLE, e)
    ensures AddUp(hh, lh, hl, ll, s) == hh + lh + hl + ll - s
  {
    hide RN, Rep;
    var e := hh + lh + hl + ll - s;
    RepIsFixed(SINGLE, e - ll - hl - lh);
    RepIsFixed(SINGLE, e - ll - hl);
    RepIsFixed(SINGLE, e - ll);
    RepIsFixed(SINGLE, e);
    assert e - ll - hl - lh == hh + -s;
  }

  lemma AccumulatedError(hh: int, lh: int, hl: int, ll: int, s: int)
    requires hh % 8388608 == 0 && lh % 4096 == 0 && hl % 4096 == 0
    requires Abs(lh) <= 4095 * 16777215 && Abs(ll) <= 4095 * 4095 && Abs(hl + ll) <= 16777215 * 4095
    requires Abs(hh + lh + hl + ll - s) <= 8388608 && s % 8388608 == 0
    ensures AddUp(hh, lh, hl, ll, s) == hh + lh + hl + ll - s
  {
    hide RN, Rep;
    var e := hh + lh + hl + ll - s;
    assert hh + lh + hl + ll - e == s;
    PartialSums(hh, lh, hl, ll, e);
    Accumulate(hh, lh, hl, ll, s);
  }

  lemma LowPart(x: int)
    requires Abs(x) < 4096 * 4096
    ensures RN(SINGLE, x - Upper(x)) == x - Upper(x)
  {
    UpperParts(x);
    hide RN, Upper;
    RepSmall(x - Upper(x));
    RepIsFixed(SINGLE, x - Upper(x));
  }

  lemma AccumulatorIs(xh: int, xl: int, yh: int, yl: int, s: int)
    requires xh % 4096 == 0 && yh % 4096 == 0 && Abs(xh / 4096) <= 4095 && Abs(yh / 4096) <= 4095
    requires Abs(xl) <= 4095 && Abs(yl) <= 4095
    ensures AddPartialProducts(xh, xl, yh, yl, s) == AddUp(xh * yh, xl * yh, xh * yl, xl * yl, s)
  {
    hide RN;
    PartialProducts(xh, xl, yh, yl);
  }

  // The accumulator ends with the rounding error of the product.
  lemma PartialProductsExact(xh: int, xl: int, yh: int, yl: int, s: int)
    requires xh % 4096 == 0 && yh % 4096 == 0 && Abs(xh / 4096) <= 4095 && Abs(yh / 4096) <= 4095
    requires Abs(xl) <= 4095 && Abs(yl) <= 4095 && Abs(xh + xl) < 16777216
    requires Abs(xh * yh + xl * yh + xh * yl + xl * yl - s) <= 8388608 && s % 8388608 == 0
    ensures AddPartialProducts(xh, xl, yh, yl, s) == xh * yh + xl * yh + xh * yl + xl * yl - s
  {
    AccumulatorIs(xh, xl, yh, yl, s);
    SplitProduct(xh, xl, yh, yl);
    SplitBounds(xh, xl, yh, yl);
    hide *;
    AccumulatedError(xh * yh, xl * yh, xh * yl, xl * yl, s);
  }

  lemma SplitError(x: int, y: int)
    requires 8388608 <= Abs(x) < 16777216 && 8388608 <= Abs(y) < 16777216
    ensures MulSplit(x, y) == Double(RN(SINGLE, x * y), x * y - RN(SINGLE, x * y))
  {
    UpperParts(x);
    UpperParts(y);
    LowPart(x);
    LowPart(y);
    Binary24();
    hide RN, Pow2, Upper, Rep, AddPartialProducts;
    ProductErrorBound(SINGLE, x, y);
    ProductOnGrid(x, y);
    SplitProduct(Upper(x), x - Upper(x), Upper(y), y - Upper(y));
    PartialProductsExact(Upper(x), x - Upper(x), Upper(y), y - Upper(y), RN(SINGLE, x * y));
  }

  lemma UpperOfZero()
    ensures Upper(0) == 0
  {
    UpperOfSignificand(0);
  }

  lemma SplitOfZero(x: int, y: int)
    requires (x == 0 || y == 0) && Abs(x) < 4096 * 4096 && Abs(y) < 4096 * 4096
    ensures MulSplit(x, y) == Double(0, 0)
  {
    UpperOfZero();
    LowPart(x);
    LowPart(y);
    RepSmall(0);
    RepIsFixed(SINGLE, 0);
    hide RN, Upper;
    assert x * y == 0 && Upper(x) * Upper(y) == 0 && (x - Upper(x)) * Upper(y) == 0
        && Upper(x) * (y - Upper(y)) == 0 && (x - Upper(x)) * (y - Upper(y)) == 0;
  }

  lemma FmaError(p: nat, x: int, y: int)
    requires p >= 1 && Abs(x) < Pow2(p) && Abs(y) < Pow2(p)
    ensures MulFma(p, x, y) == Double(RN(p, x * y), x * y - RN(p, x * y))
  {
    FmaOfSignificands(p, x, y);
  }

  lemma SplitOfSignificands(x: int, y: int)
    requires Significand(SINGLE, x) && Significand(SINGLE, y)
    ensures MulSplit(x, y) == MulFma(SINGLE, x, y)
    ensures Exactly(SINGLE, MulSplit(x, y), x * y)
  {
    Binary24();
    hide RN, Pow2, MulSplit, MulFma, Exactly, Rep;
    FmaOfSignificands(SINGLE, x, y);
    FmaError(SINGLE, x, y);
    if x == 0 || y == 0 {
      SplitOfZero(x, y);
      assert x * y == 0;
      RepSmall(0);
      RepIsFixed(SINGLE, 0);
    } else {
      SplitError(x, y);
    }
  }

  function Times2(d: Double, k: nat): Double {
    Double(d.x * Pow2(k), d.y * Pow2(k))
  }

  // Moving the exact value by a power of two moves the pair along.
  lemma ExactlyScales(p: nat, d: Double, z: int, k: nat)
    requires p >= 1 && Exactly(p, d, z)
    ensures Exactly(p, Times2(d, k), z * Pow2(k))
  {
    hide RN, Rep, Pow2;
    RoundingScales(p, z, k);
    RepScales(p, d.x, k);
    RepScales(p, d.y, k);
    Distribute(d.x, d.y, Pow2(k));
  }

  lemma RepScales(p: nat, x: int, k: nat)
    requires Rep(p, x)
    ensures Rep(p, x * Pow2(k))
  {
    var m: int, i: nat :| IsScaled(p, x, m, i);
    Pow2Add(i, k);
    Associate(m, Pow2(i), Pow2(k));
    assert IsScaled(p, x * Pow2(k), m, i + k);
  }

  // ---------------------------------------------------------------- products of floats

  // x == a * 2^i and y == b * 2^j: every operation scales, as long as nothing underflows or
  // overflows.
  lemma ProductScales(a: int, b: int, i: nat, j: nat)
    ensures (a * Pow2(i)) * (b * Pow2(j)) == (a * b) * Pow2(i + j)
  {
    Rearrange(a, Pow2(i), b, Pow2(j));
    Pow2Add(i, j);
  }

  lemma DifferenceScales(a: int, b: int, u: int)
    ensures a * u - b * u == (a - b) * u && a * u + b * u == (a + b) * u && -(a * u) == (-a) * u
  {
  }

  // A rounded value and its rounding error.
  lemma ErrorScales(p: nat, z: int, k: nat)
    requires p >= 1
    ensures RN(p, z * Pow2(k)) == RN(p, z) * Pow2(k)
    ensures RN(p, z * Pow2(k) - RN(p, z * Pow2(k))) == RN(p, z - RN(p, z)) * Pow2(k)
  {
    hide *;
    RoundingScales(p, z, k);
    DifferenceScales(z, RN(p, z), Pow2(k));
    RoundingScales(p, z - RN(p, z), k);
  }

  lemma FmaIs(p: nat, x: int, y: int, z: int)
    requires x * y == z
    ensures MulFma(p, x, y) == Double(RN(p, z), RN(p, z - RN(p, z)))
  {
    hide RN;
  }

  lemma FmaScales(p: nat, a: int, b: int, i: nat, j: nat)
    requires p >= 1
    ensures MulFma(p, a * Pow2(i), b * Pow2(j)) == Times2(MulFma(p, a, b), i + j)
  {
    hide *;
    ProductScales(a, b, i, j);
    FmaIs(p, a * Pow2(i), b * Pow2(j), (a * b) * Pow2(i + j));
    FmaIs(p, a, b, a * b);
    ErrorScales(p, a * b, i + j);
    Times2Is(MulFma(p, a, b), i + j);
  }

  lemma Times2Is(d: Double, k: nat)
    ensures Times2(d, k) == Double(d.x * Pow2(k), d.y * Pow2(k))
  {
  }

  lemma MulAddScales(p: nat, a: int, b: int, z: int, i: nat, j: nat)
    requires p >= 1
    ensures MulAdd(p, a * Pow2(i), b * Pow2(j), z * Pow2(i + j)) == MulAdd(p, a, b, z) * Pow2(i + j)
  {
    hide RN, Pow2;
    ProductScales(a, b, i, j);
    RoundingScales(p, a * b, i + j);
    DifferenceScales(RN(p, a * b), z, Pow2(i + j));
    RoundingScales(p, RN(p, a * b) + z, i + j);
  }

  // The product of the two floats is exact, with one rounding to take the error.
  lemma MulFmaExact(p: nat, x: int, y: int)
    requires p >= 1 && Rep(p, x) && Rep(p, y)
    ensures Exactly(p, MulFma(p, x, y), x * y)
  {
    var a: int, i: nat :| IsScaled(p, x, a, i);
    var b: int, j: nat :| IsScaled(p, y, b, j);
    hide RN, Pow2, MulFma, Exactly, Times2;
    FmaOfSignificands(p, a, b);
    ExactlyScales(p, MulFma(p, a, b), a * b, i + j);
    FmaScales(p, a, b, i, j);
    ProductScales(a, b, i, j);
  }

  lemma MaskScales(a: int, v: nat, u: nat)
    requires v > 0 && u > 0
    ensures v * u > 0 && Masked(a * u, v * u) == Masked(a, v) * u
  {
    var m := Abs(a);
    var q, r := QuotientAndRest(m, v);
    hide Masked;
    MaskedAt(a, v, q, r);
    AbsProduct(a, u);
    ProductStrict(0, v, u);
    ProductStrict(r, v, u);
    ProductMonotone(0, r, u);
    Distribute(q * v, r, u);
    Associate(q, v, u);
    ProductSign(a, u);
    MaskedAt(a * u, v * u, q, r * u);
    DifferenceScales(q * v, 0, u);
  }

  lemma ProductSign(a: int, u: nat)
    requires u > 0
    ensures a * u < 0 <==> a < 0
  {
    if a < 0 {
      ProductStrict(a, 0, u);
    } else {
      ProductMonotone(0, a, u);
    }
  }

  lemma MaskedAt(x: int, u: nat, q: int, r: nat)
    requires u > 0 && Abs(x) == q * u + r && r < u
    ensures Masked(x, u) == if x < 0 then -(q * u) else q * u
  {
    DivisionIsUnique(Abs(x), u, q, r);
  }

  lemma NormalExponent(a: int, i: nat)
    requires a != 0 && Significand(SINGLE, a)
    ensures Exponent(SINGLE, Abs(a * Pow2(i))) == i
  {
    AbsProduct(a, Pow2(i));
    hide Exponent;
    ProductStrict(Abs(a), Pow2(SINGLE), Pow2(i));
    ProductMonotone(Pow2(SINGLE - 1), Abs(a), Pow2(i));
    ExponentLeast(SINGLE, Abs(a * Pow2(i)), i);
    if i > 0 {
      Associate(Pow2(SINGLE - 1), 2, Pow2(i - 1));
      ExponentAbove(SINGLE, Abs(a * Pow2(i)), i - 1);
    }
  }

  lemma UpperScales(a: int, i: nat)
    requires Significand(SINGLE, a)
    ensures Upper(a * Pow2(i)) == Upper(a) * Pow2(i)
  {
    Binary24();
    UpperOfSignificand(a);
    if a == 0 {
      assert a * Pow2(i) == 0;
    } else {
      NormalExponent(a, i);
      hide Pow2, Masked, Exponent;
      MaskScales(a, 4096, Pow2(i));
    }
  }

  // The four multiply-adds on scaled parts.
  lemma PartsScale(ah: int, al: int, bh: int, bl: int, s: int, i: nat, j: nat)
    ensures AddPartialProducts(ah * Pow2(i), al * Pow2(i), bh * Pow2(j), bl * Pow2(j), s * Pow2(i + j)) ==
      AddPartialProducts(ah, al, bh, bl, s) * Pow2(i + j)
  {
    hide MulAdd, Pow2;
    var t0 := MulAdd(SINGLE, ah, bh, -s);
    var t1 := MulAdd(SINGLE, al, bh, t0);
    var t2 := MulAdd(SINGLE, ah, bl, t1);
    DifferenceScales(s, 0, Pow2(i + j));
    MulAddScales(SINGLE, ah, bh, -s, i, j);
    MulAddScales(SINGLE, al, bh, t0, i, j);
    MulAddScales(SINGLE, ah, bl, t1, i, j);
    MulAddScales(SINGLE, al, bl, t2, i, j);
  }

  lemma LowerScales(a: int, i: nat)
    requires Significand(SINGLE, a)
    ensures RN(SINGLE, a * Pow2(i) - Upper(a * Pow2(i))) == RN(SINGLE, a - Upper(a)) * Pow2(i)
  {
    hide RN, Pow2, Upper;
    UpperScales(a, i);
    DifferenceScales(a, Upper(a), Pow2(i));
    RoundingScales(SINGLE, a - Upper(a), i);
  }

  lemma SplitIs(x: int, y: int, xh: int, xl: int, yh: int, yl: int, s: int)
    requires xh == Upper(x) && xl == RN(SINGLE, x - Upper(x)) && yh == Upper(y) && yl == RN(SINGLE, y - Upper(y))
    requires s == RN(SINGLE, x * y)
    ensures MulSplit(x, y) == Double(s, AddPartialProducts(xh, xl, yh, yl, s))
  {
    hide RN, Upper, AddPartialProducts;
  }

  lemma SplitScales(a: int, b: int, i: nat, j: nat)
    requires Significand(SINGLE, a) && Significand(SINGLE, b)
    ensures MulSplit(a * Pow2(i), b * Pow2(j)) == Times2(MulSplit(a, b), i + j)
  {
    hide *;
    var u, v, w := Pow2(i), Pow2(j), Pow2(i + j);
    var ah, al, bh, bl := Upper(a), RN(SINGLE, a - Upper(a)), Upper(b), RN(SINGLE, b - Upper(b));
    var s := RN(SINGLE, a * b);
    UpperScales(a, i);
    UpperScales(b, j);
    LowerScales(a, i);
    LowerScales(b, j);
    ScaledProduct(a, b, i, j);
    SplitIs(a * u, b * v, ah * u, al * u, bh * v, bl * v, s * w);
    SplitIs(a, b, ah, al, bh, bl, s);
    PartsScale(ah, al, bh, bl, s, i, j);
    Times2Is(MulSplit(a, b), i + j);
  }

  lemma ScaledProduct(a: int, b: int, i: nat, j: nat)
    ensures RN(SINGLE, (a * Pow2(i)) * (b * Pow2(j))) == RN(SINGLE, a * b) * Pow2(i + j)
  {
    hide RN, Pow2;
    ProductScales(a, b, i, j);
    RoundingScales(SINGLE, a * b, i + j);
  }

  // Zero or a normal float.
  ghost predicate Normal(p: nat, x: int)
    requires p >= 1
  {
    Rep(p, x) && (x == 0 || Abs(x) >= Pow2(p - 1))
  }

  lemma NormalParts(x: int) returns (a: int, i: nat)
    requires Normal(SINGLE, x)
    ensures Significand(SINGLE, a) && x == a * Pow2(i)
  {
    RepIsMultiple(SINGLE, x);
    i := Exponent(SINGLE, Abs(x));
    if x == 0 {
      a := 0;
    } else {
      NormalBounds(x);
      hide *;
      var r;
      a, r := QuotientAndRest(x, Pow2(i));
      AbsProduct(a, Pow2(i));
      FactorBounds(Abs(a), Pow2(i), Pow2(SINGLE - 1), Pow2(SINGLE));
      SignificandIs(a);
    }
  }

  lemma SignificandIs(a: int)
    requires Pow2(SINGLE - 1) <= Abs(a) < Pow2(SINGLE)
    ensures Significand(SINGLE, a)
  {
  }

  lemma NormalBounds(x: int)
    requires Normal(SINGLE, x) && x != 0
    ensures var u := Pow2(Exponent(SINGLE, Abs(x))); Pow2(SINGLE - 1) * u <= Abs(x) < Pow2(SINGLE) * u
  {
    ExponentBounds(SINGLE, Abs(x));
    hide Exponent;
    assert Pow2(0) == 1;
  }

  lemma FactorBounds(n: nat, u: nat, h: nat, t: nat)
    requires h * u <= n * u < t * u
    ensures h <= n < t
  {
    ProductLess(n, t, u);
    if n < h {
      ProductStrict(n, h, u);
    }
  }

  // The split product of two singles is exact and agrees with the FMA product.
  lemma MulSplitExact(x: int, y: int)
    requires Normal(SINGLE, x) && Normal(SINGLE, y)
    ensures MulSplit(x, y) == MulFma(SINGLE, x, y)
    ensures Exactly(SINGLE, MulSplit(x, y), x * y)
  {
    hide RN, Pow2, MulSplit, MulFma, Exactly, Times2, Significand;
    var a, i := NormalParts(x);
    var b, j := NormalParts(y);
    SplitOfSignificands(a, b);
    SplitScales(a, b, i, j);
    FmaScales(SINGLE, a, b, i, j);
    MulFmaExact(SINGLE, x, y);
  }
}
