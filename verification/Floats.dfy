// Binary floating point with p significand bits, without overflow.  A value is counted in units
// of the smallest subnormal, so that every float is an integer m * 2^k with |m| < 2^p, and
// subnormals need no special case.
module Floats {
  import opened Arithmetic
  import opened Powers

  function Abs(x: int): nat {
    if x < 0 then -x else x
  }

  // x is a floating-point number of precision p.
  ghost predicate Rep(p: nat, x: int) {
    exists m: int, k: nat :: IsScaled(p, x, m, k)
  }

  predicate IsScaled(p: nat, x: int, m: int, k: nat) {
    Abs(m) < Pow2(p) && x == m * Pow2(k)
  }

  // The exponent of the last place of a value of magnitude a.
  function Exponent(p: nat, a: nat): (k: nat) {
    if a < Pow2(p) then 0 else 1 + Exponent(p, a / 2)
  }

  function Ulp(p: nat, x: int): nat {
    Pow2(Exponent(p, Abs(x)))
  }

  // The multiple of u nearest to x; of two equally near ones, the even multiple.
  function NearestMultiple(x: int, u: nat): int
    requires u > 0
  {
    var q, r := x / u, x % u;
    if 2 * r < u || (2 * r == u && q % 2 == 0) then q * u else (q + 1) * u
  }

  // Rounding to nearest, ties to even.
  function RN(p: nat, x: int): int {
    NearestMultiple(x, Ulp(p, x))
  }

  // ---------------------------------------------------------------- multiples

  lemma AbsProduct(q: int, u: nat)
    ensures Abs(q * u) == Abs(q) * u
  {
    assert (-q) * u == -(q * u);
    ProductMonotone(0, Abs(q), u);
  }

  lemma MultipleSum(x: int, y: int, u: nat)
    requires u > 0 && x % u == 0 && y % u == 0
    ensures (x + y) % u == 0 && (x - y) % u == 0 && (-x) % u == 0
  {
    var a, b := x / u, y / u;
    Quotient(x + y, u, a + b);
    Quotient(x - y, u, a - b);
    Quotient(-x, u, -a);
  }

  lemma MultipleOfSmaller(x: int, i: nat, j: nat)
    requires i <= j && x % Pow2(j) == 0
    ensures x % Pow2(i) == 0
  {
    Pow2Add(i, j - i);
    var q := x / Pow2(j);
    Associate(q, Pow2(i), Pow2(j - i));
    Associate(q, Pow2(j - i), Pow2(i));
    assert x == q * Pow2(j) == (q * Pow2(j - i)) * Pow2(i);
    Quotient(x, Pow2(i), q * Pow2(j - i));
  }

  // ---------------------------------------------------------------- representable numbers

  lemma {:induction false} ExponentBounds(p: nat, a: nat)
    requires p >= 1
    ensures a < Pow2(p) * Pow2(Exponent(p, a))
    ensures Exponent(p, a) > 0 ==> Pow2(p - 1) * Pow2(Exponent(p, a)) <= a
  {
    if a >= Pow2(p) {
      ExponentBounds(p, a / 2);
      var k := Exponent(p, a / 2);
      assert Pow2(k + 1) == 2 * Pow2(k) && Pow2(p) == 2 * Pow2(p - 1) && Exponent(p, a) == k + 1;
      assert k == 0 ==> Pow2(k) == 1;
      hide Pow2, Exponent;
      DoubledRight(Pow2(p), Pow2(k));
      DoubledRight(Pow2(p - 1), Pow2(k));
    }
  }

  lemma {:induction false} ExponentLeast(p: nat, a: nat, k: nat)
    requires a < Pow2(p) * Pow2(k)
    ensures Exponent(p, a) <= k
  {
    if a >= Pow2(p) {
      assert Pow2(p) * Pow2(k) == 2 * (Pow2(p) * Pow2(k - 1));
      ExponentLeast(p, a / 2, k - 1);
    }
  }

  lemma {:induction false} ExponentAbove(p: nat, a: nat, k: nat)
    requires Pow2(p) * Pow2(k) <= a
    ensures Exponent(p, a) > k
  {
    ProductMonotone(1, Pow2(k), Pow2(p));
    if k > 0 {
      assert Pow2(p) * Pow2(k) == 2 * (Pow2(p) * Pow2(k - 1));
      ExponentAbove(p, a / 2, k - 1);
    }
  }

  lemma {:induction false} ExponentMonotone(p: nat, a: nat, b: nat)
    requires p >= 1 && a <= b
    ensures Exponent(p, a) <= Exponent(p, b)
  {
    ExponentBounds(p, b);
    ExponentLeast(p, a, Exponent(p, b));
  }

  lemma QuotientBound(q: int, u: nat, b: nat)
    requires u > 0 && Abs(q * u) <= b * u
    ensures Abs(q) <= b
  {
    AbsProduct(q, u);
    if Abs(q) > b {
      ProductStrict(b, Abs(q), u);
    }
  }

  lemma ExactQuotient(x: int, u: nat, b: nat)
    requires u > 0 && x % u == 0 && Abs(x) <= b * u
    ensures x == (x / u) * u && Abs(x / u) <= b
  {
    assert x == (x / u) * u;
    QuotientBound(x / u, u, b);
  }

  lemma RepScaled(p: nat, q: int, k: nat)
    requires p >= 1 && Abs(q) <= Pow2(p)
    ensures Rep(p, q * Pow2(k))
  {
    if Abs(q) < Pow2(p) {
      assert IsScaled(p, q * Pow2(k), q, k);
    } else {
      EvenHalf(q, Pow2(p - 1));
      hide *;
      RepTop(p, q / 2, k);
    }
  }

  lemma EvenHalf(q: int, b: nat)
    requires b > 0 && Abs(q) == 2 * b
    ensures q / 2 * 2 == q && Abs(q / 2) < 2 * b
  {
  }

  lemma RepTop(p: nat, m: int, k: nat)
    requires Abs(m) < Pow2(p)
    ensures Rep(p, (m * 2) * Pow2(k))
  {
    Associate(m, 2, Pow2(k));
    assert IsScaled(p, (m * 2) * Pow2(k), m, k + 1);
  }

  lemma RepByMultiple(p: nat, x: int, k: nat)
    requires p >= 1 && x % Pow2(k) == 0 && Abs(x) <= Pow2(p) * Pow2(k)
    ensures Rep(p, x)
  {
    ExactQuotient(x, Pow2(k), Pow2(p));
    RepScaled(p, x / Pow2(k), k);
  }

  lemma RepIsMultiple(p: nat, x: int)
    requires p >= 1
    ensures Rep(p, x) <==> x % Ulp(p, x) == 0
  {
    ExponentBounds(p, Abs(x));
    if x % Ulp(p, x) == 0 {
      RepByMultiple(p, x, Exponent(p, Abs(x)));
    }
    if Rep(p, x) {
      var m: int, k: nat :| IsScaled(p, x, m, k);
      Quotient(x, Pow2(k), m);
      AbsProduct(m, Pow2(k));
      ProductStrict(Abs(m), Pow2(p), Pow2(k));
      ExponentLeast(p, Abs(x), k);
      MultipleOfSmaller(x, Exponent(p, Abs(x)), k);
    }
  }

  // ---------------------------------------------------------------- rounding

  lemma NearestIsMultiple(x: int, u: nat)
    requires u > 0
    ensures NearestMultiple(x, u) % u == 0
    ensures 2 * Abs(NearestMultiple(x, u) - x) <= u
    ensures x % u == 0 ==> NearestMultiple(x, u) == x
  {
    var q, r := x / u, x % u;
    assert x == q * u + r;
    Quotient(q * u, u, q);
    Quotient((q + 1) * u, u, q + 1);
    assert (q + 1) * u == q * u + u;
  }

  // The multiple nearest to q * u + r.
  lemma NearestAt(x: int, u: nat, q: int, r: nat)
    requires u > 0 && x == q * u + r && r < u
    ensures NearestMultiple(x, u) == if 2 * r < u || (2 * r == u && q % 2 == 0) then q * u else q * u + u
  {
    DivisionIsUnique(x, u, q, r);
    OneMore(q, u);
  }

  lemma QuotientAndRest(x: int, u: nat) returns (q: int, r: nat)
    requires u > 0
    ensures x == q * u + r && r < u && q == x / u && r == x % u
  {
    q, r := x / u, x % u;
  }

  // No multiple of u is nearer.
  lemma NearestIsNearest(x: int, u: nat, z: int)
    requires u > 0 && z % u == 0
    ensures Abs(NearestMultiple(x, u) - x) <= Abs(z - x)
  {
    NearestIsMultiple(x, u);
    var s := NearestMultiple(x, u);
    MultipleSum(z, s, u);
    var d := (z - s) / u;
    assert z - s == d * u;
    if d >= 1 {
      ProductMonotone(1, d, u);
    } else if d <= -1 {
      ProductMonotone(d, -1, u);
    }
  }

  lemma NearestNegates(x: int, u: nat)
    requires u > 0
    ensures NearestMultiple(-x, u) == -NearestMultiple(x, u)
  {
    var q, r := x / u, x % u;
    assert x == q * u + r;
    NegatedProduct(q, u);
    NegatedProduct(q + 1, u);
    OneMore(q, u);
    if r == 0 {
      DivisionIsUnique(-x, u, -q, 0);
    } else {
      assert -q - 1 == -(q + 1);
      DivisionIsUnique(-x, u, -q - 1, u - r);
    }
  }

  lemma MultipleBelow(s: int, u: nat, b: nat)
    requires u > 0 && s % u == 0 && Abs(s) < b * u + u
    ensures Abs(s) <= b * u
  {
    OneMore(b, u);
    ExactQuotient(s, u, b + 1);
    AbsProduct(s / u, u);
    ProductLess(Abs(s / u), b + 1, u);
    ProductMonotone(Abs(s / u), b, u);
  }

  // The result of a rounding is a float, half a last place from the exact value at most.
  lemma RoundsToRep(p: nat, x: int)
    requires p >= 1
    ensures Rep(p, RN(p, x)) && RN(p, x) % Ulp(p, x) == 0
    ensures 2 * Abs(RN(p, x) - x) <= Ulp(p, x)
  {
    var k := Exponent(p, Abs(x));
    var u, s := Pow2(k), RN(p, x);
    NearestIsMultiple(x, u);
    ExponentBounds(p, Abs(x));
    MultipleBelow(s, u, Pow2(p));
    RepByMultiple(p, s, k);
  }

  lemma RepIsFixed(p: nat, x: int)
    requires p >= 1 && Rep(p, x)
    ensures RN(p, x) == x
  {
    RepIsMultiple(p, x);
    NearestIsMultiple(x, Ulp(p, x));
  }

  // No float is nearer to x than RN(x).
  lemma RoundsToNearest(p: nat, x: int, z: int)
    requires p >= 1 && Rep(p, z)
    ensures Abs(RN(p, x) - x) <= Abs(z - x)
  {
    RepIsMultiple(p, z);
    var i, j := Exponent(p, Abs(z)), Exponent(p, Abs(x));
    if i >= j {
      MultipleOfSmaller(z, j, i);
      NearestIsNearest(x, Pow2(j), z);
    } else {
      ExponentBounds(p, Abs(z));
      ExponentBounds(p, Abs(x));
      TopOfBinade(p, i, j);
      var u, b := Pow2(j), Pow2(p - 1) * Pow2(j);
      Quotient(b, u, Pow2(p - 1));
      MultipleSum(b, b, u);
      hide Pow2, Exponent;
      NearestIsNearest(x, u, if x >= 0 then b else -b);
    }
  }

  lemma DoubledProduct(a: nat, b: nat, c: nat)
    requires c >= 1
    ensures (2 * a) * b <= a * ((2 * b) * c)
  {
    ProductMonotone(1, c, 2 * b);
    ProductMonotone(2 * b, (2 * b) * c, a);
  }

  lemma TopOfBinade(p: nat, i: nat, j: nat)
    requires p >= 1 && i < j
    ensures Pow2(p) * Pow2(i) <= Pow2(p - 1) * Pow2(j)
  {
    Pow2Add(i + 1, j - i - 1);
    DoubledProduct(Pow2(p - 1), Pow2(i), Pow2(j - i - 1));
  }

  // Rounding does not cross a float.
  lemma RoundsAbove(p: nat, x: int, z: int)
    requires p >= 1 && Rep(p, z)
    ensures z <= x ==> z <= RN(p, x)
    ensures x <= z ==> RN(p, x) <= z
  {
    RoundsToNearest(p, x, z);
  }

  lemma RoundingNegates(p: nat, x: int)
    ensures RN(p, -x) == -RN(p, x)
    ensures Abs(-x) == Abs(x)
  {
    NearestNegates(x, Ulp(p, x));
  }

  lemma ZeroIsRep(p: nat)
    ensures Rep(p, 0)
  {
    assert IsScaled(p, 0, 0, 0);
  }

  lemma RepNegates(p: nat, x: int)
    requires p >= 1 && Rep(p, x)
    ensures Rep(p, -x)
  {
    var m: int, k: nat :| IsScaled(p, x, m, k);
    assert (-m) * Pow2(k) == -(m * Pow2(k));
    assert IsScaled(p, -x, -m, k);
  }

  // Scaling by a power of two commutes with rounding.
  lemma RoundingScales(p: nat, x: int, k: nat)
    requires p >= 1
    ensures RN(p, x * Pow2(k)) == RN(p, x) * Pow2(k)
  {
    var j, u := Exponent(p, Abs(x)), Pow2(k);
    AbsProduct(x, u);
    ExponentBounds(p, Abs(x));
    if j == 0 {
      NearestIsMultiple(x, 1);
      RepByMultiple(p, x, 0);
      RepScaled(p, x, k);
      hide RN;
      RepIsFixed(p, x);
      RepIsFixed(p, x * u);
    } else {
      ExponentScales(p, Abs(x), k);
      Pow2Add(j, k);
      hide Pow2, Exponent;
      NearestScales(x, Pow2(j), u);
    }
  }

  lemma {:induction false} ExponentScales(p: nat, a: nat, k: nat)
    requires p >= 1 && Exponent(p, a) > 0
    ensures Exponent(p, a * Pow2(k)) == Exponent(p, a) + k
  {
    if k > 0 {
      ExponentScales(p, a, k - 1);
      var b := a * Pow2(k - 1);
      Associate(a, 2, Pow2(k - 1));
      assert a * Pow2(k) == 2 * b;
      ExponentBounds(p, b);
      assert b >= Pow2(p) && (2 * b) / 2 == b;
    }
  }

  lemma NearestScales(x: int, v: nat, u: nat)
    requires u > 0 && v > 0
    ensures v * u > 0 && NearestMultiple(x * u, v * u) == NearestMultiple(x, v) * u
  {
    ProductStrict(0, v, u);
    var q, r := x / v, x % v;
    assert x == q * v + r;
    Associate(q, v, u);
    Associate(q + 1, v, u);
    assert x * u == q * (v * u) + r * u by { assert (q * v + r) * u == (q * v) * u + r * u; }
    ProductStrict(r, v, u);
    ProductMonotone(0, r, u);
    DivisionIsUnique(x * u, v * u, q, r * u);
    assert 2 * r < v ==> 2 * (r * u) < v * u by {
      if 2 * r < v {
        ProductStrict(2 * r, v, u);
        assert (2 * r) * u == 2 * (r * u);
      }
    }
    assert 2 * r > v ==> 2 * (r * u) > v * u by {
      if 2 * r > v {
        ProductStrict(v, 2 * r, u);
        assert (2 * r) * u == 2 * (r * u);
      }
    }
    assert 2 * r == v ==> 2 * (r * u) == v * u by { assert (2 * r) * u == 2 * (r * u); }
  }
}
