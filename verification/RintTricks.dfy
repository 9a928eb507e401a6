// Two ways of rounding to an integer without a rounding instruction: adding and subtracting 2^52
// (vrint2_vd_vd) and adding a half and decrementing the bit pattern (vrint_vi_vd, vrint_vi2_vf).
module RintTricks {
  import opened Arithmetic
  import opened Powers
  import opened Floats

  // A float as a sign and a magnitude in units of the smallest subnormal; zero keeps its sign.
  // A magnitude of Pow2(q) is 1.0: q is 1074 for double and 149 for float.
  datatype Float = Float(neg: bool, mag: nat) {
    function Value(): int {
      if neg then 0 - mag else mag
    }
  }

  // A rounded sum.  A zero result is negative only if both operands are.
  function Add(p: nat, a: Float, b: Float): Float {
    var v := RN(p, a.Value() + b.Value());
    if v == 0 then Float(a.neg && b.neg, 0) else Float(v < 0, Abs(v))
  }

  function Neg(a: Float): Float {
    Float(!a.neg, a.mag)
  }

  function MulSign(a: Float, b: Float): Float {
    Float(a.neg != b.neg, a.mag)
  }

  function OrSign(a: Float, b: Float): Float {
    Float(a.neg || b.neg, a.mag)
  }

  // The reference: nearest integer, ties to even, keeping the sign of zero.
  function Rint(q: nat, d: Float): Float {
    Float(d.neg, Abs(NearestMultiple(d.mag, Pow2(q))))
  }

  lemma AddSameSign(p: nat, n: bool, x: nat, y: nat)
    requires RN(p, x + y) > 0
    ensures Add(p, Float(n, x), Float(n, y)) == Float(n, RN(p, x + y))
  {
    RoundingNegates(p, x + y);
    assert Float(true, x).Value() + Float(true, y).Value() == -(x + y);
    hide RN;
  }

  lemma AddZero(p: nat, n: bool, y: nat)
    requires y > 0 && RN(p, y) == y
    ensures Add(p, Float(n, 0), Float(true, y)) == Float(true, y)
  {
    RoundingNegates(p, y);
    hide RN;
  }

  lemma AddOppositeSign(p: nat, n: bool, x: nat, y: nat)
    requires y <= x && RN(p, x - y) == x - y
    ensures Add(p, Float(n, x), Float(!n, y)).mag == x - y
    ensures y < x ==> Add(p, Float(n, x), Float(!n, y)).neg == n
    ensures y == x ==> !Add(p, Float(n, x), Float(!n, y)).neg
  {
    RoundingNegates(p, x - y);
    assert Float(true, x).Value() + Float(false, y).Value() == -(x - y);
    hide RN;
  }

  // ---------------------------------------------------------------- adding and subtracting 2^52

  // vrint2_vd_vd, with 2^(p-1) for its 2^52.
  function Rint2(p: nat, q: nat, d: Float): Float
    requires p >= 1
  {
    var big := Float(false, Pow2(p - 1) * Pow2(q));
    var c := MulSign(big, d);
    if d.mag > big.mag then d else OrSign(Add(p, Add(p, d, c), Neg(c)), d)
  }

  // Adding an even multiple of u moves the nearest multiple along.
  lemma NearestShifts(x: int, u: nat, h: int)
    requires u > 0
    ensures NearestMultiple(x + 2 * h * u, u) == NearestMultiple(x, u) + 2 * h * u
  {
    hide NearestMultiple;
    var q, r := QuotientAndRest(x, u);
    Distribute(q, 2 * h, u);
    NearestAt(x, u, q, r);
    NearestAt(x + 2 * h * u, u, q + 2 * h, r);
  }

  lemma NearestBounds(x: nat, u: nat, b: nat)
    requires u > 0 && x <= b * u
    ensures 0 <= NearestMultiple(x, u) <= b * u
  {
    NearestIsMultiple(x, u);
    Quotient(b * u, u, b);
    NearestIsNearest(x, u, b * u);
    NearestIsNearest(x, u, 0);
  }

  // Between 2^(p-1) and 2^p the last place is 1.
  lemma ShiftedSum(p: nat, q: nat, d: nat)
    requires p >= 2 && q >= 1 && d <= Pow2(p - 1) * Pow2(q)
    ensures RN(p, d + Pow2(p - 1) * Pow2(q)) == NearestMultiple(d, Pow2(q)) + Pow2(p - 1) * Pow2(q)
  {
    var c, u := Pow2(p - 1) * Pow2(q), Pow2(q);
    if d == c {
      DoubledPower(p, q);
      RepScaled(p, Pow2(p), q);
      hide *;
      NearestAt(c, u, Pow2(p - 1), 0);
      RepIsFixed(p, 2 * c);
    } else {
      ShiftedExponent(p, q, d);
      assert Pow2(p - 1) == 2 * Pow2(p - 2);
      hide *;
      RoundsAt(p, d + c, q);
      NearestShifts(d, u, Pow2(p - 2));
    }
  }

  lemma ShiftedExponent(p: nat, q: nat, d: nat)
    requires p >= 1 && q >= 1 && d < Pow2(p - 1) * Pow2(q)
    ensures Exponent(p, d + Pow2(p - 1) * Pow2(q)) == q
  {
    DoubledPower(p, q);
    hide *;
    ExponentLeast(p, d + Pow2(p - 1) * Pow2(q), q);
    ExponentAbove(p, d + Pow2(p - 1) * Pow2(q), q - 1);
  }

  lemma DoubledPower(p: nat, q: nat)
    requires p >= 1 && q >= 1
    ensures Pow2(p) * Pow2(q) == 2 * (Pow2(p - 1) * Pow2(q))
    ensures Pow2(p) * Pow2(q - 1) == Pow2(p - 1) * Pow2(q)
  {
    Associate(2, Pow2(p - 1), Pow2(q));
    Associate(Pow2(p - 1), 2, Pow2(q - 1));
  }

  lemma LargeIsInteger(p: nat, q: nat, d: nat)
    requires p >= 1 && q >= 1 && Rep(p, d) && d >= Pow2(p - 1) * Pow2(q)
    ensures d % Pow2(q) == 0 && NearestMultiple(d, Pow2(q)) == d
  {
    DoubledPower(p, q);
    ExponentAbove(p, d, q - 1);
    RepIsMultiple(p, d);
    MultipleOfSmaller(d, q, Exponent(p, d));
    NearestIsMultiple(d, Pow2(q));
  }

  lemma NearestIsRep(p: nat, q: nat, d: nat)
    requires p >= 2 && q >= 1 && d <= Pow2(p - 1) * Pow2(q)
    ensures Rep(p, NearestMultiple(d, Pow2(q))) && 0 <= NearestMultiple(d, Pow2(q))
  {
    var n := NearestMultiple(d, Pow2(q));
    NearestBounds(d, Pow2(q), Pow2(p - 1));
    NearestIsMultiple(d, Pow2(q));
    DoubledPower(p, q);
    hide NearestMultiple, Pow2;
    RepByMultiple(p, n, q);
  }

  // The result is d rounded to an integer, ties to even, with the sign of d, for every float d.
  lemma Rint2IsRint(p: nat, q: nat, d: Float)
    requires p >= 2 && q >= 1 && Rep(p, d.mag)
    ensures Rint2(p, q, d) == Rint(q, d)
  {
    var c, n := Pow2(p - 1) * Pow2(q), NearestMultiple(d.mag, Pow2(q));
    if d.mag > c {
      LargeIsInteger(p, q, d.mag);
    } else {
      ProductStrict(0, Pow2(p - 1), Pow2(q));
      hide RN, NearestMultiple, Add, Pow2;
      ShiftedSum(p, q, d.mag);
      NearestIsRep(p, q, d.mag);
      RepIsFixed(p, n);
      AddSameSign(p, d.neg, d.mag, c);
      AddOppositeSign(p, d.neg, n + c, c);
    }
  }

  // ---------------------------------------------------------------- decrementing the bit pattern

  function Trunc(m: nat, u: nat): nat
    requires u > 0
  {
    m / u
  }

  // The bits of a magnitude below the sign bit: exponent field and fraction, read as an integer.
  function Pattern(p: nat, m: nat): nat
    requires p >= 1
  {
    var k := Exponent(p, m);
    k * Pow2(p - 1) + Trunc(m, Pow2(k))
  }

  function FromPattern(p: nat, b: nat): nat
    requires p >= 1
  {
    if b < Pow2(p) then b else
      var k := b / Pow2(p - 1) - 1;
      HighPattern(p, b);
      (b - k * Pow2(p - 1)) * Pow2(k)
  }

  lemma HighPattern(p: nat, b: nat)
    requires p >= 1 && b >= Pow2(p)
    ensures b / Pow2(p - 1) >= 1 && b - (b / Pow2(p - 1) - 1) * Pow2(p - 1) >= 0
  {
    var u := Pow2(p - 1);
    var n := b / u;
    assert b == n * u + b % u;
    if n < 1 {
      ProductMonotone(n, 0, u);
    }
    assert (n - 1) * u == n * u - u;
  }

  // vrint_vi_vd and vrint_vi2_vf: add a half away from zero (down for a zero), decrement the bit
  // pattern when the truncated sum is odd, truncate.
  function BitRint(p: nat, q: nat, a: Float): int
    requires p >= 1 && q >= 1
  {
    var half := Pow2(q - 1);
    var b := Add(p, a, Float(!(!a.neg && a.mag > 0), half));
    var odd := Trunc(b.mag, Pow2(q)) % 2;
    var m := if odd == 1 && Pattern(p, b.mag) > 0 then FromPattern(p, Pattern(p, b.mag) - 1) else b.mag;
    Float(b.neg, Trunc(m, Pow2(q))).Value()
  }

  // The bit pattern of a float decodes to it.
  lemma PatternRoundTrip(p: nat, m: nat)
    requires p >= 1 && Rep(p, m)
    ensures FromPattern(p, Pattern(p, m)) == m
  {
    var k := Exponent(p, m);
    PatternParts(p, m);
    if k == 0 {
      assert m / 1 == m;
    } else {
      PatternAt(p, k, Trunc(m, Pow2(k)));
    }
  }

  lemma QuotientRange(m: nat, u: nat, b: nat, c: nat)
    requires u > 0 && m % u == 0 && m < b * u
    ensures m == Trunc(m, u) * u && Trunc(m, u) < b
    ensures c * u <= m ==> c <= Trunc(m, u)
  {
    var n := Trunc(m, u);
    assert m == n * u;
    if n >= b {
      ProductMonotone(b, n, u);
    }
    if c * u <= m && n < c {
      ProductStrict(n, c, u);
    }
  }

  lemma PatternParts(p: nat, m: nat)
    requires p >= 1 && Rep(p, m)
    ensures var k := Exponent(p, m); m == Trunc(m, Pow2(k)) * Pow2(k) && Trunc(m, Pow2(k)) < Pow2(p)
    ensures var k := Exponent(p, m); k > 0 ==> Pow2(p - 1) <= Trunc(m, Pow2(k))
  {
    ExponentBounds(p, m);
    RepIsMultiple(p, m);
    QuotientRange(m, Pow2(Exponent(p, m)), Pow2(p), Pow2(p - 1));
  }

  // A pattern with exponent field k + 1 and significand n.
  lemma PatternAt(p: nat, k: nat, n: nat)
    requires p >= 1 && Pow2(p - 1) <= n < Pow2(p)
    ensures FromPattern(p, k * Pow2(p - 1) + n) == n * Pow2(k)
  {
    var u := Pow2(p - 1);
    var b := k * u + n;
    assert Pow2(p) == 2 * u;
    if k == 0 {
      assert k * u == 0 && Pow2(0) == 1;
      assert n * Pow2(0) == n;
    } else {
      ProductMonotone(1, k, u);
      assert (k + 1) * u == k * u + u;
      DivisionIsUnique(b, u, k + 1, n - u);
    }
  }

  lemma NextMultiple(m: int, z: int, u: nat)
    requires u > 0 && m % u == 0 && z % u == 0 && z < m
    ensures z <= m - u
  {
    MultipleSum(m, z, u);
    var d := (m - z) / u;
    assert m - z == d * u;
    if d <= 0 {
      ProductMonotone(d, 0, u);
    } else {
      ProductMonotone(1, d, u);
    }
  }

  // No float lies strictly between n * 2^j - 2^j and n * 2^j, when the smaller is normal or j is 0.
  lemma NoFloatBetween(p: nat, n: nat, j: nat, z: nat)
    requires p >= 1 && n >= 1 && (j > 0 ==> Pow2(p - 1) <= n - 1) && Rep(p, z) && z < n * Pow2(j)
    ensures z <= (n - 1) * Pow2(j)
  {
    var u, i := Pow2(j), Exponent(p, z);
    assert (n - 1) * u == n * u - u;
    if i >= j {
      RepIsMultiple(p, z);
      MultipleOfSmaller(z, j, i);
      Quotient(n * u, u, n);
      NextMultiple(n * u, z, u);
    } else {
      ExponentBounds(p, z);
      TopOfBinade(p, i, j);
      ProductMonotone(Pow2(p - 1), n - 1, u);
    }
  }

  // The bit pattern minus one when the significand n is the least normal one.
  lemma DecrementAtBoundary(p: nat, k: nat, z: nat)
    requires p >= 1 && k >= 1 && Rep(p, z)
    ensures var m, b := Pow2(p - 1) * Pow2(k), k * Pow2(p - 1) + Pow2(p - 1);
      b > 0 && FromPattern(p, b - 1) < m && (z < m ==> z <= FromPattern(p, b - 1))
  {
    var u := Pow2(p - 1);
    assert k * u == (k - 1) * u + u && Pow2(p) == 2 * u;
    PatternAt(p, k - 1, Pow2(p) - 1);
    Associate(u, 2, Pow2(k - 1));
    ProductStrict(Pow2(p) - 1, Pow2(p), Pow2(k - 1));
    if z < u * Pow2(k) {
      NoFloatBetween(p, Pow2(p), k - 1, z);
    }
  }

  lemma DecrementInside(p: nat, k: nat, n: nat, z: nat)
    requires p >= 1 && Pow2(p - 1) < n < Pow2(p) && Rep(p, z)
    ensures k * Pow2(p - 1) >= 0 && FromPattern(p, k * Pow2(p - 1) + n - 1) < n * Pow2(k)
    ensures z < n * Pow2(k) ==> z <= FromPattern(p, k * Pow2(p - 1) + n - 1)
  {
    PatternAt(p, k, n - 1);
    ProductMonotone(0, k, Pow2(p - 1));
    ProductStrict(n - 1, n, Pow2(k));
    if z < n * Pow2(k) {
      NoFloatBetween(p, n, k, z);
    }
  }

  // Decrementing the bit pattern yields the largest float below.
  lemma DecrementIsPredecessor(p: nat, m: nat, z: nat)
    requires p >= 1 && Rep(p, m) && m > 0 && Rep(p, z)
    ensures Pattern(p, m) > 0
    ensures FromPattern(p, Pattern(p, m) - 1) < m
    ensures z < m ==> z <= FromPattern(p, Pattern(p, m) - 1)
  {
    var k := Exponent(p, m);
    var n := Trunc(m, Pow2(k));
    PatternParts(p, m);
    if k == 0 {
      assert Pow2(0) == 1 && n == m && k * Pow2(p - 1) == 0;
    } else if n == Pow2(p - 1) {
      DecrementAtBoundary(p, k, z);
    } else {
      DecrementInside(p, k, n, z);
    }
  }

  // Truncating b after decrementing it when it is an odd integer.
  function Settle(q: nat, b: nat): nat {
    var t := Trunc(b, Pow2(q));
    if b % Pow2(q) == 0 && t % 2 == 1 then t - 1 else t
  }

  lemma SettleAt(q: nat, b: nat, t: nat, r: nat)
    requires b == t * Pow2(q) + r && r < Pow2(q)
    ensures Trunc(b, Pow2(q)) == t && b % Pow2(q) == r
    ensures Settle(q, b) == if r == 0 && t % 2 == 1 then t - 1 else t
  {
    DivisionIsUnique(b, Pow2(q), t, r);
  }

  // Without the rounding of the addition the trick is right: settling a + 1/2 rounds a.
  lemma SettleRounds(q: nat, a: nat)
    requires q >= 1
    ensures NearestMultiple(a, Pow2(q)) == Settle(q, a + Pow2(q - 1)) * Pow2(q)
  {
    var u, h := Pow2(q), Pow2(q - 1);
    assert u == 2 * h;
    hide *;
    var n, r := QuotientAndRest(a, u);
    NotNegative(n, r, u);
    OneMore(n, u);
    NearestAt(a, u, n, r);
    if r < h {
      SettleAt(q, a + h, n, r + h);
    } else {
      SettleAt(q, a + h, n + 1, r - h);
    }
  }

  lemma NotNegative(n: int, r: nat, u: nat)
    requires n * u + r >= 0 && r < u
    ensures n >= 0
  {
    if n < 0 {
      ProductMonotone(n, -1, u);
    }
  }

  lemma TruncRange(m: nat, u: nat)
    requires u > 0
    ensures Trunc(m, u) * u <= m < Trunc(m, u) * u + u
  {
  }

  lemma EvenPart(m: nat, u: nat)
    requires u > 0 && m % (2 * u) == 0
    ensures Trunc(m, u) % 2 == 0
  {
    var c := Trunc(m, 2 * u);
    assert m == c * (2 * u);
    Associate(c, 2, u);
    DivisionIsUnique(m, u, c * 2, 0);
  }

  lemma LargePartIsEven(p: nat, q: nat, m: nat)
    requires p >= 1 && Rep(p, m) && Pow2(p) * Pow2(q) <= m
    ensures Trunc(m, Pow2(q)) % 2 == 0
  {
    ExponentAbove(p, m, q);
    RepIsMultiple(p, m);
    MultipleOfSmaller(m, q + 1, Exponent(p, m));
    EvenPart(m, Pow2(q));
  }

  // An odd integer part is below 2^p, so it is a float, and so is the integer below it.
  lemma OddPartIsFloat(p: nat, q: nat, m: nat)
    requires p >= 1 && Rep(p, m) && Trunc(m, Pow2(q)) % 2 == 1
    ensures Rep(p, Trunc(m, Pow2(q)) * Pow2(q)) && Rep(p, (Trunc(m, Pow2(q)) - 1) * Pow2(q))
  {
    hide Pow2;
    var t := Trunc(m, Pow2(q));
    TruncRange(m, Pow2(q));
    if t >= Pow2(p) {
      ProductMonotone(Pow2(p), t, Pow2(q));
      LargePartIsEven(p, q, m);
    } else {
      RepScaled(p, t, q);
      RepScaled(p, t - 1, q);
    }
  }

  lemma TruncBetween(m: nat, u: nat, t: nat)
    requires u > 0 && t * u <= m < t * u + u
    ensures Trunc(m, u) == t
  {
    DivisionIsUnique(m, u, t, m - t * u);
  }

  lemma DecrementSettles(p: nat, q: nat, m: nat)
    requires p >= 1 && Rep(p, m) && Trunc(m, Pow2(q)) % 2 == 1
    ensures m > 0 && Pattern(p, m) > 0
    ensures Trunc(FromPattern(p, Pattern(p, m) - 1), Pow2(q)) == Settle(q, m)
  {
    var t, u := Trunc(m, Pow2(q)), Pow2(q);
    TruncRange(m, u);
    ProductMonotone(1, t, u);
    OddPartIsFloat(p, q, m);
    DecrementIsPredecessor(p, m, t * u);
    DecrementIsPredecessor(p, m, (t - 1) * u);
    var m' := FromPattern(p, Pattern(p, m) - 1);
    assert (t - 1) * u == t * u - u;
    hide FromPattern, Pattern, Pow2;
    if m == t * u {
      TruncBetween(m', u, t - 1);
      DivisionIsUnique(m, u, t, 0);
    } else {
      TruncBetween(m', u, t);
      DivisionIsUnique(m, u, t, m - t * u);
    }
  }

  lemma AddHalf(p: nat, q: nat, a: Float)
    requires p >= 1 && q >= 1
    ensures var v := RN(p, a.mag + Pow2(q - 1));
      && v > 0 && Rep(p, v)
      && Add(p, a, Float(!(!a.neg && a.mag > 0), Pow2(q - 1))) == Float(a.neg || a.mag == 0, v)
  {
    var h := Pow2(q - 1);
    assert h == 1 * Pow2(q - 1);
    RepScaled(p, 1, q - 1);
    hide RN, Pow2;
    RoundsAbove(p, a.mag + h, h);
    RoundsToRep(p, a.mag + h);
    hide Add;
    AddSameSign(p, a.neg, a.mag, h);
    if a.mag == 0 {
      RepIsFixed(p, h);
      AddZero(p, a.neg, h);
    }
  }

  // The whole trick is: round a + 1/2 to a float, then settle.
  lemma BitRintSettles(p: nat, q: nat, a: Float)
    requires p >= 1 && q >= 1
    ensures RN(p, a.mag + Pow2(q - 1)) > 0
    ensures BitRint(p, q, a) == Float(a.neg || a.mag == 0, Settle(q, RN(p, a.mag + Pow2(q - 1)))).Value()
  {
    AddHalf(p, q, a);
    hide RN, Pattern, FromPattern, Add, Pow2;
    var v := RN(p, a.mag + Pow2(q - 1));
    if Trunc(v, Pow2(q)) % 2 == 1 {
      DecrementSettles(p, q, v);
    }
  }

  // The magnitudes the trick rounds wrongly: the float just above 0.5, whose sum with 0.5 ties
  // to 1, and the odd integers whose last place is 1, whose sum with 0.5 ties to the next integer.
  predicate Misrounded(p: nat, q: nat, a: nat)
    requires q >= p >= 2
  {
    || a == Pow2(q - 1) + Pow2(q - p)
    || (Pow2(p - 1) * Pow2(q) <= a < Pow2(p) * Pow2(q) && Trunc(a, Pow2(q)) % 2 == 1)
  }

  // Rounding the sum does not change what it settles to.
  ghost predicate SettlesRight(p: nat, q: nat, a: nat)
    requires q >= 1 && RN(p, a + Pow2(q - 1)) >= 0
  {
    Settle(q, RN(p, a + Pow2(q - 1))) == Settle(q, a + Pow2(q - 1))
  }

  lemma BelowHalf(p: nat, q: nat, a: nat)
    requires q >= p >= 2 && a < Pow2(q - 1)
    ensures RN(p, a + Pow2(q - 1)) >= 0 && SettlesRight(p, q, a) && !Misrounded(p, q, a)
  {
    var h, u := Pow2(q - 1), Pow2(q);
    assert u == 2 * h;
    ProductMonotone(1, Pow2(p - 1), u);
    RepScaled(p, 1, q);
    ZeroIsRep(p);
    var v := RN(p, a + h);
    hide RN, Pow2;
    RoundsAbove(p, a + h, 1 * u);
    RoundsAbove(p, a + h, 0);
    SettleAt(q, a + h, 0, a + h);
    if v < u {
      SettleAt(q, v, 0, v);
    } else {
      SettleAt(q, v, 1, 0);
    }
  }

  // w is the last place of the floats in [0.5, 1), 2w the one of the floats in [1, 2).
  lemma FirstBinadePowers(p: nat, q: nat)
    requires q >= p >= 2
    ensures Pow2(q) == 2 * Pow2(q - 1) && Pow2(q) == Pow2(p) * Pow2(q - p)
    ensures Pow2(q - 1) == Pow2(p - 1) * Pow2(q - p) && Pow2(q) == Pow2(p - 1) * Pow2(q - p + 1)
    ensures Pow2(q - p + 1) == 2 * Pow2(q - p) && Pow2(q - p) < Pow2(q - 1)
  {
    Pow2Add(p, q - p);
    Pow2Add(p - 1, q - p);
    Pow2Add(p - 1, q - p + 1);
    Pow2Less(q - p, q - 1);
  }

  // The floats in [0.5, 1) are multiples of w.
  lemma FirstBinadeGrid(p: nat, q: nat, a: nat)
    requires q >= p >= 2 && Rep(p, a) && Pow2(q - 1) <= a < Pow2(q)
    ensures a % Pow2(q - p) == 0 && Pow2(q - 1) % Pow2(q - p) == 0
  {
    FirstBinadePowers(p, q);
    if q > p {
      Pow2Add(p, q - p - 1);
      ExponentAbove(p, a, q - p - 1);
    }
    RepIsMultiple(p, a);
    MultipleOfSmaller(a, q - p, Exponent(p, a));
    Quotient(Pow2(q - 1), Pow2(q - p), Pow2(p - 1));
  }

  lemma TieToEven(n: nat, w: nat, v: nat, x: nat)
    requires w > 0 && n % 2 == 0 && v == 2 * w && x == n * v
    ensures NearestMultiple(x + w, v) == x
  {
    hide *;
    NearestAt(x + w, v, n, w);
  }

  lemma FirstBinadeParts(p: nat, q: nat)
    requires q >= p >= 2
    ensures Pow2(p - 1) % 2 == 0 && Pow2(q - p + 1) == 2 * Pow2(q - p) && Pow2(q) == Pow2(p - 1) * Pow2(q - p + 1)
  {
    assert Pow2(p - 1) == 2 * Pow2(p - 2);
    Pow2Add(p - 1, q - p + 1);
  }

  lemma FirstBinadeUlp(p: nat, q: nat)
    requires q >= p >= 2
    ensures Exponent(p, Pow2(q) + Pow2(q - p)) == q - p + 1
  {
    var u, w := Pow2(q), Pow2(q - p);
    FirstBinadePowers(p, q);
    DoubledPower(p, q - p + 1);
    hide Pow2, Exponent;
    ExponentAbove(p, u + w, q - p);
    ExponentLeast(p, u + w, q - p + 1);
  }

  lemma RoundsAt(p: nat, x: nat, k: nat)
    requires Exponent(p, x) == k
    ensures RN(p, x) == NearestMultiple(x, Pow2(k))
  {
    hide Exponent;
  }

  // 1 + w lies halfway between 1 and 1 + 2w, and 1 is the even one.
  lemma FirstBinadeTie(p: nat, q: nat)
    requires q >= p >= 2
    ensures RN(p, Pow2(q) + Pow2(q - p)) == Pow2(q)
  {
    hide *;
    FirstBinadeUlp(p, q);
    RoundsAt(p, Pow2(q) + Pow2(q - p), q - p + 1);
    FirstBinadeParts(p, q);
    TieToEven(Pow2(p - 1), Pow2(q - p), Pow2(q - p + 1), Pow2(q));
  }

  lemma FirstBinadeBounds(p: nat, q: nat, a: nat)
    requires q >= p >= 2 && Pow2(q - 1) <= a < Pow2(q)
    ensures Pow2(q) <= RN(p, a + Pow2(q - 1)) <= 3 * Pow2(q - 1)
  {
    FirstBinadePowers(p, q);
    Pow2Monotone(2, p);
    assert Pow2(2) == 4;
    hide RN, Pow2;
    RepScaled(p, 3, q - 1);
    RepScaled(p, 1, q);
    RoundsAbove(p, a + Pow2(q - 1), 3 * Pow2(q - 1));
    RoundsAbove(p, a + Pow2(q - 1), 1 * Pow2(q));
  }

  lemma FirstBinadeAbove(p: nat, q: nat, x: int)
    requires q >= p >= 2 && Pow2(q) + 2 * Pow2(q - p) <= x
    ensures Pow2(q) < RN(p, x)
  {
    FirstBinadePowers(p, q);
    var n, v := Pow2(p - 1), Pow2(q - p + 1);
    assert n + 1 <= Pow2(p);
    hide RN, Pow2, Rep;
    RepScaled(p, n + 1, q - p + 1);
    OneMore(n, v);
    RoundsAbove(p, x, (n + 1) * v);
  }

  lemma FirstBinadeSum(p: nat, q: nat, a: nat)
    requires q >= p >= 2 && Rep(p, a) && Pow2(q - 1) <= a < Pow2(q)
    ensures RN(p, a + Pow2(q - 1)) == Pow2(q) <==> a == Pow2(q - 1) || a == Pow2(q - 1) + Pow2(q - p)
  {
    var h, u, w := Pow2(q - 1), Pow2(q), Pow2(q - p);
    FirstBinadePowers(p, q);
    FirstBinadeGrid(p, q, a);
    FirstBinadeTie(p, q);
    hide RN, Pow2;
    if a == h {
      RepScaled(p, 1, q);
      RepIsFixed(p, 1 * u);
    } else {
      NextMultiple(a, h, w);
      if a > h + w {
        Quotient(w, w, 1);
        MultipleSum(h, w, w);
        NextMultiple(a, h + w, w);
        FirstBinadeAbove(p, q, a + h);
      }
    }
  }

  lemma FirstBinade(p: nat, q: nat, a: nat)
    requires q >= p >= 2 && Rep(p, a) && Pow2(q - 1) <= a < Pow2(q)
    ensures RN(p, a + Pow2(q - 1)) >= 0
    ensures SettlesRight(p, q, a) <==> !Misrounded(p, q, a)
  {
    FirstBinadePowers(p, q);
    FirstBinadeSum(p, q, a);
    FirstBinadeBounds(p, q, a);
    var h, u := Pow2(q - 1), Pow2(q);
    var v := RN(p, a + h);
    ProductMonotone(1, Pow2(p - 1), u);
    hide RN, Pow2;
    SettleAt(q, a + h, 1, a + h - u);
    SettleAt(q, v, 1, v - u);
  }

  // Below 2^(p-1) the sum is exact unless it crosses a power of two, which is even.
  lemma MiddleRange(p: nat, q: nat, a: nat)
    requires q >= p >= 2 && Rep(p, a) && Pow2(q) <= a < Pow2(p - 1) * Pow2(q)
    ensures RN(p, a + Pow2(q - 1)) >= 0 && SettlesRight(p, q, a) && !Misrounded(p, q, a)
  {
    var h := Pow2(q - 1);
    var s, k := a + h, Exponent(p, a);
    FirstBinadePowers(p, q);
    DoubledPower(p, q);
    hide RN, Pow2, Exponent;
    ExponentLeast(p, a, q - 1);
    ExponentBounds(p, a);
    SumOnGrid(p, q, a);
    if s <= Pow2(p) * Pow2(k) {
      RepByMultiple(p, s, k);
      RepIsFixed(p, s);
    } else {
      CrossingSum(p, q, a, k);
    }
  }

  lemma SumOnGrid(p: nat, q: nat, a: nat)
    requires p >= 1 && q >= 1 && Rep(p, a) && Exponent(p, a) <= q - 1
    ensures a % Pow2(Exponent(p, a)) == 0 && (a + Pow2(q - 1)) % Pow2(Exponent(p, a)) == 0
  {
    var k := Exponent(p, a);
    RepIsMultiple(p, a);
    Quotient(Pow2(q - 1), Pow2(q - 1), 1);
    MultipleOfSmaller(Pow2(q - 1), k, q - 1);
    MultipleSum(a, Pow2(q - 1), Pow2(k));
  }

  lemma EvenSettles(q: nat, x: nat, t: nat)
    requires t % 2 == 0 && t * Pow2(q) <= x < t * Pow2(q) + Pow2(q)
    ensures Settle(q, x) == t
  {
    SettleAt(q, x, t, x - t * Pow2(q));
  }

  lemma CrossingBounds(p: nat, q: nat, k: nat, x: int)
    requires p >= 2 && q < p + k && k < q - 1
    requires Pow2(p) * Pow2(k) <= x <= Pow2(p) * Pow2(k) + Pow2(q - 1)
    ensures Pow2(p) * Pow2(k) <= RN(p, x) <= Pow2(p) * Pow2(k) + Pow2(q - 1)
  {
    var h, b, n := Pow2(q - 1), Pow2(p) * Pow2(k), 2 * Pow2(p + k - q);
    CrossingPower(p, q, k);
    hide RN, Pow2, Rep;
    RepScaled(p, Pow2(p), k);
    RepScaled(p, n + 1, q - 1);
    OneMore(n, h);
    RoundsAbove(p, x, b);
    RoundsAbove(p, x, b + h);
  }

  // The sum lies between the power of two b = 2^j (in units of 1.0) and b + 1/2.
  lemma CrossingSum(p: nat, q: nat, a: nat, k: nat)
    requires q >= p >= 2 && k == Exponent(p, a) && k <= q - 1 && a % Pow2(k) == 0
    requires Pow2(q) <= a < Pow2(p) * Pow2(k) < a + Pow2(q - 1)
    ensures RN(p, a + Pow2(q - 1)) >= 0 && SettlesRight(p, q, a)
  {
    CrossingExponent(p, q, a, k);
    CrossingPower(p, q, k);
    hide RN, Pow2, Settle, Exponent;
    CrossingBounds(p, q, k, a + Pow2(q - 1));
    EvenSettles(q, a + Pow2(q - 1), Pow2(p + k - q));
    EvenSettles(q, RN(p, a + Pow2(q - 1)), Pow2(p + k - q));
  }

  lemma CrossingExponent(p: nat, q: nat, a: nat, k: nat)
    requires q >= p >= 2 && k <= q - 1 && a % Pow2(k) == 0
    requires Pow2(q) <= a < Pow2(p) * Pow2(k) < a + Pow2(q - 1)
    ensures q < p + k && k < q - 1
  {
    Pow2Add(p, k);
    Pow2Less(q, p + k);
    if k == q - 1 {
      Quotient(Pow2(p) * Pow2(k), Pow2(k), Pow2(p));
      NextMultiple(Pow2(p) * Pow2(k), a, Pow2(k));
    }
  }

  lemma PowerProducts(j: nat, q: nat)
    requires q >= 1
    ensures Pow2(j) * Pow2(q) == Pow2(j + q) && (2 * Pow2(j)) * Pow2(q - 1) == Pow2(j + q)
  {
    assert 2 * Pow2(j) == Pow2(j + 1);
    hide Pow2;
    Pow2Add(j, q);
    Pow2Add(j + 1, q - 1);
  }

  lemma CrossingPower(p: nat, q: nat, k: nat)
    requires p >= 2 && q < p + k && k < q - 1
    ensures Pow2(p) * Pow2(k) == Pow2(p + k - q) * Pow2(q) && Pow2(q) == 2 * Pow2(q - 1)
    ensures (2 * Pow2(p + k - q)) * Pow2(q - 1) == Pow2(p) * Pow2(k)
    ensures Pow2(p + k - q) % 2 == 0 && 2 * Pow2(p + k - q) + 1 <= Pow2(p)
  {
    assert Pow2(q) == 2 * Pow2(q - 1);
    PowerBelow(p, p + k - q);
    hide *;
    Pow2Add(p, k);
    PowerProducts(p + k - q, q);
  }

  lemma PowerBelow(p: nat, j: nat)
    requires 1 <= j <= p - 2
    ensures Pow2(j) % 2 == 0 && 2 * Pow2(j) + 1 <= Pow2(p)
  {
    Pow2Monotone(j, p - 2);
    assert Pow2(j) == 2 * Pow2(j - 1) && Pow2(p) == 4 * Pow2(p - 2);
  }

  lemma HalfwaySettles(q: nat, t: nat)
    requires q >= 1
    ensures Settle(q, t * Pow2(q) + Pow2(q - 1)) == t
    ensures Settle(q, NearestMultiple(t * Pow2(q) + Pow2(q - 1), Pow2(q))) == if t % 2 == 0 then t else t + 1
  {
    var h, u := Pow2(q - 1), Pow2(q);
    DivisionIsUnique(t * u + h, u, t, h);
    SettleAt(q, t * u + h, t, h);
    SettleAt(q, t * u, t, 0);
    SettleAt(q, (t + 1) * u, t + 1, 0);
  }

  // From 2^(p-1) to 2^p floats are the integers, and the sum is always a tie.
  lemma IntegerRange(p: nat, q: nat, a: nat)
    requires q >= p >= 2 && Rep(p, a) && Pow2(p - 1) * Pow2(q) <= a < Pow2(p) * Pow2(q)
    ensures RN(p, a + Pow2(q - 1)) >= 0
    ensures SettlesRight(p, q, a) <==> !Misrounded(p, q, a)
  {
    var t := Trunc(a, Pow2(q));
    LargeIsInteger(p, q, a);
    FirstBinadePowers(p, q);
    IntegerSum(p, q, a);
    HalfwaySettles(q, t);
    ProductMonotone(1, Pow2(p - 1), Pow2(q));
    NearestIsMultiple(a + Pow2(q - 1), Pow2(q));
    hide RN, Pow2, NearestMultiple, Settle;
    assert a == t * Pow2(q);
  }

  lemma IntegerSum(p: nat, q: nat, a: nat)
    requires q >= p >= 2 && a % Pow2(q) == 0 && Pow2(p - 1) * Pow2(q) <= a < Pow2(p) * Pow2(q)
    ensures RN(p, a + Pow2(q - 1)) == NearestMultiple(a + Pow2(q - 1), Pow2(q))
  {
    var h, u, b := Pow2(q - 1), Pow2(q), Pow2(p) * Pow2(q);
    FirstBinadePowers(p, q);
    DoubledPower(p, q);
    Quotient(b, u, Pow2(p));
    NextMultiple(b, a, u);
    hide NearestMultiple;
    ExponentAbove(p, a + h, q - 1);
    ExponentLeast(p, a + h, q);
  }

  // From 2^p on a half is less than half a last place.
  lemma HugeRange(p: nat, q: nat, a: nat)
    requires q >= p >= 2 && Rep(p, a) && Pow2(p) * Pow2(q) <= a
    ensures RN(p, a + Pow2(q - 1)) >= 0 && SettlesRight(p, q, a) && !Misrounded(p, q, a)
  {
    var h, u := Pow2(q - 1), Pow2(q);
    FirstBinadePowers(p, q);
    DoubledPower(p, q);
    ProductMonotone(1, Pow2(p), u);
    LargePartIsEven(p, q, a);
    LargeIsInteger(p, q, a);
    HugeSum(p, q, a);
    hide RN, Pow2;
    TruncRange(a, u);
    var t := Trunc(a, u);
    assert a == t * u;
    SettleAt(q, a, t, 0);
    SettleAt(q, a + h, t, h);
  }

  lemma HugeSum(p: nat, q: nat, a: nat)
    requires p >= 2 && q >= 1 && Rep(p, a) && Pow2(p) * Pow2(q) <= a
    ensures RN(p, a + Pow2(q - 1)) == a
  {
    var h := Pow2(q - 1);
    var k := Exponent(p, a);
    ExponentAbove(p, a, q);
    ExponentMonotone(p, a, a + h);
    RepIsMultiple(p, a);
    Pow2Monotone(q + 1, k);
    assert Pow2(q + 1) == 4 * h;
    RoundsToNearest(p, a + h, a);
    RoundsToRep(p, a + h);
    var v := RN(p, a + h);
    MultipleOfSmaller(v, k, Exponent(p, a + h));
    hide RN, Pow2;
    if v > a {
      NextMultiple(v, a, Pow2(k));
    } else if v < a {
      NextMultiple(a, v, Pow2(k));
    }
  }

  lemma SettlesExactly(p: nat, q: nat, m: nat)
    requires q >= p >= 2 && Rep(p, m)
    ensures RN(p, m + Pow2(q - 1)) >= 0
    ensures SettlesRight(p, q, m) <==> !Misrounded(p, q, m)
  {
    hide *;
    if m < Pow2(q - 1) {
      BelowHalf(p, q, m);
    } else if m < Pow2(q) {
      FirstBinade(p, q, m);
    } else if m < Pow2(p - 1) * Pow2(q) {
      MiddleRange(p, q, m);
    } else if m < Pow2(p) * Pow2(q) {
      IntegerRange(p, q, m);
    } else {
      HugeRange(p, q, m);
    }
  }

  lemma SignedCompare(neg: bool, s: nat, t: nat, u: nat)
    requires u > 0
    ensures Float(neg, s).Value() * u == Float(neg, t * u).Value() <==> s == t
  {
    if s < t {
      ProductStrict(s, t, u);
    } else if t < s {
      ProductStrict(t, s, u);
    }
    assert (0 - s) * u == -(s * u);
  }

  lemma RintSettles(q: nat, a: Float)
    requires q >= 1
    ensures Rint(q, a) == Float(a.neg, Settle(q, a.mag + Pow2(q - 1)) * Pow2(q))
  {
    SettleRounds(q, a.mag);
    ProductMonotone(0, Settle(q, a.mag + Pow2(q - 1)), Pow2(q));
  }

  lemma ZeroSettles(q: nat)
    requires q >= 1
    ensures Settle(q, Pow2(q - 1)) == 0
  {
    SettleAt(q, Pow2(q - 1), 0, Pow2(q - 1));
  }

  // The trick rounds to nearest, ties to even, for every float except the misrounded ones.
  lemma BitRintExactly(p: nat, q: nat, a: Float)
    requires q >= p >= 2 && Rep(p, a.mag)
    ensures BitRint(p, q, a) * Pow2(q) == Rint(q, a).Value() <==> !Misrounded(p, q, a.mag)
  {
    hide *;
    var h, u := Pow2(q - 1), Pow2(q);
    SettlesExactly(p, q, a.mag);
    BitRintSettles(p, q, a);
    RintSettles(q, a);
    var s, t := Settle(q, RN(p, a.mag + h)), Settle(q, a.mag + h);
    assert SettlesRight(p, q, a.mag) <==> s == t by { SettlesRightIs(p, q, a.mag); }
    SignedCompare(a.neg, s, t, u);
    if a.mag == 0 {
      ZeroSettles(q);
      ZeroProduct(a.neg, s, u);
    }
  }

  lemma SettlesRightIs(p: nat, q: nat, a: nat)
    requires q >= 1 && RN(p, a + Pow2(q - 1)) >= 0
    ensures SettlesRight(p, q, a) <==> Settle(q, RN(p, a + Pow2(q - 1))) == Settle(q, a + Pow2(q - 1))
  {
  }

  lemma ZeroProduct(neg: bool, s: nat, u: nat)
    requires u > 0
    ensures Float(true, s).Value() * u == Float(neg, 0 * u).Value() <==> s == 0
  {
    SignedCompare(true, s, 0, u);
  }

  // The counterexample: 0.5 plus its last place is rounded to 0 instead of 1.
  lemma JustAboveHalf(p: nat, q: nat)
    requires q >= p >= 2
    ensures var a := Float(false, Pow2(q - 1) + Pow2(q - p));
      && Rep(p, a.mag)
      && BitRint(p, q, a) == 0
      && Rint(q, a) == Float(false, Pow2(q))
  {
    hide *;
    AboveHalfIsRep(p, q);
    FirstBinadeTie(p, q);
    var h, u, w := Pow2(q - 1), Pow2(q), Pow2(q - p);
    BitRintSettles(p, q, Float(false, h + w));
    assert h + w + h == u + w;
    SettleAt(q, u, 1, 0);
    SettleAt(q, u + w, 1, w);
    RintSettles(q, Float(false, h + w));
    ZeroValue();
  }

  lemma ZeroValue()
    ensures Float(false, 0).Value() == 0
  {
  }

  lemma AboveHalfIsRep(p: nat, q: nat)
    requires q >= p >= 2
    ensures Rep(p, Pow2(q - 1) + Pow2(q - p)) && Pow2(q) == 2 * Pow2(q - 1) && Pow2(q - p) < Pow2(q)
  {
    FirstBinadePowers(p, q);
    assert Pow2(p - 1) + 1 <= Pow2(p);
    RepScaled(p, Pow2(p - 1) + 1, q - p);
    OneMore(Pow2(p - 1), Pow2(q - p));
    hide *;
  }

  // The second family: the odd integer 2^(p-1) + 1, whose last place is 1, becomes 2^(p-1) + 2.
  lemma OddIntegerMovesUp(p: nat, q: nat)
    requires q >= p >= 2
    ensures var a := Float(false, (Pow2(p - 1) + 1) * Pow2(q));
      && Rep(p, a.mag)
      && BitRint(p, q, a) == Pow2(p - 1) + 2
      && Rint(q, a) == a
  {
    hide *;
    var n := Pow2(p - 1) + 1;
    OddPower(p);
    IntegerFloat(p, q, n);
    var m: nat := n * Pow2(q);
    OddIntegerSum(p, q, n);
    BitRintSettles(p, q, Float(false, m));
    SettledFloat(q, (n + 1) * Pow2(q), n + 1);
    RintIs(q, m, m);
  }

  lemma IntegerFloat(p: nat, q: nat, n: nat)
    requires p >= 1 && n < Pow2(p)
    ensures n * Pow2(q) >= 0 && Rep(p, n * Pow2(q)) && NearestMultiple(n * Pow2(q), Pow2(q)) == n * Pow2(q)
  {
    RepScaled(p, n, q);
    hide *;
    NearestAt(n * Pow2(q), Pow2(q), n, 0);
    ProductMonotone(0, n, Pow2(q));
  }

  lemma OddPower(p: nat)
    requires p >= 2
    ensures Pow2(p - 1) % 2 == 0 && Pow2(p - 1) + 1 < Pow2(p)
  {
    assert Pow2(p - 1) == 2 * Pow2(p - 2);
  }

  // n + 1/2 rounds to n + 1.
  lemma OddIntegerSum(p: nat, q: nat, n: nat)
    requires q >= p >= 2 && n % 2 == 1 && Pow2(p - 1) <= n < Pow2(p)
    ensures RN(p, n * Pow2(q) + Pow2(q - 1)) == (n + 1) * Pow2(q)
  {
    var u, h := Pow2(q), Pow2(q - 1);
    assert u == 2 * h;
    Quotient(n * u, u, n);
    ProductMonotone(Pow2(p - 1), n, u);
    ProductStrict(n, Pow2(p), u);
    OneMore(n, u);
    hide *;
    IntegerSum(p, q, n * u);
    NearestAt(n * u + h, u, n, h);
  }

  lemma SettledFloat(q: nat, x: nat, t: nat)
    requires x == t * Pow2(q) && t % 2 == 0
    ensures Settle(q, x) == t && Float(false, t).Value() == t
  {
    SettleAt(q, x, t, 0);
  }

  lemma RintIs(q: nat, m: nat, r: nat)
    requires NearestMultiple(m, Pow2(q)) == r
    ensures Rint(q, Float(false, m)) == Float(false, r)
  {
  }

  // In the range of int32_t, a double is misrounded only next to a half.
  lemma BitRintInt32(p: nat, q: nat, a: Float)
    requires p >= 33 && q >= p && Rep(p, a.mag) && a.mag < Pow2(31) * Pow2(q)
    ensures BitRint(p, q, a) * Pow2(q) == Rint(q, a).Value() <==> a.mag != Pow2(q - 1) + Pow2(q - p)
  {
    BitRintExactly(p, q, a);
    Pow2Monotone(31, p - 1);
    hide BitRint, Rint, Pow2;
    ProductMonotone(Pow2(31), Pow2(p - 1), Pow2(q));
  }
}
