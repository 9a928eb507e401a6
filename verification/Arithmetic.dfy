// Products and quotients that the solver does not find by itself.
module Arithmetic {
  lemma ProductMonotone(a: int, b: int, u: nat)
    requires a <= b
    ensures a * u <= b * u
  {
    assert (b - a) * u >= 0;
  }

  lemma OneMore(a: int, u: int)
    ensures (a + 1) * u == a * u + u
  {
  }

  lemma Distribute(a: int, b: int, u: int)
    ensures a * u + b * u == (a + b) * u
  {
  }

  lemma ProductStrict(a: int, b: int, u: nat)
    requires a < b && u > 0
    ensures a * u < b * u
  {
    ProductMonotone(a + 1, b, u);
    OneMore(a, u);
  }

  lemma ProductLess(a: int, b: int, u: nat)
    requires a * u < b * u
    ensures a < b
  {
    if a >= b {
      ProductMonotone(b, a, u);
    }
  }

  lemma NegatedProduct(q: int, u: int)
    ensures (-q) * u == -(q * u)
  {
  }

  lemma Associate(a: int, b: int, c: int)
    ensures a * (b * c) == (a * b) * c
  {
  }

  lemma DoubledRight(a: nat, u: nat)
    ensures a * (2 * u) == 2 * (a * u)
  {
  }

  lemma DivisionIsUnique(x: int, u: nat, q: int, r: nat)
    requires u > 0 && x == q * u + r && r < u
    ensures x / u == q && x % u == r
  {
    var d, m := x / u, x % u;
    assert (q - d) * u == m - r;
    if q - d >= 1 {
      ProductMonotone(1, q - d, u);
    } else if q - d <= -1 {
      ProductMonotone(q - d, -1, u);
    }
  }

  lemma DivideTwice(x: nat, p: nat)
    requires p >= 1
    ensures x / 256 / p == x / (256 * p)
  {
    var q, r := x / 256, x % 256;
    var u, v := q / p, q % p;
    assert x == 256 * (p * u + v) + r;
    Associate(256, p, u);
    DivisionIsUnique(x, 256 * p, u, 256 * v + r);
  }

  lemma Quotient(x: int, u: nat, q: int)
    requires u > 0 && x == q * u
    ensures x % u == 0 && x / u == q
  {
    DivisionIsUnique(x, u, q, 0);
  }

  // Two digits in a mixed radix.
  lemma MixedRadix(a: nat, b: nat, u: nat, v: nat)
    requires a < u && b < v
    ensures a < v * u && a + b * u < v * u
  {
    OneMore(b, u);
    ProductMonotone(b + 1, v, u);
    ProductMonotone(0, b, u);
  }

  lemma SplitNumber(k: nat, u: nat, v: nat) returns (a: nat, b: nat)
    requires u > 0 && k < v * u
    ensures a < u && b < v && k == a + b * u
  {
    a, b := k % u, k / u;
    assert k == a + b * u;
    ProductLess(b, v, u);
  }

  lemma SplitsOnce(u: nat, a: nat, b: nat, a': nat, b': nat)
    requires a < u && a' < u && a + b * u == a' + b' * u
    ensures a == a' && b == b'
  {
    DivisionIsUnique(a + b * u, u, b, a);
    DivisionIsUnique(a + b * u, u, b', a');
  }

  lemma Commute(x: int, y: int)
    ensures x * y == y * x
  {
  }

  function Sum(ns: seq<nat>): nat {
    if ns == [] then 0 else ns[0] + Sum(ns[1..])
  }

  lemma {:induction false} SumAppend(ns: seq<nat>, n: nat)
    ensures Sum(ns + [n]) == Sum(ns) + n
  {
    if ns == [] {
      assert ns + [n] == [n];
    } else {
      SumAppend(ns[1..], n);
      assert (ns + [n])[1..] == ns[1..] + [n];
    }
  }
}
