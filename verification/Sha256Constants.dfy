// Where the constants of SHA-256 come from (FIPS 180-4, sections 4.2.2 and 5.3.3): the first 32 bits of
// the fractional parts of the cube roots of the first 64 primes, and of the square roots of the first
// eight.
module Sha256Constants {
  import opened Arithmetic
  import opened Sha256Standard

  const TWO_32: nat := 0x1_0000_0000

  // The first primes, eight in a row.
  function PrimeRow(r: nat): (row: seq<nat>)
    requires r < 8
    ensures |row| == 8
  {
    match r
    case 0 => [2, 3, 5, 7, 11, 13, 17, 19]
    case 1 => [23, 29, 31, 37, 41, 43, 47, 53]
    case 2 => [59, 61, 67, 71, 73, 79, 83, 89]
    case 3 => [97, 101, 103, 107, 109, 113, 127, 131]
    case 4 => [137, 139, 149, 151, 157, 163, 167, 173]
    case 5 => [179, 181, 191, 193, 197, 199, 211, 223]
    case 6 => [227, 229, 233, 239, 241, 251, 257, 263]
    case _ => [269, 271, 277, 281, 283, 293, 307, 311]
  }

  function PrimeAt(t: nat): nat
    requires t < 64
  {
    PrimeRow(t / 8)[t % 8]
  }

  // bits are the first 32 bits of the fractional part of the cube root of p, and c is its integer part.
  predicate CubeRoot(p: nat, c: nat, bits: nat) {
    var x := c * TWO_32 + bits;
    bits < TWO_32 && x * x * x <= p * TWO_32 * TWO_32 * TWO_32 < (x + 1) * (x + 1) * (x + 1)
  }

  predicate SquareRoot(p: nat, c: nat, bits: nat) {
    var x := c * TWO_32 + bits;
    bits < TWO_32 && x * x <= p * TWO_32 * TWO_32 < (x + 1) * (x + 1)
  }

  function CubeRootOf(p: nat): nat {
    if p < 8 then 1 else if p < 27 then 2 else if p < 64 then 3
    else if p < 125 then 4 else if p < 216 then 5 else 6
  }

  function SquareRootOf(p: nat): nat {
    if p < 4 then 1 else if p < 9 then 2 else if p < 16 then 3 else 4
  }

  lemma Row0(i: nat)
    requires i < 8
    ensures CubeRoot(PrimeRow(0)[i], CubeRootOf(PrimeRow(0)[i]), ConstantRow(0)[i] as nat)
  {
  }

  lemma Row1(i: nat)
    requires i < 8
    ensures CubeRoot(PrimeRow(1)[i], CubeRootOf(PrimeRow(1)[i]), ConstantRow(1)[i] as nat)
  {
  }

  lemma Row2(i: nat)
    requires i < 8
    ensures CubeRoot(PrimeRow(2)[i], CubeRootOf(PrimeRow(2)[i]), ConstantRow(2)[i] as nat)
  {
  }

  lemma Row3(i: nat)
    requires i < 8
    ensures CubeRoot(PrimeRow(3)[i], CubeRootOf(PrimeRow(3)[i]), ConstantRow(3)[i] as nat)
  {
  }

  lemma Row4(i: nat)
    requires i < 8
    ensures CubeRoot(PrimeRow(4)[i], CubeRootOf(PrimeRow(4)[i]), ConstantRow(4)[i] as nat)
  {
  }

  lemma Row5(i: nat)
    requires i < 8
    ensures CubeRoot(PrimeRow(5)[i], CubeRootOf(PrimeRow(5)[i]), ConstantRow(5)[i] as nat)
  {
  }

  lemma Row6(i: nat)
    requires i < 8
    ensures CubeRoot(PrimeRow(6)[i], CubeRootOf(PrimeRow(6)[i]), ConstantRow(6)[i] as nat)
  {
  }

  lemma Row7(i: nat)
    requires i < 8
    ensures CubeRoot(PrimeRow(7)[i], CubeRootOf(PrimeRow(7)[i]), ConstantRow(7)[i] as nat)
  {
  }

  // Every round constant comes from its prime.
  lemma ConstantsAreRoots(t: nat)
    requires t < 64
    ensures CubeRoot(PrimeAt(t), CubeRootOf(PrimeAt(t)), K(t) as nat)
  {
    hide CubeRoot, CubeRootOf, PrimeRow, ConstantRow;
    var i := t % 8;
    match t / 8
    case 0 => Row0(i);
    case 1 => Row1(i);
    case 2 => Row2(i);
    case 3 => Row3(i);
    case 4 => Row4(i);
    case 5 => Row5(i);
    case 6 => Row6(i);
    case _ => Row7(i);
  }

  lemma InitialAreRoots(i: nat)
    requires i < 8
    ensures SquareRoot(PrimeAt(i), SquareRootOf(PrimeAt(i)), INITIAL[i] as nat)
  {
    if i < 4 {
      FirstInitial(i);
    } else {
      LastInitial(i);
    }
    hide *;
  }

  lemma FirstInitial(i: nat)
    requires i < 4
    ensures SquareRoot(PrimeAt(i), SquareRootOf(PrimeAt(i)), INITIAL[i] as nat)
  {
  }

  lemma LastInitial(i: nat)
    requires 4 <= i < 8
    ensures SquareRoot(PrimeAt(i), SquareRootOf(PrimeAt(i)), INITIAL[i] as nat)
  {
  }

  // ---------------------------------------------------------------- the first 64 primes

  ghost predicate Prime(n: nat) {
    n >= 2 && forall d :: 2 <= d < n ==> n % d != 0
  }

  ghost function PrimesBelow(n: nat): nat {
    if n == 0 then 0 else PrimesBelow(n - 1) + if Prime(n - 1) then 1 else 0
  }

  predicate Small(s: nat) {
    s == 2 || s == 3 || s == 5 || s == 7 || s == 11 || s == 13 || s == 17
  }

  // No small prime divides n, except n itself.
  predicate Passes(n: nat) {
    && (n % 2 != 0 || n == 2) && (n % 3 != 0 || n == 3) && (n % 5 != 0 || n == 5) && (n % 7 != 0 || n == 7)
    && (n % 11 != 0 || n == 11) && (n % 13 != 0 || n == 13) && (n % 17 != 0 || n == 17)
  }

  lemma SmallFactor(e: nat) returns (s: nat)
    requires 2 <= e <= 18
    ensures Small(s) && e % s == 0
  {
    if e % 2 == 0 {
      s := 2;
    } else if e % 3 == 0 {
      s := 3;
    } else {
      s := e;
    }
  }

  lemma FactorDivides(n: nat, e: nat, s: nat)
    requires e > 0 && s > 0 && n % e == 0 && e % s == 0
    ensures n % s == 0
  {
    var f, g := n / e, e / s;
    Associate(s, g, f);
    DivisionIsUnique(n, s, g * f, 0);
  }

  // A proper factor, at most the square root.
  lemma LowFactor(n: nat, d: nat) returns (e: nat)
    requires 2 <= d < n < 324 && n % d == 0
    ensures 2 <= e < 18 && e < n && n % e == 0
  {
    var f := n / d;
    assert n == d * f;
    if d >= 18 && f >= 18 {
      ProductMonotone(18, d, f);
    }
    if f <= 1 {
      ProductMonotone(f, 1, d);
    }
    if d < 18 {
      e := d;
    } else {
      ProductMonotone(2, d, f);
      Commute(d, f);
      DivisionIsUnique(n, f, d, 0);
      e := f;
    }
  }

  lemma PassingIsPrime(n: nat)
    requires 2 <= n < 324 && Passes(n)
    ensures Prime(n)
  {
    forall d | 2 <= d < n
      ensures n % d != 0
    {
      if n % d == 0 {
        var e := LowFactor(n, d);
        var s := SmallFactor(e);
        FactorDivides(n, e, s);
      }
    }
  }

  lemma PrimePasses(n: nat)
    requires Prime(n)
    ensures Passes(n)
  {
  }

  // The first number from n on that no small prime divides, as far as 313.
  function NextPassing(n: nat): (r: nat)
    ensures r >= n
    decreases 313 - n
  {
    if n >= 313 || Passes(n) then n else NextPassing(n + 1)
  }

  lemma Order0(i: nat)
    requires i < 8
    ensures PrimeRow(0)[i] < 313
    ensures PrimeRow(0)[i] == NextPassing(1 + if i > 0 then PrimeRow(0)[i - 1] else 1)
  {
    assert NextPassing(2) == 2;
    assert NextPassing(3) == 3;
    assert NextPassing(4) == 5;
    assert NextPassing(6) == 7;
    assert NextPassing(8) == 11;
    assert NextPassing(12) == 13;
    assert NextPassing(14) == 17;
    assert NextPassing(18) == 19;
  }

  lemma Order1(i: nat)
    requires i < 8
    ensures PrimeRow(1)[i] < 313
    ensures PrimeRow(1)[i] == NextPassing(1 + if i > 0 then PrimeRow(1)[i - 1] else PrimeRow(0)[7])
  {
    assert NextPassing(20) == 23;
    assert NextPassing(26) == 29;
    assert NextPassing(24) == 29;
    assert NextPassing(30) == 31;
    assert NextPassing(34) == 37;
    assert NextPassing(32) == 37;
    assert NextPassing(38) == 41;
    assert NextPassing(42) == 43;
    assert NextPassing(44) == 47;
    assert NextPassing(50) == 53;
    assert NextPassing(48) == 53;
  }

  lemma Order2(i: nat)
    requires i < 8
    ensures PrimeRow(2)[i] < 313
    ensures PrimeRow(2)[i] == NextPassing(1 + if i > 0 then PrimeRow(2)[i - 1] else PrimeRow(1)[7])
  {
    assert NextPassing(56) == 59;
    assert NextPassing(54) == 59;
    assert NextPassing(60) == 61;
    assert NextPassing(64) == 67;
    assert NextPassing(62) == 67;
    assert NextPassing(68) == 71;
    assert NextPassing(72) == 73;
    assert NextPassing(76) == 79;
    assert NextPassing(74) == 79;
    assert NextPassing(80) == 83;
    assert NextPassing(86) == 89;
    assert NextPassing(84) == 89;
  }

  lemma Order3(i: nat)
    requires i < 8
    ensures PrimeRow(3)[i] < 313
    ensures PrimeRow(3)[i] == NextPassing(1 + if i > 0 then PrimeRow(3)[i - 1] else PrimeRow(2)[7])
  {
    assert NextPassing(94) == 97;
    assert NextPassing(91) == 97;
    assert NextPassing(90) == 97;
    assert NextPassing(98) == 101;
    assert NextPassing(102) == 103;
    assert NextPassing(104) == 107;
    assert NextPassing(108) == 109;
    assert NextPassing(110) == 113;
    assert NextPassing(124) == 127;
    assert NextPassing(121) == 127;
    assert NextPassing(118) == 127;
    assert NextPassing(115) == 127;
    assert NextPassing(114) == 127;
    assert NextPassing(128) == 131;
  }

  lemma Order4(i: nat)
    requires i < 8
    ensures PrimeRow(4)[i] < 313
    ensures PrimeRow(4)[i] == NextPassing(1 + if i > 0 then PrimeRow(4)[i - 1] else PrimeRow(3)[7])
  {
    assert NextPassing(134) == 137;
    assert NextPassing(132) == 137;
    assert NextPassing(138) == 139;
    assert NextPassing(146) == 149;
    assert NextPassing(143) == 149;
    assert NextPassing(140) == 149;
    assert NextPassing(150) == 151;
    assert NextPassing(154) == 157;
    assert NextPassing(152) == 157;
    assert NextPassing(160) == 163;
    assert NextPassing(158) == 163;
    assert NextPassing(164) == 167;
    assert NextPassing(170) == 173;
    assert NextPassing(168) == 173;
  }

  lemma Order5(i: nat)
    requires i < 8
    ensures PrimeRow(5)[i] < 313
    ensures PrimeRow(5)[i] == NextPassing(1 + if i > 0 then PrimeRow(5)[i - 1] else PrimeRow(4)[7])
  {
    assert NextPassing(176) == 179;
    assert NextPassing(174) == 179;
    assert NextPassing(180) == 181;
    assert NextPassing(188) == 191;
    assert NextPassing(185) == 191;
    assert NextPassing(182) == 191;
    assert NextPassing(192) == 193;
    assert NextPassing(194) == 197;
    assert NextPassing(198) == 199;
    assert NextPassing(208) == 211;
    assert NextPassing(205) == 211;
    assert NextPassing(202) == 211;
    assert NextPassing(200) == 211;
    assert NextPassing(220) == 223;
    assert NextPassing(217) == 223;
    assert NextPassing(214) == 223;
    assert NextPassing(212) == 223;
  }

  lemma Order6(i: nat)
    requires i < 8
    ensures PrimeRow(6)[i] < 313
    ensures PrimeRow(6)[i] == NextPassing(1 + if i > 0 then PrimeRow(6)[i - 1] else PrimeRow(5)[7])
  {
    assert NextPassing(224) == 227;
    assert NextPassing(228) == 229;
    assert NextPassing(230) == 233;
    assert NextPassing(236) == 239;
    assert NextPassing(234) == 239;
    assert NextPassing(240) == 241;
    assert NextPassing(248) == 251;
    assert NextPassing(245) == 251;
    assert NextPassing(242) == 251;
    assert NextPassing(254) == 257;
    assert NextPassing(252) == 257;
    assert NextPassing(260) == 263;
    assert NextPassing(258) == 263;
  }

  lemma Order7(i: nat)
    requires i < 8
    ensures PrimeRow(7)[i] < 313
    ensures PrimeRow(7)[i] == NextPassing(1 + if i > 0 then PrimeRow(7)[i - 1] else PrimeRow(6)[7])
  {
    assert NextPassing(266) == 269;
    assert NextPassing(264) == 269;
    assert NextPassing(270) == 271;
    assert NextPassing(274) == 277;
    assert NextPassing(272) == 277;
    assert NextPassing(278) == 281;
    assert NextPassing(282) == 283;
    assert NextPassing(290) == 293;
    assert NextPassing(287) == 293;
    assert NextPassing(284) == 293;
    assert NextPassing(304) == 307;
    assert NextPassing(301) == 307;
    assert NextPassing(298) == 307;
    assert NextPassing(295) == 307;
    assert NextPassing(294) == 307;
    assert NextPassing(308) == 311;
  }

  // Each listed number is the next one after the one before.
  lemma Order(t: nat)
    requires t < 64
    ensures PrimeAt(t) < 313 && PrimeAt(t) == NextPassing(if t > 0 then PrimeAt(t - 1) + 1 else 2)
  {
    hide PrimeRow, NextPassing;
    var i := t % 8;
    match t / 8
    case 0 => Order0(i);
    case 1 => Order1(i);
    case 2 => Order2(i);
    case 3 => Order3(i);
    case 4 => Order4(i);
    case 5 => Order5(i);
    case 6 => Order6(i);
    case _ => Order7(i);
  }

  lemma {:induction false} NoneSkipped(n: nat)
    requires 2 <= n <= 313
    ensures PrimesBelow(NextPassing(n)) == PrimesBelow(n)
    ensures NextPassing(n) < 313 ==> Prime(NextPassing(n))
    decreases 313 - n
  {
    hide Passes, Prime;
    if n < 313 {
      if Passes(n) {
        PassingIsPrime(n);
      } else {
        NotPrime(n);
        NoneSkipped(n + 1);
      }
    }
  }

  lemma NotPrime(n: nat)
    requires !Passes(n)
    ensures !Prime(n)
  {
    if Prime(n) {
      PrimePasses(n);
    }
  }

  // The list holds the first 64 primes: number t is a prime, and t primes are smaller.
  lemma {:induction false} FirstPrimes(t: nat)
    requires t < 64
    ensures Prime(PrimeAt(t)) && PrimesBelow(PrimeAt(t)) == t
  {
    Order(t);
    if t == 0 {
      NoneSkipped(2);
      assert !Prime(0) && !Prime(1);
    } else {
      hide NextPassing, Prime, PrimeAt;
      FirstPrimes(t - 1);
      Order(t - 1);
      NoneSkipped(PrimeAt(t - 1) + 1);
    }
  }
}
