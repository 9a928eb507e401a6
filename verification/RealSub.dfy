// REALSUB0 and REALSUB1, which turn a complex transform of half the length into a real one and back,
// and the coefficients they use.
module RealSub {
  import opened ComplexNumbers
  import opened Powers

  // ---------------------------------------------------------------- the coefficients

  // Sine and cosine of the angle number i.
  type Angles = nat -> (real, real)

  // rtCoef0 and rtCoef1, as one complex number, of angle i.
  function Coefficient(sc: Angles, backward: bool, i: nat): Complex {
    C(if backward then 0.5 + 0.5 * sc(i).0 else 0.5 - 0.5 * sc(i).0, 0.5 * sc(i).1)
  }

  // The tables hold the coefficients, each one twice.
  ghost predicate Coefficients(sc: Angles, backward: bool, c0: seq<real>, c1: seq<real>, n: nat) {
    && |c0| == |c1| == 2 * n
    && forall i :: 0 <= i < n ==> c0[2 * i] == c0[2 * i + 1] == Coefficient(sc, backward, i).re &&
                                  c1[2 * i] == c1[2 * i + 1] == Coefficient(sc, backward, i).im
  }

  method FillCoefficients(c0: array<real>, c1: array<real>, sc: Angles, backward: bool, n: nat)
    requires c0.Length == c1.Length == n && n % 2 == 0 && c0 != c1
    modifies c0, c1
    ensures Coefficients(sc, backward, c0[..], c1[..], n / 2)
  {
    for i: nat := 0 to n / 2
      invariant Coefficients(sc, backward, c0[..2 * i], c1[..2 * i], i)
    {
      var (x, y) := sc(i);
      var t := if backward then 0.5 + 0.5 * x else 0.5 - 0.5 * x;
      c0[2 * i + 1] := t;
      c0[2 * i] := t;
      c1[2 * i + 1] := 0.5 * y;
      c1[2 * i] := 0.5 * y;
    }
    assert c0[..2 * (n / 2)] == c0[..] && c1[..2 * (n / 2)] == c1[..];
  }

  // ---------------------------------------------------------------- what the kernels compute

  // Two values are one point.
  function Points(s: seq<real>, n: nat): (z: seq<Complex>)
    requires |s| >= 2 * n
    ensures |z| == n
  {
    seq(n, j requires 0 <= j < n => C(s[2 * j], s[2 * j + 1]))
  }

  function Values(z: seq<Complex>): (s: seq<real>)
    ensures |s| == 2 * |z|
  {
    seq(2 * |z|, i requires 0 <= i < 2 * |z| => if i % 2 == 0 then z[i / 2].re else z[i / 2].im)
  }

  // The part of a pair of points that changes its places.
  function Twist(a: Complex, b: Complex, w: Complex): Complex {
    var tr, ti := a.re - b.re, a.im + b.im;
    C(ti * w.im - tr * w.re, tr * w.im + ti * w.re)
  }

  // Point j of 2 * h after the butterflies.
  function After(z: seq<Complex>, h: nat, w: nat -> Complex, j: nat): Complex
    requires |z| == 2 * h && j < 2 * h
  {
    if j == 0 then C(z[0].re + z[0].im, z[0].re - z[0].im)
    else if j == h then z[j]
    else if j < h then
      var m := Twist(z[j], z[2 * h - j], w(j));
      C(z[j].re + m.re, z[j].im - m.im)
    else
      var m := Twist(z[2 * h - j], z[j], w(2 * h - j));
      C(z[j].re - m.re, z[j].im - m.im)
  }

  function AllAfter(z: seq<Complex>, h: nat, w: nat -> Complex): (r: seq<Complex>)
    requires |z| == 2 * h
    ensures |r| == 2 * h
  {
    seq(2 * h, j requires 0 <= j < 2 * h => After(z, h, w, j))
  }

  // REALSUB0, after the butterflies.
  function Sub0(h: nat, w: nat -> Complex, s: seq<real>): (d: seq<real>)
    ensures |d| == 4 * h
  {
    if |s| == 4 * h then Values(AllAfter(Points(s, 2 * h), h, w)) else seq(4 * h, _ => 0.0)
  }

  function Lower(b: Complex, m: Complex, c: real): Complex {
    C((b.re - m.re) * c, (-b.im + m.im) * c)
  }

  function Upper(a: Complex, m: Complex, c: real): Complex {
    C((m.re + a.re) * c, (m.im - a.im) * c)
  }

  // Point j of 2 * h before the butterflies; top is the real value of the bin behind the last one.
  function Before(z: seq<Complex>, top: real, h: nat, w: nat -> Complex, c: real, j: nat): Complex
    requires |z| == 2 * h && j < 2 * h
  {
    if j == 0 then C((z[0].re + top) * (0.5 * c), (z[0].re - top) * (0.5 * c))
    else if j == h then C(z[j].re * c, z[j].im * c)
    else if j < h then
      Lower(z[2 * h - j], Twist(z[j], z[2 * h - j], w(j)), c)
    else
      Upper(z[2 * h - j], Twist(z[2 * h - j], z[j], w(2 * h - j)), c)
  }

  function AllBefore(z: seq<Complex>, top: real, h: nat, w: nat -> Complex, c: real): (r: seq<Complex>)
    requires |z| == 2 * h
    ensures |r| == 2 * h
  {
    seq(2 * h, j requires 0 <= j < 2 * h => Before(z, top, h, w, c, j))
  }

  // REALSUB1, before the butterflies; the long format has two more values.
  function Sub1(h: nat, w: nat -> Complex, s: seq<real>, long: bool): (d: seq<real>)
    ensures |d| == 4 * h
  {
    if h > 0 && |s| == 4 * h + (if long then 2 else 0) then
      Values(AllBefore(Points(s, 2 * h), if long then s[4 * h] else s[1], h, w, if long then 2.0 else 1.0))
    else seq(4 * h, _ => 0.0)
  }

  // ---------------------------------------------------------------- the loops

  // The coefficients in the tables.
  function Table(c0: seq<real>, c1: seq<real>): nat -> Complex {
    (k: nat) => if 2 * k < |c0| && 2 * k < |c1| then C(c0[2 * k], c1[2 * k]) else C(0.0, 0.0)
  }

  // Point j stands at its place.
  ghost predicate Stands(d: seq<real>, j: nat, x: Complex) {
    2 * j + 1 < |d| && d[2 * j] == x.re && d[2 * j + 1] == x.im
  }

  lemma AfterStands(h: nat, w: nat -> Complex, s: seq<real>, d: seq<real>)
    requires |s| == 4 * h && |d| >= 4 * h
    requires forall j :: 0 <= j < 2 * h ==> Stands(d, j, After(Points(s, 2 * h), h, w, j))
    ensures d[..4 * h] == Sub0(h, w, s)
  {
    hide After, Points;
    var r := AllAfter(Points(s, 2 * h), h, w);
    forall j | 0 <= j < 2 * h
      ensures Stands(d, j, r[j])
    {
    }
    ValuesStand(r, d);
  }

  lemma ValuesStand(r: seq<Complex>, d: seq<real>)
    requires |d| >= 2 * |r| && forall j :: 0 <= j < |r| ==> Stands(d, j, r[j])
    ensures d[..2 * |r|] == Values(r)
  {
    forall i | 0 <= i < 2 * |r|
      ensures d[i] == Values(r)[i]
    {
      assert Stands(d, i / 2, r[i / 2]);
    }
  }

  // The pairs from k on are still to be written, and point 0.
  predicate Open(h: nat, k: nat, j: nat) {
    j == 0 || (k <= j <= 2 * h - k && j != h)
  }

  lemma PointIs(s: seq<real>, n: nat, j: nat)
    requires |s| >= 2 * n && j < n
    ensures Stands(s, j, Points(s, n)[j])
  {
  }

  // The four places of a pair of points.
  predicate Places(h: nat, k: nat, i: nat) {
    i == 2 * k || i == 2 * k + 1 || i == 4 * h - 2 * k || i == 4 * h - 2 * k + 1
  }

  lemma AfterPair(z: seq<Complex>, h: nat, w: nat -> Complex, k: nat)
    requires |z| == 2 * h && 1 <= k < h
    ensures var m := Twist(z[k], z[2 * h - k], w(k));
      && After(z, h, w, k) == C(z[k].re + m.re, z[k].im - m.im)
      && After(z, h, w, 2 * h - k) == C(z[2 * h - k].re - m.re, z[2 * h - k].im - m.im)
  {
    hide Twist;
  }

  // One turn of the loop of REALSUB0.
  method PairAfter(d: array<real>, s: array<real>, h: nat, c0: array<real>, c1: array<real>, k: nat,
      ghost z: seq<Complex>)
    requires 1 <= k < h && |z| == 2 * h && d.Length >= 4 * h && s.Length >= 4 * h
    requires c0.Length >= 2 * h && c1.Length >= 2 * h && d != c0 && d != c1
    requires Stands(s[..], k, z[k]) && Stands(s[..], 2 * h - k, z[2 * h - k])
    modifies d
    ensures var w := Table(c0[..], c1[..]);
      Stands(d[..], k, After(z, h, w, k)) && Stands(d[..], 2 * h - k, After(z, h, w, 2 * h - k))
    ensures forall i :: 0 <= i < d.Length && !Places(h, k, i) ==> d[i] == old(d[i])
  {
    hide After, Twist, Table;
    var n := 2 * h;
    AfterPair(z, h, Table(c0[..], c1[..]), k);
    TableAt(c0[..], c1[..], k);
    var mr, mi := TwistOf(s, n, k, c0[k * 2], c1[k * 2], z[k], z[n - k]);
    d[k * 2] := s[k * 2] + mr;
    d[k * 2 + 1] := s[k * 2 + 1] - mi;
    d[(n - k) * 2] := s[(n - k) * 2] - mr;
    d[(n - k) * 2 + 1] := s[(n - k) * 2 + 1] - mi;
    assert c0[..] == old(c0[..]) && c1[..] == old(c1[..]);
  }

  // The twist of points k and n - k of s.
  method TwistOf(s: array<real>, n: nat, k: nat, ur: real, ui: real, ghost a: Complex, ghost b: Complex)
    returns (mr: real, mi: real)
    requires 1 <= k < n && s.Length >= 2 * n && Stands(s[..], k, a) && Stands(s[..], n - k, b)
    ensures C(mr, mi) == Twist(a, b, C(ur, ui))
  {
    var tr := s[k * 2] - s[(n - k) * 2];
    var ti := s[k * 2 + 1] + s[(n - k) * 2 + 1];
    mr := ti * ui - tr * ur;
    mi := tr * ui + ti * ur;
  }

  lemma OtherPlaces(h: nat, k: nat, j: nat)
    requires 1 <= k < h && j < 2 * h && j != k && j != 2 * h - k
    ensures !Places(h, k, 2 * j) && !Places(h, k, 2 * j + 1)
  {
  }

  lemma StaysOpen(h: nat, k: nat, j: nat)
    requires 1 <= k < h && j < 2 * h
    ensures Open(h, k + 1, j) <==> Open(h, k, j) && j != k && j != 2 * h - k
  {
  }

  // d may be s: a pair is read before it is written.
  method RealSub0(d: array<real>, s: array<real>, h: nat, c0: array<real>, c1: array<real>)
    requires h >= 1 && d.Length >= 4 * h && s.Length >= 4 * h && c0.Length >= 2 * h && c1.Length >= 2 * h
    requires d != c0 && d != c1
    modifies d
    ensures d[..4 * h] == Sub0(h, Table(c0[..], c1[..]), old(s[..4 * h])) && d[4 * h..] == old(d[4 * h..])
  {
    hide After, Sub0, Points, Twist, Table, Places, Open;
    ghost var v := s[..4 * h];
    ghost var z, w := Points(v, 2 * h), Table(c0[..], c1[..]);
    forall j | 0 <= j < 2 * h
      ensures Stands(s[..], j, z[j])
    {
      PointIs(v, 2 * h, j);
    }
    EndPoints(z, h, w);
    var s0, s1 := s[0], s[1];
    d[2 * h] := s[2 * h];
    d[2 * h + 1] := s[2 * h + 1];
    AllOpen(h);
    for k: nat := 1 to h
      invariant d[4 * h..] == old(d[4 * h..])
      invariant forall j :: 1 <= j < 2 * h && Open(h, k, j) ==> Stands(s[..], j, z[j])
      invariant forall j :: 1 <= j < 2 * h && !Open(h, k, j) ==> Stands(d[..], j, After(z, h, w, j))
    {
      OpenPair(h, k);
      ghost var before, from := d[..], s[..];
      PairAfter(d, s, h, c0, c1, k, z);
      PairsAdvance(from, s[..], before, d[..], h, k, z, w);
      BehindPlaces(h, k);
    }
    NoneOpen(h);
    d[0] := s0 + s1;
    d[1] := s0 - s1;
    AfterStands(h, w, v, d[..]);
  }

  // After one turn, with s the source, before and after it, and d the destination.
  lemma PairsAdvance(s: seq<real>, s': seq<real>, d: seq<real>, d': seq<real>, h: nat, k: nat, z: seq<Complex>,
      w: nat -> Complex)
    requires 1 <= k < h && |z| == 2 * h && |s'| == |s| && |d'| == |d|
    requires forall j :: 1 <= j < 2 * h && Open(h, k, j) ==> Stands(s, j, z[j])
    requires forall j :: 1 <= j < 2 * h && !Open(h, k, j) ==> Stands(d, j, After(z, h, w, j))
    requires Stands(d', k, After(z, h, w, k)) && Stands(d', 2 * h - k, After(z, h, w, 2 * h - k))
    requires forall i :: 0 <= i < |d| && !Places(h, k, i) ==> d'[i] == d[i]
    requires forall i :: 0 <= i < |s| && !Places(h, k, i) ==> s'[i] == s[i]
    ensures forall j :: 1 <= j < 2 * h && Open(h, k + 1, j) ==> Stands(s', j, z[j])
    ensures forall j :: 1 <= j < 2 * h && !Open(h, k + 1, j) ==> Stands(d', j, After(z, h, w, j))
  {
    hide After, Places, Open;
    forall j | 1 <= j < 2 * h
      ensures Open(h, k + 1, j) ==> Stands(s', j, z[j])
      ensures !Open(h, k + 1, j) ==> Stands(d', j, After(z, h, w, j))
    {
      StaysOpen(h, k, j);
      if j != k && j != 2 * h - k {
        OtherPlaces(h, k, j);
      }
    }
  }

  lemma EndPoints(z: seq<Complex>, h: nat, w: nat -> Complex)
    requires |z| == 2 * h && h >= 1
    ensures After(z, h, w, 0) == C(z[0].re + z[0].im, z[0].re - z[0].im) && After(z, h, w, h) == z[h]
  {
  }

  lemma AllOpen(h: nat)
    ensures forall j :: 1 <= j < 2 * h ==> (Open(h, 1, j) <==> j != h)
  {
  }

  lemma NoneOpen(h: nat)
    requires h >= 1
    ensures forall j :: 1 <= j < 2 * h ==> !Open(h, h, j)
  {
  }

  lemma OpenPair(h: nat, k: nat)
    requires 1 <= k < h
    ensures Open(h, k, k) && Open(h, k, 2 * h - k)
  {
  }

  lemma BehindPlaces(h: nat, k: nat)
    requires 1 <= k < h
    ensures forall i :: i >= 4 * h ==> !Places(h, k, i)
  {
  }

  lemma BeforePair(z: seq<Complex>, top: real, h: nat, w: nat -> Complex, c: real, k: nat)
    requires |z| == 2 * h && 1 <= k < h
    ensures var m := Twist(z[k], z[2 * h - k], w(k));
      && Before(z, top, h, w, c, k) == Lower(z[2 * h - k], m, c)
      && Before(z, top, h, w, c, 2 * h - k) == Upper(z[k], m, c)
  {
    hide Twist, Lower, Upper;
  }

  lemma EndsBefore(z: seq<Complex>, top: real, h: nat, w: nat -> Complex, c: real)
    requires |z| == 2 * h && h >= 1
    ensures Before(z, top, h, w, c, 0) == C((z[0].re + top) * (0.5 * c), (z[0].re - top) * (0.5 * c))
    ensures Before(z, top, h, w, c, h) == C(z[h].re * c, z[h].im * c)
  {
  }

  // One turn of the loop of REALSUB1.
  method PairBefore(d: array<real>, s: array<real>, h: nat, c0: array<real>, c1: array<real>, c: real, k: nat,
      ghost z: seq<Complex>, ghost top: real)
    requires 1 <= k < h && |z| == 2 * h && d.Length >= 4 * h && s.Length >= 4 * h && d != s
    requires c0.Length >= 2 * h && c1.Length >= 2 * h && d != c0 && d != c1
    requires Stands(s[..], k, z[k]) && Stands(s[..], 2 * h - k, z[2 * h - k])
    modifies d
    ensures var w := Table(c0[..], c1[..]);
      && Stands(d[..], k, Before(z, top, h, w, c, k))
      && Stands(d[..], 2 * h - k, Before(z, top, h, w, c, 2 * h - k))
    ensures forall i :: 0 <= i < d.Length && !Places(h, k, i) ==> d[i] == old(d[i])
  {
    hide *;
    var n := 2 * h;
    BeforePair(z, top, h, Table(c0[..], c1[..]), c, k);
    TableAt(c0[..], c1[..], k);
    StandsIs(s[..], k, z[k]);
    StandsIs(s[..], n - k, z[n - k]);
    var a, b := C(s[k * 2], s[k * 2 + 1]), C(s[(n - k) * 2], s[(n - k) * 2 + 1]);
    assert a == z[k] && b == z[n - k];
    var mr, mi := TwistOf(s, n, k, c0[k * 2], c1[k * 2], z[k], z[n - k]);
    var m := C(mr, mi);
    PutPair(d, h, k, Lower(b, m, c), Upper(a, m, c));
    assert c0[..] == old(c0[..]) && c1[..] == old(c1[..]);
  }

  lemma TableAt(c0: seq<real>, c1: seq<real>, k: nat)
    requires 2 * k < |c0| && 2 * k < |c1|
    ensures Table(c0, c1)(k) == C(c0[2 * k], c1[2 * k])
  {
  }

  method PutPair(d: array<real>, h: nat, k: nat, x: Complex, y: Complex)
    requires 1 <= k < h && d.Length >= 4 * h
    modifies d
    ensures Stands(d[..], k, x) && Stands(d[..], 2 * h - k, y)
    ensures forall i :: 0 <= i < d.Length && !Places(h, k, i) ==> d[i] == old(d[i])
  {
    d[k * 2] := x.re;
    d[k * 2 + 1] := x.im;
    d[(2 * h - k) * 2] := y.re;
    d[(2 * h - k) * 2 + 1] := y.im;
  }

  // The points that are no longer open stand in d, and point 0.
  ghost predicate Closed(d: seq<real>, h: nat, k: nat, r: seq<Complex>) {
    |r| == 2 * h && |d| >= 4 * h && forall j :: 0 <= j < 2 * h && (!Open(h, k, j) || j == 0) ==> Stands(d, j, r[j])
  }

  lemma PairCloses(d: seq<real>, e: seq<real>, h: nat, k: nat, r: seq<Complex>)
    requires 1 <= k < h && Closed(d, h, k, r) && |e| == |d|
    requires Stands(e, k, r[k]) && Stands(e, 2 * h - k, r[2 * h - k])
    requires forall i :: 0 <= i < |d| && !Places(h, k, i) ==> e[i] == d[i]
    ensures Closed(e, h, k + 1, r) && e[4 * h..] == d[4 * h..]
  {
    hide Places, Open;
    forall j | 0 <= j < 2 * h && (!Open(h, k + 1, j) || j == 0)
      ensures Stands(e, j, r[j])
    {
      StaysOpen(h, k, j);
      if j != k && j != 2 * h - k {
        OtherPlaces(h, k, j);
      }
    }
    BehindPlaces(h, k);
  }

  lemma FirstClosed(d: seq<real>, h: nat, r: seq<Complex>)
    requires h >= 1 && |r| == 2 * h && |d| >= 4 * h && Stands(d, 0, r[0]) && Stands(d, h, r[h])
    ensures Closed(d, h, 1, r)
  {
    AllOpen(h);
  }

  lemma AllClosed(d: seq<real>, h: nat, r: seq<Complex>)
    requires h >= 1 && Closed(d, h, h, r)
    ensures d[..4 * h] == Values(r)
  {
    NoneOpen(h);
    ValuesStand(r, d);
  }

  // The points that REALSUB1 leaves.
  function BeforePoints(h: nat, w: nat -> Complex, s: seq<real>, long: bool): (r: seq<Complex>)
    requires h >= 1 && |s| == 4 * h + if long then 2 else 0
    ensures |r| == 2 * h && Sub1(h, w, s, long) == Values(r)
  {
    AllBefore(Points(s, 2 * h), if long then s[4 * h] else s[1], h, w, if long then 2.0 else 1.0)
  }

  lemma BeforePointIs(h: nat, w: nat -> Complex, s: seq<real>, long: bool, j: nat)
    requires h >= 1 && |s| == 4 * h + (if long then 2 else 0) && j < 2 * h
    ensures BeforePoints(h, w, s, long)[j] ==
      Before(Points(s, 2 * h), if long then s[4 * h] else s[1], h, w, if long then 2.0 else 1.0, j)
  {
    hide Before, Points;
  }

  method RealSub1(d: array<real>, s: array<real>, h: nat, c0: array<real>, c1: array<real>, long: bool)
    requires h >= 1 && d.Length >= 4 * h && s.Length >= 4 * h + (if long then 2 else 0) && d != s
    requires c0.Length >= 2 * h && c1.Length >= 2 * h && d != c0 && d != c1
    modifies d
    ensures d[..4 * h] == Sub1(h, Table(c0[..], c1[..]), s[..4 * h + if long then 2 else 0], long)
    ensures d[4 * h..] == old(d[4 * h..])
  {
    hide *;
    ghost var v := s[..4 * h + if long then 2 else 0];
    ghost var z, w := Points(v, 2 * h), Table(c0[..], c1[..]);
    ghost var r := BeforePoints(h, w, v, long);
    AllStand(v, s[..], 2 * h);
    var c, tr, ti := 1.0, s[0], s[1];
    if long {
      c, tr, ti := 2.0, s[0], s[4 * h];
    }
    EndsBefore(z, ti, h, w, c);
    BeforePointIs(h, w, v, long, 0);
    BeforePointIs(h, w, v, long, h);
    StandsIs(s[..], 0, z[0]);
    StandsIs(s[..], h, z[h]);
    d[0] := (tr + ti) * (0.5 * c);
    d[1] := (tr - ti) * (0.5 * c);
    d[2 * h + 1] := s[2 * h + 1] * c;
    d[2 * h] := s[2 * h] * c;
    StandsIs(d[..], 0, r[0]);
    StandsIs(d[..], h, r[h]);
    FirstClosed(d[..], h, r);
    for k: nat := 1 to h
      invariant d[4 * h..] == old(d[4 * h..]) && Closed(d[..], h, k, r)
    {
      ghost var before := d[..];
      PairBefore(d, s, h, c0, c1, c, k, z, ti);
      BeforePointIs(h, w, v, long, k);
      BeforePointIs(h, w, v, long, 2 * h - k);
      PairCloses(before, d[..], h, k, r);
      assert d[4 * h..] == d[..][4 * h..] && old(d[4 * h..]) == before[4 * h..];
    }
    AllClosed(d[..], h, r);
  }

  lemma StandsIs(d: seq<real>, j: nat, x: Complex)
    ensures Stands(d, j, x) <==> 2 * j + 1 < |d| && d[2 * j] == x.re && d[2 * j + 1] == x.im
  {
  }

  lemma AllStand(v: seq<real>, s: seq<real>, n: nat)
    requires 2 * n <= |v| <= |s| && v == s[..|v|]
    ensures forall j :: 0 <= j < n ==> Stands(s, j, Points(v, n)[j])
  {
  }

  // ---------------------------------------------------------------- the kernels undo each other

  // The angles lie on the unit circle.
  ghost predicate Circle(sc: Angles) {
    forall i :: sc(i).0 * sc(i).0 + sc(i).1 * sc(i).1 == 1.0
  }

  // The coefficients of the two directions.
  function Coefs(sc: Angles, backward: bool): nat -> Complex {
    (k: nat) => Coefficient(sc, backward, k)
  }

  lemma CoefficientsCancel(sc: Angles, i: nat)
    requires Circle(sc)
    ensures var w, u := Coefficient(sc, false, i), Coefficient(sc, true, i);
      && w.re + u.re - 2.0 * (w.re * u.re - w.im * u.im) == 1.0
      && w.im + u.im - 2.0 * (w.re * u.im + w.im * u.re) == 0.0
  {
    var x, y := sc(i).0, sc(i).1;
    assert x * x + y * y == 1.0;
    assert (0.5 - 0.5 * x) * (0.5 + 0.5 * x) == 0.25 - 0.25 * (x * x);
    assert (0.5 * y) * (0.5 * y) == 0.25 * (y * y);
    assert (0.5 - 0.5 * x) * (0.5 * y) + (0.5 * y) * (0.5 + 0.5 * x) == 0.5 * y;
  }

  // t turned by w, and what is left of it turned by u, is t.
  lemma TurnsCancel(tr: real, ti: real, w: Complex, u: Complex)
    requires w.re + u.re - 2.0 * (w.re * u.re - w.im * u.im) == 1.0
    requires w.im + u.im - 2.0 * (w.re * u.im + w.im * u.re) == 0.0
    ensures var mr, mi := ti * w.im - tr * w.re, tr * w.im + ti * w.re;
      var sr, si := tr + 2.0 * mr, ti - 2.0 * mi;
      mr + (si * u.im - sr * u.re) == -tr && mi + (sr * u.im + si * u.re) == ti
  {
    var mr, mi := ti * w.im - tr * w.re, tr * w.im + ti * w.re;
    var p, q := w.re * u.re - w.im * u.im, w.re * u.im + w.im * u.re;
    Products(tr, ti, w, u);
    assert mr + ((ti - 2.0 * mi) * u.im - (tr + 2.0 * mr) * u.re) ==
      ti * (w.im + u.im) - tr * (w.re + u.re) - 2.0 * (mi * u.im + mr * u.re);
    assert mi + ((tr + 2.0 * mr) * u.im + (ti - 2.0 * mi) * u.re) ==
      tr * (w.im + u.im) + ti * (w.re + u.re) + 2.0 * (mr * u.im - mi * u.re);
    assert ti * (w.im + u.im) - 2.0 * (ti * q) == ti * (w.im + u.im - 2.0 * q);
    assert tr * (w.im + u.im) - 2.0 * (tr * q) == tr * (w.im + u.im - 2.0 * q);
    assert tr * (w.re + u.re) - 2.0 * (tr * p) == tr * (w.re + u.re - 2.0 * p);
    assert ti * (w.re + u.re) - 2.0 * (ti * p) == ti * (w.re + u.re - 2.0 * p);
  }

  lemma Products(tr: real, ti: real, w: Complex, u: Complex)
    ensures var mr, mi := ti * w.im - tr * w.re, tr * w.im + ti * w.re;
      var p, q := w.re * u.re - w.im * u.im, w.re * u.im + w.im * u.re;
      mi * u.im + mr * u.re == ti * q - tr * p && mr * u.im - mi * u.re == -(tr * q) - ti * p
  {
  }

  // The coefficients w and u cancel.
  predicate Cancel(w: Complex, u: Complex) {
    && w.re + u.re - 2.0 * (w.re * u.re - w.im * u.im) == 1.0
    && w.im + u.im - 2.0 * (w.re * u.im + w.im * u.re) == 0.0
  }

  lemma PairParts(a: Complex, b: Complex, w: Complex, u: Complex)
    requires Cancel(w, u)
    ensures var m := Twist(a, b, w);
      var x, y := C(a.re + m.re, a.im - m.im), C(b.re - m.re, b.im - m.im);
      var g := Twist(x, y, u);
      y.re - g.re == a.re && -y.im + g.im == a.im && g.re + x.re == b.re && g.im - x.im == b.im
  {
    var m := Twist(a, b, w);
    var x, y := C(a.re + m.re, a.im - m.im), C(b.re - m.re, b.im - m.im);
    var g := Twist(x, y, u);
    var tr, ti := a.re - b.re, a.im + b.im;
    TurnsCancel(tr, ti, w, u);
    assert x.re - y.re == tr + 2.0 * m.re && x.im + y.im == ti - 2.0 * m.im;
    assert m.re + g.re == -tr && m.im + g.im == ti;
    hide Twist;
  }

  // A pair after the butterflies comes back before them, times c.
  lemma PairReturns(a: Complex, b: Complex, w: Complex, u: Complex, c: real)
    requires Cancel(w, u)
    ensures var m := Twist(a, b, w);
      var x, y := C(a.re + m.re, a.im - m.im), C(b.re - m.re, b.im - m.im);
      var g := Twist(x, y, u);
      Lower(y, g, c) == C(a.re * c, a.im * c) && Upper(x, g, c) == C(b.re * c, b.im * c)
  {
    PairParts(a, b, w, u);
    hide Twist, Cancel;
  }

  // And a pair before the butterflies comes back after them.
  lemma PairComesBack(a: Complex, b: Complex, w: Complex, u: Complex)
    requires Cancel(w, u)
    ensures var m := Twist(a, b, w);
      var x, y := Lower(b, m, 1.0), Upper(a, m, 1.0);
      var g := Twist(x, y, u);
      C(x.re + g.re, x.im - g.im) == a && C(y.re - g.re, y.im - g.im) == b
  {
    var m := Twist(a, b, w);
    var x, y := Lower(b, m, 1.0), Upper(a, m, 1.0);
    var g := Twist(x, y, u);
    var tr, ti := a.re - b.re, a.im + b.im;
    var sr, si := tr + 2.0 * m.re, ti - 2.0 * m.im;
    TurnsCancel(tr, ti, w, u);
    assert x.re - y.re == -sr && x.im + y.im == -si;
    assert g.re == -(si * u.im - sr * u.re) && g.im == -(sr * u.im + si * u.re);
    assert m.re - g.re == -tr && m.im - g.im == ti;
    hide Twist;
  }

  // What REALSUB1 makes in the short format REALSUB0 takes back.
  lemma ShortSubsUndo(h: nat, w: nat -> Complex, u: nat -> Complex, s: seq<real>)
    requires h >= 1 && |s| == 4 * h && forall k :: 1 <= k < h ==> Cancel(w(k), u(k))
    ensures Sub0(h, u, Sub1(h, w, s, false)) == s
  {
    var z, v := Points(s, 2 * h), Sub1(h, w, s, false);
    var y := Points(v, 2 * h);
    forall j | 0 <= j < 2 * h
      ensures y[j] == Before(z, s[1], h, w, 1.0, j)
    {
      hide Before, Points;
      BeforePointIs(h, w, s, false, j);
      ValuesBack(BeforePoints(h, w, s, false));
    }
    hide Sub0, Sub1, After, Before, Points;
    AllStand(s, s, 2 * h);
    PointIs(s, 2 * h, 0);
    StandsIs(s, 0, z[0]);
    forall j | 0 <= j < 2 * h
      ensures After(y, h, u, j) == z[j]
    {
      ShortPoint(h, w, u, z, s[1], y, j);
    }
    AfterStands(h, u, v, s);
    assert s[..4 * h] == s;
  }

  lemma ValuesBack(r: seq<Complex>)
    ensures Points(Values(r), |r|) == r
  {
  }

  lemma ShortPoint(h: nat, w: nat -> Complex, u: nat -> Complex, z: seq<Complex>, top: real, y: seq<Complex>, j: nat)
    requires h >= 1 && |z| == |y| == 2 * h && j < 2 * h && top == z[0].im
    requires forall k :: 1 <= k < h ==> Cancel(w(k), u(k))
    requires forall j :: 0 <= j < 2 * h ==> y[j] == Before(z, top, h, w, 1.0, j)
    ensures After(y, h, u, j) == z[j]
  {
    hide Twist, Lower, Upper, Cancel;
    if 1 <= j && j != h {
      var k := if j < h then j else 2 * h - j;
      BeforePair(z, top, h, w, 1.0, k);
      AfterPair(y, h, u, k);
      PairComesBack(z[k], z[2 * h - k], w(k), u(k));
    }
  }
}
