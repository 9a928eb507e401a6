// The branch of execute() for transforms without butterflies: two complex points, or two or four
// real ones.
module SmallTransforms {
  import opened ComplexNumbers
  import opened Execute1D

  // Lengths: 2^(log2len + 1) reals, and two more on the frequency side of the long format.
  function Width(mode: Mode, log2len: nat, frequencies: bool): nat
    requires log2len <= 1
  {
    (if log2len == 1 then 4 else 2) + if mode.real_ && !mode.alt && frequencies then 2 else 0
  }

  predicate Covered(mode: Mode, log2len: nat) {
    log2len <= 1 && (!mode.real_ ==> log2len == 1)
  }

  function InputWidth(mode: Mode, log2len: nat): nat
    requires Covered(mode, log2len)
  {
    Width(mode, log2len, mode.backward)
  }

  function OutputWidth(mode: Mode, log2len: nat): nat
    requires Covered(mode, log2len)
  {
    Width(mode, log2len, !mode.backward)
  }

  // ---------------------------------------------------------------- the transform by its sum

  // The imaginary unit to the power k.
  function Turn(k: int): Complex {
    match k % 4
    case 0 => C(1.0, 0.0)
    case 1 => C(0.0, 1.0)
    case 2 => C(-1.0, 0.0)
    case _ => C(0.0, -1.0)
  }

  // exp(2 pi i m / n), or its inverse, for two or four points.
  function Root(n: nat, m: int, positive: bool): Complex
    requires n == 2 || n == 4
  {
    Turn((4 / n) * if positive then m else -m)
  }

  // The sum of the first j terms of bin k.
  function Bin(x: seq<Complex>, k: nat, positive: bool, j: nat): Complex
    requires (|x| == 2 || |x| == 4) && j <= |x|
  {
    if j == 0 then C(0.0, 0.0)
    else Plus(Bin(x, k, positive, j - 1), Times(x[j - 1], Root(|x|, (j - 1) * k, positive)))
  }

  function Dft(x: seq<Complex>, positive: bool): (y: seq<Complex>)
    requires |x| == 2 || |x| == 4
    ensures |y| == |x|
  {
    seq(|x|, k requires 0 <= k < |x| => Bin(x, k, positive, |x|))
  }

  // The number of points.
  function Points(mode: Mode, log2len: nat): nat
    requires Covered(mode, log2len)
  {
    if mode.real_ && log2len == 1 then 4 else 2
  }

  // Real frequencies stand for themselves and, from the middle on, for their conjugates; the
  // imaginary parts of the first and the middle one do not count.
  function Unpacked(mode: Mode, log2len: nat, s: seq<real>): (x: seq<Complex>)
    requires Covered(mode, log2len) && |s| == InputWidth(mode, log2len)
    ensures |x| == Points(mode, log2len)
  {
    if !mode.real_ then [C(s[0], s[1]), C(s[2], s[3])]
    else
      var n := Points(mode, log2len);
      if !mode.backward then seq(n, j requires 0 <= j < n => C(s[j], 0.0))
      else
        var middle := C(if mode.alt then s[1] else s[n], 0.0);
        if n == 2 then [C(s[0], 0.0), middle] else [C(s[0], 0.0), C(s[2], s[3]), middle, C(s[2], -s[3])]
  }

  function Packed(mode: Mode, log2len: nat, y: seq<Complex>): (d: seq<real>)
    requires Covered(mode, log2len) && |y| == Points(mode, log2len)
    ensures |d| == OutputWidth(mode, log2len)
  {
    if !mode.real_ then [y[0].re, y[0].im, y[1].re, y[1].im]
    else if mode.backward then
      seq(|y|, j requires 0 <= j < |y| => if mode.alt then y[j].re * 0.5 else y[j].re)
    else if mode.alt then
      if log2len == 1 then [y[0].re, y[2].re, y[1].re, y[1].im] else [y[0].re, y[1].re]
    else
      [y[0].re, y[0].im, y[1].re, y[1].im] + if log2len == 1 then [y[2].re, y[2].im] else []
  }

  // The ALT formats have the sign of the exponent exchanged and halve the backward transform.
  function Small(mode: Mode, log2len: nat, s: seq<real>): (d: seq<real>)
    requires Covered(mode, log2len) && |s| == InputWidth(mode, log2len)
    ensures |d| == OutputWidth(mode, log2len)
  {
    Packed(mode, log2len, Dft(Unpacked(mode, log2len, s), mode.backward != mode.alt))
  }

  lemma TwoPoints(x: seq<Complex>, positive: bool)
    requires |x| == 2
    ensures var y := Dft(x, positive);
      && y[0] == C(x[0].re + x[1].re, x[0].im + x[1].im)
      && y[1] == C(x[0].re - x[1].re, x[0].im - x[1].im)
  {
    forall k: nat | k < 2
      ensures Bin(x, k, positive, 2) == Plus(Times(x[0], C(1.0, 0.0)), Times(x[1], Root(2, k, positive)))
    {
      assert Bin(x, k, positive, 1) == Times(x[0], C(1.0, 0.0));
    }
  }

  // The difference of x and y, turned by a right angle.
  function Turned(x: Complex, y: Complex, positive: bool): Complex {
    if positive then C(y.im - x.im, x.re - y.re) else C(x.im - y.im, y.re - x.re)
  }

  lemma FourPoints(x: seq<Complex>, positive: bool)
    requires |x| == 4
    ensures var y, d := Dft(x, positive), Turned(x[1], x[3], positive);
      && y[0] == C(x[0].re + x[1].re + x[2].re + x[3].re, x[0].im + x[1].im + x[2].im + x[3].im)
      && y[1] == C(x[0].re - x[2].re + d.re, x[0].im - x[2].im + d.im)
      && y[2] == C(x[0].re - x[1].re + x[2].re - x[3].re, x[0].im - x[1].im + x[2].im - x[3].im)
      && y[3] == C(x[0].re - x[2].re - d.re, x[0].im - x[2].im - d.im)
  {
    hide *;
    FourthRoots(positive);
    FourTerms(x, 0, positive);
    FourTerms(x, 1, positive);
    FourTerms(x, 2, positive);
    FourTerms(x, 3, positive);
    DftIs(x, positive);
    FourSums(x, positive);
  }

  lemma DftIs(x: seq<Complex>, positive: bool)
    requires |x| == 4
    ensures forall k :: 0 <= k < 4 ==> Dft(x, positive)[k] == Bin(x, k, positive, 4)
  {
  }

  lemma FourthRoots(positive: bool)
    ensures var s := if positive then 1.0 else -1.0;
      && Root(4, 0, positive) == Root(4, 4, positive) == C(1.0, 0.0)
      && Root(4, 1, positive) == Root(4, 9, positive) == C(0.0, s)
      && Root(4, 2, positive) == Root(4, 6, positive) == C(-1.0, 0.0)
      && Root(4, 3, positive) == C(0.0, -s)
  {
  }

  function Terms(x: seq<Complex>, a: Complex, b: Complex, c: Complex): Complex
    requires |x| == 4
  {
    Plus(Plus(Plus(x[0], Times(x[1], a)), Times(x[2], b)), Times(x[3], c))
  }

  lemma FourSums(x: seq<Complex>, positive: bool)
    requires |x| == 4
    ensures var i, d := C(0.0, if positive then 1.0 else -1.0), Turned(x[1], x[3], positive);
      && Terms(x, C(1.0, 0.0), C(1.0, 0.0), C(1.0, 0.0)) ==
         C(x[0].re + x[1].re + x[2].re + x[3].re, x[0].im + x[1].im + x[2].im + x[3].im)
      && Terms(x, i, C(-1.0, 0.0), C(0.0, -i.im)) == C(x[0].re - x[2].re + d.re, x[0].im - x[2].im + d.im)
      && Terms(x, C(-1.0, 0.0), C(1.0, 0.0), C(-1.0, 0.0)) ==
         C(x[0].re - x[1].re + x[2].re - x[3].re, x[0].im - x[1].im + x[2].im - x[3].im)
      && Terms(x, C(0.0, -i.im), C(-1.0, 0.0), i) == C(x[0].re - x[2].re - d.re, x[0].im - x[2].im - d.im)
  {
    hide Times;
    UnitTimes(x[1]);
    UnitTimes(x[2]);
    UnitTimes(x[3]);
  }

  lemma UnitTimes(z: Complex)
    ensures Times(z, C(1.0, 0.0)) == z && Times(z, C(-1.0, 0.0)) == C(-z.re, -z.im)
    ensures Times(z, C(0.0, 1.0)) == C(-z.im, z.re) && Times(z, C(0.0, -1.0)) == C(z.im, -z.re)
  {
  }

  lemma FourTerms(x: seq<Complex>, k: nat, positive: bool)
    requires |x| == 4 && k < 4
    ensures Bin(x, k, positive, 4) ==
      Terms(x, Root(4, k, positive), Root(4, 2 * k, positive), Root(4, 3 * k, positive))
  {
    assert Root(4, 0 * k, positive) == C(1.0, 0.0);
    assert Bin(x, k, positive, 1) == x[0];
    hide Root, Times, Plus;
    assert Bin(x, k, positive, 2) == Plus(x[0], Times(x[1], Root(4, 1 * k, positive)));
    assert Bin(x, k, positive, 3) == Plus(Bin(x, k, positive, 2), Times(x[2], Root(4, 2 * k, positive)));
    assert Bin(x, k, positive, 4) == Plus(Bin(x, k, positive, 3), Times(x[3], Root(4, 3 * k, positive)));
  }

  // ---------------------------------------------------------------- the expressions of the source

  function Unrolled(mode: Mode, log2len: nat, s: seq<real>): (d: seq<real>)
    requires Covered(mode, log2len) && |s| == InputWidth(mode, log2len)
    ensures |d| == OutputWidth(mode, log2len)
  {
    if !mode.real_ then [s[0] + s[2], s[1] + s[3], s[0] - s[2], s[1] - s[3]]
    else if !mode.alt then
      if log2len == 1 then
        if !mode.backward then
          [s[0] + s[2] + (s[1] + s[3]), 0.0, s[0] - s[2], s[3] - s[1], s[0] + s[2] - (s[1] + s[3]), 0.0]
        else
          [((s[0] + s[4]) * 0.5 + s[2]) * 2.0, ((s[0] - s[4]) * 0.5 - s[3]) * 2.0,
           ((s[0] + s[4]) * 0.5 - s[2]) * 2.0, ((s[0] - s[4]) * 0.5 + s[3]) * 2.0]
      else if !mode.backward then [s[0] + s[1], 0.0, s[0] - s[1], 0.0]
      else [s[0] + s[2], s[0] - s[2]]
    else if log2len == 1 then
      if !mode.backward then
        [s[0] + s[2] + (s[1] + s[3]), s[0] + s[2] - (s[1] + s[3]), s[0] - s[2], s[1] - s[3]]
      else
        [(s[0] + s[1]) * 0.5 + s[2], (s[0] - s[1]) * 0.5 + s[3], (s[0] + s[1]) * 0.5 - s[2], (s[0] - s[1]) * 0.5 - s[3]]
    else
      var c := if mode.backward then 0.5 else 1.0;
      [(s[0] + s[1]) * c, (s[0] - s[1]) * c]
  }

  // The expressions are the transform.
  lemma UnrolledIsSmall(mode: Mode, log2len: nat, s: seq<real>)
    requires Covered(mode, log2len) && |s| == InputWidth(mode, log2len)
    ensures Unrolled(mode, log2len, s) == Small(mode, log2len, s)
  {
    hide Dft;
    var x, positive := Unpacked(mode, log2len, s), mode.backward != mode.alt;
    if Points(mode, log2len) == 2 {
      TwoPoints(x, positive);
    } else {
      FourPoints(x, positive);
    }
  }

  // The number of points: what a transform and its inverse multiply by, halved in the ALT mode.
  function Factor(mode: Mode, log2len: nat): real {
    if !mode.real_ then 2.0
    else (if log2len == 1 then 4.0 else 2.0) * (if mode.alt then 0.5 else 1.0)
  }

  function Scaled(c: real, s: seq<real>): (d: seq<real>)
    ensures |d| == |s|
  {
    seq(|s|, i requires 0 <= i < |s| => c * s[i])
  }

  // Forward and then backward multiplies by the number of points.
  lemma SmallRoundTrip(mode: Mode, log2len: nat, s: seq<real>)
    requires Covered(mode, log2len) && !mode.backward && |s| == InputWidth(mode, log2len)
    ensures Small(mode.(backward := true), log2len, Small(mode, log2len, s)) == Scaled(Factor(mode, log2len), s)
  {
    UnrolledIsSmall(mode, log2len, s);
    UnrolledIsSmall(mode.(backward := true), log2len, Small(mode, log2len, s));
    hide Small;
    UnrolledRoundTrip(mode, log2len, s);
  }

  lemma UnrolledRoundTrip(mode: Mode, log2len: nat, s: seq<real>)
    requires Covered(mode, log2len) && !mode.backward && |s| == InputWidth(mode, log2len)
    ensures Unrolled(mode.(backward := true), log2len, Unrolled(mode, log2len, s)) == Scaled(Factor(mode, log2len), s)
  {
    if !mode.real_ {
      ComplexRoundTrip(mode, s);
    } else if log2len == 1 {
      FourRoundTrip(mode, s);
    } else {
      TwoRoundTrip(mode, s);
    }
  }

  lemma ComplexRoundTrip(mode: Mode, s: seq<real>)
    requires !mode.real_ && !mode.backward && |s| == 4
    ensures Unrolled(mode.(backward := true), 1, Unrolled(mode, 1, s)) == Scaled(Factor(mode, 1), s)
  {
    assert Unrolled(mode.(backward := true), 1, Unrolled(mode, 1, s)) ==
      [2.0 * s[0], 2.0 * s[1], 2.0 * s[2], 2.0 * s[3]];
  }

  lemma FourRoundTrip(mode: Mode, s: seq<real>)
    requires mode.real_ && !mode.backward && |s| == 4
    ensures Unrolled(mode.(backward := true), 1, Unrolled(mode, 1, s)) == Scaled(Factor(mode, 1), s)
  {
    var r := Unrolled(mode.(backward := true), 1, Unrolled(mode, 1, s));
    if mode.alt {
      assert Factor(mode, 1) == 2.0;
      assert r == [2.0 * s[0], 2.0 * s[1], 2.0 * s[2], 2.0 * s[3]];
    } else {
      assert Factor(mode, 1) == 4.0;
      assert r == [4.0 * s[0], 4.0 * s[1], 4.0 * s[2], 4.0 * s[3]];
    }
  }

  lemma TwoRoundTrip(mode: Mode, s: seq<real>)
    requires mode.real_ && !mode.backward && |s| == 2
    ensures Unrolled(mode.(backward := true), 0, Unrolled(mode, 0, s)) == Scaled(Factor(mode, 0), s)
  {
    var r := Unrolled(mode.(backward := true), 0, Unrolled(mode, 0, s));
    if mode.alt {
      assert Factor(mode, 0) == 1.0;
      assert r == [s[0], s[1]];
    } else {
      assert Factor(mode, 0) == 2.0;
      assert r == [2.0 * s[0], 2.0 * s[1]];
    }
  }

  // The backward transform of real frequencies is real.
  lemma RealResults(mode: Mode, log2len: nat, s: seq<real>, j: nat)
    requires Covered(mode, log2len) && |s| == InputWidth(mode, log2len) && mode.real_ && mode.backward
    requires j < Points(mode, log2len)
    ensures Dft(Unpacked(mode, log2len, s), !mode.alt)[j].im == 0.0
  {
    hide Dft;
    var x := Unpacked(mode, log2len, s);
    if |x| == 2 {
      RealTwo(x, !mode.alt);
    } else {
      RealFour(x, !mode.alt);
    }
  }

  lemma RealTwo(x: seq<Complex>, positive: bool)
    requires |x| == 2 && x[0].im == 0.0 && x[1].im == 0.0
    ensures forall j :: 0 <= j < 2 ==> Dft(x, positive)[j].im == 0.0
  {
    hide Dft;
    TwoPoints(x, positive);
  }

  lemma RealFour(x: seq<Complex>, positive: bool)
    requires |x| == 4 && x[0].im == 0.0 && x[2].im == 0.0 && x[1].re == x[3].re && x[1].im == -x[3].im
    ensures forall j :: 0 <= j < 4 ==> Dft(x, positive)[j].im == 0.0
  {
    hide Dft;
    FourPoints(x, positive);
    var y := Dft(x, positive);
    assert y[0].im == 0.0 && y[1].im == 0.0 && y[2].im == 0.0 && y[3].im == 0.0;
  }

  // s may be d: everything is read before anything is written.
  method ExecuteSmall(mode: Mode, log2len: nat, s: array<real>, d: array<real>)
    requires Covered(mode, log2len) && s.Length >= InputWidth(mode, log2len) && d.Length >= OutputWidth(mode, log2len)
    modifies d
    ensures d[..OutputWidth(mode, log2len)] == Small(mode, log2len, old(s[..InputWidth(mode, log2len)]))
  {
    hide Small, Dft, Bin, Packed, Unpacked, Turn, Root, Times, Plus;
    UnrolledIsSmall(mode, log2len, s[..InputWidth(mode, log2len)]);
    if !mode.real_ {
      var r0, r1, r2, r3 := s[0] + s[2], s[1] + s[3], s[0] - s[2], s[1] - s[3];
      d[0], d[1], d[2], d[3] := r0, r1, r2, r3;
    } else if !mode.alt {
      if log2len == 1 {
        if !mode.backward {
          var r0, r1 := s[0] + s[2] + (s[1] + s[3]), s[0] + s[2] - (s[1] + s[3]);
          var r2, r3 := s[0] - s[2], s[3] - s[1];
          d[0], d[1], d[2], d[3], d[4], d[5] := r0, 0.0, r2, r3, r1, 0.0;
        } else {
          var r0, r1 := (s[0] + s[4]) * 0.5 + s[2], (s[0] - s[4]) * 0.5 - s[3];
          var r2, r3 := (s[0] + s[4]) * 0.5 - s[2], (s[0] - s[4]) * 0.5 + s[3];
          d[0], d[1], d[2], d[3] := r0 * 2.0, r1 * 2.0, r2 * 2.0, r3 * 2.0;
        }
      } else if !mode.backward {
        var r0, r1 := s[0] + s[1], s[0] - s[1];
        d[0], d[1], d[2], d[3] := r0, 0.0, r1, 0.0;
      } else {
        var r0, r1 := s[0] + s[2], s[0] - s[2];
        d[0], d[1] := r0, r1;
      }
    } else if log2len == 1 {
      if !mode.backward {
        var r0, r1 := s[0] + s[2] + (s[1] + s[3]), s[0] + s[2] - (s[1] + s[3]);
        var r2, r3 := s[0] - s[2], s[1] - s[3];
        d[0], d[1], d[2], d[3] := r0, r1, r2, r3;
      } else {
        var r0, r1 := (s[0] + s[1]) * 0.5 + s[2], (s[0] - s[1]) * 0.5 + s[3];
        var r2, r3 := (s[0] + s[1]) * 0.5 - s[2], (s[0] - s[1]) * 0.5 - s[3];
        d[0], d[1], d[2], d[3] := r0, r1, r2, r3;
      }
    } else {
      var c := if mode.backward then 0.5 else 1.0;
      var r0, r1 := s[0] + s[1], s[0] - s[1];
      d[0], d[1] := r0 * c, r1 * c;
    }
  }
}
