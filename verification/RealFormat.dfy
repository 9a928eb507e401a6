// What the corrections of execute() around REALSUB0 and REALSUB1 are for: the frequencies of a real
// transform in the long format, and the way back.
module RealFormat {
  import opened ComplexNumbers
  import opened Powers
  import opened Execute1D
  import opened RealSub
  import S = SmallTransforms
  import P = Planner

  const FORWARD: Mode := Mode(true, false, false)
  const BACKWARD: Mode := Mode(true, true, false)

  // The source's own kernels around the butterflies.
  function RealKernels(dispatch: (P.Action, seq<real>) -> seq<real>, h: nat, w: nat -> Complex): Kernels {
    Kernels(dispatch, (v: seq<real>) => Sub0(h, w, v), (v: seq<real>, long: bool) => Sub1(h, w, v, long))
  }

  lemma RealKernelsAre(dispatch: (P.Action, seq<real>) -> seq<real>, h: nat, w: nat -> Complex)
    requires forall a: P.Action, v :: |dispatch(a, v)| == 4 * h
    ensures RealKernels(dispatch, h, w).Sized(4 * h)
    ensures forall v :: RealKernels(dispatch, h, w).realSub0(v) == Sub0(h, w, v)
    ensures forall v, b :: RealKernels(dispatch, h, w).realSub1(v, b) == Sub1(h, w, v, b)
  {
    hide Sub0, Sub1;
  }

  lemma HalfIs(log2len: nat)
    requires log2len >= 2
    ensures Pow2(log2len) == 2 * Pow2(log2len - 1) && Pow2(log2len - 1) >= 2
  {
  }

  // ---------------------------------------------------------------- the places of the corrections

  // The first and the last bin are the two values at the front of REALSUB0's result, without
  // imaginary parts; the middle bin is conjugated; all others stay.
  lemma FinishedBins(k: Kernels, log2len: nat, v: seq<real>)
    requires log2len >= 2 && k.Sized(2 * Pow2(log2len)) && |v| == 2 * Pow2(log2len)
    ensures var n, r, d := Pow2(log2len), k.realSub0(v), Finished(FORWARD, k, log2len, v);
      && |d| == 2 * n + 2 && d[0] == r[0] && d[1] == 0.0 && d[2 * n] == r[1] && d[2 * n + 1] == 0.0
      && d[n] == r[n] && d[n + 1] == -r[n + 1]
      && forall i :: 2 <= i < 2 * n && i != n + 1 ==> d[i] == r[i]
  {
    HalfIs(log2len);
    hide Pow2;
  }

  // The middle place comes back with the factor 2, whatever else the kernels do.
  lemma MiddleReturns(k: Kernels, k': Kernels, log2len: nat, v: seq<real>)
    requires log2len >= 2 && k.Sized(2 * Pow2(log2len)) && k'.Sized(2 * Pow2(log2len)) && |v| == 2 * Pow2(log2len)
    requires k.realSub0(v)[Pow2(log2len) + 1] == v[Pow2(log2len) + 1]
    ensures var i, d := Pow2(log2len) + 1, Finished(FORWARD, k, log2len, v);
      Prepared(BACKWARD, k', log2len, d)[i] == 2.0 * v[i]
  {
    FinishedBins(k, log2len, v);
    HalfIs(log2len);
    hide Pow2, Finished;
  }

  // ---------------------------------------------------------------- bins of the real transform

  // (-i)^m times sample m, added up: the bin at a quarter of the sampling frequency.
  function QuarterBin(x: seq<real>, j: nat): Complex
    requires j <= |x|
  {
    if j == 0 then C(0.0, 0.0) else Plus(QuarterBin(x, j - 1), Times(C(x[j - 1], 0.0), S.Turn(-(j - 1))))
  }

  // Samples from..., every second one, with alternating signs.
  function Alternating(x: seq<real>, from: nat, j: nat): real
    requires from + 2 * j <= |x| + 1 && (j > 0 ==> from + 2 * j - 2 < |x|)
  {
    if j == 0 then 0.0
    else Alternating(x, from, j - 1) + if j % 2 == 1 then x[from + 2 * j - 2] else -x[from + 2 * j - 2]
  }

  lemma {:induction false} QuarterBinSplits(x: seq<real>, j: nat)
    requires 2 * j <= |x|
    ensures QuarterBin(x, 2 * j) == C(Alternating(x, 0, j), -Alternating(x, 1, j))
  {
    if j > 0 {
      QuarterBinSplits(x, j - 1);
      NextSamples(x, j);
      var q := 2 * j - 2;
      hide *;
      QuarterStep(x, q + 1);
      QuarterStep(x, q + 2);
      TurnsBy(j);
      RealTimes(x[q], S.Turn(-q));
      RealTimes(x[q + 1], S.Turn(-(q + 1)));
      PlusIs(QuarterBin(x, q), Times(C(x[q], 0.0), S.Turn(-q)));
      PlusIs(QuarterBin(x, q + 1), Times(C(x[q + 1], 0.0), S.Turn(-(q + 1))));
    }
  }

  lemma QuarterStep(x: seq<real>, j: nat)
    requires 1 <= j <= |x|
    ensures QuarterBin(x, j) == Plus(QuarterBin(x, j - 1), Times(C(x[j - 1], 0.0), S.Turn(-(j - 1))))
  {
  }

  lemma NextSamples(x: seq<real>, j: nat)
    requires j > 0 && 2 * j <= |x|
    ensures Alternating(x, 0, j) == Alternating(x, 0, j - 1) + if j % 2 == 1 then x[2 * j - 2] else -x[2 * j - 2]
    ensures Alternating(x, 1, j) == Alternating(x, 1, j - 1) + if j % 2 == 1 then x[2 * j - 1] else -x[2 * j - 1]
  {
  }

  lemma RealTimes(r: real, z: Complex)
    ensures Times(C(r, 0.0), z) == C(r * z.re, r * z.im)
  {
  }

  lemma PlusIs(x: Complex, y: Complex)
    ensures Plus(x, y) == C(x.re + y.re, x.im + y.im)
  {
  }

  lemma TurnsBy(j: nat)
    requires j > 0
    ensures S.Turn(-(2 * j - 2)) == C(if j % 2 == 1 then 1.0 else -1.0, 0.0)
    ensures S.Turn(-(2 * j - 2 + 1)) == C(0.0, if j % 2 == 1 then -1.0 else 1.0)
  {
  }

  // When the butterflies end with the alternating sums of the even and the odd samples, the middle
  // bin is that of the real transform.
  lemma MiddleBin(k: Kernels, log2len: nat, v: seq<real>, x: seq<real>)
    requires log2len >= 2 && k.Sized(2 * Pow2(log2len)) && |v| == |x| == 2 * Pow2(log2len)
    requires var n := Pow2(log2len);
      && k.realSub0(v)[n] == v[n] == Alternating(x, 0, n) && k.realSub0(v)[n + 1] == v[n + 1] == Alternating(x, 1, n)
    ensures var n, d := Pow2(log2len), Finished(FORWARD, k, log2len, v);
      C(d[n], d[n + 1]) == QuarterBin(x, 2 * n)
  {
    FinishedBins(k, log2len, v);
    HalfIs(log2len);
    QuarterBinSplits(x, Pow2(log2len));
    hide Pow2, Finished, Alternating, QuarterBin;
  }

  // The samples added up, and added up with alternating signs: bin 0 and the last bin.
  function LastBin(x: seq<real>, j: nat, last: bool): real
    requires j <= |x|
  {
    if j == 0 then 0.0 else LastBin(x, j - 1, last) + if last && j % 2 == 0 then -x[j - 1] else x[j - 1]
  }

  // Every second sample, added up.
  function Every(x: seq<real>, from: nat, j: nat): real
    requires j > 0 ==> from + 2 * j - 2 < |x|
  {
    if j == 0 then 0.0 else Every(x, from, j - 1) + x[from + 2 * j - 2]
  }

  lemma {:induction false} EndBins(x: seq<real>, j: nat)
    requires 2 * j <= |x|
    ensures LastBin(x, 2 * j, false) == Every(x, 0, j) + Every(x, 1, j)
    ensures LastBin(x, 2 * j, true) == Every(x, 0, j) - Every(x, 1, j)
  {
    if j > 0 {
      EndBins(x, j - 1);
      assert LastBin(x, 2 * j - 1, false) == LastBin(x, 2 * j - 2, false) + x[2 * j - 2];
      assert LastBin(x, 2 * j - 1, true) == LastBin(x, 2 * j - 2, true) + x[2 * j - 2];
    }
  }

  // When they end with the sums of the even and the odd samples, the first and the last bin are too.
  lemma OuterBins(dispatch: (P.Action, seq<real>) -> seq<real>, w: nat -> Complex, log2len: nat, v: seq<real>,
      x: seq<real>)
    requires log2len >= 2 && |v| == |x| == 2 * Pow2(log2len)
    requires forall a: P.Action, u :: |dispatch(a, u)| == 2 * Pow2(log2len)
    requires v[0] == Every(x, 0, Pow2(log2len)) && v[1] == Every(x, 1, Pow2(log2len))
    ensures var k, n := RealKernels(dispatch, Pow2(log2len - 1), w), Pow2(log2len);
      && k.Sized(2 * n)
      && var d := Finished(FORWARD, k, log2len, v);
         && d[0] == LastBin(x, 2 * n, false) && d[1] == 0.0
         && d[2 * n] == LastBin(x, 2 * n, true) && d[2 * n + 1] == 0.0
  {
    HalfIs(log2len);
    var h, n := Pow2(log2len - 1), Pow2(log2len);
    hide Pow2;
    RealKernelsAre(dispatch, h, w);
    var k := RealKernels(dispatch, h, w);
    FinishedBins(k, log2len, v);
    EndBins(x, n);
    FrontOf(h, w, v);
    hide Finished, Every, LastBin, RealKernels;
  }

  lemma FrontOf(h: nat, w: nat -> Complex, v: seq<real>)
    requires h >= 1 && |v| == 4 * h
    ensures var r := Sub0(h, w, v); r[0] == v[0] + v[1] && r[1] == v[0] - v[1]
    ensures var r := Sub0(h, w, v); r[2 * h] == v[2 * h] && r[2 * h + 1] == v[2 * h + 1]
  {
    var z := Points(v, 2 * h);
    EndPoints(z, h, w);
    PointIs(v, 2 * h, 0);
    PointIs(v, 2 * h, h);
    hide After, Values, Points;
    ValueAt(AllAfter(z, h, w), 0);
    ValueAt(AllAfter(z, h, w), h);
  }

  // ---------------------------------------------------------------- there and back

  // The coefficients of the two directions cancel.
  lemma CoefsCancel(sc: Angles, i: nat)
    requires Circle(sc)
    ensures Cancel(Coefs(sc, false)(i), Coefs(sc, true)(i)) && Cancel(Coefs(sc, true)(i), Coefs(sc, false)(i))
  {
    CoefficientsCancel(sc, i);
    hide Coefficient;
    var w, u := Coefficient(sc, false, i), Coefficient(sc, true, i);
    assert w.re * u.re == u.re * w.re && w.im * u.im == u.im * w.im;
  }

  // v in the long format: what FinishedBins says of the result of REALSUB0.
  ghost predicate Long(h: nat, w: nat -> Complex, v: seq<real>, d: seq<real>)
    requires h >= 1 && |v| == 4 * h
  {
    && |d| == 4 * h + 2 && d[0] == v[0] + v[1] && d[4 * h] == v[0] - v[1]
    && d[2 * h] == v[2 * h] && d[2 * h + 1] == -v[2 * h + 1]
    && forall j :: 1 <= j < 2 * h && j != h ==> Stands(d, j, After(Points(v, 2 * h), h, w, j))
  }

  lemma FinishedIsLong(k: Kernels, log2len: nat, h: nat, w: nat -> Complex, v: seq<real>)
    requires log2len >= 2 && Pow2(log2len) == 2 * h && h >= 1 && k.Sized(4 * h) && |v| == 4 * h
    requires k.realSub0(v) == Sub0(h, w, v)
    ensures Long(h, w, v, Finished(FORWARD, k, log2len, v))
  {
    FinishedBins(k, log2len, v);
    FrontOf(h, w, v);
    var r, d, z := Sub0(h, w, v), Finished(FORWARD, k, log2len, v), Points(v, 2 * h);
    hide Pow2, Finished, After;
    forall j | 1 <= j < 2 * h && j != h
      ensures Stands(d, j, After(z, h, w, j))
    {
      var a := AllAfter(z, h, w);
      assert r == Values(a);
      ValueAt(a, j);
      assert d[2 * j] == r[2 * j] && d[2 * j + 1] == r[2 * j + 1];
    }
  }

  lemma ValueAt(r: seq<Complex>, j: nat)
    requires j < |r|
    ensures Stands(Values(r), j, r[j])
  {
  }

  lemma LongEnds(h: nat, w: nat -> Complex, u: nat -> Complex, v: seq<real>, d: seq<real>)
    requires h >= 1 && |v| == 4 * h && Long(h, w, v, d)
    ensures Before(Points(d, 2 * h), d[4 * h], h, u, 2.0, 0) == C(2.0 * v[0], 2.0 * v[1])
    ensures Before(Points(d, 2 * h), d[4 * h], h, u, 2.0, h).re == 2.0 * v[2 * h]
  {
    var y := Points(d, 2 * h);
    PointIs(d, 2 * h, 0);
    PointIs(d, 2 * h, h);
    EndsBefore(y, d[4 * h], h, u, 2.0);
    hide Points, Before, After;
  }

  lemma LongPair(h: nat, w: nat -> Complex, u: nat -> Complex, v: seq<real>, d: seq<real>, k: nat)
    requires h >= 1 && |v| == 4 * h && Long(h, w, v, d) && 1 <= k < h && Cancel(w(k), u(k))
    ensures var z, y := Points(v, 2 * h), Points(d, 2 * h);
      && Before(y, d[4 * h], h, u, 2.0, k) == C(z[k].re * 2.0, z[k].im * 2.0)
      && Before(y, d[4 * h], h, u, 2.0, 2 * h - k) == C(z[2 * h - k].re * 2.0, z[2 * h - k].im * 2.0)
  {
    var z, y := Points(v, 2 * h), Points(d, 2 * h);
    PairOf(h, w, v, d, k);
    hide *;
    BeforePair(y, d[4 * h], h, u, 2.0, k);
    AfterPair(z, h, w, k);
    PairReturns(z[k], z[2 * h - k], w(k), u(k), 2.0);
  }

  // REALSUB1 with its correction takes the long format back to twice the values.
  lemma LongPoint(h: nat, w: nat -> Complex, u: nat -> Complex, v: seq<real>, d: seq<real>, j: nat)
    requires h >= 1 && |v| == 4 * h && Long(h, w, v, d) && j < 2 * h
    requires forall k :: 1 <= k < h ==> Cancel(w(k), u(k))
    ensures var x := Before(Points(d, 2 * h), d[4 * h], h, u, 2.0, j);
      x.re == 2.0 * v[2 * j] && (j != h ==> x.im == 2.0 * v[2 * j + 1])
  {
    hide Before, Points, Cancel, After;
    LongEnds(h, w, u, v, d);
    PointIs(v, 2 * h, j);
    if j != 0 && j != h {
      LongPair(h, w, u, v, d, if j < h then j else 2 * h - j);
    }
  }

  lemma PairOf(h: nat, w: nat -> Complex, v: seq<real>, d: seq<real>, k: nat)
    requires h >= 1 && |v| == 4 * h && Long(h, w, v, d) && 1 <= k < h
    ensures var z, y := Points(v, 2 * h), Points(d, 2 * h);
      y[k] == After(z, h, w, k) && y[2 * h - k] == After(z, h, w, 2 * h - k)
  {
    hide After;
    assert Stands(d, k, After(Points(v, 2 * h), h, w, k));
    assert Stands(d, 2 * h - k, After(Points(v, 2 * h), h, w, 2 * h - k));
  }

  // Post-processing into the long format and pre-processing back multiply by 2.
  lemma LongFormatReturns(k: Kernels, k': Kernels, log2len: nat, h: nat, sc: Angles, v: seq<real>)
    requires log2len >= 2 && Pow2(log2len) == 2 * h && h >= 1 && k.Sized(4 * h) && k'.Sized(4 * h) && |v| == 4 * h
    requires Circle(sc) && k.realSub0(v) == Sub0(h, Coefs(sc, false), v)
    requires forall s :: k'.realSub1(s, true) == Sub1(h, Coefs(sc, true), s, true)
    ensures Prepared(BACKWARD, k', log2len, Finished(FORWARD, k, log2len, v)) == S.Scaled(2.0, v)
  {
    var w, u, d := Coefs(sc, false), Coefs(sc, true), Finished(FORWARD, k, log2len, v);
    forall i | 1 <= i < h
      ensures Cancel(w(i), u(i))
    {
      CoefsCancel(sc, i);
    }
    FinishedIsLong(k, log2len, h, w, v);
    LongReturns(h, w, u, v, d);
    PreparedIs(k', log2len, h, u, d);
    hide *;
  }

  lemma PreparedIs(k': Kernels, log2len: nat, h: nat, u: nat -> Complex, d: seq<real>)
    requires log2len >= 2 && Pow2(log2len) == 2 * h && h >= 1 && k'.Sized(4 * h) && |d| == 4 * h + 2
    requires forall s :: k'.realSub1(s, true) == Sub1(h, u, s, true)
    ensures Prepared(BACKWARD, k', log2len, d) == Sub1(h, u, d, true)[2 * h + 1 := -d[2 * h + 1] * 2.0]
  {
    hide Sub1, Pow2;
  }

  lemma LongPlace(h: nat, w: nat -> Complex, u: nat -> Complex, v: seq<real>, d: seq<real>, j: nat)
    requires h >= 1 && |v| == 4 * h && Long(h, w, v, d) && |d| == 4 * h + 2 && j < 2 * h
    requires forall k :: 1 <= k < h ==> Cancel(w(k), u(k))
    ensures var r := Sub1(h, u, d, true);
      r[2 * j] == 2.0 * v[2 * j] && (j != h ==> r[2 * j + 1] == 2.0 * v[2 * j + 1])
  {
    LongPoint(h, w, u, v, d, j);
    hide *;
    BeforePointIs(h, u, d, true, j);
    ValueAt(BeforePoints(h, u, d, true), j);
    StandsIs(Sub1(h, u, d, true), j, BeforePoints(h, u, d, true)[j]);
  }

  lemma LongReturns(h: nat, w: nat -> Complex, u: nat -> Complex, v: seq<real>, d: seq<real>)
    requires h >= 1 && |v| == 4 * h && Long(h, w, v, d) && forall k :: 1 <= k < h ==> Cancel(w(k), u(k))
    ensures |d| == 4 * h + 2
    ensures Sub1(h, u, d, true)[2 * h + 1 := -d[2 * h + 1] * 2.0] == S.Scaled(2.0, v)
  {
    LongShape(h, w, v, d);
    hide Long, Sub1, Cancel, S.Scaled;
    var r := Sub1(h, u, d, true);
    var p := r[2 * h + 1 := -d[2 * h + 1] * 2.0];
    forall j | 0 <= j < 2 * h
      ensures p[2 * j] == 2.0 * v[2 * j] && p[2 * j + 1] == 2.0 * v[2 * j + 1]
    {
      LongPlace(h, w, u, v, d, j);
    }
    EvenAndOdd(p, v, 2 * h);
  }

  lemma LongShape(h: nat, w: nat -> Complex, v: seq<real>, d: seq<real>)
    requires h >= 1 && |v| == 4 * h && Long(h, w, v, d)
    ensures |d| == 4 * h + 2 && d[2 * h + 1] == -v[2 * h + 1]
  {
  }

  lemma EvenAndOdd(p: seq<real>, v: seq<real>, n: nat)
    requires |p| == |v| == 2 * n
    requires forall j :: 0 <= j < n ==> p[2 * j] == 2.0 * v[2 * j] && p[2 * j + 1] == 2.0 * v[2 * j + 1]
    ensures p == S.Scaled(2.0, v)
  {
    forall i | 0 <= i < 2 * n
      ensures p[i] == S.Scaled(2.0, v)[i]
    {
      assert i == 2 * (i / 2) || i == 2 * (i / 2) + 1;
    }
  }

  // In the short format pre-processing comes first, and post-processing takes it back.
  lemma ShortFormatReturns(k: Kernels, k': Kernels, log2len: nat, h: nat, sc: Angles, s: seq<real>)
    requires log2len >= 2 && Pow2(log2len) == 2 * h && h >= 1 && k.Sized(4 * h) && k'.Sized(4 * h) && |s| == 4 * h
    requires Circle(sc) && k.realSub1(s, false) == Sub1(h, Coefs(sc, false), s, false)
    requires forall v :: k'.realSub0(v) == Sub0(h, Coefs(sc, true), v)
    ensures Finished(BACKWARD.(alt := true), k', log2len, Prepared(FORWARD.(alt := true), k, log2len, s)) == s
  {
    forall i | 1 <= i < h
      ensures Cancel(Coefs(sc, false)(i), Coefs(sc, true)(i))
    {
      CoefsCancel(sc, i);
    }
    hide Coefs, Pow2, Circle, Cancel;
    ShortSubsUndo(h, Coefs(sc, false), Coefs(sc, true), s);
    hide Sub0, Sub1;
  }

  // Butterflies that undo each other make transforms that undo each other.
  lemma TransformReturns(k: Kernels, k': Kernels, log2len: nat, h: nat, sc: Angles, path: seq<P.Action>,
      path': seq<P.Action>, s: seq<real>, c: real)
    requires log2len >= 2 && Pow2(log2len) == 2 * h && h >= 1 && k.Sized(4 * h) && k'.Sized(4 * h) && |s| == 4 * h
    requires Descends(log2len, path) && Descends(log2len, path') && Circle(sc)
    requires forall v :: k.realSub0(v) == Sub0(h, Coefs(sc, false), v)
    requires forall v :: k'.realSub1(v, true) == Sub1(h, Coefs(sc, true), v, true)
    requires Butterflies(k', 4 * h, log2len, path', S.Scaled(2.0, Butterflies(k, 4 * h, log2len, path, s))) ==
      S.Scaled(c, s)
    ensures Transformed(BACKWARD, k', log2len, path', Transformed(FORWARD, k, log2len, path, s)) == S.Scaled(c, s)
  {
    var v := Butterflies(k, 4 * h, log2len, path, s);
    assert s[..4 * h] == s;
    LongFormatReturns(k, k', log2len, h, sc, v);
    hide Butterflies, Coefs, Pow2, Circle, Sub0, Sub1, Descends;
  }
}
