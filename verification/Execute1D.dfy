// execute() of the one-dimensional transform: the butterflies of the plan go from buffer to buffer
// so that the last one writes the destination.  The kernels are not interpreted.
module Execute1D {
  import opened Powers
  import P = Planner

  datatype Mode = Mode(real_: bool, backward: bool, alt: bool) {
    // REALSUB1 runs before the butterflies, REALSUB0 after them.
    predicate Sub1() { real_ && backward != alt }

    predicate Sub0() { real_ && backward == alt }

    // The format with 2^(log2len + 1) + 2 values on the side of the frequencies.
    predicate LongInput() { real_ && backward && !alt }

    predicate LongOutput() { real_ && !backward && !alt }
  }

  // A kernel maps the values it reads to the values it writes.
  datatype Kernels = Kernels(
    dispatch: (P.Action, seq<real>) -> seq<real>,
    realSub0: seq<real> -> seq<real>,
    realSub1: (seq<real>, bool) -> seq<real>)
  {
    ghost predicate Sized(n2: nat) {
      && (forall a: P.Action, v :: |dispatch(a, v)| == n2)
      && (forall v :: |realSub0(v)| == n2)
      && (forall v, b :: |realSub1(v, b)| == n2)
    }
  }

  // ---------------------------------------------------------------- the result, without buffers

  function InputLength(mode: Mode, log2len: nat): nat {
    2 * Pow2(log2len) + if mode.LongInput() then 2 else 0
  }

  function OutputLength(mode: Mode, log2len: nat): nat {
    2 * Pow2(log2len) + if mode.LongOutput() then 2 else 0
  }

  // What enters the first butterfly.
  function Prepared(mode: Mode, k: Kernels, log2len: nat, s: seq<real>): (v: seq<real>)
    requires log2len >= 2 && k.Sized(2 * Pow2(log2len)) && |s| == InputLength(mode, log2len)
    ensures |v| == 2 * Pow2(log2len)
  {
    if !mode.Sub1() then s[..2 * Pow2(log2len)]
    else
      var v := k.realSub1(s, !mode.alt);
      if mode.alt then v else v[Pow2(log2len) + 1 := -s[Pow2(log2len) + 1] * 2.0]
  }

  // The butterflies of a path; the level drops by the width of each.
  function Butterflies(k: Kernels, n2: nat, level: int, path: seq<P.Action>, v: seq<real>): (r: seq<real>)
    requires k.Sized(n2) && |v| == n2 && Descends(level, path)
    ensures |r| == n2
    decreases |path|
  {
    if path == [] then v
    else Butterflies(k, n2, level - path[0].N, path[1..], k.dispatch(P.Action(path[0].config, level, path[0].N), v))
  }

  // The level stays positive as long as there are butterflies left.
  ghost predicate Descends(level: int, path: seq<P.Action>)
    decreases |path|
  {
    path == [] || (level > 0 && Descends(level - path[0].N, path[1..]))
  }

  // What leaves the last butterfly.
  function Finished(mode: Mode, k: Kernels, log2len: nat, v: seq<real>): (d: seq<real>)
    requires log2len >= 2 && k.Sized(2 * Pow2(log2len)) && |v| == 2 * Pow2(log2len)
    ensures |d| == OutputLength(mode, log2len)
  {
    if !mode.Sub0() then v
    else
      var d := k.realSub0(v);
      if mode.alt then d
      else
        var d' := d[Pow2(log2len) + 1 := -d[Pow2(log2len) + 1]];
        d'[1 := 0.0] + [d'[1], 0.0]
  }

  function Transformed(mode: Mode, k: Kernels, log2len: nat, path: seq<P.Action>, s: seq<real>): (d: seq<real>)
    requires log2len >= 2 && k.Sized(2 * Pow2(log2len)) && |s| == InputLength(mode, log2len) && Descends(log2len, path)
    ensures |d| == OutputLength(mode, log2len)
  {
    Finished(mode, k, log2len, Butterflies(k, 2 * Pow2(log2len), log2len, path, Prepared(mode, k, log2len, s)))
  }

  // ---------------------------------------------------------------- the buffers

  // nb before the first write; t[nb + 1] is written next: 0 is x1, 1 is x0, 2 is d.
  function FirstNb(mode: Mode, steps: nat): int {
    if mode.real_ && steps % 2 == 0 && mode.backward != mode.alt then -1
    else if !mode.real_ && steps % 2 == 1 then -1
    else 0
  }

  // (nb + 1) & 1
  function NextNb(nb: int): int {
    (nb + 1) % 2
  }

  // nb at write number w.
  function NbAt(nb: int, w: nat): int {
    if w == 0 then nb else NextNb(NbAt(nb, w - 1))
  }

  // REALSUB1 and the butterflies write the buffers in turn.
  function Writes(mode: Mode, steps: nat): nat {
    steps + if mode.Sub1() then 1 else 0
  }

  lemma {:induction false} NbAlternates(nb: int, w: nat)
    requires -1 <= nb <= 0
    ensures -1 <= NbAt(nb, w) <= 1
    ensures w > 0 ==> NbAt(nb, w) == (nb + w) % 2
  {
    NbStep(nb, 0);
    NbStep(nb, w);
    hide *;
    if w > 0 {
      NbAlternates(nb, w - 1);
      ParityStep(nb + w - 1);
    }
  }

  lemma NbStep(nb: int, w: nat)
    ensures NbAt(nb, w) == if w == 0 then nb else (NbAt(nb, w - 1) + 1) % 2
  {
  }

  lemma ParityStep(n: int)
    ensures (n % 2 + 1) % 2 == (n + 1) % 2 && 0 <= (n + 1) % 2 <= 1
  {
  }

  // The writes before REALSUB0: no two successive ones go to the same buffer, the first one does
  // not go to d, and, in the modes without REALSUB0, the last one goes to d exactly when there
  // are at least two.
  lemma LastWriteGoesToD(mode: Mode, steps: nat, w: nat)
    requires Writes(mode, steps) > 0
    ensures FirstNb(mode, steps) + 1 < 2
    ensures NbAt(FirstNb(mode, steps), w) != NbAt(FirstNb(mode, steps), w + 1)
    ensures !mode.Sub0() ==>
      (NbAt(FirstNb(mode, steps), Writes(mode, steps) - 1) + 1 == 2 <==> Writes(mode, steps) >= 2)
    ensures mode.Sub0() ==>
      (NbAt(FirstNb(mode, steps), Writes(mode, steps) - 1) + 1 == 2 <==> steps % 2 == 0)
  {
    hide *;
    var nb := FirstNb(mode, steps);
    NbStarts(mode, steps);
    NbTurns(nb, w + 1);
    ModeParity(mode, steps);
    LastNb(nb, Writes(mode, steps));
  }

  // The last write goes to d when the number of writes and the first buffer fit.
  lemma LastNb(nb: int, writes: nat)
    requires -1 <= nb <= 0 && writes > 0
    ensures NbAt(nb, writes - 1) + 1 == 2 <==> writes >= 2 && (nb + writes) % 2 == 0
  {
    NbAlternates(nb, writes - 1);
    if writes == 1 {
      assert NbAt(nb, 0) == nb;
    }
    hide *;
    OddAndEven(nb + writes - 1);
  }

  lemma OddAndEven(n: int)
    ensures n % 2 == 1 <==> (n + 1) % 2 == 0
  {
  }

  // FirstNb() is chosen so that the writes end at d.
  lemma ModeParity(mode: Mode, steps: nat)
    ensures !mode.Sub0() ==> (FirstNb(mode, steps) + Writes(mode, steps)) % 2 == 0
    ensures mode.Sub0() ==> FirstNb(mode, steps) == 0 && Writes(mode, steps) == steps
  {
    var k := steps / 2;
    assert steps == 2 * k || steps == 2 * k + 1;
  }

  class Transform {
    const log2len: nat
    const mode: Mode
    const kernels: Kernels
    const x0: array<real>
    const x1: array<real>

    ghost predicate Valid() {
      && log2len >= 2 && kernels.Sized(Size()) && x0 != x1 && x0.Length == x1.Length == Size()
    }

    function Size(): nat {
      2 * Pow2(log2len)
    }

    constructor (log2len: nat, mode: Mode, kernels: Kernels)
      requires log2len >= 2 && kernels.Sized(2 * Pow2(log2len))
      ensures Valid() && this.log2len == log2len && this.mode == mode && this.kernels == kernels
      ensures fresh(x0) && fresh(x1)
    {
      this.log2len, this.mode, this.kernels := log2len, mode, kernels;
      x0 := new real[2 * Pow2(log2len)](_ => 0.0);
      x1 := new real[2 * Pow2(log2len)](_ => 0.0);
    }

    // Writes the first values of a buffer.
    method Store(dst: array<real>, v: seq<real>)
      requires |v| <= dst.Length
      modifies dst
      ensures dst[..|v|] == v && dst[|v|..] == old(dst[|v|..])
    {
      for i: nat := 0 to |v|
        invariant dst[..i] == v[..i] && dst[|v|..] == old(dst[|v|..])
      {
        dst[i] := v[i];
      }
    }

    // A butterfly never works in place.
    method Dispatch(N: nat, dst: array<real>, src: array<real>, level: nat, config: nat)
      requires Valid() && dst != src && dst.Length >= Size() && src.Length >= Size()
      modifies dst
      ensures dst[..Size()] == kernels.dispatch(P.Action(config, level, N), src[..Size()])
    {
      Store(dst, kernels.dispatch(P.Action(config, level, N), src[..Size()]));
    }

    method RealSub1(dst: array<real>, s: array<real>)
      requires Valid() && mode.Sub1() && dst != s && dst.Length >= Size() && s.Length >= InputLength(mode, log2len)
      modifies dst
      ensures dst[..Size()] == Prepared(mode, kernels, log2len, s[..InputLength(mode, log2len)])
    {
      hide Pow2;
      HalfFits();
      Store(dst, kernels.realSub1(s[..InputLength(mode, log2len)], !mode.alt));
      if !mode.alt {
        dst[Pow2(log2len) + 1] := -s[Pow2(log2len) + 1] * 2.0;
      }
    }

    lemma HalfFits()
      requires log2len >= 2
      ensures Pow2(log2len) + 1 < 2 * Pow2(log2len)
    {
      assert Pow2(log2len - 1) >= 1;
    }

    // The only kernel that may work in place.
    method RealSub0(d: array<real>, src: array<real>)
      requires Valid() && mode.Sub0() && src.Length >= Size() && d.Length >= OutputLength(mode, log2len)
      modifies d
      ensures d[..OutputLength(mode, log2len)] == Finished(mode, kernels, log2len, old(src[..Size()]))
    {
      hide Pow2;
      HalfFits();
      ghost var v := src[..Size()];
      Store(d, kernels.realSub0(src[..Size()]));
      if !mode.alt {
        var half := Pow2(log2len);
        d[half + 1] := -d[half + 1];
        d[2 * half] := d[1];
        d[2 * half + 1] := 0.0;
        d[1] := 0.0;
      }
      assert d[..OutputLength(mode, log2len)] == Finished(mode, kernels, log2len, v);
    }

    // s is read by the first kernel only, so that s may be d.
    method Execute(s: array<real>, d: array<real>, path: seq<P.Action>)
      requires Valid() && Descends(log2len, path) && forall j :: 0 <= j < |path| ==> path[j].level > 0
      requires mode.Sub0() || Writes(mode, |path|) >= 2
      requires s != x0 && s != x1 && d != x0 && d != x1
      requires s.Length >= InputLength(mode, log2len) && d.Length >= OutputLength(mode, log2len)
      modifies x0, x1, d
      ensures d[..OutputLength(mode, log2len)] ==
        Transformed(mode, kernels, log2len, path, old(s[..InputLength(mode, log2len)]))
    {
      hide *;
      ValidIs();
      ghost var input, n2 := s[..InputLength(mode, log2len)], Size();
      var nb := FirstNb(mode, |path|);
      ghost var nb0, w := nb, 0;
      NbStarts(mode, |path|);
      var t := [x1, x0, d];
      var lb := s;
      NotPrepared(input);
      assert input[..n2] == s[..n2];
      if mode.Sub1() {
        NbTurns(nb0, w);
        RealSub1(t[nb + 1], s);
        lb := t[nb + 1];
        nb := NextNb(nb);
        w := w + 1;
      }
      ghost var v := Prepared(mode, kernels, log2len, input);
      var level: int := log2len;
      assert path[0..] == path;
      for j: nat := 0 to |path|
        invariant Descends(level, path[j..])
        invariant w == j + (if mode.Sub1() then 1 else 0) && nb == NbAt(nb0, w)
        invariant if w == 0 then lb == s && nb < 1 else -1 <= NbAt(nb0, w - 1) <= 1 && lb == t[NbAt(nb0, w - 1) + 1]
        invariant -1 <= nb <= 1 && lb.Length >= n2
        invariant Butterflies(kernels, n2, level, path[j..], lb[..n2]) == Butterflies(kernels, n2, log2len, path, v)
      {
        var N, config := path[j].N, path[j].config;
        NbTurns(nb0, w);
        ButterflyStep(kernels, n2, level, path, j, lb[..n2]);
        Dispatch(N, t[nb + 1], lb, level, config);
        level := level - N;
        lb := t[nb + 1];
        nb := NextNb(nb);
        w := w + 1;
      }
      NoButterflies(kernels, n2, level, path[|path|..], lb[..n2]);
      TransformedIs(input, path);
      if mode.Sub0() {
        RealSub0(d, lb);
      } else {
        WritesIs(mode, |path|);
        LastWriteGoesToD(mode, |path|, w);
        NotFinished(lb[..n2]);
      }
    }

    lemma ValidIs()
      requires Valid()
      ensures log2len >= 2 && kernels.Sized(Size()) && x0 != x1 && x0.Length == x1.Length == Size() == 2 * Pow2(log2len)
      ensures InputLength(mode, log2len) >= Size() && OutputLength(mode, log2len) >= Size()
    {
    }

    lemma NotPrepared(input: seq<real>)
      requires Valid() && |input| == InputLength(mode, log2len)
      ensures Size() <= |input| && (!mode.Sub1() ==> Prepared(mode, kernels, log2len, input) == input[..Size()])
    {
    }

    lemma NotFinished(v: seq<real>)
      requires Valid() && |v| == Size()
      ensures !mode.Sub0() ==> OutputLength(mode, log2len) == Size() && Finished(mode, kernels, log2len, v) == v
    {
    }

    lemma TransformedIs(input: seq<real>, path: seq<P.Action>)
      requires Valid() && |input| == InputLength(mode, log2len) && Descends(log2len, path)
      ensures Transformed(mode, kernels, log2len, path, input) ==
        Finished(mode, kernels, log2len,
          Butterflies(kernels, Size(), log2len, path, Prepared(mode, kernels, log2len, input)))
    {
    }
  }

  lemma NbStarts(mode: Mode, steps: nat)
    ensures var nb := FirstNb(mode, steps); -1 <= nb <= 0 && NbAt(nb, 0) == nb
  {
  }

  lemma NbTurns(nb0: int, w: nat)
    requires -1 <= nb0 <= 0
    ensures NbAt(nb0, w + 1) == NextNb(NbAt(nb0, w)) && -1 <= NbAt(nb0, w) <= 1 && -1 <= NbAt(nb0, w + 1) <= 1
    ensures w > 0 ==> NbAt(nb0, w - 1) != NbAt(nb0, w)
  {
    NbAlternates(nb0, w);
    if w > 0 {
      NbAlternates(nb0, w - 1);
    }
  }

  lemma WritesIs(mode: Mode, steps: nat)
    ensures Writes(mode, steps) == steps + if mode.Sub1() then 1 else 0
  {
  }

  lemma ButterflyStep(k: Kernels, n2: nat, level: int, path: seq<P.Action>, j: nat, v: seq<real>)
    requires k.Sized(n2) && |v| == n2 && j < |path| && Descends(level, path[j..])
    ensures level > 0 && Descends(level - path[j].N, path[j + 1..])
    ensures |k.dispatch(P.Action(path[j].config, level, path[j].N), v)| == n2
    ensures Butterflies(k, n2, level, path[j..], v) ==
      Butterflies(k, n2, level - path[j].N, path[j + 1..], k.dispatch(P.Action(path[j].config, level, path[j].N), v))
  {
    assert path[j..][1..] == path[j + 1..];
  }

  lemma NoButterflies(k: Kernels, n2: nat, level: int, path: seq<P.Action>, v: seq<real>)
    requires k.Sized(n2) && |v| == n2 && path == []
    ensures Descends(level, path) && Butterflies(k, n2, level, path, v) == v
  {
  }

  // ---------------------------------------------------------------- plans

  // A plan of the planner can be executed in every mode, and every butterfly is dispatched at the
  // level that the plan gives it.
  lemma PlanRuns(s: P.Setup, p: seq<P.Action>, mode: Mode)
    requires P.Plan(s, p)
    ensures Descends(s.log2len, p) && forall j :: 0 <= j < |p| ==> p[j].level > 0
    ensures Writes(mode, |p|) >= 2
  {
    P.PlanIsDispatchable(s, p);
    assert forall j :: 0 <= j < |p| ==> P.Executable(s, p[j]) && p[j].level > 0;
    hide P.Executable;
    SuffixDescends(s, p, 0);
    assert p[0..] == p;
  }

  lemma {:induction false} SuffixDescends(s: P.Setup, p: seq<P.Action>, j: nat)
    requires P.Plan(s, p) && j <= |p| && (forall i :: 0 <= i < |p| ==> p[i].level > 0)
    ensures j < |p| ==> Descends(p[j].level, p[j..])
    decreases |p| - j
  {
    hide P.Executable;
    if j < |p| {
      assert p[j..][1..] == p[j + 1..];
      if j + 1 < |p| {
        SuffixDescends(s, p, j + 1);
        assert P.Linked(p[j], p[j + 1]);
      }
    }
  }

  // The butterflies of a plan, one by one as the plan lists them.
  function InOrder(k: Kernels, n2: nat, p: seq<P.Action>, v: seq<real>): (r: seq<real>)
    requires k.Sized(n2) && |v| == n2
    ensures |r| == n2
  {
    if p == [] then v else InOrder(k, n2, p[1..], k.dispatch(p[0], v))
  }

  lemma {:induction false} PlanInOrder(s: P.Setup, k: Kernels, n2: nat, p: seq<P.Action>, j: nat, v: seq<real>)
    requires P.Plan(s, p) && k.Sized(n2) && |v| == n2 && j < |p| && Descends(p[j].level, p[j..])
    ensures Butterflies(k, n2, p[j].level, p[j..], v) == InOrder(k, n2, p[j..], v)
    decreases |p| - j
  {
    hide P.Executable;
    var a, rest := p[j], p[j + 1..];
    assert p[j..][1..] == rest && P.Action(a.config, a.level, a.N) == a;
    var v' := k.dispatch(a, v);
    if j + 1 < |p| {
      assert P.Linked(p[j], p[j + 1]);
      PlanInOrder(s, k, n2, p, j + 1, v');
    } else {
      assert rest == [];
    }
  }
}
