// The planner of a one-dimensional transform: which butterflies can be executed (measure), the
// graph that PathEstimator searches, and the plan that searchForBestPath(0) returns.
module Planner {
  import opened Arithmetic
  import opened Powers
  import opened PathSearch

  const CONFIG_MAX: nat := 4

  // A butterfly of 2^N points at a level, in one of the four configurations.
  datatype Action = Action(config: nat, level: nat, N: nat)

  // What the planner depends on: transform length, vector width, the largest butterfly, and
  // whether the streaming and the multi-threaded configurations are in use.
  datatype Setup = Setup(log2len: nat, log2vecwidth: nat, maxBut: nat, mt1d: bool, stream: bool) {
    predicate Valid() {
      1 <= log2len < 32 && 1 <= maxBut < 32
    }

    function Vecwidth(): nat {
      Pow2(log2vecwidth)
    }

    // NMAX of the search loops.
    function NMax(): int {
      Min(Min(log2len, maxBut + 1), log2len - log2vecwidth + 1)
    }
  }

  function Min(a: int, b: int): int {
    if a < b then a else b
  }

  predicate Streaming(config: nat) { config % 2 == 1 }

  predicate Threaded(config: nat) { config / 2 % 2 == 1 }

  // tbl[N][level] is allocated by makeTable.
  predicate HasTable(s: Setup, N: nat, level: nat) {
    && N <= s.log2len && N <= level <= s.log2len
    && !(level == s.log2len && Pow2(s.log2len - N) < s.Vecwidth())
  }

  predicate Executable(s: Setup, a: Action) {
    && a.config < CONFIG_MAX && 1 <= a.level <= s.log2len && 1 <= a.N <= s.maxBut
    && (Streaming(a.config) ==> s.stream)
    && (Threaded(a.config) ==> s.mt1d)
    && a.N <= a.level && a.N < s.log2len
    && (a.level == a.N ||
        if a.level == s.log2len then
          HasTable(s, a.N, a.level) && s.Vecwidth() <= Pow2(a.N)
        else
          && HasTable(s, a.N, a.level)
          && !(s.Vecwidth() > 2 && s.log2len <= a.N + 2)
          && s.log2len - a.level >= s.log2vecwidth)
  }

  // ---------------------------------------------------------------- the search graph

  // The executable butterflies of up to n bits at a level in one configuration.
  function Butterflies(s: Setup, config: nat, level: nat, n: nat): seq<Action> {
    if n == 0 then [] else
      Butterflies(s, config, level, n - 1) +
      if Executable(s, Action(config, level, n)) then [Action(config, level, n)] else []
  }

  // Start points may use any configuration; later butterflies keep the MT bit.
  datatype Threading = Any | Keep(mt: bool) {
    predicate Allows(config: nat) {
      Any? || Threaded(config) == mt
    }
  }

  // The same over the allowed configurations below c.
  function Choices(s: Setup, th: Threading, level: nat, n: nat, c: nat): seq<Action> {
    if c == 0 then [] else
      Choices(s, th, level, n, c - 1) +
      if th.Allows(c - 1) then Butterflies(s, c - 1, level, n) else []
  }

  function Starts(s: Setup): seq<Action> {
    if s.NMax() <= 1 then [] else Choices(s, Any, s.log2len, s.NMax() - 1, CONFIG_MAX)
  }

  function Next(s: Setup, last: Action): seq<Action> {
    if last.level <= last.N || s.NMax() <= 1 then [] else
      var level := last.level - last.N;
      Choices(s, Keep(Threaded(last.config)), level, Min(s.NMax() - 1, level), CONFIG_MAX)
  }

  function Estimate(s: Setup, a: Action): nat {
    var ret := a.N * 1000 + (if a.N < 3 then 3 - a.N else a.N - 3) * 1000;
    if s.log2len >= 14 && Threaded(a.config) then ret / 2 else ret
  }

  function PathCost(s: Setup, p: seq<Action>): Cost {
    if p == [] then Finite(0) else
      match PathCost(s, p[..|p| - 1])
      case Infinite => Infinite
      case Finite(t) => if Executable(s, Last(p)) then Finite(t + Estimate(s, Last(p))) else Infinite
  }

  function EstimatorGraph(s: Setup): Graph<Action> {
    Graph(Starts(s), (a: Action) => a.level == a.N, (a: Action) => Next(s, a), (p: seq<Action>) => PathCost(s, p))
  }

  function Weight(s: Setup): Action -> nat {
    (a: Action) => Estimate(s, a)
  }

  ghost function AllActions(s: Setup): set<Action> {
    set c, l, n | 0 <= c < CONFIG_MAX && 0 <= l <= s.log2len && 0 <= n <= s.maxBut :: Action(c, l, n)
  }

  lemma DistinctConcat<A>(a: seq<A>, b: seq<A>)
    requires Distinct(a) && Distinct(b) && forall x :: x in a ==> x !in b
    ensures Distinct(a + b)
  {
    forall i, j | 0 <= i < j < |a + b|
      ensures (a + b)[i] != (a + b)[j]
    {
      assert i < |a| <= j ==> (a + b)[i] in a && (a + b)[j] in b;
    }
  }

  lemma {:induction false} ButterfliesAre(s: Setup, config: nat, level: nat, n: nat)
    ensures forall a :: a in Butterflies(s, config, level, n) <==>
      a.config == config && a.level == level && 1 <= a.N <= n && Executable(s, a)
    ensures Distinct(Butterflies(s, config, level, n))
  {
    hide Executable;
    if n > 0 {
      ButterfliesAre(s, config, level, n - 1);
    }
  }

  lemma {:induction false} ChoicesAre(s: Setup, th: Threading, level: nat, n: nat, c: nat)
    ensures forall a :: a in Choices(s, th, level, n, c) <==>
      a.config < c && th.Allows(a.config) && a.level == level && 1 <= a.N <= n && Executable(s, a)
    ensures Distinct(Choices(s, th, level, n, c))
  {
    hide Executable, Butterflies;
    if c > 0 {
      ChoicesAre(s, th, level, n, c - 1);
      ButterfliesAre(s, c - 1, level, n);
      DistinctConcat(Choices(s, th, level, n, c - 1), Butterflies(s, c - 1, level, n));
    }
  }

  lemma StartsAre(s: Setup)
    ensures forall a :: a in Starts(s) <==> a.level == s.log2len && a.N < s.NMax() && Executable(s, a)
    ensures Distinct(Starts(s))
  {
    if s.NMax() > 1 {
      ChoicesAre(s, Any, s.log2len, s.NMax() - 1, CONFIG_MAX);
    }
  }

  lemma NextAre(s: Setup, last: Action)
    ensures forall a :: a in Next(s, last) <==>
      && last.N < last.level && a.level == last.level - last.N
      && Threaded(a.config) == Threaded(last.config)
      && a.N < s.NMax() && Executable(s, a)
  {
    if last.level > last.N && s.NMax() > 1 {
      var level := last.level - last.N;
      ChoicesAre(s, Keep(Threaded(last.config)), level, Min(s.NMax() - 1, level), CONFIG_MAX);
    }
  }

  lemma {:induction false} WalkCost(s: Setup, p: seq<Action>)
    requires Walk(EstimatorGraph(s), p)
    ensures PathCost(s, p) == Finite(Total(Weight(s), p))
    ensures forall a :: a in p ==> Executable(s, a)
  {
    hide *;
    WalkEnds(s, p);
    var front, last := p[..|p| - 1], Last(p);
    NoCostYet(s);
    if front != [] {
      WalkCost(s, front);
    }
    CostGrows(s, p);
    assert p == front + [last];
  }

  lemma NoCostYet(s: Setup)
    ensures PathCost(s, []) == Finite(Total(Weight(s), []))
  {
  }

  lemma CostGrows(s: Setup, p: seq<Action>)
    requires p != [] && PathCost(s, p[..|p| - 1]) == Finite(Total(Weight(s), p[..|p| - 1])) && Executable(s, Last(p))
    ensures PathCost(s, p) == Finite(Total(Weight(s), p))
  {
    hide Estimate, Executable;
  }

  lemma WalkEnds(s: Setup, p: seq<Action>)
    requires Walk(EstimatorGraph(s), p)
    ensures p != [] && Executable(s, Last(p)) && Last(p) == p[|p| - 1]
    ensures |p| > 1 ==> Walk(EstimatorGraph(s), p[..|p| - 1])
  {
    hide Executable, Starts, Next, Estimate;
    if |p| == 1 {
      StartsAre(s);
    } else {
      NextAre(s, p[|p| - 2]);
    }
  }

  lemma EstimatorIsAdditive(s: Setup)
    ensures Additive(EstimatorGraph(s), Weight(s), AllActions(s))
  {
    hide Starts, Next, Walk, PathCost, Total;
    StartsAre(s);
    forall a, b | b in Next(s, a)
      ensures b in AllActions(s)
    {
      NextAre(s, a);
    }
    forall p | Walk(EstimatorGraph(s), p)
      ensures PathCost(s, p) == Finite(Total(Weight(s), p))
    {
      WalkCost(s, p);
    }
  }

  // ---------------------------------------------------------------- plans

  // A plan: executable butterflies that start at level log2len, take over from one another level
  // by level, keep the MT bit, and end with the one that consumes all remaining levels.
  ghost predicate Linked(a: Action, b: Action) {
    b.level == a.level - a.N && Threaded(a.config) == Threaded(b.config)
  }

  ghost predicate Prefix(s: Setup, p: seq<Action>) {
    && p != [] && p[0].level == s.log2len
    && (forall i :: 0 <= i < |p| ==> Executable(s, p[i]))
    && (forall i, j :: 0 <= i && j == i + 1 && j < |p| ==> Linked(p[i], p[j]))
  }

  ghost predicate Plan(s: Setup, p: seq<Action>) {
    p != [] && Prefix(s, p) && Last(p).level == Last(p).N
  }

  // The vector width fits: what the constructor checks of an instruction set (n is at least
  // vecwidth squared), and that some butterfly is as wide as a vector.
  predicate Fits(s: Setup) {
    s.log2len >= 2 && s.log2len >= 2 * s.log2vecwidth && s.log2vecwidth <= s.maxBut
  }

  lemma FirstButterfly(s: Setup, a: Action)
    requires Executable(s, a) && a.level == s.log2len
    ensures s.log2vecwidth <= a.N <= s.log2len - s.log2vecwidth
    ensures Fits(s) && a.N < a.level && a.N < s.NMax()
  {
    Pow2Less(a.N, s.log2vecwidth);
    Pow2Less(s.log2len - a.N, s.log2vecwidth);
  }

  // NMAX never cuts off an executable butterfly that a path from the top level can reach.
  lemma PrefixBounds(s: Setup, p: seq<Action>)
    requires Prefix(s, p)
    ensures forall i :: 0 <= i < |p| ==> p[i].N < s.NMax() && (i > 0 ==> p[i].level <= s.log2len - s.log2vecwidth)
    ensures forall i :: 0 <= i < |p| - 1 ==> p[i].N < p[i].level
  {
    FirstButterfly(s, p[0]);
    hide HasTable, Streaming, Threaded;
    for k := 1 to |p|
      invariant forall i :: 0 <= i < k ==> p[i].N < s.NMax() && (i > 0 ==> p[i].level <= s.log2len - s.log2vecwidth)
      invariant forall i :: 0 <= i < k - 1 ==> p[i].N < p[i].level
    {
      assert Linked(p[k - 1], p[k]) && Executable(s, p[k - 1]) && Executable(s, p[k]);
    }
  }

  // The walks of the search graph are exactly the plan prefixes.
  lemma {:induction false} WalksArePrefixes(s: Setup, p: seq<Action>)
    ensures Walk(EstimatorGraph(s), p) <==> Prefix(s, p)
  {
    hide Executable, Starts, Next, PathCost;
    if |p| == 1 {
      StartsAre(s);
      if Prefix(s, p) {
        PrefixBounds(s, p);
      }
    } else if p != [] {
      var front := p[..|p| - 1];
      WalksArePrefixes(s, front);
      NextAre(s, p[|p| - 2]);
      assert p == front + [Last(p)];
      if Prefix(s, p) {
        PrefixBounds(s, p);
        assert Linked(p[|p| - 2], p[|p| - 1]);
      }
    }
  }

  lemma FirstButterflyExists(s: Setup)
    requires s.Valid()
    ensures Fits(s) <==> exists N :: 1 <= N <= s.maxBut && Executable(s, Action(0, s.log2len, N))
  {
    if Fits(s) {
      var N := if s.log2vecwidth == 0 then 1 else s.log2vecwidth;
      Pow2Less(N, s.log2vecwidth);
      Pow2Less(s.log2len - N, s.log2vecwidth);
      assert Executable(s, Action(0, s.log2len, N));
    }
    forall N | 1 <= N <= s.maxBut && Executable(s, Action(0, s.log2len, N))
      ensures Fits(s)
    {
      FirstButterfly(s, Action(0, s.log2len, N));
    }
  }

  // What can always follow: the butterfly that finishes the transform when it is small enough,
  // and a two-point butterfly otherwise.
  function Continuation(s: Setup, last: Action): Action
    requires last.N < last.level
  {
    var level := last.level - last.N;
    Action(last.config, level, if level <= s.maxBut then level else 1)
  }

  lemma ContinuationExecutable(s: Setup, p: seq<Action>)
    requires s.Valid() && Prefix(s, p) && Last(p).N < Last(p).level
    ensures Prefix(s, p + [Continuation(s, Last(p))])
  {
    var last := Last(p);
    var a := Continuation(s, last);
    FirstButterfly(s, p[0]);
    PrefixBounds(s, p);
    assert Executable(s, last);
    Pow2Less(1, s.log2vecwidth);
    assert |p| == 1 ==> last == p[0];
    assert Executable(s, a);
    hide Executable;
    var q := p + [a];
    forall i, j | 0 <= i && j == i + 1 && j < |q|
      ensures Linked(q[i], q[j])
    {
      assert j < |p| ==> Linked(p[i], p[j]);
    }
  }

  // The search never runs into a dead end: every executable prefix extends to a plan.
  lemma {:induction false} PrefixExtends(s: Setup, p: seq<Action>) returns (q: seq<Action>)
    requires s.Valid() && Prefix(s, p)
    ensures p <= q && Plan(s, q)
    decreases Last(p).level
  {
    assert Executable(s, Last(p));
    if Last(p).level == Last(p).N {
      q := p;
    } else {
      ContinuationExecutable(s, p);
      q := PrefixExtends(s, p + [Continuation(s, Last(p))]);
    }
  }

  // What dispatch and next assert, and the tables that dispatch reads.
  lemma PlanIsDispatchable(s: Setup, p: seq<Action>)
    requires Plan(s, p)
    ensures |p| >= 2
    ensures s.Vecwidth() <= Pow2(p[0].N)
    ensures forall i :: 0 <= i < |p| - 1 ==> p[i].N < p[i].level && HasTable(s, p[i].N, p[i].level)
    ensures forall i :: 0 < i < |p| ==> p[i].level < s.log2len
    ensures Sum(Widths(p)) == s.log2len
  {
    FirstButterfly(s, p[0]);
    PrefixBounds(s, p);
    assert Executable(s, p[0]);
    forall i | 0 <= i < |p| - 1
      ensures HasTable(s, p[i].N, p[i].level)
    {
      assert Executable(s, p[i]);
    }
    LevelsTelescope(s, p);
  }

  function Widths(p: seq<Action>): seq<nat> {
    seq(|p|, i requires 0 <= i < |p| => p[i].N)
  }

  lemma {:induction false} LevelsTelescope(s: Setup, p: seq<Action>)
    requires Prefix(s, p)
    ensures Sum(Widths(p)) + Last(p).level == s.log2len + Last(p).N
    ensures forall i :: 0 < i < |p| ==> p[i].level < s.log2len
  {
    assert forall i :: 0 <= i < |p| ==> Executable(s, p[i]) && p[i].N >= 1;
    hide Executable;
    var q := p[..|p| - 1];
    assert Widths(p) == Widths(q) + [Last(p).N];
    SumAppend(Widths(q), Last(p).N);
    if |p| == 1 {
      assert Widths(q) == [];
    } else {
      LevelsTelescope(s, q);
      PrefixBounds(s, p);
      assert Linked(p[|p| - 2], p[|p| - 1]);
    }
  }

  // Some plan exists, so a search that reports every reachable destination reports one.
  lemma PlanExists(s: Setup) returns (q: seq<Action>)
    requires s.Valid() && Fits(s)
    ensures Plan(s, q) && Walk(EstimatorGraph(s), q) && EstimatorGraph(s).isDestination(Last(q))
  {
    FirstButterflyExists(s);
    var N :| 1 <= N <= s.maxBut && Executable(s, Action(0, s.log2len, N));
    q := PrefixExtends(s, [Action(0, s.log2len, N)]);
    WalksArePrefixes(s, q);
  }

  lemma CheapestIsBestPlan(s: Setup, best: seq<Action>)
    requires best != [] && Cheapest(EstimatorGraph(s), Weight(s), best) && Last(best).level == Last(best).N
    requires forall q :: Walk(EstimatorGraph(s), q) && EstimatorGraph(s).isDestination(Last(q)) ==>
      Total(Weight(s), best) <= Total(Weight(s), q)
    ensures Plan(s, best)
    ensures forall q :: Plan(s, q) ==> Total(Weight(s), best) <= Total(Weight(s), q)
  {
    WalksArePrefixes(s, best);
    hide Walk, Prefix, Total;
    forall q | Plan(s, q)
      ensures Total(Weight(s), best) <= Total(Weight(s), q)
    {
      WalksArePrefixes(s, q);
    }
  }

  // ---------------------------------------------------------------- which plans are best

  function Distance(N: nat): nat {
    if N < 3 then 3 - N else N - 3
  }

  // How far the butterflies of a path are from eight points, in all.
  function Strain(p: seq<Action>): nat {
    if p == [] then 0 else Strain(p[..|p| - 1]) + Distance(Last(p).N)
  }

  // Threads count for long transforms, where they can be used.
  predicate Halved(s: Setup) {
    s.log2len >= 14 && s.mt1d
  }

  lemma EstimateIs(s: Setup, a: Action)
    ensures Estimate(s, a) ==
      (if s.log2len >= 14 && Threaded(a.config) then 500 else 1000) * (a.N + Distance(a.N))
  {
    hide Threaded;
  }

  lemma {:induction false} SameThreads(s: Setup, p: seq<Action>, i: nat)
    requires Prefix(s, p) && i < |p|
    ensures Threaded(p[i].config) == Threaded(p[0].config) && (Threaded(p[i].config) ==> s.mt1d)
  {
    assert Executable(s, p[i]);
    hide Executable, Threaded;
    if i > 0 {
      SameThreads(s, p, i - 1);
      assert Linked(p[i - 1], p[i]);
    }
  }

  lemma {:induction false} TotalOfPrefix(s: Setup, p: seq<Action>, c: nat)
    requires forall i :: 0 <= i < |p| ==> Estimate(s, p[i]) == c * (p[i].N + Distance(p[i].N))
    ensures Total(Weight(s), p) == c * (Sum(Widths(p)) + Strain(p))
  {
    hide Estimate, Distance;
    if p == [] {
      assert Widths(p) == [];
    } else {
      var q := p[..|p| - 1];
      TotalOfPrefix(s, q, c);
      assert Widths(p) == Widths(q) + [Last(p).N];
      SumAppend(Widths(q), Last(p).N);
      TimesSum(c, Sum(Widths(q)) + Strain(q), Last(p).N + Distance(Last(p).N));
    }
  }

  lemma TimesSum(c: nat, x: nat, y: nat)
    ensures c * (x + y) == c * x + c * y
  {
  }

  // What a plan costs.
  lemma TotalOfPlan(s: Setup, p: seq<Action>)
    requires Plan(s, p)
    ensures Total(Weight(s), p) ==
      (if s.log2len >= 14 && Threaded(p[0].config) then 500 else 1000) * (s.log2len + Strain(p))
    ensures Threaded(p[0].config) ==> s.mt1d
  {
    hide Estimate, Executable, Threaded, Total, Strain;
    forall i | 0 <= i < |p|
      ensures Threaded(p[i].config) == Threaded(p[0].config) && (Threaded(p[i].config) ==> s.mt1d)
    {
      SameThreads(s, p, i);
    }
    var c := if s.log2len >= 14 && Threaded(p[0].config) then 500 else 1000;
    forall i | 0 <= i < |p|
      ensures Estimate(s, p[i]) == c * (p[i].N + Distance(p[i].N))
    {
      EstimateIs(s, p[i]);
    }
    TotalOfPrefix(s, p, c);
    LevelsTelescope(s, p);
  }

  // The same butterflies with threads.
  function WithThreads(p: seq<Action>): (q: seq<Action>)
    ensures |q| == |p|
  {
    seq(|p|, i requires 0 <= i < |p| => p[i].(config := p[i].config % 2 + 2))
  }

  lemma ThreadsKeepPlan(s: Setup, p: seq<Action>)
    requires Plan(s, p) && s.mt1d
    ensures Plan(s, WithThreads(p)) && Strain(WithThreads(p)) == Strain(p)
    ensures Threaded(WithThreads(p)[0].config)
  {
    var q := WithThreads(p);
    forall i | 0 <= i < |p|
      ensures Executable(s, q[i]) && Threaded(q[i].config)
    {
      assert Executable(s, p[i]);
    }
    hide Executable, Threaded;
    forall i, j | 0 <= i && j == i + 1 && j < |q|
      ensures Linked(q[i], q[j])
    {
      assert Linked(p[i], p[j]);
    }
    SameStrain(p, q);
  }

  lemma {:induction false} SameStrain(p: seq<Action>, q: seq<Action>)
    requires |p| == |q| && forall i :: 0 <= i < |p| ==> p[i].N == q[i].N
    ensures Strain(p) == Strain(q)
  {
    if p != [] {
      SameStrain(p[..|p| - 1], q[..|q| - 1]);
    }
  }

  ghost predicate Best(s: Setup, p: seq<Action>) {
    Plan(s, p) && forall q :: Plan(s, q) ==> Total(Weight(s), p) <= Total(Weight(s), q)
  }

  // No plan has less strain, and threads are used where they count.
  ghost predicate Relaxed(s: Setup, p: seq<Action>) {
    && Plan(s, p) && (forall q :: Plan(s, q) ==> Strain(p) <= Strain(q))
    && (Halved(s) ==> forall i :: 0 <= i < |p| ==> Threaded(p[i].config))
  }

  lemma ThreadedThroughout(s: Setup, p: seq<Action>)
    requires Plan(s, p)
    ensures Threaded(p[0].config) <==> forall i :: 0 <= i < |p| ==> Threaded(p[i].config)
  {
    forall i | 0 <= i < |p|
      ensures Threaded(p[i].config) == Threaded(p[0].config)
    {
      SameThreads(s, p, i);
    }
    hide Threaded, Prefix;
  }

  // The plans of least estimate are those of least strain that use threads where they count.
  lemma BestIsRelaxed(s: Setup, p: seq<Action>)
    ensures Best(s, p) <==> Relaxed(s, p)
  {
    hide Prefix, Total, Strain, Threaded;
    if Plan(s, p) {
      ThreadedThroughout(s, p);
      TotalOfPlan(s, p);
      if Halved(s) {
        ThreadsKeepPlan(s, p);
        TotalOfPlan(s, WithThreads(p));
      }
      forall q | Plan(s, q)
        ensures Best(s, p) ==> Strain(p) <= Strain(q)
        ensures Relaxed(s, p) ==> Total(Weight(s), p) <= Total(Weight(s), q)
      {
        TotalOfPlan(s, q);
        if Halved(s) {
          ThreadsKeepPlan(s, q);
          TotalOfPlan(s, WithThreads(q));
        }
      }
    }
  }

  // Eight-point butterflies as long as at least two levels remain, single-threaded.
  function Eights(level: nat): seq<Action>
    requires level >= 2
  {
    if level <= 4 then [Action(0, level, level)] else [Action(0, level, 3)] + Eights(level - 3)
  }

  // Executable single-threaded butterflies that lead from a level to the end.
  ghost predicate Run(s: Setup, p: seq<Action>, level: nat) {
    && p != [] && p[0].level == level && Last(p).level == Last(p).N
    && (forall i :: 0 <= i < |p| ==> Executable(s, p[i]) && p[i].config == 0)
    && forall i, j :: 0 <= i && j == i + 1 && j < |p| ==> Linked(p[i], p[j])
  }

  lemma RunGrows(s: Setup, a: Action, q: seq<Action>)
    requires Executable(s, a) && a.config == 0 && a.level >= a.N && Run(s, q, a.level - a.N)
    ensures Run(s, [a] + q, a.level)
  {
    hide Executable, Threaded;
    var p := [a] + q;
    forall i, j | 0 <= i && j == i + 1 && j < |p|
      ensures Linked(p[i], p[j])
    {
      assert i > 0 ==> Linked(q[i - 1], q[j - 1]);
    }
  }

  lemma RunEnds(s: Setup, a: Action)
    requires Executable(s, a) && a.config == 0 && a.level == a.N
    ensures Run(s, [a], a.level)
  {
    hide Executable, Threaded;
  }

  lemma {:induction false} EightsRun(s: Setup, level: nat)
    requires s.Valid() && s.log2len >= 6 && s.maxBut >= 3 && s.log2vecwidth <= 3
    requires 2 <= level <= s.log2len && (level % 3 == 1 ==> s.maxBut >= 4)
    requires level == s.log2len || level <= s.log2len - 3
    ensures Run(s, Eights(level), level) && Strain(Eights(level)) == if level % 3 == 0 then 0 else 1
  {
    EightIsExecutable(s, level);
    EightsAre(level);
    hide *;
    ThreeLess(level);
    if level <= 4 {
      RunEnds(s, Action(0, level, level));
      StrainOfOne(Action(0, level, level));
    } else {
      EightsRun(s, level - 3);
      RunGrows(s, Action(0, level, 3), Eights(level - 3));
      StrainOfRest(Action(0, level, 3), Eights(level - 3));
    }
  }

  lemma ThreeLess(level: nat)
    ensures level >= 3 ==> (level - 3) % 3 == level % 3
    ensures Distance(3) == 0 && Distance(2) == Distance(4) == 1
  {
  }

  lemma EightsAre(level: nat)
    requires level >= 2
    ensures Eights(level) ==
      if level <= 4 then [Action(0, level, level)] else [Action(0, level, 3)] + Eights(level - 3)
  {
  }

  lemma StrainOfOne(a: Action)
    ensures Strain([a]) == Distance(a.N)
  {
    StrainOfRest(a, []);
    assert [a] + [] == [a];
  }

  lemma EightIsExecutable(s: Setup, level: nat)
    requires s.Valid() && s.log2len >= 6 && s.maxBut >= 3 && s.log2vecwidth <= 3
    requires 2 <= level <= s.log2len && (level % 3 == 1 ==> s.maxBut >= 4)
    requires level == s.log2len || level <= s.log2len - 3
    ensures Executable(s, Action(0, level, if level <= 4 then level else 3))
  {
    Pow2Less(3, s.log2vecwidth);
    Pow2Less(s.log2len - 3, s.log2vecwidth);
  }

  lemma {:induction false} StrainOfRest(a: Action, q: seq<Action>)
    ensures Strain([a] + q) == Distance(a.N) + Strain(q)
    decreases |q|
  {
    hide Distance;
    if q == [] {
      assert [a] + q == [a] && [a][..0] == [];
    } else {
      var p := [a] + q;
      assert p[..|p| - 1] == [a] + q[..|q| - 1] && Last(p) == Last(q);
      StrainOfRest(a, q[..|q| - 1]);
    }
  }

  // Without strain all butterflies have eight points.
  lemma {:induction false} NoStrain(p: seq<Action>, i: nat)
    requires Strain(p) == 0 && i < |p|
    ensures p[i].N == 3
  {
    if i < |p| - 1 {
      NoStrain(p[..|p| - 1], i);
    }
  }

  // From 64 points on, vectors of up to eight elements and butterflies of at least eight points: a
  // best plan deviates from eight-point butterflies as little as the length allows.
  lemma BestUsesEights(s: Setup, p: seq<Action>)
    requires s.Valid() && s.log2len >= 6 && s.maxBut >= 3 && s.log2vecwidth <= 3
    requires s.log2len % 3 == 1 ==> s.maxBut >= 4
    requires Best(s, p)
    ensures Strain(p) <= if s.log2len % 3 == 0 then 0 else 1
    ensures s.log2len % 3 == 0 ==> forall i :: 0 <= i < |p| ==> p[i].N == 3
  {
    BestIsRelaxed(s, p);
    EightsRun(s, s.log2len);
    var q := Eights(s.log2len);
    assert Plan(s, q);
    hide Prefix, Total, Strain, Threaded, Eights;
    if s.log2len % 3 == 0 {
      forall i | 0 <= i < |p|
        ensures p[i].N == 3
      {
        NoStrain(p, i);
      }
    }
  }

  // ---------------------------------------------------------------- measure

  class Transform {
    const s: Setup
    var executable: array3<bool>
    var bestPath: seq<Action>

    ghost predicate Valid()
      reads this
    {
      s.Valid() && executable.Length0 == CONFIG_MAX && executable.Length1 == 32 && executable.Length2 == 32
    }

    // The table agrees with the predicate for the configurations below configs, and is false
    // elsewhere.
    ghost predicate Filled(configs: nat)
      requires Valid()
      reads this, executable
    {
      forall c, l, n :: 0 <= c < CONFIG_MAX && 1 <= l <= s.log2len && 1 <= n <= s.maxBut ==>
        executable[c, l, n] == (c < configs && Executable(s, Action(c, l, n)))
    }

    constructor (s: Setup)
      requires s.Valid()
      ensures Valid() && this.s == s && fresh(executable) && bestPath == []
    {
      this.s := s;
      executable := new bool[CONFIG_MAX, 32, 32];
      bestPath := [];
    }

    method ClearExecutable()
      requires Valid()
      modifies executable
      ensures Filled(0)
    {
      for c := 0 to CONFIG_MAX
        invariant forall c', l, n :: 0 <= c' < c && 1 <= l <= s.log2len && 1 <= n <= s.maxBut ==> !executable[c', l, n]
      {
        for level := s.log2len + 1 downto 1
          invariant forall c', l, n :: 0 <= c' < c && 1 <= l <= s.log2len && 1 <= n <= s.maxBut ==>
            !executable[c', l, n]
          invariant forall l, n :: level <= l <= s.log2len && 1 <= n <= s.maxBut ==> !executable[c, l, n]
        {
          for N := 1 to s.maxBut + 1
            invariant forall c', l, n :: 0 <= c' < c && 1 <= l <= s.log2len && 1 <= n <= s.maxBut ==>
              !executable[c', l, n]
            invariant forall l, n :: level < l <= s.log2len && 1 <= n <= s.maxBut ==> !executable[c, l, n]
            invariant forall n :: 1 <= n < N ==> !executable[c, level, n]
          {
            executable[c, level, N] := false;
          }
        }
      }
    }

    method FillConfig(c: nat)
      requires Valid() && c < CONFIG_MAX && Filled(c)
      requires (Streaming(c) ==> s.stream) && (Threaded(c) ==> s.mt1d)
      modifies executable
      ensures Filled(c + 1)
    {
      for level := s.log2len + 1 downto 1
        invariant forall c', l, n :: 0 <= c' < CONFIG_MAX && c' != c && 1 <= l <= s.log2len && 1 <= n <= s.maxBut ==>
          executable[c', l, n] == (c' < c && Executable(s, Action(c', l, n)))
        invariant forall l, n :: 1 <= l <= s.log2len && 1 <= n <= s.maxBut ==>
          executable[c, l, n] == (level <= l && Executable(s, Action(c, l, n)))
      {
        for N := 1 to s.maxBut + 1
          invariant forall c', l, n :: 0 <= c' < CONFIG_MAX && c' != c && 1 <= l <= s.log2len && 1 <= n <= s.maxBut ==>
            executable[c', l, n] == (c' < c && Executable(s, Action(c', l, n)))
          invariant forall l, n :: 1 <= l <= s.log2len && 1 <= n <= s.maxBut ==>
            executable[c, l, n] == ((level < l || (level == l && n < N)) && Executable(s, Action(c, l, n)))
        {
          if level < N || s.log2len <= N { continue; }
          if level == N {
            executable[c, level, N] := true;
          } else if level == s.log2len {
            if !HasTable(s, N, level) { continue; }
            if s.Vecwidth() > Pow2(N) { continue; }
            executable[c, level, N] := true;
          } else {
            if !HasTable(s, N, level) { continue; }
            if s.Vecwidth() > 2 && s.log2len <= N + 2 { continue; }
            if s.log2len - level < s.log2vecwidth { continue; }
            executable[c, level, N] := true;
          }
        }
      }
    }

    // The nested loops of measure.
    method FillExecutable()
      requires Valid()
      modifies executable
      ensures Filled(CONFIG_MAX)
    {
      ClearExecutable();
      for c := 0 to CONFIG_MAX
        invariant Filled(c)
      {
        if !s.stream && Streaming(c) { continue; }
        if !s.mt1d && Threaded(c) { continue; }
        FillConfig(c);
      }
    }

    // searchForBestPath(0): the plan with the smallest estimate.
    method SearchForBestPath()
      requires Valid() && Fits(s)
      modifies this`bestPath
      ensures Best(s, bestPath) && Relaxed(s, bestPath)
    {
      hide Additive, Cheapest, Walk, Total, Plan, Relaxed;
      EstimatorIsAdditive(s);
      ghost var q := PlanExists(s);
      var pf := new KShortest<Action>(EstimatorGraph(s), Weight(s), AllActions(s));
      var best := pf.Execute();
      CheapestIsBestPlan(s, best);
      BestIsRelaxed(s, best);
      bestPath := best;
    }

    // Plan the transform by estimation.  The result says whether a plan was found.
    method Measure() returns (ok: bool)
      requires Valid()
      modifies this`bestPath, executable
      ensures s.log2len == 1 ==> ok && bestPath == [Action(0, 1, 1)]
      ensures s.log2len >= 2 ==> (ok <==> Fits(s))
      ensures s.log2len >= 2 && ok ==> Best(s, bestPath) && Relaxed(s, bestPath)
      ensures !ok ==> bestPath == old(bestPath)
    {
      if s.log2len == 1 {
        bestPath := [Action(0, 1, 1)];
        return true;
      }
      FillExecutable();
      var found := false;
      for i := 1 to s.maxBut + 1
        invariant found <==> exists N :: 1 <= N < i && executable[0, s.log2len, N]
      {
        if executable[0, s.log2len, i] { found := true; }
      }
      FirstButterflyExists(s);
      if !found { return false; }
      SearchForBestPath();
      return true;
    }
  }
}
