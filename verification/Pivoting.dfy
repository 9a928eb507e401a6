// The steps of minimize() and phase1() as facts about values: the search for the pivot, what a run
// of pivots keeps, the change of the objective row, and what the solution is read from.
module Pivoting {
  import opened LinearAlgebra
  import opened Tableau
  import opened StandardForm
  import opened FreeVariables

  // What tableau() returns: the rows of leftover artificial variables read as zero.
  ghost function Shown(d: Dict, i: nat, j: nat): real
    requires d.Sized() && i <= d.m && j < d.width
  {
    if d.col[i] < 0 then 0.0 else d.T(i, j)
  }

  // The first i entries of pc are column j.
  ghost predicate IsColumn(d: Dict, pc: Vec, j: nat, i: nat)
    requires d.Sized() && j < d.width
  {
    |pc| == d.m + 1 && i <= d.m + 1 && forall k :: 0 <= k < i ==> pc[k] == Shown(d, k, j)
  }

  // u is the smallest ratio of the rows before i, if that is below large; p is the first such row.
  ghost predicate Best(d: Dict, pc: Vec, i: nat, p: nat, u: real, eps: real, large: real)
    requires d.Sized()
  {
    && eps >= 0.0 && |pc| == d.m + 1 && p < i <= d.m + 1
    && (if p == 0 then u == large else pc[p] > eps && u == Shown(d, p, 0) / pc[p] && u < large)
    && (forall k :: 1 <= k < i && pc[k] > eps ==> u <= Shown(d, k, 0) / pc[k])
    && (forall k :: 1 <= k < p && pc[k] > eps ==> u < Shown(d, k, 0) / pc[k])
  }

  lemma ColumnStarts(d: Dict, pc: Vec, j: nat)
    requires d.Sized() && j < d.width && d.col[0] == 0 && |pc| == d.m + 1 && pc[0] == d.T(0, j)
    ensures IsColumn(d, pc, j, 1)
  {
  }

  lemma ColumnGrows(d: Dict, pc: Vec, j: nat, i: nat, t: real)
    requires d.Sized() && j < d.width && IsColumn(d, pc, j, i) && i <= d.m && t == Shown(d, i, j)
    ensures IsColumn(d, pc[i := t], j, i + 1)
  {
  }

  lemma BestStarts(d: Dict, pc: Vec, eps: real, large: real)
    requires d.Sized() && |pc| == d.m + 1 && eps >= 0.0
    ensures Best(d, pc, 1, 0, large, eps, large)
  {
  }

  lemma BestStays(d: Dict, pc: Vec, i: nat, p: nat, u: real, eps: real, large: real, t: real)
    requires d.Sized() && Best(d, pc, i, p, u, eps, large) && i <= d.m
    ensures Best(d, pc[i := t], i, p, u, eps, large)
  {
    hide Dict.T;
  }

  lemma BestSkips(d: Dict, pc: Vec, i: nat, p: nat, u: real, eps: real, large: real)
    requires d.Sized() && Best(d, pc, i, p, u, eps, large) && i <= d.m && pc[i] <= eps
    ensures Best(d, pc, i + 1, p, u, eps, large)
  {
    hide Dict.T;
  }

  lemma BestGrows(d: Dict, pc: Vec, i: nat, p: nat, u: real, eps: real, large: real, t: real)
    requires d.Sized() && Best(d, pc, i, p, u, eps, large) && 1 <= i <= d.m && pc[i] > eps
    requires t == Shown(d, i, 0) / pc[i]
    ensures if t < u then Best(d, pc, i + 1, i, t, eps, large) else Best(d, pc, i + 1, p, u, eps, large)
  {
    hide Dict.T, Shown;
  }

  // What a run of pivots from d0 to d has kept and improved.
  ghost predicate Advanced(d0: Dict, d: Dict, jmax: nat, eps: real) {
    && d0.Sized() && d.Sized() && d.m == d0.m && d.width == d0.width && d.a == d0.a
    && (forall i :: 0 <= i <= d.m ==> d.col[i] == d0.col[i] || (i > 0 && 1 <= d.col[i] <= jmax && d0.col[i] >= 0))
    && (d0.Valid() ==> d.Valid())
    && (eps == 0.0 && d0.Valid() && d0.Feasible() ==> d.Feasible() && d.T(0, 0) >= d0.T(0, 0))
  }

  lemma AdvancedKeeps(d0: Dict, d: Dict, jmax: nat, eps: real)
    requires Advanced(d0, d, jmax, eps)
    ensures d0.Sized() && d.Sized() && |d.col| == |d0.col| == d.m + 1
    ensures d.m == d0.m && d.width == d0.width && d.a == d0.a
    ensures d0.Valid() ==> d.Valid()
    ensures eps == 0.0 && d0.Valid() && d0.Feasible() ==> d.Feasible()
    ensures forall i :: 0 <= i <= d.m ==> d.col[i] == d0.col[i] || (i > 0 && 1 <= d.col[i] <= jmax && d0.col[i] >= 0)
  {
    hide Dict.Valid, Dict.Feasible, Dict.T;
  }

  lemma NotAdvanced(d: Dict, jmax: nat, eps: real)
    requires d.Sized()
    ensures Advanced(d, d, jmax, eps)
  {
    hide Dict.Valid, Dict.Feasible, Dict.T;
  }

  lemma BestRow(d: Dict, pc: Vec, j: nat, p: nat, u: real, eps: real, large: real)
    requires d.Sized() && j < d.width && IsColumn(d, pc, j, d.m + 1) && Best(d, pc, d.m + 1, p, u, eps, large) && p > 0
    ensures pc[p] > eps >= 0.0 && d.col[p] >= 0
  {
    hide Dict.T;
  }

  // In a valid state pc is the pivot column, and the chosen row has the smallest ratio of the rows
  // with an entry above eps.
  lemma BestIsMinRatio(d: Dict, pc: Vec, j: nat, p: nat, u: real, eps: real, large: real)
    requires d.Valid() && d.col[0] == 0 && 1 <= j < d.width && IsColumn(d, pc, j, d.m + 1)
    requires Best(d, pc, d.m + 1, p, u, eps, large) && p > 0
    ensures pc == PivotColumn(d, j) && d.T(p, j) > eps >= 0.0
    ensures forall i :: 1 <= i <= d.m && d.T(i, j) > eps ==> d.T(p, 0) / d.T(p, j) <= d.T(i, 0) / d.T(i, j)
    ensures eps == 0.0 ==> MinRatio(d, p, j)
  {
    hide Dict.T, Dict.UnitColumns, Dict.Nonsingular;
    assert forall i :: 0 <= i <= d.m ==> Shown(d, i, j) == d.T(i, j) && Shown(d, i, 0) == d.T(i, 0);
  }

  lemma BestIsEscape(d: Dict, pc: Vec, j: nat, u: real, eps: real, large: real)
    requires d.Valid() && d.col[0] == 0 && 1 <= j < d.width && IsColumn(d, pc, j, d.m + 1) && d.T(0, j) < -eps
    requires Best(d, pc, d.m + 1, 0, u, eps, large)
    ensures Escapes(d, j, eps, large)
  {
    hide Dict.T, Dict.UnitColumns, Dict.Nonsingular;
    assert forall i :: 0 <= i <= d.m ==> Shown(d, i, j) == d.T(i, j) && Shown(d, i, 0) == d.T(i, 0);
  }

  // e is d after pivot(p, j) with pivot column pc.
  ghost predicate IsStep(d: Dict, e: Dict, pc: Vec, p: nat, j: nat) {
    && d.Sized() && e.Sized() && e.m == d.m && e.width == d.width && e.a == d.a && |pc| == d.m + 1
    && 1 <= p <= d.m && 1 <= j < d.width && pc[p] != 0.0 && 0 <= d.col[p] < d.width
    && e.q == PivotQ(d.q, pc, p) && e.col == d.col[p := j] && e.row == d.row[d.col[p] := 0][j := p]
  }

  // No row shows a variable beyond n2.
  ghost predicate UpTo(col: seq<int>, n2: nat) {
    forall i :: 1 <= i < |col| ==> col[i] <= n2
  }

  lemma StepKeepsUpTo(d: Dict, e: Dict, pc: Vec, p: nat, j: nat, n2: nat)
    requires IsStep(d, e, pc, p, j) && UpTo(d.col, n2) && j <= n2
    ensures UpTo(e.col, n2)
  {
    hide Dict.T, PivotQ;
  }

  lemma StepIs(d: Dict, e: Dict, pc: Vec, p: nat, j: nat)
    requires d.Sized() && e.Sized() && e.m == d.m && e.width == d.width && e.a == d.a && |pc| == d.m + 1
    requires 1 <= p <= d.m && 1 <= j < d.width && pc[p] != 0.0 && 0 <= d.col[p] < d.width
    requires e.q == PivotQ(d.q, pc, p) && e.col == d.col[p := j] && e.row == d.row[d.col[p] := 0][j := p]
    ensures IsStep(d, e, pc, p, j)
  {
  }

  lemma StepAdvances(d0: Dict, d: Dict, e: Dict, pc: Vec, j: nat, p: nat, u: real, jmax: nat, eps: real, large: real)
    requires Advanced(d0, d, jmax, eps) && d.col[0] == 0 && 1 <= j < d.width && j <= jmax && 1 <= p <= d.m
    requires IsColumn(d, pc, j, d.m + 1) && Best(d, pc, d.m + 1, p, u, eps, large) && d.T(0, j) < -eps && d.row[j] == 0
    requires IsStep(d, e, pc, p, j)
    ensures Advanced(d0, e, jmax, eps)
  {
    hide Dict.Valid, Dict.Feasible, Dict.T, PivotQ, MinRatio, PivotColumn, IsColumn, Best;
    if d.Valid() {
      BestIsMinRatio(d, pc, j, p, u, eps, large);
      assert e == Pivot(d, p, j);
      PivotKeepsValid(d, p, j);
      if eps == 0.0 && d.Feasible() {
        PivotKeepsFeasible(d, p, j);
      }
    }
  }

  lemma PricedColumn(d: Dict, i: nat, n2: nat, k: nat)
    requires Priced(d, i, n2) && 1 <= k <= d.m
    ensures d.Sized() && 1 <= d.col[k] < d.width
  {
    hide Dict.T, Dict.Nonsingular;
  }

  lemma RepriceIs(d: Dict, i: nat, u: real, e: Dict)
    requires d.Sized() && 1 <= i <= d.m && 0 <= d.col[i] < d.width && u == d.a[0][d.col[i]]
    requires e == d.(q := d.q[0 := EliminatedRow(d.q[0], d.q[i], u)])
    ensures e == Reprice(d, i)
  {
  }

  lemma RepricedShape(d: Dict, i: nat, u: real)
    requires d.Sized() && 1 <= i <= d.m
    ensures |EliminatedRow(d.q[0], d.q[i], u)| == d.m + 1 && d.(q := d.q[0 := EliminatedRow(d.q[0], d.q[i], u)]).Sized()
  {
  }

  // The costs do not reach the constraint rows.
  lemma CostedShares(d: Dict, e: Dict, pr: Problem, c: Vec)
    requires pr.Sized() && |c| == pr.n + 1 && d.Sized() && e.Sized() && d.m == e.m == pr.m && d.width == e.width
    requires d.a == pr.Extended() && e.a == WithCost(pr, c).Extended() && d.col == e.col && d.row == e.row
    requires forall i :: 1 <= i <= pr.m ==> d.q[i] == e.q[i]
    ensures SameConstraints(d, e)
  {
    forall i | 1 <= i <= pr.m
      ensures d.a[i] == e.a[i]
    {
      assert forall j :: 0 <= j <= pr.n3 ==> d.a[i][j] == e.a[i][j];
    }
  }

  lemma StartWithCost(pr: Problem, c: Vec, q: seq<Vec>, col: seq<int>, row: seq<int>)
    requires pr.Sized() && |c| == pr.n + 1 && StartBasis(pr, col, row) && StartMatrix(pr, q, col)
    requires forall i :: 1 <= i <= pr.m ==> pr.a[i][0] >= 0.0
    ensures WithCost(pr, c).Sized() && StartBasis(WithCost(pr, c), col, row) && StartMatrix(WithCost(pr, c), q, col)
    ensures WithCost(pr, c).m == pr.m && forall i :: 1 <= i <= pr.m ==> WithCost(pr, c).a[i][0] >= 0.0
  {
    assert forall i, k :: 0 <= i <= pr.m && 0 <= k <= pr.m ==>
      q[i][k] == StartEntry(pr, col, i, k) == StartEntry(WithCost(pr, c), col, i, k);
  }

  lemma StartSatisfies(pr: Problem, q: seq<Vec>, col: seq<int>, row: seq<int>)
    requires pr.Prepared() && pr.n2 == pr.n3 && State(pr, q, col, row).Valid() && State(pr, q, col, row).Feasible()
    ensures Satisfiable(pr)
  {
    hide Dict.T, Dot, Problem.Added, Problem.Extended, Dict.UnitColumns, Dict.Nonsingular, Nonnegative;
    var x := BasicSolution(State(pr, q, col, row));
    BasicSolves(State(pr, q, col, row));
    SolvingSatisfies(pr, q, col, row, x);
  }

  // The basic solution of d is the cheapest point that satisfies the constraints of pr.
  ghost predicate BasicOptimum(pr: Problem, d: Dict) {
    && pr.Sized() && d.Sized() && d.Inverse() && pr.n < d.width
    && var s := BasicSolution(d)[..pr.n + 1];
       Satisfies(pr, s) && forall y :: Satisfies(pr, y) ==> Excess(pr, s, 0) <= Excess(pr, y, 0)
  }

  lemma OptimumIsBound(pr: Problem, d: Dict)
    requires pr.Sized()
    ensures BasicOptimum(pr, d) ==> !NoLowerBound(pr)
  {
    hide Satisfies, Excess;
    if BasicOptimum(pr, d) {
      assert !Undercut(pr, Excess(pr, BasicSolution(d)[..pr.n + 1], 0));
    }
  }

  lemma OptimumIs(pr: Problem, q: seq<Vec>, col: seq<int>, row: seq<int>)
    requires pr.Prepared() && State(pr, q, col, row).Valid() && State(pr, q, col, row).Feasible()
    requires Settled(pr, State(pr, q, col, row))
    requires NoNegativeCost(State(pr, q, col, row), pr.n2, 0.0)
    ensures BasicOptimum(pr, State(pr, q, col, row))
  {
    hide Dict.T, Dot, Problem.Added, Problem.Extended, Dict.UnitColumns, Dict.Nonsingular, Satisfies;
    PhaseTwoOptimal(pr, q, col, row);
  }

  // The basic solution of d meets the equations of pr, and no point that satisfies the constraints is
  // cheaper by more than eps for every unit of its components.
  ghost predicate NearOptimum(pr: Problem, d: Dict, eps: real) {
    && pr.Sized() && d.Sized() && d.Inverse() && pr.n < d.width
    && var s := BasicSolution(d)[..pr.n + 1];
       && s[0] == -1.0 && (forall i :: 1 <= i <= pr.m && pr.rel[i] == Equal ==> Meets(pr, s, i))
       && forall y :: Satisfies(pr, y) ==>
            Excess(pr, s, 0) <= Excess(pr, y, 0) + eps * Tail(WithSlack(pr, y), pr.n3 + 1)
  }

  lemma NearOptimumIs(pr: Problem, q: seq<Vec>, col: seq<int>, row: seq<int>, eps: real)
    requires pr.Prepared() && State(pr, q, col, row).Valid() && Settled(pr, State(pr, q, col, row)) && eps >= 0.0
    requires NoNegativeCost(State(pr, q, col, row), pr.n2, eps)
    ensures NearOptimum(pr, State(pr, q, col, row), eps)
  {
    hide Dict.T, Dot, Problem.Added, Problem.Extended, Dict.UnitColumns, Dict.Nonsingular, Tail, WithSlack;
    var d := State(pr, q, col, row);
    var x := BasicSolution(d);
    BasicSolves(d);
    forall i | 0 <= i <= pr.m && (i == 0 || pr.rel[i] == Equal)
      ensures Excess(pr, x[..pr.n + 1], i) == Dot(pr.Extended()[i], x, pr.n3 + 1)
    {
      var c := RowSplits(pr, x, i);
    }
    forall y | Satisfies(pr, y)
      ensures Excess(pr, x[..pr.n + 1], 0) <= Excess(pr, y, 0) + eps * Tail(WithSlack(pr, y), pr.n3 + 1)
    {
      SatisfyingSolves(pr, q, col, row, y);
      OptimalBound(d, WithSlack(pr, y), pr.n2, eps);
    }
  }

  lemma UnlimitedIs(pr: Problem, q: seq<Vec>, col: seq<int>, row: seq<int>, j: nat, large: real)
    requires pr.Prepared() && State(pr, q, col, row).Valid() && State(pr, q, col, row).Feasible()
    requires Settled(pr, State(pr, q, col, row)) && Stays(pr, State(pr, q, col, row), j)
    requires row[j] == 0 && Escapes(State(pr, q, col, row), j, 0.0, large)
    ensures Unlimited(pr, large)
  {
    hide Dict.T, Dot, Problem.Added, Problem.Extended, Dict.UnitColumns, Dict.Nonsingular, Satisfies, Dict.Feasible;
    var d := State(pr, q, col, row);
    var base, slope := -d.T(0, 0), d.T(0, j);
    forall theta | 0.0 <= theta <= large
      ensures Reached(pr, base, slope, theta)
    {
      var y := EscapePoint(pr, q, col, row, j, theta, large);
    }
    assert Ray(pr, base, slope, large);
  }

  ghost predicate RowRange(d: Dict) {
    d.Sized() && forall j :: 0 <= j < d.width ==> 0 <= d.row[j] <= d.m
  }

  lemma RowRangeIs(d: Dict)
    requires d.Sized() && forall j :: 0 <= j < d.width ==> 0 <= d.row[j] <= d.m
    ensures RowRange(d)
  {
  }

  // The value of variable j that the solution is read from.
  ghost function Read(d: Dict, j: nat): real
    requires RowRange(d) && j < d.width
  {
    if d.row[j] != 0 then Shown(d, d.row[j], 0) else 0.0
  }

  lemma ReadIs(d: Dict, j: nat)
    requires RowRange(d) && 1 <= j < d.width
    ensures |d.row| == d.width && 0 <= d.row[j] <= d.m
    ensures Read(d, j) == if d.row[j] != 0 then Shown(d, d.row[j], 0) else 0.0
  {
  }

  // What is read are the components of the basic solution, without the shift of the free variables.
  lemma ReadDrops(d: Dict, n: nat, x: Vec)
    requires d.Valid() && d.col[0] == 0 && RowRange(d) && 1 <= n < d.width && |x| == n && x[0] == 1.0
    requires forall j :: 1 <= j < n ==> x[j] == Read(d, j) - Read(d, n)
    ensures x == Drop(BasicSolution(d)[..n + 1])
  {
    hide Dict.T, Dict.UnitColumns, Dict.Nonsingular;
    forall j | 1 <= j <= n
      ensures Read(d, j) == BasicSolution(d)[j]
    {
      if d.row[j] != 0 {
        assert d.col[d.row[j]] == j;
      }
    }
  }

  lemma ValidBasics(d: Dict)
    requires d.Valid() && d.col[0] == 0
    ensures forall i :: 0 <= i <= d.m ==> d.col[i] >= 0
  {
    hide Dict.T, Dict.UnitColumns, Dict.Nonsingular;
  }

  lemma OptimumOf(pr: Problem, d: Dict) returns (s: Vec)
    requires BasicOptimum(pr, d)
    ensures pr.Sized() && d.Sized() && d.Inverse() && pr.n < d.width && s == BasicSolution(d)[..pr.n + 1]
    ensures Satisfies(pr, s) && forall y :: Satisfies(pr, y) ==> Excess(pr, s, 0) <= Excess(pr, y, 0)
  {
    s := BasicSolution(d)[..pr.n + 1];
  }

  lemma NearOptimumOf(pr: Problem, d: Dict, eps: real) returns (s: Vec)
    requires NearOptimum(pr, d, eps)
    ensures pr.Sized() && d.Sized() && d.Inverse() && pr.n < d.width && s == BasicSolution(d)[..pr.n + 1]
    ensures |s| == pr.n + 1 && s[0] == -1.0 && forall i :: 1 <= i <= pr.m && pr.rel[i] == Equal ==> Meets(pr, s, i)
    ensures forall y :: Satisfies(pr, y) ==>
      Excess(pr, s, 0) <= Excess(pr, y, 0) + eps * Tail(WithSlack(pr, y), pr.n3 + 1)
  {
    s := BasicSolution(d)[..pr.n + 1];
  }

  lemma NoCostYet(d: Dict, eps: real)
    requires d.Sized()
    ensures NoNegativeCost(d, 0, eps)
  {
  }

  lemma NextCost(d: Dict, j: nat, eps: real)
    requires d.Sized() && 1 <= j && NoNegativeCost(d, j - 1, eps)
    requires j < d.width && d.row[j] == 0 ==> d.T(0, j) >= -eps
    ensures NoNegativeCost(d, j, eps)
  {
  }

  lemma ShownIs(d: Dict, i: nat, j: nat)
    requires d.Sized() && i <= d.m && j < d.width
    ensures |d.col| == d.m + 1 && Shown(d, i, j) == if d.col[i] < 0 then 0.0 else d.T(i, j)
  {
  }

  lemma ShownObjective(d: Dict, j: nat)
    requires d.Sized() && j < d.width && d.col[0] == 0
    ensures Shown(d, 0, j) == d.T(0, j)
  {
  }

  lemma DotStarts(u: Vec, v: Vec)
    ensures Dot(u, v, 0) == 0.0
  {
  }

  lemma DotSteps(u: Vec, v: Vec, k: nat)
    requires k < |u| && k < |v|
    ensures Dot(u, v, k + 1) == Dot(u, v, k) + u[k] * v[k]
  {
  }

  // Without a row that stops the entering variable the cost really has no lower bound.
  lemma NoRowStops(pr: Problem, q: seq<Vec>, col: seq<int>, row: seq<int>, j: nat, bound: real) returns (y: Vec)
    requires pr.Prepared() && State(pr, q, col, row).Valid() && State(pr, q, col, row).Feasible()
    requires Settled(pr, State(pr, q, col, row)) && Stays(pr, State(pr, q, col, row), j)
    requires row[j] == 0 && State(pr, q, col, row).T(0, j) < 0.0
    requires forall i :: 1 <= i <= pr.m ==> State(pr, q, col, row).T(i, j) <= 0.0
    ensures Satisfies(pr, y) && Excess(pr, y, 0) < bound
  {
    hide Dict.T, Dict.UnitColumns, Dict.Nonsingular, Problem.Added, Problem.Extended, Dict.Feasible, Satisfies;
    var d := State(pr, q, col, row);
    var base, slope := -d.T(0, 0), d.T(0, j);
    var theta := if base < bound then 0.0 else (base - bound + 1.0) / (0.0 - slope);
    Steep(base, slope, bound, theta);
    y := EscapePoint(pr, q, col, row, j, theta, theta);
  }

  lemma NoBound(pr: Problem, q: seq<Vec>, col: seq<int>, row: seq<int>, j: nat)
    requires pr.Prepared() && State(pr, q, col, row).Valid() && State(pr, q, col, row).Feasible()
    requires Settled(pr, State(pr, q, col, row)) && Stays(pr, State(pr, q, col, row), j)
    requires row[j] == 0 && State(pr, q, col, row).T(0, j) < 0.0
    requires forall i :: 1 <= i <= pr.m ==> State(pr, q, col, row).T(i, j) <= 0.0
    ensures NoLowerBound(pr)
  {
    hide Dict.Valid, Dict.Feasible, Dict.T, Settled, Satisfies, State;
    forall bound: real
      ensures Undercut(pr, bound)
    {
      var y := NoRowStops(pr, q, col, row, j, bound);
    }
  }

  lemma Steep(base: real, slope: real, bound: real, theta: real)
    requires slope < 0.0 && theta == if base < bound then 0.0 else (base - bound + 1.0) / (0.0 - slope)
    ensures theta >= 0.0 && base + theta * slope < bound
  {
    if base >= bound {
      var w := base - bound + 1.0;
      assert theta * (0.0 - slope) == w;
      assert theta * slope == -w;
    }
  }
}
