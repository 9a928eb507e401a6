// The pivots that minimize() takes, and when the bound `large` on the ratios cuts them short.
module PivotPath {
  import opened LinearAlgebra
  import opened Tableau
  import opened StandardForm
  import opened FreeVariables
  import opened Pivoting
  import opened Vertices
  import opened Leftovers

  // The first variable from j on with a reduced cost below -eps, or jmax + 1.
  ghost function Entering(d: Dict, j: nat, jmax: nat, eps: real): (r: nat)
    requires d.Sized() && jmax < d.width && j <= jmax + 1
    ensures j <= r <= jmax + 1 && (r <= jmax ==> d.row[r] == 0 && d.T(0, r) < -eps)
    decreases jmax + 1 - j
  {
    if j > jmax || (d.row[j] == 0 && d.T(0, j) < -eps) then j else Entering(d, j + 1, jmax, eps)
  }

  // The first of the rows up to i with the smallest ratio in column j among the entries above eps, or
  // 0 without one.
  ghost function Leaving(d: Dict, j: nat, i: nat, eps: real): (p: nat)
    requires d.Sized() && j < d.width && i <= d.m && eps >= 0.0
    ensures p <= i && (p > 0 ==> d.T(p, j) > eps)
    ensures p == 0 ==> forall k :: 1 <= k <= i ==> d.T(k, j) <= eps
    ensures p > 0 ==> forall k :: 1 <= k <= i && d.T(k, j) > eps ==> d.T(p, 0) / d.T(p, j) <= d.T(k, 0) / d.T(k, j)
  {
    if i == 0 then 0
    else
      hide Dict.T;
      var p := Leaving(d, j, i - 1, eps);
      if d.T(i, j) > eps && (p == 0 || d.T(i, 0) / d.T(i, j) < d.T(p, 0) / d.T(p, j)) then i else p
  }

  // How a path ends: no variable enters, no row stops the entering variable, the ratio of the row
  // that stops it is not below large, or the fuel is used up.
  datatype Stop = Done | Free | Cut | Going

  // The state after at most fuel pivots, and how the path ends there.
  ghost function Walked(d: Dict, jmax: nat, large: real, eps: real, fuel: nat): (r: (Dict, Stop))
    requires d.Valid() && jmax < d.width && eps >= 0.0
    ensures r.0.Valid() && r.0.m == d.m && r.0.width == d.width && r.0.a == d.a
    decreases fuel
  {
    if fuel == 0 then (d, Going)
    else
      var j := Entering(d, 1, jmax, eps);
      if j > jmax then (d, Done)
      else
        var p := Leaving(d, j, d.m, eps);
        if p == 0 then (d, Free)
        else if d.T(p, 0) / d.T(p, j) >= large then (d, Cut)
        else
          NextIsValid(d, p, j);
          Walked(Pivot(d, p, j), jmax, large, eps, fuel - 1)
  }

  // All pivots of the path have ratios below large.
  ghost predicate ShortSteps(d: Dict, jmax: nat, large: real, eps: real, fuel: nat)
    requires d.Valid() && jmax < d.width && eps >= 0.0
  {
    Walked(d, jmax, large, eps, fuel).1 != Cut
  }

  lemma WithoutFuel(d: Dict, jmax: nat, large: real, eps: real)
    ensures d.Valid() && jmax < d.width && eps >= 0.0 ==> Walked(d, jmax, large, eps, 0) == (d, Going)
  {
    hide Dict.Valid;
  }

  lemma NextIsValid(d: Dict, p: nat, j: nat)
    requires d.Valid() && 1 <= p <= d.m && 1 <= j < d.width && d.T(p, j) > 0.0 && d.row[j] == 0
    ensures 0 <= d.col[p] < d.width
    ensures Pivot(d, p, j).Valid() && Pivot(d, p, j).m == d.m && Pivot(d, p, j).width == d.width
    ensures Pivot(d, p, j).a == d.a
  {
    hide Dict.T, Dict.Nonsingular, Dict.UnitColumns, Pivot;
    PivotKeepsValid(d, p, j);
    PivotKeepsShape(d, p, j);
  }

  // ---------------------------------------------------------------- minimize() follows the path

  lemma {:induction false} EnteringIs(d: Dict, k: nat, j: nat, jmax: nat, eps: real)
    requires d.Sized() && jmax < d.width && 1 <= k <= j <= jmax + 1 && NoNegativeCost(d, j - 1, eps)
    requires j <= jmax ==> d.row[j] == 0 && d.T(0, j) < -eps
    ensures Entering(d, k, jmax, eps) == j
    decreases j - k
  {
    hide Dict.T;
    if k < j {
      EnteringIs(d, k + 1, j, jmax, eps);
    }
  }

  lemma {:induction false} LeavingIsFirst(d: Dict, j: nat, p: nat, i: nat, eps: real)
    requires d.Sized() && j < d.width && 1 <= p <= i <= d.m && d.T(p, j) > eps >= 0.0
    requires forall k :: 1 <= k <= i && d.T(k, j) > eps ==> d.T(p, 0) / d.T(p, j) <= d.T(k, 0) / d.T(k, j)
    requires forall k :: 1 <= k < p && d.T(k, j) > eps ==> d.T(p, 0) / d.T(p, j) < d.T(k, 0) / d.T(k, j)
    ensures Leaving(d, j, i, eps) == p
  {
    hide Dict.T;
    if p < i {
      LeavingIsFirst(d, j, p, i - 1, eps);
    }
  }

  // The row the ratio test finds is the one of the path, unless its ratio is not below large.
  lemma RatioTestLeaves(d: Dict, pc: Vec, j: nat, p: nat, u: real, large: real, eps: real)
    requires d.Valid() && d.col[0] == 0 && 1 <= j < d.width && IsColumn(d, pc, j, d.m + 1)
    requires Best(d, pc, d.m + 1, p, u, eps, large)
    ensures var l := Leaving(d, j, d.m, eps);
      if p > 0 then l == p && d.T(p, 0) / d.T(p, j) < large else l > 0 ==> d.T(l, 0) / d.T(l, j) >= large
  {
    hide Dict.T, Dict.UnitColumns, Dict.Nonsingular, Leaving;
    assert forall i :: 0 <= i <= d.m ==> Shown(d, i, j) == d.T(i, j) && Shown(d, i, 0) == d.T(i, 0);
    if p > 0 {
      LeavingIsFirst(d, j, p, d.m, eps);
    }
  }

  // The path from d0 and its continuation from d.
  ghost predicate SamePath(d0: Dict, fuel0: nat, d: Dict, fuel: nat, jmax: nat, large: real, eps: real) {
    eps >= 0.0 && d0.Valid() && jmax < d0.width ==>
      d.Valid() && d.width == d0.width && Walked(d0, jmax, large, eps, fuel0) == Walked(d, jmax, large, eps, fuel)
  }

  lemma PathStarts(d: Dict, fuel: nat, jmax: nat, large: real, eps: real)
    ensures SamePath(d, fuel, d, fuel, jmax, large, eps)
  {
    hide Walked, Dict.Valid;
  }

  lemma PathTurns(d0: Dict, fuel0: nat, d: Dict, fuel: nat, e: Dict, pc: Vec, j: nat, p: nat, u: real,
      jmax: nat, large: real, eps: real)
    requires SamePath(d0, fuel0, d, fuel, jmax, large, eps) && fuel > 0 && d.Sized()
    requires |d.col| > 0 && d.col[0] == 0 && 1 <= j <= jmax < d.width
    requires NoNegativeCost(d, j - 1, eps) && d.row[j] == 0 && d.T(0, j) < -eps && p > 0
    requires IsColumn(d, pc, j, d.m + 1) && Best(d, pc, d.m + 1, p, u, eps, large) && IsStep(d, e, pc, p, j)
    ensures SamePath(d0, fuel0, e, fuel - 1, jmax, large, eps)
  {
    hide Dict.T, PivotQ, PivotColumn, IsColumn, Best, Entering, Leaving, Dict.UnitColumns, Dict.Nonsingular;
    if eps >= 0.0 && d0.Valid() && jmax < d0.width {
      EnteringIs(d, 1, j, jmax, eps);
      RatioTestLeaves(d, pc, j, p, u, large, eps);
      BestIsMinRatio(d, pc, j, p, u, eps, large);
      NextIsValid(d, p, j);
      assert e == Pivot(d, p, j);
      PathUnfolds(d, j, p, jmax, large, eps, fuel);
    }
  }

  lemma PathUnfolds(d: Dict, j: nat, p: nat, jmax: nat, large: real, eps: real, fuel: nat)
    requires d.Valid() && jmax < d.width && eps >= 0.0 && fuel > 0 && 1 <= j <= jmax && Entering(d, 1, jmax, eps) == j
    requires Leaving(d, j, d.m, eps) == p > 0 && d.T(p, 0) / d.T(p, j) < large
    ensures d.row[j] == 0 && 0 <= d.col[p] < d.width && Pivot(d, p, j).Valid() && Pivot(d, p, j).width == d.width
    ensures Walked(d, jmax, large, eps, fuel) == Walked(Pivot(d, p, j), jmax, large, eps, fuel - 1)
  {
    hide Dict.T, Pivot, Dict.Valid, Entering, Leaving;
    NextIsValid(d, p, j);
  }

  // How the path ends where minimize() does: done when no variable enters, or stuck when it finds no
  // row for variable j.
  ghost function StopOf(d: Dict, done: bool, stuck: bool, j: nat, eps: real): Stop
    requires d.Sized() && (stuck ==> j < d.width)
  {
    if done then Done
    else if !stuck then Going
    else if forall i :: 1 <= i <= d.m ==> d.T(i, j) <= eps then Free
    else Cut
  }

  // Where minimize() ends the path from d0 ends.
  ghost predicate PathEnds(d0: Dict, fuel0: nat, d: Dict, jmax: nat, large: real, eps: real,
                           done: bool, stuck: bool, j: nat) {
    eps >= 0.0 && d0.Valid() && jmax < d0.width ==>
      && d.Valid() && d.width == d0.width && (stuck ==> j < d.width)
      && Walked(d0, jmax, large, eps, fuel0) == (d, StopOf(d, done, stuck, j, eps))
  }

  lemma PathIsDone(d0: Dict, fuel0: nat, d: Dict, fuel: nat, jmax: nat, large: real, eps: real, done: bool)
    requires SamePath(d0, fuel0, d, fuel, jmax, large, eps) && d.Sized()
    requires if done then fuel > 0 && NoNegativeCost(d, jmax, eps) else fuel == 0
    ensures PathEnds(d0, fuel0, d, jmax, large, eps, done, false, 0)
  {
    hide Dict.T, Dict.UnitColumns, Dict.Nonsingular, Entering, Leaving;
    if eps >= 0.0 && d0.Valid() && jmax < d0.width && done {
      EnteringIs(d, 1, jmax + 1, jmax, eps);
    }
  }

  lemma PathIsStuck(d0: Dict, fuel0: nat, d: Dict, fuel: nat, pc: Vec, j: nat, u: real,
      jmax: nat, large: real, eps: real)
    requires SamePath(d0, fuel0, d, fuel, jmax, large, eps) && fuel > 0 && d.Sized()
    requires |d.col| > 0 && d.col[0] == 0 && 1 <= j <= jmax < d.width
    requires NoNegativeCost(d, j - 1, eps) && d.row[j] == 0 && d.T(0, j) < -eps
    requires IsColumn(d, pc, j, d.m + 1) && Best(d, pc, d.m + 1, 0, u, eps, large)
    ensures PathEnds(d0, fuel0, d, jmax, large, eps, false, true, j)
  {
    hide Dict.T, IsColumn, Best, Entering, Dict.UnitColumns, Dict.Nonsingular;
    if eps >= 0.0 && d0.Valid() && jmax < d0.width {
      EnteringIs(d, 1, j, jmax, eps);
      RatioTestLeaves(d, pc, j, 0, u, large, eps);
      hide Leaving;
    }
  }

  // ---------------------------------------------------------------- the loop of minimize()

  // The program is in state v, and in state d of the problem without the constraints gone, where it
  // follows the path from start.
  ghost predicate Follows(pr: Problem, gone: set<nat>, start: Dict, fuel0: nat, d: Dict, fuel: nat, v: Dict,
                          jmax: nat, large: real, eps: real) {
    && Shadows(pr, gone, d, v) && start.Valid() && Advanced(start, d, jmax, eps)
    && SamePath(start, fuel0, d, fuel, jmax, large, eps)
    && jmax <= pr.n3 && (jmax <= pr.n2 || gone == {}) && eps >= 0.0
  }

  lemma FollowsFirst(pr: Problem, gone: set<nat>, d: Dict, fuel: nat, v: Dict, jmax: nat, large: real, eps: real)
    requires Shadows(pr, gone, d, v) && d.Valid() && jmax <= pr.n3 && (jmax <= pr.n2 || gone == {}) && eps >= 0.0
    ensures Follows(pr, gone, d, fuel, d, fuel, v, jmax, large, eps)
  {
    hide Shadows, Advanced, SamePath, Dict.Valid;
    ShadowsShape(pr, gone, d, v);
    NotAdvanced(d, jmax, eps);
    PathStarts(d, fuel, jmax, large, eps);
  }

  lemma FollowsIs(pr: Problem, gone: set<nat>, start: Dict, fuel0: nat, d: Dict, fuel: nat, v: Dict,
      jmax: nat, large: real, eps: real)
    requires Follows(pr, gone, start, fuel0, d, fuel, v, jmax, large, eps)
    ensures Shadows(pr, gone, d, v) && Advanced(start, d, jmax, eps)
    ensures d.Valid() && d.m == v.m == pr.m && d.width == v.width == pr.n3 + 1
  {
    hide Shadows, Advanced, SamePath, Dict.Valid;
    ShadowsShape(pr, gone, d, v);
    AdvancedKeeps(start, d, jmax, eps);
  }

  // No variable enters (done), or the fuel is used up.
  lemma FollowsToEnd(pr: Problem, gone: set<nat>, start: Dict, fuel0: nat, d: Dict, fuel: nat, v: Dict,
      jmax: nat, large: real, eps: real, done: bool)
    requires Follows(pr, gone, start, fuel0, d, fuel, v, jmax, large, eps) && v.Sized()
    requires if done then fuel > 0 && NoNegativeCost(v, jmax, eps) else fuel == 0
    ensures d.Sized() && (done ==> NoNegativeCost(d, jmax, eps))
    ensures PathEnds(start, fuel0, d, jmax, large, eps, done, false, 0)
  {
    FollowsIs(pr, gone, start, fuel0, d, fuel, v, jmax, large, eps);
    ShadowsShape(pr, gone, d, v);
    hide Shadows, Advanced, SamePath, Dict.Valid, NoNegativeCost, PathEnds;
    if done {
      CostsMatch(pr, gone, d, v, jmax, eps);
    }
    PathIsDone(start, fuel0, d, fuel, jmax, large, eps, done);
  }

  // No row stops variable j.
  lemma FollowsUntilStuck(pr: Problem, gone: set<nat>, start: Dict, fuel0: nat, d: Dict, fuel: nat, v: Dict,
      pc: Vec, j: nat, u: real, jmax: nat, large: real, eps: real)
    requires Follows(pr, gone, start, fuel0, d, fuel, v, jmax, large, eps) && fuel > 0 && v.Sized()
    requires 1 <= j <= jmax < v.width && NoNegativeCost(v, j - 1, eps) && v.row[j] == 0 && v.T(0, j) < -eps
    requires IsColumn(v, pc, j, v.m + 1) && Best(v, pc, v.m + 1, 0, u, eps, large)
    ensures d.Sized() && j < d.width && d.row[j] == 0 && eps >= 0.0 && Escapes(d, j, eps, large)
    ensures PathEnds(start, fuel0, d, jmax, large, eps, false, true, j)
  {
    FollowsIs(pr, gone, start, fuel0, d, fuel, v, jmax, large, eps);
    ShadowsShape(pr, gone, d, v);
    hide Shadows, Advanced, SamePath, Dict.Valid, NoNegativeCost, PathEnds, IsColumn, Best, Dict.T, Escapes;
    CostsMatch(pr, gone, d, v, j - 1, eps);
    ChoiceMatches(pr, gone, d, v, pc, j, 0, u, eps, large);
    BestIsEscape(d, pc, j, u, eps, large);
    PathIsStuck(start, fuel0, d, fuel, pc, j, u, jmax, large, eps);
  }

  // One pivot.
  lemma FollowsStep(pr: Problem, gone: set<nat>, start: Dict, fuel0: nat, d: Dict, fuel: nat, v: Dict, w: Dict,
      pc: Vec, j: nat, p: nat, u: real, jmax: nat, large: real, eps: real) returns (e: Dict)
    requires Follows(pr, gone, start, fuel0, d, fuel, v, jmax, large, eps) && fuel > 0 && v.Sized()
    requires 1 <= j <= jmax < v.width && NoNegativeCost(v, j - 1, eps) && v.row[j] == 0 && v.T(0, j) < -eps
    requires IsColumn(v, pc, j, v.m + 1) && 1 <= p <= v.m && Best(v, pc, v.m + 1, p, u, eps, large)
    requires v.col[p] >= 0 && IsStep(v, w, pc, p, j) && w.FirstColumn()
    ensures Follows(pr, gone, start, fuel0, e, fuel - 1, w, jmax, large, eps)
  {
    FollowsIs(pr, gone, start, fuel0, d, fuel, v, jmax, large, eps);
    ShadowsShape(pr, gone, d, v);
    hide Shadows, Advanced, SamePath, Dict.Valid, NoNegativeCost, IsColumn, Best, Dict.T, IsStep, PivotQ;
    CostsMatch(pr, gone, d, v, j - 1, eps);
    ChoiceMatches(pr, gone, d, v, pc, j, p, u, eps, large);
    StepIsSized(v, w, pc, p, j);
    StepMatches(pr, gone, d, v, w, pc, p, j);
    e := Pivoted(d, pc, p, j);
    StepAdvances(start, d, e, pc, j, p, u, jmax, eps, large);
    PathTurns(start, fuel0, d, fuel, e, pc, j, p, u, jmax, large, eps);
  }

  lemma StepIsSized(v: Dict, w: Dict, pc: Vec, p: nat, j: nat)
    requires IsStep(v, w, pc, p, j)
    ensures v.Sized() && |pc| == v.m + 1 && 1 <= p <= v.m && 1 <= j < v.width && pc[p] != 0.0 && 0 <= v.col[p] < v.width
  {
  }

  // ---------------------------------------------------------------- vertices below large

  // When the vertices stay below large, so do all ratios of the path.
  lemma {:induction false} VerticesMakeShort(pr: Problem, d: Dict, jmax: nat, large: real, fuel: nat)
    requires pr.Sized() && VerticesBelow(pr, large)
    requires d.Valid() && d.Feasible() && d.m == pr.m && d.width == pr.n3 + 1 && jmax < d.width
    requires forall i :: 1 <= i <= pr.m ==> d.a[i] == pr.Extended()[i]
    ensures ShortSteps(d, jmax, large, 0.0, fuel)
    decreases fuel
  {
    hide Dict.T, Dict.Nonsingular, Dict.UnitColumns, Dot, Problem.Extended, Pivot, VerticesBelow, Entering, Leaving;
    if fuel > 0 {
      var j := Entering(d, 1, jmax, 0.0);
      if j <= jmax {
        var p := Leaving(d, j, d.m, 0.0);
        if p > 0 {
          NextIsValid(d, p, j);
          PivotKeepsFeasible(d, p, j);
          RatioIsComponent(pr, d, p, j, large);
          VerticesMakeShort(pr, Pivot(d, p, j), jmax, large, fuel - 1);
        }
      }
    }
  }

  // A pivot on the smallest ratio leads to a vertex that has the ratio as a component.
  lemma RatioIsComponent(pr: Problem, d: Dict, p: nat, j: nat, large: real)
    requires pr.Sized() && VerticesBelow(pr, large)
    requires d.Valid() && d.Feasible() && d.m == pr.m && d.width == pr.n3 + 1
    requires forall i :: 1 <= i <= pr.m ==> d.a[i] == pr.Extended()[i]
    requires 1 <= p <= d.m && 1 <= j <= pr.n3 && d.row[j] == 0 && MinRatio(d, p, j)
    ensures d.T(p, 0) / d.T(p, j) < large
  {
    hide Dict.T, Dict.Nonsingular, Dict.UnitColumns, Dot, Problem.Extended, Pivot, Vertex;
    NextIsValid(d, p, j);
    PivotKeepsFeasible(d, p, j);
    var e := Pivot(d, p, j);
    PivotTableau(d, p, j, p, 0);
    BasicIsVertex(pr, e);
    PivotBasis(d, p, j);
    assert BasicSolution(e)[j] == d.T(p, 0) / d.T(p, j);
  }

  lemma PivotBasis(d: Dict, p: nat, j: nat)
    requires d.Sized() && 1 <= p <= d.m && 1 <= j < d.width && d.T(p, j) != 0.0 && 0 <= d.col[p] < d.width
    ensures |Pivot(d, p, j).row| == d.width && Pivot(d, p, j).row[j] == p
  {
    hide Dict.T, PivotQ, PivotColumn;
  }

  // ---------------------------------------------------------------- phase 1

  // Where phase 1 starts.
  ghost predicate Started(pr: Problem, d: Dict)
    requires pr.Sized()
  {
    && d == State(pr, d.q, d.col, d.row) && StartBasis(pr, d.col, d.row) && StartMatrix(pr, d.q, d.col)
    && d.col[0] == 0 && d.row[0] == 0
  }

  lemma StartedIsValid(pr: Problem, d: Dict)
    requires pr.Sized() && Started(pr, d)
    ensures d.Valid() && d.Sized() && d.m == pr.m && d.width == pr.n3 + 1 && |d.col| == pr.m + 1
  {
    hide StartBasis, StartMatrix, Dict.T, Dict.Nonsingular, Dict.UnitColumns;
    StartIsValid(pr, d.q, d.col, d.row);
  }

  lemma StartIsUnique(pr: Problem, d: Dict, e: Dict)
    requires pr.Sized() && Started(pr, d) && Started(pr, e)
    ensures d == e
  {
    hide Problem.Extended;
    assert d.row == e.row;
    assert d.col == e.col by {
      forall i | 1 <= i <= pr.m
        ensures d.col[i] == e.col[i]
      {
        assert d.col[pr.nz[e.col[i]]] == e.col[i];
      }
    }
    forall i | 0 <= i <= pr.m
      ensures d.q[i] == e.q[i]
    {
      assert forall k :: 0 <= k <= pr.m ==> d.q[i][k] == StartEntry(pr, d.col, i, k) == e.q[i][k];
    }
    assert d.q == e.q;
  }

  // All pivots of phase 1 have ratios below large.
  ghost predicate PhaseOneShort(pr: Problem, large: real, eps: real, fuel: nat)
    requires pr.Sized() && eps >= 0.0
  {
    forall d :: Started(pr, d) && d.Valid() ==> ShortSteps(d, pr.n3, large, eps, fuel)
  }

  // How the path of phase 1 ends.
  ghost predicate PhaseOneStops(pr: Problem, large: real, eps: real, fuel: nat, stop: Stop)
    requires pr.Sized() && eps >= 0.0
  {
    forall d :: Started(pr, d) && d.Valid() ==> Walked(d, pr.n3, large, eps, fuel).1 == stop
  }

  lemma PhaseOneShortIs(pr: Problem, d: Dict, large: real, eps: real, fuel: nat)
    requires pr.Sized() && eps >= 0.0 && Started(pr, d)
    ensures d.Valid() && d.width == pr.n3 + 1
    ensures PhaseOneShort(pr, large, eps, fuel) <==> ShortSteps(d, pr.n3, large, eps, fuel)
    ensures forall stop :: PhaseOneStops(pr, large, eps, fuel, stop) <==> Walked(d, pr.n3, large, eps, fuel).1 == stop
  {
    hide Walked, Started, Dict.Valid;
    StartedIsValid(pr, d);
    forall e | Started(pr, e) && e.Valid()
      ensures e == d
    {
      StartIsUnique(pr, d, e);
    }
  }

  // Vertices below large: a condition on the constraints that keeps phase 1 from being cut short.
  lemma VerticesKeepPhaseOneShort(pr: Problem, large: real, fuel: nat)
    requires pr.Sized() && VerticesBelow(pr, large) && forall i :: 1 <= i <= pr.m ==> pr.a[i][0] >= 0.0
    ensures PhaseOneShort(pr, large, 0.0, fuel)
  {
    hide ShortSteps, StartBasis, StartMatrix, Dict.Valid, Dict.T, VerticesBelow, Problem.Extended;
    forall d | Started(pr, d) && d.Valid()
      ensures ShortSteps(d, pr.n3, large, 0.0, fuel)
    {
      StartedIsValid(pr, d);
      StartIsFeasible(pr, d.q, d.col, d.row);
      VerticesMakeShort(pr, d, pr.n3, large, fuel);
    }
  }

  // A column of phase 1 with a negative reduced cost is stopped by some row; where that row is not
  // found because of large, entry (0, 0) is negative.
  lemma PhaseOneStuck(pr: Problem, d: Dict, j: nat, large: real)
    requires pr.Sized() && NoCost(pr)
    requires d.Valid() && d.Feasible() && d.m == pr.m && d.width == pr.n3 + 1 && d.a == pr.Extended()
    requires 1 <= j <= pr.n3 && d.row[j] == 0 && Escapes(d, j, 0.0, large)
    ensures exists i :: 1 <= i <= d.m && d.T(i, j) > 0.0
    ensures large > 0.0 ==> d.T(0, 0) < 0.0
  {
    hide Dict.T, Dict.Nonsingular, Dict.UnitColumns, Dot, Problem.Extended;
    var base, slope := -d.T(0, 0), d.T(0, j);
    if forall i :: 1 <= i <= d.m ==> d.T(i, j) <= 0.0 {
      var theta := FallsBelow(base, slope);
      RayStays(pr, d, j, theta, theta);
    }
    if large > 0.0 && d.T(0, 0) >= 0.0 {
      RayStays(pr, d, j, large, large);
      Falling(large, slope);
    }
  }

  lemma Falling(theta: real, slope: real)
    requires theta > 0.0 && slope < 0.0
    ensures theta * slope < 0.0
  {
  }

  // Moving along an escaping column keeps the sum of the artificial variables nonnegative.
  lemma RayStays(pr: Problem, d: Dict, j: nat, theta: real, large: real)
    requires pr.Sized() && NoCost(pr) && 0.0 <= theta <= large
    requires d.Valid() && d.Feasible() && d.m == pr.m && d.width == pr.n3 + 1 && d.a == pr.Extended()
    requires 1 <= j <= pr.n3 && d.row[j] == 0
    requires forall i :: 1 <= i <= d.m && d.T(i, j) > 0.0 ==> d.T(i, 0) / d.T(i, j) >= large
    ensures -d.T(0, 0) + theta * d.T(0, j) >= 0.0
  {
    hide Dict.T, Dict.Nonsingular, Dict.UnitColumns, Dot, Problem.Extended;
    forall i | 1 <= i <= d.m
      ensures theta * d.T(i, j) <= d.T(i, 0)
    {
      EscapeRatio(d.T(i, 0), d.T(i, j), theta, large);
    }
    UnboundedRay(d, j, theta);
    ArtificialSum(pr, Shifted(d, j, theta));
  }

  lemma FallsBelow(base: real, slope: real) returns (theta: real)
    requires slope < 0.0
    ensures theta >= 0.0 && base + theta * slope < 0.0
  {
    theta := if base < 0.0 then 0.0 else (base + 1.0) / (0.0 - slope);
    if base >= 0.0 {
      assert theta * (0.0 - slope) == base + 1.0;
      assert theta * slope == -(base + 1.0);
    }
  }

  // Without artificial variables there is nothing to minimize.
  lemma NoArtificialEnds(pr: Problem, d: Dict, large: real, eps: real, fuel: nat)
    requires pr.Sized() && eps >= 0.0 && NoCost(pr) && pr.n3 == pr.n2 && Started(pr, d)
    ensures d.Valid() && d.width == pr.n3 + 1
    ensures Walked(d, pr.n3, large, eps, fuel) == (d, if fuel == 0 then Going else Done)
  {
    hide Dict.T, Dict.Valid, Started, Dot, Entering, Leaving, Problem.Extended, Problem.Entry, Pivot;
    StartedIsValid(pr, d);
    NoCostAtStart(pr, d);
    WiderBound(d, pr.n3, eps);
    EnteringIs(d, 1, pr.n3 + 1, pr.n3, eps);
  }

  lemma WiderBound(d: Dict, jmax: nat, eps: real)
    requires d.Sized() && NoNegativeCost(d, jmax, 0.0) && eps >= 0.0
    ensures NoNegativeCost(d, jmax, eps)
  {
    hide Dict.T;
  }

  lemma NoCostAtStart(pr: Problem, d: Dict)
    requires pr.Sized() && NoCost(pr) && pr.n3 == pr.n2 && Started(pr, d) && d.Valid() && d.width == pr.n3 + 1
    ensures NoNegativeCost(d, pr.n3, 0.0)
  {
    hide Dict.T, Dict.Valid, Started;
    StartedIsValid(pr, d);
    forall j | 1 <= j <= pr.n3
      ensures d.T(0, j) >= 0.0
    {
      StartCost(pr, d, j);
    }
  }

  // So phase 1 is not cut short and gives up nothing.
  lemma NoArtificialStays(pr: Problem, large: real, eps: real, fuel: nat)
    requires pr.Sized() && eps >= 0.0 && NoCost(pr) && pr.n3 == pr.n2
    ensures PhaseOneShort(pr, large, eps, fuel) && PhaseOneGivesUp(pr, large, eps, fuel, {})
  {
    hide Walked, StartBasis, StartMatrix, Dict.Valid;
    forall d | Started(pr, d) && d.Valid()
      ensures Walked(d, pr.n3, large, eps, fuel) == (d, if fuel == 0 then Going else Done)
      ensures GivenUp(pr, d.col, pr.m, {})
    {
      StartedIsValid(pr, d);
      NoArtificialEnds(pr, d, large, eps, fuel);
    }
  }

  lemma StartCost(pr: Problem, d: Dict, j: nat)
    requires pr.Sized() && NoCost(pr) && pr.n3 == pr.n2 && Started(pr, d) && d.Valid() && 1 <= j <= pr.n3
    ensures d.T(0, j) == 0.0
  {
    hide Dot;
    var v := Column(pr.Extended(), pr.m + 1, pr.n3 + 1, j);
    forall k | 1 <= k <= pr.m
      ensures d.q[0][k] == 0.0
    {
      assert d.q[0][k] == StartEntry(pr, d.col, 0, k) && d.col[k] <= pr.n2;
    }
    DotUnit(d.q[0], v, 0, pr.m + 1);
  }

  // gone are the constraints that are given up after phase 1.
  ghost predicate PhaseOneGivesUp(pr: Problem, large: real, eps: real, fuel: nat, gone: set<nat>)
    requires pr.Sized() && eps >= 0.0
  {
    forall d :: Started(pr, d) && d.Valid() ==> GivenUp(pr, Walked(d, pr.n3, large, eps, fuel).0.col, pr.m, gone)
  }

  lemma PhaseOneGivesUpIs(pr: Problem, d: Dict, large: real, eps: real, fuel: nat, e: Dict, gone: set<nat>,
      done: bool, stuck: bool, j: nat)
    requires pr.Sized() && eps >= 0.0 && Started(pr, d) && PathEnds(d, fuel, e, pr.n3, large, eps, done, stuck, j)
    ensures PhaseOneGivesUp(pr, large, eps, fuel, gone) <==> GivenUp(pr, e.col, pr.m, gone)
  {
    hide Walked, Started, Dict.Valid, GivenUp, Dict.T;
    StartedIsValid(pr, d);
    forall e | Started(pr, e) && e.Valid()
      ensures e == d
    {
      StartIsUnique(pr, d, e);
    }
  }

  // The artificial components of the basic solution, added up.
  function LastPart(x: Vec, from: nat, k: nat): real
    requires k <= |x|
  {
    if k <= from + 1 then 0.0 else LastPart(x, from, k - 1) + x[k - 1]
  }

  ghost function ArtificialPart(pr: Problem, d: Dict): real
    requires pr.Sized() && d.Valid() && d.width == pr.n3 + 1
  {
    LastPart(BasicSolution(d), pr.n2, pr.n3 + 1)
  }

  lemma {:induction false} DotOfOnes(e: Vec, x: Vec, from: nat, k: nat)
    requires k <= |e| && k <= |x| && forall j :: 0 <= j < k ==> e[j] == if j <= from then 0.0 else 1.0
    ensures Dot(e, x, k) == LastPart(x, from, k)
  {
    if k > 0 {
      DotOfOnes(e, x, from, k - 1);
    }
  }

  // Entry (0, 0) is minus this sum.
  lemma ArtificialPartIs(pr: Problem, d: Dict)
    requires pr.Sized() && NoCost(pr) && d.Valid() && d.m == pr.m && d.width == pr.n3 + 1 && d.a == pr.Extended()
    ensures ArtificialPart(pr, d) == -d.T(0, 0)
  {
    hide Dict.T, Dict.Nonsingular, Dict.UnitColumns, Dot, LastPart, BasicSolution;
    var e := pr.Extended()[0];
    assert forall j :: 0 <= j <= pr.n3 ==> e[j] == if j <= pr.n2 then 0.0 else 1.0;
    hide Problem.Extended, Problem.Entry;
    BasicSolves(d);
    DotOfOnes(e, BasicSolution(d), pr.n2, pr.n3 + 1);
  }

  // At the end of an optimal phase 1 every point that satisfies the constraints has components that
  // add up, times eps, to at least the artificial part.
  lemma ArtificialPartBound(pr: Problem, d: Dict, eps: real, y: Vec)
    requires pr.Prepared() && NoCost(pr) && d == State(pr, d.q, d.col, d.row) && d.Valid() && eps >= 0.0
    requires NoNegativeCost(d, pr.n3, eps) && Satisfies(pr, y)
    ensures ArtificialPart(pr, d) <= eps * Tail(WithSlack(pr, y), pr.n3 + 1)
  {
    hide Dict.T, Dot, Problem.Added, Problem.Extended, Dict.UnitColumns, Dict.Nonsingular, Nonnegative, Tail,
      ArtificialPart;
    SatisfyingSolves(pr, d.q, d.col, d.row, y);
    OptimalBound(d, WithSlack(pr, y), pr.n3, eps);
    NoCostExcess(pr, y);
    ArtificialPartIs(pr, d);
  }

  // Phase 1 ends with artificial variables that add up to more than eps.
  ghost predicate PhaseOneRejects(pr: Problem, large: real, eps: real, fuel: nat)
    requires pr.Sized() && eps >= 0.0
  {
    forall d :: Started(pr, d) && d.Valid() ==> ArtificialPart(pr, Walked(d, pr.n3, large, eps, fuel).0) > eps
  }

  // Where minimize() ends the path of phase 1 ends.
  lemma PhaseOneEnds(pr: Problem, d0: Dict, d: Dict, large: real, eps: real, fuel: nat, done: bool, stuck: bool, j: nat)
    requires pr.Sized() && eps >= 0.0 && NoCost(pr) && Started(pr, d0) && d.m == pr.m && d.a == pr.Extended()
    requires d.Valid() && d.width == pr.n3 + 1 && !(done && stuck)
    requires PathEnds(d0, fuel, d, pr.n3, large, eps, done, stuck, j)
    ensures PhaseOneStops(pr, large, eps, fuel, Done) <==> done
    ensures PhaseOneStops(pr, large, eps, fuel, Going) <==> !done && !stuck
    ensures PhaseOneRejects(pr, large, eps, fuel) <==> d.T(0, 0) < -eps
  {
    hide Walked, Started, Dict.Valid, Dict.T, ArtificialPart, Problem.Extended;
    StartedIsValid(pr, d0);
    PhaseOneShortIs(pr, d0, large, eps, fuel);
    ArtificialPartIs(pr, d);
    forall e | Started(pr, e) && e.Valid()
      ensures e == d0
    {
      StartIsUnique(pr, d0, e);
    }
  }

  // Without artificial variables nothing is rejected.
  lemma NothingRejected(pr: Problem, d: Dict, large: real, eps: real, fuel: nat)
    requires pr.Sized() && pr.n3 == pr.n2 && eps >= 0.0 && Started(pr, d)
    ensures !PhaseOneRejects(pr, large, eps, fuel)
  {
    hide Walked, Started, Dict.Valid, BasicSolution;
    StartedIsValid(pr, d);
  }

  // Every point that satisfies the constraints has components that add up to more than 1, or there is
  // none where eps is 0.
  ghost predicate FarAway(pr: Problem, eps: real)
    requires pr.Sized()
  {
    forall y :: Satisfies(pr, y) ==> eps < eps * Tail(WithSlack(pr, y), pr.n3 + 1)
  }

  // So phase 1 rejects only constraints far away, where it ends because no variable enters.
  lemma RejectedIsFar(pr: Problem, d: Dict, eps: real)
    requires pr.Prepared() && NoCost(pr) && d == State(pr, d.q, d.col, d.row) && d.Valid() && eps >= 0.0
    requires NoNegativeCost(d, pr.n3, eps) && d.T(0, 0) < -eps
    ensures FarAway(pr, eps)
  {
    hide Dict.T, Dict.Valid, Satisfies, WithSlack, Tail, Problem.Added, Problem.Extended, NoCost, ArtificialPart;
    ArtificialPartIs(pr, d);
    forall y | Satisfies(pr, y)
      ensures |y| == pr.n + 1 && eps < eps * Tail(WithSlack(pr, y), pr.n3 + 1)
    {
      SatisfiesSize(pr, y);
      ArtificialPartBound(pr, d, eps, y);
    }
  }

  lemma SatisfiesSize(pr: Problem, y: Vec)
    requires pr.Sized() && Satisfies(pr, y)
    ensures |y| == pr.n + 1
  {
  }

  // In the given variables.
  lemma FarPoints(pr: Problem, rows: seq<Vec>, rels: seq<Relation>, n0: nat, eps: real)
    requires pr.Sized() && |rows| == |rels| && Loaded(pr, rows, rels, n0) && FarAway(pr, eps)
    ensures pr.n >= 1 && OutOfReach(pr, rows, rels, eps)
  {
    DroppedShape(pr, {});
    hide Dropped, Satisfies, AdmissibleBut, Lift, Drop, Shift, WithSlack, Tail, LoadedRow, LoadedRelation;
    forall x | |x| == pr.n && Admissible(rows, rels, x)
      ensures eps < eps * Components(pr, {}, x)
    {
      AdmissibleShape(rows, rels, {}, x);
      LiftDrops(x);
      LoadedMeets(pr, rows, rels, n0, {}, Lift(x, Shift(x, |x|)));
    }
  }

  // What the end of phase 1 says about the constraints.
  lemma PhaseOneVerdict(pr: Problem, d0: Dict, d: Dict, large: real, fuel: nat, done: bool, stuck: bool, j: nat)
    requires pr.Prepared() && NoCost(pr) && Started(pr, d0) && d == State(pr, d.q, d.col, d.row)
    requires d.Valid() && d.Feasible() && PathEnds(d0, fuel, d, pr.n3, large, 0.0, done, stuck, j) && !(done && stuck)
    requires done ==> NoNegativeCost(d, pr.n3, 0.0)
    requires stuck ==> 1 <= j <= pr.n3 && d.row[j] == 0 && Escapes(d, j, 0.0, large)
    ensures d.T(0, 0) >= 0.0 ==> Satisfiable(pr)
    ensures done ==> (d.T(0, 0) >= 0.0 <==> Satisfiable(pr))
    ensures stuck ==> StopOf(d, done, stuck, j, 0.0) == Cut
    ensures stuck <==> !PhaseOneShort(pr, large, 0.0, fuel)
    ensures stuck && large > 0.0 ==> d.T(0, 0) < 0.0
  {
    hide Walked, Started, Dict.T, Dict.Inverse, Dict.UnitColumns, Dict.Nonsingular, Dict.FirstColumn, Problem.Added,
      Problem.Extended, Escapes, Satisfiable, NoCost, PhaseOneShort, NoNegativeCost, Dict.Feasible, Problem.Sized;
    PhaseOneShortIs(pr, d0, large, 0.0, fuel);
    if d.T(0, 0) >= 0.0 {
      PhaseOneAccepts(pr, d.q, d.col, d.row);
    }
    if done {
      PhaseOneDecides(pr, d.q, d.col, d.row);
    }
    if stuck {
      PhaseOneStuck(pr, d, j, large);
    }
  }

  // ---------------------------------------------------------------- phase 2

  // s is a start of phase 1 from which it walks to the basis of d.
  ghost predicate EndsInBasis(pr: Problem, large: real, eps: real, fuel: nat, s: Dict, d: Dict)
    requires pr.Sized() && eps >= 0.0
  {
    Started(pr, s) && s.Valid() && var e := Walked(s, pr.n3, large, eps, fuel).0; d.col == e.col && d.row == e.row
  }

  // Where phase 2 starts: in the basis phase 1 walks to, with the costs c and without the
  // constraints gone.
  ghost predicate PhaseTwoStart(pr: Problem, c: Vec, gone: set<nat>, large: real, eps: real, fuel: nat, d: Dict)
    requires pr.Sized() && |c| == pr.n + 1 && eps >= 0.0
  {
    && d == State(Dropped(WithCost(pr, c), gone), d.q, d.col, d.row) && d.Valid()
    && exists s :: EndsInBasis(pr, large, eps, fuel, s, d)
  }

  lemma PhaseTwoStartIs(pr: Problem, c: Vec, gone: set<nat>, large: real, eps: real, fuel: nat, d: Dict)
    requires pr.Sized() && eps >= 0.0 && |c| == pr.n + 1 && PhaseTwoStart(pr, c, gone, large, eps, fuel, d)
    ensures d.Valid() && d.m == pr.m && d.width == pr.n3 + 1
  {
  }

  lemma PhaseTwoStartIsUnique(pr: Problem, c: Vec, gone: set<nat>, large: real, eps: real, fuel: nat, d: Dict, e: Dict)
    requires pr.Sized() && eps >= 0.0 && |c| == pr.n + 1
    requires PhaseTwoStart(pr, c, gone, large, eps, fuel, d) && PhaseTwoStart(pr, c, gone, large, eps, fuel, e)
    ensures d == e
  {
    hide Walked, Started, Dict.Valid, Problem.Extended, Dropped, WithCost;
    var s :| EndsInBasis(pr, large, eps, fuel, s, d);
    var t :| EndsInBasis(pr, large, eps, fuel, t, e);
    StartIsUnique(pr, s, t);
    BasisDetermines(d, e);
  }

  // All pivots of phase 2 have ratios below large.
  ghost predicate PhaseTwoShort(pr: Problem, c: Vec, gone: set<nat>, large: real, eps: real, fuel: nat)
    requires pr.Sized() && |c| == pr.n + 1 && eps >= 0.0
  {
    forall d :: PhaseTwoStart(pr, c, gone, large, eps, fuel, d) ==> ShortSteps(d, pr.n2, large, eps, fuel)
  }

  // How the path of phase 2 ends.
  ghost predicate PhaseTwoStops(pr: Problem, c: Vec, gone: set<nat>, large: real, eps: real, fuel: nat, stop: Stop)
    requires pr.Sized() && |c| == pr.n + 1 && eps >= 0.0
  {
    forall d :: PhaseTwoStart(pr, c, gone, large, eps, fuel, d) ==> Walked(d, pr.n2, large, eps, fuel).1 == stop
  }

  lemma PhaseTwoShortIs(pr: Problem, c: Vec, gone: set<nat>, large: real, eps: real, fuel: nat, d: Dict)
    requires pr.Sized() && eps >= 0.0 && |c| == pr.n + 1 && PhaseTwoStart(pr, c, gone, large, eps, fuel, d)
    ensures d.Valid() && d.width == pr.n3 + 1
    ensures PhaseTwoShort(pr, c, gone, large, eps, fuel) <==> ShortSteps(d, pr.n2, large, eps, fuel)
    ensures forall stop ::
      PhaseTwoStops(pr, c, gone, large, eps, fuel, stop) <==> Walked(d, pr.n2, large, eps, fuel).1 == stop
  {
    PhaseTwoStartIs(pr, c, gone, large, eps, fuel, d);
    hide Walked, PhaseTwoStart, Dict.Valid;
    forall e | PhaseTwoStart(pr, c, gone, large, eps, fuel, e)
      ensures e == d
    {
      PhaseTwoStartIsUnique(pr, c, gone, large, eps, fuel, d, e);
    }
  }

  lemma PhaseTwoStartsAt(pr: Problem, c: Vec, gone: set<nat>, large: real, eps: real, fuel: nat, s: Dict, d: Dict)
    requires pr.Sized() && eps >= 0.0 && |c| == pr.n + 1 && Started(pr, s) && s.Valid() && s.width == pr.n3 + 1
    requires WithCost(pr, c).Sized() && Dropped(WithCost(pr, c), gone).Sized()
    requires d == State(Dropped(WithCost(pr, c), gone), d.q, d.col, d.row) && d.Valid()
    requires var e := Walked(s, pr.n3, large, eps, fuel).0; d.col == e.col && d.row == e.row
    ensures PhaseTwoStart(pr, c, gone, large, eps, fuel, d)
  {
    hide Walked, Dict.Valid, Started, Dropped, WithCost;
    assert EndsInBasis(pr, large, eps, fuel, s, d);
  }

  // The state without the constraints given up, in the basis in which phase 1 ends.
  lemma PhaseTwoStarts(pr: Problem, c: Vec, gone: set<nat>, large: real, eps: real, fuel: nat, s: Dict, end: Dict,
      done: bool, stuck: bool, j: nat, d: Dict)
    requires pr.Sized() && eps >= 0.0 && |c| == pr.n + 1 && Started(pr, s)
    requires PathEnds(s, fuel, end, pr.n3, large, eps, done, stuck, j)
    requires d == State(Dropped(WithCost(pr, c), gone), d.q, d.col, d.row) && d.Valid()
    requires d.col == end.col && d.row == end.row
    ensures PhaseTwoStart(pr, c, gone, large, eps, fuel, d)
  {
    hide Walked, Dict.Valid, Dict.T, Started;
    StartedIsValid(pr, s);
    PhaseTwoStartsAt(pr, c, gone, large, eps, fuel, s, d);
  }

  // Where minimize() ends in phase 2 the path of phase 2 ends.
  lemma PhaseTwoEnds(pr: Problem, c: Vec, gone: set<nat>, large: real, eps: real, fuel: nat, start: Dict, d: Dict,
      done: bool, stuck: bool, j: nat)
    requires pr.Sized() && eps >= 0.0 && |c| == pr.n + 1 && !(done && stuck)
    requires PhaseTwoStart(pr, c, gone, large, eps, fuel, start)
    requires PathEnds(start, fuel, d, pr.n2, large, eps, done, stuck, j)
    ensures start.Valid() && start.width == pr.n3 + 1
    ensures PhaseTwoShort(pr, c, gone, large, eps, fuel) <==> ShortSteps(start, pr.n2, large, eps, fuel)
    ensures forall stop :: PhaseTwoStops(pr, c, gone, large, eps, fuel, stop) ==>
      (done <==> stop == Done) && (stuck <==> stop == Free || stop == Cut)
    ensures fuel == 0 ==> !done && !stuck
  {
    WithoutFuel(start, pr.n2, large, eps);
    hide Walked, PhaseTwoStart, Dict.Valid, Dict.T;
    PhaseTwoShortIs(pr, c, gone, large, eps, fuel, start);
  }

  // At the end of phase 2 the basic solution is nearly optimal.
  lemma PhaseTwoNear(pr: Problem, gone: set<nat>, d: Dict, v: Dict, eps: real)
    requires Shadows(pr, gone, d, v) && d.Valid() && forall i :: 1 <= i <= pr.m ==> v.col[i] <= pr.n2
    requires NoNegativeCost(d, pr.n2, eps) && eps >= 0.0
    ensures Dropped(pr, gone).Sized() && NearOptimum(Dropped(pr, gone), d, eps)
  {
    ShadowsShape(pr, gone, d, v);
    DroppedPrepared(pr, gone);
    DroppedFields(pr, gone);
    LeftoversAreZero(pr, gone, d, v);
    hide Dict.T, Dict.Inverse, Dict.UnitColumns, Dict.Nonsingular, Dict.FirstColumn, Problem.Added, Dropped,
      Problem.Extended, Problem.Sized, RowsMatch, ObjectiveMatches, Settled, NearOptimum;
    NearOptimumIs(Dropped(pr, gone), d.q, d.col, d.row, eps);
  }

  // What the end of phase 2 says about the costs, on the problem without the constraints gone.
  lemma PhaseTwoVerdict(pr: Problem, gone: set<nat>, start: Dict, d: Dict, v: Dict, large: real, fuel: nat,
      done: bool, j: nat)
    requires Shadows(pr, gone, d, v) && d.Valid() && d.Feasible() && forall i :: 1 <= i <= pr.m ==> v.col[i] <= pr.n2
    requires start.Valid() && start.Feasible() && start.m == d.m && start.width == d.width && start.a == d.a
    requires PathEnds(start, fuel, d, pr.n2, large, 0.0, done, !done, j)
    requires done ==> NoNegativeCost(d, pr.n2, 0.0)
    requires !done ==> 1 <= j <= pr.n2 && j < d.width && d.row[j] == 0 && Escapes(d, j, 0.0, large)
    ensures Dropped(pr, gone).Sized()
    ensures done ==> BasicOptimum(Dropped(pr, gone), d)
    ensures !done ==> Unlimited(Dropped(pr, gone), large)
    ensures pr.n2 < start.width && (done ==> ShortSteps(start, pr.n2, large, 0.0, fuel))
    ensures !done && ShortSteps(start, pr.n2, large, 0.0, fuel) ==> NoLowerBound(Dropped(pr, gone))
    ensures VerticesBelow(Dropped(pr, gone), large) ==> ShortSteps(start, pr.n2, large, 0.0, fuel)
  {
    var p := Dropped(pr, gone);
    ShadowsShape(pr, gone, d, v);
    DroppedPrepared(pr, gone);
    DroppedFields(pr, gone);
    LeftoversAreZero(pr, gone, d, v);
    hide Walked, Dict.T, Dict.Inverse, Dict.UnitColumns, Dict.Nonsingular, Dict.FirstColumn, Problem.Added, Dropped,
      Problem.Extended, Problem.Sized, VerticesBelow, RowsMatch, ObjectiveMatches, Settled, Stays, NoLowerBound;
    if VerticesBelow(p, large) {
      VerticesMakeShort(p, start, pr.n2, large, fuel);
    }
    if done {
      OptimumIs(p, d.q, d.col, d.row);
    } else {
      EnteringStays(pr, gone, d, v, j);
      UnlimitedIs(p, d.q, d.col, d.row, j, large);
      if ShortSteps(start, pr.n2, large, 0.0, fuel) {
        NoBound(p, d.q, d.col, d.row, j);
      }
    }
  }
}
