// Three inputs for which the answer of solve_fr() is wrong: a feasible point and an optimum as large as
// the bound of the ratio test, and a constraint whose artificial variable is left over.
module Pitfalls {
  import opened LinearAlgebra
  import opened Tableau
  import opened StandardForm
  import opened FreeVariables
  import opened PivotPath
  import opened Pivoting
  import opened Leftovers
  import opened Relaxation
  import opened Vertices
  import opened Simplex

  lemma TwoTerms(u: Vec, v: Vec)
    requires |u| == |v| == 2
    ensures Dot(u, v, 2) == u[0] * v[0] + u[1] * v[1]
  {
    assert Dot(u, v, 0) == 0.0 && Dot(u, v, 1) == u[0] * v[0];
  }

  lemma ThreeTerms(u: Vec, v: Vec)
    requires |u| == |v| == 3
    ensures Dot(u, v, 3) == u[0] * v[0] + u[1] * v[1] + u[2] * v[2]
  {
    assert Dot(u, v, 0) == 0.0 && Dot(u, v, 1) == u[0] * v[0] && Dot(u, v, 2) == u[0] * v[0] + u[1] * v[1];
  }

  // A block of columns needs rows of its relation.
  lemma NoColumn(pr: Problem, low: nat, high: nat, rel: Relation)
    requires pr.Sized() && pr.n <= low <= high <= pr.n3
    requires forall j :: low < j <= high ==> pr.rel[pr.nz[j]] == rel
    ensures low < high ==> exists i :: 1 <= i <= pr.m && pr.rel[i] == rel
  {
    if low < high {
      assert pr.rel[pr.nz[high]] == rel;
    }
  }

  lemma {:induction false} Spread(nz: seq<nat>, low: nat, high: nat)
    requires low < high < |nz| && forall j, k :: low < j < k <= high ==> nz[j] < nz[k]
    ensures nz[high] >= nz[low + 1] + (high - low - 1)
  {
    if low + 1 < high {
      Spread(nz, low, high - 1);
    }
  }

  // A block of columns of one row has one column.
  lemma OneColumn(pr: Problem, low: nat, high: nat, i: nat)
    requires pr.Sized() && low <= high <= pr.n3
    requires forall j :: low < j <= high ==> pr.nz[j] == i
    requires forall j, k :: low < j < k <= high ==> pr.nz[j] < pr.nz[k]
    requires exists j :: low < j <= high && pr.nz[j] == i
    ensures high == low + 1 && pr.nz[high] == i
  {
    Spread(pr.nz, low, high);
  }

  // ---------------------------------------------------------------- a point beyond the bound

  // x == b.
  function OneEquation(b: real): seq<Vec> {
    [[-b, 1.0]]
  }

  lemma OneEquationLoaded(pr: Problem, b: real)
    requires LoadedProblem(pr, OneEquation(b), [Equal], 1) && b > 0.0
    ensures pr.m == 1 && pr.n == pr.n1 == pr.n2 == 2 && pr.n3 == 3 && pr.nz[3] == 1 && pr.rel[1] == Equal
    ensures pr.a == [[0.0, 0.0, 0.0], [b, 1.0, -1.0]]
  {
    var r := [-b, 1.0];
    assert pr.a[0 + 1] == LoadedRow(OneEquation(b)[0], [Equal][0]) && pr.rel[0 + 1] == LoadedRelation(r, Equal);
    assert Tail(r, 1) == 0.0 && Tail(r, 2) == 1.0;
    assert Widened(r, b) == [b, 1.0, -1.0];
    assert pr.a[0] == [0.0, 0.0, 0.0];
    hide LoadedRow, LoadedRelation, Widened;
    NoColumn(pr, 2, pr.n1, AtLeast);
    NoColumn(pr, pr.n1, pr.n2, AtMost);
    OneColumn(pr, 2, pr.n3, 1);
  }

  lemma OneEquationStart(pr: Problem, b: real) returns (d: Dict)
    requires LoadedProblem(pr, OneEquation(b), [Equal], 1) && b > 0.0
    ensures Started(pr, d) && d.Sized() && d.m == 1 && d.width == 4 && d.row[1] == 0
    ensures d.T(0, 1) == -1.0 && d.T(1, 1) == 1.0 && d.T(1, 0) == b
  {
    OneEquationLoaded(pr, b);
    hide Dot, LoadedProblem, OneEquation;
    d := State(pr, [[1.0, -1.0], [0.0, 1.0]], [0, 3], [0, 0, 0, 1]);
    var c0, c1 := Column(pr.a, 2, 3, 0), Column(pr.a, 2, 3, 1);
    assert c0 == [0.0, b] && c1 == [0.0, 1.0];
    hide Dict.T, Problem.Extended;
    GivenEntry(pr, d, 0, 1);
    GivenEntry(pr, d, 1, 1);
    GivenEntry(pr, d, 1, 0);
    TwoTerms(d.q[0], c1);
    TwoTerms(d.q[1], c1);
    TwoTerms(d.q[1], c0);
  }

  // The first ratio of phase 1 is b.
  lemma FarPointIsCut(pr: Problem, b: real, large: real, fuel: nat)
    requires LoadedProblem(pr, OneEquation(b), [Equal], 1) && b >= large > 0.0 && fuel > 0
    ensures !PhaseOneShort(pr, large, 0.0, fuel)
  {
    OneEquationLoaded(pr, b);
    var d := OneEquationStart(pr, b);
    hide Dict.T, LoadedProblem, Started, Dict.Valid, Problem.Sized, Dict.Sized;
    StartedIsValid(pr, d);
    PhaseOneShortIs(pr, d, large, 0.0, fuel);
    assert Entering(d, 1, 3, 0.0) == 1;
    assert Leaving(d, 1, 0, 0.0) == 0;
    assert Leaving(d, 1, 1, 0.0) == 1;
  }

  lemma FarPointExists(b: real)
    ensures Consistent(OneEquation(b), [Equal], 2) && Admissible(OneEquation(b), [Equal], [1.0, b])
  {
    TwoTerms([-b, 1.0], [1.0, b]);
    hide Dot;
    assert RowHolds([-b, 1.0], Equal, [1.0, b]);
  }

  // With b >= large the equation x == b is reported as infeasible.
  method FarPointLooksInfeasible(result: array<real>, b: real, large: real, cost: Vec, fuel: nat)
    returns (code: Outcome)
    requires result.Length == |cost| == 2 && b >= large > 0.0 && fuel > 0
    modifies result
    ensures code == NotFeasible && Admissible(OneEquation(b), [Equal], [1.0, b])
  {
    hide *;
    OneEquationIs(b);
    ghost var pr, gone;
    code, pr, gone := Solve(result, OneEquation(b), [Equal], cost, 0.0, large, fuel);
    FarPointIsCut(pr, b, large, fuel);
    FarPointExists(b);
  }

  lemma OneEquationIs(b: real)
    ensures |OneEquation(b)| == 1 && |OneEquation(b)[0]| == 2
  {
  }

  // A far vertex that phase 1 does not visit is harmless: for x <= b there is nothing to decide,
  // although x = b is a vertex.
  lemma FarVertexIsHarmless(pr: Problem, b: real, large: real, fuel: nat)
    requires LoadedProblem(pr, OneEquation(b), [AtMost], 1) && b >= large > 0.0
    ensures PhaseOneShort(pr, large, 0.0, fuel) && !VerticesBelow(pr, large)
  {
    OneBoundLoaded(pr, b);
    NoArtificialStays(pr, large, 0.0, fuel);
    var x := [-1.0, b, 0.0, 0.0];
    forall z: Vec | |z| == 4
      ensures Dot(pr.Extended()[1], z, 4) == b * z[0] + z[1] - z[2] + z[3]
    {
      FourTerms(pr.Extended()[1], z);
    }
    hide Dot, LoadedProblem, Problem.Extended;
    assert Vertex(pr, x) by {
      forall z: Vec | Supported(pr, x, z)
        ensures z[0] == z[1] == z[2] == z[3] == 0.0
      {
      }
    }
    assert x[1] == b;
  }

  lemma FourTerms(u: Vec, v: Vec)
    requires |u| == |v| == 4
    ensures Dot(u, v, 4) == u[0] * v[0] + u[1] * v[1] + u[2] * v[2] + u[3] * v[3]
  {
    assert Dot(u, v, 0) == 0.0 && Dot(u, v, 1) == u[0] * v[0] && Dot(u, v, 2) == Dot(u, v, 1) + u[1] * v[1];
  }

  lemma OneBoundLoaded(pr: Problem, b: real)
    requires LoadedProblem(pr, OneEquation(b), [AtMost], 1) && b > 0.0
    ensures pr.m == 1 && pr.n == pr.n1 == 2 && pr.n2 == pr.n3 == 3 && NoCost(pr)
    ensures pr.Sized() && pr.Extended()[1] == [b, 1.0, -1.0, 1.0]
    ensures pr.a == [[0.0, 0.0, 0.0], [b, 1.0, -1.0]] && pr.nz[3] == 1 && pr.rel[1] == AtMost
  {
    var r := [-b, 1.0];
    assert pr.a[0 + 1] == LoadedRow(OneEquation(b)[0], [AtMost][0]) && pr.rel[0 + 1] == LoadedRelation(r, AtMost);
    assert Tail(r, 1) == 0.0 && Tail(r, 2) == 1.0;
    assert Widened(r, b) == [b, 1.0, -1.0];
    assert pr.a[0] == [0.0, 0.0, 0.0];
    hide LoadedRow, LoadedRelation, Widened;
    NoColumn(pr, 2, pr.n1, AtLeast);
    OneColumn(pr, pr.n1, pr.n2, 1);
    NoArtificialColumn(pr);
  }

  lemma NoArtificialColumn(pr: Problem)
    requires pr.Prepared()
    ensures pr.n2 < pr.n3 ==> exists i :: 1 <= i <= pr.m && pr.rel[i] != AtMost
  {
    if pr.n2 < pr.n3 {
      assert pr.rel[pr.nz[pr.n3]] != AtMost;
    }
  }

  // ---------------------------------------------------------------- an optimum beyond the bound

  // The states in which the two phases start for x <= b.
  lemma OneBoundStart(pr: Problem, b: real, c: Vec) returns (s: Dict, d: Dict)
    requires LoadedProblem(pr, OneEquation(b), [AtMost], 1) && b > 0.0 && c == [0.0, -1.0, 1.0]
    ensures Started(pr, s) && s.col == d.col && s.row == d.row && pr.n == 2
    ensures WithCost(pr, c).Sized() && d == State(WithCost(pr, c), d.q, d.col, d.row) && d.Valid()
    ensures d.q == [[1.0, 0.0], [0.0, 1.0]] && d.row == [0, 0, 0, 1]
  {
    OneBoundLoaded(pr, b);
    hide Dot, LoadedProblem, OneEquation, Problem.Extended, Dict.Valid;
    var q, col, row := [[1.0, 0.0], [0.0, 1.0]], [0, 3], [0, 0, 0, 1];
    s := State(pr, q, col, row);
    d := State(WithCost(pr, c), q, col, row);
    StartWithCost(pr, c, q, col, row);
    StartIsValid(WithCost(pr, c), q, col, row);
  }

  // The first tableau of phase 2.
  lemma OneBoundTableau(pr: Problem, b: real, c: Vec, d: Dict)
    requires LoadedProblem(pr, OneEquation(b), [AtMost], 1) && b > 0.0 && c == [0.0, -1.0, 1.0]
    requires pr.n == 2 && WithCost(pr, c).Sized() && d == State(WithCost(pr, c), d.q, d.col, d.row) && d.Sized()
    requires d.q == [[1.0, 0.0], [0.0, 1.0]]
    ensures d.m == 1 && d.width == 4 && d.T(0, 1) == -1.0 && d.T(1, 1) == 1.0 && d.T(1, 0) == b
  {
    OneBoundLoaded(pr, b);
    hide Dot, LoadedProblem, OneEquation, Problem.Extended, Dict.T;
    var p := WithCost(pr, c);
    var c0, c1 := Column(p.a, 2, 3, 0), Column(p.a, 2, 3, 1);
    assert c0 == [0.0, b] && c1 == [-1.0, 1.0];
    GivenEntry(p, d, 0, 1);
    GivenEntry(p, d, 1, 1);
    GivenEntry(p, d, 1, 0);
    TwoTerms(d.q[0], c1);
    TwoTerms(d.q[1], c1);
    TwoTerms(d.q[1], c0);
  }

  // Nothing is given up, and the first ratio of phase 2 is b.
  lemma FarOptimumIsCut(pr: Problem, b: real, c: Vec, large: real, fuel: nat, gone: set<nat>)
    requires LoadedProblem(pr, OneEquation(b), [AtMost], 1) && b >= large > 0.0 && fuel > 0 && c == [0.0, -1.0, 1.0]
    ensures pr.Sized() && pr.n == 2 && PhaseOneShort(pr, large, 0.0, fuel)
    ensures !PhaseOneStops(pr, large, 0.0, fuel, Going)
    ensures PhaseOneGivesUp(pr, large, 0.0, fuel, gone) ==> gone == {}
    ensures PhaseTwoStops(pr, c, {}, large, 0.0, fuel, Cut)
  {
    OneBoundLoaded(pr, b);
    var s, d := OneBoundStart(pr, b, c);
    OneBoundTableau(pr, b, c, d);
    hide Dict.T, LoadedProblem, Started, Dict.Valid, Problem.Sized, Dict.Sized, PhaseTwoStart, WithCost, Dropped;
    StartedIsValid(pr, s);
    NoArtificialEnds(pr, s, large, 0.0, fuel);
    PhaseOneShortIs(pr, s, large, 0.0, fuel);
    DroppedShape(WithCost(pr, c), {});
    PhaseTwoStartsAt(pr, c, {}, large, 0.0, fuel, s, d);
    PhaseTwoShortIs(pr, c, {}, large, 0.0, fuel, d);
    assert Entering(d, 1, 3, 0.0) == 1;
    assert Leaving(d, 1, 0, 0.0) == 0;
    assert Leaving(d, 1, 1, 0.0) == 1;
    if PhaseOneGivesUp(pr, large, 0.0, fuel, gone) {
      assert GivenUp(pr, s.col, pr.m, gone);
      NoneAreArtificial(pr, s.col, gone);
    }
  }

  lemma NoneAreArtificial(pr: Problem, col: seq<int>, gone: set<nat>)
    requires pr.Sized() && pr.n2 == pr.n3 && GivenUp(pr, col, pr.m, gone)
    ensures gone == {}
  {
    assert forall k: nat :: k !in gone;
  }

  lemma FarOptimum(b: real)
    ensures Cheapest(OneEquation(b), [AtMost], [0.0, -1.0], [1.0, b])
    ensures !FreeNoLowerBound(OneEquation(b), [AtMost], {}, [0.0, -1.0])
  {
    forall x: Vec | |x| == 2
      ensures AdmissibleBut(OneEquation(b), [AtMost], {}, x) <==> x[0] == 1.0 && x[1] <= b
      ensures Dot([0.0, -1.0], x, 2) == -x[1]
    {
      TwoTerms([-b, 1.0], x);
      TwoTerms([0.0, -1.0], x);
      hide Dot;
      assert RowHolds(OneEquation(b)[0], [AtMost][0], x) <==> -b * x[0] + x[1] <= 0.0;
    }
    hide Dot, AdmissibleBut, FreeNoLowerBound;
    OptimumIsBounded(OneEquation(b), [AtMost], {}, [0.0, -1.0], [1.0, b]);
  }

  // With b >= large the minimum of -x over x <= b is reported as minus infinity.
  method FarOptimumLooksUnbounded(result: array<real>, b: real, large: real, fuel: nat) returns (code: Outcome)
    requires result.Length == 2 && b >= large > 0.0 && fuel > 0
    modifies result
    ensures code == ToInfinity && Cheapest(OneEquation(b), [AtMost], [0.0, -1.0], [1.0, b])
    ensures !FreeNoLowerBound(OneEquation(b), [AtMost], {}, [0.0, -1.0])
  {
    hide *;
    OneEquationIs(b);
    ghost var pr, gone;
    code, pr, gone := Solve(result, OneEquation(b), [AtMost], [0.0, -1.0], 0.0, large, fuel);
    ghost var c := Widened([0.0, -1.0], 0.0);
    FarCost();
    FarOptimumIsCut(pr, b, c, large, fuel, gone);
    FarOptimum(b);
    FarOptimumExists(b);
    AnswerOfPaths(pr, c, large, fuel, gone, code, Cut, {});
  }

  lemma FarCost()
    ensures Widened([0.0, -1.0], 0.0) == [0.0, -1.0, 1.0]
  {
    assert Tail([0.0, -1.0], 1) == 0.0 && Tail([0.0, -1.0], 2) == -1.0;
  }

  lemma FarOptimumExists(b: real)
    requires Cheapest(OneEquation(b), [AtMost], [0.0, -1.0], [1.0, b])
    ensures Consistent(OneEquation(b), [AtMost], 2)
  {
    hide Dot;
    assert Admissible(OneEquation(b), [AtMost], [1.0, b]);
  }

  // The answer, when phase 1 does not reject, only the constraints gone can be given up, and phase 2 gets
  // stuck.
  lemma AnswerOfPaths(pr: Problem, c: Vec, large: real, fuel: nat, given: set<nat>, code: Outcome, stop: Stop,
      gone: set<nat>)
    requires pr.Sized() && |c| == pr.n + 1 && FollowsPaths(pr, c, large, 0.0, fuel, given, code)
    requires !PhaseOneStops(pr, large, 0.0, fuel, Going) && code != NotFeasible
    requires PhaseOneGivesUp(pr, large, 0.0, fuel, given) ==> given == gone
    requires PhaseTwoStops(pr, c, gone, large, 0.0, fuel, stop) && (stop == Free || stop == Cut)
    ensures code == ToInfinity
  {
    hide PhaseOneStops, PhaseTwoStops, PhaseOneGivesUp, PhaseOneRejects;
  }

  // ---------------------------------------------------------------- a constraint given up

  // x <= 1 and x >= 1.
  function TouchingRows(): seq<Vec> {
    [[-1.0, 1.0], [-1.0, 1.0]]
  }

  function TouchingRelations(): seq<Relation> {
    [AtMost, AtLeast]
  }

  lemma TouchingRowsLoaded(pr: Problem)
    requires LoadedProblem(pr, TouchingRows(), TouchingRelations(), 1)
    ensures pr.m == pr.n == 2 && pr.n1 == 3 && pr.n2 == 4 && pr.n3 == 5
    ensures pr.nz[3] == 2 && pr.nz[4] == 1 && pr.nz[5] == 2
    ensures |pr.rel| == 3 && pr.rel[1] == AtMost && pr.rel[2] == AtLeast
    ensures pr.a == [[0.0, 0.0, 0.0], [1.0, 1.0, -1.0], [1.0, 1.0, -1.0]]
  {
    var rows, rels, r := TouchingRows(), TouchingRelations(), [-1.0, 1.0];
    assert pr.a[0 + 1] == LoadedRow(rows[0], rels[0]) && pr.rel[0 + 1] == LoadedRelation(rows[0], rels[0]);
    assert pr.a[1 + 1] == LoadedRow(rows[1], rels[1]) && pr.rel[1 + 1] == LoadedRelation(rows[1], rels[1]);
    assert Tail(r, 1) == 0.0 && Tail(r, 2) == 1.0;
    assert Widened(r, 1.0) == [1.0, 1.0, -1.0];
    assert pr.a[0] == [0.0, 0.0, 0.0];
    hide LoadedRow, LoadedRelation, Widened;
    TouchingColumns(pr);
  }

  lemma TouchingColumns(pr: Problem)
    requires pr.Prepared() && pr.m == pr.n == 2 && pr.rel[1] == AtMost && pr.rel[2] == AtLeast
    ensures pr.n1 == 3 && pr.n2 == 4 && pr.n3 == 5 && pr.nz[3] == 2 && pr.nz[4] == 1 && pr.nz[5] == 2
  {
    OneColumn(pr, 2, pr.n1, 2);
    OneColumn(pr, pr.n1, pr.n2, 1);
    OneColumn(pr, pr.n2, pr.n3, 2);
  }

  lemma TouchingStart(pr: Problem) returns (d: Dict)
    requires LoadedProblem(pr, TouchingRows(), TouchingRelations(), 1)
    ensures Started(pr, d) && d.Sized() && d.m == 2 && d.width == 6
    ensures d.col == [0, 4, 5] && d.row == [0, 0, 0, 0, 1, 2]
    ensures d.q == [[1.0, 0.0, -1.0], [0.0, 1.0, 0.0], [0.0, 0.0, 1.0]]
  {
    TouchingRowsLoaded(pr);
    hide Dot, LoadedProblem, Problem.Extended, Problem.Added;
    d := State(pr, [[1.0, 0.0, -1.0], [0.0, 1.0, 0.0], [0.0, 0.0, 1.0]], [0, 4, 5], [0, 0, 0, 0, 1, 2]);
  }

  // Rows 0 and 1 of the first tableau.
  lemma TouchingGiven(pr: Problem, d: Dict, j: nat)
    requires LoadedProblem(pr, TouchingRows(), TouchingRelations(), 1) && Started(pr, d) && d.Sized() && j <= 2
    requires d.q == [[1.0, 0.0, -1.0], [0.0, 1.0, 0.0], [0.0, 0.0, 1.0]]
    ensures d.m == 2 && d.width == 6
    ensures var t := if j == 2 then -1.0 else 1.0; d.T(0, j) == -t && d.T(1, j) == t && d.T(2, j) == t
  {
    TouchingRowsLoaded(pr);
    hide Dot, LoadedProblem, Problem.Extended, Problem.Added, Dict.T, StartBasis, StartMatrix;
    var c := Column(pr.a, 3, 3, j);
    forall i | 0 <= i <= 2
      ensures d.T(i, j) == d.q[i][0] * c[0] + d.q[i][1] * c[1] + d.q[i][2] * c[2]
    {
      GivenEntry(pr, d, i, j);
      ThreeTerms(d.q[i], c);
    }
  }

  lemma TouchingAdded(pr: Problem, d: Dict, j: nat)
    requires LoadedProblem(pr, TouchingRows(), TouchingRelations(), 1) && Started(pr, d) && d.Sized() && 3 <= j <= 5
    requires d.q == [[1.0, 0.0, -1.0], [0.0, 1.0, 0.0], [0.0, 0.0, 1.0]]
    ensures d.m == 2 && d.width == 6
    ensures d.T(0, j) == if j == 3 then 1.0 else 0.0
    ensures d.T(1, j) == if j == 4 then 1.0 else 0.0
  {
    TouchingRowsLoaded(pr);
    hide Dot, LoadedProblem, Problem.Extended, Problem.Added, Dict.T, StartBasis, StartMatrix;
    assert d.FirstColumn();
    AddedEntry(pr, d, 0, j);
    AddedEntry(pr, d, 1, j);
  }

  // After one pivot no reduced cost is negative.
  lemma TouchingPivot(pr: Problem, d: Dict) returns (e: Dict)
    requires LoadedProblem(pr, TouchingRows(), TouchingRelations(), 1) && Started(pr, d) && d.Sized() && d.Valid()
    requires d.m == 2 && d.width == 6 && d.col == [0, 4, 5] && d.row == [0, 0, 0, 0, 1, 2]
    requires d.q == [[1.0, 0.0, -1.0], [0.0, 1.0, 0.0], [0.0, 0.0, 1.0]]
    ensures d.T(1, 1) != 0.0 && e == Pivot(d, 1, 1) && e.Sized() && e.width == 6 && e.col == [0, 1, 5]
    ensures e.row == [0, 1, 0, 0, 0, 2]
    ensures forall k :: 1 <= k <= 5 ==> e.T(0, k) >= 0.0
  {
    TouchingGiven(pr, d, 1);
    hide Dict.T, LoadedProblem, Started, Dict.UnitColumns, Dict.Nonsingular, PivotQ, PivotColumn;
    e := Pivot(d, 1, 1);
    PivotKeepsShape(d, 1, 1);
    forall k | 1 <= k <= 5
      ensures e.T(0, k) >= 0.0
    {
      PivotTableau(d, 1, 1, 0, k);
      if k <= 2 {
        TouchingGiven(pr, d, k);
      } else {
        TouchingAdded(pr, d, k);
      }
    }
  }

  // Phase 1 ends after one pivot and gives up the second constraint.
  lemma TouchingEnds(pr: Problem, large: real, fuel: nat) returns (d: Dict)
    requires LoadedProblem(pr, TouchingRows(), TouchingRelations(), 1) && large > 1.0 && fuel >= 2
    ensures pr.n == 2 && Started(pr, d) && d.Valid() && d.width == pr.n3 + 1
    ensures var (e, stop) := Walked(d, pr.n3, large, 0.0, fuel);
      e.col == [0, 1, 5] && e.row == [0, 1, 0, 0, 0, 2] && stop == Done
  {
    TouchingRowsLoaded(pr);
    d := TouchingStart(pr);
    TouchingGiven(pr, d, 0);
    TouchingGiven(pr, d, 1);
    StartedIsValid(pr, d);
    var e := TouchingPivot(pr, d);
    NextIsValid(d, 1, 1);
    hide Dict.T, LoadedProblem, Started, Dict.Inverse, Dict.UnitColumns, Dict.Nonsingular, Dict.FirstColumn, Pivot;
    assert Entering(d, 1, 5, 0.0) == 1;
    assert Leaving(d, 1, 0, 0.0) == 0;
    assert Leaving(d, 1, 1, 0.0) == 1;
    assert Leaving(d, 1, 2, 0.0) == 1;
    EnteringIs(e, 1, 6, 5, 0.0);
    assert Walked(e, 5, large, 0.0, fuel - 1) == (e, Done);
    assert Walked(d, 5, large, 0.0, fuel) == (e, Done);
  }

  lemma TouchingGivesUp(pr: Problem, large: real, fuel: nat, gone: set<nat>)
    requires LoadedProblem(pr, TouchingRows(), TouchingRelations(), 1) && large > 1.0 && fuel >= 2
    ensures pr.Sized() && PhaseOneShort(pr, large, 0.0, fuel) && !PhaseOneStops(pr, large, 0.0, fuel, Going)
    ensures PhaseOneGivesUp(pr, large, 0.0, fuel, gone) ==> gone == {2}
  {
    TouchingRowsLoaded(pr);
    var d := TouchingEnds(pr, large, fuel);
    hide Walked, LoadedProblem, Started, Dict.Valid, GivenUp;
    PhaseOneShortIs(pr, d, large, 0.0, fuel);
    if PhaseOneGivesUp(pr, large, 0.0, fuel, gone) {
      SecondGivenUp(pr, Walked(d, pr.n3, large, 0.0, fuel).0.col, gone);
    }
  }

  lemma SecondGivenUp(pr: Problem, col: seq<int>, gone: set<nat>)
    requires pr.Sized() && col == [0, 1, 5] && pr.n2 == 4 && pr.n3 == 5 && pr.nz[5] == 2 && GivenUp(pr, col, 2, gone)
    ensures gone == {2}
  {
    assert IsArtificial(pr, col[2], 2);
    assert forall k: int :: !IsArtificial(pr, col[1], k);
    assert forall k :: k in gone ==> k == 2;
  }

  // ---- phase 2 without the second constraint

  function TouchingCost(): Vec {
    [0.0, 1.0, -1.0]
  }

  lemma TouchingReduced(pr: Problem) returns (p: Problem)
    requires LoadedProblem(pr, TouchingRows(), TouchingRelations(), 1)
    ensures pr.n == 2 && WithCost(pr, TouchingCost()).Sized() && p == Dropped(WithCost(pr, TouchingCost()), {2})
    ensures p.Sized() && p.m == p.n == 2 && p.n1 == 3 && p.n2 == pr.n2 == 4 && p.n3 == pr.n3 == 5
    ensures p.nz[3] == 2 && p.nz[4] == 1 && p.nz[5] == 2
    ensures p.a == [[0.0, 1.0, -1.0], [1.0, 1.0, -1.0], [0.0, 0.0, 0.0]]
  {
    TouchingRowsLoaded(pr);
    hide LoadedProblem, Problem.Added;
    p := Dropped(WithCost(pr, TouchingCost()), {2});
    assert p.a[0] == [0.0, 1.0, -1.0] && p.a[1] == [1.0, 1.0, -1.0] && p.a[2] == [0.0, 0.0, 0.0];
  }

  // d is the state of p in the basis in which phase 1 ends.
  ghost predicate TouchingState(p: Problem, d: Dict) {
    && p.Sized() && p.m == p.n == 2 && p.n1 == 3 && p.n2 == 4 && p.n3 == 5
    && p.nz[3] == 2 && p.nz[4] == 1 && p.nz[5] == 2
    && p.a == [[0.0, 1.0, -1.0], [1.0, 1.0, -1.0], [0.0, 0.0, 0.0]]
    && d == State(p, [[1.0, -1.0, -1.0], [0.0, 1.0, 0.0], [0.0, 0.0, 1.0]], [0, 1, 5], [0, 1, 0, 0, 0, 2])
  }

  lemma TouchingStateShape(p: Problem, d: Dict)
    requires TouchingState(p, d)
    ensures d.Sized() && d.FirstColumn() && d.Inverse() && d.m == 2 && d.width == 6 && d.a == p.Extended()
    ensures d.col == [0, 1, 5] && d.row == [0, 1, 0, 0, 0, 2]
    ensures d.q == [[1.0, -1.0, -1.0], [0.0, 1.0, 0.0], [0.0, 0.0, 1.0]]
  {
    hide Problem.Entry;
  }

  function TouchingEntry(i: nat, j: nat): real
    requires i <= 2 && j <= 5
  {
    if i == 0 then [-1.0, 0.0, 0.0, 1.0, -1.0, 0.0][j]
    else if i == 1 then [1.0, 1.0, -1.0, 0.0, 1.0, 0.0][j]
    else [0.0, 0.0, 0.0, -1.0, 0.0, 1.0][j]
  }

  lemma TouchingTableau(p: Problem, d: Dict, i: nat, j: nat)
    requires TouchingState(p, d) && i <= 2 && j <= 5
    ensures d.Sized() && d.m == 2 && d.width == 6 && d.T(i, j) == TouchingEntry(i, j)
  {
    TouchingStateShape(p, d);
    hide Dot, Problem.Extended, Dict.T, Problem.Entry;
    if j <= 2 {
      var c := Column(p.a, 3, 3, j);
      GivenEntry(p, d, i, j);
      ThreeTerms(d.q[i], c);
    } else {
      AddedEntry(p, d, i, j);
    }
  }

  lemma TouchingValid(p: Problem, d: Dict)
    requires TouchingState(p, d)
    ensures d.Valid()
  {
    TouchingStateShape(p, d);
    hide Dot, Problem.Extended, Dict.T, Problem.Entry;
    forall i, k | 0 <= i <= 2 && 1 <= k <= 2
      ensures d.T(i, d.col[k]) == if i == k then 1.0 else 0.0
    {
      TouchingTableau(p, d, i, d.col[k]);
    }
    forall r: Vec | d.Annihilates(r)
      ensures r[1] == r[2] == 0.0
    {
      ThreeTerms(d.q[1], r);
      ThreeTerms(d.q[2], r);
      assert Dot(d.q[1], r, 3) == 0.0 && Dot(d.q[2], r, 3) == 0.0;
    }
    hide TouchingState;
  }

  // The slack of the first constraint enters, and then no row stops the added variable.
  lemma TouchingNext(p: Problem, d: Dict) returns (e: Dict)
    requires TouchingState(p, d)
    ensures d.Valid() && d.m == 2 && d.width == 6 && d.T(1, 4) == 1.0 && d.row[4] == 0 && d.col[1] == 1
    ensures e == Pivot(d, 1, 4) && e.Valid() && e.m == 2 && e.width == 6 && e.row == [0, 0, 0, 0, 1, 2]
    ensures forall k :: 1 <= k <= 2 ==> e.T(0, k) == TouchingEntry(0, k) + TouchingEntry(1, k)
    ensures forall i :: 1 <= i <= 2 ==> e.T(i, 2) <= 0.0
  {
    TouchingStateShape(p, d);
    TouchingValid(p, d);
    TouchingTableau(p, d, 1, 4);
    hide Dict.T, TouchingState, Dict.UnitColumns, Dict.Nonsingular, PivotQ, PivotColumn, Problem.Extended;
    e := Pivot(d, 1, 4);
    NextIsValid(d, 1, 4);
    forall i, k | 0 <= i <= 2 && 1 <= k <= 2
      ensures e.T(i, k) == TouchingEntry(i, k) + if i == 0 then TouchingEntry(1, k) else 0.0
    {
      PivotTableau(d, 1, 4, i, k);
      TouchingTableau(p, d, i, k);
      TouchingTableau(p, d, 1, k);
      TouchingTableau(p, d, i, 4);
    }
  }

  lemma TouchingEscapes(p: Problem, d: Dict, large: real, fuel: nat)
    requires TouchingState(p, d) && large > 1.0 && fuel >= 2
    ensures d.Valid() && d.width == 6 && Walked(d, 4, large, 0.0, fuel).1 == Free
  {
    var e := TouchingNext(p, d);
    TouchingStateShape(p, d);
    forall i, j | 0 <= i <= 2 && 0 <= j <= 5
      ensures d.T(i, j) == TouchingEntry(i, j)
    {
      TouchingTableau(p, d, i, j);
    }
    hide Dict.T, TouchingState, Dict.Inverse, Dict.UnitColumns, Dict.Nonsingular, Dict.FirstColumn, Pivot,
      Problem.Extended;
    assert Entering(d, 4, 4, 0.0) == 4;
    assert Entering(d, 3, 4, 0.0) == 4;
    assert Entering(d, 2, 4, 0.0) == 4;
    assert Entering(d, 1, 4, 0.0) == 4;
    assert Leaving(d, 4, 0, 0.0) == 0;
    assert Leaving(d, 4, 1, 0.0) == 1;
    assert Leaving(d, 4, 2, 0.0) == 1;
    assert Entering(e, 2, 4, 0.0) == 2;
    assert Entering(e, 1, 4, 0.0) == 2;
    assert Leaving(e, 2, 0, 0.0) == 0;
    assert Leaving(e, 2, 1, 0.0) == 0;
    assert Leaving(e, 2, 2, 0.0) == 0;
    assert Walked(e, 4, large, 0.0, fuel - 1) == (e, Free);
    PathUnfolds(d, 4, 1, 4, large, 0.0, fuel);
  }

  // Phase 2 ends on a variable that no row stops.
  lemma TouchingIsFree(pr: Problem, large: real, fuel: nat)
    requires LoadedProblem(pr, TouchingRows(), TouchingRelations(), 1) && large > 1.0 && fuel >= 2
    ensures pr.n == 2 && PhaseTwoStops(pr, TouchingCost(), {2}, large, 0.0, fuel, Free)
  {
    var s := TouchingEnds(pr, large, fuel);
    var p := TouchingReduced(pr);
    var q := [[1.0, -1.0, -1.0], [0.0, 1.0, 0.0], [0.0, 0.0, 1.0]];
    var d := State(p, q, [0, 1, 5], [0, 1, 0, 0, 0, 2]);
    assert TouchingState(p, d);
    hide Walked, LoadedProblem, Started, Dict.Valid, TouchingState, PhaseTwoStart, WithCost, Dropped, Problem.Extended;
    TouchingEscapes(p, d, large, fuel);
    PhaseTwoStartsAt(pr, TouchingCost(), {2}, large, 0.0, fuel, s, d);
    PhaseTwoShortIs(pr, TouchingCost(), {2}, large, 0.0, fuel, d);
  }

  // x == 1 is the only admissible point, and so the cheapest.
  lemma TouchingOptimum(x: Vec)
    requires |x| == 2
    ensures Admissible(TouchingRows(), TouchingRelations(), x) <==> x == [1.0, 1.0]
    ensures Cheapest(TouchingRows(), TouchingRelations(), [0.0, 1.0], x) <==> x == [1.0, 1.0]
  {
    TouchingAdmissible(x);
    TouchingAdmissible([1.0, 1.0]);
    forall z: Vec | |z| == 2 && Admissible(TouchingRows(), TouchingRelations(), z)
      ensures z == [1.0, 1.0]
    {
      TouchingAdmissible(z);
    }
    hide AdmissibleBut, Dot;
  }

  lemma TouchingAdmissible(x: Vec)
    requires |x| == 2
    ensures Admissible(TouchingRows(), TouchingRelations(), x) <==> x == [1.0, 1.0]
  {
    var rows, rels := TouchingRows(), TouchingRelations();
    TwoTerms([-1.0, 1.0], x);
    hide Dot;
    assert RowHolds(rows[0], rels[0], x) <==> -x[0] + x[1] <= 0.0;
    assert RowHolds(rows[1], rels[1], x) <==> -x[0] + x[1] >= 0.0;
  }

  // The minimum of x over x <= 1 and x >= 1 is reported as minus infinity.
  method TouchingRowsLookUnbounded(result: array<real>, large: real, fuel: nat) returns (code: Outcome)
    requires result.Length == 2 && large > 1.0 && fuel >= 2
    modifies result
    ensures code == ToInfinity && Cheapest(TouchingRows(), TouchingRelations(), [0.0, 1.0], [1.0, 1.0])
  {
    hide *;
    TouchingShape();
    ghost var pr, gone;
    code, pr, gone := Solve(result, TouchingRows(), TouchingRelations(), [0.0, 1.0], 0.0, large, fuel);
    TouchingGivesUp(pr, large, fuel, gone);
    TouchingIsFree(pr, large, fuel);
    TouchingWidened();
    TouchingConsistent();
    AnswerOfPaths(pr, TouchingCost(), large, fuel, gone, code, Free, {2});
    TouchingOptimum([1.0, 1.0]);
  }

  lemma TouchingWidened()
    ensures Widened([0.0, 1.0], 0.0) == TouchingCost() && |TouchingCost()| == 3
  {
    assert Tail([0.0, 1.0], 1) == 0.0 && Tail([0.0, 1.0], 2) == 1.0;
  }

  lemma TouchingShape()
    ensures |TouchingRows()| == |TouchingRelations()| == 2 && |TouchingRows()[0]| == |TouchingRows()[1]| == 2
  {
  }

  lemma TouchingConsistent()
    ensures Consistent(TouchingRows(), TouchingRelations(), 2)
  {
    TouchingAdmissible([1.0, 1.0]);
  }
}
