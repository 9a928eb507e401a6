// The linear algebra of the revised simplex method: a fixed constraint matrix a, the matrix q that
// the pivots update, and the tableau q * a that is never stored.
module Tableau {
  import opened LinearAlgebra

  // Row 0 is the objective and column 0 the right-hand side.  col[i] is the basic variable of
  // row i, row[j] the row of a basic variable j and 0 for the others.
  datatype Dict = Dict(m: nat, width: nat, a: seq<Vec>, q: seq<Vec>, col: seq<int>, row: seq<int>)
  {
    ghost predicate Sized() {
      && Matrix(a, m + 1, width) && Matrix(q, m + 1, m + 1)
      && |col| == m + 1 && |row| == width && width >= 1
    }

    // Entry (i, j) of the tableau.
    function T(i: nat, j: nat): real
      requires Sized() && i <= m && j < width
    {
      Dot(q[i], Column(a, m + 1, width, j), m + 1)
    }

    function Row(i: nat): Vec
      requires Sized() && i <= m
    {
      Combine(q[i], a, m + 1, width)
    }

    // row and col are mutually inverse.
    ghost predicate Inverse()
      requires Sized()
    {
      && (forall i :: 1 <= i <= m ==> 1 <= col[i] < width && row[col[i]] == i)
      && (forall j :: 1 <= j < width && row[j] != 0 ==> 1 <= row[j] <= m && col[row[j]] == j)
    }

    // Column 0 of q.
    ghost predicate FirstColumn()
      requires Sized()
    {
      forall i :: 0 <= i <= m ==> q[i][0] == if i == 0 then 1.0 else 0.0
    }

    // The columns of the basic variables are unit vectors with zero cost.
    ghost predicate UnitColumns()
      requires Sized() && Inverse()
    {
      forall i, k :: 0 <= i <= m && 1 <= k <= m ==> T(i, col[k]) == if i == k then 1.0 else 0.0
    }

    ghost predicate Annihilates(r: Vec)
      requires Sized()
    {
      |r| == m + 1 && forall i :: 1 <= i <= m ==> Dot(q[i], r, m + 1) == 0.0
    }

    // The lower right block of q maps only zero to zero.
    ghost predicate Nonsingular()
      requires Sized()
    {
      forall r: Vec :: Annihilates(r) ==> forall k :: 1 <= k <= m ==> r[k] == 0.0
    }

    ghost predicate Valid() {
      Sized() && Inverse() && FirstColumn() && UnitColumns() && Nonsingular()
    }

    // The basic solution is nonnegative.
    ghost predicate Feasible()
      requires Sized()
    {
      forall i :: 1 <= i <= m ==> T(i, 0) >= 0.0
    }
  }

  // x, with x[0] == -1 for the right-hand side, satisfies all constraints.
  ghost predicate Solves(d: Dict, x: Vec)
    requires d.Sized()
  {
    |x| == d.width && x[0] == -1.0 && forall k :: 1 <= k <= d.m ==> Dot(d.a[k], x, d.width) == 0.0
  }

  ghost predicate Nonnegative(x: Vec) {
    forall j :: 1 <= j < |x| ==> x[j] >= 0.0
  }

  function Objective(d: Dict, x: Vec): real
    requires d.Sized() && |x| == d.width
  {
    Dot(d.a[0], x, d.width)
  }

  // ---------------------------------------------------------------- pivoting

  // The new matrix q of pivot(p, j) with u the pivot column: columns 1 to m are updated.
  function PivotRow(r: Vec, u: real): Vec
    requires u != 0.0 && |r| >= 1
  {
    seq(|r|, k requires 0 <= k < |r| => if k == 0 then r[0] else r[k] / u)
  }

  function EliminatedRow(r: Vec, pr: Vec, u: real): Vec
    requires |pr| == |r| >= 1
  {
    seq(|r|, k requires 0 <= k < |r| => if k == 0 then r[0] else r[k] - pr[k] * u)
  }

  function PivotQ(q: seq<Vec>, column: Vec, p: nat): seq<Vec>
    requires p < |q| == |column| && column[p] != 0.0
    requires forall i :: 0 <= i < |q| ==> |q[i]| == |q[p]| >= 1
  {
    var pr := PivotRow(q[p], column[p]);
    seq(|q|, i requires 0 <= i < |q| => if i == p then pr else EliminatedRow(q[i], pr, column[i]))
  }

  // Column j of the tableau.
  function PivotColumn(d: Dict, j: nat): Vec
    requires d.Sized() && j < d.width
  {
    seq(d.m + 1, i requires 0 <= i <= d.m => d.T(i, j))
  }

  function Pivot(d: Dict, p: nat, j: nat): Dict
    requires d.Sized() && 1 <= p <= d.m && 1 <= j < d.width && d.T(p, j) != 0.0
    requires 0 <= d.col[p] < d.width
  {
    d.(q := PivotQ(d.q, PivotColumn(d, j), p), col := d.col[p := j], row := d.row[d.col[p] := 0][j := p])
  }

  lemma PivotRowDot(r: Vec, u: real, v: Vec)
    requires u != 0.0 && |r| == |v| >= 1 && r[0] == 0.0
    ensures Dot(PivotRow(r, u), v, |r|) == Dot(r, v, |r|) / u
  {
    hide Dot;
    var w := PivotRow(r, u);
    forall k | 0 <= k < |r|
      ensures w[k] == (1.0 / u) * r[k]
    {
    }
    DotScales(w, r, 1.0 / u, v, |r|);
  }

  lemma EliminatedRowDot(r: Vec, pr: Vec, u: real, v: Vec)
    requires |pr| == |r| == |v| >= 1 && pr[0] == 0.0
    ensures Dot(EliminatedRow(r, pr, u), v, |r|) == Dot(r, v, |r|) - u * Dot(pr, v, |r|)
  {
    hide Dot;
    var w := EliminatedRow(r, pr, u);
    forall k | 0 <= k < |r|
      ensures w[k] == r[k] + (-u) * pr[k]
    {
      assert (-u) * pr[k] == -(pr[k] * u);
    }
    DotLinear(w, r, pr, -u, v, |r|);
  }

  lemma PivotKeepsShape(d: Dict, p: nat, j: nat)
    requires d.Sized() && d.FirstColumn() && 1 <= p <= d.m && 1 <= j < d.width && d.T(p, j) != 0.0
    requires 0 <= d.col[p] < d.width
    ensures Pivot(d, p, j).m == d.m && Pivot(d, p, j).width == d.width && Pivot(d, p, j).a == d.a
    ensures Pivot(d, p, j).Sized() && Pivot(d, p, j).FirstColumn()
    ensures Pivot(d, p, j).q[p] == PivotRow(d.q[p], d.T(p, j)) && Pivot(d, p, j).q[p][0] == 0.0
    ensures forall i :: 0 <= i <= d.m && i != p ==>
      Pivot(d, p, j).q[i] == EliminatedRow(d.q[i], Pivot(d, p, j).q[p], d.T(i, j))
  {
    hide Dict.T;
    assert forall i :: 0 <= i <= d.m ==> PivotColumn(d, j)[i] == d.T(i, j);
  }

  // Updating q performs a Gauss-Jordan step on the tableau (and on any other column v).
  lemma PivotStep(d: Dict, p: nat, j: nat, v: Vec)
    requires d.Sized() && d.FirstColumn() && 1 <= p <= d.m && 1 <= j < d.width && d.T(p, j) != 0.0
    requires 0 <= d.col[p] < d.width && |v| == d.m + 1
    ensures Pivot(d, p, j).Sized() && Pivot(d, p, j).m == d.m
    ensures Dot(Pivot(d, p, j).q[p], v, d.m + 1) == Dot(d.q[p], v, d.m + 1) / d.T(p, j)
    ensures forall i :: 0 <= i <= d.m && i != p ==>
      Dot(Pivot(d, p, j).q[i], v, d.m + 1) == Dot(d.q[i], v, d.m + 1) - d.T(i, j) * Dot(Pivot(d, p, j).q[p], v, d.m + 1)
  {
    hide Dict.T, Pivot, PivotRow, EliminatedRow;
    PivotKeepsShape(d, p, j);
    PivotRowDot(d.q[p], d.T(p, j), v);
    forall i | 0 <= i <= d.m && i != p
      ensures Dot(Pivot(d, p, j).q[i], v, d.m + 1) ==
        Dot(d.q[i], v, d.m + 1) - d.T(i, j) * Dot(Pivot(d, p, j).q[p], v, d.m + 1)
    {
      EliminatedRowDot(d.q[i], Pivot(d, p, j).q[p], d.T(i, j), v);
    }
  }

  // The tableau after the pivot.
  lemma PivotTableau(d: Dict, p: nat, j: nat, i: nat, k: nat)
    requires d.Sized() && d.FirstColumn() && 1 <= p <= d.m && 1 <= j < d.width && d.T(p, j) != 0.0
    requires 0 <= d.col[p] < d.width && i <= d.m && k < d.width
    ensures Pivot(d, p, j).Sized() && Pivot(d, p, j).m == d.m && Pivot(d, p, j).width == d.width
    ensures Pivot(d, p, j).T(p, k) == d.T(p, k) / d.T(p, j)
    ensures i != p ==> Pivot(d, p, j).T(i, k) == d.T(i, k) - d.T(i, j) * (d.T(p, k) / d.T(p, j))
  {
    hide PivotQ, PivotColumn;
    PivotStep(d, p, j, Column(d.a, d.m + 1, d.width, k));
  }

  lemma PivotKeepsInverse(d: Dict, p: nat, j: nat)
    requires d.Sized() && d.Inverse() && 1 <= p <= d.m && 1 <= j < d.width && d.T(p, j) != 0.0 && d.row[j] == 0
    requires Pivot(d, p, j).Sized()
    ensures Pivot(d, p, j).Inverse()
  {
    hide PivotQ, PivotColumn, Dict.T;
  }

  lemma PivotKeepsUnitColumns(d: Dict, p: nat, j: nat)
    requires d.Valid() && 1 <= p <= d.m && 1 <= j < d.width && d.T(p, j) != 0.0 && d.row[j] == 0
    requires Pivot(d, p, j).Sized() && Pivot(d, p, j).Inverse()
    ensures Pivot(d, p, j).UnitColumns()
  {
    hide PivotQ, PivotColumn, Dict.T, Dict.Nonsingular;
    var d' := Pivot(d, p, j);
    forall i, k | 0 <= i <= d.m && 1 <= k <= d.m
      ensures d'.T(i, d'.col[k]) == if i == k then 1.0 else 0.0
    {
      PivotTableau(d, p, j, i, d'.col[k]);
      var u := d.T(p, j);
      if k == p {
        assert u / u == 1.0;
        assert i != p ==> d'.T(i, j) == d.T(i, j) - d.T(i, j) * 1.0;
      } else {
        assert d.col[k] != j && d.T(p, d.col[k]) == 0.0 && 0.0 / u == 0.0;
        assert i != p ==> d'.T(i, d.col[k]) == d.T(i, d.col[k]) - d.T(i, j) * 0.0;
      }
    }
  }

  lemma PivotKeepsNonsingular(d: Dict, p: nat, j: nat)
    requires d.Valid() && 1 <= p <= d.m && 1 <= j < d.width && d.T(p, j) != 0.0 && 0 <= d.col[p] < d.width
    requires Pivot(d, p, j).Sized()
    ensures Pivot(d, p, j).Nonsingular()
  {
    hide Pivot, Dict.T, Dict.UnitColumns, Dict.Inverse, Dict.Annihilates;
    assert Pivot(d, p, j).m == d.m by { PivotKeepsShape(d, p, j); }
    forall r: Vec | Pivot(d, p, j).Annihilates(r)
      ensures d.Annihilates(r)
    {
      PivotKeepsKernel(d, p, j, r);
    }
  }

  lemma PivotKeepsKernel(d: Dict, p: nat, j: nat, r: Vec)
    requires d.Sized() && d.FirstColumn() && 1 <= p <= d.m && 1 <= j < d.width && d.T(p, j) != 0.0
    requires 0 <= d.col[p] < d.width && Pivot(d, p, j).Sized() && Pivot(d, p, j).Annihilates(r)
    ensures d.Annihilates(r)
  {
    hide Pivot, Dict.T, Dot;
    assert Pivot(d, p, j).m == d.m by { PivotKeepsShape(d, p, j); }
    PivotStep(d, p, j, r);
    ZeroQuotient(Dot(d.q[p], r, d.m + 1), d.T(p, j));
    forall i | 1 <= i <= d.m
      ensures Dot(d.q[i], r, d.m + 1) == 0.0
    {
      assert i != p ==> d.T(i, j) * Dot(Pivot(d, p, j).q[p], r, d.m + 1) == 0.0;
    }
  }

  lemma ZeroQuotient(x: real, u: real)
    requires u != 0.0
    ensures x / u == 0.0 ==> x == 0.0
  {
    assert x == (x / u) * u;
  }

  // Every pivot on a nonzero entry of a nonbasic column keeps the invariant.
  lemma PivotKeepsValid(d: Dict, p: nat, j: nat)
    requires d.Valid() && 1 <= p <= d.m && 1 <= j < d.width && d.T(p, j) != 0.0 && d.row[j] == 0
    ensures Pivot(d, p, j).Valid()
  {
    hide Pivot, Dict.T, Dict.Nonsingular, Dict.UnitColumns;
    PivotKeepsShape(d, p, j);
    PivotKeepsInverse(d, p, j);
    PivotKeepsUnitColumns(d, p, j);
    PivotKeepsNonsingular(d, p, j);
  }

  // ---------------------------------------------------------------- feasibility and progress

  // Row p passes the ratio test for column j.
  ghost predicate MinRatio(d: Dict, p: nat, j: nat)
    requires d.Sized() && j < d.width && 1 <= p <= d.m
  {
    && d.T(p, j) > 0.0
    && forall i :: 1 <= i <= d.m && d.T(i, j) > 0.0 ==> d.T(p, 0) / d.T(p, j) <= d.T(i, 0) / d.T(i, j)
  }

  lemma RatioBound(b: real, t: real, theta: real)
    requires b >= 0.0 && theta >= 0.0 && (t > 0.0 ==> theta <= b / t)
    ensures b - t * theta >= 0.0
  {
    if t > 0.0 {
      assert b == (b / t) * t;
      assert (b / t - theta) * t >= 0.0;
    } else {
      assert (-t) * theta >= 0.0;
    }
  }

  lemma QuotientSign(b: real, t: real)
    requires b >= 0.0 && t > 0.0
    ensures b / t >= 0.0
  {
  }

  // The ratio test keeps the basic solution nonnegative, and a negative reduced cost never makes
  // the objective (minus entry (0, 0)) worse.
  lemma PivotKeepsFeasible(d: Dict, p: nat, j: nat)
    requires d.Valid() && d.Feasible() && 1 <= p <= d.m && 1 <= j < d.width && MinRatio(d, p, j)
    requires d.row[j] == 0
    ensures Pivot(d, p, j).Sized() && Pivot(d, p, j).Feasible()
    ensures d.T(0, j) <= 0.0 ==> Pivot(d, p, j).T(0, 0) >= d.T(0, 0)
  {
    hide Pivot, Dict.T, Dict.UnitColumns, Dict.Nonsingular;
    var theta := d.T(p, 0) / d.T(p, j);
    QuotientSign(d.T(p, 0), d.T(p, j));
    PivotTableau(d, p, j, 0, 0);
    forall i | 1 <= i <= d.m
      ensures Pivot(d, p, j).T(i, 0) >= 0.0
    {
      PivotTableau(d, p, j, i, 0);
      RatioBound(d.T(i, 0), d.T(i, j), theta);
    }
    if d.T(0, j) <= 0.0 {
      assert (-d.T(0, j)) * theta >= 0.0;
    }
  }

  // ---------------------------------------------------------------- solutions

  // A row of the tableau takes on a solution the value of the objective times its weight on it.
  lemma RowOnSolution(d: Dict, i: nat, x: Vec)
    requires d.Sized() && d.FirstColumn() && Solves(d, x) && i <= d.m
    ensures Dot(d.Row(i), x, d.width) == if i == 0 then Objective(d, x) else 0.0
  {
    var r := Residuals(d.a, d.m + 1, d.width, x, d.width);
    CombineResiduals(d.q[i], d.a, d.m + 1, d.width, x, d.width);
    DotCommutes(d.q[i], r, d.m + 1);
    hide Dot, Combine;
    DotUnit(r, d.q[i], 0, d.m + 1);
  }

  // Sum of the first k components without component 0.
  function Tail(x: Vec, k: nat): real
    requires k <= |x|
  {
    if k <= 1 then 0.0 else Tail(x, k - 1) + x[k - 1]
  }

  ghost predicate AboveLine(t: real, x: real, eps: real) {
    t * x >= -eps * x
  }

  lemma {:induction false} DotLower(u: Vec, x: Vec, k: nat, eps: real)
    requires 1 <= k <= |u| && k <= |x|
    requires forall j :: 1 <= j < k ==> AboveLine(u[j], x[j], eps)
    ensures Dot(u, x, k) >= u[0] * x[0] - eps * Tail(x, k)
  {
    if k == 1 {
      assert Dot(u, x, 0) == 0.0 && Tail(x, k) == 0.0 && eps * 0.0 == 0.0;
    } else {
      DotLower(u, x, k - 1, eps);
      assert AboveLine(u[k - 1], x[k - 1], eps);
      TailStep(Dot(u, x, k - 1), u[0] * x[0], eps, Tail(x, k - 1), u[k - 1], x[k - 1]);
    }
  }

  lemma TailStep(d: real, first: real, eps: real, t: real, u: real, x: real)
    requires d >= first - eps * t && AboveLine(u, x, eps)
    ensures d + u * x >= first - eps * (t + x)
  {
  }

  // No column up to jmax has a reduced cost below -eps.
  ghost predicate NoNegativeCost(d: Dict, jmax: nat, eps: real)
    requires d.Sized()
  {
    forall j :: 1 <= j <= jmax && j < d.width && d.row[j] == 0 ==> d.T(0, j) >= -eps
  }

  lemma RowEntry(d: Dict, i: nat, j: nat)
    requires d.Sized() && i <= d.m && j < d.width
    ensures |d.Row(i)| == d.width && d.Row(i)[j] == d.T(i, j)
  {
  }

  lemma TermBound(t: real, x: real, eps: real)
    requires x >= 0.0 && t >= -eps
    ensures AboveLine(t, x, eps)
  {
    assert (t + eps) * x >= 0.0;
  }

  // Weak duality: without negative reduced costs no nonnegative solution beats the basic one (by
  // more than eps times its components).
  lemma OptimalBound(d: Dict, x: Vec, jmax: nat, eps: real)
    requires d.Valid() && Solves(d, x) && Nonnegative(x) && NoNegativeCost(d, jmax, eps) && eps >= 0.0
    requires forall j :: jmax < j < d.width ==> x[j] == 0.0
    ensures Objective(d, x) >= -d.T(0, 0) - eps * Tail(x, d.width)
  {
    hide Dict.T, Dict.Nonsingular, Dict.Row, Dot;
    RowOnSolution(d, 0, x);
    RowEntry(d, 0, 0);
    forall j | 1 <= j < d.width
      ensures AboveLine(d.Row(0)[j], x[j], eps)
    {
      RowEntry(d, 0, j);
      if j > jmax {
        assert x[j] == 0.0;
      } else {
        if d.row[j] != 0 {
          assert d.T(0, d.col[d.row[j]]) == 0.0;
        }
        TermBound(d.T(0, j), x[j], eps);
      }
    }
    DotLower(d.Row(0), x, d.width, eps);
  }

  // The point reached from the basic solution by giving the nonbasic variable j the value theta.
  function Shifted(d: Dict, j: nat, theta: real): Vec
    requires d.Sized() && d.Inverse() && j < d.width
  {
    seq(d.width, l requires 0 <= l < d.width =>
      if l == 0 then -1.0
      else if l == j then theta
      else if d.row[l] != 0 then d.T(d.row[l], 0) - theta * d.T(d.row[l], j)
      else 0.0)
  }

  function BasicSolution(d: Dict): Vec
    requires d.Sized() && d.Inverse()
  {
    Shifted(d, 0, 0.0)
  }

  // Sum of three terms.
  lemma {:induction false} DotThree(u: Vec, v: Vec, b: nat, c: nat, k: nat)
    requires k <= |u| && k <= |v| && 0 < b < k && 0 < c && b != c
    requires forall l :: 0 <= l < k && l != 0 && l != b && l != c ==> u[l] * v[l] == 0.0
    ensures Dot(u, v, k) == u[0] * v[0] + u[b] * v[b] + if c < k then u[c] * v[c] else 0.0
  {
    if k - 1 == b {
      DotTwo(u, v, c, k - 1);
    } else {
      DotThree(u, v, b, c, k - 1);
    }
  }

  lemma {:induction false} DotTwo(u: Vec, v: Vec, c: nat, k: nat)
    requires 1 <= k <= |u| && k <= |v| && 0 < c
    requires forall l :: 0 <= l < k && l != 0 && l != c ==> u[l] * v[l] == 0.0
    ensures Dot(u, v, k) == u[0] * v[0] + if c < k then u[c] * v[c] else 0.0
  {
    if k == 1 {
      assert Dot(u, v, 0) == 0.0;
    } else {
      DotTwo(u, v, c, k - 1);
    }
  }

  // Terms of row i on the shifted point.
  lemma ShiftedTerm(d: Dict, j: nat, theta: real, i: nat, l: nat)
    requires d.Valid() && j < d.width && (j == 0 || d.row[j] == 0) && (j == 0 ==> theta == 0.0)
    requires i <= d.m && 1 <= l < d.width && l != j && (i == 0 || l != d.col[i])
    ensures d.Row(i)[l] * Shifted(d, j, theta)[l] == 0.0
  {
    hide Dict.T, Dict.Nonsingular, Dict.Row;
    RowEntry(d, i, l);
    if d.row[l] != 0 {
      assert d.T(i, d.col[d.row[l]]) == 0.0;
    }
  }

  lemma ShiftedTerms(d: Dict, j: nat, theta: real, i: nat)
    requires d.Valid() && j < d.width && (j == 0 || d.row[j] == 0) && (j == 0 ==> theta == 0.0) && i <= d.m
    ensures |d.Row(i)| == d.width
    ensures forall l :: 1 <= l < d.width && l != j && (i == 0 || l != d.col[i]) ==>
      d.Row(i)[l] * Shifted(d, j, theta)[l] == 0.0
  {
    hide Dict.T, Dict.UnitColumns, Dict.Nonsingular, Dict.Row;
    RowEntry(d, i, 0);
    forall l | 1 <= l < d.width && l != j && (i == 0 || l != d.col[i])
      ensures d.Row(i)[l] * Shifted(d, j, theta)[l] == 0.0
    {
      ShiftedTerm(d, j, theta, i, l);
    }
  }

  lemma RowOnShifted(d: Dict, j: nat, theta: real, i: nat)
    requires d.Valid() && j < d.width && (j == 0 || d.row[j] == 0) && (j == 0 ==> theta == 0.0) && i <= d.m
    ensures Dot(d.Row(i), Shifted(d, j, theta), d.width) == if i == 0 then theta * d.T(0, j) - d.T(0, 0) else 0.0
  {
    hide Dict.T, Dict.Nonsingular, Dict.Row, Dot;
    var x := Shifted(d, j, theta);
    RowEntry(d, i, 0);
    RowEntry(d, i, j);
    ShiftedTerms(d, j, theta, i);
    var c := if i == 0 then d.width else d.col[i];
    if i > 0 {
      RowEntry(d, i, c);
      assert d.T(i, d.col[i]) == 1.0;
    }
    if j == 0 {
      DotTwo(d.Row(i), x, c, d.width);
    } else {
      DotThree(d.Row(i), x, j, c, d.width);
    }
  }

  // The shifted point solves the constraints, and its objective is what the tableau says.
  lemma ShiftedSolves(d: Dict, j: nat, theta: real)
    requires d.Valid() && j < d.width && (j == 0 || d.row[j] == 0) && (j == 0 ==> theta == 0.0)
    ensures Solves(d, Shifted(d, j, theta))
    ensures Objective(d, Shifted(d, j, theta)) == theta * d.T(0, j) - d.T(0, 0)
  {
    hide Dict.T, Dot;
    var x := Shifted(d, j, theta);
    var r := Residuals(d.a, d.m + 1, d.width, x, d.width);
    forall i | 1 <= i <= d.m
      ensures Dot(d.q[i], r, d.m + 1) == 0.0
    {
      CombineResiduals(d.q[i], d.a, d.m + 1, d.width, x, d.width);
      RowOnShifted(d, j, theta, i);
    }
    assert d.Annihilates(r);
    assert forall k :: 1 <= k <= d.m ==> r[k] == Dot(d.a[k], x, d.width);
    RowOnSolution(d, 0, x);
    RowOnShifted(d, j, theta, 0);
  }

  // The basic solution satisfies the constraints, is nonnegative, and its objective is minus
  // entry (0, 0) of the tableau.
  lemma BasicSolves(d: Dict)
    requires d.Valid()
    ensures Solves(d, BasicSolution(d)) && Objective(d, BasicSolution(d)) == -d.T(0, 0)
    ensures d.Feasible() ==> Nonnegative(BasicSolution(d))
  {
    hide Dict.T;
    ShiftedSolves(d, 0, 0.0);
  }

  // Without a positive entry in a column of negative reduced cost the objective has no lower
  // bound: it can be lowered as far as one likes along the column.
  lemma UnboundedRay(d: Dict, j: nat, theta: real)
    requires d.Valid() && d.Feasible() && 1 <= j < d.width && d.row[j] == 0 && theta >= 0.0
    requires forall i :: 1 <= i <= d.m ==> theta * d.T(i, j) <= d.T(i, 0)
    ensures Solves(d, Shifted(d, j, theta)) && Nonnegative(Shifted(d, j, theta))
    ensures Objective(d, Shifted(d, j, theta)) == -d.T(0, 0) + theta * d.T(0, j)
  {
    hide Dict.T;
    ShiftedSolves(d, j, theta);
  }

  // ---------------------------------------------------------------- a new objective

  // d and e have the same constraints and basis; their rows 0 may differ.
  ghost predicate SameConstraints(d: Dict, e: Dict) {
    && d.Sized() && e.Sized() && d.m == e.m && d.width == e.width && d.col == e.col && d.row == e.row
    && forall i :: 1 <= i <= d.m ==> d.q[i] == e.q[i] && d.a[i] == e.a[i]
  }

  // The part of the invariant that does not look at the objective.
  ghost predicate Basis(d: Dict)
    requires d.Sized()
  {
    && d.Inverse() && d.Nonsingular()
    && (forall i :: 1 <= i <= d.m ==> d.q[i][0] == 0.0)
    && (forall i, k :: 1 <= i <= d.m && 1 <= k <= d.m ==> d.T(i, d.col[k]) == if i == k then 1.0 else 0.0)
  }

  lemma {:induction false} DotSkipsFirst(u: Vec, v: Vec, w: Vec, k: nat)
    requires k <= |u| && k <= |v| && k <= |w| && (k > 0 ==> u[0] == 0.0)
    requires forall l :: 1 <= l < k ==> v[l] == w[l]
    ensures Dot(u, v, k) == Dot(u, w, k)
  {
    if k > 0 {
      DotSkipsFirst(u, v, w, k - 1);
    }
  }

  lemma SameEntry(d: Dict, e: Dict, i: nat, j: nat)
    requires SameConstraints(d, e) && 1 <= i <= d.m && j < d.width && d.q[i][0] == 0.0
    ensures e.T(i, j) == d.T(i, j)
  {
    hide Dot;
    DotSkipsFirst(d.q[i], Column(d.a, d.m + 1, d.width, j), Column(e.a, d.m + 1, d.width, j), d.m + 1);
  }

  lemma SameKernel(d: Dict, e: Dict)
    requires SameConstraints(d, e) && d.Nonsingular()
    ensures e.Nonsingular()
  {
    hide Dot;
    assert forall r: Vec :: e.Annihilates(r) ==> d.Annihilates(r);
  }

  lemma SameBasis(d: Dict, e: Dict)
    requires SameConstraints(d, e) && Basis(d)
    ensures Basis(e)
    ensures d.Feasible() ==> e.Feasible()
  {
    hide Dict.T, Dict.Nonsingular;
    SameKernel(d, e);
    forall i, j | 1 <= i <= d.m && 0 <= j < d.width
      ensures e.T(i, j) == d.T(i, j)
    {
      SameEntry(d, e, i, j);
    }
  }

  // Row 0 of q after the costs of the first i basic variables, and of all beyond n2, have been
  // eliminated.
  ghost predicate Priced(d: Dict, i: nat, n2: nat) {
    && d.Sized() && Basis(d) && d.q[0][0] == 1.0
    && forall k :: 1 <= k <= d.m ==> d.T(0, d.col[k]) == if k <= i || d.col[k] > n2 then 0.0 else d.a[0][d.col[k]]
  }

  // Subtracting the cost of the basic variable of row i times row i.
  function Reprice(d: Dict, i: nat): Dict
    requires d.Sized() && 1 <= i <= d.m && 0 <= d.col[i] < d.width
  {
    d.(q := d.q[0 := EliminatedRow(d.q[0], d.q[i], d.a[0][d.col[i]])])
  }

  lemma PricedStep(d: Dict, i: nat, n2: nat)
    requires 1 <= i <= d.m && Priced(d, i - 1, n2) && d.col[i] <= n2
    ensures Priced(Reprice(d, i), i, n2)
    ensures d.Feasible() ==> Reprice(d, i).Feasible()
  {
    hide Dict.Nonsingular, Dot, EliminatedRow;
    var e, w := Reprice(d, i), d.a[0][d.col[i]];
    assert |e.q[0]| == d.m + 1 && e.q[0][0] == 1.0 by { RepriceShape(d.q[0], d.q[i], w); }
    SameBasis(d, e);
    forall k | 1 <= k <= d.m
      ensures e.T(0, d.col[k]) == if k <= i || d.col[k] > n2 then 0.0 else d.a[0][d.col[k]]
    {
      EliminatedRowDot(d.q[0], d.q[i], w, Column(d.a, d.m + 1, d.width, d.col[k]));
      assert e.T(0, d.col[k]) == d.T(0, d.col[k]) - w * d.T(i, d.col[k]);
    }
  }

  lemma RepriceShape(r: Vec, pr: Vec, u: real)
    requires |r| == |pr| >= 1
    ensures |EliminatedRow(r, pr, u)| == |r| && EliminatedRow(r, pr, u)[0] == r[0]
  {
  }

  // A basic variable without cost leaves nothing to eliminate.
  lemma PricedSkip(d: Dict, i: nat, n2: nat)
    requires 1 <= i <= d.m && Priced(d, i - 1, n2) && (d.col[i] > n2 || d.a[0][d.col[i]] == 0.0)
    ensures Priced(d, i, n2)
  {
    hide Dict.T, Dict.Nonsingular;
  }

  lemma PricedIsValid(d: Dict, n2: nat)
    requires Priced(d, d.m, n2)
    ensures d.Valid()
  {
    hide Dict.T, Dict.Nonsingular;
  }

  lemma ValidIsBasis(d: Dict)
    requires d.Valid()
    ensures Basis(d)
  {
    hide Dict.T, Dict.Nonsingular;
  }

  // ---------------------------------------------------------------- the basis determines the state

  // Column k of q as a combination of the basic columns.
  function BasicWeights(d: Dict, k: nat): Vec
    requires d.Sized() && d.Inverse() && k <= d.m
  {
    seq(d.width, j requires 0 <= j < d.width => if j > 0 && d.row[j] != 0 then d.q[d.row[j]][k] else 0.0)
  }

  // The basic columns with these weights add up to the unit vector k.
  lemma WeightsMakeUnit(d: Dict, k: nat, i: nat)
    requires d.Valid() && 1 <= k <= d.m && 1 <= i <= d.m
    ensures Dot(d.a[i], BasicWeights(d, k), d.width) == if i == k then 1.0 else 0.0
  {
    hide Dict.T, Dot, Dict.Nonsingular;
    var r := Residuals(d.a, d.m + 1, d.width, BasicWeights(d, k), d.width);
    var s := r[k := r[k] - 1.0];
    forall l | 1 <= l <= d.m
      ensures Dot(d.q[l], s, d.m + 1) == 0.0
    {
      RowOnWeights(d, k, l);
      CombineResiduals(d.q[l], d.a, d.m + 1, d.width, BasicWeights(d, k), d.width);
      DotUpdates(d.q[l], r, k, r[k] - 1.0, d.m + 1);
    }
    assert d.Annihilates(s);
    KernelIsZero(d, s, i);
  }

  lemma KernelIsZero(d: Dict, r: Vec, i: nat)
    requires d.Sized() && d.Nonsingular() && d.Annihilates(r) && 1 <= i <= d.m
    ensures |r| == d.m + 1 && r[i] == 0.0
  {
  }

  // Row l of the tableau on the weights.
  lemma RowOnWeights(d: Dict, k: nat, l: nat)
    requires d.Valid() && 1 <= k <= d.m && 1 <= l <= d.m
    ensures |d.Row(l)| == d.width && Dot(d.Row(l), BasicWeights(d, k), d.width) == d.q[l][k]
  {
    hide Dict.T, Dict.Nonsingular, Dict.Row, Dot;
    var c := d.col[l];
    RowEntry(d, l, c);
    assert d.T(l, d.col[l]) == 1.0;
    forall j | 0 <= j < d.width && j != c
      ensures d.Row(l)[j] * BasicWeights(d, k)[j] == 0.0
    {
      RowEntry(d, l, j);
      if j > 0 && d.row[j] != 0 {
        assert d.T(l, d.col[d.row[j]]) == 0.0;
      }
    }
    DotTwo(d.Row(l), BasicWeights(d, k), c, d.width);
  }

  // Row i of any other valid state with the same basis takes the same values on the basic columns.
  lemma SameWeight(d: Dict, e: Dict, k: nat, i: nat)
    requires d.Valid() && e.Valid() && d.m == e.m && d.width == e.width && d.a == e.a
    requires d.col == e.col && d.row == e.row && 1 <= k <= d.m && i <= d.m
    ensures e.q[i][k] == d.q[i][k]
  {
    WeightInRow(d, d, k, i);
    WeightInRow(d, e, k, i);
    hide Dict.T, Dot, Dict.Nonsingular;
    var x := BasicWeights(d, k);
    RowEntry(d, i, 0);
    RowEntry(e, i, 0);
    forall j | 0 <= j < d.width
      ensures d.Row(i)[j] * x[j] == e.Row(i)[j] * x[j]
    {
      RowEntry(d, i, j);
      RowEntry(e, i, j);
      if j > 0 && d.row[j] != 0 {
        assert d.T(i, d.col[d.row[j]]) == e.T(i, e.col[e.row[j]]);
      }
    }
    DotTerms(d.Row(i), x, e.Row(i), x, d.width);
  }

  // q[i][k] from the values of row i on the basic columns.
  lemma WeightInRow(d: Dict, e: Dict, k: nat, i: nat)
    requires d.Valid() && e.Sized() && e.FirstColumn() && d.m == e.m && d.width == e.width && d.a == e.a
    requires 1 <= k <= d.m && i <= d.m
    ensures |e.Row(i)| == d.width
    ensures var x := BasicWeights(d, k);
      Dot(e.Row(i), x, d.width) == e.q[i][k] + if i == 0 then Dot(d.a[0], x, d.width) else 0.0
  {
    hide Dict.T, Dot, Dict.Nonsingular, Dict.UnitColumns;
    var x := BasicWeights(d, k);
    var r := Residuals(d.a, d.m + 1, d.width, x, d.width);
    RowEntry(e, i, 0);
    CombineResiduals(e.q[i], e.a, d.m + 1, d.width, x, d.width);
    forall l | 1 <= l <= d.m
      ensures r[l] == if l == k then 1.0 else 0.0
    {
      WeightsMakeUnit(d, k, l);
    }
    DotTwo(e.q[i], r, k, d.m + 1);
  }

  // A valid state is determined by its basis.
  lemma BasisDetermines(d: Dict, e: Dict)
    requires d.Valid() && e.Valid() && d.m == e.m && d.width == e.width && d.a == e.a
    requires d.col == e.col && d.row == e.row
    ensures d == e
  {
    forall i | 0 <= i <= d.m
      ensures d.q[i] == e.q[i]
    {
      forall k | 1 <= k <= d.m
        ensures d.q[i][k] == e.q[i][k]
      {
        SameWeight(d, e, k, i);
      }
      hide Dict.T, Dict.Nonsingular, Dict.UnitColumns, Dict.Inverse;
    }
    assert d.q == e.q;
  }
}
