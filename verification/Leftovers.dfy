// Rows whose artificial variable is still basic after phase 1 are given up: tableau() shows zeros for
// them.  From then on the program works on the problem without their constraints.
module Leftovers {
  import opened LinearAlgebra
  import opened Tableau
  import opened StandardForm
  import opened Pivoting

  function Unit(k: nat, size: nat): Vec {
    seq(size, l => if l == k then 1.0 else 0.0)
  }

  // Row i of the program's state v and of the state d of the problem without the constraints gone.
  ghost predicate RowMatches(pr: Problem, gone: set<nat>, d: Dict, v: Dict, i: nat)
    requires pr.Sized() && d.Sized() && v.Sized() && d.m == v.m == pr.m && 1 <= i <= pr.m
  {
    if v.col[i] < 0 then
      pr.n2 < d.col[i] <= pr.n3 && pr.nz[d.col[i]] in gone && d.q[i] == Unit(pr.nz[d.col[i]], pr.m + 1)
    else
      v.col[i] == d.col[i] && v.q[i] == d.q[i] && forall k :: k in gone && k <= pr.m ==> d.q[i][k] == 0.0
  }

  ghost predicate RowsMatch(pr: Problem, gone: set<nat>, d: Dict, v: Dict)
    requires pr.Sized()
  {
    && Dropped(pr, gone).Sized() && d == State(Dropped(pr, gone), d.q, d.col, d.row)
    && v == State(pr, v.q, v.col, v.row)
    && d.Sized() && v.Sized() && d.row == v.row && d.col[0] == v.col[0] == 0
    && (forall k :: k in gone ==> 1 <= k <= pr.m && pr.rel[k] != AtMost)
    && forall i :: 1 <= i <= pr.m ==> RowMatches(pr, gone, d, v, i)
  }

  ghost predicate ObjectiveMatches(pr: Problem, gone: set<nat>, d: Dict, v: Dict)
    requires pr.Sized() && d.Sized() && v.Sized() && d.m == v.m == pr.m
  {
    && (forall k :: k in gone && k <= pr.m ==> v.q[0][k] == 0.0)
    && forall k :: 0 <= k <= pr.m ==> d.q[0][k] == if k in gone then -1.0 else v.q[0][k]
  }

  // The program in state v does what it would do in state d of the problem without gone.
  ghost predicate Shadows(pr: Problem, gone: set<nat>, d: Dict, v: Dict) {
    pr.Prepared() && RowsMatch(pr, gone, d, v) && ObjectiveMatches(pr, gone, d, v) && d.FirstColumn() && v.FirstColumn()
  }

  lemma ShadowsShape(pr: Problem, gone: set<nat>, d: Dict, v: Dict)
    requires Shadows(pr, gone, d, v)
    ensures pr.Prepared() && d.Sized() && v.Sized() && d.m == v.m == pr.m && d.width == v.width == pr.n3 + 1
    ensures |d.col| == |v.col| == pr.m + 1 && d.col[0] == v.col[0] == 0 && d.row == v.row && |v.row| == v.width
    ensures Dropped(pr, gone).Sized() && d == State(Dropped(pr, gone), d.q, d.col, d.row)
    ensures forall i :: 1 <= i <= pr.m && v.col[i] >= 0 ==> d.col[i] == v.col[i]
    ensures d.FirstColumn() && v.FirstColumn()
  {
    hide Dict.T;
    forall i | 1 <= i <= pr.m && v.col[i] >= 0
      ensures d.col[i] == v.col[i]
    {
      assert RowMatches(pr, gone, d, v, i);
    }
  }

  // ---------------------------------------------------------------- entries

  lemma DroppedEntry(pr: Problem, gone: set<nat>, l: nat, j: nat)
    requires pr.Sized() && l <= pr.m && j <= pr.n3
    ensures Dropped(pr, gone).Sized() && pr.Extended()[l][j] == pr.Entry(l, j)
    ensures Dropped(pr, gone).Extended()[l][j] == if l > 0 && l in gone && j <= pr.n then 0.0 else pr.Extended()[l][j]
  {
  }

  lemma RowsShape(pr: Problem, gone: set<nat>, d: Dict, v: Dict)
    requires pr.Sized() && RowsMatch(pr, gone, d, v)
    ensures Dropped(pr, gone).Sized() && d.Sized() && v.Sized() && d.m == v.m == pr.m && d.width == v.width == pr.n3 + 1
    ensures d.a == Dropped(pr, gone).Extended() && v.a == pr.Extended() && d.row == v.row
    ensures Matrix(d.q, pr.m + 1, pr.m + 1) && Matrix(v.q, pr.m + 1, pr.m + 1)
    ensures Matrix(d.a, pr.m + 1, pr.n3 + 1) && Matrix(v.a, pr.m + 1, pr.n3 + 1)
    ensures forall k :: k in gone ==> 1 <= k <= pr.m
  {
    hide RowMatches;
  }

  // Rows that were not given up have the same entries.
  lemma LiveEntry(pr: Problem, gone: set<nat>, d: Dict, v: Dict, i: nat, j: nat)
    requires pr.Sized() && RowsMatch(pr, gone, d, v) && 1 <= i <= pr.m && v.col[i] >= 0 && j <= pr.n3
    ensures d.T(i, j) == v.T(i, j)
  {
    hide Dot, Problem.Extended, Dropped, Problem.Sized, Dict.Sized;
    RowsShape(pr, gone, d, v);
    var x, y := Column(d.a, pr.m + 1, pr.n3 + 1, j), Column(v.a, pr.m + 1, pr.n3 + 1, j);
    assert RowMatches(pr, gone, d, v, i);
    forall l | 0 <= l <= pr.m
      ensures d.q[i][l] * x[l] == v.q[i][l] * y[l]
    {
      DroppedEntry(pr, gone, l, j);
      if l in gone {
        assert d.q[i][l] == 0.0 && v.q[i][l] == 0.0;
      }
    }
    DotTerms(d.q[i], x, v.q[i], y, pr.m + 1);
  }

  // The surplus columns of the constraints given up.
  predicate Dead(pr: Problem, gone: set<nat>, j: nat)
    requires pr.Sized()
  {
    pr.n < j <= pr.n1 && pr.nz[j] in gone
  }

  lemma GoneEntry(pr: Problem, gone: set<nat>, d: Dict, v: Dict, i: nat, j: nat)
    requires pr.Sized() && RowsMatch(pr, gone, d, v) && 1 <= i <= pr.m && v.col[i] < 0 && j <= pr.n3
    ensures pr.n2 < d.col[i] <= pr.n3 && pr.nz[d.col[i]] in gone && 1 <= pr.nz[d.col[i]] <= pr.m
    ensures d.T(i, j) == if j <= pr.n then 0.0 else pr.Entry(pr.nz[d.col[i]], j)
  {
    hide Dot, Dropped, Problem.Extended;
    RowsShape(pr, gone, d, v);
    assert RowMatches(pr, gone, d, v, i);
    var k := pr.nz[d.col[i]];
    var x := Column(d.a, d.m + 1, d.width, j);
    DotUnit(d.q[i], x, k, pr.m + 1);
    DroppedEntry(pr, gone, k, j);
  }

  // A row given up has zeros, as tableau() shows them.
  lemma GoneIsZero(pr: Problem, gone: set<nat>, d: Dict, v: Dict, i: nat, j: nat)
    requires pr.Prepared() && RowsMatch(pr, gone, d, v) && 1 <= i <= pr.m && v.col[i] < 0 && j <= pr.n2
    requires !Dead(pr, gone, j)
    ensures d.T(i, j) == 0.0
  {
    GoneEntry(pr, gone, d, v, i, j);
    hide Dict.T, RowsMatch;
    assert pr.n1 < j ==> pr.rel[pr.nz[j]] == AtMost;
    assert pr.rel[pr.nz[d.col[i]]] != AtMost;
  }

  // Reduced costs are the same, except in dead columns, which never enter.
  lemma CostEntry(pr: Problem, gone: set<nat>, d: Dict, v: Dict, j: nat)
    requires Shadows(pr, gone, d, v) && j <= pr.n3 && (j <= pr.n2 || gone == {})
    ensures if Dead(pr, gone, j) then v.T(0, j) == 0.0 && d.T(0, j) == 1.0 else d.T(0, j) == v.T(0, j)
  {
    hide Dot, Problem.Extended, Dict.T, RowMatches, Problem.Entry, Dropped, Problem.Added;
    RowsShape(pr, gone, d, v);
    if j <= pr.n {
      GivenCost(pr, gone, d, v, j);
    } else {
      AddedCost(pr, gone, d, v, j);
    }
  }

  lemma GivenCost(pr: Problem, gone: set<nat>, d: Dict, v: Dict, j: nat)
    requires Shadows(pr, gone, d, v) && j <= pr.n
    ensures d.T(0, j) == v.T(0, j)
  {
    hide Dot, Problem.Extended, Dict.T, RowMatches, Problem.Entry, Problem.Added;
    RowsShape(pr, gone, d, v);
    var p := Dropped(pr, gone);
    var x, y := Column(p.a, pr.m + 1, pr.n + 1, j), Column(pr.a, pr.m + 1, pr.n + 1, j);
    GivenEntry(p, d, 0, j);
    GivenEntry(pr, v, 0, j);
    forall l | 0 <= l <= pr.m
      ensures d.q[0][l] * x[l] == v.q[0][l] * y[l]
    {
    }
    DotTerms(d.q[0], x, v.q[0], y, pr.m + 1);
  }

  lemma AddedCost(pr: Problem, gone: set<nat>, d: Dict, v: Dict, j: nat)
    requires Shadows(pr, gone, d, v) && pr.n < j <= pr.n3 && (j <= pr.n2 || gone == {})
    ensures if Dead(pr, gone, j) then v.T(0, j) == 0.0 && d.T(0, j) == 1.0 else d.T(0, j) == v.T(0, j)
  {
    hide Dot, Problem.Extended, Dict.T, RowMatches, Problem.Entry, Dropped;
    RowsShape(pr, gone, d, v);
    DroppedFields(pr, gone);
    AddedEntry(Dropped(pr, gone), d, 0, j);
    AddedEntry(pr, v, 0, j);
    assert pr.n1 < j <= pr.n2 ==> pr.rel[pr.nz[j]] == AtMost;
    assert pr.nz[j] <= pr.m;
  }

  // What tableau() shows in state v is the tableau of d.
  lemma ShownMatches(pr: Problem, gone: set<nat>, d: Dict, v: Dict, i: nat, j: nat)
    requires Shadows(pr, gone, d, v) && i <= pr.m && j <= pr.n3 && (j <= pr.n2 || gone == {}) && !Dead(pr, gone, j)
    ensures Shown(v, i, j) == d.T(i, j)
  {
    hide Dict.T, RowMatches, ObjectiveMatches;
    if i == 0 {
      CostEntry(pr, gone, d, v, j);
    } else if v.col[i] >= 0 {
      LiveEntry(pr, gone, d, v, i, j);
    } else {
      GoneEntry(pr, gone, d, v, i, j);
      GoneIsZero(pr, gone, d, v, i, j);
    }
  }

  // Before any row is given up the two states are the same.
  lemma NothingGone(pr: Problem, d: Dict, v: Dict)
    requires Shadows(pr, {}, d, v)
    ensures d == v
  {
    hide Dict.T;
    forall i | 1 <= i <= pr.m
      ensures d.col[i] == v.col[i] && d.q[i] == v.q[i]
    {
      assert RowMatches(pr, {}, d, v, i);
    }
    assert d.q[0] == v.q[0];
    assert d.q == v.q && d.col == v.col;
    DroppedShape(pr, {});
  }

  lemma ShadowsItself(pr: Problem, d: Dict)
    requires pr.Prepared() && d == State(pr, d.q, d.col, d.row) && d.Sized() && d.FirstColumn() && d.col[0] == 0
    requires forall i :: 1 <= i <= pr.m ==> d.col[i] >= 0
    ensures Shadows(pr, {}, d, d)
  {
    hide Dict.T, Problem.Added;
    DroppedShape(pr, {});
  }

  // ---------------------------------------------------------------- the steps of minimize()

  lemma CostsMatch(pr: Problem, gone: set<nat>, d: Dict, v: Dict, jmax: nat, eps: real)
    requires Shadows(pr, gone, d, v) && jmax <= pr.n3 && (jmax <= pr.n2 || gone == {}) && eps >= 0.0
    requires NoNegativeCost(v, jmax, eps)
    ensures NoNegativeCost(d, jmax, eps)
  {
    RowsShape(pr, gone, d, v);
    hide Dict.T, RowsMatch, ObjectiveMatches, Dead;
    forall j | 1 <= j <= jmax && j < d.width && d.row[j] == 0
      ensures d.T(0, j) >= -eps
    {
      CostEntry(pr, gone, d, v, j);
    }
  }

  // The pivot column and the row that leaves are found as in d.
  lemma ChoiceMatches(pr: Problem, gone: set<nat>, d: Dict, v: Dict, pc: Vec, j: nat, p: nat, u: real,
      eps: real, large: real)
    requires Shadows(pr, gone, d, v) && d.Valid() && 1 <= j <= pr.n3 && (j <= pr.n2 || gone == {}) && eps >= 0.0
    requires v.T(0, j) < -eps && IsColumn(v, pc, j, v.m + 1) && Best(v, pc, v.m + 1, p, u, eps, large)
    ensures d.m == v.m && d.width == v.width && d.T(0, j) == v.T(0, j) && !Dead(pr, gone, j)
    ensures IsColumn(d, pc, j, d.m + 1) && Best(d, pc, d.m + 1, p, u, eps, large) && pc == PivotColumn(d, j)
  {
    RowsShape(pr, gone, d, v);
    CostEntry(pr, gone, d, v, j);
    hide Dict.T, RowsMatch, ObjectiveMatches, Shown, Dict.UnitColumns, Dict.Nonsingular;
    forall i | 0 <= i <= pr.m
      ensures Shown(v, i, j) == d.T(i, j) == Shown(d, i, j)
      ensures Shown(v, i, 0) == d.T(i, 0) == Shown(d, i, 0)
    {
      ShownIs(d, i, j);
      ShownIs(d, i, 0);
      ShownMatches(pr, gone, d, v, i, j);
      ShownMatches(pr, gone, d, v, i, 0);
    }
  }

  function Pivoted(d: Dict, pc: Vec, p: nat, j: nat): Dict
    requires d.Sized() && |pc| == d.m + 1 && 1 <= p <= d.m && 1 <= j < d.width && pc[p] != 0.0
    requires 0 <= d.col[p] < d.width
  {
    d.(q := PivotQ(d.q, pc, p), col := d.col[p := j], row := d.row[d.col[p] := 0][j := p])
  }

  // A row of the pivot's result, in the program and in d.
  lemma RowSteps(pr: Problem, gone: set<nat>, d: Dict, v: Dict, w: Dict, pc: Vec, p: nat, j: nat, i: nat)
    requires Shadows(pr, gone, d, v) && IsStep(v, w, pc, p, j) && d.m == v.m == pr.m && d.width == v.width
    requires 0 <= d.col[p] < d.width && IsStep(d, Pivoted(d, pc, p, j), pc, p, j)
    requires IsColumn(v, pc, j, pr.m + 1) && v.col[p] >= 0 && 1 <= i <= pr.m
    ensures RowMatches(pr, gone, Pivoted(d, pc, p, j), w, i)
  {
    hide Dict.T, Dropped, Problem.Added;
    assert RowMatches(pr, gone, d, v, i) && RowMatches(pr, gone, d, v, p);
    if v.col[i] < 0 {
      assert pc[i] == Shown(v, i, j) == 0.0;
      assert Pivoted(d, pc, p, j).q[i] == d.q[i];
    }
  }

  lemma ObjectiveSteps(pr: Problem, gone: set<nat>, d: Dict, v: Dict, w: Dict, pc: Vec, p: nat, j: nat)
    requires Shadows(pr, gone, d, v) && IsStep(v, w, pc, p, j) && d.m == v.m == pr.m && d.width == v.width
    requires 0 <= d.col[p] < d.width && v.col[p] >= 0
    requires IsStep(d, Pivoted(d, pc, p, j), pc, p, j)
    ensures ObjectiveMatches(pr, gone, Pivoted(d, pc, p, j), w) && Pivoted(d, pc, p, j).FirstColumn()
  {
    hide Dict.T, Dropped, Problem.Added, Problem.Extended;
    assert RowMatches(pr, gone, d, v, p);
  }

  // A pivot of the program is a pivot in d.
  lemma StepMatches(pr: Problem, gone: set<nat>, d: Dict, v: Dict, w: Dict, pc: Vec, p: nat, j: nat)
    requires Shadows(pr, gone, d, v) && IsStep(v, w, pc, p, j) && IsColumn(v, pc, j, pr.m + 1) && v.col[p] >= 0
    requires w.FirstColumn()
    ensures d.m == v.m && d.width == v.width && d.col[p] == v.col[p]
    ensures Shadows(pr, gone, Pivoted(d, pc, p, j), w) && IsStep(d, Pivoted(d, pc, p, j), pc, p, j)
  {
    hide Dict.T, Dropped, Problem.Added, IsColumn, Problem.Extended, PivotQ, ObjectiveMatches;
    RowsShape(pr, gone, d, v);
    assert d.col[p] == v.col[p] by {
      assert RowMatches(pr, gone, d, v, p);
    }
    hide RowMatches;
    assert IsStep(d, Pivoted(d, pc, p, j), pc, p, j) by {
      PivotQShape(d.q, pc, p);
    }
    ObjectiveSteps(pr, gone, d, v, w, pc, p, j);
    forall i | 1 <= i <= pr.m
      ensures RowMatches(pr, gone, Pivoted(d, pc, p, j), w, i)
    {
      RowSteps(pr, gone, d, v, w, pc, p, j, i);
    }
  }

  lemma PivotQShape(q: seq<Vec>, pc: Vec, p: nat)
    requires p < |q| == |pc| && pc[p] != 0.0 && Matrix(q, |q|, |q|)
    ensures Matrix(PivotQ(q, pc, p), |q|, |q|)
  {
  }

  // ---------------------------------------------------------------- giving up a row

  // d without the constraint whose artificial variable is basic in row i: that constraint becomes
  // 0 == 0, and row i of the tableau the artificial variable alone.
  function GaveUp(pr: Problem, gone: set<nat>, d: Dict, i: nat): Dict
    requires pr.Sized() && i < |d.col| && i < |d.q| && pr.n < d.col[i] <= pr.n3
  {
    var k := pr.nz[d.col[i]];
    State(Dropped(pr, gone + {k}), d.q[i := Unit(k, pr.m + 1)], d.col, d.row)
  }

  // The invariant of the rows while rows are given up.
  ghost predicate Leaves(pr: Problem, gone: set<nat>, d: Dict, v: Dict) {
    pr.Prepared() && RowsMatch(pr, gone, d, v) && Basis(d) && d.FirstColumn()
  }

  lemma LeavesShape(pr: Problem, gone: set<nat>, d: Dict, v: Dict)
    requires Leaves(pr, gone, d, v)
    ensures d.Sized() && v.Sized() && |d.q| == |d.col| == |v.col| == pr.m + 1
  {
    hide Dict.T, Basis, RowMatches;
  }

  lemma LeavesStarts(pr: Problem, d: Dict)
    requires pr.Prepared() && d == State(pr, d.q, d.col, d.row) && d.Valid() && d.col[0] == 0
    ensures Leaves(pr, {}, d, d)
  {
    hide Dict.T, Problem.Added, Dict.Nonsingular;
    ShadowsItself(pr, d);
    ValidIsBasis(d);
  }

  // The column of q that belongs to a basic artificial variable is a unit vector.
  lemma ArtificialColumn(pr: Problem, gone: set<nat>, d: Dict, v: Dict, i: nat, l: nat)
    requires Leaves(pr, gone, d, v) && 1 <= i <= pr.m && pr.n2 < d.col[i] && 1 <= l <= pr.m
    ensures d.col[i] <= pr.n3 && 1 <= pr.nz[d.col[i]] <= pr.m
    ensures |d.q[l]| == pr.m + 1 && d.q[l][pr.nz[d.col[i]]] == if l == i then 1.0 else 0.0
  {
    hide Dict.T, Dict.Nonsingular, RowMatches, Problem.Extended, Problem.Entry, Dropped, Problem.Added;
    RowsShape(pr, gone, d, v);
    DroppedFields(pr, gone);
    AddedEntry(Dropped(pr, gone), d, l, d.col[i]);
  }

  lemma NotYetGone(pr: Problem, gone: set<nat>, d: Dict, v: Dict, i: nat)
    requires Leaves(pr, gone, d, v) && 1 <= i <= pr.m && v.col[i] > pr.n2
    ensures v.col[i] == d.col[i] <= pr.n3 && 1 <= pr.nz[d.col[i]] <= pr.m && pr.nz[d.col[i]] !in gone
    ensures pr.rel[pr.nz[d.col[i]]] != AtMost
  {
    hide Dict.T, Dict.Nonsingular, Dropped, Basis;
    RowsShape(pr, gone, d, v);
    assert RowMatches(pr, gone, d, v, i);
    ArtificialColumn(pr, gone, d, v, i, i);
  }

  // The other rows of the tableau stay as they are.
  lemma OtherRowsStay(pr: Problem, gone: set<nat>, d: Dict, v: Dict, i: nat, l: nat, j: nat)
    requires Leaves(pr, gone, d, v) && 1 <= i <= pr.m && v.col[i] > pr.n2 && pr.n2 < d.col[i] <= pr.n3
    requires 1 <= l <= pr.m && l != i && j <= pr.n3 && GaveUp(pr, gone, d, i).Sized()
    ensures GaveUp(pr, gone, d, i).T(l, j) == d.T(l, j)
  {
    hide Dot, Basis, RowMatches, Dropped, Problem.Extended, Problem.Added, Unit;
    RowsShape(pr, gone, d, v);
    ArtificialColumn(pr, gone, d, v, i, l);
    var e, k := GaveUp(pr, gone, d, i), pr.nz[d.col[i]];
    var x, y := Column(e.a, pr.m + 1, pr.n3 + 1, j), Column(d.a, pr.m + 1, pr.n3 + 1, j);
    forall r | 0 <= r <= pr.m
      ensures e.q[l][r] * x[r] == d.q[l][r] * y[r]
    {
      DroppedEntry(pr, gone, r, j);
      DroppedEntry(pr, gone + {k}, r, j);
    }
    DotTerms(e.q[l], x, d.q[l], y, pr.m + 1);
  }

  lemma NewRow(pr: Problem, gone: set<nat>, d: Dict, v: Dict, i: nat, j: nat)
    requires Leaves(pr, gone, d, v) && 1 <= i <= pr.m && v.col[i] > pr.n2 && pr.n2 < d.col[i] <= pr.n3
    requires j <= pr.n3 && GaveUp(pr, gone, d, i).Sized() && 1 <= pr.nz[d.col[i]] <= pr.m
    ensures GaveUp(pr, gone, d, i).T(i, j) == if j <= pr.n then 0.0 else pr.Entry(pr.nz[d.col[i]], j)
  {
    hide Dot, Basis, RowMatches, Dropped, Problem.Extended, Problem.Added;
    RowsShape(pr, gone, d, v);
    var e, k := GaveUp(pr, gone, d, i), pr.nz[d.col[i]];
    DotUnit(e.q[i], Column(e.a, pr.m + 1, pr.n3 + 1, j), k, pr.m + 1);
    DroppedEntry(pr, gone + {k}, k, j);
  }

  // The new row is a unit row on the basic columns.
  lemma NewRowIsUnit(pr: Problem, gone: set<nat>, d: Dict, v: Dict, i: nat, l: nat)
    requires Leaves(pr, gone, d, v) && 1 <= i <= pr.m && v.col[i] > pr.n2 && pr.n2 < d.col[i] <= pr.n3
    requires 1 <= l <= pr.m && GaveUp(pr, gone, d, i).Sized()
    ensures 1 <= d.col[l] <= pr.n3 && GaveUp(pr, gone, d, i).T(i, d.col[l]) == if l == i then 1.0 else 0.0
  {
    RowsShape(pr, gone, d, v);
    NotYetGone(pr, gone, d, v, i);
    ArtificialColumn(pr, gone, d, v, i, l);
    hide Dict.T, Dict.Nonsingular, RowMatches, Dropped, Problem.Extended, GaveUp, RowsMatch;
    var k, c := pr.nz[d.col[i]], d.col[l];
    NewRow(pr, gone, d, v, i, c);
    if pr.n < c <= pr.n1 {
      DroppedFields(pr, gone);
      AddedEntry(Dropped(pr, gone), d, l, c);
    } else if pr.n2 < c {
      assert c < d.col[i] ==> pr.nz[c] < k;
      assert d.col[i] < c ==> k < pr.nz[c];
      assert d.row[c] == l && d.row[d.col[i]] == i;
    } else if pr.n1 < c {
      assert pr.rel[pr.nz[c]] == AtMost;
    }
  }

  // A kernel vector of the new q, corrected in component k, is one of the old q.
  lemma CorrectedKernel(q: seq<Vec>, r: Vec, t: real, i: nat, k: nat, l: nat, m: nat)
    requires Matrix(q, m + 1, m + 1) && |r| == m + 1 && 1 <= i <= m && k <= m && 1 <= l <= m
    requires r[k] == 0.0 && t == -Dot(q[i], r, m + 1)
    requires q[l][k] == if l == i then 1.0 else 0.0
    requires l != i ==> Dot(q[l], r, m + 1) == 0.0
    ensures Dot(q[l], r[k := t], m + 1) == 0.0
  {
    hide Dot;
    DotUpdates(q[l], r, k, t, m + 1);
  }

  lemma GaveUpNonsingular(pr: Problem, gone: set<nat>, d: Dict, v: Dict, i: nat)
    requires Leaves(pr, gone, d, v) && 1 <= i <= pr.m && v.col[i] > pr.n2 && pr.n2 < d.col[i] <= pr.n3
    requires GaveUp(pr, gone, d, i).Sized()
    ensures GaveUp(pr, gone, d, i).Nonsingular()
  {
    RowsShape(pr, gone, d, v);
    NotYetGone(pr, gone, d, v, i);
    hide Dot, RowMatches, Dropped, Problem.Extended, RowsMatch, Problem.Added, Dict.T;
    var e, k := GaveUp(pr, gone, d, i), pr.nz[d.col[i]];
    forall r: Vec, g | e.Annihilates(r) && 1 <= g <= e.m
      ensures r[g] == 0.0
    {
      DotUnit(e.q[i], r, k, pr.m + 1);
      var t := -Dot(d.q[i], r, pr.m + 1);
      var s := r[k := t];
      forall l | 1 <= l <= d.m
        ensures Dot(d.q[l], s, d.m + 1) == 0.0
      {
        ArtificialColumn(pr, gone, d, v, i, l);
        assert l != i ==> e.q[l] == d.q[l];
        CorrectedKernel(d.q, r, t, i, k, l, pr.m);
      }
      assert d.Annihilates(s);
      assert g != k ==> s[g] == r[g];
    }
  }

  // Giving up a row keeps the basis, the signs, and the relation to the program's state.
  lemma GiveUpKeeps(pr: Problem, gone: set<nat>, d: Dict, v: Dict, i: nat)
    requires Leaves(pr, gone, d, v) && 1 <= i <= pr.m && v.col[i] > pr.n2 && pr.n2 < d.col[i] <= pr.n3
    ensures Leaves(pr, gone + {pr.nz[d.col[i]]}, GaveUp(pr, gone, d, i), v.(col := v.col[i := -1]))
    ensures GaveUp(pr, gone, d, i).Sized() && GaveUp(pr, gone, d, i).col == d.col && GaveUp(pr, gone, d, i).row == d.row
    ensures d.Feasible() ==> GaveUp(pr, gone, d, i).Feasible()
  {
    GaveUpMatches(pr, gone, d, v, i);
    GaveUpNonsingular(pr, gone, d, v, i);
    var e := GaveUp(pr, gone, d, i);
    forall l, k | 1 <= l <= pr.m && 1 <= k <= pr.m
      ensures 1 <= d.col[k] <= pr.n3 && e.T(l, d.col[k]) == if l == k then 1.0 else 0.0
    {
      NewRowIsUnit(pr, gone, d, v, i, k);
      if l != i {
        OtherRowsStay(pr, gone, d, v, i, l, d.col[k]);
      }
    }
    forall l | 1 <= l <= pr.m
      ensures e.T(l, 0) == if l == i then 0.0 else d.T(l, 0)
    {
      NotYetGone(pr, gone, d, v, i);
      if l == i {
        NewRow(pr, gone, d, v, i, 0);
      } else {
        OtherRowsStay(pr, gone, d, v, i, l, 0);
      }
    }
    hide Dict.T, Dict.Nonsingular, RowsMatch, Problem.Added, Problem.Extended, Dropped;
  }

  lemma GaveUpMatches(pr: Problem, gone: set<nat>, d: Dict, v: Dict, i: nat)
    requires Leaves(pr, gone, d, v) && 1 <= i <= pr.m && v.col[i] > pr.n2 && pr.n2 < d.col[i] <= pr.n3
    ensures GaveUp(pr, gone, d, i).Sized() && GaveUp(pr, gone, d, i).FirstColumn()
    ensures GaveUp(pr, gone, d, i).m == d.m && GaveUp(pr, gone, d, i).width == d.width
    ensures RowsMatch(pr, gone + {pr.nz[d.col[i]]}, GaveUp(pr, gone, d, i), v.(col := v.col[i := -1]))
  {
    RowsShape(pr, gone, d, v);
    NotYetGone(pr, gone, d, v, i);
    var k := pr.nz[d.col[i]];
    DroppedFields(pr, gone + {k});
    hide Dict.T, Basis, Problem.Extended, Dropped, Problem.Added, RowMatches;
    var e, w := GaveUp(pr, gone, d, i), v.(col := v.col[i := -1]);
    forall l | 1 <= l <= pr.m
      ensures RowMatches(pr, gone + {k}, e, w, l)
    {
      GaveUpRow(pr, gone, d, v, i, l);
    }
  }

  lemma GaveUpRow(pr: Problem, gone: set<nat>, d: Dict, v: Dict, i: nat, l: nat)
    requires Leaves(pr, gone, d, v) && 1 <= i <= pr.m && v.col[i] > pr.n2 && pr.n2 < d.col[i] <= pr.n3
    requires 1 <= l <= pr.m && GaveUp(pr, gone, d, i).Sized()
    requires GaveUp(pr, gone, d, i).m == v.m == pr.m
    ensures RowMatches(pr, gone + {pr.nz[d.col[i]]}, GaveUp(pr, gone, d, i), v.(col := v.col[i := -1]), l)
  {
    RowsShape(pr, gone, d, v);
    ArtificialColumn(pr, gone, d, v, i, l);
    hide Dict.T, Basis, Problem.Extended, Dropped, Problem.Added;
    assert RowMatches(pr, gone, d, v, l);
  }

  // gone are the constraints whose artificial variables are basic in the first i rows.
  ghost predicate GivenUp(pr: Problem, col: seq<int>, i: nat, gone: set<nat>)
    requires pr.Sized()
  {
    i < |col| && forall k :: k in gone <==> exists l :: 1 <= l <= i && IsArtificial(pr, col[l], k)
  }

  ghost predicate IsArtificial(pr: Problem, c: int, k: int)
    requires pr.Sized()
  {
    pr.n2 < c <= pr.n3 && pr.nz[c] == k
  }

  lemma NoneGivenUp(pr: Problem, col: seq<int>)
    requires pr.Sized() && |col| > 0
    ensures GivenUp(pr, col, 0, {})
  {
  }

  lemma OneGivenUp(pr: Problem, col: seq<int>, i: nat, gone: set<nat>)
    requires pr.Sized() && 1 <= i < |col| && GivenUp(pr, col, i - 1, gone)
    ensures GivenUp(pr, col, i, if pr.n2 < col[i] <= pr.n3 then gone + {pr.nz[col[i]]} else gone)
  {
    var more := if pr.n2 < col[i] <= pr.n3 then gone + {pr.nz[col[i]]} else gone;
    forall k: int
      ensures k in more <==> exists l :: 1 <= l <= i && IsArtificial(pr, col[l], k)
    {
      if k in gone {
        var l :| 1 <= l <= i - 1 && IsArtificial(pr, col[l], k);
        assert 1 <= l <= i;
      } else if IsArtificial(pr, col[i], k) {
        assert k in more;
      }
    }
  }

  // ---------------------------------------------------------------- the costs of phase 2

  // d with the costs c and an objective row that prices the artificial variables of gone.
  function Repriced(pr: Problem, gone: set<nat>, d: Dict, c: Vec): Dict
    requires pr.Sized() && |c| == pr.n + 1 && |d.q| > 0
  {
    State(Dropped(WithCost(pr, c), gone), d.q[0 := FirstPrices(gone, pr.m + 1)], d.col, d.row)
  }

  function FirstPrices(gone: set<nat>, size: nat): Vec {
    seq(size, k => if k == 0 then 1.0 else if k in gone then -1.0 else 0.0)
  }

  // The basic variables of the other rows are neither artificial nor dead.
  lemma LiveBasics(pr: Problem, gone: set<nat>, d: Dict, v: Dict, k: nat)
    requires Leaves(pr, gone, d, v) && 1 <= k <= pr.m && v.col[k] <= pr.n2
    ensures 1 <= d.col[k] <= pr.n3 && !Dead(pr, gone, d.col[k])
    ensures d.col[k] > pr.n2 ==> pr.nz[d.col[k]] in gone
  {
    hide Dict.T, Dict.Nonsingular, Problem.Extended, Problem.Entry, Dropped, Problem.Added;
    RowsShape(pr, gone, d, v);
    assert RowMatches(pr, gone, d, v, k);
    var c := d.col[k];
    if pr.n < c <= pr.n1 {
      DroppedFields(pr, gone);
      AddedEntry(Dropped(pr, gone), d, k, c);
    }
  }

  lemma FirstCost(pr: Problem, gone: set<nat>, e: Dict, j: nat)
    requires pr.Prepared() && Dropped(pr, gone).Sized() && e == State(Dropped(pr, gone), e.q, e.col, e.row) && e.Sized()
    requires forall k :: k in gone ==> 1 <= k <= pr.m && pr.rel[k] != AtMost
    requires e.FirstColumn() && e.q[0] == FirstPrices(gone, pr.m + 1) && 1 <= j <= pr.n3 && !Dead(pr, gone, j)
    requires j > pr.n2 ==> pr.nz[j] in gone
    ensures e.T(0, j) == if j > pr.n2 then 0.0 else pr.Extended()[0][j]
  {
    hide Dot, Problem.Extended;
    DroppedEntry(pr, gone, 0, j);
    var p := Dropped(pr, gone);
    if j <= pr.n {
      var x := Column(p.a, pr.m + 1, pr.n + 1, j);
      GivenEntry(p, e, 0, j);
      DotTerms(e.q[0], x, Unit(0, pr.m + 1), x, pr.m + 1);
      DotUnit(Unit(0, pr.m + 1), x, 0, pr.m + 1);
    } else {
      AddedEntry(p, e, 0, j);
      assert pr.n1 < j <= pr.n2 ==> pr.rel[pr.nz[j]] == AtMost;
    }
  }

  // The state with the costs, before the program eliminates those of the basic variables.
  lemma PricingStarts(pr: Problem, gone: set<nat>, d: Dict, v: Dict, c: Vec, w: Dict)
    requires Leaves(pr, gone, d, v) && |c| == pr.n + 1 && forall i :: 1 <= i <= pr.m ==> v.col[i] <= pr.n2
    requires WithCost(pr, c).Sized() && w == State(WithCost(pr, c), w.q, v.col, v.row) && w.Sized()
    requires w.q[0] == FirstPrices({}, pr.m + 1) && w.FirstColumn()
    requires forall i :: 1 <= i <= pr.m ==> w.q[i] == v.q[i]
    ensures Shadows(WithCost(pr, c), gone, Repriced(pr, gone, d, c), w)
    ensures Priced(Repriced(pr, gone, d, c), 0, pr.n2)
    ensures d.Feasible() ==> Repriced(pr, gone, d, c).Feasible()
    ensures Repriced(pr, gone, d, c).col == d.col && Repriced(pr, gone, d, c).row == d.row
  {
    hide Dict.T, Dict.Nonsingular, Problem.Added, Problem.Extended, Dropped, Problem.Entry, ObjectiveMatches,
      FirstPrices, RowMatches, RowsMatch, Dict.Feasible, Dict.Inverse;
    CostKeepsAdded(pr, c);
    RowsShape(pr, gone, d, v);
    PricedRows(pr, gone, d, v, c, w);
    var e := Repriced(pr, gone, d, c);
    PricedBasis(pr, gone, d, v, c, w);
    forall k | 1 <= k <= pr.m
      ensures 1 <= e.col[k] <= pr.n3 && e.T(0, e.col[k]) == if e.col[k] > pr.n2 then 0.0 else e.a[0][e.col[k]]
    {
      PricedCost(pr, gone, d, v, c, w, k);
    }
  }

  lemma PricedBasis(pr: Problem, gone: set<nat>, d: Dict, v: Dict, c: Vec, w: Dict)
    requires Leaves(pr, gone, d, v) && |c| == pr.n + 1 && WithCost(pr, c).Sized()
    requires RowsMatch(WithCost(pr, c), gone, Repriced(pr, gone, d, c), w)
    ensures var e := Repriced(pr, gone, d, c); e.Sized() && e.m == pr.m && e.width == pr.n3 + 1 && Basis(e)
    ensures d.Feasible() ==> Repriced(pr, gone, d, c).Feasible()
  {
    hide Dict.T, Dict.Nonsingular, Dict.Inverse, Problem.Added, Problem.Extended, Dropped, Problem.Entry, RowMatches;
    RowsShape(pr, gone, d, v);
    var e := Repriced(pr, gone, d, c);
    RowsShape(WithCost(pr, c), gone, e, w);
    DroppedShape(pr, gone);
    DroppedCost(pr, gone, c);
    CostedShares(d, e, Dropped(pr, gone), c);
    SameBasis(d, e);
  }

  lemma PricedCost(pr: Problem, gone: set<nat>, d: Dict, v: Dict, c: Vec, w: Dict, k: nat)
    requires Leaves(pr, gone, d, v) && |c| == pr.n + 1 && WithCost(pr, c).Prepared() && 1 <= k <= pr.m
    requires v.col[k] <= pr.n2 && Repriced(pr, gone, d, c).FirstColumn()
    requires RowsMatch(WithCost(pr, c), gone, Repriced(pr, gone, d, c), w)
    ensures var e, j := Repriced(pr, gone, d, c), d.col[k];
      1 <= j <= pr.n3 && e.T(0, j) == if j > pr.n2 then 0.0 else e.a[0][j]
  {
    hide Dict.T, Dict.Nonsingular, Problem.Added, Problem.Extended, Dropped, Problem.Entry, RowMatches, Basis;
    LiveBasics(pr, gone, d, v, k);
    RowsShape(WithCost(pr, c), gone, Repriced(pr, gone, d, c), w);
    BasicPrice(WithCost(pr, c), gone, Repriced(pr, gone, d, c), d.col[k]);
  }

  lemma BasicPrice(pr: Problem, gone: set<nat>, e: Dict, j: nat)
    requires pr.Prepared() && Dropped(pr, gone).Sized() && e == State(Dropped(pr, gone), e.q, e.col, e.row) && e.Sized()
    requires forall k :: k in gone ==> 1 <= k <= pr.m && pr.rel[k] != AtMost
    requires e.FirstColumn() && e.q[0] == FirstPrices(gone, pr.m + 1) && 1 <= j <= pr.n3 && !Dead(pr, gone, j)
    requires j > pr.n2 ==> pr.nz[j] in gone
    ensures e.T(0, j) == if j > pr.n2 then 0.0 else e.a[0][j]
  {
    hide Dict.T, Problem.Added, Problem.Extended, Problem.Entry;
    FirstCost(pr, gone, e, j);
    DroppedEntry(pr, gone, 0, j);
  }

  lemma PricedRows(pr: Problem, gone: set<nat>, d: Dict, v: Dict, c: Vec, w: Dict)
    requires Leaves(pr, gone, d, v) && |c| == pr.n + 1
    requires WithCost(pr, c).Sized() && w == State(WithCost(pr, c), w.q, v.col, v.row) && w.Sized()
    requires w.q[0] == FirstPrices({}, pr.m + 1) && w.FirstColumn()
    requires forall i :: 1 <= i <= pr.m ==> w.q[i] == v.q[i]
    ensures RowsMatch(WithCost(pr, c), gone, Repriced(pr, gone, d, c), w)
    ensures ObjectiveMatches(WithCost(pr, c), gone, Repriced(pr, gone, d, c), w)
    ensures Repriced(pr, gone, d, c).FirstColumn()
  {
    RowsShape(pr, gone, d, v);
    DroppedFields(WithCost(pr, c), gone);
    hide Dict.T, Basis, Problem.Added, Problem.Extended, Dropped;
    var e, pc := Repriced(pr, gone, d, c), WithCost(pr, c);
    forall i | 1 <= i <= pr.m
      ensures RowMatches(pc, gone, e, w, i)
    {
      assert RowMatches(pr, gone, d, v, i);
    }
  }

  // Eliminating the cost of one basic variable.
  lemma RepriceMatches(pr: Problem, gone: set<nat>, d: Dict, v: Dict, i: nat, u: real)
    requires Shadows(pr, gone, d, v) && 1 <= i <= pr.m && v.col[i] >= 0
    ensures Shadows(pr, gone, d.(q := d.q[0 := EliminatedRow(d.q[0], d.q[i], u)]),
                    v.(q := v.q[0 := EliminatedRow(v.q[0], v.q[i], u)]))
  {
    hide Dict.T, Problem.Added, Problem.Extended, Dropped;
    RowsShape(pr, gone, d, v);
    var e := d.(q := d.q[0 := EliminatedRow(d.q[0], d.q[i], u)]);
    var w := v.(q := v.q[0 := EliminatedRow(v.q[0], v.q[i], u)]);
    forall l | 1 <= l <= pr.m
      ensures RowMatches(pr, gone, e, w, l)
    {
      assert RowMatches(pr, gone, d, v, l);
    }
    assert RowMatches(pr, gone, d, v, i);
  }

  // ---------------------------------------------------------------- the end of phase 2

  lemma LeftoversAreZero(pr: Problem, gone: set<nat>, d: Dict, v: Dict)
    requires Shadows(pr, gone, d, v) && forall i :: 1 <= i <= pr.m ==> v.col[i] <= pr.n2
    ensures Dropped(pr, gone).Sized() && d.Sized() && d.m == pr.m && Settled(Dropped(pr, gone), d)
  {
    RowsShape(pr, gone, d, v);
    hide Dict.T, Problem.Added, Problem.Extended;
    forall i | 1 <= i <= pr.m && d.col[i] > pr.n2
      ensures d.T(i, 0) == 0.0
    {
      assert RowMatches(pr, gone, d, v, i);
      GoneIsZero(pr, gone, d, v, i, 0);
    }
  }

  lemma EnteringStays(pr: Problem, gone: set<nat>, d: Dict, v: Dict, j: nat)
    requires Shadows(pr, gone, d, v) && forall i :: 1 <= i <= pr.m ==> v.col[i] <= pr.n2
    requires 1 <= j <= pr.n2 && d.T(0, j) < 0.0
    ensures Dropped(pr, gone).Sized() && d.Sized() && d.m == pr.m && Stays(Dropped(pr, gone), d, j)
  {
    RowsShape(pr, gone, d, v);
    CostEntry(pr, gone, d, v, j);
    hide Dict.T, Problem.Added, Problem.Extended;
    forall i | 1 <= i <= pr.m && d.col[i] > pr.n2
      ensures d.T(i, j) == 0.0
    {
      assert RowMatches(pr, gone, d, v, i);
      GoneIsZero(pr, gone, d, v, i, j);
    }
  }

  // The numbers the solution is read from.
  lemma ReadMatches(pr: Problem, gone: set<nat>, d: Dict, v: Dict, j: nat)
    requires Shadows(pr, gone, d, v) && RowRange(v) && 1 <= j <= pr.n && forall i :: 0 <= i <= pr.m ==> d.col[i] >= 0
    ensures RowRange(d) && d.width == v.width == pr.n3 + 1 && Read(v, j) == Read(d, j)
  {
    RowsShape(pr, gone, d, v);
    hide Dict.T, Problem.Added, Problem.Extended, Dropped, RowMatches, Shown;
    if d.row[j] != 0 {
      ShownMatches(pr, gone, d, v, d.row[j], 0);
      ShownIs(d, d.row[j], 0);
    }
  }
}
