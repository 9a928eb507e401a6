// The constraint matrix that tableau() evaluates: the n given columns, then a surplus column for
// every >= row, a slack column for every <= row and an artificial column for every other row.
module StandardForm {
  import opened LinearAlgebra
  import opened Tableau

  datatype Relation = Equal | AtMost | AtLeast

  // nz[j] is the constraint of the added column j.
  datatype Problem = Problem(m: nat, n: nat, n1: nat, n2: nat, n3: nat, a: seq<Vec>, nz: seq<nat>, rel: seq<Relation>)
  {
    ghost predicate Sized() {
      && Matrix(a, m + 1, n + 1) && n <= n1 <= n2 <= n3 && |nz| >= n3 + 1 && |rel| == m + 1
      && forall j :: n < j <= n3 ==> 1 <= nz[j] <= m
    }

    function Entry(i: nat, j: nat): real
      requires Sized() && i <= m && j <= n3
    {
      if j <= n then a[i][j]
      else if j <= n1 then (if i == nz[j] then -1.0 else 0.0)
      else if j <= n2 then (if i == nz[j] then 1.0 else 0.0)
      else if i == nz[j] || i == 0 then 1.0 else 0.0
    }

    function Extended(): seq<Vec>
      requires Sized()
    {
      seq(m + 1, i requires 0 <= i <= m => seq(n3 + 1, j requires 0 <= j <= n3 => Entry(i, j)))
    }

    // What prepare() establishes.
    ghost predicate Prepared() {
      Sized() && Added()
    }

    ghost predicate Added()
      requires Sized()
    {
      && (forall j :: n < j <= n1 ==> rel[nz[j]] == AtLeast)
      && (forall j :: n1 < j <= n2 ==> rel[nz[j]] == AtMost)
      && (forall j :: n2 < j <= n3 ==> rel[nz[j]] != AtMost)
      && (forall j, k :: n < j < k <= n1 ==> nz[j] < nz[k])
      && (forall j, k :: n1 < j < k <= n2 ==> nz[j] < nz[k])
      && (forall j, k :: n2 < j < k <= n3 ==> nz[j] < nz[k])
      && (forall i :: 1 <= i <= m && rel[i] == AtLeast ==> exists j :: n < j <= n1 && nz[j] == i)
      && (forall i :: 1 <= i <= m && rel[i] == AtMost ==> exists j :: n1 < j <= n2 && nz[j] == i)
      && (forall i :: 1 <= i <= m && rel[i] != AtMost ==> exists j :: n2 < j <= n3 && nz[j] == i)
    }
  }

  // The simplex state of a problem.
  function State(pr: Problem, q: seq<Vec>, col: seq<int>, row: seq<int>): Dict
    requires pr.Sized()
  {
    Dict(pr.m, pr.n3 + 1, pr.Extended(), q, col, row)
  }

  // The slack and artificial variables are basic.
  ghost predicate StartBasis(pr: Problem, col: seq<int>, row: seq<int>)
    requires pr.Sized()
  {
    && |col| == pr.m + 1 && |row| == pr.n3 + 1
    && (forall i :: 1 <= i <= pr.m ==> pr.n1 < col[i] <= pr.n3 && pr.nz[col[i]] == i && row[col[i]] == i)
    && (forall i :: 1 <= i <= pr.m ==> (col[i] > pr.n2 <==> pr.rel[i] != AtMost))
    && (forall j :: 1 <= j <= pr.n1 ==> row[j] == 0)
    && (forall j :: pr.n1 < j <= pr.n3 ==> row[j] == pr.nz[j] && col[pr.nz[j]] == j)
  }

  // q before the first pivot: the identity, with -1 in row 0 for every artificial variable.
  ghost predicate StartMatrix(pr: Problem, q: seq<Vec>, col: seq<int>)
    requires pr.Sized() && |col| == pr.m + 1
  {
    && Matrix(q, pr.m + 1, pr.m + 1)
    && forall i, k :: 0 <= i <= pr.m && 0 <= k <= pr.m ==> q[i][k] == StartEntry(pr, col, i, k)
  }

  function StartEntry(pr: Problem, col: seq<int>, i: nat, k: nat): real
    requires k < |col|
  {
    if i == k then 1.0 else if i == 0 && col[k] > pr.n2 then -1.0 else 0.0
  }

  lemma StartRow(pr: Problem, q: seq<Vec>, col: seq<int>, row: seq<int>, i: nat, v: Vec)
    requires pr.Sized() && StartBasis(pr, col, row) && StartMatrix(pr, q, col)
    requires 1 <= i <= pr.m && |v| == pr.m + 1
    ensures Dot(q[i], v, pr.m + 1) == v[i]
  {
    assert forall l :: 0 <= l <= pr.m ==> q[i][l] == StartEntry(pr, col, i, l);
    DotUnit(q[i], v, i, pr.m + 1);
  }

  lemma StartUnit(pr: Problem, q: seq<Vec>, col: seq<int>, row: seq<int>, i: nat, k: nat)
    requires pr.Sized() && StartBasis(pr, col, row) && StartMatrix(pr, q, col)
    requires i <= pr.m && 1 <= k <= pr.m
    ensures State(pr, q, col, row).Sized() && State(pr, q, col, row).T(i, col[k]) == if i == k then 1.0 else 0.0
  {
    var v := Column(pr.Extended(), pr.m + 1, pr.n3 + 1, col[k]);
    assert forall l :: 1 <= l <= pr.m ==> v[l] == if l == k then 1.0 else 0.0;
    if i > 0 {
      StartRow(pr, q, col, row, i, v);
    } else {
      hide Dot;
      assert q[0][0] == StartEntry(pr, col, 0, 0) && q[0][k] == StartEntry(pr, col, 0, k);
      DotTwo(q[0], v, k, pr.m + 1);
    }
  }

  // The invariant of the tableau holds before the first pivot.
  lemma StartIsValid(pr: Problem, q: seq<Vec>, col: seq<int>, row: seq<int>)
    requires pr.Sized() && StartBasis(pr, col, row) && StartMatrix(pr, q, col)
    ensures State(pr, q, col, row).Valid()
  {
    hide Dict.T, Dot;
    var d := State(pr, q, col, row);
    forall i, k | 0 <= i <= pr.m && 1 <= k <= pr.m
      ensures d.T(i, col[k]) == if i == k then 1.0 else 0.0
    {
      StartUnit(pr, q, col, row, i, k);
    }
    assert d.FirstColumn() by {
      assert forall i :: 0 <= i <= pr.m ==> q[i][0] == StartEntry(pr, col, i, 0);
    }
    forall r: Vec, k | d.Annihilates(r) && 1 <= k <= pr.m
      ensures r[k] == 0.0
    {
      StartRow(pr, q, col, row, k, r);
    }
  }

  // The start is feasible when the right-hand sides are.
  lemma StartIsFeasible(pr: Problem, q: seq<Vec>, col: seq<int>, row: seq<int>)
    requires pr.Sized() && StartBasis(pr, col, row) && StartMatrix(pr, q, col)
    requires forall i :: 1 <= i <= pr.m ==> pr.a[i][0] >= 0.0
    ensures State(pr, q, col, row).Sized() && State(pr, q, col, row).Feasible()
  {
    hide Dot;
    var d := State(pr, q, col, row);
    forall i | 1 <= i <= pr.m
      ensures d.T(i, 0) >= 0.0
    {
      StartRow(pr, q, col, row, i, Column(pr.Extended(), pr.m + 1, pr.n3 + 1, 0));
    }
  }

  // ---------------------------------------------------------------- the original constraints

  // Left-hand side minus right-hand side of constraint i at y, with y[0] == -1.
  function Excess(pr: Problem, y: Vec, i: nat): real
    requires pr.Sized() && |y| == pr.n + 1 && i <= pr.m
  {
    Dot(pr.a[i], y, pr.n + 1)
  }

  // v relates to zero as rel says.
  predicate Holds(rel: Relation, v: real) {
    match rel
    case Equal => v == 0.0
    case AtMost => v <= 0.0
    case AtLeast => v >= 0.0
  }

  predicate Meets(pr: Problem, y: Vec, i: nat)
    requires pr.Sized() && |y| == pr.n + 1 && i <= pr.m
  {
    Holds(pr.rel[i], Excess(pr, y, i))
  }

  // y is nonnegative and satisfies the given equations and inequalities.
  ghost predicate Satisfies(pr: Problem, y: Vec)
    requires pr.Sized()
  {
    && |y| == pr.n + 1 && y[0] == -1.0 && Nonnegative(y)
    && forall i :: 1 <= i <= pr.m ==> Meets(pr, y, i)
  }

  ghost predicate Satisfiable(pr: Problem)
    requires pr.Sized()
  {
    exists y :: Satisfies(pr, y)
  }

  // y with the values of the surplus and slack variables; artificial variables are zero.
  function WithSlack(pr: Problem, y: Vec): (x: Vec)
    requires pr.Sized() && |y| == pr.n + 1
    ensures |x| == pr.n3 + 1
  {
    seq(pr.n3 + 1, j requires 0 <= j <= pr.n3 =>
      if j <= pr.n then y[j]
      else if j <= pr.n1 then Excess(pr, y, pr.nz[j])
      else if j <= pr.n2 then -Excess(pr, y, pr.nz[j])
      else 0.0)
  }

  // From component k0 on, only the product at c is not zero.
  lemma {:induction false} DotExtends(u: Vec, v: Vec, k0: nat, c: nat, k: nat)
    requires k0 <= k <= |u| && k <= |v|
    requires forall l :: k0 <= l < k && l != c ==> u[l] * v[l] == 0.0
    ensures Dot(u, v, k) == Dot(u, v, k0) + if k0 <= c < k then u[c] * v[c] else 0.0
  {
    if k > k0 {
      DotExtends(u, v, k0, c, k - 1);
    }
  }

  // The added column that belongs to constraint i, if it is an inequality.
  lemma AddedColumn(pr: Problem, i: nat) returns (c: nat)
    requires pr.Prepared() && i <= pr.m
    ensures i == 0 || pr.rel[i] == Equal ==> c == 0
    ensures i > 0 && pr.rel[i] == AtLeast ==> pr.n < c <= pr.n1 && pr.nz[c] == i
    ensures i > 0 && pr.rel[i] == AtMost ==> pr.n1 < c <= pr.n2 && pr.nz[c] == i
    ensures forall l :: pr.n < l <= pr.n2 && l != c ==> pr.nz[l] != i
  {
    c := 0;
    if i > 0 && pr.rel[i] == AtLeast {
      c :| pr.n < c <= pr.n1 && pr.nz[c] == i;
    } else if i > 0 && pr.rel[i] == AtMost {
      c :| pr.n1 < c <= pr.n2 && pr.nz[c] == i;
    }
    forall l | pr.n < l <= pr.n2 && l != c
      ensures pr.nz[l] != i
    {
      if l <= pr.n1 && pr.n < c <= pr.n1 {
        assert l < c ==> pr.nz[l] < pr.nz[c];
        assert c < l ==> pr.nz[c] < pr.nz[l];
      } else if pr.n1 < l && pr.n1 < c <= pr.n2 {
        assert l < c ==> pr.nz[l] < pr.nz[c];
        assert c < l ==> pr.nz[c] < pr.nz[l];
      }
    }
  }

  lemma AddedTerm(pr: Problem, x: Vec, i: nat, l: nat)
    requires pr.Sized() && i <= pr.m && |x| == pr.n3 + 1 && pr.n < l <= pr.n3
    requires l <= pr.n2 ==> pr.nz[l] != i
    requires l > pr.n2 ==> x[l] == 0.0
    ensures pr.Extended()[i][l] * x[l] == 0.0
  {
  }

  lemma GivenColumns(pr: Problem, i: nat)
    requires pr.Sized() && i <= pr.m
    ensures |pr.Extended()| == pr.m + 1 && |pr.Extended()[i]| == pr.n3 + 1
    ensures forall j :: 0 <= j <= pr.n ==> pr.Extended()[i][j] == pr.a[i][j]
  {
  }

  lemma AddedCoefficient(pr: Problem, i: nat, c: nat)
    requires pr.Sized() && i <= pr.m && pr.n < c <= pr.n2 && pr.nz[c] == i
    ensures pr.Extended()[i][c] == if c <= pr.n1 then -1.0 else 1.0
  {
  }

  // A row of the extended matrix is the given row plus the term of its added column.
  lemma RowSplits(pr: Problem, x: Vec, i: nat) returns (c: nat)
    requires pr.Prepared() && i <= pr.m && |x| == pr.n3 + 1
    requires forall j :: pr.n2 < j <= pr.n3 ==> x[j] == 0.0
    ensures i > 0 && pr.rel[i] == AtLeast ==> pr.n < c <= pr.n1 && pr.nz[c] == i
    ensures i > 0 && pr.rel[i] == AtMost ==> pr.n1 < c <= pr.n2 && pr.nz[c] == i
    ensures Dot(pr.Extended()[i], x, pr.n3 + 1) == Excess(pr, x[..pr.n + 1], i) +
      if i == 0 || pr.rel[i] == Equal then 0.0 else if pr.rel[i] == AtLeast then -x[c] else x[c]
  {
    hide Dot, Problem.Added, Problem.Extended, Problem.Entry;
    c := AddedColumn(pr, i);
    GivenColumns(pr, i);
    var e := pr.Extended()[i];
    DotSame(e, x, pr.a[i], x[..pr.n + 1], pr.n + 1);
    if c > 0 {
      AddedCoefficient(pr, i, c);
    }
    forall l | pr.n + 1 <= l < pr.n3 + 1 && l != c
      ensures e[l] * x[l] == 0.0
    {
      AddedTerm(pr, x, i, l);
    }
    DotExtends(e, x, pr.n + 1, c, pr.n3 + 1);
  }

  lemma ExtendedRow(pr: Problem, y: Vec, i: nat)
    requires pr.Prepared() && Satisfies(pr, y) && i <= pr.m
    ensures Dot(pr.Extended()[i], WithSlack(pr, y), pr.n3 + 1) == if i == 0 then Excess(pr, y, 0) else 0.0
  {
    hide Dot, Problem.Added, Problem.Extended;
    assert WithSlack(pr, y)[..pr.n + 1] == y;
    var c := RowSplits(pr, WithSlack(pr, y), i);
    if i > 0 {
      assert Meets(pr, y, i);
      if pr.rel[i] == AtLeast {
        assert WithSlack(pr, y)[c] == Excess(pr, y, i);
      } else if pr.rel[i] == AtMost {
        assert WithSlack(pr, y)[c] == -Excess(pr, y, i);
      }
    }
  }

  // Every point that satisfies the given constraints is a solution of the equations with the same
  // objective value.
  lemma SatisfyingSolves(pr: Problem, q: seq<Vec>, col: seq<int>, row: seq<int>, y: Vec)
    requires pr.Prepared() && Satisfies(pr, y)
    requires State(pr, q, col, row).Sized()
    ensures Solves(State(pr, q, col, row), WithSlack(pr, y)) && Nonnegative(WithSlack(pr, y))
    ensures Objective(State(pr, q, col, row), WithSlack(pr, y)) == Excess(pr, y, 0)
    ensures forall j :: pr.n2 < j <= pr.n3 ==> WithSlack(pr, y)[j] == 0.0
  {
    hide Dot, Problem.Entry;
    var x := WithSlack(pr, y);
    ExtendedRow(pr, y, 0);
    forall k | 1 <= k <= pr.m
      ensures Dot(pr.Extended()[k], x, pr.n3 + 1) == 0.0
    {
      ExtendedRow(pr, y, k);
    }
    assert Nonnegative(x) by {
      forall j | 1 <= j < |x|
        ensures x[j] >= 0.0
      {
        assert j > pr.n ==> Meets(pr, y, pr.nz[j]);
        if pr.n < j <= pr.n1 {
          assert pr.rel[pr.nz[j]] == AtLeast && Excess(pr, y, pr.nz[j]) >= 0.0;
        } else if pr.n1 < j <= pr.n2 {
          assert pr.rel[pr.nz[j]] == AtMost && Excess(pr, y, pr.nz[j]) <= 0.0;
        }
      }
    }
  }

  // Conversely the first n components of a solution without artificial variables satisfy the
  // given constraints.
  lemma SolvingSatisfies(pr: Problem, q: seq<Vec>, col: seq<int>, row: seq<int>, x: Vec)
    requires pr.Prepared() && State(pr, q, col, row).Sized()
    requires Solves(State(pr, q, col, row), x) && Nonnegative(x)
    requires forall j :: pr.n2 < j <= pr.n3 ==> x[j] == 0.0
    ensures Satisfies(pr, x[..pr.n + 1])
    ensures Objective(State(pr, q, col, row), x) == Excess(pr, x[..pr.n + 1], 0)
  {
    hide Dot;
    SolutionRow(pr, x, 0);
    var y := x[..pr.n + 1];
    forall i | 1 <= i <= pr.m
      ensures Meets(pr, y, i)
    {
      SolutionRow(pr, x, i);
    }
  }

  lemma SolutionRow(pr: Problem, x: Vec, i: nat)
    requires pr.Prepared() && i <= pr.m && |x| == pr.n3 + 1 && Nonnegative(x)
    requires forall j :: pr.n2 < j <= pr.n3 ==> x[j] == 0.0
    ensures var v, w := Excess(pr, x[..pr.n + 1], i), Dot(pr.Extended()[i], x, pr.n3 + 1);
      if i == 0 || pr.rel[i] == Equal then v == w else if pr.rel[i] == AtMost then v <= w else v >= w
  {
    hide Dot, Problem.Added, Problem.Extended;
    var c := RowSplits(pr, x, i);
  }

  // ---------------------------------------------------------------- what tableau() evaluates

  // A given column is read off the given matrix.
  lemma GivenEntry(pr: Problem, d: Dict, i: nat, j: nat)
    requires pr.Sized() && d.Sized() && d.m == pr.m && d.width == pr.n3 + 1 && d.a == pr.Extended()
    requires i <= pr.m && j <= pr.n
    ensures d.T(i, j) == Dot(d.q[i], Column(pr.a, pr.m + 1, pr.n + 1, j), pr.m + 1)
  {
    hide Dot;
    DotSame(d.q[i], Column(pr.Extended(), pr.m + 1, pr.n3 + 1, j), d.q[i], Column(pr.a, pr.m + 1, pr.n + 1, j),
      pr.m + 1);
  }

  // A column of an added variable has at most two entries, so its tableau entry is read off q.
  lemma AddedEntry(pr: Problem, d: Dict, i: nat, j: nat)
    requires pr.Sized() && d.Sized() && d.m == pr.m && d.width == pr.n3 + 1 && d.a == pr.Extended()
    requires d.FirstColumn() && i <= pr.m && pr.n < j <= pr.n3
    ensures d.T(i, j) == if j <= pr.n1 then -d.q[i][pr.nz[j]]
                         else if j <= pr.n2 || i != 0 then d.q[i][pr.nz[j]]
                         else d.q[i][pr.nz[j]] + 1.0
  {
    hide Dot;
    var v, k := Column(pr.Extended(), pr.m + 1, pr.n3 + 1, j), pr.nz[j];
    assert forall l :: 0 <= l <= pr.m ==> v[l] == pr.Entry(l, j);
    assert d.q[i][0] == if i == 0 then 1.0 else 0.0;
    DotTwo(d.q[i], v, k, pr.m + 1);
  }

  // ---------------------------------------------------------------- the two objectives

  // The problem with costs c on the given variables.
  function WithCost(pr: Problem, c: Vec): Problem
    requires pr.Sized() && |c| == pr.n + 1
  {
    pr.(a := pr.a[0 := c])
  }

  lemma CostKeepsAdded(pr: Problem, c: Vec)
    requires pr.Sized() && |c| == pr.n + 1
    ensures WithCost(pr, c).Sized() && (pr.Added() ==> WithCost(pr, c).Added())
  {
  }

  // pr with every constraint of gone replaced by 0 == 0.
  function Dropped(pr: Problem, gone: set<nat>): Problem
    requires pr.Sized()
  {
    pr.(a := seq(pr.m + 1, i requires 0 <= i <= pr.m =>
      if i > 0 && i in gone then seq(pr.n + 1, j => 0.0) else pr.a[i]))
  }

  lemma DroppedShape(pr: Problem, gone: set<nat>)
    requires pr.Sized()
    ensures Dropped(pr, gone).Sized() && Dropped(pr, gone).m == pr.m && Dropped(pr, gone).n == pr.n
    ensures Dropped(pr, gone).n3 == pr.n3 && Dropped(pr, gone).a[0] == pr.a[0]
    ensures gone == {} ==> Dropped(pr, gone) == pr
  {
    assert gone == {} ==> Dropped(pr, gone).a == pr.a;
  }

  lemma DroppedPrepared(pr: Problem, gone: set<nat>)
    requires pr.Prepared()
    ensures Dropped(pr, gone).Prepared()
  {
    hide Dropped;
    var p := Dropped(pr, gone);
    assert p.m == pr.m && p.n == pr.n && p.n1 == pr.n1 && p.n2 == pr.n2 && p.n3 == pr.n3 && p.nz == pr.nz &&
           p.rel == pr.rel && p.Sized() by {
      DroppedFields(pr, gone);
    }
  }

  lemma DroppedFields(pr: Problem, gone: set<nat>)
    requires pr.Sized()
    ensures Dropped(pr, gone).Sized() && Dropped(pr, gone) == pr.(a := Dropped(pr, gone).a)
  {
  }

  lemma DroppedCost(pr: Problem, gone: set<nat>, c: Vec)
    requires pr.Sized() && |c| == pr.n + 1
    ensures Dropped(pr, gone).Sized() && WithCost(pr, c).Sized()
    ensures Dropped(WithCost(pr, c), gone) == WithCost(Dropped(pr, gone), c)
  {
    assert Dropped(WithCost(pr, c), gone).a == WithCost(Dropped(pr, gone), c).a;
  }

  // The constraints outside gone remain.
  lemma DroppedSatisfies(pr: Problem, gone: set<nat>, y: Vec)
    requires pr.Sized()
    ensures Dropped(pr, gone).Sized()
    ensures Satisfies(Dropped(pr, gone), y) <==>
      |y| == pr.n + 1 && y[0] == -1.0 && Nonnegative(y) && forall i :: 1 <= i <= pr.m && i !in gone ==> Meets(pr, y, i)
  {
    var p := Dropped(pr, gone);
    hide Dot;
    forall i | 1 <= i <= pr.m && |y| == pr.n + 1
      ensures i in gone ==> Meets(p, y, i)
      ensures i !in gone ==> Meets(p, y, i) == Meets(pr, y, i)
    {
      if i in gone {
        DotUnit(p.a[i], y, pr.n + 1, pr.n + 1);
      }
    }
  }

  // Phase 1 has no costs on the given variables: the objective is the sum of the artificial ones.
  ghost predicate NoCost(pr: Problem)
    requires pr.Sized()
  {
    forall j :: 0 <= j <= pr.n ==> pr.a[0][j] == 0.0
  }

  lemma ArtificialSum(pr: Problem, x: Vec)
    requires pr.Sized() && NoCost(pr) && |x| == pr.n3 + 1 && Nonnegative(x)
    ensures Dot(pr.Extended()[0], x, pr.n3 + 1) >= 0.0
    ensures Dot(pr.Extended()[0], x, pr.n3 + 1) <= 0.0 ==> forall j :: pr.n2 < j <= pr.n3 ==> x[j] == 0.0
  {
    hide Dot;
    var e := pr.Extended()[0];
    assert forall j :: 0 <= j <= pr.n3 ==> e[j] == if j <= pr.n2 then 0.0 else 1.0;
    SumOfTail(e, x, pr.n2, pr.n3 + 1);
  }

  lemma {:induction false} SumOfTail(e: Vec, x: Vec, n2: nat, k: nat)
    requires k <= |e| && k <= |x| && Nonnegative(x)
    requires forall j :: 0 <= j < k ==> e[j] == if j <= n2 then 0.0 else 1.0
    ensures Dot(e, x, k) >= 0.0
    ensures Dot(e, x, k) <= 0.0 ==> forall j :: n2 < j < k ==> x[j] == 0.0
  {
    if k > 0 {
      SumOfTail(e, x, n2, k - 1);
    }
  }

  // Phase 1 accepts only constraints that can be satisfied, however its pivots ended.
  lemma PhaseOneAccepts(pr: Problem, q: seq<Vec>, col: seq<int>, row: seq<int>)
    requires pr.Prepared() && NoCost(pr) && State(pr, q, col, row).Valid() && State(pr, q, col, row).Feasible()
    requires State(pr, q, col, row).T(0, 0) >= 0.0
    ensures Satisfiable(pr)
  {
    hide Dict.T, Dot, Problem.Added, Problem.Extended, Dict.UnitColumns, Dict.Nonsingular, Nonnegative;
    var x := BasicSolution(State(pr, q, col, row));
    BasicSolves(State(pr, q, col, row));
    ArtificialSum(pr, x);
    SolvingSatisfies(pr, q, col, row, x);
  }

  // Phase 1 at an optimal tableau: the constraints can be satisfied exactly when entry (0, 0) is
  // not negative, also when artificial variables remain basic.
  lemma PhaseOneDecides(pr: Problem, q: seq<Vec>, col: seq<int>, row: seq<int>)
    requires pr.Prepared() && NoCost(pr) && State(pr, q, col, row).Valid() && State(pr, q, col, row).Feasible()
    requires NoNegativeCost(State(pr, q, col, row), pr.n3, 0.0)
    ensures State(pr, q, col, row).T(0, 0) >= 0.0 <==> Satisfiable(pr)
  {
    hide Dict.T, Dot, Problem.Added, Problem.Extended, Dict.UnitColumns, Dict.Nonsingular, Nonnegative;
    var d := State(pr, q, col, row);
    if y :| Satisfies(pr, y) {
      SatisfyingSolves(pr, q, col, row, y);
      OptimalBound(d, WithSlack(pr, y), pr.n3, 0.0);
      NoCostExcess(pr, y);
    }
    if d.T(0, 0) >= 0.0 {
      PhaseOneAccepts(pr, q, col, row);
    }
  }

  lemma NoCostExcess(pr: Problem, y: Vec)
    requires pr.Sized() && NoCost(pr) && |y| == pr.n + 1
    ensures Excess(pr, y, 0) == 0.0
  {
    DotUnit(pr.a[0], y, 0, pr.n + 1);
  }

  // Artificial variables that remain basic are zero.
  ghost predicate Settled(pr: Problem, d: Dict)
    requires pr.Sized() && d.Sized() && d.m == pr.m
  {
    forall i :: 1 <= i <= pr.m && d.col[i] > pr.n2 ==> d.T(i, 0) == 0.0
  }

  // Phase 2 at an optimal tableau: no point that satisfies the constraints costs less than the
  // basic one.
  lemma PhaseTwoOptimal(pr: Problem, q: seq<Vec>, col: seq<int>, row: seq<int>)
    requires pr.Prepared() && State(pr, q, col, row).Valid() && State(pr, q, col, row).Feasible()
    requires Settled(pr, State(pr, q, col, row)) && NoNegativeCost(State(pr, q, col, row), pr.n2, 0.0)
    ensures var s := BasicSolution(State(pr, q, col, row))[..pr.n + 1];
      Satisfies(pr, s) && forall y :: Satisfies(pr, y) ==> Excess(pr, s, 0) <= Excess(pr, y, 0)
  {
    hide Dict.T, Dot, Problem.Added, Problem.Extended, Dict.UnitColumns, Dict.Nonsingular, Nonnegative;
    var d := State(pr, q, col, row);
    var x := BasicSolution(d);
    BasicSolves(d);
    SolvingSatisfies(pr, q, col, row, x);
    forall y | Satisfies(pr, y)
      ensures Excess(pr, x[..pr.n + 1], 0) <= Excess(pr, y, 0)
    {
      SatisfyingSolves(pr, q, col, row, y);
      OptimalBound(d, WithSlack(pr, y), pr.n2, 0.0);
    }
  }

  // Column j makes the objective smaller and no row stops it before large.
  ghost predicate Escapes(d: Dict, j: nat, eps: real, large: real)
    requires d.Sized() && j < d.width && eps >= 0.0
  {
    && d.T(0, j) < -eps
    && forall i :: 1 <= i <= d.m && d.T(i, j) > eps ==> d.T(i, 0) / d.T(i, j) >= large
  }

  // Column j does not change the artificial variables that remain basic.
  ghost predicate Stays(pr: Problem, d: Dict, j: nat)
    requires pr.Sized() && d.Sized() && d.m == pr.m && d.width == pr.n3 + 1
  {
    1 <= j <= pr.n2 && forall i :: 1 <= i <= pr.m && d.col[i] > pr.n2 ==> d.T(i, j) == 0.0
  }

  lemma EscapeRatio(b: real, t: real, theta: real, large: real)
    requires b >= 0.0 && 0.0 <= theta <= large && (t > 0.0 ==> b / t >= large)
    ensures theta * t <= b
  {
    if t > 0.0 {
      assert b == (b / t) * t;
      assert (b / t - theta) * t >= 0.0;
    } else {
      assert theta * (-t) >= 0.0;
    }
  }

  // Points that satisfy the constraints and cost theta * |T(0, j)| less, for every theta up to large.
  lemma EscapePoint(pr: Problem, q: seq<Vec>, col: seq<int>, row: seq<int>, j: nat, theta: real, large: real)
    returns (y: Vec)
    requires pr.Prepared() && State(pr, q, col, row).Valid() && State(pr, q, col, row).Feasible()
    requires Settled(pr, State(pr, q, col, row)) && Stays(pr, State(pr, q, col, row), j)
    requires row[j] == 0 && Escapes(State(pr, q, col, row), j, 0.0, large)
    requires 0.0 <= theta <= large
    ensures Satisfies(pr, y)
    ensures Excess(pr, y, 0) == -State(pr, q, col, row).T(0, 0) + theta * State(pr, q, col, row).T(0, j)
  {
    hide Dict.T, Dot, Problem.Added, Problem.Extended, Dict.UnitColumns, Dict.Nonsingular, Nonnegative;
    var d := State(pr, q, col, row);
    forall i | 1 <= i <= d.m
      ensures theta * d.T(i, j) <= d.T(i, 0)
    {
      EscapeRatio(d.T(i, 0), d.T(i, j), theta, large);
    }
    UnboundedRay(d, j, theta);
    var x := Shifted(d, j, theta);
    SolvingSatisfies(pr, q, col, row, x);
    y := x[..pr.n + 1];
  }

  // The cost has no lower bound.
  ghost predicate NoLowerBound(pr: Problem)
    requires pr.Sized()
  {
    forall bound: real :: Undercut(pr, bound)
  }

  ghost predicate Undercut(pr: Problem, bound: real)
    requires pr.Sized()
  {
    exists y :: Satisfies(pr, y) && Excess(pr, y, 0) < bound
  }

  // Points with cost base + theta * slope, slope negative, for every theta up to large.
  ghost predicate Unlimited(pr: Problem, large: real)
    requires pr.Sized()
  {
    exists base: real, slope: real :: Ray(pr, base, slope, large)
  }

  ghost predicate Ray(pr: Problem, base: real, slope: real, large: real)
    requires pr.Sized()
  {
    slope < 0.0 && forall theta :: 0.0 <= theta <= large ==> Reached(pr, base, slope, theta)
  }

  ghost predicate Reached(pr: Problem, base: real, slope: real, theta: real)
    requires pr.Sized()
  {
    exists y :: Satisfies(pr, y) && Excess(pr, y, 0) == base + theta * slope
  }
}
