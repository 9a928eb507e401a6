// When the bound `large` of the ratio test cannot mislead the two phases: a condition on the
// vertices of the constraints.
module Vertices {
  import opened LinearAlgebra
  import opened Tableau
  import opened StandardForm

  // x, with x[0] == -1, is a basic feasible solution of the extended constraints: the columns of
  // its nonzero components are linearly independent.
  ghost predicate Vertex(pr: Problem, x: Vec)
    requires pr.Sized()
  {
    && |x| == pr.n3 + 1 && x[0] == -1.0 && Nonnegative(x)
    && (forall i :: 1 <= i <= pr.m ==> Dot(pr.Extended()[i], x, pr.n3 + 1) == 0.0)
    && forall z: Vec :: Supported(pr, x, z) ==> forall l :: 0 <= l <= pr.n3 ==> z[l] == 0.0
  }

  // z is a solution of the homogeneous constraints that is zero wherever x is.
  ghost predicate Supported(pr: Problem, x: Vec, z: Vec)
    requires pr.Sized() && |x| == pr.n3 + 1
  {
    && |z| == pr.n3 + 1 && z[0] == 0.0 && (forall l :: 1 <= l <= pr.n3 && x[l] == 0.0 ==> z[l] == 0.0)
    && forall i :: 1 <= i <= pr.m ==> Dot(pr.Extended()[i], z, pr.n3 + 1) == 0.0
  }

  // All vertices stay below large.
  ghost predicate VerticesBelow(pr: Problem, large: real)
    requires pr.Sized()
  {
    forall x: Vec, j :: Vertex(pr, x) && 1 <= j <= pr.n3 ==> x[j] < large
  }

  // Row i of the tableau vanishes on a homogeneous solution.
  lemma RowOnKernel(d: Dict, i: nat, z: Vec)
    requires d.Sized() && d.FirstColumn() && 1 <= i <= d.m && |z| == d.width
    requires forall k :: 1 <= k <= d.m ==> Dot(d.a[k], z, d.width) == 0.0
    ensures Dot(d.Row(i), z, d.width) == 0.0
  {
    var r := Residuals(d.a, d.m + 1, d.width, z, d.width);
    CombineResiduals(d.q[i], d.a, d.m + 1, d.width, z, d.width);
    DotCommutes(d.q[i], r, d.m + 1);
    hide Dot, Combine;
    DotUnit(r, d.q[i], 0, d.m + 1);
  }

  // A homogeneous solution on the basic columns alone is zero.
  lemma BasicKernel(d: Dict, z: Vec, i: nat)
    requires d.Valid() && 1 <= i <= d.m && |z| == d.width && z[0] == 0.0
    requires forall l :: 1 <= l < d.width && d.row[l] == 0 ==> z[l] == 0.0
    requires forall k :: 1 <= k <= d.m ==> Dot(d.a[k], z, d.width) == 0.0
    ensures z[d.col[i]] == 0.0
  {
    hide Dict.T, Dict.Nonsingular, Dict.Row, Dot;
    RowOnKernel(d, i, z);
    var c := d.col[i];
    RowEntry(d, i, c);
    assert d.T(i, d.col[i]) == 1.0;
    forall l | 0 <= l < d.width && l != c
      ensures d.Row(i)[l] * z[l] == 0.0
    {
      RowEntry(d, i, l);
      if l > 0 && d.row[l] != 0 {
        assert d.T(i, d.col[d.row[l]]) == 0.0;
      }
    }
    DotTwo(d.Row(i), z, c, d.width);
  }

  lemma AllKernel(d: Dict, z: Vec, l: nat)
    requires d.Valid() && l < d.width && |z| == d.width && z[0] == 0.0
    requires forall l :: 1 <= l < d.width && d.row[l] == 0 ==> z[l] == 0.0
    requires forall k :: 1 <= k <= d.m ==> Dot(d.a[k], z, d.width) == 0.0
    ensures z[l] == 0.0
  {
    hide Dict.T, Dict.Nonsingular, Dict.UnitColumns, Dot;
    if l > 0 && d.row[l] != 0 {
      BasicKernel(d, z, d.row[l]);
    }
  }

  // The basic solution of every feasible state of the method is a vertex.
  lemma BasicIsVertex(pr: Problem, d: Dict)
    requires pr.Sized() && d.Valid() && d.Feasible() && d.m == pr.m && d.width == pr.n3 + 1
    requires forall i :: 1 <= i <= pr.m ==> d.a[i] == pr.Extended()[i]
    ensures Vertex(pr, BasicSolution(d))
  {
    hide Dict.T, Dict.Nonsingular, Dict.UnitColumns, Dot, Problem.Extended;
    var x := BasicSolution(d);
    BasicSolves(d);
    forall z: Vec, l | Supported(pr, x, z) && 0 <= l <= pr.n3
      ensures z[l] == 0.0
    {
      AllKernel(d, z, l);
    }
  }

  // The costs are not part of the condition.
  lemma CostKeepsVertices(pr: Problem, c: Vec, large: real)
    requires pr.Sized() && |c| == pr.n + 1
    ensures WithCost(pr, c).Sized() && (VerticesBelow(WithCost(pr, c), large) <==> VerticesBelow(pr, large))
  {
    CostKeepsAdded(pr, c);
    CostKeepsRows(pr, c);
    hide Dot, Problem.Extended, Problem.Added;
    forall x: Vec
      ensures Vertex(WithCost(pr, c), x) <==> Vertex(pr, x)
    {
      if |x| == pr.n3 + 1 {
        assert forall z: Vec :: Supported(WithCost(pr, c), x, z) == Supported(pr, x, z);
      }
    }
  }

  lemma CostKeepsRows(pr: Problem, c: Vec)
    requires pr.Sized() && |c| == pr.n + 1
    ensures WithCost(pr, c).Sized()
    ensures forall i :: 1 <= i <= pr.m ==> WithCost(pr, c).Extended()[i] == pr.Extended()[i]
  {
    CostKeepsAdded(pr, c);
    forall i | 1 <= i <= pr.m
      ensures WithCost(pr, c).Extended()[i] == pr.Extended()[i]
    {
      assert forall j :: 0 <= j <= pr.n3 ==> WithCost(pr, c).Entry(i, j) == pr.Entry(i, j);
    }
  }
}
