// Variables without a sign become differences: every x[j] is y[j] - y[n] with y nonnegative, and
// rows are negated until their right-hand sides are not negative.
module FreeVariables {
  import opened LinearAlgebra
  import opened Tableau
  import opened StandardForm

  // The coefficient of the added variable is minus the sum of the others.
  function Widened(r: Vec, first: real): Vec
    requires |r| >= 1
  {
    [first] + r[1..] + [-Tail(r, |r|)]
  }

  function Negated(r: Vec): Vec {
    seq(|r|, j requires 0 <= j < |r| => -r[j])
  }

  function Flipped(rel: Relation): Relation {
    match rel
    case Equal => Equal
    case AtMost => AtLeast
    case AtLeast => AtMost
  }

  predicate MustFlip(first: real, rel: Relation) {
    first < 0.0 || (first == 0.0 && rel == AtLeast)
  }

  // The row solve_fr() makes of row r with relation rel.
  function LoadedRow(r: Vec, rel: Relation): Vec
    requires |r| >= 1
  {
    var w := Widened(r, -r[0]);
    if MustFlip(w[0], rel) then Negated(w) else w
  }

  function LoadedRelation(r: Vec, rel: Relation): Relation
    requires |r| >= 1
  {
    if MustFlip(-r[0], rel) then Flipped(rel) else rel
  }

  // From the nonnegative variables back to the given ones; component 0 is the constant 1.
  function Drop(y: Vec): (x: Vec)
    requires |y| >= 2
    ensures |x| == |y| - 1
  {
    seq(|y| - 1, j requires 0 <= j < |y| - 1 => if j == 0 then 1.0 else y[j] - y[|y| - 1])
  }

  lemma {:induction false} WidenedPart(r: Vec, first: real, y: Vec, k: nat)
    requires |y| == |r| + 1 && 1 <= k <= |r|
    ensures |Widened(r, first)| == |y|
    ensures Dot(Widened(r, first), y, k) == Dot(r, Drop(y), k) + y[|r|] * Tail(r, k) + first * y[0] - r[0]
  {
    var t := y[|r|];
    if k == 1 {
      assert Dot(Widened(r, first), y, 0) == 0.0 && Dot(r, Drop(y), 0) == 0.0;
      assert Tail(r, 1) == 0.0 && t * 0.0 == 0.0;
    } else {
      WidenedPart(r, first, y, k - 1);
      assert r[k - 1] * (y[k - 1] - t) == r[k - 1] * y[k - 1] - t * r[k - 1];
      assert t * (Tail(r, k - 1) + r[k - 1]) == t * Tail(r, k - 1) + t * r[k - 1];
      assert Widened(r, first)[k - 1] == r[k - 1];
    }
  }

  lemma WidenedLast(r: Vec, first: real)
    requires |r| >= 1
    ensures |Widened(r, first)| == |r| + 1 && Widened(r, first)[|r|] == -Tail(r, |r|)
  {
    hide Tail;
  }

  lemma Cancels(t: real, s: real)
    ensures t * s + (-s) * t == 0.0
  {
  }

  lemma LastTerm(u: Vec, v: Vec, k: nat)
    requires k < |u| && k < |v|
    ensures Dot(u, v, k + 1) == Dot(u, v, k) + u[k] * v[k]
  {
  }

  // A widened row takes on y the value of the row on the dropped variables, up to the constant.
  lemma WidenedValue(r: Vec, first: real, y: Vec)
    requires |y| == |r| + 1 && |r| >= 1
    ensures |Widened(r, first)| == |y|
    ensures Dot(Widened(r, first), y, |y|) == Dot(r, Drop(y), |r|) + first * y[0] - r[0]
  {
    hide *;
    WidenedLast(r, first);
    WidenedPart(r, first, y, |r|);
    LastTerm(Widened(r, first), y, |r|);
    Cancels(y[|r|], Tail(r, |r|));
  }

  lemma NegatedValue(r: Vec, y: Vec)
    requires |r| == |y|
    ensures Dot(Negated(r), y, |r|) == -Dot(r, y, |r|)
  {
    assert forall j :: 0 <= j < |r| ==> Negated(r)[j] == (-1.0) * r[j];
    DotScales(Negated(r), r, -1.0, y, |r|);
  }

  // A loaded row holds on y exactly when the given row holds on the dropped variables.
  lemma LoadedHolds(r: Vec, rel: Relation, y: Vec)
    requires |y| == |r| + 1 && |r| >= 1 && y[0] == -1.0
    ensures |LoadedRow(r, rel)| == |y| && LoadedRow(r, rel)[0] >= 0.0
    ensures Holds(LoadedRelation(r, rel), Dot(LoadedRow(r, rel), y, |y|)) <==> Holds(rel, Dot(r, Drop(y), |r|))
  {
    hide Dot, Drop, Tail;
    WidenedValue(r, -r[0], y);
    NegatedValue(Widened(r, -r[0]), y);
  }

  // Nonnegative variables for given ones.
  function Lift(x: Vec, t: real): Vec
    requires |x| >= 1
  {
    seq(|x| + 1, j requires 0 <= j <= |x| => if j == 0 then -1.0 else if j == |x| then t else x[j] + t)
  }

  function Shift(x: Vec, k: nat): (t: real)
    requires k <= |x|
    ensures t >= 0.0 && forall j :: 0 <= j < k ==> x[j] + t >= 0.0
  {
    if k == 0 then 0.0
    else
      var t := Shift(x, k - 1);
      if x[k - 1] + t >= 0.0 then t else -x[k - 1]
  }

  lemma LiftDrops(x: Vec)
    requires |x| >= 1 && x[0] == 1.0
    ensures var y := Lift(x, Shift(x, |x|)); |y| == |x| + 1 && y[0] == -1.0 && Nonnegative(y) && Drop(y) == x
  {
  }

  // x, with x[0] == 1 for the constants, satisfies the given constraints other than those of gone,
  // which are numbered from 1.
  ghost predicate AdmissibleBut(rows: seq<Vec>, rels: seq<Relation>, gone: set<nat>, x: Vec)
    requires |rows| == |rels|
  {
    |x| >= 1 && x[0] == 1.0 && forall i :: 0 <= i < |rows| && i + 1 !in gone ==> RowHolds(rows[i], rels[i], x)
  }

  ghost predicate Admissible(rows: seq<Vec>, rels: seq<Relation>, x: Vec)
    requires |rows| == |rels|
  {
    AdmissibleBut(rows, rels, {}, x)
  }

  ghost predicate RowHolds(r: Vec, rel: Relation, x: Vec) {
    |r| == |x| && Holds(rel, Dot(r, x, |x|))
  }

  // pr is what solve_fr() loads: widened rows, and no costs yet.
  ghost predicate Loaded(pr: Problem, rows: seq<Vec>, rels: seq<Relation>, n0: nat)
    requires pr.Sized() && |rows| == |rels|
  {
    && pr.m == |rows| && pr.n == n0 + 1
    && forall i :: 0 <= i < pr.m ==> |rows[i]| == n0 + 1 && pr.a[i + 1] == LoadedRow(rows[i], rels[i]) &&
                                     pr.rel[i + 1] == LoadedRelation(rows[i], rels[i])
  }

  // The problem that phase 1 works on.
  ghost predicate LoadedProblem(pr: Problem, rows: seq<Vec>, rels: seq<Relation>, n0: nat)
    requires |rows| == |rels|
  {
    pr.Prepared() && NoCost(pr) && Loaded(pr, rows, rels, n0)
  }

  lemma LoadedMeet(pr: Problem, rows: seq<Vec>, rels: seq<Relation>, n0: nat, y: Vec, i: nat)
    requires pr.Sized() && |rows| == |rels| && Loaded(pr, rows, rels, n0)
    requires |y| == n0 + 2 && y[0] == -1.0 && i < pr.m
    ensures Meets(pr, y, i + 1) <==> RowHolds(rows[i], rels[i], Drop(y))
  {
    hide Dot, LoadedRow, LoadedRelation, Holds;
    LoadedHolds(rows[i], rels[i], y);
  }

  lemma LoadedMeets(pr: Problem, rows: seq<Vec>, rels: seq<Relation>, n0: nat, gone: set<nat>, y: Vec)
    requires pr.Sized() && |rows| == |rels| && Loaded(pr, rows, rels, n0)
    requires |y| == n0 + 2 && y[0] == -1.0 && Nonnegative(y)
    ensures Dropped(pr, gone).Sized()
    ensures Satisfies(Dropped(pr, gone), y) <==> AdmissibleBut(rows, rels, gone, Drop(y))
  {
    hide LoadedRow, LoadedRelation, Meets, RowHolds, Dropped, Satisfies, Nonnegative;
    DroppedSatisfies(pr, gone, y);
    var x := Drop(y);
    forall i | 0 <= i < pr.m
      ensures Meets(pr, y, i + 1) <==> RowHolds(rows[i], rels[i], x)
    {
      LoadedMeet(pr, rows, rels, n0, y, i);
    }
    forall i | 1 <= i <= pr.m
      ensures Meets(pr, y, i) <==> RowHolds(rows[i - 1], rels[i - 1], x)
    {
      assert Meets(pr, y, (i - 1) + 1) <==> RowHolds(rows[i - 1], rels[i - 1], x);
    }
    forall i | 0 <= i < |rows| && i + 1 !in gone && Satisfies(Dropped(pr, gone), y)
      ensures RowHolds(rows[i], rels[i], x)
    {
      assert Meets(pr, y, i + 1);
    }
  }

  ghost predicate Consistent(rows: seq<Vec>, rels: seq<Relation>, n: nat)
    requires |rows| == |rels|
  {
    exists x :: |x| == n && Admissible(rows, rels, x)
  }

  // The given constraints can be satisfied exactly when the loaded ones can.
  lemma SameFeasibility(pr: Problem, rows: seq<Vec>, rels: seq<Relation>, n0: nat)
    requires pr.Sized() && |rows| == |rels| && Loaded(pr, rows, rels, n0)
    ensures Satisfiable(pr) <==> Consistent(rows, rels, n0 + 1)
  {
    DroppedShape(pr, {});
    hide Satisfies, AdmissibleBut, Drop, Lift, Dropped;
    if y :| Satisfies(pr, y) {
      SatisfiesShape(pr, y);
      LoadedMeets(pr, rows, rels, n0, {}, y);
      assert Admissible(rows, rels, Drop(y));
    }
    if x :| |x| == n0 + 1 && Admissible(rows, rels, x) {
      AdmissibleShape(rows, rels, {}, x);
      LiftDrops(x);
      LoadedMeets(pr, rows, rels, n0, {}, Lift(x, Shift(x, |x|)));
    }
  }

  lemma SatisfiesShape(pr: Problem, y: Vec)
    requires pr.Sized() && Satisfies(pr, y)
    ensures |y| == pr.n + 1 && y[0] == -1.0 && Nonnegative(y)
  {
  }

  lemma AdmissibleShape(rows: seq<Vec>, rels: seq<Relation>, gone: set<nat>, x: Vec)
    requires |rows| == |rels| && AdmissibleBut(rows, rels, gone, x)
    ensures |x| >= 1 && x[0] == 1.0
  {
  }

  // x satisfies the constraints other than those of gone, and no such point costs less.
  ghost predicate CheapestBut(rows: seq<Vec>, rels: seq<Relation>, gone: set<nat>, cost: Vec, x: Vec)
    requires |rows| == |rels|
  {
    && |x| == |cost| && AdmissibleBut(rows, rels, gone, x)
    && forall z :: |z| == |cost| && AdmissibleBut(rows, rels, gone, z) ==> Dot(cost, x, |cost|) <= Dot(cost, z, |cost|)
  }

  // An optimum: x is admissible and no admissible point costs less.
  ghost predicate Cheapest(rows: seq<Vec>, rels: seq<Relation>, cost: Vec, x: Vec)
    requires |rows| == |rels|
  {
    CheapestBut(rows, rels, {}, cost, x)
  }

  lemma CostValue(cost: Vec, y: Vec)
    requires |y| == |cost| + 1 && |cost| >= 1 && y[0] == -1.0
    ensures |Widened(cost, cost[0])| == |y|
    ensures Dot(Widened(cost, cost[0]), y, |y|) == Dot(cost, Drop(y), |cost|) - 2.0 * cost[0]
  {
    hide Dot, Drop, Widened;
    WidenedValue(cost, cost[0], y);
  }

  // The cost of a point of the loaded problem.
  lemma LoadedCost(pr: Problem, gone: set<nat>, cost: Vec, y: Vec)
    requires pr.Sized() && |cost| >= 1 && pr.n == |cost| && pr.a[0] == Widened(cost, cost[0])
    requires |y| == |cost| + 1 && y[0] == -1.0
    ensures Dropped(pr, gone).Sized() && Dropped(pr, gone).n == pr.n
    ensures Excess(Dropped(pr, gone), y, 0) == Dot(cost, Drop(y), |cost|) - 2.0 * cost[0]
  {
    hide Dot, Drop, Widened, Dropped;
    DroppedShape(pr, gone);
    CostValue(cost, y);
  }

  // An optimum of the loaded problem is an optimum of the given one.
  lemma OptimumDrops(pr: Problem, rows: seq<Vec>, rels: seq<Relation>, cost: Vec, gone: set<nat>, s: Vec)
    requires pr.Sized() && |rows| == |rels| && |cost| >= 1 && Loaded(pr, rows, rels, |cost| - 1)
    requires pr.a[0] == Widened(cost, cost[0]) && Dropped(pr, gone).Sized() && Satisfies(Dropped(pr, gone), s)
    requires forall y :: Satisfies(Dropped(pr, gone), y) ==>
      Excess(Dropped(pr, gone), s, 0) <= Excess(Dropped(pr, gone), y, 0)
    ensures |s| == |cost| + 1 && CheapestBut(rows, rels, gone, cost, Drop(s))
  {
    hide Satisfies, AdmissibleBut, Drop, Lift, Dot, Widened, Dropped, Excess;
    DroppedShape(pr, gone);
    SatisfiesShape(Dropped(pr, gone), s);
    LoadedMeets(pr, rows, rels, |cost| - 1, gone, s);
    LoadedCost(pr, gone, cost, s);
    forall z | |z| == |cost| && AdmissibleBut(rows, rels, gone, z)
      ensures Dot(cost, Drop(s), |cost|) <= Dot(cost, z, |cost|)
    {
      AdmissibleShape(rows, rels, gone, z);
      LiftDrops(z);
      var y := Lift(z, Shift(z, |z|));
      LoadedMeets(pr, rows, rels, |cost| - 1, gone, y);
      LoadedCost(pr, gone, cost, y);
    }
  }

  // The components of z in the extended constraints other than gone, added up: the shifted variables,
  // the shift, and how far the inequalities are from equality.
  function Components(pr: Problem, gone: set<nat>, z: Vec): real
    requires pr.Sized() && |z| == pr.n >= 1
  {
    DroppedShape(pr, gone);
    Tail(WithSlack(Dropped(pr, gone), Lift(z, Shift(z, |z|))), pr.n3 + 1)
  }

  // x meets the equations other than those of gone, and no point that satisfies the constraints other
  // than gone is cheaper by more than eps for every unit of its components.
  ghost predicate NearlyCheapest(pr: Problem, rows: seq<Vec>, rels: seq<Relation>, gone: set<nat>, cost: Vec,
                                 eps: real, x: Vec)
    requires |rows| == |rels| && pr.Sized() && pr.n == |cost| >= 1
  {
    && |x| == |cost| && x[0] == 1.0
    && (forall i :: 0 <= i < |rows| && i + 1 !in gone && rels[i] == Equal ==> RowHolds(rows[i], Equal, x))
    && forall z :: |z| == |cost| && AdmissibleBut(rows, rels, gone, z) ==>
         Dot(cost, x, |cost|) <= Dot(cost, z, |cost|) + eps * Components(pr, gone, z)
  }

  // The components do not depend on the costs.
  lemma ComponentsKeep(pr: Problem, gone: set<nat>, c: Vec, z: Vec)
    requires pr.Sized() && |z| == pr.n >= 1 && |c| == pr.n + 1
    ensures WithCost(pr, c).Sized() && Components(WithCost(pr, c), gone, z) == Components(pr, gone, z)
  {
    DroppedCost(pr, gone, c);
    LiftSize(z);
    hide *;
    SlackKeeps(Dropped(pr, gone), c, Lift(z, Shift(z, |z|)));
  }

  lemma SlackKeeps(pr: Problem, c: Vec, y: Vec)
    requires pr.Sized() && |c| == pr.n + 1 && |y| == pr.n + 1
    ensures WithCost(pr, c).Sized() && WithCost(pr, c).n == pr.n && WithCost(pr, c).n3 == pr.n3
    ensures WithSlack(WithCost(pr, c), y) == WithSlack(pr, y)
  {
    hide Dot;
    forall j | 0 <= j <= pr.n3
      ensures WithSlack(WithCost(pr, c), y)[j] == WithSlack(pr, y)[j]
    {
    }
  }

  lemma LiftSize(z: Vec)
    requires |z| >= 1
    ensures |Lift(z, Shift(z, |z|))| == |z| + 1
  {
  }

  // An equation outside gone holds on the dropped variables when it holds on y.
  lemma EquationDrops(pr: Problem, rows: seq<Vec>, rels: seq<Relation>, n0: nat, gone: set<nat>, y: Vec, i: nat)
    requires pr.Sized() && |rows| == |rels| && Loaded(pr, rows, rels, n0) && Dropped(pr, gone).Sized()
    requires |y| == n0 + 2 && y[0] == -1.0 && i < pr.m && i + 1 !in gone && rels[i] == Equal
    requires Dropped(pr, gone).rel[i + 1] == Equal ==> Meets(Dropped(pr, gone), y, i + 1)
    ensures RowHolds(rows[i], Equal, Drop(y))
  {
    hide Dot, LoadedRow, RowHolds;
    LoadedMeet(pr, rows, rels, n0, y, i);
    assert Dropped(pr, gone).a[i + 1] == pr.a[i + 1];
    hide Dropped, Drop;
  }

  // Nearly an optimum of the loaded problem, and so of the given one.
  lemma NearOptimumDrops(pr: Problem, rows: seq<Vec>, rels: seq<Relation>, cost: Vec, gone: set<nat>, eps: real, s: Vec)
    requires pr.Sized() && |rows| == |rels| && |cost| >= 1 && Loaded(pr, rows, rels, |cost| - 1)
    requires pr.a[0] == Widened(cost, cost[0]) && Dropped(pr, gone).Sized() && |s| == pr.n + 1 && s[0] == -1.0
    requires forall i :: 1 <= i <= pr.m && Dropped(pr, gone).rel[i] == Equal ==> Meets(Dropped(pr, gone), s, i)
    requires forall y :: Satisfies(Dropped(pr, gone), y) ==>
      Excess(Dropped(pr, gone), s, 0) <=
      Excess(Dropped(pr, gone), y, 0) + eps * Tail(WithSlack(Dropped(pr, gone), y), pr.n3 + 1)
    ensures pr.n == |cost| && NearlyCheapest(pr, rows, rels, gone, cost, eps, Drop(s))
  {
    hide Satisfies, AdmissibleBut, Drop, Lift, Dot, Widened, Dropped, Excess, Meets, RowHolds, WithSlack, Tail,
      LoadedRow, LoadedRelation;
    DroppedShape(pr, gone);
    DroppedFields(pr, gone);
    LoadedCost(pr, gone, cost, s);
    DropStarts(s);
    forall i | 0 <= i < |rows| && i + 1 !in gone && rels[i] == Equal
      ensures RowHolds(rows[i], Equal, Drop(s))
    {
      EquationDrops(pr, rows, rels, |cost| - 1, gone, s, i);
    }
    forall z | |z| == |cost| && AdmissibleBut(rows, rels, gone, z)
      ensures Dot(cost, Drop(s), |cost|) <= Dot(cost, z, |cost|) + eps * Components(pr, gone, z)
    {
      AdmissibleShape(rows, rels, gone, z);
      LiftDrops(z);
      var y := Lift(z, Shift(z, |z|));
      LoadedMeets(pr, rows, rels, |cost| - 1, gone, y);
      LoadedCost(pr, gone, cost, y);
    }
  }

  lemma DropStarts(y: Vec)
    requires |y| >= 2
    ensures Drop(y)[0] == 1.0
  {
  }

  lemma NearKeeps(pr: Problem, rows: seq<Vec>, rels: seq<Relation>, gone: set<nat>, cost: Vec, c: Vec, eps: real,
      x: Vec)
    requires |rows| == |rels| && pr.Sized() && pr.n == |cost| >= 1 && |c| == pr.n + 1 && WithCost(pr, c).Sized()
    requires WithCost(pr, c).n == pr.n && NearlyCheapest(WithCost(pr, c), rows, rels, gone, cost, eps, x)
    ensures NearlyCheapest(pr, rows, rels, gone, cost, eps, x)
  {
    hide Components, WithCost, AdmissibleBut, RowHolds, Dot;
    forall z | |z| == |cost| && AdmissibleBut(rows, rels, gone, z)
      ensures Dot(cost, x, |cost|) <= Dot(cost, z, |cost|) + eps * Components(pr, gone, z)
    {
      ComponentsKeep(pr, gone, c, z);
    }
  }

  // Every admissible point has components that add up to more than 1, or there is none where eps is 0.
  ghost predicate OutOfReach(pr: Problem, rows: seq<Vec>, rels: seq<Relation>, eps: real)
    requires |rows| == |rels| && pr.Sized() && pr.n >= 1
  {
    forall x :: |x| == pr.n && Admissible(rows, rels, x) ==> eps < eps * Components(pr, {}, x)
  }

  // Points that satisfy the constraints other than gone with cost base + theta * slope, slope
  // negative, for every theta up to large.
  ghost predicate FreeUnlimited(rows: seq<Vec>, rels: seq<Relation>, gone: set<nat>, cost: Vec, large: real)
    requires |rows| == |rels|
  {
    exists base: real, slope: real :: FreeRay(rows, rels, gone, cost, base, slope, large)
  }

  ghost predicate FreeRay(rows: seq<Vec>, rels: seq<Relation>, gone: set<nat>, cost: Vec,
                          base: real, slope: real, large: real)
    requires |rows| == |rels|
  {
    slope < 0.0 && forall theta :: 0.0 <= theta <= large ==> FreeReached(rows, rels, gone, cost, base, slope, theta)
  }

  ghost predicate FreeReached(rows: seq<Vec>, rels: seq<Relation>, gone: set<nat>, cost: Vec,
                              base: real, slope: real, theta: real)
    requires |rows| == |rels|
  {
    exists x :: |x| == |cost| && AdmissibleBut(rows, rels, gone, x) && Dot(cost, x, |cost|) == base + theta * slope
  }

  // The cost has no lower bound on the points that satisfy the constraints other than gone.
  ghost predicate FreeNoLowerBound(rows: seq<Vec>, rels: seq<Relation>, gone: set<nat>, cost: Vec)
    requires |rows| == |rels|
  {
    forall bound: real :: FreeUndercut(rows, rels, gone, cost, bound)
  }

  ghost predicate FreeUndercut(rows: seq<Vec>, rels: seq<Relation>, gone: set<nat>, cost: Vec, bound: real)
    requires |rows| == |rels|
  {
    exists x :: |x| == |cost| && AdmissibleBut(rows, rels, gone, x) && Dot(cost, x, |cost|) < bound
  }

  // A point of the loaded problem, back in the given variables.
  lemma PointDrops(pr: Problem, rows: seq<Vec>, rels: seq<Relation>, cost: Vec, gone: set<nat>, y: Vec)
    requires pr.Sized() && |rows| == |rels| && |cost| >= 1 && Loaded(pr, rows, rels, |cost| - 1)
    requires pr.a[0] == Widened(cost, cost[0]) && Dropped(pr, gone).Sized() && Satisfies(Dropped(pr, gone), y)
    ensures |y| == |cost| + 1 && |Drop(y)| == |cost| && AdmissibleBut(rows, rels, gone, Drop(y))
    ensures Dot(cost, Drop(y), |cost|) == Excess(Dropped(pr, gone), y, 0) + 2.0 * cost[0]
  {
    hide Satisfies, AdmissibleBut, Drop, Dot, Widened, Dropped, Excess;
    DroppedShape(pr, gone);
    SatisfiesShape(Dropped(pr, gone), y);
    LoadedMeets(pr, rows, rels, |cost| - 1, gone, y);
    LoadedCost(pr, gone, cost, y);
  }

  lemma ReachedPoint(pr: Problem, base: real, slope: real, theta: real) returns (y: Vec)
    requires pr.Sized() && Reached(pr, base, slope, theta)
    ensures |y| == pr.n + 1 && Satisfies(pr, y) && Excess(pr, y, 0) == base + theta * slope
  {
    y :| Satisfies(pr, y) && Excess(pr, y, 0) == base + theta * slope;
  }

  lemma UndercutPoint(pr: Problem, bound: real) returns (y: Vec)
    requires pr.Sized() && NoLowerBound(pr)
    ensures |y| == pr.n + 1 && Satisfies(pr, y) && Excess(pr, y, 0) < bound
  {
    assert Undercut(pr, bound);
    y :| Satisfies(pr, y) && Excess(pr, y, 0) < bound;
  }

  lemma UnlimitedDrops(pr: Problem, rows: seq<Vec>, rels: seq<Relation>, cost: Vec, gone: set<nat>, large: real)
    requires pr.Sized() && |rows| == |rels| && |cost| >= 1 && Loaded(pr, rows, rels, |cost| - 1)
    requires pr.a[0] == Widened(cost, cost[0]) && Dropped(pr, gone).Sized() && Unlimited(Dropped(pr, gone), large)
    ensures FreeUnlimited(rows, rels, gone, cost, large)
  {
    hide Satisfies, AdmissibleBut, Drop, Dot, Widened, Dropped, Excess, Loaded;
    var base, slope :| Ray(Dropped(pr, gone), base, slope, large);
    var base' := base + 2.0 * cost[0];
    forall theta | 0.0 <= theta <= large
      ensures FreeReached(rows, rels, gone, cost, base', slope, theta)
    {
      var y := ReachedPoint(Dropped(pr, gone), base, slope, theta);
      PointDrops(pr, rows, rels, cost, gone, y);
    }
    assert FreeRay(rows, rels, gone, cost, base', slope, large);
  }

  lemma NoBoundDrops(pr: Problem, rows: seq<Vec>, rels: seq<Relation>, cost: Vec, gone: set<nat>)
    requires pr.Sized() && |rows| == |rels| && |cost| >= 1 && Loaded(pr, rows, rels, |cost| - 1)
    requires pr.a[0] == Widened(cost, cost[0]) && Dropped(pr, gone).Sized() && NoLowerBound(Dropped(pr, gone))
    ensures FreeNoLowerBound(rows, rels, gone, cost)
  {
    hide Satisfies, AdmissibleBut, Drop, Dot, Widened, Dropped, Excess, Loaded;
    forall bound: real
      ensures FreeUndercut(rows, rels, gone, cost, bound)
    {
      var y := UndercutPoint(Dropped(pr, gone), bound - 2.0 * cost[0]);
      PointDrops(pr, rows, rels, cost, gone, y);
    }
  }

  // ---------------------------------------------------------------- the loaded problem is unique

  // Columns low + 1 to high of p belong to the rows with the relations of kinds, in order.
  ghost predicate Lists(p: Problem, low: nat, high: nat, kinds: set<Relation>) {
    && low <= high < |p.nz| && |p.rel| == p.m + 1
    && (forall j :: low < j <= high ==> 1 <= p.nz[j] <= p.m && p.rel[p.nz[j]] in kinds)
    && (forall j, k :: low < j < k <= high ==> p.nz[j] < p.nz[k])
    && (forall i :: 1 <= i <= p.m && p.rel[i] in kinds ==> exists j :: low < j <= high && p.nz[j] == i)
  }

  lemma SurplusList(p: Problem)
    requires p.Prepared()
    ensures Lists(p, p.n, p.n1, {AtLeast})
  {
    assert forall j :: p.n < j <= p.n1 ==> p.rel[p.nz[j]] == AtLeast;
  }

  lemma SlackList(p: Problem)
    requires p.Prepared()
    ensures Lists(p, p.n1, p.n2, {AtMost})
  {
    assert forall j :: p.n1 < j <= p.n2 ==> p.rel[p.nz[j]] == AtMost;
  }

  lemma ArtificialList(p: Problem)
    requires p.Prepared()
    ensures Lists(p, p.n2, p.n3, {Equal, AtLeast})
  {
    assert forall j :: p.n2 < j <= p.n3 ==> p.rel[p.nz[j]] != AtMost;
  }

  lemma {:induction false} ListIsUnique(p: Problem, p': Problem, low: nat, high: nat, high': nat,
      kinds: set<Relation>, j: nat)
    requires Lists(p, low, high, kinds) && Lists(p', low, high', kinds) && p.m == p'.m && p.rel[1..] == p'.rel[1..]
    requires low < j <= high
    ensures j <= high' && p.nz[j] == p'.nz[j]
    decreases j
  {
    var i := p.nz[j];
    assert p.rel[1..][i - 1] == p'.rel[1..][i - 1];
    var l :| low < l <= high' && p'.nz[l] == i;
    if l < j {
      ListIsUnique(p, p', low, high, high', kinds, l);
    } else if j < l {
      var i' := p'.nz[j];
      assert i' < i && p.rel[1..][i' - 1] == p'.rel[1..][i' - 1];
      var l' :| low < l' <= high && p.nz[l'] == i';
      if l' < j {
        ListIsUnique(p, p', low, high, high', kinds, l');
      }
    }
  }

  lemma ListsAreEqual(p: Problem, p': Problem, low: nat, high: nat, high': nat, kinds: set<Relation>)
    requires Lists(p, low, high, kinds) && Lists(p', low, high', kinds) && p.m == p'.m && p.rel[1..] == p'.rel[1..]
    ensures high == high' && forall j :: low < j <= high ==> p.nz[j] == p'.nz[j]
  {
    hide Lists;
    ListBounds(p, low, high, kinds);
    ListBounds(p', low, high', kinds);
    forall j | low < j <= high
      ensures j <= high' && p.nz[j] == p'.nz[j]
    {
      ListIsUnique(p, p', low, high, high', kinds, j);
    }
    if low < high' {
      ListIsUnique(p', p, low, high', high, kinds, high');
    }
    if low < high {
      ListIsUnique(p, p', low, high, high', kinds, high);
    }
  }

  lemma ListBounds(p: Problem, low: nat, high: nat, kinds: set<Relation>)
    requires Lists(p, low, high, kinds)
    ensures low <= high < |p.nz|
  {
  }

  // The rows determine the problem that phase 1 works on.
  lemma LoadedIsUnique(p: Problem, p': Problem, rows: seq<Vec>, rels: seq<Relation>, n0: nat)
    requires |rows| == |rels| && LoadedProblem(p, rows, rels, n0) && LoadedProblem(p', rows, rels, n0)
    ensures p.m == p'.m && p.n == p'.n && p.n1 == p'.n1 && p.n2 == p'.n2 && p.n3 == p'.n3
    ensures p.a == p'.a && p.rel[1..] == p'.rel[1..] && forall j :: p.n < j <= p.n3 ==> p.nz[j] == p'.nz[j]
    ensures p.Extended() == p'.Extended()
  {
    SameRows(p, p', rows, rels, n0);
    SurplusList(p);
    SurplusList(p');
    SlackList(p);
    SlackList(p');
    ArtificialList(p);
    ArtificialList(p');
    hide Lists, Problem.Added, Problem.Extended, Loaded;
    ListsAreEqual(p, p', p.n, p.n1, p'.n1, {AtLeast});
    ListsAreEqual(p, p', p.n1, p.n2, p'.n2, {AtMost});
    ListsAreEqual(p, p', p.n2, p.n3, p'.n3, {Equal, AtLeast});
    SameExtended(p, p');
  }

  lemma SameExtended(p: Problem, p': Problem)
    requires p.Sized() && p'.Sized() && p.m == p'.m && p.n == p'.n && p.n1 == p'.n1 && p.n2 == p'.n2 && p.n3 == p'.n3
    requires p.a == p'.a && forall j :: p.n < j <= p.n3 ==> p.nz[j] == p'.nz[j]
    ensures p.Extended() == p'.Extended()
  {
    forall i | 0 <= i <= p.m
      ensures p.Extended()[i] == p'.Extended()[i]
    {
      assert forall j :: 0 <= j <= p.n3 ==> p.Entry(i, j) == p'.Entry(i, j);
    }
  }

  lemma LoadedRowIs(p: Problem, rows: seq<Vec>, rels: seq<Relation>, n0: nat, i: nat)
    requires |rows| == |rels| && LoadedProblem(p, rows, rels, n0) && 1 <= i <= p.m
    ensures |rows[i - 1]| >= 1 && p.a[i] == LoadedRow(rows[i - 1], rels[i - 1])
    ensures p.rel[i] == LoadedRelation(rows[i - 1], rels[i - 1])
  {
    hide Problem.Added, LoadedRow, LoadedRelation;
    assert p.a[(i - 1) + 1] == LoadedRow(rows[i - 1], rels[i - 1]);
  }

  lemma SameRows(p: Problem, p': Problem, rows: seq<Vec>, rels: seq<Relation>, n0: nat)
    requires |rows| == |rels| && LoadedProblem(p, rows, rels, n0) && LoadedProblem(p', rows, rels, n0)
    ensures p.m == p'.m && p.n == p'.n && p.a == p'.a && p.rel[1..] == p'.rel[1..]
  {
    hide Problem.Added, LoadedRow, LoadedRelation;
    forall i | 1 <= i <= p.m
      ensures p.a[i] == p'.a[i] && p.rel[i] == p'.rel[i]
    {
      LoadedRowIs(p, rows, rels, n0, i);
      LoadedRowIs(p', rows, rels, n0, i);
    }
    assert p.a[0] == p'.a[0];
  }
}
