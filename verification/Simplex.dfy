// The two-phase revised simplex method on mutable state.
module Simplex {
  import opened LinearAlgebra
  import opened Tableau
  import opened StandardForm
  import opened FreeVariables
  import opened Relaxation
  import opened AddedColumns
  import opened Pivoting
  import opened Leftovers
  import opened PivotPath
  import opened Vertices

  // Fuel: the search for a better basis has no rule against cycling.
  datatype Status = Optimal | Unbounded | OutOfFuel

  datatype Outcome = Solved | ToInfinity | NotFeasible | Unfinished

  // The answer for the end of the path of phase 2.
  function PhaseTwoAnswer(stop: Stop): Outcome {
    match stop
    case Done => Solved
    case Free => ToInfinity
    case Cut => ToInfinity
    case Going => Unfinished
  }

  // The answer that the paths of the two phases lead to.
  ghost predicate FollowsPaths(pr: Problem, c: Vec, large: real, eps: real, fuel: nat, gone: set<nat>, code: Outcome)
    requires pr.Sized() && |c| == pr.n + 1 && eps >= 0.0
  {
    if PhaseOneStops(pr, large, eps, fuel, Going) then code == Unfinished
    else if PhaseOneRejects(pr, large, eps, fuel) then code == NotFeasible
    else
      && PhaseOneGivesUp(pr, large, eps, fuel, gone)
      && forall stop :: PhaseTwoStops(pr, c, gone, large, eps, fuel, stop) ==> code == PhaseTwoAnswer(stop)
  }

  lemma EndsInPhaseOne(pr: Problem, c: Vec, large: real, eps: real, fuel: nat, gone: set<nat>, code: Outcome)
    requires pr.Sized() && |c| == pr.n + 1 && eps >= 0.0
    requires if PhaseOneStops(pr, large, eps, fuel, Going) then code == Unfinished else code == NotFeasible
    requires code == NotFeasible ==> PhaseOneRejects(pr, large, eps, fuel)
    ensures FollowsPaths(pr, c, large, eps, fuel, gone, code)
  {
    hide PhaseOneStops, PhaseTwoStops, PhaseOneGivesUp, PhaseOneRejects;
  }

  lemma Ended(pr: Problem, c: Vec, large: real, eps: real, fuel: nat, gone: set<nat>, code: Outcome)
    requires pr.Sized() && |c| == pr.n + 1 && eps >= 0.0
    requires !PhaseOneRejects(pr, large, eps, fuel) && PhaseOneGivesUp(pr, large, eps, fuel, gone)
    requires code != NotFeasible && (PhaseOneStops(pr, large, eps, fuel, Going) ==> code == Unfinished)
    requires forall stop :: PhaseTwoStops(pr, c, gone, large, eps, fuel, stop) ==>
      (code == Solved <==> stop == Done) && (code == ToInfinity <==> stop == Free || stop == Cut)
    ensures FollowsPaths(pr, c, large, eps, fuel, gone, code)
  {
    hide PhaseOneStops, PhaseTwoStops, PhaseOneGivesUp, PhaseOneRejects;
  }

  ghost function MatrixOf(a: array2<real>): (s: seq<Vec>)
    reads a
    ensures Matrix(s, a.Length0, a.Length1)
    ensures forall i, j :: 0 <= i < a.Length0 && 0 <= j < a.Length1 ==> s[i][j] == a[i, j]
  {
    seq(a.Length0, i requires 0 <= i < a.Length0 reads a =>
      seq(a.Length1, j requires 0 <= j < a.Length1 reads a => a[i, j]))
  }

  class Solver {
    const m: nat
    const n: nat
    const eps: real
    const large: real
    var n1: nat
    var n2: nat
    var n3: nat
    var jmax: nat
    const a: array2<real>
    const q: array2<real>
    const c: array<real>
    const pivotColumn: array<real>
    const col: array<int>
    const row: array<int>
    const nonzeroRow: array<nat>
    const inequality: array<Relation>

    // Sizes of the arrays, as init() allocates them.
    ghost predicate Allocated() {
      && a.Length0 == m + 1 && a.Length1 == n + 1 && q.Length0 == q.Length1 == m + 1 && a != q
      && c.Length == n + 1 && pivotColumn.Length == m + 1 && c != pivotColumn
      && col.Length == m + 1 && row.Length == n + 2 * m + 1 && col != row
      && nonzeroRow.Length == n + 2 * m + 1 && inequality.Length == m + 1 && eps >= 0.0
    }

    constructor (n: nat, m: nat, eps: real, large: real)
      requires eps >= 0.0
      ensures this.n == n && this.m == m && this.eps == eps && this.large == large
      ensures Allocated()
      ensures fresh(a) && fresh(q) && fresh(c) && fresh(pivotColumn) && fresh(col) && fresh(row)
      ensures fresh(nonzeroRow) && fresh(inequality)
      ensures Blank()
    {
      this.n, this.m, this.eps, this.large := n, m, eps, large;
      n1, n2, n3, jmax := 0, 0, 0, 0;
      a := new real[m + 1, n + 1]((i, j) => 0.0);
      q := new real[m + 1, m + 1]((i, j) => 0.0);
      c := new real[n + 1](i => 0.0);
      pivotColumn := new real[m + 1](i => 0.0);
      col := new int[m + 1](i => 0);
      row := new int[n + 2 * m + 1](i => 0);
      nonzeroRow := new nat[n + 2 * m + 1](i => 0);
      inequality := new Relation[m + 1](i => Equal);
    }

    ghost function TheProblem(): Problem
      reads this`n1, this`n2, this`n3, a, nonzeroRow, inequality
    {
      Problem(m, n, n1, n2, n3, MatrixOf(a), nonzeroRow[..], inequality[..])
    }

    // What holds in every state after prepare().  A row whose artificial variable could not leave
    // the basis has col[i] == -1.
    ghost predicate Sound()
      reads this`n1, this`n2, this`n3, a, q, col, row, nonzeroRow, inequality
    {
      && Allocated() && TheProblem().Prepared() && n3 < row.Length
      && col[0] == 0 && (forall i :: 1 <= i <= m ==> col[i] == -1 || 1 <= col[i] <= n3)
      && View().FirstColumn() && forall j :: 0 <= j <= n3 ==> 0 <= row[j] <= m
    }

    ghost predicate Safe()
      reads this, a, q, col, row, nonzeroRow, inequality
    {
      Sound() && jmax <= n3
    }

    ghost function View(): Dict
      requires Allocated() && TheProblem().Sized() && n3 < row.Length
      reads this`n1, this`n2, this`n3, a, q, col, row, nonzeroRow, inequality
    {
      State(TheProblem(), MatrixOf(q), col[..], row[..n3 + 1])
    }

    // Counts the added columns and chooses the first basis.
    method Prepare()
      requires Allocated()
      requires forall i, j :: 0 <= i <= m && 0 <= j <= m ==> q[i, j] == 0.0
      requires forall i :: 0 <= i < col.Length ==> col[i] == 0
      requires forall j :: 0 <= j < row.Length ==> row[j] == 0
      modifies this`n1, this`n2, this`n3, nonzeroRow, col, row, q
      ensures n3 < row.Length && TheProblem().Prepared() && col[0] == 0 && row[0] == 0
      ensures StartBasis(TheProblem(), col[..], row[..n3 + 1])
      ensures forall i, k :: 0 <= i <= m && 0 <= k <= m ==> q[i, k] == if i == k then 1.0 else 0.0
      ensures n3 == n2 <==> forall i :: 1 <= i <= m ==> inequality[i] == AtMost
    {
      hide Block, Paired, Layout, AtMostRows, Problem.Added, StartBasis;
      AddSurplus();
      AddSlack();
      AddArtificial();
      AllAtMost(inequality[..], m);
      BlocksArePrepared(TheProblem(), col[..], row[..]);
      ghost var pr, cs, rs := TheProblem(), col[..], row[..n3 + 1];
      assert row[..][..n3 + 1] == rs;
      for i: nat := 0 to m + 1
        modifies q
        invariant forall l, k :: 0 <= l <= m && 0 <= k <= m ==> q[l, k] == if l == k && l < i then 1.0 else 0.0
      {
        q[i, i] := 1.0;
      }
      assert TheProblem() == pr && col[..] == cs && row[..n3 + 1] == rs;
    }

    method AddSurplus()
      requires Allocated()
      modifies this`n1, nonzeroRow
      ensures n <= n1 <= n + m && Block(nonzeroRow[..], inequality[..], n, n1, m, Surplus)
    {
      hide Block;
      n1 := n;
      EmptyBlock(nonzeroRow[..], inequality[..], col[..], row[..], n1, Surplus);
      for i: nat := 1 to m + 1
        invariant n <= n1 <= n + i - 1
        invariant Block(nonzeroRow[..], inequality[..], n, n1, i - 1, Surplus)
      {
        ghost var before := nonzeroRow[..];
        if inequality[i] == AtLeast {
          n1 := n1 + 1;
          nonzeroRow[n1] := i;
          BlockAdds(before, inequality[..], n, n1 - 1, i, Surplus);
          assert nonzeroRow[..] == before[n1 := i];
        } else {
          BlockSkips(before, inequality[..], n, n1, i, Surplus);
        }
      }
    }

    // Column j belongs to row i and is its first basic variable.
    method MakeBasic(i: nat, j: nat)
      requires Allocated() && i <= m && j < row.Length
      modifies nonzeroRow, col, row
      ensures nonzeroRow[..] == old(nonzeroRow[..])[j := i]
      ensures col[..] == old(col[..])[i := j] && row[..] == old(row[..])[j := i]
    {
      col[i] := j;
      nonzeroRow[j] := i;
      row[j] := i;
    }

    method AddSlack()
      requires Allocated() && n <= n1 <= n + m && Block(nonzeroRow[..], inequality[..], n, n1, m, Surplus)
      requires col[0] == 0 && forall j :: 0 <= j < row.Length ==> row[..][j] == 0
      modifies this`n2, nonzeroRow, col, row
      ensures n2 == n1 + AtMostRows(inequality[..], m) && n2 < nonzeroRow.Length
      ensures Block(nonzeroRow[..], inequality[..], n, n1, m, Surplus)
      ensures Block(nonzeroRow[..], inequality[..], n1, n2, m, Slack)
      ensures Paired(nonzeroRow[..], inequality[..], col[..], row[..], n1, n2, m, Slack)
      ensures col[0] == 0 && Unused(row[..], n1, n2)
    {
      hide Block, Paired, AtMostRows;
      n2 := n1;
      AtMostRowsSpan(inequality[..], 0, m);
      NoRows(inequality[..]);
      EmptyBlock(nonzeroRow[..], inequality[..], col[..], row[..], n2, Slack);
      for i: nat := 1 to m + 1
        invariant n2 == n1 + AtMostRows(inequality[..], i - 1) <= n1 + i - 1
        invariant Block(nonzeroRow[..], inequality[..], n, n1, m, Surplus)
        invariant Block(nonzeroRow[..], inequality[..], n1, n2, i - 1, Slack)
        invariant Paired(nonzeroRow[..], inequality[..], col[..], row[..], n1, n2, i - 1, Slack)
        invariant col[..][0] == 0 && Unused(row[..], n1, n2)
      {
        ghost var before, colBefore, rowBefore := nonzeroRow[..], col[..], row[..];
        AtMostRowsStep(inequality[..], i);
        if inequality[i] == AtMost {
          n2 := n2 + 1;
          MakeBasic(i, n2);
          BlockStays(before, inequality[..], n, n1, m, Surplus, n2, i);
          BlockAdds(before, inequality[..], n1, n2 - 1, i, Slack);
          PairedAdds(before, inequality[..], colBefore, rowBefore, n1, n2 - 1, i, Slack);
        } else {
          BlockSkips(before, inequality[..], n1, n2, i, Slack);
        }
      }
    }

    method AddArtificial()
      requires Allocated() && n <= n1 <= n + m && n2 == n1 + AtMostRows(inequality[..], m) && n2 < nonzeroRow.Length
      requires Block(nonzeroRow[..], inequality[..], n, n1, m, Surplus)
      requires Block(nonzeroRow[..], inequality[..], n1, n2, m, Slack)
      requires Paired(nonzeroRow[..], inequality[..], col[..], row[..], n1, n2, m, Slack)
      requires col[0] == 0 && Unused(row[..], n1, n2)
      modifies this`n3, nonzeroRow, col, row
      ensures n2 <= n3 == n1 + m && Layout(nonzeroRow[..], inequality[..], col[..], row[..], n, n1, n2, n3, m, m)
    {
      hide Layout, Block, Paired, AtMostRows, Unused;
      n3 := n2;
      AtMostRowsSpan(inequality[..], 0, m);
      NoRows(inequality[..]);
      LayoutStarts(nonzeroRow[..], inequality[..], col[..], row[..], n, n1, n2, m);
      for i: nat := 1 to m + 1
        invariant n2 <= n3 && n3 + AtMostRows(inequality[..], i - 1) == n2 + i - 1
        invariant Layout(nonzeroRow[..], inequality[..], col[..], row[..], n, n1, n2, n3, m, i - 1)
      {
        AtMostRowsStep(inequality[..], i);
        AtMostRowsSpan(inequality[..], i, m);
        if inequality[i] != AtMost {
          LayoutAdds(nonzeroRow[..], inequality[..], col[..], row[..], n, n1, n2, n3, m, i);
          n3 := n3 + 1;
          MakeBasic(i, n3);
        } else {
          LayoutSkips(nonzeroRow[..], inequality[..], col[..], row[..], n, n1, n2, n3, m, i);
        }
      }
    }

    lemma SafeShapes()
      requires Safe()
      ensures Allocated() && TheProblem().Sized() && n3 < row.Length && jmax <= n3
      ensures View().Sized() && View().m == m && View().width == n3 + 1 && View().col == col[..]
      ensures View().row == row[..n3 + 1] && col[0] == 0 && eps >= 0.0
      ensures forall i :: 1 <= i <= m ==> col[i] == -1 || 1 <= col[i] <= n3
      ensures forall j :: 0 <= j <= n3 ==> 0 <= row[j] <= m
    {
    }

    lemma ReadShape()
      requires Safe()
      ensures View().Sized() && View().width > n && View().width == n3 + 1 && RowRange(View())
    {
      hide *;
      SafeShapes();
      WidthIs();
      RowRangeIs(View());
    }

    lemma WidthIs()
      requires Safe()
      ensures n <= n1 <= n2 <= n3
    {
    }

    lemma EntryGiven(i: nat, j: nat) returns (r: Vec, v: Vec)
      requires Safe() && i <= m && j <= n
      ensures |r| == m + 1 && |v| == m + 1 && View().T(i, j) == Dot(r, v, m + 1)
      ensures forall k :: 0 <= k <= m ==> r[k] == q[i, k] && v[k] == a[k, j]
    {
      hide Problem.Added, Dict.T, Dot;
      r, v := MatrixOf(q)[i], Column(MatrixOf(a), m + 1, n + 1, j);
      GivenEntry(TheProblem(), View(), i, j);
    }

    lemma EntryAdded(i: nat, j: nat)
      requires Safe() && i <= m && n < j <= n3
      ensures 1 <= nonzeroRow[j] <= m
      ensures View().T(i, j) == if j <= n1 then -q[i, nonzeroRow[j]]
                                else if j <= n2 || i != 0 then q[i, nonzeroRow[j]]
                                else q[i, nonzeroRow[j]] + 1.0
    {
      hide Problem.Added, Dict.T, Dot;
      AddedEntry(TheProblem(), View(), i, j);
    }

    // Entry (i, j) of the tableau.
    method Entry(i: nat, j: nat) returns (r: real)
      requires Safe() && i <= m && j <= n3
      ensures r == Shown(View(), i, j)
    {
      hide *;
      SafeShapes();
      ShownIs(View(), i, j);
      if col[i] < 0 {
        return 0.0;
      }
      if j <= n {
        ghost var u, v := EntryGiven(i, j);
        DotStarts(u, v);
        r := 0.0;
        for k: nat := 0 to m + 1
          invariant r == Dot(u, v, k)
        {
          DotSteps(u, v, k);
          r := r + q[i, k] * a[k, j];
        }
        return;
      }
      EntryAdded(i, j);
      r := q[i, nonzeroRow[j]];
      if j <= n1 {
        r := -r;
        return;
      }
      if j <= n2 || i != 0 {
        return;
      }
      r := r + 1.0;
    }

    // q[p] := q[p] / u without column 0.
    method DivideRow(p: nat, u: real)
      requires Allocated() && p <= m && u != 0.0
      modifies q
      ensures MatrixOf(q) == old(MatrixOf(q))[p := PivotRow(old(MatrixOf(q))[p], u)]
    {
      ghost var before := MatrixOf(q);
      for j: nat := 1 to m + 1
        invariant forall i, k :: 0 <= i <= m && 0 <= k <= m ==>
          q[i, k] == if i == p && 1 <= k < j then before[i][k] / u else before[i][k]
      {
        q[p, j] := q[p, j] / u;
      }
      ghost var after := MatrixOf(q);
      assert after[p] == PivotRow(before[p], u);
      assert forall i :: 0 <= i <= m && i != p ==> after[i] == before[i];
    }

    // q[i] := q[i] - u * q[p] without column 0.
    method SubtractRow(i: nat, p: nat, u: real)
      requires Allocated() && i <= m && p <= m && i != p
      modifies q
      ensures MatrixOf(q) == old(MatrixOf(q))[i := EliminatedRow(old(MatrixOf(q))[i], old(MatrixOf(q))[p], u)]
    {
      ghost var before := MatrixOf(q);
      ghost var target := EliminatedRow(before[i], before[p], u);
      for j: nat := 1 to m + 1
        invariant forall l, k :: 0 <= l <= m && 0 <= k <= m && l != i ==> q[l, k] == before[l][k]
        invariant forall k :: 0 <= k <= m ==> q[i, k] == if 1 <= k < j then target[k] else before[i][k]
      {
        q[i, j] := q[i, j] - q[p, j] * u;
      }
      ghost var after := MatrixOf(q);
      assert after[i] == target;
      assert forall l :: 0 <= l <= m && l != i ==> after[l] == before[l];
    }

    // Makes variable j basic in row p; pivotColumn holds column j of the tableau.
    method PivotOn(p: nat, j: nat)
      requires Allocated() && 1 <= p <= m && j < row.Length && 0 <= col[p] < row.Length && pivotColumn[p] != 0.0
      modifies q, col, row
      ensures MatrixOf(q) == PivotQ(old(MatrixOf(q)), pivotColumn[..], p)
      ensures col[..] == old(col[..])[p := j]
      ensures row[..] == old(row[..])[old(col[p]) := 0][j := p]
    {
      ghost var before := MatrixOf(q);
      DivideRow(p, pivotColumn[p]);
      ghost var pr := PivotRow(before[p], pivotColumn[p]);
      for i: nat := 0 to m + 1
        modifies q
        invariant |MatrixOf(q)| == m + 1 && MatrixOf(q)[p] == pr
        invariant forall l :: 0 <= l < i && l != p ==> MatrixOf(q)[l] == EliminatedRow(before[l], pr, pivotColumn[l])
        invariant forall l :: i <= l <= m && l != p ==> MatrixOf(q)[l] == before[l]
      {
        if i != p {
          SubtractRow(i, p, pivotColumn[i]);
        }
      }
      assert MatrixOf(q) == PivotQ(before, pivotColumn[..], p);
      row[col[p]] := 0;
      col[p] := j;
      row[j] := p;
    }

    // The first variable up to jmax with a negative reduced cost, or jmax + 1.
    method FindEntering() returns (j: nat)
      requires Safe()
      modifies pivotColumn
      ensures 1 <= j <= jmax + 1 && NoNegativeCost(View(), j - 1, eps)
      ensures j <= jmax ==> row[j] == 0 && pivotColumn[0] == View().T(0, j) < -eps
    {
      hide *;
      SafeShapes();
      ghost var d := View();
      NoCostYet(d, eps);
      j := 1;
      while j <= jmax
        invariant 1 <= j <= jmax + 1 && NoNegativeCost(d, j - 1, eps)
      {
        if row[j] == 0 {
          pivotColumn[0] := Entry(0, j);
          ShownObjective(d, j);
          if pivotColumn[0] < -eps {
            return;
          }
        }
        NextCost(d, j, eps);
        j := j + 1;
      }
    }

    // The row with the smallest ratio below large, or 0.
    method RatioTest(j: nat) returns (p: nat, ghost u: real)
      requires Safe() && 1 <= j <= n3 && pivotColumn[0] == View().T(0, j)
      modifies pivotColumn
      ensures p <= m && IsColumn(View(), pivotColumn[..], j, m + 1)
      ensures Best(View(), pivotColumn[..], m + 1, p, u, eps, large)
    {
      hide *;
      SafeShapes();
      ghost var d := View();
      var best := large;
      p := 0;
      ColumnStarts(d, pivotColumn[..], j);
      BestStarts(d, pivotColumn[..], eps, large);
      for i: nat := 1 to m + 1
        invariant p < i && IsColumn(d, pivotColumn[..], j, i) && Best(d, pivotColumn[..], i, p, best, eps, large)
      {
        ghost var before := pivotColumn[..];
        pivotColumn[i] := Entry(i, j);
        assert pivotColumn[..] == before[i := pivotColumn[i]];
        ColumnGrows(d, before, j, i, pivotColumn[i]);
        BestStays(d, before, i, p, best, eps, large, pivotColumn[i]);
        if pivotColumn[i] > eps {
          var t := Entry(i, 0);
          t := t / pivotColumn[i];
          BestGrows(d, pivotColumn[..], i, p, best, eps, large, t);
          if t < best {
            p, best := i, t;
          }
        } else {
          BestSkips(d, pivotColumn[..], i, p, best, eps, large);
        }
      }
      u := best;
    }

    // One pivot from a safe state.
    method Step(p: nat, j: nat)
      requires Safe() && 1 <= p <= m && 1 <= j <= n3 && pivotColumn[p] != 0.0 && col[p] >= 0
      modifies q, col, row
      ensures Safe() && TheProblem() == old(TheProblem())
      ensures IsStep(old(View()), View(), pivotColumn[..], p, j)
    {
      hide *;
      SafeShapes();
      SafeColumn();
      ViewIs();
      ghost var d, row0 := View(), row[..];
      PivotOn(p, j);
      assert row[..n3 + 1] == row0[..n3 + 1][d.col[p] := 0][j := p];
      ViewIs();
      StillSafe(d, pivotColumn[..], p, j);
      StepIs(d, View(), pivotColumn[..], p, j);
    }

    lemma StillSafe(d: Dict, pc: Vec, p: nat, j: nat)
      requires Allocated() && TheProblem().Prepared() && n3 < row.Length && jmax <= n3 && View().Sized()
      requires d.Sized() && d.m == m && d.width == n3 + 1 && d.FirstColumn() && |pc| == m + 1
      requires 1 <= p <= m && 1 <= j <= n3 && 0 <= d.col[p] <= n3 && pc[p] != 0.0
      requires d.col[0] == 0 && forall i :: 1 <= i <= m ==> d.col[i] == -1 || 1 <= d.col[i] <= n3
      requires forall l :: 0 <= l <= n3 ==> 0 <= d.row[l] <= m
      requires MatrixOf(q) == PivotQ(d.q, pc, p) && col[..] == d.col[p := j]
      requires row[..n3 + 1] == d.row[d.col[p] := 0][j := p]
      ensures Safe()
    {
      hide Problem.Added, Problem.Extended, Problem.Entry;
      ghost var rows := row[..n3 + 1];
      assert forall l :: 0 <= l <= n3 ==> row[l] == rows[l] && 0 <= rows[l] <= m;
      assert col[..][0] == 0 && forall i :: 1 <= i <= m ==> col[..][i] == -1 || 1 <= col[..][i] <= n3;
    }

    // No row shows an artificial variable.
    ghost predicate NoArtificial()
      requires Allocated()
      reads this`n2, col
    {
      UpTo(col[..], n2)
    }

    // Pivots until no reduced cost is negative (Optimal) or no row bounds the entering variable.  d is
    // the state of the problem without the constraints gone, which start has at the beginning.
    method Minimize(fuel: nat, ghost gone: set<nat>, ghost start: Dict)
      returns (s: Status, ghost entering: nat, ghost d: Dict)
      requires Safe() && Shadows(TheProblem(), gone, start, View()) && start.Valid() && (jmax <= n2 || gone == {})
      modifies q, col, row, pivotColumn
      ensures Safe() && TheProblem() == old(TheProblem())
      ensures Shadows(TheProblem(), gone, d, View()) && Advanced(start, d, jmax, eps)
      ensures jmax <= n2 && old(NoArtificial()) ==> NoArtificial()
      ensures s == Optimal ==> NoNegativeCost(d, jmax, eps)
      ensures s == Unbounded ==>
        1 <= entering <= jmax && entering < d.width && d.row[entering] == 0 && Escapes(d, entering, eps, large)
      ensures PathEnds(start, fuel, d, jmax, large, eps, s == Optimal, s == Unbounded, entering)
    {
      hide *;
      SafeShapes();
      ViewIs();
      ghost var pr := TheProblem();
      FollowsFirst(pr, gone, start, fuel, View(), jmax, large, eps);
      entering, d := 0, start;
      for turn: nat := 0 to fuel
        invariant Safe() && TheProblem() == pr
        invariant Follows(pr, gone, start, fuel, d, fuel - turn, View(), jmax, large, eps)
        invariant jmax <= n2 && old(NoArtificial()) ==> NoArtificial()
      {
        SafeShapes();
        ghost var v := View();
        NoArtificialIs();
        FollowsIs(pr, gone, start, fuel, d, fuel - turn, v, jmax, large, eps);
        var j, p, u := ChoosePivot();
        if j > jmax {
          FollowsToEnd(pr, gone, start, fuel, d, fuel - turn, v, jmax, large, eps, true);
          return Optimal, 0, d;
        }
        ghost var pc := pivotColumn[..];
        if p == 0 {
          FollowsUntilStuck(pr, gone, start, fuel, d, fuel - turn, v, pc, j, u, jmax, large, eps);
          return Unbounded, j, d;
        }
        BestRow(v, pc, j, p, u, eps, large);
        Step(p, j);
        SafeShapes();
        SafeColumn();
        NoArtificialIs();
        if UpTo(v.col, n2) && j <= n2 {
          StepKeepsUpTo(v, View(), pc, p, j, n2);
        }
        d := FollowsStep(pr, gone, start, fuel, d, fuel - turn, v, View(), pc, j, p, u, jmax, large, eps);
      }
      SafeShapes();
      FollowsIs(pr, gone, start, fuel, d, 0, View(), jmax, large, eps);
      FollowsToEnd(pr, gone, start, fuel, d, 0, View(), jmax, large, eps, false);
      return OutOfFuel, 0, d;
    }

    // The entering variable and the row that leaves.
    method ChoosePivot() returns (j: nat, p: nat, ghost u: real)
      requires Safe()
      modifies pivotColumn
      ensures 1 <= j <= jmax + 1 && NoNegativeCost(View(), j - 1, eps) && p <= m
      ensures j <= jmax ==> row[j] == 0 && View().T(0, j) < -eps && IsColumn(View(), pivotColumn[..], j, m + 1)
      ensures j <= jmax ==> Best(View(), pivotColumn[..], m + 1, p, u, eps, large)
    {
      hide *;
      SafeShapes();
      p, u := 0, 0.0;
      j := FindEntering();
      if j <= jmax {
        p, u := RatioTest(j);
      }
    }

    lemma SafeColumn()
      requires Safe()
      ensures View().FirstColumn() && TheProblem().Prepared()
      ensures |MatrixOf(q)| == m + 1 && forall i :: 0 <= i <= m ==> |MatrixOf(q)[i]| == m + 1
      ensures MatrixOf(q)[0][0] == 1.0 && forall i :: 1 <= i <= m ==> MatrixOf(q)[i][0] == 0.0
    {
    }

    lemma ViewIs()
      requires Allocated() && TheProblem().Sized() && n3 < row.Length
      ensures TheProblem().m == m && TheProblem().n == n && TheProblem().n2 == n2 && TheProblem().n3 == n3
      ensures View() == Dict(m, n3 + 1, TheProblem().Extended(), MatrixOf(q), col[..], row[..n3 + 1]) && View().Sized()
      ensures col != row && col.Length == m + 1
    {
    }

    // ---------------------------------------------------------------- phase 1

    lemma StartRange()
      requires Allocated() && TheProblem().Sized() && n3 < row.Length
      requires StartBasis(TheProblem(), col[..], row[..n3 + 1]) && row[0] == 0
      ensures forall j :: 0 <= j <= n3 ==> 0 <= row[j] <= m
      ensures forall i :: 1 <= i <= m ==> 1 <= col[i] <= n3
      ensures TheProblem().m == m && TheProblem().n == n && TheProblem().n3 == n3
    {
      hide Problem.Added;
      assert forall j :: 0 <= j <= n3 ==> row[..n3 + 1][j] == row[j];
      assert forall i :: 1 <= i <= m ==> 1 <= col[..][i] <= n3;
    }

    lemma SoundFrom()
      requires Allocated() && TheProblem().Prepared() && n3 < row.Length && jmax <= n3 && col[0] == 0
      requires forall i :: 1 <= i <= m ==> 1 <= col[i] <= n3
      requires forall j :: 0 <= j <= n3 ==> 0 <= row[j] <= m
      requires TheProblem().Sized() && View().Valid()
      ensures Safe()
    {
      hide Problem.Added, Problem.Extended, Dict.Nonsingular, Dict.UnitColumns, Dict.Inverse;
    }

    lemma RightHandSides()
      requires Allocated() && forall i :: 1 <= i <= m ==> a[i, 0] >= 0.0
      ensures forall i :: 1 <= i <= m ==> TheProblem().a[i][0] >= 0.0
    {
    }

    // The invariant of the pivots holds at the start of phase 1.
    lemma StartIsSafe()
      requires Allocated() && TheProblem().Prepared() && n3 < row.Length && jmax <= n3 && col[0] == 0 && row[0] == 0
      requires StartBasis(TheProblem(), col[..], row[..n3 + 1])
      requires StartMatrix(TheProblem(), MatrixOf(q), col[..])
      requires forall i :: 1 <= i <= m ==> a[i, 0] >= 0.0
      ensures Safe() && View().Valid() && View().Feasible()
    {
      hide *;
      PreparedIs(TheProblem());
      StartRange();
      RightHandSides();
      ViewIsState();
      StartIsValid(TheProblem(), MatrixOf(q), col[..], row[..n3 + 1]);
      StartIsFeasible(TheProblem(), MatrixOf(q), col[..], row[..n3 + 1]);
      SoundFrom();
    }

    lemma StartIsShadow()
      requires Allocated() && TheProblem().Prepared() && n3 < row.Length && col[0] == 0 && row[0] == 0
      requires StartBasis(TheProblem(), col[..], row[..n3 + 1])
      requires StartMatrix(TheProblem(), MatrixOf(q), col[..]) && View().Valid()
      ensures Started(TheProblem(), View()) && Shadows(TheProblem(), {}, View(), View())
    {
      hide Dict.T, Problem.Added, Problem.Extended, StartMatrix, Dict.Nonsingular, Dict.UnitColumns, Dict.Inverse;
      ShadowsItself(TheProblem(), View());
    }

    lemma PreparedIs(pr: Problem)
      requires pr.Prepared()
      ensures pr.Sized() && pr.Added()
    {
    }

    // Every artificial variable costs 1.
    method MarkArtificials()
      requires Allocated() && TheProblem().Prepared() && n3 < row.Length && col[0] == 0
      requires forall i, k :: 0 <= i <= m && 0 <= k <= m ==> q[i, k] == if i == k then 1.0 else 0.0
      modifies q
      ensures StartMatrix(TheProblem(), MatrixOf(q), col[..])
    {
      hide Problem.Added;
      for i: nat := 0 to m + 1
        invariant forall l, k :: 0 <= l <= m && 0 <= k <= m ==>
          q[l, k] == if l == k then 1.0 else if l == 0 && k < i && col[k] > n2 then -1.0 else 0.0
      {
        if col[i] > n2 {
          q[0, i] := -1.0;
        }
      }
      assert forall l, k :: 0 <= l <= m && 0 <= k <= m ==> MatrixOf(q)[l][k] == StartEntry(TheProblem(), col[..], l, k);
    }

    // Rows whose artificial variable is still basic are given up.
    method DropLeftover(ghost start: Dict) returns (ghost gone: set<nat>, ghost d: Dict)
      requires Allocated() && TheProblem().Prepared() && n3 < row.Length && col[0] == 0
      requires start == View() && start.Valid()
      modifies col
      ensures col[0] == 0 && forall i :: 1 <= i <= m ==> col[i] == if old(col[i]) > n2 then -1 else old(col[i])
      ensures TheProblem() == old(TheProblem()) && Leaves(TheProblem(), gone, d, View())
      ensures GivenUp(TheProblem(), start.col, m, gone) && (start.Feasible() ==> d.Feasible())
      ensures d.col == start.col && d.row == start.row
    {
      hide *;
      PreparedIs(TheProblem());
      ViewIs();
      ViewIsState();
      ghost var pr := TheProblem();
      ValidColumns(start);
      LeavesStarts(pr, start);
      LeavesShape(pr, {}, start, start);
      NoneGivenUp(pr, start.col);
      gone, d := {}, start;
      for i: nat := 1 to m + 1
        invariant TheProblem() == pr && col[0] == 0
        invariant forall k :: 1 <= k < i ==> col[k] == if start.col[k] > n2 then -1 else start.col[k]
        invariant forall k :: i <= k <= m ==> col[k] == start.col[k]
        invariant Leaves(pr, gone, d, View()) && GivenUp(pr, start.col, i - 1, gone)
        invariant d.col == start.col && d.row == start.row
        invariant d.Sized() && (start.Feasible() ==> d.Feasible())
      {
        ViewIs();
        LeavesShape(pr, gone, d, View());
        ghost var v, before := View(), col[..];
        OneGivenUp(pr, start.col, i, gone);
        if col[i] > n2 {
          GiveUpKeeps(pr, gone, d, v, i);
          gone, d := gone + {pr.nz[d.col[i]]}, GaveUp(pr, gone, d, i);
          col[i] := -1;
          assert col[..] == before[i := -1];
          ViewIs();
          assert View() == v.(col := v.col[i := -1]);
        }
      }
    }

    lemma ValidColumns(d: Dict)
      requires Allocated() && d.Valid() && d.m == m && d.width == n3 + 1 && d.col == col[..]
      ensures |d.col| == m + 1 && forall i :: 1 <= i <= m ==> 1 <= d.col[i] <= n3 && d.col[i] == col[i]
    {
      hide Dict.T, Dict.Nonsingular, Dict.UnitColumns;
    }

    // Row 0 of q becomes the unit vector.
    method ClearObjective()
      requires Allocated()
      modifies q
      ensures MatrixOf(q)[0][0] == 1.0 && forall k :: 1 <= k <= m ==> MatrixOf(q)[0][k] == 0.0
      ensures forall i :: 1 <= i <= m ==> MatrixOf(q)[i] == old(MatrixOf(q)[i])
    {
      ghost var before := MatrixOf(q);
      q[0, 0] := 1.0;
      for j: nat := 1 to m + 1
        invariant q[0, 0] == 1.0 && forall k :: 1 <= k < j ==> q[0, k] == 0.0
        invariant forall i, k :: 1 <= i <= m && 0 <= k <= m ==> q[i, k] == before[i][k]
      {
        q[0, j] := 0.0;
      }
    }

    // The state with the costs c in the objective row, where phase 2 puts them.
    ghost function Costed(): Dict
      requires Allocated() && TheProblem().Sized() && n3 < row.Length
      reads this`n1, this`n2, this`n3, a, q, c, col, row, nonzeroRow, inequality
    {
      State(WithCost(TheProblem(), c[..]), MatrixOf(q), col[..], row[..n3 + 1])
    }

    // The cost of a basic variable, as the objective row of phase 2 has it.
    lemma CostOf(i: nat, gone: set<nat>, d: Dict)
      requires Allocated() && TheProblem().Sized() && n3 < row.Length && 1 <= i <= m && NoArtificial()
      requires Shadows(CostedProblem(), gone, d, Costed()) && d.Sized() && d.m == m && d.col[i] >= 1
      ensures |d.col| == |d.q| == m + 1 && |d.a| == m + 1 && |d.a[0]| == n3 + 1 && |d.q[0]| == |d.q[i]| == m + 1
      ensures col[i] < 0 ==> d.col[i] > n2
      ensures col[i] >= 0 ==> d.col[i] == col[i] && d.q[i] == MatrixOf(q)[i] && 1 <= d.col[i] <= n2
      ensures col[i] >= 0 ==> d.a[0][d.col[i]] == if col[i] <= n then c[col[i]] else 0.0
    {
      hide Dict.T, Problem.Added;
      assert RowMatches(CostedProblem(), gone, d, Costed(), i);
    }

    // Row 0 and column 0 after the objective row has been cleared.
    lemma ClearedColumn(before: seq<Vec>)
      requires Allocated() && TheProblem().Sized() && n3 < row.Length && |before| == m + 1
      requires MatrixOf(q)[0][0] == 1.0 && forall k :: 1 <= k <= m ==> MatrixOf(q)[0][k] == 0.0
      requires forall i :: 1 <= i <= m ==> MatrixOf(q)[i] == before[i]
      requires forall i :: 1 <= i <= m ==> |before[i]| == m + 1 && before[i][0] == 0.0
      ensures Costed().Sized() && Costed().FirstColumn() && Costed().q[0] == FirstPrices({}, m + 1)
      ensures CostedProblem().Sized()
    {
    }

    lemma CostedIs()
      requires Allocated() && TheProblem().Sized() && n3 < row.Length
      ensures Costed() == Dict(m, n3 + 1, WithCost(TheProblem(), c[..]).Extended(), MatrixOf(q), col[..], row[..n3 + 1])
      ensures Costed().Sized()
    {
    }

    ghost function CostedProblem(): Problem
      requires Allocated() && TheProblem().Sized()
      reads this`n1, this`n2, this`n3, a, c, nonzeroRow, inequality
    {
      WithCost(TheProblem(), c[..])
    }

    // Eliminates the costs of the basic variables from row 0.
    method PriceRows(ghost gone: set<nat>, ghost start: Dict) returns (ghost d: Dict)
      requires Allocated() && TheProblem().Sized() && n3 < row.Length && NoArtificial()
      requires Shadows(CostedProblem(), gone, start, Costed()) && Priced(start, 0, n2)
      modifies q
      ensures MatrixOf(q)[0][0] == old(MatrixOf(q)[0][0])
      ensures forall i :: 1 <= i <= m ==> MatrixOf(q)[i] == old(MatrixOf(q)[i])
      ensures Shadows(CostedProblem(), gone, d, Costed()) && Priced(d, m, n2)
      ensures d.col == start.col && d.row == start.row && (start.Feasible() ==> d.Feasible())
    {
      hide *;
      CostedIs();
      RowsAre();
      ghost var pr, before := TheProblem(), MatrixOf(q);
      ShadowsShape(CostedProblem(), gone, start, Costed());
      d := start;
      for i: nat := 1 to m + 1
        invariant TheProblem() == pr
        invariant |MatrixOf(q)| == m + 1 && forall k :: 0 <= k <= m ==> |MatrixOf(q)[k]| == m + 1
        invariant MatrixOf(q)[0][0] == before[0][0]
        invariant forall l :: 1 <= l <= m ==> MatrixOf(q)[l] == before[l]
        invariant Shadows(CostedProblem(), gone, d, Costed()) && Priced(d, i - 1, n2)
        invariant d.col == start.col && d.row == start.row
        invariant d.Sized() && (start.Feasible() ==> d.Feasible())
      {
        CostedIs();
        ghost var v, r := Costed(), MatrixOf(q);
        ShadowsShape(CostedProblem(), gone, d, v);
        PricedColumn(d, i - 1, n2, i);
        CostOf(i, gone, d);
        if col[i] > 0 && col[i] <= n && c[col[i]] != 0.0 {
          var u := c[col[i]];
          RepriceShape(r[0], r[i], u);
          SubtractRow(0, i, u);
          RowsAre();
          CostedIs();
          assert Costed() == v.(q := r[0 := EliminatedRow(r[0], r[i], u)]);
          RepriceMatches(CostedProblem(), gone, d, v, i, u);
          RepricedShape(d, i, u);
          RepriceIs(d, i, u, d.(q := d.q[0 := EliminatedRow(d.q[0], d.q[i], u)]));
          PricedStep(d, i, n2);
          d := Reprice(d, i);
        } else {
          PricedSkip(d, i, n2);
        }
      }
    }

    lemma NoArtificialIs()
      requires Allocated()
      ensures NoArtificial() <==> UpTo(col[..], n2)
    {
    }

    lemma ColumnsUpTo()
      requires Allocated() && NoArtificial()
      ensures forall i :: 1 <= i <= m ==> col[i] <= n2
    {
      assert forall i :: 1 <= i <= m ==> col[..][i] <= n2;
    }

    lemma RowsAre()
      requires Allocated()
      ensures a != q && c.Length == n + 1 && col.Length == m + 1
      ensures |MatrixOf(q)| == m + 1 && forall i :: 0 <= i <= m ==> |MatrixOf(q)[i]| == m + 1
    {
    }

    // Replaces the objective row of q after phase 1.
    method ReplaceObjective(ghost gone: set<nat>, ghost start: Dict) returns (ghost d: Dict)
      requires Safe() && NoArtificial() && Leaves(TheProblem(), gone, start, View())
      modifies q
      ensures Safe() && Shadows(CostedProblem(), gone, d, Costed()) && d.Valid()
      ensures d.col == start.col && d.row == start.row && (start.Feasible() ==> d.Feasible())
    {
      hide *;
      SafeShapes();
      SafeColumn();
      RowsAre();
      ViewIs();
      ColumnsUpTo();
      ghost var v, pr, before := View(), TheProblem(), MatrixOf(q);
      ClearObjective();
      RowsAre();
      CostedIs();
      CostedIsState();
      CostedProblemIs();
      assert TheProblem() == pr;
      ClearedColumn(before);
      LeavesShape(pr, gone, start, v);
      PricingStarts(pr, gone, start, v, c[..], Costed());
      d := PriceRows(gone, Repriced(pr, gone, start, c[..]));
      CostedProblemIs();
      ShadowsShape(CostedProblem(), gone, d, Costed());
      PricedIsValid(d, n2);
      RowsAre();
      SafeAgain();
    }

    lemma SafeAgain()
      requires forall j :: 0 <= j <= n3 && j < row.Length ==> 0 <= row[j] <= m
      requires Allocated() && TheProblem().Prepared() && n3 < row.Length && jmax <= n3 && col[0] == 0
      requires forall i :: 1 <= i <= m ==> col[i] == -1 || 1 <= col[i] <= n3
      requires MatrixOf(q)[0][0] == 1.0 && forall i :: 1 <= i <= m ==> MatrixOf(q)[i][0] == 0.0
      ensures Safe()
    {
    }

    // What init(), the loading of the matrix and prepare() leave behind.
    ghost predicate Ready()
      reads this, a, q, col, row, nonzeroRow, inequality
    {
      && Allocated() && TheProblem().Prepared() && n3 < row.Length && jmax <= n3 && col[0] == 0 && row[0] == 0
      && StartBasis(TheProblem(), col[..], row[..n3 + 1])
      && (forall i, k :: 0 <= i <= m && 0 <= k <= m ==> q[i, k] == if i == k then 1.0 else 0.0)
      && (forall j :: 0 <= j <= n ==> a[0, j] == 0.0) && (forall i :: 1 <= i <= m ==> a[i, 0] >= 0.0)
    }

    // The arrays as allocated.
    ghost predicate Blank()
      reads this`jmax, a, q, col, row
    {
      && Allocated() && jmax == 0 && (forall i, j :: 0 <= i <= m && 0 <= j <= n ==> a[i, j] == 0.0)
      && (forall i, j :: 0 <= i <= m && 0 <= j <= m ==> q[i, j] == 0.0)
      && (forall i :: 0 <= i < col.Length ==> col[i] == 0) && forall j :: 0 <= j < row.Length ==> row[j] == 0
    }

    // The state in which the two phases start.
    method SetUp(rows: seq<Vec>, rels: seq<Relation>, cost: Vec)
      requires Blank() && |rows| == |rels| == m && |cost| == n >= 1 && forall i :: 0 <= i < m ==> |rows[i]| == n
      modifies this`n1, this`n2, this`n3, a, c, q, col, row, nonzeroRow, inequality
      ensures Ready() && c[..] == Widened(cost, cost[0])
      ensures TheProblem().Sized() && Loaded(TheProblem(), rows, rels, n - 1)
    {
      hide Problem.Added, LoadedRow, LoadedRelation, Widened, StartBasis;
      Load(rows, rels, cost);
      NotNegative(rows, rels);
      Prepare();
      LoadedIs(this, rows, rels);
    }

    lemma NotNegative(rows: seq<Vec>, rels: seq<Relation>)
      requires Allocated() && |rows| == |rels| == m && n >= 1
      requires forall i :: 0 <= i < m ==> |rows[i]| == n && IsLoaded(i, rows[i], rels[i])
      ensures forall i :: 1 <= i <= m ==> a[i, 0] >= 0.0
    {
      hide LoadedRow, LoadedRelation;
      forall i | 1 <= i <= m
        ensures a[i, 0] >= 0.0
      {
        assert IsLoaded(i - 1, rows[i - 1], rels[i - 1]);
      }
    }

    lemma ReadyIs()
      requires Ready()
      ensures Allocated() && TheProblem().Prepared() && TheProblem().Sized() && NoCost(TheProblem())
      ensures n3 < row.Length && col[0] == 0 && row[0] == 0 && eps >= 0.0
      ensures StartBasis(TheProblem(), col[..], row[..n3 + 1])
      ensures forall i, k :: 0 <= i <= m && 0 <= k <= m ==> q[i, k] == if i == k then 1.0 else 0.0
      ensures forall i :: 1 <= i <= m ==> a[i, 0] >= 0.0
    {
    }

    lemma ViewIsState()
      requires Allocated() && TheProblem().Sized() && n3 < row.Length
      ensures View() == State(TheProblem(), MatrixOf(q), col[..], row[..n3 + 1])
    {
    }

    // Minimizes the sum of the artificial variables.  The source ignores how minimize() ended; s
    // says it here, and gone are the constraints it gives up.
    method Phase1(fuel: nat) returns (feasible: bool, s: Status, ghost gone: set<nat>, ghost d: Dict)
      requires Ready()
      modifies this`jmax, q, col, row, pivotColumn
      ensures TheProblem() == old(TheProblem()) && jmax == n3 && Safe()
      ensures PhaseOneStops(TheProblem(), large, eps, fuel, Done) <==> s == Optimal
      ensures PhaseOneStops(TheProblem(), large, eps, fuel, Going) <==> s == OutOfFuel
      ensures feasible <==> !PhaseOneRejects(TheProblem(), large, eps, fuel)
      ensures s == Optimal && !feasible ==> FarAway(TheProblem(), eps)
      ensures feasible ==> PhaseOneGivesUp(TheProblem(), large, eps, fuel, gone)
      ensures eps == 0.0 && feasible ==> Satisfiable(TheProblem())
      ensures eps == 0.0 && s == Optimal ==> (feasible <==> Satisfiable(TheProblem()))
      ensures eps == 0.0 ==> (s == Unbounded <==> !PhaseOneShort(TheProblem(), large, eps, fuel))
      ensures eps == 0.0 && large > 0.0 && s == Unbounded ==> !feasible
      ensures feasible ==> NoArtificial() && Shadows(CostedProblem(), gone, d, Costed()) && d.Valid()
      ensures feasible ==> PhaseTwoStart(TheProblem(), c[..], gone, large, eps, fuel, d)
      ensures feasible && eps == 0.0 ==> d.Feasible()
    {
      hide *;
      ReadyIs();
      RowsAre();
      ghost var pr := TheProblem();
      jmax := n3;
      assert TheProblem() == pr;
      MarkArtificials();
      assert TheProblem() == pr;
      StartIsSafe();
      SafeShapes();
      StartIsShadow();
      ghost var start := View();
      ghost var entering;
      s, entering, d := Minimize(fuel, {}, start);
      SafeShapes();
      ViewIs();
      ViewIsState();
      NothingGone(pr, d, View());
      AdvancedKeeps(start, d, n3, eps);
      var u := Entry(0, 0);
      ShownObjective(View(), 0);
      PhaseOneEnds(pr, start, d, large, eps, fuel, s == Optimal, s == Unbounded, entering);
      if eps == 0.0 {
        PhaseOneVerdict(pr, start, d, large, fuel, s == Optimal, s == Unbounded, entering);
      }
      feasible := !(u < -eps);
      gone := {};
      if feasible {
        ghost var end := d;
        gone, d := Phase1Ends(end);
        PhaseOneGivesUpIs(pr, start, large, eps, fuel, end, gone, s == Optimal, s == Unbounded, entering);
        ShadowsShape(CostedProblem(), gone, d, Costed());
        CostedProblemIs();
        PhaseTwoStarts(pr, c[..], gone, large, eps, fuel, start, end, s == Optimal, s == Unbounded, entering, d);
      } else if s == Optimal {
        RejectedIsFar(pr, d, eps);
      }
    }

    // Gives up the rows of leftover artificial variables and replaces the objective row.
    method Phase1Ends(ghost start: Dict) returns (ghost gone: set<nat>, ghost d: Dict)
      requires Safe() && start == View() && start.Valid()
      modifies q, col
      ensures Safe() && TheProblem() == old(TheProblem()) && NoArtificial() && GivenUp(TheProblem(), start.col, m, gone)
      ensures Shadows(CostedProblem(), gone, d, Costed()) && d.Valid() && (start.Feasible() ==> d.Feasible())
      ensures d.col == start.col && d.row == start.row
    {
      hide *;
      SafeShapes();
      SafeColumn();
      ViewIs();
      ghost var pr, e := TheProblem(), start;
      gone, e := DropLeftover(start);
      assert TheProblem() == pr;
      SafeAgain();
      ArtificialsGone();
      d := ReplaceObjective(gone, e);
      assert TheProblem() == pr;
    }

    lemma ArtificialsGone()
      requires Allocated() && forall i :: 1 <= i <= m ==> col[i] == -1 || col[i] <= n2
      ensures NoArtificial()
    {
    }

    // ---------------------------------------------------------------- phase 2

    // The given costs become the objective row.
    method SetCosts()
      requires Allocated()
      modifies a
      ensures MatrixOf(a) == old(MatrixOf(a))[0 := c[..]]
    {
      ghost var before := MatrixOf(a);
      for j: nat := 0 to n + 1
        invariant forall k :: 0 <= k < j ==> a[0, k] == c[k]
        invariant forall i, k :: 1 <= i <= m && 0 <= k <= n ==> a[i, k] == before[i][k]
      {
        a[0, j] := c[j];
      }
      ghost var after := MatrixOf(a);
      assert after[0] == c[..];
      assert forall i :: 1 <= i <= m ==> after[i] == before[i];
    }

    lemma CostsAreSet(pr: Problem, d: Dict)
      requires Allocated() && pr.Prepared() && n3 < row.Length && pr.m == m && pr.n == n
      requires pr == Problem(m, n, n1, n2, n3, pr.a, nonzeroRow[..], inequality[..]) && MatrixOf(a) == pr.a[0 := c[..]]
      requires d == State(WithCost(pr, c[..]), MatrixOf(q), col[..], row[..n3 + 1]) && d.FirstColumn()
      requires col[0] == 0 && forall i :: 1 <= i <= m ==> col[i] == -1 || 1 <= col[i] <= n3
      requires forall j :: 0 <= j <= n3 ==> 0 <= row[j] <= m
      ensures Sound() && TheProblem() == WithCost(pr, c[..]) && View() == d
    {
      hide Problem.Added, Problem.Extended;
      CostKeepsAdded(pr, c[..]);
    }

    lemma ProblemIs()
      requires Allocated()
      ensures TheProblem() == Problem(m, n, n1, n2, n3, MatrixOf(a), nonzeroRow[..], inequality[..])
      ensures a != q && c.Length == n + 1
    {
    }

    lemma CostedIsState()
      requires Allocated() && TheProblem().Sized() && n3 < row.Length
      ensures Costed() == State(WithCost(TheProblem(), c[..]), MatrixOf(q), col[..], row[..n3 + 1])
    {
    }

    // Puts the costs into the objective row and leaves out the artificial variables.
    method EnterPhase2()
      requires Safe()
      modifies this`jmax, a
      ensures Safe() && TheProblem() == WithCost(old(TheProblem()), c[..]) && View() == old(Costed()) && jmax == n2
    {
      hide *;
      SafeShapes();
      SafeColumn();
      ProblemIs();
      CostedIsState();
      ghost var d, pr := Costed(), TheProblem();
      CostedColumn();
      BlocksInOrder(pr);
      SetCosts();
      CostsAreSet(pr, d);
      jmax := n2;
      SafeIs();
    }

    lemma CostedColumn()
      requires Safe()
      ensures Costed().Sized() && Costed().FirstColumn()
    {
      hide Problem.Added, Problem.Extended;
      SafeColumn();
      CostedIs();
    }

    // Minimizes the given costs without the artificial variables.
    method Phase2(fuel: nat, ghost gone: set<nat>, ghost start: Dict)
      returns (s: Status, ghost entering: nat, ghost d: Dict)
      requires Safe() && NoArtificial() && Shadows(CostedProblem(), gone, start, Costed()) && start.Valid()
      modifies this`jmax, a, q, col, row, pivotColumn
      ensures Safe() && TheProblem() == old(CostedProblem()) && NoArtificial()
      ensures Shadows(TheProblem(), gone, d, View()) && Advanced(start, d, n2, eps)
      ensures s == Optimal ==> NoNegativeCost(d, n2, eps)
      ensures s == Unbounded ==>
        1 <= entering <= n2 && entering < d.width && d.row[entering] == 0 && Escapes(d, entering, eps, large)
      ensures PathEnds(start, fuel, d, n2, large, eps, s == Optimal, s == Unbounded, entering)
    {
      hide *;
      SafeShapes();
      CostedProblemIs();
      EnterPhase2();
      SafeShapes();
      s, entering, d := Minimize(fuel, gone, start);
    }

    lemma CostedProblemIs()
      requires Allocated() && TheProblem().Sized()
      ensures CostedProblem() == WithCost(TheProblem(), c[..]) && CostedProblem().m == m
    {
    }

    lemma SafeIs()
      requires Sound() && jmax <= n3
      ensures Safe()
    {
    }

    lemma BlocksInOrder(pr: Problem)
      requires pr.Sized() && pr == Problem(m, n, n1, n2, n3, pr.a, pr.nz, pr.rel)
      ensures n <= n1 <= n2 <= n3 && pr.Prepared() == pr.Added()
    {
    }

    // ---------------------------------------------------------------- solve_fr()

    // Without = and >= rows phase 1 is skipped: its point satisfies the rows, and nothing is given up.
    lemma StartIsClean(fuel: nat)
      requires Ready() && n3 == n2 && jmax <= n3
      ensures Safe() && NoArtificial() && Satisfiable(TheProblem()) && PhaseOneShort(TheProblem(), large, eps, fuel)
      ensures !PhaseOneRejects(TheProblem(), large, eps, fuel) && PhaseOneGivesUp(TheProblem(), large, eps, fuel, {})
      ensures Shadows(CostedProblem(), {}, Costed(), Costed()) && Costed().Valid() && Costed().Feasible()
      ensures PhaseOneStops(TheProblem(), large, eps, fuel, Going) <==> fuel == 0
      ensures PhaseTwoStart(TheProblem(), c[..], {}, large, eps, fuel, Costed())
    {
      hide *;
      ReadyIs();
      PreparedIs(TheProblem());
      ProblemIs();
      StartRange();
      IsStart(TheProblem());
      StartIsSafe();
      CostedIsState();
      CostedProblemIs();
      RightHandSides();
      var pr := WithCost(TheProblem(), c[..]);
      StartWithCost(TheProblem(), c[..], MatrixOf(q), col[..], row[..n3 + 1]);
      StartIsValid(pr, MatrixOf(q), col[..], row[..n3 + 1]);
      StartIsFeasible(pr, MatrixOf(q), col[..], row[..n3 + 1]);
      ViewIsState();
      StartSatisfies(TheProblem(), MatrixOf(q), col[..], row[..n3 + 1]);
      NoArtificialStays(TheProblem(), large, eps, fuel);
      CleanStart(pr);
      CleanPath(pr, fuel);
    }

    lemma CleanStart(pr: Problem)
      requires Allocated() && TheProblem().Prepared() && n3 < row.Length && n3 == n2 && col[0] == 0
      requires pr == WithCost(TheProblem(), c[..]) && Costed().Valid()
      requires forall i :: 1 <= i <= m ==> 1 <= col[i] <= n3
      ensures NoArtificial() && Shadows(CostedProblem(), {}, Costed(), Costed())
    {
      hide Dict.T, Problem.Added, Problem.Extended, Dict.Nonsingular, Dict.UnitColumns, Dict.Inverse;
      CostKeepsAdded(TheProblem(), c[..]);
      ShadowsItself(pr, Costed());
    }

    lemma CleanPath(pr: Problem, fuel: nat)
      requires Ready() && Safe() && n3 == n2 && pr == WithCost(TheProblem(), c[..]) && pr.Sized()
      requires StartMatrix(TheProblem(), MatrixOf(q), col[..])
      requires View().Valid() && Costed() == State(pr, MatrixOf(q), col[..], row[..n3 + 1]) && Costed().Valid()
      ensures !PhaseOneRejects(TheProblem(), large, eps, fuel)
      ensures PhaseOneStops(TheProblem(), large, eps, fuel, Going) <==> fuel == 0
      ensures PhaseTwoStart(TheProblem(), c[..], {}, large, eps, fuel, Costed())
    {
      hide *;
      ReadyIs();
      ViewIs();
      ProblemIs();
      CostedIs();
      StartIsShadow();
      DroppedShape(pr, {});
      PhaseOneShortIs(TheProblem(), View(), large, eps, fuel);
      NoArtificialEnds(TheProblem(), View(), large, eps, fuel);
      NothingRejected(TheProblem(), View(), large, eps, fuel);
      PhaseTwoStartsAt(TheProblem(), c[..], {}, large, eps, fuel, View(), Costed());
    }

    lemma IsStart(pr: Problem)
      requires Allocated() && pr.Sized() && pr.m == m && pr.n2 == pr.n3 && forall i :: 0 <= i <= m ==> col[i] <= pr.n2
      requires forall i, k :: 0 <= i <= m && 0 <= k <= m ==> q[i, k] == if i == k then 1.0 else 0.0
      ensures StartMatrix(pr, MatrixOf(q), col[..])
    {
    }

    // Both phases.  gone are the constraints phase 1 gives up, and d the last state of the problem
    // without them.
    method Run(fuel: nat) returns (code: Outcome, ghost gone: set<nat>, ghost d: Dict)
      requires Ready()
      modifies this`jmax, a, q, col, row, pivotColumn
      ensures FollowsPaths(old(TheProblem()), old(c[..]), large, eps, fuel, gone, code)
      ensures code == NotFeasible && PhaseOneStops(old(TheProblem()), large, eps, fuel, Done) ==>
        FarAway(old(TheProblem()), eps)
      ensures code == Solved || code == ToInfinity ==>
        Safe() && TheProblem() == old(CostedProblem()) && Shadows(TheProblem(), gone, d, View()) && d.Valid()
      ensures code == Solved ==> NearOptimum(Dropped(TheProblem(), gone), d, eps)
      ensures eps == 0.0 && PhaseOneShort(old(TheProblem()), large, eps, fuel) && code != Unfinished ==>
        (code == NotFeasible <==> !Satisfiable(old(TheProblem())))
      ensures eps == 0.0 && large > 0.0 && !PhaseOneShort(old(TheProblem()), large, eps, fuel) ==>
        code == NotFeasible
      ensures eps == 0.0 && (code == Solved || code == ToInfinity) ==> Satisfiable(old(TheProblem()))
      ensures code == Solved || code == ToInfinity ==> PhaseOneGivesUp(old(TheProblem()), large, eps, fuel, gone)
      ensures eps == 0.0 && code == Solved ==> BasicOptimum(Dropped(TheProblem(), gone), d)
      ensures eps == 0.0 && code == ToInfinity ==> Unlimited(Dropped(TheProblem(), gone), large)
      ensures eps == 0.0 && (code == Solved || code == ToInfinity) ==>
        var short := PhaseTwoShort(old(TheProblem()), old(c[..]), gone, large, eps, fuel);
        && (short ==> (code == ToInfinity <==> NoLowerBound(Dropped(TheProblem(), gone))))
        && (!short ==> code == ToInfinity) && (VerticesBelow(Dropped(TheProblem(), gone), large) ==> short)
    {
      hide *;
      SlackOnly();
      ReadyIs();
      ProblemIs();
      ghost var pr, start, cost := TheProblem(), Costed(), c[..];
      gone, d := {}, start;
      if n3 != n2 {
        var feasible, s1;
        feasible, s1, gone, start := Phase1(fuel);
        if s1 == OutOfFuel {
          EndsInPhaseOne(pr, cost, large, eps, fuel, gone, Unfinished);
          return Unfinished, gone, start;
        }
        if !feasible {
          EndsInPhaseOne(pr, cost, large, eps, fuel, gone, NotFeasible);
          return NotFeasible, gone, start;
        }
      } else {
        StartIsClean(fuel);
      }
      SafeShapes();
      CostedProblemIs();
      var s;
      ghost var entering;
      s, entering, d := Phase2(fuel, gone, start);
      AdvancedKeeps(start, d, n2, eps);
      code := if s == Optimal then Solved else if s == OutOfFuel then Unfinished else ToInfinity;
      PhaseTwoEnds(pr, cost, gone, large, eps, fuel, start, d, s == Optimal, s == Unbounded, entering);
      Ended(pr, cost, large, eps, fuel, gone, code);
      if s == OutOfFuel {
        return;
      }
      SafeShapes();
      ViewIs();
      ColumnsUpTo();
      if s == Optimal {
        PhaseTwoNear(TheProblem(), gone, d, View(), eps);
      }
      if eps == 0.0 {
        PhaseTwoVerdict(TheProblem(), gone, start, d, View(), large, fuel, s == Optimal, entering);
        OptimumIsBound(Dropped(TheProblem(), gone), d);
      }
    }

    lemma SlackOnly()
      requires Ready()
      ensures n2 <= n3 < row.Length && jmax <= n3
    {
    }

    // The numbers read are the components of the basic solution, back in the given variables.
    lemma ReadBack(gone: set<nat>, d: Dict, result: seq<real>)
      requires Safe() && Shadows(TheProblem(), gone, d, View()) && d.Valid() && |result| == n >= 1
      requires RowRange(View()) && n < View().width && d.Inverse() && n < d.width
      requires forall j :: 1 <= j < n ==> result[j] == Read(View(), j) - Read(View(), n)
      ensures Point(result) == Drop(BasicSolution(d)[..n + 1])
    {
      hide *;
      SafeShapes();
      ViewIs();
      ShadowsShape(TheProblem(), gone, d, View());
      ValidBasics(d);
      PointIs(result);
      ReadMatches(TheProblem(), gone, d, View(), n);
      forall j | 1 <= j < n
        ensures Read(View(), j) == Read(d, j)
      {
        ReadMatches(TheProblem(), gone, d, View(), j);
      }
      ReadDrops(d, n, Point(result));
    }

    // The numbers read when no reduced cost is below -eps are nearly an optimum.
    lemma NearAnswer(rows: seq<Vec>, rels: seq<Relation>, cost: Vec, gone: set<nat>, d: Dict, result: seq<real>)
      requires Safe() && Shadows(TheProblem(), gone, d, View()) && d.Valid()
      requires Dropped(TheProblem(), gone).Sized() && NearOptimum(Dropped(TheProblem(), gone), d, eps)
      requires |rows| == |rels| && |cost| == |result| == n >= 1
      requires TheProblem().Sized() && Loaded(TheProblem(), rows, rels, n - 1)
      requires TheProblem().a[0] == Widened(cost, cost[0]) && RowRange(View())
      requires n < View().width && forall j :: 1 <= j < n ==> result[j] == Read(View(), j) - Read(View(), n)
      ensures NearlyCheapest(TheProblem(), rows, rels, gone, cost, eps, Point(result))
    {
      hide *;
      SafeShapes();
      ViewIs();
      var s := NearOptimumOf(Dropped(TheProblem(), gone), d, eps);
      DroppedShape(TheProblem(), gone);
      ReadBack(gone, d, result);
      NearOptimumDrops(TheProblem(), rows, rels, cost, gone, eps, s);
    }

    // The numbers read from an optimal state are an optimum of the problem without the constraints gone.
    lemma Answer(rows: seq<Vec>, rels: seq<Relation>, cost: Vec, gone: set<nat>, d: Dict, result: seq<real>)
      requires Safe() && Shadows(TheProblem(), gone, d, View()) && d.Valid()
      requires Dropped(TheProblem(), gone).Sized() && BasicOptimum(Dropped(TheProblem(), gone), d)
      requires |rows| == |rels| && |cost| == |result| == n >= 1
      requires TheProblem().Sized() && Loaded(TheProblem(), rows, rels, n - 1)
      requires TheProblem().a[0] == Widened(cost, cost[0]) && RowRange(View())
      requires n < View().width && forall j :: 1 <= j < n ==> result[j] == Read(View(), j) - Read(View(), n)
      ensures CheapestBut(rows, rels, gone, cost, Point(result))
    {
      hide *;
      SafeShapes();
      ViewIs();
      var s := OptimumOf(Dropped(TheProblem(), gone), d);
      DroppedShape(TheProblem(), gone);
      ReadBack(gone, d, result);
      OptimumDrops(TheProblem(), rows, rels, cost, gone, s);
    }

    // a[i, from..] := -a[i, from..].
    method NegateRow(i: nat, from: nat)
      requires Allocated() && i <= m && from <= n
      modifies a
      ensures forall l, j :: 0 <= l <= m && 0 <= j <= n ==>
        a[l, j] == if l == i && from <= j then -old(a[l, j]) else old(a[l, j])
    {
      for j: nat := from to n + 1
        invariant forall l, k :: 0 <= l <= m && 0 <= k <= n ==>
          a[l, k] == if l == i && from <= k < j then -old(a[l, k]) else old(a[l, k])
      {
        a[i, j] := -a[i, j];
      }
    }

    // Copies r into row i and appends minus the sum of its coefficients.
    method WidenRow(i: nat, r: Vec)
      requires Allocated() && i <= m && |r| == n >= 1
      modifies a
      ensures forall j :: 0 <= j <= n ==> a[i, j] == Widened(r, -r[0])[j]
      ensures forall l, j :: 0 <= l <= m && 0 <= j <= n && l != i ==> a[l, j] == old(a[l, j])
    {
      for j: nat := 0 to n
        invariant forall k :: 0 <= k < j ==> a[i, k] == r[k]
        invariant forall l, k :: 0 <= l <= m && 0 <= k <= n && l != i ==> a[l, k] == old(a[l, k])
      {
        a[i, j] := r[j];
      }
      a[i, 0] := -a[i, 0];
      var sum := 0.0;
      for j: nat := 1 to n
        invariant sum == Tail(r, j)
      {
        sum := sum + r[j];
      }
      a[i, n] := -sum;
    }

    // Row i and its relation, turned so that the right-hand side is not negative.
    method LoadRow(i: nat, r: Vec, rel: Relation)
      requires Allocated() && i <= m && |r| == n >= 1
      modifies a, inequality
      ensures forall j :: 0 <= j <= n ==> a[i, j] == LoadedRow(r, rel)[j]
      ensures |LoadedRow(r, rel)| == n + 1 && a[i, 0] >= 0.0 && inequality[i] == LoadedRelation(r, rel)
      ensures forall l, j :: 0 <= l <= m && 0 <= j <= n && l != i ==> a[l, j] == old(a[l, j])
      ensures forall l :: 0 <= l <= m && l != i ==> inequality[l] == old(inequality[l])
    {
      hide Tail;
      WidenRow(i, r);
      ghost var w := Widened(r, -r[0]);
      inequality[i] := rel;
      if a[i, 0] < 0.0 {
        inequality[i] := Flipped(rel);
        NegateRow(i, 0);
      } else if a[i, 0] == 0.0 && rel == AtLeast {
        inequality[i] := AtMost;
        NegateRow(i, 1);
      }
    }

    // Loads constraints and costs.
    method Load(rows: seq<Vec>, rels: seq<Relation>, cost: Vec)
      requires Allocated() && |rows| == |rels| == m && |cost| == n >= 1 && forall i :: 0 <= i < m ==> |rows[i]| == n
      requires forall j :: 0 <= j <= n ==> a[0, j] == 0.0
      modifies a, c, inequality
      ensures c[..] == Widened(cost, cost[0])
      ensures forall j :: 0 <= j <= n ==> a[0, j] == 0.0
      ensures forall i :: 0 <= i < m ==> IsLoaded(i, rows[i], rels[i])
    {
      LoadCosts(cost);
      hide Widened, LoadedRow, LoadedRelation, IsLoaded;
      for i: nat := 0 to m
        modifies a, inequality
        invariant forall j :: 0 <= j <= n ==> a[0, j] == 0.0
        invariant forall l :: 0 <= l < i ==> IsLoaded(l, rows[l], rels[l])
      {
        LoadNext(i, rows[i], rels[i]);
      }
    }

    method LoadNext(i: nat, r: Vec, rel: Relation)
      requires Allocated() && i < m && |r| == n >= 1
      modifies a, inequality
      ensures IsLoaded(i, r, rel)
      ensures forall j :: 0 <= j <= n ==> a[0, j] == old(a[0, j])
      ensures forall l, r', rel' :: 0 <= l < m && l != i && |r'| == n && old(IsLoaded(l, r', rel')) ==>
        IsLoaded(l, r', rel')
    {
      hide LoadedRow, LoadedRelation;
      LoadRow(i + 1, r, rel);
    }

    // Row i + 1 holds the given row i.
    ghost predicate IsLoaded(i: nat, r: Vec, rel: Relation)
      requires Allocated() && i < m && |r| == n >= 1
      reads a, inequality
    {
      && |LoadedRow(r, rel)| == n + 1 && (forall j :: 0 <= j <= n ==> a[i + 1, j] == LoadedRow(r, rel)[j])
      && a[i + 1, 0] >= 0.0 && inequality[i + 1] == LoadedRelation(r, rel)
    }

    method LoadCosts(cost: Vec)
      requires Allocated() && |cost| == n >= 1
      modifies c
      ensures c[..] == Widened(cost, cost[0])
    {
      for j: nat := 0 to n
        invariant forall k :: 0 <= k < j ==> c[k] == cost[k]
      {
        c[j] := cost[j];
      }
      var sum := 0.0;
      for j: nat := 1 to n
        invariant sum == Tail(cost, j)
      {
        sum := sum + cost[j];
      }
      c[n] := -sum;
    }

    method ReadVariable(j: nat) returns (v: real)
      requires Safe() && 1 <= j <= n
      ensures View().Sized() && View().width > n && RowRange(View()) && v == Read(View(), j)
    {
      hide *;
      SafeShapes();
      ReadShape();
      ReadIs(View(), j);
      v := 0.0;
      if row[j] != 0 {
        v := Entry(row[j], 0);
      }
    }

    // The values of the given variables; result[0] stays unused.
    method ReadSolution(result: array<real>)
      requires Safe() && result.Length == n >= 1 && result != c && result != pivotColumn
      modifies result
      ensures View().Sized() && View().width > n && RowRange(View()) && result[0] == 0.0
      ensures forall j :: 1 <= j < n ==> result[j] == Read(View(), j) - Read(View(), n)
    {
      hide *;
      SafeShapes();
      ReadShape();
      ghost var d := View();
      result[0] := 0.0;
      for j: nat := 1 to n
        invariant result[0] == 0.0
        invariant forall k :: 1 <= k < j ==> result[k] == Read(d, k)
      {
        result[j] := ReadVariable(j);
      }
      var shift := ReadVariable(n);
      for j: nat := 1 to n
        invariant result[0] == 0.0
        invariant forall k :: 1 <= k < j ==> result[k] == Read(d, k) - shift
        invariant forall k :: j <= k < n ==> result[k] == Read(d, k)
      {
        result[j] := result[j] - shift;
      }
    }
  }

  lemma PointIs(result: seq<real>)
    requires |result| >= 1
    ensures |Point(result)| == |result| && Point(result)[0] == 1.0
    ensures forall j :: 1 <= j < |result| ==> Point(result)[j] == result[j]
  {
  }

  lemma LoadedIs(s: Solver, rows: seq<Vec>, rels: seq<Relation>)
    requires s.Allocated() && s.TheProblem().Sized() && |rows| == |rels| == s.m && s.n >= 1
    requires forall i :: 0 <= i < s.m ==> |rows[i]| == s.n && s.IsLoaded(i, rows[i], rels[i])
    ensures Loaded(s.TheProblem(), rows, rels, s.n - 1)
  {
    hide LoadedRow, LoadedRelation;
    var pr := s.TheProblem();
    forall i | 0 <= i < s.m
      ensures pr.a[i + 1] == LoadedRow(rows[i], rels[i]) && pr.rel[i + 1] == LoadedRelation(rows[i], rels[i])
    {
      assert s.IsLoaded(i, rows[i], rels[i]);
    }
  }

  lemma CostKeepsLoaded(pr: Problem, c: Vec, rows: seq<Vec>, rels: seq<Relation>)
    requires pr.Sized() && |rows| == |rels| && pr.n >= 1 && Loaded(pr, rows, rels, pr.n - 1) && |c| == pr.n + 1
    ensures WithCost(pr, c).Sized() && Loaded(WithCost(pr, c), rows, rels, pr.n - 1) && WithCost(pr, c).a[0] == c
    ensures WithCost(pr, c).n == pr.n
  {
    hide LoadedRow, LoadedRelation;
  }

  // result[0] stands for the constant.
  function Point(result: seq<real>): Vec
    requires |result| >= 1
  {
    [1.0] + result[1..]
  }

  // The answer is right: x is an optimum, or the cost has no lower bound.
  ghost predicate Right(rows: seq<Vec>, rels: seq<Relation>, cost: Vec, code: Outcome, x: Vec)
    requires |rows| == |rels|
  {
    && (code == Solved ==> Cheapest(rows, rels, cost, x))
    && (code == ToInfinity ==> FreeNoLowerBound(rows, rels, {}, cost))
  }

  // What an answer for the constraints other than gone says about all of them.
  lemma Conclude(rows: seq<Vec>, rels: seq<Relation>, gone: set<nat>, cost: Vec, code: Outcome, x: Vec, short: bool)
    requires |rows| == |rels| && (code == Solved || code == ToInfinity)
    requires code == Solved ==> CheapestBut(rows, rels, gone, cost, x)
    requires code == ToInfinity && short ==> FreeNoLowerBound(rows, rels, gone, cost)
    ensures short ==> (code == ToInfinity <==> FreeNoLowerBound(rows, rels, gone, cost))
    ensures short && Implied(rows, rels, gone, |cost|) ==> Right(rows, rels, cost, code, x)
    ensures Undershoots(rows, rels, gone, cost) ==> !Right(rows, rels, cost, code, x)
  {
    hide Implied, Undershoots, Cheapest, CheapestBut, FreeNoLowerBound;
    if code == Solved {
      ImpliedOptimum(rows, rels, gone, cost, x);
      OptimumIsBounded(rows, rels, gone, cost, x);
    } else {
      if Undershoots(rows, rels, gone, cost) {
        UndershotIsBounded(rows, rels, gone, cost);
      }
      if short {
        UnboundedWithout(rows, rels, gone, cost);
        if Implied(rows, rels, gone, |cost|) {
          ImpliedNeverUndershoots(rows, rels, gone, cost);
        }
      }
    }
  }

  // Minimizes cost over the points that satisfy the rows; variables may have any sign.  pr is the
  // problem the rows are loaded into, and gone are the rows that phase 1 gives up.
  method Solve(result: array<real>, rows: seq<Vec>, rels: seq<Relation>, cost: Vec, eps: real, large: real, fuel: nat)
    returns (code: Outcome, ghost pr: Problem, ghost gone: set<nat>)
    requires |rows| == |rels| && result.Length == |cost| >= 1 && eps >= 0.0
    requires forall i :: 0 <= i < |rows| ==> |rows[i]| == |cost|
    modifies result
    ensures LoadedProblem(pr, rows, rels, |cost| - 1) && Dropped(pr, gone).Sized()
    ensures |Widened(cost, cost[0])| == pr.n + 1
    ensures FollowsPaths(pr, Widened(cost, cost[0]), large, eps, fuel, gone, code)
    ensures code == NotFeasible && PhaseOneStops(pr, large, eps, fuel, Done) ==> OutOfReach(pr, rows, rels, eps)
    ensures code == Solved || code == ToInfinity ==> PhaseOneGivesUp(pr, large, eps, fuel, gone)
    ensures code == Solved ==> NearlyCheapest(pr, rows, rels, gone, cost, eps, Point(result[..]))
    ensures eps == 0.0 && PhaseOneShort(pr, large, eps, fuel) && code != Unfinished ==>
      (code == NotFeasible <==> !Consistent(rows, rels, |cost|))
    ensures eps == 0.0 && large > 0.0 && !PhaseOneShort(pr, large, eps, fuel) ==> code == NotFeasible
    ensures eps == 0.0 && VerticesBelow(pr, large) && code != Unfinished ==>
      (code == NotFeasible <==> !Consistent(rows, rels, |cost|))
    ensures eps == 0.0 && (code == Solved || code == ToInfinity) ==> Consistent(rows, rels, |cost|)
    ensures eps == 0.0 && code == Solved ==> CheapestBut(rows, rels, gone, cost, Point(result[..]))
    ensures eps == 0.0 && code == ToInfinity ==> FreeUnlimited(rows, rels, gone, cost, large)
    ensures eps == 0.0 && (code == Solved || code == ToInfinity) ==>
      var short := PhaseTwoShort(pr, Widened(cost, cost[0]), gone, large, eps, fuel);
      && (short ==> (code == ToInfinity <==> FreeNoLowerBound(rows, rels, gone, cost)))
      && (!short ==> code == ToInfinity) && (VerticesBelow(Dropped(pr, gone), large) ==> short)
      && (short && Implied(rows, rels, gone, |cost|) ==> Right(rows, rels, cost, code, Point(result[..])))
      && (Undershoots(rows, rels, gone, cost) ==> !Right(rows, rels, cost, code, Point(result[..])))
  {
    hide *;
    var s := new Solver(|cost|, |rows|, eps, large);
    s.SetUp(rows, rels, cost);
    s.ReadyIs();
    s.ProblemIs();
    s.CostedProblemIs();
    pr := s.TheProblem();
    ghost var c := s.c[..];
    ghost var d;
    LoadedProblemIs(pr, rows, rels, |cost| - 1);
    RightHandSidesAre(pr, rows, rels, |cost| - 1);
    SameFeasibility(pr, rows, rels, |cost| - 1);
    if VerticesBelow(pr, large) {
      VerticesKeepPhaseOneShort(pr, large, fuel);
    }
    code, gone, d := s.Run(fuel);
    DroppedShape(pr, gone);
    if code == NotFeasible && PhaseOneStops(pr, large, eps, fuel, Done) {
      FarPoints(pr, rows, rels, |cost| - 1, eps);
    }
    if code == NotFeasible || code == Unfinished {
      return;
    }
    assert s.c[..] == c;
    CostKeepsLoaded(pr, c, rows, rels);
    s.ReadSolution(result);
    DroppedShape(WithCost(pr, c), gone);
    if code == Solved {
      s.NearAnswer(rows, rels, cost, gone, d, result[..]);
      NearKeeps(pr, rows, rels, gone, cost, c, eps, Point(result[..]));
    }
    if eps == 0.0 {
      CostKeepsLargeVertices(pr, gone, c, large);
      ghost var short := PhaseTwoShort(pr, c, gone, large, eps, fuel);
      if code == Solved {
        s.Answer(rows, rels, cost, gone, d, result[..]);
      } else {
        UnlimitedDrops(WithCost(pr, c), rows, rels, cost, gone, large);
        if short {
          NoBoundDrops(WithCost(pr, c), rows, rels, cost, gone);
        }
      }
      Conclude(rows, rels, gone, cost, code, Point(result[..]), short);
    }
  }

  lemma LoadedProblemIs(pr: Problem, rows: seq<Vec>, rels: seq<Relation>, n0: nat)
    requires |rows| == |rels| && pr.Prepared() && NoCost(pr) && Loaded(pr, rows, rels, n0)
    ensures LoadedProblem(pr, rows, rels, n0) && pr.n == n0 + 1
  {
  }

  lemma RightHandSidesAre(pr: Problem, rows: seq<Vec>, rels: seq<Relation>, n0: nat)
    requires |rows| == |rels| && LoadedProblem(pr, rows, rels, n0)
    ensures forall i :: 1 <= i <= pr.m ==> |pr.a[i]| > 0 && pr.a[i][0] >= 0.0
  {
    hide Problem.Added, LoadedRow, LoadedRelation;
    forall i | 1 <= i <= pr.m
      ensures pr.a[i][0] >= 0.0
    {
      LoadedRowIs(pr, rows, rels, n0, i);
      LoadedIsNonnegative(rows[i - 1], rels[i - 1]);
    }
  }

  lemma LoadedIsNonnegative(r: Vec, rel: Relation)
    requires |r| >= 1
    ensures |LoadedRow(r, rel)| == |r| + 1 && LoadedRow(r, rel)[0] >= 0.0
  {
    hide Tail;
  }

  lemma CostKeepsLargeVertices(pr: Problem, gone: set<nat>, c: Vec, large: real)
    requires pr.Sized() && |c| == pr.n + 1
    ensures Dropped(pr, gone).Sized() && WithCost(pr, c).Sized() && Dropped(WithCost(pr, c), gone).Sized()
    ensures VerticesBelow(Dropped(WithCost(pr, c), gone), large) <==> VerticesBelow(Dropped(pr, gone), large)
  {
    hide VerticesBelow, Dropped;
    DroppedShape(pr, gone);
    DroppedCost(pr, gone, c);
    CostKeepsVertices(Dropped(pr, gone), c, large);
  }
}
