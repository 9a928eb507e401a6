// How prepare() lays out the added columns and pairs them with their rows.
module AddedColumns {
  import opened LinearAlgebra
  import opened StandardForm

  // The number of <= rows among the first i.
  function AtMostRows(rel: seq<Relation>, i: nat): nat
    requires i < |rel|
  {
    if i == 0 then 0 else AtMostRows(rel, i - 1) + if rel[i] == AtMost then 1 else 0
  }

  lemma {:induction false} AtMostRowsSpan(rel: seq<Relation>, i: nat, k: nat)
    requires i <= k < |rel|
    ensures AtMostRows(rel, i) <= AtMostRows(rel, k) <= AtMostRows(rel, i) + k - i
  {
    if i < k {
      AtMostRowsSpan(rel, i, k - 1);
    }
  }

  lemma NoRows(rel: seq<Relation>)
    requires 0 < |rel|
    ensures AtMostRows(rel, 0) == 0
  {
  }

  lemma AtMostRowsStep(rel: seq<Relation>, i: nat)
    requires 1 <= i < |rel|
    ensures AtMostRows(rel, i) == AtMostRows(rel, i - 1) + if rel[i] == AtMost then 1 else 0
  {
  }

  datatype Kind = Surplus | Slack | Artificial

  predicate Needs(rel: Relation, kind: Kind) {
    match kind
    case Surplus => rel == AtLeast
    case Slack => rel == AtMost
    case Artificial => rel != AtMost
  }

  // Columns low + 1 to high belong to the rows up to i of the given kinds, in order.
  ghost predicate Block(nz: seq<nat>, rel: seq<Relation>, low: nat, high: nat, i: nat, kind: Kind) {
    && i < |rel| && low <= high < |nz|
    && (forall j :: low < j <= high ==> 1 <= nz[j] <= i && Needs(rel[nz[j]], kind))
    && (forall j, k :: low < j < k <= high ==> nz[j] < nz[k])
    && (forall k :: 1 <= k <= i && Needs(rel[k], kind) ==> exists j :: low < j <= high && nz[j] == k)
  }

  // The columns of a block are the basic variables of their rows.
  ghost predicate Paired(nz: seq<nat>, rel: seq<Relation>, col: seq<int>, row: seq<int>,
                         low: nat, high: nat, i: nat, kind: Kind) {
    && i < |rel| == |col| && low <= high < |nz| == |row|
    && (forall k :: 1 <= k <= i && Needs(rel[k], kind) ==> low < col[k] <= high && nz[col[k]] == k)
    && (forall j :: low < j <= high ==> 1 <= nz[j] <= i && Needs(rel[nz[j]], kind))
    && (forall j :: low < j <= high ==> row[j] == nz[j] && col[nz[j]] == j)
  }

  ghost predicate Unused(row: seq<int>, low: nat, high: nat) {
    forall j :: 0 <= j < |row| && !(low < j <= high) ==> row[j] == 0
  }

  lemma EmptyBlock(nz: seq<nat>, rel: seq<Relation>, col: seq<int>, row: seq<int>, low: nat, kind: Kind)
    requires 0 < |rel| == |col| && low < |nz| == |row|
    ensures Block(nz, rel, low, low, 0, kind) && Paired(nz, rel, col, row, low, low, 0, kind)
  {
  }

  lemma BlockAdds(nz: seq<nat>, rel: seq<Relation>, low: nat, high: nat, i: nat, kind: Kind)
    requires 1 <= i < |rel| && high + 1 < |nz| && Block(nz, rel, low, high, i - 1, kind) && Needs(rel[i], kind)
    ensures Block(nz[high + 1 := i], rel, low, high + 1, i, kind)
  {
    var nz' := nz[high + 1 := i];
    forall k | 1 <= k <= i && Needs(rel[k], kind)
      ensures exists j :: low < j <= high + 1 && nz'[j] == k
    {
      if k == i {
        assert nz'[high + 1] == k;
      } else {
        var j :| low < j <= high && nz[j] == k;
        assert nz'[j] == k;
      }
    }
  }

  lemma BlockSkips(nz: seq<nat>, rel: seq<Relation>, low: nat, high: nat, i: nat, kind: Kind)
    requires 1 <= i < |rel| && Block(nz, rel, low, high, i - 1, kind) && !Needs(rel[i], kind)
    ensures Block(nz, rel, low, high, i, kind)
    ensures forall col, row :: Paired(nz, rel, col, row, low, high, i - 1, kind) ==>
      Paired(nz, rel, col, row, low, high, i, kind)
  {
  }

  lemma BlockStays(nz: seq<nat>, rel: seq<Relation>, low: nat, high: nat, i: nat, kind: Kind, j: nat, v: nat)
    requires Block(nz, rel, low, high, i, kind) && high < j < |nz|
    ensures Block(nz[j := v], rel, low, high, i, kind)
  {
    var nz' := nz[j := v];
    forall k | 1 <= k <= i && Needs(rel[k], kind)
      ensures exists l :: low < l <= high && nz'[l] == k
    {
      var l :| low < l <= high && nz[l] == k;
      assert nz'[l] == k;
    }
  }

  lemma PairedAdds(nz: seq<nat>, rel: seq<Relation>, col: seq<int>, row: seq<int>,
                   low: nat, high: nat, i: nat, kind: Kind)
    requires 1 <= i < |rel| && high + 1 < |nz| && Needs(rel[i], kind)
    requires Paired(nz, rel, col, row, low, high, i - 1, kind)
    ensures Paired(nz[high + 1 := i], rel, col[i := high + 1], row[high + 1 := i], low, high + 1, i, kind)
  {
  }

  lemma PairedStays(nz: seq<nat>, rel: seq<Relation>, col: seq<int>, row: seq<int>,
                    low: nat, high: nat, i: nat, kind: Kind, j: nat, k: nat)
    requires Paired(nz, rel, col, row, low, high, i, kind) && high < j < |nz| && k < |col| && !Needs(rel[k], kind)
    ensures Paired(nz[j := k], rel, col[k := j], row[j := k], low, high, i, kind)
  {
  }

  // The surplus and slack columns of all rows and the artificial columns of the rows up to i.
  ghost predicate Layout(nz: seq<nat>, rel: seq<Relation>, col: seq<int>, row: seq<int>,
                         n: nat, n1: nat, n2: nat, n3: nat, m: nat, i: nat) {
    && Block(nz, rel, n, n1, m, Surplus) && Block(nz, rel, n1, n2, m, Slack)
    && Block(nz, rel, n2, n3, i, Artificial)
    && Paired(nz, rel, col, row, n1, n2, m, Slack)
    && Paired(nz, rel, col, row, n2, n3, i, Artificial)
    && Unused(row, n1, n3) && col[0] == 0
  }

  lemma LayoutStarts(nz: seq<nat>, rel: seq<Relation>, col: seq<int>, row: seq<int>, n: nat, n1: nat, n2: nat, m: nat)
    requires m < |rel| == |col| && |nz| == |row| && col[0] == 0 && Unused(row, n1, n2)
    requires Block(nz, rel, n, n1, m, Surplus) && Block(nz, rel, n1, n2, m, Slack)
    requires Paired(nz, rel, col, row, n1, n2, m, Slack)
    ensures Layout(nz, rel, col, row, n, n1, n2, n2, m, 0)
  {
    BlockBounds(nz, rel, n1, n2, m, Slack);
    hide Block, Paired;
    EmptyBlock(nz, rel, col, row, n2, Artificial);
  }

  lemma LayoutAdds(nz: seq<nat>, rel: seq<Relation>, col: seq<int>, row: seq<int>,
                   n: nat, n1: nat, n2: nat, high: nat, m: nat, i: nat)
    requires 1 <= i <= m < |rel| == |col| && high + 1 < |nz| == |row| && rel[i] != AtMost
    requires Layout(nz, rel, col, row, n, n1, n2, high, m, i - 1)
    ensures Layout(nz[high + 1 := i], rel, col[i := high + 1], row[high + 1 := i], n, n1, n2, high + 1, m, i)
  {
    hide Block, Paired;
    assert n1 <= n2 <= high by {
      BlockBounds(nz, rel, n1, n2, m, Slack);
      BlockBounds(nz, rel, n2, high, i - 1, Artificial);
    }
    BlockBounds(nz, rel, n, n1, m, Surplus);
    BlockStays(nz, rel, n, n1, m, Surplus, high + 1, i);
    BlockStays(nz, rel, n1, n2, m, Slack, high + 1, i);
    PairedStays(nz, rel, col, row, n1, n2, m, Slack, high + 1, i);
    BlockAdds(nz, rel, n2, high, i, Artificial);
    PairedAdds(nz, rel, col, row, n2, high, i, Artificial);
  }

  lemma BlockBounds(nz: seq<nat>, rel: seq<Relation>, low: nat, high: nat, i: nat, kind: Kind)
    requires Block(nz, rel, low, high, i, kind)
    ensures low <= high < |nz|
  {
  }

  lemma LayoutSkips(nz: seq<nat>, rel: seq<Relation>, col: seq<int>, row: seq<int>,
                    n: nat, n1: nat, n2: nat, n3: nat, m: nat, i: nat)
    requires 1 <= i <= m < |rel| == |col| && |row| == |nz| && rel[i] == AtMost
    requires Layout(nz, rel, col, row, n, n1, n2, n3, m, i - 1)
    ensures Layout(nz, rel, col, row, n, n1, n2, n3, m, i)
  {
    hide Block, Paired;
    BlockSkips(nz, rel, n2, n3, i, Artificial);
  }

  // The three blocks make up the extended problem and its first basis.
  lemma BlocksArePrepared(pr: Problem, col: seq<int>, row: seq<int>)
    requires Matrix(pr.a, pr.m + 1, pr.n + 1) && |pr.rel| == |col| == pr.m + 1 && |pr.nz| == |row|
    requires Layout(pr.nz, pr.rel, col, row, pr.n, pr.n1, pr.n2, pr.n3, pr.m, pr.m)
    ensures pr.Prepared() && StartBasis(pr, col, row[..pr.n3 + 1]) && col[0] == 0 && row[0] == 0
  {
    hide Block, Paired, Problem.Added, StartBasis;
    BlockBounds(pr.nz, pr.rel, pr.n1, pr.n2, pr.m, Slack);
    BlockBounds(pr.nz, pr.rel, pr.n2, pr.n3, pr.m, Artificial);
    BlocksAreAdded(pr);
    PairsAreBasis(pr, col, row);
  }

  lemma PairsAreBasis(pr: Problem, col: seq<int>, row: seq<int>)
    requires pr.Sized() && |pr.nz| == |row| && pr.n3 < |row| && Unused(row, pr.n1, pr.n3)
    requires Paired(pr.nz, pr.rel, col, row, pr.n1, pr.n2, pr.m, Slack)
    requires Paired(pr.nz, pr.rel, col, row, pr.n2, pr.n3, pr.m, Artificial)
    ensures StartBasis(pr, col, row[..pr.n3 + 1])
  {
    assert forall i :: 1 <= i <= pr.m ==> Needs(pr.rel[i], Slack) || Needs(pr.rel[i], Artificial);
  }

  lemma BlocksAreAdded(pr: Problem)
    requires Matrix(pr.a, pr.m + 1, pr.n + 1) && |pr.rel| == pr.m + 1
    requires Block(pr.nz, pr.rel, pr.n, pr.n1, pr.m, Surplus)
    requires Block(pr.nz, pr.rel, pr.n1, pr.n2, pr.m, Slack)
    requires Block(pr.nz, pr.rel, pr.n2, pr.n3, pr.m, Artificial)
    ensures pr.Prepared()
  {
    assert pr.Sized();
    forall i | 1 <= i <= pr.m && pr.rel[i] == AtLeast
      ensures exists j :: pr.n < j <= pr.n1 && pr.nz[j] == i
    {
      assert Needs(pr.rel[i], Surplus);
    }
    forall i | 1 <= i <= pr.m && pr.rel[i] == AtMost
      ensures exists j :: pr.n1 < j <= pr.n2 && pr.nz[j] == i
    {
      assert Needs(pr.rel[i], Slack);
    }
    forall i | 1 <= i <= pr.m && pr.rel[i] != AtMost
      ensures exists j :: pr.n2 < j <= pr.n3 && pr.nz[j] == i
    {
      assert Needs(pr.rel[i], Artificial);
    }
  }

  lemma {:induction false} AllAtMost(rel: seq<Relation>, m: nat)
    requires m < |rel|
    ensures AtMostRows(rel, m) <= m
    ensures AtMostRows(rel, m) == m <==> forall i :: 1 <= i <= m ==> rel[i] == AtMost
  {
    if m > 0 {
      AllAtMost(rel, m - 1);
    }
  }
}
