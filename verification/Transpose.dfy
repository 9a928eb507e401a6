// The blocked transposition, and the two-dimensional transform built on it.
module Transpose {
  import opened Arithmetic
  import opened ComplexNumbers
  import opened Powers

  const BS: nat := 16
  const LOG2BS: nat := 4

  // Position (y, x) of a matrix with rows of w elements.
  function At(y: nat, x: nat, w: nat): nat {
    y * w + x
  }

  lemma AtBound(y: nat, x: nat, n: nat, w: nat)
    requires y < n && x < w
    ensures At(y, x, w) < n * w
  {
    MixedRadix(x, y, w, n);
  }

  lemma AtIsUnique(y: nat, x: nat, y': nat, x': nat, w: nat)
    requires x < w && x' < w && At(y, x, w) == At(y', x', w)
    ensures y == y' && x == x'
  {
    SplitsOnce(w, x, y, x', y');
  }

  lemma AtPosition(i: nat, n: nat, w: nat)
    requires i < n * w
    ensures w > 0 && i / w < n && At(i / w, i % w, w) == i
  {
    ProductLess(0, w, n) by { Commute(n, w); }
    var x, y := SplitNumber(i, w, n);
    DivisionIsUnique(i, w, y, x);
  }

  lemma PositionAt(y: nat, x: nat, w: nat)
    requires x < w
    ensures At(y, x, w) / w == y && At(y, x, w) % w == x
  {
    DivisionIsUnique(At(y, x, w), w, y, x);
  }

  // The m by n matrix whose element (x, y) is element (y, x) of the n by m matrix s.
  function Transposed(s: seq<Complex>, n: nat, m: nat): (d: seq<Complex>)
    requires |s| == n * m
    ensures |d| == m * n
  {
    seq(m * n, i requires 0 <= i < m * n => AtPosition(i, m, n); AtBound(i % n, i / n, n, m); s[At(i % n, i / n, m)])
  }

  // Elements (x, y) of d and (y, x) of s agree.
  predicate Agree(d: seq<Complex>, s: seq<Complex>, n: nat, m: nat, y: nat, x: nat)
    requires |s| == n * m && |d| == m * n && y < n && x < m
  {
    AtBound(x, y, m, n);
    AtBound(y, x, n, m);
    d[At(x, y, n)] == s[At(y, x, m)]
  }

  lemma TransposedAt(s: seq<Complex>, n: nat, m: nat, y: nat, x: nat)
    requires |s| == n * m && y < n && x < m
    ensures Agree(Transposed(s, n, m), s, n, m, y, x)
  {
    AtBound(x, y, m, n);
    PositionAt(x, y, n);
  }

  lemma AllAgree(d: seq<Complex>, s: seq<Complex>, n: nat, m: nat)
    requires |s| == n * m && |d| == m * n
    requires forall y, x :: 0 <= y < n && 0 <= x < m ==> Agree(d, s, n, m, y, x)
    ensures d == Transposed(s, n, m)
  {
    hide At;
    forall i | 0 <= i < m * n
      ensures d[i] == Transposed(s, n, m)[i]
    {
      AtPosition(i, m, n);
      var y, x := i % n, i / n;
      assert Agree(d, s, n, m, y, x);
    }
  }

  lemma TransposedTwice(s: seq<Complex>, n: nat, m: nat)
    requires |s| == n * m
    ensures Transposed(Transposed(s, n, m), m, n) == s
  {
    hide At;
    var d := Transposed(s, n, m);
    forall y, x | 0 <= y < m && 0 <= x < n
      ensures Agree(s, d, m, n, y, x)
    {
      TransposedAt(s, n, m, x, y);
    }
    AllAgree(s, d, m, n);
  }

  // ---------------------------------------------------------------- blocks

  // A block of 16 rows of 16 elements, transposed by swapping the elements right of the diagonal.
  method TransposeBlock(row: array2<Complex>)
    requires row.Length0 == BS && row.Length1 == BS
    modifies row
    ensures forall i, j :: 0 <= i < BS && 0 <= j < BS ==> row[i, j] == old(row[j, i])
  {
    for y2: nat := 0 to BS
      invariant forall i, j :: 0 <= i < BS && 0 <= j < BS ==>
        row[i, j] == if i < y2 || j < y2 then old(row[j, i]) else old(row[i, j])
    {
      for x2: nat := y2 + 1 to BS
        invariant forall i, j :: 0 <= i < BS && 0 <= j < BS ==>
          row[i, j] == if i < y2 || j < y2 || (i == y2 && j < x2) || (j == y2 && i < x2) then old(row[j, i])
                       else old(row[i, j])
      {
        var r := row[y2, x2];
        row[y2, x2] := row[x2, y2];
        row[x2, y2] := r;
      }
    }
  }

  ghost predicate IsElement(v: Complex, s: seq<Complex>, y: nat, x: nat, m: nat) {
    At(y, x, m) < |s| && v == s[At(y, x, m)]
  }

  // Copies the block at (y, x) of s.
  method LoadBlock(row: array2<Complex>, s: array<Complex>, y: nat, x: nat, n: nat, m: nat)
    requires row.Length0 == BS && row.Length1 == BS && s.Length == n * m && y + BS <= n && x + BS <= m
    modifies row
    ensures forall i, j :: 0 <= i < BS && 0 <= j < BS ==> IsElement(row[i, j], s[..], y + i, x + j, m)
  {
    hide At;
    for y2: nat := 0 to BS
      invariant forall i, j :: 0 <= i < y2 && 0 <= j < BS ==> IsElement(row[i, j], s[..], y + i, x + j, m)
    {
      for k: nat := 0 to BS
        invariant forall i, j :: 0 <= i < BS && 0 <= j < BS && (i < y2 || (i == y2 && j < k)) ==>
          IsElement(row[i, j], s[..], y + i, x + j, m)
      {
        AtBound(y + y2, x + k, n, m);
        row[y2, k] := s[At(y + y2, x + k, m)];
      }
    }
  }

  // Whether position (a, b) lies in the block at (x, y).
  predicate InBlock(a: nat, b: nat, x: nat, y: nat) {
    x <= a < x + BS && y <= b < y + BS
  }

  // Writes the block at (x, y) of d and nothing else.
  method StoreBlock(d: array<Complex>, row: array2<Complex>, x: nat, y: nat, m: nat, n: nat)
    requires row.Length0 == BS && row.Length1 == BS && d.Length == m * n && x + BS <= m && y + BS <= n
    modifies d
    ensures forall a, b :: 0 <= a < m && 0 <= b < n ==> At(a, b, n) < m * n
    ensures forall a, b :: 0 <= a < m && 0 <= b < n ==>
      d[At(a, b, n)] == if InBlock(a, b, x, y) then row[a - x, b - y] else old(d[At(a, b, n)])
  {
    hide At;
    forall a, b | 0 <= a < m && 0 <= b < n
      ensures At(a, b, n) < m * n
    {
      AtBound(a, b, m, n);
    }
    for y2: nat := 0 to BS
      invariant forall a, b :: 0 <= a < m && 0 <= b < n ==>
        d[At(a, b, n)] == if InBlock(a, b, x, y) && a < x + y2 then row[a - x, b - y] else old(d[At(a, b, n)])
    {
      for k: nat := 0 to BS
        invariant forall a, b :: 0 <= a < m && 0 <= b < n ==>
          d[At(a, b, n)] == if InBlock(a, b, x, y) && (a < x + y2 || (a == x + y2 && b < y + k)) then row[a - x, b - y]
                            else old(d[At(a, b, n)])
      {
        forall a, b | 0 <= a < m && 0 <= b < n && At(a, b, n) == At(x + y2, y + k, n)
          ensures a == x + y2 && b == y + k
        {
          AtIsUnique(a, b, x + y2, y + k, n);
        }
        d[At(x + y2, y + k, n)] := row[y2, k];
      }
    }
  }

  // ---------------------------------------------------------------- transpose()

  // One block of s, transposed, goes to d.
  method MoveBlock(d: array<Complex>, s: array<Complex>, y: nat, x: nat, n: nat, m: nat)
    requires d != s && s.Length == n * m && d.Length == m * n && y + BS <= n && x + BS <= m
    modifies d
    ensures forall Y, X :: 0 <= Y < n && 0 <= X < m && (InBlock(X, Y, x, y) || old(Agree(d[..], s[..], n, m, Y, X))) ==>
      Agree(d[..], s[..], n, m, Y, X)
  {
    hide At;
    var row := new Complex[BS, BS]((i, j) => C(0.0, 0.0));
    LoadBlock(row, s, y, x, n, m);
    label Loaded:
    TransposeBlock(row);
    StoreBlock(d, row, x, y, m, n);
    forall Y, X | 0 <= Y < n && 0 <= X < m && (InBlock(X, Y, x, y) || old(Agree(d[..], s[..], n, m, Y, X)))
      ensures Agree(d[..], s[..], n, m, Y, X)
    {
      AtBound(X, Y, m, n);
      AtBound(Y, X, n, m);
      if InBlock(X, Y, x, y) {
        assert row[X - x, Y - y] == old@Loaded(row[Y - y, X - x]);
        assert old@Loaded(IsElement(row[Y - y, X - x], s[..], y + (Y - y), x + (X - x), m));
      }
    }
  }

  ghost predicate Whole(n: nat) {
    n % BS == 0
  }

  lemma NextBlock(y: nat, n: nat)
    requires y < n && Whole(y) && Whole(n)
    ensures y + BS <= n && Whole(y + BS)
  {
  }

  lemma FirstBlock()
    ensures Whole(0)
  {
  }

  method TransposeBlocks(d: array<Complex>, s: array<Complex>, n: nat, m: nat)
    requires d != s && s.Length == n * m && d.Length == m * n && Whole(n) && Whole(m)
    modifies d
    ensures d[..] == Transposed(s[..], n, m)
  {
    hide At, Agree, Whole;
    FirstBlock();
    var y: nat := 0;
    while y < n
      invariant y <= n && Whole(y)
      invariant forall Y, X :: 0 <= Y < y && 0 <= X < m ==> Agree(d[..], s[..], n, m, Y, X)
    {
      NextBlock(y, n);
      var x: nat := 0;
      while x < m
        invariant x <= m && Whole(x)
        invariant forall Y, X :: 0 <= Y < n && 0 <= X < m && (Y < y || (Y < y + BS && X < x)) ==>
          Agree(d[..], s[..], n, m, Y, X)
      {
        NextBlock(x, m);
        MoveBlock(d, s, y, x, n, m);
        x := x + BS;
      }
      y := y + BS;
    }
    AllAgree(d[..], s[..], n, m);
  }

  // The blocks in any order, as threads may take them.
  method TransposeBlocksInAnyOrder(d: array<Complex>, s: array<Complex>, n: nat, m: nat)
    requires d != s && s.Length == n * m && d.Length == m * n && Whole(n) && Whole(m)
    modifies d
    ensures d[..] == Transposed(s[..], n, m)
  {
    hide At, Agree, Whole;
    var pending := AllPairs(n / BS, m / BS);
    forall Y, X | 0 <= Y < n && 0 <= X < m
      ensures (Y / BS, X / BS) in pending
    {
      BlockOf(Y, n);
      BlockOf(X, m);
    }
    while pending != {}
      invariant pending <= AllPairs(n / BS, m / BS)
      invariant forall Y, X :: 0 <= Y < n && 0 <= X < m && (Y / BS, X / BS) !in pending ==>
        Agree(d[..], s[..], n, m, Y, X)
      decreases |pending|
    {
      var block :| block in pending;
      BlockFits(block.0, n);
      BlockFits(block.1, m);
      MoveBlock(d, s, block.0 * BS, block.1 * BS, n, m);
      forall Y, X | 0 <= Y < n && 0 <= X < m && (Y / BS, X / BS) == block
        ensures InBlock(X, Y, block.1 * BS, block.0 * BS)
      {
      }
      pending := pending - {block};
    }
    assert forall Y, X :: 0 <= Y < n && 0 <= X < m ==> Agree(d[..], s[..], n, m, Y, X);
    AllAgree(d[..], s[..], n, m);
  }

  lemma BlockOf(y: nat, n: nat)
    requires y < n && Whole(n)
    ensures y / BS < n / BS
  {
  }

  function AllPairs(rows: nat, columns: nat): set<(nat, nat)> {
    set b: nat, a: nat | b < rows && a < columns :: (b, a)
  }

  lemma BlockFits(b: nat, n: nat)
    requires b < n / BS && Whole(n)
    ensures b * BS + BS <= n
  {
  }

  method TransposeNaive(d: array<Complex>, s: array<Complex>, n: nat, m: nat)
    requires d != s && s.Length == n * m && d.Length == m * n
    modifies d
    ensures d[..] == Transposed(s[..], n, m)
  {
    hide At, Agree;
    for y: nat := 0 to n
      invariant forall Y, X :: 0 <= Y < y && 0 <= X < m ==> Agree(d[..], s[..], n, m, Y, X)
    {
      for x: nat := 0 to m
        invariant forall Y, X :: 0 <= Y < n && 0 <= X < m && (Y < y || (Y == y && X < x)) ==>
          Agree(d[..], s[..], n, m, Y, X)
      {
        MoveElement(d, s, y, x, n, m);
      }
    }
    AllAgree(d[..], s[..], n, m);
  }

  method MoveElement(d: array<Complex>, s: array<Complex>, y: nat, x: nat, n: nat, m: nat)
    requires d != s && s.Length == n * m && d.Length == m * n && y < n && x < m
    modifies d
    ensures forall Y, X :: 0 <= Y < n && 0 <= X < m && ((Y == y && X == x) || old(Agree(d[..], s[..], n, m, Y, X))) ==>
      Agree(d[..], s[..], n, m, Y, X)
  {
    hide At;
    AtBound(x, y, m, n);
    AtBound(y, x, n, m);
    d[At(x, y, n)] := s[At(y, x, m)];
    forall Y, X | 0 <= Y < n && 0 <= X < m && ((Y == y && X == x) || old(Agree(d[..], s[..], n, m, Y, X)))
      ensures Agree(d[..], s[..], n, m, Y, X)
    {
      AtBound(X, Y, m, n);
      AtBound(Y, X, n, m);
      if At(X, Y, n) == At(x, y, n) {
        AtIsUnique(X, Y, x, y, n);
      }
    }
  }

  // transpose(): large matrices block by block, the others element by element.
  method TransposeMatrix(d: array<Complex>, s: array<Complex>, log2n: nat, log2m: nat)
    requires d != s && s.Length == Pow2(log2n) * Pow2(log2m) && d.Length == Pow2(log2m) * Pow2(log2n)
    modifies d
    ensures d[..] == Transposed(s[..], Pow2(log2n), Pow2(log2m))
  {
    if log2n < LOG2BS || log2m < LOG2BS {
      TransposeNaive(d, s, Pow2(log2n), Pow2(log2m));
    } else {
      WholeBlocks(log2n);
      WholeBlocks(log2m);
      TransposeBlocks(d, s, Pow2(log2n), Pow2(log2m));
    }
  }

  // transposeMT(): threads share the blocks.
  method TransposeParallel(d: array<Complex>, s: array<Complex>, log2n: nat, log2m: nat)
    requires d != s && s.Length == Pow2(log2n) * Pow2(log2m) && d.Length == Pow2(log2m) * Pow2(log2n)
    modifies d
    ensures d[..] == Transposed(s[..], Pow2(log2n), Pow2(log2m))
  {
    if log2n < LOG2BS || log2m < LOG2BS {
      TransposeNaive(d, s, Pow2(log2n), Pow2(log2m));
    } else {
      WholeBlocks(log2n);
      WholeBlocks(log2m);
      TransposeBlocksInAnyOrder(d, s, Pow2(log2n), Pow2(log2m));
    }
  }

  lemma WholeBlocks(k: nat)
    requires k >= LOG2BS
    ensures Whole(Pow2(k))
  {
    Pow2Add(k - 4, 4);
    assert Pow2(4) == 16 by { assert Pow2(2) == 4; }
    Quotient(Pow2(k), 16, Pow2(k - 4));
  }
}
