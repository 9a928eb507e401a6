// The two-dimensional transform: rows, transposition, rows, transposition.  The one-dimensional
// transforms are not interpreted.
module Execute2D {
  import opened Arithmetic
  import opened ComplexNumbers
  import opened Powers
  import opened Transpose

  type RowTransform = seq<Complex> -> seq<Complex>

  ghost predicate KeepsLength(f: RowTransform, m: nat) {
    forall r :: |r| == m ==> |f(r)| == m
  }

  function RowOf(s: seq<Complex>, n: nat, m: nat, y: nat): (r: seq<Complex>)
    requires |s| == n * m && y < n
    ensures |r| == m
  {
    RowFits(y, n, m);
    s[At(y, 0, m)..At(y, 0, m) + m]
  }

  lemma RowFits(y: nat, n: nat, m: nat)
    requires y < n
    ensures At(y, 0, m) + m == At(y + 1, 0, m) <= n * m
  {
    OneMore(y, m);
    ProductMonotone(y + 1, n, m);
  }

  function ColumnOf(s: seq<Complex>, n: nat, m: nat, x: nat): (c: seq<Complex>)
    requires |s| == n * m && x < m
    ensures |c| == n
  {
    seq(n, y requires 0 <= y < n => AtBound(y, x, n, m); s[At(y, x, m)])
  }

  // f applied to every row.
  function OnRows(f: RowTransform, s: seq<Complex>, n: nat, m: nat): (d: seq<Complex>)
    requires |s| == n * m && KeepsLength(f, m)
    ensures |d| == n * m
  {
    seq(n * m, i requires 0 <= i < n * m =>
      AtPosition(i, n, m);
      assert |f(RowOf(s, n, m, i / m))| == m;
      f(RowOf(s, n, m, i / m))[i % m])
  }

  // f applied to every column, the result in the same layout.
  function OnColumns(f: RowTransform, s: seq<Complex>, n: nat, m: nat): (d: seq<Complex>)
    requires |s| == n * m && KeepsLength(f, n)
    ensures |d| == n * m
  {
    seq(n * m, i requires 0 <= i < n * m =>
      AtPosition(i, n, m);
      assert |f(ColumnOf(s, n, m, i % m))| == n;
      f(ColumnOf(s, n, m, i % m))[i / m])
  }

  lemma OnRowsAt(f: RowTransform, s: seq<Complex>, n: nat, m: nat, y: nat, x: nat)
    requires |s| == n * m && KeepsLength(f, m) && y < n && x < m
    ensures At(y, x, m) < n * m && |f(RowOf(s, n, m, y))| == m
    ensures OnRows(f, s, n, m)[At(y, x, m)] == f(RowOf(s, n, m, y))[x]
  {
    AtBound(y, x, n, m);
    PositionAt(y, x, m);
  }

  lemma OnColumnsAt(f: RowTransform, s: seq<Complex>, n: nat, m: nat, y: nat, x: nat)
    requires |s| == n * m && KeepsLength(f, n) && y < n && x < m
    ensures At(y, x, m) < n * m && |f(ColumnOf(s, n, m, x))| == n
    ensures OnColumns(f, s, n, m)[At(y, x, m)] == f(ColumnOf(s, n, m, x))[y]
  {
    AtBound(y, x, n, m);
    PositionAt(y, x, m);
  }

  // The rows of the transposed matrix are the columns.
  lemma RowOfTransposed(s: seq<Complex>, n: nat, m: nat, x: nat)
    requires |s| == n * m && x < m
    ensures RowOf(Transposed(s, n, m), m, n, x) == ColumnOf(s, n, m, x)
  {
    var r := RowOf(Transposed(s, n, m), m, n, x);
    forall y | 0 <= y < n
      ensures r[y] == ColumnOf(s, n, m, x)[y]
    {
      RowFits(x, m, n);
      AtShift(x, y, n);
      TransposedAt(s, n, m, y, x);
    }
  }

  lemma AtShift(x: nat, y: nat, n: nat)
    ensures At(x, 0, n) + y == At(x, y, n)
  {
  }

  // Transforming the rows of the transposed matrix and transposing back transforms the columns.
  lemma RowsOfTransposed(f: RowTransform, s: seq<Complex>, n: nat, m: nat)
    requires |s| == n * m && KeepsLength(f, n)
    ensures Transposed(OnRows(f, Transposed(s, n, m), m, n), m, n) == OnColumns(f, s, n, m)
  {
    hide At, KeepsLength, OnRows, OnColumns, Transposed, RowOf, ColumnOf;
    var t := OnRows(f, Transposed(s, n, m), m, n);
    forall x, y | 0 <= x < m && 0 <= y < n
      ensures Agree(OnColumns(f, s, n, m), t, m, n, x, y)
    {
      RowOfTransposed(s, n, m, x);
      OnRowsAt(f, Transposed(s, n, m), m, n, x, y);
      OnColumnsAt(f, s, n, m, y, x);
    }
    AllAgree(OnColumns(f, s, n, m), t, m, n);
  }

  // Row by row from src to dst.
  method ExecuteRows(f: RowTransform, src: array<Complex>, dst: array<Complex>, n: nat, m: nat)
    requires src != dst && src.Length == n * m && dst.Length == n * m && KeepsLength(f, m)
    modifies dst
    ensures dst[..] == OnRows(f, src[..], n, m)
  {
    hide At, KeepsLength, OnRows;
    for y: nat := 0 to n
      invariant forall Y, x :: 0 <= Y < y && 0 <= x < m ==> Done(f, src[..], dst[..], n, m, Y, x)
    {
      RowFits(y, n, m);
      var row := f(RowOf(src[..], n, m, y));
      OnRowsLength(f, src[..], n, m, y);
      for x: nat := 0 to m
        invariant forall Y, X :: 0 <= Y < n && 0 <= X < m && (Y < y || (Y == y && X < x)) ==>
          Done(f, src[..], dst[..], n, m, Y, X)
      {
        PutElement(f, src, dst, n, m, y, x, row);
      }
    }
    AllDone(f, src[..], dst[..], n, m);
  }

  // The elements of all rows in any order, as threads that share the rows may write them.
  method ExecuteRowsInAnyOrder(f: RowTransform, src: array<Complex>, dst: array<Complex>, n: nat, m: nat)
    requires src != dst && src.Length == n * m && dst.Length == n * m && KeepsLength(f, m)
    modifies dst
    ensures dst[..] == OnRows(f, src[..], n, m)
  {
    hide At, KeepsLength, OnRows, Done;
    var pending := AllPairs(n, m);
    while pending != {}
      invariant pending <= AllPairs(n, m)
      invariant forall Y, X :: 0 <= Y < n && 0 <= X < m && (Y, X) !in pending ==> Done(f, src[..], dst[..], n, m, Y, X)
      decreases |pending|
    {
      var place :| place in pending;
      RowFits(place.0, n, m);
      OnRowsLength(f, src[..], n, m, place.0);
      PutElement(f, src, dst, n, m, place.0, place.1, f(RowOf(src[..], n, m, place.0)));
      pending := pending - {place};
    }
    AllDone(f, src[..], dst[..], n, m);
  }

  ghost predicate Done(f: RowTransform, s: seq<Complex>, d: seq<Complex>, n: nat, m: nat, y: nat, x: nat)
    requires |s| == n * m && |d| == n * m && y < n && x < m && KeepsLength(f, m)
  {
    OnRowsAt(f, s, n, m, y, x);
    d[At(y, x, m)] == OnRows(f, s, n, m)[At(y, x, m)]
  }

  lemma OnRowsLength(f: RowTransform, s: seq<Complex>, n: nat, m: nat, y: nat)
    requires |s| == n * m && KeepsLength(f, m) && y < n
    ensures |f(RowOf(s, n, m, y))| == m
  {
  }

  method PutElement(f: RowTransform, src: array<Complex>, dst: array<Complex>, n: nat, m: nat, y: nat, x: nat,
    row: seq<Complex>)
    requires src != dst && src.Length == n * m && dst.Length == n * m && KeepsLength(f, m) && y < n && x < m
    requires row == f(RowOf(src[..], n, m, y))
    modifies dst
    ensures forall Y, X |
      0 <= Y < n && 0 <= X < m && ((Y == y && X == x) || old(Done(f, src[..], dst[..], n, m, Y, X))) ::
      Done(f, src[..], dst[..], n, m, Y, X)
  {
    hide At, KeepsLength, OnRows;
    OnRowsAt(f, src[..], n, m, y, x);
    dst[At(y, x, m)] := row[x];
    forall Y, X | 0 <= Y < n && 0 <= X < m && ((Y == y && X == x) || old(Done(f, src[..], dst[..], n, m, Y, X)))
      ensures Done(f, src[..], dst[..], n, m, Y, X)
    {
      AtBound(Y, X, n, m);
      if At(Y, X, m) == At(y, x, m) {
        AtIsUnique(Y, X, y, x, m);
      }
    }
  }

  lemma AllDone(f: RowTransform, s: seq<Complex>, d: seq<Complex>, n: nat, m: nat)
    requires |s| == n * m && |d| == n * m && KeepsLength(f, m)
    requires forall y, x :: 0 <= y < n && 0 <= x < m ==> Done(f, s, d, n, m, y, x)
    ensures d == OnRows(f, s, n, m)
  {
    hide At, KeepsLength, OnRows;
    forall i | 0 <= i < n * m
      ensures d[i] == OnRows(f, s, n, m)[i]
    {
      AtPosition(i, n, m);
      assert Done(f, s, d, n, m, i / m, i % m);
    }
  }

  // execute() of the two-dimensional transform: S -> T -> D -> T -> D.  s may be d; the result is
  // the row transform of all rows followed by the column transform of all columns, whether threads
  // share the work or not.
  method Execute(mt: bool, s: array<Complex>, d: array<Complex>, tBuf: array<Complex>, log2vlen: nat, log2hlen: nat,
    instH: RowTransform, instV: RowTransform)
    requires tBuf != s && tBuf != d
    requires s.Length == d.Length == tBuf.Length == Pow2(log2vlen) * Pow2(log2hlen)
    requires KeepsLength(instH, Pow2(log2hlen)) && KeepsLength(instV, Pow2(log2vlen))
    modifies d, tBuf
    ensures d[..] ==
      OnColumns(instV, OnRows(instH, old(s[..]), Pow2(log2vlen), Pow2(log2hlen)), Pow2(log2vlen), Pow2(log2hlen))
    ensures s != d ==> s[..] == old(s[..])
  {
    var vlen, hlen := Pow2(log2vlen), Pow2(log2hlen);
    Commute(vlen, hlen);
    hide *;
    ghost var rows := OnRows(instH, s[..], vlen, hlen);
    if mt {
      ExecuteRowsInAnyOrder(instH, s, tBuf, vlen, hlen);
      TransposeParallel(d, tBuf, log2vlen, log2hlen);
      ExecuteRowsInAnyOrder(instV, d, tBuf, hlen, vlen);
      TransposeParallel(d, tBuf, log2hlen, log2vlen);
    } else {
      ExecuteRows(instH, s, tBuf, vlen, hlen);
      TransposeMatrix(d, tBuf, log2vlen, log2hlen);
      ExecuteRows(instV, d, tBuf, hlen, vlen);
      TransposeMatrix(d, tBuf, log2hlen, log2vlen);
    }
    RowsOfTransposed(instV, rows, vlen, hlen);
  }
}
