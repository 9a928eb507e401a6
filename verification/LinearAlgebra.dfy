// Sums of products of real vectors, and matrices as sequences of rows.
module LinearAlgebra {
  type Vec = seq<real>

  // The product of the first k components.
  function Dot(u: Vec, v: Vec, k: nat): real
    requires k <= |u| && k <= |v|
  {
    if k == 0 then 0.0 else Dot(u, v, k - 1) + u[k - 1] * v[k - 1]
  }

  lemma {:induction false} DotLinear(w: Vec, a: Vec, b: Vec, t: real, v: Vec, k: nat)
    requires k <= |w| && k <= |a| && k <= |b| && k <= |v|
    requires forall l :: 0 <= l < k ==> w[l] == a[l] + t * b[l]
    ensures Dot(w, v, k) == Dot(a, v, k) + t * Dot(b, v, k)
  {
    if k > 0 {
      DotLinear(w, a, b, t, v, k - 1);
      var x, y := a[k - 1], b[k - 1];
      assert (x + t * y) * v[k - 1] == x * v[k - 1] + t * (y * v[k - 1]);
      assert t * (Dot(b, v, k - 1) + y * v[k - 1]) == t * Dot(b, v, k - 1) + t * (y * v[k - 1]);
    }
  }

  lemma {:induction false} DotCommutes(u: Vec, v: Vec, k: nat)
    requires k <= |u| && k <= |v|
    ensures Dot(u, v, k) == Dot(v, u, k)
  {
    if k > 0 {
      DotCommutes(u, v, k - 1);
    }
  }

  lemma {:induction false} DotScales(w: Vec, a: Vec, t: real, v: Vec, k: nat)
    requires k <= |w| && k <= |a| && k <= |v|
    requires forall l :: 0 <= l < k ==> w[l] == t * a[l]
    ensures Dot(w, v, k) == t * Dot(a, v, k)
  {
    if k > 0 {
      DotScales(w, a, t, v, k - 1);
      assert (t * a[k - 1]) * v[k - 1] == t * (a[k - 1] * v[k - 1]);
      assert t * (Dot(a, v, k - 1) + a[k - 1] * v[k - 1]) == t * Dot(a, v, k - 1) + t * (a[k - 1] * v[k - 1]);
    }
  }

  // Only component c of u is not zero.
  lemma {:induction false} DotUnit(u: Vec, v: Vec, c: nat, k: nat)
    requires k <= |u| && k <= |v|
    requires forall l :: 0 <= l < k && l != c ==> u[l] == 0.0
    ensures Dot(u, v, k) == if c < k then u[c] * v[c] else 0.0
  {
    if k > 0 {
      DotUnit(u, v, c, k - 1);
    }
  }

  lemma {:induction false} DotSame(u: Vec, v: Vec, u': Vec, v': Vec, k: nat)
    requires k <= |u| && k <= |v| && k <= |u'| && k <= |v'|
    requires forall l :: 0 <= l < k ==> u[l] == u'[l] && v[l] == v'[l]
    ensures Dot(u, v, k) == Dot(u', v', k)
  {
    if k > 0 {
      DotSame(u, v, u', v', k - 1);
    }
  }

  lemma {:induction false} DotTerms(u: Vec, v: Vec, u': Vec, v': Vec, k: nat)
    requires k <= |u| && k <= |v| && k <= |u'| && k <= |v'|
    requires forall l :: 0 <= l < k ==> u[l] * v[l] == u'[l] * v'[l]
    ensures Dot(u, v, k) == Dot(u', v', k)
  {
    if k > 0 {
      DotTerms(u, v, u', v', k - 1);
    }
  }

  // Changing component k changes the product by the factor of k.
  lemma {:induction false} DotUpdates(u: Vec, r: Vec, k: nat, t: real, n: nat)
    requires n <= |u| && n <= |r| && k < |r|
    ensures Dot(u, r[k := t], n) == Dot(u, r, n) + if k < n then u[k] * (t - r[k]) else 0.0
  {
    if n > 0 {
      DotUpdates(u, r, k, t, n - 1);
      assert r[k := t][n - 1] == if k == n - 1 then t else r[n - 1];
      if k == n - 1 {
        ProductMoves(u[k], t, r[k]);
      }
    }
  }

  lemma ProductMoves(u: real, t: real, s: real)
    ensures u * (t - s) == u * t - u * s
  {
  }

  ghost predicate Matrix(a: seq<Vec>, rows: nat, columns: nat) {
    |a| == rows && forall i :: 0 <= i < rows ==> |a[i]| == columns
  }

  function Column(a: seq<Vec>, rows: nat, columns: nat, j: nat): Vec
    requires Matrix(a, rows, columns) && j < columns
  {
    seq(rows, i requires 0 <= i < rows => a[i][j])
  }

  // The values of the rows of a on the first k components of x.
  function Residuals(a: seq<Vec>, rows: nat, columns: nat, x: Vec, k: nat): Vec
    requires Matrix(a, rows, columns) && k <= columns && k <= |x|
  {
    seq(rows, i requires 0 <= i < rows => Dot(a[i], x, k))
  }

  // The combination of the rows of a with weights w.
  function Combine(w: Vec, a: seq<Vec>, rows: nat, columns: nat): Vec
    requires Matrix(a, rows, columns) && |w| == rows
  {
    seq(columns, j requires 0 <= j < columns => Dot(w, Column(a, rows, columns, j), rows))
  }

  // A combination of rows takes on x the same combination of the values of the rows.
  lemma {:induction false} CombineResiduals(w: Vec, a: seq<Vec>, rows: nat, columns: nat, x: Vec, k: nat)
    requires Matrix(a, rows, columns) && |w| == rows && k <= columns && k <= |x|
    ensures Dot(Combine(w, a, rows, columns), x, k) == Dot(w, Residuals(a, rows, columns, x, k), rows)
  {
    var r := Residuals(a, rows, columns, x, k);
    if k == 0 {
      DotUnit(r, w, 0, rows);
      DotCommutes(r, w, rows);
    } else {
      CombineResiduals(w, a, rows, columns, x, k - 1);
      var r', c := Residuals(a, rows, columns, x, k - 1), Column(a, rows, columns, k - 1);
      DotLinear(r, r', c, x[k - 1], w, rows);
      DotCommutes(r, w, rows);
      DotCommutes(r', w, rows);
      DotCommutes(c, w, rows);
    }
  }
}
