// The last level of the tables: K values of vecwidth butterflies are interleaved and doubled.
module Interleaving {
  import opened Arithmetic

  // Position of value k of butterfly v of group b before and after.
  function Plain(K: nat, vw: nat, b: nat, k: nat, v: nat): nat {
    b * (K * vw) + (v * K + k)
  }

  function Mixed(K: nat, vw: nat, b: nat, k: nat, v: nat): nat {
    b * (K * vw) + (k * vw + v)
  }

  // Where the value at interleaved position y comes from.
  function From(K: nat, vw: nat, y: nat): nat
    requires K > 0 && vw > 0
  {
    Positive(K, vw);
    var w := K * vw;
    Plain(K, vw, y / w, y % w / vw, y % w % vw)
  }

  // Where the value at plain position z goes.
  function To(K: nat, vw: nat, z: nat): nat
    requires K > 0 && vw > 0
  {
    Positive(K, vw);
    var w := K * vw;
    Mixed(K, vw, z / w, z % w % K, z % w / K)
  }

  lemma Positive(K: nat, vw: nat)
    requires K > 0 && vw > 0
    ensures K * vw > 0
  {
    ProductStrict(0, K, vw);
  }

  lemma Digits(K: nat, vw: nat, n: nat, y: nat)
    returns (b: nat, k: nat, v: nat)
    requires K > 0 && vw > 0 && y < n * (K * vw)
    ensures b < n && k < K && v < vw && y == Mixed(K, vw, b, k, v)
  {
    Positive(K, vw);
    var r;
    r, b := SplitNumber(y, K * vw, n);
    v, k := SplitNumber(r, vw, K);
  }

  lemma PlainDigits(K: nat, vw: nat, n: nat, z: nat)
    returns (b: nat, k: nat, v: nat)
    requires K > 0 && vw > 0 && z < n * (K * vw)
    ensures b < n && k < K && v < vw && z == Plain(K, vw, b, k, v)
  {
    Positive(K, vw);
    var r;
    r, b := SplitNumber(z, K * vw, n);
    Commute(K, vw);
    k, v := SplitNumber(r, K, vw);
  }

  lemma Bounds(K: nat, vw: nat, n: nat, b: nat, k: nat, v: nat)
    requires b < n && k < K && v < vw
    ensures k * vw + v < K * vw && v * K + k < K * vw
    ensures Mixed(K, vw, b, k, v) < n * (K * vw) && Plain(K, vw, b, k, v) < n * (K * vw)
  {
    MixedRadix(v, k, vw, K);
    MixedRadix(k, v, K, vw);
    Commute(K, vw);
    MixedRadix(k * vw + v, b, K * vw, n);
    MixedRadix(v * K + k, b, K * vw, n);
  }

  lemma FromMixed(K: nat, vw: nat, b: nat, k: nat, v: nat)
    requires k < K && v < vw
    ensures From(K, vw, Mixed(K, vw, b, k, v)) == Plain(K, vw, b, k, v)
  {
    Bounds(K, vw, b + 1, b, k, v);
    DivisionIsUnique(Mixed(K, vw, b, k, v), K * vw, b, k * vw + v);
    DivisionIsUnique(k * vw + v, vw, k, v);
  }

  lemma ToPlain(K: nat, vw: nat, b: nat, k: nat, v: nat)
    requires k < K && v < vw
    ensures To(K, vw, Plain(K, vw, b, k, v)) == Mixed(K, vw, b, k, v)
  {
    Bounds(K, vw, b + 1, b, k, v);
    DivisionIsUnique(Plain(K, vw, b, k, v), K * vw, b, v * K + k);
    DivisionIsUnique(v * K + k, K, v, k);
  }

  // From and To are inverse to each other on the n groups.
  lemma FromAndTo(K: nat, vw: nat, n: nat, y: nat)
    requires K > 0 && vw > 0 && y < n * (K * vw)
    ensures From(K, vw, y) < n * (K * vw) && To(K, vw, From(K, vw, y)) == y
    ensures To(K, vw, y) < n * (K * vw) && From(K, vw, To(K, vw, y)) == y
  {
    hide *;
    var b, k, v := Digits(K, vw, n, y);
    Bounds(K, vw, n, b, k, v);
    FromMixed(K, vw, b, k, v);
    ToPlain(K, vw, b, k, v);
    var b', k', v' := PlainDigits(K, vw, n, y);
    Bounds(K, vw, n, b', k', v');
    ToPlain(K, vw, b', k', v');
    FromMixed(K, vw, b', k', v');
  }

  // The interleaved table.
  ghost predicate Interleaved(t: seq<real>, K: nat, vw: nat, u: seq<real>)
    requires K > 0 && vw > 0
  {
    |u| == 2 * |t| && forall x :: 0 <= x < |u| ==> Copied(t, K, vw, u, x)
  }

  predicate Copied(t: seq<real>, K: nat, vw: nat, u: seq<real>, x: nat)
    requires K > 0 && vw > 0 && x < |u|
  {
    From(K, vw, x / 2) < |t| && u[x] == t[From(K, vw, x / 2)]
  }

  // Every value of the plain table is copied to exactly two places of the interleaved one.
  lemma CopiedTwice(t: seq<real>, K: nat, vw: nat, n: nat, u: seq<real>, z: nat)
    requires K > 0 && vw > 0 && |t| == n * (K * vw) && Interleaved(t, K, vw, u) && z < |t|
    ensures var y := To(K, vw, z); 2 * y + 1 < |u| && u[2 * y] == t[z] && u[2 * y + 1] == t[z]
    ensures forall x :: 0 <= x < |u| ==> (From(K, vw, x / 2) == z <==> x / 2 == To(K, vw, z))
  {
    hide From, To;
    var y := To(K, vw, z);
    FromAndTo(K, vw, n, z);
    assert Copied(t, K, vw, u, 2 * y) && Copied(t, K, vw, u, 2 * y + 1);
    forall x | 0 <= x < |u|
      ensures From(K, vw, x / 2) == z <==> x / 2 == y
    {
      FromAndTo(K, vw, n, x / 2);
    }
  }

  // The loops of makeTable() over the last level.
  method Interleave(t: array<real>, K: nat, vw: nat, ghost n: nat) returns (u: array<real>)
    requires K > 0 && vw > 0 && t.Length == n * (K * vw)
    ensures fresh(u) && Interleaved(t[..], K, vw, u[..])
  {
    hide *;
    u := new real[2 * t.Length](_ => 0.0);
    var tblOffset := 0;
    ghost var b := 0;
    Group(K, vw, 0, n);
    while tblOffset < t.Length
      invariant b <= n && tblOffset == Mixed(K, vw, b, 0, 0) <= t.Length && (tblOffset < t.Length <==> b < n)
      invariant forall x :: 0 <= x < 2 * tblOffset ==> Copied(t[..], K, vw, u[..], x)
      decreases n - b
    {
      for k: nat := 0 to K
        invariant Mixed(K, vw, b, k, 0) <= t.Length
        invariant forall x :: 0 <= x < 2 * Mixed(K, vw, b, k, 0) ==> Copied(t[..], K, vw, u[..], x)
      {
        InGroup(K, vw, b, k, n);
        for v: nat := 0 to vw
          invariant Mixed(K, vw, b, k, v) <= t.Length
          invariant forall x :: 0 <= x < 2 * Mixed(K, vw, b, k, v) ==> Copied(t[..], K, vw, u[..], x)
        {
          Places(K, vw, n, b, k, v, tblOffset);
          FromMixed(K, vw, b, k, v);
          ghost var before := u[..];
          u[(tblOffset + k * vw + v) * 2 + 0] := t[tblOffset + v * K + k];
          u[(tblOffset + k * vw + v) * 2 + 1] := t[tblOffset + v * K + k];
          PairCopied(t[..], K, vw, before, u[..], Mixed(K, vw, b, k, v), Plain(K, vw, b, k, v));
        }
      }
      Group(K, vw, b, n);
      tblOffset := tblOffset + K * vw;
      b := b + 1;
      Group(K, vw, b, n);
    }
    AllCopied(t[..], K, vw, u[..]);
  }

  lemma Group(K: nat, vw: nat, b: nat, n: nat)
    requires K > 0 && vw > 0 && b <= n
    ensures Mixed(K, vw, b, 0, 0) <= n * (K * vw) && (Mixed(K, vw, b, 0, 0) < n * (K * vw) <==> b < n)
    ensures Mixed(K, vw, b + 1, 0, 0) == Mixed(K, vw, b, 0, 0) + K * vw == Mixed(K, vw, b, K, 0)
    ensures Mixed(K, vw, 0, 0, 0) == 0
  {
    Positive(K, vw);
    OneMore(b, K * vw);
    ProductMonotone(b, n, K * vw);
    if b < n {
      ProductStrict(b, n, K * vw);
    }
  }

  lemma InGroup(K: nat, vw: nat, b: nat, k: nat, n: nat)
    requires k < K && vw > 0
    ensures Mixed(K, vw, b, k, vw) == Mixed(K, vw, b, k + 1, 0)
  {
    OneMore(k, vw);
  }

  lemma Places(K: nat, vw: nat, n: nat, b: nat, k: nat, v: nat, off: nat)
    requires b < n && k < K && v < vw && off == Mixed(K, vw, b, 0, 0)
    ensures off + k * vw + v == Mixed(K, vw, b, k, v) < n * (K * vw)
    ensures off + v * K + k == Plain(K, vw, b, k, v) < n * (K * vw)
    ensures Mixed(K, vw, b, k, v + 1) == Mixed(K, vw, b, k, v) + 1
  {
    Bounds(K, vw, n, b, k, v);
  }

  lemma PairCopied(t: seq<real>, K: nat, vw: nat, before: seq<real>, u: seq<real>, y: nat, z: nat)
    requires K > 0 && vw > 0 && 2 * y + 1 < |before| && z < |t| && From(K, vw, y) == z
    requires forall x :: 0 <= x < 2 * y ==> Copied(t, K, vw, before, x)
    requires u == before[y * 2 := t[z]][y * 2 + 1 := t[z]]
    ensures forall x :: 0 <= x < 2 * (y + 1) ==> Copied(t, K, vw, u, x)
  {
    hide From;
    forall x | 0 <= x < 2 * (y + 1)
      ensures Copied(t, K, vw, u, x)
    {
      if x < 2 * y {
        assert Copied(t, K, vw, before, x);
      } else {
        assert x / 2 == y;
      }
    }
  }

  lemma AllCopied(t: seq<real>, K: nat, vw: nat, u: seq<real>)
    requires K > 0 && vw > 0 && |u| == 2 * |t|
    requires forall x :: 0 <= x < 2 * |t| ==> Copied(t, K, vw, u, x)
    ensures Interleaved(t, K, vw, u)
  {
  }
}
