// makeTable() for all levels, generatePerm(), and what the permutations of a plan amount to.
module MakeTables {
  import opened Arithmetic
  import opened Powers
  import opened Bits
  import opened BitPermutation
  import opened Interleaving
  import E = TableEntries
  import T = Tables
  import PathSearch
  import P = Planner

  // What makeTable() is called with for one butterfly width.
  datatype Request = Request(log2len: nat, sign: int, N: nat, K: nat, log2vecwidth: nat,
                             r2: T.Coefficient, sr: T.Coefficient)
  {
    predicate Valid() {
      log2len < 32 && 1 <= N <= 8 && K == T.CONST_K[N]
    }

    function Vecwidth(): (w: nat)
      ensures w > 0
    {
      Pow2(log2vecwidth)
    }

    function At(level: nat): T.Shape {
      T.Shape(log2len, level, sign, N, r2, sr)
    }

    // All butterflies of a level.
    function Values(level: nat): seq<real>
      requires Valid() && N <= level <= log2len
    {
      T.Table(At(level), Pow2(level - N))
    }
  }

  // The entry of the result for a level.
  ghost predicate Made(r: Request, level: nat, t: array?<real>)
    requires r.Valid() && level <= r.log2len
    reads t
  {
    if level < r.N then t == null
    else if level < r.log2len then t != null && t[..] == r.Values(level)
    else if Pow2(r.log2len - r.N) < r.Vecwidth() then t == null
    else t != null && r.K > 0 && Interleaved(r.Values(level), r.K, r.Vecwidth(), t[..])
  }

  // A level gets a table exactly when the planner counts on it.
  lemma MadeWhereNeeded(r: Request, level: nat, t: array?<real>, s: P.Setup)
    requires r.Valid() && r.N <= r.log2len && level <= r.log2len && Made(r, level, t)
    requires s.log2len == r.log2len && s.log2vecwidth == r.log2vecwidth
    ensures t != null <==> P.HasTable(s, r.N, level)
  {
    hide Pow2, T.Table, T.Count, Interleaved, Request.Values, Request.At;
  }

  lemma KIsWidth(r: Request)
    requires r.Valid()
    ensures r.K == 2 + T.Count(r.N) && r.K > 0
  {
    T.ConstKIsCount(r.N);
  }

  // The last level consists of whole groups of vecwidth butterflies.
  lemma WholeGroups(r: Request) returns (n: nat)
    requires r.Valid() && r.N <= r.log2len && Pow2(r.log2len - r.N) >= r.Vecwidth()
    ensures |r.Values(r.log2len)| == n * (r.K * r.Vecwidth())
  {
    hide *;
    RequestIs(r);
    KIsWidth(r);
    var b, v := r.log2len - r.N, r.log2vecwidth;
    Pow2Less(b, v);
    n := Pow2(b - v);
    Pow2Add(b - v, v);
    ValuesSize(r);
    T.SizeIs(r.N, Pow2(b), r.K);
    AllocationIs(r.K, n, Pow2(v));
  }

  lemma RequestIs(r: Request)
    requires r.Valid()
    ensures r.log2len < 32 && 1 <= r.N && r.Vecwidth() == Pow2(r.log2vecwidth) > 0
    ensures r.At(r.N).N == r.N && (r.N <= r.log2len ==> r.At(r.N).Valid())
  {
  }

  lemma ValuesSize(r: Request)
    requires r.Valid() && r.N <= r.log2len
    ensures |r.Values(r.log2len)| == T.Size(r.N, Pow2(r.log2len - r.N))
  {
    T.TableSize(r.At(r.log2len), Pow2(r.log2len - r.N));
  }

  lemma AllocationIs(k: nat, n: nat, v: nat)
    ensures T.Allocation(k, n * v) == n * (k * v)
  {
    Associate(k, n, v);
    Associate(n, k, v);
    Commute(k, n);
  }

  lemma LevelShape(r: Request, level: nat)
    requires r.Valid() && r.N <= level <= r.log2len
    ensures r.At(level).Valid() && r.At(level).N == r.N
    ensures r.At(level).log2len == r.log2len && r.At(level).level == level
    ensures r.Values(level) == T.Table(r.At(level), Pow2(level - r.N))
    ensures r.At(level).r2 == r.r2 && r.At(level).sr == r.sr
  {
    hide T.Table, Pow2;
  }

  lemma MadePlain(r: Request, level: nat, t: array<real>)
    requires r.Valid() && r.N <= level < r.log2len && t[..] == r.Values(level)
    ensures Made(r, level, t)
  {
  }

  lemma MadeLast(r: Request, t: array<real>)
    requires r.Valid() && r.N <= r.log2len && r.K > 0 && Pow2(r.log2len - r.N) >= r.Vecwidth()
    requires r.Vecwidth() > 0 && Interleaved(r.Values(r.log2len), r.K, r.Vecwidth(), t[..])
    ensures Made(r, r.log2len, t)
  {
  }

  lemma MadeNot(r: Request, level: nat)
    requires r.Valid() && level <= r.log2len
    requires level < r.N || (level == r.log2len && Pow2(r.log2len - r.N) < r.Vecwidth())
    ensures Made(r, level, null)
  {
  }

  // One turn of the loop over the levels.
  method MakeOne(r: Request, level: nat, p: array<nat>) returns (t: array?<real>)
    requires r.Valid() && r.N <= level <= r.log2len && T.Sized(r.At(level), p[..])
    modifies p
    ensures Made(r, level, t) && (t != null ==> fresh(t))
  {
    hide *;
    RequestIs(r);
    KIsWidth(r);
    LevelShape(r, level);
    if level == r.log2len && Pow2(r.log2len - r.N) < r.Vecwidth() {
      MadeNot(r, level);
      return null;
    }
    var plain := T.MakeLevel(r.At(level), p, r.K);
    if level == r.log2len {
      ghost var n := WholeGroups(r);
      t := Interleave(plain, r.K, r.Vecwidth(), n);
      MadeLast(r, t);
    } else {
      t := plain;
      MadePlain(r, level, plain);
    }
  }

  lemma SameSize(r: Request, level: nat, p: seq<nat>)
    requires r.Valid() && r.N <= level <= r.log2len
    ensures T.Sized(r.At(level), p) <==> |p| == Cells(r.N)
  {
  }

  function Cells(N: nat): nat {
    (N + 1) * Pow2(N)
  }

  // All tables for one butterfly width.
  method MakeTable(r: Request) returns (tbl: array?<array?<real>>)
    requires r.Valid()
    ensures r.log2len < r.N <==> tbl == null
    ensures tbl != null ==> tbl.Length == r.log2len + 1
    ensures tbl != null ==> forall level :: 0 <= level <= r.log2len ==> Made(r, level, tbl[level])
  {
    hide *;
    if r.log2len < r.N {
      return null;
    }
    var p := new nat[Cells(r.N)](_ => 0);
    var t := new array?<real>[r.log2len + 1](_ => null);
    forall l | 0 <= l < r.N
      ensures Made(r, l, t[l])
    {
      MadeNot(r, l);
    }
    for level: nat := r.N to r.log2len + 1
      invariant forall l :: 0 <= l < level ==> Made(r, l, t[l])
      invariant forall l :: 0 <= l <= r.log2len && t[l] != null ==> fresh(t[l])
    {
      SameSize(r, level, p[..]);
      var made := MakeOne(r, level, p);
      t[level] := made;
    }
    tbl := t;
  }

  // Every table that dispatch reads on a plan is there.  All actions but the last read one, at the
  // width and level of the action; tbl is what MakeTable() returns for that width.
  lemma PlanReadsTables(s: P.Setup, p: seq<P.Action>, i: nat, r: Request, tbl: array?<array?<real>>)
    requires P.Plan(s, p) && i < |p| - 1 && r.Valid()
    requires r.N == p[i].N && r.log2len == s.log2len && r.log2vecwidth == s.log2vecwidth
    requires r.log2len < r.N <==> tbl == null
    requires tbl != null ==> tbl.Length == r.log2len + 1
    requires tbl != null ==> forall level :: 0 <= level <= r.log2len ==> Made(r, level, tbl[level])
    ensures tbl != null && p[i].level < tbl.Length && tbl[p[i].level] != null
  {
    hide P.Plan, Made, Pow2, T.Table;
    P.PlanIsDispatchable(s, p);
    MadeWhereNeeded(r, p[i].level, tbl[p[i].level], s);
  }

  // ---------------------------------------------------------------- what stands where

  // Where value k of butterfly t stands below the last level.
  function Place(K: nat, t: nat, k: nat): nat {
    t * K + k
  }

  // And in the interleaved table, before doubling.
  function MixedPlace(K: nat, vw: nat, t: nat, k: nat): nat
    requires vw > 0
  {
    Mixed(K, vw, t / vw, k, t % vw)
  }

  // Value k of butterfly t: butterflies lie behind one another below the last level, and in groups
  // of vecwidth, value by value and doubled, on the last one.
  ghost predicate ValueIs(r: Request, level: nat, x: seq<real>, t: nat, k: nat, v: real) {
    if level < r.log2len then
      Place(r.K, t, k) < |x| && x[Place(r.K, t, k)] == v
    else
      var y := MixedPlace(r.K, r.Vecwidth(), t, k);
      2 * y + 1 < |x| && x[2 * y] == v && x[2 * y + 1] == v
  }

  lemma PlaceIs(K: nat, t: nat, k: nat)
    ensures Place(K, t, k) == t * K + k
  {
  }

  // v is value z of the table before any interleaving.
  ghost predicate Plainly(r: Request, level: nat, z: nat, v: real)
    requires r.Valid() && r.N <= level <= r.log2len
  {
    z < |r.Values(level)| && r.Values(level)[z] == v
  }

  lemma ValueStands(r: Request, level: nat, x: array<real>, t: nat, k: nat, v: real)
    requires r.Valid() && r.N <= level <= r.log2len && Made(r, level, x) && k < r.K
    requires Plainly(r, level, Place(r.K, t, k), v)
    ensures ValueIs(r, level, x[..], t, k, v)
  {
    hide *;
    PlainlyIs(r, level, Place(r.K, t, k), v);
    MadeIs(r, level, x);
    if level == r.log2len {
      var n := WholeGroups(r);
      CopiedTwice(r.Values(level), r.K, r.Vecwidth(), n, x[..], Place(r.K, t, k));
      PlainPlace(r.K, r.Vecwidth(), t, k);
    }
    ValueIsAt(r, level, x[..], t, k, v);
  }

  lemma PlainlyIs(r: Request, level: nat, z: nat, v: real)
    requires r.Valid() && r.N <= level <= r.log2len
    ensures Plainly(r, level, z, v) <==> z < |r.Values(level)| && r.Values(level)[z] == v
  {
    hide T.Table;
  }

  lemma PlainPlace(K: nat, vw: nat, t: nat, k: nat)
    requires vw > 0 && k < K
    ensures To(K, vw, Place(K, t, k)) == MixedPlace(K, vw, t, k)
  {
    var b, v := t / vw, t % vw;
    assert t == b * vw + v;
    ToPlain(K, vw, b, k, v);
    Distribute(b * vw, v, K);
    Associate(b, vw, K);
    Commute(vw, K);
  }

  lemma MadeIs(r: Request, level: nat, x: array<real>)
    requires r.Valid() && r.N <= level <= r.log2len && Made(r, level, x)
    ensures level < r.log2len ==> x[..] == r.Values(level)
    ensures level == r.log2len ==> r.Vecwidth() > 0 && r.K > 0 && Pow2(r.log2len - r.N) >= r.Vecwidth()
    ensures level == r.log2len ==> Interleaved(r.Values(level), r.K, r.Vecwidth(), x[..])
  {
  }

  lemma ValueIsAt(r: Request, level: nat, x: seq<real>, t: nat, k: nat, v: real)
    requires level < r.log2len ==> Place(r.K, t, k) < |x| && x[Place(r.K, t, k)] == v
    requires level >= r.log2len ==>
      var y := MixedPlace(r.K, r.Vecwidth(), t, k);
      2 * y + 1 < |x| && x[2 * y] == v && x[2 * y + 1] == v
    ensures ValueIs(r, level, x, t, k, v)
  {
  }

  // The first pair of a butterfly: cosine and sine at its angle.
  lemma PairIsMade(r: Request, level: nat, x: array<real>, t: nat)
    requires r.Valid() && r.N <= level <= r.log2len && Made(r, level, x) && t < Pow2(level - r.N)
    ensures r.At(level).Valid()
    ensures var sc := r.r2(E.PairAngle(r.At(level), t), level - r.N + 1);
      ValueIs(r, level, x[..], t, 0, sc.1) && ValueIs(r, level, x[..], t, 1, sc.0)
  {
    hide *;
    KIsWidth(r);
    RequestIs(r);
    LevelShape(r, level);
    var a := E.PairAngle(r.At(level), t);
    var sc := r.r2(a, level - r.N + 1);
    E.FirstPairStands(r.At(level), t);
    E.SizeIsPlace(r.N, t, r.K);
    PlaceIs(r.K, t, 0);
    PlaceIs(r.K, t, 1);
    E.PairIs(r.At(level), r.Values(level), Place(r.K, t, 0), a);
    PlainlyIs(r, level, Place(r.K, t, 0), sc.1);
    PlainlyIs(r, level, Place(r.K, t, 1), sc.0);
    ValueStands(r, level, x, t, 0, sc.1);
    ValueStands(r, level, x, t, 1, sc.0);
  }

  // Four values from place k of butterfly t on.
  ghost predicate FourAre(r: Request, level: nat, x: seq<real>, t: nat, k: nat, c: (real, real), d: (real, real)) {
    && ValueIs(r, level, x, t, k, c.0) && ValueIs(r, level, x, t, k + 1, c.1)
    && ValueIs(r, level, x, t, k + 2, d.0) && ValueIs(r, level, x, t, k + 3, d.1)
  }

  lemma FourStand(r: Request, level: nat, x: array<real>, t: nat, k: nat, c: (real, real), d: (real, real))
    requires r.Valid() && r.N <= level <= r.log2len && Made(r, level, x) && k + 4 <= r.K
    requires Plainly(r, level, Place(r.K, t, k), c.0) && Plainly(r, level, Place(r.K, t, k + 1), c.1)
    requires Plainly(r, level, Place(r.K, t, k + 2), d.0) && Plainly(r, level, Place(r.K, t, k + 3), d.1)
    ensures FourAre(r, level, x[..], t, k, c, d)
  {
    hide Made, ValueIs, Pow2, T.Table, Place, Plainly;
    ValueStands(r, level, x, t, k, c.0);
    ValueStands(r, level, x, t, k + 1, c.1);
    ValueStands(r, level, x, t, k + 2, d.0);
    ValueStands(r, level, x, t, k + 3, d.1);
  }

  // The four values of point i of the block of its sublevel that begins at off: minus both
  // coefficients at the angle of the point.
  lemma PointIsMade(r: Request, level: nat, x: array<real>, t: nat, l: nat, start: nat, off: nat, i: nat)
    requires r.Valid() && r.N <= level <= r.log2len && Made(r, level, x) && t < Pow2(level - r.N)
    requires l + 1 < r.N && E.Begins(r.N, l, start, off) && i < Pow2(r.N - l) / 4
    ensures r.At(level).Valid()
    ensures var a := E.PointAngle(r.At(level), t, l, start + i);
      var c, d := r.r2(a, level - l), r.sr(a, level - l);
      FourAre(r, level, x[..], t, 2 + off + 4 * i, (-c.0, -c.1), (-d.0, -d.1))
  {
    hide *;
    KIsWidth(r);
    RequestIs(r);
    LevelShape(r, level);
    var a, k := E.PointAngle(r.At(level), t, l, start + i), 2 + off + 4 * i;
    var c, d := r.r2(a, level - l), r.sr(a, level - l);
    E.QuadrupleStands(r.At(level), t, l, start, off, i);
    E.PlaceInBlock(r.N, l, start, off, i);
    E.SizeIsPlace(r.N, t, r.K);
    PlaceIs(r.K, t, k);
    PlaceIs(r.K, t, k + 1);
    PlaceIs(r.K, t, k + 2);
    PlaceIs(r.K, t, k + 3);
    var z := Place(r.K, t, k);
    E.PointIs(r.At(level), r.Values(level), z, a, l);
    PlainlyIs(r, level, z, -c.0);
    PlainlyIs(r, level, z + 1, -c.1);
    PlainlyIs(r, level, z + 2, -d.0);
    PlainlyIs(r, level, z + 3, -d.1);
    FourStand(r, level, x, t, k, (-c.0, -c.1), (-d.0, -d.1));
  }

  // ---------------------------------------------------------------- generatePerm()

  // Entry t of the permutation row of an action: twice the first point of the butterfly that
  // starts with vector t, and zero behind the last one.
  function PermEntry(log2len: nat, vecwidth: nat, a: P.Action, t: nat): nat
    requires 1 <= log2len < 32 && a.N <= log2len
  {
    if t * vecwidth < Pow2(log2len - a.N) then
      2 * Uperm(log2len, t * vecwidth, log2len - a.level, log2len - (a.level - a.N))
    else 0
  }

  ghost predicate PermRow(log2len: nat, vecwidth: nat, a: P.Action, perm: array2<nat>)
    requires 1 <= log2len < 32 && a.N <= log2len && a.level < perm.Length0
    reads perm
  {
    forall t :: 0 <= t < perm.Length1 ==> perm[a.level, t] == PermEntry(log2len, vecwidth, a, t)
  }

  // Fills the row of one action.
  method FillRow(perm: array2<nat>, log2len: nat, vecwidth: nat, a: P.Action)
    requires 1 <= log2len < 32 && vecwidth > 0 && a.N <= log2len && a.level <= log2len
    requires perm.Length0 == log2len + 1 && perm.Length1 == Pow2(log2len) + 8
    modifies perm
    ensures PermRow(log2len, vecwidth, a, perm)
    ensures forall l, t :: 0 <= l <= log2len && l != a.level && 0 <= t < perm.Length1 ==> perm[l, t] == old(perm[l, t])
  {
    hide Uperm, Pow2;
    var i1: nat := 0;
    var i0: nat := 0;
    Pow2Monotone(log2len - a.N, log2len);
    while i0 < Pow2(log2len - a.N)
      invariant i0 == i1 * vecwidth && i1 <= Pow2(log2len)
      invariant forall t :: 0 <= t < i1 ==> perm[a.level, t] == PermEntry(log2len, vecwidth, a, t)
      invariant forall l, t :: 0 <= l <= log2len && l != a.level && 0 <= t < perm.Length1 ==>
        perm[l, t] == old(perm[l, t])
      decreases Pow2(log2len - a.N) - i0
    {
      perm[a.level, i1] := 2 * Uperm(log2len, i0, log2len - a.level, log2len - (a.level - a.N));
      OneMore(i1, vecwidth);
      ProductMonotone(1, vecwidth, i1);
      i0 := i0 + vecwidth;
      i1 := i1 + 1;
    }
    while i1 < Pow2(log2len) + 8
      invariant i1 <= Pow2(log2len) + 8 && Pow2(log2len - a.N) <= i1 * vecwidth
      invariant forall t :: 0 <= t < i1 ==> perm[a.level, t] == PermEntry(log2len, vecwidth, a, t)
      invariant forall l, t :: 0 <= l <= log2len && l != a.level && 0 <= t < perm.Length1 ==>
        perm[l, t] == old(perm[l, t])
    {
      perm[a.level, i1] := 0;
      OneMore(i1, vecwidth);
      i1 := i1 + 1;
    }
  }

  // The number of actions that get a row: the source stops at level 0.
  function Rows(path: seq<P.Action>): (r: nat)
    ensures r <= |path| && forall i :: 0 <= i < r ==> path[i].level > 0
    ensures r < |path| ==> path[r].level == 0
  {
    if path == [] || path[0].level == 0 then 0 else 1 + Rows(path[1..])
  }

  // No later action of the path has the same level.
  predicate LastOfLevel(path: seq<P.Action>, i: nat, k: nat)
    requires i < k <= |path|
  {
    forall j :: i < j < k ==> path[j].level != path[i].level
  }

  // generatePerm(): every row holds what the last action of its level wrote.
  method GeneratePerm(perm: array2<nat>, log2len: nat, vecwidth: nat, path: seq<P.Action>)
    requires 1 <= log2len < 32 && vecwidth > 0
    requires perm.Length0 == log2len + 1 && perm.Length1 == Pow2(log2len) + 8
    requires forall i :: 0 <= i < |path| ==> path[i].N <= log2len && path[i].level <= log2len
    modifies perm
    ensures forall i :: 0 <= i < Rows(path) && LastOfLevel(path, i, Rows(path)) ==>
      PermRow(log2len, vecwidth, path[i], perm)
  {
    hide PermEntry, Pow2, Rows, LastOfLevel, PermRow;
    ghost var rows := Rows(path);
    var i: nat := 0;
    while i < |path|
      invariant i <= rows <= |path|
      invariant forall j :: 0 <= j < i && LastOfLevel(path, j, i) ==> PermRow(log2len, vecwidth, path[j], perm)
    {
      if path[i].level == 0 {
        break;
      }
      NextRow(perm, log2len, vecwidth, path, i);
      i := i + 1;
    }
  }

  method NextRow(perm: array2<nat>, log2len: nat, vecwidth: nat, path: seq<P.Action>, i: nat)
    requires 1 <= log2len < 32 && vecwidth > 0 && i < |path|
    requires perm.Length0 == log2len + 1 && perm.Length1 == Pow2(log2len) + 8
    requires forall i :: 0 <= i < |path| ==> path[i].N <= log2len && path[i].level <= log2len
    requires forall j :: 0 <= j < i && LastOfLevel(path, j, i) ==> PermRow(log2len, vecwidth, path[j], perm)
    modifies perm
    ensures forall j :: 0 <= j < i + 1 && LastOfLevel(path, j, i + 1) ==> PermRow(log2len, vecwidth, path[j], perm)
  {
    hide PermEntry, Pow2;
    FillRow(perm, log2len, vecwidth, path[i]);
    forall j | 0 <= j < i + 1 && LastOfLevel(path, j, i + 1)
      ensures PermRow(log2len, vecwidth, path[j], perm)
    {
      if j < i {
        assert LastOfLevel(path, j, i) && path[j].level != path[i].level;
        assert old(PermRow(log2len, vecwidth, path[j], perm));
      }
    }
  }

  // ---------------------------------------------------------------- the permutations of a plan

  // Every action of a plan gets its own row.
  lemma PlanRows(s: P.Setup, p: seq<P.Action>)
    requires P.Plan(s, p)
    ensures Rows(p) == |p| && forall i :: 0 <= i < |p| ==> LastOfLevel(p, i, |p|)
    ensures forall i :: 0 <= i < |p| ==> 1 <= p[i].N < s.log2len && p[i].N <= p[i].level <= s.log2len
  {
    assert forall i :: 0 <= i < |p| ==> P.Executable(s, p[i]) && 1 <= p[i].N < s.log2len && p[i].level >= 1;
    hide P.Executable;
    forall i, j | 0 <= i < j < |p|
      ensures p[j].level < p[i].level
    {
      LevelsFall(s, p, i, j);
    }
  }

  lemma {:induction false} LevelsFall(s: P.Setup, p: seq<P.Action>, i: nat, j: nat)
    requires P.Plan(s, p) && i < j < |p|
    ensures p[j].level < p[i].level
  {
    assert P.Linked(p[j - 1], p[j]) && P.Executable(s, p[j - 1]);
    hide P.Executable;
    if i < j - 1 {
      LevelsFall(s, p, i, j - 1);
    }
  }

  // The row of an action leads to all points of its butterflies: point i of the butterfly of vector
  // t is rev(i) << d behind half of the entry, and that is where the permutation puts it.
  lemma RowStartsButterflies(n: nat, vecwidth: nat, a: P.Action, t: nat, i0: nat, i: nat)
    requires 1 <= a.N <= a.level <= n < 32 && i0 == t * vecwidth && i0 < Pow2(n - a.N) && i < Pow2(a.N)
    ensures PermEntry(n, vecwidth, a, t) == 2 * Uperm(n, i0, n - a.level, n - a.level + a.N)
    ensures Uperm(n, i0, n - a.level, n - a.level + a.N) + Shl(Reversed(a.N, i), n - a.level) ==
      Uperm(n, i0 + Shl(i, n - a.N), n - a.level, n - a.level + a.N)
  {
    hide Uperm, Reversed, Pow2, Shl;
    ButterflyIndex(n, a.N, n - a.level, i0, i);
  }

  // Each action takes over at the level the one before leaves.
  ghost predicate Chain(p: seq<P.Action>) {
    && (forall i :: 0 <= i < |p| ==> p[i].N <= p[i].level)
    && forall i, j :: 0 <= i && j == i + 1 && j < |p| ==> p[j].level == p[i].level - p[i].N
  }

  // Where the stages of a path put index k.
  function PathMap(n: nat, k: nat, p: seq<P.Action>): nat
    requires 1 <= n < 32
    decreases |p|
  {
    if p == [] then k else PathMap(n, Uperm(n, k, n - p[0].level, n - (p[0].level - p[0].N)), p[1..])
  }

  lemma {:induction false} ChainStages(n: nat, k: nat, p: seq<P.Action>)
    requires 1 <= n < 32 && p != [] && Chain(p) && p[0].level <= n
    ensures PathMap(n, k, p) == Stages(n, k, n - p[0].level, P.Widths(p))
    ensures Sum(P.Widths(p)) == p[0].level - PathSearch.Last(p).level + PathSearch.Last(p).N
    decreases |p|
  {
    hide Uperm;
    var rest := p[1..];
    var k' := Uperm(n, k, n - p[0].level, n - (p[0].level - p[0].N));
    assert P.Widths(p)[1..] == P.Widths(rest);
    if rest != [] {
      assert rest[0] == p[1] && PathSearch.Last(rest) == PathSearch.Last(p);
      assert Chain(rest) by {
        forall i, j | 0 <= i && j == i + 1 && j < |rest|
          ensures rest[j].level == rest[i].level - rest[i].N
        {
          assert p[j + 1].level == p[i + 1].level - p[i + 1].N;
        }
      }
      ChainStages(n, k', rest);
    } else {
      assert P.Widths(p) == [p[0].N] && P.Widths(rest) == [];
      assert PathMap(n, k', rest) == k' && Stages(n, k', n - p[0].level + p[0].N, []) == k';
    }
  }

  // Whatever plan the planner picks, its stages together reverse the bits of every index.
  lemma PlanReverses(s: P.Setup, p: seq<P.Action>, k: nat, j: nat)
    requires s.Valid() && P.Plan(s, p) && k < Pow2(s.log2len)
    ensures PathMap(s.log2len, k, p) < Pow2(s.log2len)
    ensures j < s.log2len ==> Bit(PathMap(s.log2len, k, p), j) == Bit(k, s.log2len - 1 - j)
  {
    hide Uperm, Stages, Bit, Pow2, P.Executable, PathMap;
    assert Chain(p) by {
      PlanRows(s, p);
      assert forall i, j :: 0 <= i && j == i + 1 && j < |p| ==> P.Linked(p[i], p[j]);
    }
    ChainStages(s.log2len, k, p);
    StagesReverse(s.log2len, k, P.Widths(p), j);
  }
}
