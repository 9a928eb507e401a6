// The coefficient tables of the butterflies.
module Tables {
  import opened Arithmetic
  import opened Powers
  import opened Bits
  import opened BitPermutation

  // The coefficient functions are not interpreted.
  type Coefficient = (int, int) -> (real, real)

  // One run over a level: r2 and sr are r2coefsc and srcoefsc for the length at hand.
  datatype Shape = Shape(log2len: nat, level: nat, sign: int, N: nat, r2: Coefficient, sr: Coefficient) {
    predicate Valid() {
      1 <= N <= level <= log2len
    }
  }

  // Number of values that makeTableRecurse() writes for a block of 2^m points.
  function Count(m: nat): nat {
    if m < 2 then 0 else Pow2(m) + Count(m - 1) + 2 * Count(m - 2)
  }

  // x with its low k bits cleared.
  function ClearLow(x: nat, k: nat): nat {
    Shl(Shr(x, k), k)
  }

  function Index(s: Shape, l: nat, at: nat): nat {
    l * Pow2(s.N) + at
  }

  function Angle(s: Shape, p: seq<nat>, l: nat, at: nat): int
    requires s.Valid() && l <= s.N && Index(s, l, at) < |p|
  {
    s.sign * ClearLow(p[Index(s, l, at)], s.log2len - (s.level - l))
  }

  // The four values of one point.
  function Leaf(s: Shape, p: seq<nat>, l: nat, at: nat): (r: seq<real>)
    requires s.Valid() && l <= s.N && Index(s, l, at) < |p|
    ensures |r| == 4
  {
    var a := Angle(s, p, l, at);
    [-s.r2(a, s.level - l).0, -s.r2(a, s.level - l).1, -s.sr(a, s.level - l).0, -s.sr(a, s.level - l).1]
  }

  function Leaves(s: Shape, p: seq<nat>, l: nat, at: nat, w: nat): (r: seq<real>)
    requires s.Valid() && l <= s.N && Index(s, l, at) + w <= |p|
    ensures |r| == 4 * w
  {
    if w == 0 then [] else Leaves(s, p, l, at, w - 1) + Leaf(s, p, l, at + w - 1)
  }

  // The table p has a row of 2^N positions for every sublevel.
  ghost predicate Sized(s: Shape, p: seq<nat>) {
    s.Valid() && |p| == (s.N + 1) * Pow2(s.N)
  }

  lemma InTable(s: Shape, p: seq<nat>, l: nat, at: nat, w: nat)
    requires Sized(s, p) && l <= s.N && at + w <= Pow2(s.N)
    ensures Index(s, l, at) + w <= |p|
  {
    ProductMonotone(l + 1, s.N + 1, Pow2(s.N));
    OneMore(l, Pow2(s.N));
  }

  // Where block c - 1 of c lies, and where its halves go.
  lemma BlockBounds(N: nat, l: nat, top: nat, c: nat)
    requires l + 1 < N && c > 0 && top + c * Pow2(N - l) <= Pow2(N)
    ensures var bl := Pow2(N - l); var start := top + (c - 1) * bl;
      && bl % 4 == 0 && bl == 2 * Pow2(N - l - 1) == 4 * Pow2(N - l - 2)
      && top + (c - 1) * bl <= Pow2(N) && start + bl <= Pow2(N)
      && start + 1 * Pow2(N - (l + 1)) <= Pow2(N) && start + bl / 2 + 2 * Pow2(N - (l + 2)) == start + bl
  {
    hide Pow2;
    Quarters(N - l);
    OneMore(c - 1, Pow2(N - l));
  }

  lemma Quarters(m: nat)
    requires m >= 2
    ensures Pow2(m) == 2 * Pow2(m - 1) && Pow2(m - 1) == 2 * Pow2(m - 2) && Pow2(m) % 4 == 0
  {
    FourTimes(Pow2(m - 2));
  }

  lemma FourTimes(u: nat)
    ensures 2 * (2 * u) % 4 == 0
  {
  }

  lemma CountStep(m: nat)
    requires m >= 2
    ensures Count(m) == 4 * (Pow2(m) / 4) + (1 * Count(m - 1) + 2 * Count(m - 2))
  {
    CountIs(m);
    Quarters(m);
    hide *;
  }

  lemma CountIs(m: nat)
    requires m >= 2
    ensures Count(m) == Pow2(m) + Count(m - 1) + 2 * Count(m - 2)
  {
    hide Pow2;
  }

  // A block of 2^(N - l) points from position start on: a quarter of its points, then its lower
  // half at the next level and its upper half as two blocks at the level after that.
  function Block(s: Shape, p: seq<nat>, l: nat, start: nat): (r: seq<real>)
    requires Sized(s, p) && l + 1 < s.N && start + Pow2(s.N - l) <= Pow2(s.N)
    ensures |r| == Count(s.N - l)
    decreases s.N - l, 0
  {
    BlockBounds(s.N, l, start, 1);
    CountStep(s.N - l);
    hide Pow2, Count, Leaves;
    var bl := Pow2(s.N - l);
    InTable(s, p, l, start, bl / 4);
    Leaves(s, p, l, start, bl / 4) + (Blocks(s, p, l + 1, start, 1) + Blocks(s, p, l + 2, start + bl / 2, 2))
  }

  lemma NoCount(m: nat, c: nat)
    ensures m < 2 ==> c * Count(m) == 0
    ensures 0 * Count(m) == 0
  {
  }

  // c blocks of 2^(N - l) points from position top on.
  function Blocks(s: Shape, p: seq<nat>, l: nat, top: nat, c: nat): (r: seq<real>)
    requires Sized(s, p) && l <= s.N && top + c * Pow2(s.N - l) <= Pow2(s.N)
    ensures |r| == c * Count(s.N - l)
    decreases s.N - l, c
  {
    NoCount(s.N - l, c);
    if c == 0 || l + 1 >= s.N then []
    else
      OneMore(c - 1, Pow2(s.N - l));
      OneMore(c - 1, Count(s.N - l));
      hide Pow2, Count;
      Blocks(s, p, l, top, c - 1) + Block(s, p, l, top + (c - 1) * Pow2(s.N - l))
  }

  // after is before with v written at position at.
  ghost predicate Wrote(before: seq<real>, after: seq<real>, at: nat, v: seq<real>) {
    at + |v| <= |before| && after == before[..at] + v + before[at + |v|..]
  }

  lemma WroteNothing(x: seq<real>, at: nat)
    requires at <= |x|
    ensures Wrote(x, x, at, [])
  {
  }

  lemma WroteTwice(a: seq<real>, b: seq<real>, c: seq<real>, at: nat, v: seq<real>, w: seq<real>)
    requires Wrote(a, b, at, v) && Wrote(b, c, at + |v|, w)
    ensures |a| == |b| == |c| && Wrote(a, c, at, v + w)
  {
    assert b[..at + |v|] == a[..at] + v;
    assert b[at + |v| + |w|..] == a[at + |v| + |w|..];
  }

  lemma LeavesGrow(s: Shape, p: seq<nat>, l: nat, at: nat, i: nat)
    requires s.Valid() && l <= s.N && Index(s, l, at) + i + 1 <= |p|
    ensures Leaves(s, p, l, at, 0) == []
    ensures Leaves(s, p, l, at, i + 1) == Leaves(s, p, l, at, i) + Leaf(s, p, l, at + i)
  {
  }

  // The values of w points.
  method FillLeaves(s: Shape, x: array<real>, p: array<nat>, l: nat, at: nat, w: nat, cnt: nat) returns (r: nat)
    requires s.Valid() && l <= s.N && 0 < w && Index(s, l, at) + w <= p.Length && cnt + 4 * w <= x.Length
    modifies x
    ensures r == cnt + 4 * w && Wrote(old(x[..]), x[..], cnt, Leaves(s, p[..], l, at, w))
  {
    hide Leaf, Leaves, Pow2, Wrote;
    r := cnt;
    WroteNothing(x[..], cnt);
    LeavesGrow(s, p[..], l, at, 0);
    for i: nat := 0 to w
      invariant r == cnt + 4 * i && Wrote(old(x[..]), x[..], cnt, Leaves(s, p[..], l, at, i))
    {
      ghost var before := x[..];
      r := PutLeaf(s, x, p, l, at + i, r);
      LeavesGrow(s, p[..], l, at, i);
      WroteTwice(old(x[..]), before, x[..], cnt, Leaves(s, p[..], l, at, i), Leaf(s, p[..], l, at + i));
    }
  }

  method PutLeaf(s: Shape, x: array<real>, p: array<nat>, l: nat, at: nat, cnt: nat) returns (r: nat)
    requires s.Valid() && l <= s.N && Index(s, l, at) < p.Length && cnt + 4 <= x.Length
    modifies x
    ensures r == cnt + 4 && Wrote(old(x[..]), x[..], cnt, Leaf(s, p[..], l, at))
  {
    hide Pow2, ClearLow;
    var a := Angle(s, p[..], l, at);
    var sc := s.r2(a, s.level - l);
    x[cnt] := -sc.0;
    x[cnt + 1] := -sc.1;
    sc := s.sr(a, s.level - l);
    x[cnt + 2] := -sc.0;
    x[cnt + 3] := -sc.1;
    r := cnt + 4;
  }

  lemma Widths(N: nat, l: nat, top: nat, bot: nat, c: nat)
    requires l + 1 < N && 1 <= c <= 2 && bot == top + c * Pow2(N - l)
    ensures bot - top >= 4 && (bot - top) / Pow2(N - l) == c
    ensures bot - top == 4 <==> c == 1 && l + 2 == N
    ensures l + 2 == N ==> Pow2(N - l) == 4
  {
    var m := N - l;
    assert Pow2(m - 1) == 2 * Pow2(m - 2);
    if m > 2 {
      assert Pow2(m - 2) == 2 * Pow2(m - 3);
    } else {
      assert Pow2(0) == 1;
    }
    DivisionIsUnique(bot - top, Pow2(N - l), c, 0);
  }

  lemma BlocksGrow(s: Shape, p: seq<nat>, l: nat, top: nat, j: nat, c: nat)
    requires Sized(s, p) && l + 1 < s.N && j < c && top + c * Pow2(s.N - l) <= Pow2(s.N)
    ensures top + j * Pow2(s.N - l) + Pow2(s.N - l) <= top + (j + 1) * Pow2(s.N - l) <= Pow2(s.N)
    ensures Blocks(s, p, l, top, 0) == []
    ensures Blocks(s, p, l, top, j + 1) == Blocks(s, p, l, top, j) + Block(s, p, l, top + j * Pow2(s.N - l))
    ensures (j + 1) * Count(s.N - l) == j * Count(s.N - l) + Count(s.N - l) <= c * Count(s.N - l)
  {
    OneMore(j, Pow2(s.N - l));
    OneMore(j, Count(s.N - l));
    ProductMonotone(j + 1, c, Pow2(s.N - l));
    ProductMonotone(j + 1, c, Count(s.N - l));
    hide Pow2, Count, Block;
  }

  lemma SmallBlock(s: Shape, p: seq<nat>, l: nat, at: nat)
    requires Sized(s, p) && l + 2 == s.N && at + Pow2(s.N - l) <= Pow2(s.N) && Index(s, l, at) < |p|
    ensures Block(s, p, l, at) == Leaf(s, p, l, at) && Count(s.N - l) == 4
  {
    hide Leaf;
    assert Pow2(2) == 4 && Count(2) == 4;
    BlockBounds(s.N, l, at, 1);
    assert Blocks(s, p, l + 1, at, 1) == [] && Blocks(s, p, l + 2, at + 2, 2) == [];
    assert Leaves(s, p, l, at, 0) == [];
    assert Leaves(s, p, l, at, 1) == Leaf(s, p, l, at);
  }

  lemma BlockIs(s: Shape, p: seq<nat>, l: nat, start: nat)
    requires Sized(s, p) && l + 1 < s.N && start + Pow2(s.N - l) <= Pow2(s.N)
    ensures var bl := Pow2(s.N - l);
      && bl / 4 > 0 && Index(s, l, start) + bl / 4 <= |p|
      && start + 1 * Pow2(s.N - (l + 1)) == start + bl / 2 && start + bl / 2 + 2 * Pow2(s.N - (l + 2)) == start + bl
      && Block(s, p, l, start) == Leaves(s, p, l, start, bl / 4) +
           (Blocks(s, p, l + 1, start, 1) + Blocks(s, p, l + 2, start + bl / 2, 2))
      && Count(s.N - l) == 4 * (bl / 4) + (1 * Count(s.N - (l + 1)) + 2 * Count(s.N - (l + 2)))
  {
    hide *;
    SizedIs(s, p);
    BlockBounds(s.N, l, start, 1);
    CountStep(s.N - l);
    InTable(s, p, l, start, Pow2(s.N - l) / 4);
    BlockUnfolds(s, p, l, start);
    QuarterIsPositive(s.N, l);
  }

  lemma QuarterIsPositive(N: nat, l: nat)
    requires l + 1 < N
    ensures Pow2(N - l) / 4 > 0
  {
    assert Pow2(N - l) == 4 * Pow2(N - l - 2);
  }

  lemma BlockUnfolds(s: Shape, p: seq<nat>, l: nat, start: nat)
    requires Sized(s, p) && l + 1 < s.N && start + Pow2(s.N - l) <= Pow2(s.N)
    requires Index(s, l, start) + Pow2(s.N - l) / 4 <= |p| && start + 1 * Pow2(s.N - (l + 1)) <= Pow2(s.N)
    requires start + Pow2(s.N - l) / 2 + 2 * Pow2(s.N - (l + 2)) <= Pow2(s.N)
    ensures Block(s, p, l, start) == Leaves(s, p, l, start, Pow2(s.N - l) / 4) +
      (Blocks(s, p, l + 1, start, 1) + Blocks(s, p, l + 2, start + Pow2(s.N - l) / 2, 2))
  {
    hide Pow2, Count, Leaves, Blocks, Sized, Index;
  }

  // The body of the loop over the blocks.
  method RecurseBlock(s: Shape, x: array<real>, p: array<nat>, l: nat, start: nat, cnt: nat) returns (r: nat)
    requires Sized(s, p[..]) && l + 1 < s.N && start + Pow2(s.N - l) <= Pow2(s.N) && cnt + Count(s.N - l) <= x.Length
    modifies x
    ensures r == cnt + Count(s.N - l) && Wrote(old(x[..]), x[..], cnt, Block(s, p[..], l, start))
    decreases s.N - l, 0
  {
    hide *;
    SizedIs(s, p[..]);
    BlockIs(s, p[..], l, start);
    var bl := Pow2(s.N - l);
    ghost var a := Leaves(s, p[..], l, start, bl / 4);
    ghost var b, c := Blocks(s, p[..], l + 1, start, 1), Blocks(s, p[..], l + 2, start + bl / 2, 2);
    ghost var x0 := x[..];
    r := FillLeaves(s, x, p, l, start, bl / 4, cnt);
    ghost var x1 := x[..];
    r := Recurse(s, x, p, l + 1, start, start + bl / 2, r, 1);
    ghost var x2 := x[..];
    r := Recurse(s, x, p, l + 2, start + bl / 2, start + bl, r, 2);
    WroteTwice(x1, x2, x[..], cnt + |a|, b, c);
    WroteTwice(x0, x1, x[..], cnt, a, b + c);
  }

  lemma SizedIs(s: Shape, p: seq<nat>)
    requires Sized(s, p)
    ensures s.Valid() && 1 <= s.N
  {
  }

  // makeTableRecurse(): the values of the block from top to bot, which is one or two blocks of
  // 2^(N - l) points.
  method Recurse(s: Shape, x: array<real>, p: array<nat>, l: nat, top: nat, bot: nat, cnt: nat, ghost c: nat)
    returns (r: nat)
    requires Sized(s, p[..]) && l <= s.N && 1 <= c <= 2 && bot == top + c * Pow2(s.N - l) <= Pow2(s.N)
    requires cnt + c * Count(s.N - l) <= x.Length
    modifies x
    ensures r == cnt + c * Count(s.N - l) && Wrote(old(x[..]), x[..], cnt, Blocks(s, p[..], l, top, c))
    decreases s.N - l, 1
  {
    hide *;
    SizedIs(s, p[..]);
    WroteNothing(x[..], cnt);
    if l + 1 >= s.N {
      NoCount(s.N - l, c);
      NoBlocks(s, p[..], l, top, c);
      return cnt;
    }
    Widths(s.N, l, top, bot, c);
    r := cnt;
    if bot - top > 4 {
      var bl := Pow2(s.N - l);
      NoCount(s.N - l, 0);
      BlocksGrow(s, p[..], l, top, 0, c);
      for j: nat := 0 to (bot - top) / bl
        invariant r == cnt + j * Count(s.N - l)
        invariant top + j * bl <= Pow2(s.N)
        invariant Wrote(old(x[..]), x[..], cnt, Blocks(s, p[..], l, top, j))
      {
        BlocksGrow(s, p[..], l, top, j, c);
        ghost var before := x[..];
        r := RecurseBlock(s, x, p, l, top + bl * j, r);
        WroteTwice(old(x[..]), before, x[..], cnt, Blocks(s, p[..], l, top, j), Block(s, p[..], l, top + j * bl));
      }
    } else {
      OneBlock(s, p[..], l, top);
      r := PutLeaf(s, x, p, l, top, cnt);
    }
  }

  lemma NoBlocks(s: Shape, p: seq<nat>, l: nat, top: nat, c: nat)
    requires Sized(s, p) && l <= s.N && top + c * Pow2(s.N - l) <= Pow2(s.N) && l + 1 >= s.N
    ensures Blocks(s, p, l, top, c) == []
  {
    hide Pow2;
  }

  lemma OneBlock(s: Shape, p: seq<nat>, l: nat, top: nat)
    requires Sized(s, p) && l + 2 == s.N && top + 1 * Pow2(s.N - l) <= Pow2(s.N)
    ensures Index(s, l, top) < |p| && Blocks(s, p, l, top, 1) == Leaf(s, p, l, top) && 1 * Count(s.N - l) == 4
  {
    hide *;
    SizedIs(s, p);
    QuarterIsPositive(s.N, l);
    InTable(s, p, l, top, 1);
    BlocksGrow(s, p, l, top, 0, 1);
    SmallBlock(s, p, l, top);
  }

  // ---------------------------------------------------------------- the allocation

  // constK: the size of the table of one butterfly of width N.
  const CONST_K: seq<nat> := [0, 2, 6, 14, 38, 94, 230, 542, 1254]

  lemma ConstKIsCount(N: nat)
    requires 1 <= N <= 8
    ensures CONST_K[N] == 2 + Count(N)
  {
    assert Pow2(2) == 4 && Pow2(3) == 8 && Pow2(4) == 16;
    assert Pow2(5) == 32 && Pow2(6) == 64;
    assert Pow2(7) == 128 && Pow2(8) == 256;
    assert Count(2) == 4 && Count(3) == 12;
    assert Count(4) == 36 && Count(5) == 92;
    assert Count(6) == 228 && Count(7) == 540;
    assert Count(8) == 1252;
  }

  function Sign(n: nat): int {
    if n % 2 == 0 then 1 else -1
  }

  // The value the count has in closed form, times 9.
  function ClosedForm(n: nat, u: nat, e: int): int {
    6 * n * u - 4 * u + 4 * e
  }

  lemma {:induction false} CountClosedForm(n: nat)
    ensures 9 * Count(n) == ClosedForm(n, Pow2(n), Sign(n))
  {
    if n == 1 {
      assert Pow2(1) == 2;
    } else if n >= 2 {
      hide ClosedForm, Count, Pow2, Sign;
      CountClosedForm(n - 1);
      CountClosedForm(n - 2);
      CountRecurrence(n);
      ClosedFormStep(n, Pow2(n - 2), Count(n - 1), Count(n - 2), Sign(n));
    }
  }

  lemma CountRecurrence(n: nat)
    requires n >= 2
    ensures Count(n) == 4 * Pow2(n - 2) + Count(n - 1) + 2 * Count(n - 2)
    ensures Pow2(n) == 4 * Pow2(n - 2) && Pow2(n - 1) == 2 * Pow2(n - 2)
    ensures Sign(n - 1) == -Sign(n) && Sign(n - 2) == Sign(n)
  {
  }

  lemma ClosedFormStep(n: nat, u: nat, a: nat, b: nat, e: int)
    requires n >= 2 && 9 * a == ClosedForm(n - 1, 2 * u, -e) && 9 * b == ClosedForm(n - 2, u, e)
    ensures 9 * (4 * u + a + 2 * b) == ClosedForm(n, 4 * u, e)
  {
    assert (n - 1) * (2 * u) == 2 * (n * u) - 2 * u;
    assert (n - 2) * u == n * u - 2 * u;
    assert n * (4 * u) == 4 * (n * u);
  }

  // ---------------------------------------------------------------- makeTable()

  // p[(j << N) + i] for start position i0.
  function Position(s: Shape, i0: nat, at: nat): nat
    requires s.Valid() && s.log2len < 32
  {
    var j, i := at / Pow2(s.N), at % Pow2(s.N);
    Uperm(s.log2len, i0 + i * Pow2(s.log2len - s.N), s.log2len - s.level, s.log2len - (s.level - j))
  }

  function Positions(s: Shape, i0: nat): (p: seq<nat>)
    requires s.Valid() && s.log2len < 32
    ensures Sized(s, p)
  {
    seq((s.N + 1) * Pow2(s.N), at requires 0 <= at => Position(s, i0, at))
  }

  // The angle of the first pair of a butterfly.
  function FirstAngle(s: Shape, p: seq<nat>): int
    requires Sized(s, p)
  {
    InTable(s, p, s.N - 1, 0, 1);
    -s.sign * ClearLow(p[Index(s, s.N - 1, 0)], s.log2len - s.level)
  }

  // The values of one butterfly.
  function Butterfly(s: Shape, p: seq<nat>): (r: seq<real>)
    requires Sized(s, p)
    ensures |r| == 2 + Count(s.N)
  {
    var a := FirstAngle(s, p);
    var sc := s.r2(a, s.level - s.N + 1);
    [sc.1, sc.0] + Blocks(s, p, 0, 0, 1)
  }

  function Start(s: Shape, t: nat): nat
    requires s.Valid()
  {
    t * Pow2(s.log2len - s.level)
  }

  // The size of the values of t butterflies.
  function Size(N: nat, t: nat): nat {
    t * (2 + Count(N))
  }

  lemma SizeStep(N: nat, t: nat)
    ensures Size(N, 0) == 0 && Size(N, t + 1) == Size(N, t) + 2 + Count(N)
  {
    hide Count;
    OneMore(t, 2 + Count(N));
  }

  // The values of the first t butterflies of the level.
  function Table(s: Shape, t: nat): seq<real>
    requires s.Valid() && s.log2len < 32
  {
    if t == 0 then [] else Table(s, t - 1) + Butterfly(s, Positions(s, Start(s, t - 1)))
  }

  lemma {:induction false} TableSize(s: Shape, t: nat)
    requires s.Valid() && s.log2len < 32
    ensures |Table(s, t)| == Size(s.N, t)
  {
    hide Butterfly, Count, Size, Positions;
    if t == 0 {
      SizeStep(s.N, 0);
    } else {
      TableSize(s, t - 1);
      SizeStep(s.N, t - 1);
    }
  }

  lemma RowOf(s: Shape, j: nat, i: nat)
    requires s.Valid() && j <= s.N && i < Pow2(s.N)
    ensures Index(s, j, i) < (s.N + 1) * Pow2(s.N)
    ensures Index(s, j, i) / Pow2(s.N) == j && Index(s, j, i) % Pow2(s.N) == i
    ensures i + 1 == Pow2(s.N) ==> Index(s, j, i) + 1 == Index(s, j + 1, 0)
  {
    ProductMonotone(j + 1, s.N + 1, Pow2(s.N));
    OneMore(j, Pow2(s.N));
    DivisionIsUnique(Index(s, j, i), Pow2(s.N), j, i);
  }

  // Fills p for start position i0.
  method FillPositions(s: Shape, p: array<nat>, i0: nat)
    requires s.Valid() && s.log2len < 32 && Sized(s, p[..])
    modifies p
    ensures p[..] == Positions(s, i0)
  {
    hide Pow2, Uperm, Index;
    IndexIsZero(s);
    for j: nat := 0 to s.N + 1
      invariant Index(s, j, 0) <= p.Length
      invariant forall at :: 0 <= at < Index(s, j, 0) ==> p[at] == Position(s, i0, at)
    {
      for i: nat := 0 to Pow2(s.N)
        invariant Index(s, j, i) <= p.Length
        invariant forall at :: 0 <= at < Index(s, j, i) ==> p[at] == Position(s, i0, at)
      {
        RowOf(s, j, i);
        IndexStep(s, j, i);
        p[Index(s, j, i)] := Uperm(s.log2len, i0 + i * Pow2(s.log2len - s.N), s.log2len - s.level,
          s.log2len - (s.level - j));
      }
      NextRow(s, j);
    }
    FullTable(s);
  }

  lemma IndexIsZero(s: Shape)
    ensures Index(s, 0, 0) == 0
  {
  }

  lemma IndexStep(s: Shape, j: nat, i: nat)
    ensures Index(s, j, i + 1) == Index(s, j, i) + 1
  {
  }

  lemma NextRow(s: Shape, j: nat)
    ensures Index(s, j, Pow2(s.N)) == Index(s, j + 1, 0)
  {
    OneMore(j, Pow2(s.N));
  }

  lemma FullTable(s: Shape)
    ensures Index(s, s.N + 1, 0) == (s.N + 1) * Pow2(s.N)
  {
  }

  // The values of one butterfly, written to the table from tblOffset on.
  method FillButterfly(s: Shape, x: array<real>, p: array<nat>, tblOffset: nat) returns (r: nat)
    requires Sized(s, p[..]) && tblOffset + 2 + Count(s.N) <= x.Length
    modifies x
    ensures r == tblOffset + 2 + Count(s.N) && Wrote(old(x[..]), x[..], tblOffset, Butterfly(s, p[..]))
  {
    hide Pow2, Count, Blocks, ClearLow, Wrote;
    WholeBlock(s.N);
    InTable(s, p[..], s.N - 1, 0, 1);
    ghost var x0 := x[..];
    var a := -s.sign * ClearLow(p[Index(s, s.N - 1, 0)], s.log2len - s.level);
    var sc := s.r2(a, s.level - s.N + 1);
    x[tblOffset] := sc.1;
    x[tblOffset + 1] := sc.0;
    ghost var x1 := x[..];
    WrotePair(x0, x1, tblOffset, sc.1, sc.0);
    r := Recurse(s, x, p, 0, 0, Pow2(s.N), tblOffset + 2, 1);
    WroteTwice(x0, x1, x[..], tblOffset, [sc.1, sc.0], Blocks(s, p[..], 0, 0, 1));
  }

  lemma WholeBlock(N: nat)
    ensures 0 + 1 * Pow2(N - 0) == Pow2(N) && 1 * Count(N - 0) == Count(N)
  {
  }

  lemma WrotePair(x: seq<real>, y: seq<real>, at: nat, u: real, v: real)
    requires at + 2 <= |x| && y == x[at := u][at + 1 := v]
    ensures Wrote(x, y, at, [u, v])
  {
  }

  // K << (level - N).
  function Allocation(K: nat, t: nat): nat {
    K * t
  }

  // The table of a level below the last: exactly filled.
  method MakeLevel(s: Shape, p: array<nat>, K: nat) returns (t: array<real>)
    requires s.Valid() && s.log2len < 32 && Sized(s, p[..]) && K == 2 + Count(s.N)
    modifies p
    ensures fresh(t) && t[..] == Table(s, Pow2(s.level - s.N))
  {
    hide *;
    ShapeIs(s);
    var turns := Pow2(s.level - s.N);
    SizeIs(s.N, turns, K);
    t := new real[Allocation(K, turns)](_ => 0.0);
    ghost var blank := t[..];
    var tblOffset := 0;
    var i0 := 0;
    ghost var n := 0;
    TableStarts(s);
    WroteNothing(blank, 0);
    Turns(s, 0);
    while i0 < Pow2(s.log2len - s.N)
      invariant n <= turns && i0 == Start(s, n) && tblOffset == Size(s.N, n) && Sized(s, p[..])
      invariant Wrote(blank, t[..], 0, Table(s, n)) && t.Length == |blank|
      invariant i0 < Pow2(s.log2len - s.N) <==> n < turns
      decreases turns - n
    {
      Turns(s, n);
      Turns(s, n + 1);
      TableGrows(s, n);
      TableSize(s, n);
      FillPositions(s, p, i0);
      ghost var before := t[..];
      tblOffset := FillButterfly(s, t, p, tblOffset);
      WroteTwice(blank, before, t[..], 0, Table(s, n), Butterfly(s, Positions(s, i0)));
      i0 := i0 + Pow2(s.log2len - s.level);
      n := n + 1;
    }
    TableSize(s, turns);
    WroteAll(blank, t[..], Table(s, turns));
  }

  lemma ShapeIs(s: Shape)
    requires s.Valid()
    ensures 1 <= s.N <= s.level <= s.log2len
  {
  }

  lemma SizeIs(N: nat, t: nat, K: nat)
    requires K == 2 + Count(N)
    ensures Size(N, t) == Allocation(K, t)
  {
    hide Count;
  }

  // The loop over start positions runs once for every butterfly of the level.
  lemma Turns(s: Shape, n: nat)
    requires s.Valid() && n <= Pow2(s.level - s.N)
    ensures Start(s, 0) == 0 && Start(s, n + 1) == Start(s, n) + Pow2(s.log2len - s.level)
    ensures Start(s, n) < Pow2(s.log2len - s.N) <==> n < Pow2(s.level - s.N)
    ensures Size(s.N, n) <= Size(s.N, Pow2(s.level - s.N))
  {
    hide Pow2, Count;
    var u, turns := Pow2(s.log2len - s.level), Pow2(s.level - s.N);
    assert Pow2(s.log2len - s.N) == turns * u by { Pow2Add(s.level - s.N, s.log2len - s.level); }
    OneMore(n, u);
    ProductMonotone(n, turns, 2 + Count(s.N));
    if n < turns {
      ProductStrict(n, turns, u);
    }
  }

  lemma TableStarts(s: Shape)
    requires s.Valid() && s.log2len < 32
    ensures Table(s, 0) == [] && Size(s.N, 0) == 0
  {
    SizeStep(s.N, 0);
  }

  lemma TableGrows(s: Shape, n: nat)
    requires s.Valid() && s.log2len < 32
    ensures Table(s, n + 1) == Table(s, n) + Butterfly(s, Positions(s, Start(s, n)))
    ensures Size(s.N, n + 1) == Size(s.N, n) + 2 + Count(s.N)
  {
    SizeStep(s.N, n);
    hide Butterfly, Count, Size, Positions;
  }

  lemma WroteAll(before: seq<real>, after: seq<real>, v: seq<real>)
    requires Wrote(before, after, 0, v) && |v| == |before|
    ensures after == v
  {
  }
}
