// What stands where in the finished coefficient tables.
module TableEntries {
  import opened Arithmetic
  import opened Powers
  import opened Bits
  import opened BitPermutation
  import opened Tables

  // ---------------------------------------------------------------- where a block begins

  // The recursion comes to the block of 2^(N - l) points from start on when off values of the
  // butterfly have been written after its first pair: the lower half of a block of bl points begins
  // bl values behind the block, and the two quarters of its upper half behind the lower half.
  ghost predicate Begins(N: nat, l: nat, start: nat, off: nat)
    decreases l
  {
    || (l == 0 && start == 0 && off == 0)
    || (1 <= l <= N && BeginsLower(N, l, start, off))
    || (2 <= l <= N && exists quarter: nat :: quarter < 2 && BeginsUpper(N, l, start, off, quarter))
  }

  ghost predicate BeginsLower(N: nat, l: nat, start: nat, off: nat)
    requires 1 <= l <= N
    decreases l, 0
  {
    var bl := Pow2(N - (l - 1));
    off >= bl && Begins(N, l - 1, start, off - bl)
  }

  ghost predicate BeginsUpper(N: nat, l: nat, start: nat, off: nat, quarter: nat)
    requires 2 <= l <= N
    decreases l, 0
  {
    var bl := Pow2(N - (l - 2));
    var past := bl + Count(N - (l - 1)) + quarter * Count(N - l);
    var back := bl / 2 + quarter * (bl / 4);
    off >= past && start >= back && Begins(N, l - 2, start - back, off - past)
  }

  // v stands in x from position at on.
  ghost predicate Stands(x: seq<real>, at: nat, v: seq<real>) {
    at + |v| <= |x| && x[at..at + |v|] == v
  }

  lemma StandsInside(x: seq<real>, y: seq<real>, at: nat, off: nat, v: seq<real>)
    requires Stands(x, at, y) && Stands(y, off, v)
    ensures Stands(x, at + off, v)
  {
    forall i | 0 <= i < |v|
      ensures x[at + off + i] == v[i]
    {
      assert v[i] == y[off..off + |v|][i] && y[off + i] == x[at..at + |y|][off + i];
    }
  }

  lemma StandsBefore(a: seq<real>, b: seq<real>, at: nat, v: seq<real>)
    requires Stands(a, at, v)
    ensures Stands(a + b, at, v)
  {
    SumOfTwo(a, b);
    StandsInside(a + b, a, 0, at, v);
  }

  lemma StandsInSum(a: seq<real>, b: seq<real>, c: seq<real>)
    ensures Stands(a + (b + c), |a|, b) && Stands(a + (b + c), |a| + |b|, c) && Stands(a + (b + c), 0, a)
  {
    var x := a + (b + c);
    assert x[|a|..|a| + |b|] == b && x[|a| + |b|..] == c && x[..|a|] == a;
  }

  lemma OneOfBlocks(s: Shape, p: seq<nat>, l: nat, top: nat)
    requires Sized(s, p) && l + 1 < s.N && top + 1 * Pow2(s.N - l) <= Pow2(s.N)
    ensures Blocks(s, p, l, top, 1) == Block(s, p, l, top)
  {
    hide *;
    SizedIs(s, p);
    BlocksGrow(s, p, l, top, 0, 1);
    Multiples(Pow2(s.N - l));
    NothingBefore(Block(s, p, l, top));
  }

  lemma Multiples(u: nat)
    ensures 0 * u == 0 && 1 * u == u && 2 * u == u + u
  {
  }

  lemma NothingBefore(x: seq<real>)
    ensures [] + x == x
  {
  }

  lemma TwoOfBlocks(s: Shape, p: seq<nat>, l: nat, top: nat)
    requires Sized(s, p) && l + 1 < s.N && top + 2 * Pow2(s.N - l) <= Pow2(s.N)
    ensures top + Pow2(s.N - l) + Pow2(s.N - l) <= Pow2(s.N)
    ensures Blocks(s, p, l, top, 2) == Block(s, p, l, top) + Block(s, p, l, top + Pow2(s.N - l))
  {
    hide *;
    SizedIs(s, p);
    Multiples(Pow2(s.N - l));
    OneOfBlocks(s, p, l, top);
    BlocksGrow(s, p, l, top, 1, 2);
  }

  // The values of a block stand in the values of the whole butterfly where it begins.
  lemma {:induction false} BlockStands(s: Shape, p: seq<nat>, l: nat, start: nat, off: nat)
    requires Sized(s, p) && l + 1 < s.N && Begins(s.N, l, start, off)
    ensures start + Pow2(s.N - l) <= Pow2(s.N) && 0 + Pow2(s.N - 0) <= Pow2(s.N)
    ensures Stands(Block(s, p, 0, 0), off, Block(s, p, l, start))
    decreases l
  {
    hide Pow2, Count, Block, Blocks, Sized, Stands;
    SizedIs(s, p);
    if l == 0 && start == 0 && off == 0 {
      StandsItself(Block(s, p, 0, 0));
    } else if l >= 1 && BeginsLower(s.N, l, start, off) {
      var bl := LowerIs(s.N, l, start, off);
      BlockStands(s, p, l - 1, start, off - bl);
      LowerStands(s, p, l - 1, start);
      StandsInside(Block(s, p, 0, 0), Block(s, p, l - 1, start), off - bl, bl, Block(s, p, l, start));
    } else {
      var quarter: nat :| quarter < 2 && BeginsUpper(s.N, l, start, off, quarter);
      var past, back := UpperIs(s.N, l, start, off, quarter);
      BlockStands(s, p, l - 2, start - back, off - past);
      UpperStands(s, p, l - 2, start - back, quarter);
      StandsInside(Block(s, p, 0, 0), Block(s, p, l - 2, start - back), off - past, past, Block(s, p, l, start));
    }
  }

  lemma LowerIs(N: nat, l: nat, start: nat, off: nat) returns (bl: nat)
    requires 1 <= l <= N && BeginsLower(N, l, start, off)
    ensures bl == Pow2(N - (l - 1)) && off >= bl && Begins(N, l - 1, start, off - bl)
  {
    hide Pow2, Begins;
    bl := Pow2(N - (l - 1));
  }

  // How far a quarter of the upper half lies behind its block.
  lemma UpperIs(N: nat, l: nat, start: nat, off: nat, quarter: nat) returns (past: nat, back: nat)
    requires 2 <= l <= N && BeginsUpper(N, l, start, off, quarter)
    ensures past == Pow2(N - (l - 2)) + Count(N - (l - 1)) + quarter * Count(N - l)
    ensures back == Pow2(N - (l - 2)) / 2 + quarter * (Pow2(N - (l - 2)) / 4)
    ensures off >= past && start >= back && Begins(N, l - 2, start - back, off - past)
  {
    hide Pow2, Count, Begins;
    var bl := Pow2(N - (l - 2));
    past := bl + Count(N - (l - 1)) + quarter * Count(N - l);
    back := bl / 2 + quarter * (bl / 4);
  }

  lemma StandsItself(x: seq<real>)
    ensures Stands(x, 0, x)
  {
    assert x[0..|x|] == x;
  }

  // The parts of a block.
  lemma LowerStands(s: Shape, p: seq<nat>, l: nat, start: nat)
    requires Sized(s, p) && l + 2 < s.N && start + Pow2(s.N - l) <= Pow2(s.N)
    ensures start + Pow2(s.N - (l + 1)) <= Pow2(s.N)
    ensures Stands(Block(s, p, l, start), Pow2(s.N - l), Block(s, p, l + 1, start))
  {
    hide *;
    SizedIs(s, p);
    BlockIs(s, p, l, start);
    BlockBounds(s.N, l, start, 1);
    var bl := Pow2(s.N - l);
    Whole(bl);
    OneOfBlocks(s, p, l + 1, start);
    StandsInSum(Leaves(s, p, l, start, bl / 4), Blocks(s, p, l + 1, start, 1), Blocks(s, p, l + 2, start + bl / 2, 2));
  }

  lemma Whole(bl: nat)
    ensures bl % 4 == 0 ==> 4 * (bl / 4) == bl
  {
  }

  // The two blocks of the upper half.
  lemma QuartersStand(s: Shape, p: seq<nat>, l: nat, start: nat)
    requires Sized(s, p) && l + 3 < s.N && start + Pow2(s.N - l) <= Pow2(s.N)
    ensures var bl, q := Pow2(s.N - l), Pow2(s.N - (l + 2));
      && q == bl / 4 && start + bl / 2 + q + q <= Pow2(s.N)
      && Stands(Block(s, p, l, start), bl + Count(s.N - (l + 1)), Block(s, p, l + 2, start + bl / 2))
      && Stands(Block(s, p, l, start), bl + Count(s.N - (l + 1)) + Count(s.N - (l + 2)),
                Block(s, p, l + 2, start + bl / 2 + q))
  {
    hide *;
    SizedIs(s, p);
    BlockIs(s, p, l, start);
    BlockBounds(s.N, l, start, 1);
    var bl := Pow2(s.N - l);
    Whole(bl);
    var a, b := Leaves(s, p, l, start, bl / 4), Blocks(s, p, l + 1, start, 1);
    var c := Blocks(s, p, l + 2, start + bl / 2, 2);
    StandsInSum(a, b, c);
    TwoOfBlocks(s, p, l + 2, start + bl / 2);
    var x, y := Block(s, p, l + 2, start + bl / 2), Block(s, p, l + 2, start + bl / 2 + Pow2(s.N - (l + 2)));
    SumOfTwo(x, y);
    StandsBefore(x, y, 0, x);
    StandsInside(a + (b + c), c, |a| + |b|, 0, x);
    StandsInside(a + (b + c), c, |a| + |b|, |x|, y);
  }

  lemma UpperStands(s: Shape, p: seq<nat>, l: nat, start: nat, quarter: nat)
    requires Sized(s, p) && l + 3 < s.N && start + Pow2(s.N - l) <= Pow2(s.N) && quarter < 2
    ensures var bl := Pow2(s.N - l);
      var at := start + (bl / 2 + quarter * (bl / 4));
      && at + Pow2(s.N - (l + 2)) <= Pow2(s.N)
      && Stands(Block(s, p, l, start), bl + Count(s.N - (l + 1)) + quarter * Count(s.N - (l + 2)),
                Block(s, p, l + 2, at))
  {
    hide *;
    SizedIs(s, p);
    QuartersStand(s, p, l, start);
    Multiples(Pow2(s.N - l) / 4);
    Multiples(Count(s.N - (l + 2)));
  }

  lemma SumOfTwo(x: seq<real>, y: seq<real>)
    ensures Stands(x + y, 0, x) && Stands(x + y, |x|, y)
  {
    assert (x + y)[0..|x|] == x && (x + y)[|x|..|x| + |y|] == y;
  }

  // ---------------------------------------------------------------- every place belongs to a point

  lemma BlockSize(N: nat, l: nat)
    requires l + 2 <= N
    ensures Pow2(N - l) == 4 * (Pow2(N - l) / 4) == 4 * Pow2(N - l - 2)
    ensures Count(N - l) == Pow2(N - l) + Count(N - (l + 1)) + 2 * Count(N - (l + 2))
  {
    hide Count;
    Quarters(N - l);
    FourTimesBack(Pow2(N - l - 2));
    CountStep(N - l);
  }

  lemma FourTimesBack(u: nat)
    ensures 2 * (2 * u) / 4 == u
  {
  }

  // Place off + pos belongs to one of the four values of point i of a block.
  ghost predicate Covered(N: nat, place: nat, l: nat, start: nat, off: nat, i: nat) {
    l + 1 < N && Begins(N, l, start, off) && i < Pow2(N - l) / 4 && off + 4 * i <= place < off + 4 * i + 4
  }

  lemma {:induction false} PlaceOfPoint(N: nat, l: nat, start: nat, off: nat, pos: nat)
    returns (l': nat, start': nat, off': nat, i: nat)
    requires l <= N && Begins(N, l, start, off) && pos < Count(N - l)
    ensures Covered(N, off + pos, l', start', off', i)
    decreases N - l
  {
    hide *;
    CountIsPositive(N - l);
    BlockSize(N, l);
    var bl, lower, quarter := Pow2(N - l), Count(N - (l + 1)), Count(N - (l + 2));
    if pos < bl {
      l', start', off', i := l, start, off, pos / 4;
      CoveredHere(N, l, start, off, pos);
    } else if pos < bl + lower {
      BeginsNext(N, l, start, off);
      l', start', off', i := PlaceOfPoint(N, l + 1, start, off + bl, pos - bl);
    } else if pos < bl + lower + quarter {
      BeginsAfter(N, l, start, off);
      l', start', off', i := PlaceOfPoint(N, l + 2, start + bl / 2, off + bl + lower, pos - bl - lower);
    } else {
      BeginsLast(N, l, start, off);
      l', start', off', i :=
        PlaceOfPoint(N, l + 2, start + bl / 2 + bl / 4, off + bl + lower + quarter, pos - bl - lower - quarter);
    }
  }

  lemma CountIsPositive(m: nat)
    ensures Count(m) > 0 ==> m >= 2
  {
  }

  lemma CoveredHere(N: nat, l: nat, start: nat, off: nat, pos: nat)
    requires l + 2 <= N && Begins(N, l, start, off) && pos < Pow2(N - l) == 4 * (Pow2(N - l) / 4)
    ensures Covered(N, off + pos, l, start, off, pos / 4)
  {
    hide Begins;
  }

  lemma BeginsNext(N: nat, l: nat, start: nat, off: nat)
    requires l + 1 <= N && Begins(N, l, start, off)
    ensures Begins(N, l + 1, start, off + Pow2(N - l))
  {
    assert BeginsLower(N, l + 1, start, off + Pow2(N - l));
  }

  lemma BeginsAfter(N: nat, l: nat, start: nat, off: nat)
    requires l + 2 <= N && Begins(N, l, start, off)
    ensures Begins(N, l + 2, start + Pow2(N - l) / 2, off + Pow2(N - l) + Count(N - (l + 1)))
  {
    hide Pow2, Count;
    assert BeginsUpper(N, l + 2, start + Pow2(N - l) / 2, off + Pow2(N - l) + Count(N - (l + 1)), 0);
  }

  lemma BeginsLast(N: nat, l: nat, start: nat, off: nat)
    requires l + 2 <= N && Begins(N, l, start, off)
    ensures Begins(N, l + 2, start + Pow2(N - l) / 2 + Pow2(N - l) / 4,
      off + Pow2(N - l) + Count(N - (l + 1)) + Count(N - (l + 2)))
  {
    hide Pow2, Count;
    assert BeginsUpper(N, l + 2, start + Pow2(N - l) / 2 + Pow2(N - l) / 4,
      off + Pow2(N - l) + Count(N - (l + 1)) + Count(N - (l + 2)), 1);
  }

  // ---------------------------------------------------------------- the values

  lemma {:induction false} LeafStands(s: Shape, p: seq<nat>, l: nat, at: nat, w: nat, i: nat)
    requires s.Valid() && l <= s.N && Index(s, l, at) + w <= |p| && i < w
    ensures Stands(Leaves(s, p, l, at, w), 4 * i, Leaf(s, p, l, at + i))
  {
    hide *;
    IndexMoves(s, l, at, i);
    IndexMoves(s, l, at, w - 1);
    LeavesGrow(s, p, l, at, w - 1);
    var a, b := Leaves(s, p, l, at, w - 1), Leaf(s, p, l, at + (w - 1));
    if i < w - 1 {
      LeafStands(s, p, l, at, w - 1, i);
      StandsBefore(a, b, 4 * i, Leaf(s, p, l, at + i));
    } else {
      SumOfTwo(a, b);
    }
  }

  lemma PointInBlock(s: Shape, p: seq<nat>, l: nat, start: nat, i: nat)
    requires Sized(s, p) && l + 1 < s.N && start + Pow2(s.N - l) <= Pow2(s.N) && i < Pow2(s.N - l) / 4
    ensures Index(s, l, start + i) < |p| && Stands(Block(s, p, l, start), 4 * i, Leaf(s, p, l, start + i))
  {
    hide *;
    SizedIs(s, p);
    BlockIs(s, p, l, start);
    IndexMoves(s, l, start, i);
    var a := Leaves(s, p, l, start, Pow2(s.N - l) / 4);
    var b := Blocks(s, p, l + 1, start, 1);
    var c := Blocks(s, p, l + 2, start + Pow2(s.N - l) / 2, 2);
    StandsInSum(a, b, c);
    LeafStands(s, p, l, start, Pow2(s.N - l) / 4, i);
    StandsInside(a + (b + c), a, 0, 4 * i, Leaf(s, p, l, start + i));
  }

  lemma IndexMoves(s: Shape, l: nat, start: nat, i: nat)
    ensures Index(s, l, start + i) == Index(s, l, start) + i
  {
  }

  // x without its remainder modulo 2^k.
  function Multiple(x: nat, k: nat): int {
    x - x % Pow2(k)
  }

  lemma {:induction false} ClearLowIs(x: nat, k: nat)
    ensures ClearLow(x, k) == Multiple(x, k)
  {
    if k == 0 {
      assert Pow2(0) == 1;
    } else {
      ClearLowIs(x / 2, k - 1);
      assert ClearLow(x, k) == 2 * ClearLow(x / 2, k - 1);
      hide ClearLow;
      HalfRemainder(x, Pow2(k - 1));
      assert Pow2(k) == 2 * Pow2(k - 1);
    }
  }

  lemma HalfRemainder(x: nat, u: nat)
    requires u > 0
    ensures x % (2 * u) == 2 * (x / 2 % u) + x % 2
  {
    var q, r := x / 2 / u, x / 2 % u;
    assert x == 2 * (q * u + r) + x % 2;
    Associate(q, 2, u);
    Commute(q, 2);
    DivisionIsUnique(x, 2 * u, q, 2 * r + x % 2);
  }

  // Butterfly t of the level starts at point i0; what uperm makes of its point at for sublevel l.
  function Permuted(s: Shape, t: nat, l: nat, at: nat): nat
    requires s.Valid() && s.log2len < 32 && l <= s.N
  {
    var i0 := t * Pow2(s.log2len - s.level);
    Uperm(s.log2len, i0 + at * Pow2(s.log2len - s.N), s.log2len - s.level, s.log2len - (s.level - l))
  }

  // The angle of point at at sublevel l: a multiple of 2^(log2len - level + l).
  function PointAngle(s: Shape, t: nat, l: nat, at: nat): int
    requires s.Valid() && s.log2len < 32 && l <= s.N
  {
    s.sign * Multiple(Permuted(s, t, l, at), s.log2len - s.level + l)
  }

  // The angle of the first pair, a multiple of 2^(log2len - level).
  function PairAngle(s: Shape, t: nat): int
    requires s.Valid() && s.log2len < 32
  {
    -s.sign * Multiple(Permuted(s, t, s.N - 1, 0), s.log2len - s.level)
  }

  // At place at of x stand minus both coefficients of angle a at sublevel l, each with its two
  // components in order.
  ghost predicate HoldsPoint(s: Shape, x: seq<real>, at: nat, a: int, l: nat) {
    && at + 4 <= |x| && x[at] == -s.r2(a, s.level - l).0 && x[at + 1] == -s.r2(a, s.level - l).1
    && x[at + 2] == -s.sr(a, s.level - l).0 && x[at + 3] == -s.sr(a, s.level - l).1
  }

  // At place at of x stand the second and the first component of the coefficient of angle a.
  ghost predicate HoldsPair(s: Shape, x: seq<real>, at: nat, a: int) {
    && at + 2 <= |x| && x[at] == s.r2(a, s.level - s.N + 1).1 && x[at + 1] == s.r2(a, s.level - s.N + 1).0
  }

  lemma StandingPoint(s: Shape, x: seq<real>, at: nat, a: int, l: nat, v: seq<real>)
    requires Stands(x, at, v) && HoldsPoint(s, v, 0, a, l) && |v| == 4
    ensures HoldsPoint(s, x, at, a, l)
  {
    assert x[at] == v[0] && x[at + 1] == v[1] && x[at + 2] == v[2] && x[at + 3] == v[3];
  }

  lemma StandingPair(s: Shape, x: seq<real>, at: nat, a: int, v: seq<real>)
    requires Stands(x, at, v) && HoldsPair(s, v, 0, a) && |v| >= 2
    ensures HoldsPair(s, x, at, a)
  {
    assert x[at] == v[0] && x[at + 1] == v[1];
  }

  // The values of butterfly t.
  function Nth(s: Shape, t: nat): seq<real>
    requires s.Valid() && s.log2len < 32
  {
    Butterfly(s, Positions(s, Start(s, t)))
  }

  lemma NextButterfly(s: Shape, n: nat)
    requires s.Valid() && s.log2len < 32
    ensures Table(s, n + 1) == Table(s, n) + Nth(s, n) && |Table(s, n)| == Size(s.N, n)
  {
    hide *;
    TableGrows(s, n);
    TableSize(s, n);
    NthIs(s, n);
  }

  lemma NthIs(s: Shape, t: nat)
    requires s.Valid() && s.log2len < 32
    ensures Nth(s, t) == Butterfly(s, Positions(s, Start(s, t)))
  {
    hide Butterfly, Positions, Start;
  }

  lemma {:induction false} ButterflyStands(s: Shape, t: nat, n: nat)
    requires s.Valid() && s.log2len < 32 && t < n
    ensures Stands(Table(s, n), Size(s.N, t), Nth(s, t))
    decreases n
  {
    hide *;
    NextButterfly(s, n - 1);
    if t < n - 1 {
      ButterflyStands(s, t, n - 1);
      StandsBefore(Table(s, n - 1), Nth(s, n - 1), Size(s.N, t), Nth(s, t));
    } else {
      SumOfTwo(Table(s, n - 1), Nth(s, n - 1));
    }
  }

  lemma PositionIs(s: Shape, t: nat, l: nat, at: nat)
    requires s.Valid() && s.log2len < 32 && l <= s.N && at < Pow2(s.N)
    ensures var p := Positions(s, Start(s, t));
      Index(s, l, at) < |p| && p[Index(s, l, at)] == Permuted(s, t, l, at)
  {
    hide *;
    RowOf(s, l, at);
    PositionsAt(s, Start(s, t), Index(s, l, at));
    PositionHere(s, t, l, at, Index(s, l, at));
  }

  lemma PositionsAt(s: Shape, i0: nat, j: nat)
    requires s.Valid() && s.log2len < 32 && j < (s.N + 1) * Pow2(s.N)
    ensures |Positions(s, i0)| == (s.N + 1) * Pow2(s.N) && Positions(s, i0)[j] == Position(s, i0, j)
  {
    hide Position, Pow2;
  }

  lemma PositionHere(s: Shape, t: nat, l: nat, at: nat, j: nat)
    requires s.Valid() && s.log2len < 32 && l <= s.N && j / Pow2(s.N) == l && j % Pow2(s.N) == at
    ensures Position(s, Start(s, t), j) == Permuted(s, t, l, at)
  {
    hide Uperm, Pow2;
  }

  lemma LeafAt(s: Shape, p: seq<nat>, l: nat, at: nat)
    requires s.Valid() && l <= s.N && Index(s, l, at) < |p|
    ensures var a := s.sign * ClearLow(p[Index(s, l, at)], s.log2len - s.level + l);
      HoldsPoint(s, Leaf(s, p, l, at), 0, a, l)
  {
    LevelSum(s, l);
    hide ClearLow, Index;
  }

  lemma PointAngleIs(s: Shape, t: nat, l: nat, at: nat)
    requires s.Valid() && s.log2len < 32 && l <= s.N
    ensures PointAngle(s, t, l, at) == s.sign * ClearLow(Permuted(s, t, l, at), s.log2len - s.level + l)
  {
    ClearLowIs(Permuted(s, t, l, at), s.log2len - s.level + l);
    hide Permuted, ClearLow, Multiple;
  }

  lemma LeafIs(s: Shape, t: nat, l: nat, at: nat)
    requires s.Valid() && s.log2len < 32 && l <= s.N && at < Pow2(s.N)
    ensures var p := Positions(s, Start(s, t));
      Index(s, l, at) < |p| && HoldsPoint(s, Leaf(s, p, l, at), 0, PointAngle(s, t, l, at), l)
  {
    hide *;
    var p := Positions(s, Start(s, t));
    PositionIs(s, t, l, at);
    LeafAt(s, p, l, at);
    PointAngleIs(s, t, l, at);
  }

  lemma LevelSum(s: Shape, l: nat)
    requires s.Valid() && l <= s.N
    ensures s.log2len - (s.level - l) == s.log2len - s.level + l
  {
  }

  // The quadruple of point i of the block that begins at off.
  lemma QuadrupleStands(s: Shape, t: nat, l: nat, start: nat, off: nat, i: nat)
    requires s.Valid() && s.log2len < 32 && t < Pow2(s.level - s.N)
    requires l + 1 < s.N && Begins(s.N, l, start, off) && i < Pow2(s.N - l) / 4
    ensures HoldsPoint(s, Table(s, Pow2(s.level - s.N)), Size(s.N, t) + 2 + off + 4 * i,
      PointAngle(s, t, l, start + i), l)
  {
    hide *;
    ShapeIs(s);
    var p, x := Positions(s, Start(s, t)), Table(s, Pow2(s.level - s.N));
    BlockStands(s, p, l, start, off);
    PointInBlock(s, p, l, start, i);
    QuarterFits(s.N, l, start, i);
    LeafIs(s, t, l, start + i);
    var leaf := Leaf(s, p, l, start + i);
    StandsInside(Block(s, p, 0, 0), Block(s, p, l, start), off, 4 * i, leaf);
    BlockInButterfly(s, p);
    StandsInside(Butterfly(s, p), Block(s, p, 0, 0), 2, off + 4 * i, leaf);
    ButterflyStands(s, t, Pow2(s.level - s.N));
    NthIs(s, t);
    StandsInside(x, Butterfly(s, p), Size(s.N, t), 2 + (off + 4 * i), leaf);
    StandingPoint(s, x, Size(s.N, t) + 2 + off + 4 * i, PointAngle(s, t, l, start + i), l, leaf);
  }

  lemma QuarterFits(N: nat, l: nat, start: nat, i: nat)
    requires l + 1 < N && start + Pow2(N - l) <= Pow2(N) && i < Pow2(N - l) / 4
    ensures start + i < Pow2(N)
  {
    hide Pow2;
  }

  lemma BlockInButterfly(s: Shape, p: seq<nat>)
    requires Sized(s, p) && s.N >= 2
    ensures 0 + Pow2(s.N - 0) <= Pow2(s.N) && Stands(Butterfly(s, p), 2, Block(s, p, 0, 0))
  {
    hide *;
    SizedIs(s, p);
    WholeBlock(s.N);
    var pair := ButterflyIs(s, p);
    OneOfBlocks(s, p, 0, 0);
    SumOfTwo(pair, Blocks(s, p, 0, 0, 1));
  }

  lemma ButterflyIs(s: Shape, p: seq<nat>) returns (pair: seq<real>)
    requires Sized(s, p)
    ensures |pair| == 2 && 0 + 1 * Pow2(s.N - 0) <= Pow2(s.N)
    ensures Butterfly(s, p) == pair + Blocks(s, p, 0, 0, 1)
  {
    hide Blocks, Pow2, Count, FirstAngle;
    WholeBlock(s.N);
    var sc := s.r2(FirstAngle(s, p), s.level - s.N + 1);
    pair := [sc.1, sc.0];
  }

  // The first pair of butterfly t.
  lemma FirstPairStands(s: Shape, t: nat)
    requires s.Valid() && s.log2len < 32 && t < Pow2(s.level - s.N)
    ensures HoldsPair(s, Table(s, Pow2(s.level - s.N)), Size(s.N, t), PairAngle(s, t))
  {
    hide *;
    ShapeIs(s);
    NthIs(s, t);
    var p, x := Positions(s, Start(s, t)), Table(s, Pow2(s.level - s.N));
    FirstAngleIs(s, t);
    PairFirst(s, p);
    ButterflyStands(s, t, Pow2(s.level - s.N));
    StandingPair(s, x, Size(s.N, t), PairAngle(s, t), Butterfly(s, p));
  }

  lemma PairFirst(s: Shape, p: seq<nat>)
    requires Sized(s, p)
    ensures |Butterfly(s, p)| >= 2 && HoldsPair(s, Butterfly(s, p), 0, FirstAngle(s, p))
  {
    hide Blocks, Pow2, Count, FirstAngle;
  }

  lemma FirstAngleAt(s: Shape, p: seq<nat>)
    requires Sized(s, p)
    ensures Index(s, s.N - 1, 0) < |p|
    ensures FirstAngle(s, p) == -s.sign * ClearLow(p[Index(s, s.N - 1, 0)], s.log2len - s.level)
  {
    InTable(s, p, s.N - 1, 0, 1);
    hide ClearLow, Index, Pow2;
  }

  lemma PairAngleIs(s: Shape, t: nat)
    requires s.Valid() && s.log2len < 32
    ensures PairAngle(s, t) == -s.sign * ClearLow(Permuted(s, t, s.N - 1, 0), s.log2len - s.level)
  {
    hide *;
    ShapeIs(s);
    PairAngleUnfolds(s, t);
    ClearLowIs(Permuted(s, t, s.N - 1, 0), s.log2len - s.level);
  }

  lemma PairAngleUnfolds(s: Shape, t: nat)
    requires s.Valid() && s.log2len < 32
    ensures PairAngle(s, t) == -s.sign * Multiple(Permuted(s, t, s.N - 1, 0), s.log2len - s.level)
  {
    hide Permuted, Multiple;
  }

  lemma FirstAngleIs(s: Shape, t: nat)
    requires s.Valid() && s.log2len < 32
    ensures FirstAngle(s, Positions(s, Start(s, t))) == PairAngle(s, t)
  {
    hide *;
    ShapeIs(s);
    Pow2Positive(s.N);
    FirstAngleAt(s, Positions(s, Start(s, t)));
    PositionIs(s, t, s.N - 1, 0);
    PairAngleIs(s, t);
  }

  lemma Pow2Positive(n: nat)
    ensures Pow2(n) > 0
  {
  }

  // At angle 0, where sine and cosine are 0 and 1, the first pair is 1, 0 and a quadruple 0, -1, 0, -1.
  lemma AngleZero(s: Shape, x: seq<real>, at: nat, l: nat)
    requires forall j :: s.r2(0, j) == s.sr(0, j) == (0.0, 1.0)
    ensures HoldsPair(s, x, at, 0) ==> x[at..at + 2] == [1.0, 0.0]
    ensures HoldsPoint(s, x, at, 0, l) ==> x[at..at + 4] == [0.0, -1.0, 0.0, -1.0]
  {
  }

  // ---------------------------------------------------------------- r2coefsc() and srcoefsc()

  // Sine and cosine of the angle k / 2^log2len of the circle.
  type SinCos = nat -> (real, real)

  function R2(sc: SinCos, log2len: nat): Coefficient {
    (i: int, l: int) =>
      if 0 <= l <= log2len then sc((i - i % Pow2(log2len - l)) % Pow2(log2len)) else (0.0, 0.0)
  }

  function Sr(sc: SinCos, log2len: nat): Coefficient {
    (i: int, l: int) =>
      if 0 <= l <= log2len then sc(3 * (i - i % Pow2(log2len - l)) % Pow2(log2len)) else (0.0, 0.0)
  }

  lemma {:induction false} MultipleIsMultiple(x: nat, k: nat, sign: int)
    ensures (sign * Multiple(x, k)) % Pow2(k) == 0
  {
    Pow2Positive(k);
    hide Pow2;
    var u := Pow2(k);
    var q := x / u;
    assert x == q * u + x % u;
    assert Multiple(x, k) == q * u;
    assert sign * (q * u) == (sign * q) * u;
    ProductRemainder(sign * q, u);
  }

  lemma ProductRemainder(q: int, u: nat)
    requires u > 0
    ensures (q * u) % u == 0
  {
    var d, m := (q * u) / u, (q * u) % u;
    assert (q - d) * u == m;
    if q - d >= 1 {
      ProductMonotone(1, q - d, u);
    } else if q - d <= -1 {
      ProductMonotone(q - d, -1, u);
    }
  }

  lemma CoefficientsAre(sc: SinCos, log2len: nat, a: int, l: nat)
    requires l <= log2len && a % Pow2(log2len - l) == 0
    ensures R2(sc, log2len)(a, l) == sc(a % Pow2(log2len)) && Sr(sc, log2len)(a, l) == sc(3 * a % Pow2(log2len))
  {
    hide Pow2;
  }

  // Minus sine and cosine of the angle, and of three times the angle.
  lemma PointIsAngle(s: Shape, x: seq<real>, at: nat, sc: SinCos, t: nat, l: nat, j: nat)
    requires s.Valid() && s.log2len < 32 && l <= s.N && s.r2 == R2(sc, s.log2len) && s.sr == Sr(sc, s.log2len)
    requires HoldsPoint(s, x, at, PointAngle(s, t, l, j), l)
    ensures at + 4 <= |x|
    ensures var a, n := PointAngle(s, t, l, j), Pow2(s.log2len);
      && x[at] == -sc(a % n).0 && x[at + 1] == -sc(a % n).1
      && x[at + 2] == -sc(3 * a % n).0 && x[at + 3] == -sc(3 * a % n).1
  {
    hide *;
    ShapeIs(s);
    AngleIsMultiple(s, t, l, j);
    LevelSum(s, l);
    CoefficientsAre(sc, s.log2len, PointAngle(s, t, l, j), s.level - l);
    PointIs(s, x, at, PointAngle(s, t, l, j), l);
  }

  lemma AngleIsMultiple(s: Shape, t: nat, l: nat, j: nat)
    requires s.Valid() && s.log2len < 32 && l <= s.N
    ensures PointAngle(s, t, l, j) % Pow2(s.log2len - s.level + l) == 0
  {
    MultipleIsMultiple(Permuted(s, t, l, j), s.log2len - s.level + l, s.sign);
    hide Permuted, Multiple, Pow2;
  }

  // ---------------------------------------------------------------- for the finished tables

  lemma SizeIsPlace(N: nat, t: nat, K: nat)
    requires K == 2 + Count(N)
    ensures Size(N, t) == t * K
  {
  }

  lemma PairIs(s: Shape, x: seq<real>, at: nat, a: int)
    requires HoldsPair(s, x, at, a)
    ensures at + 2 <= |x| && x[at] == s.r2(a, s.level - s.N + 1).1 && x[at + 1] == s.r2(a, s.level - s.N + 1).0
  {
  }

  lemma PointIs(s: Shape, x: seq<real>, at: nat, a: int, l: nat)
    requires HoldsPoint(s, x, at, a, l)
    ensures at + 4 <= |x| && x[at] == -s.r2(a, s.level - l).0 && x[at + 1] == -s.r2(a, s.level - l).1
    ensures x[at + 2] == -s.sr(a, s.level - l).0 && x[at + 3] == -s.sr(a, s.level - l).1
    ensures x[at..at + 4] == [x[at], x[at + 1], x[at + 2], x[at + 3]]
  {
  }

  // A block lies within the values of the butterfly.
  lemma {:induction false} BlockFits(N: nat, l: nat, start: nat, off: nat)
    requires l + 1 < N && Begins(N, l, start, off)
    ensures off + Count(N - l) <= Count(N)
    decreases l
  {
    hide Pow2, Count;
    if l > 0 {
      if BeginsLower(N, l, start, off) {
        BlockSize(N, l - 1);
        BlockFits(N, l - 1, start, off - Pow2(N - (l - 1)));
      } else {
        var quarter: nat :| quarter < 2 && BeginsUpper(N, l, start, off, quarter);
        var bl := Pow2(N - (l - 2));
        BlockSize(N, l - 2);
        Multiples(Count(N - l));
        BlockFits(N, l - 2, start - (bl / 2 + quarter * (bl / 4)),
          off - (bl + Count(N - (l - 1)) + quarter * Count(N - l)));
      }
    }
  }

  lemma PlaceInBlock(N: nat, l: nat, start: nat, off: nat, i: nat)
    requires l + 1 < N && Begins(N, l, start, off) && i < Pow2(N - l) / 4
    ensures off + 4 * i + 4 <= Count(N)
  {
    BlockFits(N, l, start, off);
    BlockSize(N, l);
    hide Pow2, Count, Begins;
  }
}
