// uperm of src/dft/dft.cpp: the index permutations between the stages of a transform.
module BitPermutation {
  import opened Arithmetic
  import opened Powers
  import opened Bits

  const ONES: nat := 0xffffffff

  function Shl32(x: nat, s: nat): nat {
    Low(Shl(x, s), 32)
  }

  // Exchange neighbouring fields of w bits, selected by the masks hi and lo.
  function SwapFields(x: nat, hi: nat, lo: nat, w: nat): nat {
    BitOr(Shr(BitAnd(x, hi), w), Shl32(BitAnd(x, lo), w))
  }

  function Reverse32(k: nat): nat {
    var r := SwapFields(k, 0xaaaaaaaa, 0x55555555, 1);
    var r := SwapFields(r, 0xcccccccc, 0x33333333, 2);
    var r := SwapFields(r, 0xf0f0f0f0, 0x0f0f0f0f, 4);
    var r := SwapFields(r, 0xff00ff00, 0x00ff00ff, 8);
    BitOr(Shr(r, 16), Shl32(r, 16))
  }

  function Clamp(x: int, n: nat): nat {
    if x < 0 then 0 else if x > n then n else x
  }

  // The low n bits of k in reverse order.
  function Reversed(n: nat, k: nat): nat
    requires n <= 32
  {
    Shr(Reverse32(k), 32 - n)
  }

  // The s low bits of k, then the other bits of k from the top down.
  function Unfolded(n: nat, k: nat, s: nat): nat
    requires n <= 32
  {
    BitOr(Shl32(Reversed(n, k), s), Low(k, s))
  }

  // The bits of k above its s low bits, then those low bits from the top down.
  function Folded(n: nat, k: nat, s: nat): nat
    requires s <= n <= 32
  {
    BitOr(Shr(k, s), BitAnd(Reversed(n, k), Shl32(ONES, n - s)))
  }

  function Uperm(nbits: nat, k: nat, s: int, d: int): nat
    requires 1 <= nbits < 32
  {
    var s := Clamp(s, nbits);
    var d := Clamp(d, nbits);
    BitOr(Low(Unfolded(nbits, k, s), d), Low(Shl32(Folded(nbits, k, s), d), nbits))
  }

  // ---------------------------------------------------------------- the reversal

  // The mask of the upper (hi) or lower halves of all fields of 2w bits below bit n.
  ghost predicate Mask(m: nat, n: nat, w: nat, hi: bool)
    requires w > 0
  {
    m < Pow2(n) && forall i :: 0 <= i < n ==> (Bit(m, i) <==> (InUpperHalf(i, w) == hi))
  }

  predicate InUpperHalf(i: nat, w: nat)
    requires w > 0
  {
    i / w % 2 == 1
  }

  lemma {:induction false} AddLow(x: nat, y: nat, w: nat, i: nat)
    requires x < Pow2(w)
    ensures Bit(x + Shl(y, w), i) <==> if i < w then Bit(x, i) else Bit(y, i - w)
  {
    if w > 0 {
      assert Shl(y, w) == 2 * Shl(y, w - 1);
      assert (x + Shl(y, w)) / 2 == x / 2 + Shl(y, w - 1);
      if i > 0 {
        AddLow(x / 2, y, w - 1, i - 1);
      }
    }
  }

  lemma NextHalf(i: nat, w: nat)
    requires w in {1, 2, 4, 8}
    ensures InUpperHalf(i + w, w) == !InUpperHalf(i, w)
  {
    assert (i + w) / w == i / w + 1;
  }

  lemma HalfShifts(i: nat, w: nat, c: nat)
    requires w > 0 && c % 2 == 0 && c * w <= i
    ensures InUpperHalf(i - c * w, w) == InUpperHalf(i, w)
  {
    var q, r := i / w, i % w;
    assert i == q * w + r;
    assert (q - c) * w == q * w - c * w;
    DivisionIsUnique(i - c * w, w, q - c, r);
  }

  lemma HalfRepeats(i: nat, n: nat, w: nat)
    requires w in {1, 2, 4, 8} && n in {2, 4, 8, 16} && 2 * w <= n <= i
    ensures InUpperHalf(i, w) == InUpperHalf(i - n, w)
  {
    hide InUpperHalf;
    var c := n / w;
    assert n == c * w && c % 2 == 0;
    HalfShifts(i, w, c);
  }

  lemma DoubledBound(m: nat, u: nat)
    requires m < u
    ensures m + m * u < u * u
  {
    OneMore(m, u);
    ProductMonotone(m + 1, u, u);
  }

  lemma DoubledMask(m: nat, n: nat, w: nat, hi: bool)
    requires w in {1, 2, 4, 8} && n in {2, 4, 8, 16} && 2 * w <= n && Mask(m, n, w, hi)
    ensures Mask(m + m * Pow2(n), 2 * n, w, hi)
  {
    hide Pow2, Bit, InUpperHalf;
    ShlIsProduct(m, n);
    Pow2Add(n, n);
    DoubledBound(m, Pow2(n));
    forall i | 0 <= i < 2 * n
      ensures Bit(m + m * Pow2(n), i) <==> (InUpperHalf(i, w) == hi)
    {
      AddLow(m, m, n, i);
      if i >= n {
        HalfRepeats(i, n, w);
        assert Bit(m, i - n) <==> (InUpperHalf(i - n, w) == hi);
      }
    }
  }

  lemma SmallMasks()
    ensures Mask(2, 2, 1, true) && Mask(1, 2, 1, false)
    ensures Mask(12, 4, 2, true) && Mask(3, 4, 2, false)
    ensures Mask(0xf0, 8, 4, true) && Mask(0x0f, 8, 4, false)
  {
  }

  lemma {:induction false} OnesBit(n: nat, i: nat)
    requires i < n
    ensures Bit(Pow2(n) - 1, i)
  {
    assert (Pow2(n) - 1) / 2 == Pow2(n - 1) - 1;
    if i > 0 {
      OnesBit(n - 1, i - 1);
    }
  }

  lemma SmallMasks8()
    ensures Mask(0xff00, 16, 8, true) && Mask(0x00ff, 16, 8, false)
  {
    assert Pow2(8) == 256 && Pow2(16) == 65536 by { Pow2Add(8, 8); }
    ShlIsProduct(0xff, 8);
    ShlIsProduct(0, 8);
    hide Pow2, Bit;
    forall i | 0 <= i < 16
      ensures Bit(0xff00, i) <==> InUpperHalf(i, 8)
      ensures Bit(0x00ff, i) <==> !InUpperHalf(i, 8)
    {
      AddLow(0, 0xff, 8, i);
      AddLow(0xff, 0, 8, i);
      if i < 8 {
        OnesBit(8, i);
        ZeroBit(i);
      } else {
        OnesBit(8, i - 8);
        ZeroBit(i - 8);
      }
    }
  }

  lemma Masks()
    ensures Mask(0xaaaaaaaa, 32, 1, true) && Mask(0x55555555, 32, 1, false)
    ensures Mask(0xcccccccc, 32, 2, true) && Mask(0x33333333, 32, 2, false)
    ensures Mask(0xf0f0f0f0, 32, 4, true) && Mask(0x0f0f0f0f, 32, 4, false)
    ensures Mask(0xff00ff00, 32, 8, true) && Mask(0x00ff00ff, 32, 8, false)
  {
    SmallMasks();
    SmallMasks8();
    assert Pow2(2) == 4 && Pow2(4) == 16 && Pow2(8) == 256 && Pow2(16) == 65536;
    hide Mask, Pow2;
    DoubledMask(2, 2, 1, true);
    DoubledMask(1, 2, 1, false);
    DoubledMask(10, 4, 1, true);
    DoubledMask(5, 4, 1, false);
    DoubledMask(12, 4, 2, true);
    DoubledMask(3, 4, 2, false);
    DoubledMask(0xaa, 8, 1, true);
    DoubledMask(0x55, 8, 1, false);
    DoubledMask(0xcc, 8, 2, true);
    DoubledMask(0x33, 8, 2, false);
    DoubledMask(0xf0, 8, 4, true);
    DoubledMask(0x0f, 8, 4, false);
    DoubledMask(0xaaaa, 16, 1, true);
    DoubledMask(0x5555, 16, 1, false);
    DoubledMask(0xcccc, 16, 2, true);
    DoubledMask(0x3333, 16, 2, false);
    DoubledMask(0xf0f0, 16, 4, true);
    DoubledMask(0x0f0f, 16, 4, false);
    DoubledMask(0xff00, 16, 8, true);
    DoubledMask(0x00ff, 16, 8, false);
  }

  // ---------------------------------------------------------------- the bits of uperm

  lemma Shl32Bit(x: nat, s: nat, i: nat)
    ensures Bit(Shl32(x, s), i) <==> i < 32 && i >= s && Bit(x, i - s)
  {
    LowBit(Shl(x, s), 32, i);
    ShlBit(x, s, i);
  }

  // Every bit comes from the other half of its field.
  function Partner(i: nat, w: nat): nat
    requires w > 0
  {
    if InUpperHalf(i, w) && i >= w then i - w else i + w
  }

  lemma PartnerHalf(i: nat, w: nat)
    requires w in {1, 2, 4, 8} && i < 32
    ensures InUpperHalf(i + w, w) == !InUpperHalf(i, w)
    ensures if i >= w then InUpperHalf(i - w, w) == !InUpperHalf(i, w) else !InUpperHalf(i, w)
    ensures Partner(i, w) < 32
  {
    NextHalf(i, w);
    if i >= w {
      NextHalf(i - w, w);
    }
    if i + w >= 32 {
      assert InUpperHalf(i, w);
    }
  }

  lemma SwapFieldsBit(x: nat, hi: nat, lo: nat, w: nat, i: nat)
    requires w in {1, 2, 4, 8} && Mask(hi, 32, w, true) && Mask(lo, 32, w, false) && i < 32
    ensures Bit(SwapFields(x, hi, lo, w), i) == Bit(x, Partner(i, w)) && Partner(i, w) < 32
  {
    PartnerHalf(i, w);
    hide Bit, InUpperHalf, BitAnd, BitOr, Shr, Shl32, Pow2;
    OrBit(Shr(BitAnd(x, hi), w), Shl32(BitAnd(x, lo), w), i);
    ShrBit(BitAnd(x, hi), w, i);
    AndBit(x, hi, i + w);
    Shl32Bit(BitAnd(x, lo), w, i);
    if i >= w {
      AndBit(x, lo, i - w);
    }
    if i + w >= 32 {
      HighBits(hi, 32, i + w);
    }
  }

  lemma SwapFieldsHigh(x: nat, hi: nat, lo: nat, w: nat, i: nat)
    requires hi < Pow2(32) && i >= 32
    ensures !Bit(SwapFields(x, hi, lo, w), i)
  {
    hide Bit, Pow2;
    OrBit(Shr(BitAnd(x, hi), w), Shl32(BitAnd(x, lo), w), i);
    ShrBit(BitAnd(x, hi), w, i);
    AndBit(x, hi, i + w);
    HighBits(hi, 32, i + w);
    Shl32Bit(BitAnd(x, lo), w, i);
  }

  lemma Partners(i: nat)
    requires i < 32
    ensures Partner(Partner(Partner(Partner(if i < 16 then i + 16 else i - 16, 8), 4), 2), 1) == 31 - i
  {
  }

  function SwapAll(k: nat): nat {
    var r := SwapFields(k, 0xaaaaaaaa, 0x55555555, 1);
    var r := SwapFields(r, 0xcccccccc, 0x33333333, 2);
    var r := SwapFields(r, 0xf0f0f0f0, 0x0f0f0f0f, 4);
    SwapFields(r, 0xff00ff00, 0x00ff00ff, 8)
  }

  lemma SwapAllBit(k: nat, i: nat)
    requires i < 32
    ensures Bit(SwapAll(k), i) == Bit(k, Partner(Partner(Partner(Partner(i, 8), 4), 2), 1))
  {
    Masks();
    var r1 := SwapFields(k, 0xaaaaaaaa, 0x55555555, 1);
    var r2 := SwapFields(r1, 0xcccccccc, 0x33333333, 2);
    var r3 := SwapFields(r2, 0xf0f0f0f0, 0x0f0f0f0f, 4);
    hide Bit, Partner, Mask, SwapFields;
    var i3 := Partner(i, 8);
    SwapFieldsBit(r3, 0xff00ff00, 0x00ff00ff, 8, i);
    var i2 := Partner(i3, 4);
    SwapFieldsBit(r2, 0xf0f0f0f0, 0x0f0f0f0f, 4, i3);
    var i1 := Partner(i2, 2);
    SwapFieldsBit(r1, 0xcccccccc, 0x33333333, 2, i2);
    SwapFieldsBit(k, 0xaaaaaaaa, 0x55555555, 1, i1);
  }

  lemma SwapAllHigh(k: nat, i: nat)
    requires i >= 32
    ensures !Bit(SwapAll(k), i)
  {
    Masks();
    var r1 := SwapFields(k, 0xaaaaaaaa, 0x55555555, 1);
    var r2 := SwapFields(r1, 0xcccccccc, 0x33333333, 2);
    SwapFieldsHigh(SwapFields(r2, 0xf0f0f0f0, 0x0f0f0f0f, 4), 0xff00ff00, 0x00ff00ff, 8, i);
  }

  lemma Reverse32Bit(k: nat, i: nat)
    requires i < 32
    ensures Bit(Reverse32(k), i) == Bit(k, 31 - i)
  {
    var r := SwapAll(k);
    assert Reverse32(k) == BitOr(Shr(r, 16), Shl32(r, 16));
    hide Bit, Partner, SwapAll, Reverse32, BitOr, Shr, Shl32;
    OrBit(Shr(r, 16), Shl32(r, 16), i);
    ShrBit(r, 16, i);
    Shl32Bit(r, 16, i);
    Partners(i);
    if i < 16 {
      SwapAllBit(k, i + 16);
    } else {
      SwapAllBit(k, i - 16);
      SwapAllHigh(k, i + 16);
    }
  }

  // Bit j of uperm: which bit of k it is.
  function Source(n: nat, s: nat, d: nat, j: nat): int {
    if j < d then
      if j < s then j else n - 1 - (j - s)
    else
      if j - d < n - s then j - d + s else n - 1 - (j - d)
  }

  lemma ReversedBit(n: nat, k: nat, i: nat)
    requires 1 <= n < 32
    ensures Bit(Reversed(n, k), i) <==> i < n && Bit(k, n - 1 - i)
  {
    hide Bit, BitAnd, BitOr, Shr, Shl, Shl32, Low, Reverse32, Pow2;
    ShrBit(Reverse32(k), 32 - n, i);
    if i < n {
      Reverse32Bit(k, i + 32 - n);
    } else {
      Reverse32High(k, i + 32 - n);
    }
  }

  lemma Reverse32High(k: nat, i: nat)
    requires i >= 32
    ensures !Bit(Reverse32(k), i)
  {
    hide Bit, BitAnd, BitOr, Shr, Shl, Shl32, Low, SwapFields;
    var r := SwapAll(k);
    assert Reverse32(k) == BitOr(Shr(r, 16), Shl32(r, 16));
    hide SwapAll, Reverse32;
    OrBit(Shr(r, 16), Shl32(r, 16), i);
    ShrBit(r, 16, i);
    Shl32Bit(r, 16, i);
    SwapAllHigh(k, i + 16);
  }

  lemma UnfoldedBit(n: nat, k: nat, s: nat, j: nat)
    requires 1 <= n < 32 && s <= n && j < n
    ensures Bit(Unfolded(n, k, s), j) == Bit(k, if j < s then j else n - 1 - (j - s))
  {
    hide Bit, BitAnd, BitOr, Shr, Shl, Shl32, Low, Reverse32, Pow2;
    hide Reversed;
    var r := Reversed(n, k);
    OrBit(Shl32(r, s), Low(k, s), j);
    Shl32Bit(r, s, j);
    LowBit(k, s, j);
    if j >= s {
      ReversedBit(n, k, j - s);
    }
  }

  lemma Pow2Of32()
    ensures Pow2(32) == 0x100000000
  {
    assert Pow2(8) == 256;
    hide Pow2;
    Pow2Add(8, 8);
    Pow2Add(16, 16);
  }

  lemma AllOnes(i: nat)
    requires i < 32
    ensures Bit(ONES, i)
  {
    Pow2Of32();
    hide Bit, Pow2;
    OnesBit(32, i);
  }

  lemma FoldedBit(n: nat, k: nat, s: nat, i: nat)
    requires 1 <= n < 32 && s <= n && k < Pow2(n) && i < n
    ensures Bit(Folded(n, k, s), i) == Bit(k, if i < n - s then i + s else n - 1 - i)
  {
    hide Bit, BitAnd, BitOr, Shr, Shl, Shl32, Low, Reverse32, Pow2;
    hide Reversed;
    var r, m := Reversed(n, k), Shl32(ONES, n - s);
    OrBit(Shr(k, s), BitAnd(r, m), i);
    ShrBit(k, s, i);
    AndBit(r, m, i);
    Shl32Bit(ONES, n - s, i);
    ReversedBit(n, k, i);
    if i + s >= n {
      HighBits(k, n, i + s);
      AllOnes(i - (n - s));
    }
  }

  lemma UpermBitInside(n: nat, k: nat, s: nat, d: nat, j: nat)
    requires 1 <= n < 32 && s <= n && d <= n && k < Pow2(n)
    ensures j >= n ==> !Bit(Uperm(n, k, s, d), j)
    ensures j < n ==> 0 <= Source(n, s, d, j) < n && Bit(Uperm(n, k, s, d), j) == Bit(k, Source(n, s, d, j))
  {
    hide Bit, BitAnd, BitOr, Shr, Shl, Shl32, Low, Reverse32, Pow2;
    hide Unfolded, Folded;
    var low, high := Unfolded(n, k, s), Folded(n, k, s);
    OrBit(Low(low, d), Low(Shl32(high, d), n), j);
    LowBit(low, d, j);
    LowBit(Shl32(high, d), n, j);
    Shl32Bit(high, d, j);
    if j < d {
      UnfoldedBit(n, k, s, j);
    } else if j < n {
      FoldedBit(n, k, s, j - d);
    }
  }

  lemma UpermClamps(n: nat, k: nat, s: int, d: int)
    requires 1 <= n < 32
    ensures Uperm(n, k, s, d) == Uperm(n, k, Clamp(s, n), Clamp(d, n))
  {
    hide BitOr, Low, Folded, Unfolded, Shl32;
  }

  // What each bit of the result is, and that there are no others.
  lemma UpermBit(n: nat, k: nat, s: int, d: int, j: nat)
    requires 1 <= n < 32 && k < Pow2(n)
    ensures j >= n ==> !Bit(Uperm(n, k, s, d), j)
    ensures j < n ==>
      var i := Source(n, Clamp(s, n), Clamp(d, n), j);
      0 <= i < n && Bit(Uperm(n, k, s, d), j) == Bit(k, i)
  {
    hide Uperm, Source, Bit, Pow2;
    UpermClamps(n, k, s, d);
    UpermBitInside(n, k, Clamp(s, n), Clamp(d, n), j);
  }

  lemma UpermBound(n: nat, k: nat, s: int, d: int)
    requires 1 <= n < 32 && k < Pow2(n)
    ensures Uperm(n, k, s, d) < Pow2(n)
  {
    var u := Uperm(n, k, s, d);
    forall j | 0 <= j
      ensures Bit(u, j) == Bit(Low(u, n), j)
    {
      UpermBit(n, k, s, d, j);
      LowBit(u, n, j);
    }
    LowBound(u, n);
    EqualBits(u, Low(u, n));
  }

  // Numbers with the same bits are equal.
  lemma {:induction false} EqualBits(x: nat, y: nat)
    requires forall i: nat :: Bit(x, i) == Bit(y, i)
    ensures x == y
    decreases x + y
  {
    assert Bit(x, 0) == Bit(y, 0);
    if x > 0 || y > 0 {
      forall i: nat
        ensures Bit(x / 2, i) == Bit(y / 2, i)
      {
        assert Bit(x, i + 1) == Bit(y, i + 1);
      }
      EqualBits(x / 2, y / 2);
    }
  }

  // ---------------------------------------------------------------- composition

  lemma SourcesCompose(n: nat, a: nat, b: nat, c: nat, j: nat)
    requires a <= n && b <= n && c <= n && j < n
    ensures 0 <= Source(n, b, c, j) < n
    ensures Source(n, a, b, Source(n, b, c, j)) == Source(n, a, c, j)
  {
  }

  lemma TelescopesInside(n: nat, k: nat, a: nat, b: nat, c: nat)
    requires 1 <= n < 32 && k < Pow2(n) && a <= n && b <= n && c <= n
    ensures Uperm(n, k, a, b) < Pow2(n)
    ensures Uperm(n, Uperm(n, k, a, b), b, c) == Uperm(n, k, a, c)
  {
    hide Uperm, Source, Bit, Pow2;
    UpermBound(n, k, a, b);
    var u := Uperm(n, k, a, b);
    UpermBound(n, k, a, c);
    UpermBound(n, u, b, c);
    forall j | 0 <= j < n
      ensures Bit(Uperm(n, u, b, c), j) == Bit(Uperm(n, k, a, c), j)
    {
      UpermBitInside(n, u, b, c, j);
      UpermBitInside(n, k, a, c, j);
      UpermBitInside(n, k, a, b, Source(n, b, c, j));
      SourcesCompose(n, a, b, c, j);
    }
    SameBits(Uperm(n, u, b, c), Uperm(n, k, a, c), n);
  }

  // Going from layout a to layout b and on to layout c is going from a to c.
  lemma UpermTelescopes(n: nat, k: nat, a: int, b: int, c: int)
    requires 1 <= n < 32 && k < Pow2(n)
    ensures Uperm(n, k, a, b) < Pow2(n)
    ensures Uperm(n, Uperm(n, k, a, b), b, c) == Uperm(n, k, a, c)
  {
    hide Uperm, Pow2;
    UpermClamps(n, k, a, b);
    UpermClamps(n, Uperm(n, k, a, b), b, c);
    UpermClamps(n, k, a, c);
    TelescopesInside(n, k, Clamp(a, n), Clamp(b, n), Clamp(c, n));
  }

  lemma UpermIdentity(n: nat, k: nat, a: int)
    requires 1 <= n < 32 && k < Pow2(n)
    ensures Uperm(n, k, a, a) == k
  {
    UpermBound(n, k, a, a);
    var a' := Clamp(a, n);
    forall j | 0 <= j < n
      ensures Bit(Uperm(n, k, a, a), j) == Bit(k, j)
    {
      UpermBitInside(n, k, a', a', j);
    }
    SameBits(Uperm(n, k, a, a), k, n);
  }

  // uperm is a bijection on [0, 2^n), and uperm with s and d exchanged is its inverse.
  lemma UpermInverse(n: nat, k: nat, s: int, d: int)
    requires 1 <= n < 32 && k < Pow2(n)
    ensures Uperm(n, k, s, d) < Pow2(n)
    ensures Uperm(n, Uperm(n, k, s, d), d, s) == k
  {
    UpermTelescopes(n, k, s, d, s);
    UpermIdentity(n, k, s);
  }

  // From layout 0 to layout n all n bits are reversed.
  lemma UpermReverses(n: nat, k: nat, j: nat)
    requires 1 <= n < 32 && k < Pow2(n)
    ensures Uperm(n, k, 0, n) < Pow2(n)
    ensures j < n ==> Bit(Uperm(n, k, 0, n), j) == Bit(k, n - 1 - j)
  {
    UpermBound(n, k, 0, n);
    UpermBitInside(n, k, 0, n, j);
  }

  // ---------------------------------------------------------------- the stages of a path

  // The permutations of successive stages of ns[0], ns[1], ... bits, done bits being processed.
  function Stages(n: nat, k: nat, done: nat, ns: seq<nat>): nat
    requires 1 <= n < 32
    decreases |ns|
  {
    if ns == [] then k else Stages(n, Uperm(n, k, done, done + ns[0]), done + ns[0], ns[1..])
  }

  lemma {:induction false} StagesTelescope(n: nat, k: nat, done: nat, ns: seq<nat>)
    requires 1 <= n < 32 && k < Pow2(n)
    ensures Stages(n, k, done, ns) == Uperm(n, k, done, done + Sum(ns))
    decreases |ns|
  {
    hide Uperm, Pow2;
    if ns == [] {
      UpermIdentity(n, k, done);
    } else {
      UpermTelescopes(n, k, done, done + ns[0], done + Sum(ns));
      StagesTelescope(n, Uperm(n, k, done, done + ns[0]), done + ns[0], ns[1..]);
    }
  }

  // Whatever the decomposition, stages that process n bits in all reverse the n bits.
  lemma StagesReverse(n: nat, k: nat, ns: seq<nat>, j: nat)
    requires 1 <= n < 32 && k < Pow2(n) && Sum(ns) == n
    ensures Stages(n, k, 0, ns) < Pow2(n)
    ensures j < n ==> Bit(Stages(n, k, 0, ns), j) == Bit(k, n - 1 - j)
  {
    hide Uperm, Stages, Pow2, Bit;
    StagesTelescope(n, k, 0, ns);
    UpermReverses(n, k, j);
  }

  // ---------------------------------------------------------------- the butterflies of a stage

  lemma {:induction false} DisjointSum(x: nat, y: nat)
    requires forall i: nat :: !(Bit(x, i) && Bit(y, i))
    ensures x + y == BitOr(x, y)
    decreases x + y
  {
    if x + y > 0 {
      assert !(Bit(x, 0) && Bit(y, 0));
      forall i: nat
        ensures !(Bit(x / 2, i) && Bit(y / 2, i))
      {
        assert !(Bit(x, i + 1) && Bit(y, i + 1));
      }
      DisjointSum(x / 2, y / 2);
    }
  }

  lemma ButterflyBits(n: nat, N: nat, s: nat, i0: nat, i: nat, j: nat)
    requires 1 <= N <= n < 32 && s + N <= n && i0 < Pow2(n - N) && i < Pow2(N)
    ensures i0 < Pow2(n) && i0 + Shl(i, n - N) < Pow2(n)
    ensures Bit(Uperm(n, i0 + Shl(i, n - N), s, s + N), j) <==>
      Bit(Uperm(n, i0, s, s + N), j) || Bit(Shl(Reversed(N, i), s), j)
    ensures !(Bit(Uperm(n, i0, s, s + N), j) && Bit(Shl(Reversed(N, i), s), j))
  {
    hide Uperm, Bit, Reversed;
    CombinedBound(n, N, i0, i);
    var k := i0 + Shl(i, n - N);
    hide Pow2, Shl;
    UpermBitInside(n, k, s, s + N, j);
    UpermBitInside(n, i0, s, s + N, j);
    ShlBit(Reversed(N, i), s, j);
    if s <= j {
      ReversedBit(N, i, j - s);
    }
    if j < n {
      var b := Source(n, s, s + N, j);
      AddLow(i0, i, n - N, b);
      if s <= j < s + N {
        HighBits(i0, n - N, b);
      }
    }
  }

  lemma CombinedBound(n: nat, N: nat, i0: nat, i: nat)
    requires N <= n && i0 < Pow2(n - N) && i < Pow2(N)
    ensures i0 < Pow2(n) && i0 + Shl(i, n - N) < Pow2(n)
  {
    ShlIsProduct(i, n - N);
    Pow2Add(N, n - N);
    var u, v := Pow2(n - N), Pow2(N);
    hide *;
    MixedRadix(i0, i, u, v);
  }

  // Point i of butterfly i0: the butterfly starts at the permuted i0 and visits its 2^N points in
  // bit-reversed order, 2^s apart.
  function ButterflyPoint(n: nat, N: nat, s: nat, i0: nat, i: nat): nat
    requires 1 <= N <= n < 32
  {
    Uperm(n, i0, s, s + N) + Shl(Reversed(N, i), s)
  }

  lemma ButterflyIndex(n: nat, N: nat, s: nat, i0: nat, i: nat)
    requires 1 <= N <= n < 32 && s + N <= n && i0 < Pow2(n - N) && i < Pow2(N)
    ensures i0 + Shl(i, n - N) < Pow2(n)
    ensures Uperm(n, i0 + Shl(i, n - N), s, s + N) == ButterflyPoint(n, N, s, i0, i)
  {
    hide Uperm, Reversed, Pow2, Shl, Bit, IsDisjointOr;
    CombinedBound(n, N, i0, i);
    var u, x, y := Uperm(n, i0 + Shl(i, n - N), s, s + N), Uperm(n, i0, s, s + N), Shl(Reversed(N, i), s);
    AllButterflyBits(n, N, s, i0, i, u, x, y);
    SumByBits(u, x, y);
  }

  lemma AllButterflyBits(n: nat, N: nat, s: nat, i0: nat, i: nat, u: nat, x: nat, y: nat)
    requires 1 <= N <= n < 32 && s + N <= n && i0 < Pow2(n - N) && i < Pow2(N)
    requires u == Uperm(n, i0 + Shl(i, n - N), s, s + N) && x == Uperm(n, i0, s, s + N) && y == Shl(Reversed(N, i), s)
    ensures forall j: nat :: IsDisjointOr(u, x, y, j)
  {
    hide Uperm, Bit, Reversed, Pow2, Shl;
    forall j: nat
      ensures IsDisjointOr(u, x, y, j)
    {
      ButterflyBits(n, N, s, i0, i, j);
    }
  }

  ghost predicate IsDisjointOr(u: nat, x: nat, y: nat, j: nat) {
    (Bit(u, j) <==> Bit(x, j) || Bit(y, j)) && !(Bit(x, j) && Bit(y, j))
  }

  lemma SumByBits(u: nat, x: nat, y: nat)
    requires forall j: nat :: IsDisjointOr(u, x, y, j)
    ensures u == x + y
  {
    hide Bit;
    assert forall j: nat :: IsDisjointOr(u, x, y, j) ==> !(Bit(x, j) && Bit(y, j));
    DisjointSum(x, y);
    forall j: nat
      ensures Bit(u, j) == Bit(BitOr(x, y), j)
    {
      assert IsDisjointOr(u, x, y, j);
      OrBit(x, y, j);
    }
    EqualBits(u, BitOr(x, y));
  }

  // Every index belongs to exactly one butterfly of the stage, at exactly one place.
  lemma ButterfliesPartition(n: nat, N: nat, s: nat, m: nat)
    returns (i0: nat, i: nat)
    requires 1 <= N <= n < 32 && s + N <= n && m < Pow2(n)
    ensures i0 < Pow2(n - N) && i < Pow2(N)
    ensures m == ButterflyPoint(n, N, s, i0, i)
    ensures forall i0': nat, i': nat | i0' < Pow2(n - N) && i' < Pow2(N) ::
      m == ButterflyPoint(n, N, s, i0', i') ==> i0' == i0 && i' == i
  {
    hide Uperm, Reversed, Pow2, Shl, ButterflyPoint;
    UpermInverse(n, m, s + N, s);
    var k := Uperm(n, m, s + N, s);
    i0, i := SplitIndex(n, N, k);
    ButterflyIndex(n, N, s, i0, i);
    forall i0': nat, i': nat | i0' < Pow2(n - N) && i' < Pow2(N) && m == ButterflyPoint(n, N, s, i0', i')
      ensures i0' == i0 && i' == i
    {
      ButterflyIndex(n, N, s, i0', i');
      UpermInverse(n, i0' + Shl(i', n - N), s, s + N);
      SplitIsUnique(n, N, i0, i, i0', i');
    }
  }

  lemma SplitIndex(n: nat, N: nat, k: nat) returns (i0: nat, i: nat)
    requires N <= n && k < Pow2(n)
    ensures i0 < Pow2(n - N) && i < Pow2(N) && k == i0 + Shl(i, n - N)
  {
    Pow2Add(N, n - N);
    hide Pow2;
    i0, i := SplitNumber(k, Pow2(n - N), Pow2(N));
    ShlIsProduct(i, n - N);
  }

  lemma SplitIsUnique(n: nat, N: nat, a: nat, b: nat, a': nat, b': nat)
    requires N <= n && a < Pow2(n - N) && a' < Pow2(n - N)
    requires a + Shl(b, n - N) == a' + Shl(b', n - N)
    ensures a == a' && b == b'
  {
    ShlIsProduct(b, n - N);
    ShlIsProduct(b', n - N);
    hide *;
    SplitsOnce(Pow2(n - N), a, b, a', b');
  }
}
