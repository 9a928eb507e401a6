// The binary form of the plan file, as functions on byte sequences: writing, reading, and that
// reading what was written gives it back.
module Serializer {
  import opened Arithmetic
  import opened Powers

  type Byte = b: int | 0 <= b < 256
  type Str = seq<Byte>

  // Undefined: the source then builds a string from an array without a terminator.
  datatype Dec<T> = Read(value: T, rest: Str) | Fail | Undefined
  {
    predicate IsFailure() {
      !Read?
    }

    function PropagateFailure<U>(): Dec<U>
      requires IsFailure()
    {
      if Fail? then Dec.Fail else Dec.Undefined
    }

    function Extract(): (T, Str)
      requires !IsFailure()
    {
      (value, rest)
    }
  }

  // ---------------------------------------------------------------- scalars

  // The lowest byte first.
  function Little(n: nat, k: nat): (r: Str)
    ensures |r| == k
  {
    if k == 0 then [] else [(n % 256) as Byte] + Little(n / 256, k - 1)
  }

  function FromLittle(b: Str): nat {
    if b == [] then 0 else b[0] + 256 * FromLittle(b[1..])
  }

  lemma {:induction false} LittleRoundTrip(n: nat, k: nat)
    requires n < Power256(k)
    ensures FromLittle(Little(n, k)) == n
  {
    if k > 0 {
      LittleRoundTrip(n / 256, k - 1);
      assert Little(n, k)[1..] == Little(n / 256, k - 1);
    }
  }

  // Byte i counts the multiples of 256^i.
  lemma {:induction false} LittleAt(n: nat, k: nat, i: nat)
    requires i < k
    ensures Little(n, k)[i] == (n / Power256(i) % 256) as Byte
  {
    if i > 0 {
      LittleAt(n / 256, k - 1, i - 1);
      DivideTwice(n, Power256(i - 1));
    }
  }

  // What fits into size_t.
  predicate Fits(n: nat) {
    n < Power256(8)
  }

  function EncSize(n: nat): (r: Str)
    ensures |r| == 8
  {
    Little(n, 8)
  }

  function DecSize(b: Str): Dec<nat> {
    if |b| < 8 then Fail else Read(FromLittle(b[..8]), b[8..])
  }

  lemma SizeRoundTrip(n: nat, rest: Str)
    requires Fits(n)
    ensures DecSize(EncSize(n) + rest) == Read(n, rest)
  {
    hide Little, FromLittle, Power256;
    LittleRoundTrip(n, 8);
    assert (EncSize(n) + rest)[..8] == EncSize(n) && (EncSize(n) + rest)[8..] == rest;
  }

  // z characters.
  function DecBytes(b: Str, z: nat): Dec<Str> {
    if z <= |b| then Read(b[..z], b[z..]) else Fail
  }

  // ---------------------------------------------------------------- strings

  // The characters before the first NUL.
  function CString(v: Str): (s: Str)
    ensures |s| <= |v| && s == v[..|s|] && 0 !in s
    ensures 0 in v ==> |s| < |v| && v[|s|] == 0
    ensures 0 !in v ==> s == v
  {
    if v == [] || v[0] == 0 then [] else [v[0]] + CString(v[1..])
  }

  lemma CStringStops(s: Str, v: Str)
    ensures CString(s + [0] + v) == CString(s)
  {
    if s != [] && s[0] != 0 {
      assert (s + [0] + v)[1..] == s[1..] + [0] + v;
      CStringStops(s[1..], v);
    }
  }

  function EncString(s: Str): Str {
    EncSize(|s| + 1) + (s + [0])
  }

  function DecString(b: Str): Dec<Str> {
    var (z, b1) :- DecSize(b);
    var (v, b2) :- DecBytes(b1, z);
    if 0 in v then Read(CString(v), b2) else Undefined
  }

  // A string comes back up to its first NUL, so unchanged exactly when it has none.
  lemma StringRoundTrip(s: Str, rest: Str)
    requires Fits(|s| + 1)
    ensures DecString(EncString(s) + rest) == Read(CString(s), rest)
    ensures DecString(EncString(s) + rest) == Read(s, rest) <==> 0 !in s
  {
    hide EncSize, DecSize, CString, Fits;
    var t := s + [0];
    assert EncString(s) + rest == EncSize(|s| + 1) + (t + rest);
    SizeRoundTrip(|s| + 1, t + rest);
    assert (t + rest)[..|s| + 1] == t && (t + rest)[|s| + 1..] == rest;
    assert t[|s|] == 0;
    CStringStops(s, []);
    assert s + [0] + [] == t;
  }

  // ---------------------------------------------------------------- maps

  // The entries of a map in the order in which they are written, with the values still as written.
  function EncItems<A>(items: seq<(Str, A)>, enc: A -> Str): Str {
    if items == [] then [] else EncString(items[0].0) + enc(items[0].1) + EncItems(items[1..], enc)
  }

  function EncMap<A>(items: seq<(Str, A)>, enc: A -> Str): Str {
    EncSize(|items|) + EncItems(items, enc)
  }

  // n entries, added to m one after the other.
  function DecItems<B>(b: Str, n: nat, m: map<Str, B>, dec: Str -> Dec<B>): Dec<map<Str, B>>
    decreases n
  {
    if n == 0 then Read(m, b)
    else
      var (key, b1) :- DecString(b);
      var (value, b2) :- dec(b1);
      DecItems(b2, n - 1, m[key := value], dec)
  }

  function DecMap<B>(b: Str, dec: Str -> Dec<B>): Dec<map<Str, B>> {
    var (z, b1) :- DecSize(b);
    DecItems(b1, z, map[], dec)
  }

  // The map that reading the entries builds; abs turns a written value into the value it stands for.
  function Built<A, B>(items: seq<(Str, A)>, abs: A -> B, m: map<Str, B>): map<Str, B>
    decreases |items|
  {
    if items == [] then m else Built(items[1..], abs, m[items[0].0 := abs(items[0].1)])
  }

  // A string that survives the file.
  predicate Plain(s: Str) {
    0 !in s && Fits(|s| + 1)
  }

  // dec undoes enc on a, whatever follows.
  ghost predicate Decodes<A, B(!new)>(enc: A -> Str, dec: Str -> Dec<B>, abs: A -> B, a: A) {
    forall rest :: dec(enc(a) + rest) == Read(abs(a), rest)
  }

  ghost predicate GoodItems<A, B(!new)>(items: seq<(Str, A)>, enc: A -> Str, dec: Str -> Dec<B>, abs: A -> B) {
    forall i :: 0 <= i < |items| ==> Plain(items[i].0) && Decodes(enc, dec, abs, items[i].1)
  }

  lemma {:induction false} ItemsRoundTrip<A, B(!new)>(items: seq<(Str, A)>, enc: A -> Str, dec: Str -> Dec<B>,
      abs: A -> B, m: map<Str, B>, rest: Str)
    requires GoodItems(items, enc, dec, abs)
    ensures DecItems(EncItems(items, enc) + rest, |items|, m, dec) == Read(Built(items, abs, m), rest)
    decreases |items|
  {
    hide EncItems, DecItems, DecString, EncString, Fits, Decodes, Built;
    if items == [] {
      NoItems(enc, dec, abs, m, rest);
    } else {
      var key, a, more := items[0].0, items[0].1, items[1..];
      ItemsRoundTrip(more, enc, dec, abs, m[key := abs(a)], rest);
      var tail := EncItems(more, enc) + rest;
      FirstItem(items, enc, abs, m, rest);
      StringRoundTrip(key, enc(a) + tail);
      DecodesAt(enc, dec, abs, a, tail);
      DecodeItem(EncItems(items, enc) + rest, |items|, m, dec, key, enc(a) + tail, abs(a), tail);
    }
  }

  lemma NoItems<A, B>(enc: A -> Str, dec: Str -> Dec<B>, abs: A -> B, m: map<Str, B>, rest: Str)
    ensures DecItems(EncItems([], enc) + rest, 0, m, dec) == Read(Built([], abs, m), rest)
  {
    assert EncItems([], enc) + rest == rest;
  }

  lemma FirstItem<A, B>(items: seq<(Str, A)>, enc: A -> Str, abs: A -> B, m: map<Str, B>, rest: Str)
    requires items != []
    ensures EncItems(items, enc) + rest ==
      EncString(items[0].0) + (enc(items[0].1) + (EncItems(items[1..], enc) + rest))
    ensures Built(items, abs, m) == Built(items[1..], abs, m[items[0].0 := abs(items[0].1)])
  {
    hide EncString;
  }

  lemma DecodeItem<B>(b: Str, n: nat, m: map<Str, B>, dec: Str -> Dec<B>, key: Str, b1: Str, value: B, b2: Str)
    requires n > 0 && DecString(b) == Read(key, b1) && dec(b1) == Read(value, b2)
    ensures DecItems(b, n, m, dec) == DecItems(b2, n - 1, m[key := value], dec)
  {
    hide DecString;
  }

  lemma DecodesAt<A, B(!new)>(enc: A -> Str, dec: Str -> Dec<B>, abs: A -> B, a: A, rest: Str)
    requires Decodes(enc, dec, abs, a)
    ensures dec(enc(a) + rest) == Read(abs(a), rest)
  {
  }

  lemma MapRoundTrip<A, B(!new)>(items: seq<(Str, A)>, enc: A -> Str, dec: Str -> Dec<B>, abs: A -> B, rest: Str)
    requires GoodItems(items, enc, dec, abs) && Fits(|items|)
    ensures DecMap(EncMap(items, enc) + rest, dec) == Read(Built(items, abs, map[]), rest)
  {
    hide EncItems, DecItems, EncSize, DecSize, GoodItems, Built, Fits;
    SizeRoundTrip(|items|, EncItems(items, enc) + rest);
    assert EncMap(items, enc) + rest == EncSize(|items|) + (EncItems(items, enc) + rest);
    ItemsRoundTrip(items, enc, dec, abs, map[], rest);
  }

  // items lists the entries of m, each once, in some order.
  ghost predicate Lists<A, B>(items: seq<(Str, A)>, abs: A -> B, m: map<Str, B>) {
    && (forall i, j :: 0 <= i < j < |items| ==> items[i].0 != items[j].0)
    && (forall i :: 0 <= i < |items| ==> items[i].0 in m && m[items[i].0] == abs(items[i].1))
    && (forall k :: k in m ==> exists i :: 0 <= i < |items| && items[i].0 == k)
  }

  lemma {:induction false} BuiltAt<A, B>(items: seq<(Str, A)>, abs: A -> B, m: map<Str, B>, k: Str)
    requires forall i, j :: 0 <= i < j < |items| ==> items[i].0 != items[j].0
    ensures (forall i :: 0 <= i < |items| ==> items[i].0 != k) ==>
      (k in Built(items, abs, m) <==> k in m) && (k in m ==> Built(items, abs, m)[k] == m[k])
    ensures forall i :: 0 <= i < |items| && items[i].0 == k ==>
      k in Built(items, abs, m) && Built(items, abs, m)[k] == abs(items[i].1)
    decreases |items|
  {
    if items != [] {
      BuiltAt(items[1..], abs, m[items[0].0 := abs(items[0].1)], k);
      assert forall i :: 0 < i < |items| ==> items[i] == items[1..][i - 1];
    }
  }

  // In whatever order the entries were written, reading them builds the map.
  lemma ListedIsBuilt<A, B>(items: seq<(Str, A)>, abs: A -> B, m: map<Str, B>)
    requires Lists(items, abs, m)
    ensures Built(items, abs, map[]) == m
  {
    var r := Built(items, abs, map[]);
    forall k: Str
      ensures (k in r <==> k in m) && (k in m ==> r[k] == m[k])
    {
      BuiltAt(items, abs, map[], k);
      if k in m {
        var i :| 0 <= i < |items| && items[i].0 == k;
      }
    }
  }

  // ---------------------------------------------------------------- the plan file

  type Inner = seq<(Str, Str)>
  type Outer = seq<(Str, Inner)>
  type Plan = map<Str, map<Str, Str>>

  function Same(s: Str): Str {
    s
  }

  function BuiltInner(items: Inner): map<Str, Str> {
    Built(items, Same, map[])
  }

  function EncInner(items: Inner): Str {
    EncMap(items, EncString)
  }

  function DecInner(b: Str): Dec<map<Str, Str>> {
    DecMap(b, DecString)
  }

  // The tuple of the plans and the identification of the format.
  function EncPlan(items: Outer, id: Str): Str {
    EncMap(items, EncInner) + EncString(id)
  }

  // One plan with one entry: numbers of eight bytes, the lowest first, strings with their length and a
  // NUL, keys before values, and the identification last.
  lemma FileExample(a: Byte, b: Byte, c: Byte, d: Byte)
    ensures EncPlan([([a], [([b], [c])])], [d]) ==
      [1, 0, 0, 0, 0, 0, 0, 0] + [2, 0, 0, 0, 0, 0, 0, 0, a, 0] +
      [1, 0, 0, 0, 0, 0, 0, 0] + [2, 0, 0, 0, 0, 0, 0, 0, b, 0] + [2, 0, 0, 0, 0, 0, 0, 0, c, 0] +
      [2, 0, 0, 0, 0, 0, 0, 0, d, 0]
  {
    SmallSize(1);
    OneCharacter(a);
    OneCharacter(b);
    OneCharacter(c);
    OneCharacter(d);
    hide EncString, EncSize;
    OneItem([b], [c], EncString);
    OneItem([a], [([b], [c])], EncInner);
  }

  lemma SmallSize(n: nat)
    requires n < 256
    ensures EncSize(n) == [n as Byte, 0, 0, 0, 0, 0, 0, 0]
  {
    NoBytes(7);
    assert Little(n, 8) == [n as Byte] + Little(0, 7);
  }

  lemma {:induction false} NoBytes(k: nat)
    ensures Little(0, k) == seq(k, i => 0 as Byte)
  {
    if k > 0 {
      NoBytes(k - 1);
    }
  }

  lemma OneCharacter(a: Byte)
    ensures EncString([a]) == [2, 0, 0, 0, 0, 0, 0, 0, a, 0]
  {
    SmallSize(2);
    hide EncSize;
  }

  lemma OneItem<A>(key: Str, value: A, enc: A -> Str)
    ensures EncMap([(key, value)], enc) == EncSize(1) + (EncString(key) + enc(value))
  {
    hide EncString, EncSize;
    assert EncItems([(key, value)][1..], enc) == [];
  }

  function DecPlan(b: Str): Dec<(Plan, Str)> {
    var (plan, b1) :- DecMap(b, DecInner);
    var (id, b2) :- DecString(b1);
    Read((plan, id), b2)
  }

  ghost predicate PlainInner(items: Inner) {
    Fits(|items|) && forall i :: 0 <= i < |items| ==> Plain(items[i].0) && Plain(items[i].1)
  }

  ghost predicate PlainOuter(items: Outer) {
    Fits(|items|) && forall i :: 0 <= i < |items| ==> Plain(items[i].0) && PlainInner(items[i].1)
  }

  lemma StringDecodes(s: Str)
    requires Plain(s)
    ensures Decodes(EncString, DecString, Same, s)
  {
    hide EncString, DecString;
    forall rest
      ensures DecString(EncString(s) + rest) == Read(Same(s), rest)
    {
      StringRoundTrip(s, rest);
    }
  }

  lemma InnerDecodes(items: Inner)
    requires PlainInner(items)
    ensures Decodes(EncInner, DecInner, BuiltInner, items)
  {
    hide EncString, DecString, EncMap, DecMap, Built, Fits, Decodes;
    forall i | 0 <= i < |items|
      ensures Decodes(EncString, DecString, Same, items[i].1)
    {
      StringDecodes(items[i].1);
    }
    forall rest
      ensures DecInner(EncInner(items) + rest) == Read(BuiltInner(items), rest)
    {
      MapRoundTrip(items, EncString, DecString, Same, rest);
    }
    AllRests(items);
  }

  lemma AllRests(items: Inner)
    requires forall rest :: DecInner(EncInner(items) + rest) == Read(BuiltInner(items), rest)
    ensures Decodes(EncInner, DecInner, BuiltInner, items)
  {
    hide EncInner, DecInner, BuiltInner;
  }

  // Reading what was written gives the plans back and leaves what follows.
  lemma PlanRoundTrip(items: Outer, id: Str, rest: Str)
    requires PlainOuter(items) && Plain(id)
    ensures DecPlan(EncPlan(items, id) + rest) == Read((Built(items, BuiltInner, map[]), id), rest)
  {
    hide EncString, DecString, EncMap, DecMap, Built, Fits, Decodes, PlainInner;
    forall i | 0 <= i < |items|
      ensures Decodes(EncInner, DecInner, BuiltInner, items[i].1)
    {
      InnerDecodes(items[i].1);
    }
    MapRoundTrip(items, EncInner, DecInner, BuiltInner, EncString(id) + rest);
    assert EncPlan(items, id) + rest == EncMap(items, EncInner) + (EncString(id) + rest);
    StringRoundTrip(id, rest);
  }

  // ---------------------------------------------------------------- truncated files

  // More bytes behind what was read change nothing but the rest.
  ghost predicate Continues<T>(r: Dec<T>, s: Dec<T>, more: Str) {
    match r
    case Read(v, rest) => s == Read(v, rest + more)
    case Undefined => s == Undefined
    case Fail => true
  }

  lemma SizeContinues(b: Str, more: Str)
    ensures Continues(DecSize(b), DecSize(b + more), more)
  {
    hide FromLittle;
    if |b| >= 8 {
      assert (b + more)[..8] == b[..8] && (b + more)[8..] == b[8..] + more;
    }
  }

  lemma StringContinues(b: Str, more: Str)
    ensures Continues(DecString(b), DecString(b + more), more)
  {
    hide DecSize, CString;
    SizeContinues(b, more);
    if DecSize(b).Read? {
      var z, b1 := DecSize(b).value, DecSize(b).rest;
      if z <= |b1| {
        assert (b1 + more)[..z] == b1[..z] && (b1 + more)[z..] == b1[z..] + more;
      }
    }
  }

  ghost predicate AlwaysContinues<B>(dec: Str -> Dec<B>) {
    forall b, more :: Continues(dec(b), dec(b + more), more)
  }

  lemma {:induction false} ItemsContinue<B>(b: Str, n: nat, m: map<Str, B>, dec: Str -> Dec<B>, more: Str)
    requires AlwaysContinues(dec)
    ensures Continues(DecItems(b, n, m, dec), DecItems(b + more, n, m, dec), more)
    decreases n
  {
    hide DecString;
    if n > 0 {
      StringContinues(b, more);
      if DecString(b).Read? {
        var key, b1 := DecString(b).value, DecString(b).rest;
        assert Continues(dec(b1), dec(b1 + more), more);
        if dec(b1).Read? {
          ItemsContinue(dec(b1).rest, n - 1, m[key := dec(b1).value], dec, more);
        }
      }
    }
  }

  lemma MapContinues<B>(b: Str, dec: Str -> Dec<B>, more: Str)
    requires AlwaysContinues(dec)
    ensures Continues(DecMap(b, dec), DecMap(b + more, dec), more)
  {
    hide DecSize, DecItems, AlwaysContinues;
    SizeContinues(b, more);
    if DecSize(b).Read? {
      ItemsContinue(DecSize(b).rest, DecSize(b).value, map[], dec, more);
    }
  }

  lemma InnerContinues()
    ensures AlwaysContinues(DecString) && AlwaysContinues(DecInner)
  {
    hide DecString, DecMap, Continues;
    forall b, more
      ensures Continues(DecString(b), DecString(b + more), more)
    {
      StringContinues(b, more);
    }
    assert AlwaysContinues(DecString);
    forall b, more
      ensures Continues(DecInner(b), DecInner(b + more), more)
    {
      MapContinues(b, DecString, more);
    }
  }

  lemma PlanContinues(b: Str, more: Str)
    ensures Continues(DecPlan(b), DecPlan(b + more), more)
  {
    hide DecString, DecMap, AlwaysContinues;
    InnerContinues();
    MapContinues(b, DecInner, more);
    if DecMap(b, DecInner).Read? {
      StringContinues(DecMap(b, DecInner).rest, more);
    }
  }

  // A file that was cut off anywhere is not read.
  lemma TruncatedIsRejected(items: Outer, id: Str, k: nat)
    requires PlainOuter(items) && Plain(id) && k < |EncPlan(items, id)|
    ensures DecPlan(EncPlan(items, id)[..k]) == Fail
  {
    hide DecPlan, EncPlan, Built, PlainOuter, Continues;
    var e := EncPlan(items, id);
    PlanContinues(e[..k], e[k..]);
    assert e[..k] + e[k..] == e;
    PlanRoundTrip(items, id, []);
    assert e + [] == e;
    EndsEarly(DecPlan(e[..k]), (Built(items, BuiltInner, map[]), id), e[k..]);
  }

  lemma EndsEarly<T>(r: Dec<T>, v: T, more: Str)
    requires Continues(r, Read(v, []), more) && more != []
    ensures r == Fail
  {
  }
}
