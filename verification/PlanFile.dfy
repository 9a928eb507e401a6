// The streams of the serializer and the plan file of the plan manager.
module PlanFile {
  import opened Powers
  import opened Serializer

  // ---------------------------------------------------------------- writing

  class Output {
    var bytes: Str

    constructor ()
      ensures bytes == []
    {
      bytes := [];
    }

    method WriteSize(n: nat)
      modifies this
      ensures bytes == old(bytes) + EncSize(n)
    {
      bytes := bytes + EncSize(n);
    }

    method WriteString(s: Str)
      modifies this
      ensures bytes == old(bytes) + EncString(s)
    {
      hide EncSize;
      WriteSize(|s| + 1);
      bytes := bytes + (s + [0]);
    }

    // The entries of a map in any order.
    method WriteInner(m: map<Str, Str>) returns (ghost items: Inner)
      modifies this
      ensures Lists(items, Same, m) && |items| == |m| && bytes == old(bytes) + EncInner(items)
    {
      hide *;
      WriteSize(|m|);
      items := [];
      var keys := m.Keys;
      NothingListed<Str, Str>(Same, m);
      NoItemsYet(EncString);
      while keys != {}
        invariant keys <= m.Keys && |items| + |keys| == |m| && Listing(items, Same, m, keys)
        invariant bytes == old(bytes) + EncSize(|m|) + EncItems(items, EncString)
        decreases |keys|
      {
        var key :| key in keys;
        SameIs(m[key]);
        OneMoreListed(items, Same, m, keys, key, m[key]);
        OneMoreItem(items, EncString, key, m[key]);
        Regroup(old(bytes), EncSize(|m|), EncItems(items, EncString), EncString(key), EncString(m[key]));
        WriteString(key);
        WriteString(m[key]);
        items := items + [(key, m[key])];
        keys := keys - {key};
      }
      AllListed(items, Same, m);
      EncMapIs(items, EncString);
      EncInnerIs(items);
    }

    method WriteOuter(m: Plan) returns (ghost items: Outer)
      modifies this
      ensures Lists(items, BuiltInner, m) && |items| == |m| && bytes == old(bytes) + EncMap(items, EncInner)
      ensures InnerListed(items, m)
    {
      hide *;
      WriteSize(|m|);
      items := [];
      var keys := m.Keys;
      NothingListed<Inner, map<Str, Str>>(BuiltInner, m);
      NoInnerListed(m);
      NoItemsYet(EncInner);
      while keys != {}
        invariant keys <= m.Keys && |items| + |keys| == |m| && Listing(items, BuiltInner, m, keys)
        invariant InnerListed(items, m)
        invariant bytes == old(bytes) + EncSize(|m|) + EncItems(items, EncInner)
        decreases |keys|
      {
        var key :| key in keys;
        WriteString(key);
        ghost var inner := WriteInner(m[key]);
        Regroup(old(bytes), EncSize(|m|), EncItems(items, EncInner), EncString(key), EncInner(inner));
        BuiltInnerIs(inner, m[key]);
        OneMoreListed(items, BuiltInner, m, keys, key, inner);
        OneMoreItem(items, EncInner, key, inner);
        OneMoreInner(items, m, key, inner);
        items := items + [(key, inner)];
        keys := keys - {key};
      }
      AllListed(items, BuiltInner, m);
      EncMapIs(items, EncInner);
    }

    method WritePlan(plan: Plan, id: Str) returns (ghost items: Outer)
      modifies this
      ensures Lists(items, BuiltInner, plan) && |items| == |plan| && bytes == old(bytes) + EncPlan(items, id)
      ensures InnerListed(items, plan)
    {
      hide EncMap, EncString, Lists, InnerListed;
      items := WriteOuter(plan);
      WriteString(id);
    }
  }

  // items lists the entries of m whose keys are not in keys.
  ghost predicate Listing<A, B>(items: seq<(Str, A)>, abs: A -> B, m: map<Str, B>, keys: set<Str>) {
    && (forall i, j :: 0 <= i < j < |items| ==> items[i].0 != items[j].0)
    && (forall i :: 0 <= i < |items| ==> items[i].0 in m && items[i].0 !in keys && m[items[i].0] == abs(items[i].1))
    && (forall k :: k in m && k !in keys ==> exists i :: 0 <= i < |items| && items[i].0 == k)
  }

  // Every inner list enumerates the inner map of its key.
  ghost predicate InnerListed(items: Outer, m: Plan) {
    forall i :: 0 <= i < |items| ==>
      items[i].0 in m && Lists(items[i].1, Same, m[items[i].0]) && |items[i].1| == |m[items[i].0]|
  }

  lemma NoInnerListed(m: Plan)
    ensures InnerListed([], m)
  {
  }

  lemma OneMoreInner(items: Outer, m: Plan, key: Str, inner: Inner)
    requires InnerListed(items, m) && key in m && Lists(inner, Same, m[key]) && |inner| == |m[key]|
    ensures InnerListed(items + [(key, inner)], m)
  {
    hide Lists;
  }

  lemma NothingListed<A, B>(abs: A -> B, m: map<Str, B>)
    ensures Listing([], abs, m, m.Keys)
  {
  }

  lemma OneMoreListed<A, B>(items: seq<(Str, A)>, abs: A -> B, m: map<Str, B>, keys: set<Str>, key: Str, a: A)
    requires Listing(items, abs, m, keys) && key in keys && key in m && m[key] == abs(a)
    ensures Listing(items + [(key, a)], abs, m, keys - {key})
  {
    var more := items + [(key, a)];
    forall k | k in m && k !in keys - {key}
      ensures exists i :: 0 <= i < |more| && more[i].0 == k
    {
      if k == key {
        assert more[|items|].0 == k;
      } else {
        var i :| 0 <= i < |items| && items[i].0 == k;
        assert more[i].0 == k;
      }
    }
  }

  lemma AllListed<A, B>(items: seq<(Str, A)>, abs: A -> B, m: map<Str, B>)
    requires Listing(items, abs, m, {})
    ensures Lists(items, abs, m)
  {
  }

  lemma Regroup(a: Str, b: Str, c: Str, d: Str, e: Str)
    ensures a + b + c + d + e == a + b + (c + d + e)
  {
    assert a + b + c + d + e == a + b + c + (d + e);
    assert c + d + e == c + (d + e);
  }

  lemma EncMapIs<A>(items: seq<(Str, A)>, enc: A -> Str)
    ensures EncMap(items, enc) == EncSize(|items|) + EncItems(items, enc)
  {
  }

  lemma EncInnerIs(items: Inner)
    ensures EncInner(items) == EncMap(items, EncString)
  {
  }

  lemma SameIs(s: Str)
    ensures Same(s) == s
  {
  }

  lemma BuiltInnerIs(items: Inner, m: map<Str, Str>)
    requires Lists(items, Same, m)
    ensures BuiltInner(items) == m
  {
    hide Lists, Built;
    ListedIsBuilt(items, Same, m);
  }

  lemma NoItemsYet<A>(enc: A -> Str)
    ensures EncItems([], enc) == []
  {
  }

  lemma {:induction false} OneMoreItem<A>(items: seq<(Str, A)>, enc: A -> Str, key: Str, a: A)
    ensures EncItems(items + [(key, a)], enc) == EncItems(items, enc) + EncString(key) + enc(a)
    decreases |items|
  {
    hide EncString;
    if items == [] {
      assert EncItems([(key, a)][1..], enc) == [];
    } else {
      var more := items + [(key, a)];
      assert more[1..] == items[1..] + [(key, a)];
      OneMoreItem(items[1..], enc, key, a);
    }
  }

  // ---------------------------------------------------------------- reading

  class Input {
    const data: Str
    var pos: nat

    ghost predicate Valid()
      reads this
    {
      pos <= |data|
    }

    function Rest(): Str
      requires Valid()
      reads this
    {
      data[pos..]
    }

    constructor (data: Str)
      ensures Valid() && this.data == data && Rest() == data
    {
      this.data, pos := data, 0;
    }

    method ReadSize() returns (r: Dec<nat>)
      requires Valid()
      modifies this
      ensures Valid() && r == DecSize(old(Rest())) && (r.Read? ==> Rest() == r.rest)
    {
      hide FromLittle;
      if |data| - pos < 8 {
        return Fail;
      }
      assert data[pos..][..8] == data[pos..pos + 8] && data[pos..][8..] == data[pos + 8..];
      r := Read(FromLittle(data[pos..pos + 8]), data[pos + 8..]);
      pos := pos + 8;
    }

    // A vector of characters, one after the other.
    method ReadBytes(z: nat) returns (r: Dec<Str>)
      requires Valid()
      modifies this
      ensures Valid() && r == DecBytes(old(Rest()), z) && (r.Read? ==> Rest() == r.rest)
    {
      var v: Str := [];
      for i: nat := 0 to z
        invariant Valid() && pos == old(pos) + i && v == data[old(pos)..pos]
      {
        if pos == |data| {
          return Fail;
        }
        v := v + [data[pos]];
        pos := pos + 1;
      }
      assert v == old(Rest())[..z] && data[pos..] == old(Rest())[z..];
      r := Read(v, data[pos..]);
    }

    method ReadString() returns (r: Dec<Str>)
      requires Valid()
      modifies this
      ensures Valid() && r == DecString(old(Rest())) && (r.Read? ==> Rest() == r.rest)
    {
      hide DecSize, DecBytes, CString;
      var z :- ReadSize();
      var v :- ReadBytes(z.0);
      r := if 0 in v.0 then Read(CString(v.0), v.1) else Undefined;
    }

    method ReadInner() returns (r: Dec<map<Str, Str>>)
      requires Valid()
      modifies this
      ensures Valid() && r == DecInner(old(Rest())) && (r.Read? ==> Rest() == r.rest)
    {
      hide DecSize, DecString, DecItems;
      ghost var start := Rest();
      var z :- ReadSize();
      var m: map<Str, Str> := map[];
      for i: nat := 0 to z.0
        invariant Valid() && DecItems(Rest(), z.0 - i, m, DecString) == DecInner(start)
      {
        DecodeNext(Rest(), z.0 - i, m, DecString);
        var key :- ReadString();
        var value :- ReadString();
        m := m[key.0 := value.0];
      }
      DecodeEnd(Rest(), m, DecString);
      r := Read(m, Rest());
    }

    method ReadOuter() returns (r: Dec<Plan>)
      requires Valid()
      modifies this
      ensures Valid() && r == DecMap(old(Rest()), DecInner) && (r.Read? ==> Rest() == r.rest)
    {
      hide DecSize, DecString, DecItems, DecInner;
      ghost var start := Rest();
      var z :- ReadSize();
      var m: Plan := map[];
      for i: nat := 0 to z.0
        invariant Valid() && DecItems(Rest(), z.0 - i, m, DecInner) == DecMap(start, DecInner)
      {
        DecodeNext(Rest(), z.0 - i, m, DecInner);
        var key :- ReadString();
        var value :- ReadInner();
        m := m[key.0 := value.0];
      }
      DecodeEnd(Rest(), m, DecInner);
      r := Read(m, Rest());
    }

    method ReadPlan() returns (r: Dec<(Plan, Str)>)
      requires Valid()
      modifies this
      ensures Valid() && r == DecPlan(old(Rest())) && (r.Read? ==> Rest() == r.rest)
    {
      hide DecMap, DecString;
      var plan :- ReadOuter();
      var id :- ReadString();
      r := Read((plan.0, id.0), id.1);
    }
  }

  lemma DecodeNext<B>(b: Str, n: nat, m: map<Str, B>, dec: Str -> Dec<B>)
    requires n > 0
    ensures DecItems(b, n, m, dec) == (
      var (key, b1) :- DecString(b);
      var (value, b2) :- dec(b1);
      DecItems(b2, n - 1, m[key := value], dec))
  {
    hide DecString;
  }

  lemma DecodeEnd<B>(b: Str, m: map<Str, B>, dec: Str -> Dec<B>)
    ensures DecItems(b, 0, m, dec) == Read(m, b)
  {
  }

  // ---------------------------------------------------------------- the plan manager

  // "SLEEFDFT1"
  const PLANFILEID: Str := [83, 76, 69, 69, 70, 68, 70, 84, 49]

  // Everything in the plans survives the file.
  ghost predicate PlainPlan(plan: Plan) {
    Fits(|plan|) && forall k :: k in plan ==> Plain(k) && PlainEntries(plan[k])
  }

  ghost predicate PlainEntries(m: map<Str, Str>) {
    Fits(|m|) && forall k :: k in m ==> Plain(k) && Plain(m[k])
  }

  lemma ListsArePlain(items: Inner, m: map<Str, Str>)
    requires PlainEntries(m) && Lists(items, Same, m) && |items| == |m|
    ensures PlainInner(items)
  {
    hide Plain, Fits;
  }

  lemma PlansArePlain(items: Outer, plan: Plan)
    requires PlainPlan(plan) && Lists(items, BuiltInner, plan) && |items| == |plan| && InnerListed(items, plan)
    ensures PlainOuter(items)
  {
    hide Plain, Fits, PlainInner, PlainEntries, BuiltInner;
    forall i | 0 <= i < |items|
      ensures Plain(items[i].0) && PlainInner(items[i].1)
    {
      ListsArePlain(items[i].1, plan[items[i].0]);
    }
  }

  // The plans in use after a file has been looked at: those of the file if it can be read and is
  // identified, and the old ones otherwise.
  function Accepted(file: Str, plan: Plan): Plan {
    match DecPlan(file)
    case Read(v, _) => if v.1 == PLANFILEID then v.0 else plan
    case Fail => plan
    case Undefined => plan
  }

  // thePlan[planID][key] = value
  function WithEntry(plan: Plan, planID: Str, key: Str, value: Str): Plan {
    plan[planID := (if planID in plan then plan[planID] else map[])[key := value]]
  }

  // thePlan[planID], which the source creates when it is missing.
  function Touched(plan: Plan, planID: Str): Plan {
    if planID in plan then plan else plan[planID := map[]]
  }

  // The value of a key, or the empty string.
  function Looked(plan: Plan, planID: Str, key: Str): Str {
    if planID in plan && key in plan[planID] then plan[planID][key] else []
  }

  // Writing to the start of an existing file.
  function Overwritten(file: Str, bytes: Str): Str {
    bytes + if |bytes| <= |file| then file[|bytes|..] else []
  }

  // A file that was written over an old one is read as what was written, whatever the old one was.
  lemma StaleBytesAreHarmless(items: Outer, plan: Plan, file: Str, other: Plan)
    requires PlainOuter(items) && Lists(items, BuiltInner, plan)
    ensures Accepted(Overwritten(file, EncPlan(items, PLANFILEID)), other) == plan
  {
    hide DecPlan, EncPlan, Lists, Built, PlainOuter;
    var bytes := EncPlan(items, PLANFILEID);
    IdIsPlain();
    PlanRoundTrip(items, PLANFILEID, if |bytes| <= |file| then file[|bytes|..] else []);
    ListedIsBuilt(items, BuiltInner, plan);
  }

  lemma IdIsPlain()
    ensures Plain(PLANFILEID)
  {
    assert Power256(8) >= 256;
  }

  class PlanManager {
    const planID: Str
    var thePlan: Plan

    constructor (planID: Str)
      ensures this.planID == planID && thePlan == map[]
    {
      this.planID, thePlan := planID, map[];
    }

    // loadPlanFromFile() on the contents of the file.  Nothing is promised when a string in it has no
    // terminator, beyond whose end the source then reads.
    method Load(file: Str)
      modifies this
      ensures !DecPlan(file).Undefined? ==> thePlan == Accepted(file, old(thePlan))
    {
      hide *;
      AcceptedIs(file, thePlan);
      var d := new Input(file);
      var r := d.ReadPlan();
      // After an exception the identification has not been read.
      if r.Read? && r.value.1 == PLANFILEID {
        thePlan := r.value.0;
      }
    }

    method Get(key: Str) returns (value: Str)
      modifies this
      ensures value == Looked(old(thePlan), planID, key) && thePlan == Touched(old(thePlan), planID)
    {
      if planID !in thePlan {
        thePlan := thePlan[planID := map[]];
      }
      value := if key !in thePlan[planID] then [] else thePlan[planID][key];
    }

    method Put(key: Str, value: Str)
      modifies this
      ensures thePlan == WithEntry(old(thePlan), planID, key, value)
    {
      if planID !in thePlan {
        thePlan := thePlan[planID := map[]];
      }
      thePlan := thePlan[planID := thePlan[planID][key := value]];
    }

    // savePlanToFile(): the file is written from scratch.
    method Save() returns (contents: Str, ghost items: Outer)
      ensures Lists(items, BuiltInner, thePlan) && contents == EncPlan(items, PLANFILEID)
      ensures PlainPlan(thePlan) ==> forall other :: Accepted(contents, other) == thePlan
    {
      hide DecPlan, EncPlan, PlainPlan, Accepted, Overwritten, Lists, InnerListed;
      var s := new Output();
      items := s.WritePlan(thePlan, PLANFILEID);
      assert s.bytes == EncPlan(items, PLANFILEID);
      contents := s.bytes;
      if PlainPlan(thePlan) {
        PlansArePlain(items, thePlan);
        NothingOverwritten(contents);
        forall other
          ensures Accepted(contents, other) == thePlan
        {
          StaleBytesAreHarmless(items, thePlan, [], other);
        }
      }
    }

    // loadAndPutToFile(): reads the file, adds an entry and writes the plans over the old contents.
    method LoadAndPut(file: Str, key: Str, value: Str) returns (contents: Str, ghost items: Outer)
      modifies this
      ensures !DecPlan(file).Undefined? ==> thePlan == WithEntry(Accepted(file, old(thePlan)), planID, key, value)
      ensures Lists(items, BuiltInner, thePlan) && contents == Overwritten(file, EncPlan(items, PLANFILEID))
      ensures PlainPlan(thePlan) ==> forall other :: Accepted(contents, other) == thePlan
    {
      hide DecPlan, EncPlan, PlainPlan, Accepted, Overwritten, Lists, InnerListed;
      EmptyIsNotAccepted(thePlan);
      if file != [] {
        Load(file);
      }
      Put(key, value);
      var s := new Output();
      items := s.WritePlan(thePlan, PLANFILEID);
      assert s.bytes == EncPlan(items, PLANFILEID);
      contents := Overwritten(file, s.bytes);
      if PlainPlan(thePlan) {
        PlansArePlain(items, thePlan);
        forall other
          ensures Accepted(contents, other) == thePlan
        {
          StaleBytesAreHarmless(items, thePlan, file, other);
        }
      }
    }
  }

  lemma NothingOverwritten(bytes: Str)
    ensures Overwritten([], bytes) == bytes
  {
  }

  lemma AcceptedIs(file: Str, plan: Plan)
    ensures DecPlan(file).Read? && DecPlan(file).value.1 == PLANFILEID ==> Accepted(file, plan) == DecPlan(file).value.0
    ensures !(DecPlan(file).Read? && DecPlan(file).value.1 == PLANFILEID) ==> Accepted(file, plan) == plan
  {
    hide DecPlan;
  }

  lemma EmptyIsNotAccepted(plan: Plan)
    ensures Accepted([], plan) == plan
  {
  }

  // A plan file that was cut off while it was written leaves the plans in use alone.
  lemma CutOffIsNotAccepted(items: Outer, k: nat, plan: Plan)
    requires PlainOuter(items) && k < |EncPlan(items, PLANFILEID)|
    ensures Accepted(EncPlan(items, PLANFILEID)[..k], plan) == plan
  {
    hide DecPlan, EncPlan, PlainOuter;
    IdIsPlain();
    TruncatedIsRejected(items, PLANFILEID, k);
  }
}
