// saveMeasurementResults() and loadMeasurementResults(): the text of a plan travels through the plan
// file to another transform.
module SavedPlans {
  import opened Serializer
  import opened PlanFile
  import opened PlanText
  import P = Planner

  // ---------------------------------------------------------------- characters and bytes

  // Characters of one byte, none of them NUL.
  predicate Narrow(s: string) {
    forall i :: 0 <= i < |s| ==> 0 < s[i] as int < 256
  }

  function ToBytes(s: string): (b: Str)
    requires Narrow(s)
    ensures |b| == |s|
  {
    seq(|s|, i requires 0 <= i < |s| => (s[i] as int) as Byte)
  }

  function ToText(b: Str): (s: string)
    ensures |s| == |b|
  {
    seq(|b|, i requires 0 <= i < |b| => (b[i] as int) as char)
  }

  lemma BytesRoundTrip(s: string)
    requires Narrow(s)
    ensures ToText(ToBytes(s)) == s && 0 !in ToBytes(s)
  {
    var t := ToText(ToBytes(s));
    assert forall i :: 0 <= i < |s| ==> t[i] == s[i];
  }

  lemma ItemIsNarrow(a: P.Action)
    ensures Narrow(Item(a)) && Item(a) != ""
  {
    assert Narrow(Decimal(a.N)) && Narrow(Decimal(a.config));
    hide Decimal;
  }

  // A printed path survives the file.
  lemma {:induction false} TextIsNarrow(path: seq<P.Action>)
    ensures Narrow(Text(path)) && (path != [] ==> Text(path) != "")
  {
    hide Item;
    if path != [] {
      ItemIsNarrow(path[0]);
      TextIsNarrow(path[1..]);
    }
  }

  // ---------------------------------------------------------------- saving and loading

  function PathBytes(path: seq<P.Action>): Str {
    TextIsNarrow(path);
    ToBytes(Text(path))
  }

  // In automatic mode the file is read, gets an entry and is written again; otherwise the entry goes
  // to the plans in use only.
  method SaveMeasurementResults(manager: PlanManager, key: Str, plan: Plan1D, file: Str, automatic: bool)
    returns (contents: Str)
    modifies manager
    ensures var before := if automatic then Accepted(file, old(manager.thePlan)) else old(manager.thePlan);
      !(automatic && DecPlan(file).Undefined?) ==>
      manager.thePlan == WithEntry(before, manager.planID, key, PathBytes(plan.bestPath))
    ensures automatic && PlainPlan(manager.thePlan) ==> forall other :: Accepted(contents, other) == manager.thePlan
    ensures !automatic ==> contents == file
  {
    hide *;
    TextIsNarrow(plan.bestPath);
    var text := plan.GetPath();
    PathBytesIs(plan.bestPath);
    if automatic {
      ghost var items;
      contents, items := manager.LoadAndPut(file, key, ToBytes(text));
    } else {
      manager.Put(key, ToBytes(text));
      contents := file;
    }
  }

  lemma PathBytesIs(path: seq<P.Action>)
    ensures Narrow(Text(path)) && PathBytes(path) == ToBytes(Text(path))
  {
    TextIsNarrow(path);
  }

  // The path of a transform after its entry has been looked up.
  function AfterLoad(value: Str, plan: Plan1D): seq<P.Action>
    reads plan
  {
    if value == [] then plan.bestPath else AfterSet(ToText(value), plan.log2len, plan.max, plan.bestPath)
  }

  method LoadMeasurementResults(manager: PlanManager, key: Str, plan: Plan1D, file: Str) returns (found: bool)
    modifies manager, plan
    ensures !DecPlan(file).Undefined? ==>
      && manager.thePlan == Touched(Accepted(file, old(manager.thePlan)), manager.planID)
      && var value := Looked(Accepted(file, old(manager.thePlan)), manager.planID, key);
         (found <==> value != []) && plan.bestPath == old(AfterLoad(value, plan))
  {
    manager.Load(file);
    var value := manager.Get(key);
    if value == [] {
      return false;
    }
    plan.SetPath(ToText(value));
    return true;
  }

  // ---------------------------------------------------------------- from the planner to another transform

  lemma EntryIsLooked(plan: Plan, planID: Str, key: Str, value: Str)
    ensures Looked(WithEntry(plan, planID, key, value), planID, key) == value
  {
  }

  // The entry of a plan of the planner sets exactly this plan.
  lemma SavedPlanIsSet(s: P.Setup, path: seq<P.Action>, other: seq<P.Action>)
    requires P.Plan(s, path)
    ensures PathBytes(path) != [] && AfterSet(ToText(PathBytes(path)), s.log2len, s.maxBut, other) == path
  {
    hide P.Plan, Parse, Text;
    PlanIsNotEmpty(s, path);
    TextIsNarrow(path);
    BytesRoundTrip(Text(path));
    PlanText.PlanRoundTrip(s, path);
  }

  lemma PlanIsNotEmpty(s: P.Setup, path: seq<P.Action>)
    requires P.Plan(s, path)
    ensures path != []
  {
  }

  // A file that could be written can be read, by any manager.
  lemma AcceptedIsDefined(file: Str, plan: Plan)
    requires forall other :: Accepted(file, other) == plan
    ensures !DecPlan(file).Undefined?
  {
    var q: Plan := if [] in plan then map[] else map[[] := map[]];
    assert ([] in q) != ([] in plan);
    UndefinedKeeps(file, q);
    hide *;
    assert Accepted(file, q) == plan;
  }

  lemma UndefinedKeeps(file: Str, plan: Plan)
    ensures DecPlan(file).Undefined? ==> Accepted(file, plan) == plan
  {
    hide DecPlan;
  }

  // A plan of the planner, saved under a key in any file that can be read, is found by any manager
  // with the same identification, whatever it held before, and becomes the path of any transform of
  // the same size, whatever path that had.
  method SaveAndLoad(s: P.Setup, saver: PlanManager, loader: PlanManager, plan: Plan1D, other: Plan1D,
      key: Str, file: Str) returns (found: bool)
    requires P.Plan(s, plan.bestPath) && loader.planID == saver.planID && plan != other
    requires other.log2len == s.log2len && other.max == s.maxBut
    requires !DecPlan(file).Undefined?
    requires PlainPlan(WithEntry(Accepted(file, saver.thePlan), saver.planID, key, PathBytes(plan.bestPath)))
    modifies saver, loader, other
    ensures found && other.bestPath == plan.bestPath == old(plan.bestPath)
  {
    hide *;
    ghost var path, before := plan.bestPath, Accepted(file, saver.thePlan);
    var contents := SaveMeasurementResults(saver, key, plan, file, true);
    AcceptedIsDefined(contents, saver.thePlan);
    EntryIsLooked(before, saver.planID, key, PathBytes(path));
    SavedPlanIsSet(s, path, other.bestPath);
    AfterLoadIs(PathBytes(path), other);
    found := LoadMeasurementResults(loader, key, other, contents);
  }

  lemma AfterLoadIs(value: Str, plan: Plan1D)
    requires value != []
    ensures AfterLoad(value, plan) == AfterSet(ToText(value), plan.log2len, plan.max, plan.bestPath)
  {
  }
}
