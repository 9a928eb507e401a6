// The constructor of a one-dimensional transform: the choice of the instruction set, and when its
// fallback to the first one is taken.
module Construction {
  import opened Powers
  import opened PathSearch
  import opened Planner

  // What an instruction set reports about itself.
  datatype Isa = Isa(available: bool, priority: int, log2vecwidth: nat)

  // The transform is long enough for the vectors.
  predicate Usable(isa: Isa, n: nat) {
    isa.available && isa.priority > -1 && n >= Pow2(isa.log2vecwidth) * Pow2(isa.log2vecwidth)
  }

  // c is the first usable instruction set of the highest priority.
  ghost predicate IsChoice(isas: seq<Isa>, n: nat, c: int) {
    && 0 <= c < |isas| && Usable(isas[c], n)
    && forall i :: 0 <= i < |isas| && Usable(isas[i], n) ==>
      isas[i].priority <= isas[c].priority && (i < c ==> isas[i].priority < isas[c].priority)
  }

  // The first usable instruction set of the highest priority, or -1.
  method ChooseIsa(isas: seq<Isa>, n: nat) returns (isa: int)
    ensures -1 <= isa < |isas|
    ensures isa == -1 <==> forall i :: 0 <= i < |isas| ==> !Usable(isas[i], n)
    ensures isa >= 0 ==> IsChoice(isas, n, isa)
  {
    var bestPriority := -1;
    isa := -1;
    for i := 0 to |isas|
      invariant -1 <= isa < i && bestPriority == if isa == -1 then -1 else isas[isa].priority
      invariant isa == -1 <==> forall j :: 0 <= j < i ==> !Usable(isas[j], n)
      invariant isa >= 0 ==> Usable(isas[isa], n)
      invariant isa >= 0 ==> forall j :: 0 <= j < i && Usable(isas[j], n) ==>
        isas[j].priority <= isas[isa].priority && (j < isa ==> isas[j].priority < isas[isa].priority)
    {
      if isas[i].available && bestPriority < isas[i].priority &&
        n >= Pow2(isas[i].log2vecwidth) * Pow2(isas[i].log2vecwidth) {
        bestPriority, isa := isas[i].priority, i;
      }
    }
  }

  // A usable instruction set with vectors no wider than the widest butterfly fits the planner.
  lemma UsableFits(s: Setup, isa: Isa)
    requires s.log2len >= 2 && s.log2vecwidth == isa.log2vecwidth && Usable(isa, Pow2(s.log2len))
    ensures Fits(s) <==> s.log2vecwidth <= s.maxBut
  {
    Pow2Add(s.log2vecwidth, s.log2vecwidth);
    Pow2Less(s.log2len, 2 * s.log2vecwidth);
  }

  function SetupOf(isa: Isa, log2len: nat, maxBut: nat, mt1d: bool, stream: bool): Setup {
    Setup(log2len, isa.log2vecwidth, maxBut, mt1d, stream)
  }

  // Without a saved plan the constructor plans for the chosen instruction set.  Where its vectors are
  // wider than the widest butterfly planning fails, and the constructor falls back to the first
  // instruction set, usable or not; it aborts when that does not fit either.
  method Construct(log2len: nat, isas: seq<Isa>, maxBut: nat, mt1d: bool, stream: bool)
    returns (t: Planner.Transform?, isa: int, aborts: bool, ghost chosen: int)
    requires 2 <= log2len < 32 && 1 <= maxBut < 32
    ensures (isa == -1 <==> forall i :: 0 <= i < |isas| ==> !Usable(isas[i], Pow2(log2len)))
    ensures isa == -1 ==> t == null && !aborts
    ensures isa != -1 ==> IsChoice(isas, Pow2(log2len), chosen) && 0 <= isa < |isas|
    ensures isa != -1 ==> isa == if isas[chosen].log2vecwidth <= maxBut then chosen else 0
    ensures isa != -1 ==> (aborts <==> t == null)
    ensures isa != -1 ==> (aborts <==> !Fits(SetupOf(isas[isa], log2len, maxBut, mt1d, stream)))
    ensures isa != -1 && isas[chosen].log2vecwidth <= maxBut ==> !aborts
    ensures t != null ==> isa != -1 && t.s == SetupOf(isas[isa], log2len, maxBut, mt1d, stream)
    ensures t != null ==> Best(t.s, t.bestPath) && Relaxed(t.s, t.bestPath)
  {
    hide Plan, Usable, Total, Fits;
    isa := ChooseIsa(isas, Pow2(log2len));
    t, aborts, chosen := null, false, isa;
    if isa == -1 {
      return;
    }
    UsableFits(SetupOf(isas[isa], log2len, maxBut, mt1d, stream), isas[isa]);
    var tr := new Planner.Transform(SetupOf(isas[isa], log2len, maxBut, mt1d, stream));
    var ok := tr.Measure();
    if !ok {
      isa := 0;
      tr := new Planner.Transform(SetupOf(isas[isa], log2len, maxBut, mt1d, stream));
      ok := tr.Measure();
    }
    aborts := !ok;
    if ok {
      t := tr;
    }
  }
}
