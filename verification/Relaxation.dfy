// What an answer found without some constraints says about all of them.
module Relaxation {
  import opened LinearAlgebra
  import opened StandardForm
  import opened FreeVariables

  // Every point that satisfies the constraints other than those of gone satisfies these too.
  ghost predicate Implied(rows: seq<Vec>, rels: seq<Relation>, gone: set<nat>, n: nat)
    requires |rows| == |rels|
  {
    forall x :: |x| == n && AdmissibleBut(rows, rels, gone, x) ==> Admissible(rows, rels, x)
  }

  // z costs less than every point that satisfies all constraints.
  ghost predicate BelowAll(rows: seq<Vec>, rels: seq<Relation>, cost: Vec, z: Vec)
    requires |rows| == |rels| && |z| == |cost|
  {
    forall x :: |x| == |cost| && Admissible(rows, rels, x) ==> Dot(cost, z, |cost|) < Dot(cost, x, |cost|)
  }

  // Without the constraints gone some point costs less than every point that satisfies them all.
  ghost predicate Undershoots(rows: seq<Vec>, rels: seq<Relation>, gone: set<nat>, cost: Vec)
    requires |rows| == |rels|
  {
    exists z :: |z| == |cost| && AdmissibleBut(rows, rels, gone, z) && BelowAll(rows, rels, cost, z)
  }

  // Some optimum costs v.
  ghost predicate Attained(rows: seq<Vec>, rels: seq<Relation>, cost: Vec, v: real)
    requires |rows| == |rels|
  {
    exists y :: Cheapest(rows, rels, cost, y) && Dot(cost, y, |cost|) == v
  }

  lemma AdmissibleIsBut(rows: seq<Vec>, rels: seq<Relation>, gone: set<nat>, x: Vec)
    requires |rows| == |rels| && Admissible(rows, rels, x)
    ensures AdmissibleBut(rows, rels, gone, x)
  {
    hide RowHolds;
  }

  // ---------------------------------------------------------------- which constraints may be left out

  // The coefficients of a violated constraint, or their negatives, are costs for which the point
  // that violates it costs less than every point that satisfies it.
  function Separating(r: Vec, rel: Relation, z: Vec): (cost: Vec)
    requires |r| == |z|
    ensures |cost| == |r|
  {
    if rel == AtLeast || (rel == Equal && Dot(r, z, |r|) < 0.0) then r else Negated(r)
  }

  lemma Separates(r: Vec, rel: Relation, z: Vec, x: Vec)
    requires |r| == |z| == |x| && !RowHolds(r, rel, z) && RowHolds(r, rel, x)
    ensures Dot(Separating(r, rel, z), z, |r|) < Dot(Separating(r, rel, z), x, |r|)
  {
    hide Dot;
    NegatedValue(r, z);
    NegatedValue(r, x);
  }

  lemma ViolatedUndershoots(rows: seq<Vec>, rels: seq<Relation>, gone: set<nat>, z: Vec) returns (cost: Vec)
    requires |rows| == |rels| && forall i :: 0 <= i < |rows| ==> |rows[i]| == |z|
    requires AdmissibleBut(rows, rels, gone, z) && !Admissible(rows, rels, z)
    ensures |cost| == |z| && Undershoots(rows, rels, gone, cost)
  {
    hide Dot, RowHolds, Separating;
    var i :| 0 <= i < |rows| && !RowHolds(rows[i], rels[i], z);
    cost := Separating(rows[i], rels[i], z);
    forall x: Vec | |x| == |cost| && Admissible(rows, rels, x)
      ensures Dot(cost, z, |cost|) < Dot(cost, x, |cost|)
    {
      Separates(rows[i], rels[i], z, x);
    }
    assert BelowAll(rows, rels, cost, z);
  }

  // The constraints gone may be left out for all costs exactly when the others imply them.
  lemma ImpliedIsExact(rows: seq<Vec>, rels: seq<Relation>, gone: set<nat>, n: nat)
    requires |rows| == |rels| && forall i :: 0 <= i < |rows| ==> |rows[i]| == n
    ensures Implied(rows, rels, gone, n) <==> forall cost: Vec | |cost| == n :: !Undershoots(rows, rels, gone, cost)
  {
    hide Dot, AdmissibleBut;
    if !Implied(rows, rels, gone, n) {
      var z :| |z| == n && AdmissibleBut(rows, rels, gone, z) && !Admissible(rows, rels, z);
      var cost := ViolatedUndershoots(rows, rels, gone, z);
    }
    if Implied(rows, rels, gone, n) {
      forall cost: Vec | |cost| == n
        ensures !Undershoots(rows, rels, gone, cost)
      {
        ImpliedNeverUndershoots(rows, rels, gone, cost);
      }
    }
  }

  lemma ImpliedNeverUndershoots(rows: seq<Vec>, rels: seq<Relation>, gone: set<nat>, cost: Vec)
    requires |rows| == |rels| && Implied(rows, rels, gone, |cost|)
    ensures !Undershoots(rows, rels, gone, cost)
  {
    hide Dot, AdmissibleBut;
    forall z: Vec | |z| == |cost| && AdmissibleBut(rows, rels, gone, z)
      ensures !BelowAll(rows, rels, cost, z)
    {
      assert Admissible(rows, rels, z);
    }
  }

  // ---------------------------------------------------------------- what the answers then say

  lemma UndershotCostsMore(rows: seq<Vec>, rels: seq<Relation>, gone: set<nat>, cost: Vec, x: Vec, y: Vec)
    requires |rows| == |rels| && CheapestBut(rows, rels, gone, cost, x) && Undershoots(rows, rels, gone, cost)
    requires |y| == |cost| && Admissible(rows, rels, y)
    ensures Dot(cost, x, |cost|) < Dot(cost, y, |cost|)
  {
    hide Dot, AdmissibleBut;
  }

  // An optimum without the constraints gone has the cost of an optimum exactly unless some point
  // undershoots, and is an optimum exactly when it satisfies the constraints gone too.
  lemma OptimumWithout(rows: seq<Vec>, rels: seq<Relation>, gone: set<nat>, cost: Vec, x: Vec)
    requires |rows| == |rels| && CheapestBut(rows, rels, gone, cost, x)
    ensures Attained(rows, rels, cost, Dot(cost, x, |cost|)) <==> !Undershoots(rows, rels, gone, cost)
    ensures Cheapest(rows, rels, cost, x) <==> Admissible(rows, rels, x)
  {
    hide Dot, AdmissibleBut;
    forall y: Vec | Admissible(rows, rels, y)
      ensures AdmissibleBut(rows, rels, gone, y)
    {
      AdmissibleIsBut(rows, rels, gone, y);
    }
    if Undershoots(rows, rels, gone, cost) {
      forall y | Cheapest(rows, rels, cost, y)
        ensures Dot(cost, y, |cost|) > Dot(cost, x, |cost|)
      {
        UndershotCostsMore(rows, rels, gone, cost, x, y);
      }
    } else {
      assert !BelowAll(rows, rels, cost, x);
      var y :| |y| == |cost| && Admissible(rows, rels, y) && Dot(cost, x, |cost|) >= Dot(cost, y, |cost|);
      assert Cheapest(rows, rels, cost, y);
    }
  }

  lemma UndershotIsBounded(rows: seq<Vec>, rels: seq<Relation>, gone: set<nat>, cost: Vec)
    requires |rows| == |rels| && Undershoots(rows, rels, gone, cost)
    ensures !FreeNoLowerBound(rows, rels, {}, cost)
  {
    hide Dot, AdmissibleBut;
    var z :| |z| == |cost| && AdmissibleBut(rows, rels, gone, z) && BelowAll(rows, rels, cost, z);
    assert !FreeUndercut(rows, rels, {}, cost, Dot(cost, z, |cost|));
  }

  // A cost unbounded without the constraints gone is unbounded exactly unless some point undershoots.
  lemma UnboundedWithout(rows: seq<Vec>, rels: seq<Relation>, gone: set<nat>, cost: Vec)
    requires |rows| == |rels| && FreeNoLowerBound(rows, rels, gone, cost)
    ensures FreeNoLowerBound(rows, rels, {}, cost) <==> !Undershoots(rows, rels, gone, cost)
  {
    hide Dot, AdmissibleBut;
    if Undershoots(rows, rels, gone, cost) {
      UndershotIsBounded(rows, rels, gone, cost);
    } else {
      forall bound: real
        ensures FreeUndercut(rows, rels, {}, cost, bound)
      {
        assert FreeUndercut(rows, rels, gone, cost, bound);
        var z :| |z| == |cost| && AdmissibleBut(rows, rels, gone, z) && Dot(cost, z, |cost|) < bound;
        assert !BelowAll(rows, rels, cost, z);
      }
    }
  }

  lemma OptimumIsBounded(rows: seq<Vec>, rels: seq<Relation>, gone: set<nat>, cost: Vec, x: Vec)
    requires |rows| == |rels| && CheapestBut(rows, rels, gone, cost, x)
    ensures !FreeNoLowerBound(rows, rels, gone, cost)
  {
    hide Dot, AdmissibleBut;
    assert !FreeUndercut(rows, rels, gone, cost, Dot(cost, x, |cost|));
  }

  // With implied constraints gone, an optimum without them is an optimum.
  lemma ImpliedOptimum(rows: seq<Vec>, rels: seq<Relation>, gone: set<nat>, cost: Vec, x: Vec)
    requires |rows| == |rels| && CheapestBut(rows, rels, gone, cost, x)
    ensures Implied(rows, rels, gone, |cost|) ==> Cheapest(rows, rels, cost, x)
    ensures Undershoots(rows, rels, gone, cost) ==> !Cheapest(rows, rels, cost, x)
  {
    OptimumWithout(rows, rels, gone, cost, x);
    hide Dot, AdmissibleBut;
    assert Cheapest(rows, rels, cost, x) ==> Attained(rows, rels, cost, Dot(cost, x, |cost|));
  }
}
