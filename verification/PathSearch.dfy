// The best-first path search of the DFT planner (class KShortest of src/dft/dft.cpp), for an
// arbitrary graph.  Nodes are marked when they are pushed, so every node is pushed at most once
// when limit is 1; the lemmas below show why that still finds cheapest walks when the cost of
// a walk is a sum of weights that sit on its nodes.
module PathSearch {

  // A C++ double that is either a finite path cost or INFINITY_.
  datatype Cost = Finite(units: nat) | Infinite {
    predicate Less(other: Cost) {
      Finite? && (other.Infinite? || units < other.units)
    }
  }

  // What a subclass supplies.  All the overrides in the source look only at the last action of
  // the path they are asked to extend.
  datatype Graph<!T> = Graph(
    starts: seq<T>,
    isDestination: T -> bool,
    next: T -> seq<T>,
    cost: seq<T> -> Cost)

  function Last<T>(p: seq<T>): T
    requires p != []
  {
    p[|p| - 1]
  }

  // A walk from a start point that does not run through a destination.
  ghost predicate Walk<T>(g: Graph<T>, p: seq<T>) {
    && p != []
    && if |p| == 1 then p[0] in g.starts else
         && Walk(g, p[..|p| - 1])
         && !g.isDestination(p[|p| - 2])
         && Last(p) in g.next(p[|p| - 2])
  }

  function Total<T>(w: T -> nat, p: seq<T>): nat {
    if p == [] then 0 else Total(w, p[..|p| - 1]) + w(Last(p))
  }

  ghost predicate Distinct<T>(s: seq<T>) {
    forall i, j :: 0 <= i < j < |s| ==> s[i] != s[j]
  }

  // Node-additive costs on a graph with finitely many nodes.
  ghost predicate Additive<T(!new)>(g: Graph<T>, w: T -> nat, universe: set<T>) {
    && Distinct(g.starts)
    && (forall a :: a in g.starts ==> a in universe)
    && (forall a, b :: a in universe && b in g.next(a) ==> b in universe)
    && (forall p :: Walk(g, p) ==> g.cost(p) == Finite(Total(w, p)))
  }

  ghost predicate Cheapest<T(!new)>(g: Graph<T>, w: T -> nat, p: seq<T>) {
    && Walk(g, p)
    && forall q :: Walk(g, q) && Last(q) == Last(p) ==> Total(w, p) <= Total(w, q)
  }

  // The marked nodes with the walks pushed for them: all cheapest, all start points among them,
  // and closed under the successors of the expanded nodes.
  ghost predicate Marking<T(!new)>(g: Graph<T>, w: T -> nat, pathTo: map<T, seq<T>>, expanded: set<T>) {
    && (forall n :: n in pathTo ==> Cheapest(g, w, pathTo[n]) && Last(pathTo[n]) == n)
    && (forall a :: a in g.starts ==> a in pathTo)
    && (forall c, b :: c in expanded && !g.isDestination(c) && b in g.next(c) ==> b in pathTo)
  }

  // Any walk that ends outside the expanded nodes costs at least what the cheapest pending
  // node costs.
  lemma {:induction false} FrontierBound<T(!new)>(g: Graph<T>, w: T -> nat, pathTo: map<T, seq<T>>, expanded: set<T>,
    bound: nat, q: seq<T>)
    requires Marking(g, w, pathTo, expanded)
    requires forall n :: n in pathTo && n !in expanded ==> bound <= Total(w, pathTo[n])
    requires Walk(g, q) && Last(q) !in expanded
    ensures bound <= Total(w, q)
    decreases |q|
  {
    if Last(q) !in pathTo {
      FrontierBound(g, w, pathTo, expanded, bound, q[..|q| - 1]);
    }
  }

  // Pushing an unmarked successor of the cheapest pending node m gives it a cheapest walk.
  lemma PushIsCheapest<T(!new)>(g: Graph<T>, w: T -> nat, pathTo: map<T, seq<T>>, expanded: set<T>, m: T, n: T)
    requires Marking(g, w, pathTo, expanded)
    requires m in pathTo && m !in expanded && !g.isDestination(m)
    requires forall k :: k in pathTo && k !in expanded ==> Total(w, pathTo[m]) <= Total(w, pathTo[k])
    requires n in g.next(m) && n !in pathTo
    ensures Cheapest(g, w, pathTo[m] + [n])
    ensures Total(w, pathTo[m] + [n]) == Total(w, pathTo[m]) + w(n)
  {
    var p := pathTo[m] + [n];
    assert p[..|p| - 1] == pathTo[m];
    forall q | Walk(g, q) && Last(q) == n
      ensures Total(w, p) <= Total(w, q)
    {
      FrontierBound(g, w, pathTo, expanded, Total(w, pathTo[m]), q[..|q| - 1]);
    }
  }

  // The search state: the fields of the class with, for each marked node, the walk that was
  // pushed for it, and the nodes that have been taken off the heap.
  datatype State<T(!new)> = State(
    heap: seq<seq<T>>, heapCost: seq<Cost>, reached: map<T, nat>, pathTo: map<T, seq<T>>, closed: set<T>)
  {
    // heap, heapCost and reached hold exactly the pending walks of pathTo.
    ghost predicate Bookkeeping(w: T -> nat) {
      && |heap| == |heapCost|
      && (forall i :: 0 <= i < |heap| ==> Pending(w, heap[i], heapCost[i]))
      && Distinct(heap)
      && (forall n :: n in pathTo && n !in closed ==> pathTo[n] in heap)
      && Counted()
      && (forall n :: n in closed ==> n in pathTo)
      && (forall n :: n in pathTo ==> pathTo[n] != [] && Last(pathTo[n]) == n)
    }

    ghost predicate Pending(w: T -> nat, p: seq<T>, c: Cost) {
      && p != [] && Last(p) in pathTo && Last(p) !in closed && pathTo[Last(p)] == p
      && c == Finite(Total(w, p))
    }

    // The marked nodes are those with a positive count.
    ghost predicate Counted() {
      forall n :: n in pathTo <==> n in reached && reached[n] >= 1
    }

    // Every node of lower is no dearer than every pending node.
    ghost predicate Ordered(w: T -> nat, lower: set<T>) {
      forall c, n :: c in lower && c in pathTo && n in pathTo && n !in closed ==>
        Total(w, pathTo[c]) <= Total(w, pathTo[n])
    }

    // Pending walks plus unmarked nodes: what the search still has to look at.
    ghost function Work(universe: set<T>): nat {
      |heap| + |universe - pathTo.Keys|
    }

    function Pushed(p: seq<T>, c: Cost): State<T>
      requires p != []
    {
      State(heap + [p], heapCost + [c],
            reached[Last(p) := (if Last(p) in reached then reached[Last(p)] else 0) + 1],
            pathTo[Last(p) := p], closed)
    }

    function Popped(n: nat): State<T>
      requires n < |heap| && |heap| == |heapCost| && heap[n] != []
    {
      State(heap[..n] + heap[n + 1..], heapCost[..n] + heapCost[n + 1..], reached, pathTo, closed + {Last(heap[n])})
    }
  }

  lemma PushedCounted<T(!new)>(st: State<T>, p: seq<T>, c: Cost)
    requires st.Counted() && p != []
    ensures st.Pushed(p, c).Counted()
  {
  }

  lemma WithoutOne<T>(universe: set<T>, keys: set<T>, n: T)
    requires n in universe && n !in keys
    ensures |universe - (keys + {n})| == |universe - keys| - 1
  {
    assert universe - (keys + {n}) == (universe - keys) - {n};
  }

  lemma PushedWork<T(!new)>(universe: set<T>, st: State<T>, p: seq<T>, c: Cost)
    requires p != [] && Last(p) !in st.pathTo && Last(p) in universe
    ensures st.Pushed(p, c).Work(universe) == st.Work(universe)
  {
    var st' := st.Pushed(p, c);
    assert |st'.heap| == |st.heap| + 1 && st'.pathTo.Keys == st.pathTo.Keys + {Last(p)};
    WithoutOne(universe, st.pathTo.Keys, Last(p));
    hide State.Pushed;
  }

  lemma PushedBookkeeping<T(!new)>(w: T -> nat, st: State<T>, p: seq<T>, c: Cost)
    requires st.Bookkeeping(w)
    requires p != [] && Last(p) !in st.pathTo && c == Finite(Total(w, p))
    ensures st.Pushed(p, c).Bookkeeping(w)
  {
    PushedCounted(st, p, c);
    hide Total, State.Counted;
    var st' := st.Pushed(p, c);
    forall i | 0 <= i < |st'.heap|
      ensures st'.Pending(w, st'.heap[i], st'.heapCost[i])
    {
      assert i < |st.heap| ==> st.Pending(w, st.heap[i], st.heapCost[i]);
    }
    forall n | n in st'.pathTo && n !in st'.closed
      ensures st'.pathTo[n] in st'.heap
    {
      assert n == Last(p) ==> st'.heap[|st.heap|] == p;
    }
  }

  lemma PoppedEntries<T(!new)>(w: T -> nat, st: State<T>, k: nat)
    requires st.Bookkeeping(w) && k < |st.heap|
    ensures st.Pending(w, st.heap[k], st.heapCost[k])
    ensures forall i :: 0 <= i < |st.Popped(k).heap| ==>
      st.Popped(k).Pending(w, st.Popped(k).heap[i], st.Popped(k).heapCost[i])
  {
    hide Total;
    assert st.Pending(w, st.heap[k], st.heapCost[k]);
    var st' := st.Popped(k);
    forall i | 0 <= i < |st'.heap|
      ensures st'.Pending(w, st'.heap[i], st'.heapCost[i])
    {
      var i' := if i < k then i else i + 1;
      assert st'.heap[i] == st.heap[i'] && st'.heapCost[i] == st.heapCost[i'];
      assert st.Pending(w, st.heap[i'], st.heapCost[i']);
    }
  }

  lemma Without<A>(s: seq<A>, k: nat)
    requires k < |s| && Distinct(s)
    ensures Distinct(s[..k] + s[k + 1..])
    ensures forall x :: x in s && x != s[k] ==> x in s[..k] + s[k + 1..]
  {
    forall x | x in s && x != s[k]
      ensures x in s[..k] + s[k + 1..]
    {
      var i :| 0 <= i < |s| && s[i] == x;
      assert (s[..k] + s[k + 1..])[if i < k then i else i - 1] == x;
    }
  }

  lemma PoppedBookkeeping<T(!new)>(w: T -> nat, universe: set<T>, st: State<T>, k: nat)
    requires st.Bookkeeping(w) && k < |st.heap|
    ensures st.Pending(w, st.heap[k], st.heapCost[k])
    ensures st.Popped(k).Bookkeeping(w)
    ensures st.Popped(k).Work(universe) == st.Work(universe) - 1
  {
    hide Total, Distinct;
    assert st.Counted() ==> st.Popped(k).Counted();
    hide State.Counted;
    PoppedEntries(w, st, k);
    Without(st.heap, k);
  }

  // The cheapest heap entry is the cheapest pending node.
  lemma PoppedIsCheapest<T(!new)>(w: T -> nat, st: State<T>, k: nat)
    requires st.Bookkeeping(w) && k < |st.heap|
    requires forall i :: 0 <= i < |st.heap| ==> !st.heapCost[i].Less(st.heapCost[k])
    ensures st.heap[k] != []
    ensures forall n :: n in st.pathTo && n !in st.closed ==> Total(w, st.heap[k]) <= Total(w, st.pathTo[n])
  {
    assert st.Pending(w, st.heap[k], st.heapCost[k]);
    forall n | n in st.pathTo && n !in st.closed
      ensures Total(w, st.heap[k]) <= Total(w, st.pathTo[n])
    {
      var i :| 0 <= i < |st.heap| && st.heap[i] == st.pathTo[n];
      assert st.Pending(w, st.heap[i], st.heapCost[i]);
    }
  }

  // The invariant between two calls.
  ghost predicate Settled<T(!new)>(g: Graph<T>, w: T -> nat, st: State<T>) {
    st.Bookkeeping(w) && Marking(g, w, st.pathTo, st.closed) && st.Ordered(w, st.closed)
  }

  // The invariant while the successors of m are being pushed.
  ghost predicate Expanding<T(!new)>(g: Graph<T>, w: T -> nat, st: State<T>, m: T) {
    && st.Bookkeeping(w)
    && m in st.closed && !g.isDestination(m)
    && Marking(g, w, st.pathTo, st.closed - {m})
    && st.Ordered(w, st.closed)
    && forall c :: c in st.closed ==> Total(w, st.pathTo[c]) <= Total(w, st.pathTo[m])
  }

  lemma PopCheapest<T(!new)>(g: Graph<T>, w: T -> nat, st: State<T>, k: nat)
    requires Settled(g, w, st) && k < |st.heap|
    requires forall i :: 0 <= i < |st.heap| ==> !st.heapCost[i].Less(st.heapCost[k])
    ensures Cheapest(g, w, st.heap[k]) && Last(st.heap[k]) !in st.closed
    ensures Last(st.heap[k]) in st.pathTo && st.pathTo[Last(st.heap[k])] == st.heap[k]
    ensures forall q :: Walk(g, q) && Last(q) !in st.closed ==> Total(w, st.heap[k]) <= Total(w, q)
  {
    PoppedIsCheapest(w, st, k);
    assert st.Pending(w, st.heap[k], st.heapCost[k]);
    hide State.Bookkeeping, Total;
    forall q | Walk(g, q) && Last(q) !in st.closed
      ensures Total(w, st.heap[k]) <= Total(w, q)
    {
      FrontierBound(g, w, st.pathTo, st.closed, Total(w, st.heap[k]), q);
    }
  }

  lemma PopKeeps<T(!new)>(g: Graph<T>, w: T -> nat, universe: set<T>, st: State<T>, k: nat)
    requires Settled(g, w, st) && k < |st.heap|
    requires forall i :: 0 <= i < |st.heap| ==> !st.heapCost[i].Less(st.heapCost[k])
    ensures st.heap[k] != [] && |st.heap| == |st.heapCost|
    ensures if g.isDestination(Last(st.heap[k])) then Settled(g, w, st.Popped(k))
            else Expanding(g, w, st.Popped(k), Last(st.heap[k]))
    ensures st.Popped(k).Work(universe) == st.Work(universe) - 1
  {
    PoppedBookkeeping(w, universe, st, k);
    PoppedOrdered(w, st, k);
    PoppedMarking(g, w, st, k);
    hide Total, Cheapest, State.Bookkeeping, State.Ordered, State.Work, Marking;
  }

  // The closed nodes are no dearer than the node taken off, and that one no dearer than the pending
  // ones.
  lemma PoppedOrdered<T(!new)>(w: T -> nat, st: State<T>, k: nat)
    requires st.Bookkeeping(w) && st.Ordered(w, st.closed) && k < |st.heap|
    requires forall i :: 0 <= i < |st.heap| ==> !st.heapCost[i].Less(st.heapCost[k])
    ensures st.heap[k] != [] && st.Popped(k).Ordered(w, st.Popped(k).closed)
    ensures Last(st.heap[k]) in st.pathTo
    ensures forall c :: c in st.Popped(k).closed ==>
      c in st.pathTo && Total(w, st.pathTo[c]) <= Total(w, st.pathTo[Last(st.heap[k])])
  {
    PoppedIsCheapest(w, st, k);
    assert st.Pending(w, st.heap[k], st.heapCost[k]);
    hide Total;
  }

  lemma PoppedMarking<T(!new)>(g: Graph<T>, w: T -> nat, st: State<T>, k: nat)
    requires st.Bookkeeping(w) && Marking(g, w, st.pathTo, st.closed) && k < |st.heap|
    ensures st.heap[k] != [] && Last(st.heap[k]) !in st.closed
    ensures g.isDestination(Last(st.heap[k])) ==> Marking(g, w, st.pathTo, st.Popped(k).closed)
    ensures Marking(g, w, st.pathTo, st.Popped(k).closed - {Last(st.heap[k])})
  {
    assert st.Pending(w, st.heap[k], st.heapCost[k]);
    hide Total, Cheapest;
    assert st.Popped(k).closed - {Last(st.heap[k])} == st.closed;
  }

  lemma MarkingGrows<T(!new)>(g: Graph<T>, w: T -> nat, pathTo: map<T, seq<T>>, expanded: set<T>, p: seq<T>)
    requires Marking(g, w, pathTo, expanded)
    requires p != [] && Last(p) !in pathTo && Cheapest(g, w, p)
    ensures Marking(g, w, pathTo[Last(p) := p], expanded)
  {
    hide Cheapest, Total;
  }

  lemma PushKeeps<T(!new)>(g: Graph<T>, w: T -> nat, universe: set<T>, st: State<T>, m: T, a: T)
    requires Additive(g, w, universe)
    requires Expanding(g, w, st, m) && a in g.next(m) && a !in st.pathTo && m in universe
    ensures Expanding(g, w, st.Pushed(st.pathTo[m] + [a], g.cost(st.pathTo[m] + [a])), m)
    ensures st.Pushed(st.pathTo[m] + [a], g.cost(st.pathTo[m] + [a])).Work(universe) == st.Work(universe)
  {
    var p := st.pathTo[m] + [a];
    PushIsCheapest(g, w, st.pathTo, st.closed - {m}, m, a);
    assert a in universe && g.cost(p) == Finite(Total(w, p));
    PushedWork(universe, st, p, g.cost(p));
    PushedBookkeeping(w, st, p, g.cost(p));
    MarkingGrows(g, w, st.pathTo, st.closed - {m}, p);
    PushedOrdered(w, st, m, p);
    assert m in st.closed && forall c :: c in st.closed ==> c in st.pathTo;
    hide Total, Cheapest, Marking, State.Bookkeeping, State.Ordered, Additive;
  }

  lemma PushedOrdered<T(!new)>(w: T -> nat, st: State<T>, m: T, p: seq<T>)
    requires st.Ordered(w, st.closed) && m in st.closed && forall c :: c in st.closed ==> c in st.pathTo
    requires forall c :: c in st.closed ==> Total(w, st.pathTo[c]) <= Total(w, st.pathTo[m])
    requires p != [] && Last(p) !in st.pathTo && Total(w, st.pathTo[m]) <= Total(w, p)
    ensures forall c: Cost :: st.Pushed(p, c).Ordered(w, st.closed)
  {
    hide Total;
  }

  ghost function StartSet<T>(g: Graph<T>, k: nat): set<T>
    requires k <= |g.starts|
  {
    if k == 0 then {} else StartSet(g, k - 1) + {g.starts[k - 1]}
  }

  lemma StartSetMembers<T(!new)>(g: Graph<T>, k: nat)
    requires k <= |g.starts|
    ensures forall a :: a in StartSet(g, k) <==> exists i :: 0 <= i < k && g.starts[i] == a
  {
    if k > 0 {
      StartSetMembers(g, k - 1);
      assert g.starts[k - 1] in StartSet(g, k);
    }
  }

  // The state after k start points have been pushed.
  ghost predicate Started<T(!new)>(g: Graph<T>, w: T -> nat, st: State<T>, k: nat) {
    && st.Bookkeeping(w) && st.closed == {} && k <= |g.starts|
    && st.pathTo.Keys == StartSet(g, k)
    && (forall n :: n in st.pathTo ==> Cheapest(g, w, st.pathTo[n]))
  }

  lemma NothingStarted<T(!new)>(g: Graph<T>, w: T -> nat)
    ensures Started(g, w, State([], [], map[], map[], {}), 0)
  {
  }

  lemma StartIsCheapest<T(!new)>(g: Graph<T>, w: T -> nat, universe: set<T>, k: nat)
    requires Additive(g, w, universe) && k < |g.starts|
    ensures g.starts[k] in universe && g.starts[k] !in StartSet(g, k)
    ensures Cheapest(g, w, [g.starts[k]])
    ensures g.cost([g.starts[k]]) == Finite(Total(w, [g.starts[k]]))
  {
    StartSetMembers(g, k);
    var p := [g.starts[k]];
    assert Walk(g, p);
    forall q | Walk(g, q) && Last(q) == Last(p)
      ensures Total(w, p) <= Total(w, q)
    {
      assert Total(w, p) == Total(w, []) + w(p[0]);
    }
  }

  lemma StartPushed<T(!new)>(g: Graph<T>, w: T -> nat, universe: set<T>, st: State<T>, k: nat)
    requires Additive(g, w, universe) && Started(g, w, st, k) && k < |g.starts|
    ensures Started(g, w, st.Pushed([g.starts[k]], g.cost([g.starts[k]])), k + 1)
  {
    hide Additive, Total, State.Bookkeeping, Cheapest;
    StartIsCheapest(g, w, universe, k);
    var v, c := [g.starts[k]], g.cost([g.starts[k]]);
    PushedBookkeeping(w, st, v, c);
    assert st.Pushed(v, c).pathTo.Keys == st.pathTo.Keys + {g.starts[k]};
    assert StartSet(g, k + 1) == StartSet(g, k) + {g.starts[k]};
    hide StartSet;
  }

  lemma StartsSettled<T(!new)>(g: Graph<T>, w: T -> nat, universe: set<T>, st: State<T>)
    requires Additive(g, w, universe) && Started(g, w, st, |g.starts|)
    ensures Settled(g, w, st) && |st.heap| == |st.heapCost| && st.pathTo.Keys <= universe
  {
    hide Cheapest;
    StartSetMembers(g, |g.starts|);
  }

  lemma FirstIsFinite<T(!new)>(w: T -> nat, st: State<T>)
    requires st.Bookkeeping(w) && st.heap != []
    ensures st.heapCost[0].Finite?
  {
    assert st.Pending(w, st.heap[0], st.heapCost[0]);
  }

  lemma NothingPending<T(!new)>(w: T -> nat, st: State<T>)
    requires st.Bookkeeping(w)
    requires forall i :: 0 <= i < |st.heapCost| ==> st.heapCost[i].Infinite?
    ensures st.heap == []
  {
    if st.heap != [] {
      FirstIsFinite(w, st);
    }
  }

  // When nothing is pending, every node that a walk reaches has been taken off the heap.
  lemma AllReported<T(!new)>(g: Graph<T>, w: T -> nat, st: State<T>)
    requires Settled(g, w, st) && forall i :: 0 <= i < |st.heapCost| ==> st.heapCost[i].Infinite?
    ensures forall q :: Walk(g, q) ==> Last(q) in st.closed
  {
    NothingPending(w, st);
    forall q | Walk(g, q)
      ensures Last(q) in st.closed
    {
      if Last(q) !in st.closed {
        FrontierBound(g, w, st.pathTo, st.closed, Total(w, q) + 1, q);
      }
    }
  }

  lemma MarkedIsReached<T(!new)>(g: Graph<T>, w: T -> nat, universe: set<T>, st: State<T>, m: T, a: T)
    requires Additive(g, w, universe) && Expanding(g, w, st, m) && m in universe && a in g.next(m)
    ensures a in universe
    ensures a in st.pathTo <==> a in st.reached && st.reached[a] >= 1
  {
    hide Marking;
  }

  lemma ExpandedSettles<T(!new)>(g: Graph<T>, w: T -> nat, st: State<T>, m: T)
    requires Expanding(g, w, st, m)
    requires forall b :: b in g.next(m) ==> b in st.pathTo
    ensures Settled(g, w, st) && |st.heap| == |st.heapCost|
  {
    assert |st.heap| == |st.heapCost|;
    hide Cheapest, Total, State.Bookkeeping;
  }

  ghost function Ends<T>(paths: seq<seq<T>>): set<T> {
    set i | 0 <= i < |paths| && paths[i] != [] :: Last(paths[i])
  }

  // Cheapest walks to distinct destinations, in nondecreasing order of cost.
  ghost predicate EachCheapest<T(!new)>(g: Graph<T>, w: T -> nat, paths: seq<seq<T>>) {
    && (forall i :: 0 <= i < |paths| ==> Cheapest(g, w, paths[i]) && paths[i] != [] && g.isDestination(Last(paths[i])))
    && (forall i, j :: 0 <= i < j < |paths| ==> Last(paths[i]) != Last(paths[j]))
    && (forall i, j :: 0 <= i < j < |paths| ==> Total(w, paths[i]) <= Total(w, paths[j]))
  }

  // No walk to a destination outside done is cheaper than a path already returned.
  ghost predicate Bounded<T(!new)>(g: Graph<T>, w: T -> nat, paths: seq<seq<T>>, done: set<T>) {
    forall p, q | p in paths && Walk(g, q) && g.isDestination(Last(q)) && Last(q) !in done :: Total(w, p) <= Total(w, q)
  }

  lemma NextPath<T(!new)>(g: Graph<T>, w: T -> nat, paths: seq<seq<T>>, p: seq<T>)
    requires EachCheapest(g, w, paths) && Bounded(g, w, paths, Ends(paths))
    requires Cheapest(g, w, p) && p != [] && g.isDestination(Last(p)) && Last(p) !in Ends(paths)
    requires forall q :: Walk(g, q) && g.isDestination(Last(q)) && Last(q) !in Ends(paths) ==>
      Total(w, p) <= Total(w, q)
    ensures Ends(paths + [p]) == Ends(paths) + {Last(p)}
    ensures EachCheapest(g, w, paths + [p]) && Bounded(g, w, paths + [p], Ends(paths + [p]))
  {
    hide Total, Walk;
    assert Walk(g, p) by {
      CheapestIsWalk(g, w, p);
    }
    hide Cheapest;
    EndsAppend(paths, p);
    forall i | 0 <= i < |paths|
      ensures Last(paths[i]) != Last(p) && Total(w, paths[i]) <= Total(w, p)
    {
      assert paths[i] in paths && Last(paths[i]) in Ends(paths);
    }
    assert EachCheapest(g, w, paths + [p]);
    hide Ends, EachCheapest;
  }

  lemma CheapestIsWalk<T(!new)>(g: Graph<T>, w: T -> nat, p: seq<T>)
    requires Cheapest(g, w, p)
    ensures Walk(g, p)
  {
    hide Total, Walk;
  }

  lemma EndsAppend<T>(paths: seq<seq<T>>, p: seq<T>)
    requires p != []
    ensures Ends(paths + [p]) == Ends(paths) + {Last(p)}
  {
    assert (paths + [p])[|paths|] == p;
    assert forall i :: 0 <= i < |paths| ==> (paths + [p])[i] == paths[i];
  }

  class KShortest<T(==, !new)> {
    const g: Graph<T>
    const limit: nat
    ghost const w: T -> nat
    ghost const universe: set<T>

    var heap: seq<seq<T>>
    var heapCost: seq<Cost>
    var reached: map<T, nat>

    ghost var pathTo: map<T, seq<T>>
    ghost var closed: set<T>

    ghost function View(): State<T>
      reads this
    {
      State(heap, heapCost, reached, pathTo, closed)
    }

    ghost predicate Valid()
      reads this
    {
      && limit == 1
      && Additive(g, w, universe)
      && Settled(g, w, View())
      && |heap| == |heapCost|
      && pathTo.Keys <= universe
    }

    // The destinations reported so far.
    ghost function Reported(): set<T>
      reads this
    {
      set c | c in closed && g.isDestination(c)
    }

    // An empty path counts for no node.
    method AddPath(p: seq<T>, cost: Cost) returns (size: nat)
      modifies this`heap, this`heapCost, this`reached, this`pathTo
      ensures p != [] ==> View() == old(View()).Pushed(p, cost)
      ensures p == [] ==> View() == old(View()).(heap := old(heap) + [p], heapCost := old(heapCost) + [cost])
      ensures size == |heap|
    {
      heap := heap + [p];
      heapCost := heapCost + [cost];
      if p != [] {
        var count := if Last(p) in reached then reached[Last(p)] else 0;
        reached := reached[Last(p) := count + 1];
        pathTo := pathTo[Last(p) := p];
      }
      size := |heap|;
    }

    method Remove(n: nat)
      requires n < |heap| && |heap| == |heapCost| && heap[n] != []
      modifies this`heap, this`heapCost, this`closed
      ensures View() == old(View()).Popped(n)
    {
      closed := closed + {Last(heap[n])};
      heap := heap[..n] + heap[n + 1..];
      heapCost := heapCost[..n] + heapCost[n + 1..];
    }

    constructor (g: Graph<T>, ghost w: T -> nat, ghost universe: set<T>)
      requires Additive(g, w, universe)
      ensures Valid()
      ensures this.g == g && this.w == w && this.universe == universe
      ensures Reported() == {}
    {
      this.g := g;
      this.limit := 1;
      this.w := w;
      this.universe := universe;
      heap, heapCost, reached, pathTo, closed := [], [], map[], map[], {};
      new;
      PushStarts();
    }

    method PushStarts()
      requires limit == 1 && Additive(g, w, universe)
      requires View() == State([], [], map[], map[], {})
      modifies this`heap, this`heapCost, this`reached, this`pathTo
      ensures Valid() && closed == {}
    {
      hide Settled, Started, Additive;
      NothingStarted(g, w);
      for k := 0 to |g.starts|
        invariant Started(g, w, View(), k) && closed == {}
      {
        var v := [g.starts[k]];
        StartPushed(g, w, universe, View(), k);
        var _ := AddPath(v, g.cost(v));
      }
      StartsSettled(g, w, universe, View());
    }

    // The index of the first cheapest heap entry, or |heap| when no entry costs less than
    // INFINITY_.
    method FindBest() returns (bestNum: nat)
      requires |heap| == |heapCost|
      ensures bestNum <= |heap|
      ensures bestNum == |heap| ==> forall i :: 0 <= i < |heap| ==> heapCost[i].Infinite?
      ensures bestNum < |heap| ==> forall i :: 0 <= i < |heap| ==> !heapCost[i].Less(heapCost[bestNum])
    {
      var bestCost := Infinite;
      bestNum := |heap|;
      for i := 0 to |heap|
        invariant bestNum == |heap| || bestNum < i
        invariant bestCost == if bestNum == |heap| then Infinite else heapCost[bestNum]
        invariant forall k :: 0 <= k < i ==> !heapCost[k].Less(bestCost)
      {
        if heapCost[i].Less(bestCost) {
          bestCost, bestNum := heapCost[i], i;
        }
      }
    }

    // One successor a of the path just taken off the heap.
    method Push(best: seq<T>, a: T)
      requires limit == 1 && Additive(g, w, universe)
      requires best != [] && Last(best) in universe && Last(best) in pathTo && best == pathTo[Last(best)]
      requires Expanding(g, w, View(), Last(best)) && a in g.next(Last(best))
      modifies this`heap, this`heapCost, this`reached, this`pathTo
      ensures Expanding(g, w, View(), Last(best)) && a in pathTo && a in universe
      ensures pathTo == if a in old(pathTo) then old(pathTo) else old(pathTo)[a := best + [a]]
      ensures View().Work(universe) == old(View().Work(universe))
    {
      MarkedIsReached(g, w, universe, View(), Last(best), a);
      hide Expanding, Additive, State.Work;
      var count := if a in reached then reached[a] else 0;
      if limit != 0 && count >= limit { return; }
      PushKeeps(g, w, universe, View(), Last(best), a);
      var _ := AddPath(best + [a], g.cost(best + [a]));
    }

    // Push the unmarked successors of the path just taken off the heap.
    method Expand(best: seq<T>)
      requires limit == 1 && Additive(g, w, universe) && pathTo.Keys <= universe
      requires best != [] && Last(best) in pathTo && best == pathTo[Last(best)]
      requires Expanding(g, w, View(), Last(best))
      modifies this`heap, this`heapCost, this`reached, this`pathTo
      ensures Valid() && closed == old(closed)
      ensures View().Work(universe) == old(View().Work(universe))
    {
      hide Expanding, Settled, Additive, State.Work;
      var adj := g.next(Last(best));
      for k := 0 to |adj|
        invariant pathTo.Keys <= universe && Last(best) in pathTo && best == pathTo[Last(best)]
        invariant Expanding(g, w, View(), Last(best))
        invariant forall i :: 0 <= i < k ==> adj[i] in pathTo
        invariant View().Work(universe) == old(View().Work(universe))
      {
        Push(best, adj[k]);
      }
      ExpandedSettles(g, w, View(), Last(best));
    }

    // One turn of the search loop.
    method Turn(bestNum: nat) returns (best: seq<T>)
      requires Valid() && bestNum < |heap|
      requires forall i :: 0 <= i < |heap| ==> !heapCost[i].Less(heapCost[bestNum])
      modifies this`heap, this`heapCost, this`reached, this`pathTo, this`closed
      ensures Valid() && best != []
      ensures View().Work(universe) == old(View().Work(universe)) - 1
      ensures Cheapest(g, w, best) && Last(best) !in old(closed) && closed == old(closed) + {Last(best)}
      ensures forall q :: Walk(g, q) && Last(q) !in old(closed) ==> Total(w, best) <= Total(w, q)
    {
      hide Settled, Expanding, Additive, Total, Walk, Cheapest, State.Work;
      PopCheapest(g, w, View(), bestNum);
      PopKeeps(g, w, universe, View(), bestNum);
      best := heap[bestNum];
      Remove(bestNum);
      if !g.isDestination(Last(best)) {
        Expand(best);
      }
    }

    // Compute and return the next-best path; [] when there is none.
    method Execute() returns (best: seq<T>)
      requires Valid()
      modifies this`heap, this`heapCost, this`reached, this`pathTo, this`closed
      ensures Valid()
      ensures best == [] ==> Reported() == old(Reported())
      ensures best == [] ==> forall q :: Walk(g, q) && g.isDestination(Last(q)) ==> Last(q) in Reported()
      ensures best != [] ==> Cheapest(g, w, best) && g.isDestination(Last(best))
      ensures best != [] ==> Last(best) !in old(Reported()) && Reported() == old(Reported()) + {Last(best)}
      ensures best != [] ==> forall q :: Walk(g, q) && g.isDestination(Last(q)) && Last(q) !in old(Reported()) ==>
        Total(w, best) <= Total(w, q)
    {
      hide Settled, Additive, Total, Walk, Cheapest;
      while true
        invariant Valid()
        invariant Reported() == old(Reported())
        decreases View().Work(universe)
      {
        var bestNum := FindBest();
        if bestNum == |heap| {
          AllReported(g, w, View());
          return [];
        }
        best := Turn(bestNum);
        if g.isDestination(Last(best)) {
          return;
        }
      }
    }

    // The loop of searchForBestPath over successive next-best paths, without its timing runs.
    method FirstPaths(nPaths: nat) returns (paths: seq<seq<T>>)
      requires Valid() && Reported() == {}
      modifies this`heap, this`heapCost, this`reached, this`pathTo, this`closed
      ensures Valid() && |paths| <= nPaths
      ensures EachCheapest(g, w, paths)
      ensures |paths| < nPaths ==> forall q :: Walk(g, q) && g.isDestination(Last(q)) ==> Last(q) in Ends(paths)
    {
      hide Settled, Additive, Total, Walk, Cheapest;
      paths := [];
      while |paths| < nPaths
        invariant Valid() && |paths| <= nPaths
        invariant EachCheapest(g, w, paths)
        invariant Reported() == Ends(paths)
        invariant Bounded(g, w, paths, Reported())
      {
        var p := Execute();
        if p == [] { break; }
        NextPath(g, w, paths, p);
        paths := paths + [p];
      }
    }
  }
}
