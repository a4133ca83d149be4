/** The two read-only walks of internal/vectorindex/hnsw.go: greedy descent on one
    layer and the beam search with its two heaps. */
module HnswSearch {
  import opened Collections
  import opened HnswGraph

  // ---------- heap contract ----------

  /** A heap holds scored nodes; the search never pushes one that is already there,
      so its contents are a set. Ties may come out in any order. */
  type Heap = set<ScoredNode>

  ghost predicate IsNearest(h: Heap, x: ScoredNode) {
    x in h && forall y :: y in h ==> x.dist <= y.dist
  }

  ghost predicate IsFarthest(h: Heap, x: ScoredNode) {
    x in h && forall y :: y in h ==> y.dist <= x.dist
  }

  lemma {:induction false} NearestExists(h: Heap)
    requires h != {}
    ensures exists x :: IsNearest(h, x)
  {
    var z :| z in h;
    var rest := h - {z};
    if rest == {} {
      assert h == {z};
      assert IsNearest(h, z);
    } else {
      NearestExists(rest);
      var x :| IsNearest(rest, x);
      if x.dist <= z.dist { assert IsNearest(h, x); } else { assert IsNearest(h, z); }
    }
  }

  lemma {:induction false} FarthestExists(h: Heap)
    requires h != {}
    ensures exists x :: IsFarthest(h, x)
  {
    var z :| z in h;
    var rest := h - {z};
    if rest == {} {
      assert h == {z};
      assert IsFarthest(h, z);
    } else {
      FarthestExists(rest);
      var x :| IsFarthest(rest, x);
      if z.dist <= x.dist { assert IsFarthest(h, x); } else { assert IsFarthest(h, z); }
    }
  }

  method Push(h: Heap, x: ScoredNode) returns (h': Heap)
    requires x !in h
    ensures h' == h + {x} && |h'| == |h| + 1
  {
    h' := h + {x};
  }

  /** heap.Pop on the min-heap. */
  method PopNearest(h: Heap) returns (x: ScoredNode, rest: Heap)
    requires h != {}
    ensures IsNearest(h, x) && rest == h - {x} && |rest| == |h| - 1
  {
    NearestExists(h);
    x :| x in h && forall y | y in h :: x.dist <= y.dist;
    rest := h - {x};
  }

  /** The root of the max-heap. */
  method Farthest(h: Heap) returns (x: ScoredNode)
    requires h != {}
    ensures IsFarthest(h, x)
  {
    FarthestExists(h);
    x :| x in h && forall y | y in h :: y.dist <= x.dist;
  }

  /** heap.Pop on the max-heap. */
  method PopFarthest(h: Heap) returns (x: ScoredNode, rest: Heap)
    requires h != {}
    ensures IsFarthest(h, x) && rest == h - {x} && |rest| == |h| - 1
  {
    x := Farthest(h);
    rest := h - {x};
  }

  // ---------- greedy descent ----------

  /** Follows links of one layer while some neighbour is nearer to the query. */
  method GreedyStep(dist: Metric, ep: Node, query: Vec, layer: nat, ghost L: Layer)
    returns (current: Node)
    requires ep in L && ClosedLayer(L) && Shows(L, layer)
    ensures GreedyFrom(L, dist, query, ep, current)
    ensures current in L && Reaches(L, ep, current) && dist(current.vec, query) <= dist(ep.vec, query)
  {
    current := ep;
    var currentDist := dist(current.vec, query);
    ghost var k := 0;
    hide Reaches;
    while true
      invariant current in L && GreedyMoves(L, dist, query, ep, k, current)
      invariant currentDist == dist(current.vec, query) <= dist(ep.vec, query)
      decreases Nearer(L, dist, query, currentDist)
    {
      if layer >= |current.neighbors| {
        GreedyReaches(L, dist, query, ep, k, current);
        return;
      }
      ghost var start, startDist := current, currentDist;
      var improved;
      current, currentDist, improved := NearestOf(dist, current, currentDist, current.neighbors[layer], query);
      if !improved {
        GreedyReaches(L, dist, query, ep, k, current);
        return;
      }
      assert GreedyMove(L, dist, query, start, current);
      k := k + 1;
      assert current in Nearer(L, dist, query, startDist) && current !in Nearer(L, dist, query, currentDist);
    }
  }

  ghost function Nearer(L: Layer, dist: Metric, q: Vec, d: real): set<Node> {
    set x | x in L.Keys && dist(x.vec, q) < d
  }

  /** One sweep over a neighbour list, keeping the nearest node so far. */
  method NearestOf(dist: Metric, start: Node, startDist: real, list: seq<Node>, query: Vec)
    returns (current: Node, currentDist: real, improved: bool)
    requires startDist == dist(start.vec, query)
    ensures currentDist == dist(current.vec, query) <= startDist
    ensures improved <==> currentDist < startDist
    ensures if improved then current in list else current == start
    ensures forall nb :: nb in list ==> currentDist <= dist(nb.vec, query)
  {
    current, currentDist, improved := start, startDist, false;
    for i := 0 to |list|
      invariant currentDist == dist(current.vec, query) <= startDist
      invariant improved <==> currentDist < startDist
      invariant if improved then current in list else current == start
      invariant forall j :: 0 <= j < i ==> currentDist <= dist(list[j].vec, query)
    {
      var nb := list[i];
      var d := dist(nb.vec, query);
      if d < currentDist {
        current := nb;
        currentDist := d;
        improved := true;
      }
    }
  }

  // ---------- beam search ----------

  function Score(dist: Metric, q: Vec, x: Node): ScoredNode {
    ScoredNode(x, dist(x.vec, q))
  }

  /** Between two steps of the search: `visited` records the ids of V, both heaps hold
      visited nodes, and `results` keeps the ef nearest of them. */
  ghost predicate Kept(dist: Metric, q: Vec, ef: int, V: set<Node>, results: Heap) {
    && 1 <= |results| <= ef
    && (forall s :: s in results ==> s.node in V && s == Score(dist, q, s.node))
    && (forall y :: y in V && Score(dist, q, y) !in results ==>
          |results| == ef && forall s :: s in results ==> s.dist <= dist(y.vec, q))
  }

  ghost predicate Visited(L: Layer, ep: Node, V: set<Node>, visited: set<Id>) {
    && ep in V
    && V <= L.Keys
    && DistinctIds(V)
    && (forall y :: y in V ==> Reaches(L, ep, y))
    && visited == Ids(V)
  }

  ghost predicate FromVisited(dist: Metric, q: Vec, V: set<Node>, cand: Heap) {
    forall s :: s in cand ==> s.node in V && s == Score(dist, q, s.node)
  }

  /** Every kept node is still to be expanded, or is `c`, or has all its neighbours visited. */
  ghost predicate Pending(L: Layer, visited: set<Id>, cand: Heap, results: Heap, c: Node) {
    forall s :: s in results ==> s in cand || s.node == c || Expanded(L, visited, s.node)
  }

  /** Both heap pushes for a node seen for the first time. */
  method Offer(dist: Metric, q: Vec, ef: int, nb: Node, cand: Heap, results: Heap, ghost V: set<Node>)
    returns (cand': Heap, results': Heap)
    requires nb !in V && Kept(dist, q, ef, V, results)
    requires FromVisited(dist, q, V, cand)
    ensures Kept(dist, q, ef, V + {nb}, results') && FromVisited(dist, q, V + {nb}, cand')
    ensures forall s :: s in cand ==> s in cand'
    ensures forall s :: s in results' ==> s in results || s in cand'
  {
    cand', results' := cand, results;
    assert results != {};
    var d := dist(nb.vec, q);
    var n := ScoredNode(nb, d);
    var worst := Farthest(results);
    if |results| < ef || d < worst.dist {
      cand' := Push(cand, n);
      results' := Push(results, n);
      if |results'| > ef {
        var gone;
        gone, results' := PopFarthest(results');
      }
    }
  }

  /** What holds between two candidates of the search. */
  ghost predicate Searching(L: Layer, dist: Metric, ep: Node, q: Vec, ef: int, V: set<Node>, visited: set<Id>,
                            cand: Heap, results: Heap)
  {
    && Visited(L, ep, V, visited) && Kept(dist, q, ef, V, results) && FromVisited(dist, q, V, cand)
    && (forall s :: s in results ==> s in cand || Expanded(L, visited, s.node))
    && (SeesLinks(L, ep, V) || (V == {ep} && cand == results == {Score(dist, q, ep)}))
  }

  /** What holds when the search stops: every kept node was expanded. */
  ghost predicate Finished(L: Layer, dist: Metric, ep: Node, q: Vec, ef: int, V: set<Node>, visited: set<Id>, results: Heap) {
    && Visited(L, ep, V, visited) && Kept(dist, q, ef, V, results) && SeesLinks(L, ep, V)
    && forall s :: s in results ==> Expanded(L, visited, s.node)
  }

  lemma SearchStarts(L: Layer, dist: Metric, ep: Node, q: Vec, ef: int)
    requires ep in L && ef >= 1
    ensures var h := {Score(dist, q, ep)}; Searching(L, dist, ep, q, ef, {ep}, {ep.id}, h, h)
  {
    ReachesSelf(L, ep);
  }

  /** The nearest candidate is farther than everything kept, so no kept node is a candidate. */
  lemma SearchSettles(L: Layer, dist: Metric, ep: Node, q: Vec, ef: int, V: set<Node>, visited: set<Id>,
                      cand: Heap, results: Heap, c: ScoredNode, worst: ScoredNode)
    requires Searching(L, dist, ep, q, ef, V, visited, cand, results)
    requires IsNearest(cand, c) && IsFarthest(results, worst) && c.dist > worst.dist
    ensures Finished(L, dist, ep, q, ef, V, visited, results)
  {
  }

  lemma SearchRunsDry(L: Layer, dist: Metric, ep: Node, q: Vec, ef: int, V: set<Node>, visited: set<Id>, results: Heap)
    requires Searching(L, dist, ep, q, ef, V, visited, {}, results)
    ensures Finished(L, dist, ep, q, ef, V, visited, results)
  {
  }

  lemma VisitedWithin(L: Layer, ep: Node, V: set<Node>, visited: set<Id>)
    requires Visited(L, ep, V, visited)
    ensures visited <= Ids(L.Keys)
  {
  }

  method SearchLayer(dist: Metric, ep: Node, query: Vec, ef: int, layer: nat, ghost L: Layer)
    returns (out: seq<ScoredNode>, ghost V: set<Node>)
    requires ep in L && ClosedLayer(L) && Shows(L, layer) && ef >= 1
    ensures Beam(L, dist, ep, query, ef, V, out)
  {
    hide Searching, Finished;
    var visited: set<Id> := {ep.id};
    V := {ep};
    var epDist := dist(ep.vec, query);
    var cand: Heap := {ScoredNode(ep, epDist)};
    var results: Heap := {ScoredNode(ep, epDist)};
    SearchStarts(L, dist, ep, query, ef);

    while cand != {}
      invariant results != {} && Searching(L, dist, ep, query, ef, V, visited, cand, results)
      decreases Ids(L.Keys) - visited, cand
    {
      var c, rest := PopNearest(cand);
      var worst := Farthest(results);
      if |results| >= ef && c.dist > worst.dist {
        SearchSettles(L, dist, ep, query, ef, V, visited, cand, results, c, worst);
        break;
      }
      ghost var before := visited;
      visited, cand, results, V := Expand(dist, ep, query, ef, layer, c, visited, cand, rest, results, L, V);
    }
    if cand == {} {
      SearchRunsDry(L, dist, ep, query, ef, V, visited, results);
    }
    out := DrainFinished(dist, ep, query, ef, L, V, visited, results);
  }

  method DrainFinished(dist: Metric, ghost ep: Node, query: Vec, ef: int, ghost L: Layer, ghost V: set<Node>,
                       ghost visited: set<Id>, results: Heap)
    returns (out: seq<ScoredNode>)
    requires Finished(L, dist, ep, query, ef, V, visited, results)
    ensures Beam(L, dist, ep, query, ef, V, out)
  {
    out := Drain(dist, query, ef, V, results);
  }

  /** Visits the unseen neighbours of the popped candidate c; `rest` is what it leaves behind. */
  method Expand(dist: Metric, ghost ep: Node, query: Vec, ef: int, layer: nat, c: ScoredNode, visited: set<Id>,
                ghost cand: Heap, rest: Heap, results: Heap, ghost L: Layer, ghost V: set<Node>)
    returns (visited': set<Id>, cand': Heap, results': Heap, ghost V': set<Node>)
    requires ClosedLayer(L) && Shows(L, layer) && c in cand && rest == cand - {c}
    requires Searching(L, dist, ep, query, ef, V, visited, cand, results)
    ensures results' != {} && Searching(L, dist, ep, query, ef, V', visited', cand', results')
    ensures visited' <= Ids(L.Keys) && (visited < visited' || (visited == visited' && cand' == rest))
  {
    visited', cand', results', V' := visited, rest, results, V;
    VisitedWithin(L, ep, V, visited);
    if layer < |c.node.neighbors| {
      visited', cand', results', V' :=
        VisitAll(dist, ep, query, ef, c.node, c.node.neighbors[layer], visited, rest, results, L, V);
    } else {
      PendingDone(L, visited, rest, results, c.node);
    }
    hide Kept, Pending, Visited;
    if V == {ep} {
      FirstExpansion(L, ep, V', visited');
    }
    VisitedWithin(L, ep, V', visited');
  }

  method VisitAll(dist: Metric, ghost ep: Node, query: Vec, ef: int, ghost x: Node, list: seq<Node>,
                  visited: set<Id>, cand: Heap, results: Heap, ghost L: Layer, ghost V: set<Node>)
    returns (visited': set<Id>, cand': Heap, results': Heap, ghost V': set<Node>)
    requires x in V && x in L && list == L[x] && forall nb :: nb in list ==> nb in L
    requires Visited(L, ep, V, visited)
    requires Kept(dist, query, ef, V, results) && FromVisited(dist, query, V, cand)
    requires Pending(L, visited, cand, results, x)
    ensures Visited(L, ep, V', visited') && V <= V'
    ensures Expanded(L, visited', x) && forall y :: y in V' ==> y in V || y in list
    ensures Kept(dist, query, ef, V', results') && FromVisited(dist, query, V', cand')
    ensures forall s :: s in results' ==> s in cand' || Expanded(L, visited', s.node)
    ensures visited < visited' || (visited == visited' && cand' == cand)
  {
    hide Kept, FromVisited, Visited, Pending;
    visited', cand', results', V' := visited, cand, results, V;
    for i := 0 to |list|
      invariant V <= V' && visited <= visited' && forall y :: y in V' ==> y in V || y in list
      invariant Visited(L, ep, V', visited')
      invariant Kept(dist, query, ef, V', results') && FromVisited(dist, query, V', cand')
      invariant Pending(L, visited', cand', results', x)
      invariant forall j :: 0 <= j < i ==> list[j].id in visited'
      invariant visited' == visited ==> cand' == cand
    {
      var nb := list[i];
      if nb.id !in visited' {
        VisitGrows(L, ep, V', visited', x, nb);
        var cand'', results'' := Offer(dist, query, ef, nb, cand', results', V');
        PendingGrows(L, visited', visited' + {nb.id}, cand', cand'', results', results'', x);
        visited', V' := visited' + {nb.id}, V' + {nb};
        cand', results' := cand'', results'';
      }
    }
    assert Expanded(L, visited', x);
    PendingDone(L, visited', cand', results', x);
  }

  /** The start is expanded before anything else, so its neighbours are seen. */
  lemma FirstExpansion(L: Layer, ep: Node, V: set<Node>, visited: set<Id>)
    requires Visited(L, ep, V, visited) && Expanded(L, visited, ep)
    requires forall y :: y in V ==> y == ep || y in L[ep]
    ensures SeesLinks(L, ep, V)
  {
    forall nb | DistinctIds({ep} + Elems(L[ep])) && nb in L[ep] ensures nb in V {
      var y :| y in V && y.id == nb.id;
      assert y in {ep} + Elems(L[ep]) && nb in {ep} + Elems(L[ep]);
    }
  }

  lemma PendingGrows(L: Layer, visited: set<Id>, visited': set<Id>, cand: Heap, cand': Heap,
                     results: Heap, results': Heap, c: Node)
    requires Pending(L, visited, cand, results, c) && visited <= visited'
    requires (forall s :: s in cand ==> s in cand') && forall s :: s in results' ==> s in results || s in cand'
    ensures Pending(L, visited', cand', results', c)
  {
  }

  lemma PendingDone(L: Layer, visited: set<Id>, cand: Heap, results: Heap, c: Node)
    requires Pending(L, visited, cand, results, c) && Expanded(L, visited, c)
    ensures forall s :: s in results ==> s in cand || Expanded(L, visited, s.node)
  {
  }

  lemma VisitGrows(L: Layer, ep: Node, V: set<Node>, visited: set<Id>, x: Node, nb: Node)
    requires Visited(L, ep, V, visited) && x in V && x in L && nb in L[x] && nb in L
    requires nb.id !in visited
    ensures nb !in V && Visited(L, ep, V + {nb}, visited + {nb.id})
  {
    ReachesStep(L, ep, x, nb);
  }

  /** Pops the max-heap empty, filling the output from its back. */
  method Drain(dist: Metric, q: Vec, ef: int, ghost V: set<Node>, results: Heap) returns (out: seq<ScoredNode>)
    requires Kept(dist, q, ef, V, results)
    ensures 1 <= |out| <= ef && (forall s :: s in out <==> s in results)
    ensures NoDup(Nodes(out)) && Scored(dist, q, out) && Ascending(out)
    ensures KeepsNearest(dist, q, ef, V, out)
  {
    out := [];
    var h := results;
    while h != {}
      invariant h <= results && |h| + |out| == |results|
      invariant forall s :: s in results <==> s in h || s in out
      invariant forall s :: s in h ==> s !in out
      invariant NoDup(out) && Ascending(out)
      invariant forall s, t :: s in h && t in out ==> s.dist <= t.dist
      decreases h
    {
      var x;
      x, h := PopFarthest(h);
      out := [x] + out;
    }
  }

}
