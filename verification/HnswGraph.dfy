/** The data of internal/vectorindex/hnsw.go: nodes with per-layer neighbour lists,
    the snapshot of one layer as a value, reachability along its links, and what a
    beam search over one layer promises. */
module HnswGraph {
  import opened Collections

  type Vec = seq<real>
  type Id = string
  type Metric = (Vec, Vec) -> real

  class Node {
    const id: Id
    const vec: Vec
    const level: nat
    var neighbors: seq<seq<Node>>

    constructor (id: Id, vec: Vec, level: nat)
      ensures this.id == id && this.vec == vec && this.level == level
      ensures neighbors == seq(level + 1, _ => [])
    {
      this.id := id;
      this.vec := vec;
      this.level := level;
      this.neighbors := seq(level + 1, _ => []);
    }

    /** The links followed on layer l; a node below the layer has none. */
    function At(l: nat): seq<Node>
      reads this
    {
      if l < |neighbors| then neighbors[l] else []
    }
  }

  datatype ScoredNode = ScoredNode(node: Node, dist: real)

  /** One layer of the graph as a value: each node and the nodes it lists. */
  type Layer = map<Node, seq<Node>>

  /** L is layer l of the nodes it covers, as the heap has them now. */
  ghost predicate Shows(L: Layer, l: nat)
    reads L.Keys
  {
    forall x :: x in L ==> L[x] == x.At(l)
  }

  ghost predicate ClosedLayer(L: Layer) {
    forall x, y :: x in L && y in L[x] ==> y in L
  }

  // ---------- reachability ----------

  /** The nodes at most k links away from ep. */
  ghost function Ball(L: Layer, ep: Node, k: nat): set<Node> {
    if k == 0 then {ep}
    else Ball(L, ep, k - 1) + set x, y | x in Ball(L, ep, k - 1) && x in L && y in L[x] :: y
  }

  ghost predicate Reaches(L: Layer, ep: Node, x: Node) {
    exists k: nat :: x in Ball(L, ep, k)
  }

  lemma ReachesSelf(L: Layer, ep: Node)
    ensures Reaches(L, ep, ep)
  {
    assert ep in Ball(L, ep, 0);
  }

  lemma ReachesStep(L: Layer, ep: Node, x: Node, y: Node)
    requires Reaches(L, ep, x) && x in L && y in L[x]
    ensures Reaches(L, ep, y)
  {
    var k: nat :| x in Ball(L, ep, k);
    assert y in Ball(L, ep, k + 1);
  }

  lemma {:induction false} BallWithin(L: Layer, ep: Node, k: nat, T: set<Node>)
    requires ep in T && forall x, y :: x in T && x in L && y in L[x] ==> y in T
    ensures Ball(L, ep, k) <= T
  {
    if k > 0 {
      BallWithin(L, ep, k - 1, T);
    }
  }

  /** A set closed under the links of the layer holds everything reachable from it. */
  lemma ReachesWithin(L: Layer, ep: Node, x: Node, T: set<Node>)
    requires ep in T && forall x, y :: x in T && x in L && y in L[x] ==> y in T
    requires Reaches(L, ep, x)
    ensures x in T
  {
    var k: nat :| x in Ball(L, ep, k);
    BallWithin(L, ep, k, T);
  }

  // ---------- what a greedy descent returns ----------

  /** y is a nearest neighbour of x, and nearer than x. */
  ghost predicate GreedyMove(L: Layer, dist: Metric, q: Vec, x: Node, y: Node) {
    && x in L && y in L[x] && dist(y.vec, q) < dist(x.vec, q)
    && forall nb :: nb in L[x] ==> dist(y.vec, q) <= dist(nb.vec, q)
  }

  /** k greedy moves lead from `from` to x. */
  ghost predicate GreedyMoves(L: Layer, dist: Metric, q: Vec, from: Node, k: nat, x: Node) {
    if k == 0 then x == from
    else exists y :: y in L.Keys && GreedyMoves(L, dist, q, from, k - 1, y) && GreedyMove(L, dist, q, y, x)
  }

  /** Greedy moves lead from `from` to x, and no neighbour of x is nearer. */
  ghost predicate GreedyFrom(L: Layer, dist: Metric, q: Vec, from: Node, x: Node) {
    && (exists k: nat :: GreedyMoves(L, dist, q, from, k, x))
    && x in L && forall nb :: nb in L[x] ==> dist(x.vec, q) <= dist(nb.vec, q)
  }

  lemma {:induction false} GreedyReaches(L: Layer, dist: Metric, q: Vec, from: Node, k: nat, x: Node)
    requires GreedyMoves(L, dist, q, from, k, x)
    ensures Reaches(L, from, x) && dist(x.vec, q) <= dist(from.vec, q)
  {
    if k == 0 {
      ReachesSelf(L, from);
    } else {
      var y :| y in L.Keys && GreedyMoves(L, dist, q, from, k - 1, y) && GreedyMove(L, dist, q, y, x);
      GreedyReaches(L, dist, q, from, k - 1, y);
      ReachesStep(L, from, y, x);
    }
  }

  // ---------- what a beam search returns ----------

  ghost predicate DistinctIds(S: set<Node>) {
    forall x, y :: x in S && y in S && x.id == y.id ==> x == y
  }

  function Nodes(out: seq<ScoredNode>): (r: seq<Node>)
    ensures |r| == |out|
    ensures forall i :: 0 <= i < |r| ==> r[i] == out[i].node
  {
    seq(|out|, i requires 0 <= i < |out| => out[i].node)
  }

  ghost predicate Ascending(out: seq<ScoredNode>) {
    forall i, j :: 0 <= i < j < |out| ==> out[i].dist <= out[j].dist
  }

  /** Every candidate carries its own distance to the query. */
  ghost predicate Scored(dist: Metric, q: Vec, out: seq<ScoredNode>) {
    forall s :: s in out ==> s.dist == dist(s.node.vec, q)
  }

  /** `out` keeps the ef nearest of the visited nodes. */
  ghost predicate KeepsNearest(dist: Metric, q: Vec, ef: int, visited: set<Node>, out: seq<ScoredNode>) {
    forall y :: y in visited && y !in Nodes(out) ==>
      |out| == ef && forall s :: s in out ==> s.dist <= dist(y.vec, q)
  }

  ghost function Ids(S: set<Node>): set<Id> {
    set x | x in S :: x.id
  }

  /** Every neighbour of x was visited; visits are recorded by id. */
  ghost predicate Expanded(L: Layer, visited: set<Id>, x: Node) {
    x in L && forall nb :: nb in L[x] ==> nb.id in visited
  }

  /** A search visits the neighbours of its start whenever ids tell them and the start apart. */
  ghost predicate SeesLinks(L: Layer, ep: Node, visited: set<Node>) {
    ep in L && (DistinctIds({ep} + Elems(L[ep])) ==> forall nb :: nb in L[ep] ==> nb in visited)
  }

  /** The promise of a beam search of width ef from ep toward q. */
  ghost predicate Beam(L: Layer, dist: Metric, ep: Node, q: Vec, ef: int,
                       visited: set<Node>, out: seq<ScoredNode>)
  {
    && ep in visited
    && DistinctIds(visited)
    && (forall y :: y in visited ==> Reaches(L, ep, y))
    && SeesLinks(L, ep, visited)
    && 1 <= |out| <= ef
    && (forall s :: s in out ==> s.node in visited)
    && NoDup(Nodes(out))
    && Scored(dist, q, out)
    && Ascending(out)
    && KeepsNearest(dist, q, ef, visited, out)
    && (forall s :: s in out ==> Expanded(L, Ids(visited), s.node))
  }
}
