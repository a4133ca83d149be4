/** Graph construction and the Louvain loop of internal/community/louvain.go. */
module Louvain {
  import opened Collections
  import opened Sums
  import opened Modularity
  import opened Labelings

  datatype RawEdge = RawEdge(source: string, target: string, weight: real)
  datatype Edge = Edge(Source: nat, Target: nat, Weight: real)

  type Matrix = seq<seq<real>>

  /** The matrix as a total function; entries outside it are zero. */
  function Entries(m: Matrix): Weights {
    (i: nat, j: nat) => if i < |m| && j < |m[i]| then m[i][j] else 0.0
  }

  ghost predicate Square(m: Matrix, n: nat) {
    |m| == n && forall i :: 0 <= i < n ==> |m[i]| == n
  }

  // ---------- building the graph ----------

  function Contribution(e: Edge, i: nat, j: nat): real {
    (if e.Source == i && e.Target == j then e.Weight else 0.0)
    + (if e.Target == i && e.Source == j then e.Weight else 0.0)
  }

  /** What the edges add up to between i and j; a self-loop counts twice. */
  function EdgeWeight(edges: seq<Edge>, i: nat, j: nat): real {
    if edges == [] then 0.0
    else EdgeWeight(edges[..|edges| - 1], i, j) + Contribution(edges[|edges| - 1], i, j)
  }

  /** The edges whose endpoints are known, zero weights replaced by one. */
  function Resolve(index: map<string, nat>, raw: seq<RawEdge>): seq<Edge> {
    if raw == [] then []
    else
      var e := raw[|raw| - 1];
      var before := Resolve(index, raw[..|raw| - 1]);
      if e.source in index && e.target in index
      then before + [Edge(index[e.source], index[e.target], if e.weight == 0.0 then 1.0 else e.weight)]
      else before
  }

  function WeightSum(edges: seq<Edge>): real {
    if edges == [] then 0.0 else WeightSum(edges[..|edges| - 1]) + edges[|edges| - 1].Weight
  }

  /** Each name leads to the last position that carries it. */
  ghost predicate IndexOfNames(nodes: seq<string>, index: map<string, nat>) {
    && (forall s :: s in index <==> s in nodes)
    && (forall s :: s in index ==> index[s] < |nodes| && nodes[index[s]] == s)
    && (forall s, j :: s in index && index[s] < j < |nodes| ==> nodes[j] != s)
  }

  function DegreeTerms(n: nat, A: Weights): nat -> real {
    (i: nat) => Degree(n, A, i)
  }

  /** Sum of all entries. */
  function Total(n: nat, A: Weights): real {
    Sum(n, DegreeTerms(n, A))
  }

  function Bump(m: Matrix, i: nat, j: nat, w: real): (r: Matrix)
    requires i < |m| && j < |m[i]|
  {
    m[i := m[i][j := m[i][j] + w]]
  }

  lemma BumpTotal(m: Matrix, n: nat, i: nat, j: nat, w: real)
    requires Square(m, n) && i < n && j < n
    ensures Square(Bump(m, i, j, w), n)
    ensures Total(n, Entries(Bump(m, i, j, w))) == Total(n, Entries(m)) + w
    ensures forall x: nat, y: nat ::
      Entries(Bump(m, i, j, w))(x, y) == Entries(m)(x, y) + if x == i && y == j then w else 0.0
  {
    var A, B := Entries(m), Entries(Bump(m, i, j, w));
    forall x: nat, y: nat ensures B(x, y) == A(x, y) + if x == i && y == j then w else 0.0 { }
    forall x: nat | x < n && x != i ensures DegreeTerms(n, B)(x) == DegreeTerms(n, A)(x) {
      SumExt(n, RowTerms(B, x), RowTerms(A, x));
    }
    SumPoint(n, RowTerms(A, i), RowTerms(B, i), j);
    SumPoint(n, DegreeTerms(n, A), DegreeTerms(n, B), i);
  }

  function ZeroMatrix(n: nat): (m: Matrix)
    ensures Square(m, n)
  {
    seq(n, _ => seq(n, _ => 0.0))
  }

  /** The matrix is what the edges add up to: symmetric, of total 2m. */
  ghost predicate Weighs(n: nat, m: Matrix, edges: seq<Edge>, total: real) {
    && Square(m, n)
    && (forall e :: e in edges ==> e.Source < n && e.Target < n)
    && (forall i: nat, j: nat :: Entries(m)(i, j) == EdgeWeight(edges, i, j))
    && total == WeightSum(edges)
    && Symmetric(Entries(m))
    && Total(n, Entries(m)) == 2.0 * total
  }

  ghost predicate Positive(edges: seq<Edge>) {
    forall e :: e in edges ==> e.Weight > 0.0
  }

  lemma {:induction false} PositiveSums(edges: seq<Edge>, i: nat, j: nat)
    requires Positive(edges)
    ensures EdgeWeight(edges, i, j) >= 0.0 && WeightSum(edges) >= 0.0
  {
    if edges != [] {
      assert edges[|edges| - 1] in edges;
      PositiveSums(edges[..|edges| - 1], i, j);
    }
  }

  /** Positive edges make a non-negative matrix. */
  lemma PositiveWeighs(n: nat, m: Matrix, edges: seq<Edge>, total: real)
    requires Weighs(n, m, edges, total) && Positive(edges)
    ensures NonNegative(Entries(m)) && total >= 0.0
  {
    PositiveSums(edges, 0, 0);
    forall i: nat, j: nat ensures Entries(m)(i, j) >= 0.0 {
      PositiveSums(edges, i, j);
    }
  }

  lemma ZeroWeighs(n: nat)
    ensures Weighs(n, ZeroMatrix(n), [], 0.0)
  {
    var A := Entries(ZeroMatrix(n));
    forall i: nat, j: nat ensures A(i, j) == 0.0 == EdgeWeight([], i, j) { }
    forall i: nat | i < n ensures DegreeTerms(n, A)(i) == 0.0 {
      SumZero(n, RowTerms(A, i));
    }
    SumZero(n, DegreeTerms(n, A));
  }

  /** Adding w in both directions keeps the matrix the sum of the edges. */
  lemma EdgeWeighs(n: nat, m0: Matrix, edges: seq<Edge>, total: real, e: Edge)
    requires Weighs(n, m0, edges, total) && e.Source < n && e.Target < n
    ensures Square(Bump(m0, e.Source, e.Target, e.Weight), n)
    ensures var m := Bump(Bump(m0, e.Source, e.Target, e.Weight), e.Target, e.Source, e.Weight);
      Weighs(n, m, edges + [e], total + e.Weight)
  {
    BumpTotal(m0, n, e.Source, e.Target, e.Weight);
    var m1 := Bump(m0, e.Source, e.Target, e.Weight);
    BumpTotal(m1, n, e.Target, e.Source, e.Weight);
    var m := Bump(m1, e.Target, e.Source, e.Weight);
    assert (edges + [e])[..|edges|] == edges;
    hide Bump, Entries, Total;
  }

  lemma {:induction false} ResolvedPositive(index: map<string, nat>, raw: seq<RawEdge>)
    ensures (forall e :: e in raw ==> e.weight >= 0.0) ==> Positive(Resolve(index, raw))
  {
    if raw != [] {
      assert raw[|raw| - 1] in raw;
      ResolvedPositive(index, raw[..|raw| - 1]);
    }
  }

  class Graph {
    var Nodes: seq<string>
    var nodeIndex: map<string, nat>
    var Edges: seq<Edge>
    var adjMatrix: Matrix
    var totalWeight: real

    ghost predicate Valid()
      reads this
    {
      IndexOfNames(Nodes, nodeIndex) && Weighs(|Nodes|, adjMatrix, Edges, totalWeight)
    }

    /** NewGraph. */
    constructor (nodes: seq<string>, edges: seq<RawEdge>)
      ensures Valid() && Nodes == nodes && Edges == Resolve(nodeIndex, edges)
      ensures (forall e :: e in edges ==> e.weight >= 0.0) ==> Positive(Edges)
    {
      Nodes := nodes;
      nodeIndex := map[];
      Edges := [];
      adjMatrix := ZeroMatrix(|nodes|);
      totalWeight := 0.0;
      new;
      for i := 0 to |nodes|
        invariant Nodes == nodes && Edges == [] && totalWeight == 0.0
        invariant adjMatrix == ZeroMatrix(|nodes|)
        invariant IndexOfNames(nodes[..i], nodeIndex)
      {
        nodeIndex := nodeIndex[nodes[i] := i];
        assert nodes[..i + 1] == nodes[..i] + [nodes[i]];
      }
      assert nodes[..|nodes|] == nodes;
      ZeroWeighs(|nodes|);
      for k := 0 to |edges|
        invariant Valid() && Nodes == nodes && Edges == Resolve(nodeIndex, edges[..k])
      {
        assert edges[..k + 1][..k] == edges[..k];
        AddRaw(edges[k]);
      }
      assert edges[..|edges|] == edges;
      ResolvedPositive(nodeIndex, edges);
    }

    /** One edge of NewGraph's loop; unknown endpoints are skipped. */
    method AddRaw(e: RawEdge)
      requires Valid()
      modifies this`Edges, this`adjMatrix, this`totalWeight
      ensures Valid()
      ensures if e.source in nodeIndex && e.target in nodeIndex
              then Edges == old(Edges) + [Edge(nodeIndex[e.source], nodeIndex[e.target],
                                               if e.weight == 0.0 then 1.0 else e.weight)]
              else Edges == old(Edges)
    {
      var w := e.weight;
      if w == 0.0 {
        w := 1.0;
      }
      if e.source !in nodeIndex || e.target !in nodeIndex {
        return;
      }
      var si, ti := nodeIndex[e.source], nodeIndex[e.target];
      EdgeWeighs(|Nodes|, adjMatrix, Edges, totalWeight, Edge(si, ti, w));
      hide Weighs;
      adjMatrix := Bump(adjMatrix, si, ti, w);
      adjMatrix := Bump(adjMatrix, ti, si, w);
      totalWeight := totalWeight + w;
      Edges := Edges + [Edge(si, ti, w)];
    }
  }

  // ---------- paths ----------

  ghost predicate Path(A: Weights, n: nat, p: seq<nat>) {
    && |p| > 0
    && (forall k :: 0 <= k < |p| ==> p[k] < n)
    && (forall k :: 0 < k < |p| ==> A(p[k - 1], p[k]) > 0.0)
  }

  /** x and y are joined by positive-weight edges. */
  ghost predicate Joined(A: Weights, n: nat, x: nat, y: nat) {
    exists p :: Path(A, n, p) && p[0] == x && p[|p| - 1] == y
  }

  lemma JoinedSelf(A: Weights, n: nat, x: nat)
    requires x < n
    ensures Joined(A, n, x, x)
  {
    assert Path(A, n, [x]);
  }

  lemma JoinedFront(A: Weights, n: nat, x: nat, j: nat, y: nat)
    requires x < n && A(x, j) > 0.0 && Joined(A, n, j, y)
    ensures Joined(A, n, x, y)
  {
    var p :| Path(A, n, p) && p[0] == j && p[|p| - 1] == y;
    assert Path(A, n, [x] + p);
  }

  lemma JoinedBack(A: Weights, n: nat, y: nat, j: nat, x: nat)
    requires x < n && A(j, x) > 0.0 && Joined(A, n, y, j)
    ensures Joined(A, n, y, x)
  {
    var p :| Path(A, n, p) && p[0] == y && p[|p| - 1] == j;
    assert Path(A, n, p + [x]);
  }

  /** Nodes with one label lie in one connected component. */
  ghost predicate BlocksJoined(A: Weights, comm: seq<nat>) {
    forall x: nat, y: nat :: x < |comm| && y < |comm| && comm[x] == comm[y] ==> Joined(A, |comm|, x, y)
  }

  lemma MoveKeepsJoined(A: Weights, comm: seq<nat>, i: nat, j: nat)
    requires Symmetric(A) && BlocksJoined(A, comm) && i < |comm| && j < |comm| && A(i, j) > 0.0
    ensures BlocksJoined(A, comm[i := comm[j]])
  {
    var n, comm' := |comm|, comm[i := comm[j]];
    assert A(j, i) == A(i, j);
    forall x: nat, y: nat | x < n && y < n && comm'[x] == comm'[y] ensures Joined(A, n, x, y) {
      if x == i && y == i {
        JoinedSelf(A, n, i);
      } else if x == i {
        JoinedFront(A, n, i, j, y);
      } else if y == i {
        JoinedBack(A, n, x, j, i);
      }
    }
  }

  // ---------- one node ----------

  function Get(m: map<nat, real>, c: nat): real {
    if c in m then m[c] else 0.0
  }

  /** c is the community of some node that i has a positive edge to. */
  ghost predicate Neighbouring(A: Weights, comm: seq<nat>, i: nat, c: nat) {
    exists j :: 0 <= j < |comm| && A(i, j) > 0.0 && comm[j] == c
  }

  /** No neighbouring community offers i a positive gain. */
  ghost predicate Settled(A: Weights, m2: real, comm: seq<nat>, i: nat)
    requires m2 != 0.0 && i < |comm|
  {
    forall c: nat :: Neighbouring(A, comm, i, c) ==> CodeGain(A, m2, comm, i, c) <= 0.0
  }

  ghost predicate LocalOptimum(A: Weights, m2: real, comm: seq<nat>)
    requires m2 != 0.0
  {
    forall i: nat :: i < |comm| ==> Settled(A, m2, comm, i)
  }

  /** The running totals the loop keeps per community. */
  ghost predicate TracksSigma(A: Weights, comm: seq<nat>, sigma: map<nat, real>) {
    forall c: nat :: Get(sigma, c) == SigmaTot(A, comm, c)
  }

  /** One visit of node i: it stays because it is settled, or moves for a positive gain. */
  ghost predicate Visited(A: Weights, m2: real, comm: seq<nat>, comm': seq<nat>, i: nat)
    requires m2 != 0.0 && i < |comm|
  {
    (comm' == comm && Settled(A, m2, comm, i))
    || exists b: nat :: b != comm[i] && comm' == comm[i := b] && Neighbouring(A, comm, i, b)
         && CodeGain(A, m2, comm, i, b) > 0.0
         && forall c: nat :: Neighbouring(A, comm, i, c) ==> CodeGain(A, m2, comm, i, c) <= CodeGain(A, m2, comm, i, b)
  }

  /** Weights from node i to each neighbouring community. */
  method NeighborComms(m: Matrix, comm: seq<nat>, i: nat) returns (nc: map<nat, real>)
    requires Square(m, |comm|) && i < |comm| && NonNegative(Entries(m))
    ensures forall c: nat :: c in nc <==> Neighbouring(Entries(m), comm, i, c)
    ensures forall c: nat :: Get(nc, c) == ToComm(Entries(m), comm, i, c)
  {
    ghost var A := Entries(m);
    nc := map[];
    for j := 0 to |comm|
      invariant forall c: nat :: c in nc <==> exists k :: 0 <= k < j && A(i, k) > 0.0 && comm[k] == c
      invariant forall c: nat :: Get(nc, c) == Sum(j, ToTerms(A, comm, i, c))
    {
      assert A(i, j) >= 0.0;
      if m[i][j] > 0.0 {
        nc := nc[comm[j] := Get(nc, comm[j]) + m[i][j]];
      }
      assert forall c: nat :: ToTerms(A, comm, i, c)(j) == if comm[j] == c then A(i, j) else 0.0;
    }
  }

  method Term(kiIn: real, sigma: real, ki: real, m2: real) returns (t: real)
    requires m2 != 0.0
    ensures t == GainTerm(kiIn, sigma, ki, m2)
  {
    t := kiIn / m2 - (sigma * ki) / (m2 * m2);
  }

  /** The best strictly positive gain over the neighbouring communities, in any order. */
  method BestComm(ghost A: Weights, m2: real, comm: seq<nat>, i: nat, nc: map<nat, real>, sigma: map<nat, real>, ki: real)
    returns (bestComm: nat, bestGain: real)
    requires m2 != 0.0 && i < |comm| && ki == Degree(|comm|, A, i)
    requires forall c: nat :: Get(nc, c) == ToComm(A, comm, i, c)
    requires forall c: nat :: Get(sigma, c) == SigmaWithout(A, comm, i, c)
    ensures bestGain >= 0.0 && forall c: nat :: c in nc ==> CodeGain(A, m2, comm, i, c) <= bestGain
    ensures if bestComm == comm[i] then bestGain == 0.0
            else bestComm in nc && bestGain == CodeGain(A, m2, comm, i, bestComm) > 0.0
  {
    hide GainTerm, ToComm, SigmaWithout, Degree;
    bestComm, bestGain := comm[i], 0.0;
    var oldComm := comm[i];
    var kiOld := Get(nc, oldComm);
    var removeLoss := Term(kiOld, Get(sigma, oldComm), ki, m2);
    assert removeLoss == AddGain(A, m2, comm, i, oldComm);
    var rest := nc.Keys;
    while rest != {}
      invariant rest <= nc.Keys && bestGain >= 0.0
      invariant forall c: nat :: c in nc ==> c in rest || CodeGain(A, m2, comm, i, c) <= bestGain
      invariant if bestComm == oldComm then bestGain == 0.0
                else bestComm in nc && bestGain == CodeGain(A, m2, comm, i, bestComm) > 0.0
    {
      var c :| c in rest;
      rest := rest - {c};
      var gain := GainOf(A, m2, comm, i, nc[c], sigma, ki, removeLoss, c);
      if gain > bestGain {
        bestGain := gain;
        bestComm := c;
      }
    }
  }

  method GainOf(ghost A: Weights, m2: real, ghost comm: seq<nat>, ghost i: nat, kiIn: real, sigma: map<nat, real>,
                ki: real, removeLoss: real, c: nat)
    returns (gain: real)
    requires m2 != 0.0 && i < |comm| && ki == Degree(|comm|, A, i)
    requires kiIn == ToComm(A, comm, i, c) && Get(sigma, c) == SigmaWithout(A, comm, i, c)
    requires removeLoss == AddGain(A, m2, comm, i, comm[i])
    ensures gain == CodeGain(A, m2, comm, i, c)
    ensures c == comm[i] ==> gain == 0.0
  {
    hide GainTerm, ToComm, SigmaWithout, Degree;
    var addGain := Term(kiIn, Get(sigma, c), ki, m2);
    gain := addGain - removeLoss;
  }

  /** Visits node i: take it out of its community's total, pick the best community, put it there. */
  method Visit(m: Matrix, m2: real, degree: seq<real>, comm: array<nat>, i: nat, sigma: map<nat, real>)
    returns (sigma': map<nat, real>, moved: bool)
    requires m2 > 0.0 && i < comm.Length && Square(m, comm.Length) && |degree| == comm.Length
    requires NonNegative(Entries(m)) && degree[i] == Degree(comm.Length, Entries(m), i)
    requires TracksSigma(Entries(m), comm[..], sigma)
    modifies comm
    ensures Visited(Entries(m), m2, old(comm[..]), comm[..], i)
    ensures moved <==> comm[..] != old(comm[..])
    ensures TracksSigma(Entries(m), comm[..], sigma')
  {
    ghost var A, c0 := Entries(m), comm[..];
    var ki := degree[i];
    var oldComm := comm[i];
    var nc := NeighborComms(m, comm[..], i);
    sigma' := sigma[oldComm := Get(sigma, oldComm) - ki];
    var bestComm, bestGain := BestComm(A, m2, comm[..], i, nc, sigma', ki);
    comm[i] := bestComm;
    sigma' := sigma'[bestComm := Get(sigma', bestComm) + ki];
    moved := bestComm != oldComm;
    assert comm[..] == c0[i := bestComm];
    if moved {
      forall c: nat ensures Get(sigma', c) == SigmaTot(A, comm[..], c) {
        MovedSigma(A, c0, i, bestComm, c);
      }
      assert CodeGain(A, m2, c0, i, bestComm) > 0.0;
    } else {
      assert comm[..] == c0;
    }
  }

  // ---------- the loop ----------

  /** What every labelling the loop goes through satisfies. */
  ghost predicate Sound(A: Weights, comm: seq<nat>) {
    Below(comm, |comm|) && BlocksJoined(A, comm)
  }

  /** A visit keeps the labelling sound and never lowers modularity; a move raises it. */
  lemma VisitImproves(A: Weights, m2: real, comm: seq<nat>, comm': seq<nat>, i: nat)
    requires m2 > 0.0 && Symmetric(A) && NonNegative(A) && i < |comm|
    requires Sound(A, comm) && Visited(A, m2, comm, comm', i)
    ensures |comm'| == |comm| && Sound(A, comm')
    ensures comm' != comm ==> ModularityOf(A, m2, comm') > ModularityOf(A, m2, comm)
  {
    if comm' != comm {
      var b: nat :| b != comm[i] && comm' == comm[i := b] && Neighbouring(A, comm, i, b) && CodeGain(A, m2, comm, i, b) > 0.0;
      PositiveGainRaisesModularity(A, m2, comm, i, b);
      var j :| 0 <= j < |comm| && A(i, j) > 0.0 && comm[j] == b;
      MoveKeepsJoined(A, comm, i, j);
    }
  }

  ghost predicate Permutation(order: seq<nat>, n: nat) {
    |order| == n && NoDup(order) && (forall i: nat :: i < n ==> i in order) && forall i :: i in order ==> i < n
  }

  /** rand.Perm: every node once, in an order that is not fixed. */
  method RandPerm(n: nat) returns (order: seq<nat>)
    ensures Permutation(order, n)
  {
    order := [];
    for i := 0 to n
      invariant Permutation(order, i)
    {
      assert forall j :: 0 <= j < |order| ==> order[j] in order;
      order := [i] + order;
    }
  }

  // ---------- passes ----------

  /** trail leads through one visit after another, in the given order. */
  ghost predicate Trail(A: Weights, m2: real, order: seq<nat>, trail: seq<seq<nat>>)
    requires m2 != 0.0
  {
    && |trail| == |order| + 1
    && forall k :: 0 <= k < |order| ==> order[k] < |trail[k]| && Visited(A, m2, trail[k], trail[k + 1], order[k])
  }

  /** A pass visits every node exactly once, each on the labelling the visits before it left. */
  ghost predicate FullPass(A: Weights, m2: real, comm: seq<nat>, comm': seq<nat>)
    requires m2 != 0.0
  {
    exists order, trail :: Permutation(order, |comm|) && Trail(A, m2, order, trail)
      && trail[0] == comm && trail[|order|] == comm'
  }

  /** Full passes that each raise modularity lead from singletons through the stages. */
  ghost predicate Stages(A: Weights, m2: real, n: nat, stages: seq<seq<nat>>)
    requires m2 != 0.0
  {
    && |stages| > 0 && stages[0] == Singletons(n)
    && forall k :: 0 < k < |stages| ==>
         FullPass(A, m2, stages[k - 1], stages[k]) && ModularityOf(A, m2, stages[k]) > ModularityOf(A, m2, stages[k - 1])
  }

  /** What the loop comes to under any cap: a local optimum, or exactly maxIter such passes. */
  ghost predicate Climbs(A: Weights, m2: real, n: nat, maxIter: int, stages: seq<seq<nat>>, comm: seq<nat>)
    requires m2 != 0.0
  {
    && Stages(A, m2, n, stages) && stages[|stages| - 1] == comm
    && |stages| - 1 <= Cap(maxIter)
    && (LocalOptimum(A, m2, comm) || |stages| - 1 == Cap(maxIter))
  }

  function Cap(maxIter: int): nat { if maxIter > 0 then maxIter else 0 }

  /** The labelling Louvain returns for weights A of total m2: the outcome of its loop, renumbered. */
  ghost predicate Outcome(A: Weights, m2: real, n: nat, maxIter: int, result: seq<nat>) {
    Canonical(result)
    && if m2 == 0.0 then result == Singletons(n)
       else exists stages, comm :: Climbs(A, m2, n, maxIter, stages, comm) && SameBlocks(comm, result)
  }

  /** One pass over all nodes. */
  method Pass(m: Matrix, m2: real, degree: seq<real>, comm: array<nat>, sigma: map<nat, real>)
    returns (sigma': map<nat, real>, improved: bool)
    requires m2 > 0.0 && Square(m, comm.Length) && |degree| == comm.Length
    requires Symmetric(Entries(m)) && NonNegative(Entries(m))
    requires forall i: nat :: i < comm.Length ==> degree[i] == Degree(comm.Length, Entries(m), i)
    requires TracksSigma(Entries(m), comm[..], sigma) && Sound(Entries(m), comm[..])
    modifies comm
    ensures TracksSigma(Entries(m), comm[..], sigma') && Sound(Entries(m), comm[..])
    ensures improved ==> ModularityOf(Entries(m), m2, comm[..]) > ModularityOf(Entries(m), m2, old(comm[..]))
    ensures !improved ==> comm[..] == old(comm[..]) && LocalOptimum(Entries(m), m2, comm[..])
    ensures FullPass(Entries(m), m2, old(comm[..]), comm[..])
  {
    hide Symmetric, NonNegative, TracksSigma, Sound, ModularityOf, Visited, Settled;
    ghost var A, c0 := Entries(m), comm[..];
    improved, sigma' := false, sigma;
    var order := RandPerm(comm.Length);
    assert forall j :: 0 <= j < |order| ==> order[j] in order;
    ghost var trail := [c0];
    for k := 0 to |order|
      invariant |trail| == k + 1 && trail[0] == c0 && trail[k] == comm[..]
      invariant Trail(A, m2, order[..k], trail)
      invariant forall j :: 0 <= j < |order| ==> order[j] < |c0|
      invariant TracksSigma(A, comm[..], sigma') && Sound(A, comm[..])
      invariant if improved then ModularityOf(A, m2, comm[..]) > ModularityOf(A, m2, c0)
                else comm[..] == c0 && forall j :: 0 <= j < k ==> Settled(A, m2, c0, order[j])
    {
      ghost var before := comm[..];
      var moved;
      assert order[k] in order;
      sigma', moved := Visit(m, m2, degree, comm, order[k], sigma');
      VisitImproves(A, m2, before, comm[..], order[k]);
      trail := trail + [comm[..]];
      if moved {
        improved := true;
      }
    }
    assert order[..|order|] == order;
    if !improved {
      forall i: nat | i < |c0| ensures Settled(A, m2, c0, i) {
        assert i in order;
      }
    }
  }

  function Singletons(n: nat): (r: seq<nat>)
    ensures |r| == n && forall i :: 0 <= i < n ==> r[i] == i
  {
    seq(n, i => i)
  }

  lemma SingletonsSound(A: Weights, n: nat)
    ensures Sound(A, Singletons(n)) && Canonical(Singletons(n))
  {
    forall x: nat | x < n ensures Joined(A, n, x, x) {
      JoinedSelf(A, n, x);
    }
    forall i, c: nat | 0 <= i < n && c < Singletons(n)[i] ensures c in Singletons(n)[..i] {
      assert Singletons(n)[..i][c] == c;
    }
  }

  // ---------- renaming labels changes nothing ----------

  lemma SameToComm(A: Weights, a: seq<nat>, b: seq<nat>, x: nat, j: nat)
    requires SameBlocks(a, b) && j < |a|
    ensures ToComm(A, a, x, a[j]) == ToComm(A, b, x, b[j])
    ensures SigmaTot(A, a, a[j]) == SigmaTot(A, b, b[j])
  {
    forall y: nat | y < |a| ensures In(a, a[j], y) <==> In(b, b[j], y) {
      assert a[y] == a[j] <==> b[y] == b[j];
    }
    SumExt(|a|, ToTerms(A, a, x, a[j]), ToTerms(A, b, x, b[j]));
    SumExt(|a|, SigmaTerms(A, a, a[j]), SigmaTerms(A, b, b[j]));
  }

  lemma SameModularity(A: Weights, m2: real, a: seq<nat>, b: seq<nat>)
    requires m2 != 0.0 && SameBlocks(a, b)
    ensures ModularityOf(A, m2, a) == ModularityOf(A, m2, b)
  {
    var B := Excess(|a|, A, m2);
    forall x: nat | x < |a| ensures WithinTerms(B, a)(x) == WithinTerms(B, b)(x) {
      SameToComm(B, a, b, x, x);
    }
    SumExt(|a|, WithinTerms(B, a), WithinTerms(B, b));
  }

  lemma SameCodeGain(A: Weights, m2: real, a: seq<nat>, b: seq<nat>, i: nat, j: nat)
    requires m2 != 0.0 && SameBlocks(a, b) && i < |a| && j < |a|
    ensures CodeGain(A, m2, a, i, a[j]) == CodeGain(A, m2, b, i, b[j])
  {
    SameToComm(A, a, b, i, j);
    SameToComm(A, a, b, i, i);
    assert a[i] == a[j] <==> b[i] == b[j];
    hide ToComm, SigmaTot, Degree, GainTerm;
  }

  lemma SameOptimum(A: Weights, m2: real, a: seq<nat>, b: seq<nat>)
    requires m2 != 0.0 && SameBlocks(a, b) && LocalOptimum(A, m2, a)
    ensures LocalOptimum(A, m2, b)
  {
    forall i: nat, c: nat | i < |b| && Neighbouring(A, b, i, c) ensures CodeGain(A, m2, b, i, c) <= 0.0 {
      var j :| 0 <= j < |b| && A(i, j) > 0.0 && b[j] == c;
      assert Settled(A, m2, a, i) && Neighbouring(A, a, i, a[j]);
      SameCodeGain(A, m2, a, b, i, j);
    }
  }

  lemma SameJoined(A: Weights, a: seq<nat>, b: seq<nat>)
    requires SameBlocks(a, b) && BlocksJoined(A, a)
    ensures BlocksJoined(A, b)
  {
    forall x: nat, y: nat | x < |b| && y < |b| && b[x] == b[y] ensures Joined(A, |b|, x, y) {
      assert a[x] == a[y] <==> b[x] == b[y];
    }
  }

  // ---------- Louvain ----------

  /** Labellings met so far, all of lower modularity than the present one. */
  ghost predicate Climbed(A: Weights, m2: real, seen: set<seq<nat>>, comm: seq<nat>, n: nat)
    requires m2 != 0.0
  {
    forall s :: s in seen ==> |s| == n && Below(s, n) && ModularityOf(A, m2, s) < ModularityOf(A, m2, comm)
  }

  lemma ClimbStep(A: Weights, m2: real, n: nat, seen: set<seq<nat>>, comm: seq<nat>, comm': seq<nat>)
    requires m2 != 0.0 && Climbed(A, m2, seen, comm, n) && |comm| == n && Below(comm, n)
    requires ModularityOf(A, m2, comm') > ModularityOf(A, m2, comm)
    ensures Climbed(A, m2, seen + {comm}, comm', n) && |seen + {comm}| == |seen| + 1
  {
    assert comm !in seen;
  }

  lemma StagesStep(A: Weights, m2: real, n: nat, stages: seq<seq<nat>>, comm': seq<nat>)
    requires m2 != 0.0 && Stages(A, m2, n, stages) && FullPass(A, m2, stages[|stages| - 1], comm')
    requires ModularityOf(A, m2, comm') > ModularityOf(A, m2, stages[|stages| - 1])
    ensures Stages(A, m2, n, stages + [comm'])
  {
  }

  lemma FewLabellings(A: Weights, m2: real, n: nat, seen: set<seq<nat>>, comm: seq<nat>)
    requires m2 != 0.0 && Climbed(A, m2, seen, comm, n)
    ensures |seen| <= Power(n, n)
  {
    AtMostAll(seen, n, n);
  }

  /** The passes: at most maxIter, stopping after one without a move. */
  method Climb(m: Matrix, m2: real, n: nat, comm: array<nat>, maxIter: int) returns (ghost stages: seq<seq<nat>>)
    requires m2 > 0.0 && Square(m, n) && comm.Length == n
    requires Symmetric(Entries(m)) && NonNegative(Entries(m)) && comm[..] == Singletons(n)
    modifies comm
    ensures Sound(Entries(m), comm[..])
    ensures ModularityOf(Entries(m), m2, comm[..]) >= ModularityOf(Entries(m), m2, Singletons(n))
    ensures maxIter > Power(n, n) ==> LocalOptimum(Entries(m), m2, comm[..])
    ensures Climbs(Entries(m), m2, n, maxIter, stages, comm[..])
  {
    ghost var A := Entries(m);
    var degree := Degrees(m, n);
    var sigma := InitialSigma(m, degree, n);
    SingletonsSound(A, n);
    ghost var seen: set<seq<nat>> := {};
    var improved := true;
    var iter := 0;
    stages := [comm[..]];
    assert Stages(A, m2, n, stages) && Climbed(A, m2, seen, comm[..], n);
    hide Symmetric, NonNegative, TracksSigma, ModularityOf, LocalOptimum, Power, BlocksJoined, FullPass, Climbed, Stages;
    while iter < maxIter && improved
      invariant TracksSigma(A, comm[..], sigma) && Sound(A, comm[..])
      invariant ModularityOf(A, m2, comm[..]) >= ModularityOf(A, m2, Singletons(n))
      invariant Climbed(A, m2, seen, comm[..], n) && |seen| == iter - (if improved then 0 else 1)
      invariant !improved ==> LocalOptimum(A, m2, comm[..])
      invariant iter >= 0 && (iter == 0 || iter <= maxIter)
      invariant Stages(A, m2, n, stages) && stages[|stages| - 1] == comm[..] && |stages| == |seen| + 1
      decreases maxIter - iter
    {
      ghost var before := comm[..];
      sigma, improved := Pass(m, m2, degree, comm, sigma);
      if improved {
        ClimbStep(A, m2, n, seen, before, comm[..]);
        StagesStep(A, m2, n, stages, comm[..]);
        seen := seen + {before};
        stages := stages + [comm[..]];
      }
      iter := iter + 1;
    }
    FewLabellings(A, m2, n, seen, comm[..]);
  }

  method NodeDegree(m: Matrix, i: nat) returns (d: real)
    requires Square(m, |m|) && i < |m|
    ensures d == Degree(|m|, Entries(m), i)
  {
    d := 0.0;
    for j := 0 to |m[i]|
      invariant d == Sum(j, RowTerms(Entries(m), i))
    {
      d := d + m[i][j];
    }
  }

  /** The degree of every node. */
  method Degrees(m: Matrix, n: nat) returns (degree: seq<real>)
    requires Square(m, n)
    ensures |degree| == n && forall i: nat :: i < n ==> degree[i] == Degree(n, Entries(m), i)
  {
    degree := [];
    for i := 0 to n
      invariant |degree| == i && forall k: nat :: k < i ==> degree[k] == Degree(n, Entries(m), k)
    {
      var d := NodeDegree(m, i);
      degree := degree + [d];
    }
  }

  /** sigmaTot of the initial labelling. */
  method InitialSigma(m: Matrix, degree: seq<real>, n: nat) returns (sigma: map<nat, real>)
    requires Square(m, n) && |degree| == n && forall i: nat :: i < n ==> degree[i] == Degree(n, Entries(m), i)
    ensures TracksSigma(Entries(m), Singletons(n), sigma)
  {
    ghost var A := Entries(m);
    sigma := map[];
    for i := 0 to n
      invariant forall c: nat :: Get(sigma, c) == Sum(i, SigmaTerms(A, Singletons(n), c))
    {
      sigma := sigma[i := Get(sigma, i) + degree[i]];
      assert forall c: nat :: SigmaTerms(A, Singletons(n), c)(i) == if c == i then Degree(n, A, i) else 0.0;
    }
  }

  /** Louvain: canonical labels; blocks inside connected components; modularity no lower than
      with every node alone; and, unless the iteration cap cuts it short, a local optimum. A
      cap above the number of labellings never does. */
  method Louvain(g: Graph, maxIter: int) returns (result: seq<nat>)
    requires g.Valid() && Positive(g.Edges)
    ensures |result| == |g.Nodes| && Canonical(result)
    ensures BlocksJoined(Entries(g.adjMatrix), result)
    ensures g.totalWeight == 0.0 ==> result == Singletons(|g.Nodes|)
    ensures g.totalWeight > 0.0 ==>
      && ModularityOf(Entries(g.adjMatrix), 2.0 * g.totalWeight, result)
         >= ModularityOf(Entries(g.adjMatrix), 2.0 * g.totalWeight, Singletons(|g.Nodes|))
      && (maxIter > Power(|g.Nodes|, |g.Nodes|) ==> LocalOptimum(Entries(g.adjMatrix), 2.0 * g.totalWeight, result))
    ensures Outcome(Entries(g.adjMatrix), 2.0 * g.totalWeight, |g.Nodes|, maxIter, result)
  {
    var n := |g.Nodes|;
    ghost var A := Entries(g.adjMatrix);
    PositiveWeighs(n, g.adjMatrix, g.Edges, g.totalWeight);
    SingletonsSound(A, n);
    if n == 0 {
      assert Singletons(0) == [];
      return [];
    }
    var comm := new nat[n](i => i);
    assert comm[..] == Singletons(n);
    if g.totalWeight == 0.0 {
      return comm[..];
    }
    var m2 := 2.0 * g.totalWeight;
    ghost var stages := Climb(g.adjMatrix, m2, n, comm, maxIter);
    result := Renumber(comm[..]);
    SameModularity(A, m2, comm[..], result);
    SameJoined(A, comm[..], result);
    if maxIter > Power(n, n) {
      SameOptimum(A, m2, comm[..], result);
    }
  }
}
