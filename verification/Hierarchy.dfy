/** HierarchicalLouvain of internal/community/louvain.go. The names given to super-nodes are
    a parameter; the code names them all "". */
module Hierarchy {
  import opened Collections
  import opened Modularity
  import opened Labelings
  import opened Louvain

  /** The labels in use (commSet and nextSet in the source). */
  function LabelSet(comm: seq<nat>): set<nat> {
    set c | c in comm
  }

  /** Nodes that share a label in `fine` share one in `coarse`. */
  ghost predicate Coarsens(fine: seq<nat>, coarse: seq<nat>) {
    && |fine| == |coarse|
    && forall i, j :: 0 <= i < |fine| && 0 <= j < |fine| && fine[i] == fine[j] ==> coarse[i] == coarse[j]
  }

  /** index numbers the labels in use from 0. */
  ghost predicate Numbers(index: map<nat, nat>, labels: set<nat>) {
    && index.Keys == labels
    && (forall c :: c in index ==> index[c] < |labels|)
    && forall c, d :: c in index && d in index && index[c] == index[d] ==> c == d
  }

  /** superNodeIdx, filled in any order. */
  method NumberLabels(labels: set<nat>) returns (index: map<nat, nat>)
    ensures Numbers(index, labels)
  {
    index := map[];
    var rest, next := labels, 0;
    while rest != {}
      invariant rest <= labels && index.Keys == labels - rest && next + |rest| == |labels|
      invariant forall c :: c in index ==> index[c] < next
      invariant forall c, d :: c in index && d in index && index[c] == index[d] ==> c == d
      decreases rest
    {
      var c :| c in rest;
      index := index[c := next];
      next := next + 1;
      rest := rest - {c};
    }
  }

  // ---------- the super-graph ----------

  /** Weight of the edges between the communities numbered a and b. */
  function CrossWeight(edges: seq<Edge>, group: seq<nat>, a: nat, b: nat): real
    requires forall e :: e in edges ==> e.Source < |group| && e.Target < |group|
  {
    if edges == [] then 0.0
    else
      var e := edges[|edges| - 1];
      CrossWeight(edges[..|edges| - 1], group, a, b)
      + if group[e.Source] != group[e.Target]
        then Contribution(Edge(group[e.Source], group[e.Target], e.Weight), a, b) else 0.0
  }

  /** superAdj: both directions of every edge that leaves its community. */
  method SuperAdjacency(edges: seq<Edge>, group: seq<nat>, k: nat) returns (m: Matrix)
    requires forall e :: e in edges ==> e.Source < |group| && e.Target < |group|
    requires forall i :: 0 <= i < |group| ==> group[i] < k
    ensures Square(m, k)
    ensures forall a: nat, b: nat :: a < k && b < k ==> m[a][b] == CrossWeight(edges, group, a, b)
  {
    m := ZeroMatrix(k);
    for x := 0 to |edges|
      invariant Square(m, k)
      invariant forall a: nat, b: nat :: a < k && b < k ==> m[a][b] == CrossWeight(edges[..x], group, a, b)
    {
      var e := edges[x];
      assert e in edges;
      assert edges[..x + 1][..x] == edges[..x];
      var ci, cj := group[e.Source], group[e.Target];
      if ci != cj {
        m := Bump(m, ci, cj, e.Weight);
        m := Bump(m, cj, ci, e.Weight);
      }
    }
    assert edges[..|edges|] == edges;
  }

  /** raw holds one edge for each pair of communities with weight between them, and no other. */
  ghost predicate OnePerPair(m: Matrix, names: seq<string>, raw: seq<RawEdge>, pairs: seq<(nat, nat)>)
    requires Square(m, |names|)
  {
    EdgesOfPairs(m, names, raw, pairs)
    && forall i: nat, j: nat :: i < j < |names| && m[i][j] > 0.0 ==> (i, j) in pairs
  }

  ghost predicate EdgesOfPairs(m: Matrix, names: seq<string>, raw: seq<RawEdge>, pairs: seq<(nat, nat)>)
    requires Square(m, |names|)
  {
    && |pairs| == |raw| && NoDup(pairs)
    && forall k :: 0 <= k < |raw| ==>
         && pairs[k].0 < pairs[k].1 < |names| && m[pairs[k].0][pairs[k].1] > 0.0
         && raw[k] == RawEdge(names[pairs[k].0], names[pairs[k].1], m[pairs[k].0][pairs[k].1])
  }

  ghost predicate Before(p: (nat, nat), i: nat, j: nat) {
    p.0 < i || (p.0 == i && p.1 < j)
  }

  lemma PairAdded(m: Matrix, names: seq<string>, raw: seq<RawEdge>, pairs: seq<(nat, nat)>, i: nat, j: nat)
    requires Square(m, |names|) && EdgesOfPairs(m, names, raw, pairs) && i < j < |names| && m[i][j] > 0.0
    requires forall p :: p in pairs ==> Before(p, i, j)
    ensures EdgesOfPairs(m, names, raw + [RawEdge(names[i], names[j], m[i][j])], pairs + [(i, j)])
  {
    assert (i, j) !in pairs;
  }

  method SuperEdges(m: Matrix, names: seq<string>) returns (raw: seq<RawEdge>, ghost pairs: seq<(nat, nat)>)
    requires Square(m, |names|)
    ensures OnePerPair(m, names, raw, pairs)
  {
    raw, pairs := [], [];
    assert EdgesOfPairs(m, names, raw, pairs);
    hide EdgesOfPairs, NoDup, Before;
    NoneBefore();
    for i := 0 to |names|
      invariant EdgesOfPairs(m, names, raw, pairs) && forall p :: p in pairs ==> Before(p, i, 0)
      invariant forall x: nat, y: nat :: x < y < |names| && Before((x, y), i, 0) && m[x][y] > 0.0 ==> (x, y) in pairs
    {
      RowStarts(i);
      for j := i + 1 to |names|
        invariant EdgesOfPairs(m, names, raw, pairs) && forall p :: p in pairs ==> Before(p, i, j)
        invariant forall x: nat, y: nat :: x < y < |names| && Before((x, y), i, j) && m[x][y] > 0.0 ==> (x, y) in pairs
      {
        NextBefore(i, j);
        if m[i][j] > 0.0 {
          PairAdded(m, names, raw, pairs, i, j);
          raw := raw + [RawEdge(names[i], names[j], m[i][j])];
          pairs := pairs + [(i, j)];
        }
      }
      RowEnds(i, |names|);
    }
    AllBefore(|names|);
  }

  lemma NoneBefore()
    ensures forall p :: !Before(p, 0, 0)
  {
  }

  lemma RowStarts(i: nat)
    ensures forall p :: Before(p, i, 0) ==> Before(p, i, i + 1)
    ensures forall p: (nat, nat) :: p.0 < p.1 && Before(p, i, i + 1) ==> Before(p, i, 0)
  {
  }

  lemma NextBefore(i: nat, j: nat)
    ensures forall p :: Before(p, i, j + 1) <==> Before(p, i, j) || p == (i, j)
  {
  }

  lemma RowEnds(i: nat, n: nat)
    ensures forall p :: Before(p, i, n) ==> Before(p, i + 1, 0)
    ensures forall p: (nat, nat) :: p.1 < n && Before(p, i + 1, 0) ==> Before(p, i, n)
  {
  }

  lemma AllBefore(n: nat)
    ensures forall p: (nat, nat) :: p.0 < n ==> Before(p, n, 0)
  {
  }

  // ---------- when all super-nodes have one name ----------

  ghost predicate OneName(names: seq<string>) {
    forall i, j :: 0 <= i < |names| && 0 <= j < |names| ==> names[i] == names[j]
  }

  lemma {:induction false} LoopsOnly(index: map<string, nat>, raw: seq<RawEdge>)
    requires forall s, t :: s in index && t in index ==> index[s] == index[t]
    ensures forall e :: e in Resolve(index, raw) ==> e.Source == e.Target
  {
    if raw != [] {
      LoopsOnly(index, raw[..|raw| - 1]);
    }
  }

  lemma {:induction false} LoopsWeigh(edges: seq<Edge>, i: nat, j: nat)
    requires (forall e :: e in edges ==> e.Source == e.Target) && i != j
    ensures EdgeWeight(edges, i, j) == 0.0
  {
    if edges != [] {
      assert edges[|edges| - 1] in edges;
      LoopsWeigh(edges[..|edges| - 1], i, j);
    }
  }

  lemma {:induction false} LoopsJoin(A: Weights, n: nat, p: seq<nat>)
    requires Path(A, n, p) && forall i: nat, j: nat :: i != j ==> A(i, j) <= 0.0
    ensures p[0] == p[|p| - 1]
  {
    if |p| > 1 {
      LoopsJoin(A, n, p[..|p| - 1]);
      assert A(p[|p| - 2], p[|p| - 1]) > 0.0;
    }
  }

  /** A graph whose names are all equal collapses every edge to a self-loop, so Louvain
      leaves every node alone. */
  lemma OneNameSeparates(g: Graph, raw: seq<RawEdge>, comm: seq<nat>)
    requires g.Valid() && OneName(g.Nodes) && g.Edges == Resolve(g.nodeIndex, raw)
    requires |comm| == |g.Nodes| && BlocksJoined(Entries(g.adjMatrix), comm)
    ensures forall x: nat, y: nat :: x < |comm| && y < |comm| && comm[x] == comm[y] ==> x == y
  {
    var A := Entries(g.adjMatrix);
    LoopsOnly(g.nodeIndex, raw);
    forall i: nat, j: nat | i != j ensures A(i, j) <= 0.0 {
      LoopsWeigh(g.Edges, i, j);
      assert A(i, j) == EdgeWeight(g.Edges, i, j);
    }
    forall x: nat, y: nat | x < |comm| && y < |comm| && comm[x] == comm[y] ensures x == y {
      var p :| Path(A, |comm|, p) && p[0] == x && p[|p| - 1] == y;
      LoopsJoin(A, |comm|, p);
    }
  }

  // ---------- when the super-nodes have different names ----------

  ghost predicate DistinctNames(names: seq<string>) {
    forall i, j :: 0 <= i < j < |names| ==> names[i] != names[j]
  }

  /** e runs between a and b, in either direction. */
  ghost predicate Between(e: Edge, group: seq<nat>, a: nat, b: nat)
    requires e.Source < |group| && e.Target < |group|
  {
    (group[e.Source] == a && group[e.Target] == b) || (group[e.Source] == b && group[e.Target] == a)
  }

  lemma {:induction false} CrossingEdge(edges: seq<Edge>, group: seq<nat>, a: nat, b: nat) returns (e: Edge)
    requires forall x :: x in edges ==> x.Source < |group| && x.Target < |group|
    requires CrossWeight(edges, group, a, b) > 0.0
    ensures e in edges && Between(e, group, a, b)
  {
    e := edges[|edges| - 1];
    if !Between(e, group, a, b) {
      e := CrossingEdge(edges[..|edges| - 1], group, a, b);
    }
  }

  lemma {:induction false} EdgesWeighPositive(edges: seq<Edge>, e: Edge)
    requires e in edges && Positive(edges)
    ensures EdgeWeight(edges, e.Source, e.Target) > 0.0 && EdgeWeight(edges, e.Target, e.Source) > 0.0
  {
    var before, last := edges[..|edges| - 1], edges[|edges| - 1];
    assert edges == before + [last] && last in edges;
    if e in before {
      EdgesWeighPositive(before, e);
    } else {
      PositiveSums(before, e.Source, e.Target);
      PositiveSums(before, e.Target, e.Source);
    }
  }

  lemma JoinedThrough(A: Weights, n: nat, x: nat, y: nat, z: nat)
    requires Joined(A, n, x, y) && Joined(A, n, y, z)
    ensures Joined(A, n, x, z)
  {
    var p :| Path(A, n, p) && p[0] == x && p[|p| - 1] == y;
    var q :| Path(A, n, q) && q[0] == y && q[|q| - 1] == z;
    var r := p + q[1..];
    forall k | 0 < k < |r| ensures A(r[k - 1], r[k]) > 0.0 {
      if k >= |p| {
        assert r[k] == q[k - |p| + 1] && r[k - 1] == q[k - |p|];
      }
    }
    assert Path(A, n, r);
  }

  /** Two groups with an edge between them in the super-graph have one in the graph. */
  ghost predicate Lifts(A: Weights, B: Weights, group: seq<nat>) {
    forall a: nat, b: nat :: B(a, b) > 0.0 ==>
      exists u: nat, v: nat :: u < |group| && v < |group| && group[u] == a && group[v] == b && A(u, v) > 0.0
  }

  /** Weight between two different super-nodes: that of all edges between their members. */
  function SuperWeight(edges: seq<Edge>, group: seq<nat>, k: nat, a: nat, b: nat): real
    requires forall e :: e in edges ==> e.Source < |group| && e.Target < |group|
  {
    if a < k && b < k && a != b then CrossWeight(edges, group, a, b) else 0.0
  }

  lemma {:induction false} CrossSymmetric(edges: seq<Edge>, group: seq<nat>, a: nat, b: nat)
    requires forall e :: e in edges ==> e.Source < |group| && e.Target < |group|
    ensures CrossWeight(edges, group, a, b) == CrossWeight(edges, group, b, a)
    ensures Positive(edges) ==> CrossWeight(edges, group, a, b) >= 0.0
  {
    if edges != [] {
      CrossSymmetric(edges[..|edges| - 1], group, a, b);
      assert edges[|edges| - 1] in edges;
    }
  }

  lemma DistinctIndex(names: seq<string>, index: map<string, nat>, i: nat)
    requires DistinctNames(names) && IndexOfNames(names, index) && i < |names|
    ensures names[i] in index && index[names[i]] == i
  {
  }

  /** What the raw edges add up to between a and b. */
  lemma {:induction false} PairsWeigh(m: Matrix, names: seq<string>, index: map<string, nat>, raw: seq<RawEdge>,
                                      pairs: seq<(nat, nat)>, a: nat, b: nat)
    requires Square(m, |names|) && EdgesOfPairs(m, names, raw, pairs)
    requires DistinctNames(names) && IndexOfNames(names, index) && a < |names| && b < |names|
    ensures EdgeWeight(Resolve(index, raw), a, b)
         == if (a, b) in pairs then m[a][b] else if (b, a) in pairs then m[b][a] else 0.0
  {
    hide IndexOfNames, DistinctNames, EdgesOfPairs, Resolve, EdgeWeight, Contribution, NoDup;
    if |raw| > 0 {
      LastOfPairs(m, names, raw, pairs);
      var k := |raw| - 1;
      var p, w := pairs[k], m[pairs[k].0][pairs[k].1];
      PairsWeigh(m, names, index, raw[..k], pairs[..k], a, b);
      DistinctIndex(names, index, p.0);
      DistinctIndex(names, index, p.1);
      LastResolves(index, raw);
      LastEdgeWeighs(Resolve(index, raw[..k]), Edge(p.0, p.1, w), a, b);
      PairContributes(p, w, a, b);
      LastPair(pairs, a, b);
    } else {
      NothingWeighs(m, names, index, raw, pairs, a, b);
    }
  }

  lemma NothingWeighs(m: Matrix, names: seq<string>, index: map<string, nat>, raw: seq<RawEdge>, pairs: seq<(nat, nat)>,
                      a: nat, b: nat)
    requires Square(m, |names|) && EdgesOfPairs(m, names, raw, pairs) && |raw| == 0
    ensures pairs == [] && EdgeWeight(Resolve(index, raw), a, b) == 0.0
  {
  }

  lemma LastOfPairs(m: Matrix, names: seq<string>, raw: seq<RawEdge>, pairs: seq<(nat, nat)>)
    requires Square(m, |names|) && EdgesOfPairs(m, names, raw, pairs) && |raw| > 0
    ensures |pairs| == |raw| && NoDup(pairs) && forall p :: p in pairs ==> p.0 < p.1
    ensures var k := |raw| - 1;
      && EdgesOfPairs(m, names, raw[..k], pairs[..k])
      && pairs[k].1 < |names| && m[pairs[k].0][pairs[k].1] > 0.0
      && raw[k] == RawEdge(names[pairs[k].0], names[pairs[k].1], m[pairs[k].0][pairs[k].1])
  {
  }

  lemma LastResolves(index: map<string, nat>, raw: seq<RawEdge>)
    requires raw != []
    ensures var e := raw[|raw| - 1];
      e.source in index && e.target in index && e.weight > 0.0 ==>
        Resolve(index, raw) == Resolve(index, raw[..|raw| - 1]) + [Edge(index[e.source], index[e.target], e.weight)]
  {
  }

  lemma PairContributes(p: (nat, nat), w: real, a: nat, b: nat)
    requires p.0 < p.1
    ensures Contribution(Edge(p.0, p.1, w), a, b) == if p == (a, b) || p == (b, a) then w else 0.0
  {
  }

  lemma LastPair(pairs: seq<(nat, nat)>, a: nat, b: nat)
    requires pairs != [] && NoDup(pairs) && forall p :: p in pairs ==> p.0 < p.1
    ensures var p, before := pairs[|pairs| - 1], pairs[..|pairs| - 1];
      && p !in before
      && ((a, b) in pairs <==> (a, b) in before || p == (a, b)) && ((b, a) in pairs <==> (b, a) in before || p == (b, a))
      && ((a, b) in pairs ==> a < b) && ((b, a) in pairs ==> b < a)
  {
    assert pairs == pairs[..|pairs| - 1] + [pairs[|pairs| - 1]];
  }

  lemma LastEdgeWeighs(edges: seq<Edge>, e: Edge, a: nat, b: nat)
    ensures EdgeWeight(edges + [e], a, b) == EdgeWeight(edges, a, b) + Contribution(e, a, b)
  {
    assert (edges + [e])[..|edges|] == edges;
  }

  /** The super-graph weighs between its nodes what the graph weighs between the groups. */
  lemma SuperGraphWeighs(g: Graph, group: seq<nat>, m: Matrix, sg: Graph, raw: seq<RawEdge>, pairs: seq<(nat, nat)>,
                         a: nat, b: nat)
    requires g.Valid() && Positive(g.Edges) && sg.Valid() && |group| == |g.Nodes| && DistinctNames(sg.Nodes)
    requires Square(m, |sg.Nodes|)
    requires forall x: nat, y: nat :: x < |m| && y < |m| ==> m[x][y] == CrossWeight(g.Edges, group, x, y)
    requires OnePerPair(m, sg.Nodes, raw, pairs) && sg.Edges == Resolve(sg.nodeIndex, raw)
    ensures Entries(sg.adjMatrix)(a, b) == SuperWeight(g.Edges, group, |sg.Nodes|, a, b)
  {
    if a < |sg.Nodes| && b < |sg.Nodes| {
      assert Entries(sg.adjMatrix)(a, b) == EdgeWeight(sg.Edges, a, b);
      PairsWeigh(m, sg.Nodes, sg.nodeIndex, raw, pairs, a, b);
      CrossSymmetric(g.Edges, group, a, b);
    }
  }

  lemma SuperEdgesLift(g: Graph, group: seq<nat>, k: nat, B: Weights)
    requires g.Valid() && Positive(g.Edges) && |group| == |g.Nodes|
    requires forall a: nat, b: nat :: B(a, b) == SuperWeight(g.Edges, group, k, a, b)
    ensures Lifts(Entries(g.adjMatrix), B, group)
  {
    var A := Entries(g.adjMatrix);
    forall a: nat, b: nat | B(a, b) > 0.0
      ensures exists u: nat, v: nat :: u < |group| && v < |group| && group[u] == a && group[v] == b && A(u, v) > 0.0
    {
      var c := CrossingEdge(g.Edges, group, a, b);
      EdgesWeighPositive(g.Edges, c);
      assert A(c.Source, c.Target) > 0.0 && A(c.Target, c.Source) > 0.0;
    }
  }

  lemma {:induction false} PathLifts(A: Weights, B: Weights, group: seq<nat>, p: seq<nat>, x: nat, y: nat)
    requires Lifts(A, B, group) && BlocksJoined(A, group) && p != [] && x < |group| && y < |group|
    requires group[x] == p[0] && group[y] == p[|p| - 1]
    requires forall k :: 0 < k < |p| ==> B(p[k - 1], p[k]) > 0.0
    ensures Joined(A, |group|, x, y)
  {
    if |p| > 1 {
      var q := p[..|p| - 1];
      var u: nat, v: nat :| u < |group| && v < |group| && group[u] == q[|q| - 1] && group[v] == p[|p| - 1] && A(u, v) > 0.0;
      PathLifts(A, B, group, q, x, u);
      JoinedBack(A, |group|, x, u, v);
      JoinedThrough(A, |group|, x, v, y);
    }
  }

  /** Merging groups along super-edges stays inside the connected components of the graph. */
  lemma MergedStayJoined(A: Weights, B: Weights, group: seq<nat>, superComm: seq<nat>, next: seq<nat>)
    requires Lifts(A, B, group) && BlocksJoined(A, group) && BlocksJoined(B, superComm)
    requires |next| == |group| && forall i :: 0 <= i < |group| ==> group[i] < |superComm| && next[i] == superComm[group[i]]
    ensures BlocksJoined(A, next)
  {
    forall x: nat, y: nat | x < |next| && y < |next| && next[x] == next[y] ensures Joined(A, |next|, x, y) {
      assert Joined(B, |superComm|, group[x], group[y]);
      var p :| Path(B, |superComm|, p) && p[0] == group[x] && p[|p| - 1] == group[y];
      PathLifts(A, B, group, p, x, y);
    }
  }

  // ---------- levels ----------

  lemma {:induction false} InjectiveImage(S: set<nat>, f: map<nat, nat>, T: set<nat>)
    requires S <= f.Keys && (forall c :: c in S ==> f[c] in T)
    requires forall c, d :: c in S && d in S && f[c] == f[d] ==> c == d
    ensures |S| <= |T|
  {
    if S != {} {
      var c :| c in S;
      InjectiveImage(S - {c}, f, T - {f[c]});
    }
  }

  /** Louvain on the super-graph whose nodes are the k groups. */
  method GroupCommunities(g: Graph, group: seq<nat>, names: seq<string>, maxIter: int) returns (superComm: seq<nat>)
    requires g.Valid() && Positive(g.Edges) && |group| == |g.Nodes| && forall i :: 0 <= i < |group| ==> group[i] < |names|
    ensures |superComm| == |names|
    ensures OneName(names) ==>
      forall x: nat, y: nat :: x < |names| && y < |names| && superComm[x] == superComm[y] ==> x == y
    ensures DistinctNames(names) ==> SuperOutcome(g.Edges, group, |names|, maxIter, superComm)
  {
    hide BlocksJoined, Outcome, OnePerPair, DistinctNames, OneName, SuperOutcome;
    var superAdj := SuperAdjacency(g.Edges, group, |names|);
    var superEdges;
    ghost var pairs;
    superEdges, pairs := SuperEdges(superAdj, names);
    RawPositive(superAdj, names, superEdges, pairs);
    var superGraph := new Graph(names, superEdges);
    superComm := Louvain.Louvain(superGraph, maxIter);
    if OneName(names) {
      OneNameSeparates(superGraph, superEdges, superComm);
    }
    if DistinctNames(names) {
      SuperOutcomes(g, group, superAdj, superGraph, superEdges, pairs, maxIter, superComm);
    }
  }

  lemma SuperOutcomes(g: Graph, group: seq<nat>, m: Matrix, sg: Graph, raw: seq<RawEdge>, pairs: seq<(nat, nat)>,
                      maxIter: int, superComm: seq<nat>)
    requires g.Valid() && Positive(g.Edges) && sg.Valid() && |group| == |g.Nodes| && DistinctNames(sg.Nodes)
    requires Square(m, |sg.Nodes|)
    requires forall x: nat, y: nat :: x < |m| && y < |m| ==> m[x][y] == CrossWeight(g.Edges, group, x, y)
    requires OnePerPair(m, sg.Nodes, raw, pairs) && sg.Edges == Resolve(sg.nodeIndex, raw)
    requires |superComm| == |sg.Nodes| && BlocksJoined(Entries(sg.adjMatrix), superComm)
    requires Outcome(Entries(sg.adjMatrix), 2.0 * sg.totalWeight, |sg.Nodes|, maxIter, superComm)
    ensures SuperOutcome(g.Edges, group, |sg.Nodes|, maxIter, superComm)
  {
    var B := Entries(sg.adjMatrix);
    assert Total(|sg.Nodes|, B) == 2.0 * sg.totalWeight;
    hide BlocksJoined, Outcome, OnePerPair, Total;
    forall a: nat, b: nat ensures B(a, b) == SuperWeight(g.Edges, group, |sg.Nodes|, a, b) {
      SuperGraphWeighs(g, group, m, sg, raw, pairs, a, b);
    }
  }

  /** superComm is an outcome of Louvain on the graph whose nodes are the k groups. */
  ghost predicate SuperOutcome(edges: seq<Edge>, group: seq<nat>, k: nat, maxIter: int, superComm: seq<nat>)
    requires forall e :: e in edges ==> e.Source < |group| && e.Target < |group|
  {
    exists B: Weights ::
      && (forall a: nat, b: nat :: B(a, b) == SuperWeight(edges, group, k, a, b))
      && |superComm| == k && Outcome(B, Total(k, B), k, maxIter, superComm) && BlocksJoined(B, superComm)
  }

  lemma RawPositive(m: Matrix, names: seq<string>, raw: seq<RawEdge>, pairs: seq<(nat, nat)>)
    requires Square(m, |names|) && OnePerPair(m, names, raw, pairs)
    ensures forall e :: e in raw ==> e.weight >= 0.0
  {
    forall e | e in raw ensures e.weight >= 0.0 {
      var k :| 0 <= k < |raw| && raw[k] == e;
    }
  }

  /** Mapping distinct groups to distinct labels keeps the number of communities. */
  lemma InjectiveKeepsCount(current: seq<nat>, index: map<nat, nat>, superComm: seq<nat>, next: seq<nat>)
    requires Numbers(index, LabelSet(current)) && |superComm| == |LabelSet(current)| && |next| == |current|
    requires forall i :: 0 <= i < |current| ==> current[i] in index && next[i] == superComm[index[current[i]]]
    requires forall x: nat, y: nat :: x < |superComm| && y < |superComm| && superComm[x] == superComm[y] ==> x == y
    ensures |LabelSet(next)| >= |LabelSet(current)|
  {
    var f := map c | c in LabelSet(current) :: superComm[index[c]];
    forall c | c in LabelSet(current) ensures f[c] in LabelSet(next) {
      var i :| 0 <= i < |current| && current[i] == c;
      assert next[i] == f[c];
    }
    InjectiveImage(LabelSet(current), f, LabelSet(next));
  }

  ghost predicate NamesAgree(name: nat -> string) {
    forall i: nat, j: nat :: name(i) == name(j)
  }

  ghost predicate NamesDiffer(name: nat -> string) {
    forall i: nat, j: nat :: i < j ==> name(i) != name(j)
  }

  /** One more level: Louvain on the communities of `current`. */
  method NextLevel(g: Graph, current: seq<nat>, name: nat -> string, maxIter: int) returns (nextLevel: seq<nat>)
    requires g.Valid() && Positive(g.Edges) && |current| == |g.Nodes|
    ensures |nextLevel| == |current| && Coarsens(current, nextLevel)
    ensures NamesAgree(name) ==> |LabelSet(nextLevel)| >= |LabelSet(current)|
    ensures NamesDiffer(name) ==> NextBy(g.Edges, current, maxIter, nextLevel)
  {
    var commSet := LabelSet(current);
    var superNodeIdx := NumberLabels(commSet);
    var superNodes := seq(|commSet|, i requires 0 <= i < |commSet| => name(i));
    assert forall i :: 0 <= i < |current| ==> current[i] in commSet;
    var group := seq(|current|, i requires 0 <= i < |current| => superNodeIdx[current[i]]);
    var superComm := GroupCommunities(g, group, superNodes, maxIter);
    nextLevel := seq(|current|, i requires 0 <= i < |current| => superComm[group[i]]);
    if NamesAgree(name) {
      InjectiveKeepsCount(current, superNodeIdx, superComm, nextLevel);
    }
    assert NamesDiffer(name) ==> Merged(g.Edges, current, maxIter, nextLevel, superNodeIdx, group, superComm);
  }

  /** next merges the communities of current as Louvain groups them on the graph they form. */
  ghost predicate NextBy(edges: seq<Edge>, current: seq<nat>, maxIter: int, next: seq<nat>)
    requires forall e :: e in edges ==> e.Source < |current| && e.Target < |current|
  {
    exists index, group, superComm :: Merged(edges, current, maxIter, next, index, group, superComm)
  }

  ghost predicate Merged(edges: seq<Edge>, current: seq<nat>, maxIter: int, next: seq<nat>, index: map<nat, nat>,
                         group: seq<nat>, superComm: seq<nat>)
    requires forall e :: e in edges ==> e.Source < |current| && e.Target < |current|
  {
    && Numbers(index, LabelSet(current)) && |group| == |next| == |current|
    && (forall i :: 0 <= i < |current| ==> current[i] in index && group[i] == index[current[i]])
    && SuperOutcome(edges, group, |LabelSet(current)|, maxIter, superComm)
    && forall i :: 0 <= i < |current| ==> group[i] < |superComm| && next[i] == superComm[group[i]]
  }

  /** So communities that lie inside connected components stay so. */
  lemma NextStaysJoined(g: Graph, current: seq<nat>, maxIter: int, next: seq<nat>)
    requires g.Valid() && Positive(g.Edges) && |current| == |g.Nodes|
    requires NextBy(g.Edges, current, maxIter, next) && BlocksJoined(Entries(g.adjMatrix), current)
    ensures BlocksJoined(Entries(g.adjMatrix), next)
  {
    var index, group, superComm :| Merged(g.Edges, current, maxIter, next, index, group, superComm);
    var k := |LabelSet(current)|;
    var B: Weights :| (forall a: nat, b: nat :: B(a, b) == SuperWeight(g.Edges, group, k, a, b)) && BlocksJoined(B, superComm);
    assert SameBlocks(current, group);
    hide BlocksJoined, Lifts;
    SameJoined(Entries(g.adjMatrix), current, group);
    SuperEdgesLift(g, group, k, B);
    MergedStayJoined(Entries(g.adjMatrix), B, group, superComm, next);
  }

  /** The first level is Louvain's; each further one coarsens the one before into strictly fewer
      communities, with different names by merging them as Louvain groups them; with different
      names every level stays inside the connected components. */
  ghost predicate Ladder(g: Graph, name: nat -> string, maxIter: int, levels: seq<seq<nat>>)
    requires g.Valid()
    reads g
  {
    && |levels| >= 1 && (forall k :: 0 <= k < |levels| ==> |levels[k]| == |g.Nodes|)
    && Outcome(Entries(g.adjMatrix), 2.0 * g.totalWeight, |g.Nodes|, maxIter, levels[0])
    && BlocksJoined(Entries(g.adjMatrix), levels[0])
    && (forall k :: 0 < k < |levels| ==>
          Coarsens(levels[k - 1], levels[k]) && |LabelSet(levels[k])| < |LabelSet(levels[k - 1])|)
    && (NamesDiffer(name) ==> forall k :: 0 < k < |levels| ==> NextBy(g.Edges, levels[k - 1], maxIter, levels[k]))
    && (NamesDiffer(name) ==> forall k :: 0 <= k < |levels| ==> BlocksJoined(Entries(g.adjMatrix), levels[k]))
  }

  lemma LadderStep(g: Graph, name: nat -> string, maxIter: int, levels: seq<seq<nat>>, next: seq<nat>)
    requires g.Valid() && Positive(g.Edges) && Ladder(g, name, maxIter, levels) && |next| == |g.Nodes|
    requires Coarsens(levels[|levels| - 1], next) && |LabelSet(next)| < |LabelSet(levels[|levels| - 1])|
    requires NamesDiffer(name) ==> NextBy(g.Edges, levels[|levels| - 1], maxIter, next)
    ensures Ladder(g, name, maxIter, levels + [next])
  {
    hide BlocksJoined, Coarsens, NamesDiffer, LabelSet, IndexOfNames, NextBy, Outcome;
    if NamesDiffer(name) {
      NextStaysJoined(g, levels[|levels| - 1], maxIter, next);
    }
  }

  /** Why the last level is the last. */
  ghost predicate Topmost(g: Graph, name: nat -> string, maxLevels: int, maxIter: int, levels: seq<seq<nat>>)
    requires g.Valid() && |levels| > 0 && |levels[|levels| - 1]| == |g.Nodes|
    reads g
  {
    var last := levels[|levels| - 1];
    || |levels| >= maxLevels || |LabelSet(last)| <= 1
    || exists next :: NextBy(g.Edges, last, maxIter, next) && |LabelSet(next)| >= |LabelSet(last)|
  }

  /** There are never more levels than communities on the first. With one name for all
      super-nodes, as the code has it, there is exactly one level. */
  method HierarchicalLouvain(g: Graph, name: nat -> string, maxLevels: int, maxIter: int) returns (levels: seq<seq<nat>>)
    requires g.Valid() && Positive(g.Edges)
    ensures Ladder(g, name, maxIter, levels)
    ensures NamesDiffer(name) ==> Topmost(g, name, maxLevels, maxIter, levels)
    ensures |levels| + |LabelSet(levels[|levels| - 1])| <= |LabelSet(levels[0])| + 1
    ensures NamesAgree(name) ==> |levels| == 1
  {
    var current := Louvain.Louvain(g, maxIter);
    levels := [current];
    assert Ladder(g, name, maxIter, levels);
    hide Ladder, Coarsens, NamesAgree, NamesDiffer, LabelSet, Weighs, IndexOfNames, BlocksJoined, Outcome;
    while |levels| < maxLevels
      invariant |levels| >= 1 && levels[|levels| - 1] == current && |current| == |g.Nodes|
      invariant Ladder(g, name, maxIter, levels)
      invariant |levels| + |LabelSet(current)| <= |LabelSet(levels[0])| + 1
      invariant NamesAgree(name) ==> |levels| == 1
    {
      var commSet := LabelSet(current);
      if |commSet| <= 1 {
        break;
      }
      var nextLevel := NextLevel(g, current, name, maxIter);
      var nextSet := LabelSet(nextLevel);
      if |nextSet| >= |commSet| {
        break;
      }
      LadderStep(g, name, maxIter, levels, nextLevel);
      current := nextLevel;
      levels := levels + [current];
    }
  }

  /** The code's own call: every super-node is named "". */
  method Levels(g: Graph, maxLevels: int, maxIter: int) returns (levels: seq<seq<nat>>)
    requires g.Valid() && Positive(g.Edges)
    ensures |levels| == 1 && Outcome(Entries(g.adjMatrix), 2.0 * g.totalWeight, |g.Nodes|, maxIter, levels[0])
  {
    levels := HierarchicalLouvain(g, _ => "", maxLevels, maxIter);
  }
}
