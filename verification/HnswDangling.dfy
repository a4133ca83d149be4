/** Pruning followed by a removal or a replacement leaves a one-sided link, and a search then
    answers with an id that is no longer in the index, or for a vector that was replaced,
    whatever the index's parameters. */
module HnswDangling {
  import opened Collections
  import opened HnswGraph
  import opened HnswLayer
  import opened HnswState
  import opened HnswExact
  import opened HnswIndex
  import Cosine

  /** One node more than a list holds, all on layer 0 only and all linked. */
  ghost predicate Saturated(cfg: Config, s: State, S: set<Node>, a: Node) {
    && Valid(cfg, s) && s.Live() == S == s.adj.Keys && s.entry == a
    && (forall x :: x in S ==> x.level == 0)
    && Clique(LayerOf(s.adj, 0), S)
    && |S| == cfg.MaxConn(0) + 1 && cfg.efConstr >= |S|
  }

  /** The node a lies apart: it is the farthest of all from d and from c. */
  ghost predicate Outlier(dist: Metric, S: set<Node>, a: Node, c: Node, d: Node) {
    && a in S && c in S && a != c && d !in S
    && (forall x :: x in S && x != a ==> dist(x.vec, d.vec) < dist(a.vec, d.vec))
    && (forall y :: y in S + {d} && y != a && y != c ==> dist(c.vec, y.vec) < dist(c.vec, a.vec))
    && (forall x :: x in S + {d} && x != c ==> dist(c.vec, c.vec) < dist(x.vec, c.vec))
  }

  /** With no layer above 0 every search starts at the entry. */
  lemma StartsAtEntry(s: State, ep: Node)
    requires s.entry != null && s.entry in s.adj && Entered(s, 0, ep)
    requires forall x :: x in s.adj ==> |s.adj[x]| == 1
    ensures ep == s.entry
  {
    assert ClosedAbove(s, 0, {s.entry});
  }

  lemma SaturatedFacts(cfg: Config, s: State, S: set<Node>, a: Node)
    requires Saturated(cfg, s, S, a)
    ensures Valid(cfg, s) && s.entry == a && a in S && s.adj.Keys == S && s.Live() == S && DistinctIds(S)
    ensures LayerOf(s.adj, 0).Keys == S
    ensures forall x :: x in s.adj ==> |s.adj[x]| == 1
    ensures Clique(LayerOf(s.adj, 0), S) && |S| == cfg.MaxConn(0) + 1 <= cfg.efConstr
  {
    assert ValidEntry(s);
    ValidShape(cfg, s);
    hide Valid, Clique;
  }

  /** The search for the next node finds all nodes there are. */
  lemma FindsAll(cfg: Config, s: State, s': State, S: set<Node>, a: Node, d: Node, search: map<nat, LayerSearch>)
    requires Saturated(cfg, s, S, a) && Inserted(cfg, s, s', d, search)
    ensures Linked(LayerOf(s.adj, 0), LayerOf(s'.adj, 0), cfg.dist, d, CandsAt(search, 0), cfg.MaxConn(0))
    ensures Elems(Nodes(CandsAt(search, 0))) == S
    ensures 0 in search && Beam(LayerOf(s.adj, 0), cfg.dist, a, d.vec, cfg.efConstr, search[0].visited, CandsAt(search, 0))
  {
    hide Saturated, Valid, Inserted, Linked, Beam, Entered, Clique, DistinctIds, LayerOf;
    SaturatedFacts(cfg, s, S, a);
    InsertedLayer(cfg, s, s', d, search, 0);
    StartsAtEntry(s, search[0].ep);
    CliqueVisited(LayerOf(s.adj, 0), S, cfg.dist, a, d.vec, cfg.efConstr, search[0].visited, search[0].cands);
    BeamKeepsAll(LayerOf(s.adj, 0), cfg.dist, a, d.vec, cfg.efConstr, search[0].visited, search[0].cands);
  }

  /** d links to everyone but a ... */
  lemma SelectsAllButOutlier(L: Layer, dist: Metric, S: set<Node>, a: Node, c: Node, d: Node, ef: int, V: set<Node>,
                             cands: seq<ScoredNode>, max: nat)
    requires Outlier(dist, S, a, c, d) && |S| == max + 1
    requires Beam(L, dist, a, d.vec, ef, V, cands) && Elems(Nodes(cands)) == S
    ensures Elems(Select(cands, max)) == S - {a}
  {
    hide Beam;
    var ns := Nodes(cands);
    BeamAscends(L, dist, a, d.vec, ef, V, cands);
    NoDupSize(ns);
    assert ns == ns[..max] + [a];
    ElemsOfPrefix(ns, max, a);
  }

  lemma ElemsOfPrefix(ns: seq<Node>, k: nat, a: Node)
    requires k < |ns| && NoDup(ns) && ns == ns[..k] + [a]
    ensures Elems(ns[..k]) == Elems(ns) - {a}
  {
    assert ns[k] == a;
    assert forall x :: x in ns <==> x in ns[..k] || x == a;
  }

  lemma Missing(list: seq<Node>, kept: seq<Node>) returns (z: Node)
    requires NoDup(list) && NoDup(kept) && |kept| < |list|
    ensures z in list && z !in kept
  {
    NoDupSize(list);
    NoDupSize(kept);
    if Elems(list) <= Elems(kept) {
      SubsetSize(Elems(list), Elems(kept));
    }
    z :| z in Elems(list) && z !in Elems(kept);
  }

  /** ... and c, over-full with d, drops a. */
  lemma DropsOutlier(L: Layer, dist: Metric, S: set<Node>, a: Node, c: Node, d: Node, kept: seq<Node>, max: nat)
    requires Outlier(dist, S, a, c, d) && |S| == max + 1 && Clique(L, S)
    requires Pruned(dist, c, L[c] + [d], kept, max)
    ensures a !in kept
  {
    var list := L[c] + [d];
    CliqueDegree(L, S, c);
    var z := Missing(list, kept);
    assert z in S + {d} && z != c;
  }

  /** On layer 0, the only one, a lists c but c does not list a. */
  ghost predicate Lopsided(cfg: Config, s: State, a: Node, c: Node) {
    && Valid(cfg, s) && s.adj.Keys == s.Live() && DistinctIds(s.adj.Keys)
    && s.entry == a && a in s.adj && c in s.adj && a != c
    && (forall x :: x in s.adj ==> |s.adj[x]| == 1)
    && c in LayerOf(s.adj, 0)[a] && a !in LayerOf(s.adj, 0)[c]
  }

  /** a's list is full, and everyone on it is nearer to w than a. */
  ghost predicate Crowded(L: Layer, dist: Metric, a: Node, max: nat, w: Vec) {
    a in L && |L[a]| == max && forall x :: x in L[a] ==> dist(x.vec, w) < dist(a.vec, w)
  }

  ghost predicate Apart(cfg: Config, s: State, a: Node, w: Vec) {
    Crowded(LayerOf(s.adj, 0), cfg.dist, a, cfg.MaxConn(0), w)
  }

  lemma OutlierCrowded(L: Layer, dist: Metric, S: set<Node>, a: Node, c: Node, d: Node, max: nat)
    requires Outlier(dist, S, a, c, d) && |S| == max + 1 && Clique(L, S)
    ensures Crowded(L, dist, a, max, d.vec)
  {
    CliqueDegree(L, S, a);
  }

  lemma StaysCrowded(L: Layer, L': Layer, dist: Metric, a: Node, max: nat, w: Vec)
    requires Crowded(L, dist, a, max, w) && a in L' && L'[a] == L[a]
    ensures Crowded(L', dist, a, max, w)
  {
  }

  lemma LinkDropsOutlier(L: Layer, L': Layer, dist: Metric, S: set<Node>, a: Node, c: Node, d: Node, cands: seq<ScoredNode>,
                         max: nat)
    requires Outlier(dist, S, a, c, d) && |S| == max + 1 && Clique(L, S) && L.Keys == S
    requires Linked(L, L', dist, d, cands, max) && Elems(Select(cands, max)) == S - {a}
    ensures a in L' && c in L' && L'[a] == L[a] && c in L[a] && a !in L'[c]
  {
    hide Select;
    assert c in Elems(Select(cands, max)) && a !in Elems(Select(cands, max));
    DropsOutlier(L, dist, S, a, c, d, L'[c], max);
  }

  lemma OutlierDropped(cfg: Config, s: State, s': State, S: set<Node>, a: Node, c: Node, d: Node,
                       search: map<nat, LayerSearch>)
    requires Saturated(cfg, s, S, a) && Outlier(cfg.dist, S, a, c, d) && Inserted(cfg, s, s', d, search)
    ensures a in LayerOf(s'.adj, 0) && c in LayerOf(s'.adj, 0)
    ensures c in LayerOf(s'.adj, 0)[a] && a !in LayerOf(s'.adj, 0)[c]
    ensures Apart(cfg, s', a, d.vec)
  {
    hide Valid, Inserted, Beam, Saturated, Select, Linked, Outlier, Clique, Crowded, LayerOf, CandsAt, DistinctIds;
    SaturatedFacts(cfg, s, S, a);
    FindsAll(cfg, s, s', S, a, d, search);
    var L, L', cands := LayerOf(s.adj, 0), LayerOf(s'.adj, 0), CandsAt(search, 0);
    SelectsAllButOutlier(L, cfg.dist, S, a, c, d, cfg.efConstr, search[0].visited, cands, cfg.MaxConn(0));
    LinkDropsOutlier(L, L', cfg.dist, S, a, c, d, cands, cfg.MaxConn(0));
    OutlierCrowded(L, cfg.dist, S, a, c, d, cfg.MaxConn(0));
    StaysCrowded(L, L', cfg.dist, a, cfg.MaxConn(0), d.vec);
  }

  /** One insertion into a saturated index makes a link one-sided by pruning. */
  lemma NextNodePrunes(cfg: Config, s: State, s': State, S: set<Node>, a: Node, c: Node, d: Node,
                       search: map<nat, LayerSearch>)
    requires Saturated(cfg, s, S, a) && Outlier(cfg.dist, S, a, c, d) && Inserted(cfg, s, s', d, search) && d.level == 0
    ensures Lopsided(cfg, s', a, c) && Apart(cfg, s', a, d.vec) && s'.adj.Keys == S + {d}
  {
    assert c in S && a != c;
    OutlierDropped(cfg, s, s', S, a, c, d, search);
    SaturatedFacts(cfg, s, S, a);
    hide Saturated, Valid, Inserted, Outlier, Clique, LayerOf, Apart;
    InsertKeepsValid(cfg, s, s', d, search);
    InsertedShape(cfg, s, s', d, search);
    LiveGrows(s, s', d);
    ValidShape(cfg, s');
  }

  // ---------- removing c and searching for it ----------

  lemma RemovedKeepsShape(s: State, s': State, n: Node)
    requires Removed(s, s', n)
    ensures s'.adj.Keys == s.adj.Keys && forall x :: x in s.adj ==> |s'.adj[x]| == |s.adj[x]|
    ensures s'.nodes == s.nodes - {n.id} && (s.entry != n ==> s'.entry == s.entry)
  {
  }

  /** The entry a still lists c, and ids tell a and those it lists apart. */
  ghost predicate Shadowing(cfg: Config, s: State, a: Node, c: Node) {
    && Valid(cfg, s) && s.entry == a && a in s.adj && c in s.adj
    && (forall x :: x in s.adj ==> |s.adj[x]| == 1)
    && ListsApart(LayerOf(s.adj, 0), a, c)
  }

  ghost predicate ListsApart(L: Layer, a: Node, c: Node) {
    a in L && c in L[a] && DistinctIds({a} + Elems(L[a]))
  }

  /** Removing c, which a lists without being listed back, leaves a's list as it is. */
  lemma RemovalShadows(cfg: Config, s: State, s': State, a: Node, c: Node, w: Vec)
    requires Lopsided(cfg, s, a, c) && Apart(cfg, s, a, w) && Removed(s, s', c)
    ensures Shadowing(cfg, s', a, c) && Apart(cfg, s', a, w) && s'.adj.Keys == s.adj.Keys && c.id !in s'.nodes
  {
    hide Removed, Valid, LayerOf, DistinctIds;
    RemovedList(cfg, s, s', a, c);
    RemoveKeepsValid(cfg, s, s', c);
    RemovedKeepsShape(s, s', c);
    SubsetDistinct({a} + Elems(LayerOf(s'.adj, 0)[a]), s.adj.Keys);
  }

  lemma RemovedList(cfg: Config, s: State, s': State, a: Node, c: Node)
    requires Lopsided(cfg, s, a, c) && Removed(s, s', c)
    ensures var L, L' := LayerOf(s.adj, 0), LayerOf(s'.adj, 0);
      a in L && a in L' && L'[a] == L[a] && forall x :: x in L[a] ==> x in s.adj
  {
    RemovedLayer(s, s', c, 0);
    assert WellFormed(LayerOf(s.adj, 0), 0, cfg.MaxConn(0));
  }

  lemma SubsetDistinct(A: set<Node>, B: set<Node>)
    requires A <= B && DistinctIds(B)
    ensures DistinctIds(A)
  {
  }

  /** Every search visits c. */
  lemma ShadowIsVisited(cfg: Config, s: State, a: Node, c: Node, q: Vec, k: nat, hits: seq<Hit>, ls: LayerSearch)
    requires Shadowing(cfg, s, a, c) && Answered(cfg, s, q, k, hits, ls)
    ensures ls.ep == a && c in ls.visited
  {
    hide Valid, Entered;
    StartsAtEntry(s, ls.ep);
  }

  /** So no search finds another node with c's id. */
  lemma ShadowHides(cfg: Config, s: State, a: Node, c: Node, n: Node, q: Vec, k: nat, hits: seq<Hit>, ls: LayerSearch)
    requires Shadowing(cfg, s, a, c) && n != c && n.id == c.id && Answered(cfg, s, q, k, hits, ls)
    ensures n !in Nodes(ls.cands)
  {
    ShadowIsVisited(cfg, s, a, c, q, k, hits, ls);
    hide Shadowing, Entered;
    forall i | 0 <= i < |ls.cands| ensures Nodes(ls.cands)[i] != n {
      assert ls.cands[i] in ls.cands;
    }
  }

  /** No other node is as near to c's vector as c. */
  ghost predicate Nearest(cfg: Config, s: State, c: Node) {
    forall x :: x in s.adj && x != c ==> cfg.dist(c.vec, c.vec) < cfg.dist(x.vec, c.vec)
  }

  lemma FirstIsNearest(L: Layer, dist: Metric, ep: Node, c: Node, ef: nat, V: set<Node>, cands: seq<ScoredNode>)
    requires Beam(L, dist, ep, c.vec, ef, V, cands) && c in V
    requires forall x :: x in V && x != c ==> dist(c.vec, c.vec) < dist(x.vec, c.vec)
    ensures |cands| > 0 && cands[0] == ScoredNode(c, dist(c.vec, c.vec))
  {
    assert cands[0] in cands && cands[0].dist == dist(cands[0].node.vec, c.vec);
    if c in Nodes(cands) {
      var i :| 0 <= i < |cands| && Nodes(cands)[i] == c;
      assert cands[i] in cands;
    }
  }

  /** Every search for c's vector answers c first, in the index or not. */
  lemma ShadowIsAnswered(cfg: Config, s: State, a: Node, c: Node, hits: seq<Hit>, ls: LayerSearch)
    requires Shadowing(cfg, s, a, c) && Nearest(cfg, s, c) && Answered(cfg, s, c.vec, 1, hits, ls)
    ensures hits == [Hit(c.id, 1.0 - cfg.dist(c.vec, c.vec))]
  {
    hide Valid, Entered, Shadowing, Beam, LayerOf;
    ShadowingFacts(cfg, s, a, c);
    ShadowIsVisited(cfg, s, a, c, c.vec, 1, hits, ls);
    VisitsIndexed(cfg, s, c.vec, 1, hits, ls);
    FirstIsNearest(LayerOf(s.adj, 0), cfg.dist, a, c, Max(cfg.efSearch, 1), ls.visited, ls.cands);
  }

  lemma VisitsIndexed(cfg: Config, s: State, q: Vec, k: nat, hits: seq<Hit>, ls: LayerSearch)
    requires Valid(cfg, s) && s.entry != null && Answered(cfg, s, q, k, hits, ls)
    ensures ls.visited <= s.adj.Keys
  {
    assert WellFormed(LayerOf(s.adj, 0), 0, cfg.MaxConn(0));
    hide Valid, Entered;
    forall x | x in ls.visited ensures x in s.adj {
      ReachesWithin(LayerOf(s.adj, 0), ls.ep, x, s.adj.Keys);
    }
  }

  /** Once c, listed by a but not listing it, is removed, every search for c's vector answers c. */
  lemma RemovedIdIsReturned(cfg: Config, s: State, s': State, a: Node, c: Node, w: Vec, hits: seq<Hit>, ls: LayerSearch)
    requires Lopsided(cfg, s, a, c) && Apart(cfg, s, a, w) && Nearest(cfg, s, c) && Removed(s, s', c)
    requires s'.entry != null && Answered(cfg, s', c.vec, 1, hits, ls)
    ensures hits == [Hit(c.id, 1.0 - cfg.dist(c.vec, c.vec))] && c.id !in s'.nodes
  {
    hide Lopsided, Apart, Removed, Answered, Shadowing;
    RemovalShadows(cfg, s, s', a, c, w);
    ShadowIsAnswered(cfg, s', a, c, hits, ls);
  }

  // ---------- replacing c ----------

  /** Whatever was visited and is nearer than a candidate comes before it. */
  lemma NearerComesFirst(L: Layer, dist: Metric, ep: Node, q: Vec, ef: int, V: set<Node>, cands: seq<ScoredNode>, i: nat, x: Node)
    requires Beam(L, dist, ep, q, ef, V, cands) && i < |cands| && x in V
    requires dist(x.vec, q) < dist(cands[i].node.vec, q)
    ensures x in Nodes(cands)[..i]
  {
    hide SeesLinks, Expanded, Reaches;
    assert cands[i] in cands;
    assert x in Nodes(cands);
    var j :| 0 <= j < |cands| && Nodes(cands)[j] == x;
    assert cands[j] in cands && j < i;
    assert Nodes(cands)[..i][j] == x;
  }

  /** The start of a search, farther off than its full list, is not selected. */
  lemma StartNotSelected(L: Layer, dist: Metric, a: Node, q: Vec, ef: int, V: set<Node>, cands: seq<ScoredNode>, max: nat)
    requires Beam(L, dist, a, q, ef, V, cands) && a in L && NoDup(L[a]) && DistinctIds({a} + Elems(L[a]))
    requires Crowded(L, dist, a, max, q)
    ensures a !in Select(cands, max)
  {
    assert SeesLinks(L, a, V);
    assert NoDup(Nodes(cands));
    hide Beam, DistinctIds;
    forall i | 0 <= i < |cands| && cands[i].node == a ensures i >= max {
      forall x | x in L[a] ensures x in Nodes(cands)[..i] {
        NearerComesFirst(L, dist, a, q, ef, V, cands, i, x);
      }
      AtLeastAsMany(L[a], Nodes(cands)[..i]);
    }
  }

  lemma AtLeastAsMany(a: seq<Node>, b: seq<Node>)
    requires NoDup(a) && NoDup(b) && forall x :: x in a ==> x in b
    ensures |a| <= |b|
  {
    NoDupSize(a);
    NoDupSize(b);
    SubsetSize(Elems(a), Elems(b));
  }

  lemma LinkKeepsLists(L: Layer, L': Layer, dist: Metric, a: Node, c: Node, n: Node, ef: int, V: set<Node>,
                       cands: seq<ScoredNode>, max: nat)
    requires Beam(L, dist, a, n.vec, ef, V, cands) && Linked(L, L', dist, n, cands, max)
    requires ListsApart(L, a, c) && Crowded(L, dist, a, max, n.vec) && NoDup(L[a])
    ensures ListsApart(L', a, c)
  {
    StartNotSelected(L, dist, a, n.vec, ef, V, cands, max);
    hide Beam, Select;
    assert L'[a] == L[a];
  }

  lemma ShadowingFacts(cfg: Config, s: State, a: Node, c: Node)
    requires Shadowing(cfg, s, a, c)
    ensures Valid(cfg, s) && s.entry == a && a in s.adj && c in s.adj && a.level == 0
    ensures forall x :: x in s.adj ==> |s.adj[x]| == 1
    ensures ListsApart(LayerOf(s.adj, 0), a, c) && NoDup(LayerOf(s.adj, 0)[a])
  {
    assert WellFormed(LayerOf(s.adj, 0), 0, cfg.MaxConn(0));
    ValidShape(cfg, s);
  }

  /** A node added far from a leaves a's list, and with it the link to c, as it is. */
  lemma InsertionKeepsShadow(cfg: Config, s: State, s': State, a: Node, c: Node, n: Node, search: map<nat, LayerSearch>)
    requires Shadowing(cfg, s, a, c) && Apart(cfg, s, a, n.vec)
    requires Inserted(cfg, s, s', n, search) && n.level == 0
    ensures Shadowing(cfg, s', a, c)
  {
    hide Inserted, Entered, Beam, Linked, ListsApart, Crowded, Valid, LayerOf, NoDup;
    ShadowingFacts(cfg, s, a, c);
    InsertedLayer(cfg, s, s', n, search, 0);
    StartsAtEntry(s, search[0].ep);
    LinkKeepsLists(LayerOf(s.adj, 0), LayerOf(s'.adj, 0), cfg.dist, a, c, n, cfg.efConstr, search[0].visited,
                   search[0].cands, cfg.MaxConn(0));
    InsertKeepsValid(cfg, s, s', n, search);
    InsertedShape(cfg, s, s', n, search);
  }

  // ---------- calls that get there ----------

  const A := [1.0, 0.0]
  const C := [-0.6, 0.8]
  const W := [0.0, 1.0]

  /** Vectors A and C once each, W everywhere else. */
  ghost predicate Prepared(s: State, a: Node, c: Node) {
    && s.adj.Keys == s.Live() && s.entry == a
    && a in s.Live() && c in s.Live() && a != c && a.vec == A && c.vec == C && c.id == "c"
    && (forall x :: x in s.Live() ==> x.level == 0 && (x == a || x == c || x.vec == W))
  }

  lemma PreparedStart(cfg: Config, s1: State, s2: State, a: Node, c: Node, sa: map<nat, LayerSearch>, sc: map<nat, LayerSearch>)
    requires Inserted(cfg, EMPTY, s1, a, sa) && Inserted(cfg, s1, s2, c, sc)
    requires a.vec == A && c.vec == C && c.id == "c" && a.level == c.level == 0
    ensures Prepared(s2, a, c)
  {
    hide Inserted;
    InsertedShape(cfg, EMPTY, s1, a, sa);
    InsertedShape(cfg, s1, s2, c, sc);
    LiveGrows(EMPTY, s1, a);
    LiveGrows(s1, s2, c);
  }

  lemma PreparedStep(cfg: Config, s: State, s': State, a: Node, c: Node, n: Node, search: map<nat, LayerSearch>)
    requires Prepared(s, a, c) && Inserted(cfg, s, s', n, search) && n.level == 0 && n.vec == W
    ensures Prepared(s', a, c)
  {
    hide Inserted;
    InsertedShape(cfg, s, s', n, search);
    LiveGrows(s, s', n);
  }

  lemma PreparedSaturates(cfg: Config, trace: seq<State>, ops: seq<Op>, s: State, a: Node, c: Node)
    requires AddHistory(cfg, trace, ops, s) && Prepared(s, a, c)
    requires |ops| == cfg.MaxConn(0) + 1 && cfg.efConstr >= |ops|
    ensures Saturated(cfg, s, s.Live(), a)
  {
    RunValid(cfg, trace, ops);
    LiveCountOnAddRuns(cfg, trace, ops);
    SmallAddRunsComplete(cfg, trace, ops);
    hide Valid;
    assert LiveAt(s, 0) == s.Live();
  }

  lemma Dot2(x: Vec, y: Vec)
    requires |x| == |y| == 2
    ensures Cosine.Dot(x, y) == x[0] * y[0] + x[1] * y[1]
  {
    assert x[..1][..0] == [] && y[..1][..0] == [];
    assert Cosine.Dot(x[..1], y[..1]) == x[0] * y[0];
  }

  lemma UnitDistance(root: real -> real, x: Vec, y: Vec)
    requires Cosine.SquareRoot(root) && |x| == |y| == 2
    requires x[0] * x[0] + x[1] * x[1] == 1.0 && y[0] * y[0] + y[1] * y[1] == 1.0
    ensures Cosine.Metric(root)(x, y) == 1.0 - (x[0] * y[0] + x[1] * y[1])
  {
    Dot2(x, x);
    Dot2(y, y);
    Dot2(x, y);
    Cosine.RootIs(root, 1.0, 1.0);
  }

  lemma PreparedHasOutlier(root: real -> real, s: State, a: Node, c: Node, d: Node)
    requires Cosine.SquareRoot(root)
    requires Prepared(s, a, c) && d !in s.adj && d.vec == W
    ensures Outlier(Cosine.Metric(root), s.Live(), a, c, d)
  {
    UnitDistance(root, W, W);
    UnitDistance(root, C, W);
    UnitDistance(root, A, W);
    UnitDistance(root, C, A);
    UnitDistance(root, A, C);
    UnitDistance(root, W, C);
    UnitDistance(root, C, C);
  }

  function OtherId(i: nat): (id: Id)
    ensures |id| == i + 2
  {
    seq(i + 2, _ => 'x')
  }

  method AddFresh(idx: HNSW, id: Id, vec: Vec) returns (n: Node, ghost search: map<nat, LayerSearch>)
    requires idx.Valid() && id !in idx.nodes && |vec| == 2 && (idx.dims == 0 || idx.dims == 2)
    modifies idx, idx.universe
    ensures idx.Valid() && fresh(idx.universe - old(idx.universe)) && idx.dims == 2
    ensures idx.nodes == old(idx.nodes)[id := n] && n.id == id && n.vec == vec && n.level == 0
    ensures Inserted(idx.cfg, old(idx.Abs()), idx.Abs(), n, search) && n !in old(idx.universe)
  {
    hide HnswState.Valid, Inserted;
    ghost var s := idx.Abs();
    var r;
    ghost var mid;
    r, mid, search := idx.Add(id, vec, 0);
    n := r.value;
    InsertedShape(idx.cfg, s, idx.Abs(), n, search);
  }

  /** Adds one node more than a layer-0 list can hold. */
  method Fill(root: real -> real, m: nat, efConstr: nat, efSearch: nat) returns (idx: HNSW, a: Node, c: Node)
    requires Cosine.SquareRoot(root) && m >= 1 && efConstr >= 2 * m + 1 && efSearch >= 1
    ensures fresh(idx) && fresh(idx.universe) && idx.Valid() && idx.dims == 2
    ensures idx.cfg == Config(m, efConstr, efSearch, Cosine.Metric(root))
    ensures Prepared(idx.Abs(), a, c) && Saturated(idx.cfg, idx.Abs(), idx.Abs().Live(), a)
    ensures forall id :: id in idx.nodes ==> |id| <= 2 * m
  {
    hide HnswState.Valid, Inserted, Prepared, Saturated, AddHistory;
    idx := new HNSW(m, efConstr, efSearch, Cosine.Metric(root));
    ghost var trace, ops, sa, sc, search := [EMPTY], [], map[], map[], map[];
    NoHistory(idx.cfg);
    ghost var s := idx.Abs();
    a, sa := AddFresh(idx, "a", A);
    ghost var s1 := idx.Abs();
    trace, ops := Recorded(idx.cfg, trace, ops, s, s1, a, sa);
    c, sc := AddFresh(idx, "c", C);
    trace, ops := Recorded(idx.cfg, trace, ops, s1, idx.Abs(), c, sc);
    PreparedStart(idx.cfg, s1, idx.Abs(), a, c, sa, sc);
    for i := 0 to 2 * m - 1
      invariant idx.cfg == Config(m, efConstr, efSearch, Cosine.Metric(root))
      invariant fresh(idx) && fresh(idx.universe) && idx.Valid() && idx.dims == 2
      invariant AddHistory(idx.cfg, trace, ops, idx.Abs()) && |ops| == i + 2
      invariant Prepared(idx.Abs(), a, c)
      invariant forall id :: id in idx.nodes ==> |id| < i + 2
    {
      s := idx.Abs();
      var n;
      n, search := AddFresh(idx, OtherId(i), W);
      trace, ops := Recorded(idx.cfg, trace, ops, s, idx.Abs(), n, search);
      PreparedStep(idx.cfg, s, idx.Abs(), a, c, n, search);
    }
    PreparedSaturates(idx.cfg, trace, ops, idx.Abs(), a, c);
  }

  lemma NoHistory(cfg: Config)
    ensures AddHistory(cfg, [EMPTY], [], EMPTY)
  {
  }

  lemma OverFills(root: real -> real, cfg: Config, s: State, s': State, a: Node, c: Node, d: Node, search: map<nat, LayerSearch>)
    requires Cosine.SquareRoot(root) && cfg.dist == Cosine.Metric(root)
    requires Prepared(s, a, c) && Saturated(cfg, s, s.Live(), a)
    requires Inserted(cfg, s, s', d, search) && d.vec == W && d.level == 0
    ensures Lopsided(cfg, s', a, c) && Apart(cfg, s', a, W) && Nearest(cfg, s', c) && c.vec == C && c.id == "c"
  {
    hide Inserted, Saturated, Lopsided, Apart;
    InsertedShape(cfg, s, s', d, search);
    PreparedHasOutlier(root, s, a, c, d);
    hide Prepared;
    NextNodePrunes(cfg, s, s', s.Live(), a, c, d, search);
  }

  /** One node more than that: c no longer lists a. */
  method FillOver(root: real -> real, m: nat, efConstr: nat, efSearch: nat) returns (idx: HNSW, ghost a: Node, c: Node)
    requires Cosine.SquareRoot(root)
    requires m >= 1 && efConstr >= 2 * m + 1 && efSearch >= 1
    ensures fresh(idx) && fresh(idx.universe) && idx.Valid() && idx.dims == 2
    ensures idx.cfg == Config(m, efConstr, efSearch, Cosine.Metric(root))
    ensures Lopsided(idx.cfg, idx.Abs(), a, c) && Apart(idx.cfg, idx.Abs(), a, W)
    ensures Nearest(idx.cfg, idx.Abs(), c) && c.id == "c" && c.vec == C
  {
    hide HnswState.Valid, Inserted, Saturated, Lopsided, Apart, Nearest, Prepared;
    idx, a, c := Fill(root, m, efConstr, efSearch);
    ghost var s := idx.Abs();
    var d;
    ghost var search;
    d, search := AddFresh(idx, OtherId(2 * m - 1), W);
    OverFills(root, idx.cfg, s, idx.Abs(), a, c, d, search);
  }

  /** Then removing c and searching for its vector answers the removed id. The default
      parameters 16, 200, 50 are among those covered. */
  method SearchAnswersRemovedId(root: real -> real, m: nat, efConstr: nat, efSearch: nat) returns (idx: HNSW, hits: seq<Hit>)
    requires Cosine.SquareRoot(root)
    requires m >= 1 && efConstr >= 2 * m + 1 && efSearch >= 1
    ensures fresh(idx) && fresh(idx.universe) && idx.Valid() && "c" !in idx.nodes
    ensures idx.cfg == Config(m, efConstr, efSearch, Cosine.Metric(root))
    ensures hits == [Hit("c", 1.0)]
  {
    hide HnswState.Valid, Removed, Lopsided, Apart, Nearest, Answered;
    ghost var a;
    var c;
    idx, a, c := FillOver(root, m, efConstr, efSearch);
    ghost var s := idx.Abs();
    StillPopulated(idx.cfg, s, a, c);
    idx.Remove("c");
    ghost var s' := idx.Abs();
    var r := idx.Search(C, 1);
    hits := r.value;
    ghost var ls :| Answered(idx.cfg, s', C, 1, hits, ls);
    RemovedIdIsReturned(idx.cfg, s, s', a, c, W, hits, ls);
    UnitDistance(root, C, C);
  }

  /** Replacing c by the vector W instead: the removed node keeps its place in a's list. */
  method FillAndReplace(root: real -> real, m: nat, efConstr: nat, efSearch: nat)
    returns (idx: HNSW, ghost a: Node, ghost c: Node, n: Node)
    requires Cosine.SquareRoot(root)
    requires m >= 1 && efConstr >= 2 * m + 1 && efSearch >= 1
    ensures fresh(idx) && fresh(idx.universe) && idx.Valid() && idx.dims == 2
    ensures idx.cfg == Config(m, efConstr, efSearch, Cosine.Metric(root))
    ensures Shadowing(idx.cfg, idx.Abs(), a, c) && Nearest(idx.cfg, idx.Abs(), c) && c.id == "c" && c.vec == C
    ensures "c" in idx.nodes && idx.nodes["c"] == n && n.id == "c" && n.vec == W && n != c
  {
    hide HnswState.Valid, Inserted, Removed, Lopsided, Apart, Nearest, Shadowing;
    idx, a, c := FillOver(root, m, efConstr, efSearch);
    ghost var s := idx.Abs();
    StillPopulated(idx.cfg, s, a, c);
    var r;
    ghost var mid, search;
    r, mid, search := idx.Add("c", W, 0);
    n := r.value;
    ReplacementShadows(root, idx.cfg, s, mid, idx.Abs(), a, c, n, search);
  }

  /** Then searching for the old vector answers "c" at the old vector's score, and no search
      ever finds the new one. */
  method SearchAnswersReplacedVector(root: real -> real, m: nat, efConstr: nat, efSearch: nat) returns (idx: HNSW, hits: seq<Hit>)
    requires Cosine.SquareRoot(root)
    requires m >= 1 && efConstr >= 2 * m + 1 && efSearch >= 1
    ensures fresh(idx) && fresh(idx.universe) && idx.Valid()
    ensures idx.cfg == Config(m, efConstr, efSearch, Cosine.Metric(root))
    ensures "c" in idx.nodes && idx.nodes["c"].vec == W && idx.entry != null
    ensures hits == [Hit("c", 1.0)] && 1.0 - idx.cfg.dist(W, C) == 0.8
    ensures forall q, k: nat, hs, ls :: Answered(idx.cfg, idx.Abs(), q, k, hs, ls) ==> idx.nodes["c"] !in Nodes(ls.cands)
  {
    hide HnswState.Valid, Nearest, Shadowing, Answered;
    ghost var a, c;
    var n;
    idx, a, c, n := FillAndReplace(root, m, efConstr, efSearch);
    var answer := idx.Search(C, 1);
    hits := answer.value;
    ghost var ls :| Answered(idx.cfg, idx.Abs(), C, 1, hits, ls);
    ShadowIsAnswered(idx.cfg, idx.Abs(), a, c, hits, ls);
    UnitDistance(root, C, C);
    UnitDistance(root, W, C);
    forall q, k: nat, hs, ls | Answered(idx.cfg, idx.Abs(), q, k, hs, ls) ensures n !in Nodes(ls.cands) {
      ShadowHides(idx.cfg, idx.Abs(), a, c, n, q, k, hs, ls);
    }
  }

  lemma ReplacementShadows(root: real -> real, cfg: Config, s: State, mid: State, s': State, a: Node, c: Node, n: Node,
                           search: map<nat, LayerSearch>)
    requires Cosine.SquareRoot(root) && cfg.dist == Cosine.Metric(root)
    requires Lopsided(cfg, s, a, c) && Apart(cfg, s, a, W) && Nearest(cfg, s, c) && c.vec == C
    requires Removed(s, mid, c) && Inserted(cfg, mid, s', n, search) && n.vec == W && n.level == 0
    ensures Shadowing(cfg, s', a, c) && Nearest(cfg, s', c) && n != c
  {
    hide Lopsided, Apart, Removed, Inserted, Shadowing, Nearest;
    RemovalShadows(cfg, s, mid, a, c, W);
    ShadowingFacts(cfg, mid, a, c);
    hide Valid, ListsApart;
    InsertionKeepsShadow(cfg, mid, s', a, c, n, search);
    InsertedShape(cfg, mid, s', n, search);
    NewcomerFarther(root, cfg, s, s', c, n);
  }

  lemma NewcomerFarther(root: real -> real, cfg: Config, s: State, s': State, c: Node, n: Node)
    requires Cosine.SquareRoot(root) && cfg.dist == Cosine.Metric(root)
    requires Nearest(cfg, s, c) && s'.adj.Keys == s.adj.Keys + {n} && c.vec == C && n.vec == W
    ensures Nearest(cfg, s', c)
  {
    UnitDistance(root, C, C);
    UnitDistance(root, W, C);
  }

  lemma StillPopulated(cfg: Config, s: State, a: Node, c: Node)
    requires Lopsided(cfg, s, a, c)
    ensures c.id in s.nodes && s.nodes[c.id] == c && s.nodes - {c.id} != map[]
  {
    ValidShape(cfg, s);
    assert a in s.Live() && c in s.Live();
    assert a.id in s.nodes - {c.id};
  }
}
