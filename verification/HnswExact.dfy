/** Indexes small enough never to prune: every layer is a clique of live nodes, and
    Search returns what sorting all vectors would. */
module HnswExact {
  import opened Collections
  import opened HnswGraph
  import opened HnswLayer
  import opened HnswState
  import Ranking

  // ---------- what Search answers ----------

  datatype Hit = Hit(id: Id, score: real)

  function HitsOf(cands: seq<ScoredNode>): (r: seq<Hit>)
    ensures |r| == |cands|
    ensures forall i :: 0 <= i < |r| ==> r[i] == Hit(cands[i].node.id, 1.0 - cands[i].dist)
  {
    seq(|cands|, i requires 0 <= i < |cands| => Hit(cands[i].node.id, 1.0 - cands[i].dist))
  }

  function Scores(hits: seq<Hit>): (r: seq<real>)
    ensures |r| == |hits|
    ensures forall i :: 0 <= i < |r| ==> r[i] == hits[i].score
  {
    seq(|hits|, i requires 0 <= i < |hits| => hits[i].score)
  }

  function Max(a: nat, b: nat): nat { if a >= b then a else b }

  /** The first k candidates of a beam search over layer 0, at least efSearch wide, from where
      the greedy descent through the upper layers ends. */
  ghost predicate Answered(cfg: Config, s: State, q: Vec, k: nat, hits: seq<Hit>, ls: LayerSearch)
    requires s.entry != null
  {
    && Entered(s, 0, ls.ep) && ls.ep in s.adj
    && Way(s, cfg.dist, q, 0, ls.ep)
    && Beam(LayerOf(s.adj, 0), cfg.dist, ls.ep, q, Max(cfg.efSearch, k), ls.visited, ls.cands)
    && hits == HitsOf(ls.cands)[..Min(k, |ls.cands|)]
  }

  /** The similarity of each node to the query, as the brute-force scan computes it. */
  function NodeScores(dist: Metric, q: Vec, xs: seq<Node>): (r: seq<real>)
    ensures |r| == |xs|
    ensures forall i :: 0 <= i < |r| ==> r[i] == 1.0 - dist(xs[i].vec, q)
  {
    seq(|xs|, i requires 0 <= i < |xs| => 1.0 - dist(xs[i].vec, q))
  }

  function Without(xs: seq<Node>, gone: seq<Node>): (r: seq<Node>)
    ensures (forall x :: x in r ==> x in xs && x !in gone) && (forall x :: x in xs && x !in gone ==> x in r)
    ensures NoDup(xs) ==> NoDup(r)
  {
    if xs == [] then []
    else
      var t := Without(xs[1..], gone);
      assert xs == [xs[0]] + xs[1..];
      assert NoDup(xs) ==> xs[0] !in xs[1..];
      assert NoDup(xs) ==> NoDup(xs[1..]) by {
        if NoDup(xs) { assert forall i :: 0 <= i < |xs[1..]| ==> xs[1..][i] == xs[i + 1]; }
      }
      if xs[0] in gone then t else [xs[0]] + t
  }

  ghost function WithScore(dist: Metric, q: Vec, xs: seq<Node>, r: real): set<Node> {
    set x | x in xs && 1.0 - dist(x.vec, q) == r
  }

  lemma WithScoreStep(dist: Metric, q: Vec, t: seq<Node>, x: Node, r: real)
    requires x !in t
    ensures |WithScore(dist, q, t + [x], r)| == |WithScore(dist, q, t, r)| + if 1.0 - dist(x.vec, q) == r then 1 else 0
  {
    var A := WithScore(dist, q, t, r);
    if 1.0 - dist(x.vec, q) == r {
      assert WithScore(dist, q, t + [x], r) == A + {x};
    } else {
      assert WithScore(dist, q, t + [x], r) == A;
    }
  }

  lemma NodeScoresStep(dist: Metric, q: Vec, t: seq<Node>, x: Node)
    ensures NodeScores(dist, q, t + [x]) == NodeScores(dist, q, t) + [1.0 - dist(x.vec, q)]
  {
  }

  /** Among distinct nodes, a score occurs as often as there are nodes that have it. */
  lemma {:induction false} ScoreCount(dist: Metric, q: Vec, xs: seq<Node>, r: real)
    requires NoDup(xs)
    ensures multiset(NodeScores(dist, q, xs))[r] == |WithScore(dist, q, xs, r)|
  {
    if xs != [] {
      var t, x := xs[..|xs| - 1], xs[|xs| - 1];
      ScoreCount(dist, q, t, r);
      ScoreCountSnoc(dist, q, t, x, r);
      assert xs == t + [x];
    }
  }

  lemma ScoreCountSnoc(dist: Metric, q: Vec, t: seq<Node>, x: Node, r: real)
    requires x !in t && multiset(NodeScores(dist, q, t))[r] == |WithScore(dist, q, t, r)|
    ensures multiset(NodeScores(dist, q, t + [x]))[r] == |WithScore(dist, q, t + [x], r)|
  {
    NodeScoresStep(dist, q, t, x);
    WithScoreStep(dist, q, t, x, r);
  }

  /** Splitting a list of distinct nodes into some of them and the others splits the scores. */
  lemma SplitScores(dist: Metric, q: Vec, xs: seq<Node>, ns: seq<Node>, rest: seq<Node>)
    requires NoDup(xs) && NoDup(ns) && rest == Without(xs, ns)
    requires forall x :: x in ns ==> x in xs
    ensures multiset(NodeScores(dist, q, xs)) == multiset(NodeScores(dist, q, ns)) + multiset(NodeScores(dist, q, rest))
  {
    forall r: real
      ensures multiset(NodeScores(dist, q, xs))[r]
           == multiset(NodeScores(dist, q, ns))[r] + multiset(NodeScores(dist, q, rest))[r]
    {
      ScoreCount(dist, q, xs, r);
      ScoreCount(dist, q, ns, r);
      ScoreCount(dist, q, rest, r);
      WithScoreSplits(dist, q, xs, ns, r);
    }
  }

  lemma WithScoreSplits(dist: Metric, q: Vec, xs: seq<Node>, ns: seq<Node>, r: real)
    requires forall x :: x in ns ==> x in xs
    ensures |WithScore(dist, q, xs, r)| == |WithScore(dist, q, ns, r)| + |WithScore(dist, q, Without(xs, ns), r)|
  {
    var A, B := WithScore(dist, q, ns, r), WithScore(dist, q, Without(xs, ns), r);
    assert WithScore(dist, q, xs, r) == A + B && A !! B;
  }

  /** If a beam search visited exactly the nodes listed in xs, its first k candidates have
      the k best scores of xs. */
  lemma BeamIsTop(L: Layer, dist: Metric, ep: Node, q: Vec, ef: nat, V: set<Node>, out: seq<ScoredNode>,
                  xs: seq<Node>, k: nat)
    requires Beam(L, dist, ep, q, ef, V, out) && k <= ef
    requires NoDup(xs) && Elems(xs) == V
    ensures Scores(HitsOf(out)[..Min(k, |out|)]) == Ranking.Top(NodeScores(dist, q, xs), k)
  {
    TopOfScores(dist, q, ef, out, xs, k);
  }

  lemma TopOfScores(dist: Metric, q: Vec, ef: nat, out: seq<ScoredNode>, xs: seq<Node>, k: nat)
    requires k <= ef && NoDup(xs) && NoDup(Nodes(out))
    requires forall i :: 0 <= i < |out| ==> out[i].node in Elems(xs) && out[i].dist == dist(out[i].node.vec, q)
    requires Ranking.Descending(NodeScores(dist, q, Nodes(out)))
    requires forall y :: y in Elems(xs) && y !in Nodes(out) ==>
               |out| == ef && forall i :: 0 <= i < |out| ==> dist(out[i].node.vec, q) <= dist(y.vec, q)
    ensures Scores(HitsOf(out)[..Min(k, |out|)]) == Ranking.Top(NodeScores(dist, q, xs), k)
  {
    var ns, rest := Nodes(out), Without(xs, Nodes(out));
    var best, worse := NodeScores(dist, q, ns), NodeScores(dist, q, rest);
    assert forall x :: x in Elems(xs) <==> x in xs;
    SplitScores(dist, q, xs, ns, rest);
    assert forall j :: 0 <= j < |rest| ==> rest[j] in rest;
    if rest != [] { assert rest[0] in Elems(xs) && rest[0] !in ns; }
    Ranking.TopFromPrefix(best, worse, NodeScores(dist, q, xs), k);
    HitScores(dist, q, out, Min(k, |out|));
  }

  lemma HitScores(dist: Metric, q: Vec, out: seq<ScoredNode>, c: nat)
    requires c <= |out| && forall i :: 0 <= i < |out| ==> out[i].dist == dist(out[i].node.vec, q)
    ensures Scores(HitsOf(out)[..c]) == NodeScores(dist, q, Nodes(out))[..c]
  {
  }

  // ---------- cliques of live nodes ----------

  ghost function LiveAt(s: State, l: nat): set<Node> {
    set x | x in s.Live() && x.level >= l
  }

  ghost predicate CliqueAt(s: State, l: nat) {
    Clique(LayerOf(s.adj, l), LiveAt(s, l))
  }

  lemma LiveAtInserted(s: State, s': State, n: Node, l: nat)
    requires n.id !in s.nodes && s'.nodes == s.nodes[n.id := n]
    ensures LiveAt(s', l) == if n.level >= l then LiveAt(s, l) + {n} else LiveAt(s, l)
  {
    LiveGrows(s, s', n);
  }

  /** A layer that was not searched held no node of n's level, or n is below it. */
  lemma UnsearchedKeepsClique(cfg: Config, s: State, s': State, n: Node, search: map<nat, LayerSearch>, l: nat)
    requires Valid(cfg, s) && Inserted(cfg, s, s', n, search) && CliqueAt(s, l) && l !in search
    ensures CliqueAt(s', l)
  {
    var L, L', S := LayerOf(s.adj, l), LayerOf(s'.adj, l), LiveAt(s, l);
    LiveAtInserted(s, s', n, l);
    assert Linked(L, L', cfg.dist, n, CandsAt(search, l), cfg.MaxConn(l));
    assert L'[n] == [];
    assert n.level >= l ==> S == {};
  }

  /** An insertion that finds room on layer l keeps the layer a clique of live nodes. */
  lemma InsertKeepsClique(cfg: Config, s: State, s': State, n: Node, search: map<nat, LayerSearch>, l: nat)
    requires Valid(cfg, s) && Inserted(cfg, s, s', n, search) && ListsOnlyLive(s) && CliqueAt(s, l)
    requires |LiveAt(s, l)| <= cfg.MaxConn(l) && |LiveAt(s, l)| <= cfg.efConstr
    ensures CliqueAt(s', l)
  {
    if l !in search {
      UnsearchedKeepsClique(cfg, s, s', n, search, l);
    } else {
      var ls := search[l];
      assert Searched(cfg, s, n, l, ls);
      assert Linked(LayerOf(s.adj, l), LayerOf(s'.adj, l), cfg.dist, n, CandsAt(search, l), cfg.MaxConn(l));
      LiveAtInserted(s, s', n, l);
      EnteredLive(cfg, s, l, ls.ep);
      LinkedKeepsClique(LayerOf(s.adj, l), LayerOf(s'.adj, l), cfg.dist, n, ls.ep, cfg.efConstr, ls.visited,
                        ls.cands, cfg.MaxConn(l), LiveAt(s, l));
    }
  }

  lemma RemoveKeepsClique(cfg: Config, s: State, s': State, n: Node, l: nat)
    requires Valid(cfg, s) && Removed(s, s', n) && CliqueAt(s, l)
    ensures CliqueAt(s', l)
  {
    LiveShrinks(s, s', n);
    RemovedLayer(s, s', n, l);
    assert WellFormed(LayerOf(s.adj, l), l, cfg.MaxConn(l));
    assert LiveAt(s', l) == LiveAt(s, l) - {n};
  }

  lemma CliquesListOnlyLive(cfg: Config, s: State)
    requires Valid(cfg, s) && forall l: nat :: CliqueAt(s, l)
    ensures ListsOnlyLive(s)
  {
    forall l: nat ensures ListsOnly(LayerOf(s.adj, l), s.Live()) {
      assert CliqueAt(s, l) && WellFormed(LayerOf(s.adj, l), l, cfg.MaxConn(l));
    }
  }

  // ---------- runs ----------

  lemma {:induction false} LiveCountOnAddRuns(cfg: Config, trace: seq<State>, ops: seq<Op>)
    requires Run(cfg, trace, ops) && AddOnly(ops)
    ensures |Last(trace).Live()| == |ops|
    decreases |ops|
  {
    if ops != [] {
      var k := |ops| - 1;
      RunPrefix(cfg, trace, ops);
      LiveCountOnAddRuns(cfg, trace[..k + 1], ops[..k]);
      RunValid(cfg, trace[..k + 1], ops[..k]);
      LiveGrows(trace[k], trace[k + 1], ops[k].n);
      assert ops[k].n !in trace[k].Live();
    }
  }

  /** After at most m0 + 1 Adds of fresh ids, at any levels, layer 0 is a complete graph. */
  lemma {:induction false} SmallAddRunsComplete(cfg: Config, trace: seq<State>, ops: seq<Op>)
    requires Run(cfg, trace, ops) && AddOnly(ops)
    requires |ops| <= cfg.MaxConn(0) + 1 && |ops| <= cfg.efConstr + 1
    ensures CliqueAt(Last(trace), 0)
    decreases |ops|
  {
    if ops != [] {
      var k := |ops| - 1;
      RunPrefix(cfg, trace, ops);
      SmallAddRunsComplete(cfg, trace[..k + 1], ops[..k]);
      RunValid(cfg, trace[..k + 1], ops[..k]);
      AddRunsListOnlyLive(cfg, trace[..k + 1], ops[..k]);
      LiveCountOnAddRuns(cfg, trace[..k + 1], ops[..k]);
      assert LiveAt(trace[k], 0) == trace[k].Live();
      InsertKeepsClique(cfg, trace[k], trace[k + 1], ops[k].n, ops[k].search, 0);
    }
  }

  /** Runs of Adds, Removes and replacements that never exceed m + 1 live nodes keep every
      layer a clique of live nodes. */
  lemma {:induction false} SmallRunsComplete(cfg: Config, trace: seq<State>, ops: seq<Op>)
    requires Run(cfg, trace, ops) && cfg.m <= cfg.efConstr
    requires forall i :: 0 <= i < |trace| ==> |trace[i].Live()| <= cfg.m + 1
    ensures ListsOnlyLive(Last(trace)) && forall l: nat :: CliqueAt(Last(trace), l)
    decreases |ops|
  {
    RunValid(cfg, trace, ops);
    if ops != [] {
      var k := |ops| - 1;
      RunPrefix(cfg, trace, ops);
      SmallRunsComplete(cfg, trace[..k + 1], ops[..k]);
      RunValid(cfg, trace[..k + 1], ops[..k]);
      forall l: nat ensures CliqueAt(Last(trace), l) {
        SmallStepComplete(cfg, trace[k], ops[k], trace[k + 1], l);
      }
    } else {
      forall l: nat ensures CliqueAt(Last(trace), l) { }
    }
    CliquesListOnlyLive(cfg, Last(trace));
  }

  lemma SmallStepComplete(cfg: Config, s: State, op: Op, s': State, l: nat)
    requires Valid(cfg, s) && Next(cfg, s, op, s') && ListsOnlyLive(s) && CliqueAt(s, l)
    requires cfg.m <= cfg.efConstr && |s'.Live()| <= cfg.m + 1
    ensures CliqueAt(s', l)
  {
    match op
    case Insert(n, search) =>
      LiveGrows(s, s', n);
      assert n !in s.Live();
      SubsetSize(LiveAt(s, l), s.Live());
      InsertKeepsClique(cfg, s, s', n, search, l);
    case Delete(n) =>
      RemoveKeepsClique(cfg, s, s', n, l);
  }

  // ---------- exactness ----------

  /** On a complete layer 0 of live nodes, Search returns the k best scores of all vectors,
      each under the id of a live node that has it. */
  lemma CompleteSearchExact(cfg: Config, s: State, q: Vec, k: nat, hits: seq<Hit>, ls: LayerSearch, xs: seq<Node>)
    requires Valid(cfg, s) && ListsOnlyLive(s) && CliqueAt(s, 0) && s.entry != null
    requires Answered(cfg, s, q, k, hits, ls)
    requires NoDup(xs) && Elems(xs) == s.Live()
    ensures Scores(hits) == Ranking.Top(NodeScores(cfg.dist, q, xs), k)
    ensures forall h :: h in hits ==> h.id in s.nodes && h.score == 1.0 - cfg.dist(s.nodes[h.id].vec, q)
  {
    var L := LayerOf(s.adj, 0);
    EnteredLive(cfg, s, 0, ls.ep);
    assert LiveAt(s, 0) == s.Live();
    CliqueVisited(L, s.Live(), cfg.dist, ls.ep, q, Max(cfg.efSearch, k), ls.visited, ls.cands);
    BeamIsTop(L, cfg.dist, ls.ep, q, Max(cfg.efSearch, k), ls.visited, ls.cands, xs, k);
    HitsAreLive(cfg, s, q, k, hits, ls);
  }

  /** A search that visits live nodes only answers with live ids at their true scores. */
  lemma HitsAreLive(cfg: Config, s: State, q: Vec, k: nat, hits: seq<Hit>, ls: LayerSearch)
    requires Valid(cfg, s) && s.entry != null && Answered(cfg, s, q, k, hits, ls) && ls.visited <= s.Live()
    ensures forall h :: h in hits ==> h.id in s.nodes && h.score == 1.0 - cfg.dist(s.nodes[h.id].vec, q)
  {
    forall h | h in hits ensures h.id in s.nodes && h.score == 1.0 - cfg.dist(s.nodes[h.id].vec, q) {
      var i :| 0 <= i < |hits| && hits[i] == h;
      assert ls.cands[i] in ls.cands;
      var id :| id in s.nodes && s.nodes[id] == ls.cands[i].node;
    }
  }

  /** No search answers an id twice. */
  lemma HitsDistinct(cfg: Config, s: State, q: Vec, k: nat, hits: seq<Hit>, ls: LayerSearch)
    requires s.entry != null && Answered(cfg, s, q, k, hits, ls)
    ensures forall i, j :: 0 <= i < j < |hits| ==> hits[i].id != hits[j].id
  {
    hide Way, Entered;
    forall i, j | 0 <= i < j < |hits| ensures hits[i].id != hits[j].id {
      assert ls.cands[i] in ls.cands && ls.cands[j] in ls.cands;
      assert Nodes(ls.cands)[i] != Nodes(ls.cands)[j];
    }
  }

  // ---------- when answers are live ----------

  /** Where only live nodes are listed, every hit of every search is a live id with its true
      score, and the neighbours of the candidates are candidates or no nearer. */
  lemma LiveLinksAnswerLive(cfg: Config, s: State, q: Vec, k: nat, hits: seq<Hit>, ls: LayerSearch)
    requires Valid(cfg, s) && s.entry != null && ListsOnlyLive(s) && Answered(cfg, s, q, k, hits, ls)
    ensures forall h :: h in hits ==> h.id in s.nodes && h.score == 1.0 - cfg.dist(s.nodes[h.id].vec, q)
    ensures forall c, nb :: c in ls.cands && c.node in s.adj && nb in LayerOf(s.adj, 0)[c.node] ==>
      nb in Nodes(ls.cands)
      || (|ls.cands| == Max(cfg.efSearch, k) && forall t :: t in ls.cands ==> t.dist <= cfg.dist(nb.vec, q))
  {
    var L := LayerOf(s.adj, 0);
    EnteredLive(cfg, s, 0, ls.ep);
    assert ListsOnly(L, s.Live());
    BeamStaysLive(L, cfg.dist, ls.ep, q, Max(cfg.efSearch, k), ls.visited, ls.cands, s.Live());
    HitsAreLive(cfg, s, q, k, hits, ls);
    ValidShape(cfg, s);
    hide Valid, Beam, Entered;
    forall c, nb | c in ls.cands && c.node in s.adj && nb in L[c.node]
      ensures nb in Nodes(ls.cands)
        || (|ls.cands| == Max(cfg.efSearch, k) && forall t :: t in ls.cands ==> t.dist <= cfg.dist(nb.vec, q))
    {
      BeamClosure(L, cfg.dist, ls.ep, q, Max(cfg.efSearch, k), ls.visited, ls.cands, c, nb, s.Live());
    }
  }

  /** What a search can answer is decided by R, the nodes reachable on layer 0 from its start:
      if they are live, so is every hit. Asking for at least as many as there are, with ids that
      tell them apart, the nodes answered are live exactly if R is, and the ids exactly if the
      ids of R are. */
  lemma AnswersLiveIffReachableLive(cfg: Config, s: State, q: Vec, k: nat, hits: seq<Hit>, ls: LayerSearch, R: set<Node>)
    requires Valid(cfg, s) && s.entry != null && Answered(cfg, s, q, k, hits, ls)
    requires ReachableSet(LayerOf(s.adj, 0), ls.ep, R)
    ensures R <= s.Live() ==>
      forall h :: h in hits ==> h.id in s.nodes && h.score == 1.0 - cfg.dist(s.nodes[h.id].vec, q)
    ensures DistinctIds(R) && |R| <= k ==>
      && |hits| == |R|
      && ((forall c :: c in ls.cands ==> c.node in s.Live()) <==> R <= s.Live())
      && ((forall h :: h in hits ==> h.id in s.nodes) <==> forall x :: x in R ==> x.id in s.nodes)
  {
    var L, ef := LayerOf(s.adj, 0), Max(cfg.efSearch, k);
    if R <= s.Live() {
      forall x | x in ls.visited ensures x in R {
        ReachesWithin(L, ls.ep, x, R);
      }
      HitsAreLive(cfg, s, q, k, hits, ls);
    }
    if DistinctIds(R) && |R| <= k {
      BeamExact(L, cfg.dist, ls.ep, q, ef, ls.visited, ls.cands, R);
      NoDupSize(Nodes(ls.cands));
      hide Valid, Beam, Entered, ReachableSet;
      AllAnswered(hits, ls.cands, R, k, s);
    }
  }

  lemma AllAnswered(hits: seq<Hit>, cands: seq<ScoredNode>, R: set<Node>, k: nat, s: State)
    requires |cands| <= k && hits == HitsOf(cands)[..Min(k, |cands|)] && Elems(Nodes(cands)) == R
    ensures (forall c :: c in cands ==> c.node in s.Live()) <==> R <= s.Live()
    ensures (forall h :: h in hits ==> h.id in s.nodes) <==> forall x :: x in R ==> x.id in s.nodes
  {
    assert hits == HitsOf(cands);
    NodesOfCands(cands);
    IdsOfHits(hits, Nodes(cands), s);
  }

  lemma NodesOfCands(cands: seq<ScoredNode>)
    ensures forall x :: x in Elems(Nodes(cands)) <==> exists c :: c in cands && c.node == x
  {
    forall x | x in Elems(Nodes(cands)) ensures exists c :: c in cands && c.node == x {
      var i :| 0 <= i < |cands| && Nodes(cands)[i] == x;
      assert cands[i] in cands && cands[i].node == x;
    }
    forall c | c in cands ensures c.node in Elems(Nodes(cands)) {
      var i :| 0 <= i < |cands| && cands[i] == c;
      assert Nodes(cands)[i] == c.node;
    }
  }

  lemma IdsOfHits(hits: seq<Hit>, ns: seq<Node>, s: State)
    requires |hits| == |ns| && forall i :: 0 <= i < |ns| ==> hits[i].id == ns[i].id
    ensures (forall h :: h in hits ==> h.id in s.nodes) <==> forall x :: x in Elems(ns) ==> x.id in s.nodes
  {
    if forall h :: h in hits ==> h.id in s.nodes {
      forall x | x in Elems(ns) ensures x.id in s.nodes {
        var i :| 0 <= i < |ns| && ns[i] == x;
        assert hits[i] in hits;
      }
    }
    if forall x :: x in Elems(ns) ==> x.id in s.nodes {
      forall h | h in hits ensures h.id in s.nodes {
        var i :| 0 <= i < |hits| && hits[i] == h;
        assert ns[i] in Elems(ns);
      }
    }
  }

  lemma SmallAddRunsExact(cfg: Config, trace: seq<State>, ops: seq<Op>, q: Vec, k: nat, hits: seq<Hit>,
                          ls: LayerSearch, xs: seq<Node>)
    requires Run(cfg, trace, ops) && AddOnly(ops) && ops != []
    requires |ops| <= cfg.MaxConn(0) + 1 && |ops| <= cfg.efConstr + 1
    requires Last(trace).entry != null && Answered(cfg, Last(trace), q, k, hits, ls)
    requires NoDup(xs) && Elems(xs) == Last(trace).Live()
    ensures Scores(hits) == Ranking.Top(NodeScores(cfg.dist, q, xs), k)
  {
    RunValid(cfg, trace, ops);
    AddRunsListOnlyLive(cfg, trace, ops);
    SmallAddRunsComplete(cfg, trace, ops);
    CompleteSearchExact(cfg, Last(trace), q, k, hits, ls, xs);
  }

  lemma SmallRunsExact(cfg: Config, trace: seq<State>, ops: seq<Op>, q: Vec, k: nat, hits: seq<Hit>,
                       ls: LayerSearch, xs: seq<Node>)
    requires Run(cfg, trace, ops) && cfg.m <= cfg.efConstr
    requires forall i :: 0 <= i < |trace| ==> |trace[i].Live()| <= cfg.m + 1
    requires Last(trace).entry != null && Answered(cfg, Last(trace), q, k, hits, ls)
    requires NoDup(xs) && Elems(xs) == Last(trace).Live()
    ensures Scores(hits) == Ranking.Top(NodeScores(cfg.dist, q, xs), k)
  {
    RunValid(cfg, trace, ops);
    SmallRunsComplete(cfg, trace, ops);
    assert CliqueAt(Last(trace), 0);
    CompleteSearchExact(cfg, Last(trace), q, k, hits, ls, xs);
  }
}
