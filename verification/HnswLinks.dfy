/** Runs in which no list overflows: links stay two-way between live nodes, so no removal
    leaves a link to a removed node. */
module HnswLinks {
  import opened Collections
  import opened HnswGraph
  import opened HnswLayer
  import opened HnswState

  // ---------- one layer ----------

  /** Live nodes that are listed list back. */
  ghost predicate TwoWay(L: Layer, live: set<Node>) {
    forall x, y :: x in live && y in live && x in L && y in L && y in L[x] ==> x in L[y]
  }

  /** Nobody that n links to has a full list. */
  ghost predicate Room(L: Layer, cands: seq<ScoredNode>, max: nat) {
    forall x :: x in Select(cands, max) && x in L ==> |L[x]| < max
  }

  /** With room nothing is dropped: the only new links are those between n and its selection. */
  lemma LinkedWithRoom(L: Layer, L': Layer, dist: Metric, n: Node, cands: seq<ScoredNode>, max: nat, x: Node, y: Node)
    requires Linked(L, L', dist, n, cands, max) && Room(L, cands, max) && x in L
    ensures y in L'[x] <==> y in L[x] || (y == n && x in L'[n])
  {
  }

  lemma LinkedKeepsTwoWay(L: Layer, L': Layer, dist: Metric, n: Node, cands: seq<ScoredNode>, l: nat, max: nat, live: set<Node>)
    requires WellFormed(L, l, max) && Linked(L, L', dist, n, cands, max)
    requires TwoWay(L, live) && Room(L, cands, max) && n !in live
    ensures TwoWay(L', live + {n})
  {
    forall x, y | x in live + {n} && y in live + {n} && x in L' && y in L' && y in L'[x] ensures x in L'[y] {
      if x != n {
        LinkedWithRoom(L, L', dist, n, cands, max, x, y);
      }
      if y != n {
        LinkedWithRoom(L, L', dist, n, cands, max, y, x);
      }
      hide Room, Linked;
    }
  }

  lemma DetachedKeepsTwoWay(L: Layer, n: Node, l: nat, max: int, live: set<Node>)
    requires WellFormed(L, l, max) && n in L && TwoWay(L, live)
    ensures TwoWay(Detached(L, n), live - {n})
  {
    var L' := Detached(L, n);
    forall x, y | x in live - {n} && y in live - {n} && x in L' && y in L' && y in L'[x] ensures x in L'[y] {
      DetachedMembers(L, n, l, max, x, y);
      DetachedMembers(L, n, l, max, y, x);
    }
  }

  // ---------- the index ----------

  ghost predicate Mutual(s: State) {
    forall l: nat :: TwoWay(LayerOf(s.adj, l), s.Live())
  }

  ghost predicate NoOverflow(cfg: Config, s: State, search: map<nat, LayerSearch>) {
    forall l: nat :: Room(LayerOf(s.adj, l), CandsAt(search, l), cfg.MaxConn(l))
  }

  lemma InsertKeepsMutual(cfg: Config, s: State, s': State, n: Node, search: map<nat, LayerSearch>)
    requires Valid(cfg, s) && Inserted(cfg, s, s', n, search) && Mutual(s) && NoOverflow(cfg, s, search)
    ensures Mutual(s')
  {
    LiveGrows(s, s', n);
    forall l: nat ensures TwoWay(LayerOf(s'.adj, l), s'.Live()) {
      InsertedLayer(cfg, s, s', n, search, l);
      assert WellFormed(LayerOf(s.adj, l), l, cfg.MaxConn(l)) && TwoWay(LayerOf(s.adj, l), s.Live());
      assert Room(LayerOf(s.adj, l), CandsAt(search, l), cfg.MaxConn(l));
      LinkedKeepsTwoWay(LayerOf(s.adj, l), LayerOf(s'.adj, l), cfg.dist, n, CandsAt(search, l), l, cfg.MaxConn(l), s.Live());
    }
  }

  lemma RemoveKeepsMutual(cfg: Config, s: State, s': State, n: Node)
    requires Valid(cfg, s) && Removed(s, s', n) && Mutual(s)
    ensures Mutual(s')
  {
    LiveShrinks(s, s', n);
    forall l: nat ensures TwoWay(LayerOf(s'.adj, l), s'.Live()) {
      RemovedLayer(s, s', n, l);
      assert WellFormed(LayerOf(s.adj, l), l, cfg.MaxConn(l)) && TwoWay(LayerOf(s.adj, l), s.Live());
      DetachedKeepsTwoWay(LayerOf(s.adj, l), n, l, cfg.MaxConn(l), s.Live());
    }
  }

  /** Where links are two-way a removal leaves none to the removed node. */
  lemma MutualRemoveKeepsLive(cfg: Config, s: State, s': State, n: Node)
    requires Valid(cfg, s) && Removed(s, s', n) && Mutual(s) && ListsOnlyLive(s)
    ensures ListsOnlyLive(s')
  {
    forall l: nat, x | x in s.Live() - {n} && n in LayerOf(s.adj, l)[x] ensures x in LayerOf(s.adj, l)[n] {
      assert TwoWay(LayerOf(s.adj, l), s.Live());
    }
    RemoveLeavesNoDanglingIff(cfg, s, s', n);
  }

  // ---------- runs ----------

  /** No insertion of the run finds a full list to append to. */
  ghost predicate Unpruned(cfg: Config, trace: seq<State>, ops: seq<Op>)
    requires |trace| == |ops| + 1
  {
    forall i :: 0 <= i < |ops| && ops[i].Insert? ==> NoOverflow(cfg, trace[i], ops[i].search)
  }

  /** Runs of any length and size without pruning leave no dangling link. */
  lemma {:induction false} UnprunedRunsListOnlyLive(cfg: Config, trace: seq<State>, ops: seq<Op>)
    requires Run(cfg, trace, ops) && Unpruned(cfg, trace, ops)
    ensures ListsOnlyLive(Last(trace)) && Mutual(Last(trace))
    decreases |ops|
  {
    if ops != [] {
      var k := |ops| - 1;
      RunPrefix(cfg, trace, ops);
      UnprunedRunsListOnlyLive(cfg, trace[..k + 1], ops[..k]);
      RunValid(cfg, trace[..k + 1], ops[..k]);
      hide Valid, Inserted, Removed, ListsOnlyLive, Mutual, NoOverflow, Run;
      match ops[k]
      case Insert(n, search) =>
        InsertKeepsLive(cfg, trace[k], trace[k + 1], n, search);
        InsertKeepsMutual(cfg, trace[k], trace[k + 1], n, search);
      case Delete(n) =>
        MutualRemoveKeepsLive(cfg, trace[k], trace[k + 1], n);
        RemoveKeepsMutual(cfg, trace[k], trace[k + 1], n);
    } else {
      NothingListed(cfg);
    }
  }

  lemma NothingListed(cfg: Config)
    ensures ListsOnlyLive(EMPTY) && Mutual(EMPTY)
  {
  }
}
