/** The whole index as a value, one insertion and one removal as relations between
    states, and what holds after every run of them. */
module HnswState {
  import opened Collections
  import opened HnswGraph
  import opened HnswLayer

  datatype Config = Config(m: nat, efConstr: nat, efSearch: nat, dist: Metric) {
    ghost predicate Valid() { m >= 1 && efConstr >= 1 && efSearch >= 1 }

    function MaxConn(l: nat): nat {
      if l == 0 then 2 * m else m
    }
  }

  type Adjacency = map<Node, seq<seq<Node>>>

  /** adj also covers removed nodes: lists may still lead to them. */
  datatype State = State(adj: Adjacency, nodes: map<Id, Node>, entry: Node?) {
    ghost function Live(): set<Node> { nodes.Values }
  }

  const EMPTY := State(map[], map[], null)

  ghost function LayerOf(adj: Adjacency, l: nat): Layer {
    map x | x in adj :: if l < |adj[x]| then adj[x][l] else []
  }

  ghost predicate ValidEntry(s: State) {
    && (s.entry == null <==> s.nodes == map[])
    && (s.entry != null ==> s.entry in s.Live() && forall x :: x in s.Live() ==> x.level <= s.entry.level)
  }

  ghost predicate Valid(cfg: Config, s: State) {
    && ValidEntry(s)
    && s.Live() <= s.adj.Keys
    && (forall id :: id in s.nodes ==> s.nodes[id].id == id)
    && (forall x :: x in s.adj ==> |s.adj[x]| == x.level + 1)
    && (forall l: nat :: WellFormed(LayerOf(s.adj, l), l, cfg.MaxConn(l)))
  }

  // ---------- insertion ----------

  /** How one layer was searched for the new node. */
  datatype LayerSearch = LayerSearch(ep: Node, visited: set<Node>, cands: seq<ScoredNode>)

  /** ep lies in every set that holds the entry and is closed under the links above layer l. */
  ghost predicate Entered(s: State, l: nat, ep: Node)
    requires s.entry != null
  {
    forall T: set<Node> | T <= s.adj.Keys && s.entry in T && ClosedAbove(s, l, T) :: ep in T
  }

  ghost predicate ClosedAbove(s: State, l: nat, T: set<Node>) {
    forall x, j: nat :: x in T && x in s.adj && l < j < |s.adj[x]| ==> forall y :: y in s.adj[x][j] ==> y in T
  }

  /** ep is where a search toward q comes down to: on every layer from the entry's down to the
      one above l it goes greedily from where it stopped on the layer above. */
  ghost predicate Way(s: State, dist: Metric, q: Vec, l: nat, ep: Node)
    requires s.entry != null
    decreases s.entry.level - l
  {
    if l >= s.entry.level then ep == s.entry
    else exists x :: x in s.adj && Way(s, dist, q, l + 1, x) && GreedyFrom(LayerOf(s.adj, l + 1), dist, q, x, ep)
  }

  /** The descent ends no farther from q than the entry, and at a node none of whose neighbours
      on the layer it came through last is nearer. */
  lemma {:induction false} WayEndsNearer(s: State, dist: Metric, q: Vec, l: nat, ep: Node)
    requires s.entry != null && Way(s, dist, q, l, ep)
    ensures dist(ep.vec, q) <= dist(s.entry.vec, q)
    ensures l < s.entry.level ==>
      ep in s.adj && forall nb :: nb in LayerOf(s.adj, l + 1)[ep] ==> dist(ep.vec, q) <= dist(nb.vec, q)
    decreases s.entry.level - l
  {
    if l < s.entry.level {
      var x :| x in s.adj && Way(s, dist, q, l + 1, x) && GreedyFrom(LayerOf(s.adj, l + 1), dist, q, x, ep);
      WayEndsNearer(s, dist, q, l + 1, x);
      var k: nat :| GreedyMoves(LayerOf(s.adj, l + 1), dist, q, x, k, ep);
      GreedyReaches(LayerOf(s.adj, l + 1), dist, q, x, k, ep);
    }
  }

  ghost predicate Searched(cfg: Config, s: State, n: Node, l: nat, ls: LayerSearch)
    requires s.entry != null
  {
    && ls.ep in s.adj
    && ls.ep.level >= l
    && Entered(s, l, ls.ep)
    && Beam(LayerOf(s.adj, l), cfg.dist, ls.ep, n.vec, cfg.efConstr, ls.visited, ls.cands)
  }

  /** The topmost search starts where the greedy descent from the entry ends, each one below at
      the best candidate of the layer above. */
  ghost predicate Descends(cfg: Config, s: State, n: Node, top: nat, search: map<nat, LayerSearch>)
    requires s.entry != null && Covers(search, top)
  {
    && Way(s, cfg.dist, n.vec, top, search[top].ep)
    && forall l: nat :: l in search && l > 0 ==> |search[l].cands| > 0 && search[l - 1].ep == search[l].cands[0].node
  }

  ghost predicate Covers(search: map<nat, LayerSearch>, top: nat) {
    forall l: nat :: l in search <==> l <= top
  }

  ghost function CandsAt(search: map<nat, LayerSearch>, l: nat): seq<ScoredNode> {
    if l in search then search[l].cands else []
  }

  /** One Add of a fresh id: n joins the layers up to its level that exist. */
  ghost predicate Inserted(cfg: Config, s: State, s': State, n: Node, search: map<nat, LayerSearch>) {
    && n !in s.adj && n.id !in s.nodes
    && s'.nodes == s.nodes[n.id := n]
    && s'.adj.Keys == s.adj.Keys + {n}
    && (forall x :: x in s'.adj ==> |s'.adj[x]| == x.level + 1)
    && (forall l: nat ::
          Linked(LayerOf(s.adj, l), LayerOf(s'.adj, l), cfg.dist, n, CandsAt(search, l), cfg.MaxConn(l)))
    && if s.entry == null then search == map[] && s'.entry == n
       else
         && Covers(search, Min(n.level, s.entry.level))
         && (forall l: nat :: l in search ==> Searched(cfg, s, n, l, search[l]))
         && Descends(cfg, s, n, Min(n.level, s.entry.level), search)
         && s'.entry == (if n.level > s.entry.level then n else s.entry)
  }

  lemma InsertedLayer(cfg: Config, s: State, s': State, n: Node, search: map<nat, LayerSearch>, l: nat)
    requires Inserted(cfg, s, s', n, search)
    ensures Linked(LayerOf(s.adj, l), LayerOf(s'.adj, l), cfg.dist, n, CandsAt(search, l), cfg.MaxConn(l))
    ensures s.entry != null && l <= Min(n.level, s.entry.level) ==>
      l in search && Searched(cfg, s, n, l, search[l]) && CandsAt(search, l) == search[l].cands
  {
  }

  lemma InsertedShape(cfg: Config, s: State, s': State, n: Node, search: map<nat, LayerSearch>)
    requires Inserted(cfg, s, s', n, search)
    ensures n !in s.adj && n.id !in s.nodes && s'.nodes == s.nodes[n.id := n]
    ensures s'.adj.Keys == s.adj.Keys + {n} && forall x :: x in s'.adj ==> |s'.adj[x]| == x.level + 1
    ensures s'.entry == if s.entry == null || n.level > s.entry.level then n else s.entry
  {
  }

  lemma ValidShape(cfg: Config, s: State)
    requires Valid(cfg, s)
    ensures DistinctIds(s.Live()) && s.Live() <= s.adj.Keys
    ensures forall id :: id in s.nodes ==> s.nodes[id].id == id
    ensures forall x :: x in s.adj ==> |s.adj[x]| == x.level + 1
  {
  }

  // ---------- removal ----------

  ghost function DetachedLists(lists: seq<seq<Node>>, owner: Node, n: Node, nlists: seq<seq<Node>>): (r: seq<seq<Node>>)
    ensures |r| == |lists|
  {
    seq(|lists|, l requires 0 <= l < |lists| =>
      if l < |nlists| && owner in nlists[l] then RemoveRef(lists[l], n) else lists[l])
  }

  ghost function DetachedAdj(adj: Adjacency, n: Node): Adjacency
    requires n in adj
  {
    map x | x in adj :: DetachedLists(adj[x], x, n, adj[n])
  }

  ghost predicate Removed(s: State, s': State, n: Node) {
    && n in s.adj && n in s.Live() && n.id in s.nodes && s.nodes[n.id] == n
    && s'.adj == DetachedAdj(s.adj, n)
    && s'.nodes == s.nodes - {n.id}
    && if s.entry == n then ValidEntry(s') else s'.entry == s.entry
  }

  lemma RemovedLayer(s: State, s': State, n: Node, l: nat)
    requires Removed(s, s', n)
    ensures n in LayerOf(s.adj, l) && LayerOf(s'.adj, l) == Detached(LayerOf(s.adj, l), n)
  {
    var L, L' := LayerOf(s.adj, l), LayerOf(s'.adj, l);
    forall x | x in L ensures L'[x] == Detached(L, n)[x] {
      assert s'.adj[x] == DetachedLists(s.adj[x], x, n, s.adj[n]);
    }
  }

  // ---------- runs ----------

  datatype Op = Insert(n: Node, search: map<nat, LayerSearch>) | Delete(n: Node)

  ghost predicate Next(cfg: Config, s: State, op: Op, s': State) {
    match op
    case Insert(n, search) => Inserted(cfg, s, s', n, search)
    case Delete(n) => Removed(s, s', n)
  }

  /** trace[0] is the empty index and ops[i] leads from trace[i] to trace[i + 1]. */
  ghost predicate Run(cfg: Config, trace: seq<State>, ops: seq<Op>) {
    && |trace| == |ops| + 1
    && trace[0] == EMPTY
    && forall i :: 0 <= i < |ops| ==> Next(cfg, trace[i], ops[i], trace[i + 1])
  }

  ghost predicate AddOnly(ops: seq<Op>) {
    forall i :: 0 <= i < |ops| ==> ops[i].Insert?
  }

  ghost function Last<T>(s: seq<T>): T
    requires s != []
  {
    s[|s| - 1]
  }

  lemma RunExtend(cfg: Config, trace: seq<State>, ops: seq<Op>, op: Op, s': State)
    requires Run(cfg, trace, ops) && Next(cfg, Last(trace), op, s')
    ensures Run(cfg, trace + [s'], ops + [op]) && Last(trace + [s']) == s'
    ensures AddOnly(ops) && op.Insert? ==> AddOnly(ops + [op])
  {
    var t, o := trace + [s'], ops + [op];
    forall i | 0 <= i < |o| ensures Next(cfg, t[i], o[i], t[i + 1]) {
      if i < |ops| {
        assert Next(cfg, trace[i], ops[i], trace[i + 1]);
      }
    }
  }

  /** The history of an index: an Add-only run that ends in its present state. */
  ghost predicate AddHistory(cfg: Config, trace: seq<State>, ops: seq<Op>, s: State) {
    Run(cfg, trace, ops) && AddOnly(ops) && Last(trace) == s
  }

  /** One more Add of a fresh id. */
  lemma Recorded(cfg: Config, trace: seq<State>, ops: seq<Op>, s: State, s': State, n: Node, search: map<nat, LayerSearch>)
    returns (trace': seq<State>, ops': seq<Op>)
    requires AddHistory(cfg, trace, ops, s) && Inserted(cfg, s, s', n, search)
    ensures AddHistory(cfg, trace', ops', s') && ops' == ops + [Insert(n, search)]
  {
    trace', ops' := trace + [s'], ops + [Insert(n, search)];
    RunExtend(cfg, trace, ops, Insert(n, search), s');
  }

  // ---------- the structural invariant ----------

  lemma SearchedCands(cfg: Config, s: State, n: Node, l: nat, ls: LayerSearch, x: Node)
    requires Valid(cfg, s) && s.entry != null && Searched(cfg, s, n, l, ls) && x in Nodes(ls.cands)
    ensures x in s.adj && x.level >= l
  {
    var L := LayerOf(s.adj, l);
    var T := set y | y in s.adj && y.level >= l;
    assert WellFormed(L, l, cfg.MaxConn(l));
    var i :| 0 <= i < |ls.cands| && Nodes(ls.cands)[i] == x;
    assert ls.cands[i] in ls.cands;
    ReachesWithin(L, ls.ep, x, T);
  }

  lemma InsertKeepsWellFormed(cfg: Config, s: State, s': State, n: Node, search: map<nat, LayerSearch>, l: nat)
    requires Valid(cfg, s) && Inserted(cfg, s, s', n, search)
    ensures WellFormed(LayerOf(s'.adj, l), l, cfg.MaxConn(l))
  {
    var L, L', cands := LayerOf(s.adj, l), LayerOf(s'.adj, l), CandsAt(search, l);
    assert WellFormed(L, l, cfg.MaxConn(l));
    assert Linked(L, L', cfg.dist, n, cands, cfg.MaxConn(l));
    if l in search {
      assert Searched(cfg, s, n, l, search[l]);
      forall y | y in Nodes(cands) ensures y in L && y.level >= l {
        SearchedCands(cfg, s, n, l, search[l], y);
      }
    }
    LinkedKeepsWellFormed(L, L', cfg.dist, n, cands, l, cfg.MaxConn(l));
  }

  lemma InsertKeepsValid(cfg: Config, s: State, s': State, n: Node, search: map<nat, LayerSearch>)
    requires Valid(cfg, s) && Inserted(cfg, s, s', n, search)
    ensures Valid(cfg, s')
  {
    hide Inserted, WellFormed, LayerOf, ValidEntry;
    InsertedShape(cfg, s, s', n, search);
    LiveGrows(s, s', n);
    forall l: nat ensures WellFormed(LayerOf(s'.adj, l), l, cfg.MaxConn(l)) {
      InsertKeepsWellFormed(cfg, s, s', n, search, l);
    }
    InsertKeepsEntry(s, s', n);
  }

  lemma InsertKeepsEntry(s: State, s': State, n: Node)
    requires ValidEntry(s) && s'.nodes == s.nodes[n.id := n] && s'.Live() == s.Live() + {n}
    requires s'.entry == if s.entry == null || n.level > s.entry.level then n else s.entry
    ensures ValidEntry(s')
  {
    assert n.id in s'.nodes;
  }

  lemma LiveGrows(s: State, s': State, n: Node)
    requires n.id !in s.nodes && s'.nodes == s.nodes[n.id := n]
    ensures s'.Live() == s.Live() + {n}
  {
    forall x | x in s.Live() + {n} ensures x in s'.Live() {
      if x != n {
        var id :| id in s.nodes && s.nodes[id] == x;
        assert s'.nodes[id] == x;
      } else {
        assert s'.nodes[n.id] == n;
      }
    }
  }

  lemma LiveShrinks(s: State, s': State, n: Node)
    requires (forall id :: id in s.nodes ==> s.nodes[id].id == id)
    requires n.id in s.nodes && s.nodes[n.id] == n && s'.nodes == s.nodes - {n.id}
    ensures s'.Live() == s.Live() - {n}
  {
    forall x | x in s.Live() - {n} ensures x in s'.Live() {
      var id :| id in s.nodes && s.nodes[id] == x;
      assert s'.nodes[id] == x;
    }
  }

  lemma RemoveKeepsValid(cfg: Config, s: State, s': State, n: Node)
    requires Valid(cfg, s) && Removed(s, s', n)
    ensures Valid(cfg, s')
  {
    LiveShrinks(s, s', n);
    forall l: nat ensures WellFormed(LayerOf(s'.adj, l), l, cfg.MaxConn(l)) {
      RemovedLayer(s, s', n, l);
      assert WellFormed(LayerOf(s.adj, l), l, cfg.MaxConn(l));
    }
    if s.entry != n {
      var id :| id in s.nodes && s.nodes[id] == s.entry;
      assert id in s'.nodes;
    }
  }

  lemma EmptyValid(cfg: Config)
    ensures Valid(cfg, EMPTY)
  {
  }

  lemma {:induction false} RunValid(cfg: Config, trace: seq<State>, ops: seq<Op>)
    requires Run(cfg, trace, ops)
    ensures Valid(cfg, Last(trace))
    decreases |ops|
  {
    if ops == [] {
      EmptyValid(cfg);
    } else {
      var k := |ops| - 1;
      RunPrefix(cfg, trace, ops);
      RunValid(cfg, trace[..k + 1], ops[..k]);
      assert Next(cfg, trace[k], ops[k], trace[k + 1]);
      match ops[k]
      case Insert(n, search) => InsertKeepsValid(cfg, trace[k], trace[k + 1], n, search);
      case Delete(n) => RemoveKeepsValid(cfg, trace[k], trace[k + 1], n);
    }
  }

  lemma RunPrefix(cfg: Config, trace: seq<State>, ops: seq<Op>)
    requires Run(cfg, trace, ops) && ops != []
    ensures var k := |ops| - 1;
      && Run(cfg, trace[..k + 1], ops[..k])
      && Last(trace[..k + 1]) == trace[k]
      && Next(cfg, trace[k], ops[k], Last(trace))
      && (AddOnly(ops) ==> AddOnly(ops[..k]) && ops[k].Insert?)
  {
    var k := |ops| - 1;
    var t, o := trace[..k + 1], ops[..k];
    forall i | 0 <= i < |o| ensures Next(cfg, t[i], o[i], t[i + 1]) {
      assert Next(cfg, trace[i], ops[i], trace[i + 1]);
    }
    assert Next(cfg, trace[k], ops[k], trace[k + 1]);
  }

  // ---------- pruning: over every Add-only run ----------

  ghost predicate PruningInvariant(cfg: Config, s: State) {
    forall l: nat :: PrunedOnlyForNearer(LayerOf(s.adj, l), cfg.dist, cfg.MaxConn(l))
  }

  /** On every layer after any run of Adds of fresh ids, a node that dropped a link has a
      full list of nodes at least as near. */
  lemma {:induction false} PruningInvariantOnAddRuns(cfg: Config, trace: seq<State>, ops: seq<Op>)
    requires Run(cfg, trace, ops) && AddOnly(ops)
    ensures PruningInvariant(cfg, Last(trace))
    decreases |ops|
  {
    if ops != [] {
      var k := |ops| - 1;
      RunPrefix(cfg, trace, ops);
      PruningInvariantOnAddRuns(cfg, trace[..k + 1], ops[..k]);
      RunValid(cfg, trace[..k + 1], ops[..k]);
      var s, s', n, search := trace[k], trace[k + 1], ops[k].n, ops[k].search;
      forall l: nat ensures PrunedOnlyForNearer(LayerOf(s'.adj, l), cfg.dist, cfg.MaxConn(l)) {
        var L, L' := LayerOf(s.adj, l), LayerOf(s'.adj, l);
        assert WellFormed(L, l, cfg.MaxConn(l)) && PrunedOnlyForNearer(L, cfg.dist, cfg.MaxConn(l));
        assert Linked(L, L', cfg.dist, n, CandsAt(search, l), cfg.MaxConn(l));
        LinkedKeepsPruning(L, L', cfg.dist, n, CandsAt(search, l), l, cfg.MaxConn(l));
      }
    }
  }

  // ---------- dangling links ----------

  ghost predicate ListsOnlyLive(s: State) {
    forall l: nat :: ListsOnly(LayerOf(s.adj, l), s.Live())
  }

  /** With only live nodes listed, a search that starts at the entry stays among them. */
  lemma EnteredLive(cfg: Config, s: State, l: nat, ep: Node)
    requires Valid(cfg, s) && s.entry != null && ListsOnlyLive(s) && Entered(s, l, ep)
    ensures ep in s.Live()
  {
    forall x, j: nat | x in s.Live() && x in s.adj && l < j < |s.adj[x]|
      ensures forall y :: y in s.adj[x][j] ==> y in s.Live()
    {
      assert ListsOnly(LayerOf(s.adj, j), s.Live());
      assert LayerOf(s.adj, j)[x] == s.adj[x][j];
    }
    assert ClosedAbove(s, l, s.Live());
  }

  lemma InsertKeepsLive(cfg: Config, s: State, s': State, n: Node, search: map<nat, LayerSearch>)
    requires Valid(cfg, s) && Inserted(cfg, s, s', n, search) && ListsOnlyLive(s)
    ensures ListsOnlyLive(s')
  {
    LiveGrows(s, s', n);
    forall l: nat ensures ListsOnly(LayerOf(s'.adj, l), s'.Live()) {
      var L, L', cands := LayerOf(s.adj, l), LayerOf(s'.adj, l), CandsAt(search, l);
      assert ListsOnly(L, s.Live());
      assert Linked(L, L', cfg.dist, n, cands, cfg.MaxConn(l));
      if l in search {
        var ls := search[l];
        assert Searched(cfg, s, n, l, ls);
        EnteredLive(cfg, s, l, ls.ep);
        BeamStaysLive(L, cfg.dist, ls.ep, n.vec, cfg.efConstr, ls.visited, ls.cands, s.Live());
      }
      LinkedKeepsLive(L, L', cfg.dist, n, cands, cfg.MaxConn(l), s.Live());
    }
  }

  lemma {:induction false} AddRunsListOnlyLive(cfg: Config, trace: seq<State>, ops: seq<Op>)
    requires Run(cfg, trace, ops) && AddOnly(ops)
    ensures ListsOnlyLive(Last(trace))
    decreases |ops|
  {
    if ops != [] {
      var k := |ops| - 1;
      RunPrefix(cfg, trace, ops);
      AddRunsListOnlyLive(cfg, trace[..k + 1], ops[..k]);
      RunValid(cfg, trace[..k + 1], ops[..k]);
      InsertKeepsLive(cfg, trace[k], trace[k + 1], ops[k].n, ops[k].search);
    }
  }

  /** Exactly when n listed back everyone who listed it does its removal leave no live
      node with a link to a removed one. */
  lemma RemoveLeavesNoDanglingIff(cfg: Config, s: State, s': State, n: Node)
    requires Valid(cfg, s) && ListsOnlyLive(s) && Removed(s, s', n)
    ensures ListsOnlyLive(s') <==>
      forall l: nat, x :: x in s.Live() - {n} && n in LayerOf(s.adj, l)[x] ==> x in LayerOf(s.adj, l)[n]
  {
    LiveShrinks(s, s', n);
    forall l: nat
      ensures ListsOnly(LayerOf(s'.adj, l), s'.Live()) <==>
        forall x :: x in s.Live() - {n} && n in LayerOf(s.adj, l)[x] ==> x in LayerOf(s.adj, l)[n]
    {
      var L := LayerOf(s.adj, l);
      RemovedLayer(s, s', n, l);
      assert WellFormed(L, l, cfg.MaxConn(l)) && ListsOnly(L, s.Live());
    }
  }

  /** After a removal x still lists n on a layer exactly when it did and n did not list x;
      every other link is as before. */
  lemma RemoveExact(cfg: Config, s: State, s': State, n: Node, l: nat, x: Node, y: Node)
    requires Valid(cfg, s) && Removed(s, s', n) && x in s.adj
    ensures y in LayerOf(s'.adj, l)[x]
       <==> y in LayerOf(s.adj, l)[x] && (y == n ==> x !in LayerOf(s.adj, l)[n])
  {
    RemovedLayer(s, s', n, l);
    assert WellFormed(LayerOf(s.adj, l), l, cfg.MaxConn(l));
    DetachedMembers(LayerOf(s.adj, l), n, l, cfg.MaxConn(l), x, y);
  }
}
