/** The HNSW index object: its fields, and Add, Remove and Search as methods that realise
    the insertion and removal relations and the search of the other modules. */
module HnswIndex {
  import opened Collections
  import opened HnswGraph
  import opened HnswLayer
  import opened HnswState
  import opened HnswSearch
  import opened HnswExact

  datatype Error = EmptyQuery | DimMismatch
  datatype Result<T> = Ok(value: T) | Err(error: Error)

  function SelectNeighbors(cands: seq<ScoredNode>, m: nat): seq<Node> {
    Select(cands, m)
  }

  // ---------- trimming a list with the max-heap ----------

  function Near(dist: Metric, x: Node, y: Node): ScoredNode {
    ScoredNode(y, dist(x.vec, y.vec))
  }

  ghost predicate HeapOf(dist: Metric, x: Node, list: seq<Node>, h: Heap) {
    && (forall s :: s in h ==> s.node in list && s == Near(dist, x, s.node))
    && (forall y :: y in list ==> Near(dist, x, y) in h)
  }

  method FillHeap(dist: Metric, x: Node, list: seq<Node>) returns (h: Heap)
    requires NoDup(list)
    ensures HeapOf(dist, x, list, h) && |h| == |list|
  {
    h := {};
    for i := 0 to |list|
      invariant |h| == i
      invariant forall s :: s in h ==> s.node in list[..i] && s == Near(dist, x, s.node)
      invariant forall j :: 0 <= j < i ==> Near(dist, x, list[j]) in h
    {
      assert list[i] !in list[..i];
      h := Push(h, Near(dist, x, list[i]));
      assert list[..i + 1] == list[..i] + [list[i]];
    }
    assert list[..|list|] == list;
  }

  /** What is left in the heap, in whatever order it is stored. */
  method Unheap(h: Heap) returns (kept: seq<Node>)
    requires forall s, t :: s in h && t in h && s.node == t.node ==> s == t
    ensures NoDup(kept) && |kept| == |h|
    ensures forall y :: y in kept ==> exists s :: s in h && s.node == y
    ensures forall s :: s in h ==> s.node in kept
  {
    kept := [];
    var rest := h;
    while rest != {}
      invariant rest <= h && |kept| + |rest| == |h| && NoDup(kept)
      invariant forall y :: y in kept ==> exists s :: s in h && s !in rest && s.node == y
      invariant forall s :: s in h ==> s in rest || s.node in kept
    {
      var s :| s in rest;
      assert s.node !in kept;
      rest := rest - {s};
      kept := kept + [s.node];
    }
  }

  method Trim(dist: Metric, x: Node, list: seq<Node>, max: nat) returns (kept: seq<Node>)
    requires NoDup(list) && |list| > max
    ensures Pruned(dist, x, list, kept, max)
  {
    var h := FillHeap(dist, x, list);
    ghost var full := h;
    while |h| > max
      invariant h <= full && |h| >= max
      invariant forall s, t :: s in h && t in full && t !in h ==> s.dist <= t.dist
    {
      var gone;
      gone, h := PopFarthest(h);
    }
    kept := Unheap(h);
    forall y, z | y in kept && z in list && z !in kept ensures dist(x.vec, y.vec) <= dist(x.vec, z.vec) {
      assert Near(dist, x, z) in full && Near(dist, x, z) !in h;
      var s :| s in h && s.node == y;
    }
  }

  ghost predicate SameListsOff(lists: seq<seq<Node>>, lists0: seq<seq<Node>>, l: nat) {
    |lists| == |lists0| && forall j :: 0 <= j < |lists0| && j != l ==> lists[j] == lists0[j]
  }

  // ---------- the searches of one insertion ----------

  lemma EnteredStep(s: State, l: nat, ep: Node, ep': Node)
    requires s.entry != null && l > 0 && ep in s.adj && Entered(s, l, ep)
    requires Reaches(LayerOf(s.adj, l), ep, ep')
    ensures Entered(s, l - 1, ep')
  {
    forall T: set<Node> | T <= s.adj.Keys && s.entry in T && ClosedAbove(s, l - 1, T) ensures ep' in T {
      assert ClosedAbove(s, l, T);
      var L := LayerOf(s.adj, l);
      forall x, y | x in T && x in L && y in L[x] ensures y in T {
        assert L[x] == s.adj[x][l];
      }
      ReachesWithin(L, ep, ep', T);
    }
  }

  lemma EntryEntered(cfg: Config, s: State)
    requires HnswState.Valid(cfg, s) && s.entry != null
    ensures s.entry in s.adj && Entered(s, s.entry.level, s.entry)
  {
  }

  lemma WayStep(s: State, dist: Metric, q: Vec, l: nat, from: Node, ep: Node)
    requires s.entry != null && 0 < l <= s.entry.level && from in s.adj && Way(s, dist, q, l, from)
    requires GreedyFrom(LayerOf(s.adj, l), dist, q, from, ep)
    ensures Way(s, dist, q, l - 1, ep)
  {
    hide GreedyFrom;
  }

  lemma ReachesLevel(cfg: Config, s: State, l: nat, ep: Node, x: Node)
    requires HnswState.Valid(cfg, s) && ep in s.adj && ep.level >= l && Reaches(LayerOf(s.adj, l), ep, x)
    ensures x in s.adj && x.level >= l
  {
    var L := LayerOf(s.adj, l);
    assert HnswLayer.WellFormed(L, l, cfg.MaxConn(l));
    ReachesWithin(L, ep, x, set y | y in s.adj && y.level >= l);
  }

  ghost predicate AllSearched(cfg: Config, s: State, n: Node, search: map<nat, LayerSearch>)
    requires s.entry != null
  {
    forall j: nat :: j in search ==> Searched(cfg, s, n, j, search[j])
  }

  /** The searches of the layers above l, each started at the best candidate of the one before;
      ep is where layer l starts. */
  ghost predicate Chained(top: nat, l: int, ep: Node, search: map<nat, LayerSearch>) {
    && -1 <= l <= top
    && (forall j: nat :: j in search <==> l < j <= top)
    && (l < top ==> |search[l + 1].cands| > 0 && ep == search[l + 1].cands[0].node)
    && (forall j: nat :: j in search && j > l + 1 ==>
          |search[j].cands| > 0 && search[j - 1].ep == search[j].cands[0].node)
  }

  ghost predicate AtLayer(s: State, l: int, ep: Node)
    requires s.entry != null
  {
    l >= 0 ==> ep in s.adj && ep.level >= l && Entered(s, l, ep)
  }

  /** The layers above l have been searched for n, and ep is where the search of layer l starts. */
  ghost predicate Underway(cfg: Config, s: State, n: Node, top: nat, l: int, ep: Node, search: map<nat, LayerSearch>)
    requires s.entry != null
  {
    && AllSearched(cfg, s, n, search) && Chained(top, l, ep, search) && AtLayer(s, l, ep)
    && Way(s, cfg.dist, n.vec, top, if top in search then search[top].ep else ep)
  }

  lemma ChainedStep(top: nat, l: nat, ep: Node, search: map<nat, LayerSearch>, ls: LayerSearch)
    requires Chained(top, l, ep, search) && ls.ep == ep && |ls.cands| > 0
    ensures Chained(top, l - 1, ls.cands[0].node, search[l := ls])
    ensures l <= top && (top in search <==> l < top)
  {
  }

  lemma SearchedHasCands(cfg: Config, s: State, n: Node, l: nat, ls: LayerSearch)
    requires s.entry != null && Searched(cfg, s, n, l, ls)
    ensures |ls.cands| > 0 && NoDup(Nodes(ls.cands))
  {
  }

  lemma UnderwayStep(cfg: Config, s: State, n: Node, top: nat, l: nat, ep: Node, search: map<nat, LayerSearch>,
                     ls: LayerSearch)
    requires HnswState.Valid(cfg, s) && s.entry != null && Underway(cfg, s, n, top, l, ep, search)
    requires ls.ep == ep && Searched(cfg, s, n, l, ls)
    ensures |ls.cands| > 0 && NoDup(Nodes(ls.cands))
    ensures Underway(cfg, s, n, top, l - 1, ls.cands[0].node, search[l := ls])
    ensures forall y :: y in Nodes(ls.cands) ==> y in s.adj && y.level >= l
  {
    hide HnswState.Valid, Searched, Chained, AtLayer, Way;
    SearchedHasCands(cfg, s, n, l, ls);
    ChainedStep(top, l, ep, search, ls);
    CandsBelongToLayer(cfg, s, n, l, ls);
  }

  lemma CandsBelongToLayer(cfg: Config, s: State, n: Node, l: nat, ls: LayerSearch)
    requires HnswState.Valid(cfg, s) && s.entry != null && Searched(cfg, s, n, l, ls)
    ensures forall y :: y in Nodes(ls.cands) ==> y in s.adj && y.level >= l
    ensures AtLayer(s, l - 1, ls.cands[0].node)
  {
    forall y | y in Nodes(ls.cands) ensures y in s.adj && y.level >= l {
      SearchedCands(cfg, s, n, l, ls, y);
    }
    assert ls.cands[0] in ls.cands && Nodes(ls.cands)[0] == ls.cands[0].node;
    if l > 0 {
      EnteredStep(s, l, ls.ep, ls.cands[0].node);
    }
  }

  /** The adjacency a shows the layers in `search` linked to n and no trace of n elsewhere. */
  ghost predicate LinkedAdj(cfg: Config, s: State, a: Adjacency, n: Node, search: map<nat, LayerSearch>) {
    && n !in s.adj && a.Keys == s.adj.Keys + {n}
    && (forall x :: x in a ==> |a[x]| == x.level + 1)
    && (forall j: nat :: Linked(LayerOf(s.adj, j), LayerOf(a, j), cfg.dist, n, CandsAt(search, j), cfg.MaxConn(j)))
  }

  lemma AssembleInserted(cfg: Config, s: State, s': State, n: Node, search: map<nat, LayerSearch>)
    requires LinkedAdj(cfg, s, s'.adj, n, search) && n.id !in s.nodes && s'.nodes == s.nodes[n.id := n]
    requires if s.entry == null then search == map[] && s'.entry == n
             else
               && AllSearched(cfg, s, n, search)
               && Covers(search, Min(n.level, s.entry.level))
               && Descends(cfg, s, n, Min(n.level, s.entry.level), search)
               && s'.entry == (if n.level > s.entry.level then n else s.entry)
    ensures Inserted(cfg, s, s', n, search)
  {
  }

  lemma EntryKnown(cfg: Config, s: State)
    requires HnswState.Valid(cfg, s)
    ensures s.entry != null ==> s.entry in s.adj
  {
  }

  lemma Promoted(s: State)
    requires s.entry == null <==> s.nodes == map[]
    requires s.entry != null ==> s.entry in s.Live() && forall x :: x in s.Live() ==> x.level <= s.entry.level
    ensures ValidEntry(s)
  {
  }

  lemma AssembleRemoved(s: State, s': State, n: Node)
    requires n in s.adj && n in s.Live() && n.id in s.nodes && s.nodes[n.id] == n
    requires s'.adj == DetachedAdj(s.adj, n) && s'.nodes == s.nodes - {n.id}
    requires if s.entry == n then ValidEntry(s') else s'.entry == s.entry
    ensures Removed(s, s', n)
  {
  }

  method TakeHits(cands: seq<ScoredNode>, k: nat) returns (hits: seq<Hit>)
    ensures hits == HitsOf(cands)[..Min(k, |cands|)]
  {
    var n := |cands|;
    if n > k {
      n := k;
    }
    hits := [];
    for i := 0 to n
      invariant hits == HitsOf(cands)[..i]
    {
      hits := hits + [Hit(cands[i].node.id, 1.0 - cands[i].dist)];
    }
  }

  class HNSW {
    const cfg: Config
    var dims: nat
    var nodes: map<Id, Node>
    var entry: Node?
    /** Every node ever added, removed ones included. */
    ghost var universe: set<Node>

    ghost function Adj(): Adjacency
      reads this`universe, universe
    {
      map x | x in universe :: x.neighbors
    }

    ghost function Abs(): State
      reads this, universe
    {
      State(Adj(), nodes, entry)
    }

    ghost predicate Valid()
      reads this, universe
    {
      && cfg.Valid()
      && HnswState.Valid(cfg, Abs())
      && (forall x :: x in universe ==> |x.vec| == dims)
      && (dims == 0 ==> universe == {})
    }

    constructor (m: int, efConstr: int, efSearch: int, dist: Metric)
      ensures Valid() && Abs() == EMPTY && dims == 0 && universe == {}
      ensures cfg == Config(if m <= 0 then 16 else m, if efConstr <= 0 then 200 else efConstr,
                            if efSearch <= 0 then 50 else efSearch, dist)
    {
      cfg := Config(if m <= 0 then 16 else m, if efConstr <= 0 then 200 else efConstr,
                    if efSearch <= 0 then 50 else efSearch, dist);
      dims := 0;
      nodes := map[];
      entry := null;
      universe := {};
    }

    // ---------- linking ----------

    /** Trims node's list on the layer to the maxConn nearest. */
    method PruneNeighbors(node: Node, layer: nat)
      requires layer < |node.neighbors| && NoDup(node.neighbors[layer])
      modifies node
      ensures |node.neighbors| == old(|node.neighbors|)
      ensures Pruned(cfg.dist, node, old(node.neighbors[layer]), node.neighbors[layer], cfg.MaxConn(layer))
      ensures forall j :: 0 <= j < |node.neighbors| && j != layer ==> node.neighbors[j] == old(node.neighbors[j])
    {
      var max := cfg.MaxConn(layer);
      if |node.neighbors[layer]| <= max {
        return;
      }
      var kept := Trim(cfg.dist, node, node.neighbors[layer], max);
      node.neighbors := node.neighbors[layer := kept];
    }

    /** x had the given lists; since then n was appended on layer l and the list pruned. */
    ghost predicate LinkedBack(x: Node, lists: seq<seq<Node>>, n: Node, l: nat)
      reads x
    {
      && |x.neighbors| == |lists| && l < |lists|
      && Pruned(cfg.dist, x, lists[l] + [n], x.neighbors[l], cfg.MaxConn(l))
      && forall j :: 0 <= j < |lists| && j != l ==> x.neighbors[j] == lists[j]
    }

    /** Appends the new node n to nb's list on layer l and prunes that list. */
    method LinkBack(nb: Node, n: Node, l: nat)
      requires l < |nb.neighbors| && NoDup(nb.neighbors[l]) && n !in nb.neighbors[l]
      modifies nb
      ensures LinkedBack(nb, old(nb.neighbors), n, l)
    {
      nb.neighbors := nb.neighbors[l := nb.neighbors[l] + [n]];
      PruneNeighbors(nb, l);
    }

    /** Every node covered by a0 has as many lists as there, and the same ones off layer l. */
    ghost predicate SameOff(a0: Adjacency, l: nat)
      reads this`universe, universe
    {
      && universe == a0.Keys
      && forall x :: x in universe ==> SameListsOff(x.neighbors, a0[x], l)
    }

    /** The first of the selected nodes have been linked back, nobody else but n changed. */
    ghost predicate LinkedSome(a0: Adjacency, n: Node, l: nat, L: Layer, done: seq<Node>)
      reads L.Keys
    {
      forall x :: x in L ==>
        && x in a0
        && if x in done then LinkedBack(x, a0[x], n, l) else x.neighbors == a0[x]
    }

    lemma LinkedAll(a0: Adjacency, n: Node, l: nat, cands: seq<ScoredNode>, L: Layer)
      requires universe == a0.Keys && n in universe && L == LayerOf(a0, l) - {n}
      requires LinkedSome(a0, n, l, L, Select(cands, cfg.MaxConn(l)))
      requires SameListsOff(n.neighbors, a0[n], l) && l < |n.neighbors| && n.neighbors[l] == Select(cands, cfg.MaxConn(l))
      ensures SameOff(a0, l)
      ensures Linked(L, LayerOf(Adj(), l), cfg.dist, n, cands, cfg.MaxConn(l))
    {
      var L' := LayerOf(Adj(), l);
      assert L'.Keys == universe == L.Keys + {n};
      forall x | x in L
        ensures if x in L'[n] then Pruned(cfg.dist, x, L[x] + [n], L'[x], cfg.MaxConn(l)) else L'[x] == L[x]
        ensures SameListsOff(x.neighbors, a0[x], l)
      {
      }
    }

    /** Links n both ways with the selected candidates of layer l. */
    /** Links one more selected node back. */
    method LinkNext(n: Node, nb: Node, l: nat, ghost L: Layer, ghost a0: Adjacency, ghost done: seq<Node>)
      requires LinkedSome(a0, n, l, L, done) && nb in L && nb !in done && nb != n
      requires nb in a0 && l < |a0[nb]| && L[nb] == a0[nb][l] && NoDup(L[nb]) && n !in L[nb]
      modifies nb
      ensures LinkedSome(a0, n, l, L, done + [nb])
    {
      hide Pruned, NoDup;
      LinkBack(nb, n, l);
      assert forall x :: x in done + [nb] <==> x in done || x == nb;
    }

    method LinkLayer(n: Node, l: nat, cands: seq<ScoredNode>, ghost L: Layer)
      requires n in universe && L == LayerOf(Adj(), l) - {n}
      requires l < |n.neighbors| && n.neighbors[l] == []
      requires forall x :: x in universe ==> |x.neighbors| == x.level + 1
      requires HnswLayer.WellFormed(L, l, cfg.MaxConn(l))
      requires NoDup(Nodes(cands)) && forall y :: y in Nodes(cands) ==> y in L && y.level >= l
      modifies universe
      ensures SameOff(old(Adj()), l)
      ensures Linked(L, LayerOf(Adj(), l), cfg.dist, n, cands, cfg.MaxConn(l))
    {
      hide Pruned, Linked, SameOff;
      ghost var a0 := Adj();
      var sel := SelectNeighbors(cands, cfg.MaxConn(l));
      n.neighbors := n.neighbors[l := n.neighbors[l] + sel];
      ghost var nl := n.neighbors;
      for i := 0 to |sel|
        invariant n.neighbors == nl
        invariant LinkedSome(a0, n, l, L, sel[..i])
      {
        var nb := sel[i];
        assert nb in Nodes(cands) && nb in L && nb !in sel[..i];
        LinkNext(n, nb, l, L, a0, sel[..i]);
        assert sel[..i + 1] == sel[..i] + [nb];
      }
      assert sel[..|sel|] == sel;
      LinkedAll(a0, n, l, cands, L);
    }

    // ---------- descending the layers ----------

    /** s is a state of this index whose links the heap still shows. */
    ghost predicate Reflects(s: State)
      reads s.adj.Keys
    {
      HnswState.Valid(cfg, s) && forall x :: x in s.adj ==> x.neighbors == s.adj[x]
    }

    /** Greedy steps from the entry's layer down to the one above `level`. */
    lemma LayerShown(s: State, l: nat)
      requires Reflects(s)
      ensures ClosedLayer(LayerOf(s.adj, l)) && Shows(LayerOf(s.adj, l), l) && LayerOf(s.adj, l).Keys == s.adj.Keys
    {
      assert HnswLayer.WellFormed(LayerOf(s.adj, l), l, cfg.MaxConn(l));
    }

    method Descend(query: Vec, level: nat, start: Node, ghost s: State) returns (ep: Node)
      requires Reflects(s) && start == s.entry
      ensures ep in s.adj && Entered(s, Min(level, start.level), ep) && ep.level >= Min(level, start.level)
      ensures Way(s, cfg.dist, query, Min(level, start.level), ep)
    {
      hide HnswState.Valid, Entered, GreedyFrom, Reaches, LayerOf, ClosedLayer, Shows;
      ep := start;
      EntryEntered(cfg, s);
      var l := start.level;
      hide Way;
      while l > level
        invariant 0 <= l <= start.level && ep in s.adj && Entered(s, l, ep) && ep.level >= l
        invariant l >= Min(level, start.level)
        invariant Way(s, cfg.dist, query, l, ep)
      {
        ghost var L, from := LayerOf(s.adj, l), ep;
        LayerShown(s, l);
        ep := GreedyStep(cfg.dist, ep, query, l, L);
        EnteredStep(s, l, from, ep);
        WayStep(s, cfg.dist, query, l, from, ep);
        ReachesLevel(cfg, s, l, from, ep);
        l := l - 1;
      }
    }

    /** The layers in `search` are linked to n, the others show no trace of it. */
    ghost predicate LinkedSoFar(s: State, n: Node, search: map<nat, LayerSearch>)
      reads this`universe, universe
    {
      LinkedAdj(cfg, s, Adj(), n, search)
    }

    method SearchFor(n: Node, l: nat, ep: Node, ghost s: State, ghost search: map<nat, LayerSearch>)
      returns (candidates: seq<ScoredNode>, ghost ls: LayerSearch)
      requires cfg.Valid() && HnswState.Valid(cfg, s) && s.entry != null && AtLayer(s, l, ep)
      requires LinkedSoFar(s, n, search) && l !in search && l <= n.level
      ensures ls.ep == ep && ls.cands == candidates && Searched(cfg, s, n, l, ls)
    {
      ghost var L := LayerOf(s.adj, l);
      NotYetLinked(s, n, search, l);
      assert HnswLayer.WellFormed(L, l, cfg.MaxConn(l));
      ghost var V;
      candidates, V := SearchLayer(cfg.dist, ep, n.vec, cfg.efConstr, l, L);
      ls := LayerSearch(ep, V, candidates);
    }

    method LinkFor(n: Node, l: nat, candidates: seq<ScoredNode>, ghost s: State, ghost search: map<nat, LayerSearch>,
                   ghost ls: LayerSearch)
      requires HnswState.Valid(cfg, s) && LinkedSoFar(s, n, search) && l !in search && l <= n.level
      requires ls.cands == candidates && NoDup(Nodes(candidates))
      requires forall y :: y in Nodes(candidates) ==> y in s.adj && y.level >= l
      modifies universe
      ensures LinkedSoFar(s, n, search[l := ls])
    {
      ghost var a0, L := Adj(), LayerOf(s.adj, l);
      NotYetLinked(s, n, search, l);
      assert HnswLayer.WellFormed(L, l, cfg.MaxConn(l));
      LinkLayer(n, l, candidates, L);
      LinkedOneMore(a0, s, n, search, l, ls);
    }

    /** One round of the insertion loop: search layer l from ep, link, move ep. */
    method JoinLayer(n: Node, top: nat, l: nat, ep: Node, ghost s: State, ghost search: map<nat, LayerSearch>)
      returns (ep': Node, ghost search': map<nat, LayerSearch>)
      requires cfg.Valid() && HnswState.Valid(cfg, s) && s.entry != null && top <= n.level
      requires LinkedSoFar(s, n, search) && Underway(cfg, s, n, top, l, ep, search)
      modifies universe
      ensures LinkedSoFar(s, n, search') && Underway(cfg, s, n, top, l - 1, ep', search')
    {
      hide HnswState.Valid, Searched, LinkedAdj;
      var candidates;
      ghost var ls;
      candidates, ls := SearchFor(n, l, ep, s, search);
      UnderwayStep(cfg, s, n, top, l, ep, search, ls);
      search' := search[l := ls];
      LinkFor(n, l, candidates, s, search, ls);
      ep' := ep;
      if |candidates| > 0 {
        ep' := candidates[0].node;
      }
    }

    lemma NotYetLinked(s: State, n: Node, search: map<nat, LayerSearch>, l: nat)
      requires LinkedSoFar(s, n, search) && l !in search && l <= n.level
      ensures LayerOf(s.adj, l) == LayerOf(Adj(), l) - {n}
      ensures n.neighbors[l] == [] && Shows(LayerOf(s.adj, l), l)
    {
      var L, L0 := LayerOf(s.adj, l), LayerOf(Adj(), l);
      assert Linked(L, L0, cfg.dist, n, [], cfg.MaxConn(l));
      assert L0[n] == [];
      assert L == L0 - {n};
      forall x | x in L ensures L[x] == x.At(l) { assert L[x] == L0[x]; }
    }

    lemma LinkedOneMore(a0: Adjacency, s: State, n: Node, search: map<nat, LayerSearch>, l: nat, ls: LayerSearch)
      requires n !in s.adj && universe == s.adj.Keys + {n} && SameOff(a0, l)
      requires forall x :: x in a0 ==> |a0[x]| == x.level + 1
      requires forall j: nat ::
                 Linked(LayerOf(s.adj, j), LayerOf(a0, j), cfg.dist, n, CandsAt(search, j), cfg.MaxConn(j))
      requires Linked(LayerOf(s.adj, l), LayerOf(Adj(), l), cfg.dist, n, ls.cands, cfg.MaxConn(l))
      ensures LinkedSoFar(s, n, search[l := ls])
    {
      forall j: nat
        ensures Linked(LayerOf(s.adj, j), LayerOf(Adj(), j), cfg.dist, n, CandsAt(search[l := ls], j), cfg.MaxConn(j))
      {
        if j != l {
          OffLayer(a0, l, j);
          assert Linked(LayerOf(s.adj, j), LayerOf(a0, j), cfg.dist, n, CandsAt(search, j), cfg.MaxConn(j));
        }
      }
      forall x | x in universe ensures |x.neighbors| == x.level + 1 {
        assert SameListsOff(x.neighbors, a0[x], l);
      }
    }

    lemma OffLayer(a0: Adjacency, l: nat, j: nat)
      requires SameOff(a0, l) && j != l
      ensures LayerOf(Adj(), j) == LayerOf(a0, j)
    {
      forall x | x in universe ensures LayerOf(Adj(), j)[x] == LayerOf(a0, j)[x] {
        assert SameListsOff(x.neighbors, a0[x], l);
      }
    }

    /** A node nobody knows yet has empty lists, and nobody lists it. */
    lemma FreshUnlinked(s: State, n: Node)
      requires HnswState.Valid(cfg, s) && n !in s.adj && universe == s.adj.Keys + {n}
      requires (forall x :: x in s.adj ==> x.neighbors == s.adj[x]) && n.neighbors == seq(n.level + 1, _ => [])
      ensures LinkedSoFar(s, n, map[])
    {
      forall j: nat
        ensures Linked(LayerOf(s.adj, j), LayerOf(Adj(), j), cfg.dist, n, [], cfg.MaxConn(j))
      {
        var L, L' := LayerOf(s.adj, j), LayerOf(Adj(), j);
        assert L'.Keys == L.Keys + {n};
        assert L'[n] == [];
        assert Select([], cfg.MaxConn(j)) == [];
        forall x | x in L ensures L'[x] == L[x] { }
      }
    }

    /** The insertion loop of Add, from the top shared layer down to layer 0. */
    method JoinLayers(n: Node, start: Node, ghost s: State) returns (ghost search: map<nat, LayerSearch>)
      requires cfg.Valid() && Reflects(s) && start == s.entry && start in s.adj
      requires LinkedSoFar(s, n, map[])
      modifies universe
      ensures LinkedSoFar(s, n, search) && AllSearched(cfg, s, n, search)
      ensures Covers(search, Min(n.level, start.level)) && Descends(cfg, s, n, Min(n.level, start.level), search)
    {
      hide HnswState.Valid, Searched, LinkedAdj;
      var ep := Descend(n.vec, n.level, start, s);
      var top := Min(n.level, start.level);
      search := map[];
      var l: int := top;
      while l >= 0
        invariant l >= -1
        invariant LinkedSoFar(s, n, search) && Underway(cfg, s, n, top, l, ep, search)
      {
        ep, search := JoinLayer(n, top, l, ep, s, search);
        l := l - 1;
      }
    }

    /** Wires the new node into the layers and makes it the entry if it rises above it. */
    method Attach(n: Node, ghost s: State) returns (ghost search: map<nat, LayerSearch>)
      requires cfg.Valid() && Reflects(s) && s.entry == entry && LinkedSoFar(s, n, map[])
      requires entry != null ==> entry in s.adj
      requires n.id !in s.nodes && nodes == s.nodes[n.id := n]
      modifies this`entry, universe
      ensures Inserted(cfg, s, Abs(), n, search)
    {
      hide HnswState.Valid, AllSearched, LinkedAdj, Descends, Inserted, Covers;
      search := map[];
      if entry == null {
        entry := n;
      } else {
        search := JoinLayers(n, entry, s);
        if n.level > entry.level {
          entry := n;
        }
      }
      AssembleInserted(cfg, s, Abs(), n, search);
    }

    method Insert(id: Id, vec: Vec, level: nat) returns (n: Node, ghost search: map<nat, LayerSearch>)
      requires Valid() && id !in nodes && |vec| == dims && dims > 0
      modifies this`nodes, this`entry, this`universe, universe
      ensures Valid() && fresh(n) && universe == old(universe) + {n}
      ensures n.id == id && n.vec == vec && n.level == level
      ensures Inserted(cfg, old(Abs()), Abs(), n, search)
    {
      hide HnswState.Valid, Inserted, LinkedSoFar;
      ghost var s := Abs();
      EntryKnown(cfg, s);
      n := new Node(id, vec, level);
      nodes := nodes[id := n];
      universe := universe + {n};
      FreshUnlinked(s, n);
      search := Attach(n, s);
      InsertKeepsValid(cfg, s, Abs(), n, search);
    }

    // ---------- removal ----------

    /** removeNode has detached the layers below l and the first of n's neighbours on layer l. */
    ghost predicate DetachedSome(a0: Adjacency, n: Node, l: nat, done: seq<Node>)
      reads this`universe, universe
    {
      && universe == a0.Keys && n in a0
      && forall x :: x in universe ==>
           && |x.neighbors| == |a0[x]|
           && forall j :: 0 <= j < |a0[x]| ==>
                x.neighbors[j] == (if j < |a0[n]| && (if j == l then x in done else j < l && x in a0[n][j])
                                   then RemoveRef(a0[x][j], n) else a0[x][j])
    }

    /** Drops n from the list that nb keeps on layer l. */
    method Unlink(nb: Node, n: Node, l: nat)
      modifies nb
      ensures |nb.neighbors| == old(|nb.neighbors|)
      ensures forall j :: 0 <= j < |nb.neighbors| ==>
                nb.neighbors[j] == if j == l then RemoveRef(old(nb.neighbors[j]), n) else old(nb.neighbors[j])
    {
      if l < |nb.neighbors| {
        nb.neighbors := nb.neighbors[l := RemoveRef(nb.neighbors[l], n)];
      }
    }

    lemma NotSelfListed(s: State, n: Node)
      requires HnswState.Valid(cfg, s) && n in s.adj
      ensures |s.adj[n]| == n.level + 1
      ensures forall l: nat :: l < |s.adj[n]| ==>
                NoDup(s.adj[n][l]) && n !in s.adj[n][l] && forall y :: y in s.adj[n][l] ==> y in s.adj
    {
      forall l: nat | l < |s.adj[n]|
        ensures NoDup(s.adj[n][l]) && n !in s.adj[n][l] && forall y :: y in s.adj[n][l] ==> y in s.adj
      {
        assert HnswLayer.WellFormed(LayerOf(s.adj, l), l, cfg.MaxConn(l));
        assert LayerOf(s.adj, l)[n] == s.adj[n][l];
      }
    }

    method DetachLayer(n: Node, l: nat, ghost a0: Adjacency)
      requires DetachedSome(a0, n, l, []) && l < |a0[n]|
      requires NoDup(a0[n][l]) && n !in a0[n][l] && forall y :: y in a0[n][l] ==> y in a0
      modifies universe
      ensures DetachedSome(a0, n, l + 1, []) && n.neighbors == old(n.neighbors)
    {
      var nbs := n.neighbors[l];
      for i := 0 to |nbs|
        invariant DetachedSome(a0, n, l, nbs[..i]) && n.neighbors == old(n.neighbors)
      {
        var nb := nbs[i];
        assert nb !in nbs[..i];
        Unlink(nb, n, l);
        assert nbs[..i + 1] == nbs[..i] + [nb];
      }
      assert nbs[..|nbs|] == nbs;
    }

    lemma DetachedEverywhere(a0: Adjacency, n: Node)
      requires n in a0 && DetachedSome(a0, n, |a0[n]|, [])
      ensures Adj() == DetachedAdj(a0, n)
    {
      forall x | x in universe ensures x.neighbors == DetachedAdj(a0, n)[x] { }
    }

    /** Promotes a remaining node with the highest level, scanning them in any order. */
    method PromoteEntry()
      requires forall x :: x in nodes.Values ==> x in universe
      modifies this`entry
      ensures entry == null <==> nodes == map[]
      ensures entry != null ==> entry in nodes.Values && forall x :: x in nodes.Values ==> x.level <= entry.level
    {
      entry := null;
      var rest := nodes.Values;
      while rest != {}
        invariant rest <= nodes.Values
        invariant entry == null ==> rest == nodes.Values
        invariant entry != null ==> entry in nodes.Values
        invariant forall x :: x in nodes.Values ==> x in rest || (entry != null && x.level <= entry.level)
      {
        var other :| other in rest;
        if entry == null || other.level > entry.level {
          entry := other;
        }
        rest := rest - {other};
      }
      if nodes != map[] {
        var id :| id in nodes;
        assert nodes[id] in nodes.Values;
      }
    }

    method RemoveNode(n: Node)
      requires Valid() && n.id in nodes && nodes[n.id] == n
      modifies this`nodes, this`entry, universe
      ensures Valid() && nodes == old(nodes) - {n.id}
      ensures Removed(old(Abs()), Abs(), n)
    {
      hide HnswState.Valid, Removed, DetachedAdj, DetachedSome, ValidEntry, NoDup;
      ghost var s := Abs();
      ValidShape(cfg, s);
      NotSelfListed(s, n);
      DetachAll(n, s.adj);
      DetachedEverywhere(s.adj, n);
      nodes := nodes - {n.id};
      LiveShrinks(s, Abs(), n);
      if entry == n {
        PromoteEntry();
        Promoted(Abs());
      }
      AssembleRemoved(s, Abs(), n);
      RemoveKeepsValid(cfg, s, Abs(), n);
    }

    method DetachAll(n: Node, ghost a0: Adjacency)
      requires Adj() == a0 && n in universe
      requires forall l: nat :: l < |a0[n]| ==>
                 NoDup(a0[n][l]) && n !in a0[n][l] && forall y :: y in a0[n][l] ==> y in a0
      modifies universe
      ensures DetachedSome(a0, n, |a0[n]|, [])
    {
      for l := 0 to |n.neighbors|
        invariant DetachedSome(a0, n, l, []) && n.neighbors == a0[n]
      {
        DetachLayer(n, l, a0);
      }
    }

    // ---------- public operations ----------

    /** Adds or replaces the vector of an id; `level` is the random level drawn for it. */
    method Add(id: Id, vec: Vec, level: nat)
      returns (r: Result<Node>, ghost mid: State, ghost search: map<nat, LayerSearch>)
      requires Valid()
      modifies this`dims, this`nodes, this`entry, this`universe, universe
      ensures Valid()
      ensures vec == [] <==> r == Err(EmptyQuery)
      ensures vec != [] && old(dims) != 0 && |vec| != old(dims) <==> r == Err(DimMismatch)
      ensures r.Ok? <==> vec != [] && (old(dims) == 0 || |vec| == old(dims))
      ensures r.Err? ==> Abs() == old(Abs()) && dims == old(dims) && universe == old(universe)
      ensures r.Ok? ==>
        && fresh(r.value) && r.value.id == id && r.value.vec == vec && r.value.level == level
        && dims == |vec| && universe == old(universe) + {r.value}
        && (if id in old(nodes) then Removed(old(Abs()), mid, old(nodes)[id]) else mid == old(Abs()))
        && Inserted(cfg, mid, Abs(), r.value, search)
    {
      mid, search := Abs(), map[];
      if |vec| == 0 {
        return Err(EmptyQuery), mid, search;
      }
      if dims == 0 {
        dims := |vec|;
      } else if |vec| != dims {
        return Err(DimMismatch), mid, search;
      }
      if id in nodes {
        RemoveNode(nodes[id]);
      }
      mid := Abs();
      var n;
      n, search := Insert(id, vec, level);
      r := Ok(n);
    }

    method Remove(id: Id)
      requires Valid()
      modifies this`nodes, this`entry, universe
      ensures Valid() && nodes == old(nodes) - {id}
      ensures if id in old(nodes) then Removed(old(Abs()), Abs(), old(nodes)[id]) else Abs() == old(Abs())
    {
      if id in nodes {
        RemoveNode(nodes[id]);
      }
    }

    method Search(query: Vec, k: int) returns (r: Result<seq<Hit>>)
      requires Valid()
      ensures query == [] ==> r == Err(EmptyQuery)
      ensures query != [] && nodes == map[] ==> r == Ok([])
      ensures query != [] && nodes != map[] && |query| != dims ==> r == Err(DimMismatch)
      ensures query != [] && nodes != map[] && |query| == dims && k <= 0 ==> r == Ok([])
      ensures query != [] && nodes != map[] && |query| == dims && k > 0 ==>
        entry != null && r.Ok? && exists ls :: Answered(cfg, Abs(), query, k, r.value, ls)
    {
      if |query| == 0 {
        return Err(EmptyQuery);
      }
      if |nodes| == 0 {
        return Ok([]);
      }
      NonEmptyIndex();
      hide HnswState.Valid, Answered;
      if dims != 0 && |query| != dims {
        return Err(DimMismatch);
      }
      if k <= 0 {
        return Ok([]);
      }
      ghost var ls;
      var cands;
      cands, ls := SearchFrom(query, k, entry);
      var hits := TakeHits(cands, k);
      assert Answered(cfg, Abs(), query, k, hits, ls);
      r := Ok(hits);
    }

    lemma NonEmptyIndex()
      requires Valid() && |nodes| > 0
      ensures nodes != map[] && entry != null && entry in universe && dims != 0
    {
      assert nodes != map[];
      assert entry in Abs().Live();
      assert entry in Adj();
    }

    /** The descent to layer 0 and the beam search there. */
    lemma BottomLayer(s: State)
      requires Valid() && s == Abs()
      ensures Reflects(s) && ClosedLayer(LayerOf(s.adj, 0)) && Shows(LayerOf(s.adj, 0), 0)
      ensures LayerOf(s.adj, 0).Keys == s.adj.Keys && cfg.efSearch >= 1
    {
      assert HnswLayer.WellFormed(LayerOf(s.adj, 0), 0, cfg.MaxConn(0));
    }

    method SearchFrom(query: Vec, k: nat, start: Node) returns (cands: seq<ScoredNode>, ghost ls: LayerSearch)
      requires Valid() && entry == start && start in universe
      ensures ls.cands == cands && Answered(cfg, Abs(), query, k, HitsOf(cands)[..Min(k, |cands|)], ls)
    {
      hide Valid, Beam, Entered, ClosedLayer, Shows, Reflects, LayerOf;
      ghost var s := Abs();
      ghost var L := LayerOf(s.adj, 0);
      BottomLayer(s);
      var ep := Descend(query, 0, start, s);
      var ef := cfg.efSearch;
      if k > ef {
        ef := k;
      }
      ghost var V;
      cands, V := SearchLayer(cfg.dist, ep, query, ef, 0, L);
      ls := LayerSearch(ep, V, cands);
    }

    method Size() returns (n: nat)
      ensures n == |nodes|
    {
      n := |nodes|;
    }
  }
}
