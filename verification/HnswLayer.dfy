/** What one insertion or removal does to one layer of the HNSW graph, and the
    properties of a layer that these changes keep. */
module HnswLayer {
  import opened Collections
  import opened HnswGraph

  // ---------- consequences of a beam search ----------

  /** A search at least as wide as its visited set is large drops nothing. */
  lemma BeamKeepsAll(L: Layer, dist: Metric, ep: Node, q: Vec, ef: int, V: set<Node>, out: seq<ScoredNode>)
    requires Beam(L, dist, ep, q, ef, V, out) && |V| <= ef
    ensures Elems(Nodes(out)) == V
  {
    var S := Elems(Nodes(out));
    forall x | x in S ensures x in V {
      var i :| 0 <= i < |out| && Nodes(out)[i] == x;
      assert out[i] in out;
    }
    NoDupSize(Nodes(out));
    SubsetSize(S, V);
    assert |out| < ef ==> S == V;
  }

  /** R is what can be reached from ep. */
  ghost predicate ReachableSet(L: Layer, ep: Node, R: set<Node>) {
    && ep in R
    && (forall x :: x in R ==> Reaches(L, ep, x))
    && forall x, y :: x in R && x in L && y in L[x] ==> y in R
  }

  /** A search at least as wide as the reachable set is large returns only nodes of it, at most
      one for each id and one for the id of every neighbour of a returned node. It returns
      exactly the reachable set if and only if ids tell the reachable nodes apart. */
  lemma BeamExact(L: Layer, dist: Metric, ep: Node, q: Vec, ef: int, V: set<Node>, out: seq<ScoredNode>, R: set<Node>)
    requires Beam(L, dist, ep, q, ef, V, out) && ReachableSet(L, ep, R) && |R| <= ef
    ensures Elems(Nodes(out)) == V <= R && DistinctIds(V)
    ensures forall x, y :: x in V && x in L && y in L[x] ==> y.id in Ids(V)
    ensures V == R <==> DistinctIds(R)
  {
    forall x | x in V ensures x in R {
      ReachesWithin(L, ep, x, R);
    }
    SubsetSize(V, R);
    BeamKeepsAll(L, dist, ep, q, ef, V, out);
    forall x, y | x in V && x in L && y in L[x] ensures y.id in Ids(V) {
      assert x in Elems(Nodes(out));
      var i :| 0 <= i < |out| && Nodes(out)[i] == x;
      assert out[i] in out && Expanded(L, Ids(V), x);
    }
    if DistinctIds(R) {
      ClosedByIds(L, ep, V, R);
    }
  }

  lemma ClosedByIds(L: Layer, ep: Node, V: set<Node>, R: set<Node>)
    requires ep in V && V <= R && ReachableSet(L, ep, R) && DistinctIds(R)
    requires forall x, y :: x in V && x in L && y in L[x] ==> y.id in Ids(V)
    ensures V == R
  {
    forall x, y | x in V && x in L && y in L[x] ensures y in V {
      var z :| z in V && z.id == y.id;
      assert z in R && y in R;
    }
    forall x | x in R ensures x in V {
      ReachesWithin(L, ep, x, V);
    }
  }

  /** For every neighbour nb of a returned node, a node with its id was visited: that one is
      returned itself, or the result is full and it is no nearer than anything returned. */
  lemma BeamClosureById(L: Layer, dist: Metric, ep: Node, q: Vec, ef: int, V: set<Node>, out: seq<ScoredNode>,
                        s: ScoredNode, nb: Node)
    requires Beam(L, dist, ep, q, ef, V, out) && s in out && s.node in L && nb in L[s.node]
    ensures exists y :: y in V && y.id == nb.id
              && (y in Nodes(out) || (|out| == ef && forall t :: t in out ==> t.dist <= dist(y.vec, q)))
  {
    assert Expanded(L, Ids(V), s.node);
    var y :| y in V && y.id == nb.id;
    assert y in Nodes(out) || (|out| == ef && forall t :: t in out ==> t.dist <= dist(y.vec, q));
  }

  /** So wherever ids are distinct on a closed part T of the layer, a neighbour of a returned
      node is itself returned, or the result is full and it is no nearer. */
  lemma BeamClosure(L: Layer, dist: Metric, ep: Node, q: Vec, ef: int, V: set<Node>, out: seq<ScoredNode>,
                    s: ScoredNode, nb: Node, T: set<Node>)
    requires Beam(L, dist, ep, q, ef, V, out) && s in out && s.node in L && nb in L[s.node]
    requires ep in T && DistinctIds(T) && forall x, y :: x in T && x in L && y in L[x] ==> y in T
    ensures nb in Nodes(out) || (|out| == ef && forall t :: t in out ==> t.dist <= dist(nb.vec, q))
  {
    BeamClosureById(L, dist, ep, q, ef, V, out, s, nb);
    forall x | x in V ensures x in T {
      ReachesWithin(L, ep, x, T);
    }
    assert s.node in T && nb in T;
  }

  /** Distinct ids are needed: of two nodes with one id, the second stays out of a result that
      has room for it and lists it. */
  lemma SharedIdHidesNeighbour(dist: Metric, q: Vec, ef: int, x: Node, nb: Node)
    requires x != nb && x.id == nb.id && ef >= 2
    ensures var L, out := map[x := [nb], nb := []], [ScoredNode(x, dist(x.vec, q))];
      && Beam(L, dist, x, q, ef, {x}, out) && nb in L[x] && nb !in Nodes(out) && |out| < ef
  {
    var L, out := map[x := [nb], nb := []], [ScoredNode(x, dist(x.vec, q))];
    ReachesSelf(L, x);
    assert Nodes(out)[0] == x;
    assert nb in {x} + Elems(L[x]) && x in {x} + Elems(L[x]);
    assert !DistinctIds({x} + Elems(L[x]));
    assert x.id in Ids({x});
  }

  // ---------- cliques ----------

  /** The nodes of S list exactly each other. */
  ghost predicate Clique(L: Layer, S: set<Node>) {
    forall x :: x in S ==>
      && x in L
      && NoDup(L[x])
      && (forall y :: y in L[x] ==> y in S && y != x)
      && (forall y :: y in S && y != x ==> y in L[x])
  }

  lemma CliqueDegree(L: Layer, S: set<Node>, x: Node)
    requires Clique(L, S) && x in S
    ensures |L[x]| == |S| - 1
  {
    NoDupSize(L[x]);
    assert Elems(L[x]) == S - {x};
  }

  /** Inside a clique a search of any width visits every node. */
  lemma CliqueVisited(L: Layer, S: set<Node>, dist: Metric, ep: Node, q: Vec, ef: int, V: set<Node>, out: seq<ScoredNode>)
    requires Clique(L, S) && DistinctIds(S) && ep in S
    requires Beam(L, dist, ep, q, ef, V, out)
    ensures V == S
  {
    forall x | x in V ensures x in S {
      ReachesWithin(L, ep, x, S);
    }
    var s := out[0];
    assert s in out && s.node in V && Expanded(L, Ids(V), s.node);
    forall y | y in S ensures y in V {
      if y != s.node {
        assert y in L[s.node];
        var z :| z in V && z.id == y.id;
      }
    }
  }

  // ---------- pruning and linking ----------

  /** `kept` is `list` trimmed to the max entries nearest to x. */
  ghost predicate Pruned(dist: Metric, x: Node, list: seq<Node>, kept: seq<Node>, max: int) {
    if |list| <= max then kept == list
    else
      && |kept| == max
      && NoDup(kept)
      && (forall y :: y in kept ==> y in list)
      && (forall y, z :: y in kept && z in list && z !in kept ==> dist(x.vec, y.vec) <= dist(x.vec, z.vec))
  }

  function Select(cands: seq<ScoredNode>, max: nat): (r: seq<Node>)
    ensures |r| <= max && forall y :: y in r ==> y in Nodes(cands)
    ensures NoDup(Nodes(cands)) ==> NoDup(r)
  {
    if |cands| > max then Nodes(cands)[..max] else Nodes(cands)
  }

  lemma BeamAscends(L: Layer, dist: Metric, ep: Node, q: Vec, ef: int, V: set<Node>, cands: seq<ScoredNode>)
    requires Beam(L, dist, ep, q, ef, V, cands)
    ensures var ns := Nodes(cands);
      NoDup(ns) && forall i, j :: 0 <= i < j < |ns| ==> dist(ns[i].vec, q) <= dist(ns[j].vec, q)
  {
    assert forall i :: 0 <= i < |cands| ==> cands[i] in cands;
  }

  /** From the candidates of a search the nearest are selected, as many as fit. */
  lemma SelectTakesNearest(L: Layer, dist: Metric, ep: Node, q: Vec, ef: int, V: set<Node>, cands: seq<ScoredNode>, max: nat)
    requires Beam(L, dist, ep, q, ef, V, cands)
    ensures |Select(cands, max)| == Min(max, |cands|)
    ensures forall y, z :: y in Select(cands, max) && z in Nodes(cands) && z !in Select(cands, max) ==>
      dist(y.vec, q) <= dist(z.vec, q)
  {
    hide Beam;
    BeamAscends(L, dist, ep, q, ef, V, cands);
    var sel := Select(cands, max);
    var rest := Nodes(cands)[|sel|..];
    assert Nodes(cands) == sel + rest;
    forall y, z | y in sel && z in Nodes(cands) && z !in sel ensures dist(y.vec, q) <= dist(z.vec, q) {
      var i :| 0 <= i < |sel| && sel[i] == y;
      var j :| 0 <= j < |rest| && rest[j] == z;
      assert Nodes(cands)[i] == y && Nodes(cands)[|sel| + j] == z;
    }
  }

  /** The layer after n was linked: n lists the selected candidates, each of them got n
      appended and was pruned, nobody else changed. */
  ghost predicate Linked(L: Layer, L': Layer, dist: Metric, n: Node, cands: seq<ScoredNode>, max: nat) {
    && n !in L
    && L'.Keys == L.Keys + {n}
    && L'[n] == Select(cands, max)
    && forall x :: x in L ==>
         if x in L'[n] then Pruned(dist, x, L[x] + [n], L'[x], max) else L'[x] == L[x]
  }

  // ---------- structural invariant of a layer ----------

  ghost predicate WellFormed(L: Layer, l: nat, max: int) {
    forall x :: x in L ==>
      && |L[x]| <= max
      && NoDup(L[x])
      && (x.level < l ==> L[x] == [])
      && forall y :: y in L[x] ==> y in L && y != x && y.level >= l
  }

  lemma LinkedKeepsWellFormed(L: Layer, L': Layer, dist: Metric, n: Node, cands: seq<ScoredNode>, l: nat, max: nat)
    requires WellFormed(L, l, max) && Linked(L, L', dist, n, cands, max)
    requires NoDup(Nodes(cands)) && forall y :: y in Nodes(cands) ==> y in L && y.level >= l
    requires n.level < l ==> cands == []
    ensures WellFormed(L', l, max)
  {
    forall x | x in L'
      ensures |L'[x]| <= max && NoDup(L'[x]) && (x.level < l ==> L'[x] == [])
      ensures forall y :: y in L'[x] ==> y in L' && y != x && y.level >= l
    {
      if x != n && x in L'[n] {
        assert forall y :: y in L[x] + [n] <==> y in L[x] || y == n;
        assert n !in L[x];
        assert x in Nodes(cands);
      }
    }
  }

  /** Whoever x no longer lists back met a full list of nearer nodes. */
  ghost predicate PrunedOnlyForNearer(L: Layer, dist: Metric, max: int) {
    forall x, y :: x in L && y in L && x in L[y] && y !in L[x] ==>
      |L[x]| == max && forall z :: z in L[x] ==> dist(x.vec, z.vec) <= dist(x.vec, y.vec)
  }

  lemma LinkedKeepsPruning(L: Layer, L': Layer, dist: Metric, n: Node, cands: seq<ScoredNode>, l: nat, max: nat)
    requires WellFormed(L, l, max) && Linked(L, L', dist, n, cands, max)
    requires PrunedOnlyForNearer(L, dist, max)
    ensures PrunedOnlyForNearer(L', dist, max)
  {
    forall x, y | x in L' && y in L' && x in L'[y] && y !in L'[x]
      ensures |L'[x]| == max && forall z :: z in L'[x] ==> dist(x.vec, z.vec) <= dist(x.vec, y.vec)
    {
      LinkedOneSided(L, L', dist, n, cands, l, max, x, y);
    }
  }

  lemma LinkedOneSided(L: Layer, L': Layer, dist: Metric, n: Node, cands: seq<ScoredNode>, l: nat, max: nat, x: Node, y: Node)
    requires WellFormed(L, l, max) && Linked(L, L', dist, n, cands, max)
    requires PrunedOnlyForNearer(L, dist, max)
    requires x in L' && y in L' && x in L'[y] && y !in L'[x]
    ensures |L'[x]| == max && forall z :: z in L'[x] ==> dist(x.vec, z.vec) <= dist(x.vec, y.vec)
  {
    assert forall w :: w in L && w in L'[n] ==> forall v :: v in L[w] + [n] <==> v in L[w] || v == n;
    // nobody listed n before, so y lists n only after n selected y
    assert x != n;
    if x in L'[n] {
      assert n in L[x] + [n];
      if y != n && y !in L[x] {
        // already one-sided before: the old list was full of nearer nodes
        assert x in L[y];
        assert |L[x] + [n]| > max;
        forall z | z in L'[x] ensures dist(x.vec, z.vec) <= dist(x.vec, y.vec) {
          if z == n {
            NoDupDrops(L[x], L'[x], n);
          }
        }
      }
    }
  }

  /** Keeping a newcomer in a list of the same length pushed someone else out. */
  lemma NoDupDrops(before: seq<Node>, kept: seq<Node>, n: Node)
    requires NoDup(before) && NoDup(kept) && |kept| == |before| && n in kept && n !in before
    ensures exists w :: w in before && w !in kept
  {
    if forall w :: w in before ==> w in kept {
      NoDupSize(before);
      NoDupSize(kept);
      assert Elems(before) <= Elems(kept) - {n};
      SubsetSize(Elems(before), Elems(kept) - {n});
      assert false;
    }
  }

  // ---------- only live nodes are listed ----------

  ghost predicate ListsOnly(L: Layer, live: set<Node>) {
    forall x, y :: x in live && x in L && y in L[x] ==> y in live
  }

  lemma LinkedKeepsLive(L: Layer, L': Layer, dist: Metric, n: Node, cands: seq<ScoredNode>, max: nat, live: set<Node>)
    requires Linked(L, L', dist, n, cands, max) && ListsOnly(L, live)
    requires forall y :: y in Nodes(cands) ==> y in live
    ensures ListsOnly(L', live + {n})
  {
    forall x, y | x in live + {n} && x in L' && y in L'[x] ensures y in live + {n} {
      if x != n && x in L'[n] {
        assert y in L[x] + [n];
      }
    }
  }

  lemma BeamStaysLive(L: Layer, dist: Metric, ep: Node, q: Vec, ef: int, V: set<Node>, out: seq<ScoredNode>, live: set<Node>)
    requires Beam(L, dist, ep, q, ef, V, out) && ep in live && ListsOnly(L, live)
    ensures V <= live && forall y :: y in Nodes(out) ==> y in live
  {
    forall x | x in V ensures x in live {
      ReachesWithin(L, ep, x, live);
    }
    forall y | y in Nodes(out) ensures y in live {
      var i :| 0 <= i < |out| && Nodes(out)[i] == y;
      assert out[i] in out;
    }
  }

  /** A clique with room for one more stays a clique when a node is linked into it. */
  lemma LinkedKeepsClique(L: Layer, L': Layer, dist: Metric, n: Node, ep: Node, ef: int, V: set<Node>,
                          cands: seq<ScoredNode>, max: nat, S: set<Node>)
    requires Clique(L, S) && DistinctIds(S) && ep in S && |S| <= max && |S| <= ef
    requires Beam(L, dist, ep, n.vec, ef, V, cands) && Linked(L, L', dist, n, cands, max)
    ensures Clique(L', S + {n})
  {
    CliqueVisited(L, S, dist, ep, n.vec, ef, V, cands);
    BeamKeepsAll(L, dist, ep, n.vec, ef, V, cands);
    NoDupSize(Nodes(cands));
    LinkedToAll(L, L', dist, n, cands, max, S);
  }

  lemma LinkedToAll(L: Layer, L': Layer, dist: Metric, n: Node, cands: seq<ScoredNode>, max: nat, S: set<Node>)
    requires Clique(L, S) && |S| <= max && Linked(L, L', dist, n, cands, max)
    requires NoDup(Nodes(cands)) && Elems(Nodes(cands)) == S && |cands| == |S|
    ensures Clique(L', S + {n})
  {
    var ns := Nodes(cands);
    assert L'[n] == ns;
    assert forall y :: y in ns <==> y in Elems(ns);
    forall x | x in S ensures L'[x] == L[x] + [n] {
      CliqueDegree(L, S, x);
      assert x in L'[n];
    }
    AppendToClique(L, L', n, S);
  }

  lemma AppendToClique(L: Layer, L': Layer, n: Node, S: set<Node>)
    requires Clique(L, S) && n !in S && n in L'
    requires NoDup(L'[n]) && forall y :: y in L'[n] <==> y in S
    requires forall x :: x in S ==> x in L' && L'[x] == L[x] + [n]
    ensures Clique(L', S + {n})
  {
    forall x | x in S ensures NoDup(L'[x]) && forall y :: y in L'[x] <==> y in S + {n} && y != x {
      assert n !in L[x];
      assert forall y :: y in L[x] + [n] <==> y in L[x] || y == n;
    }
  }

  // ---------- removal ----------

  /** removeRef: the list without the first occurrence of the target. */
  function RemoveRef<T(==)>(s: seq<T>, target: T): (r: seq<T>)
    ensures target !in s ==> r == s
    ensures forall x :: x in r ==> x in s
    ensures forall x :: x in s && x != target ==> x in r
    ensures NoDup(s) ==> NoDup(r) && target !in r
    ensures |r| <= |s|
  {
    if s == [] then []
    else if s[0] == target then s[1..]
    else
      var t := RemoveRef(s[1..], target);
      assert s == [s[0]] + s[1..];
      assert NoDup(s) ==> NoDup(s[1..]) by { if NoDup(s) { assert forall i :: 0 <= i < |s[1..]| ==> s[1..][i] == s[i + 1]; } }
      assert NoDup(s) ==> s[0] !in s[1..];
      [s[0]] + t
  }

  ghost function Detached(L: Layer, n: Node): Layer
    requires n in L
  {
    map x | x in L :: if x in L[n] then RemoveRef(L[x], n) else L[x]
  }

  /** Exactly the nodes that n did not list back keep their link to n. */
  lemma DetachedMembers(L: Layer, n: Node, l: nat, max: int, x: Node, y: Node)
    requires WellFormed(L, l, max) && n in L && x in L
    ensures y in Detached(L, n)[x] <==> y in L[x] && (y == n ==> x !in L[n])
  {
  }

}
