/** Loading an index from the store (internal/vectorindex/builder.go) and the two
    chunk-retrieval branches of LocalSearch (internal/search/local.go). */
module LocalSearch {
  import opened Collections
  import opened HnswGraph
  import opened HnswState
  import opened HnswExact
  import opened HnswIndex
  import Cosine
  import Ranking

  /** A chunk joined with its embedding. */
  datatype Row = Row(id: Id, content: string, vec: Vec)

  /** embeddings[model] are the rows AllChunkEmbeddings returns for the model; a chunk has
      at most one embedding. */
  datatype Store = Store(chunks: map<Id, string>, embeddings: map<string, seq<Row>>) {
    ghost predicate Valid() {
      forall model :: model in embeddings ==>
        && DistinctRows(embeddings[model])
        && forall r :: r in embeddings[model] ==> r.id in chunks && chunks[r.id] == r.content
    }

    function AllChunkEmbeddings(model: string): seq<Row> {
      if model in embeddings then embeddings[model] else []
    }
  }

  ghost predicate DistinctRows(rows: seq<Row>) {
    forall i, j :: 0 <= i < j < |rows| ==> rows[i].id != rows[j].id
  }

  // ---------- loading ----------

  /** The index holds exactly the non-empty vectors of the rows, under their chunk ids. */
  ghost predicate Holds(s: State, rows: seq<Row>) {
    && (forall r :: r in rows && r.vec != [] ==> r.id in s.nodes && s.nodes[r.id].vec == r.vec)
    && (forall id :: id in s.nodes ==> exists r :: r in rows && r.vec != [] && r.id == id)
  }

  ghost predicate SameLengths(rows: seq<Row>, dims: nat) {
    forall r :: r in rows && r.vec != [] ==> |r.vec| == dims
  }

  /** A level drawn at random. */
  method RandomLevel() returns (l: nat)
  {
    l := 0;
  }

  /** An Add under an id that is not there yet, at a random level. */
  method AddRow(idx: HNSW, row: Row) returns (ok: bool, ghost n: Node?, ghost search: map<nat, LayerSearch>)
    requires idx.Valid() && row.vec != [] && row.id !in idx.nodes
    modifies idx, idx.universe
    ensures idx.Valid() && fresh(idx.universe - old(idx.universe))
    ensures ok <==> old(idx.dims) == 0 || |row.vec| == old(idx.dims)
    ensures ok ==> n != null && idx.dims == |row.vec| && n.id == row.id && n.vec == row.vec
    ensures ok ==> Inserted(idx.cfg, old(idx.Abs()), idx.Abs(), n, search)
  {
    hide HnswState.Valid, Inserted, Removed;
    var level := RandomLevel();
    var added;
    ghost var mid;
    added, mid, search := idx.Add(row.id, row.vec, level);
    ok := added.Ok?;
    n := if ok then added.value else null;
  }

  method LoadRow(idx: HNSW, row: Row, ghost trace: seq<State>, ghost ops: seq<Op>)
    returns (ok: bool, ghost trace': seq<State>, ghost ops': seq<Op>)
    requires idx.Valid() && row.vec != [] && row.id !in idx.nodes
    requires AddHistory(idx.cfg, trace, ops, idx.Abs())
    modifies idx, idx.universe
    ensures idx.Valid() && fresh(idx.universe - old(idx.universe))
    ensures ok <==> old(idx.dims) == 0 || |row.vec| == old(idx.dims)
    ensures ok ==> idx.dims == |row.vec| && row.id in idx.nodes && idx.nodes[row.id].vec == row.vec
    ensures ok ==> idx.nodes == old(idx.nodes)[row.id := idx.nodes[row.id]]
    ensures ok ==> AddHistory(idx.cfg, trace', ops', idx.Abs())
    ensures ok ==> |ops'| == |ops| + 1 && OpIds(ops') == OpIds(ops) + [row.id]
  {
    hide HnswState.Valid, AddHistory, Inserted;
    ghost var s := idx.Abs();
    ghost var n, search;
    ok, n, search := AddRow(idx, row);
    trace', ops' := trace, ops;
    if ok {
      trace', ops' := Recorded(idx.cfg, trace, ops, s, idx.Abs(), n, search);
      InsertedNodes(idx.cfg, s, idx.Abs(), n, search);
    }
  }

  lemma InsertedNodes(cfg: Config, s: State, s': State, n: Node, search: map<nat, LayerSearch>)
    requires Inserted(cfg, s, s', n, search)
    ensures s'.nodes == s.nodes[n.id := n]
  {
  }

  ghost predicate LengthsDiffer(rows: seq<Row>) {
    exists x, y :: x in rows && y in rows && x.vec != [] && y.vec != [] && |x.vec| != |y.vec|
  }

  /** The ids that the calls of a run concern, in order. */
  ghost function OpIds(ops: seq<Op>): (r: seq<Id>)
    ensures |r| == |ops| && forall i :: 0 <= i < |r| ==> r[i] == ops[i].n.id
  {
    seq(|ops|, i requires 0 <= i < |ops| => ops[i].n.id)
  }

  /** The chunk ids of the rows with a vector, in order. */
  function RowIds(rows: seq<Row>): seq<Id> {
    if rows == [] then []
    else
      var r := rows[|rows| - 1];
      RowIds(rows[..|rows| - 1]) + if r.vec != [] then [r.id] else []
  }

  /** The first rows are in the index, which has seen nothing but them, one by one. */
  ghost predicate Loaded(idx: HNSW, rows: seq<Row>, trace: seq<State>, ops: seq<Op>)
    reads idx, idx.universe
  {
    && idx.Valid() && Holds(idx.Abs(), rows) && SameLengths(rows, idx.dims)
    && (idx.dims != 0 ==> exists x :: x in rows && |x.vec| == idx.dims)
    && AddHistory(idx.cfg, trace, ops, idx.Abs()) && |ops| <= |rows| && OpIds(ops) == RowIds(rows)
  }

  method LoadNext(idx: HNSW, rows: seq<Row>, i: nat, ghost trace: seq<State>, ghost ops: seq<Op>)
    returns (ok: bool, ghost trace': seq<State>, ghost ops': seq<Op>)
    requires DistinctRows(rows) && i < |rows| && Loaded(idx, rows[..i], trace, ops)
    modifies idx, idx.universe
    ensures fresh(idx.universe - old(idx.universe))
    ensures if ok then Loaded(idx, rows[..i + 1], trace', ops') else LengthsDiffer(rows)
  {
    hide HnswState.Valid, AddHistory, Holds, SameLengths, RowIds, HNSW.Valid;
    ok, trace', ops' := true, trace, ops;
    RowsOneMore(rows, i);
    if |rows[i].vec| != 0 {
      FreshRow(idx.Abs(), rows, i);
      ghost var s, dims := idx.Abs(), idx.dims;
      ok, trace', ops' := LoadRow(idx, rows[i], trace, ops);
      if ok {
        HoldsOneMore(s, idx.Abs(), rows, i);
        LengthsOneMore(rows, i, dims, idx.dims);
      } else {
        TwoLengths(rows, i, dims);
      }
    } else {
      HoldsSame(idx.Abs(), rows, i);
      LengthsOneMore(rows, i, idx.dims, idx.dims);
    }
  }

  lemma FreshRow(s: State, rows: seq<Row>, i: nat)
    requires DistinctRows(rows) && i < |rows| && Holds(s, rows[..i])
    ensures rows[i].id !in s.nodes
  {
  }

  lemma RowsOneMore(rows: seq<Row>, i: nat)
    requires DistinctRows(rows) && i < |rows|
    ensures rows[i] in rows[..i + 1] && forall r :: r in rows[..i] ==> r in rows[..i + 1] && r.id != rows[i].id
    ensures RowIds(rows[..i + 1]) == RowIds(rows[..i]) + if rows[i].vec != [] then [rows[i].id] else []
  {
    assert rows[..i + 1] == rows[..i] + [rows[i]] && rows[..i + 1][..i] == rows[..i];
  }

  lemma LengthsOneMore(rows: seq<Row>, i: nat, dims: nat, dims': nat)
    requires i < |rows| && SameLengths(rows[..i], dims) && (dims == 0 || dims == dims')
    requires rows[i].vec == [] || |rows[i].vec| == dims'
    ensures SameLengths(rows[..i + 1], dims')
  {
    assert rows[..i + 1] == rows[..i] + [rows[i]];
  }

  lemma TwoLengths(rows: seq<Row>, i: nat, dims: nat)
    requires i < |rows| && rows[i].vec != [] && dims != 0 && |rows[i].vec| != dims
    requires exists x :: x in rows[..i] && |x.vec| == dims
    ensures LengthsDiffer(rows)
  {
    var x :| x in rows[..i] && |x.vec| == dims;
    assert x in rows && rows[i] in rows;
  }

  lemma HoldsSame(s: State, rows: seq<Row>, i: nat)
    requires i < |rows| && Holds(s, rows[..i]) && rows[i].vec == []
    ensures Holds(s, rows[..i + 1])
  {
    assert rows[..i + 1] == rows[..i] + [rows[i]];
  }

  /** Adds the rows one by one to a fresh default index; fails exactly when two of the
      non-empty vectors differ in length. The history is an Add-only run of the index. */
  method BuildFromRows(dist: Metric, rows: seq<Row>)
    returns (r: Result<HNSW>, ghost trace: seq<State>, ghost ops: seq<Op>)
    requires DistinctRows(rows)
    ensures r.Ok? ==> fresh(r.value) && fresh(r.value.universe)
    ensures r.Ok? ==> r.value.cfg == Config(16, 200, 50, dist) && Loaded(r.value, rows, trace, ops)
    ensures r.Err? <==> LengthsDiffer(rows)
  {
    var idx := new HNSW(16, 200, 50, dist);
    trace, ops := [idx.Abs()], [];
    for i := 0 to |rows|
      invariant idx.cfg == Config(16, 200, 50, dist) && fresh(idx) && fresh(idx.universe)
      invariant Loaded(idx, rows[..i], trace, ops)
    {
      hide Loaded;
      var ok;
      ok, trace, ops := LoadNext(idx, rows, i, trace, ops);
      if !ok {
        r := Err(DimMismatch);
        return;
      }
    }
    assert rows[..|rows|] == rows;
    r := Ok(idx);
  }

  lemma HoldsOneMore(s: State, s': State, rows: seq<Row>, i: nat)
    requires DistinctRows(rows) && i < |rows| && Holds(s, rows[..i]) && rows[i].vec != []
    requires rows[i].id in s'.nodes && s'.nodes == s.nodes[rows[i].id := s'.nodes[rows[i].id]]
    requires s'.nodes[rows[i].id].vec == rows[i].vec
    ensures Holds(s', rows[..i + 1])
  {
    assert rows[..i + 1] == rows[..i] + [rows[i]];
    forall r | r in rows[..i + 1] && r.vec != [] ensures r.id in s'.nodes && s'.nodes[r.id].vec == r.vec {
      if r in rows[..i] {
        var j :| 0 <= j < i && rows[j] == r;
        assert rows[j].id != rows[i].id;
      }
    }
  }

  /** models are the model ids of the stored embeddings, most used first. */
  method BuildFromStore(dist: Metric, st: Store, models: seq<string>)
    returns (r: Result<HNSW>, ghost trace: seq<State>, ghost ops: seq<Op>)
    requires st.Valid()
    ensures r.Ok? ==> fresh(r.value) && fresh(r.value.universe) && r.value.cfg == Config(16, 200, 50, dist)
    ensures r.Ok? ==> Loaded(r.value, if models == [] then [] else st.AllChunkEmbeddings(models[0]), trace, ops)
    ensures r.Err? <==> models != [] && LengthsDiffer(st.AllChunkEmbeddings(models[0]))
  {
    var rows := if models == [] then [] else st.AllChunkEmbeddings(models[0]);
    r, trace, ops := BuildFromRows(dist, rows);
  }

  // ---------- when the index ranks like the scan ----------

  function Similarities(root: real -> real, q: Vec, rows: seq<Row>): (r: seq<real>)
    requires Cosine.SquareRoot(root)
    ensures |r| == |rows|
    ensures forall i :: 0 <= i < |r| ==> r[i] == Cosine.Similarity(root, q, rows[i].vec)
  {
    seq(|rows|, i requires 0 <= i < |rows| => Cosine.Similarity(root, q, rows[i].vec))
  }

  /** A complete layer 0 over exactly the rows' vectors, under the cosine metric. */
  ghost predicate Complete(root: real -> real, cfg: Config, s: State, rows: seq<Row>)
    requires Cosine.SquareRoot(root)
  {
    && HnswState.Valid(cfg, s) && ListsOnlyLive(s) && CliqueAt(s, 0)
    && cfg.dist == Cosine.Metric(root)
    && DistinctRows(rows) && Holds(s, rows)
    && forall r :: r in rows ==> r.vec != []
  }

  /** At most 33 vectors, loaded in any order and at any random levels, make the index complete. */
  lemma SmallHistoryComplete(root: real -> real, cfg: Config, s: State, rows: seq<Row>, trace: seq<State>, ops: seq<Op>)
    requires Cosine.SquareRoot(root) && cfg == Config(16, 200, 50, Cosine.Metric(root))
    requires AddHistory(cfg, trace, ops, s) && |ops| <= |rows| <= 33
    requires DistinctRows(rows) && Holds(s, rows) && forall r :: r in rows ==> r.vec != []
    ensures Complete(root, cfg, s, rows)
  {
    RunValid(cfg, trace, ops);
    AddRunsListOnlyLive(cfg, trace, ops);
    SmallAddRunsComplete(cfg, trace, ops);
  }

  lemma RowNodes(s: State, rows: seq<Row>, cfg: Config) returns (xs: seq<Node>)
    requires HnswState.Valid(cfg, s) && DistinctRows(rows) && Holds(s, rows)
    requires forall r :: r in rows ==> r.vec != []
    ensures NoDup(xs) && Elems(xs) == s.Live() && |xs| == |rows|
    ensures forall i :: 0 <= i < |xs| ==> xs[i].vec == rows[i].vec
  {
    assert forall i :: 0 <= i < |rows| ==> rows[i] in rows;
    xs := seq(|rows|, i requires 0 <= i < |rows| => s.nodes[rows[i].id]);
    forall x | x in s.Live() ensures x in Elems(xs) {
      var id :| id in s.nodes && s.nodes[id] == x;
      var i :| 0 <= i < |rows| && rows[i].id == id;
      assert xs[i] == x;
    }
  }

  lemma NodeScoresAreSimilarities(root: real -> real, dist: Metric, q: Vec, xs: seq<Node>, rows: seq<Row>)
    requires Cosine.SquareRoot(root) && dist == Cosine.Metric(root) && |xs| == |rows|
    requires forall i :: 0 <= i < |xs| ==> xs[i].vec == rows[i].vec && |rows[i].vec| == |q|
    ensures NodeScores(dist, q, xs) == Similarities(root, q, rows)
  {
    forall i | 0 <= i < |rows| ensures NodeScores(dist, q, xs)[i] == Cosine.Similarity(root, q, rows[i].vec) {
      Cosine.SimilarityFromDistance(root, rows[i].vec, q);
    }
  }

  lemma HitIsRow(root: real -> real, cfg: Config, s: State, rows: seq<Row>, q: Vec, h: Hit)
    requires Cosine.SquareRoot(root) && cfg.dist == Cosine.Metric(root) && Holds(s, rows)
    requires forall r :: r in rows && r.vec != [] ==> |r.vec| == |q|
    requires h.id in s.nodes && h.score == 1.0 - cfg.dist(s.nodes[h.id].vec, q)
    ensures exists r :: r in rows && r.id == h.id && h.score == Cosine.Similarity(root, q, r.vec)
  {
    var r :| r in rows && r.vec != [] && r.id == h.id;
    Cosine.SimilarityFromDistance(root, r.vec, q);
  }

  /** On a complete index every answered search has the scores of the brute-force scan. */
  lemma CompleteRanksLikeScan(root: real -> real, cfg: Config, s: State, rows: seq<Row>, q: Vec, k: nat,
                              hits: seq<Hit>, ls: LayerSearch)
    requires Cosine.SquareRoot(root) && Complete(root, cfg, s, rows)
    requires SameLengths(rows, |q|) && s.entry != null && Answered(cfg, s, q, k, hits, ls)
    ensures Scores(hits) == Ranking.Top(Similarities(root, q, rows), k)
    ensures forall h :: h in hits ==> exists r :: r in rows && r.id == h.id && h.score == Cosine.Similarity(root, q, r.vec)
  {
    var xs := RowNodes(s, rows, cfg);
    assert forall i :: 0 <= i < |rows| ==> rows[i] in rows;
    NodeScoresAreSimilarities(root, cfg.dist, q, xs, rows);
    hide HnswState.Valid, Answered, CliqueAt, ListsOnlyLive;
    CompleteSearchExact(cfg, s, q, k, hits, ls, xs);
    forall h | h in hits
      ensures exists r :: r in rows && r.id == h.id && h.score == Cosine.Similarity(root, q, r.vec)
    {
      HitIsRow(root, cfg, s, rows, q, h);
    }
  }

  // ---------- retrieving chunks ----------

  datatype ChunkResult = ChunkResult(id: Id, content: string, score: real)

  function ResultScores(rs: seq<ChunkResult>): (r: seq<real>)
    ensures |r| == |rs|
    ensures forall i :: 0 <= i < |r| ==> r[i] == rs[i].score
  {
    seq(|rs|, i requires 0 <= i < |rs| => rs[i].score)
  }

  /** Each result is a stored chunk of the model with its similarity to the query. */
  ghost predicate FromRows(root: real -> real, q: Vec, rows: seq<Row>, rs: seq<ChunkResult>)
    requires Cosine.SquareRoot(root)
  {
    forall c :: c in rs ==> exists r :: r in rows && c == ChunkResult(r.id, r.content, Cosine.Similarity(root, q, r.vec))
  }

  /** The k best chunks, best first. */
  ghost predicate IsTopK(root: real -> real, q: Vec, rows: seq<Row>, k: nat, rs: seq<ChunkResult>)
    requires Cosine.SquareRoot(root)
  {
    && ResultScores(rs) == Ranking.Top(Similarities(root, q, rows), k)
    && FromRows(root, q, rows, rs)
    && (DistinctRows(rows) ==> DistinctResults(rs))
  }

  ghost predicate DistinctResults(rs: seq<ChunkResult>) {
    forall i, j :: 0 <= i < j < |rs| ==> rs[i].id != rs[j].id
  }

  /** Rearranging results keeps their ids distinct. */
  lemma PermutedDistinct(all: seq<ChunkResult>, sorted: seq<ChunkResult>)
    requires multiset(sorted) == multiset(all) && DistinctResults(all)
    ensures DistinctResults(sorted)
  {
    forall i, j | 0 <= i < j < |sorted| ensures sorted[i].id != sorted[j].id {
      assert sorted[i] in multiset(sorted) && sorted[j] in multiset(sorted);
      var a :| 0 <= a < |all| && all[a] == sorted[i];
      var b :| 0 <= b < |all| && all[b] == sorted[j];
      Ranking.CountOnce(all, sorted[i]);
      if a == b {
        Ranking.CountTwice(sorted, i, j);
      }
    }
  }

  ghost predicate DescendingResults(rs: seq<ChunkResult>) {
    forall i, j :: 0 <= i < j < |rs| ==> rs[i].score >= rs[j].score
  }

  method InsertByScore(sorted: seq<ChunkResult>, x: ChunkResult) returns (r: seq<ChunkResult>)
    requires DescendingResults(sorted)
    ensures DescendingResults(r) && multiset(r) == multiset(sorted) + multiset{x}
  {
    var p := 0;
    while p < |sorted| && sorted[p].score >= x.score
      invariant 0 <= p <= |sorted|
      invariant forall j :: 0 <= j < p ==> sorted[j].score >= x.score
    {
      p := p + 1;
    }
    OneInserted(sorted, p, x);
    DescendsAround(sorted, sorted[..p] + [x] + sorted[p..], p, x);
    r := sorted[..p] + [x] + sorted[p..];
  }

  lemma DescendsAround(sorted: seq<ChunkResult>, r: seq<ChunkResult>, p: nat, x: ChunkResult)
    requires DescendingResults(sorted) && p <= |sorted| && |r| == |sorted| + 1
    requires (forall j :: 0 <= j < p ==> sorted[j].score >= x.score) && (p < |sorted| ==> sorted[p].score < x.score)
    requires (forall i :: 0 <= i < p ==> r[i] == sorted[i]) && r[p] == x && forall i :: p < i < |r| ==> r[i] == sorted[i - 1]
    ensures DescendingResults(r)
  {
    forall i, j | 0 <= i < j < |r| ensures r[i].score >= r[j].score {
      var a, b := if i < p then i else i - 1, if j < p then j else j - 1;
      if i == p {
        assert r[i] == x && r[j] == sorted[b] && p <= b;
        assert p < b ==> sorted[p].score >= sorted[b].score;
      } else if j == p {
        assert r[i] == sorted[a] && r[j] == x;
      } else {
        assert r[i] == sorted[a] && r[j] == sorted[b] && 0 <= a < b;
      }
    }
  }

  /** sort.Slice by descending score, here by insertion. */
  method SortByScore(rs: seq<ChunkResult>) returns (sorted: seq<ChunkResult>)
    ensures DescendingResults(sorted) && multiset(sorted) == multiset(rs)
  {
    sorted := [];
    for i := 0 to |rs|
      invariant DescendingResults(sorted) && multiset(sorted) == multiset(rs[..i])
    {
      assert rs[..i + 1] == rs[..i] + [rs[i]];
      sorted := InsertByScore(sorted, rs[i]);
    }
    assert rs[..|rs|] == rs;
  }

  lemma {:induction false} ScoresPermute(xs: seq<ChunkResult>, ys: seq<ChunkResult>)
    requires multiset(xs) == multiset(ys)
    ensures multiset(ResultScores(xs)) == multiset(ResultScores(ys))
    decreases |xs|
  {
    assert |xs| == |multiset(xs)| == |ys|;
    if xs != [] {
      var j := Ranking.SameHead(xs, ys);
      ScoresTakeOut(xs, 0);
      ScoresTakeOut(ys, j);
      ScoresPermute(xs[..0] + xs[1..], ys[..j] + ys[j + 1..]);
    }
  }

  lemma ScoresTakeOut(xs: seq<ChunkResult>, j: nat)
    requires j < |xs|
    ensures multiset(ResultScores(xs)) == multiset{xs[j].score} + multiset(ResultScores(xs[..j] + xs[j + 1..]))
  {
    var sx := ResultScores(xs);
    assert ResultScores(xs[..j] + xs[j + 1..]) == sx[..j] + sx[j + 1..];
    Ranking.TakeOut(sx, j);
  }

  /** The brute-force scan: score every row, sort, take the first topK. */
  method Scan(root: real -> real, q: Vec, rows: seq<Row>, topK: nat) returns (rs: seq<ChunkResult>)
    requires Cosine.SquareRoot(root)
    ensures IsTopK(root, q, rows, topK, rs)
  {
    var all: seq<ChunkResult> := [];
    for i := 0 to |rows|
      invariant |all| == i
      invariant forall j :: 0 <= j < i ==>
        all[j] == ChunkResult(rows[j].id, rows[j].content, Cosine.Similarity(root, q, rows[j].vec))
    {
      var s := Cosine.CosineSimilarity(root, q, rows[i].vec);
      all := all + [ChunkResult(rows[i].id, rows[i].content, s)];
    }
    var sorted := SortByScore(all);
    var n := topK;
    if topK > |sorted| {
      n := |sorted|;
    }
    rs := sorted[..n];
    SortedIsTopK(root, q, rows, all, sorted, topK);
  }

  lemma SortedIsTopK(root: real -> real, q: Vec, rows: seq<Row>, all: seq<ChunkResult>, sorted: seq<ChunkResult>, k: nat)
    requires Cosine.SquareRoot(root) && |all| == |rows|
    requires forall j :: 0 <= j < |all| ==>
               all[j] == ChunkResult(rows[j].id, rows[j].content, Cosine.Similarity(root, q, rows[j].vec))
    requires DescendingResults(sorted) && multiset(sorted) == multiset(all)
    ensures |sorted| == |rows| && IsTopK(root, q, rows, k, sorted[..Min(k, |rows|)])
  {
    assert |sorted| == |multiset(sorted)| == |all|;
    assert ResultScores(all) == Similarities(root, q, rows);
    ScoresPermute(sorted, all);
    Ranking.SortDescends(Similarities(root, q, rows));
    Ranking.DescendingUnique(ResultScores(sorted), Ranking.SortDesc(Similarities(root, q, rows)));
    if DistinctRows(rows) {
      PermutedDistinct(all, sorted);
    }
    var rs := sorted[..Min(k, |rows|)];
    assert ResultScores(rs) == ResultScores(sorted)[..Min(k, |rows|)];
    forall c | c in rs
      ensures exists r :: r in rows && c == ChunkResult(r.id, r.content, Cosine.Similarity(root, q, r.vec))
    {
      assert c in multiset(sorted);
      assert c in multiset(all);
      var j :| 0 <= j < |all| && all[j] == c;
      assert rows[j] in rows;
    }
  }

  /** Each hit that still names a stored chunk becomes a result. */
  /** The chunks the hits name, in hit order, each with its hit's score; a hit whose chunk is
      gone is skipped. */
  function ChunksOf(chunks: map<Id, string>, hits: seq<Hit>): seq<ChunkResult> {
    if hits == [] then []
    else
      var h := hits[|hits| - 1];
      ChunksOf(chunks, hits[..|hits| - 1])
      + if h.id in chunks then [ChunkResult(h.id, chunks[h.id], h.score)] else []
  }

  /** Nothing but chunks of hits, and every one of them. */
  lemma {:induction false} ChunksOfMembers(chunks: map<Id, string>, hits: seq<Hit>)
    ensures forall c :: c in ChunksOf(chunks, hits) <==>
      c.id in chunks && c.content == chunks[c.id] && Hit(c.id, c.score) in hits
  {
    if hits != [] {
      ChunksOfMembers(chunks, hits[..|hits| - 1]);
      assert hits == hits[..|hits| - 1] + [hits[|hits| - 1]];
    }
  }

  lemma {:induction false} ChunksOfKnown(chunks: map<Id, string>, hits: seq<Hit>)
    requires forall h :: h in hits ==> h.id in chunks
    ensures |ChunksOf(chunks, hits)| == |hits|
    ensures forall i :: 0 <= i < |hits| ==>
      hits[i].id in chunks && ChunksOf(chunks, hits)[i] == ChunkResult(hits[i].id, chunks[hits[i].id], hits[i].score)
  {
    if hits != [] {
      ChunksOfKnown(chunks, hits[..|hits| - 1]);
      assert hits == hits[..|hits| - 1] + [hits[|hits| - 1]];
    }
  }

  method LookUp(st: Store, hits: seq<Hit>) returns (rs: seq<ChunkResult>)
    ensures rs == ChunksOf(st.chunks, hits)
  {
    rs := [];
    for i := 0 to |hits|
      invariant rs == ChunksOf(st.chunks, hits[..i])
    {
      assert hits[..i + 1][..i] == hits[..i];
      if hits[i].id in st.chunks {
        rs := rs + [ChunkResult(hits[i].id, st.chunks[hits[i].id], hits[i].score)];
      }
    }
    assert hits[..|hits|] == hits;
  }

  /** What chunk retrieval comes to; slicing the scores at a negative topK panics. */
  datatype Retrieval = Chunks(value: seq<ChunkResult>) | Failed(error: Error) | Panicked

  /** Chunk retrieval of LocalSearch: through the index when it is there and non-empty,
      else by the scan over the embeddings of the query's model. */
  method RetrieveChunks(root: real -> real, st: Store, idx: HNSW?, model: string, q: Vec, topK: int)
    returns (r: Retrieval)
    requires Cosine.SquareRoot(root) && st.Valid() && (idx != null ==> idx.Valid())
    ensures idx == null || idx.nodes == map[] ==>
      if topK < 0 then r.Panicked?
      else r.Chunks? && IsTopK(root, q, st.AllChunkEmbeddings(model), topK, r.value)
    ensures idx != null && idx.nodes != map[] ==> !r.Panicked? && (r.Failed? <==> q == [] || |q| != idx.dims)
    ensures idx != null && idx.nodes != map[] && r.Chunks? && topK <= 0 ==> r.value == []
    ensures idx != null && idx.nodes != map[] && r.Chunks? && topK > 0 ==>
      idx.entry != null && exists hits, ls ::
        Answered(idx.cfg, idx.Abs(), q, topK, hits, ls) && r.value == ChunksOf(st.chunks, hits)
    ensures idx != null && idx.nodes != map[] && r.Chunks? && topK >= 0
            && Complete(root, idx.cfg, idx.Abs(), st.AllChunkEmbeddings(model))
            && SameLengths(st.AllChunkEmbeddings(model), idx.dims) ==>
      IsTopK(root, q, st.AllChunkEmbeddings(model), topK, r.value)
  {
    var size := 0;
    if idx != null {
      size := idx.Size();
    }
    if size > 0 {
      assert idx.nodes != map[];
      idx.NonEmptyIndex();
      r := RetrieveFromIndex(root, st, idx, model, q, topK);
    } else if topK < 0 {
      r := Panicked;
    } else {
      var rs := Scan(root, q, st.AllChunkEmbeddings(model), topK);
      r := Chunks(rs);
    }
  }

  method RetrieveFromIndex(root: real -> real, st: Store, idx: HNSW, model: string, q: Vec, topK: int)
    returns (r: Retrieval)
    requires Cosine.SquareRoot(root) && st.Valid() && idx.Valid() && idx.nodes != map[] && idx.entry != null
    ensures !r.Panicked? && (r.Failed? <==> q == [] || |q| != idx.dims)
    ensures r.Chunks? && topK <= 0 ==> r.value == []
    ensures r.Chunks? && topK > 0 ==> exists hits, ls ::
      Answered(idx.cfg, idx.Abs(), q, topK, hits, ls) && r.value == ChunksOf(st.chunks, hits)
    ensures r.Chunks? && topK >= 0 && Complete(root, idx.cfg, idx.Abs(), st.AllChunkEmbeddings(model))
            && SameLengths(st.AllChunkEmbeddings(model), idx.dims) ==>
      IsTopK(root, q, st.AllChunkEmbeddings(model), topK, r.value)
  {
    hide HnswState.Valid, Answered, Complete;
    var found := idx.Search(q, topK);
    if found.Err? {
      return Failed(found.error);
    }
    var rs := LookUp(st, found.value);
    r := Chunks(rs);
    ghost var rows := st.AllChunkEmbeddings(model);
    if topK >= 0 && Complete(root, idx.cfg, idx.Abs(), rows) && SameLengths(rows, idx.dims) {
      IndexBranchRanks(root, st, idx.cfg, idx.Abs(), model, q, topK, found.value, rs);
    }
  }

  lemma IndexBranchRanks(root: real -> real, st: Store, cfg: Config, s: State, model: string, q: Vec, k: nat,
                         hits: seq<Hit>, rs: seq<ChunkResult>)
    requires Cosine.SquareRoot(root) && st.Valid() && Complete(root, cfg, s, st.AllChunkEmbeddings(model))
    requires SameLengths(st.AllChunkEmbeddings(model), |q|) && s.entry != null
    requires (k == 0 && hits == []) || exists ls :: Answered(cfg, s, q, k, hits, ls)
    requires rs == ChunksOf(st.chunks, hits)
    ensures IsTopK(root, q, st.AllChunkEmbeddings(model), k, rs)
  {
    hide Complete, Answered, IsTopK;
    if hits != [] || k != 0 {
      var ls :| Answered(cfg, s, q, k, hits, ls);
      CompleteRanksLikeScan(root, cfg, s, st.AllChunkEmbeddings(model), q, k, hits, ls);
      HitsDistinct(cfg, s, q, k, hits, ls);
    }
    HitsToResults(root, q, st.AllChunkEmbeddings(model), st.chunks, k, hits, rs);
  }

  /** Best-scored hits of distinct rows become best-scored chunks. */
  lemma HitsToResults(root: real -> real, q: Vec, rows: seq<Row>, chunks: map<Id, string>, k: nat, hits: seq<Hit>,
                      rs: seq<ChunkResult>)
    requires Cosine.SquareRoot(root) && Scores(hits) == Ranking.Top(Similarities(root, q, rows), k)
    requires forall h :: h in hits ==> exists r :: r in rows && r.id == h.id && h.score == Cosine.Similarity(root, q, r.vec)
    requires forall i, j :: 0 <= i < j < |hits| ==> hits[i].id != hits[j].id
    requires forall r :: r in rows ==> r.id in chunks && chunks[r.id] == r.content
    requires rs == ChunksOf(chunks, hits)
    ensures IsTopK(root, q, rows, k, rs)
  {
    forall h | h in hits ensures h.id in chunks {
      var r :| r in rows && r.id == h.id && h.score == Cosine.Similarity(root, q, r.vec);
    }
    ChunksOfKnown(chunks, hits);
    assert ResultScores(rs) == Scores(hits);
    hide ChunksOf;
    forall c | c in rs
      ensures exists r :: r in rows && c == ChunkResult(r.id, r.content, Cosine.Similarity(root, q, r.vec))
    {
      var i :| 0 <= i < |rs| && rs[i] == c;
      var r :| r in rows && r.id == hits[i].id && hits[i].score == Cosine.Similarity(root, q, r.vec);
      assert c == ChunkResult(r.id, r.content, Cosine.Similarity(root, q, r.vec));
    }
  }

  /** With at most 33 non-empty vectors of the query's length, an index built from the store
      and the brute-force scan return the same scores. */
  method BranchesAgree(root: real -> real, st: Store, model: string, q: Vec, topK: nat)
    returns (viaIndex: seq<ChunkResult>, viaScan: seq<ChunkResult>)
    requires Cosine.SquareRoot(root) && st.Valid() && q != []
    requires |st.AllChunkEmbeddings(model)| <= 33
    requires forall r :: r in st.AllChunkEmbeddings(model) ==> |r.vec| == |q|
    ensures IsTopK(root, q, st.AllChunkEmbeddings(model), topK, viaScan)
    ensures IsTopK(root, q, st.AllChunkEmbeddings(model), topK, viaIndex)
    ensures ResultScores(viaIndex) == ResultScores(viaScan)
  {
    hide IsTopK, Complete, HnswState.Valid;
    ghost var rows := st.AllChunkEmbeddings(model);
    var built;
    ghost var trace, ops;
    built, trace, ops := BuildFromStore(Cosine.Metric(root), st, [model]);
    var idx := built.value;
    SmallHistoryComplete(root, idx.cfg, idx.Abs(), rows, trace, ops);
    if rows != [] {
      assert rows[0] in rows;
    }
    var a := RetrieveChunks(root, st, idx, model, q, topK);
    var b := RetrieveChunks(root, st, null, model, q, topK);
    viaIndex, viaScan := a.value, b.value;
  }

}
