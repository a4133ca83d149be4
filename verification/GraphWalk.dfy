/** The relationship walks of internal/store/store.go: breadth-first, bounded in depth, with
    the frontier and the document list queried in chunks. */
module GraphWalk {
  import opened Collections

  /** A row of the relationships table; doc is None where doc_id is NULL. */
  datatype Rel = Rel(id: string, source: string, target: string, doc: Option<string>)

  /** id is the primary key. */
  ghost predicate Table(rows: seq<Rel>) {
    forall i, j :: 0 <= i < j < |rows| ==> rows[i].id != rows[j].id
  }

  predicate InDocs(r: Rel, docs: seq<string>) {
    r.doc.Some? && r.doc.value in docs
  }

  ghost function Scope(rows: seq<Rel>, docs: seq<string>): set<Rel> {
    set r | r in rows && InDocs(r, docs)
  }

  // ---------- distance ----------

  ghost function Endpoints(R: set<Rel>): set<string> {
    (set r | r in R :: r.source) + (set r | r in R :: r.target)
  }

  ghost function Incident(scope: set<Rel>, S: set<string>): set<Rel> {
    set r | r in scope && (r.source in S || r.target in S)
  }

  ghost function Grown(scope: set<Rel>, S: set<string>): set<string> {
    S + Endpoints(Incident(scope, S))
  }

  /** The entities at undirected distance at most d from start. */
  ghost function Ball(scope: set<Rel>, start: string, d: nat): set<string> {
    if d == 0 then {start} else Grown(scope, Ball(scope, start, d - 1))
  }

  /** The entities at distance exactly d. */
  ghost function Sphere(scope: set<Rel>, start: string, d: nat): set<string> {
    if d == 0 then {start} else Ball(scope, start, d) - Ball(scope, start, d - 1)
  }

  /** Relationships with an endpoint at distance less than depth. */
  ghost function Within(scope: set<Rel>, start: string, depth: int): set<Rel> {
    if depth <= 0 then {} else Incident(scope, Ball(scope, start, depth - 1))
  }

  ghost predicate Adjacent(scope: set<Rel>, x: string, y: string) {
    exists r :: r in scope && ((r.source == x && r.target == y) || (r.source == y && r.target == x))
  }

  /** A walk along relationships in either direction. */
  ghost predicate Walk(scope: set<Rel>, p: seq<string>) {
    |p| > 0 && forall i :: 0 < i < |p| ==> Adjacent(scope, p[i - 1], p[i])
  }

  lemma {:induction false} WalkStaysInBall(scope: set<Rel>, start: string, p: seq<string>)
    requires Walk(scope, p) && p[0] == start
    ensures p[|p| - 1] in Ball(scope, start, |p| - 1)
  {
    if |p| > 1 {
      hide Grown, Adjacent;
      var q := p[..|p| - 1];
      assert forall i :: 0 < i < |q| ==> Adjacent(scope, p[i - 1], p[i]);
      WalkStaysInBall(scope, start, q);
    }
  }

  lemma {:induction false} BallHasWalk(scope: set<Rel>, start: string, d: nat, x: string) returns (p: seq<string>)
    requires x in Ball(scope, start, d)
    ensures Walk(scope, p) && p[0] == start && p[|p| - 1] == x && |p| <= d + 1
  {
    if d == 0 || x in Ball(scope, start, d - 1) {
      if d == 0 {
        p := [start];
      } else {
        p := BallHasWalk(scope, start, d - 1, x);
      }
    } else {
      var y := GrownFrom(scope, Ball(scope, start, d - 1), x);
      hide Ball, Adjacent;
      var q := BallHasWalk(scope, start, d - 1, y);
      p := q + [x];
    }
  }

  lemma GrownFrom(scope: set<Rel>, S: set<string>, x: string) returns (y: string)
    requires x in Grown(scope, S) - S
    ensures y in S && Adjacent(scope, y, x)
  {
    var r :| r in Incident(scope, S) && (r.source == x || r.target == x);
    y := if r.source == x then r.target else r.source;
  }

  lemma {:induction false} BallGrows(scope: set<Rel>, start: string, d: nat, e: nat)
    requires d <= e
    ensures Ball(scope, start, d) <= Ball(scope, start, e)
  {
    if d < e {
      BallGrows(scope, start, d, e - 1);
    }
  }

  /** The ball of radius d is exactly what walks of at most d steps reach. */
  lemma BallIsWalks(scope: set<Rel>, start: string, d: nat, x: string)
    ensures x in Ball(scope, start, d)
       <==> exists p :: Walk(scope, p) && p[0] == start && p[|p| - 1] == x && |p| <= d + 1
  {
    if x in Ball(scope, start, d) {
      var p := BallHasWalk(scope, start, d, x);
    }
    if p :| Walk(scope, p) && p[0] == start && p[|p| - 1] == x && |p| <= d + 1 {
      WalkStaysInBall(scope, start, p);
      BallGrows(scope, start, |p| - 1, d);
    }
  }

  /** Once a ball stops growing it never grows again. */
  lemma {:induction false} BallSettles(scope: set<Rel>, start: string, d: nat, e: nat)
    requires d <= e && Ball(scope, start, d + 1) == Ball(scope, start, d)
    ensures Ball(scope, start, e) == Ball(scope, start, d)
  {
    if d < e {
      hide Grown;
      BallSettles(scope, start, d, e - 1);
    }
  }

  // ---------- queries ----------

  /** The rows with an endpoint in ids and a document in docs, each once, in table order;
      callers rely on the contents only. */
  method QueryInDocs(rows: seq<Rel>, ids: seq<string>, docs: seq<string>) returns (got: seq<Rel>)
    requires Table(rows)
    ensures NoDup(got) && Elems(got) == Incident(Scope(rows, docs), Elems(ids))
  {
    got := [];
    for i := 0 to |rows|
      invariant NoDup(got)
      invariant forall r :: r in got <==> r in rows[..i] && InDocs(r, docs) && (r.source in ids || r.target in ids)
    {
      assert rows[..i + 1] == rows[..i] + [rows[i]];
      if (rows[i].source in ids || rows[i].target in ids) && InDocs(rows[i], docs) {
        assert rows[i] !in rows[..i];
        got := got + [rows[i]];
      }
    }
    assert rows[..|rows|] == rows;
  }

  method QueryAll(rows: seq<Rel>, ids: seq<string>) returns (got: seq<Rel>)
    requires Table(rows)
    ensures NoDup(got) && Elems(got) == Incident(Elems(rows), Elems(ids))
  {
    got := [];
    for i := 0 to |rows|
      invariant NoDup(got)
      invariant forall r :: r in got <==> r in rows[..i] && (r.source in ids || r.target in ids)
    {
      assert rows[..i + 1] == rows[..i] + [rows[i]];
      if rows[i].source in ids || rows[i].target in ids {
        assert rows[i] !in rows[..i];
        got := got + [rows[i]];
      }
    }
    assert rows[..|rows|] == rows;
  }

  // ---------- the doc-scoped walk ----------

  /** What the walk has collected: `all` without duplicates, its ids, every endpoint visited,
      and as the next frontier what was not visited before this hop. */
  ghost predicate Collected(rows: seq<Rel>, ball: set<string>, all: seq<Rel>, seenRel: set<string>, visited: set<string>,
                            next: seq<string>)
  {
    && NoDup(all) && (forall r :: r in all ==> r in rows)
    && (forall r :: r in rows ==> (r.id in seenRel <==> r in all))
    && visited == ball + Endpoints(Elems(all))
    && Elems(next) == visited - ball
  }

  lemma SameIdSameRow(rows: seq<Rel>, r: Rel, s: Rel)
    requires Table(rows) && r in rows && s in rows && r.id == s.id
    ensures r == s
  {
  }

  /** Marks an endpoint visited and queues it if it is new. */
  method Mark(nid: string, visited: set<string>, next: seq<string>) returns (visited': set<string>, next': seq<string>)
    ensures visited' == visited + {nid}
    ensures Elems(next') == Elems(next) + (if nid in visited then {} else {nid})
  {
    visited', next' := visited, next;
    if nid !in visited {
      visited' := visited + {nid};
      next' := next + [nid];
    }
  }

  /** Takes in the rows of one query; rows seen before are skipped. */
  method Absorb(rows: seq<Rel>, got: seq<Rel>, ghost ball: set<string>, all: seq<Rel>, seenRel: set<string>,
                visited: set<string>, next: seq<string>)
    returns (all': seq<Rel>, seenRel': set<string>, visited': set<string>, next': seq<string>)
    requires Table(rows) && (forall r :: r in got ==> r in rows)
    requires Collected(rows, ball, all, seenRel, visited, next)
    ensures Collected(rows, ball, all', seenRel', visited', next')
    ensures Elems(all') == Elems(all) + Elems(got)
  {
    all', seenRel', visited', next' := all, seenRel, visited, next;
    for i := 0 to |got|
      invariant Collected(rows, ball, all', seenRel', visited', next')
      invariant Elems(all') == Elems(all) + Elems(got[..i])
    {
      assert got[..i + 1] == got[..i] + [got[i]];
      all', seenRel', visited', next' := AbsorbRow(rows, got[i], ball, all', seenRel', visited', next');
    }
    assert got[..|got|] == got;
  }

  method AbsorbRow(rows: seq<Rel>, r: Rel, ghost ball: set<string>, all: seq<Rel>, seenRel: set<string>,
                   visited: set<string>, next: seq<string>)
    returns (all': seq<Rel>, seenRel': set<string>, visited': set<string>, next': seq<string>)
    requires Table(rows) && r in rows && Collected(rows, ball, all, seenRel, visited, next)
    ensures Collected(rows, ball, all', seenRel', visited', next')
    ensures Elems(all') == Elems(all) + {r}
  {
    all', seenRel', visited', next' := all, seenRel, visited, next;
    if r.id in seenRel {
      return;
    }
    seenRel' := seenRel + {r.id};
    all' := all + [r];
    visited', next' := Mark(r.source, visited', next');
    visited', next' := Mark(r.target, visited', next');
    forall s | s in rows ensures s.id in seenRel' <==> s in all' {
      if s.id == r.id { SameIdSameRow(rows, s, r); }
    }
    assert Elems(all') == Elems(all) + {r};
    assert Endpoints(Elems(all')) == Endpoints(Elems(all)) + {r.source, r.target};
  }

  lemma IncidentSplits(scope: set<Rel>, a: seq<string>, b: seq<string>)
    ensures Incident(scope, Elems(a + b)) == Incident(scope, Elems(a)) + Incident(scope, Elems(b))
  {
  }

  lemma ScopeSplits(rows: seq<Rel>, a: seq<string>, b: seq<string>, S: set<string>)
    ensures Incident(Scope(rows, a + b), S) == Incident(Scope(rows, a), S) + Incident(Scope(rows, b), S)
  {
  }

  /** One frontier chunk against all documents, docChunk at a time. */
  method QueryChunk(rows: seq<Rel>, fChunk: seq<string>, docs: seq<string>, docChunk: nat, ghost ball: set<string>,
                    all: seq<Rel>, seenRel: set<string>, visited: set<string>, next: seq<string>)
    returns (all': seq<Rel>, seenRel': set<string>, visited': set<string>, next': seq<string>)
    requires Table(rows) && docChunk > 0 && Collected(rows, ball, all, seenRel, visited, next)
    ensures Collected(rows, ball, all', seenRel', visited', next')
    ensures Elems(all') == Elems(all) + Incident(Scope(rows, docs), Elems(fChunk))
  {
    hide Collected, Incident, Scope;
    all', seenRel', visited', next' := all, seenRel, visited, next;
    var dStart := 0;
    NoScope(rows, Elems(fChunk));
    assert docs[..0] == [];
    while dStart < |docs|
      invariant 0 <= dStart
      invariant Collected(rows, ball, all', seenRel', visited', next')
      invariant Elems(all') == Elems(all) + Incident(Scope(rows, docs[..Min(dStart, |docs|)]), Elems(fChunk))
    {
      var dEnd := dStart + docChunk;
      if dEnd > |docs| {
        dEnd := |docs|;
      }
      var dChunk := docs[dStart..dEnd];
      var got := QueryInDocs(rows, fChunk, dChunk);
      GotFromRows(rows, fChunk, dChunk, got);
      all', seenRel', visited', next' := Absorb(rows, got, ball, all', seenRel', visited', next');
      ScopeSplits(rows, docs[..dStart], dChunk, Elems(fChunk));
      assert docs[..dStart] + dChunk == docs[..dEnd];
      dStart := dStart + docChunk;
    }
    assert docs[..|docs|] == docs;
  }

  lemma NoScope(rows: seq<Rel>, S: set<string>)
    ensures Incident(Scope(rows, []), S) == {}
  {
  }

  lemma GotFromRows(rows: seq<Rel>, ids: seq<string>, docs: seq<string>, got: seq<Rel>)
    requires Elems(got) == Incident(Scope(rows, docs), Elems(ids))
    ensures forall r :: r in got ==> r in rows
  {
    assert forall r :: r in got ==> r in Elems(got);
  }

  /** One hop: all chunks of the frontier. */
  method Hop(rows: seq<Rel>, frontier: seq<string>, docs: seq<string>, docChunk: nat, frontierChunk: nat,
             ghost ball: set<string>, all: seq<Rel>, seenRel: set<string>, visited: set<string>)
    returns (all': seq<Rel>, seenRel': set<string>, visited': set<string>, next: seq<string>)
    requires Table(rows) && docChunk > 0 && frontierChunk > 0 && Collected(rows, ball, all, seenRel, visited, [])
    ensures Collected(rows, ball, all', seenRel', visited', next)
    ensures Elems(all') == Elems(all) + Incident(Scope(rows, docs), Elems(frontier))
  {
    hide Collected, Incident, Scope;
    all', seenRel', visited', next := all, seenRel, visited, [];
    var fStart := 0;
    NoIncident(Scope(rows, docs));
    assert frontier[..0] == [];
    while fStart < |frontier|
      invariant 0 <= fStart
      invariant Collected(rows, ball, all', seenRel', visited', next)
      invariant Elems(all') == Elems(all) + Incident(Scope(rows, docs), Elems(frontier[..Min(fStart, |frontier|)]))
    {
      var fEnd := fStart + frontierChunk;
      if fEnd > |frontier| {
        fEnd := |frontier|;
      }
      var fChunk := frontier[fStart..fEnd];
      all', seenRel', visited', next := QueryChunk(rows, fChunk, docs, docChunk, ball, all', seenRel', visited', next);
      IncidentSplits(Scope(rows, docs), frontier[..fStart], fChunk);
      assert frontier[..fStart] + fChunk == frontier[..fEnd];
      fStart := fStart + frontierChunk;
    }
    assert frontier[..|frontier|] == frontier;
  }

  lemma NoIncident(scope: set<Rel>)
    ensures Incident(scope, Elems([])) == {}
  {
  }

  /** After d hops: everything within distance d, and the sphere at distance d to expand. */
  ghost predicate Walked(rows: seq<Rel>, scope: set<Rel>, start: string, d: nat, all: seq<Rel>, seenRel: set<string>,
                         visited: set<string>, frontier: seq<string>)
  {
    && Collected(rows, Ball(scope, start, d), all, seenRel, visited, [])
    && visited == Ball(scope, start, d)
    && Elems(all) == Within(scope, start, d)
    && Elems(frontier) == Sphere(scope, start, d)
  }

  lemma HopReaches(rows: seq<Rel>, scope: set<Rel>, start: string, d: nat, all: seq<Rel>, all': seq<Rel>,
                   seenRel: set<string>, visited: set<string>, next: seq<string>)
    requires Elems(all) == Within(scope, start, d)
    requires Collected(rows, Ball(scope, start, d), all', seenRel, visited, next)
    requires Elems(all') == Elems(all) + Incident(scope, Sphere(scope, start, d))
    ensures Walked(rows, scope, start, d + 1, all', seenRel, visited, next)
  {
    WithinGrows(scope, start, d);
    var inner, outer := Ball(scope, start, d), Ball(scope, start, d + 1);
    assert Elems(all') == Incident(scope, inner);
    assert outer == inner + Endpoints(Elems(all'));
    assert Elems<string>([]) == {};
  }

  lemma WithinGrows(scope: set<Rel>, start: string, d: nat)
    ensures Within(scope, start, d + 1) == Within(scope, start, d) + Incident(scope, Sphere(scope, start, d))
  {
    if d > 0 {
      BallGrows(scope, start, d - 1, d);
      assert Ball(scope, start, d) == Ball(scope, start, d - 1) + Sphere(scope, start, d);
    }
  }

  lemma EmptySphere(scope: set<Rel>, start: string, d: nat)
    requires Sphere(scope, start, d) == {}
    ensures d > 0 && Ball(scope, start, d) == Ball(scope, start, d - 1)
  {
    hide Ball;
    assert d == 0 ==> start in Sphere(scope, start, d);
    BallGrows(scope, start, d - 1, d);
    forall x | x in Ball(scope, start, d) ensures x in Ball(scope, start, d - 1) {
      assert x !in Sphere(scope, start, d);
    }
  }

  /** An empty sphere means nothing more is ever found. */
  lemma WithinSettles(scope: set<Rel>, start: string, d: nat, depth: nat)
    requires d <= depth && Sphere(scope, start, d) == {}
    ensures Within(scope, start, depth) == Within(scope, start, d)
  {
    hide Ball, Incident, Sphere;
    EmptySphere(scope, start, d);
    BallSettles(scope, start, d - 1, depth - 1);
  }

  lemma LaterSpheresEmpty(scope: set<Rel>, start: string, d: nat, e: nat)
    requires d <= e && Sphere(scope, start, d) == {}
    ensures Sphere(scope, start, e) == {}
  {
    hide Ball;
    EmptySphere(scope, start, d);
    BallSettles(scope, start, d - 1, e);
    BallSettles(scope, start, d - 1, e - 1);
  }

  lemma WalkEnds(rows: seq<Rel>, scope: set<Rel>, start: string, d: nat, depth: int, all: seq<Rel>, seenRel: set<string>,
                 visited: set<string>, frontier: seq<string>)
    requires Walked(rows, scope, start, d, all, seenRel, visited, frontier)
    requires d == depth || (d < depth && frontier == []) || (depth < 0 && d == 0)
    ensures NoDup(all) && Elems(all) == Within(scope, start, depth)
  {
    hide Ball, Incident;
    if d < depth {
      assert Elems(frontier) == {};
      WithinSettles(scope, start, d, depth);
    }
  }

  lemma WalkStarts(rows: seq<Rel>, scope: set<Rel>, start: string)
    ensures Walked(rows, scope, start, 0, [], {}, {start}, [start])
  {
    assert Elems<Rel>([]) == {} && Endpoints({}) == {} && Elems<string>([]) == {};
  }

  /** RelationshipsForEntityInDocs: without duplicates, precisely the relationships of the
      given documents that have an endpoint at distance below depth, whatever the chunk sizes. */
  method RelationshipsForEntityInDocs(rows: seq<Rel>, entityID: string, depth: int, docIDs: seq<string>,
                                      docChunk: nat, frontierChunk: nat)
    returns (all: seq<Rel>)
    requires Table(rows) && docChunk > 0 && frontierChunk > 0
    ensures NoDup(all)
    ensures Elems(all) == Within(Scope(rows, docIDs), entityID, depth)
  {
    all := [];
    ghost var scope := Scope(rows, docIDs);
    if |docIDs| == 0 {
      assert scope == {};
      assert Within(scope, entityID, depth) == {};
      return;
    }
    var visited, seenRel, frontier := {entityID}, {}, [entityID];
    var d := 0;
    WalkStarts(rows, scope, entityID);
    hide Ball, Within, Collected, Sphere, Scope, Incident;
    while d < depth && |frontier| > 0
      invariant 0 <= d && (depth >= 0 ==> d <= depth) && (depth < 0 ==> d == 0)
      invariant Walked(rows, scope, entityID, d, all, seenRel, visited, frontier)
      decreases depth - d
    {
      ghost var before := all;
      all, seenRel, visited, frontier :=
        Hop(rows, frontier, docIDs, docChunk, frontierChunk, Ball(scope, entityID, d), all, seenRel, visited);
      HopReaches(rows, scope, entityID, d, before, all, seenRel, visited, frontier);
      d := d + 1;
    }
    WalkEnds(rows, scope, entityID, d, depth, all, seenRel, visited, frontier);
  }

  // ---------- the entities of a set of documents ----------

  datatype Entity = Entity(id: string, name: string)

  ghost predicate EntityTable(entities: seq<Entity>) {
    forall i, j :: 0 <= i < j < |entities| ==> entities[i].id != entities[j].id
  }

  /** The entities at an end of a relationship of the documents. */
  ghost function LocalEntities(entities: seq<Entity>, rows: seq<Rel>, docs: seq<string>): set<Entity> {
    set e | e in entities && e.id in Endpoints(Scope(rows, docs))
  }

  /** SELECT DISTINCT over the join of entities and relationships. */
  method QueryEntities(entities: seq<Entity>, rows: seq<Rel>, docs: seq<string>) returns (got: seq<Entity>)
    ensures forall e :: e in got <==> e in LocalEntities(entities, rows, docs)
  {
    got := [];
    for i := 0 to |entities|
      invariant forall e :: e in got <==> e in entities[..i] && e.id in Endpoints(Scope(rows, docs))
    {
      assert entities[..i + 1] == entities[..i] + [entities[i]];
      if r :| r in rows && InDocs(r, docs) && (r.source == entities[i].id || r.target == entities[i].id) {
        assert r in Scope(rows, docs);
        got := got + [entities[i]];
      }
    }
    assert entities[..|entities|] == entities;
  }

  /** Takes in the rows of one query; entities seen before are skipped. */
  method AbsorbEntities(entities: seq<Entity>, got: seq<Entity>, out: seq<Entity>, seen: set<string>)
    returns (out': seq<Entity>, seen': set<string>)
    requires EntityTable(entities) && NoDup(out) && Elems(out) + Elems(got) <= Elems(entities)
    requires forall e :: e in entities ==> (e.id in seen <==> e in out)
    ensures NoDup(out') && Elems(out') == Elems(out) + Elems(got)
    ensures forall e :: e in entities ==> (e.id in seen' <==> e in out')
  {
    out', seen' := out, seen;
    for i := 0 to |got|
      invariant NoDup(out') && Elems(out') == Elems(out) + Elems(got[..i])
      invariant forall e :: e in entities ==> (e.id in seen' <==> e in out')
    {
      assert got[..i + 1] == got[..i] + [got[i]];
      assert got[i] in Elems(got) && got[i] in Elems(entities);
      assert Elems(got[..i + 1]) == Elems(got[..i]) + {got[i]};
      ghost var had := Elems(out');
      if got[i].id !in seen' {
        seen' := seen' + {got[i].id};
        out' := out' + [got[i]];
      }
      assert Elems(out') == had + {got[i]};
    }
    assert got[..|got|] == got;
  }

  /** EntitiesForDocs: each entity at an end of an in-scope relationship once, whatever the
      chunk size. */
  method EntitiesForDocs(entities: seq<Entity>, rows: seq<Rel>, docIDs: seq<string>, chunkSize: nat) returns (out: seq<Entity>)
    requires EntityTable(entities) && chunkSize > 0
    ensures NoDup(out) && Elems(out) == LocalEntities(entities, rows, docIDs)
  {
    out := [];
    var seen := {};
    var start := 0;
    assert docIDs[..0] == [];
    assert LocalEntities(entities, rows, []) == {};
    hide LocalEntities, EntityTable;
    while start < |docIDs|
      invariant 0 <= start
      invariant NoDup(out) && Elems(out) == LocalEntities(entities, rows, docIDs[..Min(start, |docIDs|)])
      invariant Elems(out) <= Elems(entities)
      invariant forall e :: e in entities ==> (e.id in seen <==> e in out)
    {
      var end := start + chunkSize;
      if end > |docIDs| {
        end := |docIDs|;
      }
      var chunk := docIDs[start..end];
      var got := QueryEntities(entities, rows, chunk);
      out, seen := AbsorbEntities(entities, got, out, seen);
      assert docIDs[..start] + chunk == docIDs[..end];
      start := start + chunkSize;
    }
    assert docIDs[..|docIDs|] == docIDs;
  }

  /** An entity belongs to the documents exactly when the scoped walk from it finds anything,
      at any positive depth. */
  lemma LocalIffWalkNonEmpty(entities: seq<Entity>, rows: seq<Rel>, docs: seq<string>, e: Entity, depth: int)
    requires e in entities && depth > 0
    ensures e in LocalEntities(entities, rows, docs) <==> Within(Scope(rows, docs), e.id, depth) != {}
  {
    var scope := Scope(rows, docs);
    BallGrows(scope, e.id, 0, depth - 1);
    if e in LocalEntities(entities, rows, docs) {
      var r :| r in scope && (r.source == e.id || r.target == e.id);
      assert r in Within(scope, e.id, depth);
    } else {
      Isolated(scope, e.id, depth - 1);
      assert Within(scope, e.id, depth) == {};
    }
  }

  lemma {:induction false} Isolated(scope: set<Rel>, x: string, d: nat)
    requires x !in Endpoints(scope)
    ensures Ball(scope, x, d) == {x}
  {
    if d > 0 {
      Isolated(scope, x, d - 1);
      hide Grown, Endpoints;
    }
  }

  /** Every entity the scoped walk touches belongs to the documents. */
  lemma WalkTouchesLocalEntities(entities: seq<Entity>, rows: seq<Rel>, docs: seq<string>, start: string, depth: int, e: Entity)
    requires e in entities && e.id in Endpoints(Within(Scope(rows, docs), start, depth))
    ensures e in LocalEntities(entities, rows, docs)
  {
  }

  // ---------- the unscoped walk ----------

  /** The hops on which a relationship has an endpoint: its endpoints' distances below depth. */
  ghost function EndDistances(scope: set<Rel>, start: string, depth: int, r: Rel): set<nat> {
    set d: nat | 0 <= d < depth && (r.source in Sphere(scope, start, d) || r.target in Sphere(scope, start, d))
  }

  /** Distances are unique. */
  lemma SphereUnique(scope: set<Rel>, start: string, d: nat, e: nat, x: string)
    requires x in Sphere(scope, start, d) && x in Sphere(scope, start, e)
    ensures d == e
  {
    hide Ball;
    if d != e {
      SphereInBall(scope, start, if d < e then d else e, x);
      BallGrows(scope, start, if d < e then d else e, (if d < e then e else d) - 1);
    }
  }

  lemma SphereInBall(scope: set<Rel>, start: string, d: nat, x: string)
    requires x in Sphere(scope, start, d)
    ensures x in Ball(scope, start, d)
  {
  }

  /** A relationship is met on at most two hops. */
  lemma EndDistancesAtMostTwo(scope: set<Rel>, start: string, depth: int, r: Rel)
    ensures |EndDistances(scope, start, depth, r)| <= 2
  {
    var D := EndDistances(scope, start, depth, r);
    var A := set d | d in D && r.source in Sphere(scope, start, d);
    var B := set d | d in D && r.target in Sphere(scope, start, d);
    assert D == A + B;
    AtMostOne(scope, start, A, r.source);
    AtMostOne(scope, start, B, r.target);
  }

  lemma AtMostOne(scope: set<Rel>, start: string, A: set<nat>, x: string)
    requires forall d :: d in A ==> x in Sphere(scope, start, d)
    ensures |A| <= 1
  {
    if A != {} {
      var d :| d in A;
      forall e | e in A ensures e == d {
        SphereUnique(scope, start, d, e, x);
      }
      assert A == {d};
    }
  }

  /** `all` repeats each row once per hop it was met on. */
  ghost predicate Repeats(rows: seq<Rel>, start: string, d: int, all: seq<Rel>) {
    forall r :: multiset(all)[r] == if r in rows then |EndDistances(Elems(rows), start, d, r)| else 0
  }

  lemma {:induction false} OnceEach<T(!new)>(s: seq<T>, x: T)
    requires NoDup(s)
    ensures multiset(s)[x] == if x in s then 1 else 0
  {
    if s != [] {
      var t := s[..|s| - 1];
      OnceEach(t, x);
      assert s == t + [s[|s| - 1]];
    }
  }

  lemma HopRepeats(rows: seq<Rel>, start: string, d: nat, all: seq<Rel>, got: seq<Rel>)
    requires Repeats(rows, start, d, all) && NoDup(got)
    requires Elems(got) == Incident(Elems(rows), Sphere(Elems(rows), start, d))
    ensures Repeats(rows, start, d + 1, all + got)
  {
    hide Sphere, Ball;
    var scope := Elems(rows);
    forall r ensures multiset(all + got)[r] == if r in rows then |EndDistances(scope, start, d + 1, r)| else 0 {
      OnceEach(got, r);
      assert r in got <==> r in Elems(got);
      var D, D' := EndDistances(scope, start, d, r), EndDistances(scope, start, d + 1, r);
      if r in got {
        assert D' == D + {d};
      } else if r in rows {
        assert D' == D;
      }
    }
  }

  lemma RepeatsSettle(rows: seq<Rel>, start: string, d: nat, depth: nat, all: seq<Rel>)
    requires d <= depth && Sphere(Elems(rows), start, d) == {} && Repeats(rows, start, d, all)
    ensures Repeats(rows, start, depth, all)
  {
    hide Sphere, Ball;
    var scope := Elems(rows);
    forall e: nat | d <= e < depth ensures Sphere(scope, start, e) == {} {
      LaterSpheresEmpty(scope, start, d, e);
    }
    forall r ensures EndDistances(scope, start, depth, r) == EndDistances(scope, start, d, r) { }
  }

  lemma NegativeDepth(rows: seq<Rel>, start: string, depth: int)
    requires depth < 0 && Repeats(rows, start, 0, [])
    ensures Repeats(rows, start, depth, [])
  {
    forall r ensures EndDistances(Elems(rows), start, depth, r) == EndDistances(Elems(rows), start, 0, r) { }
  }

  /** RelationshipsForEntity: each relationship once per distinct distance below depth that
      its endpoints have from the start. */
  method RelationshipsForEntity(rows: seq<Rel>, entityID: string, depth: int) returns (all: seq<Rel>)
    requires Table(rows)
    ensures Repeats(rows, entityID, depth, all)
  {
    hide Ball, Sphere, Incident, Repeats, Endpoints, NoDup;
    ghost var scope := Elems(rows);
    var visited, frontier := {entityID}, [entityID];
    all := [];
    var d := 0;
    Start(rows, entityID, depth);
    while d < depth && |frontier| > 0
      invariant 0 <= d && (depth < 0 ==> all == []) && (depth >= 0 ==> d <= depth && Repeats(rows, entityID, d, all))
      invariant visited == Ball(scope, entityID, d) && Elems(frontier) == Sphere(scope, entityID, d)
      decreases depth - d
    {
      var got := QueryAll(rows, frontier);
      HopRepeats(rows, entityID, d, all, got);
      all := all + got;
      visited, frontier := MarkEnds(got, visited);
      SphereStep(scope, entityID, d, got, frontier);
      d := d + 1;
    }
    if d < depth {
      RepeatsSettle(rows, entityID, d, depth, all);
    }
  }

  lemma Start(rows: seq<Rel>, start: string, depth: int)
    ensures Ball(Elems(rows), start, 0) == {start} && Elems([start]) == Sphere(Elems(rows), start, 0)
    ensures Repeats(rows, start, 0, [])
    ensures depth < 0 ==> Repeats(rows, start, depth, [])
  {
    if depth < 0 {
      NegativeDepth(rows, start, depth);
    }
  }

  method MarkRow(r: Rel, visited: set<string>, next: seq<string>) returns (visited': set<string>, next': seq<string>)
    ensures visited' == visited + {r.source, r.target}
    ensures Elems(next') == Elems(next) + ({r.source, r.target} - visited)
  {
    visited', next' := Mark(r.source, visited, next);
    visited', next' := Mark(r.target, visited', next');
  }

  /** Marks both ends of every row; the newly visited ones form the next frontier. */
  method MarkEnds(got: seq<Rel>, visited: set<string>) returns (visited': set<string>, next: seq<string>)
    ensures visited' == visited + Endpoints(Elems(got)) && Elems(next) == Endpoints(Elems(got)) - visited
  {
    visited', next := visited, [];
    for i := 0 to |got|
      invariant visited' == visited + Endpoints(Elems(got[..i])) && Elems(next) == visited' - visited
    {
      hide Endpoints;
      visited', next := MarkRow(got[i], visited', next);
    }
    assert got[..|got|] == got;
  }

  lemma SphereStep(scope: set<Rel>, start: string, d: nat, got: seq<Rel>, next: seq<string>)
    requires Elems(got) == Incident(scope, Sphere(scope, start, d))
    requires Elems(next) == Endpoints(Elems(got)) - Ball(scope, start, d)
    ensures Ball(scope, start, d) + Endpoints(Elems(got)) == Ball(scope, start, d + 1)
    ensures Elems(next) == Sphere(scope, start, d + 1)
  {
    hide Ball, Within, Sphere, Incident, Endpoints;
    BallNext(scope, start, d);
    WithinGrows(scope, start, d);
    InnerEndpoints(scope, start, d);
    EndpointsOfUnion(Within(scope, start, d), Elems(got));
    SphereIs(scope, start, d + 1);
  }

  lemma BallNext(scope: set<Rel>, start: string, d: nat)
    ensures Ball(scope, start, d + 1) == Ball(scope, start, d) + Endpoints(Within(scope, start, d + 1))
  {
  }

  lemma SphereIs(scope: set<Rel>, start: string, d: nat)
    requires d > 0
    ensures Sphere(scope, start, d) == Ball(scope, start, d) - Ball(scope, start, d - 1)
  {
  }

  lemma EndpointsOfUnion(A: set<Rel>, B: set<Rel>)
    ensures Endpoints(A + B) == Endpoints(A) + Endpoints(B)
  {
  }

  lemma InnerEndpoints(scope: set<Rel>, start: string, d: nat)
    ensures Endpoints(Within(scope, start, d)) <= Ball(scope, start, d)
  {
  }
}
