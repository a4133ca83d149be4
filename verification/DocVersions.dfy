/** Document rows and their versions: the store operations of internal/store/store.go and
    the version logic of indexFile and indexRawDoc in internal/pipeline/pipeline.go. */
module DocVersions {
  import opened Collections

  /** A row of the documents table; CanonicalID is "" where the column is NULL, IndexedMtime 0. */
  datatype Document = Document(ID: string, Path: string, FileHash: string, Version: nat, CanonicalID: string,
                               IsLatest: bool, IndexedMtime: int)
  {
    function CanonicalOrID(): string {
      if CanonicalID != "" then CanonicalID else ID
    }
  }

  /** The documents table, by primary key. */
  type Table = map<string, Document>

  // ---------- what every reachable table satisfies ----------

  ghost predicate Keyed(t: Table) {
    forall id :: id in t ==> t[id].ID == id && id != ""
  }

  /** UNIQUE(file_hash). */
  ghost predicate HashesUnique(t: Table) {
    forall a, b :: a in t && b in t && t[a].FileHash == t[b].FileHash ==> a == b
  }

  ghost predicate OneLatestPerPath(t: Table) {
    forall a, b :: a in t && b in t && t[a].IsLatest && t[b].IsLatest && t[a].Path == t[b].Path ==> a == b
  }

  /** The rows that share a stable identifier. */
  ghost function Chain(t: Table, c: string): set<string> {
    set id | id in t && t[id].CanonicalOrID() == c
  }

  /** Versions 1..n, each once, on one path, none but the highest possibly latest. */
  ghost predicate GoodRows(t: Table, C: set<string>)
    requires C <= t.Keys
  {
    var n := |C|;
    && (forall id :: id in C ==> 1 <= t[id].Version <= n)
    && (forall a, b :: a in C && b in C && t[a].Version == t[b].Version ==> a == b)
    && (forall a, b :: a in C && b in C ==> t[a].Path == t[b].Path)
    && (forall id :: id in C && t[id].IsLatest ==> t[id].Version == n)
  }

  ghost predicate GoodChain(t: Table, c: string) {
    GoodRows(t, Chain(t, c))
  }

  /** A stable identifier that is also a row's id is that row's own. */
  ghost predicate CanonicalIdsApart(t: Table) {
    forall a, b :: a in t && b in t && t[b].CanonicalOrID() == a ==> t[a].CanonicalOrID() == a
  }

  ghost predicate Valid(t: Table) {
    RowsValid(t) && ChainsValid(t)
  }

  ghost predicate RowsValid(t: Table) {
    Keyed(t) && HashesUnique(t) && OneLatestPerPath(t) && CanonicalIdsApart(t)
  }

  ghost predicate ChainsValid(t: Table) {
    forall c :: GoodChain(t, c)
  }

  ghost predicate IsLatestAt(t: Table, path: string, id: string) {
    id in t && t[id].Path == path && t[id].IsLatest
  }

  ghost predicate HasLatest(t: Table, path: string) {
    exists id :: IsLatestAt(t, path, id)
  }

  /** GetDocumentByPath. */
  ghost function LatestAt(t: Table, path: string): (r: Option<Document>)
    ensures r.None? <==> !HasLatest(t, path)
    ensures r.Some? ==> exists id :: IsLatestAt(t, path, id) && t[id] == r.value
  {
    if HasLatest(t, path) then
      var id :| IsLatestAt(t, path, id);
      Some(t[id])
    else None
  }

  /** Some row already carries the hash. */
  ghost predicate HashTaken(t: Table, hash: string) {
    exists id :: id in t && t[id].FileHash == hash
  }

  // ---------- store operations on tables ----------

  function Superseded(t: Table, id: string): Table {
    if id in t then t[id := t[id].(IsLatest := false)] else t
  }

  /** The upsert is refused when another row has the hash. */
  ghost predicate Clashes(t: Table, doc: Document) {
    exists id :: id in t && id != doc.ID && t[id].FileHash == doc.FileHash
  }

  ghost function Upserted(t: Table, doc: Document): Table {
    if Clashes(t, doc) then t
    else t[doc.ID := if doc.Version == 0 then doc.(Version := 1) else doc]
  }

  /** versionInfo: the next version and the stable identifier, minted if there is no chain yet. */
  function VersionInfo(existing: Option<Document>, minted: string): (nat, string) {
    match existing
    case None => (1, minted)
    case Some(d) => (d.Version + 1, d.CanonicalOrID())
  }

  // ---------- indexing as a function ----------

  /** What loading and chunking the file came to. */
  datatype Load = Loaded | Binary | LoadFailed | NoChunks

  datatype Outcome = StatFailed | ReadFailed | SkippedByMtime | SkippedByHash | NotLoaded(why: Load) | Clash | Indexed

  /** docID and canonID are the UUIDs minted on the way. */
  datatype Ids = Ids(docID: string, canonID: string)

  ghost predicate FreshIds(t: Table, ids: Ids) {
    && ids.docID != "" && ids.canonID != "" && ids.docID != ids.canonID
    && (forall id :: id in t ==> id != ids.docID && id != ids.canonID)
    && (forall id :: id in t ==> t[id].CanonicalOrID() != ids.docID && t[id].CanonicalOrID() != ids.canonID)
  }

  function NewRow(existing: Option<Document>, path: string, hash: string, mtime: int, ids: Ids): Document {
    var (version, canonical) := VersionInfo(existing, ids.canonID);
    Document(ids.docID, path, hash, version, canonical, true, mtime)
  }

  /** From the supersede on: retire the existing row, load, insert the new version. */
  ghost function Ingest(t: Table, existing: Option<Document>, path: string, hash: string, mtime: int, load: Load, ids: Ids)
    : (Table, Outcome)
  {
    var t1 := if existing.Some? then Superseded(t, existing.value.ID) else t;
    var row := NewRow(existing, path, hash, mtime, ids);
    if load != Loaded then (t1, NotLoaded(load))
    else if Clashes(t1, row) then (t1, Clash)
    else (Upserted(t1, row), Indexed)
  }

  datatype FileState = FileState(statOk: bool, mtime: int, readOk: bool, hash: string, load: Load)

  ghost function IndexFileSpec(t: Table, path: string, f: FileState, force: bool, ids: Ids): (Table, Outcome) {
    var existing := LatestAt(t, path);
    if !f.statOk then (t, StatFailed)
    else if !force && existing.Some? && existing.value.IndexedMtime != 0 && existing.value.IndexedMtime == f.mtime then
      (t, SkippedByMtime)
    else if !f.readOk then (t, ReadFailed)
    else if !force && existing.Some? && existing.value.FileHash == f.hash then
      (if existing.value.IndexedMtime != f.mtime
       then Upserted(t, existing.value.(IndexedMtime := f.mtime)) else t, SkippedByHash)
    else Ingest(t, existing, path, f.hash, f.mtime, f.load, ids)
  }

  ghost function IndexRawDocSpec(t: Table, path: string, hash: string, load: Load, force: bool, ids: Ids): (Table, Outcome) {
    var existing := LatestAt(t, path);
    if existing.Some? && existing.value.FileHash == hash && !force then (t, SkippedByHash)
    else Ingest(t, existing, path, hash, 0, load, ids)
  }

  // ---------- Valid is kept ----------

  /** Two tables with the same rows up to latest flags, hashes and mtimes. */
  ghost predicate SameVersions(t: Table, t': Table) {
    && t'.Keys == t.Keys
    && forall id :: id in t ==>
         && t'[id].Path == t[id].Path && t'[id].Version == t[id].Version
         && t'[id].CanonicalOrID() == t[id].CanonicalOrID() && (t'[id].IsLatest ==> t[id].IsLatest)
  }

  lemma SameVersionsGoodChains(t: Table, t': Table)
    requires ChainsValid(t) && SameVersions(t, t')
    ensures ChainsValid(t')
  {
    forall c ensures GoodChain(t', c) {
      assert GoodChain(t, c);
      assert Chain(t', c) == Chain(t, c);
    }
  }

  lemma SupersededValid(t: Table, id: string)
    requires Valid(t) && id in t
    ensures Valid(Superseded(t, id)) && SameVersions(t, Superseded(t, id))
  {
    SameVersionsGoodChains(t, Superseded(t, id));
    hide ChainsValid;
  }

  lemma MtimeRefreshValid(t: Table, d: Document, mtime: int)
    requires Valid(t) && d.ID in t && t[d.ID] == d && d.Version > 0
    ensures !Clashes(t, d.(IndexedMtime := mtime)) && Valid(Upserted(t, d.(IndexedMtime := mtime)))
    ensures Upserted(t, d.(IndexedMtime := mtime)) == t[d.ID := d.(IndexedMtime := mtime)]
  {
    SameVersionsGoodChains(t, Upserted(t, d.(IndexedMtime := mtime)));
    hide ChainsValid;
  }

  lemma VersionPositive(t: Table, id: string)
    requires Valid(t) && id in t
    ensures 1 <= t[id].Version <= |Chain(t, t[id].CanonicalOrID())|
    ensures t[id].IsLatest ==> t[id].Version == |Chain(t, t[id].CanonicalOrID())|
  {
    assert GoodChain(t, t[id].CanonicalOrID());
    assert id in Chain(t, t[id].CanonicalOrID());
  }

  /** Adding a row with a new id, a new hash, on a path without a latest row. */
  lemma AddedRowsValid(t: Table, row: Document)
    requires RowsValid(t) && row.ID != "" && row.ID !in t && !Clashes(t, row) && !HasLatest(t, row.Path)
    requires forall a :: a in t ==> t[a].CanonicalOrID() != row.ID
    requires row.CanonicalOrID() in t ==> t[row.CanonicalOrID()].CanonicalOrID() == row.CanonicalOrID()
    requires row.CanonicalOrID() != row.ID
    ensures RowsValid(t[row.ID := row])
  {
    forall a | a in t ensures !(t[a].IsLatest && t[a].Path == row.Path) {
      assert !IsLatestAt(t, row.Path, a);
    }
  }

  lemma AddedOtherChain(t: Table, row: Document, c: string)
    requires ChainsValid(t) && row.ID !in t && c != row.CanonicalOrID()
    ensures Chain(t[row.ID := row], c) == Chain(t, c) && GoodChain(t[row.ID := row], c)
  {
    assert GoodChain(t, c);
    assert Chain(t[row.ID := row], c) == Chain(t, c);
  }

  /** A first version: a new row on a path without a latest row, under a new identifier. */
  lemma FirstVersionValid(t: Table, row: Document, ids: Ids)
    requires Valid(t) && FreshIds(t, ids) && !Clashes(t, row)
    requires row.ID == ids.docID && row.CanonicalID == ids.canonID && row.Version == 1 && !HasLatest(t, row.Path)
    ensures Valid(t[row.ID := row]) && Chain(t[row.ID := row], row.CanonicalOrID()) == {row.ID}
  {
    var t' := t[row.ID := row];
    assert Chain(t', ids.canonID) == {row.ID};
    AddedRowsValid(t, row);
    hide RowsValid, Clashes;
    forall c ensures GoodChain(t', c) {
      if c != ids.canonID {
        AddedOtherChain(t, row, c);
      }
    }
  }

  lemma LongerChain(t: Table, d: Document, row: Document)
    requires GoodChain(t, d.CanonicalOrID()) && d.ID in t && t[d.ID] == d && row.ID !in t
    requires d.Version == |Chain(t, d.CanonicalOrID())| && row.Path == d.Path && !HasLatest(t, d.Path)
    requires row.CanonicalOrID() == d.CanonicalOrID() && row.Version == d.Version + 1
    ensures Chain(t[row.ID := row], d.CanonicalOrID()) == Chain(t, d.CanonicalOrID()) + {row.ID}
    ensures GoodChain(t[row.ID := row], d.CanonicalOrID())
  {
    var t', k := t[row.ID := row], d.CanonicalOrID();
    assert d.ID in Chain(t, k) && row.ID !in Chain(t, k);
    forall a | a in Chain(t, k) ensures !t[a].IsLatest && t'[a] == t[a] {
      assert !IsLatestAt(t, d.Path, a);
    }
    hide HasLatest, Chain, IsLatestAt;
    GoodRowsGrow(t, t', Chain(t, k), row);
  }

  lemma GoodRowsGrow(t: Table, t': Table, C: set<string>, row: Document)
    requires C <= t.Keys && C <= t'.Keys && GoodRows(t, C)
    requires row.ID !in C && row.ID in t' && t'[row.ID] == row
    requires forall a :: a in C ==> !t[a].IsLatest && t'[a] == t[a] && t[a].Path == row.Path
    requires row.Version == |C| + 1
    ensures GoodRows(t', C + {row.ID})
  {
    assert |C + {row.ID}| == row.Version;
  }

  /** A next version: the row continues the chain whose highest version was just retired. */
  lemma NextVersionValid(t: Table, d: Document, row: Document, ids: Ids)
    requires Valid(t) && FreshIds(t, ids) && !Clashes(t, row) && d.ID in t && t[d.ID] == d
    requires d.Version == |Chain(t, d.CanonicalOrID())| && row.Path == d.Path && !HasLatest(t, d.Path)
    requires row.ID == ids.docID && row.CanonicalID == d.CanonicalOrID() && row.Version == d.Version + 1
    ensures Valid(t[row.ID := row])
    ensures Chain(t[row.ID := row], d.CanonicalOrID()) == Chain(t, d.CanonicalOrID()) + {row.ID}
  {
    var t', k := t[row.ID := row], d.CanonicalOrID();
    assert k != "" && row.CanonicalOrID() == k;
    AddedRowsValid(t, row);
    assert GoodChain(t, k);
    LongerChain(t, d, row);
    hide RowsValid, Clashes, HasLatest, GoodChain;
    forall c ensures GoodChain(t', c) {
      if c != k {
        AddedOtherChain(t, row, c);
      }
    }
  }

  // ---------- one indexing step ----------

  lemma LatestFacts(t: Table, path: string)
    requires Valid(t) && LatestAt(t, path).Some?
    ensures var d := LatestAt(t, path).value;
      && d.ID in t && t[d.ID] == d && d.Path == path && d.IsLatest
      && 1 <= d.Version == |Chain(t, d.CanonicalOrID())|
    ensures !HasLatest(Superseded(t, LatestAt(t, path).value.ID), path)
  {
    var id :| IsLatestAt(t, path, id) && t[id] == LatestAt(t, path).value;
    VersionPositive(t, id);
    var t' := Superseded(t, id);
    forall a ensures !IsLatestAt(t', path, a) {
      if a in t && a != id {
        assert !(IsLatestAt(t, path, a) && IsLatestAt(t, path, id));
      }
    }
  }

  /** The table after the retirement that precedes loading. */
  ghost function Retired(t: Table, existing: Option<Document>): Table {
    if existing.Some? then Superseded(t, existing.value.ID) else t
  }

  lemma RetiredFacts(t: Table, path: string)
    requires Valid(t)
    ensures var t1 := Retired(t, LatestAt(t, path));
      Valid(t1) && !HasLatest(t1, path) && SameVersions(t, t1) && forall h :: HashTaken(t1, h) <==> HashTaken(t, h)
    ensures forall ids :: FreshIds(t, ids) ==> FreshIds(Retired(t, LatestAt(t, path)), ids)
  {
    var t1 := Retired(t, LatestAt(t, path));
    if LatestAt(t, path).Some? {
      LatestFacts(t, path);
      SupersededValid(t, LatestAt(t, path).value.ID);
      forall h ensures HashTaken(t1, h) <==> HashTaken(t, h) {
        assert forall id :: id in t ==> t1[id].FileHash == t[id].FileHash;
      }
    }
  }

  /** The insert is refused exactly when some row, retired or not, already has the hash. */
  lemma ClashIffHashTaken(t: Table, row: Document)
    requires row.ID !in t
    ensures Clashes(t, row) <==> HashTaken(t, row.FileHash)
  {
  }

  /** The new version: valid table, and the chain one longer (or a new chain of one). */
  lemma InsertedVersion(t: Table, path: string, hash: string, mtime: int, ids: Ids)
    requires Valid(t) && FreshIds(t, ids)
    requires !HashTaken(t, hash)
    ensures var existing := LatestAt(t, path);
      var row := NewRow(existing, path, hash, mtime, ids);
      var t' := Upserted(Retired(t, existing), row);
      && t' == Retired(t, existing)[row.ID := row] && Valid(t')
      && Chain(t', row.CanonicalOrID()) == Chain(t, row.CanonicalOrID()) + {row.ID}
      && row.Version == |Chain(t', row.CanonicalOrID())|
      && (existing.None? ==> row.Version == 1)
  {
    var existing := LatestAt(t, path);
    var t1, row := Retired(t, existing), NewRow(existing, path, hash, mtime, ids);
    RetiredFacts(t, path);
    assert HashTaken(t1, hash) <==> HashTaken(t, hash);
    assert FreshIds(t1, ids);
    ClashIffHashTaken(t1, row);
    if existing.None? {
      NoChainYet(t, ids);
      FirstVersionValid(t1, row, ids);
    } else {
      LatestFacts(t, path);
      var d := t1[existing.value.ID];
      RetiredChain(t, t1, d.CanonicalOrID());
      NextVersionValid(t1, d, row, ids);
    }
  }

  lemma NoChainYet(t: Table, ids: Ids)
    requires FreshIds(t, ids)
    ensures Chain(t, ids.canonID) == {}
  {
  }

  lemma RetiredChain(t: Table, t1: Table, c: string)
    requires SameVersions(t, t1)
    ensures Chain(t1, c) == Chain(t, c)
  {
  }

  /** Ingest keeps the table valid; it indexes exactly when the file loads into chunks and no
      row has its hash; and the path has a latest row afterwards exactly when it indexed. */
  lemma IngestEffect(t: Table, path: string, hash: string, mtime: int, load: Load, ids: Ids)
    requires Valid(t) && FreshIds(t, ids)
    ensures var (t', out) := Ingest(t, LatestAt(t, path), path, hash, mtime, load, ids);
      && Valid(t')
      && (out.Indexed? <==> load == Loaded && !HashTaken(t, hash))
      && (out == Clash <==> load == Loaded && HashTaken(t, hash))
      && (load != Loaded ==> out == NotLoaded(load))
      && (HasLatest(t', path) <==> out.Indexed?)
  {
    var existing := LatestAt(t, path);
    var t1, row := Retired(t, existing), NewRow(existing, path, hash, mtime, ids);
    RetiredFacts(t, path);
    assert HashTaken(t1, hash) <==> HashTaken(t, hash);
    assert FreshIds(t1, ids);
    ClashIffHashTaken(t1, row);
    if load == Loaded && !HashTaken(t, hash) {
      InsertedVersion(t, path, hash, mtime, ids);
      assert IsLatestAt(Upserted(t1, row), path, row.ID);
    }
  }

  /** indexFile: the table stays valid; nothing changes before the supersede but an mtime; the
      path keeps or gets a latest row exactly when the file was skipped or indexed. */
  lemma IndexFileEffect(t: Table, path: string, f: FileState, force: bool, ids: Ids)
    requires Valid(t) && FreshIds(t, ids)
    ensures var (t', out) := IndexFileSpec(t, path, f, force, ids);
      && Valid(t')
      && (out in {StatFailed, ReadFailed, SkippedByMtime} ==> t' == t)
      && (out == SkippedByHash ==> SameVersions(t, t') && HasLatest(t', path))
      && (out.NotLoaded? || out == Clash ==> !HasLatest(t', path))
      && (out.Indexed? ==> HasLatest(t', path))
  {
    hide Valid, Ingest, Upserted, HasLatest, SameVersions;
    IngestEffect(t, path, f.hash, f.mtime, f.load, ids);
    if LatestAt(t, path).Some? {
      RefreshEffect(t, path, f.mtime);
    }
  }

  lemma RefreshEffect(t: Table, path: string, mtime: int)
    requires Valid(t) && LatestAt(t, path).Some?
    ensures var t' := Upserted(t, LatestAt(t, path).value.(IndexedMtime := mtime));
      Valid(t') && SameVersions(t, t') && HasLatest(t', path) && HasLatest(t, path) && SameVersions(t, t)
    ensures var t' := Upserted(t, LatestAt(t, path).value.(IndexedMtime := mtime));
      forall h :: HashTaken(t', h) <==> HashTaken(t, h)
  {
    LatestFacts(t, path);
    var d := LatestAt(t, path).value;
    MtimeRefreshValid(t, d, mtime);
    var t' := Upserted(t, d.(IndexedMtime := mtime));
    assert IsLatestAt(t', path, d.ID) && IsLatestAt(t, path, d.ID);
    forall h ensures HashTaken(t', h) <==> HashTaken(t, h) {
      assert forall id :: id in t ==> t'[id].FileHash == t[id].FileHash;
    }
  }

  /** When indexFile produces a new version, over all inputs. */
  lemma IndexedIff(t: Table, path: string, f: FileState, force: bool, ids: Ids)
    requires Valid(t) && FreshIds(t, ids)
    ensures IndexFileSpec(t, path, f, force, ids).1.Indexed? <==>
      && f.statOk && f.readOk && f.load == Loaded && !HashTaken(t, f.hash)
      && !(!force && LatestAt(t, path).Some? && f.mtime != 0 && LatestAt(t, path).value.IndexedMtime == f.mtime)
  {
    IngestEffect(t, path, f.hash, f.mtime, f.load, ids);
    if LatestAt(t, path).Some? {
      LatestFacts(t, path);
      assert LatestAt(t, path).value.FileHash == f.hash ==> HashTaken(t, f.hash);
    }
  }

  /** Forcing a re-index of unchanged content: the hash is still taken by the retired row, so
      the insert is refused and the path is left without a latest row. */
  lemma ForcedReindexLosesLatest(t: Table, path: string, f: FileState, ids: Ids)
    requires Valid(t) && FreshIds(t, ids) && f.statOk && f.readOk && f.load == Loaded
    requires LatestAt(t, path).Some? && LatestAt(t, path).value.FileHash == f.hash
    ensures IndexFileSpec(t, path, f, true, ids).1 == Clash
    ensures !HasLatest(IndexFileSpec(t, path, f, true, ids).0, path)
  {
    LatestFacts(t, path);
    IngestEffect(t, path, f.hash, f.mtime, f.load, ids);
    assert HashTaken(t, f.hash);
  }

  /** After a path lost its latest row, the next successful indexing starts a new chain. */
  lemma NewChainAfterLoss(t: Table, path: string, f: FileState, force: bool, ids: Ids)
    requires Valid(t) && FreshIds(t, ids) && !HasLatest(t, path)
    ensures var (t', out) := IndexFileSpec(t, path, f, force, ids);
      out.Indexed? ==> ids.docID in t' && t'[ids.docID].Version == 1 && Chain(t', t'[ids.docID].CanonicalOrID()) == {ids.docID}
  {
    if IndexFileSpec(t, path, f, force, ids).1.Indexed? {
      IngestEffect(t, path, f.hash, f.mtime, f.load, ids);
      InsertedVersion(t, path, f.hash, f.mtime, ids);
      NoChainYet(t, ids);
    }
  }

  lemma IndexRawDocEffect(t: Table, path: string, hash: string, load: Load, force: bool, ids: Ids)
    requires Valid(t) && FreshIds(t, ids)
    ensures var (t', out) := IndexRawDocSpec(t, path, hash, load, force, ids);
      && Valid(t')
      && (out == SkippedByHash ==> t' == t)
      && (out.Indexed? <==> load == Loaded && !HashTaken(t, hash))
      && (HasLatest(t', path) <==> out.Indexed? || out == SkippedByHash)
  {
    IngestEffect(t, path, hash, 0, load, ids);
    if LatestAt(t, path).Some? {
      LatestFacts(t, path);
      assert LatestAt(t, path).value.FileHash == hash ==> HashTaken(t, hash);
    }
  }

  // ---------- what a step leaves as it was, and what it writes ----------

  /** Of the rows that were there only the path's latest one can change; the only new one is
      the version indexed. */
  ghost predicate OnlyLatestChanges(t: Table, t': Table, existing: Option<Document>, out: Outcome, docID: string) {
    && t'.Keys == t.Keys + (if out.Indexed? then {docID} else {})
    && forall id :: id in t && (existing.None? || id != existing.value.ID) ==> t'[id] == t[id]
  }

  ghost predicate RowWritten(t: Table, docID: string, path: string, hash: string, mtime: int) {
    && docID in t && t[docID].ID == docID && t[docID].Path == path && t[docID].FileHash == hash
    && t[docID].IndexedMtime == mtime && t[docID].IsLatest
  }

  /** The existing row, if any, has only lost its latest flag. */
  ghost predicate OnlyRetired(t: Table, t': Table, existing: Option<Document>) {
    existing.Some? ==>
      existing.value.ID in t && existing.value.ID in t' && t'[existing.value.ID] == t[existing.value.ID].(IsLatest := false)
  }

  lemma IngestShape(t: Table, existing: Option<Document>, path: string, hash: string, mtime: int, load: Load, ids: Ids)
    requires existing.Some? ==> existing.value.ID in t
    requires ids.docID !in t
    ensures var (t', out) := Ingest(t, existing, path, hash, mtime, load, ids);
      && OnlyLatestChanges(t, t', existing, out, ids.docID) && OnlyRetired(t, t', existing)
      && (out.Indexed? || out.Clash? || out.NotLoaded?)
      && (out.Indexed? ==> RowWritten(t', ids.docID, path, hash, mtime))
  {
    hide Clashes;
  }

  lemma RowIsLatest(t: Table, docID: string, path: string, hash: string, mtime: int)
    requires Valid(t) && RowWritten(t, docID, path, hash, mtime)
    ensures LatestAt(t, path) == Some(t[docID])
  {
    assert IsLatestAt(t, path, docID);
    hide Valid;
    FoundIsLatest(t, path, Some(t[docID]));
  }

  lemma IngestFrame(t: Table, path: string, hash: string, mtime: int, load: Load, ids: Ids)
    requires Valid(t) && FreshIds(t, ids)
    ensures var (t', out) := Ingest(t, LatestAt(t, path), path, hash, mtime, load, ids);
      && OnlyLatestChanges(t, t', LatestAt(t, path), out, ids.docID) && OnlyRetired(t, t', LatestAt(t, path))
      && (out.Indexed? || out.Clash? || out.NotLoaded?)
      && (out.Indexed? ==>
            RowWritten(t', ids.docID, path, hash, mtime) && LatestAt(t', path) == Some(t'[ids.docID]))
  {
    hide Valid, Ingest, OnlyLatestChanges, OnlyRetired, HashTaken, HasLatest;
    if LatestAt(t, path).Some? {
      LatestFacts(t, path);
    }
    IngestShape(t, LatestAt(t, path), path, hash, mtime, load, ids);
    IngestEffect(t, path, hash, mtime, load, ids);
    if Ingest(t, LatestAt(t, path), path, hash, mtime, load, ids).1.Indexed? {
      RowIsLatest(Ingest(t, LatestAt(t, path), path, hash, mtime, load, ids).0, ids.docID, path, hash, mtime);
    }
  }

  /** indexFile changes only the path's latest row: retires it, or refreshes its mtime when the
      content is as before; a row it adds carries the file's path, hash and mtime. */
  lemma IndexFileFrame(t: Table, path: string, f: FileState, force: bool, ids: Ids)
    requires Valid(t) && FreshIds(t, ids)
    ensures var (t', out) := IndexFileSpec(t, path, f, force, ids);
      && OnlyLatestChanges(t, t', LatestAt(t, path), out, ids.docID)
      && (out.NotLoaded? || out.Clash? || out.Indexed? ==> OnlyRetired(t, t', LatestAt(t, path)))
      && (out == SkippedByHash ==>
            && LatestAt(t, path).Some? && LatestAt(t, path).value.FileHash == f.hash
            && LatestAt(t', path) == Some(LatestAt(t, path).value.(IndexedMtime := f.mtime)))
      && (out.Indexed? ==>
            && LatestAt(t', path).Some? && LatestAt(t', path).value.ID == ids.docID
            && LatestAt(t', path).value.FileHash == f.hash && LatestAt(t', path).value.IndexedMtime == f.mtime)
  {
    hide Valid, Ingest, Upserted, FreshIds;
    IngestFrame(t, path, f.hash, f.mtime, f.load, ids);
    if LatestAt(t, path).Some? {
      RefreshFrame(t, path, f.mtime);
    }
  }

  lemma IndexRawDocFrame(t: Table, path: string, hash: string, load: Load, force: bool, ids: Ids)
    requires Valid(t) && FreshIds(t, ids)
    ensures var (t', out) := IndexRawDocSpec(t, path, hash, load, force, ids);
      && OnlyLatestChanges(t, t', LatestAt(t, path), out, ids.docID)
      && (out == SkippedByHash ==> t' == t) && (out != SkippedByHash ==> OnlyRetired(t, t', LatestAt(t, path)))
      && (out.Indexed? ==>
            RowWritten(t', ids.docID, path, hash, 0) && LatestAt(t', path) == Some(t'[ids.docID]))
  {
    hide Valid, Ingest, Upserted, FreshIds;
    IngestFrame(t, path, hash, 0, load, ids);
  }

  lemma RefreshFrame(t: Table, path: string, mtime: int)
    requires Valid(t) && LatestAt(t, path).Some?
    ensures var d := LatestAt(t, path).value;
      var t' := Upserted(t, d.(IndexedMtime := mtime));
      && d.ID in t && t[d.ID] == d
      && t' == t[d.ID := d.(IndexedMtime := mtime)] && LatestAt(t', path) == Some(d.(IndexedMtime := mtime))
      && (d.IndexedMtime == mtime ==> d.(IndexedMtime := mtime) == d)
  {
    LatestFacts(t, path);
    var d := LatestAt(t, path).value;
    MtimeRefreshValid(t, d, mtime);
    var t' := Upserted(t, d.(IndexedMtime := mtime));
    assert IsLatestAt(t', path, d.ID);
    hide ChainsValid;
    FoundIsLatest(t', path, Some(d.(IndexedMtime := mtime)));
  }

  /** Indexing a file once more without a change skips it and leaves every row as it is: by its
      mtime, or by its hash where the mtime is zero, which counts as unknown. */
  lemma UnchangedFileIsSkipped(t: Table, path: string, f: FileState, force: bool, ids: Ids, ids': Ids)
    requires Valid(t) && FreshIds(t, ids) && IndexFileSpec(t, path, f, force, ids).1.Indexed?
    ensures var t' := IndexFileSpec(t, path, f, force, ids).0;
      IndexFileSpec(t', path, f, false, ids') == (t', if f.mtime != 0 then SkippedByMtime else SkippedByHash)
  {
    IndexFileFrame(t, path, f, force, ids);
    IndexedIff(t, path, f, force, ids);
    hide Valid, Ingest, OnlyLatestChanges;
  }

  /** A touched file, new mtime and old content, is skipped by its hash; the refreshed mtime then
      lets the next call skip it without reading. */
  lemma TouchedFileIsRefreshed(t: Table, path: string, f: FileState, ids: Ids, ids': Ids)
    requires Valid(t) && FreshIds(t, ids) && f.statOk && f.readOk && f.mtime != 0
    requires LatestAt(t, path).Some? && LatestAt(t, path).value.FileHash == f.hash
    ensures var (t', out) := IndexFileSpec(t, path, f, false, ids);
      && (out == if LatestAt(t, path).value.IndexedMtime == f.mtime then SkippedByMtime else SkippedByHash)
      && IndexFileSpec(t', path, f, false, ids') == (t', SkippedByMtime)
  {
    RefreshFrame(t, path, f.mtime);
    IndexFileFrame(t, path, f, false, ids);
    hide Valid, Ingest, OnlyLatestChanges;
  }

  // ---------- runs ----------

  datatype Step =
    | File(path: string, f: FileState, force: bool, ids: Ids)
    | RawDoc(path: string, hash: string, load: Load, force: bool, ids: Ids)
  {
    function Hash(): string {
      match this
      case File(_, f, _, _) => f.hash
      case RawDoc(_, hash, _, _, _) => hash
    }
  }

  ghost function Apply(t: Table, step: Step): (Table, Outcome) {
    match step
    case File(path, f, force, ids) => IndexFileSpec(t, path, f, force, ids)
    case RawDoc(path, hash, load, force, ids) => IndexRawDocSpec(t, path, hash, load, force, ids)
  }

  /** tables[0] is the empty store; each step mints new identifiers and yields the next table. */
  ghost predicate Run(tables: seq<Table>, steps: seq<Step>) {
    && |tables| == |steps| + 1 && tables[0] == map[]
    && forall i :: 0 <= i < |steps| ==> FreshIds(tables[i], steps[i].ids) && tables[i + 1] == Apply(tables[i], steps[i]).0
  }

  lemma ApplyValid(t: Table, step: Step)
    requires Valid(t) && FreshIds(t, step.ids)
    ensures Valid(Apply(t, step).0)
  {
    match step
    case File(path, f, force, ids) => IndexFileEffect(t, path, f, force, ids);
    case RawDoc(path, hash, load, force, ids) => IndexRawDocEffect(t, path, hash, load, force, ids);
  }

  lemma EmptyValid()
    ensures Valid(map[])
  {
    var t: Table := map[];
    forall c ensures GoodChain(t, c) {
      assert Chain(t, c) == {};
    }
  }

  /** In every table of every run: at most one latest row per path, unique hashes, and chains
      with versions 1..n of which only the highest can be latest. */
  lemma {:induction false} RunValid(tables: seq<Table>, steps: seq<Step>, k: nat)
    requires Run(tables, steps) && k <= |steps|
    ensures Valid(tables[k])
  {
    if k == 0 {
      EmptyValid();
    } else {
      RunValid(tables, steps, k - 1);
      ApplyValid(tables[k - 1], steps[k - 1]);
    }
  }

  lemma IngestKeepsHash(t: Table, path: string, hash: string, mtime: int, load: Load, ids: Ids, h: string)
    requires Valid(t) && FreshIds(t, ids) && HashTaken(t, h)
    ensures HashTaken(Ingest(t, LatestAt(t, path), path, hash, mtime, load, ids).0, h)
  {
    var existing := LatestAt(t, path);
    var t1 := Retired(t, existing);
    RetiredFacts(t, path);
    assert HashTaken(t1, h) <==> HashTaken(t, h);
    var id :| id in t1 && t1[id].FileHash == h;
    assert id != ids.docID;
    var t' := Ingest(t, existing, path, hash, mtime, load, ids).0;
    assert id in t' && t'[id] == t1[id];
  }

  lemma IngestTakesHash(t: Table, path: string, hash: string, mtime: int, load: Load, ids: Ids)
    requires Ingest(t, LatestAt(t, path), path, hash, mtime, load, ids).1.Indexed?
    ensures HashTaken(Ingest(t, LatestAt(t, path), path, hash, mtime, load, ids).0, hash)
  {
    var t' := Ingest(t, LatestAt(t, path), path, hash, mtime, load, ids).0;
    assert ids.docID in t' && t'[ids.docID].FileHash == hash;
  }

  lemma ApplyKeepsHash(t: Table, step: Step, h: string)
    requires Valid(t) && FreshIds(t, step.ids) && (HashTaken(t, h) || (Apply(t, step).1.Indexed? && h == step.Hash()))
    ensures HashTaken(Apply(t, step).0, h)
  {
    hide Valid, FreshIds, Ingest, HashTaken, Upserted;
    match step
    case File(path, f, force, ids) =>
      if LatestAt(t, path).Some? {
        RefreshEffect(t, path, f.mtime);
      }
      if HashTaken(t, h) {
        IngestKeepsHash(t, path, f.hash, f.mtime, f.load, ids, h);
      } else {
        IngestTakesHash(t, path, f.hash, f.mtime, f.load, ids);
      }
    case RawDoc(path, hash, load, force, ids) =>
      if HashTaken(t, h) {
        IngestKeepsHash(t, path, hash, 0, load, ids, h);
      } else {
        IngestTakesHash(t, path, hash, 0, load, ids);
      }
  }

  lemma {:induction false} HashStaysTaken(tables: seq<Table>, steps: seq<Step>, i: nat, j: nat)
    requires Run(tables, steps) && i < j <= |steps| && Apply(tables[i], steps[i]).1.Indexed?
    ensures HashTaken(tables[j], steps[i].Hash())
  {
    RunValid(tables, steps, j - 1);
    hide Valid, FreshIds, Apply, HashTaken;
    if j > i + 1 {
      HashStaysTaken(tables, steps, i, j - 1);
    }
    ApplyKeepsHash(tables[j - 1], steps[j - 1], steps[i].Hash());
  }

  /** Content indexed once is never indexed again, under any path, forced or not. */
  lemma IndexedAtMostOnce(tables: seq<Table>, steps: seq<Step>, i: nat, j: nat)
    requires Run(tables, steps) && i < j < |steps| && steps[i].Hash() == steps[j].Hash()
    requires Apply(tables[i], steps[i]).1.Indexed?
    ensures !Apply(tables[j], steps[j]).1.Indexed?
  {
    RunValid(tables, steps, j);
    HashStaysTaken(tables, steps, i, j);
    match steps[j]
    case File(path, f, force, ids) => IngestEffect(tables[j], path, f.hash, f.mtime, f.load, ids);
    case RawDoc(path, hash, load, force, ids) => IngestEffect(tables[j], path, hash, 0, load, ids);
  }

  // ---------- the store and the pipeline ----------

  ghost predicate InVersionOrder(docs: seq<Document>) {
    forall i, j :: 0 <= i < j < |docs| ==> docs[i].Version <= docs[j].Version
  }

  class Store {
    var docs: Table

    constructor ()
      ensures docs == map[]
    {
      docs := map[];
    }

    method GetDocumentByPath(path: string) returns (r: Option<Document>)
      ensures r.None? ==> !HasLatest(docs, path)
      ensures r.Some? ==> exists id :: IsLatestAt(docs, path, id) && docs[id] == r.value
    {
      if id :| id in docs && docs[id].Path == path && docs[id].IsLatest {
        assert IsLatestAt(docs, path, id);
        r := Some(docs[id]);
      } else {
        r := None;
      }
    }

    method SupersedeDocument(id: string)
      modifies this
      ensures docs == Superseded(old(docs), id)
    {
      if id in docs {
        docs := docs[id := docs[id].(IsLatest := false)];
      }
    }

    /** Inserts or updates by id; refused when another row has the hash. */
    method UpsertDocument(doc: Document) returns (ok: bool)
      modifies this
      ensures ok <==> !Clashes(old(docs), doc)
      ensures docs == Upserted(old(docs), doc)
    {
      var d := doc;
      if d.Version == 0 {
        d := d.(Version := 1);
      }
      if id :| id in docs && id != d.ID && docs[id].FileHash == d.FileHash {
        return false;
      }
      docs := docs[d.ID := d];
      ok := true;
    }

    /** The rows with the id or the canonical id, by ascending version. */
    method GetDocumentVersions(canonicalID: string) returns (found: seq<Document>)
      requires Keyed(docs)
      ensures InVersionOrder(found)
      ensures forall d :: d in found <==> d.ID in docs && docs[d.ID] == d && (d.ID == canonicalID || d.CanonicalID == canonicalID)
      ensures forall i, j :: 0 <= i < j < |found| ==> found[i].ID != found[j].ID
    {
      found := [];
      var rest := docs.Keys;
      while rest != {}
        invariant rest <= docs.Keys && InVersionOrder(found)
        invariant forall d :: d in found <==>
          d.ID in docs && d.ID !in rest && docs[d.ID] == d && (d.ID == canonicalID || d.CanonicalID == canonicalID)
        invariant forall i, j :: 0 <= i < j < |found| ==> found[i].ID != found[j].ID
        decreases rest
      {
        var id :| id in rest;
        rest := rest - {id};
        if docs[id].ID == canonicalID || docs[id].CanonicalID == canonicalID {
          found := InsertByVersion(found, docs[id]);
        }
      }
    }
  }

  /** ORDER BY version. */
  method InsertByVersion(docs: seq<Document>, d: Document) returns (r: seq<Document>)
    requires InVersionOrder(docs) && d !in docs && forall e :: e in docs ==> e.ID != d.ID
    requires forall i, j :: 0 <= i < j < |docs| ==> docs[i].ID != docs[j].ID
    ensures InVersionOrder(r) && forall e :: e in r <==> e in docs || e == d
    ensures forall i, j :: 0 <= i < j < |r| ==> r[i].ID != r[j].ID
  {
    var p := 0;
    while p < |docs| && docs[p].Version <= d.Version
      invariant 0 <= p <= |docs|
      invariant forall i :: 0 <= i < p ==> docs[i].Version <= d.Version
    {
      p := p + 1;
    }
    hide InVersionOrder;
    OneInserted(docs, p, d);
    MembersAround(docs, p, d);
    r := docs[..p] + [d] + docs[p..];
    OrderedAround(docs, r, p, d);
  }

  lemma MembersAround(docs: seq<Document>, p: nat, d: Document)
    requires p <= |docs|
    ensures forall e :: e in docs[..p] + [d] + docs[p..] <==> e in docs || e == d
  {
    assert docs == docs[..p] + docs[p..];
  }

  lemma OrderedAround(docs: seq<Document>, r: seq<Document>, p: nat, d: Document)
    requires InVersionOrder(docs) && p <= |docs| && |r| == |docs| + 1 && forall e :: e in docs ==> e.ID != d.ID
    requires forall i, j :: 0 <= i < j < |docs| ==> docs[i].ID != docs[j].ID
    requires (forall i :: 0 <= i < p ==> docs[i].Version <= d.Version) && (p < |docs| ==> d.Version < docs[p].Version)
    requires (forall i :: 0 <= i < p ==> r[i] == docs[i]) && r[p] == d && forall i :: p < i < |r| ==> r[i] == docs[i - 1]
    ensures InVersionOrder(r) && forall i, j :: 0 <= i < j < |r| ==> r[i].ID != r[j].ID
  {
    assert forall i :: 0 <= i < |docs| ==> docs[i] in docs;
    forall i, j | 0 <= i < j < |r| ensures r[i].Version <= r[j].Version && r[i].ID != r[j].ID {
      if i == p && p < j - 1 {
        assert docs[p].Version <= docs[j - 1].Version;
      }
    }
  }

  lemma {:induction false} CountVersions(t: Table, found: seq<Document>, C: set<string>)
    requires forall d :: d in found ==> d.ID in C
    requires forall id :: id in C ==> exists d :: d in found && d.ID == id
    requires forall i, j :: 0 <= i < j < |found| ==> found[i].ID != found[j].ID
    ensures |found| == |C|
  {
    if found == [] {
      assert C == {};
    } else {
      var n := |found| - 1;
      var rest, C' := found[..n], C - {found[n].ID};
      assert found == rest + [found[n]];
      forall id | id in C' ensures exists d :: d in rest && d.ID == id {
        var d :| d in found && d.ID == id;
      }
      forall d | d in rest ensures d.ID in C' {
        var i :| 0 <= i < n && found[i] == d;
      }
      CountVersions(t, rest, C');
    }
  }

  /** Asked by a row's stable identifier, the version list is exactly the row's chain: version
      k + 1 stands at position k. */
  lemma VersionsAreChain(t: Table, c: string, found: seq<Document>)
    requires Valid(t) && Chain(t, c) != {}
    requires InVersionOrder(found)
    requires forall d :: d in found <==> d.ID in t && t[d.ID] == d && (d.ID == c || d.CanonicalID == c)
    requires forall i, j :: 0 <= i < j < |found| ==> found[i].ID != found[j].ID
    ensures |found| == |Chain(t, c)|
    ensures forall k :: 0 <= k < |found| ==> found[k].Version == k + 1 && found[k].ID in Chain(t, c)
  {
    var C := Chain(t, c);
    var z :| z in C;
    forall d | d in found ensures d.ID in C {
      if d.ID == c && d.CanonicalID != c {
        assert t[z].CanonicalOrID() == d.ID;
      }
    }
    forall id | id in C ensures exists d :: d in found && d.ID == id {
      assert t[id] in found;
    }
    CountVersions(t, found, C);
    assert GoodChain(t, c);
    forall i | 0 <= i < |found| ensures found[i] in found && 1 <= found[i].Version <= |found| { }
    forall i, j | 0 <= i < j < |found| ensures found[i].Version < found[j].Version {
      assert found[i].ID in C && found[j].ID in C;
    }
    RanksAreVersions(found, |found|);
  }

  /** Strictly increasing numbers between 1 and their count are 1, 2, 3, ... */
  lemma {:induction false} RanksAreVersions(found: seq<Document>, k: nat)
    requires k <= |found| && forall i :: 0 <= i < |found| ==> 1 <= found[i].Version <= |found|
    requires forall i, j :: 0 <= i < j < |found| ==> found[i].Version < found[j].Version
    ensures forall i :: 0 <= i < k ==> found[i].Version == i + 1
  {
    if k > 0 {
      RanksAreVersions(found, k - 1);
      AtLeastRank(found, k - 1);
      AtMostRank(found, k - 1);
    }
  }

  lemma {:induction false} AtLeastRank(found: seq<Document>, i: nat)
    requires i < |found| && forall j :: 0 <= j < |found| ==> 1 <= found[j].Version
    requires forall a, b :: 0 <= a < b < |found| ==> found[a].Version < found[b].Version
    ensures found[i].Version >= i + 1
  {
    if i > 0 {
      AtLeastRank(found, i - 1);
    }
  }

  lemma {:induction false} AtMostRank(found: seq<Document>, i: nat)
    requires i < |found| && forall j :: 0 <= j < |found| ==> found[j].Version <= |found|
    requires forall a, b :: 0 <= a < b < |found| ==> found[a].Version < found[b].Version
    ensures found[i].Version <= i + 1
    decreases |found| - i
  {
    if i + 1 < |found| {
      AtMostRank(found, i + 1);
    }
  }

  class Pipeline {
    const store: Store

    constructor (store: Store)
      ensures this.store == store
    {
      this.store := store;
    }

    /** Retire, load, insert. */
    method Finish(existing: Option<Document>, path: string, hash: string, mtime: int, load: Load, ids: Ids)
      returns (out: Outcome)
      modifies store
      ensures (store.docs, out) == Ingest(old(store.docs), existing, path, hash, mtime, load, ids)
    {
      if existing.Some? {
        store.SupersedeDocument(existing.value.ID);
      }
      if load != Loaded {
        return NotLoaded(load);
      }
      var ok := store.UpsertDocument(NewRow(existing, path, hash, mtime, ids));
      out := if ok then Indexed else Clash;
    }

    method IndexFile(path: string, f: FileState, force: bool, ids: Ids) returns (out: Outcome)
      requires Valid(store.docs) && FreshIds(store.docs, ids)
      modifies store
      ensures Valid(store.docs)
      ensures (store.docs, out) == IndexFileSpec(old(store.docs), path, f, force, ids)
    {
      ghost var t := store.docs;
      IndexFileEffect(t, path, f, force, ids);
      if !f.statOk {
        return StatFailed;
      }
      var existing := store.GetDocumentByPath(path);
      FoundIsLatest(t, path, existing);
      if !force && existing.Some? && existing.value.IndexedMtime != 0 && existing.value.IndexedMtime == f.mtime {
        return SkippedByMtime;
      }
      if !f.readOk {
        return ReadFailed;
      }
      if !force && existing.Some? && existing.value.FileHash == f.hash {
        if existing.value.IndexedMtime != f.mtime {
          var refreshed := store.UpsertDocument(existing.value.(IndexedMtime := f.mtime));
        }
        return SkippedByHash;
      }
      out := Finish(existing, path, f.hash, f.mtime, f.load, ids);
    }

    method IndexRawDoc(path: string, hash: string, load: Load, force: bool, ids: Ids) returns (out: Outcome)
      requires Valid(store.docs) && FreshIds(store.docs, ids)
      modifies store
      ensures Valid(store.docs)
      ensures (store.docs, out) == IndexRawDocSpec(old(store.docs), path, hash, load, force, ids)
    {
      ghost var t := store.docs;
      IndexRawDocEffect(t, path, hash, load, force, ids);
      var existing := store.GetDocumentByPath(path);
      FoundIsLatest(t, path, existing);
      if existing.Some? && existing.value.FileHash == hash && !force {
        return SkippedByHash;
      }
      out := Finish(existing, path, hash, 0, load, ids);
    }
  }

  /** There is only one latest row to find. */
  lemma FoundIsLatest(t: Table, path: string, existing: Option<Document>)
    requires Valid(t)
    requires existing.None? ==> !HasLatest(t, path)
    requires existing.Some? ==> exists id :: IsLatestAt(t, path, id) && t[id] == existing.value
    ensures existing == LatestAt(t, path)
  {
    if existing.Some? {
      var a :| IsLatestAt(t, path, a) && t[a] == existing.value;
      var b :| IsLatestAt(t, path, b) && t[b] == LatestAt(t, path).value;
    }
  }
}
