/** The two stores that the maintenance scripts reconcile: the relational database of
    chunks and files, and one workspace's legacy Elasticsearch index. */
module ChunkStores {
  import opened Sequences

  type ChunkId = string

  /** `slugSegment` and `indexName` are what the naming functions derive from the slug. */
  datatype Workspace = Workspace(id: int, slug: string, slugSegment: string, indexName: string)

  datatype File = File(id: int, workspaceId: int, deleted: bool)

  datatype Chunk = Chunk(rowId: nat, chunkId: ChunkId, fileId: int, workspaceId: int, objectKey: string)

  /** `chunks` are the rows of `document_chunks` in the order of their primary key. */
  datatype Database = Database(workspaces: map<int, Workspace>, files: map<int, File>, chunks: seq<Chunk>)

  const MAX_CHUNK_ID: nat := 64
  const MAX_CONTENT: nat := 65000

  /** What the schema guarantees: positive increasing primary keys, unique chunk ids of at most
      64 characters. A chunk may point at a file that is gone. */
  ghost predicate ValidDb(db: Database) {
    && (forall c :: c in db.chunks ==> 0 < c.rowId && |c.chunkId| <= MAX_CHUNK_ID)
    && InRowOrder(db.chunks)
    && UniqueChunkIds(db.chunks)
    && (forall f :: f in db.files ==> db.files[f].id == f)
    && (forall w :: w in db.workspaces ==> db.workspaces[w].id == w)
  }

  ghost predicate InRowOrder(rows: seq<Chunk>) {
    forall i, j :: 0 <= i < j < |rows| ==> rows[i].rowId < rows[j].rowId
  }

  ghost predicate UniqueChunkIds(chunks: seq<Chunk>) {
    forall c, d :: c in chunks && d in chunks && c.chunkId == d.chunkId ==> c == d
  }

  /** The row that a lookup by chunk id finds. */
  function FindChunk(chunks: seq<Chunk>, id: ChunkId): (r: Option<Chunk>)
    ensures r.Some? ==> r.value in chunks && r.value.chunkId == id
    ensures r.None? ==> forall c :: c in chunks ==> c.chunkId != id
  {
    if chunks == [] then None
    else if chunks[0].chunkId == id then Some(chunks[0])
    else FindChunk(chunks[1..], id)
  }

  predicate Active(db: Database, workspaceId: int, c: Chunk) {
    && c.workspaceId == workspaceId
    && c.fileId in db.files
    && db.files[c.fileId].workspaceId == workspaceId
    && !db.files[c.fileId].deleted
  }

  function IsActive(db: Database, workspaceId: int): Chunk -> bool {
    (c: Chunk) => Active(db, workspaceId, c)
  }

  function ActiveRows(db: Database, workspaceId: int): seq<Chunk> {
    Filter(IsActive(db, workspaceId), db.chunks)
  }

  function ChunkIds(rows: seq<Chunk>): (ids: seq<ChunkId>)
    ensures |ids| == |rows|
    ensures forall i :: 0 <= i < |rows| ==> ids[i] == rows[i].chunkId
  {
    seq(|rows|, i requires 0 <= i < |rows| => rows[i].chunkId)
  }

  function IdSet(ids: seq<ChunkId>): set<ChunkId> {
    set id | id in ids
  }

  ghost function ActiveIds(db: Database, workspaceId: int): set<ChunkId> {
    set c | c in db.chunks && Active(db, workspaceId, c) :: c.chunkId
  }

  lemma ActiveRowsFacts(db: Database, workspaceId: int)
    requires ValidDb(db)
    ensures InRowOrder(ActiveRows(db, workspaceId))
    ensures Distinct(ChunkIds(ActiveRows(db, workspaceId)))
    ensures forall id :: id in ChunkIds(ActiveRows(db, workspaceId)) <==> id in ActiveIds(db, workspaceId)
  {
    var rows := ActiveRows(db, workspaceId);
    FilterMembers(IsActive(db, workspaceId), db.chunks);
    FilterInRowOrder(IsActive(db, workspaceId), db.chunks);
    forall i, j | 0 <= i < j < |rows| ensures ChunkIds(rows)[i] != ChunkIds(rows)[j] {
      assert rows[i] in rows && rows[j] in rows;
    }
    forall id | id in ActiveIds(db, workspaceId) ensures id in ChunkIds(rows) {
      var c :| c in db.chunks && Active(db, workspaceId, c) && c.chunkId == id;
      assert IsActive(db, workspaceId)(c);
      var i :| 0 <= i < |rows| && rows[i] == c;
      assert ChunkIds(rows)[i] == id;
    }
    forall id | id in ChunkIds(rows) ensures id in ActiveIds(db, workspaceId) {
      var i :| 0 <= i < |rows| && rows[i].chunkId == id;
      assert rows[i] in rows;
      assert IsActive(db, workspaceId)(rows[i]);
    }
  }

  lemma FilterInRowOrder(keep: Chunk -> bool, s: seq<Chunk>)
    requires InRowOrder(s)
    ensures InRowOrder(Filter(keep, s))
  {
    if s != [] {
      var n := |s| - 1;
      FilterInRowOrder(keep, s[..n]);
      var r := Filter(keep, s[..n]);
      FilterMembers(keep, s[..n]);
      forall i | 0 <= i < |r| ensures r[i].rowId < s[n].rowId {
        assert r[i] in r && r[i] in s[..n];
      }
    }
  }

  // ---------------------------------------------------------------- Elasticsearch

  datatype Source = Source(chunkId: Option<string>, fileId: Option<int>, workspaceId: Option<int>,
                           workspaceSlug: Option<string>, content: Option<string>)

  datatype Hit = Hit(id: ChunkId, source: Source)

  datatype FieldMapping = FieldMapping(kind: string, analyzer: Option<string>, searchAnalyzer: Option<string>)

  type Properties = map<string, FieldMapping>

  /** What stands behind the legacy index name. */
  datatype Resource =
    | Unreachable
    | AliasName
    | Absent
    | Physical(rightTarget: bool, properties: Properties, defaultAnalyzer: map<string, string>, probeOk: bool)

  /** `hits` are the documents in `_doc` order. */
  datatype Index = Index(resource: Resource, hits: seq<Hit>)

  ghost predicate ValidIndex(ix: Index) {
    ix.resource.Absent? ==> ix.hits == []
  }

  /** Elasticsearch keeps one document per id. */
  ghost predicate UniqueHits(hits: seq<Hit>) {
    forall i, j :: 0 <= i < j < |hits| ==> hits[i].id != hits[j].id
  }

  ghost function HitIds(hits: seq<Hit>): set<ChunkId> {
    set h | h in hits :: h.id
  }

  /** What a multi-get answers for one id. */
  predicate Found(hits: seq<Hit>, id: ChunkId)
    ensures Found(hits, id) <==> id in HitIds(hits)
  {
    exists h :: h in hits && h.id == id
  }

  /** An index operation replaces the document of that id or adds one. */
  function Upsert(hits: seq<Hit>, h: Hit): seq<Hit> {
    Filter((k: Hit) => k.id != h.id, hits) + [h]
  }

  // ---------------------------------------------------------------- mapping preflight

  datatype ResourceType = UnknownType | AliasType | AbsentType | PhysicalIndexType

  datatype MappingStatus =
    | MappingCompatible | MappingIncompatible | IndexAbsent | EmptyIndexNotRequired
    | AliasConflict | ResourceTargetMismatch | EsPreflightError

  datatype MappingReport = MappingReport(
    resourceType: ResourceType, status: MappingStatus, compatible: bool, rawMapping: Option<(bool, Properties)>)

  const LEGACY_PROPERTIES: map<string, string> :=
    map["chunk_id" := "keyword", "file_id" := "long", "workspace_id" := "long",
        "workspace_slug" := "keyword", "content" := "text"]

  const STANDARD_DEFAULT: map<string, string> := map["index.analysis.analyzer.default.type" := "standard"]

  predicate StandardAnalyzer(a: Option<string>) {
    a.None? || a.value == "standard"
  }

  /** No mismatch is recorded: required fields with their types, standard analysis, a working probe. */
  predicate CompatibleMapping(r: Resource)
    requires r.Physical?
  {
    && (forall f :: f in LEGACY_PROPERTIES ==> f in r.properties && r.properties[f].kind == LEGACY_PROPERTIES[f])
    && (var content := if "content" in r.properties then r.properties["content"] else FieldMapping("", None, None);
        && StandardAnalyzer(content.analyzer)
        && StandardAnalyzer(content.searchAnalyzer)
        && (content.analyzer.None? ==> r.defaultAnalyzer == map[] || r.defaultAnalyzer == STANDARD_DEFAULT))
    && r.probeOk
  }

  function InspectLegacyMapping(r: Resource, activeCount: nat): (m: MappingReport)
    ensures m.compatible <==> m.status.MappingCompatible?
    ensures m.status.MappingCompatible? ==> r.Physical?
    ensures m.status.IndexAbsent? || m.status.EmptyIndexNotRequired? ==> r.Absent?
    ensures m.resourceType.PhysicalIndexType? <==> r.Physical?
    ensures m.resourceType.AbsentType? <==> r.Absent?
  {
    match r
    case Unreachable => MappingReport(UnknownType, EsPreflightError, false, None)
    case AliasName => MappingReport(AliasType, AliasConflict, false, None)
    case Absent =>
      MappingReport(AbsentType, if activeCount > 0 then IndexAbsent else EmptyIndexNotRequired, false, None)
    case Physical(rightTarget, properties, _, _) =>
      var raw := Some((rightTarget, properties));
      if !rightTarget then MappingReport(PhysicalIndexType, ResourceTargetMismatch, false, raw)
      else if CompatibleMapping(r) then MappingReport(PhysicalIndexType, MappingCompatible, true, raw)
      else MappingReport(PhysicalIndexType, MappingIncompatible, false, raw)
  }

  ghost predicate Declares(properties: Properties, name: string, kind: string) {
    name in properties && properties[name].kind == kind
  }

  /** The five legacy fields with their types, the standard analyzer for the text, and an index that can be read. */
  ghost predicate LegacyIndex(r: Resource) {
    && r.Physical? && r.rightTarget && r.probeOk
    && Declares(r.properties, "chunk_id", "keyword") && Declares(r.properties, "file_id", "long")
    && Declares(r.properties, "workspace_id", "long") && Declares(r.properties, "workspace_slug", "keyword")
    && Declares(r.properties, "content", "text")
    && var content := r.properties["content"];
       && (content.analyzer == None || content.analyzer == Some("standard"))
       && (content.searchAnalyzer == None || content.searchAnalyzer == Some("standard"))
       && (content.analyzer == None ==>
             r.defaultAnalyzer == map[] || r.defaultAnalyzer == map["index.analysis.analyzer.default.type" := "standard"])
  }

  /** What each status says about the resource behind the name. */
  lemma MappingMeaning(r: Resource, activeCount: nat)
    ensures var m := InspectLegacyMapping(r, activeCount);
            && (m.status.MappingCompatible? <==> LegacyIndex(r))
            && (m.status.MappingIncompatible? <==> r.Physical? && r.rightTarget && !LegacyIndex(r))
            && (m.status.ResourceTargetMismatch? <==> r.Physical? && !r.rightTarget)
            && (m.status.IndexAbsent? <==> r.Absent? && activeCount > 0)
            && (m.status.EmptyIndexNotRequired? <==> r.Absent? && activeCount == 0)
            && (m.status.AliasConflict? <==> r.AliasName?)
            && (m.status.EsPreflightError? <==> r.Unreachable?)
            && (m.resourceType.AliasType? <==> r.AliasName?) && (m.resourceType.UnknownType? <==> r.Unreachable?)
            && m.rawMapping == (if r.Physical? then Some((r.rightTarget, r.properties)) else None)
  {
    if r.Physical? {
      CompatibleIsLegacy(r);
    }
    hide CompatibleMapping, LegacyIndex;
  }

  lemma CompatibleIsLegacy(r: Resource)
    requires r.Physical?
    ensures r.rightTarget && CompatibleMapping(r) <==> LegacyIndex(r)
  {
    var fields := LEGACY_PROPERTIES;
    assert fields["chunk_id"] == "keyword" && fields["file_id"] == "long" && fields["workspace_id"] == "long";
    assert fields["workspace_slug"] == "keyword" && fields["content"] == "text";
  }

  predicate AcceptableMapping(status: MappingStatus) {
    status.MappingCompatible? || status.IndexAbsent? || status.EmptyIndexNotRequired?
  }

  /** The index that `ensure_index` creates: the declared properties, no custom analysis. */
  function FreshLegacyResource(): Resource {
    Physical(true, map f | f in LEGACY_PROPERTIES :: FieldMapping(LEGACY_PROPERTIES[f], None, None), map[], true)
  }
}
