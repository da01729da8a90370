/** The read-only audit of one workspace's legacy index against its active chunks. */
module LegacyAudit {
  import opened Sequences
  import opened ChunkStores

  datatype Verdict = Consistent | Orphan | DeletedFile | Mismatch

  /** The judgement on one document, from the rows that a lookup by its id finds. */
  function Judge(workspaceId: int, h: Hit, chunk: Option<Chunk>, file: Option<File>): Verdict {
    if chunk.None? || file.None? then Orphan
    else if file.value.deleted then DeletedFile
    else if
      || chunk.value.workspaceId != workspaceId
      || file.value.workspaceId != workspaceId
      || h.source.fileId != Some(chunk.value.fileId)
      || h.source.workspaceId != Some(workspaceId)
    then Mismatch
    else Consistent
  }

  function FileOf(files: map<int, File>, chunk: Option<Chunk>): Option<File> {
    if chunk.Some? && chunk.value.fileId in files then Some(files[chunk.value.fileId]) else None
  }

  function Classify(db: Database, workspaceId: int, h: Hit): Verdict {
    var chunk := FindChunk(db.chunks, h.id);
    Judge(workspaceId, h, chunk, FileOf(db.files, chunk))
  }

  function JudgedAs(db: Database, workspaceId: int, v: Verdict): Hit -> bool {
    (h: Hit) => Classify(db, workspaceId, h) == v
  }

  function IdSeq(hits: seq<Hit>): (ids: seq<ChunkId>)
    ensures |ids| == |hits|
    ensures forall i :: 0 <= i < |hits| ==> ids[i] == hits[i].id
  {
    seq(|hits|, i requires 0 <= i < |hits| => hits[i].id)
  }

  /** The ids of the documents judged `v`, in scroll order. */
  function Judged(db: Database, workspaceId: int, hits: seq<Hit>, v: Verdict): seq<ChunkId> {
    IdSeq(Filter(JudgedAs(db, workspaceId, v), hits))
  }

  function NotFoundIn(hits: seq<Hit>): Chunk -> bool {
    (c: Chunk) => !Found(hits, c.chunkId)
  }

  function MissingRows(rows: seq<Chunk>, hits: seq<Hit>): seq<Chunk> {
    Filter(NotFoundIn(hits), rows)
  }

  function AppendSample(samples: seq<ChunkId>, id: ChunkId, limit: nat): seq<ChunkId> {
    if |samples| < limit && id !in samples then samples + [id] else samples
  }

  /** The sample list after offering `ids` one by one. */
  function Samples(ids: seq<ChunkId>, limit: nat): seq<ChunkId> {
    if ids == [] then [] else AppendSample(Samples(ids[..|ids| - 1], limit), ids[|ids| - 1], limit)
  }

  datatype AuditReport = AuditReport(
    indexExists: bool, esDocCount: nat, activeCount: nat,
    orphanCount: nat, missingCount: nat, mismatchCount: nat, deletedCount: nat,
    orphanIds: seq<ChunkId>, missingIds: seq<ChunkId>, mismatchIds: seq<ChunkId>, deletedIds: seq<ChunkId>,
    mapping: Option<MappingReport>, mappingMismatchCount: nat, anomalyCount: nat)

  /** The report as one pass over all documents and all active rows. */
  function Audit(db: Database, ix: Index, workspaceId: int, limit: nat): AuditReport {
    var rows := ActiveRows(db, workspaceId);
    var orphans := Judged(db, workspaceId, ix.hits, Orphan);
    var missing := ChunkIds(MissingRows(rows, ix.hits));
    var mismatches := Judged(db, workspaceId, ix.hits, Mismatch);
    var deleted := Judged(db, workspaceId, ix.hits, DeletedFile);
    var mapping := InspectLegacyMapping(ix.resource, |rows|);
    var mappingMismatch := if AcceptableMapping(mapping.status) then 0 else 1;
    AuditReport(
      !ix.resource.Absent?, |ix.hits|, |rows|,
      |orphans|, |missing|, |mismatches|, |deleted|,
      Samples(orphans, limit), Samples(missing, limit), Samples(mismatches, limit), Samples(deleted, limit),
      Some(mapping), mappingMismatch,
      |orphans| + |missing| + |mismatches| + |deleted| + mappingMismatch)
  }

  // ---------------------------------------------------------------- the batched computation

  /** The rows of one batch of documents, keyed by chunk id. */
  function ChunksOfBatch(db: Database, ids: set<ChunkId>): map<ChunkId, Chunk>
    requires ValidDb(db)
  {
    map c | c in db.chunks && c.chunkId in ids :: c.chunkId := c
  }

  function FilesOfChunks(db: Database, chunks: map<ChunkId, Chunk>): map<int, File> {
    map f | f in db.files && exists id :: id in chunks && chunks[id].fileId == f :: db.files[f]
  }

  /** Looking a document up in its batch finds what the whole database holds. */
  lemma BatchLookup(db: Database, workspaceId: int, h: Hit, ids: set<ChunkId>)
    requires ValidDb(db) && h.id in ids
    ensures var chunks := ChunksOfBatch(db, ids);
            var chunk := if h.id in chunks then Some(chunks[h.id]) else None;
            && chunk == FindChunk(db.chunks, h.id)
            && FileOf(FilesOfChunks(db, chunks), chunk) == FileOf(db.files, chunk)
  {
    var chunks := ChunksOfBatch(db, ids);
    var found := FindChunk(db.chunks, h.id);
    if found.Some? {
      assert h.id in chunks && chunks[h.id] == found.value;
      if found.value.fileId in db.files {
        assert chunks[h.id].fileId in FilesOfChunks(db, chunks);
      }
    }
  }

  function ActiveAfter(db: Database, workspaceId: int, lastId: nat): Chunk -> bool {
    (c: Chunk) => c.rowId > lastId && Active(db, workspaceId, c)
  }

  /** `id > last_id ... order by id limit n` */
  function KeysetPage(db: Database, workspaceId: int, lastId: nat, limit: nat): seq<Chunk> {
    var rest := Filter(ActiveAfter(db, workspaceId, lastId), db.chunks);
    rest[..Min(limit, |rest|)]
  }

  function RowAfter(lastId: nat): Chunk -> bool {
    (c: Chunk) => c.rowId > lastId
  }

  lemma KeysetIsSuffix(db: Database, workspaceId: int, lastId: nat)
    ensures Filter(ActiveAfter(db, workspaceId, lastId), db.chunks) ==
            Filter(RowAfter(lastId), ActiveRows(db, workspaceId))
  {
    FilterTwice(IsActive(db, workspaceId), RowAfter(lastId), ActiveAfter(db, workspaceId, lastId), db.chunks);
  }

  lemma {:induction false} RowsAfter(rows: seq<Chunk>, k: nat, lastId: nat)
    requires InRowOrder(rows) && k <= |rows|
    requires forall c :: c in rows ==> c.rowId > 0
    requires lastId == if k == 0 then 0 else rows[k - 1].rowId
    ensures Filter(RowAfter(lastId), rows) == rows[k..]
  {
    forall c | c in rows[..k] ensures !RowAfter(lastId)(c) {
      var i :| 0 <= i < k && rows[i] == c;
    }
    forall c | c in rows[k..] ensures RowAfter(lastId)(c) {
      var i :| k <= i < |rows| && rows[i] == c;
      assert rows[i] in rows;
    }
    FilterSplit(RowAfter(lastId), rows[..k], rows[k..]);
    assert rows == rows[..k] + rows[k..];
  }

  /** After the first `k` active rows, the keyset condition leaves exactly the others. */
  lemma KeysetRest(db: Database, workspaceId: int, k: nat, lastId: nat)
    requires ValidDb(db) && k <= |ActiveRows(db, workspaceId)|
    requires lastId == if k == 0 then 0 else ActiveRows(db, workspaceId)[k - 1].rowId
    ensures Filter(ActiveAfter(db, workspaceId, lastId), db.chunks) == ActiveRows(db, workspaceId)[k..]
  {
    KeysetIsSuffix(db, workspaceId, lastId);
    ActiveRowsFacts(db, workspaceId);
    FilterMembers(IsActive(db, workspaceId), db.chunks);
    RowsAfter(ActiveRows(db, workspaceId), k, lastId);
  }

  /** A page is the next slice of the active rows. */
  lemma NextPage(db: Database, workspaceId: int, k: nat, lastId: nat, size: nat)
    requires ValidDb(db) && k <= |ActiveRows(db, workspaceId)| && size > 0
    requires lastId == if k == 0 then 0 else ActiveRows(db, workspaceId)[k - 1].rowId
    ensures var rows := ActiveRows(db, workspaceId);
            var page := KeysetPage(db, workspaceId, lastId, size);
            k + |page| <= |rows| && page == rows[k..k + |page|] && (page == [] <==> k == |rows|)
  {
    hide ActiveRows, ActiveAfter, Filter, ValidDb;
    KeysetRest(db, workspaceId, k, lastId);
  }

  function InitialReport(indexExists: bool): AuditReport {
    AuditReport(indexExists, 0, 0, 0, 0, 0, 0, [], [], [], [], None, 0, 0)
  }

  /** The counters and samples that depend on the documents, after the documents `hits`. */
  ghost predicate HitsTallied(r: AuditReport, db: Database, workspaceId: int, hits: seq<Hit>, limit: nat) {
    var orphans := Judged(db, workspaceId, hits, Orphan);
    var mismatches := Judged(db, workspaceId, hits, Mismatch);
    var deleted := Judged(db, workspaceId, hits, DeletedFile);
    && r.orphanCount == |orphans| && r.orphanIds == Samples(orphans, limit)
    && r.mismatchCount == |mismatches| && r.mismatchIds == Samples(mismatches, limit)
    && r.deletedCount == |deleted| && r.deletedIds == Samples(deleted, limit)
  }

  /** The counters and samples that depend on the database rows, after the rows `rows`. */
  ghost predicate RowsTallied(r: AuditReport, rows: seq<Chunk>, hits: seq<Hit>, limit: nat) {
    var missing := ChunkIds(MissingRows(rows, hits));
    && r.activeCount == |rows|
    && r.missingCount == |missing| && r.missingIds == Samples(missing, limit)
  }

  ghost predicate SameOutsideHits(r: AuditReport, s: AuditReport) {
    r == s.(orphanCount := r.orphanCount, orphanIds := r.orphanIds, mismatchCount := r.mismatchCount,
            mismatchIds := r.mismatchIds, deletedCount := r.deletedCount, deletedIds := r.deletedIds)
  }

  ghost predicate SameOutsideRows(r: AuditReport, s: AuditReport) {
    r == s.(activeCount := r.activeCount, missingCount := r.missingCount, missingIds := r.missingIds)
  }

  lemma SamplesSnoc(ids: seq<ChunkId>, id: ChunkId, limit: nat)
    ensures Samples(ids + [id], limit) == AppendSample(Samples(ids, limit), id, limit)
  {
    assert (ids + [id])[..|ids|] == ids;
  }

  lemma JudgedSnoc(db: Database, workspaceId: int, hits: seq<Hit>, h: Hit, v: Verdict, limit: nat)
    ensures Judged(db, workspaceId, hits + [h], v) ==
            (var before := Judged(db, workspaceId, hits, v);
             if Classify(db, workspaceId, h) == v then before + [h.id] else before)
    ensures Classify(db, workspaceId, h) == v ==>
              Samples(Judged(db, workspaceId, hits + [h], v), limit) ==
              AppendSample(Samples(Judged(db, workspaceId, hits, v), limit), h.id, limit)
  {
    FilterSnoc(JudgedAs(db, workspaceId, v), hits, h);
    SamplesSnoc(Judged(db, workspaceId, hits, v), h.id, limit);
  }

  lemma MissingSnoc(rows: seq<Chunk>, c: Chunk, hits: seq<Hit>, limit: nat)
    ensures ChunkIds(MissingRows(rows + [c], hits)) ==
            (var before := ChunkIds(MissingRows(rows, hits));
             if Found(hits, c.chunkId) then before else before + [c.chunkId])
    ensures !Found(hits, c.chunkId) ==>
              Samples(ChunkIds(MissingRows(rows + [c], hits)), limit) ==
              AppendSample(Samples(ChunkIds(MissingRows(rows, hits)), limit), c.chunkId, limit)
  {
    FilterSnoc(NotFoundIn(hits), rows, c);
    SamplesSnoc(ChunkIds(MissingRows(rows, hits)), c.chunkId, limit);
  }

  /** One document of a batch: exactly one counter moves, or none. */
  method TallyHit(report: AuditReport, ghost db: Database, workspaceId: int, h: Hit,
                  chunks: map<ChunkId, Chunk>, files: map<int, File>, limit: nat, ghost seen: seq<Hit>)
    returns (r: AuditReport)
    requires HitsTallied(report, db, workspaceId, seen, limit)
    requires var chunk := if h.id in chunks then Some(chunks[h.id]) else None;
             && chunk == FindChunk(db.chunks, h.id)
             && FileOf(files, chunk) == FileOf(db.files, chunk)
    ensures HitsTallied(r, db, workspaceId, seen + [h], limit)
    ensures SameOutsideHits(report, r)
  {
    r := report;
    JudgedSnoc(db, workspaceId, seen, h, Orphan, limit);
    JudgedSnoc(db, workspaceId, seen, h, Mismatch, limit);
    JudgedSnoc(db, workspaceId, seen, h, DeletedFile, limit);
    if h.id !in chunks {
      r := r.(orphanCount := r.orphanCount + 1, orphanIds := AppendSample(r.orphanIds, h.id, limit));
      return;
    }
    var chunk := chunks[h.id];
    if chunk.fileId !in files {
      r := r.(orphanCount := r.orphanCount + 1, orphanIds := AppendSample(r.orphanIds, h.id, limit));
      return;
    }
    var file := files[chunk.fileId];
    if file.deleted {
      r := r.(deletedCount := r.deletedCount + 1, deletedIds := AppendSample(r.deletedIds, h.id, limit));
      return;
    }
    if
      || chunk.workspaceId != workspaceId
      || file.workspaceId != workspaceId
      || h.source.fileId != Some(chunk.fileId)
      || h.source.workspaceId != Some(workspaceId)
    {
      r := r.(mismatchCount := r.mismatchCount + 1, mismatchIds := AppendSample(r.mismatchIds, h.id, limit));
    }
  }

  lemma ScrollStarts(report: AuditReport)
    ensures SameOutsideHits(report, report)
  {
  }

  lemma SameThroughout(a: AuditReport, b: AuditReport, c: AuditReport)
    requires SameOutsideHits(a, b) && SameOutsideHits(b, c)
    ensures SameOutsideHits(a, c)
  {
  }

  /** One batch of documents, after its two lookups. */
  method TallyBatch(report: AuditReport, db: Database, workspaceId: int, batch: seq<Hit>, limit: nat,
                    ghost seen: seq<Hit>)
    returns (r: AuditReport)
    requires ValidDb(db) && HitsTallied(report, db, workspaceId, seen, limit)
    ensures HitsTallied(r, db, workspaceId, seen + batch, limit)
    ensures SameOutsideHits(report, r)
  {
    hide HitsTallied, SameOutsideHits;
    var ids := set h | h in batch :: h.id;
    var chunks := ChunksOfBatch(db, ids);
    var files := FilesOfChunks(db, chunks);
    r := report;
    ScrollStarts(report);
    assert seen + batch[..0] == seen;
    for j := 0 to |batch|
      invariant HitsTallied(r, db, workspaceId, seen + batch[..j], limit)
      invariant SameOutsideHits(report, r)
    {
      BatchLookup(db, workspaceId, batch[j], ids);
      assert seen + batch[..j] + [batch[j]] == seen + batch[..j + 1];
      ghost var before := r;
      r := TallyHit(r, db, workspaceId, batch[j], chunks, files, limit, seen + batch[..j]);
      SameThroughout(report, before, r);
    }
    assert batch[..|batch|] == batch;
  }

  /** One keyset page of active rows, after its multi-get. */
  method TallyPage(report: AuditReport, page: seq<Chunk>, hits: seq<Hit>, limit: nat, ghost done: seq<Chunk>)
    returns (r: AuditReport)
    requires RowsTallied(report, done, hits, limit)
    ensures RowsTallied(r, done + page, hits, limit)
    ensures SameOutsideRows(report, r)
  {
    r := report.(activeCount := report.activeCount + |page|);
    assert done + page[..0] == done;
    for j := 0 to |page|
      invariant r.activeCount == |done| + |page|
      invariant RowsTallied(r.(activeCount := |done| + j), done + page[..j], hits, limit)
      invariant SameOutsideRows(report, r)
    {
      assert done + page[..j] + [page[j]] == done + page[..j + 1];
      MissingSnoc(done + page[..j], page[j], hits, limit);
      if !Found(hits, page[j].chunkId) {
        r := r.(missingCount := r.missingCount + 1,
                missingIds := AppendSample(r.missingIds, page[j].chunkId, limit));
      }
    }
    assert page[..|page|] == page;
  }

  lemma {:induction false} TalliesDetermineReport(r: AuditReport, db: Database, ix: Index, workspaceId: int, limit: nat)
    requires HitsTallied(r, db, workspaceId, ix.hits, limit)
    requires RowsTallied(r, ActiveRows(db, workspaceId), ix.hits, limit)
    requires r.indexExists == !ix.resource.Absent? && r.esDocCount == |ix.hits|
    requires r.mapping == Some(InspectLegacyMapping(ix.resource, r.activeCount))
    requires r.mappingMismatchCount == if AcceptableMapping(r.mapping.value.status) then 0 else 1
    requires r.anomalyCount == r.orphanCount + r.missingCount + r.mismatchCount + r.deletedCount
                               + r.mappingMismatchCount
    ensures r == Audit(db, ix, workspaceId, limit)
  {
  }

  /** The document count is none of the tallies. */
  lemma CountDocuments(r: AuditReport, count: nat, db: Database, workspaceId: int, hits: seq<Hit>, limit: nat)
    requires HitsTallied(r, db, workspaceId, hits, limit)
    ensures HitsTallied(r.(esDocCount := count), db, workspaceId, hits, limit)
  {
    hide Judged, Samples;
  }

  lemma ScrollGoesOn(report: AuditReport, before: AuditReport, counted: AuditReport, r: AuditReport)
    requires SameOutsideHits(report, before.(esDocCount := report.esDocCount))
    requires counted == before.(esDocCount := counted.esDocCount) && SameOutsideHits(counted, r)
    ensures SameOutsideHits(report, r.(esDocCount := report.esDocCount)) && r.esDocCount == counted.esDocCount
  {
  }

  /** The scroll: documents in batches. */
  method TallyHits(report: AuditReport, db: Database, workspaceId: int, hits: seq<Hit>, batchSize: nat, limit: nat)
    returns (r: AuditReport)
    requires ValidDb(db) && batchSize > 0
    requires HitsTallied(report, db, workspaceId, [], limit)
    ensures HitsTallied(r, db, workspaceId, hits, limit)
    ensures r.esDocCount == report.esDocCount + |hits|
    ensures SameOutsideHits(report, r.(esDocCount := report.esDocCount))
  {
    hide HitsTallied, SameOutsideHits;
    r := report;
    var i := 0;
    ScrollStarts(report);
    assert hits[..0] == [];
    while i < |hits|
      invariant 0 <= i <= |hits|
      invariant HitsTallied(r, db, workspaceId, hits[..i], limit)
      invariant r.esDocCount == report.esDocCount + i
      invariant SameOutsideHits(report, r.(esDocCount := report.esDocCount))
    {
      var batch := hits[i..Min(i + batchSize, |hits|)];
      assert hits[..i] + batch == hits[..i + |batch|];
      ghost var before := r;
      r := r.(esDocCount := r.esDocCount + |batch|);
      CountDocuments(before, r.esDocCount, db, workspaceId, hits[..i], limit);
      ghost var counted := r;
      r := TallyBatch(r, db, workspaceId, batch, limit, hits[..i]);
      ScrollGoesOn(report, before, counted, r);
      i := i + |batch|;
    }
    assert hits[..i] == hits;
  }

  lemma RowsStart(report: AuditReport)
    ensures SameOutsideRows(report, report)
  {
  }

  lemma RowsGoOn(a: AuditReport, b: AuditReport, c: AuditReport)
    requires SameOutsideRows(a, b) && SameOutsideRows(b, c)
    ensures SameOutsideRows(a, c)
  {
  }

  /** The keyset loop: pages of active rows until one is empty. */
  method TallyRows(report: AuditReport, db: Database, workspaceId: int, hits: seq<Hit>, batchSize: nat, limit: nat)
    returns (r: AuditReport)
    requires ValidDb(db) && batchSize > 0
    requires RowsTallied(report, [], hits, limit)
    ensures RowsTallied(r, ActiveRows(db, workspaceId), hits, limit)
    ensures SameOutsideRows(report, r)
  {
    hide RowsTallied, SameOutsideRows, ActiveRows, KeysetPage, ValidDb;
    r := report;
    ghost var rows := ActiveRows(db, workspaceId);
    ghost var done := 0;
    var lastId := 0;
    assert rows[..done] == [];
    RowsStart(report);
    while true
      invariant 0 <= done <= |rows|
      invariant lastId == if done == 0 then 0 else rows[done - 1].rowId
      invariant RowsTallied(r, rows[..done], hits, limit)
      invariant SameOutsideRows(report, r)
      decreases |rows| - done
    {
      NextPage(db, workspaceId, done, lastId, batchSize);
      var page := KeysetPage(db, workspaceId, lastId, batchSize);
      if page == [] {
        break;
      }
      assert rows[..done] + page == rows[..done + |page|];
      ghost var before := r;
      r := TallyPage(r, page, hits, limit, rows[..done]);
      RowsGoOn(report, before, r);
      lastId := page[|page| - 1].rowId;
      done := done + |page|;
    }
    assert rows[..done] == rows;
  }

  /** The audit as it runs: documents in batches with two lookups each, then active rows by keyset
      pages. The result does not mention the batch size. `esFails` is an Elasticsearch error. */
  method AuditWorkspace(db: Database, ix: Index, workspaceId: int, batchSize: nat, sampleLimit: nat, esFails: bool)
    returns (result: Option<AuditReport>)
    requires ValidDb(db) && ValidIndex(ix) && batchSize > 0
    ensures result == if esFails || ix.resource.Unreachable? then None
                      else Some(Audit(db, ix, workspaceId, sampleLimit))
  {
    if esFails || ix.resource.Unreachable? {
      return None;
    }
    var report := InitialReport(!ix.resource.Absent?);
    var hits := if report.indexExists then ix.hits else [];
    report := TallyHits(report, db, workspaceId, hits, batchSize, sampleLimit);
    report := TallyRows(report, db, workspaceId, hits, batchSize, sampleLimit);
    var mapping := InspectLegacyMapping(ix.resource, report.activeCount);
    report := report.(mapping := Some(mapping),
                      mappingMismatchCount := if AcceptableMapping(mapping.status) then 0 else 1);
    report := report.(anomalyCount := report.orphanCount + report.missingCount + report.mismatchCount
                                      + report.deletedCount + report.mappingMismatchCount);
    TalliesDetermineReport(report, db, ix, workspaceId, sampleLimit);
    result := Some(report);
  }
}
