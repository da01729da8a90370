/** The missing-only repair of one workspace's legacy index: preflight, approved plan, application. */
module MissingRepair {
  import opened Sequences
  import opened ChunkStores
  import opened LegacyAudit
  import opened StoreClient

  const FULL_ID_LIMIT: nat := 0x7FFF_FFFF

  /** Readable UTF-8 objects, by bucket and key. */
  type Storage = map<(string, string), string>

  /** SHA-256 of a canonical payload, taken to be injective; `OtherDigest` is any other text. */
  datatype Digest<P> = Sha256(of: P) | OtherDigest(text: string)

  /** What Elasticsearch does during one command. */
  datatype Faults = Faults(preAuditFails: bool, postAuditFails: bool, created: Resource, bulk: seq<BulkOutcome>)

  /** The outcome of bulk call number `k`, from 1; calls beyond the script accept everything. */
  function Call(bulk: seq<BulkOutcome>, k: nat): BulkOutcome {
    if 1 <= k <= |bulk| then bulk[k - 1] else Accepts({})
  }

  ghost predicate ValidFaults(f: Faults) {
    !f.created.Absent?
  }

  // ---------------------------------------------------------------- L2 texts

  datatype L2Failure = MissingObjectKey(chunkId: ChunkId) | UnreadableObject(chunkId: ChunkId)

  datatype L2Status = FailedL2 | PassedL2 | NoRepairCandidates

  datatype Loaded = Loaded(chunk: Chunk, text: string)

  datatype L2Report = L2Report(candidateCount: nat, readableCount: nat, emptyCount: nat,
                               failures: seq<L2Failure>, status: L2Status)

  predicate Readable(storage: Storage, ws: Workspace, c: Chunk) {
    c.objectKey != "" && (ws.slug, c.objectKey) in storage
  }

  function LoadedRows(storage: Storage, ws: Workspace, rows: seq<Chunk>): seq<Loaded> {
    if rows == [] then []
    else
      var n := |rows| - 1;
      var before := LoadedRows(storage, ws, rows[..n]);
      if Readable(storage, ws, rows[n])
      then before + [Loaded(rows[n], storage[(ws.slug, rows[n].objectKey)])]
      else before
  }

  function FailuresOf(storage: Storage, ws: Workspace, rows: seq<Chunk>): seq<L2Failure> {
    if rows == [] then []
    else
      var n := |rows| - 1;
      var before := FailuresOf(storage, ws, rows[..n]);
      if Readable(storage, ws, rows[n]) then before
      else before + [if rows[n].objectKey == "" then MissingObjectKey(rows[n].chunkId)
                     else UnreadableObject(rows[n].chunkId)]
  }

  function HasEmptyText(): Loaded -> bool {
    (l: Loaded) => l.text == ""
  }

  function L2Preflight(storage: Storage, ws: Workspace, rows: seq<Chunk>): L2Report {
    var loaded := LoadedRows(storage, ws, rows);
    var failures := FailuresOf(storage, ws, rows);
    L2Report(|rows|, |loaded|, |Filter(HasEmptyText(), loaded)|, failures,
             if failures != [] then FailedL2 else if rows != [] then PassedL2 else NoRepairCandidates)
  }

  method LoadMinioL2(storage: Storage, ws: Workspace, candidates: seq<Chunk>)
    returns (loaded: seq<Loaded>, report: L2Report)
    ensures loaded == LoadedRows(storage, ws, candidates)
    ensures report == L2Preflight(storage, ws, candidates)
  {
    loaded := [];
    var failures: seq<L2Failure> := [];
    var emptyCount := 0;
    for i := 0 to |candidates|
      invariant loaded == LoadedRows(storage, ws, candidates[..i])
      invariant failures == FailuresOf(storage, ws, candidates[..i])
      invariant emptyCount == |Filter(HasEmptyText(), loaded)|
    {
      var c := candidates[i];
      assert candidates[..i + 1][..i] == candidates[..i];
      if c.objectKey == "" {
        failures := failures + [MissingObjectKey(c.chunkId)];
        continue;
      }
      if (ws.slug, c.objectKey) !in storage {
        failures := failures + [UnreadableObject(c.chunkId)];
        continue;
      }
      var text := storage[(ws.slug, c.objectKey)];
      FilterSnoc(HasEmptyText(), loaded, Loaded(c, text));
      emptyCount := emptyCount + if text == "" then 1 else 0;
      loaded := loaded + [Loaded(c, text)];
    }
    assert candidates[..|candidates|] == candidates;
    report := L2Report(|candidates|, |loaded|, emptyCount, failures,
                       if failures != [] then FailedL2 else if candidates != [] then PassedL2 else NoRepairCandidates);
  }

  lemma OneRowMore(rows: seq<Chunk>, hits: seq<Hit>, k: nat)
    requires k < |rows|
    ensures MissingRows(rows[..k + 1], hits)
         == MissingRows(rows[..k], hits) + if Found(hits, rows[k].chunkId) then [] else [rows[k]]
  {
    hide Found;
    assert rows[..k + 1] == rows[..k] + [rows[k]];
    FilterSnoc(NotFoundIn(hits), rows[..k], rows[k]);
    assert MissingRows(rows[..k], hits) + [] == MissingRows(rows[..k], hits);
  }

  lemma NoRows(rows: seq<Chunk>, hits: seq<Hit>)
    ensures MissingRows(rows[..0], hits) == []
  {
  }

  /** The multi-get by batches. */
  method FindMissingRows(hits: seq<Hit>, rows: seq<Chunk>, batchSize: nat) returns (missing: seq<Chunk>)
    requires batchSize > 0
    ensures missing == MissingRows(rows, hits)
  {
    hide MissingRows, Found;
    missing := [];
    NoRows(rows, hits);
    var start := 0;
    while start < |rows|
      invariant 0 <= start <= |rows|
      invariant missing == MissingRows(rows[..start], hits)
    {
      var batch := rows[start..Min(start + batchSize, |rows|)];
      var found := set c | c in batch && Found(hits, c.chunkId) :: c.chunkId;
      for j := 0 to |batch|
        invariant missing == MissingRows(rows[..start + j], hits)
      {
        OneRowMore(rows, hits, start + j);
        assert batch[j] == rows[start + j] && batch[j] in batch;
        if batch[j].chunkId !in found {
          missing := missing + [batch[j]];
        }
      }
      start := start + |batch|;
    }
    assert rows[..start] == rows;
  }

  // ---------------------------------------------------------------- preflight

  datatype Gate =
    | BlockedL2 | BlockedMapping | BlockedEsResource | BlockedLegacyAudit | BlockedConcurrentDrift
    | ReadyAfterApprovedIndexCreate | EmptyPassed | ReadyForMissingOnlyUpsert | PassedNoRepairNeeded

  datatype Preflight = Preflight(workspace: Workspace, activeCount: nat, candidateIds: seq<ChunkId>,
                                 mapping: MappingReport, l2: L2Report, preAudit: Option<AuditReport>,
                                 auditError: bool, gate: Gate)

  predicate ResourceConflict(s: MappingStatus) {
    s.AliasConflict? || s.ResourceTargetMismatch? || s.EsPreflightError?
  }

  predicate AuditAttempted(m: MappingReport) {
    m.resourceType.PhysicalIndexType? || m.resourceType.AbsentType?
  }

  predicate Drifted(audit: AuditReport, activeCount: nat, candidateIds: seq<ChunkId>) {
    || audit.activeCount != activeCount
    || audit.missingCount != |candidateIds|
    || IdSet(audit.missingIds) != IdSet(candidateIds)
  }

  function RepairGate(l2: L2Status, mapping: MappingStatus, auditError: bool, audit: Option<AuditReport>,
                      activeCount: nat, candidateIds: seq<ChunkId>): Gate
  {
    if l2.FailedL2? then BlockedL2
    else if mapping.MappingIncompatible? then BlockedMapping
    else if ResourceConflict(mapping) then BlockedEsResource
    else if auditError then BlockedLegacyAudit
    else if audit.Some? && Drifted(audit.value, activeCount, candidateIds) then BlockedConcurrentDrift
    else if audit.Some? && (audit.value.mismatchCount != 0 || audit.value.deletedCount != 0) then BlockedLegacyAudit
    else if mapping.IndexAbsent? then ReadyAfterApprovedIndexCreate
    else if mapping.EmptyIndexNotRequired? then EmptyPassed
    else if candidateIds != [] then ReadyForMissingOnlyUpsert
    else PassedNoRepairNeeded
  }

  /** The rows whose documents the repair would write. */
  function Candidates(db: Database, ix: Index, ws: Workspace): seq<Chunk> {
    var rows := ActiveRows(db, ws.id);
    if ix.resource.Physical? then MissingRows(rows, ix.hits) else rows
  }

  function PreflightOf(db: Database, ix: Index, storage: Storage, ws: Workspace, auditFails: bool): Preflight {
    var rows := ActiveRows(db, ws.id);
    var mapping := InspectLegacyMapping(ix.resource, |rows|);
    var candidates := Candidates(db, ix, ws);
    var l2 := L2Preflight(storage, ws, candidates);
    var audit := if AuditAttempted(mapping) && !auditFails then Some(Audit(db, ix, ws.id, FULL_ID_LIMIT)) else None;
    var auditError := AuditAttempted(mapping) && auditFails;
    var ids := ChunkIds(candidates);
    Preflight(ws, |rows|, ids, mapping, l2, audit, auditError,
              RepairGate(l2.status, mapping.status, auditError, audit, |rows|, ids))
  }

  /** None when the workspace does not exist: the source raises. */
  method ScanWorkspace(db: Database, store: ChunkStore, storage: Storage, workspaceId: int, batchSize: nat,
                       auditFails: bool)
    returns (result: Option<(Preflight, seq<Loaded>)>)
    requires ValidDb(db) && ValidIndex(store.index) && batchSize > 0
    ensures result ==
            if workspaceId !in db.workspaces then None
            else
              var ws := db.workspaces[workspaceId];
              Some((PreflightOf(db, store.index, storage, ws, auditFails),
                    LoadedRows(storage, ws, Candidates(db, store.index, ws))))
  {
    if workspaceId !in db.workspaces {
      return None;
    }
    var ws := db.workspaces[workspaceId];
    var rows := ActiveRows(db, ws.id);
    var mapping := InspectLegacyMapping(store.index.resource, |rows|);
    var candidates := rows;
    if mapping.resourceType.PhysicalIndexType? {
      candidates := FindMissingRows(store.index.hits, rows, batchSize);
    }
    var loaded, l2 := LoadMinioL2(storage, ws, candidates);
    var audit := None;
    var auditError := false;
    if AuditAttempted(mapping) {
      audit := AuditWorkspace(db, store.index, ws.id, batchSize, FULL_ID_LIMIT, auditFails);
      auditError := audit.None?;
    }
    var ids := ChunkIds(candidates);
    var gate := RepairGate(l2.status, mapping.status, auditError, audit, |rows|, ids);
    result := Some((Preflight(ws, |rows|, ids, mapping, l2, audit, auditError, gate), loaded));
  }

  // ---------------------------------------------------------------- approved plan

  /** The list of candidate ids is sorted in the source; equal sorted lists are equal multisets. */
  datatype MissingPlan = MissingPlan(
    workspaceId: int, slug: string, indexName: string, activeCount: nat, candidateIds: multiset<ChunkId>,
    mappingStatus: MappingStatus, snapshot: Digest<(ResourceType, MappingStatus, Option<(bool, Properties)>)>,
    requiresIndexCreate: bool)

  function MissingPlanPayload(p: Preflight): MissingPlan {
    MissingPlan(p.workspace.id, p.workspace.slug, p.workspace.indexName, p.activeCount, multiset(p.candidateIds),
                p.mapping.status, Sha256((p.mapping.resourceType, p.mapping.status, p.mapping.rawMapping)),
                p.mapping.status.IndexAbsent?)
  }

  datatype PlanStatus = AwaitingMissingRepairApproval | PassedNoMissingRepairNeeded | PlanBlocked(gate: Gate)

  datatype PlanReport = PlanReport(status: PlanStatus, preflight: Preflight,
                                   payload: Option<MissingPlan>, sha: Option<Digest<MissingPlan>>)

  function PlanFrom(p: Preflight): PlanReport {
    if p.gate.ReadyForMissingOnlyUpsert? || p.gate.ReadyAfterApprovedIndexCreate? then
      var payload := MissingPlanPayload(p);
      PlanReport(AwaitingMissingRepairApproval, p, Some(payload), Some(Sha256(payload)))
    else
      PlanReport(if p.gate.PassedNoRepairNeeded? || p.gate.EmptyPassed? then PassedNoMissingRepairNeeded
                 else PlanBlocked(p.gate), p, None, None)
  }

  method BuildMissingRepairPlan(db: Database, store: ChunkStore, storage: Storage, workspaceId: int,
                                batchSize: nat, auditFails: bool)
    returns (plan: Option<PlanReport>)
    requires ValidDb(db) && ValidIndex(store.index) && batchSize > 0
    ensures plan == if workspaceId !in db.workspaces then None
                    else Some(PlanFrom(PreflightOf(db, store.index, storage, db.workspaces[workspaceId], auditFails)))
  {
    var scan := ScanWorkspace(db, store, storage, workspaceId, batchSize, auditFails);
    plan := if scan.None? then None else Some(PlanFrom(scan.value.0));
  }

  // ---------------------------------------------------------------- application

  datatype RepairStatus =
    | BlockedMissingPlanDrift | Blocked(gate: Gate) | BlockedIndexCreateApproval
    | FailedBulkException | FailedPartialBulk | FailedPostAuditError | FailedPostAudit | FailedPostAuditOrphanDrift
    | PassedNoop | PassedNoopOrphansRemain | PassedMissingRepaired | PassedMissingRepairedOrphansRemain

  predicate PassedRepair(s: RepairStatus) {
    s.PassedNoop? || s.PassedNoopOrphansRemain? || s.PassedMissingRepaired? || s.PassedMissingRepairedOrphansRemain?
  }

  datatype BatchReport = BatchReport(number: nat, submitted: nat, accepted: nat)

  datatype RepairResult = RepairResult(status: RepairStatus, preflight: Preflight, indexCreated: bool,
                                       submitted: nat, accepted: nat, batches: seq<BatchReport>,
                                       postAudit: Option<AuditReport>)

  function BlockedResult(s: RepairStatus, p: Preflight, created: bool): RepairResult {
    RepairResult(s, p, created, 0, 0, [], None)
  }

  /** The five legacy fields of one chunk. */
  function LegacyDocument(ws: Workspace, l: Loaded): Hit {
    var id := l.chunk.chunkId[..Min(MAX_CHUNK_ID, |l.chunk.chunkId|)];
    Hit(id, Source(Some(id), Some(l.chunk.fileId), Some(ws.id), Some(ws.slugSegment),
                   Some(l.text[..Min(MAX_CONTENT, |l.text|)])))
  }

  function Documents(ws: Workspace, loaded: seq<Loaded>): (docs: seq<Hit>)
    ensures |docs| == |loaded|
    ensures forall i :: 0 <= i < |loaded| ==> docs[i] == LegacyDocument(ws, loaded[i])
  {
    seq(|loaded|, i requires 0 <= i < |loaded| => LegacyDocument(ws, loaded[i]))
  }

  /** What stops the command before it writes, in the order the command checks it. */
  function BlockBeforeWrite(p: Preflight, approved: Option<MissingPlan>, allowCreate: bool): Option<RepairStatus> {
    if approved.Some? && MissingPlanPayload(p) != approved.value then Some(BlockedMissingPlanDrift)
    else if p.l2.status.FailedL2? then Some(Blocked(BlockedL2))
    else if p.mapping.status.MappingIncompatible? then Some(Blocked(BlockedMapping))
    else if ResourceConflict(p.mapping.status) then Some(Blocked(BlockedEsResource))
    else if p.gate.BlockedLegacyAudit? || p.gate.BlockedConcurrentDrift? then Some(Blocked(p.gate))
    else if p.mapping.status.IndexAbsent? && !allowCreate then Some(BlockedIndexCreateApproval)
    else None
  }

  datatype WriteStatus = AllWritten | PartialBulk | BulkException

  datatype WriteOutcome = WriteOutcome(hits: seq<Hit>, submitted: nat, accepted: nat, batches: seq<BatchReport>,
                                       status: WriteStatus)

  /** The batches from number `k` on: stop at the first call that raises or does not accept everything. */
  function WriteBatches(hits: seq<Hit>, docs: seq<Hit>, size: nat, k: nat, bulk: seq<BulkOutcome>): WriteOutcome
    requires size > 0
    decreases |docs|
  {
    if docs == [] then WriteOutcome(hits, 0, 0, [], AllWritten)
    else
      var n := Min(size, |docs|);
      var batch := docs[..n];
      var after := ApplyUpserts(hits, batch, Call(bulk, k).refused);
      var accepted := |Filter(ChosenHit(Call(bulk, k).refused), batch)|;
      if Call(bulk, k).Raises? then WriteOutcome(after, n, 0, [BatchReport(k, n, 0)], BulkException)
      else if accepted != n then WriteOutcome(after, n, accepted, [BatchReport(k, n, accepted)], PartialBulk)
      else Prepend(n, accepted, [BatchReport(k, n, accepted)], WriteBatches(after, docs[n..], size, k + 1, bulk))
  }

  function Prepend(submitted: nat, accepted: nat, batches: seq<BatchReport>, rest: WriteOutcome): WriteOutcome {
    rest.(submitted := submitted + rest.submitted, accepted := accepted + rest.accepted,
          batches := batches + rest.batches)
  }

  function PostStatus(audit: AuditReport, before: Option<AuditReport>, submitted: nat): RepairStatus {
    if audit.missingCount != 0 || audit.mismatchCount != 0 || audit.deletedCount != 0 then FailedPostAudit
    else if audit.orphanCount != (if before.Some? then before.value.orphanCount else 0) then FailedPostAuditOrphanDrift
    else if submitted == 0 then if audit.orphanCount != 0 then PassedNoopOrphansRemain else PassedNoop
    else if audit.orphanCount != 0 then PassedMissingRepairedOrphansRemain
    else PassedMissingRepaired
  }

  function Conclude(db: Database, ix: Index, p: Preflight, created: bool, out: WriteOutcome, auditFails: bool)
    : RepairResult
  {
    var audit := if auditFails || ix.resource.Unreachable? then None
                 else Some(Audit(db, ix, p.workspace.id, FULL_ID_LIMIT));
    var status :=
      if audit.None? then FailedPostAuditError
      else if out.status.BulkException? then FailedBulkException
      else if out.status.PartialBulk? then FailedPartialBulk
      else PostStatus(audit.value, p.preAudit, out.submitted);
    RepairResult(status, p, created, out.submitted, out.accepted, out.batches, audit)
  }

  /** The documents of all readable candidates. */
  function ToWrite(db: Database, ix: Index, storage: Storage, ws: Workspace): seq<Hit> {
    Documents(ws, LoadedRows(storage, ws, Candidates(db, ix, ws)))
  }

  /** The command once nothing blocks it. */
  function Execute(db: Database, ix: Index, storage: Storage, p: Preflight, size: nat, faults: Faults)
    : (Index, RepairResult)
    requires size > 0
  {
    var created := p.mapping.status.IndexAbsent?;
    var base := if created then Index(faults.created, []) else ix;
    if created && !InspectLegacyMapping(base.resource, p.activeCount).compatible then
      (base, BlockedResult(Blocked(BlockedMapping), p, true))
    else
      var out := WriteBatches(base.hits, ToWrite(db, ix, storage, p.workspace), size, 1, faults.bulk);
      var final := base.(hits := out.hits);
      (final, Conclude(db, final, p, created, out, faults.postAuditFails))
  }

  /** The index and the result after the command. */
  function Repair(db: Database, ix: Index, storage: Storage, ws: Workspace, allowCreate: bool, size: nat,
                  approved: Option<MissingPlan>, faults: Faults): (Index, RepairResult)
    requires size > 0
  {
    var p := PreflightOf(db, ix, storage, ws, faults.preAuditFails);
    var block := BlockBeforeWrite(p, approved, allowCreate);
    if block.Some? then (ix, BlockedResult(block.value, p, false))
    else Execute(db, ix, storage, p, size, faults)
  }

  /** One batch more: what was written so far, followed by the remaining batches. */
  lemma {:induction false} OneBatchMore(s: nat, a: nat, b: seq<BatchReport>, hits: seq<Hit>, rest: seq<Hit>, size: nat,
                                        k: nat, bulk: seq<BulkOutcome>)
    requires size > 0 && rest != []
    ensures var n := Min(size, |rest|);
            var after := ApplyUpserts(hits, rest[..n], Call(bulk, k).refused);
            var got := |Filter(ChosenHit(Call(bulk, k).refused), rest[..n])|;
            Prepend(s, a, b, WriteBatches(hits, rest, size, k, bulk)) ==
            if Call(bulk, k).Raises? then WriteOutcome(after, s + n, a, b + [BatchReport(k, n, 0)], BulkException)
            else if got != n then WriteOutcome(after, s + n, a + got, b + [BatchReport(k, n, got)], PartialBulk)
            else Prepend(s + n, a + got, b + [BatchReport(k, n, got)],
                         WriteBatches(after, rest[n..], size, k + 1, bulk))
  {
    var n := Min(size, |rest|);
    var after := ApplyUpserts(hits, rest[..n], Call(bulk, k).refused);
    var got := |Filter(ChosenHit(Call(bulk, k).refused), rest[..n])|;
    var step := [BatchReport(k, n, got)];
    var more := WriteBatches(after, rest[n..], size, k + 1, bulk).batches;
    assert b + (step + more) == (b + step) + more;
  }

  lemma NothingWritten(hits: seq<Hit>, docs: seq<Hit>, size: nat, bulk: seq<BulkOutcome>)
    requires size > 0
    ensures var all := WriteBatches(hits, docs, size, 1, bulk);
            Prepend(0, 0, [], all) == all
  {
    hide WriteBatches;
  }

  lemma NoBatchLeft(hits: seq<Hit>, size: nat, k: nat, bulk: seq<BulkOutcome>)
    requires size > 0
    ensures WriteBatches(hits, [], size, k, bulk) == WriteOutcome(hits, 0, 0, [], AllWritten)
  {
  }

  method WriteAll(store: ChunkStore, docs: seq<Hit>, size: nat, bulk: seq<BulkOutcome>) returns (out: WriteOutcome)
    requires size > 0
    modifies store
    ensures out == WriteBatches(old(store.index).hits, docs, size, 1, bulk)
    ensures store.index == old(store.index).(hits := out.hits)
  {
    hide WriteBatches, ApplyUpserts, Filter;
    var submitted: nat, accepted: nat, number: nat, rest := 0, 0, 1, docs;
    var batches: seq<BatchReport> := [];
    var status := AllWritten;
    NothingWritten(store.index.hits, docs, size, bulk);
    ghost var remaining := WriteBatches(store.index.hits, docs, size, 1, bulk);
    while rest != [] && status.AllWritten?
      invariant store.index.resource == old(store.index).resource
      invariant status.AllWritten? ==> remaining == WriteBatches(store.index.hits, rest, size, number, bulk)
      invariant WriteBatches(old(store.index).hits, docs, size, 1, bulk) ==
                if status.AllWritten? then Prepend(submitted, accepted, batches, remaining)
                else WriteOutcome(store.index.hits, submitted, accepted, batches, status)
      decreases |rest|, status.AllWritten?
    {
      OneBatchMore(submitted, accepted, batches, store.index.hits, rest, size, number, bulk);
      var batch := rest[..Min(size, |rest|)];
      submitted := submitted + |batch|;
      var got := store.BulkUpsert(batch, Call(bulk, number));
      var count := if got.None? then 0 else got.value;
      accepted := accepted + count;
      batches := batches + [BatchReport(number, |batch|, count)];
      status := if got.None? then BulkException else if count != |batch| then PartialBulk else AllWritten;
      rest := rest[|batch|..];
      number := number + 1;
      remaining := WriteBatches(store.index.hits, rest, size, number, bulk);
    }
    NoBatchLeft(store.index.hits, size, number, bulk);
    out := WriteOutcome(store.index.hits, submitted, accepted, batches, status);
  }

  method RepairMissingChunks(db: Database, store: ChunkStore, storage: Storage, workspaceId: int, allowCreate: bool,
                             batchSize: nat, approved: Option<MissingPlan>, faults: Faults)
    returns (result: Option<RepairResult>)
    requires ValidDb(db) && ValidIndex(store.index) && batchSize > 0 && ValidFaults(faults)
    modifies store
    ensures workspaceId !in db.workspaces ==> result == None && store.index == old(store.index)
    ensures workspaceId in db.workspaces ==>
              result.Some? && (store.index, result.value) ==
              Repair(db, old(store.index), storage, db.workspaces[workspaceId], allowCreate, batchSize, approved, faults)
  {
    var scan := ScanWorkspace(db, store, storage, workspaceId, batchSize, faults.preAuditFails);
    if scan.None? {
      return None;
    }
    var (preflight, loaded) := scan.value;
    var block := BlockBeforeWrite(preflight, approved, allowCreate);
    if block.Some? {
      return Some(BlockedResult(block.value, preflight, false));
    }
    var created := false;
    if preflight.mapping.status.IndexAbsent? {
      store.EnsureIndex(faults.created);
      created := true;
      var after := InspectLegacyMapping(store.index.resource, preflight.activeCount);
      if !after.compatible {
        return Some(BlockedResult(Blocked(BlockedMapping), preflight, true));
      }
    } else {
      WritableIndex(db, store.index, storage, preflight.workspace);
    }
    var report := WriteAndAudit(db, store, preflight, loaded, created, batchSize, faults);
    result := Some(report);
  }

  method WriteAndAudit(db: Database, store: ChunkStore, preflight: Preflight, loaded: seq<Loaded>, created: bool,
                       batchSize: nat, faults: Faults)
    returns (result: RepairResult)
    requires ValidDb(db) && ValidIndex(store.index) && batchSize > 0
    requires store.index.resource.Absent? ==> loaded == []
    modifies store
    ensures var docs := Documents(preflight.workspace, loaded);
            var out := WriteBatches(old(store.index).hits, docs, batchSize, 1, faults.bulk);
            && store.index == old(store.index).(hits := out.hits)
            && result == Conclude(db, store.index, preflight, created, out, faults.postAuditFails)
  {
    var out := WriteAll(store, Documents(preflight.workspace, loaded), batchSize, faults.bulk);
    var audit := AuditWorkspace(db, store.index, preflight.workspace.id, batchSize, FULL_ID_LIMIT,
                                faults.postAuditFails);
    var status :=
      if audit.None? then FailedPostAuditError
      else if out.status.BulkException? then FailedBulkException
      else if out.status.PartialBulk? then FailedPartialBulk
      else PostStatus(audit.value, preflight.preAudit, out.submitted);
    result := RepairResult(status, preflight, created, out.submitted, out.accepted, out.batches, audit);
  }

  /** Where no index is needed there is nothing to write. */
  lemma WritableIndex(db: Database, ix: Index, storage: Storage, ws: Workspace)
    requires !InspectLegacyMapping(ix.resource, |ActiveRows(db, ws.id)|).status.IndexAbsent?
    ensures ix.resource.Absent? ==> LoadedRows(storage, ws, Candidates(db, ix, ws)) == []
  {
  }

  // ---------------------------------------------------------------- application of an approved plan

  datatype Applied = RefusedApproval | RefusedIndexCreate | Ran(result: RepairResult)

  predicate PlanApproved(plan: PlanReport, approval: Digest<MissingPlan>, workspaceId: int) {
    && plan.payload.Some?
    && plan.status.AwaitingMissingRepairApproval?
    && plan.sha == Some(Sha256(plan.payload.value))
    && approval == Sha256(plan.payload.value)
    && plan.payload.value.workspaceId == workspaceId
  }

  /** The second component is None when the workspace does not exist: the source raises. */
  function ApplyMissing(db: Database, ix: Index, storage: Storage, workspaceId: int, plan: PlanReport,
                        approval: Digest<MissingPlan>, allowCreate: bool, size: nat, faults: Faults)
    : (Index, Option<Applied>)
    requires size > 0
  {
    if !PlanApproved(plan, approval, workspaceId) then (ix, Some(RefusedApproval))
    else if plan.payload.value.requiresIndexCreate && !allowCreate then (ix, Some(RefusedIndexCreate))
    else if workspaceId !in db.workspaces then (ix, None)
    else
      var (after, r) := Repair(db, ix, storage, db.workspaces[workspaceId], allowCreate, size, plan.payload, faults);
      (after, Some(Ran(r)))
  }

  method RepairApprovedMissingChunks(db: Database, store: ChunkStore, storage: Storage, workspaceId: int,
                                     plan: PlanReport, approval: Digest<MissingPlan>, allowCreate: bool,
                                     batchSize: nat, faults: Faults)
    returns (result: Option<Applied>)
    requires ValidDb(db) && ValidIndex(store.index) && batchSize > 0 && ValidFaults(faults)
    modifies store
    ensures (store.index, result) ==
            ApplyMissing(db, old(store.index), storage, workspaceId, plan, approval, allowCreate, batchSize, faults)
  {
    if plan.payload.None? {
      return Some(RefusedApproval);
    }
    var payload := plan.payload.value;
    var expected := Sha256(payload);
    if
      || !plan.status.AwaitingMissingRepairApproval?
      || plan.sha != Some(expected)
      || approval != expected
      || payload.workspaceId != workspaceId
    {
      return Some(RefusedApproval);
    }
    if payload.requiresIndexCreate && !allowCreate {
      return Some(RefusedIndexCreate);
    }
    var ran := RepairMissingChunks(db, store, storage, workspaceId, allowCreate, batchSize, Some(payload), faults);
    result := if ran.None? then None else Some(Ran(ran.value));
  }
}
