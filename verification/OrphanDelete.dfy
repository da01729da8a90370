/** The approved deletion of orphan documents from one workspace's legacy index. */
module OrphanDelete {
  import opened Sequences
  import opened ChunkStores
  import opened LegacyAudit
  import opened StoreClient
  import opened MissingRepair

  // ---------------------------------------------------------------- diagnosis

  datatype OrphanReason =
    | DbChunkMissing | FileMissing | FileSoftDeleted | ChunkWorkspaceMismatch | FileWorkspaceMismatch | Unclassified

  /** The reason recorded for one id, in the order the reasons are tried. */
  function Diagnose(db: Database, workspaceId: int, id: ChunkId): OrphanReason {
    var chunk := FindChunk(db.chunks, id);
    var file := FileOf(db.files, chunk);
    if chunk.None? then DbChunkMissing
    else if file.None? then FileMissing
    else if file.value.deleted then FileSoftDeleted
    else if chunk.value.workspaceId != workspaceId then ChunkWorkspaceMismatch
    else if file.value.workspaceId != workspaceId then FileWorkspaceMismatch
    else Unclassified
  }

  function HasReason(db: Database, workspaceId: int, r: OrphanReason): ChunkId -> bool {
    (id: ChunkId) => Diagnose(db, workspaceId, id) == r
  }

  function CountOf(db: Database, workspaceId: int, r: OrphanReason, ids: seq<ChunkId>): nat {
    |Filter(HasReason(db, workspaceId, r), ids)|
  }

  /** A reason is listed if and only if some id has it, with the number of ids that do. */
  ghost predicate Counted(db: Database, workspaceId: int, ids: seq<ChunkId>, counts: map<OrphanReason, nat>) {
    forall r: OrphanReason ::
      (r in counts <==> CountOf(db, workspaceId, r, ids) > 0) && (r in counts ==> counts[r] == CountOf(db, workspaceId, r, ids))
  }

  lemma OneReasonMore(db: Database, workspaceId: int, ids: seq<ChunkId>, i: nat, counts: map<OrphanReason, nat>)
    requires i < |ids| && Counted(db, workspaceId, ids[..i], counts)
    ensures var reason := Diagnose(db, workspaceId, ids[i]);
            Counted(db, workspaceId, ids[..i + 1], counts[reason := (if reason in counts then counts[reason] else 0) + 1])
  {
    hide CountOf, Diagnose;
    var reason := Diagnose(db, workspaceId, ids[i]);
    forall r: OrphanReason
      ensures CountOf(db, workspaceId, r, ids[..i + 1]) == CountOf(db, workspaceId, r, ids[..i]) + if r == reason then 1 else 0
    {
      CountStep(db, workspaceId, r, ids, i);
    }
  }

  lemma CountStep(db: Database, workspaceId: int, r: OrphanReason, ids: seq<ChunkId>, i: nat)
    requires i < |ids|
    ensures CountOf(db, workspaceId, r, ids[..i + 1])
         == CountOf(db, workspaceId, r, ids[..i]) + if r == Diagnose(db, workspaceId, ids[i]) then 1 else 0
  {
    hide Diagnose;
    assert ids[..i + 1] == ids[..i] + [ids[i]];
    FilterSnoc(HasReason(db, workspaceId, r), ids[..i], ids[i]);
  }

  lemma NothingCounted(db: Database, workspaceId: int, ids: seq<ChunkId>)
    ensures Counted(db, workspaceId, ids[..0], map[])
  {
  }

  method CountReasons(db: Database, workspaceId: int, ids: seq<ChunkId>) returns (counts: map<OrphanReason, nat>)
    ensures Counted(db, workspaceId, ids, counts)
  {
    hide Counted, Diagnose;
    counts := map[];
    NothingCounted(db, workspaceId, ids);
    for i := 0 to |ids|
      invariant Counted(db, workspaceId, ids[..i], counts)
    {
      OneReasonMore(db, workspaceId, ids, i, counts);
      var reason := Diagnose(db, workspaceId, ids[i]);
      counts := counts[reason := (if reason in counts then counts[reason] else 0) + 1];
    }
    assert ids[..|ids|] == ids;
  }

  // ---------------------------------------------------------------- manifest

  datatype OrphanPayload = OrphanPayload(workspaceId: int, slug: string, indexName: string, orphanIds: seq<ChunkId>)

  datatype ManifestStatus =
    | ManifestBlockedMapping | ManifestBlockedLegacyAudit | BlockedIncompleteOrphanList | PassedNoOrphans
    | AwaitingSeparateApproval

  datatype Manifest = Manifest(status: ManifestStatus, payload: Option<OrphanPayload>,
                               sha: Option<Digest<OrphanPayload>>, audit: Option<AuditReport>)

  predicate Dirty(audit: AuditReport) {
    audit.missingCount != 0 || audit.mismatchCount != 0 || audit.deletedCount != 0
  }

  function ManifestFrom(ws: Workspace, mapping: MappingReport, audit: AuditReport): Manifest {
    if !mapping.compatible then Manifest(ManifestBlockedMapping, None, None, None)
    else if Dirty(audit) then Manifest(ManifestBlockedLegacyAudit, None, None, Some(audit))
    else if |audit.orphanIds| != audit.orphanCount then Manifest(BlockedIncompleteOrphanList, None, None, Some(audit))
    else if audit.orphanIds == [] then Manifest(PassedNoOrphans, None, None, Some(audit))
    else
      var payload := OrphanPayload(ws.id, ws.slug, ws.indexName, audit.orphanIds);
      Manifest(AwaitingSeparateApproval, Some(payload), Some(Sha256(payload)), Some(audit))
  }

  function BuildManifest(db: Database, ix: Index, ws: Workspace): Manifest {
    ManifestFrom(ws, InspectLegacyMapping(ix.resource, |ActiveRows(db, ws.id)|), Audit(db, ix, ws.id, FULL_ID_LIMIT))
  }

  /** None when the workspace does not exist or the audit raises. */
  method BuildOrphanDeleteManifest(db: Database, store: ChunkStore, workspaceId: int, batchSize: nat, auditFails: bool)
    returns (manifest: Option<Manifest>)
    requires ValidDb(db) && ValidIndex(store.index) && batchSize > 0
    ensures workspaceId !in db.workspaces ==> manifest == None
    ensures workspaceId in db.workspaces ==>
              var built := BuildManifest(db, store.index, db.workspaces[workspaceId]);
              manifest == if auditFails && !built.status.ManifestBlockedMapping? then None else Some(built)
  {
    if workspaceId !in db.workspaces {
      return None;
    }
    var ws := db.workspaces[workspaceId];
    var rows := ActiveRows(db, ws.id);
    var mapping := InspectLegacyMapping(store.index.resource, |rows|);
    if !mapping.compatible {
      return Some(Manifest(ManifestBlockedMapping, None, None, None));
    }
    var audit := AuditWorkspace(db, store.index, ws.id, batchSize, FULL_ID_LIMIT, auditFails);
    manifest := if audit.None? then None else Some(ManifestFrom(ws, mapping, audit.value));
  }

  // ---------------------------------------------------------------- deletion

  datatype DeleteStatus =
    | BlockedApproval | DeleteBlockedMapping | DeleteBlockedLegacyAudit | BlockedOrphanDrift
    | FailedDeleteException | FailedDeletePostAuditError | FailedPartialDelete | FailedDeletePostAudit
    | PassedOrphansDeleted

  datatype DeleteResult = DeleteResult(status: DeleteStatus, submitted: seq<ChunkId>, accepted: nat,
                                       postAudit: Option<AuditReport>)

  datatype DeleteFaults = DeleteFaults(preAuditFails: bool, postAuditFails: bool, bulk: BulkOutcome)

  predicate ManifestApproved(m: Manifest, approval: Digest<OrphanPayload>, workspaceId: int) {
    && m.payload.Some?
    && m.status.AwaitingSeparateApproval?
    && m.sha == Some(Sha256(m.payload.value))
    && approval == Sha256(m.payload.value)
    && m.payload.value.workspaceId == workspaceId
  }

  function BlockedDelete(s: DeleteStatus): DeleteResult {
    DeleteResult(s, [], 0, None)
  }

  /** What stops the deletion once the audit of the moment is known. The source compares sorted lists. */
  function BlockDelete(payload: OrphanPayload, audit: AuditReport): Option<DeleteStatus> {
    if Dirty(audit) then Some(DeleteBlockedLegacyAudit)
    else if multiset(payload.orphanIds) != multiset(audit.orphanIds) then Some(BlockedOrphanDrift)
    else None
  }

  function DeleteOutcome(submitted: nat, accepted: Option<nat>, audit: Option<AuditReport>): DeleteStatus {
    if audit.None? then FailedDeletePostAuditError
    else if accepted.None? then FailedDeleteException
    else if accepted.value != submitted then FailedPartialDelete
    else if audit.value.anomalyCount != 0 then FailedDeletePostAudit
    else PassedOrphansDeleted
  }

  /** The deletion of the approved ids and what is reported about it. */
  function ExecuteDelete(db: Database, ix: Index, workspaceId: int, ids: seq<ChunkId>, faults: DeleteFaults)
    : (Index, DeleteResult)
  {
    var refused := faults.bulk.refused;
    var accepted := if ids != [] && faults.bulk.Raises? then None else Some(|Filter(Deletable(ix.hits, refused), ids)|);
    var after := ix.(hits := ApplyDeletes(ix.hits, ids, refused));
    var audit := if faults.postAuditFails then None else Some(Audit(db, after, workspaceId, FULL_ID_LIMIT));
    (after, DeleteResult(DeleteOutcome(|ids|, accepted, audit), ids, if accepted.Some? then accepted.value else 0, audit))
  }

  /** The second component is None when the workspace does not exist or the first audit raises. */
  function DeleteOrphans(db: Database, ix: Index, workspaceId: int, m: Manifest, approval: Digest<OrphanPayload>,
                         faults: DeleteFaults): (Index, Option<DeleteResult>)
  {
    if !ManifestApproved(m, approval, workspaceId) then (ix, Some(BlockedDelete(BlockedApproval)))
    else if workspaceId !in db.workspaces then (ix, None)
    else
      var ws := db.workspaces[workspaceId];
      var payload := m.payload.value;
      if payload.slug != ws.slug || payload.indexName != ws.indexName then (ix, Some(BlockedDelete(BlockedApproval)))
      else if !InspectLegacyMapping(ix.resource, |ActiveRows(db, ws.id)|).compatible then
        (ix, Some(BlockedDelete(DeleteBlockedMapping)))
      else if faults.preAuditFails then (ix, None)
      else
        var block := BlockDelete(payload, Audit(db, ix, ws.id, FULL_ID_LIMIT));
        if block.Some? then (ix, Some(BlockedDelete(block.value)))
        else
          var (after, r) := ExecuteDelete(db, ix, ws.id, payload.orphanIds, faults);
          (after, Some(r))
  }

  method DeleteApprovedOrphans(db: Database, store: ChunkStore, workspaceId: int, m: Manifest,
                               approval: Digest<OrphanPayload>, batchSize: nat, faults: DeleteFaults)
    returns (result: Option<DeleteResult>)
    requires ValidDb(db) && ValidIndex(store.index) && batchSize > 0
    modifies store
    ensures (store.index, result) == DeleteOrphans(db, old(store.index), workspaceId, m, approval, faults)
  {
    if m.payload.None? {
      return Some(BlockedDelete(BlockedApproval));
    }
    var payload := m.payload.value;
    var expected := Sha256(payload);
    if
      || !m.status.AwaitingSeparateApproval?
      || m.sha != Some(expected)
      || approval != expected
      || payload.workspaceId != workspaceId
    {
      return Some(BlockedDelete(BlockedApproval));
    }
    if workspaceId !in db.workspaces {
      return None;
    }
    var ws := db.workspaces[workspaceId];
    var rows := ActiveRows(db, ws.id);
    if payload.slug != ws.slug || payload.indexName != ws.indexName {
      return Some(BlockedDelete(BlockedApproval));
    }
    var mapping := InspectLegacyMapping(store.index.resource, |rows|);
    if !mapping.compatible {
      return Some(BlockedDelete(DeleteBlockedMapping));
    }
    var current := AuditWorkspace(db, store.index, ws.id, batchSize, FULL_ID_LIMIT, faults.preAuditFails);
    if current.None? {
      return None;
    }
    var block := BlockDelete(payload, current.value);
    if block.Some? {
      return Some(BlockedDelete(block.value));
    }
    var ids := payload.orphanIds;
    var accepted := store.BulkDelete(ids, faults.bulk);
    var audit := AuditWorkspace(db, store.index, ws.id, batchSize, FULL_ID_LIMIT, faults.postAuditFails);
    result := Some(DeleteResult(DeleteOutcome(|ids|, accepted, audit), ids,
                                if accepted.Some? then accepted.value else 0, audit));
  }
}
