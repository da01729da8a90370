/** The four stages in order, when no call is refused: they end in agreement exactly from the states
    that the gates let through. */
module RepairConvergence {
  import opened Sequences
  import opened ChunkStores
  import opened LegacyAudit
  import opened AuditProperties
  import opened StoreClient
  import opened MissingRepair
  import opened MissingRepairProperties
  import opened OrphanDelete
  import opened OrphanDeleteProperties
  import opened RepairProtocol

  const CALM: Faults := Faults(false, false, FreshLegacyResource(), [])
  const CALM_DELETE: DeleteFaults := DeleteFaults(false, false, Accepts({}))

  function PlanStage(db: Database, ix: Index, storage: Storage, ws: Workspace): PlanReport {
    PlanFrom(PreflightOf(db, ix, storage, ws, false))
  }

  /** Apply the plan with its own hash as approval, if it awaits one. */
  function ApplyStage(db: Database, ix: Index, storage: Storage, ws: Workspace, size: nat): Index
    requires size > 0
  {
    var plan := PlanStage(db, ix, storage, ws);
    if plan.status.AwaitingMissingRepairApproval?
    then ApplyMissing(db, ix, storage, ws.id, plan, plan.sha.value, true, size, CALM).0
    else ix
  }

  /** Delete what the manifest lists with its own hash as approval, if it awaits one. */
  function DeleteStage(db: Database, ix: Index, ws: Workspace): Index {
    var m := BuildManifest(db, ix, ws);
    if m.status.AwaitingSeparateApproval? then DeleteOrphans(db, ix, ws.id, m, m.sha.value, CALM_DELETE).0 else ix
  }

  function Pipeline(db: Database, ix: Index, storage: Storage, ws: Workspace, size: nat): Index
    requires size > 0
  {
    DeleteStage(db, ApplyStage(db, ix, storage, ws, size), ws)
  }

  /** Nothing is left to do, and both plans say so. */
  ghost predicate Converged(db: Database, ix: Index, storage: Storage, ws: Workspace) {
    && InAgreement(db, ws.id, ix)
    && PlanStage(db, ix, storage, ws).status.PassedNoMissingRepairNeeded?
    && BuildManifest(db, ix, ws).status.PassedNoOrphans?
  }

  /** What an operator can check beforehand: an index with the right mapping or none and something to put
      in it, a readable text for every missing chunk, no document of another owner or of a deleted file,
      and lists that fit the id limit. */
  ghost predicate Repairable(db: Database, ix: Index, storage: Storage, ws: Workspace) {
    && ((ix.resource.Absent? && ActiveRows(db, ws.id) != [])
        || InspectLegacyMapping(ix.resource, |ActiveRows(db, ws.id)|).compatible)
    && PlanOpen(db, ix, storage, ws)
    && |Judged(db, ws.id, ix.hits, Orphan)| <= FULL_ID_LIMIT
  }

  // ---------------------------------------------------------------- the first two stages

  lemma CutShort(ids: seq<ChunkId>, limit: nat)
    requires Distinct(ids)
    ensures IdSet(Samples(ids, limit)) != IdSet(ids) <==> |ids| > limit
  {
    SampleFacts(ids, limit);
    var listed := Samples(ids, limit);
    hide Samples;
    if |ids| <= limit {
      assert listed == ids[..|ids|] == ids;
    } else {
      ShorterListMisses(ids, listed);
      var id :| id in ids && id !in listed;
      assert id in IdSet(ids) && id !in IdSet(listed);
    }
  }

  lemma AuditFields(db: Database, ix: Index, workspaceId: int, limit: nat)
    ensures var a := Audit(db, ix, workspaceId, limit);
            var ids := ChunkIds(MissingRows(ActiveRows(db, workspaceId), ix.hits));
            && a.activeCount == |ActiveRows(db, workspaceId)|
            && a.missingCount == |ids| && a.missingIds == Samples(ids, limit)
            && a.mismatchCount == |Judged(db, workspaceId, ix.hits, Mismatch)|
            && a.deletedCount == |Judged(db, workspaceId, ix.hits, DeletedFile)|
            && a.orphanCount == |Judged(db, workspaceId, ix.hits, Orphan)|
  {
    hide Judged, Samples, ActiveRows, MissingRows, InspectLegacyMapping;
  }

  /** The recheck of the candidates against the audit fails exactly when the id list was cut short. */
  lemma DriftOnlyByLimit(db: Database, ix: Index, ws: Workspace)
    requires ValidDb(db) && ValidIndex(ix) && (ix.resource.Physical? || ix.resource.Absent?)
    ensures Drifted(Audit(db, ix, ws.id, FULL_ID_LIMIT), |ActiveRows(db, ws.id)|, ChunkIds(Candidates(db, ix, ws))) <==>
            |Candidates(db, ix, ws)| > FULL_ID_LIMIT
  {
    CandidateFacts(db, ix, ws);
    MissingMembers(db, ws.id, ix.hits);
    AuditFields(db, ix, ws.id, FULL_ID_LIMIT);
    hide Audit, Judged, Samples, ActiveRows, MissingRows, Candidates, ActiveIds, HitIds, Active, Found;
    CutShort(ChunkIds(MissingRows(ActiveRows(db, ws.id), ix.hits)), FULL_ID_LIMIT);
  }

  lemma PreflightFields(db: Database, ix: Index, storage: Storage, ws: Workspace)
    requires ix.resource.Physical? || ix.resource.Absent?
    ensures var p := PreflightOf(db, ix, storage, ws, false);
            && p.l2.status == L2Preflight(storage, ws, Candidates(db, ix, ws)).status
            && p.mapping == InspectLegacyMapping(ix.resource, |ActiveRows(db, ws.id)|)
            && p.activeCount == |ActiveRows(db, ws.id)|
            && p.preAudit == Some(Audit(db, ix, ws.id, FULL_ID_LIMIT))
            && p.candidateIds == ChunkIds(Candidates(db, ix, ws))
            && p.gate == RepairGate(p.l2.status, p.mapping.status, false, p.preAudit, p.activeCount, p.candidateIds)
  {
    hide Audit, L2Preflight, Candidates, ActiveRows, RepairGate;
  }

  /** The gates on a usable mapping. */
  lemma GateOpens(p: Preflight)
    requires p.mapping.status.MappingCompatible? || p.mapping.status.IndexAbsent?
    requires p.preAudit.Some?
    requires p.gate == RepairGate(p.l2.status, p.mapping.status, false, p.preAudit, p.activeCount, p.candidateIds)
    ensures var a := p.preAudit.value;
            var open := && !p.l2.status.FailedL2? && a.mismatchCount == 0 && a.deletedCount == 0
                        && !Drifted(a, p.activeCount, p.candidateIds);
            && (open <==> Executable(p))
            && (!open ==> PlanFrom(p).status.PlanBlocked?)
            && (open ==> PlanFrom(p).status ==
                         if p.mapping.status.MappingCompatible? && p.candidateIds == []
                         then PassedNoMissingRepairNeeded else AwaitingMissingRepairApproval)
  {
    hide Drifted, MissingPlanPayload;
  }

  ghost predicate PlanOpen(db: Database, ix: Index, storage: Storage, ws: Workspace) {
    && FailuresOf(storage, ws, Candidates(db, ix, ws)) == []
    && (forall h :: h in ix.hits ==> NamesOwner(db, ws.id, h) || IsOrphanId(db, h.id))
    && |Candidates(db, ix, ws)| <= FULL_ID_LIMIT
  }

  /** The plan awaits approval or reports nothing to do exactly when no gate closes. */
  lemma PlanStageOpen(db: Database, ix: Index, storage: Storage, ws: Workspace)
    requires ValidDb(db) && ValidIndex(ix)
    requires (ix.resource.Absent? && ActiveRows(db, ws.id) != [])
             || InspectLegacyMapping(ix.resource, |ActiveRows(db, ws.id)|).compatible
    ensures PlanOpen(db, ix, storage, ws) <==> Executable(PreflightOf(db, ix, storage, ws, false))
    ensures PlanStage(db, ix, storage, ws).status.PlanBlocked? <==> !PlanOpen(db, ix, storage, ws)
    ensures PlanStage(db, ix, storage, ws).status.PassedNoMissingRepairNeeded? <==>
            PlanOpen(db, ix, storage, ws) && Candidates(db, ix, ws) == []
  {
    PreflightFields(db, ix, storage, ws);
    GateOpens(PreflightOf(db, ix, storage, ws, false));
    DriftOnlyByLimit(db, ix, ws);
    NothingMisplaced(db, ix, ws.id);
    AuditFields(db, ix, ws.id, FULL_ID_LIMIT);
    CandidatesOfAbsent(db, ix, ws);
    hide PreflightOf, PlanFrom, Executable, Audit, ActiveRows, Candidates, LoadedRows, FailuresOf, Judged, NamesOwner,
         IsOrphanId, Drifted, CompatibleMapping, Samples, MissingRows, RepairGate;
  }

  lemma CandidatesOfAbsent(db: Database, ix: Index, ws: Workspace)
    ensures ix.resource.Absent? ==> Candidates(db, ix, ws) == ActiveRows(db, ws.id)
  {
  }

  lemma {:induction false} CalmWritesAll(hits: seq<Hit>, docs: seq<Hit>, size: nat, k: nat)
    requires size > 0
    ensures WriteBatches(hits, docs, size, k, []).status.AllWritten?
    decreases |docs|
  {
    if docs != [] {
      var n := Min(size, |docs|);
      FilterAll(ChosenHit({}), docs[..n]);
      CalmWritesAll(ApplyUpserts(hits, docs[..n], {}), docs[n..], size, k + 1);
    }
  }

  lemma FreshIsCompatible(activeCount: nat)
    ensures InspectLegacyMapping(FreshLegacyResource(), activeCount).compatible
  {
  }

  /** The first two stages leave only orphans besides the active chunks. */
  lemma ApplyStageRepairs(db: Database, ix: Index, storage: Storage, ws: Workspace, size: nat)
    requires ValidDb(db) && WellFormed(ix) && size > 0
    requires ws.id in db.workspaces && db.workspaces[ws.id] == ws
    requires Repairable(db, ix, storage, ws)
    ensures var after := ApplyStage(db, ix, storage, ws, size);
            && Repaired(db, ws.id, ix, after)
            && InspectLegacyMapping(after.resource, |ActiveRows(db, ws.id)|).compatible
  {
    var p := PreflightOf(db, ix, storage, ws, false);
    var plan := PlanFrom(p);
    PlanStageOpen(db, ix, storage, ws);
    PreflightFacts(db, ix, storage, ws, false);
    if plan.status.AwaitingMissingRepairApproval? {
      ApplyStageExecutes(db, ix, storage, ws, size);
    } else {
      NothingToWrite(db, ix, ws);
      CandidatesOfAbsent(db, ix, ws);
    }
  }

  /** With its own plan, its own hash and leave to create the index, the command is not blocked. */
  lemma ApplyStageIsExecute(db: Database, ix: Index, storage: Storage, ws: Workspace, size: nat)
    requires size > 0 && ws.id in db.workspaces && db.workspaces[ws.id] == ws
    requires Executable(PreflightOf(db, ix, storage, ws, false))
    requires PlanStage(db, ix, storage, ws).status.AwaitingMissingRepairApproval?
    ensures ApplyStage(db, ix, storage, ws, size) ==
            Execute(db, ix, storage, PreflightOf(db, ix, storage, ws, false), size, CALM).0
  {
    PreflightFacts(db, ix, storage, ws, false);
    hide PreflightOf, Execute, FailuresOf, Candidates, Audit, ActiveRows, InspectLegacyMapping;
  }

  /** A plan that awaits approval has rows to write: without an index, one has to be created. */
  lemma AwaitingNeedsIndex(db: Database, ix: Index, storage: Storage, ws: Workspace)
    requires PlanStage(db, ix, storage, ws).status.AwaitingMissingRepairApproval?
    ensures ix.resource.Absent? ==> PreflightOf(db, ix, storage, ws, false).mapping.status.IndexAbsent?
  {
    hide Audit, ActiveRows, Candidates, LoadedRows, FailuresOf, CompatibleMapping;
    CandidatesOfAbsent(db, ix, ws);
  }

  lemma ApplyStageExecutes(db: Database, ix: Index, storage: Storage, ws: Workspace, size: nat)
    requires ValidDb(db) && WellFormed(ix) && size > 0
    requires ws.id in db.workspaces && db.workspaces[ws.id] == ws
    requires Executable(PreflightOf(db, ix, storage, ws, false))
    requires PlanStage(db, ix, storage, ws).status.AwaitingMissingRepairApproval?
    ensures var after := ApplyStage(db, ix, storage, ws, size);
            && Repaired(db, ws.id, ix, after)
            && InspectLegacyMapping(after.resource, |ActiveRows(db, ws.id)|).compatible
  {
    hide PreflightOf, Repaired, FailuresOf, Candidates, Audit, ToWrite, ActiveRows, ApplyStage, PlanStage, Execute;
    var p := PreflightOf(db, ix, storage, ws, false);
    ApplyStageIsExecute(db, ix, storage, ws, size);
    PreflightFacts(db, ix, storage, ws, false);
    AwaitingNeedsIndex(db, ix, storage, ws);
    CalmExecutePasses(db, ix, storage, p, size);
  }

  lemma {:induction false} CalmExecutePasses(db: Database, ix: Index, storage: Storage, p: Preflight, size: nat)
    requires ValidDb(db) && ValidIndex(ix) && size > 0 && Executable(p)
    requires p.mapping == InspectLegacyMapping(ix.resource, p.activeCount)
    requires ix.resource.Absent? ==> p.mapping.status.IndexAbsent?
    requires FailuresOf(storage, p.workspace, Candidates(db, ix, p.workspace)) == []
    requires p.preAudit == Some(Audit(db, ix, p.workspace.id, FULL_ID_LIMIT))
    requires p.preAudit.value.mismatchCount == 0 && p.preAudit.value.deletedCount == 0
    ensures var after := Execute(db, ix, storage, p, size, CALM).0;
            && Repaired(db, p.workspace.id, ix, after)
            && InspectLegacyMapping(after.resource, p.activeCount).compatible
  {
    var (after, r) := Execute(db, ix, storage, p, size, CALM);
    FreshIsCompatible(p.activeCount);
    CalmResult(db, ix, storage, p, size, CALM, after, r);
    hide Execute, Repaired, FailuresOf, Candidates, Audit, FreshLegacyResource, CompatibleMapping;
    ExecutePasses(db, ix, storage, p, size, CALM, after, r);
  }

  lemma {:induction false} CalmResult(db: Database, ix: Index, storage: Storage, p: Preflight, size: nat, faults: Faults,
                                      after: Index, r: RepairResult)
    requires size > 0 && (p.mapping.status.MappingCompatible? || p.mapping.status.IndexAbsent?)
    requires p.mapping.status.MappingCompatible? ==> ix.resource.Physical?
    requires faults.bulk == [] && !faults.postAuditFails
    requires faults.created.Physical? && InspectLegacyMapping(faults.created, p.activeCount).compatible
    requires (after, r) == Execute(db, ix, storage, p, size, faults)
    ensures !BlockedRepair(r.status) && r.accepted == r.submitted && r.postAudit.Some?
    ensures after.resource == if p.mapping.status.IndexAbsent? then faults.created else ix.resource
  {
    hide Audit, ToWrite, WriteBatches, InspectLegacyMapping, PostStatus;
    var base := if p.mapping.status.IndexAbsent? then Index(faults.created, []) else ix;
    var docs := ToWrite(db, ix, storage, p.workspace);
    CalmWritesAll(base.hits, docs, size, 1);
    StoppedMeansRefused(base.hits, docs, size, 1, []);
    var out := WriteBatches(base.hits, docs, size, 1, []);
    assert r == Conclude(db, after, p, p.mapping.status.IndexAbsent?, out, false);
    PostStatusIsNoBlock(r.postAudit.value, p.preAudit, out.submitted);
  }

  lemma PostStatusIsNoBlock(audit: AuditReport, before: Option<AuditReport>, submitted: nat)
    ensures !BlockedRepair(PostStatus(audit, before, submitted))
  {
  }

  lemma NothingToWrite(db: Database, ix: Index, ws: Workspace)
    requires ValidDb(db) && ValidIndex(ix) && (ix.resource.Physical? || ix.resource.Absent?)
    requires Candidates(db, ix, ws) == []
    ensures ActiveIds(db, ws.id) <= HitIds(ix.hits)
  {
    CandidateFacts(db, ix, ws);
    forall c | c in db.chunks && Active(db, ws.id, c) ensures c.chunkId in HitIds(ix.hits) {
      assert c !in Candidates(db, ix, ws);
    }
  }

  // ---------------------------------------------------------------- the last two stages

  lemma NoOrphansAgree(db: Database, ix: Index, workspaceId: int)
    requires ValidDb(db) && OnlyOrphansExtra(db, workspaceId, ix)
    ensures Judged(db, workspaceId, ix.hits, Orphan) == [] <==> InAgreement(db, workspaceId, ix)
  {
    OrphanIdFacts(db, workspaceId, ix.hits);
    var orphans := Judged(db, workspaceId, ix.hits, Orphan);
    hide Judged;
    if orphans == [] {
      forall h | h in ix.hits ensures NamesOwner(db, workspaceId, h) {
        assert h.id in HitIds(ix.hits) && h.id !in orphans;
      }
    } else {
      assert orphans[0] in orphans;
      var h :| h in ix.hits && h.id == orphans[0];
      assert IsOrphanId(db, h.id);
    }
  }

  /** The manifest awaits approval exactly for a clean index with a complete, non-empty orphan list. */
  lemma ManifestCases(db: Database, ix: Index, ws: Workspace)
    requires ValidDb(db) && UniqueHits(ix.hits)
    ensures var m := BuildManifest(db, ix, ws);
            var orphans := Judged(db, ws.id, ix.hits, Orphan);
            var ready := && InspectLegacyMapping(ix.resource, |ActiveRows(db, ws.id)|).compatible
                         && OnlyOrphansExtra(db, ws.id, ix) && |orphans| <= FULL_ID_LIMIT;
            && (m.status.AwaitingSeparateApproval? <==> ready && orphans != [])
            && (m.status.PassedNoOrphans? <==> ready && orphans == [])
            && (m.status.AwaitingSeparateApproval? ==> m.payload.Some? && m.payload.value.orphanIds == orphans)
  {
    CleanMeansOnlyOrphansExtra(db, ix, ws.id, FULL_ID_LIMIT);
    ListedOrphans(db, ix, ws.id, FULL_ID_LIMIT);
    AuditFields(db, ix, ws.id, FULL_ID_LIMIT);
    hide Audit, Judged, ActiveRows, InspectLegacyMapping, OnlyOrphansExtra, Samples, IsOrphanId, MissingRows;
  }

  /** With its own manifest and hash and no refusal, the deletion deletes. */
  lemma DeleteStageExecutes(db: Database, ix: Index, ws: Workspace)
    requires ws.id in db.workspaces && db.workspaces[ws.id] == ws
    requires BuildManifest(db, ix, ws).status.AwaitingSeparateApproval?
    ensures var m := BuildManifest(db, ix, ws);
            && m.payload.Some? && m.sha == Some(Sha256(m.payload.value))
            && DeleteOrphans(db, ix, ws.id, m, m.sha.value, CALM_DELETE) ==
               (var (after, r) := ExecuteDelete(db, ix, ws.id, m.payload.value.orphanIds, CALM_DELETE); (after, Some(r)))
  {
    hide Audit, ActiveRows, InspectLegacyMapping, ExecuteDelete;
  }

  lemma DeleteStageCleans(db: Database, ix: Index, ws: Workspace)
    requires ValidDb(db) && UniqueHits(ix.hits)
    requires ws.id in db.workspaces && db.workspaces[ws.id] == ws
    requires InspectLegacyMapping(ix.resource, |ActiveRows(db, ws.id)|).compatible
    requires OnlyOrphansExtra(db, ws.id, ix) && |Judged(db, ws.id, ix.hits, Orphan)| <= FULL_ID_LIMIT
    ensures InAgreement(db, ws.id, DeleteStage(db, ix, ws))
    ensures DeleteStage(db, ix, ws).resource == ix.resource
  {
    var orphans := Judged(db, ws.id, ix.hits, Orphan);
    ManifestCases(db, ix, ws);
    NoOrphansAgree(db, ix, ws.id);
    OrphanIdFacts(db, ws.id, ix.hits);
    hide Judged, InspectLegacyMapping, ActiveRows, BuildManifest, DeleteOrphans, IsOrphanId, NamesOwner, Audit, InAgreement;
    if orphans != [] {
      DeleteStageExecutes(db, ix, ws);
      AgreementAfterDelete(db, ix, ws.id, orphans, {});
    }
  }

  /** Agreement on a compatible index is what both plans report. */
  lemma AgreementReported(db: Database, ix: Index, storage: Storage, ws: Workspace)
    requires ValidDb(db) && WellFormed(ix) && InAgreement(db, ws.id, ix)
    requires InspectLegacyMapping(ix.resource, |ActiveRows(db, ws.id)|).compatible
    ensures Converged(db, ix, storage, ws)
  {
    CandidateFacts(db, ix, ws);
    NoCandidates(db, ix, ws);
    assert FailuresOf(storage, ws, []) == [];
    assert PlanOpen(db, ix, storage, ws);
    PlanStageOpen(db, ix, storage, ws);
    NoOrphansAgree(db, ix, ws.id);
    ManifestCases(db, ix, ws);
    hide PlanStage, BuildManifest, Candidates, Judged, InspectLegacyMapping, NamesOwner, IsOrphanId;
  }

  lemma RepairablePipelineConverges(db: Database, ix: Index, storage: Storage, ws: Workspace, size: nat)
    requires ValidDb(db) && WellFormed(ix) && size > 0
    requires ws.id in db.workspaces && db.workspaces[ws.id] == ws
    requires Repairable(db, ix, storage, ws)
    ensures Converged(db, Pipeline(db, ix, storage, ws, size), storage, ws)
  {
    var middle := ApplyStage(db, ix, storage, ws, size);
    var final := DeleteStage(db, middle, ws);
    ApplyStageRepairs(db, ix, storage, ws, size);
    StagesAreSafe(db, ix, storage, ws, size);
    hide ApplyStage, DeleteStage, Judged, InspectLegacyMapping, ActiveRows, NamesOwner, IsOrphanId, Converged, InAgreement;
    DeleteStageCleans(db, middle, ws);
    AgreementReported(db, final, storage, ws);
  }

  /** Both stages, from any state: what `RunsAreSafe` says, and the second stage never adds. */
  lemma StagesAreSafe(db: Database, ix: Index, storage: Storage, ws: Workspace, size: nat)
    requires ValidDb(db) && WellFormed(ix) && size > 0
    requires ws.id in db.workspaces && db.workspaces[ws.id] == ws
    ensures var middle := ApplyStage(db, ix, storage, ws, size);
            var final := DeleteStage(db, middle, ws);
            && WellFormed(middle) && SafeChange(db, ws.id, ix, middle)
            && WellFormed(final) && SafeChange(db, ws.id, middle, final)
            && final.resource == middle.resource && (forall h :: h in final.hits ==> h in middle.hits)
  {
    hide PlanStage, BuildManifest, ApplyMissing, DeleteOrphans, NamesOwner, IsOrphanId;
    var plan := PlanStage(db, ix, storage, ws);
    var middle := ApplyStage(db, ix, storage, ws, size);
    var m := BuildManifest(db, middle, ws);
    AwaitingHasHash(db, ix, storage, ws);
    ManifestHasHash(db, middle, ws);
    if plan.status.AwaitingMissingRepairApproval? {
      StepIsSafe(db, ix, ws.id, Apply(storage, plan, plan.sha.value, true, size, CALM));
    }
    if m.status.AwaitingSeparateApproval? {
      StepIsSafe(db, middle, ws.id, Delete(m, m.sha.value, CALM_DELETE));
      DeleteNeverAdds(db, middle, ws.id, m, m.sha.value, CALM_DELETE);
    }
  }

  lemma AwaitingHasHash(db: Database, ix: Index, storage: Storage, ws: Workspace)
    ensures var plan := PlanStage(db, ix, storage, ws);
            plan.status.AwaitingMissingRepairApproval? ==> plan.sha.Some? && plan.payload.Some?
  {
    hide PreflightOf, MissingPlanPayload;
  }

  lemma ManifestHasHash(db: Database, ix: Index, ws: Workspace)
    ensures var m := BuildManifest(db, ix, ws);
            m.status.AwaitingSeparateApproval? ==> m.sha.Some? && m.payload.Some?
  {
    hide Audit, ActiveRows, InspectLegacyMapping;
  }

  lemma DeleteNeverAdds(db: Database, ix: Index, workspaceId: int, m: Manifest, approval: Digest<OrphanPayload>,
                        faults: DeleteFaults)
    requires ValidDb(db)
    ensures var after := DeleteOrphans(db, ix, workspaceId, m, approval, faults).0;
            after.resource == ix.resource && forall h :: h in after.hits ==> h in ix.hits
  {
    var (after, out) := DeleteOrphans(db, ix, workspaceId, m, approval, faults);
    if out.Some? {
      DeleteCases(db, ix, workspaceId, m, approval, faults, after, out.value);
      FilterMembers(SurvivesDelete(out.value.submitted, faults.bulk.refused), ix.hits);
    }
    hide Audit, ActiveRows, InspectLegacyMapping, Filter, BlockDelete;
  }

  lemma NoCandidates(db: Database, ix: Index, ws: Workspace)
    requires ValidDb(db) && ValidIndex(ix) && (ix.resource.Physical? || ix.resource.Absent?)
    ensures Candidates(db, ix, ws) == [] <==> ActiveIds(db, ws.id) <= HitIds(ix.hits)
  {
    var rows := Candidates(db, ix, ws);
    CandidateFacts(db, ix, ws);
    hide Candidates;
    assert rows != [] ==> rows[0] in rows && rows[0].chunkId in ActiveIds(db, ws.id);
    forall c | c in db.chunks && Active(db, ws.id, c) ensures Found(ix.hits, c.chunkId) || rows != [] {
      assert c in rows || Found(ix.hits, c.chunkId);
    }
  }

  // ---------------------------------------------------------------- and only from those states

  /** A compatible index at the end was compatible, or absent and needed, at the start. */
  lemma MappingOrigin(db: Database, ix: Index, storage: Storage, ws: Workspace, size: nat)
    requires ValidDb(db) && WellFormed(ix) && size > 0
    requires ws.id in db.workspaces && db.workspaces[ws.id] == ws
    requires InspectLegacyMapping(ApplyStage(db, ix, storage, ws, size).resource, |ActiveRows(db, ws.id)|).compatible
    ensures (ix.resource.Absent? && ActiveRows(db, ws.id) != [])
            || InspectLegacyMapping(ix.resource, |ActiveRows(db, ws.id)|).compatible
  {
    hide ActiveRows, PlanStage, Repair, OnlyAdds, CompatibleMapping;
    var plan := PlanStage(db, ix, storage, ws);
    AwaitingHasHash(db, ix, storage, ws);
    if plan.status.AwaitingMissingRepairApproval? {
      var (final, out) := ApplyMissing(db, ix, storage, ws.id, plan, plan.sha.value, true, size, CALM);
      if out.Some? && out.value.Ran? {
        RepairOnlyAdds(db, ix, storage, ws, true, size, plan.payload, CALM, final, out.value.result);
        AbsentAddsNothing(db, ix, storage, ws, true, size, plan.payload.value, CALM, final, out.value.result);
      }
    }
  }

  /** What the first stage leaves alone: the orphans always, everything when the plan is blocked. */
  lemma ApplyStageKeepsOrphans(db: Database, ix: Index, storage: Storage, ws: Workspace, size: nat)
    requires ValidDb(db) && WellFormed(ix) && size > 0
    requires ws.id in db.workspaces && db.workspaces[ws.id] == ws
    ensures Judged(db, ws.id, ApplyStage(db, ix, storage, ws, size).hits, Orphan) == Judged(db, ws.id, ix.hits, Orphan)
    ensures PlanStage(db, ix, storage, ws).status.PlanBlocked? ==> ApplyStage(db, ix, storage, ws, size) == ix
  {
    var plan := PlanStage(db, ix, storage, ws);
    assert plan.status.AwaitingMissingRepairApproval? ==> plan.sha.Some?;
    hide PlanStage, Judged;
    if plan.status.AwaitingMissingRepairApproval? {
      var (final, out) := ApplyMissing(db, ix, storage, ws.id, plan, plan.sha.value, true, size, CALM);
      if out.Some? && out.value.Ran? {
        RepairOnlyAdds(db, ix, storage, ws, true, size, plan.payload, CALM, final, out.value.result);
        hide Repair, ApplyMissing, OnlyAdds;
        AddingKeepsAnomalies(db, ix, storage, ws, final);
      }
    }
  }

  lemma ConvergedWasRepairable(db: Database, ix: Index, storage: Storage, ws: Workspace, size: nat)
    requires ValidDb(db) && WellFormed(ix) && size > 0
    requires ws.id in db.workspaces && db.workspaces[ws.id] == ws
    requires Converged(db, Pipeline(db, ix, storage, ws, size), storage, ws)
    ensures Repairable(db, ix, storage, ws)
  {
    var middle := ApplyStage(db, ix, storage, ws, size);
    var final := DeleteStage(db, middle, ws);
    StagesAreSafe(db, ix, storage, ws, size);
    ManifestCases(db, final, ws);
    ManifestCases(db, middle, ws);
    assert InspectLegacyMapping(final.resource, |ActiveRows(db, ws.id)|).compatible;
    MappingOrigin(db, ix, storage, ws, size);
    ApplyStageKeepsOrphans(db, ix, storage, ws, size);
    PlanStageOpen(db, ix, storage, ws);
    OrphanIdFacts(db, ws.id, middle.hits);
    var orphans := Judged(db, ws.id, middle.hits, Orphan);
    assert orphans != [] ==> orphans[0] in orphans;
    hide ApplyStage, Judged, InspectLegacyMapping, ActiveRows, BuildManifest, PlanStage, Candidates, FailuresOf;
    forall h | h in ix.hits ensures NamesOwner(db, ws.id, h) || IsOrphanId(db, h.id) {
      assert IsOrphanId(db, h.id) || h in final.hits;
    }
    assert |orphans| > FULL_ID_LIMIT ==> final == middle;
    BlockedStaysMissing(db, ix, storage, ws, final);
    assert PlanOpen(db, ix, storage, ws) by {
      if middle == ix {
        assert forall h :: h in final.hits ==> h in ix.hits;
      }
    }
  }

  /** If the plan is closed for want of texts or room, some active chunk is missing. */
  lemma BlockedStaysMissing(db: Database, ix: Index, storage: Storage, ws: Workspace, after: Index)
    requires ValidDb(db) && ValidIndex(ix) && (ix.resource.Physical? || ix.resource.Absent?)
    requires forall h :: h in ix.hits ==> NamesOwner(db, ws.id, h) || IsOrphanId(db, h.id)
    ensures !PlanOpen(db, ix, storage, ws) && (forall h :: h in after.hits ==> h in ix.hits) ==>
              !(ActiveIds(db, ws.id) <= HitIds(after.hits))
  {
    NoCandidates(db, ix, ws);
    assert FailuresOf(storage, ws, []) == [];
  }

  /** The four stages, with nothing refused, end in agreement that both plans report if and only if the
      state at the start was repairable. */
  lemma PipelineConvergesIff(db: Database, ix: Index, storage: Storage, ws: Workspace, size: nat)
    requires ValidDb(db) && WellFormed(ix) && size > 0
    requires ws.id in db.workspaces && db.workspaces[ws.id] == ws
    ensures Converged(db, Pipeline(db, ix, storage, ws, size), storage, ws) <==> Repairable(db, ix, storage, ws)
  {
    hide Pipeline, Converged, Repairable;
    if Repairable(db, ix, storage, ws) {
      RepairablePipelineConverges(db, ix, storage, ws, size);
    }
    if Converged(db, Pipeline(db, ix, storage, ws, size), storage, ws) {
      ConvergedWasRepairable(db, ix, storage, ws, size);
    }
  }
}
