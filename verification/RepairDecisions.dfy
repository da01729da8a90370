/** What the repair commands decide, in terms of the two stores and the approvals alone: what is loaded, which gate
    closes, what an approval has to be, and what each outcome says. */
module RepairDecisions {
  import opened Sequences
  import opened ChunkStores
  import opened LegacyAudit
  import opened AuditProperties
  import opened StoreClient
  import opened MissingRepair
  import opened MissingRepairProperties
  import opened OrphanDelete
  import opened OrphanDeleteProperties
  import opened RepairProtocol
  import opened RepairConvergence

  // ---------------------------------------------------------------- texts

  ghost function WithText(storage: Storage, ws: Workspace): Chunk -> bool {
    (c: Chunk) => HasStoredText(storage, ws, c)
  }

  ghost function WithEmptyText(storage: Storage, ws: Workspace): Chunk -> bool {
    (c: Chunk) => HasStoredText(storage, ws, c) && storage[(ws.slug, c.objectKey)] == ""
  }

  function ChunkOf(): Loaded -> Chunk {
    (l: Loaded) => l.chunk
  }

  /** Loaded are the rows that have a text, in order, each with that text. */
  lemma {:induction false} LoadedMeaning(storage: Storage, ws: Workspace, rows: seq<Chunk>)
    ensures var loaded := LoadedRows(storage, ws, rows);
            && Map(ChunkOf(), loaded) == Filter(WithText(storage, ws), rows)
            && (forall l :: l in loaded ==> HasStoredText(storage, ws, l.chunk)
                                            && l.text == storage[(ws.slug, l.chunk.objectKey)])
            && |Filter(HasEmptyText(), loaded)| == |Filter(WithEmptyText(storage, ws), rows)|
  {
    if rows != [] {
      LoadedMeaning(storage, ws, rows[..|rows| - 1]);
    }
  }

  /** A row without a text is a failure, under the reason that applies. */
  lemma {:induction false} FailuresMeaning(storage: Storage, ws: Workspace, rows: seq<Chunk>)
    ensures forall f :: f in FailuresOf(storage, ws, rows) <==> exists c :: c in rows && FailsAs(storage, ws, c, f)
  {
    if rows != [] {
      var n := |rows| - 1;
      FailuresMeaning(storage, ws, rows[..n]);
      assert rows[n] in rows && forall c :: c in rows <==> c in rows[..n] || c == rows[n];
    }
  }

  /** The failure recorded for a row that has no text. */
  ghost predicate FailsAs(storage: Storage, ws: Workspace, c: Chunk, f: L2Failure) {
    && !HasStoredText(storage, ws, c)
    && f.chunkId == c.chunkId && (f.MissingObjectKey? <==> c.objectKey == "")
  }

  lemma NoFailures(storage: Storage, ws: Workspace, rows: seq<Chunk>)
    ensures FailuresOf(storage, ws, rows) == [] <==> forall c :: c in rows ==> HasStoredText(storage, ws, c)
  {
    hide FailuresOf;
    FailuresMeaning(storage, ws, rows);
    SomeElement(FailuresOf(storage, ws, rows));
    forall c | c in rows && !HasStoredText(storage, ws, c)
      ensures FailuresOf(storage, ws, rows) != []
    {
      var f := if c.objectKey == "" then MissingObjectKey(c.chunkId) else UnreadableObject(c.chunkId);
      assert FailsAs(storage, ws, c, f) && f in FailuresOf(storage, ws, rows);
    }
    if FailuresOf(storage, ws, rows) != [] {
      var f :| f in FailuresOf(storage, ws, rows);
      var c :| c in rows && FailsAs(storage, ws, c, f);
    }
  }

  /** The report on the texts: its counters, and its status. */
  lemma TextsMeaning(storage: Storage, ws: Workspace, rows: seq<Chunk>)
    ensures var r := L2Preflight(storage, ws, rows);
            && r.candidateCount == |rows| && r.readableCount == |Filter(WithText(storage, ws), rows)|
            && r.emptyCount == |Filter(WithEmptyText(storage, ws), rows)|
            && r.readableCount + |r.failures| == |rows|
            && (r.status.FailedL2? <==> exists c :: c in rows && !HasStoredText(storage, ws, c))
            && (r.status.NoRepairCandidates? <==> rows == [])
  {
    LoadedMeaning(storage, ws, rows);
    NoFailures(storage, ws, rows);
    LoadedOrFailed(storage, ws, rows);
    hide LoadedRows, FailuresOf, HasStoredText, Filter;
    var failures := FailuresOf(storage, ws, rows);
    if rows == [] {
      assert failures == [];
    }
  }

  // ---------------------------------------------------------------- the gate

  /** The repair wants to write a document for the chunk: it is active, and no index is known to hold it. */
  ghost predicate IsWanted(db: Database, ix: Index, ws: Workspace, c: Chunk) {
    c in db.chunks && Active(db, ws.id, c) && !(ix.resource.Physical? && Found(ix.hits, c.chunkId))
  }

  ghost predicate LacksText(db: Database, ix: Index, storage: Storage, ws: Workspace) {
    exists c :: IsWanted(db, ix, ws, c) && !HasStoredText(storage, ws, c)
  }

  /** A document that neither names its owner nor is an orphan. */
  ghost predicate HasMisplaced(db: Database, workspaceId: int, ix: Index) {
    exists h :: h in ix.hits && !NamesOwner(db, workspaceId, h) && !IsOrphanId(db, h.id)
  }

  ghost function MissingNow(db: Database, ix: Index, ws: Workspace): set<ChunkId> {
    ActiveIds(db, ws.id) - HitIds(ix.hits)
  }

  /** The first obstacle, or what there is to do. */
  ghost function GateNow(db: Database, ix: Index, storage: Storage, ws: Workspace, auditFails: bool): Gate {
    if LacksText(db, ix, storage, ws) then BlockedL2
    else if ix.resource.Physical? && ix.resource.rightTarget && !LegacyIndex(ix.resource) then BlockedMapping
    else if !ix.resource.Absent? && !LegacyIndex(ix.resource) then BlockedEsResource
    else if auditFails then BlockedLegacyAudit
    else if |MissingNow(db, ix, ws)| > 2147483647 then BlockedConcurrentDrift
    else if HasMisplaced(db, ws.id, ix) then BlockedLegacyAudit
    else if ix.resource.Absent? then
      if ActiveIds(db, ws.id) != {} then ReadyAfterApprovedIndexCreate else EmptyPassed
    else if MissingNow(db, ix, ws) != {} then ReadyForMissingOnlyUpsert
    else PassedNoRepairNeeded
  }

  lemma CandidatesWanted(db: Database, ix: Index, ws: Workspace)
    ensures forall c :: c in Candidates(db, ix, ws) <==> IsWanted(db, ix, ws, c)
  {
    var rows := ActiveRows(db, ws.id);
    FilterMembers(IsActive(db, ws.id), db.chunks);
    FilterMembers(NotFoundIn(ix.hits), rows);
    assert forall c :: IsActive(db, ws.id)(c) == Active(db, ws.id, c);
    assert forall c :: NotFoundIn(ix.hits)(c) == !Found(ix.hits, c.chunkId);
    hide Active, Found, Filter;
  }

  lemma TextsOfWanted(db: Database, ix: Index, storage: Storage, ws: Workspace)
    ensures L2Preflight(storage, ws, Candidates(db, ix, ws)).status.FailedL2? <==> LacksText(db, ix, storage, ws)
  {
    TextsMeaning(storage, ws, Candidates(db, ix, ws));
    CandidatesWanted(db, ix, ws);
    hide L2Preflight, Candidates, HasStoredText, IsWanted;
  }

  lemma CandidateCount(db: Database, ix: Index, ws: Workspace)
    requires ValidDb(db) && ValidIndex(ix) && (ix.resource.Physical? || ix.resource.Absent?)
    ensures |Candidates(db, ix, ws)| == |MissingNow(db, ix, ws)|
    ensures Candidates(db, ix, ws) == [] <==> MissingNow(db, ix, ws) == {}
  {
    CandidateFacts(db, ix, ws);
    MissingMembers(db, ws.id, ix.hits);
    hide Candidates, MissingRows, ActiveRows, ActiveIds, HitIds, Active, Found;
    DistinctSize(ChunkIds(MissingRows(ActiveRows(db, ws.id), ix.hits)), MissingNow(db, ix, ws));
  }

  lemma ActiveCount(db: Database, workspaceId: int)
    requires ValidDb(db)
    ensures |ActiveRows(db, workspaceId)| == |ActiveIds(db, workspaceId)|
  {
    ActiveRowsFacts(db, workspaceId);
    hide ActiveRows, ActiveIds;
    DistinctSize(ChunkIds(ActiveRows(db, workspaceId)), ActiveIds(db, workspaceId));
  }

  lemma PreflightParts(db: Database, ix: Index, storage: Storage, ws: Workspace, auditFails: bool)
    ensures var p := PreflightOf(db, ix, storage, ws, auditFails);
            && p.l2 == L2Preflight(storage, ws, Candidates(db, ix, ws))
            && p.mapping == InspectLegacyMapping(ix.resource, p.activeCount)
            && p.activeCount == |ActiveRows(db, ws.id)|
            && p.candidateIds == ChunkIds(Candidates(db, ix, ws))
            && p.auditError == (AuditAttempted(p.mapping) && auditFails)
            && p.preAudit == (if AuditAttempted(p.mapping) && !auditFails
                              then Some(Audit(db, ix, ws.id, FULL_ID_LIMIT)) else None)
            && p.gate == RepairGate(p.l2.status, p.mapping.status, p.auditError, p.preAudit, p.activeCount, p.candidateIds)
  {
    hide Audit, L2Preflight, Candidates, ActiveRows, RepairGate, InspectLegacyMapping;
  }

  /** What the audit shows of an index that can be read, or of none. */
  lemma AuditOfNow(db: Database, ix: Index, ws: Workspace)
    requires ValidDb(db) && ValidIndex(ix) && (ix.resource.Physical? || ix.resource.Absent?)
    ensures var a := Audit(db, ix, ws.id, FULL_ID_LIMIT);
            && (Drifted(a, |ActiveRows(db, ws.id)|, ChunkIds(Candidates(db, ix, ws))) <==>
                  |MissingNow(db, ix, ws)| > 2147483647)
            && (a.mismatchCount != 0 || a.deletedCount != 0 <==> HasMisplaced(db, ws.id, ix))
  {
    hide Candidates, ActiveRows, ActiveIds, Audit, Judged, NamesOwner, IsOrphanId, Drifted, HitIds, MissingRows, Samples;
    CandidateCount(db, ix, ws);
    DriftOnlyByLimit(db, ix, ws);
    AuditFields(db, ix, ws.id, FULL_ID_LIMIT);
    NothingMisplaced(db, ix, ws.id);
  }

  /** The preflight's gate is the first obstacle in the stores. */
  lemma GateMeaning(db: Database, ix: Index, storage: Storage, ws: Workspace, auditFails: bool)
    requires ValidDb(db) && ValidIndex(ix)
    ensures PreflightOf(db, ix, storage, ws, auditFails).gate == GateNow(db, ix, storage, ws, auditFails)
  {
    hide PreflightOf, L2Preflight, Candidates, ActiveRows, ActiveIds, Audit, LegacyIndex, InspectLegacyMapping,
         LacksText, HasMisplaced, Drifted, MissingNow, ValidDb;
    PreflightParts(db, ix, storage, ws, auditFails);
    TextsOfWanted(db, ix, storage, ws);
    ActiveCount(db, ws.id);
    NoneOf(ActiveIds(db, ws.id));
    MappingMeaning(ix.resource, |ActiveRows(db, ws.id)|);
    if ix.resource.Physical? || ix.resource.Absent? {
      CandidateCount(db, ix, ws);
      AuditOfNow(db, ix, ws);
    }
  }

  lemma NoneOf(ids: set<ChunkId>)
    ensures |ids| > 0 <==> ids != {}
  {
  }

  // ---------------------------------------------------------------- the plan and its approval

  ghost function WantedIds(db: Database, ix: Index, ws: Workspace): set<ChunkId> {
    set c | c in db.chunks && IsWanted(db, ix, ws, c) :: c.chunkId
  }

  /** The payload says of the stores what holds now. */
  ghost predicate PlanFits(plan: MissingPlan, db: Database, ix: Index, ws: Workspace) {
    var mapping := InspectLegacyMapping(ix.resource, |ActiveIds(db, ws.id)|);
    && plan.workspaceId == ws.id && plan.slug == ws.slug && plan.indexName == ws.indexName
    && plan.activeCount == |ActiveIds(db, ws.id)|
    && plan.candidateIds == multiset(WantedIds(db, ix, ws))
    && plan.mappingStatus == mapping.status
    && plan.snapshot == Sha256((mapping.resourceType, mapping.status, mapping.rawMapping))
    && plan.requiresIndexCreate == (ix.resource.Absent? && ActiveIds(db, ws.id) != {})
  }

  lemma CandidateIdsDistinct(db: Database, ix: Index, ws: Workspace)
    requires ValidDb(db)
    ensures Distinct(ChunkIds(Candidates(db, ix, ws)))
  {
    ActiveRowsFacts(db, ws.id);
    MissingMembers(db, ws.id, ix.hits);
    hide ActiveRows, MissingRows;
  }

  lemma DistinctMultiset(ids: seq<ChunkId>, all: set<ChunkId>)
    requires Distinct(ids) && forall id :: id in ids <==> id in all
    ensures multiset(ids) == multiset(all)
  {
    forall id ensures multiset(ids)[id] == multiset(all)[id] {
      DistinctCount(ids, id);
    }
  }

  lemma CandidateIdsAre(db: Database, ix: Index, ws: Workspace)
    requires ValidDb(db)
    ensures multiset(ChunkIds(Candidates(db, ix, ws))) == multiset(WantedIds(db, ix, ws))
  {
    hide Candidates, ValidDb, IsWanted;
    CandidateIdsDistinct(db, ix, ws);
    CandidatesWanted(db, ix, ws);
    var rows := Candidates(db, ix, ws);
    var ids := ChunkIds(rows);
    forall id ensures id in ids <==> id in WantedIds(db, ix, ws) {
      if id in WantedIds(db, ix, ws) {
        var c :| c in db.chunks && IsWanted(db, ix, ws, c) && c.chunkId == id;
        var i :| 0 <= i < |rows| && rows[i] == c;
        assert ids[i] == id;
      }
      if id in ids {
        var i :| 0 <= i < |ids| && ids[i] == id;
        assert rows[i] in rows && IsWanted(db, ix, ws, rows[i]);
        WantedIsChunk(db, ix, ws, rows[i]);
      }
    }
    DistinctMultiset(ids, WantedIds(db, ix, ws));
  }

  lemma WantedIsChunk(db: Database, ix: Index, ws: Workspace, c: Chunk)
    requires IsWanted(db, ix, ws, c)
    ensures c in db.chunks
  {
  }

  /** A payload is the one of this moment exactly if all that it says holds now. */
  lemma PayloadFits(db: Database, ix: Index, storage: Storage, ws: Workspace, auditFails: bool, plan: MissingPlan)
    requires ValidDb(db)
    ensures MissingPlanPayload(PreflightOf(db, ix, storage, ws, auditFails)) == plan <==> PlanFits(plan, db, ix, ws)
  {
    hide PreflightOf, Candidates, ActiveRows, ActiveIds, WantedIds, InspectLegacyMapping, MissingPlanPayload;
    PayloadOf(db, ix, storage, ws, auditFails);
    CandidateIdsAre(db, ix, ws);
    ActiveCount(db, ws.id);
    NoneOf(ActiveIds(db, ws.id));
    MappingMeaning(ix.resource, |ActiveRows(db, ws.id)|);
  }

  /** What planning answers, for each gate: approval is asked for, with the payload of this moment and its hash, or
      there is nothing to do, or the gate is named. */
  lemma PlanMeaning(db: Database, ix: Index, storage: Storage, ws: Workspace, auditFails: bool)
    requires ValidDb(db) && ValidIndex(ix)
    ensures var plan := PlanFrom(PreflightOf(db, ix, storage, ws, auditFails));
            var gate := GateNow(db, ix, storage, ws, auditFails);
            var ready := gate.ReadyForMissingOnlyUpsert? || gate.ReadyAfterApprovedIndexCreate?;
            && plan.status == (if ready then AwaitingMissingRepairApproval
                               else if gate.EmptyPassed? || gate.PassedNoRepairNeeded? then PassedNoMissingRepairNeeded
                               else PlanBlocked(gate))
            && (ready <==> plan.payload.Some?)
            && (ready ==> PlanFits(plan.payload.value, db, ix, ws) && plan.sha == Some(Sha256(plan.payload.value)))
            && (!ready ==> plan.sha == None)
  {
    hide PreflightOf, GateNow, PlanFits, MissingPlanPayload, ValidDb;
    var p := PreflightOf(db, ix, storage, ws, auditFails);
    GateMeaning(db, ix, storage, ws, auditFails);
    PayloadFits(db, ix, storage, ws, auditFails, MissingPlanPayload(p));
  }

  /** What stops the command before it writes. */
  ghost function ObstacleNow(db: Database, ix: Index, storage: Storage, ws: Workspace, auditFails: bool,
                             approved: Option<MissingPlan>, allowCreate: bool): Option<RepairStatus>
  {
    var gate := GateNow(db, ix, storage, ws, auditFails);
    if approved.Some? && !PlanFits(approved.value, db, ix, ws) then Some(BlockedMissingPlanDrift)
    else if gate.BlockedL2? || gate.BlockedMapping? || gate.BlockedEsResource? || gate.BlockedLegacyAudit?
            || gate.BlockedConcurrentDrift? then Some(Blocked(gate))
    else if gate.ReadyAfterApprovedIndexCreate? && !allowCreate then Some(BlockedIndexCreateApproval)
    else None
  }

  lemma BlockOfGate(p: Preflight, approved: Option<MissingPlan>, allowCreate: bool)
    requires p.gate == RepairGate(p.l2.status, p.mapping.status, p.auditError, p.preAudit, p.activeCount, p.candidateIds)
    ensures BlockBeforeWrite(p, approved, allowCreate) ==
            if approved.Some? && MissingPlanPayload(p) != approved.value then Some(BlockedMissingPlanDrift)
            else if p.gate.BlockedL2? || p.gate.BlockedMapping? || p.gate.BlockedEsResource? || p.gate.BlockedLegacyAudit?
                    || p.gate.BlockedConcurrentDrift? then Some(Blocked(p.gate))
            else if p.gate.ReadyAfterApprovedIndexCreate? && !allowCreate then Some(BlockedIndexCreateApproval)
            else None
  {
    hide MissingPlanPayload, Drifted;
  }

  lemma ObstacleMeaning(db: Database, ix: Index, storage: Storage, ws: Workspace, auditFails: bool,
                        approved: Option<MissingPlan>, allowCreate: bool)
    requires ValidDb(db) && ValidIndex(ix)
    ensures BlockBeforeWrite(PreflightOf(db, ix, storage, ws, auditFails), approved, allowCreate)
         == ObstacleNow(db, ix, storage, ws, auditFails, approved, allowCreate)
  {
    hide PreflightOf, GateNow, PlanFits, MissingPlanPayload, ValidDb, RepairGate, BlockBeforeWrite;
    PreflightParts(db, ix, storage, ws, auditFails);
    GateMeaning(db, ix, storage, ws, auditFails);
    BlockOfGate(PreflightOf(db, ix, storage, ws, auditFails), approved, allowCreate);
    if approved.Some? {
      PayloadFits(db, ix, storage, ws, auditFails, approved.value);
    }
  }

  // ---------------------------------------------------------------- what a run does and says

  /** An index is there to be created. */
  ghost predicate NeedsIndex(db: Database, ix: Index, ws: Workspace) {
    ix.resource.Absent? && ActiveIds(db, ws.id) != {}
  }

  ghost predicate NothingDone(r: RepairResult) {
    r.submitted == 0 && r.accepted == 0 && r.batches == [] && r.postAudit == None
  }

  /** A run stops before it writes exactly at an obstacle, or at an index it created that came out wrong; otherwise
      it runs on the index that was there, or on a new one. */
  lemma RepairDecision(db: Database, ix: Index, storage: Storage, ws: Workspace, allowCreate: bool, size: nat,
                       approved: Option<MissingPlan>, faults: Faults, after: Index, r: RepairResult)
    requires ValidDb(db) && ValidIndex(ix) && size > 0
    requires (after, r) == Repair(db, ix, storage, ws, allowCreate, size, approved, faults)
    ensures var obstacle := ObstacleNow(db, ix, storage, ws, faults.preAuditFails, approved, allowCreate);
            var wrong := NeedsIndex(db, ix, ws) && !LegacyIndex(faults.created);
            && r.preflight == PreflightOf(db, ix, storage, ws, faults.preAuditFails)
            && (BlockedRepair(r.status) <==> obstacle.Some? || wrong)
            && (obstacle.Some? ==> after == ix && r.status == obstacle.value && !r.indexCreated && NothingDone(r))
            && (obstacle.None? && wrong ==>
                  && after == Index(faults.created, []) && r.status == Blocked(BlockedMapping) && r.indexCreated
                  && NothingDone(r))
            && (obstacle.None? ==>
                  && (r.indexCreated <==> NeedsIndex(db, ix, ws))
                  && (r.indexCreated ==> allowCreate)
                  && after.resource == (if NeedsIndex(db, ix, ws) then faults.created else ix.resource))
  {
    hide PreflightOf, ObstacleNow, Execute, LegacyIndex, BlockBeforeWrite, NeedsIndex, InspectLegacyMapping;
    var p := PreflightOf(db, ix, storage, ws, faults.preAuditFails);
    PreflightParts(db, ix, storage, ws, faults.preAuditFails);
    ObstacleMeaning(db, ix, storage, ws, faults.preAuditFails, approved, allowCreate);
    IndexNeeded(db, ix, ws);
    MappingMeaning(faults.created, p.activeCount);
    BlockHasStatus(p, approved, allowCreate);
    if BlockBeforeWrite(p, approved, allowCreate).None? {
      ExecuteDecides(db, ix, storage, p, size, faults, after, r);
    }
  }

  lemma IndexNeeded(db: Database, ix: Index, ws: Workspace)
    requires ValidDb(db)
    ensures InspectLegacyMapping(ix.resource, |ActiveRows(db, ws.id)|).status.IndexAbsent? <==> NeedsIndex(db, ix, ws)
  {
    hide ActiveRows, ActiveIds, InspectLegacyMapping;
    MappingMeaning(ix.resource, |ActiveRows(db, ws.id)|);
    ActiveCount(db, ws.id);
    NoneOf(ActiveIds(db, ws.id));
  }

  lemma BlockHasStatus(p: Preflight, approved: Option<MissingPlan>, allowCreate: bool)
    ensures var block := BlockBeforeWrite(p, approved, allowCreate);
            && (block.Some? ==> BlockedRepair(block.value))
            && (block.None? && p.mapping.status.IndexAbsent? ==> allowCreate)
  {
    hide MissingPlanPayload;
  }

  lemma {:induction false} ExecuteDecides(db: Database, ix: Index, storage: Storage, p: Preflight, size: nat, faults: Faults,
                                          after: Index, r: RepairResult)
    requires size > 0 && (after, r) == Execute(db, ix, storage, p, size, faults)
    ensures var created := p.mapping.status.IndexAbsent?;
            var wrong := created && !InspectLegacyMapping(faults.created, p.activeCount).compatible;
            && r.preflight == p && r.indexCreated == created && after.resource == (if created then faults.created else ix.resource)
            && (BlockedRepair(r.status) <==> wrong)
            && (wrong ==> after == Index(faults.created, []) && r.status == Blocked(BlockedMapping) && NothingDone(r))
  {
    hide Audit, ToWrite, WriteBatches, InspectLegacyMapping;
  }

  function SubmittedIn(batches: seq<BatchReport>): nat {
    if batches == [] then 0 else batches[0].submitted + SubmittedIn(batches[1..])
  }

  function AcceptedIn(batches: seq<BatchReport>): nat {
    if batches == [] then 0 else batches[0].accepted + AcceptedIn(batches[1..])
  }

  /** What is reported of the calls from number `k` on: they are numbered, all but the last are full and accepted,
      the counts add up, and the last says how the writing ended. */
  ghost predicate BatchesReported(out: WriteOutcome, docs: seq<Hit>, size: nat, k: nat, bulk: seq<BulkOutcome>) {
    var n := |out.batches|;
    && (forall i :: 0 <= i < n ==> out.batches[i].number == k + i && 0 < out.batches[i].submitted <= size)
    && (forall i :: 0 <= i < n - 1 ==> out.batches[i].submitted == out.batches[i].accepted == size)
    && (forall i :: 0 <= i < n - 1 ==> !Call(bulk, out.batches[i].number).Raises?)
    && out.submitted == SubmittedIn(out.batches) <= |docs| && out.accepted == AcceptedIn(out.batches)
    && (n == 0 <==> docs == [])
    && (n > 0 ==> LastReported(out, docs, size, Call(bulk, k + n - 1)))
    && (out.status.AllWritten? ==> out.submitted == |docs|)
    && (n == 0 ==> out.status.AllWritten?)
  }

  ghost predicate LastReported(out: WriteOutcome, docs: seq<Hit>, size: nat, call: BulkOutcome)
    requires out.batches != [] && out.submitted <= |docs|
  {
    var last := out.batches[|out.batches| - 1];
    var first := out.submitted - last.submitted;
    && 0 <= first && last.submitted == Min(size, |docs| - first)
    && last.accepted == (if call.Raises? then 0 else |Filter(ChosenHit(call.refused), docs[first..out.submitted])|)
    && out.status == (if call.Raises? then BulkException
                      else if last.accepted != last.submitted then PartialBulk else AllWritten)
  }

  lemma {:induction false} BatchReportsMeaning(hits: seq<Hit>, docs: seq<Hit>, size: nat, k: nat, bulk: seq<BulkOutcome>)
    requires size > 0
    ensures BatchesReported(WriteBatches(hits, docs, size, k, bulk), docs, size, k, bulk)
    decreases |docs|
  {
    hide ApplyUpserts, Filter, BatchesReported, Call;
    if docs == [] {
      NoReport(hits, size, k, bulk);
    } else {
      var n := Min(size, |docs|);
      var call := Call(bulk, k);
      var after := ApplyUpserts(hits, docs[..n], call.refused);
      var got := |Filter(ChosenHit(call.refused), docs[..n])|;
      var rest := WriteBatches(after, docs[n..], size, k + 1, bulk);
      BatchReportsMeaning(after, docs[n..], size, k + 1, bulk);
      if call.Raises? || got != n || docs[n..] == [] {
        OneReport(WriteBatches(hits, docs, size, k, bulk), docs, size, k, bulk);
      } else {
        OneReportMore(rest, docs, size, k, bulk, n);
      }
    }
  }

  lemma NoReport(hits: seq<Hit>, size: nat, k: nat, bulk: seq<BulkOutcome>)
    requires size > 0
    ensures BatchesReported(WriteBatches(hits, [], size, k, bulk), [], size, k, bulk)
  {
  }

  lemma OneReport(out: WriteOutcome, docs: seq<Hit>, size: nat, k: nat, bulk: seq<BulkOutcome>)
    requires docs != [] && size > 0
    requires var n := Min(size, |docs|);
             var got := if Call(bulk, k).Raises? then 0 else |Filter(ChosenHit(Call(bulk, k).refused), docs[..n])|;
             && out.batches == [BatchReport(k, n, got)] && out.submitted == n && out.accepted == got
             && out.status == (if Call(bulk, k).Raises? then BulkException else if got != n then PartialBulk else AllWritten)
             && (out.status.AllWritten? ==> n == |docs|)
    ensures BatchesReported(out, docs, size, k, bulk)
  {
    hide Filter, Call;
    var n := Min(size, |docs|);
    assert docs[0..n] == docs[..n];
    assert out.batches[1..] == [];
    assert SubmittedIn(out.batches) == n && AcceptedIn(out.batches) == out.accepted;
    assert LastReported(out, docs, size, Call(bulk, k));
  }

  lemma OneReportMore(rest: WriteOutcome, docs: seq<Hit>, size: nat, k: nat, bulk: seq<BulkOutcome>, n: nat)
    requires n == size < |docs| && !Call(bulk, k).Raises? && BatchesReported(rest, docs[n..], size, k + 1, bulk)
    ensures BatchesReported(Prepend(n, n, [BatchReport(k, n, n)], rest), docs, size, k, bulk)
  {
    hide Filter, Call;
    var out := Prepend(n, n, [BatchReport(k, n, n)], rest);
    assert out.batches[1..] == rest.batches;
    assert docs[n..] != [] && rest.batches != [];
    var m := |rest.batches| - 1;
    assert |out.batches| == m + 2 && out.batches[m + 1] == rest.batches[m];
    assert LastReported(rest, docs[n..], size, Call(bulk, k + 1 + m));
    var first := rest.submitted - rest.batches[m].submitted;
    assert docs[n..][first..rest.submitted] == docs[first + n..rest.submitted + n];
    assert LastReported(out, docs, size, Call(bulk, k + 1 + m));
    forall i | 0 <= i < |out.batches| - 1
      ensures out.batches[i].submitted == out.batches[i].accepted == size && !Call(bulk, out.batches[i].number).Raises?
    {
      assert i > 0 ==> out.batches[i] == rest.batches[i - 1];
    }
  }

  ghost predicate HasOrphans(db: Database, ix: Index) {
    exists h :: h in ix.hits && IsOrphanId(db, h.id)
  }

  /** What the status of a run that was not blocked says: the first thing that went wrong, or whether anything was
      written and whether orphans were there. */
  ghost function OutcomeNow(db: Database, ix: Index, r: RepairResult, bulk: seq<BulkOutcome>): RepairStatus {
    if r.postAudit.None? then FailedPostAuditError
    else if r.batches != [] && Call(bulk, |r.batches|).Raises? then FailedBulkException
    else if r.accepted != r.submitted then FailedPartialBulk
    else if r.submitted == 0 then if HasOrphans(db, ix) then PassedNoopOrphansRemain else PassedNoop
    else if HasOrphans(db, ix) then PassedMissingRepairedOrphansRemain
    else PassedMissingRepaired
  }

  /** The report of a run that was not blocked: the calls it made for the documents to write, the audit of what it
      left, and a status that follows from them. With no other writer the last audit never finds fault. */
  lemma RepairOutcome(db: Database, ix: Index, storage: Storage, ws: Workspace, allowCreate: bool, size: nat,
                      approved: Option<MissingPlan>, faults: Faults, after: Index, r: RepairResult)
    requires ValidDb(db) && ValidIndex(ix) && size > 0
    requires (after, r) == Repair(db, ix, storage, ws, allowCreate, size, approved, faults)
    ensures !BlockedRepair(r.status) ==>
              var docs := ToWrite(db, ix, storage, ws);
              var out := WriteBatches(ix.hits, docs, size, 1, faults.bulk);
              && after.hits == out.hits && r.batches == out.batches
              && r.submitted == out.submitted && r.accepted == out.accepted
              && BatchesReported(out, docs, size, 1, faults.bulk)
              && r.postAudit == (if faults.postAuditFails || after.resource.Unreachable? then None
                                 else Some(Audit(db, after, ws.id, FULL_ID_LIMIT)))
              && r.status == OutcomeNow(db, ix, r, faults.bulk)
  {
    hide PreflightOf, Execute, RepairedAndSeen, FailuresOf, Candidates, ActiveRows, Audit, ToWrite, WriteBatches,
         BatchesReported, OutcomeNow, BlockBeforeWrite, Conclude, PassedRepair;
    var p := PreflightOf(db, ix, storage, ws, faults.preAuditFails);
    BlockHasStatus(p, approved, allowCreate);
    if BlockBeforeWrite(p, approved, allowCreate).None? && !BlockedRepair(r.status) {
      var docs := ToWrite(db, ix, storage, ws);
      var out := WriteBatches(ix.hits, docs, size, 1, faults.bulk);
      UnblockedIsExecutable(p, allowCreate, approved);
      PreflightFacts(db, ix, storage, ws, faults.preAuditFails);
      ConcludeFields(db, ix, storage, p, size, faults, after, r);
      BatchReportsMeaning(ix.hits, docs, size, 1, faults.bulk);
      RepairPasses(db, ix, storage, ws, allowCreate, size, approved, faults, after, r);
      StatusFollows(db, ix, ws.id, p, docs, size, faults, out, after, r);
    }
  }

  lemma ConcludeFields(db: Database, ix: Index, storage: Storage, p: Preflight, size: nat, faults: Faults, after: Index,
                       r: RepairResult)
    requires ValidIndex(ix) && size > 0 && (after, r) == Execute(db, ix, storage, p, size, faults)
    requires p.mapping == InspectLegacyMapping(ix.resource, p.activeCount) && !BlockedRepair(r.status)
    ensures var out := WriteBatches(ix.hits, ToWrite(db, ix, storage, p.workspace), size, 1, faults.bulk);
            && after.hits == out.hits
            && r == Conclude(db, after, p, r.indexCreated, out, faults.postAuditFails)
  {
    hide Audit, ToWrite, WriteBatches, PostStatus;
  }

  lemma StatusFollows(db: Database, ix: Index, workspaceId: int, p: Preflight, docs: seq<Hit>, size: nat, faults: Faults,
                      out: WriteOutcome, after: Index, r: RepairResult)
    requires ValidDb(db) && r == Conclude(db, after, p, r.indexCreated, out, faults.postAuditFails)
    requires p.workspace.id == workspaceId && p.preAudit == Some(Audit(db, ix, workspaceId, FULL_ID_LIMIT))
    requires BatchesReported(out, docs, size, 1, faults.bulk)
    requires PassedRepair(r.status) <==> r.accepted == r.submitted && r.postAudit.Some?
    requires PassedRepair(r.status) ==> RepairedAndSeen(db, workspaceId, ix, after, r.postAudit)
    ensures r.postAudit == if faults.postAuditFails || after.resource.Unreachable? then None
                           else Some(Audit(db, after, workspaceId, FULL_ID_LIMIT))
    ensures r.batches == out.batches && r.submitted == out.submitted && r.accepted == out.accepted
    ensures r.status == OutcomeNow(db, ix, r, faults.bulk)
  {
    hide Audit, Repaired, HasOrphans, BatchesReported;
    OrphansCounted(db, ix, workspaceId);
    EndOfBatches(out, docs, size, faults.bulk);
  }

  lemma OrphansCounted(db: Database, ix: Index, workspaceId: int)
    requires ValidDb(db)
    ensures Audit(db, ix, workspaceId, FULL_ID_LIMIT).orphanCount > 0 <==> HasOrphans(db, ix)
  {
    hide Audit, IsOrphanId, Filter;
    AuditCounts(db, ix, workspaceId, FULL_ID_LIMIT);
    FilterMembers(OrphanHit(db), ix.hits);
    SomeElement(Filter(OrphanHit(db), ix.hits));
    forall h | h in ix.hits && IsOrphanId(db, h.id) ensures Filter(OrphanHit(db), ix.hits) != [] {
      assert OrphanHit(db)(h) && h in Filter(OrphanHit(db), ix.hits);
    }
  }

  lemma EndOfBatches(out: WriteOutcome, docs: seq<Hit>, size: nat, bulk: seq<BulkOutcome>)
    requires BatchesReported(out, docs, size, 1, bulk)
    ensures out.status.BulkException? <==> out.batches != [] && Call(bulk, |out.batches|).Raises?
    ensures out.status.PartialBulk? ==> out.accepted != out.submitted
    ensures out.status.AllWritten? ==> out.accepted == out.submitted
  {
    hide Call, Filter;
    var n := |out.batches|;
    if n > 0 {
      assert LastReported(out, docs, size, Call(bulk, n));
      SumsOf(out.batches, size);
    }
  }

  lemma {:induction false} SumsOf(batches: seq<BatchReport>, size: nat)
    requires batches != []
    requires forall i :: 0 <= i < |batches| - 1 ==> batches[i].submitted == batches[i].accepted
    ensures var last := batches[|batches| - 1];
            SubmittedIn(batches) - AcceptedIn(batches) == last.submitted - last.accepted
  {
    if |batches| > 1 {
      SumsOf(batches[1..], size);
    } else {
      assert batches[1..] == [];
    }
  }

  // ---------------------------------------------------------------- approvals

  /** No document is written, and no index created, but under a plan that was shown, that awaits approval, whose
      hash is its payload's, that was approved by this hash, for this workspace, and that still fits the stores. Any
      other approval is refused and changes nothing. */
  lemma RepairNeedsApproval(db: Database, ix: Index, storage: Storage, workspaceId: int, plan: PlanReport,
                            approval: Digest<MissingPlan>, allowCreate: bool, size: nat, faults: Faults,
                            after: Index, out: Option<Applied>)
    requires ValidDb(db) && ValidIndex(ix) && size > 0
    requires (after, out) == ApplyMissing(db, ix, storage, workspaceId, plan, approval, allowCreate, size, faults)
    ensures after != ix || out != Some(RefusedApproval) ==>
              && plan.payload.Some? && plan.status == AwaitingMissingRepairApproval
              && plan.sha == Some(Sha256(plan.payload.value)) && approval == Sha256(plan.payload.value)
              && plan.payload.value.workspaceId == workspaceId
    ensures (plan.payload.None? || plan.status != AwaitingMissingRepairApproval
             || plan.sha != Some(Sha256(plan.payload.value)) || approval != Sha256(plan.payload.value)
             || plan.payload.value.workspaceId != workspaceId) ==> after == ix && out == Some(RefusedApproval)
    ensures out != Some(RefusedApproval) ==>
              && (out == Some(RefusedIndexCreate) <==> plan.payload.value.requiresIndexCreate && !allowCreate)
              && (out == None <==> workspaceId !in db.workspaces
                                   && (plan.payload.value.requiresIndexCreate ==> allowCreate))
    ensures after != ix || (out.Some? && out.value.Ran? && out.value.result.submitted > 0) ==>
              && workspaceId in db.workspaces && PlanFits(plan.payload.value, db, ix, db.workspaces[workspaceId])
              && (NeedsIndex(db, ix, db.workspaces[workspaceId]) ==> allowCreate)
  {
    hide Repair, PlanFits, NeedsIndex;
    if out.Some? && out.value.Ran? {
      var ws := db.workspaces[workspaceId];
      RanUnderPlan(db, ix, storage, ws, allowCreate, size, plan.payload.value, faults, after, out.value.result);
    }
  }

  lemma RanUnderPlan(db: Database, ix: Index, storage: Storage, ws: Workspace, allowCreate: bool, size: nat,
                     plan: MissingPlan, faults: Faults, after: Index, r: RepairResult)
    requires ValidDb(db) && ValidIndex(ix) && size > 0
    requires (after, r) == Repair(db, ix, storage, ws, allowCreate, size, Some(plan), faults)
    ensures after != ix || r.submitted > 0 ==> PlanFits(plan, db, ix, ws) && (NeedsIndex(db, ix, ws) ==> allowCreate)
  {
    hide Repair, PlanFits, NeedsIndex, GateNow;
    RepairDecision(db, ix, storage, ws, allowCreate, size, Some(plan), faults, after, r);
  }

  /** No document is deleted but under a manifest that was shown, that awaits approval, whose hash is its payload's,
      that was approved by this hash, and that names this workspace and its index as they are now. Any other approval
      is blocked and changes nothing. */
  lemma DeletionNeedsApproval(db: Database, ix: Index, workspaceId: int, m: Manifest, approval: Digest<OrphanPayload>,
                              faults: DeleteFaults, after: Index, out: Option<DeleteResult>)
    requires (after, out) == DeleteOrphans(db, ix, workspaceId, m, approval, faults)
    ensures after != ix || (out.Some? && Submits(out.value)) ==>
              && m.payload.Some? && m.status == AwaitingSeparateApproval
              && m.sha == Some(Sha256(m.payload.value)) && approval == Sha256(m.payload.value)
              && m.payload.value.workspaceId == workspaceId && workspaceId in db.workspaces
              && m.payload.value.slug == db.workspaces[workspaceId].slug
              && m.payload.value.indexName == db.workspaces[workspaceId].indexName
    ensures (m.payload.None? || m.status != AwaitingSeparateApproval || m.sha != Some(Sha256(m.payload.value))
             || approval != Sha256(m.payload.value) || m.payload.value.workspaceId != workspaceId
             || (workspaceId in db.workspaces
                 && (m.payload.value.slug != db.workspaces[workspaceId].slug
                     || m.payload.value.indexName != db.workspaces[workspaceId].indexName))) ==>
              after == ix && out == Some(DeleteResult(BlockedApproval, [], 0, None))
  {
    hide Audit, ActiveRows, InspectLegacyMapping, BlockDelete, ExecuteDelete;
  }

  /** With the approval in order: what an existing workspace's deletion comes to, from the stores of the moment. */
  lemma DeletionDecision(db: Database, ix: Index, workspaceId: int, m: Manifest, approval: Digest<OrphanPayload>,
                         faults: DeleteFaults, after: Index, out: Option<DeleteResult>)
    requires ValidDb(db) && UniqueHits(ix.hits)
    requires (after, out) == DeleteOrphans(db, ix, workspaceId, m, approval, faults)
    requires out != Some(DeleteResult(BlockedApproval, [], 0, None)) && m.payload.Some?
    ensures var listed := Samples(IdSeq(Filter(OrphanHit(db), ix.hits)), FULL_ID_LIMIT);
            if workspaceId !in db.workspaces then after == ix && out == None
            else if !LegacyIndex(ix.resource) then after == ix && out == Some(BlockedDelete(DeleteBlockedMapping))
            else if faults.preAuditFails then after == ix && out == None
            else if !OnlyOrphansExtra(db, workspaceId, ix) then
              after == ix && out == Some(BlockedDelete(DeleteBlockedLegacyAudit))
            else if multiset(m.payload.value.orphanIds) != multiset(listed) then
              after == ix && out == Some(BlockedDelete(BlockedOrphanDrift))
            else out.Some? && Submits(out.value)
  {
    hide Audit, ActiveRows, InspectLegacyMapping, LegacyIndex, OnlyOrphansExtra, Samples, Filter, IsOrphanId;
    MappingMeaning(ix.resource, |ActiveRows(db, workspaceId)|);
    AuditCounts(db, ix, workspaceId, FULL_ID_LIMIT);
    CleanMeansOnlyOrphansExtra(db, ix, workspaceId, FULL_ID_LIMIT);
  }

  function NotIn(ids: set<ChunkId>): ChunkId -> bool {
    (id: ChunkId) => id !in ids
  }

  /** The report of a deletion that was submitted: the ids that were not refused are accepted, unless the call
      raises, and they are what goes; the status names the first thing that went wrong. */
  lemma DeletionOutcome(db: Database, ix: Index, workspaceId: int, m: Manifest, approval: Digest<OrphanPayload>,
                        faults: DeleteFaults, after: Index, r: DeleteResult)
    requires ValidDb(db) && UniqueHits(ix.hits)
    requires (after, Some(r)) == DeleteOrphans(db, ix, workspaceId, m, approval, faults) && Submits(r)
    ensures var raised := r.submitted != [] && faults.bulk.Raises?;
            && (forall h :: h in after.hits <==> h in ix.hits && !(h.id in r.submitted && h.id !in faults.bulk.refused))
            && r.accepted == (if raised then 0 else |Filter(NotIn(faults.bulk.refused), r.submitted)|)
            && r.postAudit == (if faults.postAuditFails then None else Some(Audit(db, after, workspaceId, FULL_ID_LIMIT)))
            && r.status == (if faults.postAuditFails then FailedDeletePostAuditError
                            else if raised then FailedDeleteException
                            else if exists id :: id in r.submitted && id in faults.bulk.refused then FailedPartialDelete
                            else if |Filter(OrphanHit(db), ix.hits)| > 2147483647 then FailedDeletePostAudit
                            else PassedOrphansDeleted)
  {
    hide Audit, ActiveRows, InspectLegacyMapping, Samples, Filter, IsOrphanId, BlockDelete, DeleteOrphans, Judged, InAgreement;
    DeleteCases(db, ix, workspaceId, m, approval, faults, after, r);
    DeletesOnlyOrphans(db, ix, workspaceId, m, approval, faults, after, r);
    DeletePasses(db, ix, workspaceId, m, approval, faults, after, r);
    OrphansJudged(db, workspaceId, ix.hits);
    FilterMembers(SurvivesDelete(r.submitted, faults.bulk.refused), ix.hits);
    FoundOnes(ix.hits, r.submitted, faults.bulk.refused);
    FilterKeepsAll(NotIn(faults.bulk.refused), r.submitted);
  }

  lemma OrphansJudged(db: Database, workspaceId: int, hits: seq<Hit>)
    requires ValidDb(db)
    ensures Judged(db, workspaceId, hits, Orphan) == IdSeq(Filter(OrphanHit(db), hits))
  {
    hide Classify, IsOrphanId;
    forall h | h in hits ensures Classify(db, workspaceId, h) == Orphan <==> OrphanHit(db)(h) {
      VerdictMeaning(db, workspaceId, h);
    }
    JudgedIs(db, workspaceId, hits, Orphan, OrphanHit(db));
  }

  lemma FoundOnes(hits: seq<Hit>, ids: seq<ChunkId>, refused: set<ChunkId>)
    requires forall id :: id in ids ==> id in HitIds(hits)
    ensures Filter(Deletable(hits, refused), ids) == Filter(NotIn(refused), ids)
  {
    FilterSame(Deletable(hits, refused), NotIn(refused), ids);
  }

  /** What the manifest answers: the first gate that closes, or the orphans to be approved, with the workspace and
      its index as they are now. */
  lemma ManifestMeaning(db: Database, ix: Index, ws: Workspace)
    requires ValidDb(db) && UniqueHits(ix.hits)
    ensures var m := BuildManifest(db, ix, ws);
            var orphans := IdSeq(Filter(OrphanHit(db), ix.hits));
            && m.status == (if !LegacyIndex(ix.resource) then ManifestBlockedMapping
                            else if !OnlyOrphansExtra(db, ws.id, ix) then ManifestBlockedLegacyAudit
                            else if |orphans| > 2147483647 then BlockedIncompleteOrphanList
                            else if orphans == [] then PassedNoOrphans
                            else AwaitingSeparateApproval)
            && m.payload == (if m.status.AwaitingSeparateApproval?
                             then Some(OrphanPayload(ws.id, ws.slug, ws.indexName, orphans)) else None)
            && m.audit == (if m.status.ManifestBlockedMapping? then None else Some(Audit(db, ix, ws.id, FULL_ID_LIMIT)))
            && m.sha == (if m.payload.Some? then Some(Sha256(m.payload.value)) else None)
  {
    hide Audit, ActiveRows, InspectLegacyMapping, LegacyIndex, OnlyOrphansExtra, Judged, Samples, Filter, IsOrphanId;
    MappingMeaning(ix.resource, |ActiveRows(db, ws.id)|);
    CleanMeansOnlyOrphansExtra(db, ix, ws.id, FULL_ID_LIMIT);
    ListedOrphans(db, ix, ws.id, FULL_ID_LIMIT);
    OrphansJudged(db, ws.id, ix.hits);
    AuditFields(db, ix, ws.id, FULL_ID_LIMIT);
  }

  // ---------------------------------------------------------------- diagnoses

  /** A chunk row of that id, whose file is there. */
  ghost predicate RowIs(db: Database, id: ChunkId, chunkWorkspace: int, f: File) {
    exists c :: c in db.chunks && c.chunkId == id && c.workspaceId == chunkWorkspace && c.fileId in db.files
                && db.files[c.fileId] == f
  }

  /** Each reason, from the rows of the database: the row is missing, or its file is; or with a row and a file, the
      file is deleted, or not and the chunk or else the file is another workspace's; or none of these. */
  lemma DiagnosisMeaning(db: Database, workspaceId: int, id: ChunkId)
    requires ValidDb(db)
    ensures var why := Diagnose(db, workspaceId, id);
            && (why.DbChunkMissing? <==> forall c :: c in db.chunks ==> c.chunkId != id)
            && (why.FileMissing? <==> exists c :: c in db.chunks && c.chunkId == id && c.fileId !in db.files)
            && (forall w: int, f :: RowIs(db, id, w, f) ==>
                  why == (if f.deleted then FileSoftDeleted
                          else if w != workspaceId then ChunkWorkspaceMismatch
                          else if f.workspaceId != workspaceId then FileWorkspaceMismatch
                          else Unclassified))
  {
    var found := FindChunk(db.chunks, id);
    if found.Some? {
      assert forall c :: c in db.chunks && c.chunkId == id ==> c == found.value;
    }
  }

  // ---------------------------------------------------------------- convergence

  /** What makes a state repairable, from the two stores and the storage alone: the pipeline converges exactly if the
      index is right, or none is there and one is needed; every chunk to be written has a text; no document is another
      owner's or of a deleted file; and the lists fit the limit. */
  lemma ConvergesFrom(db: Database, ix: Index, storage: Storage, ws: Workspace, size: nat)
    requires ValidDb(db) && WellFormed(ix) && size > 0
    requires ws.id in db.workspaces && db.workspaces[ws.id] == ws
    ensures Converged(db, Pipeline(db, ix, storage, ws, size), storage, ws) <==>
            && (LegacyIndex(ix.resource) || NeedsIndex(db, ix, ws))
            && !LacksText(db, ix, storage, ws) && !HasMisplaced(db, ws.id, ix)
            && |MissingNow(db, ix, ws)| <= 2147483647 && |Filter(OrphanHit(db), ix.hits)| <= 2147483647
  {
    hide Converged, Pipeline, LegacyIndex, InspectLegacyMapping, LacksText, MissingNow, Candidates, FailuresOf,
         ActiveRows, ActiveIds, NamesOwner, IsOrphanId, Judged, Filter;
    PipelineConvergesIff(db, ix, storage, ws, size);
    MappingMeaning(ix.resource, |ActiveRows(db, ws.id)|);
    ActiveCount(db, ws.id);
    NoneOf(ActiveIds(db, ws.id));
    OrphansJudged(db, ws.id, ix.hits);
    NoFailures(storage, ws, Candidates(db, ix, ws));
    CandidatesWanted(db, ix, ws);
    TextsLacking(db, ix, storage, ws);
    if ix.resource.Physical? || ix.resource.Absent? {
      CandidateCount(db, ix, ws);
    }
    LegacyIsPhysical(ix.resource);
  }

  lemma LegacyIsPhysical(r: Resource)
    ensures LegacyIndex(r) ==> r.Physical?
  {
  }

  lemma TextsLacking(db: Database, ix: Index, storage: Storage, ws: Workspace)
    ensures LacksText(db, ix, storage, ws) <==> exists c :: IsWanted(db, ix, ws, c) && !HasStoredText(storage, ws, c)
  {
    hide IsWanted, HasStoredText;
  }
}
