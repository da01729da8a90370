/** The repair protocol as a whole: replayed approvals, runs of commands, and convergence. */
module RepairProtocol {
  import opened Sequences
  import opened ChunkStores
  import opened LegacyAudit
  import opened AuditProperties
  import opened StoreClient
  import opened MissingRepair
  import opened MissingRepairProperties
  import opened OrphanDelete
  import opened OrphanDeleteProperties

  // ---------------------------------------------------------------- replayed approvals

  /** The payload depends on the database and the index alone. */
  lemma PayloadOf(db: Database, ix: Index, storage: Storage, ws: Workspace, auditFails: bool)
    ensures MissingPlanPayload(PreflightOf(db, ix, storage, ws, auditFails)) ==
            var rows := ActiveRows(db, ws.id);
            var mapping := InspectLegacyMapping(ix.resource, |rows|);
            MissingPlan(ws.id, ws.slug, ws.indexName, |rows|, multiset(ChunkIds(Candidates(db, ix, ws))),
                        mapping.status, Sha256((mapping.resourceType, mapping.status, mapping.rawMapping)),
                        mapping.status.IndexAbsent?)
  {
    hide Audit, L2Preflight, RepairGate, ActiveRows, Candidates, InspectLegacyMapping;
  }

  /** A written candidate is no candidate any more. */
  lemma WrittenLeavesPlan(db: Database, ix: Index, storage: Storage, ws: Workspace, after: Index)
    requires ValidDb(db) && ValidIndex(ix) && ix.resource.Physical? && after.resource == ix.resource
    requires OnlyAdds(db, ix, storage, ws, after) && after.hits != ix.hits
    ensures multiset(ChunkIds(Candidates(db, after, ws))) != multiset(ChunkIds(Candidates(db, ix, ws)))
  {
    CandidateFacts(db, ix, ws);
    CandidateFacts(db, after, ws);
    var before, later := ChunkIds(Candidates(db, ix, ws)), ChunkIds(Candidates(db, after, ws));
    assert after.hits == ix.hits + after.hits[|ix.hits|..];
    var h := after.hits[|ix.hits|];
    assert h in after.hits[|ix.hits|..] && h in after.hits;
    var c :| && c in db.chunks && Active(db, ws.id, c) && !Found(ix.hits, c.chunkId)
             && HasStoredText(storage, ws, c) && Describes(h, storage, ws, c);
    hide Candidates, Active, Describes;
    var i :| 0 <= i < |before| && Candidates(db, ix, ws)[i] == c;
    assert before[i] == c.chunkId;
    assert Found(after.hits, c.chunkId);
    forall j | 0 <= j < |later| ensures later[j] != c.chunkId {
      assert Candidates(db, after, ws)[j] in Candidates(db, after, ws);
    }
    assert c.chunkId in multiset(before) && c.chunkId !in multiset(later);
  }

  /** After an unblocked run under an approved plan, the plan still fits the stores if and only if the
      run has changed nothing. */
  lemma PlanFitsIffUnchanged(db: Database, ix: Index, storage: Storage, ws: Workspace, allowCreate: bool, size: nat,
                             plan: MissingPlan, faults: Faults, after: Index, r: RepairResult,
                             storage2: Storage, auditFails2: bool)
    requires ValidDb(db) && ValidIndex(ix) && size > 0 && ValidFaults(faults)
    requires (after, r) == Repair(db, ix, storage, ws, allowCreate, size, Some(plan), faults)
    requires !r.status.BlockedMissingPlanDrift?
    ensures MissingPlanPayload(PreflightOf(db, after, storage2, ws, auditFails2)) == plan <==> after == ix
  {
    var p := PreflightOf(db, ix, storage, ws, faults.preAuditFails);
    RepairOnlyAdds(db, ix, storage, ws, allowCreate, size, Some(plan), faults, after, r);
    PayloadOf(db, ix, storage, ws, faults.preAuditFails);
    PayloadOf(db, after, storage2, ws, auditFails2);
    AbsentAddsNothing(db, ix, storage, ws, allowCreate, size, plan, faults, after, r);
    hide Execute, Candidates, ActiveRows, OnlyAdds, PreflightOf;
    assert MissingPlanPayload(p) == plan;
    if after != ix && !r.indexCreated {
      WrittenLeavesPlan(db, ix, storage, ws, after);
    }
  }

  lemma AbsentAddsNothing(db: Database, ix: Index, storage: Storage, ws: Workspace, allowCreate: bool, size: nat,
                          plan: MissingPlan, faults: Faults, after: Index, r: RepairResult)
    requires ValidDb(db) && ValidIndex(ix) && size > 0
    requires (after, r) == Repair(db, ix, storage, ws, allowCreate, size, Some(plan), faults)
    ensures !r.indexCreated && after != ix ==> ix.resource.Physical?
    ensures r.indexCreated ==> InspectLegacyMapping(ix.resource, |ActiveRows(db, ws.id)|).status.IndexAbsent?
  {
    hide PreflightOf, Execute, Candidates, LoadedRows, ActiveRows, FailuresOf, Audit, MissingPlanPayload;
    var p := PreflightOf(db, ix, storage, ws, faults.preAuditFails);
    PreflightFacts(db, ix, storage, ws, faults.preAuditFails);
    if BlockBeforeWrite(p, Some(plan), allowCreate).None? {
      UnblockedIsExecutable(p, allowCreate, Some(plan));
      ExecuteWithoutIndex(db, ix, storage, p, size, faults);
    }
  }

  /** Without an index and without rows there is nothing to write; with rows the index is created. */
  lemma ExecuteWithoutIndex(db: Database, ix: Index, storage: Storage, p: Preflight, size: nat, faults: Faults)
    requires size > 0 && Executable(p)
    requires p.activeCount == |ActiveRows(db, p.workspace.id)|
    requires p.mapping == InspectLegacyMapping(ix.resource, p.activeCount)
    ensures var (after, r) := Execute(db, ix, storage, p, size, faults);
            && (r.indexCreated <==> p.mapping.status.IndexAbsent?)
            && (ix.resource.Absent? && !r.indexCreated ==> after == ix)
  {
    hide Candidates, LoadedRows, ActiveRows, Audit, CompatibleMapping, FailuresOf;
    if ix.resource.Absent? && p.activeCount == 0 {
      AbsentAndEmpty(db, ix, storage, p.workspace);
    }
  }

  lemma AbsentAndEmpty(db: Database, ix: Index, storage: Storage, ws: Workspace)
    requires ix.resource.Absent? && ActiveRows(db, ws.id) == []
    ensures ToWrite(db, ix, storage, ws) == []
  {
  }

  /** Once a run under an approved plan has created the index or had any document applied, replaying the
      same plan submits nothing and changes nothing. */
  lemma MissingReplay(db: Database, ix: Index, storage: Storage, workspaceId: int, plan: PlanReport,
                      approval: Digest<MissingPlan>, allowCreate: bool, size: nat, faults: Faults,
                      after: Index, r: RepairResult,
                      storage2: Storage, allowCreate2: bool, size2: nat, faults2: Faults)
    requires ValidDb(db) && ValidIndex(ix) && size > 0 && size2 > 0 && ValidFaults(faults)
    requires (after, Some(Ran(r))) ==
             ApplyMissing(db, ix, storage, workspaceId, plan, approval, allowCreate, size, faults)
    requires !r.status.BlockedMissingPlanDrift?
    ensures r.accepted > 0 || r.indexCreated ==> after != ix
    ensures after != ix ==>
              var (final, out) := ApplyMissing(db, after, storage2, workspaceId, plan, approval, allowCreate2, size2, faults2);
              && final == after
              && (out == Some(RefusedIndexCreate)
                  || (out.Some? && out.value.Ran? && out.value.result.status.BlockedMissingPlanDrift?
                      && out.value.result.submitted == 0))
  {
    var ws := db.workspaces[workspaceId];
    RepairOnlyAdds(db, ix, storage, ws, allowCreate, size, plan.payload, faults, after, r);
    PlanFitsIffUnchanged(db, ix, storage, ws, allowCreate, size, plan.payload.value, faults, after, r,
                         storage2, faults2.preAuditFails);
    hide OnlyAdds, PreflightOf, Execute;
  }

  // ---------------------------------------------------------------- runs of commands

  datatype Command =
    | Apply(storage: Storage, plan: PlanReport, planApproval: Digest<MissingPlan>, allowCreate: bool, size: nat, faults: Faults)
    | Delete(manifest: Manifest, deleteApproval: Digest<OrphanPayload>, deleteFaults: DeleteFaults)

  ghost predicate ValidCommand(c: Command) {
    c.Apply? ==> c.size > 0 && ValidFaults(c.faults)
  }

  /** The index after one command, whatever plan or manifest it is given. */
  function Step(db: Database, ix: Index, workspaceId: int, c: Command): Index
    requires ValidCommand(c)
  {
    match c
    case Apply(storage, plan, approval, allowCreate, size, faults) =>
      ApplyMissing(db, ix, storage, workspaceId, plan, approval, allowCreate, size, faults).0
    case Delete(manifest, approval, faults) =>
      DeleteOrphans(db, ix, workspaceId, manifest, approval, faults).0
  }

  function Run(db: Database, ix: Index, workspaceId: int, cs: seq<Command>): Index
    requires forall c :: c in cs ==> ValidCommand(c)
  {
    if cs == [] then ix else Step(db, Run(db, ix, workspaceId, cs[..|cs| - 1]), workspaceId, cs[|cs| - 1])
  }

  /** Only orphan documents go, only right documents come, and nothing else changes. */
  ghost predicate SafeChange(db: Database, workspaceId: int, ix: Index, after: Index) {
    && (forall h :: h in ix.hits && !IsOrphanId(db, h.id) ==> h in after.hits)
    && (forall h :: h in after.hits ==> h in ix.hits || NamesOwner(db, workspaceId, h))
  }

  ghost predicate WellFormed(ix: Index) {
    ValidIndex(ix) && UniqueHits(ix.hits)
  }

  lemma ApplyIsSafe(db: Database, ix: Index, workspaceId: int, storage: Storage, plan: PlanReport,
                    approval: Digest<MissingPlan>, allowCreate: bool, size: nat, faults: Faults, after: Index,
                    out: Option<Applied>)
    requires ValidDb(db) && WellFormed(ix) && size > 0 && ValidFaults(faults)
    requires (after, out) == ApplyMissing(db, ix, storage, workspaceId, plan, approval, allowCreate, size, faults)
    ensures WellFormed(after) && SafeChange(db, workspaceId, ix, after)
  {
    hide Repair, NewDocument, NamesOwner, IsOrphanId, OnlyAdds;
    if out.Some? && out.value.Ran? {
      var ws := db.workspaces[workspaceId];
      var r := out.value.result;
      RepairOnlyAdds(db, ix, storage, ws, allowCreate, size, plan.payload, faults, after, r);
      AdditionsAreSafe(db, ix, storage, ws, after);
      AbsentAddsNothing(db, ix, storage, ws, allowCreate, size, plan.payload.value, faults, after, r);
    }
  }

  lemma DeleteIsSafe(db: Database, ix: Index, workspaceId: int, manifest: Manifest, approval: Digest<OrphanPayload>,
                     faults: DeleteFaults, after: Index, out: Option<DeleteResult>)
    requires ValidDb(db) && WellFormed(ix)
    requires (after, out) == DeleteOrphans(db, ix, workspaceId, manifest, approval, faults)
    ensures WellFormed(after) && SafeChange(db, workspaceId, ix, after)
  {
    hide DeleteOrphans, IsOrphanId, NamesOwner, Filter;
    if out.Some? {
      DeletesOnlyOrphans(db, ix, workspaceId, manifest, approval, faults, after, out.value);
      var keep := SurvivesDelete(out.value.submitted, faults.bulk.refused);
      FilterMembers(keep, ix.hits);
      FilterUniqueHits(keep, ix.hits);
      AbsentKept(ix, after, keep);
    } else {
      DeleteRaised(db, ix, workspaceId, manifest, approval, faults, after);
    }
  }

  lemma AbsentKept(ix: Index, after: Index, keep: Hit -> bool)
    requires ValidIndex(ix) && after.resource == ix.resource && after.hits == Filter(keep, ix.hits)
    ensures ValidIndex(after)
  {
  }

  lemma DeleteRaised(db: Database, ix: Index, workspaceId: int, manifest: Manifest, approval: Digest<OrphanPayload>,
                     faults: DeleteFaults, after: Index)
    requires (after, None) == DeleteOrphans(db, ix, workspaceId, manifest, approval, faults)
    ensures after == ix
  {
    hide Audit, ActiveRows, InspectLegacyMapping;
  }

  lemma StepIsSafe(db: Database, ix: Index, workspaceId: int, c: Command)
    requires ValidDb(db) && WellFormed(ix) && ValidCommand(c)
    ensures WellFormed(Step(db, ix, workspaceId, c))
    ensures SafeChange(db, workspaceId, ix, Step(db, ix, workspaceId, c))
  {
    hide WellFormed, SafeChange, ApplyMissing, DeleteOrphans;
    match c
    case Apply(storage, plan, approval, allowCreate, size, faults) =>
      var (after, out) := ApplyMissing(db, ix, storage, workspaceId, plan, approval, allowCreate, size, faults);
      ApplyIsSafe(db, ix, workspaceId, storage, plan, approval, allowCreate, size, faults, after, out);
    case Delete(manifest, approval, faults) =>
      var (after, out) := DeleteOrphans(db, ix, workspaceId, manifest, approval, faults);
      DeleteIsSafe(db, ix, workspaceId, manifest, approval, faults, after, out);
  }

  lemma AdditionsAreSafe(db: Database, ix: Index, storage: Storage, ws: Workspace, after: Index)
    requires ValidDb(db) && UniqueHits(ix.hits) && OnlyAdds(db, ix, storage, ws, after)
    ensures UniqueHits(after.hits) && SafeChange(db, ws.id, ix, after)
  {
    var added := after.hits[|ix.hits|..];
    assert after.hits == ix.hits + added;
    UniqueHitsConcat(ix.hits, added);
    forall h | h in added ensures NamesOwner(db, ws.id, h) {
      NewNamesOwner(db, ix.hits, storage, ws, h);
    }
  }

  /** Any sequence of commands, with any approvals and any faults: no document of a chunk that still has a
      file is ever lost or changed, every new document is right, and no active chunk goes missing. */
  lemma {:induction false} RunsAreSafe(db: Database, ix: Index, workspaceId: int, cs: seq<Command>)
    requires ValidDb(db) && WellFormed(ix) && forall c :: c in cs ==> ValidCommand(c)
    ensures WellFormed(Run(db, ix, workspaceId, cs))
    ensures SafeChange(db, workspaceId, ix, Run(db, ix, workspaceId, cs))
    ensures ActiveIds(db, workspaceId) * HitIds(ix.hits) <= HitIds(Run(db, ix, workspaceId, cs).hits)
  {
    hide Step, IsOrphanId, NamesOwner, ActiveIds;
    if cs != [] {
      var n := |cs| - 1;
      RunsAreSafe(db, ix, workspaceId, cs[..n]);
      StepIsSafe(db, Run(db, ix, workspaceId, cs[..n]), workspaceId, cs[n]);
    }
    LiveIdsKept(db, workspaceId, ix, Run(db, ix, workspaceId, cs));
  }

  lemma LiveIdsKept(db: Database, workspaceId: int, ix: Index, after: Index)
    requires ValidDb(db) && SafeChange(db, workspaceId, ix, after)
    ensures ActiveIds(db, workspaceId) * HitIds(ix.hits) <= HitIds(after.hits)
  {
    forall h | h in ix.hits && h.id in ActiveIds(db, workspaceId) ensures h in after.hits {
      assert !IsOrphanId(db, h.id);
    }
  }

  // ---------------------------------------------------------------- with other writers

  datatype Stores = Stores(db: Database, index: Index)

  /** A command, or any change by others to the database and the index between two commands. */
  datatype Turn = Perform(command: Command) | Change(stores: Stores)

  ghost predicate ValidStores(s: Stores) {
    ValidDb(s.db) && WellFormed(s.index)
  }

  ghost predicate ValidTurn(t: Turn) {
    match t
    case Perform(c) => ValidCommand(c)
    case Change(s) => ValidStores(s)
  }

  ghost function AfterTurn(s: Stores, workspaceId: int, t: Turn): Stores
    requires ValidTurn(t)
  {
    match t
    case Perform(c) => s.(index := Step(s.db, s.index, workspaceId, c))
    case Change(other) => other
  }

  ghost function AfterTurns(s: Stores, workspaceId: int, turns: seq<Turn>): Stores
    requires forall t :: t in turns ==> ValidTurn(t)
  {
    if turns == [] then s
    else AfterTurn(AfterTurns(s, workspaceId, turns[..|turns| - 1]), workspaceId, turns[|turns| - 1])
  }

  /** The stores before turn `i`. */
  ghost function Before(s: Stores, workspaceId: int, turns: seq<Turn>, i: nat): Stores
    requires i <= |turns| && forall t :: t in turns ==> ValidTurn(t)
  {
    AfterTurns(s, workspaceId, turns[..i])
  }

  lemma OneTurn(s: Stores, workspaceId: int, turns: seq<Turn>, i: nat)
    requires i < |turns| && forall t :: t in turns ==> ValidTurn(t)
    ensures Before(s, workspaceId, turns, i + 1) == AfterTurn(Before(s, workspaceId, turns, i), workspaceId, turns[i])
  {
    hide AfterTurn;
    assert turns[..i + 1][..i] == turns[..i];
  }

  lemma {:induction false} StoresStayValid(s: Stores, workspaceId: int, turns: seq<Turn>, i: nat)
    requires ValidStores(s) && i <= |turns| && forall t :: t in turns ==> ValidTurn(t)
    ensures ValidStores(Before(s, workspaceId, turns, i))
  {
    if i > 0 {
      StoresStayValid(s, workspaceId, turns, i - 1);
      OneTurn(s, workspaceId, turns, i - 1);
      var before := Before(s, workspaceId, turns, i - 1);
      hide Before, Step, WellFormed, ValidDb;
      assert turns[i - 1] in turns;
      if turns[i - 1].Perform? {
        StepIsSafe(before.db, before.index, workspaceId, turns[i - 1].command);
      }
    }
  }

  /** Whatever others do in between, every command leaves the database alone, removes only documents that are
      orphans at that moment, and adds only documents that name their owner at that moment. */
  lemma EveryCommandIsSafe(s: Stores, workspaceId: int, turns: seq<Turn>, i: nat)
    requires ValidStores(s) && i < |turns| && forall t :: t in turns ==> ValidTurn(t)
    requires turns[i].Perform?
    ensures var before := Before(s, workspaceId, turns, i);
            var after := Before(s, workspaceId, turns, i + 1);
            after.db == before.db && SafeChange(before.db, workspaceId, before.index, after.index)
  {
    StoresStayValid(s, workspaceId, turns, i);
    OneTurn(s, workspaceId, turns, i);
    hide Before, Step, SafeChange;
    var before := Before(s, workspaceId, turns, i);
    assert turns[i] in turns;
    StepIsSafe(before.db, before.index, workspaceId, turns[i].command);
  }

  /** A document that nobody else removes, and whose chunk has a file at every command, is there at the end. */
  lemma {:induction false} LiveDocumentKept(s: Stores, workspaceId: int, turns: seq<Turn>, h: Hit, n: nat)
    requires ValidStores(s) && n <= |turns| && forall t :: t in turns ==> ValidTurn(t)
    requires h in s.index.hits
    requires forall i :: 0 <= i < n && turns[i].Perform? ==> !IsOrphanId(Before(s, workspaceId, turns, i).db, h.id)
    requires forall i :: 0 <= i < n && turns[i].Change? && h in Before(s, workspaceId, turns, i).index.hits ==>
               h in turns[i].stores.index.hits
    ensures h in Before(s, workspaceId, turns, n).index.hits
  {
    if n > 0 {
      LiveDocumentKept(s, workspaceId, turns, h, n - 1);
      OneTurn(s, workspaceId, turns, n - 1);
      if turns[n - 1].Perform? {
        EveryCommandIsSafe(s, workspaceId, turns, n - 1);
      }
      hide Before, Step, IsOrphanId, NamesOwner;
    }
  }

  /** Where a document came into the index: others put it there, or a command did when it named its owner. */
  ghost predicate AddedAt(s: Stores, workspaceId: int, turns: seq<Turn>, h: Hit, i: nat)
    requires i < |turns| && forall t :: t in turns ==> ValidTurn(t)
  {
    && h !in Before(s, workspaceId, turns, i).index.hits
    && (turns[i].Change? || NamesOwner(Before(s, workspaceId, turns, i).db, workspaceId, h))
  }

  /** Every document there at the end was there at the start, or was put there by others, or was written by a
      command when it named its owner. */
  lemma {:induction false} EveryDocumentAccountedFor(s: Stores, workspaceId: int, turns: seq<Turn>, h: Hit, n: nat)
    requires ValidStores(s) && n <= |turns| && forall t :: t in turns ==> ValidTurn(t)
    requires h in Before(s, workspaceId, turns, n).index.hits
    ensures h in s.index.hits || exists i: nat :: i < n && AddedAt(s, workspaceId, turns, h, i)
  {
    if n > 0 {
      hide IsOrphanId, NamesOwner, Step;
      if h in Before(s, workspaceId, turns, n - 1).index.hits {
        EveryDocumentAccountedFor(s, workspaceId, turns, h, n - 1);
      } else {
        if turns[n - 1].Perform? {
          EveryCommandIsSafe(s, workspaceId, turns, n - 1);
        }
        assert AddedAt(s, workspaceId, turns, h, n - 1);
      }
    }
  }
}
