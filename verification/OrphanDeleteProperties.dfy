/** What the approved deletion guarantees, whatever happened since its manifest was built. */
module OrphanDeleteProperties {
  import opened Sequences
  import opened ChunkStores
  import opened LegacyAudit
  import opened AuditProperties
  import opened StoreClient
  import opened MissingRepair
  import opened OrphanDelete

  /** The reasons recorded for a manifest are about rows that are gone, never about rows that moved. */
  lemma OrphanReasons(db: Database, workspaceId: int, id: ChunkId)
    requires ValidDb(db)
    ensures IsOrphanId(db, id) <==> Diagnose(db, workspaceId, id) in {DbChunkMissing, FileMissing}
  {
    var found := FindChunk(db.chunks, id);
    if found.Some? {
      assert forall c :: c in db.chunks && c.chunkId == id ==> c == found.value;
    }
  }

  lemma OrphanIdFacts(db: Database, workspaceId: int, hits: seq<Hit>)
    requires ValidDb(db)
    ensures forall id :: id in Judged(db, workspaceId, hits, Orphan) <==> id in HitIds(hits) && IsOrphanId(db, id)
    ensures UniqueHits(hits) ==> Distinct(Judged(db, workspaceId, hits, Orphan))
  {
    JudgedMembers(db, workspaceId, hits, Orphan);
    forall h | h in hits ensures Classify(db, workspaceId, h).Orphan? <==> IsOrphanId(db, h.id) {
      VerdictMeaning(db, workspaceId, h);
    }
    if UniqueHits(hits) {
      JudgedDistinct(db, workspaceId, hits, Orphan);
    }
  }

  lemma JudgedDistinct(db: Database, workspaceId: int, hits: seq<Hit>, v: Verdict)
    requires UniqueHits(hits)
    ensures Distinct(Judged(db, workspaceId, hits, v))
  {
    FilterUniqueHits(JudgedAs(db, workspaceId, v), hits);
  }

  predicate Submits(r: DeleteResult) {
    || r.status.FailedDeleteException? || r.status.FailedDeletePostAuditError? || r.status.FailedPartialDelete?
    || r.status.FailedDeletePostAudit? || r.status.PassedOrphansDeleted?
  }

  /** Nothing is missing or misplaced, so the documents are the active chunks and the orphans. */
  ghost predicate OnlyOrphansExtra(db: Database, workspaceId: int, ix: Index) {
    && ActiveIds(db, workspaceId) <= HitIds(ix.hits)
    && forall h :: h in ix.hits ==> NamesOwner(db, workspaceId, h) || IsOrphanId(db, h.id)
  }

  /** The two ways through the command. */
  lemma DeleteCases(db: Database, ix: Index, workspaceId: int, m: Manifest, approval: Digest<OrphanPayload>,
                    faults: DeleteFaults, after: Index, r: DeleteResult)
    requires ValidDb(db)
    requires (after, Some(r)) == DeleteOrphans(db, ix, workspaceId, m, approval, faults)
    ensures Submits(r) ==>
              && m.payload.Some?
              && InspectLegacyMapping(ix.resource, |ActiveRows(db, workspaceId)|).compatible
              && BlockDelete(m.payload.value, Audit(db, ix, workspaceId, FULL_ID_LIMIT)).None?
              && (after, r) == ExecuteDelete(db, ix, workspaceId, m.payload.value.orphanIds, faults)
    ensures !Submits(r) ==> after == ix && r.submitted == [] && r.accepted == 0
  {
    hide Audit, ActiveRows, InspectLegacyMapping;
  }

  /** The audit's list of orphans: only orphans, and all of them if the limit allows. */
  lemma ListedOrphans(db: Database, ix: Index, workspaceId: int, limit: nat)
    requires ValidDb(db) && UniqueHits(ix.hits)
    ensures var listed := Audit(db, ix, workspaceId, limit).orphanIds;
            && Distinct(listed)
            && (forall id :: id in listed ==> IsOrphanId(db, id) && id in HitIds(ix.hits))
            && (|Judged(db, workspaceId, ix.hits, Orphan)| <= limit <==>
                  |listed| == |Judged(db, workspaceId, ix.hits, Orphan)|)
            && (|Judged(db, workspaceId, ix.hits, Orphan)| <= limit ==>
                  listed == Judged(db, workspaceId, ix.hits, Orphan))
  {
    var orphans := Judged(db, workspaceId, ix.hits, Orphan);
    OrphanIdFacts(db, workspaceId, ix.hits);
    SampleFacts(orphans, limit);
    hide Judged, Samples, IsOrphanId, HitIds, MissingRows, ActiveRows, InspectLegacyMapping;
  }

  /** The ids that pass the drift check are listed orphans. */
  lemma ApprovedAreOrphans(db: Database, ix: Index, workspaceId: int, payload: OrphanPayload)
    requires ValidDb(db) && UniqueHits(ix.hits)
    requires BlockDelete(payload, Audit(db, ix, workspaceId, FULL_ID_LIMIT)).None?
    ensures forall id :: id in payload.orphanIds ==> IsOrphanId(db, id) && id in HitIds(ix.hits)
    ensures |Judged(db, workspaceId, ix.hits, Orphan)| <= FULL_ID_LIMIT ==>
              multiset(payload.orphanIds) == multiset(Judged(db, workspaceId, ix.hits, Orphan))
  {
    ListedOrphans(db, ix, workspaceId, FULL_ID_LIMIT);
    hide Judged, Audit, IsOrphanId, HitIds;
    var listed := Audit(db, ix, workspaceId, FULL_ID_LIMIT).orphanIds;
    forall id | id in payload.orphanIds ensures id in listed {
      assert id in multiset(payload.orphanIds);
    }
  }

  lemma OrphansAreNotActive(db: Database, ids: seq<ChunkId>)
    requires ValidDb(db) && forall id :: id in ids ==> IsOrphanId(db, id)
    ensures forall id, w :: id in ids ==> id !in ActiveIds(db, w)
  {
  }

  /** What is submitted are the approved ids, all of them orphans at that moment, none of them an active
      chunk of any workspace; every other document survives in place. If the orphan list fits the id
      limit, the approved ids are exactly the orphans. A command that submits nothing changes nothing. */
  lemma DeletesOnlyOrphans(db: Database, ix: Index, workspaceId: int, m: Manifest, approval: Digest<OrphanPayload>,
                           faults: DeleteFaults, after: Index, r: DeleteResult)
    requires ValidDb(db) && UniqueHits(ix.hits)
    requires (after, Some(r)) == DeleteOrphans(db, ix, workspaceId, m, approval, faults)
    ensures !Submits(r) ==> after == ix && r.submitted == []
    ensures Submits(r) ==> m.payload.Some? && r.submitted == m.payload.value.orphanIds
    ensures forall id :: id in r.submitted ==> IsOrphanId(db, id) && id in HitIds(ix.hits)
    ensures forall id, w :: id in r.submitted ==> id !in ActiveIds(db, w)
    ensures after.resource == ix.resource
    ensures after.hits == Filter(SurvivesDelete(r.submitted, faults.bulk.refused), ix.hits)
    ensures Submits(r) && |Judged(db, workspaceId, ix.hits, Orphan)| <= FULL_ID_LIMIT ==>
              multiset(r.submitted) == multiset(Judged(db, workspaceId, ix.hits, Orphan))
  {
    DeleteCases(db, ix, workspaceId, m, approval, faults, after, r);
    hide DeleteOrphans, Audit, Judged, Filter, IsOrphanId, BlockDelete, ActiveIds;
    if Submits(r) {
      ApprovedAreOrphans(db, ix, workspaceId, m.payload.value);
      OrphansAreNotActive(db, r.submitted);
    } else {
      SurvivesEmpty(ix.hits, faults.bulk.refused);
    }
  }

  lemma SurvivesEmpty(hits: seq<Hit>, refused: set<ChunkId>)
    ensures Filter(SurvivesDelete([], refused), hits) == hits
  {
    FilterAll(SurvivesDelete([], refused), hits);
  }

  // ---------------------------------------------------------------- the outcome

  /** Every listed document goes, every other one stays. */
  lemma DeletedIds(hits: seq<Hit>, ids: seq<ChunkId>, refused: set<ChunkId>)
    ensures HitIds(ApplyDeletes(hits, ids, refused)) == HitIds(hits) - ((set id | id in ids) - refused)
    ensures forall h :: h in ApplyDeletes(hits, ids, refused) ==> h in hits
  {
    FilterMembers(SurvivesDelete(ids, refused), hits);
    var after := ApplyDeletes(hits, ids, refused);
    forall h | h in hits && SurvivesDelete(ids, refused)(h) ensures h.id in HitIds(after) {
      assert h in after;
    }
  }

  /** With all orphans deleted from an index that held only orphans besides the active chunks, the two
      stores agree; with any orphan left they do not. */
  lemma AgreementAfterDelete(db: Database, ix: Index, workspaceId: int, ids: seq<ChunkId>, refused: set<ChunkId>)
    requires ValidDb(db) && OnlyOrphansExtra(db, workspaceId, ix)
    requires forall id :: id in ids ==> IsOrphanId(db, id)
    ensures InAgreement(db, workspaceId, ix.(hits := ApplyDeletes(ix.hits, ids, refused))) <==>
            forall id :: id in HitIds(ix.hits) && IsOrphanId(db, id) ==> id in ids && id !in refused
  {
    DeletedIds(ix.hits, ids, refused);
    var after := ApplyDeletes(ix.hits, ids, refused);
    forall id | id in ActiveIds(db, workspaceId) ensures !IsOrphanId(db, id) && id in HitIds(after) {
    }
    if forall id :: id in HitIds(ix.hits) && IsOrphanId(db, id) ==> id in ids && id !in refused {
      forall h | h in after ensures NamesOwner(db, workspaceId, h) {
        assert h in ix.hits && h.id in HitIds(after);
      }
    } else {
      var id :| id in HitIds(ix.hits) && IsOrphanId(db, id) && !(id in ids && id !in refused);
      assert id in HitIds(after);
    }
  }

  lemma CleanMeansOnlyOrphansExtra(db: Database, ix: Index, workspaceId: int, limit: nat)
    requires ValidDb(db)
    ensures !Dirty(Audit(db, ix, workspaceId, limit)) <==> OnlyOrphansExtra(db, workspaceId, ix)
  {
    MissingMembers(db, workspaceId, ix.hits);
    var missing := ChunkIds(MissingRows(ActiveRows(db, workspaceId), ix.hits));
    if missing == [] {
      forall id | id in ActiveIds(db, workspaceId) ensures id in HitIds(ix.hits) {
        assert id in ActiveIds(db, workspaceId) - HitIds(ix.hits) ==> id in missing;
      }
    } else {
      assert missing[0] in missing && missing[0] in ActiveIds(db, workspaceId) - HitIds(ix.hits);
    }
    NothingMisplaced(db, ix, workspaceId);
  }

  /** Distinct ids listed within a shorter distinct list cannot all be there. */
  lemma ShorterListMisses(all: seq<ChunkId>, listed: seq<ChunkId>)
    requires Distinct(all) && Distinct(listed) && |listed| < |all| && forall id :: id in listed ==> id in all
    ensures exists id :: id in all && id !in listed
  {
    if forall id :: id in all ==> id in listed {
      DistinctLength(all, listed);
    }
  }

  /** Every approved id was accepted exactly when every approved document was there and none refused. */
  lemma AcceptedAll(hits: seq<Hit>, ids: seq<ChunkId>, refused: set<ChunkId>)
    ensures |Filter(Deletable(hits, refused), ids)| == |ids| <==>
            forall id :: id in ids ==> id !in refused && Found(hits, id)
  {
    FilterKeepsAll(Deletable(hits, refused), ids);
    assert forall id :: Deletable(hits, refused)(id) <==> id !in refused && Found(hits, id);
  }

  lemma AgreementIffAllAccepted(db: Database, ix: Index, workspaceId: int, payload: OrphanPayload, refused: set<ChunkId>)
    requires ValidDb(db) && UniqueHits(ix.hits)
    requires BlockDelete(payload, Audit(db, ix, workspaceId, FULL_ID_LIMIT)).None?
    ensures InAgreement(db, workspaceId, ix.(hits := ApplyDeletes(ix.hits, payload.orphanIds, refused))) <==>
            && |Filter(Deletable(ix.hits, refused), payload.orphanIds)| == |payload.orphanIds|
            && |Judged(db, workspaceId, ix.hits, Orphan)| <= FULL_ID_LIMIT
  {
    var ids := payload.orphanIds;
    var orphans := Judged(db, workspaceId, ix.hits, Orphan);
    var listed := Audit(db, ix, workspaceId, FULL_ID_LIMIT).orphanIds;
    ApprovedAreOrphans(db, ix, workspaceId, payload);
    ListedOrphans(db, ix, workspaceId, FULL_ID_LIMIT);
    OrphanIdFacts(db, workspaceId, ix.hits);
    CleanMeansOnlyOrphansExtra(db, ix, workspaceId, FULL_ID_LIMIT);
    AcceptedAll(ix.hits, ids, refused);
    assert multiset(ids) == multiset(listed);
    hide Judged, Audit, IsOrphanId, InAgreement, NamesOwner, ActiveIds, ApplyDeletes, Deletable, Filter;
    AgreementAfterDelete(db, ix, workspaceId, ids, refused);
    forall id ensures id in ids <==> id in listed {
      assert id in multiset(ids) <==> id in multiset(listed);
    }
    if |orphans| > FULL_ID_LIMIT {
      assert |listed| < |orphans| by { ListLimit(db, ix, workspaceId); }
      ShorterListMisses(orphans, listed);
    }
  }

  lemma ListLimit(db: Database, ix: Index, workspaceId: int)
    ensures |Audit(db, ix, workspaceId, FULL_ID_LIMIT).orphanIds| <= FULL_ID_LIMIT
  {
    SampleFacts(Judged(db, workspaceId, ix.hits, Orphan), FULL_ID_LIMIT);
  }

  /** A submitted deletion passes exactly when every delete was accepted, the post-audit could run and
      the orphan list was complete; a pass means that the stores agree. */
  lemma DeletePasses(db: Database, ix: Index, workspaceId: int, m: Manifest, approval: Digest<OrphanPayload>,
                     faults: DeleteFaults, after: Index, r: DeleteResult)
    requires ValidDb(db) && UniqueHits(ix.hits)
    requires (after, Some(r)) == DeleteOrphans(db, ix, workspaceId, m, approval, faults)
    ensures Submits(r) ==>
              (r.status.PassedOrphansDeleted? <==>
               && r.accepted == |r.submitted| && r.postAudit.Some?
               && |Judged(db, workspaceId, ix.hits, Orphan)| <= FULL_ID_LIMIT)
    ensures r.status.PassedOrphansDeleted? ==> InAgreement(db, workspaceId, after)
  {
    hide DeleteOrphans, Audit, Judged, InAgreement, BlockDelete, ActiveRows, Filter, LegacyIndex, InspectLegacyMapping;
    DeleteCases(db, ix, workspaceId, m, approval, faults, after, r);
    if Submits(r) {
      AgreementIffAllAccepted(db, ix, workspaceId, m.payload.value, faults.bulk.refused);
      AuditSoundAndComplete(db, after, workspaceId, FULL_ID_LIMIT);
      MappingMeaning(ix.resource, |ActiveRows(db, workspaceId)|);
    }
  }

  /** A deletion that removed anything invalidates its own approval: replaying it submits nothing,
      because the orphans have drifted. A deletion that removed nothing leaves it as valid as before. */
  lemma DeleteReplay(db: Database, ix: Index, workspaceId: int, m: Manifest, approval: Digest<OrphanPayload>,
                     faults: DeleteFaults, after: Index, r: DeleteResult, again: DeleteFaults)
    requires ValidDb(db) && UniqueHits(ix.hits)
    requires (after, Some(r)) == DeleteOrphans(db, ix, workspaceId, m, approval, faults) && Submits(r)
    ensures BlockDelete(m.payload.value, Audit(db, after, workspaceId, FULL_ID_LIMIT)) ==
            if after == ix then None else Some(BlockedOrphanDrift)
    ensures after != ix ==>
              DeleteOrphans(db, after, workspaceId, m, approval, again) ==
              (after, if again.preAuditFails then None else Some(BlockedDelete(BlockedOrphanDrift)))
  {
    DeleteCases(db, ix, workspaceId, m, approval, faults, after, r);
    if after != ix {
      DriftAfterDelete(db, ix, workspaceId, m.payload.value, faults.bulk.refused);
      ReplayShape(db, ix, workspaceId, m, approval, faults, r, after, again);
    }
  }

  lemma ReplayShape(db: Database, ix: Index, workspaceId: int, m: Manifest, approval: Digest<OrphanPayload>,
                    faults: DeleteFaults, r: DeleteResult, after: Index, again: DeleteFaults)
    requires ValidDb(db)
    requires (after, Some(r)) == DeleteOrphans(db, ix, workspaceId, m, approval, faults) && Submits(r)
    requires BlockDelete(m.payload.value, Audit(db, after, workspaceId, FULL_ID_LIMIT)) == Some(BlockedOrphanDrift)
    ensures DeleteOrphans(db, after, workspaceId, m, approval, again) ==
            (after, if again.preAuditFails then None else Some(BlockedDelete(BlockedOrphanDrift)))
  {
    DeleteCases(db, ix, workspaceId, m, approval, faults, after, r);
    hide Audit, ActiveRows, BlockDelete, Filter;
  }

  lemma DriftAfterDelete(db: Database, ix: Index, workspaceId: int, payload: OrphanPayload, refused: set<ChunkId>)
    requires ValidDb(db) && UniqueHits(ix.hits)
    requires BlockDelete(payload, Audit(db, ix, workspaceId, FULL_ID_LIMIT)).None?
    ensures var after := ix.(hits := ApplyDeletes(ix.hits, payload.orphanIds, refused));
            after != ix ==>
              BlockDelete(payload, Audit(db, after, workspaceId, FULL_ID_LIMIT)) == Some(BlockedOrphanDrift)
  {
    var ids := payload.orphanIds;
    var after := ix.(hits := ApplyDeletes(ix.hits, ids, refused));
    if after != ix {
      ApprovedAreOrphans(db, ix, workspaceId, payload);
      OrphansAreNotActive(db, ids);
      CleanMeansOnlyOrphansExtra(db, ix, workspaceId, FULL_ID_LIMIT);
      CleanMeansOnlyOrphansExtra(db, after, workspaceId, FULL_ID_LIMIT);
      DeletedIds(ix.hits, ids, refused);
      FilterUniqueHits(SurvivesDelete(ids, refused), ix.hits);
      ListedOrphans(db, after, workspaceId, FULL_ID_LIMIT);
      var gone := SomeoneGone(ix.hits, ids, refused);
      var listed := Audit(db, after, workspaceId, FULL_ID_LIMIT).orphanIds;
      hide Audit, Judged, IsOrphanId, NamesOwner, ActiveIds, ApplyDeletes, Filter;
      assert gone !in listed;
      assert gone in multiset(ids) && gone !in multiset(listed);
    }
  }

  lemma SomeoneGone(hits: seq<Hit>, ids: seq<ChunkId>, refused: set<ChunkId>) returns (gone: ChunkId)
    requires ApplyDeletes(hits, ids, refused) != hits
    ensures gone in ids && gone !in refused
  {
    if forall id :: id in ids ==> id in refused {
      FilterAll(SurvivesDelete(ids, refused), hits);
    }
    gone :| gone in ids && gone !in refused;
  }
}
