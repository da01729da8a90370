/** What the missing-only repair guarantees, whatever part of each bulk call is refused. */
module MissingRepairProperties {
  import opened Sequences
  import opened ChunkStores
  import opened LegacyAudit
  import opened AuditProperties
  import opened StoreClient
  import opened MissingRepair

  /** The chunk's text is in the storage of its workspace. */
  ghost predicate HasStoredText(storage: Storage, ws: Workspace, c: Chunk) {
    c.objectKey != "" && (ws.slug, c.objectKey) in storage
  }

  /** `h` says of the chunk what it has to: its id, its file, its workspace twice, and its stored text up to 65000
      characters. */
  ghost predicate Describes(h: Hit, storage: Storage, ws: Workspace, c: Chunk)
    requires HasStoredText(storage, ws, c)
  {
    var text := storage[(ws.slug, c.objectKey)];
    && h.id == c.chunkId
    && h.source.chunkId == Some(c.chunkId) && h.source.fileId == Some(c.fileId)
    && h.source.workspaceId == Some(ws.id) && h.source.workspaceSlug == Some(ws.slugSegment)
    && h.source.content == Some(if |text| <= 65000 then text else text[..65000])
  }

  /** `h` describes an active chunk that had no document. */
  ghost predicate NewDocument(db: Database, hits: seq<Hit>, storage: Storage, ws: Workspace, h: Hit) {
    exists c :: && c in db.chunks && Active(db, ws.id, c) && !Found(hits, c.chunkId)
                && HasStoredText(storage, ws, c) && Describes(h, storage, ws, c)
  }

  lemma DocumentDescribes(storage: Storage, ws: Workspace, c: Chunk)
    requires HasStoredText(storage, ws, c) && |c.chunkId| <= MAX_CHUNK_ID
    ensures Describes(LegacyDocument(ws, Loaded(c, storage[(ws.slug, c.objectKey)])), storage, ws, c)
  {
    assert c.chunkId[..|c.chunkId|] == c.chunkId;
    var text := storage[(ws.slug, c.objectKey)];
    assert text[..|text|] == text;
  }

  lemma {:induction false} LoadedMembers(storage: Storage, ws: Workspace, rows: seq<Chunk>)
    ensures forall l :: l in LoadedRows(storage, ws, rows) ==>
              l.chunk in rows && HasStoredText(storage, ws, l.chunk) && l.text == storage[(ws.slug, l.chunk.objectKey)]
  {
    if rows != [] {
      LoadedMembers(storage, ws, rows[..|rows| - 1]);
    }
  }

  ghost predicate InLoadOrder(loaded: seq<Loaded>) {
    forall i, j :: 0 <= i < j < |loaded| ==> loaded[i].chunk.rowId < loaded[j].chunk.rowId
  }

  lemma {:induction false} LoadedInOrder(storage: Storage, ws: Workspace, rows: seq<Chunk>)
    requires InRowOrder(rows)
    ensures InLoadOrder(LoadedRows(storage, ws, rows))
  {
    if rows != [] {
      var n := |rows| - 1;
      var before := LoadedRows(storage, ws, rows[..n]);
      var all := LoadedRows(storage, ws, rows);
      LoadedInOrder(storage, ws, rows[..n]);
      LoadedMembers(storage, ws, rows[..n]);
      forall i, j | 0 <= i < j < |all| ensures all[i].chunk.rowId < all[j].chunk.rowId {
        if j == |before| {
          assert all[i] == before[i] && before[i] in before;
          var k :| 0 <= k < n && rows[k] == before[i].chunk;
          assert rows[k].rowId < rows[n].rowId;
        } else {
          assert all[i] == before[i] && all[j] == before[j];
        }
      }
    }
  }

  lemma {:induction false} LoadedOrFailed(storage: Storage, ws: Workspace, rows: seq<Chunk>)
    ensures var loaded := LoadedRows(storage, ws, rows);
            && |loaded| + |FailuresOf(storage, ws, rows)| == |rows|
            && (FailuresOf(storage, ws, rows) == [] ==> forall i :: 0 <= i < |rows| ==> loaded[i].chunk == rows[i])
  {
    if rows != [] {
      LoadedOrFailed(storage, ws, rows[..|rows| - 1]);
    }
  }

  lemma CandidateFacts(db: Database, ix: Index, ws: Workspace)
    requires ValidDb(db) && ValidIndex(ix) && (ix.resource.Physical? || ix.resource.Absent?)
    ensures Candidates(db, ix, ws) == MissingRows(ActiveRows(db, ws.id), ix.hits)
    ensures InRowOrder(Candidates(db, ix, ws))
    ensures forall c :: c in Candidates(db, ix, ws) <==>
                        c in db.chunks && Active(db, ws.id, c) && !Found(ix.hits, c.chunkId)
  {
    var rows := ActiveRows(db, ws.id);
    ActiveRowsFacts(db, ws.id);
    FilterMembers(IsActive(db, ws.id), db.chunks);
    FilterMembers(NotFoundIn(ix.hits), rows);
    FilterInRowOrder(NotFoundIn(ix.hits), rows);
    if ix.resource.Absent? {
      FilterAll(NotFoundIn(ix.hits), rows);
    }
  }

  /** The documents submitted: one for each active chunk that has a stored text and no document, saying of it what
      it has to; and no other. */
  lemma SubmittedDocuments(db: Database, ix: Index, storage: Storage, ws: Workspace)
    requires ValidDb(db) && ValidIndex(ix) && (ix.resource.Physical? || ix.resource.Absent?)
    ensures var docs := ToWrite(db, ix, storage, ws);
            && UniqueHits(docs)
            && (forall h :: h in docs ==> NewDocument(db, ix.hits, storage, ws, h) && !Found(ix.hits, h.id))
            && (forall c :: (c in db.chunks && Active(db, ws.id, c) && !Found(ix.hits, c.chunkId)
                             && HasStoredText(storage, ws, c)) ==> Found(docs, c.chunkId))
  {
    hide Candidates, LoadedRows, FailuresOf, Active, LegacyDocument, Describes, HasStoredText, Found;
    var rows := Candidates(db, ix, ws);
    CandidateFacts(db, ix, ws);
    LoadedMembers(storage, ws, rows);
    LoadedInOrder(storage, ws, rows);
    var loaded := LoadedRows(storage, ws, rows);
    var docs := Documents(ws, loaded);
    forall i | 0 <= i < |docs|
      ensures docs[i].id == loaded[i].chunk.chunkId && NewDocument(db, ix.hits, storage, ws, docs[i])
    {
      assert loaded[i] in loaded;
      NewOne(db, ix.hits, storage, ws, loaded[i]);
    }
    forall i, j | 0 <= i < j < |docs| ensures docs[i].id != docs[j].id {
      assert loaded[i] in loaded && loaded[j] in loaded;
      assert loaded[i].chunk.rowId < loaded[j].chunk.rowId;
      assert loaded[i].chunk in db.chunks && loaded[j].chunk in db.chunks;
    }
    forall c | c in rows && HasStoredText(storage, ws, c) ensures Found(docs, c.chunkId) {
      ReadableIsLoaded(storage, ws, rows, c);
      var i :| 0 <= i < |loaded| && loaded[i].chunk == c;
      SameIdFound(docs, docs[i]);
    }
  }

  lemma SameIdFound(hits: seq<Hit>, h: Hit)
    requires h in hits
    ensures Found(hits, h.id)
  {
  }

  lemma NewOne(db: Database, hits: seq<Hit>, storage: Storage, ws: Workspace, l: Loaded)
    requires ValidDb(db) && l.chunk in db.chunks && Active(db, ws.id, l.chunk) && !Found(hits, l.chunk.chunkId)
    requires HasStoredText(storage, ws, l.chunk) && l.text == storage[(ws.slug, l.chunk.objectKey)]
    ensures var h := LegacyDocument(ws, l);
            h.id == l.chunk.chunkId && NewDocument(db, hits, storage, ws, h) && !Found(hits, h.id)
  {
    DocumentDescribes(storage, ws, l.chunk);
    hide Active, Found, LegacyDocument;
  }

  lemma {:induction false} ReadableIsLoaded(storage: Storage, ws: Workspace, rows: seq<Chunk>, c: Chunk)
    requires c in rows && HasStoredText(storage, ws, c)
    ensures exists i :: 0 <= i < |LoadedRows(storage, ws, rows)| && LoadedRows(storage, ws, rows)[i].chunk == c
  {
    var n := |rows| - 1;
    var all := LoadedRows(storage, ws, rows);
    assert rows == rows[..n] + [rows[n]];
    if c == rows[n] {
      assert all[|all| - 1].chunk == c;
    } else {
      ReadableIsLoaded(storage, ws, rows[..n], c);
      var before := LoadedRows(storage, ws, rows[..n]);
      var i :| 0 <= i < |before| && before[i].chunk == c;
      assert all[i] == before[i];
    }
  }

  lemma UniqueHitsConcat(a: seq<Hit>, b: seq<Hit>)
    requires UniqueHits(a) && UniqueHits(b) && forall h :: h in b ==> !Found(a, h.id)
    ensures UniqueHits(a + b)
  {
    forall i, j | 0 <= i < j < |a + b| ensures (a + b)[i].id != (a + b)[j].id {
      if i < |a| <= j {
        assert (a + b)[j] in b && (a + b)[i] in a;
      }
    }
  }

  lemma SplitUnique(docs: seq<Hit>, n: nat)
    requires UniqueHits(docs) && n <= |docs|
    ensures UniqueHits(docs[..n]) && UniqueHits(docs[n..])
    ensures forall h :: h in docs[n..] ==> !Found(docs[..n], h.id)
  {
    forall h, g | h in docs[n..] && g in docs[..n] ensures h.id != g.id {
      var i :| 0 <= i < n && docs[i] == g;
      var j :| n <= j < |docs| && docs[j] == h;
    }
  }

  /** One call appends the documents it does not refuse. */
  lemma {:induction false} CallAppends(hits: seq<Hit>, batch: seq<Hit>, refused: set<ChunkId>)
    returns (added: seq<Hit>)
    requires UniqueHits(batch) && forall h :: h in batch ==> !Found(hits, h.id)
    ensures ApplyUpserts(hits, batch, refused) == hits + added
    ensures added == Filter(ChosenHit(refused), batch)
    ensures UniqueHits(added) && forall h :: h in added ==> h in batch
    ensures |added| == |batch| ==> added == batch
  {
    added := Filter(ChosenHit(refused), batch);
    UpsertsAppend(hits, batch, refused);
    FilterMembers(ChosenHit(refused), batch);
    FilterUniqueHits(ChosenHit(refused), batch);
    if |added| == |batch| {
      FilterKeepsAll(ChosenHit(refused), batch);
    }
  }

  /** Writing new documents only appends some of them; unless a call is refused, all of them. */
  lemma {:induction false} WritesAppend(hits: seq<Hit>, docs: seq<Hit>, size: nat, k: nat, bulk: seq<BulkOutcome>)
    returns (added: seq<Hit>)
    requires size > 0 && UniqueHits(docs) && forall h :: h in docs ==> !Found(hits, h.id)
    ensures WriteBatches(hits, docs, size, k, bulk).hits == hits + added
    ensures UniqueHits(added) && forall h :: h in added ==> h in docs
    ensures var out := WriteBatches(hits, docs, size, k, bulk);
            && out.accepted <= |added| && out.accepted <= out.submitted <= |docs|
            && (docs != [] ==> out.submitted > 0)
            && (out.status.AllWritten? ==> added == docs && out.accepted == out.submitted == |docs|)
    decreases |docs|
  {
    if docs == [] {
      added := [];
      assert hits + added == hits;
    } else {
      var n := Min(size, |docs|);
      var batch, rest := docs[..n], docs[n..];
      SplitUnique(docs, n);
      forall h | h in batch ensures !Found(hits, h.id) { assert h in docs; }
      added := CallAppends(hits, batch, Call(bulk, k).refused);
      assert forall h :: h in added ==> h in docs;
      if !Call(bulk, k).Raises? && |added| == n {
        RestIsNew(hits, docs, n);
        var more := WritesAppend(hits + batch, rest, size, k + 1, bulk);
        Joined(hits, docs, n, more);
        added := batch + more;
      }
    }
  }

  lemma RestIsNew(hits: seq<Hit>, docs: seq<Hit>, n: nat)
    requires n <= |docs| && UniqueHits(docs) && forall h :: h in docs ==> !Found(hits, h.id)
    ensures UniqueHits(docs[n..]) && forall h :: h in docs[n..] ==> !Found(hits + docs[..n], h.id)
  {
    SplitUnique(docs, n);
    forall h | h in docs[n..] ensures !Found(hits + docs[..n], h.id) {
      assert h in docs && !Found(hits, h.id) && !Found(docs[..n], h.id);
    }
  }

  lemma Joined(hits: seq<Hit>, docs: seq<Hit>, n: nat, more: seq<Hit>)
    requires n <= |docs| && UniqueHits(docs) && UniqueHits(more) && forall h :: h in more ==> h in docs[n..]
    ensures UniqueHits(docs[..n] + more) && forall h :: h in docs[..n] + more ==> h in docs
    ensures (hits + docs[..n]) + more == hits + (docs[..n] + more)
    ensures docs[..n] + docs[n..] == docs
  {
    SplitUnique(docs, n);
    UniqueHitsConcat(docs[..n], more);
  }

  // ---------------------------------------------------------------- the command

  predicate BlockedRepair(s: RepairStatus) {
    s.BlockedMissingPlanDrift? || s.Blocked? || s.BlockedIndexCreateApproval?
  }

  /** Every document stays as it is, and every added one is new, correct and under its own id. */
  ghost predicate OnlyAdds(db: Database, ix: Index, storage: Storage, ws: Workspace, after: Index) {
    && ix.hits <= after.hits
    && UniqueHits(after.hits[|ix.hits|..])
    && forall h :: h in after.hits[|ix.hits|..] ==>
                     NewDocument(db, ix.hits, storage, ws, h) && !Found(ix.hits, h.id)
  }

  /** The preflight says nothing that stops the command. */
  predicate Executable(p: Preflight) {
    && !p.l2.status.FailedL2?
    && AcceptableMapping(p.mapping.status)
    && !p.gate.BlockedLegacyAudit? && !p.gate.BlockedConcurrentDrift?
  }

  /** What an unblocked command does to the index. */
  lemma {:induction false} ExecuteAppends(db: Database, ix: Index, storage: Storage, p: Preflight, size: nat, faults: Faults)
    returns (added: seq<Hit>)
    requires ValidDb(db) && ValidIndex(ix) && size > 0 && Executable(p)
    requires p.mapping == InspectLegacyMapping(ix.resource, p.activeCount)
    ensures var (after, r) := Execute(db, ix, storage, p, size, faults);
            && after.hits == ix.hits + added
            && r.accepted <= |added|
            && r.indexCreated == p.mapping.status.IndexAbsent?
            && after.resource == (if r.indexCreated then faults.created else ix.resource)
            && (BlockedRepair(r.status) ==> added == [] && r.submitted == 0)
            && (!BlockedRepair(r.status) && r.accepted == r.submitted ==> added == ToWrite(db, ix, storage, p.workspace))
            && (!BlockedRepair(r.status) ==>
                  r == Conclude(db, after, p, r.indexCreated,
                                WriteBatches(ix.hits, ToWrite(db, ix, storage, p.workspace), size, 1, faults.bulk),
                                faults.postAuditFails))
    ensures UniqueHits(added)
    ensures forall h :: h in added ==> NewDocument(db, ix.hits, storage, p.workspace, h) && !Found(ix.hits, h.id)
  {
    hide WriteBatches, ToWrite, Audit, NewDocument;
    var (after, r) := Execute(db, ix, storage, p, size, faults);
    var created := p.mapping.status.IndexAbsent?;
    if created && !InspectLegacyMapping(faults.created, p.activeCount).compatible {
      added := [];
      assert ix.hits + added == ix.hits;
    } else {
      var docs := ToWrite(db, ix, storage, p.workspace);
      SubmittedDocuments(db, ix, storage, p.workspace);
      added := WritesAppend(ix.hits, docs, size, 1, faults.bulk);
      StoppedMeansRefused(ix.hits, docs, size, 1, faults.bulk);
    }
  }

  /** What an executable preflight has found. */
  lemma PreflightFacts(db: Database, ix: Index, storage: Storage, ws: Workspace, auditFails: bool)
    ensures var p := PreflightOf(db, ix, storage, ws, auditFails);
            && p.workspace == ws && p.activeCount == |ActiveRows(db, ws.id)|
            && p.mapping == InspectLegacyMapping(ix.resource, p.activeCount)
            && (Executable(p) ==>
                  && FailuresOf(storage, ws, Candidates(db, ix, ws)) == []
                  && p.preAudit == Some(Audit(db, ix, ws.id, FULL_ID_LIMIT))
                  && p.preAudit.value.mismatchCount == 0 && p.preAudit.value.deletedCount == 0)
  {
    hide Audit, Candidates, ActiveRows, LoadedRows, FailuresOf;
  }

  lemma UnblockedIsExecutable(p: Preflight, allowCreate: bool, approved: Option<MissingPlan>)
    requires BlockBeforeWrite(p, approved, allowCreate).None?
    ensures Executable(p)
  {
  }

  lemma RepairOnlyAdds(db: Database, ix: Index, storage: Storage, ws: Workspace, allowCreate: bool, size: nat,
                       approved: Option<MissingPlan>, faults: Faults, after: Index, r: RepairResult)
    requires ValidDb(db) && ValidIndex(ix) && size > 0
    requires (after, r) == Repair(db, ix, storage, ws, allowCreate, size, approved, faults)
    ensures OnlyAdds(db, ix, storage, ws, after)
    ensures r.accepted <= |after.hits| - |ix.hits|
    ensures BlockedRepair(r.status) ==> after.hits == ix.hits && r.submitted == 0
    ensures after.resource == (if r.indexCreated then faults.created else ix.resource)
    ensures r.indexCreated ==> ix.resource.Absent?
  {
    var p := PreflightOf(db, ix, storage, ws, faults.preAuditFails);
    hide PreflightOf, Execute, NewDocument, ToWrite, WriteBatches, Conclude, Audit, Candidates, FailuresOf, ActiveRows;
    if BlockBeforeWrite(p, approved, allowCreate).None? {
      PreflightFacts(db, ix, storage, ws, faults.preAuditFails);
      UnblockedIsExecutable(p, allowCreate, approved);
      var added := ExecuteAppends(db, ix, storage, p, size, faults);
      assert after.hits[|ix.hits|..] == added;
    } else {
      assert after.hits[|ix.hits|..] == [];
    }
  }

  /** Documents that name their owner change no anomaly count of the documents. */
  lemma AppendConsistent(db: Database, workspaceId: int, hits: seq<Hit>, added: seq<Hit>, v: Verdict)
    requires ValidDb(db) && v != Consistent && forall h :: h in added ==> NamesOwner(db, workspaceId, h)
    ensures Judged(db, workspaceId, hits + added, v) == Judged(db, workspaceId, hits, v)
  {
    FilterConcat(JudgedAs(db, workspaceId, v), hits, added);
    forall h | h in added ensures !JudgedAs(db, workspaceId, v)(h) {
      VerdictMeaning(db, workspaceId, h);
    }
    FilterNone(JudgedAs(db, workspaceId, v), added);
    assert Filter(JudgedAs(db, workspaceId, v), hits) + [] == Filter(JudgedAs(db, workspaceId, v), hits);
  }

  lemma NewNamesOwner(db: Database, hits: seq<Hit>, storage: Storage, ws: Workspace, h: Hit)
    requires NewDocument(db, hits, storage, ws, h)
    ensures NamesOwner(db, ws.id, h)
  {
    var c :| && c in db.chunks && Active(db, ws.id, c) && !Found(hits, c.chunkId)
             && HasStoredText(storage, ws, c) && Describes(h, storage, ws, c);
  }

  /** Adding documents that are new and correct leaves the other anomalies as they were. */
  lemma AddingKeepsAnomalies(db: Database, ix: Index, storage: Storage, ws: Workspace, after: Index)
    requires ValidDb(db) && OnlyAdds(db, ix, storage, ws, after)
    ensures forall v: Verdict :: v != Consistent ==>
              Judged(db, ws.id, after.hits, v) == Judged(db, ws.id, ix.hits, v)
    ensures ActiveIds(db, ws.id) - HitIds(after.hits) <= ActiveIds(db, ws.id) - HitIds(ix.hits)
  {
    var added := after.hits[|ix.hits|..];
    assert after.hits == ix.hits + added;
    forall h | h in added ensures NamesOwner(db, ws.id, h) {
      NewNamesOwner(db, ix.hits, storage, ws, h);
    }
    forall v: Verdict | v != Consistent
      ensures Judged(db, ws.id, after.hits, v) == Judged(db, ws.id, ix.hits, v)
    {
      AppendConsistent(db, ws.id, ix.hits, added, v);
    }
  }

  /** Once every candidate is written, no active chunk is missing. */
  lemma AllWrittenNoneMissing(db: Database, ix: Index, storage: Storage, ws: Workspace)
    requires ValidDb(db) && ValidIndex(ix) && (ix.resource.Physical? || ix.resource.Absent?)
    requires FailuresOf(storage, ws, Candidates(db, ix, ws)) == []
    ensures var docs := ToWrite(db, ix, storage, ws);
            && ActiveIds(db, ws.id) <= HitIds(ix.hits + docs)
            && MissingRows(ActiveRows(db, ws.id), ix.hits + docs) == []
            && |docs| == |Candidates(db, ix, ws)|
  {
    hide Candidates, LoadedRows, FailuresOf, Active;
    var rows := Candidates(db, ix, ws);
    var loaded := LoadedRows(storage, ws, rows);
    var docs := Documents(ws, loaded);
    CandidateFacts(db, ix, ws);
    LoadedOrFailed(storage, ws, rows);
    forall c | c in db.chunks && Active(db, ws.id, c) ensures Found(ix.hits + docs, c.chunkId) {
      if !Found(ix.hits, c.chunkId) {
        var i :| 0 <= i < |rows| && rows[i] == c;
        assert docs[i].id == c.chunkId && docs[i] in docs;
      } else {
        var h :| h in ix.hits && h.id == c.chunkId;
        assert h in ix.hits + docs;
      }
    }
    FilterMembers(IsActive(db, ws.id), db.chunks);
    forall c | c in ActiveRows(db, ws.id) ensures !NotFoundIn(ix.hits + docs)(c) {
      assert IsActive(db, ws.id)(c);
    }
    FilterNone(NotFoundIn(ix.hits + docs), ActiveRows(db, ws.id));
  }

  /** The index holds all active chunks, nothing is misplaced, and the orphans are those of `before`. */
  ghost predicate Repaired(db: Database, workspaceId: int, before: Index, after: Index) {
    && ActiveIds(db, workspaceId) <= HitIds(after.hits)
    && (forall h :: h in after.hits ==> NamesOwner(db, workspaceId, h) || IsOrphanId(db, h.id))
    && Judged(db, workspaceId, after.hits, Orphan) == Judged(db, workspaceId, before.hits, Orphan)
  }

  ghost predicate CleanExceptOrphans(audit: AuditReport) {
    audit.missingCount == 0 && audit.mismatchCount == 0 && audit.deletedCount == 0
  }

  /** With everything accepted, the audit afterwards finds only the orphans of before. */
  lemma AllAcceptedMeansRepaired(db: Database, ix: Index, storage: Storage, ws: Workspace, after: Index)
    requires ValidDb(db) && ValidIndex(ix) && (ix.resource.Physical? || ix.resource.Absent?)
    requires FailuresOf(storage, ws, Candidates(db, ix, ws)) == []
    requires Audit(db, ix, ws.id, FULL_ID_LIMIT).mismatchCount == Audit(db, ix, ws.id, FULL_ID_LIMIT).deletedCount == 0
    requires after.hits == ix.hits + ToWrite(db, ix, storage, ws)
    ensures Repaired(db, ws.id, ix, after)
    ensures CleanExceptOrphans(Audit(db, after, ws.id, FULL_ID_LIMIT))
    ensures Audit(db, after, ws.id, FULL_ID_LIMIT).orphanCount == Audit(db, ix, ws.id, FULL_ID_LIMIT).orphanCount
  {
    AllWrittenNoneMissing(db, ix, storage, ws);
    SubmittedDocuments(db, ix, storage, ws);
    var docs := ToWrite(db, ix, storage, ws);
    assert after.hits[|ix.hits|..] == docs;
    hide ToWrite, NewDocument, NamesOwner, Active, Classify, Candidates;
    assert OnlyAdds(db, ix, storage, ws, after);
    AddingKeepsAnomalies(db, ix, storage, ws, after);
    NothingMisplaced(db, after, ws.id);
  }

  lemma {:induction false} ExecutePasses(db: Database, ix: Index, storage: Storage, p: Preflight, size: nat, faults: Faults,
                                         after: Index, r: RepairResult)
    requires ValidDb(db) && ValidIndex(ix) && size > 0 && Executable(p)
    requires p.mapping == InspectLegacyMapping(ix.resource, p.activeCount)
    requires FailuresOf(storage, p.workspace, Candidates(db, ix, p.workspace)) == []
    requires p.preAudit == Some(Audit(db, ix, p.workspace.id, FULL_ID_LIMIT))
    requires p.preAudit.value.mismatchCount == 0 && p.preAudit.value.deletedCount == 0
    requires (after, r) == Execute(db, ix, storage, p, size, faults)
    ensures !BlockedRepair(r.status) ==>
              (PassedRepair(r.status) <==> r.accepted == r.submitted && r.postAudit.Some?)
    ensures PassedRepair(r.status) ==> RepairedAndSeen(db, p.workspace.id, ix, after, r.postAudit)
  {
    hide Execute, Audit, ToWrite, Candidates, FailuresOf, WriteBatches, Repaired, NewDocument, InspectLegacyMapping;
    var added := ExecuteAppends(db, ix, storage, p, size, faults);
    if !BlockedRepair(r.status) {
      StoppedMeansRefused(ix.hits, ToWrite(db, ix, storage, p.workspace), size, 1, faults.bulk);
      if r.accepted == r.submitted {
        AllAcceptedMeansRepaired(db, ix, storage, p.workspace, after);
      }
    }
  }

  ghost predicate RepairedAndSeen(db: Database, workspaceId: int, before: Index, after: Index, seen: Option<AuditReport>) {
    && Repaired(db, workspaceId, before, after)
    && seen == Some(Audit(db, after, workspaceId, FULL_ID_LIMIT))
    && CleanExceptOrphans(seen.value)
    && seen.value.orphanCount == Audit(db, before, workspaceId, FULL_ID_LIMIT).orphanCount
  }

  /** A command that was not blocked passes exactly when every submitted document was accepted and the
      post-audit could run: with no other writer the post-audit never finds fault. A pass means that the
      index is repaired, and that the post-audit saw it. */
  lemma RepairPasses(db: Database, ix: Index, storage: Storage, ws: Workspace, allowCreate: bool, size: nat,
                     approved: Option<MissingPlan>, faults: Faults, after: Index, r: RepairResult)
    requires ValidDb(db) && ValidIndex(ix) && size > 0
    requires (after, r) == Repair(db, ix, storage, ws, allowCreate, size, approved, faults)
    ensures !BlockedRepair(r.status) ==>
              (PassedRepair(r.status) <==> r.accepted == r.submitted && r.postAudit.Some?)
    ensures PassedRepair(r.status) ==> RepairedAndSeen(db, ws.id, ix, after, r.postAudit)
  {
    var p := PreflightOf(db, ix, storage, ws, faults.preAuditFails);
    PreflightFacts(db, ix, storage, ws, faults.preAuditFails);
    hide PreflightOf, Execute, RepairedAndSeen, FailuresOf, Candidates, ActiveRows, Audit;
    if BlockBeforeWrite(p, approved, allowCreate).None? {
      UnblockedIsExecutable(p, allowCreate, approved);
      ExecutePasses(db, ix, storage, p, size, faults, after, r);
    }
  }

  lemma {:induction false} StoppedMeansRefused(hits: seq<Hit>, docs: seq<Hit>, size: nat, k: nat, bulk: seq<BulkOutcome>)
    requires size > 0
    ensures var out := WriteBatches(hits, docs, size, k, bulk);
            out.accepted <= out.submitted && (out.status.AllWritten? <==> out.accepted == out.submitted)
    decreases |docs|
  {
    if docs != [] {
      var n := Min(size, |docs|);
      StoppedMeansRefused(ApplyUpserts(hits, docs[..n], Call(bulk, k).refused), docs[n..], size, k + 1, bulk);
    }
  }
}
