/** What the audit report means. */
module AuditProperties {
  import opened Sequences
  import opened ChunkStores
  import opened LegacyAudit

  /** The document belongs to an active chunk of the workspace and names its file and workspace. */
  ghost predicate NamesOwner(db: Database, workspaceId: int, h: Hit) {
    exists c :: c in db.chunks && Active(db, workspaceId, c) && c.chunkId == h.id
                && h.source.fileId == Some(c.fileId) && h.source.workspaceId == Some(workspaceId)
  }

  /** The index holds exactly the active chunks, each under its right owner. */
  ghost predicate InAgreement(db: Database, workspaceId: int, ix: Index) {
    && HitIds(ix.hits) == ActiveIds(db, workspaceId)
    && forall h :: h in ix.hits ==> NamesOwner(db, workspaceId, h)
  }

  /** No row of the database knows the id, or the row's file is gone. */
  ghost predicate IsOrphanId(db: Database, id: ChunkId) {
    forall c :: c in db.chunks && c.chunkId == id ==> c.fileId !in db.files
  }

  lemma JudgedMembers(db: Database, workspaceId: int, hits: seq<Hit>, v: Verdict)
    ensures forall id :: id in Judged(db, workspaceId, hits, v) <==>
                         exists h :: h in hits && h.id == id && Classify(db, workspaceId, h) == v
  {
    var kept := Filter(JudgedAs(db, workspaceId, v), hits);
    FilterMembers(JudgedAs(db, workspaceId, v), hits);
    forall h | h in hits && Classify(db, workspaceId, h) == v
      ensures h.id in Judged(db, workspaceId, hits, v)
    {
      assert JudgedAs(db, workspaceId, v)(h);
      var i :| 0 <= i < |kept| && kept[i] == h;
      assert IdSeq(kept)[i] == h.id;
    }
    forall id | id in Judged(db, workspaceId, hits, v)
      ensures exists h :: h in hits && h.id == id && Classify(db, workspaceId, h) == v
    {
      var i :| 0 <= i < |kept| && kept[i].id == id;
      assert kept[i] in kept;
    }
  }

  lemma MissingMembers(db: Database, workspaceId: int, hits: seq<Hit>)
    requires ValidDb(db)
    ensures var missing := ChunkIds(MissingRows(ActiveRows(db, workspaceId), hits));
            && Distinct(missing)
            && forall id :: id in missing <==> id in ActiveIds(db, workspaceId) - HitIds(hits)
  {
    hide Filter, Active, Found;
    var rows := ActiveRows(db, workspaceId);
    var absent := MissingRows(rows, hits);
    ActiveRowsFacts(db, workspaceId);
    FilterMembers(NotFoundIn(hits), rows);
    FilterInRowOrder(NotFoundIn(hits), rows);
    FilterMembers(IsActive(db, workspaceId), db.chunks);
    forall i, j | 0 <= i < j < |absent| ensures ChunkIds(absent)[i] != ChunkIds(absent)[j] {
      assert absent[i] in absent && absent[j] in absent;
      assert absent[i] in db.chunks && absent[j] in db.chunks;
    }
    forall id | id in ActiveIds(db, workspaceId) - HitIds(hits) ensures id in ChunkIds(absent) {
      var i :| 0 <= i < |rows| && ChunkIds(rows)[i] == id;
      assert rows[i] in rows && NotFoundIn(hits)(rows[i]);
      var j :| 0 <= j < |absent| && absent[j] == rows[i];
      assert ChunkIds(absent)[j] == id;
    }
    forall id | id in ChunkIds(absent) ensures id in ActiveIds(db, workspaceId) - HitIds(hits) {
      var j :| 0 <= j < |absent| && absent[j].chunkId == id;
      assert absent[j] in absent;
      var i :| 0 <= i < |rows| && rows[i] == absent[j];
      assert ChunkIds(rows)[i] == id;
    }
  }

  /** The row of that id has a file, which is marked as deleted. */
  ghost predicate InDeletedFile(db: Database, id: ChunkId) {
    exists c :: c in db.chunks && c.chunkId == id && c.fileId in db.files && db.files[c.fileId].deleted
  }

  /** The row of that id has a file, which is not marked as deleted. */
  ghost predicate InLiveFile(db: Database, id: ChunkId) {
    exists c :: c in db.chunks && c.chunkId == id && c.fileId in db.files && !db.files[c.fileId].deleted
  }

  /** What each verdict says about the database. */
  lemma VerdictMeaning(db: Database, workspaceId: int, h: Hit)
    requires ValidDb(db)
    ensures Classify(db, workspaceId, h).Orphan? <==> IsOrphanId(db, h.id)
    ensures Classify(db, workspaceId, h).DeletedFile? <==> InDeletedFile(db, h.id)
    ensures Classify(db, workspaceId, h).Mismatch? <==> InLiveFile(db, h.id) && !NamesOwner(db, workspaceId, h)
    ensures Classify(db, workspaceId, h).Consistent? <==> NamesOwner(db, workspaceId, h)
    ensures IsOrphanId(db, h.id) ==> h.id !in ActiveIds(db, workspaceId)
  {
    var found := FindChunk(db.chunks, h.id);
    if found.Some? {
      assert forall c :: c in db.chunks && c.chunkId == h.id ==> c == found.value;
    }
  }

  /** Zero anomalies if and only if the mapping is acceptable and the two stores agree. */
  lemma AuditSoundAndComplete(db: Database, ix: Index, workspaceId: int, limit: nat)
    requires ValidDb(db) && ValidIndex(ix)
    ensures Audit(db, ix, workspaceId, limit).anomalyCount == 0 <==>
            && (ix.resource.Absent? || LegacyIndex(ix.resource))
            && InAgreement(db, workspaceId, ix)
  {
    hide CompatibleMapping, LegacyIndex, MissingRows, ActiveRows, ActiveIds, HitIds, NamesOwner, Judged;
    MappingMeaning(ix.resource, |ActiveRows(db, workspaceId)|);
    NoneMissing(db, workspaceId, ix.hits);
    NoAnomalousHits(db, workspaceId, ix.hits);
    OwnersAreActive(db, workspaceId, ix.hits);
  }

  lemma NoneMissing(db: Database, workspaceId: int, hits: seq<Hit>)
    requires ValidDb(db)
    ensures MissingRows(ActiveRows(db, workspaceId), hits) == [] <==> ActiveIds(db, workspaceId) <= HitIds(hits)
  {
    hide MissingRows, ActiveRows, ActiveIds, HitIds;
    MissingMembers(db, workspaceId, hits);
    var missing := ChunkIds(MissingRows(ActiveRows(db, workspaceId), hits));
    if missing == [] {
      forall id | id in ActiveIds(db, workspaceId) ensures id in HitIds(hits) {
        assert id in ActiveIds(db, workspaceId) - HitIds(hits) ==> id in missing;
      }
    } else {
      assert missing[0] in missing && missing[0] in ActiveIds(db, workspaceId) - HitIds(hits);
    }
  }

  lemma OwnersAreActive(db: Database, workspaceId: int, hits: seq<Hit>)
    ensures (forall h :: h in hits ==> NamesOwner(db, workspaceId, h)) ==> HitIds(hits) <= ActiveIds(db, workspaceId)
  {
  }

  ghost function OrphanHit(db: Database): Hit -> bool {
    (h: Hit) => IsOrphanId(db, h.id)
  }

  ghost function DeletedFileHit(db: Database): Hit -> bool {
    (h: Hit) => InDeletedFile(db, h.id)
  }

  ghost function MisplacedHit(db: Database, workspaceId: int): Hit -> bool {
    (h: Hit) => InLiveFile(db, h.id) && !NamesOwner(db, workspaceId, h)
  }

  /** The counter and the sample list of the documents that `keep` singles out, in scroll order. */
  ghost predicate Reports(count: nat, ids: seq<ChunkId>, keep: Hit -> bool, hits: seq<Hit>, limit: nat) {
    && count == |Filter(keep, hits)|
    && ids == Samples(IdSeq(Filter(keep, hits)), limit)
  }

  lemma JudgedIs(db: Database, workspaceId: int, hits: seq<Hit>, v: Verdict, keep: Hit -> bool)
    requires forall h :: h in hits ==> (Classify(db, workspaceId, h) == v <==> keep(h))
    ensures Judged(db, workspaceId, hits, v) == IdSeq(Filter(keep, hits))
  {
    hide Classify;
    FilterSame(JudgedAs(db, workspaceId, v), keep, hits);
  }

  /** Each counter and list of the report, from the two stores alone. */
  lemma AuditCounts(db: Database, ix: Index, workspaceId: int, limit: nat)
    requires ValidDb(db)
    ensures var a := Audit(db, ix, workspaceId, limit);
            && Reports(a.orphanCount, a.orphanIds, OrphanHit(db), ix.hits, limit)
            && Reports(a.deletedCount, a.deletedIds, DeletedFileHit(db), ix.hits, limit)
            && Reports(a.mismatchCount, a.mismatchIds, MisplacedHit(db, workspaceId), ix.hits, limit)
            && a.indexExists == !ix.resource.Absent?
            && a.esDocCount == |ix.hits| && a.activeCount == |ActiveIds(db, workspaceId)|
            && a.missingCount == |ActiveIds(db, workspaceId) - HitIds(ix.hits)|
            && Distinct(a.missingIds) && |a.missingIds| == Min(limit, a.missingCount)
            && (forall id :: id in a.missingIds ==> id in ActiveIds(db, workspaceId) - HitIds(ix.hits))
            && a.mapping == Some(InspectLegacyMapping(ix.resource, |ActiveIds(db, workspaceId)|))
            && a.mappingMismatchCount == (if ix.resource.Absent? || LegacyIndex(ix.resource) then 0 else 1)
            && a.anomalyCount
               == a.orphanCount + a.missingCount + a.mismatchCount + a.deletedCount + a.mappingMismatchCount
  {
    hide Classify, IsOrphanId, InDeletedFile, InLiveFile, NamesOwner, Judged, Samples, Filter, MissingRows, ActiveIds,
         HitIds, ActiveRows, LegacyIndex, CompatibleMapping;
    forall h | h in ix.hits
      ensures Classify(db, workspaceId, h).Orphan? <==> OrphanHit(db)(h)
      ensures Classify(db, workspaceId, h).DeletedFile? <==> DeletedFileHit(db)(h)
      ensures Classify(db, workspaceId, h).Mismatch? <==> MisplacedHit(db, workspaceId)(h)
    {
      VerdictMeaning(db, workspaceId, h);
    }
    JudgedIs(db, workspaceId, ix.hits, Orphan, OrphanHit(db));
    JudgedIs(db, workspaceId, ix.hits, DeletedFile, DeletedFileHit(db));
    JudgedIs(db, workspaceId, ix.hits, Mismatch, MisplacedHit(db, workspaceId));
    MappingMeaning(ix.resource, |ActiveRows(db, workspaceId)|);
    ActiveRowsFacts(db, workspaceId);
    DistinctSize(ChunkIds(ActiveRows(db, workspaceId)), ActiveIds(db, workspaceId));
    var missing := ChunkIds(MissingRows(ActiveRows(db, workspaceId), ix.hits));
    MissingMembers(db, workspaceId, ix.hits);
    DistinctSize(missing, ActiveIds(db, workspaceId) - HitIds(ix.hits));
    SampleFacts(missing, limit);
  }

  lemma NoAnomalousHits(db: Database, workspaceId: int, hits: seq<Hit>)
    requires ValidDb(db)
    ensures |Judged(db, workspaceId, hits, Orphan)| + |Judged(db, workspaceId, hits, Mismatch)|
            + |Judged(db, workspaceId, hits, DeletedFile)| == 0
            <==> forall h :: h in hits ==> NamesOwner(db, workspaceId, h)
  {
    hide Judged, Classify, NamesOwner;
    if forall h :: h in hits ==> NamesOwner(db, workspaceId, h) {
      NoneJudgedIn(db, workspaceId, hits, Orphan);
      NoneJudgedIn(db, workspaceId, hits, Mismatch);
      NoneJudgedIn(db, workspaceId, hits, DeletedFile);
    } else {
      var h :| h in hits && !NamesOwner(db, workspaceId, h);
      VerdictMeaning(db, workspaceId, h);
      JudgedMembers(db, workspaceId, hits, Classify(db, workspaceId, h));
      assert h.id in Judged(db, workspaceId, hits, Classify(db, workspaceId, h));
    }
  }

  lemma NoneJudgedIn(db: Database, workspaceId: int, hits: seq<Hit>, v: Verdict)
    requires ValidDb(db) && v != Consistent && forall h :: h in hits ==> NamesOwner(db, workspaceId, h)
    ensures Judged(db, workspaceId, hits, v) == []
  {
    hide Judged, Classify, NamesOwner;
    JudgedMembers(db, workspaceId, hits, v);
    forall h | h in hits ensures Classify(db, workspaceId, h) != v {
      VerdictMeaning(db, workspaceId, h);
    }
    SomeElement(Judged(db, workspaceId, hits, v));
  }

  /** A sample list holds the first `limit` distinct ids offered; below the limit it holds them all. */
  lemma {:induction false} SampleFacts(ids: seq<ChunkId>, limit: nat)
    ensures Distinct(Samples(ids, limit)) && |Samples(ids, limit)| <= limit
    ensures forall id :: id in Samples(ids, limit) ==> id in ids
    ensures |Samples(ids, limit)| < limit ==> forall id :: id in ids ==> id in Samples(ids, limit)
    ensures Distinct(ids) ==> Samples(ids, limit) == ids[..Min(limit, |ids|)]
  {
    if ids != [] {
      var n := |ids| - 1;
      SampleFacts(ids[..n], limit);
      assert ids == ids[..n] + [ids[n]];
      if Distinct(ids) {
        OneSampleMore(ids[..n], ids[n], limit);
      }
    }
  }

  lemma OneSampleMore(ids: seq<ChunkId>, id: ChunkId, limit: nat)
    requires Distinct(ids + [id])
    ensures id !in ids && Distinct(ids)
    ensures AppendSample(ids[..Min(limit, |ids|)], id, limit) == (ids + [id])[..Min(limit, |ids| + 1)]
  {
    forall i | 0 <= i < |ids| ensures ids[i] != id {
      assert (ids + [id])[i] == ids[i] && (ids + [id])[|ids|] == id;
    }
    forall i, j | 0 <= i < j < |ids| ensures ids[i] != ids[j] {
      assert (ids + [id])[i] == ids[i] && (ids + [id])[j] == ids[j];
    }
  }

  /** Distinct ids within the limit are listed completely, so the length check on the list decides
      whether it is complete. */
  lemma CompleteSample(ids: seq<ChunkId>, limit: nat)
    requires Distinct(ids)
    ensures |Samples(ids, limit)| == |ids| <==> Samples(ids, limit) == ids
    ensures |Samples(ids, limit)| == |ids| <==> |ids| <= limit
  {
    SampleFacts(ids, limit);
  }

  lemma NoneJudged(db: Database, workspaceId: int, hits: seq<Hit>, v: Verdict)
    ensures Judged(db, workspaceId, hits, v) == [] <==> forall h :: h in hits ==> Classify(db, workspaceId, h) != v
  {
    JudgedMembers(db, workspaceId, hits, v);
    var ids := Judged(db, workspaceId, hits, v);
    if ids != [] {
      assert ids[0] in ids;
    } else {
      forall h | h in hits ensures Classify(db, workspaceId, h) != v {
        assert h.id !in ids;
      }
    }
  }

  lemma NothingMisplaced(db: Database, ix: Index, workspaceId: int)
    requires ValidDb(db)
    ensures Judged(db, workspaceId, ix.hits, Mismatch) == [] && Judged(db, workspaceId, ix.hits, DeletedFile) == [] <==>
            forall h :: h in ix.hits ==> NamesOwner(db, workspaceId, h) || IsOrphanId(db, h.id)
  {
    forall h | h in ix.hits
      ensures NamesOwner(db, workspaceId, h) || IsOrphanId(db, h.id) <==>
              Classify(db, workspaceId, h) != Mismatch && Classify(db, workspaceId, h) != DeletedFile
    {
      VerdictMeaning(db, workspaceId, h);
    }
    NoneJudged(db, workspaceId, ix.hits, Mismatch);
    NoneJudged(db, workspaceId, ix.hits, DeletedFile);
  }

  lemma {:induction false} FilterUniqueHits(keep: Hit -> bool, s: seq<Hit>)
    requires UniqueHits(s)
    ensures UniqueHits(Filter(keep, s))
  {
    if s != [] {
      var n := |s| - 1;
      FilterUniqueHits(keep, s[..n]);
      FilterMembers(keep, s[..n]);
      forall i | 0 <= i < |Filter(keep, s[..n])| ensures Filter(keep, s[..n])[i].id != s[n].id {
        assert Filter(keep, s[..n])[i] in Filter(keep, s[..n]);
        var j :| 0 <= j < n && s[j] == Filter(keep, s[..n])[i];
      }
    }
  }
}
