/** The rebuild of the v2 index: every active chunk is written again, nothing is removed. */
module V2Rebuild {
  import opened Sequences
  import opened ChunkStores
  import opened StoreClient
  import opened MissingRepair
  import opened V2Validation
  import opened V2Switch

  /** Why the rebuild raises. */
  datatype RebuildOutcome =
    | UnknownOrInconsistent | L2SourceMissing | ContractMismatch | PartialBulkFailure(written: nat)
    | BulkCallRaised(written: nat) | Rebuilt(written: nat)

  datatype V2WriteStatus = AllBatchesWritten | PartialBatch | BatchRaised

  /** The documents afterwards, how many were written in full batches, and how the writing ended. */
  datatype V2Write = V2Write(docs: seq<V2Doc>, written: nat, status: V2WriteStatus)

  /** The batches from number `k` on, up to the first that raises or is not fully accepted. */
  function WriteV2(docs: seq<V2Doc>, todo: seq<V2Doc>, size: nat, k: nat, bulk: seq<BulkOutcome>): V2Write
    requires size > 0
    decreases |todo|
  {
    if todo == [] then V2Write(docs, 0, AllBatchesWritten)
    else
      var n := Min(size, |todo|);
      var refused := Call(bulk, k).refused;
      var after := PutDocs(docs, todo[..n], refused);
      if Call(bulk, k).Raises? then V2Write(after, 0, BatchRaised)
      else if |Filter(NotRefused(refused), todo[..n])| != n then V2Write(after, 0, PartialBatch)
      else After(n, WriteV2(after, todo[n..], size, k + 1, bulk))
  }

  /** What was written so far, followed by the remaining batches. */
  function After(written: nat, rest: V2Write): V2Write {
    rest.(written := written + rest.written)
  }

  lemma OneV2BatchMore(written: nat, docs: seq<V2Doc>, todo: seq<V2Doc>, size: nat, k: nat, bulk: seq<BulkOutcome>)
    requires size > 0 && todo != []
    ensures var n := Min(size, |todo|);
            var refused := Call(bulk, k).refused;
            var after := PutDocs(docs, todo[..n], refused);
            After(written, WriteV2(docs, todo, size, k, bulk))
            == if Call(bulk, k).Raises? then V2Write(after, written, BatchRaised)
               else if |Filter(NotRefused(refused), todo[..n])| != n then V2Write(after, written, PartialBatch)
               else After(written + n, WriteV2(after, todo[n..], size, k + 1, bulk))
  {
    hide PutDocs, Filter;
  }

  function WithDocs(indices: map<string, V2Index>, name: string, docs: seq<V2Doc>): map<string, V2Index>
    requires name in indices
  {
    indices[name := indices[name].(docs := docs)]
  }

  lemma WithDocsTwice(indices: map<string, V2Index>, name: string, docs: seq<V2Doc>, more: seq<V2Doc>)
    requires name in indices
    ensures var once := WithDocs(indices, name, docs);
            && name in once && once[name].docs == docs
            && once[name := once[name].(docs := more)] == WithDocs(indices, name, more)
            && WithDocs(indices, name, indices[name].docs) == indices
  {
  }

  method WriteAllV2(store: V2Store, name: string, todo: seq<V2Doc>, size: nat, bulk: seq<BulkOutcome>)
    returns (written: nat, status: V2WriteStatus)
    requires name in store.indices && size > 0
    modifies store`indices
    ensures var w := WriteV2(old(store.indices)[name].docs, todo, size, 1, bulk);
            && store.indices == WithDocs(old(store.indices), name, w.docs)
            && written == w.written && status == w.status
  {
    hide WriteV2, PutDocs, Filter, WithDocs, After;
    var rest, number: nat := todo, 1;
    written, status := 0, AllBatchesWritten;
    ghost var stored := store.indices[name].docs;
    ghost var whole := WriteV2(stored, todo, size, 1, bulk);
    ghost var remaining := whole;
    NothingAfter(whole);
    WithDocsTwice(store.indices, name, stored, stored);
    while rest != [] && status.AllBatchesWritten?
      invariant name in store.indices && store.indices == WithDocs(old(store.indices), name, stored)
      invariant status.AllBatchesWritten? ==> remaining == WriteV2(stored, rest, size, number, bulk)
      invariant whole == if status.AllBatchesWritten? then After(written, remaining)
                         else V2Write(stored, written, status)
      decreases |rest|, status.AllBatchesWritten?
    {
      OneV2BatchMore(written, stored, rest, size, number, bulk);
      var batch := rest[..Min(size, |rest|)];
      var call := Call(bulk, number);
      ghost var after := PutDocs(stored, batch, call.refused);
      WithDocsTwice(old(store.indices), name, stored, after);
      var accepted := store.BulkUpsert(name, batch, call);
      stored := after;
      if accepted.None? {
        status := BatchRaised;
      } else if accepted.value != |batch| {
        status := PartialBatch;
      } else {
        written := written + accepted.value;
      }
      rest := rest[|batch|..];
      number := number + 1;
      remaining := WriteV2(stored, rest, size, number, bulk);
    }
    NoV2BatchLeft(written, stored, size, number, bulk);
  }

  lemma NothingAfter(rest: V2Write)
    ensures After(0, rest) == rest
  {
  }

  lemma NoV2BatchLeft(written: nat, docs: seq<V2Doc>, size: nat, k: nat, bulk: seq<BulkOutcome>)
    requires size > 0
    ensures After(written, WriteV2(docs, [], size, k, bulk)) == V2Write(docs, written, AllBatchesWritten)
  {
  }

  /** The index as the rebuild finds or creates it. */
  function BaseIndex(indices: map<string, V2Index>, name: string): V2Index {
    if name in indices then indices[name] else V2Index(true, [])
  }

  function Ended(written: nat, status: V2WriteStatus): RebuildOutcome {
    match status
    case AllBatchesWritten => Rebuilt(written)
    case PartialBatch => PartialBulkFailure(written)
    case BatchRaised => BulkCallRaised(written)
  }

  /** The outcome and the indices after the command: the checks in the order of the source, then the batches. */
  function Rebuild(db: Database, indices: map<string, V2Index>, workspaceId: int, name: string, hash: string,
                   texts: Texts, size: nat, bulk: seq<BulkOutcome>): (RebuildOutcome, map<string, V2Index>)
    requires size > 0
  {
    var rows := ActiveChunkRows(db, workspaceId);
    if rows.None? then (UnknownOrInconsistent, indices)
    else if exists c :: c in rows.value && c.chunkId !in texts then (L2SourceMissing, indices)
    else if !BaseIndex(indices, name).contractOk then (ContractMismatch, indices)
    else
      var todo := V2Documents(db.workspaces[workspaceId], rows.value, texts, hash);
      var w := WriteV2(BaseIndex(indices, name).docs, todo, size, 1, bulk);
      (Ended(w.written, w.status), indices[name := V2Index(true, w.docs)])
  }

  method ReindexWorkspace(db: Database, store: V2Store, workspaceId: int, name: string, hash: string, texts: Texts,
                          size: nat, bulk: seq<BulkOutcome>)
    returns (out: RebuildOutcome)
    requires ValidDb(db) && size > 0
    modifies store`indices
    ensures (out, store.indices) == Rebuild(db, old(store.indices), workspaceId, name, hash, texts, size, bulk)
  {
    hide WriteV2, V2Documents, ActiveRows, Filter;
    var rows := ActiveChunkRows(db, workspaceId);
    if rows.None? {
      return UnknownOrInconsistent;
    }
    for i := 0 to |rows.value|
      invariant forall j :: 0 <= j < i ==> rows.value[j].chunkId in texts
    {
      if rows.value[i].chunkId !in texts {
        assert rows.value[i] in rows.value;
        return L2SourceMissing;
      }
    }
    assert forall c :: c in rows.value ==> c.chunkId in texts;
    var usable := store.EnsureVersionedIndex(name);
    if !usable {
      return ContractMismatch;
    }
    var todo := V2Documents(db.workspaces[workspaceId], rows.value, texts, hash);
    var written, status := WriteAllV2(store, name, todo, size, bulk);
    out := Ended(written, status);
    assert store.indices == old(store.indices)[name := V2Index(true, store.indices[name].docs)];
  }

  // ---------------------------------------------------------------- what a completed rebuild leaves

  ghost predicate UniqueIds(docs: seq<V2Doc>) {
    forall i, j :: 0 <= i < j < |docs| ==> docs[i].id != docs[j].id
  }

  predicate InDocs(docs: seq<V2Doc>, id: ChunkId) {
    exists d :: d in docs && d.id == id
  }

  function Outside(docs: seq<V2Doc>): V2Doc -> bool {
    (d: V2Doc) => !InDocs(docs, d.id)
  }

  lemma SplitIds(todo: seq<V2Doc>, n: nat)
    requires UniqueIds(todo) && n <= |todo|
    ensures UniqueIds(todo[..n]) && UniqueIds(todo[n..])
    ensures forall d :: d in todo[..n] ==> Outside(todo[n..])(d)
    ensures forall d :: Outside(todo)(d) == (Outside(todo[..n])(d) && Outside(todo[n..])(d))
  {
    assert todo == todo[..n] + todo[n..];
    forall d, e | d in todo[..n] && e in todo[n..] ensures d.id != e.id {
      var i :| 0 <= i < n && todo[i] == d;
      var j :| n <= j < |todo| && todo[j] == e;
    }
  }

  lemma InTwo(a: seq<V2Doc>, b: seq<V2Doc>, c: seq<V2Doc>)
    ensures (a + b) + c == a + (b + c)
  {
  }

  /** Replacing in two parts is replacing at once. */
  lemma {:induction false} TwoParts(docs: seq<V2Doc>, todo: seq<V2Doc>, n: nat)
    requires UniqueIds(todo) && n <= |todo|
    ensures Filter(Outside(todo[n..]), Filter(Outside(todo[..n]), docs) + todo[..n]) + todo[n..] ==
            Filter(Outside(todo), docs) + todo
  {
    hide Filter, Outside;
    var first, second := todo[..n], todo[n..];
    SplitIds(todo, n);
    var kept := Filter(Outside(first), docs);
    FilterConcat(Outside(second), kept, first);
    FilterAll(Outside(second), first);
    FilterTwice(Outside(first), Outside(second), Outside(todo), docs);
    InTwo(Filter(Outside(second), kept), first, second);
    assert first + second == todo;
  }

  lemma {:induction false} PutOne(docs: seq<V2Doc>, d: V2Doc)
    ensures PutDoc(docs, d) == Filter(Outside([d]), docs) + [d]
  {
    forall e ensures OtherId(d.id)(e) == Outside([d])(e) {
      assert d in [d];
    }
    FilterSame(OtherId(d.id), Outside([d]), docs);
  }

  /** Nothing refused: documents of the new ids go, the new ones are appended. */
  lemma {:induction false} PutAll(docs: seq<V2Doc>, todo: seq<V2Doc>, refused: set<ChunkId>)
    requires UniqueIds(todo) && forall d :: d in todo ==> d.id !in refused
    ensures PutDocs(docs, todo, refused) == Filter(Outside(todo), docs) + todo
  {
    hide PutDoc, Outside, Filter, OtherId;
    if todo == [] {
      NothingOutside(docs);
    } else {
      var n := |todo| - 1;
      assert todo[n..] == [todo[n]];
      SplitIds(todo, n);
      PutAll(docs, todo[..n], refused);
      PutOne(Filter(Outside(todo[..n]), docs) + todo[..n], todo[n]);
      TwoParts(docs, todo, n);
    }
  }

  lemma NothingOutside(docs: seq<V2Doc>)
    ensures Filter(Outside([]), docs) == docs && Filter(Outside([]), docs) + [] == docs
  {
    FilterAll(Outside([]), docs);
  }

  lemma {:induction false} WrittenAll(docs: seq<V2Doc>, todo: seq<V2Doc>, size: nat, k: nat, bulk: seq<BulkOutcome>)
    requires size > 0 && UniqueIds(todo) && WriteV2(docs, todo, size, k, bulk).status.AllBatchesWritten?
    ensures var w := WriteV2(docs, todo, size, k, bulk);
            w.written == |todo| && w.docs == Filter(Outside(todo), docs) + todo
    decreases |todo|
  {
    hide PutDocs, Outside, Filter;
    if todo == [] {
      NothingOutside(docs);
    } else {
      var n := Min(size, |todo|);
      var refused := Call(bulk, k).refused;
      SplitIds(todo, n);
      FilterKeepsAll(NotRefused(refused), todo[..n]);
      PutAll(docs, todo[..n], refused);
      WrittenAll(Filter(Outside(todo[..n]), docs) + todo[..n], todo[n..], size, k + 1, bulk);
      TwoParts(docs, todo, n);
    }
  }

  /** The document says of the chunk what it has to: its id, its file and its workspace, its text up to 65000
      characters, what was derived from it, and the schema and mapping it is written with. */
  ghost predicate DescribesV2(d: V2Doc, ws: Workspace, c: Chunk, t: L2Text, hash: string) {
    var content := Text(if |t.text| <= 65000 then t.text else t.text[..65000]);
    && d.id == c.chunkId && HasOnlyKnown(d.fields)
    && Carries(d.fields, "chunk_id", Text(c.chunkId)) && Carries(d.fields, "file_id", Number(c.fileId))
    && Carries(d.fields, "workspace_id", Number(ws.id)) && Carries(d.fields, "workspace_slug", Text(ws.slugSegment))
    && Carries(d.fields, "content", content) && Carries(d.fields, "content_with_weight", content)
    && Carries(d.fields, "mom_with_weight", Text("")) && Carries(d.fields, "exact_terms", Terms(t.exactTerms))
    && Carries(d.fields, "doc_type_kwd", Text(if |t.docType| <= 64 then t.docType else t.docType[..64]))
    && Carries(d.fields, "schema_version", Text("a02-content-exact-v2")) && Carries(d.fields, "mapping_hash", Text(hash))
  }

  lemma WholePrefix(s: string)
    ensures s[..|s|] == s
  {
  }

  lemma DocumentDescribesV2(ws: Workspace, c: Chunk, t: L2Text, hash: string)
    requires |c.chunkId| <= MAX_CHUNK_ID
    ensures DescribesV2(V2Document(ws, c, t, hash), ws, c, t, hash)
  {
    WholePrefix(c.chunkId);
    WholePrefix(t.text);
    WholePrefix(t.docType);
  }

  lemma RebuiltDocument(ws: Workspace, c: Chunk, t: L2Text, hash: string, d: V2Doc)
    requires DescribesV2(d, ws, c, t, hash)
    ensures ScrolledId(d) == c.chunkId && RightSource(ScrolledFields(d), Expectation(c.fileId, ws.id), hash)
  {
  }

  /** After a completed rebuild the gate opens if and only if the index held no document under an id that
      is not an active chunk: the rebuild never removes one. */
  lemma RebuildValidatesIff(db: Database, workspaceId: int, ws: Workspace, rows: seq<Chunk>, texts: Texts, hash: string,
                            docs: seq<V2Doc>, size: nat, bulk: seq<BulkOutcome>, limit: nat)
    requires ValidDb(db) && size > 0 && limit > 0 && ws.id == workspaceId
    requires ActiveChunkRows(db, workspaceId) == Some(rows) && forall c :: c in rows ==> c.chunkId in texts
    requires WriteV2(docs, V2Documents(ws, rows, texts, hash), size, 1, bulk).status.AllBatchesWritten?
    ensures var after := V2Index(true, WriteV2(docs, V2Documents(ws, rows, texts, hash), size, 1, bulk).docs);
            Validation(after, ExpectedOf(rows, workspaceId), hash, limit).anomalyCount == 0 <==>
            forall d :: d in docs ==> d.id in ActiveIds(db, workspaceId)
  {
    hide V2Documents, Filter, Validation, WriteV2, OneToOne, ActiveIds, ExpectedOf, ActiveRows, Outside, InDocs;
    var todo := V2Documents(ws, rows, texts, hash);
    var expected := ExpectedOf(rows, workspaceId);
    ActiveRowsAre(db, workspaceId, rows);
    RebuiltFacts(ws, rows, texts, hash);
    WrittenAll(docs, todo, size, 1, bulk);
    RebuiltIds(db, workspaceId, rows, todo);
    ValidationGate(V2Index(true, Filter(Outside(todo), docs) + todo), expected, hash, limit);
    StaleBreaks(docs, todo, expected, hash);
  }

  lemma ActiveRowsAre(db: Database, workspaceId: int, rows: seq<Chunk>)
    requires ValidDb(db) && ActiveChunkRows(db, workspaceId) == Some(rows)
    ensures forall c :: c in rows ==> |c.chunkId| <= MAX_CHUNK_ID
    ensures forall i, j :: 0 <= i < j < |rows| ==> rows[i].chunkId != rows[j].chunkId
    ensures forall id :: id in ChunkIds(rows) <==> id in ActiveIds(db, workspaceId)
  {
    ActiveRowsFacts(db, workspaceId);
    FilterMembers(IsActive(db, workspaceId), db.chunks);
    forall i, j | 0 <= i < j < |rows| ensures rows[i].chunkId != rows[j].chunkId {
      assert ChunkIds(rows)[i] != ChunkIds(rows)[j];
    }
  }

  lemma RebuiltIds(db: Database, workspaceId: int, rows: seq<Chunk>, todo: seq<V2Doc>)
    requires |todo| == |rows| && forall i :: 0 <= i < |rows| ==> todo[i].id == rows[i].chunkId
    requires forall id :: id in ChunkIds(rows) <==> id in ActiveIds(db, workspaceId)
    ensures forall id :: InDocs(todo, id) <==> id in ActiveIds(db, workspaceId)
  {
    hide ActiveIds;
    forall id ensures InDocs(todo, id) <==> id in ActiveIds(db, workspaceId) {
      if InDocs(todo, id) {
        var i :| 0 <= i < |todo| && todo[i].id == id;
        assert ChunkIds(rows)[i] == id;
      }
      if id in ChunkIds(rows) {
        var i :| 0 <= i < |rows| && ChunkIds(rows)[i] == id;
        assert todo[i] in todo && todo[i].id == id;
      }
    }
  }

  lemma RebuiltAt(ws: Workspace, rows: seq<Chunk>, texts: Texts, hash: string, i: nat)
    requires i < |rows|
    requires forall c :: c in rows ==> c.chunkId in texts && |c.chunkId| <= MAX_CHUNK_ID
    ensures var d := V2Documents(ws, rows, texts, hash)[i];
            && d.id == rows[i].chunkId && ScrolledId(d) == rows[i].chunkId
            && RightSource(ScrolledFields(d), Expectation(rows[i].fileId, ws.id), hash)
  {
    hide RightSource, ScrolledId, ScrolledFields, V2Document;
    assert rows[i] in rows;
    var t := texts[rows[i].chunkId];
    DocumentDescribesV2(ws, rows[i], t, hash);
    RebuiltDocument(ws, rows[i], t, hash, V2Document(ws, rows[i], t, hash));
  }

  lemma RebuiltFacts(ws: Workspace, rows: seq<Chunk>, texts: Texts, hash: string)
    requires forall c :: c in rows ==> c.chunkId in texts && |c.chunkId| <= MAX_CHUNK_ID
    requires forall i, j :: 0 <= i < j < |rows| ==> rows[i].chunkId != rows[j].chunkId
    ensures var todo := V2Documents(ws, rows, texts, hash);
            && UniqueIds(todo) && (forall i :: 0 <= i < |rows| ==> todo[i].id == rows[i].chunkId)
            && OneToOne(V2Index(true, todo), ExpectedOf(rows, ws.id), hash)
  {
    hide RightSource, ScrolledId, ScrolledFields, V2Document, V2Documents, ExpectedOf, OneToOne;
    var todo := V2Documents(ws, rows, texts, hash);
    ExpectedFacts(rows, ws.id);
    forall i | 0 <= i < |rows|
      ensures todo[i].id == rows[i].chunkId && ScrolledId(todo[i]) == rows[i].chunkId
              && RightSource(ScrolledFields(todo[i]), Expectation(rows[i].fileId, ws.id), hash)
    {
      RebuiltAt(ws, rows, texts, hash, i);
    }
    DocumentsOneToOne(rows, todo, ws.id, hash);
  }

  lemma DocumentsOneToOne(rows: seq<Chunk>, todo: seq<V2Doc>, workspaceId: int, hash: string)
    requires |todo| == |rows|
    requires forall i, j :: 0 <= i < j < |rows| ==> rows[i].chunkId != rows[j].chunkId
    requires forall i :: 0 <= i < |rows| ==>
               && ScrolledId(todo[i]) == rows[i].chunkId
               && RightSource(ScrolledFields(todo[i]), Expectation(rows[i].fileId, workspaceId), hash)
    ensures OneToOne(V2Index(true, todo), ExpectedOf(rows, workspaceId), hash)
  {
    hide RightSource, ScrolledId, ScrolledFields, ExpectedOf;
    ExpectedFacts(rows, workspaceId);
    var expected := ExpectedOf(rows, workspaceId);
    forall id | id in expected ensures exists d :: d in todo && ScrolledId(d) == id {
      var c :| c in rows && c.chunkId == id;
      var i :| 0 <= i < |rows| && rows[i] == c;
      assert todo[i] in todo;
    }
    forall i | 0 <= i < |rows|
      ensures ScrolledId(todo[i]) in expected && RightSource(ScrolledFields(todo[i]), expected[ScrolledId(todo[i])], hash)
    {
      assert rows[i] in rows;
    }
  }

  /** Documents that survive beside a one-to-one set break it: they are orphans or duplicates. */
  lemma StaleBreaks(docs: seq<V2Doc>, todo: seq<V2Doc>, expected: Expected, hash: string)
    requires OneToOne(V2Index(true, todo), expected, hash)
    ensures OneToOne(V2Index(true, Filter(Outside(todo), docs) + todo), expected, hash) <==>
            forall d :: d in docs ==> InDocs(todo, d.id)
  {
    var stale := Filter(Outside(todo), docs);
    FilterMembers(Outside(todo), docs);
    hide RightSource, ScrolledId, ScrolledFields, Filter;
    if stale == [] {
      assert stale + todo == todo;
      forall d | d in docs ensures InDocs(todo, d.id) {
        assert !Outside(todo)(d);
      }
    } else {
      assert stale[0] in stale;
      StaleCollides(stale, todo, expected, hash);
    }
  }

  lemma StaleCollides(stale: seq<V2Doc>, todo: seq<V2Doc>, expected: Expected, hash: string)
    requires OneToOne(V2Index(true, todo), expected, hash) && stale != []
    ensures !OneToOne(V2Index(true, stale + todo), expected, hash)
  {
    hide RightSource, ScrolledId, ScrolledFields;
    var id := ScrolledId(stale[0]);
    if id in expected {
      var d :| d in todo && ScrolledId(d) == id;
      var j :| 0 <= j < |todo| && todo[j] == d;
      assert (stale + todo)[0] == stale[0] && (stale + todo)[|stale| + j] == d;
    } else {
      assert stale[0] in stale + todo;
    }
  }

  // ---------------------------------------------------------------- what any rebuild leaves

  /** One call replaces: the documents accepted are there, under their ids nothing else is, all others stay. */
  lemma {:induction false} PutDocsReplace(docs: seq<V2Doc>, todo: seq<V2Doc>, refused: set<ChunkId>)
    requires UniqueIds(todo)
    ensures forall d :: d in PutDocs(docs, todo, refused) <==>
              || (d in todo && d.id !in refused)
              || (d in docs && !(InDocs(todo, d.id) && d.id !in refused))
  {
    if todo != [] {
      var n := |todo| - 1;
      var init, last := todo[..n], todo[n];
      assert todo == init + [last];
      PutDocsReplace(docs, init, refused);
      FilterMembers(OtherId(last.id), PutDocs(docs, init, refused));
      OneIdMore(init, last);
      hide InDocs, Filter;
    }
  }

  lemma OneIdMore(init: seq<V2Doc>, last: V2Doc)
    requires UniqueIds(init + [last])
    ensures forall id :: InDocs(init + [last], id) <==> InDocs(init, id) || id == last.id
    ensures forall d :: d in init + [last] <==> d in init || d == last
    ensures !InDocs(init, last.id) && forall d :: d in init ==> d.id != last.id
  {
    var all := init + [last];
    forall d | d in init ensures d.id != last.id {
      var i :| 0 <= i < |init| && init[i] == d;
      assert all[i] == d && all[|init|] == last;
    }
    assert last in all;
    forall id | InDocs(init, id) ensures InDocs(all, id) {
      var d :| d in init && d.id == id;
      assert d in all;
    }
  }

  /** Whatever the calls do: what is there afterwards was there before or was to be written, and what has another id
      stays. */
  lemma {:induction false} WriteKeeps(docs: seq<V2Doc>, todo: seq<V2Doc>, size: nat, k: nat, bulk: seq<BulkOutcome>)
    requires size > 0 && UniqueIds(todo)
    ensures var after := WriteV2(docs, todo, size, k, bulk).docs;
            && (forall d :: d in after ==> d in docs || d in todo)
            && (forall d :: d in docs && !InDocs(todo, d.id) ==> d in after)
    decreases |todo|
  {
    hide PutDocs, Filter, InDocs;
    if todo != [] {
      var n := Min(size, |todo|);
      var after := PutDocs(docs, todo[..n], Call(bulk, k).refused);
      SplitIds(todo, n);
      PutDocsReplace(docs, todo[..n], Call(bulk, k).refused);
      WriteKeeps(after, todo[n..], size, k + 1, bulk);
      InParts(todo, n);
    }
  }

  lemma InParts(todo: seq<V2Doc>, n: nat)
    requires n <= |todo|
    ensures forall d :: d in todo <==> d in todo[..n] || d in todo[n..]
    ensures forall id :: InDocs(todo, id) <==> InDocs(todo[..n], id) || InDocs(todo[n..], id)
  {
    assert todo == todo[..n] + todo[n..];
  }

  /** The document at `j` is accepted by the call it is part of. */
  ghost predicate CallAccepts(todo: seq<V2Doc>, size: nat, k: nat, bulk: seq<BulkOutcome>, j: nat)
    requires size > 0 && j < |todo|
  {
    !Call(bulk, k + j / size).Raises? && todo[j].id !in Call(bulk, k + j / size).refused
  }

  lemma FirstBatch(j: nat, size: nat)
    requires j < size
    ensures j / size == 0
  {
  }

  lemma LaterBatch(j: nat, size: nat)
    requires size > 0
    ensures (j + size) / size == j / size + 1
  {
    var q, r := j / size, j % size;
    assert j == q * size + r;
    assert j + size == (q + 1) * size + r;
    QuotientIs(j + size, size, q + 1, r);
  }

  lemma QuotientIs(a: nat, size: nat, q: nat, r: nat)
    requires a == q * size + r && r < size
    ensures a / size == q
  {
    var x := a / size;
    assert a == x * size + a % size;
    Multiples(x, q, size);
    Multiples(q, x, size);
  }

  lemma {:induction false} Multiples(x: nat, q: nat, size: nat)
    ensures x < q ==> x * size + size <= q * size
  {
    if x < q {
      assert q * size == (q - 1) * size + size;
      Multiples(x, q - 1, size);
    }
  }

  lemma AcceptsLater(todo: seq<V2Doc>, size: nat, k: nat, bulk: seq<BulkOutcome>, j: nat)
    requires 0 < size <= j < |todo|
    ensures CallAccepts(todo, size, k, bulk, j) <==> CallAccepts(todo[size..], size, k + 1, bulk, j - size)
    ensures j / size == (j - size) / size + 1
  {
    LaterBatch(j - size, size);
    assert todo[size..][j - size] == todo[j];
  }

  lemma AcceptsFirst(todo: seq<V2Doc>, size: nat, k: nat, bulk: seq<BulkOutcome>)
    requires size > 0
    ensures (forall j: nat :: j < Min(size, |todo|) ==> CallAccepts(todo, size, k, bulk, j)) <==>
            (todo == [] || !Call(bulk, k).Raises?)
            && |Filter(NotRefused(Call(bulk, k).refused), todo[..Min(size, |todo|)])| == Min(size, |todo|)
  {
    var n := Min(size, |todo|);
    var call := Call(bulk, k);
    FilterKeepsAll(NotRefused(call.refused), todo[..n]);
    hide Filter, Call;
    forall j: nat | j < n ensures CallAccepts(todo, size, k, bulk, j) <==> !call.Raises? && todo[j].id !in call.refused {
      FirstBatch(j, size);
    }
    if forall j: nat :: j < n ==> CallAccepts(todo, size, k, bulk, j) {
      forall d | d in todo[..n] ensures d.id !in call.refused {
        var j :| 0 <= j < n && todo[j] == d;
        assert CallAccepts(todo, size, k, bulk, j);
      }
      assert todo != [] ==> CallAccepts(todo, size, k, bulk, 0);
    } else {
      var j: nat :| j < n && !CallAccepts(todo, size, k, bulk, j);
      assert todo[j] in todo[..n];
    }
  }

  /** Everything is written exactly if each document is accepted by its call. */
  lemma {:induction false} WrittenIff(docs: seq<V2Doc>, todo: seq<V2Doc>, size: nat, k: nat, bulk: seq<BulkOutcome>)
    requires size > 0
    ensures WriteV2(docs, todo, size, k, bulk).status.AllBatchesWritten? <==>
            forall j: nat :: j < |todo| ==> CallAccepts(todo, size, k, bulk, j)
    decreases |todo|
  {
    hide PutDocs, Filter, CallAccepts, Call;
    if todo != [] {
      var n := Min(size, |todo|);
      AcceptsFirst(todo, size, k, bulk);
      var after := PutDocs(docs, todo[..n], Call(bulk, k).refused);
      WrittenIff(after, todo[n..], size, k + 1, bulk);
      forall j: nat | n <= j < |todo|
        ensures CallAccepts(todo, size, k, bulk, j) <==> CallAccepts(todo[n..], size, k + 1, bulk, j - n)
      {
        AcceptsLater(todo, size, k, bulk, j);
      }
      AcceptsAll(todo, size, k, bulk, n, todo[n..], k + 1);
    }
  }

  lemma AcceptsAll(todo: seq<V2Doc>, size: nat, k: nat, bulk: seq<BulkOutcome>, n: nat, rest: seq<V2Doc>,
                   next: nat)
    requires size > 0 && n + |rest| == |todo|
    requires forall j: nat :: n <= j < |todo| ==>
               (CallAccepts(todo, size, k, bulk, j) <==> CallAccepts(rest, size, next, bulk, j - n))
    ensures (forall j: nat :: j < |todo| ==> CallAccepts(todo, size, k, bulk, j)) <==>
            && (forall j: nat :: j < n ==> CallAccepts(todo, size, k, bulk, j))
            && (forall j: nat :: j < |rest| ==> CallAccepts(rest, size, next, bulk, j))
  {
    hide CallAccepts;
    if forall j: nat :: j < |todo| ==> CallAccepts(todo, size, k, bulk, j) {
      forall j: nat | j < |rest| ensures CallAccepts(rest, size, next, bulk, j) {
        assert CallAccepts(todo, size, k, bulk, j + n);
      }
    }
  }

  /** The writing stopped in the call of the first document that is not accepted, and counts what was to be written
      before that call. */
  ghost predicate StopsAt(w: V2Write, todo: seq<V2Doc>, size: nat, k: nat, bulk: seq<BulkOutcome>, j: nat)
    requires size > 0
  {
    && j < |todo| && !CallAccepts(todo, size, k, bulk, j)
    && (forall i: nat :: i < j ==> CallAccepts(todo, size, k, bulk, i))
    && w.status == (if Call(bulk, k + j / size).Raises? then BatchRaised else PartialBatch)
    && (forall i: nat :: i < |todo| ==> (i < w.written <==> i / size < j / size))
  }

  lemma {:induction false} WriteStops(docs: seq<V2Doc>, todo: seq<V2Doc>, size: nat, k: nat, bulk: seq<BulkOutcome>)
    returns (j: nat)
    requires size > 0 && !WriteV2(docs, todo, size, k, bulk).status.AllBatchesWritten?
    ensures StopsAt(WriteV2(docs, todo, size, k, bulk), todo, size, k, bulk, j)
    decreases |todo|
  {
    hide PutDocs, Filter, CallAccepts, Call, StopsAt;
    var n := Min(size, |todo|);
    var after := PutDocs(docs, todo[..n], Call(bulk, k).refused);
    AcceptsFirst(todo, size, k, bulk);
    if forall i: nat :: i < n ==> CallAccepts(todo, size, k, bulk, i) {
      var later := WriteStops(after, todo[n..], size, k + 1, bulk);
      StopsLater(WriteV2(after, todo[n..], size, k + 1, bulk), todo, size, k, bulk, later);
      j := later + n;
    } else {
      j := FirstRefused(todo, size, k, bulk, n);
      StopsNow(WriteV2(docs, todo, size, k, bulk), todo, size, k, bulk, j);
    }
  }

  lemma StopsNow(w: V2Write, todo: seq<V2Doc>, size: nat, k: nat, bulk: seq<BulkOutcome>, j: nat)
    requires size > 0 && j < Min(size, |todo|) && !CallAccepts(todo, size, k, bulk, j)
    requires forall i: nat :: i < j ==> CallAccepts(todo, size, k, bulk, i)
    requires w.written == 0 && w.status == if Call(bulk, k).Raises? then BatchRaised else PartialBatch
    ensures StopsAt(w, todo, size, k, bulk, j)
  {
    hide CallAccepts, Call;
    FirstBatch(j, size);
  }

  lemma StopsLater(rest: V2Write, todo: seq<V2Doc>, size: nat, k: nat, bulk: seq<BulkOutcome>, later: nat)
    requires 0 < size < |todo| && StopsAt(rest, todo[size..], size, k + 1, bulk, later)
    requires forall i: nat :: i < size ==> CallAccepts(todo, size, k, bulk, i)
    ensures StopsAt(After(size, rest), todo, size, k, bulk, later + size)
  {
    hide CallAccepts, Call;
    var j := later + size;
    AcceptsLater(todo, size, k, bulk, j);
    assert k + j / size == k + 1 + later / size;
    forall i: nat | i < j ensures CallAccepts(todo, size, k, bulk, i) {
      if size <= i {
        AcceptsLater(todo, size, k, bulk, i);
      }
    }
    forall i: nat | i < |todo| ensures i < size + rest.written <==> i / size < j / size {
      if i < size {
        FirstBatch(i, size);
      } else {
        AcceptsLater(todo, size, k, bulk, i);
        var h: nat := i - size;
        assert h < rest.written <==> h / size < later / size;
      }
    }
  }

  lemma {:induction false} FirstRefused(todo: seq<V2Doc>, size: nat, k: nat, bulk: seq<BulkOutcome>, n: nat)
    returns (j: nat)
    requires size > 0 && n <= |todo| && exists i: nat :: i < n && !CallAccepts(todo, size, k, bulk, i)
    ensures j < n && !CallAccepts(todo, size, k, bulk, j) && forall i: nat :: i < j ==> CallAccepts(todo, size, k, bulk, i)
  {
    hide CallAccepts;
    j := 0;
    var last: nat :| last < n && !CallAccepts(todo, size, k, bulk, last);
    while j < last && CallAccepts(todo, size, k, bulk, j)
      invariant j <= last && forall i: nat :: i < j ==> CallAccepts(todo, size, k, bulk, i)
    {
      j := j + 1;
    }
  }

  // ---------------------------------------------------------------- the outcome of the command

  /** The documents before, or none for an index that is yet to be created. */
  ghost predicate HadDocument(indices: map<string, V2Index>, name: string, d: V2Doc) {
    name in indices && d in indices[name].docs
  }

  /** `d` is the document of one of the rows. */
  ghost predicate IsOfRow(d: V2Doc, ws: Workspace, rows: seq<Chunk>, texts: Texts, hash: string) {
    exists c :: c in rows && c.chunkId in texts && DescribesV2(d, ws, c, texts[c.chunkId], hash)
  }

  /** The index after a rebuild that got as far as writing: new documents describe active chunks, and a document of any
      other id stays. */
  ghost predicate OnlyRewrites(indices: map<string, V2Index>, after: map<string, V2Index>, name: string, ws: Workspace,
                               rows: seq<Chunk>, texts: Texts, hash: string)
  {
    && name in after && after[name].contractOk && after.Keys == indices.Keys + {name}
    && (forall other :: other in indices && other != name ==> after[other] == indices[other])
    && (forall d :: d in after[name].docs ==> HadDocument(indices, name, d) || IsOfRow(d, ws, rows, texts, hash))
    && (forall d :: HadDocument(indices, name, d) && (forall c :: c in rows ==> c.chunkId != d.id) ==> d in after[name].docs)
  }

  /** Each active chunk has its document. */
  ghost predicate AllRewritten(ix: V2Index, ws: Workspace, rows: seq<Chunk>, texts: Texts, hash: string) {
    forall c :: c in rows ==>
      c.chunkId in texts && exists d :: d in ix.docs && DescribesV2(d, ws, c, texts[c.chunkId], hash)
  }

  /** The call that writes row `j` accepts it. */
  ghost predicate RowAccepted(rows: seq<Chunk>, size: nat, bulk: seq<BulkOutcome>, j: nat)
    requires size > 0 && j < |rows|
  {
    !Call(bulk, 1 + j / size).Raises? && rows[j].chunkId !in Call(bulk, 1 + j / size).refused
  }

  /** The rebuild ended in the call that writes row `j`, the first that was not accepted: because the call raised, or
      because it did not accept everything. Rows of earlier calls count as written. */
  ghost predicate StoppedAtRow(out: RebuildOutcome, rows: seq<Chunk>, size: nat, bulk: seq<BulkOutcome>, j: nat)
    requires size > 0
  {
    && j < |rows| && !RowAccepted(rows, size, bulk, j) && (forall i: nat :: i < j ==> RowAccepted(rows, size, bulk, i))
    && (if Call(bulk, 1 + j / size).Raises? then out.BulkCallRaised? else out.PartialBulkFailure?)
    && (forall i: nat :: i < |rows| ==> (i < out.written <==> i / size < j / size))
  }

  /** Nothing changes unless the workspace can be read, every active chunk has a text, and the index is new or has the
      strict mapping; then only documents of active chunks are written, and the rebuild completes exactly if each is
      accepted by its call: with every active chunk written. */
  lemma RebuildDecision(db: Database, indices: map<string, V2Index>, workspaceId: int, name: string, hash: string,
                        texts: Texts, size: nat, bulk: seq<BulkOutcome>, out: RebuildOutcome, after: map<string, V2Index>)
    requires ValidDb(db) && size > 0
    requires (out, after) == Rebuild(db, indices, workspaceId, name, hash, texts, size, bulk)
    ensures var read := ActiveChunkRows(db, workspaceId);
            if read.None? then out == UnknownOrInconsistent && after == indices
            else if exists c :: c in read.value && c.chunkId !in texts then out == L2SourceMissing && after == indices
            else if name in indices && !indices[name].contractOk then out == ContractMismatch && after == indices
            else
              var ws, rows := db.workspaces[workspaceId], read.value;
              && OnlyRewrites(indices, after, name, ws, rows, texts, hash)
              && (if forall j: nat :: j < |rows| ==> RowAccepted(rows, size, bulk, j)
                  then out == Rebuilt(|rows|) && AllRewritten(after[name], ws, rows, texts, hash)
                  else exists j: nat :: StoppedAtRow(out, rows, size, bulk, j))
  {
    hide WriteV2, V2Documents, ActiveRows, OnlyRewrites, AllRewritten, RowAccepted, Call, StoppedAtRow;
    var read := ActiveChunkRows(db, workspaceId);
    if read.Some? && !(exists c :: c in read.value && c.chunkId !in texts) && BaseIndex(indices, name).contractOk {
      var ws, rows := db.workspaces[workspaceId], read.value;
      ActiveRowsAre(db, workspaceId, rows);
      RewritesRows(indices, ws, name, rows, texts, hash, size, bulk);
      RowsAccepted(ws, rows, texts, hash, size, bulk);
      var todo := V2Documents(ws, rows, texts, hash);
      var w := WriteV2(BaseIndex(indices, name).docs, todo, size, 1, bulk);
      WrittenIff(BaseIndex(indices, name).docs, todo, size, 1, bulk);
      if !w.status.AllBatchesWritten? {
        var j := WriteStops(BaseIndex(indices, name).docs, todo, size, 1, bulk);
        RowStopped(w, todo, rows, size, bulk, j);
        assert StoppedAtRow(out, rows, size, bulk, j);
      }
    }
  }

  lemma RowStopped(w: V2Write, todo: seq<V2Doc>, rows: seq<Chunk>, size: nat, bulk: seq<BulkOutcome>, j: nat)
    requires size > 0 && |todo| == |rows| && StopsAt(w, todo, size, 1, bulk, j)
    requires forall j: nat :: j < |rows| ==> (CallAccepts(todo, size, 1, bulk, j) <==> RowAccepted(rows, size, bulk, j))
    ensures StoppedAtRow(Ended(w.written, w.status), rows, size, bulk, j)
  {
    hide CallAccepts, RowAccepted, Call;
  }

  lemma RowsAccepted(ws: Workspace, rows: seq<Chunk>, texts: Texts, hash: string, size: nat, bulk: seq<BulkOutcome>)
    requires size > 0 && forall c :: c in rows ==> c.chunkId in texts && |c.chunkId| <= MAX_CHUNK_ID
    ensures var todo := V2Documents(ws, rows, texts, hash);
            forall j: nat :: j < |rows| ==> (CallAccepts(todo, size, 1, bulk, j) <==> RowAccepted(rows, size, bulk, j))
  {
    hide RightSource, ScrolledId, ScrolledFields, V2Document, Call;
    forall j: nat | j < |rows|
      ensures CallAccepts(V2Documents(ws, rows, texts, hash), size, 1, bulk, j) <==> RowAccepted(rows, size, bulk, j)
    {
      RebuiltAt(ws, rows, texts, hash, j);
    }
  }

  lemma RewritesRows(indices: map<string, V2Index>, ws: Workspace, name: string, rows: seq<Chunk>, texts: Texts,
                     hash: string, size: nat, bulk: seq<BulkOutcome>)
    requires size > 0 && forall c :: c in rows ==> c.chunkId in texts && |c.chunkId| <= MAX_CHUNK_ID
    requires forall i, j :: 0 <= i < j < |rows| ==> rows[i].chunkId != rows[j].chunkId
    ensures var w := WriteV2(BaseIndex(indices, name).docs, V2Documents(ws, rows, texts, hash), size, 1, bulk);
            && OnlyRewrites(indices, indices[name := V2Index(true, w.docs)], name, ws, rows, texts, hash)
            && (w.status.AllBatchesWritten? ==>
                  w.written == |rows| && AllRewritten(V2Index(true, w.docs), ws, rows, texts, hash))
  {
    hide WriteV2, V2Document, DescribesV2, OneToOne, ExpectedOf, RightSource, ScrolledId, ScrolledFields, Filter;
    var todo := V2Documents(ws, rows, texts, hash);
    var docs := BaseIndex(indices, name).docs;
    RebuiltFacts(ws, rows, texts, hash);
    WriteKeeps(docs, todo, size, 1, bulk);
    forall i | 0 <= i < |rows| ensures DescribesV2(todo[i], ws, rows[i], texts[rows[i].chunkId], hash) {
      assert rows[i] in rows;
      DocumentDescribesV2(ws, rows[i], texts[rows[i].chunkId], hash);
    }
    forall d | d in todo ensures IsOfRow(d, ws, rows, texts, hash) {
      var i :| 0 <= i < |todo| && todo[i] == d;
      assert rows[i] in rows;
    }
    forall id | InDocs(todo, id) ensures exists c :: c in rows && c.chunkId == id {
      var i :| 0 <= i < |todo| && todo[i].id == id;
      assert rows[i] in rows;
    }
    var w := WriteV2(docs, todo, size, 1, bulk);
    if w.status.AllBatchesWritten? {
      WrittenAll(docs, todo, size, 1, bulk);
      forall c | c in rows ensures exists d :: d in w.docs && DescribesV2(d, ws, c, texts[c.chunkId], hash) {
        var i :| 0 <= i < |rows| && rows[i] == c;
        assert todo[i] in w.docs;
      }
    }
  }
}
