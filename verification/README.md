# A verified model of OpenRAG's stores, connectors and tree building

This project models, in Dafny, the parts of the repository in which many small steps have to add up to a
promise about a whole run, and proves those promises.

**Reconciling the database and the search index** (`openrag/scripts`). A database of chunks and files and an
Elasticsearch index of documents are audited for agreement and then repaired in approved stages: plan the
missing documents, write them, list the orphans, delete them. Every bulk call may apply any part of what it is
given, and may also raise; audits may fail; anything may change between two commands.

- `ChunkStores`, `LegacyAudit`, `AuditProperties`: the two stores and the audit. The scroll of documents and the
  keyset loop over rows are loops over batches; their result does not depend on the batch size, and the audit
  reports no anomaly if and only if the stores agree.
- `StoreClient`, `MissingRepair`, `MissingRepairProperties`: the index as a mutable store, and the command that
  adds missing documents. Whatever is refused, it only adds right documents that were missing.
- `OrphanDelete`, `OrphanDeleteProperties`: the manifest of orphans and its approved deletion.
- `RepairProtocol`: replayed approvals, and any sequence of commands with any approvals and faults, also when
  others change the database and the index between them.
- `RepairConvergence`: the whole pipeline reaches agreement if and only if a condition an operator can check
  beforehand holds.
- `RepairDecisions`: which gate closes, what an approval has to be, and what each status says, all in terms of the
  two stores and the approvals alone.
- `V2Validation`, `V2Switch`, `V2Rebuild`: the successor index: its validation gate, the alias switch with its
  rollback, and the rebuild.

**Traversing remote collections** (`openrag/common/data_source`).

- `NotionTraversal`: recursive indexing of a page graph with cycles, and the cache of page paths.
- `ConfluencePagination`, `ConfluenceDelivery`, `ConfluenceResume`, `ConfluenceRepeats`, `ConfluenceDocuments`:
  offset pagination with recovery from failing pages, what it delivers, fetching from checkpoint to checkpoint, when
  that repeats, and which documents come out.
- `ImapCheckpoints`, `ConnectorRuns`: the mailbox checkpoint machine and the batching driver.
- `GitlabCode`: the breadth-first walk of a repository and the merge requests and issues after it.
- `BlobNames`: display names of stored objects.

**Building trees and paths.**

- `Raptor` (`openrag/rag`): layers of summaries over chunks, for any criteria, probabilities and failures.
- `DirectoryPaths`, `DirectoryBackfill` (`openrag/scripts`): the directories above a file, and adding their rows.

`Sequences` holds facts about sequences that the others share. A generator of the source is modelled by the
sequence of what it yields; a consumer that stops early uses a prefix. A component outside the model is a
parameter that may behave in any way the code allows for: sets of refused ids, flags for failing audits, lists
of bulk outcomes, failing pages, any numbers where a model is fitted.

## Where the code departs from what it promises

- Retrieving Confluence items without a next-page callback follows the server's own link, which adds the limit
  that was asked for. The note at `openrag/common/data_source/confluence_connector.py:593-599` says that this must
  not happen. Items are lost exactly when some page that is not read item by item leaves a retrievable one between
  what the server returned of it and the next offset (`LinksLoseCappedItems`); where nothing fails, exactly when the
  server's cap is below the limit and the first page is not the last (`CappedWithoutFailures`).
- When a Confluence page fails to convert, the run goes on past the checkpoint it should have stopped at, and a
  later page can be processed twice (`FailureRepeats`). No page is processed twice if and only if, from the last
  item of each announced page on, the first page that converts itself ends an announced page, or none converts
  (`RepeatsNothingIff`).
- The legacy pipeline does not report an empty workspace without an index as clean: the orphan manifest blocks
  on the mapping. `Repairable` therefore asks for an index or for rows (`PipelineConvergesIff`).
- The rollback of an alias switch, and of a restore, can raise too. The aliases then stay on the index without a
  passing smoke query: exactly when the change took effect although its call raised, or the query did not pass and
  the rollback raised without effect (`SwitchExits`, `RestoreExits`, with `UnprovedSwitch` and `UnprovedRestore`).
- With a sample limit of 0 the v2 validation cannot see duplicated documents, because it counts them through
  their samples (`GateWithoutSamples`, `HiddenDuplicate`). No caller in the repository passes 0.
- A v2 rebuild writes every active chunk but removes nothing: the gate opens after it exactly when the index held
  no document of another chunk (`RebuildValidatesIff`).
- GitLab's directory patterns `.github/` and `.gitlab/` never match, because listed paths have no trailing slash,
  and the pattern `logs` matches at the root only (`DirectoryPatternsNeverMatch`). A merge request that is too old
  ends the whole fetch, so that issues are not read at all (`FetchFromGitlab`).
- The backfill takes a path for its own parent exactly when it has neither a slash nor a backslash
  (`OwnParentIff`), and asks for a directory of the path's own name exactly when it has no slash or ends with one
  (`AsksForItselfIff`, `AboveBareName`).

## Model

| member | source | states |
|---|---|---|
| ChunkStores.InspectLegacyMapping | openrag/scripts/audit_es_chunk_consistency.py:39-161 | a mapping counts as compatible only for a physical index; the absent statuses mean there is no index |
| ChunkStores.MappingMeaning | openrag/scripts/audit_es_chunk_consistency.py:39-161 | every status from the resource alone: compatible iff a physical index of the right target has the five fields with their types, standard analysis of the text and a working probe |
| LegacyAudit.TallyHit | openrag/scripts/audit_es_chunk_consistency.py:299-351 | one document raises exactly the counter of its verdict and joins that sample list if there is room, whatever the two batch lookups were over |
| LegacyAudit.TallyHits | openrag/scripts/audit_es_chunk_consistency.py:299-351 | batching the scroll gives the tallies of one pass over all documents |
| LegacyAudit.KeysetRest | openrag/scripts/audit_es_chunk_consistency.py:353-383 | rows after the last id seen are exactly the active rows not yet visited, so each page is the next slice |
| LegacyAudit.TallyRows | openrag/scripts/audit_es_chunk_consistency.py:353-383 | the keyset loop ends and counts every active row once and every missing one |
| LegacyAudit.AuditWorkspace | openrag/scripts/audit_es_chunk_consistency.py:214-427 | the report is the one-pass audit for every batch size; it raises if and only if the index cannot be read |
| AuditProperties.VerdictMeaning | openrag/scripts/audit_es_chunk_consistency.py:299-351 | orphan iff no chunk with a file has the id; deleted iff that chunk's file is marked deleted; mismatch iff the file is not and the document does not name its owner; consistent iff it does; an orphan id is never an active chunk |
| AuditProperties.AuditSoundAndComplete | openrag/scripts/audit_es_chunk_consistency.py:353-427 | no anomaly iff there is no index or it has the legacy fields and analysis, the indexed ids are exactly the active chunks, and every document names its owner |
| AuditProperties.AuditCounts | openrag/scripts/audit_es_chunk_consistency.py:214-427 | every counter and list of the report from the two stores: orphans, documents of deleted files, misplaced documents, missing chunks, the mapping, and their sum |
| AuditProperties.SampleFacts | openrag/scripts/audit_es_chunk_consistency.py:164-168 | samples are distinct, within the limit, and complete whenever they stay below it |
| AuditProperties.CompleteSample | openrag/scripts/repair_legacy_es_chunks.py:688-781 | comparing a list's length with the counter tells exactly whether the list is complete |
| StoreClient.ChunkStore.BulkUpsert | openrag/scripts/repair_legacy_es_chunks.py:71-93 | everything submitted but the refused is applied, and the number applied is reported unless the call raises |
| StoreClient.UpsertsAppend | openrag/scripts/repair_legacy_es_chunks.py:71-93 | upserting new documents leaves the old ones as they are and appends the accepted ones |
| StoreClient.UpsertsReplace | openrag/scripts/repair_legacy_es_chunks.py:71-93 | an accepted id has the document submitted and only that; all other documents stay |
| MissingRepair.LoadMinioL2 | openrag/scripts/repair_legacy_es_chunks.py:137-184 | the texts loaded and failures listed are those of the candidates, each once and in order |
| MissingRepair.FindMissingRows | openrag/scripts/repair_legacy_es_chunks.py:119-134 | the batched lookups find exactly the rows without a document, in order |
| MissingRepair.ScanWorkspace | openrag/scripts/repair_legacy_es_chunks.py:187-283 | the preflight is a function of the two stores and the audit's success, for any batch size |
| MissingRepair.BuildMissingRepairPlan | openrag/scripts/repair_legacy_es_chunks.py:348-393 | a plan awaits approval, with payload and hash, only when nothing blocks it; planning writes nothing |
| MissingRepair.WriteAll | openrag/scripts/repair_legacy_es_chunks.py:486-527 | the batch loop stops at the first refusal or exception; its counts, reports and index are those of the recursive definition |
| MissingRepair.RepairMissingChunks | openrag/scripts/repair_legacy_es_chunks.py:416-568 | index and result after the command, for every blocking reason and every pattern of bulk outcomes |
| MissingRepair.RepairApprovedMissingChunks | openrag/scripts/repair_legacy_es_chunks.py:571-615 | refuses a plan whose hash or workspace does not fit and leave that is not given to create an index, else runs under the plan |
| MissingRepairProperties.CandidateFacts | openrag/scripts/repair_legacy_es_chunks.py:119-134 | the candidates are exactly the active chunks without a document, in row order |
| MissingRepairProperties.SubmittedDocuments | openrag/scripts/repair_legacy_es_chunks.py:51-68 | one document for each active chunk that has a stored text and no document, and no other: with the chunk's id and file, the workspace's id and slug, and the stored text up to 65000 characters |
| MissingRepairProperties.WritesAppend | openrag/scripts/repair_legacy_es_chunks.py:486-527 | whatever is refused, the index afterwards is the old one followed by part of what was submitted |
| MissingRepairProperties.RepairOnlyAdds | openrag/scripts/repair_legacy_es_chunks.py:416-568 | every run leaves all old documents unchanged and adds only documents of active chunks that were missing, each with its chunk's id, file, workspace and stored text; a blocked run writes nothing |
| MissingRepairProperties.AddingKeepsAnomalies | openrag/scripts/repair_legacy_es_chunks.py:416-568 | orphans, mismatches and deleted-file documents stay as they were, and the missing set never grows |
| MissingRepairProperties.RepairPasses | openrag/scripts/repair_legacy_es_chunks.py:529-568 | an unblocked run passes iff everything submitted was accepted and the post-audit ran, and then it found nothing missing or misplaced and the same orphans |
| MissingRepairProperties.AllAcceptedMeansRepaired | openrag/scripts/repair_legacy_es_chunks.py:416-568 | once every candidate is written no active chunk is missing, and the audit is clean but for the orphans |
| MissingRepairProperties.StoppedMeansRefused | openrag/scripts/repair_legacy_es_chunks.py:486-527 | the loop completes iff the accepted equal the submitted |
| OrphanDelete.CountReasons | openrag/scripts/repair_legacy_es_chunks.py:628-685 | a reason is listed iff some id has it, with the number of ids that do |
| OrphanDeleteProperties.OrphanReasons | openrag/scripts/repair_legacy_es_chunks.py:628-685 | an id is an orphan iff its diagnosis is that the chunk or its file is gone |
| OrphanDelete.BuildOrphanDeleteManifest | openrag/scripts/repair_legacy_es_chunks.py:688-781 | the manifest is a function of the stores; it raises iff the audit it needs fails |
| OrphanDelete.DeleteApprovedOrphans | openrag/scripts/repair_legacy_es_chunks.py:784-890 | index and result after the command, for every refusal, drift and bulk outcome |
| OrphanDeleteProperties.DeletesOnlyOrphans | openrag/scripts/repair_legacy_es_chunks.py:803-860 | what is submitted is what was approved and what is orphaned now, never an active chunk of any workspace, and only that can go |
| OrphanDeleteProperties.DeletePasses | openrag/scripts/repair_legacy_es_chunks.py:857-890 | a deletion passes iff everything was accepted, the post-audit ran and the list was not cut short; then the stores agree |
| OrphanDeleteProperties.AgreementIffAllAccepted | openrag/scripts/repair_legacy_es_chunks.py:849-890 | deleting leads to agreement iff every id is accepted and the list was complete |
| OrphanDeleteProperties.DeleteReplay | openrag/scripts/repair_legacy_es_chunks.py:849-855 | after a deletion that removed anything, the same manifest is blocked as drifted and deletes nothing |
| OrphanDeleteProperties.ListedOrphans | openrag/scripts/repair_legacy_es_chunks.py:688-781 | the ids a manifest lists are orphans of the index it was built from |
| OrphanDeleteProperties.CleanMeansOnlyOrphansExtra | openrag/scripts/repair_legacy_es_chunks.py:736-748 | the gate before a deletion opens iff orphans are all that separates the stores |
| RepairDecisions.LoadedMeaning | openrag/scripts/repair_legacy_es_chunks.py:137-184 | loaded are the rows that have a text in the workspace's storage, in order, each with that text |
| RepairDecisions.FailuresMeaning | openrag/scripts/repair_legacy_es_chunks.py:137-184 | listed as a failure is every other row, under the reason that applies, and nothing else |
| RepairDecisions.TextsMeaning | openrag/scripts/repair_legacy_es_chunks.py:137-184 | the counters of the report on texts, and its status: failed iff some row has no text |
| RepairDecisions.GateMeaning | openrag/scripts/repair_legacy_es_chunks.py:187-283 | the preflight's gate is the first obstacle in the stores: a text that is missing, the mapping, the resource, a failing audit, a list over the limit, a misplaced document; or what there is to do |
| RepairDecisions.PayloadFits | openrag/scripts/repair_legacy_es_chunks.py:328-345 | a payload is that of the moment iff its workspace, counts, ids, mapping and need of an index all hold now |
| RepairDecisions.PlanMeaning | openrag/scripts/repair_legacy_es_chunks.py:348-393 | the plan asks for approval iff the gate is one of the two ready ones, with the payload of the moment and its hash; else it says that nothing is to do, or names the gate |
| RepairDecisions.RepairDecision | openrag/scripts/repair_legacy_es_chunks.py:416-485 | a run is blocked iff there is an obstacle or the index it created came out wrong, and with which status; one that meets no obstacle creates an index iff none is there and one is needed, and only with leave |
| RepairDecisions.BatchReportsMeaning | openrag/scripts/repair_legacy_es_chunks.py:486-527 | calls are numbered, all but the last full and accepted, the counts add up, and the last decides how the writing ended |
| RepairDecisions.RepairOutcome | openrag/scripts/repair_legacy_es_chunks.py:486-568 | report and status of a run that was not blocked: what the calls did, the audit of what was left, then the first thing that went wrong, or whether anything was written and orphans remain |
| RepairDecisions.RepairNeedsApproval | openrag/scripts/repair_legacy_es_chunks.py:571-615 | nothing is written or created but under a plan that awaits approval, approved by its payload's hash, for this workspace, and still fitting; any other approval is refused and changes nothing |
| RepairDecisions.DeletionNeedsApproval | openrag/scripts/repair_legacy_es_chunks.py:803-835 | nothing is deleted but under a manifest that awaits approval, approved by its payload's hash, naming this workspace, its slug and its index as they are now; any other approval is blocked and changes nothing |
| RepairDecisions.DeletionDecision | openrag/scripts/repair_legacy_es_chunks.py:803-855 | with the approval in order, what comes of it: submitted iff the mapping is right, the audit runs, orphans are all that is wrong and the approved ids are those listed |
| RepairDecisions.DeletionOutcome | openrag/scripts/repair_legacy_es_chunks.py:857-890 | of a submitted deletion: which documents go, how many ids are accepted, and the status for each thing that can go wrong |
| RepairDecisions.ManifestMeaning | openrag/scripts/repair_legacy_es_chunks.py:688-781 | the manifest's status is the first gate that closes; its payload is the workspace, its index and exactly the orphans |
| RepairDecisions.DiagnosisMeaning | openrag/scripts/repair_legacy_es_chunks.py:628-685 | each reason from the rows of the database |
| RepairProtocol.PlanFitsIffUnchanged | openrag/scripts/repair_legacy_es_chunks.py:328-345 | after an approved run the plan still fits the stores iff the run changed nothing |
| RepairProtocol.MissingReplay | openrag/scripts/repair_legacy_es_chunks.py:396-399 | once a run has had a document accepted or created the index, replaying its approval submits nothing and changes nothing |
| RepairProtocol.StepIsSafe | openrag/scripts/repair_legacy_es_chunks.py:416-890 | one command, with any approval and any faults, removes only orphans and adds only right documents |
| RepairProtocol.RunsAreSafe | openrag/scripts/repair_legacy_es_chunks.py:416-890 | with no other writer, any sequence of commands keeps every document of a chunk that has a file, and no active chunk goes missing |
| RepairProtocol.EveryCommandIsSafe | openrag/scripts/repair_legacy_es_chunks.py:416-890 | whatever others change in between, each command removes only orphans of that moment and adds only documents that name their owner at that moment |
| RepairProtocol.LiveDocumentKept | openrag/scripts/repair_legacy_es_chunks.py:416-890 | a document nobody else removes, whose chunk has a file at every command, is there at the end |
| RepairProtocol.EveryDocumentAccountedFor | openrag/scripts/repair_legacy_es_chunks.py:416-890 | every document at the end was there at the start, or others put it there, or a command wrote it when it named its owner |
| RepairConvergence.DriftOnlyByLimit | openrag/scripts/repair_legacy_es_chunks.py:187-283 | within one scan, audit and row query can differ only because a list was cut at the id limit |
| RepairConvergence.PlanStageOpen | openrag/scripts/repair_legacy_es_chunks.py:348-393 | the plan is not blocked iff texts are readable, nothing is misplaced and the list fits; it reports nothing to do iff no row is missing |
| RepairConvergence.ManifestCases | openrag/scripts/repair_legacy_es_chunks.py:688-781 | the manifest awaits approval iff the mapping fits and orphans are all that is wrong; it lists exactly them |
| RepairConvergence.PipelineConvergesIff | openrag/scripts/repair_legacy_es_chunks.py:348-890 | with every bulk call accepting, the four stages end in agreement with both plans reporting nothing to do iff the stores were repairable |
| RepairDecisions.ConvergesFrom | openrag/scripts/repair_legacy_es_chunks.py:348-890 | the same condition in terms of the stores alone: a right index or the need of one, a text for every chunk to write, nothing misplaced, and lists within the limit |
| V2Validation.ScrollSources | openrag/scripts/reindex_es_content_exact_v2.py:221-320 | the scroll keeps each id's last document and lists the repeated ids up to the limit |
| V2Validation.ScrolledMeaning | openrag/src/openrag/search/es_chunk_store.py:396-422 | the id a document counts under: its own unless its source has one |
| V2Validation.KeptIsLast | openrag/scripts/reindex_es_content_exact_v2.py:248-252 | kept for each id is the source of its last document |
| V2Validation.RepeatsListed | openrag/scripts/reindex_es_content_exact_v2.py:248-252 | the repeats listed are as many as there are documents beyond one per id, up to the limit |
| V2Validation.CollectDefects | openrag/scripts/reindex_es_content_exact_v2.py:221-320 | the comparison loop collects every id whose schema, mapping hash, owner or fields are wrong |
| V2Validation.ValidateWorkspaceV2 | openrag/scripts/reindex_es_content_exact_v2.py:221-320 | the report of the validation, and when it raises |
| V2Validation.RowsMeaning | openrag/scripts/reindex_es_content_exact_v2.py:32-70 | the rows are the active chunks in order; reading raises iff the workspace is unknown or some chunk and its live file disagree about belonging to it |
| V2Validation.ExpectedFacts | openrag/scripts/reindex_es_content_exact_v2.py:244-247 | expected is each active chunk, with its file and the workspace |
| V2Validation.ValidationCounts | openrag/scripts/reindex_es_content_exact_v2.py:254-320 | what each of the nine counters counts, over the last source of each id, and that the anomalies are their sum |
| V2Validation.ForbiddenMeansUnknown | openrag/scripts/reindex_es_content_exact_v2.py:221-320 | a document has a forbidden field iff one of its fields is not in the allowed set |
| V2Validation.ValidationGate | openrag/scripts/reindex_es_content_exact_v2.py:229-320 | with a sample limit above 0, no anomaly iff the contract holds and documents match the active chunks one to one, each naming file and workspace, with the schema and mapping of now, all required fields and only known ones |
| V2Validation.GateWithoutSamples | openrag/scripts/reindex_es_content_exact_v2.py:229-320 | with a sample limit of 0 duplicates are not counted: the gate then only looks at the last document of each id |
| V2Validation.HiddenDuplicate | openrag/scripts/reindex_es_content_exact_v2.py:249-252 | any document in front of a right one of the same id passes the gate with limit 0 and with no other |
| V2Switch.RunSmokeQuery | openrag/scripts/reindex_es_content_exact_v2.py:433-457 | the smoke query is decided by the first row with a non-blank text |
| V2Switch.SmokeMeaning | openrag/scripts/reindex_es_content_exact_v2.py:433-457 | the query proves the alias iff the search for the first row with a non-blank text answers it, or there are no rows; it raises iff that search does |
| V2Switch.WithStateAt | openrag/src/openrag/search/es_chunk_store.py:233-258 | after one alias update, an alias of the state has its targets, or none if it had none, and every other alias is as before |
| V2Switch.PutBackMeaning | openrag/src/openrag/search/es_chunk_store.py:233-258 | a state can be put back iff its indices exist and no alias has two write indices |
| V2Switch.SwitchWorkspaceAliases | openrag/scripts/reindex_es_content_exact_v2.py:324-381 | outcome and alias table for every validation, smoke query and alias call that raises, the rollback included |
| V2Switch.SwitchExits | openrag/scripts/reindex_es_content_exact_v2.py:324-381 | completed iff the index matches one to one, the change answers and the search finds the first row with a text; else exactly as before, or on the validated index unproved: iff the change raised after taking effect, or the search failed and the rollback raised |
| V2Switch.SwitchAllOrNothing | openrag/scripts/reindex_es_content_exact_v2.py:324-381 | while no alias call raises, a switch that does not complete changes nothing |
| V2Switch.UnprovedSwitch | openrag/scripts/reindex_es_content_exact_v2.py:375-380 | with the search and the rollback raising, both aliases stay on the v2 index |
| V2Switch.RestoreAliases | openrag/scripts/reindex_es_content_exact_v2.py:384-430 | outcome and alias table for every saved state, smoke query and alias call that raises, the rollback included |
| V2Switch.RestoreExits | openrag/scripts/reindex_es_content_exact_v2.py:384-430 | completed iff the state fits, the change answers and the search finds the first row with a text; else exactly as before, or the state in force unproved under the same condition |
| V2Switch.UnprovedRestore | openrag/scripts/reindex_es_content_exact_v2.py:426-429 | with the rollback raising, a state that fits stays in force without a passing query |
| V2Switch.SwitchTargets | openrag/scripts/reindex_es_content_exact_v2.py:324-381 | after a switch both aliases point at the index alone, the write alias as writer, and no other alias has moved |
| V2Switch.UndoSwitch | openrag/scripts/reindex_es_content_exact_v2.py:384-430 | restoring the state saved before a switch gives back the whole alias table |
| V2Switch.SwitchThenRestore | openrag/scripts/reindex_es_content_exact_v2.py:324-430 | a switch followed by a restore that completes is the identity on aliases; otherwise they are as before or switched |
| V2Switch.SwitchedIndexIsRight | openrag/scripts/reindex_es_content_exact_v2.py:324-381 | a switch is let through iff the index exists and matches the active chunks one to one |
| V2Rebuild.WriteAllV2 | openrag/scripts/reindex_es_content_exact_v2.py:168-218 | the batch loop stops at the first batch whose call raises or that is not fully accepted |
| V2Rebuild.ReindexWorkspace | openrag/scripts/reindex_es_content_exact_v2.py:168-218 | outcome and indices in every case: checks in order, a bulk call that raises, a partial batch, or completion |
| V2Rebuild.PutDocsReplace | openrag/src/openrag/search/es_chunk_store.py:326-347 | an accepted id has the document submitted and only that; all other documents stay |
| V2Rebuild.WrittenIff | openrag/scripts/reindex_es_content_exact_v2.py:168-218 | all batches are written iff each document is accepted by the call it is part of |
| V2Rebuild.WriteStops | openrag/scripts/reindex_es_content_exact_v2.py:168-218 | else the writing stops in the call of the first document not accepted, and counts what came before that call |
| V2Rebuild.RebuildDecision | openrag/scripts/reindex_es_content_exact_v2.py:168-218 | nothing changes unless the workspace can be read, every active chunk has a text and the index is usable; then only documents of active chunks are written, with their ids, files, texts and derived fields, and the rebuild completes iff every call accepts all its rows |
| V2Rebuild.RebuildValidatesIff | openrag/scripts/reindex_es_content_exact_v2.py:168-320 | after a completed rebuild the gate opens iff no document of an inactive chunk was there before |
| NotionTraversal.NotionConnector.BuildPagePath | openrag/common/data_source/notion_connector.py:448-475 | ends on any parent relation; wherever the parents end in a root every cached path is the titles from the root down, whatever was cached before |
| NotionTraversal.NotionConnector.ReadPage | openrag/common/data_source/notion_connector.py:477-537 | one page is indexed once and its documents are appended |
| NotionTraversal.NotionConnector.ReadPages | openrag/common/data_source/notion_connector.py:477-537 | indexes the pages in hand and everything below them, and nothing that is not reachable from them |
| NotionTraversal.NotionConnector.Load | openrag/common/data_source/notion_connector.py:546-604 | the indexed pages are exactly those reachable from the pages found, through cycles and shared children, for any window; each with a text or a title has one document, under the titles from the root down wherever its parents end in one, followed by its attachments, and nothing else is yielded |
| NotionTraversal.YieldedOnce | openrag/common/data_source/notion_connector.py:477-537 | no page has two documents; each page with text or a title has one under its path, its attachments follow in order, and no other document is there |
| NotionTraversal.SemanticIdsDiffer | openrag/common/data_source/notion_connector.py:477-537 | page ids of one length keep the semantic identifiers apart |
| ConfluencePagination.TryOneByOne | openrag/common/data_source/confluence_connector.py:442-496 | the recovery loop yields the items that can be had, and reports an empty page if it meets one |
| ConfluencePagination.DeliverPage | openrag/common/data_source/confluence_connector.py:615-637 | a page's items in order, the callback just before the last one, and the URL that follows |
| ConfluencePagination.PaginateUrl | openrag/common/data_source/confluence_connector.py:498-647 | ends for every server, with the measure (items left, expansion still asked for), and delivers the recursive trace |
| ConfluenceDelivery.RecoveryDelivers | openrag/common/data_source/confluence_connector.py:442-496 | recovery of a range yields exactly its retrievable items |
| ConfluenceDelivery.TraceDelivers | openrag/common/data_source/confluence_connector.py:498-647 | every delivery is a range with the expansion, then exactly the retrievable items without it, up to the first page that fails with a status other than 500 |
| ConfluenceDelivery.DeliversRetrievable | openrag/common/data_source/confluence_connector.py:498-647 | with a callback every retrievable item from the offset on is delivered once and in order, for any cap and any items that fail with 500 |
| ConfluenceDelivery.LinksLoseCappedItems | openrag/common/data_source/confluence_connector.py:653-663 | without a callback, whichever items fail with 500, no retrievable item is lost iff no page skips one |
| ConfluenceDelivery.CappedWithoutFailures | openrag/common/data_source/confluence_connector.py:653-663 | where no item fails, nothing is lost iff no page is cut short or the first page is the last |
| ConfluenceResume.FetchDocumentBatches | openrag/common/data_source/confluence_connector.py:1788-1843 | what a run yields, where it stops and the checkpoint it returns |
| ConfluenceResume.CallbackResumes | openrag/common/data_source/confluence_connector.py:619-637 | each announced URL is followed by the last item of its page, and fetching from it delivers exactly what was still to come |
| ConfluenceResume.PauseOrigin | openrag/common/data_source/confluence_connector.py:1801-1843 | a run stops only after a converted page, with the URL announced last, never with the URL it started from, and nothing since the announcement was converted |
| ConfluenceResume.RunResumes | openrag/common/data_source/confluence_connector.py:1801-1843 | the checkpoint's offset strictly increases, and what the run processed and what the checkpoint stands for cover everything |
| ConfluenceResume.RunResumesExactly | openrag/common/data_source/confluence_connector.py:1801-1843 | if no conversion fails the two do not overlap |
| ConfluenceResume.RunsProcessAll | openrag/common/data_source/confluence_connector.py:1801-1843 | running to the end processes all that pagination delivers; exactly that if no conversion fails |
| ConfluenceResume.ResumeLosesNothing | openrag/common/data_source/confluence_connector.py:1801-1843 | every retrievable page is processed at least once, and no page twice if no conversion fails |
| ConfluenceResume.FailureRepeats | openrag/common/data_source/confluence_connector.py:1819-1843 | a failed conversion can make a page be processed twice |
| ConfluenceRepeats.RunRepeatsNothingIff | openrag/common/data_source/confluence_connector.py:1801-1843 | a run and its checkpoint do not overlap iff the run stops at the end of an announced page |
| ConfluenceRepeats.RepeatsNothingIff | openrag/common/data_source/confluence_connector.py:1801-1843 | over all runs no page is processed twice iff, from each announced page's last item on, the first page that converts ends an announced page (or none converts) |
| ConfluenceDocuments.RunOutputs | openrag/common/data_source/confluence_connector.py:1801-1843 | of a run that does not raise: a page's document iff it was processed, converts and is not stale; its failure iff it was processed and does not convert; its attachments iff it converts, stale or not; each as often as processed; and the checkpoint returned |
| ConfluenceDocuments.ResumeDelivers | openrag/common/data_source/confluence_connector.py:1788-1843 | over all runs every retrievable page has its document, or its failure, and its attachments; if no conversion fails nothing is put out twice and all comes in order |
| ImapCheckpoints.LoadFromCheckpoint | openrag/common/data_source/imap_connector.py:213-294 | one call: the checkpoint it returns and the documents of the ids it attempts |
| ImapCheckpoints.RunFrom | openrag/common/data_source/imap_connector.py:213-294 | the calls and attempts still to come from any checkpoint |
| ImapCheckpoints.FullRun | openrag/common/data_source/imap_connector.py:213-294 | every id of every mailbox is attempted once, the last mailbox first, in 2 calls more than the mailboxes' pages |
| ImapCheckpoints.MailboxesMeaning | openrag/common/data_source/imap_connector.py:218-235 | the mailboxes are the configured names, or else the listed ones, without the empty ones and in quotes |
| ImapCheckpoints.FullRunDocuments | openrag/common/data_source/imap_connector.py:213-294 | the documents of a whole run: exactly the messages of those mailboxes that can be fetched and lie in the window, with their attachments; none twice if no mailbox or id is listed twice |
| ConnectorRuns.ConnectorRunner.Run | openrag/common/data_source/connector_runner.py:119-168 | the loop yields what the item-by-item definition says and leaves the pending documents it says |
| ConnectorRuns.RunConserves | openrag/common/data_source/connector_runner.py:58-168 | all documents in order in full batches but the last, all failures in order, the checkpoint once and last |
| ConnectorRuns.BatchedDocIds | openrag/common/data_source/connector_runner.py:24-43 | the batches of ids cover exactly the ids seen, and all but the last are full |
| ConnectorRuns.IdsMeaning | openrag/common/data_source/connector_runner.py:24-43 | the ids seen are those of the documents and those of the failures that name one |
| GitlabCode.DirectoryPatternsNeverMatch | openrag/common/data_source/gitlab_connector.py:32-37 | for a path as listed only two of the four patterns can match |
| GitlabCode.BatchObjects | openrag/common/data_source/gitlab_connector.py:40-46 | slices of the given size that concatenate to the input |
| GitlabCode.WalkIsLevelByLevel | openrag/common/data_source/gitlab_connector.py:231-264 | the queue emits all files of one depth before any deeper one |
| GitlabCode.WalkEmitsAll | openrag/common/data_source/gitlab_connector.py:231-264 | exactly the in-window files under directories that are not excluded, each as often as it is listed |
| GitlabCode.FetchCode | openrag/common/data_source/gitlab_connector.py:231-264 | ends, and for any batch size above 0 yields the level-by-level walk in non-empty batches |
| GitlabCode.CodeFetched | openrag/common/data_source/gitlab_connector.py:231-264 | fetched is exactly each file in the window that is listed outside excluded directories |
| GitlabCode.NothingWantedLater | openrag/common/data_source/gitlab_connector.py:266-285 | with the newest first, stopping at the first old merge request loses none in the window |
| GitlabCode.UpdatedFetched | openrag/common/data_source/gitlab_connector.py:266-285 | of items listed newest first exactly those in the window are fetched, and reading stops iff one is not later than the start |
| GitlabCode.FetchUpdated | openrag/common/data_source/gitlab_connector.py:266-303 | what is fetched before the first old item, and that it stops iff there is one |
| GitlabCode.FetchFromGitlab | openrag/common/data_source/gitlab_connector.py:218-303 | the whole fetch; issues are read iff no merge request was too old |
| BlobNames.BlobConnector.constructor | openrag/common/data_source/blob_connector.py:28-44 | the prefix gets a slash at the end if it has none and is not empty |
| BlobNames.BlobConnector.CountNames | openrag/common/data_source/blob_connector.py:146-150 | the dictionary holds how often each base name occurs |
| BlobNames.BlobConnector.YieldBlobObjects | openrag/common/data_source/blob_connector.py:119-199 | the readable objects of the window in order, named, in full batches but the last |
| BlobNames.ShownObjects | openrag/common/data_source/blob_connector.py:119-199 | shown are exactly the objects that are no directory, lie in the window, can be read and are not known to be too large, in order |
| BlobNames.NameMeaning | openrag/common/data_source/blob_connector.py:131-178 | the name is the file's own if no other object of the window has it, else the path below the prefix with spaced slashes |
| BlobNames.SpacedMeaning | openrag/common/data_source/blob_connector.py:172-178 | spacing changes the slashes and nothing else |
| BlobNames.SpacedInjective | openrag/common/data_source/blob_connector.py:172-178 | spacing the slashes of a path can be undone |
| BlobNames.NamesNeverCollide | openrag/common/data_source/blob_connector.py:131-178 | different keys below the prefix get different names |
| BlobNames.ShownNamesDistinct | openrag/common/data_source/blob_connector.py:131-199 | the documents of one fetch have pairwise different names |
| BlobNames.BarePrefixCollides | openrag/common/data_source/blob_connector.py:38 | without the slash the constructor adds, names can collide |
| Raptor.Summarizer.GetOptimalClusters | openrag/rag/raptor.py:99-110 | the first count with the smallest criterion, between 1 and min(max_cluster, n) - 1; none iff that range is empty |
| Raptor.Summarizer.Summarize | openrag/rag/raptor.py:120-162 | appends the summary, skips it if it fails below the error limit, aborts iff the task is cancelled or the limit is reached |
| Raptor.Summarizer.RunTasks | openrag/rag/raptor.py:196-205 | in whatever order tasks run, each that succeeds adds one node, and the run goes on iff none is cancelled and the failures stay below the limit |
| Raptor.Summarizer.Labels | openrag/rag/raptor.py:184-191 | each node gets the first cluster above the threshold; it raises iff some node has none |
| Raptor.UsableMeaning | openrag/rag/raptor.py:115-118 | clustered are the chunks that have a text and an embedding, in order |
| Raptor.Summarizer.SummarizePair | openrag/rag/raptor.py:167-175 | two nodes get one parent, or none if the summary was skipped |
| Raptor.Summarizer.SummarizeClusters | openrag/rag/raptor.py:177-215 | goes on iff the clustering gives every node a cluster and every cluster a node, none is disturbed and no summary is missing; then every node has exactly one parent in a strictly smaller layer, and the nodes under one parent are those of one cluster |
| Raptor.Summarizer.Call | openrag/rag/raptor.py:112-215 | returns iff no summary was cancelled, the failures stayed below the limit, every layer could be clustered and no cluster lost its summary; then it has built a tree of contiguous, strictly shrinking layers over the usable chunks, down to one node, or none iff the last summary was skipped |
| Raptor.LeavesPartition | openrag/rag/raptor.py:164-215 | in every non-empty layer the leaf sets under the nodes partition the chunks |
| Raptor.RootCoversAll | openrag/rag/raptor.py:164-215 | a last layer of one node stands for all the chunks |
| Raptor.SummariesBounded | openrag/rag/raptor.py:99-110 | at most m(m+1)/2 summaries, with m = min(max_cluster, n) - 1 |
| Raptor.NeedsTwoClusters | openrag/rag/raptor.py:99-110 | three chunks or more are never summarised with a limit of one cluster |
| DirectoryPaths.AncestorDirs | openrag/scripts/backfill_directory_rows.py:53-65 | the loop yields the paths of all prefixes of the parent's segments |
| DirectoryPaths.NormalMeaning | openrag/scripts/backfill_directory_rows.py:53-57 | backslashes read as slashes, and nothing else changes |
| DirectoryPaths.AbovePath | openrag/scripts/backfill_directory_rows.py:53-65 | above a path lie exactly its shorter non-empty prefixes, the shallow ones first |
| DirectoryPaths.AboveIsClosed | openrag/scripts/backfill_directory_rows.py:53-65 | what lies above a directory asked for was asked for too, before it |
| DirectoryPaths.AboveAny | openrag/scripts/backfill_directory_rows.py:53-65 | for any path, clean or not: the prefixes of its segments, without the whole path iff it has a slash and a name after the last one |
| DirectoryPaths.OwnParentIff | openrag/scripts/backfill_directory_rows.py:56-57 | a path is taken for its own parent iff it has neither a slash nor a backslash |
| DirectoryPaths.AsksForItselfIff | openrag/scripts/backfill_directory_rows.py:53-65 | a directory of the whole path is asked for iff it has segments and no name after a last slash |
| DirectoryPaths.AboveBareName | openrag/scripts/backfill_directory_rows.py:56-57 | a non-empty path without slashes asks for exactly one directory of its own name at the root |
| DirectoryBackfill.FileTable.ProcessWorkspace | openrag/scripts/backfill_directory_rows.py:111-165 | the rows and the report after a run, and the order of insertion; a preview writes nothing |
| DirectoryBackfill.DirsFilled | openrag/scripts/backfill_directory_rows.py:111-157 | the directories afterwards are the old ones and those asked for that no file has taken; existing rows stay |
| DirectoryBackfill.RowMeaning | openrag/scripts/backfill_directory_rows.py:83-104 | a directory's row has the name after the last slash of its path, or is called the root |
| DirectoryBackfill.SecondRunCreatesNothing | openrag/scripts/backfill_directory_rows.py:111-157 | running again changes nothing and reports only the conflicts |
| DirectoryBackfill.ParentsComeFirst | openrag/scripts/backfill_directory_rows.py:144-147 | each row is inserted after those of the directories above it |
| DirectoryBackfill.NothingHangsFree | openrag/scripts/backfill_directory_rows.py:111-157 | afterwards every directory above a file or an added row exists, unless a file has taken its path |

## Left out

- Network, database and client plumbing: each is a map, a sequence or a parameter with the faults named above.
- SHA-256 and JSON: a hash is a constructor applied to its payload, so that different payloads differ.
- Sorted id lists in payloads and reports: lists that are compared after sorting are compared as multisets.
- The order of Elasticsearch's answers: an index is a sequence of documents, an upsert replaces by id.
- Alias changes that take effect in part: a call has its whole effect or none.
- Names of indices and aliases computed from slugs: attributes of the workspace; the two aliases are different.
- Builder of v2 documents rejecting blank ids: such chunks are not modelled.
- Document type, exact terms and embeddings in documents: given attributes of a chunk.
- The v2 branch of the legacy audit: the v2 gate itself is modelled.
- Batch sizes that are not positive in the scripts: they raise before anything is read.
- Dry runs, reports on disk and command lines.
- Chunk ids that are not text, and ids longer than 64 characters.
- Whitespace other than ASCII in the smoke query's test for blank texts.
- Notion blocks, tables, files and page text: a page's children, attachments and whether it has text are given.
- Notion pages that cannot be fetched while indexing: children are fetchable; unfetchable parents end a path.
- Confluence Cloud: cursors, and its refusal of one-by-one recovery.
- Confluence servers that change during a run, whose next link does not repeat limit and expansion, or whose requests raise instead of answering.
- Attachments of Confluence pages: the documents of each page's attachments are given; one that raises is not modelled.
- The retry of `load_from_checkpoint` with an earlier start after a date error.
- Text, headers and size limits of e-mail messages: given attributes of a message.
- The poll and load connectors that `ConnectorRunner` also drives: only the checkpointed kind is modelled.
- The order in which GitLab lists issues: `FetchUpdated` says what is read, `NothingWantedLater` needs the newest first.
- GitLab listings by path: a queue entry is the directory itself.
- Blob downloads: whether an object can be read is given.
- Fitted models, summaries and embeddings in RAPTOR: the numbers and texts they give are parameters; prompts, truncation, caches, timeouts and cancellation outside a summary are not modelled.
- Summaries of one layer that run at the same time: they run one after the other, in any order, up to the first abort.
- `ensure_directory_path`: the backfill is modelled with direct insertion, for a single writer.
- Dropbox, WebDAV and other connectors; index generations; metadata filters; encryption.
