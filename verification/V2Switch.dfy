/** Rebuilding the v2 index, and switching and restoring the workspace aliases. */
module V2Switch {
  import opened Sequences
  import opened ChunkStores
  import opened StoreClient
  import opened MissingRepair
  import opened V2Validation

  // ---------------------------------------------------------------- documents

  /** The full text of a chunk with what is derived from it. */
  datatype L2Text = L2Text(text: string, docType: string, exactTerms: seq<string>)

  type Texts = map<ChunkId, L2Text>

  predicate Blank(s: string) {
    forall c :: c in s ==> c in {' ', '\t', '\n', '\r'}
  }

  function Truncated(s: string, n: nat): string {
    s[..Min(n, |s|)]
  }

  function V2Document(ws: Workspace, c: Chunk, t: L2Text, hash: string): V2Doc {
    var id := Truncated(c.chunkId, MAX_CHUNK_ID);
    var content := Text(Truncated(t.text, MAX_CONTENT));
    V2Doc(id, map["chunk_id" := Text(id), "file_id" := Number(c.fileId), "workspace_id" := Number(ws.id),
                  "workspace_slug" := Text(ws.slugSegment), "content" := content,
                  "doc_type_kwd" := Text(Truncated(t.docType, 64)), "content_with_weight" := content,
                  "mom_with_weight" := Text(""), "exact_terms" := Terms(t.exactTerms),
                  "schema_version" := Text(SCHEMA_VERSION), "mapping_hash" := Text(hash)])
  }

  function V2Documents(ws: Workspace, rows: seq<Chunk>, texts: Texts, hash: string): (docs: seq<V2Doc>)
    requires forall c :: c in rows ==> c.chunkId in texts
    ensures |docs| == |rows|
    ensures forall i :: 0 <= i < |rows| ==> docs[i] == V2Document(ws, rows[i], texts[rows[i].chunkId], hash)
  {
    seq(|rows|, i requires 0 <= i < |rows| => V2Document(ws, rows[i], texts[rows[i].chunkId], hash))
  }

  function OtherId(id: ChunkId): V2Doc -> bool {
    (d: V2Doc) => d.id != id
  }

  function PutDoc(docs: seq<V2Doc>, d: V2Doc): seq<V2Doc> {
    Filter(OtherId(d.id), docs) + [d]
  }

  function PutDocs(docs: seq<V2Doc>, added: seq<V2Doc>, refused: set<ChunkId>): seq<V2Doc> {
    if added == [] then docs
    else
      var n := |added| - 1;
      var before := PutDocs(docs, added[..n], refused);
      if added[n].id in refused then before else PutDoc(before, added[n])
  }

  // ---------------------------------------------------------------- aliases

  datatype AliasConfig = AliasConfig(isWriteIndex: bool, rest: string)

  /** The indices an alias points at. */
  type Targets = map<string, AliasConfig>

  /** Aliases that point nowhere do not exist. */
  type AliasTable = map<string, Targets>

  const PLAIN := AliasConfig(false, "")
  const WRITER := AliasConfig(true, "")

  function TargetsOf(t: AliasTable, alias: string): Targets {
    if alias in t then t[alias] else map[]
  }

  function AliasState(t: AliasTable, aliases: set<string>): map<string, Targets> {
    map a | a in aliases :: TargetsOf(t, a)
  }

  /** One atomic update: the aliases of `state` get its targets, all others keep theirs. */
  function WithState(t: AliasTable, state: map<string, Targets>): AliasTable {
    (t - state.Keys) + (map a | a in state && state[a] != map[] :: state[a])
  }

  predicate SingleWriter(ts: Targets) {
    forall i, j :: i in ts && j in ts && ts[i].isWriteIndex && ts[j].isWriteIndex ==> i == j
  }

  /** A state that can be put back: one write index per alias, and every index still exists. */
  predicate Restorable(state: map<string, Targets>, indices: set<string>) {
    forall a :: a in state ==> SingleWriter(state[a]) && state[a].Keys <= indices
  }

  /** What Elasticsearch keeps true of its alias table. */
  ghost predicate ValidTable(t: AliasTable, indices: set<string>) {
    Restorable(t, indices) && forall a :: a in t ==> t[a] != map[]
  }

  /** A call that changes aliases answers, or raises without effect, or takes effect and then raises. */
  datatype CallFate = Answers | RaisesBefore | RaisesAfter

  /** What becomes of the alias change of a command and of the change that undoes it. */
  datatype AliasFaults = AliasFaults(change: CallFate, rollback: CallFate)

  const NO_FAULTS := AliasFaults(Answers, Answers)

  class V2Store {
    var indices: map<string, V2Index>
    var aliases: AliasTable

    constructor (indices: map<string, V2Index>, aliases: AliasTable)
      ensures this.indices == indices && this.aliases == aliases
    {
      this.indices := indices;
      this.aliases := aliases;
    }

    /** Creates the index with the strict mapping; false if an existing one breaks the contract. */
    method EnsureVersionedIndex(name: string) returns (ok: bool)
      modifies this`indices
      ensures ok == (name !in old(indices) || old(indices)[name].contractOk)
      ensures indices == if name in old(indices) then old(indices) else old(indices)[name := V2Index(true, [])]
    {
      if name in indices {
        return indices[name].contractOk;
      }
      indices := indices[name := V2Index(true, [])];
      ok := true;
    }

    /** `accepted` is None when the call raises. */
    method BulkUpsert(name: string, docs: seq<V2Doc>, outcome: BulkOutcome) returns (accepted: Option<nat>)
      requires name in indices
      modifies this`indices
      ensures indices == old(indices)[name :=
                old(indices)[name].(docs := PutDocs(old(indices)[name].docs, docs, outcome.refused))]
      ensures accepted == if outcome.Raises? then None else Some(|Filter(NotRefused(outcome.refused), docs)|)
    {
      var stored := indices[name].docs;
      var count := 0;
      for i := 0 to |docs|
        invariant stored == PutDocs(old(indices)[name].docs, docs[..i], outcome.refused)
        invariant count == |Filter(NotRefused(outcome.refused), docs[..i])|
        invariant indices == old(indices)
      {
        assert docs[..i + 1] == docs[..i] + [docs[i]];
        FilterSnoc(NotRefused(outcome.refused), docs[..i], docs[i]);
        if docs[i].id !in outcome.refused {
          stored := PutDoc(stored, docs[i]);
          count := count + 1;
        }
      }
      assert docs[..|docs|] == docs;
      indices := indices[name := indices[name].(docs := stored)];
      accepted := if outcome.Raises? then None else Some(count);
    }

    /** None when the call raises: because the target is missing or breaks the contract, or for `fate`. */
    method UpdateWorkspaceAliases(read: string, write: string, target: string, fate: CallFate)
      returns (previous: Option<map<string, Targets>>)
      modifies this`aliases
      ensures var usable := target in indices && indices[target].contractOk;
              && previous == (if usable && fate.Answers? then Some(AliasState(old(aliases), {read, write})) else None)
              && aliases == if usable && !fate.RaisesBefore? then SwitchedTable(old(aliases), read, write, target)
                            else old(aliases)
    {
      if target !in indices || !indices[target].contractOk || fate.RaisesBefore? {
        return None;
      }
      previous := if fate.Answers? then Some(AliasState(aliases, {read, write})) else None;
      aliases := SwitchedTable(aliases, read, write, target);
    }

    /** False when the call raises: because the state cannot be put back, or for `fate`. */
    method RestoreWorkspaceAliases(state: map<string, Targets>, fate: CallFate) returns (ok: bool)
      modifies this`aliases
      ensures ok == (Restorable(state, indices.Keys) && fate.Answers?)
      ensures aliases == if Restorable(state, indices.Keys) && !fate.RaisesBefore? then WithState(old(aliases), state)
                         else old(aliases)
    {
      if !Restorable(state, indices.Keys) || fate.RaisesBefore? {
        return false;
      }
      aliases := WithState(aliases, state);
      ok := fate.Answers?;
    }
  }

  function NotRefused(refused: set<ChunkId>): V2Doc -> bool {
    (d: V2Doc) => d.id !in refused
  }

  function SwitchedTable(t: AliasTable, read: string, write: string, target: string): AliasTable {
    WithState(t, map[read := map[target := PLAIN], write := map[target := WRITER]])
  }

  // ---------------------------------------------------------------- smoke query

  datatype SmokeResult = SmokeHit | NoSmokeHit | SmokeRaised

  /** What the search through the alias answers, by the chunk whose text is queried. */
  datatype Searches = Searches(hits: set<ChunkId>, raises: set<ChunkId>)

  predicate HasText(texts: Texts, c: Chunk) {
    c.chunkId in texts && !Blank(texts[c.chunkId].text)
  }

  /** The first chunk with text decides; without rows there is nothing to ask. */
  function Smoke(rows: seq<Chunk>, texts: Texts, s: Searches): SmokeResult {
    if rows == [] then NoSmokeHit
    else if !HasText(texts, rows[0]) then Smoke(rows[1..], texts, s)
    else if rows[0].chunkId in s.raises then SmokeRaised
    else if rows[0].chunkId in s.hits then SmokeHit
    else NoSmokeHit
  }

  method RunSmokeQuery(rows: seq<Chunk>, texts: Texts, s: Searches) returns (r: SmokeResult)
    ensures r == Smoke(rows, texts, s)
  {
    for i := 0 to |rows|
      invariant Smoke(rows, texts, s) == Smoke(rows[i..], texts, s)
    {
      assert rows[i..][1..] == rows[i + 1..];
      var c := rows[i];
      if c.chunkId !in texts || Blank(texts[c.chunkId].text) {
        continue;
      }
      return if c.chunkId in s.raises then SmokeRaised else if c.chunkId in s.hits then SmokeHit else NoSmokeHit;
    }
    r := NoSmokeHit;
  }

  /** The chunk has a text in which some character is no blank. */
  ghost predicate CanBeQueried(texts: Texts, id: ChunkId) {
    id in texts && exists c :: c in texts[id].text && c != ' ' && c != '\t' && c != '\n' && c != '\r'
  }

  /** Row `i` is the first whose text can be queried. */
  ghost predicate IsQueried(rows: seq<Chunk>, texts: Texts, i: nat) {
    && i < |rows| && CanBeQueried(texts, rows[i].chunkId)
    && forall j :: 0 <= j < i ==> !CanBeQueried(texts, rows[j].chunkId)
  }

  /** The first row with a text is found by the search through the alias; an empty workspace needs no proof. */
  ghost predicate QueryFinds(rows: seq<Chunk>, texts: Texts, s: Searches) {
    rows == [] || exists i: nat :: IsQueried(rows, texts, i) && rows[i].chunkId in s.hits && rows[i].chunkId !in s.raises
  }

  lemma {:induction false} SmokeAt(rows: seq<Chunk>, texts: Texts, s: Searches, i: nat)
    requires IsQueried(rows, texts, i)
    ensures Smoke(rows, texts, s) == if rows[i].chunkId in s.raises then SmokeRaised
                                     else if rows[i].chunkId in s.hits then SmokeHit else NoSmokeHit
  {
    TextMeaning(texts, rows[0]);
    hide HasText, CanBeQueried;
    if i > 0 {
      assert IsQueried(rows[1..], texts, i - 1);
      SmokeAt(rows[1..], texts, s, i - 1);
    }
  }

  lemma TextMeaning(texts: Texts, c: Chunk)
    ensures HasText(texts, c) <==> CanBeQueried(texts, c.chunkId)
  {
  }

  /** If no row has a text, no search is made, and none succeeds. */
  lemma {:induction false} NothingQueried(rows: seq<Chunk>, texts: Texts, s: Searches)
    returns (i: nat)
    ensures i < |rows| ==> IsQueried(rows, texts, i)
    ensures i == |rows| ==> Smoke(rows, texts, s) == NoSmokeHit && forall c :: c in rows ==> !CanBeQueried(texts, c.chunkId)
    ensures i <= |rows|
  {
    hide HasText, CanBeQueried;
    i := 0;
    if rows != [] {
      TextMeaning(texts, rows[0]);
      if !HasText(texts, rows[0]) {
        var j := NothingQueried(rows[1..], texts, s);
        i := j + 1;
      }
    }
  }

  /** The query proves the alias exactly if it finds the first row with a text; it raises exactly if that search does. */
  lemma SmokeMeaning(rows: seq<Chunk>, texts: Texts, s: Searches)
    ensures rows == [] || Smoke(rows, texts, s).SmokeHit? <==> QueryFinds(rows, texts, s)
    ensures Smoke(rows, texts, s).SmokeRaised? <==> exists i: nat :: IsQueried(rows, texts, i) && rows[i].chunkId in s.raises
  {
    hide Smoke, CanBeQueried;
    var first := NothingQueried(rows, texts, s);
    forall i: nat | IsQueried(rows, texts, i)
      ensures Smoke(rows, texts, s) == if rows[i].chunkId in s.raises then SmokeRaised
                                       else if rows[i].chunkId in s.hits then SmokeHit else NoSmokeHit
    {
      SmokeAt(rows, texts, s, i);
    }
    if first == |rows| {
      forall i: nat ensures !IsQueried(rows, texts, i) {
        assert i < |rows| ==> rows[i] in rows;
      }
    }
  }

  // ---------------------------------------------------------------- switch

  datatype SwitchOutcome = SwitchRaised | Switched(previous: map<string, Targets>)

  /** The names and answers one command works with. */
  datatype Setting = Setting(indexName: string, read: string, write: string, hash: string, texts: Texts, searches: Searches)

  const SAMPLE_LIMIT: nat := 20

  predicate SmokePasses(rows: seq<Chunk>, e: Setting) {
    rows == [] || Smoke(rows, e.texts, e.searches).SmokeHit?
  }

  predicate Validated(rows: seq<Chunk>, workspaceId: int, indices: map<string, V2Index>, e: Setting) {
    && e.indexName in indices
    && Validation(indices[e.indexName], ExpectedOf(rows, workspaceId), e.hash, SAMPLE_LIMIT).anomalyCount == 0
  }

  lemma WithStateAt(t: AliasTable, state: map<string, Targets>, a: string)
    ensures a in WithState(t, state) <==> if a in state then state[a] != map[] else a in t
    ensures a in WithState(t, state) ==> WithState(t, state)[a] == if a in state then state[a] else t[a]
  {
  }

  /** A state read from a valid table can be put back, and putting it back undoes any change to its aliases. */
  lemma PutBack(t: AliasTable, read: string, write: string, change: map<string, Targets>, indices: set<string>)
    requires ValidTable(t, indices) && change.Keys == {read, write}
    ensures Restorable(AliasState(t, {read, write}), indices)
    ensures WithState(WithState(t, change), AliasState(t, {read, write})) == t
  {
    var state := AliasState(t, {read, write});
    var changed := WithState(t, change);
    var back := WithState(changed, state);
    hide WithState;
    forall a ensures (a in back <==> a in t) && (a in t ==> back[a] == t[a]) {
      WithStateAt(t, change, a);
      WithStateAt(changed, state, a);
    }
    assert back.Keys == t.Keys;
  }

  /** How a switch ends and what it leaves of the alias table. The rollback itself can raise. */
  function SwitchEnd(rows: Option<seq<Chunk>>, workspaceId: int, indices: map<string, V2Index>, t: AliasTable,
                     e: Setting, f: AliasFaults): (SwitchOutcome, AliasTable)
  {
    var switched := SwitchedTable(t, e.read, e.write, e.indexName);
    if rows.None? || !Validated(rows.value, workspaceId, indices, e) || f.change.RaisesBefore? then (SwitchRaised, t)
    else if f.change.RaisesAfter? then (SwitchRaised, switched)
    else if SmokePasses(rows.value, e) then (Switched(AliasState(t, {e.read, e.write})), switched)
    else if f.rollback.RaisesBefore? then (SwitchRaised, switched)
    else (SwitchRaised, t)
  }

  method SwitchWorkspaceAliases(db: Database, store: V2Store, workspaceId: int, e: Setting, f: AliasFaults)
    returns (out: SwitchOutcome)
    requires ValidTable(store.aliases, store.indices.Keys)
    modifies store`aliases
    ensures (out, store.aliases)
         == SwitchEnd(ActiveChunkRows(db, workspaceId), workspaceId, store.indices, old(store.aliases), e, f)
  {
    hide AliasState, SwitchedTable, WithState, Restorable, ValidTable, Smoke, ActiveRows, ExpectedOf;
    var rows := ActiveChunkRows(db, workspaceId);
    if rows.None? || e.indexName !in store.indices {
      return SwitchRaised;
    }
    var validation := ValidateWorkspaceV2(db, store.indices[e.indexName], workspaceId, e.hash, SAMPLE_LIMIT);
    if validation.None? || validation.value.anomalyCount != 0 {
      return SwitchRaised;
    }
    PassedContract(store.indices[e.indexName], ExpectedOf(rows.value, workspaceId), e.hash, SAMPLE_LIMIT);
    var previous := store.UpdateWorkspaceAliases(e.read, e.write, e.indexName, f.change);
    if previous.None? {
      return SwitchRaised;
    }
    var smoke := SmokeHit;
    if rows.value != [] {
      smoke := RunSmokeQuery(rows.value, e.texts, e.searches);
    }
    if !smoke.SmokeHit? {
      UndoSwitch(old(store.aliases), e.read, e.write, e.indexName, store.indices.Keys);
      var restored := store.RestoreWorkspaceAliases(previous.value, f.rollback);
      return SwitchRaised;
    }
    out := Switched(previous.value);
  }

  /** The three exits of a switch: completed, with an index in place that matches the active chunks one to one and a
      query that finds the first row with a text; raised with the aliases exactly as before; or raised with them on
      the validated index but unproved, which happens if and only if the change took effect although its call raised,
      or the query did not find the row and the rollback raised too. */
  lemma SwitchExits(rows: Option<seq<Chunk>>, workspaceId: int, indices: map<string, V2Index>, t: AliasTable,
                    e: Setting, f: AliasFaults, out: SwitchOutcome, after: AliasTable)
    requires (out, after) == SwitchEnd(rows, workspaceId, indices, t, e, f)
    ensures var validated := rows.Some? && e.indexName in indices
                             && OneToOne(indices[e.indexName], ExpectedOf(rows.value, workspaceId), e.hash);
            var switched := SwitchedTable(t, e.read, e.write, e.indexName);
            && (out.Switched? <==> validated && f.change.Answers? && QueryFinds(rows.value, e.texts, e.searches))
            && (out.Switched? ==> after == switched && out.previous == AliasState(t, {e.read, e.write}))
            && (!out.Switched? && after != t <==>
                  switched != t && validated
                  && (f.change.RaisesAfter?
                      || (f.change.Answers? && !QueryFinds(rows.value, e.texts, e.searches) && f.rollback.RaisesBefore?)))
            && (after != t ==> after == switched && validated)
  {
    hide SwitchedTable, AliasState, Validated, OneToOne, ExpectedOf, Smoke, QueryFinds;
    if rows.Some? {
      SwitchedIndexIsRight(rows.value, workspaceId, indices, e);
      SmokeMeaning(rows.value, e.texts, e.searches);
    }
  }

  /** While no alias call raises, a switch that does not complete changes nothing. */
  lemma SwitchAllOrNothing(rows: Option<seq<Chunk>>, workspaceId: int, indices: map<string, V2Index>, t: AliasTable,
                           e: Setting)
    ensures var (out, after) := SwitchEnd(rows, workspaceId, indices, t, e, NO_FAULTS);
            if out.Switched? then after == SwitchedTable(t, e.read, e.write, e.indexName) else after == t
  {
  }

  /** The third exit is real: the index is right, the search raises, and so does the rollback. */
  lemma UnprovedSwitch(workspaceId: int, c: Chunk, d: V2Doc, e: Setting)
    requires OneToOne(V2Index(true, [d]), ExpectedOf([c], workspaceId), e.hash)
    requires CanBeQueried(e.texts, c.chunkId) && c.chunkId in e.searches.raises && e.read != e.write
    ensures var (out, after) := SwitchEnd(Some([c]), workspaceId, map[e.indexName := V2Index(true, [d])], map[], e,
                                          AliasFaults(Answers, RaisesBefore));
            && out.SwitchRaised? && TargetsOf(after, e.read) == map[e.indexName := PLAIN]
            && TargetsOf(after, e.write) == map[e.indexName := WRITER]
  {
    hide OneToOne, ExpectedOf, Validated, SwitchedTable, CanBeQueried, HasText;
    TextMeaning(e.texts, c);
    var indices := map[e.indexName := V2Index(true, [d])];
    SwitchedIndexIsRight([c], workspaceId, indices, e);
    SwitchTargets(map[], e.read, e.write, e.indexName, indices.Keys, e.read);
  }

  lemma UndoSwitch(t: AliasTable, read: string, write: string, target: string, indices: set<string>)
    requires ValidTable(t, indices)
    ensures Restorable(AliasState(t, {read, write}), indices)
    ensures WithState(SwitchedTable(t, read, write, target), AliasState(t, {read, write})) == t
  {
    PutBack(t, read, write, map[read := map[target := PLAIN], write := map[target := WRITER]], indices);
    hide WithState, AliasState, Restorable, ValidTable;
  }

  lemma PassedContract(ix: V2Index, expected: Expected, hash: string, limit: nat)
    ensures Validation(ix, expected, hash, limit).anomalyCount == 0 ==> ix.contractOk
  {
    NoAnomaly(ix, expected, hash, limit);
    hide Validation;
  }

  // ---------------------------------------------------------------- restore

  datatype RestoreOutcome = RestoreRaised | RestoredFrom(replaced: map<string, Targets>)

  /** How a restore of `state` ends and what it leaves of the alias table. */
  function RestoreEnd(rows: Option<seq<Chunk>>, indices: set<string>, t: AliasTable, state: map<string, Targets>,
                      e: Setting, f: AliasFaults): (RestoreOutcome, AliasTable)
  {
    if rows.None? || state.Keys != {e.read, e.write} || !Restorable(state, indices) || f.change.RaisesBefore? then
      (RestoreRaised, t)
    else if f.change.RaisesAfter? then (RestoreRaised, WithState(t, state))
    else if SmokePasses(rows.value, e) then (RestoredFrom(AliasState(t, {e.read, e.write})), WithState(t, state))
    else if f.rollback.RaisesBefore? then (RestoreRaised, WithState(t, state))
    else (RestoreRaised, t)
  }

  method RestoreAliases(db: Database, store: V2Store, workspaceId: int, state: map<string, Targets>, e: Setting,
                        f: AliasFaults)
    returns (out: RestoreOutcome)
    requires ValidTable(store.aliases, store.indices.Keys)
    modifies store`aliases
    ensures (out, store.aliases)
         == RestoreEnd(ActiveChunkRows(db, workspaceId), store.indices.Keys, old(store.aliases), state, e, f)
  {
    hide AliasState, WithState, Restorable, ValidTable, Smoke, ActiveRows;
    var rows := ActiveChunkRows(db, workspaceId);
    if rows.None? || state.Keys != {e.read, e.write} {
      return RestoreRaised;
    }
    var current := AliasState(store.aliases, {e.read, e.write});
    var restored := store.RestoreWorkspaceAliases(state, f.change);
    if !restored {
      return RestoreRaised;
    }
    var smoke := SmokeHit;
    if rows.value != [] {
      smoke := RunSmokeQuery(rows.value, e.texts, e.searches);
    }
    if !smoke.SmokeHit? {
      PutBack(old(store.aliases), e.read, e.write, state, store.indices.Keys);
      var back := store.RestoreWorkspaceAliases(current, f.rollback);
      return RestoreRaised;
    }
    out := RestoredFrom(current);
  }

  /** Every index the state names still exists, and no alias has two write indices. */
  ghost predicate CanBePutBack(state: map<string, Targets>, indices: set<string>) {
    && (forall a, i :: a in state && i in state[a] ==> i in indices)
    && (forall a, i, j ::
          a in state && i in state[a] && j in state[a] && state[a][i].isWriteIndex && state[a][j].isWriteIndex ==> i == j)
  }

  lemma PutBackMeaning(state: map<string, Targets>, indices: set<string>)
    ensures Restorable(state, indices) <==> CanBePutBack(state, indices)
  {
    if CanBePutBack(state, indices) {
      forall a | a in state ensures SingleWriter(state[a]) && state[a].Keys <= indices {
        assert forall i :: i in state[a] ==> i in indices;
      }
    }
  }

  /** The three exits of a restore: completed with a query that finds the first row with a text; raised with the
      aliases exactly as before; or raised with the saved state in force but unproved, under the same condition. */
  lemma RestoreExits(rows: Option<seq<Chunk>>, indices: set<string>, t: AliasTable, state: map<string, Targets>,
                     e: Setting, f: AliasFaults, out: RestoreOutcome, after: AliasTable)
    requires (out, after) == RestoreEnd(rows, indices, t, state, e, f)
    ensures var fits := rows.Some? && state.Keys == {e.read, e.write} && CanBePutBack(state, indices);
            && (out.RestoredFrom? <==> fits && f.change.Answers? && QueryFinds(rows.value, e.texts, e.searches))
            && (out.RestoredFrom? ==> after == WithState(t, state) && out.replaced == AliasState(t, {e.read, e.write}))
            && (after == t || after == WithState(t, state))
            && (!out.RestoredFrom? && after != t <==>
                  WithState(t, state) != t && fits
                  && (f.change.RaisesAfter?
                      || (f.change.Answers? && !QueryFinds(rows.value, e.texts, e.searches) && f.rollback.RaisesBefore?)))
  {
    hide WithState, AliasState, Restorable, Smoke, QueryFinds, CanBePutBack;
    PutBackMeaning(state, indices);
    if rows.Some? {
      SmokeMeaning(rows.value, e.texts, e.searches);
    }
  }

  /** Its third exit is real too, for any state that fits. */
  lemma UnprovedRestore(rows: seq<Chunk>, indices: set<string>, t: AliasTable, state: map<string, Targets>, e: Setting)
    requires state.Keys == {e.read, e.write} && Restorable(state, indices) && !QueryFinds(rows, e.texts, e.searches)
    ensures RestoreEnd(Some(rows), indices, t, state, e, AliasFaults(Answers, RaisesBefore))
         == (RestoreRaised, WithState(t, state))
  {
    hide Smoke, QueryFinds, WithState, Restorable;
    SmokeMeaning(rows, e.texts, e.searches);
  }

  /** Where a switch leaves the aliases: the read alias on the validated index, the write alias on it as
      its only writer, every other alias as it was, and the table still valid. */
  lemma SwitchTargets(t: AliasTable, read: string, write: string, target: string, indices: set<string>, other: string)
    requires ValidTable(t, indices) && target in indices && read != write
    ensures var after := SwitchedTable(t, read, write, target);
            && TargetsOf(after, read) == map[target := AliasConfig(false, "")]
            && TargetsOf(after, write) == map[target := AliasConfig(true, "")]
            && (other != read && other != write ==> TargetsOf(after, other) == TargetsOf(t, other))
            && ValidTable(after, indices)
  {
    var change := map[read := map[target := PLAIN], write := map[target := WRITER]];
    var after := SwitchedTable(t, read, write, target);
    hide WithState;
    forall a ensures (a in after <==> if a in change then change[a] != map[] else a in t)
                     && (a in after ==> after[a] == if a in change then change[a] else t[a])
    {
      WithStateAt(t, change, a);
    }
  }

  /** A switch followed by a restore of the state it returned that completes is the identity on the aliases,
      whatever happened to the database in between. Otherwise they are as before or switched; and while no
      alias call raises, only the smoke query of the restore can keep them switched. */
  method SwitchThenRestore(db: Database, later: Database, store: V2Store, workspaceId: int, e: Setting, e2: Setting,
                           f: AliasFaults, f2: AliasFaults)
    returns (restored: bool)
    requires ValidTable(store.aliases, store.indices.Keys)
    requires e2.read == e.read && e2.write == e.write && e.read != e.write
    modifies store`aliases
    ensures restored ==> store.aliases == old(store.aliases)
    ensures || store.aliases == old(store.aliases)
            || store.aliases == SwitchedTable(old(store.aliases), e.read, e.write, e.indexName)
    ensures !restored && f == f2 == NO_FAULTS ==>
              || store.aliases == old(store.aliases)
              || ActiveChunkRows(later, workspaceId).None?
              || !QueryFinds(ActiveChunkRows(later, workspaceId).value, e2.texts, e2.searches)
  {
    hide SmokePasses, QueryFinds, Validated, ActiveChunkRows, WithState, Restorable, SwitchedTable;
    var out := SwitchWorkspaceAliases(db, store, workspaceId, e, f);
    if out.SwitchRaised? {
      return false;
    }
    UndoSwitch(old(store.aliases), e.read, e.write, e.indexName, store.indices.Keys);
    ValidatedExists(db, store.indices, workspaceId, e);
    SwitchTargets(old(store.aliases), e.read, e.write, e.indexName, store.indices.Keys, e.read);
    QueryIsSmoke(later, workspaceId, e2);
    var back := RestoreAliases(later, store, workspaceId, out.previous, e2, f2);
    restored := back.RestoredFrom?;
  }

  lemma QueryIsSmoke(db: Database, workspaceId: int, e: Setting)
    ensures var rows := ActiveChunkRows(db, workspaceId);
            rows.Some? ==> (SmokePasses(rows.value, e) <==> QueryFinds(rows.value, e.texts, e.searches))
  {
    hide ActiveChunkRows, Smoke, QueryFinds;
    var rows := ActiveChunkRows(db, workspaceId);
    if rows.Some? {
      SmokeMeaning(rows.value, e.texts, e.searches);
    }
  }

  lemma ValidatedExists(db: Database, indices: map<string, V2Index>, workspaceId: int, e: Setting)
    ensures (&& ActiveChunkRows(db, workspaceId).Some?
             && Validated(ActiveChunkRows(db, workspaceId).value, workspaceId, indices, e)) ==> e.indexName in indices
  {
  }

  /** What a completed switch has proved about the index it points at. */
  lemma SwitchedIndexIsRight(rows: seq<Chunk>, workspaceId: int, indices: map<string, V2Index>, e: Setting)
    ensures Validated(rows, workspaceId, indices, e) <==>
            e.indexName in indices && OneToOne(indices[e.indexName], ExpectedOf(rows, workspaceId), e.hash)
  {
    if e.indexName in indices {
      ValidationGate(indices[e.indexName], ExpectedOf(rows, workspaceId), e.hash, SAMPLE_LIMIT);
    }
  }
}
