/** The strict v2 index of one workspace: rebuild and the validation gate. */
module V2Validation {
  import opened Sequences
  import opened ChunkStores

  const SCHEMA_VERSION := "a02-content-exact-v2"

  const REQUIRED_FIELDS: set<string> := {"chunk_id", "file_id", "workspace_id", "workspace_slug", "content",
    "doc_type_kwd", "schema_version", "mapping_hash"}

  const ALLOWED_FIELDS: set<string> := {"chunk_id", "file_id", "workspace_id", "workspace_slug", "content",
    "doc_type_kwd", "content_with_weight", "mom_with_weight", "exact_terms", "schema_version", "mapping_hash"}

  datatype Value = Text(text: string) | Number(n: int) | Terms(terms: seq<string>) | Null

  type Fields = map<string, Value>

  /** A stored document: its `_id` and its source. */
  datatype V2Doc = V2Doc(id: ChunkId, fields: Fields)

  /** `contractOk`: the mapping read back is the strict v2 mapping. */
  datatype V2Index = V2Index(contractOk: bool, docs: seq<V2Doc>)

  /** The source as the scroll yields it: an absent chunk id is filled with the `_id`. */
  function ScrolledFields(d: V2Doc): Fields {
    if "chunk_id" in d.fields then d.fields else d.fields["chunk_id" := Text(d.id)]
  }

  /** A source whose chunk id is null or no text counts under the empty id. */
  function ScrolledId(d: V2Doc): ChunkId {
    var v := ScrolledFields(d)["chunk_id"];
    if v.Text? then v.text else ""
  }

  /** An unfinished transfer between workspaces: chunk and file disagree about who owns them. */
  predicate OwnershipMismatch(db: Database, workspaceId: int, c: Chunk) {
    && c.fileId in db.files && !db.files[c.fileId].deleted
    && (db.files[c.fileId].workspaceId == workspaceId) != (c.workspaceId == workspaceId)
  }

  function HasOwnershipMismatch(db: Database, workspaceId: int): Chunk -> bool {
    (c: Chunk) => OwnershipMismatch(db, workspaceId, c)
  }

  /** None when the workspace is unknown or its ownership is inconsistent: the source raises. */
  function ActiveChunkRows(db: Database, workspaceId: int): Option<seq<Chunk>> {
    if workspaceId !in db.workspaces then None
    else if Filter(HasOwnershipMismatch(db, workspaceId), db.chunks) != [] then None
    else Some(ActiveRows(db, workspaceId))
  }

  // ---------------------------------------------------------------- judging one source

  datatype Expectation = Expectation(fileId: int, workspaceId: int)

  predicate OwnedAs(f: Fields, e: Expectation) {
    && "file_id" in f && f["file_id"] == Number(e.fileId)
    && "workspace_id" in f && f["workspace_id"] == Number(e.workspaceId)
  }

  predicate FieldIs(f: Fields, name: string, v: string) {
    name in f && f[name] == Text(v)
  }

  function Lower(c: char): char {
    if 'A' <= c <= 'Z' then (c as int + 32) as char else c
  }

  predicate HasTo(name: string, i: nat)
    requires i + 1 < |name|
  {
    Lower(name[i]) == 't' && Lower(name[i + 1]) == 'o'
  }

  predicate HasKen(name: string, i: nat)
    requires i + 2 < |name|
  {
    Lower(name[i]) == 'k' && Lower(name[i + 1]) == 'e' && Lower(name[i + 2]) == 'n'
  }

  /** `"token" in name.lower()` */
  predicate HasToken(name: string) {
    exists i: nat :: i + 5 <= |name| && HasTo(name, i) && HasKen(name, i + 2)
  }

  predicate HasForbidden(f: Fields) {
    f.Keys - ALLOWED_FIELDS != {} || exists name :: name in f && HasToken(name)
  }

  /** No allowed name even contains a `t` followed by an `o`. */
  lemma NoTo(name: string, i: nat)
    requires name in ALLOWED_FIELDS && i + 1 < |name|
    ensures !HasTo(name, i)
  {
    if name == "content_with_weight" {
    } else if name == "mom_with_weight" {
    } else if name == "workspace_slug" {
    } else if name == "schema_version" {
    } else if name == "mapping_hash" {
    } else if name == "exact_terms" {
    } else if name == "workspace_id" {
    } else if name == "doc_type_kwd" {
    } else if name == "chunk_id" {
    } else if name == "file_id" {
    } else {
      assert name == "content";
    }
  }

  /** The token rule adds nothing to the rule against unknown fields. */
  lemma ForbiddenMeansUnknown(f: Fields)
    ensures HasForbidden(f) <==> !(f.Keys <= ALLOWED_FIELDS)
  {
    if f.Keys <= ALLOWED_FIELDS {
      forall name | name in f ensures !HasToken(name) {
        forall i: nat | i + 5 <= |name| ensures !HasTo(name, i) {
          NoTo(name, i);
        }
      }
      assert f.Keys - ALLOWED_FIELDS == {};
    }
  }

  /** What can be wrong with the source kept for one chunk id; only an expected chunk has an owner. */
  datatype Defect = WrongOwner | WrongSchema | WrongHash | FieldMissing | FieldForbidden

  predicate HasDefect(k: Defect, f: Fields, e: Option<Expectation>, hash: string) {
    match k
    case WrongOwner => e.Some? && !OwnedAs(f, e.value)
    case WrongSchema => !FieldIs(f, "schema_version", SCHEMA_VERSION)
    case WrongHash => !FieldIs(f, "mapping_hash", hash)
    case FieldMissing => !(REQUIRED_FIELDS <= f.Keys)
    case FieldForbidden => HasForbidden(f)
  }

  type Expected = map<ChunkId, Expectation>

  function ExpectationOf(expected: Expected, id: ChunkId): Option<Expectation> {
    if id in expected then Some(expected[id]) else None
  }

  function ExpectedOf(rows: seq<Chunk>, workspaceId: int): Expected {
    if rows == [] then map[]
    else ExpectedOf(rows[..|rows| - 1], workspaceId)[rows[|rows| - 1].chunkId :=
           Expectation(rows[|rows| - 1].fileId, workspaceId)]
  }

  /** The source kept for each id: the last one scrolled. */
  function Kept(docs: seq<V2Doc>): map<ChunkId, Fields> {
    if docs == [] then map[]
    else
      var n := |docs| - 1;
      Kept(docs[..n])[ScrolledId(docs[n]) := ScrolledFields(docs[n])]
  }

  /** The ids met again, as long as the list has room. */
  function Duplicates(docs: seq<V2Doc>, limit: nat): seq<ChunkId> {
    if docs == [] then []
    else
      var n := |docs| - 1;
      var before := Duplicates(docs[..n], limit);
      if ScrolledId(docs[n]) in Kept(docs[..n]) && |before| < limit then before + [ScrolledId(docs[n])] else before
  }

  function Defective(k: Defect, kept: map<ChunkId, Fields>, expected: Expected, hash: string): set<ChunkId> {
    set id | id in kept && HasDefect(k, kept[id], ExpectationOf(expected, id), hash)
  }

  /** The lists of chunk ids per defect. */
  datatype Mismatches = Mismatches(owner: set<ChunkId>, schema: set<ChunkId>, hash: set<ChunkId>,
                                   fieldMissing: set<ChunkId>, fieldForbidden: set<ChunkId>)

  datatype V2Report = V2Report(activeCount: nat, docCount: nat, mappingMismatches: nat, missing: nat, orphans: nat,
                               duplicates: nat, ownership: nat, schemaVersion: nat, mappingHash: nat,
                               missingRequired: nat, forbidden: nat, anomalyCount: nat)

  function ReportOf(contractOk: bool, expected: Expected, kept: map<ChunkId, Fields>, duplicates: nat,
                    wrong: Mismatches): V2Report
  {
    var mapping := if contractOk then 0 else 1;
    var missing := |expected.Keys - kept.Keys|;
    var orphans := |kept.Keys - expected.Keys|;
    V2Report(|expected|, |kept|, mapping, missing, orphans, duplicates,
             |wrong.owner|, |wrong.schema|, |wrong.hash|, |wrong.fieldMissing|, |wrong.fieldForbidden|,
             mapping + missing + orphans + duplicates + |wrong.owner| + |wrong.schema|
             + |wrong.hash| + |wrong.fieldMissing| + |wrong.fieldForbidden|)
  }

  /** The lists once every source but those of `todo` is looked at. */
  function MismatchesBut(kept: map<ChunkId, Fields>, expected: Expected, hash: string, todo: set<ChunkId>): Mismatches {
    Mismatches(Defective(WrongOwner, kept, expected, hash) - todo,
               Defective(WrongSchema, kept, expected, hash) - todo,
               Defective(WrongHash, kept, expected, hash) - todo,
               Defective(FieldMissing, kept, expected, hash) - todo,
               Defective(FieldForbidden, kept, expected, hash) - todo)
  }

  function Validation(ix: V2Index, expected: Expected, hash: string, limit: nat): V2Report {
    var kept := Kept(ix.docs);
    ReportOf(ix.contractOk, expected, kept, |Duplicates(ix.docs, limit)|, MismatchesBut(kept, expected, hash, {}))
  }

  method ScrollSources(docs: seq<V2Doc>, limit: nat) returns (actual: map<ChunkId, Fields>, duplicates: seq<ChunkId>)
    ensures actual == Kept(docs) && duplicates == Duplicates(docs, limit)
  {
    actual, duplicates := map[], [];
    for i := 0 to |docs|
      invariant actual == Kept(docs[..i]) && duplicates == Duplicates(docs[..i], limit)
    {
      assert docs[..i + 1][..i] == docs[..i];
      var id := ScrolledId(docs[i]);
      if id in actual && |duplicates| < limit {
        duplicates := duplicates + [id];
      }
      actual := actual[id := ScrolledFields(docs[i])];
    }
    assert docs[..|docs|] == docs;
  }

  lemma DefectStep(k: Defect, actual: map<ChunkId, Fields>, expected: Expected, hash: string, todo: set<ChunkId>,
                   id: ChunkId)
    requires id in todo && id in actual
    ensures Defective(k, actual, expected, hash) - (todo - {id}) ==
            if HasDefect(k, actual[id], ExpectationOf(expected, id), hash)
            then (Defective(k, actual, expected, hash) - todo) + {id}
            else Defective(k, actual, expected, hash) - todo
  {
    hide HasDefect;
  }

  lemma MismatchesStep(actual: map<ChunkId, Fields>, expected: Expected, hash: string, todo: set<ChunkId>, id: ChunkId)
    requires id in todo && id in actual
    ensures var m := MismatchesBut(actual, expected, hash, todo);
            var f := actual[id];
            var e := ExpectationOf(expected, id);
            MismatchesBut(actual, expected, hash, todo - {id}) ==
            Mismatches(if HasDefect(WrongOwner, f, e, hash) then m.owner + {id} else m.owner,
                       if HasDefect(WrongSchema, f, e, hash) then m.schema + {id} else m.schema,
                       if HasDefect(WrongHash, f, e, hash) then m.hash + {id} else m.hash,
                       if HasDefect(FieldMissing, f, e, hash) then m.fieldMissing + {id} else m.fieldMissing,
                       if HasDefect(FieldForbidden, f, e, hash) then m.fieldForbidden + {id} else m.fieldForbidden)
  {
    DefectStep(WrongOwner, actual, expected, hash, todo, id);
    DefectStep(WrongSchema, actual, expected, hash, todo, id);
    DefectStep(WrongHash, actual, expected, hash, todo, id);
    DefectStep(FieldMissing, actual, expected, hash, todo, id);
    DefectStep(FieldForbidden, actual, expected, hash, todo, id);
    hide HasDefect, Defective, ExpectationOf;
  }

  method CollectDefects(actual: map<ChunkId, Fields>, expected: Expected, hash: string) returns (wrong: Mismatches)
    ensures wrong == MismatchesBut(actual, expected, hash, {})
  {
    wrong := Mismatches({}, {}, {}, {}, {});
    var todo := actual.Keys;
    NoneLookedAt(actual, expected, hash);
    hide MismatchesBut, HasForbidden, OwnedAs, FieldIs;
    while todo != {}
      invariant todo <= actual.Keys
      invariant wrong == MismatchesBut(actual, expected, hash, todo)
      decreases |todo|
    {
      var id :| id in todo;
      var source := actual[id];
      MismatchesStep(actual, expected, hash, todo, id);
      if id in expected && !OwnedAs(source, expected[id]) {
        wrong := wrong.(owner := wrong.owner + {id});
      }
      if !FieldIs(source, "schema_version", SCHEMA_VERSION) {
        wrong := wrong.(schema := wrong.schema + {id});
      }
      if !FieldIs(source, "mapping_hash", hash) {
        wrong := wrong.(hash := wrong.hash + {id});
      }
      if !(REQUIRED_FIELDS <= source.Keys) {
        wrong := wrong.(fieldMissing := wrong.fieldMissing + {id});
      }
      if HasForbidden(source) {
        wrong := wrong.(fieldForbidden := wrong.fieldForbidden + {id});
      }
      todo := todo - {id};
    }
  }

  lemma NoneLookedAt(actual: map<ChunkId, Fields>, expected: Expected, hash: string)
    ensures MismatchesBut(actual, expected, hash, actual.Keys) == Mismatches({}, {}, {}, {}, {})
  {
    hide HasDefect;
    forall k: Defect ensures Defective(k, actual, expected, hash) - actual.Keys == {} {
    }
  }

  /** None: the source raises on an unknown workspace or inconsistent ownership. */
  method ValidateWorkspaceV2(db: Database, ix: V2Index, workspaceId: int, hash: string, sampleLimit: nat)
    returns (report: Option<V2Report>)
    ensures report ==
            if ActiveChunkRows(db, workspaceId).None? then None
            else Some(Validation(ix, ExpectedOf(ActiveRows(db, workspaceId), workspaceId), hash, sampleLimit))
  {
    var rows := ActiveChunkRows(db, workspaceId);
    if rows.None? {
      return None;
    }
    var expected := map[];
    for i := 0 to |rows.value|
      invariant expected == ExpectedOf(rows.value[..i], workspaceId)
    {
      assert rows.value[..i + 1][..i] == rows.value[..i];
      expected := expected[rows.value[i].chunkId := Expectation(rows.value[i].fileId, workspaceId)];
    }
    assert rows.value[..|rows.value|] == rows.value;
    var actual, duplicates := ScrollSources(ix.docs, sampleLimit);
    var wrong := CollectDefects(actual, expected, hash);
    report := Some(ReportOf(ix.contractOk, expected, actual, |duplicates|, wrong));
  }

  // ---------------------------------------------------------------- what zero anomalies mean

  ghost predicate Carries(f: Fields, name: string, v: Value) {
    name in f && f[name] == v
  }

  /** The fields every document must have. */
  ghost predicate HasRequired(f: Fields) {
    {"chunk_id", "file_id", "workspace_id", "workspace_slug", "content", "doc_type_kwd", "schema_version", "mapping_hash"}
    <= f.Keys
  }

  /** No field but those the strict mapping knows. */
  ghost predicate HasOnlyKnown(f: Fields) {
    f.Keys <= {"chunk_id", "file_id", "workspace_id", "workspace_slug", "content", "doc_type_kwd", "content_with_weight",
               "mom_with_weight", "exact_terms", "schema_version", "mapping_hash"}
  }

  ghost predicate NamesFile(f: Fields, e: Expectation) {
    Carries(f, "file_id", Number(e.fileId)) && Carries(f, "workspace_id", Number(e.workspaceId))
  }

  /** The source names its chunk's file and workspace, has the schema and the mapping of now, and the right fields. */
  ghost predicate RightSource(f: Fields, e: Expectation, hash: string) {
    && NamesFile(f, e)
    && Carries(f, "schema_version", Text("a02-content-exact-v2")) && Carries(f, "mapping_hash", Text(hash))
    && HasRequired(f) && HasOnlyKnown(f)
  }

  /** One right document per expected chunk, and no other. */
  ghost predicate OneToOne(ix: V2Index, expected: Expected, hash: string) {
    && ix.contractOk
    && DistinctIds(ix.docs)
    && (forall id :: id in expected ==> exists d :: d in ix.docs && ScrolledId(d) == id)
    && (forall d :: d in ix.docs ==> ScrolledId(d) in expected
                                     && RightSource(ScrolledFields(d), expected[ScrolledId(d)], hash))
  }

  lemma {:induction false} KeptFacts(docs: seq<V2Doc>)
    ensures forall id :: id in Kept(docs) <==> exists d :: d in docs && ScrolledId(d) == id
    ensures forall id :: id in Kept(docs) ==>
              exists d :: d in docs && ScrolledId(d) == id && Kept(docs)[id] == ScrolledFields(d)
  {
    if docs != [] {
      var n := |docs| - 1;
      KeptFacts(docs[..n]);
      assert docs == docs[..n] + [docs[n]];
    }
  }

  ghost predicate DistinctIds(docs: seq<V2Doc>) {
    forall i, j :: 0 <= i < j < |docs| ==> ScrolledId(docs[i]) != ScrolledId(docs[j])
  }

  lemma {:induction false} DuplicatesFacts(docs: seq<V2Doc>, limit: nat)
    requires limit > 0
    ensures Duplicates(docs, limit) == [] <==> DistinctIds(docs)
  {
    hide ScrolledId, ScrolledFields;
    if docs != [] {
      var n := |docs| - 1;
      DuplicatesFacts(docs[..n], limit);
      LastIsNew(docs);
    }
  }

  lemma LastIsNew(docs: seq<V2Doc>)
    requires docs != []
    ensures var n := |docs| - 1;
            DistinctIds(docs) <==> DistinctIds(docs[..n]) && ScrolledId(docs[n]) !in Kept(docs[..n])
  {
    hide ScrolledId, ScrolledFields, Kept;
    var n := |docs| - 1;
    KeptFacts(docs[..n]);
    if ScrolledId(docs[n]) in Kept(docs[..n]) {
      var d :| d in docs[..n] && ScrolledId(d) == ScrolledId(docs[n]);
      var i :| 0 <= i < n && docs[i] == d;
      assert ScrolledId(docs[i]) == ScrolledId(docs[n]);
    } else {
      forall i | 0 <= i < n ensures ScrolledId(docs[i]) != ScrolledId(docs[n]) {
        assert docs[i] in docs[..n];
      }
    }
  }

  lemma EmptyDifference(a: set<ChunkId>, b: set<ChunkId>)
    ensures |a - b| == 0 <==> a <= b
  {
    if a <= b {
      assert a - b == {};
    } else {
      var x :| x in a && x !in b;
      assert x in a - b;
    }
  }

  /** The counters vanish together exactly when what is kept is right. */
  ghost predicate KeptRight(kept: map<ChunkId, Fields>, expected: Expected, hash: string) {
    kept.Keys == expected.Keys && forall id :: id in kept ==> RightSource(kept[id], expected[id], hash)
  }

  lemma NoAnomaly(ix: V2Index, expected: Expected, hash: string, limit: nat)
    ensures Validation(ix, expected, hash, limit).anomalyCount == 0 <==>
            ix.contractOk && Duplicates(ix.docs, limit) == [] && KeptRight(Kept(ix.docs), expected, hash)
  {
    hide Kept, Duplicates, RightSource, Defective;
    var kept := Kept(ix.docs);
    EmptyDifference(expected.Keys, kept.Keys);
    EmptyDifference(kept.Keys, expected.Keys);
    if kept.Keys <= expected.Keys {
      NoDefects(kept, expected, hash);
    }
    assert forall k: Defect :: Defective(k, kept, expected, hash) - {} == Defective(k, kept, expected, hash);
  }

  lemma KeptRightIffOneToOne(ix: V2Index, expected: Expected, hash: string)
    requires DistinctIds(ix.docs)
    ensures OneToOne(ix, expected, hash) <==> ix.contractOk && KeptRight(Kept(ix.docs), expected, hash)
  {
    KeptFacts(ix.docs);
    KeptIsSource(ix.docs);
    hide Kept, RightSource, ScrolledId, ScrolledFields, DistinctIds;
    var kept := Kept(ix.docs);
    if KeptRight(kept, expected, hash) {
      forall d | d in ix.docs
        ensures ScrolledId(d) in expected && RightSource(ScrolledFields(d), expected[ScrolledId(d)], hash)
      {
        assert ScrolledId(d) in kept;
      }
    } else if OneToOne(ix, expected, hash) {
      OneToOneIsKeptRight(ix, expected, hash);
    }
  }

  lemma OneToOneIsKeptRight(ix: V2Index, expected: Expected, hash: string)
    requires OneToOne(ix, expected, hash)
    ensures KeptRight(Kept(ix.docs), expected, hash)
  {
    KeptFacts(ix.docs);
    hide Kept, RightSource, ScrolledId, ScrolledFields, DistinctIds;
    var kept := Kept(ix.docs);
    forall id | id in kept ensures id in expected && RightSource(kept[id], expected[id], hash) {
      var d :| d in ix.docs && ScrolledId(d) == id && kept[id] == ScrolledFields(d);
    }
    forall id | id in expected ensures id in kept {
      var d :| d in ix.docs && ScrolledId(d) == id;
    }
  }

  /** The gate: with room for at least one sample, no anomaly if and only if the index matches the active
      chunks one to one. */
  lemma ValidationGate(ix: V2Index, expected: Expected, hash: string, limit: nat)
    requires limit > 0
    ensures Validation(ix, expected, hash, limit).anomalyCount == 0 <==> OneToOne(ix, expected, hash)
  {
    DuplicatesFacts(ix.docs, limit);
    NoAnomaly(ix, expected, hash, limit);
    if DistinctIds(ix.docs) {
      KeptRightIffOneToOne(ix, expected, hash);
    }
    hide Validation, KeptRight, Duplicates, DistinctIds;
  }

  /** Without room for a sample, duplicates are not counted: then the gate passes exactly when the last
      document of each id is right, whatever else carries the same id. */
  lemma GateWithoutSamples(ix: V2Index, expected: Expected, hash: string)
    ensures Validation(ix, expected, hash, 0).anomalyCount == 0 <==>
            ix.contractOk && KeptRight(Kept(ix.docs), expected, hash)
  {
    NoAnomaly(ix, expected, hash, 0);
    NoRoomNoDuplicates(ix.docs);
  }

  /** Such an input: a document under an id that a right one carries too passes the gate without samples,
      whatever it holds, and does not pass it with any. */
  lemma HiddenDuplicate(other: V2Doc, right: V2Doc, expected: Expected, hash: string, limit: nat)
    requires OneToOne(V2Index(true, [right]), expected, hash) && ScrolledId(other) == ScrolledId(right) && limit > 0
    ensures var ix := V2Index(true, [other, right]);
            && !OneToOne(ix, expected, hash)
            && Validation(ix, expected, hash, 0).anomalyCount == 0
            && Validation(ix, expected, hash, limit).anomalyCount != 0
  {
    var ix := V2Index(true, [other, right]);
    OneToOneIsKeptRight(V2Index(true, [right]), expected, hash);
    LastKept(other, right);
    GateWithoutSamples(ix, expected, hash);
    ValidationGate(ix, expected, hash, limit);
    hide Validation, Kept, KeptRight, RightSource, ScrolledId, ScrolledFields;
    assert !DistinctIds(ix.docs) by {
      assert ScrolledId(ix.docs[0]) == ScrolledId(ix.docs[1]);
    }
  }

  lemma LastKept(other: V2Doc, right: V2Doc)
    requires ScrolledId(other) == ScrolledId(right)
    ensures Kept([other, right]) == Kept([right])
  {
    hide ScrolledId, ScrolledFields;
    assert [other, right][..1] == [other] && [other][..0] == [] && [right][..0] == [];
    assert Kept([other]) == map[ScrolledId(other) := ScrolledFields(other)];
    assert Kept([right]) == map[ScrolledId(right) := ScrolledFields(right)];
  }

  lemma {:induction false} NoRoomNoDuplicates(docs: seq<V2Doc>)
    ensures Duplicates(docs, 0) == []
  {
    if docs != [] {
      NoRoomNoDuplicates(docs[..|docs| - 1]);
    }
  }

  lemma KeptIsSource(docs: seq<V2Doc>)
    requires DistinctIds(docs)
    ensures forall d :: d in docs ==> ScrolledId(d) in Kept(docs) && Kept(docs)[ScrolledId(d)] == ScrolledFields(d)
  {
    KeptFacts(docs);
    forall d | d in docs ensures ScrolledId(d) in Kept(docs) && Kept(docs)[ScrolledId(d)] == ScrolledFields(d) {
      var e :| e in docs && ScrolledId(e) == ScrolledId(d) && Kept(docs)[ScrolledId(d)] == ScrolledFields(e);
      var i :| 0 <= i < |docs| && docs[i] == d;
      var j :| 0 <= j < |docs| && docs[j] == e;
      assert i == j;
    }
  }

  lemma NoDefects(kept: map<ChunkId, Fields>, expected: Expected, hash: string)
    requires kept.Keys <= expected.Keys
    ensures (|Defective(WrongOwner, kept, expected, hash)| + |Defective(WrongSchema, kept, expected, hash)|
             + |Defective(WrongHash, kept, expected, hash)| + |Defective(FieldMissing, kept, expected, hash)|
             + |Defective(FieldForbidden, kept, expected, hash)| == 0) <==>
            forall id :: id in kept ==> RightSource(kept[id], expected[id], hash)
  {
    forall id | id in kept
      ensures RightSource(kept[id], expected[id], hash) <==>
              forall k: Defect :: !HasDefect(k, kept[id], Some(expected[id]), hash)
    {
      DefectsOfSource(kept[id], expected[id], hash);
    }
    hide HasDefect, RightSource;
    forall k: Defect
      ensures |Defective(k, kept, expected, hash)| == 0 <==>
              forall id :: id in kept ==> !HasDefect(k, kept[id], Some(expected[id]), hash)
    {
      var wrong := Defective(k, kept, expected, hash);
      if |wrong| == 0 {
        forall id | id in kept ensures !HasDefect(k, kept[id], Some(expected[id]), hash) {
          assert id !in wrong;
        }
      } else {
        var id :| id in wrong;
      }
    }
    SumOfDefects(kept, expected, hash);
  }

  lemma SumOfDefects(kept: map<ChunkId, Fields>, expected: Expected, hash: string)
    ensures (|Defective(WrongOwner, kept, expected, hash)| + |Defective(WrongSchema, kept, expected, hash)|
             + |Defective(WrongHash, kept, expected, hash)| + |Defective(FieldMissing, kept, expected, hash)|
             + |Defective(FieldForbidden, kept, expected, hash)| == 0) <==>
            forall k: Defect :: |Defective(k, kept, expected, hash)| == 0
  {
    hide Defective;
    if forall k: Defect :: |Defective(k, kept, expected, hash)| == 0 {
      assert |Defective(WrongOwner, kept, expected, hash)| == |Defective(WrongSchema, kept, expected, hash)|
             == |Defective(WrongHash, kept, expected, hash)| == |Defective(FieldMissing, kept, expected, hash)|
             == |Defective(FieldForbidden, kept, expected, hash)| == 0;
    } else {
      var k: Defect :| |Defective(k, kept, expected, hash)| != 0;
      match k
      case WrongOwner =>
      case WrongSchema =>
      case WrongHash =>
      case FieldMissing =>
      case FieldForbidden =>
    }
  }

  lemma DefectsOfSource(f: Fields, e: Expectation, hash: string)
    ensures RightSource(f, e, hash) <==> forall k: Defect :: !HasDefect(k, f, Some(e), hash)
  {
    ForbiddenMeansUnknown(f);
    hide HasForbidden;
    if !RightSource(f, e, hash) {
      assert HasDefect(WrongOwner, f, Some(e), hash) || HasDefect(WrongSchema, f, Some(e), hash)
             || HasDefect(WrongHash, f, Some(e), hash) || HasDefect(FieldMissing, f, Some(e), hash)
             || HasDefect(FieldForbidden, f, Some(e), hash);
    }
  }

  // ---------------------------------------------------------------- what each counter counts

  /** The id a document counts under: its `_id` unless it has a field for it, which has to be a text. */
  lemma ScrolledMeaning(d: V2Doc)
    ensures "chunk_id" !in d.fields ==>
              ScrolledId(d) == d.id && ScrolledFields(d) == d.fields["chunk_id" := Text(d.id)]
    ensures "chunk_id" in d.fields ==>
              ScrolledFields(d) == d.fields
              && (forall t :: d.fields["chunk_id"] == Text(t) ==> ScrolledId(d) == t)
              && (!d.fields["chunk_id"].Text? ==> ScrolledId(d) == "")
  {
  }

  /** `f` is the source of the last document of its id. */
  ghost predicate LastOfId(docs: seq<V2Doc>, id: ChunkId, f: Fields) {
    exists i :: && 0 <= i < |docs| && ScrolledId(docs[i]) == id && ScrolledFields(docs[i]) == f
                && forall j :: i < j < |docs| ==> ScrolledId(docs[j]) != id
  }

  /** What is kept of the scroll is the last source of each id. */
  lemma {:induction false} KeptIsLast(docs: seq<V2Doc>)
    ensures forall id, f :: id in Kept(docs) && Kept(docs)[id] == f <==> LastOfId(docs, id, f)
  {
    hide ScrolledId, ScrolledFields;
    if docs != [] {
      var n := |docs| - 1;
      KeptIsLast(docs[..n]);
      forall id, f ensures id in Kept(docs) && Kept(docs)[id] == f <==> LastOfId(docs, id, f) {
        LastOfMore(docs, id, f);
      }
    }
  }

  lemma LastOfMore(docs: seq<V2Doc>, id: ChunkId, f: Fields)
    requires docs != []
    ensures var n := |docs| - 1;
            LastOfId(docs, id, f) <==>
            if ScrolledId(docs[n]) == id then ScrolledFields(docs[n]) == f else LastOfId(docs[..n], id, f)
  {
    hide ScrolledId, ScrolledFields;
    var n := |docs| - 1;
    if ScrolledId(docs[n]) != id && LastOfId(docs[..n], id, f) {
      var i :| && 0 <= i < n && ScrolledId(docs[..n][i]) == id && ScrolledFields(docs[..n][i]) == f
               && forall j :: i < j < n ==> ScrolledId(docs[..n][j]) != id;
      forall j | i < j < |docs| ensures ScrolledId(docs[j]) != id {
        assert j < n ==> docs[..n][j] == docs[j];
      }
      assert docs[i] == docs[..n][i];
    }
    if LastOfId(docs, id, f) && ScrolledId(docs[n]) != id {
      var i :| && 0 <= i < |docs| && ScrolledId(docs[i]) == id && ScrolledFields(docs[i]) == f
               && forall j :: i < j < |docs| ==> ScrolledId(docs[j]) != id;
      assert i < n && docs[..n][i] == docs[i];
      forall j | i < j < n ensures ScrolledId(docs[..n][j]) != id {
        assert docs[..n][j] == docs[j];
      }
    }
  }

  /** Every document that repeats an id is listed, as long as there is room. */
  lemma {:induction false} RepeatsListed(docs: seq<V2Doc>, limit: nat)
    ensures |Duplicates(docs, limit)| == Min(limit, |docs| - |Kept(docs)|)
    ensures |Kept(docs)| <= |docs|
  {
    hide ScrolledId, ScrolledFields;
    if docs != [] {
      RepeatsListed(docs[..|docs| - 1], limit);
    }
  }

  /** Each counter of the report, over the last source of each id. */
  lemma ValidationCounts(ix: V2Index, expected: Expected, hash: string, limit: nat)
    ensures var r := Validation(ix, expected, hash, limit);
            var kept := Kept(ix.docs);
            && r.activeCount == |expected| && r.docCount == |kept|
            && r.mappingMismatches == (if ix.contractOk then 0 else 1)
            && r.missing == |set id | id in expected && id !in kept|
            && r.orphans == |set id | id in kept && id !in expected|
            && r.duplicates == Min(limit, |ix.docs| - |kept|)
            && r.ownership == |set id | id in kept && id in expected && !NamesFile(kept[id], expected[id])|
            && r.schemaVersion == |set id | id in kept && !Carries(kept[id], "schema_version", Text("a02-content-exact-v2"))|
            && r.mappingHash == |set id | id in kept && !Carries(kept[id], "mapping_hash", Text(hash))|
            && r.missingRequired == |set id | id in kept && !HasRequired(kept[id])|
            && r.forbidden == |set id | id in kept && !HasOnlyKnown(kept[id])|
            && r.anomalyCount == r.mappingMismatches + r.missing + r.orphans + r.duplicates + r.ownership + r.schemaVersion
                                 + r.mappingHash + r.missingRequired + r.forbidden
  {
    hide Kept, Duplicates, Defective;
    var kept := Kept(ix.docs);
    RepeatsListed(ix.docs, limit);
    DefectsMean(kept, expected, hash);
    assert forall k: Defect :: Defective(k, kept, expected, hash) - {} == Defective(k, kept, expected, hash);
    assert expected.Keys - kept.Keys == set id | id in expected && id !in kept;
    assert kept.Keys - expected.Keys == set id | id in kept && id !in expected;
  }

  lemma DefectsMean(kept: map<ChunkId, Fields>, expected: Expected, hash: string)
    ensures Defective(WrongOwner, kept, expected, hash)
         == set id | id in kept && id in expected && !NamesFile(kept[id], expected[id])
    ensures Defective(WrongSchema, kept, expected, hash)
         == set id | id in kept && !Carries(kept[id], "schema_version", Text("a02-content-exact-v2"))
    ensures Defective(WrongHash, kept, expected, hash) == set id | id in kept && !Carries(kept[id], "mapping_hash", Text(hash))
    ensures Defective(FieldMissing, kept, expected, hash) == set id | id in kept && !HasRequired(kept[id])
    ensures Defective(FieldForbidden, kept, expected, hash) == set id | id in kept && !HasOnlyKnown(kept[id])
  {
    forall id | id in kept ensures HasForbidden(kept[id]) <==> !HasOnlyKnown(kept[id]) {
      ForbiddenMeansUnknown(kept[id]);
    }
    hide HasForbidden;
  }

  // ---------------------------------------------------------------- the rows asked for

  /** The chunk and its live file disagree about belonging to the workspace. */
  ghost predicate InTransfer(db: Database, workspaceId: int, c: Chunk) {
    && c.fileId in db.files && !db.files[c.fileId].deleted
    && ((c.workspaceId == workspaceId && db.files[c.fileId].workspaceId != workspaceId)
        || (c.workspaceId != workspaceId && db.files[c.fileId].workspaceId == workspaceId))
  }

  /** The rows are those of the active chunks; reading them raises exactly for an unknown workspace or an unfinished
      transfer. */
  lemma RowsMeaning(db: Database, workspaceId: int)
    requires ValidDb(db)
    ensures var rows := ActiveChunkRows(db, workspaceId);
            && (rows.None? <==> workspaceId !in db.workspaces || exists c :: c in db.chunks && InTransfer(db, workspaceId, c))
            && (rows.Some? ==>
                  && InRowOrder(rows.value)
                  && (forall c :: c in rows.value <==> c in db.chunks && Active(db, workspaceId, c)))
  {
    FilterMembers(HasOwnershipMismatch(db, workspaceId), db.chunks);
    SomeElement(Filter(HasOwnershipMismatch(db, workspaceId), db.chunks));
    FilterMembers(IsActive(db, workspaceId), db.chunks);
    ActiveRowsFacts(db, workspaceId);
    hide Filter, Active;
    assert forall c :: c in db.chunks ==> (HasOwnershipMismatch(db, workspaceId)(c) <==> InTransfer(db, workspaceId, c));
  }

  /** Each expected id is an active chunk's, with its file and the workspace. */
  lemma {:induction false} ExpectedFacts(rows: seq<Chunk>, workspaceId: int)
    requires forall i, j :: 0 <= i < j < |rows| ==> rows[i].chunkId != rows[j].chunkId
    ensures forall c :: c in rows ==> c.chunkId in ExpectedOf(rows, workspaceId)
                                      && ExpectedOf(rows, workspaceId)[c.chunkId] == Expectation(c.fileId, workspaceId)
    ensures forall id :: id in ExpectedOf(rows, workspaceId) ==> exists c :: c in rows && c.chunkId == id
  {
    if rows != [] {
      var n := |rows| - 1;
      ExpectedFacts(rows[..n], workspaceId);
      assert rows == rows[..n] + [rows[n]];
      forall c | c in rows[..n] ensures c.chunkId != rows[n].chunkId {
        var i :| 0 <= i < n && rows[i] == c;
      }
    }
  }
}
