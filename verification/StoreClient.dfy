/** The Elasticsearch client as the scripts see it: one legacy index, changed in place, whose bulk
    calls may apply any part of what is submitted. */
module StoreClient {
  import opened Sequences
  import opened ChunkStores

  /** One bulk call: it answers or it raises, in both cases having applied every item submitted
      except the refused ones. */
  datatype BulkOutcome = Accepts(refused: set<ChunkId>) | Raises(refused: set<ChunkId>)

  function ChosenHit(refused: set<ChunkId>): Hit -> bool {
    (h: Hit) => h.id !in refused
  }

  function ApplyUpserts(hits: seq<Hit>, docs: seq<Hit>, refused: set<ChunkId>): seq<Hit> {
    if docs == [] then hits
    else
      var n := |docs| - 1;
      var before := ApplyUpserts(hits, docs[..n], refused);
      if docs[n].id !in refused then Upsert(before, docs[n]) else before
  }

  function SurvivesDelete(ids: seq<ChunkId>, refused: set<ChunkId>): Hit -> bool {
    (h: Hit) => !(h.id in ids && h.id !in refused)
  }

  function ApplyDeletes(hits: seq<Hit>, ids: seq<ChunkId>, refused: set<ChunkId>): seq<Hit> {
    Filter(SurvivesDelete(ids, refused), hits)
  }

  /** Deletes of documents that are not there are reported as errors, not as accepted. */
  function Deletable(hits: seq<Hit>, refused: set<ChunkId>): ChunkId -> bool {
    (id: ChunkId) => id !in refused && Found(hits, id)
  }

  class ChunkStore {
    var index: Index

    constructor (ix: Index)
      ensures index == ix
    {
      index := ix;
    }

    /** Creates the index unless it exists. `created` is what then stands behind the name. */
    method EnsureIndex(created: Resource)
      modifies this
      ensures index == if old(index).resource.Absent? then Index(created, []) else old(index)
    {
      if index.resource.Absent? {
        index := Index(created, []);
      }
    }

    /** `accepted` is None when the call raises. */
    method BulkUpsert(docs: seq<Hit>, outcome: BulkOutcome) returns (accepted: Option<nat>)
      modifies this
      ensures index == old(index).(hits := ApplyUpserts(old(index).hits, docs, outcome.refused))
      ensures accepted == if outcome.Raises? then None else Some(|Filter(ChosenHit(outcome.refused), docs)|)
    {
      var hits := index.hits;
      var count := 0;
      for i := 0 to |docs|
        invariant hits == ApplyUpserts(old(index).hits, docs[..i], outcome.refused)
        invariant count == |Filter(ChosenHit(outcome.refused), docs[..i])|
        invariant index == old(index)
      {
        assert docs[..i + 1] == docs[..i] + [docs[i]];
        FilterSnoc(ChosenHit(outcome.refused), docs[..i], docs[i]);
        if docs[i].id !in outcome.refused {
          hits := Upsert(hits, docs[i]);
          count := count + 1;
        }
      }
      assert docs[..|docs|] == docs;
      index := index.(hits := hits);
      accepted := if outcome.Raises? then None else Some(count);
    }

    /** An empty list makes no call. */
    method BulkDelete(ids: seq<ChunkId>, outcome: BulkOutcome) returns (accepted: Option<nat>)
      modifies this
      ensures index == old(index).(hits := ApplyDeletes(old(index).hits, ids, outcome.refused))
      ensures accepted == if ids != [] && outcome.Raises? then None
                          else Some(|Filter(Deletable(old(index).hits, outcome.refused), ids)|)
    {
      if ids == [] {
        FilterAll(SurvivesDelete(ids, outcome.refused), index.hits);
        return Some(0);
      }
      accepted := if outcome.Raises? then None else Some(|Filter(Deletable(index.hits, outcome.refused), ids)|);
      index := index.(hits := ApplyDeletes(index.hits, ids, outcome.refused));
    }
  }

  lemma UpsertNew(hits: seq<Hit>, h: Hit)
    requires !Found(hits, h.id)
    ensures Upsert(hits, h) == hits + [h]
  {
    FilterAll((k: Hit) => k.id != h.id, hits);
  }

  /** Upserting documents that are new, under pairwise different ids, only appends. */
  lemma {:induction false} UpsertsAppend(hits: seq<Hit>, docs: seq<Hit>, refused: set<ChunkId>)
    requires UniqueHits(docs) && forall h :: h in docs ==> !Found(hits, h.id)
    ensures ApplyUpserts(hits, docs, refused) == hits + Filter(ChosenHit(refused), docs)
  {
    hide Upsert, Found;
    if docs != [] {
      var n := |docs| - 1;
      var init, last := docs[..n], docs[n];
      assert docs == init + [last];
      assert last in docs && forall h :: h in init ==> h in docs;
      UpsertsAppend(hits, init, refused);
      FilterSnoc(ChosenHit(refused), init, last);
      StillNew(hits, init, last, refused);
      var before := Filter(ChosenHit(refused), init);
      if last.id !in refused {
        UpsertNew(hits + before, last);
        assert (hits + before) + [last] == hits + (before + [last]);
      }
    } else {
      assert hits + [] == hits;
    }
  }

  lemma StillNew(hits: seq<Hit>, init: seq<Hit>, last: Hit, refused: set<ChunkId>)
    requires UniqueHits(init + [last]) && !Found(hits, last.id)
    ensures !Found(hits + Filter(ChosenHit(refused), init), last.id)
  {
    FilterMembers(ChosenHit(refused), init);
    hide Filter;
    forall h | h in hits + Filter(ChosenHit(refused), init) ensures h.id != last.id {
      if h in hits {
        assert h.id == last.id ==> Found(hits, last.id);
      } else {
        assert h in init;
        var i :| 0 <= i < |init| && init[i] == h;
        assert (init + [last])[i] == h && (init + [last])[|init|] == last;
      }
    }
  }

  /** One call replaces: afterwards an id that was accepted has the document submitted, and only that; every other
      document stays, and nothing else is there. */
  lemma {:induction false} UpsertsReplace(hits: seq<Hit>, docs: seq<Hit>, refused: set<ChunkId>)
    requires UniqueHits(docs)
    ensures forall k :: k in ApplyUpserts(hits, docs, refused) <==>
              || (k in docs && k.id !in refused)
              || (k in hits && !(k.id in HitIds(docs) && k.id !in refused))
  {
    if docs != [] {
      var n := |docs| - 1;
      var init, last := docs[..n], docs[n];
      assert docs == init + [last];
      UpsertsReplace(hits, init, refused);
      var before := ApplyUpserts(hits, init, refused);
      FilterMembers((k: Hit) => k.id != last.id, before);
      assert forall k :: k in docs <==> k in init || k == last;
      assert HitIds(docs) == HitIds(init) + {last.id};
      forall k | k in init ensures k.id != last.id {
        var i :| 0 <= i < n && docs[i] == k;
      }
    }
  }
}
