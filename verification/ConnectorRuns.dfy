/** The batching driver of checkpointed connectors. */
module ConnectorRuns {
  import opened Sequences

  datatype Document = Document(id: string, content: string)

  /** The id of the document that failed, if the failure names one. */
  datatype Failure = Failure(documentId: Option<string>, message: string)

  datatype Item = Doc(document: Document) | Failed(failure: Failure)

  /** What the wrapper makes of a connector's generator: its items, then the checkpoint it returned. */
  datatype Step<C> = ItemStep(item: Item) | CheckpointStep(checkpoint: C)

  /** What the runner yields. */
  datatype Output<C> = Batch(documents: seq<Document>) | FailureOut(failure: Failure) | CheckpointOut(checkpoint: C)

  function DocsOf(items: seq<Item>): seq<Document> {
    if items == [] then []
    else (if items[0].Doc? then [items[0].document] else []) + DocsOf(items[1..])
  }

  function FailuresOf(items: seq<Item>): seq<Failure> {
    if items == [] then []
    else (if items[0].Failed? then [items[0].failure] else []) + FailuresOf(items[1..])
  }

  function BatchesOf<C>(outputs: seq<Output<C>>): seq<seq<Document>> {
    if outputs == [] then []
    else (if outputs[0].Batch? then [outputs[0].documents] else []) + BatchesOf(outputs[1..])
  }

  function FailuresOut<C>(outputs: seq<Output<C>>): seq<Failure> {
    if outputs == [] then []
    else (if outputs[0].FailureOut? then [outputs[0].failure] else []) + FailuresOut(outputs[1..])
  }

  /** One item with `pending` documents waiting: what is yielded, and what waits then. */
  function ItemOut<C>(pending: seq<Document>, item: Item, size: nat): (seq<Output<C>>, seq<Document>) {
    match item
    case Doc(d) => if |pending| + 1 >= size then ([Batch(pending + [d])], []) else ([], pending + [d])
    case Failed(f) => if |pending| >= size then ([FailureOut(f), Batch(pending)], []) else ([FailureOut(f)], pending)
  }

  function ItemsOut<C>(pending: seq<Document>, items: seq<Item>, size: nat): (seq<Output<C>>, seq<Document>)
    decreases |items|
  {
    if items == [] then ([], pending)
    else
      var (first, waiting) := ItemOut<C>(pending, items[0], size);
      var (rest, left) := ItemsOut<C>(waiting, items[1..], size);
      (first + rest, left)
  }

  lemma ItemsStep<C>(sofar: seq<Output<C>>, pending: seq<Document>, items: seq<Item>, size: nat)
    requires items != []
    ensures var (first, waiting) := ItemOut<C>(pending, items[0], size);
            && ItemsOut<C>(pending, items, size).1 == ItemsOut<C>(waiting, items[1..], size).1
            && sofar + ItemsOut<C>(pending, items, size).0
               == (sofar + first) + ItemsOut<C>(waiting, items[1..], size).0
  {
    hide ItemOut;
  }

  lemma NoItems<C>(pending: seq<Document>, size: nat)
    ensures ItemsOut<C>(pending, [], size) == ([], pending)
  {
  }

  class ConnectorRunner {
    const batchSize: nat
    var docBatch: seq<Document>

    constructor (batchSize: nat)
      ensures this.batchSize == batchSize && docBatch == []
    {
      this.batchSize := batchSize;
      docBatch := [];
    }

    /** `end` is the checkpoint the connector returned; None makes the wrapper raise after the items. */
    method Run<C>(items: seq<Item>, end: Option<C>) returns (outputs: seq<Output<C>>, raised: bool)
      requires batchSize > 0 && |docBatch| < batchSize
      modifies this
      ensures raised <==> end.None?
      ensures var (out, left) := ItemsOut<C>(old(docBatch), items, batchSize);
              if raised then outputs == out && docBatch == left
              else docBatch == []
                   && outputs == out + (if left != [] then [Batch(left)] else []) + [CheckpointOut(end.value)]
      ensures |docBatch| < batchSize
    {
      hide ItemsOut;
      outputs := [];
      var rest := items;
      assert [] + ItemsOut<C>(docBatch, items, batchSize).0 == ItemsOut<C>(docBatch, items, batchSize).0;
      while rest != []
        invariant |docBatch| < batchSize
        invariant ItemsOut<C>(old(docBatch), items, batchSize).0 == outputs + ItemsOut<C>(docBatch, rest, batchSize).0
        invariant ItemsOut<C>(old(docBatch), items, batchSize).1 == ItemsOut<C>(docBatch, rest, batchSize).1
        decreases |rest|
      {
        ItemsStep(outputs, docBatch, rest, batchSize);
        var item := rest[0];
        if item.Doc? {
          docBatch := docBatch + [item.document];
        }
        if item.Failed? {
          outputs := outputs + [FailureOut(item.failure)];
        }
        if |docBatch| >= batchSize {
          outputs := outputs + [Batch(docBatch)];
          docBatch := [];
        }
        rest := rest[1..];
      }
      NoItems<C>(docBatch, batchSize);
      if end.None? {
        return outputs, true;
      }
      if |docBatch| > 0 {
        outputs := outputs + [Batch(docBatch)];
        docBatch := [];
      }
      outputs := outputs + [CheckpointOut(end.value)];
      raised := false;
    }
  }

  // ---------------------------------------------------------------- conservation

  lemma {:induction false} BatchesConcat<C>(a: seq<Output<C>>, b: seq<Output<C>>)
    ensures BatchesOf(a + b) == BatchesOf(a) + BatchesOf(b)
    ensures FailuresOut(a + b) == FailuresOut(a) + FailuresOut(b)
  {
    hide BatchesOf, FailuresOut;
    if a == [] {
      assert a + b == b;
      NoOutput<C>();
    } else {
      BatchesConcat(a[1..], b);
      FirstOutput(a);
      FirstOutput(a + b);
      assert (a + b)[1..] == a[1..] + b && (a + b)[0] == a[0];
    }
  }

  lemma NoOutput<C>()
    ensures BatchesOf<C>([]) == [] && FailuresOut<C>([]) == []
  {
  }

  lemma FirstOutput<C>(a: seq<Output<C>>)
    requires a != []
    ensures BatchesOf(a) == (if a[0].Batch? then [a[0].documents] else []) + BatchesOf(a[1..])
    ensures FailuresOut(a) == (if a[0].FailureOut? then [a[0].failure] else []) + FailuresOut(a[1..])
  {
  }

  /** No document and no failure is lost, doubled or reordered; every batch is full; less than a batch waits. */
  lemma {:induction false} ItemsConserved<C>(pending: seq<Document>, items: seq<Item>, size: nat)
    requires size > 0 && |pending| < size
    ensures var (out, left) := ItemsOut<C>(pending, items, size);
            && Flatten(BatchesOf(out)) + left == pending + DocsOf(items)
            && FailuresOut(out) == FailuresOf(items)
            && (forall b :: b in BatchesOf(out) ==> |b| == size)
            && |left| < size
            && (forall o :: o in out ==> !o.CheckpointOut?)
    decreases |items|
  {
    if items == [] {
      assert pending + [] == pending;
    } else {
      var (first, waiting) := ItemOut<C>(pending, items[0], size);
      var (rest, left) := ItemsOut<C>(waiting, items[1..], size);
      var one := if items[0].Doc? then [items[0].document] else [];
      assert DocsOf(items) == one + DocsOf(items[1..]);
      OneItem<C>(pending, items[0], size);
      ItemsConserved<C>(waiting, items[1..], size);
      BatchesConcat(first, rest);
      FlattenConcat(BatchesOf(first), BatchesOf(rest));
      hide ItemOut, BatchesOf, FailuresOut, Flatten, DocsOf;
      Regroup(Flatten(BatchesOf(first)), Flatten(BatchesOf(rest)), left, waiting, pending, one, DocsOf(items[1..]));
    }
  }

  lemma Regroup(a: seq<Document>, b: seq<Document>, left: seq<Document>, waiting: seq<Document>, pending: seq<Document>,
                one: seq<Document>, more: seq<Document>)
    requires a + waiting == pending + one && b + left == waiting + more
    ensures (a + b) + left == pending + (one + more)
  {
    assert (a + b) + left == a + (b + left);
    assert a + (waiting + more) == (a + waiting) + more;
  }

  lemma OneItem<C>(pending: seq<Document>, item: Item, size: nat)
    requires size > 0 && |pending| < size
    ensures var (first, waiting) := ItemOut<C>(pending, item, size);
            && Flatten(BatchesOf(first)) + waiting == pending + (if item.Doc? then [item.document] else [])
            && FailuresOut(first) == (if item.Failed? then [item.failure] else [])
            && (forall b :: b in BatchesOf(first) ==> |b| == size)
            && |waiting| < size && (forall o :: o in first ==> !o.CheckpointOut?)
  {
    if item.Doc? && |pending| + 1 >= size {
      assert BatchesOf<C>([Batch(pending + [item.document])]) == [pending + [item.document]];
      assert Flatten([pending + [item.document]]) == pending + [item.document];
    }
  }

  /** What a run that ends in a checkpoint yields, starting with `pending` documents of an earlier run: all
      documents in order in full batches but for a last smaller one, all failures in order, and the
      checkpoint once, at the end. */
  lemma RunConserves<C>(pending: seq<Document>, items: seq<Item>, size: nat, checkpoint: C, outputs: seq<Output<C>>)
    requires size > 0 && |pending| < size
    requires var (out, left) := ItemsOut<C>(pending, items, size);
             outputs == out + (if left != [] then [Batch(left)] else []) + [CheckpointOut(checkpoint)]
    ensures Flatten(BatchesOf(outputs)) == pending + DocsOf(items)
    ensures FailuresOut(outputs) == FailuresOf(items)
    ensures var batches := BatchesOf(outputs);
            forall i :: 0 <= i < |batches| ==>
              0 < |batches[i]| <= size && (i < |batches| - 1 ==> |batches[i]| == size)
    ensures forall i :: 0 <= i < |outputs| ==> (outputs[i].CheckpointOut? <==> i == |outputs| - 1)
    ensures outputs[|outputs| - 1] == CheckpointOut(checkpoint)
  {
    hide ItemsOut, DocsOf, FailuresOf, BatchesOf, FailuresOut, Flatten;
    var (out, left) := ItemsOut<C>(pending, items, size);
    ItemsConserved<C>(pending, items, size);
    TailOutputs(out, left, checkpoint, outputs);
    BatchSizes(BatchesOf(out), left, size);
    CheckpointLast(out, left, checkpoint, outputs);
  }

  lemma BatchSizes(full: seq<seq<Document>>, left: seq<Document>, size: nat)
    requires (forall b :: b in full ==> |b| == size) && |left| < size
    ensures var batches := full + if left != [] then [left] else [];
            forall i :: 0 <= i < |batches| ==>
              0 < |batches[i]| <= size && (i < |batches| - 1 ==> |batches[i]| == size)
  {
    forall i | 0 <= i < |full| ensures |full[i]| == size {
      assert full[i] in full;
    }
  }

  lemma CheckpointLast<C>(out: seq<Output<C>>, left: seq<Document>, checkpoint: C, outputs: seq<Output<C>>)
    requires outputs == out + (if left != [] then [Batch(left)] else []) + [CheckpointOut(checkpoint)]
    requires forall o :: o in out ==> !o.CheckpointOut?
    ensures forall i :: 0 <= i < |outputs| ==> (outputs[i].CheckpointOut? <==> i == |outputs| - 1)
    ensures outputs[|outputs| - 1] == CheckpointOut(checkpoint)
  {
    forall i | 0 <= i < |outputs| ensures outputs[i].CheckpointOut? <==> i == |outputs| - 1 {
      assert i < |out| ==> outputs[i] == out[i] && out[i] in out;
    }
  }

  lemma TailOutputs<C>(out: seq<Output<C>>, left: seq<Document>, checkpoint: C, outputs: seq<Output<C>>)
    requires outputs == out + (if left != [] then [Batch(left)] else []) + [CheckpointOut(checkpoint)]
    ensures BatchesOf(outputs) == BatchesOf(out) + (if left != [] then [left] else [])
    ensures FailuresOut(outputs) == FailuresOut(out)
    ensures Flatten(BatchesOf(outputs)) == Flatten(BatchesOf(out)) + left
  {
    var tail: seq<Output<C>> := if left != [] then [Batch(left)] else [];
    var last: seq<Output<C>> := [CheckpointOut(checkpoint)];
    BatchesConcat(out + tail, last);
    BatchesConcat(out, tail);
    assert BatchesOf(last) == [] && FailuresOut(last) == [] && FailuresOut(tail) == [];
    var rest := if left != [] then [left] else [];
    assert BatchesOf(tail) == rest;
    FlattenConcat(BatchesOf(out), rest);
    assert Flatten(rest) == left;
  }

  // ---------------------------------------------------------------- batches of ids

  function IdOf(item: Item): Option<string> {
    match item
    case Doc(d) => Some(d.id)
    case Failed(f) => if f.documentId.Some? && f.documentId.value != "" then f.documentId else None
  }

  ghost function IdsOf(items: seq<Item>): set<string> {
    set i | i in items && IdOf(i).Some? :: IdOf(i).value
  }

  ghost function UnionOf(batches: seq<set<string>>): set<string> {
    set b, id | b in batches && id in b :: id
  }

  method BatchedDocIds(items: seq<Item>, batchSize: nat) returns (batches: seq<set<string>>)
    requires batchSize > 0
    ensures UnionOf(batches) == IdsOf(items)
    ensures forall i :: 0 <= i < |batches| ==>
              0 < |batches[i]| <= batchSize && (i < |batches| - 1 ==> |batches[i]| == batchSize)
  {
    hide IdOf, IdsOf, UnionOf;
    batches := [];
    var batch: set<string> := {};
    NoIds(items);
    for i := 0 to |items|
      invariant |batch| < batchSize
      invariant UnionOf(batches) + batch == IdsOf(items[..i])
      invariant forall b :: b in batches ==> |b| == batchSize
    {
      IdsSnoc(items, i);
      var id := IdOf(items[i]);
      if id.None? {
        continue;
      }
      IdAdded(UnionOf(batches), batch, id.value);
      batch := batch + {id.value};
      if |batch| >= batchSize {
        UnionSnoc(batches, batch);
        batches := batches + [batch];
        batch := {};
      }
    }
    assert items[..|items|] == items;
    if |batch| > 0 {
      UnionSnoc(batches, batch);
      batches := batches + [batch];
    }
  }

  lemma IdAdded(full: set<string>, batch: set<string>, id: string)
    ensures (full + batch) + {id} == full + (batch + {id})
    ensures |batch + {id}| <= |batch| + 1
    ensures (full + (batch + {id})) + {} == full + (batch + {id})
  {
    if id in batch {
      assert batch + {id} == batch;
    }
  }

  lemma NoIds(items: seq<Item>)
    ensures UnionOf([]) == {} && IdsOf(items[..0]) == {}
  {
  }

  lemma IdsSnoc(items: seq<Item>, i: nat)
    requires i < |items|
    ensures IdsOf(items[..i + 1]) == IdsOf(items[..i]) + if IdOf(items[i]).Some? then {IdOf(items[i]).value} else {}
  {
    hide IdOf;
    assert items[..i + 1] == items[..i] + [items[i]];
  }

  lemma UnionSnoc(batches: seq<set<string>>, batch: set<string>)
    ensures UnionOf(batches + [batch]) == UnionOf(batches) + batch
  {
  }

  /** The ids seen are those of the documents, and those of the failures that name one. */
  lemma IdsMeaning(items: seq<Item>)
    ensures forall id :: id in IdsOf(items) <==>
              || (exists d :: Doc(d) in items && d.id == id)
              || (id != "" && exists f :: Failed(f) in items && f.documentId == Some(id))
  {
    forall id | id in IdsOf(items)
      ensures (exists d :: Doc(d) in items && d.id == id)
              || (id != "" && exists f :: Failed(f) in items && f.documentId == Some(id))
    {
      var i :| i in items && IdOf(i) == Some(id);
      if i.Doc? {
        assert Doc(i.document) in items;
      } else {
        assert Failed(i.failure) in items;
      }
    }
  }
}
