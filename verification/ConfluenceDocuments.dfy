/** The documents a Confluence space yields: of one run, and of all runs from checkpoint to checkpoint. */
module ConfluenceDocuments {
  import opened Sequences
  import opened ConfluencePagination
  import opened ConfluenceDelivery
  import opened ConfluenceResume

  /** How often processing its page puts `o` out: a failure if the page does not convert, else its document if it is
      not stale, and each of its attachments whether it is stale or not. */
  ghost function Times(p: Pages, o: Output): nat {
    match o
    case Failure(i) => if i in p.fails then 1 else 0
    case PageDoc(i) => if i in p.fails || i in p.stale then 0 else 1
    case AttachmentDoc(i, name) => if i in p.fails || i !in p.attachments then 0 else multiset(p.attachments[i])[name]
  }

  ghost predicate OutputsOfPages(p: Pages, pages: seq<nat>, outputs: seq<Output>) {
    forall o :: multiset(outputs)[o] == multiset(pages)[o.page] * Times(p, o)
  }

  /** The outputs come page by page, and of one page the document, or the failure, comes first. */
  ghost predicate PageByPage(outputs: seq<Output>) {
    forall a, b :: 0 <= a < b < |outputs| ==>
      outputs[a].page <= outputs[b].page && (outputs[a].page == outputs[b].page ==> outputs[b].AttachmentDoc?)
  }

  lemma {:induction false} AttachmentCount(page: nat, names: seq<string>, o: Output)
    ensures multiset(AttachmentDocs(page, names))[o] ==
            if o.AttachmentDoc? && o.page == page then multiset(names)[o.name] else 0
  {
    if names == [] {
      assert AttachmentDocs(page, names) == [];
    } else {
      var n := |names| - 1;
      assert names == names[..n] + [names[n]];
      assert AttachmentDocs(page, names) == AttachmentDocs(page, names[..n]) + [AttachmentDoc(page, names[n])];
      AttachmentCount(page, names[..n], o);
    }
  }

  lemma OneCount(p: Pages, page: nat, o: Output)
    ensures multiset(OutputOf(p, page))[o] == if o.page == page then Times(p, o) else 0
  {
    if page in p.attachments {
      AttachmentCount(page, p.attachments[page], o);
    }
    hide AttachmentDocs;
  }

  lemma OutputsLast(p: Pages, pages: seq<nat>, o: Output)
    requires pages != []
    ensures var n := |pages| - 1;
            && multiset(OutputsOf(p, pages))[o]
               == multiset(OutputsOf(p, pages[..n]))[o] + multiset(OutputOf(p, pages[n]))[o]
            && multiset(pages)[o.page] == multiset(pages[..n])[o.page] + if pages[n] == o.page then 1 else 0
  {
    hide OutputOf, OutputsOf;
    var n := |pages| - 1;
    OutputsUnfold(p, pages);
    CountConcat(OutputsOf(p, pages[..n]), OutputOf(p, pages[n]), o);
    CountConcat(pages[..n], [pages[n]], o.page);
    assert pages[..n] + [pages[n]] == pages;
  }

  lemma OutputsUnfold(p: Pages, pages: seq<nat>)
    requires pages != []
    ensures OutputsOf(p, pages) == OutputsOf(p, pages[..|pages| - 1]) + OutputOf(p, pages[|pages| - 1])
  {
    hide OutputOf;
  }

  lemma {:induction false} OutputCount(p: Pages, pages: seq<nat>, o: Output)
    ensures multiset(OutputsOf(p, pages))[o] == multiset(pages)[o.page] * Times(p, o)
  {
    if pages != [] {
      hide OutputOf, OutputsOf, Times;
      var n := |pages| - 1;
      OutputCount(p, pages[..n], o);
      OneCount(p, pages[n], o);
      OutputsLast(p, pages, o);
      OneTimeMore(multiset(pages[..n])[o.page], multiset(pages)[o.page], Times(p, o),
                  multiset(OutputsOf(p, pages[..n]))[o], multiset(OutputsOf(p, pages))[o]);
    }
  }

  lemma OutputCounts(p: Pages, pages: seq<nat>)
    ensures OutputsOfPages(p, pages, OutputsOf(p, pages))
  {
    hide OutputsOf, Times;
    forall o ensures multiset(OutputsOf(p, pages))[o] == multiset(pages)[o.page] * Times(p, o) {
      OutputCount(p, pages, o);
    }
  }

  lemma OnePage(p: Pages, page: nat)
    ensures PageByPage(OutputOf(p, page)) && forall o :: o in OutputOf(p, page) ==> o.page == page
  {
  }

  lemma NoOutputs(p: Pages)
    ensures OutputsOf(p, []) == [] && PageByPage([])
  {
  }

  lemma IncreasingLast(pages: seq<nat>)
    requires Increasing(pages) && pages != []
    ensures var n := |pages| - 1;
            Increasing(pages[..n]) && (forall x :: x in pages[..n] ==> x < pages[n] && x in pages) && pages[n] in pages
  {
  }

  lemma {:induction false} OutputsInOrder(p: Pages, pages: seq<nat>)
    requires Increasing(pages)
    ensures PageByPage(OutputsOf(p, pages)) && forall o :: o in OutputsOf(p, pages) ==> o.page in pages
  {
    hide OutputOf, OutputsOf, PageByPage, Increasing;
    if pages == [] {
      NoOutputs(p);
    } else {
      var n := |pages| - 1;
      IncreasingLast(pages);
      OutputsInOrder(p, pages[..n]);
      OnePage(p, pages[n]);
      OutputsUnfold(p, pages);
      var before, more := OutputsOf(p, pages[..n]), OutputOf(p, pages[n]);
      InOrderTogether(before, more, pages[n]);
      forall o: Output | o in before + more ensures o.page in pages {
        assert o in before || o in more;
      }
    }
  }

  lemma InOrderTogether(before: seq<Output>, more: seq<Output>, page: nat)
    requires PageByPage(before) && PageByPage(more)
    requires (forall o :: o in before ==> o.page < page) && forall o :: o in more ==> o.page == page
    ensures PageByPage(before + more)
  {
    var all := before + more;
    forall a, b | 0 <= a < b < |all|
      ensures all[a].page <= all[b].page && (all[a].page == all[b].page ==> all[b].AttachmentDoc?)
    {
      if b < |before| {
        assert all[a] == before[a] && all[b] == before[b];
      } else if |before| <= a {
        assert all[a] == more[a - |before|] && all[b] == more[b - |before|];
      } else {
        assert all[a] in before && all[b] in more;
      }
    }
  }

  // ---------------------------------------------------------------- one run

  /** A run that returns a checkpoint has put out, for the pages it processed and for no others, what each of them
      calls for; it returns the URL it stopped with if there is more, and says otherwise that there is none. */
  lemma RunOutputs(s: Server, p: Pages, batchSize: nat, c: Checkpoint, outputs: seq<Output>, next: Option<Checkpoint>)
    requires ValidServer(s)
    requires Returns(p, Events(s, batchSize, QueryOf(c, batchSize)), c, RunFrom(s, p, batchSize, c), outputs, next)
    ensures var end := RunFrom(s, p, batchSize, c);
            var pages := Processed(Events(s, batchSize, QueryOf(c, batchSize)), end);
            && (next.None? <==> end.Raised?)
            && (end.Paused? ==> next == Some(Checkpoint(Some(end.url), c.hasMore)))
            && (end.Finished? ==> !next.value.hasMore)
            && (next.Some? ==>
                  && OutputsOfPages(p, pages, outputs)
                  && (forall i :: PageDoc(i) in outputs <==> i in pages && i !in p.fails && i !in p.stale)
                  && (forall i :: Failure(i) in outputs <==> i in pages && i in p.fails)
                  && (forall i, name :: AttachmentDoc(i, name) in outputs <==>
                        i in pages && i !in p.fails && i in p.attachments && name in p.attachments[i])
                  && (Distinct(pages) ==> Once(outputs)))
  {
    hide RunFrom, Events, Processed, QueryOf, OutputsOf;
    if next.Some? {
      var pages := Processed(Events(s, batchSize, QueryOf(c, batchSize)), RunFrom(s, p, batchSize, c));
      OutputCounts(p, pages);
      MembersByCount(p, pages, outputs);
    }
  }

  /** No page has two documents or two failures. */
  ghost predicate Once(outputs: seq<Output>) {
    forall i :: multiset(outputs)[PageDoc(i)] <= 1 && multiset(outputs)[Failure(i)] <= 1
  }

  lemma MembersByCount(p: Pages, pages: seq<nat>, outputs: seq<Output>)
    requires OutputsOfPages(p, pages, outputs)
    ensures forall i :: PageDoc(i) in outputs <==> i in pages && i !in p.fails && i !in p.stale
    ensures forall i :: Failure(i) in outputs <==> i in pages && i in p.fails
    ensures forall i, name :: AttachmentDoc(i, name) in outputs <==>
              i in pages && i !in p.fails && i in p.attachments && name in p.attachments[i]
    ensures Distinct(pages) ==> Once(outputs)
  {
    forall o: Output ensures o in outputs <==> o.page in pages && Times(p, o) > 0 {
      MemberByCount(p, pages, outputs, o);
    }
    forall i, name | i in p.attachments ensures name in p.attachments[i] <==> multiset(p.attachments[i])[name] > 0 {
      CountIn(p.attachments[i], name);
    }
    if Distinct(pages) {
      forall i ensures multiset(outputs)[PageDoc(i)] <= 1 && multiset(outputs)[Failure(i)] <= 1 {
        DistinctCount(pages, i);
        assert Times(p, PageDoc(i)) <= 1 && Times(p, Failure(i)) <= 1;
        AtMostOne(multiset(pages)[i], Times(p, PageDoc(i)));
        AtMostOne(multiset(pages)[i], Times(p, Failure(i)));
      }
    }
  }

  lemma MemberByCount(p: Pages, pages: seq<nat>, outputs: seq<Output>, o: Output)
    requires OutputsOfPages(p, pages, outputs)
    ensures o in outputs <==> o.page in pages && Times(p, o) > 0
  {
    hide Times;
    CountIn(outputs, o);
    CountIn(pages, o.page);
    ProductPositive(multiset(pages)[o.page], Times(p, o));
  }

  // ---------------------------------------------------------------- all runs

  /** All that is put out by running from checkpoint to checkpoint until one says there is no more; None if a run
      raises. */
  function AllOutputs(s: Server, p: Pages, batchSize: nat, c: Checkpoint): Option<seq<Output>>
    requires ValidServer(s)
    decreases s.n - QueryOf(c, batchSize).start
  {
    var end := RunFrom(s, p, batchSize, c);
    var now := OutputsOf(p, Processed(Events(s, batchSize, QueryOf(c, batchSize)), end));
    if end.Raised? then None
    else if end.Finished? then Some(now)
    else
      RunResumes(s, p, batchSize, c, end);
      var rest := AllOutputs(s, p, batchSize, Checkpoint(Some(end.url), c.hasMore));
      if rest.None? then None else Some(now + rest.value)
  }

  lemma {:induction false} OutputsConcat(p: Pages, a: seq<nat>, b: seq<nat>)
    ensures OutputsOf(p, a + b) == OutputsOf(p, a) + OutputsOf(p, b)
  {
    hide OutputOf;
    if b == [] {
      assert a + b == a;
    } else {
      var n := |b| - 1;
      assert (a + b)[..|a + b| - 1] == a + b[..n];
      OutputsConcat(p, a, b[..n]);
    }
  }

  lemma {:induction false} AllOutputsAre(s: Server, p: Pages, batchSize: nat, c: Checkpoint)
    requires ValidServer(s)
    ensures var pages := AllProcessed(s, p, batchSize, c);
            AllOutputs(s, p, batchSize, c) == if pages.None? then None else Some(OutputsOf(p, pages.value))
    decreases s.n - QueryOf(c, batchSize).start
  {
    hide OutputsOf, RunFrom, Processed, Events;
    var end := RunFrom(s, p, batchSize, c);
    if end.Paused? {
      RunResumes(s, p, batchSize, c, end);
      var later := Checkpoint(Some(end.url), c.hasMore);
      AllOutputsAre(s, p, batchSize, later);
      var rest := AllProcessed(s, p, batchSize, later);
      if rest.Some? {
        OutputsConcat(p, Processed(Events(s, batchSize, QueryOf(c, batchSize)), end), rest.value);
      }
    }
  }

  /** The runs together: every retrievable page from the start on has its document if it converts and is not stale, and
      its failure if it does not convert, whatever else fails. If no conversion fails, nothing is put out twice and
      all comes in order. */
  lemma ResumeDelivers(s: Server, p: Pages, batchSize: nat, c: Checkpoint)
    requires ValidServer(s) && OnlyServerErrors(s)
    requires var start := if c.nextPageUrl.Some? then c.nextPageUrl.value.start else 0;
             start <= s.n
    ensures AllOutputs(s, p, batchSize, c).Some?
    ensures var all := AllOutputs(s, p, batchSize, c).value;
            var start := if c.nextPageUrl.Some? then c.nextPageUrl.value.start else 0;
            && (forall i :: start <= i < s.n && i !in s.errors ==>
                  && (PageDoc(i) in all <==> i !in p.fails && i !in p.stale)
                  && (Failure(i) in all <==> i in p.fails)
                  && (forall name :: AttachmentDoc(i, name) in all <==>
                        i !in p.fails && i in p.attachments && name in p.attachments[i]))
            && ((forall i :: start <= i < s.n ==> i !in p.fails) ==> PageByPage(all) && Once(all))
  {
    hide AllOutputs, AllProcessed, OutputsOf, OutputOf;
    ResumeLosesNothing(s, p, batchSize, c);
    AllOutputsAre(s, p, batchSize, c);
    var pages := AllProcessed(s, p, batchSize, c).value;
    OutputCounts(p, pages);
    MembersByCount(p, pages, OutputsOf(p, pages));
    if Increasing(pages) {
      OutputsInOrder(p, pages);
      assert Distinct(pages);
    }
  }
}
