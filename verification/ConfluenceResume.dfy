/** Fetching a Confluence space from checkpoint to checkpoint. */
module ConfluenceResume {
  import opened Sequences
  import opened ConfluencePagination
  import opened ConfluenceDelivery

  /** `nextPageUrl` is None when the source's field is null or empty: it treats both alike. */
  datatype Checkpoint = Checkpoint(nextPageUrl: Option<Url>, hasMore: bool)

  const DUMMY: Checkpoint := Checkpoint(None, true)

  /** What becomes of each page: those whose conversion fails, those too old for the window, and the documents
      of their attachments. */
  datatype Pages = Pages(fails: set<nat>, stale: set<nat>, attachments: map<nat, seq<string>>)

  datatype Output = PageDoc(page: nat) | AttachmentDoc(page: nat, name: string) | Failure(page: nat)

  /** How one run's reading of the pages ends, and with which event. */
  datatype End = Finished | Paused(at: nat, url: Url) | Raised

  const WITH_CALLBACK: Mode := Mode(true, false)

  function LimitOf(batchSize: nat): (limit: nat)
    ensures limit > 0
  {
    if batchSize == 0 then DEFAULT_PAGINATION_LIMIT else batchSize
  }

  function QueryOf(c: Checkpoint, batchSize: nat): Url {
    if c.nextPageUrl.Some? then c.nextPageUrl.value else Url(0, batchSize, true)
  }

  function AttachmentDocs(page: nat, names: seq<string>): seq<Output> {
    seq(|names|, i requires 0 <= i < |names| => AttachmentDoc(page, names[i]))
  }

  function OutputOf(p: Pages, page: nat): seq<Output> {
    if page in p.fails then [Failure(page)]
    else (if page in p.stale then [] else [PageDoc(page)])
         + (if page in p.attachments then AttachmentDocs(page, p.attachments[page]) else [])
  }

  function OutputsOf(p: Pages, pages: seq<nat>): seq<Output> {
    if pages == [] then [] else OutputsOf(p, pages[..|pages| - 1]) + OutputOf(p, pages[|pages| - 1])
  }

  /** Reading on from event `k`, with `pending` stored in the checkpoint. */
  function Consume(p: Pages, query: Url, events: seq<Event>, k: nat, pending: Option<Url>): End
    requires k <= |events|
    decreases |events| - k
  {
    if k == |events| then Finished
    else
      match events[k]
      case Raise => Raised
      case Callback(url) => Consume(p, query, events, k + 1, url)
      case Yield(page) =>
        if page !in p.fails && pending.Some? && pending.value != query then Paused(k, pending.value)
        else Consume(p, query, events, k + 1, pending)
  }

  function Events(s: Server, batchSize: nat, query: Url): seq<Event>
    requires ValidServer(s)
  {
    Trace(s, WITH_CALLBACK, LimitOf(batchSize), query.(limit := LimitOf(batchSize)))
  }

  function RunFrom(s: Server, p: Pages, batchSize: nat, c: Checkpoint): End
    requires ValidServer(s)
  {
    var query := QueryOf(c, batchSize);
    Consume(p, query, Events(s, batchSize, query), 0, c.nextPageUrl)
  }

  /** The pages a run has processed when it ends. */
  function Processed(events: seq<Event>, end: End): seq<nat> {
    YieldsOf(if end.Paused? && end.at < |events| then events[..end.at + 1] else events)
  }

  /** What a run that ends with `end` has yielded and returns. */
  predicate Returns(p: Pages, events: seq<Event>, checkpoint: Checkpoint, end: End, outputs: seq<Output>,
                    next: Option<Checkpoint>)
  {
    match end
    case Raised => next.None?
    case Paused(at, url) =>
      at < |events| && outputs == OutputsOf(p, Processed(events, end))
      && next == Some(Checkpoint(Some(url), checkpoint.hasMore))
    case Finished => outputs == OutputsOf(p, Processed(events, end)) && next.Some? && !next.value.hasMore
  }

  /** A page's own document, then those of its attachments; or its failure. */
  method ConvertPage(p: Pages, page: nat) returns (outputs: seq<Output>)
    ensures outputs == OutputOf(p, page)
  {
    if page in p.fails {
      return [Failure(page)];
    }
    outputs := [];
    if page !in p.stale {
      outputs := outputs + [PageDoc(page)];
    }
    if page in p.attachments {
      outputs := outputs + AttachmentDocs(page, p.attachments[page]);
    }
  }

  function OutputBy(p: Pages, events: seq<Event>, k: nat): seq<Output>
    requires k <= |events|
  {
    OutputsOf(p, YieldsOf(events[..k]))
  }

  /** The generator is read lazily: what it would deliver after the run returned is never asked for. */
  method FetchDocumentBatches(s: Server, p: Pages, batchSize: nat, checkpoint: Checkpoint)
    returns (outputs: seq<Output>, next: Option<Checkpoint>)
    requires ValidServer(s)
    ensures Returns(p, Events(s, batchSize, QueryOf(checkpoint, batchSize)), checkpoint,
                    RunFrom(s, p, batchSize, checkpoint), outputs, next)
  {
    hide OutputBy, Trace, Yields, YieldsOf, OutputsOf, OutputOf, Consume, Range, Returns, Processed, RunFrom, FirstError, Events, QueryOf;
    var nextPageUrl := checkpoint.nextPageUrl;
    var query := QueryOf(checkpoint, batchSize);
    var events := PaginateUrl(s, query, Some(batchSize), WITH_CALLBACK);
    EventsAre(s, batchSize, query, events);
    outputs := [];
    RunStarts(s, p, batchSize, checkpoint, events);
    for k := 0 to |events|
      invariant RunFrom(s, p, batchSize, checkpoint) == Consume(p, query, events, k, nextPageUrl)
      invariant outputs == OutputBy(p, events, k)
    {
      OutputStep(p, events, k);
      ConsumeStep(p, query, events, k, nextPageUrl);
      match events[k]
      case Raise =>
        RaisedReturns(p, events, checkpoint, outputs);
        return outputs, None;
      case Callback(url) => nextPageUrl := url;
      case Yield(page) =>
        var converted := ConvertPage(p, page);
        outputs := outputs + converted;
        if page in p.fails {
          continue;
        }
        if nextPageUrl.Some? && nextPageUrl.value != query {
          PausedReturns(p, events, checkpoint, k, nextPageUrl.value, outputs);
          return outputs, Some(Checkpoint(nextPageUrl, checkpoint.hasMore));
        }
    }
    ConsumeEnds(p, query, events, nextPageUrl);
    FinishedReturns(p, events, checkpoint, nextPageUrl, outputs);
    next := Some(Checkpoint(nextPageUrl, false));
  }

  lemma EventsAre(s: Server, batchSize: nat, query: Url, events: seq<Event>)
    requires ValidServer(s)
    requires var limit := if batchSize == 0 then DEFAULT_PAGINATION_LIMIT else batchSize;
             events == Trace(s, WITH_CALLBACK, limit, query.(limit := limit))
    ensures events == Events(s, batchSize, query)
  {
  }

  lemma RunStarts(s: Server, p: Pages, batchSize: nat, c: Checkpoint, events: seq<Event>)
    requires ValidServer(s) && events == Events(s, batchSize, QueryOf(c, batchSize))
    ensures RunFrom(s, p, batchSize, c) == Consume(p, QueryOf(c, batchSize), events, 0, c.nextPageUrl)
    ensures OutputBy(p, events, 0) == []
  {
  }

  lemma PausedReturns(p: Pages, events: seq<Event>, c: Checkpoint, at: nat, url: Url, outputs: seq<Output>)
    requires at < |events| && outputs == OutputBy(p, events, at + 1)
    ensures Returns(p, events, c, Paused(at, url), outputs, Some(Checkpoint(Some(url), c.hasMore)))
  {
  }

  lemma RaisedReturns(p: Pages, events: seq<Event>, c: Checkpoint, outputs: seq<Output>)
    ensures Returns(p, events, c, Raised, outputs, None)
  {
  }

  lemma FinishedReturns(p: Pages, events: seq<Event>, c: Checkpoint, pending: Option<Url>, outputs: seq<Output>)
    requires outputs == OutputBy(p, events, |events|)
    ensures Returns(p, events, c, Finished, outputs, Some(Checkpoint(pending, false)))
  {
    assert events[..|events|] == events;
  }

  lemma ConsumeStep(p: Pages, query: Url, events: seq<Event>, k: nat, pending: Option<Url>)
    requires k < |events|
    ensures var end := Consume(p, query, events, k, pending);
            match events[k]
            case Raise => end == Raised
            case Callback(url) => end == Consume(p, query, events, k + 1, url)
            case Yield(page) =>
              if page !in p.fails && pending.Some? && pending.value != query then end == Paused(k, pending.value)
              else end == Consume(p, query, events, k + 1, pending)
  {
  }

  lemma ConsumeEnds(p: Pages, query: Url, events: seq<Event>, pending: Option<Url>)
    ensures Consume(p, query, events, |events|, pending) == Finished
  {
  }

  lemma YieldsSnoc(events: seq<Event>, event: Event)
    ensures YieldsOf(events + [event]) == YieldsOf(events) + if event.Yield? then [event.index] else []
  {
    YieldsConcat(events, [event]);
    assert YieldsOf([event]) == if event.Yield? then [event.index] else [];
  }

  lemma OutputStep(p: Pages, events: seq<Event>, k: nat)
    requires k < |events|
    ensures OutputBy(p, events, k + 1)
         == OutputBy(p, events, k) + if events[k].Yield? then OutputOf(p, events[k].index) else []
  {
    assert events[..k + 1] == events[..k] + [events[k]];
    YieldsSnoc(events[..k], events[k]);
    if events[k].Yield? {
      var before := YieldsOf(events[..k]);
      assert (before + [events[k].index])[..|before|] == before;
    } else {
      assert YieldsOf(events[..k]) + [] == YieldsOf(events[..k]);
    }
  }

  // ---------------------------------------------------------------- what a checkpoint stands for

  ghost predicate Announces(event: Event) {
    event.Callback? && event.url.Some?
  }

  /** If a next-page URL is announced at `k`, the last item of its page follows, and then what fetching from
      the URL delivers. An empty URL is announced only at the very end. */
  ghost predicate Resumes(s: Server, limit: nat, url: Url, events: seq<Event>, k: nat)
    requires ValidServer(s) && limit > 0 && url.limit > 0 && k < |events|
  {
    && (events[k] == Callback(None) ==> k == |events| - 1)
    && (Announces(events[k]) ==>
         var next := events[k].url.value;
         && url.start < next.start <= s.n && next.limit == url.limit
         && k + 1 < |events| && events[k + 1] == Yield(next.start - 1)
         && events[k + 2..] == Trace(s, WITH_CALLBACK, limit, next))
  }

  lemma {:induction false} CallbackResumes(s: Server, limit: nat, url: Url, k: nat)
    requires ValidServer(s) && limit > 0 && url.limit > 0 && k < |Trace(s, WITH_CALLBACK, limit, url)|
    ensures Resumes(s, limit, url, Trace(s, WITH_CALLBACK, limit, url), k)
    decreases s.n - url.start, if url.heavy then 1 else 0
  {
    hide Trace, OneByOne, PageEvents, Get, Range, Taken, NextUrl, Link;
    TraceStep(s, WITH_CALLBACK, limit, url, []);
    var trace := Trace(s, WITH_CALLBACK, limit, url);
    assert [] + trace == trace;
    match Get(s, url)
    case Failed(status) =>
      if url.heavy {
        CallbackResumes(s, limit, url.(heavy := false), k);
      } else if status == 500 {
        var (events, empty) := OneByOne(s, false, url.start, limit);
        RecoveryEnds(s, url.start, limit);
        assert [] + events == events;
        assert forall i :: 0 <= i < |events| ==> events[i] in events;
        if !empty && k >= |events| {
          var next := url.(start := url.start + limit);
          CallbackResumes(s, limit, next, k - |events|);
          ResumesLater(s, limit, url, next, events, Trace(s, WITH_CALLBACK, limit, next), k);
        }
      }
    case Page(results, _) =>
      if results != [] {
        var next := NextUrl(s, WITH_CALLBACK, url);
        var page := PageEvents(s, WITH_CALLBACK, url);
        assert [] + page == page;
        PageCallback(s, url);
        if k < |page| {
          ResumesHere(s, limit, url, page, if next.None? then [] else Trace(s, WITH_CALLBACK, limit, next.value), k);
        } else {
          CallbackResumes(s, limit, next.value, k - |page|);
          ResumesLater(s, limit, url, next.value, page, Trace(s, WITH_CALLBACK, limit, next.value), k);
        }
      }
  }

  lemma ResumesLater(s: Server, limit: nat, url: Url, next: Url, front: seq<Event>, rest: seq<Event>, k: nat)
    requires ValidServer(s) && limit > 0 && url.limit > 0 && |front| <= k < |front| + |rest|
    requires next.limit == url.limit && url.start <= next.start && Resumes(s, limit, next, rest, k - |front|)
    ensures Resumes(s, limit, url, front + rest, k)
  {
    hide Trace;
    if Announces((front + rest)[k]) {
      assert (front + rest)[k + 2..] == rest[k - |front| + 2..];
    }
  }

  lemma ResumesHere(s: Server, limit: nat, url: Url, page: seq<Event>, rest: seq<Event>, k: nat)
    requires ValidServer(s) && limit > 0 && url.limit > 0 && k < |page|
    requires page[k].Callback? ==>
               && k == |page| - 2 && page[k].url.Some? && url.start < page[k].url.value.start <= s.n
               && page[k].url.value.limit == url.limit && page[k + 1] == Yield(page[k].url.value.start - 1)
               && rest == Trace(s, WITH_CALLBACK, limit, page[k].url.value)
    ensures Resumes(s, limit, url, page + rest, k)
  {
    hide Trace;
    if page[k].Callback? {
      assert (page + rest)[k + 2..] == rest;
    }
  }

  /** Where the callback stands in its page. */
  lemma PageCallback(s: Server, url: Url)
    requires ValidServer(s) && Taken(s, url) > 0
    ensures NextUrl(s, WITH_CALLBACK, url).Some? ==>
              var next := NextUrl(s, WITH_CALLBACK, url).value;
              next.limit == url.limit && url.start < next.start <= s.n
    ensures var page := PageEvents(s, WITH_CALLBACK, url);
            var next := NextUrl(s, WITH_CALLBACK, url);
            forall k :: 0 <= k < |page| && page[k].Callback? ==>
              && k == |page| - 2 && page[k].url == next && next.Some? && next.value.limit == url.limit
              && url.start < next.value.start <= s.n
              && page[k + 1] == Yield(next.value.start - 1)
  {
  }

  /** A run pauses with the URL announced last, unless it is the one it started with; nothing that was
      delivered since the announcement has been converted. */
  lemma {:induction false} PauseOrigin(p: Pages, query: Url, events: seq<Event>, k: nat, pending: Option<Url>)
    returns (j: int)
    requires k <= |events| && Consume(p, query, events, k, pending).Paused?
    ensures var end := Consume(p, query, events, k, pending);
            && k - 1 <= j < end.at < |events| && events[end.at].Yield? && end.url != query
            && events[end.at].index !in p.fails
            && (if j < k then pending == Some(end.url) else events[j] == Callback(Some(end.url)))
            && (forall i :: k <= i < end.at && j < i && events[i].Yield? ==> events[i].index in p.fails)
    decreases |events| - k
  {
    ConsumeStep(p, query, events, k, pending);
    hide Consume;
    match events[k]
    case Callback(url) => j := PauseOrigin(p, query, events, k + 1, url);
    case Yield(page) =>
      j := k - 1;
      if page in p.fails || pending.None? || pending.value == query {
        j := PauseOrigin(p, query, events, k + 1, pending);
        j := if j == k then k - 1 else j;
      }
  }

  /** If no conversion fails it pauses right after the first page that announces a next one. */
  lemma {:induction false} PausesAtOnce(p: Pages, query: Url, events: seq<Event>, k: nat, pending: Option<Url>)
    requires k <= |events| && (pending.None? || pending.value == query)
    requires Consume(p, query, events, k, pending).Paused?
    requires Converts(p, events)
    requires forall i :: 0 <= i < |events| && Announces(events[i]) ==>
               events[i].url.value != query && i + 1 < |events| && events[i + 1].Yield?
    ensures var end := Consume(p, query, events, k, pending);
            k < end.at < |events| && events[end.at - 1] == Callback(Some(end.url))
    decreases |events| - k
  {
    ConsumeStep(p, query, events, k, pending);
    match events[k]
    case Callback(url) =>
      if url.Some? {
        assert Announces(events[k]);
        ConsumeStep(p, query, events, k + 1, url);
      } else {
        PausesAtOnce(p, query, events, k + 1, url);
      }
    case Yield(page) => PausesAtOnce(p, query, events, k + 1, pending);
  }

  lemma {:induction false} NeverRaises(p: Pages, query: Url, events: seq<Event>, k: nat, pending: Option<Url>)
    requires k <= |events| && Consume(p, query, events, k, pending).Raised?
    ensures Raise in events
    decreases |events| - k
  {
    match events[k]
    case Raise =>
    case Callback(url) => NeverRaises(p, query, events, k + 1, url);
    case Yield(page) => NeverRaises(p, query, events, k + 1, pending);
  }

  lemma YieldsAt(events: seq<Event>, k: nat)
    requires k < |events|
    ensures YieldsOf(events) == YieldsOf(events[..k + 1]) + YieldsOf(events[k + 1..])
  {
    assert events == events[..k + 1] + events[k + 1..];
    YieldsConcat(events[..k + 1], events[k + 1..]);
  }

  ghost predicate Converts(p: Pages, events: seq<Event>) {
    forall i :: 0 <= i < |events| && events[i].Yield? ==> events[i].index !in p.fails
  }

  /** A run that returns a checkpoint has moved the offset on, and what it has processed and what the checkpoint
      stands for together cover everything. */
  lemma RunResumes(s: Server, p: Pages, batchSize: nat, c: Checkpoint, end: End)
    requires ValidServer(s) && end == RunFrom(s, p, batchSize, c) && end.Paused?
    ensures var events := Events(s, batchSize, QueryOf(c, batchSize));
            && QueryOf(c, batchSize).start < end.url.start <= s.n && end.at < |events|
            && forall i :: i in YieldsOf(events) ==>
                 i in Processed(events, end) || i in YieldsOf(Events(s, batchSize, end.url))
  {
    hide Trace, Consume, YieldsOf, RunFrom;
    var query := QueryOf(c, batchSize);
    var url := query.(limit := LimitOf(batchSize));
    var events := Events(s, batchSize, query);
    RunStarts(s, p, batchSize, c, events);
    var j := PauseOrigin(p, query, events, 0, c.nextPageUrl);
    CallbackResumes(s, LimitOf(batchSize), url, j);
    assert end.url.(limit := LimitOf(batchSize)) == end.url;
    PauseCovers(events, j, end.at, Events(s, batchSize, end.url));
  }

  /** Without overlap, if no conversion fails. */
  lemma RunResumesExactly(s: Server, p: Pages, batchSize: nat, c: Checkpoint, end: End)
    requires ValidServer(s) && end == RunFrom(s, p, batchSize, c) && end.Paused?
    requires Converts(p, Events(s, batchSize, QueryOf(c, batchSize)))
    ensures Processed(Events(s, batchSize, QueryOf(c, batchSize)), end) + YieldsOf(Events(s, batchSize, end.url))
         == YieldsOf(Events(s, batchSize, QueryOf(c, batchSize)))
  {
    hide Trace, Consume, YieldsOf;
    ExactPause(s, p, LimitOf(batchSize), QueryOf(c, batchSize), c.nextPageUrl);
  }

  lemma ExactPause(s: Server, p: Pages, limit: nat, query: Url, pending: Option<Url>)
    requires ValidServer(s) && limit > 0 && (pending.None? || pending.value == query)
    requires var events := Trace(s, WITH_CALLBACK, limit, query.(limit := limit));
             && Consume(p, query, events, 0, pending).Paused?
             && Converts(p, events)
    ensures var events := Trace(s, WITH_CALLBACK, limit, query.(limit := limit));
            var end := Consume(p, query, events, 0, pending);
            && end.at < |events|
            && YieldsOf(events[..end.at + 1]) + YieldsOf(Trace(s, WITH_CALLBACK, limit, end.url.(limit := limit)))
               == YieldsOf(events)
  {
    var url := query.(limit := limit);
    var events := Trace(s, WITH_CALLBACK, limit, url);
    hide Trace, YieldsOf, Consume;
    forall i | 0 <= i < |events| && Announces(events[i])
      ensures events[i].url.value != query && i + 1 < |events| && events[i + 1].Yield?
    {
      CallbackResumes(s, limit, url, i);
    }
    PausesAtOnce(p, query, events, 0, pending);
    var end := Consume(p, query, events, 0, pending);
    CallbackResumes(s, limit, url, end.at - 1);
    assert end.url.(limit := limit) == end.url;
    YieldsAt(events, end.at);
  }

  lemma PauseCovers(events: seq<Event>, j: nat, at: nat, later: seq<Event>)
    requires j < at < |events| && later == events[j + 2..]
    ensures forall i :: i in YieldsOf(events) ==> i in YieldsOf(events[..at + 1]) || i in YieldsOf(later)
  {
    hide YieldsOf;
    var between := events[j + 2..at + 1];
    YieldsAt(events, j + 1);
    assert events[..at + 1] == events[..j + 2] + between;
    YieldsConcat(events[..j + 2], between);
    forall i | i in YieldsOf(events) ensures i in YieldsOf(events[..at + 1]) || i in YieldsOf(later) {
      assert i in YieldsOf(events[..j + 2]) || i in YieldsOf(later);
    }
  }

  /** All pages processed by running from checkpoint to checkpoint until one says there is no more; None if a
      run raises. */
  function AllProcessed(s: Server, p: Pages, batchSize: nat, c: Checkpoint): Option<seq<nat>>
    requires ValidServer(s)
    decreases s.n - QueryOf(c, batchSize).start
  {
    var end := RunFrom(s, p, batchSize, c);
    var now := Processed(Events(s, batchSize, QueryOf(c, batchSize)), end);
    if end.Raised? then None
    else if end.Finished? then Some(now)
    else
      RunResumes(s, p, batchSize, c, end);
      var rest := AllProcessed(s, p, batchSize, Checkpoint(Some(end.url), c.hasMore));
      if rest.None? then None else Some(now + rest.value)
  }

  lemma AllProcessedStep(s: Server, p: Pages, batchSize: nat, c: Checkpoint)
    requires ValidServer(s)
    ensures var end := RunFrom(s, p, batchSize, c);
            var now := Processed(Events(s, batchSize, QueryOf(c, batchSize)), end);
            && (end.Raised? ==> AllProcessed(s, p, batchSize, c) == None)
            && (end.Finished? ==> AllProcessed(s, p, batchSize, c) == Some(now))
            && (end.Paused? ==>
                  var rest := AllProcessed(s, p, batchSize, Checkpoint(Some(end.url), c.hasMore));
                  AllProcessed(s, p, batchSize, c) == if rest.None? then None else Some(now + rest.value))
  {
    hide RunFrom, Processed, Events;
  }

  /** No run raises, and every item that pagination delivers is processed: once and in order if no conversion
      fails. */
  lemma {:induction false} RunsProcessAll(s: Server, p: Pages, batchSize: nat, c: Checkpoint)
    requires ValidServer(s) && OnlyServerErrors(s) && QueryOf(c, batchSize).start <= s.n
    ensures AllProcessed(s, p, batchSize, c).Some?
    ensures forall i :: i in YieldsOf(Events(s, batchSize, QueryOf(c, batchSize))) ==>
              i in AllProcessed(s, p, batchSize, c).value
    ensures (forall i :: QueryOf(c, batchSize).start <= i < s.n ==> i !in p.fails) ==>
              AllProcessed(s, p, batchSize, c).value == YieldsOf(Events(s, batchSize, QueryOf(c, batchSize)))
    decreases s.n - QueryOf(c, batchSize).start
  {
    var query := QueryOf(c, batchSize);
    var events := Events(s, batchSize, query);
    var end := RunFrom(s, p, batchSize, c);
    AllProcessedStep(s, p, batchSize, c);
    DoesNotRaise(s, p, batchSize, c);
    EventsInRange(s, batchSize, query);
    hide Trace, Consume, YieldsOf, RunFrom, Events, AllProcessed;
    if end.Paused? {
      RunResumes(s, p, batchSize, c, end);
      RunsProcessAll(s, p, batchSize, Checkpoint(Some(end.url), c.hasMore));
      if forall i :: query.start <= i < s.n ==> i !in p.fails {
        ConvertsAll(p, events, query.start, s.n);
        RunResumesExactly(s, p, batchSize, c, end);
      }
    }
  }

  lemma DoesNotRaise(s: Server, p: Pages, batchSize: nat, c: Checkpoint)
    requires ValidServer(s) && OnlyServerErrors(s) && QueryOf(c, batchSize).start <= s.n
    ensures !RunFrom(s, p, batchSize, c).Raised?
  {
    hide Trace, Consume, YieldsOf;
    var query := QueryOf(c, batchSize);
    var limit := LimitOf(batchSize);
    DeliversRetrievable(s, WITH_CALLBACK, limit, query.(limit := limit));
    if RunFrom(s, p, batchSize, c).Raised? {
      NeverRaises(p, query, Events(s, batchSize, query), 0, c.nextPageUrl);
    }
  }

  lemma EventsInRange(s: Server, batchSize: nat, query: Url)
    requires ValidServer(s) && OnlyServerErrors(s) && query.start <= s.n
    ensures forall i :: i in YieldsOf(Events(s, batchSize, query)) ==> query.start <= i < s.n
    ensures forall i :: query.start <= i < s.n && i !in s.errors ==> i in YieldsOf(Events(s, batchSize, query))
    ensures Increasing(YieldsOf(Events(s, batchSize, query)))
  {
    hide Trace, YieldsOf;
    var limit := LimitOf(batchSize);
    DeliversRetrievable(s, WITH_CALLBACK, limit, query.(limit := limit));
  }

  /** Whatever conversions fail, running from checkpoint to checkpoint processes every retrievable page; if none
      fails, no page is processed twice. */
  lemma ResumeLosesNothing(s: Server, p: Pages, batchSize: nat, c: Checkpoint)
    requires ValidServer(s) && OnlyServerErrors(s) && QueryOf(c, batchSize).start <= s.n
    ensures AllProcessed(s, p, batchSize, c).Some?
    ensures var all := AllProcessed(s, p, batchSize, c).value;
            var start := QueryOf(c, batchSize).start;
            && (forall i :: start <= i < s.n && i !in s.errors ==> i in all)
            && ((forall i :: start <= i < s.n ==> i !in p.fails) ==> Increasing(all))
  {
    hide AllProcessed, Events;
    RunsProcessAll(s, p, batchSize, c);
    EventsInRange(s, batchSize, QueryOf(c, batchSize));
  }

  lemma {:induction false} YieldMembers(events: seq<Event>, k: nat)
    requires k < |events| && events[k].Yield?
    ensures events[k].index in YieldsOf(events)
  {
    YieldsAt(events, k);
    YieldsSnoc(events[..k], events[k]);
    assert events[..k + 1] == events[..k] + [events[k]];
  }

  lemma ConvertsAll(p: Pages, events: seq<Event>, start: nat, stop: nat)
    requires forall i :: start <= i < stop ==> i !in p.fails
    requires forall i :: i in YieldsOf(events) ==> start <= i < stop
    ensures Converts(p, events)
  {
    forall k | 0 <= k < |events| && events[k].Yield? ensures events[k].index !in p.fails {
      YieldMembers(events, k);
    }
  }

  /** Two items, one a page, of which the first cannot be converted. */
  const SMALL: Server := Server(2, 1, map[], map[], {})
  const FIRST_FAILS: Pages := Pages({0}, {}, map[])

  lemma PageThenRest(s: Server, limit: nat, url: Url)
    requires ValidServer(s) && limit > 0 && url.limit > 0 && Get(s, url).Page? && Get(s, url).results != []
    ensures var next := NextUrl(s, WITH_CALLBACK, url);
            var rest := if next.None? then [] else Trace(s, WITH_CALLBACK, limit, next.value);
            Trace(s, WITH_CALLBACK, limit, url) == PageEvents(s, WITH_CALLBACK, url) + rest
  {
    hide PageEvents, NextUrl;
  }

  lemma SmallPages()
    ensures Trace(SMALL, WITH_CALLBACK, 1, Url(1, 1, true)) == [Yield(1)]
    ensures Trace(SMALL, WITH_CALLBACK, 1, Url(0, 1, true))
         == [Callback(Some(Url(1, 1, true))), Yield(0)] + Trace(SMALL, WITH_CALLBACK, 1, Url(1, 1, true))
  {
    var first, second := Url(0, 1, true), Url(1, 1, true);
    assert Get(SMALL, first) == Page([0], Some(second)) && Get(SMALL, second) == Page([1], None);
    PageThenRest(SMALL, 1, first);
    PageThenRest(SMALL, 1, second);
    hide Trace, Get;
    assert NextUrl(SMALL, WITH_CALLBACK, first) == Some(second) && NextUrl(SMALL, WITH_CALLBACK, second) == None;
    assert PageEvents(SMALL, WITH_CALLBACK, first) == [Callback(Some(second)), Yield(0)];
    assert PageEvents(SMALL, WITH_CALLBACK, second) == [Yield(1)];
    assert [Yield(1)] + [] == [Yield(1)];
  }

  /** When a conversion fails a page can be processed twice: here the run goes on past the failed page, and
      returns the URL announced before the page it has just processed. */
  lemma FailureRepeats()
    ensures AllProcessed(SMALL, FIRST_FAILS, 1, DUMMY) == Some([0, 1, 1])
  {
    hide Trace;
    var second := Url(1, 1, true);
    SmallPages();
    var events := Events(SMALL, 1, Url(0, 1, true));
    var last := Events(SMALL, 1, second);
    hide Events, AllProcessed;
    assert RunFrom(SMALL, FIRST_FAILS, 1, DUMMY) == Paused(2, second);
    assert RunFrom(SMALL, FIRST_FAILS, 1, Checkpoint(Some(second), true)) == Finished;
    AllProcessedStep(SMALL, FIRST_FAILS, 1, DUMMY);
    AllProcessedStep(SMALL, FIRST_FAILS, 1, Checkpoint(Some(second), true));
    hide RunFrom, Consume;
    assert YieldsOf(last) == [1];
    assert YieldsOf(events) == [0, 1] by { YieldsConcat([Callback(Some(second)), Yield(0)], last); }
    assert events[..3] == events && [0, 1] + [1] == [0, 1, 1];
  }
}
