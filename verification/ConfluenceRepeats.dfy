/** Exactly when fetching a Confluence space from checkpoint to checkpoint processes no page twice. */
module ConfluenceRepeats {
  import opened Sequences
  import opened ConfluencePagination
  import opened ConfluenceDelivery
  import opened ConfluenceResume

  /** What `k` announces and `m` delivers, if nothing delivered in between can be converted: a run that goes on
      past the announcement pauses at `m`. */
  ghost predicate PausesAt(p: Pages, events: seq<Event>, k: nat, m: nat)
    requires k < m < |events|
  {
    && Announces(events[k]) && events[m].Yield? && events[m].index !in p.fails
    && forall i :: k < i < m && events[i].Yield? ==> events[i].index in p.fails
  }

  /** From the last item of an announced page on, the first page that converts itself ends an announced page,
      or none converts. */
  ghost predicate PausesAtPageEnds(p: Pages, events: seq<Event>) {
    forall k, m :: 0 <= k < m < |events| && PausesAt(p, events, k, m) ==> Announces(events[m - 1])
  }

  /** What every trace looks like around its callbacks, seen from the query it started with. */
  ghost predicate Announced(query: Url, events: seq<Event>) {
    && (forall i :: 0 <= i < |events| && events[i] == Callback(None) ==> i == |events| - 1)
    && (forall i :: 0 <= i < |events| && Announces(events[i]) ==>
          events[i].url.value != query && i + 1 < |events| && events[i + 1].Yield?)
  }

  lemma EventsAnnounced(s: Server, batchSize: nat, query: Url)
    requires ValidServer(s)
    ensures Announced(query, Events(s, batchSize, query))
  {
    hide Trace;
    var url := query.(limit := LimitOf(batchSize));
    var events := Events(s, batchSize, query);
    forall i | 0 <= i < |events| && events[i] == Callback(None) ensures i == |events| - 1 {
      CallbackResumes(s, LimitOf(batchSize), url, i);
    }
    forall i | 0 <= i < |events| && Announces(events[i])
      ensures events[i].url.value != query && i + 1 < |events| && events[i + 1].Yield?
    {
      CallbackResumes(s, LimitOf(batchSize), url, i);
    }
  }

  // ---------------------------------------------------------------- one run

  /** How far a run reads. */
  function ReadUpTo(events: seq<Event>, end: End): nat {
    if end.Paused? then end.at else |events|
  }

  /** With another URL stored, a run reads on only past pages that cannot be converted. */
  lemma {:induction false} HeldBack(p: Pages, query: Url, events: seq<Event>, k: nat, pending: Option<Url>, m: nat)
    requires Announced(query, events) && k <= m < |events| && pending.Some? && pending.value != query
    requires !Consume(p, query, events, k, pending).Raised?
    requires m < ReadUpTo(events, Consume(p, query, events, k, pending)) && events[m].Yield?
    ensures events[m].index in p.fails
    decreases |events| - k
  {
    ConsumeStep(p, query, events, k, pending);
    hide Consume;
    match events[k]
    case Callback(url) =>
      assert url.Some? ==> Announces(events[k]);
      HeldBack(p, query, events, k + 1, url, m);
    case Yield(page) =>
      if k < m {
        HeldBack(p, query, events, k + 1, pending, m);
      }
  }

  /** So nothing between an announcement and the end of the run has been converted. */
  lemma {:induction false} AfterAnnouncement(p: Pages, query: Url, events: seq<Event>, k: nat, pending: Option<Url>,
                                             a: nat, m: nat)
    requires Announced(query, events) && k <= a < m < |events| && Announces(events[a]) && events[m].Yield?
    requires !Consume(p, query, events, k, pending).Raised?
    requires m < ReadUpTo(events, Consume(p, query, events, k, pending))
    ensures events[m].index in p.fails
    decreases a - k
  {
    ConsumeStep(p, query, events, k, pending);
    hide Consume;
    if k == a {
      HeldBack(p, query, events, k + 1, events[a].url, m);
    } else {
      match events[k]
      case Callback(url) => AfterAnnouncement(p, query, events, k + 1, url, a, m);
      case Yield(page) => AfterAnnouncement(p, query, events, k + 1, pending, a, m);
    }
  }

  /** A run repeats nothing if and only if it pauses at the end of an announced page. */
  lemma RunRepeatsNothingIff(s: Server, p: Pages, batchSize: nat, c: Checkpoint, end: End)
    requires ValidServer(s) && end == RunFrom(s, p, batchSize, c) && end.Paused?
    ensures var events := Events(s, batchSize, QueryOf(c, batchSize));
            && 0 < end.at < |events|
            && (Processed(events, end) + YieldsOf(Events(s, batchSize, end.url)) == YieldsOf(events)
                <==> Announces(events[end.at - 1]))
  {
    hide Trace, Consume, YieldsOf, RunFrom;
    var query := QueryOf(c, batchSize);
    var url := query.(limit := LimitOf(batchSize));
    var events := Events(s, batchSize, query);
    RunStarts(s, p, batchSize, c, events);
    EventsAnnounced(s, batchSize, query);
    var j := PauseOrigin(p, query, events, 0, c.nextPageUrl);
    CallbackResumes(s, LimitOf(batchSize), url, j);
    assert end.url.(limit := LimitOf(batchSize)) == end.url;
    var later := Events(s, batchSize, end.url);
    if j == end.at - 1 {
      YieldsAt(events, end.at);
    } else {
      OverlapIsLonger(events, j, end.at, later);
      if Announces(events[end.at - 1]) {
        BetweenIsQuiet(s, p, batchSize, c, events, j, end);
      }
    }
  }

  /** The last announcement before a pause is the one the run returns. */
  lemma BetweenIsQuiet(s: Server, p: Pages, batchSize: nat, c: Checkpoint, events: seq<Event>, j: nat, end: End)
    requires ValidServer(s) && events == Events(s, batchSize, QueryOf(c, batchSize))
    requires end == RunFrom(s, p, batchSize, c) && end.Paused? && j < end.at < |events|
    requires events[j] == Callback(Some(end.url)) && events[end.at].Yield? && events[end.at].index !in p.fails
    requires Announces(events[end.at - 1])
    ensures j == end.at - 1
  {
    hide Trace, Consume, YieldsOf, RunFrom;
    var query := QueryOf(c, batchSize);
    var url := query.(limit := LimitOf(batchSize));
    RunStarts(s, p, batchSize, c, events);
    PausesWithLast(p, query, events, 0, c.nextPageUrl);
    CallbackResumes(s, LimitOf(batchSize), url, j);
    CallbackResumes(s, LimitOf(batchSize), url, end.at - 1);
  }

  /** A pause right after an announcement returns what was announced. */
  lemma {:induction false} PausesWithLast(p: Pages, query: Url, events: seq<Event>, k: nat, pending: Option<Url>)
    requires k <= |events| && Consume(p, query, events, k, pending).Paused?
    ensures var end := Consume(p, query, events, k, pending);
            k <= end.at < |events| && (end.at > k && events[end.at - 1].Callback? ==> events[end.at - 1].url == Some(end.url))
            && (end.at == k ==> pending == Some(end.url))
    decreases |events| - k
  {
    ConsumeStep(p, query, events, k, pending);
    hide Consume;
    match events[k]
    case Callback(url) => PausesWithLast(p, query, events, k + 1, url);
    case Yield(page) =>
      if page in p.fails || pending.None? || pending.value == query {
        PausesWithLast(p, query, events, k + 1, pending);
      }
  }

  lemma OverlapIsLonger(events: seq<Event>, j: nat, at: nat, later: seq<Event>)
    requires j + 1 < at < |events| && events[at].Yield? && later == events[j + 2..]
    ensures YieldsOf(events[..at + 1]) + YieldsOf(later) != YieldsOf(events)
    ensures events[at].index in YieldsOf(events[..at + 1]) && events[at].index in YieldsOf(later)
  {
    hide YieldsOf;
    var between := events[j + 2..at + 1];
    YieldsAt(events, j + 1);
    assert events[..at + 1] == events[..j + 2] + between;
    YieldsConcat(events[..j + 2], between);
    assert between[at - j - 2] == events[at] && later[at - j - 2] == events[at];
    YieldMembers(between, at - j - 2);
    YieldMembers(later, at - j - 2);
    Longer(YieldsOf(events[..j + 2]), YieldsOf(between), YieldsOf(later), events[at].index);
  }

  lemma Longer(a: seq<nat>, b: seq<nat>, c: seq<nat>, x: nat)
    requires x in b
    ensures x in a + b && (a + b) + c != a + c
  {
    assert |b| > 0;
    assert |(a + b) + c| > |a + c|;
  }

  // ---------------------------------------------------------------- all runs

  lemma ShiftedPause(p: Pages, events: seq<Event>, d: nat, k: nat, m: nat)
    requires d + k < d + m < |events|
    ensures PausesAt(p, events[d..], k, m) <==> PausesAt(p, events, d + k, d + m)
  {
    var later := events[d..];
    if PausesAt(p, later, k, m) {
      forall i | d + k < i < d + m && events[i].Yield? ensures events[i].index in p.fails {
        assert later[i - d] == events[i];
      }
    }
    if PausesAt(p, events, d + k, d + m) {
      forall i | k < i < m && later[i].Yield? ensures later[i].index in p.fails {
        assert later[i] == events[d + i];
      }
    }
  }

  lemma NothingBetween(p: Pages, events: seq<Event>, k: nat, i: nat, m: nat)
    requires k < m < |events| && PausesAt(p, events, k, m)
    requires i < m && events[i].Yield? && events[i].index !in p.fails
    ensures i < k
  {
  }

  /** If a run pauses at the end of an announced page, what is left decides. */
  lemma PausesAtPageEndsLater(p: Pages, query: Url, events: seq<Event>, pending: Option<Url>)
    requires Announced(query, events) && Consume(p, query, events, 0, pending).Paused?
    requires var at := Consume(p, query, events, 0, pending).at;
             0 < at < |events| && Announces(events[at - 1]) && events[at].Yield? && events[at].index !in p.fails
    ensures var at := Consume(p, query, events, 0, pending).at;
            PausesAtPageEnds(p, events) <==> PausesAtPageEnds(p, events[at + 1..])
  {
    hide Consume;
    var at := Consume(p, query, events, 0, pending).at;
    var later := events[at + 1..];
    if PausesAtPageEnds(p, events) {
      forall k, m | 0 <= k < m < |later| && PausesAt(p, later, k, m) ensures Announces(later[m - 1]) {
        ShiftedPause(p, events, at + 1, k, m);
      }
    }
    if PausesAtPageEnds(p, later) {
      forall k: nat, m: nat | k < m < |events| && PausesAt(p, events, k, m) ensures Announces(events[m - 1]) {
        if m < at {
          AfterAnnouncement(p, query, events, 0, pending, k, m);
        } else if m > at {
          NothingBetween(p, events, k, at, m);
          ShiftedPause(p, events, at + 1, k - at - 1, m - at - 1);
          assert later[m - at - 2] == events[m - 1];
        }
      }
    }
  }

  lemma FinishedAtPageEnds(p: Pages, query: Url, events: seq<Event>, pending: Option<Url>)
    requires Announced(query, events) && Consume(p, query, events, 0, pending).Finished?
    ensures PausesAtPageEnds(p, events)
  {
    hide Consume;
    forall k: nat, m: nat | k < m < |events| ensures !PausesAt(p, events, k, m) {
      if PausesAt(p, events, k, m) {
        AfterAnnouncement(p, query, events, 0, pending, k, m);
      }
    }
  }

  lemma EventsIncrease(s: Server, batchSize: nat, query: Url)
    requires ValidServer(s)
    ensures Increasing(YieldsOf(Events(s, batchSize, query)))
  {
    var url := query.(limit := LimitOf(batchSize));
    if query.start <= s.n {
      var split, stop := TraceDelivers(s, WITH_CALLBACK, LimitOf(batchSize), url);
      SplitDelivery(s, url.start, split, stop);
    } else {
      PastTheEnd(s, WITH_CALLBACK, LimitOf(batchSize), url);
    }
  }

  /** Whatever fails, the runs cover everything that pagination delivers. */
  lemma {:induction false} RunsCoverAll(s: Server, p: Pages, batchSize: nat, c: Checkpoint)
    requires ValidServer(s) && AllProcessed(s, p, batchSize, c).Some?
    ensures forall i :: i in YieldsOf(Events(s, batchSize, QueryOf(c, batchSize))) ==>
              i in AllProcessed(s, p, batchSize, c).value
    decreases s.n - QueryOf(c, batchSize).start
  {
    hide Trace, Consume, YieldsOf, RunFrom, Events, AllProcessed;
    AllProcessedStep(s, p, batchSize, c);
    var end := RunFrom(s, p, batchSize, c);
    if end.Paused? {
      RunResumes(s, p, batchSize, c, end);
      RunsCoverAll(s, p, batchSize, Checkpoint(Some(end.url), c.hasMore));
    }
  }

  lemma IncreasingParts(a: seq<nat>, b: seq<nat>)
    requires Increasing(a + b)
    ensures Increasing(b) && forall x :: x in a ==> x !in b
  {
    forall i, j | 0 <= i < j < |b| ensures b[i] < b[j] {
      assert b[i] == (a + b)[|a| + i] && b[j] == (a + b)[|a| + j];
    }
    forall i, j | 0 <= i < |a| && 0 <= j < |b| ensures a[i] != b[j] {
      assert a[i] == (a + b)[i] && b[j] == (a + b)[|a| + j];
    }
  }

  /** Running from checkpoint to checkpoint processes no page twice if and only if, from the last item of each
      announced page on, the first page that converts itself ends an announced page (or none converts). Then
      it processes exactly what pagination delivers. */
  lemma {:induction false} RepeatsNothingIff(s: Server, p: Pages, batchSize: nat, c: Checkpoint)
    requires ValidServer(s) && AllProcessed(s, p, batchSize, c).Some?
    ensures var all := AllProcessed(s, p, batchSize, c).value;
            var events := Events(s, batchSize, QueryOf(c, batchSize));
            && (Increasing(all) <==> PausesAtPageEnds(p, events))
            && (PausesAtPageEnds(p, events) ==> all == YieldsOf(events))
    decreases s.n - QueryOf(c, batchSize).start
  {
    hide Trace, Consume, YieldsOf, RunFrom, Events, AllProcessed, PausesAtPageEnds, Announced, Increasing;
    var query := QueryOf(c, batchSize);
    var events := Events(s, batchSize, query);
    var end := RunFrom(s, p, batchSize, c);
    AllProcessedStep(s, p, batchSize, c);
    RunStarts(s, p, batchSize, c, events);
    EventsAnnounced(s, batchSize, query);
    EventsIncrease(s, batchSize, query);
    if end.Finished? {
      FinishedAtPageEnds(p, query, events, c.nextPageUrl);
    } else {
      RunResumes(s, p, batchSize, c, end);
      RepeatsNothingIff(s, p, batchSize, Checkpoint(Some(end.url), c.hasMore));
      PausedRun(s, p, batchSize, c, end);
    }
  }

  lemma PausedRun(s: Server, p: Pages, batchSize: nat, c: Checkpoint, end: End)
    requires ValidServer(s) && end == RunFrom(s, p, batchSize, c) && end.Paused?
    requires AllProcessed(s, p, batchSize, c).Some?
    requires var next := Checkpoint(Some(end.url), c.hasMore);
             var later := Events(s, batchSize, end.url);
             AllProcessed(s, p, batchSize, next).Some? ==>
               var rest := AllProcessed(s, p, batchSize, next).value;
               && (Increasing(rest) <==> PausesAtPageEnds(p, later))
               && (PausesAtPageEnds(p, later) ==> rest == YieldsOf(later))
    ensures var all := AllProcessed(s, p, batchSize, c).value;
            var events := Events(s, batchSize, QueryOf(c, batchSize));
            && (Increasing(all) <==> PausesAtPageEnds(p, events))
            && (PausesAtPageEnds(p, events) ==> all == YieldsOf(events))
  {
    hide Trace, Consume, YieldsOf, RunFrom, Events, AllProcessed, PausesAtPageEnds, Announced, Increasing;
    var query := QueryOf(c, batchSize);
    var events := Events(s, batchSize, query);
    var later := Events(s, batchSize, end.url);
    var next := Checkpoint(Some(end.url), c.hasMore);
    AllProcessedStep(s, p, batchSize, c);
    RunRepeatsNothingIff(s, p, batchSize, c, end);
    var now, rest := Processed(events, end), AllProcessed(s, p, batchSize, next).value;
    if Announces(events[end.at - 1]) {
      LaterDecides(s, p, batchSize, c, end);
      EventsIncrease(s, batchSize, query);
      if Increasing(now + rest) {
        IncreasingParts(now, rest);
      }
    } else {
      RepeatedPage(s, p, batchSize, c, end);
      if Increasing(now + rest) {
        IncreasingParts(now, rest);
      }
    }
  }

  /** A pause elsewhere: the page it pauses at is processed again. */
  lemma RepeatedPage(s: Server, p: Pages, batchSize: nat, c: Checkpoint, end: End)
    requires ValidServer(s) && end == RunFrom(s, p, batchSize, c) && end.Paused?
    requires AllProcessed(s, p, batchSize, Checkpoint(Some(end.url), c.hasMore)).Some?
    requires var events := Events(s, batchSize, QueryOf(c, batchSize));
             0 < end.at < |events| && !Announces(events[end.at - 1])
    ensures var events := Events(s, batchSize, QueryOf(c, batchSize));
            && !PausesAtPageEnds(p, events)
            && exists i :: i in Processed(events, end)
                           && i in AllProcessed(s, p, batchSize, Checkpoint(Some(end.url), c.hasMore)).value
  {
    hide Trace, Consume, YieldsOf, RunFrom, AllProcessed;
    var query := QueryOf(c, batchSize);
    var url := query.(limit := LimitOf(batchSize));
    var events := Events(s, batchSize, query);
    RunStarts(s, p, batchSize, c, events);
    var j := PauseOrigin(p, query, events, 0, c.nextPageUrl);
    CallbackResumes(s, LimitOf(batchSize), url, j);
    assert end.url.(limit := LimitOf(batchSize)) == end.url;
    OverlapIsLonger(events, j, end.at, Events(s, batchSize, end.url));
    RunsCoverAll(s, p, batchSize, Checkpoint(Some(end.url), c.hasMore));
    assert PausesAt(p, events, j, end.at);
    assert events[end.at].index in Processed(events, end);
  }

  lemma LaterDecides(s: Server, p: Pages, batchSize: nat, c: Checkpoint, end: End)
    requires ValidServer(s) && end == RunFrom(s, p, batchSize, c) && end.Paused?
    requires var events := Events(s, batchSize, QueryOf(c, batchSize));
             0 < end.at < |events| && Announces(events[end.at - 1])
    ensures PausesAtPageEnds(p, Events(s, batchSize, QueryOf(c, batchSize)))
       <==> PausesAtPageEnds(p, Events(s, batchSize, end.url))
  {
    hide Trace, Consume, YieldsOf, RunFrom, PausesAtPageEnds, Announced;
    var query := QueryOf(c, batchSize);
    var url := query.(limit := LimitOf(batchSize));
    var events := Events(s, batchSize, query);
    RunStarts(s, p, batchSize, c, events);
    EventsAnnounced(s, batchSize, query);
    var j := PauseOrigin(p, query, events, 0, c.nextPageUrl);
    BetweenIsQuiet(s, p, batchSize, c, events, j, end);
    CallbackResumes(s, LimitOf(batchSize), url, j);
    assert end.url.(limit := LimitOf(batchSize)) == end.url;
    PausesAtPageEndsLater(p, query, events, c.nextPageUrl);
  }
}
