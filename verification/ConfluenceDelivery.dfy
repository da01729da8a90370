/** What server pagination delivers: every item that can be retrieved, once, in order. */
module ConfluenceDelivery {
  import opened Sequences
  import opened ConfluencePagination

  function YieldsOf(events: seq<Event>): seq<nat> {
    if events == [] then []
    else (if events[0].Yield? then [events[0].index] else []) + YieldsOf(events[1..])
  }

  /** Items that do not make their page fail once the problematic expansion is replaced. */
  function Retrievable(s: Server): nat -> bool {
    (i: nat) => i !in s.errors
  }

  predicate OnlyServerErrors(s: Server) {
    forall i :: i in s.errors ==> s.errors[i] == 500
  }

  ghost predicate Increasing(indices: seq<nat>) {
    forall i, j :: 0 <= i < j < |indices| ==> indices[i] < indices[j]
  }

  /** Whether pagination follows the offsets of what it received, or need not because no page is cut short. */
  predicate FollowsOffsets(s: Server, mode: Mode, url: Url) {
    mode.callback || mode.forceOffset || url.limit <= s.cap
  }

  lemma {:induction false} YieldsConcat(a: seq<Event>, b: seq<Event>)
    ensures YieldsOf(a + b) == YieldsOf(a) + YieldsOf(b)
  {
    if a == [] {
      assert a + b == b;
    } else {
      var head := if a[0].Yield? then [a[0].index] else [];
      YieldsConcat(a[1..], b);
      assert YieldsOf(a) == head + YieldsOf(a[1..]);
      assert YieldsOf(a + b) == head + YieldsOf(a[1..] + b) by {
        assert (a + b)[1..] == a[1..] + b && (a + b)[0] == a[0];
      }
      hide YieldsOf;
    }
  }

  lemma {:induction false} YieldsOfYields(indices: seq<nat>)
    ensures YieldsOf(Yields(indices)) == indices
    ensures forall e :: e in Yields(indices) ==> e.Yield?
  {
    if indices != [] {
      assert Yields(indices)[1..] == Yields(indices[1..]);
      YieldsOfYields(indices[1..]);
    }
  }

  lemma RangeConcat(a: nat, b: nat, c: nat)
    requires a <= b <= c
    ensures Range(a, b) + Range(b, c) == Range(a, c)
  {
  }

  /** The items of a range that satisfy `keep`, split at `b`. */
  lemma FilterRange(keep: nat -> bool, a: nat, b: nat, c: nat)
    requires a <= b <= c
    ensures Filter(keep, Range(a, c)) == Filter(keep, Range(a, b)) + Filter(keep, Range(b, c))
  {
    RangeConcat(a, b, c);
    FilterConcat(keep, Range(a, b), Range(b, c));
  }

  lemma FilterWhole(keep: nat -> bool, a: nat, b: nat)
    requires forall i :: a <= i < b ==> keep(i)
    ensures Filter(keep, Range(a, b)) == Range(a, b)
  {
    FilterAll(keep, Range(a, b));
  }

  lemma FilterOne(keep: nat -> bool, i: nat)
    ensures Filter(keep, Range(i, i + 1)) == if keep(i) then [i] else []
  {
    assert Range(i, i + 1) == [i] && [i][..0] == [];
  }

  lemma {:induction false} RecoveryEnds(s: Server, start: nat, count: nat)
    requires start <= s.n
    ensures OneByOne(s, false, start, count).1 <==> start + count > s.n
    ensures forall e :: e in OneByOne(s, false, start, count).0 ==> e.Yield?
    decreases count
  {
    if count > 0 && start < s.n {
      RecoveryEnds(s, start + 1, count - 1);
    }
  }

  lemma {:induction false} RecoveryDelivers(s: Server, start: nat, count: nat)
    requires start <= s.n
    ensures YieldsOf(OneByOne(s, false, start, count).0) == Filter(Retrievable(s), Range(start, Min(start + count, s.n)))
    decreases count
  {
    if count > 0 && start < s.n {
      RecoveryDelivers(s, start + 1, count - 1);
      RecoveryStep(s, start, OneByOne(s, false, start + 1, count - 1).0, Min(start + count, s.n));
    } else {
      assert Range(start, start) == [];
    }
  }

  lemma RecoveryStep(s: Server, start: nat, rest: seq<Event>, stop: nat)
    requires start < stop && YieldsOf(rest) == Filter(Retrievable(s), Range(start + 1, stop))
    ensures YieldsOf(if start in s.errors then rest else [Yield(start)] + rest)
         == Filter(Retrievable(s), Range(start, stop))
  {
    hide Range, Filter;
    FilterRange(Retrievable(s), start, start + 1, stop);
    FilterOne(Retrievable(s), start);
    YieldsConcat([Yield(start)], rest);
    assert YieldsOf([Yield(start)]) == [start];
  }

  lemma OneEvent(e: Event)
    ensures YieldsOf([e]) == if e.Yield? then [e.index] else []
  {
  }

  lemma PageYields(s: Server, mode: Mode, url: Url)
    requires Taken(s, url) > 0
    ensures YieldsOf(PageEvents(s, mode, url)) == Range(url.start, url.start + Taken(s, url))
    ensures Raise !in PageEvents(s, mode, url)
  {
    hide YieldsOf, Yields, Taken, Link, NextUrl;
    var last := url.start + Taken(s, url) - 1;
    var body := Yields(Range(url.start, last));
    var call: seq<Event> :=
      if Link(s, url).Some? && mode.callback then [Callback(NextUrl(s, mode, url))] else [];
    YieldsOfYields(Range(url.start, last));
    OneEvent(Callback(NextUrl(s, mode, url)));
    OneEvent(Yield(last));
    NoEvents();
    YieldsConcat(body + call, [Yield(last)]);
    YieldsConcat(body, call);
    assert Range(url.start, last) + [last] == Range(url.start, last + 1);
  }

  lemma NoEvents()
    ensures YieldsOf([]) == []
  {
  }

  predicate Stops(s: Server, limit: nat, at: nat) {
    var r := Get(s, Url(at, limit, false));
    r.Failed? && r.status != 500
  }

  /** The shape of every delivery. Up to `split` items came with the problematic expansion; from there to
      `stop` exactly those that can be retrieved without it; and it stopped early exactly when the page at
      `stop` fails with a status other than 500. */
  ghost predicate Delivers(s: Server, url: Url, events: seq<Event>, split: nat, stop: nat) {
    && url.start <= split <= stop <= s.n && (!url.heavy ==> split == url.start)
    && YieldsOf(events) == Range(url.start, split) + Filter(Retrievable(s), Range(split, stop))
    && (forall i :: url.start <= i < split ==> i !in s.heavyErrors)
    && (Raise in events <==> stop < s.n)
    && (stop < s.n ==> Stops(s, url.limit, stop))
  }

  lemma {:induction false} TraceDelivers(s: Server, mode: Mode, limit: nat, url: Url) returns (split: nat, stop: nat)
    requires ValidServer(s) && limit > 0 && url.limit > 0 && FollowsOffsets(s, mode, url) && url.start <= s.n
    ensures Delivers(s, url, Trace(s, mode, limit, url), split, stop)
    decreases s.n - url.start, if url.heavy then 2 else 1
  {
    hide Filter, Range, YieldsOf, NextUrl, Taken, Trace, OneByOne, PageEvents, Get, FirstError, Delivers, Link;
    TraceStep(s, mode, limit, url, []);
    var trace := Trace(s, mode, limit, url);
    assert [] + trace == trace;
    match Get(s, url)
    case Failed(status) =>
      if url.heavy {
        split, stop := TraceDelivers(s, mode, limit, url.(heavy := false));
        WithoutExpansion(s, url, trace, split, stop);
      } else if status == 500 {
        RecoveryDelivers(s, url.start, limit);
        RecoveryEnds(s, url.start, limit);
        var (events, empty) := OneByOne(s, false, url.start, limit);
        assert [] + events == events;
        split := url.start;
        if empty {
          stop := s.n;
          RecoveredLast(s, url, events, if mode.callback then [Callback(None)] else []);
        } else {
          var next := url.(start := url.start + limit);
          var restSplit;
          restSplit, stop := TraceDelivers(s, mode, limit, next);
          RecoveredPage(s, url, events, next, Trace(s, mode, limit, next), restSplit, stop);
        }
      } else {
        split, stop := url.start, url.start;
        Refused(s, url);
      }
    case Page(results, _) =>
      if results == [] {
        split, stop := url.start, url.start;
        NothingLeft(s, url);
      } else {
        split, stop := DeliveredPage(s, mode, limit, url);
      }
  }

  lemma DeliveredPage(s: Server, mode: Mode, limit: nat, url: Url) returns (split: nat, stop: nat)
    requires ValidServer(s) && limit > 0 && url.limit > 0 && FollowsOffsets(s, mode, url) && url.start < s.n
    requires Get(s, url).Page? && Get(s, url).results != []
    ensures Delivers(s, url, Trace(s, mode, limit, url), split, stop)
    decreases s.n - url.start, 0
  {
    hide Trace, OneByOne, PageEvents, FirstError, Delivers, Link, NextUrl, Range, YieldsOf, Taken;
    TraceStep(s, mode, limit, url, []);
    PageIsGood(s, url);
    PageYields(s, mode, url);
    LinkFollows(s, mode, url);
    var trace := Trace(s, mode, limit, url);
    var next := NextUrl(s, mode, url);
    var page := PageEvents(s, mode, url);
    assert [] + trace == trace && [] + page == page;
    if next.Some? && next.value.start < s.n {
      var restSplit;
      restSplit, stop := TraceDelivers(s, mode, limit, next.value);
      split := if url.heavy then restSplit else url.start;
      MorePages(s, url, page, Trace(s, mode, limit, next.value), restSplit, stop);
    } else {
      if next.Some? {
        PastTheEnd(s, mode, limit, next.value);
      }
      assert page + [] == page;
      stop := s.n;
      split := if url.heavy then s.n else url.start;
      LastPage(s, url, page);
    }
  }

  lemma LinkFollows(s: Server, mode: Mode, url: Url)
    requires ValidServer(s) && url.limit > 0 && FollowsOffsets(s, mode, url) && url.start < s.n
    ensures var after := url.start + Taken(s, url);
            && after <= s.n && (NextUrl(s, mode, url).None? ==> after == s.n)
            && (NextUrl(s, mode, url).Some? ==>
                  var next := NextUrl(s, mode, url).value;
                  next.limit == url.limit &&
                  if next.start < s.n then next == url.(start := after) else after == s.n)
  {
  }

  lemma PageIsGood(s: Server, url: Url)
    requires Get(s, url).Page?
    ensures forall i :: url.start <= i < url.start + Taken(s, url) ==> i !in ErrorsOf(s, url.heavy)
  {
  }

  lemma PastTheEnd(s: Server, mode: Mode, limit: nat, url: Url)
    requires ValidServer(s) && limit > 0 && url.limit > 0 && url.start >= s.n
    ensures Trace(s, mode, limit, url) == []
  {
  }

  lemma WithoutExpansion(s: Server, url: Url, events: seq<Event>, split: nat, stop: nat)
    requires url.heavy && Delivers(s, url.(heavy := false), events, split, stop)
    ensures Delivers(s, url, events, split, stop)
  {
  }

  lemma NothingLeft(s: Server, url: Url)
    requires url.start == s.n
    ensures Delivers(s, url, [], s.n, s.n)
  {
    assert Range(s.n, s.n) == [];
  }

  lemma Refused(s: Server, url: Url)
    requires url.start < s.n && !url.heavy && Get(s, url).Failed? && Get(s, url).status != 500
    ensures Delivers(s, url, [Raise], url.start, url.start)
  {
    hide Get;
    assert url == Url(url.start, url.limit, false);
    assert Range(url.start, url.start) == [];
    assert YieldsOf([Raise]) == [];
  }

  lemma RecoveredLast(s: Server, url: Url, events: seq<Event>, call: seq<Event>)
    requires url.start <= s.n && !url.heavy && (call == [] || call == [Callback(None)])
    requires YieldsOf(events) == Filter(Retrievable(s), Range(url.start, s.n)) && forall e :: e in events ==> e.Yield?
    ensures Delivers(s, url, events + call, url.start, s.n)
  {
    hide Retrievable, Filter, Stops;
    YieldsConcat(events, call);
    assert YieldsOf([Callback(None)]) == [];
    assert Range(url.start, url.start) == [];
  }

  lemma RecoveredPage(s: Server, url: Url, events: seq<Event>, next: Url, rest: seq<Event>, split: nat, stop: nat)
    requires !url.heavy && !next.heavy && url.limit == next.limit && url.start <= next.start
    requires YieldsOf(events) == Filter(Retrievable(s), Range(url.start, next.start))
    requires (forall e :: e in events ==> e.Yield?) && Delivers(s, next, rest, split, stop)
    ensures Delivers(s, url, events + rest, url.start, stop)
  {
    YieldsConcat(events, rest);
    FilterRange(Retrievable(s), url.start, next.start, stop);
    assert Range(url.start, url.start) == [] && Range(split, split) == [];
    hide Retrievable, Filter, Stops, YieldsOf, Range;
    assert [] + Filter(Retrievable(s), Range(url.start, stop)) == Filter(Retrievable(s), Range(url.start, stop));
  }

  lemma LastPage(s: Server, url: Url, page: seq<Event>)
    requires url.start <= s.n && YieldsOf(page) == Range(url.start, s.n) && Raise !in page
    requires forall i :: url.start <= i < s.n ==> i !in ErrorsOf(s, url.heavy)
    ensures Delivers(s, url, page, if url.heavy then s.n else url.start, s.n)
  {
    assert Range(s.n, s.n) == [] && Range(url.start, url.start) == [];
    if url.heavy {
      forall i | url.start <= i < s.n ensures i !in s.heavyErrors {
        assert i !in ErrorsOf(s, url.heavy);
      }
    } else {
      forall i | url.start <= i < s.n ensures Retrievable(s)(i) {
        assert i !in ErrorsOf(s, url.heavy);
      }
      FilterWhole(Retrievable(s), url.start, s.n);
    }
  }

  lemma MorePages(s: Server, url: Url, page: seq<Event>, rest: seq<Event>, split: nat, stop: nat)
    requires YieldsOf(page) == Range(url.start, url.start + Taken(s, url)) && Raise !in page
    requires forall i :: url.start <= i < url.start + Taken(s, url) ==> i !in ErrorsOf(s, url.heavy)
    requires Delivers(s, url.(start := url.start + Taken(s, url)), rest, split, stop)
    ensures Delivers(s, url, page + rest, if url.heavy then split else url.start, stop)
  {
    hide Taken, Filter, Stops, YieldsOf;
    var after := url.start + Taken(s, url);
    YieldsConcat(page, rest);
    var tail := Filter(Retrievable(s), Range(split, stop));
    if url.heavy {
      RangeConcat(url.start, after, split);
      assert Range(url.start, after) + (Range(after, split) + tail) == (Range(url.start, after) + Range(after, split)) + tail;
      forall i | url.start <= i < split ensures i !in s.heavyErrors {
        assert i < after ==> i !in ErrorsOf(s, url.heavy);
      }
    } else {
      assert Range(after, after) == [] && Range(url.start, url.start) == [];
      forall i | url.start <= i < after ensures Retrievable(s)(i) {
        assert i !in ErrorsOf(s, url.heavy);
      }
      FilterWhole(Retrievable(s), url.start, after);
      FilterRange(Retrievable(s), url.start, after, stop);
    }
  }

  /** With a next-page callback (or forced offsets), whatever the server's cap and whichever items make their
      page fail with 500, every item from the offset on that can be retrieved without the problematic
      expansion is delivered, once and in order. The only others are ones the expansion did not spoil. */
  lemma DeliversRetrievable(s: Server, mode: Mode, limit: nat, url: Url)
    requires ValidServer(s) && limit > 0 && url.limit > 0 && FollowsOffsets(s, mode, url) && url.start <= s.n
    requires OnlyServerErrors(s)
    ensures var delivered := YieldsOf(Trace(s, mode, limit, url));
            && Increasing(delivered)
            && (forall i :: url.start <= i < s.n && i !in s.errors ==> i in delivered)
            && (forall i :: i in delivered ==>
                  url.start <= i < s.n && (i !in s.errors || (url.heavy && i !in s.heavyErrors)))
            && (s.errors.Keys <= s.heavyErrors.Keys ==> delivered == Filter(Retrievable(s), Range(url.start, s.n)))
    ensures Raise !in Trace(s, mode, limit, url)
  {
    hide Trace, YieldsOf, Filter, FirstError;
    var split, stop := TraceDelivers(s, mode, limit, url);
    ErrorIsListed(s.errors, stop, Taken(s, Url(stop, url.limit, false)));
    assert !Stops(s, url.limit, stop);
    hide Stops, Taken;
    SplitDelivery(s, url.start, split, s.n);
    if s.errors.Keys <= s.heavyErrors.Keys {
      FilterWhole(Retrievable(s), url.start, split);
      FilterRange(Retrievable(s), url.start, split, s.n);
    }
  }

  lemma SplitDelivery(s: Server, start: nat, split: nat, stop: nat)
    requires start <= split <= stop
    ensures var delivered := Range(start, split) + Filter(Retrievable(s), Range(split, stop));
            && Increasing(delivered)
            && (forall i :: start <= i < stop && i !in s.errors ==> i in delivered)
            && (forall i :: i in delivered ==> start <= i < stop && (i !in s.errors || i < split))
  {
    hide Filter;
    FilterMembers(Retrievable(s), Range(split, stop));
    FilterIncreasing(Retrievable(s), Range(split, stop));
    var late := Filter(Retrievable(s), Range(split, stop));
    forall i | 0 <= i < |late| ensures split <= late[i] < stop {
      assert late[i] in late;
    }
    forall i | start <= i < stop ensures i in Range(start, split) || i in Range(split, stop) {
      assert if i < split then Range(start, split)[i - start] == i else Range(split, stop)[i - split] == i;
    }
  }

  lemma FilterIncreasing(keep: nat -> bool, indices: seq<nat>)
    requires Increasing(indices)
    ensures Increasing(Filter(keep, indices))
  {
    if indices != [] {
      var n := |indices| - 1;
      FilterIncreasing(keep, indices[..n]);
      FilterMembers(keep, indices[..n]);
      forall i | 0 <= i < |Filter(keep, indices[..n])| ensures Filter(keep, indices[..n])[i] < indices[n] {
        assert Filter(keep, indices[..n])[i] in indices[..n];
      }
    }
  }

  lemma ErrorIsListed(errors: map<nat, nat>, start: nat, count: nat)
    ensures FirstError(errors, start, count).Some? ==> FirstError(errors, start, count).value in errors.Values
    decreases count
  {
    if count > 0 && start in errors {
      assert errors[start] in errors.Values;
    }
  }

  // ---------------------------------------------------------------- without a callback

  /** Whether the page at `url` answers while the problematic expansion is still asked for. */
  predicate StaysHeavy(s: Server, url: Url) {
    url.heavy && FirstError(s.heavyErrors, url.start, Taken(s, url)).None?
  }

  /** Whether the page at `url` ends up being read item by item. */
  predicate Recovers(s: Server, url: Url) {
    !StaysHeavy(s, url) && FirstError(s.errors, url.start, Taken(s, url)).Some?
  }

  function LinkedNext(s: Server, limit: nat, url: Url): Url {
    url.(start := url.start + (if Recovers(s, url) then limit else url.limit), heavy := StaysHeavy(s, url))
  }

  function FrontOf(s: Server, limit: nat, url: Url): seq<nat> {
    if Recovers(s, url) then Filter(Retrievable(s), Range(url.start, Min(url.start + limit, s.n)))
    else Range(url.start, url.start + Taken(s, url))
  }

  /** Page by page: it is read item by item, or nothing that could be had lies between what the server returned
      of it and the offset its link goes on from. */
  ghost predicate SkipsNothing(s: Server, limit: nat, url: Url)
    requires ValidServer(s) && limit > 0 && url.limit > 0
    decreases s.n - url.start
  {
    url.start >= s.n
    || (&& (Recovers(s, url) || forall i :: url.start + Taken(s, url) <= i < Min(url.start + url.limit, s.n) ==> i in s.errors)
        && SkipsNothing(s, limit, LinkedNext(s, limit, url)))
  }

  const FOLLOWING_LINKS: Mode := Mode(false, false)

  /** One page, and the rest from where its link goes on. */
  lemma {:induction false} LinkStep(s: Server, limit: nat, url: Url)
    requires ValidServer(s) && limit > 0 && url.limit > 0 && url.start < s.n && OnlyServerErrors(s)
    ensures var next := LinkedNext(s, limit, url);
            YieldsOf(Trace(s, FOLLOWING_LINKS, limit, url))
            == FrontOf(s, limit, url)
               + if next.start < s.n then YieldsOf(Trace(s, FOLLOWING_LINKS, limit, next)) else []
    decreases url.heavy
  {
    hide Trace, OneByOne, PageEvents, YieldsOf, Range, FirstError, Retrievable;
    TraceStep(s, FOLLOWING_LINKS, limit, url, []);
    var trace := Trace(s, FOLLOWING_LINKS, limit, url);
    assert [] + trace == trace;
    match Get(s, url)
    case Failed(status) =>
      if url.heavy {
        LinkStep(s, limit, url.(heavy := false));
      } else {
        ErrorIsListed(s.errors, url.start, Taken(s, url));
        RecoveredStep(s, limit, url);
      }
    case Page(_, _) => LinkedStep(s, limit, url);
  }

  lemma RecoveredStep(s: Server, limit: nat, url: Url)
    requires ValidServer(s) && limit > 0 && url.limit > 0 && url.start < s.n
    requires !url.heavy && Get(s, url) == Failed(500)
    ensures var next := url.(start := url.start + limit);
            YieldsOf(Trace(s, FOLLOWING_LINKS, limit, url))
            == Filter(Retrievable(s), Range(url.start, Min(url.start + limit, s.n)))
               + if next.start < s.n then YieldsOf(Trace(s, FOLLOWING_LINKS, limit, next)) else []
  {
    hide Trace, OneByOne, Range, Retrievable, Filter, Get, YieldsOf;
    var next := url.(start := url.start + limit);
    var events, empty := OneByOne(s, false, url.start, limit).0, OneByOne(s, false, url.start, limit).1;
    RecoveredTrace(s, limit, url);
    RecoveryEnds(s, url.start, limit);
    RecoveryDelivers(s, url.start, limit);
    YieldsConcat(events, if empty then [] else Trace(s, FOLLOWING_LINKS, limit, next));
    NoEvents();
    if next.start >= s.n {
      PastTheEnd(s, FOLLOWING_LINKS, limit, next);
    }
  }

  lemma RecoveredTrace(s: Server, limit: nat, url: Url)
    requires ValidServer(s) && limit > 0 && url.limit > 0 && !url.heavy && Get(s, url) == Failed(500)
    ensures var (events, empty) := OneByOne(s, false, url.start, limit);
            var next := url.(start := url.start + limit);
            Trace(s, FOLLOWING_LINKS, limit, url)
            == events + if empty then [] else Trace(s, FOLLOWING_LINKS, limit, next)
  {
    hide OneByOne, Get;
  }

  lemma LinkedStep(s: Server, limit: nat, url: Url)
    requires ValidServer(s) && limit > 0 && url.limit > 0 && url.start < s.n && Get(s, url).Page?
    ensures var next := url.(start := url.start + url.limit);
            YieldsOf(Trace(s, FOLLOWING_LINKS, limit, url))
            == Range(url.start, url.start + Taken(s, url))
               + if next.start < s.n then YieldsOf(Trace(s, FOLLOWING_LINKS, limit, next)) else []
  {
    hide Trace, OneByOne, PageEvents, Range, FirstError;
    TraceStep(s, FOLLOWING_LINKS, limit, url, []);
    var trace := Trace(s, FOLLOWING_LINKS, limit, url);
    var page := PageEvents(s, FOLLOWING_LINKS, url);
    var next := url.(start := url.start + url.limit);
    PageYields(s, FOLLOWING_LINKS, url);
    assert [] + trace == trace && [] + page == page;
    var rest := if NextUrl(s, FOLLOWING_LINKS, url).None? then [] else Trace(s, FOLLOWING_LINKS, limit, next);
    YieldsConcat(page, rest);
    if next.start >= s.n {
      PastTheEnd(s, FOLLOWING_LINKS, limit, next);
    }
  }

  lemma FrontMembers(s: Server, limit: nat, url: Url, i: nat)
    requires ValidServer(s) && limit > 0 && url.limit > 0 && url.start < s.n
    ensures i in FrontOf(s, limit, url) ==> url.start <= i < LinkedNext(s, limit, url).start
    ensures url.start <= i < Min(LinkedNext(s, limit, url).start, s.n) && i !in s.errors ==>
              (i in FrontOf(s, limit, url) <==> Recovers(s, url) || i < url.start + Taken(s, url))
  {
    var stop := Min(url.start + limit, s.n);
    FilterMembers(Retrievable(s), Range(url.start, stop));
    hide Filter, FirstError, StaysHeavy;
    InRange(url.start, stop, i);
    InRange(url.start, url.start + Taken(s, url), i);
  }

  lemma InRange(a: nat, b: nat, i: nat)
    ensures i in Range(a, b) <==> a <= i < b
  {
    assert a <= i < b ==> Range(a, b)[i - a] == i;
  }

  lemma {:induction false} LinksOnlyForward(s: Server, limit: nat, url: Url, i: nat)
    requires ValidServer(s) && limit > 0 && url.limit > 0 && OnlyServerErrors(s)
    requires url.start < s.n && i in YieldsOf(Trace(s, FOLLOWING_LINKS, limit, url))
    ensures url.start <= i
    decreases s.n - url.start
  {
    hide Trace, YieldsOf, FrontOf, Recovers, StaysHeavy, Taken;
    LinkStep(s, limit, url);
    FrontMembers(s, limit, url, i);
    var next := LinkedNext(s, limit, url);
    if i !in FrontOf(s, limit, url) {
      LinksOnlyForward(s, limit, next, i);
    }
  }

  ghost predicate Lossless(s: Server, limit: nat, url: Url)
    requires ValidServer(s) && limit > 0 && url.limit > 0
  {
    forall i :: url.start <= i < s.n && i !in s.errors ==> i in YieldsOf(Trace(s, FOLLOWING_LINKS, limit, url))
  }

  /** Without a callback or forced offsets the server's own link is followed, which adds the limit asked for.
      Whichever items fail with 500, no retrievable item is lost if and only if no page skips one. */
  lemma {:induction false} LinksLoseCappedItems(s: Server, limit: nat, url: Url)
    requires ValidServer(s) && limit > 0 && url.limit > 0 && OnlyServerErrors(s)
    ensures Lossless(s, limit, url) <==> SkipsNothing(s, limit, url)
    decreases s.n - url.start
  {
    hide Trace, YieldsOf, FrontOf, Recovers, StaysHeavy, Taken;
    if url.start < s.n {
      var next := LinkedNext(s, limit, url);
      assert next.start > url.start;
      LinksLoseCappedItems(s, limit, next);
      LinkStep(s, limit, url);
      PageDecides(s, limit, url);
    }
  }

  /** An item before the next offset is delivered with this page or not at all, a later one with the rest. */
  lemma PageDecides(s: Server, limit: nat, url: Url)
    requires ValidServer(s) && limit > 0 && url.limit > 0 && OnlyServerErrors(s) && url.start < s.n
    ensures var next := LinkedNext(s, limit, url);
            Lossless(s, limit, url) <==>
            && (Recovers(s, url)
                || forall i :: url.start + Taken(s, url) <= i < Min(url.start + url.limit, s.n) ==> i in s.errors)
            && Lossless(s, limit, next)
  {
    hide Trace, YieldsOf, FrontOf, StaysHeavy;
    var next := LinkedNext(s, limit, url);
    var front := FrontOf(s, limit, url);
    LinkStep(s, limit, url);
    var all := YieldsOf(Trace(s, FOLLOWING_LINKS, limit, url));
    var rest := if next.start < s.n then YieldsOf(Trace(s, FOLLOWING_LINKS, limit, next)) else [];
    forall i: nat | url.start <= i < s.n && i !in s.errors
      ensures i in all <==> if i < next.start then Recovers(s, url) || i < url.start + Taken(s, url) else i in rest
    {
      FrontMembers(s, limit, url, i);
      assert i in all <==> i in front || i in rest;
      if i in rest {
        LinksOnlyForward(s, limit, next, i);
      }
    }
  }

  /** Where no item fails, nothing is lost exactly when no page is cut short or the first page is the last. */
  lemma CappedWithoutFailures(s: Server, limit: nat, url: Url)
    requires ValidServer(s) && limit > 0 && url.limit > 0 && url.start <= s.n
    requires s.errors == map[] && s.heavyErrors == map[]
    ensures YieldsOf(Trace(s, FOLLOWING_LINKS, limit, url)) == Range(url.start, s.n)
       <==> url.limit <= s.cap || s.n <= url.start + s.cap
  {
    hide Trace, YieldsOf;
    var next := LinkedNext(s, limit, url);
    if url.limit <= s.cap {
      DeliversRetrievable(s, FOLLOWING_LINKS, limit, url);
      FilterWhole(Retrievable(s), url.start, s.n);
    } else if url.start == s.n {
      PastTheEnd(s, FOLLOWING_LINKS, limit, url);
      NoEvents();
    } else {
      LinkStep(s, limit, url);
      var lost := url.start + s.cap;
      InRange(url.start, s.n, lost);
      if lost < s.n && next.start < s.n && lost in YieldsOf(Trace(s, FOLLOWING_LINKS, limit, next)) {
        LinksOnlyForward(s, limit, next, lost);
      }
      FrontMembers(s, limit, url, lost);
    }
  }
}
