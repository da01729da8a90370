/** Offset pagination against a Confluence server, with one-by-one recovery from failing pages. */
module ConfluencePagination {
  import opened Sequences

  const DEFAULT_PAGINATION_LIMIT: nat := 1000

  /** The part of a request's URL that pagination reads and rewrites. `heavy` says that the URL still asks for
      the problematic expansion. */
  datatype Url = Url(start: nat, limit: nat, heavy: bool)

  /** A server that holds items 0 .. n-1 and returns at most `cap` of them a page. An item in `heavyErrors` or
      `errors` makes every page that contains it fail with that status, with the problematic expansion or
      without it. At the offsets in `lies` the server offers a next page although nothing is left. */
  datatype Server = Server(n: nat, cap: nat, heavyErrors: map<nat, nat>, errors: map<nat, nat>, lies: set<nat>)

  datatype Response = Failed(status: nat) | Page(results: seq<nat>, next: Option<Url>)

  /** What the caller of the generator sees, in order. `Callback(None)` is the empty next-page URL. */
  datatype Event = Yield(index: nat) | Callback(url: Option<Url>) | Raise

  /** Whether a next-page callback is given, and whether offset pagination is forced. */
  datatype Mode = Mode(callback: bool, forceOffset: bool)

  predicate ValidServer(s: Server) {
    s.cap > 0
  }

  function Range(a: nat, b: nat): seq<nat> {
    if a <= b then seq(b - a, (i: nat) => a + i) else []
  }

  function ErrorsOf(s: Server, heavy: bool): map<nat, nat> {
    if heavy then s.heavyErrors else s.errors
  }

  /** How many items the server's page covers. */
  function Taken(s: Server, url: Url): (r: nat)
    ensures r <= url.limit && r <= s.cap && (url.start < s.n ==> url.start + r <= s.n)
  {
    if url.start < s.n then Min(Min(url.limit, s.cap), s.n - url.start) else 0
  }

  function FirstError(errors: map<nat, nat>, start: nat, count: nat): (r: Option<nat>)
    ensures r.None? <==> forall i :: start <= i < start + count ==> i !in errors
    decreases count
  {
    if count == 0 then None
    else if start in errors then Some(errors[start])
    else FirstError(errors, start + 1, count - 1)
  }

  /** The server's own link: it adds the limit asked for, not the number of items returned. */
  function Link(s: Server, url: Url): Option<Url> {
    if url.start + Taken(s, url) < s.n || url.start in s.lies then Some(url.(start := url.start + url.limit)) else None
  }

  function Get(s: Server, url: Url): Response {
    var taken := Taken(s, url);
    var error := FirstError(ErrorsOf(s, url.heavy), url.start, taken);
    if error.Some? then Failed(error.value) else Page(Range(url.start, url.start + taken), Link(s, url))
  }

  // ---------------------------------------------------------------- what is delivered

  function Yields(indices: seq<nat>): seq<Event> {
    seq(|indices|, i requires 0 <= i < |indices| => Yield(indices[i]))
  }

  /** Recovery of `count` items from `start`, and whether it ran into an empty page. */
  function OneByOne(s: Server, heavy: bool, start: nat, count: nat): (seq<Event>, bool)
    decreases count
  {
    if count == 0 then ([], false)
    else if start >= s.n then ([], true)
    else
      var (rest, empty) := OneByOne(s, heavy, start + 1, count - 1);
      (if start in ErrorsOf(s, heavy) then rest else [Yield(start)] + rest, empty)
  }

  /** The request that follows a page of `taken` items. */
  function NextUrl(s: Server, mode: Mode, url: Url): Option<Url> {
    var link := Link(s, url);
    var after := url.start + Taken(s, url);
    if link.Some? && mode.callback then Some(link.value.(start := after))
    else if mode.forceOffset then Some(url.(start := after))
    else link
  }

  /** The callback comes just before the last item of its page. */
  function PageEvents(s: Server, mode: Mode, url: Url): seq<Event>
    requires Taken(s, url) > 0
  {
    var last := url.start + Taken(s, url) - 1;
    Yields(Range(url.start, last))
    + (if Link(s, url).Some? && mode.callback then [Callback(NextUrl(s, mode, url))] else [])
    + [Yield(last)]
  }

  function Trace(s: Server, mode: Mode, limit: nat, url: Url): seq<Event>
    requires ValidServer(s) && limit > 0 && url.limit > 0
    decreases s.n - url.start, if url.heavy then 1 else 0
  {
    match Get(s, url)
    case Failed(status) =>
      if url.heavy then Trace(s, mode, limit, url.(heavy := false))
      else if status == 500 then
        var (events, empty) := OneByOne(s, url.heavy, url.start, limit);
        if empty then events + (if mode.callback then [Callback(None)] else [])
        else events + Trace(s, mode, limit, url.(start := url.start + limit))
      else [Raise]
    case Page(results, _) =>
      if results == [] then []
      else
        var next := NextUrl(s, mode, url);
        PageEvents(s, mode, url) + (if next.None? then [] else Trace(s, mode, limit, next.value))
  }

  /** A request for one item: nothing past the end, a failure, or the item. */
  lemma SingleItem(s: Server, start: nat, heavy: bool)
    requires ValidServer(s)
    ensures var r := Get(s, Url(start, 1, heavy));
            if start >= s.n then r.Page? && r.results == []
            else if start in ErrorsOf(s, heavy) then r.Failed?
            else r.Page? && r.results == [start]
  {
  }

  lemma OneByOneStep(s: Server, heavy: bool, start: nat, count: nat, before: seq<Event>)
    requires ValidServer(s) && count > 0
    ensures var (all, empty) := OneByOne(s, heavy, start, count);
            var (rest, restEmpty) := OneByOne(s, heavy, start + 1, count - 1);
            var r := Get(s, Url(start, 1, heavy));
            && (r.Failed? ==> all == rest && empty == restEmpty)
            && (r.Page? && r.results == [] ==> all == [] && empty)
            && (r.Page? && r.results != [] ==>
                  before + all == (before + Yields(r.results)) + rest && empty == restEmpty)
  {
    SingleItem(s, start, heavy);
    assert Yields([start]) == [Yield(start)];
    hide Get, Yields;
    var rest := OneByOne(s, heavy, start + 1, count - 1).0;
    assert before + ([Yield(start)] + rest) == (before + [Yield(start)]) + rest;
  }

  lemma NoneTried(s: Server, heavy: bool, start: nat)
    ensures OneByOne(s, heavy, start, 0) == ([], false)
  {
  }

  method TryOneByOne(s: Server, url: Url, initialStart: nat, limit: nat) returns (events: seq<Event>, next: Option<Url>)
    requires ValidServer(s)
    ensures var (all, empty) := OneByOne(s, url.heavy, initialStart, limit);
            events == all && next == if empty then None else Some(url.(start := initialStart + limit))
  {
    hide OneByOne, Get, Yields;
    events := [];
    NoneTried(s, url.heavy, initialStart + limit);
    for ind := 0 to limit
      invariant OneByOne(s, url.heavy, initialStart, limit).0
             == events + OneByOne(s, url.heavy, initialStart + ind, limit - ind).0
      invariant OneByOne(s, url.heavy, initialStart, limit).1 == OneByOne(s, url.heavy, initialStart + ind, limit - ind).1
    {
      OneByOneStep(s, url.heavy, initialStart + ind, limit - ind, events);
      var response := Get(s, Url(initialStart + ind, 1, url.heavy));
      if response.Page? {
        if response.results == [] {
          return events, None;
        }
        events := events + Yields(response.results);
      }
    }
    next := Some(url.(start := initialStart + limit));
  }

  lemma TraceStep(s: Server, mode: Mode, limit: nat, url: Url, before: seq<Event>)
    requires ValidServer(s) && limit > 0 && url.limit > 0
    ensures var trace := Trace(s, mode, limit, url);
            match Get(s, url)
            case Failed(status) =>
              url.start < s.n &&
              if url.heavy then trace == Trace(s, mode, limit, url.(heavy := false))
              else if status == 500 then
                var (events, empty) := OneByOne(s, url.heavy, url.start, limit);
                if empty then before + trace == before + events + (if mode.callback then [Callback(None)] else [])
                else before + trace == before + events + Trace(s, mode, limit, url.(start := url.start + limit))
              else trace == [Raise]
            case Page(results, link) =>
              link == Link(s, url) && |results| == Taken(s, url) && (url.start < s.n <==> results != []) &&
              if results == [] then trace == []
              else
                var next := NextUrl(s, mode, url);
                before + trace
                == before + PageEvents(s, mode, url) + if next.None? then [] else Trace(s, mode, limit, next.value)
  {
    hide OneByOne, PageEvents, Link, NextUrl;
  }

  /** One page's results, and the URL of the next page. */
  method DeliverPage(s: Server, mode: Mode, oldUrl: Url, results: seq<nat>, link: Option<Url>)
    returns (events: seq<Event>, url: Option<Url>)
    requires ValidServer(s) && oldUrl.limit > 0 && Get(s, oldUrl) == Page(results, link)
    ensures results == [] ==> events == [] && url == link
    ensures results != [] ==> events == PageEvents(s, mode, oldUrl) && url == NextUrl(s, mode, oldUrl)
  {
    hide FirstError;
    events := [];
    url := link;
    var updatedStart := oldUrl.start;
    for i := 0 to |results|
      invariant updatedStart == oldUrl.start + i
      invariant i < |results| ==> url == link && events == Yields(results[..i])
      invariant i == |results| > 0 ==> url == NextUrl(s, mode, oldUrl) && events == PageEvents(s, mode, oldUrl)
      invariant results == [] ==> url == link && events == []
    {
      updatedStart := updatedStart + 1;
      assert results[..i] == Range(oldUrl.start, oldUrl.start + i);
      assert i < |results| - 1 ==> Yields(results[..i + 1]) == Yields(results[..i]) + [Yield(results[i])];
      if url.Some? && mode.callback && i == |results| - 1 {
        url := Some(url.value.(start := updatedStart));
        events := events + [Callback(url)];
      } else if mode.forceOffset && i == |results| - 1 {
        url := Some(oldUrl.(start := updatedStart));
      }
      events := events + [Yield(results[i])];
    }
  }

  method PaginateUrl(s: Server, urlSuffix: Url, limitGiven: Option<nat>, mode: Mode) returns (events: seq<Event>)
    requires ValidServer(s)
    ensures var limit := if limitGiven.None? || limitGiven.value == 0 then DEFAULT_PAGINATION_LIMIT else limitGiven.value;
            events == Trace(s, mode, limit, urlSuffix.(limit := limit))
  {
    hide Trace, Get, OneByOne, PageEvents;
    var limit := if limitGiven.None? || limitGiven.value == 0 then DEFAULT_PAGINATION_LIMIT else limitGiven.value;
    var url := Some(urlSuffix.(limit := limit));
    events := [];
    while url.Some?
      invariant url.Some? ==> url.value.limit > 0
      invariant Trace(s, mode, limit, urlSuffix.(limit := limit))
             == events + if url.Some? then Trace(s, mode, limit, url.value) else []
      decreases url.Some?, if url.Some? then s.n - url.value.start else 0, url.Some? && url.value.heavy
    {
      var u := url.value;
      var response := Get(s, u);
      TraceStep(s, mode, limit, u, events);
      if response.Failed? {
        if u.heavy {
          url := Some(u.(heavy := false));
          continue;
        }
        if response.status == 500 {
          var recovered, next := TryOneByOne(s, u, u.start, limit);
          events := events + recovered;
          if next.None? {
            if mode.callback {
              events := events + [Callback(None)];
            }
            return;
          }
          url := next;
          continue;
        }
        events := events + [Raise];
        return;
      }
      var delivered, next := DeliverPage(s, mode, u, response.results, response.next);
      events := events + delivered;
      url := next;
      if url.Some? && response.results == [] {
        return;
      }
    }
  }
}
