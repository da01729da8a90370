/** The Notion connector: recursive indexing of a page graph and the cache of page paths. */
module NotionTraversal {
  import opened Sequences

  type PageId = string

  /** A page as fetched: its title if it has one, its parent page or database if it has one, the ids of its
      child pages in block order, whether any block text was read, and its attachments. */
  datatype Page = Page(id: PageId, title: Option<string>, editedAt: int, parent: Option<PageId>,
                       children: seq<PageId>, hasBlocks: bool, attachments: seq<string>)

  /** The pages that can be fetched. */
  type Remote = map<PageId, Page>

  /** A polling window: edited after the first and not after the second. */
  type Window = Option<(int, int)>

  datatype Doc = PageDoc(id: PageId, semanticId: string) | AttachmentDoc(blockId: string)

  const INDEX_BATCH_SIZE: nat := 2

  /** Every page is stored under its id and every child can be fetched. */
  ghost predicate ValidRemote(r: Remote) {
    forall id :: id in r ==> r[id].id == id && forall c :: c in r[id].children ==> c in r
  }

  predicate InWindow(w: Window, p: Page) {
    w.Some? ==> w.value.0 < p.editedAt <= w.value.1
  }

  predicate HasTitle(p: Page) {
    p.title.Some? && p.title.value != ""
  }

  function TitleOf(p: Page): string {
    if HasTitle(p) then p.title.value else "Untitled Page " + p.id
  }

  // ---------------------------------------------------------------- reachability

  /** A chain of in-window pages from one of `roots`, each a child of the one before; without recursion
      only the roots themselves. */
  ghost predicate IsChain(r: Remote, w: Window, recursive: bool, roots: set<PageId>, chain: seq<PageId>) {
    && chain != [] && chain[0] in roots
    && (recursive || |chain| == 1)
    && (forall i :: 0 <= i < |chain| ==>
          chain[i] in r && (w.None? || w.value.0 < r[chain[i]].editedAt <= w.value.1))
    && (forall i :: 0 < i < |chain| ==> chain[i] in r[chain[i - 1]].children)
  }

  ghost predicate Reachable(r: Remote, w: Window, recursive: bool, roots: set<PageId>, id: PageId) {
    exists chain :: IsChain(r, w, recursive, roots, chain) && chain[|chain| - 1] == id
  }

  /** Every in-window child of a page of `s` is in `s`. */
  ghost predicate ClosedUnder(r: Remote, w: Window, s: set<PageId>, all: set<PageId>) {
    forall id, c :: id in s && id in r && c in r[id].children && c in r && InWindow(w, r[c]) ==> c in all
  }

  lemma {:induction false} ClosedContains(r: Remote, w: Window, recursive: bool, roots: set<PageId>,
                                          s: set<PageId>, chain: seq<PageId>)
    requires IsChain(r, w, recursive, roots, chain)
    requires forall id :: id in roots && id in r && InWindow(w, r[id]) ==> id in s
    requires recursive ==> ClosedUnder(r, w, s, s)
    ensures chain[|chain| - 1] in s
    decreases |chain|
  {
    if |chain| > 1 {
      var shorter := chain[..|chain| - 1];
      ClosedContains(r, w, recursive, roots, s, shorter);
    }
  }

  lemma RootReachable(r: Remote, w: Window, recursive: bool, roots: set<PageId>, id: PageId)
    requires id in roots && id in r && InWindow(w, r[id])
    ensures Reachable(r, w, recursive, roots, id)
  {
    assert IsChain(r, w, recursive, roots, [id]);
  }

  lemma ChainsJoin(r: Remote, w: Window, roots: set<PageId>, middle: set<PageId>, head: seq<PageId>, tail: seq<PageId>)
    requires IsChain(r, w, true, roots, head) && IsChain(r, w, true, middle, tail)
    requires head[|head| - 1] in r && tail[0] in r[head[|head| - 1]].children
    ensures IsChain(r, w, true, roots, head + tail)
    ensures (head + tail)[|head + tail| - 1] == tail[|tail| - 1]
  {
    hide InWindow;
  }

  /** What is reachable from the children of reachable pages is reachable. */
  lemma ReachableFurther(r: Remote, w: Window, roots: set<PageId>, middle: set<PageId>, id: PageId)
    requires Reachable(r, w, true, middle, id)
    requires forall m :: m in middle ==> exists p :: p in r && Reachable(r, w, true, roots, p) && m in r[p].children
    ensures Reachable(r, w, true, roots, id)
  {
    hide InWindow;
    var tail :| IsChain(r, w, true, middle, tail) && tail[|tail| - 1] == id;
    var p :| p in r && Reachable(r, w, true, roots, p) && tail[0] in r[p].children;
    var head :| IsChain(r, w, true, roots, head) && head[|head| - 1] == p;
    ChainsJoin(r, w, roots, middle, head, tail);
  }

  // ---------------------------------------------------------------- paths

  /** The chain of parents that can be fetched ends after `k` steps. */
  ghost predicate RootIn(r: Remote, p: Page, k: nat)
    decreases k
  {
    if p.parent.None? || p.parent.value !in r then k == 0
    else k > 0 && RootIn(r, r[p.parent.value], k - 1)
  }

  /** The titles from the root down to the page. */
  ghost function PathText(r: Remote, p: Page, k: nat): string
    requires RootIn(r, p, k)
    decreases k
  {
    var title := if p.title.Some? && p.title.value != "" then p.title.value else "Untitled Page " + p.id;
    if k == 0 then title else PathText(r, r[p.parent.value], k - 1) + " / " + title
  }

  lemma RootInUnique(r: Remote, p: Page, j: nat, k: nat)
    requires RootIn(r, p, j) && RootIn(r, p, k)
    ensures j == k
    decreases k
  {
    if p.parent.Some? && p.parent.value in r {
      RootInUnique(r, r[p.parent.value], j - 1, k - 1);
    }
  }

  lemma PathNonEmpty(r: Remote, p: Page, k: nat)
    requires RootIn(r, p, k)
    ensures PathText(r, p, k) != ""
  {
  }

  ghost predicate CacheCorrect(r: Remote, cache: map<PageId, string>) {
    forall id, k: nat :: id in cache && id in r && RootIn(r, r[id], k) ==> cache[id] == PathText(r, r[id], k)
  }

  /** The pages being resolved lie below `p`. */
  ghost predicate Below(r: Remote, visited: set<PageId>, p: Page) {
    forall v, j: nat, k: nat :: v in visited && v in r && RootIn(r, r[v], j) && RootIn(r, p, k) ==> j > k
  }

  lemma {:induction false} NotBelowItself(r: Remote, visited: set<PageId>, p: Page, k: nat)
    requires p.id in r && r[p.id] == p && Below(r, visited, p) && RootIn(r, p, k)
    ensures p.id !in visited
  {
    assert RootIn(r, r[p.id], k);
  }

  lemma {:induction false} BelowParent(r: Remote, visited: set<PageId>, p: Page)
    requires p.id in r && r[p.id] == p && Below(r, visited, p) && p.parent.Some? && p.parent.value in r
    ensures Below(r, visited + {p.id}, r[p.parent.value])
  {
    var q := r[p.parent.value];
    forall v, j: nat, k: nat | v in visited + {p.id} && v in r && RootIn(r, r[v], j) && RootIn(r, q, k) ensures j > k {
      assert RootIn(r, p, k + 1);
      if v == p.id {
        RootInUnique(r, p, j, k + 1);
      }
    }
  }

  /** What a page's own step makes of its parent's path. */
  function Joined(parentPath: Option<string>, title: string): string {
    if parentPath.Some? && parentPath.value != "" then parentPath.value + " / " + title else title
  }

  /** If the parent's path came out right wherever there is a root, so does the page's. */
  lemma {:induction false} JoinedIsPath(r: Remote, visited: set<PageId>, p: Page, parentPath: Option<string>,
                                        cache: map<PageId, string>, k: nat)
    requires ValidRemote(r) && p.id in r && r[p.id] == p && Below(r, visited, p) && RootIn(r, p, k)
    requires p.parent.None? || p.parent.value !in r ==> parentPath == None
    requires p.parent.Some? && p.parent.value in r && p.parent.value !in visited + {p.id} ==>
               p.parent.value in cache && parentPath == Some(cache[p.parent.value])
    requires CacheCorrect(r, cache)
    ensures Joined(parentPath, TitleOf(p)) == PathText(r, p, k)
  {
    if k > 0 {
      var q := r[p.parent.value];
      BelowParent(r, visited, p);
      NotBelowItself(r, visited + {p.id}, q, k - 1);
      PathNonEmpty(r, q, k - 1);
      assert cache[q.id] == PathText(r, q, k - 1);
    }
  }

  // ---------------------------------------------------------------- documents

  /** What one page yields under its path. */
  function DocsOf(p: Page, path: string): seq<Doc> {
    if !p.hasBlocks && !HasTitle(p) then []
    else [PageDoc(p.id, path + "_" + p.id)] + Attachments(p.attachments)
  }

  function Attachments(ids: seq<string>): seq<Doc> {
    seq(|ids|, i requires 0 <= i < |ids| => AttachmentDoc(ids[i]))
  }

  /** What the pages of `order` yield. */
  ghost function Yield(r: Remote, cache: map<PageId, string>, order: seq<PageId>): seq<Doc>
    requires forall id :: id in order ==> id in r && id in cache
  {
    if order == [] then []
    else
      var n := |order| - 1;
      Yield(r, cache, order[..n]) + DocsOf(r[order[n]], cache[order[n]])
  }

  lemma {:induction false} YieldSame(r: Remote, a: map<PageId, string>, b: map<PageId, string>, order: seq<PageId>)
    requires forall id :: id in order ==> id in r && id in a
    requires forall id :: id in a ==> id in b && b[id] == a[id]
    ensures Yield(r, a, order) == Yield(r, b, order)
  {
    if order != [] {
      YieldSame(r, a, b, order[..|order| - 1]);
    }
  }

  /** The pages indexed are distinct, and exactly their documents were yielded, in order. */
  ghost predicate Coherent(r: Remote, indexed: set<PageId>, cache: map<PageId, string>, yielded: seq<Doc>,
                           order: seq<PageId>)
  {
    && ValidRemote(r)
    && Distinct(order)
    && (forall id :: id in order <==> id in indexed)
    && (forall id :: id in indexed ==> id in r && id in cache)
    && yielded == Yield(r, cache, order)
    && CacheCorrect(r, cache)
  }

  ghost predicate Grew(before: map<PageId, string>, after: map<PageId, string>) {
    forall id :: id in before ==> id in after && after[id] == before[id]
  }

  lemma CoherentCache(r: Remote, indexed: set<PageId>, cache: map<PageId, string>, yielded: seq<Doc>, order: seq<PageId>,
                      page: Page)
    requires Coherent(r, indexed, cache, yielded, order)
    ensures ValidRemote(r) && CacheCorrect(r, cache) && Below(r, {}, page)
  {
    hide CacheCorrect, ValidRemote;
  }

  lemma {:induction false} OnePageMore(r: Remote, indexed: set<PageId>, cache: map<PageId, string>, yielded: seq<Doc>,
                                       order: seq<PageId>, page: Page, after: map<PageId, string>)
    requires Coherent(r, indexed, cache, yielded, order)
    requires page.id in r && r[page.id] == page && page.id !in indexed && page.id in after
    requires Grew(cache, after) && CacheCorrect(r, after)
    ensures Coherent(r, indexed + {page.id}, after, yielded + DocsOf(page, after[page.id]), order + [page.id])
  {
    hide DocsOf, CacheCorrect, ValidRemote, Yield;
    YieldSame(r, cache, after, order);
    YieldMore(r, after, order, page.id);
    assert forall id :: id in order + [page.id] <==> id in order || id == page.id;
    assert page.id !in order;
  }

  lemma YieldMore(r: Remote, cache: map<PageId, string>, order: seq<PageId>, id: PageId)
    requires (forall i :: i in order ==> i in r && i in cache) && id in r && id in cache
    ensures Yield(r, cache, order + [id]) == Yield(r, cache, order) + DocsOf(r[id], cache[id])
  {
    hide DocsOf;
    assert (order + [id])[..|order|] == order;
  }

  /** What `ReadPages` makes of the pages found below the layer in hand. */
  ghost predicate Explored(r: Remote, w: Window, roots: set<PageId>, layer: set<PageId>, now: set<PageId>) {
    && layer <= now
    && ClosedUnder(r, w, now - layer, now)
    && forall id :: id in now - layer ==> Reachable(r, w, true, roots, id)
  }

  lemma {:induction false} ExploredMore(r: Remote, w: Window, roots: set<PageId>, layer: set<PageId>, before: set<PageId>,
                                        middle: set<PageId>, after: set<PageId>)
    requires Explored(r, w, roots, layer, before) && before <= after
    requires ClosedUnder(r, w, after - before, after)
    requires forall id :: id in after - before ==> Reachable(r, w, true, middle, id)
    requires forall m :: m in middle ==> exists p :: p in r && Reachable(r, w, true, roots, p) && m in r[p].children
    ensures Explored(r, w, roots, layer, after)
  {
    hide Reachable;
    forall id | id in after - layer ensures Reachable(r, w, true, roots, id) {
      if id !in before {
        ReachableFurther(r, w, roots, middle, id);
      }
    }
  }

  /** The layer and what lies below it together: the contract of one call. */
  lemma {:induction false} LayerAndBelow(r: Remote, w: Window, roots: set<PageId>, before: set<PageId>,
                                         layer: set<PageId>, childIds: seq<PageId>, now: set<PageId>)
    requires Explored(r, w, roots, layer, now) && before <= layer
    requires forall id :: id in layer - before ==> id in roots && id in r && InWindow(w, r[id])
    requires forall id, c :: id in layer - before && c in r[id].children ==> c in childIds
    requires forall c :: c in childIds ==> c in now || c !in r || !InWindow(w, r[c])
    ensures ClosedUnder(r, w, now - before, now)
    ensures forall id :: id in now - before ==> Reachable(r, w, true, roots, id)
  {
    hide Reachable;
    forall id | id in layer - before ensures Reachable(r, w, true, roots, id) {
      RootReachable(r, w, true, roots, id);
    }
  }

  ghost function PageIds(pages: seq<Page>): set<PageId> {
    set p | p in pages :: p.id
  }

  ghost function InWindowIds(pages: seq<Page>, w: Window): set<PageId> {
    set p | p in pages && InWindow(w, p) :: p.id
  }

  lemma InWindowIdsStep(pages: seq<Page>, i: nat, w: Window)
    requires i < |pages|
    ensures InWindowIds(pages[..i + 1], w) ==
            InWindowIds(pages[..i], w) + if InWindow(w, pages[i]) then {pages[i].id} else {}
  {
    hide InWindow;
    assert pages[..i + 1] == pages[..i] + [pages[i]];
  }

  /** The pages of a batch that are not indexed yet. */
  function Fetch(ids: seq<PageId>, indexed: set<PageId>, r: Remote): (pages: seq<Page>)
    requires forall id :: id in ids ==> id in r
    ensures forall p :: p in pages ==> exists id :: id in ids && id !in indexed && p == r[id]
    ensures forall id :: id in ids && id !in indexed ==> r[id] in pages
  {
    if ids == [] then []
    else (if ids[0] in indexed then [] else [r[ids[0]]]) + Fetch(ids[1..], indexed, r)
  }

  lemma LayerFacts(r: Remote, pages: seq<Page>, w: Window)
    requires forall p :: p in pages ==> p.id in r && r[p.id] == p
    ensures InWindowIds(pages, w) <= r.Keys && InWindowIds(pages, w) <= PageIds(pages)
    ensures forall id :: id in InWindowIds(pages, w) ==> InWindow(w, r[id])
  {
  }

  lemma LayerReachable(r: Remote, w: Window, recursive: bool, pages: seq<Page>, added: set<PageId>)
    requires forall p :: p in pages ==> p.id in r && r[p.id] == p
    requires added <= InWindowIds(pages, w)
    ensures forall id :: id in added ==> Reachable(r, w, recursive, PageIds(pages), id)
  {
    LayerFacts(r, pages, w);
    hide InWindow, Reachable, InWindowIds, PageIds;
    forall id | id in added ensures Reachable(r, w, recursive, PageIds(pages), id) {
      RootReachable(r, w, recursive, PageIds(pages), id);
    }
  }

  lemma SmallerRest(r: Remote, before: set<PageId>, layer: set<PageId>, childIds: seq<PageId>)
    requires before <= layer && childIds != []
    requires forall c :: c in childIds ==> exists id :: id in layer - before && id in r && c in r[id].children
    ensures r.Keys - layer < r.Keys - before
  {
    var c := childIds[0];
    assert c in childIds;
    var id :| id in layer - before && id in r && c in r[id].children;
    assert id in r.Keys - before && id !in r.Keys - layer;
  }

  lemma NothingExplored(r: Remote, w: Window, roots: set<PageId>, layer: set<PageId>)
    ensures Explored(r, w, roots, layer, layer)
  {
    hide Reachable;
  }

  /** The first `k` children are indexed or outside the window. */
  ghost predicate BatchesDone(r: Remote, w: Window, childIds: seq<PageId>, k: nat, indexed: set<PageId>) {
    k <= |childIds| && forall i :: 0 <= i < k ==> childIds[i] in r && (childIds[i] in indexed || !InWindow(w, r[childIds[i]]))
  }

  lemma BatchDone(r: Remote, w: Window, childIds: seq<PageId>, k: nat, batch: seq<PageId>, childPages: seq<Page>,
                  before: set<PageId>, after: set<PageId>)
    requires ValidRemote(r) && k + |batch| <= |childIds| && batch == childIds[k..k + |batch|]
    requires forall id :: id in batch ==> id in r
    requires BatchesDone(r, w, childIds, k, before)
    requires before <= after && InWindowIds(childPages, w) <= after
    requires forall id :: id in batch && id !in before ==> r[id] in childPages
    ensures BatchesDone(r, w, childIds, k + |batch|, after)
  {
    hide InWindow;
    forall i | k <= i < k + |batch| ensures childIds[i] in after || !InWindow(w, r[childIds[i]]) {
      var c := childIds[i];
      assert c == batch[i - k] && c in batch;
      if c !in before && InWindow(w, r[c]) {
        assert r[c] in childPages && r[c].id in InWindowIds(childPages, w);
      }
    }
  }

  /** Each of `childIds` is a child of a page reachable from `roots`. */
  ghost predicate ChildrenOf(r: Remote, w: Window, roots: set<PageId>, childIds: seq<PageId>) {
    forall c :: c in childIds ==>
      c in r && exists p :: p in r && Reachable(r, w, true, roots, p) && c in r[p].children
  }

  lemma ChildrenOfLayer(r: Remote, w: Window, pages: seq<Page>, before: set<PageId>, layer: set<PageId>,
                        childIds: seq<PageId>)
    requires ValidRemote(r)
    requires forall p :: p in pages ==> p.id in r && r[p.id] == p
    requires layer - before <= InWindowIds(pages, w)
    requires forall c :: c in childIds ==> exists id :: id in layer - before && id in r && c in r[id].children
    ensures ChildrenOf(r, w, PageIds(pages), childIds)
  {
    LayerReachable(r, w, true, pages, layer - before);
    hide Reachable, InWindowIds;
    forall c | c in childIds
      ensures c in r && exists p :: p in r && Reachable(r, w, true, PageIds(pages), p) && c in r[p].children
    {
      var id :| id in layer - before && id in r && c in r[id].children;
      assert Reachable(r, w, true, PageIds(pages), id);
    }
  }

  lemma BatchReached(r: Remote, w: Window, roots: set<PageId>, childIds: seq<PageId>, childPages: seq<Page>)
    requires ValidRemote(r) && ChildrenOf(r, w, roots, childIds)
    requires forall p :: p in childPages ==> exists id :: id in childIds && id in r && p == r[id]
    ensures forall m :: m in PageIds(childPages) ==>
              exists p :: p in r && Reachable(r, w, true, roots, p) && m in r[p].children
  {
    hide Reachable;
  }

  class NotionConnector {
    const remote: Remote
    const recursive: bool
    var indexedPages: set<PageId>
    var pagePathCache: map<PageId, string>
    /** What the generator has yielded, and the pages in the order they were indexed. */
    var yielded: seq<Doc>
    ghost var order: seq<PageId>

    constructor (remote: Remote, recursive: bool)
      requires ValidRemote(remote)
      ensures Valid() && this.remote == remote && this.recursive == recursive
      ensures indexedPages == {} && pagePathCache == map[] && yielded == [] && order == []
    {
      this.remote := remote;
      this.recursive := recursive;
      indexedPages, pagePathCache, yielded, order := {}, map[], [], [];
    }

    ghost predicate Valid()
      reads this
    {
      Coherent(remote, indexedPages, pagePathCache, yielded, order)
    }

    /** Terminates on any parent relation, cyclic ones included: every call visits one more page. */
    method BuildPagePath(page: Page, visited: set<PageId>) returns (path: Option<string>)
      requires ValidRemote(remote) && page.id in remote && remote[page.id] == page
      requires CacheCorrect(remote, pagePathCache) && Below(remote, visited, page)
      modifies this`pagePathCache
      ensures CacheCorrect(remote, pagePathCache) && Grew(old(pagePathCache), pagePathCache)
      ensures forall v :: v in visited && v !in old(pagePathCache) ==> v !in pagePathCache
      ensures page.id !in visited || page.id in old(pagePathCache) ==>
                page.id in pagePathCache && path == Some(pagePathCache[page.id])
      decreases remote.Keys - visited
    {
      if page.id in pagePathCache {
        return Some(pagePathCache[page.id]);
      }
      if page.id in visited {
        return page.title;
      }
      var title := TitleOf(page);
      var parentPath := None;
      if page.parent.Some? && page.parent.value in remote {
        BelowParent(remote, visited, page);
        parentPath := BuildPagePath(remote[page.parent.value], visited + {page.id});
      }
      var full := Joined(parentPath, title);
      forall k: nat | RootIn(remote, page, k) ensures full == PathText(remote, page, k) {
        JoinedIsPath(remote, visited, page, parentPath, pagePathCache, k);
      }
      pagePathCache := pagePathCache[page.id := full];
      path := Some(full);
    }

    method ReadPage(page: Page)
      requires Valid() && page.id in remote && remote[page.id] == page && page.id !in indexedPages
      modifies this
      ensures Valid() && Grew(old(pagePathCache), pagePathCache)
      ensures order == old(order) + [page.id] && indexedPages == old(indexedPages) + {page.id}
    {
      hide Coherent, CacheCorrect, Below, Grew, ValidRemote;
      CoherentCache(remote, indexedPages, pagePathCache, yielded, order, page);
      var path := BuildPagePath(page, {});
      OnePageMore(remote, indexedPages, old(pagePathCache), yielded, order, page, pagePathCache);
      indexedPages := indexedPages + {page.id};
      order := order + [page.id];
      if !page.hasBlocks && !HasTitle(page) {
        assert yielded + [] == yielded;
        return;
      }
      yielded := yielded + ([PageDoc(page.id, path.value + "_" + page.id)] + Attachments(page.attachments));
    }

    /** The pages in hand: those new and in the window are read, indexed and yielded, in order. */
    method ReadLayer(pages: seq<Page>, w: Window) returns (childIds: seq<PageId>)
      requires Valid() && indexedPages <= remote.Keys
      requires forall p :: p in pages ==> p.id in remote && remote[p.id] == p
      modifies this
      ensures Valid() && Grew(old(pagePathCache), pagePathCache) && old(order) <= order
      ensures indexedPages == old(indexedPages) + InWindowIds(pages, w)
      ensures forall id, c :: id in indexedPages - old(indexedPages) && id in remote && c in remote[id].children ==> c in childIds
      ensures forall c :: c in childIds ==>
                exists id :: id in indexedPages - old(indexedPages) && id in remote && c in remote[id].children
    {
      hide Valid, Coherent, InWindow;
      childIds := [];
      for i := 0 to |pages|
        invariant Valid() && Grew(old(pagePathCache), pagePathCache) && old(order) <= order
        invariant indexedPages == old(indexedPages) + InWindowIds(pages[..i], w)
        invariant forall id, c :: id in indexedPages - old(indexedPages) && id in remote && c in remote[id].children ==> c in childIds
        invariant forall c :: c in childIds ==>
                    exists id :: id in indexedPages - old(indexedPages) && id in remote && c in remote[id].children
      {
        var page := pages[i];
        InWindowIdsStep(pages, i, w);
        if page.id in indexedPages || !InWindow(w, page) {
          assert indexedPages == old(indexedPages) + InWindowIds(pages[..i + 1], w);
          continue;
        }
        ReadPage(page);
        childIds := childIds + page.children;
      }
      assert pages[..|pages|] == pages;
    }

    /** What was yielded: for every page indexed what it calls for, under the titles from the root down wherever its
        parents end in a root, and nothing else. */
    lemma WhatWasYielded()
      requires Valid()
      ensures OncePerPage(yielded) && |yielded| == DocCount(remote, order)
      ensures forall id :: id in indexedPages ==> id in remote && IsYielded(remote, yielded, id)
      ensures forall d :: d in yielded && d.PageDoc? ==> d.id in indexedPages
    {
      hide CacheCorrect, HasContent, PageAt, Yield, IsYielded;
      YieldedOnce(remote, pagePathCache, order);
      forall id | id in indexedPages ensures IsYielded(remote, yielded, id) {
        assert id in order;
        YieldedUnderPath(remote, pagePathCache, yielded, id);
      }
    }

    lemma RemoteIsValid()
      requires Valid()
      ensures ValidRemote(remote)
    {
    }

    /** The recursion over batches of children. It ends because every call that has children to follow has
        indexed a page first. */
    method ReadPages(pages: seq<Page>, w: Window)
      requires Valid() && indexedPages <= remote.Keys
      requires forall p :: p in pages ==> p.id in remote && remote[p.id] == p
      modifies this
      ensures Valid() && indexedPages <= remote.Keys
      ensures Grew(old(pagePathCache), pagePathCache) && old(order) <= order && old(indexedPages) <= indexedPages
      ensures InWindowIds(pages, w) <= indexedPages
      ensures recursive ==> ClosedUnder(remote, w, indexedPages - old(indexedPages), indexedPages)
      ensures forall id :: id in indexedPages - old(indexedPages) ==>
                Reachable(remote, w, recursive, PageIds(pages), id)
      decreases remote.Keys - indexedPages, 0
    {
      hide Valid, Coherent, ClosedUnder, Reachable, Explored, InWindowIds, InWindow, PageIds, ChildrenOf, ValidRemote;
      RemoteIsValid();
      var childIds := ReadLayer(pages, w);
      ghost var roots, layer := PageIds(pages), indexedPages;
      LayerFacts(remote, pages, w);
      NothingExplored(remote, w, roots, layer);
      if recursive && childIds != [] {
        SmallerRest(remote, old(indexedPages), layer, childIds);
        ChildrenOfLayer(remote, w, pages, old(indexedPages), layer, childIds);
        FollowChildren(childIds, w, roots);
      } else if !recursive {
        LayerReachable(remote, w, recursive, pages, layer - old(indexedPages));
        return;
      }
      LayerAndBelow(remote, w, roots, old(indexedPages), layer, childIds, indexedPages);
    }

    /** The batches of children; `roots` are what the children were reached from. */
    method FollowChildren(childIds: seq<PageId>, w: Window, ghost roots: set<PageId>)
      requires Valid() && indexedPages <= remote.Keys && ValidRemote(remote) && recursive
      requires ChildrenOf(remote, w, roots, childIds)
      modifies this
      ensures Valid() && old(indexedPages) <= indexedPages <= remote.Keys
      ensures Grew(old(pagePathCache), pagePathCache) && old(order) <= order
      ensures Explored(remote, w, roots, old(indexedPages), indexedPages)
      ensures forall c :: c in childIds ==> c in remote && (c in indexedPages || !InWindow(w, remote[c]))
      decreases remote.Keys - indexedPages, 1
    {
      hide Valid, Coherent, ClosedUnder, Reachable, Explored, InWindowIds, InWindow, PageIds;
      NothingExplored(remote, w, roots, indexedPages);
      var k := 0;
      while k < |childIds|
        invariant 0 <= k <= |childIds|
        invariant Valid() && Grew(old(pagePathCache), pagePathCache) && old(order) <= order
        invariant old(indexedPages) <= indexedPages <= remote.Keys
        invariant BatchesDone(remote, w, childIds, k, indexedPages)
        invariant Explored(remote, w, roots, old(indexedPages), indexedPages)
      {
        var batch := childIds[k..Min(k + INDEX_BATCH_SIZE, |childIds|)];
        ghost var before := indexedPages;
        var childPages := Fetch(batch, indexedPages, remote);
        ReadPages(childPages, w);
        BatchDone(remote, w, childIds, k, batch, childPages, before, indexedPages);
        BatchReached(remote, w, roots, childIds, childPages);
        ExploredMore(remote, w, roots, old(indexedPages), before, PageIds(childPages), indexedPages);
        k := k + |batch|;
      }
    }

    /** The whole load: one call per page of search results, or a single one for the root page. On a fresh
        connector it indexes exactly what is reachable from the pages found. */
    method Load(results: seq<seq<Page>>, w: Window)
      requires Valid() && indexedPages == {}
      requires forall i :: 0 <= i < |results| ==> KnownPages(remote, results[i])
      modifies this
      ensures Valid() && OncePerPage(yielded)
      ensures forall id :: id in indexedPages <==> Reachable(remote, w, recursive, RootsOf(results), id)
      ensures forall id :: Reachable(remote, w, recursive, RootsOf(results), id) ==>
                id in remote && IsYielded(remote, yielded, id)
      ensures forall d :: d in yielded && d.PageDoc? ==> Reachable(remote, w, recursive, RootsOf(results), d.id)
      ensures |yielded| == DocCount(remote, order)
    {
      hide Valid, Coherent, ClosedUnder, Reachable, InWindowIds, InWindow, PageIds, OncePerPage, IsYielded;
      NothingClosed(remote, w);
      assert results[..0] == [];
      for i := 0 to |results|
        invariant Valid() && indexedPages <= remote.Keys
        invariant recursive ==> ClosedUnder(remote, w, indexedPages, indexedPages)
        invariant forall id :: id in indexedPages ==> Reachable(remote, w, recursive, RootsOf(results[..i]), id)
        invariant forall j :: 0 <= j < i ==> InWindowIds(results[j], w) <= indexedPages
      {
        ghost var before := indexedPages;
        ReadPages(results[i], w);
        MoreRoots(remote, w, recursive, results, i, before, indexedPages);
        ClosedTogether(remote, w, before, indexedPages);
      }
      assert results[..|results|] == results;
      forall id | Reachable(remote, w, recursive, RootsOf(results), id) ensures id in indexedPages {
        ReachableIsIndexed(remote, w, recursive, results, indexedPages, id);
      }
      WhatWasYielded();
    }
  }

  ghost predicate KnownPages(r: Remote, pages: seq<Page>) {
    forall p :: p in pages ==> p.id in r && r[p.id] == p
  }

  ghost function RootsOf(results: seq<seq<Page>>): set<PageId> {
    set i, p | 0 <= i < |results| && p in results[i] :: p.id
  }

  lemma NothingClosed(r: Remote, w: Window)
    ensures ClosedUnder(r, w, {}, {})
  {
  }

  lemma MoreRoots(r: Remote, w: Window, recursive: bool, results: seq<seq<Page>>, i: nat, before: set<PageId>, after: set<PageId>)
    requires i < |results|
    requires forall id :: id in before ==> Reachable(r, w, recursive, RootsOf(results[..i]), id)
    requires forall id :: id in after - before ==> Reachable(r, w, recursive, PageIds(results[i]), id)
    ensures forall id :: id in after ==> Reachable(r, w, recursive, RootsOf(results[..i + 1]), id)
  {
    assert RootsOf(results[..i]) <= RootsOf(results[..i + 1]) by {
      assert forall j :: 0 <= j < i ==> results[..i][j] == results[..i + 1][j];
    }
    assert PageIds(results[i]) <= RootsOf(results[..i + 1]) by {
      assert results[..i + 1][i] == results[i];
    }
    hide RootsOf, PageIds, Reachable;
    forall id | id in after ensures Reachable(r, w, recursive, RootsOf(results[..i + 1]), id) {
      if id in before {
        LargerRoots(r, w, recursive, RootsOf(results[..i]), RootsOf(results[..i + 1]), id);
      } else {
        LargerRoots(r, w, recursive, PageIds(results[i]), RootsOf(results[..i + 1]), id);
      }
    }
  }

  lemma LargerRoots(r: Remote, w: Window, recursive: bool, roots: set<PageId>, more: set<PageId>, id: PageId)
    requires roots <= more && Reachable(r, w, recursive, roots, id)
    ensures Reachable(r, w, recursive, more, id)
  {
    var chain :| IsChain(r, w, recursive, roots, chain) && chain[|chain| - 1] == id;
    assert IsChain(r, w, recursive, more, chain);
  }

  lemma ClosedTogether(r: Remote, w: Window, before: set<PageId>, after: set<PageId>)
    requires before <= after
    ensures ClosedUnder(r, w, before, before) && ClosedUnder(r, w, after - before, after) ==> ClosedUnder(r, w, after, after)
  {
  }

  lemma ReachableIsIndexed(r: Remote, w: Window, recursive: bool, results: seq<seq<Page>>, indexed: set<PageId>, id: PageId)
    requires Reachable(r, w, recursive, RootsOf(results), id)
    requires forall i :: 0 <= i < |results| ==> KnownPages(r, results[i]) && InWindowIds(results[i], w) <= indexed
    requires recursive ==> ClosedUnder(r, w, indexed, indexed)
    ensures id in indexed
  {
    var chain :| IsChain(r, w, recursive, RootsOf(results), chain) && chain[|chain| - 1] == id;
    hide ClosedUnder, InWindow;
    forall root | root in RootsOf(results) && root in r && InWindow(w, r[root]) ensures root in indexed {
      var i, p :| 0 <= i < |results| && p in results[i] && p.id == root;
      assert p.id in InWindowIds(results[i], w);
    }
    ClosedContains(r, w, recursive, RootsOf(results), indexed, chain);
  }

  lemma PageDocsOf(p: Page, path: string)
    ensures forall d :: d in DocsOf(p, path) && d.PageDoc? ==> d == PageDoc(p.id, path + "_" + p.id) && HasContent(p)
    ensures forall i :: 0 < i < |DocsOf(p, path)| ==> !DocsOf(p, path)[i].PageDoc?
    ensures HasContent(p) ==> PageAt(DocsOf(p, path), p, path, 0)
    ensures |DocsOf(p, path)| == if HasContent(p) then 1 + |p.attachments| else 0
  {
  }

  ghost predicate OncePerPage(docs: seq<Doc>) {
    forall i, j :: 0 <= i < j < |docs| && docs[i].PageDoc? && docs[j].PageDoc? ==> docs[i].id != docs[j].id
  }

  lemma PageDocsAppended(before: seq<Doc>, added: seq<Doc>, id: PageId)
    requires OncePerPage(before) && forall d :: d in before && d.PageDoc? ==> d.id != id
    requires forall d :: d in added && d.PageDoc? ==> d.id == id
    requires forall i :: 0 < i < |added| ==> !added[i].PageDoc?
    ensures OncePerPage(before + added)
  {
    var docs := before + added;
    forall i, j | 0 <= i < j < |docs| && docs[i].PageDoc? && docs[j].PageDoc? ensures docs[i].id != docs[j].id {
      if i < |before| <= j {
        assert docs[i] == before[i] && before[i] in before;
        assert docs[j] == added[j - |before|] && docs[j] in added;
      }
    }
  }

  /** A page that yields anything: some block text was read, or it has a title. */
  ghost predicate HasContent(p: Page) {
    p.hasBlocks || (p.title.Some? && p.title.value != "")
  }

  /** From `k` on, the documents are the page's own, under its cached path, and those of its attachments in order. */
  ghost predicate PageAt(docs: seq<Doc>, p: Page, path: string, k: nat) {
    && k + |p.attachments| < |docs|
    && docs[k] == PageDoc(p.id, path + "_" + p.id)
    && forall a :: 0 <= a < |p.attachments| ==> docs[k + 1 + a] == AttachmentDoc(p.attachments[a])
  }

  /** A page with a text or a title has its document and those of its attachments; if its parents end in a root, under
      the titles from the root down. */
  ghost predicate IsYielded(r: Remote, docs: seq<Doc>, id: PageId)
    requires id in r
  {
    && (HasContent(r[id]) ==> exists path, k: nat :: PageAt(docs, r[id], path, k))
    && (forall j: nat :: HasContent(r[id]) && RootIn(r, r[id], j) ==>
          exists k: nat :: PageAt(docs, r[id], PathText(r, r[id], j), k))
  }

  lemma YieldedUnderPath(r: Remote, cache: map<PageId, string>, docs: seq<Doc>, id: PageId)
    requires CacheCorrect(r, cache) && id in r && id in cache
    requires HasContent(r[id]) ==> exists k: nat :: PageAt(docs, r[id], cache[id], k)
    ensures IsYielded(r, docs, id)
  {
    hide HasContent, PageAt, RootIn, PathText;
  }

  /** How many documents the pages of `order` come to. */
  ghost function DocCount(r: Remote, order: seq<PageId>): nat
    requires forall id :: id in order ==> id in r
  {
    if order == [] then 0
    else
      var p := r[order[|order| - 1]];
      DocCount(r, order[..|order| - 1]) + if HasContent(p) then 1 + |p.attachments| else 0
  }

  /** Among the documents of distinct pages no page has two; every page with a text or a title has one, under the
      path in the cache, followed by those of its attachments; and nothing else is there. */
  lemma {:induction false} YieldedOnce(r: Remote, cache: map<PageId, string>, order: seq<PageId>)
    requires (forall id :: id in order ==> id in r && r[id].id == id && id in cache) && Distinct(order)
    ensures OncePerPage(Yield(r, cache, order))
    ensures forall d :: d in Yield(r, cache, order) && d.PageDoc? ==>
              d.id in order && d.semanticId == cache[d.id] + "_" + d.id && HasContent(r[d.id])
    ensures forall id :: id in order && HasContent(r[id]) ==>
              exists k: nat :: PageAt(Yield(r, cache, order), r[id], cache[id], k)
    ensures |Yield(r, cache, order)| == DocCount(r, order)
  {
    if order != [] {
      var n := |order| - 1;
      assert order == order[..n] + [order[n]];
      assert order[n] !in order[..n];
      YieldedOnce(r, cache, order[..n]);
      PageDocsOf(r[order[n]], cache[order[n]]);
      hide DocsOf, OncePerPage, HasContent, PageAt;
      var before, more := Yield(r, cache, order[..n]), DocsOf(r[order[n]], cache[order[n]]);
      PageDocsAppended(before, more, order[n]);
      forall id | id in order && HasContent(r[id]) ensures exists k: nat :: PageAt(before + more, r[id], cache[id], k) {
        if id == order[n] {
          LaterAt(before, more, r[id], cache[id]);
        } else {
          var k: nat :| PageAt(before, r[id], cache[id], k);
          StillAt(before, more, r[id], cache[id], k);
        }
      }
    }
  }

  lemma StillAt(before: seq<Doc>, more: seq<Doc>, p: Page, path: string, k: nat)
    requires PageAt(before, p, path, k)
    ensures PageAt(before + more, p, path, k)
  {
  }

  lemma LaterAt(before: seq<Doc>, more: seq<Doc>, p: Page, path: string)
    requires PageAt(more, p, path, 0)
    ensures PageAt(before + more, p, path, |before|)
  {
  }

  /** Ids of one length, as the service issues them, keep the semantic identifiers apart. */
  lemma SemanticIdsDiffer(a: string, b: string, id1: PageId, id2: PageId)
    requires |id1| == |id2| && id1 != id2
    ensures a + "_" + id1 != b + "_" + id2
  {
    var x, y := a + "_" + id1, b + "_" + id2;
    assert x[|x| - |id1|..] == id1;
    assert y[|y| - |id2|..] == id2;
  }
}
