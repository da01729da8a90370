/** The GitLab connector: a breadth-first walk of the code, then merge requests and issues by date. */
module GitlabCode {
  import opened Sequences

  /** An entry of a repository tree, with its full path. A directory holds its own listing; `Submodule` stands
      for the entries that are neither files nor directories. */
  datatype Node = Blob(path: string, updatedAt: int) | Tree(path: string, listing: seq<Node>) | Submodule(path: string)

  datatype Doc = CodeFile(path: string, updatedAt: int) | MergeRequest(url: string, updatedAt: int)
               | Issue(url: string, updatedAt: int)

  datatype Window = Window(start: Option<int>, end: Option<int>)

  const EXCLUDED: set<string> := {"logs", ".github/", ".gitlab/", ".pre-commit-config.yaml"}

  /** No pattern has a wildcard, so matching is equality. */
  predicate ShouldExclude(path: string) {
    path in EXCLUDED
  }

  predicate TooOld(w: Window, updatedAt: int) {
    w.start.Some? && updatedAt <= w.start.value
  }

  predicate InWindow(w: Window, updatedAt: int) {
    !TooOld(w, updatedAt) && (w.end.None? || updatedAt <= w.end.value)
  }

  /** A path as the server lists it has no trailing slash: the two directory patterns never apply, and the
      other two only at the root. */
  lemma DirectoryPatternsNeverMatch(path: string)
    requires path != [] && path[|path| - 1] != '/'
    ensures ShouldExclude(path) <==> path == "logs" || path == ".pre-commit-config.yaml"
  {
  }

  // ---------------------------------------------------------------- one listing

  function DocOf(w: Window, node: Node): seq<Doc> {
    if ShouldExclude(node.path) || !node.Blob? || !InWindow(w, node.updatedAt) then []
    else [CodeFile(node.path, node.updatedAt)]
  }

  function TreeOf(node: Node): seq<seq<Node>> {
    if ShouldExclude(node.path) || !node.Tree? then [] else [node.listing]
  }

  function DocsIn(w: Window, listing: seq<Node>): seq<Doc> {
    if listing == [] then [] else DocOf(w, listing[0]) + DocsIn(w, listing[1..])
  }

  function TreesIn(listing: seq<Node>): seq<seq<Node>> {
    if listing == [] then [] else TreeOf(listing[0]) + TreesIn(listing[1..])
  }

  function Size(listing: seq<Node>): (n: nat)
    ensures n > 0
  {
    if listing == [] then 1
    else (if listing[0].Tree? then Size(listing[0].listing) else 0) + Size(listing[1..])
  }

  function TotalSize(queue: seq<seq<Node>>): nat {
    if queue == [] then 0 else Size(queue[0]) + TotalSize(queue[1..])
  }

  lemma {:induction false} TotalSizeConcat(a: seq<seq<Node>>, b: seq<seq<Node>>)
    ensures TotalSize(a + b) == TotalSize(a) + TotalSize(b)
  {
    if a == [] {
      assert a + b == b;
    } else {
      assert (a + b)[1..] == a[1..] + b;
      TotalSizeConcat(a[1..], b);
    }
  }

  lemma {:induction false} TreesAreSmaller(listing: seq<Node>)
    ensures TotalSize(TreesIn(listing)) < Size(listing)
  {
    if listing != [] {
      TreesAreSmaller(listing[1..]);
      TotalSizeConcat(TreeOf(listing[0]), TreesIn(listing[1..]));
      assert listing[0].Tree? ==> TotalSize([listing[0].listing]) == Size(listing[0].listing);
    }
  }

  lemma {:induction false} ListingConcat(w: Window, a: seq<Node>, b: seq<Node>)
    ensures DocsIn(w, a + b) == DocsIn(w, a) + DocsIn(w, b)
    ensures TreesIn(a + b) == TreesIn(a) + TreesIn(b)
  {
    if a == [] {
      assert a + b == b;
    } else {
      assert (a + b)[1..] == a[1..] + b;
      ListingConcat(w, a[1..], b);
    }
  }

  // ---------------------------------------------------------------- the walk and its meaning

  /** What the queue of directories `queue` stands for. */
  function Walk(w: Window, queue: seq<seq<Node>>): seq<Doc>
    decreases TotalSize(queue)
  {
    if queue == [] then []
    else
      TreesAreSmaller(queue[0]);
      TotalSizeConcat(queue[1..], TreesIn(queue[0]));
      DocsIn(w, queue[0]) + Walk(w, queue[1..] + TreesIn(queue[0]))
  }

  function DocsOfLevel(w: Window, level: seq<seq<Node>>): seq<Doc> {
    if level == [] then [] else DocsIn(w, level[0]) + DocsOfLevel(w, level[1..])
  }

  function NextLevel(level: seq<seq<Node>>): seq<seq<Node>> {
    if level == [] then [] else TreesIn(level[0]) + NextLevel(level[1..])
  }

  lemma {:induction false} NextLevelIsSmaller(level: seq<seq<Node>>)
    ensures TotalSize(NextLevel(level)) + |level| <= TotalSize(level)
  {
    if level != [] {
      TreesAreSmaller(level[0]);
      NextLevelIsSmaller(level[1..]);
      TotalSizeConcat(TreesIn(level[0]), NextLevel(level[1..]));
    }
  }

  /** All the files at one depth before any that is deeper. */
  function LevelByLevel(w: Window, level: seq<seq<Node>>): seq<Doc>
    decreases TotalSize(level)
  {
    if level == [] then []
    else
      NextLevelIsSmaller(level);
      DocsOfLevel(w, level) + LevelByLevel(w, NextLevel(level))
  }

  /** The plain recursive meaning: the files of a listing and of its directories. */
  function AllDocs(w: Window, listing: seq<Node>): seq<Doc> {
    if listing == [] then []
    else
      var node := listing[0];
      (if ShouldExclude(node.path) then []
       else match node
            case Blob(path, updatedAt) => if InWindow(w, updatedAt) then [CodeFile(path, updatedAt)] else []
            case Tree(_, inner) => AllDocs(w, inner)
            case Submodule(_) => [])
      + AllDocs(w, listing[1..])
  }

  function AllDocsOf(w: Window, queue: seq<seq<Node>>): seq<Doc> {
    if queue == [] then [] else AllDocs(w, queue[0]) + AllDocsOf(w, queue[1..])
  }

  lemma WalkStep(w: Window, queue: seq<seq<Node>>)
    requires queue != []
    ensures var next := queue[1..] + TreesIn(queue[0]);
            && Walk(w, queue) == DocsIn(w, queue[0]) + Walk(w, next)
            && TotalSize(next) < TotalSize(queue) && TotalSize(queue[1..]) < TotalSize(queue)
  {
    TreesAreSmaller(queue[0]);
    TotalSizeConcat(queue[1..], TreesIn(queue[0]));
  }

  /** A queue of two parts is worked off part by part. */
  lemma {:induction false} WalkInParts(w: Window, a: seq<seq<Node>>, b: seq<seq<Node>>)
    ensures Walk(w, a + b) == DocsOfLevel(w, a) + Walk(w, b + NextLevel(a))
    decreases |a|
  {
    hide Walk, DocsIn, TreesIn, TotalSize;
    if a == [] {
      assert a + b == b && b + [] == b;
    } else {
      var trees := TreesIn(a[0]);
      WalkStep(w, a + b);
      assert (a + b)[0] == a[0] && (a + b)[1..] + trees == a[1..] + (b + trees);
      WalkInParts(w, a[1..], b + trees);
      assert (b + trees) + NextLevel(a[1..]) == b + NextLevel(a);
    }
  }

  /** The queue visits the repository level by level. */
  lemma {:induction false} WalkIsLevelByLevel(w: Window, level: seq<seq<Node>>)
    ensures Walk(w, level) == LevelByLevel(w, level)
    decreases TotalSize(level)
  {
    if level != [] {
      NextLevelIsSmaller(level);
      WalkInParts(w, level, []);
      assert level + [] == level && [] + NextLevel(level) == NextLevel(level);
      WalkIsLevelByLevel(w, NextLevel(level));
    }
  }

  lemma {:induction false} AllDocsConcat(w: Window, a: seq<seq<Node>>, b: seq<seq<Node>>)
    ensures AllDocsOf(w, a + b) == AllDocsOf(w, a) + AllDocsOf(w, b)
  {
    if a == [] {
      assert a + b == b;
    } else {
      assert (a + b)[1..] == a[1..] + b;
      AllDocsConcat(w, a[1..], b);
    }
  }

  function AllDocsAt(w: Window, node: Node): seq<Doc> {
    if node.Tree? && !ShouldExclude(node.path) then AllDocs(w, node.listing) else DocOf(w, node)
  }

  lemma OneEntry(w: Window, listing: seq<Node>)
    requires listing != []
    ensures AllDocs(w, listing) == AllDocsAt(w, listing[0]) + AllDocs(w, listing[1..])
    ensures AllDocsAt(w, listing[0]) == DocOf(w, listing[0]) + AllDocsOf(w, TreeOf(listing[0]))
  {
    EntryParts(w, listing[0]);
    hide AllDocsOf, TreeOf, InWindow, ShouldExclude;
  }

  lemma EntryParts(w: Window, node: Node)
    ensures AllDocsAt(w, node) == DocOf(w, node) + AllDocsOf(w, TreeOf(node))
  {
    hide AllDocs, InWindow, ShouldExclude;
    OneListing(w, if node.Tree? then node.listing else []);
  }

  lemma OneListing(w: Window, listing: seq<Node>)
    ensures AllDocsOf(w, []) == [] && AllDocsOf(w, [listing]) == AllDocs(w, listing)
  {
    hide AllDocs;
    assert [listing][1..] == [];
  }

  lemma {:induction false} ListingParts(w: Window, listing: seq<Node>)
    ensures multiset(AllDocs(w, listing)) == multiset(DocsIn(w, listing)) + multiset(AllDocsOf(w, TreesIn(listing)))
  {
    if listing != [] {
      OneEntry(w, listing);
      ListingParts(w, listing[1..]);
      AllDocsConcat(w, TreeOf(listing[0]), TreesIn(listing[1..]));
      hide AllDocs, AllDocsAt, AllDocsOf, TreeOf, DocOf;
    }
  }

  /** The walk emits exactly the in-window files under directories that are not excluded, each as often as the
      repository lists it. */
  lemma {:induction false} WalkEmitsAll(w: Window, queue: seq<seq<Node>>)
    ensures multiset(Walk(w, queue)) == multiset(AllDocsOf(w, queue))
    decreases TotalSize(queue)
  {
    if queue != [] {
      var trees := TreesIn(queue[0]);
      TreesAreSmaller(queue[0]);
      TotalSizeConcat(queue[1..], trees);
      WalkEmitsAll(w, queue[1..] + trees);
      AllDocsConcat(w, queue[1..], trees);
      ListingParts(w, queue[0]);
    }
  }

  // ---------------------------------------------------------------- the connector

  /** None is empty, and all are full but for the last one at the end. */
  ghost predicate AreSlices<T>(batches: seq<seq<T>>, size: nat, atEnd: bool) {
    forall i :: 0 <= i < |batches| ==>
      0 < |batches[i]| <= size && (i < |batches| - 1 || !atEnd ==> |batches[i]| == size)
  }

  lemma NoSlices<T>(size: nat)
    ensures AreSlices<T>([], size, true) && AreSlices<T>([], size, false) && Flatten<T>([]) == []
  {
  }

  lemma OneSliceMore<T>(batches: seq<seq<T>>, batch: seq<T>, size: nat, atEnd: bool)
    requires AreSlices(batches, size, false) && 0 < |batch| <= size && (!atEnd ==> |batch| == size)
    ensures AreSlices(batches + [batch], size, atEnd)
  {
  }

  lemma SlicesAre<T>(batches: seq<seq<T>>, size: nat, atEnd: bool)
    requires AreSlices(batches, size, atEnd)
    ensures forall i :: 0 <= i < |batches| ==>
              0 < |batches[i]| <= size && (i < |batches| - 1 ==> |batches[i]| == size)
  {
  }

  /** Slices of `size` objects. A size of 0 makes the first slice empty, which ends the iteration. */
  method BatchObjects<T>(objects: seq<T>, size: nat) returns (batches: seq<seq<T>>)
    ensures size == 0 ==> batches == []
    ensures size > 0 ==> Flatten(batches) == objects
    ensures forall i :: 0 <= i < |batches| ==>
              0 < |batches[i]| <= size && (i < |batches| - 1 ==> |batches[i]| == size)
  {
    hide Flatten, AreSlices;
    batches := [];
    var rest := objects;
    NoSlices<T>(size);
    assert [] + objects == objects;
    while true
      invariant Flatten(batches) + rest == objects
      invariant AreSlices(batches, size, rest == []) && (size == 0 ==> batches == [])
      decreases |rest|
    {
      var batch := rest[..Min(size, |rest|)];
      if batch == [] {
        break;
      }
      FlattenSnoc(batches, batch);
      OneSliceMore(batches, batch, size, rest[|batch|..] == []);
      batches := batches + [batch];
      assert batch + rest[|batch|..] == rest;
      rest := rest[|batch|..];
    }
    SlicesAre(batches, size, rest == []);
  }

  method VisitBatch(w: Window, files: seq<Node>) returns (docs: seq<Doc>, trees: seq<seq<Node>>)
    ensures docs == DocsIn(w, files) && trees == TreesIn(files) && |docs| <= |files|
  {
    docs, trees := [], [];
    for i := 0 to |files|
      invariant docs == DocsIn(w, files[..i]) && trees == TreesIn(files[..i]) && |docs| <= i
    {
      var file := files[i];
      assert files[..i + 1] == files[..i] + [file];
      ListingConcat(w, files[..i], [file]);
      assert DocsIn(w, [file]) == DocOf(w, file) && TreesIn([file]) == TreeOf(file);
      if ShouldExclude(file.path) {
        continue;
      }
      match file
      case Blob(path, updatedAt) =>
        if TooOld(w, updatedAt) || (w.end.Some? && updatedAt > w.end.value) {
          continue;
        }
        docs := docs + [CodeFile(path, updatedAt)];
      case Tree(_, listing) => trees := trees + [listing];
      case Submodule(_) =>
    }
    assert files[..|files|] == files;
  }

  lemma BatchVisited(w: Window, batches: seq<seq<Node>>, i: nat)
    requires i < |batches|
    ensures DocsIn(w, Flatten(batches[..i + 1])) == DocsIn(w, Flatten(batches[..i])) + DocsIn(w, batches[i])
    ensures TreesIn(Flatten(batches[..i + 1])) == TreesIn(Flatten(batches[..i])) + TreesIn(batches[i])
  {
    assert batches[..i + 1] == batches[..i] + [batches[i]];
    FlattenSnoc(batches[..i], batches[i]);
    ListingConcat(w, Flatten(batches[..i]), batches[i]);
  }

  /** One directory: its batches of documents, and the directories to visit later. */
  method VisitDirectory(w: Window, listing: seq<Node>, size: nat) returns (batches: seq<seq<Doc>>, trees: seq<seq<Node>>)
    ensures size == 0 ==> batches == [] && trees == []
    ensures size > 0 ==> Flatten(batches) == DocsIn(w, listing) && trees == TreesIn(listing)
    ensures forall b :: b in batches ==> 0 < |b| <= size
  {
    batches, trees := [], [];
    var fileBatches := BatchObjects(listing, size);
    assert fileBatches[..0] == [];
    hide DocsIn, TreesIn, Flatten;
    NothingListed(w);
    for i := 0 to |fileBatches|
      invariant trees == TreesIn(Flatten(fileBatches[..i])) && Flatten(batches) == DocsIn(w, Flatten(fileBatches[..i]))
      invariant forall b :: b in batches ==> 0 < |b| <= size
      invariant size == 0 ==> batches == [] && trees == []
    {
      var docs, found := VisitBatch(w, fileBatches[i]);
      BatchVisited(w, fileBatches, i);
      trees := trees + found;
      if docs != [] {
        FlattenSnoc(batches, docs);
        batches := batches + [docs];
      }
    }
    assert fileBatches[..|fileBatches|] == fileBatches;
  }

  lemma NothingListed(w: Window)
    ensures Flatten<Doc>([]) == [] && Flatten<Node>([]) == [] && Flatten<seq<Node>>([]) == []
    ensures DocsIn(w, []) == [] && TreesIn([]) == [] && Walk(w, []) == []
  {
  }

  /** With any batch size above 0 the batches hold the level-by-level walk; none is empty. */
  method FetchCode(root: seq<Node>, size: nat, w: Window) returns (batches: seq<seq<Doc>>)
    ensures size == 0 ==> batches == []
    ensures size > 0 ==> Flatten(batches) == LevelByLevel(w, [root])
    ensures forall b :: b in batches ==> 0 < |b| <= size
  {
    hide DocsIn, TreesIn, Walk, Flatten, TotalSize, LevelByLevel;
    NothingListed(w);
    var queue := [root];
    batches := [];
    while queue != []
      invariant size > 0 ==> Flatten(batches) + Walk(w, queue) == Walk(w, [root])
      invariant size == 0 ==> batches == []
      invariant forall b :: b in batches ==> 0 < |b| <= size
      decreases TotalSize(queue)
    {
      WalkStep(w, queue);
      var found, trees := VisitDirectory(w, queue[0], size);
      FlattenConcat(batches, found);
      batches := batches + found;
      assert queue[1..] + [] == queue[1..];
      queue := queue[1..] + trees;
    }
    WalkIsLevelByLevel(w, [root]);
  }

  // ---------------------------------------------------------------- merge requests and issues

  /** The items before the first one that is too old. */
  function BeforeOld(w: Window, items: seq<Doc>): seq<Doc> {
    if items == [] || TooOld(w, items[0].updatedAt) then [] else [items[0]] + BeforeOld(w, items[1..])
  }

  function Wanted(w: Window): Doc -> bool {
    (d: Doc) => InWindow(w, d.updatedAt)
  }

  predicate HasOld(w: Window, items: seq<Doc>) {
    exists d :: d in items && TooOld(w, d.updatedAt)
  }

  predicate NewestFirst(items: seq<Doc>) {
    forall i, j :: 0 <= i < j < |items| ==> items[i].updatedAt >= items[j].updatedAt
  }

  /** The server lists the newest first: nothing after the first old one is wanted. */
  lemma {:induction false} NothingWantedLater(w: Window, items: seq<Doc>)
    requires NewestFirst(items)
    ensures Filter(Wanted(w), BeforeOld(w, items)) == Filter(Wanted(w), items)
  {
    if items != [] {
      if TooOld(w, items[0].updatedAt) {
        forall d | d in items ensures !Wanted(w)(d) {
          var j :| 0 <= j < |items| && items[j] == d;
          assert j > 0 ==> items[0].updatedAt >= items[j].updatedAt;
        }
        FilterNone(Wanted(w), items);
      } else {
        NothingWantedLater(w, items[1..]);
        FilterConcat(Wanted(w), [items[0]], items[1..]);
        FilterConcat(Wanted(w), [items[0]], BeforeOld(w, items[1..]));
        assert items == [items[0]] + items[1..];
      }
    }
  }

  lemma {:induction false} BeforeOldConcat(w: Window, a: seq<Doc>, b: seq<Doc>)
    ensures BeforeOld(w, a + b) == if HasOld(w, a) then BeforeOld(w, a) else a + BeforeOld(w, b)
    ensures HasOld(w, a + b) <==> HasOld(w, a) || HasOld(w, b)
  {
    if a == [] {
      assert a + b == b;
    } else {
      assert a == [a[0]] + a[1..] && (a + b)[1..] == a[1..] + b;
      BeforeOldConcat(w, a[1..], b);
    }
  }

  /** One slice of the listing. */
  method FetchSlice(items: seq<Doc>, w: Window) returns (batch: seq<Doc>, stopped: bool)
    ensures batch == Filter(Wanted(w), BeforeOld(w, items)) && (stopped <==> HasOld(w, items))
  {
    batch := [];
    NothingOld(w);
    assert items[..0] == [] && items[..|items|] == items;
    hide HasOld, BeforeOld, Filter;
    for j := 0 to |items|
      invariant !HasOld(w, items[..j]) && batch == Filter(Wanted(w), items[..j])
    {
      var item := items[j];
      SliceStep(w, items, j);
      if TooOld(w, item.updatedAt) {
        return batch, true;
      }
      if w.end.Some? && item.updatedAt > w.end.value {
        continue;
      }
      batch := batch + [item];
    }
    WithoutOld(w, items);
    stopped := false;
  }

  lemma SliceStep(w: Window, items: seq<Doc>, j: nat)
    requires j < |items| && !HasOld(w, items[..j])
    ensures var item := items[j];
            if TooOld(w, item.updatedAt) then HasOld(w, items) && BeforeOld(w, items) == items[..j]
            else
              && !HasOld(w, items[..j + 1])
              && Filter(Wanted(w), items[..j + 1])
                 == Filter(Wanted(w), items[..j]) + if Wanted(w)(item) then [item] else []
  {
    hide Filter, BeforeOld, HasOld;
    assert items[..j + 1] == items[..j] + [items[j]];
    assert items == items[..j] + items[j..];
    FilterSnoc(Wanted(w), items[..j], items[j]);
    BeforeOldConcat(w, items[..j], items[j..]);
    BeforeOldConcat(w, items[..j], [items[j]]);
    WithoutOld(w, items[..j]);
    FirstItem(w, items[j..]);
    FirstItem(w, [items[j]]);
    assert Filter(Wanted(w), items[..j]) + [] == Filter(Wanted(w), items[..j]);
    assert items[..j] + [] == items[..j];
  }

  lemma FirstItem(w: Window, items: seq<Doc>)
    requires items != []
    ensures TooOld(w, items[0].updatedAt) ==> HasOld(w, items) && BeforeOld(w, items) == []
    ensures !TooOld(w, items[0].updatedAt) && |items| == 1 ==> !HasOld(w, items)
  {
    assert items[0] in items;
  }

  /** Items by update time, in batches, up to the first old one. */
  method FetchUpdated(items: seq<Doc>, size: nat, w: Window) returns (batches: seq<seq<Doc>>, stopped: bool)
    ensures size == 0 ==> batches == [] && !stopped
    ensures size > 0 ==> Flatten(batches) == Filter(Wanted(w), BeforeOld(w, items)) && (stopped <==> HasOld(w, items))
  {
    batches := [];
    var slices := BatchObjects(items, size);
    assert Flatten<Doc>([]) == [] && slices[..0] == [];
    hide Flatten, HasOld, BeforeOld, Filter;
    NothingOld(w);
    for i := 0 to |slices|
      invariant Flatten(batches) == Filter(Wanted(w), BeforeOld(w, Flatten(slices[..i])))
      invariant BeforeOld(w, Flatten(slices[..i])) == Flatten(slices[..i]) && !HasOld(w, Flatten(slices[..i]))
      invariant size == 0 ==> batches == []
    {
      var batch, ended := FetchSlice(slices[i], w);
      SliceFetched(w, slices, i);
      FlattenSnoc(batches, batch);
      batches := batches + [batch];
      if ended {
        return batches, true;
      }
    }
    assert slices[..|slices|] == slices;
    stopped := false;
  }

  lemma NothingOld(w: Window)
    ensures !HasOld(w, []) && BeforeOld(w, []) == [] && Filter(Wanted(w), []) == []
  {
  }

  lemma SliceFetched(w: Window, slices: seq<seq<Doc>>, i: nat)
    requires i < |slices| && !HasOld(w, Flatten(slices[..i]))
    requires BeforeOld(w, Flatten(slices[..i])) == Flatten(slices[..i])
    ensures var upTo := Flatten(slices[..i]);
            var next := Flatten(slices[..i + 1]);
            && Filter(Wanted(w), BeforeOld(w, next))
               == Filter(Wanted(w), BeforeOld(w, upTo)) + Filter(Wanted(w), BeforeOld(w, slices[i]))
            && (HasOld(w, slices[i]) ==> HasOld(w, Flatten(slices)) && BeforeOld(w, Flatten(slices)) == BeforeOld(w, next))
            && (!HasOld(w, slices[i]) ==> !HasOld(w, next) && BeforeOld(w, next) == next)
  {
    var upTo := Flatten(slices[..i]);
    var next := Flatten(slices[..i + 1]);
    assert slices[..i + 1] == slices[..i] + [slices[i]];
    FlattenSnoc(slices[..i], slices[i]);
    assert slices == slices[..i + 1] + slices[i + 1..];
    FlattenConcat(slices[..i + 1], slices[i + 1..]);
    hide Flatten, HasOld, BeforeOld, Filter;
    BeforeOldConcat(w, upTo, slices[i]);
    FilterConcat(Wanted(w), upTo, BeforeOld(w, slices[i]));
    BeforeOldConcat(w, next, Flatten(slices[i + 1..]));
    WithoutOld(w, slices[i]);
  }

  lemma {:induction false} WithoutOld(w: Window, items: seq<Doc>)
    ensures !HasOld(w, items) ==> BeforeOld(w, items) == items
  {
    if items != [] {
      assert items[0] in items;
      WithoutOld(w, items[1..]);
    }
  }

  // ---------------------------------------------------------------- the whole fetch

  datatype Selection = Selection(code: bool, mergeRequests: bool, issues: bool)

  /** A merge request that is too old ends the fetch, issues included. */
  method FetchFromGitlab(selected: Selection, root: seq<Node>, mergeRequests: seq<Doc>, issues: seq<Doc>, size: nat,
                         w: Window)
    returns (batches: seq<seq<Doc>>)
    ensures size == 0 ==> batches == []
    ensures var ended := selected.mergeRequests && HasOld(w, mergeRequests);
            size > 0 ==>
              Flatten(batches)
              == (if selected.code then LevelByLevel(w, [root]) else [])
                 + (if selected.mergeRequests then Filter(Wanted(w), BeforeOld(w, mergeRequests)) else [])
                 + (if selected.issues && !ended then Filter(Wanted(w), BeforeOld(w, issues)) else [])
  {
    assert Flatten<Doc>([]) == [];
    hide Flatten, HasOld, BeforeOld, Filter, LevelByLevel;
    batches := [];
    if selected.code {
      batches := FetchCode(root, size, w);
    }
    ghost var code := Flatten(batches);
    var found, stopped := [], false;
    if selected.mergeRequests {
      found, stopped := FetchUpdated(mergeRequests, size, w);
      FlattenConcat(batches, found);
      batches := batches + found;
    }
    ghost var updated := if selected.mergeRequests then Filter(Wanted(w), BeforeOld(w, mergeRequests)) else [];
    assert size > 0 ==> Flatten(batches) == code + updated;
    if stopped {
      return;
    }
    if selected.issues {
      found, stopped := FetchUpdated(issues, size, w);
      FlattenConcat(batches, found);
      batches := batches + found;
    }
  }

  // ---------------------------------------------------------------- what is fetched

  /** Later than the start, and not later than the end, where they are given. */
  ghost predicate IsRecent(w: Window, updatedAt: int) {
    (w.start == None || w.start.value < updatedAt) && (w.end == None || updatedAt <= w.end.value)
  }

  ghost predicate IsExcluded(path: string) {
    path == "logs" || path == ".github/" || path == ".gitlab/" || path == ".pre-commit-config.yaml"
  }

  /** A listing holds the file, itself or in a directory that is not excluded. */
  ghost predicate Lists(listing: seq<Node>, path: string, updatedAt: int) {
    exists i :: 0 <= i < |listing| && HoldsFile(listing[i], path, updatedAt)
  }

  ghost predicate HoldsFile(node: Node, path: string, updatedAt: int) {
    !IsExcluded(node.path) && (node == Blob(path, updatedAt) || (node.Tree? && Lists(node.listing, path, updatedAt)))
  }

  lemma {:induction false} AllDocsMeaning(w: Window, listing: seq<Node>, d: Doc)
    ensures d in AllDocs(w, listing) <==> d.CodeFile? && IsRecent(w, d.updatedAt) && Lists(listing, d.path, d.updatedAt)
    decreases listing
  {
    hide AllDocs, AllDocsOf, HoldsFile, IsRecent, AllDocsAt, TreeOf, DocOf;
    if listing == [] {
      OneListing(w, []);
      NothingIn(w);
    } else {
      var node := listing[0];
      AllDocsMeaning(w, listing[1..], d);
      if node.Tree? {
        AllDocsMeaning(w, node.listing, d);
      }
      OneEntry(w, listing);
      EntryMeaning(w, node, d);
      if d.CodeFile? {
        ListsFirst(listing, d.path, d.updatedAt);
      }
    }
  }

  lemma NothingIn(w: Window)
    ensures AllDocs(w, []) == []
  {
  }

  lemma EntryMeaning(w: Window, node: Node, d: Doc)
    requires node.Tree? ==>
               (d in AllDocs(w, node.listing) <==>
                  d.CodeFile? && IsRecent(w, d.updatedAt) && Lists(node.listing, d.path, d.updatedAt))
    ensures d in AllDocsAt(w, node) <==>
            d.CodeFile? && IsRecent(w, d.updatedAt) && HoldsFile(node, d.path, d.updatedAt)
  {
    hide AllDocs, Lists;
  }

  lemma ListsFirst(listing: seq<Node>, path: string, updatedAt: int)
    requires listing != []
    ensures Lists(listing, path, updatedAt) <==>
            HoldsFile(listing[0], path, updatedAt) || Lists(listing[1..], path, updatedAt)
  {
    hide HoldsFile;
    if Lists(listing[1..], path, updatedAt) {
      var i :| 0 <= i < |listing[1..]| && HoldsFile(listing[1..][i], path, updatedAt);
      assert listing[i + 1] == listing[1..][i];
    }
    if Lists(listing, path, updatedAt) && !HoldsFile(listing[0], path, updatedAt) {
      var i :| 0 <= i < |listing| && HoldsFile(listing[i], path, updatedAt);
      assert listing[1..][i - 1] == listing[i];
    }
  }

  /** The code fetched: exactly the files in the window that the repository lists outside excluded directories. */
  lemma CodeFetched(w: Window, root: seq<Node>, d: Doc)
    ensures d in LevelByLevel(w, [root]) <==>
            d.CodeFile? && IsRecent(w, d.updatedAt) && Lists(root, d.path, d.updatedAt)
  {
    hide Walk, LevelByLevel, AllDocs, AllDocsOf, IsRecent, Lists;
    WalkIsLevelByLevel(w, [root]);
    WalkEmitsAll(w, [root]);
    OneListing(w, root);
    AllDocsMeaning(w, root, d);
    assert d in Walk(w, [root]) <==> d in multiset(Walk(w, [root]));
    assert d in AllDocs(w, root) <==> d in multiset(AllDocs(w, root));
  }

  /** Of items listed with the newest first, those in the window are fetched, and reading stops exactly at an item
      that is not later than the start. */
  lemma UpdatedFetched(w: Window, items: seq<Doc>)
    requires NewestFirst(items)
    ensures forall d :: d in Filter(Wanted(w), BeforeOld(w, items)) <==> d in items && IsRecent(w, d.updatedAt)
    ensures HasOld(w, items) <==> w.start.Some? && exists d :: d in items && d.updatedAt <= w.start.value
  {
    NothingWantedLater(w, items);
    FilterMembers(Wanted(w), items);
    hide Filter, BeforeOld;
    assert forall d :: Wanted(w)(d) <==> IsRecent(w, d.updatedAt);
  }
}
