/** RAPTOR's layers: chunks are clustered and summarised, then the summaries, until one node is left. */
module Raptor {
  import opened Sequences

  datatype Chunk = Chunk(content: string, embedding: seq<real>)

  datatype RawChunk = RawChunk(content: string, embedding: Option<seq<real>>)

  /** The nodes `lo .. hi-1`. */
  datatype Layer = Layer(lo: nat, hi: nat)

  predicate IsUsable(r: RawChunk) {
    r.content != "" && r.embedding.Some? && r.embedding.value != []
  }

  function Usable(raw: seq<RawChunk>): seq<Chunk> {
    if raw == [] then []
    else
      var r := raw[|raw| - 1];
      Usable(raw[..|raw| - 1]) + if IsUsable(r) then [Chunk(r.content, r.embedding.value)] else []
  }

  ghost function HasBoth(): RawChunk -> bool {
    (r: RawChunk) => r.content != "" && r.embedding.Some? && r.embedding.value != []
  }

  /** The chunks that have a text and an embedding, in order, as they are. */
  lemma {:induction false} UsableMeaning(raw: seq<RawChunk>)
    ensures var kept := Filter(HasBoth(), raw);
            && |Usable(raw)| == |kept|
            && forall i :: 0 <= i < |kept| ==> kept[i].embedding.Some?
                                               && Usable(raw)[i] == Chunk(kept[i].content, kept[i].embedding.value)
  {
    if raw != [] {
      UsableMeaning(raw[..|raw| - 1]);
    }
  }

  /** The first cluster whose probability exceeds the threshold. */
  function FirstAbove(row: seq<real>, threshold: real): (r: Option<nat>)
    ensures r.Some? ==> r.value < |row|
  {
    if row == [] then None
    else if row[0] > threshold then Some(0)
    else
      var rest := FirstAbove(row[1..], threshold);
      if rest.None? then None else Some(rest.value + 1)
  }

  /** The nodes labelled `c`, where labels[i] belongs to node start + i. */
  function Members(labels: seq<nat>, start: nat, c: nat): (r: seq<nat>)
    ensures forall v :: v in r <==> start <= v < start + |labels| && labels[v - start] == c
  {
    if labels == [] then []
    else
      var n := |labels| - 1;
      Members(labels[..n], start, c) + if labels[n] == c then [start + n] else []
  }

  // ---------------------------------------------------------------- trees

  /** `kids[v]` lists the nodes summarised by node `v`; it is empty for an original chunk. */
  ghost predicate WellFounded(kids: seq<seq<nat>>) {
    forall v, k :: 0 <= v < |kids| && k in kids[v] ==> k < v
  }

  ghost predicate HasParent(b: Layer, kids: seq<seq<nat>>, v: nat)
    requires b.hi <= |kids|
  {
    exists w :: b.lo <= w < b.hi && v in kids[w]
  }

  /** Every node of layer `a` has exactly one parent in layer `b`, and nothing else has. */
  ghost predicate Covers(a: Layer, b: Layer, kids: seq<seq<nat>>) {
    && b.hi <= |kids|
    && (forall w :: b.lo <= w < b.hi ==> kids[w] != [] && forall v :: v in kids[w] ==> a.lo <= v < a.hi)
    && (forall v: nat :: a.lo <= v < a.hi ==> HasParent(b, kids, v))
    && (forall v, w, u :: b.lo <= w < b.hi && b.lo <= u < b.hi && v in kids[w] && v in kids[u] ==> w == u)
  }

  /** The most nodes the layer above `size` nodes can have. */
  function Width(maxCluster: int, size: nat): int {
    if size <= 2 then size - 1 else Min(maxCluster, size) - 1
  }

  /** Only a layer of two may be followed by an empty one, when its summary was skipped. */
  ghost predicate Follows(maxCluster: int, a: Layer, b: Layer, kids: seq<seq<nat>>) {
    && a.lo + 1 < a.hi == b.lo <= b.hi
    && b.hi - b.lo <= Width(maxCluster, a.hi - a.lo)
    && (if b.lo == b.hi then a.hi - a.lo == 2 else Covers(a, b, kids))
  }

  ghost predicate IsTree(maxCluster: int, n: nat, layers: seq<Layer>, kids: seq<seq<nat>>) {
    && layers != [] && layers[0] == Layer(0, n) && layers[|layers| - 1].hi == |kids| && n <= |kids|
    && WellFounded(kids) && (forall v :: 0 <= v < n ==> kids[v] == [])
    && forall i :: 0 <= i < |layers| - 1 ==> Follows(maxCluster, layers[i], layers[i + 1], kids)
  }

  ghost function Leaves(kids: seq<seq<nat>>, v: nat): set<nat>
    requires WellFounded(kids) && v < |kids|
    decreases v
  {
    if kids[v] == [] then {v} else set k, leaf | k in kids[v] && leaf in Leaves(kids, k) :: leaf
  }

  ghost predicate IsUnder(layer: Layer, kids: seq<seq<nat>>, leaf: nat)
    requires WellFounded(kids) && layer.hi <= |kids|
  {
    exists w: nat :: layer.lo <= w < layer.hi && leaf in Leaves(kids, w)
  }

  /** The leaf sets under the nodes of `layer` partition the original chunks. */
  ghost predicate Partitions(n: nat, layer: Layer, kids: seq<seq<nat>>)
    requires WellFounded(kids)
  {
    && layer.hi <= |kids|
    && (forall w :: layer.lo <= w < layer.hi ==> Leaves(kids, w) != {})
    && (forall w, leaf :: layer.lo <= w < layer.hi && leaf in Leaves(kids, w) ==> leaf < n)
    && (forall leaf: nat :: leaf < n ==> IsUnder(layer, kids, leaf))
    && (forall w: nat, u: nat, leaf ::
          (layer.lo <= w < layer.hi && layer.lo <= u < layer.hi && leaf in Leaves(kids, w) && leaf in Leaves(kids, u))
          ==> w == u)
  }

  lemma LeafUp(kids: seq<seq<nat>>, w: nat, k: nat, leaf: nat)
    requires WellFounded(kids) && w < |kids| && k in kids[w] && leaf in Leaves(kids, k)
    ensures leaf in Leaves(kids, w)
  {
  }

  lemma LeafDown(kids: seq<seq<nat>>, w: nat, leaf: nat) returns (k: nat)
    requires WellFounded(kids) && w < |kids| && kids[w] != [] && leaf in Leaves(kids, w)
    ensures k in kids[w] && leaf in Leaves(kids, k)
  {
    k :| k in kids[w] && leaf in Leaves(kids, k);
  }

  lemma PartitionStep(n: nat, a: Layer, b: Layer, kids: seq<seq<nat>>)
    requires WellFounded(kids) && a.hi <= |kids| && Covers(a, b, kids) && Partitions(n, a, kids)
    ensures Partitions(n, b, kids)
  {
    hide Leaves;
    forall w: nat | b.lo <= w < b.hi ensures Leaves(kids, w) != {} && forall leaf :: leaf in Leaves(kids, w) ==> leaf < n {
      NodeHasLeaves(n, a, b, kids, w);
    }
    forall leaf: nat | leaf < n ensures IsUnder(b, kids, leaf) {
      assert IsUnder(a, kids, leaf);
      var v: nat :| a.lo <= v < a.hi && leaf in Leaves(kids, v);
      assert HasParent(b, kids, v);
      var w :| b.lo <= w < b.hi && v in kids[w];
      LeafUp(kids, w, v, leaf);
    }
    forall w: nat, u: nat, leaf
      | b.lo <= w < b.hi && b.lo <= u < b.hi && leaf in Leaves(kids, w) && leaf in Leaves(kids, u)
      ensures w == u
    {
      OneParent(n, a, b, kids, w, u, leaf);
    }
  }

  lemma NodeHasLeaves(n: nat, a: Layer, b: Layer, kids: seq<seq<nat>>, w: nat)
    requires WellFounded(kids) && a.hi <= |kids| && Covers(a, b, kids) && Partitions(n, a, kids)
    requires b.lo <= w < b.hi
    ensures Leaves(kids, w) != {} && forall leaf :: leaf in Leaves(kids, w) ==> leaf < n
  {
    hide Leaves;
    var k := kids[w][0];
    assert k in kids[w];
    var leaf :| leaf in Leaves(kids, k);
    LeafUp(kids, w, k, leaf);
    forall leaf | leaf in Leaves(kids, w) ensures leaf < n {
      var k := LeafDown(kids, w, leaf);
    }
  }

  lemma OneParent(n: nat, a: Layer, b: Layer, kids: seq<seq<nat>>, w: nat, u: nat, leaf: nat)
    requires WellFounded(kids) && a.hi <= |kids| && Covers(a, b, kids) && Partitions(n, a, kids)
    requires b.lo <= w < b.hi && b.lo <= u < b.hi && leaf in Leaves(kids, w) && leaf in Leaves(kids, u)
    ensures w == u
  {
    hide Leaves;
    var k := LeafDown(kids, w, leaf);
    var l := LeafDown(kids, u, leaf);
    assert k == l;
  }

  /** In every non-empty layer, the leaf sets under its nodes partition the original chunks. */
  lemma {:induction false} LeavesPartition(maxCluster: int, n: nat, layers: seq<Layer>, kids: seq<seq<nat>>, i: nat)
    requires IsTree(maxCluster, n, layers, kids) && i < |layers| && layers[i].lo < layers[i].hi
    ensures Partitions(n, layers[i], kids)
  {
    if i > 0 {
      assert Follows(maxCluster, layers[i - 1], layers[i - 1 + 1], kids);
      LeavesPartition(maxCluster, n, layers, kids, i - 1);
      PartitionStep(n, layers[i - 1], layers[i], kids);
    } else {
      forall leaf: nat | leaf < n ensures IsUnder(layers[0], kids, leaf) {
        assert leaf in Leaves(kids, leaf);
      }
    }
  }

  function Below(n: nat): (r: set<nat>)
    ensures |r| == n
    ensures forall c: nat :: c in r <==> c < n
  {
    if n == 0 then {}
    else
      var fewer := Below(n - 1);
      assert n - 1 !in fewer;
      fewer + {n - 1}
  }

  /** A last layer of one node stands for all the chunks. */
  lemma RootCoversAll(maxCluster: int, n: nat, layers: seq<Layer>, kids: seq<seq<nat>>)
    requires IsTree(maxCluster, n, layers, kids)
    requires layers[|layers| - 1].hi == layers[|layers| - 1].lo + 1
    ensures Leaves(kids, |kids| - 1) == Below(n)
  {
    hide Leaves;
    LeavesPartition(maxCluster, n, layers, kids, |layers| - 1);
    forall leaf | leaf in Below(n) ensures leaf in Leaves(kids, |kids| - 1) {
      assert IsUnder(layers[|layers| - 1], kids, leaf);
    }
  }

  function Triangle(m: nat): nat {
    if m == 0 then 0 else m + Triangle(m - 1)
  }

  lemma TriangleIs(m: nat)
    ensures Triangle(m) == m * (m + 1) / 2
  {
  }

  lemma TriangleGrows(a: nat, b: nat)
    requires a <= b
    ensures Triangle(a) <= Triangle(b)
  {
  }

  /** What the layers up to the i-th add, and what could still come. */
  lemma {:induction false} LayersBounded(maxCluster: int, n: nat, layers: seq<Layer>, kids: seq<seq<nat>>, i: nat)
    requires IsTree(maxCluster, n, layers, kids) && 0 < i < |layers|
    ensures Width(maxCluster, n) >= 0
    ensures n <= layers[i].lo <= layers[i].hi
    ensures layers[i].hi - n + Triangle(Max(0, layers[i].hi - layers[i].lo - 1)) <= Triangle(Width(maxCluster, n))
  {
    assert Follows(maxCluster, layers[i - 1], layers[i - 1 + 1], kids);
    var size := layers[i].hi - layers[i].lo;
    if i == 1 {
      TriangleGrows(size, Width(maxCluster, n));
    } else {
      LayersBounded(maxCluster, n, layers, kids, i - 1);
      TriangleGrows(size, layers[i - 1].hi - layers[i - 1].lo - 1);
    }
  }

  /** At most m(m+1)/2 summaries, where m = min(maxCluster, n) - 1. */
  lemma SummariesBounded(maxCluster: int, n: nat, layers: seq<Layer>, kids: seq<seq<nat>>)
    requires IsTree(maxCluster, n, layers, kids) && maxCluster >= 2 && n > 0
    ensures var m := Min(maxCluster, n) - 1;
            |kids| - n <= m * (m + 1) / 2
  {
    var m := Min(maxCluster, n) - 1;
    TriangleIs(m);
    if |layers| > 1 {
      LayersBounded(maxCluster, n, layers, kids, |layers| - 1);
      assert Width(maxCluster, n) == m;
    } else {
      assert m * (m + 1) / 2 >= 0;
    }
  }

  /** Three chunks or more are never summarised with a limit of one cluster: there is no count to try. */
  lemma NeedsTwoClusters(maxCluster: int, n: nat, layers: seq<Layer>, kids: seq<seq<nat>>)
    requires IsTree(maxCluster, n, layers, kids) && n > 2
    requires layers[|layers| - 1].hi - layers[|layers| - 1].lo <= 1
    ensures maxCluster >= 2
  {
    assert Follows(maxCluster, layers[0], layers[0 + 1], kids);
    assert HasParent(layers[1], kids, 0);
  }

  // ---------------------------------------------------------------- the algorithm

  lemma Grows(maxCluster: int, n: nat, layers: seq<Layer>, kids: seq<seq<nat>>, more: seq<seq<nat>>, b: Layer)
    requires IsTree(maxCluster, n, layers, kids) && b.hi == |kids| + |more|
    requires forall m :: m in more ==> forall k :: k in m ==> k < |kids|
    requires Follows(maxCluster, layers[|layers| - 1], b, kids + more)
    ensures IsTree(maxCluster, n, layers + [b], kids + more)
  {
    var after := kids + more;
    forall i | 0 <= i < |layers| - 1 ensures Follows(maxCluster, layers[i], layers[i + 1], after) {
      LayersAscend(maxCluster, n, layers, kids, i + 1);
      StillFollows(maxCluster, layers[i], layers[i + 1], kids, more);
    }
    forall v, k | 0 <= v < |after| && k in after[v] ensures k < v {
      assert v >= |kids| ==> after[v] in more;
    }
    var whole := layers + [b];
    forall i | 0 <= i < |whole| - 1 ensures Follows(maxCluster, whole[i], whole[i + 1], after) {
    }
    LayersAscend(maxCluster, n, layers, kids, |layers| - 1);
  }

  lemma {:induction false} LayersAscend(maxCluster: int, n: nat, layers: seq<Layer>, kids: seq<seq<nat>>, i: nat)
    requires IsTree(maxCluster, n, layers, kids) && i < |layers|
    ensures layers[i].hi <= |kids|
    decreases |layers| - i
  {
    if i < |layers| - 1 {
      LayersAscend(maxCluster, n, layers, kids, i + 1);
      assert Follows(maxCluster, layers[i], layers[i + 1], kids);
    }
  }

  lemma StillFollows(maxCluster: int, a: Layer, b: Layer, kids: seq<seq<nat>>, more: seq<seq<nat>>)
    requires Follows(maxCluster, a, b, kids) && b.hi <= |kids|
    ensures Follows(maxCluster, a, b, kids + more)
  {
    forall v: nat | a.lo <= v < a.hi && Covers(a, b, kids) ensures HasParent(b, kids + more, v) {
      assert HasParent(b, kids, v);
      var w :| b.lo <= w < b.hi && v in kids[w];
      assert v in (kids + more)[w];
    }
  }

  /** What comes from outside: which summaries, by number, find the task cancelled or fail, what the others say, the
      criterion of each number of clusters tried in a layer, and the probability of each cluster for each node. */
  datatype World = World(cancelled: set<nat>, failing: set<nat>, summaries: map<nat, Chunk>,
                         criteria: map<(nat, nat), real>, probabilities: map<(nat, nat, nat), real>)

  function SummaryOf(w: World, call: nat): Chunk {
    if call in w.summaries then w.summaries[call] else Chunk("", [])
  }

  function Criterion(w: World, layer: nat, n: nat): real {
    if (layer, n) in w.criteria then w.criteria[(layer, n)] else 0.0
  }

  function Probability(w: World, layer: nat, node: nat, c: nat): real {
    if (layer, node, c) in w.probabilities then w.probabilities[(layer, node, c)] else 0.0
  }

  /** The first number of clusters with the smallest criterion, of those below the limit and the size. */
  ghost predicate IsCount(w: World, maxCluster: int, layer: nat, size: nat, k: nat) {
    && 1 <= k < Min(maxCluster, size)
    && forall n: nat :: 1 <= n < Min(maxCluster, size) ==>
         Criterion(w, layer, k) <= Criterion(w, layer, n) && (n < k ==> Criterion(w, layer, k) < Criterion(w, layer, n))
  }

  /** The first of `clusters` whose probability for the node exceeds the threshold; a single cluster takes every node. */
  ghost predicate IsLabel(w: World, threshold: real, layer: nat, node: nat, clusters: nat, l: nat) {
    && l < clusters
    && (clusters == 1
        || (Probability(w, layer, node, l) > threshold
            && forall c: nat :: c < l ==> Probability(w, layer, node, c) <= threshold))
  }

  ghost predicate HasLabel(w: World, threshold: real, layer: nat, node: nat, clusters: nat) {
    exists l: nat :: IsLabel(w, threshold, layer, node, clusters, l)
  }

  ghost predicate IsTaken(w: World, threshold: real, layer: nat, size: nat, clusters: nat, c: nat) {
    exists node: nat :: node < size && IsLabel(w, threshold, layer, node, clusters, c)
  }

  /** Every node has a label, and every cluster a node. */
  ghost predicate Separates(w: World, threshold: real, layer: nat, size: nat, clusters: nat) {
    && (forall node: nat :: node < size ==> HasLabel(w, threshold, layer, node, clusters))
    && (forall c: nat :: c < clusters ==> IsTaken(w, threshold, layer, size, clusters, c))
  }

  /** There is a number of clusters to take, and with it the clustering separates the layer. */
  ghost predicate Clusterable(w: World, maxCluster: int, threshold: real, layer: nat, size: nat) {
    exists k: nat :: IsCount(w, maxCluster, layer, size, k) && Separates(w, threshold, layer, size, k)
  }

  lemma CountIsUnique(w: World, maxCluster: int, layer: nat, size: nat, j: nat, k: nat)
    requires IsCount(w, maxCluster, layer, size, j) && IsCount(w, maxCluster, layer, size, k)
    ensures j == k
  {
    assert Criterion(w, layer, j) <= Criterion(w, layer, k) && Criterion(w, layer, k) <= Criterion(w, layer, j);
  }

  lemma NotClusterable(w: World, maxCluster: int, threshold: real, layer: nat, size: nat, k: nat)
    requires IsCount(w, maxCluster, layer, size, k) && !Separates(w, threshold, layer, size, k)
    ensures !Clusterable(w, maxCluster, threshold, layer, size)
  {
    hide IsCount, Separates;
    if Clusterable(w, maxCluster, threshold, layer, size) {
      var j: nat :| IsCount(w, maxCluster, layer, size, j) && Separates(w, threshold, layer, size, j);
      CountIsUnique(w, maxCluster, layer, size, j, k);
    }
  }

  /** The summaries with numbers from `first` up to `last` that fail without being cancelled. */
  function Failures(w: World, first: nat, last: nat): nat {
    if last <= first then 0
    else Failures(w, first, last - 1) + if last - 1 in w.failing && last - 1 !in w.cancelled then 1 else 0
  }

  /** None of these summaries finds the task cancelled. */
  ghost predicate Undisturbed(w: World, first: nat, last: nat) {
    forall k: nat :: first <= k < last ==> k !in w.cancelled
  }

  /** How a run ends: with a tree; stopped by cancellation or by one failure too many; for want of a clustering; or
      because a cluster was left without its summary. */
  datatype Stop = Complete | Disturbed | Unclustered | SummaryMissing

  class Summarizer {
    const world: World
    const maxCluster: int
    const threshold: real
    const maxErrors: nat
    var errorCount: nat
    /** How many summaries have been started. */
    var calls: nat

    constructor (world: World, maxCluster: int, threshold: real, maxErrors: int)
      ensures this.world == world && this.maxCluster == maxCluster && this.threshold == threshold
      ensures this.maxErrors == Max(1, maxErrors) && errorCount == 0 && calls == 0
    {
      this.world := world;
      this.maxCluster := maxCluster;
      this.threshold := threshold;
      this.maxErrors := Max(1, maxErrors);
      errorCount := 0;
      calls := 0;
    }

    /** The summaries between two states of the counters: none was cancelled and the failures stayed below the limit. */
    ghost predicate Fine(calls0: nat, errors0: nat, calls1: nat, errors1: nat) {
      Undisturbed(world, calls0, calls1) && (errors1 > errors0 ==> errors1 < maxErrors)
    }

    /** The number of components with the smallest criterion, the first one if there are several; None when
        there is none to try: the source raises. */
    method GetOptimalClusters(layer: nat, size: nat) returns (optimal: Option<nat>)
      ensures optimal.None? <==> Min(maxCluster, size) <= 1
      ensures optimal.Some? ==> IsCount(world, maxCluster, layer, size, optimal.value)
    {
      var maxClusters := Min(maxCluster, size);
      if maxClusters <= 1 {
        return None;
      }
      var bics: seq<real> := [];
      var best: nat := 0;
      for n: nat := 1 to maxClusters
        invariant |bics| == n - 1 && (n > 1 ==> best < |bics|) && (n == 1 ==> best == 0)
        invariant forall i :: 0 <= i < |bics| ==> bics[i] == Criterion(world, layer, i + 1)
        invariant forall i :: 0 <= i < |bics| ==> bics[best] <= bics[i] && (i < best ==> bics[best] < bics[i])
      {
        var bic := Criterion(world, layer, n);
        bics := bics + [bic];
        if bic < bics[best] {
          best := n - 1;
        }
      }
      forall n: nat | 1 <= n < maxClusters ensures Criterion(world, layer, n) == bics[n - 1] {
      }
      optimal := Some(best + 1);
    }

    /** One summary, appended if the model and the embedding succeed; skipped if they fail, unless that is one
        failure too many or the task was cancelled: then the run is aborted. */
    method Summarize(chunks: seq<Chunk>, members: seq<nat>) returns (r: Option<seq<Chunk>>)
      requires members != [] && forall v :: v in members ==> v < |chunks|
      modifies this`errorCount, this`calls
      ensures calls == old(calls) + 1
      ensures errorCount == old(errorCount) + Failures(world, old(calls), calls)
      ensures r.Some? <==> Fine(old(calls), old(errorCount), calls, errorCount)
      ensures r.Some? ==> r.value == if old(calls) in world.failing then chunks
                                     else chunks + [SummaryOf(world, old(calls))]
    {
      var call := calls;
      calls := calls + 1;
      assert Failures(world, call, call) == 0;
      if call in world.cancelled {
        return None;
      }
      if call in world.failing {
        errorCount := errorCount + 1;
        if errorCount >= maxErrors {
          return None;
        }
        return Some(chunks);
      }
      r := Some(chunks + [SummaryOf(world, call)]);
    }

    /** Runs the tasks in an arbitrary order. `order` says which of them appended a summary, and when. */
    method RunTasks(chunks: seq<Chunk>, tasks: seq<seq<nat>>) returns (r: Option<seq<Chunk>>, ghost order: seq<nat>)
      requires forall t :: t in tasks ==> t != [] && forall v :: v in t ==> v < |chunks|
      modifies this`errorCount, this`calls
      ensures old(calls) <= calls && errorCount == old(errorCount) + Failures(world, old(calls), calls)
      ensures r.Some? <==> Fine(old(calls), old(errorCount), calls, errorCount)
      ensures r.Some? ==> |r.value| == |chunks| + |order| && r.value[..|chunks|] == chunks
      ensures Distinct(order) && forall c :: c in order ==> c < |tasks|
      ensures r.Some? ==> |order| + (errorCount - old(errorCount)) == |tasks|
      ensures r.Some? && |order| == |tasks| ==> forall c: nat :: c < |tasks| ==> c in order
    {
      hide Failures, Undisturbed;
      var all := chunks;
      order := [];
      var waiting := Below(|tasks|);
      NoCallsYet(world, calls);
      while waiting != {}
        invariant |all| == |chunks| + |order| && all[..|chunks|] == chunks
        invariant old(calls) <= calls && errorCount == old(errorCount) + Failures(world, old(calls), calls)
        invariant Fine(old(calls), old(errorCount), calls, errorCount)
        invariant forall c :: c in waiting ==> c < |tasks| && c !in order
        invariant Distinct(order) && forall c :: c in order ==> c < |tasks|
        invariant |order| + |waiting| + (errorCount - old(errorCount)) == |tasks|
        invariant errorCount == old(errorCount) ==> forall c: nat :: c < |tasks| ==> c in order || c in waiting
      {
        var c :| c in waiting;
        assert tasks[c] in tasks;
        ghost var before, number := errorCount, calls;
        var done := Summarize(all, tasks[c]);
        OneCallMore(world, old(calls), number, calls);
        if done.None? {
          return None, order;
        }
        all := done.value;
        waiting := waiting - {c};
        if errorCount == before {
          order := order + [c];
        }
      }
      r := Some(all);
    }

    /** The label of each of `size` nodes; None if some node has no probability above the threshold. */
    method Labels(layer: nat, size: nat, clusters: nat) returns (labels: Option<seq<nat>>)
      requires clusters > 0
      ensures labels.Some? <==> forall node: nat :: node < size ==> HasLabel(world, threshold, layer, node, clusters)
      ensures labels.Some? ==> AreLabels(world, threshold, layer, size, clusters, labels.value)
    {
      var found: seq<nat> := [];
      for i := 0 to size
        invariant AreLabels(world, threshold, layer, i, clusters, found)
      {
        if clusters == 1 {
          assert IsLabel(world, threshold, layer, i, clusters, 0);
          found := found + [0];
        } else {
          var probabilities := Row(world, layer, i, clusters);
          var first := FirstAbove(probabilities, threshold);
          FirstIsLabel(world, threshold, layer, i, clusters);
          if first.None? {
            assert !HasLabel(world, threshold, layer, i, clusters);
            return None;
          }
          found := found + [first.value];
        }
      }
      forall node: nat | node < size ensures HasLabel(world, threshold, layer, node, clusters) {
        assert IsLabel(world, threshold, layer, node, clusters, found[node]);
      }
      labels := Some(found);
    }

    /** The chunks followed by the summaries of every layer; None if the run is aborted, and `stop` says why. */
    method Call(raw: seq<RawChunk>)
      returns (r: Option<seq<Chunk>>, stop: Stop, ghost layers: seq<Layer>, ghost kids: seq<seq<nat>>)
      modifies this`errorCount, this`calls
      ensures r.Some? <==> stop.Complete?
      ensures old(calls) <= calls && errorCount == old(errorCount) + Failures(world, old(calls), calls)
      ensures stop.Disturbed? <==> !Fine(old(calls), old(errorCount), calls, errorCount)
      ensures |raw| <= 1 ==> r == Some([]) && calls == old(calls)
      ensures |raw| > 1 ==>
                && layers != [] && layers[0] == Layer(0, |Usable(raw)|)
                && AllClustered(world, maxCluster, threshold, layers, |layers| - 1)
                && var last := layers[|layers| - 1];
                   && (stop.Unclustered? ==>
                         last.hi - last.lo > 2
                         && !Clusterable(world, maxCluster, threshold, |layers| - 1, last.hi - last.lo))
                   && (stop.SummaryMissing? ==>
                         last.hi - last.lo > 2 && errorCount > old(errorCount)
                         && Clusterable(world, maxCluster, threshold, |layers| - 1, last.hi - last.lo))
      ensures |raw| > 1 && r.Some? ==>
                var n := |Usable(raw)|;
                && IsTree(maxCluster, n, layers, kids) && |kids| == |r.value| && r.value[..n] == Usable(raw)
                && layers[|layers| - 1].hi - layers[|layers| - 1].lo <= 1
                && (n > 0 ==> (errorCount == old(errorCount) <==> layers[|layers| - 1].lo < layers[|layers| - 1].hi))
    {
      hide IsTree, Usable, NoKids, Clusterable, AllClustered, Failures, Undisturbed;
      layers, kids := [], [];
      stop := Complete;
      NoCallsYet(world, calls);
      if |raw| <= 1 {
        return Some([]), stop, layers, kids;
      }
      var chunks := Usable(raw);
      ghost var n := |chunks|;
      var depth, start: nat, end: nat := 0, 0, |chunks|;
      layers, kids := [Layer(0, n)], NoKids(n);
      OnlyChunks(maxCluster, Usable(raw));
      NoneClustered(world, maxCluster, threshold, layers);
      while end - start > 1
        invariant Building(maxCluster, Usable(raw), chunks, layers, kids, Layer(start, end))
        invariant layers[0] == Layer(0, n) && depth == |layers| - 1
        invariant AllClustered(world, maxCluster, threshold, layers, depth)
        invariant old(calls) <= calls && errorCount == old(errorCount) + Failures(world, old(calls), calls)
        invariant Fine(old(calls), old(errorCount), calls, errorCount)
        invariant stop.Complete? && (start == end ==> errorCount > old(errorCount) || n == 0)
        invariant errorCount > old(errorCount) ==> start == end
        decreases end - start
      {
        ghost var calls0, errors0 := calls, errorCount;
        var done: Option<seq<Chunk>>;
        ghost var more: seq<seq<nat>>;
        if end - start == 2 {
          done, more := SummarizePair(chunks, start);
          stop := if done.None? then Disturbed else Complete;
        } else {
          done, stop, more := SummarizeClusters(depth, chunks, start);
        }
        MoreCalls(world, old(calls), calls0, calls);
        if done.None? {
          return None, stop, layers, kids;
        }
        LayerAdded(maxCluster, Usable(raw), chunks, layers, kids, Layer(start, end), done.value, more);
        OneClusteredMore(world, maxCluster, threshold, layers, Layer(end, |done.value|));
        chunks := done.value;
        layers, kids := layers + [Layer(end, |chunks|)], kids + more;
        depth, start, end := depth + 1, end, |chunks|;
      }
      BuildingMeans(maxCluster, Usable(raw), chunks, layers, kids, Layer(start, end));
      r := Some(chunks);
    }

    /** The last two nodes get one summary, without clustering, unless it is skipped. */
    method SummarizePair(chunks: seq<Chunk>, start: nat) returns (done: Option<seq<Chunk>>, ghost more: seq<seq<nat>>)
      requires |chunks| == start + 2
      modifies this`errorCount, this`calls
      ensures old(calls) <= calls && errorCount == old(errorCount) + Failures(world, old(calls), calls)
      ensures done.Some? <==> Fine(old(calls), old(errorCount), calls, errorCount)
      ensures done.Some? ==> NewLayer(maxCluster, Layer(start, |chunks|), chunks, done.value, more)
      ensures done.Some? ==> (errorCount == old(errorCount) <==> more != [])
    {
      done := Summarize(chunks, [start, start + 1]);
      more := if errorCount == old(errorCount) then [[start, start + 1]] else [];
      assert Failures(world, old(calls), old(calls)) == 0;
      if done.Some? && more != [] {
        PairIsLayer(maxCluster, start, chunks, done.value);
      }
    }

    /** Three nodes or more are clustered, and every cluster gets a summary: if one is skipped the run aborts. */
    method SummarizeClusters(layer: nat, chunks: seq<Chunk>, start: nat)
      returns (done: Option<seq<Chunk>>, stop: Stop, ghost more: seq<seq<nat>>)
      requires |chunks| > start + 2
      modifies this`errorCount, this`calls
      ensures old(calls) <= calls && errorCount == old(errorCount) + Failures(world, old(calls), calls)
      ensures done.Some? <==> stop.Complete?
      ensures stop.Disturbed? <==> !Fine(old(calls), old(errorCount), calls, errorCount)
      ensures stop.Unclustered? <==> !Clusterable(world, maxCluster, threshold, layer, |chunks| - start)
      ensures stop.Unclustered? ==> calls == old(calls)
      ensures stop.SummaryMissing? ==> errorCount > old(errorCount)
      ensures done.Some? ==> NewLayer(maxCluster, Layer(start, |chunks|), chunks, done.value, more) && more != []
      ensures done.Some? ==> errorCount == old(errorCount)
      ensures done.Some? ==>
                forall kid :: kid in more ==> IsCluster(world, maxCluster, threshold, layer, start, |chunks| - start, kid)
    {
      hide Clusterable, IsCount, Separates, Failures, Undisturbed, AreLabels;
      more := [];
      NoCallsYet(world, calls);
      var clusters := GetOptimalClusters(layer, |chunks| - start);
      if clusters.None? {
        NothingToCount(world, maxCluster, threshold, layer, |chunks| - start);
        return None, Unclustered, more;
      }
      CountInRange(world, maxCluster, layer, |chunks| - start, clusters.value);
      var labels := Labels(layer, |chunks| - start, clusters.value);
      if labels.None? {
        SeparatesMeans(world, threshold, layer, |chunks| - start, clusters.value);
        NotClusterable(world, maxCluster, threshold, layer, |chunks| - start, clusters.value);
        return None, Unclustered, more;
      }
      LabelsBelow(world, threshold, layer, |chunks| - start, clusters.value, labels.value);
      var tasks: seq<seq<nat>> := [];
      for c := 0 to clusters.value
        invariant |tasks| == c
        invariant forall i :: 0 <= i < c ==> tasks[i] == Members(labels.value, start, i) && tasks[i] != []
      {
        var members := Members(labels.value, start, c);
        if members == [] {
          NobodyIn(world, maxCluster, threshold, layer, start, |chunks| - start, clusters.value, labels.value, c);
          return None, Unclustered, more;
        }
        tasks := tasks + [members];
      }
      EverybodyIn(world, maxCluster, threshold, layer, start, |chunks| - start, clusters.value, labels.value);
      ghost var order;
      done, order := RunTasks(chunks, tasks);
      if done.None? {
        return None, Disturbed, more;
      }
      if |done.value| - |chunks| != clusters.value {
        return None, SummaryMissing, more;
      }
      more := KidsInOrder(labels.value, start, order);
      ClustersAreLayer(maxCluster, start, chunks, done.value, labels.value, clusters.value, order);
      KidsAreClusters(world, maxCluster, threshold, layer, start, |chunks| - start, clusters.value, labels.value, order);
      stop := Complete;
    }
  }

  lemma NoCallsYet(w: World, calls: nat)
    ensures Failures(w, calls, calls) == 0 && Undisturbed(w, calls, calls)
  {
  }

  lemma {:induction false} MoreCalls(w: World, a: nat, b: nat, c: nat)
    requires a <= b <= c
    ensures Failures(w, a, c) == Failures(w, a, b) + Failures(w, b, c)
    ensures Undisturbed(w, a, c) <==> Undisturbed(w, a, b) && Undisturbed(w, b, c)
  {
    if b < c {
      MoreCalls(w, a, b, c - 1);
    }
  }

  lemma OneCallMore(w: World, a: nat, b: nat, c: nat)
    requires a <= b && c == b + 1
    ensures Failures(w, b, c) == if b in w.failing && b !in w.cancelled then 1 else 0
    ensures Undisturbed(w, b, c) <==> b !in w.cancelled
    ensures Failures(w, a, c) == Failures(w, a, b) + Failures(w, b, c)
    ensures Undisturbed(w, a, c) <==> Undisturbed(w, a, b) && Undisturbed(w, b, c)
  {
    MoreCalls(w, a, b, c);
    assert Failures(w, b, b) == 0;
  }

  /** Each layer of three nodes or more that was built upon could be clustered. */
  ghost predicate AllClustered(w: World, maxCluster: int, threshold: real, layers: seq<Layer>, built: int) {
    forall i: nat :: i < built && i < |layers| && layers[i].hi - layers[i].lo > 2 ==>
      Clusterable(w, maxCluster, threshold, i, layers[i].hi - layers[i].lo)
  }

  lemma NoneClustered(w: World, maxCluster: int, threshold: real, layers: seq<Layer>)
    ensures AllClustered(w, maxCluster, threshold, layers, 0)
  {
  }

  lemma OneClusteredMore(w: World, maxCluster: int, threshold: real, layers: seq<Layer>, next: Layer)
    requires layers != [] && AllClustered(w, maxCluster, threshold, layers, |layers| - 1)
    requires var last := layers[|layers| - 1];
             last.hi - last.lo > 2 ==> Clusterable(w, maxCluster, threshold, |layers| - 1, last.hi - last.lo)
    ensures AllClustered(w, maxCluster, threshold, layers + [next], |layers|)
  {
    hide Clusterable;
  }

  function Row(w: World, layer: nat, node: nat, clusters: nat): (row: seq<real>)
    ensures |row| == clusters && forall c :: 0 <= c < clusters ==> row[c] == Probability(w, layer, node, c)
  {
    seq(clusters, (c: nat) => Probability(w, layer, node, c))
  }

  lemma {:induction false} FirstAboveIs(row: seq<real>, threshold: real)
    ensures var first := FirstAbove(row, threshold);
            && (first.Some? ==> row[first.value] > threshold && forall c :: 0 <= c < first.value ==> row[c] <= threshold)
            && (first.None? ==> forall c :: 0 <= c < |row| ==> row[c] <= threshold)
  {
    if row != [] && !(row[0] > threshold) {
      FirstAboveIs(row[1..], threshold);
      assert forall c :: 0 < c < |row| ==> row[c] == row[1..][c - 1];
    }
  }

  lemma FirstIsLabel(w: World, threshold: real, layer: nat, node: nat, clusters: nat)
    requires clusters > 1
    ensures var first := FirstAbove(Row(w, layer, node, clusters), threshold);
            && (first.Some? ==> IsLabel(w, threshold, layer, node, clusters, first.value))
            && (first.None? ==> !HasLabel(w, threshold, layer, node, clusters))
  {
    var row := Row(w, layer, node, clusters);
    FirstAboveIs(row, threshold);
    hide FirstAbove;
    var first := FirstAbove(row, threshold);
    if first.Some? {
      forall c: nat | c < first.value ensures Probability(w, layer, node, c) <= threshold {
        assert row[c] <= threshold;
      }
    } else {
      forall l: nat ensures !IsLabel(w, threshold, layer, node, clusters, l) {
        assert l < clusters ==> row[l] <= threshold;
      }
    }
  }

  ghost predicate AreLabels(w: World, threshold: real, layer: nat, size: nat, clusters: nat, labels: seq<nat>) {
    |labels| == size && forall node: nat :: node < size ==> IsLabel(w, threshold, layer, node, clusters, labels[node])
  }

  lemma LabelsBelow(w: World, threshold: real, layer: nat, size: nat, clusters: nat, labels: seq<nat>)
    requires AreLabels(w, threshold, layer, size, clusters, labels)
    ensures |labels| == size && forall l :: l in labels ==> l < clusters
  {
    forall l | l in labels ensures l < clusters {
      var i: nat :| i < |labels| && labels[i] == l;
      assert IsLabel(w, threshold, layer, i, clusters, labels[i]);
    }
  }

  lemma NothingToCount(w: World, maxCluster: int, threshold: real, layer: nat, size: nat)
    requires Min(maxCluster, size) <= 1
    ensures !Clusterable(w, maxCluster, threshold, layer, size)
  {
    hide Separates;
  }

  lemma CountInRange(w: World, maxCluster: int, layer: nat, size: nat, k: nat)
    requires IsCount(w, maxCluster, layer, size, k)
    ensures 1 <= k < Min(maxCluster, size)
  {
  }

  lemma SeparatesMeans(w: World, threshold: real, layer: nat, size: nat, clusters: nat)
    ensures Separates(w, threshold, layer, size, clusters) ==>
              forall node: nat :: node < size ==> HasLabel(w, threshold, layer, node, clusters)
  {
    hide HasLabel, IsTaken;
  }

  lemma LabelIsUnique(w: World, threshold: real, layer: nat, node: nat, clusters: nat, l: nat, m: nat)
    requires IsLabel(w, threshold, layer, node, clusters, l) && IsLabel(w, threshold, layer, node, clusters, m)
    ensures l == m
  {
  }

  lemma IsMember(labels: seq<nat>, start: nat, node: nat)
    requires node < |labels|
    ensures start + node in Members(labels, start, labels[node])
  {
  }

  lemma NobodyIn(w: World, maxCluster: int, threshold: real, layer: nat, start: nat, size: nat, clusters: nat,
                 labels: seq<nat>, c: nat)
    requires IsCount(w, maxCluster, layer, size, clusters) && c < clusters
    requires AreLabels(w, threshold, layer, size, clusters, labels) && Members(labels, start, c) == []
    ensures !Clusterable(w, maxCluster, threshold, layer, size)
  {
    hide IsLabel, IsCount, Members;
    forall node: nat | node < size ensures !IsLabel(w, threshold, layer, node, clusters, c) {
      assert IsLabel(w, threshold, layer, node, clusters, labels[node]);
      if IsLabel(w, threshold, layer, node, clusters, c) {
        LabelIsUnique(w, threshold, layer, node, clusters, labels[node], c);
        IsMember(labels, start, node);
      }
    }
    assert !IsTaken(w, threshold, layer, size, clusters, c);
    NotClusterable(w, maxCluster, threshold, layer, size, clusters);
  }

  lemma EverybodyIn(w: World, maxCluster: int, threshold: real, layer: nat, start: nat, size: nat, clusters: nat,
                    labels: seq<nat>)
    requires IsCount(w, maxCluster, layer, size, clusters)
    requires AreLabels(w, threshold, layer, size, clusters, labels)
    requires forall c: nat :: c < clusters ==> Members(labels, start, c) != []
    ensures Clusterable(w, maxCluster, threshold, layer, size)
  {
    hide IsLabel, IsCount, Members;
    forall node: nat | node < size ensures HasLabel(w, threshold, layer, node, clusters) {
      assert IsLabel(w, threshold, layer, node, clusters, labels[node]);
    }
    forall c: nat | c < clusters ensures IsTaken(w, threshold, layer, size, clusters, c) {
      var v := Members(labels, start, c)[0];
      assert v in Members(labels, start, c);
      var node: nat := v - start;
      assert IsLabel(w, threshold, layer, node, clusters, labels[node]);
    }
    assert Separates(w, threshold, layer, size, clusters);
  }

  /** The nodes of `kid` are exactly the nodes with label `l` in the clustering that the layer takes. */
  ghost predicate IsClusterOf(w: World, maxCluster: int, threshold: real, layer: nat, start: nat, size: nat, kid: seq<nat>,
                              l: nat)
  {
    exists k: nat ::
      && IsCount(w, maxCluster, layer, size, k)
      && forall v: nat :: v in kid <==> start <= v < start + size && IsLabel(w, threshold, layer, v - start, k, l)
  }

  ghost predicate IsCluster(w: World, maxCluster: int, threshold: real, layer: nat, start: nat, size: nat, kid: seq<nat>) {
    exists l: nat :: IsClusterOf(w, maxCluster, threshold, layer, start, size, kid, l)
  }

  lemma KidsAreClusters(w: World, maxCluster: int, threshold: real, layer: nat, start: nat, size: nat, clusters: nat,
                        labels: seq<nat>, order: seq<nat>)
    requires IsCount(w, maxCluster, layer, size, clusters) && AreLabels(w, threshold, layer, size, clusters, labels)
    ensures forall kid :: kid in KidsInOrder(labels, start, order) ==>
              IsCluster(w, maxCluster, threshold, layer, start, size, kid)
  {
    hide IsLabel, IsCount, Members, KidsInOrder, IsClusterOf;
    var more := KidsInOrder(labels, start, order);
    forall i | 0 <= i < |order| ensures IsClusterOf(w, maxCluster, threshold, layer, start, size, more[i], order[i]) {
      KidIsCluster(w, threshold, layer, start, size, clusters, labels, order[i]);
      ClusterIs(w, maxCluster, threshold, layer, start, size, more[i], order[i], clusters);
    }
  }

  lemma ClusterIs(w: World, maxCluster: int, threshold: real, layer: nat, start: nat, size: nat, kid: seq<nat>, l: nat, k: nat)
    requires IsCount(w, maxCluster, layer, size, k)
    requires forall v: nat :: v in kid <==> start <= v < start + size && IsLabel(w, threshold, layer, v - start, k, l)
    ensures IsClusterOf(w, maxCluster, threshold, layer, start, size, kid, l)
  {
    hide IsLabel, IsCount;
  }

  lemma KidIsCluster(w: World, threshold: real, layer: nat, start: nat, size: nat, clusters: nat, labels: seq<nat>, l: nat)
    requires AreLabels(w, threshold, layer, size, clusters, labels)
    ensures forall v: nat :: v in Members(labels, start, l) <==>
              start <= v < start + size && IsLabel(w, threshold, layer, v - start, clusters, l)
  {
    hide IsLabel, Members;
    forall v: nat | start <= v < start + size
      ensures v in Members(labels, start, l) <==> IsLabel(w, threshold, layer, v - start, clusters, l)
    {
      assert IsLabel(w, threshold, layer, v - start, clusters, labels[v - start]);
      if IsLabel(w, threshold, layer, v - start, clusters, l) {
        LabelIsUnique(w, threshold, layer, v - start, clusters, labels[v - start], l);
      }
    }
  }

  /** The parents in the order in which their summaries were appended. */
  ghost function KidsInOrder(labels: seq<nat>, start: nat, order: seq<nat>): (kids: seq<seq<nat>>)
    ensures |kids| == |order| && forall i :: 0 <= i < |order| ==> kids[i] == Members(labels, start, order[i])
  {
    seq(|order|, i requires 0 <= i < |order| => Members(labels, start, order[i]))
  }

  ghost predicate IsKid(more: seq<seq<nat>>, v: nat) {
    exists i :: 0 <= i < |more| && v in more[i]
  }

  /** `more` are the kids of the nodes appended to `chunks`, which form a layer over `a`. */
  ghost predicate NewLayer(maxCluster: int, a: Layer, chunks: seq<Chunk>, after: seq<Chunk>, more: seq<seq<nat>>) {
    && a.hi == |chunks| && |after| == |chunks| + |more| && after[..|chunks|] == chunks
    && a.lo + 1 < a.hi && |more| <= Width(maxCluster, a.hi - a.lo)
    && (forall m :: m in more ==> m != [] && forall v :: v in m ==> a.lo <= v < a.hi)
    && (if more == [] then a.hi - a.lo == 2
        else
          && (forall v: nat :: a.lo <= v < a.hi ==> IsKid(more, v))
          && (forall v, i, j :: 0 <= i < |more| && 0 <= j < |more| && v in more[i] && v in more[j] ==> i == j))
  }

  /** What holds between two layers. */
  ghost predicate Building(maxCluster: int, usable: seq<Chunk>, chunks: seq<Chunk>, layers: seq<Layer>,
                           kids: seq<seq<nat>>, last: Layer)
  {
    && IsTree(maxCluster, |usable|, layers, kids) && layers != [] && layers[|layers| - 1] == last
    && last.lo <= last.hi == |chunks| == |kids| && |usable| <= |chunks| && chunks[..|usable|] == usable
  }

  lemma OnlyChunks(maxCluster: int, usable: seq<Chunk>)
    ensures Building(maxCluster, usable, usable, [Layer(0, |usable|)], NoKids(|usable|), Layer(0, |usable|))
  {
  }

  lemma BuildingMeans(maxCluster: int, usable: seq<Chunk>, chunks: seq<Chunk>, layers: seq<Layer>,
                      kids: seq<seq<nat>>, last: Layer)
    requires Building(maxCluster, usable, chunks, layers, kids, last)
    ensures IsTree(maxCluster, |usable|, layers, kids) && |kids| == |chunks| && chunks[..|usable|] == usable
    ensures layers != [] && layers[|layers| - 1] == last
  {
  }

  lemma LayerAdded(maxCluster: int, usable: seq<Chunk>, chunks: seq<Chunk>, layers: seq<Layer>, kids: seq<seq<nat>>,
                   last: Layer, after: seq<Chunk>, more: seq<seq<nat>>)
    requires Building(maxCluster, usable, chunks, layers, kids, last)
    requires NewLayer(maxCluster, last, chunks, after, more)
    ensures var next := Layer(last.hi, |after|);
            && Building(maxCluster, usable, after, layers + [next], kids + more, next)
            && next.hi - next.lo == |more| < last.hi - last.lo
  {
    hide IsTree;
    var next := Layer(last.hi, |after|);
    NewLayerFollows(maxCluster, kids, last, chunks, after, more);
    Grows(maxCluster, |usable|, layers, kids, more, next);
    assert after[..|usable|] == after[..|chunks|][..|usable|];
  }

  lemma NewLayerFollows(maxCluster: int, kids: seq<seq<nat>>, last: Layer, chunks: seq<Chunk>, after: seq<Chunk>,
                        more: seq<seq<nat>>)
    requires NewLayer(maxCluster, last, chunks, after, more) && |kids| == |chunks|
    ensures Follows(maxCluster, last, Layer(last.hi, |after|), kids + more)
    ensures forall m :: m in more ==> forall v :: v in m ==> v < |kids|
  {
    var all, next := kids + more, Layer(last.hi, |after|);
    forall w: nat | next.lo <= w < next.hi
      ensures all[w] != [] && forall v :: v in all[w] ==> last.lo <= v < last.hi
    {
      assert all[w] == more[w - |kids|] && all[w] in more;
    }
    if more != [] {
      forall v: nat | last.lo <= v < last.hi ensures HasParent(next, all, v) {
        assert IsKid(more, v);
        var i :| 0 <= i < |more| && v in more[i];
        assert all[|kids| + i] == more[i];
      }
      forall v, w, u | next.lo <= w < next.hi && next.lo <= u < next.hi && v in all[w] && v in all[u] ensures w == u {
        assert all[w] == more[w - |kids|] && all[u] == more[u - |kids|];
      }
    }
  }

  lemma PairIsLayer(maxCluster: int, start: nat, chunks: seq<Chunk>, after: seq<Chunk>)
    requires |chunks| == start + 2 && |after| == |chunks| + 1 && after[..|chunks|] == chunks
    ensures NewLayer(maxCluster, Layer(start, |chunks|), chunks, after, [[start, start + 1]])
  {
    var more := [[start, start + 1]];
    forall v: nat | start <= v < |chunks| ensures IsKid(more, v) {
      assert v in more[0];
    }
  }

  lemma ClustersAreLayer(maxCluster: int, start: nat, chunks: seq<Chunk>, after: seq<Chunk>, labels: seq<nat>,
                         clusters: nat, order: seq<nat>)
    requires |chunks| > start + 2 && |labels| == |chunks| - start && 0 < clusters <= Min(maxCluster, |labels|) - 1
    requires |after| == |chunks| + |order| && after[..|chunks|] == chunks && |order| == clusters
    requires forall l :: l in labels ==> l < clusters
    requires forall c: nat :: c < clusters ==> c in order && Members(labels, start, c) != []
    requires Distinct(order) && forall c :: c in order ==> c < clusters
    ensures NewLayer(maxCluster, Layer(start, |chunks|), chunks, after, KidsInOrder(labels, start, order))
  {
    hide KidsInOrder, Members;
    var more := KidsInOrder(labels, start, order);
    forall m | m in more ensures m != [] && forall v :: v in m ==> start <= v < |chunks| {
      var i :| 0 <= i < |more| && more[i] == m;
      assert order[i] in order;
    }
    forall v: nat | start <= v < |chunks| ensures IsKid(more, v) {
      assert labels[v - start] in labels && labels[v - start] in order;
      var i :| 0 <= i < |order| && order[i] == labels[v - start];
      assert v in more[i];
    }
    forall v, i, j | 0 <= i < |more| && 0 <= j < |more| && v in more[i] && v in more[j] ensures i == j {
      assert order[i] == labels[v - start] == order[j];
    }
  }

  ghost function NoKids(n: nat): seq<seq<nat>> {
    seq(n, _ => [])
  }
}
