/**
 Reachability in a finite set of arcs: the nodes within k arcs of a set of sources, walks as node
 sequences, and the property of queue-based breadth-first search that makes its depths exact.
 */
module Walks {
  type Node = string

  /** A row of `temporal_graph_edges`. */
  datatype GraphEdge = GraphEdge(from: Node, pred: string, to: Node, factId: string, source: string)

  datatype Arc = Arc(from: Node, to: Node)

  ghost predicate IsWalk(arcs: set<Arc>, w: seq<Node>) {
    && |w| > 0
    && forall i :: 0 < i < |w| ==> Arc(w[i - 1], w[i]) in arcs
  }

  ghost predicate WalkFromTo(arcs: set<Arc>, sources: set<Node>, v: Node, w: seq<Node>) {
    IsWalk(arcs, w) && w[0] in sources && w[|w| - 1] == v
  }

  function Successors(arcs: set<Arc>, nodes: set<Node>): set<Node> {
    set a | a in arcs && a.from in nodes :: a.to
  }

  /** The nodes at distance at most `k` from the sources. */
  function Within(arcs: set<Arc>, sources: set<Node>, k: nat): set<Node> {
    if k == 0 then sources
    else Within(arcs, sources, k - 1) + Successors(arcs, Within(arcs, sources, k - 1))
  }

  lemma {:induction false} WithinMonotone(arcs: set<Arc>, sources: set<Node>, j: nat, k: nat)
    requires j <= k
    ensures Within(arcs, sources, j) <= Within(arcs, sources, k)
    decreases k
  {
    if j < k {
      WithinMonotone(arcs, sources, j, k - 1);
    }
  }

  /** Every node within `k` arcs ends a walk of at most `k` arcs. */
  lemma {:induction false} WithinHasWalk(arcs: set<Arc>, sources: set<Node>, k: nat, v: Node) returns (w: seq<Node>)
    requires v in Within(arcs, sources, k)
    ensures WalkFromTo(arcs, sources, v, w) && |w| <= k + 1
    decreases k
  {
    if k == 0 {
      w := [v];
    } else if v in Within(arcs, sources, k - 1) {
      w := WithinHasWalk(arcs, sources, k - 1, v);
    } else {
      var a :| a in arcs && a.from in Within(arcs, sources, k - 1) && a.to == v;
      var p := WithinHasWalk(arcs, sources, k - 1, a.from);
      w := p + [v];
    }
  }

  /** A walk from a source ends within as many arcs as it has. */
  lemma {:induction false} WalkIsWithin(arcs: set<Arc>, sources: set<Node>, v: Node, w: seq<Node>)
    requires WalkFromTo(arcs, sources, v, w)
    ensures v in Within(arcs, sources, |w| - 1)
    decreases |w|
  {
    if |w| > 1 {
      var p := w[..|w| - 1];
      WalkIsWithin(arcs, sources, p[|p| - 1], p);
      assert Arc(w[|w| - 2], w[|w| - 1]) in arcs;
    }
  }

  /** `d` is the distance of `v` from the sources. */
  ghost predicate Distance(arcs: set<Arc>, sources: set<Node>, v: Node, d: nat) {
    v in Within(arcs, sources, d) && forall k: nat :: k < d ==> v !in Within(arcs, sources, k)
  }

  /** Distances in terms of walks: some walk has `d` arcs and none has fewer. */
  lemma {:induction false} DistanceIsShortestWalk(arcs: set<Arc>, sources: set<Node>, v: Node, d: nat)
    ensures Distance(arcs, sources, v, d) <==>
      (exists w :: WalkFromTo(arcs, sources, v, w) && |w| == d + 1) && (forall w :: WalkFromTo(arcs, sources, v, w) ==> |w| >= d + 1)
  {
    if Distance(arcs, sources, v, d) {
      var w := WithinHasWalk(arcs, sources, d, v);
      forall u | WalkFromTo(arcs, sources, v, u) ensures |u| >= d + 1 {
        WalkIsWithin(arcs, sources, v, u);
      }
    }
    if (exists w :: WalkFromTo(arcs, sources, v, w) && |w| == d + 1) && (forall w :: WalkFromTo(arcs, sources, v, w) ==> |w| >= d + 1) {
      var w :| WalkFromTo(arcs, sources, v, w) && |w| == d + 1;
      WalkIsWithin(arcs, sources, v, w);
      forall k: nat | k < d ensures v !in Within(arcs, sources, k) {
        if v in Within(arcs, sources, k) {
          var u := WithinHasWalk(arcs, sources, k, v);
        }
      }
    }
  }

  // ---------------------------------------------------------------- breadth-first search

  /** Queued nodes are labelled, in non-decreasing order of depth; no label is two deeper than the head. */
  ghost predicate QueueOrdered(depth: map<Node, nat>, queue: seq<Node>) {
    && (forall i :: 0 <= i < |queue| ==> queue[i] in depth)
    && (forall i, j :: 0 <= i < j < |queue| ==> depth[queue[i]] <= depth[queue[j]])
    && (|queue| > 0 ==> forall v :: v in depth ==> depth[v] <= depth[queue[0]] + 1)
  }

  /** The labels are upper bounds: each node is within its depth of the sources. */
  ghost predicate Sound(arcs: set<Arc>, sources: set<Node>, depth: map<Node, nat>) {
    && (forall s :: s in sources ==> s in depth && depth[s] == 0)
    && (forall v :: v in depth ==> v in Within(arcs, sources, depth[v]))
  }

  predicate Relaxed(depth: map<Node, nat>, a: Arc) {
    a.from in depth && a.to in depth && depth[a.to] <= depth[a.from] + 1
  }

  /** Every arc out of a labelled node that has left the queue has been followed, below the bound. */
  ghost predicate Expanded(arcs: set<Arc>, depth: map<Node, nat>, queue: seq<Node>, bound: nat) {
    forall a :: a in arcs && a.from in depth && a.from !in queue && depth[a.from] < bound ==> Relaxed(depth, a)
  }

  /** Nodes no farther than the head of the queue are labelled, and not too deep. */
  lemma {:induction false} LabelledUpTo(arcs: set<Arc>, sources: set<Node>, depth: map<Node, nat>, queue: seq<Node>, bound: nat, k: nat, v: Node)
    requires Sound(arcs, sources, depth) && QueueOrdered(depth, queue) && Expanded(arcs, depth, queue, bound)
    requires v in Within(arcs, sources, k) && k <= bound
    requires queue == [] || k <= depth[queue[0]]
    ensures v in depth && depth[v] <= k
    decreases k
  {
    if k > 0 && v !in Within(arcs, sources, k - 1) {
      var a :| a in arcs && a.from in Within(arcs, sources, k - 1) && a.to == v;
      LabelledUpTo(arcs, sources, depth, queue, bound, k - 1, a.from);
      assert Relaxed(depth, a);
    } else if k > 0 {
      LabelledUpTo(arcs, sources, depth, queue, bound, k - 1, v);
    }
  }

  lemma {:induction false} LabelKeepsOrder(depth: map<Node, nat>, cur: Node, queue: seq<Node>, v: Node)
    requires cur in depth && v !in depth && QueueOrdered(depth, [cur] + queue)
    ensures QueueOrdered(depth[v := depth[cur] + 1], [cur] + (queue + [v]))
  {
    var q, q' := [cur] + queue, [cur] + (queue + [v]);
    assert q' == q + [v];
    assert q[0] == cur && q'[0] == cur;
    assert forall i :: 0 <= i < |q| ==> q'[i] == q[i] && q[i] in depth;
  }

  lemma {:induction false} LabelKeepsExpanded(arcs: set<Arc>, depth: map<Node, nat>, queue: seq<Node>, bound: nat, v: Node, d: nat)
    requires v !in depth && Expanded(arcs, depth, queue, bound)
    ensures Expanded(arcs, depth[v := d], queue + [v], bound)
  {
    var depth', queue' := depth[v := d], queue + [v];
    assert forall x :: x in queue' <==> x in queue || x == v;
    forall a | a in arcs && a.from in depth' && a.from !in queue' && depth'[a.from] < bound ensures Relaxed(depth', a) {
      assert Relaxed(depth, a);
    }
  }

  /** Labelling a new neighbour of the node being expanded keeps every search invariant. */
  lemma {:induction false} LabelNeighbour(arcs: set<Arc>, sources: set<Node>, depth: map<Node, nat>, cur: Node, queue: seq<Node>, bound: nat, v: Node)
    requires Sound(arcs, sources, depth) && QueueOrdered(depth, [cur] + queue) && Expanded(arcs, depth, [cur] + queue, bound)
    requires cur in depth && Arc(cur, v) in arcs && v !in depth
    ensures var depth' := depth[v := depth[cur] + 1];
            Sound(arcs, sources, depth') && QueueOrdered(depth', [cur] + (queue + [v])) && Expanded(arcs, depth', [cur] + (queue + [v]), bound)
  {
    hide QueueOrdered, Expanded;
    LabelKeepsOrder(depth, cur, queue, v);
    LabelKeepsExpanded(arcs, depth, [cur] + queue, bound, v, depth[cur] + 1);
    assert [cur] + (queue + [v]) == [cur] + queue + [v];
    assert v in Successors(arcs, Within(arcs, sources, depth[cur]));
  }

  /** Once all arcs out of `cur` are followed, `cur` may leave the queue. */
  lemma {:induction false} FinishNode(arcs: set<Arc>, depth: map<Node, nat>, cur: Node, queue: seq<Node>, bound: nat)
    requires cur in depth && QueueOrdered(depth, [cur] + queue) && Expanded(arcs, depth, [cur] + queue, bound)
    requires depth[cur] < bound ==> forall a :: a in arcs && a.from == cur ==> Relaxed(depth, a)
    ensures QueueOrdered(depth, queue) && Expanded(arcs, depth, queue, bound)
  {
    var q := [cur] + queue;
    assert forall i :: 0 <= i < |queue| ==> queue[i] == q[i + 1];
    assert forall x :: x in q <==> x == cur || x in queue;
    if queue != [] {
      assert q[0] == cur && q[1] == queue[0];
    }
  }
}
