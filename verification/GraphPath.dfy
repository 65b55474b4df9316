/** `graph_path`: the bounded breadth-first search for a path between two entities. */
module GraphPath {
  import opened Wrappers
  import opened Walks

  /** `trim().is_empty()`, for any Unicode table of white space. */
  predicate Blank(space: char -> bool, s: string) {
    forall i :: 0 <= i < |s| ==> space(s[i])
  }

  /** The number itself, or the nearer end of the range. */
  function Clamp(n: nat, low: nat, high: nat): (r: nat)
    requires low <= high
    ensures low <= r <= high && (low <= n <= high ==> r == n)
    ensures (n < low ==> r == low) && (n > high ==> r == high)
  {
    if n < low then low else if n > high then high else n
  }

  function Reversed(e: GraphEdge): GraphEdge {
    e.(from := e.to, to := e.from)
  }

  /** The arcs a search may follow. */
  function ArcsOf(edges: seq<GraphEdge>, undirected: bool): set<Arc> {
    (set e | e in edges :: Arc(e.from, e.to)) + (if undirected then set e | e in edges :: Arc(e.to, e.from) else {})
  }

  function NodesOf(edges: seq<GraphEdge>): set<Node> {
    (set e | e in edges :: e.from) + (set e | e in edges :: e.to)
  }

  /** What the adjacency list gains from one edge. */
  function Contribution(e: GraphEdge, n: Node, undirected: bool): seq<GraphEdge> {
    (if e.from == n then [e] else []) + (if undirected && e.to == n then [Reversed(e)] else [])
  }

  /** The adjacency list of `n`, in the order of the edges. */
  function Outgoing(edges: seq<GraphEdge>, n: Node, undirected: bool): seq<GraphEdge> {
    if edges == [] then []
    else Outgoing(edges[..|edges| - 1], n, undirected) + Contribution(edges[|edges| - 1], n, undirected)
  }

  function Neighbours(adjacency: map<Node, seq<GraphEdge>>, n: Node): seq<GraphEdge> {
    if n in adjacency then adjacency[n] else []
  }

  function Push(adjacency: map<Node, seq<GraphEdge>>, n: Node, e: GraphEdge): map<Node, seq<GraphEdge>> {
    adjacency[n := Neighbours(adjacency, n) + [e]]
  }

  method BuildAdjacency(edges: seq<GraphEdge>, undirected: bool) returns (adjacency: map<Node, seq<GraphEdge>>)
    ensures forall n :: Neighbours(adjacency, n) == Outgoing(edges, n, undirected)
  {
    hide Push;
    adjacency := map[];
    for i := 0 to |edges|
      invariant forall n :: Neighbours(adjacency, n) == Outgoing(edges[..i], n, undirected)
    {
      ghost var before := adjacency;
      var e := edges[i];
      adjacency := Push(adjacency, e.from, e);
      if undirected {
        adjacency := Push(adjacency, e.to, Reversed(e));
      }
      forall n ensures Neighbours(adjacency, n) == Outgoing(edges[..i + 1], n, undirected) {
        PushBoth(before, e, undirected, n);
        OutgoingStep(edges, i, n, undirected);
      }
    }
    assert edges[..|edges|] == edges;
  }

  lemma {:induction false} PushBoth(adjacency: map<Node, seq<GraphEdge>>, e: GraphEdge, undirected: bool, n: Node)
    ensures var once := Push(adjacency, e.from, e);
            Neighbours(if undirected then Push(once, e.to, Reversed(e)) else once, n) == Neighbours(adjacency, n) + Contribution(e, n, undirected)
  {
    var once := Push(adjacency, e.from, e);
    assert Neighbours(once, n) == Neighbours(adjacency, n) + (if e.from == n then [e] else []);
  }

  lemma {:induction false} OutgoingStep(edges: seq<GraphEdge>, i: nat, n: Node, undirected: bool)
    requires i < |edges|
    ensures Outgoing(edges[..i + 1], n, undirected) == Outgoing(edges[..i], n, undirected) + Contribution(edges[i], n, undirected)
  {
    assert edges[..i + 1][..i] == edges[..i];
  }

  /** An adjacency list holds exactly the arcs out of its node, each backed by a stored edge. */
  lemma {:induction false} OutgoingArcs(edges: seq<GraphEdge>, n: Node, undirected: bool)
    ensures forall e :: e in Outgoing(edges, n, undirected) ==>
      e.from == n && Arc(n, e.to) in ArcsOf(edges, undirected) && (e in edges || (undirected && Reversed(e) in edges))
    ensures forall v :: Arc(n, v) in ArcsOf(edges, undirected) ==> exists e :: e in Outgoing(edges, n, undirected) && e.to == v
  {
    if edges != [] {
      var rest, last := edges[..|edges| - 1], edges[|edges| - 1];
      OutgoingArcs(rest, n, undirected);
      assert edges == rest + [last];
      assert forall e :: e in edges <==> e in rest || e == last;
      assert forall e :: e in Outgoing(edges, n, undirected) <==> e in Outgoing(rest, n, undirected) || e in Contribution(last, n, undirected);
      forall v | Arc(n, v) in ArcsOf(edges, undirected)
        ensures exists e :: e in Outgoing(edges, n, undirected) && e.to == v
      {
        if Arc(n, v) in ArcsOf(rest, undirected) {
          var e :| e in Outgoing(rest, n, undirected) && e.to == v;
          assert e in Outgoing(edges, n, undirected);
        } else if last.from == n && last.to == v {
          assert last in Contribution(last, n, undirected);
          assert last in Outgoing(edges, n, undirected);
        } else {
          assert Reversed(last) in Contribution(last, n, undirected);
          assert Reversed(last) in Outgoing(edges, n, undirected);
        }
      }
    }
  }

  // ---------------------------------------------------------------- the search

  datatype PathState = PathState(node: Node, path: seq<Node>, edges: seq<GraphEdge>)

  function QueueNodes(queue: seq<PathState>): (r: seq<Node>)
    ensures |r| == |queue| && forall i :: 0 <= i < |queue| ==> r[i] == queue[i].node
  {
    seq(|queue|, i requires 0 <= i < |queue| => queue[i].node)
  }

  ghost predicate Distinct(w: seq<Node>) {
    forall i, j :: 0 <= i < j < |w| ==> w[i] != w[j]
  }

  /** Edge `used[i]` leads from `path[i]` to `path[i + 1]` and is a stored edge, possibly read backwards. */
  ghost predicate Chained(edges: seq<GraphEdge>, undirected: bool, path: seq<Node>, used: seq<GraphEdge>) {
    && |path| == |used| + 1
    && forall i :: 0 <= i < |used| ==>
         && used[i].from == path[i] && used[i].to == path[i + 1]
         && (used[i] in edges || (undirected && Reversed(used[i]) in edges))
  }

  /** A search state carries a simple path from the source, through visited nodes, as long as its depth. */
  ghost predicate GoodState(edges: seq<GraphEdge>, undirected: bool, from: Node, depth: map<Node, nat>, s: PathState) {
    && WalkFromTo(ArcsOf(edges, undirected), {from}, s.node, s.path)
    && Distinct(s.path)
    && Chained(edges, undirected, s.path, s.edges)
    && (forall n :: n in s.path ==> n in depth)
    && s.node in depth && |s.edges| == depth[s.node]
  }

  lemma {:induction false} ExtendState(edges: seq<GraphEdge>, undirected: bool, from: Node, depth: map<Node, nat>, s: PathState, e: GraphEdge)
    requires GoodState(edges, undirected, from, depth, s)
    requires e in Outgoing(edges, s.node, undirected) && e.to !in depth
    ensures GoodState(edges, undirected, from, depth[e.to := depth[s.node] + 1], PathState(e.to, s.path + [e.to], s.edges + [e]))
  {
    hide Outgoing, ArcsOf;
    OutgoingArcs(edges, s.node, undirected);
    var w := s.path + [e.to];
    forall i | 0 < i < |w| ensures Arc(w[i - 1], w[i]) in ArcsOf(edges, undirected) {
      if i == |w| - 1 {
        assert w[i - 1] == s.node;
      }
    }
  }

  lemma {:induction false} GoodStateGrows(edges: seq<GraphEdge>, undirected: bool, from: Node, depth: map<Node, nat>, s: PathState, v: Node, d: nat)
    requires GoodState(edges, undirected, from, depth, s) && v !in depth
    ensures GoodState(edges, undirected, from, depth[v := d], s)
  {
    hide ArcsOf;
  }

  /** The answer of `graph_path`: an empty path means none was found. */
  ghost predicate ShortestPath(edges: seq<GraphEdge>, undirected: bool, from: Node, to: Node, bound: nat, path: seq<Node>, used: seq<GraphEdge>) {
    var arcs := ArcsOf(edges, undirected);
    if path == [] then used == [] && forall w :: WalkFromTo(arcs, {from}, to, w) ==> |w| > bound + 1
    else
      && WalkFromTo(arcs, {from}, to, path) && Distinct(path) && Chained(edges, undirected, path, used)
      && |used| <= bound
      && forall w :: WalkFromTo(arcs, {from}, to, w) ==> |w| >= |path|
  }

  lemma {:induction false} NoShorterWalk(arcs: set<Arc>, from: Node, to: Node, depth: map<Node, nat>, queue: seq<Node>, bound: nat, k: nat)
    requires Sound(arcs, {from}, depth) && QueueOrdered(depth, queue) && Expanded(arcs, depth, queue, bound)
    requires to !in depth && k <= bound && (queue == [] || k <= depth[queue[0]])
    ensures forall w :: WalkFromTo(arcs, {from}, to, w) ==> |w| > k + 1
  {
    forall w | WalkFromTo(arcs, {from}, to, w) ensures |w| > k + 1 {
      if |w| <= k + 1 {
        WalkIsWithin(arcs, {from}, to, w);
        LabelledUpTo(arcs, {from}, depth, queue, bound, |w| - 1, to);
      }
    }
  }

  /** The loop invariant of the search over the states still to expand. */
  ghost predicate Searching(edges: seq<GraphEdge>, undirected: bool, from: Node, to: Node, bound: nat, depth: map<Node, nat>, states: seq<PathState>) {
    var arcs := ArcsOf(edges, undirected);
    && Sound(arcs, {from}, depth)
    && QueueOrdered(depth, QueueNodes(states))
    && Expanded(arcs, depth, QueueNodes(states), bound)
    && (forall i :: 0 <= i < |states| ==> GoodState(edges, undirected, from, depth, states[i]))
    && to !in depth
    && depth.Keys <= NodesOf(edges) + {from}
  }

  lemma {:induction false} StartSearch(edges: seq<GraphEdge>, undirected: bool, from: Node, to: Node, bound: nat)
    requires from != to
    ensures Searching(edges, undirected, from, to, bound, map[from := 0], [PathState(from, [from], [])])
  {
    hide ArcsOf, NodesOf;
    assert QueueNodes([PathState(from, [from], [])]) == [from];
  }

  lemma {:induction false} PushNeighbour(edges: seq<GraphEdge>, undirected: bool, from: Node, to: Node, bound: nat, depth: map<Node, nat>,
                      current: PathState, queue: seq<PathState>, e: GraphEdge)
    requires Searching(edges, undirected, from, to, bound, depth, [current] + queue)
    requires e in Outgoing(edges, current.node, undirected) && e.to !in depth && e.to != to
    ensures current.node in depth
    ensures Searching(edges, undirected, from, to, bound, depth[e.to := depth[current.node] + 1],
                      [current] + (queue + [PathState(e.to, current.path + [e.to], current.edges + [e])]))
  {
    hide ArcsOf, Outgoing, Sound, QueueOrdered, Expanded, GoodState;
    var arcs, next := ArcsOf(edges, undirected), PathState(e.to, current.path + [e.to], current.edges + [e]);
    var states, states' := [current] + queue, [current] + (queue + [next]);
    GoodStateFacts(edges, undirected, from, depth, states[0]);
    OutgoingArcs(edges, current.node, undirected);
    OutgoingNodes(edges, current.node, undirected, e);
    assert QueueNodes(states) == [current.node] + QueueNodes(queue);
    assert QueueNodes(states') == [current.node] + (QueueNodes(queue) + [e.to]);
    LabelNeighbour(arcs, {from}, depth, current.node, QueueNodes(queue), bound, e.to);
    ExtendState(edges, undirected, from, depth, current, e);
    forall i | 0 <= i < |states'| ensures GoodState(edges, undirected, from, depth[e.to := depth[current.node] + 1], states'[i]) {
      if i < |states| {
        assert states'[i] == states[i];
        GoodStateGrows(edges, undirected, from, depth, states[i], e.to, depth[current.node] + 1);
      }
    }
  }

  lemma {:induction false} GoodStateFacts(edges: seq<GraphEdge>, undirected: bool, from: Node, depth: map<Node, nat>, s: PathState)
    requires GoodState(edges, undirected, from, depth, s)
    ensures s.node in depth && |s.edges| == depth[s.node]
  {
    hide ArcsOf;
  }

  lemma {:induction false} OutgoingNodes(edges: seq<GraphEdge>, n: Node, undirected: bool, e: GraphEdge)
    requires e in Outgoing(edges, n, undirected)
    ensures e.to in NodesOf(edges)
  {
    hide Outgoing;
    OutgoingArcs(edges, n, undirected);
  }

  lemma {:induction false} PopState(edges: seq<GraphEdge>, undirected: bool, from: Node, to: Node, bound: nat, depth: map<Node, nat>,
                 current: PathState, queue: seq<PathState>)
    requires Searching(edges, undirected, from, to, bound, depth, [current] + queue)
    requires |current.edges| < bound ==> forall e :: e in Outgoing(edges, current.node, undirected) ==> Followed(depth, current.node, e)
    ensures Searching(edges, undirected, from, to, bound, depth, queue)
  {
    hide ArcsOf, Outgoing, Sound, QueueOrdered, Expanded, GoodState;
    var states := [current] + queue;
    GoodStateFacts(edges, undirected, from, depth, states[0]);
    OutgoingArcs(edges, current.node, undirected);
    assert QueueNodes(states) == [current.node] + QueueNodes(queue);
    if depth[current.node] < bound {
      forall a | a in ArcsOf(edges, undirected) && a.from == current.node ensures Relaxed(depth, a) {
        assert a == Arc(current.node, a.to);
        var e :| e in Outgoing(edges, current.node, undirected) && e.to == a.to;
        assert Followed(depth, current.node, e);
      }
    }
    FinishNode(ArcsOf(edges, undirected), depth, current.node, QueueNodes(queue), bound);
    forall i | 0 <= i < |queue| ensures GoodState(edges, undirected, from, depth, queue[i]) {
      assert queue[i] == states[i + 1];
    }
  }

  predicate Followed(depth: map<Node, nat>, n: Node, e: GraphEdge) {
    Relaxed(depth, Arc(n, e.to))
  }

  lemma {:induction false} FoundTarget(edges: seq<GraphEdge>, undirected: bool, from: Node, to: Node, bound: nat, depth: map<Node, nat>,
                    current: PathState, queue: seq<PathState>, e: GraphEdge)
    requires Searching(edges, undirected, from, to, bound, depth, [current] + queue)
    requires e in Outgoing(edges, current.node, undirected) && e.to == to && |current.edges| < bound
    ensures ShortestPath(edges, undirected, from, to, bound, current.path + [to], current.edges + [e])
  {
    hide ArcsOf, Outgoing, Sound, QueueOrdered, Expanded, WalkFromTo, Distinct;
    var arcs, states := ArcsOf(edges, undirected), [current] + queue;
    assert states[0] == current && QueueNodes(states)[0] == current.node;
    GoodStateFacts(edges, undirected, from, depth, states[0]);
    ExtendState(edges, undirected, from, depth, current, e);
    NoShorterWalk(arcs, from, to, depth, QueueNodes(states), bound, |current.edges|);
  }

  lemma {:induction false} Exhausted(edges: seq<GraphEdge>, undirected: bool, from: Node, to: Node, bound: nat, depth: map<Node, nat>)
    requires Searching(edges, undirected, from, to, bound, depth, [])
    ensures ShortestPath(edges, undirected, from, to, bound, [], [])
  {
    hide ArcsOf, Sound, Expanded, WalkFromTo;
    assert QueueNodes([]) == [];
    NoShorterWalk(ArcsOf(edges, undirected), from, to, depth, [], bound, bound);
  }

  /** Following one more edge of the node being expanded. */
  lemma {:induction false} FollowedSoFar(depth: map<Node, nat>, n: Node, next: seq<GraphEdge>, i: nat, v: Node, d: nat)
    requires i <= |next| && (forall j :: 0 <= j < i ==> Followed(depth, n, next[j])) && v !in depth
    ensures forall j :: 0 <= j < i ==> Followed(depth[v := d], n, next[j])
  {
    forall j | 0 <= j < i ensures Followed(depth[v := d], n, next[j]) {
      assert Followed(depth, n, next[j]);
    }
  }

  lemma {:induction false} VisitedIsFollowed(edges: seq<GraphEdge>, undirected: bool, from: Node, to: Node, bound: nat, depth: map<Node, nat>,
                          current: PathState, queue: seq<PathState>, e: GraphEdge)
    requires Searching(edges, undirected, from, to, bound, depth, [current] + queue)
    requires e in Outgoing(edges, current.node, undirected) && e.to in depth
    ensures Followed(depth, current.node, e)
  {
    hide ArcsOf, Outgoing, Sound, Expanded, GoodState;
    var states := [current] + queue;
    GoodStateFacts(edges, undirected, from, depth, states[0]);
    assert QueueNodes(states)[0] == current.node;
  }

  lemma {:induction false} QueueStates(edges: seq<GraphEdge>, undirected: bool, from: Node, to: Node, bound: nat, depth: map<Node, nat>, states: seq<PathState>)
    requires Searching(edges, undirected, from, to, bound, depth, states)
    ensures depth.Keys <= NodesOf(edges) + {from} && to !in depth
    ensures forall i :: 0 <= i < |states| ==> states[i].node in depth && |states[i].edges| == depth[states[i].node]
  {
    hide ArcsOf, NodesOf, Sound, QueueOrdered, Expanded, GoodState;
    forall i | 0 <= i < |states| ensures states[i].node in depth && |states[i].edges| == depth[states[i].node] {
      GoodStateFacts(edges, undirected, from, depth, states[i]);
    }
  }

  /** The queue loop. `depth` is a ghost record of how far each visited node is. */
  method Search(edges: seq<GraphEdge>, from: Node, to: Node, bound: nat, undirected: bool) returns (path: seq<Node>, used: seq<GraphEdge>)
    requires from != to
    ensures ShortestPath(edges, undirected, from, to, bound, path, used)
  {
    hide Searching, Outgoing, ShortestPath, Followed, NodesOf;
    var adjacency := BuildAdjacency(edges, undirected);
    var queue := [PathState(from, [from], [])];
    var visited := {from};
    ghost var depth: map<Node, nat> := map[from := 0];
    ghost var nodes := NodesOf(edges) + {from};
    StartSearch(edges, undirected, from, to, bound);
    while queue != []
      invariant visited == depth.Keys <= nodes
      invariant Searching(edges, undirected, from, to, bound, depth, queue)
      decreases nodes - visited, |queue|
    {
      var current := queue[0];
      ghost var seen, size := visited, |queue|;
      assert queue == [current] + queue[1..];
      queue := queue[1..];
      var next := if |current.edges| < bound then Neighbours(adjacency, current.node) else [];
      var i := 0;
      while i < |next|
        invariant 0 <= i <= |next|
        invariant seen <= visited == depth.Keys <= nodes
        invariant seen == visited ==> |queue| < size
        invariant Searching(edges, undirected, from, to, bound, depth, [current] + queue)
        invariant forall j :: 0 <= j < i ==> Followed(depth, current.node, next[j])
      {
        var edge := next[i];
        assert edge in Outgoing(edges, current.node, undirected);
        QueueStates(edges, undirected, from, to, bound, depth, [current] + queue);
        assert ([current] + queue)[0] == current;
        if edge.to !in visited {
          if edge.to == to {
            FoundTarget(edges, undirected, from, to, bound, depth, current, queue, edge);
            return current.path + [edge.to], current.edges + [edge];
          }
          PushNeighbour(edges, undirected, from, to, bound, depth, current, queue, edge);
          FollowedSoFar(depth, current.node, next, i, edge.to, depth[current.node] + 1);
          queue := queue + [PathState(edge.to, current.path + [edge.to], current.edges + [edge])];
          visited := visited + {edge.to};
          depth := depth[edge.to := depth[current.node] + 1];
          QueueStates(edges, undirected, from, to, bound, depth, [current] + queue);
        }
        VisitedIsFollowed(edges, undirected, from, to, bound, depth, current, queue, edge);
        i := i + 1;
      }
      PopState(edges, undirected, from, to, bound, depth, current, queue);
    }
    Exhausted(edges, undirected, from, to, bound, depth);
    return [], [];
  }

  /** `graph_path` on the edges visible as of the requested time. */
  method GraphPath(space: char -> bool, edges: seq<GraphEdge>, from: Node, to: Node, maxHops: nat, undirected: bool)
    returns (r: Result<(seq<Node>, seq<GraphEdge>)>)
    ensures r.Err? <==> Blank(space, from) || Blank(space, to)
    ensures r.Ok? ==> ShortestPath(edges, undirected, from, to, Clamp(maxHops, 1, 12), r.value.0, r.value.1)
    ensures r.Ok? ==> (r.value.0 != [] <==> exists w :: WalkFromTo(ArcsOf(edges, undirected), {from}, to, w) && |w| <= Clamp(maxHops, 1, 12) + 1)
  {
    hide ArcsOf;
    if Blank(space, from) || Blank(space, to) {
      return Err("from and to are required");
    }
    if from == to {
      assert WalkFromTo(ArcsOf(edges, undirected), {from}, to, [from]);
      return Ok(([from], []));
    }
    var path, used := Search(edges, from, to, Clamp(maxHops, 1, 12), undirected);
    return Ok((path, used));
  }
}
