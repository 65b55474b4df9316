/** `graph_explain`: the undirected neighbourhood of an entity, one level at a time. */
module GraphExplain {
  import opened Walks

  /** The depth asked for, or the nearer end of 1..6. */
  function BoundedLevels(depth: nat): (r: nat)
    ensures 1 <= r <= 6 && (1 <= depth <= 6 ==> r == depth)
    ensures (depth < 1 ==> r == 1) && (depth > 6 ==> r == 6)
  {
    if depth < 1 then 1 else if depth > 6 then 6 else depth
  }

  function UndirectedArcs(edges: seq<GraphEdge>): set<Arc> {
    (set e | e in edges :: Arc(e.from, e.to)) + (set e | e in edges :: Arc(e.to, e.from))
  }

  predicate Touches(e: GraphEdge, nodes: set<Node>) {
    e.from in nodes || e.to in nodes
  }

  /** The edges with an end within `k` of the entity. */
  function EdgesWithin(edges: seq<GraphEdge>, entity: Node, k: nat): set<GraphEdge> {
    set e | e in edges && Touches(e, Within(UndirectedArcs(edges), {entity}, k))
  }

  /** `depths` labels exactly the nodes within `k`, with their distances. */
  ghost predicate ExactUpTo(arcs: set<Arc>, entity: Node, k: nat, depths: map<Node, nat>) {
    && depths.Keys == Within(arcs, {entity}, k)
    && forall v :: v in depths ==> depths[v] <= k && Distance(arcs, {entity}, v, depths[v])
  }

  function OtherEnd(e: GraphEdge, n: Node): Node {
    if e.from == n then e.to else e.from
  }

  predicate Incident(e: GraphEdge, n: Node) {
    e.from == n || e.to == n
  }

  lemma {:induction false} NextLevel(arcs: set<Arc>, entity: Node, k: nat, depths: map<Node, nat>, depths': map<Node, nat>)
    requires ExactUpTo(arcs, entity, k, depths)
    requires depths'.Keys == Within(arcs, {entity}, k + 1)
    requires forall v :: v in depths' ==> depths'[v] == if v in depths then depths[v] else k + 1
    ensures ExactUpTo(arcs, entity, k + 1, depths')
  {
    hide Within;
    forall v | v in depths' && v !in depths ensures Distance(arcs, {entity}, v, k + 1) {
      forall j: nat | j < k + 1 ensures v !in Within(arcs, {entity}, j) {
        WithinMonotone(arcs, {entity}, j, k);
      }
    }
  }

  /** Only the newest level can have unlabelled neighbours. */
  lemma {:induction false} FrontierSuffices(arcs: set<Arc>, entity: Node, k: nat, frontier: set<Node>)
    requires frontier == if k == 0 then {entity} else Within(arcs, {entity}, k) - Within(arcs, {entity}, k - 1)
    ensures Within(arcs, {entity}, k + 1) == Within(arcs, {entity}, k) + Successors(arcs, frontier)
  {
    var now := Within(arcs, {entity}, k);
    forall v | v in Successors(arcs, now) ensures v in now + Successors(arcs, frontier) {
      var a :| a in arcs && a.from in now && a.to == v;
      if a.from !in frontier {
        assert a.from in Within(arcs, {entity}, k - 1);
      }
    }
  }

  /** The neighbours of `n`, as the inner loop finds them. */
  function NeighboursOf(edges: seq<GraphEdge>, n: Node): set<Node> {
    set e | e in edges && Incident(e, n) :: OtherEnd(e, n)
  }

  lemma {:induction false} NeighboursAreSuccessors(edges: seq<GraphEdge>, n: Node)
    ensures NeighboursOf(edges, n) == Successors(UndirectedArcs(edges), {n})
  {
    var arcs := UndirectedArcs(edges);
    forall v | v in Successors(arcs, {n}) ensures v in NeighboursOf(edges, n) {
      var a :| a in arcs && a.from in {n} && a.to == v;
      var e :| e in edges && (a == Arc(e.from, e.to) || a == Arc(e.to, e.from));
      assert Incident(e, n);
    }
    forall v | v in NeighboursOf(edges, n) ensures v in Successors(arcs, {n}) {
      var e :| e in edges && Incident(e, n) && OtherEnd(e, n) == v;
      assert Arc(n, v) in arcs;
    }
  }

  function IncidentEdges(edges: seq<GraphEdge>, n: Node): set<GraphEdge> {
    set e | e in edges && Incident(e, n)
  }

  lemma {:induction false} ScanStep(edges: seq<GraphEdge>, i: nat, n: Node)
    requires i < |edges|
    ensures NeighboursOf(edges[..i + 1], n) == NeighboursOf(edges[..i], n) + (if Incident(edges[i], n) then {OtherEnd(edges[i], n)} else {})
    ensures IncidentEdges(edges[..i + 1], n) == IncidentEdges(edges[..i], n) + (if Incident(edges[i], n) then {edges[i]} else {})
  {
    assert edges[..i + 1] == edges[..i] + [edges[i]];
    assert forall e :: e in edges[..i + 1] <==> e in edges[..i] || e == edges[i];
  }

  lemma {:induction false} ScanNone(n: Node)
    ensures NeighboursOf([], n) == {} && IncidentEdges([], n) == {}
  {
  }

  /** A duplicate-free listing of the labelled nodes. */
  ghost predicate Lists(nodes: seq<Node>, depths: map<Node, nat>) {
    && (forall v :: v in nodes <==> v in depths)
    && forall i, j :: 0 <= i < j < |nodes| ==> nodes[i] != nodes[j]
  }

  lemma {:induction false} ListOneMore(nodes: seq<Node>, depths: map<Node, nat>, v: Node, d: nat)
    requires Lists(nodes, depths) && v !in depths
    ensures Lists(nodes + [v], depths[v := d])
  {
  }

  /** The edge loop for one frontier node. */
  method ScanNode(edges: seq<GraphEdge>, n: Node, level: nat, depths: map<Node, nat>, nodes: seq<Node>, next: seq<Node>, selected: set<GraphEdge>)
    returns (depths': map<Node, nat>, nodes': seq<Node>, next': seq<Node>, selected': set<GraphEdge>)
    requires Lists(nodes, depths)
    ensures depths'.Keys == depths.Keys + NeighboursOf(edges, n)
    ensures forall v :: v in depths' ==> depths'[v] == if v in depths then depths[v] else level
    ensures Lists(nodes', depths')
    ensures forall v :: v in next' <==> v in next || v in depths'.Keys - depths.Keys
    ensures selected' == selected + IncidentEdges(edges, n)
  {
    hide NeighboursOf, IncidentEdges, Lists;
    depths', nodes', next', selected' := depths, nodes, next, selected;
    ScanNone(n);
    for i := 0 to |edges|
      invariant depths'.Keys == depths.Keys + NeighboursOf(edges[..i], n)
      invariant forall v :: v in depths' ==> depths'[v] == if v in depths then depths[v] else level
      invariant Lists(nodes', depths')
      invariant forall v :: v in next' <==> v in next || v in depths'.Keys - depths.Keys
      invariant selected' == selected + IncidentEdges(edges[..i], n)
    {
      var edge := edges[i];
      ScanStep(edges, i, n);
      if edge.from == n || edge.to == n {
        selected' := selected' + {edge};
        var other := if edge.from == n then edge.to else edge.from;
        if other !in depths' {
          ListOneMore(nodes', depths', other, level);
          depths' := depths'[other := level];
          nodes' := nodes' + [other];
          next' := next' + [other];
        }
      }
    }
    assert edges[..|edges|] == edges;
  }

  function Members(nodes: seq<Node>): set<Node> {
    set n | n in nodes
  }

  /** The edges touching a set of nodes. */
  function Touching(edges: seq<GraphEdge>, nodes: set<Node>): set<GraphEdge> {
    set e | e in edges && Touches(e, nodes)
  }

  lemma {:induction false} OneMoreNode(edges: seq<GraphEdge>, frontier: seq<Node>, i: nat)
    requires i < |frontier|
    ensures var arcs := UndirectedArcs(edges);
            && Successors(arcs, Members(frontier[..i + 1])) == Successors(arcs, Members(frontier[..i])) + NeighboursOf(edges, frontier[i])
            && Touching(edges, Members(frontier[..i + 1])) == Touching(edges, Members(frontier[..i])) + IncidentEdges(edges, frontier[i])
  {
    hide UndirectedArcs, NeighboursOf;
    NeighboursAreSuccessors(edges, frontier[i]);
    assert frontier[..i + 1] == frontier[..i] + [frontier[i]];
    assert Members(frontier[..i + 1]) == Members(frontier[..i]) + {frontier[i]};
  }

  /** One level: labels the unlabelled neighbours of the frontier. */
  method ScanLevel(edges: seq<GraphEdge>, frontier: seq<Node>, level: nat, depths: map<Node, nat>, nodes: seq<Node>, selected: set<GraphEdge>)
    returns (depths': map<Node, nat>, nodes': seq<Node>, next: seq<Node>, selected': set<GraphEdge>)
    requires Lists(nodes, depths)
    ensures depths'.Keys == depths.Keys + Successors(UndirectedArcs(edges), Members(frontier))
    ensures forall v :: v in depths' ==> depths'[v] == if v in depths then depths[v] else level
    ensures Lists(nodes', depths')
    ensures Members(next) == depths'.Keys - depths.Keys
    ensures selected' == selected + Touching(edges, Members(frontier))
  {
    hide UndirectedArcs, NeighboursOf, IncidentEdges, Lists;
    depths', nodes', next, selected' := depths, nodes, [], selected;
    for i := 0 to |frontier|
      invariant depths'.Keys == depths.Keys + Successors(UndirectedArcs(edges), Members(frontier[..i]))
      invariant forall v :: v in depths' ==> depths'[v] == if v in depths then depths[v] else level
      invariant Lists(nodes', depths')
      invariant forall v :: v in next <==> v in depths'.Keys - depths.Keys
      invariant selected' == selected + Touching(edges, Members(frontier[..i]))
    {
      OneMoreNode(edges, frontier, i);
      depths', nodes', next, selected' := ScanNode(edges, frontier[i], level, depths', nodes', next, selected');
    }
    assert frontier[..|frontier|] == frontier;
  }

  lemma {:induction false} EdgesNextLevel(edges: seq<GraphEdge>, entity: Node, k: nat, frontier: set<Node>)
    requires var arcs := UndirectedArcs(edges);
             k > 0 && frontier == Within(arcs, {entity}, k) - Within(arcs, {entity}, k - 1)
    ensures EdgesWithin(edges, entity, k) == EdgesWithin(edges, entity, k - 1) + Touching(edges, frontier)
  {
    hide UndirectedArcs;
    WithinMonotone(UndirectedArcs(edges), {entity}, k - 1, k);
  }

  /**
   The neighbourhood: every labelled node is at its true undirected distance, every node within the
   depth is labelled and listed once, and the edges are those with an end nearer than the depth.
   */
  method Explain(edges: seq<GraphEdge>, entity: Node, depth: nat)
    returns (depths: map<Node, nat>, nodes: seq<Node>, selected: set<GraphEdge>)
    ensures ExactUpTo(UndirectedArcs(edges), entity, BoundedLevels(depth), depths)
    ensures Lists(nodes, depths)
    ensures selected == EdgesWithin(edges, entity, BoundedLevels(depth) - 1)
  {
    hide UndirectedArcs, ExactUpTo, EdgesWithin, Touching, Lists, Within;
    ghost var arcs := UndirectedArcs(edges);
    var levels := BoundedLevels(depth);
    depths, nodes, selected := map[entity := 0], [entity], {};
    var frontier := [entity];
    FirstLevel(edges, entity);
    for level := 1 to levels + 1
      invariant ExactUpTo(arcs, entity, level - 1, depths) && Lists(nodes, depths)
      invariant Members(frontier) == if level == 1 then {entity} else Within(arcs, {entity}, level - 1) - Within(arcs, {entity}, level - 2)
      invariant selected == if level == 1 then {} else EdgesWithin(edges, entity, level - 2)
    {
      ghost var before := depths;
      LabelledSet(arcs, entity, level - 1, depths);
      FrontierSuffices(arcs, entity, level - 1, Members(frontier));
      if level > 1 {
        EdgesNextLevel(edges, entity, level - 1, Members(frontier));
      }
      depths, nodes, frontier, selected := ScanLevel(edges, frontier, level, depths, nodes, selected);
      NextLevel(arcs, entity, level - 1, before, depths);
    }
  }

  lemma {:induction false} LabelledSet(arcs: set<Arc>, entity: Node, k: nat, depths: map<Node, nat>)
    requires ExactUpTo(arcs, entity, k, depths)
    ensures depths.Keys == Within(arcs, {entity}, k)
  {
  }

  lemma {:induction false} FirstLevel(edges: seq<GraphEdge>, entity: Node)
    ensures ExactUpTo(UndirectedArcs(edges), entity, 0, map[entity := 0])
    ensures Lists([entity], map[entity := 0]) && Members([entity]) == {entity}
    ensures EdgesWithin(edges, entity, 0) == Touching(edges, {entity})
  {
    hide UndirectedArcs;
  }
}
