/** `detect_changes`: the reverse-call impact of changed files, up to a bounded depth. */
module DetectChanges {
  import opened Walks

  predicate IsModule(n: Node): (r: bool)
    ensures r <==> exists rest :: n == "module:" + rest
  {
    assert "module:" <= n ==> n == "module:" + n[7..];
    "module:" <= n
  }

  /** The depth asked for, or the nearer end of 1..12. */
  function BoundedDepth(maxDepth: nat): (r: nat)
    ensures 1 <= r <= 12 && (1 <= maxDepth <= 12 ==> r == maxDepth)
    ensures (maxDepth < 1 ==> r == 1) && (maxDepth > 12 ==> r == 12)
  {
    if maxDepth < 1 then 1 else if maxDepth > 12 then 12 else maxDepth
  }

  /** An active IS_A fact of a function, class or method: its subject and its source. */
  datatype SymbolRow = SymbolRow(name: Node, source: string)

  function ChangedSymbols(rows: seq<SymbolRow>, changed: set<string>): set<Node> {
    set r | r in rows && r.source in changed :: r.name
  }

  /** From callee to caller; calls made by a module are not followed. */
  function CallerArcs(edges: seq<GraphEdge>): set<Arc> {
    set e | e in edges && e.pred == "CALLS" && !IsModule(e.from) :: Arc(e.to, e.from)
  }

  function Callers(edges: seq<GraphEdge>): set<Node> {
    set e | e in edges :: e.from
  }

  /** The state of the search between two dequeues. */
  ghost predicate Impacting(arcs: set<Arc>, changed: set<Node>, bound: nat, depth: map<Node, nat>, queue: seq<Node>) {
    && Sound(arcs, changed, depth)
    && QueueOrdered(depth, queue)
    && Expanded(arcs, depth, queue, bound)
    && (forall v :: v in depth ==> depth[v] <= bound)
  }

  lemma {:induction false} Start(arcs: set<Arc>, changed: set<Node>, bound: nat, depth: map<Node, nat>, queue: seq<Node>)
    requires depth.Keys == changed && (forall v :: v in depth ==> depth[v] == 0) && (forall v :: v in queue <==> v in changed)
    ensures Impacting(arcs, changed, bound, depth, queue)
  {
  }

  lemma {:induction false} LabelCaller(arcs: set<Arc>, changed: set<Node>, bound: nat, depth: map<Node, nat>, callee: Node, queue: seq<Node>, caller: Node)
    requires Impacting(arcs, changed, bound, depth, [callee] + queue)
    requires callee in depth && depth[callee] < bound && Arc(callee, caller) in arcs && caller !in depth
    ensures Impacting(arcs, changed, bound, depth[caller := depth[callee] + 1], [callee] + (queue + [caller]))
  {
    hide Sound, QueueOrdered, Expanded;
    LabelNeighbour(arcs, changed, depth, callee, queue, bound, caller);
  }

  lemma {:induction false} HeadIsLabelled(arcs: set<Arc>, changed: set<Node>, bound: nat, depth: map<Node, nat>, callee: Node, queue: seq<Node>)
    requires Impacting(arcs, changed, bound, depth, [callee] + queue)
    ensures callee in depth && depth[callee] <= bound
    ensures forall v :: v in depth ==> depth[v] <= depth[callee] + 1
  {
    hide Sound, Expanded;
    assert ([callee] + queue)[0] == callee;
  }

  lemma {:induction false} Finish(arcs: set<Arc>, changed: set<Node>, bound: nat, depth: map<Node, nat>, callee: Node, queue: seq<Node>)
    requires Impacting(arcs, changed, bound, depth, [callee] + queue) && callee in depth
    requires depth[callee] < bound ==> forall a :: a in arcs && a.from == callee ==> Relaxed(depth, a)
    ensures Impacting(arcs, changed, bound, depth, queue)
  {
    hide Sound, QueueOrdered, Expanded;
    FinishNode(arcs, depth, callee, queue, bound);
  }

  /** When the queue is empty the labels are the distances up to the bound, and nothing is missing. */
  lemma {:induction false} LabelsAreDistances(arcs: set<Arc>, changed: set<Node>, bound: nat, depth: map<Node, nat>, v: Node, d: nat)
    requires Impacting(arcs, changed, bound, depth, [])
    ensures v in depth && depth[v] == d <==> d <= bound && Distance(arcs, changed, v, d)
  {
    hide Within, Expanded, QueueOrdered;
    if v in depth && depth[v] == d {
      forall k: nat | k < d ensures v !in Within(arcs, changed, k) {
        if v in Within(arcs, changed, k) {
          LabelledUpTo(arcs, changed, depth, [], bound, k, v);
        }
      }
    }
    if d <= bound && Distance(arcs, changed, v, d) {
      LabelledUpTo(arcs, changed, depth, [], bound, d, v);
      assert v in Within(arcs, changed, depth[v]);
    }
  }

  /** Expands one callee: every non-module caller not seen before gets the next depth. */
  method Expand(edges: seq<GraphEdge>, ghost changed: set<Node>, bound: nat, callee: Node, queue: seq<Node>, depth: map<Node, nat>)
    returns (queue': seq<Node>, depth': map<Node, nat>)
    requires Impacting(CallerArcs(edges), changed, bound, depth, [callee] + queue)
    requires callee in depth && depth[callee] < bound
    ensures Impacting(CallerArcs(edges), changed, bound, depth', queue')
    ensures depth.Keys <= depth'.Keys <= depth.Keys + Callers(edges)
    ensures depth'.Keys == depth.Keys ==> queue' == queue
  {
    hide Impacting;
    ghost var arcs := CallerArcs(edges);
    queue', depth' := queue, depth;
    for i := 0 to |edges|
      invariant Impacting(arcs, changed, bound, depth', [callee] + queue')
      invariant depth.Keys <= depth'.Keys <= depth.Keys + Callers(edges)
      invariant depth'.Keys == depth.Keys ==> queue' == queue
      invariant callee in depth' && depth'[callee] == depth[callee]
      invariant forall j :: 0 <= j < i && Arc(callee, edges[j].from) in arcs && edges[j].to == callee && edges[j].pred == "CALLS" ==>
        Relaxed(depth', Arc(callee, edges[j].from))
    {
      var edge := edges[i];
      HeadIsLabelled(arcs, changed, bound, depth', callee, queue');
      if edge.pred == "CALLS" && edge.to == callee && !(IsModule(edge.from) || edge.from in depth') {
        assert Arc(callee, edge.from) in arcs;
        LabelCaller(arcs, changed, bound, depth', callee, queue', edge.from);
        depth' := depth'[edge.from := depth'[callee] + 1];
        queue' := queue' + [edge.from];
      }
    }
    forall a | a in arcs && a.from == callee ensures Relaxed(depth', a) {
      var e :| e in edges && e.pred == "CALLS" && !IsModule(e.from) && a == Arc(e.to, e.from);
      var j :| 0 <= j < |edges| && edges[j] == e;
    }
    Finish(arcs, changed, bound, depth', callee, queue');
  }

  /** `affected` maps exactly the non-modules at distance at most `bound` to their distance. */
  ghost predicate ExactImpact(affected: map<Node, nat>, arcs: set<Arc>, changed: set<Node>, bound: nat) {
    forall n, d: nat :: n in affected && affected[n] == d <==> ImpactAt(arcs, changed, bound, n, d)
  }

  ghost predicate ImpactAt(arcs: set<Arc>, changed: set<Node>, bound: nat, n: Node, d: nat) {
    !IsModule(n) && d <= bound && Distance(arcs, changed, n, d)
  }

  /**
   The affected symbols: exactly the non-modules with a call chain of at most the bounded depth to
   a changed symbol, no caller on it a module, each at the length of its shortest chain.
   */
  method Affected(edges: seq<GraphEdge>, rows: seq<SymbolRow>, changedLocators: set<string>, maxDepth: nat)
    returns (affected: map<Node, nat>)
    ensures ExactImpact(affected, CallerArcs(edges), ChangedSymbols(rows, changedLocators), BoundedDepth(maxDepth))
  {
    hide Impacting, Distance, CallerArcs, IsModule, Callers;
    var changed := ChangedSymbols(rows, changedLocators);
    ghost var arcs := CallerArcs(edges);
    var bound := BoundedDepth(maxDepth);
    var depth: map<Node, nat> := map n | n in changed :: 0;
    var queue := [];
    var todo := changed;
    while todo != {}
      invariant todo <= changed
      invariant forall v :: v in queue <==> v in changed - todo
    {
      var n :| n in todo;
      todo := todo - {n};
      queue := queue + [n];
    }
    Start(arcs, changed, bound, depth, queue);
    ghost var nodes := changed + Callers(edges);
    while queue != []
      invariant Impacting(arcs, changed, bound, depth, queue)
      invariant depth.Keys <= nodes
      decreases nodes - depth.Keys, |queue|
    {
      var callee := queue[0];
      assert queue == [callee] + queue[1..];
      HeadIsLabelled(arcs, changed, bound, depth, callee, queue[1..]);
      if depth[callee] >= bound {
        Finish(arcs, changed, bound, depth, callee, queue[1..]);
        queue := queue[1..];
      } else {
        ghost var before := depth;
        queue, depth := Expand(edges, changed, bound, callee, queue[1..], depth);
      }
    }
    affected := map n | n in depth && !IsModule(n) :: depth[n];
    forall n, d: nat ensures n in affected && affected[n] == d <==> ImpactAt(arcs, changed, bound, n, d) {
      LabelsAreDistances(arcs, changed, bound, depth, n, d);
    }
  }
}
