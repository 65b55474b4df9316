/**
 The graph reads over the store: `graph_path`, `graph_explain` and `detect_changes` on the facts
 visible as of a time, through the join that feeds them.
 */
module GraphReads {
  import opened Wrappers
  import opened StoreModel
  import opened StoreInvariants
  import opened StoreHistory
  import opened Temporal
  import opened Walks
  import P = GraphPath
  import E = GraphExplain
  import D = DetectChanges

  // ---------------------------------------------------------------- the rows

  /** The rows of `temporal_graph_edges`, in some order. */
  method TemporalGraphEdges(db: Db, workspace: string, scope: string, at: Time) returns (edges: seq<GraphEdge>)
    requires Inv(db)
    ensures forall e :: e in edges <==> e in FactsAsOf(db.facts, workspace, scope, at)
  {
    hide Inv, GraphAsOf, FactsAsOf;
    JoinShowsFacts(db, workspace, scope, at);
    var todo := GraphAsOf(db, workspace, scope, at);
    edges := [];
    while todo != {}
      invariant forall e :: e in FactsAsOf(db.facts, workspace, scope, at) <==> e in edges || e in todo
    {
      var e :| e in todo;
      todo := todo - {e};
      edges := edges + [e];
    }
  }

  /** The arcs that visible facts give. */
  function VisibleArcs(visible: set<GraphEdge>, undirected: bool): set<Arc> {
    (set e | e in visible :: Arc(e.from, e.to)) + (if undirected then set e | e in visible :: Arc(e.to, e.from) else {})
  }

  lemma {:induction false} SameArcs(edges: seq<GraphEdge>, visible: set<GraphEdge>)
    requires forall e :: e in edges <==> e in visible
    ensures forall undirected :: P.ArcsOf(edges, undirected) == VisibleArcs(visible, undirected)
    ensures E.UndirectedArcs(edges) == VisibleArcs(visible, true)
  {
  }

  // ---------------------------------------------------------------- paths

  /** Step `i` of the path is a visible fact, read backwards only in undirected mode. */
  ghost predicate ByFacts(visible: set<GraphEdge>, undirected: bool, path: seq<Node>, used: seq<GraphEdge>) {
    && |path| == |used| + 1
    && forall i :: 0 <= i < |used| ==>
         && used[i].from == path[i] && used[i].to == path[i + 1]
         && (used[i] in visible || (undirected && P.Reversed(used[i]) in visible))
  }

  /** A shortest simple path of visible facts, or none because there is no walk that short. */
  ghost predicate PathOfFacts(visible: set<GraphEdge>, undirected: bool, from: Node, to: Node, bound: nat, path: seq<Node>, used: seq<GraphEdge>) {
    var arcs := VisibleArcs(visible, undirected);
    if path == [] then used == [] && forall w :: WalkFromTo(arcs, {from}, to, w) ==> |w| > bound + 1
    else
      && WalkFromTo(arcs, {from}, to, path) && P.Distinct(path) && ByFacts(visible, undirected, path, used)
      && |used| <= bound
      && forall w :: WalkFromTo(arcs, {from}, to, w) ==> |w| >= |path|
  }

  /** `normalize_temporal_scope`. */
  predicate IsScope(scope: string) {
    scope == "workspace" || scope == "session" || scope == "agent" || scope == "user"
  }

  /** `graph_path`, from the store to the answer. */
  method PathAsOf(space: char -> bool, db: Db, workspace: string, scope: string, at: Time, from: Node, to: Node, maxHops: nat, undirected: bool)
    returns (r: Result<(seq<Node>, seq<GraphEdge>)>)
    requires Inv(db)
    ensures r.Err? <==> P.Blank(space, from) || P.Blank(space, to) || scope !in ["workspace", "session", "agent", "user"]
    ensures r.Ok? ==>
      PathOfFacts(FactsAsOf(db.facts, workspace, scope, at), undirected, from, to, P.Clamp(maxHops, 1, 12), r.value.0, r.value.1)
  {
    hide Inv, FactsAsOf, P.ArcsOf, VisibleArcs, P.Distinct;
    if !P.Blank(space, from) && !P.Blank(space, to) && !IsScope(scope) {
      return Err("unsupported temporal memory scope: " + scope);
    }
    var edges := TemporalGraphEdges(db, workspace, scope, at);
    r := P.GraphPath(space, edges, from, to, maxHops, undirected);
    SameArcs(edges, FactsAsOf(db.facts, workspace, scope, at));
  }

  /** Later observations do not change which answers are right for an earlier time. */
  lemma {:induction false} PastPathsStay(db: Db, ts: seq<Transaction>, workspace: string, scope: string, at: Time)
    requires Inv(db) && forall i :: 0 <= i < |ts| ==> Built(ts[i])
    requires var after := Run(db, ts).facts;
             forall i :: |db.facts| <= i < |after| ==> after[i].validFrom > at
    ensures FactsAsOf(Run(db, ts).facts, workspace, scope, at) == FactsAsOf(db.facts, workspace, scope, at)
    ensures forall undirected, from, to, bound: nat, path, used ::
      PathOfFacts(FactsAsOf(Run(db, ts).facts, workspace, scope, at), undirected, from, to, bound, path, used) <==>
      PathOfFacts(FactsAsOf(db.facts, workspace, scope, at), undirected, from, to, bound, path, used)
  {
    hide Inv, Run, FactsAsOf, GraphAsOf, PathOfFacts, Evolves, PlainId;
    RunKeepsPast(db, ts, workspace, scope, at);
    RunEvolves(db, ts);
    JoinShowsFacts(db, workspace, scope, at);
    JoinShowsFacts(Run(db, ts), workspace, scope, at);
  }

  // ---------------------------------------------------------------- neighbourhoods and impact

  /** `graph_explain`, from the store to the depths and edges. */
  method ExplainAsOf(db: Db, workspace: string, scope: string, at: Time, entity: Node, depth: nat)
    returns (depths: map<Node, nat>, nodes: seq<Node>, selected: set<GraphEdge>)
    requires Inv(db)
    ensures var visible := FactsAsOf(db.facts, workspace, scope, at);
            var arcs := VisibleArcs(visible, true);
            && E.ExactUpTo(arcs, entity, E.BoundedLevels(depth), depths)
            && E.Lists(nodes, depths)
            && forall e :: e in selected <==> e in visible && E.Touches(e, Within(arcs, {entity}, E.BoundedLevels(depth) - 1))
  {
    hide Inv, FactsAsOf, E.UndirectedArcs, VisibleArcs, E.ExactUpTo, E.Touches;
    var edges := TemporalGraphEdges(db, workspace, scope, at);
    SameArcs(edges, FactsAsOf(db.facts, workspace, scope, at));
    depths, nodes, selected := E.Explain(edges, entity, depth);
  }

  /** From callee to caller, over visible CALLS facts whose caller is no module. */
  function CallArcs(visible: set<GraphEdge>): set<Arc> {
    set e | e in visible && e.pred == "CALLS" && !D.IsModule(e.from) :: Arc(e.to, e.from)
  }

  /** An active fact that names a function, class or method. */
  predicate NamesSymbol(f: Fact, workspace: string, scope: string) {
    && f.workspace == workspace && f.scope == scope
    && f.pred == "IS_A" && (f.obj == "Function" || f.obj == "Class" || f.obj == "Method")
    && f.status.Active? && f.supersededBy.None?
  }

  /** The symbols whose own fact comes from a changed source. */
  function ChangedByFacts(facts: seq<Fact>, workspace: string, scope: string, changed: set<string>): set<Node> {
    set f | f in facts && NamesSymbol(f, workspace, scope) && f.source in changed :: f.subject
  }

  method SymbolRows(facts: seq<Fact>, workspace: string, scope: string) returns (rows: seq<D.SymbolRow>)
    ensures forall changed :: D.ChangedSymbols(rows, changed) == ChangedByFacts(facts, workspace, scope, changed)
  {
    hide NamesSymbol;
    rows := [];
    for i := 0 to |facts|
      invariant forall changed :: D.ChangedSymbols(rows, changed) == ChangedByFacts(facts[..i], workspace, scope, changed)
    {
      assert facts[..i + 1] == facts[..i] + [facts[i]];
      ghost var before := rows;
      if NamesSymbol(facts[i], workspace, scope) {
        rows := rows + [D.SymbolRow(facts[i].subject, facts[i].source)];
      }
      forall changed ensures D.ChangedSymbols(rows, changed) == ChangedByFacts(facts[..i + 1], workspace, scope, changed) {
        OneMoreFact(facts[..i], facts[i], before, workspace, scope, changed);
      }
    }
    assert facts[..|facts|] == facts;
  }

  lemma {:induction false} OneMoreFact(facts: seq<Fact>, f: Fact, rows: seq<D.SymbolRow>, workspace: string, scope: string, changed: set<string>)
    requires D.ChangedSymbols(rows, changed) == ChangedByFacts(facts, workspace, scope, changed)
    ensures D.ChangedSymbols(if NamesSymbol(f, workspace, scope) then rows + [D.SymbolRow(f.subject, f.source)] else rows, changed) ==
            ChangedByFacts(facts + [f], workspace, scope, changed)
  {
    hide NamesSymbol;
    var row, own := D.SymbolRow(f.subject, f.source), if NamesSymbol(f, workspace, scope) && f.source in changed then {f.subject} else {};
    assert ChangedByFacts(facts + [f], workspace, scope, changed) == ChangedByFacts(facts, workspace, scope, changed) + own;
    assert D.ChangedSymbols(rows + [row], changed) == D.ChangedSymbols(rows, changed) + (if f.source in changed then {f.subject} else {});
  }

  lemma {:induction false} ChangedAreActive(db: Db, workspace: string, scope: string, changed: set<string>)
    requires Inv(db)
    ensures ChangedByFacts(db.facts, workspace, scope, changed) ==
            set f | f in db.facts && f.workspace == workspace && f.scope == scope && f.status.Active? && f.source in changed &&
                    f.pred == "IS_A" && f.obj in ["Function", "Class", "Method"] :: f.subject
  {
    hide QueueInv, Provenance, EdgesAgree, EntitiesAgree, EpisodesAgree, FtsAgrees, OneTruth;
    assert forall f :: f in db.facts && f.status.Active? ==> f.supersededBy.None?;
  }

  /** `detect_changes`, from the store to the affected symbols: both the symbols and the calls are read from it. */
  method AffectedAsOf(db: Db, workspace: string, scope: string, at: Time, changed: set<string>, maxDepth: nat)
    returns (affected: map<Node, nat>)
    requires Inv(db)
    ensures D.ExactImpact(affected, CallArcs(FactsAsOf(db.facts, workspace, scope, at)),
                          set f | f in db.facts && f.workspace == workspace && f.scope == scope && f.status.Active? && f.source in changed &&
                                  f.pred == "IS_A" && f.obj in ["Function", "Class", "Method"] :: f.subject,
                          D.BoundedDepth(maxDepth))
  {
    ChangedAreActive(db, workspace, scope, changed);
    hide Inv, FactsAsOf, D.ExactImpact, ChangedByFacts, D.ChangedSymbols;
    var edges := TemporalGraphEdges(db, workspace, scope, at);
    var rows := SymbolRows(db.facts, workspace, scope);
    affected := D.Affected(edges, rows, changed, maxDepth);
    assert D.CallerArcs(edges) == CallArcs(FactsAsOf(db.facts, workspace, scope, at));
  }
}
