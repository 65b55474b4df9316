/**
 The as-of graph read by `temporal_graph_edges`, and the theorem that approvals never rewrite
 its past.
 */
module Temporal {
  import opened Wrappers
  import opened StoreModel
  import opened StoreInvariants
  import opened StoreHistory
  import opened Walks

  /** The temporal conditions of the WHERE clause; a comparison with NULL is false. */
  predicate VisibleAt(f: Fact, at: Time) {
    && f.validFrom <= at
    && (f.validUntil.None? || f.validUntil.value > at)
    && (f.supersededBy.None? || (f.validUntil.Some? && f.validUntil.value > at))
  }

  predicate Joined(db: Db, workspace: string, scope: string, k: EdgeKey, f: Fact) {
    && k in db.edges
    && k.workspace == workspace && k.scope == scope
    && f.workspace == k.workspace && f.scope == k.scope && f.id == k.factId
    && db.edges[k].source in db.entities && db.edges[k].target in db.entities
  }

  /** The rows of the join over edges, entities and facts (their order is left open). */
  function GraphAsOf(db: Db, workspace: string, scope: string, at: Time): set<GraphEdge> {
    set k, i | k in db.edges && 0 <= i < |db.facts| && Joined(db, workspace, scope, k, db.facts[i]) && VisibleAt(db.facts[i], at) ::
      GraphEdge(db.entities[db.edges[k].source].name, db.edges[k].pred, db.entities[db.edges[k].target].name,
                k.factId, db.facts[i].source)
  }

  function EdgeOfFact(f: Fact): GraphEdge {
    GraphEdge(f.subject, f.pred, f.obj, f.id, f.source)
  }

  predicate Shows(f: Fact, workspace: string, scope: string, at: Time) {
    f.workspace == workspace && f.scope == scope && VisibleAt(f, at)
  }

  /** The facts visible at `at`, as graph edges, without any of the derived tables. */
  function FactsAsOf(facts: seq<Fact>, workspace: string, scope: string, at: Time): set<GraphEdge> {
    set i | 0 <= i < |facts| && Shows(facts[i], workspace, scope, at) :: EdgeOfFact(facts[i])
  }

  /** The join returns the visible facts: nothing is lost or invented by the derived tables. */
  lemma {:induction false} JoinShowsFacts(db: Db, workspace: string, scope: string, at: Time)
    requires Inv(db)
    ensures GraphAsOf(db, workspace, scope, at) == FactsAsOf(db.facts, workspace, scope, at)
  {
    hide FactIdOf, PlainId, Provenance, QueueInv, EpisodesAgree, FtsAgrees, Forest, OneTruth, VisibleAt;
    var facts := db.facts;
    forall e | e in GraphAsOf(db, workspace, scope, at) ensures e in FactsAsOf(facts, workspace, scope, at) {
      var k, i :| k in db.edges && 0 <= i < |facts| && Joined(db, workspace, scope, k, facts[i]) && VisibleAt(facts[i], at)
        && e == GraphEdge(db.entities[db.edges[k].source].name, db.edges[k].pred, db.entities[db.edges[k].target].name,
                          k.factId, facts[i].source);
      assert k == EdgeKeyOf(facts[i]);
      assert e == EdgeOfFact(facts[i]);
      assert Shows(facts[i], workspace, scope, at);
    }
    forall e | e in FactsAsOf(facts, workspace, scope, at) ensures e in GraphAsOf(db, workspace, scope, at) {
      var i :| 0 <= i < |facts| && Shows(facts[i], workspace, scope, at) && e == EdgeOfFact(facts[i]);
      var k := EdgeKeyOf(facts[i]);
      assert Joined(db, workspace, scope, k, facts[i]);
    }
  }

  /** The facts that approving `n` supersedes, as graph edges. */
  function Removed(facts: seq<Fact>, n: Fact, payload: Payload): set<GraphEdge> {
    set i | 0 <= i < |facts| && payload.supersedes && IsSuperseded(facts[i], n, payload.supersedesObject) :: EdgeOfFact(facts[i])
  }

  lemma {:induction false} FactsAsOfBefore(facts: seq<Fact>, facts': seq<Fact>, workspace: string, scope: string, at: Time)
    requires |facts| <= |facts'|
    requires forall i :: 0 <= i < |facts| ==>
      EdgeOfFact(facts'[i]) == EdgeOfFact(facts[i]) && (Shows(facts'[i], workspace, scope, at) <==> Shows(facts[i], workspace, scope, at))
    requires forall i :: |facts| <= i < |facts'| ==> !Shows(facts'[i], workspace, scope, at)
    ensures FactsAsOf(facts', workspace, scope, at) == FactsAsOf(facts, workspace, scope, at)
  {
    var a, b := FactsAsOf(facts, workspace, scope, at), FactsAsOf(facts', workspace, scope, at);
    forall e | e in a ensures e in b {
      var i :| 0 <= i < |facts| && Shows(facts[i], workspace, scope, at) && e == EdgeOfFact(facts[i]);
      assert EdgeOfFact(facts'[i]) == e;
    }
    forall e | e in b ensures e in a {
      var i :| 0 <= i < |facts'| && Shows(facts'[i], workspace, scope, at) && e == EdgeOfFact(facts'[i]);
      assert EdgeOfFact(facts[i]) == e;
    }
  }

  /**
   The past is never rewritten, over whole runs: if every fact approved during a run was observed
   after `at`, the graph as of `at` is the same before and after, whatever the order of approvals.
   */
  lemma {:induction false} RunKeepsPast(db: Db, ts: seq<Transaction>, workspace: string, scope: string, at: Time)
    requires Inv(db) && forall i :: 0 <= i < |ts| ==> Built(ts[i])
    requires var after := Run(db, ts).facts;
             forall i :: |db.facts| <= i < |after| ==> after[i].validFrom > at
    ensures GraphAsOf(Run(db, ts), workspace, scope, at) == GraphAsOf(db, workspace, scope, at)
  {
    hide PlainId, Run, QueueInv, Provenance, EdgesAgree, EntitiesAgree, EpisodesAgree, FtsAgrees, OneTruth, GraphAsOf;
    RunEvolves(db, ts);
    var db' := Run(db, ts);
    JoinShowsFacts(db, workspace, scope, at);
    JoinShowsFacts(db', workspace, scope, at);
    forall i | 0 <= i < |db.facts|
      ensures EdgeOfFact(db'.facts[i]) == EdgeOfFact(db.facts[i])
      ensures Shows(db'.facts[i], workspace, scope, at) <==> Shows(db.facts[i], workspace, scope, at)
    {
      assert FactEvolves(db.facts[i], db'.facts[i]);
      if db'.facts[i] != db.facts[i] {
        assert RetiredFrom(db'.facts, i, |db.facts|);
      }
    }
    FactsAsOfBefore(db.facts, db'.facts, workspace, scope, at);
  }

  /**
   One approval, observed at `n.validFrom`: earlier graphs keep every edge, later ones lose
   exactly the superseded facts and gain exactly the new one; other scopes are untouched.
   */
  lemma {:induction false} ApprovalAsOf(db: Db, db': Db, now: Time, id: string, n: Fact, workspace: string, scope: string, at: Time)
    requires Inv(db) && Approval(db, db', now, id, n)
    ensures at < n.validFrom ==>
      FactsAsOf(db'.facts, workspace, scope, at) == FactsAsOf(db.facts, workspace, scope, at)
    ensures at >= n.validFrom ==>
      FactsAsOf(db'.facts, workspace, scope, at) ==
        FactsAsOf(db.facts, workspace, scope, at) - Removed(db.facts, n, db.queue[id].payload) + Added(n, workspace, scope)
  {
    hide FactIdOf, PlainId, Approves, QueueInv, Provenance, EdgesAgree, EntitiesAgree, EpisodesAgree, FtsAgrees, OneTruth;
    var payload := db.queue[id].payload;
    SupersedeStepFrame(db.facts, n, payload, now);
    forall i | 0 <= i < |db.facts|
      ensures EdgeOfFact(db'.facts[i]) == EdgeOfFact(db.facts[i])
    {
      assert SameIdentity(db'.facts[i], db.facts[i]);
    }
    if at < n.validFrom {
      FactsAsOfBefore(db.facts, db'.facts, workspace, scope, at);
    } else {
      ApprovalAsOfAfter(db, db', now, id, n, workspace, scope, at);
    }
  }

  function Added(n: Fact, workspace: string, scope: string): set<GraphEdge> {
    if n.workspace == workspace && n.scope == scope then {EdgeOfFact(n)} else {}
  }

  lemma {:induction false} ApprovalAsOfAfter(db: Db, db': Db, now: Time, id: string, n: Fact, workspace: string, scope: string, at: Time)
    requires Inv(db) && Approval(db, db', now, id, n) && at >= n.validFrom
    ensures FactsAsOf(db'.facts, workspace, scope, at) ==
        FactsAsOf(db.facts, workspace, scope, at) - Removed(db.facts, n, db.queue[id].payload) + Added(n, workspace, scope)
  {
    hide FactIdOf, PlainId, Approves, QueueInv, Provenance, EdgesAgree, EntitiesAgree, EpisodesAgree, FtsAgrees, OneTruth;
    var payload := db.queue[id].payload;
    var before, after := FactsAsOf(db.facts, workspace, scope, at), FactsAsOf(db'.facts, workspace, scope, at);
    var gone, new_ := Removed(db.facts, n, payload), Added(n, workspace, scope);
    SupersedeStepFrame(db.facts, n, payload, now);
    forall e | e in after ensures e in before - gone + new_ {
      var i :| 0 <= i < |db'.facts| && Shows(db'.facts[i], workspace, scope, at) && e == EdgeOfFact(db'.facts[i]);
      if i < |db.facts| {
        assert db'.facts[i] == db.facts[i];
        assert Shows(db.facts[i], workspace, scope, at);
        if e in gone {
          var j :| 0 <= j < |db.facts| && payload.supersedes && IsSuperseded(db.facts[j], n, payload.supersedesObject) && e == EdgeOfFact(db.facts[j]);
          FactIdsDistinct(db, i, j);
        }
      }
    }
    forall e | e in before - gone + new_ ensures e in after {
      if e in new_ {
        assert Shows(db'.facts[|db.facts|], workspace, scope, at);
      } else {
        var i :| 0 <= i < |db.facts| && Shows(db.facts[i], workspace, scope, at) && e == EdgeOfFact(db.facts[i]);
        assert db'.facts[i] == db.facts[i];
        assert Shows(db'.facts[i], workspace, scope, at);
      }
    }
  }

  /** The same, read through `temporal_graph_edges` on both sides of `approve_proposal_uncommitted`. */
  lemma {:induction false} ApproveChangesGraph(db: Db, workspace: string, now: Time, id: string, scope: string, at: Time)
    requires Inv(db) && Approve(db, workspace, now, id).Ok?
    ensures id in db.queue
    ensures var db' := Approve(db, workspace, now, id).value;
            var n := NewFact(db, workspace, now, id);
            GraphAsOf(db', workspace, scope, at) ==
              if at < n.validFrom then GraphAsOf(db, workspace, scope, at)
              else GraphAsOf(db, workspace, scope, at) - Removed(db.facts, n, db.queue[id].payload) + Added(n, workspace, scope)
  {
    hide PlainId, Approve, NewFact, GraphAsOf, FactsAsOf, Removed, Added, Approval, Inv;
    ApproveShape(db, workspace, now, id);
    ApproveKeepsInv(db, workspace, now, id);
    var db' := Approve(db, workspace, now, id).value;
    JoinShowsFacts(db, workspace, scope, at);
    JoinShowsFacts(db', workspace, scope, at);
    ApprovalAsOf(db, db', now, id, NewFact(db, workspace, now, id), workspace, scope, at);
  }
}
