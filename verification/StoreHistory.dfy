/**
 Properties of whole runs of the store: what never changes once written, the supersession
 chains, the one-object-per-key guarantee of blanket supersession, and the as-of graph.
 */
module StoreHistory {
  import opened Wrappers
  import opened StoreModel
  import opened StoreInvariants

  // ---------------------------------------------------------------- nothing is rewritten

  /** Claims are final; payload, source and fingerprint never change. */
  predicate RowEvolves(r: ProposalRow, r': ProposalRow) {
    && r' == r.(status := r'.status, attempts := r'.attempts, accepted := r'.accepted, updatedAt := r'.updatedAt)
    && (r.status.Applied? ==> r'.status.Applied? && r'.accepted == r.accepted && r'.attempts == r.attempts)
  }

  /** A superseded fact is frozen; an active one can only be superseded. */
  predicate FactEvolves(f: Fact, f': Fact) {
    SameIdentity(f', f) && (f.supersededBy.Some? ==> f' == f)
  }

  /** Fact `i` was superseded by a fact at or after position `from`. */
  predicate RetiredFrom(facts: seq<Fact>, i: nat, from: nat)
    requires i < |facts|
  {
    exists j :: from <= j < |facts| && SupersededByFact(facts[i], facts[j])
  }

  ghost predicate Evolves(db: Db, db': Db) {
    && (forall id :: id in db.queue ==> id in db'.queue && RowEvolves(db.queue[id], db'.queue[id]))
    && |db.facts| <= |db'.facts|
    && (forall i :: 0 <= i < |db.facts| ==> FactEvolves(db.facts[i], db'.facts[i]))
    && (forall i {:trigger RetiredFrom(db'.facts, i, |db.facts|)} ::
          0 <= i < |db.facts| && db'.facts[i] != db.facts[i] ==> RetiredFrom(db'.facts, i, |db.facts|))
  }

  lemma {:induction false} EvolvesTransitive(a: Db, b: Db, c: Db)
    requires Evolves(a, b) && Evolves(b, c)
    ensures Evolves(a, c)
  {
    forall id | id in a.queue ensures id in c.queue && RowEvolves(a.queue[id], c.queue[id]) {
      assert RowEvolves(a.queue[id], b.queue[id]) && RowEvolves(b.queue[id], c.queue[id]);
    }
    forall i | 0 <= i < |a.facts| ensures FactEvolves(a.facts[i], c.facts[i]) {
      assert FactEvolves(a.facts[i], b.facts[i]) && FactEvolves(b.facts[i], c.facts[i]);
    }
    forall i | 0 <= i < |a.facts| && c.facts[i] != a.facts[i] ensures RetiredFrom(c.facts, i, |a.facts|) {
      if b.facts[i] != a.facts[i] {
        assert RetiredFrom(b.facts, i, |a.facts|);
        var j :| |a.facts| <= j < |b.facts| && SupersededByFact(b.facts[i], b.facts[j]);
        assert FactEvolves(b.facts[i], c.facts[i]) && FactEvolves(b.facts[j], c.facts[j]);
        assert SupersededByFact(c.facts[i], c.facts[j]);
      } else {
        assert RetiredFrom(c.facts, i, |b.facts|);
        var j :| |b.facts| <= j < |c.facts| && SupersededByFact(c.facts[i], c.facts[j]);
      }
    }
  }

  lemma {:induction false} ApprovalEvolves(db: Db, db': Db, now: Time, id: string, n: Fact)
    requires Inv(db) && Approval(db, db', now, id, n)
    ensures Evolves(db, db')
  {
    hide FactIdOf, SupersedeStep, Approves, PlainId, Provenance, EdgesAgree, EntitiesAgree, EpisodesAgree;
    SupersedeStepFrame(db.facts, n, db.queue[id].payload, now);
    forall i | 0 <= i < |db.facts| ensures FactEvolves(db.facts[i], db'.facts[i]) {
      assert SameIdentity(db'.facts[i], db.facts[i]);
    }
    forall i | 0 <= i < |db.facts| && db'.facts[i] != db.facts[i] ensures RetiredFrom(db'.facts, i, |db.facts|) {
      assert SupersededByFact(db'.facts[i], db'.facts[|db.facts|]);
    }
  }

  lemma {:induction false} OpEvolves(db: Db, workspace: string, now: Time, op: Op)
    requires Inv(db) && BuiltOp(op) && Apply(db, workspace, now, op).Ok?
    ensures Evolves(db, Apply(db, workspace, now, op).value)
  {
    hide PlainId, Approve, Provenance, Forest, EdgesAgree, EntitiesAgree, EpisodesAgree, FtsAgrees, QueueInv, Enqueue;
    match op
    case EnqueueOp(p) => QueueAfterEnqueue(db, workspace, now, p);
    case ApproveOp(id) =>
      ApproveShape(db, workspace, now, id);
      ApprovalEvolves(db, Approve(db, workspace, now, id).value, now, id, NewFact(db, workspace, now, id));
    case RejectOp(id) =>
  }

  lemma {:induction false} OpsEvolve(db: Db, workspace: string, now: Time, ops: seq<Op>)
    requires Inv(db) && forall i :: 0 <= i < |ops| ==> BuiltOp(ops[i])
    requires ApplyAll(db, workspace, now, ops).Ok?
    ensures Evolves(db, ApplyAll(db, workspace, now, ops).value)
    decreases |ops|
  {
    hide PlainId, Apply, Inv;
    if ops != [] {
      OpEvolves(db, workspace, now, ops[0]);
      OpKeepsInv(db, workspace, now, ops[0]);
      var next := Apply(db, workspace, now, ops[0]).value;
      OpsEvolve(next, workspace, now, ops[1..]);
      EvolvesTransitive(db, next, ApplyAll(db, workspace, now, ops).value);
    }
  }

  lemma {:induction false} CommitEvolves(db: Db, t: Transaction)
    requires Inv(db) && Built(t)
    ensures Inv(Commit(db, t)) && Evolves(db, Commit(db, t))
  {
    hide PlainId, ApplyAll, Inv;
    if ApplyAll(db, t.workspace, t.now, t.ops).Ok? {
      OpsKeepInv(db, t.workspace, t.now, t.ops);
      OpsEvolve(db, t.workspace, t.now, t.ops);
    }
  }

  /** Over any run: every proposal is claimed at most once, no fact is lost, no superseded fact revives. */
  lemma {:induction false} RunEvolves(db: Db, ts: seq<Transaction>)
    requires Inv(db) && forall i :: 0 <= i < |ts| ==> Built(ts[i])
    ensures Inv(Run(db, ts)) && Evolves(db, Run(db, ts))
    decreases |ts|
  {
    hide PlainId, Commit, Inv, Built;
    if ts != [] {
      CommitEvolves(db, ts[0]);
      RunEvolves(Commit(db, ts[0]), ts[1..]);
      EvolvesTransitive(db, Commit(db, ts[0]), Run(db, ts));
    }
  }

  /** Every state that transactions can reach from an empty database satisfies the invariant. */
  lemma {:induction false} ReachableInv(ts: seq<Transaction>)
    requires forall i :: 0 <= i < |ts| ==> Built(ts[i])
    ensures Inv(Run(EMPTY_DB, ts))
  {
    hide Inv, Run;
    EmptyInv();
    RunEvolves(EMPTY_DB, ts);
  }

  /** An approved proposal has exactly one fact; a pending or rejected one has none. */
  lemma {:induction false} ExactlyOneFact(db: Db, id: string)
    requires Inv(db) && id in db.queue
    ensures (exists i :: 0 <= i < |db.facts| && db.facts[i].id == FactIdOf(id)) <==> db.queue[id].accepted == Some(true)
    ensures forall i, j :: 0 <= i < |db.facts| && 0 <= j < |db.facts| && db.facts[i].id == db.facts[j].id ==> i == j
  {
    hide FactIdOf, EpisodeIdOf, PlainId, EdgesAgree, EntitiesAgree, EpisodesAgree, Forest, FtsAgrees;
    forall i, j | 0 <= i < |db.facts| && 0 <= j < |db.facts| && db.facts[i].id == db.facts[j].id ensures i == j {
      FactIdsDistinct(db, i, j);
    }
    if i :| 0 <= i < |db.facts| && db.facts[i].id == FactIdOf(id) {
      FactIdInjective(db.facts[i].proposalId, id);
    }
    if db.queue[id].accepted == Some(true) {
      assert WritesFact(db.facts, id);
    }
  }

  // ---------------------------------------------------------------- supersession chains

  /** Indices of successive superseding facts. */
  ghost predicate IsChain(facts: seq<Fact>, path: seq<nat>) {
    && |path| > 0
    && (forall k :: 0 <= k < |path| ==> path[k] < |facts|)
    && forall k :: 0 < k < |path| ==>
         path[k - 1] < path[k] && SupersededByFact(facts[path[k - 1]], facts[path[k]])
  }

  /** Following `superseded_by` only moves to later approvals and always ends in an active fact of the key. */
  lemma {:induction false} ChainEndsActive(facts: seq<Fact>, i: nat) returns (path: seq<nat>)
    requires Forest(facts) && i < |facts|
    ensures IsChain(facts, path) && path[0] == i
    ensures facts[path[|path| - 1]].status.Active? && KeyOf(facts[path[|path| - 1]]) == KeyOf(facts[i])
    decreases |facts| - i
  {
    if facts[i].status.Active? {
      path := [i];
    } else {
      assert HasSuccessor(facts, i);
      var j :| i < j < |facts| && SupersededByFact(facts[i], facts[j]);
      var rest := ChainEndsActive(facts, j);
      path := [i] + rest;
      forall k | 0 < k < |path|
        ensures path[k - 1] < path[k] && SupersededByFact(facts[path[k - 1]], facts[path[k]])
      {
        if k > 1 {
          assert path[k - 1] == rest[k - 2] && path[k] == rest[k - 1];
        }
      }
    }
  }

  /** Approvals may come out of observation order: then, and only then, a closed interval ends before it starts. */
  lemma {:induction false} IntervalIsOrdered(db: Db, workspace: string, now: Time, id: string, i: nat)
    requires Inv(db) && Approve(db, workspace, now, id).Ok? && i < |db.facts| && id in db.queue
    requires var payload := db.queue[id].payload;
             payload.supersedes && IsSuperseded(db.facts[i], NewFact(db, workspace, now, id), payload.supersedesObject)
    ensures var after := Approve(db, workspace, now, id).value.facts;
            && i < |after| && after[i].validUntil.Some?
            && (after[i].validFrom <= after[i].validUntil.value <==> db.facts[i].validFrom <= NewFact(db, workspace, now, id).validFrom)
  {
    hide Approve, Inv, DraftFact;
    ApproveShape(db, workspace, now, id);
    var n := NewFact(db, workspace, now, id);
    assert SupersedeStep(db.facts, n, db.queue[id].payload, now)[i] == Retire(db.facts[i], n, now);
  }

  // ---------------------------------------------------------------- small runs

  lemma {:induction false} SingleCommit(db: Db, workspace: string, now: Time, op: Op)
    ensures Commit(db, Transaction(workspace, now, [op])) ==
            match Apply(db, workspace, now, op) { case Ok(next) => next case Err(_) => db }
  {
    hide Apply;
    assert [op][1..] == [];
    if Apply(db, workspace, now, op).Ok? {
      assert ApplyAll(Apply(db, workspace, now, op).value, workspace, now, []).Ok?;
    }
  }

  /** One proposal, enqueued by a client at `enqueued` and approved by one at `approved`. */
  function OneProposal(workspace: string, enqueued: Time, approved: Time, p: ProposalInput): seq<Transaction> {
    [Transaction(workspace, enqueued, [EnqueueOp(p)]), Transaction(workspace, approved, [ApproveOp(p.id)])]
  }

  lemma {:induction false} TwoTransactions(db: Db, t: Transaction, u: Transaction)
    ensures Run(db, [t, u]) == Commit(Commit(db, t), u)
  {
    hide Commit;
    var first := Commit(db, t);
    assert [t, u][1..] == [u] && [u][1..] == [];
    assert Run(first, [u]) == Run(Commit(first, u), []);
  }

  /** Enqueueing a new proposal and approving it writes its fact. */
  lemma {:induction false} FreshProposal(db: Db, workspace: string, enqueued: Time, approved: Time, p: ProposalInput)
    requires Inv(db) && PlainId(p.id) && p.payload.kind == "fact"
    requires p.id !in db.queue && !FingerprintQueued(db.queue, workspace, FingerprintOf(workspace, p))
    ensures var row := NewRow(workspace, enqueued, p);
            var n := DraftFact(workspace, approved, p.id, row);
            var after := Run(db, OneProposal(workspace, enqueued, approved, p));
            && Inv(after) && Evolves(db, after)
            && after.queue.Keys == db.queue.Keys + {p.id}
            && (forall id :: id in db.queue ==> after.queue[id] == db.queue[id])
            && after.queue[p.id].payload == p.payload
            && after.queue[p.id].fingerprint == row.fingerprint
            && after.facts == SupersedeStep(db.facts, n, p.payload, approved) + [n]
  {
    hide PlainId, Inv, Evolves, SupersedeStep, DraftFact, FingerprintQueued;
    var ts := OneProposal(workspace, enqueued, approved, p);
    RunEvolves(db, ts);
    TwoTransactions(db, ts[0], ts[1]);
    SingleCommit(db, workspace, enqueued, EnqueueOp(p));
    var queued := Commit(db, ts[0]);
    EnqueueKeepsInv(db, workspace, enqueued, p);
    SingleCommit(queued, workspace, approved, ApproveOp(p.id));
    ApproveShape(queued, workspace, approved, p.id);
  }

  lemma {:induction false} OneProposalRun(workspace: string, enqueued: Time, approved: Time, p: ProposalInput)
    requires PlainId(p.id) && p.payload.kind == "fact"
    ensures var db := Run(EMPTY_DB, OneProposal(workspace, enqueued, approved, p));
            && Inv(db) && Evolves(EMPTY_DB, db)
            && db.facts == [DraftFact(workspace, approved, p.id, NewRow(workspace, enqueued, p))]
            && db.queue.Keys == {p.id} && db.queue[p.id].payload == p.payload
            && db.queue[p.id].fingerprint == FingerprintOf(workspace, p)
  {
    hide PlainId, Inv, Evolves, DraftFact, Run;
    EmptyInv();
    FreshProposal(EMPTY_DB, workspace, enqueued, approved, p);
  }

  /**
   A run in which an interval ends before it starts: a second proposal for the same key, observed
   earlier, replaces the first.
   */
  lemma {:induction false} BackdatedRun(workspace: string, p: ProposalInput, q: ProposalInput, observed: Time, earlier: Time, now: Time)
    requires PlainId(p.id) && PlainId(q.id) && p.id != q.id && p.payload.kind == q.payload.kind == "fact"
    requires p.payload.observedAt == Some(observed) && q.payload.observedAt == Some(earlier) && earlier < observed
    requires p.payload.scope == q.payload.scope && p.payload.subject == q.payload.subject && p.payload.pred == q.payload.pred
    requires p.payload.obj.GetOr("") != q.payload.obj.GetOr("") && Blanket(q.payload)
    ensures var first := Run(EMPTY_DB, OneProposal(workspace, now, now, p));
            var f := Run(first, OneProposal(workspace, now, now, q)).facts;
            |f| == 2 && f[0].validFrom == observed && f[0].validUntil == Some(earlier) && f[0].validUntil.value < f[0].validFrom
  {
    hide PlainId, Inv, Evolves, Run, FactIdOf;
    OneProposalRun(workspace, now, now, p);
    var first := Run(EMPTY_DB, OneProposal(workspace, now, now, p));
    FreshProposal(first, workspace, now, now, q);
    FactIdInjective(p.id, q.id);
    var n := DraftFact(workspace, now, q.id, NewRow(workspace, now, q));
    assert IsSuperseded(first.facts[0], n, None);
  }

  // ---------------------------------------------------------------- ids that collide

  /** A proposal under any id, enqueued and approved: its fact is upserted. */
  lemma {:induction false} AnyProposal(db: Db, workspace: string, enqueued: Time, approved: Time, p: ProposalInput)
    requires p.payload.kind == "fact"
    requires p.id !in db.queue && !FingerprintQueued(db.queue, workspace, FingerprintOf(workspace, p))
    ensures var row := NewRow(workspace, enqueued, p);
            var n := DraftFact(workspace, approved, p.id, row);
            var after := Run(db, OneProposal(workspace, enqueued, approved, p));
            && after.queue.Keys == db.queue.Keys + {p.id}
            && (forall id :: id in db.queue ==> after.queue[id] == db.queue[id])
            && after.queue[p.id].accepted == Some(true) && after.queue[p.id].fingerprint == row.fingerprint
            && after.queue[p.id].workspace == workspace
            && after.facts == UpsertFact(SupersedeStep(db.facts, n, p.payload, approved), n)
  {
    hide SupersedeStep, DraftFact, UpsertFact, FingerprintQueued, UpsertEdge, UpsertEntity, UpsertEpisode, DeleteFts;
    var ts := OneProposal(workspace, enqueued, approved, p);
    TwoTransactions(db, ts[0], ts[1]);
    SingleCommit(db, workspace, enqueued, EnqueueOp(p));
    var queued := Commit(db, ts[0]);
    SingleCommit(queued, workspace, approved, ApproveOp(p.id));
    DraftIgnoresClaim(workspace, approved, p.id, queued.queue[p.id], Claim(queued, workspace, approved, p.id, true).value.queue[p.id]);
  }

  lemma {:induction false} DraftIgnoresClaim(workspace: string, now: Time, id: string, r: ProposalRow, s: ProposalRow)
    requires r.payload == s.payload && r.sourceLocator == s.sourceLocator
    ensures DraftFact(workspace, now, id, r) == DraftFact(workspace, now, id, s)
  {
  }

  lemma {:induction false} FirstOfTwo(workspace: string, time: Time, p: ProposalInput, q: ProposalInput)
    requires p.payload.kind == "fact" && p.id != q.id
    requires FingerprintOf(workspace, p) != FingerprintOf(workspace, q)
    ensures var first := Run(EMPTY_DB, OneProposal(workspace, time, time, p));
            && q.id !in first.queue && !FingerprintQueued(first.queue, workspace, FingerprintOf(workspace, q))
            && p.id in first.queue && first.queue[p.id].accepted == Some(true)
            && first.facts == [DraftFact(workspace, time, p.id, NewRow(workspace, time, p))]
  {
    hide DraftFact, Run, SupersedeStep;
    AnyProposal(EMPTY_DB, workspace, time, time, p);
    var n := DraftFact(workspace, time, p.id, NewRow(workspace, time, p));
    assert SupersedeStep([], n, p.payload, time) == [] by { NothingSuperseded(n, p.payload, time); }
  }

  lemma {:induction false} NothingSuperseded(n: Fact, payload: Payload, now: Time)
    ensures SupersedeStep([], n, payload, now) == []
  {
  }

  /**
   Two proposals with any queue ids, both approved: the first keeps its fact if and only if their
   fact ids differ. When they agree, the conflict branch of the fact upsert overwrites the first fact.
   */
  lemma {:induction false} BothFactsStayIff(workspace: string, time: Time, p: ProposalInput, q: ProposalInput)
    requires QueueId(p.id) && QueueId(q.id) && p.id != q.id && p.payload.kind == q.payload.kind == "fact"
    requires FingerprintOf(workspace, p) != FingerprintOf(workspace, q)
    ensures var after := Run(Run(EMPTY_DB, OneProposal(workspace, time, time, p)), OneProposal(workspace, time, time, q));
            && p.id in after.queue && after.queue[p.id].accepted == Some(true)
            && q.id in after.queue && after.queue[q.id].accepted == Some(true)
            && WritesFact(after.facts, q.id)
            && (WritesFact(after.facts, p.id) <==> TrimPrefix(p.id) != TrimPrefix(q.id))
            && |after.facts| == if TrimPrefix(p.id) == TrimPrefix(q.id) then 1 else 2
  {
    hide Run, FactIdOf, TrimPrefix, IsIdChar;
    FactIdsAgree(p.id, q.id);
    FirstOfTwo(workspace, time, p, q);
    var first := Run(EMPTY_DB, OneProposal(workspace, time, time, p));
    AnyProposal(first, workspace, time, time, q);
    var after := Run(first, OneProposal(workspace, time, time, q)).facts;
    var n := DraftFact(workspace, time, q.id, NewRow(workspace, time, q));
    var kept := SupersedeStep(first.facts, n, q.payload, time);
    assert |kept| == 1 && SameIdentity(kept[0], first.facts[0]);
    assert HasFact(kept, n.id) <==> kept[0].id == n.id;
    assert after[|after| - 1].proposalId == q.id;
    assert after[0].proposalId == if TrimPrefix(p.id) == TrimPrefix(q.id) then q.id else p.id;
  }
}
