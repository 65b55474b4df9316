/**
 What a reader finds after a proposal went through the queue, said from the proposal alone: the
 graph, the impact search, the full-text row, the episode and the facts that were replaced.
 */
module StoreOutcomes {
  import opened Wrappers
  import opened StoreModel
  import opened StoreInvariants
  import opened StoreHistory
  import opened Temporal
  import opened Walks
  import opened GraphReads
  import opened Order
  import S = StoreClient

  // ---------------------------------------------------------------- the columns of the new fact

  /** The payload's fields, with the defaults for those it lacks. */
  datatype Told = Told(scope: string, subject: string, pred: string, obj: string, text: string, observed: Time, episode: string)

  function Or<T>(o: Option<T>, fallback: T): (v: T)
    ensures o.Some? ==> v == o.value
    ensures o.None? ==> v == fallback
  {
    match o
    case Some(x) => x
    case None => fallback
  }

  function ToldBy(p: ProposalInput, approved: Time): Told
    requires 4 <= |p.id|
  {
    var a := p.payload;
    var subject, pred, obj := Or(a.subject, ""), Or(a.pred, ""), Or(a.obj, "");
    Told(Or(a.scope, "workspace"), subject, pred, obj, Or(a.text, subject + " " + pred + " " + obj),
         Or(a.observedAt, approved), Or(a.episodeId, "mep_" + p.id[4..]))
  }

  /** The id of the fact that a proposal becomes. */
  function NewFactId(p: ProposalInput): string
    requires 4 <= |p.id|
  {
    "memfact_" + p.id[4..]
  }

  /** The older fact is the kind of fact that the proposal replaces. */
  predicate Replaces(workspace: string, p: ProposalInput, t: Told, f: Fact) {
    && p.payload.supersedes
    && f.status.Active?
    && f.workspace == workspace && f.scope == t.scope && f.subject == t.subject && f.pred == t.pred
    && (match p.payload.supersedesObject
        case Some(o) => f.obj == o
        case None => f.obj != t.obj)
  }

  // ---------------------------------------------------------------- approval

  /** The tables after a new proposal is enqueued and approved. */
  lemma {:induction false} FreshApproval(db: Db, workspace: string, enqueued: Time, approved: Time, p: ProposalInput)
    requires Inv(db) && PlainId(p.id) && p.payload.kind == "fact"
    requires p.id !in db.queue && !FingerprintQueued(db.queue, workspace, FingerprintOf(workspace, p))
    ensures var queued := db.(queue := db.queue[p.id := NewRow(workspace, enqueued, p)]);
            var after := Run(db, OneProposal(workspace, enqueued, approved, p));
            && Inv(after)
            && Approval(queued, after, approved, p.id, DraftFact(workspace, approved, p.id, NewRow(workspace, enqueued, p)))
  {
    hide PlainId, Inv, Evolves, SupersedeStep, DraftFact, FingerprintQueued, Approval;
    var ts := OneProposal(workspace, enqueued, approved, p);
    RunEvolves(db, ts);
    TwoTransactions(db, ts[0], ts[1]);
    SingleCommit(db, workspace, enqueued, EnqueueOp(p));
    EnqueueKeepsInv(db, workspace, enqueued, p);
    SingleCommit(Commit(db, ts[0]), workspace, approved, ApproveOp(p.id));
    ApproveSucceeds(Commit(db, ts[0]), workspace, approved, p.id);
    ApproveShape(Commit(db, ts[0]), workspace, approved, p.id);
  }

  lemma {:induction false} ApproveSucceeds(db: Db, workspace: string, now: Time, id: string)
    requires PendingIn(db, workspace, id) && db.queue[id].payload.kind == "fact"
    ensures Approve(db, workspace, now, id).Ok?
  {
    hide WriteFact, DraftFact;
  }

  lemma {:induction false} DraftColumns(workspace: string, enqueued: Time, approved: Time, p: ProposalInput)
    requires PlainId(p.id)
    ensures var t := ToldBy(p, approved);
            DraftFact(workspace, approved, p.id, NewRow(workspace, enqueued, p)) ==
            Fact(NewFactId(p), workspace, t.scope, t.subject, t.pred, t.obj, t.text, Active, p.sourceLocator,
                 t.observed, None, None, t.episode, p.id, approved, approved)
  {
    hide PlainId;
    PlainPrefix(p.id);
    PlainTrim(p.id);
  }

  lemma {:induction false} PlainPrefix(id: string)
    requires PlainId(id)
    ensures 4 <= |id| <= 132 && PlainId(id)
  {
  }

  /**
   The fact that an approval writes, and what it does to every older fact, read off the proposal:
   the older facts it replaces are closed at its observation and name it, all others stay.
   */
  lemma {:induction false} ApprovedFact(db: Db, workspace: string, enqueued: Time, approved: Time, p: ProposalInput)
    requires Inv(db) && PlainId(p.id) && p.payload.kind == "fact"
    requires p.id !in db.queue && !FingerprintQueued(db.queue, workspace, FingerprintOf(workspace, p))
    ensures 4 <= |p.id|
    ensures var t := ToldBy(p, approved);
            var after := Run(db, OneProposal(workspace, enqueued, approved, p)).facts;
            && |after| == |db.facts| + 1
            && after[|db.facts|] == Fact(NewFactId(p), workspace, t.scope, t.subject, t.pred, t.obj, t.text, Active, p.sourceLocator,
                                         t.observed, None, None, t.episode, p.id, approved, approved)
            && forall i :: 0 <= i < |db.facts| ==>
                 var f := db.facts[i];
                 after[i] == if Replaces(workspace, p, t, f)
                             then f.(status := Superseded, validUntil := Some(t.observed), supersededBy := Some(NewFactId(p)), updatedAt := approved)
                             else f
  {
    hide PlainId, Inv, Run, DraftFact, FingerprintQueued;
    PlainPrefix(p.id);
    FreshApproval(db, workspace, enqueued, approved, p);
    DraftColumns(workspace, enqueued, approved, p);
    var n := DraftFact(workspace, approved, p.id, NewRow(workspace, enqueued, p));
    forall i | 0 <= i < |db.facts|
      ensures SupersedeStep(db.facts, n, p.payload, approved)[i] ==
              if Replaces(workspace, p, ToldBy(p, approved), db.facts[i]) then Retire(db.facts[i], n, approved) else db.facts[i]
    {
      OpenIffActive(db, i);
      NewIdDiffers(db, i, n.id);
    }
  }

  lemma {:induction false} OpenIffActive(db: Db, i: nat)
    requires Inv(db) && i < |db.facts|
    ensures var f := db.facts[i];
            && (f.status.Active? <==> f.supersededBy.None?)
            && (f.status.Active? <==> f.validUntil.None?)
  {
    hide QueueInv, Provenance, EdgesAgree, EntitiesAgree, EpisodesAgree, FtsAgrees, OneTruth;
  }

  lemma {:induction false} NewIdDiffers(db: Db, i: nat, id: string)
    requires i < |db.facts| && !HasFact(db.facts, id)
    ensures db.facts[i].id != id
  {
  }

  /**
   What readers find after a proposal is enqueued and approved: from its observation on, the graph
   holds its edge under its own source; the impact search finds the symbol it names through that
   source; the full-text index holds its text; and its episode carries source and text.
   */
  lemma {:induction false} ApprovedProposalShows(db: Db, workspace: string, enqueued: Time, approved: Time, p: ProposalInput, at: Time)
    requires Inv(db) && PlainId(p.id) && p.payload.kind == "fact"
    requires p.id !in db.queue && !FingerprintQueued(db.queue, workspace, FingerprintOf(workspace, p))
    ensures 4 <= |p.id|
    ensures var t := ToldBy(p, approved);
            var after := Run(db, OneProposal(workspace, enqueued, approved, p));
            && (at >= t.observed ==> GraphEdge(t.subject, t.pred, t.obj, NewFactId(p), p.sourceLocator) in GraphAsOf(after, workspace, t.scope, at))
            && (t.pred == "IS_A" && (t.obj == "Function" || t.obj == "Class" || t.obj == "Method") ==>
                  t.subject in ChangedByFacts(after.facts, workspace, t.scope, {p.sourceLocator}))
            && after.fts == db.fts + [FtsRow(NewFactId(p), workspace, t.scope, t.subject, t.pred, t.obj, t.text)]
            && t.episode in after.episodes
            && after.episodes[t.episode].sourceLocator == p.sourceLocator && after.episodes[t.episode].summary == t.text
            && after.episodes[t.episode].workspace == workspace && after.episodes[t.episode].scope == t.scope
            && after.episodes[t.episode].observedAt == t.observed
            && after.episodes[t.episode].createdAt == (if t.episode in db.episodes then db.episodes[t.episode].createdAt else approved)
            && (forall e :: e != t.episode ==> (e in after.episodes <==> e in db.episodes) && (e in db.episodes ==> after.episodes[e] == db.episodes[e]))
  {
    hide PlainId, Inv, Run, DraftFact, FingerprintQueued, SupersedeStep, GraphAsOf;
    PlainPrefix(p.id);
    FreshApproval(db, workspace, enqueued, approved, p);
    DraftColumns(workspace, enqueued, approved, p);
    ApprovedFact(db, workspace, enqueued, approved, p);
    var t := ToldBy(p, approved);
    var after := Run(db, OneProposal(workspace, enqueued, approved, p));
    JoinShowsFacts(after, workspace, t.scope, at);
    var n := after.facts[|db.facts|];
    assert n in after.facts;
    if at >= t.observed {
      assert Shows(n, workspace, t.scope, at);
      assert EdgeOfFact(n) in FactsAsOf(after.facts, workspace, t.scope, at);
    }
  }

  /** The derived rows of the new fact: its two entities and the edge between them. */
  lemma {:induction false} ApprovedEdge(db: Db, workspace: string, enqueued: Time, approved: Time, p: ProposalInput)
    requires Inv(db) && PlainId(p.id) && p.payload.kind == "fact"
    requires p.id !in db.queue && !FingerprintQueued(db.queue, workspace, FingerprintOf(workspace, p))
    ensures 4 <= |p.id|
    ensures var t := ToldBy(p, approved);
            var after := Run(db, OneProposal(workspace, enqueued, approved, p));
            var from, to := EntityId(workspace, t.scope, t.subject), EntityId(workspace, t.scope, t.obj);
            && from in after.entities && after.entities[from] == EntityRow(t.subject, FirstSeen(db, from, approved), approved)
            && to in after.entities && after.entities[to] == EntityRow(t.obj, FirstSeen(db, to, approved), approved)
            && (forall e :: e != from && e != to ==> (e in after.entities <==> e in db.entities) && (e in db.entities ==> after.entities[e] == db.entities[e]))
            && EdgeKey(workspace, t.scope, NewFactId(p)) in after.edges
            && after.edges[EdgeKey(workspace, t.scope, NewFactId(p))] == EdgeRow(from, to, t.pred, approved)
            && p.id in after.queue && after.queue[p.id].status.Applied? && after.queue[p.id].accepted == Some(true) && after.queue[p.id].attempts == 1
            && after.queue[p.id].sourceLocator == p.sourceLocator && after.queue[p.id].enqueuedAt == p.enqueuedAt
  {
    hide PlainId, Inv, Run, DraftFact, FingerprintQueued, SupersedeStep;
    PlainPrefix(p.id);
    FreshApproval(db, workspace, enqueued, approved, p);
    DraftColumns(workspace, enqueued, approved, p);
    EntityNames(db, workspace);
  }

  /** When an entity was first written, or the given time for a new one. */
  function FirstSeen(db: Db, e: EntityId, now: Time): Time {
    if e in db.entities then db.entities[e].createdAt else now
  }

  lemma {:induction false} EntityNames(db: Db, workspace: string)
    requires Inv(db)
    ensures forall e :: e in db.entities ==> db.entities[e].name == e.name
  {
    hide QueueInv, Provenance, Forest, EdgesAgree, EpisodesAgree, FtsAgrees, OneTruth;
  }

  // ---------------------------------------------------------------- bulk approval

  /** Each approval puts its fact behind those already there. */
  lemma {:induction false} ApprovedInTurn(db: Db, workspace: string, now: Time, ids: seq<string>)
    requires Inv(db) && ApplyAll(db, workspace, now, S.ApproveOps(ids)).Ok?
    ensures var facts := ApplyAll(db, workspace, now, S.ApproveOps(ids)).value.facts;
            && |facts| == |db.facts| + |ids|
            && (forall i :: 0 <= i < |db.facts| ==> facts[i].proposalId == db.facts[i].proposalId)
            && (forall k :: 0 <= k < |ids| ==> facts[|db.facts| + k].proposalId == ids[k])
    decreases |ids|
  {
    hide Inv, Approve, ApplyAll, S.ApproveOps;
    if ids == [] {
      assert S.ApproveOps(ids) == [];
      S.ApplyAllNone(db, workspace, now);
    } else {
      FirstApproval(db, workspace, now, ids);
      ApprovedInTurn(Approve(db, workspace, now, ids[0]).value, workspace, now, ids[1..]);
    }
  }

  lemma {:induction false} FirstApproval(db: Db, workspace: string, now: Time, ids: seq<string>)
    requires Inv(db) && ids != [] && ApplyAll(db, workspace, now, S.ApproveOps(ids)).Ok?
    ensures var first := Approve(db, workspace, now, ids[0]);
            && first.Ok? && Inv(first.value)
            && ApplyAll(first.value, workspace, now, S.ApproveOps(ids[1..])) == ApplyAll(db, workspace, now, S.ApproveOps(ids))
            && |first.value.facts| == |db.facts| + 1 && first.value.facts[|db.facts|].proposalId == ids[0]
            && forall i :: 0 <= i < |db.facts| ==> first.value.facts[i].proposalId == db.facts[i].proposalId
  {
    hide Inv, Approve, SupersedeStep, Approves;
    assert S.ApproveOps(ids)[1..] == S.ApproveOps(ids[1..]);
    ApproveShape(db, workspace, now, ids[0]);
    ApproveKeepsInv(db, workspace, now, ids[0]);
    SupersedeStepFrame(db.facts, NewFact(db, workspace, now, ids[0]), db.queue[ids[0]].payload, now);
  }

  /** A bulk approval writes its facts oldest proposal first, ties by id. */
  lemma {:induction false} BulkInOrder(db: Db, workspace: string, now: Time, ids: seq<string>)
    requires Inv(db) && S.InScanOrder(db.queue, ids) && ApplyAll(db, workspace, now, S.ApproveOps(ids)).Ok?
    ensures var facts := ApplyAll(db, workspace, now, S.ApproveOps(ids)).value.facts;
            && |facts| == |db.facts| + |ids|
            && forall i, j :: |db.facts| <= i < j < |facts| ==>
                 var a, b := facts[i].proposalId, facts[j].proposalId;
                 && a in db.queue && b in db.queue
                 && (db.queue[a].enqueuedAt < db.queue[b].enqueuedAt || (db.queue[a].enqueuedAt == db.queue[b].enqueuedAt && Less(a, b)))
  {
    hide Inv, ApplyAll, Less;
    ApprovedInTurn(db, workspace, now, ids);
    var facts := ApplyAll(db, workspace, now, S.ApproveOps(ids)).value.facts;
    forall i | |db.facts| <= i < |facts| ensures facts[i].proposalId == ids[i - |db.facts|] {
      assert facts[|db.facts| + (i - |db.facts|)].proposalId == ids[i - |db.facts|];
    }
  }

  // ---------------------------------------------------------------- enqueueing and rejecting

  /** A rejection takes the row out of `pending` for good and touches nothing else. */
  lemma {:induction false} RejectedRow(db: Db, workspace: string, now: Time, id: string)
    requires id in db.queue && db.queue[id].workspace == workspace && db.queue[id].status.Pending?
    ensures var after := Commit(db, Transaction(workspace, now, [RejectOp(id)]));
            && after == db.(queue := after.queue)
            && after.queue.Keys == db.queue.Keys && (forall x :: x in db.queue && x != id ==> after.queue[x] == db.queue[x])
            && after.queue[id].status.Applied? && after.queue[id].accepted == Some(false)
            && after.queue[id].attempts == db.queue[id].attempts + 1 && after.queue[id].updatedAt == now
            && after.queue[id].payload == db.queue[id].payload
  {
    SingleCommit(db, workspace, now, RejectOp(id));
  }

  lemma {:induction false} EnqueueRows(db: Db, workspace: string, now: Time, p: ProposalInput)
    ensures var r := Enqueue(db, workspace, now, p);
            var fingerprint := FingerprintOf(workspace, p);
            var known := exists id :: id in db.queue && db.queue[id].workspace == workspace && db.queue[id].fingerprint == fingerprint;
            && (r.Err? <==> !known && p.id in db.queue) && (r.Ok? ==> r.value == db.(queue := r.value.queue))
            && (known ==> r.value.queue.Keys == db.queue.Keys && forall id :: id in db.queue ==>
                  r.value.queue[id] == if db.queue[id].workspace == workspace && db.queue[id].fingerprint == fingerprint
                                       then db.queue[id].(updatedAt := now) else db.queue[id])
            && (!known && r.Ok? ==> r.value.queue == db.queue[p.id := NewRow(workspace, now, p)])
  {
    hide FingerprintOf, NewRow;
    assert FingerprintQueued(db.queue, workspace, FingerprintOf(workspace, p)) <==>
           exists id :: id in db.queue && db.queue[id].workspace == workspace && db.queue[id].fingerprint == FingerprintOf(workspace, p);
  }

  /** A repeated fingerprint only refreshes its row; a clash of ids alone changes nothing. */
  lemma {:induction false} EnqueuedTwice(db: Db, workspace: string, now: Time, p: ProposalInput)
    ensures var after := Commit(db, Transaction(workspace, now, [EnqueueOp(p)]));
            var fingerprint := FingerprintOf(workspace, p);
            var known := exists id :: id in db.queue && db.queue[id].workspace == workspace && db.queue[id].fingerprint == fingerprint;
            && after == db.(queue := after.queue)
            && (!known && p.id in db.queue ==> after == db)
            && (known ==> after.queue.Keys == db.queue.Keys && forall id :: id in db.queue ==>
                  after.queue[id] == if db.queue[id].workspace == workspace && db.queue[id].fingerprint == fingerprint
                                     then db.queue[id].(updatedAt := now) else db.queue[id])
            && (!known && p.id !in db.queue ==>
                  after.queue == db.queue[p.id := ProposalRow(workspace, fingerprint, p.sourceLocator, p.sourceHash, Pending, 0, p.payload,
                                                              None, p.enqueuedAt, now)])
  {
    hide Approve, Enqueue, FingerprintOf, ApplyAll;
    SingleCommit(db, workspace, now, EnqueueOp(p));
    EnqueueRows(db, workspace, now, p);
  }

  /** A fingerprint is the workspace, the source, its hash and the whole payload. */
  lemma {:induction false} FingerprintParts(workspace: string, p: ProposalInput, q: ProposalInput)
    ensures FingerprintOf(workspace, p) == FingerprintOf(workspace, q) <==>
            p.sourceLocator == q.sourceLocator && p.sourceHash == q.sourceHash && p.payload == q.payload
  {
  }
}
