/**
 What every reachable database satisfies: the link between queue and facts, the supersession
 forest, and the agreement of the derived tables with the facts.
 */
module StoreInvariants {
  import opened Wrappers
  import opened StoreModel

  // ---------------------------------------------------------------- fact ids

  lemma {:induction false} PlainTrim(id: string)
    requires PlainId(id)
    ensures TrimPrefix(id) == id[4..]
  {
    var tail := id[4..];
    assert TrimPrefix(tail) == tail;
  }

  /** Among ids that carry the prefix once, distinct proposals get distinct facts. */
  lemma {:induction false} FactIdInjective(a: string, b: string)
    requires PlainId(a) && PlainId(b)
    ensures FactIdOf(a) == FactIdOf(b) <==> a == b
  {
    PlainTrim(a);
    PlainTrim(b);
    if FactIdOf(a) == FactIdOf(b) {
      var n := |"memfact_"|;
      assert FactIdOf(a)[n..] == a[4..] && FactIdOf(b)[n..] == b[4..];
      assert a == a[..4] + a[4..] && b == b[..4] + b[4..];
    }
  }

  lemma {:induction false} TrimShortens(id: string)
    ensures |TrimPrefix(id)| <= |id| && (PROPOSAL_PREFIX <= id ==> |TrimPrefix(id)| <= |id| - 4)
    decreases |id|
  {
    if PROPOSAL_PREFIX <= id {
      TrimShortens(id[4..]);
    }
  }

  /** Two queue ids share a fact id exactly when they differ in the number of prefixes only. */
  lemma {:induction false} FactIdsAgree(a: string, b: string)
    requires QueueId(a) && QueueId(b)
    ensures FactIdOf(a) == FactIdOf(b) <==> TrimPrefix(a) == TrimPrefix(b)
  {
    hide TrimPrefix, IsIdChar;
    TrimShortens(a);
    TrimShortens(b);
    var n := |"memfact_"|;
    assert FactIdOf(a)[n..] == TrimPrefix(a) && FactIdOf(b)[n..] == TrimPrefix(b);
  }

  /** A shorter queue id has the same fact id. */
  ghost predicate HasShorterTwin(a: string) {
    exists b :: QueueId(b) && |b| < |a| && FactIdOf(b) == FactIdOf(a)
  }

  lemma {:induction false} TrimOfShort(a: string, b: string)
    requires QueueId(a) && QueueId(b)
    ensures PROPOSAL_PREFIX <= a[4..] && |a| == 8 ==> TrimPrefix(a) == ""
    ensures |b| < 8 ==> TrimPrefix(b) == b[4..] != ""
  {
    if |b| < 8 {
      PlainTrim(b);
    }
    if PROPOSAL_PREFIX <= a[4..] && |a| == 8 {
      assert a[4..][4..] == "";
      assert TrimPrefix(a[4..]) == TrimPrefix(a[4..][4..]);
    }
  }

  /** A queue id collides with a shorter one if and only if its prefix is doubled in front of more text. */
  lemma {:induction false} FactIdCollidesIff(a: string)
    requires QueueId(a)
    ensures HasShorterTwin(a) <==> PROPOSAL_PREFIX <= a[4..] && |a| > 8
  {
    hide FactIdOf;
    if PROPOSAL_PREFIX <= a[4..] && |a| > 8 {
      var b := a[4..];
      assert forall i :: 4 <= i < |b| ==> b[i] == a[i + 4];
      assert QueueId(b);
      FactIdsAgree(a, b);
    }
    if HasShorterTwin(a) {
      var b :| QueueId(b) && |b| < |a| && FactIdOf(b) == FactIdOf(a);
      FactIdsAgree(a, b);
      TrimShortens(b);
      TrimOfShort(a, b);
      if !(PROPOSAL_PREFIX <= a[4..]) {
        PlainTrim(a);
      }
    }
  }

  /** The ids that the writers build carry the prefix once. */
  lemma {:induction false} BuiltIdsArePlain(digits: string)
    requires |digits| == 32 && forall i :: 0 <= i < 32 ==> '0' <= digits[i] <= '9' || 'a' <= digits[i] <= 'f'
    ensures PlainId("mpq_" + digits) && PlainId("mpq_semantic_" + digits)
  {
    var a, b := "mpq_" + digits, "mpq_semantic_" + digits;
    assert a[4] == digits[0] && a[4..][0] == a[4];
    assert b[4..][0] == 's';
  }

  /** An instance: both ids are accepted by the queue. */
  lemma {:induction false} DoubledPrefixCollides()
    ensures QueueId("mpq_a") && QueueId("mpq_mpq_a") && FactIdOf("mpq_mpq_a") == FactIdOf("mpq_a") && "mpq_mpq_a" != "mpq_a"
  {
    assert "mpq_mpq_a"[4..] == "mpq_a";
    assert "mpq_a"[4..] == "a";
  }

  // ---------------------------------------------------------------- invariants

  predicate SameFingerprint(r: ProposalRow, s: ProposalRow) {
    r.workspace == s.workspace && r.fingerprint == s.fingerprint
  }

  ghost predicate QueueInv(queue: map<string, ProposalRow>) {
    && (forall id :: id in queue ==> PlainId(id))
    && (forall a, b :: a in queue && b in queue && SameFingerprint(queue[a], queue[b]) ==> a == b)
    && (forall id :: id in queue ==> (queue[id].status.Pending? <==> queue[id].accepted.None?))
  }

  /** Everything but the four columns that supersession writes. */
  predicate SameIdentity(f: Fact, g: Fact) {
    f == g.(status := f.status, validUntil := f.validUntil, supersededBy := f.supersededBy, updatedAt := f.updatedAt)
  }

  /** `f` is what approving `row` wrote. */
  predicate Approves(row: ProposalRow, f: Fact) {
    && row.accepted == Some(true)
    && row.workspace == f.workspace
    && row.payload.kind == "fact"
    && f.id == FactIdOf(f.proposalId)
    && SameIdentity(f, DraftFact(f.workspace, f.createdAt, f.proposalId, row))
  }

  ghost predicate Provenance(queue: map<string, ProposalRow>, facts: seq<Fact>) {
    && (forall i :: 0 <= i < |facts| ==> facts[i].proposalId in queue && Approves(queue[facts[i].proposalId], facts[i]))
    && (forall i, j :: 0 <= i < j < |facts| ==> facts[i].proposalId != facts[j].proposalId)
    && (forall id {:trigger WritesFact(facts, id)} ::
          id in queue && queue[id].accepted == Some(true) ==> WritesFact(facts, id))
  }

  predicate WritesFact(facts: seq<Fact>, id: string) {
    exists i :: 0 <= i < |facts| && facts[i].proposalId == id
  }

  /** `later` is the fact that superseded `f`. */
  predicate SupersededByFact(f: Fact, later: Fact) {
    && f.supersededBy == Some(later.id)
    && f.validUntil == Some(later.validFrom)
    && KeyOf(f) == KeyOf(later)
  }

  predicate HasSuccessor(facts: seq<Fact>, i: nat)
    requires i < |facts|
  {
    exists j :: i < j < |facts| && SupersededByFact(facts[i], facts[j])
  }

  ghost predicate Forest(facts: seq<Fact>) {
    && (forall i :: 0 <= i < |facts| ==>
          && (facts[i].status.Superseded? <==> facts[i].supersededBy.Some?)
          && (facts[i].status.Superseded? <==> facts[i].validUntil.Some?))
    && (forall i {:trigger HasSuccessor(facts, i)} ::
          0 <= i < |facts| && facts[i].status.Superseded? ==> HasSuccessor(facts, i))
  }

  predicate HasEdgeKey(facts: seq<Fact>, k: EdgeKey) {
    exists i :: 0 <= i < |facts| && EdgeKeyOf(facts[i]) == k
  }

  ghost predicate EdgesAgree(edges: map<EdgeKey, EdgeRow>, facts: seq<Fact>) {
    && (forall i :: 0 <= i < |facts| ==>
          EdgeKeyOf(facts[i]) in edges
          && edges[EdgeKeyOf(facts[i])] ==
             EdgeRow(SubjectEntity(facts[i]), ObjectEntity(facts[i]), facts[i].pred, facts[i].createdAt))
    && (forall k {:trigger HasEdgeKey(facts, k)} :: k in edges ==> HasEdgeKey(facts, k))
  }

  predicate Mentions(f: Fact, e: EntityId) {
    e == SubjectEntity(f) || e == ObjectEntity(f)
  }

  predicate Mentioned(facts: seq<Fact>, e: EntityId) {
    exists i :: 0 <= i < |facts| && Mentions(facts[i], e)
  }

  ghost predicate EntitiesAgree(entities: map<EntityId, EntityRow>, facts: seq<Fact>) {
    && (forall i :: 0 <= i < |facts| ==> SubjectEntity(facts[i]) in entities && ObjectEntity(facts[i]) in entities)
    && (forall e :: e in entities ==> entities[e].name == e.name)
    && (forall e {:trigger Mentioned(facts, e)} :: e in entities ==> Mentioned(facts, e))
  }

  predicate EpisodeUsed(facts: seq<Fact>, episodeId: string) {
    exists i :: 0 <= i < |facts| && facts[i].episodeId == episodeId
  }

  ghost predicate EpisodesAgree(episodes: map<string, EpisodeRow>, facts: seq<Fact>) {
    && (forall i :: 0 <= i < |facts| ==> facts[i].episodeId in episodes)
    && (forall e {:trigger EpisodeUsed(facts, e)} :: e in episodes ==> EpisodeUsed(facts, e))
  }

  /** One full-text row per fact, in step with it. */
  ghost predicate FtsAgrees(fts: seq<FtsRow>, facts: seq<Fact>) {
    && |fts| == |facts|
    && forall i :: 0 <= i < |facts| ==> fts[i] == FtsOf(facts[i])
  }

  predicate Blanket(payload: Payload) {
    payload.supersedes && payload.supersedesObject.None?
  }

  /** Every fact of the key was approved with blanket supersession. */
  ghost predicate AllBlanket(queue: map<string, ProposalRow>, facts: seq<Fact>, k: Key) {
    forall i :: 0 <= i < |facts| && KeyOf(facts[i]) == k ==>
      facts[i].proposalId in queue && Blanket(queue[facts[i].proposalId].payload)
  }

  predicate ActiveIn(f: Fact, k: Key) {
    KeyOf(f) == k && f.status.Active?
  }

  ghost predicate OneObject(facts: seq<Fact>, k: Key) {
    forall i, j :: 0 <= i < |facts| && 0 <= j < |facts| && ActiveIn(facts[i], k) && ActiveIn(facts[j], k) ==>
      facts[i].obj == facts[j].obj
  }

  ghost predicate OneTruth(queue: map<string, ProposalRow>, facts: seq<Fact>, k: Key) {
    AllBlanket(queue, facts, k) ==> OneObject(facts, k)
  }

  ghost predicate OneTruthPerKey(queue: map<string, ProposalRow>, facts: seq<Fact>) {
    forall k {:trigger OneTruth(queue, facts, k)} :: OneTruth(queue, facts, k)
  }

  ghost predicate Inv(db: Db) {
    && QueueInv(db.queue)
    && Provenance(db.queue, db.facts)
    && Forest(db.facts)
    && EdgesAgree(db.edges, db.facts)
    && EntitiesAgree(db.entities, db.facts)
    && EpisodesAgree(db.episodes, db.facts)
    && FtsAgrees(db.fts, db.facts)
    && OneTruthPerKey(db.queue, db.facts)
  }

  // ---------------------------------------------------------------- consequences

  /** Fact ids are a key of the table. */
  lemma {:induction false} FactIdsDistinct(db: Db, i: nat, j: nat)
    requires Inv(db) && i < |db.facts| && j < |db.facts|
    ensures db.facts[i].id == db.facts[j].id <==> i == j
  {
    hide FactIdOf, EpisodeIdOf, PlainId;
    var f, g := db.facts[i], db.facts[j];
    assert Approves(db.queue[f.proposalId], f) && Approves(db.queue[g.proposalId], g);
    FactIdInjective(f.proposalId, g.proposalId);
  }

  /** A pending proposal has no fact yet: the ON CONFLICT(id) branch of the fact insert is dead. */
  lemma {:induction false} PendingHasNoFact(db: Db, workspace: string, id: string)
    requires Inv(db) && PendingIn(db, workspace, id)
    ensures !HasFact(db.facts, FactIdOf(id))
    ensures !WritesFact(db.facts, id)
  {
    hide FactIdOf, EpisodeIdOf, PlainId;
    forall i | 0 <= i < |db.facts|
      ensures db.facts[i].id != FactIdOf(id) && db.facts[i].proposalId != id
    {
      var f := db.facts[i];
      assert Approves(db.queue[f.proposalId], f);
      assert f.proposalId != id;
      FactIdInjective(f.proposalId, id);
    }
  }

  lemma {:induction false} DeleteFtsNoop(fts: seq<FtsRow>, workspace: string, id: string)
    requires forall i :: 0 <= i < |fts| ==> fts[i].id != id
    ensures DeleteFts(fts, workspace, id) == fts
  {
    if fts != [] {
      DeleteFtsNoop(fts[1..], workspace, id);
      assert fts == [fts[0]] + fts[1..];
    }
  }

  /** The fact that approving `id` writes. */
  function NewFact(db: Db, workspace: string, now: Time, id: string): Fact
    requires id in db.queue
  {
    DraftFact(workspace, now, id, db.queue[id])
  }

  /** What an approval that writes `n` does to the tables, with the dead branches gone. */
  ghost predicate Approval(db: Db, db': Db, now: Time, id: string, n: Fact) {
    && id in db.queue
    && db.queue[id].status.Pending?
    && var row := db.queue[id];
       var row' := row.(status := Applied, attempts := row.attempts + 1, accepted := Some(true), updatedAt := now);
    && db'.queue == db.queue[id := row']
    && Approves(row', n)
    && n.proposalId == id
    && n.status.Active? && n.supersededBy.None? && n.validUntil.None? && n.createdAt == n.updatedAt == now
    && !HasFact(db.facts, n.id)
    && !WritesFact(db.facts, id)
    && EdgeKeyOf(n) !in db.edges
    && db'.facts == SupersedeStep(db.facts, n, row.payload, now) + [n]
    && db'.edges == UpsertEdge(db.edges, n, now)
    && db'.entities == UpsertEntity(UpsertEntity(db.entities, SubjectEntity(n), now), ObjectEntity(n), now)
    && db'.episodes == UpsertEpisode(db.episodes, n, now)
    && db'.fts == db.fts + [FtsOf(n)]
  }

  lemma {:induction false} WriteFactShape(db: Db, now: Time, n: Fact, payload: Payload)
    requires !HasFact(db.facts, n.id)
    requires forall i :: 0 <= i < |db.fts| ==> db.fts[i].id != n.id
    ensures var db' := WriteFact(db, now, n, payload);
            && db'.facts == SupersedeStep(db.facts, n, payload, now) + [n]
            && db'.fts == db.fts + [FtsOf(n)]
  {
    var retired := SupersedeStep(db.facts, n, payload, now);
    assert forall i :: 0 <= i < |retired| ==> retired[i].id == db.facts[i].id;
    assert !HasFact(retired, n.id);
    DeleteFtsNoop(db.fts, n.workspace, n.id);
  }

  lemma {:induction false} ApproveShape(db: Db, workspace: string, now: Time, id: string)
    requires Inv(db) && Approve(db, workspace, now, id).Ok?
    ensures PendingIn(db, workspace, id)
    ensures Approval(db, Approve(db, workspace, now, id).value, now, id, NewFact(db, workspace, now, id))
  {
    hide FactIdOf, EpisodeIdOf, PlainId;
    PendingHasNoFact(db, workspace, id);
    var claimed := Claim(db, workspace, now, id, true).value;
    var n := NewFact(db, workspace, now, id);
    assert DraftFact(workspace, now, id, claimed.queue[id]) == n;
    assert forall i :: 0 <= i < |db.fts| ==> db.fts[i].id == db.facts[i].id != n.id;
    WriteFactShape(claimed, now, n, db.queue[id].payload);
    assert HasEdgeKey(db.facts, EdgeKeyOf(n)) ==> HasFact(db.facts, n.id);
  }

  // ---------------------------------------------------------------- preservation

  lemma {:induction false} QueueAfterTouch(queue: map<string, ProposalRow>, workspace: string, now: Time, fingerprint: Fingerprint)
    requires QueueInv(queue)
    ensures QueueInv(Touch(queue, workspace, now, fingerprint))
  {
    hide PlainId;
  }

  lemma {:induction false} QueueAfterInsert(queue: map<string, ProposalRow>, workspace: string, now: Time, p: ProposalInput)
    requires QueueInv(queue) && PlainId(p.id) && p.id !in queue
    requires !FingerprintQueued(queue, workspace, FingerprintOf(workspace, p))
    ensures QueueInv(queue[p.id := NewRow(workspace, now, p)])
  {
    hide PlainId;
    assert forall id :: id in queue ==> !HasFingerprint(queue[id], workspace, FingerprintOf(workspace, p));
  }

  lemma {:induction false} QueueAfterEnqueue(db: Db, workspace: string, now: Time, p: ProposalInput)
    requires QueueInv(db.queue) && PlainId(p.id) && Enqueue(db, workspace, now, p).Ok?
    ensures var db' := Enqueue(db, workspace, now, p).value;
            && QueueInv(db'.queue)
            && db' == db.(queue := db'.queue)
            && (forall id :: id in db.queue ==> id in db'.queue && SameButUpdated(db.queue[id], db'.queue[id]))
            && (forall id :: id in db'.queue && id !in db.queue ==> db'.queue[id].status.Pending?)
  {
    hide PlainId, QueueInv;
    if FingerprintQueued(db.queue, workspace, FingerprintOf(workspace, p)) {
      QueueAfterTouch(db.queue, workspace, now, FingerprintOf(workspace, p));
    } else {
      QueueAfterInsert(db.queue, workspace, now, p);
    }
  }

  predicate SameButUpdated(r: ProposalRow, r': ProposalRow) {
    r' == r.(updatedAt := r'.updatedAt)
  }

  lemma {:induction false} EnqueueKeepsInv(db: Db, workspace: string, now: Time, p: ProposalInput)
    requires Inv(db) && PlainId(p.id) && Enqueue(db, workspace, now, p).Ok?
    ensures Inv(Enqueue(db, workspace, now, p).value)
  {
    hide PlainId, DraftFact, FactIdOf, Enqueue, QueueInv;
    var db' := Enqueue(db, workspace, now, p).value;
    QueueAfterEnqueue(db, workspace, now, p);
    PendingNotAccepted(db'.queue);
    forall i | 0 <= i < |db.facts|
      ensures Approves(db'.queue[db.facts[i].proposalId], db.facts[i])
    {
      ApprovesFrame(db.queue[db.facts[i].proposalId], db'.queue[db.facts[i].proposalId], db.facts[i]);
    }
    forall id | id in db'.queue && db'.queue[id].accepted == Some(true)
      ensures WritesFact(db.facts, id)
    {
      assert id in db.queue && SameButUpdated(db.queue[id], db'.queue[id]);
    }
    OneTruthFrame(db.queue, db'.queue, db.facts);
  }

  lemma {:induction false} OneTruthFrame(queue: map<string, ProposalRow>, queue': map<string, ProposalRow>, facts: seq<Fact>)
    requires OneTruthPerKey(queue, facts)
    requires forall id :: id in queue ==> id in queue' && queue'[id].payload == queue[id].payload
    requires forall i :: 0 <= i < |facts| ==> facts[i].proposalId in queue
    ensures OneTruthPerKey(queue', facts)
  {
    forall k ensures OneTruth(queue', facts, k) {
      assert OneTruth(queue, facts, k);
    }
  }

  lemma {:induction false} PendingNotAccepted(queue: map<string, ProposalRow>)
    requires QueueInv(queue)
    ensures forall id :: id in queue && queue[id].status.Pending? ==> queue[id].accepted.None?
  {
  }

  lemma {:induction false} ApprovesFrame(r: ProposalRow, r': ProposalRow, f: Fact)
    requires Approves(r, f) && SameButUpdated(r, r')
    ensures Approves(r', f)
  {
    hide FactIdOf, EpisodeIdOf;
  }

  lemma {:induction false} QueueAfterClaim(db: Db, workspace: string, now: Time, id: string, accepted: bool)
    requires QueueInv(db.queue) && PendingIn(db, workspace, id)
    ensures QueueInv(Claim(db, workspace, now, id, accepted).value.queue)
  {
    hide PlainId;
  }

  lemma {:induction false} RejectKeepsInv(db: Db, workspace: string, now: Time, id: string)
    requires Inv(db) && Reject(db, workspace, now, id).Ok?
    ensures Inv(Reject(db, workspace, now, id).value)
  {
    hide QueueInv, Approves, EdgesAgree, EntitiesAgree, EpisodesAgree, FtsAgrees, Forest, OneTruth;
    var db' := Reject(db, workspace, now, id).value;
    PendingHasNoFact(db, workspace, id);
    QueueAfterClaim(db, workspace, now, id, false);
    OneTruthFrame(db.queue, db'.queue, db.facts);
  }

  lemma {:induction false} SupersedeStepFrame(facts: seq<Fact>, n: Fact, payload: Payload, now: Time)
    ensures var r := SupersedeStep(facts, n, payload, now);
            && |r| == |facts|
            && forall i :: 0 <= i < |facts| ==>
                 && SameIdentity(r[i], facts[i])
                 && (r[i] == facts[i] || (r[i] == Retire(facts[i], n, now) && IsSuperseded(facts[i], n, payload.supersedesObject)))
  {
  }

  lemma {:induction false} ForestAfterApprove(facts: seq<Fact>, n: Fact, payload: Payload, now: Time)
    requires Forest(facts)
    requires n.status.Active? && n.supersededBy.None? && n.validUntil.None?
    ensures Forest(SupersedeStep(facts, n, payload, now) + [n])
  {
    hide SupersedeStep;
    var r := SupersedeStep(facts, n, payload, now);
    var facts' := r + [n];
    SupersedeStepFrame(facts, n, payload, now);
    forall i | 0 <= i < |facts'| && facts'[i].status.Superseded?
      ensures HasSuccessor(facts', i)
    {
      if r[i] == facts[i] {
        assert HasSuccessor(facts, i);
        var j :| i < j < |facts| && SupersededByFact(facts[i], facts[j]);
        assert SameIdentity(r[j], facts[j]);
        assert SupersededByFact(facts'[i], facts'[j]);
      } else {
        assert SupersededByFact(facts'[i], facts'[|facts|]);
      }
    }
  }

  /** `facts'` extends `facts` by `n`, and changes no column that supersession does not write. */
  ghost predicate Extends(facts: seq<Fact>, facts': seq<Fact>, n: Fact) {
    && |facts'| == |facts| + 1
    && facts'[|facts|] == n
    && forall i :: 0 <= i < |facts| ==> SameIdentity(facts'[i], facts[i])
  }

  lemma {:induction false} ApprovalExtends(db: Db, db': Db, now: Time, id: string, n: Fact)
    requires Approval(db, db', now, id, n)
    ensures Extends(db.facts, db'.facts, n)
  {
    hide FactIdOf, SupersedeStep, Approves;
    SupersedeStepFrame(db.facts, n, db.queue[id].payload, now);
  }

  lemma {:induction false} QueueAfterApprove(db: Db, db': Db, now: Time, id: string, n: Fact)
    requires QueueInv(db.queue) && Approval(db, db', now, id, n)
    ensures QueueInv(db'.queue)
  {
    hide PlainId, Approves, SupersedeStep;
  }

  lemma {:induction false} ProvenanceAfterApprove(queue: map<string, ProposalRow>, queue': map<string, ProposalRow>, id: string,
                               facts: seq<Fact>, facts': seq<Fact>, n: Fact)
    requires Provenance(queue, facts) && Extends(facts, facts', n)
    requires id in queue' && queue' == queue[id := queue'[id]]
    requires Approves(queue'[id], n) && n.proposalId == id && !WritesFact(facts, id)
    ensures Provenance(queue', facts')
  {
    hide Approves;
    forall i | 0 <= i < |facts|
      ensures facts'[i].proposalId == facts[i].proposalId != id
      ensures Approves(queue[facts[i].proposalId], facts'[i])
    {
      assert SameIdentity(facts'[i], facts[i]);
      ApprovesIdentity(queue[facts[i].proposalId], facts[i], facts'[i]);
    }
    forall k | k in queue' && queue'[k].accepted == Some(true)
      ensures WritesFact(facts', k)
    {
      if k == id {
        assert facts'[|facts|].proposalId == k;
      } else {
        assert WritesFact(facts, k);
        var i :| 0 <= i < |facts| && facts[i].proposalId == k;
        assert facts'[i].proposalId == k;
      }
    }
  }

  lemma {:induction false} ApprovesIdentity(r: ProposalRow, f: Fact, g: Fact)
    requires Approves(r, f) && SameIdentity(g, f)
    ensures Approves(r, g)
  {
    hide FactIdOf, EpisodeIdOf;
  }

  lemma {:induction false} EdgesAfterApprove(edges: map<EdgeKey, EdgeRow>, facts: seq<Fact>, facts': seq<Fact>, n: Fact, now: Time)
    requires EdgesAgree(edges, facts) && Extends(facts, facts', n)
    requires EdgeKeyOf(n) !in edges && n.createdAt == now
    ensures EdgesAgree(UpsertEdge(edges, n, now), facts')
  {
    var edges' := UpsertEdge(edges, n, now);
    forall i | 0 <= i < |facts|
      ensures EdgeKeyOf(facts'[i]) == EdgeKeyOf(facts[i])
    {
      assert SameIdentity(facts'[i], facts[i]);
    }
    forall k | k in edges' ensures HasEdgeKey(facts', k) {
      if k in edges {
        assert HasEdgeKey(facts, k);
        var i :| 0 <= i < |facts| && EdgeKeyOf(facts[i]) == k;
        assert EdgeKeyOf(facts'[i]) == k;
      } else {
        assert EdgeKeyOf(facts'[|facts|]) == k;
      }
    }
  }

  lemma {:induction false} UpsertEntityAdds(entities: map<EntityId, EntityRow>, e: EntityId, now: Time)
    requires forall x :: x in entities ==> entities[x].name == x.name
    ensures var entities' := UpsertEntity(entities, e, now);
            && entities'.Keys == entities.Keys + {e}
            && forall x :: x in entities' ==> entities'[x].name == x.name
  {
  }

  lemma {:induction false} MentionedAfterApprove(facts: seq<Fact>, facts': seq<Fact>, n: Fact, e: EntityId)
    requires Extends(facts, facts', n)
    requires Mentioned(facts, e) || Mentions(n, e)
    ensures Mentioned(facts', e)
  {
    if Mentioned(facts, e) {
      var i :| 0 <= i < |facts| && Mentions(facts[i], e);
      assert SameIdentity(facts'[i], facts[i]);
      assert Mentions(facts'[i], e);
    } else {
      assert Mentions(facts'[|facts|], e);
    }
  }

  lemma {:induction false} EntitiesAfterApprove(entities: map<EntityId, EntityRow>, facts: seq<Fact>, facts': seq<Fact>, n: Fact, now: Time)
    requires EntitiesAgree(entities, facts) && Extends(facts, facts', n)
    ensures EntitiesAgree(UpsertEntity(UpsertEntity(entities, SubjectEntity(n), now), ObjectEntity(n), now), facts')
  {
    hide UpsertEntity, Mentioned;
    var entities' := UpsertEntity(UpsertEntity(entities, SubjectEntity(n), now), ObjectEntity(n), now);
    UpsertEntityAdds(entities, SubjectEntity(n), now);
    UpsertEntityAdds(UpsertEntity(entities, SubjectEntity(n), now), ObjectEntity(n), now);
    forall e | e in entities' ensures Mentioned(facts', e) {
      assert e in entities ==> Mentioned(facts, e);
      MentionedAfterApprove(facts, facts', n, e);
    }
    forall i | 0 <= i < |facts'|
      ensures SubjectEntity(facts'[i]) in entities' && ObjectEntity(facts'[i]) in entities'
    {
      if i < |facts| {
        assert SameIdentity(facts'[i], facts[i]);
      }
    }
  }

  lemma {:induction false} EpisodesAfterApprove(episodes: map<string, EpisodeRow>, facts: seq<Fact>, facts': seq<Fact>, n: Fact, now: Time)
    requires EpisodesAgree(episodes, facts) && Extends(facts, facts', n)
    ensures EpisodesAgree(UpsertEpisode(episodes, n, now), facts')
  {
    var episodes' := UpsertEpisode(episodes, n, now);
    forall e | e in episodes' ensures EpisodeUsed(facts', e) {
      if e in episodes {
        assert EpisodeUsed(facts, e);
        var i :| 0 <= i < |facts| && facts[i].episodeId == e;
        assert SameIdentity(facts'[i], facts[i]);
        assert facts'[i].episodeId == e;
      } else {
        assert facts'[|facts|].episodeId == e;
      }
    }
    forall i | 0 <= i < |facts'| ensures facts'[i].episodeId in episodes' {
      if i < |facts| {
        assert SameIdentity(facts'[i], facts[i]);
      }
    }
  }

  lemma {:induction false} FtsAfterApprove(fts: seq<FtsRow>, facts: seq<Fact>, facts': seq<Fact>, n: Fact)
    requires FtsAgrees(fts, facts) && Extends(facts, facts', n)
    ensures FtsAgrees(fts + [FtsOf(n)], facts')
  {
    forall i | 0 <= i < |facts| ensures FtsOf(facts'[i]) == FtsOf(facts[i]) {
      assert SameIdentity(facts'[i], facts[i]);
    }
  }

  /** A blanket approval leaves only its own object active. */
  lemma {:induction false} OneTruthAfterApprove(db: Db, db': Db, now: Time, id: string, n: Fact, k: Key)
    requires Inv(db) && Approval(db, db', now, id, n) && AllBlanket(db'.queue, db'.facts, k)
    ensures OneObject(db'.facts, k)
  {
    hide FactIdOf, PlainId, Approves, EdgesAgree, EntitiesAgree, EpisodesAgree, FtsAgrees, QueueInv;
    assert OneTruth(db.queue, db.facts, k);
    SupersedeStepFrame(db.facts, n, db.queue[id].payload, now);
    forall i | 0 <= i < |db.facts|
      ensures KeyOf(db'.facts[i]) == KeyOf(db.facts[i]) && db'.facts[i].obj == db.facts[i].obj
      ensures db'.facts[i].proposalId == db.facts[i].proposalId != id
      ensures db'.facts[i].status.Active? ==> db'.facts[i] == db.facts[i]
    {
      assert SameIdentity(db'.facts[i], db.facts[i]);
    }
    assert AllBlanket(db.queue, db.facts, k);
    if KeyOf(n) == k {
      assert db'.facts[|db.facts|] == n;
      assert Blanket(db.queue[id].payload);
      forall i | 0 <= i < |db.facts| && ActiveIn(db'.facts[i], k) ensures db'.facts[i].obj == n.obj {
        assert !IsSuperseded(db.facts[i], n, None);
      }
    }
  }

  lemma {:induction false} OneTruthFromImplication(db: Db, db': Db, now: Time, id: string, n: Fact, k: Key)
    requires Inv(db) && Approval(db, db', now, id, n)
    ensures OneTruth(db'.queue, db'.facts, k)
  {
    hide Inv, Approval, AllBlanket, OneObject;
    if AllBlanket(db'.queue, db'.facts, k) {
      OneTruthAfterApprove(db, db', now, id, n, k);
    }
  }

  lemma {:induction false} ApproveKeepsInv(db: Db, workspace: string, now: Time, id: string)
    requires Inv(db) && Approve(db, workspace, now, id).Ok?
    ensures Inv(Approve(db, workspace, now, id).value)
  {
    hide Approve, DraftFact, QueueInv, Provenance, EdgesAgree, EntitiesAgree, EpisodesAgree, FtsAgrees, Forest, Approves, Extends,
      OneTruth;
    ApproveShape(db, workspace, now, id);
    var db', n := Approve(db, workspace, now, id).value, NewFact(db, workspace, now, id);
    ApprovalExtends(db, db', now, id, n);
    QueueAfterApprove(db, db', now, id, n);
    ProvenanceAfterApprove(db.queue, db'.queue, id, db.facts, db'.facts, n);
    ForestAfterApprove(db.facts, n, db.queue[id].payload, now);
    EdgesAfterApprove(db.edges, db.facts, db'.facts, n, now);
    EntitiesAfterApprove(db.entities, db.facts, db'.facts, n, now);
    EpisodesAfterApprove(db.episodes, db.facts, db'.facts, n, now);
    FtsAfterApprove(db.fts, db.facts, db'.facts, n);
    forall k ensures OneTruth(db'.queue, db'.facts, k) {
      OneTruthFromImplication(db, db', now, id, n, k);
    }
  }

  lemma {:induction false} OpKeepsInv(db: Db, workspace: string, now: Time, op: Op)
    requires Inv(db) && BuiltOp(op) && Apply(db, workspace, now, op).Ok?
    ensures Inv(Apply(db, workspace, now, op).value)
  {
    match op
    case EnqueueOp(p) => EnqueueKeepsInv(db, workspace, now, p);
    case ApproveOp(id) => ApproveKeepsInv(db, workspace, now, id);
    case RejectOp(id) => RejectKeepsInv(db, workspace, now, id);
  }

  lemma {:induction false} OpsKeepInv(db: Db, workspace: string, now: Time, ops: seq<Op>)
    requires Inv(db) && forall i :: 0 <= i < |ops| ==> BuiltOp(ops[i])
    requires ApplyAll(db, workspace, now, ops).Ok?
    ensures Inv(ApplyAll(db, workspace, now, ops).value)
    decreases |ops|
  {
    if ops != [] {
      OpKeepsInv(db, workspace, now, ops[0]);
      OpsKeepInv(Apply(db, workspace, now, ops[0]).value, workspace, now, ops[1..]);
    }
  }

  lemma {:induction false} EmptyInv()
    ensures Inv(EMPTY_DB)
  {
  }
}
