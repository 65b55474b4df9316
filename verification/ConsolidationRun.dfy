/**
 From candidates to approved facts: the plan of `memory_consolidate`, its batch through
 `remember_batch`, and the approval of what was queued.
 */
module ConsolidationRun {
  import opened Wrappers
  import opened StoreModel
  import opened StoreInvariants
  import opened Consolidation
  import S = StoreClient

  // ---------------------------------------------------------------- the batch

  /** The batch entry built for a planned proposal, with nothing normalised away. */
  ghost predicate BuiltFor(workspace: string, item: S.BatchItem, p: Planned) {
    && item.Safe? && PlainId(item.proposal.id) && item.proposal.payload.kind == "fact"
    && S.Triple(item) == (p.key.subject, p.key.pred, p.obj)
    && PlannedOf(NewRow(workspace, 0, item.proposal)) == p
  }

  ghost predicate AllSafe(items: seq<S.BatchItem>) {
    forall i :: 0 <= i < |items| ==> items[i].Safe?
  }

  /** Ids and fingerprints are digests: they differ where subject, predicate or object do. */
  ghost predicate DigestsDiffer(workspace: string, items: seq<S.BatchItem>) {
    AllSafe(items) && forall i, j :: 0 <= i < |items| && 0 <= j < |items| && S.Triple(items[i]) != S.Triple(items[j]) ==>
      Apart(workspace, items[i].proposal, items[j].proposal)
  }

  predicate Apart(workspace: string, p: ProposalInput, q: ProposalInput) {
    p.id != q.id && FingerprintOf(workspace, p) != FingerprintOf(workspace, q)
  }

  predicate FreshIn(queue: map<string, ProposalRow>, workspace: string, p: ProposalInput) {
    p.id !in queue && !FingerprintQueued(queue, workspace, FingerprintOf(workspace, p))
  }

  // ---------------------------------------------------------------- what de-duplication keeps

  /** `p` was kept for an entry whose triple had not been seen. */
  ghost predicate KeptFrom(items: seq<S.BatchItem>, seen: set<(string, string, string)>, p: ProposalInput) {
    exists i :: 0 <= i < |items| && items[i].Safe? && items[i].proposal == p && S.Triple(items[i]) !in seen
  }

  ghost predicate Represented(items: seq<S.BatchItem>, kept: seq<ProposalInput>, t: (string, string, string)) {
    exists i :: 0 <= i < |items| && items[i].Safe? && items[i].proposal in kept && S.Triple(items[i]) == t
  }

  lemma {:induction false} DeduplicatedFrom(items: seq<S.BatchItem>, seen: set<(string, string, string)>, p: ProposalInput)
    requires AllSafe(items) && p in S.Deduplicated(items, seen)
    ensures KeptFrom(items, seen, p)
    decreases |items|
  {
    var rest := items[1..];
    var seen' := if S.Triple(items[0]) !in seen then seen + {S.Triple(items[0])} else seen;
    if S.Triple(items[0]) !in seen && p == items[0].proposal {
      assert items[0].proposal == p;
    } else {
      DeduplicatedFrom(rest, seen', p);
      var i :| 0 <= i < |rest| && rest[i].Safe? && rest[i].proposal == p && S.Triple(rest[i]) !in seen';
      assert items[i + 1] == rest[i];
    }
  }

  lemma {:induction false} DeduplicatedRepresents(items: seq<S.BatchItem>, seen: set<(string, string, string)>, i: nat)
    requires AllSafe(items) && i < |items|
    ensures S.Triple(items[i]) in seen || Represented(items, S.Deduplicated(items, seen), S.Triple(items[i]))
    decreases |items|
  {
    var t, rest, first := S.Triple(items[i]), items[1..], S.Triple(items[0]);
    if t !in seen {
      if first == t {
        assert items[0].proposal in S.Deduplicated(items, seen);
      } else {
        var seen' := if first !in seen then seen + {first} else seen;
        assert rest[i - 1] == items[i];
        DeduplicatedRepresents(rest, seen', i - 1);
        var j :| 0 <= j < |rest| && rest[j].Safe? && rest[j].proposal in S.Deduplicated(rest, seen') && S.Triple(rest[j]) == t;
        assert items[j + 1] == rest[j];
      }
    }
  }

  ghost predicate PairwiseApart(workspace: string, ps: seq<ProposalInput>) {
    forall i, j :: 0 <= i < j < |ps| ==> Apart(workspace, ps[i], ps[j])
  }

  lemma {:induction false} DeduplicatedApart(workspace: string, items: seq<S.BatchItem>, seen: set<(string, string, string)>)
    requires DigestsDiffer(workspace, items)
    ensures PairwiseApart(workspace, S.Deduplicated(items, seen))
    decreases |items|
  {
    hide Apart;
    if items != [] {
      var first, rest := S.Triple(items[0]), items[1..];
      var seen' := if first !in seen then seen + {first} else seen;
      DeduplicatedApart(workspace, rest, seen');
      var tail := S.Deduplicated(rest, seen');
      if first !in seen {
        forall j | 0 <= j < |tail| ensures Apart(workspace, items[0].proposal, tail[j]) {
          DeduplicatedFrom(rest, seen', tail[j]);
          var i :| 0 <= i < |rest| && rest[i].Safe? && rest[i].proposal == tail[j] && S.Triple(rest[i]) !in seen';
          assert items[i + 1] == rest[i];
        }
      }
    }
  }

  // ---------------------------------------------------------------- enqueueing and approving

  lemma {:induction false} StillFresh(queue: map<string, ProposalRow>, workspace: string, now: Time, p: ProposalInput, q: ProposalInput)
    requires FreshIn(queue, workspace, p) && FreshIn(queue, workspace, q) && Apart(workspace, p, q)
    ensures FreshIn(queue[p.id := NewRow(workspace, now, p)], workspace, q)
  {
  }

  /** New proposals all enter the queue, as new rows, and nothing else changes. */
  lemma {:induction false} EnqueueFresh(db: Db, workspace: string, now: Time, ps: seq<ProposalInput>)
    requires Inv(db) && PairwiseApart(workspace, ps)
    requires forall i :: 0 <= i < |ps| ==> PlainId(ps[i].id) && FreshIn(db.queue, workspace, ps[i])
    ensures var r := ApplyAll(db, workspace, now, S.EnqueueOps(ps));
            && r.Ok? && Inv(r.value) && r.value.facts == db.facts
            && (forall id :: id in db.queue ==> id in r.value.queue && r.value.queue[id] == db.queue[id])
            && (forall i :: 0 <= i < |ps| ==> ps[i].id in r.value.queue && r.value.queue[ps[i].id] == NewRow(workspace, now, ps[i]))
    decreases |ps|
  {
    hide Inv, PlainId, FingerprintQueued, Apart;
    if ps != [] {
      var p, rest := ps[0], ps[1..];
      assert S.EnqueueOps(ps)[1..] == S.EnqueueOps(rest);
      EnqueueKeepsInv(db, workspace, now, p);
      var next := Enqueue(db, workspace, now, p).value;
      forall i | 0 <= i < |rest| ensures FreshIn(next.queue, workspace, rest[i]) {
        StillFresh(db.queue, workspace, now, p, ps[i + 1]);
      }
      EnqueueFresh(next, workspace, now, rest);
      assert forall i :: 0 < i < |ps| ==> ps[i] == rest[i - 1];
    }
  }

  // ---------------------------------------------------------------- the whole chain

  /** The short hash tells the objects of a key apart. */
  ghost predicate Separates(h: Host, existing: seq<string>) {
    forall a, b :: a in existing && b in existing && h.shortHash(a) == h.shortHash(b) ==> a == b
  }

  lemma {:induction false} SameObjectSamePlan(c: Candidate, existing: seq<string>, h: Host, p: Planned, q: Planned)
    requires Separates(h, existing)
    requires p in PlanFor(c, existing, h) && q in PlanFor(c, existing, h) && p.obj == q.obj
    ensures p == q
  {
    hide OperationFor;
    if OperationFor(h, c, existing).DELETE? {
      var i :| 0 <= i < |existing| && p == Retirement(c.key, existing[i], h);
      var j :| 0 <= j < |existing| && q == Retirement(c.key, existing[j], h);
      assert p.obj[8..] == h.shortHash(existing[i]) && q.obj[8..] == h.shortHash(existing[j]);
    }
  }

  /** A planned proposal belongs to one of the candidates. */
  lemma {:induction false} PlannedForSome(facts: seq<Fact>, candidates: seq<Candidate>, h: Host, p: Planned) returns (j: nat)
    requires p in PlanAll(facts, candidates, h)
    ensures j < |candidates| && p in PlanFor(candidates[j], Existing(facts, candidates[j].key), h) && p.key == candidates[j].key
    decreases |candidates|
  {
    hide Existing, PlanFor;
    var last := candidates[|candidates| - 1];
    if p in PlanFor(last, Existing(facts, last.key), h) {
      j := |candidates| - 1;
      PlanForKey(last, Existing(facts, last.key), h);
    } else {
      j := PlannedForSome(facts, candidates[..|candidates| - 1], h, p);
    }
  }

  /** The hypotheses of one consolidation: distinct keys of one scope, safe entries, new digests. */
  ghost predicate Ready(db: Db, workspace: string, scope: string, candidates: seq<Candidate>, h: Host, items: seq<S.BatchItem>) {
    var plan := PlanAll(db.facts, candidates, h);
    && DistinctKeys(candidates)
    && (forall i :: 0 <= i < |candidates| ==> candidates[i].key.workspace == workspace && candidates[i].key.scope == scope)
    && (forall i :: 0 <= i < |candidates| ==> Separates(h, Existing(db.facts, candidates[i].key)))
    && |items| == |plan|
    && (forall i :: 0 <= i < |items| ==> BuiltFor(workspace, items[i], plan[i]))
    && (forall i :: 0 <= i < |items| ==> FreshIn(db.queue, workspace, items[i].proposal))
    && DigestsDiffer(workspace, items)
  }

  /** Entries with one triple stand for one planned proposal, so dropping repeats loses nothing. */
  lemma {:induction false} SameTripleSamePlan(db: Db, workspace: string, scope: string, candidates: seq<Candidate>, h: Host, p: Planned, q: Planned)
    requires DistinctKeys(candidates)
    requires forall i :: 0 <= i < |candidates| ==> candidates[i].key.workspace == workspace && candidates[i].key.scope == scope
    requires forall i :: 0 <= i < |candidates| ==> Separates(h, Existing(db.facts, candidates[i].key))
    requires p in PlanAll(db.facts, candidates, h) && q in PlanAll(db.facts, candidates, h)
    requires p.key.subject == q.key.subject && p.key.pred == q.key.pred && p.obj == q.obj
    ensures p == q
  {
    hide Existing, PlanFor, PlanAll, Separates;
    var i := PlannedForSome(db.facts, candidates, h, p);
    var j := PlannedForSome(db.facts, candidates, h, q);
    assert candidates[i].key == candidates[j].key;
    assert i == j;
    SameObjectSamePlan(candidates[i], Existing(db.facts, candidates[i].key), h, p, q);
  }

  function IdsOf(ps: seq<ProposalInput>): (r: seq<string>)
    ensures |r| == |ps| && forall i :: 0 <= i < |ps| ==> r[i] == ps[i].id
  {
    seq(|ps|, i requires 0 <= i < |ps| => ps[i].id)
  }

  lemma {:induction false} PlannedRow(workspace: string, now: Time, p: ProposalInput)
    ensures PlannedOf(NewRow(workspace, now, p)) == PlannedOf(NewRow(workspace, 0, p))
  {
  }

  /** After the batch the queue covers the plan, with pending facts under distinct ids. */
  lemma {:induction false} BatchCoversPlan(db: Db, workspace: string, scope: string, now: Time, candidates: seq<Candidate>, h: Host, items: seq<S.BatchItem>)
    requires Inv(db) && Ready(db, workspace, scope, candidates, h, items)
    ensures var ps := S.Deduplicated(items, {});
            var r := ApplyAll(db, workspace, now, S.EnqueueOps(ps));
            && r.Ok? && Inv(r.value) && r.value.facts == db.facts
            && CoversPlan(r.value.queue, IdsOf(ps), PlanAll(db.facts, candidates, h))
            && (forall i, j :: 0 <= i < j < |ps| ==> ps[i].id != ps[j].id)
            && (forall i :: 0 <= i < |ps| ==> PendingIn(r.value, workspace, ps[i].id) && r.value.queue[ps[i].id].payload.kind == "fact")
  {
    hide Inv, PlainId, PlanAll, Ready, FreshIn, PlannedOf, ApplyAll, Apart, CoversPlan, FromPlan;
    var ps := S.Deduplicated(items, {});
    KeptAreReady(db, workspace, scope, candidates, h, items);
    forall k | 0 <= k < |ps| ensures PlainId(ps[k].id) && ps[k].payload.kind == "fact" {
      FromPlanFacts(workspace, PlanAll(db.facts, candidates, h), ps[k]);
    }
    EnqueueFresh(db, workspace, now, ps);
    RowsCoverPlan(db, workspace, scope, now, candidates, h, items, ApplyAll(db, workspace, now, S.EnqueueOps(ps)).value.queue);
    forall i, j | 0 <= i < j < |ps| ensures ps[i].id != ps[j].id {
      ApartIds(workspace, ps[i], ps[j]);
    }
  }

  ghost predicate FromPlan(workspace: string, plan: seq<Planned>, p: ProposalInput) {
    PlainId(p.id) && p.payload.kind == "fact" && PlannedOf(NewRow(workspace, 0, p)) in plan
  }

  lemma {:induction false} FromPlanFacts(workspace: string, plan: seq<Planned>, p: ProposalInput)
    requires FromPlan(workspace, plan, p)
    ensures PlainId(p.id) && p.payload.kind == "fact" && PlannedOf(NewRow(workspace, 0, p)) in plan
  {
  }

  lemma {:induction false} KeptAreReady(db: Db, workspace: string, scope: string, candidates: seq<Candidate>, h: Host, items: seq<S.BatchItem>)
    requires Ready(db, workspace, scope, candidates, h, items)
    ensures var ps := S.Deduplicated(items, {});
            && PairwiseApart(workspace, ps)
            && forall k :: 0 <= k < |ps| ==> FromPlan(workspace, PlanAll(db.facts, candidates, h), ps[k]) && FreshIn(db.queue, workspace, ps[k])
  {
    hide PlainId, PlanAll, Existing, Separates, FreshIn, PlannedOf, Apart;
    var ps, plan := S.Deduplicated(items, {}), PlanAll(db.facts, candidates, h);
    DeduplicatedApart(workspace, items, {});
    forall k | 0 <= k < |ps| ensures FromPlan(workspace, plan, ps[k]) && FreshIn(db.queue, workspace, ps[k]) {
      DeduplicatedFrom(items, {}, ps[k]);
      var i :| 0 <= i < |items| && items[i].Safe? && items[i].proposal == ps[k] && S.Triple(items[i]) !in {};
      assert BuiltFor(workspace, items[i], plan[i]);
    }
  }

  lemma {:induction false} RowsCoverPlan(db: Db, workspace: string, scope: string, now: Time, candidates: seq<Candidate>, h: Host,
                      items: seq<S.BatchItem>, queue: map<string, ProposalRow>)
    requires Ready(db, workspace, scope, candidates, h, items)
    requires var ps := S.Deduplicated(items, {});
             forall i :: 0 <= i < |ps| ==> ps[i].id in queue && queue[ps[i].id] == NewRow(workspace, now, ps[i])
    ensures CoversPlan(queue, IdsOf(S.Deduplicated(items, {})), PlanAll(db.facts, candidates, h))
  {
    var ps, plan := S.Deduplicated(items, {}), PlanAll(db.facts, candidates, h);
    hide PlainId, PlanAll, Ready, FreshIn, PlannedOf, FromPlan, NewRow, HasPlanned, PairwiseApart, S.Deduplicated;
    PlanSize(db, workspace, scope, candidates, h, items);
    KeptAreReady(db, workspace, scope, candidates, h, items);
    var ids := IdsOf(ps);
    forall k | 0 <= k < |ids| ensures PlannedOf(queue[ids[k]]) in plan {
      RowIsPlanned(workspace, now, plan, ps[k]);
    }
    forall i | 0 <= i < |plan| ensures HasPlanned(queue, ids, plan[i]) {
      var k := KeptForPlan(db, workspace, scope, candidates, h, items, i);
      RowStandsFor(workspace, now, ps[k], queue, ids, k, plan[i]);
    }
  }

  lemma {:induction false} PlanSize(db: Db, workspace: string, scope: string, candidates: seq<Candidate>, h: Host, items: seq<S.BatchItem>)
    requires Ready(db, workspace, scope, candidates, h, items)
    ensures |items| == |PlanAll(db.facts, candidates, h)|
  {
    hide PlanAll, DigestsDiffer, Existing;
  }

  lemma {:induction false} RowIsPlanned(workspace: string, now: Time, plan: seq<Planned>, p: ProposalInput)
    requires FromPlan(workspace, plan, p)
    ensures PlannedOf(NewRow(workspace, now, p)) in plan
  {
    hide PlannedOf;
    PlannedRow(workspace, now, p);
  }

  lemma {:induction false} RowStandsFor(workspace: string, now: Time, p: ProposalInput, queue: map<string, ProposalRow>, ids: seq<string>, k: nat, planned: Planned)
    requires k < |ids| && ids[k] in queue && queue[ids[k]] == NewRow(workspace, now, p) && PlannedOf(NewRow(workspace, 0, p)) == planned
    ensures HasPlanned(queue, ids, planned)
  {
    hide PlannedOf;
    PlannedRow(workspace, now, p);
  }

  lemma {:induction false} ApartIds(workspace: string, p: ProposalInput, q: ProposalInput)
    requires Apart(workspace, p, q)
    ensures p.id != q.id
  {
  }

  /** The kept proposal that stands for the i-th planned one. */
  lemma {:induction false} KeptForPlan(db: Db, workspace: string, scope: string, candidates: seq<Candidate>, h: Host, items: seq<S.BatchItem>, i: nat) returns (k: nat)
    requires Ready(db, workspace, scope, candidates, h, items) && i < |items|
    ensures var ps := S.Deduplicated(items, {});
            k < |ps| && PlannedOf(NewRow(workspace, 0, ps[k])) == PlanAll(db.facts, candidates, h)[i]
  {
    hide PlainId, PlanAll, Existing, Separates, FreshIn, PlannedOf, Apart;
    var ps, plan := S.Deduplicated(items, {}), PlanAll(db.facts, candidates, h);
    assert BuiltFor(workspace, items[i], plan[i]);
    DeduplicatedRepresents(items, {}, i);
    var j :| 0 <= j < |items| && items[j].Safe? && items[j].proposal in ps && S.Triple(items[j]) == S.Triple(items[i]);
    assert BuiltFor(workspace, items[j], plan[j]);
    SameTripleSamePlan(db, workspace, scope, candidates, h, plan[i], plan[j]);
    k :| 0 <= k < |ps| && ps[k] == items[j].proposal;
  }

  /**
   Planning, enqueueing and approving, end to end: every step succeeds, and each candidate's key is
   left with the goal of its operation if and only if no added or updated object reads as a tombstone.
   */
  lemma {:induction false} ConsolidateEndToEnd(db: Db, workspace: string, scope: string, now: Time, later: Time,
                             candidates: seq<Candidate>, h: Host, items: seq<S.BatchItem>, j: nat)
    requires Inv(db) && Ready(db, workspace, scope, candidates, h, items) && j < |candidates|
    ensures var ps := S.Deduplicated(items, {});
            var queued := Commit(db, Transaction(workspace, now, S.EnqueueOps(ps)));
            var approved := Commit(queued, Transaction(workspace, later, S.ApproveOps(IdsOf(ps))));
            var c := candidates[j];
            var op := OperationFor(h, c, Existing(db.facts, c.key));
            var before, after := ActiveObjects(db.facts, c.key), ActiveObjects(approved.facts, c.key);
            && |approved.facts| == |db.facts| + |ps|
            && Meaningful(after) == Meaningful(Goal(c, op, Meaningful(before)))
            && ((Meaningful(after) == Goal(c, op, Meaningful(before))) <==> (op.ADD? || op.UPDATE? ==> !IsTombstone(c.obj)))
            && (op.NOOP? ==> after == before)
  {
    hide Inv, PlanAll, Existing, OperationFor, Meaningful, ActiveObjects, IsTombstone, Goal, ApplyAll, PlainId, CoversPlan;
    var ps := S.Deduplicated(items, {});
    BatchCoversPlan(db, workspace, scope, now, candidates, h, items);
    var queued := ApplyAll(db, workspace, now, S.EnqueueOps(ps)).value;
    S.ApproveAllPending(queued, workspace, later, IdsOf(ps));
    ApprovedCount(queued, workspace, later, IdsOf(ps));
    ConsolidationReachesGoal(queued, workspace, later, IdsOf(ps), candidates, h, j);
  }

  /** Every approval writes one fact. */
  lemma {:induction false} ApprovedCount(db: Db, workspace: string, now: Time, ids: seq<string>)
    requires Inv(db) && ApplyAll(db, workspace, now, S.ApproveOps(ids)).Ok?
    ensures |ApplyAll(db, workspace, now, S.ApproveOps(ids)).value.facts| == |db.facts| + |ids|
    decreases |ids|
  {
    hide Inv, Approve, SupersedeStep, Approves;
    if ids != [] {
      assert S.ApproveOps(ids)[1..] == S.ApproveOps(ids[1..]);
      ApproveShape(db, workspace, now, ids[0]);
      ApproveKeepsInv(db, workspace, now, ids[0]);
      SupersedeStepFrame(db.facts, NewFact(db, workspace, now, ids[0]), db.queue[ids[0]].payload, now);
      ApprovedCount(Approve(db, workspace, now, ids[0]).value, workspace, now, ids[1..]);
    }
  }

  // ---------------------------------------------------------------- a run that misses its goal

  /** On an empty store an added object that reads as a tombstone is approved, and the goal is missed. */
  lemma {:induction false} TombstoneIsLost(workspace: string, now: Time, later: Time, c: Candidate, h: Host, item: S.BatchItem)
    requires c.key.workspace == workspace && IsTombstone(c.obj) && !IsDeleteCandidate(h, c.obj)
    requires BuiltFor(workspace, item, Planned(c.key, c.obj, None))
    ensures var queued := Commit(EMPTY_DB, Transaction(workspace, now, [EnqueueOp(item.proposal)]));
            var approved := Commit(queued, Transaction(workspace, later, [ApproveOp(item.proposal.id)]));
            && OperationFor(h, c, Existing(EMPTY_DB.facts, c.key)).ADD?
            && |approved.facts| == 1
            && Meaningful(ActiveObjects(approved.facts, c.key)) != {c.obj}
  {
    hide Inv, Meaningful, ActiveObjects, IsTombstone, PlainId, IsDeleteCandidate, Apart, PlannedOf;
    var items, plan := [item], PlanAll(EMPTY_DB.facts, [c], h);
    assert [c][..0] == [] && PlanAll([], [c][..0], h) == [];
    assert plan == [Planned(c.key, c.obj, None)];
    EmptyInv();
    assert items[1..] == [];
    assert S.Deduplicated(items, {}) == [item.proposal];
    assert S.EnqueueOps([item.proposal]) == [EnqueueOp(item.proposal)];
    assert S.ApproveOps(IdsOf([item.proposal])) == [ApproveOp(item.proposal.id)];
    assert Ready(EMPTY_DB, workspace, c.key.scope, [c], h, items);
    ConsolidateEndToEnd(EMPTY_DB, workspace, c.key.scope, now, later, [c], h, items, 0);
  }

  lemma {:induction false} PlainTombstone(h: Host)
    requires !h.space('r') && !h.space('x')
    ensures IsTombstone("retired_x") && !IsDeleteCandidate(h, "retired_x")
  {
    var o := "retired_x";
    assert "retired_" + "x" == o;
    TombstoneIsTombstone("x");
    assert o[0] == 'r' && o[8] == 'x';
    assert Trim(h, o) == o;
    var lower := LowerAll(o);
    assert lower == o;
    assert lower[2] == 't' && "remove "[2] == 'm' && "removed "[2] == 'm';
    forall i | 0 <= i <= |lower| ensures !(" no longer " <= lower[i..]) {
      assert |lower[i..]| < |" no longer "|;
    }
  }

  /** One such run: the candidate object "retired_x" is approved and then counts for nothing. */
  lemma {:induction false} PlainTombstoneIsLost(workspace: string, now: Time, later: Time, key: Key, h: Host, item: S.BatchItem)
    requires key.workspace == workspace && !h.space('r') && !h.space('x')
    requires BuiltFor(workspace, item, Planned(key, "retired_x", None))
    ensures var queued := Commit(EMPTY_DB, Transaction(workspace, now, [EnqueueOp(item.proposal)]));
            var approved := Commit(queued, Transaction(workspace, later, [ApproveOp(item.proposal.id)]));
            |approved.facts| == 1 && Meaningful(ActiveObjects(approved.facts, key)) != {"retired_x"}
  {
    hide Meaningful, ActiveObjects, IsTombstone, IsDeleteCandidate, BuiltFor, Commit;
    PlainTombstone(h);
    TombstoneIsLost(workspace, now, later, Candidate(key, "retired_x"), h, item);
  }
}
