/**
 `Store`: the open database, whose methods update the tables in place inside a transaction.
 Each method is tied to the table functions of `StoreModel`.
 */
module StoreClient {
  import opened Wrappers
  import opened StoreModel
  import opened StoreInvariants
  import opened Order
  import opened StoreHistory
  import opened Interleaving

  /** One batch entry after `normalize_batch_fact`: rejected, or a key and the proposal built for it. */
  datatype BatchItem =
    | Unsafe
    | Safe(subject: string, pred: string, obj: string, proposal: ProposalInput)

  datatype BatchReport = BatchReport(recorded: nat, skippedUnsafe: nat, skippedDuplicate: nat)

  /** How many entries were rejected. */
  function CountUnsafe(items: seq<BatchItem>): nat {
    if items == [] then 0 else (if items[0].Unsafe? then 1 else 0) + CountUnsafe(items[1..])
  }

  function Triple(item: BatchItem): (string, string, string)
    requires item.Safe?
  {
    (item.subject, item.pred, item.obj)
  }

  /** The proposals left after dropping unsafe entries and repeated triples, in batch order. */
  function Deduplicated(items: seq<BatchItem>, seen: set<(string, string, string)>): seq<ProposalInput> {
    if items == [] then []
    else if items[0].Safe? && Triple(items[0]) !in seen then
      [items[0].proposal] + Deduplicated(items[1..], seen + {Triple(items[0])})
    else
      Deduplicated(items[1..], seen)
  }

  function EnqueueOps(ps: seq<ProposalInput>): (r: seq<Op>)
    ensures |r| == |ps|
    ensures forall i :: 0 <= i < |ps| ==> r[i] == EnqueueOp(ps[i])
  {
    seq(|ps|, i requires 0 <= i < |ps| => EnqueueOp(ps[i]))
  }

  function ApproveOps(ids: seq<string>): (r: seq<Op>)
    ensures |r| == |ids|
    ensures forall i :: 0 <= i < |ids| ==> r[i] == ApproveOp(ids[i])
  {
    seq(|ids|, i requires 0 <= i < |ids| => ApproveOp(ids[i]))
  }

  lemma {:induction false} ApplyAllAppend(db: Db, workspace: string, now: Time, ops: seq<Op>, op: Op)
    ensures ApplyAll(db, workspace, now, ops + [op]) ==
            match ApplyAll(db, workspace, now, ops) { case Ok(next) => Apply(next, workspace, now, op) case Err(e) => Err(e) }
    decreases |ops|
  {
    hide Apply;
    if ops == [] {
      assert ([op])[1..] == [];
      assert ops + [op] == [op];
    } else {
      assert (ops + [op])[0] == ops[0] && (ops + [op])[1..] == ops[1..] + [op];
      if Apply(db, workspace, now, ops[0]).Ok? {
        ApplyAllAppend(Apply(db, workspace, now, ops[0]).value, workspace, now, ops[1..], op);
      }
    }
  }

  lemma {:induction false} ApplyAllNone(db: Db, workspace: string, now: Time)
    ensures ApplyAll(db, workspace, now, []) == Ok(db)
  {
  }

  lemma {:induction false} ApplyAllError(db: Db, workspace: string, now: Time, ops: seq<Op>, rest: seq<Op>)
    requires ApplyAll(db, workspace, now, ops).Err?
    ensures ApplyAll(db, workspace, now, ops + rest).Err?
    decreases |ops|
  {
    hide Apply;
    assert (ops + rest)[0] == ops[0] && (ops + rest)[1..] == ops[1..] + rest;
    if Apply(db, workspace, now, ops[0]).Ok? {
      ApplyAllError(Apply(db, workspace, now, ops[0]).value, workspace, now, ops[1..], rest);
    }
  }

  // ---------------------------------------------------------------- bulk approval

  /** A row of `pending_ids`; `matches` is the source filter. */
  predicate Candidate(queue: map<string, ProposalRow>, workspace: string, matches: ProposalRow -> bool, id: string) {
    id in queue && queue[id].workspace == workspace && queue[id].status.Pending? && matches(queue[id])
  }

  predicate Chosen(queue: map<string, ProposalRow>, workspace: string, matches: ProposalRow -> bool, id: string) {
    Candidate(queue, workspace, matches, id) && !ExplicitOnly(queue[id].payload)
  }

  /** What a row has to be for a bulk approval to look at it. */
  predicate Waiting(row: ProposalRow, workspace: string, matches: ProposalRow -> bool) {
    row.workspace == workspace && row.status.Pending? && matches(row)
  }

  /** ORDER BY enqueued_at ASC, id ASC. */
  predicate Before(queue: map<string, ProposalRow>, a: string, b: string)
    requires a in queue && b in queue
  {
    queue[a].enqueuedAt < queue[b].enqueuedAt || (queue[a].enqueuedAt == queue[b].enqueuedAt && Less(a, b))
  }

  ghost predicate InScanOrder(queue: map<string, ProposalRow>, ids: seq<string>) {
    && (forall i :: 0 <= i < |ids| ==> ids[i] in queue)
    && forall i, j :: 0 <= i < j < |ids| ==> Before(queue, ids[i], ids[j])
  }

  predicate IsFirst(queue: map<string, ProposalRow>, ids: set<string>, m: string)
    requires ids <= queue.Keys
  {
    m in ids && forall x :: x in ids ==> x == m || Before(queue, m, x)
  }

  lemma {:induction false} FirstExists(queue: map<string, ProposalRow>, ids: set<string>)
    requires ids != {} && ids <= queue.Keys
    ensures exists m :: IsFirst(queue, ids, m)
    decreases ids
  {
    var x :| x in ids;
    if ids == {x} {
      assert IsFirst(queue, ids, x);
    } else {
      var rest := ids - {x};
      assert rest != {};
      FirstExists(queue, rest);
      var m :| IsFirst(queue, rest, m);
      LessTotal(x, m);
      forall y | y in rest && Before(queue, x, m) ensures Before(queue, x, y) {
        assert y == m || Before(queue, m, y);
        if Less(x, m) && Less(m, y) {
          LessTransitive(x, m, y);
        }
      }
      assert IsFirst(queue, ids, if Before(queue, x, m) then x else m);
    }
  }

  /** One transaction approved exactly the chosen rows, in scan order. */
  ghost predicate ApprovedInOrder(db: Db, db': Db, workspace: string, now: Time, matches: ProposalRow -> bool) {
    exists ids :: ApprovedList(db, db', workspace, now, matches, ids)
  }

  ghost predicate ApprovedList(db: Db, db': Db, workspace: string, now: Time, matches: ProposalRow -> bool, ids: seq<string>) {
    && InScanOrder(db.queue, ids)
    && (forall id :: id in ids <==> Chosen(db.queue, workspace, matches, id))
    && db' == Commit(db, Transaction(workspace, now, ApproveOps(ids)))
  }

  /** Approving `ids` accepts exactly those rows and leaves every other row alone. */
  lemma {:induction false} ApprovedRows(db: Db, workspace: string, now: Time, ids: seq<string>)
    requires ApplyAll(db, workspace, now, ApproveOps(ids)).Ok?
    ensures var db' := ApplyAll(db, workspace, now, ApproveOps(ids)).value;
            && db'.queue.Keys == db.queue.Keys
            && (forall id :: id in db.queue && id !in ids ==> db'.queue[id] == db.queue[id])
            && (forall id :: id in ids ==>
                  && id in db.queue && db.queue[id].status.Pending? && db.queue[id].payload.kind == "fact"
                  && db'.queue[id].status.Applied? && db'.queue[id].accepted == Some(true))
    decreases |ids|
  {
    hide Approve;
    if ids != [] {
      var id := ids[0];
      assert ApproveOps(ids)[1..] == ApproveOps(ids[1..]);
      var next := Approve(db, workspace, now, id).value;
      ApprovedRow(db, workspace, now, id);
      ApprovedRows(next, workspace, now, ids[1..]);
      assert id !in ids[1..];
      assert forall x :: x in ids <==> x == id || x in ids[1..];
    }
  }

  lemma {:induction false} ApprovedRow(db: Db, workspace: string, now: Time, id: string)
    requires Approve(db, workspace, now, id).Ok?
    ensures var db' := Approve(db, workspace, now, id).value;
            && PendingIn(db, workspace, id) && db.queue[id].payload.kind == "fact"
            && db'.queue.Keys == db.queue.Keys
            && db'.queue[id].status.Applied? && db'.queue[id].accepted == Some(true)
            && forall x :: x in db.queue && x != id ==> db'.queue[x] == db.queue[x]
  {
    hide DraftFact, UpsertFact, SupersedeStep, UpsertEdge, UpsertEntity, UpsertEpisode, DeleteFts;
  }

  /** Distinct pending facts can all be approved. */
  lemma {:induction false} ApproveAllPending(db: Db, workspace: string, now: Time, ids: seq<string>)
    requires forall i, j :: 0 <= i < j < |ids| ==> ids[i] != ids[j]
    requires forall i :: 0 <= i < |ids| ==> PendingIn(db, workspace, ids[i]) && db.queue[ids[i]].payload.kind == "fact"
    ensures ApplyAll(db, workspace, now, ApproveOps(ids)).Ok?
    decreases |ids|
  {
    hide WriteFact, DraftFact;
    if ids != [] {
      var rest := ids[1..];
      assert ApproveOps(ids)[1..] == ApproveOps(rest);
      ApprovedRow(db, workspace, now, ids[0]);
      var next := Approve(db, workspace, now, ids[0]).value;
      forall i | 0 <= i < |rest| ensures PendingIn(next, workspace, rest[i]) && next.queue[rest[i]].payload.kind == "fact" {
        assert rest[i] == ids[i + 1];
      }
      ApproveAllPending(next, workspace, now, rest);
    }
  }

  lemma {:induction false} ScannedOnce(queue: map<string, ProposalRow>, ids: seq<string>)
    requires InScanOrder(queue, ids)
    ensures forall i, j :: 0 <= i < j < |ids| ==> ids[i] != ids[j]
  {
    hide Less;
    forall i, j | 0 <= i < j < |ids| ensures ids[i] != ids[j] {
      assert Before(queue, ids[i], ids[j]);
      LessTotal(ids[i], ids[i]);
    }
  }

  /** Approving scanned rows succeeds exactly when all of them are facts. */
  lemma {:induction false} BulkSucceedsIff(db: Db, workspace: string, now: Time, ids: seq<string>)
    requires InScanOrder(db.queue, ids) && forall id :: id in ids ==> PendingIn(db, workspace, id)
    ensures ApplyAll(db, workspace, now, ApproveOps(ids)).Ok? <==> forall id :: id in ids ==> db.queue[id].payload.kind == "fact"
  {
    hide ApplyAll, InScanOrder;
    ScannedOnce(db.queue, ids);
    if forall id :: id in ids ==> db.queue[id].payload.kind == "fact" {
      ApproveAllPending(db, workspace, now, ids);
    }
    if ApplyAll(db, workspace, now, ApproveOps(ids)).Ok? {
      ApprovedRows(db, workspace, now, ids);
    }
  }

  /** Something waits, and all that waits and may be approved in bulk is a fact. */
  ghost predicate BulkPossible(queue: map<string, ProposalRow>, workspace: string, matches: ProposalRow -> bool) {
    && (exists id :: id in queue && Waiting(queue[id], workspace, matches))
    && (forall id :: id in queue && Waiting(queue[id], workspace, matches) && !ExplicitOnly(queue[id].payload) ==> queue[id].payload.kind == "fact")
  }

  /** The rows that waited and do not ask for an explicit id are accepted; every other row is as it was. */
  ghost predicate BulkRows(before: map<string, ProposalRow>, after: map<string, ProposalRow>, workspace: string, matches: ProposalRow -> bool) {
    before.Keys == after.Keys && forall id :: id in before ==>
      var row := before[id];
      if Waiting(row, workspace, matches) && row.payload.approvalMode != Some("explicit-id-only") && row.payload.proposalOrigin != Some("semantic-setup")
      then after[id].status.Applied? && after[id].accepted == Some(true)
      else after[id] == row
  }

  lemma {:induction false} BulkDecides(queue: map<string, ProposalRow>, workspace: string, matches: ProposalRow -> bool, ids: seq<string>, skipped: set<string>)
    requires forall id :: id in ids <==> Chosen(queue, workspace, matches, id)
    requires forall id :: id in skipped <==> Candidate(queue, workspace, matches, id) && ExplicitOnly(queue[id].payload)
    ensures BulkPossible(queue, workspace, matches) <==>
            (ids != [] || skipped != {}) && forall id :: id in ids ==> id in queue && queue[id].payload.kind == "fact"
  {
    hide ExplicitOnly;
    assert forall id :: id in queue ==> (Waiting(queue[id], workspace, matches) <==> id in ids || id in skipped);
    if ids != [] {
      assert ids[0] in ids;
      assert Waiting(queue[ids[0]], workspace, matches);
    }
    if skipped != {} {
      var id :| id in skipped;
      assert Waiting(queue[id], workspace, matches);
    }
  }

  lemma {:induction false} BulkLeaves(db: Db, workspace: string, now: Time, matches: ProposalRow -> bool, ids: seq<string>)
    requires forall id :: id in ids <==> Chosen(db.queue, workspace, matches, id)
    requires ApplyAll(db, workspace, now, ApproveOps(ids)).Ok?
    ensures BulkRows(db.queue, ApplyAll(db, workspace, now, ApproveOps(ids)).value.queue, workspace, matches)
  {
    hide ApplyAll;
    ApprovedRows(db, workspace, now, ids);
  }

  // ---------------------------------------------------------------- batches

  predicate QueuedPending(queue: map<string, ProposalRow>, workspace: string, fingerprint: Fingerprint) {
    exists id :: id in queue && HasFingerprint(queue[id], workspace, fingerprint) && queue[id].status.Pending?
  }

  /** The fingerprints of a batch that are pending in the queue. */
  function PendingOf(queue: map<string, ProposalRow>, workspace: string, ps: seq<ProposalInput>): set<Fingerprint> {
    set p | p in ps && QueuedPending(queue, workspace, FingerprintOf(workspace, p)) :: FingerprintOf(workspace, p)
  }

  function PendingIds(queue: map<string, ProposalRow>, workspace: string): set<string> {
    set id | id in queue && queue[id].workspace == workspace && queue[id].status.Pending?
  }

  /** Distinct fingerprints sit in distinct rows. */
  lemma {:induction false} RecordedArePending(queue: map<string, ProposalRow>, workspace: string, recorded: set<Fingerprint>, ids: set<string>)
    requires forall f :: f in recorded ==> exists id :: id in ids && id in queue && HasFingerprint(queue[id], workspace, f)
    ensures |recorded| <= |ids|
    decreases |recorded|
  {
    if f :| f in recorded {
      var id :| id in ids && id in queue && HasFingerprint(queue[id], workspace, f);
      forall g | g in recorded - {f}
        ensures exists x :: x in ids - {id} && x in queue && HasFingerprint(queue[x], workspace, g)
      {
        var x :| x in ids && x in queue && HasFingerprint(queue[x], workspace, g);
        assert x != id;
      }
      RecordedArePending(queue, workspace, recorded - {f}, ids - {id});
      assert ids == (ids - {id}) + {id};
      assert recorded == (recorded - {f}) + {f};
    }
  }

  lemma {:induction false} EnqueueStatus(db: Db, workspace: string, now: Time, p: ProposalInput)
    requires Enqueue(db, workspace, now, p).Ok?
    ensures var db' := Enqueue(db, workspace, now, p).value;
            && (forall f :: QueuedPending(db.queue, workspace, f) ==> QueuedPending(db'.queue, workspace, f))
            && (!FingerprintQueued(db.queue, workspace, FingerprintOf(workspace, p)) ==>
                  QueuedPending(db'.queue, workspace, FingerprintOf(workspace, p)))
            && (forall f :: FingerprintQueued(db'.queue, workspace, f) <==>
                  FingerprintQueued(db.queue, workspace, f) || f == FingerprintOf(workspace, p))
            && (forall f :: QueuedPending(db'.queue, workspace, f) ==>
                  QueuedPending(db.queue, workspace, f) || !FingerprintQueued(db.queue, workspace, f))
  {
    var db' := Enqueue(db, workspace, now, p).value;
    var fp := FingerprintOf(workspace, p);
    forall f | QueuedPending(db.queue, workspace, f) ensures QueuedPending(db'.queue, workspace, f) {
      var id :| id in db.queue && HasFingerprint(db.queue[id], workspace, f) && db.queue[id].status.Pending?;
      assert id in db'.queue && HasFingerprint(db'.queue[id], workspace, f) && db'.queue[id].status.Pending?;
    }
    if !FingerprintQueued(db.queue, workspace, fp) {
      assert HasFingerprint(db'.queue[p.id], workspace, fp);
    }
    forall f | FingerprintQueued(db.queue, workspace, f) || f == fp ensures FingerprintQueued(db'.queue, workspace, f) {
      if id :| id in db.queue && HasFingerprint(db.queue[id], workspace, f) {
        assert HasFingerprint(db'.queue[id], workspace, f);
      }
    }
  }

  lemma {:induction false} PendingHaveRows(queue: map<string, ProposalRow>, workspace: string, recorded: set<Fingerprint>)
    requires forall f :: f in recorded ==> QueuedPending(queue, workspace, f)
    ensures |recorded| <= |PendingIds(queue, workspace)|
  {
    RecordedArePending(queue, workspace, recorded, PendingIds(queue, workspace));
  }

  /** One more proposal of the batch: only its own fingerprint can become pending. */
  lemma {:induction false} PendingAfter(queue: map<string, ProposalRow>, queue': map<string, ProposalRow>, workspace: string, done: seq<ProposalInput>, p: ProposalInput)
    requires forall q :: q in done ==> FingerprintQueued(queue, workspace, FingerprintOf(workspace, q))
    requires forall f :: QueuedPending(queue, workspace, f) ==> QueuedPending(queue', workspace, f)
    requires !FingerprintQueued(queue, workspace, FingerprintOf(workspace, p)) ==> QueuedPending(queue', workspace, FingerprintOf(workspace, p))
    requires forall f :: QueuedPending(queue', workspace, f) ==> QueuedPending(queue, workspace, f) || !FingerprintQueued(queue, workspace, f)
    ensures var f := FingerprintOf(workspace, p);
            PendingOf(queue', workspace, done + [p]) ==
            PendingOf(queue, workspace, done) + (if QueuedPending(queue, workspace, f) || !FingerprintQueued(queue, workspace, f) then {f} else {})
  {
    hide QueuedPending, FingerprintQueued, FingerprintOf;
  }

  class Store {
    const workspace: string
    const now: Time
    var queue: map<string, ProposalRow>
    var facts: seq<Fact>
    var edges: map<EdgeKey, EdgeRow>
    var entities: map<EntityId, EntityRow>
    var episodes: map<string, EpisodeRow>
    var fts: seq<FtsRow>
    /** What ROLLBACK returns to, while a transaction is open. */
    var saved: Option<Db>

    ghost function Tables(): Db
      reads this
    {
      Db(queue, facts, edges, entities, episodes, fts)
    }

    constructor (workspace: string, now: Time)
      ensures this.workspace == workspace && this.now == now
      ensures Tables() == EMPTY_DB && saved.None?
    {
      this.workspace, this.now := workspace, now;
      queue, facts, edges, entities, episodes, fts := map[], [], map[], map[], map[], [];
      saved := None;
    }

    method Begin()
      requires saved.None?
      modifies this
      ensures Tables() == old(Tables()) && saved == Some(old(Tables()))
    {
      saved := Some(Db(queue, facts, edges, entities, episodes, fts));
    }

    /** COMMIT or ROLLBACK. */
    method Finish(ok: bool)
      requires saved.Some?
      modifies this
      ensures saved.None?
      ensures Tables() == if ok then old(Tables()) else old(saved).value
    {
      if !ok {
        var db := saved.value;
        queue, facts, edges, entities, episodes, fts := db.queue, db.facts, db.edges, db.entities, db.episodes, db.fts;
      }
      saved := None;
    }

    method EnqueueProposalUncommitted(p: ProposalInput) returns (r: Result<()>)
      modifies this
      ensures saved == old(saved)
      ensures r.Ok? <==> Enqueue(old(Tables()), workspace, now, p).Ok?
      ensures r.Ok? ==> Tables() == Enqueue(old(Tables()), workspace, now, p).value
    {
      var fingerprint := FingerprintOf(workspace, p);
      if exists id :: id in queue && HasFingerprint(queue[id], workspace, fingerprint) {
        queue := Touch(queue, workspace, now, fingerprint);
      } else if p.id in queue {
        return Err("UNIQUE constraint failed: memory_proposal_queue.id");
      } else {
        queue := queue[p.id := NewRow(workspace, now, p)];
      }
      return Ok(());
    }

    method ClaimResultUncommitted(id: string, accepted: bool) returns (r: Result<ProposalRow>)
      modifies this
      ensures saved == old(saved)
      ensures r.Ok? <==> PendingIn(old(Tables()), workspace, id)
      ensures r.Ok? ==> Tables() == Claim(old(Tables()), workspace, now, id, accepted).value && r.value == queue[id]
    {
      if id !in queue || queue[id].workspace != workspace || !queue[id].status.Pending? {
        return Err("memory proposal is not pending");
      }
      var row := queue[id];
      queue := queue[id := row.(status := Applied, attempts := row.attempts + 1, accepted := Some(accepted), updatedAt := now)];
      return Ok(queue[id]);
    }

    /** The statements of `approve_proposal_uncommitted`; after an error the caller rolls back. */
    method ApproveProposalUncommitted(id: string) returns (r: Result<()>)
      modifies this
      ensures saved == old(saved)
      ensures r.Ok? <==> Approve(old(Tables()), workspace, now, id).Ok?
      ensures r.Ok? ==> Tables() == Approve(old(Tables()), workspace, now, id).value
    {
      var claim := ClaimResultUncommitted(id, true);
      if claim.Err? {
        return Err(claim.error);
      }
      var payload := claim.value.payload;
      if payload.kind != "fact" {
        return Err("memory approve only supports fact proposals");
      }
      var n := DraftFact(workspace, now, id, claim.value);
      episodes := UpsertEpisode(episodes, n, now);
      entities := UpsertEntity(entities, SubjectEntity(n), now);
      entities := UpsertEntity(entities, ObjectEntity(n), now);
      if payload.supersedes {
        facts := SupersedeAll(facts, n, payload.supersedesObject, now);
      }
      facts := UpsertFact(facts, n);
      fts := DeleteFts(fts, workspace, n.id);
      fts := fts + [FtsOf(n)];
      edges := UpsertEdge(edges, n, now);
      return Ok(());
    }

    method RejectOne(id: string) returns (r: Result<()>)
      requires saved.None?
      modifies this
      ensures saved.None?
      ensures Tables() == Commit(old(Tables()), Transaction(workspace, now, [RejectOp(id)]))
      ensures r.Ok? <==> PendingIn(old(Tables()), workspace, id)
    {
      ghost var before := Tables();
      ApplyAllAppend(before, workspace, now, [], RejectOp(id));
      assert [] + [RejectOp(id)] == [RejectOp(id)];
      Begin();
      var claim := ClaimResultUncommitted(id, false);
      Finish(claim.Ok?);
      return if claim.Ok? then Ok(()) else Err(claim.error);
    }

    /** All the approvals happen or none does. */
    method ApproveIds(ids: seq<string>) returns (r: Result<()>)
      requires saved.None?
      modifies this
      ensures saved.None?
      ensures ids == [] ==> r.Err?
      ensures ids != [] ==> (r.Ok? <==> ApplyAll(old(Tables()), workspace, now, ApproveOps(ids)).Ok?)
      ensures Tables() == Commit(old(Tables()), Transaction(workspace, now, ApproveOps(ids)))
    {
      hide Approve, ApplyAll;
      ApplyAllNone(Tables(), workspace, now);
      if ids == [] {
        return Err("memory approve found no pending proposals");
      }
      ghost var before := Tables();
      Begin();
      var i := 0;
      while i < |ids|
        invariant 0 <= i <= |ids|
        invariant saved == Some(before)
        invariant ApplyAll(before, workspace, now, ApproveOps(ids[..i])) == Ok(Tables())
      {
        ghost var here := Tables();
        var approved := ApproveProposalUncommitted(ids[i]);
        ApplyAllAppend(before, workspace, now, ApproveOps(ids[..i]), ApproveOp(ids[i]));
        assert ApproveOps(ids[..i + 1]) == ApproveOps(ids[..i]) + [ApproveOp(ids[i])];
        if approved.Err? {
          ApplyAllError(before, workspace, now, ApproveOps(ids[..i + 1]), ApproveOps(ids[i + 1..]));
          assert ApproveOps(ids) == ApproveOps(ids[..i + 1]) + ApproveOps(ids[i + 1..]);
          Finish(false);
          return Err(approved.error);
        }
        i := i + 1;
      }
      assert ids[..|ids|] == ids;
      Finish(true);
      return Ok(());
    }

    /** The scan of `approve_bulk`, splitting off the explicit-id-only rows. */
    method ScanPending(matches: ProposalRow -> bool) returns (ids: seq<string>, skipped: set<string>)
      ensures InScanOrder(queue, ids)
      ensures forall id :: id in ids <==> Chosen(queue, workspace, matches, id)
      ensures forall id :: id in skipped <==> Candidate(queue, workspace, matches, id) && ExplicitOnly(queue[id].payload)
    {
      var candidates := set id | id in queue && Candidate(queue, workspace, matches, id);
      var todo := candidates;
      ids, skipped := [], {};
      while todo != {}
        invariant todo <= candidates && skipped <= candidates
        invariant InScanOrder(queue, ids)
        invariant forall i, x :: 0 <= i < |ids| && x in todo ==> Before(queue, ids[i], x)
        invariant forall id :: id in ids <==> id in candidates - todo && !ExplicitOnly(queue[id].payload)
        invariant forall id :: id in skipped <==> id in candidates - todo && ExplicitOnly(queue[id].payload)
        decreases |todo|
      {
        FirstExists(queue, todo);
        var id :| IsFirst(queue, todo, id);
        todo := todo - {id};
        if ExplicitOnly(queue[id].payload) {
          skipped := skipped + {id};
        } else {
          ids := ids + [id];
        }
      }
    }

    /**
     `approve_bulk`: the pending rows that pass the filter and are not explicit-id-only are approved
     in one transaction, oldest first; the explicit-id-only rows are counted and left alone.
     */
    method ApproveBulk(matches: ProposalRow -> bool) returns (r: Result<nat>)
      requires saved.None?
      modifies this
      ensures saved.None?
      ensures r.Err? ==> Tables() == old(Tables())
      ensures r.Ok? <==> BulkPossible(old(queue), workspace, matches)
      ensures forall id :: id in old(queue) && ExplicitOnly(old(queue)[id].payload) ==> id in queue && queue[id] == old(queue)[id]
      ensures r.Ok? ==> ApprovedInOrder(old(Tables()), Tables(), workspace, now, matches)
      ensures r.Ok? ==> BulkRows(old(queue), queue, workspace, matches)
      ensures r.Ok? ==> r.value == |set id | id in old(queue) && Candidate(old(queue), workspace, matches, id) && ExplicitOnly(old(queue)[id].payload)|
    {
      hide Approve, InScanOrder, ApplyAll, BulkPossible, BulkRows;
      ghost var before := Tables();
      var ids, skipped := ScanPending(matches);
      assert skipped == set id | id in queue && Candidate(queue, workspace, matches, id) && ExplicitOnly(queue[id].payload);
      BulkDecides(queue, workspace, matches, ids, skipped);
      if ids == [] && skipped == {} {
        return Err("memory approve found no pending proposals");
      }
      if ids == [] {
        ApplyAllNone(before, workspace, now);
        assert ApprovedList(before, Tables(), workspace, now, matches, ids);
        BulkLeaves(before, workspace, now, matches, ids);
        return Ok(|skipped|);
      }
      BulkSucceedsIff(before, workspace, now, ids);
      var done := ApproveIds(ids);
      if done.Err? {
        return Err(done.error);
      }
      ApprovedRows(before, workspace, now, ids);
      BulkLeaves(before, workspace, now, matches, ids);
      assert ApprovedList(before, Tables(), workspace, now, matches, ids);
      return Ok(|skipped|);
    }

    /**
     `remember_batch`. The proposals enter the queue together or not at all, and the final
     "fewer pending proposals than recorded" bail cannot be reached by this client alone.
     */
    method RememberBatch(items: seq<BatchItem>) returns (r: Result<BatchReport>)
      requires saved.None?
      modifies this
      ensures saved.None?
      ensures var ops := EnqueueOps(Deduplicated(items, {}));
              && Tables() == Commit(old(Tables()), Transaction(workspace, now, ops))
              && (r.Ok? <==> ApplyAll(old(Tables()), workspace, now, ops).Ok?)
      ensures r.Ok? ==> r.value.skippedUnsafe == CountUnsafe(items)
      ensures r.Ok? ==> r.value.skippedUnsafe + r.value.skippedDuplicate + |Deduplicated(items, {})| == |items|
      ensures r.Ok? ==> r.value.recorded == |PendingOf(queue, workspace, Deduplicated(items, {}))| <= |PendingIds(queue, workspace)|
    {
      hide Commit, ApplyAll, PendingOf, PendingIds;
      var normalized: seq<ProposalInput>, seen: set<(string, string, string)> := [], {};
      var skippedUnsafe, skippedDuplicate := 0, 0;
      var i := 0;
      while i < |items|
        invariant 0 <= i <= |items|
        invariant normalized + Deduplicated(items[i..], seen) == Deduplicated(items, {})
        invariant skippedUnsafe + skippedDuplicate + |normalized| == i
        invariant skippedUnsafe + CountUnsafe(items[i..]) == CountUnsafe(items)
      {
        assert items[i..][1..] == items[i + 1..];
        if items[i].Unsafe? {
          skippedUnsafe := skippedUnsafe + 1;
        } else if Triple(items[i]) in seen {
          skippedDuplicate := skippedDuplicate + 1;
        } else {
          normalized := normalized + [items[i].proposal];
          seen := seen + {Triple(items[i])};
        }
        i := i + 1;
      }
      assert items[|items|..] == [];
      assert normalized == Deduplicated(items, {});
      var recorded := EnqueueAll(normalized);
      if recorded.Err? {
        return Err(recorded.error);
      }
      return Ok(BatchReport(recorded.value, skippedUnsafe, skippedDuplicate));
    }

    /** The transaction of `remember_batch`. */
    method EnqueueAll(ps: seq<ProposalInput>) returns (r: Result<nat>)
      requires saved.None?
      modifies this
      ensures saved.None?
      ensures Tables() == Commit(old(Tables()), Transaction(workspace, now, EnqueueOps(ps)))
      ensures r.Ok? <==> ApplyAll(old(Tables()), workspace, now, EnqueueOps(ps)).Ok?
      ensures r.Ok? ==> r.value == |PendingOf(queue, workspace, ps)| <= |PendingIds(queue, workspace)|
    {
      hide Enqueue, QueuedPending, FingerprintQueued;
      ghost var before := Tables();
      var recorded: set<Fingerprint> := {};
      Begin();
      var i := 0;
      while i < |ps|
        invariant 0 <= i <= |ps|
        invariant saved == Some(before)
        invariant ApplyAll(before, workspace, now, EnqueueOps(ps[..i])) == Ok(Tables())
        invariant recorded == PendingOf(queue, workspace, ps[..i])
        invariant forall p :: p in ps[..i] ==> FingerprintQueued(queue, workspace, FingerprintOf(workspace, p))
      {
        ghost var here := Tables();
        var fingerprint := FingerprintOf(workspace, ps[i]);
        var pending := QueuedPending(queue, workspace, fingerprint) || !FingerprintQueued(queue, workspace, fingerprint);
        var enqueued := EnqueueProposalUncommitted(ps[i]);
        ApplyAllAppend(before, workspace, now, EnqueueOps(ps[..i]), EnqueueOp(ps[i]));
        assert EnqueueOps(ps[..i + 1]) == EnqueueOps(ps[..i]) + [EnqueueOp(ps[i])];
        if enqueued.Err? {
          ApplyAllError(before, workspace, now, EnqueueOps(ps[..i + 1]), EnqueueOps(ps[i + 1..]));
          assert EnqueueOps(ps) == EnqueueOps(ps[..i + 1]) + EnqueueOps(ps[i + 1..]);
          Finish(false);
          return Err(enqueued.error);
        }
        EnqueueStatus(here, workspace, now, ps[i]);
        PendingAfter(here.queue, queue, workspace, ps[..i], ps[i]);
        assert ps[..i + 1] == ps[..i] + [ps[i]];
        if pending {
          recorded := recorded + {fingerprint};
        }
        i := i + 1;
      }
      assert ps[..|ps|] == ps;
      Finish(true);
      assert forall f :: f in recorded ==> QueuedPending(queue, workspace, f);
      PendingHaveRows(queue, workspace, recorded);
      return Ok(|recorded|);
    }
  }
}
