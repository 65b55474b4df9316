/**
 The governed memory database: its tables, and the row changes made by the statements of
 `Store::enqueue_proposal_uncommitted`, `claim_result_uncommitted` and
 `approve_proposal_uncommitted`.

 Timestamps are ordered integers. A SHA-256 digest is modelled by the text it digests, so two
 digests are equal exactly when their inputs are.
 */
module StoreModel {
  import opened Wrappers

  type Time = int

  /** The proposal payload, as far as the store reads it back. */
  datatype Payload = Payload(
    kind: string,
    scope: Option<string>,
    subject: Option<string>,
    pred: Option<string>,
    obj: Option<string>,
    text: Option<string>,
    observedAt: Option<Time>,
    episodeId: Option<string>,
    supersedes: bool,
    supersedesObject: Option<string>,
    approvalMode: Option<string>,
    proposalOrigin: Option<string>,
    notes: Option<string>)

  datatype ProposalInput = ProposalInput(
    id: string, sourceLocator: string, sourceHash: string, enqueuedAt: Time, payload: Payload)

  /** The text digested by `proposal_fingerprint_from_parts`. */
  datatype Fingerprint = Fingerprint(
    workspace: string, sourceLocator: string, sourceHash: string, payload: Payload)

  datatype QueueStatus = Pending | Applied

  datatype ProposalRow = ProposalRow(
    workspace: string,
    fingerprint: Fingerprint,
    sourceLocator: string,
    sourceHash: string,
    status: QueueStatus,
    attempts: nat,
    payload: Payload,
    accepted: Option<bool>,
    enqueuedAt: Time,
    updatedAt: Time)

  datatype FactStatus = Active | Superseded

  datatype Fact = Fact(
    id: string,
    workspace: string,
    scope: string,
    subject: string,
    pred: string,
    obj: string,
    text: string,
    status: FactStatus,
    source: string,
    validFrom: Time,
    validUntil: Option<Time>,
    supersededBy: Option<string>,
    episodeId: string,
    proposalId: string,
    createdAt: Time,
    updatedAt: Time)

  /** `deterministic_id("ment", …)`. */
  datatype EntityId = EntityId(workspace: string, scope: string, name: string)
  datatype EntityRow = EntityRow(name: string, createdAt: Time, updatedAt: Time)

  /** `deterministic_id("medge", …)`, which is also the table's second unique key. */
  datatype EdgeKey = EdgeKey(workspace: string, scope: string, factId: string)
  datatype EdgeRow = EdgeRow(source: EntityId, target: EntityId, pred: string, createdAt: Time)

  datatype EpisodeRow = EpisodeRow(
    workspace: string, scope: string, sourceLocator: string, summary: string, observedAt: Time, createdAt: Time)

  datatype FtsRow = FtsRow(
    id: string, workspace: string, scope: string, subject: string, pred: string, obj: string, text: string)

  /** The tables. `facts` and `fts` are in rowid order. */
  datatype Db = Db(
    queue: map<string, ProposalRow>,
    facts: seq<Fact>,
    edges: map<EdgeKey, EdgeRow>,
    entities: map<EntityId, EntityRow>,
    episodes: map<string, EpisodeRow>,
    fts: seq<FtsRow>)

  const EMPTY_DB := Db(map[], [], map[], map[], map[], [])

  // ---------------------------------------------------------------- identifiers

  const PROPOSAL_PREFIX := "mpq_"

  /** `str::trim_start_matches("mpq_")`: every leading copy of the prefix goes. */
  function TrimPrefix(id: string): string
  {
    if PROPOSAL_PREFIX <= id then TrimPrefix(id[|PROPOSAL_PREFIX|..]) else id
  }

  function Take(s: string, n: nat): string {
    if |s| <= n then s else s[..n]
  }

  function FactIdOf(proposalId: string): string {
    "memfact_" + Take(TrimPrefix(proposalId), 128)
  }

  function EpisodeIdOf(proposalId: string): string {
    "mep_" + Take(TrimPrefix(proposalId), 128)
  }

  predicate IsIdChar(c: char) {
    'a' <= c <= 'z' || 'A' <= c <= 'Z' || '0' <= c <= '9' || c == '.' || c == '_' || c == '-'
  }

  /** The ids that the queue accepts from any of its writers. */
  predicate QueueId(id: string) {
    && 4 < |id| <= 132
    && PROPOSAL_PREFIX <= id
    && forall i :: 4 <= i < |id| ==> IsIdChar(id[i])
  }

  /**
   An id that carries its prefix once. Those built by `proposal_id_from_parts` (32 hexadecimal
   digits) and those of semantic setup (`mpq_semantic_` and 32 digits) do.
   */
  predicate PlainId(id: string) {
    PROPOSAL_PREFIX <= id && |id| <= 132 && !(PROPOSAL_PREFIX <= id[4..])
  }

  // ---------------------------------------------------------------- queue

  function FingerprintOf(workspace: string, p: ProposalInput): Fingerprint {
    Fingerprint(workspace, p.sourceLocator, p.sourceHash, p.payload)
  }

  predicate HasFingerprint(row: ProposalRow, workspace: string, fingerprint: Fingerprint) {
    row.workspace == workspace && row.fingerprint == fingerprint
  }

  function NewRow(workspace: string, now: Time, p: ProposalInput): ProposalRow {
    ProposalRow(workspace, FingerprintOf(workspace, p), p.sourceLocator, p.sourceHash,
                Pending, 0, p.payload, None, p.enqueuedAt, now)
  }

  predicate FingerprintQueued(queue: map<string, ProposalRow>, workspace: string, fingerprint: Fingerprint) {
    exists id :: id in queue && HasFingerprint(queue[id], workspace, fingerprint)
  }

  /** DO UPDATE SET updated_at, on the row whose fingerprint clashed. */
  function Touch(queue: map<string, ProposalRow>, workspace: string, now: Time, fingerprint: Fingerprint): map<string, ProposalRow> {
    map id | id in queue ::
      if HasFingerprint(queue[id], workspace, fingerprint) then queue[id].(updatedAt := now) else queue[id]
  }

  /** INSERT … ON CONFLICT(workspace_id, fingerprint) DO UPDATE; a clash on `id` alone is an error. */
  function Enqueue(db: Db, workspace: string, now: Time, p: ProposalInput): Result<Db> {
    var fingerprint := FingerprintOf(workspace, p);
    if FingerprintQueued(db.queue, workspace, fingerprint) then
      Ok(db.(queue := Touch(db.queue, workspace, now, fingerprint)))
    else if p.id in db.queue then
      Err("UNIQUE constraint failed: memory_proposal_queue.id")
    else
      Ok(db.(queue := db.queue[p.id := NewRow(workspace, now, p)]))
  }

  predicate PendingIn(db: Db, workspace: string, id: string) {
    id in db.queue && db.queue[id].workspace == workspace && db.queue[id].status.Pending?
  }

  /** `claim_result_uncommitted`; both an approval and a rejection end in status 'applied'. */
  function Claim(db: Db, workspace: string, now: Time, id: string, accepted: bool): Result<Db> {
    if !PendingIn(db, workspace, id) then
      Err("memory proposal is not pending")
    else
      var row := db.queue[id];
      Ok(db.(queue := db.queue[id := row.(status := Applied, attempts := row.attempts + 1,
                                          accepted := Some(accepted), updatedAt := now)]))
  }

  // ---------------------------------------------------------------- approval

  /** The fact that approving `row` at `now` writes, with `payload_str`'s fallbacks. */
  function DraftFact(workspace: string, now: Time, id: string, row: ProposalRow): Fact {
    var p := row.payload;
    var subject := p.subject.GetOr("");
    var pred := p.pred.GetOr("");
    var obj := p.obj.GetOr("");
    Fact(FactIdOf(id), workspace, p.scope.GetOr("workspace"), subject, pred, obj,
         p.text.GetOr(subject + " " + pred + " " + obj),
         Active, row.sourceLocator, p.observedAt.GetOr(now), None, None,
         p.episodeId.GetOr(EpisodeIdOf(id)), id, now, now)
  }

  /** Supersession never looks at the source, only at these four columns. */
  datatype Key = Key(workspace: string, scope: string, subject: string, pred: string)

  function KeyOf(f: Fact): Key {
    Key(f.workspace, f.scope, f.subject, f.pred)
  }

  /** The WHERE clause of the two UPDATE statements; `target` is `supersedesObject`. */
  predicate IsSuperseded(f: Fact, n: Fact, target: Option<string>) {
    && KeyOf(f) == KeyOf(n)
    && f.id != n.id
    && (if target.Some? then f.obj == target.value else f.obj != n.obj)
    && f.supersededBy.None?
    && (f.validUntil.None? || f.validUntil.value > n.validFrom)
  }

  function Retire(f: Fact, n: Fact, now: Time): Fact {
    f.(status := Superseded, validUntil := Some(n.validFrom), supersededBy := Some(n.id), updatedAt := now)
  }

  function SupersedeOne(f: Fact, n: Fact, target: Option<string>, now: Time): Fact {
    if IsSuperseded(f, n, target) then Retire(f, n, now) else f
  }

  function SupersedeAll(facts: seq<Fact>, n: Fact, target: Option<string>, now: Time): (r: seq<Fact>)
    ensures |r| == |facts|
    ensures forall i :: 0 <= i < |facts| ==> r[i] == SupersedeOne(facts[i], n, target, now)
  {
    seq(|facts|, i requires 0 <= i < |facts| => SupersedeOne(facts[i], n, target, now))
  }

  function SupersedeStep(facts: seq<Fact>, n: Fact, payload: Payload, now: Time): seq<Fact> {
    if payload.supersedes then SupersedeAll(facts, n, payload.supersedesObject, now) else facts
  }

  predicate HasFact(facts: seq<Fact>, id: string) {
    exists i :: 0 <= i < |facts| && facts[i].id == id
  }

  /** INSERT … ON CONFLICT(id) DO UPDATE, which keeps the old `created_at`. */
  function UpsertFact(facts: seq<Fact>, n: Fact): seq<Fact> {
    if HasFact(facts, n.id) then
      seq(|facts|, i requires 0 <= i < |facts| =>
        if facts[i].id == n.id then n.(createdAt := facts[i].createdAt) else facts[i])
    else
      facts + [n]
  }

  function SubjectEntity(f: Fact): EntityId { EntityId(f.workspace, f.scope, f.subject) }
  function ObjectEntity(f: Fact): EntityId { EntityId(f.workspace, f.scope, f.obj) }

  function UpsertEntity(entities: map<EntityId, EntityRow>, e: EntityId, now: Time): map<EntityId, EntityRow> {
    if e in entities then entities[e := entities[e].(updatedAt := now)]
    else entities[e := EntityRow(e.name, now, now)]
  }

  function UpsertEpisode(episodes: map<string, EpisodeRow>, n: Fact, now: Time): map<string, EpisodeRow> {
    var row := EpisodeRow(n.workspace, n.scope, n.source, n.text, n.validFrom, now);
    if n.episodeId in episodes then
      episodes[n.episodeId := row.(createdAt := episodes[n.episodeId].createdAt)]
    else
      episodes[n.episodeId := row]
  }

  function EdgeKeyOf(f: Fact): EdgeKey { EdgeKey(f.workspace, f.scope, f.id) }

  function UpsertEdge(edges: map<EdgeKey, EdgeRow>, n: Fact, now: Time): map<EdgeKey, EdgeRow> {
    var row := EdgeRow(SubjectEntity(n), ObjectEntity(n), n.pred, now);
    if EdgeKeyOf(n) in edges then
      edges[EdgeKeyOf(n) := row.(createdAt := edges[EdgeKeyOf(n)].createdAt)]
    else
      edges[EdgeKeyOf(n) := row]
  }

  function FtsOf(f: Fact): FtsRow {
    FtsRow(f.id, f.workspace, f.scope, f.subject, f.pred, f.obj, f.text)
  }

  function DeleteFts(fts: seq<FtsRow>, workspace: string, id: string): seq<FtsRow> {
    if fts == [] then []
    else if fts[0].workspace == workspace && fts[0].id == id then DeleteFts(fts[1..], workspace, id)
    else [fts[0]] + DeleteFts(fts[1..], workspace, id)
  }

  /** Every write of `approve_proposal_uncommitted` after the claim, in the order of its statements. */
  function WriteFact(db: Db, now: Time, n: Fact, payload: Payload): Db {
    Db(db.queue,
       UpsertFact(SupersedeStep(db.facts, n, payload, now), n),
       UpsertEdge(db.edges, n, now),
       UpsertEntity(UpsertEntity(db.entities, SubjectEntity(n), now), ObjectEntity(n), now),
       UpsertEpisode(db.episodes, n, now),
       DeleteFts(db.fts, n.workspace, n.id) + [FtsOf(n)])
  }

  function Approve(db: Db, workspace: string, now: Time, id: string): Result<Db> {
    var claimed :- Claim(db, workspace, now, id, true);
    var row := claimed.queue[id];
    if row.payload.kind != "fact" then
      Err("memory approve only supports fact proposals")
    else
      Ok(WriteFact(claimed, now, DraftFact(workspace, now, id, row), row.payload))
  }

  function Reject(db: Db, workspace: string, now: Time, id: string): Result<Db> {
    Claim(db, workspace, now, id, false)
  }

  // ---------------------------------------------------------------- transactions

  datatype Op =
    | EnqueueOp(proposal: ProposalInput)
    | ApproveOp(id: string)
    | RejectOp(id: string)

  function Apply(db: Db, workspace: string, now: Time, op: Op): Result<Db> {
    match op
    case EnqueueOp(p) => Enqueue(db, workspace, now, p)
    case ApproveOp(id) => Approve(db, workspace, now, id)
    case RejectOp(id) => Reject(db, workspace, now, id)
  }

  /** The statements between BEGIN and the end of the closure: the first error stops them. */
  function ApplyAll(db: Db, workspace: string, now: Time, ops: seq<Op>): Result<Db>
    decreases |ops|
  {
    if ops == [] then Ok(db)
    else
      var next :- Apply(db, workspace, now, ops[0]);
      ApplyAll(next, workspace, now, ops[1..])
  }

  /** One client transaction: `begin`, the operations, `finish`. */
  datatype Transaction = Transaction(workspace: string, now: Time, ops: seq<Op>)

  function Commit(db: Db, t: Transaction): Db {
    match ApplyAll(db, t.workspace, t.now, t.ops)
    case Ok(next) => next
    case Err(_) => db
  }

  function Run(db: Db, ts: seq<Transaction>): Db
    decreases |ts|
  {
    if ts == [] then db else Run(Commit(db, ts[0]), ts[1..])
  }

  /** Every proposal that is enqueued carries its prefix once. */
  predicate BuiltOp(op: Op) {
    op.EnqueueOp? ==> PlainId(op.proposal.id)
  }

  predicate Built(t: Transaction) {
    forall i :: 0 <= i < |t.ops| ==> BuiltOp(t.ops[i])
  }
}
