/**
 Incremental reads. A client takes one full read and then applies deltas: add what `d` lists, drop
 what `r` lists. The module shows when that keeps the client equal to the current truth.

 A LIMIT is modelled by any choice of that many rows, so nothing depends on the ORDER BY.
 */
module DeltaSync {
  import opened Wrappers
  import opened StoreModel
  import opened StoreInvariants
  import opened StoreHistory

  // ---------------------------------------------------------------- the reads

  predicate InScope(f: Fact, workspace: string, scope: string) {
    f.workspace == workspace && f.scope == scope
  }

  /** The temporal part of the WHERE clause of `recall_facts`. */
  predicate Recallable(f: Fact, now: Time) {
    f.validFrom <= now && (f.validUntil.None? || f.validUntil.value > now)
  }

  predicate Current(f: Fact) {
    f.status.Active? && f.supersededBy.None?
  }

  /** `changed_since`; `updated_at` is never empty here. */
  predicate ChangedSince(f: Fact, since: Time) {
    f.updatedAt > since
  }

  function RecallRows(facts: seq<Fact>, workspace: string, scope: string, now: Time): set<Fact> {
    set f | f in facts && InScope(f, workspace, scope) && Recallable(f, now)
  }

  function ScopeRows(facts: seq<Fact>, workspace: string, scope: string): set<Fact> {
    set f | f in facts && InScope(f, workspace, scope)
  }

  /** `rows` answers a query with matches `all` and the given LIMIT. */
  predicate Limited(rows: set<Fact>, all: set<Fact>, limit: nat) {
    rows <= all && |rows| == if |all| <= limit then |all| else limit
  }

  /** The limit itself, or the nearer end of the range. */
  function Clamp(limit: nat, low: nat, high: nat): (r: nat)
    requires low <= high
    ensures low <= r <= high && (low <= limit <= high ==> r == limit)
    ensures (limit < low ==> r == low) && (limit > high ==> r == high)
  {
    if limit < low then low else if limit > high then high else limit
  }

  const RECALL_CAP := 100
  const RETRACTED_CAP := 500

  function Ids(rows: set<Fact>): set<string> {
    set f | f in rows :: f.id
  }

  function CurrentOf(rows: set<Fact>): set<Fact> {
    set f | f in rows && Current(f)
  }

  function ChangedOf(rows: set<Fact>, since: Time): set<Fact> {
    set f | f in rows && Current(f) && ChangedSince(f, since)
  }

  function RetractedOf(rows: set<Fact>, since: Time): set<Fact> {
    set f | f in rows && f.status.Superseded? && f.supersededBy.Some? && ChangedSince(f, since)
  }

  /** `recall_current_truth` with no filters: the page, the status filter, then `take(limit)`. */
  ghost predicate IsFullRead(ids: set<string>, db: Db, workspace: string, scope: string, now: Time, limit: nat) {
    exists page, taken ::
      && Limited(page, RecallRows(db.facts, workspace, scope, now), Clamp(limit, 1, RECALL_CAP))
      && Limited(taken, CurrentOf(page), limit)
      && ids == Ids(taken)
  }

  /** The `d` part of `recall_delta`. */
  ghost predicate IsChanges(ids: set<string>, db: Db, workspace: string, scope: string, now: Time, limit: nat, since: Time) {
    exists page, taken ::
      && Limited(page, RecallRows(db.facts, workspace, scope, now), Clamp(limit, 1, RECALL_CAP))
      && Limited(taken, ChangedOf(page, since), limit)
      && ids == Ids(taken)
  }

  /** The `r` part: `retracted_ids`. */
  ghost predicate IsRetracted(ids: set<string>, db: Db, workspace: string, scope: string, since: Time) {
    exists page ::
      && Limited(page, ScopeRows(db.facts, workspace, scope), RETRACTED_CAP)
      && ids == Ids(RetractedOf(page, since))
  }

  /** The ids of the active facts in scope, whatever the time. */
  function Truth(facts: seq<Fact>, workspace: string, scope: string): set<string> {
    Ids(CurrentOf(ScopeRows(facts, workspace, scope)))
  }

  lemma {:induction false} TruthIsActive(db: Db, workspace: string, scope: string)
    requires Inv(db)
    ensures Truth(db.facts, workspace, scope) == set f | f in db.facts && f.workspace == workspace && f.scope == scope && f.status.Active? :: f.id
  {
    hide QueueInv, Provenance, EdgesAgree, EntitiesAgree, EpisodesAgree, FtsAgrees, OneTruth;
    assert forall f :: f in db.facts && f.status.Active? ==> f.supersededBy.None?;
    var a, b := Truth(db.facts, workspace, scope), set f | f in db.facts && f.workspace == workspace && f.scope == scope && f.status.Active? :: f.id;
    forall x | x in b ensures x in a {
      var f :| f in db.facts && f.workspace == workspace && f.scope == scope && f.status.Active? && f.id == x;
      assert f in CurrentOf(ScopeRows(db.facts, workspace, scope));
    }
  }

  // ---------------------------------------------------------------- time

  /** Nothing in the database is dated after `clock`. */
  ghost predicate NotAfter(db: Db, clock: Time) {
    && (forall id :: id in db.queue && db.queue[id].payload.observedAt.Some? ==> db.queue[id].payload.observedAt.value <= clock)
    && (forall i :: 0 <= i < |db.facts| ==> db.facts[i].validFrom <= clock && db.facts[i].updatedAt <= clock)
  }

  /** Every fact of `db` is as it was in `base`, or was written after `since`. */
  ghost predicate ChangedAfter(base: Db, db: Db, since: Time) {
    && |base.facts| <= |db.facts|
    && forall i :: 0 <= i < |db.facts| ==>
         (i < |base.facts| && db.facts[i] == base.facts[i]) || db.facts[i].updatedAt > since
  }

  /** A proposal is observed when it is built: `build_proposal_input` stores the client's `now`. */
  predicate TimedOp(op: Op, now: Time) {
    op.EnqueueOp? ==> op.proposal.payload.observedAt == Some(now)
  }

  predicate Timed(t: Transaction) {
    forall i :: 0 <= i < |t.ops| ==> TimedOp(t.ops[i], t.now)
  }

  /** Operations on the queue alone date nothing later than `now`. */
  lemma {:induction false} QueueTimes(db: Db, workspace: string, now: Time, op: Op, clock: Time)
    requires !op.ApproveOp? && TimedOp(op, now) && Apply(db, workspace, now, op).Ok?
    requires NotAfter(db, clock) && clock <= now
    ensures NotAfter(Apply(db, workspace, now, op).value, now) && Apply(db, workspace, now, op).value.facts == db.facts
  {
    hide PlainId;
  }

  lemma {:induction false} OpTimes(base: Db, db: Db, workspace: string, now: Time, op: Op, clock: Time, since: Time)
    requires Inv(db) && BuiltOp(op) && TimedOp(op, now) && Apply(db, workspace, now, op).Ok?
    requires NotAfter(db, clock) && clock <= now && since < now && ChangedAfter(base, db, since)
    ensures NotAfter(Apply(db, workspace, now, op).value, now)
    ensures ChangedAfter(base, Apply(db, workspace, now, op).value, since)
  {
    hide PlainId, Approve, Enqueue, Reject, Inv;
    if !op.ApproveOp? {
      QueueTimes(db, workspace, now, op, clock);
    } else {
      var id := op.id;
      ApproveShape(db, workspace, now, id);
      ApprovalTimes(base, db, Approve(db, workspace, now, id).value, now, id, NewFact(db, workspace, now, id), clock, since);
    }
  }

  lemma {:induction false} ApprovalTimes(base: Db, db: Db, db': Db, now: Time, id: string, n: Fact, clock: Time, since: Time)
    requires Approval(db, db', now, id, n) && n.validFrom == db.queue[id].payload.observedAt.GetOr(now)
    requires NotAfter(db, clock) && clock <= now && since < now && ChangedAfter(base, db, since)
    ensures NotAfter(db', now) && ChangedAfter(base, db', since)
  {
    hide FactIdOf, SupersedeStep, Approves;
    SupersedeStepFrame(db.facts, n, db.queue[id].payload, now);
    forall i | 0 <= i < |db.facts|
      ensures db'.facts[i].validFrom == db.facts[i].validFrom
      ensures db'.facts[i] == db.facts[i] || db'.facts[i].updatedAt == now
    {
      assert SameIdentity(db'.facts[i], db.facts[i]);
    }
  }

  lemma {:induction false} OpsTimes(base: Db, db: Db, workspace: string, now: Time, ops: seq<Op>, clock: Time, since: Time)
    requires Inv(db) && ApplyAll(db, workspace, now, ops).Ok?
    requires forall i :: 0 <= i < |ops| ==> BuiltOp(ops[i]) && TimedOp(ops[i], now)
    requires NotAfter(db, clock) && clock <= now && since < now && ChangedAfter(base, db, since)
    ensures NotAfter(ApplyAll(db, workspace, now, ops).value, now)
    ensures ChangedAfter(base, ApplyAll(db, workspace, now, ops).value, since)
    decreases |ops|
  {
    hide PlainId, Apply, Inv;
    if ops != [] {
      OpTimes(base, db, workspace, now, ops[0], clock, since);
      OpKeepsInv(db, workspace, now, ops[0]);
      OpsTimes(base, Apply(db, workspace, now, ops[0]).value, workspace, now, ops[1..], now, since);
    }
  }

  // ---------------------------------------------------------------- one synchronisation

  /** When nothing is dated in the future, the recallable current facts are the active ones. */
  lemma {:induction false} NothingHidden(db: Db, now: Time)
    requires Inv(db) && NotAfter(db, now)
    ensures forall f :: f in db.facts ==> (Recallable(f, now) <==> Current(f))
    ensures forall f :: f in db.facts ==> (f.status.Superseded? <==> !Current(f)) && (f.status.Superseded? <==> f.supersededBy.Some?)
  {
    hide QueueInv, Provenance, EdgesAgree, EntitiesAgree, EpisodesAgree, FtsAgrees, OneTruth;
    forall i | 0 <= i < |db.facts| ensures Recallable(db.facts[i], now) <==> Current(db.facts[i]) {
      if db.facts[i].status.Superseded? {
        assert HasSuccessor(db.facts, i);
      }
    }
  }

  lemma {:induction false} LimitedWhole(rows: set<Fact>, all: set<Fact>, limit: nat)
    requires Limited(rows, all, limit) && |all| <= limit
    ensures rows == all
  {
    if x :| x in all && x !in rows {
      assert rows + {x} <= all;
      SubsetSize(rows + {x}, all);
    }
  }

  lemma {:induction false} SubsetSize<T>(a: set<T>, b: set<T>)
    requires a <= b
    ensures |a| <= |b|
    decreases a
  {
    if x :| x in a {
      SubsetSize(a - {x}, b - {x});
    }
  }

  /** Below the caps both halves of a delta are complete. */
  lemma {:induction false} DeltaContents(db: Db, workspace: string, scope: string, now: Time, limit: nat, since: Time, d: set<string>, r: set<string>)
    requires Inv(db) && NotAfter(db, now)
    requires IsChanges(d, db, workspace, scope, now, limit, since) && IsRetracted(r, db, workspace, scope, since)
    requires |RecallRows(db.facts, workspace, scope, now)| <= limit && |RecallRows(db.facts, workspace, scope, now)| <= 100
    requires |ScopeRows(db.facts, workspace, scope)| <= 500
    ensures d == Ids(ChangedOf(ScopeRows(db.facts, workspace, scope), since))
    ensures r == Ids(RetractedOf(ScopeRows(db.facts, workspace, scope), since))
  {
    hide Inv, NotAfter;
    NothingHidden(db, now);
    var rows := RecallRows(db.facts, workspace, scope, now);
    var page: set<Fact>, taken: set<Fact> :| Limited(page, rows, Clamp(limit, 1, RECALL_CAP))
      && Limited(taken, ChangedOf(page, since), limit) && d == Ids(taken);
    LimitedWhole(page, rows, Clamp(limit, 1, RECALL_CAP));
    var changed := ChangedOf(page, since);
    SubsetSize(changed, rows);
    LimitedWhole(taken, changed, limit);
    assert changed == ChangedOf(ScopeRows(db.facts, workspace, scope), since);
    var page' :| Limited(page', ScopeRows(db.facts, workspace, scope), RETRACTED_CAP) && r == Ids(RetractedOf(page', since));
    LimitedWhole(page', ScopeRows(db.facts, workspace, scope), RETRACTED_CAP);
  }

  /** A full read below the cap returns the truth. */
  lemma {:induction false} FullReadIsTruth(db: Db, workspace: string, scope: string, now: Time, limit: nat, ids: set<string>)
    requires Inv(db) && NotAfter(db, now)
    requires IsFullRead(ids, db, workspace, scope, now, limit)
    requires |RecallRows(db.facts, workspace, scope, now)| <= limit && |RecallRows(db.facts, workspace, scope, now)| <= 100
    ensures ids == Truth(db.facts, workspace, scope)
  {
    hide Inv, NotAfter;
    NothingHidden(db, now);
    var rows := RecallRows(db.facts, workspace, scope, now);
    var page: set<Fact>, taken: set<Fact> :| Limited(page, rows, Clamp(limit, 1, RECALL_CAP))
      && Limited(taken, CurrentOf(page), limit) && ids == Ids(taken);
    LimitedWhole(page, rows, Clamp(limit, 1, RECALL_CAP));
    var current := CurrentOf(page);
    SubsetSize(current, rows);
    LimitedWhole(taken, current, limit);
    assert current == CurrentOf(ScopeRows(db.facts, workspace, scope));
  }

  /** Applying one complete delta to the truth at the cursor gives the truth now. */
  lemma {:induction false} DeltaReachesTruth(base: Db, db: Db, workspace: string, scope: string, since: Time, d: set<string>, r: set<string>)
    requires Inv(db) && NotAfter(base, since) && Evolves(base, db) && ChangedAfter(base, db, since)
    requires d == Ids(ChangedOf(ScopeRows(db.facts, workspace, scope), since))
    requires r == Ids(RetractedOf(ScopeRows(db.facts, workspace, scope), since))
    requires Inv(base)
    ensures Truth(base.facts, workspace, scope) + d - r == Truth(db.facts, workspace, scope)
  {
    hide QueueInv, Provenance, EdgesAgree, EntitiesAgree, EpisodesAgree, FtsAgrees, OneTruth, SameIdentity;
    var held, truth := Truth(base.facts, workspace, scope), Truth(db.facts, workspace, scope);
    forall x | x in truth ensures x in held + d - r {
      var f :| f in CurrentOf(ScopeRows(db.facts, workspace, scope)) && f.id == x;
      var i :| 0 <= i < |db.facts| && db.facts[i] == f;
      if x in r {
        var g :| g in RetractedOf(ScopeRows(db.facts, workspace, scope), since) && g.id == x;
        var j :| 0 <= j < |db.facts| && db.facts[j] == g;
        FactIdsDistinct(db, i, j);
      }
      if !ChangedSince(f, since) {
        assert base.facts[i] == f;
        assert f in CurrentOf(ScopeRows(base.facts, workspace, scope));
      } else {
        assert f in ChangedOf(ScopeRows(db.facts, workspace, scope), since);
      }
    }
    forall x | x in held + d - r ensures x in truth {
      if x in d {
        var f :| f in ChangedOf(ScopeRows(db.facts, workspace, scope), since) && f.id == x;
        assert f in CurrentOf(ScopeRows(db.facts, workspace, scope));
      } else {
        HeldStaysTrue(base, db, workspace, scope, since, x);
      }
    }
  }

  /** What the client held and `r` does not drop is still true. */
  lemma {:induction false} HeldStaysTrue(base: Db, db: Db, workspace: string, scope: string, since: Time, x: string)
    requires Inv(db) && Inv(base) && NotAfter(base, since) && Evolves(base, db) && ChangedAfter(base, db, since)
    requires x in Truth(base.facts, workspace, scope)
    requires x !in Ids(RetractedOf(ScopeRows(db.facts, workspace, scope), since))
    ensures x in Truth(db.facts, workspace, scope)
  {
    hide QueueInv, Provenance, EdgesAgree, EntitiesAgree, EpisodesAgree, FtsAgrees, OneTruth;
    var f :| f in CurrentOf(ScopeRows(base.facts, workspace, scope)) && f.id == x;
    var i :| 0 <= i < |base.facts| && base.facts[i] == f;
    var g := db.facts[i];
    assert FactEvolves(f, g);
    assert g in ScopeRows(db.facts, workspace, scope) && g.id == x;
    assert Current(g) || g in RetractedOf(ScopeRows(db.facts, workspace, scope), since);
    assert g in CurrentOf(ScopeRows(db.facts, workspace, scope));
  }

  // ---------------------------------------------------------------- whole runs

  /** `base` is the database at the last read, `cursor` that read's `now`, `held` the client's ids. */
  datatype Session = Session(db: Db, clock: Time, base: Db, cursor: Time, held: set<string>)

  datatype SyncEvent =
    | Write(t: Transaction)
    | Read(now: Time, d: set<string>, r: set<string>)

  /** Clocks do not run backwards, writes come strictly after the cursor, and the read fits the caps. */
  ghost predicate Enabled(s: Session, e: SyncEvent, workspace: string, scope: string, limit: nat) {
    match e
    case Write(t) => Built(t) && Timed(t) && s.clock <= t.now && s.cursor < t.now
    case Read(now, d, r) =>
      && s.clock <= now
      && IsChanges(d, s.db, workspace, scope, now, limit, s.cursor)
      && IsRetracted(r, s.db, workspace, scope, s.cursor)
      && |RecallRows(s.db.facts, workspace, scope, now)| <= limit
      && |RecallRows(s.db.facts, workspace, scope, now)| <= 100
      && |ScopeRows(s.db.facts, workspace, scope)| <= 500
  }

  function Next(s: Session, e: SyncEvent): Session {
    match e
    case Write(t) => s.(db := Commit(s.db, t), clock := t.now)
    case Read(now, d, r) => Session(s.db, now, s.db, now, s.held + d - r)
  }

  function Play(s: Session, events: seq<SyncEvent>): Session
    decreases |events|
  {
    if events == [] then s else Play(Next(s, events[0]), events[1..])
  }

  ghost predicate AllEnabled(s: Session, events: seq<SyncEvent>, workspace: string, scope: string, limit: nat)
    decreases |events|
  {
    events != [] ==>
      Enabled(s, events[0], workspace, scope, limit) && AllEnabled(Next(s, events[0]), events[1..], workspace, scope, limit)
  }

  ghost predicate InSync(s: Session, workspace: string, scope: string) {
    && Inv(s.db) && Inv(s.base)
    && s.cursor <= s.clock && NotAfter(s.db, s.clock) && NotAfter(s.base, s.cursor)
    && Evolves(s.base, s.db) && ChangedAfter(s.base, s.db, s.cursor)
    && s.held == Truth(s.base.facts, workspace, scope)
  }

  lemma {:induction false} NextKeepsSync(s: Session, e: SyncEvent, workspace: string, scope: string, limit: nat)
    requires InSync(s, workspace, scope) && Enabled(s, e, workspace, scope, limit)
    ensures InSync(Next(s, e), workspace, scope)
  {
    hide Inv, Truth, IsChanges, IsRetracted, RecallRows, ScopeRows, ApplyAll;
    match e
    case Write(t) =>
      CommitEvolves(s.db, t);
      EvolvesTransitive(s.base, s.db, Commit(s.db, t));
      if ApplyAll(s.db, t.workspace, t.now, t.ops).Ok? {
        OpsTimes(s.base, s.db, t.workspace, t.now, t.ops, s.clock, s.cursor);
      }
    case Read(now, d, r) =>
      LaterClock(s.db, s.clock, now);
      DeltaContents(s.db, workspace, scope, now, limit, s.cursor, d, r);
      DeltaReachesTruth(s.base, s.db, workspace, scope, s.cursor, d, r);
  }

  lemma {:induction false} LaterClock(db: Db, clock: Time, now: Time)
    requires NotAfter(db, clock) && clock <= now
    ensures NotAfter(db, now)
  {
  }

  /** After any run of timely writes and complete reads the client holds the truth as of its last read. */
  lemma {:induction false} ClientHoldsTruth(s: Session, events: seq<SyncEvent>, workspace: string, scope: string, limit: nat)
    requires InSync(s, workspace, scope) && AllEnabled(s, events, workspace, scope, limit)
    ensures InSync(Play(s, events), workspace, scope)
    ensures var last := Play(s, events); last.held == Truth(last.base.facts, workspace, scope)
    ensures events != [] && events[|events| - 1].Read? ==>
      var last := Play(s, events); last.held == Truth(last.db.facts, workspace, scope)
    decreases |events|
  {
    hide InSync, Enabled, Next;
    if events == [] {
      SyncHeld(s, workspace, scope);
    } else {
      NextKeepsSync(s, events[0], workspace, scope, limit);
      ClientHoldsTruth(Next(s, events[0]), events[1..], workspace, scope, limit);
      if |events| == 1 {
        AfterRead(s, events[0]);
      }
    }
  }

  lemma {:induction false} SyncHeld(s: Session, workspace: string, scope: string)
    requires InSync(s, workspace, scope)
    ensures s.held == Truth(s.base.facts, workspace, scope)
  {
  }

  lemma {:induction false} AfterRead(s: Session, e: SyncEvent)
    ensures e.Read? ==> Next(s, e).base == Next(s, e).db
  {
  }

  /** A session opened by a full read is in sync. */
  lemma {:induction false} FullReadOpensSession(db: Db, workspace: string, scope: string, now: Time, limit: nat, ids: set<string>)
    requires Inv(db) && NotAfter(db, now) && IsFullRead(ids, db, workspace, scope, now, limit)
    requires |RecallRows(db.facts, workspace, scope, now)| <= limit && |RecallRows(db.facts, workspace, scope, now)| <= 100
    ensures InSync(Session(db, now, db, now, ids), workspace, scope)
  {
    hide Inv, IsFullRead, RecallRows;
    FullReadIsTruth(db, workspace, scope, now, limit, ids);
  }

  // ---------------------------------------------------------------- exactly when a delta suffices

  /** What a read at `now` shows, below the caps. */
  function Shown(facts: seq<Fact>, workspace: string, scope: string, now: Time): set<string> {
    Ids(CurrentOf(RecallRows(facts, workspace, scope, now)))
  }

  /** Due by `now`, written no later than the cursor, and yet not shown at the cursor. */
  predicate MissedAddition(base: Db, db: Db, workspace: string, scope: string, since: Time, now: Time, i: nat)
    requires i < |db.facts|
  {
    var f := db.facts[i];
    && InScope(f, workspace, scope) && Current(f)
    && f.updatedAt <= since && f.validFrom <= now
    && (i >= |base.facts| || since < f.validFrom)
  }

  /** Shown at the cursor and superseded since, by a write no later than the cursor. */
  predicate MissedRetraction(base: Db, db: Db, workspace: string, scope: string, since: Time, i: nat)
    requires i < |db.facts|
  {
    && i < |base.facts|
    && InScope(base.facts[i], workspace, scope) && Current(base.facts[i]) && base.facts[i].validFrom <= since
    && !Current(db.facts[i]) && db.facts[i].updatedAt <= since
  }

  predicate Missed(base: Db, db: Db, workspace: string, scope: string, since: Time, now: Time, i: nat)
    requires i < |db.facts|
  {
    MissedAddition(base, db, workspace, scope, since, now, i) || MissedRetraction(base, db, workspace, scope, since, i)
  }

  /** Among rows of the table an id stands for one row. */
  lemma {:induction false} IdIn(db: Db, rows: set<Fact>, i: nat)
    requires Inv(db) && i < |db.facts| && forall f :: f in rows ==> f in db.facts
    ensures db.facts[i].id in Ids(rows) <==> db.facts[i] in rows
  {
    hide Inv;
    if db.facts[i].id in Ids(rows) {
      var f :| f in rows && f.id == db.facts[i].id;
      var j :| 0 <= j < |db.facts| && db.facts[j] == f;
      FactIdsDistinct(db, i, j);
    }
  }

  /** How a fact of the earlier database stands in the later one. */
  lemma {:induction false} EarlierFact(base: Db, db: Db, i: nat)
    requires Inv(base) && Inv(db) && Evolves(base, db) && i < |base.facts|
    ensures i < |db.facts|
    ensures var f, g := base.facts[i], db.facts[i];
            && g.id == f.id && g.workspace == f.workspace && g.scope == f.scope && g.validFrom == f.validFrom
            && (Current(g) ==> g == f)
            && (f.status.Active? <==> Current(f)) && (Current(f) ==> f.validUntil.None?)
  {
    hide QueueInv, Provenance, EdgesAgree, EntitiesAgree, EpisodesAgree, FtsAgrees, OneTruth;
    var f, g := base.facts[i], db.facts[i];
    assert FactEvolves(f, g);
    if g != f {
      assert RetiredFrom(db.facts, i, |base.facts|);
    }
  }

  /** An id shown at the cursor is that of an earlier fact. */
  lemma {:induction false} ShownEarlier(base: Db, db: Db, workspace: string, scope: string, since: Time, i: nat)
    requires Inv(base) && Inv(db) && Evolves(base, db) && i < |db.facts|
    ensures db.facts[i].id in Shown(base.facts, workspace, scope, since) <==>
            i < |base.facts| && InScope(base.facts[i], workspace, scope) && Current(base.facts[i]) && base.facts[i].validFrom <= since
  {
    hide Inv, Evolves;
    var rows := CurrentOf(RecallRows(base.facts, workspace, scope, since));
    if i < |base.facts| {
      EarlierFact(base, db, i);
      IdIn(base, rows, i);
    } else if db.facts[i].id in Ids(rows) {
      var f :| f in rows && f.id == db.facts[i].id;
      var j :| 0 <= j < |base.facts| && base.facts[j] == f;
      EarlierFact(base, db, j);
      FactIdsDistinct(db, i, j);
    }
  }

  lemma {:induction false} ShownNow(db: Db, workspace: string, scope: string, since: Time, now: Time, i: nat)
    requires Inv(db) && i < |db.facts|
    ensures var f := db.facts[i];
            && (f.id in Shown(db.facts, workspace, scope, now) <==> InScope(f, workspace, scope) && Current(f) && f.validFrom <= now)
            && (f.id in Ids(ChangedOf(RecallRows(db.facts, workspace, scope, now), since)) <==>
                  InScope(f, workspace, scope) && Current(f) && f.validFrom <= now && f.updatedAt > since)
            && (f.id in Ids(RetractedOf(ScopeRows(db.facts, workspace, scope), since)) <==>
                  InScope(f, workspace, scope) && !Current(f) && f.updatedAt > since)
  {
    hide Inv, Evolves;
    EvolvesToItself(db);
    EarlierFact(db, db, i);
    SupersededHasSuccessor(db, i);
    IdIn(db, CurrentOf(RecallRows(db.facts, workspace, scope, now)), i);
    IdIn(db, ChangedOf(RecallRows(db.facts, workspace, scope, now), since), i);
    IdIn(db, RetractedOf(ScopeRows(db.facts, workspace, scope), since), i);
  }

  lemma {:induction false} EvolvesToItself(db: Db)
    ensures Evolves(db, db)
  {
  }

  lemma {:induction false} SupersededHasSuccessor(db: Db, i: nat)
    requires Inv(db) && i < |db.facts|
    ensures db.facts[i].status.Superseded? <==> db.facts[i].supersededBy.Some?
  {
    hide QueueInv, Provenance, EdgesAgree, EntitiesAgree, EpisodesAgree, FtsAgrees, OneTruth;
  }

  /**
   For one id: adding what the delta lists and dropping what it retracts gives the wrong answer
   exactly when the fact is missed.
   */
  lemma {:induction false} OneIdIsExact(base: Db, db: Db, workspace: string, scope: string, since: Time, now: Time, i: nat)
    requires Inv(base) && Inv(db) && Evolves(base, db) && since <= now && i < |db.facts|
    ensures var d, r := Ids(ChangedOf(RecallRows(db.facts, workspace, scope, now), since)), Ids(RetractedOf(ScopeRows(db.facts, workspace, scope), since));
            var x := db.facts[i].id;
            (x in Shown(base.facts, workspace, scope, since) + d - r <==> x in Shown(db.facts, workspace, scope, now)) <==>
            !Missed(base, db, workspace, scope, since, now, i)
  {
    hide Inv, Evolves, Shown, ChangedOf, RetractedOf, RecallRows, ScopeRows, Ids;
    ShownEarlier(base, db, workspace, scope, since, i);
    ShownNow(db, workspace, scope, since, now, i);
    if i < |base.facts| {
      EarlierFact(base, db, i);
    }
  }

  /** Every id that a read or a delta can mention is that of a fact. */
  lemma {:induction false} MentionedIsFact(base: Db, db: Db, workspace: string, scope: string, since: Time, now: Time, x: string) returns (i: nat)
    requires Inv(base) && Inv(db) && Evolves(base, db)
    requires || x in Shown(base.facts, workspace, scope, since) || x in Shown(db.facts, workspace, scope, now)
             || x in Ids(ChangedOf(RecallRows(db.facts, workspace, scope, now), since))
    ensures i < |db.facts| && db.facts[i].id == x
  {
    hide Inv, Evolves;
    if x in Shown(base.facts, workspace, scope, since) {
      var f :| f in base.facts && f.id == x;
      i :| 0 <= i < |base.facts| && base.facts[i] == f;
      EarlierFact(base, db, i);
    } else {
      var f :| f in db.facts && f.id == x;
      i :| 0 <= i < |db.facts| && db.facts[i] == f;
    }
  }

  /**
   Exactly when a complete delta suffices, whatever the clocks did: the client ends up with what a
   read at `now` shows if and only if no fact was missed.
   */
  lemma {:induction false} DeltaIsExactIff(base: Db, db: Db, workspace: string, scope: string, since: Time, now: Time)
    requires Inv(base) && Inv(db) && Evolves(base, db) && since <= now
    ensures var d, r := Ids(ChangedOf(RecallRows(db.facts, workspace, scope, now), since)), Ids(RetractedOf(ScopeRows(db.facts, workspace, scope), since));
            Shown(base.facts, workspace, scope, since) + d - r == Shown(db.facts, workspace, scope, now) <==>
            forall i :: 0 <= i < |db.facts| ==> !Missed(base, db, workspace, scope, since, now, i)
  {
    hide Inv, Evolves, Shown, ChangedOf, RetractedOf, RecallRows, ScopeRows, Ids, Missed;
    var d, r := Ids(ChangedOf(RecallRows(db.facts, workspace, scope, now), since)), Ids(RetractedOf(ScopeRows(db.facts, workspace, scope), since));
    var got, want := Shown(base.facts, workspace, scope, since) + d - r, Shown(db.facts, workspace, scope, now);
    forall i | 0 <= i < |db.facts|
      ensures (db.facts[i].id in got <==> db.facts[i].id in want) <==> !Missed(base, db, workspace, scope, since, now, i)
    {
      OneIdIsExact(base, db, workspace, scope, since, now, i);
    }
    if forall i :: 0 <= i < |db.facts| ==> !Missed(base, db, workspace, scope, since, now, i) {
      forall x | x in got || x in want ensures x in got && x in want {
        var i := MentionedIsFact(base, db, workspace, scope, since, now, x);
      }
      assert got == want;
    }
  }

  /** The complete answers: what changed, and what was retracted. */
  function AllChanges(db: Db, workspace: string, scope: string, since: Time, now: Time): set<string> {
    Ids(ChangedOf(RecallRows(db.facts, workspace, scope, now), since))
  }

  function AllRetracted(db: Db, workspace: string, scope: string, since: Time): set<string> {
    Ids(RetractedOf(ScopeRows(db.facts, workspace, scope), since))
  }

  /** Below the caps a full read and both halves of a delta are complete. */
  lemma {:induction false} ReadsAreComplete(db: Db, workspace: string, scope: string, now: Time, limit: nat, since: Time)
    requires |RecallRows(db.facts, workspace, scope, now)| <= limit && |RecallRows(db.facts, workspace, scope, now)| <= 100
    requires |ScopeRows(db.facts, workspace, scope)| <= 500
    ensures forall ids :: IsFullRead(ids, db, workspace, scope, now, limit) ==> ids == Shown(db.facts, workspace, scope, now)
    ensures forall d :: IsChanges(d, db, workspace, scope, now, limit, since) ==> d == AllChanges(db, workspace, scope, since, now)
    ensures forall r :: IsRetracted(r, db, workspace, scope, since) ==> r == AllRetracted(db, workspace, scope, since)
  {
    var rows, cap := RecallRows(db.facts, workspace, scope, now), Clamp(limit, 1, RECALL_CAP);
    hide RecallRows, ScopeRows, Ids;
    forall page, taken, some | Limited(page, rows, cap) && some <= page && Limited(taken, some, limit) ensures page == rows && taken == some {
      LimitedWhole(page, rows, cap);
      SubsetSize(some, rows);
      LimitedWhole(taken, some, limit);
    }
    forall page | Limited(page, ScopeRows(db.facts, workspace, scope), RETRACTED_CAP) ensures page == ScopeRows(db.facts, workspace, scope) {
      LimitedWhole(page, ScopeRows(db.facts, workspace, scope), RETRACTED_CAP);
    }
  }

  /**
   What a client must not have lost to a limit: a changed fact cut from `d` that it did not hold, a
   retraction cut from `r` of a fact that it held, and a fact cut from the first read that is
   still shown and did not change.
   */
  ghost predicate CutsAreHarmless(base: Db, db: Db, workspace: string, scope: string, since: Time, now: Time, held: set<string>, d: set<string>, r: set<string>) {
    && AllChanges(db, workspace, scope, since, now) - d <= held
    && (AllRetracted(db, workspace, scope, since) - r) * held == {}
    && Shown(base.facts, workspace, scope, since) * Shown(db.facts, workspace, scope, now) - AllChanges(db, workspace, scope, since, now) <= held
  }

  /** A missed fact matters to this client: a missed retraction only if it holds the fact. */
  predicate MissedBy(base: Db, db: Db, workspace: string, scope: string, since: Time, now: Time, held: set<string>, i: nat)
    requires i < |db.facts|
  {
    || MissedAddition(base, db, workspace, scope, since, now, i)
    || (MissedRetraction(base, db, workspace, scope, since, i) && db.facts[i].id in held)
  }

  /** What the limits cut is cut off the complete answers, and never adds to them. */
  predicate CutAnswers(base: Db, db: Db, workspace: string, scope: string, since: Time, now: Time, held: set<string>, d: set<string>, r: set<string>) {
    && held <= Shown(base.facts, workspace, scope, since)
    && d <= AllChanges(db, workspace, scope, since, now)
    && r <= AllRetracted(db, workspace, scope, since)
  }

  /** Any answers the store may give, whatever their limits and their order, are of that kind. */
  lemma {:induction false} AnswersAreCut(base: Db, db: Db, workspace: string, scope: string, since: Time, now: Time, limit: nat, first: nat,
                      held: set<string>, d: set<string>, r: set<string>)
    requires IsFullRead(held, base, workspace, scope, since, first)
    requires IsChanges(d, db, workspace, scope, now, limit, since) && IsRetracted(r, db, workspace, scope, since)
    ensures CutAnswers(base, db, workspace, scope, since, now, held, d, r)
  {
    hide Current, ChangedSince, RecallRows, ScopeRows, Clamp;
  }

  /** One id under cut answers. */
  lemma {:induction false} OneIdIsCut(base: Db, db: Db, workspace: string, scope: string, since: Time, now: Time,
                   held: set<string>, d: set<string>, r: set<string>, i: nat)
    requires Inv(base) && Inv(db) && Evolves(base, db) && since <= now && i < |db.facts|
    requires CutAnswers(base, db, workspace, scope, since, now, held, d, r)
    ensures var x := db.facts[i].id;
            var all, gone := AllChanges(db, workspace, scope, since, now), AllRetracted(db, workspace, scope, since);
            (x in held + d - r <==> x in Shown(db.facts, workspace, scope, now)) <==>
            && !MissedBy(base, db, workspace, scope, since, now, held, i)
            && (x in all - d ==> x in held) && (x in gone - r ==> x !in held)
            && (x in Shown(base.facts, workspace, scope, since) * Shown(db.facts, workspace, scope, now) - all ==> x in held)
  {
    hide Inv, Evolves, Shown, ChangedOf, RetractedOf, RecallRows, ScopeRows, Ids;
    ShownEarlier(base, db, workspace, scope, since, i);
    ShownNow(db, workspace, scope, since, now, i);
    if i < |base.facts| {
      EarlierFact(base, db, i);
    }
  }

  lemma {:induction false} RetractedIsFact(db: Db, workspace: string, scope: string, since: Time, x: string) returns (i: nat)
    requires x in AllRetracted(db, workspace, scope, since)
    ensures i < |db.facts| && db.facts[i].id == x
  {
    var f :| f in db.facts && f.id == x;
    i :| 0 <= i < |db.facts| && db.facts[i] == f;
  }

  /**
   Exactly when a client is right, with no cap assumed on either side: no fact that matters to it was
   missed, and what the limits cut was harmless.
   */
  lemma {:induction false} ClientIsExactIff(base: Db, db: Db, workspace: string, scope: string, since: Time, now: Time,
                         held: set<string>, d: set<string>, r: set<string>)
    requires Inv(base) && Inv(db) && Evolves(base, db) && since <= now
    requires CutAnswers(base, db, workspace, scope, since, now, held, d, r)
    ensures held + d - r == Shown(db.facts, workspace, scope, now) <==>
            && (forall i :: 0 <= i < |db.facts| ==> !MissedBy(base, db, workspace, scope, since, now, held, i))
            && CutsAreHarmless(base, db, workspace, scope, since, now, held, d, r)
  {
    hide Inv, Evolves, Shown, AllChanges, AllRetracted, MissedBy;
    var got, want := held + d - r, Shown(db.facts, workspace, scope, now);
    var all, gone, was := AllChanges(db, workspace, scope, since, now), AllRetracted(db, workspace, scope, since), Shown(base.facts, workspace, scope, since);
    forall i | 0 <= i < |db.facts|
      ensures var x := db.facts[i].id;
              (x in got <==> x in want) <==>
              && !MissedBy(base, db, workspace, scope, since, now, held, i)
              && (x in all - d ==> x in held) && (x in gone - r ==> x !in held) && (x in was * want - all ==> x in held)
    {
      OneIdIsCut(base, db, workspace, scope, since, now, held, d, r, i);
    }
    if got == want {
      forall x | x in all - d || x in gone - r || x in was * want - all
        ensures (x in all - d ==> x in held) && (x in gone - r ==> x !in held) && (x in was * want - all ==> x in held)
      {
        var i := AnyIsFact(base, db, workspace, scope, since, now, x);
      }
    }
    if (forall i :: 0 <= i < |db.facts| ==> !MissedBy(base, db, workspace, scope, since, now, held, i))
       && CutsAreHarmless(base, db, workspace, scope, since, now, held, d, r)
    {
      forall x | x in got || x in want ensures x in got && x in want {
        var i := AnyIsFact(base, db, workspace, scope, since, now, x);
        assert x in gone - r ==> x !in (gone - r) * held;
        assert db.facts[i].id == x && !MissedBy(base, db, workspace, scope, since, now, held, i);
      }
      assert got == want;
    }
  }

  lemma {:induction false} AnyIsFact(base: Db, db: Db, workspace: string, scope: string, since: Time, now: Time, x: string) returns (i: nat)
    requires Inv(base) && Inv(db) && Evolves(base, db)
    requires || x in Shown(base.facts, workspace, scope, since) || x in Shown(db.facts, workspace, scope, now)
             || x in AllChanges(db, workspace, scope, since, now) || x in AllRetracted(db, workspace, scope, since)
    ensures i < |db.facts| && db.facts[i].id == x
  {
    hide Inv, Evolves, Shown, Ids;
    if x in AllRetracted(db, workspace, scope, since) {
      i := RetractedIsFact(db, workspace, scope, since, x);
    } else {
      i := MentionedIsFact(base, db, workspace, scope, since, now, x);
    }
  }

  /** More new facts than one delta can carry: the client is wrong, though nothing was written too early. */
  lemma {:induction false} TooManyChanges(base: Db, db: Db, workspace: string, scope: string, since: Time, now: Time, limit: nat,
                       held: set<string>, d: set<string>, r: set<string>)
    requires Inv(base) && Inv(db) && Evolves(base, db) && since <= now
    requires IsChanges(d, db, workspace, scope, now, limit, since)
    requires CutAnswers(base, db, workspace, scope, since, now, held, d, r)
    requires |AllChanges(db, workspace, scope, since, now) - held| > Clamp(limit, 1, 100)
    ensures held + d - r != Shown(db.facts, workspace, scope, now)
  {
    hide Inv, Evolves, Shown, AllChanges, AllRetracted, MissedBy;
    ChangesFit(db, workspace, scope, now, limit, since, d);
    ClientIsExactIff(base, db, workspace, scope, since, now, held, d, r);
    var all := AllChanges(db, workspace, scope, since, now);
    if all - d <= held {
      assert all - held <= d;
      SubsetSize(all - held, d);
    }
  }

  lemma {:induction false} ChangesFit(db: Db, workspace: string, scope: string, now: Time, limit: nat, since: Time, d: set<string>)
    requires IsChanges(d, db, workspace, scope, now, limit, since)
    ensures |d| <= Clamp(limit, 1, 100)
  {
    hide Current, ChangedSince, RecallRows, Clamp;
    var page: set<Fact>, taken: set<Fact> :| Limited(page, RecallRows(db.facts, workspace, scope, now), Clamp(limit, 1, RECALL_CAP))
      && Limited(taken, ChangedOf(page, since), limit) && d == Ids(taken);
    SubsetSize(taken, page);
    IdsFit(taken);
  }

  lemma {:induction false} IdsFit(rows: set<Fact>)
    ensures |Ids(rows)| <= |rows|
    decreases rows
  {
    if f :| f in rows {
      IdsFit(rows - {f});
      assert Ids(rows) == Ids(rows - {f}) + {f.id};
    }
  }

  /** ORDER BY valid_from DESC: no row that was cut is newer than one that was kept. */
  predicate Newest(page: set<Fact>, all: set<Fact>, limit: nat) {
    Limited(page, all, limit) && forall f, g :: f in page && g in all - page ==> f.validFrom >= g.validFrom
  }

  /**
   What the order means for a cut: a changed fact left off the page has as many facts dated no
   earlier than itself as the page has rows, whether those changed or not.
   */
  lemma {:induction false} CutChangeIsOld(db: Db, workspace: string, scope: string, now: Time, limit: nat, since: Time, page: set<Fact>, f: Fact)
    requires Newest(page, RecallRows(db.facts, workspace, scope, now), Clamp(limit, 1, 100))
    requires f in ChangedOf(RecallRows(db.facts, workspace, scope, now), since) && f !in page
    ensures |set g | g in RecallRows(db.facts, workspace, scope, now) && g.validFrom >= f.validFrom| > Clamp(limit, 1, 100)
  {
    hide Current, ChangedSince, RecallRows, Clamp;
    var all := RecallRows(db.facts, workspace, scope, now);
    var newer := set g | g in all && g.validFrom >= f.validFrom;
    assert page + {f} <= newer;
    SubsetSize(page + {f}, newer);
    if |page| == |all| {
      LimitedWhole(page, all, |all|);
    }
  }

  /** If every write after the read was made after the cursor, only a fact that falls due later can be missed. */
  lemma {:induction false} OnlyFutureFactsAreMissed(base: Db, db: Db, workspace: string, scope: string, since: Time, now: Time, i: nat)
    requires Inv(base) && Inv(db) && Evolves(base, db) && ChangedAfter(base, db, since) && i < |db.facts|
    ensures var f := db.facts[i];
            Missed(base, db, workspace, scope, since, now, i) <==>
            InScope(f, workspace, scope) && Current(f) && f.updatedAt <= since < f.validFrom <= now
  {
    hide Inv, Evolves;
    if i < |base.facts| {
      EarlierFact(base, db, i);
    }
  }

  // ---------------------------------------------------------------- runs in which a fact is missed

  /**
   Whatever the limit: a current fact dated after the cursor but written before it is recalled at
   `now`, yet no delta since that cursor ever lists it.
   */
  lemma {:induction false} FutureFactIsMissed(db: Db, f: Fact, workspace: string, scope: string, now: Time, limit: nat, since: Time, d: set<string>)
    requires Inv(db) && f in db.facts && InScope(f, workspace, scope) && Current(f)
    requires f.updatedAt <= since < f.validFrom <= now
    requires IsChanges(d, db, workspace, scope, now, limit, since)
    ensures !Recallable(f, since) && Recallable(f, now) && f.id !in d
  {
    hide QueueInv, Provenance, EdgesAgree, EntitiesAgree, EpisodesAgree, FtsAgrees, OneTruth;
    if f.id in d {
      var page: set<Fact>, taken: set<Fact> :| Limited(page, RecallRows(db.facts, workspace, scope, now), Clamp(limit, 1, RECALL_CAP))
        && Limited(taken, ChangedOf(page, since), limit) && d == Ids(taken);
      var g :| g in taken && g.id == f.id;
      var i :| 0 <= i < |db.facts| && db.facts[i] == f;
      var j :| 0 <= j < |db.facts| && db.facts[j] == g;
      FactIdsDistinct(db, i, j);
    }
  }

  /**
   Two runs from the empty store in which the client never learns of the fact. A fact approved no
   later than the cursor of a client that read the empty store is missed by clocks that agree; and
   a client that read after the approval misses it exactly when it is dated after the cursor.
   */
  lemma {:induction false} FactIsMissed(workspace: string, enqueued: Time, approved: Time, p: ProposalInput, since: Time, now: Time)
    requires PlainId(p.id) && p.payload.kind == "fact" && p.payload.observedAt == Some(enqueued)
    requires approved <= since <= now && enqueued <= now
    ensures var db := Run(EMPTY_DB, OneProposal(workspace, enqueued, approved, p));
            var scope := p.payload.scope.GetOr("workspace");
            var d, r := AllChanges(db, workspace, scope, since, now), AllRetracted(db, workspace, scope, since);
            && |db.facts| == 1
            && Shown(EMPTY_DB.facts, workspace, scope, since) + d - r != Shown(db.facts, workspace, scope, now)
            && (Shown(db.facts, workspace, scope, since) + d - r != Shown(db.facts, workspace, scope, now) <==> since < enqueued)
  {
    hide PlainId, Inv, Evolves, Run, Shown, ChangedOf, RetractedOf, RecallRows, ScopeRows, Ids;
    OneProposalRun(workspace, enqueued, approved, p);
    EmptyInv();
    var db := Run(EMPTY_DB, OneProposal(workspace, enqueued, approved, p));
    var scope := p.payload.scope.GetOr("workspace");
    EvolvesToItself(db);
    DeltaIsExactIff(EMPTY_DB, db, workspace, scope, since, now);
    DeltaIsExactIff(db, db, workspace, scope, since, now);
    assert Missed(EMPTY_DB, db, workspace, scope, since, now, 0);
    assert Missed(db, db, workspace, scope, since, now, 0) <==> since < enqueued;
  }
}
