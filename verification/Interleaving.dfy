/**
 Several clients on one database file. `BEGIN IMMEDIATE` admits one writer at a time; readers see
 the committed state; a killed writer loses its uncommitted rows. `approve_bulk` scans the queue
 and inspects each row before it opens its transaction, so other commits fall in between.
 */
module Interleaving {
  import opened Wrappers
  import opened StoreModel
  import opened StoreInvariants
  import opened StoreHistory

  /** `requires_explicit_proposal_approval`. */
  predicate ExplicitOnly(payload: Payload) {
    payload.approvalMode == Some("explicit-id-only") || payload.proposalOrigin == Some("semantic-setup")
  }

  /** A bulk approval between its scan and its commit: ids still to inspect, ids chosen so far. */
  datatype Bulk = Bulk(todo: seq<string>, chosen: seq<string>)

  /** A proposal leaving `pending`: approved or rejected, by id or in bulk. */
  datatype Claimed = Claimed(id: string, accepted: bool, bulk: bool)

  datatype Writer = Writer(client: nat, workspace: string, now: Time, working: Db, claims: seq<Claimed>)

  /** `log` lists the claims of committed transactions in commit order. */
  datatype System = System(durable: Db, writer: Option<Writer>, bulks: map<nat, Bulk>, log: seq<Claimed>)

  const INITIAL := System(EMPTY_DB, None, map[], [])

  datatype Event =
    | ScanPending(client: nat, ids: seq<string>)
    | InspectRow(client: nat)
    | Begin(client: nat, workspace: string, now: Time)
    | Execute(op: Op)
    | ApproveChosen
    | CommitWriter
    | Kill(client: nat)

  /** What a claim adds to the log; an enqueue adds nothing. */
  function Logged(op: Op, bulk: bool): seq<Claimed> {
    match op
    case EnqueueOp(_) => []
    case ApproveOp(id) => [Claimed(id, true, bulk)]
    case RejectOp(id) => [Claimed(id, false, bulk)]
  }

  /** The ids of the approvals in a log. */
  function Accepted(log: seq<Claimed>): seq<string> {
    if log == [] then []
    else
      var last := log[|log| - 1];
      Accepted(log[..|log| - 1]) + (if last.accepted then [last.id] else [])
  }

  /** A statement inside the open transaction; an error rolls it back. */
  function ExecuteOp(s: System, op: Op, bulk: bool): System
    requires s.writer.Some?
  {
    var w := s.writer.value;
    match Apply(w.working, w.workspace, w.now, op)
    case Ok(next) => s.(writer := Some(w.(working := next, claims := w.claims + Logged(op, bulk))))
    case Err(_) => s.(writer := None)
  }

  /** One event; an event that is not enabled changes nothing. */
  function Step(s: System, e: Event): System {
    match e
    case ScanPending(c, ids) =>
      if forall i :: 0 <= i < |ids| ==> ids[i] in s.durable.queue && s.durable.queue[ids[i]].status.Pending?
      then s.(bulks := s.bulks[c := Bulk(ids, [])]) else s
    case InspectRow(c) =>
      if c in s.bulks && s.bulks[c].todo != [] then
        var b := s.bulks[c];
        var id := b.todo[0];
        if id !in s.durable.queue then s.(bulks := s.bulks - {c})
        else if ExplicitOnly(s.durable.queue[id].payload) then s.(bulks := s.bulks[c := Bulk(b.todo[1..], b.chosen)])
        else s.(bulks := s.bulks[c := Bulk(b.todo[1..], b.chosen + [id])])
      else s
    case Begin(c, workspace, now) =>
      if s.writer.None? then s.(writer := Some(Writer(c, workspace, now, s.durable, []))) else s
    case Execute(op) =>
      if s.writer.Some? then ExecuteOp(s, op, false) else s
    case ApproveChosen =>
      if s.writer.Some? && s.writer.value.client in s.bulks
         && s.bulks[s.writer.value.client].todo == [] && s.bulks[s.writer.value.client].chosen != [] then
        var c := s.writer.value.client;
        var chosen := s.bulks[c].chosen;
        ExecuteOp(s.(bulks := s.bulks[c := Bulk([], chosen[1..])]), ApproveOp(chosen[0]), true)
      else s
    case CommitWriter =>
      if s.writer.Some? then
        s.(durable := s.writer.value.working, writer := None, log := s.log + s.writer.value.claims)
      else s
    case Kill(c) =>
      var s' := s.(bulks := s.bulks - {c});
      if s.writer.Some? && s.writer.value.client == c then s'.(writer := None) else s'
  }

  function Trace(s: System, events: seq<Event>): System
    decreases |events|
  {
    if events == [] then s else Trace(Step(s, events[0]), events[1..])
  }

  predicate BuiltEvent(e: Event) {
    e.Execute? ==> BuiltOp(e.op)
  }

  // ---------------------------------------------------------------- invariant

  /** The facts were written by exactly the approvals of the log, in this order. */
  ghost predicate WrittenBy(db: Db, log: seq<Claimed>) {
    && |db.facts| == |Accepted(log)|
    && forall i :: 0 <= i < |db.facts| ==> db.facts[i].proposalId == Accepted(log)[i]
  }

  predicate InLog(log: seq<Claimed>, id: string) {
    exists i :: 0 <= i < |log| && log[i].id == id
  }

  /** No proposal is claimed twice, and the rows record exactly the claims of the log. */
  ghost predicate ClaimedBy(db: Db, log: seq<Claimed>) {
    && (forall i, j :: 0 <= i < j < |log| ==> log[i].id != log[j].id)
    && (forall i :: 0 <= i < |log| ==> log[i].id in db.queue && db.queue[log[i].id].accepted == Some(log[i].accepted))
    && (forall id {:trigger InLog(log, id)} :: id in db.queue && db.queue[id].accepted.Some? ==> InLog(log, id))
  }

  ghost predicate BulkAllowed(db: Db, log: seq<Claimed>) {
    forall i :: 0 <= i < |log| && log[i].bulk ==>
      log[i].id in db.queue && !ExplicitOnly(db.queue[log[i].id].payload)
  }

  ghost predicate ChosenAllowed(db: Db, bulks: map<nat, Bulk>) {
    forall c, i :: c in bulks && 0 <= i < |bulks[c].chosen| ==>
      bulks[c].chosen[i] in db.queue && !ExplicitOnly(db.queue[bulks[c].chosen[i]].payload)
  }

  ghost predicate Consistent(db: Db, log: seq<Claimed>) {
    Inv(db) && WrittenBy(db, log) && ClaimedBy(db, log) && BulkAllowed(db, log)
  }

  ghost predicate SystemInv(s: System) {
    && Consistent(s.durable, s.log)
    && ChosenAllowed(s.durable, s.bulks)
    && (s.writer.Some? ==>
          && Evolves(s.durable, s.writer.value.working)
          && Consistent(s.writer.value.working, s.log + s.writer.value.claims))
  }

  lemma {:induction false} BulkAllowedEvolves(db: Db, db': Db, log: seq<Claimed>, bulks: map<nat, Bulk>)
    requires Evolves(db, db')
    ensures BulkAllowed(db, log) ==> BulkAllowed(db', log)
    ensures ChosenAllowed(db, bulks) ==> ChosenAllowed(db', bulks)
  {
    hide ExplicitOnly;
    assert forall id :: id in db.queue ==> RowEvolves(db.queue[id], db'.queue[id]);
  }

  lemma {:induction false} EvolvesReflexive(db: Db)
    ensures Evolves(db, db)
  {
  }

  lemma {:induction false} AcceptedAppend(log: seq<Claimed>, c: Claimed)
    ensures Accepted(log + [c]) == Accepted(log) + (if c.accepted then [c.id] else [])
  {
    assert (log + [c])[..|log|] == log;
  }

  /** What a statement does to the claims of the queue. */
  lemma {:induction false} OpClaims(db: Db, workspace: string, now: Time, op: Op)
    requires Inv(db) && BuiltOp(op) && Apply(db, workspace, now, op).Ok?
    ensures var queue' := Apply(db, workspace, now, op).value.queue;
            && (forall id :: id in db.queue && (op.EnqueueOp? || id != op.id) ==> id in queue' && queue'[id].accepted == db.queue[id].accepted)
            && (forall id :: id in queue' && id !in db.queue ==> queue'[id].accepted.None?)
            && (!op.EnqueueOp? ==> op.id in db.queue && db.queue[op.id].accepted.None? && op.id in queue' && queue'[op.id].accepted == Some(op.ApproveOp?))
  {
    hide PlainId, Approve, Enqueue, Provenance, Forest, EdgesAgree, EntitiesAgree, EpisodesAgree, FtsAgrees, OneTruth;
    match op
    case EnqueueOp(p) => QueueAfterEnqueue(db, workspace, now, p);
    case RejectOp(id) =>
    case ApproveOp(id) => ApproveShape(db, workspace, now, id);
  }

  lemma {:induction false} ClaimsAfterOp(db: Db, workspace: string, now: Time, op: Op, log: seq<Claimed>, bulk: bool)
    requires Inv(db) && ClaimedBy(db, log) && BuiltOp(op) && Apply(db, workspace, now, op).Ok?
    ensures ClaimedBy(Apply(db, workspace, now, op).value, log + Logged(op, bulk))
  {
    hide Inv, Apply, PlainId, InLog;
    var db', log' := Apply(db, workspace, now, op).value, log + Logged(op, bulk);
    OpClaims(db, workspace, now, op);
    forall id | id in db'.queue && db'.queue[id].accepted.Some? ensures InLog(log', id) {
      assert (!op.EnqueueOp? && id == op.id) || InLog(log, id);
      LongerLog(log, Logged(op, bulk), id);
    }
  }

  lemma {:induction false} LongerLog(log: seq<Claimed>, more: seq<Claimed>, id: string)
    ensures InLog(log + more, id) <==> InLog(log, id) || InLog(more, id)
    ensures |more| == 1 && more[0].id == id ==> InLog(more, id)
  {
    var all := log + more;
    if InLog(log, id) {
      var i :| 0 <= i < |log| && log[i].id == id;
      assert all[i].id == id;
    } else if InLog(more, id) {
      var i :| 0 <= i < |more| && more[i].id == id;
      assert all[|log| + i].id == id;
    }
  }

  lemma {:induction false} FactsAfterOp(db: Db, workspace: string, now: Time, op: Op, log: seq<Claimed>, bulk: bool)
    requires Inv(db) && WrittenBy(db, log) && BuiltOp(op) && Apply(db, workspace, now, op).Ok?
    ensures WrittenBy(Apply(db, workspace, now, op).value, log + Logged(op, bulk))
  {
    hide Inv, PlainId, Approve, Enqueue, Approves, SupersedeStep;
    var db' := Apply(db, workspace, now, op).value;
    match op
    case EnqueueOp(p) =>
      EnqueueKeepsFacts(db, workspace, now, p);
      assert log + [] == log;
    case RejectOp(id) =>
      AcceptedAppend(log, Claimed(id, false, bulk));
    case ApproveOp(id) =>
      AcceptedAppend(log, Claimed(id, true, bulk));
      ApproveShape(db, workspace, now, id);
      ApprovalExtends(db, db', now, id, NewFact(db, workspace, now, id));
      forall i | 0 <= i < |db.facts| ensures db'.facts[i].proposalId == Accepted(log)[i] {
        assert SameIdentity(db'.facts[i], db.facts[i]);
      }
  }

  /** A statement of the open transaction keeps the uncommitted database consistent with its log. */
  lemma {:induction false} OpKeepsConsistent(db: Db, workspace: string, now: Time, op: Op, log: seq<Claimed>, bulk: bool)
    requires Consistent(db, log) && BuiltOp(op) && Apply(db, workspace, now, op).Ok?
    requires bulk && op.ApproveOp? && op.id in db.queue ==> !ExplicitOnly(db.queue[op.id].payload)
    requires bulk ==> op.ApproveOp?
    ensures Consistent(Apply(db, workspace, now, op).value, log + Logged(op, bulk))
  {
    hide Inv, PlainId, Apply, WrittenBy, ClaimedBy, ExplicitOnly;
    var db' := Apply(db, workspace, now, op).value;
    OpKeepsInv(db, workspace, now, op);
    OpEvolves(db, workspace, now, op);
    OpClaims(db, workspace, now, op);
    FactsAfterOp(db, workspace, now, op, log, bulk);
    ClaimsAfterOp(db, workspace, now, op, log, bulk);
    BulkAllowedEvolves(db, db', log, map[]);
    if op.ApproveOp? {
      assert RowEvolves(db.queue[op.id], db'.queue[op.id]);
    }
  }

  lemma {:induction false} EnqueueKeepsFacts(db: Db, workspace: string, now: Time, p: ProposalInput)
    requires Enqueue(db, workspace, now, p).Ok?
    ensures Enqueue(db, workspace, now, p).value.facts == db.facts
  {
  }

  lemma {:induction false} ExecuteKeepsInv(s: System, op: Op, bulk: bool)
    requires SystemInv(s) && s.writer.Some? && BuiltOp(op)
    requires bulk ==> op.ApproveOp? && op.id in s.durable.queue && !ExplicitOnly(s.durable.queue[op.id].payload)
    ensures SystemInv(ExecuteOp(s, op, bulk))
  {
    hide Inv, PlainId, Apply, ExplicitOnly, Consistent, ChosenAllowed;
    var w := s.writer.value;
    if Apply(w.working, w.workspace, w.now, op).Ok? {
      var next := Apply(w.working, w.workspace, w.now, op).value;
      ConsistentInv(w.working, s.log + w.claims);
      if bulk && op.ApproveOp? {
        assert RowEvolves(s.durable.queue[op.id], w.working.queue[op.id]);
      }
      OpKeepsConsistent(w.working, w.workspace, w.now, op, s.log + w.claims, bulk);
      OpEvolves(w.working, w.workspace, w.now, op);
      EvolvesTransitive(s.durable, w.working, next);
      assert s.log + w.claims + Logged(op, bulk) == s.log + (w.claims + Logged(op, bulk));
    }
  }

  lemma {:induction false} ConsistentInv(db: Db, log: seq<Claimed>)
    requires Consistent(db, log)
    ensures Inv(db)
  {
  }

  lemma {:induction false} StepKeepsInv(s: System, e: Event)
    requires SystemInv(s) && BuiltEvent(e)
    ensures SystemInv(Step(s, e))
  {
    hide Consistent, Evolves, ExplicitOnly, PlainId, ExecuteOp;
    match e
    case ScanPending(c, ids) =>
    case InspectRow(c) =>
    case Begin(c, workspace, now) =>
      EvolvesReflexive(s.durable);
      assert s.log + [] == s.log;
    case Execute(op) =>
      if s.writer.Some? {
        ExecuteKeepsInv(s, op, false);
      }
    case ApproveChosen =>
      if s.writer.Some? && s.writer.value.client in s.bulks
         && s.bulks[s.writer.value.client].todo == [] && s.bulks[s.writer.value.client].chosen != [] {
        var c := s.writer.value.client;
        var chosen := s.bulks[c].chosen;
        ExecuteKeepsInv(s.(bulks := s.bulks[c := Bulk([], chosen[1..])]), ApproveOp(chosen[0]), true);
      }
    case CommitWriter =>
      if s.writer.Some? {
        BulkAllowedEvolves(s.durable, s.writer.value.working, s.log, s.bulks);
      }
    case Kill(c) =>
  }

  lemma {:induction false} TraceKeepsInv(s: System, events: seq<Event>)
    requires SystemInv(s) && forall i :: 0 <= i < |events| ==> BuiltEvent(events[i])
    ensures SystemInv(Trace(s, events))
    decreases |events|
  {
    hide SystemInv, Step, PlainId;
    if events != [] {
      StepKeepsInv(s, events[0]);
      TraceKeepsInv(Step(s, events[0]), events[1..]);
    }
  }

  /**
   The atomicity of transactions, as assumed of the database and built into `Step`: errors and kills
   leave the durable tables as they were.
   */
  lemma {:induction false} OnlyCommitChangesDurable(s: System, e: Event)
    ensures !e.CommitWriter? ==> Step(s, e).durable == s.durable && Step(s, e).log == s.log
    ensures e.Begin? && s.writer.Some? ==> Step(s, e) == s
    ensures e.Kill? && s.writer.Some? && s.writer.value.client == e.client ==> Step(s, e).writer.None?
  {
  }

  // ---------------------------------------------------------------- transactions are atomic

  /** The statement an event executes, if it executes one. */
  function OpOf(e: Event): seq<Op> {
    if e.Execute? then [e.op] else []
  }

  function OpsOf(events: seq<Event>): seq<Op>
    decreases |events|
  {
    if events == [] then [] else OpOf(events[0]) + OpsOf(events[1..])
  }

  /** Statements of the writer, mixed with the scans of any clients and the deaths of others. */
  predicate Uninterrupted(c: nat, events: seq<Event>) {
    forall i :: 0 <= i < |events| ==>
      events[i].Execute? || events[i].ScanPending? || events[i].InspectRow? || (events[i].Kill? && events[i].client != c)
  }

  /** The writer's state follows its statements alone. */
  ghost predicate Inside(s: System, s': System, c: nat, ops: seq<Op>) {
    && s'.durable == s.durable && s'.log == s.log
    && (s.writer.None? ==> s'.writer.None?)
    && (s.writer.Some? ==>
          var w := s.writer.value;
          match ApplyAll(w.working, w.workspace, w.now, ops)
          case Ok(next) => s'.writer.Some? && s'.writer.value.working == next && s'.writer.value.client == c
          case Err(_) => s'.writer.None?)
  }

  lemma {:induction false} StepInside(s: System, c: nat, e: Event)
    requires (s.writer.Some? ==> s.writer.value.client == c) && Uninterrupted(c, [e])
    ensures var s' := Step(s, e);
            && Inside(s, s', c, OpOf(e))
            && (s.writer.Some? && s'.writer.Some? ==> s'.writer.value.workspace == s.writer.value.workspace && s'.writer.value.now == s.writer.value.now)
  {
    hide Apply;
    assert [e][0] == e;
    if e.Execute? && s.writer.Some? {
      OneOp(s.writer.value.working, s.writer.value.workspace, s.writer.value.now, e.op);
    }
  }

  lemma {:induction false} OneOp(db: Db, workspace: string, now: Time, op: Op)
    ensures ApplyAll(db, workspace, now, [op]) == Apply(db, workspace, now, op)
  {
    hide Apply;
    assert [op][1..] == [];
    var r := Apply(db, workspace, now, op);
    assert r.Ok? ==> ApplyAll(r.value, workspace, now, []) == r;
  }

  lemma {:induction false} TraceInside(s: System, c: nat, events: seq<Event>)
    requires (s.writer.Some? ==> s.writer.value.client == c) && Uninterrupted(c, events)
    ensures Inside(s, Trace(s, events), c, OpsOf(events))
    decreases |events|
  {
    hide Step, Apply;
    if events != [] {
      var e, rest := events[0], events[1..];
      assert Uninterrupted(c, [e]);
      StepInside(s, c, e);
      TraceInside(Step(s, e), c, rest);
      if s.writer.Some? {
        OpsSplit(s.writer.value.working, s.writer.value.workspace, s.writer.value.now, OpOf(e), OpsOf(rest));
      }
    }
  }

  lemma {:induction false} OpsSplit(db: Db, workspace: string, now: Time, a: seq<Op>, b: seq<Op>)
    requires |a| <= 1
    ensures var first := ApplyAll(db, workspace, now, a);
            ApplyAll(db, workspace, now, a + b) == if first.Ok? then ApplyAll(first.value, workspace, now, b) else first
  {
    hide Apply;
    if a == [] {
      assert a + b == b;
    } else {
      assert (a + b)[1..] == b && a[1..] == [];
    }
  }

  lemma {:induction false} TraceAppend(s: System, a: seq<Event>, b: seq<Event>)
    ensures Trace(s, a + b) == Trace(Trace(s, a), b)
    decreases |a|
  {
    hide Step;
    if a == [] {
      assert a + b == b;
    } else {
      assert (a + b)[0] == a[0] && (a + b)[1..] == a[1..] + b;
      TraceAppend(Step(s, a[0]), a[1..], b);
    }
  }

  /**
   A client's transaction, however its statements are mixed with what other clients do meanwhile,
   has the effect of one atomic commit; if the client dies before its commit, it has none.
   */
  lemma {:induction false} TransactionIsAtomic(s: System, c: nat, workspace: string, now: Time, events: seq<Event>)
    requires s.writer.None? && Uninterrupted(c, events)
    ensures Trace(s, [Begin(c, workspace, now)] + events + [CommitWriter]).durable == Commit(s.durable, Transaction(workspace, now, OpsOf(events)))
    ensures Trace(s, [Begin(c, workspace, now)] + events + [Kill(c)] + [CommitWriter]).durable == s.durable
  {
    hide OpsOf, ApplyAll;
    var begun := Step(s, Begin(c, workspace, now));
    var before := [Begin(c, workspace, now)] + events;
    TraceAppend(s, [Begin(c, workspace, now)], events);
    OneEvent(s, Begin(c, workspace, now));
    TraceInside(begun, c, events);
    var end := Trace(s, before);
    TraceAppend(s, before, [CommitWriter]);
    OneEvent(end, CommitWriter);
    TraceAppend(s, before, [Kill(c)]);
    OneEvent(end, Kill(c));
    TraceAppend(s, before + [Kill(c)], [CommitWriter]);
    OneEvent(Step(end, Kill(c)), CommitWriter);
  }

  lemma {:induction false} OneEvent(s: System, e: Event)
    ensures Trace(s, [e]) == Step(s, e)
  {
    hide Step;
    assert [e][1..] == [];
    assert Trace(Step(s, e), []) == Step(s, e);
  }

  lemma {:induction false} StepEvolves(s: System, e: Event)
    requires SystemInv(s)
    ensures Evolves(s.durable, Step(s, e).durable)
    ensures s.log <= Step(s, e).log
  {
    hide Consistent, Evolves, ChosenAllowed;
    OnlyCommitChangesDurable(s, e);
    EvolvesReflexive(s.durable);
  }

  /**
   Over every interleaving a claim is final, no fact is lost and no superseded fact changes, and the
   log only grows.
   */
  lemma {:induction false} TraceEvolves(s: System, events: seq<Event>)
    requires SystemInv(s) && forall i :: 0 <= i < |events| ==> BuiltEvent(events[i])
    ensures Evolves(s.durable, Trace(s, events).durable)
    ensures s.log <= Trace(s, events).log
    decreases |events|
  {
    hide SystemInv, Step, PlainId, Evolves;
    if events == [] {
      EvolvesReflexive(s.durable);
    } else {
      var next := Step(s, events[0]);
      StepKeepsInv(s, events[0]);
      StepEvolves(s, events[0]);
      TraceEvolves(next, events[1..]);
      EvolvesTransitive(s.durable, next.durable, Trace(s, events).durable);
    }
  }

  /**
   Exactly once, for every interleaving and every kill. The log of committed claims names no
   proposal twice, so none leaves `pending` twice, be it by approval or rejection; a row has left
   `pending` iff the log names it, with the logged outcome; the facts are one for each approval, in
   order; and no approval made in bulk was of an explicit-id-only proposal.
   */
  lemma {:induction false} ExactlyOnce(events: seq<Event>)
    requires forall i :: 0 <= i < |events| ==> BuiltEvent(events[i])
    ensures var s := Trace(INITIAL, events);
            && Inv(s.durable)
            && (forall i, j :: 0 <= i < j < |s.log| ==> s.log[i].id != s.log[j].id)
            && (forall id :: id in s.durable.queue ==> (s.durable.queue[id].status.Applied? <==> InLog(s.log, id)))
            && (forall i :: 0 <= i < |s.log| ==>
                  s.log[i].id in s.durable.queue && s.durable.queue[s.log[i].id].accepted == Some(s.log[i].accepted))
            && WrittenBy(s.durable, s.log)
            && (forall i :: 0 <= i < |s.log| && s.log[i].bulk ==>
                  s.log[i].id in s.durable.queue && !ExplicitOnly(s.durable.queue[s.log[i].id].payload))
  {
    hide PlainId, Step, ExplicitOnly, Provenance, Forest, EdgesAgree, EntitiesAgree, EpisodesAgree, FtsAgrees, OneTruth, WrittenBy, InLog;
    InitialSystem();
    TraceKeepsInv(INITIAL, events);
    var s := Trace(INITIAL, events);
    forall id | id in s.durable.queue ensures s.durable.queue[id].status.Applied? <==> InLog(s.log, id) {
      LoggedIsClaimed(s.durable, s.log, id);
    }
  }

  lemma {:induction false} InitialSystem()
    ensures SystemInv(INITIAL)
  {
    hide Inv;
    EmptyInv();
  }

  lemma {:induction false} LoggedIsClaimed(db: Db, log: seq<Claimed>, id: string)
    requires ClaimedBy(db, log) && id in db.queue
    ensures InLog(log, id) <==> db.queue[id].accepted.Some?
  {
    if InLog(log, id) {
      var i :| 0 <= i < |log| && log[i].id == id;
    }
  }
}
