/**
 `memory consolidate`: each conversation candidate is compared with the active facts of its key and
 becomes proposals that add, update, retire or change nothing. The main result says what approving
 those proposals leaves active.
 */
module Consolidation {
  import opened Wrappers
  import opened StoreModel
  import opened StoreInvariants
  import opened StoreClient
  import opened Order

  // ---------------------------------------------------------------- text helpers

  function Lower(c: char): char {
    if 'A' <= c <= 'Z' then c + ('a' - 'A') else c
  }

  function LowerAll(s: string): (r: string)
    ensures |r| == |s|
  {
    seq(|s|, i requires 0 <= i < |s| => Lower(s[i]))
  }

  /** What planning takes from elsewhere: Unicode white space, and the short hash of an object. */
  datatype Host = Host(space: char -> bool, shortHash: string -> string)

  function TrimStart(h: Host, s: string): string {
    if s != "" && h.space(s[0]) then TrimStart(h, s[1..]) else s
  }

  function TrimEnd(h: Host, s: string): string {
    if s != "" && h.space(s[|s| - 1]) then TrimEnd(h, s[..|s| - 1]) else s
  }

  function Trim(h: Host, s: string): string {
    TrimEnd(h, TrimStart(h, s))
  }

  predicate ContainsText(s: string, part: string) {
    exists i :: 0 <= i <= |s| && part <= s[i..]
  }

  /** `object LIKE 'retired_%'`: the underscore matches any character and case is ignored. */
  predicate IsTombstone(obj: string) {
    |obj| >= 8 && LowerAll(obj[..7]) == "retired"
  }

  predicate IsDeleteCandidate(h: Host, obj: string) {
    var lower := LowerAll(Trim(h, obj));
    || "delete " <= lower
    || "remove " <= lower
    || "removed " <= lower
    || "no longer " <= lower
    || "stop " <= lower
    || ContainsText(lower, " no longer ")
  }

  // ---------------------------------------------------------------- operations

  datatype Operation = ADD | UPDATE | DELETE | NOOP

  datatype Candidate = Candidate(key: Key, obj: string)

  /** A proposal of the batch: `supersedes` is absent, blanket (`Some(None)`) or exact. */
  datatype Planned = Planned(key: Key, obj: string, supersedes: Option<Option<string>>)

  /** Inserts into a sorted listing. */
  function Insert(sorted: seq<string>, o: string): seq<string> {
    if sorted == [] || Less(o, sorted[0]) then [o] + sorted else [sorted[0]] + Insert(sorted[1..], o)
  }

  /** `active_facts_for_key`: one object per row, ORDER BY object. */
  function Existing(facts: seq<Fact>, k: Key): seq<string> {
    if facts == [] then []
    else
      var rest := Existing(facts[..|facts| - 1], k);
      var f := facts[|facts| - 1];
      if ActiveIn(f, k) && f.supersededBy.None? && !IsTombstone(f.obj) then Insert(rest, f.obj) else rest
  }

  lemma {:induction false} InsertMembers(sorted: seq<string>, o: string)
    ensures forall x :: x in Insert(sorted, o) <==> x in sorted || x == o
  {
    hide Less;
    if sorted != [] && !Less(o, sorted[0]) {
      InsertMembers(sorted[1..], o);
      assert sorted == [sorted[0]] + sorted[1..];
    }
  }

  predicate NoDescent(s: seq<string>) {
    forall i :: 0 < i < |s| ==> !Less(s[i], s[i - 1])
  }

  lemma {:induction false} InsertSorted(sorted: seq<string>, o: string)
    requires NoDescent(sorted)
    ensures NoDescent(Insert(sorted, o))
    ensures Insert(sorted, o) != [] && (Insert(sorted, o)[0] == o || (sorted != [] && Insert(sorted, o)[0] == sorted[0]))
  {
    hide Less;
    if sorted == [] {
      assert Insert(sorted, o) == [o];
    } else {
      LessTotal(o, sorted[0]);
      if Less(o, sorted[0]) {
        FrontKeepsOrder(o, sorted);
      } else {
        var rest := sorted[1..];
        assert forall i :: 0 < i < |rest| ==> rest[i] == sorted[i + 1] && rest[i - 1] == sorted[i];
        assert rest != [] ==> rest[0] == sorted[1];
        InsertSorted(rest, o);
        FrontKeepsOrder(sorted[0], Insert(rest, o));
      }
    }
  }

  lemma {:induction false} FrontKeepsOrder(x: string, s: seq<string>)
    requires NoDescent(s) && (s != [] ==> !Less(s[0], x))
    ensures NoDescent([x] + s)
  {
    hide Less;
    var all := [x] + s;
    forall i | 0 < i < |all| ensures !Less(all[i], all[i - 1]) {
      assert all[i] == s[i - 1];
      if i > 1 {
        assert all[i - 1] == s[i - 2];
      }
    }
  }

  /** The lookup lists its objects in order. */
  lemma {:induction false} ExistingIsSorted(facts: seq<Fact>, k: Key)
    ensures NoDescent(Existing(facts, k))
  {
    hide IsTombstone, NoDescent;
    if facts == [] {
      NothingDescends();
    } else {
      ExistingIsSorted(facts[..|facts| - 1], k);
      InsertSorted(Existing(facts[..|facts| - 1], k), facts[|facts| - 1].obj);
    }
  }

  lemma {:induction false} NothingDescends()
    ensures NoDescent([])
  {
  }

  predicate SomeTrimsTo(h: Host, existing: seq<string>, obj: string) {
    exists i :: 0 <= i < |existing| && Trim(h, existing[i]) == Trim(h, obj)
  }

  function OperationFor(h: Host, c: Candidate, existing: seq<string>): Operation {
    if IsDeleteCandidate(h, c.obj) then
      if existing == [] then NOOP else DELETE
    else if SomeTrimsTo(h, existing, c.obj) then NOOP
    else if existing == [] then ADD
    else UPDATE
  }

  function Retirement(k: Key, obj: string, h: Host): Planned {
    Planned(k, "retired_" + h.shortHash(obj), Some(Some(obj)))
  }

  /** The proposals pushed for one candidate. */
  function PlanFor(c: Candidate, existing: seq<string>, h: Host): seq<Planned> {
    match OperationFor(h, c, existing)
    case ADD => [Planned(c.key, c.obj, None)]
    case UPDATE => [Planned(c.key, c.obj, Some(if |existing| == 1 then Some(existing[0]) else None))]
    case DELETE => seq(|existing|, i requires 0 <= i < |existing| => Retirement(c.key, existing[i], h))
    case NOOP => []
  }

  function PlanAll(facts: seq<Fact>, candidates: seq<Candidate>, h: Host): seq<Planned> {
    if candidates == [] then []
    else
      var last := candidates[|candidates| - 1];
      PlanAll(facts, candidates[..|candidates| - 1], h) + PlanFor(last, Existing(facts, last.key), h)
  }

  /** The proposals pushed for one candidate, with the loop over the facts to retire. */
  method PlanCandidate(c: Candidate, existing: seq<string>, h: Host) returns (plan: seq<Planned>)
    ensures plan == PlanFor(c, existing, h)
  {
    hide OperationFor;
    match OperationFor(h, c, existing) {
      case ADD => plan := [Planned(c.key, c.obj, None)];
      case UPDATE => plan := [Planned(c.key, c.obj, Some(if |existing| == 1 then Some(existing[0]) else None))];
      case NOOP => plan := [];
      case DELETE =>
        plan := [];
        for i := 0 to |existing|
          invariant |plan| == i && forall j :: 0 <= j < i ==> plan[j] == Retirement(c.key, existing[j], h)
        {
          plan := plan + [Retirement(c.key, existing[i], h)];
        }
    }
  }

  /** The candidate loop of `memory_consolidate`. */
  method Consolidate(facts: seq<Fact>, candidates: seq<Candidate>, h: Host) returns (proposals: seq<Planned>)
    ensures proposals == PlanAll(facts, candidates, h)
  {
    hide Existing, PlanFor;
    proposals := [];
    for n := 0 to |candidates|
      invariant proposals == PlanAll(facts, candidates[..n], h)
    {
      var c := candidates[n];
      var plan := PlanCandidate(c, Existing(facts, c.key), h);
      assert candidates[..n + 1][..n] == candidates[..n];
      proposals := proposals + plan;
    }
    assert candidates[..|candidates|] == candidates;
  }

  // ---------------------------------------------------------------- what approval does to a key

  function ActiveObjects(facts: seq<Fact>, k: Key): set<string> {
    set i | 0 <= i < |facts| && ActiveIn(facts[i], k) :: facts[i].obj
  }

  function Meaningful(objs: set<string>): set<string> {
    set o | o in objs && !IsTombstone(o)
  }

  /** The active objects of a key after one more approved proposal. */
  function ObjectsAfter(objs: set<string>, p: Planned, k: Key): set<string> {
    if p.key != k then objs
    else if p.supersedes.None? then objs + {p.obj}
    else if p.supersedes.value.Some? then objs - {p.supersedes.value.value} + {p.obj}
    else {p.obj}
  }

  function ObjectsAfterAll(objs: set<string>, ps: seq<Planned>, k: Key): set<string>
    decreases |ps|
  {
    if ps == [] then objs else ObjectsAfterAll(ObjectsAfter(objs, ps[0], k), ps[1..], k)
  }

  /** How a queue row reads as a planned proposal. */
  function PlannedOf(row: ProposalRow): Planned {
    var p := row.payload;
    Planned(Key(row.workspace, p.scope.GetOr("workspace"), p.subject.GetOr(""), p.pred.GetOr("")), p.obj.GetOr(""),
            if p.supersedes then Some(p.supersedesObject) else None)
  }

  lemma {:induction false} ApprovalObjects(db: Db, db': Db, now: Time, id: string, n: Fact, k: Key)
    requires Inv(db) && Approval(db, db', now, id, n)
    requires KeyOf(n) == PlannedOf(db.queue[id]).key && n.obj == PlannedOf(db.queue[id]).obj
    ensures ActiveObjects(db'.facts, k) == ObjectsAfter(ActiveObjects(db.facts, k), PlannedOf(db.queue[id]), k)
  {
    var p := PlannedOf(db.queue[id]);
    hide Inv, Approval, ActiveIn, ObjectsAfter;
    var before, after := ActiveObjects(db.facts, k), ActiveObjects(db'.facts, k);
    ApprovalActive(db, db', now, id, n, k);
    forall o | o in after ensures o in ObjectsAfter(before, p, k) {
      var i :| 0 <= i < |db'.facts| && ActiveIn(db'.facts[i], k) && db'.facts[i].obj == o;
      ObjectStays(before, p, k, o, i == |db.facts|);
    }
    forall o | o in ObjectsAfter(before, p, k) ensures o in after {
      if p.key == k && o == p.obj {
        assert ActiveIn(db'.facts[|db.facts|], k);
      } else {
        ObjectWas(before, p, k, o);
        var i :| 0 <= i < |db.facts| && ActiveIn(db.facts[i], k) && db.facts[i].obj == o;
        assert ActiveIn(db'.facts[i], k) && db'.facts[i].obj == o;
      }
    }
  }

  /** The proposal takes this object of the key out of the active ones. */
  predicate Displaces(p: Planned, k: Key, o: string) {
    p.key == k && p.supersedes.Some? && (if p.supersedes.value.Some? then o == p.supersedes.value.value else o != p.obj)
  }

  lemma {:induction false} ObjectStays(objs: set<string>, p: Planned, k: Key, o: string, added: bool)
    requires if added then p.key == k && o == p.obj else o in objs && !Displaces(p, k, o)
    ensures o in ObjectsAfter(objs, p, k)
  {
  }

  lemma {:induction false} ObjectWas(objs: set<string>, p: Planned, k: Key, o: string)
    requires o in ObjectsAfter(objs, p, k) && !(p.key == k && o == p.obj)
    ensures o in objs && !Displaces(p, k, o)
  {
  }

  /** Fact by fact: which are active after an approval. */
  lemma {:induction false} ApprovalActive(db: Db, db': Db, now: Time, id: string, n: Fact, k: Key)
    requires Inv(db) && Approval(db, db', now, id, n)
    requires KeyOf(n) == PlannedOf(db.queue[id]).key && n.obj == PlannedOf(db.queue[id]).obj
    ensures var p := PlannedOf(db.queue[id]);
            && |db'.facts| == |db.facts| + 1
            && db'.facts[|db.facts|].obj == p.obj && (ActiveIn(db'.facts[|db.facts|], k) <==> p.key == k)
            && forall i :: 0 <= i < |db.facts| ==>
                 && db'.facts[i].obj == db.facts[i].obj
                 && (ActiveIn(db'.facts[i], k) <==> ActiveIn(db.facts[i], k) && !Displaces(p, k, db.facts[i].obj))
  {
    hide FactIdOf, PlainId, Approves, QueueInv, Provenance, EdgesAgree, EntitiesAgree, EpisodesAgree, FtsAgrees, OneTruth;
    SupersedeStepFrame(db.facts, n, db.queue[id].payload, now);
    assert db'.facts[|db.facts|] == n;
    forall i | 0 <= i < |db.facts|
      ensures db'.facts[i].obj == db.facts[i].obj
      ensures ActiveIn(db'.facts[i], k) <==> ActiveIn(db.facts[i], k) && !Displaces(PlannedOf(db.queue[id]), k, db.facts[i].obj)
    {
      assert SameIdentity(db'.facts[i], db.facts[i]);
    }
  }

  /** The planned proposals behind `ids`, in the order of approval. */
  function PlannedIds(queue: map<string, ProposalRow>, ids: seq<string>): (r: seq<Planned>)
    requires forall i :: 0 <= i < |ids| ==> ids[i] in queue
    ensures |r| == |ids| && forall i :: 0 <= i < |ids| ==> r[i] == PlannedOf(queue[ids[i]])
  {
    seq(|ids|, i requires 0 <= i < |ids| => PlannedOf(queue[ids[i]]))
  }

  lemma {:induction false} ApprovedObjects(db: Db, workspace: string, now: Time, ids: seq<string>, k: Key)
    requires Inv(db) && ApplyAll(db, workspace, now, ApproveOps(ids)).Ok?
    ensures forall i :: 0 <= i < |ids| ==> ids[i] in db.queue
    ensures ActiveObjects(ApplyAll(db, workspace, now, ApproveOps(ids)).value.facts, k) ==
            ObjectsAfterAll(ActiveObjects(db.facts, k), PlannedIds(db.queue, ids), k)
    decreases |ids|
  {
    hide Approve, Inv, ActiveObjects, ObjectsAfter, PlannedOf, ApplyAll;
    ApprovedRows(db, workspace, now, ids);
    if ids == [] {
      ApplyAllNone(db, workspace, now);
    } else {
      var id := ids[0];
      ApproveFirst(db, workspace, now, ids);
      var next := Approve(db, workspace, now, id).value;
      ApproveKeepsInv(db, workspace, now, id);
      ApproveObjects(db, workspace, now, id, k);
      ApprovedObjects(next, workspace, now, ids[1..], k);
      var ps := PlannedIds(db.queue, ids);
      assert ps[1..] == PlannedIds(next.queue, ids[1..]) && ps[0] == PlannedOf(db.queue[id]);
    }
  }

  lemma {:induction false} ApproveFirst(db: Db, workspace: string, now: Time, ids: seq<string>)
    requires ids != []
    ensures var first := Approve(db, workspace, now, ids[0]);
            ApplyAll(db, workspace, now, ApproveOps(ids)) ==
            if first.Ok? then ApplyAll(first.value, workspace, now, ApproveOps(ids[1..])) else Err(first.error)
  {
    hide Approve;
    assert ApproveOps(ids)[1..] == ApproveOps(ids[1..]);
  }

  lemma {:induction false} ApproveObjects(db: Db, workspace: string, now: Time, id: string, k: Key)
    requires Inv(db) && Approve(db, workspace, now, id).Ok?
    ensures id in db.queue
    ensures ActiveObjects(Approve(db, workspace, now, id).value.facts, k) == ObjectsAfter(ActiveObjects(db.facts, k), PlannedOf(db.queue[id]), k)
    ensures var queue' := Approve(db, workspace, now, id).value.queue;
            forall x :: x in db.queue ==> x in queue' && PlannedOf(queue'[x]) == PlannedOf(db.queue[x])
  {
    hide Approve, Inv, ActiveObjects, ObjectsAfter, Approves, SupersedeStep;
    ApproveShape(db, workspace, now, id);
    ApprovalObjects(db, Approve(db, workspace, now, id).value, now, id, NewFact(db, workspace, now, id), k);
  }

  // ---------------------------------------------------------------- reaching the goal

  lemma {:induction false} ExistingAreMeaningful(facts: seq<Fact>, k: Key)
    requires forall i :: 0 <= i < |facts| && facts[i].status.Active? ==> facts[i].supersededBy.None?
    ensures forall o :: o in Existing(facts, k) <==> o in Meaningful(ActiveObjects(facts, k))
  {
    hide IsTombstone;
    if facts != [] {
      var rest, f := facts[..|facts| - 1], facts[|facts| - 1];
      ExistingAreMeaningful(rest, k);
      InsertMembers(Existing(rest, k), f.obj);
      assert ActiveObjects(facts, k) == ActiveObjects(rest, k) + (if ActiveIn(f, k) then {f.obj} else {}) by {
        assert forall i :: 0 <= i < |rest| ==> facts[i] == rest[i];
        assert forall o :: o in ActiveObjects(rest, k) ==> o in ActiveObjects(facts, k);
      }
    }
  }

  /** Repeating one proposal of the key, among proposals of other keys, acts once. */
  lemma {:induction false} SingleProposal(objs: set<string>, ps: seq<Planned>, p: Planned, k: Key)
    requires forall i :: 0 <= i < |ps| && ps[i].key == k ==> ps[i] == p
    ensures ObjectsAfterAll(objs, ps, k) == if p in ps then ObjectsAfter(objs, p, k) else objs
    decreases |ps|
  {
    if ps != [] {
      SingleProposal(ObjectsAfter(objs, ps[0], k), ps[1..], p, k);
      assert ObjectsAfter(ObjectsAfter(objs, p, k), p, k) == ObjectsAfter(objs, p, k);
      assert p in ps <==> p == ps[0] || p in ps[1..];
    }
  }

  predicate IsRetirement(p: Planned) {
    p.supersedes.Some? && p.supersedes.value.Some? && IsTombstone(p.obj)
  }

  function Retired(ps: seq<Planned>, k: Key): set<string> {
    set i | 0 <= i < |ps| && ps[i].key == k && IsRetirement(ps[i]) :: ps[i].supersedes.value.value
  }

  lemma {:induction false} RetiredCons(ps: seq<Planned>, k: Key)
    requires ps != []
    ensures Retired(ps, k) == Retired(ps[1..], k) + (if ps[0].key == k && IsRetirement(ps[0]) then {ps[0].supersedes.value.value} else {})
  {
    hide IsTombstone;
    var a, b := Retired(ps, k), Retired(ps[1..], k);
    forall o | o in b ensures o in a {
      var i :| 0 <= i < |ps[1..]| && ps[1..][i].key == k && IsRetirement(ps[1..][i]) && ps[1..][i].supersedes.value.value == o;
      assert ps[i + 1] == ps[1..][i];
    }
    forall o | o in a ensures o in b || (ps[0].key == k && IsRetirement(ps[0]) && o == ps[0].supersedes.value.value) {
      var i :| 0 <= i < |ps| && ps[i].key == k && IsRetirement(ps[i]) && ps[i].supersedes.value.value == o;
      if i > 0 {
        assert ps[1..][i - 1] == ps[i];
      }
    }
  }

  lemma {:induction false} Retirements(objs: set<string>, ps: seq<Planned>, k: Key)
    requires forall i :: 0 <= i < |ps| && ps[i].key == k ==> IsRetirement(ps[i])
    ensures Meaningful(ObjectsAfterAll(objs, ps, k)) == Meaningful(objs) - Retired(ps, k)
    decreases |ps|
  {
    hide IsTombstone;
    if ps != [] {
      var next := ObjectsAfter(objs, ps[0], k);
      Retirements(next, ps[1..], k);
      RetiredCons(ps, k);
      if ps[0].key == k {
        assert Meaningful(next) == Meaningful(objs) - {ps[0].supersedes.value.value};
      }
    }
  }

  lemma {:induction false} TombstoneIsTombstone(hash: string)
    ensures IsTombstone("retired_" + hash)
  {
    var o := "retired_" + hash;
    assert o[..7] == "retired";
    assert LowerAll("retired") == "retired";
  }

  predicate DistinctKeys(candidates: seq<Candidate>) {
    forall i, j :: 0 <= i < j < |candidates| ==> candidates[i].key != candidates[j].key
  }

  lemma {:induction false} PlanForKey(c: Candidate, existing: seq<string>, h: Host)
    ensures forall p :: p in PlanFor(c, existing, h) ==> p.key == c.key
  {
    hide OperationFor;
  }

  /** With distinct keys, the proposals of a candidate's key are exactly that candidate's. */
  lemma {:induction false} PlanAllKey(facts: seq<Fact>, candidates: seq<Candidate>, h: Host, j: nat)
    requires DistinctKeys(candidates) && j < |candidates|
    ensures var c := candidates[j];
            forall p :: p in PlanAll(facts, candidates, h) && p.key == c.key <==> p in PlanFor(c, Existing(facts, c.key), h)
  {
    hide Existing, PlanFor;
    var rest, last := candidates[..|candidates| - 1], candidates[|candidates| - 1];
    PlanForKey(last, Existing(facts, last.key), h);
    if j < |rest| {
      PlanAllKey(facts, rest, h, j);
      assert rest[j] == candidates[j];
    } else {
      PlanAllOtherKey(facts, rest, h, last.key);
    }
  }

  lemma {:induction false} PlanAllOtherKey(facts: seq<Fact>, candidates: seq<Candidate>, h: Host, k: Key)
    requires forall i :: 0 <= i < |candidates| ==> candidates[i].key != k
    ensures forall p :: p in PlanAll(facts, candidates, h) ==> p.key != k
  {
    hide Existing, PlanFor;
    if candidates != [] {
      var last := candidates[|candidates| - 1];
      PlanForKey(last, Existing(facts, last.key), h);
      PlanAllOtherKey(facts, candidates[..|candidates| - 1], h, k);
    }
  }

  /** `ids` are proposals of the plan, and every proposal of the plan is among them. */
  ghost predicate CoversPlan(queue: map<string, ProposalRow>, ids: seq<string>, plan: seq<Planned>) {
    && (forall i :: 0 <= i < |ids| ==> ids[i] in queue && PlannedOf(queue[ids[i]]) in plan)
    && (forall p {:trigger HasPlanned(queue, ids, p)} :: p in plan ==> HasPlanned(queue, ids, p))
  }

  predicate HasPlanned(queue: map<string, ProposalRow>, ids: seq<string>, p: Planned) {
    exists i :: 0 <= i < |ids| && ids[i] in queue && PlannedOf(queue[ids[i]]) == p
  }

  /** What the operation is meant to leave as the key's meaningful active objects. */
  function Goal(c: Candidate, op: Operation, before: set<string>): set<string> {
    match op
    case ADD => {c.obj}
    case UPDATE => {c.obj}
    case DELETE => {}
    case NOOP => before
  }

  /** The outcome for one key, given the proposals of the key that were approved, in any order. */
  lemma {:induction false} PlanReachesGoal(c: Candidate, objs: set<string>, existing: seq<string>, ps: seq<Planned>, h: Host)
    requires forall o :: o in existing <==> o in Meaningful(objs)
    requires forall i :: 0 <= i < |ps| && ps[i].key == c.key ==> ps[i] in PlanFor(c, existing, h)
    requires forall p :: p in PlanFor(c, existing, h) ==> p in ps
    ensures var op := OperationFor(h, c, existing);
            var after := ObjectsAfterAll(objs, ps, c.key);
            && Meaningful(after) == Meaningful(Goal(c, op, Meaningful(objs)))
            && ((Meaningful(after) == Goal(c, op, Meaningful(objs))) <==> (op.ADD? || op.UPDATE? ==> !IsTombstone(c.obj)))
            && (op.NOOP? ==> after == objs)
  {
    MeaningfulGoal(c, OperationFor(h, c, existing), objs);
    hide IsTombstone, OperationFor, Meaningful, ObjectsAfter, ObjectsAfterAll;
    var op, plan := OperationFor(h, c, existing), PlanFor(c, existing, h);
    if op.ADD? || op.UPDATE? {
      assert plan[0] in plan;
      SingleProposal(objs, ps, plan[0], c.key);
      OneObjectLeft(h, c, objs, existing, plan[0]);
    } else if op.DELETE? {
      DeletePlan(c, existing, ps, h);
      Retirements(objs, ps, c.key);
      assert Meaningful(objs) - Retired(ps, c.key) == {};
    } else {
      SingleProposal(objs, ps, Planned(c.key, c.obj, None), c.key);
    }
  }

  lemma {:induction false} MeaningfulGoal(c: Candidate, op: Operation, objs: set<string>)
    ensures Meaningful(Goal(c, op, Meaningful(objs))) ==
            match op
            case NOOP => Meaningful(objs)
            case DELETE => {}
            case _ => if IsTombstone(c.obj) then {} else {c.obj}
  {
    hide IsTombstone;
  }

  /** An ADD or UPDATE leaves the candidate as the only meaningful object. */
  lemma {:induction false} OneObjectLeft(h: Host, c: Candidate, objs: set<string>, existing: seq<string>, p: Planned)
    requires forall o :: o in existing <==> o in Meaningful(objs)
    requires p.key == c.key && p.obj == c.obj
    requires match OperationFor(h, c, existing)
             case ADD => p.supersedes.None?
             case UPDATE => p.supersedes == Some(if |existing| == 1 then Some(existing[0]) else None)
             case _ => false
    ensures Meaningful(ObjectsAfter(objs, p, c.key)) == if IsTombstone(c.obj) then {} else {c.obj}
  {
    hide IsTombstone, IsDeleteCandidate, SomeTrimsTo;
    if |existing| == 1 {
      assert Meaningful(objs) == {existing[0]};
    }
    var after := ObjectsAfter(objs, p, c.key);
    forall o | o in Meaningful(after) ensures o == c.obj {
      assert o == c.obj || o in Meaningful(objs);
    }
    assert c.obj in after;
  }

  lemma {:induction false} DeletePlan(c: Candidate, existing: seq<string>, ps: seq<Planned>, h: Host)
    requires OperationFor(h, c, existing).DELETE?
    requires forall i :: 0 <= i < |ps| && ps[i].key == c.key ==> ps[i] in PlanFor(c, existing, h)
    requires forall p :: p in PlanFor(c, existing, h) ==> p in ps
    ensures forall i :: 0 <= i < |ps| && ps[i].key == c.key ==> IsRetirement(ps[i])
    ensures forall o :: o in existing <==> o in Retired(ps, c.key)
  {
    hide IsTombstone, OperationFor;
    var plan := PlanFor(c, existing, h);
    forall i | 0 <= i < |plan| ensures plan[i] == Retirement(c.key, existing[i], h) && IsRetirement(plan[i]) {
      TombstoneIsTombstone(h.shortHash(existing[i]));
    }
    forall o | o in existing ensures o in Retired(ps, c.key) {
      var i :| 0 <= i < |existing| && existing[i] == o;
      assert plan[i] in plan;
      var j :| 0 <= j < |ps| && ps[j] == plan[i];
    }
    forall o | o in Retired(ps, c.key) ensures o in existing {
      var j :| 0 <= j < |ps| && ps[j].key == c.key && IsRetirement(ps[j]) && ps[j].supersedes.value.value == o;
      var i :| 0 <= i < |plan| && plan[i] == ps[j];
    }
  }

  /**
   Consolidating a batch with distinct keys and approving its proposals, in any order, leaves each
   key with its goal, exactly when no added or updated object reads as a tombstone.
   */
  lemma {:induction false} ConsolidationReachesGoal(db: Db, workspace: string, now: Time, ids: seq<string>,
                                 candidates: seq<Candidate>, h: Host, j: nat)
    requires Inv(db) && DistinctKeys(candidates) && j < |candidates|
    requires CoversPlan(db.queue, ids, PlanAll(db.facts, candidates, h))
    requires ApplyAll(db, workspace, now, ApproveOps(ids)).Ok?
    ensures var c := candidates[j];
            var op := OperationFor(h, c, Existing(db.facts, c.key));
            var after := ApplyAll(db, workspace, now, ApproveOps(ids)).value.facts;
            var before := ActiveObjects(db.facts, c.key);
            && Meaningful(ActiveObjects(after, c.key)) == Meaningful(Goal(c, op, Meaningful(before)))
            && ((Meaningful(ActiveObjects(after, c.key)) == Goal(c, op, Meaningful(before))) <==> (op.ADD? || op.UPDATE? ==> !IsTombstone(c.obj)))
            && (op.NOOP? ==> ActiveObjects(after, c.key) == before)
  {
    hide ApplyAll, IsTombstone, OperationFor, PlanFor, PlanAll, ActiveObjects, Meaningful, ObjectsAfterAll, Existing, ApproveOps, Goal;
    var c := candidates[j];
    var existing, ps := Existing(db.facts, c.key), PlannedIds(db.queue, ids);
    ActiveHaveNoSuccessor(db);
    ExistingAreMeaningful(db.facts, c.key);
    PlanAllKey(db.facts, candidates, h, j);
    ApprovedObjects(db, workspace, now, ids, c.key);
    forall i | 0 <= i < |ps| && ps[i].key == c.key ensures ps[i] in PlanFor(c, existing, h) {
      assert PlannedOf(db.queue[ids[i]]) in PlanAll(db.facts, candidates, h);
    }
    forall p | p in PlanFor(c, existing, h) ensures p in ps {
      assert p in PlanAll(db.facts, candidates, h);
      assert HasPlanned(db.queue, ids, p);
      var i :| 0 <= i < |ids| && ids[i] in db.queue && PlannedOf(db.queue[ids[i]]) == p;
      assert ps[i] == p;
    }
    PlanReachesGoal(c, ActiveObjects(db.facts, c.key), existing, ps, h);
  }

  lemma {:induction false} ActiveHaveNoSuccessor(db: Db)
    requires Inv(db)
    ensures forall i :: 0 <= i < |db.facts| && db.facts[i].status.Active? ==> db.facts[i].supersededBy.None?
  {
    hide QueueInv, Provenance, EdgesAgree, EntitiesAgree, EpisodesAgree, FtsAgrees, OneTruth;
  }
}
