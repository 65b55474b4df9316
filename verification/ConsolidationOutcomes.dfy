/**
 What a consolidation leaves under each key, read off the candidate's text and the facts that were
 active before it: whether the text asks for removal, repeats what is known, or says something new.
 */
module ConsolidationOutcomes {
  import opened Wrappers
  import opened StoreModel
  import opened StoreInvariants
  import opened Consolidation
  import opened ConsolidationRun
  import S = StoreClient

  // ---------------------------------------------------------------- reading the texts

  /** `t` is the part of `s` between its outer white space. */
  ghost predicate Core(h: Host, s: string, t: string) {
    exists i, j :: 0 <= i <= j <= |s| && t == s[i..j] && Bare(h, s, i, j)
  }

  ghost predicate Bare(h: Host, s: string, i: nat, j: nat)
    requires i <= j <= |s|
  {
    && (forall k :: 0 <= k < i || j <= k < |s| ==> h.space(s[k]))
    && (i < j ==> !h.space(s[i]) && !h.space(s[j - 1]))
  }

  /** From position `i` on, `s` reads `word`, capital letters counting as small ones. */
  predicate Reads(s: string, i: nat, word: string) {
    i + |word| <= |s| && forall k :: 0 <= k < |word| ==> SameLetter(s[i + k], word[k])
  }

  predicate SameLetter(c: char, small: char) {
    if 'A' <= c <= 'Z' then c as int + 32 == small as int else c == small
  }

  /** The text asks for the facts of its key to be removed. */
  ghost predicate AsksRemoval(h: Host, obj: string) {
    exists t :: Core(h, obj, t) && RemovalText(t)
  }

  predicate RemovalText(t: string) {
    || Reads(t, 0, "delete ")
    || Reads(t, 0, "remove ")
    || Reads(t, 0, "removed ")
    || Reads(t, 0, "no longer ")
    || Reads(t, 0, "stop ")
    || exists i :: 0 <= i < |t| && Reads(t, i, " no longer ")
  }

  /** The object of a retirement, as `LIKE 'retired_%'` tells it. */
  predicate ReadsRetired(obj: string) {
    |obj| > 7 && Reads(obj, 0, "retired")
  }

  ghost predicate SameCore(h: Host, a: string, b: string) {
    exists t :: Core(h, a, t) && Core(h, b, t)
  }

  /** An active fact of the key has this object. */
  ghost predicate Holds(facts: seq<Fact>, k: Key, obj: string) {
    exists i :: 0 <= i < |facts| && facts[i].status.Active? && facts[i].obj == obj &&
                facts[i].workspace == k.workspace && facts[i].scope == k.scope &&
                facts[i].subject == k.subject && facts[i].pred == k.pred
  }

  /** The object is part of what is currently taken as true under the key. */
  ghost predicate Current(facts: seq<Fact>, k: Key, obj: string) {
    Holds(facts, k, obj) && !ReadsRetired(obj)
  }

  ghost predicate Known(h: Host, facts: seq<Fact>, c: Candidate) {
    exists o :: Current(facts, c.key, o) && SameCore(h, o, c.obj)
  }

  // ---------------------------------------------------------------- the texts as the code reads them

  lemma {:induction false} TrimStartPart(h: Host, s: string) returns (i: nat)
    ensures i <= |s| && TrimStart(h, s) == s[i..] && (forall k :: 0 <= k < i ==> h.space(s[k])) && (i < |s| ==> !h.space(s[i]))
  {
    if s != "" && h.space(s[0]) {
      var i' := TrimStartPart(h, s[1..]);
      i := i' + 1;
      assert forall k :: 0 < k < |s| ==> s[k] == s[1..][k - 1];
      assert s[1..][i'..] == s[i..];
    } else {
      i := 0;
    }
  }

  lemma {:induction false} TrimEndPart(h: Host, s: string) returns (j: nat)
    ensures j <= |s| && TrimEnd(h, s) == s[..j] && (forall k :: j <= k < |s| ==> h.space(s[k])) && (j > 0 ==> !h.space(s[j - 1]))
  {
    if s != "" && h.space(s[|s| - 1]) {
      j := TrimEndPart(h, s[..|s| - 1]);
      assert s[..|s| - 1][..j] == s[..j];
    } else {
      j := |s|;
    }
  }

  lemma {:induction false} TrimIsCore(h: Host, s: string)
    ensures Core(h, s, Trim(h, s))
  {
    hide TrimStart, TrimEnd;
    var i := TrimStartPart(h, s);
    var j := TrimEndPart(h, s[i..]);
    assert s[i..][..j] == s[i..i + j];
    assert forall k :: i <= k < |s| ==> s[k] == s[i..][k - i];
    assert Bare(h, s, i, i + j);
  }

  lemma {:induction false} CoreUnique(h: Host, s: string, t: string, u: string)
    requires Core(h, s, t) && Core(h, s, u)
    ensures t == u
  {
    var i, j :| 0 <= i <= j <= |s| && t == s[i..j] && Bare(h, s, i, j);
    var a, b :| 0 <= a <= b <= |s| && u == s[a..b] && Bare(h, s, a, b);
    if i < j || a < b {
      assert i < j ==> !h.space(s[i]) && !h.space(s[j - 1]);
      assert a < b ==> !h.space(s[a]) && !h.space(s[b - 1]);
      assert i == a && j == b;
    }
  }

  lemma {:induction false} CoreIff(h: Host, s: string, t: string)
    ensures Core(h, s, t) <==> t == Trim(h, s)
  {
    hide Core, Trim;
    TrimIsCore(h, s);
    if Core(h, s, t) {
      CoreUnique(h, s, t, Trim(h, s));
    }
  }

  lemma {:induction false} LowerIff(c: char, small: char)
    ensures Lower(c) == small <==> SameLetter(c, small)
  {
  }

  lemma {:induction false} ReadsIff(s: string, i: nat, word: string)
    requires i <= |s|
    ensures word <= LowerAll(s)[i..] <==> Reads(s, i, word)
  {
    hide Lower, SameLetter;
    var lower := LowerAll(s);
    if i + |word| <= |s| {
      forall k | 0 <= k < |word| ensures lower[i..][k] == word[k] <==> SameLetter(s[i + k], word[k]) {
        LowerIff(s[i + k], word[k]);
      }
      assert word <= lower[i..] <==> forall k :: 0 <= k < |word| ==> lower[i..][k] == word[k];
    }
  }

  lemma {:induction false} RemovalIff(h: Host, obj: string)
    ensures IsDeleteCandidate(h, obj) <==> AsksRemoval(h, obj)
  {
    hide Trim, Core, Reads, LowerAll;
    var t := Trim(h, obj);
    forall u ensures Core(h, obj, u) <==> u == t { CoreIff(h, obj, u); }
    var lower := LowerAll(t);
    assert lower[0..] == lower;
    ReadsIff(t, 0, "delete ");
    ReadsIff(t, 0, "remove ");
    ReadsIff(t, 0, "removed ");
    ReadsIff(t, 0, "no longer ");
    ReadsIff(t, 0, "stop ");
    forall i | 0 <= i <= |t| ensures " no longer " <= lower[i..] <==> Reads(t, i, " no longer ") {
      ReadsIff(t, i, " no longer ");
    }
    NotAtEnd(t, " no longer ");
    assert RemovalText(t) <==> IsDeleteCandidate(h, obj);
  }

  lemma {:induction false} NotAtEnd(t: string, word: string)
    requires word != ""
    ensures !Reads(t, |t|, word)
  {
  }

  lemma {:induction false} RetiredIff(obj: string)
    ensures IsTombstone(obj) <==> ReadsRetired(obj)
  {
    hide LowerAll, Reads;
    if |obj| > 7 {
      ReadsIff(obj, 0, "retired");
      LowerFront(obj);
    }
  }

  lemma {:induction false} LowerFront(obj: string)
    requires |obj| > 7
    ensures "retired" <= LowerAll(obj)[0..] <==> LowerAll(obj[..7]) == "retired"
  {
    hide Lower;
    assert LowerAll(obj[..7]) == LowerAll(obj)[..7];
  }

  lemma {:induction false} SameCoreIff(h: Host, a: string, b: string)
    ensures SameCore(h, a, b) <==> Trim(h, a) == Trim(h, b)
  {
    hide Trim, Core;
    forall t ensures Core(h, a, t) <==> t == Trim(h, a) { CoreIff(h, a, t); }
    forall t ensures Core(h, b, t) <==> t == Trim(h, b) { CoreIff(h, b, t); }
    assert Core(h, a, Trim(h, a));
  }

  lemma {:induction false} HoldsIff(facts: seq<Fact>, k: Key, obj: string)
    ensures Holds(facts, k, obj) <==> obj in ActiveObjects(facts, k)
    ensures Current(facts, k, obj) <==> obj in Meaningful(ActiveObjects(facts, k))
  {
    hide IsTombstone, ReadsRetired;
    RetiredIff(obj);
    if Holds(facts, k, obj) {
      var i :| 0 <= i < |facts| && facts[i].status.Active? && facts[i].obj == obj &&
                facts[i].workspace == k.workspace && facts[i].scope == k.scope &&
                facts[i].subject == k.subject && facts[i].pred == k.pred;
      assert ActiveIn(facts[i], k);
    }
  }

  lemma {:induction false} KnownIff(h: Host, facts: seq<Fact>, c: Candidate)
    requires forall i :: 0 <= i < |facts| && facts[i].status.Active? ==> facts[i].supersededBy.None?
    ensures Known(h, facts, c) <==> SomeTrimsTo(h, Existing(facts, c.key), c.obj)
    ensures Existing(facts, c.key) == [] <==> forall o :: !Current(facts, c.key, o)
  {
    hide Existing, Current, SameCore, Trim, Meaningful, ActiveObjects;
    var existing := Existing(facts, c.key);
    ExistingAreMeaningful(facts, c.key);
    forall o ensures Current(facts, c.key, o) <==> o in existing { HoldsIff(facts, c.key, o); }
    forall o ensures SameCore(h, o, c.obj) <==> Trim(h, o) == Trim(h, c.obj) { SameCoreIff(h, o, c.obj); }
    assert forall i :: 0 <= i < |existing| ==> existing[i] in existing;
    assert existing != [] ==> Current(facts, c.key, existing[0]);
  }

  // ---------------------------------------------------------------- the outcome

  /** The object is current under the candidate's key once its proposals are approved. */
  ghost predicate ComesOut(h: Host, facts: seq<Fact>, c: Candidate, obj: string) {
    if AsksRemoval(h, c.obj) then false
    else if Known(h, facts, c) then Current(facts, c.key, obj)
    else obj == c.obj && !ReadsRetired(obj)
  }

  /** What the operation chosen for a candidate leaves is what its text calls for. */
  lemma {:induction false} GoalIsOutcome(h: Host, facts: seq<Fact>, c: Candidate, obj: string)
    requires forall i :: 0 <= i < |facts| && facts[i].status.Active? ==> facts[i].supersededBy.None?
    ensures var op := OperationFor(h, c, Existing(facts, c.key));
            && (obj in Meaningful(Goal(c, op, Meaningful(ActiveObjects(facts, c.key)))) <==> ComesOut(h, facts, c, obj))
            && (!AsksRemoval(h, c.obj) && Known(h, facts, c) ==> op.NOOP?)
  {
    var op := OperationFor(h, c, Existing(facts, c.key));
    MeaningfulGoal(c, op, ActiveObjects(facts, c.key));
    hide Existing, Known, AsksRemoval, IsDeleteCandidate, SomeTrimsTo, Meaningful, ActiveObjects, IsTombstone, ReadsRetired, Current;
    RemovalIff(h, c.obj);
    KnownIff(h, facts, c);
    HoldsIff(facts, c.key, obj);
    RetiredIff(obj);
  }

  /** A candidate that repeats what is known puts nothing into the batch. */
  lemma {:induction false} NothingPlanned(db: Db, workspace: string, scope: string, candidates: seq<Candidate>, h: Host, items: seq<S.BatchItem>, j: nat)
    requires Ready(db, workspace, scope, candidates, h, items) && j < |candidates|
    requires OperationFor(h, candidates[j], Existing(db.facts, candidates[j].key)).NOOP?
    ensures forall i :: 0 <= i < |items| ==> items[i].Safe? && !About(items[i], candidates[j].key)
  {
    hide Existing, OperationFor, PlanAll, Separates, DigestsDiffer, FreshIn, PlainId, PlannedOf;
    var c, plan := candidates[j], PlanAll(db.facts, candidates, h);
    PlanAllKey(db.facts, candidates, h, j);
    assert PlanFor(c, Existing(db.facts, c.key), h) == [];
    forall i | 0 <= i < |items| ensures items[i].Safe? && !About(items[i], c.key) {
      assert BuiltFor(workspace, items[i], plan[i]);
      assert plan[i] in plan;
      var m := PlannedForSome(db.facts, candidates, h, plan[i]);
    }
  }

  predicate About(item: S.BatchItem, k: Key)
    requires item.Safe?
  {
    S.Triple(item).0 == k.subject && S.Triple(item).1 == k.pred
  }

  /**
   Consolidating and approving, from the texts alone. A candidate whose text asks for removal leaves
   its key with nothing current. One that repeats a current object proposes nothing and leaves every
   active object of the key as it was. Any other leaves itself as the only current object, or, when
   it reads as a retirement, none.
   */
  lemma {:induction false} ConsolidationOutcome(db: Db, workspace: string, scope: string, now: Time, later: Time,
                             candidates: seq<Candidate>, h: Host, items: seq<S.BatchItem>, j: nat)
    requires Inv(db) && Ready(db, workspace, scope, candidates, h, items) && j < |candidates|
    ensures var ps := S.Deduplicated(items, {});
            var queued := Commit(db, Transaction(workspace, now, S.EnqueueOps(ps)));
            var approved := Commit(queued, Transaction(workspace, later, S.ApproveOps(IdsOf(ps))));
            var c := candidates[j];
            && |approved.facts| == |db.facts| + |ps|
            && (forall o :: Current(approved.facts, c.key, o) <==> ComesOut(h, db.facts, c, o))
            && (!AsksRemoval(h, c.obj) && Known(h, db.facts, c) ==>
                && (forall o :: Holds(approved.facts, c.key, o) <==> Holds(db.facts, c.key, o))
                && (forall i :: 0 <= i < |items| ==> items[i].Safe? && !About(items[i], c.key)))
  {
    hide Inv, Ready, Commit, OperationFor, Existing, Goal, Meaningful, ActiveObjects, Current, Holds, ComesOut, AsksRemoval, Known, About, IsTombstone;
    var ps := S.Deduplicated(items, {});
    var queued := Commit(db, Transaction(workspace, now, S.EnqueueOps(ps)));
    var approved := Commit(queued, Transaction(workspace, later, S.ApproveOps(IdsOf(ps))));
    var c := candidates[j];
    ConsolidateEndToEnd(db, workspace, scope, now, later, candidates, h, items, j);
    ActiveHaveNoSuccessor(db);
    forall o ensures Current(approved.facts, c.key, o) <==> ComesOut(h, db.facts, c, o) {
      GoalIsOutcome(h, db.facts, c, o);
      HoldsIff(approved.facts, c.key, o);
    }
    if !AsksRemoval(h, c.obj) && Known(h, db.facts, c) {
      GoalIsOutcome(h, db.facts, c, c.obj);
      NothingPlanned(db, workspace, scope, candidates, h, items, j);
      forall o ensures Holds(approved.facts, c.key, o) <==> Holds(db.facts, c.key, o) {
        HoldsIff(approved.facts, c.key, o);
        HoldsIff(db.facts, c.key, o);
      }
    }
  }
}
