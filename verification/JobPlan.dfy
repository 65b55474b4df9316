/** The byte budget at the end of `discover_jobs`, which also numbers the jobs. */
module JobPlan {
  import opened WorkerPool

  const U64_MAX := 0xFFFF_FFFF_FFFF_FFFF

  datatype Candidate = Candidate(rel: string, bytes: nat)

  function SaturatingAdd(a: nat, b: nat): nat {
    if a + b > U64_MAX then U64_MAX else a + b
  }

  function TotalBytes(jobs: seq<Job>): nat {
    if jobs == [] then 0 else TotalBytes(jobs[..|jobs| - 1]) + jobs[|jobs| - 1].bytes
  }

  /** The candidate positions chosen greedily in order, with `planned` bytes already taken. */
  function Chosen(candidates: seq<Candidate>, budget: nat, planned: nat, from: nat): seq<nat>
    requires from <= |candidates|
    decreases |candidates| - from
  {
    if from == |candidates| then []
    else if SaturatingAdd(planned, candidates[from].bytes) > budget then Chosen(candidates, budget, planned, from + 1)
    else [from] + Chosen(candidates, budget, planned + candidates[from].bytes, from + 1)
  }

  /** The bytes of the chosen candidates at positions `from` to `to`. */
  function BytesOf(candidates: seq<Candidate>, chosen: seq<nat>, from: nat, to: nat): nat
    requires from <= to <= |candidates|
    decreases |candidates| - from
  {
    if from == to then 0
    else (if from in chosen then candidates[from].bytes else 0) + BytesOf(candidates, chosen, from + 1, to)
  }

  lemma {:induction false} BytesIgnoreEarlier(candidates: seq<Candidate>, a: seq<nat>, b: seq<nat>, from: nat, to: nat)
    requires from <= to <= |candidates| && forall i: nat :: from <= i ==> (i in a <==> i in b)
    ensures BytesOf(candidates, a, from, to) == BytesOf(candidates, b, from, to)
    decreases |candidates| - from
  {
    if from < to {
      BytesIgnoreEarlier(candidates, a, b, from + 1, to);
    }
  }

  lemma {:induction false} ChosenRise(candidates: seq<Candidate>, budget: nat, planned: nat, from: nat)
    requires from <= |candidates|
    ensures Rises(Chosen(candidates, budget, planned, from), from, |candidates|)
    decreases |candidates| - from
  {
    if from < |candidates| {
      var takes := SaturatingAdd(planned, candidates[from].bytes) <= budget;
      ChosenRise(candidates, budget, if takes then planned + candidates[from].bytes else planned, from + 1);
    }
  }

  /** Positions in order, from `low` on and below `high`. */
  ghost predicate Rises(at: seq<nat>, low: nat, high: nat) {
    && (forall i :: 0 <= i < |at| ==> low <= at[i] < high)
    && (forall i, j :: 0 <= i < j < |at| ==> at[i] < at[j])
  }

  lemma {:induction false} ChosenFit(candidates: seq<Candidate>, budget: nat, planned: nat, from: nat, k: nat)
    requires from <= k < |candidates|
    ensures var chosen := Chosen(candidates, budget, planned, from);
            k in chosen <==> planned + BytesOf(candidates, chosen, from, k) + candidates[k].bytes <= budget || budget >= 0xFFFF_FFFF_FFFF_FFFF
    decreases |candidates| - from
  {
    var chosen := Chosen(candidates, budget, planned, from);
    var takes := SaturatingAdd(planned, candidates[from].bytes) <= budget;
    var next := if takes then planned + candidates[from].bytes else planned;
    var tail := Chosen(candidates, budget, next, from + 1);
    ChosenRise(candidates, budget, next, from + 1);
    assert chosen == if takes then [from] + tail else tail;
    assert from !in tail;
    assert forall i: nat :: from < i ==> (i in chosen <==> i in tail);
    assert from in chosen <==> takes;
    if from < k {
      ChosenFit(candidates, budget, next, from + 1, k);
      BytesIgnoreEarlier(candidates, chosen, tail, from + 1, k);
    }
  }

  /**
   The plan is greedy: positions are chosen in order, and a candidate is chosen exactly when it
   still fits beside the chosen ones before it. A budget of the largest 64-bit number takes all.
   */
  lemma {:induction false} PlanIsGreedy(candidates: seq<Candidate>, budget: nat, k: nat)
    requires k < |candidates|
    ensures var chosen := Chosen(candidates, budget, 0, 0);
            && Rises(chosen, 0, |candidates|)
            && (k in chosen <==> BytesOf(candidates, chosen, 0, k) + candidates[k].bytes <= budget || budget >= 0xFFFF_FFFF_FFFF_FFFF)
  {
    ChosenRise(candidates, budget, 0, 0);
    ChosenFit(candidates, budget, 0, 0, k);
  }

  /**
   Every candidate is planned or skipped, planned ones keep their order and are numbered from
   zero, and the plan stays within the budget.
   */
  method PlanJobs(candidates: seq<Candidate>, budget: nat) returns (jobs: seq<Job>, skipped: seq<Candidate>)
    ensures Indexed(jobs)
    ensures var chosen := Chosen(candidates, budget, 0, 0);
            |jobs| == |chosen| && forall i :: 0 <= i < |jobs| ==>
              chosen[i] < |candidates| && jobs[i].rel == candidates[chosen[i]].rel && jobs[i].bytes == candidates[chosen[i]].bytes
    ensures |jobs| + |skipped| == |candidates|
    ensures budget < U64_MAX ==> TotalBytes(jobs) <= budget
    ensures forall c :: c in skipped ==> c in candidates && c.bytes + TotalBytes(jobs) > budget
  {
    jobs, skipped := [], [];
    var planned := 0;
    ghost var picked: seq<nat> := [];
    for i := 0 to |candidates|
      invariant Indexed(jobs)
      invariant planned == TotalBytes(jobs)
      invariant picked + Chosen(candidates, budget, planned, i) == Chosen(candidates, budget, 0, 0)
      invariant |jobs| == |picked|
      invariant forall j :: 0 <= j < |jobs| ==>
        picked[j] < |candidates| && jobs[j].rel == candidates[picked[j]].rel && jobs[j].bytes == candidates[picked[j]].bytes
      invariant |jobs| + |skipped| == i
      invariant budget < U64_MAX ==> planned <= budget
      invariant forall c :: c in skipped ==> c in candidates && c.bytes + planned > budget
    {
      var candidate := candidates[i];
      if SaturatingAdd(planned, candidate.bytes) > budget {
        skipped := skipped + [candidate];
      } else {
        planned := planned + candidate.bytes;
        picked := picked + [i];
        jobs := jobs + [Job(|jobs|, candidate.rel, candidate.bytes)];
      }
    }
    assert picked == Chosen(candidates, budget, 0, 0);
  }
}
