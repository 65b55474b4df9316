/**
 `parse_jobs`: worker threads take indices from a shared atomic counter and send results down a
 channel; the caller collects them and sorts by index. Every schedule gives the sequential result.
 */
module WorkerPool {
  import opened Wrappers

  /** A job carries its position in the sequential order; `T` is what parsing it yields. */
  datatype Job = Job(index: nat, rel: string, bytes: nat)

  datatype FileParse<+T> = FileParse(index: nat, parsed: T)

  datatype Worker = Ready | Holding(index: nat) | Finished

  /** `received` is what the collecting loop has taken from the channel, in order. */
  datatype Pool = Pool(next: nat, workers: seq<Worker>, channel: seq<nat>, received: seq<nat>)

  datatype Event = Fetch(worker: nat) | Send(worker: nat) | Receive

  function Initial(workerCount: nat): Pool {
    Pool(0, seq(workerCount, _ => Ready), [], [])
  }

  predicate EnabledIn(p: Pool, e: Event) {
    match e
    case Fetch(w) => w < |p.workers| && p.workers[w].Ready?
    case Send(w) => w < |p.workers| && p.workers[w].Holding?
    case Receive => p.channel != []
  }

  /** One atomic step over `total` scheduled jobs; results travel as scheduled positions. */
  function Step(p: Pool, e: Event, total: nat): Pool
    requires EnabledIn(p, e)
  {
    match e
    case Fetch(w) =>
      p.(next := p.next + 1, workers := p.workers[w := if p.next >= total then Finished else Holding(p.next)])
    case Send(w) =>
      p.(workers := p.workers[w := Ready], channel := p.channel + [p.workers[w].index])
    case Receive =>
      p.(channel := p.channel[1..], received := p.received + [p.channel[0]])
  }

  predicate Done(p: Pool) {
    p.channel == [] && forall w :: 0 <= w < |p.workers| ==> p.workers[w].Finished?
  }

  ghost predicate Schedule(p: Pool, events: seq<Event>, total: nat)
    decreases |events|
  {
    events == [] || (EnabledIn(p, events[0]) && Schedule(Step(p, events[0], total), events[1..], total))
  }

  function After(p: Pool, events: seq<Event>, total: nat): Pool
    requires Schedule(p, events, total)
    decreases |events|
  {
    if events == [] then p else After(Step(p, events[0], total), events[1..], total)
  }

  // ---------------------------------------------------------------- invariant

  /** How many workers hold position `v`. */
  function HeldCount(workers: seq<Worker>, v: nat): nat {
    if workers == [] then 0
    else HeldCount(workers[..|workers| - 1], v) + (if workers[|workers| - 1] == Holding(v) then 1 else 0)
  }

  /** How often position `v` occurs in the hands of workers, in the channel and in the caller's list. */
  function Places(p: Pool, v: nat): nat {
    HeldCount(p.workers, v) + multiset(p.channel)[v] + multiset(p.received)[v]
  }

  /** Each fetched job is in exactly one place; no other is anywhere. */
  ghost predicate PoolInv(p: Pool, total: nat) {
    && (forall v: nat :: Places(p, v) == if v < p.next && v < total then 1 else 0)
    && (forall w :: 0 <= w < |p.workers| && p.workers[w].Finished? ==> p.next > total)
  }

  lemma {:induction false} HeldUpdate(workers: seq<Worker>, w: nat, x: Worker, v: nat)
    requires w < |workers|
    ensures HeldCount(workers[w := x], v) + (if workers[w] == Holding(v) then 1 else 0) ==
            HeldCount(workers, v) + (if x == Holding(v) then 1 else 0)
    decreases |workers|
  {
    var rest := workers[..|workers| - 1];
    if w < |rest| {
      HeldUpdate(rest, w, x, v);
      assert workers[w := x][..|workers| - 1] == rest[w := x];
    } else {
      assert workers[w := x][..|workers| - 1] == rest;
    }
  }

  lemma {:induction false} StepKeepsInv(p: Pool, e: Event, total: nat)
    requires PoolInv(p, total) && EnabledIn(p, e)
    ensures PoolInv(Step(p, e, total), total)
  {
    hide Places;
    var p' := Step(p, e, total);
    forall v: nat ensures Places(p', v) == if v < p'.next && v < total then 1 else 0 {
      assert Places(p, v) == if v < p.next && v < total then 1 else 0;
      match e
      case Fetch(w) => FetchPlaces(p, w, total, v);
      case Send(w) => SendPlaces(p, w, total, v);
      case Receive => ReceivePlaces(p, total, v);
    }
  }

  /** A fetch puts the counter's job into the worker's hands. */
  lemma {:induction false} FetchPlaces(p: Pool, w: nat, total: nat, v: nat)
    requires EnabledIn(p, Fetch(w))
    ensures Places(Step(p, Fetch(w), total), v) == Places(p, v) + (if v == p.next && v < total then 1 else 0)
  {
    hide HeldCount;
    HeldUpdate(p.workers, w, if p.next >= total then Finished else Holding(p.next), v);
  }

  /** A send moves the job from the worker to the channel. */
  lemma {:induction false} SendPlaces(p: Pool, w: nat, total: nat, v: nat)
    requires EnabledIn(p, Send(w))
    ensures Places(Step(p, Send(w), total), v) == Places(p, v)
  {
    hide HeldCount;
    HeldUpdate(p.workers, w, Ready, v);
  }

  /** A receive moves it from the channel to the caller's list. */
  lemma {:induction false} ReceivePlaces(p: Pool, total: nat, v: nat)
    requires EnabledIn(p, Receive)
    ensures Places(Step(p, Receive, total), v) == Places(p, v)
  {
    hide HeldCount;
    assert p.channel == [p.channel[0]] + p.channel[1..];
  }

  lemma {:induction false} InitialInv(workerCount: nat, total: nat)
    ensures PoolInv(Initial(workerCount), total)
  {
    forall v: nat ensures Places(Initial(workerCount), v) == 0 {
      NoneHeld(Initial(workerCount).workers, v);
    }
  }

  lemma {:induction false} NoneHeld(workers: seq<Worker>, v: nat)
    requires forall w :: 0 <= w < |workers| ==> !workers[w].Holding?
    ensures HeldCount(workers, v) == 0
    decreases |workers|
  {
    if workers != [] {
      NoneHeld(workers[..|workers| - 1], v);
    }
  }

  lemma {:induction false} ScheduleKeepsInv(p: Pool, events: seq<Event>, total: nat)
    requires PoolInv(p, total) && Schedule(p, events, total)
    ensures PoolInv(After(p, events, total), total) && |After(p, events, total).workers| == |p.workers|
    decreases |events|
  {
    hide PoolInv;
    if events != [] {
      StepKeepsInv(p, events[0], total);
      ScheduleKeepsInv(Step(p, events[0], total), events[1..], total);
    }
  }

  /** A listing of 0..n without repetition. */
  ghost predicate Permutation(r: seq<nat>, n: nat) {
    && |r| == n
    && (forall i :: 0 <= i < n ==> r[i] < n)
    && forall i, j :: 0 <= i < j < n ==> r[i] != r[j]
  }

  function UpTo(n: nat): (m: multiset<nat>)
    ensures |m| == n && forall v: nat :: m[v] == if v < n then 1 else 0
  {
    if n == 0 then multiset{} else UpTo(n - 1) + multiset{n - 1}
  }

  lemma {:induction false} CountsArePermutation(r: seq<nat>, n: nat)
    requires forall v: nat :: multiset(r)[v] == if v < n then 1 else 0
    ensures Permutation(r, n)
  {
    hide UpTo;
    assert multiset(r) == UpTo(n);
    assert |multiset(r)| == |r|;
    forall i | 0 <= i < |r| ensures r[i] < n {
      assert r[i] in multiset(r);
    }
    forall i, j | 0 <= i < j < |r| ensures r[i] != r[j] {
      assert r == r[..j] + r[j..];
      assert multiset(r) == multiset(r[..j]) + multiset(r[j..]);
      assert r[..j][i] in multiset(r[..j]) && r[j..][0] in multiset(r[j..]);
      assert r[i] == r[j] ==> multiset(r)[r[i]] >= 2;
    }
  }

  /** When the pool is done, every job has been received exactly once. */
  lemma {:induction false} EachJobOnce(workerCount: nat, events: seq<Event>, total: nat)
    requires workerCount > 0 && Schedule(Initial(workerCount), events, total)
    requires Done(After(Initial(workerCount), events, total))
    ensures Permutation(After(Initial(workerCount), events, total).received, total)
  {
    hide Permutation, HeldCount, Schedule;
    InitialInv(workerCount, total);
    ScheduleKeepsInv(Initial(workerCount), events, total);
    var p := After(Initial(workerCount), events, total);
    assert p.workers[0].Finished?;
    forall v: nat ensures multiset(p.received)[v] == if v < total then 1 else 0 {
      NoneHeld(p.workers, v);
      assert Places(p, v) == if v < p.next && v < total then 1 else 0;
    }
    CountsArePermutation(p.received, total);
  }

  // ---------------------------------------------------------------- progress

  function Cost(w: Worker): nat {
    match w case Ready => 0 case Holding(_) => 2 case Finished => 0
  }

  function TotalCost(workers: seq<Worker>): nat {
    if workers == [] then 0 else TotalCost(workers[..|workers| - 1]) + Cost(workers[|workers| - 1])
  }

  function FinishedCount(workers: seq<Worker>): (n: nat)
    ensures n <= |workers|
  {
    if workers == [] then 0
    else FinishedCount(workers[..|workers| - 1]) + (if workers[|workers| - 1].Finished? then 1 else 0)
  }

  /** Steps still possible: a fetch may lead to a send and a receive. */
  function Weight(p: Pool, total: nat): int {
    3 * (total + |p.workers| - p.next) + TotalCost(p.workers) + |p.channel|
  }

  /** Fetches never outrun the jobs and the workers that found none. */
  ghost predicate FetchBound(p: Pool, total: nat) {
    p.next <= total + FinishedCount(p.workers)
  }

  lemma {:induction false} UpdateCosts(workers: seq<Worker>, w: nat, x: Worker)
    requires w < |workers|
    ensures FinishedCount(workers[w := x]) + (if workers[w].Finished? then 1 else 0) == FinishedCount(workers) + (if x.Finished? then 1 else 0)
    ensures TotalCost(workers[w := x]) + Cost(workers[w]) == TotalCost(workers) + Cost(x)
    decreases |workers|
  {
    var rest := workers[..|workers| - 1];
    if w < |rest| {
      UpdateCosts(rest, w, x);
      assert workers[w := x][..|workers| - 1] == rest[w := x];
    } else {
      assert workers[w := x][..|workers| - 1] == rest;
    }
  }

  /** A step is enabled until the pool is done, and every step lowers a bounded weight. */
  lemma {:induction false} Progress(p: Pool, total: nat)
    requires FetchBound(p, total)
    ensures Weight(p, total) >= 0
    ensures Done(p) <==> forall e :: !EnabledIn(p, e)
    ensures forall e :: EnabledIn(p, e) ==> Weight(Step(p, e, total), total) < Weight(p, total) && FetchBound(Step(p, e, total), total)
  {
    hide TotalCost, FinishedCount;
    if !Done(p) {
      if p.channel != [] {
        assert EnabledIn(p, Receive);
      } else {
        var w :| 0 <= w < |p.workers| && !p.workers[w].Finished?;
        assert EnabledIn(p, if p.workers[w].Ready? then Fetch(w) else Send(w));
      }
    }
    forall e | EnabledIn(p, e) ensures Weight(Step(p, e, total), total) < Weight(p, total) && FetchBound(Step(p, e, total), total) {
      if !e.Receive? {
        UpdateCosts(p.workers, e.worker, Step(p, e, total).workers[e.worker]);
      }
    }
  }

  // ---------------------------------------------------------------- the result

  /** `parse_file_job`: a job either fails or yields a result tagged with the job's index. */
  function ParseJob<T>(parse: Job -> Result<T>, job: Job): (r: Result<FileParse<T>>)
    ensures r.Ok? <==> parse(job).Ok?
    ensures r.Ok? ==> r.value == FileParse(job.index, parse(job).value)
  {
    match parse(job)
    case Ok(t) => Ok(FileParse(job.index, t))
    case Err(e) => Err(e)
  }

  /** The single-threaded branch: stops at the first error in job order. */
  function Sequential<T>(parse: Job -> Result<T>, jobs: seq<Job>): Result<seq<FileParse<T>>>
    decreases |jobs|
  {
    if jobs == [] then Ok([])
    else
      var first :- ParseJob(parse, jobs[0]);
      var rest :- Sequential(parse, jobs[1..]);
      Ok([first] + rest)
  }

  /** What `discover_jobs` guarantees: the index of a job is its position. */
  ghost predicate Indexed(jobs: seq<Job>) {
    forall i :: 0 <= i < |jobs| ==> jobs[i].index == i
  }

  ghost predicate SortedByIndex<T>(files: seq<FileParse<T>>) {
    forall i, j :: 0 <= i < j < |files| ==> files[i].index <= files[j].index
  }

  /** The result received at `i` is the first that is an error, and this is its error. */
  ghost predicate FailsFirst<T>(parse: Job -> Result<T>, scheduled: seq<Job>, received: seq<nat>, i: nat, error: string)
    requires i < |received| && forall k :: 0 <= k < |received| ==> received[k] < |scheduled|
  {
    && (forall j :: 0 <= j < i ==> parse(scheduled[received[j]]).Ok?)
    && parse(scheduled[received[i]]) == Err(error)
  }

  /** The collecting loop over the results in the order received. */
  method Collect<T>(parse: Job -> Result<T>, scheduled: seq<Job>, received: seq<nat>)
    returns (parsed: seq<FileParse<T>>, firstError: Option<string>)
    requires forall i :: 0 <= i < |received| ==> received[i] < |scheduled|
    ensures firstError.None? <==> forall i :: 0 <= i < |received| ==> parse(scheduled[received[i]]).Ok?
    ensures firstError.None? ==> |parsed| == |received| && forall i :: 0 <= i < |received| ==>
      ParseJob(parse, scheduled[received[i]]) == Ok(parsed[i])
    ensures firstError.Some? ==> exists i :: 0 <= i < |received| && FailsFirst(parse, scheduled, received, i, firstError.value)
  {
    parsed, firstError := [], None;
    for i := 0 to |received|
      invariant firstError.None? <==> forall j :: 0 <= j < i ==> parse(scheduled[received[j]]).Ok?
      invariant firstError.Some? ==> exists j :: 0 <= j < i && FailsFirst(parse, scheduled, received, j, firstError.value)
      invariant firstError.None? ==> |parsed| == i && forall j :: 0 <= j < i ==> ParseJob(parse, scheduled[received[j]]) == Ok(parsed[j])
    {
      var result := ParseJob(parse, scheduled[received[i]]);
      if result.Ok? {
        parsed := parsed + [result.value];
      } else if firstError.None? {
        firstError := Some(result.error);
        assert FailsFirst(parse, scheduled, received, i, result.error);
      }
    }
  }

  /** The job at `i` is the first that fails, with this error. */
  ghost predicate StopsAt<T>(parse: Job -> Result<T>, jobs: seq<Job>, i: nat, error: string)
    requires i < |jobs|
  {
    (forall j :: 0 <= j < i ==> parse(jobs[j]).Ok?) && parse(jobs[i]) == Err(error)
  }

  lemma {:induction false} SequentialOutcome<T>(parse: Job -> Result<T>, jobs: seq<Job>)
    ensures Sequential(parse, jobs).Ok? <==> forall i :: 0 <= i < |jobs| ==> parse(jobs[i]).Ok?
    ensures Sequential(parse, jobs).Err? ==> exists i :: 0 <= i < |jobs| && StopsAt(parse, jobs, i, Sequential(parse, jobs).error)
    ensures Sequential(parse, jobs).Ok? ==>
      var files := Sequential(parse, jobs).value;
      |files| == |jobs| && forall i :: 0 <= i < |jobs| ==> ParseJob(parse, jobs[i]) == Ok(files[i])
    decreases |jobs|
  {
    if jobs != [] {
      var rest := jobs[1..];
      SequentialOutcome(parse, rest);
      assert forall i :: 1 <= i < |jobs| ==> jobs[i] == rest[i - 1];
      if parse(jobs[0]).Err? {
        assert StopsAt(parse, jobs, 0, parse(jobs[0]).error);
      } else if Sequential(parse, rest).Err? {
        var i :| 0 <= i < |rest| && StopsAt(parse, rest, i, Sequential(parse, rest).error);
        assert StopsAt(parse, jobs, i + 1, Sequential(parse, rest).error);
      }
    }
  }

  /** `order` rearranges `a` into `b`. */
  ghost predicate Rearranges<T>(order: seq<nat>, a: seq<T>, b: seq<T>) {
    |a| == |b| && Permutation(order, |a|) && forall i :: 0 <= i < |a| ==> b[i] == a[order[i]]
  }

  lemma {:induction false} StrictlyIncreasingIdentity(t: seq<nat>, n: nat, i: nat)
    requires |t| == n && (forall k :: 0 <= k < n ==> t[k] < n) && (forall j, k :: 0 <= j < k < n ==> t[j] < t[k])
    requires i < n
    ensures t[i] == i
  {
    AtLeastIndex(t, i);
    AtMostIndex(t, n, i);
  }

  lemma {:induction false} AtLeastIndex(t: seq<nat>, i: nat)
    requires i < |t| && forall j, k :: 0 <= j < k < |t| ==> t[j] < t[k]
    ensures t[i] >= i
  {
    if i > 0 {
      AtLeastIndex(t, i - 1);
    }
  }

  lemma {:induction false} AtMostIndex(t: seq<nat>, n: nat, i: nat)
    requires |t| == n && i < n && (forall k :: 0 <= k < n ==> t[k] < n) && (forall j, k :: 0 <= j < k < n ==> t[j] < t[k])
    ensures t[i] <= i
    decreases n - i
  {
    if i < n - 1 {
      AtMostIndex(t, n, i + 1);
    }
  }

  /** Where the i-th sorted result comes from in the original job list. */
  function Origin(scheduling: seq<nat>, received: seq<nat>, sorting: seq<nat>, n: nat): (t: seq<nat>)
    requires Permutation(scheduling, n) && Permutation(received, n) && Permutation(sorting, n)
    ensures Permutation(t, n) && forall i :: 0 <= i < n ==> t[i] == scheduling[received[sorting[i]]]
  {
    var t := seq(n, i requires 0 <= i < n => scheduling[received[sorting[i]]]);
    assert forall i, j :: 0 <= i < j < n ==> t[i] != t[j] by {
      forall i, j | 0 <= i < j < n ensures t[i] != t[j] {
        Distinct(sorting, n, i, j);
        Distinct(received, n, sorting[i], sorting[j]);
        Distinct(scheduling, n, received[sorting[i]], received[sorting[j]]);
      }
    }
    t
  }

  lemma {:induction false} Distinct(r: seq<nat>, n: nat, i: nat, j: nat)
    requires Permutation(r, n) && i < n && j < n && i != j
    ensures r[i] != r[j]
  {
    if i < j {
    } else {
      assert r[j] != r[i];
    }
  }

  /** The sorted results, whatever the schedule, are those of the sequential run. */
  lemma {:induction false} SortedIsSequential<T>(parse: Job -> Result<T>, jobs: seq<Job>, scheduled: seq<Job>, scheduling: seq<nat>,
                              received: seq<nat>, parsed: seq<FileParse<T>>, files: seq<FileParse<T>>, sorting: seq<nat>)
    requires Indexed(jobs) && Rearranges(scheduling, jobs, scheduled) && Permutation(received, |jobs|)
    requires |parsed| == |jobs| && forall i :: 0 <= i < |jobs| ==> ParseJob(parse, scheduled[received[i]]) == Ok(parsed[i])
    requires Rearranges(sorting, parsed, files) && SortedByIndex(files)
    ensures Sequential(parse, jobs) == Ok(files)
  {
    hide Sequential;
    var n := |jobs|;
    var t := Origin(scheduling, received, sorting, n);
    forall i | 0 <= i < n ensures ParseJob(parse, jobs[t[i]]) == Ok(files[i]) && files[i].index == t[i] {
      assert files[i] == parsed[sorting[i]];
      assert ParseJob(parse, scheduled[received[sorting[i]]]) == Ok(parsed[sorting[i]]);
    }
    forall j, k | 0 <= j < k < n ensures t[j] < t[k] {
      assert files[j].index <= files[k].index && t[j] != t[k];
    }
    forall i | 0 <= i < n ensures ParseJob(parse, jobs[i]) == Ok(files[i]) {
      StrictlyIncreasingIdentity(t, n, i);
    }
    SequentialOutcome(parse, jobs);
    forall i | 0 <= i < n ensures parse(jobs[i]).Ok? {
      assert ParseJob(parse, jobs[i]).Ok?;
    }
    assert Sequential(parse, jobs).value == files;
  }

  /**
   All schedules agree: for every interleaving, the pool fails exactly when the sequential run
   fails, its list of results is complete, and sorting it gives the sequential list.
   */
  lemma {:induction false} EveryScheduleMatches<T>(parse: Job -> Result<T>, jobs: seq<Job>, scheduled: seq<Job>, scheduling: seq<nat>,
                                workerCount: nat, events: seq<Event>, parsed: seq<FileParse<T>>, firstError: Option<string>)
    requires Indexed(jobs) && Rearranges(scheduling, jobs, scheduled)
    requires workerCount > 0 && Schedule(Initial(workerCount), events, |jobs|) && Done(After(Initial(workerCount), events, |jobs|))
    requires var received := After(Initial(workerCount), events, |jobs|).received;
             && (forall i :: 0 <= i < |received| ==> received[i] < |scheduled|)
             && (firstError.None? <==> forall i :: 0 <= i < |received| ==> parse(scheduled[received[i]]).Ok?)
             && (firstError.None? ==> |parsed| == |received| && forall i :: 0 <= i < |received| ==>
                   ParseJob(parse, scheduled[received[i]]) == Ok(parsed[i]))
    ensures firstError.None? <==> Sequential(parse, jobs).Ok?
    ensures firstError.None? ==> |parsed| == |jobs|
    ensures firstError.None? ==> forall files, sorting :: Rearranges(sorting, parsed, files) && SortedByIndex(files) ==>
      Sequential(parse, jobs) == Ok(files)
  {
    hide Sequential, Schedule, Done, PoolInv;
    var received := After(Initial(workerCount), events, |jobs|).received;
    EachJobOnce(workerCount, events, |jobs|);
    SequentialOutcome(parse, jobs);
    AllReached(jobs, scheduled, scheduling, received);
    if firstError.None? {
      forall i | 0 <= i < |jobs| ensures parse(jobs[i]).Ok? {
        assert Reached(scheduled, received, jobs[i]);
        var k :| 0 <= k < |received| && received[k] < |scheduled| && scheduled[received[k]] == jobs[i];
      }
      forall files, sorting | Rearranges(sorting, parsed, files) && SortedByIndex(files) ensures Sequential(parse, jobs) == Ok(files) {
        SortedIsSequential(parse, jobs, scheduled, scheduling, received, parsed, files, sorting);
      }
    } else {
      var k :| 0 <= k < |received| && !parse(scheduled[received[k]]).Ok?;
      assert scheduled[received[k]] == jobs[scheduling[received[k]]];
    }
  }

  predicate Reached(scheduled: seq<Job>, received: seq<nat>, job: Job) {
    exists k :: 0 <= k < |received| && received[k] < |scheduled| && scheduled[received[k]] == job
  }

  /** Every job is behind some received position. */
  lemma {:induction false} AllReached(jobs: seq<Job>, scheduled: seq<Job>, scheduling: seq<nat>, received: seq<nat>)
    requires Rearranges(scheduling, jobs, scheduled) && Permutation(received, |jobs|)
    ensures forall i :: 0 <= i < |jobs| ==> Reached(scheduled, received, jobs[i])
  {
    forall i | 0 <= i < |jobs| ensures Reached(scheduled, received, jobs[i]) {
      var s := Hits(scheduling, |jobs|, i);
      var k := Hits(received, |jobs|, s);
      assert scheduled[received[k]] == jobs[i];
    }
  }

  /** A permutation takes every value. */
  lemma {:induction false} Hits(r: seq<nat>, n: nat, v: nat) returns (k: nat)
    requires Permutation(r, n) && v < n
    ensures k < n && r[k] == v
  {
    var image, below := set i | 0 <= i < n :: r[i], Below(n);
    ImageSize(r, n);
    FullSubset(image, below);
    assert v in image;
    k :| 0 <= k < n && r[k] == v;
  }

  lemma {:induction false} FullSubset(a: set<nat>, b: set<nat>)
    requires a <= b && |a| == |b|
    ensures a == b
    decreases a
  {
    if x :| x in a {
      FullSubset(a - {x}, b - {x});
    }
  }

  function Below(n: nat): (r: set<nat>)
    ensures |r| == n && forall i: nat :: i in r <==> i < n
  {
    if n == 0 then {} else Below(n - 1) + {n - 1}
  }

  lemma {:induction false} ImageSize(r: seq<nat>, m: nat)
    requires m <= |r| && forall i, j :: 0 <= i < j < |r| ==> r[i] != r[j]
    ensures |set i | 0 <= i < m :: r[i]| == m
  {
    if m > 0 {
      ImageSize(r, m - 1);
      assert (set i | 0 <= i < m :: r[i]) == (set i | 0 <= i < m - 1 :: r[i]) + {r[m - 1]};
    }
  }
}
