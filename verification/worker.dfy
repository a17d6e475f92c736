/**
 * The background worker of worker.py: each iteration of its endless loop
 * takes one APPROVED job, marks it RUNNING, simulates the run, and marks
 * it COMPLETED; with nothing APPROVED the iteration is idle.
 */
module Worker {
  import opened Wrappers
  import opened Jobs
  import opened Ledger
  import opened Service

  /**
   * Where the store may raise inside one iteration. An exception is caught
   * and logged, and closing the session discards what was not committed.
   */
  datatype Fault = NoFault | ClaimCommitFails | FinishCommitFails

  /** The environment of one iteration: the two clock readings and the fault, if any. */
  datatype Tick = Tick(startedAt: int, completedAt: int, fault: Fault)

  /** What one iteration did. */
  datatype Iteration =
    | Idle                // nothing APPROVED: back off and poll again
    | Completed(id: nat)  // claimed, run, and finished
    | Abandoned(id: nat)  // the claim's commit raised; the job is still APPROVED
    | Stuck(id: nat)      // the finishing commit raised; the job stays RUNNING

  /**
   * The simulated run: `for i in range(job.estimated_duration or 10)`, one
   * step per second of sleep. Returns the number of steps taken.
   */
  method Execute(estimatedDuration: int) returns (steps: nat)
    ensures estimatedDuration > 0 ==> steps == estimatedDuration
    ensures estimatedDuration == 0 ==> steps == 10
    ensures estimatedDuration < 0 ==> steps == 0
  {
    var duration := if estimatedDuration == 0 then 10 else estimatedDuration;
    // `range` of a negative count is empty
    var bound := if duration < 0 then 0 else duration;
    steps := 0;
    for i := 0 to bound
      invariant steps == i
    {
      steps := steps + 1;
    }
  }

  /** The row the claim commits: RUNNING with its start time. */
  function Claimed(job: Job, tick: Tick): Job {
    job.(status := RUNNING, started_at := Some(tick.startedAt))
  }

  /** The row the finish commits: COMPLETED with its end time. */
  function Finished(job: Job, tick: Tick): Job {
    Claimed(job, tick).(status := COMPLETED, completed_at := Some(tick.completedAt))
  }

  /**
   * What one iteration does to the job table `before`, leaving `after`:
   * idle exactly when nothing is APPROVED; otherwise it takes the APPROVED
   * job with the least id, and the fault decides how far it gets. A failed
   * claim changes nothing; a failed finish leaves the job RUNNING.
   */
  ghost predicate Step(before: map<nat, Job>, tick: Tick, it: Iteration, after: map<nat, Job>) {
    && (WithStatus(before, APPROVED) == {} <==> it == Idle)
    && (!it.Idle? ==> IsOldestApproved(before, it.id))
    && (it.Completed? <==> !it.Idle? && tick.fault == NoFault)
    && (it.Abandoned? <==> !it.Idle? && tick.fault == ClaimCommitFails)
    && (it.Stuck? <==> !it.Idle? && tick.fault == FinishCommitFails)
    && (it.Idle? || it.Abandoned? ==> after == before)
    && (it.Completed? ==> after == before[it.id := Finished(before[it.id], tick)])
    && (it.Stuck? ==> after == before[it.id := Claimed(before[it.id], tick)])
  }

  /** One step keeps every job row and moves the APPROVED and COMPLETED counts by what it did. */
  lemma StepCounts(before: map<nat, Job>, tick: Tick, it: Iteration, after: map<nat, Job>)
    requires Step(before, tick, it, after)
    ensures after.Keys == before.Keys
    ensures CountStatus(after, APPROVED) == CountStatus(before, APPROVED) - (if it.Completed? || it.Stuck? then 1 else 0)
    ensures CountStatus(after, COMPLETED) == CountStatus(before, COMPLETED) + (if it.Completed? then 1 else 0)
  {
    if it.Completed? {
      CountsAfterMove(before, it.id, Finished(before[it.id], tick), APPROVED, COMPLETED, RUNNING);
    } else if it.Stuck? {
      CountsAfterMove(before, it.id, Claimed(before[it.id], tick), APPROVED, RUNNING, COMPLETED);
    }
  }

  /** After a failed claim the next iteration, whatever its fault, takes the same job again. */
  lemma AbandonedClaimRetried(before: map<nat, Job>, tick: Tick, id: nat, mid: map<nat, Job>,
                              tick': Tick, it': Iteration, after: map<nat, Job>)
    requires Step(before, tick, Abandoned(id), mid) && Step(mid, tick', it', after)
    ensures !it'.Idle? && it'.id == id
  {
    assert id in WithStatus(mid, APPROVED);
    OldestApprovedUnique(mid);
  }

  /**
   * After a failed finish the job stays RUNNING: no later iteration takes it
   * again, and the next one leaves its row as it is.
   */
  lemma StuckJobNotRetried(before: map<nat, Job>, tick: Tick, id: nat, mid: map<nat, Job>,
                           tick': Tick, it': Iteration, after: map<nat, Job>)
    requires Step(before, tick, Stuck(id), mid) && Step(mid, tick', it', after)
    ensures !it'.Idle? ==> it'.id != id
    ensures id in after && after[id] == mid[id] && after[id].status == RUNNING
  {
    assert mid[id].status == RUNNING;
    assert id !in WithStatus(mid, APPROVED);
  }

  /**
   * One iteration of `process_jobs`. `committed` is what the iteration
   * appended to the store's commit log: the rows of the chosen job that
   * reached the store, in order.
   */
  method ProcessOnce(s: GpuService, tick: Tick) returns (it: Iteration, ghost committed: seq<Job>)
    requires s.Valid()
    modifies s
    ensures s.Valid()
    ensures s.users == old(s.users) && s.consumed == old(s.consumed)
    ensures Step(old(s.jobs), tick, it, s.jobs)
    ensures s.commits == old(s.commits) + committed
    ensures it.Idle? || it.Abandoned? ==> committed == []
    ensures it.Completed? ==> committed == [Claimed(old(s.jobs)[it.id], tick), Finished(old(s.jobs)[it.id], tick)]
    ensures it.Stuck? ==> committed == [Claimed(old(s.jobs)[it.id], tick)]
    ensures s.jobs.Keys == old(s.jobs).Keys
    ensures CountStatus(s.jobs, APPROVED) == CountStatus(old(s.jobs), APPROVED) - (if it.Completed? || it.Stuck? then 1 else 0)
    ensures CountStatus(s.jobs, COMPLETED) == CountStatus(old(s.jobs), COMPLETED) + (if it.Completed? then 1 else 0)
  {
    ghost var before := s.jobs;
    committed := [];
    // the query for an APPROVED job; `.first()` without an ordering is taken as the smallest id
    if WithStatus(s.jobs, APPROVED) == {} {
      return Idle, committed;
    }
    OldestApprovedUnique(s.jobs);
    var id :| IsOldestApproved(s.jobs, id);
    var job := s.jobs[id];
    assert job.id == id;
    // stage 1: RUNNING, with its start time
    var running := Claimed(job, tick);
    if tick.fault == ClaimCommitFails {
      return Abandoned(id), committed;
    }
    s.SaveJob(running);
    committed := committed + [running];
    // stage 2: the simulated run
    var steps := Execute(running.estimated_duration);
    // stage 3: COMPLETED, with its end time
    var done := running.(status := COMPLETED, completed_at := Some(tick.completedAt));
    if tick.fault == FinishCommitFails {
      CountsAfterMove(before, id, running, APPROVED, RUNNING, COMPLETED);
      return Stuck(id), committed;
    }
    s.SaveJob(done);
    committed := committed + [done];
    assert s.jobs == before[id := done];
    CountsAfterMove(before, id, done, APPROVED, COMPLETED, RUNNING);
    it := Completed(id);
  }

  /** The iterations in `log` that finished their job. */
  function FinishedCount(log: seq<Iteration>): nat {
    if log == [] then 0
    else FinishedCount(log[..|log| - 1]) + (if log[|log| - 1].Completed? then 1 else 0)
  }

  /** The iterations in `log` that took a job out of APPROVED. */
  function ClaimedCount(log: seq<Iteration>): nat {
    if log == [] then 0
    else ClaimedCount(log[..|log| - 1]) + (if log[|log| - 1].Completed? || log[|log| - 1].Stuck? then 1 else 0)
  }

  /** Unfolds both counts at a log extended by one iteration. */
  lemma CountsAppend(log: seq<Iteration>, it: Iteration)
    ensures FinishedCount(log + [it]) == FinishedCount(log) + (if it.Completed? then 1 else 0)
    ensures ClaimedCount(log + [it]) == ClaimedCount(log) + (if it.Completed? || it.Stuck? then 1 else 0)
  {
    assert (log + [it])[..|log|] == log;
  }

  /**
   * `process_jobs`, cut to as many iterations as `ticks` provides. The
   * ghost `states` holds the job table before each iteration and after the
   * last. Iteration `i` is one `Step` from `states[i]` to `states[i + 1]`
   * under `ticks[i]`, whether or not an earlier iteration raised, and each
   * one finished or stuck takes exactly one job out of APPROVED.
   */
  method RunWorker(s: GpuService, ticks: seq<Tick>) returns (log: seq<Iteration>, ghost states: seq<map<nat, Job>>)
    requires s.Valid()
    modifies s
    ensures s.Valid()
    ensures |log| == |ticks| && |states| == |ticks| + 1
    ensures states[0] == old(s.jobs) && states[|ticks|] == s.jobs
    ensures forall i :: 0 <= i < |ticks| ==> Step(states[i], ticks[i], log[i], states[i + 1])
    ensures s.users == old(s.users) && s.consumed == old(s.consumed)
    ensures s.jobs.Keys == old(s.jobs).Keys
    ensures CountStatus(s.jobs, APPROVED) == CountStatus(old(s.jobs), APPROVED) - ClaimedCount(log)
    ensures CountStatus(s.jobs, COMPLETED) == CountStatus(old(s.jobs), COMPLETED) + FinishedCount(log)
  {
    log, states := [], [s.jobs];
    var i := 0;
    while i < |ticks|
      invariant 0 <= i <= |ticks| && |log| == i && |states| == i + 1
      invariant states[0] == old(s.jobs) && states[i] == s.jobs
      invariant forall k :: 0 <= k < i ==> Step(states[k], ticks[k], log[k], states[k + 1])
      invariant s.Valid()
      invariant s.users == old(s.users) && s.consumed == old(s.consumed)
      invariant s.jobs.Keys == old(s.jobs).Keys
      invariant CountStatus(s.jobs, APPROVED) == CountStatus(old(s.jobs), APPROVED) - ClaimedCount(log)
      invariant CountStatus(s.jobs, COMPLETED) == CountStatus(old(s.jobs), COMPLETED) + FinishedCount(log)
    {
      var it, _ := ProcessOnce(s, ticks[i]);
      CountsAppend(log, it);
      log, states := log + [it], states + [s.jobs];
      i := i + 1;
    }
  }
}
