/** Rows of the scan_jobs table, the conditional UPDATE statements that change them, and the
    store object whose methods issue those statements. */
module JobRows {
  import opened Options

  const MAX_JOB_ATTEMPTS := 5

  type JobId = nat
  type Token = nat

  /** The run id of an attempt is a name-based hash of the job and the lease token. It is taken as
      injective, which a constructor is. */
  datatype RunId = AttemptRun(job: JobId, token: Token)

  datatype Status = Pending | Running | Failed | Completed | Cancelled | Dead

  datatype JobRow = JobRow(
    status: Status,
    attempts: nat,
    lease: Option<Token>,
    cancelRequested: bool,
    error: Option<string>,
    runId: Option<RunId>,
    createdAt: int,
    updatedAt: int)

  type Jobs = map<JobId, JobRow>

  /** Fields of a leased update; an absent field keeps its value. */
  datatype Patch = Patch(status: Option<Status>, error: Option<string>)

  const TOUCH := Patch(None, None)

  function Failure(error: string): Patch {
    Patch(Some(Failed), Some(error))
  }

  predicate Claimable(row: JobRow) {
    row.status == Pending && !row.cancelRequested && row.attempts < MAX_JOB_ATTEMPTS
  }

  /** The fence every leased write goes through. */
  predicate Owns(row: JobRow, token: Token) {
    row.status == Running && !row.cancelRequested && row.lease == Some(token)
  }

  predicate Holds(jobs: Jobs, job: JobId, token: Token) {
    job in jobs && Owns(jobs[job], token)
  }

  predicate Stale(row: JobRow, cutoff: int) {
    row.status == Running && row.updatedAt < cutoff
  }

  predicate Final(status: Status) {
    status in {Completed, Cancelled, Dead}
  }

  function NewRow(now: int): JobRow {
    JobRow(Pending, 0, None, false, None, None, now, now)
  }

  /** An upsert: the conflict branch leaves the lease and the cancellation flag alone. */
  function CreateJob(jobs: Jobs, job: JobId, now: int): Jobs {
    if job in jobs then
      jobs[job := NewRow(now).(lease := jobs[job].lease, cancelRequested := jobs[job].cancelRequested)]
    else
      jobs[job := NewRow(now)]
  }

  /** The unleased status write, whose guard protects cancelled rows only. */
  function UpdateJob(jobs: Jobs, job: JobId, status: Status, error: Option<string>, now: int): Jobs {
    if job in jobs && (jobs[job].status != Cancelled || status == Cancelled) then
      jobs[job := jobs[job].(status := status, error := error, updatedAt := now)]
    else jobs
  }

  function RetryJob(jobs: Jobs, job: JobId, now: int): Jobs {
    if job in jobs && jobs[job].status in {Failed, Pending} && !jobs[job].cancelRequested
       && jobs[job].attempts < MAX_JOB_ATTEMPTS then
      jobs[job := jobs[job].(status := Pending, lease := None, error := None, updatedAt := now)]
    else jobs
  }

  /** The second half of a claim. Its guard does not look at the attempt count again. */
  function ClaimJob(jobs: Jobs, job: JobId, token: Token, now: int): Jobs {
    if job in jobs && jobs[job].status == Pending && !jobs[job].cancelRequested then
      jobs[job := jobs[job].(status := Running, lease := Some(token), attempts := jobs[job].attempts + 1,
                             updatedAt := now, error := None)]
    else jobs
  }

  function LeaseUpdate(jobs: Jobs, job: JobId, token: Token, patch: Patch, now: int): Jobs {
    if Holds(jobs, job, token) then
      var row := jobs[job];
      jobs[job := row.(status := if patch.status.Some? then patch.status.value else row.status,
                       error := if patch.error.Some? then patch.error else row.error,
                       updatedAt := now)]
    else jobs
  }

  function LinkRun(jobs: Jobs, job: JobId, run: RunId): Jobs {
    if job in jobs then jobs[job := jobs[job].(runId := Some(run))] else jobs
  }

  /** What the publication transaction makes of the row it fenced. */
  function CompleteJob(jobs: Jobs, run: RunId, now: int): Jobs
    requires run.job in jobs
  {
    jobs[run.job := jobs[run.job].(status := Completed, updatedAt := now, runId := Some(run))]
  }

  function CancelJob(jobs: Jobs, job: JobId, now: int): Jobs {
    if job in jobs && jobs[job].status in {Pending, Running} then
      jobs[job := jobs[job].(status := Cancelled, cancelRequested := true, error := None, updatedAt := now)]
    else jobs
  }

  /** One guarded update of the reaper, acting on the attempt count its SELECT returned. */
  function ReapJob(jobs: Jobs, job: JobId, seenAttempts: nat, cutoff: int, now: int): Jobs {
    if job in jobs && Stale(jobs[job], cutoff) then
      jobs[job := jobs[job].(status := if seenAttempts >= MAX_JOB_ATTEMPTS then Dead else Pending,
                             lease := None, updatedAt := now)]
    else jobs
  }

  function JobsOfRun(jobs: Jobs, run: RunId): set<JobId> {
    set j | j in jobs && jobs[j].runId == Some(run)
  }

  /** Queue order: creation time, then job id. */
  predicate NoLater(jobs: Jobs, a: JobId, b: JobId)
    requires a in jobs && b in jobs
  {
    jobs[a].createdAt < jobs[b].createdAt || (jobs[a].createdAt == jobs[b].createdAt && a <= b)
  }

  function Candidates(jobs: Jobs, only: Option<JobId>): set<JobId> {
    set j | j in jobs && Claimable(jobs[j]) && (only.Some? ==> j == only.value)
  }

  /** The rows the reaper's SELECT returns. */
  function StaleJobs(jobs: Jobs, cutoff: int): set<JobId> {
    set j | j in jobs && Stale(jobs[j], cutoff) && !jobs[j].cancelRequested
  }

  /** The stale rows with attempts to spare. */
  function Revivable(jobs: Jobs, cutoff: int): set<JobId> {
    set j | j in StaleJobs(jobs, cutoff) && jobs[j].attempts < MAX_JOB_ATTEMPTS
  }

  /** What one reaper pass makes of a stale row. */
  function Reaped(row: JobRow, now: int): JobRow {
    row.(status := if row.attempts >= MAX_JOB_ATTEMPTS then Dead else Pending, lease := None, updatedAt := now)
  }

  /** The table after the reaper has dealt with the rows in `done`. */
  function Swept(jobs: Jobs, done: set<JobId>, now: int): Jobs {
    map j | j in jobs :: if j in done then Reaped(jobs[j], now) else jobs[j]
  }

  lemma SweepOne(jobs: Jobs, done: set<JobId>, j: JobId, cutoff: int, now: int)
    requires j in StaleJobs(jobs, cutoff) - done
    ensures ReapJob(Swept(jobs, done, now), j, jobs[j].attempts, cutoff, now) == Swept(jobs, done + {j}, now)
    ensures |(done + {j}) * Revivable(jobs, cutoff)| ==
            |done * Revivable(jobs, cutoff)| + if jobs[j].attempts < MAX_JOB_ATTEMPTS then 1 else 0
  {
    var revivable := Revivable(jobs, cutoff);
    if jobs[j].attempts < MAX_JOB_ATTEMPTS {
      assert (done + {j}) * revivable == done * revivable + {j};
    } else {
      assert (done + {j}) * revivable == done * revivable;
    }
  }

  lemma SweepNone(jobs: Jobs, cutoff: int, now: int)
    ensures jobs == Swept(jobs, {}, now)
    ensures {} * Revivable(jobs, cutoff) == {}
  {
  }

  lemma SweepAll(jobs: Jobs, done: set<JobId>, cutoff: int)
    requires done <= StaleJobs(jobs, cutoff) && StaleJobs(jobs, cutoff) - done == {}
    ensures done == StaleJobs(jobs, cutoff) && done * Revivable(jobs, cutoff) == Revivable(jobs, cutoff)
  {
    forall j | j in StaleJobs(jobs, cutoff) ensures j in done {
      assert j in done || j in StaleJobs(jobs, cutoff) - done;
    }
  }

  class JobStore {
    var jobs: Jobs
    var runs: set<RunId>

    constructor ()
      ensures jobs == map[] && runs == {}
    {
      jobs, runs := map[], {};
    }

    /** Nothing but the one row changes, and rows neither come nor go. */
    twostate predicate OnlyRow(job: JobId)
      reads this
    {
      jobs.Keys == old(jobs).Keys && forall j :: j in jobs && j != job ==> jobs[j] == old(jobs)[j]
    }

    method Retry(job: JobId, now: int) returns (done: bool)
      modifies this`jobs
      ensures jobs == RetryJob(old(jobs), job, now)
      ensures done <==> job in old(jobs) && old(jobs)[job].status in {Failed, Pending}
                        && !old(jobs)[job].cancelRequested && old(jobs)[job].attempts < MAX_JOB_ATTEMPTS
      ensures OnlyRow(job) && (!done ==> jobs == old(jobs))
      ensures done ==> jobs[job] == old(jobs)[job].(status := Pending, lease := None, error := None, updatedAt := now)
      ensures done ==> Claimable(jobs[job])
    {
      done := job in jobs && jobs[job].status in {Failed, Pending} && !jobs[job].cancelRequested
              && jobs[job].attempts < MAX_JOB_ATTEMPTS;
      if done {
        jobs := jobs[job := jobs[job].(status := Pending, lease := None, error := None, updatedAt := now)];
      }
    }

    /** The oldest claimable row, as ORDER BY created_at, job_id LIMIT 1 returns it. */
    method SelectOldest(only: Option<JobId>) returns (found: Option<JobId>)
      ensures found.None? <==> Candidates(jobs, only) == {}
      ensures found.Some? ==> found.value in Candidates(jobs, only)
      ensures found.Some? ==> forall j :: j in Candidates(jobs, only) ==> NoLater(jobs, found.value, j)
    {
      var rest := Candidates(jobs, only);
      found := None;
      while rest != {}
        invariant rest <= Candidates(jobs, only)
        invariant found.Some? ==> found.value in Candidates(jobs, only)
        invariant found.None? ==> rest == Candidates(jobs, only)
        invariant found.Some? ==>
                    forall j :: j in Candidates(jobs, only) - rest ==> NoLater(jobs, found.value, j)
        decreases |rest|
      {
        var j :| j in rest;
        ghost var before, previous := rest, found;
        if found.None? || NoLater(jobs, j, found.value) {
          found := Some(j);
        }
        rest := rest - {j};
        forall k | k in Candidates(jobs, only) - rest
          ensures NoLater(jobs, found.value, k)
        {
          assert k == j || (k !in before && previous.Some? && NoLater(jobs, previous.value, k));
        }
      }
    }

    /** Claims at most one job, the oldest claimable one, and spends one of its attempts. */
    method Claim(only: Option<JobId>, token: Token, now: int) returns (claimed: Option<JobId>)
      modifies this`jobs
      ensures claimed.None? <==> Candidates(old(jobs), only) == {}
      ensures claimed.None? ==> jobs == old(jobs)
      ensures claimed.Some? ==> claimed.value in Candidates(old(jobs), only)
      ensures claimed.Some? ==> forall j :: j in Candidates(old(jobs), only) ==> NoLater(old(jobs), claimed.value, j)
      ensures claimed.Some? ==> jobs == ClaimJob(old(jobs), claimed.value, token, now)
      ensures claimed.Some? ==>
                OnlyRow(claimed.value) && Holds(jobs, claimed.value, token) && jobs[claimed.value].updatedAt == now
                && jobs[claimed.value].attempts == old(jobs)[claimed.value].attempts + 1
                && jobs[claimed.value].runId == old(jobs)[claimed.value].runId
    {
      claimed := SelectOldest(only);
      if claimed.Some? {
        var row := jobs[claimed.value];
        jobs := jobs[claimed.value := row.(status := Running, lease := Some(token), attempts := row.attempts + 1,
                                           updatedAt := now, error := None)];
      }
    }

    /** The lease holder's write sets what it patches and renews the row's age; nobody else's write does
        anything. */
    method Update(job: JobId, token: Token, patch: Patch, now: int) returns (done: bool)
      modifies this`jobs
      ensures done <==> Holds(old(jobs), job, token)
      ensures OnlyRow(job)
      ensures done ==>
                var before, after := old(jobs)[job], jobs[job];
                && after.updatedAt == now
                && (patch.status.Some? ==> after.status == patch.status.value)
                && (patch.error.Some? ==> after.error == patch.error)
                && after == before.(updatedAt := after.updatedAt,
                                    status := if patch.status.Some? then after.status else before.status,
                                    error := if patch.error.Some? then after.error else before.error)
      ensures jobs == LeaseUpdate(old(jobs), job, token, patch, now)
      ensures !done ==> jobs == old(jobs)
    {
      done := job in jobs && jobs[job].status == Running && !jobs[job].cancelRequested
              && jobs[job].lease == Some(token);
      if done {
        var row := jobs[job];
        var status := if patch.status.Some? then patch.status.value else row.status;
        var error := if patch.error.Some? then patch.error else row.error;
        jobs := jobs[job := row.(status := status, error := error, updatedAt := now)];
      }
    }

    /** The publication transaction: fence, insert the run, link it, complete the job. A lost lease
        rolls everything back. */
    method Publish(job: JobId, token: Token, now: int) returns (published: bool)
      modifies this
      ensures published <==> Holds(old(jobs), job, token)
      ensures !published ==> jobs == old(jobs) && runs == old(runs)
      ensures published ==> runs == old(runs) + {AttemptRun(job, token)}
      ensures OnlyRow(job)
      ensures published ==>
                jobs[job] == old(jobs)[job].(status := Completed, runId := Some(AttemptRun(job, token)),
                                             updatedAt := now)
      ensures published ==> jobs == CompleteJob(old(jobs), AttemptRun(job, token), now)
    {
      published := Update(job, token, TOUCH, now);
      if published {
        runs := runs + {AttemptRun(job, token)};
        jobs := LinkRun(jobs, job, AttemptRun(job, token));
        var completed := Update(job, token, Patch(Some(Completed), None), now);
        assert completed;
      }
    }

    /** A queued or running job is cancelled, and with that every lease on it is void. */
    method Cancel(job: JobId, now: int)
      modifies this`jobs
      ensures OnlyRow(job)
      ensures job in old(jobs) && old(jobs)[job].status in {Pending, Running} ==>
                && jobs[job] == old(jobs)[job].(status := Cancelled, cancelRequested := true, error := None,
                                                updatedAt := now)
                && forall token :: !Holds(jobs, job, token)
      ensures job !in old(jobs) || old(jobs)[job].status !in {Pending, Running} ==> jobs == old(jobs)
      ensures jobs == CancelJob(old(jobs), job, now)
      ensures job in old(jobs) && Final(old(jobs)[job].status) ==> jobs == old(jobs)
    {
      if job in jobs && jobs[job].status in {Pending, Running} {
        jobs := jobs[job := jobs[job].(status := Cancelled, cancelRequested := true, error := None, updatedAt := now)];
      }
    }

    /** The reaper run on its own: every stale row is requeued, or buried once its attempts are
        spent, no other row changes, and the answer counts the requeued rows. */
    method RequeueStale(cutoff: int, now: int) returns (requeued: nat)
      modifies this`jobs
      ensures jobs.Keys == old(jobs).Keys
      ensures forall j :: j in jobs ==>
                var before := old(jobs)[j];
                if before.status == Running && !before.cancelRequested && before.updatedAt < cutoff then
                  jobs[j] == before.(status := if before.attempts < 5 then Pending else Dead, lease := None,
                                     updatedAt := now)
                else jobs[j] == before
      ensures jobs == Swept(old(jobs), StaleJobs(old(jobs), cutoff), now)
      ensures requeued == |Revivable(old(jobs), cutoff)|
    {
      var seen := jobs;
      var rest := StaleJobs(seen, cutoff);
      ghost var done := {};
      requeued := 0;
      SweepNone(seen, cutoff, now);
      while rest != {}
        invariant rest == StaleJobs(seen, cutoff) - done && done <= StaleJobs(seen, cutoff)
        invariant jobs == Swept(seen, done, now)
        invariant requeued == |done * Revivable(seen, cutoff)|
        decreases |rest|
      {
        var j :| j in rest;
        SweepOne(seen, done, j, cutoff, now);
        jobs := ReapJob(jobs, j, seen[j].attempts, cutoff, now);
        if seen[j].attempts < MAX_JOB_ATTEMPTS {
          requeued := requeued + 1;
        }
        rest, done := rest - {j}, done + {j};
      }
      SweepAll(seen, done, cutoff);
    }

    /** Deleting a run deletes exactly the job rows linked to it, so no row is left pointing at a run that
        is gone. */
    method DeleteRun(run: RunId) returns (removed: bool)
      modifies this
      ensures removed <==> run in old(runs)
      ensures forall r :: r in runs <==> r in old(runs) && r != run
      ensures forall j :: j in jobs <==> j in old(jobs) && old(jobs)[j].runId != Some(run)
      ensures forall j :: j in jobs ==> jobs[j] == old(jobs)[j]
      ensures old(NoDanglingLinks()) ==> NoDanglingLinks()
      ensures jobs == old(jobs) - JobsOfRun(old(jobs), run)
    {
      jobs := map j | j in jobs && jobs[j].runId != Some(run) :: jobs[j];
      removed := run in runs;
      runs := runs - {run};
    }

    ghost predicate NoDanglingLinks()
      reads this
    {
      forall j :: j in jobs && jobs[j].runId.Some? ==> jobs[j].runId.value in runs
    }
  }
}
