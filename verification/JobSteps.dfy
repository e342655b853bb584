/** What one event can do to the tables. Every invariant about rows rests on this description alone. */
module JobSteps {
  import opened Options
  import opened JobRows
  import opened JobProtocol

  ghost predicate Known(s: State) {
    s.jobs.Keys <= s.queued
  }

  /** The columns only claims, publications and cancellations change. */
  ghost predicate SameWork(a: JobRow, b: JobRow) {
    a.attempts == b.attempts && a.runId == b.runId && a.cancelRequested == b.cancelRequested
  }

  predicate WasNoted(s: State, e: Event, j: JobId, before: JobRow, after: JobRow) {
    e.Note? && e.job == j && j in s.queued && j !in s.noted && before.status != Cancelled && after.status == Pending
  }

  predicate WasClaimed(s: State, e: Event, j: JobId, before: JobRow, after: JobRow) {
    e.Claim? && before.status == Pending && !before.cancelRequested && Selected(s, j)
    && after == before.(status := Running, attempts := before.attempts + 1, lease := Some(e.token),
                        updatedAt := e.stamp, error := None)
  }

  /** The event is a publication that passes the fence. */
  predicate Publishes(cfg: Config, s: State, e: Event) {
    e.ChildPublish? && ChildIs(s, e.token, Working) && Timely(cfg, s, e.stamp) && Leased(s, e.token)
  }

  predicate WasPublished(cfg: Config, s: State, e: Event, j: JobId, before: JobRow, after: JobRow) {
    Publishes(cfg, s, e) && RunOf(s, e.token).job == j
    && before.status == Running && after.status == Completed
    && after.attempts == before.attempts && after.cancelRequested == before.cancelRequested
    && after.runId == Some(RunOf(s, e.token))
  }

  predicate WasReaped(s: State, e: Event, j: JobId, before: JobRow, after: JobRow) {
    e.Reap? && e.reading in s.readings && e.reading.job == j && Stale(before, e.reading.cutoff)
    && after.status == if e.reading.attempts >= MAX_JOB_ATTEMPTS then Dead else Pending
  }

  predicate WasRetried(before: JobRow, after: JobRow) {
    before.status in {Failed, Pending} && !before.cancelRequested && before.attempts < MAX_JOB_ATTEMPTS
    && after.status == Pending
  }

  predicate WasCancelled(before: JobRow, after: JobRow) {
    before.status in {Pending, Running} && after.status == Cancelled && after.cancelRequested
    && after.attempts == before.attempts && after.runId == before.runId
  }

  predicate WasWritten(before: JobRow, after: JobRow) {
    before.status == Running && after.status in {Running, Failed}
  }

  /** The ways one event changes one row. */
  ghost predicate RowStep(cfg: Config, s: State, e: Event, j: JobId, before: JobRow, after: JobRow) {
    || after == before
    || WasCancelled(before, after)
    || WasPublished(cfg, s, e, j, before, after)
    || (WasClaimed(s, e, j, before, after) && Timely(cfg, s, after.updatedAt))
    || (SameWork(before, after)
        && (|| WasNoted(s, e, j, before, after)
            || WasRetried(before, after)
            || WasReaped(s, e, j, before, after)
            || (WasWritten(before, after) && Timely(cfg, s, after.updatedAt))))
  }

  ghost predicate RowsStep(cfg: Config, s: State, e: Event, s': State) {
    && Known(s') && s.queued <= s'.queued
    && (forall j :: j in s.jobs && j in s'.jobs ==> RowStep(cfg, s, e, j, s.jobs[j], s'.jobs[j]))
    && (forall j :: j in s'.jobs && j !in s.jobs ==> j !in s.queued && s'.jobs[j] == NewRow(s'.jobs[j].createdAt))
    && (forall j :: j in s.jobs && j !in s'.jobs ==>
          e.DeleteRun? && s.jobs[j].runId == Some(e.copy.run) && e.copy in s.held)
  }

  /** A publication that passes the fence appends its run and completes its row; no other event
      publishes. */
  ghost predicate PublishedStep(cfg: Config, s: State, e: Event, s': State) {
    if Publishes(cfg, s, e) then
      var run := RunOf(s, e.token);
      && s'.published == s.published + [run] && run in s'.runs
      && run.job in s'.jobs && s'.jobs[run.job].status == Completed && s'.jobs[run.job].runId == Some(run)
    else s'.published == s.published
  }

  /** Runs are removed only by a request that removes the rows linked to them, too. */
  ghost predicate RunsStep(s: State, e: Event, s': State) {
    && (forall r :: r in s.runs && r !in s'.runs ==> e.DeleteRun? && e.copy.run == r && e.copy in s.held)
    && (e.DeleteRun? && e.copy in s.held ==> forall j :: j in s'.jobs ==> s'.jobs[j].runId != Some(e.copy.run))
  }

  ghost predicate ReadsStep(cfg: Config, s: State, e: Event, s': State) {
    && s.now <= s'.now
    && (forall x :: x in s'.selections && x !in s.selections ==>
          x.at == s.now && x.job in s.jobs && Claimable(s.jobs[x.job]) && s'.jobs == s.jobs)
    && (forall r :: r in s'.readings && r !in s.readings ==>
          && r.cutoff <= s.now - cfg.maxAge && s'.jobs == s.jobs
          && r.job in s.jobs && r.attempts == s.jobs[r.job].attempts)
  }

  ghost predicate Step(cfg: Config, s: State, e: Event, s': State) {
    RowsStep(cfg, s, e, s') && PublishedStep(cfg, s, e, s') && RunsStep(s, e, s') && ReadsStep(cfg, s, e, s')
  }

  ghost predicate SameTables(s: State, s': State) {
    && s'.jobs == s.jobs && s'.runs == s.runs && s'.queued == s.queued && s'.published == s.published && s'.now == s.now
    && s'.selections <= s.selections && s'.readings <= s.readings
  }

  lemma SameTablesStep(cfg: Config, s: State, e: Event, s': State)
    requires Known(s) && SameTables(s, s') && !e.DeleteRun? && !Publishes(cfg, s, e)
    ensures Step(cfg, s, e, s')
  {
  }

  /** One row replaced, and nothing else in the tables. */
  lemma RowReplaced(cfg: Config, s: State, e: Event, j: JobId, row: JobRow, s': State)
    requires Known(s) && j in s.jobs && RowStep(cfg, s, e, j, s.jobs[j], row)
    requires SameTables(s.(jobs := s.jobs[j := row]), s') && !e.DeleteRun? && !Publishes(cfg, s, e)
    ensures Step(cfg, s, e, s')
  {
  }

  /** A leased write that changes nothing but the row, next to any change of processes and files. */
  lemma WriteSteps(cfg: Config, s: State, e: Event, t: Token, patch: Patch, stamp: int, s': State)
    requires Known(s) && t in s.attempts && Timely(cfg, s, stamp)
    requires patch.status in {None, Some(Running), Some(Failed)}
    requires SameTables(Write(s, t, patch, stamp), s') && !e.DeleteRun? && !Publishes(cfg, s, e)
    ensures Step(cfg, s, e, s')
  {
    var j := s.attempts[t].job;
    if Holds(s.jobs, j, t) {
      RowReplaced(cfg, s, e, j, s'.jobs[j], s');
    } else {
      SameTablesStep(cfg, s, e, s');
    }
  }

  lemma ChildWriteSteps(cfg: Config, s: State, e: Event)
    requires Known(s) && (e.Progress? || e.ChildStart? || e.ChildFail?)
    ensures Step(cfg, s, e, Apply(cfg, s, e))
  {
    var s' := Apply(cfg, s, e);
    if s'.jobs == s.jobs {
      SameTablesStep(cfg, s, e, s');
    } else {
      var patch := if e.Progress? then TOUCH
                   else if e.ChildStart? then Patch(Some(Running), None) else Failure(e.error);
      WriteSteps(cfg, s, e, e.token, patch, e.stamp, s');
    }
  }

  lemma ChildFileSteps(cfg: Config, s: State, e: Event)
    requires Known(s)
    requires e.ChildMakeUploads? || e.ChildReject? || e.ChildCrash? || e.ChildReadStatus? || e.ChildUnstage?
    ensures Step(cfg, s, e, Apply(cfg, s, e))
  {
    SameTablesStep(cfg, s, e, Apply(cfg, s, e));
  }

  lemma PublishSteps(cfg: Config, s: State, t: Token, stamp: int)
    requires Known(s)
    ensures Step(cfg, s, ChildPublish(t, stamp), DoChildPublish(cfg, s, t, stamp))
  {
    var e, s' := ChildPublish(t, stamp), DoChildPublish(cfg, s, t, stamp);
    if !Publishes(cfg, s, e) {
      SameTablesStep(cfg, s, e, s');
    } else {
      var j := s.attempts[t].job;
      assert WasPublished(cfg, s, e, j, s.jobs[j], s'.jobs[j]);
    }
  }

  lemma SupervisorSteps(cfg: Config, s: State, e: Event)
    requires Known(s) && BySupervisor(e)
    ensures Step(cfg, s, e, Apply(cfg, s, e))
  {
    var s' := Apply(cfg, s, e);
    if e.SpawnFailed? && s' != s {
      WriteSteps(cfg, s, e, e.token, Failure("WORKER_START_FAILED"), e.stamp, s');
    } else if e.Beat? && s'.jobs != s.jobs {
      WriteSteps(cfg, s, e, e.token, TOUCH, e.stamp, s');
    } else if e.SupervisorFail? && s' != s {
      WriteSteps(cfg, s, e, e.token, Failure(e.error), e.stamp, s');
    } else {
      SameTablesStep(cfg, s, e, s');
    }
  }

  lemma EnqueueSteps(cfg: Config, s: State, e: Event)
    requires Known(s) && (e.Create? || e.Note?)
    ensures Step(cfg, s, e, Apply(cfg, s, e))
  {
    var s' := Apply(cfg, s, e);
    if e.Note? && s'.jobs != s.jobs {
      RowReplaced(cfg, s, e, e.job, s'.jobs[e.job], s');
    } else if e.Note? {
      SameTablesStep(cfg, s, e, s');
    }
  }

  lemma ClaimSteps(cfg: Config, s: State, x: Selection, t: Token, stamp: int)
    requires Known(s)
    ensures Step(cfg, s, Claim(x, t, stamp), DoClaim(cfg, s, x, t, stamp))
  {
    var e, s' := Claim(x, t, stamp), DoClaim(cfg, s, x, t, stamp);
    if s'.jobs == s.jobs {
      SameTablesStep(cfg, s, e, s');
    } else {
      assert Selected(s, x.job);
      RowReplaced(cfg, s, e, x.job, s'.jobs[x.job], s');
    }
  }

  lemma ReapSteps(cfg: Config, s: State, r: Reading, stamp: int)
    requires Known(s)
    ensures Step(cfg, s, Reap(r, stamp), DoReap(cfg, s, r, stamp))
  {
    var e, s' := Reap(r, stamp), DoReap(cfg, s, r, stamp);
    if s'.jobs == s.jobs {
      SameTablesStep(cfg, s, e, s');
    } else {
      RowReplaced(cfg, s, e, r.job, s'.jobs[r.job], s');
    }
  }

  lemma RetrySteps(cfg: Config, s: State, job: JobId, stamp: int)
    requires Known(s)
    ensures Step(cfg, s, Retry(job, stamp), s.(jobs := RetryJob(s.jobs, job, stamp)))
    ensures Step(cfg, s, Cancel(job, stamp), s.(jobs := CancelJob(s.jobs, job, stamp)))
    ensures Step(cfg, s, Retry(job, stamp), s) && Step(cfg, s, Cancel(job, stamp), s)
  {
    var s1, s2 := s.(jobs := RetryJob(s.jobs, job, stamp)), s.(jobs := CancelJob(s.jobs, job, stamp));
    SameTablesStep(cfg, s, Retry(job, stamp), s);
    SameTablesStep(cfg, s, Cancel(job, stamp), s);
    if s1.jobs != s.jobs {
      RowReplaced(cfg, s, Retry(job, stamp), job, s1.jobs[job], s1);
    } else {
      assert s1 == s;
    }
    if s2.jobs != s.jobs {
      RowReplaced(cfg, s, Cancel(job, stamp), job, s2.jobs[job], s2);
    } else {
      assert s2 == s;
    }
  }

  lemma ReadSteps(cfg: Config, s: State, e: Event)
    requires Known(s) && (e.Tick? || e.Select? || e.ReadStale?)
    ensures Step(cfg, s, e, Apply(cfg, s, e))
  {
  }

  lemma RunFileSteps(cfg: Config, s: State, e: Event)
    requires Known(s) && (e.LoadRun? || e.Resave? || e.RemoveDeletedUploads?)
    ensures Step(cfg, s, e, Apply(cfg, s, e))
  {
    var s' := Apply(cfg, s, e);
    SameTablesStep(cfg, s, e, s'.(runs := s.runs));
  }

  lemma DeleteSteps(cfg: Config, s: State, c: Copy)
    requires Known(s)
    ensures Step(cfg, s, DeleteRun(c), DoDeleteRun(s, c))
  {
    var s' := DoDeleteRun(s, c);
    assert c in s.held ==> s'.jobs == s.jobs - JobsOfRun(s.jobs, c.run);
  }

  // ---------------------------------------------------------------- what a step does to a row

  /** The event is no second enqueue write that takes effect, or it lands on a safe row. */
  predicate SafeStep(s: State, e: Event, s': State, safe: (State, JobId) -> bool) {
    e.Note? && s' != s ==> safe(s, e.job)
  }

  lemma CancelledRowStays(cfg: Config, s: State, e: Event, j: JobId, before: JobRow, after: JobRow)
    requires RowStep(cfg, s, e, j, before, after) && before.status == Cancelled
    ensures after == before
  {
  }

  lemma SettledRowStays(cfg: Config, s: State, e: Event, j: JobId, before: JobRow, after: JobRow)
    requires RowStep(cfg, s, e, j, before, after) && before.status in {Completed, Dead}
    requires !WasNoted(s, e, j, before, after)
    ensures after == before
  {
  }

  /** A row completes and gets its run only by publication. */
  lemma OnlyPublicationCompletes(cfg: Config, s: State, e: Event, j: JobId, before: JobRow, after: JobRow)
    requires RowStep(cfg, s, e, j, before, after) && after != before
    requires after.status == Completed || after.runId != before.runId
    ensures WasPublished(cfg, s, e, j, before, after)
  {
  }

  lemma CancellationStep(cfg: Config, s: State, e: Event, j: JobId, before: JobRow, after: JobRow)
    requires RowStep(cfg, s, e, j, before, after)
    requires before.cancelRequested ==> before.status == Cancelled
    ensures after.cancelRequested ==> after.status == Cancelled
  {
  }

  /** Each of the kinds of event is a step of this form. */
  lemma EventSteps(cfg: Config, s: State, e: Event)
    requires Known(s)
    ensures Step(cfg, s, e, Apply(cfg, s, e))
  {
    if e.ChildPublish? {
      PublishSteps(cfg, s, e.token, e.stamp);
    } else if e.Progress? || e.ChildStart? || e.ChildFail? {
      ChildWriteSteps(cfg, s, e);
    } else if ByChild(e) {
      ChildFileSteps(cfg, s, e);
    } else if BySupervisor(e) {
      SupervisorSteps(cfg, s, e);
    } else if e.Create? || e.Note? {
      EnqueueSteps(cfg, s, e);
    } else if e.Claim? {
      ClaimSteps(cfg, s, e.selection, e.token, e.stamp);
    } else if e.Reap? {
      ReapSteps(cfg, s, e.reading, e.stamp);
    } else if e.Retry? || e.Cancel? {
      RetrySteps(cfg, s, e.job, e.stamp);
    } else if e.DeleteRun? {
      DeleteSteps(cfg, s, e.copy);
    } else if e.LoadRun? || e.Resave? || e.RemoveDeletedUploads? {
      RunFileSteps(cfg, s, e);
    } else {
      ReadSteps(cfg, s, e);
    }
  }
}
