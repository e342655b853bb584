/** What the processes around a job achieve: a live attempt is left alone, a silent one is replaced,
    cancelling ends an attempt, and a finished supervisor leaves no leftovers. */
module JobLiveness {
  import opened Options
  import opened JobRows
  import opened JobProtocol
  import opened JobSteps
  import opened JobRuns
  import opened JobPublication
  import opened JobFiles

  // ---------------------------------------------------------------- a live attempt

  /** A write under the attempt's lease that changes nothing but the row's age: a beat or progress. */
  predicate Renews(cfg: Config, s: State, e: Event, t: Token) {
    t in s.attempts && Leased(s, t)
    && (|| (e.Progress? && e.token == t && Timely(cfg, s, e.stamp))
        || (e.Beat? && e.token == t && Timely(cfg, s, e.stamp) && SupervisorIs(s, t, Watching)))
  }

  /** As long as the attempt holds its lease, its renewals land often enough: with the delay between a
      clock reading and its write, the row never reaches the stale age. `last` is when one landed. */
  ghost predicate Beats(cfg: Config, s: State, events: seq<Event>, t: Token, last: int)
    decreases |events|
  {
    events != [] ==>
      var s' := Apply(cfg, s, events[0]);
      var last' := if Renews(cfg, s, events[0], t) then s.now else last;
      && (t in s'.attempts && Leased(s', t) ==> s'.now - last' <= cfg.maxAge - cfg.lag)
      && Beats(cfg, s', events[1..], t, last')
  }

  /** While the attempt holds its lease, no reaper's write changes its row. */
  ghost predicate LeftAlone(cfg: Config, s: State, events: seq<Event>, t: Token)
    decreases |events|
  {
    events != [] ==>
      && (events[0].Reap? && t in s.attempts && Leased(s, t) && events[0].reading.job == s.attempts[t].job ==>
            Apply(cfg, s, events[0]).jobs == s.jobs)
      && LeftAlone(cfg, Apply(cfg, s, events[0]), events[1..], t)
  }

  ghost predicate ReadingsPast(cfg: Config, s: State) {
    Known(s) && forall r :: r in s.readings ==> r.cutoff <= s.now - cfg.maxAge
  }

  /** Readings are from the past, and the holder's row was renewed since `last`, up to the delay. */
  ghost predicate Alive(cfg: Config, s: State, t: Token, last: int) {
    && ReadingsPast(cfg, s) && t in s.attempts && last <= s.now
    && (Leased(s, t) ==>
          s.jobs[s.attempts[t].job].updatedAt >= last - cfg.lag && s.now - last <= cfg.maxAge - cfg.lag)
  }

  lemma RenewalRenews(cfg: Config, s: State, e: Event, t: Token)
    requires Renews(cfg, s, e, t)
    ensures var s' := Apply(cfg, s, e);
            && t in s'.attempts && s'.attempts[t].job == s.attempts[t].job && s.attempts[t].job in s'.jobs
            && s'.jobs[s.attempts[t].job].updatedAt >= s.now - cfg.lag
  {
  }

  /** Whatever happens to a row that stays under the lease, its age is not put back beyond the delay. */
  lemma AgeStays(cfg: Config, s: State, e: Event, s': State, t: Token, last: int)
    requires Alive(cfg, s, t, last) && Step(cfg, s, e, s') && SameAttempt(s, s', t)
    ensures t in s'.attempts && (Leased(s', t) ==> s'.jobs[s'.attempts[t].job].updatedAt >= last - cfg.lag)
  {
    var j := s.attempts[t].job;
    if Leased(s', t) {
      assert Leased(s, t) && RowStep(cfg, s, e, j, s.jobs[j], s'.jobs[j]);
    }
  }

  /** The attempt stays on its job, and does not get back a lease it does not hold. */
  ghost predicate SameAttempt(s: State, s': State, t: Token)
    requires t in s.attempts
  {
    t in s'.attempts && s'.attempts[t].job == s.attempts[t].job && (Leased(s', t) ==> Leased(s, t))
  }

  lemma StepKeepsJob(cfg: Config, s: State, e: Event, t: Token)
    requires t in s.attempts
    ensures SameAttempt(s, Apply(cfg, s, e), t)
  {
    if !Leased(s, t) {
      StepKeepsDead(cfg, s, e, t);
    } else {
      EventStaging(cfg, s, e);
      AttemptsStay(cfg, s, e, t);
    }
  }

  lemma AttemptsStay(cfg: Config, s: State, e: Event, t: Token)
    requires t in s.attempts
    ensures t in Apply(cfg, s, e).attempts
  {
  }

  lemma StepAlive(cfg: Config, s: State, e: Event, t: Token, last: int)
    requires Alive(cfg, s, t, last)
    requires var s', last' := Apply(cfg, s, e), if Renews(cfg, s, e, t) then s.now else last;
             t in s'.attempts && Leased(s', t) ==> s'.now - last' <= cfg.maxAge - cfg.lag
    ensures Alive(cfg, Apply(cfg, s, e), t, if Renews(cfg, s, e, t) then s.now else last)
  {
    var s' := Apply(cfg, s, e);
    EventSteps(cfg, s, e);
    StepKeepsJob(cfg, s, e, t);
    AgeStays(cfg, s, e, s', t, last);
    if Renews(cfg, s, e, t) {
      RenewalRenews(cfg, s, e, t);
    }
  }

  lemma ReapIsNoop(cfg: Config, s: State, r: Reading, stamp: int, t: Token, last: int)
    requires Alive(cfg, s, t, last) && Leased(s, t) && r.job == s.attempts[t].job
    ensures DoReap(cfg, s, r, stamp).jobs == s.jobs
  {
  }

  /** An attempt whose renewals land often enough for the stale age, delay included, is never reaped. */
  lemma {:induction false} LiveAttemptIsLeftAlone(cfg: Config, s: State, events: seq<Event>, t: Token, last: int)
    requires Alive(cfg, s, t, last) && Beats(cfg, s, events, t, last)
    ensures LeftAlone(cfg, s, events, t)
    decreases |events|
  {
    if events != [] {
      var e := events[0];
      if e.Reap? && Leased(s, t) && e.reading.job == s.attempts[t].job {
        ReapIsNoop(cfg, s, e.reading, e.stamp, t, last);
      }
      StepAlive(cfg, s, e, t, last);
      LiveAttemptIsLeftAlone(cfg, Apply(cfg, s, e), events[1..], t, if Renews(cfg, s, e, t) then s.now else last);
    }
  }

  /** A fresh claim is alive, over every run from the empty table. */
  lemma ClaimIsAlive(cfg: Config, events: seq<Event>, x: Selection, t: Token, stamp: int)
    requires var s := Run(cfg, Init(), events);
             t !in s.attempts && DoClaim(cfg, s, x, t, stamp).attempts != s.attempts && cfg.lag <= cfg.maxAge
    ensures var s := Run(cfg, Init(), events); Alive(cfg, DoClaim(cfg, s, x, t, stamp), t, s.now)
  {
    RunReadingsPast(cfg, Init(), events);
    var s := Run(cfg, Init(), events);
    EventSteps(cfg, s, Claim(x, t, stamp));
  }

  lemma {:induction false} RunReadingsPast(cfg: Config, s: State, events: seq<Event>)
    requires ReadingsPast(cfg, s)
    ensures ReadingsPast(cfg, Run(cfg, s, events))
    decreases |events|
  {
    if events != [] {
      EventSteps(cfg, s, events[0]);
      RunReadingsPast(cfg, Apply(cfg, s, events[0]), events[1..]);
    }
  }

  /** An attempt that was silent for longer than the stale age can be reaped by the next reaper, and
      has lost its lease for good. */
  lemma SilentAttemptIsReaped(cfg: Config, s: State, t: Token) returns (events: seq<Event>)
    requires t in s.attempts && Leased(s, t)
    requires s.now - s.jobs[s.attempts[t].job].updatedAt > cfg.maxAge
    ensures var s' := Run(cfg, s, events);
            && t in s'.attempts && !Leased(s', t) && s.attempts[t].job in s'.jobs
            && s'.jobs[s.attempts[t].job].status
               == if s.jobs[s.attempts[t].job].attempts < MAX_JOB_ATTEMPTS then Pending else Dead
  {
    var j := s.attempts[t].job;
    events := [ReadStale(j, s.now, 0), Reap(Reading(j, s.jobs[j].attempts, s.now - cfg.maxAge, 0), s.now)];
    RunTwo(cfg, s, events[0], events[1]);
  }

  // ---------------------------------------------------------------- cancelling and failing

  /** Cancelling a queued or running job ends every attempt on it: no write of theirs, and no
      publication, has any effect on the table in any later state. */
  lemma CancelEndsAttempts(cfg: Config, s: State, job: JobId, stamp: int, t: Token, rest: seq<Event>)
    requires job in s.jobs && s.jobs[job].status in {Pending, Running} && Timely(cfg, s, stamp)
    requires t in s.attempts && s.attempts[t].job == job
    ensures var s1 := Apply(cfg, s, Cancel(job, stamp));
            var s' := Run(cfg, s1, rest);
            && s1.jobs[job].status == Cancelled && s1.jobs[job].cancelRequested
            && (forall patch, at :: t in s'.attempts && Write(s', t, patch, at) == s')
            && (forall at :: DoChildPublish(cfg, s', t, at).published == s'.published)
  {
    LostLeaseStaysLost(cfg, Apply(cfg, s, Cancel(job, stamp)), rest, t);
  }

  /** When a child ended without reporting, the supervisor's last write makes the job FAILED, and a retry
      makes it claimable if it has an attempt left. */
  lemma SilentExitIsRetryable(cfg: Config, s: State, t: Token, stamp: int)
    requires SupervisorIs(s, t, Ending) && Leased(s, t) && Timely(cfg, s, stamp)
    ensures var s1, j := Apply(cfg, s, SupervisorFail(t, "WORKER_EXITED", stamp)), s.attempts[t].job;
            && j in s1.jobs && s1.jobs[j].status == Failed && s1.jobs[j].error == Some("WORKER_EXITED")
            && (Claimable(RetryJob(s1.jobs, j, stamp)[j]) <==> s.jobs[j].attempts < MAX_JOB_ATTEMPTS)
  {
  }

  /** A failure that a child, or a worker that cannot be started, reports under the lease is recorded. */
  lemma FailureIsRecorded(cfg: Config, s: State, t: Token, checked: bool, error: string, stamp: int)
    requires t in s.attempts && Leased(s, t) && Timely(cfg, s, stamp)
    ensures var j := s.attempts[t].job;
            && (ChildIs(s, t, Failing) ==>
                  var s1 := Apply(cfg, s, ChildFail(t, checked, error, stamp));
                  j in s1.jobs && s1.jobs[j].status == Failed && s1.jobs[j].error == Some(error))
            && (ChildIs(s, t, Starting) && SupervisorIs(s, t, Watching) ==>
                  var s1 := Apply(cfg, s, SpawnFailed(t, stamp));
                  j in s1.jobs && s1.jobs[j].status == Failed && s1.jobs[j].error == Some("WORKER_START_FAILED"))
  {
  }

  // ---------------------------------------------------------------- leftovers

  /** An attempt that is past its sweep and published nothing has no directory. */
  ghost predicate Swept(s: State, t: Token)
    requires t in s.attempts
  {
    var a, run := s.attempts[t], RunOf(s, t);
    && (a.child == Starting ==> run !in s.uploads)
    && (a.supervisor == SawRun(false) ==> run in s.published)
    && (!a.supervisor.Watching? && !a.supervisor.Ending? && !a.supervisor.SawRun? && run !in s.published ==>
          run !in s.uploads)
  }

  ghost predicate SweptInv(s: State) {
    && UploadsInv(s)
    && (forall r :: r in s.uploads ==> r.token in s.attempts && s.attempts[r.token].job == r.job)
    && (forall t :: t in s.attempts ==> Swept(s, t))
  }

  /** One attempt moves on; no directory but its own comes, and no run is published or forgotten. */
  lemma MoveSwept(s: State, s': State, t: Token)
    requires SweptInv(s) && UploadsInv(s') && t in s.attempts && t in s'.attempts
    requires s'.attempts == s.attempts[t := s'.attempts[t]] && s'.attempts[t].job == s.attempts[t].job
    requires s'.published == s.published || s'.published == s.published + [RunOf(s, t)]
    requires forall r :: r in s'.uploads ==> r in s.uploads || r == RunOf(s, t)
    requires Swept(s', t)
    ensures SweptInv(s')
  {
    forall u | u in s'.attempts ensures Swept(s', u) {
      assert u != t ==> Swept(s, u) && RunOf(s', u) == RunOf(s, u) && RunOf(s, u) != RunOf(s, t);
    }
  }

  lemma FrameSwept(s: State, s': State)
    requires SweptInv(s) && UploadsInv(s') && s'.attempts == s.attempts && s'.published == s.published
    requires s'.uploads <= s.uploads
    ensures SweptInv(s')
  {
    forall t | t in s'.attempts ensures Swept(s', t) {
      assert Swept(s, t) && RunOf(s', t) == RunOf(s, t);
    }
  }

  lemma ChildSwept(cfg: Config, s: State, e: Event)
    requires SweptInv(s) && UploadsInv(Apply(cfg, s, e)) && ByChild(e) && !e.ChildPublish?
    ensures SweptInv(Apply(cfg, s, e))
  {
    if Apply(cfg, s, e) != s {
      assert Swept(s, e.token) && AttemptSound(s, e.token);
      MoveSwept(s, Apply(cfg, s, e), e.token);
    }
  }

  lemma PublishSwept(cfg: Config, s: State, t: Token, stamp: int)
    requires SweptInv(s) && UploadsInv(DoChildPublish(cfg, s, t, stamp))
    ensures SweptInv(DoChildPublish(cfg, s, t, stamp))
  {
    if DoChildPublish(cfg, s, t, stamp) != s {
      assert Swept(s, t) && AttemptSound(s, t);
      MoveSwept(s, DoChildPublish(cfg, s, t, stamp), t);
    }
  }

  lemma SupervisorSwept(cfg: Config, s: State, e: Event)
    requires SweptInv(s) && UploadsInv(Apply(cfg, s, e)) && BySupervisor(e)
    ensures SweptInv(Apply(cfg, s, e))
  {
    if Apply(cfg, s, e) != s {
      assert Swept(s, e.token) && AttemptSound(s, e.token);
      MoveSwept(s, Apply(cfg, s, e), e.token);
    }
  }

  lemma ClaimSwept(cfg: Config, s: State, x: Selection, t: Token, stamp: int)
    requires SweptInv(s) && UploadsInv(DoClaim(cfg, s, x, t, stamp))
    ensures SweptInv(DoClaim(cfg, s, x, t, stamp))
  {
    var s' := DoClaim(cfg, s, x, t, stamp);
    forall u | u in s'.attempts ensures Swept(s', u) {
      assert u in s.attempts ==> Swept(s, u) && RunOf(s', u) == RunOf(s, u);
    }
  }

  lemma OtherSwept(cfg: Config, s: State, e: Event)
    requires !ByChild(e) && !BySupervisor(e) && !e.Claim?
    ensures var s' := Apply(cfg, s, e);
            s'.attempts == s.attempts && s'.published == s.published && s'.uploads <= s.uploads
  {
  }

  lemma {:induction false} RunSwept(cfg: Config, s: State, events: seq<Event>)
    requires SweptInv(s)
    ensures SweptInv(Run(cfg, s, events))
    decreases |events|
  {
    if events != [] {
      StepSwept(cfg, s, events[0]);
      RunSwept(cfg, Apply(cfg, s, events[0]), events[1..]);
    }
  }

  lemma StepSwept(cfg: Config, s: State, e: Event)
    requires SweptInv(s)
    ensures SweptInv(Apply(cfg, s, e))
  {
    StepUploads(cfg, s, e);
    if e.ChildPublish? {
      PublishSwept(cfg, s, e.token, e.stamp);
    } else if ByChild(e) {
      ChildSwept(cfg, s, e);
    } else if BySupervisor(e) {
      SupervisorSwept(cfg, s, e);
    } else if e.Claim? {
      ClaimSwept(cfg, s, e.selection, e.token, e.stamp);
    } else {
      OtherSwept(cfg, s, e);
      FrameSwept(s, Apply(cfg, s, e));
    }
  }

  /** Over every run: once its supervisor has finished, an attempt that published nothing has left no
      upload directory behind. */
  lemma LeftoversAreSwept(cfg: Config, events: seq<Event>, t: Token)
    requires SupervisorIs(Run(cfg, Init(), events), t, Finished)
    ensures var s := Run(cfg, Init(), events); RunOf(s, t) !in s.published ==> RunOf(s, t) !in s.uploads
  {
    RunSwept(cfg, Init(), events);
    assert Swept(Run(cfg, Init(), events), t);
  }

  /** A supervisor that reads a completed or cancelled job removes its inputs. */
  lemma SettledInputsAreRemoved(cfg: Config, s: State, t: Token)
    requires SupervisorIs(s, t, SweptUploads) && s.attempts[t].job in s.jobs
    ensures var s' := Apply(cfg, Apply(cfg, s, SupervisorReadJob(t)), SupervisorUnstage(t));
            && SupervisorIs(s', t, Finished)
            && s'.staged == (if s.jobs[s.attempts[t].job].status in {Completed, Cancelled}
                             then s.staged - {s.attempts[t].job} else s.staged)
  {
  }
}
