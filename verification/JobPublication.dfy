/** Publication and cancellation over all runs: each job publishes at most once, final statuses are
    absorbing, a lost lease stays lost. The only threat is the second enqueue write, and each theorem
    comes with the exact rows on which that write is safe for it. */
module JobPublication {
  import opened Options
  import opened JobRows
  import opened JobProtocol
  import opened JobSteps
  import opened JobRuns

  // ---------------------------------------------------------------- single publication

  /** No job occurs twice. */
  ghost predicate Once(published: seq<RunId>) {
    forall i, k :: 0 <= i < k < |published| ==> published[i].job != published[k].job
  }

  /** A row no claimer can take any more. */
  ghost predicate Spent(s: State, j: JobId) {
    j in s.jobs ==>
      || s.jobs[j].status in {Completed, Cancelled}
      || (s.jobs[j].status == Pending && s.jobs[j].attempts >= MAX_JOB_ATTEMPTS && !Selected(s, j))
  }

  ghost predicate RowsSound(s: State) {
    && Known(s)
    && (forall j :: j in s.jobs && s.jobs[j].cancelRequested ==> s.jobs[j].status == Cancelled)
    && (forall j :: j in s.jobs && s.jobs[j].status == Completed ==>
          s.jobs[j].runId.Some? && s.jobs[j].runId.value in s.published && s.jobs[j].runId.value.job == j)
  }

  ghost predicate OnceInv(s: State) {
    && RowsSound(s)
    && (forall x :: x in s.selections ==> x.at <= s.now)
    && (forall r :: r in s.published ==> r.job in s.queued && Spent(s, r.job))
    && Once(s.published)
  }

  lemma RowsStaySound(cfg: Config, s: State, e: Event, s': State)
    requires RowsSound(s) && Step(cfg, s, e, s')
    ensures RowsSound(s')
  {
    forall j | j in s'.jobs && s'.jobs[j].status == Completed
      ensures s'.jobs[j].runId.Some? && s'.jobs[j].runId.value in s'.published && s'.jobs[j].runId.value.job == j
    {
      assert j in s.jobs;
      if s'.jobs[j] != s.jobs[j] {
        OnlyPublicationCompletes(cfg, s, e, j, s.jobs[j], s'.jobs[j]);
      }
    }
    forall j | j in s'.jobs && s'.jobs[j].cancelRequested ensures s'.jobs[j].status == Cancelled {
      if j in s.jobs {
        CancellationStep(cfg, s, e, j, s.jobs[j], s'.jobs[j]);
      }
    }
  }

  lemma NotSelectedStays(cfg: Config, s: State, e: Event, s': State, j: JobId)
    requires ReadsStep(cfg, s, e, s') && !Selected(s, j)
    requires j in s.jobs ==> !Claimable(s.jobs[j])
    ensures !Selected(s', j)
  {
  }

  /** An untakeable row is cancelled or stays as it is, unless an event queues a completed one again. */
  lemma SpentRowStays(cfg: Config, s: State, e: Event, j: JobId, before: JobRow, after: JobRow)
    requires RowStep(cfg, s, e, j, before, after)
    requires before.status == Pending && before.attempts >= MAX_JOB_ATTEMPTS && !Selected(s, j)
    ensures after.status == Cancelled || (after.status == Pending && after.attempts == before.attempts)
  {
  }

  lemma SpentStays(cfg: Config, s: State, e: Event, s': State, j: JobId)
    requires Step(cfg, s, e, s') && SafeStep(s, e, s', SparesOne) && j in s.queued && Spent(s, j)
    ensures Spent(s', j)
  {
    if j in s'.jobs && s'.jobs[j] != s.jobs[j] {
      var before, after := s.jobs[j], s'.jobs[j];
      if before.status == Pending {
        SpentRowStays(cfg, s, e, j, before, after);
        NotSelectedStays(cfg, s, e, s', j);
      } else if before.status == Cancelled {
        CancelledRowStays(cfg, s, e, j, before, after);
      } else if WasNoted(s, e, j, before, after) {
        assert SparesOne(s, j) && after.attempts == before.attempts;
        NotSelectedStays(cfg, s, e, s', j);
      } else {
        SettledRowStays(cfg, s, e, j, before, after);
      }
    } else if j in s'.jobs && s.jobs[j].status == Pending {
      NotSelectedStays(cfg, s, e, s', j);
    }
  }

  lemma StepOnce(cfg: Config, s: State, e: Event, s': State)
    requires OnceInv(s) && Step(cfg, s, e, s') && SafeStep(s, e, s', SparesOne)
    ensures OnceInv(s')
  {
    RowsStaySound(cfg, s, e, s');
    forall r | r in s'.published ensures r.job in s'.queued && Spent(s', r.job) {
      if r in s.published {
        SpentStays(cfg, s, e, s', r.job);
      }
    }
    if Publishes(cfg, s, e) {
      assert forall r :: r in s.published ==> r.job != RunOf(s, e.token).job;
    }
  }

  lemma {:induction false} RunOnce(cfg: Config, s: State, events: seq<Event>)
    requires OnceInv(s) && Calm(cfg, s, events, SparesOne)
    ensures OnceInv(Run(cfg, s, events))
    decreases |events|
  {
    if events != [] {
      EventSteps(cfg, s, events[0]);
      StepOnce(cfg, s, events[0], Apply(cfg, s, events[0]));
      RunOnce(cfg, Apply(cfg, s, events[0]), events[1..]);
    }
  }

  /** Each job publishes at most one run, whatever the clocks do, as long as no second enqueue write
      reopens a completed row that can still be claimed. */
  lemma SinglePublication(cfg: Config, events: seq<Event>)
    requires Calm(cfg, Init(), events, SparesOne)
    ensures Once(Run(cfg, Init(), events).published)
  {
    RunOnce(cfg, Init(), events);
  }

  /** A second enqueue write that reopens a completed row lets its job publish again, from any state. */
  lemma LateNoteRepublishes(cfg: Config, s: State, job: JobId, stamp: int) returns (rest: seq<Event>, t: Token)
    requires RowsSound(s) && (forall x :: x in s.selections ==> x.at <= s.now)
    requires Reopens(s, job) && DoNote(cfg, s, job, stamp) != s
    ensures forall e :: e in rest ==> !e.Note?
    ensures Run(cfg, DoNote(cfg, s, job, stamp), rest).published == s.published + [AttemptRun(job, t)]
  {
    var s1 := DoNote(cfg, s, job, stamp);
    t := FreshToken(s1);
    assert s1.selections == s.selections && s1.now == s.now;
    assert Takeable(s1, job);
    rest := AttemptPublishes(cfg, s1, job, t);
  }

  lemma SafeNoteStaysOnce(cfg: Config, s: State, job: JobId, stamp: int, rest: seq<Event>)
    requires OnceInv(s) && !Reopens(s, job) && Calm(cfg, DoNote(cfg, s, job, stamp), rest, SparesOne)
    ensures Once(Run(cfg, DoNote(cfg, s, job, stamp), rest).published)
  {
    var e := Note(job, stamp);
    EventSteps(cfg, s, e);
    StepOnce(cfg, s, e, Apply(cfg, s, e));
    RunOnce(cfg, Apply(cfg, s, e), rest);
  }

  lemma TwiceIsNotOnce(published: seq<RunId>, r: RunId, again: RunId)
    requires r in published && again.job == r.job
    ensures !Once(published + [again])
  {
    var p := published + [again];
    var i :| 0 <= i < |published| && published[i] == r;
    assert p[i].job == p[|published|].job;
  }

  /** The exact condition: after any calm run, a second enqueue write leaves single publication intact
      over every calm continuation if and only if it does not reopen a completed row, that is one with
      an attempt to spare or with a claimer that selected it before. */
  lemma SinglePublicationExactly(cfg: Config, first: seq<Event>, job: JobId, stamp: int)
    requires Calm(cfg, Init(), first, SparesOne)
    requires DoNote(cfg, Run(cfg, Init(), first), job, stamp) != Run(cfg, Init(), first)
    ensures var s := Run(cfg, Init(), first);
            var s1 := DoNote(cfg, s, job, stamp);
            (forall rest :: Calm(cfg, s1, rest, SparesOne) ==> Once(Run(cfg, s1, rest).published)) <==> !Reopens(s, job)
  {
    var s := Run(cfg, Init(), first);
    var s1 := DoNote(cfg, s, job, stamp);
    RunOnce(cfg, Init(), first);
    if Reopens(s, job) {
      var rest, t := LateNoteRepublishes(cfg, s, job, stamp);
      NoNoteIsCalm(cfg, s1, rest, SparesOne);
      TwiceIsNotOnce(s.published, s.jobs[job].runId.value, AttemptRun(job, t));
    } else {
      forall rest | Calm(cfg, s1, rest, SparesOne) ensures Once(Run(cfg, s1, rest).published) {
        SafeNoteStaysOnce(cfg, s, job, stamp, rest);
      }
    }
  }

  /** Such a write is possible: one job, two publications. */
  lemma TwoPublications(cfg: Config) returns (events: seq<Event>)
    ensures !Once(Run(cfg, Init(), events).published)
  {
    var create := Then(cfg, Init(), [], Create(0, 0));
    var s0 := Run(cfg, Init(), create);
    var attempt := AttemptPublishes(cfg, s0, 0, 0);
    RunSplits(cfg, Init(), create, attempt);
    var first := create + attempt;
    assert forall e: Event :: e in first ==> !e.Note?;
    NoNoteIsCalm(cfg, Init(), first, SparesOne);
    var s := Run(cfg, Init(), first);
    assert Reopens(s, 0) && DoNote(cfg, s, 0, s.now) != s;
    SinglePublicationExactly(cfg, first, 0, s.now);
    var s1 := DoNote(cfg, s, 0, s.now);
    var rest :| Calm(cfg, s1, rest, SparesOne) && !Once(Run(cfg, s1, rest).published);
    var noted := Then(cfg, Init(), first, Note(0, s.now));
    RunSplits(cfg, Init(), noted, rest);
    events := noted + rest;
  }

  /** A job that has been claimed k times without success, with every claimer done. */
  ghost predicate Idle(s: State, k: nat) {
    && s.now == 0 && s.selections == {} && s.queued == {0} && s.noted == {} && s.uploads == {}
    && 0 in s.jobs && s.jobs[0].status == Pending && s.jobs[0].attempts == k && !s.jobs[0].cancelRequested
    && (forall t :: t in s.attempts ==> t < k)
  }

  /** The same job when its k-th worker cannot be started. */
  ghost predicate Idles(s: State, k: nat, status: Status) {
    && s.now == 0 && s.selections == {} && s.queued == {0} && s.noted == {} && s.uploads == {}
    && 0 in s.jobs && s.jobs[0].status == status && s.jobs[0].attempts == k + 1 && !s.jobs[0].cancelRequested
    && (forall t :: t in s.attempts ==> t < k + 1) && k in s.attempts && s.attempts[k] == Attempt(0, Starting, Watching)
    && s.jobs[0].lease == Some(k)
  }

  lemma ClaimIdle(cfg: Config, s: State, k: nat)
    requires Idle(s, k) && k < 4
    ensures Idles(Apply(cfg, Apply(cfg, s, Select(0, k)), Claim(Selection(0, 0, k), k, 0)), k, Running)
  {
  }

  lemma FailIdle(cfg: Config, s: State, k: nat)
    requires Idles(s, k, Running) && k < 4
    ensures Idle(Apply(cfg, Apply(cfg, s, SpawnFailed(k, 0)), Retry(0, 0)), k + 1)
  {
  }

  /** k workers in a row cannot be started, and the job is retried each time. */
  lemma {:induction false} Failures(cfg: Config, k: nat) returns (events: seq<Event>)
    requires k <= 4
    ensures Idle(Run(cfg, Init(), events), k)
    ensures forall e :: e in events ==> !e.Note?
  {
    if k == 0 {
      events := Then(cfg, Init(), [], Create(0, 0));
    } else {
      var before := Failures(cfg, k - 1);
      events := NextFailure(cfg, before, k - 1);
    }
  }

  lemma NextFailure(cfg: Config, before: seq<Event>, k: nat) returns (events: seq<Event>)
    requires k < 4 && Idle(Run(cfg, Init(), before), k)
    requires forall e :: e in before ==> !e.Note?
    ensures Idle(Run(cfg, Init(), events), k + 1)
    ensures forall e :: e in events ==> !e.Note?
  {
    var s := Run(cfg, Init(), before);
    ClaimIdle(cfg, s, k);
    FailIdle(cfg, Apply(cfg, Apply(cfg, s, Select(0, k)), Claim(Selection(0, 0, k), k, 0)), k);
    var claim := Claim(Selection(0, 0, k), k, 0);
    events := ThenFour(cfg, Init(), before, Select(0, k), claim, SpawnFailed(k, 0), Retry(0, 0));
  }

  /** The condition on attempts and selections matters: after four failed starts and a publication on the
      fifth attempt, with every claimer done, a second enqueue write meets a completed row and leaves
      single publication intact. */
  lemma LateNoteCanBeSafe(cfg: Config) returns (first: seq<Event>)
    ensures Calm(cfg, Init(), first, SparesOne)
    ensures var s := Run(cfg, Init(), first);
            && 0 in s.jobs && s.jobs[0].status == Completed && s.jobs[0].attempts == MAX_JOB_ATTEMPTS
            && DoNote(cfg, s, 0, s.now) != s && !Reopens(s, 0)
            && var s1 := DoNote(cfg, s, 0, s.now);
               && s1.jobs[0].status == Pending
               && forall rest :: Calm(cfg, s1, rest, SparesOne) ==> Once(Run(cfg, s1, rest).published)
  {
    var failures := Failures(cfg, 4);
    var s0 := Run(cfg, Init(), failures);
    var attempt := AttemptPublishes(cfg, s0, 0, 4);
    RunSplits(cfg, Init(), failures, attempt);
    first := failures + attempt;
    NoNoteIsCalm(cfg, Init(), first, SparesOne);
    var s := Run(cfg, Init(), first);
    assert s.selections == {};
    assert 0 !in s.noted && DoNote(cfg, s, 0, s.now).noted != s.noted;
    SinglePublicationExactly(cfg, first, 0, s.now);
  }

  // ---------------------------------------------------------------- published or cancelled, never both

  ghost predicate LinksSound(s: State) {
    Known(s) && forall j :: j in s.jobs && s.jobs[j].runId.Some? ==> s.jobs[j].status == Completed
  }

  lemma StepLinks(cfg: Config, s: State, e: Event, s': State)
    requires LinksSound(s) && Step(cfg, s, e, s') && SafeStep(s, e, s', SparesCompleted)
    ensures LinksSound(s')
  {
    forall j | j in s'.jobs && s'.jobs[j].runId.Some? ensures s'.jobs[j].status == Completed {
      assert j in s.jobs;
      if s.jobs[j].runId.Some? {
        SettledRowStays(cfg, s, e, j, s.jobs[j], s'.jobs[j]);
      } else {
        OnlyPublicationCompletes(cfg, s, e, j, s.jobs[j], s'.jobs[j]);
      }
    }
  }

  /** A published job whose row exists is linked to that run, and the run is stored. */
  ghost predicate Linked(s: State, r: RunId) {
    r.job in s.queued && (r.job in s.jobs ==> s.jobs[r.job].runId == Some(r) && r in s.runs)
  }

  lemma RunStaysLinked(cfg: Config, s: State, e: Event, s': State, r: RunId)
    requires LinksSound(s) && Step(cfg, s, e, s') && SafeStep(s, e, s', SparesCompleted) && Linked(s, r)
    ensures Linked(s', r)
  {
    if r.job in s'.jobs {
      SettledRowStays(cfg, s, e, r.job, s.jobs[r.job], s'.jobs[r.job]);
    }
  }

  ghost predicate CompleteInv(s: State) {
    && RowsSound(s) && LinksSound(s)
    && (forall r :: r in s.published ==> Linked(s, r))
  }

  lemma StepComplete(cfg: Config, s: State, e: Event, s': State)
    requires CompleteInv(s) && Step(cfg, s, e, s') && SafeStep(s, e, s', SparesCompleted)
    ensures CompleteInv(s')
  {
    RowsStaySound(cfg, s, e, s');
    StepLinks(cfg, s, e, s');
    forall r | r in s'.published ensures Linked(s', r) {
      if r in s.published {
        RunStaysLinked(cfg, s, e, s', r);
      }
    }
  }

  lemma {:induction false} RunComplete(cfg: Config, s: State, events: seq<Event>)
    requires CompleteInv(s) && Calm(cfg, s, events, SparesCompleted)
    ensures CompleteInv(Run(cfg, s, events))
    decreases |events|
  {
    if events != [] {
      EventSteps(cfg, s, events[0]);
      StepComplete(cfg, s, events[0], Apply(cfg, s, events[0]));
      RunComplete(cfg, Apply(cfg, s, events[0]), events[1..]);
    }
  }

  /** A published job is completed with the run it published, which is stored, for as long as its row
      exists. */
  lemma PublishedIsCompleted(cfg: Config, events: seq<Event>)
    requires Calm(cfg, Init(), events, SparesCompleted)
    ensures var s := Run(cfg, Init(), events);
            forall r :: r in s.published && r.job in s.jobs ==>
              s.jobs[r.job].status == Completed && s.jobs[r.job].runId == Some(r) && r in s.runs
  {
    RunComplete(cfg, Init(), events);
  }

  ghost predicate NotBoth(s: State) {
    forall r :: r in s.published && r.job in s.jobs ==> s.jobs[r.job].status != Cancelled
  }

  lemma SafeNoteStaysComplete(cfg: Config, s: State, job: JobId, stamp: int, rest: seq<Event>)
    requires CompleteInv(s) && SparesCompleted(s, job) && Calm(cfg, DoNote(cfg, s, job, stamp), rest, SparesCompleted)
    ensures NotBoth(Run(cfg, DoNote(cfg, s, job, stamp), rest))
  {
    var e := Note(job, stamp);
    EventSteps(cfg, s, e);
    StepComplete(cfg, s, e, Apply(cfg, s, e));
    RunComplete(cfg, Apply(cfg, s, e), rest);
  }

  lemma CancelAfterNote(cfg: Config, s: State, job: JobId, stamp: int) returns (rest: seq<Event>)
    requires RowsSound(s) && !SparesCompleted(s, job) && DoNote(cfg, s, job, stamp) != s
    ensures forall e :: e in rest ==> !e.Note?
    ensures !NotBoth(Run(cfg, DoNote(cfg, s, job, stamp), rest))
  {
    var s1 := DoNote(cfg, s, job, stamp);
    rest := Then(cfg, s1, [], Cancel(job, s1.now));
    assert s.jobs[job].runId.value in Run(cfg, s1, rest).published;
  }

  /** After any calm run, a second enqueue write leaves "never both published and cancelled" intact over
      every calm continuation if and only if the row is not completed. */
  lemma CancelExactly(cfg: Config, first: seq<Event>, job: JobId, stamp: int)
    requires Calm(cfg, Init(), first, SparesCompleted)
    requires DoNote(cfg, Run(cfg, Init(), first), job, stamp) != Run(cfg, Init(), first)
    ensures var s := Run(cfg, Init(), first);
            var s1 := DoNote(cfg, s, job, stamp);
            (forall rest :: Calm(cfg, s1, rest, SparesCompleted) ==> NotBoth(Run(cfg, s1, rest)))
            <==> SparesCompleted(s, job)
  {
    var s := Run(cfg, Init(), first);
    var s1 := DoNote(cfg, s, job, stamp);
    RunComplete(cfg, Init(), first);
    if SparesCompleted(s, job) {
      forall rest | Calm(cfg, s1, rest, SparesCompleted) ensures NotBoth(Run(cfg, s1, rest)) {
        SafeNoteStaysComplete(cfg, s, job, stamp, rest);
      }
    } else {
      var rest := CancelAfterNote(cfg, s, job, stamp);
      NoNoteIsCalm(cfg, s1, rest, SparesCompleted);
    }
  }

  // ---------------------------------------------------------------- final statuses

  /** A final status stays, publications are never forgotten, and the only row that can disappear is a
      completed one, with its deleted run. */
  ghost predicate StaysFinal(s: State, s': State) {
    && (forall j :: j in s.jobs && Final(s.jobs[j].status) && j in s'.jobs ==> s'.jobs[j].status == s.jobs[j].status)
    && (forall j :: j in s.jobs && j !in s'.jobs ==> s.jobs[j].status !in {Cancelled, Dead})
    && (forall j :: j in s'.jobs && j !in s.jobs ==> j !in s.queued)
    && s.queued <= s'.queued
    && s.published <= s'.published
  }

  lemma StepFinal(cfg: Config, s: State, e: Event, s': State)
    requires LinksSound(s) && Step(cfg, s, e, s') && SafeStep(s, e, s', SparesFinal)
    ensures StaysFinal(s, s') && LinksSound(s')
  {
    forall j | j in s.jobs && j in s'.jobs && Final(s.jobs[j].status)
      ensures s'.jobs[j].status == s.jobs[j].status
    {
      if s.jobs[j].status == Cancelled {
        CancelledRowStays(cfg, s, e, j, s.jobs[j], s'.jobs[j]);
      } else {
        SettledRowStays(cfg, s, e, j, s.jobs[j], s'.jobs[j]);
      }
    }
    StepLinks(cfg, s, e, s');
  }

  lemma StaysFinalTwice(s: State, s1: State, s': State)
    requires Known(s) && StaysFinal(s, s1) && StaysFinal(s1, s')
    ensures StaysFinal(s, s')
  {
  }

  /** Completed, cancelled and dead are absorbing between any two moments of a calm run. */
  lemma {:induction false} FinalIsAbsorbing(cfg: Config, s: State, events: seq<Event>)
    requires LinksSound(s) && Calm(cfg, s, events, SparesFinal)
    ensures StaysFinal(s, Run(cfg, s, events)) && LinksSound(Run(cfg, s, events))
    decreases |events|
  {
    if events != [] {
      EventSteps(cfg, s, events[0]);
      StepFinal(cfg, s, events[0], Apply(cfg, s, events[0]));
      FinalIsAbsorbing(cfg, Apply(cfg, s, events[0]), events[1..]);
      StaysFinalTwice(s, Apply(cfg, s, events[0]), Run(cfg, s, events));
    }
  }

  /** The second enqueue write respects final statuses if and only if the row is neither completed nor
      dead. */
  lemma NoteKeepsFinalExactly(cfg: Config, s: State, job: JobId, stamp: int)
    requires LinksSound(s) && DoNote(cfg, s, job, stamp) != s
    ensures StaysFinal(s, DoNote(cfg, s, job, stamp)) <==> SparesFinal(s, job)
  {
    if SparesFinal(s, job) {
      EventSteps(cfg, s, Note(job, stamp));
      StepFinal(cfg, s, Note(job, stamp), DoNote(cfg, s, job, stamp));
    }
  }

  lemma {:induction false} CancelledStays(cfg: Config, s: State, events: seq<Event>, job: JobId)
    requires CompleteInv(s) && Calm(cfg, s, events, SparesCompleted)
    requires job in s.jobs && s.jobs[job].status == Cancelled
    ensures var s' := Run(cfg, s, events); job in s'.jobs && s'.jobs[job].status == Cancelled
    decreases |events|
  {
    if events != [] {
      var s' := Apply(cfg, s, events[0]);
      EventSteps(cfg, s, events[0]);
      CancelledRowStays(cfg, s, events[0], job, s.jobs[job], s'.jobs[job]);
      StepComplete(cfg, s, events[0], s');
      CancelledStays(cfg, s', events[1..], job);
    }
  }

  /** A job cancelled at one moment of a run is published at no moment of it, earlier or later. */
  lemma CancelledNeverPublished(cfg: Config, first: seq<Event>, rest: seq<Event>, job: JobId)
    requires Calm(cfg, Init(), first + rest, SparesCompleted)
    requires var s := Run(cfg, Init(), first); job in s.jobs && s.jobs[job].status == Cancelled
    ensures forall r :: r in Run(cfg, Init(), first + rest).published ==> r.job != job
  {
    RunSplits(cfg, Init(), first, rest);
    CalmSplits(cfg, Init(), first, rest, SparesCompleted);
    RunComplete(cfg, Init(), first);
    CancelledStays(cfg, Run(cfg, Init(), first), rest, job);
    RunComplete(cfg, Init(), first + rest);
  }

  // ---------------------------------------------------------------- fencing

  ghost predicate KeepsDead(s: State, s': State, t: Token)
    requires t in s.attempts
  {
    t in s'.attempts && s'.attempts[t].job == s.attempts[t].job && !Leased(s', t)
  }

  /** Moving attempts along and writing under a lease gives nobody a lease. */
  lemma MoveKeepsDead(s: State, s': State, t: Token, u: Token, patch: Patch, stamp: int)
    requires t in s.attempts && !Leased(s, t) && u in s.attempts
    requires s'.jobs == s.jobs || s'.jobs == Write(s, u, patch, stamp).jobs
    requires u in s'.attempts && s'.attempts[u].job == s.attempts[u].job
    requires s'.attempts == s.attempts[u := s'.attempts[u]]
    ensures KeepsDead(s, s', t)
  {
  }

  lemma ChildWriteKeepsDead(cfg: Config, s: State, e: Event, t: Token)
    requires t in s.attempts && !Leased(s, t) && (e.Progress? || e.ChildStart? || e.ChildFail?)
    ensures KeepsDead(s, Apply(cfg, s, e), t)
  {
    var s' := Apply(cfg, s, e);
    if s' != s {
      var patch := if e.ChildStart? then Patch(Some(Running), None)
                   else if e.ChildFail? then Failure(e.error) else TOUCH;
      MoveKeepsDead(s, s', t, e.token, patch, e.stamp);
    }
  }

  lemma ChildFileKeepsDead(cfg: Config, s: State, e: Event, t: Token)
    requires t in s.attempts && !Leased(s, t)
    requires e.ChildMakeUploads? || e.ChildReject? || e.ChildCrash? || e.ChildReadStatus? || e.ChildUnstage?
    ensures KeepsDead(s, Apply(cfg, s, e), t)
  {
    if Apply(cfg, s, e) != s {
      MoveKeepsDead(s, Apply(cfg, s, e), t, e.token, TOUCH, 0);
    }
  }

  lemma PublishKeepsDead(cfg: Config, s: State, u: Token, stamp: int, t: Token)
    requires t in s.attempts && !Leased(s, t)
    ensures KeepsDead(s, DoChildPublish(cfg, s, u, stamp), t)
  {
  }

  lemma WatchKeepsDead(cfg: Config, s: State, e: Event, t: Token)
    requires t in s.attempts && !Leased(s, t) && (e.SpawnFailed? || e.Beat? || e.SupervisorFail?)
    ensures KeepsDead(s, Apply(cfg, s, e), t)
  {
    var s' := Apply(cfg, s, e);
    if s' != s {
      var patch := if e.SpawnFailed? then Failure("WORKER_START_FAILED")
                   else if e.SupervisorFail? then Failure(e.error) else TOUCH;
      MoveKeepsDead(s, s', t, e.token, patch, e.stamp);
    }
  }

  lemma SweepKeepsDead(cfg: Config, s: State, e: Event, t: Token)
    requires t in s.attempts && !Leased(s, t) && BySupervisor(e)
    requires !e.SpawnFailed? && !e.Beat? && !e.SupervisorFail?
    ensures KeepsDead(s, Apply(cfg, s, e), t)
  {
    if Apply(cfg, s, e) != s {
      MoveKeepsDead(s, Apply(cfg, s, e), t, e.token, TOUCH, 0);
    }
  }

  lemma RowKeepsDead(cfg: Config, s: State, e: Event, t: Token)
    requires t in s.attempts && !Leased(s, t)
    requires e.Create? || e.Note? || e.Retry? || e.Cancel? || e.Reap?
    ensures KeepsDead(s, Apply(cfg, s, e), t)
  {
  }

  /** A claim's token is new. */
  lemma ClaimKeepsDead(cfg: Config, s: State, x: Selection, u: Token, stamp: int, t: Token)
    requires t in s.attempts && !Leased(s, t)
    ensures KeepsDead(s, DoClaim(cfg, s, x, u, stamp), t)
  {
  }

  lemma DeleteKeepsDead(s: State, c: Copy, t: Token)
    requires t in s.attempts && !Leased(s, t)
    ensures KeepsDead(s, DoDeleteRun(s, c), t)
  {
  }

  lemma OtherKeepsDead(cfg: Config, s: State, e: Event, t: Token)
    requires t in s.attempts && !Leased(s, t)
    requires e.Tick? || e.Select? || e.ReadStale? || e.LoadRun? || e.Resave? || e.RemoveDeletedUploads?
    ensures KeepsDead(s, Apply(cfg, s, e), t)
  {
  }

  lemma StepKeepsDead(cfg: Config, s: State, e: Event, t: Token)
    requires t in s.attempts && !Leased(s, t)
    ensures KeepsDead(s, Apply(cfg, s, e), t)
  {
    if e.ChildPublish? {
      PublishKeepsDead(cfg, s, e.token, e.stamp, t);
    } else if e.Progress? || e.ChildStart? || e.ChildFail? {
      ChildWriteKeepsDead(cfg, s, e, t);
    } else if ByChild(e) {
      ChildFileKeepsDead(cfg, s, e, t);
    } else if e.SpawnFailed? || e.Beat? || e.SupervisorFail? {
      WatchKeepsDead(cfg, s, e, t);
    } else if BySupervisor(e) {
      SweepKeepsDead(cfg, s, e, t);
    } else if e.Claim? {
      ClaimKeepsDead(cfg, s, e.selection, e.token, e.stamp, t);
    } else if e.DeleteRun? {
      DeleteKeepsDead(s, e.copy, t);
    } else if e.Create? || e.Note? || e.Retry? || e.Cancel? || e.Reap? {
      RowKeepsDead(cfg, s, e, t);
    } else {
      OtherKeepsDead(cfg, s, e, t);
    }
  }

  /** Once an attempt has lost its lease, whatever took it, every write it or its supervisor issues
      in any later state leaves the table as it is. No assumption on clocks or calm is needed. */
  lemma {:induction false} LostLeaseStaysLost(cfg: Config, s: State, events: seq<Event>, t: Token)
    requires t in s.attempts && !Leased(s, t)
    ensures var s' := Run(cfg, s, events);
            && t in s'.attempts && !Leased(s', t)
            && (forall patch, stamp :: Write(s', t, patch, stamp) == s')
            && (forall error, stamp :: DoSupervisorFail(cfg, s', t, error, stamp) == s')
            && (forall stamp :: DoChildPublish(cfg, s', t, stamp).jobs == s'.jobs
                                && DoChildPublish(cfg, s', t, stamp).published == s'.published)
    decreases |events|
  {
    if events != [] {
      StepKeepsDead(cfg, s, events[0], t);
      LostLeaseStaysLost(cfg, Apply(cfg, s, events[0]), events[1..], t);
    }
  }

  /** The supervisor's unconditional last write changes nothing, then or in any later state, on a row
      that is completed, cancelled, dead, already failed, queued again, re-owned or deleted. */
  lemma LastWriteIsFenced(cfg: Config, s: State, events: seq<Event>, t: Token, stamp: int)
    requires t in s.attempts
    requires var j := s.attempts[t].job;
             j in s.jobs ==>
               s.jobs[j].status in {Completed, Cancelled, Dead, Failed, Pending} || s.jobs[j].lease != Some(t)
    ensures DoSupervisorFail(cfg, Run(cfg, s, events), t, "WORKER_EXITED", stamp) == Run(cfg, s, events)
  {
    LostLeaseStaysLost(cfg, s, events, t);
  }
}
