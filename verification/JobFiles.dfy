/** Files over all runs. Clean-up reads a status in one step and deletes in another; it is safe because
    what it read cannot change back. */
module JobFiles {
  import opened JobRows
  import opened JobProtocol
  import opened JobSteps
  import opened JobRuns
  import opened JobPublication
  import opened JobCap

  // ---------------------------------------------------------------- staged inputs

  predicate Settled(s: State, job: JobId) {
    job in s.jobs ==> s.jobs[job].status in {Completed, Cancelled}
  }

  ghost predicate StagedInv(s: State) {
    && Known(s)
    && (forall j :: j in s.jobs && j !in s.staged ==> Settled(s, j))
    && (forall t :: t in s.attempts ==>
          s.attempts[t].job in s.queued && (WillUnstage(s, t, s.attempts[t].job) ==> Settled(s, s.attempts[t].job)))
  }

  lemma SettledStays(cfg: Config, s: State, e: Event, s': State, j: JobId)
    requires Step(cfg, s, e, s') && j in s.queued && Settled(s, j)
    requires e.Note? && s' != s && e.job == j ==> SparesCompleted(s, j)
    ensures Settled(s', j)
  {
    if j in s'.jobs {
      if s.jobs[j].status == Cancelled {
        CancelledRowStays(cfg, s, e, j, s.jobs[j], s'.jobs[j]);
      } else if s'.jobs[j] != s.jobs[j] {
        SettledRowStays(cfg, s, e, j, s.jobs[j], s'.jobs[j]);
      }
    }
  }

  /** Who removes inputs from now on either did so before, or has just seen a settled row. */
  ghost predicate StagingStep(s: State, e: Event, s': State) {
    && (forall t :: t in s'.attempts ==>
          if t in s.attempts then s'.attempts[t].job == s.attempts[t].job else s'.attempts[t].job in s.jobs)
    && (forall t :: t in s'.attempts && WillUnstage(s', t, s'.attempts[t].job) ==>
          || (t in s.attempts && WillUnstage(s, t, s.attempts[t].job))
          || Settled(s', s'.attempts[t].job))
    && (forall j :: j in s.staged && j !in s'.staged ==>
          exists t :: t in s.attempts && s.attempts[t].job == j && WillUnstage(s, t, j))
    && (forall j :: j in s'.jobs && j !in s.jobs ==> j in s'.staged)
    && (e.Note? ==> s'.attempts == s.attempts && s'.staged == s.staged)
  }

  /** One attempt moves on, and may remove the inputs of its job if it was going to. */
  lemma MoveStages(s: State, e: Event, t: Token, s': State)
    requires !e.Note? && t in s.attempts && t in s'.attempts && s'.attempts == s.attempts[t := s'.attempts[t]]
    requires s'.attempts[t].job == s.attempts[t].job && s'.jobs.Keys == s.jobs.Keys
    requires WillUnstage(s', t, s'.attempts[t].job) ==>
               WillUnstage(s, t, s.attempts[t].job) || Settled(s', s'.attempts[t].job)
    requires s'.staged == s.staged
             || (s'.staged == s.staged - {s.attempts[t].job} && WillUnstage(s, t, s.attempts[t].job))
    ensures StagingStep(s, e, s')
  {
  }

  /** A child that writes to its row or works on its own directory. */
  predicate ChildWorks(e: Event) {
    e.Progress? || e.ChildStart? || e.ChildMakeUploads? || e.ChildReject? || e.ChildCrash? || e.ChildFail?
  }

  lemma ChildWorkStaging(cfg: Config, s: State, e: Event)
    requires ChildWorks(e)
    ensures StagingStep(s, e, Apply(cfg, s, e))
  {
    if Apply(cfg, s, e) != s {
      MoveStages(s, e, e.token, Apply(cfg, s, e));
    }
  }

  lemma ChildEndStaging(cfg: Config, s: State, e: Event)
    requires e.ChildPublish? || e.ChildReadStatus? || e.ChildUnstage?
    ensures StagingStep(s, e, Apply(cfg, s, e))
  {
    if Apply(cfg, s, e) != s {
      MoveStages(s, e, e.token, Apply(cfg, s, e));
    }
  }

  lemma WatchStaging(cfg: Config, s: State, e: Event)
    requires e.SpawnFailed? || e.Beat? || e.Stop? || e.SupervisorFail?
    ensures StagingStep(s, e, Apply(cfg, s, e))
  {
    if Apply(cfg, s, e) != s {
      MoveStages(s, e, e.token, Apply(cfg, s, e));
    }
  }

  lemma SweepStaging(cfg: Config, s: State, e: Event)
    requires e.SupervisorReadRun? || e.SupervisorSweep? || e.SupervisorReadJob? || e.SupervisorUnstage?
    ensures StagingStep(s, e, Apply(cfg, s, e))
  {
    if Apply(cfg, s, e) != s {
      MoveStages(s, e, e.token, Apply(cfg, s, e));
    }
  }

  lemma RequestStaging(cfg: Config, s: State, e: Event)
    requires !ByChild(e) && !BySupervisor(e)
    ensures StagingStep(s, e, Apply(cfg, s, e))
  {
  }

  lemma EventStaging(cfg: Config, s: State, e: Event)
    ensures StagingStep(s, e, Apply(cfg, s, e))
  {
    if ChildWorks(e) {
      ChildWorkStaging(cfg, s, e);
    } else if ByChild(e) {
      ChildEndStaging(cfg, s, e);
    } else if e.SpawnFailed? || e.Beat? || e.Stop? || e.SupervisorFail? {
      WatchStaging(cfg, s, e);
    } else if BySupervisor(e) {
      SweepStaging(cfg, s, e);
    } else {
      RequestStaging(cfg, s, e);
    }
  }

  lemma StepStaged(cfg: Config, s: State, e: Event, s': State)
    requires StagedInv(s) && Step(cfg, s, e, s') && StagingStep(s, e, s') && SafeStep(s, e, s', SparesInputs)
    ensures StagedInv(s')
  {
    forall j | j in s'.jobs && j !in s'.staged ensures Settled(s', j) {
      if j in s.staged {
        var t :| t in s.attempts && s.attempts[t].job == j && WillUnstage(s, t, j);
        SettledStays(cfg, s, e, s', j);
      } else {
        SettledStays(cfg, s, e, s', j);
      }
    }
    forall t | t in s'.attempts && WillUnstage(s', t, s'.attempts[t].job) ensures Settled(s', s'.attempts[t].job) {
      if t in s.attempts && WillUnstage(s, t, s.attempts[t].job) {
        SettledStays(cfg, s, e, s', s.attempts[t].job);
      }
    }
  }

  lemma {:induction false} RunStaged(cfg: Config, s: State, events: seq<Event>)
    requires StagedInv(s) && Calm(cfg, s, events, SparesInputs)
    ensures StagedInv(Run(cfg, s, events))
    decreases |events|
  {
    if events != [] {
      EventSteps(cfg, s, events[0]);
      EventStaging(cfg, s, events[0]);
      StepStaged(cfg, s, events[0], Apply(cfg, s, events[0]));
      RunStaged(cfg, Apply(cfg, s, events[0]), events[1..]);
    }
  }

  ghost predicate InputsKept(s: State) {
    forall j :: j in s.jobs && s.jobs[j].status in {Pending, Running, Failed, Dead} ==> j in s.staged
  }

  /** Staged inputs are gone only once a job is completed or cancelled, so whatever can be claimed or
      retried still has them. */
  lemma InputsSurvive(cfg: Config, events: seq<Event>)
    requires Calm(cfg, Init(), events, SparesInputs)
    ensures InputsKept(Run(cfg, Init(), events))
  {
    RunStaged(cfg, Init(), events);
  }

  lemma UnstageAfterNote(cfg: Config, s: State, job: JobId, stamp: int) returns (rest: seq<Event>)
    requires !SparesInputs(s, job) && DoNote(cfg, s, job, stamp) != s
    ensures forall e :: e in rest ==> !e.Note?
    ensures !InputsKept(Run(cfg, DoNote(cfg, s, job, stamp), rest))
  {
    var s1 := DoNote(cfg, s, job, stamp);
    rest := [];
    if job in s.staged {
      var t :| t in s.attempts && WillUnstage(s, t, job);
      if s.attempts[t].supervisor == SawJob(true) {
        rest := Then(cfg, s1, [], SupervisorUnstage(t));
      } else {
        rest := Then(cfg, s1, [], ChildUnstage(t));
      }
    }
    assert Run(cfg, s1, rest).jobs == s1.jobs && job !in Run(cfg, s1, rest).staged;
  }

  lemma SafeNoteKeepsInputs(cfg: Config, s: State, job: JobId, stamp: int, rest: seq<Event>)
    requires StagedInv(s) && SparesInputs(s, job) && Calm(cfg, DoNote(cfg, s, job, stamp), rest, SparesInputs)
    ensures InputsKept(Run(cfg, DoNote(cfg, s, job, stamp), rest))
  {
    var e := Note(job, stamp);
    EventSteps(cfg, s, e);
    EventStaging(cfg, s, e);
    StepStaged(cfg, s, e, Apply(cfg, s, e));
    RunStaged(cfg, Apply(cfg, s, e), rest);
  }

  /** After any calm run, a second enqueue write leaves the inputs of every unsettled job in place over
      every calm continuation if and only if it does not land on a completed row whose inputs are gone
      or about to be removed by a process that has made up its mind. */
  lemma InputsExactly(cfg: Config, first: seq<Event>, job: JobId, stamp: int)
    requires Calm(cfg, Init(), first, SparesInputs)
    requires DoNote(cfg, Run(cfg, Init(), first), job, stamp) != Run(cfg, Init(), first)
    ensures var s := Run(cfg, Init(), first);
            var s1 := DoNote(cfg, s, job, stamp);
            (forall rest :: Calm(cfg, s1, rest, SparesInputs) ==> InputsKept(Run(cfg, s1, rest)))
            <==> SparesInputs(s, job)
  {
    var s := Run(cfg, Init(), first);
    var s1 := DoNote(cfg, s, job, stamp);
    RunStaged(cfg, Init(), first);
    if SparesInputs(s, job) {
      forall rest | Calm(cfg, s1, rest, SparesInputs) ensures InputsKept(Run(cfg, s1, rest)) {
        SafeNoteKeepsInputs(cfg, s, job, stamp, rest);
      }
    } else {
      var rest := UnstageAfterNote(cfg, s, job, stamp);
      NoNoteIsCalm(cfg, s1, rest, SparesInputs);
    }
  }

  lemma {:induction false} RunRowsSound(cfg: Config, s: State, events: seq<Event>)
    requires RowsSound(s)
    ensures RowsSound(Run(cfg, s, events))
    decreases |events|
  {
    if events != [] {
      EventSteps(cfg, s, events[0]);
      RowsStaySound(cfg, s, events[0], Apply(cfg, s, events[0]));
      RunRowsSound(cfg, Apply(cfg, s, events[0]), events[1..]);
    }
  }

  /** No job gets stuck in the queue: whatever is queued can be claimed, and still has its inputs. */
  lemma QueuedIsClaimable(cfg: Config, events: seq<Event>)
    requires cfg.lag <= cfg.maxAge
    requires Calm(cfg, Init(), events, SparesCap) && Calm(cfg, Init(), events, SparesInputs)
    ensures var s := Run(cfg, Init(), events);
            forall j :: j in s.jobs && s.jobs[j].status == Pending ==> Claimable(s.jobs[j]) && j in s.staged
  {
    RunRowsSound(cfg, Init(), events);
    RunCap(cfg, Init(), events);
    RunStaged(cfg, Init(), events);
  }

  // ---------------------------------------------------------------- upload directories

  /** Where a process may still touch the directory of its own run, the run is not published. */
  ghost predicate AttemptSound(s: State, t: Token)
    requires t in s.attempts
  {
    var a, run := s.attempts[t], RunOf(s, t);
    && (a.child in {Starting, Ready, Working, Failing, Lost, LostCancelled} ==> run !in s.published)
    && (a.child == Working ==> run in s.uploads)
    && (a.supervisor != Watching ==> a.child == Exited)
    && (a.supervisor == SawRun(true) ==> run !in s.published || run in s.deleted)
  }

  /** Some request that deleted the run has yet to remove its directory. */
  predicate Removing(s: State, r: RunId) {
    exists c :: c in s.removing && c.run == r
  }

  /** Some request that loaded the run has yet to save or delete it. */
  predicate Held(s: State, r: RunId) {
    exists c :: c in s.held && c.run == r
  }

  ghost predicate RunSound(s: State, r: RunId) {
    && r.token in s.attempts && s.attempts[r.token].job == r.job
    && (if r in s.deleted then Removing(s, r) || r !in s.uploads else r in s.runs && r in s.uploads)
  }

  ghost predicate UploadsInv(s: State) {
    && (forall t :: t in s.attempts ==> AttemptSound(s, t))
    && (forall r :: r in s.published ==> RunSound(s, r))
    && (forall r :: r in s.deleted || r in s.runs ==> r in s.published)
    && (forall c :: c in s.held ==> c.run in s.published)
    && (forall c :: c in s.removing ==> c.run in s.deleted)
  }

  /** Nothing of this depends on the job rows, the clock or what was read from the rows. */
  ghost predicate SameFiles(s: State, s': State) {
    && s'.attempts == s.attempts && s'.published == s.published && s'.runs == s.runs
    && s'.deleted == s.deleted && s'.uploads == s.uploads && s'.held == s.held && s'.removing == s.removing
  }

  lemma UploadsFrame(s: State, s': State)
    requires UploadsInv(s) && SameFiles(s, s')
    ensures UploadsInv(s')
  {
    forall t | t in s'.attempts ensures AttemptSound(s', t) {
      assert AttemptSound(s, t) && RunOf(s', t) == RunOf(s, t);
    }
  }

  /** One attempt moves on, and its own directory may come or go. */
  lemma AttemptMoves(s: State, t: Token, a: Attempt, s': State)
    requires UploadsInv(s) && t in s.attempts && a.job == s.attempts[t].job
    requires SameFiles(s.(attempts := s.attempts[t := a], uploads := s'.uploads), s')
    requires forall r :: r != RunOf(s, t) ==> (r in s'.uploads <==> r in s.uploads)
    requires RunOf(s, t) in s.published ==> RunSound(s', RunOf(s, t))
    requires AttemptSound(s', t)
    ensures UploadsInv(s')
  {
    forall u | u in s'.attempts ensures AttemptSound(s', u) {
      assert u != t ==> AttemptSound(s, u) && RunOf(s', u) == RunOf(s, u) && RunOf(s, u) != RunOf(s, t);
    }
    forall r | r in s'.published ensures RunSound(s', r) {
      assert RunSound(s, r);
    }
  }

  lemma ChildWriteUploads(cfg: Config, s: State, e: Event)
    requires UploadsInv(s) && (e.Progress? || e.ChildStart? || e.ChildFail?)
    ensures UploadsInv(Apply(cfg, s, e))
  {
    var s' := Apply(cfg, s, e);
    if SameFiles(s, s') {
      UploadsFrame(s, s');
    } else {
      assert AttemptSound(s, e.token);
      AttemptMoves(s, e.token, s'.attempts[e.token], s');
    }
  }

  lemma ChildFileUploads(cfg: Config, s: State, e: Event)
    requires UploadsInv(s)
    requires e.ChildMakeUploads? || e.ChildReject? || e.ChildCrash? || e.ChildReadStatus? || e.ChildUnstage?
    ensures UploadsInv(Apply(cfg, s, e))
  {
    var s' := Apply(cfg, s, e);
    if SameFiles(s, s') {
      UploadsFrame(s, s');
    } else {
      assert AttemptSound(s, e.token);
      assert RunOf(s, e.token) in s.published ==> RunSound(s, RunOf(s, e.token));
      AttemptMoves(s, e.token, s'.attempts[e.token], s');
    }
  }

  lemma PublishUploads(cfg: Config, s: State, t: Token, stamp: int)
    requires UploadsInv(s)
    ensures UploadsInv(DoChildPublish(cfg, s, t, stamp))
  {
    var s' := DoChildPublish(cfg, s, t, stamp);
    if t in s.attempts {
      assert AttemptSound(s, t);
    }
    if Publishes(cfg, s, ChildPublish(t, stamp)) {
      forall u | u in s'.attempts ensures AttemptSound(s', u) {
        assert AttemptSound(s, u) && RunOf(s', u) == RunOf(s, u) && (u != t ==> RunOf(s, u) != RunOf(s, t));
      }
      forall r | r in s'.published ensures RunSound(s', r) {
        assert r in s.published ==> RunSound(s, r);
      }
    } else if s' != s {
      AttemptMoves(s, t, s'.attempts[t], s');
    }
  }

  lemma WatchUploads(cfg: Config, s: State, e: Event)
    requires UploadsInv(s) && (e.SpawnFailed? || e.Beat? || e.Stop? || e.SupervisorFail?)
    ensures UploadsInv(Apply(cfg, s, e))
  {
    var s' := Apply(cfg, s, e);
    if SameFiles(s, s') {
      UploadsFrame(s, s');
    } else {
      assert AttemptSound(s, e.token);
      assert RunOf(s, e.token) in s.published ==> RunSound(s, RunOf(s, e.token));
      AttemptMoves(s, e.token, s'.attempts[e.token], s');
    }
  }

  lemma CheckUploads(cfg: Config, s: State, e: Event)
    requires UploadsInv(s) && (e.SupervisorReadRun? || e.SupervisorReadJob? || e.SupervisorUnstage?)
    ensures UploadsInv(Apply(cfg, s, e))
  {
    var s' := Apply(cfg, s, e);
    if SameFiles(s, s') {
      UploadsFrame(s, s');
    } else {
      assert AttemptSound(s, e.token);
      assert RunOf(s, e.token) in s.published ==> RunSound(s, RunOf(s, e.token));
      AttemptMoves(s, e.token, s'.attempts[e.token], s');
    }
  }

  lemma SweepUploads(s: State, t: Token)
    requires UploadsInv(s)
    ensures UploadsInv(DoSupervisorSweep(s, t))
  {
    var s' := DoSupervisorSweep(s, t);
    if s' != s {
      assert AttemptSound(s, t);
      AttemptMoves(s, t, s'.attempts[t], s');
    }
  }

  lemma ClaimUploads(cfg: Config, s: State, x: Selection, t: Token, stamp: int)
    requires UploadsInv(s)
    ensures UploadsInv(DoClaim(cfg, s, x, t, stamp))
  {
    var s' := DoClaim(cfg, s, x, t, stamp);
    if s' != s {
      forall u | u in s'.attempts ensures AttemptSound(s', u) {
        assert u != t ==> AttemptSound(s, u) && RunOf(s', u) == RunOf(s, u);
      }
      forall r | r in s'.published ensures RunSound(s', r) {
        assert RunSound(s, r);
      }
    }
  }

  /** Loading a run and saving it again. */
  lemma LoadUploads(cfg: Config, s: State, e: Event)
    requires UploadsInv(s) && (e.LoadRun? || e.Resave?)
    ensures UploadsInv(Apply(cfg, s, e))
  {
    var s' := Apply(cfg, s, e);
    forall u | u in s'.attempts ensures AttemptSound(s', u) {
      assert AttemptSound(s, u) && RunOf(s', u) == RunOf(s, u);
    }
    forall r | r in s'.published ensures RunSound(s', r) {
      assert RunSound(s, r);
    }
  }

  lemma DeleteUploads(s: State, c: Copy)
    requires UploadsInv(s)
    ensures UploadsInv(DoDeleteRun(s, c))
  {
    var s' := DoDeleteRun(s, c);
    forall u | u in s'.attempts ensures AttemptSound(s', u) {
      assert AttemptSound(s, u) && RunOf(s', u) == RunOf(s, u);
    }
    forall r | r in s'.published ensures RunSound(s', r) {
      assert RunSound(s, r);
      assert c in s.held ==> c in s'.removing;
      if Removing(s, r) {
        var d :| d in s.removing && d.run == r;
        assert d in s'.removing;
      }
    }
  }

  lemma RemoveUploads(s: State, c: Copy)
    requires UploadsInv(s)
    ensures UploadsInv(DoRemoveDeletedUploads(s, c))
  {
    var s' := DoRemoveDeletedUploads(s, c);
    forall u | u in s'.attempts ensures AttemptSound(s', u) {
      assert AttemptSound(s, u) && RunOf(s', u) == RunOf(s, u);
    }
    forall r | r in s'.published ensures RunSound(s', r) {
      assert RunSound(s, r);
      if Removing(s, r) && r != c.run {
        var d :| d in s.removing && d.run == r;
        assert d in s'.removing;
      }
    }
  }

  lemma StepUploads(cfg: Config, s: State, e: Event)
    requires UploadsInv(s)
    ensures UploadsInv(Apply(cfg, s, e))
  {
    if e.ChildPublish? {
      PublishUploads(cfg, s, e.token, e.stamp);
    } else if e.Progress? || e.ChildStart? || e.ChildFail? {
      ChildWriteUploads(cfg, s, e);
    } else if ByChild(e) {
      ChildFileUploads(cfg, s, e);
    } else if e.SupervisorSweep? {
      SweepUploads(s, e.token);
    } else if e.SpawnFailed? || e.Beat? || e.Stop? || e.SupervisorFail? {
      WatchUploads(cfg, s, e);
    } else if BySupervisor(e) {
      CheckUploads(cfg, s, e);
    } else if e.Claim? {
      ClaimUploads(cfg, s, e.selection, e.token, e.stamp);
    } else if e.LoadRun? || e.Resave? {
      LoadUploads(cfg, s, e);
    } else if e.DeleteRun? {
      DeleteUploads(s, e.copy);
    } else if e.RemoveDeletedUploads? {
      RemoveUploads(s, e.copy);
    } else {
      UploadsFrame(s, Apply(cfg, s, e));
    }
  }

  lemma {:induction false} RunUploads(cfg: Config, s: State, events: seq<Event>)
    requires UploadsInv(s)
    ensures UploadsInv(Run(cfg, s, events))
    decreases |events|
  {
    if events != [] {
      StepUploads(cfg, s, events[0]);
      RunUploads(cfg, Apply(cfg, s, events[0]), events[1..]);
    }
  }

  /** Over every run: a published run that no request ever deleted is stored and has its directory,
      whatever failing children and supervisors clean up. */
  lemma UploadsSurvive(cfg: Config, events: seq<Event>)
    ensures var s := Run(cfg, Init(), events);
            forall r :: r in s.published && r !in s.deleted ==> r in s.runs && r in s.uploads
  {
    RunUploads(cfg, Init(), events);
    var s := Run(cfg, Init(), events);
    forall r | r in s.published && r !in s.deleted ensures r in s.runs && r in s.uploads {
      assert RunSound(s, r);
    }
  }

  predicate NotDeleting(events: seq<Event>, run: RunId) {
    forall e :: e in events ==> !(e.DeleteRun? && e.copy.run == run)
  }

  lemma {:induction false} NotDeletedStays(cfg: Config, s: State, events: seq<Event>, run: RunId)
    requires run in s.published && run !in s.deleted && NotDeleting(events, run)
    ensures run in Run(cfg, s, events).published && run !in Run(cfg, s, events).deleted
    decreases |events|
  {
    if events != [] {
      RunEvents(cfg, s, events[0], run);
      NotDeletedStays(cfg, Apply(cfg, s, events[0]), events[1..], run);
    }
  }

  /** A deleted run that is not stored and that no request holds. */
  ghost predicate Gone(s: State, run: RunId) {
    run in s.deleted && run !in s.runs && !Held(s, run)
  }

  lemma {:induction false} GoneStaysGone(cfg: Config, s: State, events: seq<Event>, run: RunId)
    requires UploadsInv(s) && Gone(s, run)
    ensures Gone(Run(cfg, s, events), run)
    decreases |events|
  {
    if events != [] {
      RunEvents(cfg, s, events[0], run);
      StepUploads(cfg, s, events[0]);
      assert RunSound(s, run);
      assert AttemptSound(s, run.token);
      GoneStaysGone(cfg, Apply(cfg, s, events[0]), events[1..], run);
    }
  }

  /** What one event does to one run: it is published once, deleted by its deletion only, and stored
      again or held only through a load while it was stored. */
  ghost predicate RunEvent(s: State, e: Event, s': State, run: RunId) {
    && (run in s.published ==> run in s'.published)
    && (run in s.deleted ==> run in s'.deleted)
    && (run in s'.deleted && run !in s.deleted ==> e.DeleteRun? && e.copy.run == run)
    && (Held(s', run) && !Held(s, run) ==> run in s.runs)
    && (run in s'.runs && run !in s.runs ==>
          Held(s, run) || (ChildIs(s, run.token, Working) && RunOf(s, run.token) == run))
  }

  lemma RunFileEvents(cfg: Config, s: State, e: Event, run: RunId)
    requires e.LoadRun? || e.Resave? || e.DeleteRun? || e.RemoveDeletedUploads?
    ensures RunEvent(s, e, Apply(cfg, s, e), run)
  {
  }

  lemma ChildEvents(cfg: Config, s: State, e: Event, run: RunId)
    requires ByChild(e)
    ensures RunEvent(s, e, Apply(cfg, s, e), run)
  {
  }

  ghost predicate SameRuns(s: State, s': State) {
    s'.published == s.published && s'.deleted == s.deleted && s'.held == s.held && s'.runs == s.runs
  }

  lemma WatchEvents(cfg: Config, s: State, e: Event)
    requires e.SpawnFailed? || e.Beat? || e.Stop? || e.SupervisorFail?
    ensures SameRuns(s, Apply(cfg, s, e))
  {
  }

  lemma SweepEvents(cfg: Config, s: State, e: Event)
    requires e.SupervisorReadRun? || e.SupervisorSweep? || e.SupervisorReadJob? || e.SupervisorUnstage?
    ensures SameRuns(s, Apply(cfg, s, e))
  {
  }

  lemma RowEvents(cfg: Config, s: State, e: Event)
    requires !ByChild(e) && !BySupervisor(e)
    requires !e.LoadRun? && !e.Resave? && !e.DeleteRun? && !e.RemoveDeletedUploads?
    ensures SameRuns(s, Apply(cfg, s, e))
  {
  }

  lemma RunEvents(cfg: Config, s: State, e: Event, run: RunId)
    ensures RunEvent(s, e, Apply(cfg, s, e), run)
  {
    if ByChild(e) {
      ChildEvents(cfg, s, e, run);
    } else if e.SpawnFailed? || e.Beat? || e.Stop? || e.SupervisorFail? {
      WatchEvents(cfg, s, e);
    } else if BySupervisor(e) {
      SweepEvents(cfg, s, e);
    } else if e.LoadRun? || e.Resave? || e.DeleteRun? || e.RemoveDeletedUploads? {
      RunFileEvents(cfg, s, e, run);
    } else {
      RowEvents(cfg, s, e);
    }
  }

  /** A stale save brings a deleted run back without its files. */
  lemma ResavedWithoutFiles(cfg: Config, s: State, run: RunId) returns (rest: seq<Event>)
    requires RunSound(s, run) && run in s.deleted && (run in s.runs || Held(s, run))
    ensures NotDeleting(rest, run)
    ensures run in Run(cfg, s, rest).runs && run !in Run(cfg, s, rest).uploads
  {
    rest := RemoveAll(cfg, s, run);
    var s1 := Run(cfg, s, rest);
    if run !in s1.runs {
      var c :| c in s1.held && c.run == run;
      rest := Then(cfg, s, rest, Resave(c));
    }
  }

  lemma RemoveAll(cfg: Config, s: State, run: RunId) returns (rest: seq<Event>)
    requires RunSound(s, run) && run in s.deleted
    ensures NotDeleting(rest, run)
    ensures var s1 := Run(cfg, s, rest); run !in s1.uploads && s1.runs == s.runs && s1.held == s.held
  {
    rest := [];
    if Removing(s, run) {
      var c :| c in s.removing && c.run == run;
      rest := Then(cfg, s, [], RemoveDeletedUploads(c));
    }
  }

  /** A published run has its files for as long as it is stored, over all continuations that do not
      delete it, if and only if it was not deleted before, or is neither stored nor held by a request
      that loaded it before the deletion. */
  lemma UploadsExactly(cfg: Config, first: seq<Event>, run: RunId)
    requires run in Run(cfg, Init(), first).published
    ensures var s := Run(cfg, Init(), first);
            (forall rest :: NotDeleting(rest, run) && run in Run(cfg, s, rest).runs ==>
               run in Run(cfg, s, rest).uploads)
            <==> run !in s.deleted || (run !in s.runs && !Held(s, run))
  {
    var s := Run(cfg, Init(), first);
    RunUploads(cfg, Init(), first);
    assert RunSound(s, run);
    if run !in s.deleted {
      forall rest | NotDeleting(rest, run) ensures run in Run(cfg, s, rest).uploads {
        NotDeletedStays(cfg, s, rest, run);
        RunUploads(cfg, s, rest);
        assert RunSound(Run(cfg, s, rest), run);
      }
    } else if run !in s.runs && !Held(s, run) {
      forall rest ensures run !in Run(cfg, s, rest).runs {
        GoneStaysGone(cfg, s, rest, run);
      }
    } else {
      var rest := ResavedWithoutFiles(cfg, s, run);
    }
  }
}
