/** Every interleaving of the processes around one scan_jobs table: API requests, claiming workers,
    the stale-job reaper, scan children and their supervisors. A transaction is one event; a
    process that reads in one statement and writes in another is two events. An event whose guard
    fails changes nothing, so every sequence of events is a run. */
module JobProtocol {
  import opened Options
  import opened JobRows

  /** Where the scan child of one attempt stands (process_job and create_run). */
  datatype Child = Starting | Ready | Working | Failing | Lost | LostCancelled | Published | Exited

  /** Where the supervisor of one attempt stands (supervise). */
  datatype Supervisor = Watching | Ending | SawRun(absent: bool) | SweptUploads | SawJob(settled: bool) | Finished

  datatype Attempt = Attempt(job: JobId, child: Child, supervisor: Supervisor)

  /** One row a claimer's SELECT returned, and when; the claim reads the clock after it. */
  datatype Selection = Selection(job: JobId, at: int, claimer: nat)

  /** One row of the reaper's SELECT, kept until its UPDATE. */
  datatype Reading = Reading(job: JobId, attempts: nat, cutoff: int, reaper: nat)

  /** A run as one request has loaded it. */
  datatype Copy = Copy(run: RunId, request: nat)

  /** `maxAge` is the age after which a running row counts as stale; `lag` bounds how long a process may take
      between reading the clock and its write landing. */
  datatype Config = Config(maxAge: nat, lag: nat)

  datatype State = State(
    now: int,
    jobs: Jobs,
    runs: set<RunId>,             // runs stored now
    published: seq<RunId>,        // every run ever published, oldest first
    deleted: set<RunId>,          // every run some request has deleted
    held: set<Copy>,              // loaded by requests that have yet to save or delete them
    removing: set<Copy>,          // deleted by requests that have yet to remove the directory
    queued: set<JobId>,           // every job id ever created
    noted: set<JobId>,            // jobs whose second enqueue write has happened
    attempts: map<Token, Attempt>,
    selections: set<Selection>,   // rows claimers have selected and not yet tried to claim
    readings: set<Reading>,       // rows reapers have selected and not yet tried to update
    staged: set<JobId>,           // staging directories on disk
    uploads: set<RunId>)          // upload directories on disk

  datatype Event =
    | Tick(elapsed: nat)
    | Create(job: JobId, stamp: int)
    | Note(job: JobId, stamp: int)
    | Select(job: JobId, claimer: nat)
    | Claim(selection: Selection, token: Token, stamp: int)
    | Retry(job: JobId, stamp: int)
    | Cancel(job: JobId, stamp: int)
    | ReadStale(job: JobId, readAt: int, reaper: nat)
    | Reap(reading: Reading, stamp: int)
    | Progress(token: Token, stamp: int)
    | ChildStart(token: Token, stamp: int)
    | ChildMakeUploads(token: Token)
    | ChildReject(token: Token)
    | ChildCrash(token: Token)
    | ChildFail(token: Token, checked: bool, error: string, stamp: int)
    | ChildPublish(token: Token, stamp: int)
    | ChildReadStatus(token: Token)
    | ChildUnstage(token: Token)
    | SpawnFailed(token: Token, stamp: int)
    | Beat(token: Token, stamp: int)
    | Stop(token: Token)
    | SupervisorFail(token: Token, error: string, stamp: int)
    | SupervisorReadRun(token: Token)
    | SupervisorSweep(token: Token)
    | SupervisorReadJob(token: Token)
    | SupervisorUnstage(token: Token)
    | LoadRun(run: RunId, request: nat)
    | Resave(copy: Copy)
    | DeleteRun(copy: Copy)
    | RemoveDeletedUploads(copy: Copy)

  predicate ByChild(e: Event) {
    e.Progress? || e.ChildStart? || e.ChildMakeUploads? || e.ChildReject? || e.ChildCrash? || e.ChildFail?
    || e.ChildPublish? || e.ChildReadStatus? || e.ChildUnstage?
  }

  predicate BySupervisor(e: Event) {
    e.SpawnFailed? || e.Beat? || e.Stop? || e.SupervisorFail? || e.SupervisorReadRun? || e.SupervisorSweep?
    || e.SupervisorReadJob? || e.SupervisorUnstage?
  }

  function Init(): State {
    State(0, map[], {}, [], {}, {}, {}, {}, {}, map[], {}, {}, {}, {})
  }

  function RunOf(s: State, token: Token): RunId
    requires token in s.attempts
  {
    AttemptRun(s.attempts[token].job, token)
  }

  predicate Timely(cfg: Config, s: State, stamp: int) {
    s.now - cfg.lag <= stamp <= s.now
  }

  function WithChild(s: State, token: Token, child: Child): State
    requires token in s.attempts
  {
    s.(attempts := s.attempts[token := s.attempts[token].(child := child)])
  }

  function WithSupervisor(s: State, token: Token, supervisor: Supervisor): State
    requires token in s.attempts
  {
    s.(attempts := s.attempts[token := s.attempts[token].(supervisor := supervisor)])
  }

  /** The child has been stopped, or was never started. */
  function Ended(s: State, token: Token, supervisor: Supervisor): State
    requires token in s.attempts
  {
    s.(attempts := s.attempts[token := s.attempts[token].(child := Exited, supervisor := supervisor)])
  }

  predicate ChildIs(s: State, token: Token, child: Child) {
    token in s.attempts && s.attempts[token].child == child
  }

  predicate SupervisorIs(s: State, token: Token, supervisor: Supervisor) {
    token in s.attempts && s.attempts[token].supervisor == supervisor
  }

  predicate Leased(s: State, token: Token)
    requires token in s.attempts
  {
    Holds(s.jobs, s.attempts[token].job, token)
  }

  /** A leased write by the attempt that holds (or held) `token`. */
  function Write(s: State, token: Token, patch: Patch, stamp: int): State
    requires token in s.attempts
  {
    s.(jobs := LeaseUpdate(s.jobs, s.attempts[token].job, token, patch, stamp))
  }

  function DoCreate(cfg: Config, s: State, job: JobId, stamp: int): State {
    if job !in s.queued && Timely(cfg, s, stamp) then
      s.(jobs := CreateJob(s.jobs, job, stamp), queued := s.queued + {job}, staged := s.staged + {job})
    else s
  }

  /** The second enqueue write. It is a separate transaction, so anything may have happened since. */
  function DoNote(cfg: Config, s: State, job: JobId, stamp: int): State {
    if job in s.queued && job !in s.noted && Timely(cfg, s, stamp) then
      s.(jobs := UpdateJob(s.jobs, job, Pending, None, stamp), noted := s.noted + {job})
    else s
  }

  function DoSelect(s: State, job: JobId, claimer: nat): State {
    if job in s.jobs && Claimable(s.jobs[job]) then
      s.(selections := s.selections + {Selection(job, s.now, claimer)})
    else s
  }

  /** The one UPDATE a claimer issues for the row it selected; whether or not it takes effect, the
      selection is used up. */
  function DoClaim(cfg: Config, s: State, x: Selection, token: Token, stamp: int): State {
    if x in s.selections && x.at <= stamp && Timely(cfg, s, stamp) && token !in s.attempts then
      var s1 := s.(selections := s.selections - {x});
      if x.job in s.jobs && s.jobs[x.job].status == Pending && !s.jobs[x.job].cancelRequested then
        s1.(jobs := ClaimJob(s.jobs, x.job, token, stamp),
            attempts := s.attempts[token := Attempt(x.job, Starting, Watching)])
      else s1
    else s
  }

  function DoReadStale(cfg: Config, s: State, job: JobId, readAt: int, reaper: nat): State {
    var cutoff := readAt - cfg.maxAge;
    if readAt <= s.now && job in s.jobs && Stale(s.jobs[job], cutoff) && !s.jobs[job].cancelRequested then
      s.(readings := s.readings + {Reading(job, s.jobs[job].attempts, cutoff, reaper)})
    else s
  }

  function DoReap(cfg: Config, s: State, r: Reading, stamp: int): State {
    if r in s.readings && Timely(cfg, s, stamp) then
      s.(jobs := ReapJob(s.jobs, r.job, r.attempts, r.cutoff, stamp), readings := s.readings - {r})
    else s
  }

  function DoChildStart(cfg: Config, s: State, token: Token, stamp: int): State {
    if ChildIs(s, token, Starting) && Timely(cfg, s, stamp) then
      if Leased(s, token) then WithChild(Write(s, token, Patch(Some(Running), None), stamp), token, Ready)
      else WithChild(s, token, Lost)
    else s
  }

  function DoChildMakeUploads(s: State, token: Token): State {
    if ChildIs(s, token, Ready) then
      if RunOf(s, token) in s.uploads then WithChild(s, token, Failing)
      else WithChild(s, token, Working).(uploads := s.uploads + {RunOf(s, token)})
    else s
  }

  function DoChildReject(s: State, token: Token): State {
    if ChildIs(s, token, Working) then
      WithChild(s, token, Failing).(uploads := s.uploads - {RunOf(s, token)})
    else s
  }

  function DoChildCrash(s: State, token: Token): State {
    if ChildIs(s, token, Ready) || ChildIs(s, token, Working) then WithChild(s, token, Failing) else s
  }

  function DoChildFail(cfg: Config, s: State, token: Token, checked: bool, error: string, stamp: int): State {
    if ChildIs(s, token, Failing) && Timely(cfg, s, stamp) then
      if Leased(s, token) then WithChild(Write(s, token, Failure(error), stamp), token, Exited)
      else WithChild(s, token, if checked then Lost else Exited)
    else s
  }

  /** The publication transaction, and the clean-up of its own upload directory when the fence fails. */
  function DoChildPublish(cfg: Config, s: State, token: Token, stamp: int): State {
    if ChildIs(s, token, Working) && Timely(cfg, s, stamp) then
      var run := RunOf(s, token);
      if Leased(s, token) then
        WithChild(s, token, Published).(
          jobs := CompleteJob(s.jobs, run, stamp),
          runs := s.runs + {run},
          published := s.published + [run])
      else WithChild(s, token, Lost).(uploads := s.uploads - {run})
    else s
  }

  function DoChildReadStatus(s: State, token: Token): State {
    if ChildIs(s, token, Lost) then
      var job := s.attempts[token].job;
      WithChild(s, token, if job in s.jobs && s.jobs[job].status == Cancelled then LostCancelled else Exited)
    else s
  }

  function DoChildUnstage(s: State, token: Token): State {
    if ChildIs(s, token, Published) || ChildIs(s, token, LostCancelled) then
      WithChild(s, token, Exited).(staged := s.staged - {s.attempts[token].job})
    else s
  }

  function DoSpawnFailed(cfg: Config, s: State, token: Token, stamp: int): State {
    if ChildIs(s, token, Starting) && SupervisorIs(s, token, Watching) && Timely(cfg, s, stamp) then
      Ended(Write(s, token, Failure("WORKER_START_FAILED"), stamp), token, Finished)
    else s
  }

  /** A heartbeat; a refused one stops the child and leaves the loop. */
  function DoBeat(cfg: Config, s: State, token: Token, stamp: int): State {
    if SupervisorIs(s, token, Watching) && Timely(cfg, s, stamp) then
      if Leased(s, token) then Write(s, token, TOUCH, stamp)
      else Ended(s, token, Ending)
    else s
  }

  function DoStop(s: State, token: Token): State {
    if SupervisorIs(s, token, Watching) then Ended(s, token, Ending) else s
  }

  function DoSupervisorFail(cfg: Config, s: State, token: Token, error: string, stamp: int): State {
    if SupervisorIs(s, token, Ending) && Timely(cfg, s, stamp) then Write(s, token, Failure(error), stamp) else s
  }

  function DoSupervisorReadRun(s: State, token: Token): State {
    if SupervisorIs(s, token, Ending) then WithSupervisor(s, token, SawRun(RunOf(s, token) !in s.runs)) else s
  }

  function DoSupervisorSweep(s: State, token: Token): State {
    if token in s.attempts && s.attempts[token].supervisor.SawRun? then
      var gone := if s.attempts[token].supervisor.absent then {RunOf(s, token)} else {};
      WithSupervisor(s, token, SweptUploads).(uploads := s.uploads - gone)
    else s
  }

  function DoSupervisorReadJob(s: State, token: Token): State {
    if SupervisorIs(s, token, SweptUploads) then
      var job := s.attempts[token].job;
      WithSupervisor(s, token, SawJob(job in s.jobs && s.jobs[job].status in {Cancelled, Completed}))
    else s
  }

  function DoSupervisorUnstage(s: State, token: Token): State {
    if token in s.attempts && s.attempts[token].supervisor.SawJob? then
      var gone := if s.attempts[token].supervisor.settled then {s.attempts[token].job} else {};
      WithSupervisor(s, token, Finished).(staged := s.staged - gone)
    else s
  }

  /** A request loads a run, to save it again or to delete it. */
  function DoLoadRun(s: State, run: RunId, request: nat): State {
    if run in s.runs then s.(held := s.held + {Copy(run, request)}) else s
  }

  /** An unconditional save of a loaded run. It is an upsert, so it brings back a run that was deleted
      since. */
  function DoResave(s: State, c: Copy): State {
    if c in s.held then s.(runs := s.runs + {c.run}, held := s.held - {c}) else s
  }

  /** Deleting a loaded run; removing its directory is the request's next step. */
  function DoDeleteRun(s: State, c: Copy): State {
    if c in s.held then
      s.(jobs := s.jobs - JobsOfRun(s.jobs, c.run), runs := s.runs - {c.run}, held := s.held - {c},
         deleted := s.deleted + {c.run}, removing := s.removing + {c})
    else s
  }

  function DoRemoveDeletedUploads(s: State, c: Copy): State {
    if c in s.removing then s.(uploads := s.uploads - {c.run}, removing := s.removing - {c}) else s
  }

  function Apply(cfg: Config, s: State, e: Event): State {
    match e
    case Tick(d) => s.(now := s.now + d)
    case Create(j, stamp) => DoCreate(cfg, s, j, stamp)
    case Note(j, stamp) => DoNote(cfg, s, j, stamp)
    case Select(j, claimer) => DoSelect(s, j, claimer)
    case Claim(x, t, stamp) => DoClaim(cfg, s, x, t, stamp)
    case Retry(j, stamp) => if Timely(cfg, s, stamp) then s.(jobs := RetryJob(s.jobs, j, stamp)) else s
    case Cancel(j, stamp) => if Timely(cfg, s, stamp) then s.(jobs := CancelJob(s.jobs, j, stamp)) else s
    case ReadStale(j, readAt, reaper) => DoReadStale(cfg, s, j, readAt, reaper)
    case Reap(r, stamp) => DoReap(cfg, s, r, stamp)
    case Progress(t, stamp) => if t in s.attempts && Timely(cfg, s, stamp) then Write(s, t, TOUCH, stamp) else s
    case ChildStart(t, stamp) => DoChildStart(cfg, s, t, stamp)
    case ChildMakeUploads(t) => DoChildMakeUploads(s, t)
    case ChildReject(t) => DoChildReject(s, t)
    case ChildCrash(t) => DoChildCrash(s, t)
    case ChildFail(t, checked, error, stamp) => DoChildFail(cfg, s, t, checked, error, stamp)
    case ChildPublish(t, stamp) => DoChildPublish(cfg, s, t, stamp)
    case ChildReadStatus(t) => DoChildReadStatus(s, t)
    case ChildUnstage(t) => DoChildUnstage(s, t)
    case SpawnFailed(t, stamp) => DoSpawnFailed(cfg, s, t, stamp)
    case Beat(t, stamp) => DoBeat(cfg, s, t, stamp)
    case Stop(t) => DoStop(s, t)
    case SupervisorFail(t, error, stamp) => DoSupervisorFail(cfg, s, t, error, stamp)
    case SupervisorReadRun(t) => DoSupervisorReadRun(s, t)
    case SupervisorSweep(t) => DoSupervisorSweep(s, t)
    case SupervisorReadJob(t) => DoSupervisorReadJob(s, t)
    case SupervisorUnstage(t) => DoSupervisorUnstage(s, t)
    case LoadRun(run, request) => DoLoadRun(s, run, request)
    case Resave(c) => DoResave(s, c)
    case DeleteRun(c) => DoDeleteRun(s, c)
    case RemoveDeletedUploads(c) => DoRemoveDeletedUploads(s, c)
  }

  function Run(cfg: Config, s: State, events: seq<Event>): State
    decreases |events|
  {
    if events == [] then s else Run(cfg, Apply(cfg, s, events[0]), events[1..])
  }

  // ---------------------------------------------------------------- when the second enqueue write is safe

  /** Some claimer has selected the row and not yet tried to claim it. */
  predicate Selected(s: State, job: JobId) {
    exists x :: x in s.selections && x.job == job
  }

  /** A completed row that would be claimed once it is queued again. */
  predicate Reopens(s: State, job: JobId) {
    job in s.jobs && s.jobs[job].status == Completed
    && (s.jobs[job].attempts < MAX_JOB_ATTEMPTS || Selected(s, job))
  }

  /** Safe for single publication. */
  predicate SparesOne(s: State, job: JobId) {
    !Reopens(s, job)
  }

  /** Safe for "never both published and cancelled". */
  predicate SparesCompleted(s: State, job: JobId) {
    job in s.jobs ==> s.jobs[job].status != Completed
  }

  /** Safe for absorption of final statuses; the statement itself protects cancelled rows. */
  predicate SparesFinal(s: State, job: JobId) {
    job in s.jobs ==> s.jobs[job].status !in {Completed, Dead}
  }

  /** A process that will remove the staged inputs of its job without looking again. */
  predicate WillUnstage(s: State, token: Token, job: JobId) {
    token in s.attempts && s.attempts[token].job == job
    && (s.attempts[token].child in {Published, LostCancelled} || s.attempts[token].supervisor == SawJob(true))
  }

  /** Safe for staged inputs. */
  predicate SparesInputs(s: State, job: JobId) {
    job in s.jobs && s.jobs[job].status == Completed ==>
      job in s.staged && forall t :: t in s.attempts ==> !WillUnstage(s, t, job)
  }

  /** Safe for the attempt cap. */
  predicate SparesCap(s: State, job: JobId) {
    job in s.jobs ==> s.jobs[job].status == Cancelled || s.jobs[job].attempts < MAX_JOB_ATTEMPTS
  }

  /** Every second enqueue write of a run lands where it is safe. */
  predicate Calm(cfg: Config, s: State, events: seq<Event>, safe: (State, JobId) -> bool)
    decreases |events|
  {
    events != [] ==>
      && (events[0].Note? && Apply(cfg, s, events[0]) != s ==> safe(s, events[0].job))
      && Calm(cfg, Apply(cfg, s, events[0]), events[1..], safe)
  }
}
