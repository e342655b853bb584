/** The attempt cap despite split reads and writes: it holds exactly when no write lands later after
    its clock reading than a running row takes to go stale. */
module JobCap {
  import opened JobRows
  import opened JobProtocol
  import opened JobSteps
  import opened JobRuns

  /** Attempts are capped, and a queued row always has one left. */
  ghost predicate Capped(s: State) {
    forall j :: j in s.jobs ==> CappedRow(s.jobs[j])
  }

  predicate CappedRow(row: JobRow) {
    && row.attempts <= MAX_JOB_ATTEMPTS
    && (row.status == Pending ==> row.attempts < MAX_JOB_ATTEMPTS)
    && (row.status == Dead ==> row.attempts == MAX_JOB_ATTEMPTS)
  }

  /** A reaper that will still find its row stale acts on the row's current attempt count. */
  ghost predicate Current(cfg: Config, s: State, r: Reading) {
    && r.cutoff <= s.now - cfg.maxAge
    && (r.job in s.jobs && Stale(s.jobs[r.job], r.cutoff) ==> s.jobs[r.job].attempts == r.attempts)
  }

  ghost predicate CapInv(cfg: Config, s: State) {
    Known(s) && Capped(s) && forall r :: r in s.readings ==> Current(cfg, s, r)
  }

  /** With writes landing before rows can age, a stamped row is stale for no reaper at work. */
  lemma StampIsFresh(cfg: Config, s: State, row: JobRow, r: Reading)
    requires cfg.lag <= cfg.maxAge && r.cutoff <= s.now - cfg.maxAge && Timely(cfg, s, row.updatedAt)
    ensures !Stale(row, r.cutoff)
  {
  }

  lemma RowStaysCapped(cfg: Config, s: State, e: Event, s': State, j: JobId)
    requires CapInv(cfg, s) && SafeStep(s, e, s', SparesCap)
    requires j in s.jobs && j in s'.jobs && RowStep(cfg, s, e, j, s.jobs[j], s'.jobs[j])
    ensures CappedRow(s'.jobs[j])
  {
    var before, after := s.jobs[j], s'.jobs[j];
    if WasReaped(s, e, j, before, after) {
      assert Current(cfg, s, e.reading);
    } else {
      assert WasNoted(s, e, j, before, after) && after != before ==> SparesCap(s, j);
    }
  }

  lemma ReadingStaysCurrent(cfg: Config, s: State, e: Event, s': State, r: Reading)
    requires cfg.lag <= cfg.maxAge && Known(s) && Step(cfg, s, e, s') && r in s.readings && Current(cfg, s, r)
    ensures Current(cfg, s', r)
  {
    if r.job in s.jobs && r.job in s'.jobs && s'.jobs[r.job].status == Running && s'.jobs[r.job] != s.jobs[r.job] {
      assert RowStep(cfg, s, e, r.job, s.jobs[r.job], s'.jobs[r.job]);
      StampIsFresh(cfg, s, s'.jobs[r.job], r);
    }
  }

  lemma StepCap(cfg: Config, s: State, e: Event, s': State)
    requires cfg.lag <= cfg.maxAge && CapInv(cfg, s) && Step(cfg, s, e, s') && SafeStep(s, e, s', SparesCap)
    ensures CapInv(cfg, s')
  {
    forall j | j in s'.jobs ensures CappedRow(s'.jobs[j]) {
      if j in s.jobs {
        RowStaysCapped(cfg, s, e, s', j);
      }
    }
    forall r | r in s'.readings ensures Current(cfg, s', r) {
      if r in s.readings {
        ReadingStaysCurrent(cfg, s, e, s', r);
      }
    }
  }

  lemma {:induction false} RunCap(cfg: Config, s: State, events: seq<Event>)
    requires cfg.lag <= cfg.maxAge && CapInv(cfg, s) && Calm(cfg, s, events, SparesCap)
    ensures CapInv(cfg, Run(cfg, s, events))
    decreases |events|
  {
    if events != [] {
      EventSteps(cfg, s, events[0]);
      StepCap(cfg, s, events[0], Apply(cfg, s, events[0]));
      RunCap(cfg, Apply(cfg, s, events[0]), events[1..]);
    }
  }

  /** The second enqueue write respects the cap if and only if the row is missing or cancelled or has
      an attempt left. */
  lemma NoteKeepsCapExactly(cfg: Config, s: State, job: JobId, stamp: int)
    requires CapInv(cfg, s) && DoNote(cfg, s, job, stamp) != s
    ensures Capped(DoNote(cfg, s, job, stamp)) <==> SparesCap(s, job)
  {
    var s' := DoNote(cfg, s, job, stamp);
    assert job in s.jobs && s.jobs[job].status != Cancelled ==>
        s'.jobs[job].status == Pending && s'.jobs[job].attempts == s.jobs[job].attempts;
  }

  // ---------------------------------------------------------------- writes that land too late

  predicate ReadBy(cfg: Config, s: State, attempts: nat, reaper: nat) {
    Reading(0, attempts, cfg.lag - cfg.maxAge, reaper) in s.readings
  }

  /** A job that five claimers selected at time 0, after k of them, having read the clock then and
      stalled, have claimed it and it was reaped at once; one more reaper has read each round's row. */
  ghost predicate Round(cfg: Config, s: State, k: nat) {
    && s.now == cfg.lag && (forall c :: k <= c < 5 ==> Selection(0, 0, c) in s.selections)
    && 0 in s.jobs && s.jobs[0].status == Pending && s.jobs[0].attempts == k && !s.jobs[0].cancelRequested
    && (forall t :: t in s.attempts ==> t < k)
    && (k > 0 ==> ReadBy(cfg, s, k, 0))
  }

  /** n claimers have selected the job that was just queued. */
  ghost predicate SelectedBy(s: State, n: nat) {
    && s.now == 0 && (forall c :: 0 <= c < n ==> Selection(0, 0, c) in s.selections) && s.attempts == map[]
    && 0 in s.jobs && s.jobs[0].status == Pending && s.jobs[0].attempts == 0 && !s.jobs[0].cancelRequested
  }

  lemma {:induction false} Selects(cfg: Config, n: nat) returns (events: seq<Event>)
    ensures SelectedBy(Run(cfg, Init(), events), n)
    ensures forall e :: e in events ==> !e.Note?
  {
    if n == 0 {
      events := Then(cfg, Init(), [], Create(0, 0));
    } else {
      var before := Selects(cfg, n - 1);
      events := Then(cfg, Init(), before, Select(0, n - 1));
    }
  }

  lemma FirstRound(cfg: Config) returns (events: seq<Event>)
    ensures Round(cfg, Run(cfg, Init(), events), 0)
    ensures forall e :: e in events ==> !e.Note?
  {
    events := Selects(cfg, 5);
    events := Then(cfg, Init(), events, Tick(cfg.lag));
  }

  /** Claimed by a stalled claimer: stale at once for a reaper that reads now. */
  ghost predicate Claimed(cfg: Config, s: State, k: nat, readers: nat) {
    && s.now == cfg.lag && (forall c :: k < c < 5 ==> Selection(0, 0, c) in s.selections)
    && 0 in s.jobs && Stale(s.jobs[0], cfg.lag - cfg.maxAge) && s.jobs[0].attempts == k + 1
    && !s.jobs[0].cancelRequested
    && (forall t :: t in s.attempts ==> t < k + 1)
    && (readers > 0 ==> ReadBy(cfg, s, k + 1, 0)) && (readers > 1 ==> ReadBy(cfg, s, k + 1, 1))
    && (k > 0 ==> ReadBy(cfg, s, k, 0))
  }

  lemma ClaimStale(cfg: Config, s: State, k: nat)
    requires cfg.lag > cfg.maxAge && k < 5 && Round(cfg, s, k)
    ensures Claimed(cfg, Apply(cfg, s, Claim(Selection(0, 0, k), k, 0)), k, 0)
  {
  }

  lemma ReadClaimed(cfg: Config, s: State, k: nat, readers: nat)
    requires readers < 2 && Claimed(cfg, s, k, readers)
    ensures Claimed(cfg, Apply(cfg, s, ReadStale(0, cfg.lag, readers)), k, readers + 1)
  {
  }

  /** Reaped by one of two readers. */
  lemma ReapClaimed(cfg: Config, s: State, k: nat)
    requires k < 4 && Claimed(cfg, s, k, 2)
    ensures Round(cfg, Apply(cfg, s, Reap(Reading(0, k + 1, cfg.lag - cfg.maxAge, 1), cfg.lag)), k + 1)
  {
  }

  lemma NextRound(cfg: Config, before: seq<Event>, k: nat) returns (events: seq<Event>)
    requires cfg.lag > cfg.maxAge && k < 4 && Round(cfg, Run(cfg, Init(), before), k)
    requires forall e :: e in before ==> !e.Note?
    ensures Round(cfg, Run(cfg, Init(), events), k + 1)
    ensures forall e :: e in events ==> !e.Note?
  {
    var s := Run(cfg, Init(), before);
    var claim, first, second := Claim(Selection(0, 0, k), k, 0), ReadStale(0, cfg.lag, 0), ReadStale(0, cfg.lag, 1);
    var reap := Reap(Reading(0, k + 1, cfg.lag - cfg.maxAge, 1), cfg.lag);
    ClaimStale(cfg, s, k);
    ReadClaimed(cfg, Apply(cfg, s, claim), k, 0);
    ReadClaimed(cfg, Apply(cfg, Apply(cfg, s, claim), first), k, 1);
    ReapClaimed(cfg, Apply(cfg, Apply(cfg, Apply(cfg, s, claim), first), second), k);
    events := ThenFour(cfg, Init(), before, claim, first, second, reap);
  }

  lemma {:induction false} Rounds(cfg: Config, k: nat) returns (events: seq<Event>)
    requires cfg.lag > cfg.maxAge && k <= 4
    ensures Round(cfg, Run(cfg, Init(), events), k)
    ensures forall e :: e in events ==> !e.Note?
  {
    if k == 0 {
      events := FirstRound(cfg);
    } else {
      events := Rounds(cfg, k - 1);
      events := NextRound(cfg, events, k - 1);
    }
  }

  /** If a write can land later than rows take to go stale, some run breaks the cap: claimers that
      selected the job and read the clock, then stalled. */
  lemma SlowWritesBreakCap(cfg: Config) returns (events: seq<Event>)
    requires cfg.lag > cfg.maxAge
    ensures Calm(cfg, Init(), events, SparesCap) && !Capped(Run(cfg, Init(), events))
  {
    var before := Rounds(cfg, 4);
    ClaimStale(cfg, Run(cfg, Init(), before), 4);
    events := Then(cfg, Init(), before, Claim(Selection(0, 0, 4), 4, 0));
    events := Then(cfg, Init(), events, Reap(Reading(0, 4, cfg.lag - cfg.maxAge, 0), cfg.lag));
    assert Run(cfg, Init(), events).jobs[0].attempts == 5 && Run(cfg, Init(), events).jobs[0].status == Pending;
    NoNoteIsCalm(cfg, Init(), events, SparesCap);
  }

  /** Attempts stay within the cap and queued rows stay claimable, over every calm run, if and only
      if no write lands later than the age at which a row counts as stale. */
  lemma AttemptCapExactly(cfg: Config)
    ensures (forall events :: Calm(cfg, Init(), events, SparesCap) ==> Capped(Run(cfg, Init(), events)))
            <==> cfg.lag <= cfg.maxAge
  {
    if cfg.lag <= cfg.maxAge {
      forall events | Calm(cfg, Init(), events, SparesCap)
        ensures Capped(Run(cfg, Init(), events))
      {
        RunCap(cfg, Init(), events);
      }
    } else {
      var events := SlowWritesBreakCap(cfg);
    }
  }
}
