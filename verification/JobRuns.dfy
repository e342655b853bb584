/** Runs of the job protocol: splitting and extending them, and the run of one attempt that publishes. */
module JobRuns {
  import opened Fresh
  import opened JobRows
  import opened JobProtocol

  lemma {:induction false} RunSplits(cfg: Config, s: State, first: seq<Event>, rest: seq<Event>)
    ensures Run(cfg, s, first + rest) == Run(cfg, Run(cfg, s, first), rest)
    decreases |first|
  {
    if first == [] {
      assert first + rest == rest;
    } else {
      assert (first + rest)[1..] == first[1..] + rest;
      RunSplits(cfg, Apply(cfg, s, first[0]), first[1..], rest);
    }
  }

  lemma {:induction false} CalmSplits(cfg: Config, s: State, first: seq<Event>, rest: seq<Event>,
                                      safe: (State, JobId) -> bool)
    ensures Calm(cfg, s, first + rest, safe) <==> Calm(cfg, s, first, safe) && Calm(cfg, Run(cfg, s, first), rest, safe)
    decreases |first|
  {
    if first == [] {
      assert first + rest == rest;
    } else {
      assert (first + rest)[1..] == first[1..] + rest;
      CalmSplits(cfg, Apply(cfg, s, first[0]), first[1..], rest, safe);
    }
  }

  /** Extends a run by one event. */
  lemma Then(cfg: Config, s: State, events: seq<Event>, e: Event) returns (more: seq<Event>)
    ensures more == events + [e]
    ensures Run(cfg, s, more) == Apply(cfg, Run(cfg, s, events), e)
  {
    more := events + [e];
    RunSplits(cfg, s, events, [e]);
    var s1 := Run(cfg, s, events);
    assert Run(cfg, s1, [e]) == Run(cfg, Apply(cfg, s1, e), []);
  }

  lemma RunTwo(cfg: Config, s: State, a: Event, b: Event)
    ensures Run(cfg, s, [a, b]) == Apply(cfg, Apply(cfg, s, a), b)
  {
    var first := Then(cfg, s, [], a);
    var both := Then(cfg, s, first, b);
    assert both == [a, b];
  }

  /** Extends a run by four events. */
  lemma ThenFour(cfg: Config, s: State, events: seq<Event>, a: Event, b: Event, c: Event, d: Event)
    returns (more: seq<Event>)
    ensures more == events + [a, b, c, d]
    ensures Run(cfg, s, more) == Apply(cfg, Apply(cfg, Apply(cfg, Apply(cfg, Run(cfg, s, events), a), b), c), d)
  {
    more := Then(cfg, s, events, a);
    more := Then(cfg, s, more, b);
    more := Then(cfg, s, more, c);
    more := Then(cfg, s, more, d);
    assert more == events + [a, b, c, d];
  }

  /** A run without second enqueue writes is calm in every sense. */
  lemma {:induction false} NoNoteIsCalm(cfg: Config, s: State, events: seq<Event>, safe: (State, JobId) -> bool)
    requires forall e :: e in events ==> !e.Note?
    ensures Calm(cfg, s, events, safe)
    decreases |events|
  {
    if events != [] {
      NoNoteIsCalm(cfg, Apply(cfg, s, events[0]), events[1..], safe);
    }
  }

  /** The two enqueue writes without interruption are safe in every sense. */
  lemma PromptNoteIsHarmless(cfg: Config, s: State, job: JobId, stamp: int)
    requires s.jobs.Keys <= s.queued && job !in s.queued && Timely(cfg, s, stamp)
    ensures var s1 := Apply(cfg, s, Create(job, stamp));
            SparesOne(s1, job) && SparesCompleted(s1, job) && SparesFinal(s1, job) && SparesInputs(s1, job)
            && SparesCap(s1, job)
  {
  }

  /** Tokens are random, so some token is new to the attempts and to the directories. */
  lemma FreshToken(s: State) returns (t: Token)
    ensures t !in s.attempts && forall r :: r in s.uploads ==> r.token != t
  {
    t := NumberAbove(s.attempts.Keys + set r | r in s.uploads :: r.token);
  }

  // ---------------------------------------------------------------- one attempt, from claim to publication

  /** A queued row that a claimer may take: it passes the SELECT now, or a claimer that selected it before
      has yet to try. */
  predicate Takeable(s: State, job: JobId) {
    job in s.jobs && s.jobs[job].status == Pending && !s.jobs[job].cancelRequested
    && (|| s.jobs[job].attempts < MAX_JOB_ATTEMPTS
        || exists x :: x in s.selections && x.job == job && x.at <= s.now)
  }

  /** `s'` is `s` with one more attempt on `job`, whose child has come to `child`. */
  ghost predicate Takes(s: State, job: JobId, t: Token, s': State, child: Child) {
    && job in s.jobs && job in s'.jobs && ChildIs(s', t, child) && s'.attempts[t].job == job
    && s'.attempts[t].supervisor == Watching
    && s'.jobs[job].attempts == s.jobs[job].attempts + 1 && !s'.jobs[job].cancelRequested
    && s'.now == s.now && s'.noted == s.noted && s'.queued == s.queued && s'.selections <= s.selections
    && s'.published == (if child == Published then s.published + [AttemptRun(job, t)] else s.published)
    && s'.uploads == (if child in {Working, Published} then s.uploads + {AttemptRun(job, t)} else s.uploads)
    && (if child == Published then s'.jobs[job].status == Completed else Leased(s', t))
  }

  lemma ClaimTakes(cfg: Config, s: State, x: Selection, t: Token)
    requires x.job in s.jobs && s.jobs[x.job].status == Pending && !s.jobs[x.job].cancelRequested
    requires x in s.selections && x.at <= s.now && t !in s.attempts
    ensures Takes(s, x.job, t, Apply(cfg, s, Claim(x, t, s.now)), Starting)
  {
  }

  lemma SelectAndClaim(cfg: Config, s: State, job: JobId, t: Token)
    requires job in s.jobs && Claimable(s.jobs[job]) && t !in s.attempts
    ensures var s1 := Apply(cfg, s, Select(job, t));
            Takes(s, job, t, Apply(cfg, s1, Claim(Selection(job, s.now, t), t, s.now)), Starting)
  {
    ClaimTakes(cfg, Apply(cfg, s, Select(job, t)), Selection(job, s.now, t), t);
  }

  lemma AttemptStarts(cfg: Config, s: State, job: JobId, t: Token) returns (events: seq<Event>)
    requires Takeable(s, job) && t !in s.attempts
    ensures forall e :: e in events ==> !e.Note?
    ensures Takes(s, job, t, Run(cfg, s, events), Starting)
  {
    if s.jobs[job].attempts < MAX_JOB_ATTEMPTS {
      SelectAndClaim(cfg, s, job, t);
      events := [Select(job, t), Claim(Selection(job, s.now, t), t, s.now)];
      RunTwo(cfg, s, events[0], events[1]);
    } else {
      var x :| x in s.selections && x.job == job && x.at <= s.now;
      ClaimTakes(cfg, s, x, t);
      events := Then(cfg, s, [], Claim(x, t, s.now));
    }
  }

  lemma StartTakes(cfg: Config, s: State, s1: State, job: JobId, t: Token)
    requires Takes(s, job, t, s1, Starting)
    ensures Takes(s, job, t, Apply(cfg, s1, ChildStart(t, s.now)), Ready)
  {
  }

  lemma UploadsTake(cfg: Config, s: State, s1: State, job: JobId, t: Token)
    requires Takes(s, job, t, s1, Ready) && AttemptRun(job, t) !in s.uploads
    ensures Takes(s, job, t, Apply(cfg, s1, ChildMakeUploads(t)), Working)
  {
  }

  lemma PublishTakes(cfg: Config, s: State, s1: State, job: JobId, t: Token)
    requires Takes(s, job, t, s1, Working)
    ensures Takes(s, job, t, Apply(cfg, s1, ChildPublish(t, s.now)), Published)
  {
  }

  /** From any state, whatever can be claimed can be published under a fresh token. */
  lemma AttemptPublishes(cfg: Config, s: State, job: JobId, t: Token) returns (events: seq<Event>)
    requires Takeable(s, job) && t !in s.attempts && AttemptRun(job, t) !in s.uploads
    ensures forall e :: e in events ==> !e.Note?
    ensures Takes(s, job, t, Run(cfg, s, events), Published)
  {
    events := AttemptStarts(cfg, s, job, t);
    StartTakes(cfg, s, Run(cfg, s, events), job, t);
    events := Then(cfg, s, events, ChildStart(t, s.now));
    UploadsTake(cfg, s, Run(cfg, s, events), job, t);
    events := Then(cfg, s, events, ChildMakeUploads(t));
    PublishTakes(cfg, s, Run(cfg, s, events), job, t);
    events := Then(cfg, s, events, ChildPublish(t, s.now));
  }
}
