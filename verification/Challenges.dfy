/** One-time codes: reservation with a cooldown, delivery, and guesses, as conditional writes on two
    tables. Times are microseconds. */
module Challenges {
  import opened Options
  import opened Times

  const OTP_SECONDS := 300
  const RESEND_SECONDS := 60
  const MAX_GUESSES := 5

  type Id = nat
  type Identifier = string

  datatype Challenge = Challenge(
    identifier: Identifier,
    codeDigest: string,
    attempts: nat,
    delivered: bool,
    expiresAt: int,
    createdAt: int,
    consumedAt: Option<int>)

  datatype Tables = Tables(challenges: map<Id, Challenge>, guards: map<Identifier, int>)

  datatype Verdict = Locked | Expired | Incorrect | Verified(identifier: Identifier)

  predicate Cooling(db: Tables, x: Identifier, now: int, cooldown: nat) {
    x in db.guards && db.guards[x] > now - cooldown * SECOND
  }

  function NewChallenge(x: Identifier, codeDigest: string, now: int): Challenge {
    Challenge(x, codeDigest, 0, false, now + OTP_SECONDS * SECOND, now, None)
  }

  /** Every earlier open challenge of the identifier is consumed. */
  function Supersede(challenges: map<Id, Challenge>, x: Identifier, now: int): map<Id, Challenge> {
    map id | id in challenges ::
      if challenges[id].identifier == x && challenges[id].consumedAt.None?
      then challenges[id].(consumedAt := Some(now)) else challenges[id]
  }

  function PruneChallenges(challenges: map<Id, Challenge>, stale: int): map<Id, Challenge> {
    map id | id in challenges && challenges[id].createdAt >= stale :: challenges[id]
  }

  function PruneGuards(guards: map<Identifier, int>, stale: int): map<Identifier, int> {
    map x | x in guards && guards[x] >= stale :: guards[x]
  }

  function Reserved(db: Tables, id: Id, x: Identifier, codeDigest: string, now: int, cooldown: nat): Tables {
    if Cooling(db, x, now, cooldown) then db
    else Tables(
      PruneChallenges(Supersede(db.challenges, x, now)[id := NewChallenge(x, codeDigest, now)], now - DAY),
      PruneGuards(db.guards[x := now], now - DAY))
  }

  function Marked(db: Tables, id: Id, successful: bool, now: int): Tables {
    if id !in db.challenges then db
    else
      var c := db.challenges[id];
      db.(challenges := db.challenges[id := if successful then c.(delivered := true) else c.(consumedAt := Some(now))])
  }

  /** A guess is compared only against an open, delivered, unexpired challenge with guesses left. */
  predicate Guessable(db: Tables, id: Id, now: int) {
    id in db.challenges
    && var c := db.challenges[id];
       c.expiresAt > now && c.consumedAt.None? && c.delivered && c.attempts < MAX_GUESSES
  }

  function Guessed(db: Tables, id: Id, submitted: string, now: int): Tables {
    if !Guessable(db, id, now) then db
    else
      var c := db.challenges[id].(attempts := db.challenges[id].attempts + 1);
      db.(challenges := db.challenges[id := if c.codeDigest == submitted then c.(consumedAt := Some(now)) else c])
  }

  function Judge(db: Tables, id: Id, submitted: string, now: int): Verdict {
    if !Guessable(db, id, now) then
      (if id in db.challenges && db.challenges[id].attempts >= MAX_GUESSES then Locked else Expired)
    else if db.challenges[id].codeDigest == submitted then Verified(db.challenges[id].identifier)
    else if db.challenges[id].attempts + 1 >= MAX_GUESSES then Locked
    else Incorrect
  }

  class ChallengeStore {
    var db: Tables

    constructor ()
      ensures db == Tables(map[], map[])
    {
      db := Tables(map[], map[]);
    }

    /** Zero after reserving, otherwise the seconds to wait. */
    method Reserve(id: Id, x: Identifier, codeDigest: string, now: int, cooldown: nat) returns (retry: int)
      modifies this
      ensures db == Reserved(old(db), id, x, codeDigest, now, cooldown)
      ensures retry == 0 <==> !Cooling(old(db), x, now, cooldown)
      ensures retry != 0 ==> retry == RetryAfter(cooldown, now - old(db).guards[x]) && db == old(db)
      ensures retry == 0 ==>
                && x in db.guards && db.guards[x] == now
                && id in db.challenges && db.challenges[id].identifier == x && !Guessable(db, id, now)
                && (forall k :: k in db.challenges && k != id && db.challenges[k].identifier == x ==>
                      db.challenges[k].consumedAt.Some?)
                && (forall k :: k in old(db).challenges && k != id && old(db).challenges[k].identifier != x ==>
                      if old(db).challenges[k].createdAt < now - DAY then k !in db.challenges
                      else k in db.challenges && db.challenges[k] == old(db).challenges[k])
                && (forall y :: y in old(db).guards && y != x ==>
                      if old(db).guards[y] < now - DAY then y !in db.guards
                      else y in db.guards && db.guards[y] == old(db).guards[y])
    {
      if x in db.guards && !(db.guards[x] <= now - cooldown * SECOND) {
        return Max(1, WholeSeconds(cooldown * SECOND - (now - db.guards[x])) + 1);
      }
      db := db.(guards := db.guards[x := now]);
      db := db.(challenges := Supersede(db.challenges, x, now));
      db := db.(challenges := db.challenges[id := NewChallenge(x, codeDigest, now)]);
      var stale := now - DAY;
      db := db.(challenges := PruneChallenges(db.challenges, stale));
      db := db.(guards := PruneGuards(db.guards, stale));
      return 0;
    }

    /** A delivery report touches no other challenge and no cooldown. Success lets guesses at an open
        challenge be compared and revives no consumed one; failure ends the challenge. */
    method MarkDelivery(id: Id, successful: bool, now: int)
      modifies this
      ensures db.guards == old(db).guards && db.challenges.Keys == old(db).challenges.Keys
      ensures forall k :: k in db.challenges && k != id ==> db.challenges[k] == old(db).challenges[k]
      ensures successful ==> forall t :: Guessable(db, id, t) <==>
                id in old(db).challenges && old(db).challenges[id].consumedAt.None?
                && old(db).challenges[id].expiresAt > t && old(db).challenges[id].attempts < MAX_GUESSES
      ensures !successful ==> forall t :: !Guessable(db, id, t)
      ensures db == Marked(old(db), id, successful, now)
    {
      if id in db.challenges {
        var c := db.challenges[id];
        db := db.(challenges := db.challenges[id := if successful then c.(delivered := true)
                                                    else c.(consumedAt := Some(now))]);
      }
    }

    /** A guess at an open challenge is counted. It is answered Verified exactly when the digest is right,
        and then the challenge is used up; a wrong one is Incorrect while guesses are left and Locked
        when none is; everything else is Expired. */
    method Verify(id: Id, submitted: string, now: int) returns (verdict: Verdict)
      modifies this
      ensures db.guards == old(db).guards && db.challenges.Keys == old(db).challenges.Keys
      ensures forall k :: k in db.challenges && k != id ==> db.challenges[k] == old(db).challenges[k]
      ensures forall x :: verdict == Verified(x) <==>
                Guessable(old(db), id, now) && old(db).challenges[id].codeDigest == submitted
                && old(db).challenges[id].identifier == x
      ensures verdict == Incorrect <==>
                Guessable(old(db), id, now) && old(db).challenges[id].codeDigest != submitted
                && old(db).challenges[id].attempts + 1 < MAX_GUESSES
      ensures verdict == Locked <==>
                id in old(db).challenges && db.challenges[id].attempts >= MAX_GUESSES
                && !(Guessable(old(db), id, now) && old(db).challenges[id].codeDigest == submitted)
      ensures Guessable(old(db), id, now) ==>
                db.challenges[id] == old(db).challenges[id].(attempts := old(db).challenges[id].attempts + 1,
                  consumedAt := if verdict.Verified? then Some(now) else None)
      ensures !Guessable(old(db), id, now) ==> db == old(db)
      ensures db == Guessed(old(db), id, submitted, now)
      ensures verdict == Judge(old(db), id, submitted, now)
    {
      if !Guessable(db, id, now) {
        return if id in db.challenges && db.challenges[id].attempts >= MAX_GUESSES then Locked else Expired;
      }
      var snapshot := db.challenges[id].(attempts := db.challenges[id].attempts + 1);
      db := db.(challenges := db.challenges[id := snapshot]);
      if snapshot.codeDigest != submitted {
        return if snapshot.attempts >= MAX_GUESSES then Locked else Incorrect;
      }
      if db.challenges[id].consumedAt.Some? || db.challenges[id].attempts != snapshot.attempts {
        return Expired;
      }
      db := db.(challenges := db.challenges[id := snapshot.(consumedAt := Some(now))]);
      return Verified(snapshot.identifier);
    }
  }

  /** Waiting as long as the answer says gets the next request for the identifier accepted. */
  lemma RetryIsEnough(db: Tables, x: Identifier, now: int, cooldown: nat, later: int)
    requires Cooling(db, x, now, cooldown)
    requires later >= now + RetryAfter(cooldown, now - db.guards[x]) * SECOND
    ensures !Cooling(db, x, later, cooldown)
  {
  }

  /** And it is not much longer than needed: a request more than a second earlier is still refused. */
  lemma RetryIsTight(db: Tables, x: Identifier, now: int, cooldown: nat, earlier: int)
    requires Cooling(db, x, now, cooldown)
    requires earlier < now + (RetryAfter(cooldown, now - db.guards[x]) - 1) * SECOND
    ensures Cooling(db, x, earlier, cooldown)
  {
  }

  // ---------------------------------------------------------------- all interleavings

  datatype Entry = Opened(x: Identifier, id: Id, at: int) | Compared(x: Identifier, id: Id, at: int, right: bool)

  /** `log` is the history of reservations and comparisons, `used` every challenge id handed out. */
  datatype State = State(now: int, db: Tables, log: seq<Entry>, used: set<Id>)

  datatype Event =
    | Tick(elapsed: nat)
    | Request(id: Id, x: Identifier, codeDigest: string)
    | Deliver(id: Id, successful: bool)
    | Guess(id: Id, submitted: string)

  function Init(): State {
    State(0, Tables(map[], map[]), [], {})
  }

  function DoRequest(s: State, id: Id, x: Identifier, codeDigest: string): State {
    if id in s.used || Cooling(s.db, x, s.now, RESEND_SECONDS) then s
    else s.(db := Reserved(s.db, id, x, codeDigest, s.now, RESEND_SECONDS),
            log := s.log + [Opened(x, id, s.now)], used := s.used + {id})
  }

  function DoGuess(s: State, id: Id, submitted: string): State {
    if !Guessable(s.db, id, s.now) then s
    else
      var c := s.db.challenges[id];
      s.(db := Guessed(s.db, id, submitted, s.now),
         log := s.log + [Compared(c.identifier, id, s.now, c.codeDigest == submitted)])
  }

  function Apply(s: State, e: Event): State {
    match e
    case Tick(d) => s.(now := s.now + d)
    case Request(id, x, codeDigest) => DoRequest(s, id, x, codeDigest)
    case Deliver(id, successful) => s.(db := Marked(s.db, id, successful, s.now))
    case Guess(id, submitted) => DoGuess(s, id, submitted)
  }

  function Run(s: State, events: seq<Event>): State
    decreases |events|
  {
    if events == [] then s else Run(Apply(s, events[0]), events[1..])
  }

  // ---------------------------------------------------------------- reading the history

  /** The newest reservation of an identifier. */
  function Newest(log: seq<Entry>, x: Identifier): Option<Entry> {
    if log == [] then None
    else
      var last := log[|log| - 1];
      if last.Opened? && last.x == x then Some(last) else Newest(log[..|log| - 1], x)
  }

  /** Comparisons for an identifier since its newest reservation. */
  function Since(log: seq<Entry>, x: Identifier): nat {
    if log == [] then 0
    else
      var last, front := log[|log| - 1], log[..|log| - 1];
      if last.x != x then Since(front, x) else if last.Opened? then 0 else 1 + Since(front, x)
  }

  /** Comparisons against one challenge. */
  function Guesses(log: seq<Entry>, id: Id): nat {
    if log == [] then 0
    else Guesses(log[..|log| - 1], id) + if log[|log| - 1].Compared? && log[|log| - 1].id == id then 1 else 0
  }

  function Successes(log: seq<Entry>, id: Id): nat {
    if log == [] then 0
    else
      var last := log[|log| - 1];
      Successes(log[..|log| - 1], id) + if last.Compared? && last.id == id && last.right then 1 else 0
  }

  function GuessesBetween(log: seq<Entry>, x: Identifier, a: int, b: int): nat {
    if log == [] then 0
    else
      var last := log[|log| - 1];
      GuessesBetween(log[..|log| - 1], x, a, b) + if last.Compared? && last.x == x && a <= last.at <= b then 1 else 0
  }

  function OpenedBetween(log: seq<Entry>, x: Identifier, a: int, b: int): nat {
    if log == [] then 0
    else
      var last := log[|log| - 1];
      OpenedBetween(log[..|log| - 1], x, a, b) + if last.Opened? && last.x == x && a <= last.at <= b then 1 else 0
  }

  /** A history in time order whose reservations keep the cooldown and are each followed by at most
      MAX_GUESSES comparisons. */
  ghost predicate Paced(log: seq<Entry>)
    decreases |log|
  {
    log != [] ==>
      var last, front := log[|log| - 1], log[..|log| - 1];
      && Paced(front)
      && (forall e :: e in front ==> e.at <= last.at)
      && (last.Opened? && Newest(front, last.x).Some? ==>
            Newest(front, last.x).value.at + RESEND_SECONDS * SECOND <= last.at)
      && Since(log, last.x) <= MAX_GUESSES
  }

  lemma {:induction false} NothingEarlier(log: seq<Entry>, x: Identifier, a: int, b: int)
    requires forall e :: e in log ==> e.at < a
    ensures GuessesBetween(log, x, a, b) == 0 && OpenedBetween(log, x, a, b) == 0
    decreases |log|
  {
    if log != [] {
      NothingEarlier(log[..|log| - 1], x, a, b);
    }
  }

  lemma {:induction false} SinceBounded(log: seq<Entry>, x: Identifier)
    requires Paced(log)
    ensures Since(log, x) <= MAX_GUESSES
    decreases |log|
  {
    if log != [] {
      SinceBounded(log[..|log| - 1], x);
    }
  }

  /** Each reservation in an interval accounts for five comparisons, the newest one before it for the
      rest. */
  lemma {:induction false} GuessesPerOpening(log: seq<Entry>, x: Identifier, a: int, b: int)
    requires Paced(log)
    ensures GuessesBetween(log, x, a, b) <= MAX_GUESSES * OpenedBetween(log, x, a, b) + MAX_GUESSES
    ensures (forall e :: e in log ==> e.at <= b) ==>
              GuessesBetween(log, x, a, b) <= MAX_GUESSES * OpenedBetween(log, x, a, b) + Since(log, x)
    decreases |log|
  {
    if log != [] {
      var last, front := log[|log| - 1], log[..|log| - 1];
      GuessesPerOpening(front, x, a, b);
      SinceBounded(front, x);
      SinceBounded(log, x);
      if last.Opened? && last.x == x && last.at < a {
        NothingEarlier(log, x, a, b);
      }
      assert last in log;
      if last.at <= b {
        assert forall e :: e in front ==> e.at <= b;
        assert forall e :: e in log ==> e in front || e == last;
      }
    }
  }

  lemma {:induction false} NewestIsLast(log: seq<Entry>, x: Identifier)
    ensures Newest(log, x).Some? ==>
              Newest(log, x).value in log && Newest(log, x).value.Opened? && Newest(log, x).value.x == x
    decreases |log|
  {
    if log != [] {
      NewestIsLast(log[..|log| - 1], x);
    }
  }

  /** Reservations in an interval are a cooldown apart. */
  lemma {:induction false} OpeningsSpread(log: seq<Entry>, x: Identifier, a: int, b: int) returns (newest: int)
    requires Paced(log)
    ensures OpenedBetween(log, x, a, b) > 0 ==>
              && a <= newest <= b
              && RESEND_SECONDS * SECOND * (OpenedBetween(log, x, a, b) - 1) <= newest - a
              && Newest(log, x).Some? && newest <= Newest(log, x).value.at
    decreases |log|
  {
    newest := a;
    if log != [] {
      var last, front := log[|log| - 1], log[..|log| - 1];
      newest := OpeningsSpread(front, x, a, b);
      if last.Opened? && last.x == x && a <= last.at <= b {
        newest := last.at;
      } else if last.Opened? && last.x == x {
        NewestIsLast(front, x);
      }
    }
  }

  /** Any interval of T seconds compares at most 5 * (T / 60 + 2) guesses for one identifier. */
  lemma GuessRate(log: seq<Entry>, x: Identifier, from: int, seconds: nat)
    requires Paced(log)
    ensures GuessesBetween(log, x, from, from + seconds * SECOND) <= MAX_GUESSES * (seconds / RESEND_SECONDS + 2)
  {
    var to := from + seconds * SECOND;
    GuessesPerOpening(log, x, from, to);
    var newest := OpeningsSpread(log, x, from, to);
    var openings := OpenedBetween(log, x, from, to);
    if openings > 0 {
      assert RESEND_SECONDS * (openings - 1) <= seconds;
      assert openings - 1 <= seconds / RESEND_SECONDS;
    }
  }

  // ---------------------------------------------------------------- the invariant

  ghost predicate ChallengesSound(s: State) {
    forall id :: id in s.db.challenges ==>
      var c := s.db.challenges[id];
      && id in s.used
      && c.attempts == Guesses(s.log, id)
      && (c.consumedAt.None? ==>
            && Newest(s.log, c.identifier).Some? && Newest(s.log, c.identifier).value.id == id
            && c.attempts == Since(s.log, c.identifier)
            && Successes(s.log, id) == 0)
  }

  ghost predicate GuardsSound(s: State) {
    forall x :: Newest(s.log, x).Some? || x in s.db.guards ==>
      && Newest(s.log, x).Some?
      && (x in s.db.guards ==> s.db.guards[x] == Newest(s.log, x).value.at)
      && (x !in s.db.guards ==> Newest(s.log, x).value.at < s.now - DAY)
  }

  ghost predicate HistorySound(s: State) {
    && Paced(s.log)
    && (forall e :: e in s.log ==> e.at <= s.now && e.id in s.used)
    && (forall id :: Guesses(s.log, id) <= MAX_GUESSES && Successes(s.log, id) <= 1)
  }

  ghost predicate Inv(s: State) {
    ChallengesSound(s) && GuardsSound(s) && HistorySound(s)
  }

  lemma Appended(log: seq<Entry>, e: Entry)
    ensures (log + [e])[..|log|] == log && (log + [e])[|log|] == e
    ensures forall x :: Newest(log + [e], x) == if e.Opened? && e.x == x then Some(e) else Newest(log, x)
    ensures forall x :: Since(log + [e], x) ==
                        if e.x != x then Since(log, x) else if e.Opened? then 0 else 1 + Since(log, x)
    ensures forall id :: Guesses(log + [e], id) == Guesses(log, id) + if e.Compared? && e.id == id then 1 else 0
    ensures forall id ::
              Successes(log + [e], id) == Successes(log, id) + if e.Compared? && e.id == id && e.right then 1 else 0
  {
    assert (log + [e])[..|log|] == log;
  }

  lemma {:induction false} UnusedIsUnguessed(log: seq<Entry>, id: Id)
    requires forall e :: e in log ==> e.id != id
    ensures Guesses(log, id) == 0 && Successes(log, id) == 0
    decreases |log|
  {
    if log != [] {
      UnusedIsUnguessed(log[..|log| - 1], id);
    }
  }

  lemma RequestKeeps(s: State, id: Id, x: Identifier, codeDigest: string)
    requires Inv(s)
    ensures Inv(DoRequest(s, id, x, codeDigest))
  {
    var s' := DoRequest(s, id, x, codeDigest);
    if s' != s {
      var e := Opened(x, id, s.now);
      Appended(s.log, e);
      UnusedIsUnguessed(s.log, id);
      NewestIsLast(s.log, x);
      assert Paced(s'.log) by {
        assert s'.log[..|s'.log| - 1] == s.log;
      }
      assert ChallengesSound(s');
    }
  }

  lemma GuessKeeps(s: State, id: Id, submitted: string)
    requires Inv(s)
    ensures Inv(DoGuess(s, id, submitted))
  {
    var s' := DoGuess(s, id, submitted);
    if s' != s {
      var c := s.db.challenges[id];
      var e := Compared(c.identifier, id, s.now, c.codeDigest == submitted);
      Appended(s.log, e);
      assert Paced(s'.log) by {
        assert s'.log[..|s'.log| - 1] == s.log;
      }
      assert ChallengesSound(s');
    }
  }

  lemma StepKeeps(s: State, e: Event)
    requires Inv(s)
    ensures Inv(Apply(s, e))
  {
    match e
    case Tick(_) =>
    case Request(id, x, codeDigest) => RequestKeeps(s, id, x, codeDigest);
    case Deliver(_, _) =>
    case Guess(id, submitted) => GuessKeeps(s, id, submitted);
  }

  lemma {:induction false} RunKeeps(s: State, events: seq<Event>)
    requires Inv(s)
    ensures Inv(Run(s, events))
    decreases |events|
  {
    if events != [] {
      StepKeeps(s, events[0]);
      RunKeeps(Apply(s, events[0]), events[1..]);
    }
  }

  // ---------------------------------------------------------------- what every run guarantees

  predicate Open(s: State, id: Id) {
    id in s.db.challenges && s.db.challenges[id].consumedAt.None?
  }

  /** Over every interleaving: one open challenge per identifier, at most five comparisons and one
      success per challenge. */
  lemma EveryRunSafe(events: seq<Event>)
    ensures var s := Run(Init(), events);
            var rows := s.db.challenges;
            && (forall i, j :: Open(s, i) && Open(s, j) && rows[i].identifier == rows[j].identifier ==> i == j)
            && (forall id :: Guesses(s.log, id) <= MAX_GUESSES && Successes(s.log, id) <= 1)
  {
    RunKeeps(Init(), events);
  }

  /** Over every interleaving and every interval of whole seconds, pruning included. */
  lemma GuessRateOverRuns(events: seq<Event>, x: Identifier, from: int, seconds: nat)
    ensures GuessesBetween(Run(Init(), events).log, x, from, from + seconds * SECOND)
            <= MAX_GUESSES * (seconds / RESEND_SECONDS + 2)
  {
    RunKeeps(Init(), events);
    GuessRate(Run(Init(), events).log, x, from, seconds);
  }

  lemma StepKeepsClosed(s: State, e: Event, id: Id)
    requires id in s.used && !Open(s, id)
    ensures id in Apply(s, e).used && !Open(Apply(s, e), id)
  {
  }

  /** A challenge that was superseded, used or pruned never opens again, whatever delivery reports
      arrive later: no guess against it is compared. */
  lemma {:induction false} ClosedStaysClosed(s: State, events: seq<Event>, id: Id, submitted: string)
    requires id in s.used && !Open(s, id)
    ensures var s' := Run(s, events);
            && !Open(s', id)
            && Apply(s', Guess(id, submitted)) == s'
            && Judge(s'.db, id, submitted, s'.now) in {Locked, Expired}
    decreases |events|
  {
    if events != [] {
      StepKeepsClosed(s, events[0], id);
      ClosedStaysClosed(Apply(s, events[0]), events[1..], id, submitted);
    }
  }

  /** A new reservation closes the identifier's previous challenge. */
  lemma RequestSupersedes(s: State, id: Id, x: Identifier, codeDigest: string, earlier: Id)
    requires Open(s, earlier) && s.db.challenges[earlier].identifier == x && id != earlier
    ensures DoRequest(s, id, x, codeDigest) != s ==> !Open(DoRequest(s, id, x, codeDigest), earlier)
  {
  }

  predicate Undelivered(s: State, id: Id) {
    id in s.db.challenges ==> !s.db.challenges[id].delivered
  }

  /** No guess is compared against a challenge until its delivery is reported successful; a failed
      delivery therefore never leaves a usable code. */
  lemma {:induction false} NoGuessBeforeDelivery(s: State, events: seq<Event>, id: Id)
    requires id in s.used && Undelivered(s, id)
    requires forall e :: e in events ==> e != Deliver(id, true)
    ensures Undelivered(Run(s, events), id) && Guesses(Run(s, events).log, id) == Guesses(s.log, id)
    decreases |events|
  {
    if events != [] {
      var s1 := Apply(s, events[0]);
      assert events[0] in events && forall e :: e in events[1..] ==> e in events;
      if s1.log != s.log {
        Appended(s.log, s1.log[|s.log|]);
        assert s1.log == s.log + [s1.log[|s.log|]];
      }
      NoGuessBeforeDelivery(s1, events[1..], id);
    }
  }

  // ---------------------------------------------------------------- what a guess and a code are worth

  /** The answer to a guess and the history agree: Verified exactly when a right comparison is logged,
      Incorrect and a locking answer exactly when a wrong one is. */
  lemma VerdictMatchesLog(s: State, id: Id, submitted: string)
    ensures var verdict, s' := Judge(s.db, id, submitted, s.now), DoGuess(s, id, submitted);
            && (verdict.Verified? <==>
                  s'.log != s.log && s'.log == s.log + [Compared(s.db.challenges[id].identifier, id, s.now, true)])
            && (verdict == Incorrect ==>
                  s'.log != s.log && s'.log == s.log + [Compared(s.db.challenges[id].identifier, id, s.now, false)])
            && (verdict == Expired ==> s'.log == s.log)
  {
    if Guessable(s.db, id, s.now) {
      var x := s.db.challenges[id].identifier;
      assert (s.log + [Compared(x, id, s.now, true)])[|s.log|] != (s.log + [Compared(x, id, s.now, false)])[|s.log|];
    }
  }

  /** A code that was delivered opens the account exactly for the five minutes it lives: submitted after
      `elapsed`, it is answered Verified before the deadline and Expired from then on. */
  lemma CodeLivesExactly(s: State, id: Id, x: Identifier, codeDigest: string, elapsed: nat)
    requires id !in s.used && id !in s.db.challenges && !Cooling(s.db, x, s.now, RESEND_SECONDS)
    ensures var s1 := Apply(Apply(Apply(s, Request(id, x, codeDigest)), Deliver(id, true)), Tick(elapsed));
            Judge(s1.db, id, codeDigest, s1.now) == if elapsed < 300 * SECOND then Verified(x) else Expired
  {
  }
}
