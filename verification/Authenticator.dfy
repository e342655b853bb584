/** Second-factor records changed by compare-and-swap on the whole record, under every interleaving
    of enrolment, confirmation, verification, recovery, disabling and login flows. */
module Authenticator {
  import opened Fresh
  import opened Options
  import opened Times
  import opened Totp

  type User = nat
  type Flow = nat
  type CodeHash = string

  datatype Record = Record(secret: Secret, confirmedAt: Option<int>, lastCounter: nat, codes: seq<CodeHash>)

  datatype LoginFlow = LoginFlow(user: User, expiresAt: int, consumed: bool)

  type Records = map<User, Record>

  /** The conditional update: it takes effect only on the exact record that was verified. */
  function Swap(records: Records, user: User, seen: Record, next: Record): Records {
    if user in records && records[user] == seen then records[user := next] else records
  }

  /** list.remove: the first equal entry goes. */
  function Remove(codes: seq<CodeHash>, code: CodeHash): seq<CodeHash> {
    if codes == [] then [] else if codes[0] == code then codes[1..] else [codes[0]] + Remove(codes[1..], code)
  }

  datatype Check = Refused | ByTotp(secret: Secret, counter: nat) | ByRecovery(secret: Secret, code: CodeHash)

  /** Given functions: HMAC, the platform's tests of characters, and the hash of recovery codes. */
  datatype Env = Env(hmac: Hmac, charset: Charset, hash: string -> CodeHash)

  /** What a submitted code proves against a loaded record. */
  function CheckCode(env: Env, seen: Record, code: string, moment: nat): Check {
    var answer := Verify(env.hmac, env.charset, seen.secret, code, seen.lastCounter, moment);
    if answer.Raised? then Refused
    else if answer.Matched? then ByTotp(seen.secret, answer.counter)
    else if seen.confirmedAt.Some? && env.hash(code) in seen.codes then ByRecovery(seen.secret, env.hash(code))
    else Refused
  }

  /** A counter the code stands for, and no smaller one. */
  ghost predicate FirstAcceptable(env: Env, seen: Record, code: string, moment: nat, c: nat) {
    && AcceptableTo(env, seen, code, moment, c)
    && forall d: nat :: AcceptableTo(env, seen, code, moment, d) ==> c <= d
  }

  predicate AcceptableTo(env: Env, seen: Record, code: string, moment: nat, c: nat) {
    Acceptable(env.hmac, seen.secret, Clean(env.charset, code), seen.lastCounter, CounterAt(moment), c)
  }

  /** The comparison of one-time codes throws on this code. */
  predicate Throws(env: Env, seen: Record, code: string, moment: nat) {
    var submitted := Clean(env.charset, code);
    AllDigits(env.charset, submitted) && !Ascii(submitted) && seen.lastCounter <= CounterAt(moment)
  }

  /** The code is the recovery code with this hash: no one-time code, and on a confirmed record's list. */
  ghost predicate RecoversWith(env: Env, seen: Record, code: string, moment: nat, h: CodeHash) {
    && seen.confirmedAt.Some? && h == env.hash(code) && h in seen.codes && !Throws(env, seen, code, moment)
    && forall c: nat :: !AcceptableTo(env, seen, code, moment, c)
  }

  /** What each answer means. Exactly one of them is justified. */
  ghost predicate Justified(env: Env, seen: Record, code: string, moment: nat, check: Check) {
    match check
    case ByTotp(secret, c) => secret == seen.secret && FirstAcceptable(env, seen, code, moment, c)
    case ByRecovery(secret, h) => secret == seen.secret && RecoversWith(env, seen, code, moment, h)
    case Refused =>
      && (forall c: nat :: !AcceptableTo(env, seen, code, moment, c))
      && (forall h :: !RecoversWith(env, seen, code, moment, h))
  }

  /** A check answers what is justified and nothing else: a one-time code exactly by its smallest
      acceptable counter, a recovery code exactly when it is listed and the code is no one-time code. */
  lemma CheckExactly(env: Env, seen: Record, code: string, moment: nat, check: Check)
    requires Sane(env.charset)
    ensures CheckCode(env, seen, code, moment) == check <==> Justified(env, seen, code, moment, check)
  {
    VerifyExactly(env.hmac, env.charset, seen.secret, code, seen.lastCounter, moment);
    var answer := Verify(env.hmac, env.charset, seen.secret, code, seen.lastCounter, moment);
    if answer.Matched? {
      assert FirstAcceptable(env, seen, code, moment, answer.counter);
    }
    if RecoversWith(env, seen, code, moment, env.hash(code)) {
      assert answer.Invalid?;
    }
  }

  /** The record a successful check leaves; confirming stamps an unconfirmed record. */
  function Spend(seen: Record, check: Check, now: int): Record {
    match check
    case Refused => seen
    case ByTotp(_, counter) =>
      seen.(lastCounter := counter, confirmedAt := if seen.confirmedAt.Some? then seen.confirmedAt else Some(now))
    case ByRecovery(_, code) => seen.(codes := Remove(seen.codes, code))
  }

  class RecordStore {
    var records: Records

    constructor ()
      ensures records == map[]
    {
      records := map[];
    }

    method ConsumeSnapshot(user: User, seen: Record, next: Record) returns (done: bool)
      modifies this
      ensures records == Swap(old(records), user, seen, next)
      ensures done <==> user in old(records) && old(records)[user] == seen
    {
      done := user in records && records[user].secret == seen.secret && records[user].lastCounter == seen.lastCounter
              && records[user].codes == seen.codes && records[user].confirmedAt == seen.confirmedAt;
      if done {
        records := records[user := next];
      }
    }

    /** One verification on its own: a one-time code moves the counter, a recovery code is struck off
        the list, and only a confirmed record takes part. */
    method AcceptCode(env: Env, user: User, code: string, moment: nat, now: int)
      returns (check: Check)
      modifies this
      ensures user !in old(records) || old(records)[user].confirmedAt.None? ==> check == Refused
      ensures check == Refused ==> records == old(records)
      ensures user in old(records) && old(records)[user].confirmedAt.Some? ==>
                && (Sane(env.charset) ==> Justified(env, old(records)[user], code, moment, check))
                && check == CheckCode(env, old(records)[user], code, moment)
                && (check != Refused ==> records == old(records)[user := Spend(old(records)[user], check, now)])
    {
      if user !in records || records[user].confirmedAt.None? {
        return Refused;
      }
      var seen := records[user];
      if Sane(env.charset) {
        CheckExactly(env, seen, code, moment, CheckCode(env, seen, code, moment));
      }
      var answer := Verify(env.hmac, env.charset, seen.secret, code, seen.lastCounter, moment);
      if answer.Raised? {
        return Refused;
      }
      if answer.Matched? {
        var done := ConsumeSnapshot(user, seen, seen.(lastCounter := answer.counter));
        return ByTotp(seen.secret, answer.counter);
      }
      var submitted := env.hash(code);
      if submitted !in seen.codes {
        return Refused;
      }
      var done := ConsumeSnapshot(user, seen, seen.(codes := Remove(seen.codes, submitted)));
      return ByRecovery(seen.secret, submitted);
    }
  }

  // ---------------------------------------------------------------- all interleavings

  /** An enrolment whose check has passed and whose upsert is still to come. */
  datatype Enrolment = Enrolment(user: User, request: nat)

  /** `accepted` is the history of accepted codes and `acceptors` whose they were, `enrolled` the recovery
      codes issued with each secret ever used, `started` the user of each login flow ever started, `ready`
      which accepted code each flow went on with, and `sessions` the flows that were given a session. */
  datatype State = State(
    now: int,
    records: Records,
    seen: set<(User, Record)>,
    enrolling: set<Enrolment>,
    enrolled: map<Secret, multiset<CodeHash>>,
    accepted: seq<Check>,
    acceptors: seq<User>,
    flows: map<Flow, LoginFlow>,
    started: map<Flow, User>,
    ready: map<Flow, nat>,
    sessions: seq<Flow>)

  datatype Event =
    | Tick(elapsed: nat)
    | Load(user: User)
    | CheckEnrol(user: User, request: nat)
    | Enrol(enrolment: Enrolment, secret: Secret, codes: seq<CodeHash>)
    | Submit(user: User, record: Record, code: string, moment: nat, login: Option<Flow>)
    | Delete(user: User)
    | StartFlow(flow: Flow, user: User, expiresAt: int)
    | ConsumeFlow(flow: Flow)
    | CleanFlows

  function Init(): State {
    State(0, map[], {}, {}, map[], [], [], map[], map[], map[], [])
  }

  /** The enrolment check and its upsert are separate statements. */
  function DoCheckEnrol(s: State, user: User, request: nat): State {
    if user in s.records && s.records[user].confirmedAt.Some? then s
    else s.(enrolling := s.enrolling + {Enrolment(user, request)})
  }

  function DoEnrol(s: State, x: Enrolment, secret: Secret, codes: seq<CodeHash>): State {
    if x in s.enrolling && secret !in s.enrolled then
      s.(records := s.records[x.user := Record(secret, None, 0, codes)], enrolling := s.enrolling - {x},
         enrolled := s.enrolled[secret := multiset(codes)])
    else s
  }

  /** A login submits codes only for the user its flow was started for. */
  predicate FlowOf(s: State, flow: Flow, user: User) {
    flow in s.started && s.started[flow] == user
  }

  /** Verification of a loaded record followed by the compare-and-swap, in one step: nothing between
      them reads or writes the table. The load may be arbitrarily old. */
  function DoSubmit(env: Env, s: State, user: User, record: Record, code: string,
                    moment: nat, login: Option<Flow>): State {
    var check := CheckCode(env, record, code, moment);
    if (user, record) in s.seen && check != Refused
       && (login.Some? ==> record.confirmedAt.Some? && FlowOf(s, login.value, user))
       && user in s.records && s.records[user] == record then
      s.(records := Swap(s.records, user, record, Spend(record, check, s.now)),
         accepted := s.accepted + [check],
         acceptors := s.acceptors + [user],
         ready := if login.Some? then s.ready[login.value := |s.accepted|] else s.ready)
    else s
  }

  function DoConsumeFlow(s: State, flow: Flow): State {
    if flow in s.ready && flow in s.flows && !s.flows[flow].consumed && s.flows[flow].expiresAt > s.now then
      s.(flows := s.flows[flow := s.flows[flow].(consumed := true)], sessions := s.sessions + [flow])
    else s
  }

  function Apply(env: Env, s: State, e: Event): State {
    match e
    case Tick(d) => s.(now := s.now + d)
    case Load(user) => if user in s.records then s.(seen := s.seen + {(user, s.records[user])}) else s
    case CheckEnrol(user, request) => DoCheckEnrol(s, user, request)
    case Enrol(x, secret, codes) => DoEnrol(s, x, secret, codes)
    case Submit(user, record, code, moment, login) => DoSubmit(env, s, user, record, code, moment, login)
    case Delete(user) => s.(records := s.records - {user})
    case StartFlow(flow, user, expiresAt) =>
      if flow in s.started then s
      else s.(flows := s.flows[flow := LoginFlow(user, expiresAt, false)], started := s.started[flow := user])
    case ConsumeFlow(flow) => DoConsumeFlow(s, flow)
    case CleanFlows =>
      s.(flows := map f | f in s.flows && !s.flows[f].consumed && s.flows[f].expiresAt >= s.now :: s.flows[f])
  }

  function Run(env: Env, s: State, events: seq<Event>): State
    decreases |events|
  {
    if events == [] then s else Run(env, Apply(env, s, events[0]), events[1..])
  }

  // ---------------------------------------------------------------- the invariant

  /** Recovery codes spent under a secret. */
  function Spent(accepted: seq<Check>, secret: Secret): multiset<CodeHash> {
    if accepted == [] then multiset{}
    else
      var last := accepted[|accepted| - 1];
      Spent(accepted[..|accepted| - 1], secret)
      + if last.ByRecovery? && last.secret == secret then multiset{last.code} else multiset{}
  }

  predicate SameSecretTotp(a: Check, b: Check) {
    a.ByTotp? && b.ByTotp? && a.secret == b.secret
  }

  /** One secret's accepted counters strictly increase. */
  ghost predicate CountersGrow(accepted: seq<Check>) {
    forall i, j :: 0 <= i < j < |accepted| && SameSecretTotp(accepted[i], accepted[j]) ==>
      accepted[i].counter < accepted[j].counter
  }

  /** One secret's codes are spent at most as often as they were issued. */
  ghost predicate Within(accepted: seq<Check>, enrolled: map<Secret, multiset<CodeHash>>, x: Secret) {
    x in enrolled ==> Spent(accepted, x) <= enrolled[x]
  }

  ghost predicate SpentWithin(accepted: seq<Check>, enrolled: map<Secret, multiset<CodeHash>>) {
    && (forall c :: c in accepted ==> c != Refused && c.secret in enrolled)
    && (forall x :: Within(accepted, enrolled, x))
  }

  ghost predicate HistorySound(s: State) {
    CountersGrow(s.accepted) && SpentWithin(s.accepted, s.enrolled)
  }

  /** A live record has seen every accepted counter of its secret, and what it still lists plus what
      was spent is what was issued. */
  ghost predicate RecordSound(s: State, r: Record) {
    && r.secret in s.enrolled
    && Spent(s.accepted, r.secret) + multiset(r.codes) == s.enrolled[r.secret]
    && (forall c :: c in s.accepted && c.ByTotp? && c.secret == r.secret ==> c.counter <= r.lastCounter)
  }

  ghost predicate RecordsSound(s: State) {
    && (forall u :: u in s.records ==> RecordSound(s, s.records[u]))
    && (forall u, v :: u in s.records && v in s.records && s.records[u].secret == s.records[v].secret ==> u == v)
  }

  /** Each flow went on with a code of its own user, and no two flows with the same code. */
  ghost predicate CodesOwned(s: State) {
    && |s.acceptors| == |s.accepted|
    && (forall f :: f in s.ready ==> s.ready[f] < |s.acceptors| && FlowOf(s, f, s.acceptors[s.ready[f]]))
    && (forall f, g :: f in s.ready && g in s.ready && s.ready[f] == s.ready[g] ==> f == g)
  }

  ghost predicate FlowsSound(s: State) {
    && CodesOwned(s)
    && (forall f :: f in s.flows ==> FlowOf(s, f, s.flows[f].user))
    && (forall f :: f in s.sessions ==> f in s.ready && (f in s.flows ==> s.flows[f].consumed))
    && (forall i, j :: 0 <= i < j < |s.sessions| ==> s.sessions[i] != s.sessions[j])
  }

  ghost predicate Inv(s: State) {
    HistorySound(s) && RecordsSound(s) && FlowsSound(s)
  }

  lemma {:induction false} RemoveTakesOne(codes: seq<CodeHash>, code: CodeHash)
    requires code in codes
    ensures multiset(Remove(codes, code)) + multiset{code} == multiset(codes)
    ensures |Remove(codes, code)| == |codes| - 1
  {
    assert codes == [codes[0]] + codes[1..];
    if codes[0] != code {
      RemoveTakesOne(codes[1..], code);
    }
  }

  lemma SpentAppends(accepted: seq<Check>, c: Check, secret: Secret)
    ensures Spent(accepted + [c], secret) ==
            Spent(accepted, secret) + if c.ByRecovery? && c.secret == secret then multiset{c.code} else multiset{}
  {
    assert (accepted + [c])[..|accepted|] == accepted;
  }

  /** What is known of a record depends only on the history and on what was issued with its secret. */
  lemma RecordSoundFrame(s: State, s': State, r: Record)
    requires RecordSound(s, r) && s'.accepted == s.accepted
    requires r.secret in s'.enrolled && s'.enrolled[r.secret] == s.enrolled[r.secret]
    ensures RecordSound(s', r)
  {
  }

  lemma NewRecordSound(s: State, s': State, r: Record)
    requires HistorySound(s) && r.secret !in s.enrolled
    requires s'.accepted == s.accepted && s'.enrolled == s.enrolled[r.secret := multiset(r.codes)]
    ensures RecordSound(s', r) && HistorySound(s')
  {
    NeverSpent(s.accepted, r.secret);
    forall x ensures Within(s'.accepted, s'.enrolled, x) {
      assert Within(s.accepted, s.enrolled, x);
    }
  }

  lemma EnrolRecordsSound(s: State, s': State, user: User, r: Record)
    requires RecordsSound(s) && r.secret !in s.enrolled && RecordSound(s', r)
    requires s'.records == s.records[user := r] && s'.accepted == s.accepted
    requires forall x :: x in s.enrolled ==> x in s'.enrolled && s'.enrolled[x] == s.enrolled[x]
    ensures RecordsSound(s')
  {
    forall u | u in s'.records ensures RecordSound(s', s'.records[u]) {
      if u != user {
        RecordSoundFrame(s, s', s.records[u]);
      }
    }
    OneRecordPerSecret(s, user, r);
  }

  lemma EnrolKeeps(s: State, x: Enrolment, secret: Secret, codes: seq<CodeHash>)
    requires Inv(s)
    ensures Inv(DoEnrol(s, x, secret, codes))
  {
    var s', r := DoEnrol(s, x, secret, codes), Record(secret, None, 0, codes);
    if x in s.enrolling && secret !in s.enrolled {
      NewRecordSound(s, s', r);
      EnrolRecordsSound(s, s', x.user, r);
    }
  }

  lemma OneRecordPerSecret(s: State, user: User, r: Record)
    requires RecordsSound(s) && (r.secret !in s.enrolled || (user in s.records && s.records[user].secret == r.secret))
    ensures var records := s.records[user := r];
            forall u, v :: u in records && v in records && records[u].secret == records[v].secret ==> u == v
  {
    var records := s.records[user := r];
    forall u, v | u in records && v in records && records[u].secret == records[v].secret ensures u == v {
      assert u != user ==> RecordSound(s, s.records[u]);
      assert v != user ==> RecordSound(s, s.records[v]);
    }
  }

  lemma {:induction false} NeverSpent(accepted: seq<Check>, secret: Secret)
    requires forall c :: c in accepted ==> c == Refused || c.secret != secret
    ensures Spent(accepted, secret) == multiset{}
    decreases |accepted|
  {
    if accepted != [] {
      assert accepted[|accepted| - 1] in accepted;
      NeverSpent(accepted[..|accepted| - 1], secret);
    }
  }

  /** A successful check moves the record strictly on: the counter up, or one code fewer. */
  predicate Behind(r: Record, later: Record) {
    r.lastCounter < later.lastCounter || (r.lastCounter == later.lastCounter && |later.codes| < |r.codes|)
  }

  lemma SpendAdvances(env: Env, seen: Record, code: string, moment: nat, now: int)
    requires CheckCode(env, seen, code, moment) != Refused
    ensures var check := CheckCode(env, seen, code, moment);
            var next := Spend(seen, check, now);
            && check.secret == seen.secret && next.secret == seen.secret && Behind(seen, next)
            && (check.ByTotp? ==>
                  check.counter > seen.lastCounter && next.lastCounter == check.counter && next.codes == seen.codes)
            && (check.ByRecovery? ==> multiset(next.codes) + multiset{check.code} == multiset(seen.codes)
                                      && next.lastCounter == seen.lastCounter)
  {
    MatchedIsNew(env.hmac, env.charset, seen.secret, code, seen.lastCounter, moment);
    if env.hash(code) in seen.codes {
      RemoveTakesOne(seen.codes, env.hash(code));
    }
  }

  lemma CountersStillGrow(s: State, r: Record, check: Check)
    requires CountersGrow(s.accepted) && RecordSound(s, r) && check != Refused && check.secret == r.secret
    requires check.ByTotp? ==> check.counter > r.lastCounter
    ensures CountersGrow(s.accepted + [check])
  {
    var after := s.accepted + [check];
    forall i, j | 0 <= i < j < |after| && SameSecretTotp(after[i], after[j])
      ensures after[i].counter < after[j].counter
    {
      assert after[i] == s.accepted[i] && s.accepted[i] in s.accepted;
    }
  }

  lemma SecretStillWithin(s: State, r: Record, check: Check, x: Secret)
    requires Within(s.accepted, s.enrolled, x)
    requires RecordSound(s, r) && check != Refused && check.secret == r.secret
    requires check.ByRecovery? ==> check.code in r.codes
    ensures Within(s.accepted + [check], s.enrolled, x)
  {
    SpentAppends(s.accepted, check, x);
    if check.ByRecovery? && x == r.secret {
      assert multiset{check.code} <= multiset(r.codes);
    }
  }

  lemma StillSpentWithin(s: State, r: Record, check: Check)
    requires SpentWithin(s.accepted, s.enrolled) && RecordSound(s, r) && check != Refused && check.secret == r.secret
    requires check.ByRecovery? ==> check.code in r.codes
    ensures SpentWithin(s.accepted + [check], s.enrolled)
  {
    forall x ensures Within(s.accepted + [check], s.enrolled, x) {
      SecretStillWithin(s, r, check, x);
    }
  }

  lemma SpentRecordSound(s: State, s': State, r: Record, check: Check, next: Record)
    requires RecordSound(s, r) && check != Refused && check.secret == r.secret == next.secret
    requires s'.accepted == s.accepted + [check] && s'.enrolled == s.enrolled
    requires check.ByTotp? ==>
               check.counter > r.lastCounter && next.lastCounter == check.counter && next.codes == r.codes
    requires check.ByRecovery? ==> multiset(next.codes) + multiset{check.code} == multiset(r.codes)
                                   && next.lastCounter == r.lastCounter
    ensures RecordSound(s', next)
  {
    SpentAppends(s.accepted, check, r.secret);
  }

  lemma OtherRecordSound(s: State, s': State, r: Record, check: Check)
    requires RecordSound(s, r) && check != Refused && check.secret != r.secret
    requires s'.accepted == s.accepted + [check] && s'.enrolled == s.enrolled
    ensures RecordSound(s', r)
  {
    SpentAppends(s.accepted, check, r.secret);
  }

  lemma SubmitHistoryKeeps(env: Env, s: State, user: User, record: Record, code: string,
                           moment: nat, login: Option<Flow>)
    requires Inv(s)
    ensures HistorySound(DoSubmit(env, s, user, record, code, moment, login))
  {
    var check := CheckCode(env, record, code, moment);
    if check != Refused && user in s.records && s.records[user] == record {
      SpendAdvances(env, record, code, moment, s.now);
      CountersStillGrow(s, record, check);
      StillSpentWithin(s, record, check);
    }
  }

  lemma SubmitRecordsKeep(env: Env, s: State, user: User, record: Record, code: string,
                          moment: nat, login: Option<Flow>)
    requires RecordsSound(s)
    ensures RecordsSound(DoSubmit(env, s, user, record, code, moment, login))
  {
    var s' := DoSubmit(env, s, user, record, code, moment, login);
    var check := CheckCode(env, record, code, moment);
    if s'.accepted != s.accepted {
      var next := Spend(record, check, s.now);
      SpendAdvances(env, record, code, moment, s.now);
      forall u | u in s'.records ensures RecordSound(s', s'.records[u]) {
        if u == user {
          SpentRecordSound(s, s', record, check, next);
        } else {
          OtherRecordSound(s, s', s.records[u], check);
        }
      }
      OneRecordPerSecret(s, user, next);
    }
  }

  lemma SubmitFlowsKeep(env: Env, s: State, user: User, record: Record, code: string,
                        moment: nat, login: Option<Flow>)
    requires FlowsSound(s)
    ensures FlowsSound(DoSubmit(env, s, user, record, code, moment, login))
  {
  }

  lemma SubmitKeeps(env: Env, s: State, user: User, record: Record, code: string,
                    moment: nat, login: Option<Flow>)
    requires Inv(s)
    ensures Inv(DoSubmit(env, s, user, record, code, moment, login))
  {
    SubmitHistoryKeeps(env, s, user, record, code, moment, login);
    SubmitRecordsKeep(env, s, user, record, code, moment, login);
    SubmitFlowsKeep(env, s, user, record, code, moment, login);
  }

  /** Loading, enrolment checks, disabling and flows leave the history alone and add no record. */
  ghost predicate OnlyDrops(s: State, s': State) {
    s'.accepted == s.accepted && s'.enrolled == s.enrolled
    && forall u :: u in s'.records ==> u in s.records && s'.records[u] == s.records[u]
  }

  lemma RecordsFrame(s: State, s': State)
    requires HistorySound(s) && RecordsSound(s) && OnlyDrops(s, s')
    ensures HistorySound(s') && RecordsSound(s')
  {
    forall u | u in s'.records ensures RecordSound(s', s'.records[u]) {
      RecordSoundFrame(s, s', s.records[u]);
    }
  }

  lemma FlowsFrame(s: State, s': State)
    requires FlowsSound(s) && s'.accepted == s.accepted && s'.acceptors == s.acceptors && s'.started == s.started
    requires s'.ready == s.ready && s'.sessions == s.sessions
    requires forall f :: f in s'.flows ==> f in s.flows && s'.flows[f] == s.flows[f]
    ensures FlowsSound(s')
  {
  }

  lemma StartFlowKeeps(s: State, flow: Flow, user: User, expiresAt: int)
    requires FlowsSound(s) && flow !in s.started
    ensures FlowsSound(s.(flows := s.flows[flow := LoginFlow(user, expiresAt, false)],
                          started := s.started[flow := user]))
  {
  }

  lemma ConsumeFlowKeeps(s: State, flow: Flow)
    requires FlowsSound(s)
    ensures FlowsSound(DoConsumeFlow(s, flow))
  {
  }

  lemma OthersOnlyDrop(env: Env, s: State, e: Event)
    requires !e.Enrol? && !e.Submit?
    ensures OnlyDrops(s, Apply(env, s, e))
  {
  }

  lemma OthersKeepFlows(env: Env, s: State, e: Event)
    requires FlowsSound(s) && !e.Enrol? && !e.Submit?
    ensures FlowsSound(Apply(env, s, e))
  {
    if e.ConsumeFlow? {
      ConsumeFlowKeeps(s, e.flow);
    } else if e.StartFlow? && e.flow !in s.started {
      StartFlowKeeps(s, e.flow, e.user, e.expiresAt);
    } else {
      FlowsFrame(s, Apply(env, s, e));
    }
  }

  lemma OthersKeep(env: Env, s: State, e: Event)
    requires Inv(s) && !e.Enrol? && !e.Submit?
    ensures Inv(Apply(env, s, e))
  {
    OthersOnlyDrop(env, s, e);
    RecordsFrame(s, Apply(env, s, e));
    OthersKeepFlows(env, s, e);
  }

  lemma StepKeeps(env: Env, s: State, e: Event)
    requires Inv(s)
    ensures Inv(Apply(env, s, e))
  {
    match e
    case Enrol(x, secret, codes) => EnrolKeeps(s, x, secret, codes);
    case Submit(user, record, code, moment, login) => SubmitKeeps(env, s, user, record, code, moment, login);
    case _ => OthersKeep(env, s, e);
  }

  lemma {:induction false} RunKeeps(env: Env, s: State, events: seq<Event>)
    requires Inv(s)
    ensures Inv(Run(env, s, events))
    decreases |events|
  {
    if events != [] {
      StepKeeps(env, s, events[0]);
      RunKeeps(env, Apply(env, s, events[0]), events[1..]);
    }
  }

  // ---------------------------------------------------------------- what every run guarantees

  /** No (secret, counter) pair is accepted twice, and accepted counters of a secret only grow. */
  lemma CounterNeverReplayed(env: Env, events: seq<Event>)
    ensures var accepted := Run(env, Init(), events).accepted;
            forall i, j :: 0 <= i < j < |accepted| && SameSecretTotp(accepted[i], accepted[j]) ==>
              accepted[i].counter < accepted[j].counter
  {
    RunKeeps(env, Init(), events);
  }

  /** Every issued recovery-code entry is spent at most once, and for a live record exactly the issued
      entries that it no longer lists were spent. */
  lemma RecoveryCodesConserved(env: Env, events: seq<Event>)
    ensures var s := Run(env, Init(), events);
            && (forall x :: x in s.enrolled ==> Spent(s.accepted, x) <= s.enrolled[x])
            && (forall u :: u in s.records ==> RecordSound(s, s.records[u]))
  {
    RunKeeps(env, Init(), events);
    var s := Run(env, Init(), events);
    forall x | x in s.enrolled ensures Spent(s.accepted, x) <= s.enrolled[x] {
      assert Within(s.accepted, s.enrolled, x);
    }
  }

  /** One login flow yields at most one session, and every session rests on an accepted code of its own,
      submitted for the user who logs in. */
  lemma SessionsBounded(env: Env, events: seq<Event>)
    ensures var s := Run(env, Init(), events);
            && (forall i, j :: 0 <= i < j < |s.sessions| ==> s.sessions[i] != s.sessions[j])
            && (forall f :: f in s.sessions ==>
                  f in s.ready && s.ready[f] < |s.acceptors| == |s.accepted| && FlowOf(s, f, s.acceptors[s.ready[f]]))
            && (forall f, g :: f in s.sessions && g in s.sessions && f != g ==> s.ready[f] != s.ready[g])
  {
    RunKeeps(env, Init(), events);
  }

  /** A flow gets its session exactly if its code was accepted, it has none yet and it has not expired. */
  lemma FlowConsumedExactly(env: Env, s: State, flow: Flow)
    ensures var s' := Apply(env, s, ConsumeFlow(flow));
            if flow in s.ready && flow in s.flows && !s.flows[flow].consumed && s.now < s.flows[flow].expiresAt
            then s'.sessions == s.sessions + [flow] && flow in s'.flows && s'.flows[flow].consumed
            else s' == s
  {
  }

  /** What an accepted entry goes back to: a submission, when the record it loaded was still the stored
      one, of a code that justifies the entry. */
  ghost predicate CauseOf(env: Env, s: State, e: Event, check: Check) {
    && e.Submit? && e.user in s.records && s.records[e.user] == e.record && check != Refused
    && Justified(env, e.record, e.code, e.moment, check)
  }

  lemma AcceptanceHasCause(env: Env, s: State, e: Event)
    requires Sane(env.charset)
    ensures var s' := Apply(env, s, e);
            s'.accepted == s.accepted
            || (|s'.accepted| == |s.accepted| + 1 && s'.accepted[..|s.accepted|] == s.accepted
                && CauseOf(env, s, e, s'.accepted[|s.accepted|]))
  {
    if e.Submit? {
      CheckExactly(env, e.record, e.code, e.moment, CheckCode(env, e.record, e.code, e.moment));
    }
  }

  /** Over every run, every accepted entry has its cause: nothing is accepted but a code that is right. */
  lemma {:induction false} AcceptedHaveCauses(env: Env, s: State, events: seq<Event>, i: nat) returns (k: nat)
    requires Sane(env.charset) && |s.accepted| <= i < |Run(env, s, events).accepted|
    ensures k < |events| && CauseOf(env, Run(env, s, events[..k]), events[k], Run(env, s, events).accepted[i])
    decreases |events|
  {
    var s1 := Apply(env, s, events[0]);
    AcceptanceHasCause(env, s, events[0]);
    AcceptedGrows(env, s1, events[1..]);
    if i < |s1.accepted| {
      k := 0;
      assert events[..0] == [];
    } else {
      var m := AcceptedHaveCauses(env, s1, events[1..], i);
      k := m + 1;
      assert events[..k] == [events[0]] + events[1..][..m];
      RunOne(env, s, events[0], events[1..][..m]);
    }
  }

  lemma {:induction false} AcceptedGrows(env: Env, s: State, events: seq<Event>)
    ensures s.accepted <= Run(env, s, events).accepted
    decreases |events|
  {
    if events != [] {
      AcceptedGrows(env, Apply(env, s, events[0]), events[1..]);
    }
  }

  /** A snapshot has been overtaken when every live record under its secret is strictly further on. */
  ghost predicate Overtaken(s: State, r: Record) {
    && r.secret in s.enrolled
    && (forall u :: u in s.records && s.records[u].secret == r.secret ==> Behind(r, s.records[u]))
  }

  lemma SuccessOvertakes(env: Env, s: State, user: User, record: Record, code: string,
                         moment: nat, login: Option<Flow>)
    requires Inv(s)
    requires var s' := DoSubmit(env, s, user, record, code, moment, login); s'.accepted != s.accepted
    ensures Overtaken(DoSubmit(env, s, user, record, code, moment, login), record)
  {
    SpendAdvances(env, record, code, moment, s.now);
    assert RecordSound(s, record);
  }

  lemma StepKeepsOvertaken(env: Env, s: State, e: Event, r: Record)
    requires Overtaken(s, r)
    ensures Overtaken(Apply(env, s, e), r)
  {
    if e.Submit? && Apply(env, s, e) != s {
      SpendAdvances(env, e.record, e.code, e.moment, s.now);
    }
  }

  /** Once a snapshot has been used, its record never comes back, so no later compare-and-swap on it
      succeeds: not for the same request repeated, nor for any other that loaded the same record. */
  lemma {:induction false} UsedSnapshotNeverRecurs(env: Env, s: State, events: seq<Event>, r: Record)
    requires Overtaken(s, r)
    ensures var s' := Run(env, s, events);
            && Overtaken(s', r)
            && (forall u :: u in s'.records ==> s'.records[u] != r)
            && (forall u, next :: Swap(s'.records, u, r, next) == s'.records)
    decreases |events|
  {
    if events != [] {
      StepKeepsOvertaken(env, s, events[0], r);
      UsedSnapshotNeverRecurs(env, Apply(env, s, events[0]), events[1..], r);
    }
  }

  // ---------------------------------------------------------------- keeping the second factor

  predicate Confirmed(s: State, user: User) {
    user in s.records && s.records[user].confirmedAt.Some?
  }

  predicate Enrolling(s: State, user: User) {
    exists x :: x in s.enrolling && x.user == user
  }

  lemma StepStaysConfirmed(env: Env, s: State, e: Event, user: User)
    requires Confirmed(s, user) && !Enrolling(s, user) && e != Delete(user)
    ensures var s' := Apply(env, s, e);
            Confirmed(s', user) && !Enrolling(s', user) && s'.records[user].secret == s.records[user].secret
  {
    if e.Submit? && e.user == user && Apply(env, s, e) != s {
      SpendAdvances(env, e.record, e.code, e.moment, s.now);
    }
  }

  lemma {:induction false} StaysConfirmed(env: Env, s: State, events: seq<Event>, user: User)
    requires Confirmed(s, user) && !Enrolling(s, user) && Delete(user) !in events
    ensures var s' := Run(env, s, events); Confirmed(s', user) && s'.records[user].secret == s.records[user].secret
    decreases |events|
  {
    if events != [] {
      StepStaysConfirmed(env, s, events[0], user);
      StaysConfirmed(env, Apply(env, s, events[0]), events[1..], user);
    }
  }

  /** A confirmed second factor stays in force over all continuations that do not disable it, if and only
      if no enrolment that was checked before the confirmation is still to be written. */
  lemma ConfirmedExactly(env: Env, s: State, user: User)
    requires Confirmed(s, user)
    ensures (forall rest :: Delete(user) !in rest ==> Confirmed(Run(env, s, rest), user)) <==> !Enrolling(s, user)
  {
    if Enrolling(s, user) {
      var x :| x in s.enrolling && x.user == user;
      var secret := NumberAbove(s.enrolled.Keys);
      var rest := [Enrol(x, secret, [])];
      assert Run(env, s, rest) == Run(env, Apply(env, s, rest[0]), []);
      assert Delete(user) !in rest && !Confirmed(Run(env, s, rest), user);
    } else {
      forall rest | Delete(user) !in rest ensures Confirmed(Run(env, s, rest), user) {
        StaysConfirmed(env, s, rest, user);
      }
    }
  }

  lemma RunOne(env: Env, s: State, e: Event, rest: seq<Event>)
    ensures Run(env, s, [e] + rest) == Run(env, Apply(env, s, e), rest)
  {
    assert ([e] + rest)[1..] == rest;
  }

  /** It can happen: two enrolments checked at the same time, one of them written and confirmed. */
  lemma ConfirmedWhileEnrolling(env: Env) returns (events: seq<Event>)
    requires Sane(env.charset)
    ensures var s := Run(env, Init(), events); Confirmed(s, 0) && Enrolling(s, 0)
  {
    var record, moment := Record(0, None, 0, []), PERIOD_SECONDS * SECOND;
    var code := CodeFor(env.hmac, 0, CounterAt(moment));
    CurrentCodeIsAccepted(env.hmac, env.charset, 0, 0, moment);
    var submit := Submit(0, record, code, moment, None);
    var check, other, enrol := CheckEnrol(0, 0), CheckEnrol(0, 1), Enrol(Enrolment(0, 0), 0, []);
    events := [check] + ([other] + ([enrol] + ([Load(0)] + ([submit] + []))));
    var s1 := Apply(env, Init(), check);
    RunOne(env, Init(), check, [other] + ([enrol] + ([Load(0)] + ([submit] + []))));
    var s2 := Apply(env, s1, other);
    RunOne(env, s1, other, [enrol] + ([Load(0)] + ([submit] + [])));
    var s3 := Apply(env, s2, enrol);
    RunOne(env, s2, enrol, [Load(0)] + ([submit] + []));
    assert s3.records == map[0 := record] && Enrolment(0, 1) in s3.enrolling;
    var s4 := Apply(env, s3, Load(0));
    RunOne(env, s3, Load(0), [submit] + []);
    RunOne(env, s4, submit, []);
    assert (0, record) in s4.seen;
  }
}
