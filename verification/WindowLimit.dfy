/** The fixed-window limiter shared by all workers: one upsert per call, with rows older than a day
    deleted on the way. Times are microseconds. */
module WindowLimit {
  import opened Options
  import opened Times

  type Bucket = string

  datatype Window = Window(startedAt: int, hits: nat)

  type Windows = map<Bucket, Window>

  predicate Over(w: Window, now: int, seconds: nat) {
    w.startedAt <= now - seconds * SECOND
  }

  /** The row after the upsert: a fresh window, or one more hit up to one past the maximum. */
  function Hit(rows: Windows, bucket: Bucket, maximum: nat, seconds: nat, now: int): Window {
    if bucket !in rows || Over(rows[bucket], now, seconds) then Window(now, 1)
    else rows[bucket].(hits := if rows[bucket].hits <= maximum then rows[bucket].hits + 1 else rows[bucket].hits)
  }

  function Prune(rows: Windows, now: int): Windows {
    map b | b in rows && rows[b].startedAt >= now - DAY :: rows[b]
  }

  function Answer(w: Window, maximum: nat, seconds: nat, now: int): int {
    if w.hits <= maximum then 0 else RetryAfter(seconds, now - w.startedAt)
  }

  class LimitStore {
    var rows: Windows

    constructor ()
      ensures rows == map[]
    {
      rows := map[];
    }

    /** Zero when admitted, otherwise the seconds to wait. */
    method Consume(bucket: Bucket, maximum: nat, seconds: nat, now: int) returns (retry: int)
      modifies this
      ensures rows == Prune(old(rows)[bucket := Hit(old(rows), bucket, maximum, seconds, now)], now)
      ensures retry == Answer(Hit(old(rows), bucket, maximum, seconds, now), maximum, seconds, now)
      ensures retry == 0 <==> Hit(old(rows), bucket, maximum, seconds, now).hits <= maximum
    {
      var started, hits := now, 1;
      if bucket in rows && !(rows[bucket].startedAt <= now - seconds * SECOND) {
        started := rows[bucket].startedAt;
        hits := if rows[bucket].hits <= maximum then rows[bucket].hits + 1 else rows[bucket].hits;
      }
      rows := rows[bucket := Window(started, hits)];
      rows := Prune(rows, now);
      if hits <= maximum {
        return 0;
      }
      return Max(1, WholeSeconds(seconds * SECOND - (now - started)) + 1);
    }
  }

  // ---------------------------------------------------------------- all sequences of calls

  datatype Call = Call(bucket: Bucket, maximum: nat, seconds: nat, at: int)

  ghost predicate Monotone(calls: seq<Call>) {
    forall i, j :: 0 <= i < j < |calls| ==> calls[i].at <= calls[j].at
  }

  /** The table after a sequence of calls, with or without the daily pruning. */
  function Table(calls: seq<Call>, pruning: bool): Windows {
    if calls == [] then map[]
    else
      var c, rows := calls[|calls| - 1], Table(calls[..|calls| - 1], pruning);
      var rows' := rows[c.bucket := Hit(rows, c.bucket, c.maximum, c.seconds, c.at)];
      if pruning then Prune(rows', c.at) else rows'
  }

  /** What the last of a sequence of calls is told. */
  function LastAnswer(calls: seq<Call>, pruning: bool): int
    requires calls != []
  {
    var c := calls[|calls| - 1];
    Answer(Hit(Table(calls[..|calls| - 1], pruning), c.bucket, c.maximum, c.seconds, c.at), c.maximum, c.seconds, c.at)
  }

  /** The pruned table is the full table without rows older than a day. */
  ghost predicate Pruned(few: Windows, all: Windows, now: int) {
    && (forall b :: b in few ==> b in all && few[b] == all[b])
    && (forall b :: b in all && b !in few ==> all[b].startedAt < now - DAY)
  }

  lemma {:induction false} PruningKeepsRest(calls: seq<Call>)
    requires Monotone(calls) && forall c :: c in calls ==> c.seconds * SECOND <= DAY
    ensures calls != [] ==> Pruned(Table(calls, true), Table(calls, false), calls[|calls| - 1].at)
    decreases |calls|
  {
    if calls != [] {
      var front, c := calls[..|calls| - 1], calls[|calls| - 1];
      PruningKeepsRest(front);
      assert c in calls;
      if front == [] {
        assert Table(front, true) == map[] && Table(front, false) == map[];
      } else {
        assert front[|front| - 1].at <= c.at;
      }
    }
  }

  /** Deleting day-old rows changes no answer, for windows of up to a day. */
  lemma PruningIsInvisible(calls: seq<Call>)
    requires calls != [] && Monotone(calls) && forall c :: c in calls ==> c.seconds * SECOND <= DAY
    ensures LastAnswer(calls, true) == LastAnswer(calls, false)
  {
    var front, c := calls[..|calls| - 1], calls[|calls| - 1];
    PruningKeepsRest(front);
    assert c in calls;
    if front != [] {
      assert front[|front| - 1].at <= c.at;
    }
  }

  // ---------------------------------------------------------------- windows longer than a day

  ghost predicate Uniform(calls: seq<Call>, maximum: nat, seconds: nat) {
    forall c :: c in calls ==> c.maximum == maximum && c.seconds == seconds
  }

  function Repeated(c: Call, n: nat): seq<Call> {
    seq(n, i => c)
  }

  /** A full window: as many calls as the limit admits, at least one, all at time 0. */
  lemma {:induction false} FullWindow(c: Call, n: nat)
    requires c.at == 0 && c.seconds > 0 && 1 <= n <= Max(1, c.maximum)
    ensures Table(Repeated(c, n), true) == Table(Repeated(c, n), false) == map[c.bucket := Window(0, n)]
    decreases n
  {
    var calls := Repeated(c, n);
    assert calls[..n - 1] == Repeated(c, n - 1) && calls[n - 1] == c;
    if n > 1 {
      FullWindow(c, n - 1);
    }
  }

  /** One call more than a day later: the row stays if nothing is deleted, and is gone if it is. */
  lemma DayLater(c: Call, n: nat)
    requires c.at == 0 && c.seconds * SECOND > DAY && n == Max(1, c.maximum)
    ensures var calls := Repeated(c, n) + [c.(at := DAY + 1)];
            Table(calls, true) == map[] && Table(calls, false) == map[c.bucket := Window(0, c.maximum + 1)]
  {
    var calls := Repeated(c, n) + [c.(at := DAY + 1)];
    assert calls[..n] == Repeated(c, n) && calls[n] == c.(at := DAY + 1);
    FullWindow(c, n);
    var rows := map[c.bucket := Window(0, n)];
    assert Hit(rows, c.bucket, c.maximum, c.seconds, DAY + 1) == Window(0, c.maximum + 1);
    assert rows[c.bucket := Window(0, c.maximum + 1)] == map[c.bucket := Window(0, c.maximum + 1)];
  }

  lemma AnswersDiffer(c: Call)
    requires c.at == DAY + 1 && c.seconds * SECOND > DAY
    ensures var kept := map[c.bucket := Window(0, c.maximum + 1)];
            Answer(Hit(map[], c.bucket, c.maximum, c.seconds, c.at), c.maximum, c.seconds, c.at)
            != Answer(Hit(kept, c.bucket, c.maximum, c.seconds, c.at), c.maximum, c.seconds, c.at)
  {
  }

  lemma TwoKinds(calls: seq<Call>, c: Call, late: Call, n: nat)
    requires c.at <= late.at && late == c.(at := late.at)
    requires n <= |calls| && calls == Repeated(c, n) + [late, late]
    ensures Monotone(calls) && Uniform(calls, c.maximum, c.seconds)
  {
    assert forall i :: 0 <= i < |calls| ==> calls[i] == if i < n then c else late;
  }

  /** With a longer window, a call after the deletion gets a different answer: it starts a new window
      where the old one has days to go. */
  lemma LongWindowForgets(c: Call) returns (calls: seq<Call>)
    requires c.at == 0 && c.seconds * SECOND > DAY
    ensures calls != [] && Monotone(calls) && Uniform(calls, c.maximum, c.seconds)
    ensures LastAnswer(calls, true) != LastAnswer(calls, false)
  {
    var n, late := Max(1, c.maximum), c.(at := DAY + 1);
    var front := Repeated(c, n) + [late];
    calls := front + [late];
    DayLater(c, n);
    AnswersDiffer(late);
    assert calls[..|calls| - 1] == front && calls[|calls| - 1] == late;
    TwoKinds(calls, c, late, n);
  }

  /** Deleting day-old rows changes no answer of any sequence of calls under a limit, if and only if its
      window is at most a day long. */
  lemma PruningExactly(maximum: nat, seconds: nat)
    ensures (forall calls :: calls != [] && Monotone(calls) && Uniform(calls, maximum, seconds) ==>
               LastAnswer(calls, true) == LastAnswer(calls, false))
            <==> seconds * SECOND <= DAY
  {
    if seconds * SECOND <= DAY {
      forall calls | calls != [] && Monotone(calls) && Uniform(calls, maximum, seconds)
        ensures LastAnswer(calls, true) == LastAnswer(calls, false)
      {
        PruningIsInvisible(calls);
      }
    } else {
      var calls := LongWindowForgets(Call("", maximum, seconds, 0));
    }
  }

  // ---------------------------------------------------------------- what is admitted

  /** Calls on one bucket use one limit. */
  ghost predicate OneLimit(calls: seq<Call>, bucket: Bucket, maximum: nat, seconds: nat) {
    forall c :: c in calls && c.bucket == bucket ==> c.maximum == maximum && c.seconds == seconds
  }

  /** Admitted calls on a bucket with `from <= at < to`. */
  function Admitted(calls: seq<Call>, pruning: bool, bucket: Bucket, from: int, to: int): nat {
    if calls == [] then 0
    else
      var c := calls[|calls| - 1];
      Admitted(calls[..|calls| - 1], pruning, bucket, from, to)
      + if c.bucket == bucket && from <= c.at < to && LastAnswer(calls, pruning) == 0 then 1 else 0
  }

  lemma {:induction false} AdmittedSplits(calls: seq<Call>, bucket: Bucket, from: int, middle: int, to: int)
    requires from <= middle <= to
    ensures Admitted(calls, false, bucket, from, to)
            == Admitted(calls, false, bucket, from, middle) + Admitted(calls, false, bucket, middle, to)
    decreases |calls|
  {
    if calls != [] {
      AdmittedSplits(calls[..|calls| - 1], bucket, from, middle, to);
    }
  }

  lemma {:induction false} NoneSince(calls: seq<Call>, bucket: Bucket, from: int, to: int)
    requires forall c :: c in calls && c.bucket == bucket ==> c.at < from
    ensures Admitted(calls, false, bucket, from, to) == 0
    decreases |calls|
  {
    if calls != [] {
      assert calls[|calls| - 1] in calls;
      NoneSince(calls[..|calls| - 1], bucket, from, to);
    }
  }

  /** What a bucket's row says about the calls so far. */
  ghost predicate Counts(calls: seq<Call>, bucket: Bucket, maximum: nat, seconds: nat) {
    var rows := Table(calls, false);
    if bucket !in rows then forall c :: c in calls ==> c.bucket != bucket
    else
      && 1 <= rows[bucket].hits <= maximum + 1
      && calls != [] && rows[bucket].startedAt <= calls[|calls| - 1].at
      && (forall c :: c in calls && c.bucket == bucket ==> c.at < rows[bucket].startedAt + seconds * SECOND)
  }

  lemma {:induction false} RowCounts(calls: seq<Call>, bucket: Bucket, maximum: nat, seconds: nat)
    requires Monotone(calls) && OneLimit(calls, bucket, maximum, seconds) && seconds > 0
    ensures Counts(calls, bucket, maximum, seconds)
    decreases |calls|
  {
    if calls != [] {
      var front, c := calls[..|calls| - 1], calls[|calls| - 1];
      RowCounts(front, bucket, maximum, seconds);
      assert c in calls;
      forall x | x in calls ensures x in front || x == c {
      }
      if front != [] {
        assert front[|front| - 1] in front && front[|front| - 1].at <= c.at;
      }
    }
  }

  /** One window admits at most `maximum` calls, and fewer than its hit count says while open. */
  lemma {:induction false} WindowAdmits(calls: seq<Call>, bucket: Bucket, maximum: nat, seconds: nat, to: int)
    requires Monotone(calls) && OneLimit(calls, bucket, maximum, seconds) && seconds > 0
    requires bucket in Table(calls, false)
    ensures var w := Table(calls, false)[bucket];
            Admitted(calls, false, bucket, w.startedAt, to) <= if w.hits <= maximum then w.hits else maximum
    decreases |calls|
  {
    var front, c := calls[..|calls| - 1], calls[|calls| - 1];
    var rows := Table(front, false);
    RowCounts(front, bucket, maximum, seconds);
    assert c in calls;
    if c.bucket == bucket && (bucket !in rows || Over(rows[bucket], c.at, seconds)) {
      NoneSince(front, bucket, c.at, to);
    } else {
      WindowAdmits(front, bucket, maximum, seconds, to);
    }
  }

  /** Just before a window begins, only one earlier window reaches back less than a window length. */
  lemma {:induction false} TailAdmits(calls: seq<Call>, bucket: Bucket, maximum: nat, seconds: nat, from: int)
    requires Monotone(calls) && OneLimit(calls, bucket, maximum, seconds) && seconds > 0
    requires bucket in Table(calls, false)
    requires var start := Table(calls, false)[bucket].startedAt; start - seconds * SECOND < from <= start
    ensures Admitted(calls, false, bucket, from, Table(calls, false)[bucket].startedAt) <= maximum
    decreases |calls|
  {
    var front, c := calls[..|calls| - 1], calls[|calls| - 1];
    var rows, start := Table(front, false), Table(calls, false)[bucket].startedAt;
    RowCounts(front, bucket, maximum, seconds);
    assert c in calls;
    if c.bucket == bucket && (bucket !in rows || Over(rows[bucket], c.at, seconds)) {
      if bucket in rows {
        WindowAdmits(front, bucket, maximum, seconds, start);
        AdmittedSplits(front, bucket, rows[bucket].startedAt, from, start);
      } else {
        NoneSince(front, bucket, from, start);
      }
    } else {
      if front != [] {
        assert front[|front| - 1] in front && front[|front| - 1].at <= c.at;
      }
      TailAdmits(front, bucket, maximum, seconds, from);
    }
  }

  /** Any interval of one window length admits at most twice the maximum. */
  lemma {:induction false} IntervalAdmits(calls: seq<Call>, bucket: Bucket, maximum: nat, seconds: nat, from: int)
    requires Monotone(calls) && OneLimit(calls, bucket, maximum, seconds) && seconds > 0
    ensures Admitted(calls, false, bucket, from, from + seconds * SECOND) <= 2 * maximum
    decreases |calls|
  {
    var to := from + seconds * SECOND;
    RowCounts(calls, bucket, maximum, seconds);
    if bucket !in Table(calls, false) {
      NoneSince(calls, bucket, from, to);
    } else {
      var start := Table(calls, false)[bucket].startedAt;
      if start <= from {
        WindowAdmits(calls, bucket, maximum, seconds, to);
        AdmittedSplits(calls, bucket, start, from, to);
      } else if start < to {
        WindowAdmits(calls, bucket, maximum, seconds, to);
        TailAdmits(calls, bucket, maximum, seconds, from);
        AdmittedSplits(calls, bucket, from, start, to);
      } else {
        assert start <= calls[|calls| - 1].at;
        IntervalAdmits(calls[..|calls| - 1], bucket, maximum, seconds, from);
      }
    }
  }

  lemma {:induction false} SameAdmissions(calls: seq<Call>, bucket: Bucket, from: int, to: int)
    requires Monotone(calls) && forall c :: c in calls ==> c.seconds * SECOND <= DAY
    ensures Admitted(calls, true, bucket, from, to) == Admitted(calls, false, bucket, from, to)
    decreases |calls|
  {
    if calls != [] {
      PruningIsInvisible(calls);
      SameAdmissions(calls[..|calls| - 1], bucket, from, to);
    }
  }

  /** The limiter as it runs, pruning included: over every sequence of calls on any buckets, an
      interval of one window length admits at most twice the bucket's maximum. */
  lemma LimiterBounds(calls: seq<Call>, bucket: Bucket, maximum: nat, seconds: nat, from: int)
    requires Monotone(calls) && OneLimit(calls, bucket, maximum, seconds) && seconds > 0
    requires forall c :: c in calls ==> c.seconds * SECOND <= DAY
    ensures Admitted(calls, true, bucket, from, from + seconds * SECOND) <= 2 * maximum
  {
    IntervalAdmits(calls, bucket, maximum, seconds, from);
    SameAdmissions(calls, bucket, from, from + seconds * SECOND);
  }

  /** The hit count of a row never exceeds the maximum by more than one, deletion or not. */
  lemma {:induction false} HitsWithin(calls: seq<Call>, pruning: bool, bucket: Bucket, maximum: nat, seconds: nat)
    requires OneLimit(calls, bucket, maximum, seconds)
    ensures bucket in Table(calls, pruning) ==> 1 <= Table(calls, pruning)[bucket].hits <= maximum + 1
    decreases |calls|
  {
    if calls != [] {
      var front := calls[..|calls| - 1];
      assert calls[|calls| - 1] in calls;
      HitsWithin(front, pruning, bucket, maximum, seconds);
    }
  }

  /** The limiter as it runs: the present window of a bucket has admitted at most the maximum, and no more
      than its row counts. */
  lemma LimiterWindow(calls: seq<Call>, bucket: Bucket, maximum: nat, seconds: nat, to: int)
    requires Monotone(calls) && OneLimit(calls, bucket, maximum, seconds) && seconds > 0
    requires forall c :: c in calls ==> c.seconds * SECOND <= DAY
    requires bucket in Table(calls, true)
    ensures var w := Table(calls, true)[bucket];
            Admitted(calls, true, bucket, w.startedAt, to) <= if w.hits <= maximum then w.hits else maximum
  {
    PruningKeepsRest(calls);
    assert calls != [];
    WindowAdmits(calls, bucket, maximum, seconds, to);
    SameAdmissions(calls, bucket, Table(calls, true)[bucket].startedAt, to);
  }

  /** Calls on a bucket from an instant on. */
  function CallsSince(calls: seq<Call>, bucket: Bucket, from: int): nat {
    if calls == [] then 0
    else CallsSince(calls[..|calls| - 1], bucket, from)
         + if calls[|calls| - 1].bucket == bucket && calls[|calls| - 1].at >= from then 1 else 0
  }

  function Min(a: nat, b: nat): nat {
    if a < b then a else b
  }

  lemma {:induction false} NoCallsSince(calls: seq<Call>, bucket: Bucket, from: int)
    requires forall c :: c in calls && c.bucket == bucket ==> c.at < from
    ensures CallsSince(calls, bucket, from) == 0
    decreases |calls|
  {
    if calls != [] {
      assert calls[|calls| - 1] in calls;
      NoCallsSince(calls[..|calls| - 1], bucket, from);
    }
  }

  /** A row counts the calls of its window, and the window has admitted the first of them, as many as the
      maximum allows. */
  lemma {:induction false} RowTellsExactly(calls: seq<Call>, bucket: Bucket, maximum: nat, seconds: nat, to: int)
    requires Monotone(calls) && OneLimit(calls, bucket, maximum, seconds) && seconds > 0
    requires calls != [] && bucket in Table(calls, false) && calls[|calls| - 1].at < to
    ensures var w := Table(calls, false)[bucket];
            var n := CallsSince(calls, bucket, w.startedAt);
            w.hits == Min(n, maximum + 1) && Admitted(calls, false, bucket, w.startedAt, to) == Min(n, maximum)
    decreases |calls|
  {
    var front, c := calls[..|calls| - 1], calls[|calls| - 1];
    var rows := Table(front, false);
    RowCounts(front, bucket, maximum, seconds);
    assert c in calls;
    if c.bucket == bucket && (bucket !in rows || Over(rows[bucket], c.at, seconds)) {
      NoneSince(front, bucket, c.at, to);
      NoCallsSince(front, bucket, c.at);
    } else {
      assert front[|front| - 1] in front && front[|front| - 1].at <= c.at;
      RowTellsExactly(front, bucket, maximum, seconds, to);
    }
  }

  /** The limiter as it runs: the present window of a bucket has admitted exactly its first calls, as many as
      the maximum allows, and refused the others. */
  lemma LimiterAdmitsExactly(calls: seq<Call>, bucket: Bucket, maximum: nat, seconds: nat, to: int)
    requires Monotone(calls) && OneLimit(calls, bucket, maximum, seconds) && seconds > 0
    requires forall c :: c in calls ==> c.seconds * SECOND <= DAY
    requires calls != [] && bucket in Table(calls, true) && calls[|calls| - 1].at < to
    ensures var start := Table(calls, true)[bucket].startedAt;
            Admitted(calls, true, bucket, start, to) == Min(CallsSince(calls, bucket, start), maximum)
  {
    PruningKeepsRest(calls);
    RowTellsExactly(calls, bucket, maximum, seconds, to);
    SameAdmissions(calls, bucket, Table(calls, true)[bucket].startedAt, to);
  }

  /** After waiting the returned seconds the next call on the bucket is admitted, if and only if the
      limit admits anything at all. */
  lemma WaitingIsEnough(rows: Windows, bucket: Bucket, maximum: nat, seconds: nat, now: int, later: int)
    requires Answer(Hit(rows, bucket, maximum, seconds, now), maximum, seconds, now) > 0
    requires later >= now + Answer(Hit(rows, bucket, maximum, seconds, now), maximum, seconds, now) * SECOND
    ensures var after := Prune(rows[bucket := Hit(rows, bucket, maximum, seconds, now)], now);
            Answer(Hit(after, bucket, maximum, seconds, later), maximum, seconds, later) == 0 <==> maximum >= 1
  {
  }

  /** And it is not much longer than needed: a call more than a second earlier is still refused. */
  lemma WaitIsTight(rows: Windows, bucket: Bucket, maximum: nat, seconds: nat, now: int, earlier: int)
    requires var w := Hit(rows, bucket, maximum, seconds, now);
             && w.hits > maximum && now <= earlier
             && earlier < now + (Answer(w, maximum, seconds, now) - 1) * SECOND
    ensures var after := rows[bucket := Hit(rows, bucket, maximum, seconds, now)];
            Answer(Hit(after, bucket, maximum, seconds, earlier), maximum, seconds, earlier) > 0
  {
  }
}
