/** The sliding-window limiter: every attempt is a row, old rows of a bucket are deleted when it is
    hit again, and a cleanup at start-up deletes rows of all buckets that are an hour old. */
module SlidingLimit {
  import opened Options
  import opened Times

  const CLEANUP_SECONDS := 3600

  datatype Key = Key(scope: string, bucket: string)

  datatype Hit = Hit(key: Key, at: int)

  datatype Limit = Limit(maxHits: int, seconds: nat)

  /** The configured limit of each scope. */
  type Limits = string -> Limit

  function Cutoff(limits: Limits, key: Key, now: int): int {
    now - limits(key.scope).seconds * SECOND
  }

  function Count(rows: seq<Hit>, key: Key, cutoff: int): nat {
    if rows == [] then 0
    else Count(rows[1..], key, cutoff) + if rows[0].key == key && rows[0].at > cutoff then 1 else 0
  }

  /** The rows that are left when those of one bucket up to a cutoff are deleted. */
  function PruneKey(rows: seq<Hit>, key: Key, cutoff: int): seq<Hit> {
    if rows == [] then []
    else (if rows[0].key == key && rows[0].at <= cutoff then [] else [rows[0]]) + PruneKey(rows[1..], key, cutoff)
  }

  function PruneAll(rows: seq<Hit>, cutoff: int): seq<Hit> {
    if rows == [] then [] else (if rows[0].at < cutoff then [] else [rows[0]]) + PruneAll(rows[1..], cutoff)
  }

  function Without(rows: seq<Hit>, key: Key): seq<Hit> {
    if rows == [] then [] else (if rows[0].key == key then [] else [rows[0]]) + Without(rows[1..], key)
  }

  ghost predicate Oldest(rows: seq<Hit>, key: Key, cutoff: int, at: int) {
    && Hit(key, at) in rows && at > cutoff
    && (forall h :: h in rows && h.key == key && h.at > cutoff ==> at <= h.at)
  }

  /** Seconds, rounded down but at least one, until a hit made at `oldest` is due to leave the window. */
  function Hint(limits: Limits, key: Key, oldest: int, now: int): int {
    Max(1, WholeSeconds(limits(key.scope).seconds * SECOND - (now - oldest)))
  }

  /** What a rejected caller is told: the hint for the oldest hit in the window, or the window's length. */
  ghost predicate IsHint(limits: Limits, rows: seq<Hit>, key: Key, now: int, hint: int) {
    if Count(rows, key, Cutoff(limits, key, now)) == 0 then hint == limits(key.scope).seconds
    else exists at :: Oldest(rows, key, Cutoff(limits, key, now), at) && hint == Hint(limits, key, at, now)
  }

  /** A call is admitted while the window, this call included when it is counted, is not full. */
  predicate Admits(limits: Limits, rows: seq<Hit>, key: Key, now: int, consume: bool) {
    Count(if consume then rows + [Hit(key, now)] else rows, key, Cutoff(limits, key, now)) < limits(key.scope).maxHits
  }

  class RateLimiter {
    var rows: seq<Hit>

    constructor ()
      ensures rows == []
    {
      rows := [];
    }

    /** Adds a hit, deletes the bucket's old ones and returns the number in the window. */
    method Record(limits: Limits, key: Key, now: int) returns (hits: nat)
      modifies this
      ensures rows == PruneKey(old(rows) + [Hit(key, now)], key, Cutoff(limits, key, now))
      ensures hits == Count(old(rows) + [Hit(key, now)], key, Cutoff(limits, key, now))
      ensures forall h :: h in rows <==>
                h in old(rows) + [Hit(key, now)] && !(h.key == key && h.at <= now - limits(key.scope).seconds * SECOND)
    {
      rows := rows + [Hit(key, now)];
      ghost var all := rows;
      var cutoff := Cutoff(limits, key, now);
      rows := PruneKey(rows, key, cutoff);
      PruneKeyCounts(all, key, cutoff, key, cutoff);
      PruneKeyKeeps(all, key, cutoff);
      return Count(rows, key, cutoff);
    }

    /** Seconds until the oldest hit of the window is due to leave it. */
    method RetryHint(limits: Limits, key: Key, now: int) returns (retry: int)
      ensures IsHint(limits, rows, key, now, retry)
    {
      var cutoff := Cutoff(limits, key, now);
      var oldest: Option<int> := None;
      var i := 0;
      while i < |rows|
        invariant 0 <= i <= |rows|
        invariant oldest.None? ==> forall h :: h in rows[..i] ==> !(h.key == key && h.at > cutoff)
        invariant oldest.Some? ==> Oldest(rows[..i], key, cutoff, oldest.value)
      {
        if rows[i].key == key && rows[i].at > cutoff && (oldest.None? || rows[i].at < oldest.value) {
          oldest := Some(rows[i].at);
        }
        assert rows[..i + 1] == rows[..i] + [rows[i]];
        i := i + 1;
      }
      assert rows[..i] == rows;
      CountIsZero(rows, key, cutoff);
      if oldest.None? {
        return limits(key.scope).seconds;
      }
      return Hint(limits, key, oldest.value, now);
    }

    /** None when admitted, otherwise the seconds to wait, computed by a second clock reading. */
    method Enforce(limits: Limits, key: Key, now: int, answered: int, consume: bool) returns (retry: Option<int>)
      modifies this
      ensures consume ==> rows == PruneKey(old(rows) + [Hit(key, now)], key, Cutoff(limits, key, now))
      ensures !consume ==> rows == old(rows)
      ensures retry.None? <==> Admits(limits, old(rows), key, now, consume)
      ensures retry.Some? ==> IsHint(limits, rows, key, answered, retry.value)
      ensures retry.Some? ==> Count(rows, key, Cutoff(limits, key, now)) >= limits(key.scope).maxHits
    {
      var hits;
      if consume {
        ghost var all := rows + [Hit(key, now)];
        hits := Record(limits, key, now);
        PruneKeyCounts(all, key, Cutoff(limits, key, now), key, Cutoff(limits, key, now));
      } else {
        hits := Count(rows, key, Cutoff(limits, key, now));
      }
      if hits < limits(key.scope).maxHits {
        return None;
      }
      var hint := RetryHint(limits, key, answered);
      return Some(hint);
    }

    /** Afterwards no hit of the bucket counts in any window, and every other bucket counts as before. */
    method Clear(key: Key)
      modifies this
      ensures forall cutoff :: Count(rows, key, cutoff) == 0
      ensures forall k, cutoff :: k != key ==> Count(rows, k, cutoff) == Count(old(rows), k, cutoff)
      ensures rows == Without(old(rows), key)
    {
      var kept, i := [], |rows|;
      while i > 0
        invariant 0 <= i <= |rows| && kept == Without(rows[i..], key)
      {
        i := i - 1;
        assert rows[i..][1..] == rows[i + 1..];
        if rows[i].key != key {
          kept := [rows[i]] + kept;
        }
      }
      assert rows[0..] == rows;
      forall k, cutoff ensures Count(kept, k, cutoff) == if k == key then 0 else Count(rows, k, cutoff) {
        WithoutCounts(rows, key, k, cutoff);
      }
      rows := kept;
    }
  }

  // ---------------------------------------------------------------- counting

  lemma {:induction false} CountIsZero(rows: seq<Hit>, key: Key, cutoff: int)
    ensures Count(rows, key, cutoff) == 0 <==> forall h :: h in rows ==> !(h.key == key && h.at > cutoff)
  {
    if rows != [] {
      CountIsZero(rows[1..], key, cutoff);
    }
  }

  lemma {:induction false} CountAppends(rows: seq<Hit>, more: seq<Hit>, key: Key, cutoff: int)
    ensures Count(rows + more, key, cutoff) == Count(rows, key, cutoff) + Count(more, key, cutoff)
  {
    if rows == [] {
      assert rows + more == more;
    } else {
      assert (rows + more)[1..] == rows[1..] + more;
      CountAppends(rows[1..], more, key, cutoff);
    }
  }

  lemma CountAppendsOne(rows: seq<Hit>, h: Hit, key: Key, cutoff: int)
    ensures Count(rows + [h], key, cutoff) == Count(rows, key, cutoff) + if h.key == key && h.at > cutoff then 1 else 0
  {
    CountAppends(rows, [h], key, cutoff);
    assert Count([h], key, cutoff) == Count([], key, cutoff) + if h.key == key && h.at > cutoff then 1 else 0;
  }

  lemma {:induction false} PruneKeyKeeps(rows: seq<Hit>, key: Key, cutoff: int)
    ensures forall h :: h in PruneKey(rows, key, cutoff) <==> h in rows && !(h.key == key && h.at <= cutoff)
  {
    if rows != [] {
      PruneKeyKeeps(rows[1..], key, cutoff);
    }
  }

  function InWindow(rows: seq<Hit>, key: Key, cutoff: int): set<nat> {
    set i: nat | i < |rows| && rows[i].key == key && rows[i].at > cutoff
  }

  /** The count is the number of the bucket's rows after the cutoff. */
  lemma {:induction false} CountIsNumber(rows: seq<Hit>, key: Key, cutoff: int)
    ensures Count(rows, key, cutoff) == |InWindow(rows, key, cutoff)|
    decreases |rows|
  {
    if rows != [] {
      var front, n := rows[..|rows| - 1], |rows| - 1;
      assert rows == front + [rows[n]];
      CountIsNumber(front, key, cutoff);
      CountAppendsOne(front, rows[n], key, cutoff);
      assert InWindow(rows, key, cutoff)
          == InWindow(front, key, cutoff) + if rows[n].key == key && rows[n].at > cutoff then {n} else {};
    }
  }

  /** Deleting below a cutoff hides nothing from a later count. */
  lemma {:induction false} PruneKeyCounts(rows: seq<Hit>, pruned: Key, below: int, key: Key, cutoff: int)
    requires key == pruned ==> below <= cutoff
    ensures Count(PruneKey(rows, pruned, below), key, cutoff) == Count(rows, key, cutoff)
  {
    if rows != [] {
      PruneKeyCounts(rows[1..], pruned, below, key, cutoff);
      var kept := if rows[0].key == pruned && rows[0].at <= below then [] else [rows[0]];
      CountAppends(kept, PruneKey(rows[1..], pruned, below), key, cutoff);
    }
  }

  lemma {:induction false} PruneAllCounts(rows: seq<Hit>, below: int, key: Key, cutoff: int)
    requires below <= cutoff + 1
    ensures Count(PruneAll(rows, below), key, cutoff) == Count(rows, key, cutoff)
  {
    if rows != [] {
      PruneAllCounts(rows[1..], below, key, cutoff);
      var kept := if rows[0].at < below then [] else [rows[0]];
      CountAppends(kept, PruneAll(rows[1..], below), key, cutoff);
    }
  }

  lemma {:induction false} WithoutCounts(rows: seq<Hit>, cleared: Key, key: Key, cutoff: int)
    ensures Count(Without(rows, cleared), key, cutoff) == if key == cleared then 0 else Count(rows, key, cutoff)
  {
    if rows != [] {
      WithoutCounts(rows[1..], cleared, key, cutoff);
      var kept := if rows[0].key == cleared then [] else [rows[0]];
      CountAppends(kept, Without(rows[1..], cleared), key, cutoff);
    }
  }

  lemma {:induction false} LowerCutoffCountsMore(rows: seq<Hit>, key: Key, low: int, high: int)
    requires low <= high
    ensures Count(rows, key, high) <= Count(rows, key, low)
  {
    if rows != [] {
      LowerCutoffCountsMore(rows[1..], key, low, high);
    }
  }

  // ---------------------------------------------------------------- all histories

  datatype Event = Attempt(key: Key, at: int) | Clearing(key: Key, at: int) | Cleanup(at: int)

  ghost predicate Monotone(events: seq<Event>) {
    forall i, j :: 0 <= i < j < |events| ==> events[i].at <= events[j].at
  }

  ghost predicate Past(events: seq<Event>, now: int) {
    forall e :: e in events ==> e.at <= now
  }

  /** Deleting old rows changed nothing that can be counted now. */
  ghost predicate CountsAgree(limits: Limits, events: seq<Event>, key: Key, now: int) {
    Count(Rows(limits, events), key, Cutoff(limits, key, now)) == Count(Log(events), key, Cutoff(limits, key, now))
  }

  /** The table as it is kept. */
  function Rows(limits: Limits, events: seq<Event>): seq<Hit> {
    if events == [] then []
    else
      var rows := Rows(limits, events[..|events| - 1]);
      match events[|events| - 1]
      case Attempt(key, at) => PruneKey(rows + [Hit(key, at)], key, Cutoff(limits, key, at))
      case Clearing(key, at) => Without(rows, key)
      case Cleanup(at) => PruneAll(rows, at - CLEANUP_SECONDS * SECOND)
  }

  /** The table if nothing old were ever deleted. */
  function Log(events: seq<Event>): seq<Hit> {
    if events == [] then []
    else
      var log := Log(events[..|events| - 1]);
      match events[|events| - 1]
      case Attempt(key, at) => log + [Hit(key, at)]
      case Clearing(key, at) => Without(log, key)
      case Cleanup(at) => log
  }

  /** Counting after deletions equals counting over the full log, at the last event and at any later
      moment, for every bucket whose window is no longer than the age the cleanup keeps. */
  lemma {:induction false} PruningIsInvisible(limits: Limits, events: seq<Event>, key: Key, now: int)
    requires Monotone(events) && limits(key.scope).seconds <= CLEANUP_SECONDS
    requires Past(events, now)
    ensures CountsAgree(limits, events, key, now)
    decreases |events|
  {
    if events != [] {
      var front, last := events[..|events| - 1], events[|events| - 1];
      var rows, log, cutoff := Rows(limits, front), Log(front), Cutoff(limits, key, now);
      assert last in events;
      PruningIsInvisible(limits, front, key, now);
      match last {
        case Attempt(k, at) =>
          PruneKeyCounts(rows + [Hit(k, at)], k, Cutoff(limits, k, at), key, cutoff);
          CountAppendsOne(rows, Hit(k, at), key, cutoff);
          CountAppendsOne(log, Hit(k, at), key, cutoff);
        case Clearing(k, at) =>
          WithoutCounts(rows, k, key, cutoff);
          WithoutCounts(log, k, key, cutoff);
        case Cleanup(at) =>
          PruneAllCounts(rows, at - CLEANUP_SECONDS * SECOND, key, cutoff);
      }
    }
  }

  /** A longer window can lose hits to the cleanup, so the condition is exact. */
  lemma CleanupRespectsExactly(limits: Limits, key: Key)
    ensures (forall events, now :: Monotone(events) && Past(events, now) ==> CountsAgree(limits, events, key, now))
            <==> limits(key.scope).seconds <= CLEANUP_SECONDS
  {
    if limits(key.scope).seconds <= CLEANUP_SECONDS {
      forall events, now | Monotone(events) && Past(events, now)
        ensures CountsAgree(limits, events, key, now)
      {
        PruningIsInvisible(limits, events, key, now);
      }
    } else {
      var now := CLEANUP_SECONDS * SECOND + 1;
      var hit, first := Hit(key, 0), [Attempt(key, 0)];
      var events := first + [Cleanup(now)];
      assert events[..1] == first && first[..0] == [];
      assert Log(events) == Log(first) == [hit];
      assert Rows(limits, first) == PruneKey([hit], key, Cutoff(limits, key, 0));
      assert PruneAll(Rows(limits, first), 1) == [];
      assert Rows(limits, events) == [];
      assert Count([hit], key, Cutoff(limits, key, now)) == 1;
      assert Past(events, now) && !CountsAgree(limits, events, key, now);
    }
  }

  // ---------------------------------------------------------------- what is admitted

  /** Counted requests on a bucket that were admitted, with `from < at <= to`. */
  function Admitted(limits: Limits, events: seq<Event>, key: Key, from: int, to: int): nat {
    if events == [] then 0
    else
      var last := events[|events| - 1];
      Admitted(limits, events[..|events| - 1], key, from, to)
      + if last.Attempt? && last.key == key && from < last.at <= to
           && Count(Rows(limits, events), key, Cutoff(limits, key, last.at)) < limits(key.scope).maxHits then 1 else 0
  }

  lemma {:induction false} AdmittedAreHits(limits: Limits, events: seq<Event>, key: Key, from: int, to: int)
    requires forall e :: e in events ==> !(e.Clearing? && e.key == key)
    ensures Admitted(limits, events, key, from, to) <= Count(Log(events), key, from)
    decreases |events|
  {
    if events != [] {
      var front, last := events[..|events| - 1], events[|events| - 1];
      assert last in events;
      AdmittedAreHits(limits, front, key, from, to);
      match last {
        case Attempt(k, at) => CountAppendsOne(Log(front), Hit(k, at), key, from);
        case Clearing(k, at) => WithoutCounts(Log(front), k, key, from);
        case Cleanup(at) =>
      }
    }
  }

  lemma LastIsLatest(events: seq<Event>)
    requires Monotone(events) && events != []
    ensures Past(events, events[|events| - 1].at)
  {
    forall e | e in events ensures e.at <= events[|events| - 1].at {
      var i :| 0 <= i < |events| && events[i] == e;
      assert i == |events| - 1 || events[i].at <= events[|events| - 1].at;
    }
  }

  /** When the last request is admitted, all admitted ones and itself are in its window. */
  lemma LastAdmitted(limits: Limits, events: seq<Event>, key: Key, from: int)
    requires Monotone(events) && limits(key.scope).seconds <= CLEANUP_SECONDS && events != []
    requires forall e :: e in events ==> !(e.Clearing? && e.key == key)
    requires var last, to := events[|events| - 1], from + limits(key.scope).seconds * SECOND;
             last.at <= to && Count(Rows(limits, events), key, Cutoff(limits, key, last.at)) < limits(key.scope).maxHits
    ensures Admitted(limits, events, key, from, from + limits(key.scope).seconds * SECOND) < limits(key.scope).maxHits
  {
    var last := events[|events| - 1];
    AdmittedAreHits(limits, events, key, from, from + limits(key.scope).seconds * SECOND);
    LastIsLatest(events);
    PruningIsInvisible(limits, events, key, last.at);
    LowerCutoffCountsMore(Log(events), key, Cutoff(limits, key, last.at), from);
  }

  /** Without a reset, a window of one window length admits at most one request fewer than the limit
      says, because every attempt counts, the rejected ones and the present one too. */
  lemma {:induction false} WindowAdmits(limits: Limits, events: seq<Event>, key: Key, from: int)
    requires Monotone(events) && limits(key.scope).seconds <= CLEANUP_SECONDS
    requires forall e :: e in events ==> !(e.Clearing? && e.key == key)
    ensures Admitted(limits, events, key, from, from + limits(key.scope).seconds * SECOND)
            <= Max(0, limits(key.scope).maxHits - 1)
    decreases |events|
  {
    if events != [] {
      var front, to := events[..|events| - 1], from + limits(key.scope).seconds * SECOND;
      WindowAdmits(limits, front, key, from);
      if Admitted(limits, events, key, from, to) > Admitted(limits, front, key, from, to) {
        LastAdmitted(limits, events, key, from);
      }
    }
  }

  // ---------------------------------------------------------------- what the hint is worth

  /** The instant up to which hits have left the window once the hint has passed: before the oldest hit
      if a fraction of a second was rounded away, and the oldest hit itself if whole seconds were left. */
  function Edge(limits: Limits, key: Key, oldest: int, now: int): int {
    var left := limits(key.scope).seconds * SECOND - (now - oldest);
    if left >= SECOND then oldest - left % SECOND else oldest + SECOND - left
  }

  /** Waiting the hint, with no call in between, gets the next call admitted if and only if the hits
      after the edge, and the call itself if it is counted, are fewer than the limit. */
  lemma HintExactly(limits: Limits, rows: seq<Hit>, key: Key, oldest: int, now: int, consume: bool)
    requires Oldest(rows, key, Cutoff(limits, key, now), oldest) && oldest <= now
    ensures Admits(limits, rows, key, now + Hint(limits, key, oldest, now) * SECOND, consume) <==>
            Count(rows, key, Edge(limits, key, oldest, now)) + (if consume then 1 else 0) < limits(key.scope).maxHits
  {
    var later := now + Hint(limits, key, oldest, now) * SECOND;
    assert Cutoff(limits, key, later) == Edge(limits, key, oldest, now);
    CountAppendsOne(rows, Hit(key, later), key, Cutoff(limits, key, later));
  }

  /** Hits that leave the window while the hint passes. */
  function Leaving(limits: Limits, rows: seq<Hit>, key: Key, oldest: int, now: int): int {
    Count(rows, key, Cutoff(limits, key, now)) - Count(rows, key, Edge(limits, key, oldest, now))
  }

  /** After a rejection no call is admitted on time unless a hit has left, and no counted call unless
      two have: the rejected one took a place, too. */
  lemma OneLeavingIsNotEnough(limits: Limits, rows: seq<Hit>, key: Key, oldest: int, now: int, consume: bool)
    requires Oldest(rows, key, Cutoff(limits, key, now), oldest) && oldest <= now
    requires Count(rows, key, Cutoff(limits, key, now)) >= limits(key.scope).maxHits
    requires Leaving(limits, rows, key, oldest, now) <= if consume then 1 else 0
    ensures !Admits(limits, rows, key, now + Hint(limits, key, oldest, now) * SECOND, consume)
  {
    HintExactly(limits, rows, key, oldest, now, consume);
  }

  lemma {:induction false} NothingBetween(rows: seq<Hit>, key: Key, low: int, high: int)
    requires low <= high && forall h :: h in rows && h.key == key && h.at > low ==> h.at > high
    ensures Count(rows, key, high) == Count(rows, key, low)
  {
    if rows != [] {
      NothingBetween(rows[1..], key, low, high);
    }
  }

  /** When more than a second and no whole number of them is left, no hit leaves while the hint passes,
      and every call after a rejection is rejected again. */
  lemma FractionIsRejected(limits: Limits, rows: seq<Hit>, key: Key, oldest: int, now: int, consume: bool)
    requires Oldest(rows, key, Cutoff(limits, key, now), oldest) && oldest <= now
    requires Count(rows, key, Cutoff(limits, key, now)) >= limits(key.scope).maxHits
    requires var left := limits(key.scope).seconds * SECOND - (now - oldest); left > SECOND && left % SECOND != 0
    ensures !Admits(limits, rows, key, now + Hint(limits, key, oldest, now) * SECOND, consume)
  {
    NothingBetween(rows, key, Cutoff(limits, key, now), Edge(limits, key, oldest, now));
    OneLeavingIsNotEnough(limits, rows, key, oldest, now, consume);
  }

  /** Waiting a whole window is enough, if and only if the limit admits anything at all. */
  lemma WindowIsEnough(limits: Limits, rows: seq<Hit>, key: Key, now: int, consume: bool)
    requires (forall h :: h in rows && h.key == key ==> h.at <= now) && limits(key.scope).seconds > 0
    ensures Admits(limits, rows, key, now + limits(key.scope).seconds * SECOND, consume) <==>
            limits(key.scope).maxHits > if consume then 1 else 0
  {
    var later := now + limits(key.scope).seconds * SECOND;
    CountIsZero(rows, key, Cutoff(limits, key, later));
    CountAppendsOne(rows, Hit(key, later), key, Cutoff(limits, key, later));
  }

  lemma TwoHits(limits: Limits, key: Key)
    requires limits(key.scope) == Limit(2, 60)
    ensures Rows(limits, [Attempt(key, 0)]) == [Hit(key, 0)]
    ensures Rows(limits, [Attempt(key, 0), Attempt(key, SECOND)]) == [Hit(key, 0), Hit(key, SECOND)]
  {
    var first, both := [Attempt(key, 0)], [Attempt(key, 0), Attempt(key, SECOND)];
    var a, b := Hit(key, 0), Hit(key, SECOND);
    assert first[..0] == [] && both[..1] == first;
    assert Rows(limits, first) == PruneKey([] + [a], key, Cutoff(limits, key, 0)) == [a];
    assert PruneKey([b], key, Cutoff(limits, key, SECOND)) == [b] && [a, b][1..] == [b];
    assert Rows(limits, both) == PruneKey([a] + [b], key, Cutoff(limits, key, SECOND)) == [a, b];
  }

  lemma CountTwo(a: Hit, b: Hit, key: Key, cutoff: int)
    requires a.key == b.key == key
    ensures Count([a, b], key, cutoff) == (if a.at > cutoff then 1 else 0) + if b.at > cutoff then 1 else 0
  {
    assert [a, b] == [a] + [b] && [a] == [] + [a];
    CountAppendsOne([a], b, key, cutoff);
    CountAppendsOne([], a, key, cutoff);
  }

  /** Two counted calls a second apart under a limit of two per minute: the second is rejected, told to
      wait 59 seconds, and rejected again when it has. */
  lemma WaitedAndRejected(limits: Limits, key: Key)
    requires limits(key.scope) == Limit(2, 60)
    ensures !Admits(limits, Rows(limits, [Attempt(key, 0)]), key, SECOND, true)
    ensures var rows := Rows(limits, [Attempt(key, 0), Attempt(key, SECOND)]);
            IsHint(limits, rows, key, SECOND, 59) && !Admits(limits, rows, key, 60 * SECOND, true)
  {
    var a, b := Hit(key, 0), Hit(key, SECOND);
    TwoHits(limits, key);
    assert [a] + [b] == [a, b];
    CountTwo(a, b, key, Cutoff(limits, key, SECOND));
    CountTwo(a, b, key, 0);
    assert Oldest([a, b], key, Cutoff(limits, key, SECOND), 0) && Hint(limits, key, 0, SECOND) == 59;
    HintExactly(limits, [a, b], key, 0, SECOND, true);
  }
}
