/** The audit log of one workspace: each event's hash covers its predecessor's, the writer picks the
    predecessor by sort order, and the verifier walks the rows in that order. */
module AuditChain {
  import opened Options
  import opened TextOrder

  /** The hashed columns of an event. */
  datatype Facts = Facts(id: string, kind: string, createdAt: string, outcome: string)

  datatype Event = Event(facts: Facts, prevHash: Option<string>, hash: Option<string>)

  type Hash = string -> string

  /** The text of an optional column, as `value or ''` gives it. */
  function OrEmpty(value: Option<string>): string {
    if value.Some? then value.value else ""
  }

  /** An empty column counts as absent, as `value or None` gives it. */
  function OrNone(value: Option<string>): Option<string> {
    if value == Some("") then None else value
  }

  function Material(previous: Option<string>, x: Facts): string {
    OrEmpty(previous) + ("|" + (x.id + ("|" + (x.kind + ("|" + (x.createdAt + ("|" + x.outcome)))))))
  }

  predicate Before(a: Facts, b: Facts) {
    Less(a.createdAt, b.createdAt) || (a.createdAt == b.createdAt && Less(a.id, b.id))
  }

  /** ORDER BY created_at, event_id over distinct event ids. */
  ghost predicate Sorted(rows: seq<Event>) {
    forall i, j :: 0 <= i < j < |rows| ==> Before(rows[i].facts, rows[j].facts)
  }

  function LastHash(rows: seq<Event>): Option<string> {
    if rows == [] then None else rows[|rows| - 1].hash
  }

  /** The event a writer builds on the hash it read. */
  function NewEvent(h: Hash, previous: Option<string>, x: Facts): Event {
    Event(x, previous, Some(h(Material(previous, x))))
  }

  /** How many rows sort before a new event: its place in the walk. */
  function Place(rows: seq<Event>, x: Facts): (k: nat)
    ensures k <= |rows|
  {
    if rows == [] || Before(x, rows[0].facts) then 0 else 1 + Place(rows[1..], x)
  }

  predicate NewId(rows: seq<Event>, x: Facts) {
    forall i :: 0 <= i < |rows| ==> rows[i].facts.id != x.id
  }

  function Insert(rows: seq<Event>, e: Event): seq<Event> {
    rows[..Place(rows, e.facts)] + [e] + rows[Place(rows, e.facts)..]
  }

  predicate Broken(h: Hash, previous: Option<string>, e: Event) {
    e.hash != Some(h(Material(previous, e.facts))) || OrNone(e.prevHash) != previous
  }

  function Previous(rows: seq<Event>, i: nat): Option<string>
    requires i <= |rows|
  {
    if i == 0 then None else rows[i - 1].hash
  }

  predicate LinkHolds(h: Hash, rows: seq<Event>, i: nat)
    requires i < |rows|
  {
    !Broken(h, Previous(rows, i), rows[i])
  }

  ghost predicate Intact(h: Hash, rows: seq<Event>) {
    forall i :: 0 <= i < |rows| ==> LinkHolds(h, rows, i)
  }

  /** The first row whose link fails. */
  ghost predicate FirstBreak(h: Hash, rows: seq<Event>, k: nat) {
    && k < |rows|
    && !LinkHolds(h, rows, k)
    && (forall i :: 0 <= i < k ==> LinkHolds(h, rows, i))
  }

  datatype Report = Report(ok: bool, brokenEventId: Option<string>, checked: nat)

  class AuditLog {
    var rows: seq<Event>

    constructor ()
      ensures rows == []
    {
      rows := [];
    }

    /** Adds one event that names the hash sorting last, and loses and reorders none. On an intact log
        with plain columns the result is intact exactly when the new event sorts last. */
    method Record(h: Hash, x: Facts) returns (e: Event)
      requires Sorted(rows) && NewId(rows, x)
      modifies this
      ensures e.facts == x && e.prevHash == LastHash(old(rows))
      ensures Sorted(rows) && |rows| == |old(rows)| + 1 && (forall f :: f in rows <==> f == e || f in old(rows))
      ensures GoodHash(h) && Intact(h, old(rows)) && PlainRows(old(rows)) ==>
                (Intact(h, rows) <==> SortsLast(old(rows), x))
      ensures rows == Insert(old(rows), NewEvent(h, LastHash(old(rows)), x))
    {
      var previous := if |rows| == 0 then None else rows[|rows| - 1].hash;
      e := Event(x, previous, Some(h(Material(previous, x))));
      var k := 0;
      assert rows[0..] == rows;
      while k < |rows| && !Before(x, rows[k].facts)
        invariant 0 <= k <= |rows| && Place(rows, x) == k + Place(rows[k..], x)
      {
        assert rows[k..][1..] == rows[k + 1..];
        k := k + 1;
      }
      InsertSorts(rows, e);
      InsertHolds(rows, e);
      if GoodHash(h) && Intact(h, rows) && PlainRows(rows) {
        AppendExactly(h, rows, x);
      }
      rows := rows[..k] + [e] + rows[k..];
    }

    /** Walks the chain; a failure names the first row whose link does not hold. */
    method Verify(h: Hash) returns (report: Report)
      ensures report.ok <==> Intact(h, rows)
      ensures report.checked == |rows|
      ensures report.ok ==> report.brokenEventId == None
      ensures !report.ok ==>
                exists k :: 0 <= k < |rows| && FirstBreak(h, rows, k) && report.brokenEventId == Some(rows[k].facts.id)
    {
      var previous: Option<string> := None;
      var i := 0;
      while i < |rows|
        invariant 0 <= i <= |rows| && previous == Previous(rows, i)
        invariant forall j :: 0 <= j < i ==> LinkHolds(h, rows, j)
      {
        var row := rows[i];
        if row.hash != Some(h(Material(previous, row.facts))) || OrNone(row.prevHash) != previous {
          assert FirstBreak(h, rows, i);
          return Report(false, Some(row.facts.id), |rows|);
        }
        previous := row.hash;
        i := i + 1;
      }
      return Report(true, None, |rows|);
    }
  }

  // ---------------------------------------------------------------- the hash and its material

  predicate Plain(text: string) {
    '|' !in text
  }

  predicate PlainFacts(x: Facts) {
    Plain(x.id) && Plain(x.kind) && Plain(x.createdAt) && Plain(x.outcome)
  }

  ghost predicate PlainRows(rows: seq<Event>) {
    forall i :: 0 <= i < |rows| ==> PlainFacts(rows[i].facts)
  }

  /** A hash without collisions whose output is never empty and never holds the separator. */
  ghost predicate GoodHash(h: Hash) {
    && (forall a, b :: h(a) == h(b) ==> a == b)
    && (forall a :: h(a) != "" && Plain(h(a)))
  }

  lemma PlainSplits(a: string, x: string, b: string, y: string)
    requires Plain(a) && Plain(b) && a + ("|" + x) == b + ("|" + y)
    ensures a == b && x == y
  {
    var s, t := a + ("|" + x), b + ("|" + y);
    assert s[|a|] == '|' && t[|b|] == '|';
    assert forall i :: 0 <= i < |a| ==> s[i] == a[i] && a[i] != '|';
    assert forall i :: 0 <= i < |b| ==> t[i] == b[i] && b[i] != '|';
    assert |a| == |b|;
    assert a == s[..|a|] && b == t[..|b|];
    assert "|" + x == s[|a|..] && "|" + y == t[|b|..];
    assert x == ("|" + x)[1..] && y == ("|" + y)[1..];
  }

  /** The hashed material determines the predecessor and all four facts. */
  lemma MaterialDetermines(p: Option<string>, a: Facts, q: Option<string>, b: Facts)
    requires Plain(OrEmpty(p)) && Plain(OrEmpty(q)) && PlainFacts(a) && PlainFacts(b)
    requires Material(p, a) == Material(q, b)
    ensures OrEmpty(p) == OrEmpty(q) && a == b
  {
    var lastA, lastB := a.createdAt + ("|" + a.outcome), b.createdAt + ("|" + b.outcome);
    var kindA, kindB := a.kind + ("|" + lastA), b.kind + ("|" + lastB);
    PlainSplits(OrEmpty(p), a.id + ("|" + kindA), OrEmpty(q), b.id + ("|" + kindB));
    PlainSplits(a.id, kindA, b.id, kindB);
    PlainSplits(a.kind, lastA, b.kind, lastB);
    PlainSplits(a.createdAt, a.outcome, b.createdAt, b.outcome);
  }

  lemma HashesPlain(h: Hash, rows: seq<Event>, i: nat)
    requires GoodHash(h) && Intact(h, rows) && i <= |rows|
    ensures Plain(OrEmpty(Previous(rows, i)))
    ensures i > 0 ==> OrEmpty(Previous(rows, i)) != ""
  {
    if i > 0 {
      assert LinkHolds(h, rows, i - 1);
    }
  }

  /** Within one intact chain every hash is different. */
  lemma HashesDiffer(h: Hash, rows: seq<Event>, i: nat, j: nat)
    requires GoodHash(h) && Sorted(rows) && Intact(h, rows) && PlainRows(rows) && i < j < |rows|
    ensures rows[i].hash != rows[j].hash
  {
    if rows[i].hash == rows[j].hash {
      assert LinkHolds(h, rows, i) && LinkHolds(h, rows, j);
      HashesPlain(h, rows, i);
      HashesPlain(h, rows, j);
      MaterialDetermines(Previous(rows, i), rows[i].facts, Previous(rows, j), rows[j].facts);
      assert Before(rows[i].facts, rows[j].facts);
      LessTrichotomy(rows[i].facts.createdAt, rows[j].facts.createdAt);
      LessTrichotomy(rows[i].facts.id, rows[j].facts.id);
      assert false;
    }
  }

  // ---------------------------------------------------------------- inserting in sort order

  lemma BeforeTransitive(a: Facts, b: Facts, c: Facts)
    requires Before(a, b) && Before(b, c)
    ensures Before(a, c)
  {
    if Less(a.createdAt, b.createdAt) && Less(b.createdAt, c.createdAt) {
      LessTransitive(a.createdAt, b.createdAt, c.createdAt);
    } else if a.createdAt == b.createdAt == c.createdAt {
      LessTransitive(a.id, b.id, c.id);
    }
  }

  lemma BeforeTotal(a: Facts, b: Facts)
    requires a.id != b.id
    ensures Before(a, b) || Before(b, a)
    ensures !(Before(a, b) && Before(b, a))
  {
    LessTrichotomy(a.createdAt, b.createdAt);
    LessTrichotomy(a.id, b.id);
  }

  lemma {:induction false} PlaceSplits(rows: seq<Event>, x: Facts)
    requires Sorted(rows) && NewId(rows, x)
    ensures forall i :: 0 <= i < Place(rows, x) ==> Before(rows[i].facts, x)
    ensures forall i :: Place(rows, x) <= i < |rows| ==> Before(x, rows[i].facts)
    decreases |rows|
  {
    if rows != [] {
      if Before(x, rows[0].facts) {
        forall i | 0 <= i < |rows| ensures Before(x, rows[i].facts) {
          if i > 0 {
            BeforeTransitive(x, rows[0].facts, rows[i].facts);
          }
        }
      } else {
        BeforeTotal(x, rows[0].facts);
        PlaceSplits(rows[1..], x);
        forall i | 0 <= i < |rows|
          ensures if i < Place(rows, x) then Before(rows[i].facts, x) else Before(x, rows[i].facts)
        {
          assert i > 0 ==> rows[i] == rows[1..][i - 1];
        }
      }
    }
  }

  lemma InsertSorts(rows: seq<Event>, e: Event)
    requires Sorted(rows) && NewId(rows, e.facts)
    ensures Sorted(Insert(rows, e))
  {
    PlaceSplits(rows, e.facts);
  }

  lemma InsertHolds(rows: seq<Event>, e: Event)
    ensures forall f :: f in Insert(rows, e) <==> f == e || f in rows
  {
    var k := Place(rows, e.facts);
    assert rows == rows[..k] + rows[k..];
  }

  lemma InsertKeepsPlain(rows: seq<Event>, e: Event)
    requires PlainRows(rows) && PlainFacts(e.facts)
    ensures PlainRows(Insert(rows, e))
  {
  }

  ghost predicate SortsLast(rows: seq<Event>, x: Facts) {
    forall i :: 0 <= i < |rows| ==> Before(rows[i].facts, x)
  }

  lemma LastPlace(rows: seq<Event>, x: Facts)
    requires Sorted(rows) && NewId(rows, x)
    ensures SortsLast(rows, x) <==> Place(rows, x) == |rows|
  {
    PlaceSplits(rows, x);
    if Place(rows, x) < |rows| {
      BeforeTotal(x, rows[Place(rows, x)].facts);
    }
  }

  lemma InsertKeepsFront(h: Hash, rows: seq<Event>, e: Event)
    requires Intact(h, rows)
    ensures var k, after := Place(rows, e.facts), Insert(rows, e);
            && (forall i :: 0 <= i < k ==> LinkHolds(h, after, i))
            && after[k] == e && Previous(after, k) == Previous(rows, k)
  {
    var k, after := Place(rows, e.facts), Insert(rows, e);
    forall i | 0 <= i < k ensures LinkHolds(h, after, i) {
      assert LinkHolds(h, rows, i) && after[i] == rows[i] && Previous(after, i) == Previous(rows, i);
    }
  }

  // ---------------------------------------------------------------- one append

  lemma AppendedAtEnd(h: Hash, rows: seq<Event>, x: Facts)
    requires GoodHash(h) && Intact(h, rows) && Place(rows, x) == |rows|
    ensures Intact(h, Insert(rows, NewEvent(h, LastHash(rows), x)))
  {
    var e := NewEvent(h, LastHash(rows), x);
    HashesPlain(h, rows, |rows|);
    InsertKeepsFront(h, rows, e);
    assert LinkHolds(h, Insert(rows, e), |rows|);
  }

  /** A predecessor taken from the end of the chain is wrong for a row that sorts earlier. */
  lemma AppendedEarlier(h: Hash, rows: seq<Event>, x: Facts)
    requires GoodHash(h) && Sorted(rows) && Intact(h, rows) && PlainRows(rows) && Place(rows, x) < |rows|
    ensures FirstBreak(h, Insert(rows, NewEvent(h, LastHash(rows), x)), Place(rows, x))
  {
    var k := Place(rows, x);
    HashesPlain(h, rows, |rows|);
    if k > 0 {
      HashesDiffer(h, rows, k - 1, |rows| - 1);
    }
    InsertKeepsFront(h, rows, NewEvent(h, LastHash(rows), x));
  }

  /** Appending to an intact chain keeps it intact exactly when the new event sorts last; otherwise
      the new event is the first broken row. */
  lemma AppendExactly(h: Hash, rows: seq<Event>, x: Facts)
    requires GoodHash(h) && Sorted(rows) && Intact(h, rows) && PlainRows(rows) && NewId(rows, x)
    ensures var e := NewEvent(h, LastHash(rows), x);
            && (Intact(h, Insert(rows, e)) <==> SortsLast(rows, x))
            && (!SortsLast(rows, x) ==>
                  FirstBreak(h, Insert(rows, e), Place(rows, x)) && Insert(rows, e)[Place(rows, x)] == e)
  {
    LastPlace(rows, x);
    if Place(rows, x) == |rows| {
      AppendedAtEnd(h, rows, x);
    } else {
      AppendedEarlier(h, rows, x);
    }
  }

  // ---------------------------------------------------------------- whole histories of concurrent writers

  /** One insert, by a writer that read the log when it held `readAt` inserts. The read and the insert
      are separate statements, and nothing locks the log in between. */
  datatype Write = Write(facts: Facts, readAt: nat)

  function Min(a: nat, b: nat): nat {
    if a < b then a else b
  }

  function Front(writes: seq<Write>): seq<Write>
    requires writes != []
  {
    writes[..|writes| - 1]
  }

  /** How many inserts the last writer had seen. */
  function Seen(writes: seq<Write>): (k: nat)
    requires writes != []
    ensures k < |writes|
  {
    Min(writes[|writes| - 1].readAt, |writes| - 1)
  }

  function RecordAll(h: Hash, writes: seq<Write>): seq<Event>
    decreases |writes|
  {
    if writes == [] then []
    else
      var seen := RecordAll(h, writes[..Seen(writes)]);
      Insert(RecordAll(h, Front(writes)), NewEvent(h, LastHash(seen), writes[|writes| - 1].facts))
  }

  ghost predicate InOrder(writes: seq<Write>) {
    forall i, j :: 0 <= i < j < |writes| ==> Before(writes[i].facts, writes[j].facts)
  }

  /** Every writer read the log just before its own insert, with no other insert in between. */
  ghost predicate Serial(writes: seq<Write>) {
    forall i :: 0 <= i < |writes| ==> writes[i].readAt >= i
  }

  ghost predicate Proper(writes: seq<Write>) {
    && (forall i, j :: 0 <= i < j < |writes| ==> writes[i].facts.id != writes[j].facts.id)
    && (forall i :: 0 <= i < |writes| ==> PlainFacts(writes[i].facts))
  }

  predicate Wrote(writes: seq<Write>, x: Facts) {
    exists i :: 0 <= i < |writes| && writes[i].facts == x
  }

  predicate Holds(rows: seq<Event>, x: Facts) {
    exists i :: 0 <= i < |rows| && rows[i].facts == x
  }

  /** The rows hold what was written and nothing else, sorted. */
  ghost predicate Records(rows: seq<Event>, writes: seq<Write>) {
    && Sorted(rows) && PlainRows(rows) && |rows| == |writes|
    && (forall i :: 0 <= i < |rows| ==> Wrote(writes, rows[i].facts))
    && (forall i :: 0 <= i < |writes| ==> Holds(rows, writes[i].facts))
  }

  lemma NewIdIsNew(rows: seq<Event>, writes: seq<Write>)
    requires Proper(writes) && writes != [] && Records(rows, Front(writes))
    ensures NewId(rows, writes[|writes| - 1].facts)
  {
    forall i | 0 <= i < |rows| ensures rows[i].facts.id != writes[|writes| - 1].facts.id {
      assert Wrote(Front(writes), rows[i].facts);
      var k :| 0 <= k < |writes| - 1 && Front(writes)[k].facts == rows[i].facts;
      assert writes[k].facts == rows[i].facts;
    }
  }

  lemma RowsWereWritten(rows: seq<Event>, e: Event, writes: seq<Write>)
    requires writes != [] && Records(rows, Front(writes)) && e.facts == writes[|writes| - 1].facts
    ensures forall i :: 0 <= i < |Insert(rows, e)| ==> Wrote(writes, Insert(rows, e)[i].facts)
  {
    var k, after, front := Place(rows, e.facts), Insert(rows, e), Front(writes);
    forall i | 0 <= i < |after| ensures Wrote(writes, after[i].facts) {
      if i == k {
        assert writes[|writes| - 1].facts == after[i].facts;
      } else {
        var j := if i < k then i else i - 1;
        assert Wrote(front, rows[j].facts);
        var m :| 0 <= m < |front| && front[m].facts == rows[j].facts;
        assert writes[m].facts == after[i].facts;
      }
    }
  }

  lemma WritesAreHeld(rows: seq<Event>, e: Event, writes: seq<Write>)
    requires writes != [] && Records(rows, Front(writes)) && e.facts == writes[|writes| - 1].facts
    ensures forall i :: 0 <= i < |writes| ==> Holds(Insert(rows, e), writes[i].facts)
  {
    var k, after, front := Place(rows, e.facts), Insert(rows, e), Front(writes);
    forall i | 0 <= i < |writes| ensures Holds(after, writes[i].facts) {
      if i == |writes| - 1 {
        assert after[k].facts == writes[i].facts;
      } else {
        assert Holds(rows, front[i].facts);
        var m :| 0 <= m < |rows| && rows[m].facts == front[i].facts;
        assert after[if m < k then m else m + 1].facts == writes[i].facts;
      }
    }
  }

  lemma WriteIsRecorded(rows: seq<Event>, e: Event, writes: seq<Write>)
    requires Proper(writes) && writes != [] && Records(rows, Front(writes)) && e.facts == writes[|writes| - 1].facts
    ensures Records(Insert(rows, e), writes)
  {
    NewIdIsNew(rows, writes);
    InsertSorts(rows, e);
    InsertKeepsPlain(rows, e);
    RowsWereWritten(rows, e, writes);
    WritesAreHeld(rows, e, writes);
  }

  lemma {:induction false} AllRecorded(h: Hash, writes: seq<Write>)
    requires Proper(writes)
    ensures Records(RecordAll(h, writes), writes)
    decreases |writes|
  {
    if writes != [] {
      AllRecorded(h, Front(writes));
      var seen := RecordAll(h, writes[..Seen(writes)]);
      WriteIsRecorded(RecordAll(h, Front(writes)), NewEvent(h, LastHash(seen), writes[|writes| - 1].facts), writes);
    }
  }

  lemma OrderGrows(rows: seq<Event>, writes: seq<Write>)
    requires writes != [] && Records(rows, Front(writes))
    ensures InOrder(writes) <==> InOrder(Front(writes)) && SortsLast(rows, writes[|writes| - 1].facts)
  {
    var front, x, n := Front(writes), writes[|writes| - 1].facts, |writes| - 1;
    if InOrder(writes) {
      forall i | 0 <= i < |rows| ensures Before(rows[i].facts, x) {
        assert Wrote(front, rows[i].facts);
        var k :| 0 <= k < n && front[k].facts == rows[i].facts;
        assert Before(writes[k].facts, writes[n].facts);
      }
    }
    if InOrder(front) && SortsLast(rows, x) {
      forall i, j | 0 <= i < j < |writes| ensures Before(writes[i].facts, writes[j].facts) {
        assert front[i] == writes[i];
        if j < n {
          assert front[j] == writes[j];
        } else {
          assert Holds(rows, front[i].facts);
          var m :| 0 <= m < |rows| && rows[m].facts == front[i].facts;
        }
      }
    }
  }

  lemma SerialGrows(writes: seq<Write>)
    requires writes != []
    ensures Serial(writes) <==> Serial(Front(writes)) && Seen(writes) == |writes| - 1
  {
    assert forall i :: 0 <= i < |writes| - 1 ==> Front(writes)[i] == writes[i];
  }

  /** What matters about the rows the last write meets. */
  lemma LastWrite(h: Hash, writes: seq<Write>)
    requires Proper(writes) && writes != []
    ensures var rows, x := RecordAll(h, Front(writes)), writes[|writes| - 1].facts;
            && Sorted(rows) && PlainRows(rows) && |rows| == |writes| - 1 && NewId(rows, x)
            && (InOrder(writes) <==> InOrder(Front(writes)) && SortsLast(rows, x))
  {
    AllRecorded(h, Front(writes));
    NewIdIsNew(RecordAll(h, Front(writes)), writes);
    OrderGrows(RecordAll(h, Front(writes)), writes);
  }

  lemma InsertLast(rows: seq<Event>, e: Event, k: nat)
    requires Sorted(rows) && NewId(rows, e.facts) && SortsLast(rows, e.facts) && k <= |rows|
    ensures |Insert(rows, e)| == |rows| + 1 && Insert(rows, e)[..k] == rows[..k]
  {
    LastPlace(rows, e.facts);
  }

  /** An insert that sorts last leaves the rows before it where they are. */
  lemma LastInsert(h: Hash, writes: seq<Write>, k: nat)
    requires Proper(writes) && writes != [] && InOrder(writes) && k < |writes|
    ensures InOrder(Front(writes)) && |RecordAll(h, Front(writes))| == |writes| - 1
    ensures RecordAll(h, writes)[..k] == RecordAll(h, Front(writes))[..k]
  {
    LastWrite(h, writes);
    var seen := RecordAll(h, writes[..Seen(writes)]);
    InsertLast(RecordAll(h, Front(writes)), NewEvent(h, LastHash(seen), writes[|writes| - 1].facts), k);
  }

  lemma RecordsAll(h: Hash, writes: seq<Write>)
    requires Proper(writes)
    ensures |RecordAll(h, writes)| == |writes|
  {
    AllRecorded(h, writes);
  }

  /** Inserted in sort order, the log only grows at its end. */
  lemma {:induction false} GrowsAtEnd(h: Hash, writes: seq<Write>, k: nat)
    requires Proper(writes) && InOrder(writes) && k <= |writes|
    ensures |RecordAll(h, writes)| == |writes| && RecordAll(h, writes[..k]) == RecordAll(h, writes)[..k]
    decreases |writes|
  {
    RecordsAll(h, writes);
    if k == |writes| {
      assert writes[..k] == writes;
    } else {
      LastInsert(h, writes, k);
      GrowsAtEnd(h, Front(writes), k);
      assert Front(writes)[..k] == writes[..k];
    }
  }

  // ---------------------------------------------------------------- damage that stays

  /** A row that names a later-sorting row as its predecessor. */
  predicate NamesLater(rows: seq<Event>, i: int, j: int) {
    0 <= i < j < |rows| && rows[j].hash !in {None, Some("")} && rows[i].prevHash == rows[j].hash
  }

  /** Two rows that name the same predecessor, or none. */
  predicate Fork(rows: seq<Event>, i: int, j: int) {
    0 <= i < j < |rows| && OrNone(rows[i].prevHash) == OrNone(rows[j].prevHash)
  }

  ghost predicate Damaged(rows: seq<Event>) {
    exists i, j :: NamesLater(rows, i, j) || Fork(rows, i, j)
  }

  lemma InsertKeepsDamaged(rows: seq<Event>, e: Event)
    requires Damaged(rows)
    ensures Damaged(Insert(rows, e))
  {
    var k, after := Place(rows, e.facts), Insert(rows, e);
    var i, j :| NamesLater(rows, i, j) || Fork(rows, i, j);
    var i', j' := if i < k then i else i + 1, if j < k then j else j + 1;
    assert NamesLater(after, i', j') || Fork(after, i', j');
  }

  /** In an intact chain no two rows name the same predecessor, */
  lemma NoFork(h: Hash, rows: seq<Event>, i: nat, j: nat)
    requires GoodHash(h) && Sorted(rows) && PlainRows(rows) && Intact(h, rows) && i < j < |rows|
    ensures !Fork(rows, i, j)
  {
    assert LinkHolds(h, rows, i) && LinkHolds(h, rows, j);
    HashesPlain(h, rows, j);
    if i > 0 {
      HashesDiffer(h, rows, i - 1, j - 1);
    }
  }

  /** and none names a later one. */
  lemma NoneNamesLater(h: Hash, rows: seq<Event>, i: nat, j: nat)
    requires GoodHash(h) && Sorted(rows) && PlainRows(rows) && Intact(h, rows) && i < j < |rows|
    ensures !NamesLater(rows, i, j)
  {
    assert LinkHolds(h, rows, i);
    if i > 0 {
      HashesDiffer(h, rows, i - 1, j);
    }
  }

  lemma DamagedIsBroken(h: Hash, rows: seq<Event>)
    requires GoodHash(h) && Sorted(rows) && PlainRows(rows) && Damaged(rows)
    ensures !Intact(h, rows)
  {
    var i, j :| NamesLater(rows, i, j) || Fork(rows, i, j);
    if Intact(h, rows) {
      NoFork(h, rows, i, j);
      NoneNamesLater(h, rows, i, j);
    }
  }

  /** A writer that read the first k rows of an intact log extends it if it read all of them and its
      event sorts last, and damages it in every other case. */
  lemma StepExactly(h: Hash, rows: seq<Event>, x: Facts, k: nat)
    requires GoodHash(h) && Sorted(rows) && Intact(h, rows) && PlainRows(rows) && NewId(rows, x) && k <= |rows|
    ensures var after := Insert(rows, NewEvent(h, Previous(rows, k), x));
            if k == |rows| && SortsLast(rows, x) then Intact(h, after) else Damaged(after)
  {
    var p, e := Place(rows, x), NewEvent(h, Previous(rows, k), x);
    var after := Insert(rows, e);
    LastPlace(rows, x);
    HashesPlain(h, rows, k);
    if k == |rows| && p == |rows| {
      AppendedAtEnd(h, rows, x);
    } else if k <= p {
      assert LinkHolds(h, rows, k);
      assert if k < p then Fork(after, k, p) else Fork(after, p, k + 1);
    } else {
      assert after[k] == rows[k - 1] && LinkHolds(h, rows, k - 1);
      assert NamesLater(after, p, k);
    }
  }

  lemma DamageStays(h: Hash, writes: seq<Write>)
    requires writes != [] && Damaged(RecordAll(h, Front(writes)))
    ensures Damaged(RecordAll(h, writes))
  {
    var seen := RecordAll(h, writes[..Seen(writes)]);
    InsertKeepsDamaged(RecordAll(h, Front(writes)), NewEvent(h, LastHash(seen), writes[|writes| - 1].facts));
  }

  /** What the last writer read is the hash at the place where it read. */
  lemma SeenHash(h: Hash, writes: seq<Write>)
    requires Proper(writes) && writes != [] && InOrder(Front(writes))
    ensures |RecordAll(h, Front(writes))| == |writes| - 1
    ensures LastHash(RecordAll(h, writes[..Seen(writes)])) == Previous(RecordAll(h, Front(writes)), Seen(writes))
  {
    var rows, k := RecordAll(h, Front(writes)), Seen(writes);
    GrowsAtEnd(h, Front(writes), k);
    assert Front(writes)[..k] == writes[..k];
    assert LastHash(rows[..k]) == Previous(rows, k);
  }

  lemma WriteExactly(h: Hash, writes: seq<Write>)
    requires GoodHash(h) && Proper(writes) && writes != []
    requires InOrder(Front(writes)) && Intact(h, RecordAll(h, Front(writes)))
    ensures if InOrder(writes) && Seen(writes) == |writes| - 1 then Intact(h, RecordAll(h, writes))
            else Damaged(RecordAll(h, writes))
  {
    LastWrite(h, writes);
    SeenHash(h, writes);
    StepExactly(h, RecordAll(h, Front(writes)), writes[|writes| - 1].facts, Seen(writes));
  }

  /** A log verifies if and only if its events were inserted in the order in which they sort and no
      writer was overtaken between its read and its insert. One exception breaks the log for good. */
  lemma {:induction false} HistoryExactly(h: Hash, writes: seq<Write>)
    requires GoodHash(h) && Proper(writes)
    ensures Intact(h, RecordAll(h, writes)) <==> InOrder(writes) && Serial(writes)
    ensures Intact(h, RecordAll(h, writes)) || Damaged(RecordAll(h, writes))
    decreases |writes|
  {
    if writes != [] {
      HistoryExactly(h, Front(writes));
      if Intact(h, RecordAll(h, Front(writes))) {
        WriteExactly(h, writes);
      } else {
        DamageStays(h, writes);
      }
      SerialGrows(writes);
      LastWrite(h, writes);
      AllRecorded(h, writes);
      if Damaged(RecordAll(h, writes)) {
        DamagedIsBroken(h, RecordAll(h, writes));
      }
    }
  }

  /** Two writers that both read the empty log, and insert in sort order: the log does not verify. */
  lemma TwoWritersFork(h: Hash, a: Facts, b: Facts)
    requires GoodHash(h) && PlainFacts(a) && PlainFacts(b) && a.id != b.id && Before(a, b)
    ensures InOrder([Write(a, 0), Write(b, 0)]) && !Intact(h, RecordAll(h, [Write(a, 0), Write(b, 0)]))
  {
    var writes := [Write(a, 0), Write(b, 0)];
    assert writes[1].readAt < 1;
    HistoryExactly(h, writes);
  }

  // ---------------------------------------------------------------- what the last hash pins down

  lemma IntactPrefix(h: Hash, rows: seq<Event>)
    requires rows != [] && Intact(h, rows)
    ensures Intact(h, rows[..|rows| - 1])
    ensures LastHash(rows[..|rows| - 1]) == Previous(rows, |rows| - 1)
  {
    var front := rows[..|rows| - 1];
    forall i | 0 <= i < |front| ensures LinkHolds(h, front, i) {
      assert LinkHolds(h, rows, i) && front[i] == rows[i] && Previous(front, i) == Previous(rows, i);
    }
  }

  /** Two intact chains that end in the same hash have the same length and record the same facts
      in the same order. */
  lemma {:induction false} LastHashPinsHistory(h: Hash, a: seq<Event>, b: seq<Event>)
    requires GoodHash(h) && Intact(h, a) && Intact(h, b) && a != [] && b != []
    requires PlainRows(a) && PlainRows(b) && LastHash(a) == LastHash(b)
    ensures |a| == |b| && forall i :: 0 <= i < |a| ==> a[i].facts == b[i].facts
    decreases |a|
  {
    var n, m := |a| - 1, |b| - 1;
    assert LinkHolds(h, a, n) && LinkHolds(h, b, m);
    HashesPlain(h, a, n);
    HashesPlain(h, b, m);
    MaterialDetermines(Previous(a, n), a[n].facts, Previous(b, m), b[m].facts);
    assert n == 0 <==> m == 0;
    if n > 0 {
      IntactPrefix(h, a);
      IntactPrefix(h, b);
      assert LinkHolds(h, a, n - 1) && LinkHolds(h, b, m - 1);
      LastHashPinsHistory(h, a[..n], b[..m]);
      forall i | 0 <= i < |a| ensures a[i].facts == b[i].facts {
        assert i < n ==> a[i] == a[..n][i] && b[i] == b[..m][i];
      }
    }
  }
}
