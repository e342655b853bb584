/** The request-body budget: chunks are spooled while a byte budget holds, then replayed to the
    application in fixed-size events. */
module BodyReplay {
  import opened Bytes

  const REPLAY_BYTES := 65536

  /** What the server hands over: a body chunk, a disconnect, or nothing before the deadline. */
  datatype Message = Request(body: Bytes, more: bool) | Disconnect | Timeout

  datatype Outcome = Accepted(body: Bytes) | Rejected(status: nat) | Disconnected

  /** The receive loop with `spooled` already written; `capacity` is the room of the spool file. */
  function Gather(maxBytes: nat, capacity: nat, spooled: Bytes, incoming: seq<Message>): Outcome
    decreases |incoming|
  {
    if incoming == [] || incoming[0].Timeout? then Rejected(408)
    else if incoming[0].Disconnect? then Disconnected
    else
      var body := spooled + incoming[0].body;
      if |body| > maxBytes then Rejected(413)
      else if |body| > capacity then Rejected(503)
      else if incoming[0].more then Gather(maxBytes, capacity, body, incoming[1..])
      else Accepted(body)
  }

  function BodyOf(messages: seq<Message>): Bytes {
    if messages == [] then []
    else (if messages[0].Request? then messages[0].body else []) + BodyOf(messages[1..])
  }

  /** A complete request: only chunks, and only the last one closes the body. */
  predicate Complete(messages: seq<Message>) {
    && messages != []
    && (forall i :: 0 <= i < |messages| ==> messages[i].Request? && (messages[i].more <==> i < |messages| - 1))
  }

  lemma {:induction false} AcceptedFrom(maxBytes: nat, capacity: nat, spooled: Bytes, incoming: seq<Message>, n: nat)
    requires n <= |incoming| && Complete(incoming[..n])
    ensures var whole, outcome := spooled + BodyOf(incoming[..n]), Gather(maxBytes, capacity, spooled, incoming);
            if |whole| <= maxBytes && |whole| <= capacity then outcome == Accepted(whole) else !outcome.Accepted?
    decreases |incoming|
  {
    var first, rest := incoming[0], incoming[1..];
    assert incoming[..n][0] == first && incoming[..n][1..] == rest[..n - 1];
    var body := spooled + first.body;
    assert spooled + BodyOf(incoming[..n]) == body + BodyOf(rest[..n - 1]);
    if n == 1 {
      assert rest[..0] == [];
      assert body + [] == body;
    } else {
      var others := rest[..n - 1];
      forall i | 0 <= i < |others|
        ensures others[i].Request? && (others[i].more <==> i < |others| - 1)
      {
        assert others[i] == incoming[..n][i + 1];
      }
      assert first.more;
      AcceptedFrom(maxBytes, capacity, body, rest, n - 1);
    }
  }

  lemma {:induction false} AcceptedIsComplete(maxBytes: nat, capacity: nat, spooled: Bytes, incoming: seq<Message>)
    returns (n: nat)
    requires Gather(maxBytes, capacity, spooled, incoming).Accepted?
    ensures n <= |incoming| && Complete(incoming[..n])
    decreases |incoming|
  {
    var body := spooled + incoming[0].body;
    if incoming[0].more {
      var k := AcceptedIsComplete(maxBytes, capacity, body, incoming[1..]);
      n := k + 1;
      forall i | 0 <= i < n
        ensures incoming[..n][i].Request? && (incoming[..n][i].more <==> i < n - 1)
      {
        assert i > 0 ==> incoming[..n][i] == incoming[1..][..k][i - 1];
      }
    } else {
      n := 1;
    }
  }

  /** A body is accepted exactly when a complete request arrives whose whole body fits the budget and
      the spool, and then it is that body. */
  lemma AcceptedExactly(maxBytes: nat, capacity: nat, incoming: seq<Message>, body: Bytes)
    ensures Gather(maxBytes, capacity, [], incoming) == Accepted(body) <==>
            exists n :: 0 <= n <= |incoming| && Complete(incoming[..n]) && BodyOf(incoming[..n]) == body
                        && |body| <= maxBytes && |body| <= capacity
  {
    if Gather(maxBytes, capacity, [], incoming) == Accepted(body) {
      var n := AcceptedIsComplete(maxBytes, capacity, [], incoming);
      AcceptedFrom(maxBytes, capacity, [], incoming, n);
      assert [] + BodyOf(incoming[..n]) == BodyOf(incoming[..n]);
    }
    if n :| 0 <= n <= |incoming| && Complete(incoming[..n]) && BodyOf(incoming[..n]) == body
            && |body| <= maxBytes && |body| <= capacity {
      AcceptedFrom(maxBytes, capacity, [], incoming, n);
      assert [] + BodyOf(incoming[..n]) == BodyOf(incoming[..n]);
    }
  }

  /** The first n messages are chunks that leave the body open and fit. */
  ghost predicate StillReading(maxBytes: nat, capacity: nat, incoming: seq<Message>, n: nat) {
    && n <= |incoming| && (forall i :: 0 <= i < n ==> incoming[i].Request? && incoming[i].more)
    && |BodyOf(incoming[..n])| <= maxBytes && |BodyOf(incoming[..n])| <= capacity
  }

  lemma {:induction false} OutcomeFrom(maxBytes: nat, capacity: nat, spooled: Bytes, incoming: seq<Message>, n: nat)
    requires n <= |incoming| && (forall i :: 0 <= i < n ==> incoming[i].Request? && incoming[i].more)
    requires |spooled| + |BodyOf(incoming[..n])| <= maxBytes && |spooled| + |BodyOf(incoming[..n])| <= capacity
    ensures Gather(maxBytes, capacity, spooled, incoming)
            == Gather(maxBytes, capacity, spooled + BodyOf(incoming[..n]), incoming[n..])
    decreases n
  {
    if n == 0 {
      assert spooled + BodyOf(incoming[..0]) == spooled && incoming[0..] == incoming;
    } else {
      var first, rest := incoming[0], incoming[1..];
      assert incoming[..n][1..] == rest[..n - 1] && rest[n - 1..] == incoming[n..];
      OutcomeFrom(maxBytes, capacity, spooled + first.body, rest, n - 1);
      assert spooled + first.body + BodyOf(rest[..n - 1]) == spooled + BodyOf(incoming[..n]);
    }
  }

  /** What becomes of a request, by the first message that is not just one more fitting chunk: silence is
      answered 408, a disconnect not at all, a body over the budget 413, one over the spool 503, and a last
      chunk that fits is accepted. */
  lemma OutcomeExactly(maxBytes: nat, capacity: nat, incoming: seq<Message>, n: nat)
    requires StillReading(maxBytes, capacity, incoming, n)
    ensures var outcome := Gather(maxBytes, capacity, [], incoming);
            && (n == |incoming| || incoming[n].Timeout? ==> outcome == Rejected(408))
            && (n < |incoming| && incoming[n].Disconnect? ==> outcome == Disconnected)
            && (n < |incoming| && incoming[n].Request? ==>
                  var body := BodyOf(incoming[..n]) + incoming[n].body;
                  && (|body| > maxBytes ==> outcome == Rejected(413))
                  && (|body| <= maxBytes && |body| > capacity ==> outcome == Rejected(503))
                  && (|body| <= maxBytes && |body| <= capacity && !incoming[n].more ==> outcome == Accepted(body)))
  {
    OutcomeFrom(maxBytes, capacity, [], incoming, n);
    assert [] + BodyOf(incoming[..n]) == BodyOf(incoming[..n]);
  }

  /** The declared length, checked before anything is read. */
  datatype Declared = Unparsable | Length(value: int)

  method Receive(maxBytes: nat, capacity: nat, declared: Declared, incoming: seq<Message>) returns (outcome: Outcome)
    ensures declared.Unparsable? ==> outcome == Rejected(400)
    ensures declared.Length? && !(0 <= declared.value <= maxBytes) ==> outcome == Rejected(413)
    ensures declared.Length? && 0 <= declared.value <= maxBytes ==>
              outcome == Gather(maxBytes, capacity, [], incoming)
  {
    if declared.Unparsable? {
      return Rejected(400);
    }
    if declared.value < 0 || declared.value > maxBytes {
      return Rejected(413);
    }
    var spool: Bytes, size, i := [], 0, 0;
    assert incoming[0..] == incoming;
    while true
      invariant 0 <= i <= |incoming| && size == |spool|
      invariant Gather(maxBytes, capacity, [], incoming) == Gather(maxBytes, capacity, spool, incoming[i..])
      decreases |incoming| - i
    {
      if i == |incoming| || incoming[i].Timeout? {
        return Rejected(408);
      }
      if incoming[i].Disconnect? {
        return Disconnected;
      }
      assert incoming[i..][0] == incoming[i] && incoming[i..][1..] == incoming[i + 1..];
      size := size + |incoming[i].body|;
      if size > maxBytes {
        return Rejected(413);
      }
      if size > capacity {
        return Rejected(503);
      }
      spool := spool + incoming[i].body;
      if !incoming[i].more {
        return Accepted(spool);
      }
      i := i + 1;
    }
  }

  // ---------------------------------------------------------------- replay

  /** The events the application sees before replay is over. */
  function Events(body: Bytes): seq<Message>
    decreases |body|
  {
    if |body| <= REPLAY_BYTES then [Request(body, false)]
    else [Request(body[..REPLAY_BYTES], true)] + Events(body[REPLAY_BYTES..])
  }

  /** Replaying loses and adds nothing: the events form one complete request with the same body, in
      pieces of bounded size, and an empty body is one event. */
  lemma {:induction false} ReplayIsFaithful(body: Bytes)
    ensures Complete(Events(body)) && BodyOf(Events(body)) == body
    ensures forall i :: 0 <= i < |Events(body)| ==> |Events(body)[i].body| <= REPLAY_BYTES
    ensures |Events(body)| == 1 <==> |body| <= REPLAY_BYTES
    decreases |body|
  {
    if |body| <= REPLAY_BYTES {
      assert Events(body)[1..] == [];
      assert BodyOf(Events(body)) == body + BodyOf([]);
    } else {
      var rest := Events(body[REPLAY_BYTES..]);
      ReplayIsFaithful(body[REPLAY_BYTES..]);
      assert Events(body)[1..] == rest;
      assert BodyOf(Events(body)) == body[..REPLAY_BYTES] + BodyOf(rest);
    }
  }

  /** What is replayed of an accepted request is what was received. */
  lemma ReceivedIsReplayed(maxBytes: nat, capacity: nat, incoming: seq<Message>)
    requires Gather(maxBytes, capacity, [], incoming).Accepted?
    ensures var body := Gather(maxBytes, capacity, [], incoming).body;
            && |body| <= maxBytes
            && exists n :: 0 <= n <= |incoming| && Complete(incoming[..n])
                           && BodyOf(Events(body)) == BodyOf(incoming[..n])
  {
    var body := Gather(maxBytes, capacity, [], incoming).body;
    AcceptedExactly(maxBytes, capacity, incoming, body);
    ReplayIsFaithful(body);
  }

  /** Skipping whole replay pieces. */
  lemma {:induction false} EventAt(body: Bytes, k: nat)
    ensures k < |Events(body)| <==> k == 0 || k * REPLAY_BYTES < |body|
    ensures k < |Events(body)| ==>
              var from, to := k * REPLAY_BYTES, k * REPLAY_BYTES + REPLAY_BYTES;
              Events(body)[k] == (if to < |body| then Request(body[from..to], true) else Request(body[from..], false))
    decreases k
  {
    if k > 0 && |body| > REPLAY_BYTES {
      var rest := body[REPLAY_BYTES..];
      EventAt(rest, k - 1);
      assert (k - 1) * REPLAY_BYTES == k * REPLAY_BYTES - REPLAY_BYTES;
      if k - 1 < |Events(rest)| {
        assert Events(body)[k] == Events(rest)[k - 1];
      }
    } else if k > 0 {
      assert k * REPLAY_BYTES >= REPLAY_BYTES;
    }
  }

  /** The closure handed to the application in place of the server's receive. */
  class Replayer {
    const body: Bytes
    var position: nat
    var replayed: nat
    ghost var calls: nat

    ghost predicate Valid()
      reads this
    {
      && position <= |body|
      && replayed == (if body == [] then (if calls == 0 then 0 else 1) else position)
      && (position == calls * REPLAY_BYTES || (position == |body| && calls * REPLAY_BYTES >= |body|))
    }

    constructor (body: Bytes)
      ensures Valid() && this.body == body && calls == 0
    {
      this.body := body;
      position, replayed, calls := 0, 0, 0;
    }

    /** The k-th call returns the k-th replay event; once they are used up every call passes on what
        the server's own receive gives. */
    method Replay(live: Message) returns (message: Message)
      requires Valid()
      modifies this
      ensures Valid() && calls == old(calls) + 1
      ensures message == if old(calls) < |Events(body)| then Events(body)[old(calls)] else live
    {
      EventAt(body, calls);
      calls := calls + 1;
      if replayed >= |body| && replayed > 0 {
        return live;
      }
      var end := if position + REPLAY_BYTES < |body| then position + REPLAY_BYTES else |body|;
      var chunk := body[position..end];
      position := end;
      replayed := replayed + |chunk|;
      var more := replayed < |body|;
      if |body| == 0 {
        replayed := 1;
      }
      return Request(chunk, more);
    }
  }
}
