/** What holds of every stored and every loaded version of a run document, over all histories. */
module RunHistory {
  import opened Options
  import opened Rules
  import opened RunDocuments

  // ---------------------------------------------------------------- replaying the review log

  /** The scanned requirements with a review log applied. */
  function Replay(scanned: seq<Requirement>, items: seq<ReviewItem>): seq<Requirement>
    decreases |items|
  {
    if items == [] then scanned
    else
      var last := items[|items| - 1];
      WithStatus(Replay(scanned, items[..|items| - 1]), last.requirementId, last.newStatus)
  }

  /** Each entry names an existing requirement, records the status it found, and passes only what is
      cited on both sides. */
  ghost predicate Chained(scanned: seq<Requirement>, items: seq<ReviewItem>)
    decreases |items|
  {
    items != [] ==>
      var last, before := items[|items| - 1], Replay(scanned, items[..|items| - 1]);
      var k := Find(before, last.requirementId);
      && Chained(scanned, items[..|items| - 1])
      && k.Some?
      && before[k.value].status == last.oldStatus
      && (last.newStatus == Pass ==> HasCompleteCitation(before[k.value]))
  }

  /** A document is what its log makes of the scan, in all the places that repeat it. */
  ghost predicate DocSound(scanned: seq<Requirement>, doc: Doc) {
    && doc.requirements == Replay(scanned, doc.items)
    && Chained(scanned, doc.items)
    && doc.reviewEvents == doc.items
    && doc.matrix == doc.requirements
    && doc.stage == (if doc.items == [] then Audit else Synthesize)
  }

  ghost predicate Inv(s: State) {
    && (forall id :: id in s.origin ==> Scanned(s.origin[id]))
    && (forall id :: id in s.store ==>
          id in s.origin && DocSound(s.origin[id], s.store[id].doc)
          && s.store[id].counts == RequirementCounts(s.store[id].doc.requirements))
    && (forall id, doc :: (id, doc) in s.loaded ==> id in s.origin && DocSound(s.origin[id], doc))
  }

  lemma ReviewedSound(scanned: seq<Requirement>, doc: Doc, id: nat, decision: Decision, newStatus: Option<Status>,
                      note: string, now: int)
    requires DocSound(scanned, doc) && Reviewed(doc, id, decision, newStatus, note, now).Changed?
    ensures DocSound(scanned, Reviewed(doc, id, decision, newStatus, note, now).doc)
  {
    var after := Reviewed(doc, id, decision, newStatus, note, now).doc;
    assert after.items[..|after.items| - 1] == doc.items;
  }

  lemma SaveKeeps(s: State, s': State, id: RunId, doc: Doc, expected: Option<nat>)
    requires Inv(s) && id in s.origin && DocSound(s.origin[id], doc)
    requires s'.store == Saved(s.store, id, doc, expected) && s'.loaded == s.loaded && s'.origin == s.origin
    ensures Inv(s')
  {
    assert expected.Some? ==> DocSound(s.origin[id], doc.(revision := expected.value + 1));
  }

  lemma CreateKeeps(s: State, id: RunId, requirements: seq<Requirement>, metadata: Metadata, at: int)
    requires Inv(s)
    ensures Inv(Apply(s, Create(id, requirements, metadata, at)))
  {
    assert DocSound(requirements, NewDoc(requirements, metadata, at));
  }

  lemma CheckedSaveKeeps(s: State, id: RunId, doc: Doc, outcome: Outcome, revision: Option<nat>)
    requires Inv(s) && ((id, doc) in s.loaded && outcome.Changed? ==> DocSound(s.origin[id], outcome.doc))
    ensures Inv(CheckedSave(s, id, doc, outcome, revision))
  {
    var s' := CheckedSave(s, id, doc, outcome, revision);
    if s' != s {
      SaveKeeps(s, s', id, outcome.doc, Some(if revision.Some? then revision.value else doc.revision));
    }
  }

  lemma MetadataKeeps(s: State, id: RunId, doc: Doc, metadata: Metadata, at: int)
    requires Inv(s)
    ensures Inv(Apply(s, UpdateMetadata(id, doc, metadata, at)))
  {
    if (id, doc) in s.loaded {
      var s' := Apply(s, UpdateMetadata(id, doc, metadata, at));
      SaveKeeps(s, s', id, doc.(metadata := metadata, updatedAt := at), None);
    }
  }

  lemma StepKeeps(s: State, e: Event)
    requires Inv(s)
    ensures Inv(Apply(s, e))
  {
    match e
    case Create(id, requirements, metadata, at) => CreateKeeps(s, id, requirements, metadata, at);
    case Review(id, doc, requirement, decision, newStatus, note, revision, at) =>
      var outcome := Reviewed(doc, requirement, decision, newStatus, note, at);
      if (id, doc) in s.loaded && outcome.Changed? {
        ReviewedSound(s.origin[id], doc, requirement, decision, newStatus, note, at);
      }
      CheckedSaveKeeps(s, id, doc, outcome, revision);
    case Decide(id, doc, choice, note, unresolved, revision, at) =>
      CheckedSaveKeeps(s, id, doc, Decided(doc, choice, note, unresolved, at), revision);
    case UpdateMetadata(id, doc, metadata, at) => MetadataKeeps(s, id, doc, metadata, at);
    case _ =>
  }

  lemma {:induction false} RunKeeps(s: State, events: seq<Event>)
    requires Inv(s)
    ensures Inv(Run(s, events))
    decreases |events|
  {
    if events != [] {
      StepKeeps(s, events[0]);
      RunKeeps(Apply(s, events[0]), events[1..]);
    }
  }

  /** Over every history, stale overwrites included, each stored document is the replay of its own
      review log over its scan, and each log entry continues the one before. */
  lemma LogReplays(events: seq<Event>)
    ensures var s := Run(Init(), events);
            forall id :: id in s.store ==> id in s.origin && DocSound(s.origin[id], s.store[id].doc)
  {
    RunKeeps(Init(), events);
  }

  // ---------------------------------------------------------------- the red line

  /** Reviews change statuses only: the citations are those of the scan, requirement by requirement. */
  lemma {:induction false} ReplayKeepsCitations(scanned: seq<Requirement>, items: seq<ReviewItem>)
    requires Chained(scanned, items)
    ensures |Replay(scanned, items)| == |scanned|
    ensures forall i :: 0 <= i < |scanned| ==>
              Replay(scanned, items)[i] == scanned[i].(status := Replay(scanned, items)[i].status)
    decreases |items|
  {
    if items != [] {
      ReplayKeepsCitations(scanned, items[..|items| - 1]);
    }
  }

  /** No pass without a citation on both sides. */
  lemma {:induction false} PassIsCited(scanned: seq<Requirement>, items: seq<ReviewItem>)
    requires Scanned(scanned) && Chained(scanned, items)
    ensures forall i :: 0 <= i < |Replay(scanned, items)| ==>
              Replay(scanned, items)[i].status == Pass ==> HasCompleteCitation(Replay(scanned, items)[i])
    decreases |items|
  {
    if items == [] {
      assert forall i :: 0 <= i < |scanned| ==> scanned[i] in scanned;
    } else {
      PassIsCited(scanned, items[..|items| - 1]);
    }
  }

  lemma {:induction false} FatalNeverPasses(scanned: seq<Requirement>, items: seq<ReviewItem>)
    requires Scanned(scanned) && Chained(scanned, items)
    ensures forall i :: 0 <= i < |Replay(scanned, items)| && Replay(scanned, items)[i].category == Fatal ==>
              Replay(scanned, items)[i].evidence == [] && Replay(scanned, items)[i].status != Pass
  {
    PassIsCited(scanned, items);
    ReplayKeepsCitations(scanned, items);
    forall i | 0 <= i < |Replay(scanned, items)| && Replay(scanned, items)[i].category == Fatal
      ensures Replay(scanned, items)[i].evidence == [] && Replay(scanned, items)[i].status != Pass
    {
      assert scanned[i] in scanned;
    }
  }

  lemma {:induction false} FatalBlocks(items: seq<Requirement>)
    requires forall i :: 0 <= i < |items| && items[i].category == Fatal ==> items[i].status != Pass
    ensures RequirementCounts(items).blockers >= RequirementCounts(items).fatalRisks
    decreases |items|
  {
    if items != [] {
      FatalBlocks(items[..|items| - 1]);
    }
  }

  /** The red line over every history: a pass is cited on both sides, fatal clauses never pass, so the
      blocker count is never below the fatal count, and the stored counters give the summary that
      recomputing gives. */
  lemma RedLine(events: seq<Event>, id: RunId)
    requires id in Run(Init(), events).store
    ensures var stored := Run(Init(), events).store[id];
            var items := stored.doc.requirements;
            && (forall i :: 0 <= i < |items| && items[i].status == Pass ==>
                  && items[i].source.locator.name != "" && items[i].source.quote != ""
                  && exists k :: 0 <= k < |items[i].evidence| && items[i].evidence[k].locator.name != ""
                                 && items[i].evidence[k].quote != "")
            && (forall i :: 0 <= i < |items| && items[i].category == Fatal ==> items[i].status != Pass)
            && stored.counts.blockers >= stored.counts.fatalRisks
            && Summary(items, stored.counts) == Summary([], stored.counts) == RequirementCounts(items)
  {
    RunKeeps(Init(), events);
    var s := Run(Init(), events);
    PassIsCited(s.origin[id], s.store[id].doc.items);
    FatalNeverPasses(s.origin[id], s.store[id].doc.items);
    FatalBlocks(s.store[id].doc.requirements);
  }

  // ---------------------------------------------------------------- lost updates

  /** The part of a document that reviews and decisions write. */
  function Work(doc: Doc): Doc {
    doc.(metadata := Metadata(None, None, [], false, None), updatedAt := 0, revision := 0)
  }

  /** The client's revision, if given, is not ahead of the document the request loaded. */
  predicate Honest(e: Event) {
    (e.Review? || e.Decide?) && e.revision.Some? ==> e.revision.value <= e.doc.revision
  }

  /** An unconditional save is fresh when its document still has the stored revision. */
  predicate FreshSave(s: State, e: Event) {
    e.UpdateMetadata? && (e.id, e.doc) in s.loaded ==> e.id in s.store && s.store[e.id].doc.revision == e.doc.revision
  }

  /** Histories with honest clients and, in between, only fresh unconditional saves. */
  predicate Careful(s: State, events: seq<Event>)
    decreases |events|
  {
    events != [] ==> Honest(events[0]) && FreshSave(s, events[0]) && Careful(Apply(s, events[0]), events[1..])
  }

  /** Revisions count successful saves, the log of a loaded document is the beginning of the stored one,
      and a loaded document with the stored revision holds the stored work. */
  ghost predicate Versioned(s: State) {
    && (forall id :: id in s.store ==> id in s.saves && s.store[id].doc.revision == 1 + s.saves[id])
    && (forall id :: id in s.origin <==> id in s.saves)
    && (forall id, doc :: (id, doc) in s.loaded ==> id in s.origin)
    && (forall id, doc :: (id, doc) in s.loaded && id in s.store ==>
          && doc.revision <= s.store[id].doc.revision
          && doc.items <= s.store[id].doc.items
          && (doc.revision == s.store[id].doc.revision ==> Work(doc) == Work(s.store[id].doc)))
  }

  lemma CheckedSaveVersioned(s: State, id: RunId, doc: Doc, outcome: Outcome, revision: Option<nat>)
    requires Versioned(s) && (revision.Some? ==> revision.value <= doc.revision)
    requires outcome.Changed? ==> doc.items <= outcome.doc.items
    ensures Versioned(CheckedSave(s, id, doc, outcome, revision))
    ensures CheckedSave(s, id, doc, outcome, revision) != s ==>
              id in s.store && Work(s.store[id].doc) == Work(doc) && s.store[id].doc.revision == doc.revision
  {
  }

  lemma StepVersioned(s: State, e: Event)
    requires Versioned(s) && Honest(e) && FreshSave(s, e)
    ensures Versioned(Apply(s, e))
  {
    match e
    case Review(id, doc, requirement, decision, newStatus, note, revision, at) =>
      CheckedSaveVersioned(s, id, doc, Reviewed(doc, requirement, decision, newStatus, note, at), revision);
    case Decide(id, doc, choice, note, unresolved, revision, at) =>
      CheckedSaveVersioned(s, id, doc, Decided(doc, choice, note, unresolved, at), revision);
    case _ =>
  }

  lemma {:induction false} RunVersioned(s: State, events: seq<Event>)
    requires Versioned(s) && Careful(s, events)
    ensures Versioned(Run(s, events))
    decreases |events|
  {
    if events != [] {
      StepVersioned(s, events[0]);
      RunVersioned(Apply(s, events[0]), events[1..]);
    }
  }

  /** In a careful history every successful checked save replaces exactly the work it was computed
      from, and the revision is one plus the number of successful checked saves. */
  lemma NoLostUpdates(events: seq<Event>, e: Event)
    requires Careful(Init(), events) && Honest(e) && (e.Review? || e.Decide?)
    ensures var s := Run(Init(), events);
            && (forall id :: id in s.store ==> id in s.saves && s.store[id].doc.revision == 1 + s.saves[id])
            && (Apply(s, e) != s ==>
                  e.id in s.store && Work(s.store[e.id].doc) == Work(e.doc)
                  && s.store[e.id].doc.revision == e.doc.revision
                  && Apply(s, e).store[e.id].doc.revision == s.store[e.id].doc.revision + 1)
  {
    var s := Run(Init(), events);
    RunVersioned(Init(), events);
    if e.Review? {
      var outcome := Reviewed(e.doc, e.requirement, e.decision, e.newStatus, e.note, e.at);
      CheckedSaveVersioned(s, e.id, e.doc, outcome, e.revision);
    } else {
      CheckedSaveVersioned(s, e.id, e.doc, Decided(e.doc, e.choice, e.note, e.unresolved, e.at), e.revision);
    }
  }

  /** Honesty is what it takes: in a careful history a checked save that succeeds replaces the version it was
      computed from if and only if the client's revision is not ahead of that version. */
  lemma HonestyExactly(events: seq<Event>, e: Event)
    requires Careful(Init(), events) && (e.Review? || e.Decide?)
    requires var s := Run(Init(), events); Apply(s, e) != s
    ensures var s := Run(Init(), events);
            e.id in s.store && (s.store[e.id].doc.revision == e.doc.revision <==> Honest(e))
  {
    RunVersioned(Init(), events);
  }

  /** Without any unconditional save between, whole documents are replaced version by version. */
  ghost predicate Exact(s: State) {
    forall id, doc :: (id, doc) in s.loaded && id in s.store && doc.revision == s.store[id].doc.revision ==>
      doc == s.store[id].doc
  }

  lemma StepExact(s: State, e: Event)
    requires Versioned(s) && Exact(s) && Honest(e) && !e.UpdateMetadata?
    ensures Exact(Apply(s, e))
  {
    if e.Review? {
      var outcome := Reviewed(e.doc, e.requirement, e.decision, e.newStatus, e.note, e.at);
      CheckedSaveVersioned(s, e.id, e.doc, outcome, e.revision);
    } else if e.Decide? {
      CheckedSaveVersioned(s, e.id, e.doc, Decided(e.doc, e.choice, e.note, e.unresolved, e.at), e.revision);
    }
  }

  lemma {:induction false} RunExact(s: State, events: seq<Event>)
    requires Versioned(s) && Exact(s) && Careful(s, events) && forall e :: e in events ==> !e.UpdateMetadata?
    ensures Exact(Run(s, events))
    decreases |events|
  {
    if events != [] {
      StepVersioned(s, events[0]);
      assert events[0] in events;
      StepExact(s, events[0]);
      RunExact(Apply(s, events[0]), events[1..]);
    }
  }

  /** In histories of checked saves only, a successful save replaces exactly the stored version it
      was computed from, metadata included. */
  lemma SaveReplacesItsVersion(events: seq<Event>, e: Event)
    requires Careful(Init(), events) && Honest(e) && (e.Review? || e.Decide?)
    requires forall x :: x in events ==> !x.UpdateMetadata?
    ensures var s := Run(Init(), events);
            Apply(s, e) != s ==> e.id in s.store && s.store[e.id].doc == e.doc
  {
    RunVersioned(Init(), events);
    RunExact(Init(), events);
    NoLostUpdates(events, e);
  }

  lemma {:induction false} LogGrows(s: State, events: seq<Event>, id: RunId)
    requires Versioned(s) && Careful(s, events) && id in s.store && id in Run(s, events).store
    ensures s.store[id].doc.items <= Run(s, events).store[id].doc.items
    decreases |events|
  {
    if events != [] {
      var s1 := Apply(s, events[0]);
      StepVersioned(s, events[0]);
      StepGrows(s, events[0], id);
      if id in s1.store {
        LogGrows(s1, events[1..], id);
      } else {
        GoneStaysGone(s1, events[1..], id);
      }
    }
  }

  lemma StepGrows(s: State, e: Event, id: RunId)
    requires Versioned(s) && Honest(e) && FreshSave(s, e) && id in s.store
    ensures id in Apply(s, e).store ==> s.store[id].doc.items <= Apply(s, e).store[id].doc.items
    ensures id in s.origin
  {
    if e.Review? && Apply(s, e) != s {
      var outcome := Reviewed(e.doc, e.requirement, e.decision, e.newStatus, e.note, e.at);
      CheckedSaveVersioned(s, e.id, e.doc, outcome, e.revision);
    } else if e.Decide? && Apply(s, e) != s {
      CheckedSaveVersioned(s, e.id, e.doc, Decided(e.doc, e.choice, e.note, e.unresolved, e.at), e.revision);
    }
  }

  lemma {:induction false} GoneStaysGone(s: State, events: seq<Event>, id: RunId)
    requires Versioned(s) && Careful(s, events) && id in s.origin && id !in s.store
    ensures id !in Run(s, events).store
    decreases |events|
  {
    if events != [] {
      StepVersioned(s, events[0]);
      GoneStaysGone(Apply(s, events[0]), events[1..], id);
    }
  }

  lemma {:induction false} SameLogSameWork(scanned: seq<Requirement>, a: Doc, b: Doc)
    requires DocSound(scanned, a) && DocSound(scanned, b)
    ensures Work(a) == Work(b) <==> a.items == b.items && a.verdict == b.verdict
  {
  }

  /** Over every history: an unconditional save leaves reviews and decisions alone if and only if the
      document it was computed from has the stored review log and the stored decision. */
  lemma UnconditionalSaveExactly(events: seq<Event>, e: Event)
    requires e.UpdateMetadata?
    requires var s := Run(Init(), events); (e.id, e.doc) in s.loaded && e.id in s.store
    ensures var s := Run(Init(), events);
            Work(Apply(s, e).store[e.id].doc) == Work(s.store[e.id].doc) <==>
            e.doc.items == s.store[e.id].doc.items && e.doc.verdict == s.store[e.id].doc.verdict
  {
    var s := Run(Init(), events);
    RunKeeps(Init(), events);
    SameLogSameWork(s.origin[e.id], e.doc, s.store[e.id].doc);
  }

  /** What the first unconditional save after a careful history drops: exactly the log entries recorded
      since its document was loaded, and the decision if that is a different one. Nothing, if the
      revision is still the stored one; otherwise the revision goes back. */
  lemma StaleSaveDropsExactly(events: seq<Event>, e: Event)
    requires Careful(Init(), events) && e.UpdateMetadata?
    requires var s := Run(Init(), events); (e.id, e.doc) in s.loaded && e.id in s.store
    ensures var s := Run(Init(), events);
            var before, after := s.store[e.id].doc, Apply(s, e).store[e.id].doc;
            && |e.doc.items| <= |before.items| && before.items == after.items + before.items[|e.doc.items|..]
            && (Work(after) == Work(before) <==> |e.doc.items| == |before.items| && e.doc.verdict == before.verdict)
            && (FreshSave(s, e) ==> Work(after) == Work(before))
            && (after.revision == before.revision <==> FreshSave(s, e)) && after.revision <= before.revision
  {
    RunVersioned(Init(), events);
    UnconditionalSaveExactly(events, e);
  }

  lemma RunOne(s: State, e: Event, rest: seq<Event>)
    ensures Run(s, [e] + rest) == Run(Apply(s, e), rest)
  {
    assert ([e] + rest)[1..] == rest;
  }

  /** A stale metadata save can silently drop a recorded review. */
  lemma StaleSaveDropsReview() returns (events: seq<Event>)
    ensures var s := Run(Init(), events); 0 in s.store && 0 in s.saves && s.saves[0] == 1 && s.store[0].doc.items == []
  {
    var source := Source("TENDER-001", 1, Locator("page", "p. 1", 1), "clause");
    var r := Requirement(1, "bond", Bond, "bond", source, [], NeedsReview, None, 1);
    var plain := Metadata(None, None, [], false, None);
    var doc := NewDoc([r], plain, 0);
    var create, review := Create(0, [r], plain, 0), Review(0, doc, 1, ToFail, None, "", None, 1);
    var save := UpdateMetadata(0, doc, plain, 2);
    events := [create] + ([Load(0)] + ([review] + ([save] + [])));
    var s1 := Apply(Init(), create);
    assert Scanned([r]);
    RunOne(Init(), create, [Load(0)] + ([review] + ([save] + [])));
    var s2 := Apply(s1, Load(0));
    assert (0, doc) in s2.loaded;
    RunOne(s1, Load(0), [review] + ([save] + []));
    var s3 := Apply(s2, review);
    assert Find([r], 1) == Some(0);
    assert s3.saves[0] == 1;
    RunOne(s2, review, [save] + []);
    RunOne(s3, save, []);
  }

  /** Two reviews from the same loaded version, the second with a revision the client got elsewhere: both
      saves succeed and the first review is gone. */
  lemma AheadClientLosesReview() returns (events: seq<Event>)
    ensures var s := Run(Init(), events);
            0 in s.store && 0 in s.saves && s.saves[0] == 2 && |s.store[0].doc.items| == 1
  {
    var source := Source("TENDER-001", 1, Locator("page", "p. 1", 1), "clause");
    var r := Requirement(1, "bond", Bond, "bond", source, [], NeedsReview, None, 1);
    var plain := Metadata(None, None, [], false, None);
    var doc := NewDoc([r], plain, 0);
    var create, first := Create(0, [r], plain, 0), Review(0, doc, 1, ToFail, None, "", None, 1);
    var second := Review(0, doc, 1, ToUnknown, None, "", Some(2), 2);
    events := [create] + ([Load(0)] + ([first] + ([second] + [])));
    var s1 := Apply(Init(), create);
    assert Scanned([r]);
    RunOne(Init(), create, [Load(0)] + ([first] + ([second] + [])));
    var s2 := Apply(s1, Load(0));
    assert (0, doc) in s2.loaded;
    RunOne(s1, Load(0), [first] + ([second] + []));
    assert Find([r], 1) == Some(0);
    var s3 := Apply(s2, first);
    assert s3.saves[0] == 1 && s3.store[0].doc.revision == 2 && (0, doc) in s3.loaded;
    RunOne(s2, first, [second] + []);
    RunOne(s3, second, []);
  }
}
