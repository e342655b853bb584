/** Stored run documents: reviews, decisions, metadata and archiving on a whole document that is
    loaded, changed and saved back, with denormalised counters and revision-checked saves. */
module RunDocuments {
  import opened Options
  import opened Rules

  type RunId = nat

  datatype Decision = ToPass | ToFail | ToUnknown | ToNeedsReview | Confirm | Reject | RequestEvidence

  datatype ReviewItem = ReviewItem(requirementId: nat, decision: Decision, oldStatus: Status, newStatus: Status,
                                   note: string, reviewedAt: int)

  datatype Verdict = Verdict(choice: string, note: string, unresolved: seq<nat>, recordedAt: int)

  datatype Stage = Audit | Synthesize

  /** What a user can change besides reviewing and deciding. */
  datatype Metadata = Metadata(assignee: Option<string>, reviewer: Option<string>, tags: seq<string>, favorite: bool,
                               archivedAt: Option<int>)

  datatype Doc = Doc(
    requirements: seq<Requirement>,
    items: seq<ReviewItem>,          // review.items
    reviewEvents: seq<ReviewItem>,   // state.review_events
    matrix: seq<Requirement>,        // state.evidence_matrix
    stage: Stage,
    verdict: Option<Verdict>,
    metadata: Metadata,
    updatedAt: int,
    revision: nat)

  datatype Counts = Counts(requirements: nat, unresolved: nat, blockers: nat, fatalRisks: nat)

  datatype Stored = Stored(doc: Doc, counts: Counts)

  type Store = map<RunId, Stored>

  // ---------------------------------------------------------------- counters

  predicate Unresolved(r: Requirement) {
    r.status in {Unknown, NeedsReview}
  }

  predicate Blocker(r: Requirement) {
    r.category in {Fatal, Qualification} && r.status in {Fail, Unknown, NeedsReview}
  }

  function RequirementCounts(items: seq<Requirement>): Counts {
    if items == [] then Counts(0, 0, 0, 0)
    else
      var r, c := items[|items| - 1], RequirementCounts(items[..|items| - 1]);
      Counts(c.requirements + 1,
             c.unresolved + (if Unresolved(r) then 1 else 0),
             c.blockers + (if Blocker(r) then 1 else 0),
             c.fatalRisks + (if r.category == Fatal then 1 else 0))
  }

  function Where(items: seq<Requirement>, holds: Requirement -> bool): set<nat> {
    set i: nat | i < |items| && holds(items[i])
  }

  lemma WhereSplits(items: seq<Requirement>, holds: Requirement -> bool)
    requires items != []
    ensures |Where(items, holds)| == |Where(items[..|items| - 1], holds)| + if holds(items[|items| - 1]) then 1 else 0
  {
    var front, n := Where(items[..|items| - 1], holds), |items| - 1;
    assert Where(items, holds) == front + if holds(items[n]) then {n} else {};
  }

  /** Each counter is the number of requirements with its property. */
  lemma {:induction false} CountsAreNumbers(items: seq<Requirement>)
    ensures var c := RequirementCounts(items);
            && c.requirements == |items|
            && c.unresolved == |Where(items, (r: Requirement) => r.status == Unknown || r.status == NeedsReview)|
            && c.blockers == |Where(items, (r: Requirement) => (r.category == Fatal || r.category == Qualification)
                                                               && r.status != Pass)|
            && c.fatalRisks == |Where(items, (r: Requirement) => r.category == Fatal)|
    decreases |items|
  {
    if items != [] {
      CountsAreNumbers(items[..|items| - 1]);
      WhereSplits(items, (r: Requirement) => r.status == Unknown || r.status == NeedsReview);
      WhereSplits(items, (r: Requirement) => (r.category == Fatal || r.category == Qualification) && r.status != Pass);
      WhereSplits(items, (r: Requirement) => r.category == Fatal);
    }
  }

  function ToStorage(doc: Doc): Stored {
    Stored(doc, RequirementCounts(doc.requirements))
  }

  /** The counters of a summary: recomputed when the requirements were loaded, stored ones when not. */
  function Summary(requirements: seq<Requirement>, counts: Counts): Counts {
    if requirements != [] then RequirementCounts(requirements) else counts
  }

  // ---------------------------------------------------------------- changing a document

  function ResolveStatus(decision: Decision, newStatus: Option<Status>, oldStatus: Status): Status {
    match decision
    case ToPass => Pass
    case ToFail => Fail
    case ToUnknown => Unknown
    case ToNeedsReview => NeedsReview
    case Confirm =>
      if newStatus.Some? then newStatus.value else if oldStatus in {Pass, Fail} then oldStatus else NeedsReview
    case Reject => NeedsReview
    case RequestEvidence => Unknown
  }

  /** A citation on both sides: located and quoted in the tender and in some evidence. */
  predicate HasCompleteCitation(r: Requirement) {
    && r.source.locator.name != "" && r.source.quote != ""
    && exists i :: 0 <= i < |r.evidence| && r.evidence[i].locator.name != "" && r.evidence[i].quote != ""
  }

  /** The first requirement with an id. */
  function Find(items: seq<Requirement>, id: nat): (found: Option<nat>)
    ensures found.Some? ==> found.value < |items| && items[found.value].id == id
    ensures found.Some? ==> forall k :: 0 <= k < found.value ==> items[k].id != id
    ensures found.None? ==> forall k :: 0 <= k < |items| ==> items[k].id != id
  {
    if items == [] then None
    else if items[0].id == id then Some(0)
    else
      var rest := Find(items[1..], id);
      if rest.Some? then Some(rest.value + 1) else None
  }

  /** The requirement a review by this id is about: the first one. */
  ghost predicate Names(doc: Doc, id: nat, k: int) {
    0 <= k < |doc.requirements| && Find(doc.requirements, id) == Some(k)
  }

  /** What a decision makes of a status: the four direct ones name it; a confirmation takes the requested
      one, or keeps a PASS or FAIL, or asks for review; a rejection asks for review; a request for evidence
      leaves the matter unknown. */
  predicate Follows(decision: Decision, requested: Option<Status>, before: Status, after: Status) {
    && (decision == ToPass ==> after == Pass)
    && (decision == ToFail ==> after == Fail)
    && (decision == ToUnknown ==> after == Unknown)
    && (decision == ToNeedsReview ==> after == NeedsReview)
    && (decision == Confirm && requested.Some? ==> after == requested.value)
    && (decision == Confirm && requested.None? && before in {Pass, Fail} ==> after == before)
    && (decision == Confirm && requested.None? && before in {Unknown, NeedsReview} ==> after == NeedsReview)
    && (decision == Reject ==> after == NeedsReview)
    && (decision == RequestEvidence ==> after == Unknown)
  }

  /** Only the status of the k-th requirement differs, as the decision says, and one log entry, kept in two
      places, tells how. */
  ghost predicate ChangesOne(doc: Doc, after: Doc, k: int, decision: Decision, requested: Option<Status>, note: string,
                             now: int)
    requires 0 <= k < |doc.requirements|
  {
    var r := doc.requirements[k];
    && |after.requirements| == |doc.requirements|
    && after.requirements[k] == r.(status := after.requirements[k].status)
    && Follows(decision, requested, r.status, after.requirements[k].status)
    && (forall i :: 0 <= i < |doc.requirements| && i != k ==> after.requirements[i] == doc.requirements[i])
    && var item := ReviewItem(r.id, decision, r.status, after.requirements[k].status, note, now);
       && after == doc.(requirements := after.requirements, matrix := after.requirements, items := doc.items + [item],
                        reviewEvents := doc.reviewEvents + [item], stage := Synthesize, updatedAt := now)
  }

  lemma ReviewedChangesOne(doc: Doc, id: nat, k: int, decision: Decision, newStatus: Option<Status>, note: string,
                           now: int)
    requires Names(doc, id, k)
    ensures var outcome := Reviewed(doc, id, decision, newStatus, note, now);
            && (outcome.Changed? <==> MayBecome(doc.requirements[k], decision, newStatus))
            && (outcome.Changed? ==> ChangesOne(doc, outcome.doc, k, decision, newStatus, note, now))
  {
  }

  /** A decision may make this of a requirement: anything but a PASS, or a PASS that is fully cited. */
  predicate MayBecome(r: Requirement, decision: Decision, requested: Option<Status>) {
    (|| decision == ToPass
     || (decision == Confirm && (requested == Some(Pass) || (requested.None? && r.status == Pass)))) ==>
      && r.source.locator.name != "" && r.source.quote != ""
      && exists i :: 0 <= i < |r.evidence| && r.evidence[i].locator.name != "" && r.evidence[i].quote != ""
  }

  function WithStatus(items: seq<Requirement>, id: nat, status: Status): seq<Requirement> {
    var k := Find(items, id);
    if k.None? then items else items[k.value := items[k.value].(status := status)]
  }

  datatype Outcome = Changed(doc: Doc) | NotFound | NoCitation | UnknownIds

  function Reviewed(doc: Doc, id: nat, decision: Decision, newStatus: Option<Status>, note: string, now: int): Outcome {
    var k := Find(doc.requirements, id);
    if k.None? then NotFound
    else
      var r := doc.requirements[k.value];
      var status := ResolveStatus(decision, newStatus, r.status);
      if status == Pass && !HasCompleteCitation(r) then NoCitation
      else
        var item := ReviewItem(id, decision, r.status, status, note, now);
        var requirements := WithStatus(doc.requirements, id, status);
        Changed(doc.(requirements := requirements, matrix := requirements,
                     items := doc.items + [item], reviewEvents := doc.reviewEvents + [item],
                     stage := Synthesize, updatedAt := now))
  }

  function Decided(doc: Doc, choice: string, note: string, unresolved: seq<nat>, now: int): Outcome {
    if exists i :: 0 <= i < |unresolved| && Find(doc.requirements, unresolved[i]).None? then UnknownIds
    else Changed(doc.(verdict := Some(Verdict(choice, note, unresolved, now)), updatedAt := now))
  }

  /** The revision-checked save; without an expected revision it is an unconditional upsert. */
  function Saved(store: Store, id: RunId, doc: Doc, expected: Option<nat>): Store {
    if expected.None? then store[id := ToStorage(doc)]
    else if id in store && store[id].doc.revision == expected.value then
      store[id := ToStorage(doc.(revision := expected.value + 1))]
    else store
  }

  predicate SaveSucceeds(store: Store, id: RunId, expected: Option<nat>) {
    expected.None? || (id in store && store[id].doc.revision == expected.value)
  }

  class RunStore {
    var store: Store

    constructor ()
      ensures store == map[]
    {
      store := map[];
    }

    /** False is the conflict answer, and then nothing was written. */
    method Save(id: RunId, doc: Doc, expected: Option<nat>) returns (done: bool)
      modifies this
      ensures store == Saved(old(store), id, doc, expected)
      ensures done <==> SaveSucceeds(old(store), id, expected)
      ensures !done ==> store == old(store)
      ensures done ==> store.Keys == old(store).Keys + {id}
                       && store[id].doc == (if expected.None? then doc else doc.(revision := expected.value + 1))
                       && store[id].counts == RequirementCounts(doc.requirements)
      ensures forall k :: k != id && k in store ==> k in old(store) && store[k] == old(store)[k]
    {
      var stored := ToStorage(doc);
      if expected.None? {
        store := store[id := stored];
        return true;
      }
      var next := expected.value + 1;
      if id in store && store[id].doc.revision == expected.value {
        store := store[id := stored.(doc := stored.doc.(revision := next))];
        return true;
      }
      return false;
    }

    /** A review saves what `ReviewDocument` makes of the loaded document. Refusals and conflicts write
        nothing, and no other run is touched. */
    method Review(id: RunId, doc: Doc, requirement: nat, decision: Decision, newStatus: Option<Status>, note: string,
                  revision: Option<nat>, now: int) returns (outcome: Outcome, done: bool)
      modifies this
      ensures outcome.Changed? <==>
                exists k :: Names(doc, requirement, k) && MayBecome(doc.requirements[k], decision, newStatus)
      ensures forall k :: Names(doc, requirement, k) && outcome.Changed? ==>
                ChangesOne(doc, outcome.doc, k, decision, newStatus, note, now)
      ensures var expected := if revision.Some? then revision.value else doc.revision;
              && (done <==> outcome.Changed? && SaveSucceeds(old(store), id, Some(expected)))
              && (done ==> id in store && store[id].doc == outcome.doc.(revision := expected + 1)
                           && store[id].counts == RequirementCounts(outcome.doc.requirements))
      ensures !done ==> store == old(store)
      ensures forall k :: k != id ==> (k in store <==> k in old(store)) && (k in store ==> store[k] == old(store)[k])
    {
      outcome := ReviewDocument(doc, requirement, decision, newStatus, note, now);
      done := false;
      if outcome.Changed? {
        done := Save(id, outcome.doc, Some(if revision.Some? then revision.value else doc.revision));
      }
    }
  }

  /** The steps of a review on the loaded document: it changes the status of the one requirement it
      names and appends the one log entry that says so; a PASS needs both citations. */
  method ReviewDocument(doc: Doc, requirement: nat, decision: Decision, newStatus: Option<Status>, note: string,
                        now: int) returns (outcome: Outcome)
    ensures outcome == Reviewed(doc, requirement, decision, newStatus, note, now)
    ensures outcome.Changed? <==>
              exists k :: Names(doc, requirement, k) && MayBecome(doc.requirements[k], decision, newStatus)
    ensures forall k :: Names(doc, requirement, k) && outcome.Changed? ==>
              ChangesOne(doc, outcome.doc, k, decision, newStatus, note, now)
  {
    var k := 0;
    while k < |doc.requirements| && doc.requirements[k].id != requirement
      invariant 0 <= k <= |doc.requirements|
      invariant forall i :: 0 <= i < k ==> doc.requirements[i].id != requirement
    {
      k := k + 1;
    }
    if k == |doc.requirements| {
      return NotFound;
    }
    assert Names(doc, requirement, k);
    ReviewedChangesOne(doc, requirement, k, decision, newStatus, note, now);
    var r := doc.requirements[k];
    var status := ResolveStatus(decision, newStatus, r.status);
    if status == Pass && !HasCompleteCitation(r) {
      return NoCitation;
    }
    var item := ReviewItem(requirement, decision, r.status, status, note, now);
    var run := doc.(requirements := doc.requirements[k := r.(status := status)]);
    run := run.(items := run.items + [item], reviewEvents := run.reviewEvents + [item], matrix := run.requirements);
    return Changed(run.(stage := Synthesize, updatedAt := now));
  }

  predicate HasRequirement(doc: Doc, id: nat) {
    exists k :: 0 <= k < |doc.requirements| && doc.requirements[k].id == id
  }

  /** The steps of a decision on the loaded document: it names open requirements that exist, and replaces
      the earlier decision and nothing else. */
  method DecideDocument(doc: Doc, choice: string, note: string, unresolved: seq<nat>, now: int)
    returns (outcome: Outcome)
    ensures outcome == Decided(doc, choice, note, unresolved, now)
    ensures outcome.Changed? <==>
              forall i :: 0 <= i < |unresolved| ==> HasRequirement(doc, unresolved[i])
    ensures outcome.Changed? ==>
              outcome.doc == doc.(verdict := Some(Verdict(choice, note, unresolved, now)), updatedAt := now)
    ensures !outcome.Changed? ==> outcome == UnknownIds
  {
    var known := set k | 0 <= k < |doc.requirements| :: doc.requirements[k].id;
    var i := 0;
    while i < |unresolved|
      invariant 0 <= i <= |unresolved|
      invariant forall j :: 0 <= j < i ==> HasRequirement(doc, unresolved[j])
                                           && Find(doc.requirements, unresolved[j]).Some?
    {
      if unresolved[i] !in known {
        assert Find(doc.requirements, unresolved[i]).None?;
        return UnknownIds;
      }
      i := i + 1;
    }
    return Changed(doc.(verdict := Some(Verdict(choice, note, unresolved, now)), updatedAt := now));
  }

  // ---------------------------------------------------------------- all histories

  /** `loaded` holds every document version some request has read, `origin` the requirements each run
      was created with, `saves` how many revision-checked saves succeeded on it. */
  datatype State = State(
    store: Store,
    loaded: set<(RunId, Doc)>,
    origin: map<RunId, seq<Requirement>>,
    saves: map<RunId, nat>)

  datatype Event =
    | Create(id: RunId, requirements: seq<Requirement>, metadata: Metadata, at: int)
    | Load(id: RunId)
    | Review(id: RunId, doc: Doc, requirement: nat, decision: Decision, newStatus: Option<Status>, note: string,
             revision: Option<nat>, at: int)
    | Decide(id: RunId, doc: Doc, choice: string, note: string, unresolved: seq<nat>, revision: Option<nat>, at: int)
    | UpdateMetadata(id: RunId, doc: Doc, metadata: Metadata, at: int)
    | Delete(id: RunId)

  function Init(): State {
    State(map[], {}, map[], map[])
  }

  function NewDoc(requirements: seq<Requirement>, metadata: Metadata, now: int): Doc {
    Doc(requirements, [], [], requirements, Audit, None, metadata, now, 1)
  }

  function CheckedSave(s: State, id: RunId, doc: Doc, outcome: Outcome, revision: Option<nat>): State {
    var expected := if revision.Some? then revision.value else doc.revision;
    if (id, doc) in s.loaded && outcome.Changed? && id in s.saves && SaveSucceeds(s.store, id, Some(expected)) then
      s.(store := Saved(s.store, id, outcome.doc, Some(expected)), saves := s.saves[id := s.saves[id] + 1])
    else s
  }

  /** A run is created under an id never used before, from requirements as a scan delivers them. */
  function Apply(s: State, e: Event): State {
    match e
    case Create(id, requirements, metadata, at) =>
      if id !in s.origin && Scanned(requirements) then
        s.(store := Saved(s.store, id, NewDoc(requirements, metadata, at), None),
           origin := s.origin[id := requirements], saves := s.saves[id := 0])
      else s
    case Load(id) => if id in s.store then s.(loaded := s.loaded + {(id, s.store[id].doc)}) else s
    case Review(id, doc, requirement, decision, newStatus, note, revision, at) =>
      CheckedSave(s, id, doc, Reviewed(doc, requirement, decision, newStatus, note, at), revision)
    case Decide(id, doc, choice, note, unresolved, revision, at) =>
      CheckedSave(s, id, doc, Decided(doc, choice, note, unresolved, at), revision)
    case UpdateMetadata(id, doc, metadata, at) =>
      if (id, doc) !in s.loaded then s
      else s.(store := Saved(s.store, id, doc.(metadata := metadata, updatedAt := at), None))
    case Delete(id) => s.(store := s.store - {id})
  }

  function Run(s: State, events: seq<Event>): State
    decreases |events|
  {
    if events == [] then s else Run(Apply(s, events[0]), events[1..])
  }
}
