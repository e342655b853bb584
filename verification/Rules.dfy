/** The scan rules: requirements found in the tender, duplicates dropped, evidence pages matched. */
module Rules {
  import opened Options
  import opened Substrings

  datatype Category = Qualification | Fatal | Scoring | Deadline | Signature | Bond | Credential

  datatype Status = Pass | Fail | Unknown | NeedsReview

  datatype Locator = Locator(kind: string, name: string, index: int)

  datatype Block = Block(text: string, locator: Option<Locator>)

  /** A keyword match the pattern engine reports on a page. */
  datatype Found = Found(name: string, category: Category, start: nat, end: nat)

  datatype Page = Page(
    number: int,
    text: string,
    locator: Option<Locator>,
    blocks: seq<Block>,
    sourceId: string,
    filename: string,
    ocrFailed: bool,
    found: seq<Found>)

  datatype Source = Source(sourceId: string, page: int, locator: Locator, quote: string)

  datatype Citation = Citation(filename: string, page: int, locator: Locator, quote: string, terms: seq<string>)

  datatype Requirement = Requirement(
    id: nat,
    name: string,
    category: Category,
    title: string,
    source: Source,
    evidence: seq<Citation>,
    status: Status,
    suggested: Option<Status>,
    score: nat)

  /** The text functions of the platform: white space, lower case, squeezing white space, page labels,
      and the search terms of a title. */
  datatype Platform = Platform(
    space: char -> bool,
    lower: char -> string,
    squeeze: string -> string,
    pageLabel: int -> string,
    terms: (string, Category) -> seq<string>)

  const EVIDENCE_CATEGORIES := {Qualification, Signature, Bond, Credential}

  function Prefix(text: string, n: nat): string {
    if |text| <= n then text else text[..n]
  }

  function PageLocator(p: Platform, page: Page): Locator {
    if page.locator.Some? then page.locator.value else Locator("page", p.pageLabel(page.number), page.number)
  }

  // ---------------------------------------------------------------- extraction

  function Snippet(p: Platform, text: string, start: nat, end: nat): string {
    var left := if start <= 110 then 0 else start - 110;
    var right := if end + 110 < |text| then end + 110 else |text|;
    p.squeeze(if left <= right then text[left..right] else "")
  }

  function FirstBlock(blocks: seq<Block>, matched: string): Option<Locator> {
    if blocks == [] then None
    else if blocks[0].locator.Some? && blocks[0].text != "" && Occurs(matched, blocks[0].text) then blocks[0].locator
    else FirstBlock(blocks[1..], matched)
  }

  function NewRequirement(p: Platform, page: Page, f: Found, id: nat): Requirement {
    var snippet := Snippet(p, page.text, f.start, f.end);
    var block := FirstBlock(page.blocks, if f.start <= f.end <= |page.text| then page.text[f.start..f.end] else "");
    Requirement(id, f.name, f.category, Prefix(snippet, 160),
                Source(page.sourceId, page.number, if block.Some? then block.value else PageLocator(p, page), snippet),
                [], NeedsReview, None, 1)
  }

  predicate Blank(p: Platform, text: string) {
    forall i :: 0 <= i < |text| ==> p.space(text[i])
  }

  /** What the first n matches of a page add, numbered from a counter on. */
  function OnPage(p: Platform, page: Page, counter: nat, n: nat): (items: seq<Requirement>)
    requires n <= |page.found|
    ensures |items| == n
  {
    if n == 0 then []
    else OnPage(p, page, counter, n - 1) + [NewRequirement(p, page, page.found[n - 1], counter + n - 1)]
  }

  /** How many matches the pages with text before page i hold. */
  function MatchesBefore(p: Platform, pages: seq<Page>, i: nat): nat
    requires i <= |pages|
  {
    if i == 0 then 0
    else MatchesBefore(p, pages, i - 1) + if Blank(p, pages[i - 1].text) then 0 else |pages[i - 1].found|
  }

  /** Everything found on the first n pages that have text, page by page, numbered through from one. */
  function ExtractedFrom(p: Platform, pages: seq<Page>, n: nat): (all: seq<Requirement>)
    requires n <= |pages|
    ensures |all| == MatchesBefore(p, pages, n)
  {
    if n == 0 then []
    else
      var before, page := ExtractedFrom(p, pages, n - 1), pages[n - 1];
      if Blank(p, page.text) then before else before + OnPage(p, page, 1 + |before|, |page.found|)
  }

  function Extracted(p: Platform, pages: seq<Page>): seq<Requirement> {
    ExtractedFrom(p, pages, |pages|)
  }

  datatype Key = Key(category: Category, name: string, quote: string, page: int)

  function KeyOf(r: Requirement): Key {
    Key(r.category, r.name, r.source.quote, r.source.page)
  }

  /** The keys of the first n items. */
  function KeysOf(items: seq<Requirement>, n: nat): set<Key>
    requires n <= |items|
  {
    set i | 0 <= i < n :: KeyOf(items[i])
  }

  /** The first n items without those that have an earlier item of the same key, in order. */
  function FirstsOf(items: seq<Requirement>, n: nat): seq<Requirement>
    requires n <= |items|
  {
    if n == 0 then []
    else if KeyOf(items[n - 1]) in KeysOf(items, n - 1) then FirstsOf(items, n - 1)
    else FirstsOf(items, n - 1) + [items[n - 1]]
  }

  function Firsts(items: seq<Requirement>): seq<Requirement> {
    FirstsOf(items, |items|)
  }

  method Deduplicate(items: seq<Requirement>) returns (result: seq<Requirement>)
    ensures result == Firsts(items)
  {
    var seen: set<Key> := {};
    result := [];
    var i := 0;
    while i < |items|
      invariant 0 <= i <= |items|
      invariant seen == KeysOf(items, i) && result == FirstsOf(items, i)
    {
      var key := KeyOf(items[i]);
      if key !in seen {
        seen := seen + {key};
        result := result + [items[i]];
      }
      i := i + 1;
    }
  }

  predicate IdsIncrease(items: seq<Requirement>) {
    forall i, j :: 0 <= i < j < |items| ==> items[i].id < items[j].id
  }

  /** Each item kept is one of the first n, and none with its key comes before it. */
  predicate KeptAt(items: seq<Requirement>, n: nat, m: int, r: Requirement)
    requires n <= |items|
  {
    0 <= m < n && items[m] == r && forall i :: 0 <= i < m ==> KeyOf(items[i]) != KeyOf(r)
  }

  lemma {:induction false} FirstsAreFirst(items: seq<Requirement>, n: nat, r: Requirement) returns (m: nat)
    requires n <= |items| && r in FirstsOf(items, n)
    ensures KeptAt(items, n, m, r)
    decreases n
  {
    if r in FirstsOf(items, n - 1) {
      m := FirstsAreFirst(items, n - 1, r);
    } else {
      m := n - 1;
      assert forall i :: 0 <= i < m ==> KeyOf(items[i]) in KeysOf(items, m);
    }
  }

  /** Each key keeps its earliest item. */
  lemma {:induction false} FirstsEarliest(items: seq<Requirement>, n: nat, k: nat) returns (m: nat)
    requires k < n <= |items|
    ensures m <= k && items[m] in FirstsOf(items, n) && KeyOf(items[m]) == KeyOf(items[k])
    decreases n
  {
    if k < n - 1 {
      m := FirstsEarliest(items, n - 1, k);
    } else if KeyOf(items[k]) in KeysOf(items, k) {
      var i :| 0 <= i < k && KeyOf(items[i]) == KeyOf(items[k]);
      m := FirstsEarliest(items, n - 1, i);
    } else {
      m := k;
    }
  }

  predicate HasKey(items: seq<Requirement>, key: Key) {
    exists r :: r in items && KeyOf(r) == key
  }

  /** No key is lost and none occurs twice. */
  lemma FirstsKeys(items: seq<Requirement>)
    ensures forall k :: 0 <= k < |items| ==> HasKey(Firsts(items), KeyOf(items[k]))
    ensures DistinctKeys(Firsts(items))
  {
    forall k | 0 <= k < |items| ensures HasKey(Firsts(items), KeyOf(items[k])) {
      var m := FirstsEarliest(items, |items|, k);
    }
    KeysDiffer(items, |items|);
  }

  lemma {:induction false} KeysDiffer(items: seq<Requirement>, n: nat)
    requires n <= |items|
    ensures DistinctKeys(FirstsOf(items, n))
    decreases n
  {
    if n > 0 {
      KeysDiffer(items, n - 1);
      var before, last := FirstsOf(items, n - 1), items[n - 1];
      forall i | 0 <= i < |before| ensures KeyOf(before[i]) in KeysOf(items, n - 1) {
        var m := FirstsAreFirst(items, n - 1, before[i]);
      }
      if KeyOf(last) !in KeysOf(items, n - 1) {
        DistinctGrows(before, last);
      }
    }
  }

  predicate DistinctKeys(items: seq<Requirement>) {
    forall i, j :: 0 <= i < j < |items| ==> KeyOf(items[i]) != KeyOf(items[j])
  }

  lemma DistinctGrows(items: seq<Requirement>, last: Requirement)
    requires DistinctKeys(items) && forall i :: 0 <= i < |items| ==> KeyOf(items[i]) != KeyOf(last)
    ensures DistinctKeys(items + [last])
  {
  }

  /** What is kept was there, in the same order: increasing ids stay increasing. */
  lemma FirstsOrder(items: seq<Requirement>)
    ensures forall r :: r in Firsts(items) ==> r in items
    ensures IdsIncrease(items) ==> IdsIncrease(Firsts(items))
  {
    forall r | r in Firsts(items) ensures r in items {
      var m := FirstsAreFirst(items, |items|, r);
    }
    if IdsIncrease(items) {
      OrderStays(items, |items|);
    }
  }

  lemma {:induction false} OrderStays(items: seq<Requirement>, n: nat)
    requires n <= |items| && IdsIncrease(items)
    ensures IdsIncrease(FirstsOf(items, n))
    decreases n
  {
    if n > 0 {
      OrderStays(items, n - 1);
      var before := FirstsOf(items, n - 1);
      forall i | 0 <= i < |before| ensures before[i].id < items[n - 1].id {
        var m := FirstsAreFirst(items, n - 1, before[i]);
      }
    }
  }

  method ExtractPage(p: Platform, page: Page, first: nat) returns (items: seq<Requirement>, counter: nat)
    ensures items == OnPage(p, page, first, |page.found|) && counter == first + |page.found|
  {
    items, counter := [], first;
    var j := 0;
    while j < |page.found|
      invariant 0 <= j <= |page.found| && counter == first + j && items == OnPage(p, page, first, j)
    {
      items := items + [NewRequirement(p, page, page.found[j], counter)];
      counter := counter + 1;
      j := j + 1;
    }
  }

  // ---------------------------------------------------------------- what extraction finds

  /** The j-th match on page i, if that page has text. */
  predicate MatchAt(p: Platform, pages: seq<Page>, i: int, j: int) {
    0 <= i < |pages| && !Blank(p, pages[i].text) && 0 <= j < |pages[i].found|
  }

  /** The text around a match, up to 110 characters to either side. */
  predicate Quotes(p: Platform, page: Page, f: Found, quote: string) {
    f.start <= f.end <= |page.text| ==>
      quote == p.squeeze(page.text[if f.start < 110 then 0 else f.start - 110..
                                   if |page.text| < f.end + 110 then |page.text| else f.end + 110])
  }

  predicate HoldsMatch(page: Page, f: Found, block: Block) {
    f.start <= f.end <= |page.text| && block.locator.Some? && block.text != ""
    && Occurs(page.text[f.start..f.end], block.text)
  }

  /** Located at the first located block that holds the matched text, at the page if there is none. */
  ghost predicate Locates(p: Platform, page: Page, f: Found, locator: Locator) {
    f.start <= f.end <= |page.text| ==>
      if exists b :: 0 <= b < |page.blocks| && HoldsMatch(page, f, page.blocks[b]) then
        exists b :: 0 <= b < |page.blocks| && HoldsMatch(page, f, page.blocks[b])
                    && page.blocks[b].locator == Some(locator)
                    && forall a :: 0 <= a < b ==> !HoldsMatch(page, f, page.blocks[a])
      else locator == PageLocator(p, page)
  }

  /** The requirement is about this match. */
  predicate About(p: Platform, page: Page, f: Found, r: Requirement) {
    r.name == f.name && r.category == f.category && r.source.page == page.number && Quotes(p, page, f, r.source.quote)
  }

  /** The requirement is what this match gives: a new, open one without evidence. */
  ghost predicate Describes(p: Platform, page: Page, f: Found, r: Requirement) {
    && About(p, page, f, r) && r.source.sourceId == page.sourceId && Locates(p, page, f, r.source.locator)
    && r.title == Prefix(r.source.quote, 160)
    && r.evidence == [] && r.status == NeedsReview && r.suggested == None
  }

  lemma {:induction false} FirstBlockExactly(page: Page, f: Found, blocks: seq<Block>)
    requires f.start <= f.end <= |page.text|
    ensures var found := FirstBlock(blocks, page.text[f.start..f.end]);
            if found.Some? then
              exists b :: 0 <= b < |blocks| && HoldsMatch(page, f, blocks[b]) && blocks[b].locator == found
                          && forall a :: 0 <= a < b ==> !HoldsMatch(page, f, blocks[a])
            else forall b :: 0 <= b < |blocks| ==> !HoldsMatch(page, f, blocks[b])
    decreases |blocks|
  {
    if blocks != [] {
      var found := FirstBlock(blocks, page.text[f.start..f.end]);
      if HoldsMatch(page, f, blocks[0]) {
        assert blocks[0].locator == found;
      } else {
        FirstBlockExactly(page, f, blocks[1..]);
        assert forall b :: 0 < b < |blocks| ==> blocks[b] == blocks[1..][b - 1];
        if found.Some? {
          var b :| 0 <= b < |blocks| - 1 && HoldsMatch(page, f, blocks[1..][b]) && blocks[1..][b].locator == found
                   && forall a :: 0 <= a < b ==> !HoldsMatch(page, f, blocks[1..][a]);
          assert HoldsMatch(page, f, blocks[b + 1]) && blocks[b + 1].locator == found;
        }
      }
    }
  }

  lemma NewRequirementDescribes(p: Platform, page: Page, f: Found, id: nat)
    ensures Describes(p, page, f, NewRequirement(p, page, f, id))
  {
    if f.start <= f.end <= |page.text| {
      FirstBlockExactly(page, f, page.blocks);
    }
  }

  /** What was extracted from the first pages stays where it is. */
  lemma {:induction false} ExtractedGrows(p: Platform, pages: seq<Page>, i: nat, n: nat)
    requires i <= n <= |pages|
    ensures ExtractedFrom(p, pages, i) <= ExtractedFrom(p, pages, n)
    decreases n
  {
    if i < n {
      ExtractedGrows(p, pages, i, n - 1);
    }
  }

  lemma {:induction false} OnPageAt(p: Platform, page: Page, counter: nat, n: nat, j: nat)
    requires j < n <= |page.found|
    ensures OnPage(p, page, counter, n)[j] == NewRequirement(p, page, page.found[j], counter + j)
    decreases n
  {
    if j < n - 1 {
      OnPageAt(p, page, counter, n - 1, j);
    }
  }

  lemma PickFrom(all: seq<Requirement>, before: seq<Requirement>, items: seq<Requirement>, j: nat)
    requires before + items <= all && j < |items|
    ensures |before| + j < |all| && all[|before| + j] == items[j]
  {
    assert (before + items)[|before| + j] == items[j];
  }

  /** Every match on a page with text is extracted, at its place in the order of pages and matches. */
  lemma ExtractedAt(p: Platform, pages: seq<Page>, i: nat, j: nat)
    requires MatchAt(p, pages, i, j)
    ensures var k := MatchesBefore(p, pages, i) + j;
            k < |Extracted(p, pages)| && Extracted(p, pages)[k] == NewRequirement(p, pages[i], pages[i].found[j], 1 + k)
  {
    var before, page := ExtractedFrom(p, pages, i), pages[i];
    ExtractedGrows(p, pages, i + 1, |pages|);
    PickFrom(Extracted(p, pages), before, OnPage(p, page, 1 + |before|, |page.found|), j);
    OnPageAt(p, page, 1 + |before|, |page.found|, j);
  }

  /** And nothing else is extracted. */
  lemma {:induction false} MatchNumber(p: Platform, pages: seq<Page>, n: nat, k: nat) returns (i: nat, j: nat)
    requires n <= |pages| && k < MatchesBefore(p, pages, n)
    ensures MatchAt(p, pages, i, j) && k == MatchesBefore(p, pages, i) + j
    decreases n
  {
    if k < MatchesBefore(p, pages, n - 1) {
      i, j := MatchNumber(p, pages, n - 1, k);
    } else {
      i, j := n - 1, k - MatchesBefore(p, pages, n - 1);
    }
  }

  /** A requirement numbered by the place of its match. */
  ghost predicate ComesFrom(p: Platform, pages: seq<Page>, i: int, j: int, r: Requirement) {
    MatchAt(p, pages, i, j) && Describes(p, pages[i], pages[i].found[j], r)
    && r.id == 1 + MatchesBefore(p, pages, i) + j
  }

  /** Every requirement comes from a match on a page with text, in the order of pages and matches. */
  ghost predicate AllFromMatches(p: Platform, pages: seq<Page>, requirements: seq<Requirement>) {
    forall r :: r in requirements ==> exists i, j :: ComesFrom(p, pages, i, j, r)
  }

  /** A requirement that reports a match, itself or an earlier one that reads the same. */
  ghost predicate Reports(p: Platform, pages: seq<Page>, i: int, j: int, r: Requirement) {
    MatchAt(p, pages, i, j) && About(p, pages[i], pages[i].found[j], r) && r.id <= 1 + MatchesBefore(p, pages, i) + j
  }

  /** No match on a page with text is lost. */
  ghost predicate AllReported(p: Platform, pages: seq<Page>, requirements: seq<Requirement>) {
    forall i, j :: MatchAt(p, pages, i, j) ==> exists r :: r in requirements && Reports(p, pages, i, j, r)
  }

  lemma DescribedAt(p: Platform, pages: seq<Page>, i: nat, j: nat, k: nat)
    requires MatchAt(p, pages, i, j) && k == MatchesBefore(p, pages, i) + j
    ensures k < |Extracted(p, pages)| && ComesFrom(p, pages, i, j, Extracted(p, pages)[k])
  {
    ExtractedAt(p, pages, i, j);
    NewRequirementDescribes(p, pages[i], pages[i].found[j], 1 + k);
  }

  lemma SourceOf(p: Platform, pages: seq<Page>, k: nat) returns (i: nat, j: nat)
    requires k < |Extracted(p, pages)|
    ensures ComesFrom(p, pages, i, j, Extracted(p, pages)[k])
  {
    i, j := MatchNumber(p, pages, |pages|, k);
    DescribedAt(p, pages, i, j, k);
  }

  lemma ExtractionIsSound(p: Platform, pages: seq<Page>)
    ensures AllFromMatches(p, pages, Firsts(Extracted(p, pages)))
  {
    var all := Extracted(p, pages);
    FirstsOrder(all);
    forall r | r in Firsts(all) ensures exists i, j :: ComesFrom(p, pages, i, j, r) {
      var k :| 0 <= k < |all| && all[k] == r;
      var i, j := SourceOf(p, pages, k);
    }
  }

  lemma SameKeySameMatch(p: Platform, page: Page, f: Found, a: Requirement, b: Requirement)
    requires About(p, page, f, a) && KeyOf(a) == KeyOf(b)
    ensures About(p, page, f, b)
  {
  }

  lemma ReporterOf(p: Platform, pages: seq<Page>, i: nat, j: nat) returns (r: Requirement)
    requires MatchAt(p, pages, i, j)
    ensures r in Firsts(Extracted(p, pages)) && Reports(p, pages, i, j, r)
  {
    var k := MatchesBefore(p, pages, i) + j;
    DescribedAt(p, pages, i, j, k);
    var m := EarliestOf(p, pages, k);
    r := Extracted(p, pages)[m];
    SameKeySameMatch(p, pages[i], pages[i].found[j], Extracted(p, pages)[k], r);
  }

  lemma EarliestOf(p: Platform, pages: seq<Page>, k: nat) returns (m: nat)
    requires k < |Extracted(p, pages)|
    ensures m <= k && KeyOf(Extracted(p, pages)[m]) == KeyOf(Extracted(p, pages)[k])
    ensures Extracted(p, pages)[m] in Firsts(Extracted(p, pages)) && Extracted(p, pages)[m].id == 1 + m
  {
    m := FirstsEarliest(Extracted(p, pages), |Extracted(p, pages)|, k);
    ExtractedFresh(p, pages);
  }

  lemma ExtractionIsComplete(p: Platform, pages: seq<Page>)
    ensures AllReported(p, pages, Firsts(Extracted(p, pages)))
  {
    forall i, j | MatchAt(p, pages, i, j)
      ensures exists r :: r in Firsts(Extracted(p, pages)) && Reports(p, pages, i, j, r)
    {
      var r := ReporterOf(p, pages, i, j);
    }
  }

  /** What extraction and deduplication deliver: no match on a page with text is lost, nothing is made up,
      numbers follow pages and matches, and nothing is said twice. */
  ghost predicate Finds(p: Platform, pages: seq<Page>, requirements: seq<Requirement>) {
    && AllReported(p, pages, requirements) && AllFromMatches(p, pages, requirements)
    && IdsIncrease(requirements) && DistinctKeys(requirements)
  }

  lemma ExtractionFinds(p: Platform, pages: seq<Page>)
    ensures Finds(p, pages, Firsts(Extracted(p, pages)))
  {
    ExtractionIsSound(p, pages);
    ExtractionIsComplete(p, pages);
    ExtractedFresh(p, pages);
    FirstsOrder(Extracted(p, pages));
    FirstsKeys(Extracted(p, pages));
  }

  /** The extraction loops, with a running counter over pages and matches. */
  method ExtractAll(p: Platform, pages: seq<Page>) returns (all: seq<Requirement>)
    ensures all == Extracted(p, pages)
  {
    all := [];
    var counter, i := 1, 0;
    while i < |pages|
      invariant 0 <= i <= |pages| && all == ExtractedFrom(p, pages, i) && counter == 1 + |all|
    {
      if !Blank(p, pages[i].text) {
        var items;
        items, counter := ExtractPage(p, pages[i], counter);
        all := all + items;
      }
      i := i + 1;
    }
  }

  method ExtractRequirements(p: Platform, pages: seq<Page>) returns (requirements: seq<Requirement>)
    ensures Finds(p, pages, requirements)
    ensures requirements == Firsts(Extracted(p, pages))
  {
    var all := ExtractAll(p, pages);
    requirements := Deduplicate(all);
    ExtractionFinds(p, pages);
  }

  /** Freshly extracted requirements are numbered through, open and without evidence. */
  ghost predicate Fresh(items: seq<Requirement>, counter: nat) {
    forall i :: 0 <= i < |items| ==>
      items[i].id == counter + i && items[i].status == NeedsReview && items[i].evidence == []
  }

  lemma ExtractedFresh(p: Platform, pages: seq<Page>)
    ensures Fresh(Extracted(p, pages), 1)
  {
    forall k | 0 <= k < |Extracted(p, pages)|
      ensures Extracted(p, pages)[k].id == 1 + k
      ensures Extracted(p, pages)[k].status == NeedsReview && Extracted(p, pages)[k].evidence == []
    {
      var i, j := MatchNumber(p, pages, |pages|, k);
      ExtractedAt(p, pages, i, j);
    }
  }

  // ---------------------------------------------------------------- evidence

  /** White space removed, lower case. */
  function Compact(p: Platform, text: string): string {
    if text == "" then "" else (if p.space(text[0]) then "" else p.lower(text[0])) + Compact(p, text[1..])
  }

  function Join(pages: seq<Page>): string {
    if pages == [] then "" else if |pages| == 1 then pages[0].text else pages[0].text + "\n" + Join(pages[1..])
  }

  function Eligible(pages: seq<Page>): seq<Page> {
    if pages == [] then [] else (if pages[0].ocrFailed then [] else [pages[0]]) + Eligible(pages[1..])
  }

  function Hits(terms: seq<string>, text: string): seq<string> {
    if terms == [] then [] else (if Occurs(terms[0], text) then [terms[0]] else []) + Hits(terms[1..], text)
  }

  predicate AnyTerm(p: Platform, terms: seq<string>, text: string) {
    exists i :: 0 <= i < |terms| && Occurs(terms[i], Compact(p, text))
  }

  function FirstPage(p: Platform, terms: seq<string>, pages: seq<Page>): Option<Page> {
    if pages == [] then None
    else if AnyTerm(p, terms, pages[0].text) then Some(pages[0]) else FirstPage(p, terms, pages[1..])
  }

  function FirstTextBlock(p: Platform, terms: seq<string>, blocks: seq<Block>): Option<Block> {
    if blocks == [] then None
    else if blocks[0].text != "" && AnyTerm(p, terms, blocks[0].text) then Some(blocks[0])
    else FirstTextBlock(p, terms, blocks[1..])
  }

  function Cite(p: Platform, page: Page, terms: seq<string>, hits: seq<string>, fallback: string): Citation {
    var block := FirstTextBlock(p, terms, page.blocks);
    Citation(
      if page.filename != "" then page.filename else fallback,
      page.number,
      if block.Some? && block.value.locator.Some? then block.value.locator.value else PageLocator(p, page),
      Prefix(p.squeeze(if block.Some? then block.value.text else page.text), 240),
      hits)
  }

  /** What matching makes of one requirement. */
  function Matched(p: Platform, pages: seq<Page>, fallback: string, r: Requirement): Requirement {
    if r.category !in EVIDENCE_CATEGORIES then r
    else
      var terms := p.terms(r.title, r.category);
      var hits := Hits(terms, Compact(p, Join(Eligible(pages))));
      var page := FirstPage(p, terms, Eligible(pages));
      if hits == [] || page.None? then r.(status := Unknown)
      else r.(evidence := r.evidence + [Cite(p, page.value, terms, hits, fallback)], status := NeedsReview,
              suggested := Some(Pass), score := |hits|)
  }

  /** The matching loop, requirement by requirement in place. */
  method MatchEvidence(p: Platform, requirements: array<Requirement>, pages: seq<Page>, fallback: string)
    modifies requirements
    ensures forall i :: 0 <= i < requirements.Length ==>
              requirements[i] == Matched(p, pages, fallback, old(requirements[i]))
  {
    var eligible := Eligible(pages);
    var compact := Compact(p, Join(eligible));
    for i := 0 to requirements.Length
      invariant forall k :: 0 <= k < i ==> requirements[k] == Matched(p, pages, fallback, old(requirements[k]))
      invariant forall k :: i <= k < requirements.Length ==> requirements[k] == old(requirements[k])
    {
      var r := requirements[i];
      if r.category in EVIDENCE_CATEGORIES {
        var terms := p.terms(r.title, r.category);
        var hits := Hits(terms, compact);
        var page := FirstPage(p, terms, eligible);
        if hits == [] || page.None? {
          requirements[i] := r.(status := Unknown);
        } else {
          requirements[i] := r.(evidence := r.evidence + [Cite(p, page.value, terms, hits, fallback)],
                                status := NeedsReview, suggested := Some(Pass), score := |hits|);
        }
      }
    }
  }

  lemma {:induction false} CompactJoins(p: Platform, a: string, b: string)
    ensures Compact(p, a + b) == Compact(p, a) + Compact(p, b)
    decreases |a|
  {
    if a == "" {
      assert a + b == b;
    } else {
      assert (a + b)[1..] == a[1..] + b;
      CompactJoins(p, a[1..], b);
    }
  }

  lemma OccursInJoin(a: string, b: string, c: string, term: string)
    requires Occurs(term, b)
    ensures Occurs(term, a + b + c)
  {
    var i :| 0 <= i <= |b| && OccursAt(term, b, i);
    assert OccursAt(term, a + b + c, i + |a|);
  }

  /** A term on one page is a term of the joined text, since page breaks are white space. */
  lemma {:induction false} PageTermInJoin(p: Platform, pages: seq<Page>, k: nat, term: string)
    requires p.space('\n') && k < |pages| && Occurs(term, Compact(p, pages[k].text))
    ensures Occurs(term, Compact(p, Join(pages)))
    decreases |pages|
  {
    var first := Compact(p, pages[0].text);
    if |pages| == 1 {
      assert k == 0;
    } else {
      var rest := Join(pages[1..]);
      CompactJoins(p, pages[0].text + "\n", rest);
      CompactJoins(p, pages[0].text, "\n");
      assert Compact(p, "\n") == "" + Compact(p, "");
      assert Compact(p, Join(pages)) == first + Compact(p, rest);
      if k == 0 {
        OccursInJoin("", first, Compact(p, rest), term);
        assert "" + first + Compact(p, rest) == first + Compact(p, rest);
      } else {
        PageTermInJoin(p, pages[1..], k - 1, term);
        OccursInJoin(first, Compact(p, rest), "", term);
        assert first + Compact(p, rest) + "" == first + Compact(p, rest);
      }
    }
  }

  /** The hits are the terms that occur in the text, in their order. */
  lemma {:induction false} HitsExactly(terms: seq<string>, text: string)
    ensures forall t :: t in Hits(terms, text) <==> t in terms && Occurs(t, text)
    ensures Hits(terms, text) == [] <==> forall i :: 0 <= i < |terms| ==> !Occurs(terms[i], text)
  {
    if terms != [] {
      HitsExactly(terms[1..], text);
      assert forall i :: 0 < i < |terms| ==> terms[i] == terms[1..][i - 1];
    }
  }

  lemma {:induction false} FirstPageExactly(p: Platform, terms: seq<string>, pages: seq<Page>)
    ensures FirstPage(p, terms, pages).Some? <==> exists k :: 0 <= k < |pages| && AnyTerm(p, terms, pages[k].text)
    ensures FirstPage(p, terms, pages).Some? ==>
              exists k :: FirstAt(p, terms, pages, k) && pages[k] == FirstPage(p, terms, pages).value
    decreases |pages|
  {
    if pages != [] {
      FirstPageExactly(p, terms, pages[1..]);
      assert forall k :: 0 < k < |pages| ==> pages[k] == pages[1..][k - 1];
      if AnyTerm(p, terms, pages[0].text) {
        assert FirstAt(p, terms, pages, 0);
      } else if FirstPage(p, terms, pages).Some? {
        var k :| FirstAt(p, terms, pages[1..], k) && pages[1..][k] == FirstPage(p, terms, pages[1..]).value;
        assert FirstAt(p, terms, pages, k + 1);
      }
    }
  }

  /** The first page that holds a term by itself. */
  ghost predicate FirstAt(p: Platform, terms: seq<string>, pages: seq<Page>, k: int) {
    0 <= k < |pages| && AnyTerm(p, terms, pages[k].text)
    && forall m :: 0 <= m < k ==> !AnyTerm(p, terms, pages[m].text)
  }

  lemma {:induction false} FirstTextBlockExactly(p: Platform, terms: seq<string>, blocks: seq<Block>)
    ensures var block := FirstTextBlock(p, terms, blocks);
            && (block.Some? ==> block.value in blocks && block.value.text != "" && AnyTerm(p, terms, block.value.text))
            && (block.None? ==> forall b :: b in blocks && b.text != "" ==> !AnyTerm(p, terms, b.text))
    decreases |blocks|
  {
    if blocks != [] {
      FirstTextBlockExactly(p, terms, blocks[1..]);
    }
  }

  /** The check on the joined text never decides: whenever a page qualifies, it has passed. */
  lemma PrecheckIsImplied(p: Platform, terms: seq<string>, pages: seq<Page>)
    requires p.space('\n') && FirstPage(p, terms, pages).Some?
    ensures Hits(terms, Compact(p, Join(pages))) != []
  {
    FirstPageExactly(p, terms, pages);
    var k :| 0 <= k < |pages| && AnyTerm(p, terms, pages[k].text);
    var i :| 0 <= i < |terms| && Occurs(terms[i], Compact(p, pages[k].text));
    PageTermInJoin(p, pages, k, terms[i]);
    HitsExactly(terms, Compact(p, Join(pages)));
  }

  lemma {:induction false} EligibleExactly(pages: seq<Page>)
    ensures forall page :: page in Eligible(pages) <==> page in pages && !page.ocrFailed
  {
    if pages != [] {
      EligibleExactly(pages[1..]);
    }
  }

  /** A page that may be cited for a requirement: OCR did not fail and it holds a term by itself. */
  predicate Citable(p: Platform, pages: seq<Page>, r: Requirement, page: Page) {
    page in pages && !page.ocrFailed && AnyTerm(p, p.terms(r.title, r.category), page.text)
  }

  predicate CitableBlock(p: Platform, terms: seq<string>, page: Page, block: Block) {
    block in page.blocks && block.text != "" && AnyTerm(p, terms, block.text)
  }

  /** A citation quotes and locates a block holding a term if the page has one, the page itself if not. It
      names the page's file, or the given one for a page without, and the terms found anywhere. */
  ghost predicate CitesPage(p: Platform, c: Citation, page: Page, terms: seq<string>, text: string, fallback: string) {
    && c.page == page.number
    && (page.filename != "" ==> c.filename == page.filename) && (page.filename == "" ==> c.filename == fallback)
    && (forall t :: t in c.terms <==> t in terms && Occurs(t, text))
    && if exists block :: CitableBlock(p, terms, page, block) then
         exists block :: CitableBlock(p, terms, page, block) && c.quote == Prefix(p.squeeze(block.text), 240)
                         && c.locator == (if block.locator.Some? then block.locator.value else PageLocator(p, page))
       else c.quote == Prefix(p.squeeze(page.text), 240) && c.locator == PageLocator(p, page)
  }

  lemma CiteCites(p: Platform, page: Page, terms: seq<string>, text: string, fallback: string)
    ensures CitesPage(p, Cite(p, page, terms, Hits(terms, text), fallback), page, terms, text, fallback)
  {
    HitsExactly(terms, text);
    FirstTextBlockExactly(p, terms, page.blocks);
    var block := FirstTextBlock(p, terms, page.blocks);
    if block.Some? {
      assert CitableBlock(p, terms, page, block.value);
    }
  }

  /** Matching leaves requirements of other categories as they are. */
  lemma OthersStay(p: Platform, pages: seq<Page>, fallback: string, r: Requirement)
    requires r.category in {Fatal, Scoring, Deadline}
    ensures Matched(p, pages, fallback, r) == r
  {
  }

  /** The first readable page that holds a term of the requirement by itself, OCR failures skipped. */
  ghost predicate Cited(p: Platform, pages: seq<Page>, r: Requirement, page: Page) {
    Citable(p, pages, r, page)
    && exists k :: FirstAt(p, p.terms(r.title, r.category), Eligible(pages), k) && Eligible(pages)[k] == page
  }

  /** A requirement of an evidence category gains a citation exactly when some single readable page
      holds one of its terms; the citation is of the first such page, and of a block holding a term if it
      quotes a block. Otherwise the requirement becomes unknown. Nothing becomes a pass. */
  lemma CitationExactly(p: Platform, pages: seq<Page>, fallback: string, r: Requirement)
    requires p.space('\n') && r.category in {Qualification, Signature, Bond, Credential}
    ensures var after, terms := Matched(p, pages, fallback, r), p.terms(r.title, r.category);
            var text := Compact(p, Join(Eligible(pages)));
            && (|after.evidence| == |r.evidence| + 1 <==> exists page :: Citable(p, pages, r, page))
            && (|after.evidence| != |r.evidence| + 1 ==> after == r.(status := Unknown))
            && (|after.evidence| == |r.evidence| + 1 ==>
                  var c := after.evidence[|r.evidence|];
                  && after == r.(evidence := r.evidence + [c], status := NeedsReview, suggested := Some(Pass),
                                 score := |c.terms|)
                  && exists page :: Cited(p, pages, r, page) && CitesPage(p, c, page, terms, text, fallback))
  {
    var terms := p.terms(r.title, r.category);
    var eligible := Eligible(pages);
    EligibleExactly(pages);
    FirstPageExactly(p, terms, eligible);
    if exists page :: Citable(p, pages, r, page) {
      var page :| Citable(p, pages, r, page);
      assert page in eligible;
      var k :| 0 <= k < |eligible| && eligible[k] == page;
      assert AnyTerm(p, terms, eligible[k].text);
      PrecheckIsImplied(p, terms, eligible);
    }
    if FirstPage(p, terms, eligible).Some? {
      var cited := FirstPage(p, terms, eligible).value;
      PrecheckIsImplied(p, terms, eligible);
      CiteCites(p, cited, terms, Compact(p, Join(eligible)), fallback);
      assert Citable(p, pages, r, cited) && Cited(p, pages, r, cited);
    }
  }

  // ---------------------------------------------------------------- a whole scan

  function MatchedAll(p: Platform, pages: seq<Page>, fallback: string, items: seq<Requirement>): seq<Requirement> {
    seq(|items|, i requires 0 <= i < |items| => Matched(p, pages, fallback, items[i]))
  }

  /** The scan of one tender: evidence is matched only if there is any. */
  function Scan(p: Platform, tender: seq<Page>, evidence: seq<Page>, fallback: Option<string>): seq<Requirement> {
    var found := Firsts(Extracted(p, tender));
    if evidence != [] && fallback.Some? then MatchedAll(p, evidence, fallback.value, found) else found
  }

  /** Scanning never passes anything and never cites evidence for a fatal clause. */
  predicate Scanned(items: seq<Requirement>) {
    && IdsIncrease(items)
    && (forall r :: r in items ==> r.status in {NeedsReview, Unknown} && (r.category == Fatal ==> r.evidence == []))
  }

  lemma FreshIsScanned(items: seq<Requirement>, counter: nat)
    requires Fresh(items, counter)
    ensures IdsIncrease(items) && forall r :: r in items ==> r.status == NeedsReview && r.evidence == []
  {
  }

  lemma ScanIsCautious(p: Platform, tender: seq<Page>, evidence: seq<Page>, fallback: Option<string>)
    ensures Scanned(Scan(p, tender, evidence, fallback))
  {
    var all := Extracted(p, tender);
    ExtractedFresh(p, tender);
    FreshIsScanned(all, 1);
    FirstsOrder(all);
    if evidence != [] && fallback.Some? {
      MatchingIsCautious(p, evidence, fallback.value, Firsts(all));
    }
  }

  lemma MatchingIsCautious(p: Platform, evidence: seq<Page>, fallback: string, items: seq<Requirement>)
    requires Scanned(items)
    ensures Scanned(MatchedAll(p, evidence, fallback, items))
  {
    var after := MatchedAll(p, evidence, fallback, items);
    forall i | 0 <= i < |items|
      ensures after[i].id == items[i].id && after[i].status in {NeedsReview, Unknown}
      ensures after[i].category == Fatal ==> after[i].evidence == []
    {
      assert items[i] in items && after[i] == Matched(p, evidence, fallback, items[i]);
    }
  }
}
