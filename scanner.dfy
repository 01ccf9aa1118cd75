/** The inventory scanner (`getUnusedSecrets`): walk the secret inventory page
    by page and keep, in order, every entry whose age is known, at least the
    threshold, and whose name is not suppressed.

    `listSecrets` is a deterministic `Source` from the request's continuation
    token (None for the first request) to the page returned or the error
    thrown. The Lambda deadline is a budget of requests: a walk that would
    need more ends in DeadlineExceeded. */
module Scanner {
  import opened Wrappers
  import opened Age
  import opened Suppression

  /** A `SecretListEntry` as the scanner reads it. */
  datatype Entry = Entry(name: string, lastAccessed: Option<int>)

  /** One `listSecrets` response; an absent `SecretList` reads as empty. */
  datatype Page = Page(secretList: Option<seq<Entry>>, nextToken: Option<string>)

  /** An `ExtendedSecret`: a flagged entry with the age computed for it. */
  datatype Candidate = Candidate(name: string, lastAccessed: Option<int>, daysUnused: Option<nat>)

  type Source = Option<string> -> Result<Page>

  /** `secretResponse.SecretList || []` */
  function EntriesOf(page: Page): seq<Entry>
  {
    match page.secretList
    case None => []
    case Some(entries) => entries
  }

  /** JavaScript truthiness of an optional token: absent and "" are false. */
  predicate Truthy(token: Option<string>)
  {
    token.Some? && token.value != ""
  }

  /** The condition of the `if` inside the per-entry loop. */
  predicate Flagged(e: Entry, suppressed: seq<string>, threshold: int, now: int)
  {
    var days := DaysUnused(e.lastAccessed, now);
    days.Some? && days.value >= threshold && !IsSuppressed(e.name, suppressed)
  }

  /** The record pushed for a flagged entry. */
  function ToCandidate(e: Entry, now: int): Candidate
  {
    Candidate(e.name, e.lastAccessed, DaysUnused(e.lastAccessed, now))
  }

  /** The flagged entries, in order, as candidates. Every candidate has a
      last-access date, carries the age computed from it, is at least the
      threshold old and is not suppressed. */
  function Select(entries: seq<Entry>, suppressed: seq<string>, threshold: int, now: int): (found: seq<Candidate>)
    ensures |found| <= |entries|
    ensures forall c :: c in found ==>
      c.lastAccessed.Some? && c.daysUnused == DaysUnused(c.lastAccessed, now) &&
      c.daysUnused.value >= threshold && !IsSuppressed(c.name, suppressed)
  {
    if entries == [] then []
    else
      var head := if Flagged(entries[0], suppressed, threshold, now) then [ToCandidate(entries[0], now)] else [];
      head + Select(entries[1..], suppressed, threshold, now)
  }

  /** Selection keeps order: selecting from a concatenation concatenates the
      selections. */
  lemma {:induction false} SelectAppend(a: seq<Entry>, b: seq<Entry>, suppressed: seq<string>, threshold: int, now: int)
    ensures Select(a + b, suppressed, threshold, now) == Select(a, suppressed, threshold, now) + Select(b, suppressed, threshold, now)
  {
    if a != [] {
      assert (a + b)[0] == a[0];
      assert (a + b)[1..] == a[1..] + b;
      SelectAppend(a[1..], b, suppressed, threshold, now);
    } else {
      assert a + b == b;
    }
  }

  /** A candidate is selected exactly when it is the record of some flagged
      entry. */
  lemma {:induction false} SelectMembership(entries: seq<Entry>, suppressed: seq<string>, threshold: int, now: int, c: Candidate)
    ensures c in Select(entries, suppressed, threshold, now) <==>
      exists i :: 0 <= i < |entries| && Flagged(entries[i], suppressed, threshold, now) && c == ToCandidate(entries[i], now)
  {
    if entries != [] {
      SelectMembership(entries[1..], suppressed, threshold, now, c);
      if c in Select(entries[1..], suppressed, threshold, now) {
        var i :| 0 <= i < |entries| - 1 && Flagged(entries[1..][i], suppressed, threshold, now) && c == ToCandidate(entries[1..][i], now);
        assert entries[i + 1] == entries[1..][i];
      }
      if exists i :: 0 <= i < |entries| && Flagged(entries[i], suppressed, threshold, now) && c == ToCandidate(entries[i], now) {
        var i :| 0 <= i < |entries| && Flagged(entries[i], suppressed, threshold, now) && c == ToCandidate(entries[i], now);
        if i > 0 {
          assert entries[1..][i - 1] == entries[i];
        }
      }
    }
  }

  /** The age threshold is inclusive: an unsuppressed entry last used exactly
      `threshold` days before (or after) `now` is flagged. */
  lemma ThresholdIsInclusive(e: Entry, suppressed: seq<string>, threshold: nat, now: int)
    requires e.lastAccessed == Some(now - threshold * MillisPerDay) || e.lastAccessed == Some(now + threshold * MillisPerDay)
    requires !IsSuppressed(e.name, suppressed)
    ensures Flagged(e, suppressed, threshold, now)
  {
    DaysUnusedWholeDays(e.lastAccessed.value, now, threshold);
  }

  /** One day short of the threshold is not flagged. */
  lemma OneDayShortIsNotFlagged(e: Entry, suppressed: seq<string>, threshold: nat, now: int)
    requires threshold > 0
    requires e.lastAccessed == Some(now - (threshold - 1) * MillisPerDay)
    ensures !Flagged(e, suppressed, threshold, now)
  {
    DaysUnusedWholeDays(e.lastAccessed.value, now, threshold - 1);
  }

  /** Entries with no last-access date, and suppressed entries, are never
      flagged, whatever the threshold. */
  lemma NeverFlagged(e: Entry, suppressed: seq<string>, threshold: int, now: int)
    requires e.lastAccessed.None? || IsSuppressed(e.name, suppressed)
    ensures !Flagged(e, suppressed, threshold, now)
  {
  }

  /** The entries of the pages, in page order. */
  function Flatten(pages: seq<Page>): seq<Entry>
  {
    if pages == [] then [] else Flatten(pages[..|pages| - 1]) + EntriesOf(pages[|pages| - 1])
  }

  function Prepend(done: seq<Page>, rest: Result<seq<Page>>): Result<seq<Page>>
  {
    match rest
    case Failure(e) => Failure(e)
    case Success(pages) => Success(done + pages)
  }

  /** The token of the request after `page` as the source computes it:
      `nextToken` is assigned only inside the per-entry loop, so a page with
      no entries leaves the token that requested it in place. */
  function TokenAfter(requested: Option<string>, page: Page): Option<string>
  {
    if EntriesOf(page) == [] then requested else page.nextToken
  }

  /** The pages the do/while loop receives, starting with the request for
      `token`, with at most `budget` requests. */
  function Walk(source: Source, token: Option<string>, budget: nat): (r: Result<seq<Page>>)
    ensures r.Success? ==> 1 <= |r.value| <= budget && source(token) == Success(r.value[0])
    decreases budget
  {
    if budget == 0 then Failure(DeadlineExceeded)
    else
      match source(token)
      case Failure(e) => Failure(e)
      case Success(page) =>
        var next := TokenAfter(token, page);
        if !Truthy(next) then Success([page])
        else Prepend([page], Walk(source, next, budget - 1))
  }

  /** The intended walk: every page's own `NextToken` names the next page,
      until a page has none. */
  function Inventory(source: Source, token: Option<string>, budget: nat): (r: Result<seq<Page>>)
    ensures r.Success? ==> 1 <= |r.value| <= budget && source(token) == Success(r.value[0])
    decreases budget
  {
    if budget == 0 then Failure(DeadlineExceeded)
    else
      match source(token)
      case Failure(e) => Failure(e)
      case Success(page) =>
        if !Truthy(page.nextToken) then Success([page])
        else Prepend([page], Inventory(source, page.nextToken, budget - 1))
  }

  /** `pages` is the whole inventory reachable from `token`: each page is the
      response to the previous page's `NextToken`, every page but the last has
      one, and the last has none. */
  predicate IsChain(source: Source, token: Option<string>, pages: seq<Page>)
  {
    |pages| >= 1 && source(token) == Success(pages[0]) &&
    (forall i :: 0 <= i < |pages| - 1 ==>
      Truthy(pages[i].nextToken) && source(pages[i].nextToken) == Success(pages[i + 1])) &&
    !Truthy(pages[|pages| - 1].nextToken)
  }

  /** The intended walk visits exactly the chain of pages, whenever the
      budget allows that many requests. */
  lemma {:induction false} InventoryIsChain(source: Source, token: Option<string>, budget: nat, pages: seq<Page>)
    ensures Inventory(source, token, budget) == Success(pages) <==> IsChain(source, token, pages) && |pages| <= budget
    decreases budget
  {
    if budget > 0 && |pages| >= 1 && source(token) == Success(pages[0]) {
      if !Truthy(pages[0].nextToken) {
        if IsChain(source, token, pages) {
          assert pages == [pages[0]];
        }
      } else {
        var next := pages[0].nextToken;
        InventoryIsChain(source, next, budget - 1, pages[1..]);
        if IsChain(source, token, pages) {
          assert IsChain(source, next, pages[1..]) by {
            forall i | 0 <= i < |pages[1..]| - 1
              ensures Truthy(pages[1..][i].nextToken) && source(pages[1..][i].nextToken) == Success(pages[1..][i + 1])
            {
              assert pages[1..][i] == pages[i + 1] && pages[1..][i + 1] == pages[i + 2];
            }
            assert pages[1..][|pages[1..]| - 1] == pages[|pages| - 1];
          }
          assert pages == [pages[0]] + pages[1..];
        }
        if Inventory(source, token, budget) == Success(pages) {
          assert Inventory(source, token, budget) == Prepend([pages[0]], Inventory(source, next, budget - 1));
          assert Inventory(source, next, budget - 1) == Success(pages[1..]);
          forall i | 0 <= i < |pages| - 1
            ensures Truthy(pages[i].nextToken) && source(pages[i].nextToken) == Success(pages[i + 1])
          {
            if i > 0 {
              assert pages[i] == pages[1..][i - 1] && pages[i + 1] == pages[1..][i];
            }
          }
          assert pages[|pages| - 1] == pages[1..][|pages[1..]| - 1];
        }
      }
    }
  }

  /** On pages that all have entries the source's walk is the intended walk. */
  lemma {:induction false} WalkAgreesOnFilledPages(source: Source, token: Option<string>, budget: nat, pages: seq<Page>)
    requires forall i :: 0 <= i < |pages| ==> EntriesOf(pages[i]) != []
    ensures Walk(source, token, budget) == Success(pages) <==> Inventory(source, token, budget) == Success(pages)
    decreases budget
  {
    if budget > 0 && |pages| >= 1 && source(token) == Success(pages[0]) {
      var next := pages[0].nextToken;
      assert TokenAfter(token, pages[0]) == next;
      if Truthy(next) {
        WalkAgreesOnFilledPages(source, next, budget - 1, pages[1..]);
        assert pages == [pages[0]] + pages[1..];
      }
    }
  }

  /** A page without entries fetched with a non-empty token is requested
      again and again: the walk never ends, whatever the budget. */
  lemma {:induction false} EmptyPageStalls(source: Source, token: Option<string>, budget: nat, page: Page)
    requires Truthy(token) && source(token) == Success(page) && EntriesOf(page) == []
    ensures Walk(source, token, budget) == Failure(DeadlineExceeded)
    decreases budget
  {
    if budget > 0 {
      EmptyPageStalls(source, token, budget - 1, page);
    }
  }

  /** The second finding's input: page 1 has one entry and the token "t";
      page "t" has no entries and the token "u". The scan as written asks for
      "t" again and again and never reaches "u". */
  lemma EmptySecondPageStallsScan(source: Source, budget: nat, e: Entry, empty: Page)
    requires source(None) == Success(Page(Some([e]), Some("t")))
    requires source(Some("t")) == Success(empty) && EntriesOf(empty) == [] && empty.nextToken == Some("u")
    ensures Walk(source, None, budget) == Failure(DeadlineExceeded)
  {
    if budget > 0 {
      EmptyPageStalls(source, Some("t"), budget - 1, empty);
    }
  }

  /** A successful walk either has entries on every page, or is a single page
      without entries fetched by the first request (no token). */
  lemma {:induction false} WalkShape(source: Source, token: Option<string>, budget: nat)
    requires Walk(source, token, budget).Success?
    ensures var pages := Walk(source, token, budget).value;
      (forall i :: 0 <= i < |pages| ==> EntriesOf(pages[i]) != []) ||
      (|pages| == 1 && !Truthy(token) && EntriesOf(pages[0]) == [])
    decreases budget
  {
    var page := source(token).value;
    var next := TokenAfter(token, page);
    if EntriesOf(page) == [] && Truthy(token) {
      EmptyPageStalls(source, token, budget, page);
    } else if EntriesOf(page) != [] && Truthy(next) {
      WalkShape(source, next, budget - 1);
      var rest := Walk(source, next, budget - 1).value;
      var pages := Walk(source, token, budget).value;
      assert pages == [page] + rest;
      forall i | 0 <= i < |pages|
        ensures EntriesOf(pages[i]) != []
      {
        if i > 0 {
          assert pages[i] == rest[i - 1];
        }
      }
    }
  }

  /** If the first page has no entries the scan ends after that one request,
      whatever `NextToken` it carried. */
  lemma FirstEmptyPageEndsWalk(source: Source, budget: nat, page: Page)
    requires budget >= 1
    requires source(None) == Success(page) && EntriesOf(page) == []
    ensures Walk(source, None, budget) == Success([page])
  {
  }

  lemma FlattenSnoc(pages: seq<Page>, page: Page)
    ensures Flatten(pages + [page]) == Flatten(pages) + EntriesOf(page)
  {
    assert (pages + [page])[..|pages|] == pages;
  }

  lemma SelectSnoc(entries: seq<Entry>, e: Entry, suppressed: seq<string>, threshold: int, now: int)
    ensures Select(entries + [e], suppressed, threshold, now) ==
      Select(entries, suppressed, threshold, now) + (if Flagged(e, suppressed, threshold, now) then [ToCandidate(e, now)] else [])
  {
    SelectAppend(entries, [e], suppressed, threshold, now);
    assert [e][1..] == [];
  }

  /** One turn of the do/while loop, as seen from the walk still ahead. */
  lemma WalkStep(source: Source, visited: seq<Page>, requested: Option<string>, budget: nat, page: Page)
    requires budget > 0 && source(requested) == Success(page)
    ensures var next := TokenAfter(requested, page);
      Prepend(visited, Walk(source, requested, budget)) ==
        if Truthy(next) then Prepend(visited + [page], Walk(source, next, budget - 1)) else Success(visited + [page])
  {
    var next := TokenAfter(requested, page);
    if Truthy(next) {
      var rest := Walk(source, next, budget - 1);
      if rest.Success? {
        assert visited + ([page] + rest.value) == visited + [page] + rest.value;
      }
    }
  }

  /** Builds the scan's result from the suppression parameter and a walk. */
  function Collect(parameter: Result<Option<string>>, walk: Result<seq<Page>>, threshold: int, now: int): Result<seq<Candidate>>
  {
    match parameter
    case Failure(e) => Failure(e)
    case Success(value) =>
      match walk
      case Failure(e) => Failure(e)
      case Success(pages) => Success(Select(Flatten(pages), SuppressionList(value), threshold, now))
  }

  /** What `getUnusedSecrets` resolves to: the parameter's failure, the
      failure of any request, or the candidates of all pages walked. */
  function ScanResult(parameter: Result<Option<string>>, source: Source, threshold: int, now: int, budget: nat): Result<seq<Candidate>>
  {
    Collect(parameter, Walk(source, None, budget), threshold, now)
  }

  /** The scan when every page follows its predecessor's own `NextToken`. */
  function CorrectedScanResult(parameter: Result<Option<string>>, source: Source, threshold: int, now: int, budget: nat): Result<seq<Candidate>>
  {
    Collect(parameter, Inventory(source, None, budget), threshold, now)
  }

  /** When every page of the inventory has entries, the scan requests pages
      until one has no `NextToken` and returns the candidates of all of them,
      in order. */
  lemma ScanOverFilledInventory(value: Option<string>, source: Source, threshold: int, now: int, budget: nat, pages: seq<Page>)
    requires IsChain(source, None, pages) && |pages| <= budget
    requires forall i :: 0 <= i < |pages| ==> EntriesOf(pages[i]) != []
    ensures ScanResult(Success(value), source, threshold, now, budget) ==
      Success(Select(Flatten(pages), SuppressionList(value), threshold, now))
  {
    InventoryIsChain(source, None, budget, pages);
    WalkAgreesOnFilledPages(source, None, budget, pages);
  }

  /** The corrected scan visits the whole chain of pages, empty or not, and
      returns the candidates of all of them. */
  lemma CorrectedScanCoversInventory(value: Option<string>, source: Source, threshold: int, now: int, budget: nat, pages: seq<Page>)
    requires IsChain(source, None, pages) && |pages| <= budget
    ensures CorrectedScanResult(Success(value), source, threshold, now, budget) ==
      Success(Select(Flatten(pages), SuppressionList(value), threshold, now))
  {
    InventoryIsChain(source, None, budget, pages);
  }

  /** A failure on the second page fails the whole scan: the first page's
      candidates are not returned. */
  lemma SecondPageFailureAbortsScan(value: Option<string>, source: Source, threshold: int, now: int, budget: nat, first: Page, e: Error)
    requires budget >= 2
    requires source(None) == Success(first) && EntriesOf(first) != [] && Truthy(first.nextToken)
    requires source(first.nextToken) == Failure(e)
    ensures ScanResult(Success(value), source, threshold, now, budget) == Failure(e)
  {
    assert Walk(source, first.nextToken, budget - 1) == Failure(e);
    assert TokenAfter(None, first) == first.nextToken;
  }

  /** The first page is empty but names a second page; the second holds a
      secret unused for 100 days. */
  function SkippedPageSource(): Source
  {
    token =>
      if token == None then Success(Page(Some([]), Some("page-2")))
      else if token == Some("page-2") then Success(Page(Some([Entry("stale", Some(0))]), None))
      else Failure(ListSecretsFailed("unknown token"))
  }

  /** As written, the scan stops after an empty first page that carries a
      continuation token, and misses the stale secret on the second page. */
  lemma FirstEmptyPageHidesRest()
    ensures var source := SkippedPageSource();
      var first := Page(Some([]), Some("page-2"));
      var second := Page(Some([Entry("stale", Some(0))]), None);
      Truthy(first.nextToken) &&
      Walk(source, None, 10) == Success([first]) &&
      Inventory(source, None, 10) == Success([first, second]) &&
      ScanResult(Success(None), source, 90, 100 * MillisPerDay, 10) == Success([]) &&
      CorrectedScanResult(Success(None), source, 90, 100 * MillisPerDay, 10) == Success([Candidate("stale", Some(0), Some(100))])
  {
    var source := SkippedPageSource();
    var first := Page(Some([]), Some("page-2"));
    var second := Page(Some([Entry("stale", Some(0))]), None);
    DaysUnusedWholeDays(0, 100 * MillisPerDay, 100);
    assert source(None) == Success(first);
    assert source(Some("page-2")) == Success(second);
    assert Inventory(source, Some("page-2"), 9) == Success([second]);
    assert Inventory(source, None, 10) == Prepend([first], Inventory(source, Some("page-2"), 9));
    assert [first, second][..1] == [first] && [first][..0] == [];
    assert Flatten([first]) == [];
    assert Flatten([first, second]) == [Entry("stale", Some(0))];
    assert [first] + [second] == [first, second];
    assert Inventory(source, None, 10) == Success([first, second]);
    assert Walk(source, None, 10) == Success([first]);
    assert !IsSuppressed("stale", SuppressionList(None));
    assert Select([Entry("stale", Some(0))], SuppressionList(None), 90, 100 * MillisPerDay) == [Candidate("stale", Some(0), Some(100))];
  }

  /** The per-entry `for` loop over one page: push the record of every
      flagged entry onto `secrets`, and assign the page's `NextToken` once per
      entry, so the token is left as `requested` when there are no entries. */
  method ScanEntries(list: seq<Entry>, suppressed: seq<string>, maxUnusedDays: int, now: int,
                     secrets: seq<Candidate>, requested: Option<string>, pageNextToken: Option<string>)
    returns (pushed: seq<Candidate>, nextToken: Option<string>)
    ensures pushed == secrets + Select(list, suppressed, maxUnusedDays, now)
    ensures nextToken == if list == [] then requested else pageNextToken
  {
    pushed, nextToken := secrets, requested;
    var i := 0;
    while i < |list|
      invariant 0 <= i <= |list|
      invariant pushed == secrets + Select(list[..i], suppressed, maxUnusedDays, now)
      invariant nextToken == if i == 0 then requested else pageNextToken
    {
      var secret := list[i];
      var daysUnused := DaysUnused(secret.lastAccessed, now);
      SelectSnoc(list[..i], secret, suppressed, maxUnusedDays, now);
      assert list[..i + 1] == list[..i] + [secret];
      if daysUnused.Some? && daysUnused.value >= maxUnusedDays && !IsSuppressed(secret.name, suppressed) {
        pushed := pushed + [Candidate(secret.name, secret.lastAccessed, daysUnused)];
      }
      nextToken := pageNextToken;
      i := i + 1;
    }
    assert list[..|list|] == list;
  }

  /** `getUnusedSecrets`: load the suppression list, then the do/while loop
      over pages. */
  method GetUnusedSecrets(parameter: Result<Option<string>>, source: Source, maxUnusedDays: int, now: int, budget: nat)
    returns (r: Result<seq<Candidate>>)
    ensures r == ScanResult(parameter, source, maxUnusedDays, now, budget)
  {
    if parameter.Failure? {
      return Failure(parameter.error);
    }
    var suppressed := SuppressionList(parameter.value);
    var secrets: seq<Candidate> := [];
    var nextToken: Option<string> := None;
    var requests: nat := 0;
    ghost var whole := Walk(source, None, budget);
    ghost var visited: seq<Page> := [];
    assert Prepend(visited, whole) == whole by {
      if whole.Success? {
        assert [] + whole.value == whole.value;
      }
    }
    while true
      invariant requests == |visited| <= budget
      invariant requests == 0 ==> nextToken == None
      invariant whole == Prepend(visited, Walk(source, nextToken, budget - requests))
      invariant secrets == Select(Flatten(visited), suppressed, maxUnusedDays, now)
      decreases budget - requests
    {
      if requests == budget {
        return Failure(DeadlineExceeded);
      }
      var response := source(nextToken);
      requests := requests + 1;
      if response.Failure? {
        return Failure(response.error);
      }
      var page := response.value;
      ghost var requested := nextToken;
      SelectAppend(Flatten(visited), EntriesOf(page), suppressed, maxUnusedDays, now);
      secrets, nextToken := ScanEntries(EntriesOf(page), suppressed, maxUnusedDays, now, secrets, nextToken, page.nextToken);
      WalkStep(source, visited, requested, budget - (requests - 1), page);
      FlattenSnoc(visited, page);
      visited := visited + [page];
      if !Truthy(nextToken) {
        break;
      }
    }
    return Success(secrets);
  }
}
