/**
 * The read side of the scripts' duplicate index: scoping search results to the configured
 * database, following the pagination cursor, reading a page's title, and the title-only
 * existence check.  The scripts repeat this code verbatim; it is defined once here.
 */
module NotionQueries {
  import opened Wrappers
  import opened Text
  import opened Notion

  /**
   * `parent.database_id` with hyphens removed, `''` when it is missing.  A `database_id`
   * holding `null`, on which `replace` would raise, is not modelled: Notion sends a string
   * or leaves the key out.
   */
  function ParentKey(page: Page): string {
    Remove(page.parentDatabaseId.GetOr(""), '-')
  }

  /** The page belongs to the configured database once hyphens are ignored on both sides. */
  predicate InDatabase(databaseId: string, page: Page) {
    ParentKey(page) == Remove(databaseId, '-')
  }

  /** The pages of `pages` that belong to the database, in their order. */
  function InDatabasePages(databaseId: string, pages: seq<Page>): (r: seq<Page>)
    ensures |r| <= |pages|
  {
    if pages == [] then []
    else
      var last := pages[|pages| - 1];
      InDatabasePages(databaseId, pages[..|pages| - 1]) + (if InDatabase(databaseId, last) then [last] else [])
  }

  /** Every kept page belongs to the database and comes from `pages`. */
  lemma {:induction false} InDatabasePagesSound(databaseId: string, pages: seq<Page>)
    ensures forall k :: 0 <= k < |InDatabasePages(databaseId, pages)| ==>
      InDatabase(databaseId, InDatabasePages(databaseId, pages)[k]) && InDatabasePages(databaseId, pages)[k] in pages
  {
    if pages != [] {
      var init := pages[..|pages| - 1];
      InDatabasePagesSound(databaseId, init);
      assert forall p :: p in init ==> p in pages;
    }
  }

  /** Keeping the in-database pages of a concatenation keeps those of each part, in order. */
  lemma {:induction false} InDatabasePagesAppend(databaseId: string, a: seq<Page>, b: seq<Page>)
    ensures InDatabasePages(databaseId, a + b) == InDatabasePages(databaseId, a) + InDatabasePages(databaseId, b)
  {
    if b == [] {
      assert a + b == a;
    } else {
      assert (a + b)[..|a + b| - 1] == a + b[..|b| - 1];
      InDatabasePagesAppend(databaseId, a, b[..|b| - 1]);
    }
  }

  /** Every page of `pages` that belongs to the database is kept. */
  lemma {:induction false} InDatabasePagesComplete(databaseId: string, pages: seq<Page>, page: Page)
    requires page in pages && InDatabase(databaseId, page)
    ensures page in InDatabasePages(databaseId, pages)
  {
    var init := pages[..|pages| - 1];
    if page != pages[|pages| - 1] {
      assert page in init;
      InDatabasePagesComplete(databaseId, init, page);
    }
  }

  /** The search eventually answers `has_more: false`, so the cursor loop ends. */
  predicate Finishes(responses: seq<Response>) {
    exists i :: 0 <= i < |responses| && !responses[i].hasMore
  }

  /**
   * What `get_all_pages` ends up holding when it is about to read response `i` with `acc`
   * collected: each response adds its in-database pages, and the first one with `has_more`
   * false is the last one read.
   */
  function Collect(databaseId: string, responses: seq<Response>, i: nat, acc: seq<Page>): seq<Page>
    decreases |responses| - i
  {
    if i >= |responses| then acc
    else
      var next := acc + InDatabasePages(databaseId, responses[i].results);
      if responses[i].hasMore then Collect(databaseId, responses, i + 1, next) else next
  }

  /** The results of the responses, concatenated in fetch order. */
  function Flat(responses: seq<Response>): (r: seq<Page>)
    ensures forall j, p :: 0 <= j < |responses| && p in responses[j].results ==> p in r
  {
    if responses == [] then [] else responses[0].results + Flat(responses[1..])
  }

  /** The pages `get_all_pages` returns. */
  function FetchedPages(databaseId: string, responses: seq<Response>): seq<Page> {
    Collect(databaseId, responses, 0, [])
  }

  /**
   * The searches made from response `i` on, after `acc`: each passes the cursor the previous
   * response returned as `next_cursor`, and no filter.
   */
  function Searches(responses: seq<Response>, i: nat, cursor: Option<string>, acc: seq<Call>): seq<Call>
    decreases |responses| - i
  {
    if i >= |responses| then acc
    else
      var next := acc + [Search(None, cursor)];
      if responses[i].hasMore then Searches(responses, i + 1, responses[i].nextCursor, next) else next
  }

  /** The searches `get_all_pages` makes, the first without a cursor. */
  function SearchCalls(responses: seq<Response>): seq<Call> {
    Searches(responses, 0, None, [])
  }

  /** `get_all_pages`: follow the cursor until `has_more` is false, keeping the database's pages. */
  method GetAllPages(databaseId: string, responses: seq<Response>) returns (pages: seq<Page>, calls: seq<Call>)
    requires Finishes(responses)
    ensures pages == FetchedPages(databaseId, responses)
    ensures calls == SearchCalls(responses)
  {
    ghost var last :| 0 <= last < |responses| && !responses[last].hasMore;
    pages, calls := [], [];
    var hasMore, cursor, i := true, None, 0;
    while hasMore
      invariant 0 <= i <= |responses|
      invariant hasMore ==> i <= last
      invariant hasMore ==> Collect(databaseId, responses, i, pages) == FetchedPages(databaseId, responses)
      invariant hasMore ==> Searches(responses, i, cursor, calls) == SearchCalls(responses)
      invariant !hasMore ==> pages == FetchedPages(databaseId, responses)
      invariant !hasMore ==> calls == SearchCalls(responses)
      decreases |responses| - i
    {
      var response := responses[i];
      calls := calls + [Search(None, cursor)];
      pages := AppendInDatabase(databaseId, pages, response.results);
      hasMore, cursor, i := response.hasMore, response.nextCursor, i + 1;
    }
  }

  /** The inner loop of `get_all_pages`: append the results whose parent is the database. */
  method AppendInDatabase(databaseId: string, pages: seq<Page>, results: seq<Page>) returns (r: seq<Page>)
    ensures r == pages + InDatabasePages(databaseId, results)
  {
    r := pages;
    for j := 0 to |results|
      invariant r == pages + InDatabasePages(databaseId, results[..j])
    {
      var page := results[j];
      assert results[..j + 1][..j] == results[..j];
      if InDatabase(databaseId, page) {
        r := r + [page];
      }
    }
    assert results[..|results|] == results;
  }

  /** Every page collected belongs to the configured database and is one of the search results. */
  lemma {:induction false} CollectInDatabase(databaseId: string, responses: seq<Response>, i: nat, acc: seq<Page>)
    requires forall k :: 0 <= k < |acc| ==> InDatabase(databaseId, acc[k]) && FromSearch(responses, acc[k])
    ensures forall k :: 0 <= k < |Collect(databaseId, responses, i, acc)| ==>
      InDatabase(databaseId, Collect(databaseId, responses, i, acc)[k]) && FromSearch(responses, Collect(databaseId, responses, i, acc)[k])
    decreases |responses| - i
  {
    if i < |responses| {
      var kept := InDatabasePages(databaseId, responses[i].results);
      InDatabasePagesSound(databaseId, responses[i].results);
      var next := acc + kept;
      forall k | 0 <= k < |next| ensures InDatabase(databaseId, next[k]) && FromSearch(responses, next[k]) {
        if k >= |acc| {
          assert next[k] == kept[k - |acc|];
        }
      }
      if responses[i].hasMore {
        CollectInDatabase(databaseId, responses, i + 1, next);
      }
    }
  }

  /** The page is among the results of some response. */
  predicate FromSearch(responses: seq<Response>, page: Page) {
    exists j :: 0 <= j < |responses| && page in responses[j].results
  }

  /** Every page `get_all_pages` returns belongs to the configured database and was a search result. */
  lemma FetchedInDatabase(databaseId: string, responses: seq<Response>)
    ensures forall k :: 0 <= k < |FetchedPages(databaseId, responses)| ==>
      InDatabase(databaseId, FetchedPages(databaseId, responses)[k]) && FromSearch(responses, FetchedPages(databaseId, responses)[k])
  {
    CollectInDatabase(databaseId, responses, 0, []);
  }

  /**
   * Responses after the first one with `has_more` false are never read, and one search is
   * made per response up to and including it.
   */
  lemma {:induction false} CollectStopsAtLast(databaseId: string, responses: seq<Response>, k: nat, rest: seq<Response>, i: nat, cursor: Option<string>, acc: seq<Page>, calls: seq<Call>)
    requires i <= k < |responses| && !responses[k].hasMore
    requires forall j :: i <= j < k ==> responses[j].hasMore
    ensures Collect(databaseId, responses + rest, i, acc) == Collect(databaseId, responses, i, acc)
    ensures Searches(responses + rest, i, cursor, calls) == Searches(responses, i, cursor, calls)
    ensures |Searches(responses, i, cursor, calls)| == |calls| + k - i + 1
    decreases k - i
  {
    var a := responses + rest;
    assert a[i] == responses[i];
    if i < k {
      CollectStopsAtLast(databaseId, responses, k, rest, i + 1, responses[i].nextCursor,
        acc + InDatabasePages(databaseId, responses[i].results), calls + [Search(None, cursor)]);
    }
  }

  /** What follows the first response with `has_more` false changes nothing, and there are `k + 1` searches. */
  lemma FetchStopsAtLastPage(databaseId: string, responses: seq<Response>, k: nat, rest: seq<Response>)
    requires k < |responses| && !responses[k].hasMore
    requires forall j :: 0 <= j < k ==> responses[j].hasMore
    ensures FetchedPages(databaseId, responses + rest) == FetchedPages(databaseId, responses)
    ensures SearchCalls(responses + rest) == SearchCalls(responses)
    ensures |SearchCalls(responses)| == k + 1
  {
    CollectStopsAtLast(databaseId, responses, k, rest, 0, None, [], []);
  }

  /**
   * From response `i` on, the loop appends the in-database pages of the results of every
   * response up to and including `k`, the first with `has_more` false, in fetch order.
   */
  lemma {:induction false} CollectFlat(databaseId: string, responses: seq<Response>, k: nat, i: nat, acc: seq<Page>)
    requires i <= k < |responses| && !responses[k].hasMore
    requires forall j :: i <= j < k ==> responses[j].hasMore
    ensures Collect(databaseId, responses, i, acc) == acc + InDatabasePages(databaseId, Flat(responses[i..k + 1]))
    decreases k - i
  {
    var results := responses[i].results;
    var rest := responses[i + 1..k + 1];
    assert responses[i..k + 1][1..] == rest;
    assert Flat(responses[i..k + 1]) == results + Flat(rest);
    InDatabasePagesAppend(databaseId, results, Flat(rest));
    var next := acc + InDatabasePages(databaseId, results);
    if i < k {
      CollectFlat(databaseId, responses, k, i + 1, next);
    } else {
      assert rest == [];
    }
  }

  /**
   * `get_all_pages` returns exactly the pages, in fetch order, of the results of the responses
   * up to and including the first with `has_more` false that belong to the database: none is
   * lost, none added, none reordered.
   */
  lemma FetchedAllInOrder(databaseId: string, responses: seq<Response>, k: nat)
    requires k < |responses| && !responses[k].hasMore
    requires forall j :: 0 <= j < k ==> responses[j].hasMore
    ensures FetchedPages(databaseId, responses) == InDatabasePages(databaseId, Flat(responses[..k + 1]))
    ensures forall j, p :: 0 <= j <= k && p in responses[j].results && InDatabase(databaseId, p) ==>
      p in FetchedPages(databaseId, responses)
  {
    CollectFlat(databaseId, responses, k, 0, []);
    assert responses[0..k + 1] == responses[..k + 1];
    forall j, p | 0 <= j <= k && p in responses[j].results && InDatabase(databaseId, p)
      ensures p in FetchedPages(databaseId, responses)
    {
      assert responses[..k + 1][j] == responses[j];
      InDatabasePagesComplete(databaseId, Flat(responses[..k + 1]), p);
    }
  }

  /** How a page's title reads: `None` when reading it raises (the first element has no `plain_text`). */
  function PageTitle(page: Page): (r: Option<string>)
    ensures (page.title.None? || page.title.value == []) ==> r == Some("")
    ensures page.title.Some? && page.title.value != [] ==> r == page.title.value[0].plainText
  {
    match page.title
    case None => Some("")
    case Some(runs) => if runs == [] then Some("") else runs[0].plainText
  }

  /** How one search result bears on the existence check, as the loop meets it. */
  datatype TitleScan = Match | NoMatch | Raises

  function ScanResult(databaseId: string, title: string, page: Page): TitleScan {
    if !InDatabase(databaseId, page) || page.title.None? || page.title.value == [] then NoMatch
    else match page.title.value[0].plainText
      case None => Raises
      case Some(t) => if t == title then Match else NoMatch
  }

  /** The loop of `check_if_note_exists`: true at the first match, false when a result raises or none matches. */
  function ScanForTitle(databaseId: string, title: string, results: seq<Page>): bool {
    if results == [] then false
    else match ScanResult(databaseId, title, results[0])
      case Match => true
      case Raises => false
      case NoMatch => ScanForTitle(databaseId, title, results[1..])
  }

  /** `check_if_note_exists(title)`, given what the search returned (`None`: it raised). */
  function TitleExists(databaseId: string, title: string, search: Option<seq<Page>>): (r: bool)
    ensures search.None? ==> !r
  {
    match search
    case None => false
    case Some(results) => ScanForTitle(databaseId, title, results)
  }

  /** A positive answer comes from a match preceded only by non-matches. */
  lemma {:induction false} ScanFound(databaseId: string, title: string, results: seq<Page>) returns (i: nat)
    requires ScanForTitle(databaseId, title, results)
    ensures i < |results| && ScanResult(databaseId, title, results[i]) == Match
    ensures forall j :: 0 <= j < i ==> ScanResult(databaseId, title, results[j]) == NoMatch
  {
    if ScanResult(databaseId, title, results[0]) == Match {
      i := 0;
    } else {
      var k := ScanFound(databaseId, title, results[1..]);
      i := k + 1;
      forall j | 0 <= j < i ensures ScanResult(databaseId, title, results[j]) == NoMatch {
        if j > 0 { assert results[j] == results[1..][j - 1]; }
      }
    }
  }

  /** A match preceded only by non-matches gives a positive answer. */
  lemma {:induction false} ScanReaches(databaseId: string, title: string, results: seq<Page>, i: nat)
    requires i < |results| && ScanResult(databaseId, title, results[i]) == Match
    requires forall j :: 0 <= j < i ==> ScanResult(databaseId, title, results[j]) == NoMatch
    ensures ScanForTitle(databaseId, title, results)
    decreases i
  {
    if i > 0 {
      assert ScanResult(databaseId, title, results[0]) == NoMatch;
      forall j | 0 <= j < i - 1 ensures ScanResult(databaseId, title, results[1..][j]) == NoMatch {
        assert results[1..][j] == results[j + 1];
      }
      ScanReaches(databaseId, title, results[1..], i - 1);
    }
  }

  /**
   * The check answers yes exactly when some result in the database has `title` as the exact,
   * case-sensitive text of its first title element, and no earlier result in the database
   * makes the lookup raise.
   */
  lemma ScanForTitleIff(databaseId: string, title: string, results: seq<Page>)
    ensures ScanForTitle(databaseId, title, results) <==>
      exists i :: 0 <= i < |results| && ScanResult(databaseId, title, results[i]) == Match
        && forall j :: 0 <= j < i ==> ScanResult(databaseId, title, results[j]) == NoMatch
  {
    if ScanForTitle(databaseId, title, results) {
      var i := ScanFound(databaseId, title, results);
    }
    forall i | 0 <= i < |results| && ScanResult(databaseId, title, results[i]) == Match
        && forall j :: 0 <= j < i ==> ScanResult(databaseId, title, results[j]) == NoMatch
      ensures ScanForTitle(databaseId, title, results)
    {
      ScanReaches(databaseId, title, results, i);
    }
  }

  /** The first element of the page's title property carries exactly `title` as its plain text. */
  predicate HasTitleText(page: Page, title: string) {
    page.title.Some? && page.title.value != [] && page.title.value[0].plainText == Some(title)
  }

  /** When no result makes the lookup raise, the check is plain existence of an exact match. */
  lemma WellFormedTitleExists(databaseId: string, title: string, results: seq<Page>)
    requires forall j :: 0 <= j < |results| ==> ScanResult(databaseId, title, results[j]) != Raises
    ensures TitleExists(databaseId, title, Some(results)) <==>
      exists i :: 0 <= i < |results| && InDatabase(databaseId, results[i]) && HasTitleText(results[i], title)
  {
    if TitleExists(databaseId, title, Some(results)) {
      var i := ScanFound(databaseId, title, results);
      assert InDatabase(databaseId, results[i]) && HasTitleText(results[i], title);
    }
    if exists i :: 0 <= i < |results| && InDatabase(databaseId, results[i]) && HasTitleText(results[i], title) {
      var i :| 0 <= i < |results| && InDatabase(databaseId, results[i]) && HasTitleText(results[i], title);
      var m := FirstMatch(databaseId, title, results, i);
      ScanReaches(databaseId, title, results, m);
    }
  }

  /** The first match at or before `i`, with nothing but non-matches before it. */
  lemma {:induction false} FirstMatch(databaseId: string, title: string, results: seq<Page>, i: nat) returns (m: nat)
    requires i < |results| && ScanResult(databaseId, title, results[i]) == Match
    requires forall j :: 0 <= j < |results| ==> ScanResult(databaseId, title, results[j]) != Raises
    ensures m <= i && ScanResult(databaseId, title, results[m]) == Match
    ensures forall j :: 0 <= j < m ==> ScanResult(databaseId, title, results[j]) == NoMatch
    decreases i
  {
    if exists j :: 0 <= j < i && ScanResult(databaseId, title, results[j]) == Match {
      var j :| 0 <= j < i && ScanResult(databaseId, title, results[j]) == Match;
      m := FirstMatch(databaseId, title, results, j);
    } else {
      m := i;
    }
  }
}
