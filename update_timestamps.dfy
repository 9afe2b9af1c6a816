/**
 * The timestamp script: the creation dates parsed from the Takeout files are joined on the
 * title to the database's pages, and every page with a known date gets its `Created Date`
 * patched.
 */
module UpdateTimestamps {
  import opened Wrappers
  import opened Notes
  import opened Notion
  import opened Tally
  import opened NotionQueries
  import opened KeepExport

  /**
   * What an entry gives the title map: the title and the date of a `.json` file that
   * parses and has a truthy date, and nothing otherwise.
   */
  function DatedTitle(e: TakeoutEntry, localIso: int -> Option<string>): Option<(string, string)> {
    if !IsJson(e) then None
    else match ParsedEntry(e, localIso)
      case Failure(_) => None
      case Success(n) => if Truthy(n.createdDate) then Some((n.title, n.createdDate.value)) else None
  }

  /** What each entry gives, in listing order. */
  function DatedTitles(entries: seq<TakeoutEntry>, localIso: int -> Option<string>): (r: seq<Option<(string, string)>>)
    ensures |r| == |entries|
    ensures forall k :: 0 <= k < |entries| ==> r[k] == DatedTitle(entries[k], localIso)
  {
    seq(|entries|, k requires 0 <= k < |entries| => DatedTitle(entries[k], localIso))
  }

  /** The map that results from setting the pairs in order: a later pair with the same title overwrites an earlier one. */
  function Assign(pairs: seq<Option<(string, string)>>): map<string, string> {
    if pairs == [] then map[]
    else
      var m := Assign(pairs[..|pairs| - 1]);
      match pairs[|pairs| - 1]
      case None => m
      case Some((title, date)) => m[title := date]
  }

  /** The title map of `create_json_title_map` after the entries, in listing order. */
  function TitleMap(entries: seq<TakeoutEntry>, localIso: int -> Option<string>): map<string, string> {
    Assign(DatedTitles(entries, localIso))
  }

  /** `create_json_title_map`: a file that fails to parse is reported and skipped. */
  method CreateJsonTitleMap(entries: seq<TakeoutEntry>, localIso: int -> Option<string>) returns (titleMap: map<string, string>)
    ensures titleMap == TitleMap(entries, localIso)
  {
    titleMap := map[];
    ghost var pairs := DatedTitles(entries, localIso);
    for i := 0 to |entries|
      invariant titleMap == Assign(pairs[..i])
    {
      assert pairs[..i + 1][..i] == pairs[..i];
      var e := entries[i];
      if IsJson(e) {
        var noteData := ParsedEntry(e, localIso);
        if noteData.Success? {
          var title := noteData.value.title;
          var createdDate := noteData.value.createdDate;
          if Truthy(createdDate) {
            titleMap := titleMap[title := createdDate.value];
          }
        }
      }
    }
    assert pairs[..|entries|] == pairs;
  }

  /** Some pair sets this title. */
  predicate Sets(pairs: seq<Option<(string, string)>>, title: string, k: int) {
    0 <= k < |pairs| && pairs[k].Some? && pairs[k].value.0 == title
  }

  /** A title is in the map exactly when some pair sets it. */
  lemma {:induction false} AssignKeys(pairs: seq<Option<(string, string)>>, title: string)
    ensures title in Assign(pairs) <==> exists k :: Sets(pairs, title, k)
  {
    if pairs != [] {
      var init := pairs[..|pairs| - 1];
      AssignKeys(init, title);
      assert title in Assign(pairs) <==> title in Assign(init) || Sets(pairs, title, |pairs| - 1);
      if exists k :: Sets(init, title, k) {
        var k :| Sets(init, title, k);
        assert Sets(pairs, title, k);
      }
      if exists k :: Sets(pairs, title, k) {
        var k :| Sets(pairs, title, k);
        if k < |init| {
          assert Sets(init, title, k);
        }
      }
    }
  }

  /** The value of a title is that of the last pair that sets it. */
  lemma {:induction false} AssignLastWins(pairs: seq<Option<(string, string)>>, title: string) returns (k: nat)
    requires title in Assign(pairs)
    ensures Sets(pairs, title, k) && Assign(pairs)[title] == pairs[k].value.1
    ensures forall j :: k < j < |pairs| ==> !Sets(pairs, title, j)
  {
    var init := pairs[..|pairs| - 1];
    if Sets(pairs, title, |pairs| - 1) {
      k := |pairs| - 1;
    } else {
      k := AssignLastWins(init, title);
      assert Sets(pairs, title, k);
      assert forall j :: k < j < |init| ==> !Sets(pairs, title, j) by {
        forall j | k < j < |init| ensures !Sets(pairs, title, j) {
          assert !Sets(init, title, j);
        }
      }
    }
  }

  /**
   * A title is in the map exactly when some dated entry has it, and its date is that of
   * the last such entry in listing order.
   */
  lemma TitleMapLastWins(entries: seq<TakeoutEntry>, localIso: int -> Option<string>, title: string) returns (k: nat)
    ensures title in TitleMap(entries, localIso) <==> exists j :: Sets(DatedTitles(entries, localIso), title, j)
    ensures title in TitleMap(entries, localIso) ==>
      && k < |entries| && DatedTitle(entries[k], localIso) == Some((title, TitleMap(entries, localIso)[title]))
      && forall j :: k < j < |entries| ==> DatedTitle(entries[j], localIso).None? || DatedTitle(entries[j], localIso).value.0 != title
  {
    var pairs := DatedTitles(entries, localIso);
    AssignKeys(pairs, title);
    if title in TitleMap(entries, localIso) {
      k := AssignLastWins(pairs, title);
      forall j | k < j < |entries|
        ensures DatedTitle(entries[j], localIso).None? || DatedTitle(entries[j], localIso).value.0 != title
      {
        assert !Sets(pairs, title, j);
      }
    } else {
      k := 0;
    }
  }

  /** A pair that sets nothing changes nothing in the map. */
  lemma {:induction false} UnsetLeavesMap(a: seq<Option<(string, string)>>, b: seq<Option<(string, string)>>)
    ensures Assign(a + [None] + b) == Assign(a + b)
    decreases |b|
  {
    if b == [] {
      assert (a + [None] + b)[..|a|] == a;
      assert a + b == a;
    } else {
      var init := b[..|b| - 1];
      assert (a + [None] + b)[..|a + [None] + b| - 1] == a + [None] + init;
      assert (a + b)[..|a + b| - 1] == a + init;
      UnsetLeavesMap(a, init);
    }
  }

  /** An entry that is not `.json`, does not parse, or has no date changes nothing in the map. */
  lemma UndatedLeavesMap(a: seq<TakeoutEntry>, e: TakeoutEntry, b: seq<TakeoutEntry>, localIso: int -> Option<string>)
    requires DatedTitle(e, localIso).None?
    ensures TitleMap(a + [e] + b, localIso) == TitleMap(a + b, localIso)
  {
    var pa, pb := DatedTitles(a, localIso), DatedTitles(b, localIso);
    assert DatedTitles(a + [e] + b, localIso) == pa + [None] + pb;
    assert DatedTitles(a + b, localIso) == pa + pb;
    UnsetLeavesMap(pa, pb);
  }

  /** Every page up to `n` has a readable title. */
  predicate ReadableUpTo(pages: seq<Page>, n: nat)
    requires n <= |pages|
  {
    forall k :: 0 <= k < n ==> PageTitle(pages[k]).Some?
  }

  /** How many pages the update loop gets through: up to the first whose title raises. */
  function Reached(pages: seq<Page>): (n: nat)
    ensures n <= |pages| && ReadableUpTo(pages, n)
    ensures n < |pages| ==> PageTitle(pages[n]).None?
  {
    if pages == [] || PageTitle(pages[0]).None? then 0
    else
      var n := Reached(pages[1..]);
      assert forall k :: 0 < k < |pages| ==> pages[k] == pages[1..][k - 1];
      n + 1
  }

  /** The outcome for one page, when its title is readable (the loop never gets past one that is not). */
  function PageOutcome(page: Page, titleMap: map<string, string>, updateOk: string -> bool): Outcome {
    match PageTitle(page)
    case Some(title) => if title in titleMap then (if updateOk(page.id) then Done else Failed) else Skipped
    case None => Skipped
  }

  /** The call for one page with a readable title: an update of `Created Date` only, when the title has a date. */
  function PageCalls(page: Page, titleMap: map<string, string>): seq<Call> {
    match PageTitle(page)
    case Some(title) => if title in titleMap then [UpdatePage(page.id, map[CreatedDateProp := Date(titleMap[title])], None)] else []
    case None => []
  }

  /** The outcomes of pages with readable titles, in order. */
  function Outcomes(pages: seq<Page>, titleMap: map<string, string>, updateOk: string -> bool): (r: seq<Outcome>)
    ensures |r| == |pages|
  {
    if pages == [] then []
    else Outcomes(pages[..|pages| - 1], titleMap, updateOk) + [PageOutcome(pages[|pages| - 1], titleMap, updateOk)]
  }

  /** The update calls for pages with readable titles, in order. */
  function UpdateCalls(pages: seq<Page>, titleMap: map<string, string>): seq<Call>
  {
    if pages == [] then []
    else UpdateCalls(pages[..|pages| - 1], titleMap) + PageCalls(pages[|pages| - 1], titleMap)
  }

  /**
   * `update_timestamps`, given the search responses, the Takeout entries, and which page
   * updates succeed.  `completed` is false when reading a page's title raises, which ends
   * the script after the pages before it.
   */
  method Update(databaseId: string, responses: seq<Response>, entries: seq<TakeoutEntry>, localIso: int -> Option<string>, updateOk: string -> bool)
    returns (completed: bool, updated: nat, skipped: nat, failed: nat, calls: seq<Call>)
    requires Finishes(responses)
    ensures var pages := FetchedPages(databaseId, responses);
      var done := pages[..Reached(pages)];
      && (completed <==> Reached(pages) == |pages|)
      && updated == Count(Outcomes(done, TitleMap(entries, localIso), updateOk), Done)
      && skipped == Count(Outcomes(done, TitleMap(entries, localIso), updateOk), Skipped)
      && failed == Count(Outcomes(done, TitleMap(entries, localIso), updateOk), Failed)
      && calls == SearchCalls(responses) + UpdateCalls(done, TitleMap(entries, localIso))
  {
    var pages, searches := GetAllPages(databaseId, responses);
    var titleMap := CreateJsonTitleMap(entries, localIso);
    var updateCalls;
    completed, updated, skipped, failed, updateCalls := UpdatePages(pages, titleMap, updateOk);
    calls := searches + updateCalls;
  }

  /** The loop of `update_timestamps` over the fetched pages, with the title map built. */
  method UpdatePages(pages: seq<Page>, titleMap: map<string, string>, updateOk: string -> bool)
    returns (completed: bool, updated: nat, skipped: nat, failed: nat, calls: seq<Call>)
    ensures var done := pages[..Reached(pages)];
      && (completed <==> Reached(pages) == |pages|)
      && updated == Count(Outcomes(done, titleMap, updateOk), Done)
      && skipped == Count(Outcomes(done, titleMap, updateOk), Skipped)
      && failed == Count(Outcomes(done, titleMap, updateOk), Failed)
      && calls == UpdateCalls(done, titleMap)
  {
    updated, skipped, failed, calls := 0, 0, 0, [];
    ghost var reached := Reached(pages);
    var i := 0;
    assert pages[..0] == [];
    // Reading the title of the page at `i` raises when it is unreadable, which ends the loop.
    while i < |pages| && PageTitle(pages[i]).Some?
      invariant i <= reached
      invariant updated == Count(Outcomes(pages[..i], titleMap, updateOk), Done)
      invariant skipped == Count(Outcomes(pages[..i], titleMap, updateOk), Skipped)
      invariant failed == Count(Outcomes(pages[..i], titleMap, updateOk), Failed)
      invariant calls == UpdateCalls(pages[..i], titleMap)
    {
      var page := pages[i];
      assert pages[..i + 1][..i] == pages[..i];
      ghost var before := Outcomes(pages[..i], titleMap, updateOk);
      assert Outcomes(pages[..i + 1], titleMap, updateOk) == before + [PageOutcome(page, titleMap, updateOk)];
      assert UpdateCalls(pages[..i + 1], titleMap) == calls + PageCalls(page, titleMap);
      var outcome, pageCalls := UpdateOne(page, titleMap, updateOk);
      CountStep(before, outcome);
      calls := calls + pageCalls;
      if outcome == Done {
        updated := updated + 1;
      } else if outcome == Skipped {
        skipped := skipped + 1;
      } else {
        failed := failed + 1;
      }
      i := i + 1;
    }
    assert i == reached;
    completed := i == |pages|;
  }

  /** The body of the loop for one page with a readable title. */
  method UpdateOne(page: Page, titleMap: map<string, string>, updateOk: string -> bool) returns (outcome: Outcome, calls: seq<Call>)
    requires PageTitle(page).Some?
    ensures outcome == PageOutcome(page, titleMap, updateOk)
    ensures calls == PageCalls(page, titleMap)
  {
    var title := PageTitle(page).value;
    if title !in titleMap {
      return Skipped, [];
    }
    var createdDate := titleMap[title];
    calls := [UpdatePage(page.id, map[CreatedDateProp := Date(createdDate)], None)];
    outcome := if updateOk(page.id) then Done else Failed;
  }

  /** Each page reached is counted exactly once. */
  lemma CountersPartition(pages: seq<Page>, titleMap: map<string, string>, updateOk: string -> bool)
    ensures var os := Outcomes(pages, titleMap, updateOk);
      Count(os, Done) + Count(os, Skipped) + Count(os, Failed) == |pages|
  {
    CountsPartition(Outcomes(pages, titleMap, updateOk));
  }

  /** The outcome of each page: updated or failed exactly when its title has a date, and only a failed update counts as failed. */
  lemma {:induction false} OutcomeOfPage(pages: seq<Page>, titleMap: map<string, string>, updateOk: string -> bool, k: nat)
    requires k < |pages|
    ensures Outcomes(pages, titleMap, updateOk)[k] == PageOutcome(pages[k], titleMap, updateOk)
    decreases |pages|
  {
    if k < |pages| - 1 {
      var init := pages[..|pages| - 1];
      OutcomeOfPage(init, titleMap, updateOk, k);
    }
  }

  /**
   * Every update call is for a page whose title has a date, patches only `Created Date`,
   * sets it to that title's date, and archives nothing.
   */
  lemma {:induction false} UpdatesOnlyCreatedDate(pages: seq<Page>, titleMap: map<string, string>)
    ensures forall c :: c in UpdateCalls(pages, titleMap) ==>
      && c.UpdatePage? && c.archived.None? && c.properties.Keys == {CreatedDateProp}
      && exists k :: 0 <= k < |pages| && c.pageId == pages[k].id && PageTitle(pages[k]).Some? && PageTitle(pages[k]).value in titleMap
           && c.properties[CreatedDateProp] == Date(titleMap[PageTitle(pages[k]).value])
  {
    if pages != [] {
      var init, last := pages[..|pages| - 1], pages[|pages| - 1];
      UpdatesOnlyCreatedDate(init, titleMap);
      assert forall k :: 0 <= k < |init| ==> init[k] == pages[k];
    }
  }

  /** A page whose title has a date gets exactly one update call, and one whose title has none gets no call. */
  lemma {:induction false} UpdateCallCount(pages: seq<Page>, titleMap: map<string, string>, updateOk: string -> bool)
    ensures var os := Outcomes(pages, titleMap, updateOk);
      |UpdateCalls(pages, titleMap)| == Count(os, Done) + Count(os, Failed)
  {
    if pages != [] {
      var init := pages[..|pages| - 1];
      UpdateCallCount(init, titleMap, updateOk);
      CountStep(Outcomes(init, titleMap, updateOk), PageOutcome(pages[|pages| - 1], titleMap, updateOk));
    }
  }
}
