/**
 * What the two stand-alone sync scripts share: the existence check as they loop over one
 * search response, the three properties of a new page, and the create-or-skip step for
 * one note.
 */
module SyncPages {
  import opened Wrappers
  import opened Text
  import opened Notion
  import opened Tally
  import opened NotionQueries

  /** Notion's limit on the title the scripts send. */
  const TitleLimit: nat := 100

  /** The limit on the content property the scripts send. */
  const ContentLimit: nat := 2000

  /** `check_if_note_exists(title)`, given what the search returned (`None`: it raised): the loop with its early return. */
  method CheckIfNoteExists(databaseId: string, title: string, search: Option<seq<Page>>) returns (found: bool)
    ensures found == TitleExists(databaseId, title, search)
  {
    if search.None? {
      return false;
    }
    var results := search.value;
    for i := 0 to |results|
      invariant ScanForTitle(databaseId, title, results) == ScanForTitle(databaseId, title, results[i..])
    {
      assert results[i..][1..] == results[i + 1..];
      var result := results[i];
      if InDatabase(databaseId, result) && result.title.Some? && result.title.value != [] {
        var text := result.title.value[0].plainText;
        if text.None? {
          return false;
        }
        if text.value == title {
          return true;
        }
      }
    }
    return false;
  }

  /**
   * The `Title`, `Content` and `Labels` properties of `add_note_to_notion`; `None` when the
   * content is `None`, where `content[:2000]` raises `TypeError` before any call.
   */
  function SyncProperties(title: string, content: Option<string>, labels: seq<Option<string>>): Option<Properties> {
    match content
    case None => None
    case Some(text) =>
      Some(map[
        TitleProp := TitleText(Prefix(title, TitleLimit)),
        ContentProp := RichTextValue(Prefix(text, ContentLimit)),
        LabelsProp := MultiSelect(labels)])
  }

  /**
   * The payload exists exactly when the content does.  It has exactly these three properties:
   * the title cut to its first 100 characters, the content cut to its first 2000, and one
   * label entry per label, in order.
   */
  lemma SyncPropertiesShape(title: string, content: Option<string>, labels: seq<Option<string>>)
    ensures SyncProperties(title, content, labels).Some? <==> content.Some?
    ensures content.Some? ==> var p := SyncProperties(title, content, labels).value;
      && p.Keys == {TitleProp, ContentProp, LabelsProp}
      && p[TitleProp].TitleText? && p[TitleProp].content <= title
      && |p[TitleProp].content| == (if |title| <= 100 then |title| else 100)
      && p[ContentProp].RichTextValue? && p[ContentProp].content <= content.value
      && |p[ContentProp].content| == (if |content.value| <= 2000 then |content.value| else 2000)
      && p[LabelsProp] == MultiSelect(labels)
  {
  }

  /**
   * What happens to a note once its title is known: skipped when it exists; otherwise failed
   * when its payload cannot be built, else created or failed as the client answers.
   */
  function NoteOutcome(databaseId: string, title: string, search: Option<seq<Page>>, properties: Option<Properties>, createOk: bool): Outcome {
    if TitleExists(databaseId, title, search) then Skipped
    else if properties.Some? && createOk then Done
    else Failed
  }

  /** The calls made for a note: the search, then the create unless the title exists or the payload cannot be built. */
  function NoteCalls(databaseId: string, title: string, search: Option<seq<Page>>, properties: Option<Properties>): seq<Call> {
    [Search(Some(title), None)]
      + (if TitleExists(databaseId, title, search) || properties.None? then [] else [CreatePage(databaseId, properties.value, [])])
  }

  /** One pass of the scripts' loops: check, then build the payload and create unless the title exists. */
  method SyncNote(databaseId: string, title: string, properties: Option<Properties>, search: Option<seq<Page>>, createOk: bool)
    returns (outcome: Outcome, calls: seq<Call>)
    ensures outcome == NoteOutcome(databaseId, title, search, properties, createOk)
    ensures calls == NoteCalls(databaseId, title, search, properties)
  {
    calls := [Search(Some(title), None)];
    var exists_ := CheckIfNoteExists(databaseId, title, search);
    if exists_ {
      return Skipped, calls;
    }
    if properties.None? {
      return Failed, calls;
    }
    calls := calls + [CreatePage(databaseId, properties.value, [])];
    outcome := if createOk then Done else Failed;
  }

  /**
   * A note is skipped exactly when its title exists, and then no create call is made; a
   * note is created only after a search that found no match, and only with a payload.
   */
  lemma SkipMeansNoCreate(databaseId: string, title: string, search: Option<seq<Page>>, createOk: bool, properties: Option<Properties>)
    ensures NoteOutcome(databaseId, title, search, properties, createOk) == Skipped <==> TitleExists(databaseId, title, search)
    ensures NoteOutcome(databaseId, title, search, properties, createOk) == Skipped ==>
      NoteCalls(databaseId, title, search, properties) == [Search(Some(title), None)]
    ensures NoteOutcome(databaseId, title, search, properties, createOk) != Skipped && properties.None? ==>
      NoteOutcome(databaseId, title, search, properties, createOk) == Failed && NoteCalls(databaseId, title, search, properties) == [Search(Some(title), None)]
    ensures NoteOutcome(databaseId, title, search, properties, createOk) != Skipped && properties.Some? ==>
      NoteCalls(databaseId, title, search, properties) == [Search(Some(title), None), CreatePage(databaseId, properties.value, [])]
    ensures NoteOutcome(databaseId, title, search, properties, createOk) == Done <==>
      !TitleExists(databaseId, title, search) && properties.Some? && createOk
  {
  }

  /** A search that raises counts as no match: the note is then created when it has a payload (fail open). */
  lemma FailOpen(databaseId: string, title: string, properties: Option<Properties>, createOk: bool)
    ensures NoteOutcome(databaseId, title, None, properties, createOk) == if properties.Some? && createOk then Done else Failed
  {
  }

  /** A page as a later search returns it after the scripts created it for `title`: in the database, titled as sent. */
  predicate CreatedFor(databaseId: string, page: Page, title: string) {
    InDatabase(databaseId, page) && HasTitleText(page, Prefix(title, TitleLimit))
  }

  /**
   * As written, the check compares the full title with the stored one, which was cut to 100
   * characters: the page created for `title` is found again exactly when `title` has at
   * most 100 characters, so a longer title is created anew on every run.
   */
  lemma CreatedTitleFoundIff(databaseId: string, title: string, page: Page, properties: Option<Properties>, createOk: bool)
    requires CreatedFor(databaseId, page, title)
    ensures TitleExists(databaseId, title, Some([page])) <==> |title| <= TitleLimit
    ensures NoteOutcome(databaseId, title, Some([page]), properties, createOk) == Skipped <==> |title| <= TitleLimit
  {
    assert [page][1..] == [];
    assert ScanForTitle(databaseId, title, [page]) == (ScanResult(databaseId, title, page) == Match);
    assert ScanResult(databaseId, title, page) == Match <==> Prefix(title, TitleLimit) == title;
  }

  /** Whatever the search returns, a title over 100 characters never matches a result whose stored title is at most 100 long. */
  lemma LongTitleNeverFound(databaseId: string, title: string, results: seq<Page>)
    requires |title| > TitleLimit
    requires forall j :: 0 <= j < |results| ==> StoredWithin(results[j], TitleLimit)
    ensures !TitleExists(databaseId, title, Some(results))
  {
    if TitleExists(databaseId, title, Some(results)) {
      var i := ScanFound(databaseId, title, results);
    }
  }

  /** The page's first title text, when it has one, is at most `n` characters long. */
  predicate StoredWithin(page: Page, n: nat) {
    page.title.Some? && page.title.value != [] && page.title.value[0].plainText.Some? ==> |page.title.value[0].plainText.value| <= n
  }

  /** The comparison the check evidently means: the result's title against the title as the scripts store it. */
  function TitleExistsIntended(databaseId: string, title: string, search: Option<seq<Page>>): (r: bool)
    ensures search.None? ==> !r
  {
    TitleExists(databaseId, Prefix(title, TitleLimit), search)
  }

  /**
   * With the intended comparison a second run creates nothing new: once the page created
   * for `title` is among the results, and no result makes the lookup raise, the title is
   * found, whatever its length.  For titles of at most 100 characters it is the check as written.
   */
  lemma IntendedFindsCreatedPage(databaseId: string, title: string, results: seq<Page>, i: nat)
    requires i < |results| && CreatedFor(databaseId, results[i], title)
    requires forall j :: 0 <= j < |results| ==> ScanResult(databaseId, Prefix(title, TitleLimit), results[j]) != Raises
    ensures TitleExistsIntended(databaseId, title, Some(results))
    ensures |title| <= TitleLimit ==> TitleExistsIntended(databaseId, title, Some(results)) == TitleExists(databaseId, title, Some(results))
  {
    WellFormedTitleExists(databaseId, Prefix(title, TitleLimit), results);
  }

  /** The 101-character title `aaa…a`. */
  function LongTitle(): (t: string)
    ensures |t| == TitleLimit + 1
  {
    seq(TitleLimit + 1, _ => 'a')
  }

  /** As written: the page created for a 101-character title is not found, so the note is created again. */
  lemma LongTitleRecreated(databaseId: string, id: string, properties: Properties)
    ensures var page := Page(id, Some(databaseId), Some([RichText(Some(Prefix(LongTitle(), TitleLimit)))]), [], []);
      && NoteOutcome(databaseId, LongTitle(), Some([page]), Some(properties), true) == Done
      && NoteCalls(databaseId, LongTitle(), Some([page]), Some(properties)) == [Search(Some(LongTitle()), None), CreatePage(databaseId, properties, [])]
  {
    var page := Page(id, Some(databaseId), Some([RichText(Some(Prefix(LongTitle(), TitleLimit)))]), [], []);
    assert CreatedFor(databaseId, page, LongTitle());
    CreatedTitleFoundIff(databaseId, LongTitle(), page, Some(properties), true);
  }

  /** Intended: the same page is found, and the note is skipped. */
  lemma LongTitleKeptAsIntended(databaseId: string, id: string)
    ensures var page := Page(id, Some(databaseId), Some([RichText(Some(Prefix(LongTitle(), TitleLimit)))]), [], []);
      TitleExistsIntended(databaseId, LongTitle(), Some([page]))
  {
    var page := Page(id, Some(databaseId), Some([RichText(Some(Prefix(LongTitle(), TitleLimit)))]), [], []);
    IntendedFindsCreatedPage(databaseId, LongTitle(), [page], 0);
  }
}
