/**
 * The relabel script: every page of the database labelled `Apple Notes` loses that label
 * and gains `source`.  The one search the script makes is given by its results, and whether
 * each page update succeeds by the note's position in the list found.
 */
module UpdateLabels {
  import opened Wrappers
  import opened Notion
  import opened Tally
  import opened NotionQueries

  /** The label the script looks for and removes. */
  const AppleNotesLabel: string := "Apple Notes"

  /** The label the script appends. */
  const SourceLabel: string := "source"

  /** A note the script found: its page id, the title it prints, and all its label names. */
  datatype AppleNote = AppleNote(id: string, title: string, currentLabels: seq<string>)

  /** The pages `find_apple_notes` keeps: in the database, with `Apple Notes` among their labels. */
  predicate IsAppleNote(databaseId: string, page: Page) {
    InDatabase(databaseId, page) && AppleNotesLabel in page.labels
  }

  /**
   * The title of a kept page: `Untitled` when the title property is missing or its first
   * element has no text, and `None` when the title list is empty, where indexing it raises.
   */
  function NoteTitle(page: Page): (r: Option<string>)
    ensures r.None? <==> page.title == Some([])
  {
    match page.title
    case None => Some("Untitled")
    case Some(runs) => if runs == [] then None else Some(runs[0].plainText.GetOr("Untitled"))
  }

  /** The pages kept, in result order. */
  function Matching(databaseId: string, results: seq<Page>): (r: seq<Page>)
    ensures |r| <= |results|
    ensures forall k :: 0 <= k < |r| ==> IsAppleNote(databaseId, r[k]) && r[k] in results
  {
    if results == [] then []
    else
      var last := results[|results| - 1];
      assert forall p :: p in results[..|results| - 1] ==> p in results;
      Matching(databaseId, results[..|results| - 1]) + (if IsAppleNote(databaseId, last) then [last] else [])
  }

  /** What `find_apple_notes` returns for the search results (`None`: reading a kept page's title raises). */
  function FoundNotes(databaseId: string, results: seq<Page>): Option<seq<AppleNote>> {
    if results == [] then Some([])
    else
      var last := results[|results| - 1];
      match FoundNotes(databaseId, results[..|results| - 1])
      case None => None
      case Some(notes) =>
        if !IsAppleNote(databaseId, last) then Some(notes)
        else match NoteTitle(last)
          case None => None
          case Some(title) => Some(notes + [AppleNote(last.id, title, last.labels)])
  }

  /** `find_apple_notes`: the loop over the search results. */
  method FindAppleNotes(databaseId: string, results: seq<Page>) returns (found: Option<seq<AppleNote>>)
    ensures found == FoundNotes(databaseId, results)
  {
    var appleNotes := [];
    for i := 0 to |results|
      invariant FoundNotes(databaseId, results[..i]) == Some(appleNotes)
    {
      assert results[..i + 1][..i] == results[..i];
      var result := results[i];
      if InDatabase(databaseId, result) && AppleNotesLabel in result.labels {
        var title := NoteTitle(result);
        if title.None? {
          assert FoundNotes(databaseId, results[..i + 1]) == None;
          FoundNoneStays(databaseId, results[..i + 1], results[i + 1..]);
          assert results[..i + 1] + results[i + 1..] == results;
          return None;
        }
        assert FoundNotes(databaseId, results[..i + 1]) == Some(appleNotes + [AppleNote(result.id, title.value, result.labels)]);
        appleNotes := appleNotes + [AppleNote(result.id, title.value, result.labels)];
      } else {
        assert FoundNotes(databaseId, results[..i + 1]) == Some(appleNotes);
      }
    }
    assert results[..|results|] == results;
    return Some(appleNotes);
  }

  /** Once reading a title has raised, later results change nothing. */
  lemma {:induction false} FoundNoneStays(databaseId: string, a: seq<Page>, b: seq<Page>)
    requires FoundNotes(databaseId, a).None?
    ensures FoundNotes(databaseId, a + b).None?
  {
    if b != [] {
      assert (a + b)[..|a + b| - 1] == a + b[..|b| - 1];
      FoundNoneStays(databaseId, a, b[..|b| - 1]);
    } else {
      assert a + b == a;
    }
  }

  /** Every kept page has a readable title. */
  predicate AllReadable(pages: seq<Page>) {
    forall k :: 0 <= k < |pages| ==> NoteTitle(pages[k]).Some?
  }

  lemma AllReadableAppend(pages: seq<Page>, last: Page)
    ensures AllReadable(pages + [last]) <==> AllReadable(pages) && NoteTitle(last).Some?
  {
    assert forall k :: 0 <= k < |pages| ==> (pages + [last])[k] == pages[k];
    assert (pages + [last])[|pages|] == last;
  }

  /** The search succeeds exactly when every kept page has a readable title. */
  lemma {:induction false} FoundNotesSomeIff(databaseId: string, results: seq<Page>)
    ensures FoundNotes(databaseId, results).Some? <==> AllReadable(Matching(databaseId, results))
  {
    if results != [] {
      var init, last := results[..|results| - 1], results[|results| - 1];
      FoundNotesSomeIff(databaseId, init);
      var pages := Matching(databaseId, init);
      if IsAppleNote(databaseId, last) {
        assert Matching(databaseId, results) == pages + [last];
        AllReadableAppend(pages, last);
      } else {
        assert Matching(databaseId, results) == pages;
      }
    }
  }

  /** When the search succeeds, it returns one note per kept page, in order, with that page's id and all its labels. */
  lemma {:induction false} FoundNotesPerPage(databaseId: string, results: seq<Page>)
    requires FoundNotes(databaseId, results).Some?
    ensures var notes, pages := FoundNotes(databaseId, results).value, Matching(databaseId, results);
      && |notes| == |pages|
      && forall k :: 0 <= k < |notes| ==>
           notes[k].id == pages[k].id && NoteTitle(pages[k]) == Some(notes[k].title) && notes[k].currentLabels == pages[k].labels
  {
    if results != [] {
      var init, last := results[..|results| - 1], results[|results| - 1];
      FoundNotesPerPage(databaseId, init);
      var pages, notes := Matching(databaseId, init), FoundNotes(databaseId, init).value;
      if IsAppleNote(databaseId, last) {
        assert Matching(databaseId, results) == pages + [last];
        assert FoundNotes(databaseId, results).value == notes + [AppleNote(last.id, NoteTitle(last).value, last.labels)];
      } else {
        assert Matching(databaseId, results) == pages;
        assert FoundNotes(databaseId, results).value == notes;
      }
    }
  }

  /** The labels with every occurrence of `drop` taken out, the rest in their order. */
  function Without(labels: seq<string>, drop: string): (r: seq<string>)
    ensures drop !in r
  {
    if labels == [] then []
    else
      var init := labels[..|labels| - 1];
      Without(init, drop) + (if labels[|labels| - 1] == drop then [] else [labels[|labels| - 1]])
  }

  /** `update_label`'s new list: the old labels without `Apple Notes`, then `source`. */
  function NewLabels(oldLabels: seq<string>): seq<string> {
    Without(oldLabels, AppleNotesLabel) + [SourceLabel]
  }

  /** The update `update_label` sends: the `Labels` property only, nothing archived. */
  function LabelCall(pageId: string, oldLabels: seq<string>): Call {
    UpdatePage(pageId, map[LabelsProp := MultiSelect(Named(NewLabels(oldLabels)))], None)
  }

  /** Taking a label out of a concatenation takes it out of each part. */
  lemma {:induction false} WithoutAppend(a: seq<string>, b: seq<string>, drop: string)
    ensures Without(a + b, drop) == Without(a, drop) + Without(b, drop)
  {
    if b == [] {
      assert a + b == a;
    } else {
      var init := b[..|b| - 1];
      assert (a + b)[..|a + b| - 1] == a + init;
      WithoutAppend(a, init, drop);
    }
  }

  /** The labels kept are exactly the others, each as often as before. */
  lemma {:induction false} WithoutCounts(labels: seq<string>, drop: string)
    ensures multiset(Without(labels, drop)) == multiset(labels)[drop := 0]
  {
    if labels != [] {
      var init, last := labels[..|labels| - 1], labels[|labels| - 1];
      WithoutCounts(init, drop);
      assert labels == init + [last];
    }
  }

  /**
   * The new labels: as many as before, less the `Apple Notes` ones, plus one; `source`
   * last (even when it was already there); no `Apple Notes`; every other label kept as
   * often as before.
   */
  lemma NewLabelsShape(oldLabels: seq<string>)
    ensures |NewLabels(oldLabels)| == |oldLabels| - multiset(oldLabels)[AppleNotesLabel] + 1
    ensures NewLabels(oldLabels)[|NewLabels(oldLabels)| - 1] == SourceLabel
    ensures AppleNotesLabel !in NewLabels(oldLabels)
    ensures multiset(NewLabels(oldLabels)) == multiset(oldLabels)[AppleNotesLabel := 0] + multiset{SourceLabel}
  {
    WithoutCounts(oldLabels, AppleNotesLabel);
    assert |multiset(Without(oldLabels, AppleNotesLabel))| == |Without(oldLabels, AppleNotesLabel)|;
    assert |multiset(oldLabels)[AppleNotesLabel := 0]| == |multiset(oldLabels)| - multiset(oldLabels)[AppleNotesLabel];
  }

  /** The other labels keep their relative order: the kept labels of a split list are the two parts' kept labels. */
  lemma NewLabelsKeepOrder(a: seq<string>, b: seq<string>)
    ensures NewLabels(a + b) == Without(a, AppleNotesLabel) + NewLabels(b)
  {
    WithoutAppend(a, b, AppleNotesLabel);
  }

  /** The outcomes of the updates, in list order. */
  function Outcomes(notes: seq<AppleNote>, updateOk: nat -> bool): (r: seq<Outcome>)
    ensures |r| == |notes|
  {
    if notes == [] then []
    else Outcomes(notes[..|notes| - 1], updateOk) + [if updateOk(|notes| - 1) then Done else Failed]
  }

  /** The update calls, one per note in list order. */
  function LabelCalls(notes: seq<AppleNote>): (r: seq<Call>)
    ensures |r| == |notes|
    ensures forall k :: 0 <= k < |notes| ==> r[k] == LabelCall(notes[k].id, notes[k].currentLabels)
  {
    if notes == [] then []
    else LabelCalls(notes[..|notes| - 1]) + [LabelCall(notes[|notes| - 1].id, notes[|notes| - 1].currentLabels)]
  }

  /**
   * The `__main__` block: the search, then one update per note found.  `completed` is
   * false when `find_apple_notes` raises; the counters are zero when nothing is found.
   */
  method Relabel(databaseId: string, results: seq<Page>, updateOk: nat -> bool)
    returns (completed: bool, updated: nat, failed: nat, calls: seq<Call>)
    ensures completed <==> FoundNotes(databaseId, results).Some?
    ensures !completed ==> updated == 0 && failed == 0 && calls == [Search(None, None)]
    ensures completed ==>
      var notes := FoundNotes(databaseId, results).value;
      && updated == Count(Outcomes(notes, updateOk), Done)
      && failed == Count(Outcomes(notes, updateOk), Failed)
      && calls == [Search(None, None)] + LabelCalls(notes)
  {
    calls := [Search(None, None)];
    updated, failed := 0, 0;
    var found := FindAppleNotes(databaseId, results);
    if found.None? {
      return false, updated, failed, calls;
    }
    completed := true;
    var appleNotes := found.value;
    if appleNotes == [] {
      return;
    }
    var labelCalls;
    updated, failed, labelCalls := UpdateAll(appleNotes, updateOk);
    calls := calls + labelCalls;
  }

  /** The loop over the notes found: each update either succeeds or is counted as failed, and the loop goes on. */
  method UpdateAll(appleNotes: seq<AppleNote>, updateOk: nat -> bool) returns (updated: nat, failed: nat, calls: seq<Call>)
    ensures updated == Count(Outcomes(appleNotes, updateOk), Done)
    ensures failed == Count(Outcomes(appleNotes, updateOk), Failed)
    ensures calls == LabelCalls(appleNotes)
  {
    updated, failed, calls := 0, 0, [];
    for i := 0 to |appleNotes|
      invariant updated == Count(Outcomes(appleNotes[..i], updateOk), Done)
      invariant failed == Count(Outcomes(appleNotes[..i], updateOk), Failed)
      invariant calls == LabelCalls(appleNotes[..i])
    {
      assert appleNotes[..i + 1][..i] == appleNotes[..i];
      var note := appleNotes[i];
      ghost var before := Outcomes(appleNotes[..i], updateOk);
      var outcome := if updateOk(i) then Done else Failed;
      assert Outcomes(appleNotes[..i + 1], updateOk) == before + [outcome];
      assert LabelCalls(appleNotes[..i + 1]) == calls + [LabelCall(note.id, note.currentLabels)];
      CountStep(before, outcome);
      calls := calls + [LabelCall(note.id, note.currentLabels)];
      if updateOk(i) {
        updated := updated + 1;
      } else {
        failed := failed + 1;
      }
    }
    assert appleNotes[..|appleNotes|] == appleNotes;
  }

  /** Every note found is counted once, as updated or as failed; a failure does not stop the loop. */
  lemma UpdatedPlusFailed(notes: seq<AppleNote>, updateOk: nat -> bool)
    ensures var os := Outcomes(notes, updateOk);
      Count(os, Done) + Count(os, Failed) == |notes| && Count(os, Skipped) == 0
  {
    var os := Outcomes(notes, updateOk);
    CountsPartition(os);
    NeverSkipped(notes, updateOk);
  }

  lemma {:induction false} NeverSkipped(notes: seq<AppleNote>, updateOk: nat -> bool)
    ensures Count(Outcomes(notes, updateOk), Skipped) == 0
  {
    if notes != [] {
      var init := notes[..|notes| - 1];
      NeverSkipped(init, updateOk);
      CountStep(Outcomes(init, updateOk), if updateOk(|notes| - 1) then Done else Failed);
    }
  }

  /** Each update sends only `Labels`, with the note's new labels, to that note's page. */
  lemma OnlyLabelsSent(notes: seq<AppleNote>, k: nat)
    requires k < |notes|
    ensures var c := LabelCalls(notes)[k];
      && c.UpdatePage? && c.pageId == notes[k].id && c.archived.None?
      && c.properties.Keys == {LabelsProp}
      && c.properties[LabelsProp] == MultiSelect(Named(NewLabels(notes[k].currentLabels)))
  {
  }
}
