/**
 * `sync_apple_notes_to_notion`: the notes of the folder export are checked for an existing
 * page with their title, and created when there is none.  The replies of the search and
 * create calls are given by the note's position in the list.
 */
module AppleSync {
  import opened Wrappers
  import opened Notes
  import opened Notion
  import opened Tally
  import opened NotionQueries
  import opened AppleExport
  import opened SyncPages

  /** The notes `get_all_apple_notes` returns for the export root (`None`: it does not exist). */
  function FoundNotes(root: Option<seq<RootEntry>>): seq<ExportNote> {
    if root.None? then [] else ExportedNotes(root.value)
  }

  /** The properties of this script's `add_note_to_notion`: never a date. */
  function AppleProperties(n: ExportNote): Option<Properties> {
    SyncProperties(n.title, n.content, n.labels)
  }

  /** The outcomes of the notes, in list order. */
  function Outcomes(databaseId: string, notes: seq<ExportNote>, search: nat -> Option<seq<Page>>, createOk: nat -> bool): seq<Outcome> {
    if notes == [] then []
    else
      var k := |notes| - 1;
      Outcomes(databaseId, notes[..k], search, createOk) + [NoteOutcome(databaseId, notes[k].title, search(k), AppleProperties(notes[k]), createOk(k))]
  }

  /** The calls of the loop over the notes, in order. */
  function SyncCalls(databaseId: string, notes: seq<ExportNote>, search: nat -> Option<seq<Page>>): seq<Call> {
    if notes == [] then []
    else
      var k := |notes| - 1;
      SyncCalls(databaseId, notes[..k], search) + NoteCalls(databaseId, notes[k].title, search(k), AppleProperties(notes[k]))
  }

  /** `sync_apple_notes_to_notion`: the three counters and the calls made; nothing at all when no note is found. */
  method SyncAppleNotesToNotion(databaseId: string, root: Option<seq<RootEntry>>, search: nat -> Option<seq<Page>>, createOk: nat -> bool)
    returns (synced: nat, skipped: nat, failed: nat, calls: seq<Call>)
    ensures FoundNotes(root) == [] ==> synced == 0 && skipped == 0 && failed == 0 && calls == []
    ensures synced == Count(Outcomes(databaseId, FoundNotes(root), search, createOk), Done)
    ensures skipped == Count(Outcomes(databaseId, FoundNotes(root), search, createOk), Skipped)
    ensures failed == Count(Outcomes(databaseId, FoundNotes(root), search, createOk), Failed)
    ensures calls == SyncCalls(databaseId, FoundNotes(root), search)
  {
    synced, skipped, failed, calls := 0, 0, 0, [];
    var notes := GetAllAppleNotes(root);
    if notes == [] {
      return;
    }
    synced, skipped, failed, calls := SyncAll(databaseId, notes, search, createOk);
  }

  /** The loop over the notes found. */
  method SyncAll(databaseId: string, notes: seq<ExportNote>, search: nat -> Option<seq<Page>>, createOk: nat -> bool)
    returns (synced: nat, skipped: nat, failed: nat, calls: seq<Call>)
    ensures synced == Count(Outcomes(databaseId, notes, search, createOk), Done)
    ensures skipped == Count(Outcomes(databaseId, notes, search, createOk), Skipped)
    ensures failed == Count(Outcomes(databaseId, notes, search, createOk), Failed)
    ensures calls == SyncCalls(databaseId, notes, search)
  {
    synced, skipped, failed, calls := 0, 0, 0, [];
    for i := 0 to |notes|
      invariant synced == Count(Outcomes(databaseId, notes[..i], search, createOk), Done)
      invariant skipped == Count(Outcomes(databaseId, notes[..i], search, createOk), Skipped)
      invariant failed == Count(Outcomes(databaseId, notes[..i], search, createOk), Failed)
      invariant calls == SyncCalls(databaseId, notes[..i], search)
    {
      assert notes[..i + 1][..i] == notes[..i];
      var noteData := notes[i];
      ghost var before := Outcomes(databaseId, notes[..i], search, createOk);
      assert Outcomes(databaseId, notes[..i + 1], search, createOk) == before + [NoteOutcome(databaseId, noteData.title, search(i), AppleProperties(noteData), createOk(i))];
      assert SyncCalls(databaseId, notes[..i + 1], search) == calls + NoteCalls(databaseId, noteData.title, search(i), AppleProperties(noteData));
      var outcome, noteCalls := SyncNote(databaseId, noteData.title, AppleProperties(noteData), search(i), createOk(i));
      CountStep(before, outcome);
      calls := calls + noteCalls;
      if outcome == Done {
        synced := synced + 1;
      } else if outcome == Skipped {
        skipped := skipped + 1;
      } else {
        failed := failed + 1;
      }
    }
    assert notes[..|notes|] == notes;
  }

  /** Each note is counted exactly once. */
  lemma {:induction false} CountersPartition(databaseId: string, notes: seq<ExportNote>, search: nat -> Option<seq<Page>>, createOk: nat -> bool)
    ensures |Outcomes(databaseId, notes, search, createOk)| == |notes|
    ensures var os := Outcomes(databaseId, notes, search, createOk);
      Count(os, Done) + Count(os, Skipped) + Count(os, Failed) == |notes|
  {
    if notes != [] {
      CountersPartition(databaseId, notes[..|notes| - 1], search, createOk);
    }
    CountsPartition(Outcomes(databaseId, notes, search, createOk));
  }

  /** The queries of the search calls, in order. */
  function SearchedTitles(calls: seq<Call>): seq<Option<string>> {
    if calls == [] then []
    else
      var c := calls[|calls| - 1];
      SearchedTitles(calls[..|calls| - 1]) + (if c.Search? then [c.query] else [])
  }

  /** The titles of the notes, in order. */
  function Titles(notes: seq<ExportNote>): (r: seq<Option<string>>)
    ensures |r| == |notes|
    ensures forall k :: 0 <= k < |notes| ==> r[k] == Some(notes[k].title)
  {
    if notes == [] then [] else Titles(notes[..|notes| - 1]) + [Some(notes[|notes| - 1].title)]
  }

  lemma {:induction false} SearchedTitlesAppend(a: seq<Call>, b: seq<Call>)
    ensures SearchedTitles(a + b) == SearchedTitles(a) + SearchedTitles(b)
  {
    if b == [] {
      assert a + b == a;
    } else {
      assert (a + b)[..|a + b| - 1] == a + b[..|b| - 1];
      SearchedTitlesAppend(a, b[..|b| - 1]);
    }
  }

  /** Notes are processed in list order: one search per note, for its title. */
  lemma {:induction false} SearchesInOrder(databaseId: string, notes: seq<ExportNote>, search: nat -> Option<seq<Page>>)
    ensures SearchedTitles(SyncCalls(databaseId, notes, search)) == Titles(notes)
  {
    if notes != [] {
      var k := |notes| - 1;
      SearchesInOrder(databaseId, notes[..k], search);
      var nc := NoteCalls(databaseId, notes[k].title, search(k), AppleProperties(notes[k]));
      SearchedTitlesAppend(SyncCalls(databaseId, notes[..k], search), nc);
      assert SearchedTitles(nc) == [Some(notes[k].title)] by {
        assert SearchedTitles([Search(Some(notes[k].title), None)]) == [Some(notes[k].title)];
        if |nc| == 2 {
          assert nc[..1] == [Search(Some(notes[k].title), None)];
        }
      }
    }
  }

  /** Every page this script creates has exactly `Title`, `Content` and `Labels`: no date property, ever. */
  lemma {:induction false} NoDateProperty(databaseId: string, notes: seq<ExportNote>, search: nat -> Option<seq<Page>>)
    ensures forall c :: c in SyncCalls(databaseId, notes, search) && c.CreatePage? ==>
      c.properties.Keys == {TitleProp, ContentProp, LabelsProp} && c.databaseId == databaseId && c.children == []
  {
    if notes != [] {
      var k := |notes| - 1;
      NoDateProperty(databaseId, notes[..k], search);
      SyncPropertiesShape(notes[k].title, notes[k].content, notes[k].labels);
    }
  }
}
