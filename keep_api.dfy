/**
 * `GoogleKeepParser`: notes fetched through the Keep API become note records; trashed notes
 * are left out.  Logging in and fetching are outcomes given as parameters.
 */
module KeepApi {
  import opened Wrappers
  import opened Notes

  /** A checklist entry of an API note. */
  datatype KeepItem = KeepItem(text: string, checked: bool)

  /**
   * An API note, reduced to the attributes the parser reads.  Timestamps are already in
   * ISO form, `None` when unset; `colorName` is `None` when the colour has no `name`;
   * `url` and `items` are `None` when the note has no such attribute.
   */
  datatype KeepApiNote = KeepApiNote(
    title: string,
    text: string,
    trashed: bool,
    created: Option<string>,
    updated: Option<string>,
    archived: bool,
    pinned: bool,
    colorName: Option<string>,
    labels: seq<string>,
    url: Option<string>,
    items: Option<seq<KeepItem>>)

  /** The checklist entry of the note record for an API item. */
  function ItemRecord(item: KeepItem): ChecklistItem {
    ChecklistItem(item.text, Some(item.checked))
  }

  /** The checklist entries for a sequence of API items, in order. */
  function ItemRecords(items: seq<KeepItem>): (r: seq<ChecklistItem>)
    ensures |r| == |items|
    ensures forall k :: 0 <= k < |items| ==> r[k] == ItemRecord(items[k])
  {
    if items == [] then [] else ItemRecords(items[..|items| - 1]) + [ItemRecord(items[|items| - 1])]
  }

  /** The note record for one API note. */
  function KeepRecord(n: KeepApiNote): Note {
    Note(
      title := Some(if n.title != "" then n.title else "Untitled"),
      content := Some(n.text),
      source := Some("Google Keep"),
      createdTime := n.created,
      updatedTime := n.updated,
      archived := Some(n.archived),
      pinned := Some(n.pinned),
      color := n.colorName,
      labels := n.labels,
      checklist := if n.items.Some? && n.items.value != [] then Some(ItemRecords(n.items.value)) else None,
      url := n.url)
  }

  /** The records of the notes that are not trashed, in API order. */
  function KeptRecords(gnotes: seq<KeepApiNote>): seq<Note> {
    if gnotes == [] then []
    else
      var last := gnotes[|gnotes| - 1];
      KeptRecords(gnotes[..|gnotes| - 1]) + (if last.trashed then [] else [KeepRecord(last)])
  }

  /** `get_notes`, given the fetched notes, or `None` when fetching or reading them raised. */
  method GetNotes(fetched: Option<seq<KeepApiNote>>) returns (notes: seq<Note>)
    ensures fetched.None? ==> notes == []
    ensures fetched.Some? ==> notes == KeptRecords(fetched.value)
  {
    if fetched.None? {
      return [];
    }
    var gnotes := fetched.value;
    notes := [];
    for i := 0 to |gnotes|
      invariant notes == KeptRecords(gnotes[..i])
    {
      assert gnotes[..i + 1][..i] == gnotes[..i];
      var note := gnotes[i];
      if note.trashed {
        continue;
      }
      var noteData := Note(
        title := Some(if note.title != "" then note.title else "Untitled"),
        content := Some(note.text),
        source := Some("Google Keep"),
        createdTime := note.created,
        updatedTime := note.updated,
        archived := Some(note.archived),
        pinned := Some(note.pinned),
        color := note.colorName,
        labels := note.labels,
        checklist := None,
        url := note.url);
      if note.items.Some? && note.items.value != [] {
        var checklistItems := CopyItems(note.items.value);
        noteData := noteData.(checklist := Some(checklistItems));
      }
      notes := notes + [noteData];
    }
    assert gnotes[..|gnotes|] == gnotes;
  }

  /** The inner loop of `get_notes`: copy each item's text and checked state. */
  method CopyItems(items: seq<KeepItem>) returns (r: seq<ChecklistItem>)
    ensures r == ItemRecords(items)
  {
    r := [];
    for j := 0 to |items|
      invariant r == ItemRecords(items[..j])
    {
      assert items[..j + 1][..j] == items[..j];
      r := r + [ChecklistItem(items[j].text, Some(items[j].checked))];
    }
    assert items[..|items|] == items;
  }

  /** `parse_google_keep`: no fetch is attempted when logging in fails. */
  method ParseGoogleKeep(authenticated: bool, fetched: Option<seq<KeepApiNote>>) returns (notes: seq<Note>, didFetch: bool)
    ensures didFetch == authenticated
    ensures !authenticated ==> notes == []
    ensures authenticated ==> notes == (if fetched.Some? then KeptRecords(fetched.value) else [])
  {
    if !authenticated {
      return [], false;
    }
    notes := GetNotes(fetched);
    didFetch := true;
  }

  /** Exactly the untrashed notes are kept, in order: each kept record is that of an untrashed note, and none is lost. */
  lemma {:induction false} KeptRecordsCount(gnotes: seq<KeepApiNote>)
    ensures |KeptRecords(gnotes)| == |Untrashed(gnotes)|
    ensures forall k :: 0 <= k < |KeptRecords(gnotes)| ==> KeptRecords(gnotes)[k] == KeepRecord(Untrashed(gnotes)[k])
  {
    if gnotes != [] {
      KeptRecordsCount(gnotes[..|gnotes| - 1]);
    }
  }

  /** The notes that are not trashed, in order. */
  function Untrashed(gnotes: seq<KeepApiNote>): (r: seq<KeepApiNote>)
    ensures forall k :: 0 <= k < |r| ==> !r[k].trashed && r[k] in gnotes
  {
    if gnotes == [] then []
    else
      var last := gnotes[|gnotes| - 1];
      assert forall x :: x in gnotes[..|gnotes| - 1] ==> x in gnotes;
      Untrashed(gnotes[..|gnotes| - 1]) + (if last.trashed then [] else [last])
  }

  /** No note that is not trashed is lost. */
  lemma {:induction false} UntrashedKeeps(gnotes: seq<KeepApiNote>, n: KeepApiNote)
    requires !n.trashed && n in gnotes
    ensures n in Untrashed(gnotes)
  {
    var init := gnotes[..|gnotes| - 1];
    if n != gnotes[|gnotes| - 1] {
      assert gnotes == init + [gnotes[|gnotes| - 1]];
      UntrashedKeeps(init, n);
    }
  }

  /** The fields every record from the API has, and the checklist copied item for item when there is one. */
  lemma RecordFields(n: KeepApiNote)
    ensures var r := KeepRecord(n);
      && r.title == Some(if n.title == "" then "Untitled" else n.title)
      && r.source == Some("Google Keep")
      && (r.checklist.Some? <==> n.items.Some? && n.items.value != [])
      && (r.checklist.Some? ==> |r.checklist.value| == |n.items.value|)
      && (r.checklist.Some? ==> forall k :: 0 <= k < |n.items.value| ==>
            r.checklist.value[k].text == n.items.value[k].text && r.checklist.value[k].checked == Some(n.items.value[k].checked))
  {
  }
}
