/**
 * The folder export of Apple Notes: one directory per note, holding the note's text in a
 * Markdown file.  The file system is given as listings: each entry with its name and what
 * reading or listing it yields.
 */
module AppleExport {
  import opened Wrappers
  import opened Text
  import opened Notes

  /** An entry of a note folder: its name and its text (`None` when opening or reading it raises). */
  datatype FileEntry = FileEntry(name: string, text: Option<string>)

  /** An entry of the export root: its name, whether it is a directory, and its listing (`None` when listing it raises). */
  datatype RootEntry = RootEntry(name: string, isDir: bool, listing: Option<seq<FileEntry>>)

  /** The position of the first `.md` entry in listing order. */
  function FirstMarkdown(files: seq<FileEntry>): (r: Option<nat>)
    ensures r.Some? ==> r.value < |files| && EndsWith(files[r.value].name, ".md")
    ensures forall k :: 0 <= k < (if r.Some? then r.value else |files|) ==> !EndsWith(files[k].name, ".md")
  {
    if files == [] then None
    else if EndsWith(files[0].name, ".md") then Some(0)
    else
      var rest := FirstMarkdown(files[1..]);
      assert forall k :: 0 < k < |files| ==> files[k] == files[1..][k - 1];
      if rest.Some? then Some(rest.value + 1) else None
  }

  /** The loop of `parse_apple_note` that stops at the first `.md` entry. */
  method FindMarkdown(files: seq<FileEntry>) returns (md: Option<nat>)
    ensures md == FirstMarkdown(files)
  {
    md := None;
    for i := 0 to |files|
      invariant md.None?
      invariant forall k :: 0 <= k < i ==> !EndsWith(files[k].name, ".md")
    {
      if EndsWith(files[i].name, ".md") {
        md := Some(i);
        break;
      }
    }
  }

  /** The text read from a note folder before stripping: that of the first `.md` entry, `""` when there is none or reading it fails. */
  function MarkdownText(files: seq<FileEntry>): string {
    match FirstMarkdown(files)
    case None => ""
    case Some(i) => files[i].text.GetOr("")
  }

  /** `parse_apple_note` for a folder with the given base name and listing; `None` when listing the folder raises. */
  function AppleExportNote(folderName: string, listing: Option<seq<FileEntry>>): (r: Option<ExportNote>)
    ensures r.Some? <==> listing.Some?
  {
    match listing
    case None => None
    case Some(files) =>
      Some(ExportNote(
        title := if folderName != "" then folderName else "Untitled",
        content := Some(Strip(MarkdownText(files))),
        labels := [Some("Apple Notes")],
        createdDate := None))
  }

  /** `parse_apple_note`: the title, the first Markdown file's stripped text, the fixed label. */
  method ParseAppleNote(folderName: string, listing: Option<seq<FileEntry>>) returns (r: Option<ExportNote>)
    ensures r == AppleExportNote(folderName, listing)
  {
    if listing.None? {
      return None;
    }
    var files := listing.value;
    var title := if folderName != "" then folderName else "Untitled";
    var md := FindMarkdown(files);
    var content := "";
    if md.Some? {
      var text := files[md.value].text;
      if text.Some? {
        content := text.value;
      }
    }
    content := Strip(content);
    return Some(ExportNote(title, Some(content), [Some("Apple Notes")], None));
  }

  /**
   * The content of a parsed folder is empty when no entry ends in `.md` or the first one
   * cannot be read; otherwise it is that file's text with surrounding white space removed.
   */
  lemma ExportContent(folderName: string, files: seq<FileEntry>)
    ensures AppleExportNote(folderName, Some(files)).value.content.Some?
    ensures var content := AppleExportNote(folderName, Some(files)).value.content.value;
      && ((forall k :: 0 <= k < |files| ==> !EndsWith(files[k].name, ".md")) ==> content == "")
      && (forall i :: 0 <= i < |files| && EndsWith(files[i].name, ".md") && (forall k :: 0 <= k < i ==> !EndsWith(files[k].name, ".md")) ==>
            content == if files[i].text.Some? then Strip(files[i].text.value) else "")
      && (content == [] || (!IsSpace(content[0]) && !IsSpace(content[|content| - 1])))
  {
    StripEnds(MarkdownText(files));
    forall i | 0 <= i < |files| && EndsWith(files[i].name, ".md") && (forall k :: 0 <= k < i ==> !EndsWith(files[k].name, ".md"))
      ensures MarkdownText(files) == files[i].text.GetOr("")
    {
      FirstMarkdownAt(files, i);
    }
  }

  /** The first `.md` entry is the one found. */
  lemma FirstMarkdownAt(files: seq<FileEntry>, i: nat)
    requires i < |files| && EndsWith(files[i].name, ".md")
    requires forall k :: 0 <= k < i ==> !EndsWith(files[k].name, ".md")
    ensures FirstMarkdown(files) == Some(i)
  {
    var r := FirstMarkdown(files);
    assert r.Some?;
    assert r.value == i;
  }

  /** The fixed fields of a parsed folder. */
  lemma ExportFields(folderName: string, files: seq<FileEntry>)
    ensures var n := AppleExportNote(folderName, Some(files)).value;
      && n.title == (if folderName == "" then "Untitled" else folderName)
      && n.labels == [Some("Apple Notes")]
      && n.createdDate == None
  {
  }

  /** An entry of the root that the scan looks into: a directory whose name does not start with a dot. */
  predicate Visible(e: RootEntry) {
    e.isDir && !StartsWith(e.name, ".")
  }

  /** The notes of `get_all_apple_notes` over the root's entries: visible entries that parse, in listing order. */
  function ExportedNotes(entries: seq<RootEntry>): seq<ExportNote> {
    if entries == [] then []
    else
      var e := entries[|entries| - 1];
      var n := AppleExportNote(e.name, e.listing);
      ExportedNotes(entries[..|entries| - 1]) + (if Visible(e) && n.Some? then [n.value] else [])
  }

  /** `get_all_apple_notes`, given the root's entries (`None` when the root does not exist). */
  method GetAllAppleNotes(root: Option<seq<RootEntry>>) returns (notes: seq<ExportNote>)
    ensures root.None? ==> notes == []
    ensures root.Some? ==> notes == ExportedNotes(root.value)
  {
    notes := [];
    if root.None? {
      return;
    }
    var entries := root.value;
    for i := 0 to |entries|
      invariant notes == ExportedNotes(entries[..i])
    {
      assert entries[..i + 1][..i] == entries[..i];
      var item := entries[i];
      if !item.isDir || StartsWith(item.name, ".") {
        continue;
      }
      var noteData := ParseAppleNote(item.name, item.listing);
      if noteData.Some? {
        notes := notes + [noteData.value];
      }
    }
    assert entries[..|entries|] == entries;
  }

  /** The entries that yield a note: visible, and listable. */
  function Parsed(entries: seq<RootEntry>): (r: seq<RootEntry>)
    ensures forall k :: 0 <= k < |r| ==> Visible(r[k]) && r[k].listing.Some? && r[k] in entries
  {
    if entries == [] then []
    else
      var e := entries[|entries| - 1];
      assert forall x :: x in entries[..|entries| - 1] ==> x in entries;
      Parsed(entries[..|entries| - 1]) + (if Visible(e) && e.listing.Some? then [e] else [])
  }

  /** The scan yields one note per parsed entry, in listing order: the entry's parsed folder. */
  lemma {:induction false} ExportedFromParsed(entries: seq<RootEntry>)
    ensures |ExportedNotes(entries)| == |Parsed(entries)| <= |entries|
    ensures forall k :: 0 <= k < |Parsed(entries)| ==>
      ExportedNotes(entries)[k] == AppleExportNote(Parsed(entries)[k].name, Parsed(entries)[k].listing).value
  {
    if entries != [] {
      var init, e := entries[..|entries| - 1], entries[|entries| - 1];
      ExportedFromParsed(init);
      var n := AppleExportNote(e.name, e.listing);
      assert ExportedNotes(entries) == ExportedNotes(init) + (if Visible(e) && n.Some? then [n.value] else []);
      assert Parsed(entries) == Parsed(init) + (if Visible(e) && e.listing.Some? then [e] else []);
    }
  }

  /** No visible, listable entry is dropped. */
  lemma {:induction false} ParsedComplete(entries: seq<RootEntry>, e: RootEntry)
    requires e in entries && Visible(e) && e.listing.Some?
    ensures e in Parsed(entries)
  {
    var init := entries[..|entries| - 1];
    if e != entries[|entries| - 1] {
      assert entries == init + [entries[|entries| - 1]];
      ParsedComplete(init, e);
    }
  }
}
