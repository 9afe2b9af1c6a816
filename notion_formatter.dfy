/**
 * `NotionFormatter`: a note record becomes the `properties` of a database page and the list
 * of content blocks that go under it.
 */
module NotionFormatter {
  import opened Wrappers
  import opened Text
  import opened Notion
  import opened Notes

  /** Notion's limit on the text of one block. */
  const BlockCharLimit: nat := 2000

  /** What `format_note` returns: the page properties and the child blocks. */
  datatype Formatted = Formatted(properties: Properties, children: seq<Block>)

  /** `m` with `key := value` added when `present`, and `m` itself otherwise. */
  function PutIf(m: Properties, present: bool, key: PropertyName, value: PropertyValue): Properties {
    if present then m[key := value] else m
  }

  /** The property keys `format_note` can emit. */
  const PropertyKeys: set<PropertyName> := {TitleProp, SourceProp, CreatedProp, UpdatedProp, ArchivedProp, PinnedProp, ColorProp, TagsProp}

  /** The properties of a formatted note, added one by one as `format_note` does. */
  function NoteProperties(note: Note): Properties {
    var base := map[TitleProp := TitleText(note.title.GetOr("Untitled")), SourceProp := Select(note.source.GetOr("Unknown"))];
    var withCreated := PutIf(base, Truthy(note.createdTime), CreatedProp, Date(note.createdTime.GetOr("")));
    var withUpdated := PutIf(withCreated, Truthy(note.updatedTime), UpdatedProp, Date(note.updatedTime.GetOr("")));
    var withArchived := PutIf(withUpdated, note.archived.Some?, ArchivedProp, Checkbox(note.archived.GetOr(false)));
    var withPinned := PutIf(withArchived, note.pinned.Some?, PinnedProp, Checkbox(note.pinned.GetOr(false)));
    var withColor := PutIf(withPinned, Truthy(note.color), ColorProp, Select(note.color.GetOr("")));
    PutIf(withColor, note.labels != [], TagsProp, MultiSelect(Named(note.labels)))
  }

  /** No property outside the eight `format_note` knows about is emitted. */
  lemma PropertiesKnown(note: Note)
    ensures NoteProperties(note).Keys <= PropertyKeys
  {
  }

  /** The properties `format_note` emits whatever the note holds. */
  lemma PropertiesAlways(note: Note)
    ensures TitleProp in NoteProperties(note) && NoteProperties(note)[TitleProp] == TitleText(note.title.GetOr("Untitled"))
    ensures SourceProp in NoteProperties(note) && NoteProperties(note)[SourceProp] == Select(note.source.GetOr("Unknown"))
  {
  }

  /**
   * The other properties are emitted exactly when the note has a value for them in the sense
   * of the source's tests: a non-empty timestamp or colour, a flag that is not `None` (so
   * `false` is emitted), a non-empty label list.
   */
  lemma PropertiesOptional(note: Note)
    ensures CreatedProp in NoteProperties(note) <==> Truthy(note.createdTime)
    ensures CreatedProp in NoteProperties(note) ==> NoteProperties(note)[CreatedProp] == Date(note.createdTime.value)
    ensures UpdatedProp in NoteProperties(note) <==> Truthy(note.updatedTime)
    ensures UpdatedProp in NoteProperties(note) ==> NoteProperties(note)[UpdatedProp] == Date(note.updatedTime.value)
    ensures ArchivedProp in NoteProperties(note) <==> note.archived.Some?
    ensures ArchivedProp in NoteProperties(note) ==> NoteProperties(note)[ArchivedProp] == Checkbox(note.archived.value)
    ensures PinnedProp in NoteProperties(note) <==> note.pinned.Some?
    ensures PinnedProp in NoteProperties(note) ==> NoteProperties(note)[PinnedProp] == Checkbox(note.pinned.value)
    ensures ColorProp in NoteProperties(note) <==> Truthy(note.color)
    ensures ColorProp in NoteProperties(note) ==> NoteProperties(note)[ColorProp] == Select(note.color.value)
    ensures TagsProp in NoteProperties(note) <==> note.labels != []
    ensures TagsProp in NoteProperties(note) ==> NoteProperties(note)[TagsProp] == MultiSelect(Named(note.labels))
  {
  }

  /** A line of content counts as a paragraph when something other than whitespace is on it. */
  predicate NonBlank(line: string) {
    Strip(line) != []
  }

  /** The lines that become paragraphs, in order. */
  function NonBlankLines(lines: seq<string>): (r: seq<string>)
    ensures |r| <= |lines|
    ensures forall k :: 0 <= k < |r| ==> NonBlank(r[k])
  {
    if lines == [] then []
    else
      var last := lines[|lines| - 1];
      NonBlankLines(lines[..|lines| - 1]) + (if NonBlank(last) then [last] else [])
  }

  /** The paragraph blocks for the lines of a note's content: one per non-blank line, cut to the block limit. */
  function ParagraphBlocks(lines: seq<string>): seq<Block> {
    if lines == [] then []
    else
      var last := lines[|lines| - 1];
      ParagraphBlocks(lines[..|lines| - 1]) + (if NonBlank(last) then [Paragraph(Prefix(last, BlockCharLimit))] else [])
  }

  /** The paragraphs for a note's content: none when the content is missing or empty. */
  function ContentBlocks(content: Option<string>): seq<Block> {
    if Truthy(content) then ParagraphBlocks(Split(content.value, '\n')) else []
  }

  /** The to-do blocks for a checklist, one per item in order. */
  function ToDoBlocks(items: seq<ChecklistItem>): (r: seq<Block>)
    ensures |r| == |items|
    ensures forall k :: 0 <= k < |r| ==> r[k] == ToDo(Prefix(items[k].text, BlockCharLimit), items[k].checked.GetOr(false))
  {
    if items == [] then []
    else
      var last := items[|items| - 1];
      ToDoBlocks(items[..|items| - 1]) + [ToDo(Prefix(last.text, BlockCharLimit), last.checked.GetOr(false))]
  }

  /** The to-dos for a note: none when the checklist is missing or empty. */
  function ChecklistBlocks(checklist: Option<seq<ChecklistItem>>): seq<Block> {
    if checklist.Some? && checklist.value != [] then ToDoBlocks(checklist.value) else []
  }

  /** The closing paragraph naming the note's URL, which is not cut to the block limit. */
  function UrlBlocks(url: Option<string>): seq<Block> {
    if Truthy(url) then [Paragraph("URL: " + url.value)] else []
  }

  /** The children of a formatted note: paragraphs, then to-dos, then the URL. */
  function FormattedNote(note: Note): Formatted {
    Formatted(NoteProperties(note), ContentBlocks(note.content) + ChecklistBlocks(note.checklist) + UrlBlocks(note.url))
  }

  /** `format_note`: build the properties key by key, then append the blocks. */
  method FormatNote(note: Note) returns (r: Formatted)
    ensures r == FormattedNote(note)
  {
    var properties := BuildProperties(note);
    var children: seq<Block> := [];
    if Truthy(note.content) {
      children := AppendParagraphs(children, Split(note.content.value, '\n'));
    }
    if note.checklist.Some? && note.checklist.value != [] {
      children := AppendToDos(children, note.checklist.value);
    }
    if Truthy(note.url) {
      children := children + [Paragraph("URL: " + note.url.value)];
    }
    r := Formatted(properties, children);
  }

  /** The property-building half of `format_note`. */
  method BuildProperties(note: Note) returns (properties: Properties)
    ensures properties == NoteProperties(note)
  {
    properties := map[
      TitleProp := TitleText(note.title.GetOr("Untitled")),
      SourceProp := Select(note.source.GetOr("Unknown"))];
    if Truthy(note.createdTime) {
      properties := properties[CreatedProp := Date(note.createdTime.value)];
    }
    if Truthy(note.updatedTime) {
      properties := properties[UpdatedProp := Date(note.updatedTime.value)];
    }
    if note.archived.Some? {
      properties := properties[ArchivedProp := Checkbox(note.archived.value)];
    }
    if note.pinned.Some? {
      properties := properties[PinnedProp := Checkbox(note.pinned.value)];
    }
    if Truthy(note.color) {
      properties := properties[ColorProp := Select(note.color.value)];
    }
    if note.labels != [] {
      properties := properties[TagsProp := MultiSelect(Named(note.labels))];
    }
  }

  /** The loop over the content's lines in `format_note`. */
  method AppendParagraphs(children: seq<Block>, paragraphs: seq<string>) returns (r: seq<Block>)
    ensures r == children + ParagraphBlocks(paragraphs)
  {
    r := children;
    for j := 0 to |paragraphs|
      invariant r == children + ParagraphBlocks(paragraphs[..j])
    {
      assert paragraphs[..j + 1][..j] == paragraphs[..j];
      if NonBlank(paragraphs[j]) {
        r := r + [Paragraph(Prefix(paragraphs[j], BlockCharLimit))];
      }
    }
    assert paragraphs[..|paragraphs|] == paragraphs;
  }

  /** The loop over the checklist in `format_note`. */
  method AppendToDos(children: seq<Block>, items: seq<ChecklistItem>) returns (r: seq<Block>)
    ensures r == children + ToDoBlocks(items)
  {
    r := children;
    for j := 0 to |items|
      invariant r == children + ToDoBlocks(items[..j])
    {
      assert items[..j + 1][..j] == items[..j];
      r := r + [ToDo(Prefix(items[j].text, BlockCharLimit), items[j].checked.GetOr(false))];
    }
    assert items[..|items|] == items;
  }

  /** `format_notes`: one formatted note per input note, in order. */
  function FormatNotes(notes: seq<Note>): (r: seq<Formatted>)
    ensures |r| == |notes|
    ensures forall k :: 0 <= k < |notes| ==> r[k] == FormattedNote(notes[k])
  {
    if notes == [] then [] else [FormattedNote(notes[0])] + FormatNotes(notes[1..])
  }

  /** The text a block shows. */
  function BlockText(b: Block): string {
    match b
    case Paragraph(t) => t
    case ToDo(t, _) => t
  }

  /** One paragraph per non-blank line, in order, holding the line cut to the block limit. */
  lemma {:induction false} ParagraphsOfLines(lines: seq<string>)
    ensures |ParagraphBlocks(lines)| == |NonBlankLines(lines)|
    ensures forall k :: 0 <= k < |ParagraphBlocks(lines)| ==>
      ParagraphBlocks(lines)[k] == Paragraph(Prefix(NonBlankLines(lines)[k], BlockCharLimit))
  {
    if lines != [] {
      ParagraphsOfLines(lines[..|lines| - 1]);
    }
  }

  /** Every paragraph made from content is within the block limit and comes from a non-blank line. */
  lemma ParagraphsBounded(content: Option<string>)
    ensures forall k :: 0 <= k < |ContentBlocks(content)| ==>
      ContentBlocks(content)[k].Paragraph? && |BlockText(ContentBlocks(content)[k])| <= BlockCharLimit
  {
    if Truthy(content) {
      ParagraphsOfLines(Split(content.value, '\n'));
    }
  }

  /** Taking the paragraphs of two runs of lines one after the other gives the paragraphs of the whole. */
  lemma {:induction false} ParagraphBlocksAppend(a: seq<string>, b: seq<string>)
    ensures ParagraphBlocks(a + b) == ParagraphBlocks(a) + ParagraphBlocks(b)
  {
    if b == [] {
      assert a + b == a;
    } else {
      assert (a + b)[..|a + b| - 1] == a + b[..|b| - 1];
      ParagraphBlocksAppend(a, b[..|b| - 1]);
    }
  }

  /** The texts of a sequence of blocks. */
  function Texts(blocks: seq<Block>): (r: seq<string>)
    ensures |r| == |blocks|
    ensures forall k :: 0 <= k < |r| ==> r[k] == BlockText(blocks[k])
  {
    if blocks == [] then [] else Texts(blocks[..|blocks| - 1]) + [BlockText(blocks[|blocks| - 1])]
  }

  /** When every line is already short and non-blank, the paragraphs are the lines, unchanged. */
  lemma {:induction false} ShortLinesKept(lines: seq<string>)
    requires forall k :: 0 <= k < |lines| ==> NonBlank(lines[k]) && |lines[k]| <= BlockCharLimit
    ensures Texts(ParagraphBlocks(lines)) == lines
  {
    if lines != [] {
      var init, last := lines[..|lines| - 1], lines[|lines| - 1];
      ShortLinesKept(init);
      var blocks := ParagraphBlocks(init) + [Paragraph(last)];
      assert ParagraphBlocks(lines) == blocks;
      assert blocks[..|blocks| - 1] == ParagraphBlocks(init);
      assert lines == init + [last];
    }
  }

  /**
   * Content none of whose lines is blank or longer than the block limit is carried over
   * whole: joining the paragraph texts with newlines gives back the content.
   */
  lemma ContentRoundTrip(content: string)
    requires content != ""
    requires forall k :: 0 <= k < |Split(content, '\n')| ==>
      NonBlank(Split(content, '\n')[k]) && |Split(content, '\n')[k]| <= BlockCharLimit
    ensures Join(Texts(ContentBlocks(Some(content))), '\n') == content
  {
    ShortLinesKept(Split(content, '\n'));
    JoinSplit(content, '\n');
  }

  /**
   * The layout of the children: first the content paragraphs, then one to-do per checklist
   * item, then the URL paragraph exactly when there is a URL, untruncated and last.
   */
  lemma ChildrenLayout(note: Note)
    ensures var children := FormattedNote(note).children;
      var n := |ContentBlocks(note.content)|;
      var m := |ChecklistBlocks(note.checklist)|;
      && children[..n] == ContentBlocks(note.content)
      && children[n..n + m] == ChecklistBlocks(note.checklist)
      && (forall k :: 0 <= k < n ==> children[k].Paragraph?)
      && (forall k :: n <= k < n + m ==> children[k].ToDo?)
      && (|children| == n + m + 1 <==> Truthy(note.url))
      && (|children| == n + m <==> !Truthy(note.url))
      && (Truthy(note.url) ==> children[|children| - 1] == Paragraph("URL: " + note.url.value))
  {
    var c := ContentBlocks(note.content);
    var t := ChecklistBlocks(note.checklist);
    var children := FormattedNote(note).children;
    ParagraphsBounded(note.content);
    assert children == c + t + UrlBlocks(note.url);
    assert children[..|c|] == c;
    assert children[|c|..|c| + |t|] == t;
  }
}
