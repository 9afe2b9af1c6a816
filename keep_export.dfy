/**
 * `parse_keep_json`: a note file of a Google Takeout export of Keep becomes the four-key
 * record the sync script uploads.
 */
module KeepExport {
  import opened Wrappers
  import opened Text
  import opened Notes

  /** A key of a decoded JSON object: missing, present holding `null`, or present holding a value. */
  datatype Field<T> = Missing | Null | Value(value: T)
  {
    /** `dict.get(key, otherwise)`: `otherwise` when the key is missing, `None` when it holds `null`. */
    function Get(otherwise: T): (r: Option<T>)
      ensures r.None? <==> this.Null?
    {
      match this
      case Missing => Some(otherwise)
      case Null => None
      case Value(v) => Some(v)
    }
  }

  /** An entry of `labels`. */
  datatype RawLabel = RawLabel(name: Field<string>)

  /** An entry of `listContent`. */
  datatype RawListItem = RawListItem(text: Field<string>, checked: Field<bool>)

  /** The keys of a Takeout note file that the parser reads. */
  datatype KeepJson = KeepJson(
    title: Field<string>,
    textContent: Field<string>,
    labels: Field<seq<RawLabel>>,
    listContent: Field<seq<RawListItem>>,
    createdTimestampUsec: Field<int>)

  /**
   * `[label['name'] for label in labels_raw]`: `None` when some label has no `name` key (the
   * subscript raises `KeyError`); a `name` holding `null` is kept as `None`.
   */
  function LabelNames(raw: seq<RawLabel>): (r: Option<seq<Option<string>>>)
    ensures r.Some? <==> forall k :: 0 <= k < |raw| ==> !raw[k].name.Missing?
    ensures r.Some? ==> |r.value| == |raw|
    ensures r.Some? ==> forall k :: 0 <= k < |raw| ==>
      (r.value[k].None? <==> raw[k].name.Null?) && (raw[k].name.Value? ==> r.value[k] == Some(raw[k].name.value))
  {
    if raw == [] then Some([])
    else
      var init := LabelNames(raw[..|raw| - 1]);
      var last := raw[|raw| - 1].name;
      if init.Some? && !last.Missing? then Some(init.value + [last.Get("")]) else None
  }

  /** The box a checklist line starts with: `[x] ` when `checked` holds true, `[ ] ` when it is false, `null` or missing. */
  function Box(checked: Field<bool>): string {
    if checked == Value(true) then "[x] " else "[ ] "
  }

  /** How the f-string renders `i.get('text', '')`: `''` for a missing key, `None` for `null`. */
  function ItemText(text: Field<string>): string {
    match text.Get("")
    case None => "None"
    case Some(t) => t
  }

  /** One rendered checklist line: the box, then the item's text as the f-string renders it. */
  function ChecklistLine(item: RawListItem): (line: string)
    ensures line == Box(item.checked) + ItemText(item.text)
    ensures |line| == 4 + |ItemText(item.text)|
  {
    "[" + (if item.checked.Get(false) == Some(true) then "x" else " ") + "] " + ItemText(item.text)
  }

  /** The checklist lines in order, one per item. */
  function ChecklistLines(items: seq<RawListItem>): (r: seq<string>)
    ensures |r| == |items|
    ensures forall k :: 0 <= k < |items| ==> r[k] == ChecklistLine(items[k])
  {
    if items == [] then [] else ChecklistLines(items[..|items| - 1]) + [ChecklistLine(items[|items| - 1])]
  }

  /** The rendered checklist: its lines joined by newlines, with no trailing newline. */
  function RenderChecklist(items: seq<RawListItem>): string {
    Join(ChecklistLines(items), '\n')
  }

  /** The file carries a truthy `createdTimestampUsec`, so the parser renders a date. */
  predicate Dated(data: KeepJson) {
    data.createdTimestampUsec.Value? && data.createdTimestampUsec.value != 0
  }

  /**
   * `parse_keep_json`, given how the local clock renders a timestamp in microseconds (the
   * source divides by a million and formats it in the machine's time zone; `None` where
   * `datetime.fromtimestamp` raises for a timestamp out of its range).  It raises when
   * `labels` or `listContent` holds `null` (iterating `None`), when some label has no
   * `name`, or when a truthy timestamp cannot be rendered.
   */
  function ParseKeepJson(data: KeepJson, localIso: int -> Option<string>): (r: Result<ExportNote>)
    ensures r.Success? <==>
      && !data.labels.Null?
      && (data.labels.Value? ==> LabelNames(data.labels.value).Some?)
      && !data.listContent.Null?
      && (Dated(data) ==> localIso(data.createdTimestampUsec.value).Some?)
    ensures r.Success? ==> r.value.title == if data.title.Value? && data.title.value != "" then data.title.value else "Untitled"
    ensures r.Success? ==> r.value.labels == if data.labels.Missing? then [] else LabelNames(data.labels.value).value
    ensures r.Success? && data.listContent.Missing? ==> (r.value.content.None? <==> data.textContent.Null?)
    ensures r.Success? && data.listContent.Missing? && data.textContent.Missing? ==> r.value.content == Some("")
    ensures r.Success? && data.listContent.Missing? && data.textContent.Value? ==> r.value.content == Some(data.textContent.value)
    ensures r.Success? && data.listContent.Value? ==> r.value.content == Some(RenderChecklist(data.listContent.value))
    ensures r.Success? ==> (r.value.createdDate.Some? <==> Dated(data))
    ensures r.Success? && r.value.createdDate.Some? ==> localIso(data.createdTimestampUsec.value) == Some(r.value.createdDate.value)
  {
    // `data.get('title') or "Untitled"`: a missing key, `null` and `""` all give the default.
    var title := if data.title.Value? && data.title.value != "" then data.title.value else "Untitled";
    var content := data.textContent.Get("");
    match data.labels.Get([])
    case None => Failure("TypeError: 'NoneType' object is not iterable")
    case Some(labelsRaw) =>
      match LabelNames(labelsRaw)
      case None => Failure("KeyError: 'name'")
      case Some(labels) =>
        if data.listContent.Null? then Failure("TypeError: 'NoneType' object is not iterable")
        else
          var content' := if data.listContent.Value? then Some(RenderChecklist(data.listContent.value)) else content;
          var micros := data.createdTimestampUsec.Get(0);
          if micros.Some? && micros.value != 0 then
            match localIso(micros.value)
            case None => Failure("OverflowError: timestamp out of range")
            case Some(iso) => Success(ExportNote(title, content', labels, Some(iso)))
          else Success(ExportNote(title, content', labels, None))
  }

  /**
   * `null` is not a missing key: `labels` or `listContent` holding `null` makes the parse
   * raise, `textContent` holding `null` leaves the content `None`, a `null` item text renders
   * as `None`, and a `null` label name is kept.
   */
  lemma NullIsNotMissing(localIso: int -> Option<string>)
    ensures ParseKeepJson(KeepJson(Missing, Missing, Null, Missing, Missing), localIso).Failure?
    ensures ParseKeepJson(KeepJson(Missing, Missing, Missing, Null, Missing), localIso).Failure?
    ensures ParseKeepJson(KeepJson(Missing, Missing, Missing, Missing, Missing), localIso) == Success(ExportNote("Untitled", Some(""), [], None))
    ensures ParseKeepJson(KeepJson(Missing, Null, Missing, Missing, Missing), localIso) == Success(ExportNote("Untitled", None, [], None))
    ensures ChecklistLine(RawListItem(Null, Missing)) == "[ ] None"
    ensures ChecklistLine(RawListItem(Missing, Null)) == "[ ] "
    ensures LabelNames([RawLabel(Null)]) == Some([None])
    ensures LabelNames([RawLabel(Missing)]) == None
  {
    var none: seq<RawLabel> := [];
    assert [RawLabel(Null)][..0] == none;
    assert [RawLabel(Missing)][..0] == none;
    var noNames: seq<Option<string>> := [];
    assert LabelNames(none) == Some(noNames);
    assert noNames + [None] == [None];
  }

  /**
   * A timestamp the clock cannot render fails the whole file rather than leaving it undated,
   * while a zero or `null` timestamp leaves it undated without asking the clock.
   */
  lemma UnrenderableDateFails(localIso: int -> Option<string>, micros: int)
    requires micros != 0 && localIso(micros).None?
    ensures ParseKeepJson(KeepJson(Missing, Missing, Missing, Missing, Value(micros)), localIso).Failure?
    ensures ParseKeepJson(KeepJson(Missing, Missing, Missing, Missing, Value(0)), localIso) == Success(ExportNote("Untitled", Some(""), [], None))
    ensures ParseKeepJson(KeepJson(Missing, Missing, Missing, Missing, Null), localIso) == Success(ExportNote("Untitled", Some(""), [], None))
  {
  }

  /** An entry of the Takeout folder: its name and its decoded JSON (`None` when reading or decoding it raises). */
  datatype TakeoutEntry = TakeoutEntry(name: string, json: Option<KeepJson>)

  /** Only names ending in `.json` are read. */
  predicate IsJson(e: TakeoutEntry) {
    EndsWith(e.name, ".json")
  }

  /** `parse_keep_json` on the entry's path; it raises when the file cannot be read or decoded. */
  function ParsedEntry(e: TakeoutEntry, localIso: int -> Option<string>): Result<ExportNote> {
    match e.json
    case None => Failure("cannot read the file as JSON")
    case Some(data) => ParseKeepJson(data, localIso)
  }

  /** An empty checklist renders as the empty string. */
  lemma EmptyChecklist()
    ensures RenderChecklist([]) == ""
  {
  }

  /** A checklist line has a newline only where the item's text has one. */
  lemma LineHasNoNewline(item: RawListItem)
    requires '\n' !in ItemText(item.text)
    ensures '\n' !in ChecklistLine(item)
  {
    var line := ChecklistLine(item);
    var text := ItemText(item.text);
    forall k | 0 <= k < |line| ensures line[k] != '\n' {
      if k >= 4 {
        assert line[k] == text[k - 4];
      }
    }
  }

  /**
   * When no item's text holds a newline, splitting the rendered checklist on newlines gives
   * back one line per item, in order, each starting with the box for its checked state.
   */
  lemma SplitRenderedChecklist(items: seq<RawListItem>)
    requires items != []
    requires forall k :: 0 <= k < |items| ==> '\n' !in ItemText(items[k].text)
    ensures |Split(RenderChecklist(items), '\n')| == |items|
    ensures forall k :: 0 <= k < |items| ==> Split(RenderChecklist(items), '\n')[k] == Box(items[k].checked) + ItemText(items[k].text)
  {
    var lines := ChecklistLines(items);
    forall k | 0 <= k < |lines| ensures '\n' !in lines[k] {
      LineHasNoNewline(items[k]);
    }
    SplitJoin(lines, '\n');
  }
}
