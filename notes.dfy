/** The note records the parsers produce. */
module Notes {
  import opened Wrappers

  /**
   * One checklist entry of a note dictionary.  The package-level parsers always store both
   * keys; `checked` is `None` where the formatter's `get` falls back to `False`.
   */
  datatype ChecklistItem = ChecklistItem(text: string, checked: Option<bool>)

  /**
   * The note dictionary the package-level parsers produce and the formatter reads.
   * `None` stands both for a missing key and for a key holding `None`: every use in the
   * code reads these keys with `get`, where the two behave alike (the parsers never store
   * `None` under `title`, `content` or `source`).  A missing `labels` key reads as `[]`.
   */
  datatype Note = Note(
    title: Option<string>,
    content: Option<string>,
    source: Option<string>,
    createdTime: Option<string>,
    updatedTime: Option<string>,
    archived: Option<bool>,
    pinned: Option<bool>,
    color: Option<string>,
    labels: seq<string>,
    checklist: Option<seq<ChecklistItem>>,
    url: Option<string>)

  /**
   * The dictionary the stand-alone sync scripts pass around: exactly these four keys.  The
   * content is `None` when a Takeout file holds `null` as its text, and a label is `None`
   * when its `name` is `null`.
   */
  datatype ExportNote = ExportNote(title: string, content: Option<string>, labels: seq<Option<string>>, createdDate: Option<string>)

  /** Python truthiness of an optional string: present and non-empty. */
  predicate Truthy(s: Option<string>) {
    s.Some? && s.value != ""
  }
}
