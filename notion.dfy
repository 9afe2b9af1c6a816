/** The shapes the Notion client takes and returns, reduced to what this code reads and writes. */
module Notion {
  import opened Wrappers

  /** A rich-text element of a page property; its `plain_text` key may be missing. */
  datatype RichText = RichText(plainText: Option<string>)

  /** A page as the search endpoint returns it. */
  datatype Page = Page(
    id: string,
    /** `parent.database_id`, `None` when the parent has no database id; a `null` id is not modelled. */
    parentDatabaseId: Option<string>,
    /** `properties.Title.title`, `None` when the property or its `title` key is missing. */
    title: Option<seq<RichText>>,
    /** `properties.Content.rich_text`; a missing property reads as the empty list. */
    content: seq<RichText>,
    /** The `name`s of `properties.Labels.multi_select`; a missing property reads as the empty list. */
    labels: seq<string>)

  /** One page of search results. */
  datatype Response = Response(results: seq<Page>, hasMore: bool, nextCursor: Option<string>)

  /** The value of one page property in a create or update payload. */
  datatype PropertyValue =
    | TitleText(content: string)
    | RichTextValue(content: string)
    | Select(name: string)
    /** One option per entry, by `name`; `None` is a `name` that is `null` in the payload. */
    | MultiSelect(names: seq<Option<string>>)
    | Date(start: string)
    | Checkbox(checked: bool)

  /** The database properties the code reads or writes, by their names in the Notion schema. */
  datatype PropertyName =
    | TitleProp | SourceProp | CreatedProp | UpdatedProp | ArchivedProp | PinnedProp | ColorProp | TagsProp
    | ContentProp | LabelsProp | CreatedDateProp
  {
    /** The property's name as it appears in a payload. */
    function Name(): string {
      match this
      case TitleProp => "Title"
      case SourceProp => "Source"
      case CreatedProp => "Created"
      case UpdatedProp => "Updated"
      case ArchivedProp => "Archived"
      case PinnedProp => "Pinned"
      case ColorProp => "Color"
      case TagsProp => "Tags"
      case ContentProp => "Content"
      case LabelsProp => "Labels"
      case CreatedDateProp => "Created Date"
    }
  }

  type Properties = map<PropertyName, PropertyValue>

  /** The `multi_select` entries `[{"name": label} for label in labels]` for labels that are all strings. */
  function Named(labels: seq<string>): (r: seq<Option<string>>)
    ensures |r| == |labels|
    ensures forall k :: 0 <= k < |labels| ==> r[k] == Some(labels[k])
  {
    seq(|labels|, k requires 0 <= k < |labels| => Some(labels[k]))
  }

  /** A content block of a page: a paragraph or a to-do item, each holding one text run. */
  datatype Block = Paragraph(text: string) | ToDo(text: string, checked: bool)

  /** The calls the code makes on the outside world, in the order it makes them. */
  datatype Call =
    | CreateDatabase(parentPageId: string, title: string)
    | Search(query: Option<string>, startCursor: Option<string>)
    | CreatePage(databaseId: string, properties: Properties, children: seq<Block>)
    | UpdatePage(pageId: string, properties: Properties, archived: Option<bool>)
    | Sleep(seconds: real)
}
