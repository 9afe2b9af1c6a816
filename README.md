# Google Keep and Apple Notes to Notion: a Dafny model

The repository moves notes from Google Keep and Apple Notes into a Notion database. It
does this in two forms:

- a small package: the parsers, a formatter and an uploader class;
- a set of stand-alone scripts: sync, duplicate cleanup, timestamp back-fill and relabelling.

This project models the logic between the outside services and the Notion payloads:

- which note records the parsers produce;
- how a record becomes page properties and content blocks;
- how the scripts decide to create, skip, archive or patch a page;
- how every loop tallies its items.

The Notion client, the Keep API, SQLite, gzip and the file system stay outside the model. What
they return goes in as parameters:

- listings of entries;
- decoded JSON;
- search responses with `has_more` and `next_cursor`;
- functions that say whether a given create or update call succeeds.

What the code asks of Notion comes back as a list of `Call`s: creates, searches, updates
and pauses. That makes "no create call", "only `Labels` is sent" and "no pause after the
last upload" statable properties.

Modules, one per source file, plus shared ones:

| module | models |
|---|---|
| `Wrappers`, `Text`, `Notion`, `Notes`, `Tally` | Option/Result, the Python string operations used (`[:n]`, `replace`, `split`/`join`, `strip`), the API shapes, the note records, outcome counting |
| `NotionQueries` | pagination and database filtering (`get_all_pages`), page titles, the title-only existence check; these are repeated verbatim in several scripts and defined once here |
| `NotionFormatter` | `notion_formatter.py` |
| `NotionUploader` | `notion_uploader.py` (class `Uploader` with its `database_id` field) |
| `AppleCalendar`, `AppleDb` | `apple_notes_parser.py`, including the 2001-01-01 epoch and `isoformat()` |
| `KeepApi` | `google_keep_parser.py` |
| `KeepExport` | `src/parser.py` |
| `AppleExport` | `src/apple_notes_parser.py` |
| `SyncPages`, `KeepSync`, `AppleSync` | `src/notion_sync.py`, `src/apple_notes_sync.py` |
| `CleanupDuplicates` | `src/cleanup_duplicates.py` |
| `UpdateTimestamps` | `src/update_timestamps.py` |
| `UpdateLabels` | `src/update_apple_notes_labels.py` |

Each loop in the source is a method with a `for` or `while` loop. The method is proved equal
to a specification function over the inputs; that function is defined from the back of the
sequence. The properties the code promises are then lemmas about those functions.

Where the code and its documentation differ, the model follows the code:

- An Apple offset of exactly `0` is falsy in `if created:`. It gives no timestamp, not `2001-01-01T00:00:00`.
- The page title lookup in `update_timestamps.py` and `cleanup_duplicates.py` raises when the first title element has no `plain_text`. Such an exception is not caught there, so the script stops.
- `find_apple_notes` raises on an empty title list, and so does the script.
- The existence check returns `False` when a result in the database has a first title element with no `plain_text`. The `KeyError` goes to the `except` clause, so the check answers "not found" even if a later result would match.

## Model

| member | source | states |
|---|---|---|
| `NotionFormatter.FormatNote` | notion_formatter.py:17-154 | the formatted note is exactly the specification `FormattedNote`: properties built key by key, then paragraphs, to-dos and URL |
| `NotionFormatter.BuildProperties` | notion_formatter.py:28-88 | the properties built by the chain of conditional insertions equal `NoteProperties` |
| `NotionFormatter.PropertiesAlways` | notion_formatter.py:29-44 | `Title` and `Source` are always present; the title is the note's title, or `Untitled` when missing, and is not truncated; the source defaults to `Unknown` |
| `NotionFormatter.PropertiesOptional` | notion_formatter.py:46-88 | `Created`/`Updated` are present iff the timestamp is truthy; `Archived`/`Pinned` iff the flag is not `None` (so `false` is emitted); `Color` iff truthy; `Tags` iff there are labels, holding the label list in order; each holds the note's value |
| `NotionFormatter.PropertiesKnown` | notion_formatter.py:29-88 | no property outside the eight known names is ever emitted |
| `NotionFormatter.AppendParagraphs` | notion_formatter.py:94-113 | the paragraph loop appends exactly the paragraph blocks of the lines |
| `NotionFormatter.AppendToDos` | notion_formatter.py:116-132 | the checklist loop appends exactly the to-do blocks of the items |
| `NotionFormatter.NonBlankLines` | notion_formatter.py:97-99 | the retained lines are no more than the lines, and every one is non-blank after `strip()` |
| `NotionFormatter.ParagraphsOfLines` | notion_formatter.py:94-113 | one paragraph per non-blank line, in order, holding the unstripped line cut to its first 2000 characters |
| `NotionFormatter.ParagraphsBounded` | notion_formatter.py:108 | every content block is a paragraph of at most 2000 characters |
| `NotionFormatter.ParagraphBlocksAppend` | notion_formatter.py:97-113 | the paragraphs of two runs of lines are the two runs' paragraphs in order |
| `NotionFormatter.ToDoBlocks` | notion_formatter.py:116-132 | one to-do per item in order, text cut to 2000 characters, `checked` defaulting to false |
| `NotionFormatter.ShortLinesKept` | notion_formatter.py:97-108 | lines that are non-blank and within the limit come out as paragraph texts unchanged |
| `NotionFormatter.ContentRoundTrip` | notion_formatter.py:94-113 | content with no blank or over-long line is carried whole: joining the paragraph texts with newlines gives it back |
| `NotionFormatter.ChildrenLayout` | notion_formatter.py:90-154 | children are all paragraphs, then all to-dos, then the URL paragraph `URL: ` + url, present iff the url is truthy, untruncated and last |
| `NotionFormatter.FormatNotes` | notion_formatter.py:156-167 | same length as the input, element `k` is the formatted note `k` |
| `NotionFormatter.Texts` | notion_formatter.py:100-149 | one text per block, in order |
| `Notion.Named` | notion_formatter.py:85-87 | one `{"name": label}` entry per label, in order, each naming its label |
| `NotionUploader.Uploader.constructor` | notion_uploader.py:15-25 | a new uploader has no database id |
| `NotionUploader.Uploader.CreateNotesDatabase` | notion_uploader.py:27-105 | one database creation is asked for under the parent page; the id becomes the uploader's database only on success, and on failure the result is `None` and the field is unchanged |
| `NotionUploader.Uploader.SetDatabaseId` | notion_uploader.py:173-180 | the field holds the given id |
| `NotionUploader.Uploader.UploadNote` | notion_uploader.py:107-136 | without a database nothing is sent and the result is false; a note without properties fails before any call; otherwise one page creation with the note's properties and its children or `[]`, succeeding as the client does |
| `NotionUploader.Uploader.UploadNotes` | notion_uploader.py:138-171 | without a database both counts are zero and nothing is sent; otherwise success plus failed is the number of notes, success counts the accepted uploads, and the calls are the uploads with pauses between them |
| `NotionUploader.Successes` | notion_uploader.py:159-164 | no more successes than uploads |
| `NotionUploader.SleepsBetween` | notion_uploader.py:166-168 | after `i` iterations there have been `i` pauses, or `i - 1` once the last note is done |
| `NotionUploader.UploadRunPauses` | notion_uploader.py:156-168 | a whole run pauses once fewer than there are notes, and the last note's upload is the last call |
| `NotionUploader.SleepsAppend` | notion_uploader.py:166-168 | pauses of a concatenation add up |
| `NotionUploader.SleepsAtMostOne` | notion_uploader.py:166-168 | a single call is a pause or not |
| `NotionUploader.CreationsAppend` | notion_uploader.py:156-168 | the non-pause calls of a concatenation are those of its parts |
| `NotionUploader.UploadsInOrder` | notion_uploader.py:156-168 | leaving out the pauses, the calls are the notes' page creations in list order, one per note with properties |
| `AppleCalendar.FromOffset` | apple_notes_parser.py:84 | a converted offset is a valid calendar time (years 1 to 9999, real month lengths, leap years) |
| `AppleCalendar.FromOffsetRoundTrip` | apple_notes_parser.py:84 | the converted time lies exactly `offset` seconds after 2001-01-01T00:00:00 |
| `AppleCalendar.FromOffsetRange` | apple_notes_parser.py:84 | the conversion fails (`OverflowError`) exactly for offsets below -63113904000 or above 252423993599 seconds |
| `AppleCalendar.RangeEnds` | apple_notes_parser.py:84 | those two bounds are the offsets of 0001-01-01T00:00:00 and 9999-12-31T23:59:59, the first and last whole seconds `datetime` can hold |
| `AppleCalendar.LocatedAfterYearZero` | apple_notes_parser.py:84 | a day count lands in year 1 or later exactly when it is not before 0001-01-01 |
| `AppleCalendar.LocatedBeforeYear10000` | apple_notes_parser.py:84 | a day count lands in year 9999 or earlier exactly when it is before 10000-01-01 |
| `AppleCalendar.DaysBeforeYearGrows` | apple_notes_parser.py:84 | later years start later, by at least 365 days a year |
| `AppleCalendar.Locate` | apple_notes_parser.py:84 | the year found for a day count holds that day |
| `AppleCalendar.LocateMonth` | apple_notes_parser.py:84 | the month and day found for a day of the year lie within the year |
| `AppleCalendar.MonthsFillYear` | apple_notes_parser.py:84 | the twelve month lengths add up to the year's length |
| `AppleCalendar.YearStep` | apple_notes_parser.py:84 | consecutive years differ by that year's length in days |
| `AppleCalendar.IsoRoundTrip` | apple_notes_parser.py:85 | `isoformat()` of a whole-second time has the layout `YYYY-MM-DDTHH:MM:SS`, and its six fields read back as the time's year, month, day, hour, minute and second |
| `AppleCalendar.ParseIsoRoundTrip` | apple_notes_parser.py:85 | conversely, a text in that layout whose fields form a valid time is that time's rendering, so the rendering is one to one |
| `AppleCalendar.Pad2` | apple_notes_parser.py:85 | two digits that read back as the number |
| `AppleCalendar.Pad2OfDecimal` | apple_notes_parser.py:85 | padding the number two digits spell gives those digits back |
| `AppleCalendar.Pad4` | apple_notes_parser.py:85 | four digits that read back as the number |
| `AppleCalendar.Pad4OfDecimal` | apple_notes_parser.py:85 | padding the number four digits spell gives those digits back |
| `AppleCalendar.DecimalAppend2` | apple_notes_parser.py:85 | two more digits shift the number read two places |
| `AppleDb.AppleIso` | apple_notes_parser.py:79-89 | a missing or zero offset gives no timestamp; otherwise the conversion succeeds exactly when the date is in range, and the text is the ISO form of the converted time |
| `AppleDb.OneDayAfterEpoch` | apple_notes_parser.py:84-85 | offset 86400 reads `2001-01-02T00:00:00` |
| `AppleDb.SecondDayOf2001` | apple_notes_parser.py:84 | offset 86400 converts to 2 January 2001, midnight |
| `AppleDb.ReadTimestamp` | apple_notes_parser.py:79-89 | the per-date conversion in the loop succeeds and yields text exactly as `AppleIso` says |
| `AppleDb.RowContentAsWritten` | apple_notes_parser.py:92-103 | as written, reading a row's content fails exactly when the blob is truncated, which no handler catches |
| `AppleDb.RowContent` | apple_notes_parser.py:92-103 | the intended content: the decoded text when the blob inflates, otherwise `snippet or ''` |
| `AppleDb.ReadRow` | apple_notes_parser.py:76-117 | the loop body succeeds exactly when the row's note can be built, and then yields it |
| `AppleDb.GetNotes` | apple_notes_parser.py:38-128 | a missing database or a failing query gives `[]`; otherwise the notes of all rows, or `[]` as soon as one row raises |
| `AppleDb.ParseAppleNotes` | apple_notes_parser.py:131-142 | the same as `get_notes` for the path |
| `AppleDb.AllOrNothing` | apple_notes_parser.py:123-128 | the rows give notes exactly when no row raises: never a partial list |
| `AppleDb.OneNotePerRow` | apple_notes_parser.py:75-117 | when the rows give notes, one per row in row order |
| `AppleDb.OneFailureLosesAll` | apple_notes_parser.py:126-128 | one row that raises loses every note |
| `AppleDb.RecordFields` | apple_notes_parser.py:105-115 | title or `Untitled`, source `Apple Notes`, archived and pinned false, no colour, no labels, a timestamp exactly when the offset is truthy |
| `AppleDb.GatherIff` | apple_notes_parser.py:75-121 | a run of row results gathers exactly when none fails |
| `AppleDb.GatherValues` | apple_notes_parser.py:75-121 | a gathered run has one value per result, in order |
| `AppleDb.GatherStep` | apple_notes_parser.py:75-117 | one more row extends the gathered notes or fails them |
| `AppleDb.RowResults` | apple_notes_parser.py:75-117 | one result per row, in order |
| `AppleDb.RowNoteIntended` | apple_notes_parser.py:94-103 | with the intended fallback, a row fails only when a timestamp is out of range |
| `AppleDb.IntendedFallback` | apple_notes_parser.py:94-103 | the intended note equals the as-written one whenever that exists, and a truncated blob falls back to the snippet |
| `AppleDb.RowResultsIntended` | apple_notes_parser.py:75-117 | one intended result per row, in order |
| `AppleDb.IntendedKeepsEveryRow` | apple_notes_parser.py:94-117 | with the intended fallback, the rows give notes exactly when every timestamp converts, whatever the blobs; then one note per row, in order |
| `AppleDb.IntendedAgreesWhenNothingRaises` | apple_notes_parser.py:94-117 | wherever the code as written returns notes, the intended code returns the same notes |
| `AppleDb.TruncatedBlobLosesEveryNote` | apple_notes_parser.py:96-103 | a good row plus a row with a truncated blob: as written, no note at all is returned |
| `AppleDb.TruncatedBlobKeptAsIntended` | apple_notes_parser.py:96-103 | the same two rows as intended: both give their note, the second with its snippet as content |
| `KeepApi.GetNotes` | google_keep_parser.py:41-89 | a failing fetch gives `[]`; otherwise the records of the notes that are not trashed, in API order |
| `KeepApi.CopyItems` | google_keep_parser.py:73-80 | the checklist loop copies each item's text and checked state, in order |
| `KeepApi.ParseGoogleKeep` | google_keep_parser.py:92-109 | a failed login gives `[]` with no fetch; otherwise what `get_notes` returns |
| `KeepApi.ItemRecords` | google_keep_parser.py:75-79 | one checklist entry per item, in order |
| `KeepApi.Untrashed` | google_keep_parser.py:54-57 | every note retained is one of the input's and not trashed |
| `KeepApi.UntrashedKeeps` | google_keep_parser.py:54-57 | no note that is not trashed is dropped |
| `KeepApi.KeptRecordsCount` | google_keep_parser.py:54-82 | one record per untrashed note, in order, each that note's record |
| `KeepApi.RecordFields` | google_keep_parser.py:59-80 | title or `Untitled`, source `Google Keep`, a checklist exactly when there are items, of the same length and order, copying text and checked |
| `KeepExport.Field.Get` | src/parser.py:13-18 | `dict.get(key, default)` gives `None` exactly when the key holds `null`, the default when it is missing |
| `KeepExport.LabelNames` | src/parser.py:18-19 | the names succeed exactly when every label has a `name` key, and are then one per label, in order: `None` where the name is `null`, the name itself otherwise |
| `KeepExport.ChecklistLine` | src/parser.py:23 | the line is the box `[x] ` when `checked` holds true and `[ ] ` otherwise, followed by the text, `''` when it is missing and `None` when it is `null` |
| `KeepExport.ChecklistLines` | src/parser.py:23 | one line per item, in order |
| `KeepExport.ParseKeepJson` | src/parser.py:8-35 | fails exactly when `labels` or `listContent` holds `null`, a label has no `name`, or a truthy timestamp is one `datetime.fromtimestamp` cannot render; the title is the non-empty title or `Untitled`; the content is the rendered checklist when `listContent` is present, else `textContent`, `''` when missing and `None` when `null`; the labels are the names, `[]` when the key is missing; a date exactly when the timestamp is present and non-zero, rendered by the local clock |
| `KeepExport.UnrenderableDateFails` | src/parser.py:27-28 | a non-zero timestamp the clock cannot render fails the file; a zero or `null` timestamp leaves it undated |
| `KeepExport.NullIsNotMissing` | src/parser.py:13-23 | a key holding `null` behaves as Python's `get` makes it: `labels` or `listContent` `null` fails, `textContent` `null` gives no content, a `null` item text renders `[ ] None`, a `null` label name is kept |
| `KeepExport.EmptyChecklist` | src/parser.py:22-24 | an empty checklist renders as `''` |
| `KeepExport.LineHasNoNewline` | src/parser.py:23 | a rendered line has a newline only where the item's text has one |
| `KeepExport.SplitRenderedChecklist` | src/parser.py:22-24 | splitting the rendered checklist on newlines gives one line per item, in order, each with its box: no trailing newline |
| `AppleExport.FirstMarkdown` | src/apple_notes_parser.py:23-27 | the position found is a `.md` entry and no earlier entry is one |
| `AppleExport.FirstMarkdownAt` | src/apple_notes_parser.py:23-27 | a `.md` entry with no earlier one is the one found |
| `AppleExport.FindMarkdown` | src/apple_notes_parser.py:23-27 | the `for`/`break` loop stops at the first `.md` entry |
| `AppleExport.AppleExportNote` | src/apple_notes_parser.py:7-46 | a note exactly when the folder can be listed |
| `AppleExport.ParseAppleNote` | src/apple_notes_parser.py:7-46 | the loop-and-reassign version equals the specification of a parsed folder |
| `AppleExport.ExportContent` | src/apple_notes_parser.py:29-39 | content is `''` with no `.md` entry; otherwise the first one's text stripped, or `''` when reading it fails; it never begins or ends with white space |
| `AppleExport.ExportFields` | src/apple_notes_parser.py:18-46 | title is the folder name or `Untitled`, labels `["Apple Notes"]`, no date |
| `AppleExport.GetAllAppleNotes` | src/apple_notes_parser.py:49-71 | a missing root gives `[]`; otherwise the notes of the visible entries that parse, in listing order |
| `AppleExport.Parsed` | src/apple_notes_parser.py:58-69 | every entry retained is a directory without a leading dot that can be listed |
| `AppleExport.ExportedFromParsed` | src/apple_notes_parser.py:58-69 | one note per retained entry, in listing order, that entry's parsed folder |
| `AppleExport.ParsedComplete` | src/apple_notes_parser.py:58-69 | no visible, listable entry is dropped |
| `NotionQueries.GetAllPages` | src/cleanup_duplicates.py:14-45 | the cursor loop returns `FetchedPages` and makes the searches `SearchCalls`; the first search has no cursor and each next one passes the previous `next_cursor` |
| `NotionQueries.AppendInDatabase` | src/cleanup_duplicates.py:36-39 | the inner loop appends exactly the results whose parent is the database, in order |
| `NotionQueries.FetchedInDatabase` | src/update_timestamps.py:26-43 | every page returned belongs to the database once hyphens are removed on both sides, and was a search result |
| `NotionQueries.CollectInDatabase` | src/update_timestamps.py:26-43 | the same, for the loop state at any response |
| `NotionQueries.FetchedAllInOrder` | src/cleanup_duplicates.py:25-43 | the pages returned are exactly the in-database results of the responses up to the first `has_more` false, concatenated in fetch order; every such result is returned |
| `NotionQueries.CollectFlat` | src/update_timestamps.py:26-43 | the same for the loop state from any response on, after what it already holds |
| `NotionQueries.Flat` | src/cleanup_duplicates.py:36 | every result of every response is in the concatenation |
| `NotionQueries.FetchStopsAtLastPage` | src/cleanup_duplicates.py:25-43 | nothing after the first response with `has_more` false is read, and there is one search per response up to it |
| `NotionQueries.CollectStopsAtLast` | src/cleanup_duplicates.py:25-43 | the same, from any response on |
| `NotionQueries.InDatabasePages` | src/cleanup_duplicates.py:36-39 | no more pages retained than results |
| `NotionQueries.InDatabasePagesComplete` | src/cleanup_duplicates.py:36-39 | every page in the database among the results is retained |
| `NotionQueries.InDatabasePagesSound` | src/cleanup_duplicates.py:36-39 | every page retained is in the database and among the results |
| `NotionQueries.InDatabasePagesAppend` | src/cleanup_duplicates.py:36-39 | filtering a concatenation filters each part, in order |
| `NotionQueries.PageTitle` | src/update_timestamps.py:48-53 | `''` when the title property is missing or empty, otherwise the first element's `plain_text` (none when it is missing, where the lookup raises) |
| `NotionQueries.TitleExists` | src/notion_sync.py:41-42 | a search that raises answers "not found" |
| `NotionQueries.ScanForTitleIff` | src/notion_sync.py:32-40 | the check says yes exactly when some result in the database has `title` as the exact text of its first title element and no earlier result in the database makes the lookup raise |
| `NotionQueries.WellFormedTitleExists` | src/apple_notes_sync.py:31-39 | when no lookup raises, the check is plain existence of an exact, database-scoped title match |
| `NotionQueries.ScanFound` | src/notion_sync.py:32-39 | a yes comes from a match preceded only by non-matches |
| `NotionQueries.ScanReaches` | src/notion_sync.py:32-39 | such a match gives a yes |
| `NotionQueries.FirstMatch` | src/notion_sync.py:32-39 | when no lookup raises, the first match comes no later than any match |
| `SyncPages.CheckIfNoteExists` | src/notion_sync.py:18-42 | the search loop with its early returns answers exactly `TitleExists` |
| `SyncPages.SyncPropertiesShape` | src/notion_sync.py:44-73 | a payload exists exactly when the content does (`content[:2000]` raises on `None`); it has exactly `Title`, `Content`, `Labels`: the title cut to its first 100 characters, the content to its first 2000, one label entry per label in order |
| `SyncPages.SyncNote` | src/notion_sync.py:104-119 | one pass: the search, then the create unless the title exists or the payload cannot be built; the outcome is skipped, synced or failed accordingly |
| `SyncPages.SkipMeansNoCreate` | src/notion_sync.py:105-119 | skipped exactly when the title exists, and then no create call; a note with no payload fails after its search alone; otherwise a search followed by one create; synced exactly when not found, with a payload, and the create succeeds |
| `SyncPages.FailOpen` | src/apple_notes_sync.py:40-41 | when the search raises, the note is created when it has a payload, or fails |
| `SyncPages.CreatedTitleFoundIff` | src/notion_sync.py:36-56 | as written, the page created for a title is found by the next run's check exactly when the title has at most 100 characters, and only then is the note skipped |
| `SyncPages.LongTitleNeverFound` | src/notion_sync.py:36-56 | a title over 100 characters matches no result whose stored title has at most 100, whatever the search returns |
| `SyncPages.LongTitleRecreated` | src/notion_sync.py:36-56 | as written, a 101-character title whose page is already in the database is created again |
| `SyncPages.TitleExistsIntended` | src/notion_sync.py:36-56 | the intended check never matches when the search raised |
| `SyncPages.IntendedFindsCreatedPage` | src/notion_sync.py:36-56 | with the intended comparison, the page created for any title is found again, so a second run creates nothing new; for titles of at most 100 characters it answers as the check as written |
| `SyncPages.LongTitleKeptAsIntended` | src/notion_sync.py:36-56 | the page of the 101-character title is found by the intended check |
| `KeepSync.SyncNotesToNotion` | src/notion_sync.py:92-128 | the three counters count the outcomes of the `.json` files and the calls are those of the run |
| `KeepSync.SyncFile` | src/notion_sync.py:101-123 | a file that does not parse fails with no call; otherwise the check-and-create pass with its properties |
| `KeepSync.KeepPropertiesShape` | src/notion_sync.py:44-81 | a payload exists exactly when the content does; `Created Date` is present exactly when the date is truthy and holds it; the rest are the three common properties |
| `KeepSync.JsonFiles` | src/notion_sync.py:99-100 | only entries ending in `.json` are processed |
| `KeepSync.OutcomePerJsonFile` | src/notion_sync.py:99-123 | one outcome per `.json` file, in listing order, its own |
| `KeepSync.CountersPartition` | src/notion_sync.py:95-123 | synced, skipped and failed sum to the number of `.json` files |
| `KeepSync.RunsCompose` | src/notion_sync.py:121-123 | processing continues after any file: the outcomes of two listings are those of each in turn |
| `KeepSync.CallsCompose` | src/notion_sync.py:99-123 | the calls of two listings are those of each in turn |
| `KeepSync.FileEffects` | src/notion_sync.py:101-123 | a parse failure fails with no call; a skip made only the search; a file whose content is `None` fails after the search alone; a sync made the search and one create with the note's properties |
| `AppleSync.SyncAppleNotesToNotion` | src/apple_notes_sync.py:82-123 | no note found means zero counters and no call at all; otherwise the counters count the notes' outcomes and the calls are those of the loop |
| `AppleSync.SyncAll` | src/apple_notes_sync.py:98-118 | the loop's counters and calls are those of the notes in list order |
| `AppleSync.CountersPartition` | src/apple_notes_sync.py:85-118 | one outcome per note; the three counters sum to the number of notes |
| `AppleSync.SearchesInOrder` | src/apple_notes_sync.py:98-101 | the searches are for the notes' titles, one per note, in list order |
| `AppleSync.SearchedTitlesAppend` | src/apple_notes_sync.py:98-101 | the queries of a concatenation are those of the parts |
| `AppleSync.Titles` | src/apple_notes_sync.py:101 | one title per note, in order |
| `AppleSync.NoDateProperty` | src/apple_notes_sync.py:43-80 | every page created has exactly `Title`, `Content` and `Labels`, in the configured database, with no blocks: never a date |
| `CleanupDuplicates.ExtractPageInfo` | src/cleanup_duplicates.py:47-65 | succeeds exactly when both first-element lookups do, with the page's id |
| `CleanupDuplicates.PageInfoFields` | src/cleanup_duplicates.py:47-65 | title and content are `''` when the property is missing or its list empty, otherwise the first element's text |
| `CleanupDuplicates.InfosOfPages` | src/cleanup_duplicates.py:71-74 | every extraction succeeds exactly when the infos exist, and then there is one per page, in order |
| `CleanupDuplicates.FindDuplicates` | src/cleanup_duplicates.py:67-78 | no result exactly when an extraction raises; otherwise the groups `Duplicates` of the infos |
| `CleanupDuplicates.GroupIds` | src/cleanup_duplicates.py:69-74 | `seen` has exactly the keys met, in first-occurrence order, each holding the ids of its pages in page order |
| `CleanupDuplicates.SelectDuplicates` | src/cleanup_duplicates.py:77 | the comprehension keeps the keys with more than one id, in `seen`'s order |
| `CleanupDuplicates.IdsOf` | src/cleanup_duplicates.py:71-74 | no more ids under a key than pages |
| `CleanupDuplicates.IdsOfStep` | src/cleanup_duplicates.py:72-74 | one more page appends its id under its key and adds its key when new |
| `CleanupDuplicates.DupGroups` | src/cleanup_duplicates.py:77 | every group has at least two ids, the ids of its key in page order |
| `CleanupDuplicates.Duplicates` | src/cleanup_duplicates.py:67-78 | every group has at least two ids, those of its key's pages in page order |
| `CleanupDuplicates.FirstKeysDistinct` | src/cleanup_duplicates.py:69-74 | no key is listed twice |
| `CleanupDuplicates.FirstKeysIff` | src/cleanup_duplicates.py:69-74 | a key is listed exactly when some page has it |
| `CleanupDuplicates.DupGroupsDistinct` | src/cleanup_duplicates.py:77 | groups of distinct keys have distinct keys |
| `CleanupDuplicates.DupGroupsComplete` | src/cleanup_duplicates.py:77 | every listed key with more than one id has its group |
| `CleanupDuplicates.DuplicateKeysDistinct` | src/cleanup_duplicates.py:77 | no key has two groups |
| `CleanupDuplicates.DuplicatesComplete` | src/cleanup_duplicates.py:67-78 | every key shared by two or more pages has its group |
| `CleanupDuplicates.IdsOfSource` | src/cleanup_duplicates.py:71-74 | every id under a key is the id of a page with that (title, content) |
| `CleanupDuplicates.IdsOfDistinct` | src/cleanup_duplicates.py:71-74 | with distinct page ids, the ids under a key are distinct |
| `CleanupDuplicates.SharedIdSameKey` | src/cleanup_duplicates.py:71-74 | with distinct page ids, no page id is under two keys |
| `CleanupDuplicates.ArchivedSource` | src/cleanup_duplicates.py:96-104 | every archived id is a non-first id of some group |
| `CleanupDuplicates.KeptNeverArchived` | src/cleanup_duplicates.py:96-104 | with distinct page ids, the kept first id of a group is never archived |
| `CleanupDuplicates.AttemptsCount` | src/cleanup_duplicates.py:96-108 | archive attempts number the sum over the groups of their size less one |
| `CleanupDuplicates.ArchiveCalls` | src/cleanup_duplicates.py:104 | one update per id, in order, archiving it and changing no property: a soft delete |
| `CleanupDuplicates.Archived` | src/cleanup_duplicates.py:102-108 | no more successes than attempts |
| `CleanupDuplicates.ArchiveAppend` | src/cleanup_duplicates.py:93-108 | calls and successes of two runs of ids add up |
| `CleanupDuplicates.ArchiveEach` | src/cleanup_duplicates.py:102-108 | the inner loop makes one archive call per id, counting only the successful ones, and goes on after a failure |
| `CleanupDuplicates.ArchiveGroups` | src/cleanup_duplicates.py:93-110 | the outer loop archives exactly all but the first id of every group, group by group |
| `CleanupDuplicates.Cleanup` | src/cleanup_duplicates.py:80-113 | stops when an extraction raises, after the searches only; otherwise the searches followed by the archive calls for all non-first ids, `total_deleted` counting the successful ones |
| `CleanupDuplicates.DeletedBounded` | src/cleanup_duplicates.py:102-108 | deletions are at most the attempts, and there is one call per attempt |
| `CleanupDuplicates.NoDuplicatesNoCalls` | src/cleanup_duplicates.py:85-87 | no groups exactly when no key is shared by two pages, and then no archive call |
| `UpdateTimestamps.CreateJsonTitleMap` | src/update_timestamps.py:55-73 | the map filled in place equals `TitleMap` of the entries |
| `UpdateTimestamps.DatedTitles` | src/update_timestamps.py:60-68 | one candidate per entry, in listing order |
| `UpdateTimestamps.AssignKeys` | src/update_timestamps.py:67-68 | a title is in the map exactly when some assignment sets it |
| `UpdateTimestamps.AssignLastWins` | src/update_timestamps.py:67-68 | a title's value is that of the last assignment to it |
| `UpdateTimestamps.TitleMapLastWins` | src/update_timestamps.py:60-68 | a title is a key exactly when some `.json` file that parses has it with a truthy date, and the value is the date of the last such file in listing order |
| `UpdateTimestamps.UnsetLeavesMap` | src/update_timestamps.py:67-70 | an assignment that sets nothing changes nothing in the map |
| `UpdateTimestamps.UndatedLeavesMap` | src/update_timestamps.py:61-70 | a file that is not `.json`, fails to parse or has no date leaves every other entry of the map as it is |
| `UpdateTimestamps.Reached` | src/update_timestamps.py:90-92 | the loop gets through every page up to the first whose title lookup raises |
| `UpdateTimestamps.Outcomes` | src/update_timestamps.py:90-117 | one outcome per page |
| `UpdateTimestamps.Update` | src/update_timestamps.py:75-122 | completes exactly when no title lookup raises; the counters count the outcomes of the pages reached; the calls are the searches followed by the updates of those pages |
| `UpdateTimestamps.UpdatePages` | src/update_timestamps.py:90-117 | the update loop, ending at the first unreadable title, counts and calls as `Outcomes` and `UpdateCalls` say |
| `UpdateTimestamps.UpdateOne` | src/update_timestamps.py:91-117 | a title without a date is skipped with no call; otherwise one update, counted as updated or failed as the client answers |
| `UpdateTimestamps.CountersPartition` | src/update_timestamps.py:86-117 | updated, skipped and failed sum to the number of pages reached |
| `UpdateTimestamps.OutcomeOfPage` | src/update_timestamps.py:95-117 | the outcome of page `k` is that page's own: updated or failed exactly when its title has a date |
| `UpdateTimestamps.UpdatesOnlyCreatedDate` | src/update_timestamps.py:95-108 | every update is for a page whose title has a date, sets only `Created Date` to that date, and archives nothing |
| `UpdateTimestamps.UpdateCallCount` | src/update_timestamps.py:95-114 | the update calls number the updated plus the failed pages: one per page with a dated title, and a failure does not stop the loop |
| `UpdateLabels.NoteTitle` | src/update_apple_notes_labels.py:37 | fails exactly when the title list is empty; `Untitled` when the property is missing or has no `plain_text` |
| `UpdateLabels.Matching` | src/update_apple_notes_labels.py:28-34 | every page retained is in the database, carries `Apple Notes`, and is a result |
| `UpdateLabels.FindAppleNotes` | src/update_apple_notes_labels.py:16-41 | the loop returns exactly `FoundNotes` of the results |
| `UpdateLabels.FoundNoneStays` | src/update_apple_notes_labels.py:28-39 | once a title lookup has raised, later results change nothing |
| `UpdateLabels.AllReadableAppend` | src/update_apple_notes_labels.py:35-39 | a list of kept pages is readable exactly when its parts are |
| `UpdateLabels.FoundNotesSomeIff` | src/update_apple_notes_labels.py:28-39 | the search gives notes exactly when every kept page has a readable title |
| `UpdateLabels.FoundNotesPerPage` | src/update_apple_notes_labels.py:28-39 | one note per kept page, in result order, with its id, its title and all its label names |
| `UpdateLabels.Without` | src/update_apple_notes_labels.py:46 | the dropped label does not remain |
| `UpdateLabels.WithoutAppend` | src/update_apple_notes_labels.py:46 | the filter of a concatenation is the filters of its parts |
| `UpdateLabels.WithoutCounts` | src/update_apple_notes_labels.py:46 | every other label is kept as often as before |
| `UpdateLabels.NewLabelsShape` | src/update_apple_notes_labels.py:46-47 | length is the old length less the `Apple Notes` labels plus one; `source` is last even when already there; no `Apple Notes` remains; every other label kept as often as before |
| `UpdateLabels.NewLabelsKeepOrder` | src/update_apple_notes_labels.py:46-47 | the other labels keep their relative order |
| `UpdateLabels.LabelCalls` | src/update_apple_notes_labels.py:50-57 | one update per note, in order, sending exactly `Labels` with the new labels |
| `UpdateLabels.OnlyLabelsSent` | src/update_apple_notes_labels.py:50-57 | each update goes to the note's page, sends only `Labels` and archives nothing |
| `UpdateLabels.Outcomes` | src/update_apple_notes_labels.py:71-78 | one outcome per note |
| `UpdateLabels.Relabel` | src/update_apple_notes_labels.py:59-82 | one search; stops when a title lookup raises; no notes found means zero counters; otherwise the counters count the update outcomes and the calls are the search and one update per note |
| `UpdateLabels.UpdateAll` | src/update_apple_notes_labels.py:71-78 | the loop makes one update per note and counts each as updated or failed |
| `UpdateLabels.UpdatedPlusFailed` | src/update_apple_notes_labels.py:68-78 | updated plus failed is the number of notes found, and nothing is skipped |
| `UpdateLabels.NeverSkipped` | src/update_apple_notes_labels.py:71-78 | no note is counted as skipped |
| `Tally.CountsPartition` | src/notion_sync.py:95-123 | every item is counted under exactly one of the three outcomes |
| `Tally.CountStep` | src/notion_sync.py:105-123 | one more outcome raises its own counter by one and leaves the others |
| `Tally.Count` | src/notion_sync.py:95-123 | a count is at most the number of items |
| `Text.Prefix` | src/notion_sync.py:56-65 | `s[:n]` is a prefix of `s` of length min(len(s), n) |
| `Text.Remove` | src/notion_sync.py:22 | `replace('-', '')` leaves no hyphen |
| `Text.RemoveKeepsOthers` | src/notion_sync.py:22 | every other character keeps its count; the length drops by the hyphens |
| `Text.RemoveAbsent` | src/notion_sync.py:22 | an id with no hyphen is unchanged |
| `Text.RemoveIdempotent` | src/notion_sync.py:22 | normalising twice is normalising once |
| `Text.Split` | notion_formatter.py:97 | `split('\n')` gives at least one part, none holding a newline |
| `Text.Join` | src/parser.py:24 | joining no parts gives `''`, one part gives that part |
| `Text.JoinSplit` | notion_formatter.py:97 | joining the parts of a split gives back the string |
| `Text.SplitJoin` | src/parser.py:24 | splitting a join of newline-free parts gives back the parts |
| `Text.StripEnds` | src/apple_notes_parser.py:39 | `strip()` leaves no white space at either end |
| `Text.StripSurroundedBySpace` | src/apple_notes_parser.py:39 | the text is its stripped form with white space only around it |
| `Text.StripEmpty` | notion_formatter.py:99 | `strip()` is empty exactly when every character is white space |
| `Text.TrimStartSpec` | src/apple_notes_parser.py:39 | leading white space is dropped up to the first other character |
| `Text.TrimEndSpec` | src/apple_notes_parser.py:39 | trailing white space is dropped back to the last other character |

## Left out

- I/O and the services are parameters, not calls:
  - the Notion client, `gkeepapi`, `sqlite3`, `gzip`, `open`, `os.listdir`, `os.path.exists`/`isdir`, `load_dotenv`;
  - their results go in as parameters: listings, decoded JSON, rows with each blob's decompression result, search responses, success functions for create and update calls.
- All `print` output is left out. So are the SQL query and its `ORDER BY`: the rows come in already in query order.
- Success functions are of two kinds. Some are indexed by position: uploads, creates, relabel updates. Others are keyed by page id: timestamp updates, archiving. A client whose answer depends on anything else is not modelled.
- `KeepExport.ParseKeepJson`: JSON keys holding a value of another type than the one the parser expects (a number as `title`, a string as `labels`) are not modelled.
- `KeepExport.ParseKeepJson`: `datetime.fromtimestamp(micros / 1000000).isoformat()` is a parameter `localIso`, `None` where the call raises. Its text and its range depend on the local time zone, the platform and float division. So the model states which files get a date or fail, not the date's text or the exact range.
- `AppleCalendar.FromOffset`: offsets are whole seconds. Core Data stores floats, and `isoformat()` would then print a fraction.
- Time is not modelled. `time.sleep` is recorded as a `Sleep` call, and the delay is a real number.
- `main.py`, `src/test_create.py` and `src/validate_notion.py` are not part of this model. They are argument parsing, configuration and live checks of the API.
- Some script and module code runs outside any function and is not modelled:
  - the directory loop of `src/parser.py`. It also runs whenever `src/notion_sync.py` or `src/update_timestamps.py` imports that module, so one `.json` file that fails to parse stops either script at import, before its per-file `try`; the model starts both scripts after a successful import;
  - the environment checks that raise at import;
  - the `input()` confirmation of the cleanup script.
- `NotionUploader.Uploader.CreateNotesDatabase` and `NotionUploader.Uploader.UploadNotes`: the default arguments `title="Notes Database"` and `delay=0.3` are not modelled. The caller always passes the title and the delay.
- `NotionFormatter.FormatNote`: a checklist item without a `text` key, where `item['text']` raises `KeyError`, is not modelled: the parsers always store the key. Nor is an item whose `checked` holds `None`, which `get` passes through to the payload: the model reads it as `False`, like a missing key.
- The schema literal of `create_database` is a constant payload and is not modelled. The model records only that a database with the given title is created under the parent page.
- `page_size=100` is left out. Pagination is modelled by the responses themselves, whatever their size.
- A listing of the Takeout or Apple export root that raises is not modelled: the script stops before any note.
- `NotionQueries.GetAllPages`: a `notion.search` that raises is not modelled. The cleanup and timestamp scripts then stop before any archive or update call, with the searches made so far; the model's responses always answer.
- `find_apple_notes`:
  - a search that raises is not modelled: the script stops;
  - a label with no `name`, where the comprehension raises, is not modelled: a page carries its label names;
  - the script makes a single search and reads only its results, so no pagination is modelled.
- The Keep API note is reduced to attributes already read. That covers three things: a colour with no `name`, a missing `url` or `items` attribute, and the ISO text of its timestamps.
- `CleanupDuplicates.KeptNeverArchived`: it assumes distinct page ids (`DistinctIds`). The source relies on Notion to give each page one id.
- `NotionUploader.Uploader.UploadNotes`: a `formatted_note` with no `properties` key raises `KeyError` inside the `try` of `upload_note`. It counts as a failure with no call sent. A client that accepts a page yet raises afterwards is not distinguished.
- `SyncPages.SyncNote`: the sync scripts use the existence check as written, so a title over 100 characters is created again on every run (see Findings). The intended check is `TitleExistsIntended`, and `SyncPages.IntendedFindsCreatedPage` is proved about it.
- `AppleDb.GetNotes`: `check_database_exists` is the parameter `exists_`. The method follows the code as written, so a truncated blob loses every note (see Findings). The intended behaviour is `RowNotesIntended`, and `AppleDb.IntendedKeepsEveryRow` and `AppleDb.IntendedAgreesWhenNothingRaises` are proved about it.

## Findings

| source | as written | input that shows it | evidently intended | confidence | as-written member | corrected member |
|---|---|---|---|---|---|---|
| apple_notes_parser.py:96-103 | the blob handler catches `BadGzipFile`, `UnicodeDecodeError` and `OSError` only. A truncated gzip stream raises `EOFError` and corrupt deflate data raises `zlib.error`, neither of them an `OSError`. The exception escapes to the outer `except Exception` and `get_notes` returns `[]` | one good row plus one row whose blob is cut short: no note at all is returned | any decompression failure falls back to `snippet or ''`, as the comment on line 102 says, and every row still gives its note | not executed | `AppleDb.TruncatedBlobLosesEveryNote` | `AppleDb.IntendedKeepsEveryRow` |
| src/notion_sync.py:38 | the existence check compares the full title with the page's stored title, but the page was created with `title[:100]` (line 56); `src/apple_notes_sync.py` does the same at lines 37 and 55 | a note whose title has 101 characters, synced twice: the second run finds no match and creates a second page | compare against the title as it is stored, `title[:100]`, so that a second run creates nothing new | not executed | `SyncPages.CreatedTitleFoundIff` | `SyncPages.IntendedFindsCreatedPage` |
