/**
 * `AppleNotesParser`: rows of the Apple Notes database become note records.  The query, the
 * database connection and gzip are outside the model: the rows come in as a parameter, with
 * each data blob already mapped to what decompressing it does.
 */
module AppleDb {
  import opened Wrappers
  import opened Notes
  import opened AppleCalendar

  /** What `gzip.decompress(data).decode('utf-8', errors='ignore')` does with a non-empty blob. */
  datatype Unpacked =
    /** The blob decompressed; the decoded text (decoding drops bad bytes and cannot fail). */
    | Inflated(text: string)
    /** Bad gzip header or checksum: `BadGzipFile`, an `OSError`. */
    | BadGzip
    /** The stream ends early or its deflate data is corrupt: `EOFError` or `zlib.error`, neither an `OSError`. */
    | Truncated

  /**
   * A row of the query: the title (never `NULL`, the query requires it), the snippet, the
   * creation and modification offsets in whole seconds since 2001-01-01, and the data
   * blob (`None` when it is `NULL` or empty).
   */
  datatype Row = Row(id: int, title: string, snippet: Option<string>, created: Option<int>, modified: Option<int>, data: Option<Unpacked>)

  /**
   * The timestamp text for an offset: none when the offset is missing or zero, and a raise
   * when the date falls outside what `datetime` can hold.
   */
  function AppleIso(offset: Option<int>): (r: Result<Option<string>>)
    ensures offset.GetOr(0) == 0 ==> r == Success(None)
    ensures offset.GetOr(0) != 0 ==> (r.Success? <==> FromOffset(offset.value).Some?)
    ensures r.Success? && r.value.Some? ==> r.value.value == Iso(FromOffset(offset.value).value)
  {
    if offset.GetOr(0) == 0 then Success(None)
    else match FromOffset(offset.value)
      case None => Failure("OverflowError: date value out of range")
      case Some(t) => Success(Some(Iso(t)))
  }

  /** One day after the epoch reads as the second of January 2001, at midnight. */
  lemma OneDayAfterEpoch()
    ensures AppleIso(Some(86400)) == Success(Some("2001-01-02T00:00:00"))
  {
    SecondDayOf2001();
    var t := DateTime(2001, 1, 2, 0, 0, 0);
    assert Pad4(2001) == "2001";
    assert Pad2(1) == "01";
    assert Pad2(2) == "02";
    assert Pad2(0) == "00";
    assert Iso(t) == "2001-01-02T00:00:00";
  }

  lemma SecondDayOf2001()
    ensures FromOffset(86400) == Some(DateTime(2001, 1, 2, 0, 0, 0))
  {
    assert Locate(2001, 1) == (2001, 1);
    MonthsFillYear(2001);
    assert LocateMonth(2001, 1, 1) == (1, 2);
  }

  /** The content of a row as written: the inner handler does not catch a truncated stream, which then escapes. */
  function RowContentAsWritten(row: Row): (r: Result<string>)
    ensures r.Failure? <==> row.data == Some(Truncated)
  {
    match row.data
    case None => Success(row.snippet.GetOr(""))
    case Some(Inflated(text)) => Success(text)
    case Some(BadGzip) => Success(row.snippet.GetOr(""))
    case Some(Truncated) => Failure("EOFError: compressed file ended before the end-of-stream marker was reached")
  }

  /** The content of a row as the handler's comment intends: any decompression failure falls back to the snippet. */
  function RowContent(row: Row): (content: string)
    ensures row.data.Some? && row.data.value.Inflated? ==> content == row.data.value.text
    ensures !(row.data.Some? && row.data.value.Inflated?) ==> content == row.snippet.GetOr("")
  {
    match row.data
    case Some(Inflated(text)) => text
    case _ => row.snippet.GetOr("")
  }

  /** The note record for a row, given its content and timestamps. */
  function AppleRecord(row: Row, content: string, created: Option<string>, modified: Option<string>): Note {
    Note(
      title := Some(if row.title != "" then row.title else "Untitled"),
      content := Some(content),
      source := Some("Apple Notes"),
      createdTime := created,
      updatedTime := modified,
      archived := Some(false),
      pinned := Some(false),
      color := None,
      labels := [],
      checklist := None,
      url := None)
  }

  /** One iteration of the row loop of `get_notes` as written: a raise ends the whole call. */
  function RowNote(row: Row): Result<Note> {
    var created := AppleIso(row.created);
    var modified := AppleIso(row.modified);
    var content := RowContentAsWritten(row);
    if created.Failure? || modified.Failure? || content.Failure? then Failure("exception while reading a row")
    else Success(AppleRecord(row, content.value, created.value, modified.value))
  }

  /** The values of a run of results, or `None` as soon as one of them is a failure. */
  function Gather<T>(results: seq<Result<T>>): Option<seq<T>> {
    if results == [] then Some([])
    else
      var init := Gather(results[..|results| - 1]);
      var last := results[|results| - 1];
      if init.Some? && last.Success? then Some(init.value + [last.value]) else None
  }

  /** The result of each row, in row order. */
  function RowResults(rows: seq<Row>): (r: seq<Result<Note>>)
    ensures |r| == |rows|
    ensures forall k :: 0 <= k < |rows| ==> r[k] == RowNote(rows[k])
  {
    if rows == [] then [] else RowResults(rows[..|rows| - 1]) + [RowNote(rows[|rows| - 1])]
  }

  /** The notes of all rows, or `None` as soon as one row raises. */
  function RowNotes(rows: seq<Row>): Option<seq<Note>> {
    Gather(RowResults(rows))
  }

  /** A run of results gathers exactly when none of them is a failure. */
  lemma {:induction false} GatherIff<T>(results: seq<Result<T>>)
    ensures Gather(results).Some? <==> forall k :: 0 <= k < |results| ==> results[k].Success?
  {
    if results != [] {
      var init := results[..|results| - 1];
      GatherIff(init);
      assert forall k :: 0 <= k < |init| ==> init[k] == results[k];
    }
  }

  /** A gathered run has one value per result, in order. */
  lemma {:induction false} GatherValues<T>(results: seq<Result<T>>)
    requires Gather(results).Some?
    ensures |Gather(results).value| == |results|
    ensures forall k :: 0 <= k < |results| ==> results[k].Success? && Gather(results).value[k] == results[k].value
  {
    if results != [] {
      var init := results[..|results| - 1];
      GatherValues(init);
      assert forall k :: 0 <= k < |init| ==> init[k] == results[k];
    }
  }

  /** Gathering one more result extends the gathered values by it, or fails. */
  lemma GatherStep<T>(results: seq<Result<T>>, r: Result<T>)
    ensures Gather(results + [r]) == if Gather(results).Some? && r.Success? then Some(Gather(results).value + [r.value]) else None
  {
    assert (results + [r])[..|results|] == results;
  }

  /**
   * `get_notes`, given whether the database file exists and the rows the query returns
   * (`None`: connecting or querying raised).
   */
  method GetNotes(exists_: bool, rows: Option<seq<Row>>) returns (notes: seq<Note>)
    ensures !exists_ || rows.None? ==> notes == []
    ensures exists_ && rows.Some? ==> notes == RowNotes(rows.value).GetOr([])
  {
    if !exists_ {
      return [];
    }
    if rows.None? {
      return [];
    }
    var rs := rows.value;
    notes := [];
    for i := 0 to |rs|
      invariant RowNotes(rs[..i]) == Some(notes)
    {
      assert rs[..i + 1][..i] == rs[..i];
      GatherStep(RowResults(rs[..i]), RowNote(rs[i]));
      var ok, note := ReadRow(rs[i]);
      if !ok {
        OneFailureLosesAll(rs, i);
        return [];
      }
      notes := notes + [note];
    }
    assert rs[..|rs|] == rs;
  }

  /** The body of the row loop of `get_notes`: `ok` is false when it raises. */
  method ReadRow(row: Row) returns (ok: bool, note: Note)
    ensures ok <==> RowNote(row).Success?
    ensures ok ==> note == RowNote(row).value
  {
    var okCreated, createdTime := ReadTimestamp(row.created);
    if !okCreated {
      return false, AppleRecord(row, "", None, None);
    }
    var okModified, modifiedTime := ReadTimestamp(row.modified);
    if !okModified {
      return false, AppleRecord(row, "", None, None);
    }
    var content := row.snippet.GetOr("");
    if row.data.Some? {
      match row.data.value {
        case Inflated(text) => content := text;
        case BadGzip => content := row.snippet.GetOr("");
        case Truncated => return false, AppleRecord(row, "", None, None);
      }
    }
    assert RowContentAsWritten(row) == Success(content);
    return true, AppleRecord(row, content, createdTime, modifiedTime);
  }

  /** The timestamp conversion `get_notes` makes for each of the two dates: `ok` is false when it raises. */
  method ReadTimestamp(offset: Option<int>) returns (ok: bool, text: Option<string>)
    ensures ok <==> AppleIso(offset).Success?
    ensures ok ==> text == AppleIso(offset).value
  {
    text := None;
    if offset.GetOr(0) != 0 {
      var t := FromOffset(offset.value);
      if t.None? {
        return false, None;
      }
      text := Some(Iso(t.value));
    }
    return true, text;
  }

  /** `parse_apple_notes`: same as `get_notes`. */
  method ParseAppleNotes(exists_: bool, rows: Option<seq<Row>>) returns (notes: seq<Note>)
    ensures !exists_ || rows.None? ==> notes == []
    ensures exists_ && rows.Some? ==> notes == RowNotes(rows.value).GetOr([])
  {
    notes := GetNotes(exists_, rows);
  }

  /** The rows give notes exactly when no row raises. */
  lemma AllOrNothing(rows: seq<Row>)
    ensures RowNotes(rows).Some? <==> forall k :: 0 <= k < |rows| ==> RowNote(rows[k]).Success?
  {
    GatherIff(RowResults(rows));
  }

  /** When the rows give notes, there is one per row, in row order. */
  lemma OneNotePerRow(rows: seq<Row>)
    requires RowNotes(rows).Some?
    ensures |RowNotes(rows).value| == |rows|
    ensures forall k :: 0 <= k < |rows| ==> RowNote(rows[k]).Success? && RowNotes(rows).value[k] == RowNote(rows[k]).value
  {
    GatherValues(RowResults(rows));
  }

  /** One row that raises loses the notes of every row. */
  lemma OneFailureLosesAll(rows: seq<Row>, i: nat)
    requires i < |rows| && RowNote(rows[i]).Failure?
    ensures RowNotes(rows) == None
  {
    GatherIff(RowResults(rows));
  }

  /** The fixed fields of every note from the database. */
  lemma RecordFields(row: Row)
    requires RowNote(row).Success?
    ensures var n := RowNote(row).value;
      && n.title == Some(if row.title == "" then "Untitled" else row.title)
      && n.source == Some("Apple Notes")
      && n.archived == Some(false) && n.pinned == Some(false)
      && n.color == None && n.labels == []
      && (n.createdTime.None? <==> row.created.GetOr(0) == 0)
      && (n.updatedTime.None? <==> row.modified.GetOr(0) == 0)
  {
  }

  /** A note from a row the code handles as intended: the content, the timestamps and the fixed fields. */
  function RowNoteIntended(row: Row): (r: Result<Note>)
    ensures r.Success? <==> AppleIso(row.created).Success? && AppleIso(row.modified).Success?
  {
    var created := AppleIso(row.created);
    var modified := AppleIso(row.modified);
    if created.Failure? || modified.Failure? then Failure("exception while reading a row")
    else Success(AppleRecord(row, RowContent(row), created.value, modified.value))
  }

  /** With the intended fallback, a blob never costs a note, and the note matches the as-written one whenever that exists. */
  lemma IntendedFallback(row: Row)
    ensures RowNote(row).Success? ==> RowNoteIntended(row) == RowNote(row)
    ensures row.data == Some(Truncated) && RowNoteIntended(row).Success? ==>
      RowNoteIntended(row).value.content == Some(row.snippet.GetOr(""))
  {
  }

  /** The intended result of each row, in row order. */
  function RowResultsIntended(rows: seq<Row>): (r: seq<Result<Note>>)
    ensures |r| == |rows|
    ensures forall k :: 0 <= k < |rows| ==> r[k] == RowNoteIntended(rows[k])
  {
    if rows == [] then [] else RowResultsIntended(rows[..|rows| - 1]) + [RowNoteIntended(rows[|rows| - 1])]
  }

  /** The notes of all rows with the intended fallback, or `None` as soon as a timestamp is out of range. */
  function RowNotesIntended(rows: seq<Row>): Option<seq<Note>> {
    Gather(RowResultsIntended(rows))
  }

  /**
   * With the intended fallback, only an out-of-range timestamp can cost the notes: no blob
   * does.  The notes are then one per row, in row order.
   */
  lemma IntendedKeepsEveryRow(rows: seq<Row>)
    ensures RowNotesIntended(rows).Some? <==>
      forall k :: 0 <= k < |rows| ==> AppleIso(rows[k].created).Success? && AppleIso(rows[k].modified).Success?
    ensures RowNotesIntended(rows).Some? ==> |RowNotesIntended(rows).value| == |rows|
    ensures RowNotesIntended(rows).Some? ==>
      forall k :: 0 <= k < |rows| ==> RowNotesIntended(rows).value[k] == RowNoteIntended(rows[k]).value
  {
    GatherIff(RowResultsIntended(rows));
    if RowNotesIntended(rows).Some? {
      GatherValues(RowResultsIntended(rows));
    }
  }

  /** Wherever the code as written returns notes, the intended code returns the same notes. */
  lemma IntendedAgreesWhenNothingRaises(rows: seq<Row>)
    requires RowNotes(rows).Some?
    ensures RowNotesIntended(rows) == RowNotes(rows)
  {
    AllOrNothing(rows);
    forall k | 0 <= k < |rows| ensures RowResultsIntended(rows)[k] == RowResults(rows)[k] {
      IntendedFallback(rows[k]);
    }
    assert RowResultsIntended(rows) == RowResults(rows);
  }

  /** One good row and one whose blob is cut short: as written, `get_notes` returns no note at all. */
  lemma TruncatedBlobLosesEveryNote()
    ensures RowNotes([Row(1, "Groceries", Some("milk"), None, None, None), Row(2, "Diary", Some("today"), None, None, Some(Truncated))]) == None
  {
    var good := Row(1, "Groceries", Some("milk"), None, None, None);
    var cut := Row(2, "Diary", Some("today"), None, None, Some(Truncated));
    assert RowNote(cut).Failure?;
    OneFailureLosesAll([good, cut], 1);
  }

  /** The same two rows as intended: both give their note, the second with its snippet. */
  lemma TruncatedBlobKeptAsIntended()
    ensures var good := Row(1, "Groceries", Some("milk"), None, None, None);
      var cut := Row(2, "Diary", Some("today"), None, None, Some(Truncated));
      RowNotesIntended([good, cut]) == Some([AppleRecord(good, "milk", None, None), AppleRecord(cut, "today", None, None)])
  {
    var good := Row(1, "Groceries", Some("milk"), None, None, None);
    var cut := Row(2, "Diary", Some("today"), None, None, Some(Truncated));
    var a, b := RowNoteIntended(good), RowNoteIntended(cut);
    assert a == Success(AppleRecord(good, "milk", None, None));
    assert b == Success(AppleRecord(cut, "today", None, None));
    assert RowResultsIntended([good, cut]) == [a, b];
    var none: seq<Result<Note>> := [];
    assert Gather(none) == Some([]);
    GatherStep(none, a);
    assert none + [a] == [a];
    var noNotes: seq<Note> := [];
    assert noNotes + [a.value] == [a.value];
    assert Gather([a]) == Some([a.value]);
    GatherStep([a], b);
    assert [a] + [b] == [a, b];
    assert [a.value] + [b.value] == [a.value, b.value];
  }
}
