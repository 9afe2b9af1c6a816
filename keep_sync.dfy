/**
 * `sync_notes_to_notion`: every `.json` file of the Takeout folder is parsed, checked for an
 * existing page with its title, and created when there is none.  The folder listing, each
 * file's decoded JSON and the replies of the search and create calls are given per file.
 */
module KeepSync {
  import opened Wrappers
  import opened Text
  import opened Notes
  import opened Notion
  import opened Tally
  import opened NotionQueries
  import opened KeepExport
  import opened SyncPages

  /**
   * An entry of the Takeout folder with the replies its note gets: what the existence
   * search for its title returns (`None`: the search raises), and whether the create call
   * returns a page.
   */
  datatype TakeoutFile = TakeoutFile(entry: TakeoutEntry, search: Option<seq<Page>>, createOk: bool)

  /**
   * The properties of `add_note_to_notion`: the three common ones, and `Created Date` when
   * the date is truthy; `None` when the payload cannot be built.
   */
  function KeepProperties(n: ExportNote): Option<Properties> {
    match SyncProperties(n.title, n.content, n.labels)
    case None => None
    case Some(base) => Some(if Truthy(n.createdDate) then base[CreatedDateProp := Date(n.createdDate.value)] else base)
  }

  /**
   * The payload exists exactly when the content does; `Created Date` is present exactly when
   * the parsed date is truthy, holds that date, and the rest is the common three.
   */
  lemma KeepPropertiesShape(n: ExportNote)
    ensures KeepProperties(n).Some? <==> n.content.Some?
    ensures n.content.Some? ==> var p := KeepProperties(n).value;
      && (CreatedDateProp in p <==> Truthy(n.createdDate))
      && (Truthy(n.createdDate) ==> p[CreatedDateProp] == Date(n.createdDate.value))
      && p.Keys - {CreatedDateProp} == {TitleProp, ContentProp, LabelsProp}
      && forall q :: q in p && q != CreatedDateProp ==> p[q] == SyncProperties(n.title, n.content, n.labels).value[q]
  {
    SyncPropertiesShape(n.title, n.content, n.labels);
  }

  /** What happens to one `.json` file: a parse failure fails it, before any call. */
  function FileOutcome(databaseId: string, f: TakeoutFile, localIso: int -> Option<string>): Outcome {
    match ParsedEntry(f.entry, localIso)
    case Failure(_) => Failed
    case Success(n) => NoteOutcome(databaseId, n.title, f.search, KeepProperties(n), f.createOk)
  }

  /** The calls made for one `.json` file. */
  function FileCalls(databaseId: string, f: TakeoutFile, localIso: int -> Option<string>): seq<Call> {
    match ParsedEntry(f.entry, localIso)
    case Failure(_) => []
    case Success(n) => NoteCalls(databaseId, n.title, f.search, KeepProperties(n))
  }

  /** The outcomes of the processed files, in listing order. */
  function Outcomes(databaseId: string, files: seq<TakeoutFile>, localIso: int -> Option<string>): seq<Outcome> {
    if files == [] then []
    else
      var f := files[|files| - 1];
      Outcomes(databaseId, files[..|files| - 1], localIso) + (if IsJson(f.entry) then [FileOutcome(databaseId, f, localIso)] else [])
  }

  /** The calls of the whole run, in order. */
  function SyncCalls(databaseId: string, files: seq<TakeoutFile>, localIso: int -> Option<string>): seq<Call> {
    if files == [] then []
    else
      var f := files[|files| - 1];
      SyncCalls(databaseId, files[..|files| - 1], localIso) + (if IsJson(f.entry) then FileCalls(databaseId, f, localIso) else [])
  }

  /** `sync_notes_to_notion`: the three counters and the calls made. */
  method SyncNotesToNotion(databaseId: string, files: seq<TakeoutFile>, localIso: int -> Option<string>)
    returns (synced: nat, skipped: nat, failed: nat, calls: seq<Call>)
    ensures synced == Count(Outcomes(databaseId, files, localIso), Done)
    ensures skipped == Count(Outcomes(databaseId, files, localIso), Skipped)
    ensures failed == Count(Outcomes(databaseId, files, localIso), Failed)
    ensures calls == SyncCalls(databaseId, files, localIso)
  {
    synced, skipped, failed, calls := 0, 0, 0, [];
    for i := 0 to |files|
      invariant synced == Count(Outcomes(databaseId, files[..i], localIso), Done)
      invariant skipped == Count(Outcomes(databaseId, files[..i], localIso), Skipped)
      invariant failed == Count(Outcomes(databaseId, files[..i], localIso), Failed)
      invariant calls == SyncCalls(databaseId, files[..i], localIso)
    {
      assert files[..i + 1][..i] == files[..i];
      var f := files[i];
      ghost var before := Outcomes(databaseId, files[..i], localIso);
      if IsJson(f.entry) {
        assert Outcomes(databaseId, files[..i + 1], localIso) == before + [FileOutcome(databaseId, f, localIso)];
        assert SyncCalls(databaseId, files[..i + 1], localIso) == calls + FileCalls(databaseId, f, localIso);
        var outcome, fileCalls := SyncFile(databaseId, f, localIso);
        CountStep(before, outcome);
        calls := calls + fileCalls;
        if outcome == Done {
          synced := synced + 1;
        } else if outcome == Skipped {
          skipped := skipped + 1;
        } else {
          failed := failed + 1;
        }
      } else {
        assert Outcomes(databaseId, files[..i + 1], localIso) == before;
        assert SyncCalls(databaseId, files[..i + 1], localIso) == calls;
      }
    }
    assert files[..|files|] == files;
  }

  /** The body of the loop for one `.json` file: parse, then check and create; any raise fails the file. */
  method SyncFile(databaseId: string, f: TakeoutFile, localIso: int -> Option<string>) returns (outcome: Outcome, calls: seq<Call>)
    ensures outcome == FileOutcome(databaseId, f, localIso)
    ensures calls == FileCalls(databaseId, f, localIso)
  {
    var noteData := ParsedEntry(f.entry, localIso);
    if noteData.Failure? {
      return Failed, [];
    }
    var n := noteData.value;
    outcome, calls := SyncNote(databaseId, n.title, KeepProperties(n), f.search, f.createOk);
  }

  /** The `.json` entries of the listing, in order. */
  function JsonFiles(files: seq<TakeoutFile>): (r: seq<TakeoutFile>)
    ensures forall k :: 0 <= k < |r| ==> IsJson(r[k].entry) && r[k] in files
  {
    if files == [] then []
    else
      var f := files[|files| - 1];
      assert forall x :: x in files[..|files| - 1] ==> x in files;
      JsonFiles(files[..|files| - 1]) + (if IsJson(f.entry) then [f] else [])
  }

  /** There is one outcome per `.json` file, that file's own; other entries leave no trace. */
  lemma {:induction false} OutcomePerJsonFile(databaseId: string, files: seq<TakeoutFile>, localIso: int -> Option<string>)
    ensures |Outcomes(databaseId, files, localIso)| == |JsonFiles(files)|
    ensures forall k :: 0 <= k < |JsonFiles(files)| ==> Outcomes(databaseId, files, localIso)[k] == FileOutcome(databaseId, JsonFiles(files)[k], localIso)
  {
    if files != [] {
      var init, f := files[..|files| - 1], files[|files| - 1];
      OutcomePerJsonFile(databaseId, init, localIso);
      assert Outcomes(databaseId, files, localIso) == Outcomes(databaseId, init, localIso) + (if IsJson(f.entry) then [FileOutcome(databaseId, f, localIso)] else []);
      assert JsonFiles(files) == JsonFiles(init) + (if IsJson(f.entry) then [f] else []);
    }
  }

  /** Each processed file is counted exactly once: the counters sum to the number of `.json` files. */
  lemma CountersPartition(databaseId: string, files: seq<TakeoutFile>, localIso: int -> Option<string>)
    ensures var os := Outcomes(databaseId, files, localIso);
      Count(os, Done) + Count(os, Skipped) + Count(os, Failed) == |JsonFiles(files)|
  {
    OutcomePerJsonFile(databaseId, files, localIso);
    CountsPartition(Outcomes(databaseId, files, localIso));
  }

  /** Processing continues after any file: the outcomes over two listings are the two runs' outcomes one after the other. */
  lemma {:induction false} RunsCompose(databaseId: string, a: seq<TakeoutFile>, b: seq<TakeoutFile>, localIso: int -> Option<string>)
    ensures Outcomes(databaseId, a + b, localIso) == Outcomes(databaseId, a, localIso) + Outcomes(databaseId, b, localIso)
  {
    if b == [] {
      assert a + b == a;
    } else {
      var init := b[..|b| - 1];
      assert (a + b)[..|a + b| - 1] == a + init;
      RunsCompose(databaseId, a, init, localIso);
    }
  }

  /** The calls over two listings are the two runs' calls one after the other. */
  lemma {:induction false} CallsCompose(databaseId: string, a: seq<TakeoutFile>, b: seq<TakeoutFile>, localIso: int -> Option<string>)
    ensures SyncCalls(databaseId, a + b, localIso) == SyncCalls(databaseId, a, localIso) + SyncCalls(databaseId, b, localIso)
  {
    if b == [] {
      assert a + b == a;
    } else {
      var init, f := b[..|b| - 1], b[|b| - 1];
      assert (a + b)[..|a + b| - 1] == a + init;
      CallsCompose(databaseId, a, init, localIso);
      var last := if IsJson(f.entry) then FileCalls(databaseId, f, localIso) else [];
      assert SyncCalls(databaseId, a + b, localIso) == SyncCalls(databaseId, a + init, localIso) + last;
      assert SyncCalls(databaseId, b, localIso) == SyncCalls(databaseId, init, localIso) + last;
    }
  }

  /**
   * What one `.json` file costs: a file that does not parse makes no call and fails; one
   * whose title exists is skipped after its search; one whose content is `None` fails after
   * its search; any other is searched and then created with its properties.
   */
  lemma FileEffects(databaseId: string, f: TakeoutFile, localIso: int -> Option<string>)
    ensures ParsedEntry(f.entry, localIso).Failure? ==> FileOutcome(databaseId, f, localIso) == Failed && FileCalls(databaseId, f, localIso) == []
    ensures FileOutcome(databaseId, f, localIso) == Skipped ==>
      FileCalls(databaseId, f, localIso) == [Search(Some(ParsedEntry(f.entry, localIso).value.title), None)]
    ensures ParsedEntry(f.entry, localIso).Success? && ParsedEntry(f.entry, localIso).value.content.None? ==>
      var n := ParsedEntry(f.entry, localIso).value;
      FileOutcome(databaseId, f, localIso) != Done && FileCalls(databaseId, f, localIso) == [Search(Some(n.title), None)]
    ensures FileOutcome(databaseId, f, localIso) == Done ==>
      var n := ParsedEntry(f.entry, localIso).value;
      n.content.Some? && FileCalls(databaseId, f, localIso) == [Search(Some(n.title), None), CreatePage(databaseId, KeepProperties(n).value, [])]
  {
    if ParsedEntry(f.entry, localIso).Success? {
      var n := ParsedEntry(f.entry, localIso).value;
      KeepPropertiesShape(n);
      SkipMeansNoCreate(databaseId, n.title, f.search, f.createOk, KeepProperties(n));
    }
  }
}
