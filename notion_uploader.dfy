/**
 * `NotionUploader`: an uploader holds the id of the database it fills, set by creating a
 * database or by naming an existing one, and uploads formatted notes into it with a pause
 * between uploads.  Replies of the Notion client are parameters; what the uploader asks of
 * the client is returned as a list of calls.
 */
module NotionUploader {
  import opened Wrappers
  import opened Notion

  /** A formatted note as `upload_note` reads it: either key may be missing from the dictionary. */
  datatype Payload = Payload(properties: Option<Properties>, children: Option<seq<Block>>)

  /** Upload `i` succeeds: the note has properties and the client accepts the page. */
  predicate Succeeds(notes: seq<Payload>, accepts: nat -> bool, i: nat)
    requires i < |notes|
  {
    notes[i].properties.Some? && accepts(i)
  }

  /** How many of the first `n` uploads succeed. */
  function Successes(notes: seq<Payload>, accepts: nat -> bool, n: nat): (k: nat)
    requires n <= |notes|
    ensures k <= n
  {
    if n == 0 then 0 else Successes(notes, accepts, n - 1) + (if Succeeds(notes, accepts, n - 1) then 1 else 0)
  }

  /** The page creation `upload_note` asks for. */
  function CreateCall(databaseId: string, note: Payload): Call
    requires note.properties.Some?
  {
    CreatePage(databaseId, note.properties.value, note.children.GetOr([]))
  }

  /**
   * The calls of the first `i` iterations of `upload_notes`: one creation attempt per note
   * that has properties, each followed by a pause except the very last note's.
   */
  function UploadCalls(databaseId: string, notes: seq<Payload>, delay: real, i: nat): seq<Call>
    requires i <= |notes|
  {
    if i == 0 then []
    else
      var note := notes[i - 1];
      UploadCalls(databaseId, notes, delay, i - 1)
        + (if note.properties.Some? then [CreateCall(databaseId, note)] else [])
        + (if i < |notes| then [Sleep(delay)] else [])
  }

  /** How many pauses a list of calls holds. */
  function Sleeps(calls: seq<Call>): nat {
    if calls == [] then 0 else Sleeps(calls[..|calls| - 1]) + (if calls[|calls| - 1].Sleep? then 1 else 0)
  }

  class Uploader {
    /** The parent page new databases are created under. */
    const parentPageId: string
    /** The database notes go to; `None` until one is created or set. */
    var databaseId: Option<string>

    /** A new uploader has no database. */
    constructor (parentPageId: string)
      ensures this.parentPageId == parentPageId
      ensures databaseId == None
    {
      this.parentPageId := parentPageId;
      databaseId := None;
    }

    /** `self.database_id` is truthy. */
    predicate HasDatabase()
      reads this
    {
      databaseId.Some? && databaseId.value != ""
    }

    /**
     * `create_database(title)`, given the id of the created database, or `None` when the
     * client raised: the id becomes the uploader's database only on success.
     */
    method CreateNotesDatabase(title: string, created: Option<string>) returns (r: Option<string>, calls: seq<Call>)
      modifies this
      ensures r == created
      ensures databaseId == if created.Some? then created else old(databaseId)
      ensures calls == [CreateDatabase(parentPageId, title)]
    {
      calls := [CreateDatabase(parentPageId, title)];
      match created {
        case Some(id) =>
          databaseId := Some(id);
          r := Some(id);
        case None =>
          r := None;
      }
    }

    /** `set_database_id(id)`. */
    method SetDatabaseId(id: string)
      modifies this
      ensures databaseId == Some(id)
    {
      databaseId := Some(id);
    }

    /**
     * `upload_note(note)`, given whether the client accepts the page.  Without a database
     * nothing is sent; a note without properties fails before the client is called; a
     * missing `children` key sends no blocks.
     */
    method UploadNote(note: Payload, accepted: bool) returns (ok: bool, calls: seq<Call>)
      ensures !HasDatabase() ==> !ok && calls == []
      ensures HasDatabase() && note.properties.None? ==> !ok && calls == []
      ensures HasDatabase() && note.properties.Some? ==>
        ok == accepted && calls == [CreatePage(databaseId.value, note.properties.value, note.children.GetOr([]))]
    {
      if !HasDatabase() {
        return false, [];
      }
      if note.properties.None? {
        return false, [];
      }
      calls := [CreatePage(databaseId.value, note.properties.value, note.children.GetOr([]))];
      ok := accepted;
    }

    /**
     * `upload_notes(notes, delay)`, given which uploads the client accepts (by position).
     * Without a database nothing is uploaded and both counts are zero.
     */
    method UploadNotes(notes: seq<Payload>, accepts: nat -> bool, delay: real) returns (success: nat, failed: nat, calls: seq<Call>)
      ensures !HasDatabase() ==> success == 0 && failed == 0 && calls == []
      ensures HasDatabase() ==> success + failed == |notes|
      ensures HasDatabase() ==> success == Successes(notes, accepts, |notes|)
      ensures HasDatabase() ==> calls == UploadCalls(databaseId.value, notes, delay, |notes|)
    {
      if !HasDatabase() {
        return 0, 0, [];
      }
      success, failed, calls := 0, 0, [];
      for i := 0 to |notes|
        invariant success + failed == i
        invariant success == Successes(notes, accepts, i)
        invariant calls == UploadCalls(databaseId.value, notes, delay, i)
      {
        var ok, sent := UploadNote(notes[i], accepts(i));
        if ok {
          success := success + 1;
        } else {
          failed := failed + 1;
        }
        calls := calls + sent;
        if i + 1 < |notes| {
          calls := calls + [Sleep(delay)];
        }
      }
    }
  }

  /** Pauses come only between uploads: one fewer than there are notes. */
  lemma {:induction false} SleepsBetween(databaseId: string, notes: seq<Payload>, delay: real, i: nat)
    requires 0 < i <= |notes|
    ensures Sleeps(UploadCalls(databaseId, notes, delay, i)) == if i < |notes| then i else i - 1
  {
    var prev := UploadCalls(databaseId, notes, delay, i - 1);
    var create: seq<Call> := if notes[i - 1].properties.Some? then [CreateCall(databaseId, notes[i - 1])] else [];
    var pause: seq<Call> := if i < |notes| then [Sleep(delay)] else [];
    assert UploadCalls(databaseId, notes, delay, i) == prev + create + pause;
    if i > 1 {
      SleepsBetween(databaseId, notes, delay, i - 1);
    }
    assert Sleeps(prev) == i - 1;
    SleepsAppend(prev, create);
    SleepsAppend(prev + create, pause);
    SleepsAtMostOne(create);
    SleepsAtMostOne(pause);
  }

  lemma SleepsAtMostOne(calls: seq<Call>)
    requires |calls| <= 1
    ensures Sleeps(calls) == if calls != [] && calls[0].Sleep? then 1 else 0
  {
    if calls != [] {
      assert calls[..0] == [];
    }
  }

  lemma {:induction false} SleepsAppend(a: seq<Call>, b: seq<Call>)
    ensures Sleeps(a + b) == Sleeps(a) + Sleeps(b)
  {
    if b == [] {
      assert a + b == a;
    } else {
      assert (a + b)[..|a + b| - 1] == a + b[..|b| - 1];
      SleepsAppend(a, b[..|b| - 1]);
    }
  }

  /**
   * A whole run pauses once fewer than there are notes, and nothing follows the last
   * note's upload.
   */
  lemma UploadRunPauses(databaseId: string, notes: seq<Payload>, delay: real)
    requires notes != []
    ensures Sleeps(UploadCalls(databaseId, notes, delay, |notes|)) == |notes| - 1
    ensures var calls := UploadCalls(databaseId, notes, delay, |notes|);
      notes[|notes| - 1].properties.Some? ==> calls[|calls| - 1] == CreateCall(databaseId, notes[|notes| - 1])
  {
    SleepsBetween(databaseId, notes, delay, |notes|);
  }

  /** The calls of a list other than pauses. */
  function Creations(calls: seq<Call>): seq<Call> {
    if calls == [] then []
    else Creations(calls[..|calls| - 1]) + (if calls[|calls| - 1].Sleep? then [] else [calls[|calls| - 1]])
  }

  lemma {:induction false} CreationsAppend(a: seq<Call>, b: seq<Call>)
    ensures Creations(a + b) == Creations(a) + Creations(b)
  {
    if b == [] {
      assert a + b == a;
    } else {
      assert (a + b)[..|a + b| - 1] == a + b[..|b| - 1];
      CreationsAppend(a, b[..|b| - 1]);
    }
  }

  /** The pages the first `i` notes ask for: one per note with properties, in order. */
  function NoteCreations(databaseId: string, notes: seq<Payload>, i: nat): seq<Call>
    requires i <= |notes|
  {
    if i == 0 then []
    else NoteCreations(databaseId, notes, i - 1) + (if notes[i - 1].properties.Some? then [CreateCall(databaseId, notes[i - 1])] else [])
  }

  /** Between the pauses, the uploads are the notes' pages in list order. */
  lemma {:induction false} UploadsInOrder(databaseId: string, notes: seq<Payload>, delay: real, i: nat)
    requires i <= |notes|
    ensures Creations(UploadCalls(databaseId, notes, delay, i)) == NoteCreations(databaseId, notes, i)
  {
    if i > 0 {
      var prev := UploadCalls(databaseId, notes, delay, i - 1);
      var create: seq<Call> := if notes[i - 1].properties.Some? then [CreateCall(databaseId, notes[i - 1])] else [];
      var pause: seq<Call> := if i < |notes| then [Sleep(delay)] else [];
      UploadsInOrder(databaseId, notes, delay, i - 1);
      CreationsAppend(prev, create);
      CreationsAppend(prev + create, pause);
      assert Creations(create) == create by {
        if create != [] { assert create[..0] == []; }
      }
      assert Creations(pause) == [] by {
        if pause != [] { assert pause[..0] == []; }
      }
    }
  }
}
