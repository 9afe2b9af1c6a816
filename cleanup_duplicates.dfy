/**
 * The duplicate cleanup script: the pages of the database are grouped by their title and
 * content; in every group with more than one page, the first page is kept and the others
 * are archived.
 */
module CleanupDuplicates {
  import opened Wrappers
  import opened Notion
  import opened NotionQueries

  /** The grouping key: a page's title and content text. */
  datatype DupKey = DupKey(title: string, content: string)

  /** What `extract_page_info` returns: the page's id and its key. */
  datatype PageInfo = PageInfo(id: string, key: DupKey)

  /** A set of duplicates: the key and the ids of its pages, in page order. */
  datatype Group = Group(key: DupKey, ids: seq<string>)

  /** The first content element's `plain_text`, `""` when there is none; `None` when the element has no `plain_text` (the lookup raises). */
  function ContentText(page: Page): Option<string> {
    if page.content == [] then Some("") else page.content[0].plainText
  }

  /** `extract_page_info`; `None` when it raises. */
  function ExtractPageInfo(page: Page): (r: Option<PageInfo>)
    ensures r.Some? <==> PageTitle(page).Some? && ContentText(page).Some?
    ensures r.Some? ==> r.value.id == page.id
  {
    match (PageTitle(page), ContentText(page))
    case (Some(title), Some(content)) => Some(PageInfo(page.id, DupKey(title, content)))
    case _ => None
  }

  /**
   * The title and content are `""` when the property is missing or its list is empty, and
   * otherwise the first element's text.
   */
  lemma PageInfoFields(page: Page)
    requires ExtractPageInfo(page).Some?
    ensures var key := ExtractPageInfo(page).value.key;
      && (page.title.None? || page.title.value == [] ==> key.title == "")
      && (page.title.Some? && page.title.value != [] ==> Some(key.title) == page.title.value[0].plainText)
      && (page.content == [] ==> key.content == "")
      && (page.content != [] ==> Some(key.content) == page.content[0].plainText)
  {
  }

  /** The infos of all pages, in order; `None` as soon as one extraction raises. */
  function Infos(pages: seq<Page>): Option<seq<PageInfo>> {
    if pages == [] then Some([])
    else
      var init := Infos(pages[..|pages| - 1]);
      var last := ExtractPageInfo(pages[|pages| - 1]);
      if init.Some? && last.Some? then Some(init.value + [last.value]) else None
  }

  /** When every extraction succeeds there is one info per page, in order. */
  lemma {:induction false} InfosOfPages(pages: seq<Page>)
    ensures Infos(pages).Some? <==> forall k :: 0 <= k < |pages| ==> ExtractPageInfo(pages[k]).Some?
    ensures Infos(pages).Some? ==> |Infos(pages).value| == |pages|
    ensures Infos(pages).Some? ==> forall k :: 0 <= k < |pages| ==> Infos(pages).value[k] == ExtractPageInfo(pages[k]).value
  {
    if pages != [] {
      var init := pages[..|pages| - 1];
      InfosOfPages(init);
      assert forall k :: 0 <= k < |init| ==> init[k] == pages[k];
    }
  }

  /** The ids of the pages with key `key`, in page order: what `seen[key]` ends up holding. */
  function IdsOf(infos: seq<PageInfo>, key: DupKey): (r: seq<string>)
    ensures |r| <= |infos|
  {
    if infos == [] then []
    else
      var last := infos[|infos| - 1];
      IdsOf(infos[..|infos| - 1], key) + (if last.key == key then [last.id] else [])
  }

  /** The keys in the order they first occur: the order of `seen`, a dictionary that keeps insertion order. */
  function FirstKeys(infos: seq<PageInfo>): seq<DupKey> {
    if infos == [] then []
    else
      var init := FirstKeys(infos[..|infos| - 1]);
      var key := infos[|infos| - 1].key;
      init + (if key in init then [] else [key])
  }

  /** The groups of `keys` with more than one id, in the order of `keys`. */
  function DupGroups(infos: seq<PageInfo>, keys: seq<DupKey>): (r: seq<Group>)
    ensures forall m :: 0 <= m < |r| ==> |r[m].ids| >= 2 && r[m].ids == IdsOf(infos, r[m].key) && r[m].key in keys
  {
    if keys == [] then []
    else
      var key := keys[|keys| - 1];
      var ids := IdsOf(infos, key);
      assert forall x :: x in keys[..|keys| - 1] ==> x in keys;
      DupGroups(infos, keys[..|keys| - 1]) + (if |ids| > 1 then [Group(key, ids)] else [])
  }

  /** What `find_duplicates` returns once every extraction succeeded. */
  function Duplicates(infos: seq<PageInfo>): (r: seq<Group>)
    ensures forall m :: 0 <= m < |r| ==> |r[m].ids| >= 2 && r[m].ids == IdsOf(infos, r[m].key)
  {
    DupGroups(infos, FirstKeys(infos))
  }

  /** One more page extends its key's ids by its id, and the key order by its key when new. */
  lemma IdsOfStep(infos: seq<PageInfo>, info: PageInfo)
    ensures forall k :: IdsOf(infos + [info], k) == IdsOf(infos, k) + (if info.key == k then [info.id] else [])
    ensures FirstKeys(infos + [info]) == FirstKeys(infos) + (if info.key in FirstKeys(infos) then [] else [info.key])
  {
    assert (infos + [info])[..|infos|] == infos;
  }

  /** `find_duplicates`: `None` when an extraction raises. */
  method FindDuplicates(pages: seq<Page>) returns (duplicates: Option<seq<Group>>)
    ensures duplicates.None? <==> Infos(pages).None?
    ensures duplicates.Some? ==> duplicates.value == Duplicates(Infos(pages).value)
  {
    var ok, keys, seen := GroupIds(pages);
    if !ok {
      return None;
    }
    var groups := SelectDuplicates(keys, seen, Infos(pages).value);
    return Some(groups);
  }

  /** The first loop of `find_duplicates`: `seen[key].append(page_id)` for each page, in order. */
  method GroupIds(pages: seq<Page>) returns (ok: bool, keys: seq<DupKey>, seen: map<DupKey, seq<string>>)
    ensures ok <==> Infos(pages).Some?
    ensures ok ==> keys == FirstKeys(Infos(pages).value)
    ensures ok ==> forall k :: k in seen <==> k in keys
    ensures ok ==> forall k :: IdsOf(Infos(pages).value, k) == if k in seen then seen[k] else []
  {
    keys, seen := [], map[];
    ghost var infos: seq<PageInfo> := [];
    for i := 0 to |pages|
      invariant Infos(pages[..i]) == Some(infos)
      invariant keys == FirstKeys(infos)
      invariant forall k :: k in seen <==> k in keys
      invariant forall k :: IdsOf(infos, k) == if k in seen then seen[k] else []
    {
      assert pages[..i + 1][..i] == pages[..i];
      var info := ExtractPageInfo(pages[i]);
      if info.None? {
        InfosOfPages(pages);
        return false, keys, seen;
      }
      var key := info.value.key;
      IdsOfStep(infos, info.value);
      if key !in seen {
        keys := keys + [key];
        seen := seen[key := []];
      }
      seen := seen[key := seen[key] + [info.value.id]];
      infos := infos + [info.value];
    }
    assert pages[..|pages|] == pages;
    ok := true;
  }

  /** The comprehension of `find_duplicates`: the entries of `seen` with more than one id, in its order. */
  method SelectDuplicates(keys: seq<DupKey>, seen: map<DupKey, seq<string>>, ghost infos: seq<PageInfo>) returns (groups: seq<Group>)
    requires forall k :: k in keys ==> k in seen && seen[k] == IdsOf(infos, k)
    ensures groups == DupGroups(infos, keys)
  {
    groups := [];
    for j := 0 to |keys|
      invariant groups == DupGroups(infos, keys[..j])
    {
      assert keys[..j + 1][..j] == keys[..j];
      var key := keys[j];
      if |seen[key]| > 1 {
        groups := groups + [Group(key, seen[key])];
      }
    }
    assert keys[..|keys|] == keys;
  }

  /** No key occurs twice in the first-occurrence order. */
  lemma {:induction false} FirstKeysDistinct(infos: seq<PageInfo>)
    ensures forall i, j :: 0 <= i < j < |FirstKeys(infos)| ==> FirstKeys(infos)[i] != FirstKeys(infos)[j]
  {
    if infos != [] {
      FirstKeysDistinct(infos[..|infos| - 1]);
    }
  }

  /** A key is listed exactly when some page has it. */
  lemma {:induction false} FirstKeysIff(infos: seq<PageInfo>, key: DupKey)
    ensures key in FirstKeys(infos) <==> IdsOf(infos, key) != []
  {
    if infos != [] {
      FirstKeysIff(infos[..|infos| - 1], key);
    }
  }

  /** Groups of distinct keys have distinct keys. */
  lemma {:induction false} DupGroupsDistinct(infos: seq<PageInfo>, keys: seq<DupKey>)
    requires forall i, j :: 0 <= i < j < |keys| ==> keys[i] != keys[j]
    ensures forall i, j :: 0 <= i < j < |DupGroups(infos, keys)| ==> DupGroups(infos, keys)[i].key != DupGroups(infos, keys)[j].key
  {
    if keys != [] {
      var init := keys[..|keys| - 1];
      DupGroupsDistinct(infos, init);
      assert keys[|keys| - 1] !in init;
    }
  }

  /** Every listed key with more than one id has its group; `m` is its position. */
  lemma {:induction false} DupGroupsComplete(infos: seq<PageInfo>, keys: seq<DupKey>, key: DupKey) returns (m: nat)
    requires key in keys && |IdsOf(infos, key)| > 1
    ensures m < |DupGroups(infos, keys)| && DupGroups(infos, keys)[m].key == key
  {
    var init := keys[..|keys| - 1];
    if key != keys[|keys| - 1] {
      assert keys == init + [keys[|keys| - 1]];
      m := DupGroupsComplete(infos, init, key);
      assert DupGroups(infos, keys)[m] == DupGroups(infos, init)[m];
    } else {
      m := |DupGroups(infos, keys)| - 1;
    }
  }

  /** No key has two sets of duplicates. */
  lemma DuplicateKeysDistinct(infos: seq<PageInfo>)
    ensures forall i, j :: 0 <= i < j < |Duplicates(infos)| ==> Duplicates(infos)[i].key != Duplicates(infos)[j].key
  {
    FirstKeysDistinct(infos);
    DupGroupsDistinct(infos, FirstKeys(infos));
  }

  /** Every key shared by two or more pages has its set of duplicates. */
  lemma DuplicatesComplete(infos: seq<PageInfo>, key: DupKey)
    requires |IdsOf(infos, key)| > 1
    ensures exists m :: 0 <= m < |Duplicates(infos)| && Duplicates(infos)[m].key == key
  {
    FirstKeysIff(infos, key);
    var m := DupGroupsComplete(infos, FirstKeys(infos), key);
    assert Duplicates(infos)[m].key == key;
  }

  /** Every id listed under a key is the id of a page with that key. */
  lemma {:induction false} IdsOfSource(infos: seq<PageInfo>, key: DupKey, m: nat)
    requires m < |IdsOf(infos, key)|
    ensures exists j :: 0 <= j < |infos| && infos[j].id == IdsOf(infos, key)[m] && infos[j].key == key
  {
    var init := infos[..|infos| - 1];
    if m < |IdsOf(init, key)| {
      IdsOfSource(init, key, m);
      var j :| 0 <= j < |init| && init[j].id == IdsOf(init, key)[m] && init[j].key == key;
      assert infos[j] == init[j];
    } else {
      assert infos[|infos| - 1].id == IdsOf(infos, key)[m];
    }
  }

  /** No two pages share an id. */
  predicate DistinctIds(infos: seq<PageInfo>) {
    forall i, j :: 0 <= i < j < |infos| ==> infos[i].id != infos[j].id
  }

  /** With distinct page ids, the ids under one key are distinct. */
  lemma {:induction false} IdsOfDistinct(infos: seq<PageInfo>, key: DupKey)
    requires DistinctIds(infos)
    ensures forall a, b :: 0 <= a < b < |IdsOf(infos, key)| ==> IdsOf(infos, key)[a] != IdsOf(infos, key)[b]
  {
    if infos != [] {
      var init, last := infos[..|infos| - 1], infos[|infos| - 1];
      IdsOfDistinct(init, key);
      forall m | 0 <= m < |IdsOf(init, key)| ensures IdsOf(init, key)[m] != last.id {
        IdsOfSource(init, key, m);
      }
    }
  }

  /** With distinct page ids, an id under two keys means the keys are the same: no page is in two groups. */
  lemma SharedIdSameKey(infos: seq<PageInfo>, k1: DupKey, a: nat, k2: DupKey, b: nat)
    requires DistinctIds(infos)
    requires a < |IdsOf(infos, k1)| && b < |IdsOf(infos, k2)|
    requires IdsOf(infos, k1)[a] == IdsOf(infos, k2)[b]
    ensures k1 == k2
  {
    IdsOfSource(infos, k1, a);
    IdsOfSource(infos, k2, b);
  }

  /** The ids the cleanup archives: all but the first of every group, group by group. */
  function ArchivedIds(groups: seq<Group>): seq<string> {
    if groups == [] then []
    else
      var ids := groups[|groups| - 1].ids;
      ArchivedIds(groups[..|groups| - 1]) + (if ids == [] then [] else ids[1..])
  }

  /** An archived id is a non-first id of some group. */
  lemma {:induction false} ArchivedSource(groups: seq<Group>, x: string)
    requires x in ArchivedIds(groups)
    ensures exists g, m :: g in groups && 1 <= m < |g.ids| && g.ids[m] == x
  {
    var init, g := groups[..|groups| - 1], groups[|groups| - 1];
    var rest := if g.ids == [] then [] else g.ids[1..];
    if x in ArchivedIds(init) {
      ArchivedSource(init, x);
      var g', m :| g' in init && 1 <= m < |g'.ids| && g'.ids[m] == x;
      assert g' in groups;
    } else {
      assert x in rest;
      var m :| 0 <= m < |rest| && rest[m] == x;
      assert g.ids[m + 1] == x;
    }
  }

  /** With distinct page ids, the kept (first) id of a set of duplicates is never archived. */
  lemma KeptNeverArchived(infos: seq<PageInfo>, g: Group)
    requires DistinctIds(infos)
    requires g in Duplicates(infos)
    ensures g.ids[0] !in ArchivedIds(Duplicates(infos))
  {
    if g.ids[0] in ArchivedIds(Duplicates(infos)) {
      ArchivedSource(Duplicates(infos), g.ids[0]);
      var g', m :| g' in Duplicates(infos) && 1 <= m < |g'.ids| && g'.ids[m] == g.ids[0];
      SharedIdSameKey(infos, g.key, 0, g'.key, m);
      IdsOfDistinct(infos, g.key);
      assert false;
    }
  }

  /** The number of archive attempts: the sum over the groups of their size less one. */
  function Attempts(groups: seq<Group>): nat {
    if groups == [] then 0
    else
      var ids := groups[|groups| - 1].ids;
      Attempts(groups[..|groups| - 1]) + (if ids == [] then 0 else |ids| - 1)
  }

  lemma {:induction false} AttemptsCount(groups: seq<Group>)
    ensures |ArchivedIds(groups)| == Attempts(groups)
  {
    if groups != [] {
      AttemptsCount(groups[..|groups| - 1]);
    }
  }

  /** The archive calls for a run of ids: a soft delete of each, nothing else changed. */
  function ArchiveCalls(ids: seq<string>): (r: seq<Call>)
    ensures |r| == |ids|
    ensures forall k :: 0 <= k < |ids| ==> r[k] == UpdatePage(ids[k], map[], Some(true))
  {
    if ids == [] then [] else ArchiveCalls(ids[..|ids| - 1]) + [UpdatePage(ids[|ids| - 1], map[], Some(true))]
  }

  /** How many of the ids are archived successfully. */
  function Archived(ids: seq<string>, archiveOk: string -> bool): (n: nat)
    ensures n <= |ids|
  {
    if ids == [] then 0 else Archived(ids[..|ids| - 1], archiveOk) + (if archiveOk(ids[|ids| - 1]) then 1 else 0)
  }

  lemma {:induction false} ArchiveAppend(a: seq<string>, b: seq<string>, archiveOk: string -> bool)
    ensures ArchiveCalls(a + b) == ArchiveCalls(a) + ArchiveCalls(b)
    ensures Archived(a + b, archiveOk) == Archived(a, archiveOk) + Archived(b, archiveOk)
  {
    if b == [] {
      assert a + b == a;
    } else {
      assert (a + b)[..|a + b| - 1] == a + b[..|b| - 1];
      ArchiveAppend(a, b[..|b| - 1], archiveOk);
    }
  }

  /** The inner loop: archive each id in turn; a failure is reported and the loop goes on. */
  method ArchiveEach(ids: seq<string>, archiveOk: string -> bool) returns (deleted: nat, calls: seq<Call>)
    ensures deleted == Archived(ids, archiveOk)
    ensures calls == ArchiveCalls(ids)
  {
    deleted, calls := 0, [];
    for i := 0 to |ids|
      invariant deleted == Archived(ids[..i], archiveOk)
      invariant calls == ArchiveCalls(ids[..i])
    {
      assert ids[..i + 1][..i] == ids[..i];
      calls := calls + [UpdatePage(ids[i], map[], Some(true))];
      if archiveOk(ids[i]) {
        deleted := deleted + 1;
      }
    }
    assert ids[..|ids|] == ids;
  }

  /** The outer loop over the sets of duplicates: keep the first id, archive the rest. */
  method ArchiveGroups(groups: seq<Group>, archiveOk: string -> bool) returns (deleted: nat, calls: seq<Call>)
    ensures deleted == Archived(ArchivedIds(groups), archiveOk)
    ensures calls == ArchiveCalls(ArchivedIds(groups))
  {
    deleted, calls := 0, [];
    for i := 0 to |groups|
      invariant deleted == Archived(ArchivedIds(groups[..i]), archiveOk)
      invariant calls == ArchiveCalls(ArchivedIds(groups[..i]))
    {
      assert groups[..i + 1][..i] == groups[..i];
      var pageIds := groups[i].ids;
      var toDelete := if pageIds == [] then [] else pageIds[1..];
      var d, c := ArchiveEach(toDelete, archiveOk);
      ArchiveAppend(ArchivedIds(groups[..i]), toDelete, archiveOk);
      deleted := deleted + d;
      calls := calls + c;
    }
    assert groups[..|groups|] == groups;
  }

  /**
   * `cleanup_duplicates`, given the search responses and which archive calls succeed.
   * `completed` is false when extracting a page's info raises, which ends the script.
   */
  method Cleanup(databaseId: string, responses: seq<Response>, archiveOk: string -> bool)
    returns (completed: bool, totalDeleted: nat, calls: seq<Call>)
    requires Finishes(responses)
    ensures var infos := Infos(FetchedPages(databaseId, responses));
      && (completed <==> infos.Some?)
      && (!completed ==> totalDeleted == 0 && calls == SearchCalls(responses))
      && (completed ==> totalDeleted == Archived(ArchivedIds(Duplicates(infos.value)), archiveOk))
      && (completed ==> calls == SearchCalls(responses) + ArchiveCalls(ArchivedIds(Duplicates(infos.value))))
  {
    var pages, searches := GetAllPages(databaseId, responses);
    var duplicates := FindDuplicates(pages);
    if duplicates.None? {
      return false, 0, searches;
    }
    if duplicates.value == [] {
      return true, 0, searches;
    }
    var archives;
    totalDeleted, archives := ArchiveGroups(duplicates.value, archiveOk);
    return true, totalDeleted, searches + archives;
  }

  /** At most every attempt succeeds, and there is one attempt per non-first id. */
  lemma DeletedBounded(groups: seq<Group>, archiveOk: string -> bool)
    ensures Archived(ArchivedIds(groups), archiveOk) <= Attempts(groups) == |ArchiveCalls(ArchivedIds(groups))|
  {
    AttemptsCount(groups);
  }

  /** There are no sets of duplicates, and then no archive call, exactly when no key is shared by two pages. */
  lemma NoDuplicatesNoCalls(infos: seq<PageInfo>)
    ensures Duplicates(infos) == [] <==> forall key :: |IdsOf(infos, key)| <= 1
    ensures Duplicates(infos) == [] ==> ArchiveCalls(ArchivedIds(Duplicates(infos))) == []
  {
    if Duplicates(infos) != [] {
      var g := Duplicates(infos)[0];
      assert |IdsOf(infos, g.key)| > 1;
      assert !forall key :: |IdsOf(infos, key)| <= 1;
    }
    forall key | |IdsOf(infos, key)| > 1 ensures Duplicates(infos) != [] {
      DuplicatesComplete(infos, key);
    }
  }
}
