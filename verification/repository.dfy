/**
 * The logic of ForumRepository: the single-refresh flag and its listener
 * notifications, the singleton accessor, the ordered record list written to
 * storage after a refresh, and the type classification applied when the
 * stored records are loaded back.
 */
module Repository {
  import opened Wrappers
  import opened Forums
  import opened ForumStructure
  import opened ForumTreeCopy

  /** `TOP_LEVEL_PARENT_ID`: anything with this parent id is top-level. */
  const TopLevelParentId := 0

  /** A registered `ForumsUpdateListener`, by identity. */
  type Listener = int

  /** The repository's refresh state: the `refreshActive` flag and the registered listeners. */
  datatype Repo = Repo(refreshActive: bool, listeners: set<Listener>)

  /** The callbacks a step sends: which listeners hear `onForumsUpdateStarted` and which hear `onForumsUpdateCompleted`. */
  datatype Notified = Notified(started: set<Listener>, completed: set<Listener>)

  const Silent := Notified({}, {})

  /** `isUpdating`. */
  function IsUpdating(r: Repo): bool {
    r.refreshActive
  }

  /**
   * `updateForums`: when no refresh is active, flags one as active, starts a
   * refresh task and tells every listener; otherwise does nothing. The second
   * result says whether a task was started.
   */
  function UpdateForums(r: Repo): (res: (Repo, bool, Notified))
    ensures res.1 <==> !IsUpdating(r)
    ensures IsUpdating(res.0) && res.0.listeners == r.listeners
    ensures res.1 ==> res.2 == Notified(r.listeners, {})
    ensures !res.1 ==> res.0 == r && res.2 == Silent
  {
    if !r.refreshActive then (r.(refreshActive := true), true, Notified(r.listeners, {}))
    else (r, false, Silent)
  }

  /** `onUpdateComplete`: clears the flag and tells every listener the update is over. */
  function OnUpdateComplete(r: Repo): (res: (Repo, Notified))
    ensures !IsUpdating(res.0) && res.0.listeners == r.listeners
    ensures res.1 == Notified({}, r.listeners)
  {
    (r.(refreshActive := false), Notified({}, r.listeners))
  }

  /** `registerListener`: adds the listener, and tells it at once when an update is in progress. */
  function RegisterListener(r: Repo, l: Listener): (res: (Repo, Notified))
    ensures res.0.listeners == r.listeners + {l} && res.0.refreshActive == r.refreshActive
    ensures res.1.completed == {}
    ensures res.1.started == (if IsUpdating(r) then {l} else {})
  {
    (r.(listeners := r.listeners + {l}), Notified(if r.refreshActive then {l} else {}, {}))
  }

  /** What `onRefreshCompleted` does with a task's result. */
  datatype Completion =
    | Stored(records: seq<ForumRecord>)  // data stored, tag refresh queued; the flag stays up until it answers
    | Finished(notified: Notified)        // `onUpdateComplete` ran at once

  /**
   * `onRefreshCompleted`: a successful refresh with a structure stores it and
   * refreshes the tags; anything else completes the update straight away.
   */
  function OnRefreshCompleted(r: Repo, success: bool, parsed: Option<seq<Forum>>, usercpId: int,
                              updateTime: string): (res: (Repo, Completion))
    ensures success && parsed.Some? ==>
      res.0 == r && res.1 == Stored(StoreTree(parsed.value, usercpId, updateTime))
    ensures !(success && parsed.Some?) ==>
      !IsUpdating(res.0) && res.1 == Finished(Notified({}, r.listeners))
  {
    if success && parsed.Some? then (r, Stored(StoreTree(parsed.value, usercpId, updateTime)))
    else
      var (r', n) := OnUpdateComplete(r);
      (r', Finished(n))
  }

  /** The tag refresh's callbacks: success and failure both complete the update. */
  function OnTagsRefreshed(r: Repo, tagsLoaded: bool): (res: (Repo, Notified))
    ensures !IsUpdating(res.0) && res.0.listeners == r.listeners
    ensures res.1 == Notified({}, r.listeners)
  {
    OnUpdateComplete(r)
  }

  /** Whatever a refresh delivers, once it has completed (tags included) a new refresh can start. */
  lemma RefreshCycle(r: Repo, success: bool, parsed: Option<seq<Forum>>, usercpId: int, t: string, tagsLoaded: bool)
    requires !IsUpdating(r)
    ensures var (r1, started, _) := UpdateForums(r);
      && started && IsUpdating(r1)
      && !UpdateForums(r1).1
      && var (r2, c) := OnRefreshCompleted(r1, success, parsed, usercpId, t);
         var r3 := if c.Stored? then OnTagsRefreshed(r2, tagsLoaded).0 else r2;
         !IsUpdating(r3) && r3.listeners == r.listeners && UpdateForums(r3).1
  {
  }

  // ---------------------------------------------------------------------
  // The singleton
  // ---------------------------------------------------------------------

  /**
   * `getInstance(context)`: the application-wide repository, created from the
   * first context given; asking before any context was given is refused.
   * `instance` is the static field (the repository is identified by its
   * context); the result holds the field after the call and the returned instance.
   */
  function GetInstance<C>(instance: Option<C>, context: Option<C>): (r: Result<(Option<C>, C), string>)
    ensures r.Failure? <==> instance.None? && context.None?
    ensures instance.Some? ==> r == Success((instance, instance.value))
    ensures instance.None? && context.Some? ==> r == Success((context, context.value))
  {
    if instance.None? && context.None? then
      Failure("ForumRepository has not been initialised - requires a context, but got null")
    else if instance.None? then Success((context, context.value))
    else Success((instance, instance.value))
  }

  /** Once initialised, every later call returns that same instance, with or without a context. */
  lemma GetInstanceSame<C>(first: C, later: Option<C>)
    ensures var r := GetInstance(None, Some(first));
      && r.Success? && r.value.1 == first
      && GetInstance(r.value.0, later) == Success((Some(first), first))
  {
  }

  // ---------------------------------------------------------------------
  // Storing and loading
  // ---------------------------------------------------------------------

  /** A row written to the forums table: its INDEX, id, parent id, title, subtext and update time. */
  datatype ForumRecord = ForumRecord(index: int, id: int, parentId: int, title: string, subtitle: string, updated: string)

  /** `addForumRecord`: the new record's index is the list's size before it is added. */
  function AddForumRecord(records: seq<ForumRecord>, id: int, parentId: int, title: string, subtitle: string,
                          updateTime: string): seq<ForumRecord>
  {
    records + [ForumRecord(|records|, id, parentId, title, subtitle, updateTime)]
  }

  /** The record each stored forum gets at a position. */
  function RecordOf(f: Forum, index: int, updateTime: string): ForumRecord {
    ForumRecord(index, f.id, f.parentId, f.title, f.subtitle, updateTime)
  }

  /**
   * `storeForumData` over the flattened forums of the parsed structure: the
   * Bookmarks record first, then one record per forum in traversal order.
   * The table is cleared first and the list bulk-inserted; only the list is
   * modelled.
   */
  function StoreForumData(flattened: seq<Forum>, usercpId: int, updateTime: string): (r: seq<ForumRecord>)
    ensures |r| == |flattened| + 1
    ensures r[0] == ForumRecord(0, usercpId, TopLevelParentId, "Bookmarks", "", updateTime)
    ensures forall i :: 0 <= i < |flattened| ==> r[i + 1] == RecordOf(flattened[i], i + 1, updateTime)
    ensures forall i :: 0 <= i < |r| ==> r[i].index == i
  {
    var bookmarks := AddForumRecord([], usercpId, TopLevelParentId, "Bookmarks", "", updateTime);
    AddRecords(bookmarks, flattened, updateTime)
  }

  /** The `for` loop of `storeForumData`: `addForumRecord` for each forum in turn. */
  function AddRecords(records: seq<ForumRecord>, forums: seq<Forum>, updateTime: string): (r: seq<ForumRecord>)
    requires forall i :: 0 <= i < |records| ==> records[i].index == i
    ensures |r| == |records| + |forums|
    ensures r[..|records|] == records
    ensures forall i :: 0 <= i < |forums| ==> r[|records| + i] == RecordOf(forums[i], |records| + i, updateTime)
    ensures forall i :: 0 <= i < |r| ==> r[i].index == i
    decreases |forums|
  {
    if forums == [] then records
    else
      var f := forums[0];
      var next := AddForumRecord(records, f.id, f.parentId, f.title, f.subtitle, updateTime);
      var r := AddRecords(next, forums[1..], updateTime);
      assert forall i :: 0 < i < |forums| ==> r[|records| + i] == RecordOf(forums[i], |records| + i, updateTime) by {
        forall i | 0 < i < |forums|
          ensures r[|records| + i] == RecordOf(forums[i], |records| + i, updateTime)
        {
          assert r[|next| + (i - 1)] == RecordOf(forums[1..][i - 1], |next| + (i - 1), updateTime);
        }
      }
      assert r[|records|] == next[|records|];
      r
  }

  /** What is written after a refresh that delivered `tree`: Bookmarks, then the tree's flat list. */
  function StoreTree(tree: seq<Forum>, usercpId: int, updateTime: string): seq<ForumRecord> {
    StoreForumData(GetFlatList(tree), usercpId, updateTime)
  }

  /** The stored ids are the Bookmarks id followed by the tree's ids in pre-order, one record per node. */
  lemma StoredTreeOrder(tree: seq<Forum>, usercpId: int, updateTime: string)
    ensures var r := StoreTree(tree, usercpId, updateTime);
      && |r| == Count(tree) + 1
      && (forall i :: 0 <= i < |r| ==> r[i].index == i)
      && RecordIds(r) == [usercpId] + PreOrderIds(tree)
  {
    FlatIsPreOrder(tree);
    StoredIds(GetFlatList(tree), usercpId, updateTime);
  }

  lemma StoredIds(flattened: seq<Forum>, usercpId: int, updateTime: string)
    ensures RecordIds(StoreForumData(flattened, usercpId, updateTime)) == [usercpId] + Ids(flattened)
  {
    var r := StoreForumData(flattened, usercpId, updateTime);
    assert forall i :: 0 <= i < |flattened| ==> RecordIds(r)[i + 1] == Ids(flattened)[i];
  }

  function RecordIds(records: seq<ForumRecord>): (r: seq<int>)
    ensures |r| == |records|
    ensures forall i :: 0 <= i < |r| ==> r[i] == records[i].id
  {
    seq(|records|, i requires 0 <= i < |records| => records[i].id)
  }

  /** A row read back by the cursor; the tag url column may be null. */
  datatype Row = Row(id: int, parentId: int, title: string, subtitle: string, tagUrl: Option<string>)

  /** The display type a loaded forum gets; `Unchanged` is whatever type a new Forum starts with. */
  datatype ForumType = Bookmarks | Section | Unchanged

  /** A loaded forum: the record's fields, its type, and its tag url when one is set. */
  datatype Loaded = Loaded(forum: Forum, kind: ForumType, tagUrl: Option<string>)

  /** The classification step of `loadForumData` for one row. */
  function LoadRow(row: Row, usercpId: int): (r: Loaded)
    ensures r.forum == Forum(row.id, row.parentId, row.title, row.subtitle, [])
    ensures r.kind == Bookmarks <==> row.id == usercpId
    ensures r.kind == Section <==> row.id != usercpId && row.parentId == TopLevelParentId
    ensures r.tagUrl.Some? <==> row.tagUrl.Some? && row.tagUrl.value != ""
    ensures r.tagUrl.Some? ==> r.tagUrl == row.tagUrl
  {
    var kind := if row.id == usercpId then Bookmarks
                else if row.parentId == TopLevelParentId then Section
                else Unchanged;
    var tag := if row.tagUrl.Some? && row.tagUrl.value != "" then row.tagUrl else None;
    Loaded(Forum(row.id, row.parentId, row.title, row.subtitle, []), kind, tag)
  }

  /** `loadForumData`: no cursor gives no forums; otherwise one loaded forum per row, in row order. */
  function LoadForumData(cursor: Option<seq<Row>>, usercpId: int): (r: seq<Loaded>)
    ensures cursor.None? ==> r == []
    ensures cursor.Some? ==> |r| == |cursor.value|
    ensures cursor.Some? ==> forall i :: 0 <= i < |r| ==> r[i] == LoadRow(cursor.value[i], usercpId)
  {
    match cursor
    case None => []
    case Some(rows) => seq(|rows|, i requires 0 <= i < |rows| => LoadRow(rows[i], usercpId))
  }

  /** The rows of stored records, read back ordered by INDEX; no tag urls are stored by the refresh. */
  function RowsOf(records: seq<ForumRecord>): (r: seq<Row>)
    ensures |r| == |records|
    ensures forall i :: 0 <= i < |r| ==>
      r[i] == Row(records[i].id, records[i].parentId, records[i].title, records[i].subtitle, None)
  {
    seq(|records|, i requires 0 <= i < |records| =>
      Row(records[i].id, records[i].parentId, records[i].title, records[i].subtitle, None))
  }

  /** The records' indices increase strictly, so ordering by INDEX reads them back in list order. */
  lemma StoredInIndexOrder(flattened: seq<Forum>, usercpId: int, updateTime: string)
    ensures var r := StoreForumData(flattened, usercpId, updateTime);
      forall i, j :: 0 <= i < j < |r| ==> r[i].index < r[j].index
  {
  }

  /**
   * Loading what a refresh stored gives Bookmarks first, then copies of the
   * flattened forums in order, each classified by the rules above.
   */
  lemma StoreThenLoad(flattened: seq<Forum>, usercpId: int, updateTime: string)
    ensures var loaded := LoadForumData(Some(RowsOf(StoreForumData(flattened, usercpId, updateTime))), usercpId);
      && |loaded| == |flattened| + 1
      && loaded[0] == Loaded(Forum(usercpId, TopLevelParentId, "Bookmarks", "", []), Bookmarks, None)
      && forall i :: 0 <= i < |flattened| ==>
           && loaded[i + 1].forum == Copy(flattened[i])
           && (loaded[i + 1].kind == Section <==> flattened[i].id != usercpId && flattened[i].parentId == TopLevelParentId)
  {
  }

  /** `getForumStructure`: the tree built from the loaded forums, at the top-level id. */
  function GetForumStructure(cursor: Option<seq<Row>>, usercpId: int): (r: seq<Forum>)
    ensures cursor.None? ==> r == []
  {
    BuildFromOrderedList(ForumsOf(LoadForumData(cursor, usercpId)), TopLevelParentId)
  }

  /** The forums of the loaded entries, in order. */
  function ForumsOf(loaded: seq<Loaded>): (r: seq<Forum>)
    ensures |r| == |loaded|
    ensures forall i :: 0 <= i < |loaded| ==> r[i] == loaded[i].forum
  {
    seq(|loaded|, i requires 0 <= i < |loaded| => loaded[i].forum)
  }

  /**
   * Rebuilding what a refresh stored: the structure is built from the
   * Bookmarks forum followed by the copies of the tree's forums in
   * pre-order, each with its id, parent id, title and subtitle.
   */
  lemma StoreThenRebuild(tree: seq<Forum>, usercpId: int, updateTime: string)
    ensures GetForumStructure(Some(RowsOf(StoreTree(tree, usercpId, updateTime))), usercpId)
         == BuildFromOrderedList([Forum(usercpId, TopLevelParentId, "Bookmarks", "", [])] + Records(PreOrderNodes(tree)),
                                 TopLevelParentId)
  {
    FlatIsPreOrder(tree);
    LoadedFlatList(GetFlatList(tree), usercpId, updateTime);
  }

  /** Loading a stored list of childless copies gives Bookmarks and the list itself. */
  lemma LoadedFlatList(flat: seq<Forum>, usercpId: int, updateTime: string)
    requires Records(flat) == flat
    ensures ForumsOf(LoadForumData(Some(RowsOf(StoreForumData(flat, usercpId, updateTime))), usercpId))
         == [Forum(usercpId, TopLevelParentId, "Bookmarks", "", [])] + flat
  {
    var forums := ForumsOf(LoadForumData(Some(RowsOf(StoreForumData(flat, usercpId, updateTime))), usercpId));
    var expected := [Forum(usercpId, TopLevelParentId, "Bookmarks", "", [])] + flat;
    StoreThenLoad(flat, usercpId, updateTime);
    forall i | 0 <= i < |forums| ensures forums[i] == expected[i] {
      if i > 0 {
        assert Records(flat)[i - 1] == Copy(flat[i - 1]);
      }
    }
  }
}
