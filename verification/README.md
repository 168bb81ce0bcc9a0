# Awful.apk forum hierarchy, refresh crawl and forum search — a Dafny model

This project models the logic at the centre of the Awful.apk forum reader.
Android, network, HTML-scraping and database plumbing are left out.
There are four pieces.

- **The forum tree engine** (`ForumStructure`). It builds an ordered forum
  tree from a flat, ordered list of forum records (`buildFromOrderedList`,
  keyed by a `LinkedHashMap`). It also re-parents a copy of an existing tree
  (`buildFromForumTree`), and projects a tree into a flat pre-order list, a
  two-level list and a two-level list with categories. Modules: `Forums`,
  `ForumStructure`, `ForumTreeBuild`, `ForumTreeMembers`, `ForumTreeCopy`,
  and the worked examples of the unit test in `ForumExamples`.
- **The crawl bookkeeping** of `UpdateTask` and of its older twin
  `ForumsRefreshTask`, which share this code. It covers the once-only
  `execute` guard, the `failed` flag, the `openTasks` counter and the one-shot
  finish latch. All of it is a sequential event system over the state
  `Crawl(executed, failed, openTasks, signalled)` (module `Crawl`). The
  waiting thread's wake-up is an input event: it returned, either released
  or timed out, or it was interrupted.
- **The page-parse policy of `ForumsRefreshTask`** (module `ForumsRefresh`),
  over abstract pages:
  - the main page's category links become top-level sections;
  - a forum page's subforum rows become that forum's subforums;
  - every forum with a url is queued for crawling.

  Getting a forum id from a url (`getForumId`) is the partial function
  parameter `idOf`.
- **The repository glue of `ForumRepository`** (module `Repository`) has
  four parts:
  - the single-refresh flag and its listener notifications;
  - the singleton accessor;
  - the indexed record list written to storage;
  - the type classification applied when the records are loaded back.
- **Search** (modules `SearchFilters` and `Search`) has four parts:
  - the filter types' query templates, `toString`, `edit`, the add dialog
    and the parcel round trip;
  - the query string `search` sends;
  - the paging state that a search and its load-more requests move
    through;
  - add, edit and delete on the filter list.

Throughout, a forum is `Forum(id, parentId, title, subtitle, subforums)`.
`new Forum(f)` is `Copy(f)`: it copies the scalar fields and has no subforums.
A `ForumStructure` is its list of top-level forums, so `getForumTree` is that
list itself. `Wrappers` holds `Option` and `Result`.

## Model

| member | source | states |
|---|---|---|
| ForumStructure.IndexAll | Awful.apk/src/main/java/com/ferg/awfulapp/forums/ForumStructure.java:47-50 | The id-keyed map built from the records holds exactly the ids of the input, each key mapped to a record with that id and listed once |
| ForumTreeBuild.LastPutWins | Awful.apk/src/main/java/com/ferg/awfulapp/forums/ForumStructure.java:47-50 | Under each id the map keeps the last record in the input carrying that id |
| ForumTreeBuild.IndexKeys | Awful.apk/src/main/java/com/ferg/awfulapp/forums/ForumStructure.java:47-53 | The map's iteration order is the distinct ids in order of first occurrence, so a replaced record keeps the first one's position |
| ForumTreeBuild.FirstPositionKept | Awful.apk/src/main/java/com/ferg/awfulapp/forums/ForumStructure.java:47-53 | A key iterated before another has an occurrence in the input before every occurrence of the later key |
| ForumTreeBuild.DistinctIndex | Awful.apk/src/main/java/com/ferg/awfulapp/forums/ForumStructure.java:47-53 | With distinct ids the map's values are the input records themselves, in input order |
| ForumTreeBuild.DistinctKept | Awful.apk/src/main/java/com/ferg/awfulapp/forums/ForumStructure.java:47-50 | With distinct ids each record is the value under its own id |
| ForumStructure.BuildFromOrderedList | Awful.apk/src/test/java/com/ferg/awfulapp/forums/ForumStructureTest.java:111-119 | An empty record list builds an empty tree |
| ForumTreeBuild.RootsInOrder | Awful.apk/src/main/java/com/ferg/awfulapp/forums/ForumStructure.java:53-57 | The roots are, as records, exactly the map's values whose parent id is the top-level id, in map order |
| ForumTreeBuild.RootsAreTopLevelRecords | Awful.apk/src/main/java/com/ferg/awfulapp/forums/ForumStructure.java:53-57 | Every root has the top-level id as parent and is a copy of an input record |
| ForumTreeBuild.SiblingsInOrder | Awful.apk/src/main/java/com/ferg/awfulapp/forums/ForumStructure.java:58-62 | Every node's children are exactly the map's values naming it as parent, in map order (none under a node whose id is the top-level id), all the way down |
| ForumTreeMembers.Membership | Awful.apk/src/main/java/com/ferg/awfulapp/forums/ForumStructure.java:33-67 | An id occurs in the built tree if and only if its record has a parent chain through indexed records that ends at the top-level id |
| ForumTreeMembers.OrphanDropped | Awful.apk/src/main/java/com/ferg/awfulapp/forums/ForumStructure.java:33-37 | A record whose parent is neither present nor the top-level id is left out of the tree |
| ForumTreeMembers.DescendantDropped | Awful.apk/src/main/java/com/ferg/awfulapp/forums/ForumStructure.java:33-37 | A record whose parent is not in the tree is not in it either, so an excluded forum's whole subtree is excluded |
| ForumTreeMembers.SelfParentDropped | Awful.apk/src/main/java/com/ferg/awfulapp/forums/ForumStructure.java:58-66 | A record that names itself as parent, and is not top-level, is left out |
| ForumTreeMembers.RootedParent | Awful.apk/src/main/java/com/ferg/awfulapp/forums/ForumStructure.java:58-62 | A non-root forum with a chain to the top has a parent that has one too, and is not its own parent |
| ForumTreeMembers.NoForumTwice | Awful.apk/src/main/java/com/ferg/awfulapp/forums/ForumStructure.java:47-67 | No id occurs twice anywhere in the built tree, even with duplicate ids or cycles in the input |
| ForumExamples.BuildFromOrderedListExample | Awful.apk/src/test/java/com/ferg/awfulapp/forums/ForumStructureTest.java:66-78 | Records 1..5 with top-level id 0 build the tree 1, 2[3[5], 4] |
| ForumExamples.OrphanedNodesExample | Awful.apk/src/test/java/com/ferg/awfulapp/forums/ForumStructureTest.java:81-108 | Records 1, 2, 3, 5, 4 with top-level id 2 build only forum 2's branch 3[5], 4 |
| ForumExamples.EmptyExamples | Awful.apk/src/test/java/com/ferg/awfulapp/forums/ForumStructureTest.java:111-160 | Both builders give an empty tree for empty input |
| ForumTreeCopy.BuildFromForumTreeCharacterised | Awful.apk/src/main/java/com/ferg/awfulapp/forums/ForumStructure.java:84-104 | A tree is the rebuilt copy if and only if it has the source's shape, order, ids, titles and subtitles, with every parent id equal to the containing node's id (the top-level id for roots) |
| ForumTreeCopy.CopyShape | Awful.apk/src/main/java/com/ferg/awfulapp/forums/ForumStructure.java:97-104 | The copy keeps the source's shape and fields and sets each parent id from the structure, ignoring the input parent ids |
| ForumTreeCopy.ShapeDeterminesCopy | Awful.apk/src/main/java/com/ferg/awfulapp/forums/ForumStructure.java:97-104 | Any tree with the source's shape and structural parent ids is the copy |
| ForumTreeCopy.NestedCopiedUnchanged | Awful.apk/src/main/java/com/ferg/awfulapp/forums/ForumStructure.java:73-88 | A tree whose parent ids already match its structure is rebuilt unchanged |
| ForumTreeCopy.BuildFromForumTreeIdempotent | Awful.apk/src/main/java/com/ferg/awfulapp/forums/ForumStructure.java:84-88 | Rebuilding a rebuilt tree changes nothing |
| ForumExamples.BuildFromForumTreeExample | Awful.apk/src/test/java/com/ferg/awfulapp/forums/ForumStructureTest.java:127-149 | The test's tree with inconsistent parent ids is not the expected tree, and rebuilding it gives the expected tree |
| ForumExamples.ExpectedTreeNested | Awful.apk/src/test/java/com/ferg/awfulapp/forums/ForumStructureTest.java:174 | Rebuilding the expected tree gives it back |
| ForumStructure.CollectSubforums | Awful.apk/src/main/java/com/ferg/awfulapp/forums/ForumStructure.java:161-171 | Collecting a forest gives one entry per node, all childless |
| ForumTreeCopy.CollectAppend | Awful.apk/src/main/java/com/ferg/awfulapp/forums/ForumStructure.java:166-171 | Collecting two forests one after the other is collecting each and concatenating the results |
| ForumTreeMembers.FlatIds | Awful.apk/src/main/java/com/ferg/awfulapp/forums/ForumStructure.java:166-171 | The collected ids are the forest's ids in pre-order |
| ForumTreeCopy.FlatIsPreOrder | Awful.apk/src/main/java/com/ferg/awfulapp/forums/ForumStructure.java:149-158 | The flat list is exactly the copies (id, parent id, title, subtitle, no subforums) of the tree's nodes in pre-order, so its ids are the pre-order ids and its length is the node count |
| ForumTreeCopy.FlatDepth | Awful.apk/src/main/java/com/ferg/awfulapp/forums/ForumStructure.java:149-158 | The flat list has depth at most 1 |
| ForumTreeCopy.CollectIdempotent | Awful.apk/src/main/java/com/ferg/awfulapp/forums/ForumStructure.java:161-171 | Flattening a flat list again changes nothing |
| ForumTreeCopy.CollectChildless | Awful.apk/src/main/java/com/ferg/awfulapp/forums/ForumStructure.java:166-171 | Collecting a list of childless copies gives the list itself |
| ForumStructure.GetTwoLevelList | Awful.apk/src/main/java/com/ferg/awfulapp/forums/ForumStructure.java:135-146 | The two-level list has one entry per root |
| ForumTreeCopy.TwoLevelListShape | Awful.apk/src/main/java/com/ferg/awfulapp/forums/ForumStructure.java:135-146 | The roots keep their order and fields, each root's children are its whole subtree flattened in pre-order, and the depth is at most 2 |
| ForumTreeCopy.TwoLevelFlattensToFlat | Awful.apk/src/main/java/com/ferg/awfulapp/forums/ForumStructure.java:135-158 | Flattening the two-level list gives the tree's flat list |
| ForumTreeCopy.WithCategoriesShape | Awful.apk/src/main/java/com/ferg/awfulapp/forums/ForumStructure.java:116-131 | The list is empty only for an empty tree, starts with a childless copy of the first category, has one entry per category and per direct child, and has depth at most 2 |
| ForumTreeCopy.WithCategoriesIsTwoLevel | Awful.apk/src/main/java/com/ferg/awfulapp/forums/ForumStructure.java:116-131 | The categorised list is the two-level list of each category as a childless entry followed by exactly its own subforums, in order, so each of those carries its whole subtree flattened |
| ForumTreeCopy.WithCategoriesFlattensToFlat | Awful.apk/src/main/java/com/ferg/awfulapp/forums/ForumStructure.java:116-131 | Flattening the categorised two-level list gives the tree's flat list, so each category is followed by its children, each followed by its own descendants |
| ForumExamples.FlatListExample | Awful.apk/src/test/java/com/ferg/awfulapp/forums/ForumStructureTest.java:167-179 | The expected tree flattens to 1, 2, 3, 5, 4 |
| ForumExamples.TwoLevelListExample | Awful.apk/src/test/java/com/ferg/awfulapp/forums/ForumStructureTest.java:182-195 | The expected tree's two-level list is 1, 2[3, 5, 4] |
| ForumExamples.BranchCollected | Awful.apk/src/test/java/com/ferg/awfulapp/forums/ForumStructureTest.java:187 | Forum 2's subtree collects to 3, 5, 4 |
| Crawl.Execute | Awful.apk/src/main/java/com/ferg/awfulapp/forums/UpdateTask.java:66-70 | Execute is refused, with the source's message, exactly when the task already ran; otherwise the task is marked executed (`ForumsRefreshTask.execute` has the same guard) |
| Crawl.ExecuteStartsRunning | Awful.apk/src/main/java/com/ferg/awfulapp/forums/UpdateTask.java:66-76 | Executing a new task counts the initial request, and the bookkeeping invariant holds from then on |
| Crawl.ExecuteOnce | Awful.apk/src/main/java/com/ferg/awfulapp/forums/UpdateTask.java:66-70 | A second execute is refused, right away, after one response or error, and after any sequence of responses and errors |
| Crawl.PerformAllEffect | Awful.apk/src/main/java/com/ferg/awfulapp/forums/UpdateTask.java:122-138 | Starting requests adds exactly one each unless the task has failed, when it adds none; fail sets the flag and leaves the latch alone (the same in `ForumsRefreshTask.startTask`) |
| Crawl.FinishSuccessSignals | Awful.apk/src/main/java/com/ferg/awfulapp/forums/UpdateTask.java:147-158 | A successful finish takes one from the count and releases the latch exactly when the count it leaves is at most 0 (or the latch was already released), as in `ForumsRefreshTask.finishTask` too |
| Crawl.FinishFailureSignals | Awful.apk/src/main/java/com/ferg/awfulapp/forums/UpdateTask.java:147-153 | A failed finish takes one from the count, sets the failure flag and releases the latch whatever is left, so the outcome cannot be success |
| Crawl.LatchAndFailureStick | Awful.apk/src/main/java/com/ferg/awfulapp/forums/UpdateTask.java:44 | The latch, once released, and the failure flag, once set, stay so under every event; a failed task ignores new requests |
| Crawl.HandleResponseKeepsRunning | Awful.apk/src/main/java/com/ferg/awfulapp/forums/UpdateTask.java:188-192 | A response handler keeps the invariant: the count is never negative, the latch is closed only while a request is open, and a latch released without failure means nothing is open |
| Crawl.HandleErrorKeepsRunning | Awful.apk/src/main/java/com/ferg/awfulapp/forums/UpdateTask.java:196-200 | An error handler keeps the invariant and leaves the task failed and released |
| Crawl.ChildrenCountedFirst | Awful.apk/src/main/java/com/ferg/awfulapp/forums/UpdateTask.java:188-192 | Parsing before finishing keeps the latch closed while a started child is open; finishing first would release it with a request still open and break the invariant |
| Crawl.SuccessMeansDrained | Awful.apk/src/main/java/com/ferg/awfulapp/forums/UpdateTask.java:79-87 | The outcome is success exactly when the wait returned with the latch released and no failure, and then no request is open |
| Crawl.Deliver | Awful.apk/src/main/java/com/ferg/awfulapp/forums/UpdateTask.java:77-95 | The listener gets the success flag, and the built structure exactly on success (nothing otherwise) |
| Crawl.AllSucceedDrains | Awful.apk/src/main/java/com/ferg/awfulapp/forums/UpdateTask.java:73-83 | If no page fails the task and every response answers a request still open, then once the count is 0 the latch is released and the outcome is success |
| Crawl.FailedRunDrains | Awful.apk/src/main/java/com/ferg/awfulapp/forums/UpdateTask.java:122-138 | Once failed, no new request starts, so after the open requests answer the count is 0, the latch is released and the outcome is failure on every wake-up |
| ForumsRefresh.AddForumToList | Awful.apk/src/main/java/com/ferg/awfulapp/forums/ForumsRefreshTask.java:223-240 | A link without an id changes nothing; otherwise a childless forum with that id, parent, title and subtitle is appended, and it is queued (and counted) exactly when its url is not empty and the task has not failed |
| ForumsRefresh.AddAllEffect | Awful.apk/src/main/java/com/ferg/awfulapp/forums/ForumsRefreshTask.java:223-240 | Adding links in turn appends exactly the forums they yield, in link order, and queues and counts one childless request per crawlable link (none once failed) |
| ForumsRefresh.YieldFields | Awful.apk/src/main/java/com/ferg/awfulapp/forums/ForumsRefreshTask.java:228-232 | Every forum added carries the given parent, no subforums, and the title and subtitle of one of the links |
| ForumsRefresh.MainSectionsAdded | Awful.apk/src/main/java/com/ferg/awfulapp/forums/ForumsRefreshTask.java:141-158 | A main page with categories adds them as top-level sections, in page order, with empty subtitles, and counts what it queues |
| ForumsRefresh.EmptyMainPageFails | Awful.apk/src/main/java/com/ferg/awfulapp/forums/ForumsRefreshTask.java:141-148 | A main page without categories adds and queues nothing and fails the task; finishing the request takes the count to 0 with a failed outcome |
| ForumsRefresh.StripGarbage | Awful.apk/src/main/java/com/ferg/awfulapp/forums/ForumsRefreshTask.java:185-189 | A subtitle starting with a dash and a space loses exactly that prefix; any other subtitle is kept |
| ForumsRefresh.StripGarbageOnce | Awful.apk/src/main/java/com/ferg/awfulapp/forums/ForumsRefreshTask.java:185-189 | Only one leading dash and space is stripped |
| ForumsRefresh.SubforumsAdded | Awful.apk/src/main/java/com/ferg/awfulapp/forums/ForumsRefreshTask.java:169-193 | A forum page only appends to the forum's own subforums, with the forum's id as their parent, and counts what it queues |
| ForumsRefresh.RowPolicy | Awful.apk/src/main/java/com/ferg/awfulapp/forums/ForumsRefreshTask.java:228-239 | A row whose id cannot be parsed is dropped with nothing queued; one with an empty url is added but not crawled; with the real `getForumId` that case does not arise, since an empty url has no id |
| ForumsRefresh.ResponsesKeepRunning | Awful.apk/src/main/java/com/ferg/awfulapp/forums/ForumsRefreshTask.java:266-271 | Both page handlers keep the bookkeeping invariant |
| ForumsRefresh.SectionsOnlyOnSuccess | Awful.apk/src/main/java/com/ferg/awfulapp/forums/ForumsRefreshTask.java:74-87 | The callback gets the sections only on success, and nothing after an interrupt or a failure |
| Repository.UpdateForums | Awful.apk/src/main/java/com/ferg/awfulapp/forums/ForumRepository.java:98-112 | A task starts and every listener hears that it started exactly when no refresh was active; otherwise nothing changes; afterwards a refresh is active |
| Repository.OnUpdateComplete | Awful.apk/src/main/java/com/ferg/awfulapp/forums/ForumRepository.java:146-160 | Completion clears the flag, so the repository is no longer updating, and tells every listener |
| Repository.RegisterListener | Awful.apk/src/main/java/com/ferg/awfulapp/forums/ForumRepository.java:72-78 | The listener is added, and told that an update started exactly when one is running |
| Repository.OnRefreshCompleted | Awful.apk/src/main/java/com/ferg/awfulapp/forums/ForumRepository.java:116-123 | A successful refresh with a structure stores it and leaves the flag up for the tag refresh; anything else completes the update at once |
| Repository.OnTagsRefreshed | Awful.apk/src/main/java/com/ferg/awfulapp/forums/ForumRepository.java:130-140 | The tag refresh completes the update whether it succeeds or fails |
| Repository.RefreshCycle | Awful.apk/src/main/java/com/ferg/awfulapp/forums/ForumRepository.java:98-152 | A second refresh cannot start while one runs, and once a refresh has completed, on either path, a new one can start |
| Repository.GetInstance | Awful.apk/src/main/java/com/ferg/awfulapp/forums/ForumRepository.java:57-65 | Asking with no context before initialisation fails; otherwise the existing instance is returned, or one is made from the context |
| Repository.GetInstanceSame | Awful.apk/src/main/java/com/ferg/awfulapp/forums/ForumRepository.java:57-65 | After the first call with a context, every call returns that same instance |
| Repository.StoreForumData | Awful.apk/src/main/java/com/ferg/awfulapp/forums/ForumRepository.java:233-255 | The Bookmarks record (user CP id, top-level parent) comes first, then one record per flattened forum, in order, with its fields; every record's index is its position |
| Repository.AddRecords | Awful.apk/src/main/java/com/ferg/awfulapp/forums/ForumRepository.java:271-286 | Adding records in turn keeps the earlier ones and gives each new record its position as index |
| Repository.StoredTreeOrder | Awful.apk/src/main/java/com/ferg/awfulapp/forums/ForumRepository.java:242-252 | A stored tree gives one record per node plus Bookmarks, indices 0..n-1, and the ids in pre-order after the Bookmarks id |
| Repository.StoredIds | Awful.apk/src/main/java/com/ferg/awfulapp/forums/ForumRepository.java:242-252 | The stored ids are the Bookmarks id followed by the flattened forums' ids |
| Repository.StoredInIndexOrder | Awful.apk/src/main/java/com/ferg/awfulapp/forums/ForumRepository.java:226-232 | The indices strictly increase along the list, so reading by index gives the list order |
| Repository.LoadRow | Awful.apk/src/main/java/com/ferg/awfulapp/forums/ForumRepository.java:199-218 | A row's type is Bookmarks exactly for the user CP id, Section exactly for other top-level rows, and unchanged otherwise; the tag url is set exactly when it is non-null and non-empty |
| Repository.StoreThenLoad | Awful.apk/src/main/java/com/ferg/awfulapp/forums/ForumRepository.java:185-252 | Loading what was stored gives the Bookmarks entry first, then copies of the flattened forums in order, top-level ones other than Bookmarks typed as sections |
| Repository.GetForumStructure | Awful.apk/src/main/java/com/ferg/awfulapp/forums/ForumRepository.java:168-171 | Without a cursor the structure is empty |
| Repository.StoreThenRebuild | Awful.apk/src/main/java/com/ferg/awfulapp/forums/ForumRepository.java:168-171 | Rebuilding what a refresh stored builds the tree from the Bookmarks forum followed by the copies of the tree's forums in pre-order, with their ids, parent ids, titles and subtitles |
| SearchFilters.OnlyMyUsernameFixed | Awful.apk/src/main/java/com/ferg/awfulapp/search/SearchFilter.kt:38-45 | A type is editable if and only if it has no fixed value, and only MyUsername has one |
| SearchFilters.TemplateSplits | Awful.apk/src/main/java/com/ferg/awfulapp/search/SearchFilter.kt:35-43 | Every template is a prefix without a percent sign, one `%s`, and a suffix |
| SearchFilters.FormatSplits | Awful.apk/src/main/java/com/ferg/awfulapp/search/SearchFilter.kt:60 | Formatting a template whose only placeholder is one `%s` puts the value between its prefix and suffix |
| SearchFilters.TemplateFormat | Awful.apk/src/main/java/com/ferg/awfulapp/search/SearchFilter.kt:35-60 | Formatting any type's template puts the value between that type's prefix and suffix |
| SearchFilters.ToString | Awful.apk/src/main/java/com/ferg/awfulapp/search/SearchFilter.kt:60 | A filter renders as its template filled with the fixed value when the type has one, and with its param otherwise |
| SearchFilters.ToStringExamples | Awful.apk/src/main/java/com/ferg/awfulapp/search/SearchFilter.kt:35-60 | PostText renders the value alone; UserId renders `userid:` and the value; Username and MyUsername render the value or the user's own name in `username:"…"` |
| SearchFilters.Edit | Awful.apk/src/main/java/com/ferg/awfulapp/search/SearchFilter.kt:62-64 | A non-editable filter is never edited; an editable one becomes a filter of the same type with the entered text, when a text is entered |
| SearchFilters.ShowDialog | Awful.apk/src/main/java/com/ferg/awfulapp/search/SearchFilter.kt:51-57 | A non-editable type adds a filter with its fixed value at once; an editable one adds a filter with the entered text, if any |
| SearchFilters.ShowDialogRenders | Awful.apk/src/main/java/com/ferg/awfulapp/search/SearchFilter.kt:51-60 | The filter the dialog adds renders with the entered text, or with the user's name for the fixed type |
| SearchFilters.Ordinal | Awful.apk/src/main/java/com/ferg/awfulapp/search/SearchFilter.kt:75-78 | The written ordinal indexes the type itself in declaration order |
| SearchFilters.OrdinalOfValue | Awful.apk/src/main/java/com/ferg/awfulapp/search/SearchFilter.kt:71 | Each position of the declaration order is the ordinal of the type found there |
| SearchFilters.ReadFromParcel | Awful.apk/src/main/java/com/ferg/awfulapp/search/SearchFilter.kt:70-73 | A read succeeds only on an int ordinal of a type followed by a non-null string, and returns that type, that string and the rest; a bad ordinal, a null string and a malformed parcel are errors |
| SearchFilters.ParcelRoundTrip | Awful.apk/src/main/java/com/ferg/awfulapp/search/SearchFilter.kt:70-78 | Reading back a written filter gives the same type and param, and leaves the rest of the parcel |
| SearchFilters.ParcelReadIsWritten | Awful.apk/src/main/java/com/ferg/awfulapp/search/SearchFilter.kt:70-78 | Every parcel that reads as a filter is that filter written, followed by the rest |
| Search.TrimStartSpec | Awful.apk/src/main/java/com/ferg/awfulapp/search/SearchFragment.kt:161 | Trimming the start removes exactly the leading whitespace |
| Search.TrimEndSpec | Awful.apk/src/main/java/com/ferg/awfulapp/search/SearchFragment.kt:161 | Trimming the end removes exactly the trailing whitespace |
| Search.TrimmedAway | Awful.apk/src/main/java/com/ferg/awfulapp/search/SearchFragment.kt:161 | The trimmed text neither starts nor ends with whitespace, and is empty exactly when the text is all whitespace |
| Search.JoinSnoc | Awful.apk/src/main/java/com/ferg/awfulapp/search/SearchFragment.kt:162 | Joining with one more part adds a single space and that part |
| Search.QueryParts | Awful.apk/src/main/java/com/ferg/awfulapp/search/SearchFragment.kt:160-162 | The query is the trimmed text and a space, when that text is not empty, followed by the filters' strings joined by single spaces |
| Search.QueryExample | Awful.apk/src/main/java/com/ferg/awfulapp/search/SearchFragment.kt:160-162 | `cats` with a user-id filter 42 queries `cats userid:42`; blank text with the same filter queries `userid:42` |
| Search.InitialInvariant | Awful.apk/src/main/java/com/ferg/awfulapp/search/SearchFragment.kt:73-75 | Before any search, load-more is off and the paging invariant holds |
| Search.OnSearchSuccessAsWritten | Awful.apk/src/main/java/com/ferg/awfulapp/search/SearchFragment.kt:166-177 | A result without a query id changes nothing; one with a query id replaces the results, pages and query id, resets the pages read to 1, and leaves load-more on if there is more than one page or it was on already |
| Search.OnSearchSuccess | Awful.apk/src/main/java/com/ferg/awfulapp/search/SearchFragment.kt:166-177 | The corrected update of the finding below: like the update as written, but load-more is on exactly when there is more than one page |
| Search.LoadMoreAppends | Awful.apk/src/main/java/com/ferg/awfulapp/search/SearchFragment.kt:242-247 | A successful load-more appends the new results after the old ones, counts one more page, keeps the query, and stays on only while pages remain |
| Search.PagingSteps | Awful.apk/src/main/java/com/ferg/awfulapp/search/SearchFragment.kt:236-257 | The corrected search update, and load-more success and failure as written, all keep load-more off once every page was read, so a load-more never asks past the last page |
| Search.StaleLoadMore | Awful.apk/src/main/java/com/ferg/awfulapp/search/SearchFragment.kt:175-176 | With the update as written, a one-page search after a three-page one leaves load-more on, and it would ask for page 2 of a one-page query |
| Search.AsWrittenDiffersOnlyInLoadMore | Awful.apk/src/main/java/com/ferg/awfulapp/search/SearchFragment.kt:169-177 | The corrected update agrees with the code as written on everything but load-more, which the code can only switch on |
| Search.AddFilter | Awful.apk/src/main/java/com/ferg/awfulapp/search/SearchFragment.kt:222-225 | A new filter goes at the end and the others are unchanged |
| Search.EditFilter | Awful.apk/src/main/java/com/ferg/awfulapp/search/SearchFragment.kt:228-233 | An out-of-range position is an error; otherwise only the given position may change, it keeps its type, and it holds the entered text when the filter is editable and text was entered; a non-editable filter or a dismissed dialog leaves the list as it was |
| Search.DeleteFilter | Awful.apk/src/main/java/com/ferg/awfulapp/search/SearchFragment.kt:316-319 | An out-of-range position is an error; otherwise exactly the given position is removed and the rest keep their order |
| Search.AddThenDelete | Awful.apk/src/main/java/com/ferg/awfulapp/search/SearchFragment.kt:222-225 | Deleting the filter just added gives back the list |
| Search.MenuAddsFixedFilter | Awful.apk/src/main/java/com/ferg/awfulapp/search/SearchFragment.kt:198-205 | Choosing My username from the menu appends a filter with the user's name, with no dialog |
| Search.HandleNavigation | Awful.apk/src/main/java/com/ferg/awfulapp/search/SearchFragment.kt:149-155 | A search-forums event is handled and any other event is not, and leaves the list alone |
| Search.AddEachAppends | Awful.apk/src/main/java/com/ferg/awfulapp/search/SearchFragment.kt:151 | Adding filters one by one appends them all, in order |
| Search.NavigationAppends | Awful.apk/src/main/java/com/ferg/awfulapp/search/SearchFragment.kt:149-155 | A search-forums event appends its filters in order and reports that it was handled |

## Left out

- Threads, the single-thread executor, `AtomicInteger` and `volatile` memory semantics: the crawl is a sequential event system, and the latch is a one-shot flag.
- The wait timeouts (five minutes in `UpdateTask`, its own constant in `ForumsRefreshTask`): a timed-out wait is a return with the latch still closed, and an interrupt is the `Interrupted` wake-up; when either happens is not modelled.
- Volley request queueing, the jsoup selectors and `Uri.parse`: pages are lists of links and rows, and `getForumId` is the partial function `idOf`.
- `buildForumStructure` of the `UpdateTask` subclasses: their code is not part of this model, so the built structure is a value handed to `Crawl.Deliver`.
- Crawl responses grafted into the tree: `ForumsRefreshTask` mutates a queued forum's shared subforum list. `ForumsRefresh.ParseSubforums` returns the forum with its extended list instead, and does not put it back into the section tree.
- `ContentResolver` query, delete and bulk insert, `clearForumData`, and the timestamp: the timestamp is the `updateTime` parameter, and only the record list and the classification are modelled.
- `getAsList().includeSections(true).formatAs(FLAT)`: the builder is not part of this model. `Repository.StoreTree` takes it to be `getFlatList`.
- `Constants.USERCP_ID` is the `usercpId` parameter.
- `ForumsRefresh.RowPolicy`: `idOf` is abstract, so the model keeps the branch for a forum with an id and an empty url. In the source `getForumId("")` always throws, because an empty url has no `forumid` parameter. So that branch of `addForumToList` is dead there.
- `Repository.GetForumStructure`: the rebuilt tree carries only each forum's id, parent id, title and subtitle. In the source, `loadForumData` also sets the forum type and the tag url on the very objects the tree is built from. The model's forum has no such fields, so `Repository.LoadRow` states them on the loaded entries, and `ForumsOf` does not pass them into the tree.
- `Repository.StoreThenRebuild`: this shows which forums the rebuild starts from. It does not prove that the rebuilt tree is the Bookmarks forum followed by the stored tree itself. That would also need the tree's ids to be distinct and different from the top-level id.
- The Forum type's own default type value is `Unchanged`. Forum.java is not part of this model.
- `unregisterListener`, and the order in which a `HashSet`'s listeners are told: notifications are sets of listeners.
- `printForums`, `printForum` and `appendPadded`: these are debug log output only.
- `ForumStructure.BuildFromOrderedList`: records are taken to have no children. The source appends into the input objects' own subforum lists, so children already present would stay, and a forum appended under two parents would be shared. Its own ensures only covers empty input; its contents are stated by the `ForumTreeBuild` and `ForumTreeMembers` lemmas.
- `getForumTree` is the tree list itself. The model has no mutable lists, so there is no aliasing to copy away.
- `Search.TrimStartSpec`: whitespace is the ten ASCII characters `Character.isWhitespace` accepts (tab, line feed, vertical tab, form feed, carriage return, U+001C to U+001F, and space). Above U+007F, Kotlin's `CharSequence.trim` and commons-lang3's `StringUtils.isNotBlank` also skip Unicode space and line separators, and `trim` also skips the no-break spaces; those are not modelled.
- `SearchFilters.ReadFromParcel`: a parcel is a sequence of typed values. The raw byte encoding, and a `readInt` past the end returning 0, are not modelled.
- Labels, descriptions, dialogs, snackbars, progress UI and the `AwfulPreferences` lookup: the user's name is the `myUsername` parameter, and a dialog's outcome is the `entered` parameter (`None` when dismissed).
- `Search.EditFilter`: the source's callback writes to the position captured when the dialog opened. A list changed while the dialog is open is not modelled.
- The result list adapter's notifications and scrolling are left out.

## Findings

| source | as written | input that shows it | evidently intended | confidence | as-written member | corrected member |
|---|---|---|---|---|---|---|
| Awful.apk/src/main/java/com/ferg/awfulapp/search/SearchFragment.kt:175-176 | A new search only ever switches load-more on (when it has more than one page) and never off | a search with 3 pages, then a new search (query id 8) with 1 page: load-more stays on, and swiping asks for page 2 of query 8 | load-more is on after a search exactly when the result has more than one page, which `Search.PagingSteps` shows keeps every load-more within the query's pages | not executed | Search.StaleLoadMore | Search.OnSearchSuccess |
