/**
 * The logic of SearchFragment: assembling the query string from the typed
 * text and the filter list, the paging state a search and its load-more
 * requests move through, and the edits of the filter list.
 */
module Search {
  import opened Wrappers
  import opened SearchFilters

  // ---------------------------------------------------------------------
  // The query string
  // ---------------------------------------------------------------------

  /**
   * The whitespace `trim` and `isNotBlank` skip, as far as ASCII goes: the
   * characters `Character.isWhitespace` accepts below U+0080, that is tab,
   * line feed, vertical tab, form feed, carriage return, the four
   * separators U+001C to U+001F, and space.
   */
  predicate IsWhitespace(c: char) {
    || c == ' ' || c == '\t' || c == '\n' || c == '\U{000B}' || c == '\U{000C}' || c == '\r'
    || ('\U{001C}' <= c <= '\U{001F}')
  }

  function TrimStart(s: string): string
    decreases |s|
  {
    if s != [] && IsWhitespace(s[0]) then TrimStart(s[1..]) else s
  }

  function TrimEnd(s: string): string
    decreases |s|
  {
    if s != [] && IsWhitespace(s[|s| - 1]) then TrimEnd(s[..|s| - 1]) else s
  }

  /** `trim`: leading and trailing whitespace removed. */
  function Trim(s: string): string {
    TrimEnd(TrimStart(s))
  }

  /** Trimming the start drops a whitespace prefix and stops at the first other character. */
  lemma {:induction false} TrimStartSpec(s: string)
    ensures var r := TrimStart(s);
      && |r| <= |s| && r == s[|s| - |r|..]
      && (r != [] ==> !IsWhitespace(r[0]))
      && (forall i :: 0 <= i < |s| - |r| ==> IsWhitespace(s[i]))
    decreases |s|
  {
    if s != [] && IsWhitespace(s[0]) {
      TrimStartSpec(s[1..]);
      var r := TrimStart(s[1..]);
      assert s[1..][|s[1..]| - |r|..] == s[|s| - |r|..];
      forall i | 0 <= i < |s| - |r| ensures IsWhitespace(s[i]) {
        if i > 0 { assert s[i] == s[1..][i - 1]; }
      }
    }
  }

  /** Trimming the end drops a whitespace suffix and stops at the last other character. */
  lemma {:induction false} TrimEndSpec(s: string)
    ensures var r := TrimEnd(s);
      && |r| <= |s| && r == s[..|r|]
      && (r != [] ==> !IsWhitespace(r[|r| - 1]))
      && (forall i :: |r| <= i < |s| ==> IsWhitespace(s[i]))
    decreases |s|
  {
    if s != [] && IsWhitespace(s[|s| - 1]) {
      TrimEndSpec(s[..|s| - 1]);
      var r := TrimEnd(s[..|s| - 1]);
      assert s[..|s| - 1][..|r|] == s[..|r|];
      forall i | |r| <= i < |s| ensures IsWhitespace(s[i]) {
        if i < |s| - 1 { assert s[i] == s[..|s| - 1][i]; }
      }
    }
  }

  /** The trimmed text is empty exactly when the text is all whitespace, and otherwise starts and ends with something else. */
  lemma TrimmedAway(s: string)
    ensures var r := Trim(s);
      && (r != [] ==> !IsWhitespace(r[0]) && !IsWhitespace(r[|r| - 1]))
      && (r == [] <==> forall i :: 0 <= i < |s| ==> IsWhitespace(s[i]))
  {
    var front := TrimStart(s);
    var r := TrimEnd(front);
    TrimStartSpec(s);
    TrimEndSpec(front);
    assert r != [] ==> r[0] == front[0];
  }

  /** `isNotBlank`: some character is not whitespace. */
  predicate IsNotBlank(s: string) {
    exists i :: 0 <= i < |s| && !IsWhitespace(s[i])
  }

  /** `joinToString(" ")`: the strings in order with one space between neighbours. */
  function Join(parts: seq<string>): string
    decreases |parts|
  {
    if parts == [] then ""
    else if |parts| == 1 then parts[0]
    else parts[0] + " " + Join(parts[1..])
  }

  /** Appending a part adds one space and the part, after the parts before it. */
  lemma {:induction false} JoinSnoc(parts: seq<string>, p: string)
    requires parts != []
    ensures Join(parts + [p]) == Join(parts) + " " + p
    decreases |parts|
  {
    if |parts| > 1 {
      assert (parts + [p])[1..] == parts[1..] + [p];
      JoinSnoc(parts[1..], p);
    } else {
      assert (parts + [p])[1..] == [p];
    }
  }

  function Rendered(filters: seq<SearchFilter>, myUsername: string): (r: seq<string>)
    ensures |r| == |filters|
    ensures forall i :: 0 <= i < |filters| ==> r[i] == ToString(filters[i], myUsername)
  {
    seq(|filters|, i requires 0 <= i < |filters| => ToString(filters[i], myUsername))
  }

  /**
   * The query `search` sends: the trimmed text and a space as prefix when that
   * is not blank, then the filters' strings joined by spaces.
   */
  function Query(text: string, filters: seq<SearchFilter>, myUsername: string): string {
    var searchText := Trim(text);
    var withSpace := searchText + " ";
    (if IsNotBlank(withSpace) then withSpace else "") + Join(Rendered(filters, myUsername))
  }

  /** The prefix is there exactly when the trimmed text is not empty. */
  lemma QueryParts(text: string, filters: seq<SearchFilter>, myUsername: string)
    ensures Trim(text) == [] ==> Query(text, filters, myUsername) == Join(Rendered(filters, myUsername))
    ensures Trim(text) != [] ==>
      Query(text, filters, myUsername) == Trim(text) + " " + Join(Rendered(filters, myUsername))
  {
    var t := Trim(text);
    TrimmedAway(text);
    if t == [] {
      assert !IsNotBlank(t + " ") by {
        forall i | 0 <= i < |t + " "| ensures IsWhitespace((t + " ")[i]) { }
      }
    } else {
      assert (t + " ")[0] == t[0];
    }
  }

  /** A query of some text and one user-id filter, and of blank text and the same filter. */
  lemma QueryExample(me: string)
    ensures Query("cats", [SearchFilter(UserId, "42")], me) == "cats userid:42"
    ensures Query(" ", [SearchFilter(UserId, "42")], me) == "userid:42"
  {
    var fs := [SearchFilter(UserId, "42")];
    RenderedExample(fs, me);
    TrimExamples();
    QueryParts("cats", fs, me);
    QueryParts(" ", fs, me);
  }

  lemma RenderedExample(fs: seq<SearchFilter>, me: string)
    requires fs == [SearchFilter(UserId, "42")]
    ensures Join(Rendered(fs, me)) == "userid:42"
  {
    assert ToString(fs[0], me) == "userid:42";
    assert Rendered(fs, me) == ["userid:42"];
  }

  lemma TrimExamples()
    ensures Trim("cats") == "cats" && Trim(" ") == ""
  {
    assert TrimStart("cats") == "cats";
    assert TrimEnd("cats") == "cats";
    assert TrimStart(" ") == "" by { assert (" ")[1..] == ""; }
  }

  // ---------------------------------------------------------------------
  // Paging
  // ---------------------------------------------------------------------

  /** `mSearchResults`, `mQueryPages`, `mQueryId`, `mMaxPageQueried`, and whether load-more (the swipe layout) is enabled. */
  datatype Paging<R> = Paging(results: seq<R>, queryPages: int, queryId: int, maxPageQueried: int, loadMore: bool)

  /** A fragment before any search. */
  function Initial<R>(): Paging<R> {
    Paging([], 0, 0, 0, false)
  }

  /** A search request's answer: its query id, page count and first page of results. */
  datatype SearchResult<R> = SearchResult(queryId: int, pages: int, resultList: seq<R>)

  /**
   * The success callback of `search`, as written: a result with a query id
   * replaces the results and counters and enables load-more when there are
   * more pages, but never disables it; a result without one changes nothing.
   */
  function OnSearchSuccessAsWritten<R>(p: Paging<R>, res: SearchResult<R>): (r: Paging<R>)
    ensures res.queryId == 0 ==> r == p
    ensures res.queryId != 0 ==>
      && r.results == res.resultList && r.queryPages == res.pages && r.queryId == res.queryId
      && r.maxPageQueried == 1 && (r.loadMore <==> res.pages > 1 || p.loadMore)
  {
    if res.queryId != 0 then
      Paging(res.resultList, res.pages, res.queryId, 1, if 1 < res.pages then true else p.loadMore)
    else p
  }

  /**
   * The search success update as evidently intended: load-more is enabled
   * exactly when there is more than one page, so a short search switches off
   * what a longer one before it switched on.
   */
  function OnSearchSuccess<R>(p: Paging<R>, res: SearchResult<R>): (r: Paging<R>)
    ensures res.queryId == 0 ==> r == p
    ensures res.queryId != 0 ==>
      && r.results == res.resultList && r.queryPages == res.pages && r.queryId == res.queryId
      && r.maxPageQueried == 1 && (r.loadMore <==> res.pages > 1)
  {
    if res.queryId != 0 then Paging(res.resultList, res.pages, res.queryId, 1, 1 < res.pages)
    else p
  }

  /** `onRefresh`: the page a load-more asks for, of the current query. */
  function NextPage<R>(p: Paging<R>): (r: (int, int))
    ensures r.1 == p.maxPageQueried + 1 && r.0 == p.queryId
  {
    (p.queryId, p.maxPageQueried + 1)
  }

  /**
   * A load-more's success: the new results go after the old ones, one more
   * page has been read, and load-more is disabled once every page has.
   */
  function OnLoadMoreSuccess<R>(p: Paging<R>, more: seq<R>): Paging<R> {
    var max := p.maxPageQueried + 1;
    p.(results := p.results + more, maxPageQueried := max, loadMore := if max >= p.queryPages then false else p.loadMore)
  }

  /** A load-more's failure: only the refresh spinner stops. */
  function OnLoadMoreFailure<R>(p: Paging<R>): Paging<R> {
    p
  }

  /** Load-more is only on while some page of the query has not been read yet. */
  ghost predicate PagingInvariant<R>(p: Paging<R>) {
    && 0 <= p.maxPageQueried
    && (p.loadMore ==> p.maxPageQueried < p.queryPages)
  }

  lemma InitialInvariant<R>()
    ensures PagingInvariant(Initial<R>())
  {
  }

  /** Each update keeps the invariant, so a load-more never asks for a page past the query's last. */
  lemma PagingSteps<R>(p: Paging<R>, res: SearchResult<R>, more: seq<R>)
    requires PagingInvariant(p)
    ensures PagingInvariant(OnSearchSuccess(p, res))
    ensures PagingInvariant(OnLoadMoreSuccess(p, more))
    ensures PagingInvariant(OnLoadMoreFailure(p))
    ensures p.loadMore ==> NextPage(p).1 <= p.queryPages
  {
  }

  /** A successful load-more appends after the old results, counts one page more, and leaves the query alone. */
  lemma LoadMoreAppends<R>(p: Paging<R>, more: seq<R>)
    ensures var q := OnLoadMoreSuccess(p, more);
      && q.results[..|p.results|] == p.results && q.results[|p.results|..] == more
      && q.maxPageQueried == p.maxPageQueried + 1
      && q.queryId == p.queryId && q.queryPages == p.queryPages
      && (q.loadMore <==> p.loadMore && q.maxPageQueried < p.queryPages)
  {
  }

  /**
   * As written, a one-page search after a longer one leaves load-more on:
   * swiping then asks for page 2 of a query with one page.
   */
  lemma StaleLoadMore()
    ensures var before := OnSearchSuccessAsWritten(Initial<int>(), SearchResult(7, 3, [1, 2]));
      var after := OnSearchSuccessAsWritten(before, SearchResult(8, 1, [3]));
      && PagingInvariant(before)
      && after.loadMore && after.queryPages == 1 && NextPage(after) == (8, 2)
      && !PagingInvariant(after)
  {
  }

  /** The two updates agree except on load-more: as written it can only be switched on. */
  lemma AsWrittenDiffersOnlyInLoadMore<R>(p: Paging<R>, res: SearchResult<R>)
    ensures OnSearchSuccessAsWritten(p, res).(loadMore := false) == OnSearchSuccess(p, res).(loadMore := false)
    ensures OnSearchSuccess(p, res).loadMore ==> OnSearchSuccessAsWritten(p, res).loadMore
  {
  }

  // ---------------------------------------------------------------------
  // The filter list
  // ---------------------------------------------------------------------

  /** `addFilter`: the filter goes at the end. */
  function AddFilter(list: seq<SearchFilter>, f: SearchFilter): (r: seq<SearchFilter>)
    ensures |r| == |list| + 1 && r[..|list|] == list && r[|list|] == f
  {
    list + [f]
  }

  /** Why a list edit can fail: `filterList[position]` out of bounds. */
  datatype ListError = IndexOutOfBounds

  /**
   * `editFilter(position)`: the filter at `position` is edited through its
   * dialog and, when the edit yields a filter, replaced by it.
   */
  function EditFilter(list: seq<SearchFilter>, position: int, entered: Option<string>): (r: Result<seq<SearchFilter>, ListError>)
    ensures r.Failure? <==> !(0 <= position < |list|)
    ensures r.Success? ==> |r.value| == |list|
    ensures r.Success? ==> forall i :: 0 <= i < |list| && i != position ==> r.value[i] == list[i]
    ensures r.Success? ==> r.value[position].kind == list[position].kind
    ensures r.Success? && !Editable(list[position].kind) ==> r.value == list
    ensures r.Success? && Editable(list[position].kind) && entered.Some? ==>
      r.value[position] == SearchFilter(list[position].kind, entered.value)
    ensures r.Success? && entered.None? ==> r.value == list
  {
    if !(0 <= position < |list|) then Failure(IndexOutOfBounds)
    else
      match Edit(list[position], entered)
      case Some(f) => Success(list[position := f])
      case None => Success(list)
  }

  /** `deleteFilter(position)`: `removeAt`. */
  function DeleteFilter(list: seq<SearchFilter>, position: int): (r: Result<seq<SearchFilter>, ListError>)
    ensures r.Failure? <==> !(0 <= position < |list|)
    ensures r.Success? ==> |r.value| == |list| - 1
    ensures r.Success? ==> forall i :: 0 <= i < position ==> r.value[i] == list[i]
    ensures r.Success? ==> forall i :: position <= i < |r.value| ==> r.value[i] == list[i + 1]
  {
    if !(0 <= position < |list|) then Failure(IndexOutOfBounds)
    else Success(list[..position] + list[position + 1..])
  }

  /** Adding a filter and deleting it again gives back the list. */
  lemma AddThenDelete(list: seq<SearchFilter>, f: SearchFilter)
    ensures DeleteFilter(AddFilter(list, f), |list|) == Success(list)
  {
    var added := AddFilter(list, f);
    assert added[..|list|] == list;
    assert added[|list| + 1..] == [];
    assert added[..|list|] + added[|list| + 1..] == list;
  }

  /** The filter a type's menu entry adds: `FilterType.showDialog` then `addFilter`. */
  function AddFromMenu(list: seq<SearchFilter>, t: FilterType, entered: Option<string>, myUsername: string): seq<SearchFilter> {
    match ShowDialog(t, entered, myUsername)
    case Some(f) => AddFilter(list, f)
    case None => list
  }

  lemma MenuAddsFixedFilter(list: seq<SearchFilter>, entered: Option<string>, me: string)
    ensures AddFromMenu(list, MyUsername, entered, me) == list + [SearchFilter(MyUsername, me)]
  {
  }

  /** A navigation event: a search over some filters, or any other destination. */
  datatype NavigationEvent = SearchForums(filters: seq<SearchFilter>) | OtherEvent

  /** `handleNavigation`: a search event adds its filters one by one in order and is handled; any other is not. */
  function HandleNavigation(list: seq<SearchFilter>, event: NavigationEvent): (r: (seq<SearchFilter>, bool))
    ensures r.1 <==> event.SearchForums?
    ensures !r.1 ==> r.0 == list
  {
    match event
    case SearchForums(filters) => (AddEach(list, filters), true)
    case OtherEvent => (list, false)
  }

  /** `filters.forEach(::addFilter)`. */
  function AddEach(list: seq<SearchFilter>, filters: seq<SearchFilter>): seq<SearchFilter>
    decreases |filters|
  {
    if filters == [] then list else AddEach(AddFilter(list, filters[0]), filters[1..])
  }

  /** Adding the filters one by one appends them all, in order. */
  lemma {:induction false} AddEachAppends(list: seq<SearchFilter>, filters: seq<SearchFilter>)
    ensures AddEach(list, filters) == list + filters
    decreases |filters|
  {
    if filters != [] {
      AddEachAppends(list + [filters[0]], filters[1..]);
      assert list + [filters[0]] + filters[1..] == list + filters;
    }
  }

  lemma NavigationAppends(list: seq<SearchFilter>, filters: seq<SearchFilter>)
    ensures HandleNavigation(list, SearchForums(filters)) == (list + filters, true)
  {
    AddEachAppends(list, filters);
  }
}
