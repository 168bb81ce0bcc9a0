/**
 * The page-parse policy of ForumsRefreshTask over abstract pages: the main
 * page's category links become top-level sections, a forum page's subforum
 * rows become that forum's subforums, and every forum with a url is queued
 * to be crawled in turn. Extracting a forum id from a url is the partial
 * function `idOf` (`getForumId`, which throws when the url has no numeric
 * `forumid` parameter).
 */
module ForumsRefresh {
  import opened Wrappers
  import opened Forums
  import opened Crawl

  /** `ForumRepository.TOP_LEVEL_PARENT_ID`. */
  const TopLevelParentId := 0

  /** A link scraped from a page: title, subtitle (empty for sections) and absolute url. */
  datatype Link = Link(title: string, subtitle: string, url: string)

  /** A category link of the main page. */
  datatype Section = Section(title: string, url: string)

  /** A queued `ParseSubforumsRequest`: the forum to fill in and the page to fetch. */
  datatype Request = Request(forum: Forum, url: string)

  /** The task, the list being added to, and the requests queued on the way. */
  datatype Parsed = Parsed(crawl: Crawl, forums: seq<Forum>, queued: seq<Request>)

  /**
   * `addForumToList`: a link whose id cannot be extracted is dropped; any other
   * becomes a childless forum at the end of the list, and is crawled when its
   * url is not empty (`startTask`, which does nothing once the task has failed).
   */
  function AddForumToList(c: Crawl, list: seq<Forum>, parentId: int, link: Link,
                          idOf: string -> Option<int>): (r: Parsed)
    ensures idOf(link.url).None? ==> r == Parsed(c, list, [])
    ensures idOf(link.url).Some? ==>
      r.forums == list + [Forum(idOf(link.url).value, parentId, link.title, link.subtitle, [])]
    ensures |r.queued| <= 1
    ensures r.queued != [] <==> idOf(link.url).Some? && link.url != "" && !c.failed
    ensures r.queued != [] ==> r.queued[0] == Request(r.forums[|r.forums| - 1], link.url)
    ensures r.crawl.openTasks == c.openTasks + |r.queued|
    ensures r.crawl.failed == c.failed && r.crawl.signalled == c.signalled && r.crawl.executed == c.executed
  {
    match idOf(link.url)
    case None => Parsed(c, list, [])
    case Some(id) =>
      var forum := Forum(id, parentId, link.title, link.subtitle, []);
      if link.url != "" then
        Parsed(StartTask(c), list + [forum], if !c.failed then [Request(forum, link.url)] else [])
      else Parsed(c, list + [forum], [])
  }

  /** Adding each link in turn. */
  function AddAll(c: Crawl, list: seq<Forum>, parentId: int, links: seq<Link>,
                  idOf: string -> Option<int>): Parsed
    decreases |links|
  {
    if links == [] then Parsed(c, list, [])
    else
      var first := AddForumToList(c, list, parentId, links[0], idOf);
      var rest := AddAll(first.crawl, first.forums, parentId, links[1..], idOf);
      Parsed(rest.crawl, rest.forums, first.queued + rest.queued)
  }

  /** The forums a list of links yields under `parentId`: one per link with an id, in link order. */
  function Yield(links: seq<Link>, parentId: int, idOf: string -> Option<int>): seq<Forum>
    decreases |links|
  {
    if links == [] then []
    else
      (match idOf(links[0].url)
       case None => []
       case Some(id) => [Forum(id, parentId, links[0].title, links[0].subtitle, [])])
      + Yield(links[1..], parentId, idOf)
  }

  /** The links that are crawled: those with an id and a url. */
  function Crawled(links: seq<Link>, idOf: string -> Option<int>): seq<Link>
    decreases |links|
  {
    if links == [] then []
    else (if idOf(links[0].url).Some? && links[0].url != "" then [links[0]] else [])
         + Crawled(links[1..], idOf)
  }

  /**
   * Adding a list of links appends exactly the forums they yield, in order;
   * it queues one request per crawled link (none once failed), each counted,
   * and leaves the failure flag and the latch alone.
   */
  lemma {:induction false} AddAllEffect(c: Crawl, list: seq<Forum>, parentId: int, links: seq<Link>,
                                         idOf: string -> Option<int>)
    ensures var r := AddAll(c, list, parentId, links, idOf);
      && r.forums == list + Yield(links, parentId, idOf)
      && r.crawl.openTasks == c.openTasks + |r.queued|
      && r.crawl.failed == c.failed && r.crawl.signalled == c.signalled && r.crawl.executed == c.executed
      && |r.queued| == (if c.failed then 0 else |Crawled(links, idOf)|)
      && (forall q :: q in r.queued ==> q.forum.parentId == parentId && q.forum.subforums == [])
    decreases |links|
  {
    if links != [] {
      var first := AddForumToList(c, list, parentId, links[0], idOf);
      AddAllEffect(first.crawl, first.forums, parentId, links[1..], idOf);
    }
  }

  /**
   * `parseMainSections`: a main page without category links fails the task
   * and adds nothing; otherwise each link becomes a top-level section with an
   * empty subtitle.
   */
  function ParseMainSections(c: Crawl, top: seq<Forum>, sections: seq<Section>,
                             idOf: string -> Option<int>): Parsed
  {
    if |sections| == 0 then Parsed(FailTask(c), top, [])
    else AddAll(c, top, TopLevelParentId, SectionLinks(sections), idOf)
  }

  function SectionLinks(sections: seq<Section>): (r: seq<Link>)
    ensures |r| == |sections|
    ensures forall i :: 0 <= i < |sections| ==> r[i] == Link(sections[i].title, "", sections[i].url)
  {
    seq(|sections|, i requires 0 <= i < |sections| => Link(sections[i].title, "", sections[i].url))
  }

  /** The sections yielded by the main page: top-level, subtitle-less, in page order. */
  lemma MainSectionsAdded(c: Crawl, sections: seq<Section>, idOf: string -> Option<int>)
    requires sections != []
    ensures var r := ParseMainSections(c, [], sections, idOf);
      && r.forums == Yield(SectionLinks(sections), TopLevelParentId, idOf)
      && (forall f :: f in r.forums ==> f.parentId == TopLevelParentId && f.subtitle == "" && f.subforums == [])
      && r.crawl.openTasks == c.openTasks + |r.queued| && r.crawl.failed == c.failed
  {
    AddAllEffect(c, [], TopLevelParentId, SectionLinks(sections), idOf);
    YieldFields(SectionLinks(sections), TopLevelParentId, idOf);
  }

  /** Every yielded forum has the given parent, no children, and the title and subtitle of some link. */
  lemma {:induction false} YieldFields(links: seq<Link>, parentId: int, idOf: string -> Option<int>)
    ensures forall f :: f in Yield(links, parentId, idOf) ==>
      f.parentId == parentId && f.subforums == [] && exists l :: l in links && l.title == f.title && l.subtitle == f.subtitle
    decreases |links|
  {
    if links != [] {
      YieldFields(links[1..], parentId, idOf);
      forall f | f in Yield(links, parentId, idOf)
        ensures f.parentId == parentId && f.subforums == []
        ensures exists l :: l in links && l.title == f.title && l.subtitle == f.subtitle
      {
        if f !in Yield(links[1..], parentId, idOf) {
          assert links[0] in links;
        } else {
          var l :| l in links[1..] && l.title == f.title && l.subtitle == f.subtitle;
          assert l in links;
        }
      }
    }
  }

  /** A main page with no category links fails the task: the initial request's finish empties the count and the outcome is a failure. */
  lemma EmptyMainPageFails(idOf: string -> Option<int>)
    ensures var c := Execute(Fresh).value;
      var r := ParseMainSections(c, [], [], idOf);
      var done := FinishTask(r.crawl, true);
      && r.forums == [] && r.queued == []
      && done.openTasks == 0 && done.signalled && done.failed
      && forall w :: !Succeeded(done, w)
  {
  }

  /** One leading `"- "` is removed from a subforum's subtitle. */
  function StripGarbage(subtitle: string): (r: string)
    ensures |subtitle| >= 2 && subtitle[..2] == "- " ==> subtitle == "- " + r
    ensures !(|subtitle| >= 2 && subtitle[..2] == "- ") ==> r == subtitle
  {
    if |subtitle| >= 2 && subtitle[..2] == "- " then subtitle[2..] else subtitle
  }

  lemma StripGarbageOnce()
    ensures StripGarbage("- - Goons") == "- Goons"
    ensures StripGarbage("-Goons") == "-Goons"
    ensures StripGarbage("- ") == ""
  {
    assert ("- - Goons")[..2] == "- ";
    assert ("- ")[..2] == "- ";
    assert ("-Goons")[..2] != "- " by { assert ("-Goons")[..2][1] == 'G'; }
  }

  /** A subforum row of a forum page. */
  datatype Row = Row(title: string, subtitle: string, url: string)

  function RowLinks(rows: seq<Row>): (r: seq<Link>)
    ensures |r| == |rows|
    ensures forall i :: 0 <= i < |rows| ==> r[i] == Link(rows[i].title, StripGarbage(rows[i].subtitle), rows[i].url)
  {
    seq(|rows|, i requires 0 <= i < |rows| => Link(rows[i].title, StripGarbage(rows[i].subtitle), rows[i].url))
  }

  /**
   * `parseSubforums`: each row becomes a subforum of `forum`, appended to its
   * list, with the forum's id as parent and the subtitle stripped. The result
   * is the forum with its extended list.
   */
  function ParseSubforums(c: Crawl, forum: Forum, rows: seq<Row>, idOf: string -> Option<int>): (r: (Crawl, Forum, seq<Request>))
  {
    var p := AddAll(c, forum.subforums, forum.id, RowLinks(rows), idOf);
    (p.crawl, forum.(subforums := p.forums), p.queued)
  }

  /** A forum page extends the forum's own subforums only, keeping its other fields, and counts what it queues. */
  lemma SubforumsAdded(c: Crawl, forum: Forum, rows: seq<Row>, idOf: string -> Option<int>)
    ensures var (c', f', queued) := ParseSubforums(c, forum, rows, idOf);
      && Copy(f') == Copy(forum)
      && f'.subforums == forum.subforums + Yield(RowLinks(rows), forum.id, idOf)
      && (forall g :: g in Yield(RowLinks(rows), forum.id, idOf) ==> g.parentId == forum.id && g.subforums == [])
      && c'.openTasks == c.openTasks + |queued| && c'.failed == c.failed && c'.signalled == c.signalled
  {
    AddAllEffect(c, forum.subforums, forum.id, RowLinks(rows), idOf);
    YieldFields(RowLinks(rows), forum.id, idOf);
  }

  /** A row with no parsable id adds nothing and queues nothing; a row with an empty url is added but not crawled. */
  lemma RowPolicy(c: Crawl, forum: Forum, row: Row, idOf: string -> Option<int>)
    ensures idOf(row.url).None? ==> ParseSubforums(c, forum, [row], idOf) == (c, forum, [])
    ensures idOf(row.url).Some? && row.url == "" ==>
      var (c', f', queued) := ParseSubforums(c, forum, [row], idOf);
      c' == c && queued == [] && |f'.subforums| == |forum.subforums| + 1
  {
    var links := RowLinks([row]);
    var first := AddForumToList(c, forum.subforums, forum.id, links[0], idOf);
    assert links[1..] == [];
    assert AddAll(first.crawl, first.forums, forum.id, links[1..], idOf) == Parsed(first.crawl, first.forums, []);
    assert first.queued + [] == first.queued;
    assert forum.(subforums := forum.subforums) == forum;
  }

  /** `MainForumRequest`: parse the page, then finish the request. */
  function MainResponse(c: Crawl, top: seq<Forum>, sections: seq<Section>, idOf: string -> Option<int>): Parsed {
    var p := ParseMainSections(c, top, sections, idOf);
    Parsed(FinishTask(p.crawl, true), p.forums, p.queued)
  }

  /** `ParseSubforumsRequest`: parse the page, then finish the request. */
  function SubforumsResponse(c: Crawl, forum: Forum, rows: seq<Row>, idOf: string -> Option<int>): (Crawl, Forum, seq<Request>) {
    var (c', f', queued) := ParseSubforums(c, forum, rows, idOf);
    (FinishTask(c', true), f', queued)
  }

  /** The page handlers keep the task's bookkeeping invariant: what they queue is counted before they finish. */
  lemma ResponsesKeepRunning(c: Crawl, top: seq<Forum>, sections: seq<Section>, forum: Forum,
                             rows: seq<Row>, idOf: string -> Option<int>)
    requires Running(c) && c.openTasks > 0
    ensures Running(MainResponse(c, top, sections, idOf).crawl)
    ensures Running(SubforumsResponse(c, forum, rows, idOf).0)
  {
    if sections != [] {
      AddAllEffect(c, top, TopLevelParentId, SectionLinks(sections), idOf);
    }
    AddAllEffect(c, forum.subforums, forum.id, RowLinks(rows), idOf);
  }

  /** The callback gets the section list only on success, and `null` otherwise. */
  lemma SectionsOnlyOnSuccess(c: Crawl, w: Wake, sections: seq<Forum>)
    ensures Deliver(c, w, sections).1 == (if Succeeded(c, w) then Some(sections) else None)
    ensures w == Interrupted ==> Deliver(c, w, sections) == (false, None)
    ensures c.failed ==> Deliver(c, w, sections) == (false, None)
  {
  }
}
