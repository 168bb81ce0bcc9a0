/**
 * The scenarios of ForumStructureTest, stated over the model: five forums
 * 1 and 2 at the top level, 3 and 4 under 2, 5 under 3.
 */
module ForumExamples {
  import opened Forums
  import opened ForumStructure
  import opened ForumTreeBuild
  import opened ForumTreeCopy

  const F1 := Forum(1, 0, "1", "", [])
  const F2 := Forum(2, 0, "2", "", [])
  const F3 := Forum(3, 2, "2-1", "", [])
  const F4 := Forum(4, 2, "2-2", "", [])
  const F5 := Forum(5, 3, "2-1-1", "", [])

  /** The tree 1, 2[3[5], 4]. */
  const ExpectedTree := [F1, F2.(subforums := [F3.(subforums := [F5]), F4])]

  /** The ordered list 1, 2, 3, 4, 5 builds the expected tree. */
  lemma BuildFromOrderedListExample()
    ensures BuildFromOrderedList([F1, F2, F3, F4, F5], 0) == ExpectedTree
  {
    var recs := [F1, F2, F3, F4, F5];
    IndexOfDistinct(recs);
    RootsInOrder(recs, 0);
    SiblingsInOrder(recs, 0);
    ExpectedTreeFits(BuildFromOrderedList(recs, 0), recs);
  }

  /** With 2 as the top-level id only forum 2's branch survives: 3[5], 4. */
  lemma OrphanedNodesExample()
    ensures BuildFromOrderedList([F1, F2, F3, F5, F4], 2) == ExpectedTree[1].subforums
  {
    var recs := [F1, F2, F3, F5, F4];
    IndexOfDistinct(recs);
    RootsInOrder(recs, 2);
    SiblingsInOrder(recs, 2);
    BranchFits(BuildFromOrderedList(recs, 2), recs, 2);
  }

  lemma IndexOfDistinct(recs: seq<Forum>)
    requires recs == [F1, F2, F3, F4, F5] || recs == [F1, F2, F3, F5, F4]
    ensures Entries(IndexAll(recs)) == recs
  {
    assert Ids(recs) == [recs[0].id, recs[1].id, recs[2].id, recs[3].id, recs[4].id];
    DistinctIndex(recs);
  }

  /** The records of five forums naming `p` as their parent. */
  lemma ParentLists(a: Forum, b: Forum, c: Forum, d: Forum, e: Forum, p: int)
    requires a.subforums == b.subforums == c.subforums == d.subforums == e.subforums == []
    ensures WithParent([a, b, c, d, e], p) == Keep(a, p) + (Keep(b, p) + (Keep(c, p) + (Keep(d, p) + Keep(e, p))))
  {
    WithParentCons([a, b, c, d, e], [b, c, d, e], p);
    WithParentCons([b, c, d, e], [c, d, e], p);
    WithParentCons([c, d, e], [d, e], p);
    WithParentCons([d, e], [e], p);
    WithParentCons([e], [], p);
    assert WithParent([], p) == [];
    assert Keep(e, p) + [] == Keep(e, p);
  }

  /** The record of `f` when it names `p` as parent. */
  function Keep(f: Forum, p: int): seq<Forum> {
    if f.parentId == p then [Copy(f)] else []
  }

  lemma WithParentCons(fs: seq<Forum>, rest: seq<Forum>, p: int)
    requires fs != [] && fs[1..] == rest
    ensures WithParent(fs, p) == Keep(fs[0], p) + WithParent(rest, p)
  {
  }

  lemma AssembledAt(t: seq<Forum>, entries: seq<Forum>, top: int, k: nat)
    requires Assembled(t, entries, top) && k < |t|
    ensures Records(t[k].subforums) == ListedUnder(entries, top, t[k].id)
    ensures Assembled(t[k].subforums, entries, top)
  {
  }

  /** A node whose copy is `r` and whose subforums are `kids`. */
  lemma Rebuild(f: Forum, r: Forum, kids: seq<Forum>)
    requires Copy(f) == r && f.subforums == kids
    ensures f == r.(subforums := kids)
  {
  }

  /** The only tree with the roots and children the builder lists for 1, 2, 3, 4, 5. */
  lemma ExpectedTreeFits(t: seq<Forum>, recs: seq<Forum>)
    requires recs == [F1, F2, F3, F4, F5]
    requires Records(t) == WithParent(recs, 0) && Assembled(t, recs, 0)
    ensures t == ExpectedTree
  {
    ParentLists(F1, F2, F3, F4, F5, 0);
    ParentLists(F1, F2, F3, F4, F5, 1);
    assert Records(t) == [F1, F2];
    AssembledAt(t, recs, 0, 0);
    assert Records(t[0].subforums) == [];
    Rebuild(t[0], F1, []);
    AssembledAt(t, recs, 0, 1);
    BranchFits(t[1].subforums, recs, 0);
    Rebuild(t[1], F2, ExpectedTree[1].subforums);
    assert t == [t[0], t[1]];
  }

  /** The only forest with the records 3, 4 the builder assembles from the records `recs`. */
  lemma BranchFits(t: seq<Forum>, recs: seq<Forum>, top: int)
    requires recs == [F1, F2, F3, F4, F5] || recs == [F1, F2, F3, F5, F4]
    requires top == 0 || top == 2
    requires Records(t) == WithParent(recs, 2) && Assembled(t, recs, top)
    ensures t == ExpectedTree[1].subforums
  {
    assert recs == [recs[0], recs[1], recs[2], recs[3], recs[4]];
    ParentLists(recs[0], recs[1], recs[2], recs[3], recs[4], 2);
    ParentLists(recs[0], recs[1], recs[2], recs[3], recs[4], 3);
    ParentLists(recs[0], recs[1], recs[2], recs[3], recs[4], 4);
    ParentLists(recs[0], recs[1], recs[2], recs[3], recs[4], 5);
    assert Records(t) == [F3, F4];
    AssembledAt(t, recs, top, 0);
    var t5 := t[0].subforums;
    assert Records(t5) == [F5];
    AssembledAt(t5, recs, top, 0);
    assert Records(t5[0].subforums) == [];
    Rebuild(t5[0], F5, []);
    assert t5 == [F5];
    Rebuild(t[0], F3, [F5]);
    AssembledAt(t, recs, top, 1);
    assert Records(t[1].subforums) == [];
    Rebuild(t[1], F4, []);
    assert t == [t[0], t[1]];
  }

  lemma EmptyExamples()
    ensures BuildFromOrderedList([], 0) == []
    ensures BuildFromForumTree([], 0) == []
  {
  }

  /** A tree of the expected shape whose parent ids are all wrong is copied into the expected tree. */
  lemma BuildFromForumTreeExample()
    ensures var source := [F1, Forum(2, 33, "2", "", [Forum(3, 1, "2-1", "", [Forum(5, 6, "2-1-1", "", [])]),
                                                     Forum(4, 3, "2-2", "", [])])];
            source != ExpectedTree && BuildFromForumTree(source, 0) == ExpectedTree
  {
    var s5 := Forum(5, 6, "2-1-1", "", []);
    var s4 := Forum(4, 3, "2-2", "", []);
    var s3 := Forum(3, 1, "2-1", "", [s5]);
    var s2 := Forum(2, 33, "2", "", [s3, s4]);
    assert CopyTreeWithParentId([], 0) == [];
    CopyCons([s5], [], 3);
    assert CopyTreeWithParentId([s5], 3) == [F5];
    CopyCons([s4], [], 2);
    assert CopyTreeWithParentId([s4], 2) == [F4];
    CopyCons([s3, s4], [s4], 2);
    assert CopyTreeWithParentId([s3, s4], 2) == ExpectedTree[1].subforums;
    CopyCons([s2], [], 0);
    assert CopyTreeWithParentId([s2], 0) == [ExpectedTree[1]];
    CopyCons([F1, s2], [s2], 0);
    assert CopyTreeWithParentId([F1, s2], 0) == ExpectedTree;
    assert [F1, s2][1] != ExpectedTree[1];
  }

  lemma CopyCons(fs: seq<Forum>, rest: seq<Forum>, p: int)
    requires fs != [] && fs[1..] == rest
    ensures CopyTreeWithParentId(fs, p)
         == [Forum(fs[0].id, p, fs[0].title, fs[0].subtitle, CopyTreeWithParentId(fs[0].subforums, fs[0].id))]
            + CopyTreeWithParentId(rest, p)
  {
  }

  /** The expected tree already carries the parent ids its nesting implies. */
  lemma ExpectedTreeNested()
    ensures BuildFromForumTree(ExpectedTree, 0) == ExpectedTree
  {
    var t3 := ExpectedTree[1].subforums;
    assert Nested(t3[0].subforums, 3);
    assert Nested(t3[1].subforums, 4);
    assert Nested(t3, 2);
    assert Nested(ExpectedTree[0].subforums, 1);
    assert Nested(ExpectedTree, 0);
    NestedCopiedUnchanged(ExpectedTree, 0);
  }

  /** Collecting the subforums of 3[5], 4 gives 3, 5, 4. */
  lemma BranchCollected()
    ensures CollectSubforums(ExpectedTree[1].subforums) == [F3, F5, F4]
  {
    var t3 := ExpectedTree[1].subforums;
    CollectCons([F5], []);
    CollectCons(t3, [F4]);
    CollectCons([F4], []);
  }

  lemma CollectCons(fs: seq<Forum>, rest: seq<Forum>)
    requires fs != [] && fs[1..] == rest
    ensures CollectSubforums(fs) == [Copy(fs[0])] + CollectSubforums(fs[0].subforums) + CollectSubforums(rest)
  {
  }

  /** Flattening the expected tree gives 1, 2, 3, 5, 4. */
  lemma FlatListExample()
    ensures GetFlatList(BuildFromForumTree(ExpectedTree, 0)) == [F1, F2, F3, F5, F4]
  {
    ExpectedTreeNested();
    BranchCollected();
    CollectCons(ExpectedTree, [ExpectedTree[1]]);
    CollectCons([ExpectedTree[1]], []);
  }

  /** The two-level list of the expected tree is 1, 2[3, 5, 4]. */
  lemma TwoLevelListExample()
    ensures GetTwoLevelList(BuildFromForumTree(ExpectedTree, 0)) == [F1, F2.(subforums := [F3, F5, F4])]
  {
    ExpectedTreeNested();
    BranchCollected();
    var r := GetTwoLevelList(ExpectedTree);
    assert r[0] == F1;
    assert r[1] == F2.(subforums := [F3, F5, F4]);
  }
}
