/**
 * What `buildFromForumTree` and the list getters promise: the copy keeps the
 * shape, order, ids, titles and subtitles of its source and recomputes every
 * parent id from the nesting; the flat list is the pre-order traversal; the
 * two-level lists are at most two deep and flatten to the same list.
 */
module ForumTreeCopy {
  import opened Forums
  import opened ForumStructure

  // ---------------------------------------------------------------------
  // buildFromForumTree
  // ---------------------------------------------------------------------

  /** `a` and `b` have the same shape and agree on ids, titles and subtitles at every node. */
  ghost predicate SameShape(a: seq<Forum>, b: seq<Forum>)
    decreases a
  {
    && |a| == |b|
    && forall k :: 0 <= k < |a| ==>
         && a[k].id == b[k].id && a[k].title == b[k].title && a[k].subtitle == b[k].subtitle
         && SameShape(a[k].subforums, b[k].subforums)
  }

  /** Every forum's parent id is the id of the forum holding it, and `p` at the top. */
  ghost predicate Nested(fs: seq<Forum>, p: int)
    decreases fs
  {
    forall k :: 0 <= k < |fs| ==> fs[k].parentId == p && Nested(fs[k].subforums, fs[k].id)
  }

  lemma CopyUnfold(src: seq<Forum>, p: int)
    requires src != []
    ensures CopyTreeWithParentId(src, p)
         == [Forum(src[0].id, p, src[0].title, src[0].subtitle, CopyTreeWithParentId(src[0].subforums, src[0].id))]
            + CopyTreeWithParentId(src[1..], p)
  {
  }

  /** The copy has its source's shape and parent ids that follow the nesting. */
  lemma {:induction false} CopyShape(src: seq<Forum>, p: int)
    ensures SameShape(CopyTreeWithParentId(src, p), src)
    ensures Nested(CopyTreeWithParentId(src, p), p)
    decreases src
  {
    if src != [] {
      CopyShape(src[0].subforums, src[0].id);
      CopyShape(src[1..], p);
      CopyUnfold(src, p);
      var r := CopyTreeWithParentId(src, p);
      var rest := CopyTreeWithParentId(src[1..], p);
      forall k | 0 <= k < |r|
        ensures r[k].id == src[k].id && r[k].title == src[k].title && r[k].subtitle == src[k].subtitle
        ensures SameShape(r[k].subforums, src[k].subforums)
        ensures r[k].parentId == p && Nested(r[k].subforums, r[k].id)
      {
        if k > 0 {
          assert r[k] == rest[k - 1] && src[k] == src[1..][k - 1];
        }
      }
    }
  }

  /** Only the copy has its source's shape and parent ids following the nesting. */
  lemma {:induction false} ShapeDeterminesCopy(r: seq<Forum>, src: seq<Forum>, p: int)
    requires SameShape(r, src) && Nested(r, p)
    ensures r == CopyTreeWithParentId(src, p)
    decreases r
  {
    if r != [] {
      ShapeDeterminesCopy(r[0].subforums, src[0].subforums, r[0].id);
      forall k | 0 <= k < |r[1..]|
        ensures r[1..][k].id == src[1..][k].id && r[1..][k].title == src[1..][k].title
        ensures r[1..][k].subtitle == src[1..][k].subtitle
        ensures SameShape(r[1..][k].subforums, src[1..][k].subforums)
        ensures r[1..][k].parentId == p && Nested(r[1..][k].subforums, r[1..][k].id)
      {
        assert r[1..][k] == r[k + 1] && src[1..][k] == src[k + 1];
      }
      ShapeDeterminesCopy(r[1..], src[1..], p);
      CopyUnfold(src, p);
      assert r == [r[0]] + r[1..];
    }
  }

  /**
   * `buildFromForumTree` is characterised by its promise: a tree is its result
   * exactly when it has the source's shape, order, ids, titles and subtitles,
   * and every parent id is that of the containing forum (`topLevelId` at the top).
   */
  lemma BuildFromForumTreeCharacterised(forumTree: seq<Forum>, topLevelId: int, r: seq<Forum>)
    ensures r == BuildFromForumTree(forumTree, topLevelId)
        <==> SameShape(r, forumTree) && Nested(r, topLevelId)
  {
    CopyShape(forumTree, topLevelId);
    if SameShape(r, forumTree) && Nested(r, topLevelId) {
      ShapeDeterminesCopy(r, forumTree, topLevelId);
    }
  }

  /** A tree whose parent ids already follow its nesting is copied unchanged. */
  lemma NestedCopiedUnchanged(forumTree: seq<Forum>, topLevelId: int)
    requires Nested(forumTree, topLevelId)
    ensures BuildFromForumTree(forumTree, topLevelId) == forumTree
  {
    SameShapeRefl(forumTree);
    ShapeDeterminesCopy(forumTree, forumTree, topLevelId);
  }

  lemma {:induction false} SameShapeRefl(fs: seq<Forum>)
    ensures SameShape(fs, fs)
    decreases fs
  {
    forall k | 0 <= k < |fs| ensures SameShape(fs[k].subforums, fs[k].subforums) {
      SameShapeRefl(fs[k].subforums);
    }
  }

  /** Copying twice is copying once. */
  lemma BuildFromForumTreeIdempotent(forumTree: seq<Forum>, topLevelId: int)
    ensures BuildFromForumTree(BuildFromForumTree(forumTree, topLevelId), topLevelId)
         == BuildFromForumTree(forumTree, topLevelId)
  {
    CopyShape(forumTree, topLevelId);
    NestedCopiedUnchanged(BuildFromForumTree(forumTree, topLevelId), topLevelId);
  }

  // ---------------------------------------------------------------------
  // The list getters
  // ---------------------------------------------------------------------

  lemma {:induction false} CollectAppend(a: seq<Forum>, b: seq<Forum>)
    ensures CollectSubforums(a + b) == CollectSubforums(a) + CollectSubforums(b)
    decreases a
  {
    if a == [] {
      assert a + b == b;
    } else {
      assert (a + b)[0] == a[0] && (a + b)[1..] == a[1..] + b;
      CollectAppend(a[1..], b);
    }
  }

  /**
   * The flat list holds a childless copy of every forum, in pre-order: its
   * entries are the copies of the tree's nodes, so each carries its node's
   * id, parent id, title and subtitle.
   */
  lemma {:induction false} FlatIsPreOrder(forumTree: seq<Forum>)
    ensures GetFlatList(forumTree) == Records(PreOrderNodes(forumTree))
    ensures Records(GetFlatList(forumTree)) == GetFlatList(forumTree)
    ensures Ids(GetFlatList(forumTree)) == PreOrderIds(forumTree)
    ensures |GetFlatList(forumTree)| == Count(forumTree)
    decreases forumTree
  {
    if forumTree != [] {
      var head := [Copy(forumTree[0])] + CollectSubforums(forumTree[0].subforums);
      FlatIsPreOrder(forumTree[0].subforums);
      FlatIsPreOrder(forumTree[1..]);
      IdsAppend(head, CollectSubforums(forumTree[1..]));
      IdsAppend([Copy(forumTree[0])], CollectSubforums(forumTree[0].subforums));
      RecordsAppend(head, CollectSubforums(forumTree[1..]));
      RecordsAppend([Copy(forumTree[0])], CollectSubforums(forumTree[0].subforums));
      NodesRecords(forumTree);
    }
  }

  /** Copying the pre-order nodes of a non-empty forest, piece by piece. */
  lemma NodesRecords(fs: seq<Forum>)
    requires fs != []
    ensures Records(PreOrderNodes(fs))
         == [Copy(fs[0])] + Records(PreOrderNodes(fs[0].subforums)) + Records(PreOrderNodes(fs[1..]))
  {
    var front := [fs[0]] + PreOrderNodes(fs[0].subforums);
    RecordsAppend(front, PreOrderNodes(fs[1..]));
    RecordsAppend([fs[0]], PreOrderNodes(fs[0].subforums));
  }

  lemma ChildlessDepth(fs: seq<Forum>)
    requires Childless(fs)
    ensures Depth(fs) <= 1
  {
    if fs != [] {
      assert fs[0].subforums == [];
      assert Childless(fs[1..]) by {
        forall k | 0 <= k < |fs[1..]| ensures fs[1..][k].subforums == [] {
          assert fs[1..][k] == fs[k + 1];
        }
      }
      ChildlessDepth(fs[1..]);
    }
  }

  /** The flat list is at most one level deep. */
  lemma FlatDepth(forumTree: seq<Forum>)
    ensures Depth(GetFlatList(forumTree)) <= 1
  {
    ChildlessDepth(GetFlatList(forumTree));
  }

  /** Every entry of a list is at most `d` deep. */
  ghost predicate EntriesWithin(fs: seq<Forum>, d: nat) {
    forall k :: 0 <= k < |fs| ==> 1 + Depth(fs[k].subforums) <= d
  }

  lemma {:induction false} DepthWithin(fs: seq<Forum>, d: nat)
    requires EntriesWithin(fs, d)
    ensures Depth(fs) <= d
    decreases |fs|
  {
    if fs != [] {
      assert EntriesWithin(fs[1..], d) by {
        forall k | 0 <= k < |fs[1..]| ensures 1 + Depth(fs[1..][k].subforums) <= d {
          assert fs[1..][k] == fs[k + 1];
        }
      }
      DepthWithin(fs[1..], d);
    }
  }

  /**
   * `getTwoLevelList` keeps the top-level forums in order, gives each one its
   * whole subtree as one flat list, and so is at most two levels deep.
   */
  lemma TwoLevelListShape(forumTree: seq<Forum>)
    ensures Records(GetTwoLevelList(forumTree)) == Records(forumTree)
    ensures forall k :: 0 <= k < |forumTree| ==>
              GetTwoLevelList(forumTree)[k].subforums == GetFlatList(forumTree[k].subforums)
    ensures Depth(GetTwoLevelList(forumTree)) <= 2
  {
    var r := GetTwoLevelList(forumTree);
    forall k | 0 <= k < |r| ensures 1 + Depth(r[k].subforums) <= 2 {
      FlatDepth(forumTree[k].subforums);
    }
    DepthWithin(r, 2);
  }

  /** Flattening the two-level list gives the flat list of the tree. */
  lemma {:induction false} TwoLevelFlattensToFlat(forumTree: seq<Forum>)
    ensures GetFlatList(GetTwoLevelList(forumTree)) == GetFlatList(forumTree)
    decreases |forumTree|
  {
    if forumTree != [] {
      var r := GetTwoLevelList(forumTree);
      assert r[1..] == GetTwoLevelList(forumTree[1..]);
      TwoLevelFlattensToFlat(forumTree[1..]);
      CollectIdempotent(forumTree[0].subforums);
    }
  }

  /** Collecting an already collected (childless) list changes nothing. */
  lemma {:induction false} CollectIdempotent(fs: seq<Forum>)
    ensures CollectSubforums(CollectSubforums(fs)) == CollectSubforums(fs)
  {
    FlatIsPreOrder(fs);
    CollectChildless(CollectSubforums(fs));
  }

  lemma {:induction false} CollectChildless(fs: seq<Forum>)
    requires Childless(fs) && Records(fs) == fs
    ensures CollectSubforums(fs) == fs
    decreases |fs|
  {
    if fs != [] {
      assert fs[0].subforums == [] && Copy(fs[0]) == Records(fs)[0] == fs[0];
      assert Childless(fs[1..]) && Records(fs[1..]) == fs[1..] by {
        forall k | 0 <= k < |fs[1..]| ensures fs[1..][k].subforums == [] && Records(fs[1..])[k] == fs[1..][k] {
          assert fs[1..][k] == fs[k + 1];
        }
      }
      CollectChildless(fs[1..]);
      assert fs == [fs[0]] + fs[1..];
    }
  }

  /**
   * `getTwoLevelListWithCategories` lists each category as a childless entry
   * followed by its forums, each carrying its whole subtree as one flat list.
   */
  lemma {:induction false} WithCategoriesShape(forumTree: seq<Forum>)
    ensures GetTwoLevelListWithCategories(forumTree) == []
        <==> forumTree == []
    ensures forumTree != [] ==>
              GetTwoLevelListWithCategories(forumTree)[0] == Copy(forumTree[0])
    ensures Depth(GetTwoLevelListWithCategories(forumTree)) <= 2
    ensures |GetTwoLevelListWithCategories(forumTree)|
         == |forumTree| + SumChildren(forumTree)
    decreases |forumTree|
  {
    if forumTree != [] {
      var c := forumTree[0];
      var mid := GetTwoLevelList(c.subforums);
      var rest := GetTwoLevelListWithCategories(forumTree[1..]);
      WithCategoriesShape(forumTree[1..]);
      TwoLevelListShape(c.subforums);
      DepthConcat([Copy(c)] + mid, rest);
      DepthConcat([Copy(c)], mid);
    }
  }

  /**
   * The categories with their direct children under them: each top-level
   * forum as a childless copy, followed by its subforums themselves.
   */
  function Headed(fs: seq<Forum>): seq<Forum>
    decreases |fs|
  {
    if fs == [] then [] else [Copy(fs[0])] + fs[0].subforums + Headed(fs[1..])
  }

  lemma TwoLevelAppend(a: seq<Forum>, b: seq<Forum>)
    ensures GetTwoLevelList(a + b) == GetTwoLevelList(a) + GetTwoLevelList(b)
  {
  }

  /**
   * `getTwoLevelListWithCategories` is `getTwoLevelList` of the categories
   * with their direct children: each category is a childless entry, followed
   * by exactly its own subforums in order, each carrying its flattened subtree.
   */
  lemma {:induction false} WithCategoriesIsTwoLevel(forumTree: seq<Forum>)
    ensures GetTwoLevelListWithCategories(forumTree) == GetTwoLevelList(Headed(forumTree))
    decreases |forumTree|
  {
    if forumTree != [] {
      var c := forumTree[0];
      WithCategoriesIsTwoLevel(forumTree[1..]);
      TwoLevelAppend([Copy(c)] + c.subforums, Headed(forumTree[1..]));
      TwoLevelAppend([Copy(c)], c.subforums);
      assert GetTwoLevelList([Copy(c)]) == [Copy(c)];
    }
  }

  /** The number of direct children of the top-level forums. */
  function SumChildren(fs: seq<Forum>): nat {
    if fs == [] then 0 else |fs[0].subforums| + SumChildren(fs[1..])
  }

  lemma {:induction false} DepthConcat(a: seq<Forum>, b: seq<Forum>)
    ensures Depth(a + b) == if Depth(a) < Depth(b) then Depth(b) else Depth(a)
    decreases |a|
  {
    if a == [] {
      assert a + b == b;
    } else {
      assert (a + b)[0] == a[0] && (a + b)[1..] == a[1..] + b;
      DepthConcat(a[1..], b);
    }
  }

  /** Flattening the categorised list gives the flat list of the tree. */
  lemma {:induction false} WithCategoriesFlattensToFlat(forumTree: seq<Forum>)
    ensures GetFlatList(GetTwoLevelListWithCategories(forumTree)) == GetFlatList(forumTree)
    decreases |forumTree|
  {
    if forumTree != [] {
      var c := forumTree[0];
      var mid := GetTwoLevelList(c.subforums);
      var rest := GetTwoLevelListWithCategories(forumTree[1..]);
      WithCategoriesFlattensToFlat(forumTree[1..]);
      TwoLevelFlattensToFlat(c.subforums);
      CollectAppend([Copy(c)] + mid, rest);
      CollectAppend([Copy(c)], mid);
      assert CollectSubforums([Copy(c)]) == [Copy(c)] + CollectSubforums([]) + CollectSubforums([Copy(c)][1..]);
    }
  }
}
