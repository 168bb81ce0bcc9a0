/**
 * The forum tree engine: building an ordered forum tree from a flat list of
 * records or from another tree, and projecting a tree into list shapes.
 * A ForumStructure is represented by its list of top-level forums (its
 * `forumTree` field); `getForumTree` is that list itself.
 */
module ForumStructure {
  import opened Forums

  /**
   * The `LinkedHashMap<Integer, Forum>` that `buildFromOrderedList` indexes its
   * input with: keys in the order they were first put, each mapped to the
   * forum put last under that key.
   */
  datatype ForumIndex = ForumIndex(keys: seq<int>, byId: map<int, Forum>)

  ghost predicate WellFormed(ix: ForumIndex) {
    && Distinct(ix.keys)
    && (forall k :: k in ix.byId <==> k in ix.keys)
    && (forall j :: 0 <= j < |ix.keys| ==> ix.keys[j] in ix.byId)
    && (forall k :: k in ix.byId ==> ix.byId[k].id == k)
  }

  /** `forumsById.put(forum.id, forum)`: a new key goes to the end, an existing key keeps its place. */
  function Put(ix: ForumIndex, f: Forum): ForumIndex {
    ForumIndex(if f.id in ix.byId then ix.keys else ix.keys + [f.id], ix.byId[f.id := f])
  }

  /** The index after putting every record, in list order. */
  function IndexAll(recs: seq<Forum>): (ix: ForumIndex)
    ensures WellFormed(ix)
    ensures forall k :: k in ix.byId <==> k in Ids(recs)
    decreases |recs|
  {
    if recs == [] then ForumIndex([], map[])
    else
      var front := recs[..|recs| - 1];
      var last := recs[|recs| - 1];
      assert recs == front + [last];
      IdsAppend(front, [last]);
      Put(IndexAll(front), last)
  }

  /** The forums in the index, in key order: `forumsById.values()`. */
  function Entries(ix: ForumIndex): (r: seq<Forum>)
    requires WellFormed(ix)
    ensures |r| == |ix.keys|
    ensures forall j :: 0 <= j < |r| ==> r[j] == ix.byId[ix.keys[j]]
  {
    seq(|ix.keys|, j requires 0 <= j < |ix.keys| => ix.byId[ix.keys[j]])
  }

  function Elems(path: seq<int>): set<int> {
    set x | x in path
  }

  /**
   * Whether forum `c` is listed under the node reached by `path` (the ids from a
   * root down to that node): at the top, forums whose parent is `topLevelId`;
   * below, forums whose parent is the node's id. A node whose own id is
   * `topLevelId` gets no subforums, since those forums went to the top level.
   * The last conjunct never excludes anything on a real parent chain (see
   * ForumTreeBuild.ChainStepIsFresh); it bounds the recursion.
   */
  predicate Picks(topLevelId: int, path: seq<int>, c: Forum) {
    if path == [] then c.parentId == topLevelId
    else c.parentId == path[|path| - 1] && path[|path| - 1] != topLevelId && c.id !in path
  }

  lemma FewerUnvisited(all: set<int>, path: seq<int>, x: int)
    requires x in all && x !in path
    ensures |all - Elems(path + [x])| < |all - Elems(path)|
  {
    assert Elems(path + [x]) == Elems(path) + {x};
    assert all - Elems(path) == (all - Elems(path + [x])) + {x};
  }

  /**
   * The forums listed under the node at `path`, drawn from the index entries
   * from position `i` on, each carrying its own subforums.
   */
  function Forest(ix: ForumIndex, topLevelId: int, path: seq<int>, i: nat): (r: seq<Forum>)
    requires WellFormed(ix) && i <= |ix.keys|
    decreases |ix.byId.Keys - Elems(path)|, |ix.keys| - i
  {
    if i == |ix.keys| then []
    else
      var c := ix.byId[ix.keys[i]];
      var rest := Forest(ix, topLevelId, path, i + 1);
      if Picks(topLevelId, path, c) then
        assert c.id == ix.keys[i] && c.id in ix.byId.Keys;
        FewerUnvisited(ix.byId.Keys, path, c.id);
        [Forum(c.id, c.parentId, c.title, c.subtitle, Forest(ix, topLevelId, path + [c.id], 0))] + rest
      else rest
  }

  /**
   * `buildFromOrderedList`: the tree of the records whose parent chain reaches
   * `topLevelId`, each list in input order. The records' own subforum lists are
   * not consulted.
   */
  function BuildFromOrderedList(orderedForums: seq<Forum>, topLevelId: int): (r: seq<Forum>)
    ensures orderedForums == [] ==> r == []
  {
    Forest(IndexAll(orderedForums), topLevelId, [], 0)
  }

  /**
   * The index keeps, under each id, the last record carrying it: a later put
   * of the same key replaces the value.
   */
  lemma {:induction false} LastPutPosition(recs: seq<Forum>, k: int) returns (j: nat)
    requires k in IndexAll(recs).byId
    ensures j < |recs| && recs[j] == IndexAll(recs).byId[k]
    ensures forall j' :: j < j' < |recs| ==> recs[j'].id != k
  {
    var front := recs[..|recs| - 1];
    var last := recs[|recs| - 1];
    var ixf := IndexAll(front);
    assert IndexAll(recs).byId == ixf.byId[last.id := last];
    if last.id != k {
      assert k in ixf.byId;
      var j0 := LastPutPosition(front, k);
      assert recs[j0] == front[j0];
      assert IndexAll(recs).byId[k] == ixf.byId[k];
      NoLaterId(recs, front, j0, k);
      j := j0;
    } else {
      j := |recs| - 1;
    }
  }

  lemma NoLaterId(recs: seq<Forum>, front: seq<Forum>, j: nat, k: int)
    requires |recs| >= 1 && front == recs[..|recs| - 1] && recs[|recs| - 1].id != k && j < |front|
    requires forall j' :: j < j' < |front| ==> front[j'].id != k
    ensures forall j' :: j < j' < |recs| ==> recs[j'].id != k
  {
  }

  lemma RecordsHasCopy(fs: seq<Forum>, f: Forum)
    requires f in fs
    ensures Copy(f) in Records(fs)
  {
    if fs[0] != f {
      RecordsHasCopy(fs[1..], f);
    }
  }

  /** `copyTreeWithParentId`: a deep copy whose parent ids are recomputed from the structure. */
  function CopyTreeWithParentId(sourceTree: seq<Forum>, parentId: int): seq<Forum>
    decreases sourceTree
  {
    if sourceTree == [] then []
    else
      var s := sourceTree[0];
      [Forum(s.id, parentId, s.title, s.subtitle, CopyTreeWithParentId(s.subforums, s.id))]
        + CopyTreeWithParentId(sourceTree[1..], parentId)
  }

  /** `buildFromForumTree`. */
  function BuildFromForumTree(forumTree: seq<Forum>, topLevelId: int): seq<Forum> {
    CopyTreeWithParentId(forumTree, topLevelId)
  }

  /** `collectSubforums`: copies of every forum of a forest, in pre-order, all childless. */
  function CollectSubforums(source: seq<Forum>): (r: seq<Forum>)
    ensures |r| == Count(source)
    ensures Childless(r)
    decreases source
  {
    if source == [] then []
    else [Copy(source[0])] + CollectSubforums(source[0].subforums) + CollectSubforums(source[1..])
  }

  /**
   * `getFlatList`: a copy of each top-level forum followed by its collected
   * subforums, which is `collectSubforums` applied to the top-level list.
   */
  function GetFlatList(forumTree: seq<Forum>): seq<Forum> {
    CollectSubforums(forumTree)
  }

  /** `getTwoLevelList`: each top-level forum with its whole subtree collected as its subforums. */
  function GetTwoLevelList(forumTree: seq<Forum>): (r: seq<Forum>)
    ensures |r| == |forumTree|
  {
    seq(|forumTree|, k requires 0 <= k < |forumTree| =>
      Copy(forumTree[k]).(subforums := CollectSubforums(forumTree[k].subforums)))
  }

  /**
   * `getTwoLevelListWithCategories`: each category as a childless entry,
   * followed by its forums, each with its whole subtree collected.
   */
  function GetTwoLevelListWithCategories(forumTree: seq<Forum>): seq<Forum>
    decreases forumTree
  {
    if forumTree == [] then []
    else
      [Copy(forumTree[0])] + GetTwoLevelList(forumTree[0].subforums)
        + GetTwoLevelListWithCategories(forumTree[1..])
  }
}
