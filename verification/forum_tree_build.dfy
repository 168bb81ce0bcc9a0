/**
 * What `buildFromOrderedList` produces: the LinkedHashMap index it builds
 * first, the order of roots and of siblings, the records that make it into
 * the tree (exactly those with a parent chain reaching the top level), and
 * that no forum appears twice.
 */
module ForumTreeBuild {
  import opened Forums
  import opened ForumStructure

  // ---------------------------------------------------------------------
  // The index: LinkedHashMap semantics
  // ---------------------------------------------------------------------

  /** Under every id the index keeps the last record with that id. */
  lemma LastPutWins(recs: seq<Forum>, k: int)
    requires k in IndexAll(recs).byId
    ensures exists j :: 0 <= j < |recs| && recs[j] == IndexAll(recs).byId[k]
                        && forall j' :: j < j' < |recs| ==> recs[j'].id != k
  {
    var j := LastPutPosition(recs, k);
  }

  /** Distinct ids in order of first occurrence: the key order of an insertion-ordered map. */
  function KeyOrder(ids: seq<int>): (r: seq<int>)
    ensures forall k :: k in r <==> k in ids
  {
    if ids == [] then []
    else
      var front := KeyOrder(ids[..|ids| - 1]);
      var x := ids[|ids| - 1];
      assert ids == ids[..|ids| - 1] + [x];
      if x in front then front else front + [x]
  }

  /** The index's key order is the order in which ids first occur in the list. */
  lemma {:induction false} IndexKeys(recs: seq<Forum>)
    ensures IndexAll(recs).keys == KeyOrder(Ids(recs))
  {
    if recs != [] {
      var front := recs[..|recs| - 1];
      var last := recs[|recs| - 1];
      assert recs == front + [last];
      IdsAppend(front, [last]);
      assert Ids(recs)[..|recs| - 1] == Ids(front);
      IndexKeys(front);
    }
  }

  /**
   * Ids keep the position of their first occurrence: when id `keys[a]` comes
   * before id `keys[b]`, some record with the first id comes before every
   * record with the second.
   */
  lemma FirstPositionKept(recs: seq<Forum>, a: int, b: int, j: int)
    requires 0 <= a < b < |IndexAll(recs).keys|
    requires 0 <= j < |recs| && recs[j].id == IndexAll(recs).keys[b]
    ensures exists i :: 0 <= i < j && recs[i].id == IndexAll(recs).keys[a]
  {
    IndexKeys(recs);
    var i := FirstOccurrence(Ids(recs), a, b, j);
    assert recs[i].id == Ids(recs)[i];
  }

  lemma {:induction false} FirstOccurrence(ids: seq<int>, a: int, b: int, j: int) returns (i: nat)
    requires 0 <= a < b < |KeyOrder(ids)|
    requires 0 <= j < |ids| && ids[j] == KeyOrder(ids)[b]
    ensures i < j && ids[i] == KeyOrder(ids)[a]
  {
    var front := ids[..|ids| - 1];
    var f := KeyOrder(front);
    if ids[j] in front {
      assert b < |f| && KeyOrder(ids)[a] == f[a] && KeyOrder(ids)[b] == f[b];
      var j0: int;
      if j < |front| {
        j0 := j;
      } else {
        j0 :| 0 <= j0 < |front| && front[j0] == ids[j];
      }
      i := FirstOccurrence(front, a, b, j0);
    } else {
      assert j == |front|;
      assert KeyOrder(ids)[a] == f[a] && f[a] in f;
      i :| 0 <= i < |front| && front[i] == f[a];
    }
  }

  lemma IdPosition(fs: seq<Forum>, k: int) returns (j: nat)
    requires k in Ids(fs)
    ensures j < |fs| && fs[j].id == k
  {
    j :| 0 <= j < |Ids(fs)| && Ids(fs)[j] == k;
  }

  /** With distinct ids the index keeps every record, in list order. */
  lemma DistinctIndex(recs: seq<Forum>)
    requires Distinct(Ids(recs))
    ensures IndexAll(recs).keys == Ids(recs)
    ensures Entries(IndexAll(recs)) == recs
  {
    IndexKeys(recs);
    KeyOrderOfDistinct(Ids(recs));
    forall j | 0 <= j < |recs| ensures Entries(IndexAll(recs))[j] == recs[j] {
      DistinctKept(recs, j);
    }
  }

  lemma {:induction false} KeyOrderOfDistinct(ids: seq<int>)
    requires Distinct(ids)
    ensures KeyOrder(ids) == ids
  {
    if ids != [] {
      var front := ids[..|ids| - 1];
      assert Distinct(front);
      KeyOrderOfDistinct(front);
      assert ids == front + [ids[|ids| - 1]];
      assert forall t :: 0 <= t < |front| ==> front[t] == ids[t] != ids[|ids| - 1];
    }
  }

  lemma SameIdSamePosition(recs: seq<Forum>, j: nat, j': nat)
    requires Distinct(Ids(recs)) && j < |recs| && j' < |recs| && recs[j'].id == recs[j].id
    ensures j' == j
  {
    assert Ids(recs)[j'] == Ids(recs)[j];
  }

  lemma DistinctKept(recs: seq<Forum>, j: nat)
    requires Distinct(Ids(recs)) && j < |recs|
    ensures recs[j].id in IndexAll(recs).byId && IndexAll(recs).byId[recs[j].id] == recs[j]
  {
    var k := recs[j].id;
    assert k == Ids(recs)[j];
    var j' := LastPutPosition(recs, k);
    SameIdSamePosition(recs, j, j');
  }

  // ---------------------------------------------------------------------
  // Parent chains
  // ---------------------------------------------------------------------

  /**
   * `P` is a parent chain in the index: ids from a forum whose parent is the
   * top level down to a forum, each the parent of the next.
   */
  ghost predicate ValidChain(m: map<int, Forum>, top: int, P: seq<int>) {
    && |P| >= 1
    && (forall k :: 0 <= k < |P| ==> P[k] in m)
    && m[P[0]].parentId == top
    && (forall j, k {:trigger P[j], P[k]} :: 0 <= j && k == j + 1 && k < |P| ==> m[P[k]].parentId == P[j] && P[j] != top)
  }

  /** The record with id `k` has a parent chain reaching the top level. */
  ghost predicate Rooted(m: map<int, Forum>, top: int, k: int) {
    exists P :: ValidChain(m, top, P) && P[|P| - 1] == k
  }

  ghost predicate OnChain(ix: ForumIndex, top: int, path: seq<int>) {
    path == [] || ValidChain(ix.byId, top, path)
  }

  lemma ChainPrefix(m: map<int, Forum>, top: int, P: seq<int>, n: int)
    requires ValidChain(m, top, P) && 1 <= n <= |P|
    ensures ValidChain(m, top, P[..n])
  {
    var P' := P[..n];
    assert P'[0] == P[0];
    forall k | 0 <= k < |P'| ensures P'[k] in m {
      assert P'[k] == P[k];
    }
    forall j, k | 0 <= j && k == j + 1 && k < |P'| ensures m[P'[k]].parentId == P'[j] && P'[j] != top {
      assert P'[k] == P[k] && P'[j] == P[j];
    }
  }

  lemma {:induction false} ChainNoRepeat(m: map<int, Forum>, top: int, P: seq<int>, a: int, b: int)
    requires ValidChain(m, top, P) && 0 <= a < b < |P|
    ensures P[a] != P[b]
    decreases a
  {
    assert m[P[b]].parentId == P[b - 1] && P[b - 1] != top;
    if a > 0 {
      assert m[P[a]].parentId == P[a - 1];
      ChainNoRepeat(m, top, P, a - 1, b - 1);
    }
  }

  /** A parent chain never revisits a forum, so cycles cannot reach the top level. */
  lemma ChainDistinct(m: map<int, Forum>, top: int, P: seq<int>)
    requires ValidChain(m, top, P)
    ensures Distinct(P)
  {
    forall a, b | 0 <= a < b < |P| ensures P[a] != P[b] {
      ChainNoRepeat(m, top, P, a, b);
    }
  }

  /** A chain is a single forum exactly when that forum's parent is the top level. */
  lemma ChainLength(m: map<int, Forum>, top: int, P: seq<int>)
    requires ValidChain(m, top, P)
    ensures |P| == 1 <==> m[P[|P| - 1]].parentId == top
  {
    if |P| > 1 {
      assert m[P[|P| - 1]].parentId == P[|P| - 2];
    }
  }

  /** A record has at most one parent chain. */
  lemma {:induction false} ChainUnique(m: map<int, Forum>, top: int, P: seq<int>, Q: seq<int>)
    requires ValidChain(m, top, P) && ValidChain(m, top, Q)
    requires P[|P| - 1] == Q[|Q| - 1]
    ensures P == Q
    decreases |P|
  {
    var x := P[|P| - 1];
    ChainLength(m, top, P);
    ChainLength(m, top, Q);
    if |P| == 1 || |Q| == 1 {
    } else {
      assert m[P[|P| - 1]].parentId == P[|P| - 2];
      assert m[Q[|Q| - 1]].parentId == Q[|Q| - 2];
      ChainPrefix(m, top, P, |P| - 1);
      ChainPrefix(m, top, Q, |Q| - 1);
      ChainUnique(m, top, P[..|P| - 1], Q[..|Q| - 1]);
      assert P == P[..|P| - 1] + [x];
      assert Q == Q[..|Q| - 1] + [x];
    }
  }

  lemma ChainExtend(m: map<int, Forum>, top: int, P: seq<int>, x: int)
    requires ValidChain(m, top, P) && x in m
    requires m[x].parentId == P[|P| - 1] && P[|P| - 1] != top
    ensures ValidChain(m, top, P + [x])
  {
    var P' := P + [x];
    forall j, k | 0 <= j && k == j + 1 && k < |P'| ensures m[P'[k]].parentId == P'[j] && P'[j] != top {
      if k < |P| {
        assert P'[k] == P[k] && P'[j] == P[j];
      } else {
        assert P'[k] == x && P'[j] == P[|P| - 1];
      }
    }
  }

  /**
   * The freshness conjunct of Picks excludes nothing on a parent chain: a
   * record whose parent ends a chain is never already on it.
   */
  lemma ChainStepIsFresh(m: map<int, Forum>, top: int, P: seq<int>, x: int)
    requires ValidChain(m, top, P) && x in m
    requires m[x].parentId == P[|P| - 1] && P[|P| - 1] != top
    ensures x !in P
  {
    ChainExtend(m, top, P, x);
    ChainDistinct(m, top, P + [x]);
    forall k | 0 <= k < |P| ensures P[k] != x {
      assert (P + [x])[k] == P[k] && (P + [x])[|P|] == x;
    }
  }

  lemma PickExtendsChain(ix: ForumIndex, top: int, path: seq<int>, x: int)
    requires WellFormed(ix) && OnChain(ix, top, path) && x in ix.byId
    requires Picks(top, path, ix.byId[x])
    ensures ValidChain(ix.byId, top, path + [x])
  {
    if path == [] {
      assert path + [x] == [x];
    } else {
      ChainExtend(ix.byId, top, path, x);
    }
  }

  // ---------------------------------------------------------------------
  // Order of roots and of siblings
  // ---------------------------------------------------------------------

  /** Copies of the records whose parent id is `p`, in list order. */
  function WithParent(fs: seq<Forum>, p: int): seq<Forum> {
    if fs == [] then [] else (if fs[0].parentId == p then [Copy(fs[0])] else []) + WithParent(fs[1..], p)
  }

  /**
   * What the builder lists under a forum with id `p`: the records naming it as
   * parent, or nothing when `p` is the top-level id (those are roots).
   */
  function ListedUnder(entries: seq<Forum>, top: int, p: int): seq<Forum> {
    if p == top then [] else WithParent(entries, p)
  }

  function Expected(entries: seq<Forum>, top: int, path: seq<int>): seq<Forum> {
    if path == [] then WithParent(entries, top) else ListedUnder(entries, top, path[|path| - 1])
  }

  lemma PicksOnChain(ix: ForumIndex, top: int, path: seq<int>, c: Forum)
    requires WellFormed(ix) && OnChain(ix, top, path) && c.id in ix.byId && ix.byId[c.id] == c
    ensures Picks(top, path, c) <==>
      (if path == [] then c.parentId == top else c.parentId == path[|path| - 1] && path[|path| - 1] != top)
  {
    if path != [] && c.parentId == path[|path| - 1] && path[|path| - 1] != top {
      ChainStepIsFresh(ix.byId, top, path, c.id);
    }
  }

  lemma {:induction false} ForestRecords(ix: ForumIndex, top: int, path: seq<int>, i: nat)
    requires WellFormed(ix) && i <= |ix.keys| && OnChain(ix, top, path)
    ensures Records(Forest(ix, top, path, i)) == Expected(Entries(ix)[i..], top, path)
    decreases |ix.keys| - i
  {
    if i < |ix.keys| {
      ForestRecords(ix, top, path, i + 1);
      ForestRecordsStep(ix, top, path, i);
    } else {
      ForestRecordsEnd(ix, top, path);
    }
  }

  lemma ForestRecordsEnd(ix: ForumIndex, top: int, path: seq<int>)
    requires WellFormed(ix)
    ensures Records(Forest(ix, top, path, |ix.keys|)) == Expected(Entries(ix)[|ix.keys|..], top, path)
  {
    assert Entries(ix)[|ix.keys|..] == [];
  }

  /** One step of the scan: the record at position `i` is listed exactly when it is picked. */
  lemma ForestRecordsStep(ix: ForumIndex, top: int, path: seq<int>, i: nat)
    requires WellFormed(ix) && i < |ix.keys| && OnChain(ix, top, path)
    requires Records(Forest(ix, top, path, i + 1)) == Expected(Entries(ix)[i + 1..], top, path)
    ensures Records(Forest(ix, top, path, i)) == Expected(Entries(ix)[i..], top, path)
  {
    var E := Entries(ix);
    var c := ix.byId[ix.keys[i]];
    assert c.id == ix.keys[i];
    assert E[i..][0] == c && E[i..][1..] == E[i + 1..];
    PicksOnChain(ix, top, path, c);
    var rest := Forest(ix, top, path, i + 1);
    if Picks(top, path, c) {
      var node := Forum(c.id, c.parentId, c.title, c.subtitle, Forest(ix, top, path + [c.id], 0));
      assert Forest(ix, top, path, i) == [node] + rest;
      RecordsAppend([node], rest);
    } else {
      assert Forest(ix, top, path, i) == rest;
    }
  }

  /** Roots are the records whose parent id is the top-level id, in index order. */
  lemma RootsInOrder(orderedForums: seq<Forum>, topLevelId: int)
    ensures Records(BuildFromOrderedList(orderedForums, topLevelId))
         == WithParent(Entries(IndexAll(orderedForums)), topLevelId)
  {
    var ix := IndexAll(orderedForums);
    ForestRecords(ix, topLevelId, [], 0);
    assert Entries(ix)[0..] == Entries(ix);
  }

  /** Every root of the built tree is a copy of a listed record naming the top level as parent. */
  lemma RootsAreTopLevelRecords(orderedForums: seq<Forum>, topLevelId: int)
    ensures forall n :: n in BuildFromOrderedList(orderedForums, topLevelId) ==>
              n.parentId == topLevelId && Copy(n) in Records(orderedForums)
  {
    var ix := IndexAll(orderedForums);
    var r := BuildFromOrderedList(orderedForums, topLevelId);
    RootsInOrder(orderedForums, topLevelId);
    forall n | n in r ensures n.parentId == topLevelId && Copy(n) in Records(orderedForums) {
      var t :| 0 <= t < |r| && r[t] == n;
      assert Records(r)[t] == Copy(n);
      var e := WithParentSource(Entries(ix), topLevelId, t);
      var j := LastPutPosition(orderedForums, ix.keys[e]);
      RecordsHasCopy(orderedForums, orderedForums[j]);
    }
  }

  lemma {:induction false} WithParentSource(fs: seq<Forum>, p: int, t: nat) returns (e: nat)
    requires t < |WithParent(fs, p)|
    ensures e < |fs| && fs[e].parentId == p && WithParent(fs, p)[t] == Copy(fs[e])
  {
    if fs[0].parentId == p && t == 0 {
      e := 0;
    } else {
      var t' := if fs[0].parentId == p then t - 1 else t;
      var e' := WithParentSource(fs[1..], p, t');
      e := e' + 1;
    }
  }

  /** Every forum of a tree lists exactly the records the builder lists under its id. */
  ghost predicate Assembled(fs: seq<Forum>, entries: seq<Forum>, top: int)
    decreases fs
  {
    forall k :: 0 <= k < |fs| ==>
      Records(fs[k].subforums) == ListedUnder(entries, top, fs[k].id) && Assembled(fs[k].subforums, entries, top)
  }

  lemma AssembledAppend(a: seq<Forum>, b: seq<Forum>, entries: seq<Forum>, top: int)
    requires Assembled(a, entries, top) && Assembled(b, entries, top)
    ensures Assembled(a + b, entries, top)
  {
    forall k | 0 <= k < |a + b|
      ensures Records((a + b)[k].subforums) == ListedUnder(entries, top, (a + b)[k].id)
           && Assembled((a + b)[k].subforums, entries, top)
    {
      if k < |a| {
        assert (a + b)[k] == a[k];
      } else {
        assert (a + b)[k] == b[k - |a|];
      }
    }
  }

  lemma {:induction false} ForestAssembled(ix: ForumIndex, top: int, path: seq<int>, i: nat)
    requires WellFormed(ix) && i <= |ix.keys| && OnChain(ix, top, path)
    ensures Assembled(Forest(ix, top, path, i), Entries(ix), top)
    decreases |ix.byId.Keys - Elems(path)|, |ix.keys| - i
  {
    if i < |ix.keys| {
      var c := ix.byId[ix.keys[i]];
      ForestAssembled(ix, top, path, i + 1);
      if Picks(top, path, c) {
        var path' := path + [c.id];
        PickExtendsChain(ix, top, path, c.id);
        FewerUnvisited(ix.byId.Keys, path, c.id);
        ForestAssembled(ix, top, path', 0);
        ForestRecords(ix, top, path', 0);
        PickedAssembled(ix, top, path, i);
      } else {
        assert Forest(ix, top, path, i) == Forest(ix, top, path, i + 1);
      }
    }
  }

  /** A picked record becomes an assembled node in front of the assembled rest of the scan. */
  lemma PickedAssembled(ix: ForumIndex, top: int, path: seq<int>, i: nat)
    requires WellFormed(ix) && i < |ix.keys|
    requires Picks(top, path, ix.byId[ix.keys[i]])
    requires Assembled(Forest(ix, top, path, i + 1), Entries(ix), top)
    requires Assembled(Forest(ix, top, path + [ix.keys[i]], 0), Entries(ix), top)
    requires Records(Forest(ix, top, path + [ix.keys[i]], 0)) == Expected(Entries(ix)[0..], top, path + [ix.keys[i]])
    ensures Assembled(Forest(ix, top, path, i), Entries(ix), top)
  {
    var c := ix.byId[ix.keys[i]];
    var path' := path + [c.id];
    assert Entries(ix)[0..] == Entries(ix);
    var node := Forum(c.id, c.parentId, c.title, c.subtitle, Forest(ix, top, path', 0));
    assert Assembled([node], Entries(ix), top);
    AssembledAppend([node], Forest(ix, top, path, i + 1), Entries(ix), top);
    assert Forest(ix, top, path, i) == [node] + Forest(ix, top, path, i + 1);
  }

  /**
   * Siblings keep input order: every forum of the built tree has as its
   * subforums exactly the records naming it as parent, in index order.
   */
  lemma SiblingsInOrder(orderedForums: seq<Forum>, topLevelId: int)
    ensures Assembled(BuildFromOrderedList(orderedForums, topLevelId), Entries(IndexAll(orderedForums)), topLevelId)
  {
    ForestAssembled(IndexAll(orderedForums), topLevelId, [], 0);
  }
}
