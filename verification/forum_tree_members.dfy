/**
 * Which records `buildFromOrderedList` places in the tree: exactly those whose
 * chain of parent ids reaches the top level. Orphans, the subtrees under them
 * and records on parent cycles are dropped, and no forum is placed twice.
 */
module ForumTreeMembers {
  import opened Forums
  import opened ForumStructure
  import opened ForumTreeBuild

  /** The flattened list carries the forest's ids in pre-order. */
  lemma {:induction false} FlatIds(fs: seq<Forum>)
    ensures Ids(CollectSubforums(fs)) == PreOrderIds(fs)
    decreases fs
  {
    if fs != [] {
      var head := [Copy(fs[0])] + CollectSubforums(fs[0].subforums);
      FlatIds(fs[0].subforums);
      FlatIds(fs[1..]);
      IdsAppend(head, CollectSubforums(fs[1..]));
      IdsAppend([Copy(fs[0])], CollectSubforums(fs[0].subforums));
    }
  }

  /** One step of the scan, seen through the pre-order ids. */
  lemma ScanStepIds(ix: ForumIndex, top: int, path: seq<int>, i: nat)
    requires WellFormed(ix) && i < |ix.keys|
    ensures var c := ix.byId[ix.keys[i]];
      PreOrderIds(Forest(ix, top, path, i))
        == if Picks(top, path, c)
           then [c.id] + PreOrderIds(Forest(ix, top, path + [c.id], 0)) + PreOrderIds(Forest(ix, top, path, i + 1))
           else PreOrderIds(Forest(ix, top, path, i + 1))
  {
    var c := ix.byId[ix.keys[i]];
    var rest := Forest(ix, top, path, i + 1);
    if Picks(top, path, c) {
      var node := Forum(c.id, c.parentId, c.title, c.subtitle, Forest(ix, top, path + [c.id], 0));
      assert Forest(ix, top, path, i) == [node] + rest;
      assert ([node] + rest)[0] == node && ([node] + rest)[1..] == rest;
    }
  }

  lemma ScanEndIds(ix: ForumIndex, top: int, path: seq<int>)
    requires WellFormed(ix)
    ensures PreOrderIds(Forest(ix, top, path, |ix.keys|)) == []
  {
  }

  /**
   * Every id placed by the scan from position `i` under `path` ends a parent
   * chain that extends `path` through a record at position `i` or later.
   */
  lemma {:induction false} Lineage(ix: ForumIndex, top: int, path: seq<int>, i: nat, x: int)
      returns (Q: seq<int>, j: nat)
    requires WellFormed(ix) && i <= |ix.keys| && OnChain(ix, top, path)
    requires x in PreOrderIds(Forest(ix, top, path, i))
    ensures |Q| >= 1 && ValidChain(ix.byId, top, path + Q) && Q[|Q| - 1] == x
    ensures i <= j < |ix.keys| && Q[0] == ix.keys[j]
    decreases |ix.byId.Keys - Elems(path)|, |ix.keys| - i
  {
    var here, below := ScanCases(ix, top, path, i, x);
    if below {
      PickExtendsChain(ix, top, path, ix.keys[i]);
      FewerUnvisited(ix.byId.Keys, path, ix.keys[i]);
      var Q', j' := Lineage(ix, top, path + [ix.keys[i]], 0, x);
      Q := LineageThrough(ix, top, path, i, Q');
      j := i;
    } else if here {
      Q := LineageHere(ix, top, path, i);
      j := i;
    } else {
      Q, j := Lineage(ix, top, path, i + 1, x);
    }
  }

  /** Where the scan from position `i` placed `x`: at `i` itself, under it, or further on. */
  lemma ScanCases(ix: ForumIndex, top: int, path: seq<int>, i: nat, x: int) returns (here: bool, below: bool)
    requires WellFormed(ix) && i <= |ix.keys|
    requires x in PreOrderIds(Forest(ix, top, path, i))
    ensures i < |ix.keys|
    ensures here ==> Picks(top, path, ix.byId[ix.keys[i]]) && x == ix.keys[i]
    ensures below ==> Picks(top, path, ix.byId[ix.keys[i]]) && ix.keys[i] !in path
                      && x in PreOrderIds(Forest(ix, top, path + [ix.keys[i]], 0))
    ensures !here && !below ==> x in PreOrderIds(Forest(ix, top, path, i + 1))
  {
    ScanEndIds(ix, top, path);
    var c := ix.byId[ix.keys[i]];
    assert c.id == ix.keys[i];
    ScanStepIds(ix, top, path, i);
    here := Picks(top, path, c) && x == c.id;
    below := Picks(top, path, c) && !here && x in PreOrderIds(Forest(ix, top, path + [c.id], 0));
  }

  lemma LineageHere(ix: ForumIndex, top: int, path: seq<int>, i: nat) returns (Q: seq<int>)
    requires WellFormed(ix) && i < |ix.keys| && OnChain(ix, top, path)
    requires Picks(top, path, ix.byId[ix.keys[i]])
    ensures Q == [ix.keys[i]] && ValidChain(ix.byId, top, path + Q)
  {
    PickExtendsChain(ix, top, path, ix.keys[i]);
    Q := [ix.keys[i]];
  }

  lemma LineageThrough(ix: ForumIndex, top: int, path: seq<int>, i: nat, Q': seq<int>) returns (Q: seq<int>)
    requires WellFormed(ix) && i < |ix.keys|
    requires |Q'| >= 1 && ValidChain(ix.byId, top, path + [ix.keys[i]] + Q')
    ensures Q == [ix.keys[i]] + Q' && ValidChain(ix.byId, top, path + Q) && Q[|Q| - 1] == Q'[|Q'| - 1]
  {
    Q := [ix.keys[i]] + Q';
    assert path + Q == path + [ix.keys[i]] + Q';
  }

  /** A picked record at position `i` is placed, with all it holds, by any scan starting at or before `i`. */
  lemma {:induction false} PickedPlaced(ix: ForumIndex, top: int, path: seq<int>, i0: nat, i: nat)
    requires WellFormed(ix) && i0 <= i < |ix.keys| && Picks(top, path, ix.byId[ix.keys[i]])
    ensures ix.keys[i] in PreOrderIds(Forest(ix, top, path, i0))
    ensures forall x :: x in PreOrderIds(Forest(ix, top, path + [ix.keys[i]], 0)) ==>
                        x in PreOrderIds(Forest(ix, top, path, i0))
    decreases i - i0
  {
    ScanStepIds(ix, top, path, i0);
    assert ix.byId[ix.keys[i0]].id == ix.keys[i0];
    if i0 < i {
      PickedPlaced(ix, top, path, i0 + 1, i);
    }
  }

  lemma KeyPosition(ix: ForumIndex, x: int) returns (i: nat)
    requires WellFormed(ix) && x in ix.byId
    ensures i < |ix.keys| && ix.keys[i] == x
  {
    i :| 0 <= i < |ix.keys| && ix.keys[i] == x;
  }

  /** The last id of every parent chain extending `path` is placed under `path`. */
  lemma {:induction false} Reach(ix: ForumIndex, top: int, path: seq<int>, Q: seq<int>)
    requires WellFormed(ix) && OnChain(ix, top, path)
    requires |Q| >= 1 && ValidChain(ix.byId, top, path + Q)
    ensures Q[|Q| - 1] in PreOrderIds(Forest(ix, top, path, 0))
    decreases |Q|
  {
    var m := ix.byId;
    var P := path + Q;
    var x := Q[0];
    assert P[|path|] == x;
    if path != [] {
      assert m[P[|path|]].parentId == P[|path| - 1] && P[|path| - 1] != top;
      assert P[|path| - 1] == path[|path| - 1];
    }
    PicksOnChain(ix, top, path, m[x]);
    var i := KeyPosition(ix, x);
    PickedPlaced(ix, top, path, 0, i);
    if |Q| > 1 {
      ChainPrefix(m, top, P, |path| + 1);
      assert P[..|path| + 1] == path + [x];
      assert P == (path + [x]) + Q[1..];
      Reach(ix, top, path + [x], Q[1..]);
      assert Q[1..][|Q| - 2] == Q[|Q| - 1];
    }
  }

  /**
   * Membership: an id is in the built tree (at any depth) exactly when the
   * record the index keeps under it has a parent chain reaching the top level.
   */
  lemma Membership(orderedForums: seq<Forum>, topLevelId: int, k: int)
    ensures k in Ids(GetFlatList(BuildFromOrderedList(orderedForums, topLevelId)))
        <==> Rooted(IndexAll(orderedForums).byId, topLevelId, k)
  {
    var ix := IndexAll(orderedForums);
    FlatIds(Forest(ix, topLevelId, [], 0));
    PlacedIsRooted(ix, topLevelId, k);
    RootedIsPlaced(ix, topLevelId, k);
  }

  lemma PlacedIsRooted(ix: ForumIndex, top: int, k: int)
    requires WellFormed(ix)
    ensures k in PreOrderIds(Forest(ix, top, [], 0)) ==> Rooted(ix.byId, top, k)
  {
    if k in PreOrderIds(Forest(ix, top, [], 0)) {
      var Q, j := Lineage(ix, top, [], 0, k);
      assert [] + Q == Q;
    }
  }

  lemma RootedIsPlaced(ix: ForumIndex, top: int, k: int)
    requires WellFormed(ix)
    ensures Rooted(ix.byId, top, k) ==> k in PreOrderIds(Forest(ix, top, [], 0))
  {
    if Rooted(ix.byId, top, k) {
      var P :| ValidChain(ix.byId, top, P) && P[|P| - 1] == k;
      assert [] + P == P;
      Reach(ix, top, [], P);
    }
  }

  lemma RootedIsIndexed(m: map<int, Forum>, top: int, k: int)
    ensures Rooted(m, top, k) ==> k in m
  {
    if Rooted(m, top, k) {
      var P :| ValidChain(m, top, P) && P[|P| - 1] == k;
    }
  }

  /**
   * A rooted record whose parent is not the top level has a rooted parent
   * that differs from itself.
   */
  lemma RootedParent(m: map<int, Forum>, top: int, k: int)
    requires k in m
    ensures Rooted(m, top, k) && m[k].parentId != top ==>
              Rooted(m, top, m[k].parentId) && m[k].parentId != k
  {
    if Rooted(m, top, k) && m[k].parentId != top {
      var P :| ValidChain(m, top, P) && P[|P| - 1] == k;
      ChainLength(m, top, P);
      assert m[P[|P| - 1]].parentId == P[|P| - 2];
      ChainPrefix(m, top, P, |P| - 1);
      ChainDistinct(m, top, P);
      assert P[..|P| - 1][|P| - 2] == P[|P| - 2];
    }
  }

  /** A record whose parent is neither the top level nor any listed id is left out of the tree. */
  lemma OrphanDropped(orderedForums: seq<Forum>, topLevelId: int, k: int)
    requires k in Ids(orderedForums)
    requires IndexAll(orderedForums).byId[k].parentId != topLevelId
    requires IndexAll(orderedForums).byId[k].parentId !in Ids(orderedForums)
    ensures k !in Ids(GetFlatList(BuildFromOrderedList(orderedForums, topLevelId)))
  {
    var m := IndexAll(orderedForums).byId;
    Membership(orderedForums, topLevelId, k);
    RootedParent(m, topLevelId, k);
    RootedIsIndexed(m, topLevelId, m[k].parentId);
  }

  /** A record is left out whenever its parent is left out (and is not the top level). */
  lemma DescendantDropped(orderedForums: seq<Forum>, topLevelId: int, k: int)
    requires k in Ids(orderedForums)
    requires IndexAll(orderedForums).byId[k].parentId != topLevelId
    ensures IndexAll(orderedForums).byId[k].parentId !in Ids(GetFlatList(BuildFromOrderedList(orderedForums, topLevelId)))
        ==> k !in Ids(GetFlatList(BuildFromOrderedList(orderedForums, topLevelId)))
  {
    var m := IndexAll(orderedForums).byId;
    Membership(orderedForums, topLevelId, k);
    Membership(orderedForums, topLevelId, m[k].parentId);
    RootedParent(m, topLevelId, k);
  }

  /** A record naming itself as parent (other than the top level) is left out. */
  lemma SelfParentDropped(orderedForums: seq<Forum>, topLevelId: int, k: int)
    requires k in Ids(orderedForums)
    requires IndexAll(orderedForums).byId[k].parentId == k != topLevelId
    ensures k !in Ids(GetFlatList(BuildFromOrderedList(orderedForums, topLevelId)))
  {
    Membership(orderedForums, topLevelId, k);
    RootedParent(IndexAll(orderedForums).byId, topLevelId, k);
  }

  // ---------------------------------------------------------------------
  // No forum is placed twice
  // ---------------------------------------------------------------------

  /** Two parent chains ending at the same record are the same chain. */
  lemma ChainsMeet(m: map<int, Forum>, top: int, P: seq<int>, Q: seq<int>)
    requires ValidChain(m, top, P) && ValidChain(m, top, Q)
    ensures P[|P| - 1] == Q[|Q| - 1] ==> P == Q
  {
    if P[|P| - 1] == Q[|Q| - 1] {
      ChainUnique(m, top, P, Q);
    }
  }

  /** A picked record does not reappear in its own subtree. */
  lemma NotBelowItself(ix: ForumIndex, top: int, path: seq<int>, i: nat, x: int)
    requires WellFormed(ix) && i < |ix.keys| && OnChain(ix, top, path)
    requires Picks(top, path, ix.byId[ix.keys[i]])
    requires x in PreOrderIds(Forest(ix, top, path + [ix.keys[i]], 0))
    ensures x != ix.keys[i]
  {
    var k := ix.keys[i];
    PickExtendsChain(ix, top, path, k);
    var Q', j' := Lineage(ix, top, path + [k], 0, x);
    var P := path + [k] + Q';
    ChainDistinct(ix.byId, top, P);
    assert P[|path|] == k && P[|P| - 1] == x;
  }

  /**
   * What the scan places after position `i` is apart from the record picked
   * at `i` and from everything placed under it.
   */
  lemma NotAfterwards(ix: ForumIndex, top: int, path: seq<int>, i: nat, x: int, y: int)
    requires WellFormed(ix) && i < |ix.keys| && OnChain(ix, top, path)
    requires Picks(top, path, ix.byId[ix.keys[i]])
    requires x in PreOrderIds(Forest(ix, top, path, i + 1))
    requires y == ix.keys[i] || y in PreOrderIds(Forest(ix, top, path + [ix.keys[i]], 0))
    ensures x != y
  {
    var m := ix.byId;
    var k := ix.keys[i];
    PickExtendsChain(ix, top, path, k);
    var Q, j := Lineage(ix, top, path, i + 1, x);
    var R: seq<int>;
    if y == k {
      R := [k];
    } else {
      var Q', j' := Lineage(ix, top, path + [k], 0, y);
      R := [k] + Q';
      assert path + R == path + [k] + Q';
    }
    assert ix.keys[i] != ix.keys[j];
    ChainsDiverge(m, top, path, Q, R);
  }

  /** Chains that leave a common prefix through different forums end at different forums. */
  lemma ChainsDiverge(m: map<int, Forum>, top: int, path: seq<int>, Q: seq<int>, R: seq<int>)
    requires |Q| >= 1 && |R| >= 1 && Q[0] != R[0]
    requires ValidChain(m, top, path + Q) && ValidChain(m, top, path + R)
    ensures Q[|Q| - 1] != R[|R| - 1]
  {
    ChainsMeet(m, top, path + Q, path + R);
    assert (path + Q)[|path|] == Q[0] && (path + R)[|path|] == R[0];
    assert (path + Q)[|path + Q| - 1] == Q[|Q| - 1] && (path + R)[|path + R| - 1] == R[|R| - 1];
  }

  lemma PlacedApart(ix: ForumIndex, top: int, path: seq<int>, i: nat)
    requires WellFormed(ix) && i < |ix.keys| && OnChain(ix, top, path)
    requires Picks(top, path, ix.byId[ix.keys[i]])
    requires Distinct(PreOrderIds(Forest(ix, top, path + [ix.keys[i]], 0)))
    requires Distinct(PreOrderIds(Forest(ix, top, path, i + 1)))
    ensures Distinct([ix.keys[i]] + PreOrderIds(Forest(ix, top, path + [ix.keys[i]], 0))
                     + PreOrderIds(Forest(ix, top, path, i + 1)))
  {
    var k := ix.keys[i];
    var A := PreOrderIds(Forest(ix, top, path + [k], 0));
    var B := PreOrderIds(Forest(ix, top, path, i + 1));
    forall y | y in A ensures y !in [k] {
      NotBelowItself(ix, top, path, i, y);
    }
    DistinctAppend([k], A);
    forall y | y in [k] + A ensures y !in B {
      forall x | x in B ensures x != y {
        NotAfterwards(ix, top, path, i, x, y);
      }
    }
    DistinctAppend([k] + A, B);
  }

  lemma {:induction false} ForestDistinct(ix: ForumIndex, top: int, path: seq<int>, i: nat)
    requires WellFormed(ix) && i <= |ix.keys| && OnChain(ix, top, path)
    ensures Distinct(PreOrderIds(Forest(ix, top, path, i)))
    decreases |ix.byId.Keys - Elems(path)|, |ix.keys| - i
  {
    if i == |ix.keys| {
      ScanEndIds(ix, top, path);
    } else {
      var c := ix.byId[ix.keys[i]];
      assert c.id == ix.keys[i];
      ScanStepIds(ix, top, path, i);
      ForestDistinct(ix, top, path, i + 1);
      if Picks(top, path, c) {
        PickExtendsChain(ix, top, path, c.id);
        FewerUnvisited(ix.byId.Keys, path, c.id);
        ForestDistinct(ix, top, path + [c.id], 0);
        PlacedApart(ix, top, path, i);
      }
    }
  }

  /** No forum appears twice in the built tree, even when ids repeat in the input list. */
  lemma NoForumTwice(orderedForums: seq<Forum>, topLevelId: int)
    ensures Distinct(Ids(GetFlatList(BuildFromOrderedList(orderedForums, topLevelId))))
  {
    var ix := IndexAll(orderedForums);
    FlatIds(Forest(ix, topLevelId, [], 0));
    ForestDistinct(ix, topLevelId, [], 0);
  }
}
