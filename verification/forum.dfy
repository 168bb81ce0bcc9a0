/**
 * The Forum entity: one entry of the forum index (a section, a forum or the
 * bookmarks shortcut), with its ordered list of subforums.
 */
module Forums {

  datatype Forum = Forum(id: int, parentId: int, title: string, subtitle: string, subforums: seq<Forum>)

  /** The copy constructor `new Forum(f)`: the scalar fields, and a fresh empty subforum list. */
  function Copy(f: Forum): Forum {
    Forum(f.id, f.parentId, f.title, f.subtitle, [])
  }

  /** The copies of a list of forums, dropping their subforums. */
  function Records(fs: seq<Forum>): (r: seq<Forum>)
    ensures |r| == |fs|
    ensures forall i :: 0 <= i < |fs| ==> r[i] == Copy(fs[i])
  {
    if fs == [] then [] else [Copy(fs[0])] + Records(fs[1..])
  }

  /** The ids of a list of forums, in order. */
  function Ids(fs: seq<Forum>): (r: seq<int>)
    ensures |r| == |fs|
    ensures forall i :: 0 <= i < |fs| ==> r[i] == fs[i].id
  {
    if fs == [] then [] else [fs[0].id] + Ids(fs[1..])
  }

  predicate Distinct(xs: seq<int>) {
    forall i, j :: 0 <= i < j < |xs| ==> xs[i] != xs[j]
  }

  /** Every forum in the list has an empty subforum list. */
  predicate Childless(fs: seq<Forum>) {
    forall k :: 0 <= k < |fs| ==> fs[k].subforums == []
  }

  /** The number of forums in a forest, at every depth. */
  function Count(fs: seq<Forum>): nat
    decreases fs
  {
    if fs == [] then 0 else 1 + Count(fs[0].subforums) + Count(fs[1..])
  }

  /** The nesting depth of a forest: 0 when empty, 1 when every forum is childless. */
  function Depth(fs: seq<Forum>): nat
    decreases fs
  {
    if fs == [] then 0
    else
      var here := 1 + Depth(fs[0].subforums);
      var rest := Depth(fs[1..]);
      if here < rest then rest else here
  }

  /** Pre-order ids of a forest: each forum, then its subforums, then its next sibling. */
  function PreOrderIds(fs: seq<Forum>): seq<int>
    decreases fs
  {
    if fs == [] then [] else [fs[0].id] + PreOrderIds(fs[0].subforums) + PreOrderIds(fs[1..])
  }

  /** The forums of a forest themselves, subtrees included, in pre-order: each forum, then its subforums, then its next sibling. */
  function PreOrderNodes(fs: seq<Forum>): seq<Forum>
    decreases fs
  {
    if fs == [] then [] else [fs[0]] + PreOrderNodes(fs[0].subforums) + PreOrderNodes(fs[1..])
  }

  lemma RecordsAppend(a: seq<Forum>, b: seq<Forum>)
    ensures Records(a + b) == Records(a) + Records(b)
  {
    if a != [] {
      assert (a + b)[1..] == a[1..] + b;
    } else {
      assert a + b == b;
    }
  }

  lemma IdsAppend(a: seq<Forum>, b: seq<Forum>)
    ensures Ids(a + b) == Ids(a) + Ids(b)
  {
    if a != [] {
      assert (a + b)[1..] == a[1..] + b;
    } else {
      assert a + b == b;
    }
  }

  lemma CountAppend(a: seq<Forum>, b: seq<Forum>)
    ensures Count(a + b) == Count(a) + Count(b)
  {
    if a != [] {
      assert (a + b)[1..] == a[1..] + b;
    } else {
      assert a + b == b;
    }
  }

  lemma DistinctAppend(a: seq<int>, b: seq<int>)
    ensures Distinct(a + b) <==> Distinct(a) && Distinct(b) && (forall x :: x in a ==> x !in b)
  {
    if Distinct(a + b) {
      forall i, j | 0 <= i < j < |a| ensures a[i] != a[j] {
        assert a[i] == (a + b)[i] && a[j] == (a + b)[j];
      }
      forall i, j | 0 <= i < j < |b| ensures b[i] != b[j] {
        assert b[i] == (a + b)[|a| + i] && b[j] == (a + b)[|a| + j];
      }
      forall i, j | 0 <= i < |a| && 0 <= j < |b| ensures a[i] != b[j] {
        assert a[i] == (a + b)[i] && b[j] == (a + b)[|a| + j];
      }
    }
    if Distinct(a) && Distinct(b) && (forall x :: x in a ==> x !in b) {
      forall i, j | 0 <= i < j < |a + b| ensures (a + b)[i] != (a + b)[j] {
        if j < |a| {
          assert (a + b)[i] == a[i] && (a + b)[j] == a[j];
        } else if i >= |a| {
          assert (a + b)[i] == b[i - |a|] && (a + b)[j] == b[j - |a|];
        } else {
          assert (a + b)[i] == a[i] && (a + b)[j] == b[j - |a|];
          assert a[i] in a && b[j - |a|] in b;
        }
      }
    }
  }
}
