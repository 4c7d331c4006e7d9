/**
 * `node.sort(compare)`: at every node the children are put in comparator
 * order, a stable sort (Array.prototype.sort is stable), here an insertion sort.
 */
module Sorting {
  import opened Paths
  import opened Tree
  import opened Ordering

  /** Siblings appear in comparator order of their ids. */
  predicate Sorted(ts: seq<Node>)
  {
    forall i, j :: 0 <= i < j < |ts| ==> Precedes(ts[i].id, ts[j].id)
  }

  /** Every node's children are sorted. */
  predicate SortedEverywhere(t: Node)
    decreases t
  {
    Sorted(t.children) && forall i :: 0 <= i < |t.children| ==> SortedEverywhere(t.children[i])
  }

  /** Place `x` before the first node it may precede; ties keep `x` first,
      which is what makes the sort stable. */
  function Insert(x: Node, ts: seq<Node>): (r: seq<Node>)
    ensures multiset(r) == multiset(ts) + multiset{x}
    ensures Sorted(ts) ==> Sorted(r)
  {
    if |ts| == 0 then [x]
    else if Precedes(x.id, ts[0].id) then
      InsertFrontSorted(x, ts);
      [x] + ts
    else
      var rest := Insert(x, ts[1..]);
      assert ts == [ts[0]] + ts[1..];
      InsertAfterSorted(x, ts, rest);
      [ts[0]] + rest
  }

  lemma InsertFrontSorted(x: Node, ts: seq<Node>)
    requires |ts| > 0 && Precedes(x.id, ts[0].id)
    ensures Sorted(ts) ==> Sorted([x] + ts)
  {
    if Sorted(ts) {
      var r := [x] + ts;
      forall i, j | 0 <= i < j < |r| ensures Precedes(r[i].id, r[j].id) {
        if i == 0 && j > 1 {
          PrecedesTotalPreorder(x.id, ts[0].id, ts[j - 1].id);
        }
      }
    }
  }

  lemma InsertAfterSorted(x: Node, ts: seq<Node>, rest: seq<Node>)
    requires |ts| > 0 && !Precedes(x.id, ts[0].id)
    requires multiset(rest) == multiset(ts[1..]) + multiset{x}
    requires Sorted(ts[1..]) ==> Sorted(rest)
    ensures Sorted(ts) ==> Sorted([ts[0]] + rest)
  {
    if Sorted(ts) {
      assert Sorted(ts[1..]) by {
        forall i, j | 0 <= i < j < |ts[1..]| ensures Precedes(ts[1..][i].id, ts[1..][j].id) {
          assert ts[1..][i] == ts[i + 1] && ts[1..][j] == ts[j + 1];
        }
      }
      var r := [ts[0]] + rest;
      forall i, j | 0 <= i < j < |r| ensures Precedes(r[i].id, r[j].id) {
        if i == 0 {
          var y := rest[j - 1];
          assert y in multiset(rest);
          if y == x {
            PrecedesTotalPreorder(x.id, ts[0].id, ts[0].id);
          } else {
            assert y in multiset(ts[1..]);
            var k :| 0 <= k < |ts[1..]| && ts[1..][k] == y;
            assert ts[k + 1] == y;
          }
        } else {
          assert r[i] == rest[i - 1] && r[j] == rest[j - 1];
        }
      }
    }
  }

  /** Stable insertion sort of a sibling sequence. */
  function SortNodes(ts: seq<Node>): (r: seq<Node>)
    ensures multiset(r) == multiset(ts)
    ensures Sorted(r)
  {
    if |ts| == 0 then []
    else
      assert ts == [ts[0]] + ts[1..];
      Insert(ts[0], SortNodes(ts[1..]))
  }

  /** The records below `Insert(x, ts)` are those below `x` and below `ts`. */
  lemma {:induction false} InsertFlatten(x: Node, ts: seq<Node>)
    ensures multiset(FlattenForest(Insert(x, ts))) == multiset(Flatten(x)) + multiset(FlattenForest(ts))
    decreases |ts|
  {
    if |ts| == 0 {
      FlattenForestCons(x, []);
    } else if Precedes(x.id, ts[0].id) {
      FlattenForestCons(x, ts);
    } else {
      var rest := Insert(x, ts[1..]);
      assert Insert(x, ts) == [ts[0]] + rest;
      assert ts == [ts[0]] + ts[1..];
      InsertFlatten(x, ts[1..]);
      InsertFlattenStep(x, ts[0], ts[1..], rest);
    }
  }

  lemma InsertFlattenStep(x: Node, h: Node, tail: seq<Node>, rest: seq<Node>)
    requires multiset(FlattenForest(rest)) == multiset(Flatten(x)) + multiset(FlattenForest(tail))
    ensures multiset(FlattenForest([h] + rest))
            == multiset(Flatten(x)) + multiset(FlattenForest([h] + tail))
  {
    FlattenForestCons(h, rest);
    FlattenForestCons(h, tail);
    ConcatSwap(Flatten(h), FlattenForest(rest), multiset{}, multiset(Flatten(h)),
               multiset(Flatten(x)), multiset(FlattenForest(tail)));
    assert multiset{} + multiset(Flatten(x)) == multiset(Flatten(x));
  }


  lemma {:induction false} SortNodesFlatten(ts: seq<Node>)
    ensures multiset(FlattenForest(SortNodes(ts))) == multiset(FlattenForest(ts))
    decreases |ts|
  {
    if |ts| > 0 {
      SortNodesFlatten(ts[1..]);
      InsertFlatten(ts[0], SortNodes(ts[1..]));
    }
  }

  /** `node.sort(compare)`: every node's children, sorted; nothing else changes. */
  function SortTree(t: Node): (r: Node)
    ensures r.id == t.id && r.own == t.own && r.total == t.total
    ensures SortedEverywhere(r)
    ensures multiset(r.children) == multiset(SortForest(t.children))
    ensures multiset(Flatten(r)) == multiset(Flatten(t))
    decreases t, 1
  {
    var cs := SortForest(t.children);
    var sorted := SortNodes(cs);
    FlattenForestPointwise(t.children, cs);
    SortNodesFlatten(cs);
    PermutedSortedEverywhere(cs, sorted);
    Node(t.id, t.own, t.total, sorted)
  }

  lemma PermutedSortedEverywhere(cs: seq<Node>, ts: seq<Node>)
    requires multiset(ts) == multiset(cs)
    requires forall i :: 0 <= i < |cs| ==> SortedEverywhere(cs[i])
    ensures forall i :: 0 <= i < |ts| ==> SortedEverywhere(ts[i])
  {
    forall i | 0 <= i < |ts| ensures SortedEverywhere(ts[i]) {
      assert ts[i] in multiset(cs);
      var k :| 0 <= k < |cs| && cs[k] == ts[i];
    }
  }

  /** Each subtree sorted, in place. */
  function SortForest(ts: seq<Node>): (r: seq<Node>)
    ensures |r| == |ts|
    ensures forall i :: 0 <= i < |r| ==> r[i] == SortTree(ts[i])
    decreases ts, 0
  {
    seq(|ts|, i requires 0 <= i < |ts| => SortTree(ts[i]))
  }

  /** An already sorted sibling sequence is left exactly as it is. */
  lemma {:induction false} SortNodesKeepsSorted(ts: seq<Node>)
    requires Sorted(ts)
    ensures SortNodes(ts) == ts
    decreases |ts|
  {
    if |ts| > 0 {
      var rest := ts[1..];
      assert Sorted(rest) by {
        forall i, j | 0 <= i < j < |rest| ensures Precedes(rest[i].id, rest[j].id) {
          assert rest[i] == ts[i + 1] && rest[j] == ts[j + 1];
        }
      }
      SortNodesKeepsSorted(rest);
      assert ts == [ts[0]] + rest;
    }
  }

  /** Sorting a tree whose children are already sorted everywhere changes nothing. */
  lemma {:induction false} SortTreeKeepsSorted(t: Node)
    requires SortedEverywhere(t)
    ensures SortTree(t) == t
    decreases t, 1
  {
    SortForestKeepsSorted(t.children);
    SortNodesKeepsSorted(t.children);
  }

  lemma {:induction false} SortForestKeepsSorted(ts: seq<Node>)
    requires forall i :: 0 <= i < |ts| ==> SortedEverywhere(ts[i])
    ensures SortForest(ts) == ts
    decreases ts, 0
  {
    forall i | 0 <= i < |ts| ensures SortForest(ts)[i] == ts[i] {
      SortTreeKeepsSorted(ts[i]);
    }
  }

  /** Sorting keeps every child under the parent its id names. */
  lemma {:induction false} SortTreeLinked(t: Node, d: char)
    requires Linked(t, d)
    ensures Linked(SortTree(t), d)
    decreases t, 1
  {
    var cs := SortForest(t.children);
    SortForestLinked(t.children, d, t.id);
    PermutedLinked(cs, SortNodes(cs), d, t.id);
    assert SortTree(t).children == SortNodes(cs);
  }

  lemma PermutedLinked(cs: seq<Node>, ts: seq<Node>, d: char, p: string)
    requires multiset(ts) == multiset(cs)
    requires forall i :: 0 <= i < |cs| ==> ParentId(cs[i].id, d) == p && Linked(cs[i], d)
    ensures forall i :: 0 <= i < |ts| ==> ParentId(ts[i].id, d) == p && Linked(ts[i], d)
  {
    forall i | 0 <= i < |ts| ensures ParentId(ts[i].id, d) == p && Linked(ts[i], d) {
      assert ts[i] in multiset(cs);
      var k :| 0 <= k < |cs| && cs[k] == ts[i];
    }
  }

  lemma {:induction false} SortForestLinked(ts: seq<Node>, d: char, p: string)
    requires forall i :: 0 <= i < |ts| ==> ParentId(ts[i].id, d) == p && Linked(ts[i], d)
    ensures forall i :: 0 <= i < |ts| ==>
              ParentId(SortForest(ts)[i].id, d) == p && Linked(SortForest(ts)[i], d)
    decreases ts, 0
  {
    forall i | 0 <= i < |ts|
      ensures ParentId(SortForest(ts)[i].id, d) == p && Linked(SortForest(ts)[i], d)
    {
      SortTreeLinked(ts[i], d);
    }
  }
}
