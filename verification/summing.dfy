/**
 * `node.sum(d => d.value)`: bottom-up, each node's aggregate becomes its own
 * value plus its children's aggregates.
 */
module Summing {
  import opened Paths
  import opened Tree
  import opened Sorting

  /** The sum of the sibling aggregates. */
  function ChildTotals(ts: seq<Node>): int
  {
    if |ts| == 0 then 0 else ts[0].total + ChildTotals(ts[1..])
  }

  /** The aggregate rule holds at every node. */
  predicate Summed(t: Node)
    decreases t
  {
    && t.total == t.own + ChildTotals(t.children)
    && forall i :: 0 <= i < |t.children| ==> Summed(t.children[i])
  }

  /** Aggregates computed bottom-up; ids, own values and shape are untouched. */
  function SumTree(t: Node): (r: Node)
    ensures Summed(r)
    ensures Strip(r) == Strip(t)
    decreases t, 1
  {
    var cs := SumForest(t.children);
    var r := Node(t.id, t.own, t.own + ChildTotals(cs), cs);
    assert StripForest(cs) == StripForest(t.children);
    r
  }

  function SumForest(ts: seq<Node>): (r: seq<Node>)
    ensures |r| == |ts|
    ensures forall i :: 0 <= i < |ts| ==> r[i] == SumTree(ts[i])
    decreases ts, 0
  {
    if |ts| == 0 then [] else [SumTree(ts[0])] + SumForest(ts[1..])
  }

  /** The aggregate at a node is the sum of the own values of its whole subtree. */
  lemma {:induction false} SummedTotal(t: Node)
    requires Summed(t)
    ensures t.total == SumValues(Flatten(t))
    decreases t, 1
  {
    SummedForestTotal(t.children);
    assert Flatten(t) == [RecordOf(t)] + FlattenForest(t.children);
  }

  lemma {:induction false} SummedForestTotal(ts: seq<Node>)
    requires forall i :: 0 <= i < |ts| ==> Summed(ts[i])
    ensures ChildTotals(ts) == SumValues(FlattenForest(ts))
    decreases ts, 0
  {
    if |ts| > 0 {
      SummedTotal(ts[0]);
      SummedForestTotal(ts[1..]);
      SumValuesAppend(Flatten(ts[0]), FlattenForest(ts[1..]));
    }
  }

  /** Trees equal up to their aggregates hold the same records. */
  lemma {:induction false} StripFlatten(t: Node)
    ensures Flatten(Strip(t)) == Flatten(t)
    decreases t, 1
  {
    StripForestFlatten(t.children);
  }

  lemma {:induction false} StripForestFlatten(ts: seq<Node>)
    ensures FlattenForest(StripForest(ts)) == FlattenForest(ts)
    decreases ts, 0
  {
    if |ts| > 0 {
      StripFlatten(ts[0]);
      StripForestFlatten(ts[1..]);
      assert StripForest(ts)[1..] == StripForest(ts[1..]);
    }
  }

  /** Trees equal up to their aggregates are linked alike. */
  lemma {:induction false} StripLinked(a: Node, b: Node, d: char)
    requires Strip(a) == Strip(b)
    ensures Linked(a, d) <==> Linked(b, d)
    decreases a
  {
    assert |a.children| == |b.children| by {
      assert |StripForest(a.children)| == |StripForest(b.children)|;
    }
    forall i | 0 <= i < |a.children| ensures a.children[i].id == b.children[i].id
      && (Linked(a.children[i], d) <==> Linked(b.children[i], d))
    {
      assert Strip(a.children[i]) == StripForest(a.children)[i] == Strip(b.children[i]);
      StripLinked(a.children[i], b.children[i], d);
    }
  }

  /** Trees equal up to their aggregates are sorted alike. */
  lemma {:induction false} StripSorted(a: Node, b: Node)
    requires Strip(a) == Strip(b)
    ensures SortedEverywhere(a) <==> SortedEverywhere(b)
    decreases a
  {
    assert |a.children| == |b.children| by {
      assert |StripForest(a.children)| == |StripForest(b.children)|;
    }
    forall i | 0 <= i < |a.children| ensures a.children[i].id == b.children[i].id
      && (SortedEverywhere(a.children[i]) <==> SortedEverywhere(b.children[i]))
    {
      assert Strip(a.children[i]) == StripForest(a.children)[i] == Strip(b.children[i]);
      StripSorted(a.children[i], b.children[i]);
    }
  }

  /** Summing alters no id, so the sort applied after it leaves the order as
      the first sort left it. */
  lemma SecondSortIsNoOp(t: Node)
    ensures SortTree(SumTree(SortTree(t))) == SumTree(SortTree(t))
  {
    var sorted := SortTree(t);
    StripSorted(SumTree(sorted), sorted);
    SortTreeKeepsSorted(SumTree(sorted));
  }
}
