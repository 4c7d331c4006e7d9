/**
 * The flat input records and the hierarchy built from them.
 */
module Tree {
  import opened Paths

  /** One input datum `{id, value}`; `id` is a delimited path. */
  datatype Record = Record(id: string, value: int)

  /** A hierarchy node: the record's id and own value, the aggregate `total`
      that `sum` assigns (0 until then), and the ordered children. */
  datatype Node = Node(id: string, own: int, total: int, children: seq<Node>)

  /** The record a node was built from. */
  function RecordOf(t: Node): Record
  {
    Record(t.id, t.own)
  }

  /** Every node's record, in pre-order. */
  function Flatten(t: Node): (rs: seq<Record>)
    ensures |rs| >= 1 && rs[0] == RecordOf(t)
    decreases t, 1
  {
    [RecordOf(t)] + FlattenForest(t.children)
  }

  /** The records of a sequence of subtrees, subtree after subtree. */
  function FlattenForest(ts: seq<Node>): seq<Record>
    decreases ts, 0
  {
    if |ts| == 0 then [] else Flatten(ts[0]) + FlattenForest(ts[1..])
  }

  /** The tree with every aggregate cleared: what stays when totals are ignored. */
  function Strip(t: Node): Node
    decreases t, 1
  {
    Node(t.id, t.own, 0, StripForest(t.children))
  }

  function StripForest(ts: seq<Node>): (r: seq<Node>)
    ensures |r| == |ts|
    ensures forall i :: 0 <= i < |ts| ==> r[i] == Strip(ts[i])
    decreases ts, 0
  {
    if |ts| == 0 then [] else [Strip(ts[0])] + StripForest(ts[1..])
  }

  /** Every child's derived parent id is exactly its parent's id, at every level. */
  predicate Linked(t: Node, d: char)
    decreases t
  {
    forall i :: 0 <= i < |t.children| ==>
      ParentId(t.children[i].id, d) == t.id && Linked(t.children[i], d)
  }

  /** The sum of the records' values. */
  function SumValues(rs: seq<Record>): int
  {
    if |rs| == 0 then 0 else rs[0].value + SumValues(rs[1..])
  }

  /** Subtrees holding the same records pairwise hold the same records together. */
  lemma {:induction false} FlattenForestPointwise(ts: seq<Node>, us: seq<Node>)
    requires |ts| == |us|
    requires forall i :: 0 <= i < |ts| ==> multiset(Flatten(us[i])) == multiset(Flatten(ts[i]))
    ensures multiset(FlattenForest(us)) == multiset(FlattenForest(ts))
    decreases |ts|
  {
    if |ts| > 0 {
      FlattenForestPointwise(ts[1..], us[1..]);
    }
  }

  lemma FlattenForestCons(t: Node, ts: seq<Node>)
    ensures FlattenForest([t] + ts) == Flatten(t) + FlattenForest(ts)
  {
    assert ([t] + ts)[0] == t && ([t] + ts)[1..] == ts;
  }

  lemma {:induction false} FlattenForestAppend(a: seq<Node>, b: seq<Node>)
    ensures FlattenForest(a + b) == FlattenForest(a) + FlattenForest(b)
    decreases |a|
  {
    if |a| == 0 {
      assert a + b == b;
    } else {
      assert (a + b)[0] == a[0];
      assert (a + b)[1..] == a[1..] + b;
      FlattenForestAppend(a[1..], b);
    }
  }

  lemma {:induction false} SumValuesAppend(a: seq<Record>, b: seq<Record>)
    ensures SumValues(a + b) == SumValues(a) + SumValues(b)
    decreases |a|
  {
    if |a| == 0 {
      assert a + b == b;
    } else {
      assert (a + b)[0] == a[0];
      assert (a + b)[1..] == a[1..] + b;
      SumValuesAppend(a[1..], b);
    }
  }

  /** The sum of values does not depend on the order of the records. */
  lemma {:induction false} SumValuesPermutation(a: seq<Record>, b: seq<Record>)
    requires multiset(a) == multiset(b)
    ensures SumValues(a) == SumValues(b)
    decreases |a|
  {
    if |a| > 0 {
      assert a[0] in multiset(b);
      var k :| 0 <= k < |b| && b[k] == a[0];
      var b' := b[..k] + b[k + 1..];
      RemoveOne(a, 0);
      assert a[..0] + a[1..] == a[1..];
      RemoveOne(b, k);
      SumValuesPermutation(a[1..], b');
      SumValuesRemove(b, k);
    }
  }

  /** Multiset union regrouped, stated once so that callers need not. */
  lemma Swap<T>(h: multiset<T>, a: multiset<T>, c: multiset<T>, r: multiset<T>)
    ensures (h + a) + (c + r) == (h + c) + (a + r)
  {
  }

  /** The multiset of a concatenation, regrouped. */
  lemma ConcatSwap<T>(x: seq<T>, y: seq<T>, h: multiset<T>, a: multiset<T>, c: multiset<T>, r: multiset<T>)
    requires multiset(x) == h + a && multiset(y) == c + r
    ensures multiset(x + y) == (h + c) + (a + r)
  {
    Swap(h, a, c, r);
  }

  /** The multiset of a non-empty sequence: its head and the rest. */
  lemma HeadTail<T>(s: seq<T>)
    requires |s| > 0
    ensures multiset(s) == multiset{s[0]} + multiset(s[1..])
  {
    assert s == [s[0]] + s[1..];
  }

  /** Taking out the element at `k` takes one copy of it out of the multiset. */
  lemma RemoveOne<T>(s: seq<T>, k: nat)
    requires k < |s|
    ensures multiset(s[..k] + s[k + 1..]) == multiset(s) - multiset{s[k]}
  {
    assert s == s[..k] + [s[k]] + s[k + 1..];
  }

  lemma SumValuesRemove(b: seq<Record>, k: nat)
    requires k < |b|
    ensures SumValues(b) == b[k].value + SumValues(b[..k] + b[k + 1..])
  {
    var pre := b[..k];
    var post := b[k + 1..];
    assert SumValues(b) == SumValues(pre + [b[k]]) + SumValues(post) by {
      assert b == (pre + [b[k]]) + post;
      SumValuesAppend(pre + [b[k]], post);
    }
    assert SumValues(pre + [b[k]]) == SumValues(pre) + b[k].value by {
      SumValuesAppend(pre, [b[k]]);
      assert [b[k]][1..] == [];
    }
    SumValuesAppend(pre, post);
  }

}
