/**
 * What stratify guarantees: when it succeeds, and that the tree it returns
 * links records by exact parent-id equality and holds every record exactly
 * once (so the "cycle" error can never arise).
 */
module StratifyFacts {
  import opened Common
  import opened Paths
  import opened Tree
  import opened Ancestry
  import opened Stratification

  lemma {:induction false} IdCountAbsent(rs: seq<Record>, x: string)
    requires forall j :: 0 <= j < |rs| ==> rs[j].id != x
    ensures IdCount(rs, x) == 0
    decreases |rs|
  {
    if |rs| > 0 {
      IdCountAbsent(rs[1..], x);
    }
  }

  /** A positive count means some record carries the id. */
  lemma {:induction false} IdCountWitness(rs: seq<Record>, x: string) returns (j: nat)
    requires IdCount(rs, x) >= 1
    ensures j < |rs| && rs[j].id == x
    decreases |rs|
  {
    if rs[0].id == x {
      j := 0;
    } else {
      var j' := IdCountWitness(rs[1..], x);
      j := j' + 1;
    }
  }

  lemma {:induction false} IdCountPresent(rs: seq<Record>, j: nat)
    requires j < |rs|
    ensures IdCount(rs, rs[j].id) >= 1
    decreases |rs|
  {
    if j > 0 {
      IdCountPresent(rs[1..], j - 1);
    }
  }

  /** The linking loop succeeds exactly when every parent id from index `i`
      on resolves to one record and at most one root candidate is seen; it
      reports a root exactly when one was seen. */
  lemma {:induction false} LinkScanSpec(rs: seq<Record>, d: char, i: nat, root: Option<nat>)
    requires i <= |rs|
    requires root.Some? ==> root.value < i && ParentId(rs[root.value].id, d) == ""
    ensures LinkScan(rs, d, i, root).Success? <==>
              ParentsResolve(rs, d, i) && RootsFrom(rs, d, i) + (if root.Some? then 1 else 0) <= 1
    ensures LinkScan(rs, d, i, root).Success? ==>
              (LinkScan(rs, d, i, root).value.Some? <==> root.Some? || RootsFrom(rs, d, i) >= 1)
    decreases |rs| - i
  {
    if i < |rs| {
      var p := ParentId(rs[i].id, d);
      assert ParentsResolve(rs, d, i) <==>
               (p != "" ==> IdCount(rs, p) == 1) && ParentsResolve(rs, d, i + 1);
      if p == "" {
        if root.None? {
          LinkScanSpec(rs, d, i + 1, Some(i));
        }
      } else if IdCount(rs, p) == 1 {
        LinkScanSpec(rs, d, i + 1, root);
      }
    }
  }

  /** Stratify returns a tree exactly for well-formed input. */
  lemma StratifySucceedsIff(rs: seq<Record>, d: char)
    ensures Stratify(rs, d).Success? <==> WellFormed(rs, d)
  {
    LinkScanSpec(rs, d, 0, None);
  }

  // ---------------------------------------------------------------------------
  // Linking is by exact parent-id equality

  lemma {:induction false} BuildNodeLinked(rs: seq<Record>, d: char, r: Record)
    requires r in rs
    ensures BuildNode(rs, d, r).id == r.id && Linked(BuildNode(rs, d, r), d)
    decreases MaxLen(rs) - |r.id|, 1
  {
    var cs := ChildrenOf(rs, d, r.id);
    BuildForestLinked(rs, d, r.id, cs);
    var t := BuildNode(rs, d, r);
    assert t.children == BuildForest(rs, d, r.id, cs);
    forall i | 0 <= i < |t.children| ensures ParentId(t.children[i].id, d) == t.id && Linked(t.children[i], d) {
      assert t.children[i] in t.children;
    }
  }

  lemma {:induction false} BuildForestLinked(rs: seq<Record>, d: char, p: string, cs: seq<Record>)
    requires |p| <= MaxLen(rs)
    requires forall c :: c in cs ==> c in rs && |c.id| > |p| && ParentId(c.id, d) == p
    ensures forall t :: t in BuildForest(rs, d, p, cs) ==> ParentId(t.id, d) == p && Linked(t, d)
    decreases MaxLen(rs) - |p|, 0, |cs|
  {
    if |cs| > 0 {
      assert cs[0] in cs;
      BuildNodeLinked(rs, d, cs[0]);
      BuildForestLinked(rs, d, p, cs[1..]);
      var ts := BuildForest(rs, d, p, cs);
      var rest := BuildForest(rs, d, p, cs[1..]);
      assert ts == [BuildNode(rs, d, cs[0])] + rest;
    }
  }

  // ---------------------------------------------------------------------------
  // Every record lands in the tree exactly once

  /** The records of `xs` strictly below the id `a`, in order. */
  function Below(xs: seq<Record>, d: char, a: string): seq<Record>
  {
    if |xs| == 0 then []
    else (if xs[0].id != a && Under(a, xs[0].id, d) then [xs[0]] else []) + Below(xs[1..], d, a)
  }

  /** The records of `xs` strictly below each record of `cs`, pooled. */
  function SumBelow(xs: seq<Record>, d: char, cs: seq<Record>): multiset<Record>
  {
    if |cs| == 0 then multiset{} else multiset(Below(xs, d, cs[0].id)) + SumBelow(xs, d, cs[1..])
  }

  /** How many records of `cs` have an id strictly above `x`. */
  function CountAbove(cs: seq<Record>, d: char, x: string): nat
  {
    if |cs| == 0 then 0
    else (if x != cs[0].id && Under(cs[0].id, x, d) then 1 else 0) + CountAbove(cs[1..], d, x)
  }

  /** `n` copies of `q`. */
  function Copies<T>(q: T, n: nat): multiset<T>
  {
    if n == 0 then multiset{} else multiset{q} + Copies(q, n - 1)
  }

  lemma BelowCons(q: Record, xs: seq<Record>, d: char, a: string)
    ensures multiset(Below([q] + xs, d, a))
            == Copies(q, if q.id != a && Under(a, q.id, d) then 1 else 0) + multiset(Below(xs, d, a))
  {
    assert ([q] + xs)[0] == q && ([q] + xs)[1..] == xs;
  }

  lemma ChildrenCons(q: Record, xs: seq<Record>, d: char, p: string)
    ensures multiset(ChildrenOf([q] + xs, d, p))
            == Copies(q, if p != "" && ParentId(q.id, d) == p then 1 else 0) + multiset(ChildrenOf(xs, d, p))
  {
    assert ([q] + xs)[0] == q && ([q] + xs)[1..] == xs;
  }

  /** Counting one element on both sides of a partition, where `q` is
      counted at most once on the left. */
  lemma CopiesStep<T>(q: T, i: nat, j: nat, n: nat, b: multiset<T>, c: multiset<T>, r: multiset<T>)
    requires i == j + n && j <= 1
    requires b == c + r
    ensures Copies(q, i) + b == (Copies(q, j) + c) + (Copies(q, n) + r)
  {
    assert Copies(q, i) == Copies(q, j) + Copies(q, n) by {
      if j == 1 {
        assert Copies(q, j) == multiset{q};
      }
    }
    Swap(Copies(q, j), Copies(q, n), c, r);
  }

  /** Putting `q` in front of `xs` adds one copy of `q` for every record of
      `cs` that lies strictly above it. */
  lemma {:induction false} SumBelowCons(q: Record, xs: seq<Record>, d: char, cs: seq<Record>)
    ensures SumBelow([q] + xs, d, cs) == Copies(q, CountAbove(cs, d, q.id)) + SumBelow(xs, d, cs)
    decreases |cs|
  {
    if |cs| > 0 {
      var a := cs[0].id;
      SumBelowCons(q, xs, d, cs[1..]);
      BelowCons(q, xs, d, a);
      CopiesStep(q, CountAbove(cs, d, q.id), if q.id != a && Under(a, q.id, d) then 1 else 0,
                 CountAbove(cs[1..], d, q.id), SumBelow(xs, d, cs), multiset(Below(xs, d, a)), SumBelow(xs, d, cs[1..]));
    }
  }

  lemma {:induction false} SumBelowNone(d: char, cs: seq<Record>)
    ensures SumBelow([], d, cs) == multiset{}
    decreases |cs|
  {
    if |cs| > 0 {
      SumBelowNone(d, cs[1..]);
    }
  }

  lemma {:induction false} CountAboveZero(cs: seq<Record>, d: char, x: string)
    requires forall c :: c in cs ==> !(x != c.id && Under(c.id, x, d))
    ensures CountAbove(cs, d, x) == 0
    decreases |cs|
  {
    if |cs| > 0 {
      assert cs[0] in cs;
      CountAboveZero(cs[1..], d, x);
    }
  }

  lemma {:induction false} CountAboveById(cs: seq<Record>, d: char, x: string, y: string)
    requires forall c :: c in cs ==> (x != c.id && Under(c.id, x, d) <==> c.id == y)
    ensures CountAbove(cs, d, x) == IdCount(cs, y)
    decreases |cs|
  {
    if |cs| > 0 {
      assert cs[0] in cs;
      CountAboveById(cs[1..], d, x, y);
    }
  }

  /** Every record carrying an id whose parent id is `p` is among the children of `p`. */
  lemma {:induction false} ChildrenIdCount(rs: seq<Record>, d: char, p: string, y: string)
    requires p != "" && ParentId(y, d) == p
    ensures IdCount(ChildrenOf(rs, d, p), y) == IdCount(rs, y)
    decreases |rs|
  {
    if |rs| > 0 {
      ChildrenIdCount(rs[1..], d, p, y);
      var rest := ChildrenOf(rs[1..], d, p);
      if ParentId(rs[0].id, d) == p {
        var cs := [rs[0]] + rest;
        assert ChildrenOf(rs, d, p) == cs;
        assert cs[0] == rs[0] && cs[1..] == rest;
      } else {
        assert ChildrenOf(rs, d, p) == [] + rest == rest;
        assert rs[0].id != y;
      }
    }
  }

  /** Every ancestor id of a record's id is itself a record's id. */
  lemma {:induction false} UnderRecorded(rs: seq<Record>, d: char, y: string, x: string)
    requires ParentsResolve(rs, d, 0)
    requires IdCount(rs, x) >= 1 && Under(y, x, d)
    ensures IdCount(rs, y) >= 1
    decreases |x|
  {
    if x != y {
      var j := IdCountWitness(rs, x);
      assert ParentId(rs[j].id, d) != "";
      UnderRecorded(rs, d, y, ParentId(x, d));
    }
  }

  /** An id strictly above a record's id is named as a parent, so exactly
      one record carries it. */
  lemma NamedAncestor(rs: seq<Record>, d: char, y: string, x: string)
    requires ParentsResolve(rs, d, 0)
    requires IdCount(rs, x) >= 1 && Under(y, x, d) && y != x
    ensures IdCount(rs, y) == 1
  {
    var z := StepBelow(y, x, d);
    UnderRecorded(rs, d, z, x);
    var j := IdCountWitness(rs, z);
    assert ParentId(rs[j].id, d) == y != "";
  }

  /** A record strictly below `a` is either a child of `a` or strictly below
      exactly one child of `a`, and never both. */
  lemma CountSplit(rs: seq<Record>, d: char, a: string, q: Record)
    requires ParentsResolve(rs, d, 0) && q in rs
    ensures (if q.id != a && Under(a, q.id, d) then 1 else 0)
            == (if a != "" && ParentId(q.id, d) == a then 1 else 0) + CountAbove(ChildrenOf(rs, d, a), d, q.id)
  {
    var cs := ChildrenOf(rs, d, a);
    if q.id != a && Under(a, q.id, d) {
      var y := StepBelow(a, q.id, d);
      if y == q.id {
        forall c | c in cs ensures !(q.id != c.id && Under(c.id, q.id, d)) {
          if Under(c.id, q.id, d) {
            SiblingsExclusive(c.id, q.id, q.id, d);
          }
        }
        CountAboveZero(cs, d, q.id);
      } else {
        var jq :| 0 <= jq < |rs| && rs[jq] == q;
        IdCountPresent(rs, jq);
        if ParentId(q.id, d) == a {
          assert Under(y, a, d);
          UnderShorter(y, a, d);
        }
        forall c | c in cs ensures q.id != c.id && Under(c.id, q.id, d) <==> c.id == y {
          if q.id != c.id && Under(c.id, q.id, d) {
            SiblingsExclusive(c.id, y, q.id, d);
          }
        }
        CountAboveById(cs, d, q.id, y);
        ChildrenIdCount(rs, d, a, y);
        NamedAncestor(rs, d, y, q.id);
      }
    } else {
      forall c | c in cs ensures !(q.id != c.id && Under(c.id, q.id, d)) {
        if q.id != c.id && Under(c.id, q.id, d) {
          assert Under(a, c.id, d);
          UnderTransitive(a, c.id, q.id, d);
          UnderShorter(c.id, q.id, d);
        }
      }
      CountAboveZero(cs, d, q.id);
    }
  }

  /** One record's step of the partition: its count on both sides agrees. */
  lemma PartitionStep(q: Record, t: seq<Record>, d: char, a: string, cs: seq<Record>)
    requires (if q.id != a && Under(a, q.id, d) then 1 else 0)
             == (if a != "" && ParentId(q.id, d) == a then 1 else 0) + CountAbove(cs, d, q.id)
    requires multiset(Below(t, d, a)) == multiset(ChildrenOf(t, d, a)) + SumBelow(t, d, cs)
    ensures multiset(Below([q] + t, d, a)) == multiset(ChildrenOf([q] + t, d, a)) + SumBelow([q] + t, d, cs)
  {
    BelowCons(q, t, d, a);
    ChildrenCons(q, t, d, a);
    SumBelowCons(q, t, d, cs);
    CopiesStep(q, if q.id != a && Under(a, q.id, d) then 1 else 0, if a != "" && ParentId(q.id, d) == a then 1 else 0,
               CountAbove(cs, d, q.id), multiset(Below(t, d, a)), multiset(ChildrenOf(t, d, a)), SumBelow(t, d, cs));
  }

  /** The records strictly below `a` split into the children of `a` and the
      records strictly below each of them. */
  lemma {:induction false} PartitionFrom(rs: seq<Record>, d: char, a: string, xs: seq<Record>)
    requires ParentsResolve(rs, d, 0)
    requires forall q :: q in xs ==> q in rs
    ensures multiset(Below(xs, d, a))
            == multiset(ChildrenOf(xs, d, a)) + SumBelow(xs, d, ChildrenOf(rs, d, a))
    decreases |xs|
  {
    if |xs| == 0 {
      SumBelowNone(d, ChildrenOf(rs, d, a));
    } else {
      assert xs == [xs[0]] + xs[1..];
      PartitionFrom(rs, d, a, xs[1..]);
      CountSplit(rs, d, a, xs[0]);
      PartitionStep(xs[0], xs[1..], d, a, ChildrenOf(rs, d, a));
    }
  }

  /** The subtree built for `r` holds `r` and exactly the records strictly below its id. */
  lemma {:induction false} BuildNodeContent(rs: seq<Record>, d: char, r: Record)
    requires ParentsResolve(rs, d, 0) && r in rs
    ensures multiset(Flatten(BuildNode(rs, d, r))) == multiset{r} + multiset(Below(rs, d, r.id))
    decreases MaxLen(rs) - |r.id|, 1
  {
    var cs := ChildrenOf(rs, d, r.id);
    BuildForestContent(rs, d, r.id, cs);
    PartitionFrom(rs, d, r.id, rs);
    assert Flatten(BuildNode(rs, d, r)) == [r] + FlattenForest(BuildForest(rs, d, r.id, cs));
  }

  lemma {:induction false} BuildForestContent(rs: seq<Record>, d: char, p: string, cs: seq<Record>)
    requires ParentsResolve(rs, d, 0)
    requires |p| <= MaxLen(rs)
    requires forall c :: c in cs ==> c in rs && |c.id| > |p|
    ensures multiset(FlattenForest(BuildForest(rs, d, p, cs))) == multiset(cs) + SumBelow(rs, d, cs)
    decreases MaxLen(rs) - |p|, 0, |cs|
  {
    if |cs| > 0 {
      BuildNodeContent(rs, d, cs[0]);
      BuildForestContent(rs, d, p, cs[1..]);
      ForestContentStep(BuildForest(rs, d, p, cs), BuildNode(rs, d, cs[0]), BuildForest(rs, d, p, cs[1..]), cs,
                        multiset(Below(rs, d, cs[0].id)), SumBelow(rs, d, cs[1..]));
    }
  }

  /** One sibling's step of BuildForestContent: the first subtree holds the
      first sibling and the records below it, the rest hold the others. */
  lemma ForestContentStep(ns: seq<Node>, n: Node, rest: seq<Node>, cs: seq<Record>, b: multiset<Record>, r: multiset<Record>)
    requires ns == [n] + rest && |cs| > 0
    requires multiset(Flatten(n)) == multiset{cs[0]} + b
    requires multiset(FlattenForest(rest)) == multiset(cs[1..]) + r
    ensures multiset(FlattenForest(ns)) == multiset(cs) + (b + r)
  {
    FlattenForestCons(n, rest);
    HeadTail(cs);
    ConcatSwap(Flatten(n), FlattenForest(rest), multiset{cs[0]}, b, multiset(cs[1..]), r);
  }

  lemma {:induction false} RootsFromTwo(rs: seq<Record>, d: char, k: nat, i: nat, j: nat)
    requires k <= i < j < |rs|
    requires ParentId(rs[i].id, d) == "" && ParentId(rs[j].id, d) == ""
    ensures RootsFrom(rs, d, k) >= 2
    decreases j - k
  {
    if k < i {
      RootsFromTwo(rs, d, k + 1, i, j);
    } else {
      RootsFromOne(rs, d, k + 1, j);
    }
  }

  lemma {:induction false} RootsFromOne(rs: seq<Record>, d: char, k: nat, j: nat)
    requires k <= j < |rs| && ParentId(rs[j].id, d) == ""
    ensures RootsFrom(rs, d, k) >= 1
    decreases j - k
  {
    if k < j {
      RootsFromOne(rs, d, k + 1, j);
    }
  }

  /** With one root candidate at `k`, no other record is a root candidate. */
  lemma OnlyRoot(rs: seq<Record>, d: char, k: nat, j: nat)
    requires RootsFrom(rs, d, 0) == 1
    requires k < |rs| && ParentId(rs[k].id, d) == ""
    requires j < |rs| && ParentId(rs[j].id, d) == ""
    ensures j == k
  {
    if j < k {
      RootsFromTwo(rs, d, 0, j, k);
    } else if k < j {
      RootsFromTwo(rs, d, 0, k, j);
    }
  }

  /** Every record's id lies under the root's id. */
  lemma {:induction false} AllUnderRoot(rs: seq<Record>, d: char, k: nat, x: string)
    requires WellFormed(rs, d)
    requires k < |rs| && ParentId(rs[k].id, d) == ""
    requires IdCount(rs, x) >= 1
    ensures Under(rs[k].id, x, d)
    decreases |x|
  {
    var j := IdCountWitness(rs, x);
    if ParentId(x, d) == "" {
      OnlyRoot(rs, d, k, j);
    } else {
      assert IdCount(rs, ParentId(rs[j].id, d)) == 1;
      AllUnderRoot(rs, d, k, ParentId(x, d));
    }
  }

  /** Below the root's id lies every record but the root itself. */
  lemma {:induction false} BelowAllBut(xs: seq<Record>, d: char, a: string, k: nat)
    requires k < |xs| && xs[k].id == a
    requires forall j :: 0 <= j < |xs| && j != k ==> xs[j].id != a && Under(a, xs[j].id, d)
    ensures Below(xs, d, a) == xs[..k] + xs[k + 1..]
    decreases |xs|
  {
    var rest := xs[1..];
    if k == 0 {
      assert Below(rest, d, a) == rest by {
        forall j | 0 <= j < |rest| ensures rest[j].id != a && Under(a, rest[j].id, d) {
          assert rest[j] == xs[j + 1];
        }
        BelowAll(rest, d, a);
      }
      assert Below(xs, d, a) == [] + Below(rest, d, a);
    } else {
      assert Below(rest, d, a) == rest[..k - 1] + rest[k..] by {
        forall j | 0 <= j < |rest| && j != k - 1 ensures rest[j].id != a && Under(a, rest[j].id, d) {
          assert rest[j] == xs[j + 1];
        }
        BelowAllBut(rest, d, a, k - 1);
      }
      assert Below(xs, d, a) == [xs[0]] + Below(rest, d, a) by {
        assert xs[0].id != a && Under(a, xs[0].id, d);
      }
      assert xs[..k] + xs[k + 1..] == [xs[0]] + (rest[..k - 1] + rest[k..]);
    }
  }

  lemma {:induction false} BelowAll(xs: seq<Record>, d: char, a: string)
    requires forall j :: 0 <= j < |xs| ==> xs[j].id != a && Under(a, xs[j].id, d)
    ensures Below(xs, d, a) == xs
    decreases |xs|
  {
    if |xs| > 0 {
      var rest := xs[1..];
      assert Below(rest, d, a) == rest by {
        forall j | 0 <= j < |rest| ensures rest[j].id != a && Under(a, rest[j].id, d) {
          assert rest[j] == xs[j + 1];
        }
        BelowAll(rest, d, a);
      }
      assert Below(xs, d, a) == [xs[0]] + Below(rest, d, a) by {
        assert xs[0].id != a && Under(a, xs[0].id, d);
      }
    }
  }

  /** A tree returned by stratify is rooted at a root candidate, links every
      child under the record its parent id names exactly, and holds every
      input record exactly once: nothing is dropped, duplicated or caught in
      a cycle. */
  lemma StratifyTree(rs: seq<Record>, d: char)
    requires Stratify(rs, d).Success?
    ensures var t := Stratify(rs, d).value;
            && ParentId(t.id, d) == ""
            && Linked(t, d)
            && multiset(Flatten(t)) == multiset(rs)
  {
    StratifySucceedsIff(rs, d);
    var k := LinkScan(rs, d, 0, None).value.value;
    var root := rs[k];
    var t := BuildNode(rs, d, root);
    assert Stratify(rs, d).value == t;
    BuildNodeLinked(rs, d, root);
    assert multiset(Flatten(t)) == multiset(rs) by {
      BuildNodeContent(rs, d, root);
      RootHoldsAll(rs, d, k);
      RemoveOne(rs, k);
      assert root in multiset(rs);
    }
  }

  /** Below the root candidate's id lie all the other records. */
  lemma RootHoldsAll(rs: seq<Record>, d: char, k: nat)
    requires WellFormed(rs, d)
    requires k < |rs| && ParentId(rs[k].id, d) == ""
    ensures Below(rs, d, rs[k].id) == rs[..k] + rs[k + 1..]
  {
    var a := rs[k].id;
    forall j | 0 <= j < |rs| && j != k ensures rs[j].id != a && Under(a, rs[j].id, d) {
      IdCountPresent(rs, j);
      AllUnderRoot(rs, d, k, rs[j].id);
      if rs[j].id == a {
        OnlyRoot(rs, d, k, j);
      }
    }
    BelowAllBut(rs, d, a, k);
  }
}
