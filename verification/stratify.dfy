/**
 * Building the hierarchy from the flat records (d3's `stratify`, fed the
 * parent-id accessor of `get data`).  Each record is linked under the record
 * whose id equals its derived parent id exactly; the records whose parent id
 * is "" are root candidates.
 */
module Stratification {
  import opened Common
  import opened Paths
  import opened Tree
  import opened Ancestry

  /** The reasons stratify throws instead of returning a tree. */
  datatype StratifyError =
    | MultipleRoots
    | Missing(parentId: string)
    | Ambiguous(parentId: string)
    | NoRoot

  /** How many records carry the id `x`. */
  function IdCount(rs: seq<Record>, x: string): nat
  {
    if |rs| == 0 then 0 else (if rs[0].id == x then 1 else 0) + IdCount(rs[1..], x)
  }

  /** How many of the records from index `i` on are root candidates. */
  function RootsFrom(rs: seq<Record>, d: char, i: nat): nat
    requires i <= |rs|
    decreases |rs| - i
  {
    if i == |rs| then 0
    else (if ParentId(rs[i].id, d) == "" then 1 else 0) + RootsFrom(rs, d, i + 1)
  }

  /** Records from index `i` on name a parent id carried by exactly one record. */
  predicate ParentsResolve(rs: seq<Record>, d: char, i: nat)
  {
    forall j :: i <= j < |rs| && ParentId(rs[j].id, d) != "" ==>
      IdCount(rs, ParentId(rs[j].id, d)) == 1
  }

  /** The inputs from which a tree is built: exactly one root candidate, and
      every parent id that a record names carried by exactly one record.  An
      id carried by several records is allowed as long as no record names it
      as its parent. */
  predicate WellFormed(rs: seq<Record>, d: char)
  {
    RootsFrom(rs, d, 0) == 1 && ParentsResolve(rs, d, 0)
  }

  /** The records linked under parent id `p`, in input order; "" is never
      looked up as a parent. */
  function ChildrenOf(rs: seq<Record>, d: char, p: string): (cs: seq<Record>)
    ensures forall c :: c in cs <==> c in rs && p != "" && ParentId(c.id, d) == p
  {
    if |rs| == 0 then []
    else
      (if p != "" && ParentId(rs[0].id, d) == p then [rs[0]] else []) + ChildrenOf(rs[1..], d, p)
  }

  /** The length of the longest id, which bounds the depth of linking. */
  function MaxLen(rs: seq<Record>): (m: nat)
    ensures forall r :: r in rs ==> |r.id| <= m
  {
    if |rs| == 0 then 0
    else
      var m := MaxLen(rs[1..]);
      if |rs[0].id| > m then |rs[0].id| else m
  }

  /** The subtree rooted at record `r`: its children are the records whose
      derived parent id is `r.id`.  Every child id is longer than its
      parent's, which is why the linking terminates. */
  function BuildNode(rs: seq<Record>, d: char, r: Record): Node
    requires r in rs
    decreases MaxLen(rs) - |r.id|, 1
  {
    Node(r.id, r.value, 0, BuildForest(rs, d, r.id, ChildrenOf(rs, d, r.id)))
  }

  function BuildForest(rs: seq<Record>, d: char, p: string, cs: seq<Record>): seq<Node>
    requires |p| <= MaxLen(rs)
    requires forall c :: c in cs ==> c in rs && |c.id| > |p|
    decreases MaxLen(rs) - |p|, 0, |cs|
  {
    if |cs| == 0 then []
    else [BuildNode(rs, d, cs[0])] + BuildForest(rs, d, p, cs[1..])
  }

  /** d3's linking loop over the records in input order: a second root
      candidate, a parent id that no record carries, or one that several
      records carry, aborts; otherwise the index of the root candidate (if
      any) is returned. */
  function LinkScan(rs: seq<Record>, d: char, i: nat, root: Option<nat>): (r: Result<Option<nat>, StratifyError>)
    requires i <= |rs|
    requires root.Some? ==> root.value < i && ParentId(rs[root.value].id, d) == ""
    ensures r.Success? && r.value.Some? ==> r.value.value < |rs| && ParentId(rs[r.value.value].id, d) == ""
    decreases |rs| - i
  {
    if i == |rs| then Success(root)
    else
      var p := ParentId(rs[i].id, d);
      if p == "" then
        if root.Some? then Failure(MultipleRoots) else LinkScan(rs, d, i + 1, Some(i))
      else if IdCount(rs, p) == 0 then Failure(Missing(p))
      else if IdCount(rs, p) > 1 then Failure(Ambiguous(p))
      else LinkScan(rs, d, i + 1, root)
  }

  /** `stratify()(records)`: the tree, or the error it throws.  The tree is
      built from the root candidate the linking loop found. */
  function Stratify(rs: seq<Record>, d: char): (r: Result<Node, StratifyError>)
    ensures r.Success? ==> ParentId(r.value.id, d) == "" && RecordOf(r.value) in rs
  {
    match LinkScan(rs, d, 0, None)
    case Failure(e) => Failure(e)
    case Success(None) => Failure(NoRoot)
    case Success(Some(k)) => Success(BuildNode(rs, d, rs[k]))
  }
}
