/**
 * The ancestor relation that repeated parent-id derivation induces on ids.
 * The chain from an id stops at an id whose parent id is "" (a root
 * candidate), since stratify never looks "" up as a parent.
 */
module Ancestry {
  import opened Paths

  /** `a` is `x` itself or is reached from `x` by following parent ids. */
  predicate Under(a: string, x: string, d: char)
    decreases |x|
  {
    x == a || (ParentId(x, d) != "" && Under(a, ParentId(x, d), d))
  }

  /** Following parent ids always shortens the id, so there is no cycle:
      an ancestor is never longer than its descendant, and one of the same
      length is the id itself. */
  lemma {:induction false} UnderShorter(a: string, x: string, d: char)
    requires Under(a, x, d)
    ensures |a| <= |x|
    ensures |a| == |x| ==> a == x
    decreases |x|
  {
    if x != a {
      UnderShorter(a, ParentId(x, d), d);
    }
  }

  lemma {:induction false} UnderTransitive(a: string, b: string, x: string, d: char)
    requires Under(a, b, d) && Under(b, x, d)
    ensures Under(a, x, d)
    decreases |x|
  {
    if x != b {
      UnderTransitive(a, b, ParentId(x, d), d);
    }
  }

  /** The ancestors of one id form a chain. */
  lemma {:induction false} UnderLinear(a: string, b: string, x: string, d: char)
    requires Under(a, x, d) && Under(b, x, d)
    ensures Under(a, b, d) || Under(b, a, d)
    decreases |x|
  {
    if x != a && x != b {
      UnderLinear(a, b, ParentId(x, d), d);
    }
  }

  /** Two ids with the same (non-root) parent id that are both ancestors of
      one id are the same id. */
  lemma SiblingsExclusive(c1: string, c2: string, x: string, d: char)
    requires ParentId(c1, d) == ParentId(c2, d) != ""
    requires Under(c1, x, d) && Under(c2, x, d)
    ensures c1 == c2
  {
    UnderLinear(c1, c2, x, d);
    if Under(c1, c2, d) && c1 != c2 {
      UnderShorter(c1, ParentId(c2, d), d);
    } else if Under(c2, c1, d) && c1 != c2 {
      UnderShorter(c2, ParentId(c1, d), d);
    }
  }

  /** Below a proper ancestor `a` of `x` lies a unique first step: an id
      whose parent id is `a` and which is itself an ancestor of `x`. */
  lemma {:induction false} StepBelow(a: string, x: string, d: char) returns (y: string)
    requires Under(a, x, d) && x != a
    ensures ParentId(y, d) == a && a != ""
    ensures Under(y, x, d)
    decreases |x|
  {
    var p := ParentId(x, d);
    if p == a {
      y := x;
    } else {
      y := StepBelow(a, p, d);
    }
  }
}
