/**
 * The sibling comparator `a.id.toLowerCase().localeCompare(b.id.toLowerCase())`,
 * modelled as ordinal lexicographic comparison of ASCII-lower-cased ids.
 */
module Ordering {

  /** `toLowerCase` restricted to ASCII letters. */
  function LowerChar(c: char): (r: char)
    ensures 'A' <= c <= 'Z' ==> r != c && 'a' <= r <= 'z'
    ensures !('A' <= c <= 'Z') ==> r == c
  {
    if 'A' <= c <= 'Z' then (c as int + 32) as char else c
  }

  /** The lower-cased string, character by character. */
  function Lower(s: string): (r: string)
    ensures |r| == |s|
    ensures forall i :: 0 <= i < |s| ==> r[i] == LowerChar(s[i])
  {
    if |s| == 0 then [] else [LowerChar(s[0])] + Lower(s[1..])
  }

  /** Ordinal lexicographic order on strings: `a` sorts no later than `b`. */
  predicate LexLe(a: string, b: string)
    decreases |a|
  {
    |a| == 0 || (|b| > 0 && (a[0] < b[0] || (a[0] == b[0] && LexLe(a[1..], b[1..]))))
  }

  /** The comparator returns a value <= 0: `a` may be placed before `b`.
      Ids equal up to case tie, and of two ids at least one way round holds. */
  predicate Precedes(a: string, b: string): (r: bool)
    ensures Lower(a) == Lower(b) ==> r
    ensures !r ==> LexLe(Lower(b), Lower(a))
  {
    LexLeReflexive(Lower(a));
    LexLeTotal(Lower(a), Lower(b));
    LexLe(Lower(a), Lower(b))
  }

  lemma {:induction false} LexLeReflexive(a: string)
    ensures LexLe(a, a)
    decreases |a|
  {
    if |a| > 0 {
      LexLeReflexive(a[1..]);
    }
  }

  lemma {:induction false} LexLeTotal(a: string, b: string)
    ensures LexLe(a, b) || LexLe(b, a)
    decreases |a|
  {
    if |a| > 0 && |b| > 0 && a[0] == b[0] {
      LexLeTotal(a[1..], b[1..]);
    }
  }

  lemma {:induction false} LexLeTransitive(a: string, b: string, c: string)
    requires LexLe(a, b) && LexLe(b, c)
    ensures LexLe(a, c)
    decreases |a|
  {
    if |a| > 0 && a[0] == b[0] && b[0] == c[0] {
      LexLeTransitive(a[1..], b[1..], c[1..]);
    }
  }

  lemma {:induction false} LexLeAntisymmetric(a: string, b: string)
    requires LexLe(a, b) && LexLe(b, a)
    ensures a == b
    decreases |a|
  {
    if |a| > 0 {
      LexLeAntisymmetric(a[1..], b[1..]);
      assert a == [a[0]] + a[1..];
      assert b == [b[0]] + b[1..];
    }
  }

  /** The comparator is a total preorder on ids, which is what a sort needs;
      two ids tie exactly when they agree after lower-casing. */
  lemma PrecedesTotalPreorder(a: string, b: string, c: string)
    ensures Precedes(a, a)
    ensures Precedes(a, b) || Precedes(b, a)
    ensures Precedes(a, b) && Precedes(b, c) ==> Precedes(a, c)
    ensures Precedes(a, b) && Precedes(b, a) <==> Lower(a) == Lower(b)
  {
    LexLeReflexive(Lower(a));
    LexLeTotal(Lower(a), Lower(b));
    if Precedes(a, b) && Precedes(b, c) {
      LexLeTransitive(Lower(a), Lower(b), Lower(c));
    }
    if Precedes(a, b) && Precedes(b, a) {
      LexLeAntisymmetric(Lower(a), Lower(b));
    }
    if Lower(a) == Lower(b) {
      LexLeReflexive(Lower(b));
    }
  }
}
