/**
 * Path arithmetic on record ids.  An id such as "a|b|c" encodes its ancestry:
 * the parent id is everything before the last delimiter, the display label is
 * everything after it.  The delimiter is a single character (default '|').
 */
module Paths {

  /** The delimiter used when none is configured. */
  const DefaultDelimiter: char := '|'

  /** JavaScript `s.lastIndexOf(c)` for a one-character search string: the
      index of the last occurrence of `c`, or -1 when there is none. */
  function LastIndexOf(s: string, c: char): (r: int)
    ensures -1 <= r < |s|
    ensures r >= 0 ==> s[r] == c
    ensures forall j :: r < j < |s| ==> s[j] != c
    ensures r == -1 <==> c !in s
    decreases |s|
  {
    if |s| == 0 then -1
    else if s[|s| - 1] == c then |s| - 1
    else LastIndexOf(s[..|s| - 1], c)
  }

  /** The index of the first occurrence of `c`, or -1 when there is none
      (the scan `split` performs). */
  function IndexOf(s: string, c: char): (r: int)
    ensures -1 <= r < |s|
    ensures r >= 0 ==> s[r] == c
    ensures forall j :: 0 <= j < |s| && (r == -1 || j < r) ==> s[j] != c
    decreases |s|
  {
    if |s| == 0 then -1
    else if s[0] == c then 0
    else
      var k := IndexOf(s[1..], c);
      if k == -1 then -1 else k + 1
  }

  /** JavaScript `Math.min(Math.max(i, 0), len)`: how `substring` clamps an index. */
  function Clamp(i: int, len: nat): (r: nat)
    ensures r <= len
    ensures 0 <= i <= len ==> r == i
  {
    if i < 0 then 0 else if i > len then len else i
  }

  /** JavaScript `s.substring(start, end)`: both indices are clamped into
      `[0, |s|]` and swapped when out of order. */
  function Substring(s: string, start: int, end: int): (r: string)
    ensures |r| <= |s|
    ensures 0 <= start <= end <= |s| ==> r == s[start..end]
    ensures start <= 0 ==> r == s[..Clamp(end, |s|)]
    ensures end <= 0 ==> r == s[..Clamp(start, |s|)]
  {
    var a := Clamp(start, |s|);
    var b := Clamp(end, |s|);
    if a <= b then s[a..b] else s[b..a]
  }

  /** The parent id stratify is given for a record:
      `id.substring(0, id.lastIndexOf(delimiter))`.  An id without the
      delimiter gets the parent id "", which marks a root candidate. */
  function ParentId(id: string, d: char): (p: string)
    ensures p <= id
    ensures |id| > 0 ==> |p| < |id|
    ensures d !in id ==> p == ""
    ensures d in id ==> |p| < |id| && id[|p|] == d && d !in id[|p| + 1..]
  {
    var k := LastIndexOf(id, d);
    var p := Substring(id, 0, k);
    assert k >= 0 ==> p == id[..k];
    assert d in id ==> id[k + 1..] == id[|p| + 1..];
    p
  }

  /** JavaScript `s.split(d)` for a one-character separator: the maximal
      pieces between occurrences of `d`, always at least one (possibly empty). */
  function Split(s: string, d: char): (parts: seq<string>)
    ensures |parts| >= 1
    ensures forall i :: 0 <= i < |parts| ==> d !in parts[i]
    decreases |s|
  {
    var i := IndexOf(s, d);
    if i < 0 then [s]
    else
      assert d !in s[..i] by {
        forall j | 0 <= j < i ensures s[..i][j] != d { }
      }
      [s[..i]] + Split(s[i + 1..], d)
  }

  /** `parts.join(d)`: the pieces glued together with the separator. */
  function Join(parts: seq<string>, d: char): (s: string)
    requires |parts| >= 1
  {
    if |parts| == 1 then parts[0] else parts[0] + [d] + Join(parts[1..], d)
  }

  /** `extractLabel`: the last piece of `id.split(delimiter)`. */
  function ExtractLabel(id: string, d: char): (tail: string)
    ensures d !in tail
  {
    var parts := Split(id, d);
    parts[|parts| - 1]
  }

  /** Joining the pieces of a split gives back the original string. */
  lemma {:induction false} JoinSplit(s: string, d: char)
    ensures Join(Split(s, d), d) == s
    decreases |s|
  {
    var i := IndexOf(s, d);
    if i >= 0 {
      var rest := s[i + 1..];
      assert Split(s, d) == [s[..i]] + Split(rest, d);
      JoinCons(s[..i], Split(rest, d), d);
      JoinSplit(rest, d);
      Around(s, i);
    }
  }

  lemma JoinCons(a: string, pieces: seq<string>, d: char)
    requires |pieces| >= 1
    ensures Join([a] + pieces, d) == a + [d] + Join(pieces, d)
  {
    assert ([a] + pieces)[1..] == pieces;
  }

  /** A sequence is what comes before position `i`, the element there, and what follows. */
  lemma Around<T>(s: seq<T>, i: nat)
    requires i < |s|
    ensures s == s[..i] + [s[i]] + s[i + 1..]
  {
  }

  /** Splitting delimiter-free pieces joined by the delimiter gives back the pieces. */
  lemma {:induction false} SplitJoin(parts: seq<string>, d: char)
    requires |parts| >= 1
    requires forall i :: 0 <= i < |parts| ==> d !in parts[i]
    ensures Split(Join(parts, d), d) == parts
    decreases |parts|
  {
    if |parts| > 1 {
      var s := Join(parts, d);
      var rest := Join(parts[1..], d);
      assert s == parts[0] + [d] + rest;
      IndexOfAfterFree(parts[0], d, rest);
      assert s[..|parts[0]|] == parts[0];
      assert s[|parts[0]| + 1..] == rest;
      SplitJoin(parts[1..], d);
    } else {
      assert IndexOf(parts[0], d) == -1;
    }
  }

  /** The first delimiter of `a + [d] + b` is the one after `a` when `a` has none. */
  lemma {:induction false} IndexOfAfterFree(a: string, d: char, b: string)
    requires d !in a
    ensures IndexOf(a + [d] + b, d) == |a|
    decreases |a|
  {
    if |a| > 0 {
      assert (a + [d] + b)[1..] == a[1..] + [d] + b;
      IndexOfAfterFree(a[1..], d, b);
    }
  }

  /** The three facts LastIndexOf promises determine its result. */
  lemma LastIndexOfUnique(s: string, c: char, k: int)
    requires -1 <= k < |s|
    requires k >= 0 ==> s[k] == c
    requires forall j :: k < j < |s| ==> s[j] != c
    ensures LastIndexOf(s, c) == k
  {
  }

  /** Past a delimiter at `i`, the last delimiter is found in the remainder
      (or is the one at `i` itself). */
  lemma LastIndexOfPast(s: string, c: char, i: int)
    requires 0 <= i < |s| && s[i] == c
    ensures LastIndexOf(s, c) == i + 1 + LastIndexOf(s[i + 1..], c)
  {
    var rest := s[i + 1..];
    var k' := LastIndexOf(rest, c);
    var k := i + 1 + k';
    if k' >= 0 {
      assert s[k] == rest[k'];
    }
    forall j | k < j < |s| ensures s[j] != c {
      assert s[j] == rest[j - i - 1];
    }
    LastIndexOfUnique(s, c, k);
  }

  /** The label is the part of the id after its last delimiter (the whole id
      when there is none). */
  lemma {:induction false} LabelAfterLastDelimiter(id: string, d: char)
    ensures ExtractLabel(id, d) == id[LastIndexOf(id, d) + 1..]
    decreases |id|
  {
    var i := IndexOf(id, d);
    if i < 0 {
      assert Split(id, d) == [id];
      LastIndexOfUnique(id, d, -1);
      assert id[0..] == id;
    } else {
      var rest := id[i + 1..];
      assert ExtractLabel(id, d) == ExtractLabel(rest, d) by { LabelOfRest(id, d, i); }
      assert LastIndexOf(id, d) == i + 1 + LastIndexOf(rest, d) by { LastIndexOfPast(id, d, i); }
      LabelAfterLastDelimiter(rest, d);
      var k' := LastIndexOf(rest, d);
      assert id[i + 1 + k' + 1..] == rest[k' + 1..];
    }
  }

  /** Past the first delimiter, the label is that of the remainder. */
  lemma LabelOfRest(id: string, d: char, i: int)
    requires i == IndexOf(id, d) && i >= 0
    ensures ExtractLabel(id, d) == ExtractLabel(id[i + 1..], d)
  {
    var tailParts := Split(id[i + 1..], d);
    assert Split(id, d) == [id[..i]] + tailParts;
  }

  /** The label is a suffix of the id, hence contained in it; without a
      delimiter it is the whole id. */
  lemma LabelIsSuffix(id: string, d: char)
    ensures var tail := ExtractLabel(id, d);
            |tail| <= |id| && id[|id| - |tail|..] == tail
    ensures d !in id ==> ExtractLabel(id, d) == id
  {
    LabelAfterLastDelimiter(id, d);
  }

  /** For an id containing the delimiter: parent id, delimiter and label
      reassemble the id, and the label holds no delimiter. */
  lemma Reassemble(id: string, d: char)
    requires d in id
    ensures ParentId(id, d) + [d] + ExtractLabel(id, d) == id
    ensures d !in ExtractLabel(id, d)
  {
    LabelAfterLastDelimiter(id, d);
    var k := LastIndexOf(id, d);
    assert ParentId(id, d) == id[..k];
    assert id == id[..k] + [d] + id[k + 1..];
  }
}
