/**
 * The `Dendrogram` chart's data logic: `get data` (null guard, stratify,
 * sort, sum, sort, layout) and the separation rule of `get layout`.
 */
module Dendrogram {
  import opened Common
  import opened Paths
  import opened Tree
  import opened Stratification
  import opened StratifyFacts
  import opened Sorting
  import opened Summing

  /** The artboard size used when none is given (configuration defaults). */
  const DefaultWidth: real := 600.0
  const DefaultHeight: real := 600.0

  /** A chart: the flat records (possibly absent) and the artboard size. */
  datatype Chart = Chart(dataSource: Option<seq<Record>>, width: real, height: real)

  /** The tree layout `get data` hands the hierarchy to: a full circle of
      angle and `radius` of radial extent, with the separation rule below. */
  datatype TreeLayout = TreeLayout(radius: real)

  /** What `get data` returns: `null`, the hierarchy given to the layout, or
      the error stratify throws. */
  datatype DataResult =
    | Null
    | Laid(root: Node, layout: TreeLayout)
    | Thrown(error: StratifyError)

  /** `get layout`: `tree().size([2 * Math.PI, this.width * 0.3])`. */
  function Layout(c: Chart): (l: TreeLayout)
    ensures l.radius * 10.0 == c.width * 3.0
    ensures c.width >= 0.0 ==> 0.0 <= l.radius <= c.width
    ensures c.width > 0.0 ==> 0.0 < l.radius < c.width
  {
    TreeLayout(c.width * 0.3)
  }

  /** The radial extent grows with the width, in proportion to it, and
      nothing else about the chart affects it. */
  lemma LayoutProportional(c1: Chart, c2: Chart)
    ensures Layout(c1).radius * c2.width == Layout(c2).radius * c1.width
    ensures c1.width <= c2.width ==> Layout(c1).radius <= Layout(c2).radius
    ensures c1.width == c2.width ==> Layout(c1) == Layout(c2)
  {
  }

  /** `get data`.  An absent or empty source gives `null` without building a
      layout.  Otherwise the records are stratified, sorted, summed, sorted
      again, and handed to the layout. */
  function Data(c: Chart, d: char): (r: DataResult)
    ensures r.Null? <==> c.dataSource.None? || |c.dataSource.value| == 0
    ensures r.Thrown? <==>
              c.dataSource.Some? && |c.dataSource.value| > 0 && !WellFormed(c.dataSource.value, d)
    ensures r.Laid? ==>
              var rs := c.dataSource.value;
              && r.layout == Layout(c)
              && ParentId(r.root.id, d) == ""
              && multiset(Flatten(r.root)) == multiset(rs)
              && Linked(r.root, d)
              && SortedEverywhere(r.root)
              && Summed(r.root)
              && r.root.total == SumValues(rs)
  {
    if c.dataSource.None? || |c.dataSource.value| == 0 then Null
    else
      var rs := c.dataSource.value;
      StratifySucceedsIff(rs, d);
      match Stratify(rs, d)
      case Failure(e) => Thrown(e)
      case Success(t) =>
        StratifyTree(rs, d);
        var nested := SortTree(t);
        var summed := SumTree(nested);
        var hierarchy := SortTree(summed);
        PipelineFacts(t, d);
        SummedTotal(hierarchy);
        SumValuesPermutation(Flatten(hierarchy), rs);
        Laid(hierarchy, Layout(c))
  }

  /** Sorting, summing and sorting again keep the records and their linking,
      leave every node sorted and every aggregate computed. */
  lemma PipelineFacts(t: Node, d: char)
    requires Linked(t, d)
    ensures var h := SortTree(SumTree(SortTree(t)));
            && h.id == t.id
            && multiset(Flatten(h)) == multiset(Flatten(t))
            && Linked(h, d)
            && SortedEverywhere(h)
            && Summed(h)
  {
    var nested := SortTree(t);
    var summed := SumTree(nested);
    SecondSortIsNoOp(t);
    SortTreeLinked(t, d);
    StripLinked(summed, nested, d);
    StripFlatten(summed);
    StripFlatten(nested);
  }

  /** In a linked tree, a child's id is its parent's id, the delimiter and
      the child's label. */
  lemma ChildIdSpelledOut(t: Node, d: char, i: nat)
    requires Linked(t, d) && t.id != ""
    requires i < |t.children|
    ensures t.children[i].id == t.id + [d] + ExtractLabel(t.children[i].id, d)
  {
    var c := t.children[i];
    assert ParentId(c.id, d) == t.id;
    Reassemble(c.id, d);
  }

  /** How far apart two neighbouring nodes are placed, in layout units:
      finite, or JavaScript's `Infinity` for a division by zero. */
  datatype Spacing = Finite(units: real) | Infinite

  /** The separation rule `(a.parent == b.parent ? 1 : 2) / a.depth`. */
  function Separation(sameParent: bool, depth: nat): (s: Spacing)
    ensures s.Infinite? <==> depth == 0
    ensures depth >= 1 ==> s.units > 0.0 && s.units * (depth as real) == (if sameParent then 1.0 else 2.0)
  {
    if depth == 0 then Infinite
    else Finite((if sameParent then 1.0 else 2.0) / (depth as real))
  }

  /** Siblings are placed exactly half as far apart as non-siblings at the same depth. */
  lemma SiblingsHalfAsFar(depth: nat)
    requires depth >= 1
    ensures Separation(true, depth).units * 2.0 == Separation(false, depth).units
  {
  }

  /** Deeper neighbours are placed closer together. */
  lemma SeparationShrinksWithDepth(sameParent: bool, shallow: nat, deep: nat)
    requires 1 <= shallow < deep
    ensures Separation(sameParent, deep).units < Separation(sameParent, shallow).units
  {
    var a := Separation(sameParent, shallow).units;
    var b := Separation(sameParent, deep).units;
    var s, t := shallow as real, deep as real;
    assert b * t == a * s;
    assert b == a * s / t;
    assert a - b == a * (t - s) / t;
    assert a * (t - s) > 0.0;
  }
}
