/**
 * Concrete inputs from the repository's tests and chosen edge cases, worked
 * through the model.
 */
module Scenarios {
  import opened Common
  import opened Paths
  import opened Tree
  import opened Stratification
  import opened Sorting
  import opened Summing
  import opened Dendrogram

  /** The test data `[{id: "some|path", value: 1}, {id: "some", value: 3}]`. */
  const TestData: seq<Record> := [Record("some|path", 1), Record("some", 3)]

  lemma TestParents()
    ensures ParentId("some|path", '|') == "some"
    ensures ParentId("some", '|') == ""
  {
  }

  lemma TestStratify()
    ensures Stratify(TestData, '|')
            == Success(Node("some", 3, 0, [Node("some|path", 1, 0, [])]))
  {
    var rs := TestData;
    TestParents();
    assert IdCount(rs, "some") == 1;
    assert LinkScan(rs, '|', 2, Some(1)) == Success(Some(1));
    assert LinkScan(rs, '|', 1, None) == Success(Some(1));
    assert LinkScan(rs, '|', 0, None) == Success(Some(1));
    assert ChildrenOf(rs, '|', "some|path") == [];
    assert ChildrenOf(rs, '|', "some") == [rs[0]];
    var leaf := BuildNode(rs, '|', rs[0]);
    assert leaf == Node("some|path", 1, 0, []);
    assert BuildForest(rs, '|', "some", [rs[0]]) == [leaf];
  }

  /** A leaf is already sorted. */
  lemma SortLeaf(t: Node)
    requires t.children == []
    ensures SortTree(t) == t
  {
  }

  /** A node with a single leaf child is already sorted. */
  lemma SortSingleChild(leaf: Node, root: Node)
    requires leaf.children == [] && root.children == [leaf]
    ensures SortTree(root) == root
  {
    SortLeaf(leaf);
    assert SortForest([leaf]) == [leaf];
    assert SortNodes([leaf]) == [leaf] by {
      assert [leaf][1..] == [];
    }
  }

  /** Summing a node with one leaf child adds the child's value. */
  lemma SumSingleLeaf(t: Node, leaf: Node)
    requires t.children == [leaf] && leaf.children == []
    ensures SumTree(t) == Node(t.id, t.own, t.own + leaf.own, [Node(leaf.id, leaf.own, leaf.own, [])])
  {
  }

  lemma SumTestTree()
    ensures SumTree(Node("some", 3, 0, [Node("some|path", 1, 0, [])]))
            == Node("some", 3, 4, [Node("some|path", 1, 1, [])])
  {
    SumSingleLeaf(Node("some", 3, 0, [Node("some|path", 1, 0, [])]), Node("some|path", 1, 0, []));
  }

  lemma TestPipeline()
    ensures var t := Node("some", 3, 0, [Node("some|path", 1, 0, [])]);
            SortTree(SumTree(SortTree(t))) == Node("some", 3, 4, [Node("some|path", 1, 1, [])])
  {
    var leaf := Node("some|path", 1, 0, []);
    var leaf' := Node("some|path", 1, 1, []);
    SortSingleChild(leaf, Node("some", 3, 0, [leaf]));
    SumTestTree();
    SortSingleChild(leaf', Node("some", 3, 4, [leaf']));
  }

  /** The label of "some|path" is "path", which the id contains. */
  lemma TestLabel()
    ensures ExtractLabel("some|path", '|') == "path"
  {
    LabelAfterLastDelimiter("some|path", '|');
    TestParents();
    assert LastIndexOf("some|path", '|') == 4;
  }

  /** A lone "a|b" names the parent "a", which no record carries. */
  lemma MissingParentScenario()
    ensures Data(Chart(Some([Record("a|b", 1)]), DefaultWidth, DefaultHeight), '|')
            == Thrown(Missing("a"))
  {
    LastIndexOfUnique("a|b", '|', 1);
    var rs := [Record("a|b", 1)];
    assert ParentId("a|b", '|') == "a";
    assert IdCount(rs, "a") == 0;
    assert LinkScan(rs, '|', 0, None) == Failure(Missing("a"));
  }

  /** Linking is by exact id, on delimiter boundaries, and the delimiter
      decides the ancestry: "ab|c" is not under "a"; "a|b" is under "a" with
      '|' and a root candidate with '/'. */
  lemma DelimiterScenario()
    ensures ParentId("ab|c", '|') == "ab" != "a"
    ensures ParentId("a|b", DefaultDelimiter) == "a"
    ensures ParentId("a|b", '/') == ""
  {
  }

  /** Two leaves may share an id: no record names it as a parent, so both
      are kept, in input order, under their common parent. */
  lemma RepeatedLeafScenario()
    ensures Stratify([Record("a", 1), Record("a|b", 1), Record("a|b", 2)], '|')
            == Success(Node("a", 1, 0, [Node("a|b", 1, 0, []), Node("a|b", 2, 0, [])]))
  {
    var rs := [Record("a", 1), Record("a|b", 1), Record("a|b", 2)];
    LastIndexOfUnique("a|b", '|', 1);
    assert ParentId("a|b", '|') == "a";
    assert ParentId("a", '|') == "";
    assert IdCount(rs, "a") == 1;
    assert LinkScan(rs, '|', 0, None) == Success(Some(0));
    assert ChildrenOf(rs, '|', "a|b") == [];
    assert ChildrenOf(rs, '|', "a") == [rs[1], rs[2]];
    assert BuildNode(rs, '|', rs[1]) == Node("a|b", 1, 0, []);
    assert BuildNode(rs, '|', rs[2]) == Node("a|b", 2, 0, []);
    assert BuildForest(rs, '|', "a", [rs[1], rs[2]]) == [Node("a|b", 1, 0, []), Node("a|b", 2, 0, [])];
  }

  /** A repeated id that some record names as its parent is ambiguous. */
  lemma AmbiguousParentScenario()
    ensures Stratify([Record("a", 0), Record("a|b", 1), Record("a|b", 2), Record("a|b|c", 3)], '|')
            == Failure(Ambiguous("a|b"))
  {
    var rs := [Record("a", 0), Record("a|b", 1), Record("a|b", 2), Record("a|b|c", 3)];
    LastIndexOfUnique("a|b", '|', 1);
    LastIndexOfUnique("a|b|c", '|', 3);
    assert ParentId("a|b|c", '|') == "a|b";
    assert ParentId("a|b", '|') == "a";
    assert ParentId("a", '|') == "";
    assert IdCount(rs, "a") == 1;
    assert IdCount(rs, "a|b") == 2;
    assert LinkScan(rs, '|', 0, None) == Failure(Ambiguous("a|b"));
  }
}
