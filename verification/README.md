# Dendrogram data model

A Dafny model of the data logic of the `Dendrogram` chart class. The chart
turns a flat list of `{id, value}` records into a radial tree. Each id is a
path whose segments are separated by a one-character delimiter (`|` by
default).

The model covers the following parts of the class:

- **Path arithmetic.**
  - The parent id handed to stratify is `id.substring(0, id.lastIndexOf(delimiter))`.
  - The display label is the last piece of `id.split(delimiter)`.
  - Both are total functions on strings. JavaScript's `-1` from `lastIndexOf` and the index clamping of `substring` are written out (module `Paths`).
- **`get data`.**
  - An absent or empty source gives `null`.
  - Otherwise the records are stratified into a tree, the children are sorted by lower-cased id, values are summed bottom-up, the children are sorted again, and the hierarchy is handed to the layout (module `Dendrogram`).
  - Stratify is d3's linking loop, in module `Stratification`. Each record goes under the record whose id equals its derived parent id exactly. A record whose parent id is `""` is a root candidate. A second root candidate, a parent id that no record carries, a parent id that several records carry, or no root candidate at all make it throw (`Thrown`). As in d3, records may repeat an id as long as no record names that id as its parent.
  - The `sort` comparator is ordinal comparison of ASCII-lower-cased ids (module `Ordering`). `node.sort` is a stable insertion sort of every node's children (module `Sorting`).
  - `node.sum` sets each node's aggregate to its own value plus its children's aggregates (module `Summing`).
- **`get layout`.**
  - The radial extent is `width * 0.3`.
  - The separation rule is `(sameParent ? 1 : 2) / depth`. A depth of 0 gives JavaScript's `Infinity`, modelled as the `Infinite` spacing.

The tree is the datatype `Node(id, own, total, children)`. `Flatten` lists
the records a tree holds, and the main results are stated against it:

- stratify succeeds exactly on well-formed input;
- the tree it builds holds every input record exactly once, so there is no cycle and nothing is dropped;
- every child sits under the record its parent id names;
- the second sort changes nothing;
- the root's aggregate is the sum of all values.

Module `Ancestry` proves that following parent ids strictly shortens the id. That is why linking terminates and why no cycle can arise.

Width, height and the delimiter are parameters. Their defaults are 600, 600
and `'|'`, read from environment variables in `src/configuration.js:3-10`.

## Model

| member | source | states |
|---|---|---|
| Paths.LastIndexOf | src/visualization/index.js:38 | the result is -1 exactly when the character is absent; otherwise it is a position of the character with no occurrence after it |
| Paths.Substring | src/visualization/index.js:38 | `substring` with in-range, ordered indices is the slice between them; a start at or below 0 gives the prefix up to the clamped end, so `substring(0, -1)` is ""; an end at or below 0 gives the prefix up to the clamped start, because the indices are swapped |
| Paths.ParentId | src/visualization/index.js:38 | the parent id is a prefix of the id, strictly shorter for a non-empty id, and "" when the id has no delimiter (the clamped `substring(0, -1)`); otherwise it is followed in the id by the delimiter, and no delimiter occurs after that one |
| Paths.Split | src/visualization/index.js:74 | `split` gives at least one piece, and no piece contains the delimiter |
| Paths.JoinSplit | src/visualization/index.js:74 | joining the pieces of a split with the delimiter gives back the id |
| Paths.SplitJoin | src/visualization/index.js:74 | splitting delimiter-free pieces joined by the delimiter gives back the pieces |
| Paths.ExtractLabel | src/visualization/index.js:73-75 | the label never contains the delimiter |
| Paths.LabelAfterLastDelimiter | src/visualization/index.js:74 | the label is exactly the part of the id after its last delimiter, or the whole id when there is none |
| Paths.LabelIsSuffix | src/visualization/index.js:74 | the label is a suffix of the id, so the id contains it, and is the whole id when the id has no delimiter |
| Paths.Reassemble | src/visualization/index.js:38 | for an id containing the delimiter, parent id, delimiter and label concatenate to the id |
| Ordering.Lower | src/visualization/index.js:42 | `toLowerCase` keeps the length and maps each character through the ASCII lower-casing |
| Ordering.Precedes | src/visualization/index.js:42 | the comparator allows ids equal up to case in either order, and when it refuses one order it allows the other |
| Ordering.PrecedesTotalPreorder | src/visualization/index.js:42 | the comparator on lower-cased ids is reflexive, total and transitive, and it ties exactly when the lower-cased ids are equal |
| Ancestry.UnderShorter | src/visualization/index.js:38 | following parent ids never gets longer and only stays the same length at the id itself, so there are no ancestry cycles |
| Ancestry.UnderTransitive | src/visualization/index.js:38 | the ancestor relation induced by parent ids is transitive |
| Ancestry.UnderLinear | src/visualization/index.js:38 | the ancestors of one id form a chain |
| Ancestry.SiblingsExclusive | src/visualization/index.js:37-38 | two ids with the same parent id that are both ancestors of one id are the same id |
| Ancestry.StepBelow | src/visualization/index.js:37-38 | below a proper ancestor there is an id whose parent id is that ancestor and that is itself an ancestor of the descendant |
| Stratification.ChildrenOf | src/visualization/index.js:37-41 | a record is linked under `p` exactly when it is an input record whose derived parent id equals `p`, a non-empty id |
| Stratification.LinkScan | src/visualization/index.js:37-41 | a root index reported by the linking loop is an input position whose parent id is "" |
| Stratification.Stratify | src/visualization/index.js:37-41 | a tree that stratify returns is rooted at an input record whose parent id is "" |
| StratifyFacts.LinkScanSpec | src/visualization/index.js:37-41 | the linking loop succeeds exactly when every parent id resolves to one record and at most one root candidate is seen, and it reports a root exactly when one was seen |
| StratifyFacts.StratifySucceedsIff | src/visualization/index.js:37-41 | stratify returns a tree exactly when there is exactly one root candidate and every parent id that a record names is carried by exactly one record; ids nobody names as a parent may repeat |
| StratifyFacts.BuildNodeLinked | src/visualization/index.js:37-41 | in a built subtree every child's derived parent id is its parent's id, at every level |
| StratifyFacts.StratifyTree | src/visualization/index.js:37-41 | a returned tree is rooted at a root candidate, links every child under the record its parent id names, and holds every input record exactly once |
| Sorting.Insert | src/visualization/index.js:42 | insertion adds exactly the one node and keeps a sorted sibling list sorted |
| Sorting.SortNodes | src/visualization/index.js:42 | the sorted siblings are a permutation of the input and are in comparator order |
| Sorting.SortTree | src/visualization/index.js:41-42 | `node.sort` keeps the root's id and values, its children are exactly the recursively sorted children in some order, every node's children end up sorted, and the tree keeps exactly the same records |
| Sorting.SortNodesKeepsSorted | src/visualization/index.js:47 | sorting an already sorted sibling list changes nothing |
| Sorting.SortTreeKeepsSorted | src/visualization/index.js:47 | sorting a tree whose children are sorted at every node changes nothing |
| Sorting.SortTreeLinked | src/visualization/index.js:41-42 | sorting keeps every child under the record its parent id names |
| Summing.SumTree | src/visualization/index.js:46 | after `sum` every aggregate is the node's own value plus its children's aggregates, and nothing but the aggregates changed |
| Summing.SummedTotal | src/visualization/index.js:46 | a summed node's aggregate is the sum of the values of all records in its subtree |
| Summing.StripLinked | src/visualization/index.js:46 | summing, which changes only aggregates, keeps the linking |
| Summing.StripSorted | src/visualization/index.js:46-47 | summing, which changes only aggregates, keeps the sibling order |
| Summing.SecondSortIsNoOp | src/visualization/index.js:42-47 | the sort after `sum` returns its input unchanged, because the first sort already ordered the ids and summing altered none |
| Dendrogram.Layout | src/visualization/index.js:62-64 | the radial extent is three tenths of the width, so for a non-negative width it lies between 0 and the width, strictly for a positive one |
| Dendrogram.LayoutProportional | src/visualization/index.js:64 | the radial extent is proportional to the width and grows with it, and charts of equal width get the same layout whatever their height or data |
| Dendrogram.Data | src/visualization/index.js:29-56 | `null` exactly for an absent or empty source; a throw exactly when the records are not well formed (not exactly one root candidate, or a named parent id carried by no record or by several); otherwise the hierarchy handed to the layout is rooted at a root candidate, holds every record exactly once, is linked, sorted and summed at every node, and its root aggregate is the sum of all values |
| Dendrogram.PipelineFacts | src/visualization/index.js:41-47 | sort, sum and sort keep the root id, the records and the linking, and leave every node sorted and summed |
| Dendrogram.ChildIdSpelledOut | src/visualization/index.js:38-74 | in a linked tree a child's id is the parent's id, the delimiter and the child's label |
| Dendrogram.Separation | src/visualization/index.js:65 | the spacing is infinite exactly at depth 0; otherwise it is positive, and multiplied by the depth it gives 1 for siblings and 2 for cousins |
| Dendrogram.SiblingsHalfAsFar | src/visualization/index.js:65 | at any depth of at least 1, siblings are placed exactly half as far apart as non-siblings |
| Dendrogram.SeparationShrinksWithDepth | src/visualization/index.js:65 | deeper neighbours are placed strictly closer together |
| Scenarios.TestParents | tests/dendrogram_test.js:6 | the first test record (path "some", then "path") has parent id "some", and the second, "some", is a root candidate |
| Scenarios.TestStratify | tests/dendrogram_test.js:6 | the test data stratifies to the root "some" with the first test record as its single, childless child |
| Scenarios.TestPipeline | tests/dendrogram_test.js:6 | on the test tree, sort, sum and sort give the root aggregate 4 and the leaf aggregate 1 |
| Scenarios.TestLabel | tests/dendrogram_test.js:53-56 | the label of the first test record is "path" |
| Scenarios.MissingParentScenario | src/visualization/index.js:29-41 | `get data` on a lone record with path "a", then "b" throws for the missing parent "a" |
| Scenarios.RepeatedLeafScenario | src/visualization/index.js:37-41 | two leaves with the same id (path "a", then "b") are both kept, in input order, under "a" |
| Scenarios.AmbiguousParentScenario | src/visualization/index.js:37-41 | an id carried by two records and named as a parent makes stratify throw `Ambiguous` |
| Scenarios.DelimiterScenario | src/visualization/index.js:38 | linking is delimiter-exact: the path "ab", then "c" has parent "ab", not "a"; the path "a", then "b" has parent "a" under the default delimiter and is a root candidate under `/` |

## Left out

- `render` (`src/visualization/index.js:81-138`): SVG and DOM construction, CSS classes and mouse handlers are presentation only.
- `mouseOverIds`: `src/utilities.js` is not part of this model.
- The x/y coordinates that d3's `tree()` computes: this is a floating-point Reingold–Tilford layout inside the library. Only the radial extent and the separation rule are kept, and the angular extent `2 * Math.PI` is not represented.
- `height` does not take part in `get data` or `get layout`. It is carried in `Chart` only.
- Environment variables in `src/configuration.js`: width, height and delimiter are parameters instead.
- Multi-character delimiters: the model takes a single `char`, because `split` and `lastIndexOf` disagree on overlapping matches of longer delimiters.
- `localeCompare` and Unicode `toLowerCase`: the comparator is ordinal order on ASCII-lower-cased ids, a total preorder like the locale order, but not the same order on every input.
- d3's separate cycle error is not modelled as an error: `StratifyFacts.StratifyTree` proves that every record ends up in the tree exactly once, so it cannot arise.
- Sorting.SortNodes: stability (equal lower-cased ids keep their input order) is built into `Insert` but not stated as a lemma. Only the permutation and the order are stated.
- The code does not reject an empty label: an id ending in the delimiter gets the empty label, and the model does the same.
- The full `get data` result on the test data is proved in stages (`Scenarios.TestStratify`, `Scenarios.TestPipeline`, `Scenarios.TestLabel`) rather than as one equation about `Dendrogram.Data`.
- Numbers: record values are JavaScript floating-point numbers, modelled as unbounded integers, and width and spacing are exact reals. d3's `sum` reads `+value || 0`, so a missing or non-numeric value counts as 0; the model takes every value as a number. `Summing.SummedTotal` and the total stated by `Dendrogram.Data` are exact here, whereas floating-point addition can round.
