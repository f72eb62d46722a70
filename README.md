# KG Genie clinical-trials explorer: a verified model of its core

KG Genie is a Streamlit dashboard over a table of `(source, relation, target)`
triplets: clinical trials, drugs, conditions and outcomes joined by labelled
relations. The user picks an entity. The dashboard collects the rows around
that entity, caps how many it keeps, builds a networkx `DiGraph`, colours each
node by category, and shows counts. This project models that core in Dafny
and proves properties of it. The core has five parts:

- **Column normalisation** (`Triplets`). The header is lower-cased. `edge` is
  renamed to `relation` only when no `relation` column exists.
- **Entity lists** (`Classify`). There are four sorted, duplicate-free lists:
  - trial sources, i.e. sources containing `NCT`;
  - drug sources, i.e. every other source;
  - condition targets;
  - outcome targets.

  The last two are targets of rows whose relation mentions the word, ignoring
  case.
- **Neighbourhood extraction** (`Extract`, with `Sequences`, `Sampling` and
  `Graph`). The steps are:
  - direct rows: the entity is the source (trial, drug) or the target
    (condition, outcome);
  - connected entities: every endpoint of a direct row;
  - connected rows: rows with either endpoint in that set;
  - the de-duplicated concatenation of direct and connected rows;
  - a random sample of `max_nodes` rows when there are more;
  - one `add_edge` per row, in order, on a `DiGraph`.

  The "All" view instead samples `min(|df|, 1000)` rows of the whole table.

  The graph is a node set plus a map from ordered pair to relation. A later
  `add_edge` on the same pair overwrites the relation.
- **Display category** (`Classify`). Categories are tried in a fixed order:
  trial marker, drug list, condition list, outcome list, otherwise "other".
  The result picks colour, size and group. The Plotly branch and the PyVis
  branch each spell this choice out, and they agree.
- **Statistics** (`Statistics`). These are node and edge counts, per-type node
  counts, and a tally of relation labels over the edges.

`df.sample(n)` is modelled by `Sampling.Sample`, whose randomness is a
`draws: seq<nat>` parameter. Each draw picks one of the rows still in the
pool. For any draws, the result holds exactly `n` rows taken without
replacement. Conversely, `SampleComplete` gives draws that yield any chosen
arrangement of `n` rows. So the model covers exactly the outcomes pandas can
produce.

The slider is labelled "Maximum nodes to display", but the cap limits
**rows**, and so edges (`Graph.EdgeMap`): rows that share an ordered pair make
one edge. `Graph.EndpointsSize` bounds the node count only by twice the cap.

Three behaviours of the code that a reader might expect to be otherwise:

- **The one-hop expansion reaches back.** Take rows `NCT001 treats DrugA`,
  `DrugA has_condition CancerX` and `NCT002 treats DrugA`, and explore from
  `DrugA` as a drug. Only one row has `DrugA` as its source, so one might
  expect one row, two nodes and one edge. But `DrugA` is itself a connected
  entity, so the expansion also keeps both rows where it is the *target*. The
  result is three rows, four nodes and three edges (`Extract.ExampleCombined`,
  `Extract.ExampleGraph`).
- **No parallel edges.** Rows with the same source and target are not kept as
  separate edges. The code builds a `DiGraph`: one edge per ordered pair,
  carrying the last row's relation (`Graph.EdgeMapLastWins`).
- **The counts are not a partition.** The "Node Types" rows need not add up
  to the node count. "Clinical Trials" and "Other" agree with the first-match
  display category (`Statistics.NodeTypes`). Drugs, Conditions and Outcomes
  are independent membership counts. A node on both the condition and the
  outcome list counts twice (`Statistics.NodeTypesNeedNotPartition`). With
  lists read from the rows `X has_condition Y` and `Y treats Z`, `Y` is both a
  drug and a condition (`Statistics.DrugAndConditionFromTable`).

## Model

| member | source | states |
|---|---|---|
| Text.LowerChar | tnbc_clean1.py:28 | an upper-case ASCII letter becomes its lower-case letter; any other character is left alone |
| Text.Lower | tnbc_clean1.py:28 | lower-casing keeps the length and lower-cases each character in place |
| Text.LowerIsLowerCase | tnbc_clean1.py:28 | lower-casing leaves no upper-case letter, and leaves a string unchanged exactly when it had none |
| Text.LowerIdempotent | tnbc_clean1.py:28 | lower-casing twice is lower-casing once |
| Text.Contains | tnbc_clean1.py:57 | `p in s`, defined by recursion; a pattern longer than the string never occurs, and the empty pattern always does (its positional meaning is `ContainsAt`) |
| Text.ContainsAt | tnbc_clean1.py:57 | the substring test used by `'NCT' in ...` and `str.contains` holds exactly when the pattern occurs at some position |
| Text.LowerKeepsOccurrence | tnbc_clean1.py:59-60 | an occurrence of the pattern survives lower-casing both strings |
| Text.ContainsIgnoreCase | tnbc_clean1.py:59-60 | `str.contains(word, case=False)`: every case-sensitive match is also a case-insensitive one, and the pattern is never longer than the string |
| Triplets.LowerAll | tnbc_clean1.py:28 | every column name is replaced by its lower-cased form, position by position |
| Triplets.Rename | tnbc_clean1.py:30 | every column with the old name gets the new one and the others are kept, so the new name is present whenever the old one was, and the old name is gone |
| Triplets.NormalizeColumns | tnbc_clean1.py:28-30 | all names lower-case; if `relation` was absent and `edge` present, `relation` is present and `edge` is gone; otherwise the names are only lower-cased |
| Triplets.RelationColumnPresent | tnbc_clean1.py:29-30 | after normalisation a `relation` column exists exactly when the header had `relation` or `edge`, in any case |
| Triplets.NormalizeIdempotent | tnbc_clean1.py:28-30 | normalising a normalised header changes nothing |
| Ordering.LessIrreflexive | tnbc_clean1.py:57-60 | no string sorts before itself |
| Ordering.LessTransitive | tnbc_clean1.py:57-60 | the string order used by `sorted` is transitive |
| Ordering.LessTotal | tnbc_clean1.py:57-60 | any two different strings are ordered one way or the other |
| Ordering.LessAsymmetric | tnbc_clean1.py:57-60 | two strings are never each before the other |
| Ordering.StrictlySortedDistinct | tnbc_clean1.py:57-60 | a strictly sorted list has no repeats |
| Ordering.HeadNotBelow | tnbc_clean1.py:57-60 | of two strictly sorted lists with the same elements, neither head is below the other |
| Ordering.Insert | tnbc_clean1.py:57-60 | inserting into a strictly sorted list keeps it strictly sorted and adds exactly the new element |
| Ordering.SortUnique | tnbc_clean1.py:57-60 | `sorted(x.unique())` is strictly sorted and has exactly the elements of x |
| Ordering.StrictlySortedUnique | tnbc_clean1.py:57-60 | two strictly sorted lists with the same elements are equal |
| Ordering.SortUniqueCanonical | tnbc_clean1.py:57-60 | SortUnique returns the one strictly sorted list of those elements |
| Classify.Select | tnbc_clean1.py:57-60 | `df[mask][column]` holds exactly the chosen cell of the rows the mask accepts |
| Classify.ClinicalTrials | tnbc_clean1.py:57 | sorted, no repeats, and holds exactly the sources containing `NCT` |
| Classify.Drugs | tnbc_clean1.py:58 | sorted, no repeats, and holds exactly the sources not containing `NCT` |
| Classify.TargetsMentioning | tnbc_clean1.py:59-60 | the shared shape of the condition and outcome lists: sorted, no repeats, and exactly the targets of rows whose relation contains the word, ignoring case |
| Classify.Conditions | tnbc_clean1.py:59 | sorted, no repeats, and holds exactly the targets of rows whose relation contains "condition", ignoring case |
| Classify.Outcomes | tnbc_clean1.py:60 | sorted, no repeats, and holds exactly the targets of rows whose relation contains "outcome", ignoring case |
| Classify.SourcesSplit | tnbc_clean1.py:57-58 | trials and drugs are disjoint, and together they hold exactly the distinct sources |
| Classify.ListsAreCanonical | tnbc_clean1.py:57-58 | any strictly sorted list of the trial (drug) sources is the computed list |
| Classify.CategoryOf | tnbc_clean1.py:144-158 | the node passes its category's test and fails the test of every category ranked before it |
| Classify.StylesDistinct | tnbc_clean1.py:144-158 | different categories never share a colour, a size or a group |
| Classify.Colour | tnbc_clean1.py:144-158 | definition of each category's colour, a lower-case `#rrggbb` string; distinct per category by `StylesDistinct` |
| Classify.Size | tnbc_clean1.py:144-158 | definition of each category's size: between 15 and 25, with drugs exactly the largest and "other" exactly the smallest |
| Classify.Group | tnbc_clean1.py:200-210 | definition of each category's PyVis group, a non-empty snake-case name; distinct per category by `StylesDistinct` |
| Classify.PlotlyMarker | tnbc_clean1.py:144-158 | the Plotly colour and size of a node are those of its first-match category |
| Classify.PyVisNode | tnbc_clean1.py:200-210 | the PyVis node has the node as id and title, and the colour, size and group of its first-match category |
| Classify.BackendsAgree | tnbc_clean1.py:200-210 | Plotly and PyVis give every node the same colour and size |
| Sequences.DistinctCounts | tnbc_clean1.py:107 | a sequence has no repeats exactly when no element occurs twice in its multiset |
| Sequences.Dedup | tnbc_clean1.py:107 | `drop_duplicates()` never lengthens its input |
| Sequences.DedupSpec | tnbc_clean1.py:107 | `drop_duplicates()` has no repeats and holds exactly the elements of its input |
| Sequences.DedupSnoc | tnbc_clean1.py:107 | a further row is kept exactly when no earlier row equals it |
| Sequences.DedupOfDistinct | tnbc_clean1.py:107 | a duplicate-free sequence is left as it is |
| Sequences.SameElementsPermutation | tnbc_clean1.py:107 | two duplicate-free sequences with the same elements are permutations of each other |
| Sampling.RemoveAt | tnbc_clean1.py:109 | taking one row out of the pool leaves one row fewer |
| Sampling.RemoveAtBag | tnbc_clean1.py:109 | taking one row out of the pool removes exactly that one occurrence |
| Sampling.Pick | tnbc_clean1.py:109 | a draw selects a position inside the pool, and any in-range draw selects that position |
| Sampling.Sample | tnbc_clean1.py:85 | exactly n rows, whatever the draws |
| Sampling.SampleFromPool | tnbc_clean1.py:85 | whatever the draws, the rows are drawn without replacement: a sub-multiset of the pool |
| Sampling.ConsFromPool | tnbc_clean1.py:85 | one drawn row followed by rows drawn from what is left stays inside the pool |
| Sampling.SampleComplete | tnbc_clean1.py:109 | every arrangement of n rows drawn without replacement is the result of some draws |
| Sampling.SampleCompleteCons | tnbc_clean1.py:109 | the same for a non-empty arrangement: draw its first row, then the rest from what remains |
| Sampling.DrawFor | tnbc_clean1.py:109 | the first chosen row sits at some pool position, and the rest of the choice fits in what remains |
| Sampling.SampleStep | tnbc_clean1.py:109 | one draw followed by draws for the rest reproduces the whole choice |
| Sampling.SampleUnfold | tnbc_clean1.py:109 | a first draw of position j puts that row first and samples the rest from the remaining rows |
| Sampling.SampleOfDistinct | tnbc_clean1.py:109 | a sample of duplicate-free rows is duplicate-free and drawn from them |
| Graph.Endpoints | tnbc_clean1.py:100 | holds exactly the sources and targets of the rows |
| Graph.EdgeMap | tnbc_clean1.py:111-112 | definition of the edges after the `add_edge` loop (also lines 86-87); never more edges than rows, with keys in `EdgeMapKeys` and values in `EdgeMapLastWins` |
| Graph.DiGraph.constructor | tnbc_clean1.py:81 | a new graph has no nodes and no edges |
| Graph.DiGraph.AddEdge | tnbc_clean1.py:87 | adds both endpoints as nodes and sets the pair's relation, overwriting one already there |
| Graph.EdgeMapKeys | tnbc_clean1.py:111-112 | the edges are exactly the ordered pairs of the rows added, one per pair |
| Graph.EdgeMapLastWins | tnbc_clean1.py:111-112 | an edge carries the relation of the last row added with its pair |
| Graph.EndpointsSize | tnbc_clean1.py:108-112 | there are never more than twice as many nodes as rows, so the "maximum nodes" cap bounds nodes only by twice its value |
| Graph.EdgesJoinEndpoints | tnbc_clean1.py:111-112 | every edge joins two nodes of the graph |
| Extract.DirectRows | tnbc_clean1.py:89-97 | holds exactly the table rows where the entity plays its filter's role (source for trials and drugs, target for conditions and outcomes) |
| Extract.ConnectedRows | tnbc_clean1.py:101-104 | holds exactly the table rows with an endpoint in the connected set |
| Extract.InRole | tnbc_clean1.py:90-97 | definition of a direct row for each filter type; a direct row always has the entity as an endpoint |
| Extract.CombinedRows | tnbc_clean1.py:107 | definition of `combined_df` before the cap; it has no repeats, and its rows are given by `CombinedRowsSpec` |
| Extract.GraphRows | tnbc_clean1.py:83-109 | definition of the rows the graph is built from; the overview uses exactly min(rows, 1000) rows, and an entity view never more than max_nodes |
| Extract.BuildFilteredGraph | tnbc_clean1.py:80-114 | the graph is valid, its nodes are exactly the endpoints of the rows used, and its edges are those rows' pairs with last-wins relations |
| Extract.AddRowEdges | tnbc_clean1.py:111-112 | adding the rows in order to an empty graph yields exactly their endpoints as nodes and their edge map |
| Extract.PrefixStep | tnbc_clean1.py:111-112 | one more row adds its endpoints and sets its pair's relation |
| Extract.NoDirectRowsEmptyGraph | tnbc_clean1.py:90-112 | with no row in the entity's role, the connected set, the connected rows, the combined rows and the graph are all empty |
| Extract.EmptyTableEmptyGraph | tnbc_clean1.py:116-119 | an empty table gives an empty graph in every view |
| Extract.DirectRowsAreConnected | tnbc_clean1.py:100-104 | every endpoint of a direct row is connected, so every direct row is a connected row |
| Extract.CombinedRowsSpec | tnbc_clean1.py:107 | the combined rows have no repeats and hold exactly the rows of the direct and connected frames |
| Extract.DirectInCombined | tnbc_clean1.py:107 | no direct row is lost by de-duplication |
| Extract.CombinedSameRowsAsConnected | tnbc_clean1.py:100-107 | the combined rows are exactly the connected rows, since every direct row is connected |
| Extract.CombinedIsDedupConnected | tnbc_clean1.py:107 | the combined rows have no repeats and are the connected rows with duplicates removed, up to order |
| Extract.UncappedKeepsDirectEdges | tnbc_clean1.py:107-112 | under the cap no row is dropped, and every direct row's pair is an edge and its endpoints are nodes |
| Extract.CappedSample | tnbc_clean1.py:108-109 | over the cap exactly max_nodes distinct combined rows are used, so there are at most max_nodes edges |
| Extract.CappedSampleAnyChoice | tnbc_clean1.py:108-109 | over the cap any duplicate-free choice of max_nodes combined rows, in any order, can be the rows used |
| Extract.OverviewSample | tnbc_clean1.py:83-87 | the "All" view uses exactly min(rows, 1000) rows of the table, without replacement, so at most 1000 edges |
| Extract.OverviewAnyChoice | tnbc_clean1.py:85 | any arrangement of min(rows, 1000) table rows drawn without replacement can be the overview |
| Extract.ExampleDirect | tnbc_clean1.py:92-93 | in the worked example the drug's only direct row is the one where it is the source |
| Extract.ExampleConnected | tnbc_clean1.py:101-104 | in the worked example the one-hop expansion brings back all three rows |
| Extract.ExampleRowsDistinct | tnbc_clean1.py:107 | the three example rows are pairwise different |
| Extract.DedupOfFour | tnbc_clean1.py:107 | de-duplicating direct-then-connected keeps the first occurrence of the direct row |
| Extract.ExampleConcat | tnbc_clean1.py:107 | in the worked example the concatenation before de-duplication is the direct row then all three table rows |
| Extract.ExampleCombined | tnbc_clean1.py:107 | in the worked example the combined and used rows are the direct row followed by the two trial rows |
| Extract.ExampleGraph | tnbc_clean1.py:111-112 | in the worked example the graph has four nodes and three edges |
| Statistics.MatchedNodes | tnbc_clean1.py:249 | the nodes passing any category test are the union of the four per-category node sets |
| Statistics.CategoryNodeSets | tnbc_clean1.py:245-249 | the nodes displayed as trials are those containing `NCT`, and those displayed as other are those failing all four tests |
| Statistics.NodeTypes | tnbc_clean1.py:244-250 | "Clinical Trials" counts exactly the nodes displayed as trials, and "Other" exactly the nodes displayed as other |
| Statistics.NodeTypesCoverNodes | tnbc_clean1.py:244-250 | the five rows together count every node at least once |
| Statistics.TrialsAndDrugsDisjoint | tnbc_clean1.py:245-246 | no node counts as both trial and drug, so those two counts sum to at most the node count |
| Statistics.NodeTypesNeedNotPartition | tnbc_clean1.py:244-250 | a node that is both a condition and an outcome is counted twice: the rows need not sum to the node count |
| Statistics.HasConditionMentionsCondition | tnbc_clean1.py:59 | the relation `has_condition` passes the case-insensitive "condition" test |
| Statistics.OverlapTableLists | tnbc_clean1.py:58-59 | in the table `X has_condition Y`, `Y treats Z`, `Y` is on both the drug list and the condition list |
| Statistics.SingleNodeCounts | tnbc_clean1.py:246-247 | a lone node on the drug (condition) list is counted once in the "Drugs" ("Conditions") row |
| Statistics.DrugAndConditionFromTable | tnbc_clean1.py:246-247 | with lists read from that table, `Y` counts both as a drug and as a condition |
| Statistics.RelationTally | tnbc_clean1.py:255 | the tally has one entry per relation label on the edges, each at least 1 |
| Statistics.SumValuesRemove | tnbc_clean1.py:255 | summing the tally does not depend on the order of its labels |
| Statistics.TallyWithoutEdge | tnbc_clean1.py:255 | removing one edge lowers its label's count by one and leaves the other counts |
| Statistics.SumAfterDecrement | tnbc_clean1.py:255 | lowering a count by one lowers the tally's sum by one |
| Statistics.TallySumsToEdgeCount | tnbc_clean1.py:255 | the relation tally sums to the number of edges |
| Statistics.GraphStatistics | tnbc_clean1.py:232-255 | no statistics when the graph has no nodes; otherwise the "Nodes" and "Edges" metrics are the node and edge counts of the rows used, the "Node Types" table is `NodeTypes` of those nodes, the relation table gives each label the number of edges carrying it and sums to the edge count, and the cap bounds edges by max_nodes (1000 in the overview) and nodes by twice that |

## Left out

- The Streamlit page, sidebar, tabs, metrics widgets, warnings and `st.cache_data` (lines 14-20, 39-77, 122-281) are UI and framework state. The sidebar's choices enter the model as parameters: `Selection`, `FilterType` and `maxNodes`.
- Reading the CSV and the `FileNotFoundError` fallback (lines 26, 32-34) are file I/O. Only the column-name step is modelled. The empty-table fallback appears only as `Extract.EmptyTableEmptyGraph`.
- Rows are given as `Row` values with named fields. A table without `source`, `relation` or `target` columns raises a pandas `KeyError`; that case is not modelled. Cells are non-null strings, so pandas' NaN handling (`na=False`) does not arise.
- Random number generation behind `df.sample` is replaced by the `draws` parameter. Its distribution (uniformity) is not modelled.
- `nx.spring_layout`, the Plotly traces and coordinates (lines 127-192), the PyVis `Network` and its temporary HTML file (lines 197-224), and image export (lines 262-274) are floating-point layout and foreign libraries or I/O. Only each node's colour, size and group is modelled.
- The order of `G.nodes()` and `G.edges()` (networkx insertion order) is not kept: nodes are a set and edges a map. It only decides the order of the rendered lists and of the relation table's rows.
- Text.LowerIsLowerCase: Python's `str.lower` and pandas' `case=False` also fold non-ASCII letters; the model folds only `A`-`Z`, because Unicode case tables are out of scope.
- Text.ContainsAt: pandas' `str.contains` treats its pattern as a regular expression. The patterns used (`NCT`, `condition`, `outcome`) contain no metacharacters, so the literal substring test is equivalent for them; general regular expressions are not modelled.
