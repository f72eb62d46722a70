/**
 * The neighbourhood extractor, `build_filtered_graph` (tnbc_clean1.py:80-114):
 * the rows that touch the selected entity in its role, their one-hop
 * expansion, the cap, and the graph built from the rows that remain.
 */
module Extract {
  import opened Sequences
  import opened Sampling
  import opened Triplets
  import opened Graph

  /** The "Explore by" choice. */
  datatype FilterType = ByClinicalTrial | ByDrug | ByCondition | ByOutcome

  /** The sidebar selection: nothing chosen, or the chosen string (which may be the sentinel "All"). */
  datatype Selection = Unselected | Selected(name: string)

  /** The "All" view, or nothing selected (line 83). */
  predicate IsOverview(selected: Selection) {
    selected.Unselected? || selected.name == "All"
  }

  /** The most rows the overview draws (line 85). */
  const OverviewLimit: nat := 1000

  function Min(a: nat, b: nat): nat {
    if a <= b then a else b
  }

  /** A row is direct when the entity is its source (trials, drugs) or its target (conditions, outcomes). */
  predicate InRole(row: Row, entity: string, filterType: FilterType)
    ensures InRole(row, entity, filterType) ==> row.source == entity || row.target == entity
  {
    match filterType
    case ByClinicalTrial => row.source == entity
    case ByDrug => row.source == entity
    case ByCondition => row.target == entity
    case ByOutcome => row.target == entity
  }

  /** `direct_df` (lines 90-97): the direct rows, in table order. */
  function DirectRows(df: seq<Row>, entity: string, filterType: FilterType): (r: seq<Row>)
    ensures |r| <= |df|
    ensures forall row :: row in r <==> row in df && InRole(row, entity, filterType)
  {
    if |df| == 0 then []
    else
      var init := DirectRows(df[..|df| - 1], entity, filterType);
      var last := df[|df| - 1];
      assert df == df[..|df| - 1] + [last];
      if InRole(last, entity, filterType) then init + [last] else init
  }

  /** `connected_entities` (line 100): every endpoint of a direct row. */
  function ConnectedEntities(direct: seq<Row>): set<string> {
    Endpoints(direct)
  }

  /** `connected_df` (lines 101-104): the rows with at least one endpoint in `entities`, in table order. */
  function ConnectedRows(df: seq<Row>, entities: set<string>): (r: seq<Row>)
    ensures |r| <= |df|
    ensures forall row :: row in r <==> row in df && (row.source in entities || row.target in entities)
  {
    if |df| == 0 then []
    else
      var init := ConnectedRows(df[..|df| - 1], entities);
      var last := df[|df| - 1];
      assert df == df[..|df| - 1] + [last];
      if last.source in entities || last.target in entities then init + [last] else init
  }

  /** `combined_df` before the cap (line 107): direct rows, then connected rows, without repeats. */
  function CombinedRows(df: seq<Row>, entity: string, filterType: FilterType): (r: seq<Row>)
    ensures Distinct(r)
  {
    var direct := DirectRows(df, entity, filterType);
    DedupSpec(direct + ConnectedRows(df, ConnectedEntities(direct)));
    Dedup(direct + ConnectedRows(df, ConnectedEntities(direct)))
  }

  /** The rows whose edges end up in the graph, in the order they are added (lines 83-112). */
  function GraphRows(df: seq<Row>, selected: Selection, filterType: FilterType, maxNodes: nat, draws: seq<nat>): (r: seq<Row>)
    ensures IsOverview(selected) ==> |r| == Min(|df|, OverviewLimit)
    ensures !IsOverview(selected) ==> |r| <= maxNodes
  {
    if IsOverview(selected) then
      Sample(df, Min(|df|, OverviewLimit), draws)
    else
      var combined := CombinedRows(df, selected.name, filterType);
      if |combined| > maxNodes then Sample(combined, maxNodes, draws) else combined
  }

  /**
   * `build_filtered_graph(selected, filter_type, max_nodes)`, with the random
   * generator given as `draws`. The body computes the rows step by step as
   * the source does; the steps unfold `GraphRows`, which the contract names.
   */
  method BuildFilteredGraph(df: seq<Row>, selected: Selection, filterType: FilterType, maxNodes: nat, draws: seq<nat>)
    returns (g: DiGraph)
    ensures fresh(g) && g.Valid()
    ensures g.nodes == Endpoints(GraphRows(df, selected, filterType, maxNodes, draws))
    ensures g.edges == EdgeMap(GraphRows(df, selected, filterType, maxNodes, draws))
  {
    var rows: seq<Row>;
    if IsOverview(selected) {
      rows := Sample(df, Min(|df|, OverviewLimit), draws);
    } else {
      var direct := DirectRows(df, selected.name, filterType);
      var entities := ConnectedEntities(direct);
      var connected := ConnectedRows(df, entities);
      rows := Dedup(direct + connected);
      if |rows| > maxNodes {
        rows := Sample(rows, maxNodes, draws);
      }
    }
    g := new DiGraph();
    AddRowEdges(g, rows);
  }

  /** The `for _, row in ...iterrows(): G.add_edge(...)` loop (lines 86-87 and 111-112), on a fresh graph. */
  method AddRowEdges(g: DiGraph, rows: seq<Row>)
    requires g.Valid() && g.nodes == {} && g.edges == map[]
    modifies g
    ensures g.Valid()
    ensures g.nodes == Endpoints(rows) && g.edges == EdgeMap(rows)
  {
    for i := 0 to |rows|
      invariant g.Valid()
      invariant g.nodes == Endpoints(rows[..i])
      invariant g.edges == EdgeMap(rows[..i])
    {
      PrefixStep(rows, i);
      g.AddEdge(rows[i].source, rows[i].target, rows[i].relation);
    }
    assert rows[..|rows|] == rows;
  }

  /** One more row extends the nodes by its endpoints and sets its pair's relation. */
  lemma PrefixStep(rows: seq<Row>, i: nat)
    requires i < |rows|
    ensures Endpoints(rows[..i + 1]) == Endpoints(rows[..i]) + {rows[i].source, rows[i].target}
    ensures EdgeMap(rows[..i + 1]) == EdgeMap(rows[..i])[PairOf(rows[i]) := rows[i].relation]
  {
    assert rows[..i + 1][..i] == rows[..i];
  }

  /** An entity with no row in its role yields no connections, no rows and an empty graph. */
  lemma {:induction false} NoDirectRowsEmptyGraph(df: seq<Row>, entity: string, filterType: FilterType, maxNodes: nat, draws: seq<nat>)
    requires entity != "All"
    requires forall i :: 0 <= i < |df| ==> !InRole(df[i], entity, filterType)
    ensures DirectRows(df, entity, filterType) == []
    ensures ConnectedEntities(DirectRows(df, entity, filterType)) == {}
    ensures ConnectedRows(df, {}) == []
    ensures CombinedRows(df, entity, filterType) == []
    ensures GraphRows(df, Selected(entity), filterType, maxNodes, draws) == []
    ensures Endpoints(GraphRows(df, Selected(entity), filterType, maxNodes, draws)) == {}
    ensures EdgeMap(GraphRows(df, Selected(entity), filterType, maxNodes, draws)) == map[]
  {
    EmptyIffNoMembers(DirectRows(df, entity, filterType));
    EmptyIffNoMembers(ConnectedRows(df, {}));
  }

  /** An empty table (the fallback when the file is missing) gives an empty graph in every view. */
  lemma EmptyTableEmptyGraph(selected: Selection, filterType: FilterType, maxNodes: nat, draws: seq<nat>)
    ensures GraphRows([], selected, filterType, maxNodes, draws) == []
    ensures Endpoints(GraphRows([], selected, filterType, maxNodes, draws)) == {}
    ensures EdgeMap(GraphRows([], selected, filterType, maxNodes, draws)) == map[]
  {
    if !IsOverview(selected) {
      NoDirectRowsEmptyGraph([], selected.name, filterType, maxNodes, draws);
    }
  }

  /** Every direct row touches the connected set, so it is one of the connected rows too. */
  lemma DirectRowsAreConnected(df: seq<Row>, entity: string, filterType: FilterType)
    ensures forall row :: row in DirectRows(df, entity, filterType) ==>
      row.source in ConnectedEntities(DirectRows(df, entity, filterType)) &&
      row.target in ConnectedEntities(DirectRows(df, entity, filterType)) &&
      row in ConnectedRows(df, ConnectedEntities(DirectRows(df, entity, filterType)))
  {
    var direct := DirectRows(df, entity, filterType);
    forall row | row in direct
      ensures row.source in Endpoints(direct) && row.target in Endpoints(direct)
    {
      var i :| 0 <= i < |direct| && direct[i] == row;
    }
  }

  /** The combined rows are the same rows as the connected rows: every direct row is connected already. */
  lemma CombinedSameRowsAsConnected(df: seq<Row>, entity: string, filterType: FilterType)
    ensures forall row :: row in CombinedRows(df, entity, filterType) <==>
      row in ConnectedRows(df, ConnectedEntities(DirectRows(df, entity, filterType)))
  {
    var direct := DirectRows(df, entity, filterType);
    var connected := ConnectedRows(df, ConnectedEntities(direct));
    CombinedRowsSpec(df, entity, filterType);
    DirectRowsAreConnected(df, entity, filterType);
    forall row | row in connected ensures row in direct + connected {
      var i :| 0 <= i < |connected| && connected[i] == row;
      assert (direct + connected)[|direct| + i] == row;
    }
  }

  /**
   * The combined rows are the connected rows without repeats: the same rows,
   * each once, though direct rows come first and so the order may differ.
   */
  lemma CombinedIsDedupConnected(df: seq<Row>, entity: string, filterType: FilterType)
    ensures Distinct(CombinedRows(df, entity, filterType))
    ensures forall row :: row in CombinedRows(df, entity, filterType) <==>
      row in ConnectedRows(df, ConnectedEntities(DirectRows(df, entity, filterType)))
    ensures multiset(CombinedRows(df, entity, filterType)) ==
      multiset(Dedup(ConnectedRows(df, ConnectedEntities(DirectRows(df, entity, filterType)))))
  {
    var connected := ConnectedRows(df, ConnectedEntities(DirectRows(df, entity, filterType)));
    CombinedRowsSpec(df, entity, filterType);
    CombinedSameRowsAsConnected(df, entity, filterType);
    DedupSpec(connected);
    SameElementsPermutation(CombinedRows(df, entity, filterType), Dedup(connected));
  }

  /** Under the cap nothing is dropped: the graph gets every combined row, so every direct row's pair is an edge. */
  lemma UncappedKeepsDirectEdges(df: seq<Row>, entity: string, filterType: FilterType, maxNodes: nat, draws: seq<nat>)
    requires entity != "All"
    requires |CombinedRows(df, entity, filterType)| <= maxNodes
    ensures GraphRows(df, Selected(entity), filterType, maxNodes, draws) == CombinedRows(df, entity, filterType)
    ensures forall row :: row in DirectRows(df, entity, filterType) ==>
      PairOf(row) in EdgeMap(GraphRows(df, Selected(entity), filterType, maxNodes, draws)) &&
      row.source in Endpoints(GraphRows(df, Selected(entity), filterType, maxNodes, draws)) &&
      row.target in Endpoints(GraphRows(df, Selected(entity), filterType, maxNodes, draws))
  {
    var combined := CombinedRows(df, entity, filterType);
    var direct := DirectRows(df, entity, filterType);
    DirectInCombined(df, entity, filterType);
    EdgeMapKeys(combined);
    forall row | row in direct
      ensures PairOf(row) in EdgeMap(combined) && row.source in Endpoints(combined) && row.target in Endpoints(combined)
    {
      var k :| 0 <= k < |combined| && combined[k] == row;
    }
  }

  /** The combined rows have no repeats, and they are exactly the rows of the two frames concatenated. */
  lemma CombinedRowsSpec(df: seq<Row>, entity: string, filterType: FilterType)
    ensures Distinct(CombinedRows(df, entity, filterType))
    ensures forall row :: row in CombinedRows(df, entity, filterType) <==>
      row in DirectRows(df, entity, filterType) + ConnectedRows(df, ConnectedEntities(DirectRows(df, entity, filterType)))
  {
    var direct := DirectRows(df, entity, filterType);
    DedupSpec(direct + ConnectedRows(df, ConnectedEntities(direct)));
  }

  /** No direct row is lost when the two frames are concatenated and de-duplicated. */
  lemma DirectInCombined(df: seq<Row>, entity: string, filterType: FilterType)
    ensures forall row :: row in DirectRows(df, entity, filterType) ==> row in CombinedRows(df, entity, filterType)
  {
    var direct := DirectRows(df, entity, filterType);
    var cat := direct + ConnectedRows(df, ConnectedEntities(direct));
    CombinedRowsSpec(df, entity, filterType);
    forall row | row in direct ensures row in cat {
      var i :| 0 <= i < |direct| && direct[i] == row;
      assert cat[i] == row;
    }
  }

  /** Over the cap, exactly `maxNodes` distinct combined rows are used, so there are at most that many edges. */
  lemma CappedSample(df: seq<Row>, entity: string, filterType: FilterType, maxNodes: nat, draws: seq<nat>)
    requires entity != "All"
    requires |CombinedRows(df, entity, filterType)| > maxNodes
    ensures |GraphRows(df, Selected(entity), filterType, maxNodes, draws)| == maxNodes
    ensures Distinct(GraphRows(df, Selected(entity), filterType, maxNodes, draws))
    ensures forall row :: row in GraphRows(df, Selected(entity), filterType, maxNodes, draws) ==>
      row in CombinedRows(df, entity, filterType)
    ensures |EdgeMap(GraphRows(df, Selected(entity), filterType, maxNodes, draws))| <= maxNodes
  {
    var combined := CombinedRows(df, entity, filterType);
    var used := GraphRows(df, Selected(entity), filterType, maxNodes, draws);
    CombinedRowsSpec(df, entity, filterType);
    SampleOfDistinct(combined, maxNodes, draws);
    forall row | row in used ensures row in combined {
      var i :| 0 <= i < |used| && used[i] == row;
    }
  }

  /** Over the cap, any duplicate-free choice of `maxNodes` combined rows, in any order, is a possible outcome. */
  lemma CappedSampleAnyChoice(df: seq<Row>, entity: string, filterType: FilterType, maxNodes: nat, choice: seq<Row>)
    returns (draws: seq<nat>)
    requires entity != "All"
    requires |CombinedRows(df, entity, filterType)| > maxNodes
    requires |choice| == maxNodes && Distinct(choice)
    requires forall i :: 0 <= i < |choice| ==> choice[i] in CombinedRows(df, entity, filterType)
    ensures GraphRows(df, Selected(entity), filterType, maxNodes, draws) == choice
  {
    var combined := CombinedRows(df, entity, filterType);
    CombinedRowsSpec(df, entity, filterType);
    DistinctCounts(choice);
    DistinctCounts(combined);
    forall x ensures multiset(choice)[x] <= multiset(combined)[x] {
      if x in choice {
        var i :| 0 <= i < |choice| && choice[i] == x;
      }
    }
    draws := SampleComplete(combined, choice);
  }

  /** The overview uses `min(|df|, 1000)` rows of the table, each row at most as often as it occurs there. */
  lemma OverviewSample(df: seq<Row>, selected: Selection, filterType: FilterType, maxNodes: nat, draws: seq<nat>)
    requires IsOverview(selected)
    ensures |GraphRows(df, selected, filterType, maxNodes, draws)| == Min(|df|, OverviewLimit)
    ensures multiset(GraphRows(df, selected, filterType, maxNodes, draws)) <= multiset(df)
    ensures |EdgeMap(GraphRows(df, selected, filterType, maxNodes, draws))| <= OverviewLimit
  {
    SampleFromPool(df, Min(|df|, OverviewLimit), draws);
  }

  /** Any arrangement of `min(|df|, 1000)` rows drawn without replacement from the table is a possible overview. */
  lemma OverviewAnyChoice(df: seq<Row>, selected: Selection, filterType: FilterType, maxNodes: nat, choice: seq<Row>)
    returns (draws: seq<nat>)
    requires IsOverview(selected)
    requires |choice| == Min(|df|, OverviewLimit) && multiset(choice) <= multiset(df)
    ensures GraphRows(df, selected, filterType, maxNodes, draws) == choice
  {
    draws := SampleComplete(df, choice);
  }

  /**
   * A three-row table: two trials treat a drug, and the drug has a condition.
   * Exploring from the drug one might expect only the row where it is the
   * source; the one-hop expansion also brings back the rows where it is the
   * target.
   */
  function ExampleTable(): seq<Row> {
    [Row("NCT001", "treats", "DrugA", []),
     Row("DrugA", "has_condition", "CancerX", []),
     Row("NCT002", "treats", "DrugA", [])]
  }

  /** Exploring from the drug: its only direct row is the one where it is the source. */
  lemma ExampleDirect()
    ensures DirectRows(ExampleTable(), "DrugA", ByDrug) == [ExampleTable()[1]]
    ensures ConnectedEntities([ExampleTable()[1]]) == {"DrugA", "CancerX"}
  {
    var df := ExampleTable();
    assert df[..2] == [df[0], df[1]] && [df[0], df[1]][..1] == [df[0]];
    assert DirectRows([df[0]], "DrugA", ByDrug) == [];
    assert DirectRows([df[0], df[1]], "DrugA", ByDrug) == [df[1]];
  }

  /** The one-hop expansion brings back every row touching the drug, including the two trials that treat it. */
  lemma ExampleConnected()
    ensures ConnectedRows(ExampleTable(), {"DrugA", "CancerX"}) == ExampleTable()
  {
    var df := ExampleTable();
    assert df[..2] == [df[0], df[1]] && [df[0], df[1]][..1] == [df[0]];
  }

  lemma ExampleRowsDistinct()
    ensures ExampleTable()[0] != ExampleTable()[1]
    ensures ExampleTable()[0] != ExampleTable()[2]
    ensures ExampleTable()[1] != ExampleTable()[2]
  {
    assert "NCT001"[5] != "NCT002"[5];
  }

  lemma DedupOfFour(a: Row, b: Row, c: Row)
    requires a != b && a != c && b != c
    ensures Dedup([b, a, b, c]) == [b, a, c]
  {
    var s2 := [b, a];
    var s3 := s2 + [b];
    var s4 := s3 + [c];
    assert Dedup(s2) == s2 by { DedupOfDistinct(s2); }
    assert Dedup(s3) == s2 by { DedupSnoc(s2, b); }
    assert Dedup(s4) == s2 + [c] by {
      assert c !in s3;
      DedupSnoc(s3, c);
    }
    assert s4 == [b, a, b, c] && s2 + [c] == [b, a, c];
  }

  /** Before de-duplication: the direct row, then all three connected rows. */
  lemma ExampleConcat()
    ensures var df := ExampleTable();
      var direct := DirectRows(df, "DrugA", ByDrug);
      direct + ConnectedRows(df, ConnectedEntities(direct)) == [df[1], df[0], df[1], df[2]]
  {
    var df := ExampleTable();
    ExampleDirect();
    ExampleConnected();
    var direct := DirectRows(df, "DrugA", ByDrug);
    assert direct == [df[1]];
    assert ConnectedRows(df, ConnectedEntities(direct)) == df;
    assert [df[1]] + df == [df[1], df[0], df[1], df[2]];
  }

  /** Direct row first, then the rest of the expansion, without the repeated direct row. */
  lemma ExampleCombined(draws: seq<nat>)
    ensures var df := ExampleTable();
      && CombinedRows(df, "DrugA", ByDrug) == [df[1], df[0], df[2]]
      && GraphRows(df, Selected("DrugA"), ByDrug, 500, draws) == [df[1], df[0], df[2]]
  {
    var df := ExampleTable();
    ExampleConcat();
    ExampleRowsDistinct();
    DedupOfFour(df[0], df[1], df[2]);
    assert CombinedRows(df, "DrugA", ByDrug) == [df[1], df[0], df[2]];
  }

  /** Four nodes and three edges, one per row: not the two nodes and one edge that keeping only the drug's own row would give. */
  lemma ExampleGraph()
    ensures var df := ExampleTable();
      && Endpoints([df[1], df[0], df[2]]) == {"NCT001", "DrugA", "CancerX", "NCT002"}
      && |EdgeMap([df[1], df[0], df[2]])| == 3
  {
    var df := ExampleTable();
    var a, b, c := df[0], df[1], df[2];
    var used := [b, a, c];
    assert used[..2] == [b, a] && [b, a][..1] == [b] && [b][..0] == [];
    assert Endpoints([b]) == {"DrugA", "CancerX"};
    assert Endpoints([b, a]) == {"DrugA", "CancerX", "NCT001"};
    assert EdgeMap([b]) == map[PairOf(b) := b.relation];
    assert EdgeMap([b, a]) == map[PairOf(b) := b.relation, PairOf(a) := a.relation];
    assert PairOf(a) != PairOf(b) && PairOf(a) != PairOf(c) && PairOf(b) != PairOf(c) by {
      assert "NCT001"[5] != "NCT002"[5];
    }
    assert EdgeMap(used).Keys == {PairOf(b), PairOf(a), PairOf(c)};
  }
}
