/**
 * The statistics tab (tnbc_clean1.py:239-255): node and edge counts, the
 * per-type node counts, and the tally of relation labels over the edges.
 */
module Statistics {
  import opened Classify
  import opened Graph
  import opened Extract

  /** The "Node Types" table. */
  datatype NodeTypeCounts = NodeTypeCounts(clinicalTrials: nat, drugs: nat, conditions: nat, outcomes: nat, other: nat)

  /** The test of the "Other" row (line 249): the node passes at least one of the four category tests. */
  predicate AnyCategory(node: string, lists: EntityLists) {
    IsTrialId(node) || node in lists.drugs || node in lists.conditions || node in lists.outcomes
  }

  function TrialNodes(nodes: set<string>): set<string> {
    set n | n in nodes && IsTrialId(n)
  }

  function NodesIn(nodes: set<string>, list: seq<string>): set<string> {
    set n | n in nodes && n in list
  }

  function MatchedNodes(nodes: set<string>, lists: EntityLists): (r: set<string>)
    ensures r <= nodes
    ensures r == TrialNodes(nodes) + NodesIn(nodes, lists.drugs) + NodesIn(nodes, lists.conditions) + NodesIn(nodes, lists.outcomes)
  {
    set n | n in nodes && AnyCategory(n, lists)
  }

  lemma SubsetSize(a: set<string>, b: set<string>)
    requires a <= b
    ensures |a| <= |b|
  {
    assert b == a + (b - a);
  }

  /**
   * Each category is counted by its own membership test, as the table does,
   * so a node can count under several; "Other" is what is left. "Other" is
   * then exactly the nodes whose display category is Other, and the
   * "Clinical Trials" row exactly those displayed as trials.
   */
  function NodeTypes(nodes: set<string>, lists: EntityLists): (c: NodeTypeCounts)
    ensures c.clinicalTrials == |set n | n in nodes && CategoryOf(n, lists) == ClinicalTrial|
    ensures c.other == |set n | n in nodes && CategoryOf(n, lists) == Other|
  {
    var matched := MatchedNodes(nodes, lists);
    CategoryNodeSets(nodes, lists);
    NodeTypeCounts(
      |TrialNodes(nodes)|,
      |NodesIn(nodes, lists.drugs)|,
      |NodesIn(nodes, lists.conditions)|,
      |NodesIn(nodes, lists.outcomes)|,
      |nodes| - |matched|)
  }

  /** The nodes displayed as trials, and those displayed as other, in terms of the table's own tests. */
  lemma CategoryNodeSets(nodes: set<string>, lists: EntityLists)
    ensures (set n | n in nodes && CategoryOf(n, lists) == ClinicalTrial) == TrialNodes(nodes)
    ensures (set n | n in nodes && CategoryOf(n, lists) == Other) == nodes - MatchedNodes(nodes, lists)
    ensures |nodes - MatchedNodes(nodes, lists)| == |nodes| - |MatchedNodes(nodes, lists)|
  {
    var matched := MatchedNodes(nodes, lists);
    assert nodes == matched + (nodes - matched);
  }

  /** Every node is counted at least once across the five rows. */
  lemma NodeTypesCoverNodes(nodes: set<string>, lists: EntityLists)
    ensures var c := NodeTypes(nodes, lists);
      c.clinicalTrials + c.drugs + c.conditions + c.outcomes + c.other >= |nodes|
  {
    var t, d, k, o := TrialNodes(nodes), NodesIn(nodes, lists.drugs), NodesIn(nodes, lists.conditions), NodesIn(nodes, lists.outcomes);
    var matched := MatchedNodes(nodes, lists);
    assert |t + d| <= |t| + |d|;
    assert |t + d + k| <= |t + d| + |k|;
    assert |t + d + k + o| <= |t + d + k| + |o|;
    SubsetSize(matched, nodes);
  }

  /** With the lists read from the table, no node counts both as a trial and as a drug. */
  lemma TrialsAndDrugsDisjoint(df: seq<Triplets.Row>, nodes: set<string>)
    ensures var lists := EntityListsOf(df);
      var c := NodeTypes(nodes, lists);
      && TrialNodes(nodes) !! NodesIn(nodes, lists.drugs)
      && c.clinicalTrials + c.drugs == |set n | n in nodes && (IsTrialId(n) || n in lists.drugs)|
      && c.clinicalTrials + c.drugs <= |nodes|
  {
    var lists := EntityListsOf(df);
    var t, d := TrialNodes(nodes), NodesIn(nodes, lists.drugs);
    assert t !! d;
    assert (set n | n in nodes && (IsTrialId(n) || n in lists.drugs)) == t + d;
    SubsetSize(t + d, nodes);
  }

  /** The four membership rows can overlap: here one node is both a condition and an outcome. */
  lemma NodeTypesNeedNotPartition()
    ensures var c := NodeTypes({"pCR"}, EntityLists([], [], ["pCR"], ["pCR"]));
      c.clinicalTrials + c.drugs + c.conditions + c.outcomes + c.other == 2
  {
    var nodes, lists := {"pCR"}, EntityLists([], [], ["pCR"], ["pCR"]);
    assert !IsTrialId("pCR") by {
      Text.ContainsAt("pCR", "NCT");
      assert "pCR"[0..3] == "pCR";
    }
    assert TrialNodes(nodes) == {};
    assert NodesIn(nodes, lists.drugs) == {};
    assert NodesIn(nodes, lists.conditions) == nodes;
    assert NodesIn(nodes, lists.outcomes) == nodes;
    assert MatchedNodes(nodes, lists) == nodes;
  }

  /** The relation `has_condition` passes the "condition" test of line 59. */
  lemma HasConditionMentionsCondition()
    ensures Text.ContainsIgnoreCase("has_condition", "condition")
  {
    var s, p := "has_condition", "condition";
    assert s[4..13] == p by {
      forall k | 0 <= k < 9 ensures s[4..13][k] == p[k] {
        assert s[4 + k] == p[k];
      }
    }
    assert Text.OccursAt(s, p, 4);
    Text.ContainsAt(s, p);
  }

  /** A table where one entity is both a drug and a condition: `X has_condition Y`, `Y treats Z`. */
  function OverlapTable(): seq<Triplets.Row> {
    [Triplets.Row("X", "has_condition", "Y", []), Triplets.Row("Y", "treats", "Z", [])]
  }

  /** `Y` is a source without the trial marker, and the target of a "condition" row. */
  lemma OverlapTableLists()
    ensures "Y" in Drugs(OverlapTable()) && "Y" in Conditions(OverlapTable())
  {
    var df := OverlapTable();
    assert !IsTrialId("Y");
    assert IsSource(df, "Y") by { assert df[1].source == "Y"; }
    HasConditionMentionsCondition();
    assert IsTargetOf(df, "condition", "Y") by { assert df[0].target == "Y"; }
  }

  /** With lists read from a table, a node can count both as a drug and as a condition. */
  lemma DrugAndConditionFromTable()
    ensures var lists := EntityListsOf(OverlapTable());
      var c := NodeTypes({"Y"}, lists);
      && "Y" in lists.drugs && "Y" in lists.conditions
      && c.drugs == 1 && c.conditions == 1
  {
    OverlapTableLists();
    SingleNodeCounts("Y", EntityListsOf(OverlapTable()));
  }

  /** A lone node on a list is counted once in that list's row. */
  lemma SingleNodeCounts(node: string, lists: EntityLists)
    ensures node in lists.drugs ==> NodeTypes({node}, lists).drugs == 1
    ensures node in lists.conditions ==> NodeTypes({node}, lists).conditions == 1
  {
    if node in lists.drugs {
      assert NodesIn({node}, lists.drugs) == {node};
    }
    if node in lists.conditions {
      assert NodesIn({node}, lists.conditions) == {node};
    }
  }

  /** The edges labelled `relation`. */
  function EdgesWith(edges: map<Pair, string>, relation: string): set<Pair> {
    set p | p in edges && edges[p] == relation
  }

  /** `Counter(d['relation'] for each edge)` (line 255): how many edges carry each label. */
  function RelationTally(edges: map<Pair, string>): (t: map<string, nat>)
    ensures t.Keys == edges.Values
    ensures forall r :: r in t ==> t[r] >= 1
  {
    forall r | r in edges.Values ensures |EdgesWith(edges, r)| >= 1 {
      var p :| p in edges && edges[p] == r;
      assert p in EdgesWith(edges, r);
    }
    map r | r in edges.Values :: |EdgesWith(edges, r)|
  }

  ghost function AnyKey(m: map<string, nat>): (k: string)
    requires |m| > 0
    ensures k in m
  {
    var k :| k in m; k
  }

  ghost function SumValues(m: map<string, nat>): nat
    decreases |m|
  {
    if |m| == 0 then 0
    else
      var k := AnyKey(m);
      m[k] + SumValues(m - {k})
  }

  /** The sum does not depend on which key is taken first. */
  lemma {:induction false} SumValuesRemove(m: map<string, nat>, k: string)
    requires k in m
    ensures SumValues(m) == m[k] + SumValues(m - {k})
    decreases |m|
  {
    var k' := AnyKey(m);
    if k' != k {
      var a, b := m - {k'}, m - {k};
      SumValuesRemove(a, k);
      SumValuesRemove(b, k');
      assert a - {k} == b - {k'};
    }
  }

  /** Dropping one edge lowers its label's count by one and leaves the other labels' counts alone. */
  lemma TallyWithoutEdge(edges: map<Pair, string>, p: Pair)
    requires p in edges
    ensures var t, t', r := RelationTally(edges), RelationTally(edges - {p}), edges[p];
      && r in t
      && t' - {r} == t - {r}
      && (t[r] == 1 ==> r !in t')
      && (t[r] > 1 ==> r in t' && t'[r] == t[r] - 1)
  {
    var r, rest := edges[p], edges - {p};
    var t, t' := RelationTally(edges), RelationTally(rest);
    assert r in edges.Values;
    assert EdgesWith(rest, r) == EdgesWith(edges, r) - {p};
    assert p in EdgesWith(edges, r);
    forall q | q != r ensures EdgesWith(rest, q) == EdgesWith(edges, q) {
    }
    forall q | q in t - {r} ensures q in t' {
      var p' :| p' in edges && edges[p'] == q;
      assert p' in rest;
    }
    assert t' - {r} == t - {r};
    if t[r] == 1 {
      assert EdgesWith(rest, r) == {};
    } else {
      var p' :| p' in EdgesWith(edges, r) - {p};
      assert p' in rest;
    }
  }

  /** The relation table accounts for every edge exactly once. */
  lemma {:induction false} TallySumsToEdgeCount(edges: map<Pair, string>)
    ensures SumValues(RelationTally(edges)) == |edges|
    decreases |edges|
  {
    if |edges| > 0 {
      var p :| p in edges;
      var r, rest := edges[p], edges - {p};
      TallySumsToEdgeCount(rest);
      TallyWithoutEdge(edges, p);
      SumAfterDecrement(RelationTally(edges), RelationTally(rest), r);
    }
  }

  /** Lowering one count by one, dropping it when it reaches zero, lowers the sum by one. */
  lemma SumAfterDecrement(t: map<string, nat>, t': map<string, nat>, r: string)
    requires r in t && t[r] >= 1 && t' - {r} == t - {r}
    requires t[r] == 1 ==> r !in t'
    requires t[r] > 1 ==> r in t' && t'[r] == t[r] - 1
    ensures SumValues(t) == SumValues(t') + 1
  {
    SumValuesRemove(t, r);
    if t[r] == 1 {
      assert t' == t - {r};
    } else {
      SumValuesRemove(t', r);
    }
  }

  /** What the statistics tab shows: nothing when the graph has no nodes (line 233), else its three columns. */
  datatype Summary = NoGraphData | Summary(nodes: nat, edges: nat, nodeTypes: NodeTypeCounts, relations: map<string, nat>)

  /**
   * The statistics tab (lines 232-255) for the graph `build_filtered_graph`
   * returns. The relation table accounts for every edge, and the cap bounds
   * the edge count, and the node count by twice as much.
   */
  method GraphStatistics(df: seq<Triplets.Row>, selected: Selection, filterType: FilterType, maxNodes: nat, draws: seq<nat>)
    returns (s: Summary)
    ensures var rows := GraphRows(df, selected, filterType, maxNodes, draws);
      s.NoGraphData? <==> Endpoints(rows) == {}
    ensures s.Summary? ==> var rows := GraphRows(df, selected, filterType, maxNodes, draws);
      && s.nodes == |Endpoints(rows)| && s.edges == |EdgeMap(rows)|
      && s.nodeTypes == NodeTypes(Endpoints(rows), EntityListsOf(df))
      && s.relations == RelationTally(EdgeMap(rows))
      && s.relations.Keys == EdgeMap(rows).Values
      && SumValues(s.relations) == s.edges
      && s.edges <= |rows| && s.nodes <= 2 * |rows|
    ensures s.Summary? && !IsOverview(selected) ==> s.edges <= maxNodes && s.nodes <= 2 * maxNodes
    ensures s.Summary? && IsOverview(selected) ==> s.edges <= OverviewLimit && s.nodes <= 2 * OverviewLimit
  {
    var g := BuildFilteredGraph(df, selected, filterType, maxNodes, draws);
    if g.nodes == {} {
      return NoGraphData;
    }
    EndpointsSize(GraphRows(df, selected, filterType, maxNodes, draws));
    TallySumsToEdgeCount(g.edges);
    s := Summary(g.NumberOfNodes(), g.NumberOfEdges(), NodeTypes(g.nodes, EntityListsOf(df)), RelationTally(g.edges));
  }
}
