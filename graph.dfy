/**
 * The directed graph `build_filtered_graph` fills (networkx `DiGraph`): a
 * node set and at most one edge per ordered pair, carrying a `relation`
 * attribute that a later `add_edge` on the same pair overwrites
 * (tnbc_clean1.py:81, 87, 112).
 */
module Graph {
  import opened Triplets

  type Pair = (string, string)

  function PairOf(row: Row): Pair {
    (row.source, row.target)
  }

  /** Every source and target of `rows`: the nodes, and the `connected_entities` set of line 100. */
  function Endpoints(rows: seq<Row>): (r: set<string>)
    ensures forall e :: e in r <==> exists i :: 0 <= i < |rows| && (rows[i].source == e || rows[i].target == e)
  {
    if |rows| == 0 then {}
    else
      var init := rows[..|rows| - 1];
      assert forall i :: 0 <= i < |init| ==> init[i] == rows[i];
      Endpoints(init) + {rows[|rows| - 1].source, rows[|rows| - 1].target}
  }

  /**
   * The edge map after calling `add_edge` on every row of `rows` in order,
   * starting from no edges. Rows that share a pair make one edge, so there
   * are never more edges than rows.
   */
  function EdgeMap(rows: seq<Row>): (r: map<Pair, string>)
    ensures |r| <= |rows|
  {
    if |rows| == 0 then map[]
    else
      var last := rows[|rows| - 1];
      EdgeMap(rows[..|rows| - 1])[PairOf(last) := last.relation]
  }

  class DiGraph {
    var nodes: set<string>
    var edges: map<Pair, string>

    /** Every edge joins two nodes. */
    ghost predicate Valid()
      reads this
    {
      forall p :: p in edges ==> p.0 in nodes && p.1 in nodes
    }

    /** `nx.DiGraph()`: no nodes, no edges. */
    constructor ()
      ensures Valid() && nodes == {} && edges == map[]
    {
      nodes := {};
      edges := map[];
    }

    /** `G.add_edge(u, v, relation=r)`: adds missing endpoints and sets the pair's relation. */
    method AddEdge(u: string, v: string, relation: string)
      requires Valid()
      modifies this
      ensures Valid()
      ensures nodes == old(nodes) + {u, v}
      ensures edges == old(edges)[(u, v) := relation]
    {
      nodes := nodes + {u, v};
      edges := edges[(u, v) := relation];
    }

    function NumberOfNodes(): (n: nat)
      reads this
      ensures n == |nodes|
    {
      |nodes|
    }

    function NumberOfEdges(): (n: nat)
      reads this
      ensures n == |edges|
    {
      |edges|
    }
  }

  /** The edges are exactly the ordered pairs of the rows: one edge per pair, however many rows share it. */
  lemma {:induction false} EdgeMapKeys(rows: seq<Row>)
    ensures forall p :: p in EdgeMap(rows) <==> exists i :: 0 <= i < |rows| && PairOf(rows[i]) == p
  {
    if |rows| > 0 {
      var init := rows[..|rows| - 1];
      EdgeMapKeys(init);
      assert forall i :: 0 <= i < |init| ==> init[i] == rows[i];
    }
  }

  /** An edge carries the relation of the last row with its pair. */
  lemma {:induction false} EdgeMapLastWins(rows: seq<Row>, k: nat)
    requires k < |rows|
    requires forall j :: k < j < |rows| ==> PairOf(rows[j]) != PairOf(rows[k])
    ensures PairOf(rows[k]) in EdgeMap(rows)
    ensures EdgeMap(rows)[PairOf(rows[k])] == rows[k].relation
  {
    if k < |rows| - 1 {
      var init := rows[..|rows| - 1];
      assert forall j :: k < j < |init| ==> init[j] == rows[j];
      EdgeMapLastWins(init, k);
    }
  }

  /** There are never more than two nodes per row added. */
  lemma {:induction false} EndpointsSize(rows: seq<Row>)
    ensures |Endpoints(rows)| <= 2 * |rows|
  {
    if |rows| > 0 {
      var init := rows[..|rows| - 1];
      var last := rows[|rows| - 1];
      EndpointsSize(init);
      assert |{last.source, last.target}| <= 2;
    }
  }

  /** Every edge built from `rows` joins two of their endpoints. */
  lemma EdgesJoinEndpoints(rows: seq<Row>)
    ensures forall p :: p in EdgeMap(rows) ==> p.0 in Endpoints(rows) && p.1 in Endpoints(rows)
  {
    EdgeMapKeys(rows);
  }
}
