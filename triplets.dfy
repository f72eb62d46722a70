/**
 * The triplet store: one row per `(source, relation, target)` fact, and the
 * column-name normalisation `load_data` applies to the table it reads
 * (tnbc_clean1.py:28-30).
 */
module Triplets {
  import opened Text

  /**
   * One row of the loaded table. `others` holds the cells of any further
   * columns: they play no part in the graph, but `drop_duplicates()` compares
   * whole rows, so they are kept.
   */
  datatype Row = Row(source: string, relation: string, target: string, others: seq<string>)

  function LowerAll(columns: seq<string>): (r: seq<string>)
    ensures |r| == |columns|
    ensures forall i :: 0 <= i < |r| ==> r[i] == Lower(columns[i])
  {
    seq(|columns|, i requires 0 <= i < |columns| => Lower(columns[i]))
  }

  /** `DataFrame.rename(columns={from: to})`: every column called `from` is renamed `to`. */
  function Rename(columns: seq<string>, from: string, to: string): (r: seq<string>)
    ensures |r| == |columns|
    ensures forall i :: 0 <= i < |r| ==> r[i] == if columns[i] == from then to else columns[i]
    ensures from in columns ==> to in r
    ensures from != to ==> from !in r
  {
    seq(|columns|, i requires 0 <= i < |columns| => if columns[i] == from then to else columns[i])
  }

  /** True when lower-casing the header leaves no `relation` column but an `edge` one. */
  predicate NeedsRename(columns: seq<string>) {
    "relation" !in LowerAll(columns) && "edge" in LowerAll(columns)
  }

  /** The header after `load_data`: lower-cased, then `edge` renamed to `relation` if `relation` is absent. */
  function NormalizeColumns(columns: seq<string>): (r: seq<string>)
    ensures |r| == |columns|
    ensures forall i :: 0 <= i < |r| ==> IsLowerCase(r[i])
    ensures NeedsRename(columns) ==> "relation" in r && "edge" !in r
    ensures forall i :: 0 <= i < |r| ==>
      r[i] == Lower(columns[i]) || (NeedsRename(columns) && Lower(columns[i]) == "edge" && r[i] == "relation")
    ensures !NeedsRename(columns) ==> r == LowerAll(columns)
  {
    var lowered := LowerAll(columns);
    forall i | 0 <= i < |lowered| ensures IsLowerCase(lowered[i]) {
      LowerIsLowerCase(columns[i]);
    }
    if NeedsRename(columns) then
      assert "edge" != "relation" by { assert "edge"[0] != "relation"[0]; }
      Rename(lowered, "edge", "relation")
    else
      lowered
  }

  /** After normalisation there is a `relation` column exactly when the header had `relation` or `edge`, in any case. */
  lemma RelationColumnPresent(columns: seq<string>)
    ensures "relation" in NormalizeColumns(columns) <==>
      ("relation" in LowerAll(columns) || "edge" in LowerAll(columns))
  {
    var r, lowered := NormalizeColumns(columns), LowerAll(columns);
    if "relation" in lowered && !NeedsRename(columns) {
      assert r == lowered;
    }
    if "relation" in r && !NeedsRename(columns) {
      assert r == lowered;
    }
  }

  /** Normalising a normalised header changes nothing. */
  lemma NormalizeIdempotent(columns: seq<string>)
    ensures NormalizeColumns(NormalizeColumns(columns)) == NormalizeColumns(columns)
  {
    var r := NormalizeColumns(columns);
    forall i | 0 <= i < |r| ensures Lower(r[i]) == r[i] {
      LowerIsLowerCase(r[i]);
    }
    assert LowerAll(r) == r;
    RelationColumnPresent(columns);
  }
}
