/**
 * The entity classifier: the four sorted entity lists the sidebar offers
 * (tnbc_clean1.py:57-60) and the first-match display category that both
 * renderers give a node (tnbc_clean1.py:144-158 and 200-210).
 */
module Classify {
  import opened Text
  import opened Ordering
  import opened Triplets

  /** The marker that identifies a clinical-trial identifier, matched case-sensitively anywhere in the string. */
  const TrialMarker: string := "NCT"

  predicate IsTrialId(entity: string) {
    Contains(entity, TrialMarker)
  }

  /** Some row has `entity` as its source. */
  predicate IsSource(df: seq<Row>, entity: string) {
    exists i :: 0 <= i < |df| && df[i].source == entity
  }

  /** Some row whose relation contains `word`, ignoring case, has `entity` as its target. */
  predicate IsTargetOf(df: seq<Row>, word: string, entity: string) {
    exists i :: 0 <= i < |df| && df[i].target == entity && ContainsIgnoreCase(df[i].relation, word)
  }

  /** `df[mask][column]`: the `pick` cell of every row that `keep` accepts, in row order. */
  function Select(df: seq<Row>, keep: Row -> bool, pick: Row -> string): (r: seq<string>)
    ensures forall e :: e in r <==> exists i :: 0 <= i < |df| && keep(df[i]) && pick(df[i]) == e
  {
    if |df| == 0 then []
    else
      var init := Select(df[..|df| - 1], keep, pick);
      var last := df[|df| - 1];
      assert forall i :: 0 <= i < |df| - 1 ==> df[..|df| - 1][i] == df[i];
      if keep(last) then init + [pick(last)] else init
  }

  /** `clinical_trials`: the sorted distinct sources that carry the trial marker. */
  function ClinicalTrials(df: seq<Row>): (r: seq<string>)
    ensures StrictlySorted(r)
    ensures forall e :: e in r <==> IsSource(df, e) && IsTrialId(e)
  {
    SortUnique(Select(df, (row: Row) => IsTrialId(row.source), (row: Row) => row.source))
  }

  /** `drugs`: the sorted distinct sources that do not carry the trial marker. */
  function Drugs(df: seq<Row>): (r: seq<string>)
    ensures StrictlySorted(r)
    ensures forall e :: e in r <==> IsSource(df, e) && !IsTrialId(e)
  {
    SortUnique(Select(df, (row: Row) => !IsTrialId(row.source), (row: Row) => row.source))
  }

  /** The sorted distinct targets of rows whose relation mentions `word`, ignoring case. */
  function TargetsMentioning(df: seq<Row>, word: string): (r: seq<string>)
    ensures StrictlySorted(r)
    ensures forall e :: e in r <==> IsTargetOf(df, word, e)
  {
    SortUnique(Select(df, (row: Row) => ContainsIgnoreCase(row.relation, word), (row: Row) => row.target))
  }

  /** `conditions`: the sorted distinct targets of rows whose relation mentions "condition". */
  function Conditions(df: seq<Row>): (r: seq<string>)
    ensures StrictlySorted(r)
    ensures forall e :: e in r <==> IsTargetOf(df, "condition", e)
  {
    TargetsMentioning(df, "condition")
  }

  /** `outcomes`: the sorted distinct targets of rows whose relation mentions "outcome". */
  function Outcomes(df: seq<Row>): (r: seq<string>)
    ensures StrictlySorted(r)
    ensures forall e :: e in r <==> IsTargetOf(df, "outcome", e)
  {
    TargetsMentioning(df, "outcome")
  }

  datatype EntityLists = EntityLists(
    clinicalTrials: seq<string>,
    drugs: seq<string>,
    conditions: seq<string>,
    outcomes: seq<string>)

  /** The four lists, computed once from the whole table. */
  function EntityListsOf(df: seq<Row>): EntityLists {
    EntityLists(ClinicalTrials(df), Drugs(df), Conditions(df), Outcomes(df))
  }

  /** Trials and drugs split the set of sources: no entity is in both, and every source is in one. */
  lemma SourcesSplit(df: seq<Row>)
    ensures forall e :: !(e in ClinicalTrials(df) && e in Drugs(df))
    ensures forall e :: e in ClinicalTrials(df) || e in Drugs(df) <==> IsSource(df, e)
  {
  }

  /** The lists are exactly what `sorted(...unique())` produces: the one strictly sorted arrangement of their elements. */
  lemma ListsAreCanonical(df: seq<Row>, trials: seq<string>, drugs: seq<string>)
    requires StrictlySorted(trials) && forall e :: e in trials <==> IsSource(df, e) && IsTrialId(e)
    requires StrictlySorted(drugs) && forall e :: e in drugs <==> IsSource(df, e) && !IsTrialId(e)
    ensures ClinicalTrials(df) == trials && Drugs(df) == drugs
  {
    StrictlySortedUnique(ClinicalTrials(df), trials);
    StrictlySortedUnique(Drugs(df), drugs);
  }

  datatype Category = ClinicalTrial | Drug | Condition | Outcome | Other

  /** Position in the display priority: a lower rank is tried first. */
  function Rank(c: Category): nat {
    match c
    case ClinicalTrial => 0
    case Drug => 1
    case Condition => 2
    case Outcome => 3
    case Other => 4
  }

  /** The membership test of one category taken on its own; every node is eligible for Other. */
  predicate Matches(node: string, lists: EntityLists, c: Category) {
    match c
    case ClinicalTrial => IsTrialId(node)
    case Drug => node in lists.drugs
    case Condition => node in lists.conditions
    case Outcome => node in lists.outcomes
    case Other => true
  }

  /** The display category: the highest-priority category whose test the node passes. */
  function CategoryOf(node: string, lists: EntityLists): (c: Category)
    ensures Matches(node, lists, c)
    ensures forall d :: Rank(d) < Rank(c) ==> !Matches(node, lists, d)
  {
    if IsTrialId(node) then ClinicalTrial
    else if node in lists.drugs then Drug
    else if node in lists.conditions then Condition
    else if node in lists.outcomes then Outcome
    else Other
  }

  /** A `#rrggbb` colour in lower-case hexadecimal. */
  function Colour(c: Category): (r: string)
    ensures |r| == 7 && r[0] == '#'
    ensures forall i :: 1 <= i < |r| ==> '0' <= r[i] <= '9' || 'a' <= r[i] <= 'f'
  {
    match c
    case ClinicalTrial => "#1f77b4"
    case Drug => "#ff7f0e"
    case Condition => "#2ca02c"
    case Outcome => "#9467bd"
    case Other => "#d62728"
  }

  /** Drugs are drawn largest and uncategorised nodes smallest. */
  function Size(c: Category): (r: nat)
    ensures 15 <= r <= 25
    ensures r == 25 <==> c == Drug
    ensures r == 15 <==> c == Other
  {
    match c
    case ClinicalTrial => 20
    case Drug => 25
    case Condition => 22
    case Outcome => 18
    case Other => 15
  }

  /** A non-empty lower-case identifier, in snake case. */
  function Group(c: Category): (r: string)
    ensures |r| > 0
    ensures forall i :: 0 <= i < |r| ==> 'a' <= r[i] <= 'z' || r[i] == '_'
  {
    match c
    case ClinicalTrial => "clinical_trial"
    case Drug => "drug"
    case Condition => "condition"
    case Outcome => "outcome"
    case Other => "other"
  }

  /** Colour and size together identify the category, so a node never gets two styles. */
  lemma StylesDistinct(c: Category, d: Category)
    requires c != d
    ensures Colour(c) != Colour(d) && Size(c) != Size(d) && Group(c) != Group(d)
  {
  }

  /** What the Plotly branch appends to `node_color` and `node_size` for one node. */
  datatype Marker = Marker(colour: string, size: nat)

  function PlotlyMarker(node: string, lists: EntityLists): (m: Marker)
    ensures m == Marker(Colour(CategoryOf(node, lists)), Size(CategoryOf(node, lists)))
  {
    if IsTrialId(node) then Marker("#1f77b4", 20)
    else if node in lists.drugs then Marker("#ff7f0e", 25)
    else if node in lists.conditions then Marker("#2ca02c", 22)
    else if node in lists.outcomes then Marker("#9467bd", 18)
    else Marker("#d62728", 15)
  }

  /** The arguments of the PyVis branch's `net.add_node` for one node. */
  datatype VisNode = VisNode(id: string, colour: string, size: nat, title: string, group: string)

  function PyVisNode(node: string, lists: EntityLists): (v: VisNode)
    ensures v.id == node && v.title == node
    ensures v.colour == Colour(CategoryOf(node, lists))
    ensures v.size == Size(CategoryOf(node, lists))
    ensures v.group == Group(CategoryOf(node, lists))
  {
    if IsTrialId(node) then VisNode(node, "#1f77b4", 20, node, "clinical_trial")
    else if node in lists.drugs then VisNode(node, "#ff7f0e", 25, node, "drug")
    else if node in lists.conditions then VisNode(node, "#2ca02c", 22, node, "condition")
    else if node in lists.outcomes then VisNode(node, "#9467bd", 18, node, "outcome")
    else VisNode(node, "#d62728", 15, node, "other")
  }

  /** The two renderers style every node alike. */
  lemma BackendsAgree(node: string, lists: EntityLists)
    ensures PlotlyMarker(node, lists).colour == PyVisNode(node, lists).colour
    ensures PlotlyMarker(node, lists).size == PyVisNode(node, lists).size
  {
  }
}
