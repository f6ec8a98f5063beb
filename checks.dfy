/** The six per-column data-quality checks of app.py. Each takes the dataset
    and the selected column names and yields one metric per selected column. */
module Checks {
  import opened Tables

  type Pos = n: nat | n > 0 witness 1

  /** A check's result for one column: either the percentage
      100 * num / den, kept as an exact ratio of counts, or a boolean. */
  datatype Metric = Percent(num: nat, den: Pos) | Flag(holds: bool)

  /** The value a percentage metric stands for. */
  function Value(m: Metric): real
    requires m.Percent?
  {
    100.0 * (m.num as real) / (m.den as real)
  }

  /** The constant `100.0` the placeholder checks return. */
  const Full: Metric := Percent(1, 1)

  /** The map a check returns, from column name to metric. */
  type Result = map<string, Metric>

  /** The DAMA dimensions app.py registers, one per check function. */
  datatype CheckKind = Completeness | Uniqueness | Accuracy | Consistency | Validity | Timeliness

  /** The set of selected column names: the key set of every check's map. */
  function Selected(names: seq<string>): set<string> {
    set c | c in names
  }

  /** Every selected column exists in the table (otherwise `df[col]` fails). */
  predicate Present(t: Table, names: seq<string>) {
    forall c :: c in names ==> c in t.columns
  }

  /** For a column of `d > 0` rows of which `k` are present, the percentage
      lies in [0, 100] and is 100 exactly when every cell is present. */
  lemma PercentBounds(k: nat, d: Pos)
    requires k <= d
    ensures 0.0 <= Value(Percent(k, d)) <= 100.0
    ensures Value(Percent(k, d)) == 100.0 <==> k == d
  {
    var q := Value(Percent(k, d));
    assert q * (d as real) == 100.0 * (k as real);
    if q == 100.0 {
      assert 100.0 * (d as real) == 100.0 * (k as real);
    }
  }

  /** `completeness_check`: the percentage of non-null cells per column. */
  function CompletenessCheck(t: Table, names: seq<string>): (r: Result)
    requires t.Valid() && t.rows > 0 && Present(t, names)
    ensures r.Keys == Selected(names)
    ensures forall c :: c in r ==>
              r[c].Percent? && r[c].den == t.rows
              && r[c].num == t.rows - multiset(t.columns[c])[Null]
    ensures forall c :: c in r ==>
              r[c].Percent? && 0.0 <= Value(r[c]) <= 100.0
              && (Value(r[c]) == 100.0 <==> Null !in t.columns[c])
  {
    var r := map c | c in names :: Percent(NonNullCount(t.columns[c]), t.rows);
    assert forall c :: c in r ==>
        NonNullCount(t.columns[c]) <= t.rows
        && (Value(r[c]) == 100.0 <==> NonNullCount(t.columns[c]) == t.rows)
        && 0.0 <= Value(r[c]) <= 100.0 by {
      forall c | c in r
        ensures NonNullCount(t.columns[c]) <= t.rows
        ensures Value(r[c]) == 100.0 <==> NonNullCount(t.columns[c]) == t.rows
        ensures 0.0 <= Value(r[c]) <= 100.0
      {
        PercentBounds(NonNullCount(t.columns[c]), t.rows);
      }
    }
    forall c | c in r
      ensures NonNullCount(t.columns[c]) == t.rows - multiset(t.columns[c])[Null]
    {
      NonNullCountByMultiset(t.columns[c]);
    }
    r
  }

  /** `uniqueness_check`: pandas' `is_unique`, which holds when the number of
      distinct values (nulls kept) equals the length of the column. */
  function UniquenessCheck(t: Table, names: seq<string>): (r: Result)
    requires Present(t, names)
    ensures r.Keys == Selected(names)
    ensures forall c :: c in r ==>
              r[c].Flag? && (r[c].holds <==> PairwiseDistinct(t.columns[c]))
  {
    var r := map c | c in names :: Flag(CountDistinct(t.columns[c]) == |t.columns[c]|);
    forall c | c in r ensures r[c].holds <==> PairwiseDistinct(t.columns[c]) {
      CountDistinctIffPairwiseDistinct(t.columns[c]);
    }
    r
  }

  /** `accuracy_check`: a placeholder that reports 100% for every column. */
  function AccuracyCheck(t: Table, names: seq<string>): (r: Result)
    ensures r.Keys == Selected(names)
    ensures forall c :: c in r ==> r[c].Percent? && Value(r[c]) == 100.0
  {
    map c | c in names :: Full
  }

  /** `consistency_check`: a placeholder that reports every column consistent. */
  function ConsistencyCheck(t: Table, names: seq<string>): (r: Result)
    ensures r.Keys == Selected(names)
    ensures forall c :: c in r ==> r[c] == Flag(true)
  {
    map c | c in names :: Flag(true)
  }

  /** `validity_check`: a placeholder that reports 100% for every column. */
  function ValidityCheck(t: Table, names: seq<string>): (r: Result)
    ensures r.Keys == Selected(names)
    ensures forall c :: c in r ==> r[c].Percent? && Value(r[c]) == 100.0
  {
    map c | c in names :: Full
  }

  /** `timeliness_check`: a placeholder that reports 100% for every column. */
  function TimelinessCheck(t: Table, names: seq<string>): (r: Result)
    ensures r.Keys == Selected(names)
    ensures forall c :: c in r ==> r[c].Percent? && Value(r[c]) == 100.0
  {
    map c | c in names :: Full
  }

  /** What each check needs of its input: the two real checks index the
      selected columns, and completeness divides by the row count. */
  predicate CanRun(k: CheckKind, t: Table, names: seq<string>) {
    match k
    case Completeness => t.Valid() && t.rows > 0 && Present(t, names)
    case Uniqueness => Present(t, names)
    case _ => true
  }

  /** Whether a check yields booleans (otherwise percentages). */
  predicate IsBooleanCheck(k: CheckKind) {
    k == Uniqueness || k == Consistency
  }

  /** Calling the function the registry binds to a check: every selected
      column gets a metric, and the metric is a boolean exactly for the
      boolean checks. */
  function Run(k: CheckKind, t: Table, names: seq<string>): (r: Result)
    requires CanRun(k, t, names)
    ensures r.Keys == Selected(names)
    ensures forall c :: c in r ==> (r[c].Flag? <==> IsBooleanCheck(k))
    ensures forall c :: c in r && r[c].Percent? ==> 0.0 <= Value(r[c]) <= 100.0
  {
    match k
    case Completeness => CompletenessCheck(t, names)
    case Uniqueness => UniquenessCheck(t, names)
    case Accuracy => AccuracyCheck(t, names)
    case Consistency => ConsistencyCheck(t, names)
    case Validity => ValidityCheck(t, names)
    case Timeliness => TimelinessCheck(t, names)
  }

  /** A column's metric depends on that column's cells alone: two tables
      that agree on a column give it the same metric, whatever else they
      hold. */
  lemma ColumnLocality(k: CheckKind, t1: Table, t2: Table, names: seq<string>, c: string)
    requires CanRun(k, t1, names) && CanRun(k, t2, names)
    requires c in names
    requires c in t1.columns && c in t2.columns && t1.columns[c] == t2.columns[c]
    ensures Run(k, t1, names)[c] == Run(k, t2, names)[c]
  {
  }

  /** Running a check with a longer column list only adds entries: the
      metric of a column does not depend on which other columns are selected. */
  lemma SelectionLocality(k: CheckKind, t: Table, names: seq<string>, more: seq<string>)
    requires CanRun(k, t, names + more)
    ensures CanRun(k, t, names)
    ensures forall c :: c in Run(k, t, names) ==>
              c in Run(k, t, names + more) && Run(k, t, names + more)[c] == Run(k, t, names)[c]
  {
  }
}
