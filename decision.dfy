/** The pass/fail rule of app.py: a boolean metric passes when it equals the
    KPI, any other metric when it is at least the KPI. */
module Decision {
  import opened Tables
  import opened Checks
  import opened Registry

  /** The target a user sets for one check: a slider position or a
      True/False choice. */
  datatype Kpi = Slider(percent: int) | Choice(target: bool)

  const SliderMin: int := 0
  const SliderMax: int := 100
  const SliderDefault: int := 90

  /** The KPI a widget of the given kind starts at: the slider at 90, the
      choice at its first option, True. */
  function DefaultKpi(kind: KpiKind): (kpi: Kpi)
    ensures Fits(kind, kpi)
    ensures kind == PercentSlider ==> kpi == Slider(SliderDefault)
    ensures kind == BooleanChoice ==> kpi == Choice(true)
  {
    match kind
    case PercentSlider => Slider(SliderDefault)
    case BooleanChoice => Choice(true)
  }

  /** A KPI the widget of the given kind can produce. */
  predicate Fits(kind: KpiKind, kpi: Kpi) {
    match kind
    case PercentSlider => kpi.Slider? && SliderMin <= kpi.percent <= SliderMax
    case BooleanChoice => kpi.Choice?
  }

  /** Python's numeric reading of a boolean: True is 1, False is 0. */
  function BoolNumber(b: bool): int {
    if b then 1 else 0
  }

  /** Python's numeric reading of a KPI. */
  function KpiNumber(kpi: Kpi): int {
    match kpi
    case Slider(p) => p
    case Choice(b) => BoolNumber(b)
  }

  /** For a positive divisor `d`, `x / d >= p` exactly when `x >= p * d`. */
  lemma DividedAtLeastIffCrossMultiplied(x: nat, d: Pos, p: int)
    ensures (x as real) / (d as real) >= p as real <==> x >= p * d
  {
    var q := (x as real) / (d as real);
    var dr := d as real;
    assert q * dr == x as real;
    assert (p * d) as real == (p as real) * dr;
    if q >= p as real {
      assert q * dr >= (p as real) * dr;
    } else {
      assert q * dr < (p as real) * dr;
    }
  }

  /** The decision for one column: a boolean metric passes when it equals the
      KPI, a percentage when it is at least the KPI. Comparisons between a
      boolean and a number follow Python, where True and False compare as 1
      and 0. With a KPI of the metric's own kind, a boolean passes exactly
      when it equals the KPI, and a percentage `100 * num / den` exactly when
      `100 * num` is at least the KPI times `den`. */
  function Passes(m: Metric, kpi: Kpi): (r: bool)
    ensures m.Flag? && kpi.Choice? ==> (r <==> m.holds == kpi.target)
    ensures m.Percent? && kpi.Slider? ==> (r <==> 100 * m.num >= kpi.percent * m.den)
  {
    match m
    case Flag(b) => BoolNumber(b) == KpiNumber(kpi)
    case Percent(num, den) =>
      var q := Value(m);
      var p := KpiNumber(kpi);
      assert q == ((100 * num) as real) / (den as real);
      DividedAtLeastIffCrossMultiplied(100 * num, den, p);
      q >= p as real
  }

  /** A slider KPI of 0 is met by every percentage. */
  lemma ZeroKpiAlwaysPasses(m: Metric)
    requires m.Percent?
    ensures Passes(m, Slider(0))
  {
  }

  /** For a fixed KPI, the verdict on a percentage is a non-decreasing step
      in the metric: whatever passes, a metric at least as high passes too. */
  lemma PassesMonotoneInMetric(m1: Metric, m2: Metric, kpi: Kpi)
    requires m1.Percent? && m2.Percent?
    requires Value(m1) >= Value(m2)
    ensures Passes(m2, kpi) ==> Passes(m1, kpi)
  {
  }

  /** For a fixed percentage, lowering the slider never turns a pass into a
      fail. */
  lemma PassesAntitoneInKpi(m: Metric, p1: int, p2: int)
    requires m.Percent? && p1 <= p2
    ensures Passes(m, Slider(p2)) ==> Passes(m, Slider(p1))
  {
  }

  /** A percentage passes a slider KPI when the rows-weighted counts say so:
      the exact form of the monotonicity above, for two columns of possibly
      different row counts. */
  lemma CountsMonotone(n1: nat, d1: Pos, n2: nat, d2: Pos, p: int)
    requires n1 * d2 >= n2 * d1
    ensures Passes(Percent(n2, d2), Slider(p)) ==> Passes(Percent(n1, d1), Slider(p))
  {
    if 100 * n2 >= p * d2 {
      assert 100 * n1 * d2 >= 100 * n2 * d1;
      assert 100 * n2 * d1 >= p * d2 * d1;
      assert (100 * n1) * d2 >= (p * d1) * d2;
    }
  }

  /** Every metric a registered check yields is of the kind its KPI widget
      produces, so the boolean branch of the decision is taken exactly for
      checks that have a True/False KPI, and a number is never compared with
      a boolean. */
  lemma MetricKindMatchesKpiKind(name: string, t: Table, names: seq<string>, c: string)
    requires name in RegisteredChecks && CanRun(RegisteredChecks[name], t, names)
    requires c in names
    ensures KpiKindOf(name).Some?
    ensures c in Run(RegisteredChecks[name], t, names)
    ensures Run(RegisteredChecks[name], t, names)[c].Flag? <==> KpiKindOf(name) == Some(BooleanChoice)
  {
  }

  /** The verdicts shown for one selected check: one per selected column,
      each the decision rule applied to the column's metric and the check's
      KPI. With a KPI of the kind its widget produces, the verdict of each
      check is stated in terms of the column's cells. */
  function Verdicts(name: string, t: Table, names: seq<string>, kpi: Kpi): (v: map<string, bool>)
    requires name in RegisteredChecks && CanRun(RegisteredChecks[name], t, names)
    ensures v.Keys == Selected(names)
    ensures name == "Completeness" && kpi.Slider? ==>
              forall c :: c in v ==>
                (v[c] <==> 100 * (t.rows - multiset(t.columns[c])[Null]) >= kpi.percent * t.rows)
    ensures name == "Uniqueness" && kpi.Choice? ==>
              forall c :: c in v ==> (v[c] <==> (PairwiseDistinct(t.columns[c]) == kpi.target))
    ensures name == "Consistency" && kpi.Choice? ==>
              forall c :: c in v ==> v[c] == kpi.target
    ensures (name == "Accuracy" || name == "Validity" || name == "Timeliness")
              && Fits(PercentSlider, kpi) ==>
              forall c :: c in v ==> v[c]
  {
    var r := Run(RegisteredChecks[name], t, names);
    var v := map c | c in r :: Passes(r[c], kpi);
    assert name == "Completeness" && kpi.Slider? ==>
        forall c :: c in v ==>
          (v[c] <==> 100 * (t.rows - multiset(t.columns[c])[Null]) >= kpi.percent * t.rows) by {
      if name == "Completeness" && kpi.Slider? {
        forall c | c in v
          ensures v[c] <==> 100 * (t.rows - multiset(t.columns[c])[Null]) >= kpi.percent * t.rows
        {
          assert Passes(r[c], kpi) <==> 100 * r[c].num >= kpi.percent * r[c].den;
        }
      }
    }
    assert (name == "Accuracy" || name == "Validity" || name == "Timeliness") && Fits(PercentSlider, kpi) ==>
        forall c :: c in v ==> v[c] by {
      if (name == "Accuracy" || name == "Validity" || name == "Timeliness") && Fits(PercentSlider, kpi) {
        forall c | c in v ensures v[c] {
          assert Passes(r[c], kpi) <==> 100 * r[c].num >= kpi.percent * r[c].den;
        }
      }
    }
    v
  }
}
