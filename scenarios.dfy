/** Worked examples of the engine on small tables. */
module Scenarios {
  import opened Tables
  import opened Checks
  import opened Registry
  import opened Decision

  /** A column with a repeated value is not unique, so it fails a
      "must be unique" KPI and passes a "duplicates allowed" one. */
  lemma RepeatedValueFailsUniqueTarget()
    ensures var t := Table(4, map["id" := [Number(1), Number(2), Number(2), Number(3)]]);
            Verdicts("Uniqueness", t, ["id"], Choice(true)) == map["id" := false]
            && Verdicts("Uniqueness", t, ["id"], Choice(false)) == map["id" := true]
  {
    var col := [Number(1), Number(2), Number(2), Number(3)];
    assert col[1] == col[2];
  }

  /** Two missing cells also count as a repeated value. */
  lemma RepeatedNullIsNotUnique()
    ensures var t := Table(3, map["x" := [Null, Number(7), Null]]);
            UniquenessCheck(t, ["x"]) == map["x" := Flag(false)]
  {
    var col := [Null, Number(7), Null];
    assert col[0] == col[2];
  }

  /** The table of the examples below: one column, one missing cell in four. */
  function AgeTable(): Table {
    Table(4, map["leeftijd" := [Number(25), Text("abc"), Number(40), Null]])
  }

  /** One missing cell in four gives 75% completeness. */
  lemma OneNullInFour()
    ensures AgeTable().Valid()
    ensures CompletenessCheck(AgeTable(), ["leeftijd"]) == map["leeftijd" := Percent(3, 4)]
    ensures multiset(AgeTable().columns["leeftijd"])[Null] == 1
  {
    var col := AgeTable().columns["leeftijd"];
    assert NonNullCount(col) == 3 by {
      assert col[1..] == [Text("abc"), Number(40), Null];
      assert col[1..][1..] == [Number(40), Null];
      assert col[1..][1..][1..] == [Null];
      assert NonNullCount([Null]) == 0;
    }
    NonNullCountByMultiset(col);
  }

  /** At 75% completeness the column passes a slider KPI exactly when the
      slider is at 75 or below, so it misses the default of 90. */
  lemma OneNullInFourPassesUpTo75(p: int)
    ensures Verdicts("Completeness", AgeTable(), ["leeftijd"], Slider(p)) == map["leeftijd" := p <= 75]
    ensures !Verdicts("Completeness", AgeTable(), ["leeftijd"], DefaultKpi(PercentSlider))["leeftijd"]
  {
    OneNullInFour();
    var v := Verdicts("Completeness", AgeTable(), ["leeftijd"], Slider(p));
    assert v.Keys == {"leeftijd"};
    assert v["leeftijd"] <==> 300 >= p * 4;
    var w := Verdicts("Completeness", AgeTable(), ["leeftijd"], Slider(90));
    assert "leeftijd" in w;
  }
}
