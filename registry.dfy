/** The two constant registries of app.py, `check_definitions` and `checks`,
    and the choice of KPI widget made for each selected check name. */
module Registry {
  import opened Checks

  datatype Option<T> = None | Some(value: T)

  /** `check_definitions`: the definition text shown for each check name. */
  const CheckDefinitions: map<string, string> := map[
    "Completeness" := "Mate waarin alle vereiste data aanwezig is (geen lege waarden).",
    "Uniqueness" := "Data bevat geen duplicaten; elke waarde is uniek.",
    "Accuracy" := "Mate waarin data correct is en overeenkomt met de werkelijkheid.",
    "Consistency" := "Data is logisch en structureel samenhangend binnen datasets.",
    "Validity" := "Data voldoet aan het verwachte formaat, type of regels (bijv. e-mailformaat).",
    "Timeliness" := "Data is actueel en beschikbaar op het moment dat het nodig is."
  ]

  /** `checks`: the check function bound to each check name. */
  const RegisteredChecks: map<string, CheckKind> := map[
    "Completeness" := Completeness,
    "Uniqueness" := Uniqueness,
    "Accuracy" := Accuracy,
    "Consistency" := Consistency,
    "Validity" := Validity,
    "Timeliness" := Timeliness
  ]

  /** The name under which a check is registered. */
  function NameOf(k: CheckKind): string {
    match k
    case Completeness => "Completeness"
    case Uniqueness => "Uniqueness"
    case Accuracy => "Accuracy"
    case Consistency => "Consistency"
    case Validity => "Validity"
    case Timeliness => "Timeliness"
  }

  /** The two registries cover the same six names, and each check is
      registered exactly once, under its own name, with a definition. */
  lemma RegistriesAgree()
    ensures CheckDefinitions.Keys == RegisteredChecks.Keys
    ensures |RegisteredChecks| == 6
    ensures forall k: CheckKind :: NameOf(k) in RegisteredChecks && RegisteredChecks[NameOf(k)] == k
    ensures forall name :: name in RegisteredChecks ==> NameOf(RegisteredChecks[name]) == name
  {
    assert RegisteredChecks.Keys == {"Completeness", "Uniqueness", "Accuracy", "Consistency", "Validity", "Timeliness"};
  }

  /** The definition text of a check, looked up by its registered name. */
  function Definition(k: CheckKind): (text: string)
    ensures NameOf(k) in CheckDefinitions && text == CheckDefinitions[NameOf(k)]
    ensures |text| > 0
  {
    CheckDefinitions[NameOf(k)]
  }

  /** The widget that collects a check's KPI: a 0..100 slider or a
      True/False choice. */
  datatype KpiKind = PercentSlider | BooleanChoice

  /** The KPI split made for each selected check name: percentage checks get
      a slider, boolean checks a choice, and an unknown name gets no KPI.
      Every registered name gets exactly one kind, and that kind is the one
      matching what its check yields. */
  function KpiKindOf(name: string): (r: Option<KpiKind>)
    ensures r.Some? <==> name in RegisteredChecks
    ensures r.Some? ==> (r.value == BooleanChoice <==> IsBooleanCheck(RegisteredChecks[name]))
  {
    if name in ["Completeness", "Accuracy", "Validity", "Timeliness"] then Some(PercentSlider)
    else if name in ["Uniqueness", "Consistency"] then Some(BooleanChoice)
    else None
  }
}
