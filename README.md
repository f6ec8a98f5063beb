# Data-quality check engine

A Dafny model of the check-evaluation engine of the Data Quality Marketplace
demo (`app.py`). A user uploads a spreadsheet, picks some of six DAMA
data-quality checks and some columns, sets a KPI per check, and sees a
pass/fail verdict per column. The engine has three parts, and the model
follows them module by module:

- `Tables` (`tables.dfy`): cells, columns and the dataset, and the two
  counting facts the real checks use: how many cells of a column are present,
  and how many distinct values it holds (nulls kept, as pandas'
  `nunique(dropna=False)` counts them).
- `Checks` (`checks.dfy`): the six per-column checks. Completeness is the
  percentage of non-null cells. Uniqueness is pandas' `is_unique`. Accuracy,
  Validity and Timeliness are placeholders that report 100%, and Consistency
  is a placeholder that reports `True`. Each check returns a map from every
  selected column name to a `Metric`. A metric is a percentage kept as an
  exact ratio of counts, `Percent(num, den)` standing for `100 * num / den`,
  or a boolean `Flag`. `Run` is the dispatch through the `checks` registry.
- `Registry` (`registry.dfy`): the `check_definitions` and `checks`
  dictionaries, and the choice made per check name between a 0..100 slider
  KPI and a True/False KPI.
- `Decision` (`decision.dfy`): the pass/fail rule. A boolean metric passes
  when it equals the KPI. A percentage passes when it is at least the KPI.
  Comparisons between a boolean and a number follow Python (True is 1, False
  is 0), so the rule is defined for every pair. A lemma shows that such a pair
  never arises. `Verdicts` gives the verdicts shown for one selected check.
- `Scenarios` (`scenarios.dfy`): small worked tables.

All checks are pure functions of the table and the column list, and no check
changes the table. Running a check twice therefore gives the same map by
construction. The locality lemmas state the stronger fact: a column's metric
depends only on that column's cells, and not on which other columns are
selected.

Validity and Consistency are constant placeholders in `app.py`, and the
model keeps them so. `app.py` has no date-range check, so the model has none
either.

## Model

| member | source | states |
|---|---|---|
| Tables.NonNullCount | app.py:7 | The number of present cells is at most the column length. It equals the length exactly when the column holds no null. |
| Tables.NonNullCountByMultiset | app.py:7 | The present-cell count is the column length minus the number of nulls in the column's multiset of values. |
| Tables.CountDistinctIffPairwiseDistinct | app.py:10 | A column has at most as many distinct values (nulls counted as one value) as rows. It has exactly as many when no two rows hold equal values. |
| Checks.PercentBounds | app.py:7 | A ratio of present cells to rows, times 100, lies in [0, 100]. It is 100 exactly when every cell is present. |
| Checks.CompletenessCheck | app.py:6-7 | The key set is the selected columns. Each metric is the percentage (rows - nulls) / rows. It lies in [0, 100] and is 100 exactly when the column has no null. |
| Checks.UniquenessCheck | app.py:9-10 | The key set is the selected columns. Each metric is a boolean that holds exactly when no two rows are equal, with repeated nulls counting as duplicates. |
| Checks.AccuracyCheck | app.py:12-14 | The key set is the selected columns. Every metric is the percentage 100, whatever the table holds. |
| Checks.ConsistencyCheck | app.py:16-18 | The key set is the selected columns. Every metric is `True`, whatever the table holds. |
| Checks.ValidityCheck | app.py:20-22 | The key set is the selected columns. Every metric is the percentage 100, whatever the table holds. |
| Checks.TimelinessCheck | app.py:24-26 | The key set is the selected columns. Every metric is the percentage 100, whatever the table holds. |
| Checks.Run | app.py:37-44 | Dispatch gives every selected column a metric, and no other key. The metric is a boolean exactly for Uniqueness and Consistency. Every percentage lies in [0, 100]. |
| Checks.ColumnLocality | app.py:6-26 | Two tables that agree on a column give that column the same metric under every check. |
| Checks.SelectionLocality | app.py:6-26 | Selecting more columns only adds entries. The metric of an already selected column is unchanged. |
| Registry.RegistriesAgree | app.py:28-44 | The constants `CheckDefinitions` and `RegisteredChecks` (`check_definitions` and `checks`) have the same six keys. Each check is registered exactly once, under its own name. |
| Registry.Definition | app.py:28-35 | Every check has a non-empty definition text, found under its registered name. |
| Registry.KpiKindOf | app.py:66-69 | A name gets a KPI kind exactly when it is registered. The kind is the True/False choice exactly for the checks that yield booleans. |
| Decision.DefaultKpi | app.py:67-69 | The slider starts at 90 and the choice at True. Each default is a KPI its widget can produce, so the slider default lies in 0..100. |
| Decision.Passes | app.py:78-82 | With a KPI of the metric's own kind, a boolean metric passes exactly when it equals the KPI. A percentage `100 * num / den` passes a slider KPI `p` exactly when `100 * num >= p * den`. A boolean compared with a number follows Python, where True and False are 1 and 0. |
| Decision.ZeroKpiAlwaysPasses | app.py:82 | Every percentage passes a slider KPI of 0. |
| Decision.PassesMonotoneInMetric | app.py:82 | For a fixed KPI, if a percentage passes then every higher percentage passes too. |
| Decision.PassesAntitoneInKpi | app.py:82 | For a fixed percentage, lowering the slider KPI never turns a pass into a fail. |
| Decision.CountsMonotone | app.py:82 | The same monotonicity, stated on the exact counts of two columns of possibly different row counts. |
| Decision.MetricKindMatchesKpiKind | app.py:66-82 | For every registered check, every selected column's metric is a boolean exactly when the check's KPI is a True/False choice. So the branch at line 78 always agrees with the KPI kind chosen at lines 66-69. |
| Decision.Verdicts | app.py:74-82 | There is one verdict per selected column. Completeness passes a slider KPI `p` exactly when `100 * (rows - nulls) >= p * rows`. Uniqueness passes a choice exactly when pairwise distinctness equals it. Consistency passes exactly when the choice is True. Accuracy, Validity and Timeliness pass every slider KPI. |
| Scenarios.RepeatedValueFailsUniqueTarget | app.py:10 | The column [1, 2, 2, 3] fails the KPI "unique = True" and passes "unique = False". |
| Scenarios.RepeatedNullIsNotUnique | app.py:10 | A column with two nulls is not unique. |
| Scenarios.OneNullInFour | app.py:7 | One null in four rows gives completeness 3/4, that is 75%. |
| Scenarios.OneNullInFourPassesUpTo75 | app.py:78-82 | That column passes a slider KPI exactly when the slider is at 75 or below, so it fails at the default of 90. |

## Left out

- The Streamlit page (lines 46-83 apart from the decision rule): titles, previews, multiselects, sliders, buttons and markdown. It is presentation. Widget choices become parameters: the column list, the check name and the KPI.
- File upload and `pd.read_excel` (lines 48-51): I/O and a foreign library. The model starts from an already loaded `Table`.
- The loops at lines 59-60, 64-69 and 71-83 that drive the UI are not modelled as loops. Each of their bodies is modelled per check: `Definition`, `KpiKindOf` with `DefaultKpi`, and `Verdicts`.
- Text formatting of results (`:.2f`, the emoji labels): presentation.
- Floating point: `notnull().mean() * 100` is a float, and the model keeps it as the exact ratio `100 * num / den`. Rounding of the float is not modelled. So a verdict can differ from the program's exactly at the KPI boundary. For example, with 57 of 100 cells present and a KPI of 57, the program computes `0.57 * 100 == 56.99999999999999` and fails, while the model's exact 57% passes. This affects Decision.Passes and Decision.Verdicts.
- Checks.CompletenessCheck: requires a valid table with at least one row. On an empty column pandas' `mean()` gives NaN, the code has no guard, and the comparison at line 82 would then fail. This case is not modelled.
- Checks.CompletenessCheck, Checks.UniquenessCheck: require every selected column to exist in the table. `df[col]` raises a KeyError otherwise, and the UI only offers `df.columns`.
- Cell values are integers, text or `Null`. Floats and dates are not modelled. Python's cross-type equality (1 == 1.0 == True), which can merge values when pandas counts distinct values, is not modelled. Two cells of different kinds are always distinct here.
- pandas' null detection (None, NaN, NaT) is abstracted as the single `Null` cell, so all missing markers compare equal, as they do in `nunique(dropna=False)`.
- A repeated name in the column list gives one map entry, as in the Python dict comprehension. Its value is the same either way, so order does not matter.
