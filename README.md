# Classification dashboards: the data pipeline

Three Panel dashboards (`DashV2.py`, `simple_dashboard.py`, `create_dashboard.py`)
load a table of records. Each record has a classification, an age, a state, a county
name and a county code. The dashboards let a user narrow the table with selectors
and show three views of the selected rows:

- a statistics box with the class-1 count and percentage;
- a classification × age-band heatmap in which every row is normalised to 100 %;
- a map of Virginia counties coloured by class-1 percentage.

This project models the pipeline behind those views as Dafny functions over
`seq<Record>`, and proves what each stage promises:

- **Records** (`records.dfy`): the `AGE_BAND` column. These are `pd.cut` with 20
  right-open 5-year bins over [0, 100) and labels `"0-4"` … `"95-99"`. Labels are
  built from the decimal rendering of `5i` and `5i+4` and are proved pairwise distinct.
- **Text** (`text.dfy`): `str` of an integer and `int` of a string, with the
  round trip between them. It also holds Python's string order `<`, proved to be a
  strict total order.
- **Ordering** (`ordering.dfy`): `sorted(np.unique(...))` as insertion into a
  strictly sorted, duplicate-free sequence.
- **Filtering** (`filtering.dfy`): `get_filtered_data`, with its three masks and
  the `'All'` wildcard. `int(selected_classification)` failing becomes an `Err`
  result. It also holds the `None`-sentinel variant of `create_dashboard.py`.
- **Stats** (`stats.dfy`): the counts and the guarded percentage of `create_stats_box`.
- **CrossTab** (`crosstab.dfy`): `pd.crosstab(CLASSIFICATION, AGE_BAND,
  normalize='index') * 100`.
- **Counties** (`counties.dfy`): the Virginia aggregation. It takes the two
  `groupby(['COUNTY_CODE', 'COUNTY']).size()` counts, outer-merges them and
  zero-fills, then computes the percentage. Finally it left-merges onto the
  `STATEFP == '51'` boundary features by `GEOID` and zero-fills again.
- **Colors** (`colors.dfy`): `get_color_for_percent` of the map, and
  `get_color_for_value` of the compatibility script, which clamps the value and
  reverse-indexes a 9-colour palette.
- **Dashboard** (`dashboard.dfy`): the selector option lists, `update_dashboard` of
  both dashboard kinds, and the selector widgets with `reset_filters` as a class.

## Model

| member | source | states |
|---|---|---|
| Records.AgeBand | DashV2.py:26-29 | an age has a bin exactly when it lies in [0, 100); the bin `i` is below 20 and the age lies in [5i, 5i+5) |
| Records.AgeBandExact | simple_dashboard.py:27-30 | bin `i` is assigned exactly to the ages in [5i, 5i+5): the bins are right-open |
| Records.BandLabels | DashV2.py:28 | the `labels=` list has one entry per bin, the f-string label of that bin, and no label twice; the `AGE_BAND` value of a row is read from it |
| Records.LabelsFirstAndLast | DashV2.py:28 | the labels of bins 0, 1 and 19 are `"0-4"`, `"5-9"` and `"95-99"` |
| Records.LabelInjective | DashV2.py:28 | no two bins share a label |
| Records.BandLabelExact | create_dashboard.py:21-24 | a row's `AGE_BAND` equals the label of bin `i` exactly when its age lies in [5i, 5i+5) |
| Records.BandLabel | DashV2.py:26-29 | a row has an `AGE_BAND` exactly when its age has a bin, and it is that bin's label |
| Text.NatToDecimal | DashV2.py:28 | the rendering of a number is a non-empty digit string without a leading zero |
| Text.IntToString | DashV2.py:232 | `str(i)` is a non-empty digit string, preceded by '-' exactly for a negative `i`; ParseIntToString reads it back |
| Text.DecimalRoundTrip | DashV2.py:28 | reading back the digits of a rendered number gives the number |
| Text.NatToDecimalInjective | DashV2.py:28 | distinct numbers render differently |
| Text.ParseInt | DashV2.py:40 | `int(s)` succeeds exactly on an optionally signed digit string |
| Text.ParseIntToString | DashV2.py:232 | `int(str(i)) == i` for every integer |
| Text.IntToStringInjective | DashV2.py:232 | distinct classifications render as distinct option strings |
| Text.LexLessIsStrictTotalOrder | DashV2.py:232-234 | Python's string `<` is irreflexive, transitive and total |
| Ordering.SortedUniqueCorrect | DashV2.py:232-234 | `sorted(np.unique(xs))` is strictly ascending and holds exactly the elements of `xs` |
| Ordering.StrictlySortedDistinct | DashV2.py:232-234 | a strictly ascending list has no duplicates |
| Filtering.Where | DashV2.py:40 | a boolean mask never yields more rows than it is given |
| Filtering.WhereIsSubsequence | DashV2.py:40-44 | a mask keeps its rows in their original order |
| Filtering.WhereMembership | DashV2.py:40-44 | a row survives a mask exactly when it is in the input and meets every constraint |
| Filtering.WhereMultiset | DashV2.py:40-44 | a mask keeps every copy of a row that meets its constraints and no copy of one that does not |
| Filtering.WhereKeepsAll | DashV2.py:40-44 | a mask keeps every row exactly when every row meets its constraints |
| Filtering.WhereTwice | DashV2.py:39-44 | masking twice in succession equals one mask with both constraint lists |
| Filtering.WhereSameConstraints | DashV2.py:39-44 | masks with the same set of constraints select the same rows, whatever their order or repetition |
| Filtering.InTurnIsWhere | DashV2.py:39-44 | applying single-constraint masks one after another equals one conjunctive mask |
| Filtering.InTurnOrderIrrelevant | DashV2.py:39-44 | sequences of masks with the same constraints give the same rows |
| Filtering.GetFilteredData | DashV2.py:35-46 | `get_filtered_data` fails exactly on a non-'All', non-integer classification, and otherwise never returns more rows than the data (its rows are characterised by FilterIsWhere and FilteredRowsMatch) |
| Filtering.FilterIsWhere | DashV2.py:35-46 | the filter fails exactly on a non-'All', non-integer classification; otherwise it is the conjunctive mask of the non-'All' selections |
| Filtering.FilteredIsSubsequence | DashV2.py:37-46 | the filtered set is an order-preserving subsequence of the data |
| Filtering.FilteredRowsMatch | simple_dashboard.py:34-43 | a row is in the filtered set exactly when it is in the data and meets every non-'All' selection |
| Filtering.AllSelectsEverything | simple_dashboard.py:36-41 | 'All' for all three selectors gives back the whole data |
| Filtering.FilterOrderIrrelevant | DashV2.py:39-44 | all six orders of the three masks give the same rows |
| Filtering.ToSentinels | create_dashboard.py:101-102 | 'All' becomes `None`, any other classification becomes its `int` or an error exactly when it is not an integer, and the band passes through |
| Filtering.SentinelFilter | create_dashboard.py:26-33 | the `None`-sentinel filter returns the data when both selections are `None`, and never more rows than the data (its rows are characterised by SentinelFilterCorrect) |
| Filtering.SentinelFilterAgrees | create_dashboard.py:29-33 | the sentinel filter after the 'All'→`None` mapping selects the same rows as the three-selector filter with county 'All', and fails on the same inputs |
| Filtering.SentinelFilterIsWhere | create_dashboard.py:29-33 | the sentinel filter is the conjunctive mask of its non-`None` selections |
| Filtering.SentinelFilterCorrect | create_dashboard.py:29-33 | both selections `None` give the data; otherwise the result is an order-preserving subsequence of exactly the rows matching each non-`None` selection |
| Stats.Summarize | DashV2.py:51-53 | total is the row count, the class-1 count is the number of rows of classification 1 (counted one by one) and at most the total, and the percentage is `ones*100/total` for a positive total, 0 otherwise, and in [0, 100] |
| Stats.WhereClassCount | DashV2.py:52 | the mask `CLASSIFICATION == k` keeps exactly as many rows as have classification `k` |
| Stats.OnesCountExtremes | simple_dashboard.py:48-49 | every row is counted exactly when all rows are class 1, and none exactly when no row is |
| Stats.PercentExtremes | simple_dashboard.py:48-50 | the percentage is 100 exactly when there are rows and all are class 1, and 0 exactly when no row is class 1 |
| Stats.ShareBounds | DashV2.py:53 | a part of a positive whole as a percentage is in [0, 100], 100 exactly for the whole, 0 exactly for nothing |
| CrossTab.RowClasses | DashV2.py:76-78 | the table's row index is ascending and holds exactly the classifications with at least one banded row |
| CrossTab.CrossTabulate | DashV2.py:76-78 | every table row has one cell per age band |
| CrossTab.BandCountsAddUp | DashV2.py:76-78 | a classification's per-band counts add up to its banded row total |
| CrossTab.CrossTabRows | DashV2.py:76-78 | the table rows are in ascending classification order, and a classification has a row exactly when it has a banded record |
| CrossTab.CrossTabCells | simple_dashboard.py:71-73 | each cell is the band's count over the classification's banded total, times 100 |
| CrossTab.CrossTabRowsNormalised | create_dashboard.py:36-38 | every row has at least one record, its cells lie in [0, 100] and they sum to 100 |
| CrossTab.BandFilterConcentrates | create_dashboard.py:33-38 | after filtering on band `b`, every table row has 100 in column `b` and 0 in every other column |
| Counties.KeyLessIsStrictTotalOrder | DashV2.py:123-124 | the group-key order (code, then name) is a strict total order |
| Counties.KeysCounted | DashV2.py:123-124 | a key occurs among the complete keys exactly when some row has that code and name |
| Counties.SizesCorrect | DashV2.py:123-124 | the size table lists the given keys, each with the number of rows carrying it |
| Counties.GroupSizes | DashV2.py:123-124 | `groupby(...).size()` lists the present keys in ascending order, each with its row count, and only those |
| Counties.OnesWithinGroup | DashV2.py:123 | a group's class-1 count never exceeds its size |
| Counties.OuterKeysAreGroups | DashV2.py:127-128 | the outer merge's keys are exactly the groups of the Virginia rows, in ascending order, each found in the totals |
| Counties.JoinCountsAt | DashV2.py:127-131 | each merged row carries the class-1 count (0 when absent), the total and their percentage for its key |
| Counties.CountyCounts | DashV2.py:123-131 | `county_counts` has one row per outer-merge key, in key order, each with its group's size, at least 1, as total |
| Counties.CountyCountsBounded | DashV2.py:123-131 | each merged row has total = group size ≥ 1, class-1 count = the group's class-1 rows ≤ total, and an exact (unrounded) percentage in [0, 100] that is 0 or 100 exactly at the extremes |
| Counties.CountyCountsKeys | DashV2.py:127-128 | the merged table has one row per present group, in ascending key order |
| Counties.TotalsAddUp | simple_dashboard.py:88-96 | the totals of the merged table add up to the number of Virginia rows with both county fields present |
| Counties.OnlyVirginiaCounted | DashV2.py:120 | the counts are taken over the `STATE == 'VA'` rows only |
| Counties.VaFeatures | DashV2.py:136 | the kept boundary features are exactly those with `STATEFP == '51'` |
| Counties.AttachMembership | DashV2.py:140-145 | the rows attached to a feature are exactly the feature paired with the counts of each matching merged row |
| Counties.LeftJoinMembership | DashV2.py:140-145 | the rows of the left merge are exactly the rows produced for the kept features |
| Counties.LeftJoin | DashV2.py:140-145 | the left merge has at least as many rows as there are boundary polygons (LeftJoinFeatures gives each polygon its row) |
| Counties.LeftJoinFeatures | simple_dashboard.py:108-113 | every polygon gets a row of the left merge, and every row belongs to one of the polygons |
| Counties.VaMap | simple_dashboard.py:103-113 | every Virginia boundary feature appears in the map table, and only those |
| Counties.FeatureRowsFacts | simple_dashboard.py:108-118 | a feature without a matching code gets one row of zeros; a matched row carries the merged counts of that code |
| Counties.MapRowsFilled | DashV2.py:140-150 | every map row has class-1 ≤ total and an exact (unrounded) percentage in [0, 100], 0 exactly when class-1 is 0; it is zero-filled exactly when no Virginia row has its GEOID as code with a name; a matched row's total is its group size |
| Counties.MapRowFilled | simple_dashboard.py:108-118 | the same facts for one map row |
| Counties.FeatureRowFilled | simple_dashboard.py:108-118 | the same facts for a row produced for one polygon |
| Counties.GeoidMatchesVaRow | DashV2.py:140-145 | a GEOID matches a merged row exactly when some Virginia row has that code and a county name |
| Counties.NoCodeMatches | DashV2.py:140-145 | a GEOID that no merged row carries as its code matches nothing |
| Counties.AtMostOneMatch | DashV2.py:140-145 | when the merged codes are distinct, at most one merged row matches a GEOID |
| Counties.OneRowPerFeature | DashV2.py:140-145 | when the merged codes are distinct, the left merge has exactly one row per feature |
| Counties.MapOneRowPerCounty | DashV2.py:140-145 | when each county code names one county, the map table has exactly one row per Virginia feature |
| Colors.ColorForPercent | simple_dashboard.py:122-134 | exactly 0 is light grey, other values below 20 (negatives included) light blue, then one colour per 20-point bin, dark blue from 80 |
| Colors.ColorForPercentMonotone | simple_dashboard.py:122-134 | for positive inputs a larger percentage never gets a lighter colour |
| Colors.MapColors | simple_dashboard.py:137 | there is one colour per map row |
| Colors.MapColorsAt | simple_dashboard.py:137 | each map row's colour is the colour of its percentage |
| Colors.GreyMeansNoClassOne | simple_dashboard.py:116-137 | on exact percentages a county is grey exactly when it has no class-1 row, so a county with records but no class-1 row looks like a county without records |
| Colors.Clamp | compatibility_test.py:117 | the clamped value lies in [0, 100], is unchanged inside it, and is 0 or 100 beyond it |
| Colors.Truncate | compatibility_test.py:119 | `int(x)` on a non-negative float is the whole part of `x` |
| Colors.PaletteIndex | compatibility_test.py:119 | the index lies in 0..8 and is the eighth of [0, 100] holding the clamped value |
| Colors.ColorForValue | compatibility_test.py:115-120 | the lookup is in bounds for the 9-entry palette and reads entry `j` for clamped values in [12.5(8 − j), 12.5(9 − j)): entry 8 for [0, 12.5), entry 1 for [87.5, 100), entry 0 only at exactly 100 |
| Colors.ColorForValueExtremes | compatibility_test.py:117-120 | values ≤ 0 take palette entry 8 and values ≥ 100 take entry 0 |
| Colors.PaletteIndexAntitone | compatibility_test.py:119-120 | a larger value never gives a larger palette position |
| Colors.SampleValues | compatibility_test.py:53 | the samples 10, 30, 50, 70, 90 pass the clamp unchanged and take palette positions 8, 6, 4, 3, 1 |
| Dashboard.Options | DashV2.py:232-234 | an option list starts with 'All', then holds exactly the given values, strictly ascending |
| Dashboard.ClassificationStrings | DashV2.py:228 | a string is listed exactly when it is `str` of some row's classification |
| Dashboard.BandStrings | DashV2.py:229 | a string is listed exactly when it is some row's age-band label |
| Dashboard.CountyStrings | DashV2.py:230 | a string is listed exactly when it is some row's county name |
| Dashboard.ClassificationOptionSelects | DashV2.py:232 | every classification option other than 'All' parses, and selects exactly the rows of that classification, at least one |
| Dashboard.AgeBandOptionSelects | DashV2.py:233 | every band option other than 'All' selects exactly the rows in that band, at least one |
| Dashboard.CountyOptionSelects | DashV2.py:234 | every county option selects at least one Virginia row of that county, and exactly the rows with that name |
| Dashboard.EveryOptionFilters | simple_dashboard.py:186-188 | no classification option makes the filter fail |
| Dashboard.UpdateDashboard | DashV2.py:190-198 | the views fail exactly on a non-'All', non-integer classification; otherwise the heatmap, the statistics and the map are all built from the same rows, those meeting every non-'All' selection, and with every selector at 'All' from the whole data |
| Dashboard.UpdateHeatmap | create_dashboard.py:99-104 | the heatmap fails exactly on a non-'All', non-integer classification |
| Dashboard.HeatmapDashboardsAgree | create_dashboard.py:99-104 | the heatmap-only dashboard shows the same table as the three-view dashboard with county 'All', and fails on the same inputs |
| Dashboard.FilterWidgets.constructor | DashV2.py:236-255 | the three selectors offer the option lists of the data and start at 'All' |
| Dashboard.FilterWidgets.ResetFilters | DashV2.py:258-261 | all three selections become 'All', each still one of its options, and the next filtered set is the whole data |
| Dashboard.FilterWidgets.Selected | simple_dashboard.py:236 | the current selector values, bound into `update_dashboard` and from there into `get_filtered_data`, never make the filter fail, and the filtered rows are exactly the mask of the selections that are not 'All', a subsequence of the data |

## Left out

- File loading (`pd.read_csv`, `gpd.read_file`) is not modelled: the data and the boundary features are parameters.
- Rendering and layout are not modelled: `hvplot`, `HoverTool`, the Panel panes and styling, colormap names, and the palette's colour values. `Blues9` is any 9-element sequence.
- Event wiring (`pn.bind`, `on_click`) and `@pn.cache` memoisation are not modelled. A cached call returns what the plain function returns.
- Numeric output is not modelled: `.round(1)` on `CLASS_1_PERCENT` and the `:.1f` and `:,` formatting. Percentages are exact reals.
- Colors.GreyMeansNoClassOne: like Counties.CountyCountsBounded and Counties.MapRowsFilled, it states that grey (a percentage of 0) means no class-1 row only for exact percentages. The source colours `CLASS_1_PERCENT` after `.round(1)`, so a county whose class-1 share is under 0.05 % is also grey and shown as 0, and a share above 99.95 % is shown as 100.
- Records.AgeBand: ages are exact reals. A NaN age, which `pd.cut` also leaves without a band, is not represented.
- Text.ParseInt: accepts an optional sign and ASCII digits only. Python's `int` also accepts surrounding whitespace, `_` separators and non-ASCII digits.
- Dashboard.BandStrings: rows without a band are skipped. In the source, `np.unique` over an array mixing NaN and strings raises `TypeError` at start-up, and that is not modelled.
- Dashboard.CountyStrings: the same applies to Virginia rows without a county name.
- Counties: county codes are opaque strings. The source's `astype(str)` on the code column is not modelled, including a float rendering such as `"51001.0"` when the column holds NaN. Group order follows the string order of the codes, not pandas' numeric order.
- Counties.MapRowsFilled: the source uses a LEFT merge onto the boundary. Merged rows whose code matches no Virginia GEOID therefore do not reach the map. The model follows the code here, not an outer join.
- Counties.MapOneRowPerCounty: a code carried under two county names gives that feature two map rows. The lemma therefore assumes that each code names one county.
- Colors.Truncate: only non-negative arguments occur after the clamp, so the contract speaks only of those.
- Dashboard.UpdateDashboard: the pieces of a dashboard are returned as a record of the three views; their layout is not modelled.
- Reading `AGE_BAND` back as a categorical column is not modelled. Which all-zero band columns `pd.crosstab` displays is also left out: the model keeps all twenty columns, and a band with no rows has 0 in every row.
