# Sales feature engineering, modelled in Dafny

This project models the snapshot feature engine of a sales-forecasting pipeline.
For one snapshot date it turns a ledger of order lines into three tables:

- **base features**: the two-month trailing order quantity of ordinary trade per
  entity, left-joined with cancellation and return features and stamped with the
  date (`generate_base_features`);
- **targets**: the forward sales quantity over the next `TARGET_DURATION` months
  (`generate_targets`);
- **macro features**: the three-month trailing order quantity at a coarser
  granularity, flattened, renamed and annotated (`generate_macro_features`).

All three are built from feature-set descriptions (`create_target_dict`,
`create_base_features_dict`, `create_macro_features_dict`). These are evaluated by
`return_feature_columns`. It adds derived columns to a copy of the ledger and
runs one windowed, grouped sum per named aggregation (`create_a_grouped_feature`).
Then it puts the results side by side.

Modules:

- `Outcomes` (outcomes.dfy): `Option`, and `Result` with the errors the pandas code
  raises: a missing column, an empty group key, an empty concatenation, and an
  unknown granularity name.
- `Dates` (dates.dfy): calendar dates and month offsets. A month offset clamps the
  day to the target month, as a month `DateOffset` does.
- `Sales` (sales.dfy): ledger rows and boolean-mask views. A grouping key is
  missing when any of its values is missing.
- `FeatureConfig` (feature_config.dfy): the feature-set records and their three
  builders.
- `Frames` (frames.dfy): a pandas table as a value `Frame` (index levels, labels,
  named columns). It has concat, left merge on the index, scalar assignment,
  `reset_index` and column renaming. A `Table` class holds a frame whose columns
  are assigned and renamed in place.
- `Aggregation` (aggregation.dfy): `create_a_grouped_feature`.
- `FeatureAssembly` (assembly.dfy): `create_a_column` and `return_feature_columns`.
  The latter is a method with a loop that adds derived columns on a copy.
- `FeatureEngineering` (feature_engineering.dfy): the three generators. Each is a
  method that builds a `Table` in place, and each is proved equal to a function
  that computes the same table as a value.

Conventions taken from pandas:

- A row whose grouping key has a missing value is dropped by `groupby`.
- A missing quantity adds nothing to a sum.
- A window `{"months": 0}` is truthy, so the window filter applies and selects
  nothing.
- A repeated aggregation name keeps the position of its first occurrence and the
  value of its last one, as in a dict comprehension.
- A left merge suffixes overlapping column names with `_x` and `_y`.
- `df[c] = v` overwrites every column called `c`, or appends `c` as the last column.

## Model

| member | source | states |
|---|---|---|
| FeatureConfig.TargetSpec | src/feature_config.py:18-31 | grouped by the given columns, no derived columns, one aggregation "target" of "sales_quantity" over a `T`-month window whose snapshot is the cutoff plus `T` months |
| FeatureConfig.BaseSpec | src/feature_config.py:42-55 | grouped by the given columns, no derived columns, one aggregation "f_order_quantity_2mths" of "sales_order_item_quantity", 2-month window, snapshot at the cutoff |
| FeatureConfig.MacroSpec | src/feature_config.py:63-76 | grouped by the given columns, no derived columns, one aggregation "f_order_quantity_3mths" of "sales_order_item_quantity", 3-month window, snapshot at the cutoff |
| Dates.AddMonths | src/feature_config.py:26 | `x + DateOffset(months=k)` moves exactly `k` calendar months and clamps the day to the new month's length |
| Dates.SubMonths | src/feature_engineering.py:61 | `x - DateOffset(months=k)` moves back exactly `k` calendar months and clamps the day |
| Dates.BeforeIsStrictTotalOrder | src/feature_engineering.py:56 | the date comparison used by the cut-off filter is irreflexive, asymmetric, transitive and total |
| Dates.MonthOrder | src/feature_engineering.py:61 | an earlier calendar month means an earlier date; an earlier date is never in a later month |
| Dates.ShiftByZero | src/feature_engineering.py:61 | a zero-month offset is the identity in both directions |
| Dates.ShiftMoves | src/feature_engineering.py:61 | an offset of at least one month moves strictly forward or backward |
| Dates.MonthStartsStay | src/config.py:65-69 | month-start snapshot dates stay month starts under month offsets |
| Dates.ShiftBackUndoesShift | src/feature_config.py:25-26 | forward `k` months then back `k` months returns any date whose day is at most 28 |
| Dates.MonthEndClamps | src/feature_config.py:26 | 31 January plus one month is the last day of February |
| Dates.ShiftBackLosesMonthEnd | src/feature_config.py:25-26 | 31 January plus one month minus one month is 28 or 29 January, not 31 January |
| Sales.KeyOf | src/feature_engineering.py:64 | a row has a grouping key exactly when every grouping column has a value, and the key lists those values in order |
| Sales.Where | src/feature_engineering.py:56 | a boolean mask keeps exactly the rows satisfying it, never more rows than it was given |
| Sales.WhereAppend | src/feature_engineering.py:56 | masking distributes over concatenation of row lists |
| Sales.WhereNone | src/feature_engineering.py:56 | a mask rejecting every row yields no rows |
| Sales.WhereAgree | src/feature_engineering.py:56 | masks that agree on every row select the same rows in the same order |
| Sales.WhereWhere | src/feature_engineering.py:56-62 | the cut-off mask followed by the window mask equals the single conjoined mask |
| Sales.View | src/feature_engineering.py:126-138 | `df[mask]` keeps the columns and exactly the rows satisfying the mask |
| Sales.IsReturn | src/feature_engineering.py:126 | the return mask: the line's type is "Return" |
| Sales.IsCancellation | src/feature_engineering.py:129 | the cancellation mask: the rejection status is "C", whatever the type |
| Sales.IsOrdinaryTrade | src/feature_engineering.py:134-135 | the trade mask: type "Trade" and rejection status other than "C" |
| Sales.TradeViewIsDisjoint | src/feature_engineering.py:126-138 | no row is both ordinary trade and a return, or both ordinary trade and a cancellation |
| Sales.DropMissingKeys | src/feature_engineering.py:214-215 | keeps the columns and exactly the rows with a value in every grouping column |
| Sales.HasCompleteKey | src/feature_engineering.py:214-215 | the row filter keeps a line exactly when every grouping column has a value |
| Aggregation.InWindow | src/feature_engineering.py:55-62 | a date is inside only when it is before the snapshot, and with a window not before snapshot minus the window; nothing at or after the snapshot is inside |
| Aggregation.WindowFilter | src/feature_engineering.py:55-62 | the date filter as a row mask never keeps a line dated on or after the snapshot |
| Aggregation.Window | src/feature_engineering.py:55-62 | keeps exactly the rows dated before the snapshot and, with a window, not before snapshot minus the window |
| Aggregation.Totals | src/feature_engineering.py:64-66 | the groupby-sum accumulated row by row; every key has one value per grouping column |
| Aggregation.TotalsAreGroupSums | src/feature_engineering.py:64-66 | the grouped sums have exactly the keys present among the rows, with no zero-filled keys, and each key holds the sum over its own rows |
| Aggregation.FirstMissing | src/feature_engineering.py:64 | reports a grouping column absent from the ledger exactly when there is one |
| Aggregation.GroupedFeature | src/feature_engineering.py:55-67 | fails exactly when there is no grouping column or a grouping or source column is missing; no grouping column raises "No group keys passed!", otherwise the error names a missing grouping column or the missing source column; a success is a one-column table named after the aggregation, indexed by the grouping columns |
| Aggregation.GroupedFeatureMeaning | src/feature_engineering.py:55-67 | the entities are exactly the keys of rows inside the window, and each value is the sum of the source column over that entity's rows inside the window |
| Aggregation.GroupedFeatureIsSeries | src/feature_engineering.py:64-67 | a successful aggregation is the series of grouped sums over the window |
| Aggregation.SameWindowSameFeature | src/feature_engineering.py:55-67 | two ledgers with the same columns and the same rows inside the window aggregate alike |
| Aggregation.WindowSkips | src/feature_engineering.py:55-62 | the date filter drops a block of rows outside the window as if it were absent |
| Aggregation.OutsideWindowIgnored | src/feature_engineering.py:55-62 | rows outside the window never change the aggregate, wherever they sit in the ledger |
| Aggregation.NoLookAhead | src/feature_engineering.py:55-56 | rows dated on or after the snapshot never change the aggregate |
| Aggregation.WindowBounds | src/feature_engineering.py:55-62 | snapshot minus `w` months is inside for `w >= 1`; the snapshot itself is outside; a zero-month window holds nothing |
| Aggregation.UnboundedWindow | src/feature_engineering.py:58-59 | without a window every row dated before the snapshot counts |
| Aggregation.TotalsCons | src/feature_engineering.py:56-66 | one more row in front is credited to the sums exactly when it is inside the window |
| Aggregation.RowOutsideIgnored | src/feature_engineering.py:56-66 | a row outside the window, or with a missing key value, changes nothing |
| Aggregation.RowInsideCounted | src/feature_engineering.py:56-66 | a row inside the window with a complete key adds its quantity to its key, creating it if new, and leaves every other key alone |
| Aggregation.WindowCons | src/feature_engineering.py:55-62 | the window of a ledger with one more row in front gains that row exactly when it is inside the window |
| Aggregation.TargetWindowIsForward | src/feature_config.py:25-26 | for a month-start cutoff `D` the target aggregates exactly the dates in `[D, D + T months)` |
| Aggregation.TargetWindowReachesBackAtMonthEnd | src/feature_config.py:25-26 | for a 31 January cutoff and `T = 1` the target window starts before the cutoff |
| Aggregation.BaseWindowIsTrailing | src/feature_config.py:49-51 | base features aggregate exactly the dates in `[D - 2 months, D)` |
| Aggregation.MacroWindowIsTrailing | src/feature_config.py:70-72 | macro features aggregate exactly the dates in `[D - 3 months, D)` |
| FeatureAssembly.ColumnValues | src/feature_engineering.py:17-30 | the derived column holds the definition's function applied to each row, one value per row |
| FeatureAssembly.SetMeasure | src/feature_engineering.py:94-96 | the row gets the new value under the column's name; every other field of the row is unchanged |
| FeatureAssembly.WithMeasure | src/feature_engineering.py:94-96 | assigning a derived column adds it to the schema and changes no other column of any row |
| FeatureAssembly.AddColumns | src/feature_engineering.py:91-96 | adding derived columns in turn extends the schema by their names, keeps the row count, and leaves every row's date, type, status and every other attribute and quantity unchanged |
| FeatureAssembly.AddColumnsValues | src/feature_engineering.py:91-96 | on every row a derived column holds its last definition's function applied to the row as the earlier definitions left it |
| FeatureAssembly.AddColumnsAppend | src/feature_engineering.py:91-96 | derived columns are computed row by row: adding them commutes with concatenating ledgers |
| FeatureAssembly.Upsert | src/feature_engineering.py:97-102 | the dictionary holds the new entry and nothing but old entries and the new one |
| FeatureAssembly.UpsertNew | src/feature_engineering.py:97-102 | a new name is appended at the end |
| FeatureAssembly.UpsertExisting | src/feature_engineering.py:97-102 | an existing name keeps its position and takes the new value |
| FeatureAssembly.Evaluate | src/feature_engineering.py:97-102 | one outcome per aggregation, in list order, each its name with its grouped feature |
| FeatureAssembly.Build | src/feature_engineering.py:97-102 | the comprehension fails exactly when some aggregation fails, and then with the error of the first one that fails; every entry comes from a successful aggregation; a non-empty list gives a non-empty dictionary |
| FeatureAssembly.Collect | src/feature_engineering.py:97-102 | succeeds exactly when every aggregation succeeds; otherwise raises the first failing aggregation's error; every collected table is valid and indexed by the grouping columns; a non-empty list gives a non-empty dictionary |
| FeatureAssembly.Distinct | src/feature_engineering.py:97-102 | the dictionary's keys: each name once, the same names as the list |
| FeatureAssembly.BuildLastWins | src/feature_engineering.py:97-102 | the dictionary's keys are the distinct names in order of first appearance, and each holds the last outcome of that name |
| FeatureAssembly.BuildLayout | src/feature_engineering.py:97-104 | concatenating the dictionary's values gives one column per distinct name, each the last aggregation of that name |
| FeatureAssembly.ConcatLayout | src/feature_engineering.py:104 | concatenating one-column tables keyed by name puts each table in its own column under its key |
| FeatureAssembly.Assemble | src/feature_engineering.py:97-104 | succeeds exactly when the aggregation list is non-empty and every aggregation succeeds; otherwise raises the first failing aggregation's error, or the empty-concatenation error for an empty list; the result is indexed by the grouping columns |
| FeatureAssembly.AssembleLayout | src/feature_engineering.py:97-104 | the columns are the distinct aggregation names, each the last aggregation of that name over the prepared ledger |
| FeatureAssembly.FeatureColumns | src/feature_engineering.py:91-104 | succeeds exactly when the aggregation list is non-empty and every aggregation succeeds on the ledger with its derived columns; otherwise raises the first failing aggregation's error, or the empty-concatenation error for an empty list; the result is indexed by the grouping columns |
| FeatureAssembly.FeatureColumnsLayout | src/feature_engineering.py:91-104 | one column per distinct aggregation name in order of first appearance; each column is the last aggregation of that name over the ledger with the derived columns added |
| FeatureAssembly.ReturnFeatureColumns | src/feature_engineering.py:70-104 | the loop over derived columns on a copy, then the aggregation, computes exactly `FeatureColumns` |
| FeatureAssembly.AddColumnsOnCopy | src/feature_engineering.py:91-96 | assigning each derived column in turn to the copy gives the ledger `AddColumns` describes |
| FeatureAssembly.SingleAggregation | src/feature_engineering.py:91-104 | a feature set with no derived columns and one aggregation yields exactly that aggregation, including its errors |
| FeatureAssembly.IrrelevantRowsIgnored | src/feature_engineering.py:91-104 | rows outside every aggregation's window never change the feature table |
| Frames.Series | src/feature_engineering.py:64-67 | a one-column table whose labels are exactly the keys of the sums, holding each sum |
| Frames.Concat | src/feature_engineering.py:104 | concatenating no tables fails; one table is returned unchanged; otherwise a valid table on the shared index |
| Frames.ConcatParts | src/feature_engineering.py:104 | the concatenation holds every label of every table and the tables' columns in list order |
| Frames.ConcatOfColumns | src/feature_engineering.py:104 | concatenating one-column tables gives their columns side by side in list order |
| Frames.LeftJoin | src/feature_engineering.py:140-150 | a left merge keeps exactly the left labels, the left columns as they were, then the right columns cut down to the left labels; a name both sides share becomes name + "_x" on the left and name + "_y" on the right, and every other name is kept |
| Frames.LeftJoinNoClash | src/feature_engineering.py:140-150 | without clashing names the columns are the left names then the right names |
| Frames.LeftJoinTwiceNoClash | src/feature_engineering.py:140-150 | two merges without clashing names keep every column name in order: first table, second, third |
| Frames.LeftJoinTwiceData | src/feature_engineering.py:140-150 | after two merges the first table's columns are unchanged and the joined-in columns are cut down to the first table's labels, in order |
| Frames.WithNewColumn | src/feature_engineering.py:152 | assigning a scalar under a new name appends one column, constant on every row, and leaves the other columns alone |
| Frames.WithColumn | src/feature_engineering.py:152 | scalar assignment fills every column of that name with the value on every label, or appends a new last column; other columns are untouched |
| Frames.ResetIndex | src/feature_engineering.py:217 | the index levels become the first columns, holding each label's key values; the other columns follow unchanged |
| Frames.RenameAfter | src/feature_engineering.py:221 | the first `n` names are unchanged and every later name gets the suffix |
| Frames.Table.Assign | src/feature_engineering.py:152 | in place: the table becomes its old value with the scalar column assigned |
| Frames.Table.SetColumns | src/feature_engineering.py:221 | in place: the table keeps its columns under the new names |
| FeatureEngineering.ListRepr | src/feature_engineering.py:224 | Python's `str` of a list of names: `[]` for none and `['c']` for one; `ListReprCons` gives a longer list's text |
| FeatureEngineering.ListReprCons | src/feature_engineering.py:224 | a longer list's text is the first name quoted, then ", " and the text of the rest |
| FeatureEngineering.ListReprInjective | src/feature_engineering.py:224 | for names without a quote, equal texts come from equal key lists, so the `attributes` stamp identifies the key columns |
| FeatureEngineering.BaseFeaturesOf | src/feature_engineering.py:107-154 | succeeds exactly when the return, cancellation and base tables all succeed; otherwise raises the return table's error, else the cancellation table's, else the base table's; the result is valid and indexed by the final granularity |
| FeatureEngineering.Joined | src/feature_engineering.py:140-152 | the two merges and the stamp keep exactly the base table's labels and index |
| FeatureEngineering.ReturnTable | src/feature_engineering.py:120-126 | the return features are valid on the return builder's key, and an empty return spec raises the empty-concatenation error |
| FeatureEngineering.CancelTable | src/feature_engineering.py:121-130 | the cancellation features are valid on the cancellation builder's key, and an empty spec raises the empty-concatenation error |
| FeatureEngineering.BaseTable | src/feature_engineering.py:124-138 | the base features proper are valid and indexed by the final granularity |
| FeatureEngineering.GenerateBaseFeatures | src/feature_engineering.py:107-154 | succeeds exactly when `BaseFeaturesOf` does, with the same error otherwise; on success a fresh table holding `BaseFeaturesOf` |
| FeatureEngineering.BaseFeaturesUnfold | src/feature_engineering.py:126-150 | a successful run has all three tables computed and is their join |
| FeatureEngineering.BaseTableShape | src/feature_engineering.py:124-138 | the base table is the single 2-month order-quantity aggregation over ordinary trade, one column named "f_order_quantity_2mths" |
| FeatureEngineering.JoinedKeepsBase | src/feature_engineering.py:140-152 | the joins keep exactly the base entities and the base feature in front, unless a merge suffix renames it to `snap_date`; the stamp holds the snapshot date on every row |
| FeatureEngineering.JoinedNames | src/feature_engineering.py:140-152 | without clashing names the column names are base, cancellation, return, then `snap_date`, which holds the snapshot date on every row |
| FeatureEngineering.JoinedData | src/feature_engineering.py:140-152 | whatever the column names, the base columns are unchanged and the cancellation and return columns keep their values only for base entities, provided the stamp's name is not one of the joined names |
| FeatureEngineering.JoinedColumnOrder | src/feature_engineering.py:140-152 | without clashing names the columns are base, cancellation, return, then `snap_date`; cancellation and return values survive only for base entities |
| FeatureEngineering.JoinedAfterBase | src/feature_engineering.py:140-152 | the same column order for a base table holding only "f_order_quantity_2mths" |
| FeatureEngineering.BaseFeaturesKeepBaseEntities | src/feature_engineering.py:140-154 | the base-feature entities are exactly the base table's; its first column is the base feature; `snap_date` holds the snapshot date on every row |
| FeatureEngineering.BaseFeatureIsTrailingTradeSum | src/feature_engineering.py:124-138 | entities are exactly the keys of ordinary trade lines dated in `[snap - 2 months, snap)`, each holding its order-quantity sum there |
| FeatureEngineering.ViewIgnores | src/feature_engineering.py:126-138 | after any row mask, rows outside every window never change the feature table |
| FeatureEngineering.FutureOutsideWindow | src/feature_engineering.py:55-56 | a date on or after the snapshot is outside any aggregation whose own snapshot is not later |
| FeatureEngineering.BaseFeaturesIgnoreFuture | src/feature_engineering.py:120-154 | no look-ahead: lines dated on or after the snapshot change nothing, when the return and cancellation specs do not look past it either |
| FeatureEngineering.TargetsOf | src/feature_engineering.py:157-186 | the target table is valid and indexed by the final granularity |
| FeatureEngineering.GenerateTargets | src/feature_engineering.py:157-186 | succeeds exactly when `TargetsOf` does, with the same error otherwise; on success a fresh table holding `TargetsOf` |
| FeatureEngineering.TargetsUnfold | src/feature_engineering.py:170-182 | the targets succeed exactly when the target aggregation over ordinary trade does, and are it stamped with the date; otherwise they raise the aggregation's error |
| FeatureEngineering.TargetsAreForwardTradeSums | src/feature_engineering.py:170-182 | for a month-start snapshot the columns are "target" then `snap_date`; entities are exactly the keys of ordinary trade in `[snap, snap + T months)`, each holding its sales sum there; the stamp holds the date |
| FeatureEngineering.TargetsIgnoreOutsideHorizon | src/feature_engineering.py:170-178 | lines dated before a month-start snapshot, or at or after the horizon end, never change the targets |
| FeatureEngineering.MacroFeaturesOf | src/feature_engineering.py:189-227 | an unknown granularity name fails with that name; a result is valid and has a plain row index |
| FeatureEngineering.Annotated | src/feature_engineering.py:217-225 | flattening and stamping keep exactly the grouped table's entities |
| FeatureEngineering.Flattened | src/feature_engineering.py:217-221 | after `reset_index` and the rename, the key columns hold each entity's key values |
| FeatureEngineering.GenerateMacroFeatures | src/feature_engineering.py:189-227 | succeeds exactly when `MacroFeaturesOf` does, with the same error otherwise; on success a fresh table holding `MacroFeaturesOf` |
| FeatureEngineering.MacroUnfold | src/feature_engineering.py:208-217 | with a known granularity the macro table succeeds exactly when the 3-month aggregation over complete-key lines does, and is it flattened and annotated; otherwise it raises the aggregation's error |
| FeatureEngineering.FlattenedLayout | src/feature_engineering.py:217-221 | the key column names are kept and the feature column is renamed with "_" and the granularity name |
| FeatureEngineering.StampsAppend | src/feature_engineering.py:223-225 | three new stamps are appended in order after the untouched columns, each constant on every row |
| FeatureEngineering.AnnotatedStamps | src/feature_engineering.py:217-225 | the annotated table is the renamed table followed by `snap_date`, `attributes` and `groupby_name` |
| FeatureEngineering.AnnotatedLayout | src/feature_engineering.py:217-225 | names are the key columns, the suffixed feature, then the three stamps; the feature column is the aggregation's; the stamps hold the date, the key list's text and the granularity name |
| FeatureEngineering.AnnotatedNames | src/feature_engineering.py:217-225 | names are the key columns, the suffixed feature, then `snap_date`, `attributes` and `groupby_name` |
| FeatureEngineering.AnnotatedColumns | src/feature_engineering.py:217-225 | the feature column is the aggregation's; the stamps hold the date, the key list's text and the granularity name on every row |
| FeatureEngineering.AnnotatedKeys | src/feature_engineering.py:217-221 | the key columns hold each entity's key values |
| FeatureEngineering.MacroLayout | src/feature_engineering.py:208-227 | names are the key columns, "f_order_quantity_3mths" with the granularity suffix, `snap_date`, `attributes`, `groupby_name`; key columns hold the keys; the feature holds each entity's 3-month sum; the stamps are constant |
| FeatureEngineering.MacroNames | src/feature_engineering.py:217-225 | when no key column bears a stamp name, the columns are the keys, the suffixed feature, then `snap_date`, `attributes`, `groupby_name` |
| FeatureEngineering.SuffixesDiffer | src/feature_engineering.py:221 | two different granularity names make the same aggregation name into two different column names |
| FeatureEngineering.LayoutsIsolated | src/feature_engineering.py:217-225 | two macro layouts at different granularities share no non-key name but the three stamps |
| FeatureEngineering.MacroGranularitiesIsolated | src/feature_engineering.py:208-225 | granularity isolation: macro tables of two different granularities have different feature column names and share no non-key column but `snap_date`, `attributes` and `groupby_name` |
| FeatureEngineering.MacroEntities | src/feature_engineering.py:210-217 | the macro aggregation's entities are exactly the complete keys of lines in `[snap - 3 months, snap)` |
| FeatureEngineering.MacroFeatureIsTrailingSum | src/feature_engineering.py:208-217 | a successful run means the granularity is known, and its entities are exactly the complete keys of lines in `[snap - 3 months, snap)` |
| FeatureEngineering.MacroFeaturesIgnoreFuture | src/feature_engineering.py:208-217 | no look-ahead: lines dated on or after the snapshot never change the macro features |

## Left out

- Logging (`log.info`) and the `joblib` import do nothing the model can observe and are not modelled.
- `create_return_features_dict` and `create_cancellation_features_dict` are called by `generate_base_features` but are not defined in `src/feature_engineering.py` or any module it imports. They are parameters (`SpecBuilder`) supplied by the caller.
- `prepare_order_dates` is not defined in `src/feature_engineering.py` or any module it imports. The ledger's order dates are taken as already prepared, so it is the identity in the model.
- `remove_missing_values` is not defined in `src/feature_engineering.py` or any module it imports. It is modelled by its documented effect: drop the rows with a missing value in a grouping column (`Sales.DropMissingKeys`).
- The global configuration class (src/config.py) is not part of this model. The generators take a `Config` value holding the target duration, the final granularity and the granularity dictionary. The snapshot dates' month-start property is an explicit hypothesis where it matters.
- `FeatureAssembly.ColumnValues`: a derived column's function is modelled as a function of one row, giving an integer quantity. A function that reads the whole frame, such as a rolling or shifted column, is not modelled.
- The aggregation function is always `sum` in these feature sets. Other aggregation functions, and floating-point quantities, are not modelled; quantities are integers.
- Grouping columns are attribute columns, and aggregated columns are quantity columns. A derived column is a quantity column, so grouping on a derived column fails as a missing column.
- Order dates are calendar days. Time of day is not modelled, so the window bounds are at midnight.
- `Frames.LeftJoin` matches whole index labels and ignores the names of the index levels. pandas joins two indexes on their shared level names, and raises when they share none. The two agree when both tables are keyed on the same columns, as every builder defined in `src/feature_config.py` keys its feature set on the columns it is given. The return and cancellation builders are not defined in `src/feature_engineering.py` or any module it imports. If one of them keys its table on other columns, the model gives an empty joined column where pandas would align on the shared levels or raise.
- The pandas `MergeError` raised when names still clash after the `_x`/`_y` suffixes is not modelled. Neither is the error `reset_index` raises when a key column name is already a column name.
- Row order in the output tables is not modelled. A table is a set of labels with one map per column.
- `FeatureEngineering.ListRepr` follows Python's `str` of a list of plain strings. It does not model the escaping of quotes or backslashes inside names.
- `Frames.Table.SetColumns` requires as many new names as columns, where pandas raises a length mismatch. The renaming in `generate_macro_features` always supplies that many.
- `FeatureEngineering.BaseFeaturesIgnoreFuture` needs the return and cancellation aggregations to have snapshots not after the base snapshot. Their builders are not defined in `src/feature_engineering.py` or any module it imports, so the model cannot show it.
- `FeatureEngineering.JoinedColumnOrder`, `FeatureEngineering.JoinedAfterBase`, `FeatureEngineering.JoinedNames` and `FeatureEngineering.MacroLayout` state the column names only when no names clash. With clashes, pandas suffixes the names, which `Frames.LeftJoin` states, or a stamp overwrites a key column. `FeatureEngineering.JoinedData` states the column values whatever the names, as long as the stamp does not fall on a joined column.
- With no aggregations, `pd.concat` gets an empty list and raises; the model returns `Err(NothingToConcatenate)` (`FeatureAssembly.Assemble`).
- As written, the two core files would not load. `src/feature_config.py` mixes two- and four-space indentation inside `create_target_dict` and `create_base_features_dict`. `src/feature_engineering.py` imports from `features_config`, not `feature_config`. The model follows the evident intent of both.
- The copy made by `df.copy()` is implicit: ledgers and frames are values, so the caller's data can never be altered.
