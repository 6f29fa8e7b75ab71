# Hypertension dashboard: age buckets and group means

This project models the data pipeline of a small dashboard on hypertension
in Mexico (`app.py`). The script works on a survey table with the columns
`edad` (age), `sexo` (sex code) and `riesgo_hipertension` (risk fraction).
It changes that table in place in two steps:

- it adds the column `Grupo_Edad`, one of `Niños`, `Jóvenes`, `Adultos` or `Adultos Mayores`;
- it replaces the codes in `sexo` with the labels `Hombre` (1) and `Mujer` (2).

For each selection of age groups made in the dropdown, `update_graph` keeps
the rows of the selected groups. It groups them by (`sexo`, `Grupo_Edad`),
takes the mean risk per group and multiplies it by 100 into `Riesgo (%)`.

Modules:

- `wrappers.dfy` (`Wrappers`): `Option`, which stands for a value that may be missing.
- `age_groups.dfy` (`AgeGroups`): `categorize_age`, its labels, and the bucket intervals written from the thresholds 18, 36 and 61.
- `sex_labels.dfy` (`SexLabels`): the `sexo_labels` dictionary and how a code is looked up in it.
- `risk_pipeline.dfy` (`RiskPipeline`): the rows, the `isin` filter, `unique()`, the groupby mean and `Riesgo (%)`, all as functions. It also holds the lemmas about the chart input.
- `frame.dfy` (`Frames`): the frame as a class whose column fields the script overwrites, and `update_graph` as a method on it.

The groupby mean is modelled as one pass over the rows that adds each risk
into a per-group tally (`Totals`). `GroupRows` and `Sum` give the reference
definition of a group: the rows that carry its key. `TotalsAreGroupTallies`
proves that the two agree. Risks are exact `real` numbers.

Facts about `app.py` that the model keeps:

- The sex labels are the two strings of `sexo_labels`, `Hombre` and `Mujer`.
- Negative ages are not rejected. The test `edad < 18` puts them in `Niños`.
- pandas sorts the groupby keys. The model claims no order at all: the grouped output is a map keyed by (sex label, age-group label).
- `RiskPipeline.Example` charts the records (17, 1, 0.2), (40, 1, 0.4) and (70, 2, 0.6) with every group selected.

## Model

| member | source | states |
|---|---|---|
| AgeGroups.CategorizeAge | app.py:37-45 | every integer age, negative ones too, gets a bucket whose half-open interval [THRESHOLDS[n-1], THRESHOLDS[n]) contains the age |
| AgeGroups.BucketsPartition | app.py:37-45 | an age lies in a bucket's interval exactly when categorize_age picks that bucket: the intervals leave no gap and do not overlap |
| AgeGroups.LabelIsOneOfFour | app.py:37-45 | the label of every age is one of the four group names, and reading it back gives the bucket again |
| AgeGroups.GroupOfName | app.py:37-45 | a text names a bucket exactly when it is one of the four labels, and then it is that bucket's label |
| AgeGroups.NameInjective | app.py:38-45 | distinct buckets have distinct labels |
| AgeGroups.Boundaries | app.py:38-45 | negative ages are Niños; 17 is Niños and 18 Jóvenes, 35 is Jóvenes and 36 Adultos, 60 is Adultos and 61 Adultos Mayores |
| AgeGroups.Monotone | app.py:38-45 | if a <= b then the bucket of a comes at or before the bucket of b in Niños < Jóvenes < Adultos < Adultos Mayores |
| SexLabels.SexLabel | app.py:52-54 | code 1 gets the label Hombre exactly, code 2 gets Mujer exactly, and every other code gets no label |
| SexLabels.LabelSet | app.py:52 | the dictionary's labels are exactly Hombre and Mujer |
| SexLabels.LabelValues | app.py:52-54 | every label a code gets is one of the dictionary's labels |
| SexLabels.LabelInjective | app.py:52 | two codes with the same label are the same code |
| Frames.MapSexoCell | app.py:54 | mapping a cell gives Hombre exactly for the code 1, Mujer exactly for the code 2 and a missing value for everything else; no raw code survives |
| Frames.Frame.constructor | app.py:32 | the loaded frame holds the records' edad, sexo codes and risks, with no Grupo_Edad column yet |
| Frames.Frame.AssignAgeGroups | app.py:48 | Grupo_Edad becomes, row by row, the label of categorize_age of edad; the other columns are unchanged |
| Frames.Frame.MapSexo | app.py:54 | every sexo cell is replaced by its mapping through sexo_labels; the other columns are unchanged |
| Frames.Load | app.py:32-54 | after loading and both column assignments the frame is prepared and its rows are the prepared records |
| Frames.Frame.UpdateGraph | app.py:85-89 | the grouped table of update_graph is the chart input of the frame's rows for the selection |
| RiskPipeline.PrepareRow | app.py:48-54 | a prepared row's Grupo_Edad names the bucket categorize_age picks for edad; its sexo is Hombre exactly for code 1, Mujer exactly for code 2 and missing for every other code; its risk is the record's |
| RiskPipeline.PrepareRows | app.py:48-54 | the prepared frame has one row per record, in order; each row's Grupo_Edad names the bucket categorize_age picks for the record's edad, its sexo is Hombre exactly for code 1, Mujer exactly for code 2 and missing for every other code, and its risk is the record's |
| RiskPipeline.Unique | app.py:71-72 | unique() lists exactly the values of the column, each once |
| RiskPipeline.DefaultSelection | app.py:72 | the dropdown's default value holds exactly the age groups present in the frame, each once |
| RiskPipeline.UniqueExtends | app.py:71-72 | unique() keeps first-occurrence order: the unique values of a prefix are a prefix of the unique values of the whole column |
| RiskPipeline.DefaultSelectionKeepsAll | app.py:72 | with the default selection, every group present in the frame, the filter returns the frame unchanged |
| RiskPipeline.FilterGroups | app.py:87 | a row is kept exactly when it is a row of the frame whose Grupo_Edad is selected |
| RiskPipeline.FilterCounts | app.py:87 | the filter keeps each row of a selected group as often as it occurs and drops every other row |
| RiskPipeline.FilterAppend | app.py:87 | the filter keeps relative order: filtering a concatenation is concatenating the filtered parts |
| RiskPipeline.FilterKeepsAll | app.py:87 | when every row's group is selected, the filter returns its input |
| RiskPipeline.GroupRowsMembers | app.py:88 | a group holds exactly the rows that carry its key |
| RiskPipeline.Totals | app.py:88 | every tally of the one-pass grouping counts at least one row |
| RiskPipeline.TotalsAreGroupTallies | app.py:88 | the one-pass tally has an entry for a key exactly when its group is non-empty, and the entry is the group's risk sum and size |
| RiskPipeline.GroupByMean | app.py:88 | the groupby has an entry exactly for each non-empty group of its input, and that entry is the mean risk of the group's rows |
| RiskPipeline.GroupOccurs | app.py:88 | a group is non-empty exactly when some row carries its (sexo, Grupo_Edad) key, so only pairs that occur in the input appear in the groupby |
| RiskPipeline.FilterKeepsGroups | app.py:87-88 | filtering drops whole groups only: a selected group keeps all its rows, an unselected one has none |
| RiskPipeline.FilterThenGroup | app.py:87-88 | grouping the filtered rows is grouping all rows and keeping the selected groups |
| RiskPipeline.UnlabelledRowIgnored | app.py:54-88 | a row with no sex label, anywhere in the frame, changes neither the tallies nor the means |
| RiskPipeline.WithRiskPercent | app.py:89 | adding Riesgo (%) keeps the set of groups |
| RiskPipeline.ChartInput | app.py:87-89 | the chart has an entry exactly for each selected, non-empty group of the whole frame; its riesgo is the mean of all that group's rows and its Riesgo (%) is 100 times that mean |
| RiskPipeline.ChartKeysOccur | app.py:87-89 | a chart entry exists exactly for each pair whose age group is selected and that some row of the frame carries |
| RiskPipeline.SingletonGroup | app.py:88-89 | a selected group of one record charts that record's risk times 100 |
| RiskPipeline.MeanOfOne | app.py:88 | the mean of a group of one row is that row's risk |
| RiskPipeline.SumBounds | app.py:88 | risks between 0 and 1 sum to between 0 and the number of rows |
| RiskPipeline.PercentInRange | app.py:88-89 | when every risk lies in [0, 1], every Riesgo (%) lies in [0, 100] |
| RiskPipeline.PreparedRowsWellFormed | app.py:48-54 | every prepared row has a known sex label or none, and one of the four age labels |
| RiskPipeline.AllKeysCount | app.py:52-54 | there are exactly 2 x 4 = 8 (sex label, age-group label) pairs |
| RiskPipeline.KnownKey | app.py:48-54 | a pair of a known sex label and a known age label is one of those eight pairs |
| RiskPipeline.AtMostEight | app.py:88 | the chart of well-formed rows has at most 2 x 4 = 8 rows, whatever is selected |
| RiskPipeline.Example | app.py:37-89 | records (17, 1, 0.2), (40, 1, 0.4), (70, 2, 0.6) with every group selected chart (Hombre, Niños, 20), (Hombre, Adultos, 40) and (Mujer, Adultos Mayores, 60) |

## Left out

- The CSV URL from the environment and the `requests.head` check that exits with status 1 (app.py:16-28): network I/O and process control.
- `pd.read_csv` and its `ParserError` and generic exception handlers (app.py:32, app.py:107-110): parsing is a foreign library, and the handlers only log. The frame's constructor takes the records already parsed.
- Every `logger` call: no behaviour to state.
- The Dash app, its layout, the dropdown widget, the callback wiring, the `px.bar` figure with its colour map, and `run_server` (app.py:57-105): UI and third-party rendering. The selection enters `UpdateGraph` as a parameter, and the dropdown's default value is `DefaultSelection`.
- Floating-point rounding of the mean and of the product by 100: risks are exact reals.
- The row order of the grouped table: pandas sorts the groupby keys, and the model is a map with no order.
- NaN semantics in general: ages are integers and risks are reals. A NaN `edad` fails all three comparisons at app.py:38-42, so the script charts it as `Adultos Mayores`; the model has no such age. A NaN `riesgo_hipertension` is not modelled either. Of pandas dropping NaN group keys, only "a row without a sex label is in no group" is modelled.
- The line-89 column assignment on `grouped`: `grouped` is a fresh local frame that nothing else references, so `WithRiskPercent` models it as a value, not as an update in place.
