# Crypto-signal study scripts, modelled in Dafny

This project models the pure logic of a research pipeline. The pipeline
trains CatBoost classifiers on "normal" (numeric) and "fuzzy" (membership
degree) features of crypto assets. It compares them with two naive
baselines and draws report charts and SHAP explanation charts. Everything
below is written as pure functions over sequences, strings and reals, with
lemmas for the properties the scripts rely on.

The modules follow the scripts:

- `Labels` (labels.dfy): the target builder that the training script and
  both baseline scripts share. It covers forward h-step returns, the 100-row
  guard and the chronological 80/20 cut. Tertile cutoffs are fitted on the
  training slice only. Labelling uses right-closed bins with the outer edges
  widened to -inf/+inf.
- `Training` (training.dfy): the purged time-series folds and the
  single-class fold filter. Also the penalised objective (mean minus standard
  deviation), the inner merge on `date` followed by `dropna`, the NORMAL and
  FUZZY jobs of each (ticker, horizon), and the ticker loop with its
  exception handler.
- `Baselines` (baselines.dfy): the majority-class and persistence
  benchmarks, with one-hot probability rows. Also the two scripts' file
  loops, including the fuzzy script's `close`-column guard.
- `Membership` (membership.dfy): the triangular fuzzy membership function.
- `Profiles` (profiles.dfy): the risk-profile weight table and its
  sum-to-one check.
- `Metrics` (metrics.dfy): the accuracy/log-loss and F1 bar charts over the
  results log. This covers model-name parsing, sorted unique ids, first-match
  lookup with default 0, and the value-label rule.
- `Confusion` (confusion.dfy): the confusion-matrix comparison. It covers
  the ASCII filter, digit-run extraction, the 3x3 row-major reshape,
  `TICKER_Hn` keys, and the keys that hold both a NORMAL and a FUZZY matrix,
  in ascending order.
- `LastWriter` (lastwriter.dfy): the insertion-ordered two-level dict
  (`d.setdefault(k, {})[kind] = v`) that several scripts fill. The last
  writer wins.
- `ShapFiles` (shap_files.dfy): the file glue the SHAP scripts share. It
  covers the test-file lookup, the pairing of `.cbm` model files by (ticker,
  horizon), the order of the (pair, type) runs, and the per-pair output folder.
- `ShapWindows` (shap_windows.dfy): `np.array_split`, the window names
  `T1..T4`, the newest-first local window labelled `T-0..T-9`, and the
  class-1 SHAP slice selection.
- `ShapImportance` (shap_importance.dfy): mean-absolute importance with the
  bias column dropped, and grouping by the prefix before the first `_`
  (which keeps the total). Also cross-model per-feature means, the top-15
  bar and heatmap selections, the top-5 stability chart, and the local frame.
- Helpers: `Wrappers` (`Option`, `Result`), `Text` (split/join, ASCII
  upper/strip, string order, sorted unique lists, decimal rendering),
  `Stats` (sum, mean, sorting by value, top-k) and `Seqs` (concatenation).

Foreign libraries stay opaque. Model fitting, prediction, SHAP computation,
the hyper-parameter search and the sklearn metrics are not modelled. Their
results enter as parameters: the F1 score of each fold, a SHAP array of a
given shape, and a `shap` function from rows to arrays. The file system
enters as listings (`Option<seq<string>>`, `None` for a missing folder) and
as functions from file names to contents. The regular-expression searches
over the results log enter as an `extract` function from text to captured
tuples.

## Model

| member | source | states |
|---|---|---|
| Labels.PctChange | scripts/baseline_normal.py:58 | `pct_change(h)`: row t has a value exactly when t >= h, and that value is close[t]/close[t-h] - 1 |
| Labels.ForwardColumn | scripts/modelo_catboost.py:233-235 | row t has a forward return exactly when row t+h exists, and it equals close[t+h]/close[t] - 1 |
| Labels.DropMissingPrefix | scripts/modelo_catboost.py:236 | when the present values are exactly the first m rows, `dropna` keeps those m values in order |
| Labels.ForwardReturns | scripts/modelo_catboost.py:233-236 | after `dropna` the last h rows are gone: len(close) - h returns remain (none if h >= len(close)), and return t is the growth from t to t+h |
| Labels.SplitIndex | scripts/modelo_catboost.py:242 | `int(n*0.8)` is the k with 5k <= 4n < 5k+5, and k <= n |
| Labels.SplitBothSides | scripts/modelo_catboost.py:238-242 | once the 100-row guard passes, the split index lies in [80, n) and at least 20 rows are left for test |
| Labels.Partition | scripts/modelo_catboost.py:31-32 | `iloc[:k]` and `iloc[k:]` rebuild the input when concatenated, and the train part holds exactly k rows |
| Labels.PartitionRows | scripts/modelo_catboost.py:31-32 | row t lands in train at position t when t < k, otherwise in test at position t-k, so every row is in exactly one part |
| Labels.Quantile | scripts/modelo_catboost.py:244-249 | an interpolated k/3 quantile of a sorted slice lies between its minimum and maximum |
| Labels.QuantileMonotone | scripts/modelo_catboost.py:244-249 | quantiles never decrease as the probability grows |
| Labels.QcutEdges | scripts/modelo_catboost.py:244-249 | the four `qcut` edges are ordered: the minimum of the training returns, the interpolated 1/3 and 2/3 quantiles of the sorted returns, and the maximum; every training return lies between the first and last |
| Labels.TertileCutoffs | scripts/modelo_catboost.py:244-251 | fails, with duplicate edges and nothing else, exactly when two of the four `qcut` edges coincide; otherwise the cutoffs are the two inner edges, low < high, and some training return lies below low and some above high |
| Labels.QuantilesStrict | scripts/modelo_catboost.py:244-249 | on a strictly ascending slice of two or more values the four edges are strictly increasing |
| Labels.DistinctTrainCuts | scripts/modelo_catboost.py:244-251 | two or more pairwise different training returns never hit the duplicate-edge error |
| Labels.CutoffsIgnoreOrder | scripts/modelo_catboost.py:244-249 | the cutoffs depend only on the multiset of training returns |
| Labels.ConstantTrainFails | scripts/modelo_catboost.py:244-249 | a training slice of one repeated value always fails with duplicate edges |
| Labels.Label | scripts/modelo_catboost.py:253-257 | the class is in {0,1,2}; it is 0 exactly when x <= low and 2 exactly when x > high |
| Labels.Bins | scripts/modelo_catboost.py:251 | the bin edges are -inf, low, high, +inf |
| Labels.LabelIsBin | scripts/modelo_catboost.py:251-257 | the label of x is k exactly when x lies in the right-closed k-th bin |
| Labels.ExactlyOneBin | scripts/modelo_catboost.py:251-257 | with the widened outer edges every return lies in one bin and in no other |
| Labels.LabelMonotone | scripts/modelo_catboost.py:253-257 | a larger return never gets a smaller label |
| Labels.LabelReturns | scripts/modelo_catboost.py:238-257 | skipped for too few rows exactly when fewer than 100 rows remain, and fails with duplicate edges exactly when the training slice `[:int(0.8n)]` does. Otherwise the split is `int(0.8n)` with both sides non-empty, the cutoffs are those of the training slice alone, and row t is labelled by the bin of return t, a class in {0,1,2} |
| Labels.CutoffsIgnoreTestReturns | scripts/modelo_catboost.py:242-249 | changing returns at or after the split changes neither the outcome, nor the cutoffs, nor any training label |
| Labels.LabelHorizon | scripts/modelo_catboost.py:233-257 | skipped exactly when len(close) < 100 + h; fails with duplicate edges exactly when the forward returns before `int(0.8n)` do. Otherwise the rows are the len(close) - h forward returns (return t the growth from t to t+h), the split is at `int(0.8n)`, the cutoffs are fitted on the returns before it, and label t is the bin of return t, in {0,1,2} |
| Labels.TrainReturnsAgree | scripts/modelo_catboost.py:233-236 | the first k forward returns read only the closes up to row k+h-1 |
| Labels.CutoffsIgnoreLaterCloses | scripts/modelo_catboost.py:233-251 | closes after row split+h-1 change neither the outcome, nor the cutoffs, nor any training label |
| Training.CvFolds | scripts/modelo_catboost.py:34-35 | five folds; each test window has n/6 rows and the windows tile the end of the series up to row n; each training prefix ends `gap` rows before its test window; the two layout errors occur exactly when the library rejects the parameters |
| Training.FoldsPurged | scripts/modelo_catboost.py:34-35 | every training row of a fold precedes every validation row by more than the gap |
| Training.FoldsGrow | scripts/modelo_catboost.py:34-35 | each fold trains on strictly more rows than the one before |
| Training.TwoClassesIffTwoDistinct | scripts/modelo_catboost.py:64 | two rows differ exactly when `len(np.unique(y)) >= 2` |
| Training.CollectScores | scripts/modelo_catboost.py:59-85 | at most one score per fold, every kept score is a fold's F1, and when every fold has two classes all scores are kept |
| Training.CollectScoresSnoc | scripts/modelo_catboost.py:59-85 | one more fold appends its F1 to the list exactly when its training labels hold two classes, and leaves the list alone otherwise |
| Training.SingleClassFoldIgnored | scripts/modelo_catboost.py:61-65 | the score of a fold whose training labels hold one class has no influence on the list |
| Training.Objective | scripts/modelo_catboost.py:87-91 | 0 with fewer than two scores; otherwise the mean minus the standard deviation, never above the mean |
| Training.ObjectiveBounds | scripts/modelo_catboost.py:87-91 | with F1 scores in [0,1] the objective lies in [-sd, 1] |
| Training.InnerMerge | scripts/modelo_catboost.py:274-280 | every merged row combines a fuzzy row and a labelled row with the same date, and every such pair appears in the merge |
| Training.DropIncomplete | scripts/modelo_catboost.py:281 | `dropna` keeps exactly the rows with no missing value |
| Training.JobName | scripts/modelo_catboost.py:296 | the model name is `KIND_ticker_Hh`, and its first `_` field is the type |
| Training.MergeFrame | scripts/modelo_catboost.py:274-282 | the frame holds exactly the rows of the inner merge on `date` that have no missing value; each has a label in {0,1,2} |
| Training.LabelsOfMerged | scripts/modelo_catboost.py:274-288 | every merged target is one of the horizon's labels, hence in {0,1,2} |
| Training.MakeJobs | scripts/modelo_catboost.py:259-307 | NORMAL and FUZZY get the same labels, the same `int(0.8n)` split of the merged frame and gap h; NORMAL row t holds the merged row's `c_norm` cells, FUZZY row t its 15 `c_fuzz` membership cells and none of the fuzzy file's other columns |
| Training.FuzzyJobIgnoresOtherColumns | scripts/modelo_catboost.py:264-307 | the fuzzy file's columns outside `c_fuzz`, such as `close`, never change either job, though `dropna` still checks them |
| Training.PlanMerged | scripts/modelo_catboost.py:284-307 | an empty merge is the only skip; a layout error fails the horizon; otherwise two jobs share the targets of the merged frame and an `int(0.8n)` split that leaves at least six training rows and at least one test row |
| Training.PlanHorizon | scripts/modelo_catboost.py:228-307 | skipped for too few rows exactly when len(close) < 100 + h; fails with duplicate edges exactly when the labelling does; when the labelling succeeds, the outcome is that of the merged frame of the labelled rows; when trained, two jobs with equal labels in {0,1,2}, an equal split inside the frame, and names of this ticker and horizon |
| Training.Collect | scripts/modelo_catboost.py:226-311 | the jobs are those of the trained horizons before the first horizon that raised, in horizon order, and the ticker is abandoned exactly when some horizon raised |
| Training.FirstFailure | scripts/modelo_catboost.py:226-311 | the position of the first horizon that raised, no earlier one having raised, or the count when none did |
| Training.CollectMembers | scripts/modelo_catboost.py:226-311 | a job is collected exactly when a trained horizon before the first failure produced it |
| Training.StopsAtFailure | scripts/modelo_catboost.py:309-311 | no horizon after the first failure contributes a job |
| Training.ProcessTicker | scripts/modelo_catboost.py:201-311 | the jobs are those of the horizons 1, 7, 30 planned in turn, up to the first that raised, each named after the ticker and its horizon |
| Training.SelectTickers | scripts/modelo_catboost.py:194-219 | exactly the `_normal_train.csv` files whose `{ticker}_fuzzy_train.csv` partner exists are processed, the ticker being the text before the first `_` |
| Training.SelectTickersAppend | scripts/modelo_catboost.py:194-203 | the selection keeps listing order: it distributes over concatenation of listings |
| Training.SelectOne | scripts/modelo_catboost.py:194-219 | a single file is selected, with its ticker, exactly when it has the normal suffix and its fuzzy partner exists |
| Training.Run | scripts/modelo_catboost.py:190-219 | no training folder, no jobs; otherwise the jobs of the selected tickers, ticker by ticker in listing order |
| Training.RunTickersSplits | scripts/modelo_catboost.py:203-211 | the jobs of the run are the jobs of each ticker in turn, so a failing ticker never affects the tickers after it |
| Training.RunTickers | scripts/modelo_catboost.py:203-311 | a job is run exactly when it is a job of one of the selected tickers |
| Baselines.Count | scripts/baseline_normal.py:48 | the number of occurrences of the class in the label list, so it is positive exactly when the class occurs |
| Baselines.MajorityClass | scripts/baseline_normal.py:48 | a most frequent training class, in {0,1,2}, and the smallest one on a tie |
| Baselines.OneHot | scripts/baseline_normal.py:51-53 | a row of three probabilities, 1 at the class and 0 elsewhere |
| Baselines.OneHotSumsToOne | scripts/baseline_normal.py:51-53 | every one-hot row sums to 1 with entries in [0,1] |
| Baselines.OneHotRows | scripts/baseline_normal.py:62-64 | one one-hot row per prediction, at the predicted class |
| Baselines.MajorityPredictions | scripts/baseline_normal.py:48-49 | one prediction per test row, each the training mode |
| Baselines.SignalOr | scripts/baseline_normal.py:59-60 | the class of the past return under the training cutoffs, or the majority class where that return is missing |
| Baselines.PersistencePredictions | scripts/baseline_normal.py:58-60 | one prediction per test row: the class of the past h-step return when row t-h exists, the majority class otherwise |
| Baselines.BenchmarksOf | scripts/baseline_normal.py:41-64 | train and test labels are the two halves of the labelled rows; both baselines predict every test row with one-hot probability rows at their predictions |
| Baselines.BenchmarkHorizon | scripts/baseline_normal.py:33-45 | skipped exactly when len(close) < 100 + h, fails with duplicate edges exactly when the training returns do, and otherwise built on the very labelling the training script uses |
| Baselines.BenchmarksMatchTraining | scripts/baseline_normal.py:33-45 | the baseline's train and test labels concatenate to the training script's labels for the same series and horizon |
| Baselines.ScriptHorizonsNeverFallBack | scripts/baseline_normal.py:58-60 | for the horizons 1, 7 and 30 every test row has a past return, so persistence never falls back to the majority class |
| Baselines.RunHorizons | scripts/baseline_normal.py:31-37 | the reports are those of the benchmarked horizons before the first duplicate-edge error, in horizon order, each under its own horizon and outcome; the run crashes exactly when some horizon hits that error; with no skip or error every horizon reports |
| Baselines.BenchmarkAll | scripts/baseline_normal.py:31-37 | the outcome of every horizon, in order |
| Baselines.FileRun | scripts/baseline_fuzzy.py:19-34 | a file without the suffix adds nothing; a file without `close` adds nothing and crashes the normal script only; otherwise the horizons of its close column under the ticker before its first `_`; every report comes from that file |
| Baselines.RunAll | scripts/baseline_fuzzy.py:19-34 | the reports are those of every file before the first crash, then the crashing file's own; the loop crashes exactly when some file does; every report comes from a listed file |
| Baselines.RunFiles | scripts/baseline_fuzzy.py:19-34 | the files in listing order up to and including the first that raised; a crash ends the run exactly when some file raised; every report belongs to a listed file with the script's suffix, the ticker before its first `_`, and that file's benchmarks at its horizon |
| Baselines.FuzzySkipsMissingClose | scripts/baseline_fuzzy.py:32-34 | in the fuzzy script a file without a `close` column changes nothing |
| Baselines.NormalStopsOnMissingClose | scripts/baseline_normal.py:29-34 | in the normal script such a file raises before any report of the run is written |
| Baselines.RunScript | scripts/baseline_normal.py:14-18 | a missing training folder produces nothing |
| Membership.Triangular | features/perfis-risco/features.py:1-5 | output in [0,1], exactly 1 at b, 0 outside (a,c) and positive inside it, the rising ramp on [a,b] and the falling ramp on [b,c] |
| Membership.TriangularRises | features/perfis-risco/features.py:3 | non-decreasing on [a,b] |
| Membership.TriangularFalls | features/perfis-risco/features.py:3 | non-increasing on [b,c] |
| Membership.PeakOnlyAtB | features/perfis-risco/features.py:3 | the output is 1 exactly at x = b |
| Membership.TriangularAll | features/perfis-risco/features.py:1-5 | applied to a column, element i of the output is the function of element i of the input |
| Membership.TriangularAllPointwise | features/perfis-risco/features.py:1-5 | element i of the output depends on element i of the input only |
| Profiles.FirstUnbalanced | features/perfis-risco/perfis-risco.py:25-26 | the check passes exactly when every profile sums to 1 within 1e-6; otherwise it names the first profile that does not |
| Profiles.TableShape | features/perfis-risco/perfis-risco.py:1-23 | five asset classes, three profiles, one weight in [0,1] per class |
| Profiles.ConservativeHoldsNoCrypto | features/perfis-risco/perfis-risco.py:10-12 | the conservative profile's crypto weight is 0 |
| Profiles.TableBalanced | features/perfis-risco/perfis-risco.py:9-26 | every profile's weights sum to exactly 1, so the start-up check passes |
| Metrics.ParseKind | scripts_graficos/acuracia_logloss.py:26 | the type is Fuzzy exactly when the name contains `FUZZY` |
| Metrics.Id | scripts_graficos/acuracia_logloss.py:25-27 | a name without `_` is its own id; otherwise the name is its first field, `_`, then the id |
| Metrics.IdOfJobName | scripts_graficos/acuracia_logloss.py:25-27 | the id of a trained model's name is `ticker_Hh` |
| Metrics.KindOfJobName | scripts_graficos/acuracia_logloss.py:26 | the type of a trained model's name reads back correctly unless a NORMAL model's ticker itself contains `FUZZY` |
| Metrics.Ids | scripts_graficos/acuracia_logloss.py:30 | strictly ascending (so duplicate-free), holding exactly the parsed ids, non-empty when any block was parsed |
| Metrics.Bar | scripts_graficos/acuracia_logloss.py:47-48 | the value of the first block with that id and type, or 0 when there is none |
| Metrics.BarIgnoresLater | scripts_graficos/acuracia_logloss.py:47-48 | blocks appended after a match never change a bar |
| Metrics.NonZeroBarHasBlock | scripts_graficos/acuracia_logloss.py:67-68 | a non-zero bar shows the value of a block of its id and type |
| Metrics.ChartOf | scripts_graficos/acuracia_logloss.py:30-48 | one NORMAL bar and one FUZZY bar per id, in id order |
| Metrics.LossRecords | scripts_graficos/acuracia_logloss.py:23-28 | one record per parsed block, in order, with its name and log loss |
| Metrics.AccuracyRecords | scripts_graficos/acuracia_logloss.py:23-28 | one record per parsed block, in order, with its name and accuracy |
| Metrics.LabelPosition | scripts_graficos/acuracia_logloss.py:36-43 | a label is drawn exactly when the height is positive, at half the height |
| Metrics.AccuracyReport | scripts_graficos/acuracia_logloss.py:7-30 | nothing exactly when the file is missing or holds no block; otherwise the log-loss and accuracy charts share one non-empty id axis |
| Metrics.F1Report | modelo_catboost/scripts_graficos/f1_score.py:7-33 | nothing exactly when the file is missing or holds no block; otherwise the F1 chart over a non-empty id axis |
| Confusion.AsciiOnly | modelo_catboost/scripts_graficos/matriz_confusao.py:22 | the output is no longer than the input, all ASCII, and holds exactly the ASCII characters of the input |
| Confusion.AsciiOnlyAppend | modelo_catboost/scripts_graficos/matriz_confusao.py:22 | the filter distributes over concatenation, so order is kept |
| Confusion.AsciiOnlyKeepsAscii | modelo_catboost/scripts_graficos/matriz_confusao.py:22 | ASCII text passes unchanged |
| Confusion.AsciiOnlyIdempotent | modelo_catboost/scripts_graficos/matriz_confusao.py:22 | filtering twice is filtering once |
| Confusion.LeadingDigits | modelo_catboost/scripts_graficos/matriz_confusao.py:35 | the longest all-digit prefix: followed by a non-digit or by the end |
| Confusion.DigitRuns | modelo_catboost/scripts_graficos/matriz_confusao.py:35 | every token is non-empty and all digits |
| Confusion.RunsCoverDigits | modelo_catboost/scripts_graficos/matriz_confusao.py:35 | the tokens, in order, hold every digit of the text and nothing else |
| Confusion.RunsOfJoin | modelo_catboost/scripts_graficos/matriz_confusao.py:35 | digit tokens written with a non-digit separator are read back one by one |
| Confusion.NumbersOfRendered | modelo_catboost/scripts_graficos/matriz_confusao.py:35-37 | numbers printed in decimal with a non-digit separator are extracted back exactly |
| Confusion.Reshape3 | modelo_catboost/scripts_graficos/matriz_confusao.py:37 | a 3x3 matrix with m[i][j] = nums[3i+j] |
| Confusion.FlattenReshape | modelo_catboost/scripts_graficos/matriz_confusao.py:37 | reading the matrix row by row gives the nine numbers back |
| Confusion.ToWrite | modelo_catboost/scripts_graficos/matriz_confusao.py:30-40 | a block is stored exactly when it holds nine numbers, under its `TICKER_Hn` key and upper-cased type |
| Confusion.Key | modelo_catboost/scripts_graficos/matriz_confusao.py:31-33 | the key is the stripped, upper-cased asset, `_`, then the stripped, upper-cased horizon |
| Confusion.PairedFrom | modelo_catboost/scripts_graficos/matriz_confusao.py:52-55 | keeps exactly the keys holding both types, and keeps ascending order |
| Confusion.PairedKeys | modelo_catboost/scripts_graficos/matriz_confusao.py:52-55 | strictly ascending, holding exactly the keys that have a NORMAL and a FUZZY matrix |
| Confusion.AscendingCard | modelo_catboost/scripts_graficos/matriz_confusao.py:52 | an ascending list has as many distinct keys as entries |
| Confusion.PairedCount | modelo_catboost/scripts_graficos/matriz_confusao.py:80-83 | the success count equals the number of keys holding both types |
| Confusion.Comparisons | modelo_catboost/scripts_graficos/matriz_confusao.py:52-72 | one figure per paired key, showing that key's NORMAL and FUZZY matrices |
| Confusion.ComparisonSourced | modelo_catboost/scripts_graficos/matriz_confusao.py:38-40 | every figure shows the last NORMAL and the last FUZZY matrix written under its key |
| Confusion.Report | modelo_catboost/scripts_graficos/matriz_confusao.py:14-83 | nothing exactly when the file is missing; otherwise as many figures as paired keys, in ascending key order, each from the last writers |
| LastWriter.Insert | modelo_catboost/scripts_graficos/matriz_confusao.py:38-40 | one assignment keeps the dict consistent, adds its key if new, and never reorders existing keys |
| LastWriter.Build | modelo_catboost/scripts_graficos/estabilidade_temporal.py:31-37 | the dict holds exactly the keys some assignment writes, each once |
| LastWriter.LastHit | modelo_catboost/scripts_graficos/estabilidade_temporal.py:37 | the position of the last assignment to (key, type), none after it |
| LastWriter.BuildLastWriter | modelo_catboost/scripts_graficos/estabilidade_temporal.py:36-37 | a (key, type) entry exists exactly when some assignment writes it, and it holds the last such value |
| LastWriter.FirstKeyed | modelo_catboost/scripts_graficos/estabilidade_temporal.py:36 | the position of the first assignment to a key, none before it |
| LastWriter.BuildOrder | modelo_catboost/scripts_graficos/estabilidade_temporal.py:40 | keys are iterated in the order of their first assignment |
| ShapFiles.DataFolder | modelo_catboost/scripts_graficos/estabilidade_temporal.py:19-20 | the subfolder is `normal` exactly for NORMAL and `fuzzy` exactly for FUZZY, always under `test` |
| ShapFiles.FirstTestFile | modelo_catboost/scripts_graficos/estabilidade_temporal.py:22-25 | the first matching position in the listing, or none when no entry matches |
| ShapFiles.FindTestFile | modelo_catboost/scripts_graficos/estabilidade_temporal.py:18-25 | none for a missing folder or when nothing matches; otherwise the first entry that contains the ticker ignoring case and ends in `.csv` |
| ShapFiles.FindTestFileIgnoresCase | modelo_catboost/scripts_graficos/shap_local.py:25 | the lookup gives the same file for the ticker in any case |
| ShapFiles.ModelFiles | modelo_catboost/scripts_graficos/estabilidade_temporal.py:30 | exactly the `.cbm` entries of the listing |
| ShapFiles.NameParts | modelo_catboost/scripts_graficos/estabilidade_temporal.py:33 | at least one part, and no part contains `_` |
| ShapFiles.ParseModelFile | modelo_catboost/scripts_graficos/estabilidade_temporal.py:33-37 | a file is used exactly when its name has at least four parts; the key is (p[2], p[3]) and the type p[1] |
| ShapFiles.SavedModelName | scripts/modelo_catboost.py:129-134 | the saved model's file name ends in `.cbm`, so the SHAP scripts list it |
| ShapFiles.ParseSavedModel | modelo_catboost/scripts_graficos/shap_local.py:30-37 | a model saved as `catboost_KIND_ticker_Hh.cbm` is filed under (ticker, `Hh`) and its type, for tickers without `_` or `.` |
| ShapFiles.Pairs | modelo_catboost/scripts_graficos/shap_heatmap_global.py:34-41 | the pairing dict is consistent: each key once, in order |
| ShapFiles.TasksOf | modelo_catboost/scripts_graficos/estabilidade_temporal.py:43-45 | one task per type present for the pair, NORMAL before FUZZY |
| ShapFiles.Tasks | modelo_catboost/scripts_graficos/estabilidade_temporal.py:40-45 | a task exists exactly for each listed pair and type it holds, with that entry's file |
| ShapFiles.TasksRunLastModel | scripts_graficos/shap_global.py:26-42 | a task runs exactly the last model file saved for its pair and type |
| ShapFiles.OutputFolderInjective | modelo_catboost/scripts_graficos/shap_local.py:40 | distinct pairs whose ticker has no `_` never share an output folder |
| ShapFiles.OutputFolder | modelo_catboost/scripts_graficos/shap_local.py:40 | the folder is the ticker, `_`, then the horizon label |
| ShapWindows.ChunkStart | modelo_catboost/scripts_graficos/estabilidade_temporal.py:51 | chunk i starts at i*(len/n) plus min(i, len%n) |
| ShapWindows.ChunkStartBounded | modelo_catboost/scripts_graficos/estabilidade_temporal.py:51 | chunk starts stay within the rows, and the n-th start is the end |
| ShapWindows.Chunks | modelo_catboost/scripts_graficos/estabilidade_temporal.py:51 | the first m chunks concatenate to the rows before the m-th start, chunk i having its documented size |
| ShapWindows.ArraySplit | modelo_catboost/scripts_graficos/estabilidade_temporal.py:51 | n contiguous windows whose concatenation is the input in order; the first len%n have len/n+1 rows, the rest len/n |
| ShapWindows.WindowsBalanced | modelo_catboost/scripts_graficos/estabilidade_temporal.py:51 | window sizes differ by at most one |
| ShapWindows.WindowName | modelo_catboost/scripts_graficos/estabilidade_temporal.py:62 | window i is named `T` followed by i+1 in decimal |
| ShapWindows.WindowNamesDistinct | modelo_catboost/scripts_graficos/estabilidade_temporal.py:62 | distinct windows get distinct names |
| ShapWindows.WindowNamesAscending | modelo_catboost/scripts_graficos/estabilidade_temporal.py:77 | for up to nine windows the names sort in window order, so `groupby(level=0)` keeps T1..T4 in order |
| ShapWindows.NewestFirst | modelo_catboost/scripts_graficos/shap_local.py:54 | min(n, len) rows, row i being the i-th newest row of the input |
| ShapWindows.LocalLabel | modelo_catboost/scripts_graficos/shap_local.py:69 | row i is labelled `T-` followed by i in decimal |
| ShapWindows.LocalLabels | modelo_catboost/scripts_graficos/shap_local.py:69 | ten labels, `T-0` to `T-9` in order |
| ShapWindows.LocalLabelsAscending | modelo_catboost/scripts_graficos/shap_heatmap_global.py:81 | the labels `T-0..T-9` are already sorted, so grouping by label keeps row order |
| ShapWindows.LocalLabelsDistinct | modelo_catboost/scripts_graficos/shap_local.py:69 | distinct rows get distinct labels |
| ShapWindows.ClassOneSlice | modelo_catboost/scripts_graficos/shap_local.py:60-73 | the three-way class-1 rule: `[:, :len, 1]` when the middle axis is len+1, `[:, 1, :len]` for other 3-D arrays, `[:, :len]` for 2-D. It fails exactly when the script raises: the class index 1 is out of range, or the slice has fewer than len columns, which numpy shortens silently and the DataFrame of line 73 then rejects |
| ShapWindows.BiasNeverSelected | modelo_catboost/scripts_graficos/shap_local.py:60-63 | for 3-D output the slice reads only the class-1 feature cells: two arrays that agree there, whatever their bias and other-class entries, give the same slice |
| ShapWindows.LabelledRows | modelo_catboost/scripts_graficos/shap_local.py:73 | the frame builds exactly when there is one label per row, pairing them in order |
| ShapWindows.LocalFrameNeedsTenRows | modelo_catboost/scripts_graficos/shap_local.py:54-73 | the local frame builds exactly when the data has at least ten rows |
| ShapImportance.AveragedRows | scripts_graficos/shap_global.py:54-57 | one row per sample (per sample and class for 3-D output), each as long as the last axis |
| ShapImportance.ColumnAbs | scripts_graficos/shap_global.py:55-57 | the absolute value of column j in every row |
| ShapImportance.Importance | scripts_graficos/shap_global.py:54-59 | computed exactly when there are rows and the last axis is one longer than the columns. The series is named by the columns, every value is >= 0, and value j is the mean absolute SHAP of column j |
| ShapImportance.ImportanceIgnoresBias | scripts_graficos/shap_global.py:57 | arrays that differ only in the bias column give the same importances |
| ShapImportance.ImportanceOfConstantMagnitude | scripts_graficos/shap_global.py:54-57 | a column of constant magnitude v has importance v |
| ShapImportance.ImportanceBelow | scripts_graficos/shap_global.py:54-57 | a column bounded in magnitude by hi has importance in [0, hi] |
| ShapImportance.GroupByPrefix | modelo_catboost/scripts_graficos/estabilidade_temporal.py:59-60 | one group per prefix that occurs, in ascending order; each group value is the sum of its members; the grand total is preserved |
| ShapImportance.GroupsTotal | modelo_catboost/scripts_graficos/estabilidade_temporal.py:60 | the groups of distinct prefixes add up to the entries those prefixes cover |
| ShapImportance.CoveredCons | modelo_catboost/scripts_graficos/estabilidade_temporal.py:60 | adding a new prefix adds exactly its group's sum |
| ShapImportance.CoveredAll | modelo_catboost/scripts_graficos/estabilidade_temporal.py:60 | prefixes covering every entry cover the whole total |
| ShapImportance.GroupSumAtLeast | modelo_catboost/scripts_graficos/estabilidade_temporal.py:60 | a group of non-negative values is non-negative |
| ShapImportance.GroupingKeepsSign | modelo_catboost/scripts_graficos/estabilidade_temporal.py:56-60 | grouping non-negative importances gives non-negative groups |
| ShapImportance.ByKind | scripts_graficos/shap_global.py:63-68 | NORMAL series pass unchanged; FUZZY series are the prefix groups of the series; the total and non-negativity are kept either way |
| ShapImportance.Lookup | modelo_catboost/scripts_graficos/estabilidade_temporal.py:85 | a value exactly when the series holds the name, and then it is that entry's value |
| ShapImportance.Present | modelo_catboost/scripts_graficos/shap_global_global.py:75 | non-empty exactly when some series holds the name, every value from such a series |
| ShapImportance.AllNames | modelo_catboost/scripts_graficos/shap_global_global.py:75 | exactly the names of all series |
| ShapImportance.Consolidate | modelo_catboost/scripts_graficos/shap_global_global.py:75 | one entry per name any series holds, in ascending order, valued at the mean over the series that hold it (missing ones skipped) |
| ShapImportance.ConsolidateBounds | modelo_catboost/scripts_graficos/shap_global_global.py:75 | means stay within any common bounds of the inputs |
| ShapImportance.ConsolidateAtLeast | modelo_catboost/scripts_graficos/shap_global_global.py:75 | means of series all >= lo are all >= lo |
| ShapImportance.ConsolidateAgreeing | modelo_catboost/scripts_graficos/shap_global_global.py:75 | when every series gives a name the same value, the mean is that value |
| ShapImportance.SampleSize | scripts_graficos/shap_global.py:48 | min(rows, 500) |
| ShapImportance.Bars | scripts_graficos/shap_global.py:73-81 | the up-to-15 largest entries, smallest first: sorted, drawn from the series, and no left-out entry is larger than a kept one |
| ShapImportance.GlobalChart | scripts_graficos/shap_global.py:54-81 | drawn exactly when the importances can be computed; the bars of the (FUZZY-grouped) series, all >= 0 |
| ShapImportance.ConsolidatedBarsNonNegative | modelo_catboost/scripts_graficos/shap_global_global.py:72-89 | the consolidated chart of non-negative importances has only non-negative bars |
| ShapImportance.ConsolidatedBars | modelo_catboost/scripts_graficos/shap_global_global.py:72-81 | nothing exactly when no asset contributed; otherwise the bars of the per-name means over the assets |
| ShapImportance.RowOfEach | modelo_catboost/scripts_graficos/shap_heatmap_global.py:81 | row i of every frame, in frame order |
| ShapImportance.GlobalRows | modelo_catboost/scripts_graficos/shap_heatmap_global.py:81 | row i of the global frame averages row i of every asset's frame |
| ShapImportance.AbsAll | modelo_catboost/scripts_graficos/shap_heatmap_global.py:84 | same names, absolute values |
| ShapImportance.HeatmapScores | modelo_catboost/scripts_graficos/shap_heatmap_global.py:81-84 | a feature is scored exactly when some row of some asset's frame holds it; its score is the mean of the absolute values of the globally averaged rows that hold it, hence >= 0 |
| ShapImportance.HeatmapNames | modelo_catboost/scripts_graficos/shap_heatmap_global.py:81-84 | the names of the consolidated absolute rows are exactly the names of the assets' frames |
| ShapImportance.HeatmapScoresBelow | modelo_catboost/scripts_graficos/shap_heatmap_global.py:81-84 | local SHAP values bounded in magnitude by m give scores of at most m |
| ShapImportance.HeatmapTop | modelo_catboost/scripts_graficos/shap_heatmap_global.py:78-84 | nothing exactly when no frame was built; otherwise min(15, number of scores) scores, largest first, drawn from the scores, none left out larger than one kept |
| ShapImportance.LineColour | modelo_catboost/scripts_graficos/estabilidade_temporal.py:90 | `i % 5` always picks a palette colour |
| ShapImportance.LineColoursDistinct | modelo_catboost/scripts_graficos/estabilidade_temporal.py:84-90 | the five plotted lines get five different colours |
| ShapImportance.WindowFrame | modelo_catboost/scripts_graficos/estabilidade_temporal.py:51-63 | the asset's frame exists exactly when every window's importances do; row i is window i's (FUZZY-grouped) importance |
| ShapImportance.StabilityFeatures | modelo_catboost/scripts_graficos/estabilidade_temporal.py:66-82 | the chart scores exactly the features some window of some asset has |
| ShapImportance.ScoredFeatureSeen | modelo_catboost/scripts_graficos/estabilidade_temporal.py:77-82 | a scored feature occurs in some window of some asset |
| ShapImportance.SeenFeatureScored | modelo_catboost/scripts_graficos/estabilidade_temporal.py:77-82 | a feature occurring in any window of any asset is scored |
| ShapImportance.RowNames | modelo_catboost/scripts_graficos/estabilidade_temporal.py:77 | a name of the averaged window row is a name of that row of some frame, and back |
| ShapImportance.StabilityScores | modelo_catboost/scripts_graficos/estabilidade_temporal.py:77-82 | one score per feature, in ascending name order, each the mean over the windows that hold it of that window's average across assets |
| ShapImportance.StabilityTop | modelo_catboost/scripts_graficos/estabilidade_temporal.py:82 | nothing exactly when no asset contributed; otherwise min(5, number of features) features, best first, drawn from the scores, none left out better than one kept |
| ShapImportance.WindowPoints | modelo_catboost/scripts_graficos/estabilidade_temporal.py:85 | one point per window, the feature's averaged value there when it has one |
| ShapImportance.LinesOf | modelo_catboost/scripts_graficos/estabilidade_temporal.py:84-90 | one line per selected feature, in rank order, with pairwise different colours |
| ShapImportance.StabilityLines | modelo_catboost/scripts_graficos/estabilidade_temporal.py:70-90 | nothing exactly when no asset contributed; otherwise the lines of the top five features over the averaged windows |
| ShapImportance.LocalFrame | modelo_catboost/scripts_graficos/shap_local.py:60-76 | built exactly when the slice exists and there are ten rows; NORMAL row i pairs column j with the class-1 value at (i, j); FUZZY row i is the prefix groups of those pairs; each row's total is the sum of its class-1 values |
| ShapImportance.LocalRow | modelo_catboost/scripts_graficos/shap_local.py:73-76 | NORMAL rows pair each column with its value, in order; FUZZY rows are the prefix groups of those pairs; the total equals the sum of the values |
| Stats.LargestAscending | scripts_graficos/shap_global.py:68-73 | `sort_values().tail(k)`: min(k, n) entries, ascending, a sub-multiset, none left out larger than one kept |
| Stats.TopDescending | modelo_catboost/scripts_graficos/shap_heatmap_global.py:84 | `sort_values(ascending=False).head(k)`: min(k, n) entries, descending, a sub-multiset, none left out larger than one kept |
| Text.SortedUnique | scripts_graficos/acuracia_logloss.py:30 | `sorted(set(xs))`: strictly ascending with exactly the elements of xs |

## Left out

- Model fitting and prediction, the SHAP computation, the Optuna search and the sklearn metrics (F1, accuracy, log loss, confusion matrix, classification report) are foreign code. Their results are parameters: per-fold F1 scores, SHAP arrays, and a function from rows to SHAP arrays.
- Training.CvFolds: `TimeSeriesSplit(n_splits=5, gap=h)` is library code. The fold layout and its two errors follow the library's documented behaviour and are not checked against the library itself.
- Training.Collect: a horizon fails here only through the labelling's duplicate-edge error or a fold layout error. Exceptions raised by foreign code also reach the ticker's handler: the CatBoost fit (scripts/modelo_catboost.py:118), `log_loss` on a test slice missing a class (143-147), `pd.to_datetime` on a malformed `date` (223-224), and a missing feature column (293, 302). These are not modelled, so the model does not promise that a ticker whose horizons all plan successfully is never abandoned.
- Training.MergeFrame: states which rows the merged frame holds, not their order or multiplicity. The model keeps the merge's left-then-right order and `dropna`'s order, but no contract promises it.
- Training.Objective: `np.std` of the scores enters as a parameter `sd >= 0`; only its non-negativity is used.
- Labels.QcutEdges: `pd.qcut` is modelled as linear-interpolation quantiles at 0, 1/3, 2/3 and 1 of the sorted training slice. Its "bin edges must be unique" error is the `NonUniqueEdges` outcome, which reaches the ticker-level handler.
- Labels.Positive: closes are taken as strictly positive reals (the training files' rows have the type `Training.PricedRows`), and pandas' infinities and NaN for zero or missing closes are not modelled. IEEE rounding is not modelled anywhere: returns, weights and importances are exact reals.
- Regular-expression matching over the results log is the `extract` parameter; only the processing of the captured tuples is modelled.
- File and folder I/O, the results-file appends, printing, and every plotting call are left out. Folders are listings, and file contents are functions of the file name.
- `DataFrame.sample(random_state=42)`: only the sample size `min(rows, 500)` is modelled, not which rows are drawn.
- Text.Upper and Text.Strip act on ASCII only. Python's Unicode case mapping and whitespace are not modelled.
- Stats.LargestAscending and Stats.TopDescending order tied values by a stable insertion sort. pandas' default quicksort leaves the order of ties unspecified.
- ShapImportance.Importance: an empty SHAP array yields `None`. pandas would produce a NaN series instead of raising.
- ShapImportance.Consolidate: the names of `pd.concat(..., axis=1)` are taken in sorted order. pandas' order for the union of differing indexes depends on its version.
- ShapFiles.ParseSavedModel: holds only for tickers without `_` or `.`. Other tickers make the parsed key differ from the saved ticker.
- ShapImportance.StabilityLines: a point is `None` where the averaged window lacks the feature; matplotlib would draw a gap there.
- The remaining training-script steps (fitting on the train slice, the test-slice report, saving the `.cbm` file) are foreign calls and I/O; only the saved file's name is modelled (`ShapFiles.SavedModelName`).
- The download script `modelo_catboost/scripts/get_crypto_binance.py` (network access) and `main.py` (imports and plot styling only) are not part of this model, and nor is the feature and correlation code under `features + correl/`.
