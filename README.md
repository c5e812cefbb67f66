# Hybrid Naive Bayes classifier — a verified Dafny model

This project models the classification core of a small web application. The application trains a hybrid Naive Bayes classifier on rows read from a spreadsheet. Numeric columns are scored with a Gaussian likelihood and the other columns with Laplace-smoothed category counts. The model is then evaluated on a holdout split.

The model covers these parts of the source:

- **Training and prediction** (`src/app/naive-bayes/model.ts`), in modules `Statistics`, `Training` and `Inference`:
  - the numeric test and parse of a cell;
  - mean and variance;
  - class discovery, priors and per-feature statistics;
  - log-score prediction.
- **Evaluation utilities** (`src/app/utils/dataUtils.ts`), in modules `Shuffling`, `Metrics` and `DataUtils`:
  - the Fisher-Yates shuffle;
  - k-fold index partitioning;
  - the holdout split;
  - the confusion matrix with accuracy and per-class and macro precision, recall and F1;
  - column type detection;
  - the choice of a candidate target column.
- **The training endpoint's helpers** (`src/app/api/naive-bayes/route.ts`), in module `Route`.
  - Its `shuffle` and `split` are the same algorithms as dataUtils' shuffle and `splitData`, so they share `Shuffling.ShuffledCopy` and `DataUtils.SplitData`.
  - `evaluate` predicts every test row and reports the same metrics. Its macro averages divide by the number of classes without a guard.
- **The feature/target selection panel** (`src/app/components/ProcessPanel.tsx`): a class `ProcessPanel.Panel` whose two toggle methods update the target column and the feature list.
- **The page's dataset preparation** (`src/app/page.tsx`), in module `Page`: the default target and `remapTarget`.

Module `Js` holds the slice of JavaScript the code relies on:

- cell values;
- insertion-ordered records (`Record<V>`: distinct keys in `Object.keys` order, plus their values);
- `String(v)`, `v ?? d`, and the character filter `/[^\d.-]/g`.

Several things are parameters of the model rather than being spelled out:

- `String(number)` and `parseFloat` are the fields of a `Js.Runtime`.
- `Math.log` and `gaussianProb` are the fields of an `Inference.Transcendental`.
- Every `Math.random()` call becomes one of a sequence of draws in [0, 1).

Module `Seqs` holds counting and summing helpers.

Two behaviours of the code are worth knowing:

- **Priors.** Class priors divide by all rows, including rows with an empty target. So they sum to at most 1, not to exactly 1. They sum to exactly 1 precisely when every row is labelled (`Training.TrainedPriorsSum`).
- **Ties in prediction.** The code sorts the score entries and takes the first. The model promises only a class with the highest score.

## Model

| member | source | states |
|---|---|---|
| Js.KeepNumericChars | src/app/naive-bayes/model.ts:13 | the filtered text is no longer than the input and holds only digits, dots and minus signs |
| Js.KeepNumericCharsFixed | src/app/naive-bayes/model.ts:13 | the filter leaves a text unchanged exactly when every character is a digit, dot or minus sign |
| Js.KeepNumericCharsConcat | src/app/naive-bayes/model.ts:13 | the filter distributes over concatenation, so it works character by character |
| Js.NullishCellIsEmpty | src/app/naive-bayes/model.ts:35 | `String(r[col] ?? '')` of a missing or null cell is the empty text, which marks the row unlabelled (plain `String` of a missing cell is "undefined"); any other cell reads as its `String` |
| Js.Put | src/app/naive-bayes/model.ts:43 | assigning a record key sets that key, leaves every other key alone, keeps an existing key's position and appends a new key last |
| Js.PutTotal | src/app/naive-bayes/model.ts:68 | assigning a count changes the sum of `Object.values` by the difference between the new and old counts |
| Statistics.ParseNumber | src/app/naive-bayes/model.ts:18-24 | the parse is finite exactly when `isNumericValue` holds; numbers pass through unchanged; anything else that fails is `NaN` |
| Statistics.Mean | src/app/naive-bayes/model.ts:26 | `NaN` exactly for no values; otherwise a finite mean whose product with the count is the sum |
| Statistics.MeanBetween | src/app/naive-bayes/model.ts:26 | the mean of values in [lo, hi] lies in [lo, hi] |
| Statistics.SumOfSquares | src/app/naive-bayes/model.ts:28 | the sum of squared deviations is never negative, and is zero when every value equals the mean |
| Statistics.Variance | src/app/naive-bayes/model.ts:27-30 | the stored variance is always > 0: it is `1e-9` when every value equals the mean, and otherwise the population variance |
| Training.DistinctNonEmpty | src/app/naive-bayes/model.ts:35 | the classes are exactly the non-empty labels, each listed once |
| Training.DistinctNonEmptyOrder | src/app/naive-bayes/model.ts:35 | the classes come in the order of their first occurrence in the rows |
| Training.DistinctNonEmptyLength | src/app/naive-bayes/model.ts:35 | there are never more classes than rows |
| Training.LabelsInClasses | src/app/naive-bayes/model.ts:35-44 | every row with a non-empty label carries one of the discovered classes |
| Training.ClassCountsCoverLabelledRows | src/app/naive-bayes/model.ts:38-44 | the class counts add up to the number of rows with a non-empty label |
| Training.ZeroCounts | src/app/naive-bayes/model.ts:39 | the count table starts with exactly the classes as keys, each at 0 |
| Training.FewerClassesThanLabels | src/app/naive-bayes/model.ts:35 | the Set of non-empty labels is smaller than the list of labels exactly when some label is empty or repeats |
| Training.CountClasses | src/app/naive-bayes/model.ts:38-44 | each class maps to the number of rows labelled with it; an empty label is never counted |
| Training.ClassPriors | src/app/naive-bayes/model.ts:45-47 | each class's prior is its count divided by all rows, 0 for a class without a count |
| Training.PriorSumIsCountRatio | src/app/naive-bayes/model.ts:45-47 | the priors of a list of classes add up to their total count over the number of rows |
| Training.TrainedPriorsSum | src/app/naive-bayes/model.ts:38-47 | a trained model's priors sum to a value in [0, 1], and to exactly 1 iff no row has an empty target |
| Training.PriorsAddUp | src/app/naive-bayes/model.ts:38-47 | priors that are each class's share of all rows lie in [0, 1] in total, and total 1 iff no label is empty |
| Training.ClassValues | src/app/naive-bayes/model.ts:56 | a class's finite values are at most as many as its rows |
| Training.ClassValuesCoverClass | src/app/naive-bayes/model.ts:51-56 | when every value of the column is numeric, each row of the class contributes a finite value |
| Training.StatsFor | src/app/naive-bayes/model.ts:57-58 | variance > 0 and count = number of values; no values gives {0, 1, 0}; otherwise the mean times the count is the sum, and the variance is `Statistics.Variance` of the values about that mean |
| Training.NumericFeatureStats | src/app/naive-bayes/model.ts:54-59 | one Gaussian record per class, computed from that class's finite values |
| Training.Increment | src/app/naive-bayes/model.ts:68 | `counts[v] = (counts[v] \|\| 0) + 1` raises `v` by one (to 1 when unseen) and changes no other key |
| Training.IncrementTotal | src/app/naive-bayes/model.ts:68 | counting one occurrence adds one to the table's total |
| Training.TallyTotal | src/app/naive-bayes/model.ts:62-69 | a class's category counts add up to the number of rows labelled with it |
| Training.CategoricalFeatureStats | src/app/naive-bayes/model.ts:62-69 | one count table per class, holding the category counts of its rows |
| Training.TrainFeature | src/app/naive-bayes/model.ts:50-71 | a feature is Gaussian iff every value of its column is numeric, and categorical otherwise |
| Training.TrainFeatures | src/app/naive-bayes/model.ts:49-72 | exactly the feature columns get statistics, each trained as `TrainFeature` states |
| Training.Train | src/app/naive-bayes/model.ts:32-75 | fails with EmptyData iff there are no rows; fails with NoClasses iff no row has a non-empty target; otherwise returns the model `TrainedFrom` describes |
| Training.TrainedNumericCounts | src/app/naive-bayes/model.ts:51-58 | in a trained model a numeric feature's count for a class is the class size, and its variance is > 0 |
| Training.TrainedCategoricalTotals | src/app/naive-bayes/model.ts:62-69 | in a trained model a categorical feature's table for a class sums to the class size |
| Inference.DensityOrFloor | src/app/naive-bayes/model.ts:96 | `p \|\| 1e-9` is never zero, and leaves a non-zero density unchanged |
| Inference.CountOf | src/app/naive-bayes/model.ts:102 | `counts[v] \|\| 0` is the stored count, or 0 for an unseen value, and never exceeds the table's total |
| Inference.Laplace | src/app/naive-bayes/model.ts:100-105 | the smoothed likelihood lies in (0, 1] |
| Inference.LaplaceSumIsRatio | src/app/naive-bayes/model.ts:100-105 | the likelihoods of seen categories add up to their smoothed counts over the common denominator |
| Inference.LaplaceOverSeenSumsToOne | src/app/naive-bayes/model.ts:100-105 | over the categories a class has seen, the smoothed likelihoods sum to exactly 1 |
| Inference.NonNumericPenalty | src/app/naive-bayes/model.ts:91-94 | a non-numeric value in a Gaussian feature costs `log(1e-6)` whatever the class |
| Inference.KnownColumns | src/app/naive-bayes/model.ts:88-90 | keeps exactly the feature columns the model has statistics for |
| Inference.UnknownColumnsSkipped | src/app/naive-bayes/model.ts:88-90 | columns without statistics do not change any class's score |
| Inference.FirstMaxIndex | src/app/naive-bayes/model.ts:113 | picks a position holding the maximum score |
| Inference.Predict | src/app/naive-bayes/model.ts:83-115 | the scores are keyed by exactly the classes and hold each class's score; no classes gives `''` and no scores; otherwise the label is a class with the maximal score |
| Shuffling.SwapIndex | src/app/api/naive-bayes/route.ts:8 | `Math.floor(Math.random() * (i + 1))` lies in 0..i |
| Shuffling.Swap | src/app/api/naive-bayes/route.ts:9 | exchanges positions i and j and leaves every other position alone |
| Shuffling.SwapPermutes | src/app/api/naive-bayes/route.ts:9 | a swap is a permutation |
| Shuffling.ShuffleStepsPermutes | src/app/api/naive-bayes/route.ts:7-10 | any number of swap steps yields a permutation of the same length |
| Shuffling.ShuffledIsPermutation | src/app/api/naive-bayes/route.ts:5-12 | whatever the draws, the shuffle returns a permutation of its input |
| Shuffling.ShuffleInPlace | src/app/utils/dataUtils.ts:48 | the in-place swap loop leaves the array holding the shuffle of its old contents |
| Shuffling.ShuffledCopy | src/app/api/naive-bayes/route.ts:5-12 | `shuffle` returns the shuffle of a copy, a permutation of its input, and only reads the input |
| Metrics.Zeros | src/app/utils/dataUtils.ts:67 | an n-by-n matrix of zeros |
| Metrics.Tabulate | src/app/utils/dataUtils.ts:67-73 | counting index pairs into the matrix keeps it n-by-n |
| Metrics.TabulateCell | src/app/utils/dataUtils.ts:67-73 | cell (a, p) is the number of positions with actual index a and predicted index p |
| Metrics.TabulateRowSum | src/app/utils/dataUtils.ts:84 | row a sums to the number of positions whose actual index is a |
| Metrics.TabulateColumnSum | src/app/utils/dataUtils.ts:83 | column p sums to the number of positions whose predicted index is p |
| Metrics.TabulateTotal | src/app/utils/dataUtils.ts:67-73 | all cells together count every tallied position once |
| Metrics.DiagonalBounded | src/app/utils/dataUtils.ts:82-84 | the true positives never exceed the column or the row sum, so fp and fn are never negative |
| Metrics.Ratio | src/app/utils/dataUtils.ts:85-86 | `tp / whole` lies in [0, 1], is 0 on a zero denominator, and otherwise times the denominator is tp |
| Metrics.PrecisionAt | src/app/utils/dataUtils.ts:82-85 | precision lies in [0, 1]; it is 0 when the class was never predicted, and otherwise tp over the column sum |
| Metrics.RecallAt | src/app/utils/dataUtils.ts:82-86 | recall lies in [0, 1]; it is 0 when the class never occurs, and otherwise tp over the row sum |
| Metrics.F1 | src/app/utils/dataUtils.ts:87 | F1 lies in [0, 1]; it is 0 when precision + recall is 0, and otherwise their harmonic mean |
| Metrics.LastIndex | src/app/utils/dataUtils.ts:64-65 | `classes.forEach((c, i) => idx[c] = i)` leaves each class at its last position |
| Metrics.Dedup | src/app/utils/dataUtils.ts:88-90 | the per-class records' keys are the classes, each once |
| Metrics.PerClassScores | src/app/utils/dataUtils.ts:81-91 | keys are the classes in first-write order; each value is the metric at the class's last index; all lie in [0, 1] |
| Metrics.FractionsSum | src/app/utils/dataUtils.ts:92-94 | per-class values in [0, 1] sum to at most the number of classes |
| Metrics.MacroAverage | src/app/utils/dataUtils.ts:92-94 | the average times `n \|\| 1` is the sum of the record's values; it lies in [0, 1], and is 0 for no classes |
| DataUtils.KFoldIndices | src/app/utils/dataUtils.ts:44-52 | k <= 1 gives the single fold [0..n-1]; otherwise exactly k folds, where fold f holds the shuffled positions congruent to f mod k |
| DataUtils.DealSnoc | src/app/utils/dataUtils.ts:50 | dealing one more index appends it to fold `i % k` and leaves the other folds alone |
| DataUtils.DealPartitions | src/app/utils/dataUtils.ts:49-50 | the folds together are a permutation of the dealt indices |
| DataUtils.KFoldsPartitionIndices | src/app/utils/dataUtils.ts:46-51 | with k >= 2, every index below n lies in exactly one fold, and nothing else does |
| DataUtils.RoundRobinSize | src/app/utils/dataUtils.ts:50 | fold f has n / k members, plus one when f < n % k |
| DataUtils.FoldSizesBalanced | src/app/utils/dataUtils.ts:49-50 | fold sizes differ by at most one, and the folds past the n-th are empty when k > n |
| DataUtils.TrainCount | src/app/utils/dataUtils.ts:58 | the training size is at most the length, and at least 1 when there is a row |
| DataUtils.TrainCountFull | src/app/utils/dataUtils.ts:58 | 100% or more trains on every row and leaves the test set empty |
| DataUtils.TrainCountEmpty | src/app/utils/dataUtils.ts:58 | 0% or less still trains on one row |
| DataUtils.SplitData | src/app/utils/dataUtils.ts:55-60 | train followed by test is the shuffle of the input, and so a permutation of it; train holds `TrainCount` rows; the endpoint's `split` (route.ts lines 14-18) is the same computation |
| DataUtils.KnownPairs | src/app/utils/dataUtils.ts:68-72 | the tallied pairs index an n-by-n matrix and number at most the positions |
| DataUtils.KnownPairsCount | src/app/utils/dataUtils.ts:70-72 | every position is tallied iff every actual and predicted label is a class |
| DataUtils.Matches | src/app/utils/dataUtils.ts:75 | the matches never exceed the number of positions |
| DataUtils.Accuracy | src/app/utils/dataUtils.ts:76 | accuracy lies in [0, 1]; it is 0 for no positions, and 1 exactly when every position matches |
| DataUtils.IndexClasses | src/app/utils/dataUtils.ts:64-65 | the index has exactly the classes as keys, each at its last position |
| DataUtils.TallyKnownPairs | src/app/utils/dataUtils.ts:67-73 | the matrix loop leaves each cell counting the positions whose (actual, predicted) class indices are that cell, skipping positions where either label is not a class |
| DataUtils.CountMatches | src/app/utils/dataUtils.ts:74-75 | the match loop counts the positions whose prediction equals the actual label, a missing prediction never matching |
| DataUtils.PositionStep | src/app/utils/dataUtils.ts:68-75 | one more position adds its pair to the tally exactly when both labels are classes, and one to the matches exactly when the labels are equal |
| DataUtils.ComputeMetrics | src/app/utils/dataUtils.ts:63-97 | the matrix tallies the positions whose two labels are both classes; accuracy counts every match; all three per-class records are keyed by the classes in first-write order, with each metric taken at the class's last index; each macro value is its record's sum over `n \|\| 1`, in [0, 1] and 0 for no classes |
| DataUtils.ConfusionMatrixCounts | src/app/utils/dataUtils.ts:67-73 | row i sums to the tallied positions labelled i, column i to those predicted i, and the total to all tallied positions |
| DataUtils.Threshold | src/app/utils/dataUtils.ts:20 | `max(1, floor(0.7 * len))` is at least 1, and at most len for a non-empty sample |
| DataUtils.Sample | src/app/utils/dataUtils.ts:8 | the sample is the first `min(sampleSize, len)` rows, in order |
| DataUtils.NumericCount | src/app/utils/dataUtils.ts:11-19 | never more than the sampled rows |
| DataUtils.CountNumeric | src/app/utils/dataUtils.ts:11-19 | the counting loop counts the rows whose value is present, non-empty after stripping, and parses finite |
| DataUtils.DetectColumnTypes | src/app/utils/dataUtils.ts:5-23 | no rows gives `{}`; otherwise the keys are the first row's columns in order, each with the threshold verdict on the sample |
| DataUtils.AllLookNumericIsNumeric | src/app/utils/dataUtils.ts:12-20 | a column whose sampled values all look numeric is numeric |
| DataUtils.NoneLookNumericIsCategorical | src/app/utils/dataUtils.ts:12-20 | a column with no numeric-looking sampled value is categorical |
| DataUtils.FirstIn | src/app/utils/dataUtils.ts:30-31 | the pick is a preferred name present among the columns, and there is none exactly when no preferred name is present |
| DataUtils.FirstInAt | src/app/utils/dataUtils.ts:31 | the scan stops at the first preferred name that is present |
| DataUtils.FindPreferred | src/app/utils/dataUtils.ts:30-31 | the loop returns the first preferred name present, or nothing |
| DataUtils.UniqueRatioBelowOne | src/app/utils/dataUtils.ts:36-37 | the ratio is at most 1, and below 1 exactly when the column has an empty cell or a repeated value |
| DataUtils.LowestRatioColumn | src/app/utils/dataUtils.ts:33-40 | returns the first column with the lowest ratio when that ratio is below 1, and nothing when every ratio is at least 1 |
| DataUtils.InferCandidateTarget | src/app/utils/dataUtils.ts:26-41 | no rows gives null; otherwise the first preferred name present; otherwise the lowest-ratio rule |
| DataUtils.BlankColumnWins | src/app/utils/dataUtils.ts:33-40 | when some column is entirely empty, the lowest-ratio pick has no non-empty value, so training on it fails |
| Route.MacroOverN | src/app/api/naive-bayes/route.ts:51-53 | dividing by n with no guard gives `NaN` for no classes; otherwise a value in [0, 1] whose product with n is the sum |
| Route.TallyStep | src/app/api/naive-bayes/route.ts:30-33 | one more row appends its (actual, predicted) index pair, and adds a match exactly when the two labels are equal |
| Route.PredictAndTally | src/app/api/naive-bayes/route.ts:27-34 | every prediction is a best-scoring class; the matrix tallies one pair per test row; `correct` counts the matches |
| Route.Evaluate | src/app/api/naive-bayes/route.ts:20-56 | when every label is a class, the matrix sums to the number of test rows; accuracy is correct / rows; all three per-class records are keyed by the classes as in `computeMetrics`; each macro value is its record's sum over the number of classes (`x * n == sum`, in [0, 1]), and `NaN` for no classes |
| Route.EvaluationRowSums | src/app/api/naive-bayes/route.ts:25-34 | with distinct classes, row i sums to the number of test rows labelled `classes[i]` |
| Route.AllPairsKnown | src/app/api/naive-bayes/route.ts:30-32 | when every label and prediction is a class, the count for actual index a is the number of rows labelled `classes[a]` |
| ProcessPanel.Without | src/app/components/ProcessPanel.tsx:17 | the filter keeps exactly the members other than the column |
| ProcessPanel.WithoutConcat | src/app/components/ProcessPanel.tsx:17 | the filter distributes over concatenation, so order is kept |
| ProcessPanel.WithoutAbsent | src/app/components/ProcessPanel.tsx:17 | filtering out an absent column changes nothing |
| ProcessPanel.WithoutDistinct | src/app/components/ProcessPanel.tsx:17 | a list without duplicates stays without duplicates |
| ProcessPanel.WithoutMember | src/app/components/ProcessPanel.tsx:20 | in a list without duplicates, filtering out a member removes exactly its one position |
| ProcessPanel.AddThenRemove | src/app/components/ProcessPanel.tsx:20-24 | toggling a feature on and then off again restores the list |
| ProcessPanel.Panel.constructor | src/app/components/ProcessPanel.tsx:12 | the panel holds the target and features it was given, and starts valid when the target is not a feature and no feature repeats |
| ProcessPanel.Panel.ToggleAsTarget | src/app/components/ProcessPanel.tsx:13-18 | clears the target if it was the column, else sets it; removes the column from the features; afterwards the target is never a feature, and the invariant holds when the features had no duplicates |
| ProcessPanel.Panel.ToggleFeature | src/app/components/ProcessPanel.tsx:19-26 | removes a present column; appends an absent one unless it is the target; leaves the target alone; preserves the invariant |
| Page.DefaultTarget | src/app/page.tsx:49-56 | `'label'` when the first row has it, else the last column; the pick is always one of the columns |
| Page.RemapRow | src/app/page.tsx:63-67 | the copy's `label` is `String(row[target])`; every other key reads as before; key order is kept, with `label` appended when new |
| Page.RemapTarget | src/app/page.tsx:61-69 | one row per input row, in order; target `'label'` copies the rows unchanged; any other target remaps each row |
| Page.RemappedLabels | src/app/page.tsx:61-69 | after remapping, the training labels are the stringified target values, and a missing cell becomes the class "undefined" |
| Page.RemapIdempotent | src/app/page.tsx:61-69 | remapping twice with the same target equals remapping once |

## Left out

- Floating point. Numbers are exact reals, and nothing models IEEE rounding. So `floor(0.7 * len)` and `floor(trainPercent / 100 * len)` can differ from the browser by one for a few sizes. For example, in binary floating point `90 * 0.7` is just below 63.
- `NaN` or infinite `trainPercent`, and a non-integer `k`. These are outside the model: `trainPercent` is a real and `k` an integer.
- `Math.log`, `Math.sqrt`, `Math.exp` and `Math.PI`. Logarithms and the Gaussian density are uninterpreted functions, so scores are reals with no `NaN` or infinity. A logarithm of a non-positive number or a `NaN` density is not modelled.
- `String(number)` and `parseFloat`. They are uninterpreted functions supplied by the caller.
- The distribution of `Math.random()`. Draws are any values in [0, 1), so the model states nothing about the shuffle being uniform.
- Inference.Predict: does not state which of several equally scored classes wins. The source takes the first entry after sorting the score entries, and that order depends on the engine's sort and key order. Predict is also a method rather than a function, because of its nested loops.
- Object key order for integer-like keys. JavaScript lists keys such as "1" and "2" before other keys. The model keeps plain insertion order. This can change which tied class `predict` reports and the key order of the per-class records. It changes no value and no sum.
- Keys that clash with `Object.prototype` (such as `__proto__` or `constructor`).
- Predict's scores are a map. Their key order is not modelled.
- The `POST` handler. Not modelled: JSON parsing, status codes, and the `trainPercent` default of 80. It calls `trainNaiveBayes(train)` with one argument, so its target column is `undefined`.
- The `Array.isArray` check in `trainNaiveBayes`. The data is a sequence by type.
- DataUtils.DetectColumnTypes: requires `sampleSize >= 1`. With 0 the source throws on `Object.keys(undefined)`. A negative size makes `slice` drop rows from the end, and that case is not modelled. The only caller uses the default of 50.
- Feature statistics whose `isNumeric` flag disagrees with the record they hold. They cannot arise: `FeatureStats` is either a Gaussian table or a categorical one.
- Route.Evaluate: returns its predictions only as a ghost value. It requires every test label to be a class, because the source throws otherwise (`cm[undefined]`).
- File reading (`FileReader`, XLSX), `fetch`, React state and rendering. This includes the other components and the scoring and recommendation layer.
- Aliasing between rows. Rows are values, so "the input rows are never mutated" holds by construction and is not a separate statement.
- ProcessPanel.Panel.ToggleAsTarget: treats each toggle as one atomic update of both fields. React batches the two setter calls, and that batching is not modelled.
