# Stroke prediction pipeline: a Dafny model of its core

This project models the deterministic core of a stroke-prediction pipeline written
in Python over pandas and scikit-learn. The model covers these parts:

- **The cleaning steps.** `encode_columns` replaces categorical values by integer
  codes. `fill_missing_bmi` fills missing BMI values in three stages: the median
  of the (gender, glucose bin) group, then the gender median, then the overall
  median.
- **The class balancer.** `balance_data` keeps every stroke case, draws as many
  non-stroke cases without replacement, shuffles the rows and renumbers them.
- **The split.** `split_data` separates the outcome, standardises the features
  and cuts the rows into 70% train and 30% test.
- **The evaluation layer.** `calculate_metrics` computes six metrics.
  `grid_search_func` builds one table row per model and aborts as a whole on the
  first failure. `select_pca_components` keeps the first principal components.
- **The configuration tables** these steps use.

A data frame is a value: column names, an index, and rows of cells. A cell is a
number (an exact `real`), a text, or `Missing`, which stands for pandas' NaN.
Frames are Dafny values, so every operation returns a new frame and the input
frame is never changed. This matches the source, which works on
`df.copy()` or on new frames throughout.

The parts the pipeline takes from scikit-learn are function parameters:

- `GridSearchCV`'s fit, best estimator and predict. Its refusal of an empty candidate list is modelled, in `Config.GridSearchCV`;
- the fitted `StandardScaler`;
- the PCA transform.

The random draws are parameters too. Each draw is constrained to be what the
library may return:

- a sample without replacement is a list of distinct positions;
- a shuffle or `train_test_split` order is a permutation of `0 .. n-1`.

Whatever stream `random_state=42` produces, the proved facts hold for it.

Modules: `Wrappers` (Option), `Frames` (cells, frames, permutations and their
multiset lemmas), `Stats` (sorting and the median over reals), `Models`
(src/models.py), `Balancing` (balancing.py), `FeatureAnalysis`
(feature_analysis.py), `Preprocessing` (preprocessing.py) and `Config` (config.py).

The Python defaults are Dafny default parameters. `Preprocessing.FillMissingBmi`
defaults to the columns 'avg_glucose_level', 'bmi' and 'gender' and to 4 bins.
`Balancing.BalanceData` defaults its target to `Balancing.DefaultTarget`, which is
'stroke'.

Where the code and its documentation disagree, the model follows the code:

- An unmapped category makes `encode_columns` raise at `.astype(int)`. It does not
  leave a null cell. The model returns `CastError(column)`.
- `select_pca_components` with more components than columns does not fail. numpy
  slicing truncates, and the model does the same.
- The BMI fill has three stages. The docstring names two: the second stage takes
  the gender median, and the third takes the median of the whole column.

## Model

| member | source | states |
|---|---|---|
| Models.Tally | src/models.py:15 | The four ravelled cells tn, fp, fn, tp sum to the number of samples. tp and tn are the hits on the positive and the negative label, fn and fp the misses. tp+fn and tn+fp count the true labels, tp+fp the predicted positives, tn+tp the agreements. |
| Models.HitsPlusMisses | src/models.py:15 | For every label, its hits plus its misses equal its occurrences among the true labels. |
| Models.FScoreIsHarmonic | src/models.py:18-20 | sklearn's 2tp/(2tp+fp+fn) equals the harmonic mean of precision tp/(tp+fp) and recall tp/(tp+fn), with 0 for a zero denominator. |
| Models.PositiveScores | src/models.py:18-20 | Precision, recall and F1 with positive label 1 are hits/predicted positives, hits/true positives and their harmonic mean. |
| Models.ScoreBinary | src/models.py:15-23 | For two labels lo < hi, one of them 1, the six metrics meet their definitions. Accuracy is agreements/n. Precision, recall and F1 take 1 as positive. Miss rate is fn/(fn+tp) and fall-out fp/(fp+tn) of the ravelled matrix. A zero denominator gives NaN. |
| Models.CalculateMetrics | src/models.py:6-39 | The result is Some exactly when the vectors are aligned and exactly two labels occur, one of them 1. Otherwise it is None as a whole, never a partial tuple. When Some, the metrics meet their definitions with the minimum and maximum label as the negative and positive cell. |
| Models.MissRateIsOneMinusRecall | src/models.py:19-22 | For 0/1 labels with at least one true positive case, miss rate = 1 - recall. |
| Models.OneClassFails | src/models.py:11-39 | When a single label occurs in both vectors, the confusion matrix cannot be unpacked into four cells and the result is None. |
| Models.WorkedCounts | src/models.py:15 | For true [1,0,1,0,1] and predicted [1,0,0,0,1]: 4 agreements, tp = 2, 2 predicted positives, 3 true positives, fn = 1, 2 true negatives, fp = 0. |
| Models.WorkedExample | src/models.py:15-23 | The same pair scores precision 1, recall 2/3, F1 0.8, accuracy 0.8, miss rate 1/3 and fall-out 0. |
| Models.Round2 | src/models.py:76-79 | round(x, 2) gives a whole number of hundredths within half a hundredth of x. |
| Models.RoundRate | src/models.py:80-81 | Rounding a numpy rate keeps NaN and rounds a finite rate to hundredths. |
| Models.ReportRow | src/models.py:74-82 | The result row carries the model's name and each of the six metrics rounded to two decimals. |
| Models.EvaluateModel | src/models.py:59-82 | One model's row exists exactly when its name has a grid, the search oracle succeeds, and its predictions can be scored. The row then reports those metrics. |
| Models.GridSearch | src/models.py:44-95 | The loop returns a table exactly when every model succeeds. The table then has one row per model, in the order of the model dictionary, each equal to that model's evaluation. Otherwise it returns None and no partial table. |
| Models.KeepColumns | src/models.py:104 | `m[:, :n]` keeps every row and each row's prefix of numpy's stop index: min(n, width) for n >= 0, and width + n clipped at 0 for negative n. |
| Models.SliceStop | src/models.py:104 | The stop of `[:n]` on an axis of width w is at most w. An index is kept exactly when it lies before n, a negative n counting back from w. |
| Models.SelectPcaComponents | src/models.py:98-114 | The result is (None, None) exactly when the transform raises. Otherwise it is the column prefix of the training scores and of the transformed test matrix. |
| Models.SelectExactly | src/models.py:104-107 | For 1 <= n <= width, the selection keeps every row and exactly n columns. |
| Models.SelectBeyondWidth | src/models.py:104-107 | Asking for at least as many components as there are columns returns the matrix unchanged, not an error. |
| Balancing.RowsOfClass | src/FeatureAnalysis/balancing.py:19-20 | The filter keeps exactly the rows whose target cell is the given class, each as often as it occurs in the input. |
| Balancing.SampleSubMultiset | src/FeatureAnalysis/balancing.py:23 | Drawing distinct positions without replacement never takes a row more often than it occurs. |
| Balancing.TargetCounts | src/FeatureAnalysis/balancing.py:23-29 | The shuffled concatenation's target column holds 1 as often as there are stroke rows and 0 as often as there are drawn rows. |
| Balancing.RowCounts | src/FeatureAnalysis/balancing.py:19-29 | The output draws on the input rows only. Every stroke row occurs as often as in the input, and a non-stroke row no more often. |
| Balancing.BalancedConstruction | src/FeatureAnalysis/balancing.py:19-29 | Concatenating, drawing and shuffling gives a frame with the same columns and index 0..len-1. It has 2 x (stroke count) rows and equal counts of 1 and 0 in the target, with no other target value. |
| Balancing.BalanceData | src/FeatureAnalysis/balancing.py:5-41 | The target defaults to 'stroke'. A missing target column gives None. Otherwise the result is Some exactly when there are at least as many 0-rows as 1-rows. When Some it is balanced as above. |
| FeatureAnalysis.CastInt | src/FeatureAnalysis/feature_analysis.py:21 | astype(int) on a cell succeeds exactly on a number and truncates it toward zero: the floor of a non-negative number, the ceiling of a negative one. NaN and text fail. |
| FeatureAnalysis.CastLabels | src/FeatureAnalysis/feature_analysis.py:21 | Casting the outcome succeeds exactly when every cell casts. The labels then match the cells one for one, each its cell cast. |
| FeatureAnalysis.DropAt | src/FeatureAnalysis/feature_analysis.py:22 | Dropping the outcome cell keeps the other cells in their original order. |
| FeatureAnalysis.Features | src/FeatureAnalysis/feature_analysis.py:22 | The feature matrix is every row without its outcome cell. |
| FeatureAnalysis.TestSize | src/FeatureAnalysis/feature_analysis.py:33 | The test size for test_size=0.3 is the ceiling of 3n/10: the least k with 10k >= 3n. It is at most n. |
| FeatureAnalysis.TrainPartNonEmpty | src/FeatureAnalysis/feature_analysis.py:33 | The training part is non-empty exactly when there are at least two rows. |
| FeatureAnalysis.SixRows | src/FeatureAnalysis/feature_analysis.py:33 | Six rows split into four training rows and two test rows. |
| FeatureAnalysis.SplitData | src/FeatureAnalysis/feature_analysis.py:7-41 | A missing outcome column gives the four Nones. Otherwise the result is Some exactly when the labels cast, the scaler fits and the training part is non-empty. Then the test part is the first ceil(3n/10) rows of the permutation and the training part the rest, features through the one fitted row map, labels aligned row for row. |
| FeatureAnalysis.SplitIsPartition | src/FeatureAnalysis/feature_analysis.py:33 | Every row lands in exactly one of the test part and the training part. |
| Preprocessing.MappingFor | src/Preprocessing/preprocessing.py:81 | The dictionary has a value map for a column exactly when it names that column. |
| Preprocessing.MappingForLastEntry | src/Preprocessing/preprocessing.py:81-83 | The map the loop uses for a column is the value of that column's last entry, as in a dict literal where a later key wins. |
| Preprocessing.MapCell | src/Preprocessing/preprocessing.py:83 | `.map(mapping)` gives a number exactly for a text the map has, and that number is the text's code. Every other cell becomes NaN. |
| Preprocessing.EncodeColumn | src/Preprocessing/preprocessing.py:83 | `.map(mapping).astype(int)` succeeds exactly when every cell of the column is a mapped text. It then replaces that column's cells by their codes and leaves every other cell as it was. |
| Preprocessing.EncodeColumns | src/Preprocessing/preprocessing.py:73-87 | The encoder succeeds exactly when every dictionary entry applies without a NaN. Otherwise the error names the column of the first failing entry in insertion order. On success it keeps the columns, the index and the row count. Each cell of a named column becomes its code, and every other cell is unchanged. |
| Preprocessing.FirstFailure | src/Preprocessing/preprocessing.py:81-83 | An entry that fails while all before it apply makes the encoding as a whole fail. It is the only entry with that property, so the failure the loop reports is determined. |
| Preprocessing.EncodeEntry | src/Preprocessing/preprocessing.py:82-83 | One pass of the loop succeeds exactly when its entry applies: the column is absent, or every cell maps. It then extends the encoded prefix by that entry. |
| Preprocessing.Grouped | src/Preprocessing/preprocessing.py:45 | Every value of a group is the number of a row with that key, and every such number is among them. NaN values and rows without a key are left out. |
| Preprocessing.GroupRows | src/Preprocessing/preprocessing.py:45 | The rows of a group are ascending positions, exactly those whose key is the group's and whose value is a number. |
| Preprocessing.GroupedInRowOrder | src/Preprocessing/preprocessing.py:45 | A group's values are the numbers of its rows taken in ascending row order, one per row, so each value occurs as often as rows hold it. |
| Preprocessing.Present | src/Preprocessing/preprocessing.py:62 | Every number a median sees is a non-NaN cell of the column, and every such cell is among them. |
| Preprocessing.PresentInRowOrder | src/Preprocessing/preprocessing.py:62 | The numbers are the column's numbered cells in row order, one per cell, so each occurs as often as in the column. |
| Preprocessing.FillNa | src/Preprocessing/preprocessing.py:52 | fillna keeps every non-NaN cell and takes each NaN cell from the other column. |
| Preprocessing.GroupMedians | src/Preprocessing/preprocessing.py:45-52 | After the left merge, a row has a median exactly when it has a key whose group holds a number. The median is then that of its group, and rows with the same key get the same value. |
| Preprocessing.GroupFill | src/Preprocessing/preprocessing.py:57-58 | `transform(lambda x: x.fillna(x.median()))` gives NaN for a row without a key. A keyed row keeps its number. A keyed NaN row gets its group's median when the group holds a number, and stays NaN otherwise. |
| Preprocessing.GroupMediansWithin | src/Preprocessing/preprocessing.py:45-52 | When a column's numbers lie in [lo, hi], so do the group medians merged onto its rows. |
| Preprocessing.GroupFillWithin | src/Preprocessing/preprocessing.py:57-58 | When a column's numbers lie in [lo, hi], so does every cell of the per-group fill. |
| Preprocessing.CutBin | src/Preprocessing/preprocessing.py:41 | pd.cut with `bins` equal-width, right-closed intervals over [min, max] puts each value in a bin below `bins`. The minimum goes to bin 0. When min equals max, the value goes to the middle bin. |
| Preprocessing.CutBinMonotone | src/Preprocessing/preprocessing.py:41 | Larger glucose values never get a lower bin. |
| Preprocessing.Cut | src/Preprocessing/preprocessing.py:41 | pd.cut succeeds exactly when the bin count is at least 1, the column has no text and at least one cell, and it has a number or only one bin is asked for. With one bin and no number, every edge is NaN and every cell gets no bin. Otherwise every number gets the bin of its value within [min, max], and every NaN gets no bin. |
| Preprocessing.BinKeys | src/Preprocessing/preprocessing.py:41-45 | A row has a (gender, bin) key exactly when neither part is NaN, and the key is the pair of them. |
| Preprocessing.GenderKeys | src/Preprocessing/preprocessing.py:57 | A row has a gender key exactly when its gender is not NaN, and the key is the gender. |
| Preprocessing.FillRemaining | src/Preprocessing/preprocessing.py:59-63 | The overall-median stage keeps every non-NaN cell and gives each NaN cell the median of the column's numbers. |
| Preprocessing.FillRemainingWithin | src/Preprocessing/preprocessing.py:61-63 | On a numeric column with a number, the overall-median stage leaves no gap and stays within the column's bounds. |
| Preprocessing.FilledWithin | src/Preprocessing/preprocessing.py:45-63 | When at least one BMI is present, the three stages leave every cell a number within the least and greatest BMI present. |
| Preprocessing.FilledBmiKeeps | src/Preprocessing/preprocessing.py:52-63 | A BMI present in the input is the BMI returned: only missing cells are filled. |
| Preprocessing.FilledBmiLastStage | src/Preprocessing/preprocessing.py:59-63 | The last stage keeps every cell the group stages filled and gives each remaining gap the median of the column. |
| Preprocessing.StagesPrecedence | src/Preprocessing/preprocessing.py:45-63 | A missing BMI gets the median of its first-stage group when that group holds a number. Otherwise it gets the median of its second-stage group, when that holds one. Otherwise it gets the median of the whole column after the second stage. |
| Preprocessing.FilledBmiPrecedence | src/Preprocessing/preprocessing.py:41-63 | On a frame, a missing BMI gets the median of its (gender, glucose bin) group when that group holds a BMI. Otherwise it gets the median of its gender's BMIs after the first stage, when there are any. Otherwise it gets the median of the whole column after the second stage. |
| Preprocessing.FilledBmiWithin | src/Preprocessing/preprocessing.py:41-63 | With at least one BMI in the frame, no BMI is missing afterwards, and each lies between the least and greatest BMI present before. |
| Preprocessing.ReplaceColumn | src/Preprocessing/preprocessing.py:58 | Assigning a column replaces exactly that column's cells. |
| Preprocessing.FillMissingBmi | src/Preprocessing/preprocessing.py:31-71 | The parameters default to 'avg_glucose_level', 'bmi', 'gender' and 4 bins. For any arguments, the result is Some exactly when the frame can be filled: the three columns exist, no column is named 'Median_BMI', the bin count is at least 1, the glucose column can be cut and the BMI column is numeric. It is None where pandas raises, including the KeyError at line 52 when the merge suffixes an own 'Median_BMI' column. When Some, the frame has the same columns and the same row count, and the merge renumbers the index 0..n-1. The BMI column is the three-stage fill, and every other cell is unchanged. |
| Stats.Median | src/Preprocessing/preprocessing.py:45 | A median exists exactly when there is a value. It is the middle of every ascending arrangement of the values: the middle value, or the mean of the two middle ones for an even count. |
| Stats.MedianIgnoresOrder | src/Preprocessing/preprocessing.py:45 | Two lists with the same values, counted with multiplicity, have the same median: row order does not matter. |
| Stats.SortedUnique | src/Preprocessing/preprocessing.py:45 | Two ascending lists with the same values and multiplicities are equal, so the ascending order a median reads is unique. |
| Stats.MedianWithin | src/Preprocessing/preprocessing.py:57 | A median of values in [lo, hi] lies in [lo, hi]. |
| Config.GenderCodesDense | src/config.py:13 | The gender map is injective with codes exactly 0..2. |
| Config.MarriedCodesDense | src/config.py:14 | The ever_married map is injective with codes exactly 0..1. |
| Config.WorkCodesDense | src/config.py:15 | The work_type map is injective with codes exactly 0..4. |
| Config.ResidenceCodesDense | src/config.py:16 | The Residence_type map is injective with codes exactly 0..1. |
| Config.SmokingCodesDense | src/config.py:17 | The smoking_status map is injective with codes exactly 0..3. |
| Config.EncodingsAreDense | src/config.py:12-18 | Every encoding map is injective and numbers its k categories 0..k-1. |
| Config.EncodingKeysDistinct | src/config.py:12-18 | The dictionary names each column once. |
| Config.GenderEncoding | src/config.py:13 | Through the encoder's lookup, gender maps Male to 0, Female to 1 and Other to 2, and any other value to NaN, which makes the cast fail. |
| Config.EncodedColumnsAreCategorical | src/config.py:8-18 | Every encoded column is one of the categorical columns. |
| Config.ColumnListsPartition | src/config.py:8-20 | The categorical and numeric lists are disjoint and name 11 columns. The feature list has 10 entries. |
| Config.FeaturesAsWritten | src/config.py:20 | As written, the feature list holds 'residence_type', which is not a dataset column, and lacks 'Residence_type'. |
| Config.FeaturesIntendedAreInputs | src/config.py:20 | With the residence column spelled as the dataset spells it, the features are distinct and exactly the listed columns other than the default target 'stroke'. |
| Config.ModelsMatchGrids | src/config.py:24-60 | The model dictionary and the grid dictionary have the same five keys in the same order, and every model's key is in the grid dictionary. |
| Config.EveryModelHasAGrid | src/config.py:24-60 | No model of the zoo fails its grid lookup or ParameterGrid's check of its candidate lists: its evaluation succeeds exactly when its fit and its scoring do. |
| Config.AsMap | src/config.py:33-60 | A dict literal has a key for each entry and no other key, and each key maps to the value of its last entry. |
| Config.GridPoints | src/config.py:33-60 | The points ParameterGrid builds from a grid are exactly the ways of choosing one candidate per hyperparameter, and GridSize counts them. |
| Config.GridSearchCV | src/models.py:59-60 | The search refuses a grid with an empty candidate list, as ParameterGrid raises ValueError there. On any other grid the fit-and-predict outcome is the search's. |
| Config.EmptyGridFails | src/models.py:55-64 | A model whose grid has no point gets no row: its evaluation is None, and by Models.GridSearch the whole table is then None. |
| Config.ZooGridLookup | src/config.py:24-60 | The grid dictionary gives each model of the zoo the grid listed under its name. |
| Config.ZooGridsHaveCandidates | src/config.py:33-60 | No grid of the configuration has an empty candidate list. |
| Config.GridSizes | src/config.py:33-60 | The grids hold 36, 108, 16, 9 and 243 points. |

## Left out

- src/pipeline.py, src/main.py, src/logger.py and both visualization modules: orchestration, CSV I/O, logging and plotting. These are not part of this model.
- `explore_data`: a dtype cast to object plus logged statistics. No value of it is used except the frame itself.
- `pca_analysis` and `pca_contribution`: PCA fitting and the logged loadings are floating-point linear algebra inside scikit-learn. The fitted transform is an oracle in `Models.SelectPcaComponents`, and `Config.Features` appears only with its naming finding.
- `GridSearchCV`, the classifiers and `n_jobs=-1`: the fit, the choice of best estimator and the parallel cross-validation are one oracle from (estimator, grid) to predictions or failure. Logging of best parameters is left out.
- StandardScaler: the fitter is an oracle returning one row map or failure, so scaling values are not computed.
- The pseudo-random streams of `sample`, `shuffle` and `train_test_split` with `random_state=42` are parameters constrained to distinct positions and permutations. Which rows a given seed picks is not modelled.
- FeatureAnalysis.TestSize: uses the exact ceil(3n/10), not sklearn's float product `ceil(0.3 * n)`. The two could differ only by float rounding of 0.3.
- Models.Round2: rounds ties upward on exact reals, not Python's round on binary floats (ties to even on the stored value).
- Models.CalculateMetrics: labels are integers. sklearn's handling of string or float labels and its warnings on zero division are not modelled. A zero denominator gives 0 for the sklearn scorers and NaN for numpy's integer ratios.
- Preprocessing.CutBin: exact equal-width bins over [min, max]. pandas' 0.1% widening of the outer edges and float rounding of `linspace` are left out, except that the minimum lands in bin 0 and a constant column lands in the middle bin, as pandas does.
- Preprocessing.FillMissingBmi: the temporary `Glucose_bin` and `Median_BMI` columns are local sequences. An input of its own with a `Glucose_bin` column is not modelled: line 41 overwrites that column and line 67 drops it, so pandas returns one column fewer, while the model keeps every input column. Arguments naming the same column twice, or naming `Glucose_bin`, are not treated specially either.
- Config.Points: the points are listed in the grid's order of hyperparameters. ParameterGrid iterates them in sorted name order, which only changes the order of the points, not which points there are or how many.
- Preprocessing.FillMissingBmi: `df[bmi_col].fillna(..., inplace=True)` on the column is taken to change the frame, as it does without copy-on-write. Under copy-on-write pandas it would leave the frame unchanged.
- Preprocessing.EncodeColumns: a cell that pandas holds as the number of a category, not as its text, is unmapped, as under `.map` with string keys.
- Balancing.BalanceData: the target cell is compared as a number, so a text '1' is neither class.
- FeatureAnalysis.CastLabels: a text cell that Python's `int()` would parse, such as '1', fails the cast here, while astype(int) accepts it. Parsing integer literals is not modelled. Upstream of the split, every encoded column holds numbers.
- FeatureAnalysis.CastInt: a text that is an integer literal is not parsed. It fails the cast like any other text.
- Preprocessing.MappingFor: its own contract says only which columns have a map. Which map it is, the last entry's, is stated by Preprocessing.MappingForLastEntry.
- Preprocessing.Grouped: its own contract says which numbers a group holds. How often each occurs, and in which order, is stated by Preprocessing.GroupedInRowOrder.
- Preprocessing.Present: its own contract says which numbers the column holds. How often each occurs, and in which order, is stated by Preprocessing.PresentInRowOrder.
- Preprocessing.FillMissingBmi: the bin count is a natural number. A negative count, which pd.cut refuses like 0, cannot be passed.

## Findings

| source | as written | input that shows it | evidently intended | confidence | as-written member | corrected member |
|---|---|---|---|---|---|---|
| src/config.py:20 | The feature list spells the residence column 'residence_type' | The dataset and the encoding dictionary name the column 'Residence_type', so the PCA loadings get a label no column has | 'Residence_type', matching src/config.py:8 and :16 | not executed; only the loading labels are affected | Config.FeaturesAsWritten | Config.FeaturesIntendedAreInputs |
