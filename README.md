# Sample-selection-bias datasets and missing-label training, in Dafny

This project models the index-level core of a toolkit that simulates sample
selection bias for domain adaptation experiments. A pool of synthetic rows is
cut into a *global* (unbiased) partition and biased *source* and *target*
partitions, always returned in the order `(xs, ys, xg, yg, xt, yt)`:

- **Domain-biased selection** (`DomainSelection`,
  `datagen/conceptshift/selector.py`). The first `n_global` rows form the
  global set. Disjoint sets of source and target domains are drawn. Each of
  the two partitions then takes the rows of its domains among the first `n`
  rows of the remainder, topped up with replacement from those same rows.
  The model reproduces the code's scan of only `range(n)`. The truncation
  branch (lines 7-8) can therefore never apply, and the model has only the
  top-up branch. When none of the first `n` rows is eligible, the top-up
  draws from an empty list and fails, even if later rows are eligible.
- **Feature-biased selection** (`FeatureSelection`, `datagen/selector.py`).
  The pool is permuted and cut into a global prefix, a source-candidate
  block of `floor(n_source * rest / (n_source + n_target))` rows and a
  target-candidate remainder. Source and target are then drawn with
  replacement from their blocks, around centres placed symmetrically about
  the pool mean.
- **Rejection sampling** (`BiasSampling`, `datagen/datagen.py`). Two
  preallocated arrays are filled row by row in a `while` loop. The counter
  advances only when a draw is accepted. `make_moons_triplet` returns one
  `make_moons` pool as the global set and samples source and target from two
  more through it, the target with the negated bias.
- **Missing labels** (`MissingLabels`, `models/autoencoder.py`). `fit`
  appends the target rows with the sentinel label -1 and records a training
  history on the `Autoencoder` object. The classifier half of the combined
  loss zeroes sentinel rows and divides by the labelled share. It is proved
  to be exactly the mean loss over the labelled rows.
- **Batch naming and loading** (`Batch`, `util/batch.py`). Datasets are
  named by their index, zero-padded to the width of `str(num - 1)`.
  Evaluation records are loaded from every file whose name starts with
  "eval". Each record is tagged with its directory and with an identifier
  parsed from the file name.

`Common` holds the shared vocabulary: Python and numpy errors as a
`Result`, numpy integer-array indexing (`Gather`), permutations, and the two
ways `numpy.random.choice` draws.

Randomness is never generated.
- A permutation (`numpy.random.permutation`, or `choice(replace=False)`,
  which takes a prefix of one) is a parameter with an `IsPermutation`
  precondition.
- A draw with replacement is a raw natural number reduced modulo the
  population size.
- Each iteration of the rejection loop is one `Draw(index, u)` of an oracle
  sequence.

Floating-point work is not modelled directly:
- the sigmoid probabilities, Gaussian densities, means, standard deviations
  and norms are abstract inputs;
- losses are real numbers, with a NaN as `None`.

`make_moons` with its fixed seed, `run_generate` and Keras training are
functions passed as parameters.

## Model

| member | source | states |
|---|---|---|
| `Common.ChoiceWithReplacement` | datagen/conceptshift/selector.py:10 | numpy's `choice` with replacement fails exactly when asked for rows from an empty population; otherwise it gives `m` members of the population |
| `Common.ChoiceWithoutReplacement` | datagen/conceptshift/selector.py:49 | `choice(replace=False)` fails exactly when more is asked than there is; otherwise it gives `m` members of the population, without repetition when the population has none |
| `Common.Gather` | datagen/conceptshift/selector.py:12 | integer-array indexing gives one entry per index, entry k being the element at position `idx[k]` |
| `Common.PermutationCovers` | datagen/selector.py:57 | a permutation of `0..n-1` contains every one of them |
| `DomainSelection.Unique` | datagen/conceptshift/selector.py:45 | `np.unique` is strictly ascending and holds exactly the values of its input |
| `DomainSelection.Without` | datagen/conceptshift/selector.py:50 | the remaining domains are exactly those not chosen for the source, without repetition |
| `DomainSelection.WithoutLength` | datagen/conceptshift/selector.py:50-51 | removing `k` distinct chosen domains leaves `#domains - k` |
| `DomainSelection.Eligible` | datagen/conceptshift/selector.py:6-8 | the scan holds every position `< n` of a requested domain and nothing else, in ascending order, and never more than `n` of them, so the truncation branch is dead |
| `DomainSelection.BiasedIndices` | datagen/conceptshift/selector.py:6-11 | the index list fails exactly when `n` exceeds the remainder, or when `n > 0` and none of the first `n` positions is eligible; otherwise it has `n` entries, all eligible, with the eligible list first and top-ups drawn from it |
| `DomainSelection.ScanMissesLaterRows` | datagen/conceptshift/selector.py:6-10 | when none of the first `n` remainder rows is eligible the selection fails, even with `n` eligible rows right after them |
| `DomainSelection.SelectBiased` | datagen/conceptshift/selector.py:4-13 | features and labels are indexed by the same list: row k of both comes from the same position; it fails exactly when the index list does |
| `DomainSelection.ChooseDomains` | datagen/conceptshift/selector.py:49-51 | the domain choice fails exactly when `n_domains_source + n_domains_target` exceeds the number of domains; otherwise it gives two disjoint sets of distinct domains with exactly those sizes |
| `DomainSelection.DisjointDomainsDisjointPositions` | datagen/conceptshift/selector.py:58-59 | rows taken from disjoint domain sets never come from the same position |
| `DomainSelection.DomainSelector.Select` | datagen/conceptshift/selector.py:35-61 | too few domains or fewer than `n_global + 2` rows fail the assertions; on success the global set is exactly the first `n_global` rows and source and target have `n_source` and `n_target` rows |
| `DomainSelection.DomainSelector.SelectFromDomains` | datagen/conceptshift/selector.py:53-61 | it succeeds exactly when both index lists do; source and target rows are the rows at their positions past the global prefix, with their own labels, from their own domains |
| `DomainSelection.SelectPartitions` | datagen/conceptshift/selector.py:45-61 | past its assertions `select` always finds the domains, and fails exactly when an index list fails; on success no position feeds both source and target, and none is global |
| `FeatureSelection.SourceBlockSize` | datagen/selector.py:64-65 | `m_source` is the floor of `n_source * rest / (n_source + n_target)` and at most `rest` |
| `FeatureSelection.GatherPaired` | datagen/selector.py:15 | indexing features and labels by the same sample keeps every row with its own label |
| `FeatureSelection.SampleBiased` | datagen/selector.py:8-15 | `sample_biased` fails exactly when the candidate block is empty: with numpy's empty-population error when rows are asked for, and with its error for weights that do not sum to 1 when none are; otherwise it returns exactly `n` rows, each a candidate row with that row's label |
| `FeatureSelection.Selector.MakeSplit` | datagen/selector.py:49-70 | fails on an assertion when lengths differ or the pool is not larger than `n_global`, and by division by zero when `n_source + n_target == 0`; otherwise the blocks are the slices `[0, g)`, `[g, g+m)`, `[g+m, N)` of the jointly permuted pool, of sizes `n_global`, `m_source` and the rest |
| `FeatureSelection.Selector.Densities` | datagen/selector.py:38-43 | source centre minus target centre is the bias vector, their midpoint is the pool mean, and the standard deviations are the pool's scaled by the source and target scales |
| `FeatureSelection.Selector.Select` | datagen/selector.py:29-47 | fails exactly when the split fails or either candidate block is empty; otherwise the global set is the split's, source and target have `n_source` and `n_target` rows, each a row of its own candidate block with its label |
| `FeatureSelection.EmptyPartitionFails` | datagen/selector.py:45-46 | a selector with `n_source == 0` or `n_target == 0` always fails, because one of its candidate blocks is empty |
| `FeatureSelection.BlockSizeExtremes` | datagen/selector.py:64-65 | `m_source` is 0 when `n_source == 0` and the whole remainder when `n_target == 0` |
| `FeatureSelection.Selector.Bias` | datagen/selector.py:38 | measured in standard deviations of its column, the bias is `bias_dist` times the unit direction; a column with zero deviation gets no bias |
| `FeatureSelection.SplitPartitionsRows` | datagen/selector.py:57-68 | the three blocks take disjoint sets of original rows, and every original row is in one of them |
| `FeatureSelection.SplitCoversPool` | datagen/selector.py:61-68 | global, source-candidate and target-candidate blocks, in that order, are the whole permuted pool |
| `FeatureSelection.SplitKeepsLabels` | datagen/selector.py:57-58 | row k of every block is one original row together with its own label |
| `BiasSampling.Accepted` | datagen/datagen.py:51-56 | the rows taken from a stream of draws are at most one per draw, and all rows of the pool |
| `BiasSampling.AcceptedStep` | datagen/datagen.py:53-56 | an accepted draw appends its row; a rejected draw changes nothing |
| `BiasSampling.AcceptedPrefix` | datagen/datagen.py:51-56 | what a prefix of the stream takes is a prefix of what the whole stream takes |
| `BiasSampling.AcceptedMembers` | datagen/datagen.py:52-56 | a row is taken exactly when some draw hits it and is accepted |
| `BiasSampling.NothingAccepted` | datagen/datagen.py:43-56 | a stream none of whose draws passes the comparison of line 53, as with the NaN probabilities of a first column whose every deviation from its `np.mean` is exactly 0, or of a standard deviation that underflows to 0 under a bias of 0, takes no row at all |
| `BiasSampling.SigmBiasSampling` | datagen/datagen.py:36-57 | the buffers are fresh and have exactly `n_samples` rows, all of them filled: row k is the row of the k-th accepted draw, with its label |
| `BiasSampling.MakeMoonsTriplet` | datagen/datagen.py:7-33 | returns `(Sx, Sy, Gx, Gy, Tx, Ty)`: the global set is the `n_global` pool, the source is sampled from the `m_source` pool with the bias and the target from the `m_target` pool with the negated bias |
| `MissingLabels.Mean` | models/autoencoder.py:30-31 | `reduce_mean` is NaN exactly on no values, and otherwise their sum divided by their count |
| `MissingLabels.Mask` | models/autoencoder.py:18 | the mask is true exactly at the sentinel labels |
| `MissingLabels.Indicator` | models/autoencoder.py:19 | the cast mask is 1.0 exactly at masked positions and 0.0 exactly at the others |
| `MissingLabels.MaskedLoss` | models/autoencoder.py:21 | masked positions lose 0, unmasked positions keep their loss |
| `MissingLabels.MaskedSum` | models/autoencoder.py:21 | the masked losses sum to the losses of the labelled rows |
| `MissingLabels.MaskedCount` | models/autoencoder.py:19 | the cast mask sums to the number of unlabelled rows |
| `MissingLabels.ClassifierPartIsLabelledMean` | models/autoencoder.py:19-31 | `1 - masked_proportion` is zero exactly when no row is labelled; otherwise mean masked loss divided by it is labelled sum over labelled count |
| `MissingLabels.ShareAlgebra` | models/autoencoder.py:31 | the rescaling arithmetic of line 31 once the sums are known |
| `MissingLabels.ClassifierPart` | models/autoencoder.py:18-31 | the classifier part is NaN exactly when no row is labelled, and otherwise the mean loss over the labelled rows |
| `MissingLabels.CombinedLoss` | models/autoencoder.py:13-33 | the loss is `decoder_weight` times the mean reconstruction loss plus the mean classification loss over labelled rows, NaN when none is labelled; `target_weight` has no effect |
| `MissingLabels.TrainingRows` | models/autoencoder.py:80 | the training features are `xs` followed by `xt`, of length `|xs| + |xt|` |
| `MissingLabels.TrainingLabels` | models/autoencoder.py:81 | the training labels are `ys` followed by one sentinel -1 per target row |
| `MissingLabels.MaskMarksTargetRows` | models/autoencoder.py:81 | for 0/1 source labels the mask of the training labels is true exactly at positions `>= |xs|` |
| `MissingLabels.TrainingLabelled` | models/autoencoder.py:81 | over the training labels the labelled rows are exactly the source rows |
| `MissingLabels.TrainingLoss` | models/autoencoder.py:79-81 | over one batch holding the whole assembled training set, the classifier part is the mean classification loss of the source rows alone |
| `MissingLabels.Autoencoder.constructor` | models/autoencoder.py:39-49 | the weights are stored and there is no history yet |
| `MissingLabels.Autoencoder.Loss` | models/autoencoder.py:76 | the compiled loss is the same whatever the target weight |
| `MissingLabels.Autoencoder.Fit` | models/autoencoder.py:79-84 | the history is set to what training on the assembled arrays records, and the object itself is returned |
| `Batch.NatToString` | util/batch.py:28 | `str` of a natural number is a non-empty digit string without a leading zero |
| `Batch.DecimalRoundTrip` | util/batch.py:32 | the digits of `str(n)` read back as `n` |
| `Batch.LeadingZeros` | util/batch.py:32 | zero padding does not change the number a name denotes |
| `Batch.DigitsMonotone` | util/batch.py:28 | a larger index never has fewer digits |
| `Batch.ZeroPad` | util/batch.py:32 | the padded name has length `max(width, |digits|)`, ends with the digits and is '0' before them |
| `Batch.IntToStringValue` | util/batch.py:28 | `str(i)` reads back as `i`: a non-negative value is a digit string denoting it, a negative one is '-' followed by a digit string denoting its magnitude, and only negative values start with '-' |
| `Batch.Padding` | util/batch.py:28 | the width is the length of `str(num - 1)`, a minus sign included when `num < 1` |
| `Batch.DatasetName` | util/batch.py:32 | a dataset name is a non-empty digit string at least `width` long, and longer only when it is the unpadded `str(i)` |
| `Batch.DatasetNameValue` | util/batch.py:32 | every dataset name is a digit string that reads back as its index |
| `Batch.NamesDistinctSameLength` | util/batch.py:28-32 | in a batch of `num`, all names have exactly the padding width and different indices get different names |
| `Batch.BatchGenerate` | util/batch.py:27-35 | one result per index `0..num-1`, in index order, each generated under its padded name |
| `Batch.Split` | util/batch.py:88 | `split` gives at least one part, and two or more exactly when the separator occurs; no part holds the separator, and every part after the first is shorter than the input |
| `Batch.SplitJoin` | util/batch.py:88 | joining the parts with the separator gives the name back, and no part holds a separator |
| `Batch.SplitHead` | util/batch.py:88 | the first part is the text before the first separator |
| `Batch.SplitAfterFirst` | util/batch.py:88 | splitting after a separator-free prefix and its separator gives that prefix, then the split of the rest |
| `Batch.Identifier` | util/batch.py:88-89 | the identifier holds neither '_' nor '.', and is shorter than a name holding '_' |
| `Batch.IdentifierBetween` | util/batch.py:88-89 | the identifier is the text between the first '_' and the next '_' or the end, cut at the first '.' |
| `Batch.IdentifierNone` | util/batch.py:88-89 | a name without '_' has the empty identifier |
| `Batch.Tag` | util/batch.py:87-89 | the record gains "dataset" = the directory name and "identifier" = the parsed identifier, and keeps every other field |
| `Batch.FileRecordsSources` | util/batch.py:80-90 | from one directory, exactly its files whose name starts with "eval" (`IsEvalFile`, the `startswith` of line 81) are loaded |
| `Batch.EvalRecordsSources` | util/batch.py:78-90 | a record is loaded exactly when it is the tagged content of an "eval" file of a directory entry |
| `Batch.BatchLoadEval` | util/batch.py:69-93 | the nested scanning loops collect exactly the loaded records, directory by directory and file by file |

## Left out

- Floating-point numerics: the sigmoid standardisation of `sigm_bias_sampling` (lines 43-45), the Gaussian densities and their normalisation in `sample_biased` (lines 11-13), and `x.std`, `x.mean` and `np.linalg.norm` in `Selector.select` (lines 35-38) are abstract inputs or functions. Losses are exact reals.
- SourceBlockSize: the exact floor. Python computes `int(n_source / (n_source + n_target) * rest)` in floating point, which can be one less (29, 71 and 100 give 28 instead of 29).
- SampleBiased: any candidate row may be drawn. The densities decide how likely each row is, and a row whose density is zero, or too small to change numpy's cumulative sum of the weights, is never drawn. The model does not exclude such rows. On a non-empty block it does not model numpy's error for densities that all vanish or normalise to NaN (a feature column with zero standard deviation, for one), so `Selector.Select` succeeds where `select` then raises.
- BiasedIndices: with `n == 0`, numpy builds the empty index array with a float dtype and the subsequent indexing fails. The model returns the empty selection instead, so `DomainSelector.Select`, `SelectFromDomains` and `SelectPartitions` succeed where `select` raises when `n_source == 0` or `n_target == 0`.
- SigmBiasSampling: the loop need not terminate. Whenever every probability is NaN, no draw is accepted and the loop runs for ever once `n_samples > 0` (`NothingAccepted` shows that no stream then takes a row). This happens when every `V - np.mean(V)` is exactly 0 (a one-row pool, or a constant column whose floating-point mean is exact, such as all zeros), since line 44 then divides 0 by 0. It also happens when the standard deviation underflows to 0 while the deviations do not (deviations of ±5e-201, say) and `bias == 0`: line 44 gives ±inf, and line 45 multiplies it by 0. With an underflowed standard deviation and a non-zero bias, rows with a non-zero deviation get probability 0 or 1, and a row whose deviation is exactly 0 gets NaN. Whenever some probability is positive, the loop ends with probability one. The model requires the oracle stream to hold at least `n_samples` accepted draws, so it cannot describe the `ValueError` that `randint(0, 0)` raises on an empty pool. The label buffer is numpy's float array, which the model keeps at the label type.
- MakeMoonsTriplet: the default arguments (100 rows each, pools of 300, bias 1, noise 0.05, seed 0) are not modelled. `make_moons` with that noise and seed is a function parameter.
- CombinedLoss: the defaults `target_weight=1.0` and `decoder_weight=1.0` of `combined_loss` (line 8) and of `Autoencoder.__init__` (line 40) are not modelled; both weights are ordinary arguments of `CombinedLoss` and `Autoencoder.constructor`. The per-row reconstruction and classification losses (`mean_squared_error`, `binary_crossentropy`) are inputs. Keras's own dispatch of one loss function over the two outputs of the combined model is not modelled: the model follows the written intent that `y_true` holds the reconstruction target and the labels.
- Autoencoder.Fit: the Keras models and their training (`_build_model`, lines 51-77; `combined_model.fit`, line 82, with shuffling and `fit_params`) are the function `train`. Their weights, and `predict`, are not modelled. Keras evaluates the loss per shuffled mini-batch, and a mini-batch drawn only from target rows has no labelled row, so its classifier part is NaN (`ClassifierPart` gives `None`); `TrainingLoss` speaks only of a batch holding the whole set.
- BatchGenerate: deleting or creating the store directory (lines 22-25), the progress bar, and the store and statistics that `run_generate` writes to disk are not modelled. `run_generate` is a function parameter.
- BatchLoadEval: reading and parsing each JSON file and the final `pd.json_normalize` are not modelled. Each file's parsed object is given as its content. A directory entry whose name starts with "eval" inside a dataset directory (opening it would raise) is not modelled: inner entries are files.
- `batch_eval` (lines 38-66) only forwards directory names to `run_eval`, and `run_eval` is not part of this model.
- `_make_split`: its only size assertion is `len(x) > n_global` (line 56), and the model requires no more.
- The dataset builders, the shifter, storage, evaluation, plotting and experiment scripts are not part of this model.
