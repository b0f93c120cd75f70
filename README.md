# Lipid Trafficking Analysis: presence/absence core

LTA is a Python tool for lipidomics data that finds lipids under two phenotypes.

Each data file is a table of lipid counts:
- one row per lipid, labelled Lipid, Category and m/z;
- one column per sample, labelled Sample, Phenotype, Generation, Tissue, Handling and Mode.

The pipeline binarises every table. A lipid counts as present in a group of samples when at
most `thresh` of the group's samples are zero. The tables are then split by experimental mode.

For each mode:
- The lipids shared by all its tables are joined.
- Within each phenotype the tissues are AND-ed.
- The rows with some fully present phenotype are kept; these are the A-lipids.
- Per lipid Category, the first two phenotype columns are compared with the Jaccard
  similarity test of Chung et al. (BMC Bioinformatics 20, 644, 2019).
- The test reports the Jaccard distance `1 - J` and a bootstrap p-value.

This project models that core in Dafny and proves its behaviour. The modules are:

- `Jaccard` (`jaccard.dfy`): `similarity`, `distance` and `bootstrap`.
  - Counts are over `seq<bool>`.
  - Probabilities are `Float`, a real number or NaN.
  - The input checks are an `Option<Exception>`.
  - The bootstrap is a method: it fills a buffer with null scores, and replaces the buffer
    in place by their magnitudes before counting. It is proved equal to a specification
    function.
- `DataHandling` (`data_handling.dfy`): `not_zero`.
  - It groups the samples of either axis by (compartment, level).
  - It applies the zero threshold and prunes entities that are absent everywhere.
- `Pipeline` (`pipeline.dfy`):
  - `_post_process`, `_get_modes`, `_split_data`, the A-lipid table logic of
    `_get_a_lipids`, and the Jaccard table per Category of `_jaccard`.
  - The `Pipeline` class, whose fields `data` and `aLipids` are assigned by its methods.
- `Utils` (`utils.dfy`): `add_level_to_index`, `reorder_index` and the level ordering of
  `sort_columns`.
- `CustomTypes` (`custom_types.dfy`): `FloatRange`, its membership test, `repr` and `iter`.
  - An endpoint is an `int` or a float written as `units / 10^places`.
  - A float prints as Python's `repr(float)` does: the shortest digits, positional notation
    when the leading digit's exponent lies in -4..15, and `d.ddde±XX` otherwise.
- Support modules:
  - `Frames`: pandas indexes, frames, level lookup and transposition.
  - `Ordering`: Python's order on strings and tuples, and sorted-distinct.
  - `Sequences`: selection by mask, subsequences and first-occurrence dedup.
  - `Errors`: Python's exception kinds.
  - `Wrappers`: `Option` and `Result`.

Python exceptions are modelled as the `Failure` case of a `Result`. The `Exception` value
records the exception kind and what caused it.

## Model

| member | source | states |
|---|---|---|
| Jaccard.Check | lta/helpers/jaccard.py:56-63 | A non-1-d vector is an IndexError, checked first. Unequal shapes are an IndexError, checked next. A non-boolean dtype is a TypeError, checked last. There is no error exactly when all three checks pass. |
| Jaccard.Similarity | lta/helpers/jaccard.py:56-83 | `similarity` fails exactly when an input check fails, with that check's exception. On success both vectors have the same length. |
| Jaccard.Mean | lta/helpers/jaccard.py:65-70 | The mean of a boolean vector is NaN exactly when the vector is empty; otherwise it lies in [0, 1]. |
| Jaccard.ResolveSpec | lta/helpers/jaccard.py:65-70 | A missing px/py, or an explicit 0, is replaced by the vector's mean. Any other value, NaN included, is kept. |
| Jaccard.Resolve | lta/helpers/jaccard.py:65-70 | The definition of `if not px: px = x.mean()`. `Jaccard.ResolveSpec` and `Jaccard.ResolveIdempotent` state its behaviour. |
| Jaccard.ResolveIdempotent | lta/helpers/jaccard.py:120-124 | Resolving an already resolved probability changes nothing. So `distance` and `bootstrap` can resolve px/py before `similarity` resolves them again. |
| Jaccard.And | lta/helpers/jaccard.py:72 | `x & y` is true at a position exactly when both vectors are. |
| Jaccard.CountsAreSets | lta/helpers/jaccard.py:72-73 | The intersection count is the size of the intersection of the sets of true positions. The union count is the size of their union. |
| Jaccard.CountsOrdered | lta/helpers/jaccard.py:72-73 | The intersection count is at most each vector's count, so the union count is at least each count. |
| Jaccard.SimilarityIsSetJaccard | lta/helpers/jaccard.py:72-78 | With a non-empty union, the uncentred similarity is `\|X ∩ Y\| / \|X ∪ Y\|` of the true positions, for any px/py. |
| Jaccard.ExpectedInUnit | lta/helpers/jaccard.py:75-76 | For probabilities in [0, 1], not both 0, `px*py / (px + py - px*py)` is finite and lies in [0, 1]. |
| Jaccard.Expected | lta/helpers/jaccard.py:75-76 | The definition of the expected similarity `px*py / (px + py - px*py)`; it is NaN when px or py is NaN. `Jaccard.ExpectedInUnit` bounds it. |
| Jaccard.SimilarityInUnit | lta/helpers/jaccard.py:72-78 | The uncentred similarity is NaN or in [0, 1], if px and py are defaulted or lie in [0, 1]. |
| Jaccard.SimilaritySymmetric | lta/helpers/jaccard.py:56-83 | Swapping x with y, and px with py, gives the same result, errors included. |
| Jaccard.EmptyUnion | lta/helpers/jaccard.py:75-81 | With an empty union the uncentred similarity is the expected value from px/py. The centred similarity is then 0 whenever that value is finite. |
| Jaccard.CenteredIsShifted | lta/helpers/jaccard.py:80-83 | The centred similarity is the uncentred one minus the expected value, with the same px/py. |
| Jaccard.Score | lta/helpers/jaccard.py:72-83 | The definition of the score of two equal-length vectors. It is intersection over union, or the expected value for an empty union; the expected value is subtracted when centred. `Jaccard.SimilarityIsSetJaccard`, `Jaccard.EmptyUnion` and `Jaccard.CenteredIsShifted` state what it computes. |
| Jaccard.Distance | lta/helpers/jaccard.py:120-124 | `distance` fails exactly when the input checks fail. |
| Jaccard.DistanceComplement | lta/helpers/jaccard.py:120-124 | `distance` is `1 - similarity(center=False)` with the same px/py. It fails with the same exception when `similarity` fails. |
| Jaccard.DistanceIsSetJaccard | lta/helpers/jaccard.py:120-124 | With a non-empty union, the distance is `1 - \|X ∩ Y\| / \|X ∪ Y\|`. |
| Jaccard.Vec | lta/helpers/pipeline.py:238 | A column taken from a boolean table is a well-formed 1-d boolean vector. |
| Jaccard.VecChecks | lta/helpers/pipeline.py:238 | Two boolean columns of the same length pass all input checks. |
| Jaccard.Resample | lta/helpers/jaccard.py:185-186 | A resample has as many entries as positions drawn. Entry k is the entry of the vector at the k-th drawn position. |
| Jaccard.NullScoreIsSimilarity | lta/helpers/jaccard.py:183-190 | Each null score is the centred `similarity` of the resampled pair, with px/py left to default to the resamples' own means. |
| Jaccard.NullScore | lta/helpers/jaccard.py:183-190 | The definition of one null score: the centred score of one resample of x and one of y, each with its own mean. `Jaccard.NullScoreIsSimilarity` ties it to `similarity`. |
| Jaccard.NullScores | lta/helpers/jaccard.py:189-191 | There is one null score per draw, n in all. |
| Jaccard.Magnitudes | lta/helpers/jaccard.py:192 | `np.abs` replaces each entry by its magnitude; NaN stays NaN. |
| Jaccard.Exceeds | lta/helpers/jaccard.py:192 | The mask holds exactly where the magnitude is at least `\|j_obs\|`. A NaN on either side compares false. |
| Jaccard.FillNulls | lta/helpers/jaccard.py:183-191 | A fresh buffer ends up holding the null score of every draw, in draw order. |
| Jaccard.AbsInPlace | lta/helpers/jaccard.py:192 | The buffer is overwritten in place by the magnitudes of its old entries. |
| Jaccard.CountAtLeast | lta/helpers/jaccard.py:192 | The count is the number of true entries of the `>= \|j_obs\|` mask. |
| Jaccard.Bootstrap | lta/helpers/jaccard.py:167-193 | The method returns exactly the specified bootstrap outcome for every input, errors included. |
| Jaccard.BootstrapResult | lta/helpers/jaccard.py:167-193 | The reference definition of `bootstrap`: input checks, resolved priors, the all-ones guard, the all-zeros guard, then the p-value. `Jaccard.Bootstrap` is proved equal to it. `Jaccard.BootstrapErrors`, `Jaccard.BootstrapDegenerate` and `Jaccard.BootstrapTest` state its cases. |
| Jaccard.BootstrapErrors | lta/helpers/jaccard.py:172 | `bootstrap` fails exactly when the input checks fail, with the same exception. |
| Jaccard.BootstrapDegenerate | lta/helpers/jaccard.py:167-178 | J-sim is always the uncentred similarity with the resolved px/py. If px = 1, py = 1 or a vector is all true, the result is (J-sim, 1) with the all-ones notice, checked first. Otherwise, if px = 0, py = 0 or a vector is all false, it is (J-sim, 1) with the all-zeros notice. |
| Jaccard.BootstrapTest | lta/helpers/jaccard.py:180-193 | In the non-degenerate case no notice is given. The p-value is the share of null scores at least as large in magnitude as the observed centred score. That observed score is centred with the resolved px/py. |
| Jaccard.PValueBounds | lta/helpers/jaccard.py:192 | For n = 0 the p-value is NaN. Otherwise it is finite, lies in [0, 1] and equals k/n, where k counts the null scores that reach the observed magnitude. |
| Jaccard.PValueOfNaN | lta/helpers/jaccard.py:192 | A NaN observed score gives p-value 0. |
| Jaccard.PValue | lta/helpers/jaccard.py:192 | The definition of the p-value: the share of null magnitudes at least `\|j_obs\|`. `Jaccard.PValueBounds` and `Jaccard.PValueOfNaN` state its values. |
| Jaccard.Div | lta/helpers/jaccard.py:75-78 | The definition of float division: the real quotient, and NaN for a zero divisor. `Jaccard.ExpectedInUnit` and `Jaccard.PValueBounds` bound its results; the zero-divisor difference is under "## Left out". |
| Jaccard.SimilarityErrorExamples | tests/unit/test_helpers_jaccard.py:10-31 | A 2-d input and a length mismatch are IndexErrors; integer vectors are a TypeError. |
| Jaccard.SimilarityExamples | tests/unit/test_helpers_jaccard.py:34-63 | For [T,T,F] and [T,F,T]: similarity 1/3, centred -1/6, distance 2/3. |
| Jaccard.EmptyUnionExamples | tests/unit/test_helpers_jaccard.py:42-71 | All-false vectors with px = py = 0.5: similarity 1/3, distance 2/3. |
| Jaccard.BootstrapExamples | tests/unit/test_helpers_jaccard.py:74-104 | The three degenerate bootstraps with n = 10 give (2/3, 1) with the all-ones notice, (0, 1) with the all-zeros notice, and (0.5, 1) with the all-ones notice when px = py = 1. This holds whatever the draws. |
| DataHandling.Keys | lta/helpers/data_handling.py:114 | Each sample's group key is (compartment label, level label). Compartment is looked up first, and its KeyError wins. A flat index cannot be grouped on two levels. |
| DataHandling.GroupsSpec | lta/helpers/data_handling.py:114 | The groups are the distinct keys, strictly increasing in Python's tuple order. There is one group per distinct pair. |
| DataHandling.Groups | lta/helpers/data_handling.py:114 | The definition of the groups pandas reports: the distinct keys, sorted. `DataHandling.GroupsSpec` states what they are. |
| DataHandling.ZerosInBounds | lta/helpers/data_handling.py:113-115 | A group's zero count is at most its size. It is 0 exactly when no sample of the group is zero. |
| DataHandling.ZerosIn | lta/helpers/data_handling.py:113-115 | The definition of `(df == 0)` summed over one group: how many of the group's samples are zero. `DataHandling.ZerosInBounds` and `DataHandling.ZerosInPattern` state its properties. |
| DataHandling.Present | lta/helpers/data_handling.py:115 | The definition of `x.sum() <= thresh * len(x)` on one group. `DataHandling.PresentBoundaryExample`, `DataHandling.PresentThreshZero` and `DataHandling.PresentThreshOne` pin its boundary cases. |
| DataHandling.Grid | lta/helpers/data_handling.py:113-115 | Cell (entity, group) is true exactly when the group's zero count is at most `thresh` times its size. The bound is inclusive. |
| DataHandling.PresentBoundaryExample | lta/helpers/data_handling.py:115 | Two zeros among four samples is present at `thresh` 0.5; three zeros is not. |
| DataHandling.PresentThreshZero | lta/helpers/data_handling.py:115 | With `thresh` 0, any zero makes the group absent. |
| DataHandling.PresentThreshOne | lta/helpers/data_handling.py:115 | With `thresh` 1 or more, every group is present. |
| DataHandling.GroupColumnsThreshOne | lta/helpers/data_handling.py:112-120 | With `thresh` 1 or more and at least one sample, no entity is pruned and every cell is true. |
| DataHandling.ZerosInPattern | lta/helpers/data_handling.py:113 | Zero counts depend only on which counts are zero. |
| DataHandling.GridPattern | lta/helpers/data_handling.py:113-115 | Tables with the same zero pattern give the same grid and the same surviving entities. |
| DataHandling.NotZeroZeroPattern | lta/helpers/data_handling.py:112-121 | `not_zero` of two frames with the same labels and zero pattern is the same, errors included. |
| DataHandling.Occupied | lta/helpers/data_handling.py:118-120 | `df.any(axis)` is true for an entity exactly when one of its cells is true. |
| DataHandling.Kept | lta/helpers/data_handling.py:118-120 | An entity survives exactly when it is present in at least one group. |
| DataHandling.GroupColumns | lta/helpers/data_handling.py:112-120 | Along the columns, the result's columns are the (compartment, level) groups. Its index holds the surviving rows of the input index. |
| DataHandling.GroupRows | lta/helpers/data_handling.py:112-118 | Along the index, the result's index is the groups. Its columns are the surviving input columns. |
| DataHandling.GroupColumnsCells | lta/helpers/data_handling.py:112-120 | There is one result row per surviving entity. The row holds the entity's presence in each group. Every result row has a true cell. |
| DataHandling.GroupRowsCells | lta/helpers/data_handling.py:112-118 | There is one result row per group. The column of each surviving entity holds the presence of that group. |
| DataHandling.NotZero | lta/helpers/data_handling.py:112-121 | `not_zero` fails exactly when a grouping key cannot be built, with that exception. Otherwise it groups the chosen axis and prunes the entities of the other axis; the spelled-out frame is the result. |
| DataHandling.NotZeroTransposed | tests/unit/test_helpers_data_handling.py:38-55 | `not_zero(df.T, "index")` succeeds exactly when `not_zero(df, "columns")` does, and is then its transpose. |
| DataHandling.FixtureKeysAre | tests/conftest.py:27-29 | The fixture's (z, y) keys run through (a, a), (b, b), (c, c) three times. |
| DataHandling.FixtureGroupsAre | tests/conftest.py:27-29 | The fixture has the three groups (a, a), (b, b), (c, c), in that order. |
| DataHandling.FixturePresence | tests/conftest.py:30-34 | At 0.5, entity a is absent from every group, while b and c are present in every group. |
| DataHandling.FixtureKept | tests/conftest.py:30-34 | At 0.5, entity a is pruned and b and c survive. |
| DataHandling.FixtureNotZero | tests/unit/test_helpers_data_handling.py:44-55 | At 0.5 the result has rows b and c, true in all three groups; along the index it is the transpose. The rows keep the fixture's (x, y, z) labels. |
| DataHandling.FixtureIndexNotFlat | tests/unit/test_helpers_data_handling.py:44-55 | The computed frame's row index is the three-level MultiIndex named x, y, z. It is not the flat index ["b", "c"] the test writes out, whatever that index's name. |
| Frames.LevelNumber | lta/helpers/utils.py:84 | A resolved level number points at a level with that name. The lookup is a KeyError exactly when no level has that name, and a ValueError exactly when two or more levels have it. It succeeds exactly when the name occurs once. |
| Frames.LevelValues | lta/helpers/utils.py:120 | `get_level_values(level)` has one value per entry: the entry's label at that level. A flat index has only its own name. |
| Frames.PickSpec | lta/helpers/data_handling.py:118-120 | Masking an index keeps as many entries as the mask has true values. Each kept entry lands at its rank among them. |
| Frames.Frame.Transpose | tests/unit/test_helpers_data_handling.py:50-52 | `df.transpose()` swaps the index with the columns and cell (i, j) with (j, i). |
| Pipeline.PhenotypeKeys | lta/helpers/pipeline.py:188-190 | Each sample's group key is its Phenotype label alone; there is no compartment. |
| Pipeline.Metadata | lta/helpers/pipeline.py:185 | The definition of the metadata: the sample labels without Sample, first occurrences in order. `Pipeline.MetadataSpec` states what they are. |
| Pipeline.MetadataSpec | lta/helpers/pipeline.py:185 | The metadata are distinct. A label without Sample is among them exactly when some sample carries it. Each one's phenotype is one of the phenotype groups. |
| Pipeline.PostProcess | lta/helpers/pipeline.py:185-195 | `_post_process` gives a well-formed table. Its rows are the kept lipids, in input order, and its columns are the metadata. |
| Pipeline.PostProcessCells | lta/helpers/pipeline.py:186-192 | A lipid is kept exactly when one of its phenotypes has at most `thresh` of its samples zero. Its cell in each column is that phenotype's presence. |
| Pipeline.PostProcessRowsOccupied | lta/helpers/pipeline.py:192 | Every row left by `_post_process` has a true cell. |
| Pipeline.GetModes | lta/helpers/pipeline.py:124-128 | A mode is in the result exactly when some frame has a column labelled with it. |
| Pipeline.Modes | lta/helpers/pipeline.py:154 | The definition of `frame.columns.unique("Mode")`: the Mode labels, first occurrences in order. `Pipeline.InModeSpec` and `Pipeline.SingleMode` state what the comparison on it decides. |
| Pipeline.Bucket | lta/helpers/pipeline.py:150-157 | The definition of the comprehension `[frame for frame in data if …]` for one mode. `Pipeline.BucketSpec` and `Pipeline.SplitData` state what it keeps. |
| Pipeline.BucketSpec | lta/helpers/pipeline.py:150-157 | A bucket is a subsequence of the frames, holds exactly the frames of its mode, and has one entry per position of such a frame, so equal frames are kept as often as they occur. |
| Pipeline.SplitData | lta/helpers/pipeline.py:150-157 | It fails with a ValueError exactly when there are modes and some frame carries two or more of them. Otherwise the keys are exactly the modes. Each bucket keeps the order of `frames`, holds exactly the frames carrying that mode, and has one entry per position of such a frame. Together these make the bucket the source's filter, duplicates included. |
| Pipeline.InModeSpec | lta/helpers/pipeline.py:154 | A frame's unique modes equal `mode` exactly when it has columns and all of them carry `mode`. |
| Pipeline.InMode | lta/helpers/pipeline.py:154 | The definition of `frame.columns.unique("Mode") == [mode]`. `Pipeline.InModeSpec` and `Pipeline.SingleMode` characterise it. |
| Pipeline.SingleMode | lta/helpers/pipeline.py:154 | A frame with a single mode is in mode m exactly when m is that mode. |
| Pipeline.SplitDataFails | lta/helpers/pipeline.py:150-157 | The split fails exactly when some frame carries two modes. |
| Pipeline.SplitDataCovers | lta/helpers/pipeline.py:150-157 | After a successful split, every frame with columns sits in the bucket of its mode. |
| Pipeline.SplitDataNonEmpty | lta/helpers/pipeline.py:150-157 | After a successful split, no bucket is empty. |
| Pipeline.SplitBucketsFilled | lta/helpers/pipeline.py:210-215 | Each bucket holds at least one well-formed frame for the concatenation. |
| Pipeline.Shared | lta/helpers/pipeline.py:211 | The inner join keeps exactly the first frame's lipids that every frame has, in the first frame's order. |
| Pipeline.Join | lta/helpers/pipeline.py:211 | The joined table's rows are the shared lipids. Its columns are all frames' columns, in order, and each row joins the lipid's rows. |
| Pipeline.AllByPhenotype | lta/helpers/pipeline.py:212-213 | There is one column per distinct phenotype, sorted. A cell is the AND of the row's cells under that phenotype. |
| Pipeline.KeepAny | lta/helpers/pipeline.py:214 | Kept rows are unchanged input rows with a true cell, in input order. Every row with a true cell is kept. |
| Pipeline.ALipidsOfMode | lta/helpers/pipeline.py:210-215 | An empty bucket makes `pd.concat` fail with a ValueError. Otherwise the A-lipid table is well formed. |
| Pipeline.ALipidsOfModeCells | lta/helpers/pipeline.py:211-213 | The phenotypes are those of the mode's frames, strictly increasing. Each row is a lipid every frame has. A cell is true exactly when the lipid is present in every column of that phenotype in every frame. |
| Pipeline.ALipidsOfModeRows | lta/helpers/pipeline.py:211-214 | Each A-lipid is in every frame and has a phenotype that is fully present. The A-lipids keep the first frame's order. |
| Pipeline.ALipidsOfModeComplete | lta/helpers/pipeline.py:211-214 | Conversely, a lipid of every frame with a fully present phenotype is an A-lipid. |
| Pipeline.CategoryColumn | lta/helpers/pipeline.py:237-238 | Column p of a Category group has one entry per lipid of that Category. |
| Pipeline.Categories | lta/helpers/pipeline.py:237 | The definition of the Category groups: the distinct Categories, sorted. `Pipeline.JaccardTableScores` proves them strictly increasing and exactly the lipids' Categories. |
| Pipeline.CategoryOutcome | lta/helpers/pipeline.py:238 | The definition of `bootstrap(df.iloc[:, 0], df.iloc[:, 1], n=n)` on one Category group. `Pipeline.CategoryBootstrap` is proved to return it. |
| Pipeline.Outcomes | lta/helpers/pipeline.py:237-238 | There is one bootstrap outcome per Category group, in group order. |
| Pipeline.JaccardTable | lta/helpers/pipeline.py:236-244 | A table with rows but fewer than two phenotype columns is an IndexError. Otherwise there is one row per Category. |
| Pipeline.JaccardTableScores | lta/helpers/pipeline.py:236-244 | The Categories are those of the lipids, sorted. J_dist is the Jaccard distance of the first two phenotype columns over the Category. The p-value is the bootstrap's, unchanged, and lies in [0, 1] when n > 0. |
| Pipeline.CategoryBootstrap | lta/helpers/pipeline.py:238 | The method returns the bootstrap outcome of the Category group's first two columns. |
| Pipeline.JaccardOfMode | lta/helpers/pipeline.py:237-244 | Collecting the outcomes and then replacing J-sim by `1 - J-sim` computes the specified table. |
| Pipeline.ApplyBootstrap | lta/helpers/pipeline.py:237-239 | Because `bootstrap` returns the Series `[J-sim, p-val]`, `apply` builds a DataFrame. Its index is the sorted Categories, and each row holds its Category's bootstrap outcome. Its columns are J-sim and p-val; with no Category at all they are the table's phenotypes, as pandas keeps the columns of an empty result. |
| Pipeline.ToList | lta/helpers/pipeline.py:241 | `to_list` succeeds exactly on a Series and lists its objects. On a DataFrame it is an AttributeError. |
| Pipeline.JaccardTableAsWritten | lta/helpers/pipeline.py:236-244 | `_jaccard` of one mode as written. A Category group without a second column is an IndexError, as in the intended table. |
| Pipeline.JaccardAsWrittenFails | lta/helpers/pipeline.py:236-244 | As written, `_jaccard` never yields a table. It raises AttributeError exactly where the intended table exists, and otherwise the intended table's IndexError. |
| Pipeline.JaccardAll | lta/helpers/pipeline.py:236-245 | Over the intended tables of "## Findings": it fails exactly when some mode's table fails. Otherwise it has one table per mode. |
| Pipeline.Binarised | lta/helpers/pipeline.py:56-59 | There is one `_post_process`ed frame per file, in file order, each well formed. |
| Pipeline.ALipids | lta/helpers/pipeline.py:210-216 | `a_lipids` has exactly the keys of `data`, each mapped to that mode's A-lipid table. |
| Pipeline.Pipeline.Create | lta/helpers/pipeline.py:55-69 | No files is a RuntimeError. Otherwise construction fails exactly when the split fails, with its ValueError. A new pipeline keeps `thresh` and `n`, `data` is the split of the binarised files, and `aLipids` is empty. |
| Pipeline.Pipeline.GetALipids | lta/helpers/pipeline.py:210-216 | `aLipids` becomes the A-lipid table of every bucket. `data` and the invariant are kept. |
| Pipeline.Pipeline.Jaccard | lta/helpers/pipeline.py:236-245 | The loop over the modes computes exactly the intended Jaccard tables of "## Findings", or the first failure. |
| Pipeline.Pipeline.Run | lta/helpers/pipeline.py:247-254 | `run` computes the A-lipids, then their intended Jaccard tables. As written, the Jaccard step raises AttributeError (see "## Findings"). |
| Utils.AddLevelToIndex | lta/helpers/utils.py:55-60 | It fails exactly on a non-empty flat index, with a TypeError (a string plus a tuple). Otherwise the result is a MultiIndex with `new_level_name` appended to the names, one entry per input entry, each input entry with `new_level` appended. |
| Utils.AddThenDropLevel | lta/helpers/utils.py:55-60 | Dropping the last level undoes adding one. |
| Utils.AddLevelExample | tests/unit/helpers/test_utils.py:31-43 | On the A/B/C by 1/2/3 product index, every tuple ends with "ADDED" under the name "newly added". |
| Utils.ResolveLevels | lta/helpers/utils.py:84 | When every name in `orders` resolves, the result is their level numbers, in order. Otherwise the error is that of the first name that does not resolve: KeyError for a missing name, ValueError for a duplicated one. |
| Utils.PermuteLevels | lta/helpers/utils.py:84 | Level i of the result is level `ps[i]` of the input, in names and in each tuple. |
| Utils.ReorderIndex | lta/helpers/utils.py:83-85 | A flat index is returned unchanged. A MultiIndex has its levels permuted into the order `orders` names. A name that does not resolve fails with that name's lookup error, before the length is checked. Otherwise a wrong length is an AssertionError. |
| Utils.ReorderResolved | lta/helpers/utils.py:83-84 | With distinct level names and a name for each level, the reordering is the permutation by the names' positions. |
| Utils.ReorderRoundTrip | lta/helpers/utils.py:83-84 | Reordering by a permutation of the names, then by the original names, restores the index. |
| Utils.ReorderExample | tests/unit/helpers/test_utils.py:46-57 | Reordering by ["numeric", "alphabet"] swaps the two levels of every tuple. |
| Utils.ReorderErrorExample | lta/helpers/utils.py:83-85 | Too few names is an AssertionError, an unknown name a KeyError, and a duplicated level name a ValueError even with too few names. A flat index passes through. |
| Utils.Unpressed | lta/helpers/utils.py:116-121 | The values left after the pressed ones are filtered out are exactly the level values not in `pressing`. |
| Utils.SortColumnsOrdering | lta/helpers/utils.py:111-124 | The ordering exists exactly when the level does. It is then the level ordering of that level's values, whose shape `Utils.LevelOrderingSpec` states. |
| Utils.LevelOrderingSpec | lta/helpers/utils.py:112-124 | The ordering starts with `pressing`, unchanged. The rest is strictly increasing, distinct, and holds exactly the unpressed level values. Every level value occurs in the ordering. |
| Utils.LevelOrdering | lta/helpers/utils.py:114-124 | The definition of the ordering: `pressing`, then the sorted distinct unpressed values. `Utils.LevelOrderingSpec` states its shape. |
| Utils.LevelOrderingExample | tests/unit/helpers/test_utils.py:60-76 | Pressing ["2", "3"] on the level values 1, 2, 3 (three times over) gives 2, 3, 1. |
| Utils.LevelOrderingUnpressedExample | lta/helpers/utils.py:119-123 | Without pressed values, b, a, b give a, b. |
| Utils.SortColumnsErrorExample | lta/helpers/utils.py:120 | An unknown level is a KeyError. |
| Ordering.SortedDistinctSpec | lta/helpers/utils.py:119-123 | `sorted` followed by `groupby` keys gives a strictly increasing sequence of exactly the input's values. |
| Ordering.SortedDistinctCharacterized | lta/helpers/data_handling.py:114 | That sequence is the only strictly increasing one holding exactly those values, so pandas' sorted group keys are determined. |
| CustomTypes.FloatRange.Iter | lta/helpers/custom_types.py:54-67 | Iterating yields the range itself, exactly once. |
| CustomTypes.FloatRange.Contains | lta/helpers/custom_types.py:52 | The definition of `start <= x <= end`, inclusive at both ends. `CustomTypes.ContainsEndpoints` and `CustomTypes.ContainsExample` state its behaviour. |
| CustomTypes.ContainsEndpoints | lta/helpers/custom_types.py:16-27 | Both stored endpoints belong to a non-empty range. |
| CustomTypes.ContainsExample | tests/unit/test_helpers_custom_types.py:25-29 | 0.5 is in [0, 1] and 2 is not. |
| CustomTypes.FloatRange.Repr | lta/helpers/custom_types.py:37 | The definition of the f-string `[start, end]`, with each endpoint printed by `CustomTypes.Show`. `CustomTypes.ReprReadsBack` and `CustomTypes.ReprExample` state what it prints. |
| CustomTypes.Show | lta/helpers/custom_types.py:37 | The definition of formatting an endpoint: `str(i)` for an int, `CustomTypes.ShowFloat` for a float. |
| CustomTypes.ShowFloat | lta/helpers/custom_types.py:37 | The definition of `repr(float)`: "0.0" for zero; otherwise the sign, then the normalised digits, positional or scientific by the leading exponent. Its lemmas follow. |
| CustomTypes.ShowZero | lta/helpers/custom_types.py:37 | Zero prints as "0.0", however many places it was written with. |
| CustomTypes.NonZeroParts | lta/helpers/custom_types.py:37 | A non-zero float prints as its sign and the digits m·10^e of its magnitude. m has no trailing zero, and m·10^e equals the magnitude. |
| CustomTypes.ExponentBounds | lta/helpers/custom_types.py:37 | The exponent E that picks the notation is that of the leading digit: `10^E <= \|x\| < 10^(E+1)`. |
| CustomTypes.ShowPositionalReadsBack | lta/helpers/custom_types.py:37 | For -4 <= E < 16 a non-zero float prints as its sign, whole digits, a point and fraction digits. The whole part has no leading zero and the fraction no trailing zero, except a lone "0". Together they read back as the magnitude. |
| CustomTypes.ShowScientificReadsBack | lta/helpers/custom_types.py:37 | Otherwise it prints as one non-zero digit, an optional fraction without a trailing zero, "e", the exponent's sign and at least two exponent digits. The exponent digits read back as \|E\|, and the mantissa times 10^E reads back as the magnitude. |
| CustomTypes.ShowDependsOnValue | lta/helpers/custom_types.py:37 | Two spellings of the same float print alike, so the printed form depends on the value alone. |
| CustomTypes.SameMagnitudeShow | lta/helpers/custom_types.py:37 | Non-zero floats of the same sign and the same magnitude print alike. |
| CustomTypes.ReprReadsBack | lta/helpers/custom_types.py:37 | With integer endpoints, `repr` is "[s, e]" where s and e read back as the endpoints. |
| CustomTypes.ReprExample | tests/unit/test_helpers_custom_types.py:17-22 | `repr(FloatRange(0, 1))` is "[0, 1]", and `repr(FloatRange(0.0, 0.5))` is "[0.0, 0.5]". |
| CustomTypes.ShowHalfExample | lta/helpers/custom_types.py:37 | 0.5 prints as "0.5". |
| CustomTypes.ShowTrailingZeroExample | lta/helpers/custom_types.py:37 | 0.50 prints as "0.5": no padding zeros. |
| CustomTypes.ShowWholeExample | lta/helpers/custom_types.py:37 | 1.0 prints as "1.0". |
| CustomTypes.ShowSmallPositionalExample | lta/helpers/custom_types.py:37 | 0.0001 is still positional: "0.0001". |
| CustomTypes.ShowSmallScientificExample | lta/helpers/custom_types.py:37 | 0.00001 prints as "1e-05". |
| CustomTypes.ShowNegativeScientificExample | lta/helpers/custom_types.py:37 | -0.0000015 prints as "-1.5e-06". |

## Left out

- Reading files is not modelled.
  - This covers `construct_df`, `_construct_df`, directory iteration, `mkdir` and every `to_csv` write.
  - `FileNotFoundError` and `NotADirectoryError` are left out with them.
  - `Pipeline.Pipeline.Create` receives the count tables of the folder's files directly.
  - Tables that `_jaccard` wrote before a later mode failed are not in the model.
- Printed messages are not modelled as output. A degenerate bootstrap returns a `Notice` tag instead.
- `enfc` and `merge_dataframe_by_columns` are not modelled. The first is floating-point statistics; the second is a bare `pd.concat`.
- The CLI, parser, normaliser and clustering wrappers are not modelled.
- The seven-argument callers of `Pipeline` are not modelled; the class follows the four-field dataclass.
- numpy's PCG64 generator is not modelled.
  - `bootstrap` receives its resamples as index sequences (`Draw`).
  - The pipeline receives a `sampler`. Because every call seeds the generator with 42, the resamples depend only on the vector length.
  - So the regression value (1/3, 0.6) is not reproduced.
- Jaccard.Bootstrap: the null scores are not rounded to float32 before the comparison. They are compared as exact reals.
- Jaccard.Div: floating-point division is exact real division, and division by zero gives NaN.
  - numpy gives ±inf for a non-zero numerator, and plain Python floats raise ZeroDivisionError.
  - So an expected value `px*py / (px + py - px*py)` with a zero denominator is NaN here.
- Jaccard.Bootstrap: a negative `n` is not modelled; `n` is a `nat`.
- Floats are modelled as exact reals. Only 0, 1 and NaN are distinguished where the source tests them.
- pandas column order after joining the metadata back in `_post_process` is taken to be the order of `metadata`. pandas may reorder columns.
- Lipid labels are assumed distinct within one frame. With duplicate labels, the inner join matches the first occurrence only.
- Pipeline.JaccardOfMode: the `J_dist` column is replaced as a whole sequence, as the pandas column assignment does. It models the intended table; the code as written is under "## Findings".
- `sort_columns` is modelled only up to the level ordering it computes. The `reindex` of the frame is not modelled.
- Utils.ReorderIndex: levels are named by strings only. Integer level positions in `orders` are not modelled.
- Utils.SortColumnsOrdering: `level` is a level name only. `sort_columns` also accepts an integer level position, which `get_level_values` resolves; that case is not modelled, and neither is it in Frames.LevelValues.
- Pipeline.SplitData: a frame with no columns lands in no bucket.
  - This follows numpy before 2.2, where an empty comparison array is false in an `if`.
  - numpy 2.2 and later raise ValueError there instead, which is not modelled.
- DataHandling.FixtureNotZero: the test's expected frame has the flat row index ["b", "c"], while the code keeps the fixture's three-level (x, y, z) row index. The model follows the code; `DataHandling.FixtureIndexNotFlat` states the difference.
- CustomTypes.ShowFloat: a float is taken to be exactly `units / 10^places`, not the nearest double.
  - So it matches `repr` only for values with at most 15 significant digits in the normal double range.
  - Python rounds every literal to the nearest double, so `0.30000000000000001` prints as "0.3" and `9007199254740993.0` as "9007199254740992.0", where the model prints the digits given.
  - Values beyond the double range (`1e-400` prints "0.0", `1e400` "inf") and subnormals are not modelled.
  - There is no signed zero: `-0.0` prints "-0.0" in Python, while `Decimal(0, p)` prints "0.0".
  - The only caller builds `FloatRange(0, 1)` from ints, which print exactly.
- Labels are strings only. Mixed-type labels and Python's TypeError when comparing them are not modelled.
- Where the documentation and the code differ, the code is followed:
  - `not_zero` prunes only the entities of the axis that is not grouped.
  - `FloatRange.__iter__` yields the range once, not indefinitely.

## Findings

| source | as written | input that shows it | evidently intended | confidence | as-written member | corrected member |
|---|---|---|---|---|---|---|
| lta/helpers/pipeline.py:237-241 | `bootstrap` returns a Series on the index J-sim, p-val, so `groupby(...).apply` builds a DataFrame, and `sim.to_list()` raises AttributeError | any mode whose A-lipid table has two phenotype columns, such as one lipid of Category PC under two phenotypes | a Series of (J-sim, p-val) pairs, one per Category, made into the two-column table J_dist, p-val | not executed | Pipeline.JaccardTableAsWritten, Pipeline.JaccardAsWrittenFails | Pipeline.JaccardTable, Pipeline.JaccardOfMode, Pipeline.JaccardAll, Pipeline.Pipeline.Jaccard, Pipeline.Pipeline.Run |
