# Routine detection — a verified model of the pipeline core

This project models the data-processing core of the routine-detection pipeline in Dafny, together with proofs about that model. The pipeline turns GPS trajectories and OpenStreetMap-enriched tiles into per-user "routine" and "non-routine" location profiles. The model covers these stages, following the source's branches, edge cases and error conditions except where "## Left out" says otherwise:

- **Tile signatures** (`calculate_bow`, module `SemanticContext`). The model drops incomplete rows and normalises labels (space, comma and hyphen become `_`). It joins each tile's labels into a context, tokenises the contexts as CountVectorizer does (lower-case, at least two characters), builds the sorted vocabulary and one term-count vector per tile, and keeps the first row of each tile. An empty vocabulary is an error.
- **Semantic locations** (`merge_locations`, module `SemanticLocations`). The model builds the neighbour map from a similarity relation and runs the greedy, index-ordered category assignment in place. A seed's neighbours receive the element-wise "all non-zero" sum of the seed's and neighbours' vectors, and leftover tiles get singleton ids. The tiles of one category are then dissolved into one location, which keeps the attributes of its first row and gets a context of the terms with a positive count.
- **Dwell summary** (`summarization`, `compute_time_part`, module `Summarization`). The model sorts by user, trajectory and time, takes the per-trajectory time difference, day of week and hour, and groups by user, trajectory and category. Per group it computes the summed time and the day and hour lists, and takes the bag and context of the group's first row. It then drops uncategorised rows and inner-joins with the locations' geometry. The day-name variant is the same summary with weekday names.
- **Relevance and taxonomy** (`calculate_relevance`, `assign_taxonomy`, module `Clustering`, class `VisitTable`). Relevance is time as a share of the user's total time. The conversion to seconds exists in two forms: `SecondsAsWritten` casts first and fails on a missing duration, as the source does, and `Seconds` fills missing durations with 0 first. `VisitTable.CalculateRelevance` uses `Seconds`, the corrected behaviour of the first "## Findings" row. The 25th, 50th and 75th percentiles use linear interpolation. The four-bin cut into Insignificant, Sporadic, Transit and Significant locations refuses an empty column, missing relevances and tied bin edges.
- **Diversity and category counts** (`calculate_entropy_and_diversity_per_taxonomy`, module `Evaluation`). For each (user, taxonomy) pair the model takes the number of distinct context terms and divides it by the user's total. The category histogram in descending order is what the entropy is computed from. The entropy function itself is a parameter.
- **Routine detection** (`detect_routine`, module `Routine`, class `ProfileTable`). The model sorts by user and entropy and takes each user's first and last row, where every column is the first or last non-missing value. It keeps the Significant and Transit rows of each and concatenates them. The final selection of `uid` fails in the source, because `uid` has become the index; `UidSelectionFails` models that. `ProfileTable.DetectRoutine` returns the rows the selection evidently intends, the corrected behaviour of the second "## Findings" row.
- **Term pivot** (`save_most_common_words`, module `MostCommonWords`). The model builds the header of `uid` plus one column per term and taxonomy, and sums the bags per (user, taxonomy). The bags are Python lists, so that sum concatenates them, and the cell of a term is entry i of the concatenation, where i is the term's vocabulary position: the term's count in the pair's first location. For each user it fills a dictionary with the vector entries, in loops as written, and fills missing cells with 0. A vector shorter than the vocabulary raises an IndexError.

`Common` holds Option, Result, the quotient type `Ratio` (a finite value, or the NaN/inf pandas produces for a zero divisor) and `Unique` (pandas `unique`). `Sorting` holds the insertion sort that stands for every `sort_values` and `groupby` key order.

Inputs that the model takes as parameters:

- The cosine-similarity test, as a boolean matrix.
- The geometry of each tile.
- The entropy function.
- The per-(user, taxonomy) sum of bags, because a sum of Python lists concatenates them.

## Model

| member | source | states |
|---|---|---|
| SemanticContext.DropMissing | src/compute_semantic_context.py:22 | every complete row is kept and every kept row comes from a complete input row |
| SemanticContext.DropMissingInOrder | src/compute_semantic_context.py:22 | `DropMissing` keeps table order and multiplicity: row x of the result is the x-th complete row (`Where(tiles, Complete)`, strictly increasing positions) |
| SemanticContext.NormalizeLabel | src/compute_semantic_context.py:25-27 | each space, comma and hyphen becomes `_`, every other character is kept, and no separator is left |
| SemanticContext.NormalizeColumn | src/compute_semantic_context.py:25-27 | only the label column changes, row by row |
| SemanticContext.LabelsOf | src/compute_semantic_context.py:32 | every label joined into a tile's context is a label of a row of that tile |
| SemanticContext.LabelsComplete | src/compute_semantic_context.py:32 | every label of a row of the tile is joined into its context |
| SemanticContext.LabelsInRowOrder | src/compute_semantic_context.py:32 | label x of a tile is the label of its x-th row in table order (`RowsOf`, strictly increasing positions), so the context joins all the tile's labels in row order |
| SemanticContext.Words | src/compute_semantic_context.py:35-38 | tokenisation splits into non-empty, space-free words |
| SemanticContext.TokensOfWords | src/compute_semantic_context.py:35-38 | there is one token per word of at least two characters, and every token has at least two characters |
| SemanticContext.TokensOfWordsInOrder | src/compute_semantic_context.py:35-38 | token x is the lower-cased x-th word of at least two characters, in word order |
| SemanticContext.TokensOfWordsMembers | src/compute_semantic_context.py:35-38 | every word of at least two characters yields its lower-cased form as a token, and every token is such a lower-cased word |
| SemanticContext.WordsOfJoin | src/compute_semantic_context.py:32 | splitting the space-joined labels gives back the non-empty labels |
| SemanticContext.TileTokens | src/compute_semantic_context.py:32-38 | a tile's tokens are the tokens of its labels, in order |
| SemanticContext.AllTokensMember | src/compute_semantic_context.py:38 | a term occurs in some context if and only if it is a token of that context |
| SemanticContext.LexOrder | src/compute_semantic_context.py:47 | the vocabulary order is total and transitive |
| SemanticContext.Vocabulary | src/compute_semantic_context.py:38-47 | the vocabulary holds exactly the tokens of the contexts, strictly increasing |
| SemanticContext.BagOfWords | src/compute_semantic_context.py:38-40 | entry k is the number of occurrences of vocabulary term k among the context's tokens |
| SemanticContext.WithBow | src/compute_semantic_context.py:32-40 | every row gets its tile's context and that context's vector |
| SemanticContext.SameTileSameBow | src/compute_semantic_context.py:32-40 | two rows of the same tile get the same context and vector |
| SemanticContext.DropDuplicates | src/compute_semantic_context.py:43 | one row per tile id in order of first appearance, and it is that id's first row |
| SemanticContext.OneRowPerTile | src/compute_semantic_context.py:32-43 | the result has one row per distinct tile id, in order of first appearance, each holding that tile's first row with its context and vector |
| SemanticContext.NormalizeCategories | src/compute_semantic_context.py:25-27 | the three column rewrites give `NormalizeColumn` of the rows |
| Common.UniqueInFirstAppearanceOrder | src/compute_semantic_context.py:43 | `Unique`, which `DropDuplicates` and the per-user rows rely on, lists elements in order of first appearance |
| SemanticContext.CalculateBow | src/compute_semantic_context.py:6-49 | fails exactly when the vocabulary is empty, otherwise returns the vocabulary and one row per distinct tile holding its context and vector |
| SemanticLocations.Neighbours | src/compute_semantic_locations.py:28 | the neighbour list holds exactly the other tiles above the threshold, increasing |
| SemanticLocations.NeighbourList | src/compute_semantic_locations.py:28 | the loop builds the neighbour list of one tile |
| SemanticLocations.SimilarPolygons | src/compute_semantic_locations.py:27-30 | the loop builds the map of tiles that have neighbours to their neighbour lists |
| SemanticLocations.SimilarMapValid | src/compute_semantic_locations.py:27-30 | in `SimilarMap` a tile is a key iff it has a neighbour, and its list holds exactly its neighbours |
| SemanticLocations.Combined | src/compute_semantic_locations.py:41-43 | the combined vector is the column sum where every member is non-zero and 0 elsewhere |
| SemanticLocations.SeedStepEffect | src/compute_semantic_locations.py:37-46 | `SeedStep`: a seed at -1 gives itself and its neighbours the next id, the neighbours get the combined vector, the seed keeps its own, and nothing else changes |
| SemanticLocations.SeedTurn | src/compute_semantic_locations.py:37-46 | one turn of the first loop, written in place into the two columns, is `SeedStep` on the old columns |
| SemanticLocations.SingletonStepEffect | src/compute_semantic_locations.py:48-52 | `SingletonStep`: a tile at -1 gets the next id and its own vector, and nothing else changes |
| SemanticLocations.SingletonTurn | src/compute_semantic_locations.py:48-52 | one turn of the second loop, written in place, is `SingletonStep` on the old columns |
| SemanticLocations.SeedPassInRange | src/compute_semantic_locations.py:37-46 | after `SeedPass` every tile is at -1 or holds an id already handed out |
| SemanticLocations.AssignCategories | src/compute_semantic_locations.py:32-52 | the in-place seed and singleton passes compute the category and vector assignment `Merge` |
| SemanticLocations.MergePartitions | src/compute_semantic_locations.py:32-52 | after `Merge`, the two passes, every tile ends with a category in 0 .. count-1 |
| SemanticLocations.SingletonPassCovers | src/compute_semantic_locations.py:48-52 | the singleton pass leaves no tile at -1 and never lowers the counter |
| SemanticLocations.NoSimilarPairsGivesSingletons | src/compute_semantic_locations.py:27-52 | with no similar pair, tile i gets category i and keeps its vector |
| SemanticLocations.SymmetricMergeKeepsEveryId | src/compute_semantic_locations.py:37-52 | with a symmetric relation every id handed out is still held by some tile at the end |
| SemanticLocations.MergeWritesCombinedOnlyToNeighbours | src/compute_semantic_locations.py:41-45 | each tile's vector is its own or the combined vector of a seed it neighbours |
| SemanticLocations.MergeUniform | src/compute_semantic_locations.py:33-51 | all new vectors keep the vocabulary length |
| SemanticLocations.NewContext | src/compute_semantic_locations.py:58 | the new context lists exactly the terms with a positive count, in vocabulary order: entry x is the term at the x-th positive position |
| SemanticLocations.LocationOf | src/compute_semantic_locations.py:54-58 | a dissolved location takes the first member's attributes and holds exactly the members' polygons |
| SemanticLocations.Dissolve | src/compute_semantic_locations.py:54 | one location per used category, in increasing category order |
| SemanticLocations.MergeLocations | src/compute_semantic_locations.py:6-60 | the method computes the merged, dissolved locations |
| SemanticLocations.SymmetricMergeIsDense | src/compute_semantic_locations.py:35-54 | with a symmetric relation the ids of `MergedLocations` are exactly 0 .. count-1 |
| SemanticLocations.NoSimilarPairsKeepTiles | src/compute_semantic_locations.py:6-60 | with no similar pair every tile becomes its own location unchanged |
| SemanticLocations.DissolveKeepsSeedVector | src/compute_semantic_locations.py:43-54 | for two similar tiles, the neighbour gets the combined vector but the dissolved location keeps the seed's own vector |
| SemanticLocations.OwnVectorContext | src/compute_semantic_locations.py:58 | the context recomputed from a tile's own vector is its vocabulary tokens |
| Summarization.SortPoints | src/summarization.py:28 | the rows are a permutation sorted by user, trajectory and time |
| Summarization.TimeDiff | src/summarization.py:31 | the difference is missing iff no earlier row is on the trajectory, else it is the time since the last such row |
| Summarization.SortedTimeDiff | src/summarization.py:28-31 | after sorting, the difference is to the previous row when it is on the same trajectory, and it is non-negative |
| Summarization.Day | src/summarization.py:34 | the day of week is in 0..6 |
| Summarization.Hour | src/summarization.py:37 | the hour is in 0..23 |
| Summarization.DayAdvances | src/summarization.py:34 | one day later is the next day of week |
| Summarization.EpochCalendar | src/summarization.py:34-37 | the epoch is a Thursday at hour 0 |
| Summarization.Groups | src/summarization.py:40 | the groups are exactly the (user, trajectory, category) keys of categorised rows, strictly increasing |
| Summarization.GroupRows | src/summarization.py:40 | a group's rows are exactly the rows with its key, in row order |
| Summarization.GroupTimeNonNegative | src/summarization.py:28-43 | `GroupTime`, a group's summed difference with missing ones skipped, is non-negative in time-sorted rows |
| Summarization.DwellOf | src/summarization.py:40-56 | a dwell has the group's key, summed time and day and hour lists, and the first row's bag and context |
| Summarization.SummaryKeys | src/summarization.py:40-58 | `Summarize` has one row per group of the sorted rows, in group order, keyed by that group |
| Summarization.SummaryGroups | src/summarization.py:40-58 | one dwell per key present in the input, in increasing key order |
| Summarization.TimeSpentNonNegative | src/summarization.py:31-43 | every dwell time is non-negative |
| Summarization.DwellListsInTimeOrder | src/summarization.py:46-55 | the day and hour lists follow the group's rows in time order and the bag comes from its earliest row |
| Summarization.DwellListsPerPoint | src/summarization.py:46-47 | the lists have one entry per input point of the group |
| Summarization.SummaryTimeIsDiffs | src/summarization.py:31-43 | the dwell times of a fully categorised trajectory add up to its sum of time differences |
| Summarization.TrajectoryTimeIsSpan | src/summarization.py:28-43 | those dwell times add up to the trajectory's last time minus its first time |
| Summarization.InnerMerge | src/summarization.py:62 | every joined row carries a summary row and a geometry of that row's category |
| Summarization.Summarization | src/summarization.py:60-62 | every row of the result is a row of `Summarize` joined with a polygon of its category |
| Summarization.Matches | src/summarization.py:62 | every joined row carries the dwell and a geometry of its category |
| Summarization.Located | src/summarization.py:60-62 | the dwells kept are exactly those whose category has a location |
| Summarization.MatchesUnique | src/summarization.py:62 | with unique location categories a dwell is joined once or dropped |
| Summarization.InnerMergeFilters | src/summarization.py:62 | the inner join is the located dwells, each with its location's geometry |
| Summarization.DissolvedCategoriesUnique | src/summarization.py:62 | the dissolved locations have unique categories, so the join never duplicates a dwell |
| Summarization.DayName | src/summarization.py:73 | the day name is one of the seven weekday names, and Saturday or Sunday exactly when the weekday number is 5 or 6 |
| Summarization.TimePartsOf | src/summarization.py:79-97 | one time part per group key, in key order |
| Summarization.TimePartIsSummaryWithNames | src/summarization.py:67-97 | `ComputeTimePart` equals the summary with each day number replaced by its weekday name |
| Clustering.SecondsAsWritten | src/clustering.py:14 | the integer cast fails iff some duration is missing, and otherwise keeps every value |
| Clustering.Seconds | src/clustering.py:14-15 | missing durations become 0 and the rest are kept |
| Clustering.FillAfterCastIsDead | src/clustering.py:14-15 | the fill changes nothing after a successful cast, and a missing duration makes the cast fail |
| Clustering.Relevances | src/clustering.py:18 | one relevance per row, each the row's `Relevance` |
| Clustering.UserTimesMember | src/clustering.py:18 | a row's seconds are among those summed into its user's `UserTotal` |
| Clustering.RelevanceInUnitInterval | src/clustering.py:18 | a `Relevance` is undefined iff the user's total is 0, and otherwise lies in [0, 1] |
| Clustering.ZeroRelevance | src/clustering.py:18 | a zero duration has relevance 0, or undefined when the user's total is 0 |
| Clustering.RelevanceSumsToOne | src/clustering.py:18 | a user's relevances sum to 1 when the user's total is not 0 |
| Clustering.RelevanceIgnoresOtherUsers | src/clustering.py:18 | changing another user's row leaves a relevance unchanged |
| Clustering.Percentile | src/clustering.py:132 | a percentile lies between two values of the column |
| Clustering.PercentileBetween | src/clustering.py:132 | a percentile lies between the sorted values on either side of its position |
| Clustering.PercentileMonotone | src/clustering.py:132 | a higher percentage gives a percentile at least as large |
| Clustering.PercentileInRange | src/clustering.py:132 | a percentile lies between the column's minimum and maximum |
| Clustering.CutPoints | src/clustering.py:132-137 | fails on an empty column or a missing relevance, and otherwise gives strictly increasing cut points |
| Clustering.CutPointsArePercentiles | src/clustering.py:132 | the cut points are the 25th, 50th and 75th percentiles |
| Clustering.DistinctPercentilesCut | src/clustering.py:132-137 | distinct percentiles are accepted as cut points |
| Clustering.TiedPercentilesRefused | src/clustering.py:135-139 | tied percentiles make the cut fail |
| Clustering.EqualRelevancesRefused | src/clustering.py:132-139 | two equal relevances are refused |
| Clustering.Label | src/clustering.py:135-139 | each taxonomy is chosen exactly on its half-open interval between cut points |
| Clustering.LabelMonotone | src/clustering.py:135-139 | a higher relevance never gets a lower taxonomy |
| Clustering.Taxonomies | src/clustering.py:129-139 | succeeds iff the cut points exist, and labels every row by its relevance |
| Clustering.EightRelevances | src/clustering.py:129-139 | relevances 0.1 .. 0.8 cut at 0.275, 0.45, 0.625 and give two rows of each taxonomy |
| Clustering.VisitTable.constructor | src/clustering.py:9 | the table holds the given users and durations, with no relevance or taxonomy yet |
| Clustering.VisitTable.CalculateRelevance | src/clustering.py:9-20 | durations become seconds and the relevance column is set; the conversion is the corrected `Seconds` of the first Findings row, so a missing duration becomes 0 where the source raises |
| Clustering.VisitTable.AssignTaxonomy | src/clustering.py:115-141 | sets the taxonomy column on success, and on failure reports the cut error and changes nothing |
| Evaluation.Keys | src/evaluation.py:22-25 | the groups are exactly the (user, taxonomy) pairs present, strictly increasing |
| Evaluation.Members | src/evaluation.py:22-25 | a group holds exactly the rows with its key |
| Evaluation.Terms | src/evaluation.py:25-26 | the term set holds exactly the terms of the rows' contexts |
| Evaluation.TermCounts | src/evaluation.py:26 | each group's count is the number of its distinct terms |
| Evaluation.DiversityCountIsDistinctTerms | src/evaluation.py:25-26 | a term is counted iff some row of the group has it in its context |
| Evaluation.Counts | src/evaluation.py:22 | one positive count per category present, equal to its multiplicity |
| Evaluation.Histogram | src/evaluation.py:22 | the counts in descending order |
| Evaluation.CountsIgnoreRowOrder | src/evaluation.py:22 | reordering a group's rows does not change its counts |
| Evaluation.EntropyDependsOnlyOnCounts | src/evaluation.py:22 | groups with the same counts get the same histogram and `GroupEntropy` |
| Evaluation.EntropyAndDiversity | src/evaluation.py:22-31 | one profile per group, in group order, with its entropy and diversity |
| Evaluation.ProfilesCoverPairs | src/evaluation.py:22-31 | a profile exists for a (user, taxonomy) pair iff the pair occurs in the input |
| Evaluation.ProfilesOrdered | src/evaluation.py:22-31 | the profiles are strictly ordered by user, then taxonomy |
| Evaluation.DiversityIsShare | src/evaluation.py:28 | a diversity of `Diversities` is undefined iff the user's total count is 0, and otherwise lies in [0, 1] |
| Evaluation.DiversitySumsToOne | src/evaluation.py:28 | a user's diversities sum to 1 when the user's total is not 0 |
| Evaluation.EmptyContextsGiveZero | src/evaluation.py:25-28 | a group whose contexts are empty has diversity 0, or undefined when the user's total is 0 |
| Routine.SortProfiles | src/detect_routine.py:17 | the rows are a permutation sorted by user, then entropy |
| Routine.Users | src/detect_routine.py:19-20 | the users are exactly those present, strictly increasing |
| Routine.FirstDiversity | src/detect_routine.py:19 | `first` takes the first defined diversity of the user, when there is one |
| Routine.LastDiversity | src/detect_routine.py:20 | `last` takes the last defined diversity of the user, when there is one |
| Routine.MinEntropy | src/detect_routine.py:19 | one row per user, built from the user's first rows |
| Routine.MaxEntropy | src/detect_routine.py:20 | one row per user, built from the user's last rows |
| Routine.FirstRowHasLowestEntropy | src/detect_routine.py:17-19 | `FirstRow`, the first row, has the user's lowest entropy |
| Routine.LastRowHasHighestEntropy | src/detect_routine.py:17-20 | `LastRow`, the last row, has the user's highest entropy |
| Routine.WithTaxonomy | src/detect_routine.py:22-25 | the filter keeps exactly the rows of one taxonomy |
| Routine.KeptMembers | src/detect_routine.py:22-28 | `Kept`, the concatenation behind `RoutineRows` and `NonRoutineRows`, holds exactly the Significant and Transit rows |
| Routine.SignificantBeforeTransit | src/detect_routine.py:28 | Significant rows come before Transit rows |
| Routine.OneRowPerUser | src/detect_routine.py:19-33 | the routine and non-routine tables have at most one row per user |
| Routine.RoutineMembership | src/detect_routine.py:19-28 | a user has a routine row iff the user's lowest-entropy row is Significant or Transit, and the routine row is that row |
| Routine.RoutineHasLowestEntropy | src/detect_routine.py:17-28 | a routine row is Significant or Transit and has its user's lowest entropy |
| Routine.NonRoutineHasHighestEntropy | src/detect_routine.py:17-32 | a non-routine row is Significant or Transit and has its user's highest entropy |
| Routine.RoutineBelowNonRoutine | src/detect_routine.py:17-32 | a user's routine entropy is at most the user's non-routine entropy |
| Routine.ProfileTable.constructor | src/detect_routine.py:3 | the table holds the given rows |
| Routine.ProfileTable.DetectRoutine | src/detect_routine.py:3-35 | sorts the table in place and returns its routine and non-routine rows; this is the corrected behaviour of the second Findings row, since the source's `uid` selection raises a KeyError |
| Routine.GroupedColumns | src/detect_routine.py:19 | grouping by a key removes the key from the columns |
| Routine.SelectColumns | src/detect_routine.py:29 | the selection succeeds iff every wanted column exists, and otherwise names a missing one |
| Routine.UidSelectionFails | src/detect_routine.py:19-33 | selecting `uid` after grouping by `uid` fails, while the same selection on the ungrouped columns succeeds |
| MostCommonWords.TermColumns | src/most_common_words.py:7 | the term columns are exactly the (term, taxonomy) pairs of the vocabulary and the taxonomies |
| MostCommonWords.HeaderColumns | src/most_common_words.py:7 | the `Header` holds `uid` and exactly the (term, taxonomy) pairs of the vocabulary and the frame |
| MostCommonWords.HeaderDistinct | src/most_common_words.py:7 | with distinct terms no column is listed twice |
| MostCommonWords.LabelInjective | src/most_common_words.py:7-26 | distinct columns have distinct labels |
| MostCommonWords.HeaderLabelsDistinct | src/most_common_words.py:7 | with distinct terms the header repeats no label |
| MostCommonWords.Aggregated | src/most_common_words.py:9 | one summed row per (user, taxonomy) pair of the frame, each pair once, holding that pair's bag |
| MostCommonWords.Find | src/most_common_words.py:19-21 | the lookup finds a row iff one matches the user and taxonomy, and returns a matching row's bag |
| MostCommonWords.FindAggregated | src/most_common_words.py:9-21 | the lookup returns the pair's summed bag if the pair is in the frame, and nothing otherwise |
| MostCommonWords.LastIndexOf | src/most_common_words.py:25-26 | a repeated term keeps the entry written last |
| MostCommonWords.WriteTerms | src/most_common_words.py:24-26 | fails at the vector's length iff it is shorter than the vocabulary, and otherwise adds one cell per term and keeps other taxonomies' cells |
| MostCommonWords.UserData | src/most_common_words.py:14-26 | fails iff some visited taxonomy has a short vector, and otherwise holds exactly the user's cells |
| MostCommonWords.Fill | src/most_common_words.py:34 | missing cells become 0 and only header columns are present |
| MostCommonWords.PivotUsers | src/most_common_words.py:12 | the table has a row for exactly the users of the frame |
| MostCommonWords.CellOfFrame | src/most_common_words.py:19-34 | a term's `Cell` is the vector entry of the user's summed bag for that taxonomy, or 0 when there is no such vector |
| MostCommonWords.SaveMostCommonWords | src/most_common_words.py:5-36 | fails iff some summed vector is shorter than the vocabulary, naming such a vector, and otherwise returns the header and one complete row per user |

## Left out

- Geometry: polygon union in `dissolve`, the spatial join, and CRS handling. A location keeps the list of its members' polygons.
- Cosine similarity and the threshold are not modelled. `merge_locations` takes the outcome of `sim > threshold` as a boolean matrix.
- Floating-point arithmetic: the model uses exact reals throughout, in relevances, percentiles and diversity shares.
- The entropy formula (`scipy.stats.entropy`) is a parameter. The model proves what it is applied to.
- KMeans clustering, silhouette and elbow selection (`cluster_tiles*`, `assign_labels*`, `clustering_users`), the tessellation and tile enrichment steps, the orchestration in `main.py`, and all file and plotting I/O are not modelled.
- Sorting.SortBy: ties among equal sort keys keep input order. That matches the multi-key sorts at src/summarization.py:28 and src/detect_routine.py:17, which pandas performs with a stable lexicographic sort. It is also how groupby orders its group keys.
- SemanticContext.Tokens: CountVectorizer splits on every non-word character and lower-cases Unicode. The model splits at spaces only, the separators that survive label normalisation, and lower-cases ASCII letters.
- Clustering.Relevances: an infinite quotient is not distinguished from NaN. Both are `Undefined`.
- Clustering.Taxonomies: `pd.cut` returns a categorical column, and `groupby` on it with `observed=False` would add empty groups. The model's groups are only the pairs present.
- Routine.DetectRoutine: `reset_index` is modelled as a no-op on the already flat profile table.
- The `type(x) == list else 0` branch of the diversity count (src/evaluation.py:26) is not modelled. It applies only to a (user, taxonomy) pair with no rows, and the model has no such pairs, as the next two lines say.
- Evaluation.EntropyAndDiversity: the model groups by the observed (user, taxonomy) pairs only, as with `observed=True`. The taxonomy column is categorical (`pd.cut`, src/clustering.py:135). With the default `observed=False`, pandas can list every user × taxonomy combination. Each absent pair would then get a missing entropy and, through the else branch of line 26, a diversity of 0. `Keys`, `EntropyAndDiversity` and `ProfilesCoverPairs` do not include such rows.
- Routine.DetectRoutine: the model's profile table holds observed pairs only. If the table held the absent-pair rows above, their missing entropies would sort last. `last()` would then pair the taxonomy of an absent pair with the user's largest finite entropy and a diversity of 0. `MaxEntropy` and `NonRoutineRows` do not capture this.
- Summarization.DayName: the weekday name is computed from the same integer seconds as `Day`. Time zones and timestamp types are not modelled.
- MostCommonWords.Aggregated: the summed bag of each (user, taxonomy) pair is an input (`bagOf`), because a sum of Python lists concatenates them. The model does not fix how long that concatenation is.
- MostCommonWords.SaveMostCommonWords: on failure the contract names a short vector but does not say it is the first met in user-then-taxonomy order. The body visits them in that order.
- MostCommonWords.SaveMostCommonWords: cells are keyed by column. A header that repeats a column, which needs a repeated vocabulary term, shares one cell between the copies. Distinct terms never repeat a column (`HeaderLabelsDistinct`).

## Findings

| source | as written | input that shows it | evidently intended | confidence | as-written member | corrected member |
|---|---|---|---|---|---|---|
| src/clustering.py:14-15 | durations are cast to integer seconds before missing values are filled with 0, so the fill can never apply: the cast fails on a missing duration | one visit with a missing (NaT) duration | fill missing durations with 0, then cast | not executed | Clustering.SecondsAsWritten | Clustering.Seconds |
| src/detect_routine.py:29,33 | after `groupby(uid).first()` / `.last()` the user id is the index, not a column, so selecting `uid` raises a KeyError | any profile table, e.g. one row for user 1 | keep the user id as a column (`as_index=False` or `reset_index`) before the selection | not executed | Routine.UidSelectionFails | Routine.RoutineMembership |
