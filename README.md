# SMAPH training-data store and greedy link-back, in Dafny

SMAPH annotates web-search queries with Wikipedia entities. This project models the deterministic
core around its learning pipeline:

- `ExampleGatherer` (module `Gathering`, `example_gatherer.dfy`): the append-only store of example
  groups, one group per processed query, each with its (feature pack, target) pairs, an optional
  parallel list of candidate objects and a gold object, plus the latched feature count. It re-exports
  its contents as LibSVM problems, per-group pairings, a pointwise line dump and a ranking dump
  (sort, reverse, dense ranks, query id = group index).
- Greedy link-back (module `LinkBack`, `link_back.dfy`): the entity × segment cross product, the
  best-score-over-feature-vectors loop, and `getResult` (stable ascending sort, reverse, stop at the
  first score below the threshold, accept every candidate that overlaps nothing accepted so far).
- `getFtrListRepresentation` / `getModelFileNameBaseRL` (module `GenerateModel`): the run-length
  range writer over a sorted feature list (`1-3,5`), with a parser proving the round trip.
- `gatherExamples` / `goldBoolToDouble` (module `GenerateTraining`): the limit clamp and the rule
  that each processed query adds exactly one group to each non-null gatherer.
- `SmaphBuilder` (module `SmaphBuilder`): `websearchFromString`, the version labels, the source and
  default labels, and the best-model resource and file names.
- `QueryInformation.allCandidates` (module `QueryInformation`): the lazily cached union of the
  enabled sources' candidate sets.
- `FrequencyAnnotationFilter.filterAnnotations` (module `FrequencyFilter`): the ratio filter.

Shared modules: `Basics` (Option, Min/Max), `Decimal` (Java's decimal text of an `int` and a
parser for it), `Sorting` (the stable in-place insertion sort on pairs that `Collections.sort`
stands for, the in-place reverse, and the `int` sort that `Arrays.sort` stands for), and
`Annotations` (tags, annotations, scores with negative infinity, half-open overlap).

Stateful Java objects are Dafny classes: `ExampleGatherer` keeps its three parallel lists and
`ftrCount` as fields under a `Valid()` invariant, `QueryInformation` keeps its cache field, and the
gatherers passed to `gatherExamples` are nullable references. In-place algorithms (`Arrays.sort`,
`Collections.sort` + `Collections.reverse`, the writer loop) are methods over arrays or with loops,
each proved against a specification function whose properties are proved as lemmas.

Source paths below are relative to the repository root.

## Model

| member | source | states |
|---|---|---|
| Gathering.ExampleGatherer.constructor | src/main/java/it/acubelab/smaph/learn/ExampleGatherer.java:34-37 | a new store has no groups, golds or data and a feature count of -1 |
| Gathering.ExampleGatherer.AddExample | src/main/java/it/acubelab/smaph/learn/ExampleGatherer.java:63-74 | succeeds iff no group data is given or it has one element per pack; on failure nothing changes; on success exactly one entry is appended to each of the three lists, which stay index-aligned; the feature count latches from the last pack of the first non-empty group and never changes once set |
| Gathering.ExampleGatherer.AddPlainExample | src/main/java/it/acubelab/smaph/learn/ExampleGatherer.java:46-48 | appends the group with absent data and gold |
| Gathering.LatchUnsetIffAllEmpty | src/main/java/it/acubelab/smaph/learn/ExampleGatherer.java:37 | the latched count is unset (-1) iff every group so far is empty |
| Gathering.LatchedByFirstNonEmpty | src/main/java/it/acubelab/smaph/learn/ExampleGatherer.java:71-73 | the latched count is the feature count of the last pack of the first non-empty group |
| Gathering.LatchStable | src/main/java/it/acubelab/smaph/learn/ExampleGatherer.java:71 | once latched, adding more groups never changes the count |
| Gathering.ExampleGatherer.FtrCount | src/main/java/it/acubelab/smaph/learn/ExampleGatherer.java:107-109 | the feature count is negative iff every group is empty |
| Gathering.ExampleGatherer.ExamplesCount | src/main/java/it/acubelab/smaph/learn/ExampleGatherer.java:79-84 | the count is the sum of the group sizes, i.e. the length of the flattened groups |
| Gathering.ExampleGatherer.AllFeaturePacks | src/main/java/it/acubelab/smaph/learn/ExampleGatherer.java:86-92 | exactly that many packs, pack j of group i at its group-major position |
| Gathering.ExampleGatherer.Plain | src/main/java/it/acubelab/smaph/learn/ExampleGatherer.java:94-102 | the groups' pairs flattened in group-major order |
| Gathering.FlattenAt | src/main/java/it/acubelab/smaph/learn/ExampleGatherer.java:94-102 | element j of group i sits at its group-major offset in the flattened list |
| Gathering.FlattenCovers | src/main/java/it/acubelab/smaph/learn/ExampleGatherer.java:94-102 | every position of the flattened list comes from some group and element |
| Gathering.ExampleGatherer.CreateProblem | src/main/java/it/acubelab/smaph/learn/ExampleGatherer.java:211-222 | a problem of `l` = number of targets, with `x[i]` and `y[i]` the i-th vector and target |
| Gathering.ExampleGatherer.GenerateLibSvmProblem | src/main/java/it/acubelab/smaph/learn/ExampleGatherer.java:126-137 | the flattened problem: `l` = example count, `y` the targets and `x` the encoded normalised vectors, group-major |
| Gathering.ExampleGatherer.GenerateLibSvmProblemAllFeatures | src/main/java/it/acubelab/smaph/learn/ExampleGatherer.java:115-118 | the flattened problem over features 1..ftrCount; none while the feature count is unset |
| Gathering.AllFtrVect | src/main/java/it/acubelab/smaph/learn/ExampleGatherer.java:117 | the feature list 1..n for n >= 0, and nothing for a negative n |
| Gathering.ExampleGatherer.GenerateLibSvmProblemOnePerInstance | src/main/java/it/acubelab/smaph/learn/ExampleGatherer.java:144-161 | one problem per group, each of that group's size with its targets and vectors |
| Gathering.ExampleGatherer.Pairings | src/main/java/it/acubelab/smaph/learn/ExampleGatherer.java:167-209 | fails iff some non-empty group was added without data; otherwise one entry per group, element j paired with data j, carrying the group's gold |
| Gathering.ExampleGatherer.Gold | src/main/java/it/acubelab/smaph/learn/ExampleGatherer.java:163-165 | the golds list, one per group, in insertion order |
| Gathering.ExampleGatherer.DataAndNodesAndGoldOnePerInstance | src/main/java/it/acubelab/smaph/learn/ExampleGatherer.java:167-189 | the pairing of each encoded vector with its candidate object and the group gold; an empty group gives an empty row; fails iff a non-empty group has no data |
| Gathering.ExampleGatherer.DataAndFeaturePacksAndGoldOnePerInstance | src/main/java/it/acubelab/smaph/learn/ExampleGatherer.java:190-209 | the same pairing with the feature packs themselves; an empty group gives an empty row; fails iff a non-empty group has no data |
| Gathering.ExampleGatherer.WriteLineLibSvm | src/main/java/it/acubelab/smaph/learn/ExampleGatherer.java:245-253 | the line record of one example: target, group id and the selected features |
| Gathering.PickedSpec | src/main/java/it/acubelab/smaph/learn/ExampleGatherer.java:248-250 | a line holds feature k (1-based) with value `vect[k-1]` iff no selection is given or k is selected, in strictly ascending k |
| Gathering.PickedAll | src/main/java/it/acubelab/smaph/learn/ExampleGatherer.java:258-259 | with no selection every feature appears, as (k+1, vect[k]) |
| Gathering.ExampleGatherer.DumpExamplesLibSvm | src/main/java/it/acubelab/smaph/learn/ExampleGatherer.java:232-243 | one line per example, group-major, each tagged with its group index |
| Gathering.DumpLayout | src/main/java/it/acubelab/smaph/learn/ExampleGatherer.java:236-243 | the pointwise dump has one line per example and line (i, j) is example j of group i tagged with id i |
| Gathering.ExampleGatherer.WriteLineRankLib | src/main/java/it/acubelab/smaph/learn/ExampleGatherer.java:255-261 | the ranking line of one example: rank, query id and every feature |
| Gathering.ExampleGatherer.RankGroup | src/main/java/it/acubelab/smaph/learn/ExampleGatherer.java:268-283 | a permutation of a copy of the group in non-increasing target order, ties in reverse insertion order, with dense ranks and query id = group index; one line per example, first rank 1, ranks growing by at most one; the store is not changed |
| Gathering.ExampleGatherer.RankLines | src/main/java/it/acubelab/smaph/learn/ExampleGatherer.java:273-282 | the loop over the sorted group writes the dense-ranked lines |
| Gathering.ExampleGatherer.DumpExamplesRankLib | src/main/java/it/acubelab/smaph/learn/ExampleGatherer.java:263-286 | one ranked block per group, in group order, each with one line per example of that group and its group index as query id |
| Gathering.DenseRanksSteps | src/main/java/it/acubelab/smaph/learn/ExampleGatherer.java:273-279 | the first rank is 1 and a rank grows by one exactly when the target differs from the previous line's |
| Gathering.DenseRanksRank | src/main/java/it/acubelab/smaph/learn/ExampleGatherer.java:273-279 | over non-increasing targets, ranks never decrease and two lines share a rank iff they share a target |
| Gathering.RankedLinesShape | src/main/java/it/acubelab/smaph/learn/ExampleGatherer.java:273-281 | every line of a ranked block carries the group index; ranks start at 1, never decrease and grow by at most one per line |
| Gathering.DescendingTargets | src/main/java/it/acubelab/smaph/learn/ExampleGatherer.java:270-272 | a group sorted then reversed by target has non-increasing targets |
| Gathering.RealLessIsStrictTotalOrder | src/main/java/it/acubelab/smaph/learn/ExampleGatherer.java:270-271 | the target comparison is a strict total order, as the stable sort needs |
| LinkBack.GetAnnotations | src/main/java/it/acubelab/smaph/linkback/SvmIndividualAnnotationLinkBack.java:38-47 | as many annotations as entities times segments, entity-major: slot (i, j) has position = segment start, length = end − start and entity i's concept, and nothing else appears |
| LinkBack.CrossLayout | src/main/java/it/acubelab/smaph/linkback/SvmIndividualAnnotationLinkBack.java:42-44 | the cross product has exactly that length and layout, and every member comes from an (entity, segment) pair |
| LinkBack.BestScore | src/main/java/it/acubelab/smaph/linkback/SvmIndividualAnnotationLinkBack.java:68-75 | the score is the maximum prediction over the entity's feature vectors, or −∞ when it has none |
| LinkBack.ScoreAnnotations | src/main/java/it/acubelab/smaph/linkback/SvmIndividualAnnotationLinkBack.java:66-77 | each annotation is paired, in order, with its best score; fails iff some annotation's entity has no feature vectors entry |
| LinkBack.OverlapsAny | src/main/java/it/acubelab/smaph/linkback/SvmIndividualAnnotationLinkBack.java:94-99 | true iff the candidate overlaps some accepted annotation |
| LinkBack.SelectGreedy | src/main/java/it/acubelab/smaph/linkback/SvmIndividualAnnotationLinkBack.java:86-103 | the walk stops at the first score below the threshold; each examined candidate is accepted iff it overlaps nothing accepted before; results are pairwise non-overlapping, all scores ≥ threshold, empty when every score is below it |
| LinkBack.SkipStep | src/main/java/it/acubelab/smaph/linkback/SvmIndividualAnnotationLinkBack.java:94-100 | skipping an overlapping candidate keeps the greedy invariant |
| LinkBack.AcceptStep | src/main/java/it/acubelab/smaph/linkback/SvmIndividualAnnotationLinkBack.java:100-102 | accepting a non-overlapping candidate, with its position, length, concept and score, keeps the greedy invariant |
| LinkBack.AcceptedPairwiseDisjoint | src/main/java/it/acubelab/smaph/linkback/SvmIndividualAnnotationLinkBack.java:94-102 | annotations accepted one by one without overlap form a pairwise non-overlapping set |
| LinkBack.GetResult | src/main/java/it/acubelab/smaph/linkback/SvmIndividualAnnotationLinkBack.java:82-108 | the caller's array becomes a permutation of itself in non-increasing score order with equal scores in reverse input order; the result is the greedy selection over it, and every candidate from the stop index on is below the threshold |
| LinkBack.ResultsFromCross | src/main/java/it/acubelab/smaph/linkback/SvmIndividualAnnotationLinkBack.java:101 | every accepted result keeps the position, length and concept of some (entity, segment) candidate |
| LinkBack.LinkBackAnnotations | src/main/java/it/acubelab/smaph/linkback/SvmIndividualAnnotationLinkBack.java:50-80 | fails iff there is a segment and an entity without feature vectors; otherwise a non-overlapping set of cross-product annotations, each kept with its (entity, segment) best predicted score, all at least the threshold, and greedily maximal: every pair whose best score reaches the threshold is kept with that score or overlaps a kept annotation scoring at least as high |
| LinkBack.BestScoreUnique | src/main/java/it/acubelab/smaph/linkback/SvmIndividualAnnotationLinkBack.java:68-75 | the best score of an annotation over its feature vectors is unique |
| LinkBack.ResultsBestScored | src/main/java/it/acubelab/smaph/linkback/SvmIndividualAnnotationLinkBack.java:66-77 | every kept result is some entity on some segment carrying that pair's best predicted score |
| LinkBack.GreedyIsMaximal | src/main/java/it/acubelab/smaph/linkback/SvmIndividualAnnotationLinkBack.java:86-103 | any pair at or above the threshold lies before the stop index, so it was either kept with its score or blocked by an earlier kept annotation of no lower score |
| LinkBack.MissingIffMissingEntity | src/main/java/it/acubelab/smaph/linkback/SvmIndividualAnnotationLinkBack.java:67-70 | some annotation lacks feature vectors iff some segment exists and some entity lacks them |
| Annotations.SpansOverlapIffSharedOffset | src/main/java/it/acubelab/smaph/linkback/SvmIndividualAnnotationLinkBack.java:96 | two spans overlap iff some character offset lies in both |
| Annotations.ScoreLessIsStrictTotalOrder | src/main/java/it/acubelab/smaph/linkback/SvmIndividualAnnotationLinkBack.java:83 | the score comparison (with −∞) is a strict total order |
| Annotations.BelowMonotone | src/main/java/it/acubelab/smaph/linkback/SvmIndividualAnnotationLinkBack.java:92 | in non-increasing order, once a score is below the threshold every later one is too |
| Sorting.PermutationOnto | src/main/java/it/acubelab/smaph/linkback/SvmIndividualAnnotationLinkBack.java:83-84 | sorting loses no candidate: every input position occurs in the permutation |
| Sorting.SortBySecond | src/main/java/it/acubelab/smaph/linkback/SvmIndividualAnnotationLinkBack.java:83 | the array becomes a permutation of itself, ascending by the second element, with equal keys in input order (stable) |
| Sorting.InsertPair | src/main/java/it/acubelab/smaph/linkback/SvmIndividualAnnotationLinkBack.java:83 | one insertion step extends the stably sorted prefix by one element |
| Sorting.Reverse | src/main/java/it/acubelab/smaph/linkback/SvmIndividualAnnotationLinkBack.java:84 | element k becomes the old element n−1−k |
| Sorting.SortThenReverse | src/main/java/it/acubelab/smaph/linkback/SvmIndividualAnnotationLinkBack.java:83-84 | a permutation in descending key order with equal keys in reverse input order |
| Sorting.ReversedOrder | src/main/java/it/acubelab/smaph/linkback/SvmIndividualAnnotationLinkBack.java:83-84 | reversing a stable ascending sort gives a descending order with ties reversed |
| Sorting.SortInts | src/main/java/it/unipi/di/acube/smaph/learn/GenerateModel.java:518 | the array ends sorted and with the same multiset of values |
| Sorting.InsertInt | src/main/java/it/unipi/di/acube/smaph/learn/GenerateModel.java:518 | one insertion step extends the sorted prefix and keeps the multiset |
| Sorting.SortedUnique | src/main/java/it/unipi/di/acube/smaph/learn/GenerateModel.java:518 | two sorted sequences with the same multiset are equal |
| GenerateModel.FtrListRepresentation | src/main/java/it/unipi/di/acube/smaph/learn/GenerateModel.java:517-542 | sorts the caller's array in place (same multiset) and returns the rendering of its maximal runs |
| GenerateModel.WriteBlocks | src/main/java/it/unipi/di/acube/smaph/learn/GenerateModel.java:519-541 | the writer loop produces exactly the comma-separated blocks of the maximal runs of its input |
| GenerateModel.ExpandRuns | src/main/java/it/unipi/di/acube/smaph/learn/GenerateModel.java:527-537 | expanding the runs gives back the input |
| GenerateModel.RunsOrdered | src/main/java/it/unipi/di/acube/smaph/learn/GenerateModel.java:527-537 | every run is non-empty (lo ≤ hi) |
| GenerateModel.RunsMaximal | src/main/java/it/unipi/di/acube/smaph/learn/GenerateModel.java:527-537 | consecutive runs cannot be merged: the next run never starts at the previous end + 1 |
| GenerateModel.RunsWithin | src/main/java/it/unipi/di/acube/smaph/learn/GenerateModel.java:527-537 | run bounds are values of the input |
| GenerateModel.BlockText | src/main/java/it/unipi/di/acube/smaph/learn/GenerateModel.java:531-537 | a run of one value is written `a`, a longer one `a-b` |
| GenerateModel.RepresentationSmallCases | src/main/java/it/unipi/di/acube/smaph/learn/GenerateModel.java:519-526 | the empty list gives "" and a single value gives its decimal text |
| GenerateModel.RepresentationDependsOnMultiset | src/main/java/it/unipi/di/acube/smaph/learn/GenerateModel.java:518-541 | sorted inputs with the same multiset render identically, so the text depends only on the multiset |
| GenerateModel.ParseRender | src/main/java/it/unipi/di/acube/smaph/learn/GenerateModel.java:527-537 | parsing the rendering of non-negative runs gives the runs back |
| GenerateModel.RepresentationRoundTrip | src/main/java/it/unipi/di/acube/smaph/learn/GenerateModel.java:517-542 | for non-negative indices, parsing the text and expanding its blocks gives the input |
| GenerateModel.ModelFileNameBaseRL | src/main/java/it/unipi/di/acube/smaph/learn/GenerateModel.java:486-489 | sorts the array and returns `models/model_` + its representation + `_RL` |
| GenerateModel.ModelNameRoundTrip | src/main/java/it/unipi/di/acube/smaph/learn/GenerateModel.java:486-489 | the feature list is recovered from the model name |
| Decimal.IntToString | src/main/java/it/unipi/di/acube/smaph/learn/GenerateModel.java:522-535 | Java's decimal text of an `int` (as `"" + current` and `%d` at SmaphBuilder.java line 196 write it): non-empty, starting with `-` iff the value is negative, and the digits after the sign parse back to the magnitude |
| Decimal.ParseNatToString | src/main/java/it/unipi/di/acube/smaph/learn/GenerateModel.java:526 | parsing the decimal text of a natural gives it back |
| Decimal.IntToStringInjective | src/main/java/it/unipi/di/acube/smaph/SmaphBuilder.java:196 | distinct integers have distinct decimal texts |
| Decimal.IntToStringChars | src/main/java/it/unipi/di/acube/smaph/SmaphBuilder.java:196 | the decimal text of an integer holds only digits and '-' |
| GenerateTraining.PresenceOfTarget | src/main/java/it/unipi/di/acube/smaph/learn/GenerateTrainingAndTest.java:102-103 | a flag is recovered from its target: true ↦ 1.0, false ↦ −1.0 |
| GenerateTraining.WithTargetsInverse | src/main/java/it/unipi/di/acube/smaph/learn/GenerateTrainingAndTest.java:100-104 | every pack stays in place and every flag is recoverable from its target |
| GenerateTraining.GoldBoolToDouble | src/main/java/it/unipi/di/acube/smaph/learn/GenerateTrainingAndTest.java:98-105 | the loop yields the pairs in order with flags replaced by targets |
| GenerateTraining.EffectiveLimit | src/main/java/it/unipi/di/acube/smaph/learn/GenerateTrainingAndTest.java:56 | the dataset size for limit -1, otherwise min(limit, size) |
| GenerateTraining.EfAddedAt | src/main/java/it/unipi/di/acube/smaph/learn/GenerateTrainingAndTest.java:87-88 | the entity-filter group of query i holds its converted examples, its candidates and its C2W gold |
| GenerateTraining.AnnotationAddedAt | src/main/java/it/unipi/di/acube/smaph/learn/GenerateTrainingAndTest.java:89-92 | the link-back and annotation-regressor groups of query i carry its A2W gold |
| GenerateTraining.GatherExamples | src/main/java/it/unipi/di/acube/smaph/learn/GenerateTrainingAndTest.java:53-96 | queries 0..n−1 are processed in order, and each non-null gatherer gains exactly one group per query with the generated examples, candidates and gold |
| GenerateTraining.GatherQueries | src/main/java/it/unipi/di/acube/smaph/learn/GenerateTrainingAndTest.java:59-94 | the loop keeps every non-null gatherer extended by the groups of the queries processed so far |
| GenerateTraining.GatherQuery | src/main/java/it/unipi/di/acube/smaph/learn/GenerateTrainingAndTest.java:60-92 | one query adds one group to each non-null gatherer |
| GenerateTraining.AddEfGroup | src/main/java/it/unipi/di/acube/smaph/learn/GenerateTrainingAndTest.java:87-88 | a null entity-filter gatherer is skipped; otherwise it gains the query's group |
| GenerateTraining.AddLbGroup | src/main/java/it/unipi/di/acube/smaph/learn/GenerateTrainingAndTest.java:89-90 | a null link-back gatherer is skipped; otherwise it gains the query's group |
| GenerateTraining.AddArGroup | src/main/java/it/unipi/di/acube/smaph/learn/GenerateTrainingAndTest.java:91-92 | a null annotation-regressor gatherer is skipped; otherwise it gains the query's group |
| SmaphBuilder.WebsearchName | src/main/java/it/unipi/di/acube/smaph/SmaphBuilder.java:65-67 | the enum constant's name (`BING`, `GOOGLE_CSE`), which `%s` prints in labels at line 196: non-empty and free of the `-` that follows it in a label |
| SmaphBuilder.WebsearchFromString | src/main/java/it/unipi/di/acube/smaph/SmaphBuilder.java:69-77 | a parsed engine is the one whose argument spelling is the input |
| SmaphBuilder.WebsearchFromStringIff | src/main/java/it/unipi/di/acube/smaph/SmaphBuilder.java:70-74 | "bing" ↦ BING and "google" ↦ GOOGLE_CSE, and nothing else maps to an engine |
| SmaphBuilder.WebsearchFromStringNone | src/main/java/it/unipi/di/acube/smaph/SmaphBuilder.java:76 | the result is absent iff the string is neither "bing" nor "google" |
| SmaphBuilder.WebsearchNameNotParsed | src/main/java/it/unipi/di/acube/smaph/SmaphBuilder.java:65-77 | the engine's constant name, which labels use, is not accepted back by the parser |
| SmaphBuilder.VersionLabel | src/main/java/it/unipi/di/acube/smaph/SmaphBuilder.java:50-62 | the labels `ef`, `ar`, `coll` are non-empty and hold no `_` |
| SmaphBuilder.VersionLabelInjective | src/main/java/it/unipi/di/acube/smaph/SmaphBuilder.java:51 | distinct versions have distinct labels |
| SmaphBuilder.SourceLabel | src/main/java/it/unipi/di/acube/smaph/SmaphBuilder.java:195-197 | the label is `<version>_<engine>-S1=<k1>_S2=<k2>_S3=<k3>` with decimal top-k values |
| SmaphBuilder.LabelFormat | src/main/java/it/unipi/di/acube/smaph/SmaphBuilder.java:196 | the nested separator joins spell out that format |
| SmaphBuilder.DefaultLabel | src/main/java/it/unipi/di/acube/smaph/SmaphBuilder.java:170-173 | the default label is the source label with top-k 5, 10 and 15 for enabled sources and 0 for disabled ones |
| SmaphBuilder.TopKsInjective | src/main/java/it/unipi/di/acube/smaph/SmaphBuilder.java:196 | the `S1=…_S2=…_S3=…` part determines the three top-k values |
| SmaphBuilder.SourceLabelInjective | src/main/java/it/unipi/di/acube/smaph/SmaphBuilder.java:195-197 | `<v>_<ws>-S1=<k1>_S2=<k2>_S3=<k3>` determines version, engine and all three top-k values |
| SmaphBuilder.DefaultLabelInjective | src/main/java/it/unipi/di/acube/smaph/SmaphBuilder.java:170-173 | the default label determines version, engine and the three source flags |
| SmaphBuilder.DefaultModelIsModel | src/main/java/it/unipi/di/acube/smaph/SmaphBuilder.java:179-185 | the default model and normaliser are the ones for top-k 5/10/15 or 0 per flag |
| SmaphBuilder.BestModelResource | src/main/java/it/unipi/di/acube/smaph/SmaphBuilder.java:175-177 | the resource name starts with `models/best_`, ends with `.` + extension, and has the length of prefix, label, dot and extension |
| SmaphBuilder.Model | src/main/java/it/unipi/di/acube/smaph/SmaphBuilder.java:187-189 | the model resource is `models/best_<label>.model` for the configuration's source label |
| SmaphBuilder.ZscoreNormalizer | src/main/java/it/unipi/di/acube/smaph/SmaphBuilder.java:191-193 | the z-score resource is `models/best_<label>.zscore` |
| SmaphBuilder.DefaultModel | src/main/java/it/unipi/di/acube/smaph/SmaphBuilder.java:179-181 | the default model is the model of top-k 5/10/15 or 0 per enabled source |
| SmaphBuilder.DefaultZscoreNormalizer | src/main/java/it/unipi/di/acube/smaph/SmaphBuilder.java:183-185 | the default z-score normaliser likewise |
| SmaphBuilder.BestModelResourceLabel | src/main/java/it/unipi/di/acube/smaph/SmaphBuilder.java:175-177 | the resource is `models/best_` + label + `.` + extension, and the label can be cut back out |
| SmaphBuilder.ModelAndZscoreShareLabel | src/main/java/it/unipi/di/acube/smaph/SmaphBuilder.java:187-193 | the model and z-score resources share the base `models/best_<label>.` and differ only in extension |
| SmaphBuilder.ModelInjective | src/main/java/it/unipi/di/acube/smaph/SmaphBuilder.java:187-189 | distinct configurations name distinct model resources |
| SmaphBuilder.JoinPathResources | src/main/java/it/unipi/di/acube/smaph/SmaphBuilder.java:201 | joining the resource directory parts gives `src/main/resources/models/` + name |
| SmaphBuilder.ModelFile | src/main/java/it/unipi/di/acube/smaph/SmaphBuilder.java:199-202 | the model file written by the training tools is `src/main/resources/` + the model resource the annotator loads |
| SmaphBuilder.ZscoreNormalizerFile | src/main/java/it/unipi/di/acube/smaph/SmaphBuilder.java:204-207 | the z-score file is `src/main/resources/` + the z-score resource |
| QueryInformation.CandidateUnion | src/main/java/it/unipi/di/acube/smaph/QueryInformation.java:35-41 | t is a candidate iff it is in the set of some enabled source |
| QueryInformation.NoSourceNoCandidates | src/main/java/it/unipi/di/acube/smaph/QueryInformation.java:35-41 | with no source enabled the union is empty |
| QueryInformation.DisabledSourcesIgnored | src/main/java/it/unipi/di/acube/smaph/QueryInformation.java:36-41 | the set of a disabled source (absent included) does not affect the union |
| QueryInformation.MoreSourcesMoreCandidates | src/main/java/it/unipi/di/acube/smaph/QueryInformation.java:36-41 | enabling more sources never loses a candidate |
| QueryInformation.QueryInformation.constructor | src/main/java/it/unipi/di/acube/smaph/QueryInformation.java:12-31 | flags and sources as given, nothing cached |
| QueryInformation.QueryInformation.AllCandidates | src/main/java/it/unipi/di/acube/smaph/QueryInformation.java:33-44 | the first call returns and caches the union of the enabled sources; later calls return the cached set unchanged whatever the flags and sources are by then; flags and sources are never changed |
| FrequencyFilter.Kept | src/main/java/it/unipi/di/acube/smaph/snippetannotationfilters/FrequencyAnnotationFilter.java:21 | the ratio test `size / resCount >= threshold` in Java double arithmetic: with a zero result count an entity passes iff it has ranks (positive infinity passes, NaN fails); with a non-zero count an entity without ranks passes iff the threshold is at most 0 |
| FrequencyFilter.FrequencyAnnotationFilter.constructor | src/main/java/it/unipi/di/acube/smaph/snippetannotationfilters/FrequencyAnnotationFilter.java:12-14 | the filter keeps the threshold it is given |
| FrequencyFilter.Filtered | src/main/java/it/unipi/di/acube/smaph/snippetannotationfilters/FrequencyAnnotationFilter.java:20-22 | a subset of the keys, holding t iff the size of its rank list divided by resCount is at least the threshold |
| FrequencyFilter.FrequencyAnnotationFilter.FilterAnnotations | src/main/java/it/unipi/di/acube/smaph/snippetannotationfilters/FrequencyAnnotationFilter.java:17-24 | the loop over the keys returns exactly the filtered set |
| FrequencyFilter.FilteredMonotone | src/main/java/it/unipi/di/acube/smaph/snippetannotationfilters/FrequencyAnnotationFilter.java:21 | raising the threshold never adds a tag |
| FrequencyFilter.NonPositiveThresholdKeepsAll | src/main/java/it/unipi/di/acube/smaph/snippetannotationfilters/FrequencyAnnotationFilter.java:20-23 | with a positive result count and threshold ≤ 0 every key is kept |
| FrequencyFilter.KeptIffEnoughResults | src/main/java/it/unipi/di/acube/smaph/snippetannotationfilters/FrequencyAnnotationFilter.java:21 | with a positive result count, t is kept iff the size of its rank list is at least threshold · resCount |

## Left out

- File writing in the dumps and the printf text of floats (`%.5f`, `%.9f`): dump lines are records (target or rank, group id, list of (feature index, value)); a dump file is the concatenation of its lines.
- Floating point: targets, scores and ratios are `real`; NaN, rounding and the `(float)score` cast in `ScoredAnnotation` are not modelled.
- FrequencyFilter.Kept: the division by a zero result count follows Java `double` (positive infinity when the entity has ranks, NaN when it has none) for a finite threshold; infinite or NaN thresholds are not modelled.
- Integer overflow of counts and of the top-k values: counts are unbounded.
- LibSVM node encoding (`featuresArrayToNode`), the feature normaliser, the predictor (`predictScore`) and the annotator's `generateExamples` are function parameters (`encode`, `norm`, `predict`, `generate`); training, model saving and evaluation are not part of this model.
- `SmaphUtils.getAllFtrVect` is not part of this model: AllFtrVect assumes it yields 1..n and treats a negative count as having no problem to build.
- `Annotation.overlaps` is not part of this model: overlap is assumed to be the intersection of half-open spans `[position, position + length)`.
- `SmaphUtils.findSegments` and `ComparePairsBySecondElement` are not part of this model: segments are given as (start, end) pairs, and the comparator is assumed ascending on the score, with `Collections.sort` stable.
- HashSet iteration order: accepted entities and the candidate lists are sequences in a given order; the link-back result and the filter result are sets.
- GenerateTraining.GatherExamples: assumes, as a precondition, that the generator returns parallel lists (examples and candidates of equal length) for every query, so that no `addExample` call throws; the source does not check this. Without it, a later gatherer's `addExample` could throw after the earlier gatherers had already gained this query's group (GenerateTrainingAndTest.java lines 87-92), leaving the gatherers partly updated; that partial update is not modelled. A single throwing call is modelled in AddExample.
- GenerateTraining.GatherExamples: the training generator calls the `ExampleGatherer` of its own package (`it.unipi.di.acube.smaph.learn`, with feature packs from `it.unipi.di.acube.smaph.learn.featurePacks`), which is not part of this model; the model sends those calls to the `it.acubelab.smaph.learn.ExampleGatherer` modelled here, assuming the two classes behave alike. Both "each non-null gatherer gains one group per query" and "no `addExample` call throws" rest on that assumption.
- QueryInformation.QueryInformation.AllCandidates: Java returns the cached `HashSet` itself, so a caller that mutates the returned set changes what every later call returns; the model returns the set as a value, and mutation through the returned reference is not captured.
- Gathering.ExampleGatherer.Gold: Java returns the live `groupGolds` list; the model returns it as a value, and mutation through the returned reference (or later additions seen through it) is not captured.
- Gathering.ExampleGatherer.AddExample: the RuntimeException is modelled as `ok == false` with no change to the store.
- The feature count of a pack is a `nat`; the pack itself is opaque.
- SmaphBuilder: the class-loader lookup (`getResource`) and the `URL`/`File` objects are left out; the model gives the resource name and the path text, with `/` as separator. `String.format("%d")` is modelled as plain decimal text (no locale digits).
- SmaphBuilder.WebsearchFromString: a null string (an exception in Java's switch) is not modelled; strings are never null.
- The `Websearch` enum's text in labels is its constant name (`BING`, `GOOGLE_CSE`), as the enum has no `toString` override.
- `getWebsearch`, `getSmaph`, model-parameter sweeps, dataset loading and the servlet listener are orchestration and are not part of this model, nor are the LibSVM and RankLib wrapper classes.
- QueryInformation.QueryInformation.AllCandidates: the NullPointerException raised when an enabled source's set is null is a precondition (enabled sources are present until the cache is filled); the other per-query data fields of the record are not modelled.
- The progress logger in `gatherExamples` is left out.
- GenerateModel.RepresentationRoundTrip: the round trip is proved for non-negative feature indices only; with negative values the text `-3--2` is ambiguous.
