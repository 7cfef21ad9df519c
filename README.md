# EmailDatasetReportGen analysis core, modelled in Dafny

EmailDatasetReportGen reads a dataset of mailing-list emails, with tags that mark
architectural knowledge (AK), and produces reports from it. This project models the
analysis engine of the repository's two variants (`src/` and `intake/`) and the
pattern-table renderer of its visualiser. It covers:

- tag-status classification;
- thread relevance, both as a ratio and as a normalised count with a per-thread cache;
- DCG, NDCG, the in-place reverse and the precision and NDCG curves of a ranking;
- the ideal relevance arrays;
- ordered tag permutations, the n-gram reply-chain matcher, co-occurrence matching
  and the result tables ordered by count;
- the tag roll-up of `EmailData`;
- the overview counters and histogram bins;
- the characteristic bucketing and the breadth-first participant count;
- the LaTeX rows of the pattern table.

A thread is the finite tree datatype `Emails.Email`: id, message id, sender, body, tag
names and replies. The external repositories and searchers become values: a walk over
the dataset is a sequence of messages or roots, and a search ranking is an input
sequence. Java `double` is `real`. A division whose Java result would be NaN or
infinite is the `Metric.Undefined` value, or is excluded by a requirement the source
also relies on. `log2` is a parameter of the subset type `AnalysisUtils.Log2`,
which only promises `log2(2) = 1` and `log2(x) > 0` for `x > 1`.

Code that updates state step by step is written as methods: loops with invariants,
classes with `modifies` clauses, arrays where the source fills or reverses one. Each
method is proved against a specification function, and lemmas prove the source's
promises about those functions.

The files follow the source's structure:

| file | models |
|---|---|
| `seqs.dfy`, `sorting.dfy`, `strings.dfy` | sums, counts, reversal, flattening, insertion sort, Java string helpers, integer text |
| `emails.dfy` | the thread tree, and the `POSITIVE_TAGS` / `NEGATIVE_TAGS` constants of `ReportGen` |
| `analysis_utils.dfy` | `AnalysisUtils` |
| `relevance.dfy` | the ratio-mode `RelevanceAnalyzer` |
| `count_relevance.dfy` | the intake `RelevanceAnalyzer` |
| `precision.dfy` | `precision/PrecisionAnalyzer` |
| `intake_precision.dfy` | the intake `PrecisionAnalyzer` |
| `precision_report.dfy` | `cmd/PrecisionReportGenerator` |
| `intake_precision_report.dfy` | the intake `PrecisionReportGenerator` |
| `permutations.dfy` | `generateTagPermutations` of `PatternReportGenerator` |
| `ngram.dfy` | `NGramPatternSearcher` and the rank numbering of `writeNGramResults` |
| `patterns.dfy` | `NGramSearchResult`, `CoOccurrenceSearchResult`, `CoOccurrenceSearcher` |
| `email_data.dfy` | `EmailData` |
| `overview.dfy` | `OverviewReportGenerator` |
| `characteristic.dfy` | `cmd/CharacteristicReportGenerator` |
| `intake_characteristic.dfy` | the intake `CharacteristicReportGenerator` |
| `pattern_renderer.dfy` | `PatternRenderer` of jVisualizer |

## Model

| member | source | states |
|---|---|---|
| AnalysisUtils.GetStatus | src/main/java/nl/andrewl/emaildatasetreportgen/AnalysisUtils.java:11-20 | Architectural iff some lower-cased tag name is a positive tag; NotArchitectural iff none is and some is a negative tag; Unknown iff neither |
| AnalysisUtils.PositiveTakesPrecedence | src/main/java/nl/andrewl/emaildatasetreportgen/AnalysisUtils.java:13-14 | a positive tag makes the status Architectural even when a negative tag is present too |
| AnalysisUtils.UntaggedIsUnknown | src/main/java/nl/andrewl/emaildatasetreportgen/AnalysisUtils.java:17-19 | a message with no tags is Unknown |
| AnalysisUtils.UpperCaseEntryNeverMatches | src/main/java/nl/andrewl/emaildatasetreportgen/AnalysisUtils.java:13-15 | adding a configured entry that holds an upper-case letter changes no status, since only the message's tag name is lower-cased |
| AnalysisUtils.DcgFromSnoc | src/main/java/nl/andrewl/emaildatasetreportgen/AnalysisUtils.java:43-46 | appending x to the values adds x / log2(k + 2) to the gain summed from any start k |
| AnalysisUtils.DcgSnoc | src/main/java/nl/andrewl/emaildatasetreportgen/AnalysisUtils.java:43-46 | DCG is incremental: DCG(a + [x]) = DCG(a) + x / log2(\|a\| + 2) |
| AnalysisUtils.DcgBase | src/main/java/nl/andrewl/emaildatasetreportgen/AnalysisUtils.java:42-48 | the DCG of no values is 0, and rank 1 is undiscounted because log2(2) = 1 |
| AnalysisUtils.DcgFromNonNegative | src/main/java/nl/andrewl/emaildatasetreportgen/AnalysisUtils.java:42-48 | for non-negative values the gain summed from k is non-negative, and 0 exactly when every value from k on is 0 |
| AnalysisUtils.DcgNonNegative | src/main/java/nl/andrewl/emaildatasetreportgen/AnalysisUtils.java:42-48 | for non-negative values the DCG is non-negative, and 0 exactly when all values are 0 |
| AnalysisUtils.DiscountedCumulativeGain | src/main/java/nl/andrewl/emaildatasetreportgen/AnalysisUtils.java:42-48 | the summing loop returns the DCG of the array's contents |
| AnalysisUtils.Reverse | src/main/java/nl/andrewl/emaildatasetreportgen/AnalysisUtils.java:61-67 | the swapping loop leaves the array holding its old contents reversed (same length, a[i] = old a[n-1-i]) |
| AnalysisUtils.Sort | src/main/java/nl/andrewl/emaildatasetreportgen/AnalysisUtils.java:53 | Arrays.sort leaves the array holding the ascending sort of its old contents |
| AnalysisUtils.IdealOrder | src/main/java/nl/andrewl/emaildatasetreportgen/AnalysisUtils.java:51-54 | the ideal order is non-increasing and a permutation of the values |
| AnalysisUtils.NormalizedDiscountedCumulativeGain | src/main/java/nl/andrewl/emaildatasetreportgen/AnalysisUtils.java:50-59 | copies, sorts and reverses the copy, and returns the NDCG of the input; the input array is not modified |
| AnalysisUtils.IdealOfNonIncreasing | src/main/java/nl/andrewl/emaildatasetreportgen/AnalysisUtils.java:51-54 | the ideal order of a non-increasing sequence is the sequence itself |
| AnalysisUtils.NdcgOfNonIncreasing | src/main/java/nl/andrewl/emaildatasetreportgen/AnalysisUtils.java:56-58 | a non-increasing input with non-zero DCG has NDCG exactly 1 |
| AnalysisUtils.NdcgOfIdealOrder | src/main/java/nl/andrewl/emaildatasetreportgen/AnalysisUtils.java:50-59 | the ideal order of non-negative values, not all 0, has NDCG 1 |
| AnalysisUtils.NdcgUndefinedIffAllZero | src/main/java/nl/andrewl/emaildatasetreportgen/AnalysisUtils.java:57-58 | for non-negative values the division is undefined (Java NaN) exactly when every value is 0 |
| Seqs.ReversedTwice | src/main/java/nl/andrewl/emaildatasetreportgen/AnalysisUtils.java:61-67 | reversing twice restores the sequence, so two calls of reverse restore the array |
| Seqs.ReversedMultiset | src/main/java/nl/andrewl/emaildatasetreportgen/AnalysisUtils.java:61-67 | reversal keeps the multiset of values |
| Sorting.SortAscending | src/main/java/nl/andrewl/emaildatasetreportgen/AnalysisUtils.java:53 | the ascending sort is sorted and a permutation of its input |
| RatioRelevance.StatusCountAllSnoc | src/main/java/nl/andrewl/emaildatasetreportgen/relevance/RelevanceAnalyzer.java:45-47 | the count of a status over a list of replies grows by the count of the next reply's subtree |
| RatioRelevance.StatusCountAllCons | src/main/java/nl/andrewl/emaildatasetreportgen/relevance/RelevanceAnalyzer.java:45-47 | the count over a reply list is the first reply's count plus the rest's |
| RatioRelevance.CountStatusAppend | src/main/java/nl/andrewl/emaildatasetreportgen/relevance/RelevanceAnalyzer.java:41-48 | counting a status over a message list is additive over concatenation |
| RatioRelevance.StatusCountOverMessages | src/main/java/nl/andrewl/emaildatasetreportgen/relevance/RelevanceAnalyzer.java:41-48 | the recursive count of a status equals the count over the thread's message list (root and every descendant) |
| RatioRelevance.StatusCountAllOverMessages | src/main/java/nl/andrewl/emaildatasetreportgen/relevance/RelevanceAnalyzer.java:45-47 | the same, for a list of reply subtrees |
| RatioRelevance.StatusCountsPartition | src/main/java/nl/andrewl/emaildatasetreportgen/relevance/RelevanceAnalyzer.java:41-48 | each message raises exactly one of the three status counters: together they sum to the thread size |
| RatioRelevance.StatusCountsPartitionAll | src/main/java/nl/andrewl/emaildatasetreportgen/relevance/RelevanceAnalyzer.java:45-47 | the same, for a list of reply subtrees |
| RatioRelevance.Ratio | src/main/java/nl/andrewl/emaildatasetreportgen/relevance/RelevanceAnalyzer.java:36-38 | the score lies in [0, 1]; it is 0 iff there is no architectural message, and 1 iff there are some and no not-architectural ones |
| RatioRelevance.AnalyzeEmailRecursive | src/main/java/nl/andrewl/emaildatasetreportgen/relevance/RelevanceAnalyzer.java:41-48 | every status counter rises by exactly the number of messages of the thread with that status |
| RatioRelevance.AnalyzeThread | src/main/java/nl/andrewl/emaildatasetreportgen/relevance/RelevanceAnalyzer.java:31-39 | starting from a fresh map, it returns the thread relevance ak / (ak + notAk), or 0 when nothing is categorised; the value is in [0, 1] |
| RatioRelevance.UncategorisedThreadScoresZero | src/main/java/nl/andrewl/emaildatasetreportgen/relevance/RelevanceAnalyzer.java:36-37 | a thread whose messages are all Unknown scores 0 |
| RatioRelevance.CountStatusNoneMatch | src/main/java/nl/andrewl/emaildatasetreportgen/relevance/RelevanceAnalyzer.java:42-44 | a status no message has is counted 0 times |
| RatioRelevance.UnknownReplyIgnored | src/main/java/nl/andrewl/emaildatasetreportgen/relevance/RelevanceAnalyzer.java:34-38 | adding a reply subtree with no categorised message leaves the relevance unchanged |
| RatioRelevance.ExtremeThreads | src/main/java/nl/andrewl/emaildatasetreportgen/relevance/RelevanceAnalyzer.java:38 | some architectural and no not-architectural message scores 1; no architectural message scores 0 |
| Emails.Size | intake/src/main/java/nl/andrewl/emaildatasetreportgen/cmd/CharacteristicReportGenerator.java:48 | the thread size counts the root, so it is at least 1 |
| Emails.MessagesLength | src/main/java/nl/andrewl/emaildatasetreportgen/relevance/RelevanceAnalyzer.java:41-48 | the message list visited by the recursion has one entry per message of the thread |
| Emails.MessagesOfAllLength | src/main/java/nl/andrewl/emaildatasetreportgen/relevance/RelevanceAnalyzer.java:45-47 | the same, for a list of reply subtrees |
| CountRelevance.PositiveTagCountPositive | intake/src/main/java/nl/andrewl/emaildatasetreportgen/relevance/RelevanceAnalyzer.java:53-54 | the count of positive tag names is positive iff some tag name is (exactly) a positive tag |
| CountRelevance.AnalyzeEmail | intake/src/main/java/nl/andrewl/emaildatasetreportgen/relevance/RelevanceAnalyzer.java:52-60 | 1.0 iff some tag name is a positive tag (case-sensitive), else 0.0; replies are not looked at |
| CountRelevance.TagCountAllSnoc | intake/src/main/java/nl/andrewl/emaildatasetreportgen/relevance/RelevanceAnalyzer.java:81-83 | the count over a reply list grows by the next reply's recursive count |
| CountRelevance.CountTagsRecursive | intake/src/main/java/nl/andrewl/emaildatasetreportgen/relevance/RelevanceAnalyzer.java:77-85 | the loop returns the message's positive tag names plus the recursive counts of all replies (a nat, so never negative) |
| CountRelevance.NormalizedRelevance | intake/src/main/java/nl/andrewl/emaildatasetreportgen/relevance/RelevanceAnalyzer.java:47 | min(1, count / maxAkCount) lies in [0, 1], is 0 iff the count is 0, is 1 iff the count reaches maxAkCount, and is the exact quotient below 1 |
| CountRelevance.Top | intake/src/main/java/nl/andrewl/emaildatasetreportgen/relevance/RelevanceAnalyzer.java:70-73 | the limited stream keeps min(k, n) counts |
| CountRelevance.IdealOrder | intake/src/main/java/nl/andrewl/emaildatasetreportgen/relevance/RelevanceAnalyzer.java:71 | the counts sorted in reverse order are non-increasing and a permutation of the counts |
| CountRelevance.TopMean | intake/src/main/java/nl/andrewl/emaildatasetreportgen/relevance/RelevanceAnalyzer.java:70-74 | the average has no value (orElseThrow fails) exactly when there are no counts |
| CountRelevance.MeanOfBounded | intake/src/main/java/nl/andrewl/emaildatasetreportgen/relevance/RelevanceAnalyzer.java:74 | the mean of values between lo and hi lies between lo and hi |
| CountRelevance.TopMeanBetween | intake/src/main/java/nl/andrewl/emaildatasetreportgen/relevance/RelevanceAnalyzer.java:70-74 | maxAkCount lies between the k-th largest count and the largest count |
| CountRelevance.IdealHeadIsMax | intake/src/main/java/nl/andrewl/emaildatasetreportgen/relevance/RelevanceAnalyzer.java:71 | the first count in reverse order is the maximum and is one of the counts |
| CountRelevance.IdealNonNegative | intake/src/main/java/nl/andrewl/emaildatasetreportgen/relevance/RelevanceAnalyzer.java:71-72 | the sorted counts are non-negative |
| CountRelevance.TopMeanPositive | intake/src/main/java/nl/andrewl/emaildatasetreportgen/relevance/RelevanceAnalyzer.java:70-74 | maxAkCount is positive iff some thread has a positive count |
| CountRelevance.ThreadCounts | intake/src/main/java/nl/andrewl/emaildatasetreportgen/relevance/RelevanceAnalyzer.java:66-68 | one count per tagged thread |
| CountRelevance.ComputeMaxAkCount | intake/src/main/java/nl/andrewl/emaildatasetreportgen/relevance/RelevanceAnalyzer.java:62-75 | the collecting loop yields the mean of the 10 largest thread counts, and no value exactly when there are no tagged threads |
| CountRelevance.RelevanceAnalyzer.constructor | intake/src/main/java/nl/andrewl/emaildatasetreportgen/relevance/RelevanceAnalyzer.java:18-24 | stores the repository, the positive tags and maxAkCount as given, with an empty cache |
| CountRelevance.RelevanceAnalyzer.FromDataset | intake/src/main/java/nl/andrewl/emaildatasetreportgen/relevance/RelevanceAnalyzer.java:26-28 | maxAkCount is the mean of the 10 largest thread counts, and the cache starts empty |
| CountRelevance.RelevanceAnalyzer.GetMaxAkCount | intake/src/main/java/nl/andrewl/emaildatasetreportgen/relevance/RelevanceAnalyzer.java:30-32 | returns the stored maxAkCount, which is positive |
| CountRelevance.RelevanceAnalyzer.AnalyzeThread | intake/src/main/java/nl/andrewl/emaildatasetreportgen/relevance/RelevanceAnalyzer.java:41-50 | returns min(1, count / maxAkCount), in [0, 1]; a cached id returns the cached value; afterwards the cache maps the id to the result and no other entry changes |
| PrecisionAnalysis.PositiveCount | src/main/java/nl/andrewl/emaildatasetreportgen/precision/PrecisionAnalyzer.java:40-43 | the number of positive relevances counted by the inner loop is at most the length of the slice |
| PrecisionAnalysis.PrecisionAt | src/main/java/nl/andrewl/emaildatasetreportgen/precision/PrecisionAnalyzer.java:40-44 | precision at rank n, the number of positive relevances among the first n divided by n, lies in [0, 1] |
| PrecisionAnalysis.PositiveCountStep | src/main/java/nl/andrewl/emaildatasetreportgen/precision/PrecisionAnalyzer.java:40-43 | lengthening the slice by one adds exactly one to the count when the new relevance is positive, and nothing otherwise |
| PrecisionAnalysis.PrecisionStep | src/main/java/nl/andrewl/emaildatasetreportgen/precision/PrecisionAnalyzer.java:40-44 | precision does not fall at a relevant rank and does not rise at an irrelevant one; it rises or stays level exactly when the new result is relevant or no earlier result was |
| PrecisionAnalysis.PrecisionExample | src/main/java/nl/andrewl/emaildatasetreportgen/precision/PrecisionAnalyzer.java:40-44 | for relevances 1, 0, 1, 0 the precisions at ranks 1 to 4 are 1, 1/2, 2/3 and 1/2 |
| PrecisionAnalysis.SearchRelevances | src/main/java/nl/andrewl/emaildatasetreportgen/precision/PrecisionAnalyzer.java:28-30 | one relevance per search result, each the thread ratio of that result and so within [0, 1] |
| PrecisionAnalysis.AnalyzeSearch | src/main/java/nl/andrewl/emaildatasetreportgen/precision/PrecisionAnalyzer.java:25-47 | both curves have searchResultSize entries; up to the number of results they are the NDCG curve and the precision curve of the results' relevances; past it they stay 0 |
| PrecisionAnalysis.PrefixCurves | src/main/java/nl/andrewl/emaildatasetreportgen/precision/PrecisionAnalyzer.java:31-45 | filling the two arrays rank by rank yields the NDCG curve and the precision curve of the relevances, followed by zeros up to searchResultSize |
| PrecisionAnalysis.StoreRank | src/main/java/nl/andrewl/emaildatasetreportgen/precision/PrecisionAnalyzer.java:38-44 | storing rank i's values extends the filled prefix of both curves by one entry and leaves the zero tail in place |
| PrecisionAnalysis.NdcgCurveStep | src/main/java/nl/andrewl/emaildatasetreportgen/precision/PrecisionAnalyzer.java:33-38 | the NDCG curve of a prefix one longer is the shorter curve followed by the NDCG of the longer prefix |
| PrecisionAnalysis.PrecisionCurveStep | src/main/java/nl/andrewl/emaildatasetreportgen/precision/PrecisionAnalyzer.java:33-44 | the precision curve of a prefix one longer is the shorter curve followed by the precision at the new rank |
| PrecisionAnalysis.NdcgCurve | src/main/java/nl/andrewl/emaildatasetreportgen/precision/PrecisionAnalyzer.java:33-38 | one NDCG value per rank |
| PrecisionAnalysis.PrecisionCurve | src/main/java/nl/andrewl/emaildatasetreportgen/precision/PrecisionAnalyzer.java:33-44 | one precision per rank, each within [0, 1] |
| PrecisionAnalysis.NdcgCurveAt | src/main/java/nl/andrewl/emaildatasetreportgen/precision/PrecisionAnalyzer.java:34-38 | the curve's entry at index i is the NDCG of the first i + 1 relevances |
| PrecisionAnalysis.PrecisionCurveAt | src/main/java/nl/andrewl/emaildatasetreportgen/precision/PrecisionAnalyzer.java:34-44 | the curve's entry at index i is the precision of the first i + 1 relevances |
| PrecisionAnalysis.AnalyzePrefix | src/main/java/nl/andrewl/emaildatasetreportgen/precision/PrecisionAnalyzer.java:34-44 | copying the first n relevances and scoring the copy gives the NDCG of that prefix and the precision at rank n |
| PrecisionAnalysis.SearchNdcgUndefinedIffNoneRelevant | src/main/java/nl/andrewl/emaildatasetreportgen/precision/PrecisionAnalyzer.java:38 | the NDCG at rank n is undefined (NaN in the source) exactly when none of the first n results is relevant |
| PrecisionAnalysis.PositiveCountZero | src/main/java/nl/andrewl/emaildatasetreportgen/precision/PrecisionAnalyzer.java:40-43 | over non-negative relevances the count is zero exactly when every relevance is zero |
| IntakePrecision.Indicators | intake/src/main/java/nl/andrewl/emaildatasetreportgen/precision/PrecisionAnalyzer.java:23 | one 0/1 indicator per relevance |
| IntakePrecision.Average | intake/src/main/java/nl/andrewl/emaildatasetreportgen/precision/PrecisionAnalyzer.java:21-24 | the mean is absent exactly for an empty stream, where the source throws |
| IntakePrecision.IndicatorSum | intake/src/main/java/nl/andrewl/emaildatasetreportgen/precision/PrecisionAnalyzer.java:21-23 | the indicators sum to the number of positive relevances |
| IntakePrecision.AverageIsPrecision | intake/src/main/java/nl/andrewl/emaildatasetreportgen/precision/PrecisionAnalyzer.java:21-24 | the mean of the first n indicators exists and is the precision at rank n, so `orElseThrow` never throws inside the loop |
| IntakePrecision.PrecisionAnalyzer.constructor | intake/src/main/java/nl/andrewl/emaildatasetreportgen/precision/PrecisionAnalyzer.java:11-14 | keeps the ideal relevances as given |
| IntakePrecision.PrecisionAnalyzer.AnalyzeSearch | intake/src/main/java/nl/andrewl/emaildatasetreportgen/precision/PrecisionAnalyzer.java:16-27 | the NDCG curve is whatever the iterative NDCG returns for the relevances and the ideal relevances; the precision array is the precision curve of the relevances |
| PrecisionReport.IterativeSeries | src/main/java/nl/andrewl/emaildatasetreportgen/cmd/PrecisionReportGenerator.java:89-97 | one NDCG point and one average point per rank, at x = 1 .. the number of relevances |
| PrecisionReport.IterativeNdcgIsCurve | src/main/java/nl/andrewl/emaildatasetreportgen/cmd/PrecisionReportGenerator.java:89-94 | the NDCG series of doIterativeNDCG is, point for point, the NDCG curve the precision analyzer computes for the same relevances |
| PrecisionReport.AverageSeriesIsPrecision | src/main/java/nl/andrewl/emaildatasetreportgen/cmd/PrecisionReportGenerator.java:95-96 | for 0/1 relevances and an averaging function that is the arithmetic mean, the "precision" series is the precision curve |
| PrecisionReport.GetAkWeight | src/main/java/nl/andrewl/emaildatasetreportgen/cmd/PrecisionReportGenerator.java:109-126 | the weight of a result is its thread's share of categorised messages that are architectural, 0 when none is categorised, and so lies in [0, 1] |
| PrecisionReport.GetRelevances | src/main/java/nl/andrewl/emaildatasetreportgen/cmd/PrecisionReportGenerator.java:101-107 | a fresh array holding the weight of each of the first MAX_RESULTS (75) results, in rank order |
| PrecisionReport.DoIterativeNdcg | src/main/java/nl/andrewl/emaildatasetreportgen/cmd/PrecisionReportGenerator.java:84-99 | the series built by the loop over n are exactly the iterative series of the relevances |
| PrecisionReport.CopyPrefix | src/main/java/nl/andrewl/emaildatasetreportgen/cmd/PrecisionReportGenerator.java:90-91 | a fresh array holding the first n relevances |
| PrecisionReport.QuerySeries | src/main/java/nl/andrewl/emaildatasetreportgen/cmd/PrecisionReportGenerator.java:48-62 | for one query: the series with all positive tags, and one series per positive tag, in order, computed with that tag alone |
| PrecisionReport.PerTagSeries | src/main/java/nl/andrewl/emaildatasetreportgen/cmd/PrecisionReportGenerator.java:56-62 | one series per tag, each computed with the singleton set of that tag as the positive tags |
| PrecisionReport.GetRelevancesOf | src/main/java/nl/andrewl/emaildatasetreportgen/cmd/PrecisionReportGenerator.java:101-107 | at most 75 relevances, fewer only when the ranking is shorter; each is the thread weight of the result at that rank and lies in [0, 1] |
| IntakePrecisionReport.DescendingSplit | intake/src/main/java/nl/andrewl/emaildatasetreportgen/cmd/PrecisionReportGenerator.java:53-57 | cutting a non-increasing sequence after m values splits its multiset, and no dropped value exceeds a kept one |
| IntakePrecisionReport.TruncatedDescending | intake/src/main/java/nl/andrewl/emaildatasetreportgen/cmd/PrecisionReportGenerator.java:53-57 | the first m values of a descending sort of the values are a sub-multiset of them that no left-out value exceeds |
| IntakePrecisionReport.IdealRelevances | intake/src/main/java/nl/andrewl/emaildatasetreportgen/cmd/PrecisionReportGenerator.java:53-62 | the ideal relevances are min(limit, count) of the values, non-increasing, drawn from the values, and the largest ones: no left-out value exceeds a kept one |
| IntakePrecisionReport.ThreadRelevancesOf | intake/src/main/java/nl/andrewl/emaildatasetreportgen/cmd/PrecisionReportGenerator.java:45-48 | one relevance per tagged thread, each within [0, 1] |
| IntakePrecisionReport.EmailRelevancesOf | intake/src/main/java/nl/andrewl/emaildatasetreportgen/relevance/RelevanceAnalyzer.java:52-60 | one relevance per tagged email: 1 exactly when the email carries a positive tag, 0 otherwise |
| IntakePrecisionReport.CollectThreadRelevances | intake/src/main/java/nl/andrewl/emaildatasetreportgen/cmd/PrecisionReportGenerator.java:45-48 | the walk over the tagged threads collects each thread's relevance in walk order, and the analyzer stays consistent |
| IntakePrecisionReport.CollectEmailRelevances | intake/src/main/java/nl/andrewl/emaildatasetreportgen/cmd/PrecisionReportGenerator.java:49-52 | the walk over the tagged emails collects each email's relevance in walk order |
| IntakePrecisionReport.IdealArrays | intake/src/main/java/nl/andrewl/emaildatasetreportgen/cmd/PrecisionReportGenerator.java:43-62 | the thread ideal is the ideal relevances of the thread relevances cut at MAX_THREADS (75); the email ideal that of the email relevances cut at MAX_EMAILS (500) |
| IntakePrecisionReport.TagAnalyzer | intake/src/main/java/nl/andrewl/emaildatasetreportgen/cmd/PrecisionReportGenerator.java:119-124 | the per-tag analyzer is fresh, has the single tag as its positive tags, shares the threads and maxAkCount of the all-tags analyzer, and starts with an empty cache |
| IntakePrecisionReport.PositiveTagCountMonotone | intake/src/main/java/nl/andrewl/emaildatasetreportgen/relevance/RelevanceAnalyzer.java:77-85 | an email counts no more tags against fewer positive tags |
| IntakePrecisionReport.TagCountMonotone | intake/src/main/java/nl/andrewl/emaildatasetreportgen/relevance/RelevanceAnalyzer.java:77-85 | the recursive tag count of a thread is monotone in the positive tags |
| IntakePrecisionReport.TagCountAllMonotone | intake/src/main/java/nl/andrewl/emaildatasetreportgen/relevance/RelevanceAnalyzer.java:77-85 | the tag count summed over replies is monotone in the positive tags |
| IntakePrecisionReport.NormalizedRelevanceMonotone | intake/src/main/java/nl/andrewl/emaildatasetreportgen/relevance/RelevanceAnalyzer.java:46-47 | the capped, normalised relevance is monotone in the count |
| IntakePrecisionReport.TagRelevanceAtMostAllTags | intake/src/main/java/nl/andrewl/emaildatasetreportgen/cmd/PrecisionReportGenerator.java:117-133 | a thread's relevance under one positive tag never exceeds its relevance under all the positive tags, with the same maxAkCount |
| IntakePrecisionReport.PrecisionCsvRows | intake/src/main/java/nl/andrewl/emaildatasetreportgen/cmd/PrecisionReportGenerator.java:171-178 | one CSV record per NDCG value: rank i + 1, the NDCG and the precision at that index |
| Permutations.Singletons | src/main/java/nl/andrewl/emaildatasetreportgen/cmd/PatternReportGenerator.java:32-37 | one singleton pattern per tag |
| Permutations.GenerateTagPermutations | src/main/java/nl/andrewl/emaildatasetreportgen/cmd/PatternReportGenerator.java:29-50 | the patterns built are exactly Perms(size, tags): none for a size of 0 or less, the singletons for 1, and otherwise every shorter pattern extended by each tag it lacks |
| Permutations.SingletonPermutations | src/main/java/nl/andrewl/emaildatasetreportgen/cmd/PatternReportGenerator.java:32-37 | the loop over the tags builds the singleton patterns in tag order |
| Permutations.ExtendEach | src/main/java/nl/andrewl/emaildatasetreportgen/cmd/PatternReportGenerator.java:39-47 | the outer loop appends the extensions of each shorter pattern, in the order of the shorter patterns |
| Permutations.AddExtensions | src/main/java/nl/andrewl/emaildatasetreportgen/cmd/PatternReportGenerator.java:41-46 | the inner loop appends the pattern extended by each tag it does not contain, in tag order, and skips the tags it does contain |
| Permutations.ExtendMember | src/main/java/nl/andrewl/emaildatasetreportgen/cmd/PatternReportGenerator.java:41-46 | a pattern is an extension of p exactly when it is p followed by one tag not in p |
| Permutations.ExtendAllMember | src/main/java/nl/andrewl/emaildatasetreportgen/cmd/PatternReportGenerator.java:39-47 | a pattern is produced by the outer loop exactly when it is a shorter pattern followed by one tag that pattern lacks |
| Permutations.DistinctSnoc | src/main/java/nl/andrewl/emaildatasetreportgen/cmd/PatternReportGenerator.java:42 | appending a tag keeps a pattern free of repeats exactly when the tag is new to it |
| Permutations.SingletonsMembers | src/main/java/nl/andrewl/emaildatasetreportgen/cmd/PatternReportGenerator.java:32-37 | the singleton patterns are exactly the one-tag arrangements of the tags |
| Permutations.ArrangementSnoc | src/main/java/nl/andrewl/emaildatasetreportgen/cmd/PatternReportGenerator.java:39-46 | an arrangement of size n is an arrangement of size n - 1 followed by a tag it lacks, and conversely |
| Permutations.PermsMembers | src/main/java/nl/andrewl/emaildatasetreportgen/cmd/PatternReportGenerator.java:29-50 | for size 1 or more, a pattern is generated exactly when it is an arrangement: size tags, drawn from the tags, none repeated |
| Permutations.ExtendAllArrangements | src/main/java/nl/andrewl/emaildatasetreportgen/cmd/PatternReportGenerator.java:38-47 | extending all arrangements of size n - 1 yields exactly the arrangements of size n |
| Permutations.NonPositiveSizeGivesNothing | src/main/java/nl/andrewl/emaildatasetreportgen/cmd/PatternReportGenerator.java:30 | a size of 0 or less gives no patterns |
| Permutations.ExtendCount | src/main/java/nl/andrewl/emaildatasetreportgen/cmd/PatternReportGenerator.java:41-46 | an arrangement of k distinct tags out of m gets exactly m - k extensions |
| Permutations.ExtendAllCount | src/main/java/nl/andrewl/emaildatasetreportgen/cmd/PatternReportGenerator.java:39-47 | extending a list of arrangements of size k multiplies its length by m - k |
| Permutations.PermsAreArrangements | src/main/java/nl/andrewl/emaildatasetreportgen/cmd/PatternReportGenerator.java:29-50 | every generated pattern is an arrangement of the requested size |
| Permutations.PermsCount | src/main/java/nl/andrewl/emaildatasetreportgen/cmd/PatternReportGenerator.java:29-50 | for distinct tags, the number of generated patterns is the falling factorial m (m - 1) ... (m - size + 1) |
| Permutations.PermsDistinct | src/main/java/nl/andrewl/emaildatasetreportgen/cmd/PatternReportGenerator.java:29-50 | for distinct tags no pattern is generated twice |
| PermutationOrder.LexSortedAppend | src/main/java/nl/andrewl/emaildatasetreportgen/cmd/PatternReportGenerator.java:39-47 | two lexicographically sorted lists, all of the first before all of the second, concatenate into a sorted list |
| PermutationOrder.PrecedesInPrefix | src/main/java/nl/andrewl/emaildatasetreportgen/cmd/PatternReportGenerator.java:41 | a tag order seen in a prefix of the tags holds in the whole list |
| PermutationOrder.ExtendSorted | src/main/java/nl/andrewl/emaildatasetreportgen/cmd/PatternReportGenerator.java:41-46 | the extensions of one pattern come out in the order of the tags |
| PermutationOrder.ExtendAllSorted | src/main/java/nl/andrewl/emaildatasetreportgen/cmd/PatternReportGenerator.java:39-47 | extending a sorted list of equal-length patterns gives a sorted list |
| PermutationOrder.PermsSorted | src/main/java/nl/andrewl/emaildatasetreportgen/cmd/PatternReportGenerator.java:29-50 | the generated patterns are in lexicographic order with respect to the order of the tags |
| NGramSearch.HasPatternIffChain | src/main/java/nl/andrewl/emaildatasetreportgen/cmd/NGramPatternSearcher.java:71-89 | without skipping, an email matches a non-empty pattern exactly when some reply chain starting at it carries the pattern's tags in order, one per message |
| NGramSearch.HasPatternGivesChain | src/main/java/nl/andrewl/emaildatasetreportgen/cmd/NGramPatternSearcher.java:82-88 | a match yields such a reply chain |
| NGramSearch.ChainGivesHasPattern | src/main/java/nl/andrewl/emaildatasetreportgen/cmd/NGramPatternSearcher.java:82-88 | such a reply chain yields a match |
| NGramSearch.HasPatternRules | src/main/java/nl/andrewl/emaildatasetreportgen/cmd/NGramPatternSearcher.java:71-89 | the empty pattern always matches; a skipped non-architectural email matches exactly when some reply does; otherwise a one-tag pattern matches when the email has the tag, and a longer one when it has the first tag and some reply matches the rest |
| NGramSearch.ThreadHitsAllSnoc | src/main/java/nl/andrewl/emaildatasetreportgen/cmd/NGramPatternSearcher.java:59-61 | the increments over a list of replies add up reply by reply |
| NGramSearch.TagHitsValue | src/main/java/nl/andrewl/emaildatasetreportgen/cmd/NGramPatternSearcher.java:53-57 | scanning the candidates for one tag adds, to pattern p, once per occurrence of p among the candidates when p starts with that tag and the email matches it, and nothing otherwise |
| NGramSearch.OwnHitsOver | src/main/java/nl/andrewl/emaildatasetreportgen/cmd/NGramPatternSearcher.java:52-58 | scanning all of an email's tags adds to p the number of occurrences of p's first tag times the occurrences of p among the candidates, when the email matches p |
| NGramSearch.OwnHitsValue | src/main/java/nl/andrewl/emaildatasetreportgen/cmd/NGramPatternSearcher.java:51-58 | the same for the email's own tags; the email adds to p exactly when it has p's first tag, p is a candidate and the email matches p |
| NGramSearch.SingleTagCount | src/main/java/nl/andrewl/emaildatasetreportgen/cmd/NGramPatternSearcher.java:50-62 | for a one-tag pattern listed once, and tags without repeats, a thread adds the number of its messages carrying the tag |
| NGramSearch.SingleTagCountAll | src/main/java/nl/andrewl/emaildatasetreportgen/cmd/NGramPatternSearcher.java:59-61 | the same summed over a list of replies |
| NGramSearch.NGramPatternSearcher.constructor | src/main/java/nl/andrewl/emaildatasetreportgen/cmd/NGramPatternSearcher.java:21-30 | the counted patterns are the candidates, each at 0, with the flags as given |
| NGramSearch.NGramPatternSearcher.ConsumeEmail | src/main/java/nl/andrewl/emaildatasetreportgen/cmd/NGramPatternSearcher.java:45-48 | consuming a thread root adds to every counted pattern the thread's increments and adds no pattern |
| NGramSearch.NGramPatternSearcher.PatternSearchRecursive | src/main/java/nl/andrewl/emaildatasetreportgen/cmd/NGramPatternSearcher.java:50-62 | the message's own scan plus the recursive scans of all replies add the thread's increments to every pattern |
| NGramSearch.NGramPatternSearcher.ScanMessage | src/main/java/nl/andrewl/emaildatasetreportgen/cmd/NGramPatternSearcher.java:52-58 | the double loop over the message's tags and the candidates adds the message's own hits to each pattern |
| NGramSearch.NGramPatternSearcher.ScanTag | src/main/java/nl/andrewl/emaildatasetreportgen/cmd/NGramPatternSearcher.java:53-57 | the candidate loop for one tag adds that tag's hits to each pattern |
| NGramSearch.NGramPatternSearcher.GetResultsOrdered | src/main/java/nl/andrewl/emaildatasetreportgen/cmd/NGramPatternSearcher.java:36-43 | one result per counted pattern carrying its count, nothing else, by non-increasing count |
| NGramSearch.DoNGramAnalysis | src/main/java/nl/andrewl/emaildatasetreportgen/cmd/PatternReportGenerator.java:52-59 | the results are exactly the generated arrangements of size tags, each with its count summed over the tagged threads, by non-increasing count |
| NGramSearch.SearchThreads | src/main/java/nl/andrewl/emaildatasetreportgen/cmd/PatternReportGenerator.java:56-57 | after the walk over the tagged threads, every candidate's count is the sum of its increments over all threads |
| NGramSearch.NGramRows | src/main/java/nl/andrewl/emaildatasetreportgen/cmd/PatternReportGenerator.java:61-68 | one record per result: rank i + 1, its pattern and its count |
| PatternResults.Count | src/main/java/nl/andrewl/emaildatasetreportgen/pattern/NGramSearchResult.java:28-30 | the count is zero exactly when nothing was recorded |
| PatternResults.Record | intake/src/main/java/nl/andrewl/emaildatasetreportgen/pattern/CoOccurrenceSearcher.java:27 | recording an entry keeps the pattern, raises the count by one and appends the entry after the earlier ones |
| PatternResults.InitialShape | src/main/java/nl/andrewl/emaildatasetreportgen/pattern/NGramSearchResult.java:8-15 | the initial table has exactly the listed patterns as keys, each entry keyed by its own pattern and empty |
| PatternResults.InitialCollapsesDuplicates | src/main/java/nl/andrewl/emaildatasetreportgen/pattern/NGramSearchResult.java:12-14 | listing a pattern a second time does not change the initial table |
| PatternResults.InitialOrderInsensitive | src/main/java/nl/andrewl/emaildatasetreportgen/pattern/CoOccurrenceSearchResult.java:8-13 | the initial table depends only on which patterns are listed, not on their order |
| PatternResults.PatternTable.constructor | src/main/java/nl/andrewl/emaildatasetreportgen/pattern/NGramSearchResult.java:8-15 | the fresh table is the initial table of the patterns: one empty result per distinct pattern |
| PatternResults.PatternTable.Patterns | src/main/java/nl/andrewl/emaildatasetreportgen/pattern/NGramSearchResult.java:17-19 | the set of patterns is exactly the table's key set |
| PatternResults.PatternTable.ResultsOrdered | src/main/java/nl/andrewl/emaildatasetreportgen/pattern/NGramSearchResult.java:21-25 | every entry of the table once, nothing else, by non-increasing count |
| CoOccurrence.TagNames | intake/src/main/java/nl/andrewl/emaildatasetreportgen/pattern/CoOccurrenceSearcher.java:24 | the set of the email's tag names |
| CoOccurrence.ConsumedCounts | intake/src/main/java/nl/andrewl/emaildatasetreportgen/pattern/CoOccurrenceSearcher.java:25-29 | consuming an email keeps the patterns; a pattern all of whose tags the email carries gains one entry, any other pattern is unchanged |
| CoOccurrence.ConsumedKeepsKeysMatch | intake/src/main/java/nl/andrewl/emaildatasetreportgen/pattern/CoOccurrenceSearcher.java:25-29 | every entry stays keyed by its own pattern |
| CoOccurrence.ConsumedTagOrderInsensitive | intake/src/main/java/nl/andrewl/emaildatasetreportgen/pattern/CoOccurrenceSearcher.java:24-26 | the order and repetition of the email's tags do not matter |
| CoOccurrence.EmptyPatternMatchesAll | intake/src/main/java/nl/andrewl/emaildatasetreportgen/pattern/CoOccurrenceSearcher.java:26-27 | the empty pattern records every email |
| CoOccurrence.PatternOrderInsensitive | src/main/java/nl/andrewl/emaildatasetreportgen/pattern/CoOccurrenceSearchResult.java:8-13 | two tag lists with the same members give the same pattern key |
| CoOccurrence.PartlyConsumedStep | intake/src/main/java/nl/andrewl/emaildatasetreportgen/pattern/CoOccurrenceSearcher.java:25-28 | handling one more pattern of the key set keeps the partial-consumption invariant |
| CoOccurrence.PartlyConsumedDone | intake/src/main/java/nl/andrewl/emaildatasetreportgen/pattern/CoOccurrenceSearcher.java:25-29 | once every pattern is handled the table is the consumed table |
| CoOccurrence.CoOccurrenceSearcher.constructor | intake/src/main/java/nl/andrewl/emaildatasetreportgen/pattern/CoOccurrenceSearcher.java:14-16 | the searcher owns a fresh result table that is the initial table of the patterns |
| CoOccurrence.CoOccurrenceSearcher.ConsumeEmail | intake/src/main/java/nl/andrewl/emaildatasetreportgen/pattern/CoOccurrenceSearcher.java:22-30 | the table becomes the consumed table: each pattern contained in the email's tag names records the email's id |
| EmailDataBuild.FromMessageId | src/main/java/nl/andrewl/emaildatasetreportgen/EmailData.java:54-86 | null exactly for an id the repository cannot find; otherwise the entry's own fields unchanged, and a strictly sorted (distinct, ordered) list of reply tags, empty when there are no replies |
| EmailDataBuild.LoadAll | src/main/java/nl/andrewl/emaildatasetreportgen/EmailData.java:69-72 | the loaded replies are exactly the loadable ones, the missing ones dropped |
| EmailDataBuild.ReplyTagList | src/main/java/nl/andrewl/emaildatasetreportgen/EmailData.java:73-82 | the rolled-up reply tags are exactly the own tags and rolled-up tags of the loaded replies |
| EmailDataBuild.DescendantTagsMember | src/main/java/nl/andrewl/emaildatasetreportgen/EmailData.java:73-79 | a tag is a descendant tag of the replies exactly when it occurs in one of their trees |
| EmailDataBuild.ReplyTagsAreDescendantTags | src/main/java/nl/andrewl/emaildatasetreportgen/EmailData.java:73-84 | for rolled-up replies, the reply tag list is exactly the set of tags anywhere below the message |
| EmailDataBuild.FromMessageIdRolledUp | src/main/java/nl/andrewl/emaildatasetreportgen/EmailData.java:54-86 | in every loaded message, tagsViaReplies holds exactly the tags of all descendants |
| EmailDataBuild.LoadAllRolledUp | src/main/java/nl/andrewl/emaildatasetreportgen/EmailData.java:69-72 | every loaded reply is rolled up in the same sense |
| EmailDataBuild.OwnTagsNotMerged | src/main/java/nl/andrewl/emaildatasetreportgen/EmailData.java:63-64 | the message's own tags stay its own: tagsViaReplies is computed from the replies only, so an own tag appears there only if a descendant also carries it |
| EmailDataBuild.Wrap32 | src/main/java/nl/andrewl/emaildatasetreportgen/EmailData.java:137-139 | Java int arithmetic: the result is in the 32-bit signed range and congruent to the input modulo 2^32 |
| EmailDataBuild.StringHash | src/main/java/nl/andrewl/emaildatasetreportgen/EmailData.java:137-139 | String.hashCode lies in the 32-bit signed range |
| EmailDataBuild.StringHashExample | src/main/java/nl/andrewl/emaildatasetreportgen/EmailData.java:137-139 | the hash of "", "a", "ab" is 0, 97, 3105 |
| EmailDataBuild.HashCode | src/main/java/nl/andrewl/emaildatasetreportgen/EmailData.java:136-139 | the hash of an EmailData is a 32-bit int |
| EmailDataBuild.EqualsIsEquivalence | src/main/java/nl/andrewl/emaildatasetreportgen/EmailData.java:128-134 | equality by message id is reflexive, symmetric and transitive |
| EmailDataBuild.EqualsImpliesEqualHash | src/main/java/nl/andrewl/emaildatasetreportgen/EmailData.java:128-139 | equal EmailData have equal hash codes, as the equals/hashCode contract demands |
| OverviewReport.ThreadTagsAreMessageTags | src/main/java/nl/andrewl/emaildatasetreportgen/cmd/OverviewReportGenerator.java:46-48 | the thread's tag set is exactly the tags of the root and of all its descendants |
| OverviewReport.ThreadTagCountAtMostRoots | src/main/java/nl/andrewl/emaildatasetreportgen/cmd/OverviewReportGenerator.java:44-52 | no tag is counted for more threads than the walk has thread starts |
| OverviewReport.CountsSeparate | src/main/java/nl/andrewl/emaildatasetreportgen/cmd/OverviewReportGenerator.java:44-58 | thread starts never feed the per-email counts, and replies never feed the thread counts or the relevances |
| OverviewReport.RelevancesBounded | src/main/java/nl/andrewl/emaildatasetreportgen/cmd/OverviewReportGenerator.java:45 | at most one relevance per thread start, each within [0, 1] |
| OverviewReport.WalkSnoc | src/main/java/nl/andrewl/emaildatasetreportgen/cmd/OverviewReportGenerator.java:43-58 | one more walked message adds its tags to the email counts (a reply) or its thread tags to the thread counts and, when it has tags, its relevance (a thread start) |
| OverviewReport.OverviewCounts.constructor | src/main/java/nl/andrewl/emaildatasetreportgen/cmd/OverviewReportGenerator.java:37-39 | all counters start empty |
| OverviewReport.OverviewCounts.Consume | src/main/java/nl/andrewl/emaildatasetreportgen/cmd/OverviewReportGenerator.java:43-58 | after each walked message the counters are exactly the counts of the walk so far |
| OverviewReport.BumpEach | src/main/java/nl/andrewl/emaildatasetreportgen/cmd/OverviewReportGenerator.java:54-57 | every name's count rises by its number of occurrences, and the names become keys |
| OverviewReport.AllThreadTags | src/main/java/nl/andrewl/emaildatasetreportgen/cmd/OverviewReportGenerator.java:46-48 | the collected set is the thread's tag set |
| OverviewReport.HeaderTags | src/main/java/nl/andrewl/emaildatasetreportgen/cmd/OverviewReportGenerator.java:62-64 | the header tags are the counted tags that are positive or negative, sorted, without repeats |
| OverviewReport.CountsRow | src/main/java/nl/andrewl/emaildatasetreportgen/cmd/OverviewReportGenerator.java:69-78 | one count per header name, 0 for an absent one; computeIfAbsent adds the absent names with 0 and changes no other entry |
| OverviewReport.BinLayout | src/main/java/nl/andrewl/emaildatasetreportgen/cmd/OverviewReportGenerator.java:115-120 | ten bins |
| OverviewReport.HistogramBins | src/main/java/nl/andrewl/emaildatasetreportgen/cmd/OverviewReportGenerator.java:115-120 | the loop builds exactly the ten bins [i/10, (i+1)/10) with the last one closed at 1 |
| OverviewReport.BinsTile | src/main/java/nl/andrewl/emaildatasetreportgen/cmd/OverviewReportGenerator.java:117-119 | bin i holds x exactly when i/10 <= x < (i+1)/10, or x = 1 for the last bin |
| OverviewReport.BinsCover | src/main/java/nl/andrewl/emaildatasetreportgen/cmd/OverviewReportGenerator.java:117-121 | every relevance in [0, 1] falls in some bin |
| OverviewReport.BinsDisjoint | src/main/java/nl/andrewl/emaildatasetreportgen/cmd/OverviewReportGenerator.java:117-121 | no relevance falls in two bins |
| OverviewReport.BinsOutside | src/main/java/nl/andrewl/emaildatasetreportgen/cmd/OverviewReportGenerator.java:117-121 | a value outside [0, 1] falls in no bin |
| CharacteristicReport.ValuesWithSnoc | src/main/java/nl/andrewl/emaildatasetreportgen/cmd/CharacteristicReportGenerator.java:63-69 | one more walked email adds its value to the list of its status, and to no other |
| CharacteristicReport.ValuesPartition | src/main/java/nl/andrewl/emaildatasetreportgen/cmd/CharacteristicReportGenerator.java:63-69 | the architectural, non-architectural and unknown values together account for every walked email exactly once |
| CharacteristicReport.ValuesWithMember | src/main/java/nl/andrewl/emaildatasetreportgen/cmd/CharacteristicReportGenerator.java:63-69 | a value is in a status's list exactly when some walked email of that status has it |
| CharacteristicReport.StatusMonotone | src/main/java/nl/andrewl/emaildatasetreportgen/cmd/CharacteristicReportGenerator.java:71-78 | adding positive tags only moves values into the architectural list and out of the non-architectural one, so a single-tag list is a sub-multiset of the any-tag list |
| CharacteristicReport.SizeDataOfSnoc | src/main/java/nl/andrewl/emaildatasetreportgen/cmd/CharacteristicReportGenerator.java:66-69 | the lists of a walk one longer are the earlier lists with the new value put in its status's bucket, and unknown statuses dropped |
| CharacteristicReport.PositiveTagsDistinct | src/main/java/nl/andrewl/emaildatasetreportgen/ReportGen.java:22 | the positive tags are listed without repeats |
| CharacteristicReport.BucketPerTag | src/main/java/nl/andrewl/emaildatasetreportgen/cmd/CharacteristicReportGenerator.java:71-78 | every positive tag gets an entry (created empty when absent) with the value put in the bucket of the email's status against that tag alone; other entries are unchanged |
| CharacteristicReport.SizeDataSet.constructor | src/main/java/nl/andrewl/emaildatasetreportgen/cmd/CharacteristicReportGenerator.java:30-34 | empty any-tag lists and no per-tag entries |
| CharacteristicReport.SizeDataSet.Consume | src/main/java/nl/andrewl/emaildatasetreportgen/cmd/CharacteristicReportGenerator.java:63-79 | after each walked email the data are the lists of the walk so far, overall and per positive tag |
| CharacteristicReport.GetSizeData | src/main/java/nl/andrewl/emaildatasetreportgen/cmd/CharacteristicReportGenerator.java:56-82 | the data set after the whole walk |
| CharacteristicReport.RepliesRecursive | src/main/java/nl/andrewl/emaildatasetreportgen/cmd/CharacteristicReportGenerator.java:117 | countRepliesRecursive is the number of messages of the thread other than its root |
| CharacteristicReport.SendersAtMost | src/main/java/nl/andrewl/emaildatasetreportgen/cmd/CharacteristicReportGenerator.java:163-174 | there are no more senders than messages |
| CharacteristicReport.SendersSnoc | src/main/java/nl/andrewl/emaildatasetreportgen/cmd/CharacteristicReportGenerator.java:170 | adding a message adds its sender to the set |
| CharacteristicReport.ParticipantCount | src/main/java/nl/andrewl/emaildatasetreportgen/cmd/CharacteristicReportGenerator.java:163-174 | a thread has at least one participant and no more than it has messages |
| CharacteristicReport.QueueStep | src/main/java/nl/andrewl/emaildatasetreportgen/cmd/CharacteristicReportGenerator.java:167-172 | taking the head of the queue and enqueueing its replies keeps every message of the thread accounted for once, and the messages still to visit decrease |
| CharacteristicReport.QueueStart | src/main/java/nl/andrewl/emaildatasetreportgen/cmd/CharacteristicReportGenerator.java:165-166 | the queue holding only the root accounts for the whole thread |
| CharacteristicReport.QueueDrained | src/main/java/nl/andrewl/emaildatasetreportgen/cmd/CharacteristicReportGenerator.java:167-173 | when the queue is empty every message of the thread was dequeued exactly once, so the senders seen are the thread's senders |
| CharacteristicReport.UniqueParticipantCount | src/main/java/nl/andrewl/emaildatasetreportgen/cmd/CharacteristicReportGenerator.java:163-174 | the breadth-first walk visits each message of the thread once and returns the number of distinct senders |
| CharacteristicReport.Generate | src/main/java/nl/andrewl/emaildatasetreportgen/cmd/CharacteristicReportGenerator.java:36-54 | the four data sets are those of body length and word count over the tagged emails, and of reply count and participant count over the tagged threads |
| IntakeCharacteristicReport.PerTagAddedSpec | intake/src/main/java/nl/andrewl/emaildatasetreportgen/cmd/CharacteristicReportGenerator.java:104-107 | the per-tag loop creates an entry exactly for the positive tags the email is architectural for on its own, and appends the value to just those lists |
| IntakeCharacteristicReport.SizeDataSet.constructor | intake/src/main/java/nl/andrewl/emaildatasetreportgen/cmd/CharacteristicReportGenerator.java:26-28 | three empty collections |
| IntakeCharacteristicReport.SizeDataSet.AddTagSizeData | intake/src/main/java/nl/andrewl/emaildatasetreportgen/cmd/CharacteristicReportGenerator.java:30-32 | the tag's list, created when absent, gets the value appended; nothing else changes |
| IntakeCharacteristicReport.SizeDataSet.AddPerTag | intake/src/main/java/nl/andrewl/emaildatasetreportgen/cmd/CharacteristicReportGenerator.java:104-107 | the per-tag loop appends the value to the list of each positive tag the email is architectural for alone, and leaves the other lists and the overall lists as they were |
| IntakeCharacteristicReport.SizeDataSet.Consume | intake/src/main/java/nl/andrewl/emaildatasetreportgen/cmd/CharacteristicReportGenerator.java:96-108 | after each walked email the data are the architectural and non-architectural values of the walk so far, and a list per positive tag of the values of the emails architectural for that tag |
| IntakeCharacteristicReport.GetSizeData | intake/src/main/java/nl/andrewl/emaildatasetreportgen/cmd/CharacteristicReportGenerator.java:88-111 | the data set after the whole walk |
| IntakeCharacteristicReport.ColumnIsTagValues | intake/src/main/java/nl/andrewl/emaildatasetreportgen/cmd/CharacteristicReportGenerator.java:104-107 | a tag's column holds the values of the walked emails architectural for that tag, and is empty for any other name |
| IntakeCharacteristicReport.KeysOccurred | intake/src/main/java/nl/andrewl/emaildatasetreportgen/cmd/CharacteristicReportGenerator.java:104-107 | a per-tag list exists only for a tag some walked email carries |
| IntakeCharacteristicReport.ThreadSize | intake/src/main/java/nl/andrewl/emaildatasetreportgen/cmd/CharacteristicReportGenerator.java:48 | the thread size is the number of messages including the root |
| IntakeCharacteristicReport.Generate | intake/src/main/java/nl/andrewl/emaildatasetreportgen/cmd/CharacteristicReportGenerator.java:42-52 | the four data sets are those of body length and word count over the tagged emails, and of thread size and participant count over the tagged threads |
| IntakeCharacteristicReport.ColumnTags | intake/src/main/java/nl/andrewl/emaildatasetreportgen/cmd/CharacteristicReportGenerator.java:61-63 | the column tags are every tag with a list in any data set, sorted, without repeats |
| IntakeCharacteristicReport.CsvRow | intake/src/main/java/nl/andrewl/emaildatasetreportgen/cmd/CharacteristicReportGenerator.java:72-82 | a row is the name, the non-architectural list, the any-tag list, then one list per column tag, empty where the data set has none |
| IntakeCharacteristicReport.CsvTable | intake/src/main/java/nl/andrewl/emaildatasetreportgen/cmd/CharacteristicReportGenerator.java:54-85 | the header is CHARACTERISTIC, NOT_AK, ANY_TAG then the sorted column tags; each row lines up with the header and follows the row layout |
| PatternRenderer.TrimAll | visual/jVisualizer/src/main/java/nl/andrewl/jvisualizer/render/PatternRenderer.java:35-36 | one trimmed name per stored tag name |
| PatternRenderer.TrimAllAt | visual/jVisualizer/src/main/java/nl/andrewl/jvisualizer/render/PatternRenderer.java:36 | entry i is the trimmed i-th name |
| PatternRenderer.EligiblePrefix | visual/jVisualizer/src/main/java/nl/andrewl/jvisualizer/render/PatternRenderer.java:35-43 | the scan keeps at most as many tags as the pattern has |
| PatternRenderer.EligiblePrefixSpec | visual/jVisualizer/src/main/java/nl/andrewl/jvisualizer/render/PatternRenderer.java:35-43 | the scan keeps the longest prefix of eligible tags: a prefix of the input, all eligible, stopping exactly at the first ineligible tag |
| PatternRenderer.Scanned | visual/jVisualizer/src/main/java/nl/andrewl/jvisualizer/render/PatternRenderer.java:33-43 | the tags collected for an entry are at most as many as it stores |
| PatternRenderer.KeptIff | visual/jVisualizer/src/main/java/nl/andrewl/jvisualizer/render/PatternRenderer.java:34-46 | an entry is kept exactly when every trimmed tag is eligible, and then its tags are all its trimmed names |
| PatternRenderer.ScannedEligible | visual/jVisualizer/src/main/java/nl/andrewl/jvisualizer/render/PatternRenderer.java:36-42 | every collected tag is eligible and is the trimmed name at the same position |
| PatternRenderer.MaxLength | visual/jVisualizer/src/main/java/nl/andrewl/jvisualizer/render/PatternRenderer.java:41 | the running maximum never falls below its start |
| PatternRenderer.MaxLengthSpec | visual/jVisualizer/src/main/java/nl/andrewl/jvisualizer/render/PatternRenderer.java:41 | the running maximum bounds every tag's length and is either its start or a tag's length |
| PatternRenderer.LongestTagLength | visual/jVisualizer/src/main/java/nl/andrewl/jvisualizer/render/PatternRenderer.java:29-43 | the longest tag length is -1 or more |
| PatternRenderer.PatternCountsKeys | visual/jVisualizer/src/main/java/nl/andrewl/jvisualizer/render/PatternRenderer.java:44-46 | the table's patterns are exactly the scanned tag lists of the kept entries |
| PatternRenderer.LastCountWins | visual/jVisualizer/src/main/java/nl/andrewl/jvisualizer/render/PatternRenderer.java:45 | a kept entry's count stays in the table unless a later kept entry has the same tag list |
| PatternRenderer.LongestBoundsAll | visual/jVisualizer/src/main/java/nl/andrewl/jvisualizer/render/PatternRenderer.java:30-43 | the longest tag length bounds every tag collected from any entry, kept or skipped |
| PatternRenderer.LongestIsAttained | visual/jVisualizer/src/main/java/nl/andrewl/jvisualizer/render/PatternRenderer.java:29-41 | the longest tag length is -1 or the length of some collected tag |
| PatternRenderer.KeptTagsFit | visual/jVisualizer/src/main/java/nl/andrewl/jvisualizer/render/PatternRenderer.java:44-46 | every tag of a kept pattern is eligible and fits in the longest tag length |
| PatternRenderer.SubTagsDropped | visual/jVisualizer/src/main/java/nl/andrewl/jvisualizer/render/PatternRenderer.java:19-24 | with the four architectural-knowledge tags as the eligible set, no table holds the existence sub-tags |
| PatternRenderer.ScanPattern | visual/jVisualizer/src/main/java/nl/andrewl/jvisualizer/render/PatternRenderer.java:33-43 | the inner loop collects the scanned tags, sets shouldSkip exactly when the entry is not kept, and updates the running maximum over the collected tags |
| PatternRenderer.CollectPatterns | visual/jVisualizer/src/main/java/nl/andrewl/jvisualizer/render/PatternRenderer.java:28-47 | the outer loop builds the pattern table and the longest tag length of the entries |
| PatternRenderer.ReversedSortedDesc | visual/jVisualizer/src/main/java/nl/andrewl/jvisualizer/render/PatternRenderer.java:49-51 | reversing an ascending list gives a descending permutation of it |
| PatternRenderer.SortedPatternCounts | visual/jVisualizer/src/main/java/nl/andrewl/jvisualizer/render/PatternRenderer.java:49-51 | every table entry once, nothing else, by non-increasing count |
| PatternRenderer.Padded | visual/jVisualizer/src/main/java/nl/andrewl/jvisualizer/render/PatternRenderer.java:62 | a tag padded to paddingSize starts with the tag and ends in spaces |
| PatternRenderer.CellsSingle | visual/jVisualizer/src/main/java/nl/andrewl/jvisualizer/render/PatternRenderer.java:60-66 | a one-tag pattern is its padded tag with no separator |
| PatternRenderer.PiecesFront | visual/jVisualizer/src/main/java/nl/andrewl/jvisualizer/render/PatternRenderer.java:60-66 | the pieces of a prefix of the pattern are the pattern's pieces up to it, with the last one unseparated |
| PatternRenderer.PiecesWhole | visual/jVisualizer/src/main/java/nl/andrewl/jvisualizer/render/PatternRenderer.java:63-65 | the pattern's pieces split at tag i into the earlier ones, tag i - 1 with its separator, and the rest |
| PatternRenderer.CellsSplit | visual/jVisualizer/src/main/java/nl/andrewl/jvisualizer/render/PatternRenderer.java:60-66 | the cells of a pattern are the cells of any split of it joined by the separator |
| PatternRenderer.PaddedEndsInSpace | visual/jVisualizer/src/main/java/nl/andrewl/jvisualizer/render/PatternRenderer.java:53-62 | with paddingSize one more than the longest tag, every padded tag ends in a space |
| PatternRenderer.RowReadsBack | visual/jVisualizer/src/main/java/nl/andrewl/jvisualizer/render/PatternRenderer.java:67-70 | a row splits back into its cells, " & ", the count's decimal text and the row end, and that text parses to the count |
| PatternRenderer.RowParts | visual/jVisualizer/src/main/java/nl/andrewl/jvisualizer/render/PatternRenderer.java:67-70 | the four parts printed for a row can be cut back out of it at their lengths |
| PatternRenderer.FormatRow | visual/jVisualizer/src/main/java/nl/andrewl/jvisualizer/render/PatternRenderer.java:57-70 | the builder loop and the prints produce the row of the pattern and count |
| PatternRenderer.SortedRowsFit | visual/jVisualizer/src/main/java/nl/andrewl/jvisualizer/render/PatternRenderer.java:53-62 | every sorted pattern's tags are eligible and fit the longest tag length, so the padding count is never negative |
| PatternRenderer.ExportNGramData | visual/jVisualizer/src/main/java/nl/andrewl/jvisualizer/render/PatternRenderer.java:27-73 | the rows are the table's entries by non-increasing count, each formatted with paddingSize = longest + 1 |
| PatternRenderer.FormatRows | visual/jVisualizer/src/main/java/nl/andrewl/jvisualizer/render/PatternRenderer.java:56-71 | one row per sorted entry, formatted in order |
| Sorting.SortDescending | intake/src/main/java/nl/andrewl/emaildatasetreportgen/cmd/PrecisionReportGenerator.java:53-54 | sorting in reverse natural order gives a non-increasing permutation of the values |
| Sorting.AscendingUnique | src/main/java/nl/andrewl/emaildatasetreportgen/AnalysisUtils.java:53 | an ascending arrangement of a multiset is unique, so the sort's result does not depend on how it is computed |
| Sorting.SortBy | visual/jVisualizer/src/main/java/nl/andrewl/jvisualizer/render/PatternRenderer.java:49-50 | the stable sort by count is non-decreasing in count and a permutation of the entries |
| Sorting.SortDescBy | src/main/java/nl/andrewl/emaildatasetreportgen/cmd/NGramPatternSearcher.java:41 | the sort by count, reversed comparator, is non-increasing in count and a permutation of the results |
| Sorting.SortDescLength | src/main/java/nl/andrewl/emaildatasetreportgen/cmd/NGramPatternSearcher.java:41 | sorting keeps the number of results |
| Sorting.InSomeOrder | src/main/java/nl/andrewl/emaildatasetreportgen/cmd/NGramPatternSearcher.java:37-40 | iterating a map's keys visits each key exactly once, in an order the model leaves open |
| Strings.LowerCaseHasNoUpper | src/main/java/nl/andrewl/emaildatasetreportgen/AnalysisUtils.java:13-15 | a string holding an upper-case letter never equals a lower-cased tag name |
| Strings.TrimSpec | visual/jVisualizer/src/main/java/nl/andrewl/jvisualizer/render/PatternRenderer.java:36 | trim removes exactly the leading and trailing characters up to U+0020: the result is the input with such padding cut off and neither starts nor ends with such a character |
| Strings.TrimIdempotent | visual/jVisualizer/src/main/java/nl/andrewl/jvisualizer/render/PatternRenderer.java:36 | trimming twice is trimming once |
| Strings.Spaces | visual/jVisualizer/src/main/java/nl/andrewl/jvisualizer/render/PatternRenderer.java:62 | " ".repeat(n) is n spaces |
| Strings.NatToString | visual/jVisualizer/src/main/java/nl/andrewl/jvisualizer/render/PatternRenderer.java:69 | the decimal text of a natural number is digits with no leading zero |
| Strings.IntToString | visual/jVisualizer/src/main/java/nl/andrewl/jvisualizer/render/PatternRenderer.java:69 | the decimal text of an int is digits, with a leading minus exactly for a negative number |
| Strings.NatToStringRoundTrip | visual/jVisualizer/src/main/java/nl/andrewl/jvisualizer/render/PatternRenderer.java:69 | parsing the digits of a natural number gives it back |
| Strings.IntToStringRoundTrip | visual/jVisualizer/src/main/java/nl/andrewl/jvisualizer/render/PatternRenderer.java:69 | parsing the printed count gives it back |
| Strings.StringLessIrreflexive | src/main/java/nl/andrewl/emaildatasetreportgen/cmd/OverviewReportGenerator.java:64 | the string order used by sorted() is irreflexive |
| Strings.StringLessTransitive | src/main/java/nl/andrewl/emaildatasetreportgen/cmd/OverviewReportGenerator.java:64 | it is transitive |
| Strings.StringLessTotal | src/main/java/nl/andrewl/emaildatasetreportgen/cmd/OverviewReportGenerator.java:64 | it is total on distinct strings |
| Strings.StrictlySortedDistinct | src/main/java/nl/andrewl/emaildatasetreportgen/EmailData.java:80-81 | a strictly sorted list holds no name twice |
| Strings.InsertName | src/main/java/nl/andrewl/emaildatasetreportgen/EmailData.java:80-81 | inserting a name into a strictly sorted list keeps it strictly sorted and adds just that name |
| Strings.SortedDistinct | src/main/java/nl/andrewl/emaildatasetreportgen/EmailData.java:80-81 | distinct() then sorted() gives a strictly sorted list of exactly the input names |
| Strings.SortedNames | intake/src/main/java/nl/andrewl/emaildatasetreportgen/cmd/CharacteristicReportGenerator.java:63 | sorting a set of names gives a strictly sorted list of exactly those names |

## Left out

- Dataset walking (`doForAllEmails`): the paged search and its filters are external. A walk is an input sequence of messages or thread roots. The source catches an exception thrown by the per-message callback and carries on; the model treats a failing callback as having no effect at all, by leaving that message out of the walk. A callback that fails part-way keeps the updates it made before the failure (the overview callback, for example, records a thread relevance before it asks the tag repository for the child tags); such partial effects of a failing external repository call are not modelled.
- Repositories and searchers (`EmailRepository`, `TagRepository`, `EmailIndexSearcher`, `getAllChildTags`, `countRepliesRecursive`): these are external. Threads are tree values, the repository's id lookup is a map from root id to thread, and search rankings are inputs.
- Floating point: `double` is `real`, so IEEE rounding and `Math.log` are not modelled. `log2` is a parameter with only the two properties the proofs need.
- NaN from NDCG (an ideal DCG of 0) is `Metric.Undefined`.
- AnalysisUtils.Ndcg: the model does not promise NDCG <= 1 for an arbitrary ranking. That bound needs a `log2` that increases, and the `Log2` parameter promises only `log2(2) = 1` and `log2(x) > 0` for `x > 1`. NDCG is proved to be exactly 1 for a ranking already in ideal order.
- Integer width: Java `int` overflow is written out only in `hashCode`. The counters elsewhere are unbounded naturals, since a counter that overflowed would need more than 2^31 messages.
- Charts, CSV and file output: JFreeChart, `writeCSV`, JSON and HTML output are out. The CSV records of `savePrecisionCSV`, `writeNGramResults` and the intake characteristic table are modelled as row values. The pattern table's rows are strings, not a file.
- `AnalysisUtils.iterativeNdcg` and `AnalysisUtils.avg` are not part of this model. They are function parameters.
- IntakePrecision.PrecisionAnalyzer.AnalyzeSearch: its NDCG curve is stated only as whatever `iterativeNdcg` returns, because that function's code is not part of the model.
- PrecisionReport.AverageSeriesIsPrecision: connects the average series to precision only for 0/1 relevances and an `avg` that is the arithmetic mean, because `avg` is a parameter.
- PrecisionAnalysis.PrecisionStep: "precision rises exactly when the new result is relevant" is false when no earlier result was relevant: 0/n stays 0 at an irrelevant rank. The lemma states both directions in the form that holds.
- PrecisionAnalysis.AnalyzeSearch: the stream of relevances is a sequence value, so "the relevance array is never changed" holds by construction. The two result arrays are filled in place through `PrefixCurves`.
- RatioRelevance and PrecisionReport.GetAkWeight: the `getStatus(id, tagRepo, …)` overload is `getStatus` on the message's tag names. `GetAkWeight`'s duplicate of `analyzeEmailRecursive` reuses the ratio analyzer's member, because the two bodies are the same.
- CountRelevance.RelevanceAnalyzer.FromDataset: requires a tagged thread whose positive-tag count is above 0. With no tagged thread the source's `orElseThrow` throws, which `ComputeMaxAkCount` models as no value. With only zero counts the source later divides by zero.
- CountRelevance.RelevanceAnalyzer.AnalyzeThread: an id the repository does not know counts 0 tags.
- IntakePrecisionReport.ThreadRelevancesOf: requires `maxAkCount > 0`, like every use of the analyzer.
- Lower-casing is ASCII only: `Strings.Lower` maps 'A'–'Z'. `String.length()` counts UTF-16 units, which the model takes to be one per character.
- EmailData's `idHash` (SHA-256 and Base64) and `date` are not modelled. Equality and hashing use only the message id, as in the source.
- Word count (`split("\\s+")`): CharacteristicReport.Generate and IntakeCharacteristicReport.Generate take the word-count characteristic as a parameter, because Java regex splitting is not modelled.
- The BFS in `getUniqueParticipantCount`: `findPreviewById(...).orElseThrow()` cannot fail on a tree value, so the error path is absent. The intake copy of the method is the same code, so the model reuses the `CharacteristicReport` participant count and its breadth-first method.
- Iteration order of `HashMap`/`HashSet` (`getResultsOrdered`, `resultsOrdered`, the `Map.of` in the intake characteristic table): the order is left open (`Sorting.InSomeOrder`). The contracts state only what holds in every order, and the CSV rows follow the order given.
- The intake characteristic `SizeDataSet` and the src `SizeData` lists are values the methods reassign. Aliasing between them is not modelled because the source never shares them.
- Concurrency: jVisualizer's thread-per-renderer launcher is out, along with every renderer other than `PatternRenderer` and `renderCharts`' file setup.
- Entry points, properties loading and ZIP handling are out. So are `Filters`, the Lucene and HTML generators, `JsonDataGenerator` (CoreNLP and a thread pool), `AnalyzeQuery` and `TopThreads`.
- `PrecisionResult` is out: it is a chart-series wrapper.
