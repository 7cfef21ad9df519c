/** The precision report (cmd/PrecisionReportGenerator): for a ranked search result,
    one NDCG point and one average point per rank, for all positive tags together and
    for each positive tag on its own. */
module PrecisionReport {
  import opened Seqs
  import opened Emails
  import opened AnalysisUtils
  import opened PrecisionAnalysis
  import ReportGen
  import RatioRelevance
  import IntakePrecision

  /** MAX_RESULTS: how many search results are scored. */
  const MaxResults: nat := 75

  /** A chart point (n, value). */
  datatype Point<T> = Point(x: int, y: T)

  /** The NDCG and average series of one run of doIterativeNDCG. */
  datatype Series = Series(ndcg: seq<Point<Metric>>, precision: seq<Point<real>>)

  /** The series doIterativeNDCG emits for the relevances rel: at x = n, the NDCG of the
      first n relevances and their average under avg. */
  function IterativeSeries(rel: seq<real>, log2: Log2, avg: seq<real> -> real): (s: Series)
    ensures |s.ndcg| == |rel| && |s.precision| == |rel|
    ensures forall i :: 0 <= i < |rel| ==> s.ndcg[i].x == i + 1 && s.precision[i].x == i + 1
  {
    Series(seq(|rel|, i requires 0 <= i < |rel| => Point(i + 1, Ndcg(rel[..i + 1], log2))),
           seq(|rel|, i requires 0 <= i < |rel| => Point(i + 1, avg(rel[..i + 1]))))
  }

  /** The NDCG series is the analyzer's NDCG curve of the same relevances. */
  lemma IterativeNdcgIsCurve(rel: seq<real>, log2: Log2, avg: seq<real> -> real)
    ensures forall i :: 0 <= i < |rel| ==> IterativeSeries(rel, log2, avg).ndcg[i].y == NdcgCurve(rel, log2)[i]
  {
    forall i | 0 <= i < |rel|
      ensures IterativeSeries(rel, log2, avg).ndcg[i].y == NdcgCurve(rel, log2)[i]
    {
      NdcgCurveAt(rel, log2, i);
    }
  }

  /** When every relevance is 0 or 1 and avg is the arithmetic mean, the average series
      is the precision curve. */
  lemma AverageSeriesIsPrecision(rel: seq<real>, log2: Log2, avg: seq<real> -> real)
    requires forall i :: 0 <= i < |rel| ==> rel[i] == 0.0 || rel[i] == 1.0
    requires forall xs :: xs != [] ==> IntakePrecision.Average(xs) == Some(avg(xs))
    ensures forall i :: 0 <= i < |rel| ==> IterativeSeries(rel, log2, avg).precision[i].y == PrecisionCurve(rel)[i]
  {
    forall i | 0 <= i < |rel|
      ensures IterativeSeries(rel, log2, avg).precision[i].y == PrecisionCurve(rel)[i]
    {
      var prefix := rel[..i + 1];
      assert IntakePrecision.Indicators(prefix) == prefix;
      IntakePrecision.AverageIsPrecision(rel, i + 1);
      PrecisionCurveAt(rel, i);
    }
  }

  /** getAkWeight: the same counting as the ratio-mode analyzer, from a fresh map. */
  method GetAkWeight(e: Email, positiveTags: seq<string>, negativeTags: seq<string>) returns (w: real)
    ensures w == RatioRelevance.ThreadRelevance(e, positiveTags, negativeTags)
    ensures 0.0 <= w <= 1.0
  {
    var counts := RatioRelevance.AnalyzeEmailRecursive(e, positiveTags, negativeTags, map[]);
    var akCount := RatioRelevance.CountOf(counts, Architectural);
    var notAkCount := RatioRelevance.CountOf(counts, NotArchitectural);
    var categorizedCount := akCount + notAkCount;
    if categorizedCount == 0 {
      return 0.0;
    }
    w := akCount as real / categorizedCount as real;
  }

  /** getRelevances: the weight of each of the first MAX_RESULTS results of the
      search's ranking, in rank order. */
  method GetRelevances(ranking: seq<Email>, positiveTags: seq<string>, negativeTags: seq<string>) returns (rel: array<real>)
    ensures fresh(rel)
    ensures rel[..] == GetRelevancesOf(ranking, positiveTags, negativeTags)
  {
    var n := if |ranking| <= MaxResults then |ranking| else MaxResults;
    var results := ranking[..n];
    rel := new real[n];
    for i := 0 to n
      invariant forall k :: 0 <= k < i ==> rel[k] == SearchRelevances(results, positiveTags, negativeTags)[k]
    {
      rel[i] := GetAkWeight(results[i], positiveTags, negativeTags);
    }
  }

  /** doIterativeNDCG on the relevances: for n = 1 .. length, a fresh copy of the first
      n relevances is scored; rel itself is only read. */
  method DoIterativeNdcg(rel: array<real>, log2: Log2, avg: seq<real> -> real) returns (s: Series)
    ensures s == IterativeSeries(rel[..], log2, avg)
  {
    ghost var target := IterativeSeries(rel[..], log2, avg);
    var ndcgSeries: seq<Point<Metric>> := [];
    var precisionSeries: seq<Point<real>> := [];
    for n := 1 to rel.Length + 1
      invariant ndcgSeries == target.ndcg[..n - 1]
      invariant precisionSeries == target.precision[..n - 1]
    {
      var slice := CopyPrefix(rel, n);
      var ndcg := NormalizedDiscountedCumulativeGain(slice, log2);
      assert rel[..][..n] == rel[..n];
      ndcgSeries := ndcgSeries + [Point(n, ndcg)];
      precisionSeries := precisionSeries + [Point(n, avg(slice[..]))];
      assert target.ndcg[..n] == target.ndcg[..n - 1] + [target.ndcg[n - 1]];
      assert target.precision[..n] == target.precision[..n - 1] + [target.precision[n - 1]];
    }
    assert target.ndcg[..rel.Length] == target.ndcg;
    assert target.precision[..rel.Length] == target.precision;
    s := Series(ndcgSeries, precisionSeries);
  }

  /** System.arraycopy(rel, 0, slice, 0, n) into a new array of length n. */
  method CopyPrefix(rel: array<real>, n: nat) returns (slice: array<real>)
    requires n <= rel.Length
    ensures fresh(slice)
    ensures slice[..] == rel[..n]
  {
    slice := new real[n];
    forall k | 0 <= k < n {
      slice[k] := rel[k];
    }
  }

  /** One query of generate: the all-tags series, then one series per positive tag,
      each scored with {tag} as the positive set and the shared negative tags. */
  method QuerySeries(ranking: seq<Email>, log2: Log2, avg: seq<real> -> real)
    returns (allTags: Series, perTag: seq<Series>)
    ensures allTags == IterativeSeries(GetRelevancesOf(ranking, ReportGen.PositiveTags, ReportGen.NegativeTags), log2, avg)
    ensures |perTag| == |ReportGen.PositiveTags|
    ensures forall k :: 0 <= k < |perTag| ==>
              perTag[k] == IterativeSeries(GetRelevancesOf(ranking, [ReportGen.PositiveTags[k]], ReportGen.NegativeTags), log2, avg)
  {
    var rel := GetRelevances(ranking, ReportGen.PositiveTags, ReportGen.NegativeTags);
    allTags := DoIterativeNdcg(rel, log2, avg);
    perTag := PerTagSeries(ranking, ReportGen.PositiveTags, ReportGen.NegativeTags, log2, avg);
  }

  /** The loop over the positive tags: one series per tag t, scored against {t}. */
  method PerTagSeries(ranking: seq<Email>, tags: seq<string>, negativeTags: seq<string>, log2: Log2, avg: seq<real> -> real)
    returns (perTag: seq<Series>)
    ensures |perTag| == |tags|
    ensures forall k :: 0 <= k < |tags| ==>
              perTag[k] == IterativeSeries(GetRelevancesOf(ranking, [tags[k]], negativeTags), log2, avg)
  {
    perTag := [];
    for k := 0 to |tags|
      invariant |perTag| == k
      invariant forall j :: 0 <= j < k ==>
                  perTag[j] == IterativeSeries(GetRelevancesOf(ranking, [tags[j]], negativeTags), log2, avg)
    {
      var tagRel := GetRelevances(ranking, [tags[k]], negativeTags);
      var series := DoIterativeNdcg(tagRel, log2, avg);
      perTag := perTag + [series];
    }
  }

  /** The relevances getRelevances yields: the weights of the first MAX_RESULTS results
      of the ranking, in rank order. */
  function GetRelevancesOf(ranking: seq<Email>, positiveTags: seq<string>, negativeTags: seq<string>): (rel: seq<real>)
    ensures |rel| <= MaxResults && |rel| <= |ranking| && (|rel| == |ranking| || |rel| == MaxResults)
    ensures forall i :: 0 <= i < |rel| ==> 0.0 <= rel[i] <= 1.0
    ensures forall i :: 0 <= i < |rel| ==> rel[i] == RatioRelevance.ThreadRelevance(ranking[i], positiveTags, negativeTags)
  {
    var n := if |ranking| <= MaxResults then |ranking| else MaxResults;
    SearchRelevances(ranking[..n], positiveTags, negativeTags)
  }
}
