/** Precision@n and per-prefix NDCG of a ranked search result
    (precision/PrecisionAnalyzer). */
module PrecisionAnalysis {
  import opened Seqs
  import opened Emails
  import opened AnalysisUtils
  import RatioRelevance

  /** The two curves of an analysed search, indexed by rank - 1. */
  datatype PrecisionResult = PrecisionResult(ndcgValues: seq<Metric>, precisionValues: seq<real>)

  /** How many of the relevances are positive. */
  function PositiveCount(s: seq<real>): (c: nat)
    ensures c <= |s|
  {
    if s == [] then 0 else PositiveCount(s[..|s| - 1]) + (if s[|s| - 1] > 0.0 then 1 else 0)
  }

  /** Precision at rank n: the share of positive relevances among the first n. */
  function PrecisionAt(rel: seq<real>, n: nat): (p: real)
    requires 1 <= n <= |rel|
    ensures 0.0 <= p <= 1.0
  {
    PositiveCount(rel[..n]) as real / n as real
  }

  lemma PositiveCountStep(rel: seq<real>, n: nat)
    requires n < |rel|
    ensures PositiveCount(rel[..n + 1]) == PositiveCount(rel[..n]) + (if rel[n] > 0.0 then 1 else 0)
  {
    assert rel[..n + 1][..n] == rel[..n];
  }

  /** Extending the prefix by a positive relevance never lowers precision, and by a
      non-positive one never raises it. Precision stays level exactly when the new
      relevance is positive and all earlier ones were, or it is not and none were. */
  lemma PrecisionStep(rel: seq<real>, n: nat)
    requires 1 <= n < |rel|
    ensures rel[n] > 0.0 ==> PrecisionAt(rel, n + 1) >= PrecisionAt(rel, n)
    ensures rel[n] <= 0.0 ==> PrecisionAt(rel, n + 1) <= PrecisionAt(rel, n)
    ensures PrecisionAt(rel, n + 1) >= PrecisionAt(rel, n) <==> rel[n] > 0.0 || PositiveCount(rel[..n]) == 0
  {
    PositiveCountStep(rel, n);
    var c := PositiveCount(rel[..n]) as real;
    var m := n as real;
    assert c <= m;
    if rel[n] > 0.0 {
      StepBounds(c, m, c + 1.0);
    } else {
      StepBounds(c, m, c);
    }
  }

  lemma StepBounds(c: real, m: real, c': real)
    requires 0.0 <= c <= m && m >= 1.0
    requires c' == c || c' == c + 1.0
    ensures c' == c + 1.0 ==> c' / (m + 1.0) >= c / m
    ensures c' == c ==> c' / (m + 1.0) <= c / m
    ensures c' / (m + 1.0) >= c / m <==> c' == c + 1.0 || c == 0.0
  {
    QuotientCompare(c', m + 1.0, c, m);
    QuotientCompare(c, m, c', m + 1.0);
  }

  /** Comparing two quotients with positive divisors by cross-multiplying. */
  lemma QuotientCompare(a: real, b: real, x: real, y: real)
    requires b > 0.0 && y > 0.0
    ensures a / b >= x / y <==> a * y >= x * b
  {
    var p := a / b;
    var q := x / y;
    assert a == p * b;
    assert x == q * y;
    assert a * y - x * b == (p - q) * (b * y);
    assert b * y > 0.0;
  }

  /** A worked example: the ranking [1, 0, 1, 0] has precision 1, 1/2, 2/3, 1/2. */
  lemma PrecisionExample()
    ensures PrecisionAt([1.0, 0.0, 1.0, 0.0], 1) == 1.0
    ensures PrecisionAt([1.0, 0.0, 1.0, 0.0], 2) == 0.5
    ensures PrecisionAt([1.0, 0.0, 1.0, 0.0], 3) == 2.0 / 3.0
    ensures PrecisionAt([1.0, 0.0, 1.0, 0.0], 4) == 0.5
  {
    var r := [1.0, 0.0, 1.0, 0.0];
    assert r[..1] == [1.0];
    assert r[..2] == [1.0, 0.0];
    assert r[..3] == [1.0, 0.0, 1.0];
    assert r[..4] == r;
    assert [1.0, 0.0][..1] == [1.0];
    assert [1.0, 0.0, 1.0][..2] == [1.0, 0.0];
    assert r[..3] == [1.0, 0.0, 1.0];
  }

  /** The relevance of each search result, by the ratio-mode analyzer. */
  function SearchRelevances(results: seq<Email>, positiveTags: seq<string>, negativeTags: seq<string>): (rel: seq<real>)
    ensures |rel| == |results|
    ensures forall i :: 0 <= i < |rel| ==> 0.0 <= rel[i] <= 1.0
  {
    seq(|results|, i requires 0 <= i < |results| => RatioRelevance.ThreadRelevance(results[i], positiveTags, negativeTags))
  }

  /** analyzeSearch: scores the results, then for each rank n computes the NDCG of a copy
      of the first n relevances and the share of positive ones. The arrays have one slot
      per requested result; slots past the last result keep their initial 0. */
  method AnalyzeSearch(results: seq<Email>, positiveTags: seq<string>, negativeTags: seq<string>, searchResultSize: nat, log2: Log2)
    returns (result: PrecisionResult)
    requires |results| <= searchResultSize
    ensures |result.ndcgValues| == searchResultSize && |result.precisionValues| == searchResultSize
    ensures var rel := SearchRelevances(results, positiveTags, negativeTags);
            result.ndcgValues[..|rel|] == NdcgCurve(rel, log2) && result.precisionValues[..|rel|] == PrecisionCurve(rel)
    ensures forall i :: |results| <= i < searchResultSize ==>
              result.ndcgValues[i] == Defined(0.0) && result.precisionValues[i] == 0.0
  {
    var relevances := SearchRelevances(results, positiveTags, negativeTags);
    var ndcgValues, precisionValues := PrefixCurves(relevances, searchResultSize, log2);
    result := PrecisionResult(ndcgValues, precisionValues);
  }

  /** The loop of analyzeSearch over the scored relevances: slot i holds the NDCG and the
      precision of the first i + 1; the remaining slots keep their initial 0. */
  method PrefixCurves(rel: seq<real>, searchResultSize: nat, log2: Log2)
    returns (ndcgs: seq<Metric>, precisions: seq<real>)
    requires |rel| <= searchResultSize
    ensures |ndcgs| == searchResultSize && |precisions| == searchResultSize
    ensures ndcgs[..|rel|] == NdcgCurve(rel, log2)
    ensures precisions[..|rel|] == PrecisionCurve(rel)
    ensures forall i :: |rel| <= i < searchResultSize ==> ndcgs[i] == Defined(0.0) && precisions[i] == 0.0
  {
    var ndcgValues := new Metric[searchResultSize](_ => Defined(0.0));
    var precisionValues := new real[searchResultSize](_ => 0.0);
    for i := 0 to |rel|
      invariant CurvesFilled(ndcgValues[..], precisionValues[..], rel, i, log2)
    {
      var ndcg, precision := AnalyzePrefix(rel, i + 1, log2);
      StoreRank(ndcgValues, precisionValues, rel, i, ndcg, precision, log2);
    }
    ndcgs := ndcgValues[..];
    precisions := precisionValues[..];
    assert rel[..|rel|] == rel;
  }

  /** The state of the loop of analyzeSearch after n ranks: the first n slots hold the
      curves of the first n relevances, the others their initial 0. */
  ghost predicate CurvesFilled(ndcgs: seq<Metric>, precisions: seq<real>, rel: seq<real>, n: nat, log2: Log2)
  {
    && n <= |rel| <= |ndcgs|
    && |ndcgs| == |precisions|
    && ndcgs[..n] == NdcgCurve(rel[..n], log2)
    && precisions[..n] == PrecisionCurve(rel[..n])
    && (forall k :: n <= k < |ndcgs| ==> ndcgs[k] == Defined(0.0) && precisions[k] == 0.0)
  }

  /** Records the NDCG and the precision of rank i + 1 in slot i. */
  method StoreRank(ndcgValues: array<Metric>, precisionValues: array<real>, ghost rel: seq<real>, i: nat,
                   ndcg: Metric, precision: real, log2: Log2)
    requires i < |rel| && CurvesFilled(ndcgValues[..], precisionValues[..], rel, i, log2)
    requires ndcg == Ndcg(rel[..i + 1], log2) && precision == PrecisionAt(rel, i + 1)
    modifies ndcgValues, precisionValues
    ensures CurvesFilled(ndcgValues[..], precisionValues[..], rel, i + 1, log2)
  {
    ghost var before := ndcgValues[..i];
    ghost var beforePrecision := precisionValues[..i];
    ndcgValues[i] := ndcg;
    precisionValues[i] := precision;
    assert ndcgValues[..i + 1] == before + [ndcg];
    assert precisionValues[..i + 1] == beforePrecision + [precision];
    NdcgCurveStep(rel, i, log2);
    PrecisionCurveStep(rel, i);
  }

  /** One more rank extends the NDCG curve of a prefix by the NDCG of the longer prefix. */
  lemma NdcgCurveStep(rel: seq<real>, i: nat, log2: Log2)
    requires i < |rel|
    ensures NdcgCurve(rel[..i + 1], log2) == NdcgCurve(rel[..i], log2) + [Ndcg(rel[..i + 1], log2)]
  {
    PrefixMapStep(rel, NdcgOf(log2), i);
  }

  /** One more rank extends the precision curve of a prefix by the precision there. */
  lemma PrecisionCurveStep(rel: seq<real>, i: nat)
    requires i < |rel|
    ensures PrecisionCurve(rel[..i + 1]) == PrecisionCurve(rel[..i]) + [PrecisionAt(rel, i + 1)]
  {
    assert rel[..i + 1][..i] == rel[..i];
    assert rel[..i + 1][..i + 1] == rel[..i + 1];
  }

  /** The NDCG of each prefix of the ranking, shortest first. */
  function NdcgCurve(rel: seq<real>, log2: Log2): (r: seq<Metric>)
    ensures |r| == |rel|
  {
    PrefixMap(rel, NdcgOf(log2))
  }

  /** Ndcg as a function value, for a fixed logarithm. */
  function NdcgOf(log2: Log2): seq<real> -> Metric
  {
    v => Ndcg(v, log2)
  }

  /** Precision at each rank, shortest prefix first. */
  function PrecisionCurve(rel: seq<real>): (r: seq<real>)
    ensures |r| == |rel|
    ensures forall i :: 0 <= i < |r| ==> 0.0 <= r[i] <= 1.0
  {
    if rel == [] then [] else PrecisionCurve(rel[..|rel| - 1]) + [PrecisionAt(rel, |rel|)]
  }

  /** Entry i of the NDCG curve is the NDCG of the first i + 1 relevances. */
  lemma NdcgCurveAt(rel: seq<real>, log2: Log2, i: nat)
    requires i < |rel|
    ensures NdcgCurve(rel, log2)[i] == Ndcg(rel[..i + 1], log2)
  {
    PrefixMapAt(rel, NdcgOf(log2), i);
  }

  /** Entry i of the precision curve is the precision at rank i + 1. */
  lemma {:induction false} PrecisionCurveAt(rel: seq<real>, i: nat)
    requires i < |rel|
    ensures PrecisionCurve(rel)[i] == PrecisionAt(rel, i + 1)
  {
    var init := rel[..|rel| - 1];
    if i < |init| {
      PrecisionCurveAt(init, i);
      assert init[..i + 1] == rel[..i + 1];
    }
  }

  /** One iteration of analyzeSearch for rank n: the NDCG of a fresh copy of the first n
      relevances and the positive share among them; the relevances are only read. */
  method AnalyzePrefix(relevances: seq<real>, n: nat, log2: Log2) returns (ndcg: Metric, precision: real)
    requires 1 <= n <= |relevances|
    ensures ndcg == Ndcg(relevances[..n], log2)
    ensures precision == PrecisionAt(relevances, n)
  {
    var slice := new real[n];
    forall k | 0 <= k < n {
      slice[k] := relevances[k];
    }
    assert slice[..] == relevances[..n];
    ndcg := NormalizedDiscountedCumulativeGain(slice, log2);
    var totalPrecision := 0;
    for k := 0 to n
      invariant totalPrecision == PositiveCount(slice[..k])
    {
      assert slice[..k + 1][..k] == slice[..k];
      if slice[k] > 0.0 {
        totalPrecision := totalPrecision + 1;
      }
    }
    assert slice[..n] == slice[..];
    precision := totalPrecision as real / n as real;
  }

  /** Every relevance of a search is non-negative, so the NDCG at rank n is undefined
      exactly when none of the first n results is relevant. */
  lemma SearchNdcgUndefinedIffNoneRelevant(results: seq<Email>, positiveTags: seq<string>, negativeTags: seq<string>, n: nat, log2: Log2)
    requires 1 <= n <= |results|
    ensures var rel := SearchRelevances(results, positiveTags, negativeTags);
            Ndcg(rel[..n], log2) == Undefined <==> PositiveCount(rel[..n]) == 0
  {
    var rel := SearchRelevances(results, positiveTags, negativeTags);
    NdcgUndefinedIffAllZero(rel[..n], log2);
    PositiveCountZero(rel[..n]);
  }

  /** For non-negative relevances, none is positive exactly when all are zero. */
  lemma {:induction false} PositiveCountZero(s: seq<real>)
    requires forall i :: 0 <= i < |s| ==> s[i] >= 0.0
    ensures PositiveCount(s) == 0 <==> forall i :: 0 <= i < |s| ==> s[i] == 0.0
  {
    if s != [] {
      PositiveCountZero(s[..|s| - 1]);
    }
  }
}
