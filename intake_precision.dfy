/** The intake precision analyzer (intake precision/PrecisionAnalyzer): a precision
    curve over the relevances of a search, and an NDCG curve against a fixed ideal. */
module IntakePrecision {
  import opened Seqs
  import opened AnalysisUtils
  import opened PrecisionAnalysis

  /** The 0/1 indicator of v > 0 for each relevance (mapToInt(v -> v > 0 ? 1 : 0)). */
  function Indicators(s: seq<real>): (r: seq<real>)
    ensures |r| == |s|
  {
    seq(|s|, i requires 0 <= i < |s| => if s[i] > 0.0 then 1.0 else 0.0)
  }

  /** average() of a stream: None for an empty stream, where orElseThrow fails. */
  function Average(xs: seq<real>): (r: Option<real>)
    ensures r.None? <==> xs == []
  {
    if xs == [] then None else Some(SumReal(xs) / |xs| as real)
  }

  lemma {:induction false} IndicatorSum(s: seq<real>)
    ensures SumReal(Indicators(s)) == PositiveCount(s) as real
  {
    if s != [] {
      var init := s[..|s| - 1];
      assert Indicators(s)[..|s| - 1] == Indicators(init);
      IndicatorSum(init);
    }
  }

  /** The average of the indicators over the first n relevances is the precision at n,
      and it always exists there: orElseThrow never fails for 1 <= n <= |rel|. */
  lemma AverageIsPrecision(rel: seq<real>, n: nat)
    requires 1 <= n <= |rel|
    ensures Average(Indicators(rel[..n])) == Some(PrecisionAt(rel, n))
  {
    IndicatorSum(rel[..n]);
  }

  class PrecisionAnalyzer {
    /** The ideal relevances handed in at construction, kept as given. */
    const idealRelevances: seq<real>

    constructor (idealRelevances: seq<real>)
      ensures this.idealRelevances == idealRelevances
    {
      this.idealRelevances := idealRelevances;
    }

    /** analyzeSearch for the relevances of one query: the NDCG curve of iterativeNdcg
        against the stored ideal, and at each rank the average indicator of the prefix. */
    method AnalyzeSearch(relevances: seq<real>, iterativeNdcg: (seq<real>, seq<real>) -> seq<real>)
      returns (ndcgValues: seq<real>, precisionValues: seq<real>)
      ensures ndcgValues == iterativeNdcg(relevances, idealRelevances)
      ensures precisionValues == PrecisionCurve(relevances)
    {
      ndcgValues := iterativeNdcg(relevances, idealRelevances);
      var values := new real[|relevances|];
      for i := 0 to |relevances|
        invariant values[..i] == PrecisionCurve(relevances[..i])
      {
        var average := Average(Indicators(relevances[..i + 1]));
        AverageIsPrecision(relevances, i + 1);
        ghost var before := values[..i];
        values[i] := average.value;
        assert values[..i + 1] == before + [average.value];
        PrecisionCurveStep(relevances, i);
      }
      assert relevances[..|relevances|] == relevances;
      precisionValues := values[..];
    }
  }
}
