/** Normalised-count thread relevance (intake relevance/RelevanceAnalyzer): the number
    of positive tags in a thread relative to the mean of the largest counts in the
    dataset, capped at 1, with a memo of the threads already scored. */
module CountRelevance {
  import opened Seqs
  import opened Sorting
  import opened Emails

  /** How many of the tag names are (exactly, case-sensitively) positive tags. */
  function PositiveTagCount(tags: seq<string>, positiveTags: seq<string>): nat
  {
    if tags == [] then 0
    else PositiveTagCount(tags[..|tags| - 1], positiveTags) + (if tags[|tags| - 1] in positiveTags then 1 else 0)
  }

  lemma {:induction false} PositiveTagCountPositive(tags: seq<string>, positiveTags: seq<string>)
    ensures PositiveTagCount(tags, positiveTags) > 0 <==> exists t :: t in tags && t in positiveTags
  {
    if tags != [] {
      var init := tags[..|tags| - 1];
      PositiveTagCountPositive(init, positiveTags);
      assert tags == init + [tags[|tags| - 1]];
      assert forall t :: t in tags <==> t in init || t == tags[|tags| - 1];
    }
  }

  /** analyzeEmail: 1 when some tag of the message is a positive tag, else 0; the
      replies play no part. */
  function AnalyzeEmail(tags: seq<string>, positiveTags: seq<string>): (r: real)
    ensures r == 1.0 <==> PositiveTagCount(tags, positiveTags) > 0
    ensures r == 0.0 <==> PositiveTagCount(tags, positiveTags) == 0
  {
    PositiveTagCountPositive(tags, positiveTags);
    if exists t :: t in tags && t in positiveTags then 1.0 else 0.0
  }

  /** The positive tags of the whole thread, counted with multiplicity. */
  function TagCount(e: Email, positiveTags: seq<string>): nat
    decreases e, 1
  {
    PositiveTagCount(e.tags, positiveTags) + TagCountAll(e.replies, positiveTags)
  }

  function TagCountAll(es: seq<Email>, positiveTags: seq<string>): nat
    decreases es, 0
  {
    SumNat(seq(|es|, i requires 0 <= i < |es| => TagCount(es[i], positiveTags)))
  }

  lemma TagCountAllSnoc(es: seq<Email>, x: Email, positiveTags: seq<string>)
    ensures TagCountAll(es + [x], positiveTags) == TagCountAll(es, positiveTags) + TagCount(x, positiveTags)
  {
    var a := seq(|es|, i requires 0 <= i < |es| => TagCount(es[i], positiveTags));
    assert seq(|es + [x]|, i requires 0 <= i < |es + [x]| => TagCount((es + [x])[i], positiveTags))
        == a + [TagCount(x, positiveTags)];
    SumNatSnoc(a, TagCount(x, positiveTags));
  }

  /** countTagsRecursive: the message's own positive tags plus, reply by reply, the
      counts of the reply threads. */
  method CountTagsRecursive(e: Email, positiveTags: seq<string>) returns (count: nat)
    ensures count == TagCount(e, positiveTags)
    decreases e
  {
    count := 0;
    var j := 0;
    while j < |e.tags|
      invariant 0 <= j <= |e.tags|
      invariant count == PositiveTagCount(e.tags[..j], positiveTags)
    {
      assert e.tags[..j + 1][..j] == e.tags[..j];
      if e.tags[j] in positiveTags {
        count := count + 1;
      }
      j := j + 1;
    }
    assert e.tags[..j] == e.tags;
    ghost var own := count;
    var i := 0;
    while i < |e.replies|
      invariant 0 <= i <= |e.replies|
      invariant count == own + TagCountAll(e.replies[..i], positiveTags)
    {
      var c := CountTagsRecursive(e.replies[i], positiveTags);
      assert e.replies[..i + 1] == e.replies[..i] + [e.replies[i]];
      TagCountAllSnoc(e.replies[..i], e.replies[i], positiveTags);
      count := count + c;
      i := i + 1;
    }
    assert e.replies[..i] == e.replies;
  }

  /** Math.min(1.0, count / maxAkCount). */
  function NormalizedRelevance(count: nat, maxAkCount: real): (r: real)
    requires maxAkCount > 0.0
    ensures 0.0 <= r <= 1.0
    ensures r == 0.0 <==> count == 0
    ensures r == 1.0 <==> count as real >= maxAkCount
    ensures r < 1.0 ==> r * maxAkCount == count as real
  {
    var q := count as real / maxAkCount;
    if q <= 1.0 then q else 1.0
  }

  /** The number of largest thread counts averaged into maxAkCount. */
  const TopThreadCount: nat := 10

  function AsReals(counts: seq<nat>): (r: seq<real>)
    ensures |r| == |counts|
  {
    seq(|counts|, i requires 0 <= i < |counts| => counts[i] as real)
  }

  function Min(a: nat, b: nat): nat
  {
    if a <= b then a else b
  }

  /** The k largest counts, largest first. */
  function Top(counts: seq<nat>, k: nat): (r: seq<real>)
    ensures |r| == Min(k, |counts|)
  {
    IdealOrder(counts)[..Min(k, |counts|)]
  }

  function IdealOrder(counts: seq<nat>): (r: seq<real>)
    ensures NonIncreasing(r) && multiset(r) == multiset(AsReals(counts)) && |r| == |counts|
  {
    SortDescending(AsReals(counts))
  }

  /** sorted(reverseOrder()).limit(k).average(): None when there is nothing to
      average, which is where orElseThrow fails. */
  function TopMean(counts: seq<nat>, k: nat): (r: Option<real>)
    ensures r.None? <==> k == 0 || counts == []
  {
    var top := Top(counts, k);
    if top == [] then None else Some(SumReal(top) / |top| as real)
  }

  lemma MeanOfBounded(xs: seq<real>, lo: real, hi: real)
    requires xs != []
    requires forall i :: 0 <= i < |xs| ==> lo <= xs[i] <= hi
    ensures lo <= SumReal(xs) / |xs| as real <= hi
  {
    SumRealBounds(xs, lo, hi);
    MeanBounds(SumReal(xs), |xs|, lo, hi);
  }

  lemma MeanBounds(sum: real, n: nat, lo: real, hi: real)
    requires n > 0
    requires n as real * lo <= sum <= n as real * hi
    ensures lo <= sum / n as real <= hi
  {
    assert sum / n as real * n as real == sum;
  }

  /** The mean of the k' = min(k, n) largest counts lies between the k'-th largest count
      and the largest count, which bounds every count. */
  lemma TopMeanBetween(counts: seq<nat>, k: nat)
    requires k > 0 && counts != []
    ensures var ideal := IdealOrder(counts);
            var m := TopMean(counts, k).value;
            ideal[Min(k, |counts|) - 1] <= m <= ideal[0]
  {
    var ideal := IdealOrder(counts);
    var top := Top(counts, k);
    var n := Min(k, |counts|);
    assert |top| == n;
    forall i | 0 <= i < |top| ensures ideal[n - 1] <= top[i] <= ideal[0] {
      assert top[i] == ideal[i];
    }
    MeanOfBounded(top, ideal[n - 1], ideal[0]);
  }

  /** The first count of the ideal order is the largest count. */
  lemma IdealHeadIsMax(counts: seq<nat>)
    requires counts != []
    ensures forall i :: 0 <= i < |counts| ==> counts[i] as real <= IdealOrder(counts)[0]
    ensures IdealOrder(counts)[0] in multiset(AsReals(counts))
  {
    var ideal := IdealOrder(counts);
    forall i | 0 <= i < |counts| ensures counts[i] as real <= ideal[0] {
      assert AsReals(counts)[i] in multiset(ideal);
    }
    assert ideal[0] in multiset(ideal);
  }

  lemma IdealNonNegative(counts: seq<nat>)
    ensures forall j :: 0 <= j < |counts| ==> IdealOrder(counts)[j] >= 0.0
  {
    var ideal := IdealOrder(counts);
    forall j | 0 <= j < |ideal| ensures ideal[j] >= 0.0 {
      assert ideal[j] in multiset(AsReals(counts));
      var i :| 0 <= i < |counts| && AsReals(counts)[i] == ideal[j];
    }
  }

  /** maxAkCount is positive exactly when some thread has a positive tag. */
  lemma TopMeanPositive(counts: seq<nat>, k: nat)
    requires k > 0 && counts != []
    ensures TopMean(counts, k).value > 0.0 <==> exists i :: 0 <= i < |counts| && counts[i] > 0
  {
    var ideal := IdealOrder(counts);
    var top := Top(counts, k);
    var n := Min(k, |counts|);
    IdealNonNegative(counts);
    IdealHeadIsMax(counts);
    if exists i :: 0 <= i < |counts| && counts[i] > 0 {
      assert top[0] > 0.0;
      SumRealPositive(top, 0);
      PositiveQuotient(SumReal(top), n);
    } else {
      assert ideal[0] in multiset(AsReals(counts));
      var i :| 0 <= i < |counts| && AsReals(counts)[i] == ideal[0];
      TopMeanBetween(counts, k);
    }
  }

  lemma PositiveQuotient(sum: real, n: nat)
    requires sum > 0.0 && n > 0
    ensures sum / n as real > 0.0
  {
  }

  /** The positive-tag count of each of the given thread roots. */
  function ThreadCounts(roots: seq<Email>, positiveTags: seq<string>): (r: seq<nat>)
    ensures |r| == |roots|
  {
    seq(|roots|, i requires 0 <= i < |roots| => TagCount(roots[i], positiveTags))
  }

  /** The static getMaxAkCount over the tagged thread roots of the dataset. */
  method ComputeMaxAkCount(taggedRoots: seq<Email>, positiveTags: seq<string>) returns (r: Option<real>)
    ensures r == TopMean(ThreadCounts(taggedRoots, positiveTags), TopThreadCount)
    ensures r.None? <==> taggedRoots == []
  {
    var akCounts: seq<nat> := [];
    var i := 0;
    while i < |taggedRoots|
      invariant 0 <= i <= |taggedRoots|
      invariant akCounts == ThreadCounts(taggedRoots[..i], positiveTags)
    {
      var c := CountTagsRecursive(taggedRoots[i], positiveTags);
      akCounts := akCounts + [c];
      i := i + 1;
    }
    assert taggedRoots[..i] == taggedRoots;
    r := TopMean(akCounts, TopThreadCount);
  }

  /** The analyzer over a repository of threads keyed by root id. */
  class RelevanceAnalyzer {
    const threads: map<int, Email>
    const positiveTags: seq<string>
    const maxAkCount: real
    var threadRelevanceCache: map<int, real>

    /** The positive-tag count of the thread with the given root id; an id the
        repository does not know has no tags and no replies. */
    function ThreadCount(id: int): nat
    {
      if id in threads then TagCount(threads[id], positiveTags) else 0
    }

    /** Every cached value is the relevance of its thread. */
    ghost predicate Valid()
      reads this
    {
      maxAkCount > 0.0 &&
      forall id :: id in threadRelevanceCache ==>
        threadRelevanceCache[id] == NormalizedRelevance(ThreadCount(id), maxAkCount)
    }

    constructor (threads: map<int, Email>, positiveTags: seq<string>, maxAkCount: real)
      requires maxAkCount > 0.0
      ensures Valid()
      ensures this.threads == threads && this.positiveTags == positiveTags && this.maxAkCount == maxAkCount
      ensures threadRelevanceCache == map[]
    {
      this.threads := threads;
      this.positiveTags := positiveTags;
      this.maxAkCount := maxAkCount;
      threadRelevanceCache := map[];
    }

    /** The dataset constructor: maxAkCount is the mean of the largest counts over the
        tagged threads, which must include one with a positive tag. */
    constructor FromDataset(threads: map<int, Email>, taggedRoots: seq<Email>, positiveTags: seq<string>)
      requires exists i :: 0 <= i < |taggedRoots| && TagCount(taggedRoots[i], positiveTags) > 0
      ensures Valid()
      ensures this.threads == threads && this.positiveTags == positiveTags
      ensures Some(maxAkCount) == TopMean(ThreadCounts(taggedRoots, positiveTags), TopThreadCount)
      ensures threadRelevanceCache == map[]
    {
      var m := ComputeMaxAkCount(taggedRoots, positiveTags);
      var counts := ThreadCounts(taggedRoots, positiveTags);
      var i :| 0 <= i < |taggedRoots| && TagCount(taggedRoots[i], positiveTags) > 0;
      assert counts[i] > 0;
      TopMeanPositive(counts, TopThreadCount);
      this.threads := threads;
      this.positiveTags := positiveTags;
      this.maxAkCount := m.value;
      threadRelevanceCache := map[];
    }

    /** getMaxAkCount(): the normalising constant, fixed at construction. */
    function GetMaxAkCount(): (r: real)
      reads this
      requires Valid()
      ensures r == maxAkCount && r > 0.0
    {
      maxAkCount
    }

    /** analyzeThread: a cached value is returned as is; otherwise the relevance is
        computed, cached under the id and returned. No other entry changes. */
    method AnalyzeThread(emailId: int) returns (r: real)
      requires Valid()
      modifies this
      ensures Valid()
      ensures r == NormalizedRelevance(ThreadCount(emailId), maxAkCount)
      ensures 0.0 <= r <= 1.0
      ensures emailId in old(threadRelevanceCache) ==> r == old(threadRelevanceCache[emailId])
      ensures threadRelevanceCache == old(threadRelevanceCache)[emailId := r]
    {
      if emailId in threadRelevanceCache {
        r := threadRelevanceCache[emailId];
        assert threadRelevanceCache == threadRelevanceCache[emailId := r];
        return;
      }
      var akCount := 0;
      if emailId in threads {
        akCount := CountTagsRecursive(threads[emailId], positiveTags);
      }
      var q := akCount as real / maxAkCount;
      r := if q <= 1.0 then q else 1.0;
      threadRelevanceCache := threadRelevanceCache[emailId := r];
    }
  }
}
