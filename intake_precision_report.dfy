/** The intake precision report (intake cmd/PrecisionReportGenerator): the ideal
    relevance arrays the NDCG is measured against, the per-tag analyzers and the rows
    of the precision CSV files. */
module IntakePrecisionReport {
  import opened Seqs
  import opened Sorting
  import opened Emails
  import opened CountRelevance

  /** MAX_THREADS and MAX_EMAILS: how many ideal values are kept. */
  const MaxThreads: nat := 75
  const MaxEmails: nat := 500

  /** The first m values of a non-increasing sequence are its m largest ones: each
      dropped value is at most each kept value. */
  lemma DescendingSplit(s: seq<real>, m: nat)
    requires NonIncreasing(s) && m <= |s|
    ensures multiset(s) - multiset(s[..m]) == multiset(s[m..])
    ensures forall x, y :: x in s[..m] && y in s[m..] ==> y <= x
  {
    assert s == s[..m] + s[m..];
    forall x, y | x in s[..m] && y in s[m..] ensures y <= x {
      var i :| 0 <= i < m && s[..m][i] == x;
      var j :| 0 <= j < |s| - m && s[m..][j] == y;
      assert s[i] == x && s[m + j] == y;
    }
  }

  /** Truncating a non-increasing arrangement of values keeps a sub-multiset of them,
      and everything dropped is at most everything kept. */
  lemma TruncatedDescending(s: seq<real>, values: seq<real>, m: nat)
    requires NonIncreasing(s) && multiset(s) == multiset(values) && m <= |s|
    ensures multiset(s[..m]) <= multiset(values)
    ensures forall x, y :: x in s[..m] && y in multiset(values) - multiset(s[..m]) ==> y <= x
  {
    DescendingSplit(s, m);
    assert s == s[..m] + s[m..];
    assert multiset(s) == multiset(s[..m]) + multiset(s[m..]);
    forall x, y | x in s[..m] && y in multiset(values) - multiset(s[..m]) ensures y <= x {
      assert y in multiset(s[m..]);
      assert y in s[m..];
    }
  }

  /** sorted(Comparator.reverseOrder()).limit(limit).toArray(): the limit largest
      values, largest first. */
  function IdealRelevances(values: seq<real>, limit: nat): (r: seq<real>)
    ensures |r| == Min(limit, |values|)
    ensures NonIncreasing(r)
    ensures multiset(r) <= multiset(values)
    ensures forall x, y :: x in r && y in multiset(values) - multiset(r) ==> y <= x
  {
    var sorted := SortDescending(values);
    var m := Min(limit, |values|);
    TruncatedDescending(sorted, values, m);
    sorted[..m]
  }

  /** The relevance of each tagged thread, as the analyzer scores it. */
  function ThreadRelevancesOf(analyzer: RelevanceAnalyzer, ids: seq<int>): (r: seq<real>)
    requires analyzer.maxAkCount > 0.0
    ensures |r| == |ids|
    ensures forall i :: 0 <= i < |ids| ==> 0.0 <= r[i] <= 1.0
  {
    seq(|ids|, i requires 0 <= i < |ids| => NormalizedRelevance(analyzer.ThreadCount(ids[i]), analyzer.maxAkCount))
  }

  /** The relevance of each tagged email: 1 when it carries a positive tag, else 0. */
  function EmailRelevancesOf(emailTags: seq<seq<string>>, positiveTags: seq<string>): (r: seq<real>)
    ensures |r| == |emailTags|
    ensures forall i :: 0 <= i < |emailTags| ==> (r[i] == 1.0 <==> PositiveTagCount(emailTags[i], positiveTags) > 0)
    ensures forall i :: 0 <= i < |emailTags| ==> r[i] == 0.0 || r[i] == 1.0
  {
    seq(|emailTags|, i requires 0 <= i < |emailTags| => AnalyzeEmail(emailTags[i], positiveTags))
  }

  /** The thread callback: each tagged thread's relevance, in walk order. Scoring goes
      through the analyzer, so its cache fills up on the way. */
  method CollectThreadRelevances(analyzer: RelevanceAnalyzer, taggedRootIds: seq<int>) returns (relevances: seq<real>)
    requires analyzer.Valid()
    modifies analyzer
    ensures analyzer.Valid()
    ensures relevances == ThreadRelevancesOf(analyzer, taggedRootIds)
  {
    relevances := [];
    for i := 0 to |taggedRootIds|
      invariant analyzer.Valid()
      invariant |relevances| == i
      invariant forall k :: 0 <= k < i ==>
                  relevances[k] == NormalizedRelevance(analyzer.ThreadCount(taggedRootIds[k]), analyzer.maxAkCount)
    {
      var r := analyzer.AnalyzeThread(taggedRootIds[i]);
      relevances := relevances + [r];
    }
  }

  /** The email callback: each tagged email's own relevance, in walk order. */
  method CollectEmailRelevances(taggedEmailTags: seq<seq<string>>, positiveTags: seq<string>) returns (relevances: seq<real>)
    ensures relevances == EmailRelevancesOf(taggedEmailTags, positiveTags)
  {
    relevances := [];
    for i := 0 to |taggedEmailTags|
      invariant |relevances| == i
      invariant forall k :: 0 <= k < i ==> relevances[k] == AnalyzeEmail(taggedEmailTags[k], positiveTags)
    {
      relevances := relevances + [AnalyzeEmail(taggedEmailTags[i], positiveTags)];
    }
  }

  /** The two ideal arrays: thread relevances limited to MAX_THREADS, email relevances
      limited to MAX_EMAILS, each in non-increasing order. */
  method IdealArrays(analyzer: RelevanceAnalyzer, taggedRootIds: seq<int>, taggedEmailTags: seq<seq<string>>)
    returns (threadIdeal: seq<real>, emailIdeal: seq<real>)
    requires analyzer.Valid()
    modifies analyzer
    ensures analyzer.Valid()
    ensures threadIdeal == IdealRelevances(ThreadRelevancesOf(analyzer, taggedRootIds), MaxThreads)
    ensures emailIdeal == IdealRelevances(EmailRelevancesOf(taggedEmailTags, analyzer.positiveTags), MaxEmails)
  {
    var threadRelevances := CollectThreadRelevances(analyzer, taggedRootIds);
    var emailRelevances := CollectEmailRelevances(taggedEmailTags, analyzer.positiveTags);
    threadIdeal := IdealRelevances(threadRelevances, MaxThreads);
    emailIdeal := IdealRelevances(emailRelevances, MaxEmails);
  }

  /** The per-tag analyzer: a new analyzer with {tag} as its positive set, the same
      repository and the all-tags maxAkCount rather than a recomputed one. */
  method TagAnalyzer(analyzer: RelevanceAnalyzer, tag: string) returns (tagAnalyzer: RelevanceAnalyzer)
    requires analyzer.Valid()
    ensures fresh(tagAnalyzer) && tagAnalyzer.Valid()
    ensures tagAnalyzer.positiveTags == [tag]
    ensures tagAnalyzer.threads == analyzer.threads
    ensures tagAnalyzer.maxAkCount == analyzer.maxAkCount
    ensures tagAnalyzer.threadRelevanceCache == map[]
  {
    tagAnalyzer := new RelevanceAnalyzer(analyzer.threads, [tag], analyzer.GetMaxAkCount());
  }

  lemma {:induction false} PositiveTagCountMonotone(tags: seq<string>, p1: seq<string>, p2: seq<string>)
    requires forall t :: t in p1 ==> t in p2
    ensures PositiveTagCount(tags, p1) <= PositiveTagCount(tags, p2)
  {
    if tags != [] {
      PositiveTagCountMonotone(tags[..|tags| - 1], p1, p2);
    }
  }

  /** Counting against fewer positive tags never counts more. */
  lemma {:induction false} TagCountMonotone(e: Email, p1: seq<string>, p2: seq<string>)
    requires forall t :: t in p1 ==> t in p2
    ensures TagCount(e, p1) <= TagCount(e, p2)
    decreases e, 1
  {
    PositiveTagCountMonotone(e.tags, p1, p2);
    TagCountAllMonotone(e.replies, p1, p2);
  }

  lemma {:induction false} TagCountAllMonotone(es: seq<Email>, p1: seq<string>, p2: seq<string>)
    requires forall t :: t in p1 ==> t in p2
    ensures TagCountAll(es, p1) <= TagCountAll(es, p2)
    decreases es, 0
  {
    if es != [] {
      var init := es[..|es| - 1];
      var last := es[|es| - 1];
      assert es == init + [last];
      TagCountAllSnoc(init, last, p1);
      TagCountAllSnoc(init, last, p2);
      TagCountAllMonotone(init, p1, p2);
      TagCountMonotone(last, p1, p2);
    }
  }

  lemma NormalizedRelevanceMonotone(c1: nat, c2: nat, maxAkCount: real)
    requires maxAkCount > 0.0 && c1 <= c2
    ensures NormalizedRelevance(c1, maxAkCount) <= NormalizedRelevance(c2, maxAkCount)
  {
    assert c1 as real / maxAkCount <= c2 as real / maxAkCount by {
      assert c2 as real / maxAkCount - c1 as real / maxAkCount == (c2 - c1) as real / maxAkCount;
    }
  }

  /** Since the per-tag analyzer shares maxAkCount, a thread never scores higher for one
      positive tag than for all of them. */
  lemma TagRelevanceAtMostAllTags(e: Email, positiveTags: seq<string>, tag: string, maxAkCount: real)
    requires tag in positiveTags && maxAkCount > 0.0
    ensures NormalizedRelevance(TagCount(e, [tag]), maxAkCount) <= NormalizedRelevance(TagCount(e, positiveTags), maxAkCount)
  {
    TagCountMonotone(e, [tag], positiveTags);
    NormalizedRelevanceMonotone(TagCount(e, [tag]), TagCount(e, positiveTags), maxAkCount);
  }

  /** One CSV record (N, NDCG, PRECISION). */
  datatype CsvRow = CsvRow(n: int, ndcg: real, precision: real)

  /** savePrecisionCSV: one row per NDCG entry, numbered from 1; the precision array
      must be at least as long, or the look-up precision()[i] fails. */
  method PrecisionCsvRows(ndcg: seq<real>, precision: seq<real>) returns (rows: seq<CsvRow>)
    requires |precision| >= |ndcg|
    ensures |rows| == |ndcg|
    ensures forall i :: 0 <= i < |rows| ==> rows[i] == CsvRow(i + 1, ndcg[i], precision[i])
  {
    rows := [];
    for i := 0 to |ndcg|
      invariant |rows| == i
      invariant forall k :: 0 <= k < i ==> rows[k] == CsvRow(k + 1, ndcg[k], precision[k])
    {
      var n := i + 1;
      rows := rows + [CsvRow(n, ndcg[i], precision[i])];
    }
  }
}
