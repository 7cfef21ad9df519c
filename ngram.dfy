/** The recursive n-gram reply-chain matcher (cmd/NGramPatternSearcher) and the rank
    numbering of its results (cmd/PatternReportGenerator). */
module NGramSearch {
  import opened Seqs
  import opened Sorting
  import opened Emails
  import ReportGen
  import Permutations

  /** Some tag of the message is a negative tag (exact comparison). */
  predicate HasNegativeTag(tags: seq<string>)
  {
    exists t :: t in tags && t in ReportGen.NegativeTags
  }

  /** hasPattern: the thread starting at e matches the pattern. With skipNotAk, a
      not-ak message lacking the current tag is stepped over without advancing. */
  function HasPattern(e: Email, pattern: seq<string>, skipNotAk: bool): bool
    decreases e
  {
    if |pattern| == 0 then true
    else
      var thisEmailMatches := pattern[0] in e.tags;
      if skipNotAk && !thisEmailMatches && HasNegativeTag(e.tags) then
        exists r :: r in e.replies && HasPattern(r, pattern, skipNotAk)
      else if |pattern| == 1 then thisEmailMatches
      else thisEmailMatches && exists r :: r in e.replies && HasPattern(r, pattern[1..], skipNotAk)
  }

  /** Reference definition: following the reply indices in path from e gives a chain of
      messages whose i-th message carries the i-th tag of the pattern. */
  ghost predicate ChainAlong(e: Email, pattern: seq<string>, path: seq<nat>)
    decreases e
  {
    |pattern| >= 1 && |path| == |pattern| - 1 && pattern[0] in e.tags &&
    (|path| > 0 ==> path[0] < |e.replies| && ChainAlong(e.replies[path[0]], pattern[1..], path[1..]))
  }

  /** Without skipping, a non-empty pattern matches exactly when some reply chain from e
      carries its tags in order, one tag per message. */
  lemma HasPatternIffChain(e: Email, pattern: seq<string>)
    requires |pattern| >= 1
    ensures HasPattern(e, pattern, false) <==> exists path :: ChainAlong(e, pattern, path)
  {
    if HasPattern(e, pattern, false) {
      HasPatternGivesChain(e, pattern);
    }
    forall path | ChainAlong(e, pattern, path) ensures HasPattern(e, pattern, false) {
      ChainGivesHasPattern(e, pattern, path);
    }
  }

  lemma {:induction false} HasPatternGivesChain(e: Email, pattern: seq<string>)
    requires |pattern| >= 1 && HasPattern(e, pattern, false)
    ensures exists path :: ChainAlong(e, pattern, path)
    decreases e
  {
    if |pattern| == 1 {
      assert ChainAlong(e, pattern, []);
    } else {
      var r :| r in e.replies && HasPattern(r, pattern[1..], false);
      var i :| 0 <= i < |e.replies| && e.replies[i] == r;
      HasPatternGivesChain(r, pattern[1..]);
      var rest :| ChainAlong(r, pattern[1..], rest);
      assert ([i] + rest)[1..] == rest;
      assert ChainAlong(e, pattern, [i] + rest);
    }
  }

  lemma {:induction false} ChainGivesHasPattern(e: Email, pattern: seq<string>, path: seq<nat>)
    requires ChainAlong(e, pattern, path)
    ensures HasPattern(e, pattern, false)
    decreases e
  {
    if |pattern| >= 2 {
      var r := e.replies[path[0]];
      ChainGivesHasPattern(r, pattern[1..], path[1..]);
      assert r in e.replies;
    }
  }

  /** The matching rules of hasPattern, case by case: the empty pattern always matches;
      outside the skip rule a single tag must be on e, and a longer pattern needs its
      head on e and its tail matched by some reply; under the skip rule some reply must
      match the same pattern. */
  lemma HasPatternRules(e: Email, pattern: seq<string>, skipNotAk: bool)
    ensures |pattern| == 0 ==> HasPattern(e, pattern, skipNotAk)
    ensures |pattern| >= 1 && skipNotAk && pattern[0] !in e.tags && HasNegativeTag(e.tags) ==>
              (HasPattern(e, pattern, skipNotAk) <==> exists r :: r in e.replies && HasPattern(r, pattern, skipNotAk))
    ensures |pattern| == 1 && !(skipNotAk && pattern[0] !in e.tags && HasNegativeTag(e.tags)) ==>
              (HasPattern(e, pattern, skipNotAk) <==> pattern[0] in e.tags)
    ensures |pattern| >= 2 && !(skipNotAk && pattern[0] !in e.tags && HasNegativeTag(e.tags)) ==>
              (HasPattern(e, pattern, skipNotAk) <==>
                 pattern[0] in e.tags && exists r :: r in e.replies && HasPattern(r, pattern[1..], skipNotAk))
  {
  }

  /** Candidate q, met while scanning tag `tag` of message e, raises the count of p. */
  predicate Raises(q: seq<string>, tag: string, p: seq<string>, e: Email, skipNotAk: bool)
  {
    q == p && |p| > 0 && p[0] == tag && HasPattern(e, p, skipNotAk)
  }

  /** The increments of p's count for one tag of e, over the candidates in order. */
  function TagHits(tag: string, candidates: seq<seq<string>>, p: seq<string>, e: Email, skipNotAk: bool): nat
  {
    if candidates == [] then 0
    else
      var last := if Raises(candidates[|candidates| - 1], tag, p, e, skipNotAk) then 1 else 0;
      TagHits(tag, candidates[..|candidates| - 1], p, e, skipNotAk) + last
  }

  /** The increments of p's count for message e, over its tags in order. */
  function OwnHits(tags: seq<string>, candidates: seq<seq<string>>, p: seq<string>, e: Email, skipNotAk: bool): nat
  {
    if tags == [] then 0
    else OwnHits(tags[..|tags| - 1], candidates, p, e, skipNotAk) + TagHits(tags[|tags| - 1], candidates, p, e, skipNotAk)
  }

  /** The increments of p's count for a whole thread: for every message, as a start. */
  function ThreadHits(e: Email, p: seq<string>, candidates: seq<seq<string>>, skipNotAk: bool): nat
    decreases e, 1
  {
    OwnHits(e.tags, candidates, p, e, skipNotAk) + ThreadHitsAll(e.replies, p, candidates, skipNotAk)
  }

  function ThreadHitsAll(es: seq<Email>, p: seq<string>, candidates: seq<seq<string>>, skipNotAk: bool): nat
    decreases es, 0
  {
    SumNat(seq(|es|, i requires 0 <= i < |es| => ThreadHits(es[i], p, candidates, skipNotAk)))
  }

  lemma ThreadHitsAllSnoc(es: seq<Email>, x: Email, p: seq<string>, candidates: seq<seq<string>>, skipNotAk: bool)
    ensures ThreadHitsAll(es + [x], p, candidates, skipNotAk)
         == ThreadHitsAll(es, p, candidates, skipNotAk) + ThreadHits(x, p, candidates, skipNotAk)
  {
    var a := seq(|es|, i requires 0 <= i < |es| => ThreadHits(es[i], p, candidates, skipNotAk));
    assert seq(|es + [x]|, i requires 0 <= i < |es + [x]| => ThreadHits((es + [x])[i], p, candidates, skipNotAk))
        == a + [ThreadHits(x, p, candidates, skipNotAk)];
    SumNatSnoc(a, ThreadHits(x, p, candidates, skipNotAk));
  }

  lemma {:induction false} TagHitsValue(tag: string, candidates: seq<seq<string>>, p: seq<string>, e: Email, skipNotAk: bool)
    ensures TagHits(tag, candidates, p, e, skipNotAk)
         == if |p| > 0 && p[0] == tag && HasPattern(e, p, skipNotAk) then CountOcc(candidates, p) else 0
  {
    if candidates != [] {
      TagHitsValue(tag, candidates[..|candidates| - 1], p, e, skipNotAk);
    }
  }

  lemma {:induction false} OwnHitsOver(tags: seq<string>, candidates: seq<seq<string>>, p: seq<string>, e: Email, skipNotAk: bool)
    ensures OwnHits(tags, candidates, p, e, skipNotAk)
         == if |p| > 0 && HasPattern(e, p, skipNotAk) then CountOcc(tags, p[0]) * CountOcc(candidates, p) else 0
  {
    if tags != [] {
      var init := tags[..|tags| - 1];
      OwnHitsOver(init, candidates, p, e, skipNotAk);
      TagHitsValue(tags[|tags| - 1], candidates, p, e, skipNotAk);
      if |p| > 0 && HasPattern(e, p, skipNotAk) {
        var c := CountOcc(candidates, p);
        var n := CountOcc(init, p[0]);
        if tags[|tags| - 1] == p[0] {
          assert n * c + c == (n + 1) * c;
        }
      }
    }
  }

  /** A message adds to p's count once per copy of p's first tag on it and per copy of p
      among the candidates, and only when the thread from it matches p. */
  lemma OwnHitsValue(e: Email, p: seq<string>, candidates: seq<seq<string>>, skipNotAk: bool)
    ensures OwnHits(e.tags, candidates, p, e, skipNotAk)
         == if |p| > 0 && HasPattern(e, p, skipNotAk) then CountOcc(e.tags, p[0]) * CountOcc(candidates, p) else 0
    ensures OwnHits(e.tags, candidates, p, e, skipNotAk) > 0 <==>
              |p| > 0 && p[0] in e.tags && p in candidates && HasPattern(e, p, skipNotAk)
  {
    OwnHitsOver(e.tags, candidates, p, e, skipNotAk);
    if |p| > 0 {
      CountOccPositive(e.tags, p[0]);
    }
    CountOccPositive(candidates, p);
  }

  /** The tag names of every message of the thread are free of duplicates. */
  ghost predicate TagsUnique(e: Email)
    decreases e
  {
    Distinct(e.tags) && forall i :: 0 <= i < |e.replies| ==> TagsUnique(e.replies[i])
  }

  /** The number of messages of the thread carrying tag t. */
  function CarryingCount(e: Email, t: string): nat
    decreases e, 1
  {
    (if t in e.tags then 1 else 0) + CarryingCountAll(e.replies, t)
  }

  function CarryingCountAll(es: seq<Email>, t: string): nat
    decreases es, 0
  {
    SumNat(seq(|es|, i requires 0 <= i < |es| => CarryingCount(es[i], t)))
  }

  /** For a single-tag candidate listed once, consuming a thread adds exactly the number
      of its messages carrying the tag, in either skip mode, when tag names are unique
      per message. */
  lemma {:induction false} SingleTagCount(e: Email, t: string, candidates: seq<seq<string>>, skipNotAk: bool)
    requires TagsUnique(e) && CountOcc(candidates, [t]) == 1
    ensures ThreadHits(e, [t], candidates, skipNotAk) == CarryingCount(e, t)
    decreases e, 1
  {
    OwnHitsValue(e, [t], candidates, skipNotAk);
    CountOccDistinct(e.tags, t);
    SingleTagCountAll(e.replies, t, candidates, skipNotAk);
  }

  lemma {:induction false} SingleTagCountAll(es: seq<Email>, t: string, candidates: seq<seq<string>>, skipNotAk: bool)
    requires forall i :: 0 <= i < |es| ==> TagsUnique(es[i])
    requires CountOcc(candidates, [t]) == 1
    ensures ThreadHitsAll(es, [t], candidates, skipNotAk) == CarryingCountAll(es, t)
    decreases es, 0
  {
    var a := seq(|es|, i requires 0 <= i < |es| => ThreadHits(es[i], [t], candidates, skipNotAk));
    var b := seq(|es|, i requires 0 <= i < |es| => CarryingCount(es[i], t));
    forall i | 0 <= i < |es| ensures a[i] == b[i] {
      SingleTagCount(es[i], t, candidates, skipNotAk);
    }
    assert a == b;
  }

  /** An entry of getResultsOrdered. */
  datatype Result = Result(pattern: seq<string>, count: nat)

  function ResultCount(r: Result): real
  {
    r.count as real
  }

  class NGramPatternSearcher {
    const possiblePatterns: seq<seq<string>>
    const skipNotAk: bool
    var results: map<seq<string>, nat>

    /** The counted patterns are exactly the candidates. */
    ghost predicate Valid()
      reads this
    {
      results.Keys == set p | p in possiblePatterns
    }

    /** Every candidate starts at 0. */
    constructor (possiblePatterns: seq<seq<string>>, skipNotAk: bool)
      ensures Valid()
      ensures this.possiblePatterns == possiblePatterns && this.skipNotAk == skipNotAk
      ensures forall p :: p in results ==> results[p] == 0
    {
      var m: map<seq<string>, nat> := map[];
      for i := 0 to |possiblePatterns|
        invariant m.Keys == set p | p in possiblePatterns[..i]
        invariant forall p :: p in m ==> m[p] == 0
      {
        assert possiblePatterns[..i + 1] == possiblePatterns[..i] + [possiblePatterns[i]];
        m := m[possiblePatterns[i] := 0];
      }
      assert possiblePatterns[..|possiblePatterns|] == possiblePatterns;
      this.possiblePatterns := possiblePatterns;
      this.skipNotAk := skipNotAk;
      results := m;
    }

    /** consumeEmail: searches the thread rooted at the consumed message. Only candidate
        counts change, and none decreases. */
    method ConsumeEmail(e: Email)
      requires Valid()
      modifies this
      ensures Valid()
      ensures results.Keys == old(results).Keys
      ensures forall p :: p in results ==> results[p] == old(results)[p] + ThreadHits(e, p, possiblePatterns, skipNotAk)
    {
      PatternSearchRecursive(e);
    }

    /** patternSearchRecursive: for every tag of e and every candidate starting with it
        that the thread from e matches, one increment; then the replies. */
    method PatternSearchRecursive(e: Email)
      requires Valid()
      modifies this
      ensures Valid()
      ensures results.Keys == old(results).Keys
      ensures forall p :: p in results ==> results[p] == old(results)[p] + ThreadHits(e, p, possiblePatterns, skipNotAk)
      decreases e
    {
      ScanMessage(e);
      ghost var own := results;
      for i := 0 to |e.replies|
        invariant Valid() && results.Keys == old(results).Keys
        invariant forall p :: p in results ==> results[p] == own[p] + ThreadHitsAll(e.replies[..i], p, possiblePatterns, skipNotAk)
      {
        PatternSearchRecursive(e.replies[i]);
        assert e.replies[..i + 1] == e.replies[..i] + [e.replies[i]];
        forall p | p in results
          ensures results[p] == own[p] + ThreadHitsAll(e.replies[..i + 1], p, possiblePatterns, skipNotAk)
        {
          ThreadHitsAllSnoc(e.replies[..i], e.replies[i], p, possiblePatterns, skipNotAk);
        }
      }
      assert e.replies[..|e.replies|] == e.replies;
    }

    /** The tag loop of patternSearchRecursive for the message e itself. */
    method ScanMessage(e: Email)
      requires Valid()
      modifies this
      ensures Valid()
      ensures results.Keys == old(results).Keys
      ensures forall p :: p in results ==> results[p] == old(results)[p] + OwnHits(e.tags, possiblePatterns, p, e, skipNotAk)
    {
      for j := 0 to |e.tags|
        invariant Valid() && results.Keys == old(results).Keys
        invariant forall p :: p in results ==> results[p] == old(results)[p] + OwnHits(e.tags[..j], possiblePatterns, p, e, skipNotAk)
      {
        ScanTag(e, e.tags[j]);
        assert e.tags[..j + 1][..j] == e.tags[..j];
      }
      assert e.tags[..|e.tags|] == e.tags;
    }

    /** The candidate loop of patternSearchRecursive for one tag of the message e. */
    method ScanTag(e: Email, tag: string)
      requires Valid()
      modifies this
      ensures Valid()
      ensures results.Keys == old(results).Keys
      ensures forall p :: p in results ==> results[p] == old(results)[p] + TagHits(tag, possiblePatterns, p, e, skipNotAk)
    {
      for k := 0 to |possiblePatterns|
        invariant Valid() && results.Keys == old(results).Keys
        invariant forall p :: p in results ==> results[p] == old(results)[p] + TagHits(tag, possiblePatterns[..k], p, e, skipNotAk)
      {
        var pattern := possiblePatterns[k];
        assert possiblePatterns[..k + 1][..k] == possiblePatterns[..k];
        if |pattern| > 0 && pattern[0] == tag && HasPattern(e, pattern, skipNotAk) {
          results := results[pattern := results[pattern] + 1];
        }
      }
      assert possiblePatterns[..|possiblePatterns|] == possiblePatterns;
    }

    /** getResultsOrdered: one Result per entry of the map, by non-increasing count. */
    method GetResultsOrdered() returns (r: seq<Result>)
      ensures |r| == |results|
      ensures forall x :: x in r <==> x.pattern in results && x.count == results[x.pattern]
      ensures SortedDescBy(r, ResultCount)
    {
      var keys := InSomeOrder(results.Keys);
      var resultsList: seq<Result> := [];
      for i := 0 to |keys|
        invariant |resultsList| == i
        invariant forall k :: 0 <= k < i ==> resultsList[k] == Result(keys[k], results[keys[k]])
      {
        resultsList := resultsList + [Result(keys[i], results[keys[i]])];
      }
      r := SortDescBy(resultsList, ResultCount);
      SortDescLength(resultsList, ResultCount);
      assert |keys| == |results.Keys| == |results|;
      forall x ensures x in r <==> x.pattern in results && x.count == results[x.pattern] {
        assert x in r <==> x in multiset(resultsList);
        if x.pattern in results && x.count == results[x.pattern] {
          var k :| 0 <= k < |keys| && keys[k] == x.pattern;
          assert resultsList[k] == x;
        }
      }
    }
  }

  /** The summed increments of p over a list of thread roots. */
  function RootsHits(roots: seq<Email>, p: seq<string>, candidates: seq<seq<string>>, skipNotAk: bool): nat
  {
    if roots == [] then 0
    else RootsHits(roots[..|roots| - 1], p, candidates, skipNotAk) + ThreadHits(roots[|roots| - 1], p, candidates, skipNotAk)
  }

  /** doNGramAnalysis: every ordered arrangement of size positive tags, counted over the
      given tagged thread roots, by non-increasing count. */
  method DoNGramAnalysis(size: int, roots: seq<Email>, skipNotAk: bool) returns (r: seq<Result>)
    ensures forall x :: x in r <==>
              x.pattern in Permutations.Perms(size, ReportGen.PositiveTags) &&
              x.count == RootsHits(roots, x.pattern, Permutations.Perms(size, ReportGen.PositiveTags), skipNotAk)
    ensures SortedDescBy(r, ResultCount)
  {
    var possiblePatterns := Permutations.GenerateTagPermutations(size, ReportGen.PositiveTags);
    var searcher := SearchThreads(possiblePatterns, roots, skipNotAk);
    r := searcher.GetResultsOrdered();
  }

  /** A searcher over the candidates that has consumed every root in turn. */
  method SearchThreads(possiblePatterns: seq<seq<string>>, roots: seq<Email>, skipNotAk: bool)
    returns (searcher: NGramPatternSearcher)
    ensures fresh(searcher) && searcher.Valid()
    ensures searcher.possiblePatterns == possiblePatterns && searcher.skipNotAk == skipNotAk
    ensures forall p :: p in searcher.results ==> searcher.results[p] == RootsHits(roots, p, possiblePatterns, skipNotAk)
  {
    searcher := new NGramPatternSearcher(possiblePatterns, skipNotAk);
    for i := 0 to |roots|
      invariant searcher.Valid()
      invariant searcher.possiblePatterns == possiblePatterns && searcher.skipNotAk == skipNotAk
      invariant forall p :: p in searcher.results ==>
                  searcher.results[p] == RootsHits(roots[..i], p, possiblePatterns, skipNotAk)
    {
      searcher.ConsumeEmail(roots[i]);
      assert roots[..i + 1][..i] == roots[..i];
    }
    assert roots[..|roots|] == roots;
  }

  /** One CSV record of writeNGramResults. */
  datatype Row = Row(rank: nat, pattern: seq<string>, count: nat)

  /** writeNGramResults: records ranked 1, 2, ... in list order. */
  method NGramRows(results: seq<Result>) returns (rows: seq<Row>)
    ensures |rows| == |results|
    ensures forall i :: 0 <= i < |rows| ==>
              rows[i].rank == i + 1 && rows[i].pattern == results[i].pattern && rows[i].count == results[i].count
  {
    rows := [];
    for i := 0 to |results|
      invariant |rows| == i
      invariant forall k :: 0 <= k < i ==> rows[k] == Row(k + 1, results[k].pattern, results[k].count)
    {
      rows := rows + [Row(i + 1, results[i].pattern, results[i].count)];
    }
  }
}
