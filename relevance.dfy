/** Ratio-mode thread relevance (relevance/RelevanceAnalyzer): the share of
    architectural messages among the categorised messages of a thread. */
module RatioRelevance {
  import opened Seqs
  import opened Emails
  import opened AnalysisUtils

  /** The number of messages of the thread whose status is s. */
  function StatusCount(e: Email, s: AkStatus, positiveTags: seq<string>, negativeTags: seq<string>): nat
    decreases e, 1
  {
    (if GetStatus(e.tags, positiveTags, negativeTags) == s then 1 else 0)
      + StatusCountAll(e.replies, s, positiveTags, negativeTags)
  }

  function StatusCountAll(es: seq<Email>, s: AkStatus, positiveTags: seq<string>, negativeTags: seq<string>): nat
    decreases es, 0
  {
    SumNat(seq(|es|, i requires 0 <= i < |es| => StatusCount(es[i], s, positiveTags, negativeTags)))
  }

  lemma StatusCountAllSnoc(es: seq<Email>, x: Email, s: AkStatus, positiveTags: seq<string>, negativeTags: seq<string>)
    ensures StatusCountAll(es + [x], s, positiveTags, negativeTags)
         == StatusCountAll(es, s, positiveTags, negativeTags) + StatusCount(x, s, positiveTags, negativeTags)
  {
    var a := seq(|es|, i requires 0 <= i < |es| => StatusCount(es[i], s, positiveTags, negativeTags));
    assert seq(|es + [x]|, i requires 0 <= i < |es + [x]| => StatusCount((es + [x])[i], s, positiveTags, negativeTags))
        == a + [StatusCount(x, s, positiveTags, negativeTags)];
    SumNatSnoc(a, StatusCount(x, s, positiveTags, negativeTags));
  }

  lemma StatusCountAllCons(x: Email, es: seq<Email>, s: AkStatus, positiveTags: seq<string>, negativeTags: seq<string>)
    ensures StatusCountAll([x] + es, s, positiveTags, negativeTags)
         == StatusCount(x, s, positiveTags, negativeTags) + StatusCountAll(es, s, positiveTags, negativeTags)
  {
    var a := seq(|es|, i requires 0 <= i < |es| => StatusCount(es[i], s, positiveTags, negativeTags));
    var c := StatusCount(x, s, positiveTags, negativeTags);
    assert seq(|[x] + es|, i requires 0 <= i < |[x] + es| => StatusCount(([x] + es)[i], s, positiveTags, negativeTags))
        == [c] + a;
    SumNatAppend([c], a);
    assert [c] == [] + [c];
  }

  /** Reference count: the messages of a flat list whose status is s. */
  function CountStatus(ms: seq<Email>, s: AkStatus, positiveTags: seq<string>, negativeTags: seq<string>): nat
  {
    if ms == [] then 0
    else
      var last := if GetStatus(ms[|ms| - 1].tags, positiveTags, negativeTags) == s then 1 else 0;
      CountStatus(ms[..|ms| - 1], s, positiveTags, negativeTags) + last
  }

  lemma {:induction false} CountStatusAppend(ms: seq<Email>, ns: seq<Email>, s: AkStatus, positiveTags: seq<string>, negativeTags: seq<string>)
    ensures CountStatus(ms + ns, s, positiveTags, negativeTags)
         == CountStatus(ms, s, positiveTags, negativeTags) + CountStatus(ns, s, positiveTags, negativeTags)
    decreases |ns|
  {
    if ns == [] {
      assert ms + ns == ms;
    } else {
      var init := ns[..|ns| - 1];
      assert (ms + ns)[..|ms + ns| - 1] == ms + init;
      CountStatusAppend(ms, init, s, positiveTags, negativeTags);
    }
  }

  /** The recursive count agrees with counting over the message list of the thread:
      the recursion visits the root and each descendant exactly once. */
  lemma {:induction false} StatusCountOverMessages(e: Email, s: AkStatus, positiveTags: seq<string>, negativeTags: seq<string>)
    ensures StatusCount(e, s, positiveTags, negativeTags) == CountStatus(Messages(e), s, positiveTags, negativeTags)
    decreases e, 1
  {
    StatusCountAllOverMessages(e.replies, s, positiveTags, negativeTags);
    CountStatusAppend([e], MessagesOfAll(e.replies), s, positiveTags, negativeTags);
    assert [e][..0] == [];
  }

  lemma {:induction false} StatusCountAllOverMessages(es: seq<Email>, s: AkStatus, positiveTags: seq<string>, negativeTags: seq<string>)
    ensures StatusCountAll(es, s, positiveTags, negativeTags) == CountStatus(MessagesOfAll(es), s, positiveTags, negativeTags)
    decreases es, 0
  {
    if es != [] {
      assert es == [es[0]] + es[1..];
      StatusCountAllCons(es[0], es[1..], s, positiveTags, negativeTags);
      MessagesOfAllCons(es[0], es[1..]);
      StatusCountOverMessages(es[0], s, positiveTags, negativeTags);
      StatusCountAllOverMessages(es[1..], s, positiveTags, negativeTags);
      CountStatusAppend(Messages(es[0]), MessagesOfAll(es[1..]), s, positiveTags, negativeTags);
    }
  }

  /** Every message gets exactly one status, so the three counts add up to the size
      of the thread. */
  lemma {:induction false} StatusCountsPartition(e: Email, positiveTags: seq<string>, negativeTags: seq<string>)
    ensures StatusCount(e, Architectural, positiveTags, negativeTags)
          + StatusCount(e, NotArchitectural, positiveTags, negativeTags)
          + StatusCount(e, Unknown, positiveTags, negativeTags) == Size(e)
    decreases e, 1
  {
    StatusCountsPartitionAll(e.replies, positiveTags, negativeTags);
  }

  lemma {:induction false} StatusCountsPartitionAll(es: seq<Email>, positiveTags: seq<string>, negativeTags: seq<string>)
    ensures StatusCountAll(es, Architectural, positiveTags, negativeTags)
          + StatusCountAll(es, NotArchitectural, positiveTags, negativeTags)
          + StatusCountAll(es, Unknown, positiveTags, negativeTags) == SizeOfAll(es)
    decreases es, 0
  {
    if es != [] {
      assert es == [es[0]] + es[1..];
      StatusCountAllCons(es[0], es[1..], Architectural, positiveTags, negativeTags);
      StatusCountAllCons(es[0], es[1..], NotArchitectural, positiveTags, negativeTags);
      StatusCountAllCons(es[0], es[1..], Unknown, positiveTags, negativeTags);
      SizeOfAllCons(es[0], es[1..]);
      StatusCountsPartition(es[0], positiveTags, negativeTags);
      StatusCountsPartitionAll(es[1..], positiveTags, negativeTags);
    }
  }

  /** ak / (ak + notAk) as a double, or 0 when nothing is categorised. */
  function Ratio(ak: nat, notAk: nat): (r: real)
    ensures 0.0 <= r <= 1.0
    ensures r == 0.0 <==> ak == 0
    ensures r == 1.0 <==> ak > 0 && notAk == 0
  {
    if ak + notAk == 0 then 0.0 else ak as real / (ak + notAk) as real
  }

  /** The relevance analyzeThread computes for the thread rooted at e. */
  function ThreadRelevance(e: Email, positiveTags: seq<string>, negativeTags: seq<string>): real
  {
    Ratio(StatusCount(e, Architectural, positiveTags, negativeTags),
          StatusCount(e, NotArchitectural, positiveTags, negativeTags))
  }

  /** The look-up with computeIfAbsent(status, s -> 0). */
  function CountOf(counts: map<AkStatus, nat>, s: AkStatus): nat
  {
    if s in counts then counts[s] else 0
  }

  /** analyzeEmailRecursive: one counter increment for the message, then the replies,
      depth first. */
  method AnalyzeEmailRecursive(e: Email, positiveTags: seq<string>, negativeTags: seq<string>, counts: map<AkStatus, nat>)
    returns (result: map<AkStatus, nat>)
    ensures forall s :: CountOf(result, s) == CountOf(counts, s) + StatusCount(e, s, positiveTags, negativeTags)
    decreases e
  {
    var status := GetStatus(e.tags, positiveTags, negativeTags);
    var count := CountOf(counts, status);
    result := counts[status := count + 1];
    var i := 0;
    while i < |e.replies|
      invariant 0 <= i <= |e.replies|
      invariant forall s ::
                  CountOf(result, s) == CountOf(counts, s) + (if status == s then 1 else 0)
                                        + StatusCountAll(e.replies[..i], s, positiveTags, negativeTags)
    {
      ghost var before := result;
      result := AnalyzeEmailRecursive(e.replies[i], positiveTags, negativeTags, result);
      forall s ensures CountOf(result, s) == CountOf(counts, s) + (if status == s then 1 else 0)
         + StatusCountAll(e.replies[..i + 1], s, positiveTags, negativeTags)
      {
        assert e.replies[..i + 1] == e.replies[..i] + [e.replies[i]];
        StatusCountAllSnoc(e.replies[..i], e.replies[i], s, positiveTags, negativeTags);
      }
      i := i + 1;
    }
    assert e.replies[..i] == e.replies;
  }

  /** analyzeThread: counts from a fresh map, then the ratio; repeated calls on the same
      thread therefore give the same value. */
  method AnalyzeThread(e: Email, positiveTags: seq<string>, negativeTags: seq<string>) returns (r: real)
    ensures r == ThreadRelevance(e, positiveTags, negativeTags)
    ensures 0.0 <= r <= 1.0
  {
    var counts := AnalyzeEmailRecursive(e, positiveTags, negativeTags, map[]);
    var akCount := CountOf(counts, Architectural);
    var notAkCount := CountOf(counts, NotArchitectural);
    var categorizedCount := akCount + notAkCount;
    if categorizedCount == 0 {
      return 0.0;
    }
    r := akCount as real / categorizedCount as real;
  }

  /** A thread none of whose messages is categorised scores 0. */
  lemma UncategorisedThreadScoresZero(e: Email, positiveTags: seq<string>, negativeTags: seq<string>)
    requires forall k :: 0 <= k < |Messages(e)| ==> GetStatus(Messages(e)[k].tags, positiveTags, negativeTags) == Unknown
    ensures ThreadRelevance(e, positiveTags, negativeTags) == 0.0
  {
    StatusCountOverMessages(e, Architectural, positiveTags, negativeTags);
    CountStatusNoneMatch(Messages(e), Architectural, positiveTags, negativeTags);
  }

  lemma {:induction false} CountStatusNoneMatch(ms: seq<Email>, s: AkStatus, positiveTags: seq<string>, negativeTags: seq<string>)
    requires forall k :: 0 <= k < |ms| ==> GetStatus(ms[k].tags, positiveTags, negativeTags) != s
    ensures CountStatus(ms, s, positiveTags, negativeTags) == 0
  {
    if ms != [] {
      CountStatusNoneMatch(ms[..|ms| - 1], s, positiveTags, negativeTags);
    }
  }

  /** Appending a reply thread without categorised messages leaves the result unchanged. */
  lemma UnknownReplyIgnored(e: Email, reply: Email, positiveTags: seq<string>, negativeTags: seq<string>)
    requires StatusCount(reply, Architectural, positiveTags, negativeTags) == 0
    requires StatusCount(reply, NotArchitectural, positiveTags, negativeTags) == 0
    ensures ThreadRelevance(e.(replies := e.replies + [reply]), positiveTags, negativeTags)
         == ThreadRelevance(e, positiveTags, negativeTags)
  {
    StatusCountAllSnoc(e.replies, reply, Architectural, positiveTags, negativeTags);
    StatusCountAllSnoc(e.replies, reply, NotArchitectural, positiveTags, negativeTags);
  }

  /** A thread with an architectural message and no non-architectural one scores 1;
      one whose categorised messages are all non-architectural scores 0. */
  lemma ExtremeThreads(e: Email, positiveTags: seq<string>, negativeTags: seq<string>)
    ensures StatusCount(e, Architectural, positiveTags, negativeTags) > 0
         && StatusCount(e, NotArchitectural, positiveTags, negativeTags) == 0
        ==> ThreadRelevance(e, positiveTags, negativeTags) == 1.0
    ensures StatusCount(e, Architectural, positiveTags, negativeTags) == 0
        ==> ThreadRelevance(e, positiveTags, negativeTags) == 0.0
  {
  }
}
