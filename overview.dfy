/** The overview report (cmd/OverviewReportGenerator): per-tag counts over individual
    emails and over threads, the relevances of tagged threads, the tag columns of the
    counts CSV and the layout of the relevance histogram. */
module OverviewReport {
  import opened Seqs
  import opened Sorting
  import opened Strings
  import opened Emails
  import ReportGen
  import RatioRelevance

  /** One message the walk over tagged emails delivers: the start of a thread (its
      whole tree is known) or a reply with the names of its own tags. */
  datatype Walked =
    | Root(thread: Email)
    | Reply(tags: seq<string>)

  function CountOf(counts: map<string, nat>, tag: string): nat
  {
    if tag in counts then counts[tag] else 0
  }

  /** The names of the tags on the root and on every reply below it (the root's tags
      together with getAllChildTags). */
  ghost function ThreadTags(e: Email): set<string>
  {
    (set t | t in e.tags) + (set m, t | m in MessagesOfAll(e.replies) && t in m.tags :: t)
  }

  /** A thread tag is exactly a tag carried by some message of the thread. */
  lemma ThreadTagsAreMessageTags(e: Email, t: string)
    ensures t in ThreadTags(e) <==> exists m :: m in Messages(e) && t in m.tags
  {
    assert Messages(e) == [e] + MessagesOfAll(e.replies);
    if exists m :: m in Messages(e) && t in m.tags {
      var m :| m in Messages(e) && t in m.tags;
      if m != e {
        assert m in MessagesOfAll(e.replies);
      }
    }
  }

  /** emailTagCounts over a walk: every tag occurrence on a reply. */
  ghost function EmailTagCount(walk: seq<Walked>, tag: string): nat
  {
    if walk == [] then 0
    else
      var last := walk[|walk| - 1];
      EmailTagCount(walk[..|walk| - 1], tag) + (if last.Reply? then CountOcc(last.tags, tag) else 0)
  }

  /** threadTagCounts over a walk: the roots whose thread carries the tag somewhere. */
  ghost function ThreadTagCount(walk: seq<Walked>, tag: string): nat
  {
    if walk == [] then 0
    else
      var last := walk[|walk| - 1];
      ThreadTagCount(walk[..|walk| - 1], tag) + (if last.Root? && tag in ThreadTags(last.thread) then 1 else 0)
  }

  /** The relevances list: one entry per root that carries a tag itself, in walk order. */
  ghost function Relevances(walk: seq<Walked>): seq<real>
  {
    if walk == [] then []
    else
      var last := walk[|walk| - 1];
      Relevances(walk[..|walk| - 1]) +
        (if last.Root? && last.thread.tags != []
         then [RatioRelevance.ThreadRelevance(last.thread, ReportGen.PositiveTags, ReportGen.NegativeTags)]
         else [])
  }

  function RootCount(walk: seq<Walked>): nat
  {
    if walk == [] then 0 else RootCount(walk[..|walk| - 1]) + (if walk[|walk| - 1].Root? then 1 else 0)
  }

  /** Each root raises a tag's thread count at most once, however often the tag occurs
      in the thread, so the count never exceeds the number of threads. */
  lemma {:induction false} ThreadTagCountAtMostRoots(walk: seq<Walked>, tag: string)
    ensures ThreadTagCount(walk, tag) <= RootCount(walk)
  {
    if walk != [] {
      ThreadTagCountAtMostRoots(walk[..|walk| - 1], tag);
    }
  }

  /** Roots never contribute to the email counts, and replies never to the thread counts. */
  lemma {:induction false} CountsSeparate(walk: seq<Walked>, tag: string)
    ensures (forall i :: 0 <= i < |walk| ==> walk[i].Root?) ==> EmailTagCount(walk, tag) == 0
    ensures (forall i :: 0 <= i < |walk| ==> walk[i].Reply?) ==> ThreadTagCount(walk, tag) == 0 && Relevances(walk) == []
  {
    if walk != [] {
      CountsSeparate(walk[..|walk| - 1], tag);
    }
  }

  /** Only tagged roots record a relevance, and each lies in [0, 1]. */
  lemma {:induction false} RelevancesBounded(walk: seq<Walked>)
    ensures |Relevances(walk)| <= RootCount(walk)
    ensures forall i :: 0 <= i < |Relevances(walk)| ==> 0.0 <= Relevances(walk)[i] <= 1.0
  {
    if walk != [] {
      RelevancesBounded(walk[..|walk| - 1]);
    }
  }

  /** What one more message adds to each count and to the relevances. */
  lemma WalkSnoc(walk: seq<Walked>, w: Walked)
    ensures forall t :: EmailTagCount(walk + [w], t) == EmailTagCount(walk, t) + (if w.Reply? then CountOcc(w.tags, t) else 0)
    ensures forall t :: ThreadTagCount(walk + [w], t) == ThreadTagCount(walk, t) + (if w.Root? && t in ThreadTags(w.thread) then 1 else 0)
    ensures Relevances(walk + [w]) == Relevances(walk) +
              (if w.Root? && w.thread.tags != []
               then [RatioRelevance.ThreadRelevance(w.thread, ReportGen.PositiveTags, ReportGen.NegativeTags)]
               else [])
  {
    assert (walk + [w])[..|walk|] == walk;
  }

  /** The counters the walk's callback fills. */
  class OverviewCounts {
    var emailTagCounts: map<string, nat>
    var threadTagCounts: map<string, nat>
    var relevances: seq<real>

    /** The counters after the given part of the walk. */
    ghost predicate After(walk: seq<Walked>)
      reads this
    {
      && (forall t :: CountOf(emailTagCounts, t) == EmailTagCount(walk, t))
      && (forall t :: CountOf(threadTagCounts, t) == ThreadTagCount(walk, t))
      && relevances == Relevances(walk)
    }

    constructor ()
      ensures After([])
    {
      emailTagCounts := map[];
      threadTagCounts := map[];
      relevances := [];
    }

    /** The callback for one email. */
    method Consume(w: Walked, ghost walk: seq<Walked>)
      requires After(walk)
      modifies this
      ensures After(walk + [w])
    {
      WalkSnoc(walk, w);
      match w
      case Root(e) =>
        if e.tags != [] {
          var r := RatioRelevance.AnalyzeThread(e, ReportGen.PositiveTags, ReportGen.NegativeTags);
          relevances := relevances + [r];
        }
        var threadTags := AllThreadTags(e);
        var ordered := InSomeOrder(threadTags);
        threadTagCounts := BumpEach(threadTagCounts, ordered);
        forall t ensures CountOf(threadTagCounts, t) == ThreadTagCount(walk + [w], t) {
          CountOccDistinct(ordered, t);
        }
      case Reply(tags) =>
        emailTagCounts := BumpEach(emailTagCounts, tags);
    }
  }

  /** Raises the count of each listed name by one per listing (computeIfAbsent, then put). */
  method BumpEach(counts: map<string, nat>, names: seq<string>) returns (r: map<string, nat>)
    ensures forall t :: CountOf(r, t) == CountOf(counts, t) + CountOcc(names, t)
    ensures r.Keys == counts.Keys + set t | t in names
  {
    r := counts;
    for i := 0 to |names|
      invariant forall t :: CountOf(r, t) == CountOf(counts, t) + CountOcc(names[..i], t)
      invariant r.Keys == counts.Keys + set t | t in names[..i]
    {
      assert names[..i + 1] == names[..i] + [names[i]];
      var current := CountOf(r, names[i]);
      r := r[names[i] := current + 1];
      forall t ensures CountOcc(names[..i + 1], t) == CountOcc(names[..i], t) + (if names[i] == t then 1 else 0) {
        CountOccSnoc(names[..i], names[i], t);
      }
    }
    assert names[..|names|] == names;
  }

  /** The HashSet of the root's tags and its descendants' tags. */
  method AllThreadTags(e: Email) returns (tags: set<string>)
    ensures tags == ThreadTags(e)
  {
    var messages := MessagesOfAll(e.replies);
    tags := set t | t in e.tags;
    for i := 0 to |messages|
      invariant tags == (set t | t in e.tags) + (set m, t | m in messages[..i] && t in m.tags :: t)
    {
      assert messages[..i + 1] == messages[..i] + [messages[i]];
      tags := tags + set t | t in messages[i].tags;
    }
    assert messages[..|messages|] == messages;
  }

  /** The CSV tag columns: the email-count keys that are positive or negative tags,
      in natural order. */
  method HeaderTags(emailTagCounts: map<string, nat>) returns (names: seq<string>)
    ensures StrictlySorted(names)
    ensures forall t :: t in names <==> t in emailTagCounts && (t in ReportGen.PositiveTags || t in ReportGen.NegativeTags)
  {
    var keys := InSomeOrder(emailTagCounts.Keys);
    var kept: seq<string> := [];
    for i := 0 to |keys|
      invariant forall t :: t in kept <==> t in keys[..i] && (t in ReportGen.PositiveTags || t in ReportGen.NegativeTags)
    {
      assert keys[..i + 1] == keys[..i] + [keys[i]];
      if keys[i] in ReportGen.PositiveTags || keys[i] in ReportGen.NegativeTags {
        kept := kept + [keys[i]];
      }
    }
    assert keys[..|keys|] == keys;
    names := SortedDistinct(kept);
  }

  /** One CSV row: each column's count, 0 for a tag without one. computeIfAbsent leaves
      every such tag in the map with count 0. */
  method CountsRow(counts: map<string, nat>, names: seq<string>) returns (row: seq<nat>, after: map<string, nat>)
    ensures |row| == |names|
    ensures forall i :: 0 <= i < |names| ==> row[i] == CountOf(counts, names[i])
    ensures after.Keys == counts.Keys + set t | t in names
    ensures forall t :: t in after ==> after[t] == CountOf(counts, t)
  {
    row := [];
    after := counts;
    for i := 0 to |names|
      invariant |row| == i
      invariant forall k :: 0 <= k < i ==> row[k] == CountOf(counts, names[k])
      invariant after.Keys == counts.Keys + set t | t in names[..i]
      invariant forall t :: t in after ==> after[t] == CountOf(counts, t)
    {
      assert names[..i + 1] == names[..i] + [names[i]];
      if names[i] !in after {
        after := after[names[i] := 0];
      }
      row := row + [after[names[i]]];
    }
    assert names[..|names|] == names;
  }

  /** A histogram bin [lower, upper] with the inclusion of each end. */
  datatype Bin = Bin(lower: real, upper: real, includeLower: bool, includeUpper: bool)

  const BinCount: nat := 10

  predicate InBin(b: Bin, x: real)
  {
    && (b.lower < x || (b.includeLower && x == b.lower))
    && (x < b.upper || (b.includeUpper && x == b.upper))
  }

  /** The bins generate adds: width 1/10, lower ends included, only the last upper end. */
  function BinLayout(): (bins: seq<Bin>)
    ensures |bins| == BinCount
  {
    seq(BinCount, i requires 0 <= i < BinCount =>
      Bin(i as real / BinCount as real, (i + 1) as real / BinCount as real, true, i == BinCount - 1))
  }

  method HistogramBins() returns (bins: seq<Bin>)
    ensures bins == BinLayout()
  {
    var binSize := 1.0 / BinCount as real;
    bins := [];
    for i := 0 to BinCount
      invariant bins == BinLayout()[..i]
    {
      var includeUpper := i == BinCount - 1;
      bins := bins + [Bin(binSize * i as real, binSize * (i + 1) as real, true, includeUpper)];
      assert BinLayout()[..i + 1] == BinLayout()[..i] + [BinLayout()[i]];
    }
  }

  /** The bins tile [0, 1]: every value in it falls in exactly one bin, and nothing
      outside it falls in any. */
  lemma BinsTile(x: real, i: nat)
    requires i < BinCount
    ensures InBin(BinLayout()[i], x) <==>
              (i as real / 10.0 <= x < (i + 1) as real / 10.0) || (i == BinCount - 1 && x == 1.0)
  {
  }

  lemma BinsCover(x: real)
    requires 0.0 <= x <= 1.0
    ensures exists i :: 0 <= i < BinCount && InBin(BinLayout()[i], x)
  {
    var k := (x * 10.0).Floor;
    var i := if k >= 10 then 9 else k;
    assert 0 <= i < 10;
    BinsTile(x, i);
  }

  lemma BinsDisjoint(x: real, i: nat, j: nat)
    requires i < j < BinCount
    ensures !(InBin(BinLayout()[i], x) && InBin(BinLayout()[j], x))
  {
    BinsTile(x, i);
    BinsTile(x, j);
    assert (i + 1) as real <= j as real;
  }

  lemma BinsOutside(x: real, i: nat)
    requires i < BinCount && (x < 0.0 || x > 1.0)
    ensures !InBin(BinLayout()[i], x)
  {
    BinsTile(x, i);
  }
}
