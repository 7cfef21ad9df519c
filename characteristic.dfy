/** The characteristic report (cmd/CharacteristicReportGenerator): for one measured
    characteristic of the walked emails or threads, the values of the architectural
    and of the non-architectural ones, over all positive tags and per positive tag;
    and the breadth-first count of a thread's distinct senders. */
module CharacteristicReport {
  import opened Seqs
  import opened Emails
  import opened Strings
  import opened AnalysisUtils
  import ReportGen

  /** The characteristic values of the walked emails whose status against the given
      positive and negative tags is s, in walk order. */
  function ValuesWith(walk: seq<Email>, ch: Email -> int, positiveTags: seq<string>, negativeTags: seq<string>, s: AkStatus): seq<int>
  {
    if walk == [] then []
    else
      var last := walk[|walk| - 1];
      ValuesWith(walk[..|walk| - 1], ch, positiveTags, negativeTags, s) +
        (if GetStatus(last.tags, positiveTags, negativeTags) == s then [ch(last)] else [])
  }

  lemma ValuesWithSnoc(walk: seq<Email>, e: Email, ch: Email -> int, positiveTags: seq<string>, negativeTags: seq<string>, s: AkStatus)
    ensures ValuesWith(walk + [e], ch, positiveTags, negativeTags, s) ==
              ValuesWith(walk, ch, positiveTags, negativeTags, s) +
                (if GetStatus(e.tags, positiveTags, negativeTags) == s then [ch(e)] else [])
  {
    assert (walk + [e])[..|walk|] == walk;
  }

  /** Every walked email lands in exactly one of the three status lists; the unknown
      ones are the values the report drops. */
  lemma {:induction false} ValuesPartition(walk: seq<Email>, ch: Email -> int, positiveTags: seq<string>, negativeTags: seq<string>)
    ensures |ValuesWith(walk, ch, positiveTags, negativeTags, Architectural)| +
            |ValuesWith(walk, ch, positiveTags, negativeTags, NotArchitectural)| +
            |ValuesWith(walk, ch, positiveTags, negativeTags, Unknown)| == |walk|
  {
    if walk != [] {
      ValuesPartition(walk[..|walk| - 1], ch, positiveTags, negativeTags);
    }
  }

  /** A value is in a status list exactly when some walked email of that status has it. */
  lemma {:induction false} ValuesWithMember(walk: seq<Email>, ch: Email -> int, positiveTags: seq<string>, negativeTags: seq<string>, s: AkStatus, v: int)
    ensures v in ValuesWith(walk, ch, positiveTags, negativeTags, s) <==>
              exists i :: 0 <= i < |walk| && ch(walk[i]) == v && GetStatus(walk[i].tags, positiveTags, negativeTags) == s
  {
    if walk != [] {
      var init := walk[..|walk| - 1];
      ValuesWithMember(init, ch, positiveTags, negativeTags, s, v);
      assert forall i :: 0 <= i < |init| ==> init[i] == walk[i];
    }
  }

  /** Scoring against more positive tags makes more emails architectural and fewer
      non-architectural: with p1 within p2, the architectural values for p1 are among
      those for p2 and the non-architectural values for p2 among those for p1. In
      particular a single positive tag's lists sit inside the any-tag lists that way. */
  lemma {:induction false} StatusMonotone(walk: seq<Email>, ch: Email -> int, p1: seq<string>, p2: seq<string>, negativeTags: seq<string>)
    requires forall t :: t in p1 ==> t in p2
    ensures multiset(ValuesWith(walk, ch, p1, negativeTags, Architectural)) <= multiset(ValuesWith(walk, ch, p2, negativeTags, Architectural))
    ensures multiset(ValuesWith(walk, ch, p2, negativeTags, NotArchitectural)) <= multiset(ValuesWith(walk, ch, p1, negativeTags, NotArchitectural))
  {
    if walk != [] {
      var last := walk[|walk| - 1];
      StatusMonotone(walk[..|walk| - 1], ch, p1, p2, negativeTags);
      if AnyLowerIn(last.tags, p1) {
        var t :| t in last.tags && LowerCase(t) in p1;
        assert AnyLowerIn(last.tags, p2);
      }
    }
  }

  /** SizeData: the values of architectural and of non-architectural emails. */
  datatype SizeData = SizeData(akSizes: seq<int>, notAkSizes: seq<int>)

  /** The switch in each callback: an architectural value joins akSizes, a
      non-architectural one notAkSizes, an unknown one neither. */
  function Bucket(d: SizeData, s: AkStatus, v: int): SizeData
  {
    match s
    case Architectural => d.(akSizes := d.akSizes + [v])
    case NotArchitectural => d.(notAkSizes := d.notAkSizes + [v])
    case Unknown => d
  }

  /** The size data of a whole walk against the given tag sets. */
  function SizeDataOf(walk: seq<Email>, ch: Email -> int, positiveTags: seq<string>, negativeTags: seq<string>): SizeData
  {
    SizeData(ValuesWith(walk, ch, positiveTags, negativeTags, Architectural),
             ValuesWith(walk, ch, positiveTags, negativeTags, NotArchitectural))
  }

  /** Bucketing one more email is the size data of the longer walk. */
  lemma SizeDataOfSnoc(walk: seq<Email>, e: Email, ch: Email -> int, positiveTags: seq<string>, negativeTags: seq<string>)
    ensures SizeDataOf(walk + [e], ch, positiveTags, negativeTags) ==
              Bucket(SizeDataOf(walk, ch, positiveTags, negativeTags), GetStatus(e.tags, positiveTags, negativeTags), ch(e))
  {
    ValuesWithSnoc(walk, e, ch, positiveTags, negativeTags, Architectural);
    ValuesWithSnoc(walk, e, ch, positiveTags, negativeTags, NotArchitectural);
  }

  function Lookup(m: map<string, SizeData>, t: string): SizeData
  {
    if t in m then m[t] else SizeData([], [])
  }

  lemma PositiveTagsDistinct()
    ensures Distinct(ReportGen.PositiveTags)
  {
    var p := ReportGen.PositiveTags;
    assert p[3][10] != p[4][10];
  }

  /** The loop over the positive tags of one callback: computeIfAbsent gives every
      listed tag an entry, into which the value is bucketed by the status against
      that tag alone. */
  method BucketPerTag(tagData: map<string, SizeData>, tags: seq<string>, negativeTags: seq<string>, emailTags: seq<string>, v: int)
    returns (r: map<string, SizeData>)
    requires Distinct(tags)
    ensures r.Keys == tagData.Keys + set t | t in tags
    ensures forall t :: t in r ==>
              r[t] == if t in tags then Bucket(Lookup(tagData, t), GetStatus(emailTags, [t], negativeTags), v) else tagData[t]
  {
    r := tagData;
    for i := 0 to |tags|
      invariant r.Keys == tagData.Keys + set t | t in tags[..i]
      invariant forall t :: t in r ==>
                  r[t] == if t in tags[..i] then Bucket(Lookup(tagData, t), GetStatus(emailTags, [t], negativeTags), v) else tagData[t]
    {
      assert tags[..i + 1] == tags[..i] + [tags[i]];
      var tag := tags[i];
      assert tag !in tags[..i];
      var status := GetStatus(emailTags, [tag], negativeTags);
      var sizeData := Lookup(r, tag);
      r := r[tag := Bucket(sizeData, status, v)];
    }
    assert tags[..|tags|] == tags;
  }

  /** SizeDataSet: the any-tag data and one entry per positive tag. */
  class SizeDataSet {
    var anyTagData: SizeData
    var tagData: map<string, SizeData>

    /** The data after the given part of the walk: the any-tag lists by the status
        against all positive tags, and, once any email was seen, an entry for every
        positive tag holding the lists by the status against that tag alone. */
    ghost predicate After(walk: seq<Email>, ch: Email -> int)
      reads this
    {
      && anyTagData == SizeDataOf(walk, ch, ReportGen.PositiveTags, ReportGen.NegativeTags)
      && tagData.Keys == (if walk == [] then {} else set t | t in ReportGen.PositiveTags)
      && forall t :: t in tagData ==> tagData[t] == SizeDataOf(walk, ch, [t], ReportGen.NegativeTags)
    }

    constructor()
      ensures anyTagData == SizeData([], []) && tagData == map[]
    {
      anyTagData := SizeData([], []);
      tagData := map[];
    }

    /** The callback for one walked email with characteristic ch. */
    method Consume(e: Email, ch: Email -> int, ghost walk: seq<Email>)
      requires After(walk, ch)
      modifies this
      ensures After(walk + [e], ch)
    {
      var v := ch(e);
      var statusAnyTag := GetStatus(e.tags, ReportGen.PositiveTags, ReportGen.NegativeTags);
      anyTagData := Bucket(anyTagData, statusAnyTag, v);
      PositiveTagsDistinct();
      tagData := BucketPerTag(tagData, ReportGen.PositiveTags, ReportGen.NegativeTags, e.tags, v);
      SizeDataOfSnoc(walk, e, ch, ReportGen.PositiveTags, ReportGen.NegativeTags);
      forall t | t in tagData
        ensures tagData[t] == SizeDataOf(walk + [e], ch, [t], ReportGen.NegativeTags)
      {
        SizeDataOfSnoc(walk, e, ch, [t], ReportGen.NegativeTags);
      }
    }
  }

  /** One get*Data method: the walk's callback applied to every email in walk order. */
  method GetSizeData(walk: seq<Email>, ch: Email -> int) returns (data: SizeDataSet)
    ensures fresh(data) && data.After(walk, ch)
  {
    data := new SizeDataSet();
    for i := 0 to |walk|
      invariant data.After(walk[..i], ch)
    {
      assert walk[..i + 1] == walk[..i] + [walk[i]];
      data.Consume(walk[i], ch, walk[..i]);
    }
    assert walk[..|walk|] == walk;
  }

  /** email.body().length(). */
  function BodyLength(e: Email): int
  {
    |e.body|
  }

  /** countRepliesRecursive: the messages of the thread below its root. */
  function RepliesRecursive(e: Email): (n: int)
    ensures n == |Messages(e)| - 1 && n >= 0
  {
    MessagesLength(e);
    Size(e) - 1
  }

  /** The senders of a list of messages. */
  function Senders(ms: seq<Email>): set<string>
  {
    set m | m in ms :: m.sentFrom
  }

  lemma {:induction false} SendersAtMost(ms: seq<Email>)
    ensures |Senders(ms)| <= |ms|
  {
    if ms != [] {
      var init := ms[..|ms| - 1];
      SendersAtMost(init);
      assert ms == init + [ms[|ms| - 1]];
      SendersSnoc(init, ms[|ms| - 1]);
    }
  }

  lemma SendersSnoc(ms: seq<Email>, m: Email)
    ensures Senders(ms + [m]) == Senders(ms) + {m.sentFrom}
  {
  }

  /** The number of distinct senders over the root and all its descendants: at least
      the root's own sender, at most one per message. */
  function ParticipantCount(e: Email): (n: int)
    ensures 1 <= n <= Size(e)
  {
    SendersAtMost(Messages(e));
    MessagesLength(e);
    assert e.sentFrom in Senders(Messages(e));
    |Senders(Messages(e))|
  }

  /** The queue's messages and the dequeued ones together are the thread's messages. */
  ghost predicate Accounted(dequeued: seq<Email>, queue: seq<Email>, root: Email)
  {
    multiset(dequeued) + multiset(MessagesOfAll(queue)) == multiset(Messages(root))
  }

  /** One dequeue: the head's message moves from the queue to the dequeued ones, its
      replies join the queue, and the queue holds one message fewer. */
  lemma {:induction false} QueueStep(dequeued: seq<Email>, queue: seq<Email>, root: Email)
    requires queue != [] && Accounted(dequeued, queue, root)
    ensures Accounted(dequeued + [queue[0]], queue[1..] + queue[0].replies, root)
    ensures |MessagesOfAll(queue[1..] + queue[0].replies)| < |MessagesOfAll(queue)|
  {
    var next := queue[0];
    assert queue == [next] + queue[1..];
    MessagesOfAllCons(next, queue[1..]);
    MessagesOfAllAppend(queue[1..], next.replies);
    assert Messages(next) == [next] + MessagesOfAll(next.replies);
  }

  lemma {:induction false} QueueStart(root: Email)
    ensures Accounted([], [root], root)
  {
    MessagesOfAllCons(root, []);
    assert [root] + [] == [root];
    assert MessagesOfAll([]) == [];
  }

  /** Once the queue is empty, every message of the thread was dequeued. */
  lemma {:induction false} QueueDrained(dequeued: seq<Email>, root: Email)
    requires Accounted(dequeued, [], root)
    ensures multiset(dequeued) == multiset(Messages(root))
    ensures Senders(dequeued) == Senders(Messages(root))
  {
    assert MessagesOfAll([]) == [];
    forall m ensures m in dequeued <==> m in Messages(root) {
      assert m in dequeued <==> m in multiset(dequeued);
      assert m in Messages(root) <==> m in multiset(Messages(root));
    }
  }

  /** getUniqueParticipantCount: a breadth-first walk from the root, collecting each
      dequeued message's sender. Every message of the tree is dequeued exactly once. */
  method UniqueParticipantCount(root: Email) returns (count: int, ghost dequeued: seq<Email>)
    ensures count == ParticipantCount(root)
    ensures multiset(dequeued) == multiset(Messages(root))
  {
    var participants: set<string> := {};
    var queue: seq<Email> := [root];
    dequeued := [];
    QueueStart(root);
    while queue != []
      invariant Accounted(dequeued, queue, root)
      invariant participants == Senders(dequeued)
      decreases |MessagesOfAll(queue)|
    {
      var next := queue[0];
      QueueStep(dequeued, queue, root);
      participants := participants + {next.sentFrom};
      SendersSnoc(dequeued, next);
      dequeued := dequeued + [next];
      queue := queue[1..] + next.replies;
    }
    QueueDrained(dequeued, root);
    count := |participants|;
  }

  /** generate: the four characteristic data sets, body length and word count over the
      tagged emails, thread size and participation over the tagged threads. */
  method Generate(taggedEmails: seq<Email>, taggedThreads: seq<Email>, wordCount: Email -> int)
    returns (bodySize: SizeDataSet, words: SizeDataSet, threadSize: SizeDataSet, participation: SizeDataSet)
    ensures fresh(bodySize) && bodySize.After(taggedEmails, BodyLength)
    ensures fresh(words) && words.After(taggedEmails, wordCount)
    ensures fresh(threadSize) && threadSize.After(taggedThreads, RepliesRecursive)
    ensures fresh(participation) && participation.After(taggedThreads, ParticipantCount)
  {
    bodySize := GetSizeData(taggedEmails, BodyLength);
    words := GetSizeData(taggedEmails, wordCount);
    threadSize := GetSizeData(taggedThreads, RepliesRecursive);
    participation := GetSizeData(taggedThreads, ParticipantCount);
  }
}
