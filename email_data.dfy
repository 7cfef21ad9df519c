/** EmailData: a thread loaded from the email repository together with, at every
    message, the sorted distinct names of all tags carried by its replies. */
module EmailDataBuild {
  import opened Seqs
  import opened Strings

  /** What the repository stores for one message. */
  datatype Entry = Entry(
    messageId: string,
    subject: string,
    sentFrom: string,
    tags: seq<string>,
    hidden: bool,
    body: string)

  /** The repository seen from one message id: either the stored entry with the
      repository views of its replies, or an id the repository cannot find. */
  datatype StoredEmail =
    | Stored(entry: Entry, replies: seq<StoredEmail>)
    | Missing(messageId: string)

  datatype EmailData = EmailData(
    messageId: string,
    subject: string,
    sentFrom: string,
    tags: seq<string>,
    tagsViaReplies: seq<string>,
    hidden: bool,
    replies: seq<EmailData>,
    body: string)

  /** fromMessageId: null (None) for an id the repository does not have; otherwise the
      entry's own fields, the loadable replies and the rolled-up reply tags. */
  function FromMessageId(s: StoredEmail): (r: Option<EmailData>)
    ensures r.None? <==> s.Missing?
    ensures r.Some? ==>
              r.value.messageId == s.entry.messageId && r.value.subject == s.entry.subject &&
              r.value.sentFrom == s.entry.sentFrom && r.value.tags == s.entry.tags &&
              r.value.hidden == s.entry.hidden && r.value.body == s.entry.body
    ensures r.Some? ==> StrictlySorted(r.value.tagsViaReplies)
    ensures r.Some? && s.replies == [] ==> r.value.replies == [] && r.value.tagsViaReplies == []
    decreases s, 1
  {
    match s
    case Missing(_) => None
    case Stored(entry, replies) =>
      var loaded := LoadAll(replies);
      Some(EmailData(entry.messageId, entry.subject, entry.sentFrom, entry.tags,
                     SortedDistinct(ReplyTagList(loaded)), entry.hidden, loaded, entry.body))
  }

  /** The replies that load, in order; the others are dropped. */
  function LoadAll(rs: seq<StoredEmail>): (r: seq<EmailData>)
    ensures |r| <= |rs|
    ensures forall d :: d in r <==> exists i :: 0 <= i < |rs| && FromMessageId(rs[i]) == Some(d)
    decreases rs, 0
  {
    if rs == [] then []
    else
      var init := LoadAll(rs[..|rs| - 1]);
      assert forall i :: 0 <= i < |rs| - 1 ==> rs[..|rs| - 1][i] == rs[i];
      match FromMessageId(rs[|rs| - 1])
      case None => init
      case Some(d) => init + [d]
  }

  /** Each reply's own tags followed by its rolled-up tags, reply after reply. */
  function ReplyTagList(ds: seq<EmailData>): (r: seq<string>)
    ensures forall t :: t in r <==> exists i :: 0 <= i < |ds| && (t in ds[i].tags || t in ds[i].tagsViaReplies)
  {
    if ds == [] then []
    else
      var init := ReplyTagList(ds[..|ds| - 1]);
      assert forall i :: 0 <= i < |ds| - 1 ==> ds[..|ds| - 1][i] == ds[i];
      init + ds[|ds| - 1].tags + ds[|ds| - 1].tagsViaReplies
  }

  /** Every tag carried by a message or any of its descendants. */
  ghost function TreeTags(d: EmailData): set<string>
    decreases d, 1
  {
    (set t | t in d.tags) + DescendantTags(d.replies)
  }

  /** Every tag carried anywhere in a list of threads. */
  ghost function DescendantTags(ds: seq<EmailData>): set<string>
    decreases ds, 0
  {
    if ds == [] then {} else DescendantTags(ds[..|ds| - 1]) + TreeTags(ds[|ds| - 1])
  }

  lemma {:induction false} DescendantTagsMember(ds: seq<EmailData>, t: string)
    ensures t in DescendantTags(ds) <==> exists i :: 0 <= i < |ds| && t in TreeTags(ds[i])
  {
    if ds != [] {
      var init := ds[..|ds| - 1];
      DescendantTagsMember(init, t);
      assert forall i :: 0 <= i < |init| ==> init[i] == ds[i];
    }
  }

  /** At this message and at every message below it, tagsViaReplies lists exactly the
      tags of the strict descendants, sorted and without duplicates. */
  ghost predicate RolledUp(d: EmailData)
    decreases d
  {
    && StrictlySorted(d.tagsViaReplies)
    && (forall t :: t in d.tagsViaReplies <==> t in DescendantTags(d.replies))
    && (forall i :: 0 <= i < |d.replies| ==> RolledUp(d.replies[i]))
  }

  lemma ReplyTagsAreDescendantTags(ds: seq<EmailData>, t: string)
    requires forall i :: 0 <= i < |ds| ==> RolledUp(ds[i])
    ensures t in ReplyTagList(ds) <==> t in DescendantTags(ds)
  {
    DescendantTagsMember(ds, t);
    forall i | 0 <= i < |ds|
      ensures t in TreeTags(ds[i]) <==> t in ds[i].tags || t in ds[i].tagsViaReplies
    {
      assert RolledUp(ds[i]);
    }
  }

  /** The rollup holds throughout every thread fromMessageId builds. */
  lemma {:induction false} FromMessageIdRolledUp(s: StoredEmail)
    requires s.Stored?
    ensures RolledUp(FromMessageId(s).value)
    decreases s, 1
  {
    var loaded := LoadAll(s.replies);
    LoadAllRolledUp(s.replies);
    forall t ensures t in SortedDistinct(ReplyTagList(loaded)) <==> t in DescendantTags(loaded) {
      ReplyTagsAreDescendantTags(loaded, t);
    }
  }

  lemma {:induction false} LoadAllRolledUp(rs: seq<StoredEmail>)
    ensures forall i :: 0 <= i < |LoadAll(rs)| ==> RolledUp(LoadAll(rs)[i])
    decreases rs, 0
  {
    forall i | 0 <= i < |LoadAll(rs)| ensures RolledUp(LoadAll(rs)[i]) {
      assert LoadAll(rs)[i] in LoadAll(rs);
      var j :| 0 <= j < |rs| && FromMessageId(rs[j]) == Some(LoadAll(rs)[i]);
      FromMessageIdRolledUp(rs[j]);
    }
  }

  /** The email's own tags are the entry's tags; they enter tagsViaReplies only when some
      descendant carries them too. */
  lemma OwnTagsNotMerged(s: StoredEmail, t: string)
    requires s.Stored? && t in s.entry.tags
    ensures FromMessageId(s).value.tags == s.entry.tags
    ensures t in FromMessageId(s).value.tagsViaReplies <==> t in DescendantTags(FromMessageId(s).value.replies)
  {
    FromMessageIdRolledUp(s);
  }

  /** Java's 32-bit signed wrap-around of an int result. */
  function Wrap32(x: int): (r: int)
    ensures -0x8000_0000 <= r < 0x8000_0000
    ensures (r - x) % 0x1_0000_0000 == 0
  {
    var m := x % 0x1_0000_0000;
    if m >= 0x8000_0000 then m - 0x1_0000_0000 else m
  }

  /** String.hashCode: h = 31 * h + c over the characters, in 32-bit arithmetic. */
  function StringHash(s: string): (h: int)
    ensures -0x8000_0000 <= h < 0x8000_0000
  {
    if s == [] then 0 else Wrap32(31 * StringHash(s[..|s| - 1]) + s[|s| - 1] as int)
  }

  lemma StringHashExample()
    ensures StringHash("") == 0 && StringHash("a") == 97 && StringHash("ab") == 3105
  {
    assert "ab"[..1] == "a";
    assert "a"[..0] == "";
  }

  /** equals: two EmailData are equal iff their message ids are. */
  predicate Equals(a: EmailData, b: EmailData)
  {
    a.messageId == b.messageId
  }

  /** hashCode: Objects.hash(messageId) == 31 * 1 + messageId.hashCode(), wrapped. */
  function HashCode(d: EmailData): (h: int)
    ensures -0x8000_0000 <= h < 0x8000_0000
  {
    Wrap32(31 + StringHash(d.messageId))
  }

  lemma EqualsIsEquivalence(a: EmailData, b: EmailData, c: EmailData)
    ensures Equals(a, a)
    ensures Equals(a, b) ==> Equals(b, a)
    ensures Equals(a, b) && Equals(b, c) ==> Equals(a, c)
  {
  }

  lemma EqualsImpliesEqualHash(a: EmailData, b: EmailData)
    requires Equals(a, b)
    ensures HashCode(a) == HashCode(b)
  {
  }
}
