/** A message thread as the email and tag repositories expose it: a message,
    the names of its tags, its sender, its body and its replies. Replies form a
    finite tree, so every recursive descent terminates and threads are acyclic
    by construction. */
module Emails {
  import opened Seqs

  datatype Email = Email(
    id: int,
    messageId: string,
    sentFrom: string,
    body: string,
    tags: seq<string>,
    replies: seq<Email>)

  /** Number of messages in the thread, the root included. */
  function Size(e: Email): (n: nat)
    ensures n >= 1
    decreases e, 1
  {
    1 + SizeOfAll(e.replies)
  }

  /** Every message of the thread, the root first, then each reply's thread in turn. */
  function Messages(e: Email): seq<Email>
    decreases e, 1
  {
    [e] + MessagesOfAll(e.replies)
  }

  /** All messages of a list of threads, one thread after the other. */
  function MessagesOfAll(es: seq<Email>): seq<Email>
    decreases es, 0
  {
    Flatten(seq(|es|, i requires 0 <= i < |es| => Messages(es[i])))
  }

  lemma {:induction false} MessagesOfAllCons(e: Email, es: seq<Email>)
    ensures MessagesOfAll([e] + es) == Messages(e) + MessagesOfAll(es)
  {
    var all := seq(|[e] + es|, i requires 0 <= i < |[e] + es| => Messages(([e] + es)[i]));
    var rest := seq(|es|, i requires 0 <= i < |es| => Messages(es[i]));
    assert all == [Messages(e)] + rest;
    FlattenCons(Messages(e), rest);
  }

  lemma MessagesOfAllAppend(es: seq<Email>, fs: seq<Email>)
    ensures MessagesOfAll(es + fs) == MessagesOfAll(es) + MessagesOfAll(fs)
  {
    var a := seq(|es|, i requires 0 <= i < |es| => Messages(es[i]));
    var b := seq(|fs|, i requires 0 <= i < |fs| => Messages(fs[i]));
    assert seq(|es + fs|, i requires 0 <= i < |es + fs| => Messages((es + fs)[i])) == a + b;
    FlattenAppend(a, b);
  }

  /** Total size of a list of threads. */
  function SizeOfAll(es: seq<Email>): nat
    decreases es, 0
  {
    SumNat(seq(|es|, i requires 0 <= i < |es| => Size(es[i])))
  }

  lemma {:induction false} SizeOfAllCons(e: Email, es: seq<Email>)
    ensures SizeOfAll([e] + es) == Size(e) + SizeOfAll(es)
  {
    var all := seq(|[e] + es|, i requires 0 <= i < |[e] + es| => Size(([e] + es)[i]));
    var rest := seq(|es|, i requires 0 <= i < |es| => Size(es[i]));
    assert all == [Size(e)] + rest;
    SumNatAppend([Size(e)], rest);
    assert [Size(e)] == [] + [Size(e)];
  }

  lemma SizeOfAllAppend(es: seq<Email>, fs: seq<Email>)
    ensures SizeOfAll(es + fs) == SizeOfAll(es) + SizeOfAll(fs)
  {
    var a := seq(|es|, i requires 0 <= i < |es| => Size(es[i]));
    var b := seq(|fs|, i requires 0 <= i < |fs| => Size(fs[i]));
    assert seq(|es + fs|, i requires 0 <= i < |es + fs| => Size((es + fs)[i])) == a + b;
    SumNatAppend(a, b);
  }

  /** Listing the thread visits each message once: the list is as long as the thread. */
  lemma {:induction false} MessagesLength(e: Email)
    ensures |Messages(e)| == Size(e)
    decreases e, 1
  {
    MessagesOfAllLength(e.replies);
  }

  lemma {:induction false} MessagesOfAllLength(es: seq<Email>)
    ensures |MessagesOfAll(es)| == SizeOfAll(es)
    decreases es, 0
  {
    if es != [] {
      assert es == [es[0]] + es[1..];
      MessagesOfAllCons(es[0], es[1..]);
      SizeOfAllCons(es[0], es[1..]);
      MessagesLength(es[0]);
      MessagesOfAllLength(es[1..]);
    }
  }
}

/** The tag vocabulary the reports are configured with (ReportGen). */
module ReportGen {
  /** The tags that mark architectural knowledge. */
  const PositiveTags: seq<string> :=
    ["technology", "process", "existence", "existence-structural", "existence-behavioral", "property"]

  /** The tag that marks a message as not architectural. */
  const NegativeTags: seq<string> := ["not-ak"]
}
