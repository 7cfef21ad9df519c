/** Sorting as the Java library does it: a stable sort on a numeric key, the
    natural order of doubles, and the enumeration of a hash collection, whose
    order Java leaves unspecified. */
module Sorting {
  import opened Seqs

  /** Non-decreasing in key. */
  ghost predicate SortedBy<T>(s: seq<T>, key: T -> real)
  {
    forall i, j :: 0 <= i < j < |s| ==> key(s[i]) <= key(s[j])
  }

  /** Non-increasing in key. */
  ghost predicate SortedDescBy<T>(s: seq<T>, key: T -> real)
  {
    forall i, j :: 0 <= i < j < |s| ==> key(s[i]) >= key(s[j])
  }

  /** Inserts x in front of the first element whose key is not below x's. */
  function InsertBy<T>(x: T, s: seq<T>, key: T -> real): (r: seq<T>)
    requires SortedBy(s, key)
    ensures SortedBy(r, key)
    ensures multiset(r) == multiset(s) + multiset{x}
  {
    if s == [] then [x]
    else if key(x) <= key(s[0]) then [x] + s
    else
      var tail := InsertBy(x, s[1..], key);
      InsertStep(x, s, tail, key);
      [s[0]] + tail
  }

  /** Putting the head back in front of the insertion into the rest keeps the order. */
  lemma InsertStep<T>(x: T, s: seq<T>, tail: seq<T>, key: T -> real)
    requires s != [] && SortedBy(s, key) && key(s[0]) < key(x)
    requires SortedBy(tail, key) && multiset(tail) == multiset(s[1..]) + multiset{x}
    ensures SortedBy([s[0]] + tail, key)
    ensures multiset([s[0]] + tail) == multiset(s) + multiset{x}
  {
    assert s == [s[0]] + s[1..];
    forall k | 0 <= k < |tail|
      ensures key(s[0]) <= key(tail[k])
    {
      assert tail[k] in multiset(tail);
      if tail[k] != x {
        assert tail[k] in multiset(s[1..]);
        var j :| 0 <= j < |s| - 1 && s[1..][j] == tail[k];
        assert s[j + 1] == tail[k];
      }
    }
    var r := [s[0]] + tail;
    forall i, j | 0 <= i < j < |r|
      ensures key(r[i]) <= key(r[j])
    {
      assert r[j] == tail[j - 1];
      if i > 0 {
        assert r[i] == tail[i - 1];
      }
    }
  }

  /** Stable insertion sort, ascending in key. */
  function SortBy<T>(s: seq<T>, key: T -> real): (r: seq<T>)
    ensures SortedBy(r, key)
    ensures multiset(r) == multiset(s)
  {
    if s == [] then []
    else
      assert s == [s[0]] + s[1..];
      InsertBy(s[0], SortBy(s[1..], key), key)
  }

  /** The key with its sign flipped; sorting ascending on it sorts descending. */
  function Negated<T>(key: T -> real): T -> real
  {
    (x: T) => -key(x)
  }

  /** Stable sort, descending in key (a comparator followed by reversed()). */
  function SortDescBy<T>(s: seq<T>, key: T -> real): (r: seq<T>)
    ensures SortedDescBy(r, key)
    ensures multiset(r) == multiset(s)
  {
    var r := SortBy(s, Negated(key));
    assert forall i, j :: 0 <= i < j < |r| ==> Negated(key)(r[i]) <= Negated(key)(r[j]);
    r
  }

  lemma SortDescLength<T>(s: seq<T>, key: T -> real)
    ensures |SortDescBy(s, key)| == |s|
  {
    assert |multiset(SortDescBy(s, key))| == |multiset(s)|;
  }

  /** The natural order of doubles, as a key. */
  function Identity(x: real): real { x }

  ghost predicate Ascending(s: seq<real>)
  {
    forall i, j :: 0 <= i < j < |s| ==> s[i] <= s[j]
  }

  ghost predicate NonIncreasing(s: seq<real>)
  {
    forall i, j :: 0 <= i < j < |s| ==> s[i] >= s[j]
  }

  /** Arrays.sort on a double[]: ascending numeric order. */
  function SortAscending(s: seq<real>): (r: seq<real>)
    ensures Ascending(r)
    ensures multiset(r) == multiset(s)
    ensures |r| == |s|
  {
    var r := SortBy(s, Identity);
    assert forall i, j :: 0 <= i < j < |r| ==> Identity(r[i]) <= Identity(r[j]);
    assert |multiset(r)| == |multiset(s)|;
    r
  }

  /** sorted(Comparator.reverseOrder()) on doubles: non-increasing order. */
  function SortDescending(s: seq<real>): (r: seq<real>)
    ensures NonIncreasing(r)
    ensures multiset(r) == multiset(s)
    ensures |r| == |s|
  {
    var a := SortAscending(s);
    ReversedMultiset(a);
    Reversed(a)
  }

  /** The smallest element of a non-empty sequence is the first in ascending order. */
  lemma {:induction false} AscendingHeadIsMin(s: seq<real>, x: real)
    requires Ascending(s) && x in multiset(s)
    ensures s[0] <= x
  {
    assert x in s;
  }

  /** Two ascending sequences with the same elements are equal. */
  lemma {:induction false} AscendingUnique(a: seq<real>, b: seq<real>)
    requires Ascending(a) && Ascending(b)
    requires multiset(a) == multiset(b)
    ensures a == b
    decreases |a|
  {
    assert |a| == |multiset(a)| == |multiset(b)| == |b|;
    if a != [] {
      assert a[0] in multiset(b);
      assert b[0] in multiset(a);
      AscendingHeadIsMin(b, a[0]);
      AscendingHeadIsMin(a, b[0]);
      assert a[0] == b[0];
      assert a == [a[0]] + a[1..];
      assert b == [b[0]] + b[1..];
      assert multiset(a) == multiset{a[0]} + multiset(a[1..]);
      assert multiset(b) == multiset{a[0]} + multiset(b[1..]);
      assert multiset(a[1..]) == multiset(a) - multiset{a[0]};
      assert multiset(b[1..]) == multiset(b) - multiset{a[0]};
      assert multiset(a[1..]) == multiset(b[1..]);
      AscendingUnique(a[1..], b[1..]);
    }
  }

  /** The order in which a HashMap or HashSet yields its elements: some
      enumeration of them without repetition, chosen by the collection. */
  method InSomeOrder<K>(keys: set<K>) returns (ks: seq<K>)
    ensures Distinct(ks)
    ensures forall k :: k in ks <==> k in keys
    ensures |ks| == |keys|
  {
    ks := [];
    var rest := keys;
    while rest != {}
      invariant rest !! (set k | k in ks)
      invariant forall k :: k in keys <==> k in rest || k in ks
      invariant Distinct(ks)
      invariant |ks| + |rest| == |keys|
      decreases |rest|
    {
      var k :| k in rest;
      ks := ks + [k];
      rest := rest - {k};
    }
  }
}
