/** Tag-status classification and the ranking metrics (AnalysisUtils). */
module AnalysisUtils {
  import opened Seqs
  import opened Sorting
  import opened Strings

  /** Whether a message carries architectural knowledge. */
  datatype AkStatus = Architectural | NotArchitectural | Unknown

  /** Some tag name, lower-cased, is one of names. */
  predicate AnyLowerIn(tags: seq<string>, names: seq<string>)
  {
    exists t :: t in tags && LowerCase(t) in names
  }

  /** The status of a message with the given tag names: a positive tag wins over a
      negative one; a message matching neither set is unknown. */
  function GetStatus(tags: seq<string>, positiveTags: seq<string>, negativeTags: seq<string>): (s: AkStatus)
    ensures s == Architectural <==> AnyLowerIn(tags, positiveTags)
    ensures s == NotArchitectural <==> !AnyLowerIn(tags, positiveTags) && AnyLowerIn(tags, negativeTags)
    ensures s == Unknown <==> !AnyLowerIn(tags, positiveTags) && !AnyLowerIn(tags, negativeTags)
  {
    if AnyLowerIn(tags, positiveTags) then Architectural
    else if AnyLowerIn(tags, negativeTags) then NotArchitectural
    else Unknown
  }

  /** One positive tag makes the message architectural, whatever else it carries. */
  lemma PositiveTakesPrecedence(tags: seq<string>, positiveTags: seq<string>, negativeTags: seq<string>, i: nat)
    requires i < |tags| && LowerCase(tags[i]) in positiveTags
    ensures GetStatus(tags, positiveTags, negativeTags) == Architectural
  {
    assert tags[i] in tags;
  }

  /** A message without tags is unknown. */
  lemma UntaggedIsUnknown(positiveTags: seq<string>, negativeTags: seq<string>)
    ensures GetStatus([], positiveTags, negativeTags) == Unknown
  {
  }

  /** A configured name containing an upper-case letter never matches, because only
      the message's tag names are lower-cased: adding one to either set changes nothing. */
  lemma UpperCaseEntryNeverMatches(tags: seq<string>, positiveTags: seq<string>, negativeTags: seq<string>, entry: string, j: nat)
    requires j < |entry| && IsUpper(entry[j])
    ensures GetStatus(tags, positiveTags + [entry], negativeTags) == GetStatus(tags, positiveTags, negativeTags)
    ensures GetStatus(tags, positiveTags, negativeTags + [entry]) == GetStatus(tags, positiveTags, negativeTags)
  {
    forall t | t in tags
      ensures LowerCase(t) != entry
    {
      LowerCaseHasNoUpper(t, entry);
    }
    assert AnyLowerIn(tags, positiveTags + [entry]) == AnyLowerIn(tags, positiveTags);
    assert AnyLowerIn(tags, negativeTags + [entry]) == AnyLowerIn(tags, negativeTags);
  }

  /** Math.log(n) / Math.log(2), kept abstract: only log2(2) = 1 and log2(x) > 0 for
      x > 1 are known of it. */
  type Log2 = f: real -> real | f(2.0) == 1.0 && (forall x: real :: x > 1.0 ==> f(x) > 0.0)
    witness (x: real) => x / 2.0

  /** A quotient of doubles: Java yields NaN or an infinity when the divisor is 0,
      which the model names Undefined. */
  datatype Metric = Defined(value: real) | Undefined

  /** The gain of the value at position k (rank k + 1), discounted by log2(rank + 1). */
  function Gain(v: seq<real>, log2: Log2, k: nat): real
    requires k < |v|
  {
    v[k] / log2((k + 2) as real)
  }

  /** The sum of the gains from position k to the end. */
  function DcgFrom(v: seq<real>, log2: Log2, k: nat): real
    decreases |v| - k
  {
    if k >= |v| then 0.0 else Gain(v, log2, k) + DcgFrom(v, log2, k + 1)
  }

  /** Discounted cumulative gain of a ranked list of relevances. */
  function Dcg(v: seq<real>, log2: Log2): real
  {
    DcgFrom(v, log2, 0)
  }

  lemma {:induction false} DcgFromSnoc(v: seq<real>, x: real, log2: Log2, k: nat)
    requires k <= |v|
    ensures DcgFrom(v + [x], log2, k) == DcgFrom(v, log2, k) + x / log2((|v| + 2) as real)
    decreases |v| - k
  {
    if k < |v| {
      assert Gain(v + [x], log2, k) == Gain(v, log2, k);
      DcgFromSnoc(v, x, log2, k + 1);
    } else {
      assert Gain(v + [x], log2, k) == x / log2((|v| + 2) as real);
    }
  }

  /** DCG is built up one rank at a time: the new last value is discounted by
      log2(|v| + 2). */
  lemma DcgSnoc(v: seq<real>, x: real, log2: Log2)
    ensures Dcg(v + [x], log2) == Dcg(v, log2) + x / log2((|v| + 2) as real)
  {
    DcgFromSnoc(v, x, log2, 0);
  }

  /** The empty ranking has no gain, and the first rank is not discounted. */
  lemma DcgBase(x: real, log2: Log2)
    ensures Dcg([], log2) == 0.0
    ensures Dcg([x], log2) == x
  {
    DcgSnoc([], x, log2);
    assert [] + [x] == [x];
  }

  lemma {:induction false} DcgFromNonNegative(v: seq<real>, log2: Log2, k: nat)
    requires forall i :: 0 <= i < |v| ==> v[i] >= 0.0
    ensures DcgFrom(v, log2, k) >= 0.0
    ensures DcgFrom(v, log2, k) == 0.0 <==> forall i :: k <= i < |v| ==> v[i] == 0.0
    decreases |v| - k
  {
    if k < |v| {
      DcgFromNonNegative(v, log2, k + 1);
      assert log2((k + 2) as real) > 0.0;
    }
  }

  /** With non-negative relevances the DCG is non-negative, and it is zero exactly when
      every relevance is zero. */
  lemma DcgNonNegative(v: seq<real>, log2: Log2)
    requires forall i :: 0 <= i < |v| ==> v[i] >= 0.0
    ensures Dcg(v, log2) >= 0.0
    ensures Dcg(v, log2) == 0.0 <==> forall i :: 0 <= i < |v| ==> v[i] == 0.0
  {
    DcgFromNonNegative(v, log2, 0);
  }

  /** discountedCumulativeGain: the loop over ranks 1..n. */
  method DiscountedCumulativeGain(values: array<real>, log2: Log2) returns (sum: real)
    ensures sum == Dcg(values[..], log2)
  {
    sum := 0.0;
    var i := 1;
    while i <= values.Length
      invariant 1 <= i <= values.Length + 1
      invariant sum == Dcg(values[..i - 1], log2)
    {
      DcgSnoc(values[..i - 1], values[i - 1], log2);
      assert values[..i - 1] + [values[i - 1]] == values[..i];
      sum := sum + values[i - 1] / log2((i + 1) as real);
      i := i + 1;
    }
    assert values[..values.Length] == values[..];
  }

  /** reverse: swaps the two halves in place. */
  method Reverse(a: array<real>)
    modifies a
    ensures a[..] == Reversed(old(a[..]))
  {
    var n := a.Length;
    var i := 0;
    while i < n / 2
      invariant 0 <= i <= n / 2
      invariant forall k :: 0 <= k < i ==> a[k] == old(a[n - 1 - k]) && a[n - 1 - k] == old(a[k])
      invariant forall k :: i <= k < n - i ==> a[k] == old(a[k])
    {
      var tmp := a[i];
      a[i] := a[n - i - 1];
      a[n - i - 1] := tmp;
      i := i + 1;
    }
  }

  /** Arrays.sort on a double[]: the array now holds its values in ascending order. */
  method Sort(a: array<real>)
    modifies a
    ensures a[..] == SortAscending(old(a[..]))
  {
    var s := SortAscending(a[..]);
    forall k | 0 <= k < a.Length {
      a[k] := s[k];
    }
  }

  /** The ideal ranking of the values: highest relevance first. */
  function IdealOrder(v: seq<real>): (r: seq<real>)
    ensures NonIncreasing(r) && multiset(r) == multiset(v) && |r| == |v|
  {
    SortDescending(v)
  }

  /** Normalised DCG: the DCG of the ranking relative to that of its ideal order. */
  function Ndcg(v: seq<real>, log2: Log2): Metric
  {
    var ideal := Dcg(IdealOrder(v), log2);
    if ideal == 0.0 then Undefined else Defined(Dcg(v, log2) / ideal)
  }

  /** normalizedDiscountedCumulativeGain: copies the input, sorts and reverses the copy,
      and divides the two gains; the input array is only read. */
  method NormalizedDiscountedCumulativeGain(values: array<real>, log2: Log2) returns (r: Metric)
    ensures r == Ndcg(values[..], log2)
  {
    var sortedValues := new real[values.Length];
    forall k | 0 <= k < values.Length {
      sortedValues[k] := values[k];
    }
    assert sortedValues[..] == values[..];
    Sort(sortedValues);
    Reverse(sortedValues);
    var realGain := DiscountedCumulativeGain(values, log2);
    var idealGain := DiscountedCumulativeGain(sortedValues, log2);
    if idealGain == 0.0 {
      r := Undefined;
    } else {
      r := Defined(realGain / idealGain);
    }
  }

  /** Ordering a non-increasing list again gives the list itself. */
  lemma IdealOfNonIncreasing(v: seq<real>)
    requires NonIncreasing(v)
    ensures IdealOrder(v) == v
  {
    var a := SortAscending(v);
    ReversedMultiset(v);
    assert Ascending(Reversed(v));
    AscendingUnique(a, Reversed(v));
    ReversedTwice(v);
  }

  /** A ranking already in non-increasing order with non-zero gain has NDCG exactly 1. */
  lemma NdcgOfNonIncreasing(v: seq<real>, log2: Log2)
    requires NonIncreasing(v) && Dcg(v, log2) != 0.0
    ensures Ndcg(v, log2) == Defined(1.0)
  {
    IdealOfNonIncreasing(v);
    SelfQuotient(Dcg(v, log2));
  }

  lemma SelfQuotient(d: real)
    requires d != 0.0
    ensures d / d == 1.0
  {
  }

  /** The ideal ranking of non-negative relevances, not all zero, has NDCG exactly 1. */
  lemma NdcgOfIdealOrder(v: seq<real>, log2: Log2, i: nat)
    requires forall k :: 0 <= k < |v| ==> v[k] >= 0.0
    requires i < |v| && v[i] > 0.0
    ensures Ndcg(IdealOrder(v), log2) == Defined(1.0)
  {
    var w := IdealOrder(v);
    assert v[i] in multiset(w);
    var j :| 0 <= j < |w| && w[j] == v[i];
    forall k | 0 <= k < |w| ensures w[k] >= 0.0 {
      assert w[k] in multiset(v);
    }
    DcgNonNegative(w, log2);
    NdcgOfNonIncreasing(w, log2);
  }

  /** For non-negative relevances, NDCG is undefined exactly when every relevance is
      zero (Java's 0/0 = NaN). */
  lemma NdcgUndefinedIffAllZero(v: seq<real>, log2: Log2)
    requires forall k :: 0 <= k < |v| ==> v[k] >= 0.0
    ensures Ndcg(v, log2) == Undefined <==> forall k :: 0 <= k < |v| ==> v[k] == 0.0
  {
    var w := IdealOrder(v);
    forall k | 0 <= k < |w| ensures w[k] >= 0.0 {
      assert w[k] in multiset(v);
    }
    DcgNonNegative(w, log2);
    if forall k :: 0 <= k < |v| ==> v[k] == 0.0 {
      forall k | 0 <= k < |w| ensures w[k] == 0.0 {
        assert w[k] in multiset(v);
      }
    } else {
      var k :| 0 <= k < |v| && v[k] != 0.0;
      assert v[k] in multiset(w);
    }
  }
}
