/** Sequence helpers shared by the model: sums, occurrence counts, reversal. */
module Seqs {

  /** An optional value: None stands for Java's null or an empty Optional. */
  datatype Option<T> = None | Some(value: T)

  /** Sum of a sequence of naturals, accumulated from the front as a
      left-to-right loop does. */
  function SumNat(xs: seq<nat>): nat
  {
    if xs == [] then 0 else SumNat(xs[..|xs| - 1]) + xs[|xs| - 1]
  }

  /** Sum of a sequence of reals, accumulated from the front. */
  function SumReal(xs: seq<real>): real
  {
    if xs == [] then 0.0 else SumReal(xs[..|xs| - 1]) + xs[|xs| - 1]
  }

  lemma SumNatSnoc(xs: seq<nat>, x: nat)
    ensures SumNat(xs + [x]) == SumNat(xs) + x
  {
    assert (xs + [x])[..|xs|] == xs;
  }

  lemma SumRealSnoc(xs: seq<real>, x: real)
    ensures SumReal(xs + [x]) == SumReal(xs) + x
  {
    assert (xs + [x])[..|xs|] == xs;
  }

  lemma {:induction false} SumNatAppend(xs: seq<nat>, ys: seq<nat>)
    ensures SumNat(xs + ys) == SumNat(xs) + SumNat(ys)
    decreases |ys|
  {
    if ys == [] {
      assert xs + ys == xs;
    } else {
      var init := ys[..|ys| - 1];
      assert xs + ys == (xs + init) + [ys[|ys| - 1]];
      SumNatSnoc(xs + init, ys[|ys| - 1]);
      SumNatAppend(xs, init);
      assert ys == init + [ys[|ys| - 1]];
      SumNatSnoc(init, ys[|ys| - 1]);
    }
  }

  /** Every element of xs lies in [lo, hi], so the sum lies in [n*lo, n*hi]. */
  lemma {:induction false} SumRealBounds(xs: seq<real>, lo: real, hi: real)
    requires forall i :: 0 <= i < |xs| ==> lo <= xs[i] <= hi
    ensures |xs| as real * lo <= SumReal(xs) <= |xs| as real * hi
  {
    if xs != [] {
      SumRealBounds(xs[..|xs| - 1], lo, hi);
    }
  }

  lemma {:induction false} SumRealNonNegative(xs: seq<real>)
    requires forall i :: 0 <= i < |xs| ==> xs[i] >= 0.0
    ensures SumReal(xs) >= 0.0
  {
    if xs != [] {
      SumRealNonNegative(xs[..|xs| - 1]);
    }
  }

  /** A sum of non-negative reals with a positive element is positive. */
  lemma {:induction false} SumRealPositive(xs: seq<real>, k: nat)
    requires forall i :: 0 <= i < |xs| ==> xs[i] >= 0.0
    requires k < |xs| && xs[k] > 0.0
    ensures SumReal(xs) > 0.0
  {
    var init := xs[..|xs| - 1];
    SumRealNonNegative(init);
    if k < |xs| - 1 {
      SumRealPositive(init, k);
    }
  }

  /** f applied to each non-empty prefix of s, shortest first. */
  function PrefixMap<T, U>(s: seq<T>, f: seq<T> -> U): (r: seq<U>)
    ensures |r| == |s|
  {
    if s == [] then [] else PrefixMap(s[..|s| - 1], f) + [f(s)]
  }

  /** Entry i is f of the first i + 1 elements. */
  lemma {:induction false} PrefixMapAt<T, U>(s: seq<T>, f: seq<T> -> U, i: nat)
    requires i < |s|
    ensures PrefixMap(s, f)[i] == f(s[..i + 1])
  {
    var init := s[..|s| - 1];
    if i < |init| {
      PrefixMapAt(init, f, i);
      assert init[..i + 1] == s[..i + 1];
    } else {
      assert s[..i + 1] == s;
    }
  }

  /** Mapping one more prefix appends f of it. */
  lemma PrefixMapStep<T, U>(s: seq<T>, f: seq<T> -> U, i: nat)
    requires i < |s|
    ensures PrefixMap(s[..i + 1], f) == PrefixMap(s[..i], f) + [f(s[..i + 1])]
  {
    assert s[..i + 1][..i] == s[..i];
  }

  /** Number of positions of s holding x. */
  function CountOcc<T(==)>(s: seq<T>, x: T): nat
  {
    if s == [] then 0 else CountOcc(s[..|s| - 1], x) + (if s[|s| - 1] == x then 1 else 0)
  }

  lemma CountOccSnoc<T>(s: seq<T>, y: T, x: T)
    ensures CountOcc(s + [y], x) == CountOcc(s, x) + (if y == x then 1 else 0)
  {
    assert (s + [y])[..|s|] == s;
  }

  lemma {:induction false} CountOccPositive<T>(s: seq<T>, x: T)
    ensures CountOcc(s, x) > 0 <==> x in s
  {
    if s != [] {
      CountOccPositive(s[..|s| - 1], x);
      assert s == s[..|s| - 1] + [s[|s| - 1]];
    }
  }

  /** No element occurs twice. */
  ghost predicate Distinct<T>(s: seq<T>)
  {
    forall i, j :: 0 <= i < j < |s| ==> s[i] != s[j]
  }

  lemma {:induction false} CountOccDistinct<T>(s: seq<T>, x: T)
    requires Distinct(s)
    ensures CountOcc(s, x) == if x in s then 1 else 0
  {
    if s != [] {
      var init := s[..|s| - 1];
      CountOccDistinct(init, x);
      assert s == init + [s[|s| - 1]];
      if s[|s| - 1] == x {
        assert x !in init;
      }
    }
  }

  /** The elements of s in the opposite order. */
  function Reversed<T>(s: seq<T>): seq<T>
  {
    seq(|s|, i requires 0 <= i < |s| => s[|s| - 1 - i])
  }

  lemma ReversedTwice<T>(s: seq<T>)
    ensures Reversed(Reversed(s)) == s
  {
  }

  lemma {:induction false} ReversedMultiset<T>(s: seq<T>)
    ensures multiset(Reversed(s)) == multiset(s)
    decreases |s|
  {
    if s != [] {
      var t := s[1..];
      assert Reversed(s) == Reversed(t) + [s[0]];
      ReversedMultiset(t);
      assert s == [s[0]] + t;
    }
  }

  /** The concatenation of a sequence of sequences, in order. */
  function Flatten<T>(xss: seq<seq<T>>): seq<T>
  {
    if xss == [] then [] else Flatten(xss[..|xss| - 1]) + xss[|xss| - 1]
  }

  lemma {:induction false} FlattenSnoc<T>(xss: seq<seq<T>>, xs: seq<T>)
    ensures Flatten(xss + [xs]) == Flatten(xss) + xs
  {
    assert (xss + [xs])[..|xss|] == xss;
  }

  lemma {:induction false} FlattenCons<T>(xs: seq<T>, xss: seq<seq<T>>)
    ensures Flatten([xs] + xss) == xs + Flatten(xss)
    decreases |xss|
  {
    if xss == [] {
      assert [xs] + xss == [] + [xs];
      FlattenSnoc([], xs);
    } else {
      var init := xss[..|xss| - 1];
      var last := xss[|xss| - 1];
      assert [xs] + xss == ([xs] + init) + [last];
      FlattenSnoc([xs] + init, last);
      FlattenCons(xs, init);
      assert xss == init + [last];
      FlattenSnoc(init, last);
    }
  }

  lemma {:induction false} FlattenAppend<T>(xss: seq<seq<T>>, yss: seq<seq<T>>)
    ensures Flatten(xss + yss) == Flatten(xss) + Flatten(yss)
    decreases |yss|
  {
    if yss == [] {
      assert xss + yss == xss;
    } else {
      var init := yss[..|yss| - 1];
      var last := yss[|yss| - 1];
      assert xss + yss == (xss + init) + [last];
      FlattenSnoc(xss + init, last);
      FlattenAppend(xss, init);
      assert yss == init + [last];
      FlattenSnoc(init, last);
    }
  }
}
