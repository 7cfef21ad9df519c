/** Ordered tag permutations for n-gram pattern mining
    (cmd/PatternReportGenerator.generateTagPermutations). */
module Permutations {
  import opened Seqs

  /** One single-tag pattern per tag, in the order of the tags. */
  function Singletons(tags: seq<string>): (r: seq<seq<string>>)
    ensures |r| == |tags|
  {
    seq(|tags|, i requires 0 <= i < |tags| => [tags[i]])
  }

  /** p extended by each tag it does not yet contain, in the order of the tags. */
  function Extend(p: seq<string>, tags: seq<string>): seq<seq<string>>
  {
    if tags == [] then []
    else
      var t := tags[|tags| - 1];
      Extend(p, tags[..|tags| - 1]) + (if t in p then [] else [p + [t]])
  }

  /** Every pattern of ps extended in turn. */
  function ExtendAll(ps: seq<seq<string>>, tags: seq<string>): seq<seq<string>>
  {
    if ps == [] then [] else ExtendAll(ps[..|ps| - 1], tags) + Extend(ps[|ps| - 1], tags)
  }

  /** The patterns generateTagPermutations(size, tags) returns. */
  function Perms(size: int, tags: seq<string>): seq<seq<string>>
    decreases size
  {
    if size <= 0 then []
    else if size == 1 then Singletons(tags)
    else ExtendAll(Perms(size - 1, tags), tags)
  }

  /** generateTagPermutations: singletons for size 1; otherwise each permutation of
      size - 1, copied and extended by each tag it lacks. */
  method GenerateTagPermutations(size: int, tags: seq<string>) returns (permutations: seq<seq<string>>)
    ensures permutations == Perms(size, tags)
    decreases size
  {
    if size <= 0 {
      permutations := [];
    } else if size == 1 {
      permutations := SingletonPermutations(tags);
    } else {
      var firstPermutations := GenerateTagPermutations(size - 1, tags);
      permutations := ExtendEach(firstPermutations, tags);
    }
  }

  /** The size-1 case: one singleton list per tag. */
  method SingletonPermutations(tags: seq<string>) returns (permutations: seq<seq<string>>)
    ensures permutations == Singletons(tags)
  {
    permutations := [];
    for i := 0 to |tags|
      invariant permutations == Singletons(tags)[..i]
    {
      var singleton := [tags[i]];
      assert Singletons(tags)[..i + 1] == Singletons(tags)[..i] + [singleton];
      permutations := permutations + [singleton];
    }
  }

  /** The outer loop of the recursive case: each permutation of size - 1 in turn. */
  method ExtendEach(firstPermutations: seq<seq<string>>, tags: seq<string>) returns (permutations: seq<seq<string>>)
    ensures permutations == ExtendAll(firstPermutations, tags)
  {
    permutations := [];
    for k := 0 to |firstPermutations|
      invariant permutations == ExtendAll(firstPermutations[..k], tags)
    {
      permutations := AddExtensions(permutations, firstPermutations[k], tags);
      assert firstPermutations[..k + 1][..k] == firstPermutations[..k];
    }
    assert firstPermutations[..|firstPermutations|] == firstPermutations;
  }

  /** The inner loop: a copy of the permutation extended by each tag it lacks, appended
      in the order of the tags. */
  method AddExtensions(permutations: seq<seq<string>>, permutation: seq<string>, tags: seq<string>)
    returns (r: seq<seq<string>>)
    ensures r == permutations + Extend(permutation, tags)
  {
    r := permutations;
    for j := 0 to |tags|
      invariant r == permutations + Extend(permutation, tags[..j])
    {
      assert tags[..j + 1][..j] == tags[..j];
      if tags[j] !in permutation {
        var newPermutation := permutation + [tags[j]];
        r := r + [newPermutation];
      }
    }
    assert tags[..|tags|] == tags;
  }

  /** The elements of Extend(p, tags): p followed by one tag of tags that p lacks. */
  lemma {:induction false} ExtendMember(p: seq<string>, tags: seq<string>, x: seq<string>)
    ensures x in Extend(p, tags) <==> |x| == |p| + 1 && x[..|p|] == p && x[|p|] in tags && x[|p|] !in p
  {
    if tags != [] {
      var init := tags[..|tags| - 1];
      var t := tags[|tags| - 1];
      ExtendMember(p, init, x);
      assert tags == init + [t];
      if |x| == |p| + 1 && x[..|p|] == p && x[|p|] == t {
        assert x == p + [t];
      }
    }
  }

  /** The elements of ExtendAll(ps, tags): a pattern of ps followed by a tag it lacks. */
  lemma {:induction false} ExtendAllMember(ps: seq<seq<string>>, tags: seq<string>, x: seq<string>)
    ensures x in ExtendAll(ps, tags) <==>
              |x| >= 1 && x[..|x| - 1] in ps && x[|x| - 1] in tags && x[|x| - 1] !in x[..|x| - 1]
  {
    if ps != [] {
      var init := ps[..|ps| - 1];
      var last := ps[|ps| - 1];
      ExtendAllMember(init, tags, x);
      ExtendMember(last, tags, x);
      assert ExtendAll(ps, tags) == ExtendAll(init, tags) + Extend(last, tags);
      if |x| >= 1 {
        var p := x[..|x| - 1];
        assert ps == init + [last];
        assert p in ps <==> p in init || p == last;
        assert (|x| == |last| + 1 && x[..|last|] == last) <==> p == last;
      }
    }
  }

  /** x is an ordered arrangement of size distinct tags taken from tags. */
  ghost predicate IsArrangement(x: seq<string>, size: int, tags: seq<string>)
  {
    |x| == size && Distinct(x) && forall i :: 0 <= i < |x| ==> x[i] in tags
  }

  lemma DistinctSnoc(p: seq<string>, t: string)
    ensures Distinct(p + [t]) <==> Distinct(p) && t !in p
  {
    var q := p + [t];
    if Distinct(p) && t !in p {
      forall i, j | 0 <= i < j < |q| ensures q[i] != q[j] {
        if j == |p| {
          assert q[i] in p;
        }
      }
    }
    if Distinct(q) {
      assert forall i, j :: 0 <= i < j < |p| ==> q[i] == p[i] && q[j] == p[j];
      forall i | 0 <= i < |p| ensures p[i] != t {
        assert q[i] != q[|p|];
      }
    }
  }

  lemma SingletonsMembers(tags: seq<string>, x: seq<string>)
    ensures x in Singletons(tags) <==> IsArrangement(x, 1, tags)
  {
    if x in Singletons(tags) {
      var i :| 0 <= i < |tags| && Singletons(tags)[i] == x;
    }
    if IsArrangement(x, 1, tags) {
      assert x[0] in tags;
      var i :| 0 <= i < |tags| && tags[i] == x[0];
      assert x == [x[0]];
      assert Singletons(tags)[i] == x;
    }
  }

  /** An arrangement of size >= 2 is an arrangement of size - 1 followed by a tag it lacks. */
  lemma ArrangementSnoc(x: seq<string>, size: int, tags: seq<string>)
    requires size >= 2 && |x| == size
    ensures IsArrangement(x, size, tags) <==>
              IsArrangement(x[..|x| - 1], size - 1, tags) && x[|x| - 1] in tags && x[|x| - 1] !in x[..|x| - 1]
  {
    var p := x[..|x| - 1];
    var t := x[|x| - 1];
    assert x == p + [t];
    DistinctSnoc(p, t);
    assert forall i :: 0 <= i < |p| ==> p[i] == x[i];
  }

  /** The output of generateTagPermutations is exactly the set of arrangements of size
      distinct tags: every output has length size, uses only the tags and repeats none,
      and every such arrangement is produced. */
  lemma {:induction false} PermsMembers(size: int, tags: seq<string>, x: seq<string>)
    requires size >= 1
    ensures x in Perms(size, tags) <==> IsArrangement(x, size, tags)
    decreases size
  {
    if size == 1 {
      SingletonsMembers(tags, x);
    } else {
      var prev := Perms(size - 1, tags);
      assert Perms(size, tags) == ExtendAll(prev, tags);
      forall y ensures y in prev <==> IsArrangement(y, size - 1, tags) {
        PermsMembers(size - 1, tags, y);
      }
      ExtendAllArrangements(prev, tags, size, x);
    }
  }

  /** Extending exactly the arrangements of size - 1 gives exactly those of size. */
  lemma ExtendAllArrangements(prev: seq<seq<string>>, tags: seq<string>, size: int, x: seq<string>)
    requires size >= 2
    requires forall y :: y in prev <==> IsArrangement(y, size - 1, tags)
    ensures x in ExtendAll(prev, tags) <==> IsArrangement(x, size, tags)
  {
    ExtendAllMember(prev, tags, x);
    if |x| >= 1 {
      var p := x[..|x| - 1];
      assert p in prev <==> IsArrangement(p, size - 1, tags);
      if |x| == size {
        ArrangementSnoc(x, size, tags);
      }
    }
  }

  /** Sizes of zero or less give no patterns. */
  lemma NonPositiveSizeGivesNothing(size: int, tags: seq<string>)
    requires size <= 0
    ensures Perms(size, tags) == []
  {
  }

  /** The number of ordered arrangements of k out of n: n! / (n - k)!, and 0 for k > n. */
  function FallingFactorial(n: nat, k: nat): nat
  {
    if k == 0 then 1 else FallingFactorial(n, k - 1) * (if k <= n then n - k + 1 else 0)
  }

  function Factorial(n: nat): nat
  {
    if n == 0 then 1 else n * Factorial(n - 1)
  }

  /** FallingFactorial(n, k) * (n - k)! == n!, and there are none for k > n. */
  lemma {:induction false} FallingFactorialValue(n: nat, k: nat)
    ensures k <= n ==> FallingFactorial(n, k) * Factorial(n - k) == Factorial(n)
    ensures k > n ==> FallingFactorial(n, k) == 0
  {
    if k > 0 {
      FallingFactorialValue(n, k - 1);
      if k <= n {
        calc {
          FallingFactorial(n, k) * Factorial(n - k);
          FallingFactorial(n, k - 1) * (n - k + 1) * Factorial(n - k);
          { assert (n - k + 1) * Factorial(n - k) == Factorial(n - (k - 1)); }
          FallingFactorial(n, k - 1) * Factorial(n - (k - 1));
        }
      }
    }
  }

  /** How many of tags p lacks. */
  function CountLacking(tags: seq<string>, p: seq<string>): nat
  {
    if tags == [] then 0
    else CountLacking(tags[..|tags| - 1], p) + (if tags[|tags| - 1] in p then 0 else 1)
  }

  /** Extending adds one pattern per tag p lacks. */
  lemma {:induction false} ExtendLacking(p: seq<string>, tags: seq<string>)
    ensures |Extend(p, tags)| == CountLacking(tags, p)
  {
    if tags != [] {
      ExtendLacking(p, tags[..|tags| - 1]);
    }
  }

  /** The empty pattern lacks every tag. */
  lemma {:induction false} CountLackingEmpty(tags: seq<string>)
    ensures CountLacking(tags, []) == |tags|
  {
    if tags != [] {
      CountLackingEmpty(tags[..|tags| - 1]);
    }
  }

  /** Adding a new tag q to p makes it lack every occurrence of q fewer. */
  lemma {:induction false} CountLackingSnoc(tags: seq<string>, p: seq<string>, q: string)
    requires q !in p
    ensures CountLacking(tags, p + [q]) + CountOcc(tags, q) == CountLacking(tags, p)
  {
    if tags != [] {
      var t := tags[|tags| - 1];
      CountLackingSnoc(tags[..|tags| - 1], p, q);
      assert t in p + [q] <==> t in p || t == q;
    }
  }

  /** A pattern of k distinct tags out of n distinct tags lacks n - k of them. */
  lemma {:induction false} CountLackingArrangement(p: seq<string>, tags: seq<string>)
    requires Distinct(tags) && Distinct(p) && forall i :: 0 <= i < |p| ==> p[i] in tags
    ensures CountLacking(tags, p) + |p| == |tags|
  {
    if p == [] {
      CountLackingEmpty(tags);
    } else {
      var init := p[..|p| - 1];
      var q := p[|p| - 1];
      assert p == init + [q];
      DistinctSnoc(init, q);
      assert forall i :: 0 <= i < |init| ==> init[i] == p[i];
      CountLackingArrangement(init, tags);
      CountLackingSnoc(tags, init, q);
      CountOccDistinct(tags, q);
    }
  }

  /** A pattern made of k distinct tags out of n distinct tags has n - k extensions. */
  lemma ExtendCount(p: seq<string>, tags: seq<string>)
    requires Distinct(tags) && Distinct(p) && forall i :: 0 <= i < |p| ==> p[i] in tags
    ensures |p| <= |tags| && |Extend(p, tags)| == |tags| - |p|
  {
    ExtendLacking(p, tags);
    CountLackingArrangement(p, tags);
  }

  lemma {:induction false} ExtendAllCount(ps: seq<seq<string>>, tags: seq<string>, k: nat)
    requires Distinct(tags)
    requires forall i :: 0 <= i < |ps| ==> IsArrangement(ps[i], k, tags)
    ensures |ExtendAll(ps, tags)| == |ps| * (if k <= |tags| then |tags| - k else 0)
  {
    if ps != [] {
      var c := if k <= |tags| then |tags| - k else 0;
      ExtendAllCount(ps[..|ps| - 1], tags, k);
      ExtendCount(ps[|ps| - 1], tags);
      assert |Extend(ps[|ps| - 1], tags)| == c;
      assert (|ps| - 1) * c + c == |ps| * c;
    }
  }

  /** Every generated pattern of a size >= 1 is an arrangement of that size: its tags
      come from `tags` and none repeats. */
  lemma PermsAreArrangements(size: int, tags: seq<string>)
    requires size >= 1
    ensures forall i :: 0 <= i < |Perms(size, tags)| ==> IsArrangement(Perms(size, tags)[i], size, tags)
  {
    var ps := Perms(size, tags);
    forall i | 0 <= i < |ps| ensures IsArrangement(ps[i], size, tags) {
      PermsMembers(size, tags, ps[i]);
    }
  }

  /** With n distinct tags there are n! / (n - size)! patterns of each size >= 1, none
      when size exceeds n (the falling factorial then has a zero factor). */
  lemma {:induction false} PermsCount(size: int, tags: seq<string>)
    requires size >= 1 && Distinct(tags)
    ensures |Perms(size, tags)| == FallingFactorial(|tags|, size)
    decreases size
  {
    if size > 1 {
      var n := |tags|;
      PermsCount(size - 1, tags);
      var prev := Perms(size - 1, tags);
      assert Perms(size, tags) == ExtendAll(prev, tags);
      PermsAreArrangements(size - 1, tags);
      ExtendAllCount(prev, tags, size - 1);
      var c := if size - 1 <= n then n - (size - 1) else 0;
      assert c == (if size <= n then n - size + 1 else 0);
      assert FallingFactorial(n, size) == FallingFactorial(n, size - 1) * c;
    }
  }

  lemma DistinctAppend<T>(a: seq<T>, b: seq<T>)
    requires Distinct(a) && Distinct(b)
    requires forall x :: x in a ==> x !in b
    ensures Distinct(a + b)
  {
    var c := a + b;
    forall i, j | 0 <= i < j < |c| ensures c[i] != c[j] {
      if i < |a| && j >= |a| {
        assert c[i] in a && c[j] in b;
      }
    }
  }

  lemma {:induction false} ExtendDistinct(p: seq<string>, tags: seq<string>)
    requires Distinct(tags)
    ensures Distinct(Extend(p, tags))
  {
    if tags != [] {
      var init := tags[..|tags| - 1];
      var t := tags[|tags| - 1];
      assert tags == init + [t];
      assert Distinct(init) && t !in init by { DistinctSnoc(init, t); }
      ExtendDistinct(p, init);
      var tail := if t in p then [] else [p + [t]];
      forall x | x in Extend(p, init) ensures x !in tail {
        ExtendMember(p, init, x);
      }
      DistinctAppend(Extend(p, init), tail);
    }
  }

  lemma {:induction false} ExtendAllDistinct(ps: seq<seq<string>>, tags: seq<string>)
    requires Distinct(tags) && Distinct(ps)
    ensures Distinct(ExtendAll(ps, tags))
  {
    if ps != [] {
      var init := ps[..|ps| - 1];
      var last := ps[|ps| - 1];
      assert ps == init + [last];
      assert Distinct(init) && last !in init by {
        forall i | 0 <= i < |init| ensures init[i] != last {
          assert ps[i] != ps[|ps| - 1];
        }
      }
      ExtendAllDistinct(init, tags);
      ExtendDistinct(last, tags);
      forall x | x in ExtendAll(init, tags) ensures x !in Extend(last, tags) {
        ExtendAllMember(init, tags, x);
        ExtendMember(last, tags, x);
      }
      DistinctAppend(ExtendAll(init, tags), Extend(last, tags));
    }
  }

  /** With distinct tags no pattern is generated twice. */
  lemma {:induction false} PermsDistinct(size: int, tags: seq<string>)
    requires Distinct(tags)
    ensures Distinct(Perms(size, tags))
    decreases size
  {
    if size == 1 {
      forall i, j | 0 <= i < j < |tags| ensures Singletons(tags)[i] != Singletons(tags)[j] {
        assert Singletons(tags)[i][0] == tags[i];
      }
    } else if size > 1 {
      PermsDistinct(size - 1, tags);
      ExtendAllDistinct(Perms(size - 1, tags), tags);
    }
  }
}

/** The order in which generateTagPermutations emits its patterns. */
module PermutationOrder {
  import opened Seqs
  import opened Permutations

  /** Tag a occurs in tags before tag b. */
  ghost predicate PrecedesIn(tags: seq<string>, a: string, b: string)
  {
    exists i, j :: 0 <= i < j < |tags| && tags[i] == a && tags[j] == b
  }

  /** x comes before y in the lexicographic order of tag positions: they agree up to
      some position k, where x's tag occurs earlier in tags than y's. */
  ghost predicate LexBefore(x: seq<string>, y: seq<string>, tags: seq<string>)
  {
    exists k :: 0 <= k < |x| && k < |y| && x[..k] == y[..k] && PrecedesIn(tags, x[k], y[k])
  }

  ghost predicate LexSorted(ps: seq<seq<string>>, tags: seq<string>)
  {
    forall a, b :: 0 <= a < b < |ps| ==> LexBefore(ps[a], ps[b], tags)
  }

  lemma LexSortedAppend(xs: seq<seq<string>>, ys: seq<seq<string>>, tags: seq<string>)
    requires LexSorted(xs, tags) && LexSorted(ys, tags)
    requires forall x, y :: x in xs && y in ys ==> LexBefore(x, y, tags)
    ensures LexSorted(xs + ys, tags)
  {
    var zs := xs + ys;
    forall a, b | 0 <= a < b < |zs| ensures LexBefore(zs[a], zs[b], tags) {
      if b < |xs| {
        assert zs[a] == xs[a] && zs[b] == xs[b];
      } else if a >= |xs| {
        assert zs[a] == ys[a - |xs|] && zs[b] == ys[b - |xs|];
      } else {
        assert zs[a] in xs && zs[b] in ys;
      }
    }
  }

  lemma PrecedesInPrefix(init: seq<string>, tags: seq<string>, a: string, b: string)
    requires init <= tags && PrecedesIn(init, a, b)
    ensures PrecedesIn(tags, a, b)
  {
    var i, j :| 0 <= i < j < |init| && init[i] == a && init[j] == b;
    assert tags[i] == a && tags[j] == b;
  }

  /** The extensions of p come in the order of the added tag. */
  lemma {:induction false} ExtendSorted(p: seq<string>, tags: seq<string>)
    ensures LexSorted(Extend(p, tags), tags)
  {
    if tags != [] {
      var init := tags[..|tags| - 1];
      var t := tags[|tags| - 1];
      ExtendSorted(p, init);
      var xs := Extend(p, init);
      forall a, b | 0 <= a < b < |xs| ensures LexBefore(xs[a], xs[b], tags) {
        var k :| 0 <= k < |xs[a]| && k < |xs[b]| && xs[a][..k] == xs[b][..k] && PrecedesIn(init, xs[a][k], xs[b][k]);
        PrecedesInPrefix(init, tags, xs[a][k], xs[b][k]);
      }
      var tail := if t in p then [] else [p + [t]];
      forall x, y | x in xs && y in tail ensures LexBefore(x, y, tags) {
        ExtendMember(p, init, x);
        var i :| 0 <= i < |init| && init[i] == x[|p|];
        assert tags[i] == x[|p|] && tags[|tags| - 1] == y[|p|];
        assert x[..|p|] == y[..|p|];
      }
      LexSortedAppend(xs, tail, tags);
    }
  }

  /** Extending a sorted list of equally long patterns keeps it sorted. */
  lemma {:induction false} ExtendAllSorted(ps: seq<seq<string>>, tags: seq<string>, n: nat)
    requires LexSorted(ps, tags)
    requires forall i :: 0 <= i < |ps| ==> |ps[i]| == n
    ensures LexSorted(ExtendAll(ps, tags), tags)
  {
    if ps != [] {
      var init := ps[..|ps| - 1];
      var last := ps[|ps| - 1];
      assert LexSorted(init, tags) by {
        forall a, b | 0 <= a < b < |init| ensures LexBefore(init[a], init[b], tags) {
          assert init[a] == ps[a] && init[b] == ps[b];
        }
      }
      ExtendAllSorted(init, tags, n);
      ExtendSorted(last, tags);
      forall x, y | x in ExtendAll(init, tags) && y in Extend(last, tags) ensures LexBefore(x, y, tags) {
        ExtendAllMember(init, tags, x);
        ExtendMember(last, tags, y);
        var p := x[..|x| - 1];
        var a :| 0 <= a < |init| && init[a] == p;
        assert LexBefore(ps[a], ps[|ps| - 1], tags);
        var k :| 0 <= k < |p| && k < |last| && p[..k] == last[..k] && PrecedesIn(tags, p[k], last[k]);
        assert x[..k] == p[..k] && y[..k] == last[..k];
        assert x[k] == p[k] && y[k] == last[k];
      }
      LexSortedAppend(ExtendAll(init, tags), Extend(last, tags), tags);
    }
  }

  /** generateTagPermutations emits its patterns in lexicographic order of the positions
      of their tags in tags. */
  lemma {:induction false} PermsSorted(size: int, tags: seq<string>)
    ensures LexSorted(Perms(size, tags), tags)
    decreases size
  {
    if size == 1 {
      var ss := Singletons(tags);
      forall a, b | 0 <= a < b < |ss| ensures LexBefore(ss[a], ss[b], tags) {
        assert ss[a][..0] == ss[b][..0];
        assert ss[a][0] == tags[a] && ss[b][0] == tags[b];
      }
    } else if size > 1 {
      PermsSorted(size - 1, tags);
      var prev := Perms(size - 1, tags);
      forall i | 0 <= i < |prev| ensures |prev[i]| == size - 1 {
        PermsMembers(size - 1, tags, prev[i]);
      }
      ExtendAllSorted(prev, tags, size - 1);
    }
  }
}
