// The two pattern result containers (n-gram and co-occurrence) share one generic table:
// a map from a pattern to the record of what was found for it.

module PatternResults {
  import opened Seqs
  import opened Sorting

  /** A pattern together with the entries recorded for it (id sequences or ids). */
  datatype PatternResult<K, E> = PatternResult(pattern: K, entries: seq<E>)

  /** PatternResult.count: the number of recorded entries. */
  function Count<K, E>(r: PatternResult<K, E>): (n: nat)
    ensures n == 0 <==> r.entries == []
  {
    |r.entries|
  }

  function CountKey<K, E>(r: PatternResult<K, E>): real
  {
    Count(r) as real
  }

  /** Appending one entry to a pattern's list. */
  function Record<K, E>(r: PatternResult<K, E>, x: E): (s: PatternResult<K, E>)
    ensures s.pattern == r.pattern
    ensures Count(s) == Count(r) + 1
    ensures s.entries[..Count(r)] == r.entries && s.entries[Count(r)] == x
  {
    PatternResult(r.pattern, r.entries + [x])
  }

  /** The table the constructor builds: every distinct pattern with an empty list. */
  ghost function Initial<K, E>(patterns: seq<K>): map<K, PatternResult<K, E>>
  {
    map p | p in patterns :: PatternResult(p, [])
  }

  /** The key stored with each entry is the entry's own pattern. */
  ghost predicate KeysMatch<K, E>(m: map<K, PatternResult<K, E>>)
  {
    forall k :: k in m ==> m[k].pattern == k
  }

  lemma InitialShape<K, E>(patterns: seq<K>)
    ensures Initial<K, E>(patterns).Keys == set p | p in patterns
    ensures KeysMatch(Initial<K, E>(patterns))
    ensures forall p :: p in Initial<K, E>(patterns) ==> Count(Initial<K, E>(patterns)[p]) == 0
  {
  }

  /** A pattern given twice yields one entry. */
  lemma {:induction false} InitialCollapsesDuplicates<K, E>(patterns: seq<K>, i: nat)
    requires i < |patterns|
    ensures Initial<K, E>(patterns + [patterns[i]]) == Initial<K, E>(patterns)
  {
    assert (set p | p in patterns + [patterns[i]]) == (set p | p in patterns);
    assert Initial<K, E>(patterns + [patterns[i]]).Keys == Initial<K, E>(patterns).Keys;
  }

  /** The table depends only on which patterns are given, not on their order. */
  lemma InitialOrderInsensitive<K, E>(ps: seq<K>, qs: seq<K>)
    requires forall p :: p in ps <==> p in qs
    ensures Initial<K, E>(ps) == Initial<K, E>(qs)
  {
    assert Initial<K, E>(ps).Keys == Initial<K, E>(qs).Keys;
  }

  /** NGramSearchResult and CoOccurrenceSearchResult: a result map keyed by pattern. */
  class PatternTable<K(==,!new), E> {
    var resultMap: map<K, PatternResult<K, E>>

    ghost predicate Valid()
      reads this
    {
      KeysMatch(resultMap)
    }

    constructor(patterns: seq<K>)
      ensures Valid()
      ensures resultMap == Initial(patterns)
    {
      resultMap := map[];
      new;
      for i := 0 to |patterns|
        invariant resultMap.Keys == set p | p in patterns[..i]
        invariant forall k :: k in resultMap ==> resultMap[k] == PatternResult(k, [])
      {
        assert patterns[..i + 1] == patterns[..i] + [patterns[i]];
        resultMap := resultMap[patterns[i] := PatternResult(patterns[i], [])];
      }
      assert patterns[..|patterns|] == patterns;
      assert resultMap.Keys == Initial<K, E>(patterns).Keys;
    }

    /** patterns(): the key set. */
    function Patterns(): (ks: set<K>)
      reads this
      ensures forall k :: k in ks <==> k in resultMap
      ensures |ks| == |resultMap|
    {
      resultMap.Keys
    }

    /** resultsOrdered(): one entry per key, by non-increasing count. */
    method ResultsOrdered() returns (r: seq<PatternResult<K, E>>)
      requires Valid()
      ensures |r| == |resultMap|
      ensures forall x :: x in r <==> x.pattern in resultMap && resultMap[x.pattern] == x
      ensures SortedDescBy(r, CountKey)
    {
      var keys := InSomeOrder(resultMap.Keys);
      var values: seq<PatternResult<K, E>> := [];
      for i := 0 to |keys|
        invariant |values| == i
        invariant forall k :: 0 <= k < i ==> values[k] == resultMap[keys[k]]
      {
        values := values + [resultMap[keys[i]]];
      }
      r := SortDescBy(values, CountKey);
      SortDescLength(values, CountKey);
      assert |keys| == |resultMap.Keys| == |resultMap|;
      forall x ensures x in r <==> x.pattern in resultMap && resultMap[x.pattern] == x {
        assert x in r <==> x in multiset(values);
        if x.pattern in resultMap && resultMap[x.pattern] == x {
          var k :| 0 <= k < |keys| && keys[k] == x.pattern;
          assert values[k] == x;
        }
      }
    }
  }

  type NGramSearchResult = PatternTable<seq<string>, seq<int>>

  type CoOccurrenceSearchResult = PatternTable<set<string>, int>
}

module CoOccurrence {
  import opened Seqs
  import opened Sorting
  import opened PatternResults

  type Table = map<set<string>, PatternResult<set<string>, int>>

  /** The set of an email's tag names. */
  function TagNames(tags: seq<string>): (names: set<string>)
    ensures forall t :: t in names <==> t in tags
  {
    set t | t in tags
  }

  /** The table after one consumeEmail: the id is appended to exactly the patterns whose
      every name is among the email's tags. */
  ghost function Consumed(m: Table, emailId: int, tags: seq<string>): Table
  {
    map p | p in m :: if p <= TagNames(tags) then Record(m[p], emailId) else m[p]
  }

  /** Keys never change, and each count grows by exactly one when the pattern is
      contained in the tags and is otherwise unchanged. */
  lemma ConsumedCounts(m: Table, emailId: int, tags: seq<string>, p: set<string>)
    requires p in m
    ensures Consumed(m, emailId, tags).Keys == m.Keys
    ensures (forall t :: t in p ==> t in tags) ==>
              Count(Consumed(m, emailId, tags)[p]) == Count(m[p]) + 1
    ensures !(forall t :: t in p ==> t in tags) ==> Consumed(m, emailId, tags)[p] == m[p]
  {
  }

  lemma ConsumedKeepsKeysMatch(m: Table, emailId: int, tags: seq<string>)
    requires KeysMatch(m)
    ensures KeysMatch(Consumed(m, emailId, tags))
  {
  }

  /** Neither the order of the email's tags nor repeated tags matter. */
  lemma ConsumedTagOrderInsensitive(m: Table, emailId: int, tags1: seq<string>, tags2: seq<string>)
    requires forall t :: t in tags1 <==> t in tags2
    ensures Consumed(m, emailId, tags1) == Consumed(m, emailId, tags2)
  {
    assert TagNames(tags1) == TagNames(tags2);
  }

  /** The empty pattern matches every email. */
  lemma EmptyPatternMatchesAll(m: Table, emailId: int, tags: seq<string>)
    requires {} in m
    ensures Consumed(m, emailId, tags)[{}].entries == m[{}].entries + [emailId]
  {
  }

  /** Patterns are sets, so listing a pattern's names in another order gives the same key. */
  lemma PatternOrderInsensitive(xs: seq<string>, ys: seq<string>)
    requires forall t :: t in xs <==> t in ys
    ensures Initial<set<string>, int>([TagNames(xs), TagNames(ys)]).Keys == {TagNames(xs)}
  {
    assert TagNames(xs) == TagNames(ys);
  }

  /** The table part-way through consumeEmail: the patterns in done that the names
      contain have the id appended, all others are as they were. */
  ghost predicate PartlyConsumed(m0: Table, m: Table, done: set<set<string>>, names: set<string>, emailId: int)
  {
    && m.Keys == m0.Keys
    && forall q :: q in m0 ==> m[q] == (if q in done && q <= names then Record(m0[q], emailId) else m0[q])
  }

  /** Visiting one more pattern, one not visited before. */
  lemma PartlyConsumedStep(m0: Table, m: Table, done: set<set<string>>, names: set<string>, emailId: int, p: set<string>)
    requires PartlyConsumed(m0, m, done, names, emailId)
    requires p in m0 && p !in done
    ensures PartlyConsumed(m0, if p <= names then m[p := Record(m[p], emailId)] else m, done + {p}, names, emailId)
  {
  }

  /** Once every pattern is visited, the table is the consumed one. */
  lemma PartlyConsumedDone(m0: Table, m: Table, done: set<set<string>>, emailId: int, tags: seq<string>)
    requires PartlyConsumed(m0, m, done, TagNames(tags), emailId)
    requires m0.Keys <= done
    ensures m == Consumed(m0, emailId, tags)
  {
    var m1 := Consumed(m0, emailId, tags);
    assert m.Keys == m1.Keys;
    forall q | q in m ensures m[q] == m1[q] {
    }
  }

  /** CoOccurrenceSearcher: a result table filled one email at a time. */
  class CoOccurrenceSearcher {
    const result: CoOccurrenceSearchResult

    ghost predicate Valid()
      reads this, result
    {
      result.Valid()
    }

    constructor(patterns: seq<set<string>>)
      ensures fresh(result) && Valid()
      ensures result.resultMap == Initial(patterns)
    {
      result := new PatternTable(patterns);
    }

    method ConsumeEmail(emailId: int, tags: seq<string>)
      requires Valid()
      modifies result
      ensures Valid()
      ensures result.resultMap == Consumed(old(result.resultMap), emailId, tags)
    {
      var names := TagNames(tags);
      var patterns := InSomeOrder(result.resultMap.Keys);
      ghost var m0 := result.resultMap;
      ghost var done: set<set<string>> := {};
      for i := 0 to |patterns|
        invariant PartlyConsumed(m0, result.resultMap, done, names, emailId)
        invariant forall j :: 0 <= j < i ==> patterns[j] in done
        invariant forall j :: i <= j < |patterns| ==> patterns[j] !in done
      {
        var p := patterns[i];
        PartlyConsumedStep(m0, result.resultMap, done, names, emailId, p);
        if p <= names {
          result.resultMap := result.resultMap[p := Record(result.resultMap[p], emailId)];
        }
        done := done + {p};
      }
      PartlyConsumedDone(m0, result.resultMap, done, emailId, tags);
      ConsumedKeepsKeysMatch(m0, emailId, tags);
    }
  }
}
