/** The pattern tables of the visualiser (render/PatternRenderer): which exported
    patterns are kept, the padding width, the order of the rows and the text of each
    LaTeX table row. */
module PatternRenderer {
  import opened Seqs
  import opened Sorting
  import opened Strings

  /** JVisualizer.AK_TAGS, the eligible tags of every table. */
  const AkTags: seq<string> := ["existence", "process", "property", "technology"]

  /** The separator printed between two tags of a row. */
  const Separator: string := " $ \\rightarrow $ "

  /** What follows the count at the end of every row. */
  const RowEnd: string := " \\\\ \\hline\n"

  /** One exported pattern entry: its tag names as stored and its count. */
  datatype PatternEntry = PatternEntry(pattern: seq<string>, count: int)

  function CountKey(x: PatternEntry): real
  {
    x.count as real
  }

  function Max(a: int, b: int): int
  {
    if a >= b then a else b
  }

  /** The pattern's tag names, each trimmed as String.trim does. */
  function TrimAll(raw: seq<string>): (r: seq<string>)
    ensures |r| == |raw|
  {
    if raw == [] then [] else TrimAll(raw[..|raw| - 1]) + [Trim(raw[|raw| - 1])]
  }

  lemma {:induction false} TrimAllAt(raw: seq<string>, i: nat)
    requires i < |raw|
    ensures TrimAll(raw)[i] == Trim(raw[i])
  {
    if i < |raw| - 1 {
      TrimAllAt(raw[..|raw| - 1], i);
    }
  }

  /** The leading tags up to the first ineligible one. */
  function EligiblePrefix(tags: seq<string>, eligible: seq<string>): (r: seq<string>)
    ensures |r| <= |tags|
  {
    if tags == [] || tags[0] !in eligible then []
    else [tags[0]] + EligiblePrefix(tags[1..], eligible)
  }

  /** The prefix's tags are all eligible, and it ends just before the first ineligible one. */
  lemma {:induction false} EligiblePrefixSpec(tags: seq<string>, eligible: seq<string>)
    ensures EligiblePrefix(tags, eligible) == tags[..|EligiblePrefix(tags, eligible)|]
    ensures forall i :: 0 <= i < |EligiblePrefix(tags, eligible)| ==> tags[i] in eligible
    ensures |EligiblePrefix(tags, eligible)| < |tags| ==> tags[|EligiblePrefix(tags, eligible)|] !in eligible
  {
    if tags != [] && tags[0] in eligible {
      EligiblePrefixSpec(tags[1..], eligible);
    }
  }

  /** The tags one entry's scan passes: its trimmed tags up to the first ineligible one. */
  function Scanned(raw: seq<string>, eligible: seq<string>): (tags: seq<string>)
    ensures |tags| <= |raw|
  {
    EligiblePrefix(TrimAll(raw), eligible)
  }

  /** A pattern is kept when the scan reaches its end. */
  predicate Kept(raw: seq<string>, eligible: seq<string>)
  {
    |Scanned(raw, eligible)| == |raw|
  }

  /** A pattern is kept exactly when every trimmed tag is eligible, and it is then
      stored as its trimmed tags. */
  lemma KeptIff(raw: seq<string>, eligible: seq<string>)
    ensures Kept(raw, eligible) <==> forall i :: 0 <= i < |raw| ==> Trim(raw[i]) in eligible
    ensures Kept(raw, eligible) ==> Scanned(raw, eligible) == TrimAll(raw)
  {
    EligiblePrefixSpec(TrimAll(raw), eligible);
    forall i | 0 <= i < |raw| {
      TrimAllAt(raw, i);
    }
  }

  /** Each tag the scan passes is the trimmed name at its position, and eligible. */
  lemma ScannedEligible(raw: seq<string>, eligible: seq<string>, k: nat)
    requires k < |Scanned(raw, eligible)|
    ensures Scanned(raw, eligible)[k] in eligible
    ensures Scanned(raw, eligible)[k] == Trim(raw[k])
  {
    EligiblePrefixSpec(TrimAll(raw), eligible);
    TrimAllAt(raw, k);
  }

  /** Every tag is at most width long. */
  predicate Fits(tags: seq<string>, width: int)
  {
    forall k :: 0 <= k < |tags| ==> |tags[k]| <= width
  }

  lemma FitsWeaken(tags: seq<string>, width: int, wider: int)
    requires Fits(tags, width) && width <= wider
    ensures Fits(tags, wider)
  {
  }

  /** The largest of init and the lengths of tags. */
  function MaxLength(tags: seq<string>, init: int): (m: int)
    ensures m >= init
  {
    if tags == [] then init
    else Max(MaxLength(tags[..|tags| - 1], init), |tags[|tags| - 1]|)
  }

  /** MaxLength bounds every tag, and it is init or the length of one of them. */
  lemma {:induction false} MaxLengthSpec(tags: seq<string>, init: int)
    ensures Fits(tags, MaxLength(tags, init))
    ensures MaxLength(tags, init) == init || exists k :: 0 <= k < |tags| && |tags[k]| == MaxLength(tags, init)
  {
    if tags != [] {
      var front := tags[..|tags| - 1];
      var last := |tags| - 1;
      MaxLengthSpec(front, init);
      var m := MaxLength(tags, init);
      forall k | 0 <= k < |tags|
        ensures |tags[k]| <= m
      {
        if k < last {
          assert front[k] == tags[k];
        }
      }
      if m != init {
        if m == |tags[last]| {
          assert 0 <= last < |tags| && |tags[last]| == m;
        } else {
          var k :| 0 <= k < |front| && |front[k]| == MaxLength(front, init);
          assert front[k] == tags[k];
        }
      }
    }
  }

  /** longestTagLength after the entries: -1 at first, raised by every eligible tag the
      scans pass, those of dropped entries included. */
  function LongestTagLength(entries: seq<PatternEntry>, eligible: seq<string>): (m: int)
    ensures m >= -1
  {
    if entries == [] then -1
    else
      MaxLength(Scanned(entries[|entries| - 1].pattern, eligible),
                LongestTagLength(entries[..|entries| - 1], eligible))
  }

  /** patternCounts after the entries: each kept pattern mapped to the count of its
      last entry. */
  function PatternCounts(entries: seq<PatternEntry>, eligible: seq<string>): map<seq<string>, int>
  {
    if entries == [] then map[]
    else
      var m := PatternCounts(entries[..|entries| - 1], eligible);
      var last := entries[|entries| - 1];
      if Kept(last.pattern, eligible) then m[Scanned(last.pattern, eligible) := last.count] else m
  }

  /** The table holds exactly the kept patterns. */
  lemma {:induction false} PatternCountsKeys(entries: seq<PatternEntry>, eligible: seq<string>, p: seq<string>)
    ensures p in PatternCounts(entries, eligible) <==>
              exists i :: 0 <= i < |entries| && Kept(entries[i].pattern, eligible) && Scanned(entries[i].pattern, eligible) == p
  {
    if entries != [] {
      var init := entries[..|entries| - 1];
      var last := entries[|entries| - 1];
      PatternCountsKeys(init, eligible, p);
      if p in PatternCounts(entries, eligible) {
        if !(Kept(last.pattern, eligible) && Scanned(last.pattern, eligible) == p) {
          var i :| 0 <= i < |init| && Kept(init[i].pattern, eligible) && Scanned(init[i].pattern, eligible) == p;
          assert init[i] == entries[i];
        }
      }
      if exists i :: 0 <= i < |entries| && Kept(entries[i].pattern, eligible) && Scanned(entries[i].pattern, eligible) == p {
        var i :| 0 <= i < |entries| && Kept(entries[i].pattern, eligible) && Scanned(entries[i].pattern, eligible) == p;
        if i < |init| {
          assert init[i] == entries[i];
        }
      }
    }
  }

  /** Entries with the same tag list collapse: the count is that of the last one. */
  lemma {:induction false} LastCountWins(entries: seq<PatternEntry>, eligible: seq<string>, i: nat)
    requires i < |entries| && Kept(entries[i].pattern, eligible)
    requires forall j :: i < j < |entries| && Kept(entries[j].pattern, eligible) ==>
               Scanned(entries[j].pattern, eligible) != Scanned(entries[i].pattern, eligible)
    ensures Scanned(entries[i].pattern, eligible) in PatternCounts(entries, eligible)
    ensures PatternCounts(entries, eligible)[Scanned(entries[i].pattern, eligible)] == entries[i].count
  {
    var init := entries[..|entries| - 1];
    if i < |entries| - 1 {
      assert init[i] == entries[i];
      LastCountWins(init, eligible, i);
    }
  }

  /** Every eligible tag a scan passes, in a kept entry or in a dropped one, is at most
      longestTagLength long. */
  lemma {:induction false} LongestBoundsAll(entries: seq<PatternEntry>, eligible: seq<string>)
    ensures forall i :: 0 <= i < |entries| ==> Fits(Scanned(entries[i].pattern, eligible), LongestTagLength(entries, eligible))
  {
    if entries != [] {
      var init := entries[..|entries| - 1];
      LongestBoundsAll(init, eligible);
      var m0 := LongestTagLength(init, eligible);
      var m := LongestTagLength(entries, eligible);
      MaxLengthSpec(Scanned(entries[|entries| - 1].pattern, eligible), m0);
      forall i | 0 <= i < |entries|
        ensures Fits(Scanned(entries[i].pattern, eligible), m)
      {
        if i < |init| {
          assert init[i] == entries[i];
          FitsWeaken(Scanned(init[i].pattern, eligible), m0, m);
        }
      }
    }
  }

  /** longestTagLength is -1 or the length of a tag some scan passes. */
  lemma {:induction false} LongestIsAttained(entries: seq<PatternEntry>, eligible: seq<string>)
    ensures LongestTagLength(entries, eligible) == -1 ||
              exists i, k :: 0 <= i < |entries| && 0 <= k < |Scanned(entries[i].pattern, eligible)| &&
                             |Scanned(entries[i].pattern, eligible)[k]| == LongestTagLength(entries, eligible)
  {
    if entries != [] {
      var init := entries[..|entries| - 1];
      var last := |entries| - 1;
      var prefix := Scanned(entries[last].pattern, eligible);
      LongestIsAttained(init, eligible);
      var m0 := LongestTagLength(init, eligible);
      var m := LongestTagLength(entries, eligible);
      MaxLengthSpec(prefix, m0);
      if m != -1 {
        if m == m0 {
          var i, k :| 0 <= i < |init| && 0 <= k < |Scanned(init[i].pattern, eligible)| &&
                      |Scanned(init[i].pattern, eligible)[k]| == m0;
          assert init[i] == entries[i];
        } else {
          var k :| 0 <= k < |prefix| && |prefix[k]| == m;
          assert 0 <= last < |entries| && 0 <= k < |Scanned(entries[last].pattern, eligible)|;
        }
      }
    }
  }

  /** Kept patterns consist of eligible trimmed tags, and each is at most
      longestTagLength long, so the padding size exceeds every tag. */
  lemma KeptTagsFit(entries: seq<PatternEntry>, eligible: seq<string>, p: seq<string>)
    requires p in PatternCounts(entries, eligible)
    ensures forall k :: 0 <= k < |p| ==> p[k] in eligible
    ensures Fits(p, LongestTagLength(entries, eligible))
  {
    PatternCountsKeys(entries, eligible, p);
    LongestBoundsAll(entries, eligible);
    var i :| 0 <= i < |entries| && Kept(entries[i].pattern, eligible) && Scanned(entries[i].pattern, eligible) == p;
    EligiblePrefixSpec(TrimAll(entries[i].pattern), eligible);
  }

  /** The visualiser's tag list lacks the existence sub-tags, so no pattern with one of
      them reaches a table. */
  lemma SubTagsDropped(entries: seq<PatternEntry>, p: seq<string>)
    requires p in PatternCounts(entries, AkTags)
    ensures "existence-structural" !in p && "existence-behavioral" !in p
  {
    KeptTagsFit(entries, AkTags, p);
    forall k | 0 <= k < |p|
      ensures p[k] != "existence-structural" && p[k] != "existence-behavioral"
    {
      assert p[k] in AkTags;
      assert |p[k]| <= 10;
    }
  }

  /** The inner loop over one entry's tags: trims each, stops at the first ineligible
      one, and raises the longest length on the way. */
  method ScanPattern(raw: seq<string>, eligible: seq<string>, longest0: int)
    returns (tags: seq<string>, shouldSkip: bool, longest: int)
    ensures tags == Scanned(raw, eligible)
    ensures shouldSkip <==> !Kept(raw, eligible)
    ensures longest == MaxLength(tags, longest0)
  {
    ghost var prefix := Scanned(raw, eligible);
    EligiblePrefixSpec(TrimAll(raw), eligible);
    tags := [];
    shouldSkip := false;
    longest := longest0;
    var i := 0;
    while i < |raw|
      invariant 0 <= i <= |raw| && i <= |prefix|
      invariant tags == prefix[..i]
      invariant longest == MaxLength(tags, longest0)
      invariant !shouldSkip
    {
      var tag := Trim(raw[i]);
      TrimAllAt(raw, i);
      if tag !in eligible {
        assert |prefix| == i;
        shouldSkip := true;
        break;
      }
      assert |prefix| > i;
      longest := Max(longest, |tag|);
      assert (tags + [tag])[..|tags|] == tags;
      tags := tags + [tag];
      assert prefix[..i + 1] == prefix[..i] + [prefix[i]];
      i := i + 1;
    }
  }

  /** The outer loop: every entry is scanned, and kept ones are put into the table. */
  method CollectPatterns(entries: seq<PatternEntry>, eligible: seq<string>)
    returns (patternCounts: map<seq<string>, int>, longestTagLength: int)
    ensures patternCounts == PatternCounts(entries, eligible)
    ensures longestTagLength == LongestTagLength(entries, eligible)
  {
    patternCounts := map[];
    longestTagLength := -1;
    for i := 0 to |entries|
      invariant patternCounts == PatternCounts(entries[..i], eligible)
      invariant longestTagLength == LongestTagLength(entries[..i], eligible)
    {
      assert entries[..i + 1][..i] == entries[..i];
      var tags, shouldSkip, longest := ScanPattern(entries[i].pattern, eligible, longestTagLength);
      longestTagLength := longest;
      if !shouldSkip {
        patternCounts := patternCounts[tags := entries[i].count];
      }
    }
    assert entries[..|entries|] == entries;
  }

  lemma {:induction false} ReversedSortedDesc(s: seq<PatternEntry>)
    requires SortedBy(s, CountKey)
    ensures SortedDescBy(Reversed(s), CountKey)
    ensures |Reversed(s)| == |s| && multiset(Reversed(s)) == multiset(s)
  {
    ReversedMultiset(s);
  }

  /** The table sorted by count ascending, then reversed: every entry once, by
      non-increasing count. */
  method SortedPatternCounts(patternCounts: map<seq<string>, int>) returns (sorted: seq<PatternEntry>)
    ensures |sorted| == |patternCounts|
    ensures forall x :: x in sorted <==> x.pattern in patternCounts && patternCounts[x.pattern] == x.count
    ensures SortedDescBy(sorted, CountKey)
  {
    var keys := InSomeOrder(patternCounts.Keys);
    var listed: seq<PatternEntry> := [];
    for i := 0 to |keys|
      invariant |listed| == i
      invariant forall k :: 0 <= k < i ==> listed[k] == PatternEntry(keys[k], patternCounts[keys[k]])
    {
      listed := listed + [PatternEntry(keys[i], patternCounts[keys[i]])];
    }
    var ascending := SortBy(listed, CountKey);
    sorted := Reversed(ascending);
    ReversedSortedDesc(ascending);
    assert |multiset(ascending)| == |multiset(listed)|;
    assert |keys| == |patternCounts.Keys| == |patternCounts|;
    forall x ensures x in sorted <==> x.pattern in patternCounts && patternCounts[x.pattern] == x.count {
      assert x in sorted <==> x in multiset(listed);
      if x.pattern in patternCounts && patternCounts[x.pattern] == x.count {
        var k :| 0 <= k < |keys| && keys[k] == x.pattern;
        assert listed[k] == x;
      }
    }
  }

  /** A tag right-padded with spaces to the padding size. */
  function Padded(tag: string, paddingSize: nat): (r: string)
    requires |tag| <= paddingSize
    ensures |r| == paddingSize && r[..|tag|] == tag
    ensures forall k :: |tag| <= k < paddingSize ==> r[k] == ' '
  {
    tag + Spaces(paddingSize - |tag|)
  }

  /** What the builder appends for the tag at index i: the padded tag, then the
      separator unless it is the last tag. */
  function Piece(tags: seq<string>, paddingSize: nat, i: nat): string
    requires i < |tags| && |tags[i]| <= paddingSize
  {
    if i < |tags| - 1 then Padded(tags[i], paddingSize) + Separator else Padded(tags[i], paddingSize)
  }

  function Pieces(tags: seq<string>, paddingSize: nat): seq<string>
    requires Fits(tags, paddingSize)
  {
    seq(|tags|, i requires 0 <= i < |tags| => Piece(tags, paddingSize, i))
  }

  /** The tag part of a row. */
  function Cells(tags: seq<string>, paddingSize: nat): string
    requires Fits(tags, paddingSize)
  {
    Flatten(Pieces(tags, paddingSize))
  }

  /** The text printed for one table entry. */
  function Row(tags: seq<string>, count: int, paddingSize: nat): string
    requires Fits(tags, paddingSize)
  {
    Cells(tags, paddingSize) + " & " + IntToString(count) + RowEnd
  }

  /** A one-tag row part is the padded tag alone. */
  lemma CellsSingle(tag: string, paddingSize: nat)
    requires |tag| <= paddingSize
    ensures Cells([tag], paddingSize) == Padded(tag, paddingSize)
  {
    var ps := Pieces([tag], paddingSize);
    assert ps[0] == Padded(tag, paddingSize);
    assert ps == [] + [Padded(tag, paddingSize)];
    FlattenSnoc([], Padded(tag, paddingSize));
  }

  /** The pieces of a front part: those of the whole, the last one without its separator. */
  lemma PiecesFront(tags: seq<string>, paddingSize: nat, i: nat)
    requires Fits(tags, paddingSize)
    requires 0 < i < |tags|
    ensures Pieces(tags[..i], paddingSize) == Pieces(tags, paddingSize)[..i - 1] + [Padded(tags[i - 1], paddingSize)]
  {
    var front := tags[..i];
    var ps := Pieces(tags, paddingSize);
    var fs := Pieces(front, paddingSize);
    forall j | 0 <= j < i - 1
      ensures fs[j] == ps[j]
    {
      assert front[j] == tags[j];
    }
    assert fs[i - 1] == Padded(tags[i - 1], paddingSize);
  }

  /** The pieces of the whole: those before i, the piece of tag i - 1 with its separator,
      then the pieces of the back part. */
  lemma PiecesWhole(tags: seq<string>, paddingSize: nat, i: nat)
    requires Fits(tags, paddingSize)
    requires 0 < i < |tags|
    ensures Pieces(tags, paddingSize) ==
              Pieces(tags, paddingSize)[..i - 1] + [Padded(tags[i - 1], paddingSize) + Separator] + Pieces(tags[i..], paddingSize)
  {
    var back := tags[i..];
    var ps := Pieces(tags, paddingSize);
    var bs := Pieces(back, paddingSize);
    forall j | 0 <= j < |bs|
      ensures bs[j] == ps[i + j]
    {
      assert back[j] == tags[i + j];
    }
    assert ps[i - 1] == Padded(tags[i - 1], paddingSize) + Separator;
  }

  /** The separator sits exactly between consecutive tags: splitting the tags anywhere
      splits the row part at one separator. */
  lemma CellsSplit(tags: seq<string>, paddingSize: nat, i: nat)
    requires Fits(tags, paddingSize)
    requires 0 < i < |tags|
    ensures Cells(tags, paddingSize) == Cells(tags[..i], paddingSize) + Separator + Cells(tags[i..], paddingSize)
  {
    var lead := Pieces(tags, paddingSize)[..i - 1];
    var last := Padded(tags[i - 1], paddingSize);
    PiecesFront(tags, paddingSize, i);
    PiecesWhole(tags, paddingSize, i);
    FlattenSnoc(lead, last);
    FlattenAppend(lead + [last + Separator], Pieces(tags[i..], paddingSize));
    FlattenSnoc(lead, last + Separator);
  }

  /** Every tag's piece is at least one space wider than the tag when the padding size
      exceeds it, so a tag never runs into the next separator. */
  lemma PaddedEndsInSpace(tag: string, paddingSize: nat)
    requires |tag| < paddingSize
    ensures Padded(tag, paddingSize)[paddingSize - 1] == ' '
  {
  }

  /** A row reads back: the tag part, " & ", the count's text, which parses back to the
      count, and the row end. */
  lemma RowReadsBack(tags: seq<string>, count: int, paddingSize: nat)
    requires Fits(tags, paddingSize)
    ensures var row := Row(tags, count, paddingSize);
            var c := |Cells(tags, paddingSize)|;
            && |row| >= c + 3 + |RowEnd|
            && row[..c] == Cells(tags, paddingSize)
            && row[c..c + 3] == " & "
            && row[|row| - |RowEnd|..] == RowEnd
            && row[c + 3..|row| - |RowEnd|] == IntToString(count)
            && ParseInt(row[c + 3..|row| - |RowEnd|]) == count
  {
    RowParts(Cells(tags, paddingSize), IntToString(count));
    IntToStringRoundTrip(count);
  }

  /** Where the parts of a row lie: the tag part, " & ", the count's text, the row end. */
  lemma RowParts(cells: string, text: string)
    ensures var row := cells + " & " + text + RowEnd;
            var c := |cells|;
            && |row| == c + 3 + |text| + |RowEnd|
            && row[..c] == cells
            && row[c..c + 3] == " & "
            && row[|row| - |RowEnd|..] == RowEnd
            && row[c + 3..|row| - |RowEnd|] == text
  {
    var row := cells + " & " + text + RowEnd;
    var c := |cells|;
    assert row == cells + (" & " + (text + RowEnd));
    assert row[c..] == " & " + (text + RowEnd);
    assert row[c + 3..] == text + RowEnd;
    assert row[c + 3..|row| - |RowEnd|] == row[c + 3..][..|text|];
  }

  /** The row builder of the output loop. */
  method FormatRow(tags: seq<string>, count: int, paddingSize: nat) returns (row: string)
    requires Fits(tags, paddingSize)
    ensures row == Row(tags, count, paddingSize)
  {
    ghost var pieces := Pieces(tags, paddingSize);
    var sb: string := "";
    for i := 0 to |tags|
      invariant sb == Flatten(pieces[..i])
    {
      var tag := tags[i];
      sb := sb + tag + Spaces(paddingSize - |tag|);
      if i < |tags| - 1 {
        sb := sb + Separator;
      }
      assert pieces[..i + 1] == pieces[..i] + [pieces[i]];
      FlattenSnoc(pieces[..i], pieces[i]);
    }
    assert pieces[..|tags|] == pieces;
    row := sb + " & " + IntToString(count) + RowEnd;
  }

  /** Every row of the sorted table consists of eligible tags that fit longestTagLength. */
  lemma SortedRowsFit(entries: seq<PatternEntry>, eligible: seq<string>, sorted: seq<PatternEntry>)
    requires forall x :: x in sorted ==> x.pattern in PatternCounts(entries, eligible)
    ensures forall i :: 0 <= i < |sorted| ==> Fits(sorted[i].pattern, LongestTagLength(entries, eligible))
    ensures forall i, k :: 0 <= i < |sorted| && 0 <= k < |sorted[i].pattern| ==> sorted[i].pattern[k] in eligible
  {
    forall i | 0 <= i < |sorted|
      ensures Fits(sorted[i].pattern, LongestTagLength(entries, eligible))
      ensures forall k :: 0 <= k < |sorted[i].pattern| ==> sorted[i].pattern[k] in eligible
    {
      assert sorted[i] in sorted;
      KeptTagsFit(entries, eligible, sorted[i].pattern);
    }
  }

  /** exportNGramData without the file: the rows in output order, one per kept
      pattern, by non-increasing count, each padded to longestTagLength + 1, which
      exceeds every tag in it. */
  method ExportNGramData(entries: seq<PatternEntry>, eligible: seq<string>)
    returns (sorted: seq<PatternEntry>, rows: seq<string>)
    ensures |sorted| == |PatternCounts(entries, eligible)|
    ensures forall x :: x in sorted <==>
              x.pattern in PatternCounts(entries, eligible) && PatternCounts(entries, eligible)[x.pattern] == x.count
    ensures SortedDescBy(sorted, CountKey)
    ensures forall i :: 0 <= i < |sorted| ==> Fits(sorted[i].pattern, LongestTagLength(entries, eligible))
    ensures forall i, k :: 0 <= i < |sorted| && 0 <= k < |sorted[i].pattern| ==> sorted[i].pattern[k] in eligible
    ensures |rows| == |sorted|
    ensures forall i :: 0 <= i < |rows| ==>
              && Fits(sorted[i].pattern, LongestTagLength(entries, eligible) + 1)
              && rows[i] == Row(sorted[i].pattern, sorted[i].count, LongestTagLength(entries, eligible) + 1)
  {
    var patternCounts, longestTagLength := CollectPatterns(entries, eligible);
    sorted := SortedPatternCounts(patternCounts);
    var paddingSize := longestTagLength + 1;
    SortedRowsFit(entries, eligible, sorted);
    forall i | 0 <= i < |sorted|
      ensures Fits(sorted[i].pattern, paddingSize)
    {
      FitsWeaken(sorted[i].pattern, longestTagLength, paddingSize);
    }
    rows := FormatRows(sorted, paddingSize);
  }

  /** The output loop: one formatted row per entry, in order. */
  method FormatRows(sorted: seq<PatternEntry>, paddingSize: nat) returns (rows: seq<string>)
    requires forall i :: 0 <= i < |sorted| ==> Fits(sorted[i].pattern, paddingSize)
    ensures |rows| == |sorted|
    ensures forall i :: 0 <= i < |rows| ==> rows[i] == Row(sorted[i].pattern, sorted[i].count, paddingSize)
  {
    rows := [];
    for i := 0 to |sorted|
      invariant |rows| == i
      invariant forall k :: 0 <= k < i ==> rows[k] == Row(sorted[k].pattern, sorted[k].count, paddingSize)
    {
      var row := FormatRow(sorted[i].pattern, sorted[i].count, paddingSize);
      rows := rows + [row];
    }
  }
}
