/** The intake characteristic report (intake cmd/CharacteristicReportGenerator): the
    values of the architectural and of the non-architectural emails over all positive
    tags, a list per positive tag that actually occurred, and the layout of the CSV
    table of all four characteristics. */
module IntakeCharacteristicReport {
  import opened Seqs
  import opened Strings
  import opened Emails
  import opened AnalysisUtils
  import ReportGen
  import CharacteristicReport

  /** A tag's list, or the empty list for a tag without one. */
  function TagList(m: map<string, seq<int>>, t: string): seq<int>
  {
    if t in m then m[t] else []
  }

  /** The architectural values against the single tag t. */
  function TagValues(walk: seq<Email>, ch: Email -> int, t: string): seq<int>
  {
    CharacteristicReport.ValuesWith(walk, ch, [t], ReportGen.NegativeTags, Architectural)
  }

  /** The tag lists after adding v for each listed tag the email is architectural for
      on its own, in list order. */
  function PerTagAdded(m0: map<string, seq<int>>, tags: seq<string>, negativeTags: seq<string>,
                       emailTags: seq<string>, v: int): map<string, seq<int>>
  {
    if tags == [] then m0
    else
      var m := PerTagAdded(m0, tags[..|tags| - 1], negativeTags, emailTags, v);
      var t := tags[|tags| - 1];
      if GetStatus(emailTags, [t], negativeTags) == Architectural then m[t := TagList(m, t) + [v]] else m
  }

  /** With distinct tags, each such tag's list gains v once, a new list is created for
      a tag without one, and every other list is left alone. */
  lemma {:induction false} PerTagAddedSpec(m0: map<string, seq<int>>, tags: seq<string>, negativeTags: seq<string>,
                                           emailTags: seq<string>, v: int)
    requires Distinct(tags)
    ensures PerTagAdded(m0, tags, negativeTags, emailTags, v).Keys ==
              m0.Keys + set t | t in tags && GetStatus(emailTags, [t], negativeTags) == Architectural
    ensures forall t :: t in PerTagAdded(m0, tags, negativeTags, emailTags, v) ==>
              PerTagAdded(m0, tags, negativeTags, emailTags, v)[t] ==
                if t in tags && GetStatus(emailTags, [t], negativeTags) == Architectural
                then TagList(m0, t) + [v] else m0[t]
  {
    if tags != [] {
      var init := tags[..|tags| - 1];
      var last := tags[|tags| - 1];
      assert tags == init + [last];
      assert Distinct(init) by {
        forall i, j | 0 <= i < j < |init| ensures init[i] != init[j] {
          assert init[i] == tags[i] && init[j] == tags[j];
        }
      }
      assert last !in init by {
        forall i | 0 <= i < |init| ensures init[i] != last {
          assert init[i] == tags[i];
        }
      }
      PerTagAddedSpec(m0, init, negativeTags, emailTags, v);
    }
  }

  class SizeDataSet {
    var anyTagData: seq<int>
    var notAkData: seq<int>
    var tagData: map<string, seq<int>>

    /** The data after the given part of the walk: the architectural and the
        non-architectural values against all positive tags, and a list for exactly
        those positive tags some walked email was architectural for on its own. */
    ghost predicate After(walk: seq<Email>, ch: Email -> int)
      reads this
    {
      && anyTagData == CharacteristicReport.ValuesWith(walk, ch, ReportGen.PositiveTags, ReportGen.NegativeTags, Architectural)
      && notAkData == CharacteristicReport.ValuesWith(walk, ch, ReportGen.PositiveTags, ReportGen.NegativeTags, NotArchitectural)
      && (forall t :: t in tagData <==> t in ReportGen.PositiveTags && TagValues(walk, ch, t) != [])
      && (forall t :: t in tagData ==> tagData[t] == TagValues(walk, ch, t))
    }

    constructor()
      ensures anyTagData == [] && notAkData == [] && tagData == map[]
    {
      anyTagData := [];
      notAkData := [];
      tagData := map[];
    }

    /** addTagSizeData: appends to the tag's list, creating it when absent; every other
        tag and both any-tag lists stay as they were. */
    method AddTagSizeData(tag: string, size: int)
      modifies this
      ensures tagData == old(tagData)[tag := TagList(old(tagData), tag) + [size]]
      ensures anyTagData == old(anyTagData) && notAkData == old(notAkData)
    {
      var list := TagList(tagData, tag);
      tagData := tagData[tag := list + [size]];
    }

    /** The loop over the positive tags: the value is added to a tag's list only when
        the email is architectural against that tag alone. */
    method AddPerTag(tags: seq<string>, negativeTags: seq<string>, emailTags: seq<string>, v: int)
      requires Distinct(tags)
      modifies this
      ensures anyTagData == old(anyTagData) && notAkData == old(notAkData)
      ensures tagData == PerTagAdded(old(tagData), tags, negativeTags, emailTags, v)
      ensures tagData.Keys == old(tagData).Keys + set t | t in tags && GetStatus(emailTags, [t], negativeTags) == Architectural
      ensures forall t :: t in tagData ==>
                tagData[t] == if t in tags && GetStatus(emailTags, [t], negativeTags) == Architectural
                              then TagList(old(tagData), t) + [v] else old(tagData)[t]
    {
      ghost var m0 := tagData;
      for i := 0 to |tags|
        invariant anyTagData == old(anyTagData) && notAkData == old(notAkData)
        invariant tagData == PerTagAdded(m0, tags[..i], negativeTags, emailTags, v)
      {
        assert tags[..i + 1][..i] == tags[..i];
        var tagStatus := GetStatus(emailTags, [tags[i]], negativeTags);
        if tagStatus == Architectural {
          AddTagSizeData(tags[i], v);
        }
      }
      assert tags[..|tags|] == tags;
      PerTagAddedSpec(m0, tags, negativeTags, emailTags, v);
    }

    /** The callback for one walked email with characteristic ch. */
    method Consume(e: Email, ch: Email -> int, ghost walk: seq<Email>)
      requires After(walk, ch)
      modifies this
      ensures After(walk + [e], ch)
    {
      var v := ch(e);
      var statusAnyTag := GetStatus(e.tags, ReportGen.PositiveTags, ReportGen.NegativeTags);
      if statusAnyTag == Architectural {
        anyTagData := anyTagData + [v];
      } else if statusAnyTag == NotArchitectural {
        notAkData := notAkData + [v];
      }
      CharacteristicReport.PositiveTagsDistinct();
      AddPerTag(ReportGen.PositiveTags, ReportGen.NegativeTags, e.tags, v);
      CharacteristicReport.ValuesWithSnoc(walk, e, ch, ReportGen.PositiveTags, ReportGen.NegativeTags, Architectural);
      CharacteristicReport.ValuesWithSnoc(walk, e, ch, ReportGen.PositiveTags, ReportGen.NegativeTags, NotArchitectural);
      forall t ensures TagValues(walk + [e], ch, t) == TagValues(walk, ch, t) +
                         (if GetStatus(e.tags, [t], ReportGen.NegativeTags) == Architectural then [v] else []) {
        CharacteristicReport.ValuesWithSnoc(walk, e, ch, [t], ReportGen.NegativeTags, Architectural);
      }
    }
  }

  /** getSizeData: the callback applied to every walked email in walk order. */
  method GetSizeData(walk: seq<Email>, ch: Email -> int) returns (data: SizeDataSet)
    ensures fresh(data) && data.After(walk, ch)
  {
    data := new SizeDataSet();
    for i := 0 to |walk|
      invariant data.After(walk[..i], ch)
    {
      assert walk[..i + 1] == walk[..i] + [walk[i]];
      data.Consume(walk[i], ch, walk[..i]);
    }
    assert walk[..|walk|] == walk;
  }

  /** A tag's CSV column holds exactly its own architectural values, and is empty for a
      tag that is not positive or never occurred. */
  lemma ColumnIsTagValues(d: SizeDataSet, walk: seq<Email>, ch: Email -> int, t: string)
    requires d.After(walk, ch)
    ensures TagList(d.tagData, t) == if t in ReportGen.PositiveTags then TagValues(walk, ch, t) else []
  {
  }

  /** tagData only has keys of tags some walked email carries (up to case). */
  lemma KeysOccurred(d: SizeDataSet, walk: seq<Email>, ch: Email -> int, t: string)
    requires d.After(walk, ch) && t in d.tagData
    ensures exists i, x :: 0 <= i < |walk| && x in walk[i].tags && LowerCase(x) == t
  {
    var v := TagValues(walk, ch, t)[0];
    CharacteristicReport.ValuesWithMember(walk, ch, [t], ReportGen.NegativeTags, Architectural, v);
    var i :| 0 <= i < |walk| && ch(walk[i]) == v && GetStatus(walk[i].tags, [t], ReportGen.NegativeTags) == Architectural;
    var x :| x in walk[i].tags && LowerCase(x) in [t];
  }

  /** Thread size: the recursive reply count plus one, so the root is counted. */
  function ThreadSize(e: Email): (n: int)
    ensures n == |Messages(e)| && n >= 1
  {
    CharacteristicReport.RepliesRecursive(e) + 1
  }

  /** generate's four data sets: body length and word count over the tagged emails,
      thread size and participation over the tagged threads. */
  method Generate(taggedEmails: seq<Email>, taggedThreads: seq<Email>, wordCount: Email -> int)
    returns (bodySize: SizeDataSet, words: SizeDataSet, threadSize: SizeDataSet, participation: SizeDataSet)
    ensures fresh(bodySize) && bodySize.After(taggedEmails, CharacteristicReport.BodyLength)
    ensures fresh(words) && words.After(taggedEmails, wordCount)
    ensures fresh(threadSize) && threadSize.After(taggedThreads, ThreadSize)
    ensures fresh(participation) && participation.After(taggedThreads, CharacteristicReport.ParticipantCount)
  {
    bodySize := GetSizeData(taggedEmails, CharacteristicReport.BodyLength);
    words := GetSizeData(taggedEmails, wordCount);
    threadSize := GetSizeData(taggedThreads, ThreadSize);
    participation := GetSizeData(taggedThreads, CharacteristicReport.ParticipantCount);
  }

  /** The sorted union of the data sets' tag keys. */
  method ColumnTags(dataSets: seq<SizeDataSet>) returns (tagsOrdered: seq<string>)
    ensures StrictlySorted(tagsOrdered)
    ensures forall t :: t in tagsOrdered <==> exists k :: 0 <= k < |dataSets| && t in dataSets[k].tagData
  {
    var allTags: set<string> := {};
    for k := 0 to |dataSets|
      invariant forall t :: t in allTags <==> exists j :: 0 <= j < k && t in dataSets[j].tagData
    {
      allTags := allTags + dataSets[k].tagData.Keys;
    }
    tagsOrdered := SortedNames(allTags);
  }

  /** One CSV cell: the characteristic's name or a printed list of values. */
  datatype Cell = Text(s: string) | Values(vs: seq<int>)

  /** One CSV record: name, NOT_AK, ANY_TAG, then each ordered tag's list or []. */
  method CsvRow(name: string, d: SizeDataSet, tagsOrdered: seq<string>) returns (row: seq<Cell>)
    ensures |row| == 3 + |tagsOrdered|
    ensures row[..3] == [Text(name), Values(d.notAkData), Values(d.anyTagData)]
    ensures forall i :: 0 <= i < |tagsOrdered| ==> row[3 + i] == Values(TagList(d.tagData, tagsOrdered[i]))
  {
    row := [Text(name), Values(d.notAkData), Values(d.anyTagData)];
    for i := 0 to |tagsOrdered|
      invariant |row| == 3 + i
      invariant row[..3] == [Text(name), Values(d.notAkData), Values(d.anyTagData)]
      invariant forall k :: 0 <= k < i ==> row[3 + k] == Values(TagList(d.tagData, tagsOrdered[k]))
    {
      var tag := tagsOrdered[i];
      if tag in d.tagData {
        row := row + [Values(d.tagData[tag])];
      } else {
        row := row + [Values([])];
      }
    }
  }

  /** The whole CSV table: the header row, then one record per characteristic; every
      record is as wide as the header, and the cell under a tag's header is that tag's
      list. */
  method CsvTable(names: seq<string>, dataSets: seq<SizeDataSet>) returns (headers: seq<string>, rows: seq<seq<Cell>>)
    requires |names| == |dataSets|
    ensures |headers| >= 3 && headers[..3] == ["CHARACTERISTIC", "NOT_AK", "ANY_TAG"]
    ensures StrictlySorted(headers[3..])
    ensures forall t :: t in headers[3..] <==> exists k :: 0 <= k < |dataSets| && t in dataSets[k].tagData
    ensures |rows| == |dataSets|
    ensures forall k :: 0 <= k < |rows| ==> |rows[k]| == |headers|
    ensures forall k :: 0 <= k < |rows| ==>
              rows[k][..3] == [Text(names[k]), Values(dataSets[k].notAkData), Values(dataSets[k].anyTagData)]
    ensures forall k, j :: 0 <= k < |rows| && 3 <= j < |headers| ==>
              rows[k][j] == Values(TagList(dataSets[k].tagData, headers[j]))
  {
    var tagsOrdered := ColumnTags(dataSets);
    headers := ["CHARACTERISTIC", "NOT_AK", "ANY_TAG"] + tagsOrdered;
    assert headers[3..] == tagsOrdered;
    rows := [];
    for k := 0 to |dataSets|
      invariant |rows| == k
      invariant forall m :: 0 <= m < k ==> |rows[m]| == |headers|
      invariant forall m :: 0 <= m < k ==>
                  rows[m][..3] == [Text(names[m]), Values(dataSets[m].notAkData), Values(dataSets[m].anyTagData)]
      invariant forall m, j :: 0 <= m < k && 3 <= j < |headers| ==>
                  rows[m][j] == Values(TagList(dataSets[m].tagData, headers[j]))
    {
      var row := CsvRow(names[k], dataSets[k], tagsOrdered);
      assert forall j :: 3 <= j < |headers| ==> row[j] == Values(TagList(dataSets[k].tagData, headers[j])) by {
        forall j | 3 <= j < |headers| ensures row[j] == Values(TagList(dataSets[k].tagData, headers[j])) {
          assert headers[j] == tagsOrdered[j - 3];
        }
      }
      rows := rows + [row];
    }
  }
}
