/**
 * WeatherDataProcessor: clean_and_transform_data as one specification function over
 * the stages of Frames, the processor object whose processed_data it sets, the summary
 * get_data_summary reports, and what the pipeline promises about its output.
 */
module Processor {
  import opened Common
  import opened Timestamps
  import opened Columns
  import opened Coercion
  import opened Imputation
  import opened Frames

  /** processed_df once every column is converted, before dropna. */
  function Converted(t: Table, p: Parsers, dc: nat, events: seq<seq<int>>): (fr: Frame)
    requires t.Valid() && dc < |t.columns|
    requires |events| == EventCount && forall k :: 0 <= k < EventCount ==> |events[k]| == t.rowCount
    ensures fr.Valid() && |fr.stamps| == t.rowCount
  {
    var mapping := ColMapping(t.columns);
    Frame(ParseStamps(t, p, dc), NumericColumns(t, p, mapping), CategoricalColumns(t, p, mapping), events)
  }

  /** The frame after dropna and imputation, before the sort. */
  function Survivors(fr: Frame): (r: Frame)
    requires fr.Valid()
    ensures r.Valid()
    ensures forall i :: 0 <= i < |r.stamps| ==> r.stamps[i].Some?
    ensures |r.stamps| == CountValid(fr.stamps)
  {
    var kept := DropInvalid(fr);
    ImputedShape(kept.numeric);
    kept.(numeric := Imputed(kept.numeric))
  }

  /** clean_and_transform_data: the canonical records sorted by time, or the error it raises. */
  function CleanAndTransform(t: Table, p: Parsers): Result<seq<WeatherRecord>, ProcessingError>
    requires t.Valid()
  {
    match DatetimeColumn(t.columns)
    case None => Err(NoDatetimeColumn)
    case Some(dc) =>
      if CountValid(ParseStamps(t, p, dc)) == 0 then Err(NoValidDates)
      else
        match EventColumns(t, p, ColMapping(t.columns))
        case Err(e) => Err(e)
        case Ok(events) => Ok(SortByTime(Records(Survivors(Converted(t, p, dc, events)))))
  }

  /** What get_data_summary returns: an error entry before any successful processing,
      otherwise the row count and the first and last year (None for an empty frame). */
  datatype Summary =
    | NoProcessedData
    | Summary(totalRecords: nat, startYear: Option<int>, endYear: Option<int>)

  function MinYear(rs: seq<WeatherRecord>): (m: int)
    requires |rs| > 0
    ensures forall k :: 0 <= k < |rs| ==> m <= rs[k].year
    ensures exists k :: 0 <= k < |rs| && rs[k].year == m
  {
    if |rs| == 1 then rs[0].year
    else
      var m := MinYear(rs[1..]);
      assert forall k :: 1 <= k < |rs| ==> rs[1..][k - 1] == rs[k];
      if rs[0].year <= m then rs[0].year else m
  }

  function MaxYear(rs: seq<WeatherRecord>): (m: int)
    requires |rs| > 0
    ensures forall k :: 0 <= k < |rs| ==> rs[k].year <= m
    ensures exists k :: 0 <= k < |rs| && rs[k].year == m
  {
    if |rs| == 1 then rs[0].year
    else
      var m := MaxYear(rs[1..]);
      assert forall k :: 1 <= k < |rs| ==> rs[1..][k - 1] == rs[k];
      if rs[0].year >= m then rs[0].year else m
  }

  /** The summary of what processed_data holds. */
  function SummaryOf(data: Option<seq<WeatherRecord>>): (s: Summary)
    ensures data.None? <==> s.NoProcessedData?
    ensures data.Some? ==>
      && s.totalRecords == |data.value|
      && (s.startYear.Some? <==> |data.value| > 0)
      && (s.endYear.Some? <==> |data.value| > 0)
      && (s.startYear.Some? ==> s.startYear.value == MinYear(data.value) <= s.endYear.value == MaxYear(data.value))
  {
    match data
    case None => NoProcessedData
    case Some(rs) =>
      if |rs| == 0 then Summary(0, None, None)
      else Summary(|rs|, Some(MinYear(rs)), Some(MaxYear(rs)))
  }

  class WeatherDataProcessor {
    /** The last successfully processed frame, if any. */
    var processedData: Option<seq<WeatherRecord>>

    constructor()
      ensures processedData == None
    {
      processedData := None;
    }

    /** Runs the pipeline stage by stage; on success the result is kept in processedData,
        on failure processedData is left as it was. */
    method CleanAndTransformData(t: Table, p: Parsers) returns (r: Result<seq<WeatherRecord>, ProcessingError>)
      requires t.Valid()
      modifies this
      ensures r == CleanAndTransform(t, p)
      ensures r.Ok? ==> processedData == Some(r.value)
      ensures r.Err? ==> processedData == old(processedData)
    {
      var dc := FindDatetimeColumn(t.columns);
      if dc.None? {
        return Err(NoDatetimeColumn);
      }
      var stamps := ParseStamps(t, p, dc.value);
      if CountValid(stamps) == 0 {
        return Err(NoValidDates);
      }
      var mapping := ColMapping(t.columns);
      var numeric := MapNumericColumns(t, p, mapping);
      var categorical := MapCategoricalColumns(t, p, mapping);
      var events := MapEventColumns(t, p, mapping);
      if events.Err? {
        return Err(events.error);
      }
      var converted := Frame(stamps, numeric, categorical, events.value);
      assert converted == Converted(t, p, dc.value, events.value);
      var kept := DropInvalid(converted);
      var imputed := ImputeNumericColumns(kept.numeric);
      var survivors := kept.(numeric := imputed);
      assert survivors == Survivors(converted);
      var rows := SortByTime(Records(survivors));
      processedData := Some(rows);
      r := Ok(rows);
    }

    /** get_data_summary. */
    function DataSummary(): (s: Summary)
      reads this
      ensures processedData.None? <==> s.NoProcessedData?
      ensures processedData.Some? ==> s.totalRecords == |processedData.value|
      ensures s == SummaryOf(processedData)
    {
      SummaryOf(processedData)
    }
  }

  // ---------------------------------------------------------------------------
  // What the pipeline promises

  /** It raises "Cannot find datetime column" exactly when no column name is a
      timestamp spelling. */
  lemma NoDatetimeColumnIff(t: Table, p: Parsers)
    requires t.Valid()
    ensures CleanAndTransform(t, p) == Err(NoDatetimeColumn)
        <==> forall j :: 0 <= j < |t.columns| ==> !IsDatetimeName(t.columns[j])
  {
  }

  /** It raises "No valid dates" exactly when a timestamp column exists but none of its
      cells parses. */
  lemma NoValidDatesIff(t: Table, p: Parsers)
    requires t.Valid()
    ensures CleanAndTransform(t, p) == Err(NoValidDates)
        <==> && DatetimeColumn(t.columns).Some?
             && forall i :: 0 <= i < t.rowCount ==> ParseTimestamp(p, t.data[DatetimeColumn(t.columns).value][i]).None?
  {
    if DatetimeColumn(t.columns).Some? {
      CountValidZero(ParseStamps(t, p, DatetimeColumn(t.columns).value));
    }
  }

  /** An event column that astype(int) rejects makes the whole call raise, even when the
      offending cell sits in a row that dropna would have removed. */
  lemma EventErrorIff(t: Table, p: Parsers)
    requires t.Valid()
    ensures (CleanAndTransform(t, p).Err? && CleanAndTransform(t, p).error.EventNotInteger?)
        <==> && DatetimeColumn(t.columns).Some?
             && CountValid(ParseStamps(t, p, DatetimeColumn(t.columns).value)) > 0
             && exists k :: 0 <= k < EventCount && EventColumn(t, p, ColMapping(t.columns), k).None?
  {
    if DatetimeColumn(t.columns).Some? {
      var dc := DatetimeColumn(t.columns).value;
      if CountValid(ParseStamps(t, p, dc)) > 0 {
        var ev := EventColumns(t, p, ColMapping(t.columns));
        assert CleanAndTransform(t, p).Err? <==> ev.Err?;
        assert ev.Err? ==> CleanAndTransform(t, p) == Err(ev.error);
      }
    }
  }

  /** Column names are matched on their keys only: respelling raw labels with other
      case, underscores or spaces, without touching a cell, leaves the result of
      clean_and_transform_data unchanged, whether records or error. */
  lemma RenameInvariance(t: Table, u: Table, p: Parsers)
    requires t.Valid() && SameCells(t, u) && SameKeys(t.columns, u.columns)
    ensures u.Valid()
    ensures CleanAndTransform(t, p) == CleanAndTransform(u, p)
  {
    ColumnChoiceSameKeys(t.columns, u.columns);
    match DatetimeColumn(t.columns)
    case None =>
    case Some(dc) =>
      var mapping := ColMapping(t.columns);
      ConversionsSameCells(t, u, p, mapping, dc);
      if CountValid(ParseStamps(t, p, dc)) != 0 {
        var ev := EventColumns(t, p, mapping);
        if ev.Ok? {
          ConvertedSameCells(t, u, p, dc, ev.value);
          var fr := Converted(t, p, dc, ev.value);
          assert CleanAndTransform(t, p) == Ok(SortByTime(Records(Survivors(fr))));
          assert CleanAndTransform(u, p) == Ok(SortByTime(Records(Survivors(fr))));
        }
      }
  }

  lemma ConvertedSameCells(t: Table, u: Table, p: Parsers, dc: nat, events: seq<seq<int>>)
    requires t.Valid() && SameCells(t, u) && SameKeys(t.columns, u.columns) && dc < |t.columns|
    requires |events| == EventCount && forall k :: 0 <= k < EventCount ==> |events[k]| == t.rowCount
    ensures u.Valid()
    ensures Converted(t, p, dc, events) == Converted(u, p, dc, events)
  {
    ColumnChoiceSameKeys(t.columns, u.columns);
    ConversionsSameCells(t, u, p, ColMapping(t.columns), dc);
  }

  /** On success there is one record per parsed timestamp, at least one, ordered by time,
      and the records are a reordering of the surviving rows. */
  lemma ProcessedRows(t: Table, p: Parsers)
    requires t.Valid()
    ensures CleanAndTransform(t, p).Ok? ==>
      var dc := DatetimeColumn(t.columns).value;
      var events := EventColumns(t, p, ColMapping(t.columns)).value;
      var out := CleanAndTransform(t, p).value;
      && |out| == CountValid(ParseStamps(t, p, dc)) > 0
      && SortedByTime(out)
      && multiset(out) == multiset(Records(Survivors(Converted(t, p, dc, events))))
  {
    if CleanAndTransform(t, p).Ok? {
      var dc := DatetimeColumn(t.columns).value;
      var events := EventColumns(t, p, ColMapping(t.columns)).value;
      var recs := Records(Survivors(Converted(t, p, dc, events)));
      var out := SortByTime(recs);
      assert |out| == |recs| by {
        assert |multiset(out)| == |multiset(recs)|;
      }
    }
  }

  /** Every record of the sorted output is the record of some kept position. */
  lemma SortedRecordIsRow(fr: Frame, x: WeatherRecord)
    requires fr.Valid() && x in SortByTime(Records(Survivors(fr)))
    ensures exists k :: 0 <= k < |Survivors(fr).stamps| && x == RecordAt(Survivors(fr), k)
  {
    var recs := Records(Survivors(fr));
    assert x in multiset(SortByTime(recs));
    assert x in multiset(recs);
    var k :| 0 <= k < |recs| && recs[k] == x;
  }

  /** Each output record comes from one input row whose timestamp parsed: its categorical
      and event values are that row's, and its numeric values are that row's wherever
      the row had one. */
  lemma RecordOrigin(fr: Frame, x: WeatherRecord)
    requires fr.Valid() && x in SortByTime(Records(Survivors(fr)))
    ensures CalendarConsistent(x)
    ensures exists i :: 0 <= i < |fr.stamps| && RowOf(fr, i, x)
  {
    SortedRecordIsRow(fr, x);
    var s := Survivors(fr);
    var k :| 0 <= k < |s.stamps| && x == RecordAt(s, k);
    var kept := DropInvalid(fr);
    var i := KeptIndices(fr.stamps)[k];
    ImputedShape(kept.numeric);
    forall f | 0 <= f < NumericCount && fr.numeric[f][i].Some?
      ensures x.numeric[f] == fr.numeric[f][i]
    {
      assert kept.numeric[f][k] == fr.numeric[f][i];
      if f < CriticalCount {
        CriticalImputationAt(kept.numeric[f], k);
      } else {
        OtherImputation(kept.numeric[f]);
      }
    }
    assert RowOf(fr, i, x);
  }

  /** Record x carries input position i of the converted frame. */
  predicate RowOf(fr: Frame, i: nat, x: WeatherRecord)
    requires fr.Valid() && i < |fr.stamps|
  {
    && fr.stamps[i] == Some(x.datetimeUtc)
    && |x.numeric| == NumericCount && |x.categorical| == CategoricalCount && |x.events| == EventCount
    && (forall f :: 0 <= f < NumericCount && fr.numeric[f][i].Some? ==> x.numeric[f] == fr.numeric[f][i])
    && (forall c :: 0 <= c < CategoricalCount ==> x.categorical[c] == fr.categorical[c][i])
    && (forall k :: 0 <= k < EventCount ==> x.events[k] == fr.events[k][i])
  }

  /** After imputation a numeric field is null in a record only when no surviving row
      had a value for it; then it is null in every record. */
  lemma NullOnlyWhenFieldEmpty(fr: Frame, x: WeatherRecord, f: nat)
    requires fr.Valid() && x in SortByTime(Records(Survivors(fr))) && f < NumericCount
    ensures |x.numeric| == NumericCount
    ensures x.numeric[f].None? <==> AllMissing(DropInvalid(fr).numeric[f])
  {
    SortedRecordIsRow(fr, x);
    var s := Survivors(fr);
    var k :| 0 <= k < |s.stamps| && x == RecordAt(s, k);
    var kept := DropInvalid(fr);
    ImputedShape(kept.numeric);
    if f < CriticalCount {
      CriticalGapSurvives(kept.numeric[f], k);
    } else {
      OtherImputation(kept.numeric[f]);
    }
  }

  /** A numeric field that is null in one record is null in every record. */
  predicate NullsAreWholeColumns(out: seq<WeatherRecord>)
  {
    && (forall a :: 0 <= a < |out| ==> |out[a].numeric| == NumericCount)
    && forall a, b, f :: 0 <= a < |out| && 0 <= b < |out| && 0 <= f < |out[a].numeric| && f < |out[b].numeric| ==>
         out[a].numeric[f].None? ==> out[b].numeric[f].None?
  }

  /** A column whose nulls, if any, cover every row. */
  predicate WholeColumnNulls(col: Column)
  {
    forall a, b :: 0 <= a < |col| && 0 <= b < |col| && col[a].None? ==> col[b].None?
  }

  /** Both imputations leave a column either free of nulls or entirely null. */
  lemma ImputedNullsAreWhole(numeric: seq<Column>, f: nat)
    requires |numeric| == NumericCount && f < NumericCount
    ensures |Imputed(numeric)[f]| == |numeric[f]|
    ensures WholeColumnNulls(Imputed(numeric)[f])
  {
    if f < CriticalCount {
      CriticalImputation(numeric[f]);
    } else {
      OtherImputation(numeric[f]);
    }
  }

  /** The records of a frame whose numeric columns have only whole-column nulls. */
  lemma RecordsKeepWholeNulls(fr: Frame)
    requires fr.Valid() && forall i :: 0 <= i < |fr.stamps| ==> fr.stamps[i].Some?
    requires forall f :: 0 <= f < NumericCount ==> WholeColumnNulls(fr.numeric[f])
    ensures NullsAreWholeColumns(Records(fr))
  {
  }

  /** Reordering records keeps the property. */
  lemma PermutationKeepsWholeNulls(recs: seq<WeatherRecord>, out: seq<WeatherRecord>)
    requires multiset(out) == multiset(recs) && NullsAreWholeColumns(recs)
    ensures NullsAreWholeColumns(out)
  {
    forall a | 0 <= a < |out|
      ensures exists i :: 0 <= i < |recs| && recs[i] == out[a]
    {
      assert out[a] in multiset(recs);
    }
  }

  /** Over the records of a frame, imputation leaves only whole-column nulls. */
  lemma ImputationLeavesWholeColumnNulls(fr: Frame)
    requires fr.Valid()
    ensures NullsAreWholeColumns(SortByTime(Records(Survivors(fr))))
  {
    var s := Survivors(fr);
    var kept := DropInvalid(fr);
    forall f | 0 <= f < NumericCount
      ensures WholeColumnNulls(s.numeric[f])
    {
      ImputedNullsAreWhole(kept.numeric, f);
    }
    RecordsKeepWholeNulls(s);
    PermutationKeepsWholeNulls(Records(s), SortByTime(Records(s)));
  }

  /** The whole-pipeline form: in the processed output a numeric null in one record
      means that field is null in every record. */
  lemma ProcessedNullsAreWholeColumns(t: Table, p: Parsers)
    requires t.Valid()
    ensures CleanAndTransform(t, p).Ok? ==> NullsAreWholeColumns(CleanAndTransform(t, p).value)
  {
    if CleanAndTransform(t, p).Ok? {
      var dc := DatetimeColumn(t.columns).value;
      var fr := Converted(t, p, dc, EventColumns(t, p, ColMapping(t.columns)).value);
      assert CleanAndTransform(t, p).value == SortByTime(Records(Survivors(fr)));
      ImputationLeavesWholeColumnNulls(fr);
    }
  }

  /** The whole-pipeline form of RecordOrigin, stated on the input table. */
  lemma ProcessedRecordsComeFromInput(t: Table, p: Parsers)
    requires t.Valid()
    ensures CleanAndTransform(t, p).Ok? ==>
      var dc := DatetimeColumn(t.columns).value;
      var mapping := ColMapping(t.columns);
      forall x :: x in CleanAndTransform(t, p).value ==>
        && CalendarConsistent(x)
        && exists i :: 0 <= i < t.rowCount && RowOf(Converted(t, p, dc, EventColumns(t, p, mapping).value), i, x)
  {
    if CleanAndTransform(t, p).Ok? {
      var dc := DatetimeColumn(t.columns).value;
      var fr := Converted(t, p, dc, EventColumns(t, p, ColMapping(t.columns)).value);
      forall x | x in CleanAndTransform(t, p).value
        ensures CalendarConsistent(x) && exists i :: 0 <= i < t.rowCount && RowOf(fr, i, x)
      {
        RecordOrigin(fr, x);
      }
    }
  }

  /** Every record carries all six event values; a kind with no matching raw column
      is 0 in every record. */
  lemma ProcessedEvents(t: Table, p: Parsers)
    requires t.Valid()
    ensures CleanAndTransform(t, p).Ok? ==>
      forall x :: x in CleanAndTransform(t, p).value ==>
        && |x.events| == EventCount
        && forall k :: 0 <= k < EventCount && Resolve(ColMapping(t.columns), EventKinds[k]).None? ==>
             x.events[k] == 0
  {
    if CleanAndTransform(t, p).Ok? {
      var dc := DatetimeColumn(t.columns).value;
      var mapping := ColMapping(t.columns);
      var events := EventColumns(t, p, mapping).value;
      var fr := Converted(t, p, dc, events);
      ProcessedRecordsComeFromInput(t, p);
      forall x | x in CleanAndTransform(t, p).value
        ensures |x.events| == EventCount
        ensures forall k :: 0 <= k < EventCount && Resolve(mapping, EventKinds[k]).None? ==> x.events[k] == 0
      {
        var i :| 0 <= i < t.rowCount && RowOf(fr, i, x);
        forall k | 0 <= k < EventCount && Resolve(mapping, EventKinds[k]).None?
          ensures x.events[k] == 0
        {
          assert x.events[k] == events[k][i];
          assert Some(events[k]) == EventColumn(t, p, mapping, k);
        }
      }
    }
  }

  /** In a list sorted by time the first record has the smallest year and the last the largest. */
  lemma SortedYears(rs: seq<WeatherRecord>)
    requires |rs| > 0 && SortedByTime(rs)
    requires forall x :: x in rs ==> CalendarConsistent(x)
    ensures MinYear(rs) == rs[0].year && MaxYear(rs) == rs[|rs| - 1].year
  {
    forall k | 0 <= k < |rs|
      ensures rs[0].year <= rs[k].year <= rs[|rs| - 1].year
    {
      assert rs[0] in rs && rs[k] in rs && rs[|rs| - 1] in rs;
      if 0 < k {
        NotAfterYear(rs[0].datetimeUtc, rs[k].datetimeUtc);
      }
      if k < |rs| - 1 {
        NotAfterYear(rs[k].datetimeUtc, rs[|rs| - 1].datetimeUtc);
      }
    }
  }

  /** After a successful run the summary reports the number of records and, as its date
      range, the years of the first and the last record. */
  lemma SummaryAfterProcessing(t: Table, p: Parsers)
    requires t.Valid()
    ensures CleanAndTransform(t, p).Ok? ==>
      var out := CleanAndTransform(t, p).value;
      && |out| > 0
      && SummaryOf(Some(out)) == Summary(|out|, Some(out[0].year), Some(out[|out| - 1].year))
  {
    if CleanAndTransform(t, p).Ok? {
      ProcessedRows(t, p);
      ProcessedRecordsComeFromInput(t, p);
      SortedYears(CleanAndTransform(t, p).value);
    }
  }
}
