/**
 * The tables clean_and_transform_data works on: the raw table it is given, the frame
 * of converted columns it builds from it, the rows that survive dropna, and the
 * canonical weather records it finally sorts by time.
 */
module Frames {
  import opened Common
  import opened Text
  import opened Timestamps
  import opened Statistics
  import opened Columns
  import opened Coercion
  import opened Imputation

  /** A raw table, column by column as pandas stores it: the labels, and for each
      label the cells of that column, all rowCount long. */
  datatype Table = Table(columns: seq<string>, data: seq<seq<Cell>>, rowCount: nat)
  {
    predicate Valid()
    {
      && |data| == |columns|
      && forall j :: 0 <= j < |data| ==> |data[j]| == rowCount
    }
  }

  // ---------------------------------------------------------------------------
  // The canonical fields

  /** The raw names looked up for the numeric fields, in lookup order. */
  const NumericSources: seq<string> :=
    ["tempm", "hum", "pressurem", "heatindexm", "dewptm", "precipm",
     "vism", "wdird", "wspdm", "wgustm", "windchillm"]

  /** The canonical names of the numeric fields, position for position. */
  const NumericNames: seq<string> :=
    ["temperature", "humidity", "pressure", "heat_index", "dew_point", "precipitation",
     "visibility", "wind_direction", "wind_speed", "wind_gust", "wind_chill"]

  /** temperature, humidity and pressure (the first three numeric fields) are critical. */
  const CriticalCount: nat := 3

  const NumericCount: nat := |NumericSources|

  const CategoricalSources: seq<string> := ["conds", "wdire"]

  const CategoricalNames: seq<string> := ["weather_condition", "wind_direction_text"]

  const CategoricalCount: nat := |CategoricalSources|

  /** The event kinds; field k of the output is named EventKinds[k] + "_event". */
  const EventKinds: seq<string> := ["fog", "hail", "rain", "snow", "thunder", "tornado"]

  const EventCount: nat := |EventKinds|

  /** The search keys: every looked-up name is already normalised, so each field is
      looked up under its own name (search_key equals original_col for all of them). */
  lemma SearchKeysAreNames()
    ensures forall f :: 0 <= f < NumericCount ==> NormKey(NumericSources[f]) == NumericSources[f]
    ensures forall c :: 0 <= c < CategoricalCount ==> NormKey(CategoricalSources[c]) == CategoricalSources[c]
    ensures forall k :: 0 <= k < EventCount ==> Lower(EventKinds[k]) == EventKinds[k]
  {
    forall f | 0 <= f < NumericCount
      ensures NormKey(NumericSources[f]) == NumericSources[f]
    {
      assert PlainLowerName(NumericSources[f]);
      NormKeyOfPlainName(NumericSources[f]);
    }
    forall c | 0 <= c < CategoricalCount
      ensures NormKey(CategoricalSources[c]) == CategoricalSources[c]
    {
      assert PlainLowerName(CategoricalSources[c]);
      NormKeyOfPlainName(CategoricalSources[c]);
    }
    forall k | 0 <= k < EventCount
      ensures Lower(EventKinds[k]) == EventKinds[k]
    {
      assert PlainLowerName(EventKinds[k]);
      NormKeyOfPlainName(EventKinds[k]);
    }
  }

  // ---------------------------------------------------------------------------
  // Stage 1: the timestamp column

  /** pd.to_datetime(errors='coerce') over the whole timestamp column. */
  function ParseStamps(t: Table, p: Parsers, dc: nat): (r: seq<Option<Timestamp>>)
    requires t.Valid() && dc < |t.columns|
    ensures |r| == t.rowCount
    ensures forall i :: 0 <= i < t.rowCount ==> r[i] == ParseTimestamp(p, t.data[dc][i])
  {
    seq(t.rowCount, i requires 0 <= i < t.rowCount => ParseTimestamp(p, t.data[dc][i]))
  }

  /** notna().sum() of the parsed column. */
  function CountValid(stamps: seq<Option<Timestamp>>): nat
  {
    CountValidFrom(stamps, 0)
  }

  /** The parsed timestamps among positions `from..` of the column. */
  function CountValidFrom(stamps: seq<Option<Timestamp>>, from: nat): nat
    requires from <= |stamps|
    decreases |stamps| - from
  {
    if from == |stamps| then 0 else (if stamps[from].Some? then 1 else 0) + CountValidFrom(stamps, from + 1)
  }

  lemma CountValidZero(stamps: seq<Option<Timestamp>>)
    ensures CountValid(stamps) == 0 <==> forall i :: 0 <= i < |stamps| ==> stamps[i].None?
  {
    CountValidFromZero(stamps, 0);
  }

  lemma {:induction false} CountValidFromZero(stamps: seq<Option<Timestamp>>, from: nat)
    requires from <= |stamps|
    ensures CountValidFrom(stamps, from) == 0 <==> forall i :: from <= i < |stamps| ==> stamps[i].None?
    decreases |stamps| - from
  {
    if from < |stamps| {
      CountValidFromZero(stamps, from + 1);
    }
  }

  // ---------------------------------------------------------------------------
  // Stage 2: the numeric, categorical and event columns

  /** The all-null column an unresolved field reads as. */
  function NullColumn<T>(n: nat): (r: seq<Option<T>>)
    ensures |r| == n && forall i :: 0 <= i < n ==> r[i].None?
  {
    seq(n, i => None)
  }

  /** Numeric field f: pd.to_numeric(errors='coerce') of the column its search key
      resolves to, or all null when no raw column has that key. */
  function NumericColumn(t: Table, p: Parsers, mapping: map<string, nat>, f: nat): (r: Column)
    requires t.Valid() && f < NumericCount
    requires forall key :: key in mapping ==> mapping[key] < |t.columns|
    ensures |r| == t.rowCount
    ensures Resolve(mapping, NumericSources[f]).None? ==> forall i :: 0 <= i < |r| ==> r[i].None?
    ensures Resolve(mapping, NumericSources[f]).Some? ==>
      var j := Resolve(mapping, NumericSources[f]).value;
      forall i :: 0 <= i < |r| ==> r[i] == ParseNumber(p, t.data[j][i])
  {
    match Resolve(mapping, NumericSources[f])
    case None => NullColumn(t.rowCount)
    case Some(j) => seq(t.rowCount, i requires 0 <= i < t.rowCount => ParseNumber(p, t.data[j][i]))
  }

  /** Categorical field c: astype(str), strip, and the null tokens replaced by None;
      all null when unresolved. */
  function CategoricalColumn(t: Table, p: Parsers, mapping: map<string, nat>, c: nat): (r: seq<Option<string>>)
    requires t.Valid() && c < CategoricalCount
    requires forall key :: key in mapping ==> mapping[key] < |t.columns|
    ensures |r| == t.rowCount
    ensures Resolve(mapping, CategoricalSources[c]).None? ==> forall i :: 0 <= i < |r| ==> r[i].None?
    ensures Resolve(mapping, CategoricalSources[c]).Some? ==>
      var j := Resolve(mapping, CategoricalSources[c]).value;
      forall i :: 0 <= i < |r| ==> r[i] == Categorize(p, t.data[j][i])
  {
    match Resolve(mapping, CategoricalSources[c])
    case None => NullColumn(t.rowCount)
    case Some(j) => seq(t.rowCount, i requires 0 <= i < t.rowCount => Categorize(p, t.data[j][i]))
  }

  /** Whether every cell of raw column j survives fillna(0).astype(int). */
  predicate EventConvertible(t: Table, p: Parsers, j: nat)
    requires t.Valid() && j < |t.columns|
  {
    forall i :: 0 <= i < t.rowCount ==> EventValue(p, t.data[j][i]).Some?
  }

  /** Event kind k: fillna(0).astype(int) of the resolved column, None when astype
      raises on one of its cells, and the constant 0 column when unresolved. */
  function EventColumn(t: Table, p: Parsers, mapping: map<string, nat>, k: nat): (r: Option<seq<int>>)
    requires t.Valid() && k < EventCount
    requires forall key :: key in mapping ==> mapping[key] < |t.columns|
    ensures r.Some? ==> |r.value| == t.rowCount
    ensures Resolve(mapping, EventKinds[k]).None? ==>
      r.Some? && forall i :: 0 <= i < t.rowCount ==> r.value[i] == 0
    ensures Resolve(mapping, EventKinds[k]).Some? ==>
      var j := Resolve(mapping, EventKinds[k]).value;
      && (r.Some? <==> EventConvertible(t, p, j))
      && (r.Some? ==> forall i :: 0 <= i < t.rowCount ==> Some(r.value[i]) == EventValue(p, t.data[j][i]))
  {
    match Resolve(mapping, EventKinds[k])
    case None => Some(seq(t.rowCount, i => 0))
    case Some(j) =>
      if EventConvertible(t, p, j)
      then Some(seq(t.rowCount, i requires 0 <= i < t.rowCount => EventValue(p, t.data[j][i]).value))
      else None
  }

  /** The first event kind, from k on, whose conversion raises. */
  function FirstBadEvent(t: Table, p: Parsers, mapping: map<string, nat>, k: nat): (r: Option<nat>)
    requires t.Valid() && k <= EventCount
    requires forall key :: key in mapping ==> mapping[key] < |t.columns|
    ensures r.Some? ==>
      && k <= r.value < EventCount
      && EventColumn(t, p, mapping, r.value).None?
      && forall g :: k <= g < r.value ==> EventColumn(t, p, mapping, g).Some?
    ensures r.None? ==> forall g :: k <= g < EventCount ==> EventColumn(t, p, mapping, g).Some?
    decreases EventCount - k
  {
    if k == EventCount then None
    else if EventColumn(t, p, mapping, k).None? then Some(k)
    else FirstBadEvent(t, p, mapping, k + 1)
  }

  /** Why clean_and_transform_data raises. */
  datatype ProcessingError =
    | NoDatetimeColumn          // "Cannot find datetime column in the dataset"
    | NoValidDates              // "No valid dates found after conversion"
    | EventNotInteger(kind: string)  // astype(int) failing on the event column of this kind

  /** The six event columns, or the error of the first kind whose conversion raises. */
  function EventColumns(t: Table, p: Parsers, mapping: map<string, nat>): (r: Result<seq<seq<int>>, ProcessingError>)
    requires t.Valid()
    requires forall key :: key in mapping ==> mapping[key] < |t.columns|
    ensures r.Ok? <==> forall k :: 0 <= k < EventCount ==> EventColumn(t, p, mapping, k).Some?
    ensures r.Err? ==> r.error.EventNotInteger?
    ensures r.Ok? ==> |r.value| == EventCount
    ensures r.Ok? ==> forall k :: 0 <= k < EventCount ==> Some(r.value[k]) == EventColumn(t, p, mapping, k)
  {
    match FirstBadEvent(t, p, mapping, 0)
    case Some(k) => Err(EventNotInteger(EventKinds[k]))
    case None => Ok(seq(EventCount, k requires 0 <= k < EventCount => EventColumn(t, p, mapping, k).value))
  }

  /** The numeric columns the loop over numeric_columns creates, in field order. */
  function NumericColumns(t: Table, p: Parsers, mapping: map<string, nat>): (r: seq<Column>)
    requires t.Valid()
    requires forall key :: key in mapping ==> mapping[key] < |t.columns|
    ensures |r| == NumericCount
    ensures forall f :: 0 <= f < NumericCount ==> r[f] == NumericColumn(t, p, mapping, f)
  {
    seq(NumericCount, f requires 0 <= f < NumericCount => NumericColumn(t, p, mapping, f))
  }

  function CategoricalColumns(t: Table, p: Parsers, mapping: map<string, nat>): (r: seq<seq<Option<string>>>)
    requires t.Valid()
    requires forall key :: key in mapping ==> mapping[key] < |t.columns|
    ensures |r| == CategoricalCount
    ensures forall c :: 0 <= c < CategoricalCount ==> r[c] == CategoricalColumn(t, p, mapping, c)
  {
    seq(CategoricalCount, c requires 0 <= c < CategoricalCount => CategoricalColumn(t, p, mapping, c))
  }

  /** Two tables that differ at most in their labels: the same cells and the same
      number of labels. */
  predicate SameCells(t: Table, u: Table)
  {
    u.data == t.data && u.rowCount == t.rowCount && |u.columns| == |t.columns|
  }

  /** The first failing event kind depends on the cells and the mapping, not the labels. */
  lemma {:induction false} FirstBadEventSameCells(t: Table, u: Table, p: Parsers, mapping: map<string, nat>, k: nat)
    requires t.Valid() && SameCells(t, u) && k <= EventCount
    requires forall key :: key in mapping ==> mapping[key] < |t.columns|
    ensures u.Valid()
    ensures FirstBadEvent(t, p, mapping, k) == FirstBadEvent(u, p, mapping, k)
    decreases EventCount - k
  {
    if k < EventCount {
      assert EventColumn(t, p, mapping, k) == EventColumn(u, p, mapping, k) by {
        match Resolve(mapping, EventKinds[k])
        case None =>
        case Some(j) =>
          assert EventConvertible(t, p, j) == EventConvertible(u, p, j);
      }
      FirstBadEventSameCells(t, u, p, mapping, k + 1);
    }
  }

  /** Every converted column is computed from the cells through the mapping: relabelling
      a table leaves the parsed timestamps and all numeric, categorical and event
      columns unchanged. */
  lemma ConversionsSameCells(t: Table, u: Table, p: Parsers, mapping: map<string, nat>, dc: nat)
    requires t.Valid() && SameCells(t, u) && dc < |t.columns|
    requires forall key :: key in mapping ==> mapping[key] < |t.columns|
    ensures u.Valid()
    ensures ParseStamps(t, p, dc) == ParseStamps(u, p, dc)
    ensures NumericColumns(t, p, mapping) == NumericColumns(u, p, mapping)
    ensures CategoricalColumns(t, p, mapping) == CategoricalColumns(u, p, mapping)
    ensures EventColumns(t, p, mapping) == EventColumns(u, p, mapping)
  {
    forall f | 0 <= f < NumericCount
      ensures NumericColumn(t, p, mapping, f) == NumericColumn(u, p, mapping, f)
    {
    }
    forall c | 0 <= c < CategoricalCount
      ensures CategoricalColumn(t, p, mapping, c) == CategoricalColumn(u, p, mapping, c)
    {
    }
    EventColumnsSameCells(t, u, p, mapping);
  }

  lemma EventColumnsSameCells(t: Table, u: Table, p: Parsers, mapping: map<string, nat>)
    requires t.Valid() && SameCells(t, u)
    requires forall key :: key in mapping ==> mapping[key] < |t.columns|
    ensures u.Valid()
    ensures EventColumns(t, p, mapping) == EventColumns(u, p, mapping)
  {
    FirstBadEventSameCells(t, u, p, mapping, 0);
    forall k | 0 <= k < EventCount
      ensures EventColumn(t, p, mapping, k) == EventColumn(u, p, mapping, k)
    {
      match Resolve(mapping, EventKinds[k])
      case None =>
      case Some(j) =>
        assert EventConvertible(t, p, j) == EventConvertible(u, p, j);
    }
    var et, eu := EventColumns(t, p, mapping), EventColumns(u, p, mapping);
    if et.Ok? {
      assert eu.Ok?;
      assert forall k :: 0 <= k < EventCount ==> Some(et.value[k]) == Some(eu.value[k]);
      assert et.value == eu.value;
    }
  }

  /** The loop over numeric_columns. */
  method MapNumericColumns(t: Table, p: Parsers, mapping: map<string, nat>) returns (cols: seq<Column>)
    requires t.Valid()
    requires forall key :: key in mapping ==> mapping[key] < |t.columns|
    ensures cols == NumericColumns(t, p, mapping)
  {
    ghost var all := NumericColumns(t, p, mapping);
    cols := [];
    var f := 0;
    while f < NumericCount
      invariant 0 <= f <= NumericCount && cols == all[..f]
    {
      cols := cols + [NumericColumn(t, p, mapping, f)];
      f := f + 1;
    }
  }

  /** The loop over categorical_columns. */
  method MapCategoricalColumns(t: Table, p: Parsers, mapping: map<string, nat>) returns (cols: seq<seq<Option<string>>>)
    requires t.Valid()
    requires forall key :: key in mapping ==> mapping[key] < |t.columns|
    ensures cols == CategoricalColumns(t, p, mapping)
  {
    ghost var all := CategoricalColumns(t, p, mapping);
    cols := [];
    var c := 0;
    while c < CategoricalCount
      invariant 0 <= c <= CategoricalCount && cols == all[..c]
    {
      cols := cols + [CategoricalColumn(t, p, mapping, c)];
      c := c + 1;
    }
  }

  /** The loop over boolean_columns: stops at the first kind whose conversion raises. */
  method MapEventColumns(t: Table, p: Parsers, mapping: map<string, nat>) returns (r: Result<seq<seq<int>>, ProcessingError>)
    requires t.Valid()
    requires forall key :: key in mapping ==> mapping[key] < |t.columns|
    ensures r == EventColumns(t, p, mapping)
    ensures r.Ok? ==> |r.value| == EventCount && forall k :: 0 <= k < EventCount ==> |r.value[k]| == t.rowCount
  {
    var cols: seq<seq<int>> := [];
    var k := 0;
    while k < EventCount
      invariant 0 <= k <= EventCount && |cols| == k
      invariant forall g :: 0 <= g < k ==> EventColumn(t, p, mapping, g) == Some(cols[g])
    {
      var col := EventColumn(t, p, mapping, k);
      if col.None? {
        assert FirstBadEvent(t, p, mapping, 0) == Some(k);
        return Err(EventNotInteger(EventKinds[k]));
      }
      cols := cols + [col.value];
      k := k + 1;
    }
    assert FirstBadEvent(t, p, mapping, 0).None?;
    assert cols == seq(EventCount, g requires 0 <= g < EventCount => EventColumn(t, p, mapping, g).value);
    r := Ok(cols);
  }

  // ---------------------------------------------------------------------------
  // Stage 3: dropna(subset=['datetime_utc'])

  predicate StrictlyIncreasing(idx: seq<nat>)
  {
    forall a, b :: 0 <= a < b < |idx| ==> idx[a] < idx[b]
  }

  /** The positions, from `from` on, whose timestamp parsed, in row order. */
  function KeptIndicesFrom(stamps: seq<Option<Timestamp>>, from: nat): (idx: seq<nat>)
    requires from <= |stamps|
    ensures StrictlyIncreasing(idx)
    ensures forall k :: 0 <= k < |idx| ==> from <= idx[k] < |stamps| && stamps[idx[k]].Some?
    ensures forall i :: from <= i < |stamps| && stamps[i].Some? ==> i in idx
    decreases |stamps| - from
  {
    if from == |stamps| then []
    else
      var rest := KeptIndicesFrom(stamps, from + 1);
      if stamps[from].Some? then [from] + rest else rest
  }

  function KeptIndices(stamps: seq<Option<Timestamp>>): (idx: seq<nat>)
    ensures StrictlyIncreasing(idx)
    ensures forall k :: 0 <= k < |idx| ==> idx[k] < |stamps| && stamps[idx[k]].Some?
    ensures forall i :: 0 <= i < |stamps| && stamps[i].Some? ==> i in idx
  {
    KeptIndicesFrom(stamps, 0)
  }

  /** The surviving rows are as many as the parsed timestamps. */
  lemma {:induction false} KeptIndicesCount(stamps: seq<Option<Timestamp>>)
    ensures |KeptIndices(stamps)| == CountValid(stamps)
  {
    KeptCountFrom(stamps, 0);
  }

  lemma {:induction false} KeptCountFrom(stamps: seq<Option<Timestamp>>, from: nat)
    requires from <= |stamps|
    ensures |KeptIndicesFrom(stamps, from)| == CountValidFrom(stamps, from)
    decreases |stamps| - from
  {
    if from < |stamps| {
      KeptCountFrom(stamps, from + 1);
    }
  }

  /** The rows of a column at the given positions. */
  function Select<T>(col: seq<T>, idx: seq<nat>): (r: seq<T>)
    requires forall k :: 0 <= k < |idx| ==> idx[k] < |col|
    ensures |r| == |idx| && forall k :: 0 <= k < |idx| ==> r[k] == col[idx[k]]
  {
    seq(|idx|, k requires 0 <= k < |idx| => col[idx[k]])
  }

  // ---------------------------------------------------------------------------
  // Stage 4: the converted frame

  /** processed_df after the conversions: the parsed timestamps and the canonical columns,
      every one of them `rows` long. */
  datatype Frame = Frame(
    stamps: seq<Option<Timestamp>>,
    numeric: seq<Column>,
    categorical: seq<seq<Option<string>>>,
    events: seq<seq<int>>)
  {
    predicate Valid()
    {
      && |numeric| == NumericCount && |categorical| == CategoricalCount && |events| == EventCount
      && (forall f :: 0 <= f < NumericCount ==> |numeric[f]| == |stamps|)
      && (forall c :: 0 <= c < CategoricalCount ==> |categorical[c]| == |stamps|)
      && (forall k :: 0 <= k < EventCount ==> |events[k]| == |stamps|)
    }
  }

  /** dropna(subset=['datetime_utc']): every column keeps exactly the rows whose
      timestamp parsed, in their order. */
  function DropInvalid(fr: Frame): (r: Frame)
    requires fr.Valid()
    ensures r.Valid()
    ensures |r.stamps| == |KeptIndices(fr.stamps)| == CountValid(fr.stamps)
    ensures forall k :: 0 <= k < |r.stamps| ==> r.stamps[k].Some?
    ensures var idx := KeptIndices(fr.stamps);
      && r.stamps == Select(fr.stamps, idx)
      && (forall f :: 0 <= f < NumericCount ==> r.numeric[f] == Select(fr.numeric[f], idx))
      && (forall c :: 0 <= c < CategoricalCount ==> r.categorical[c] == Select(fr.categorical[c], idx))
      && (forall e :: 0 <= e < EventCount ==> r.events[e] == Select(fr.events[e], idx))
  {
    var idx := KeptIndices(fr.stamps);
    KeptIndicesCount(fr.stamps);
    Frame(
      Select(fr.stamps, idx),
      seq(NumericCount, f requires 0 <= f < NumericCount => Select(fr.numeric[f], idx)),
      seq(CategoricalCount, c requires 0 <= c < CategoricalCount => Select(fr.categorical[c], idx)),
      seq(EventCount, e requires 0 <= e < EventCount => Select(fr.events[e], idx)))
  }

  // ---------------------------------------------------------------------------
  // Stage 5: imputation

  /** Critical fields are forward-filled then median-filled; the others median-filled. */
  function Imputed(numeric: seq<Column>): (r: seq<Column>)
    requires |numeric| == NumericCount
    ensures |r| == NumericCount
    ensures forall f :: 0 <= f < CriticalCount ==> r[f] == ImputeCritical(numeric[f])
    ensures forall f :: CriticalCount <= f < NumericCount ==> r[f] == ImputeOther(numeric[f])
  {
    seq(NumericCount, f requires 0 <= f < NumericCount =>
      if f < CriticalCount then ImputeCritical(numeric[f]) else ImputeOther(numeric[f]))
  }

  /** The two loops over critical_columns and other_numeric. */
  method ImputeNumericColumns(numeric: seq<Column>) returns (r: seq<Column>)
    requires |numeric| == NumericCount
    ensures r == Imputed(numeric)
  {
    r := numeric;
    var f := 0;
    while f < CriticalCount
      invariant 0 <= f <= CriticalCount && |r| == NumericCount
      invariant forall g :: 0 <= g < f ==> r[g] == ImputeCritical(numeric[g])
      invariant forall g :: f <= g < NumericCount ==> r[g] == numeric[g]
    {
      var filled := ImputeColumn(r[f], true);
      r := r[f := filled];
      f := f + 1;
    }
    while f < NumericCount
      invariant CriticalCount <= f <= NumericCount && |r| == NumericCount
      invariant forall g :: 0 <= g < CriticalCount ==> r[g] == ImputeCritical(numeric[g])
      invariant forall g :: CriticalCount <= g < f ==> r[g] == ImputeOther(numeric[g])
      invariant forall g :: f <= g < NumericCount ==> r[g] == numeric[g]
    {
      var filled := ImputeColumn(r[f], false);
      r := r[f := filled];
      f := f + 1;
    }
  }

  /** Imputation keeps every column's length. */
  lemma ImputedShape(numeric: seq<Column>)
    requires |numeric| == NumericCount
    ensures forall f :: 0 <= f < NumericCount ==> |Imputed(numeric)[f]| == |numeric[f]|
  {
    forall f | 0 <= f < NumericCount
      ensures |Imputed(numeric)[f]| == |numeric[f]|
    {
      if f < CriticalCount {
        CriticalImputation(numeric[f]);
      } else {
        OtherImputation(numeric[f]);
      }
    }
  }

  // ---------------------------------------------------------------------------
  // Stage 6: the canonical records and the final sort

  /** One row of the processed frame. */
  datatype WeatherRecord = WeatherRecord(
    datetimeUtc: Timestamp,
    date: Date,
    year: int,
    month: Month,
    day: Day,
    hour: Hour,
    monthName: string,
    numeric: seq<Option<real>>,            // position f holds NumericNames[f]
    categorical: seq<Option<string>>,      // position c holds CategoricalNames[c]
    events: seq<int>)                      // position k holds EventKinds[k] + "_event"

  /** The derived fields agree with the timestamp they were derived from. */
  predicate CalendarConsistent(r: WeatherRecord)
  {
    && r.date == DateOf(r.datetimeUtc)
    && r.year == r.datetimeUtc.year && r.month == r.datetimeUtc.month
    && r.day == r.datetimeUtc.day && r.hour == r.datetimeUtc.hour
    && r.monthName == MonthName(r.month)
  }

  /** The record of a row with a parsed timestamp: the .dt accessors give the calendar fields. */
  function MakeRecord(ts: Timestamp, numeric: seq<Option<real>>, categorical: seq<Option<string>>,
                      events: seq<int>): (r: WeatherRecord)
    ensures r.datetimeUtc == ts && r.date == DateOf(ts)
    ensures r.year == ts.year && r.month == ts.month && r.day == ts.day && r.hour == ts.hour
    ensures r.monthName == MonthName(ts.month)
    ensures r.numeric == numeric && r.categorical == categorical && r.events == events
  {
    WeatherRecord(ts, DateOf(ts), ts.year, ts.month, ts.day, ts.hour, MonthName(ts.month),
                  numeric, categorical, events)
  }

  /** Row i of a frame whose every timestamp parsed. */
  function RecordAt(fr: Frame, i: nat): (r: WeatherRecord)
    requires fr.Valid() && i < |fr.stamps| && fr.stamps[i].Some?
    ensures r.datetimeUtc == fr.stamps[i].value && CalendarConsistent(r)
    ensures |r.numeric| == NumericCount && forall f :: 0 <= f < NumericCount ==> r.numeric[f] == fr.numeric[f][i]
    ensures |r.categorical| == CategoricalCount && forall c :: 0 <= c < CategoricalCount ==> r.categorical[c] == fr.categorical[c][i]
    ensures |r.events| == EventCount && forall k :: 0 <= k < EventCount ==> r.events[k] == fr.events[k][i]
  {
    MakeRecord(fr.stamps[i].value,
      seq(NumericCount, f requires 0 <= f < NumericCount => fr.numeric[f][i]),
      seq(CategoricalCount, c requires 0 <= c < CategoricalCount => fr.categorical[c][i]),
      seq(EventCount, k requires 0 <= k < EventCount => fr.events[k][i]))
  }

  /** The frame as a list of records, in its row order. */
  function Records(fr: Frame): (rs: seq<WeatherRecord>)
    requires fr.Valid() && forall i :: 0 <= i < |fr.stamps| ==> fr.stamps[i].Some?
    ensures |rs| == |fr.stamps| && forall i :: 0 <= i < |rs| ==> rs[i] == RecordAt(fr, i)
  {
    seq(|fr.stamps|, i requires 0 <= i < |fr.stamps| => RecordAt(fr, i))
  }

  predicate SortedByTime(rs: seq<WeatherRecord>)
  {
    forall a, b :: 0 <= a < b < |rs| ==> NotAfter(rs[a].datetimeUtc, rs[b].datetimeUtc)
  }

  /** One step of the insertion: x goes before the first record it is not after. */
  function InsertByTime(x: WeatherRecord, rs: seq<WeatherRecord>): (r: seq<WeatherRecord>)
    ensures multiset(r) == multiset(rs) + multiset{x}
    ensures |r| == |rs| + 1
    ensures r[0] == if rs == [] || NotAfter(x.datetimeUtc, rs[0].datetimeUtc) then x else rs[0]
  {
    if rs == [] || NotAfter(x.datetimeUtc, rs[0].datetimeUtc) then [x] + rs
    else
      assert rs == [rs[0]] + rs[1..];
      [rs[0]] + InsertByTime(x, rs[1..])
  }

  /** Inserting into a sorted list keeps it sorted. */
  lemma {:induction false} InsertByTimeSorted(x: WeatherRecord, rs: seq<WeatherRecord>)
    requires SortedByTime(rs)
    ensures SortedByTime(InsertByTime(x, rs))
  {
    if rs == [] || NotAfter(x.datetimeUtc, rs[0].datetimeUtc) {
      InsertFrontSorted(x, rs);
    } else {
      var t := InsertByTime(x, rs[1..]);
      InsertByTimeSorted(x, rs[1..]);
      NotAfterTotalOrder(x.datetimeUtc, rs[0].datetimeUtc, x.datetimeUtc);
      InsertFrontSorted(rs[0], t);
    }
  }

  /** Putting a record no later than the head in front keeps the list sorted. */
  lemma InsertFrontSorted(x: WeatherRecord, rs: seq<WeatherRecord>)
    requires SortedByTime(rs)
    requires rs == [] || NotAfter(x.datetimeUtc, rs[0].datetimeUtc)
    ensures SortedByTime([x] + rs)
  {
    var r := [x] + rs;
    forall a, b | 0 <= a < b < |r|
      ensures NotAfter(r[a].datetimeUtc, r[b].datetimeUtc)
    {
      if a == 0 && b > 1 {
        NotAfterTotalOrder(x.datetimeUtc, rs[0].datetimeUtc, rs[b - 1].datetimeUtc);
      }
    }
  }

  /** sort_values('datetime_utc'): an ordering of the records by time. */
  function SortByTime(rs: seq<WeatherRecord>): (r: seq<WeatherRecord>)
    ensures SortedByTime(r)
    ensures multiset(r) == multiset(rs)
  {
    if rs == [] then []
    else
      assert rs == [rs[0]] + rs[1..];
      InsertByTimeSorted(rs[0], SortByTime(rs[1..]));
      InsertByTime(rs[0], SortByTime(rs[1..]))
  }
}
