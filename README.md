# Weather data normalisation pipeline — a Dafny model

This project models the core of a weather-data ingester. The `WeatherDataProcessor`
class takes a raw table whose column names vary in case, underscores and spacing.
`clean_and_transform_data` turns it into canonical weather records:

1. It finds the timestamp column and parses it. It raises when there is no such column
   or when no cell parses.
2. It derives year, month, day, hour, date and month name from the timestamp.
3. It resolves 11 numeric, 2 categorical and 6 event fields through a dictionary of
   normalised column names, and converts each one.
4. It drops the rows whose timestamp did not parse.
5. It imputes missing numeric values:
   - critical fields are forward-filled, then filled with the median;
   - the other fields are filled with the median only.
6. It sorts by time and stores the result in `processed_data`.

`get_data_summary` reports on that stored result. Two small pieces of the query service
are modelled too: the statistical median, and the builder for the WHERE clause and its
parameters.

Modules, in dependency order:

- `Common`: `Option` and `Result`.
- `Text`: `lower()`, `replace(c, '')`, `strip()`, `join()`, and counting a character.
- `Timestamps`: a parsed timestamp with its calendar fields, and chronological order.
- `Statistics`: the median over a sorted list, and the median of any collection, defined
  by sorting.
- `Columns`: the column-name key, the search for the timestamp column, and `col_mapping`.
- `Coercion`: raw cells, the pandas parsers as given functions, and the categorical and
  event conversions of one cell.
- `Imputation`: forward-fill and median fill, on arrays and as functions.
- `Frames`: the raw table, the converted frame, every pipeline stage, `dropna`, the
  records, and the sort.
- `Processor`: the whole pipeline as one function, the processor class, the summary, and
  end-to-end properties.
- `Queries`: the WHERE/params builder.

Points where the code behaves differently from what a reader of the pipeline might expect, and which the model follows:

- **Imputation order.** Forward-fill runs in input row order, because imputation
  happens before `sort_values` (DataProcessingModule.py:146-164). It does not run in
  timestamp order.
- **The imputation example.** `[null, null, 10, null, 20, null]` becomes
  `[15, 15, 10, 10, 20, 20]`. The two leading gaps take the median 15 of the original
  non-null values. Back-filling the leading gaps from the first later value would give
  `[10, 10, 10, 10, 20, 20]`; the code fills them with the median of the original values
  instead, in any row order.
- **Event values.** Although the code calls them boolean columns, they are integers from
  `fillna(0).astype(int)`.
  - A float is truncated toward zero.
  - A text cell that `int()` rejects makes the whole call raise. This happens even when
    that cell's row would later be dropped.
- **Several raw columns with the same key.** For numeric, categorical and event fields,
  the last column wins, because `col_mapping` is a dict comprehension. For the timestamp
  column, the first one wins.
- **Timestamp spellings.** Each accepted spelling is only lowercased and stripped of
  `_`, while column names also lose spaces. Both keys of the accepted set, `datetimeutc`
  and `datetime`, are still reached (`Columns.DatetimeKeysNormalised`).
- **Unresolved fields.** An unresolved numeric or categorical field creates no column.
  The model reads it as all null, which is also what imputation leaves of such a column.

## Model

| member | source | states |
|---|---|---|
| `Columns.VariantKey` | DataProcessingModule.py:52 | definition: an accepted spelling, lowercased with its `_` removed; `DatetimeKeysNormalised`, `KeyOfPlainSpelling` and `KeyOfUnderscoredSpelling` state its properties |
| `Columns.NormKeyIgnoresSeparator` | DataProcessingModule.py:95 | inserting `_` or a space anywhere in a column name leaves its lookup key unchanged |
| `Columns.NormKeyIgnoresCase` | DataProcessingModule.py:95 | changing the case of any character of a column name leaves its key unchanged |
| `Columns.NormKeyAppend` | DataProcessingModule.py:52 | the key of a concatenation is the concatenation of the keys |
| `Columns.NormKeyOfSeparator` | DataProcessingModule.py:52 | a lone `_` or space has the empty key |
| `Columns.DatetimeKeysNormalised` | DataProcessingModule.py:49-52 | the five accepted spellings, lowercased and stripped of `_` only, give exactly the keys `datetimeutc` (three times) and `datetime` (twice) |
| `Columns.KeyOfPlainSpelling` | DataProcessingModule.py:52 | a spelling whose lowercase form has no `_` has that lowercase form as its variant key |
| `Columns.KeyOfUnderscoredSpelling` | DataProcessingModule.py:49-52 | `datetime_utc` has variant key `datetimeutc` |
| `Columns.FirstDatetimeColumn` | DataProcessingModule.py:51-55 | the result is the first column, from a given position on, whose key is a timestamp key; None exactly when no column from there on has one |
| `Columns.DatetimeColumn` | DataProcessingModule.py:51-57 | definition: the first label that names the timestamp column, or none; `FirstDatetimeColumn`, `FindDatetimeColumn` and `Processor.NoDatetimeColumnIff` state its properties |
| `Columns.FindDatetimeColumn` | DataProcessingModule.py:48-59 | the scan that stops at the first match returns that first match, and None exactly when no column name is a timestamp spelling |
| `Columns.KeyIndex` | DataProcessingModule.py:95-96 | every key maps to a position that holds it, no later position holds it (the last occurrence wins), and every key is present |
| `Columns.ColMapping` | DataProcessingModule.py:95-96 | a normalised key maps to the last column with that key, and every column's key is in the map |
| `Columns.NormKey` | DataProcessingModule.py:52 | definition: `lower()`, then `replace('_', '')`, then `replace(' ', '')`, as on lines 52 and 95; its laws are `NormKeyAppend`, `NormKeyIgnoresSeparator`, `NormKeyIgnoresCase` and `NormKeyOfPlainName` |
| `Columns.IsDatetimeName` | DataProcessingModule.py:52 | definition: a label is a timestamp column when its key is among the normalised accepted spellings; `DatetimeKeysNormalised` pins that set to `datetimeutc` and `datetime` |
| `Columns.NormKeys` | DataProcessingModule.py:95-96 | the keys of the labels, one per label, in label order |
| `Columns.FirstDatetimeColumnSameKeys` | DataProcessingModule.py:51-55 | two label sequences with equal keys position by position select the same timestamp column from any position on |
| `Columns.ColumnChoiceSameKeys` | DataProcessingModule.py:51-55 | respelling labels without changing their keys selects the same timestamp column and builds the same `col_mapping` |
| `Columns.NormKeyOfPlainName` | DataProcessingModule.py:100 | a name of lower-case letters is unchanged by `lower()` and is its own key |
| `Columns.Resolve` | DataProcessingModule.py:101-102 | definition: the column position a field name maps to, or none when no label has its key; `ColMapping` and `Frames.SearchKeysAreNames` state its properties |
| `Frames.SearchKeysAreNames` | DataProcessingModule.py:100 | each numeric and categorical search key equals its field's source name, and each event search key (`col.lower()`) equals its kind |
| `Coercion.ParseTimestamp` | DataProcessingModule.py:62 | definition: `to_datetime(errors='coerce')` of one cell; a missing cell stays missing, text and numbers go through the given parsers |
| `Coercion.ParseNumber` | DataProcessingModule.py:103 | definition: `to_numeric(errors='coerce')` of one cell; numbers are kept, text goes through the given parser, a missing cell stays missing |
| `Coercion.CellText` | DataProcessingModule.py:118 | definition: `astype(str)` of one cell; a missing cell prints as `nan` |
| `Coercion.CanonicalText` | DataProcessingModule.py:118-119 | definition: `strip()`, then `nan`, the empty text and `None` become null; `CanonicalTextIdempotent` states its properties |
| `Coercion.Categorize` | DataProcessingModule.py:118-119 | definition: `CanonicalText` of `CellText`; `CategorizeIdempotent` states its properties |
| `Coercion.TruncateTowardZero` | DataProcessingModule.py:130 | definition: `int()` of a float, truncation toward zero; `TruncateTowardZeroBounds` states its properties |
| `Coercion.EventValue` | DataProcessingModule.py:130 | definition: `fillna(0).astype(int)` of one cell, None where `astype` raises; `EventValueOfMissingAndWhole` states its properties |
| `Coercion.CanonicalTextIdempotent` | DataProcessingModule.py:118-119 | a canonical category is non-empty, not a null token, has no surrounding whitespace, and canonicalises to itself; a null came from a stripped null token |
| `Coercion.CategorizeIdempotent` | DataProcessingModule.py:118-119 | re-running the categorical conversion over its own output changes nothing |
| `Coercion.TruncateTowardZeroBounds` | DataProcessingModule.py:130 | `astype(int)` of a float keeps its sign and drops less than one unit of magnitude |
| `Coercion.EventValueOfMissingAndWhole` | DataProcessingModule.py:130 | a missing event cell becomes 0, and a whole number is kept |
| `Frames.ParseStamps` | DataProcessingModule.py:62 | the parsed column has one entry per row, each the coerced parse of that row's cell |
| `Frames.CountValid` | DataProcessingModule.py:65 | definition: `notna().sum()`, the number of parsed timestamps; `CountValidZero` and `KeptIndicesCount` state its properties |
| `Frames.CountValidZero` | DataProcessingModule.py:65-69 | the count of valid dates is 0 exactly when no parsed timestamp is present |
| `Frames.NullColumn` | DataProcessingModule.py:105-106 | an unresolved field reads as a column of nulls as long as the table |
| `Frames.NumericColumn` | DataProcessingModule.py:98-106 | a numeric field resolved to column j holds `to_numeric(coerce)` of column j row by row; unresolved, it is all null |
| `Frames.CategoricalColumn` | DataProcessingModule.py:114-122 | a categorical field resolved to column j holds the stripped, null-token-cleared text of column j; unresolved, it is all null |
| `Frames.EventColumn` | DataProcessingModule.py:126-135 | an unresolved kind is 0 in every row; a resolved one converts iff every cell converts, and then holds `fillna(0).astype(int)` of each cell |
| `Frames.EventConvertible` | DataProcessingModule.py:130 | definition: every cell of the column survives `fillna(0).astype(int)`; `EventColumn` and `Processor.EventErrorIff` state its properties |
| `Frames.FirstBadEvent` | DataProcessingModule.py:126-130 | the first kind, in declaration order, whose conversion raises; None exactly when all six convert |
| `Frames.EventColumns` | DataProcessingModule.py:125-135 | all six columns exactly when every kind converts, otherwise an EventNotInteger error |
| `Frames.NumericColumns` | DataProcessingModule.py:98-106 | one converted column per numeric field, in field order |
| `Frames.CategoricalColumns` | DataProcessingModule.py:114-122 | one converted column per categorical field, in field order |
| `Frames.FirstBadEventSameCells` | DataProcessingModule.py:126-130 | the first failing event kind depends on the cells and the mapping only, not on the labels |
| `Frames.EventColumnsSameCells` | DataProcessingModule.py:125-135 | the event columns, or the event error, depend on the cells and the mapping only |
| `Frames.ConversionsSameCells` | DataProcessingModule.py:62-135 | relabelling a table leaves the parsed timestamps and every numeric, categorical and event column unchanged |
| `Frames.MapNumericColumns` | DataProcessingModule.py:98-106 | the loop over the numeric fields builds exactly the numeric columns |
| `Frames.MapCategoricalColumns` | DataProcessingModule.py:114-122 | the loop over the categorical fields builds exactly the categorical columns |
| `Frames.MapEventColumns` | DataProcessingModule.py:126-135 | the loop stops with EventNotInteger of the first kind that raises, and otherwise returns the six columns, each as long as the table |
| `Frames.KeptIndicesFrom` | DataProcessingModule.py:139 | the kept positions are strictly increasing, every one has a parsed timestamp, and every parsed position is kept |
| `Frames.KeptIndices` | DataProcessingModule.py:139 | `dropna` keeps exactly the rows whose timestamp parsed, in their original order |
| `Frames.KeptIndicesCount` | DataProcessingModule.py:138-140 | the number of surviving rows equals the number of valid dates, so `removed_count` is the initial count minus the valid ones |
| `Frames.KeptCountFrom` | DataProcessingModule.py:138-140 | the kept positions from a point on number the parsed timestamps from there on |
| `Frames.CountValidFromZero` | DataProcessingModule.py:65-69 | the count of parsed timestamps from a position on is 0 exactly when every entry from there on is missing |
| `Frames.Select` | DataProcessingModule.py:139 | row k of a selection is the source row at the k-th kept position |
| `Frames.DropInvalid` | DataProcessingModule.py:137-142 | every column keeps exactly the rows of the kept positions, so surviving rows keep all their other cells; every surviving timestamp is present |
| `Frames.Imputed` | DataProcessingModule.py:145-161 | critical fields get forward-fill then median fill, the other eight get median fill |
| `Frames.ImputeNumericColumns` | DataProcessingModule.py:146-161 | the critical loop followed by the other-numeric loop produces exactly the imputed columns |
| `Frames.ImputedShape` | DataProcessingModule.py:145-161 | imputation keeps the length of every column |
| `Frames.MakeRecord` | DataProcessingModule.py:72-77 | year, month, day, hour, date and month name are those of the parsed timestamp |
| `Frames.RecordAt` | DataProcessingModule.py:72-77 | record i carries timestamp i, its derived calendar fields, and row i of every numeric, categorical and event column |
| `Frames.Records` | DataProcessingModule.py:137-164 | one record per row of the frame, in row order |
| `Frames.InsertByTime` | DataProcessingModule.py:164 | inserting a record adds exactly that record, and the head is the earlier of the record and the old head |
| `Frames.InsertByTimeSorted` | DataProcessingModule.py:164 | insertion into a time-sorted list keeps it sorted |
| `Frames.InsertFrontSorted` | DataProcessingModule.py:164 | a record no later than the head of a sorted list can go in front |
| `Frames.SortByTime` | DataProcessingModule.py:164 | `sort_values('datetime_utc')` yields a list ordered by time that is a permutation of its input |
| `Timestamps.DateOf` | DataProcessingModule.py:76 | definition: `dt.date`, the calendar day of a timestamp; `Frames.MakeRecord` and `Frames.RecordAt` state its properties |
| `Timestamps.NotAfter` | DataProcessingModule.py:164 | definition: chronological order, field by field from the year down to the nanosecond; `NotAfterTotalOrder` states that it is a total order |
| `Timestamps.MonthName` | DataProcessingModule.py:77 | definition: the English name of each month, as `.dt.month_name()` gives it |
| `Timestamps.NotAfterTotalOrder` | DataProcessingModule.py:164 | chronological order is reflexive, total, antisymmetric and transitive |
| `Timestamps.NotAfterYear` | DataProcessingModule.py:171-172 | an earlier timestamp is never in a later year |
| `Imputation.ColumnMedian` | DataProcessingModule.py:150 | definition: `median()` of a column is the median of its present values; `ColumnMedianExists` and `Statistics.MedianOrderIndependent` state its properties |
| `Imputation.ForwardFill` | DataProcessingModule.py:150 | definition: `ffill()` from no carried value; `ForwardFillAt` and `ForwardFillShape` state what each cell becomes |
| `Imputation.FillWith` | DataProcessingModule.py:150 | definition: `fillna(m)`, which keeps present values and writes m into every gap |
| `Imputation.ImputeCritical` | DataProcessingModule.py:146-151 | definition: when something is missing, `ffill()` then `fillna(median of the original column)`; `CriticalImputation` states what every row becomes |
| `Imputation.ImputeOther` | DataProcessingModule.py:156-161 | definition: when something is missing, `fillna(median)`; `OtherImputation` states what every row becomes |
| `Imputation.ForwardFillFrom` | DataProcessingModule.py:150 | forward-fill keeps the column length |
| `Imputation.ForwardFillInPlace` | DataProcessingModule.py:150 | the in-place left-to-right scan leaves the array equal to the forward-fill of its old contents |
| `Imputation.FillNullsInPlace` | DataProcessingModule.py:150 | the in-place fill replaces every null by the fill value and keeps every value |
| `Imputation.ImputeColumn` | DataProcessingModule.py:146-161 | on a fresh array, the median of the original column, then the forward-fill for critical fields, then the median fill, give the specified imputation |
| `Imputation.NonNull` | DataProcessingModule.py:150 | the non-null values of a column, in row order, which number the column's length less its nulls; `NonNullEmpty` and `ColumnMedianExists` state the rest |
| `Imputation.CountMissing` | DataProcessingModule.py:148 | definition: `isnull().sum()` of one column; `NonNull` and `NonNullEmpty` state its properties |
| `Imputation.NonNullEmpty` | DataProcessingModule.py:148 | the non-null values are empty iff the column is all null, and `missing_count` is 0 iff no cell is null |
| `Imputation.ColumnMedianExists` | DataProcessingModule.py:150 | a column has a median iff it has a non-null value, and that median lies between its smallest and largest values |
| `Imputation.LastObservedAppend` | DataProcessingModule.py:150 | the last observation of a concatenation comes from the second part when it has one, from the first part otherwise |
| `Imputation.LastObservedIsLatest` | DataProcessingModule.py:150 | a last observation exists iff a value exists, and it is the value at the last non-null position |
| `Imputation.ForwardFillAt` | DataProcessingModule.py:150 | each forward-filled cell is its own value, or the latest earlier value, or the carried value when there is none |
| `Imputation.ForwardFillShape` | DataProcessingModule.py:150 | after forward-fill a cell is non-null iff some cell up to it was, values are kept, and a filled gap holds the latest earlier value |
| `Imputation.CriticalImputationAt` | DataProcessingModule.py:145-151 | at one row: a value is kept, a gap after a value takes the latest earlier value, a leading gap takes the median of the original column, and a null survives iff the column had no value |
| `Imputation.CriticalGapSurvives` | DataProcessingModule.py:145-151 | after critical imputation a cell is null iff the whole column was null |
| `Imputation.CriticalImputation` | DataProcessingModule.py:145-151 | CriticalImputationAt for every row |
| `Imputation.OtherImputation` | DataProcessingModule.py:154-161 | a non-critical field keeps its values, puts the median in every gap (no forward-fill), and keeps a null only when the column had no value |
| `Imputation.MedianOfTwo` | DataProcessingModule.py:150 | the median of two ascending values is their mean |
| `Imputation.MedianOfOne` | DataProcessingModule.py:150 | the median of one value is that value |
| `Imputation.CriticalExampleValues` | DataProcessingModule.py:148-150 | `[null,null,10,null,20,null]` has present values `[10,20]` and 4 missing |
| `Imputation.CriticalExampleForwardFill` | DataProcessingModule.py:150 | `ffill()` of `[null,null,10,null,20,null]` is `[null,null,10,10,20,20]` |
| `Imputation.CriticalExampleFill` | DataProcessingModule.py:150 | `fillna(15)` of `[null,null,10,10,20,20]` is `[15,15,10,10,20,20]` |
| `Imputation.CriticalExampleSteps` | DataProcessingModule.py:145-151 | for `[null,null,10,null,20,null]`: non-null values `[10,20]`, 4 missing, forward-fill `[null,null,10,10,20,20]`, and the fill with 15 |
| `Imputation.CriticalImputationExample` | DataProcessingModule.py:145-151 | `[null,null,10,null,20,null]` becomes `[15,15,10,10,20,20]` |
| `Imputation.LeadingGapExampleSteps` | DataProcessingModule.py:145-151 | for `[null,10,null]`: non-null values `[10]`, 2 missing, forward-fill `[null,10,10]`, and the fill with 10 |
| `Imputation.CriticalImputationLeadingGap` | DataProcessingModule.py:145-151 | `[null,10,null]` becomes `[10,10,10]` |
| `Imputation.OtherExampleSteps` | DataProcessingModule.py:154-161 | for `[null,10,null,30]`: non-null values `[10,30]`, 2 missing, and the fill with 20 |
| `Imputation.OtherImputationExample` | DataProcessingModule.py:154-161 | `[null,10,null,30]` becomes `[20,10,20,30]` for a non-critical field |
| `Statistics.Insert` | APIMODULE.py:120-126 | inserting into an ascending list keeps it ascending, adds exactly one value, and the head is the smaller of the value and the old head |
| `Statistics.SortReals` | APIMODULE.py:120-126 | `ORDER BY` ascending: an ascending permutation of the values |
| `Statistics.CountAtMostSorted` | APIMODULE.py:130-131 | in an ascending list, a value at position k or above has at least k+1 values at most it |
| `Statistics.CountAtLeastSorted` | APIMODULE.py:130-131 | in an ascending list, a value at position k or below has at least n-k values at least it |
| `Statistics.MedianOfSorted` | APIMODULE.py:127-131 | definition: the median expression over an ascending list; `MedianSplitsSample` and `MedianExamples` state its properties |
| `Statistics.Median` | DataProcessingModule.py:150 | definition: the median of values in any order, taken after sorting; `MedianAgreement` and `MedianOrderIndependent` state its properties |
| `Statistics.MedianSplitsSample` | APIMODULE.py:127-131 | the median is None iff the list is empty; otherwise it lies between the first and last element, at least half the values are at most it, and at least half are at least it |
| `Statistics.MedianExamples` | APIMODULE.py:130-131 | `[1,2,3]` gives 2, `[1,2,3,4]` gives 2.5, and `[]` gives None |
| `Statistics.SortedPermutationUnique` | APIMODULE.py:120-126 | two ascending lists with the same values are equal |
| `Statistics.MedianAgreement` | APIMODULE.py:127-131 | the query service's median of an ascending list equals the imputer's median of the same values in any order |
| `Statistics.MedianOrderIndependent` | DataProcessingModule.py:150 | the column median does not depend on row order |
| `Processor.CleanAndTransform` | DataProcessingModule.py:39-177 | definition: the stages of the method (timestamp column, no-valid-dates check, numeric and categorical conversions, event conversion, dropna, imputation, sort); the numeric and categorical conversions cannot fail, so computing them after the event check gives the same results; the lemmas below state its properties |
| `Processor.ConvertedSameCells` | DataProcessingModule.py:62-135 | relabelling a table without changing its keys gives the same converted frame |
| `Processor.RenameInvariance` | DataProcessingModule.py:52-135 | respelling raw labels with other case, underscores or spaces, without changing their keys or any cell, leaves the result of `clean_and_transform_data` unchanged, records or error |
| `Processor.Converted` | DataProcessingModule.py:62-135 | the frame after every conversion is well-formed and as long as the table |
| `Processor.Survivors` | DataProcessingModule.py:137-161 | after dropna and imputation every timestamp is present and there is one row per valid date |
| `Processor.WeatherDataProcessor.constructor` | DataProcessingModule.py:8-9 | a new processor holds no processed data |
| `Processor.WeatherDataProcessor.CleanAndTransformData` | DataProcessingModule.py:39-181 | running the stages in order gives the pipeline's result; on success it is stored in processed_data, and on an error processed_data is unchanged |
| `Processor.NoDatetimeColumnIff` | DataProcessingModule.py:48-59 | the call raises "Cannot find datetime column" exactly when no column name is a timestamp spelling |
| `Processor.NoValidDatesIff` | DataProcessingModule.py:62-69 | the call raises "No valid dates" exactly when a timestamp column exists and none of its cells parses |
| `Processor.EventErrorIff` | DataProcessingModule.py:126-135 | the call raises on an event column exactly when a timestamp column exists, some date parses, and some event kind fails to convert, whichever rows later survive |
| `Processor.ProcessedRows` | DataProcessingModule.py:137-164 | on success there is one record per valid date, at least one; they are sorted by time and are a permutation of the surviving rows |
| `Processor.SortedRecordIsRow` | DataProcessingModule.py:164 | every output record is the record of some surviving row |
| `Processor.RecordOrigin` | DataProcessingModule.py:72-164 | every output record has consistent calendar fields and comes from one input row with a parsed timestamp: same categorical and event values, and the same numeric values wherever that row had one |
| `Processor.ProcessedRecordsComeFromInput` | DataProcessingModule.py:62-164 | RecordOrigin, stated for the pipeline's result on a raw table |
| `Processor.ProcessedEvents` | DataProcessingModule.py:125-135 | every output record carries all six event values, and a kind with no matching column is 0 in every record |
| `Processor.NullOnlyWhenFieldEmpty` | DataProcessingModule.py:145-161 | a numeric field is null in an output record iff that field had no value in any surviving row |
| `Processor.ImputedNullsAreWhole` | DataProcessingModule.py:145-161 | after either imputation a column is free of nulls or entirely null |
| `Processor.RecordsKeepWholeNulls` | DataProcessingModule.py:145-161 | records built from such columns have a null field only where every record has it |
| `Processor.PermutationKeepsWholeNulls` | DataProcessingModule.py:164 | reordering the records keeps that property |
| `Processor.ImputationLeavesWholeColumnNulls` | DataProcessingModule.py:145-164 | over a converted frame, a numeric null that survives is null in every output record |
| `Processor.ProcessedNullsAreWholeColumns` | DataProcessingModule.py:145-164 | in the pipeline's result, a numeric field null in one record is null in all of them |
| `Processor.MinYear` | DataProcessingModule.py:193 | the smallest year among the records is attained by one of them |
| `Processor.MaxYear` | DataProcessingModule.py:194 | the largest year among the records is attained by one of them |
| `Processor.SummaryOf` | DataProcessingModule.py:183-195 | an error entry iff nothing is stored; otherwise the record count, and the minimum and maximum year when there is a record |
| `Processor.WeatherDataProcessor.DataSummary` | DataProcessingModule.py:183-191 | `get_data_summary` is the error entry exactly when nothing has been processed, and otherwise reports the stored row count |
| `Processor.SortedYears` | DataProcessingModule.py:164-173 | in a time-sorted list of consistent records the first record has the smallest year and the last the largest |
| `Processor.SummaryAfterProcessing` | DataProcessingModule.py:164-195 | after a successful run the summary reports the record count and, as date range, the years of the first and the last record |
| `Text.IsSpace` | DataProcessingModule.py:118 | definition: the characters `str.isspace` accepts; `StripTrims` and `StripSpaces` use it to say what `strip()` removes |
| `Text.Strip` | DataProcessingModule.py:118 | definition: `strip()` as a left trim followed by a right trim; `StripTrims`, `StripIdempotent` and `StripOfTrimmed` state its properties |
| `Text.StripTrims` | DataProcessingModule.py:118 | `strip()` returns the piece of its input between a leading and a trailing run that are all whitespace, and that piece has no whitespace at either end: exactly the surrounding whitespace is removed |
| `Text.TrimStartSuffix` | DataProcessingModule.py:118 | the left trim keeps a suffix of its input that does not start with whitespace |
| `Text.TrimStartSpaces` | DataProcessingModule.py:118 | every character the left trim removes is whitespace |
| `Text.TrimEndPrefix` | DataProcessingModule.py:118 | the right trim keeps a prefix of its input that does not end with whitespace |
| `Text.TrimEndSpaces` | DataProcessingModule.py:118 | every character the right trim removes is whitespace |
| `Text.TrimEndOfTrimStart` | DataProcessingModule.py:118 | trimming the end of a text that does not start with whitespace leaves no whitespace at either end |
| `Text.StripIsTrimmed` | DataProcessingModule.py:118 | `strip()` leaves no whitespace at either end |
| `Text.StripSlice` | DataProcessingModule.py:118 | `strip()` returns the piece of its input that starts where the left trim stopped |
| `Text.StripSpaces` | DataProcessingModule.py:118 | what `strip()` removes before and after that piece is whitespace |
| `Text.StripOfTrimmed` | DataProcessingModule.py:118 | stripping a text without surrounding whitespace changes nothing |
| `Text.StripIdempotent` | DataProcessingModule.py:118 | stripping twice equals stripping once |
| `Text.TrimStartShape` | DataProcessingModule.py:118 | the left trim removes a prefix made only of whitespace and leaves a suffix that does not start with whitespace |
| `Text.TrimEndShape` | DataProcessingModule.py:118 | the right trim removes a suffix made only of whitespace and leaves a prefix that does not end with whitespace |
| `Text.Lower` | DataProcessingModule.py:52 | definition: `str.lower()` letter by letter; `LowerAppend` states its properties |
| `Text.LowerAppend` | DataProcessingModule.py:52 | `lower()` distributes over concatenation |
| `Text.Delete` | DataProcessingModule.py:52 | definition: `replace(c, '')`, which drops every `c`; `DeleteAbsent`, `DeleteAppend` and `DeleteSplit` state its properties |
| `Text.DeleteAbsent` | DataProcessingModule.py:52 | `replace(c, '')` on a text without c changes nothing |
| `Text.DeleteAppend` | DataProcessingModule.py:52 | `replace(c, '')` distributes over concatenation |
| `Text.DeleteSplit` | DataProcessingModule.py:52 | removing the only c between two parts joins them |
| `Text.CountCharAppend` | APIMODULE.py:167 | character counts add over concatenation |
| `Text.CountCharAbsent` | APIMODULE.py:167 | a text without c counts no c |
| `Text.CountCharOnceAtEnd` | APIMODULE.py:167 | a text ending in its only c counts one c |
| `Queries.Truthy` | APIMODULE.py:159-163 | definition: Python truthiness of an optional integer, so None and 0 are both falsy; `ZeroFilterIsAbsent` states its consequence |
| `Queries.WhereClause` | APIMODULE.py:167 | the clause is empty exactly when there are no conditions |
| `Queries.Params` | APIMODULE.py:156-165 | at most two parameters, none iff neither filter is truthy, the year first and the month last when present |
| `Queries.Conditions` | APIMODULE.py:156-165 | as many conditions as parameters |
| `Queries.BuildWhereClause` | APIMODULE.py:155-167 | the appends and the join give the specified clause and parameters; the clause is empty iff neither filter is truthy, and it holds one placeholder per parameter |
| `Queries.CountCharJoin` | APIMODULE.py:167 | joining parts with one placeholder each, by a separator with none, gives one placeholder per part |
| `Queries.YearConditionHasOnePlaceholder` | APIMODULE.py:160 | `year = ?` holds one placeholder |
| `Queries.MonthConditionHasOnePlaceholder` | APIMODULE.py:164 | `month = ?` holds one placeholder |
| `Queries.ConnectivesHaveNoPlaceholder` | APIMODULE.py:167 | `WHERE ` and ` AND ` hold none |
| `Queries.ClausePlaceholders` | APIMODULE.py:167 | a prefix and separator without placeholders, around parts with one each, give one placeholder per part |
| `Queries.ConditionsAreKnown` | APIMODULE.py:159-165 | every collected condition is `year = ?` or `month = ?` |
| `Queries.ConditionsHaveOnePlaceholder` | APIMODULE.py:159-165 | every collected condition carries exactly one placeholder |
| `Queries.PlaceholdersMatchParams` | APIMODULE.py:159-167 | every condition in the clause is paired with exactly one parameter |
| `Queries.WhereClauseCases` | APIMODULE.py:155-167 | the clause is `WHERE year = ? AND month = ?`, `WHERE year = ?`, `WHERE month = ?` or empty, according to which filters are truthy |
| `Queries.SingleConditionClause` | APIMODULE.py:167 | one condition gives `WHERE ` followed by that condition |
| `Queries.BothConditionsClause` | APIMODULE.py:167 | both conditions give `WHERE year = ? AND month = ?` |
| `Text.Join` | APIMODULE.py:167 | definition: `sep.join(parts)`; `JoinTwo` and `CountCharJoin` state its properties |
| `Queries.JoinTwo` | APIMODULE.py:167 | joining two parts puts the separator between them |
| `Queries.ZeroFilterIsAbsent` | APIMODULE.py:159-163 | a filter of 0 is treated exactly as an absent one |

## Left out

- Loading files (`load_data_file`), logging, the SQLite store and every SQL query other
  than the median and the WHERE builder. These are I/O or external services.
- What pandas makes of a cell is not modelled. Each of these is a given function in
  `Coercion.Parsers`, applied cell by cell:
  - `pd.to_datetime(errors='coerce')`;
  - `pd.to_numeric(errors='coerce')`;
  - `astype(str)` of a number;
  - `int()` of a text.

  pandas infers one datetime format for the whole column; the model lets each cell parse
  independently.
- `Text.Lower`: `str.lower()` is modelled on ASCII letters only. Non-ASCII case folding
  is not modelled.
- `Coercion.TruncateTowardZero`: `astype(int)` yields a fixed-width integer (int64 on the usual platforms). The model truncates into an unbounded integer, so a float outside the int64 range gets a value, or no error, that the program would not produce.
- Column labels are strings in the model. `col.lower()` on a non-string label, such as a numeric header cell read from a spreadsheet, raises AttributeError in the program. The model has no such label and no such error.
- `Coercion.CanonicalText`: the model assumes that `replace(['nan', '', 'None'], None)` writes a null into every matching cell. Some older pandas releases treat an explicit None value as "no value given" and pad matching cells from the previous row instead. That behaviour is not modelled.
- Floating point. Values are reals, and `median()` uses exact arithmetic. NaN and
  infinities are not values of the model: a missing cell is `None`.
- `Processor.SummaryOf`: the `columns` and `missing_values` entries of `get_data_summary`
  are not modelled, because they are pandas introspection. The years are reported as
  integers, not through `str()`.
- `Frames.SortByTime`: it is a stable insertion sort. `sort_values` uses an unstable sort
  by default, so only "sorted by time" and "a permutation" are claimed. The order of
  records with equal timestamps is not claimed.
- Raw columns are indexed by position. Duplicate labels are therefore not modelled, nor
  are raw columns that happen to carry a canonical output name (such as `temperature`),
  which pandas would pass through or overwrite.
- `col_mapping` is built after the derived columns (`datetime_utc`, `year`, `month`,
  `day`, `hour`, `date`, `month_name`) have been added. Their keys match no search key,
  so the model builds the map over the raw columns only.
- The timestamp's timezone is not modelled. `Timestamp` is a plain calendar record.
- `Processor.WeatherDataProcessor.CleanAndTransformData` returns records, not a
  DataFrame. The pass-through of raw columns other than the canonical ones is not
  modelled.
