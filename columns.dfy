/**
 * Column resolution: the key a raw column name is matched on, the search for the
 * timestamp column (first match wins) and the normalised-name map that every other
 * field is looked up in (last column with a given key wins).
 */
module Columns {
  import opened Common
  import opened Text

  /** The key a raw column name is matched on: lower-cased, '_' and ' ' removed. */
  function NormKey(name: string): string
  {
    Delete(Delete(Lower(name), '_'), ' ')
  }

  /** How an accepted timestamp spelling is normalised: lower-cased, '_' removed, spaces kept. */
  function VariantKey(variant: string): string
  {
    Delete(Lower(variant), '_')
  }

  /** The accepted spellings of the timestamp column, in the order the source lists them. */
  const DatetimeVariants: seq<string> := ["datetimeutc", "datetime_utc", "DateTimeUTC", "DateTime", "datetime"]

  /** The accepted spellings after normalisation, in the same order; DatetimeKeysNormalised
      shows that each is VariantKey of the corresponding entry of DatetimeVariants. */
  const DatetimeKeys: seq<string> := ["datetimeutc", "datetimeutc", "datetimeutc", "datetime", "datetime"]

  lemma DatetimeKeysNormalised()
    ensures |DatetimeKeys| == |DatetimeVariants|
    ensures forall i :: 0 <= i < |DatetimeVariants| ==> DatetimeKeys[i] == VariantKey(DatetimeVariants[i])
  {
    forall i | 0 <= i < |DatetimeVariants|
      ensures DatetimeKeys[i] == VariantKey(DatetimeVariants[i])
    {
      if i == 0 {
        KeyOfPlainSpelling("datetimeutc", "datetimeutc");
      } else if i == 1 {
        KeyOfUnderscoredSpelling();
      } else if i == 2 {
        LowerAppend("DateTime", "UTC");
        assert "DateTimeUTC" == "DateTime" + "UTC";
        KeyOfPlainSpelling("DateTimeUTC", "datetimeutc");
      } else if i == 3 {
        KeyOfPlainSpelling("DateTime", "datetime");
      } else {
        KeyOfPlainSpelling("datetime", "datetime");
      }
    }
  }

  lemma KeyOfPlainSpelling(variant: string, lowered: string)
    requires Lower(variant) == lowered && '_' !in lowered
    ensures VariantKey(variant) == lowered
  {
    DeleteAbsent(lowered, '_');
  }

  lemma KeyOfUnderscoredSpelling()
    ensures VariantKey("datetime_utc") == "datetimeutc"
  {
    assert Lower("datetime_utc") == "datetime" + "_" + "utc";
    DeleteSplit("datetime", "utc", '_');
  }

  /** A raw column is a timestamp column when its key is among the normalised spellings,
      that is, when its key is "datetimeutc" or "datetime". */
  predicate IsDatetimeName(col: string)
  {
    NormKey(col) in DatetimeKeys
  }

  /** The first column, at or after position from, whose name is a timestamp spelling. */
  function FirstDatetimeColumn(cols: seq<string>, from: nat): (r: Option<nat>)
    requires from <= |cols|
    decreases |cols| - from
    ensures r.Some? ==>
      && from <= r.value < |cols|
      && IsDatetimeName(cols[r.value])
      && forall j :: from <= j < r.value ==> !IsDatetimeName(cols[j])
    ensures r.None? ==> forall j :: from <= j < |cols| ==> !IsDatetimeName(cols[j])
  {
    if from == |cols| then None
    else if IsDatetimeName(cols[from]) then Some(from)
    else FirstDatetimeColumn(cols, from + 1)
  }

  /** The timestamp column chosen by the pipeline: the first match in column order. */
  function DatetimeColumn(cols: seq<string>): Option<nat>
  {
    FirstDatetimeColumn(cols, 0)
  }

  /** The scan over the columns that stops at the first timestamp spelling. */
  method FindDatetimeColumn(cols: seq<string>) returns (r: Option<nat>)
    ensures r == DatetimeColumn(cols)
    ensures r.Some? ==>
      && r.value < |cols|
      && IsDatetimeName(cols[r.value])
      && forall j :: 0 <= j < r.value ==> !IsDatetimeName(cols[j])
    ensures r.None? <==> forall j :: 0 <= j < |cols| ==> !IsDatetimeName(cols[j])
  {
    r := None;
    var i := 0;
    while i < |cols|
      invariant 0 <= i <= |cols|
      invariant forall j :: 0 <= j < i ==> !IsDatetimeName(cols[j])
    {
      if IsDatetimeName(cols[i]) {
        r := Some(i);
        break;
      }
      i := i + 1;
    }
  }

  /** A dictionary built by inserting keys[0], keys[1], ... in order, each mapped to its
      position: a key that occurs several times ends up mapped to its last position. */
  function KeyIndex(keys: seq<string>): (m: map<string, nat>)
    ensures forall key :: key in m ==>
      && m[key] < |keys|
      && keys[m[key]] == key
      && forall j :: m[key] < j < |keys| ==> keys[j] != key
    ensures forall i :: 0 <= i < |keys| ==> keys[i] in m
  {
    if keys == [] then map[]
    else
      var n := |keys| - 1;
      KeyIndex(keys[..n])[keys[n] := n]
  }

  /** The dictionary {normalised name: column} built over the columns in order: a key
      maps to a column exactly when some column has that key, and when several columns
      share a key the last one wins. Values are column positions. */
  function ColMapping(cols: seq<string>): (m: map<string, nat>)
    ensures forall key :: key in m ==>
      && m[key] < |cols|
      && NormKey(cols[m[key]]) == key
      && forall j :: m[key] < j < |cols| ==> NormKey(cols[j]) != key
    ensures forall i :: 0 <= i < |cols| ==> NormKey(cols[i]) in m
  {
    KeyIndex(NormKeys(cols))
  }

  /** The key of every column, in column order. */
  function NormKeys(cols: seq<string>): (keys: seq<string>)
    ensures |keys| == |cols| && forall j :: 0 <= j < |cols| ==> keys[j] == NormKey(cols[j])
  {
    seq(|cols|, i requires 0 <= i < |cols| => NormKey(cols[i]))
  }

  /** The column a search key resolves to, if any. */
  function Resolve(mapping: map<string, nat>, key: string): Option<nat>
  {
    if key in mapping then Some(mapping[key]) else None
  }

  // ---------------------------------------------------------------------------
  // Name invariance

  lemma NormKeyAppend(a: string, b: string)
    ensures NormKey(a + b) == NormKey(a) + NormKey(b)
  {
    LowerAppend(a, b);
    DeleteAppend(Lower(a), Lower(b), '_');
    DeleteAppend(Delete(Lower(a), '_'), Delete(Lower(b), '_'), ' ');
  }

  lemma NormKeyOfSeparator(sep: char)
    requires sep == '_' || sep == ' '
    ensures NormKey([sep]) == []
  {
    assert Lower([sep]) == [sep];
    if sep == '_' {
      assert Delete([sep], '_') == [];
      assert Delete([], ' ') == [];
    } else {
      assert Delete([sep], '_') == [sep];
      assert Delete([sep], ' ') == [];
    }
  }

  /** Inserting an underscore or a space anywhere in a column name does not change its key. */
  lemma NormKeyIgnoresSeparator(a: string, b: string, sep: char)
    requires sep == '_' || sep == ' '
    ensures NormKey(a + [sep] + b) == NormKey(a + b)
  {
    NormKeyAppend(a + [sep], b);
    NormKeyAppend(a, [sep]);
    NormKeyAppend(a, b);
    NormKeyOfSeparator(sep);
  }

  /** Changing the case of a letter in a column name does not change its key. */
  lemma NormKeyIgnoresCase(a: string, b: string, c: char)
    ensures NormKey(a + [c] + b) == NormKey(a + [LowerChar(c)] + b)
  {
    NormKeyAppend(a + [c], b);
    NormKeyAppend(a, [c]);
    NormKeyAppend(a + [LowerChar(c)], b);
    NormKeyAppend(a, [LowerChar(c)]);
    assert Lower([c]) == [LowerChar(c)];
    assert Lower([LowerChar(c)]) == [LowerChar(LowerChar(c))];
  }

  /** A name made of lower-case ASCII letters only. */
  predicate PlainLowerName(s: string)
  {
    forall i :: 0 <= i < |s| ==> 'a' <= s[i] <= 'z'
  }

  /** Such a name is its own key, and lower() leaves it unchanged. */
  lemma NormKeyOfPlainName(s: string)
    requires PlainLowerName(s)
    ensures Lower(s) == s
    ensures NormKey(s) == s
  {
    assert Lower(s) == s;
    DeleteAbsent(s, '_');
    DeleteAbsent(s, ' ');
  }

  /** Two label sequences whose labels have the same keys, position by position: one
      is the other with case, underscores or spaces changed in some labels. */
  predicate SameKeys(a: seq<string>, b: seq<string>)
  {
    |a| == |b| && forall j :: 0 <= j < |a| ==> NormKey(a[j]) == NormKey(b[j])
  }

  /** The timestamp column chosen from a position on depends only on the keys. */
  lemma {:induction false} FirstDatetimeColumnSameKeys(a: seq<string>, b: seq<string>, from: nat)
    requires SameKeys(a, b) && from <= |a|
    ensures FirstDatetimeColumn(a, from) == FirstDatetimeColumn(b, from)
    decreases |a| - from
  {
    if from < |a| {
      assert IsDatetimeName(a[from]) == IsDatetimeName(b[from]);
      FirstDatetimeColumnSameKeys(a, b, from + 1);
    }
  }

  /** Respelling labels without changing their keys selects the same timestamp column
      and builds the same col_mapping. */
  lemma ColumnChoiceSameKeys(a: seq<string>, b: seq<string>)
    requires SameKeys(a, b)
    ensures DatetimeColumn(a) == DatetimeColumn(b)
    ensures ColMapping(a) == ColMapping(b)
  {
    FirstDatetimeColumnSameKeys(a, b, 0);
    assert NormKeys(a) == NormKeys(b);
  }
}
