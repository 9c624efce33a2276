/**
 * Per-cell conversions of the pipeline. The pandas parsers are not modelled: what they
 * make of a text or a number cell is given by a Parsers value, and a missing cell is
 * always missing to them.
 */
module Coercion {
  import opened Common
  import opened Text
  import opened Timestamps

  /** A raw cell as the loader delivers it: missing (NaN/None), text, or a number. */
  datatype Cell = Missing | Str(text: string) | Num(value: real)

  /** What pandas makes of one cell, for each conversion the pipeline performs. */
  datatype Parsers = Parsers(
    timestampOfText: string -> Option<Timestamp>,    // pd.to_datetime(..., errors='coerce')
    timestampOfNumber: real -> Option<Timestamp>,
    numberOfText: string -> Option<real>,            // pd.to_numeric(..., errors='coerce')
    textOfNumber: real -> string,                    // .astype(str) of a number
    integerOfText: string -> Option<int>)            // .astype(int) of a text; None when it raises

  /** pd.to_datetime(errors='coerce') on one cell: failures become missing (NaT). */
  function ParseTimestamp(p: Parsers, c: Cell): Option<Timestamp>
  {
    match c
    case Missing => None
    case Str(s) => p.timestampOfText(s)
    case Num(x) => p.timestampOfNumber(x)
  }

  /** pd.to_numeric(errors='coerce') on one cell: numbers are kept, failures become missing. */
  function ParseNumber(p: Parsers, c: Cell): Option<real>
  {
    match c
    case Missing => None
    case Str(s) => p.numberOfText(s)
    case Num(x) => Some(x)
  }

  /** .astype(str) on one cell; a missing cell prints as "nan". */
  function CellText(p: Parsers, c: Cell): string
  {
    match c
    case Missing => "nan"
    case Str(s) => s
    case Num(x) => p.textOfNumber(x)
  }

  /** The tokens that are replaced by None after stripping (case-sensitive). */
  const NullTokens: seq<string> := ["nan", "", "None"]

  /** .str.strip() followed by .replace(['nan', '', 'None'], None). */
  function CanonicalText(s: string): Option<string>
  {
    var t := Strip(s);
    if t in NullTokens then None else Some(t)
  }

  /** The categorical conversion of one cell. */
  function Categorize(p: Parsers, c: Cell): Option<string>
  {
    CanonicalText(CellText(p, c))
  }

  /** Python's int() of a float: truncation toward zero. */
  function TruncateTowardZero(x: real): int
  {
    if x >= 0.0 then x.Floor else -((-x).Floor)
  }

  /** .fillna(0).astype(int) on one cell: missing becomes 0, a number is truncated, a text
      is converted by int(); None stands for the ValueError astype raises. */
  function EventValue(p: Parsers, c: Cell): Option<int>
  {
    match c
    case Missing => Some(0)
    case Num(x) => Some(TruncateTowardZero(x))
    case Str(s) => p.integerOfText(s)
  }

  // ---------------------------------------------------------------------------
  // Properties

  /** A canonical category is never empty, never one of the null tokens, has no
      surrounding whitespace, and canonicalising it again changes nothing. */
  lemma CanonicalTextIdempotent(s: string)
    ensures CanonicalText(s).Some? ==>
      var u := CanonicalText(s).value;
      && u != "" && u !in NullTokens && Trimmed(u)
      && CanonicalText(u) == Some(u)
    ensures CanonicalText(s).None? ==> Strip(s) in NullTokens
  {
    StripIsTrimmed(s);
    StripIdempotent(s);
  }

  /** Re-running the categorical conversion over its own output changes nothing: a
      canonical text is kept as it is, and a null (stringified as "None") stays null. */
  lemma CategorizeIdempotent(p: Parsers, c: Cell)
    ensures Categorize(p, c).Some? ==> Categorize(p, Str(Categorize(p, c).value)) == Categorize(p, c)
    ensures Categorize(p, c).None? ==> CanonicalText("None") == None && Categorize(p, Missing) == None
  {
    CanonicalTextIdempotent(CellText(p, c));
    assert Strip("nan") == "nan";
    assert Strip("None") == "None";
  }

  /** Truncation toward zero keeps the sign and drops less than one unit of magnitude. */
  lemma TruncateTowardZeroBounds(x: real)
    ensures x >= 0.0 ==> 0 <= TruncateTowardZero(x) && TruncateTowardZero(x) as real <= x < TruncateTowardZero(x) as real + 1.0
    ensures x < 0.0 ==> TruncateTowardZero(x) <= 0 && TruncateTowardZero(x) as real - 1.0 < x <= TruncateTowardZero(x) as real
  {
  }

  /** A missing event cell counts as 0, and a whole number is kept. */
  lemma EventValueOfMissingAndWhole(p: Parsers, n: int)
    ensures EventValue(p, Missing) == Some(0)
    ensures EventValue(p, Num(n as real)) == Some(n)
  {
  }
}
