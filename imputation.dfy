/**
 * Filling the gaps of one numeric column: critical fields are forward-filled and then
 * given the median of the column's original values; the other fields get that median only.
 */
module Imputation {
  import opened Common
  import opened Statistics

  /** One numeric column of the frame, in row order; None is a missing (NaN) cell. */
  type Column = seq<Option<real>>

  /** The present values of a column, in row order. */
  function NonNull(s: Column): (r: seq<real>)
    ensures |r| + CountMissing(s) == |s|
  {
    if s == [] then []
    else (if s[0].Some? then [s[0].value] else []) + NonNull(s[1..])
  }

  /** .isna().sum() */
  function CountMissing(s: Column): nat
  {
    if s == [] then 0 else (if s[0].None? then 1 else 0) + CountMissing(s[1..])
  }

  predicate AllMissing(s: Column)
  {
    forall i :: 0 <= i < |s| ==> s[i].None?
  }

  /** .median() of a column: the median of its present values, None when there are none. */
  function ColumnMedian(s: Column): Option<real>
  {
    Median(NonNull(s))
  }

  /** The most recent present value of a column, looking back from its end. */
  function LastObserved(s: Column): Option<real>
  {
    if s == [] then None
    else if s[|s| - 1].Some? then s[|s| - 1]
    else LastObserved(s[..|s| - 1])
  }

  /** .ffill() continuing from a carried value: each cell becomes the latest present value
      at or before it, or the carried one when there is none yet. */
  function ForwardFillFrom(s: Column, carried: Option<real>): (r: Column)
    ensures |r| == |s|
  {
    if s == [] then []
    else
      var current := if s[0].Some? then s[0] else carried;
      [current] + ForwardFillFrom(s[1..], current)
  }

  /** .ffill(): a left-to-right scan carrying the last present value. */
  function ForwardFill(s: Column): Column
  {
    ForwardFillFrom(s, None)
  }

  /** .fillna(m): a missing (NaN) fill value leaves the column unchanged. */
  function FillWith(s: Column, m: Option<real>): Column
  {
    seq(|s|, i requires 0 <= i < |s| => if s[i].Some? then s[i] else m)
  }

  /** Imputation of temperature, humidity and pressure: when something is missing,
      forward-fill, then fill what remains with the median of the original column. */
  function ImputeCritical(s: Column): Column
  {
    if CountMissing(s) > 0 then FillWith(ForwardFill(s), ColumnMedian(s)) else s
  }

  /** Imputation of the other numeric fields: when something is missing, fill with the median. */
  function ImputeOther(s: Column): Column
  {
    if CountMissing(s) > 0 then FillWith(s, ColumnMedian(s)) else s
  }

  // ---------------------------------------------------------------------------
  // The column-level algorithms, in place

  /** .ffill() over an array: one left-to-right pass carrying the last present value. */
  method ForwardFillInPlace(a: array<Option<real>>)
    modifies a
    ensures a[..] == ForwardFill(old(a[..]))
  {
    ghost var s := a[..];
    var last: Option<real> := None;
    var i := 0;
    while i < a.Length
      invariant 0 <= i <= a.Length
      invariant last == LastObserved(s[..i])
      invariant forall j :: 0 <= j < i ==> a[j] == LastObserved(s[..j + 1])
      invariant forall j :: i <= j < a.Length ==> a[j] == s[j]
    {
      assert s[..i + 1][..i] == s[..i];
      if a[i].Some? {
        last := a[i];
      } else {
        a[i] := last;
      }
      i := i + 1;
    }
    forall j | 0 <= j < a.Length
      ensures a[j] == ForwardFill(s)[j]
    {
      ForwardFillAt(s, None, j);
    }
  }

  /** .fillna(m) over an array. */
  method FillNullsInPlace(a: array<Option<real>>, m: Option<real>)
    modifies a
    ensures a[..] == FillWith(old(a[..]), m)
  {
    var i := 0;
    while i < a.Length
      invariant 0 <= i <= a.Length
      invariant forall j :: 0 <= j < i ==> a[j] == if old(a[j]).Some? then old(a[j]) else m
      invariant forall j :: i <= j < a.Length ==> a[j] == old(a[j])
    {
      if a[i].None? {
        a[i] := m;
      }
      i := i + 1;
    }
  }

  /** One pass of the imputation loops over a column: the median is taken from the column
      before it is touched, then the column is forward-filled (critical fields only) and
      its remaining gaps get the median. A column with nothing missing is left alone. */
  method ImputeColumn(col: Column, critical: bool) returns (r: Column)
    ensures r == if critical then ImputeCritical(col) else ImputeOther(col)
  {
    if CountMissing(col) == 0 {
      return col;
    }
    var median := ColumnMedian(col);
    var a := new Option<real>[|col|](i requires 0 <= i < |col| => col[i]);
    assert a[..] == col;
    if critical {
      ForwardFillInPlace(a);
    }
    FillNullsInPlace(a, median);
    r := a[..];
  }

  // ---------------------------------------------------------------------------
  // Lemmas

  lemma {:induction false} NonNullEmpty(s: Column)
    ensures NonNull(s) == [] <==> AllMissing(s)
    ensures CountMissing(s) == 0 <==> forall i :: 0 <= i < |s| ==> s[i].Some?
  {
    if s != [] {
      NonNullEmpty(s[1..]);
      assert forall i :: 1 <= i < |s| ==> s[i] == s[1..][i - 1];
    }
  }

  /** A column has a median exactly when it has a present value; the median lies between
      the smallest and the largest present value. */
  lemma ColumnMedianExists(s: Column)
    ensures ColumnMedian(s).Some? <==> !AllMissing(s)
    ensures ColumnMedian(s).Some? ==>
      var sorted := SortReals(NonNull(s));
      sorted[0] <= ColumnMedian(s).value <= sorted[|sorted| - 1]
  {
    NonNullEmpty(s);
    var sorted := SortReals(NonNull(s));
    assert |sorted| == |multiset(sorted)| == |multiset(NonNull(s))| == |NonNull(s)|;
    MedianSplitsSample(sorted);
  }

  /** LastObserved of a concatenation looks in the right part first. */
  lemma {:induction false} LastObservedAppend(x: Column, y: Column)
    ensures LastObserved(x + y) == if LastObserved(y).Some? then LastObserved(y) else LastObserved(x)
  {
    if y != [] {
      assert (x + y)[..|x + y| - 1] == x + y[..|y| - 1];
      LastObservedAppend(x, y[..|y| - 1]);
    } else {
      assert x + y == x;
    }
  }

  /** LastObserved finds a value exactly when one is present, and it is the last present one. */
  lemma {:induction false} LastObservedIsLatest(s: Column)
    ensures LastObserved(s).Some? <==> !AllMissing(s)
    ensures forall k :: 0 <= k < |s| && s[k].Some? && (forall j :: k < j < |s| ==> s[j].None?) ==>
      LastObserved(s) == s[k]
  {
    if s != [] {
      var n := |s| - 1;
      LastObservedIsLatest(s[..n]);
      assert forall j :: 0 <= j < n ==> s[..n][j] == s[j];
    }
  }

  /** Cell j of a forward fill is the latest present value at or before j, or the carried value. */
  lemma {:induction false} ForwardFillAt(s: Column, carried: Option<real>, j: nat)
    requires j < |s|
    ensures
      ForwardFillFrom(s, carried)[j] ==
        if LastObserved(s[..j + 1]).Some? then LastObserved(s[..j + 1]) else carried
  {
    if s != [] {
      var current := if s[0].Some? then s[0] else carried;
      if j == 0 {
        assert s[..1] == [] + [s[0]];
      } else {
        ForwardFillAt(s[1..], current, j - 1);
        assert s[..j + 1] == [s[0]] + s[1..][..j];
        LastObservedAppend([s[0]], s[1..][..j]);
        assert [s[0]][..0] == [];
      }
    }
  }

  lemma ForwardFillShape(s: Column, i: nat)
    requires i < |s|
    ensures |ForwardFill(s)| == |s|
    ensures s[i].Some? ==> ForwardFill(s)[i] == s[i]
    ensures ForwardFill(s)[i].Some? <==> exists j :: 0 <= j <= i && s[j].Some?
    ensures ForwardFill(s)[i].Some? ==> ForwardFill(s)[i] == LastObserved(s[..i + 1])
  {
    ForwardFillAt(s, None, i);
    LastObservedIsLatest(s[..i + 1]);
    assert forall j :: 0 <= j <= i ==> s[..i + 1][j] == s[j];
    if s[i].Some? {
      assert s[..i + 1][i] == s[i];
    }
  }

  /** Critical-field imputation at one row; see CriticalImputation. */
  lemma CriticalImputationAt(s: Column, i: nat)
    requires i < |s|
    ensures |ImputeCritical(s)| == |s|
    ensures s[i].Some? ==> ImputeCritical(s)[i] == s[i]
    ensures s[i].None? && (exists j :: 0 <= j < i && s[j].Some?) ==> ImputeCritical(s)[i] == LastObserved(s[..i])
    ensures (forall j :: 0 <= j <= i ==> s[j].None?) ==> ImputeCritical(s)[i] == ColumnMedian(s)
    ensures ImputeCritical(s)[i].None? <==> AllMissing(s)
  {
    ForwardFillShape(s, i);
    if s[i].None? {
      assert s[..i + 1] == s[..i] + [s[i]];
      LastObservedAppend(s[..i], [s[i]]);
      assert [s[i]][..0] == [];
    }
    CriticalGapSurvives(s, i);
  }

  lemma CriticalGapSurvives(s: Column, i: nat)
    requires i < |s|
    ensures |ImputeCritical(s)| == |s|
    ensures ImputeCritical(s)[i].None? <==> AllMissing(s)
  {
    NonNullEmpty(s);
    ColumnMedianExists(s);
    ForwardFillShape(s, i);
    if AllMissing(s) {
      assert forall j :: 0 <= j <= i ==> s[j].None?;
    }
  }

  /** Critical-field imputation: present values are never changed; a gap after the first
      present value takes the latest present value before it (forward fill in row order);
      a leading gap takes the median of the column's present values; and a gap survives
      only when the column has no present value at all. */
  lemma CriticalImputation(s: Column)
    ensures |ImputeCritical(s)| == |s|
    ensures forall i :: 0 <= i < |s| && s[i].Some? ==> ImputeCritical(s)[i] == s[i]
    ensures forall i :: 0 <= i < |s| && s[i].None? && (exists j :: 0 <= j < i && s[j].Some?) ==>
      ImputeCritical(s)[i] == LastObserved(s[..i])
    ensures forall i :: 0 <= i < |s| && (forall j :: 0 <= j <= i ==> s[j].None?) ==>
      ImputeCritical(s)[i] == ColumnMedian(s)
    ensures forall i :: 0 <= i < |s| ==> (ImputeCritical(s)[i].None? <==> AllMissing(s))
  {
    if s == [] {
      assert ImputeCritical(s) == [];
    }
    forall i | 0 <= i < |s|
      ensures |ImputeCritical(s)| == |s|
      ensures s[i].Some? ==> ImputeCritical(s)[i] == s[i]
      ensures s[i].None? && (exists j :: 0 <= j < i && s[j].Some?) ==> ImputeCritical(s)[i] == LastObserved(s[..i])
      ensures (forall j :: 0 <= j <= i ==> s[j].None?) ==> ImputeCritical(s)[i] == ColumnMedian(s)
      ensures ImputeCritical(s)[i].None? <==> AllMissing(s)
    {
      CriticalImputationAt(s, i);
    }
  }

  /** Imputation of a non-critical field: present values are kept and every gap gets the
      median of the present values; nothing is carried forward. */
  lemma OtherImputation(s: Column)
    ensures |ImputeOther(s)| == |s|
    ensures forall i :: 0 <= i < |s| ==>
      ImputeOther(s)[i] == if s[i].Some? then s[i] else ColumnMedian(s)
    ensures forall i :: 0 <= i < |s| ==> (ImputeOther(s)[i].None? <==> AllMissing(s))
  {
    NonNullEmpty(s);
    ColumnMedianExists(s);
  }

  /** The median of two ascending values is their mean. */
  lemma MedianOfTwo(a: real, b: real)
    requires a <= b
    ensures Median([a, b]) == Some((a + b) / 2.0)
  {
    MedianAgreement([a, b], [a, b]);
  }

  lemma MedianOfOne(a: real)
    ensures Median([a]) == Some(a)
  {
    MedianAgreement([a], [a]);
  }

  lemma CriticalExampleSteps()
    ensures NonNull([None, None, Some(10.0), None, Some(20.0), None]) == [10.0, 20.0]
    ensures CountMissing([None, None, Some(10.0), None, Some(20.0), None]) == 4
    ensures ForwardFill([None, None, Some(10.0), None, Some(20.0), None])
         == [None, None, Some(10.0), Some(10.0), Some(20.0), Some(20.0)]
    ensures FillWith([None, None, Some(10.0), Some(10.0), Some(20.0), Some(20.0)], Some(15.0))
         == [Some(15.0), Some(15.0), Some(10.0), Some(10.0), Some(20.0), Some(20.0)]
  {
    CriticalExampleValues();
    CriticalExampleForwardFill();
    CriticalExampleFill();
  }

  lemma CriticalExampleValues()
    ensures NonNull([None, None, Some(10.0), None, Some(20.0), None]) == [10.0, 20.0]
    ensures CountMissing([None, None, Some(10.0), None, Some(20.0), None]) == 4
  {
    var s: Column := [None, None, Some(10.0), None, Some(20.0), None];
    assert s[1..] == [None, Some(10.0), None, Some(20.0), None];
    assert s[2..] == [Some(10.0), None, Some(20.0), None];
    assert s[3..] == [None, Some(20.0), None];
    assert s[4..] == [Some(20.0), None];
    assert s[5..] == [None];
  }

  lemma CriticalExampleForwardFill()
    ensures ForwardFill([None, None, Some(10.0), None, Some(20.0), None])
         == [None, None, Some(10.0), Some(10.0), Some(20.0), Some(20.0)]
  {
    var s: Column := [None, None, Some(10.0), None, Some(20.0), None];
    assert ForwardFillFrom([Some(20.0), None], Some(10.0)) == [Some(20.0), Some(20.0)];
    assert ForwardFillFrom([None, Some(20.0), None], Some(10.0)) == [Some(10.0), Some(20.0), Some(20.0)];
    assert ForwardFillFrom(s[2..], None) == [Some(10.0), Some(10.0), Some(20.0), Some(20.0)];
    assert s[1..][1..] == s[2..];
    assert ForwardFillFrom(s[1..], None) == [None, Some(10.0), Some(10.0), Some(20.0), Some(20.0)];
  }

  lemma CriticalExampleFill()
    ensures FillWith([None, None, Some(10.0), Some(10.0), Some(20.0), Some(20.0)], Some(15.0))
         == [Some(15.0), Some(15.0), Some(10.0), Some(10.0), Some(20.0), Some(20.0)]
  {
  }

  /** [null, null, 10, null, 20, null] becomes [15, 15, 10, 10, 20, 20]: the leading gaps take
      the median 15 of 10 and 20, the later ones the value before them. */
  lemma CriticalImputationExample()
    ensures ImputeCritical([None, None, Some(10.0), None, Some(20.0), None])
         == [Some(15.0), Some(15.0), Some(10.0), Some(10.0), Some(20.0), Some(20.0)]
  {
    CriticalExampleSteps();
    MedianOfTwo(10.0, 20.0);
  }

  lemma LeadingGapExampleSteps()
    ensures NonNull([None, Some(10.0), None]) == [10.0]
    ensures CountMissing([None, Some(10.0), None]) == 2
    ensures ForwardFill([None, Some(10.0), None]) == [None, Some(10.0), Some(10.0)]
    ensures FillWith([None, Some(10.0), Some(10.0)], Some(10.0)) == [Some(10.0), Some(10.0), Some(10.0)]
  {
  }

  /** [null, 10, null] becomes [10, 10, 10]. */
  lemma CriticalImputationLeadingGap()
    ensures ImputeCritical([None, Some(10.0), None]) == [Some(10.0), Some(10.0), Some(10.0)]
  {
    LeadingGapExampleSteps();
    MedianOfOne(10.0);
  }

  lemma OtherExampleSteps()
    ensures NonNull([None, Some(10.0), None, Some(30.0)]) == [10.0, 30.0]
    ensures CountMissing([None, Some(10.0), None, Some(30.0)]) == 2
    ensures FillWith([None, Some(10.0), None, Some(30.0)], Some(20.0)) == [Some(20.0), Some(10.0), Some(20.0), Some(30.0)]
  {
  }

  /** [null, 10, null, 30] becomes [20, 10, 20, 30] for a non-critical field: the gap after 10
      takes the median, not 10. */
  lemma OtherImputationExample()
    ensures ImputeOther([None, Some(10.0), None, Some(30.0)]) == [Some(20.0), Some(10.0), Some(20.0), Some(30.0)]
  {
    OtherExampleSteps();
    MedianOfTwo(10.0, 30.0);
  }
}
