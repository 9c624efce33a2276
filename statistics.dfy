/**
 * The statistical median of get_monthly_temperature_stats, computed over a list
 * that arrives sorted ascending, and the median of an unordered set of values
 * (what pandas' Series.median() returns), defined by sorting first.
 */
module Statistics {
  import opened Common

  predicate Sorted(s: seq<real>)
  {
    forall i, j :: 0 <= i < j < |s| ==> s[i] <= s[j]
  }

  function Insert(x: real, s: seq<real>): (r: seq<real>)
    requires Sorted(s)
    ensures Sorted(r)
    ensures multiset(r) == multiset(s) + multiset{x}
    ensures |r| == |s| + 1
    ensures r[0] == if s == [] || x <= s[0] then x else s[0]
  {
    if s == [] || x <= s[0] then [x] + s
    else
      var t := Insert(x, s[1..]);
      assert s == [s[0]] + s[1..];
      assert s[0] <= t[0];
      [s[0]] + t
  }

  /** Ascending order of a list of values, as ORDER BY and pandas' median both produce. */
  function SortReals(s: seq<real>): (r: seq<real>)
    ensures Sorted(r)
    ensures multiset(r) == multiset(s)
  {
    if s == [] then []
    else
      assert s == [s[0]] + s[1..];
      Insert(s[0], SortReals(s[1..]))
  }

  /** The median expression of get_monthly_temperature_stats: None for an empty list,
      the middle element for an odd count, the mean of the two middle ones for an even count. */
  function MedianOfSorted(temps: seq<real>): Option<real>
  {
    if |temps| == 0 then None
    else
      var n := |temps|;
      if n % 2 == 1 then Some(temps[n / 2])
      else Some((temps[n / 2 - 1] + temps[n / 2]) / 2.0)
  }

  /** The median of a collection of values in any order (Series.median()). */
  function Median(values: seq<real>): Option<real>
  {
    MedianOfSorted(SortReals(values))
  }

  /** How many values are at most v. */
  function CountAtMost(s: seq<real>, v: real): nat
  {
    if s == [] then 0 else CountAtMost(s[..|s| - 1], v) + (if s[|s| - 1] <= v then 1 else 0)
  }

  /** How many values are at least v. */
  function CountAtLeast(s: seq<real>, v: real): nat
  {
    if s == [] then 0 else (if s[0] >= v then 1 else 0) + CountAtLeast(s[1..], v)
  }

  lemma {:induction false} CountAtMostSorted(s: seq<real>, k: nat, v: real)
    requires Sorted(s) && k < |s| && s[k] <= v
    ensures CountAtMost(s, v) >= k + 1
  {
    if k < |s| - 1 {
      CountAtMostSorted(s[..|s| - 1], k, v);
    } else if k > 0 {
      CountAtMostSorted(s[..|s| - 1], k - 1, v);
    }
  }

  lemma {:induction false} CountAtLeastSorted(s: seq<real>, k: nat, v: real)
    requires Sorted(s) && k < |s| && s[k] >= v
    ensures CountAtLeast(s, v) >= |s| - k
  {
    if k > 0 {
      CountAtLeastSorted(s[1..], k - 1, v);
    } else if |s| > 1 {
      CountAtLeastSorted(s[1..], 0, v);
    }
  }

  /** On a sorted list the median is defined exactly when the list is non-empty, lies
      between the first and the last element, and has at least half of the values at or
      below it and at least half at or above it. */
  lemma MedianSplitsSample(temps: seq<real>)
    requires Sorted(temps)
    ensures MedianOfSorted(temps).None? <==> |temps| == 0
    ensures MedianOfSorted(temps).Some? ==>
      var m := MedianOfSorted(temps).value;
      && temps[0] <= m <= temps[|temps| - 1]
      && 2 * CountAtMost(temps, m) >= |temps|
      && 2 * CountAtLeast(temps, m) >= |temps|
  {
    var n := |temps|;
    if n > 0 {
      var m := MedianOfSorted(temps).value;
      if n % 2 == 1 {
        CountAtMostSorted(temps, n / 2, m);
        CountAtLeastSorted(temps, n / 2, m);
      } else {
        CountAtMostSorted(temps, n / 2 - 1, m);
        CountAtLeastSorted(temps, n / 2, m);
      }
    }
  }

  /** Two ascending lists holding the same values are the same list. */
  lemma {:induction false} SortedPermutationUnique(a: seq<real>, b: seq<real>)
    requires Sorted(a) && Sorted(b) && multiset(a) == multiset(b)
    ensures a == b
  {
    assert |a| == |multiset(a)| == |multiset(b)| == |b|;
    if a != [] {
      assert a[0] in multiset(b);
      assert b[0] in multiset(a);
      assert a[0] == b[0];
      assert a == [a[0]] + a[1..];
      assert b == [b[0]] + b[1..];
      calc {
        multiset(a[1..]);
        multiset(a) - multiset{a[0]};
        multiset(b) - multiset{b[0]};
        multiset(b[1..]);
      }
      SortedPermutationUnique(a[1..], b[1..]);
    }
  }

  /** The median the query service computes over the sorted temperatures it selects equals
      the median of the same values taken in any order: imputation and statistics agree. */
  lemma MedianAgreement(values: seq<real>, queried: seq<real>)
    requires Sorted(queried) && multiset(queried) == multiset(values)
    ensures MedianOfSorted(queried) == Median(values)
  {
    SortedPermutationUnique(queried, SortReals(values));
  }

  /** Reordering the values does not change their median. */
  lemma MedianOrderIndependent(a: seq<real>, b: seq<real>)
    requires multiset(a) == multiset(b)
    ensures Median(a) == Median(b)
  {
    SortedPermutationUnique(SortReals(a), SortReals(b));
  }

  /** The worked examples: [1, 2, 3] gives 2, [1, 2, 3, 4] gives 2.5 and [] gives None. */
  lemma MedianExamples()
    ensures MedianOfSorted([1.0, 2.0, 3.0]) == Some(2.0)
    ensures MedianOfSorted([1.0, 2.0, 3.0, 4.0]) == Some(2.5)
    ensures MedianOfSorted([]) == None
  {
  }
}
