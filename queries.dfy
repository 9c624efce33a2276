/**
 * The dynamic filter of get_weather_events_summary: an optional year and an optional
 * month become a WHERE clause with one placeholder per condition and the list of
 * values bound to those placeholders, in the same order.
 */
module Queries {
  import opened Common
  import opened Text

  /** Python truthiness of an optional integer filter: None and 0 are both falsy. */
  predicate Truthy(v: Option<int>)
  {
    v.Some? && v.value != 0
  }

  const YearCondition: string := "year = ?"
  const MonthCondition: string := "month = ?"
  const Conjunction: string := " AND "
  const WherePrefix: string := "WHERE "

  /** The clause built from the collected conditions: empty when there are none. */
  function WhereClause(conditions: seq<string>): (w: string)
    ensures conditions == [] <==> w == ""
  {
    if conditions == [] then "" else WherePrefix + Join(conditions, Conjunction)
  }

  /** The values bound to the placeholders: the year's, then the month's, each only
      when its filter is truthy. */
  function Params(year: Option<int>, month: Option<int>): (ps: seq<int>)
    ensures |ps| <= 2
    ensures |ps| == 0 <==> !Truthy(year) && !Truthy(month)
    ensures Truthy(year) ==> ps[0] == year.value
    ensures Truthy(month) ==> ps[|ps| - 1] == month.value
  {
    (if Truthy(year) then [year.value] else []) + (if Truthy(month) then [month.value] else [])
  }

  /** The conditions in the order they are appended. */
  function Conditions(year: Option<int>, month: Option<int>): (cs: seq<string>)
    ensures |cs| == |Params(year, month)|
  {
    (if Truthy(year) then [YearCondition] else []) + (if Truthy(month) then [MonthCondition] else [])
  }

  /** The two appends per filter and the final join. */
  method BuildWhereClause(year: Option<int>, month: Option<int>) returns (whereClause: string, params: seq<int>)
    ensures whereClause == WhereClause(Conditions(year, month))
    ensures params == Params(year, month)
    ensures whereClause == "" <==> !Truthy(year) && !Truthy(month)
    ensures CountChar(whereClause, '?') == |params|
  {
    var conditions: seq<string> := [];
    params := [];
    if Truthy(year) {
      conditions := conditions + [YearCondition];
      params := params + [year.value];
    }
    if Truthy(month) {
      conditions := conditions + [MonthCondition];
      params := params + [month.value];
    }
    whereClause := if |conditions| > 0 then WherePrefix + Join(conditions, Conjunction) else "";
    PlaceholdersMatchParams(year, month);
  }

  /** Joining parts that carry one placeholder each with a separator that carries none
      gives one placeholder per part. */
  lemma {:induction false} CountCharJoin(parts: seq<string>, sep: string, c: char)
    requires forall k :: 0 <= k < |parts| ==> CountChar(parts[k], c) == 1
    requires CountChar(sep, c) == 0
    ensures CountChar(Join(parts, sep), c) == |parts|
    decreases |parts|
  {
    if |parts| > 1 {
      CountCharJoin(parts[1..], sep, c);
      CountCharAppend(parts[0], sep, c);
      CountCharAppend(parts[0] + sep, Join(parts[1..], sep), c);
    }
  }

  lemma YearConditionHasOnePlaceholder()
    ensures CountChar(YearCondition, '?') == 1
  {
    assert YearCondition == "year = " + ['?'];
    CountCharOnceAtEnd("year = ", '?');
  }

  lemma MonthConditionHasOnePlaceholder()
    ensures CountChar(MonthCondition, '?') == 1
  {
    assert MonthCondition == "month = " + ['?'];
    CountCharOnceAtEnd("month = ", '?');
  }

  lemma ConnectivesHaveNoPlaceholder()
    ensures CountChar(Conjunction, '?') == 0 && CountChar(WherePrefix, '?') == 0
  {
    CountCharAbsent(Conjunction, '?');
    CountCharAbsent(WherePrefix, '?');
  }

  /** A prefix and a separator without placeholders around parts with one each. */
  lemma ClausePlaceholders(prefix: string, parts: seq<string>, sep: string, c: char)
    requires parts != []
    requires forall k :: 0 <= k < |parts| ==> CountChar(parts[k], c) == 1
    requires CountChar(sep, c) == 0 && CountChar(prefix, c) == 0
    ensures CountChar(prefix + Join(parts, sep), c) == |parts|
  {
    CountCharJoin(parts, sep, c);
    CountCharAppend(prefix, Join(parts, sep), c);
  }

  /** Every condition is paired with exactly one bound value. */
  lemma PlaceholdersMatchParams(year: Option<int>, month: Option<int>)
    ensures CountChar(WhereClause(Conditions(year, month)), '?') == |Params(year, month)|
  {
    var cs := Conditions(year, month);
    if cs != [] {
      ConditionsHaveOnePlaceholder(year, month);
      ConnectivesHaveNoPlaceholder();
      ClausePlaceholders(WherePrefix, cs, Conjunction, '?');
    }
  }

  /** Each collected condition is one of the two condition texts. */
  lemma ConditionsAreKnown(year: Option<int>, month: Option<int>)
    ensures forall k :: 0 <= k < |Conditions(year, month)| ==>
      Conditions(year, month)[k] == YearCondition || Conditions(year, month)[k] == MonthCondition
  {
  }

  /** Each collected condition carries one placeholder. */
  lemma ConditionsHaveOnePlaceholder(year: Option<int>, month: Option<int>)
    ensures forall k :: 0 <= k < |Conditions(year, month)| ==> CountChar(Conditions(year, month)[k], '?') == 1
  {
    var cs := Conditions(year, month);
    ConditionsAreKnown(year, month);
    YearConditionHasOnePlaceholder();
    MonthConditionHasOnePlaceholder();
    forall k | 0 <= k < |cs|
      ensures CountChar(cs[k], '?') == 1
    {
      if cs[k] == YearCondition {
        assert CountChar(YearCondition, '?') == 1;
      } else {
        assert CountChar(MonthCondition, '?') == 1;
      }
    }
  }

  /** The three clauses the builder can produce besides the empty one. */
  lemma WhereClauseCases(year: Option<int>, month: Option<int>)
    ensures Truthy(year) && Truthy(month) ==> WhereClause(Conditions(year, month)) == "WHERE year = ? AND month = ?"
    ensures Truthy(year) && !Truthy(month) ==> WhereClause(Conditions(year, month)) == "WHERE year = ?"
    ensures !Truthy(year) && Truthy(month) ==> WhereClause(Conditions(year, month)) == "WHERE month = ?"
    ensures !Truthy(year) && !Truthy(month) ==> WhereClause(Conditions(year, month)) == ""
  {
    if Truthy(year) && Truthy(month) {
      assert Conditions(year, month) == [YearCondition, MonthCondition];
      BothConditionsClause();
    } else if Truthy(year) {
      assert Conditions(year, month) == [YearCondition];
      SingleConditionClause(YearCondition);
      assert WherePrefix + YearCondition == "WHERE year = ?";
    } else if Truthy(month) {
      assert Conditions(year, month) == [MonthCondition];
      SingleConditionClause(MonthCondition);
      assert WherePrefix + MonthCondition == "WHERE month = ?";
    }
  }

  lemma SingleConditionClause(cond: string)
    ensures WhereClause([cond]) == WherePrefix + cond
  {
  }

  lemma BothConditionsClause()
    ensures WhereClause([YearCondition, MonthCondition]) == "WHERE year = ? AND month = ?"
  {
    JoinTwo(YearCondition, MonthCondition, Conjunction);
    assert WherePrefix + (YearCondition + Conjunction + MonthCondition) == "WHERE year = ? AND month = ?";
  }

  lemma JoinTwo(a: string, b: string, sep: string)
    ensures Join([a, b], sep) == a + sep + b
  {
    assert [a, b][1..] == [b];
  }

  /** A zero filter is dropped exactly like a missing one. */
  lemma ZeroFilterIsAbsent(year: Option<int>, month: Option<int>)
    ensures Params(Some(0), month) == Params(None, month)
    ensures Params(year, Some(0)) == Params(year, None)
    ensures Conditions(Some(0), month) == Conditions(None, month)
    ensures Conditions(year, Some(0)) == Conditions(year, None)
  {
  }
}
