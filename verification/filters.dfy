/** The filter normalizer of conference search (`_formatFilters`): user filters
    name a field and an operator by token; both are translated through fixed
    tables, and at most one distinct field may carry an inequality. */
module Filters {
  import opened Wrappers

  /** The `FIELDS` table: filter field tokens to conference property names. */
  const Fields: map<string, string> := map[
    "CITY" := "city",
    "TOPIC" := "topics",
    "MONTH" := "month",
    "MAX_ATTENDEES" := "maxAttendees"
  ]

  /** The `OPERATORS` table: operator tokens to the store's comparison symbols. */
  const Operators: map<string, string> := map[
    "EQ" := "=",
    "GT" := ">",
    "GTEQ" := ">=",
    "LT" := "<",
    "LTEQ" := "<=",
    "NE" := "!="
  ]

  /** One filter as the client sends it: tokens plus the value as text. */
  datatype FilterForm = FilterForm(field: string, operator: string, value: string)

  /** One filter after translation: property name, comparison symbol, value. */
  datatype Filter = Filter(field: string, operator: string, value: string)

  /** Both tokens of `f` appear in their tables. */
  predicate Known(f: FilterForm) {
    f.field in Fields && f.operator in Operators
  }

  /** The table image of a known filter; the value is carried over unchanged. */
  function Translate(f: FilterForm): Filter
    requires Known(f)
  {
    Filter(Fields[f.field], Operators[f.operator], f.value)
  }

  /** Every comparison other than "=" is an inequality. */
  predicate IsInequality(c: Filter) {
    c.operator != "="
  }

  /** Filters `i` and `j` are both known inequalities on different fields. */
  predicate Clash(fs: seq<FilterForm>, i: int, j: int)
    requires 0 <= i < |fs| && 0 <= j < |fs|
  {
    && Known(fs[i]) && Known(fs[j])
    && IsInequality(Translate(fs[i])) && IsInequality(Translate(fs[j]))
    && Translate(fs[i]).field != Translate(fs[j]).field
  }

  /** A filter list the normalizer accepts: every token is known and no two
      inequalities are on different fields. */
  predicate Acceptable(fs: seq<FilterForm>) {
    && (forall i :: 0 <= i < |fs| ==> Known(fs[i]))
    && (forall i, j :: 0 <= i < j < |fs| ==> !Clash(fs, i, j))
  }

  /** Filter `i` is the one the left-to-right scan stops at, given that the
      scan got that far: an unknown token, or an inequality on a field other
      than one an earlier inequality used. */
  predicate FailsAt(fs: seq<FilterForm>, i: int)
    requires 0 <= i < |fs|
  {
    !Known(fs[i]) || exists j :: 0 <= j < i && Clash(fs, j, i)
  }

  /** The error raised for the filter the scan stops at. */
  function FailureAt(fs: seq<FilterForm>, i: int): ApiError
    requires 0 <= i < |fs|
  {
    if Known(fs[i]) then BadRequest(InequalityOnOneField) else BadRequest(InvalidFieldOrOperator)
  }

  /** `e` is the error of the first filter the scan stops at. */
  ghost predicate RejectedWith(fs: seq<FilterForm>, e: ApiError) {
    exists i ::
      && 0 <= i < |fs| && FailsAt(fs, i)
      && (forall j :: 0 <= j < i ==> !FailsAt(fs, j))
      && e == FailureAt(fs, i)
  }

  /** `cs` is `fs` translated entry by entry, in the same order. */
  ghost predicate Normalizes(fs: seq<FilterForm>, cs: seq<Filter>) {
    && |cs| == |fs|
    && forall i :: 0 <= i < |fs| ==> Known(fs[i]) && cs[i] == Translate(fs[i])
  }

  /** `field` names the field of every inequality in `cs`, and is absent
      exactly when `cs` holds no inequality. */
  ghost predicate InequalityFieldOf(cs: seq<Filter>, field: Option<string>) {
    && (field.Some? <==> exists i :: 0 <= i < |cs| && IsInequality(cs[i]))
    && forall i :: 0 <= i < |cs| && IsInequality(cs[i]) ==> field == Some(cs[i].field)
  }

  /** `_formatFilters`: checks and translates the filters in order, and returns
      the inequality field (if any) with the translated list. The service tests
      the recorded field name for truth; every name in `Fields` is non-empty,
      so that test is exactly "a field has been recorded". */
  method FormatFilters(filters: seq<FilterForm>) returns (r: Result<(Option<string>, seq<Filter>)>)
    ensures r.Ok? <==> Acceptable(filters)
    ensures r.Ok? ==> Normalizes(filters, r.value.1) && InequalityFieldOf(r.value.1, r.value.0)
    ensures r.Err? ==> RejectedWith(filters, r.error)
  {
    var formatted: seq<Filter> := [];
    var inequalityField: Option<string> := None;
    for k := 0 to |filters|
      invariant forall i :: 0 <= i < k ==> !FailsAt(filters, i)
      invariant Normalizes(filters[..k], formatted)
      invariant InequalityFieldOf(formatted, inequalityField)
    {
      var f := filters[k];
      if f.field !in Fields || f.operator !in Operators {
        assert FailsAt(filters, k);
        return Err(BadRequest(InvalidFieldOrOperator));
      }
      var filtr := Filter(Fields[f.field], Operators[f.operator], f.value);
      if filtr.operator != "=" {
        if inequalityField.Some? && inequalityField.value != filtr.field {
          var j :| 0 <= j < |formatted| && IsInequality(formatted[j]);
          assert formatted[j] == Translate(filters[j]);
          assert Clash(filters, j, k);
          assert FailsAt(filters, k);
          assert FailureAt(filters, k) == BadRequest(InequalityOnOneField);
          return Err(BadRequest(InequalityOnOneField));
        }
        inequalityField := Some(filtr.field);
      }
      var before := formatted;
      formatted := formatted + [filtr];
      assert forall i :: 0 <= i < |before| ==> formatted[i] == before[i];
      assert formatted[|before|] == filtr;
      assert !FailsAt(filters, k) by {
        if j :| 0 <= j < k && Clash(filters, j, k) {
          assert IsInequality(formatted[j]);
        }
      }
    }
    assert filters[..|filters|] == filters;
    assert Acceptable(filters) by {
      forall i, j | 0 <= i < j < |filters|
        ensures !Clash(filters, i, j)
      {
        assert !FailsAt(filters, j);
      }
    }
    return Ok((inequalityField, formatted));
  }
}
