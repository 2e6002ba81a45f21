/** The query builder of conference search (`_getQuery`): normalizes the
    filters, orders by the inequality field (when there is one) and then by
    name, and turns the values of the numeric fields into integers. */
module Query {
  import opened Wrappers
  import opened Numbers
  import opened Filters

  /** The properties whose filter values are compared as integers. */
  const IntegerFields: set<string> := {"month", "maxAttendees"}

  /** A filter value as the store receives it. */
  datatype Value = Text(text: string) | Integer(number: int)

  /** One conjunct of the query. */
  datatype QueryFilter = QueryFilter(field: string, operator: string, value: Value)

  /** A query over all conferences: sort keys (all ascending) and the filters
      every result must satisfy. */
  datatype ConferenceQuery = ConferenceQuery(order: seq<string>, filters: seq<QueryFilter>)

  /** The value the store receives for a translated filter: the integer the
      text denotes for a numeric field, the text itself otherwise. */
  ghost predicate CoercedValue(c: Filter, v: Value) {
    if c.field in IntegerFields then ParseInt(c.value).Some? && v == Integer(ParseInt(c.value).value)
    else v == Text(c.value)
  }

  /** The value of a numeric-field filter is not an integer literal. */
  predicate NotCoercible(c: Filter) {
    c.field in IntegerFields && ParseInt(c.value).None?
  }

  /** `qs` is `cs` entry by entry, with each value coerced. */
  ghost predicate Coerces(cs: seq<Filter>, qs: seq<QueryFilter>) {
    && |qs| == |cs|
    && forall i :: 0 <= i < |cs| ==>
         && qs[i].field == cs[i].field
         && qs[i].operator == cs[i].operator
         && CoercedValue(cs[i], qs[i].value)
  }

  /** `e` is the `ValueError` of the first filter in `cs` whose value cannot be
      coerced. */
  ghost predicate FirstValueError(cs: seq<Filter>, e: ApiError) {
    exists i ::
      && 0 <= i < |cs| && NotCoercible(cs[i])
      && (forall j :: 0 <= j < i ==> !NotCoercible(cs[j]))
      && e == ValueError(cs[i].value)
  }

  /** `order` sorts first by the field every inequality of `cs` is on, then by
      name; or by name alone when `cs` has no inequality. */
  ghost predicate OrderedFor(cs: seq<Filter>, order: seq<string>) {
    && (forall i :: 0 <= i < |cs| && IsInequality(cs[i]) ==> order == [cs[i].field, "name"])
    && ((forall i :: 0 <= i < |cs| ==> !IsInequality(cs[i])) ==> order == ["name"])
  }

  /** The whole filter list translated through the tables. */
  function TranslateAll(fs: seq<FilterForm>): (cs: seq<Filter>)
    requires forall i :: 0 <= i < |fs| ==> Known(fs[i])
  {
    seq(|fs|, i requires 0 <= i < |fs| => Translate(fs[i]))
  }

  /** The sort keys: the store requires the inequality property to come first. */
  function SortOrder(inequalityField: Option<string>): seq<string> {
    match inequalityField
    case None => ["name"]
    case Some(f) => [f, "name"]
  }

  /** Sorting follows the inequality field the normalizer reports. */
  lemma SortOrderFollowsInequality(cs: seq<Filter>, inequalityField: Option<string>)
    requires InequalityFieldOf(cs, inequalityField)
    ensures OrderedFor(cs, SortOrder(inequalityField))
  {
  }

  /** `int(value)` for a numeric field, the text itself for any other. */
  function CoerceValue(c: Filter): (r: Result<Value>)
    ensures r.Ok? <==> !NotCoercible(c)
    ensures r.Ok? ==> CoercedValue(c, r.value)
    ensures r.Err? ==> r.error == ValueError(c.value)
  {
    if c.field !in IntegerFields then Ok(Text(c.value))
    else
      match ParseInt(c.value)
      case Some(n) => Ok(Integer(n))
      case None => Err(ValueError(c.value))
  }

  /** A numeric field given the decimal rendering of an integer receives that
      integer back. */
  lemma NumericRenderingCoerced(c: Filter, n: int)
    requires c.field in IntegerFields
    ensures CoerceValue(c.(value := IntToString(n))) == Ok(Integer(n))
  {
    ParseIntRoundTrip(n);
  }

  /** A numeric field whose value holds no digit at all raises `ValueError`
      carrying that value; any other field keeps its text whatever it is. */
  lemma DigitlessValueRejected(c: Filter)
    requires forall i :: 0 <= i < |c.value| ==> !IsDigit(c.value[i])
    ensures c.field in IntegerFields ==> CoerceValue(c) == Err(ValueError(c.value))
    ensures c.field !in IntegerFields ==> CoerceValue(c) == Ok(Text(c.value))
  {
  }

  /** The coercion loop of `_getQuery`: `int(value)` for the numeric fields,
      in order, stopping at the first failure. */
  method CoerceValues(cs: seq<Filter>) returns (r: Result<seq<QueryFilter>>)
    ensures r.Ok? <==> forall i :: 0 <= i < |cs| ==> !NotCoercible(cs[i])
    ensures r.Ok? ==> Coerces(cs, r.value)
    ensures r.Err? ==> FirstValueError(cs, r.error)
  {
    var qs: seq<QueryFilter> := [];
    for k := 0 to |cs|
      invariant forall i :: 0 <= i < k ==> !NotCoercible(cs[i])
      invariant |qs| == k
      invariant forall i :: 0 <= i < k ==>
        qs[i].field == cs[i].field && qs[i].operator == cs[i].operator && CoercedValue(cs[i], qs[i].value)
    {
      var v := CoerceValue(cs[k]);
      if v.Err? {
        return Err(v.error);
      }
      assert !NotCoercible(cs[k]);
      qs := qs + [QueryFilter(cs[k].field, cs[k].operator, v.value)];
    }
    return Ok(qs);
  }

  /** `_getQuery`: a filter error wins over every value error; then the first
      numeric-field filter whose value is not an integer raises `ValueError`. */
  method GetQuery(filters: seq<FilterForm>) returns (r: Result<ConferenceQuery>)
    ensures !Acceptable(filters) ==> r.Err? && RejectedWith(filters, r.error)
    ensures Acceptable(filters) ==>
      && (r.Ok? <==> forall i :: 0 <= i < |filters| ==> !NotCoercible(TranslateAll(filters)[i]))
      && (r.Err? ==> FirstValueError(TranslateAll(filters), r.error))
      && (r.Ok? ==> Coerces(TranslateAll(filters), r.value.filters))
      && (r.Ok? ==> OrderedFor(TranslateAll(filters), r.value.order))
  {
    var formatted := FormatFilters(filters);
    if formatted.Err? {
      return Err(formatted.error);
    }
    var (inequalityField, cs) := formatted.value;
    assert cs == TranslateAll(filters);
    var order := SortOrder(inequalityField);
    SortOrderFollowsInequality(cs, inequalityField);
    var coerced := CoerceValues(cs);
    if coerced.Err? {
      return Err(coerced.error);
    }
    return Ok(ConferenceQuery(order, coerced.value));
  }
}
