/**
 * The grid's fetch request (`FetchParams`) with its field constraints, defaults and
 * the `end_row` validator, and the text-filter vocabulary a request may carry.
 */
module Params {
  import opened Common

  /** The eight text-filter operations, each sent over the wire as a fixed string. */
  datatype TextFilterType =
    Equals | NotEqual | Contains | NotContains | StartsWith | EndsWith | IsNull | IsNotNull

  function WireName(t: TextFilterType): string {
    match t
    case Equals => "equals"
    case NotEqual => "notEqual"
    case Contains => "contains"
    case NotContains => "notContains"
    case StartsWith => "startsWith"
    case EndsWith => "endsWith"
    case IsNull => "isNull"
    case IsNotNull => "isNotNull"
  }

  /** Reading a wire string back: exactly the eight names are accepted. */
  function ParseFilterType(s: string): (r: Option<TextFilterType>)
    ensures r.Some? ==> WireName(r.value) == s
  {
    if s == "equals" then Some(Equals)
    else if s == "notEqual" then Some(NotEqual)
    else if s == "contains" then Some(Contains)
    else if s == "notContains" then Some(NotContains)
    else if s == "startsWith" then Some(StartsWith)
    else if s == "endsWith" then Some(EndsWith)
    else if s == "isNull" then Some(IsNull)
    else if s == "isNotNull" then Some(IsNotNull)
    else None
  }

  /** Every filter type survives the trip to its wire name and back. */
  lemma FilterTypeRoundTrip(t: TextFilterType)
    ensures ParseFilterType(WireName(t)) == Some(t)
  {
  }

  /** One column filter; `filterType` defaults to "text". */
  datatype FilterModel = FilterModel(filterType: string, kind: TextFilterType, filter: string)

  const DefaultFilterType: string := "text"

  /** `FilterModel(type=..., filter=...)`, with `filterType` given or left to its default. */
  function NewFilterModel(kind: TextFilterType, filter: string, filterType: Option<string>): (f: FilterModel)
    ensures f.kind == kind && f.filter == filter
    ensures filterType.None? ==> f.filterType == "text"
    ensures filterType.Some? ==> f.filterType == filterType.value
  {
    FilterModel(if filterType.Some? then filterType.value else DefaultFilterType, kind, filter)
  }

  /**
   * A fetch request: the half-open row window [startRow, endRow), an optional sort
   * expression, optional column filters, the grouping columns and the values chosen
   * so far while drilling down through them.
   */
  datatype FetchParams = FetchParams(
    startRow: int,
    endRow: int,
    sort: Option<string>,
    filterModel: Option<map<string, FilterModel>>,
    rowGroupCols: seq<string>,
    groupKeys: seq<string>)

  /** A request that passes every field constraint and the validator. */
  predicate Valid(p: FetchParams) {
    0 <= p.startRow < p.endRow
  }

  /**
   * A reason validation rejects a request: a field's declared bound (`ge=0` on
   * `start_row`, `gt=0` on `end_row`) or the `end_row` validator's ValueError.
   */
  datatype ParamError =
    | BoundViolated(field: string)
    | ValidatorFailed(message: string)

  const EndRowMessage: string := "end_row must be greater than start_row"

  /**
   * The errors validation collects, in field order. The validator runs only once
   * `end_row` has passed its own bound, and compares only against a `start_row`
   * that passed its own.
   */
  function Violations(startRow: int, endRow: int): (errs: seq<ParamError>)
    ensures (BoundViolated("start_row") in errs) <==> startRow < 0
    ensures (BoundViolated("end_row") in errs) <==> endRow <= 0
    ensures (ValidatorFailed(EndRowMessage) in errs) <==> (0 <= startRow && 0 < endRow <= startRow)
    ensures errs == [] <==> 0 <= startRow < endRow
  {
    (if startRow < 0 then [BoundViolated("start_row")] else [])
    + (if endRow <= 0 then [BoundViolated("end_row")]
       else if 0 <= startRow && endRow <= startRow then [ValidatorFailed(EndRowMessage)]
       else [])
  }

  /**
   * `FetchParams(start_row=..., end_row=..., ...)`: the optional fields take their
   * defaults when omitted; the request is built only if no constraint is violated.
   */
  function NewFetchParams(
    startRow: int,
    endRow: int,
    sort: Option<string> := None,
    filterModel: Option<map<string, FilterModel>> := None,
    rowGroupCols: seq<string> := [],
    groupKeys: seq<string> := []): (r: Result<FetchParams, seq<ParamError>>)
    ensures r.Ok? <==> 0 <= startRow < endRow
    ensures r.Ok? ==> Valid(r.value)
    ensures r.Ok? ==> r.value.startRow == startRow && r.value.endRow == endRow
    ensures r.Ok? ==> r.value.sort == sort && r.value.filterModel == filterModel
    ensures r.Ok? ==> r.value.rowGroupCols == rowGroupCols && r.value.groupKeys == groupKeys
    ensures r.Err? ==> r.error != [] && r.error == Violations(startRow, endRow)
  {
    var errs := Violations(startRow, endRow);
    if errs == [] then Ok(FetchParams(startRow, endRow, sort, filterModel, rowGroupCols, groupKeys))
    else Err(errs)
  }

  /** Whether a request asks for row `i`. */
  predicate InWindow(p: FetchParams, i: int) {
    p.startRow <= i < p.endRow
  }

  /** A valid request asks for a non-empty window that starts at a real row. */
  lemma ValidWindowNonEmpty(p: FetchParams)
    requires Valid(p)
    ensures InWindow(p, p.startRow) && InWindow(p, p.endRow - 1)
    ensures !InWindow(p, p.startRow - 1) && !InWindow(p, p.endRow)
    ensures forall i :: InWindow(p, i) ==> 0 <= i
  {
  }

  /** A request with only a window given takes the defaults: no sort, no filters, no grouping. */
  lemma DefaultsWhenOmitted(startRow: int, endRow: int)
    requires 0 <= startRow < endRow
    ensures var r := NewFetchParams(startRow, endRow);
            r.Ok? && r.value.sort == None && r.value.filterModel == None
            && r.value.rowGroupCols == [] && r.value.groupKeys == []
  {
  }

  /** An end row at or before the start row is always refused with the validator's message. */
  lemma EmptyWindowRejected(startRow: int, endRow: int)
    requires 0 <= startRow && 0 < endRow <= startRow
    ensures var r := NewFetchParams(startRow, endRow);
            r.Err? && r.error == [ValidatorFailed("end_row must be greater than start_row")]
  {
  }
}
