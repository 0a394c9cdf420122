/**
 * The endpoint's request validator: destructuring defaults for absent
 * fields, then the integer range checks on `days` and `max_stops_per_day`.
 */
module PlanRequest {
  import opened Wrappers
  import opened JsValue

  const DEFAULT_PACE: string := "balanced"
  const DEFAULT_START_AREA: string := "Tahoe (flexible)"
  const DEFAULT_DAYS: int := 1
  const DEFAULT_MAX_STOPS: int := 4

  /** A validated planning request; the free-form fields are passed on as the client sent them. */
  datatype Plan = Plan(
    days: int,
    maxStopsPerDay: int,
    pace: Value,
    interests: Value,
    startArea: Value,
    excludePoiIds: Value)

  datatype RequestError = BadDays | BadMaxStops

  function ErrorMessage(e: RequestError): string {
    match e
    case BadDays => "`days` must be an integer 1–7"
    case BadMaxStops => "`max_stops_per_day` must be an integer 2–8"
  }

  /** A field of the body after its destructuring default. */
  function Field(body: Value, key: string, default: Value): Value {
    OrDefault(Get(OrElse(body, Obj([])), key), default)
  }

  function DaysField(body: Value): Value { Field(body, "days", Num(DEFAULT_DAYS as real)) }
  function MaxStopsField(body: Value): Value { Field(body, "max_stops_per_day", Num(DEFAULT_MAX_STOPS as real)) }

  /** `Number.isInteger(v) && lo <= v && v <= hi`. */
  predicate IntegerIn(v: Value, lo: int, hi: int) {
    IsInteger(v) && lo as real <= v.x <= hi as real
  }

  /**
   * The checks of the handler in their order: `days` first, then
   * `max_stops_per_day`; only a request passing both is accepted.
   */
  function Validate(body: Value): (r: Result<Plan, RequestError>)
    ensures r.Ok? <==> IntegerIn(DaysField(body), 1, 7) && IntegerIn(MaxStopsField(body), 2, 8)
    ensures r == Err(BadDays) <==> !IntegerIn(DaysField(body), 1, 7)
    ensures r.Ok? ==>
      && 1 <= r.value.days <= 7 && DaysField(body) == Num(r.value.days as real)
      && 2 <= r.value.maxStopsPerDay <= 8 && MaxStopsField(body) == Num(r.value.maxStopsPerDay as real)
    ensures r.Ok? ==>
      && (Get(body, "pace") == Undefined ==> r.value.pace == Str(DEFAULT_PACE))
      && (Get(body, "pace") != Undefined ==> r.value.pace == Get(body, "pace"))
      && (Get(body, "interests") == Undefined ==> r.value.interests == Arr([]))
      && (Get(body, "interests") != Undefined ==> r.value.interests == Get(body, "interests"))
      && (Get(body, "start_area") == Undefined ==> r.value.startArea == Str(DEFAULT_START_AREA))
      && (Get(body, "start_area") != Undefined ==> r.value.startArea == Get(body, "start_area"))
      && (Get(body, "exclude_poi_ids") == Undefined ==> r.value.excludePoiIds == Arr([]))
      && (Get(body, "exclude_poi_ids") != Undefined ==> r.value.excludePoiIds == Get(body, "exclude_poi_ids"))
  {
    var days := DaysField(body);
    var maxStops := MaxStopsField(body);
    if !IntegerIn(days, 1, 7) then Err(BadDays)
    else if !IntegerIn(maxStops, 2, 8) then Err(BadMaxStops)
    else
      Ok(Plan(
        days.x.Floor,
        maxStops.x.Floor,
        Field(body, "pace", Str(DEFAULT_PACE)),
        Field(body, "interests", Arr([])),
        Field(body, "start_area", Str(DEFAULT_START_AREA)),
        Field(body, "exclude_poi_ids", Arr([]))))
  }

  /** An empty body is a valid request made entirely of defaults. */
  lemma EmptyBodyTakesDefaults(body: Value)
    requires body == Obj([]) || !Truthy(body)
    ensures Validate(body) == Ok(Plan(DEFAULT_DAYS, DEFAULT_MAX_STOPS, Str(DEFAULT_PACE), Arr([]), Str(DEFAULT_START_AREA), Arr([])))
  {
    assert (1.0).Floor == 1 && (4.0).Floor == 4;
  }

  /**
   * The raw body: an already parsed body is used as is; a missing or string
   * body is parsed (an absent or empty one as `'{}'`) and a parse failure
   * is the `Invalid JSON body` rejection. `JSON.parse` is the parameter.
   */
  function ReadBody(body: Value, parseJson: string -> Option<Value>): (r: Option<Value>)
    ensures Truthy(body) && !body.Str? ==> r == Some(body)
    ensures body.Str? && body.s != [] ==> r == parseJson(body.s)
    ensures !Truthy(body) ==> r == parseJson("{}")
  {
    if !Truthy(body) || body.Str? then
      parseJson(if Truthy(body) then body.s else "{}")
    else Some(body)
  }
}
