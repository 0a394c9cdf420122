/**
 * `validateItineraryShape`: the structural check of the model's output and
 * its closed-world rule that every stop names a candidate POI id. It never
 * repairs anything: it answers with the first failing check.
 */
module Shape {
  import opened JsValue
  import Text
  import Itineraries

  datatype ShapeError =
    | NotAnObject
    | DaysMissing
    | DayNotObject
    | DayLabelMissing
    | DayStopsMissing
    | UnknownPoiId(poiId: Value)

  /**
   * The check's outcome. Reading `poi_id` of a `null` or `undefined` stop
   * throws a `TypeError` instead of returning a message.
   */
  datatype ShapeCheck = Valid | Invalid(error: ShapeError) | Threw

  /** The message the check returns; `toText` is JavaScript's `String(v)`. */
  function ErrorText(e: ShapeError, toText: Value -> string): string {
    match e
    case NotAnObject => "Not an object"
    case DaysMissing => "days missing"
    case DayNotObject => "day is not object"
    case DayLabelMissing => "day.label missing"
    case DayStopsMissing => "day.stops missing"
    case UnknownPoiId(id) => "unknown poi_id: " + toText(id)
  }

  /** `poiIdsSet.has(v)` for a set of strings. */
  predicate KnownId(v: Value, ids: set<string>) {
    v.Str? && v.s in ids
  }

  /** The stops of a well-formed day. */
  function Stops(day: Value): seq<Value> {
    var stops := Get(day, "stops");
    if stops.Arr? then stops.items else []
  }

  /** The days of a well-formed itinerary. */
  function Days(it: Value): seq<Value> {
    var days := Get(it, "days");
    if days.Arr? then days.items else []
  }

  predicate DayWellShaped(day: Value, ids: set<string>) {
    && Truthy(day) && IsObjectLike(day)
    && Get(day, "label").Str?
    && IsNonEmptyArray(Get(day, "stops"))
    && forall j :: 0 <= j < |Stops(day)| ==> KnownId(Get(Stops(day)[j], "poi_id"), ids)
  }

  /**
   * The declarative reading of the check: an object with a non-empty `days`
   * array whose every day is an object with a string `label` and a
   * non-empty `stops` array whose every stop's `poi_id` is a known id.
   */
  predicate WellShaped(it: Value, ids: set<string>) {
    && Truthy(it) && IsObjectLike(it)
    && IsNonEmptyArray(Get(it, "days"))
    && forall i :: 0 <= i < |Days(it)| ==> DayWellShaped(Days(it)[i], ids)
  }

  /** Some stop of some day has `poi_id` equal to `v`. */
  predicate MentionsId(days: seq<Value>, v: Value) {
    exists i, j :: 0 <= i < |days| && 0 <= j < |Stops(days[i])| && Get(Stops(days[i])[j], "poi_id") == v
  }

  /**
   * The answer for a stop whose `poi_id` is not a candidate: the id in the
   * message, or a throw when the stop is `null` or `undefined`.
   */
  function StopFailure(stop: Value): ShapeCheck {
    if stop == Null || stop == Undefined then Threw else Invalid(UnknownPoiId(Get(stop, "poi_id")))
  }

  function CheckStops(stops: seq<Value>, ids: set<string>): (r: ShapeCheck)
    ensures r.Valid? <==> forall j :: 0 <= j < |stops| ==> KnownId(Get(stops[j], "poi_id"), ids)
    ensures r.Invalid? ==>
      (r.error.UnknownPoiId? && !KnownId(r.error.poiId, ids)
       && exists j :: 0 <= j < |stops| && Get(stops[j], "poi_id") == r.error.poiId)
  {
    if stops == [] then Valid
    else if stops[0] == Null || stops[0] == Undefined then Threw
    else if !KnownId(Get(stops[0], "poi_id"), ids) then Invalid(UnknownPoiId(Get(stops[0], "poi_id")))
    else
      var r := CheckStops(stops[1..], ids);
      assert r.Invalid? ==> exists j :: 0 <= j < |stops[1..]| && Get(stops[1..][j], "poi_id") == r.error.poiId;
      r
  }

  /** A day the check looks into: an object with a string `label` and a non-empty `stops` array. */
  predicate DayHasStops(day: Value) {
    Truthy(day) && IsObjectLike(day) && Get(day, "label").Str? && IsNonEmptyArray(Get(day, "stops"))
  }

  function CheckDay(day: Value, ids: set<string>): (r: ShapeCheck)
    ensures r.Valid? <==> DayWellShaped(day, ids)
    ensures r == Invalid(DayNotObject) <==> !Truthy(day) || !IsObjectLike(day)
    ensures r == Invalid(DayLabelMissing) <==> Truthy(day) && IsObjectLike(day) && !Get(day, "label").Str?
    ensures r == Invalid(DayStopsMissing) <==>
      Truthy(day) && IsObjectLike(day) && Get(day, "label").Str? && !IsNonEmptyArray(Get(day, "stops"))
    ensures r.Invalid? ==> !r.error.NotAnObject? && !r.error.DaysMissing?
    ensures r.Invalid? && r.error.UnknownPoiId? ==>
      (!KnownId(r.error.poiId, ids)
       && exists j :: 0 <= j < |Stops(day)| && Get(Stops(day)[j], "poi_id") == r.error.poiId)
  {
    if !Truthy(day) || !IsObjectLike(day) then Invalid(DayNotObject)
    else if !Get(day, "label").Str? then Invalid(DayLabelMissing)
    else if !IsNonEmptyArray(Get(day, "stops")) then Invalid(DayStopsMissing)
    else
      assert Stops(day) == Get(day, "stops").items;
      CheckStops(Stops(day), ids)
  }

  function CheckDays(days: seq<Value>, ids: set<string>): (r: ShapeCheck)
    ensures r.Valid? <==> forall i :: 0 <= i < |days| ==> DayWellShaped(days[i], ids)
    ensures r.Invalid? && r.error.UnknownPoiId? ==> !KnownId(r.error.poiId, ids) && MentionsId(days, r.error.poiId)
    ensures r.Invalid? ==> !r.error.NotAnObject? && !r.error.DaysMissing?
  {
    if days == [] then Valid
    else
      var c := CheckDay(days[0], ids);
      if !c.Valid? then c
      else
        var r := CheckDays(days[1..], ids);
        if r.Invalid? && r.error.UnknownPoiId? then
          MentionsIdTail(days, r.error.poiId);
          r
        else
          assert forall i :: 1 <= i < |days| ==> days[i] == days[1..][i - 1];
          r
  }

  /** An id used in the later days is used in the whole list. */
  lemma MentionsIdTail(days: seq<Value>, v: Value)
    requires days != [] && MentionsId(days[1..], v)
    ensures MentionsId(days, v)
  {
    var i, j :| 0 <= i < |days[1..]| && 0 <= j < |Stops(days[1..][i])| && Get(Stops(days[1..][i])[j], "poi_id") == v;
    assert days[i + 1] == days[1..][i];
  }

  /**
   * `validateItineraryShape`: valid exactly when the itinerary is well
   * shaped; an unknown-id answer names an id that some stop really uses
   * and that is not a candidate.
   */
  function ValidateShape(it: Value, ids: set<string>): (r: ShapeCheck)
    ensures r.Valid? <==> WellShaped(it, ids)
    ensures r == Invalid(NotAnObject) <==> !Truthy(it) || !IsObjectLike(it)
    ensures r == Invalid(DaysMissing) <==> Truthy(it) && IsObjectLike(it) && !IsNonEmptyArray(Get(it, "days"))
    ensures r.Invalid? && r.error.UnknownPoiId? ==> !KnownId(r.error.poiId, ids) && MentionsId(Days(it), r.error.poiId)
  {
    if !Truthy(it) || !IsObjectLike(it) then Invalid(NotAnObject)
    else if !IsNonEmptyArray(Get(it, "days")) then Invalid(DaysMissing)
    else
      assert Days(it) == Get(it, "days").items;
      CheckDays(Days(it), ids)
  }

  /** The stop check answers for the first stop whose `poi_id` is not a candidate. */
  lemma {:induction false} StopsFirstFailure(stops: seq<Value>, ids: set<string>, j: nat)
    requires j < |stops| && !KnownId(Get(stops[j], "poi_id"), ids)
    requires forall i :: 0 <= i < j ==> KnownId(Get(stops[i], "poi_id"), ids)
    ensures CheckStops(stops, ids) == StopFailure(stops[j])
  {
    if j > 0 {
      var tail := stops[1..];
      assert KnownId(Get(stops[0], "poi_id"), ids);
      assert tail[j - 1] == stops[j];
      forall i | 0 <= i < j - 1 ensures KnownId(Get(tail[i], "poi_id"), ids) {
        assert tail[i] == stops[i + 1];
      }
      StopsFirstFailure(tail, ids, j - 1);
    }
  }

  /** The day loop answers with the check of the first day that is not well shaped. */
  lemma {:induction false} DaysFirstFailure(days: seq<Value>, ids: set<string>, k: nat)
    requires k < |days| && !DayWellShaped(days[k], ids)
    requires forall i :: 0 <= i < k ==> DayWellShaped(days[i], ids)
    ensures CheckDays(days, ids) == CheckDay(days[k], ids)
  {
    if k > 0 {
      var tail := days[1..];
      assert DayWellShaped(days[0], ids);
      assert tail[k - 1] == days[k];
      forall i | 0 <= i < k - 1 ensures DayWellShaped(tail[i], ids) {
        assert tail[i] == days[i + 1];
      }
      DaysFirstFailure(tail, ids, k - 1);
    }
  }

  /**
   * Days are checked in order and, inside a day, stops in order: when
   * every earlier day is well shaped and day `k` has a label and stops,
   * the answer is about the first stop of day `k` whose `poi_id` is not a
   * candidate.
   */
  lemma FirstUnknownIdReported(it: Value, ids: set<string>, k: nat, j: nat)
    requires Truthy(it) && IsObjectLike(it) && IsNonEmptyArray(Get(it, "days"))
    requires k < |Days(it)| && forall i :: 0 <= i < k ==> DayWellShaped(Days(it)[i], ids)
    requires DayHasStops(Days(it)[k])
    requires j < |Stops(Days(it)[k])| && !KnownId(Get(Stops(Days(it)[k])[j], "poi_id"), ids)
    requires forall i :: 0 <= i < j ==> KnownId(Get(Stops(Days(it)[k])[i], "poi_id"), ids)
    ensures ValidateShape(it, ids) == StopFailure(Stops(Days(it)[k])[j])
  {
    var day := Days(it)[k];
    DaysFirstFailure(Days(it), ids, k);
    StopsFirstFailure(Stops(day), ids, j);
  }

  /** When every earlier day is well shaped, a day that is not an object, lacks a label or lacks stops is reported as such. */
  lemma FirstBadDayReported(it: Value, ids: set<string>, k: nat)
    requires Truthy(it) && IsObjectLike(it) && IsNonEmptyArray(Get(it, "days"))
    requires k < |Days(it)| && forall i :: 0 <= i < k ==> DayWellShaped(Days(it)[i], ids)
    requires !DayHasStops(Days(it)[k])
    ensures var day := Days(it)[k];
      ValidateShape(it, ids) ==
        if !Truthy(day) || !IsObjectLike(day) then Invalid(DayNotObject)
        else if !Get(day, "label").Str? then Invalid(DayLabelMissing)
        else Invalid(DayStopsMissing)
  {
    DaysFirstFailure(Days(it), ids, k);
  }

  /** Every stop of a well-shaped itinerary names a candidate. */
  lemma WellShapedClosedWorld(it: Value, ids: set<string>, v: Value)
    requires WellShaped(it, ids) && MentionsId(Days(it), v)
    ensures v.Str? && v.s in ids
  {
    var i, j :| 0 <= i < |Days(it)| && 0 <= j < |Stops(Days(it)[i])| && Get(Stops(Days(it)[i])[j], "poi_id") == v;
    assert DayWellShaped(Days(it)[i], ids);
  }

  /**
   * The check is weaker than the schema: a stop with nothing but a known
   * `poi_id` and an out-of-range `duration_min` (no `time_block`, `label` or
   * `why`), in an itinerary without a `title`, passes.
   */
  lemma AcceptsWhatTheSchemaForbids()
    ensures ValidateShape(
      Obj([("days", Arr([Obj([("label", Str("Day 1")), ("stops", Arr([Obj([("poi_id", Str("a")), ("duration_min", Num(5000.0))])]))])]))]),
      {"a"}) == Valid
  {
    var stop := Obj([("poi_id", Str("a")), ("duration_min", Num(5000.0))]);
    var day := Obj([("label", Str("Day 1")), ("stops", Arr([stop]))]);
    var it := Obj([("days", Arr([day]))]);
    assert Get(stop, "poi_id") == Str("a");
    assert "label"[0] != "stops"[0];
    LookupSecond(day.fields, "stops");
    assert Stops(day) == [stop];
    assert DayWellShaped(day, {"a"});
    assert Days(it) == [day];
    assert WellShaped(it, {"a"});
  }

  /** An encoded day is well shaped exactly when it has stops, all of them candidates. */
  lemma EncodedDayWellShaped(d: Itineraries.Day, ids: set<string>)
    ensures DayWellShaped(Itineraries.DayValue(d), ids) <==>
      d.stops != [] && forall j :: 0 <= j < |d.stops| ==> d.stops[j].poiId in ids
  {
    var dv := Itineraries.DayValue(d);
    assert "label"[0] != "stops"[0];
    LookupSecond(dv.fields, "stops");
    assert |Stops(dv)| == |d.stops|;
    forall j | 0 <= j < |d.stops|
      ensures Get(Stops(dv)[j], "poi_id") == Str(d.stops[j].poiId)
    {
      var sv := Itineraries.StopValue(d.stops[j]);
      assert Stops(dv)[j] == sv;
      assert sv.fields[0] == ("poi_id", Str(d.stops[j].poiId));
    }
  }

  /**
   * A typed itinerary, encoded as the provider would return it, passes the
   * check exactly when it has days, every day has stops and every stop id
   * is a candidate.
   */
  lemma EncodedItineraryAccepted(it: Itineraries.Itinerary, ids: set<string>)
    ensures ValidateShape(Itineraries.Encode(it), ids).Valid? <==>
      && it.days != []
      && (forall i :: 0 <= i < |it.days| ==>
            it.days[i].stops != [] && forall j :: 0 <= j < |it.days[i].stops| ==> it.days[i].stops[j].poiId in ids)
  {
    var v := Itineraries.Encode(it);
    assert "title"[0] != "days"[0];
    LookupSecond(v.fields, "days");
    assert |Days(v)| == |it.days|;
    forall i | 0 <= i < |it.days|
      ensures DayWellShaped(Days(v)[i], ids) <==>
        it.days[i].stops != [] && forall j :: 0 <= j < |it.days[i].stops| ==> it.days[i].stops[j].poiId in ids
    {
      assert Days(v)[i] == Itineraries.DayValue(it.days[i]);
      EncodedDayWellShaped(it.days[i], ids);
    }
  }
}
