/**
 * The itinerary as the provider's strict schema shapes it and as the
 * client-side code (markdown export, map) reads it.
 */
module Itineraries {
  import opened Wrappers
  import opened JsValue
  import Seqs

  datatype Stop = Stop(
    poiId: string,
    timeBlock: string,
    durationMin: int,
    labelText: string,
    why: string,
    tips: Option<seq<string>>)

  datatype Day = Day(labelText: string, stops: seq<Stop>)

  datatype Itinerary = Itinerary(title: string, days: seq<Day>)

  /** The stop ids of one day, in stop order. */
  function DayStopIds(d: Day): (r: seq<string>)
    ensures |r| == |d.stops|
    ensures forall j :: 0 <= j < |r| ==> r[j] == d.stops[j].poiId
  {
    seq(|d.stops|, j requires 0 <= j < |d.stops| => d.stops[j].poiId)
  }

  /** Every stop id of the itinerary, day by day and stop by stop. */
  function StopIds(it: Itinerary): seq<string> {
    Seqs.Concat(seq(|it.days|, i requires 0 <= i < |it.days| => DayStopIds(it.days[i])))
  }

  /** The stop as the JSON object the provider returns. */
  function StopValue(s: Stop): Value {
    Obj([("poi_id", Str(s.poiId)), ("time_block", Str(s.timeBlock)), ("duration_min", Num(s.durationMin as real)),
         ("label", Str(s.labelText)), ("why", Str(s.why))]
        + (match s.tips case Some(ts) => [("tips", Strings(ts))] case None => []))
  }

  function DayValue(d: Day): Value {
    Obj([("label", Str(d.labelText)), ("stops", Arr(seq(|d.stops|, j requires 0 <= j < |d.stops| => StopValue(d.stops[j]))))])
  }

  /** The itinerary as the JSON document the provider returns. */
  function Encode(it: Itinerary): Value {
    Obj([("title", Str(it.title)), ("days", Arr(seq(|it.days|, i requires 0 <= i < |it.days| => DayValue(it.days[i]))))])
  }
}
