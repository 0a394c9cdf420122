/**
 * The pure computations of the itinerary map: the POI index, the per-day
 * route lines, the first-visit metadata per POI and the POIs to display.
 */
module MapView {
  import opened Wrappers
  import Seqs
  import opened Itineraries
  import opened Catalog

  /** `new Map(pois.map((p) => [p.id, p]))`: a later POI with the same id replaces an earlier one. */
  function IndexById(pois: seq<Poi>): (m: map<string, Poi>)
    ensures forall i :: 0 <= i < |pois| ==> pois[i].id in m
    ensures forall id :: id in m ==> m[id].id == id
  {
    if pois == [] then map[]
    else
      var last := pois[|pois| - 1];
      IndexById(pois[..|pois| - 1])[last.id := last]
  }

  /** The index holds exactly the catalog's ids, each mapped to a catalog entry. */
  lemma {:induction false} IndexByIdSound(pois: seq<Poi>, id: string)
    ensures id in IndexById(pois) <==> exists i :: 0 <= i < |pois| && pois[i].id == id
    ensures id in IndexById(pois) ==> IndexById(pois)[id] in pois
  {
    if pois != [] {
      var init := pois[..|pois| - 1];
      IndexByIdSound(init, id);
      if id in IndexById(init) {
        assert IndexById(init)[id] in init;
      }
      if exists i :: 0 <= i < |init| && init[i].id == id {
        var i :| 0 <= i < |init| && init[i].id == id;
        assert pois[i] == init[i];
      }
    }
  }

  /** The entry for an id is its last occurrence in the catalog. */
  lemma {:induction false} IndexLastWins(pois: seq<Poi>, i: nat)
    requires i < |pois|
    requires forall j :: i < j < |pois| ==> pois[j].id != pois[i].id
    ensures IndexById(pois)[pois[i].id] == pois[i]
  {
    var init := pois[..|pois| - 1];
    if i < |pois| - 1 {
      assert pois[i] == init[i];
      IndexLastWins(init, i);
    }
  }

  // -------------------------------------------------------------------
  // Routes
  // -------------------------------------------------------------------

  const DAY_COLORS: seq<string> := [
    "rgba(45, 106, 79, 0.9)",
    "rgba(125, 211, 252, 0.9)",
    "rgba(242, 199, 110, 0.9)",
    "rgba(246, 245, 240, 0.85)"
  ]

  /** `dayColors[dayIndex] || dayColors[0]`. */
  function DayColor(dayIndex: nat): (c: string)
    ensures dayIndex < |DAY_COLORS| ==> c == DAY_COLORS[dayIndex]
    ensures dayIndex >= |DAY_COLORS| ==> c == DAY_COLORS[0]
  {
    if dayIndex < |DAY_COLORS| then DAY_COLORS[dayIndex] else DAY_COLORS[0]
  }

  /** A route line: `[lng, lat]` pairs and the day's colour. */
  datatype Route = Route(coordinates: seq<(real, real)>, color: string)

  /** The POIs of the stops that the index resolves, in stop order. */
  function Resolved(stops: seq<Stop>, poiById: map<string, Poi>): (r: seq<Poi>)
    ensures |r| <= |stops|
  {
    if stops == [] then []
    else (if stops[0].poiId in poiById then [poiById[stops[0].poiId]] else []) + Resolved(stops[1..], poiById)
  }

  lemma {:induction false} ResolvedAppend(a: seq<Stop>, b: seq<Stop>, poiById: map<string, Poi>)
    ensures Resolved(a + b, poiById) == Resolved(a, poiById) + Resolved(b, poiById)
  {
    if a == [] {
      assert a + b == b;
    } else {
      var h := if a[0].poiId in poiById then [poiById[a[0].poiId]] else [];
      calc {
        Resolved(a + b, poiById);
        { assert (a + b)[0] == a[0] && (a + b)[1..] == a[1..] + b; }
        h + Resolved(a[1..] + b, poiById);
        { ResolvedAppend(a[1..], b, poiById); }
        h + (Resolved(a[1..], poiById) + Resolved(b, poiById));
        (h + Resolved(a[1..], poiById)) + Resolved(b, poiById);
      }
    }
  }

  /** Unknown ids are skipped; when every id resolves, nothing is skipped and the order is kept. */
  lemma {:induction false} ResolvedAllKnown(stops: seq<Stop>, poiById: map<string, Poi>)
    requires forall j :: 0 <= j < |stops| ==> stops[j].poiId in poiById
    ensures |Resolved(stops, poiById)| == |stops|
    ensures forall j :: 0 <= j < |stops| ==> Resolved(stops, poiById)[j] == poiById[stops[j].poiId]
  {
    if stops != [] {
      ResolvedAllKnown(stops[1..], poiById);
    }
  }

  /** Every resolved POI is the index entry of one of the stops. */
  lemma {:induction false} ResolvedSound(stops: seq<Stop>, poiById: map<string, Poi>, k: nat)
    requires k < |Resolved(stops, poiById)|
    ensures exists j :: 0 <= j < |stops| && stops[j].poiId in poiById && Resolved(stops, poiById)[k] == poiById[stops[j].poiId]
  {
    var head := if stops[0].poiId in poiById then [poiById[stops[0].poiId]] else [];
    if k >= |head| {
      ResolvedSound(stops[1..], poiById, k - |head|);
      var j :| 0 <= j < |stops[1..]| && stops[1..][j].poiId in poiById
        && Resolved(stops[1..], poiById)[k - |head|] == poiById[stops[1..][j].poiId];
      assert stops[j + 1] == stops[1..][j];
    }
  }

  function Coordinates(ps: seq<Poi>): (r: seq<(real, real)>)
    ensures |r| == |ps|
    ensures forall i :: 0 <= i < |ps| ==> r[i] == (ps[i].lng, ps[i].lat)
  {
    seq(|ps|, i requires 0 <= i < |ps| => (ps[i].lng, ps[i].lat))
  }

  /** The day's line, present only when at least two stops resolve. */
  function DayRoute(d: Day, dayIndex: nat, poiById: map<string, Poi>): seq<Route> {
    var coords := Coordinates(Resolved(d.stops, poiById));
    if |coords| < 2 then [] else [Route(coords, DayColor(dayIndex))]
  }

  function DayRoutes(it: Itinerary, poiById: map<string, Poi>): seq<seq<Route>> {
    seq(|it.days|, i requires 0 <= i < |it.days| => DayRoute(it.days[i], i, poiById))
  }

  /** `buildRouteGeoJson(itinerary, poiById).features`. */
  function BuildRoutes(it: Itinerary, poiById: map<string, Poi>): (r: seq<Route>)
    ensures it.days == [] ==> r == []
    ensures |r| <= |it.days|
    ensures forall k :: 0 <= k < |r| ==> |r[k].coordinates| >= 2
  {
    var blocks := DayRoutes(it, poiById);
    Seqs.ConcatOfSingletons(blocks);
    var r := Seqs.Concat(blocks);
    forall k | 0 <= k < |r| ensures |r[k].coordinates| >= 2 {
      Seqs.ConcatElement(blocks, k);
    }
    r
  }

  /**
   * Day `i` contributes a line exactly when two or more of its stops
   * resolve; the line follows those of the earlier days, holds the resolved
   * POIs' `[lng, lat]` in stop order, and has the day's colour.
   */
  lemma DayRouteInPlace(it: Itinerary, poiById: map<string, Poi>, i: nat)
    requires i < |it.days|
    ensures var blocks := DayRoutes(it, poiById);
      var at := |Seqs.Concat(blocks[..i])|;
      var ps := Resolved(it.days[i].stops, poiById);
      && (|ps| >= 2 ==> at < |BuildRoutes(it, poiById)|
                        && BuildRoutes(it, poiById)[at] == Route(Coordinates(ps), DayColor(i)))
      && (|ps| < 2 ==> blocks[i] == [])
  {
    var blocks := DayRoutes(it, poiById);
    var ps := Resolved(it.days[i].stops, poiById);
    assert blocks[i] == DayRoute(it.days[i], i, poiById);
    if |ps| >= 2 {
      var route := Route(Coordinates(ps), DayColor(i));
      assert blocks[i] == [route];
      Seqs.SingletonBlock(blocks, i, route);
      assert BuildRoutes(it, poiById) == Seqs.Concat(blocks);
    }
  }

  // -------------------------------------------------------------------
  // Stop metadata
  // -------------------------------------------------------------------

  /** A stop together with its position. */
  datatype Visit = Visit(dayIndex: nat, stopIndex: nat, stop: Stop)

  datatype StopMeta = StopMeta(dayIndex: nat, stopIndex: nat, timeBlock: string, labelText: string, why: string)

  function MetaOf(v: Visit): StopMeta {
    StopMeta(v.dayIndex, v.stopIndex, v.stop.timeBlock, v.stop.labelText, v.stop.why)
  }

  function DayVisits(d: Day, dayIndex: nat): seq<Visit> {
    seq(|d.stops|, j requires 0 <= j < |d.stops| => Visit(dayIndex, j, d.stops[j]))
  }

  function VisitBlocks(it: Itinerary): seq<seq<Visit>> {
    seq(|it.days|, i requires 0 <= i < |it.days| => DayVisits(it.days[i], i))
  }

  /** Every stop, day by day and stop by stop. */
  function Visits(it: Itinerary): seq<Visit> {
    Seqs.Concat(VisitBlocks(it))
  }

  function VisitIds(vs: seq<Visit>): (ids: seq<string>)
    ensures |ids| == |vs|
    ensures forall k :: 0 <= k < |vs| ==> ids[k] == vs[k].stop.poiId
  {
    seq(|vs|, k requires 0 <= k < |vs| => vs[k].stop.poiId)
  }

  /** Stop `j` of day `i` sits after all stops of the earlier days. */
  lemma VisitAt(it: Itinerary, i: nat, j: nat)
    requires i < |it.days| && j < |it.days[i].stops|
    ensures var at := |Seqs.Concat(VisitBlocks(it)[..i])| + j;
      at < |Visits(it)| && Visits(it)[at] == Visit(i, j, it.days[i].stops[j])
  {
    var blocks := VisitBlocks(it);
    Seqs.ConcatBlock(blocks, i);
    var off := |Seqs.Concat(blocks[..i])|;
    assert Seqs.Concat(blocks)[off..off + |blocks[i]|][j] == blocks[i][j];
  }

  /**
   * `stopMetaByPoiId`: for every `poi_id` of the itinerary, the metadata of
   * its first visit in day-then-stop order; empty when there are no days.
   */
  method StopMetaByPoiId(it: Itinerary) returns (m: map<string, StopMeta>)
    ensures forall id :: id in m <==> id in VisitIds(Visits(it))
    ensures forall id :: id in m ==>
      m[id] == MetaOf(Visits(it)[Seqs.FirstIndex(VisitIds(Visits(it)), id)])
  {
    m := FirstMetas(Visits(it));
  }

  /** The loop of `stopMetaByPoiId` over the visits in order: a `poi_id` already present is skipped. */
  method FirstMetas(vs: seq<Visit>) returns (m: map<string, StopMeta>)
    ensures forall id :: id in m <==> id in VisitIds(vs)
    ensures forall id :: id in m ==> m[id] == MetaOf(vs[Seqs.FirstIndex(VisitIds(vs), id)])
  {
    var ids := VisitIds(vs);
    m := map[];
    for k := 0 to |vs|
      invariant forall id :: id in m <==> id in ids[..k]
      invariant forall id :: id in m ==> id in ids && m[id] == MetaOf(vs[Seqs.FirstIndex(ids, id)])
    {
      var id := ids[k];
      assert ids[..k + 1] == ids[..k] + [id];
      if id !in m {
        forall j | 0 <= j < k ensures ids[j] != id {
          assert ids[j] in ids[..k];
        }
        Seqs.FirstIndexAt(ids, k);
        m := m[id := MetaOf(vs[k])];
      }
    }
    assert ids[..|vs|] == ids;
  }

  // -------------------------------------------------------------------
  // Displayed POIs
  // -------------------------------------------------------------------

  /** `ids.map((id) => poiById.get(id)).filter(Boolean)`. */
  function ResolveIds(ids: seq<string>, poiById: map<string, Poi>): (r: seq<Poi>)
    ensures |r| <= |ids|
  {
    if ids == [] then []
    else (if ids[0] in poiById then [poiById[ids[0]]] else []) + ResolveIds(ids[1..], poiById)
  }

  /** Some id of `ids` is bound to `p` by the index. */
  predicate Resolves(ids: seq<string>, poiById: map<string, Poi>, p: Poi) {
    exists k :: 0 <= k < |ids| && ids[k] in poiById && poiById[ids[k]] == p
  }

  /** An id list whose every id occurs in another resolves to no POI the other misses. */
  lemma ResolvesWithin(xs: seq<string>, ys: seq<string>, poiById: map<string, Poi>, p: Poi)
    requires Resolves(xs, poiById, p)
    requires forall i :: 0 <= i < |xs| ==> xs[i] in ys
    ensures Resolves(ys, poiById, p)
  {
    var k :| 0 <= k < |xs| && xs[k] in poiById && poiById[xs[k]] == p;
    assert xs[k] in ys;
    var k2 :| 0 <= k2 < |ys| && ys[k2] == xs[k];
  }

  lemma {:induction false} ResolveIdsMembers(ids: seq<string>, poiById: map<string, Poi>, p: Poi)
    ensures p in ResolveIds(ids, poiById) <==> Resolves(ids, poiById, p)
  {
    if ids != [] {
      ResolveIdsMembers(ids[1..], poiById, p);
      if exists k :: 0 <= k < |ids[1..]| && ids[1..][k] in poiById && poiById[ids[1..][k]] == p {
        var k :| 0 <= k < |ids[1..]| && ids[1..][k] in poiById && poiById[ids[1..][k]] == p;
        assert ids[k + 1] == ids[1..][k];
      }
      if exists k :: 0 <= k < |ids| && ids[k] in poiById && poiById[ids[k]] == p {
        var k :| 0 <= k < |ids| && ids[k] in poiById && poiById[ids[k]] == p;
        if k > 0 {
          assert ids[1..][k - 1] == ids[k];
        }
      }
    }
  }

  /**
   * `displayPois`: the whole catalog when the itinerary has no stops,
   * otherwise its distinct stop ids in first-appearance order, resolved,
   * with unknown ids dropped.
   */
  function DisplayPois(it: Itinerary, catalog: seq<Poi>, poiById: map<string, Poi>): (r: seq<Poi>)
    ensures StopIds(it) == [] ==> r == catalog
    ensures StopIds(it) != [] ==> |r| <= |StopIds(it)|
  {
    var stopIds := StopIds(it);
    if stopIds == [] then catalog
    else
      var unique := Seqs.Dedup(stopIds);
      DedupNoLonger(stopIds);
      ResolveIds(unique, poiById)
  }

  lemma {:induction false} DedupNoLonger<T>(xs: seq<T>)
    ensures |Seqs.Dedup(xs)| <= |xs|
  {
    if xs != [] {
      DedupNoLonger(xs[..|xs| - 1]);
    }
  }

  /**
   * With stops present, a POI is displayed exactly when some stop names an
   * id that the index resolves to it.
   */
  lemma DisplayPoisMembers(it: Itinerary, catalog: seq<Poi>, poiById: map<string, Poi>, p: Poi)
    requires StopIds(it) != []
    ensures p in DisplayPois(it, catalog, poiById) <==> Resolves(StopIds(it), poiById, p)
  {
    var ids := StopIds(it);
    var unique := Seqs.Dedup(ids);
    ResolveIdsMembers(unique, poiById, p);
    if Resolves(unique, poiById, p) {
      ResolvesWithin(unique, ids, poiById, p);
    }
    if Resolves(ids, poiById, p) {
      ResolvesWithin(ids, unique, poiById, p);
    }
  }

  lemma {:induction false} ResolveIdsAllKnown(ids: seq<string>, poiById: map<string, Poi>)
    requires forall k :: 0 <= k < |ids| ==> ids[k] in poiById
    ensures |ResolveIds(ids, poiById)| == |ids|
    ensures forall k :: 0 <= k < |ids| ==> ResolveIds(ids, poiById)[k] == poiById[ids[k]]
  {
    if ids != [] {
      ResolveIdsAllKnown(ids[1..], poiById);
    }
  }

  /**
   * When every stop id resolves, the displayed POIs are those of the
   * distinct stop ids, one each, ordered by each id's first appearance.
   */
  lemma DisplayPoisOrder(it: Itinerary, catalog: seq<Poi>, poiById: map<string, Poi>)
    requires StopIds(it) != []
    requires forall k :: 0 <= k < |StopIds(it)| ==> StopIds(it)[k] in poiById
    ensures var unique := Seqs.Dedup(StopIds(it));
      && |DisplayPois(it, catalog, poiById)| == |unique|
      && (forall k :: 0 <= k < |unique| ==> DisplayPois(it, catalog, poiById)[k] == poiById[unique[k]])
      && (forall k, l :: 0 <= k < l < |unique| ==>
            Seqs.FirstIndex(StopIds(it), unique[k]) < Seqs.FirstIndex(StopIds(it), unique[l]))
  {
    var ids := StopIds(it);
    var unique := Seqs.Dedup(ids);
    forall k | 0 <= k < |unique| ensures unique[k] in poiById {
      var k2 :| 0 <= k2 < |ids| && ids[k2] == unique[k];
    }
    ResolveIdsAllKnown(unique, poiById);
    Seqs.DedupOrder(ids);
  }

  /** The ids of `ids` that the index knows, in their order. */
  function KnownIds(ids: seq<string>, poiById: map<string, Poi>): (r: seq<string>)
    ensures forall x :: x in r <==> x in ids && x in poiById
  {
    if ids == [] then []
    else
      var init := ids[..|ids| - 1];
      var last := ids[|ids| - 1];
      assert ids == init + [last];
      KnownIds(init, poiById) + (if last in poiById then [last] else [])
  }

  lemma {:induction false} ResolveIdsAppend(a: seq<string>, b: seq<string>, poiById: map<string, Poi>)
    ensures ResolveIds(a + b, poiById) == ResolveIds(a, poiById) + ResolveIds(b, poiById)
  {
    if a == [] {
      assert a + b == b;
    } else {
      var h := if a[0] in poiById then [poiById[a[0]]] else [];
      calc {
        ResolveIds(a + b, poiById);
        { assert (a + b)[0] == a[0] && (a + b)[1..] == a[1..] + b; }
        h + ResolveIds(a[1..] + b, poiById);
        { ResolveIdsAppend(a[1..], b, poiById); }
        h + (ResolveIds(a[1..], poiById) + ResolveIds(b, poiById));
        (h + ResolveIds(a[1..], poiById)) + ResolveIds(b, poiById);
      }
    }
  }

  /**
   * Resolving a list of ids, unknown ones included, yields the POIs of its
   * known ids, one each and in order.
   */
  lemma {:induction false} ResolveIdsOfKnown(ids: seq<string>, poiById: map<string, Poi>)
    ensures |ResolveIds(ids, poiById)| == |KnownIds(ids, poiById)|
    ensures forall k :: 0 <= k < |KnownIds(ids, poiById)| ==>
      KnownIds(ids, poiById)[k] in poiById && ResolveIds(ids, poiById)[k] == poiById[KnownIds(ids, poiById)[k]]
  {
    if ids != [] {
      var init := ids[..|ids| - 1];
      var last := ids[|ids| - 1];
      assert ids == init + [last];
      ResolveIdsOfKnown(init, poiById);
      ResolveIdsAppend(init, [last], poiById);
      assert ResolveIds([last], poiById) == (if last in poiById then [poiById[last]] else []) by {
        assert [last][1..] == [];
      }
    }
  }

  /** Keeping the known ids of a list in first-appearance order keeps that order. */
  lemma {:induction false} KnownIdsInFirstOrder(xs: seq<string>, r: seq<string>, poiById: map<string, Poi>)
    requires Seqs.InFirstOrder(xs, r)
    ensures Seqs.InFirstOrder(xs, KnownIds(r, poiById))
  {
    if r != [] {
      var init := r[..|r| - 1];
      var last := r[|r| - 1];
      assert r == init + [last];
      FirstOrderInit(xs, r);
      KnownIdsInFirstOrder(xs, init, poiById);
      if last in poiById {
        var kept := KnownIds(init, poiById);
        forall i | 0 <= i < |kept|
          ensures kept[i] in xs && Seqs.FirstIndex(xs, kept[i]) < Seqs.FirstIndex(xs, last)
        {
          EarlierFirst(xs, r, kept[i]);
        }
        Seqs.FirstOrderAppendNew(xs, kept, last);
      }
    }
  }

  /** Dropping the last element keeps first-appearance order. */
  lemma FirstOrderInit(xs: seq<string>, r: seq<string>)
    requires Seqs.InFirstOrder(xs, r) && r != []
    ensures Seqs.InFirstOrder(xs, r[..|r| - 1])
  {
    var init := r[..|r| - 1];
    forall i | 0 <= i < |init| ensures init[i] == r[i] { }
  }

  /** An element before the last one of a list in first-appearance order first appears earlier. */
  lemma EarlierFirst(xs: seq<string>, r: seq<string>, x: string)
    requires Seqs.InFirstOrder(xs, r) && r != [] && x in r[..|r| - 1]
    ensures x in xs && r[|r| - 1] in xs && Seqs.FirstIndex(xs, x) < Seqs.FirstIndex(xs, r[|r| - 1])
  {
    var j :| 0 <= j < |r| - 1 && r[..|r| - 1][j] == x;
    assert r[j] == x;
  }

  /**
   * With stops present, the displayed POIs are those of the distinct stop
   * ids the index knows, one each, ordered by each id's first appearance
   * among the stops; unknown ids leave no gap.
   */
  lemma DisplayPoisKnownInOrder(it: Itinerary, catalog: seq<Poi>, poiById: map<string, Poi>)
    requires StopIds(it) != []
    ensures var shown := KnownIds(Seqs.Dedup(StopIds(it)), poiById);
      && |DisplayPois(it, catalog, poiById)| == |shown|
      && (forall k :: 0 <= k < |shown| ==> DisplayPois(it, catalog, poiById)[k] == poiById[shown[k]])
      && (forall x :: x in shown <==> x in StopIds(it) && x in poiById)
      && Seqs.InFirstOrder(StopIds(it), shown)
  {
    var ids := StopIds(it);
    var unique := Seqs.Dedup(ids);
    ResolveIdsOfKnown(unique, poiById);
    Seqs.DedupOrder(ids);
    KnownIdsInFirstOrder(ids, unique, poiById);
    forall x | x in ids ensures x in unique {
      var j :| 0 <= j < |ids| && ids[j] == x;
    }
  }

  /** The position of the last catalog entry with a given id. */
  lemma {:induction false} LastWithId(pois: seq<Poi>, id: string) returns (i: nat)
    requires exists k :: 0 <= k < |pois| && pois[k].id == id
    ensures i < |pois| && pois[i].id == id
    ensures forall j :: i < j < |pois| ==> pois[j].id != id
  {
    if pois[|pois| - 1].id == id {
      i := |pois| - 1;
    } else {
      var init := pois[..|pois| - 1];
      var k :| 0 <= k < |pois| && pois[k].id == id;
      assert init[k] == pois[k];
      i := LastWithId(init, id);
      assert pois[i] == init[i];
    }
  }

  /**
   * With the index built from the displayed catalog itself, as the map
   * does, a POI is shown exactly when some stop names its id and it is the
   * last catalog entry with that id.
   */
  lemma DisplayPoisOfOwnCatalog(it: Itinerary, catalog: seq<Poi>, p: Poi)
    requires StopIds(it) != []
    ensures p in DisplayPois(it, catalog, IndexById(catalog)) <==>
      && p.id in StopIds(it)
      && exists i :: 0 <= i < |catalog| && catalog[i] == p && forall j :: i < j < |catalog| ==> catalog[j].id != p.id
  {
    var m := IndexById(catalog);
    var ids := StopIds(it);
    DisplayPoisMembers(it, catalog, m, p);
    if Resolves(ids, m, p) {
      var k :| 0 <= k < |ids| && ids[k] in m && m[ids[k]] == p;
      IndexByIdSound(catalog, p.id);
      var i := LastWithId(catalog, p.id);
      IndexLastWins(catalog, i);
    }
    if p.id in ids && exists i :: 0 <= i < |catalog| && catalog[i] == p && forall j :: i < j < |catalog| ==> catalog[j].id != p.id {
      var i :| 0 <= i < |catalog| && catalog[i] == p && forall j :: i < j < |catalog| ==> catalog[j].id != p.id;
      IndexLastWins(catalog, i);
      var k :| 0 <= k < |ids| && ids[k] == p.id;
    }
  }
}
