/**
 * `L.Routing.Line`: a route drawn on the map. It finds, for every waypoint,
 * the closest point of the route geometry, and lets the user press on the
 * line and drag out a new waypoint between two existing ones.
 *
 * Great-circle distance is an abstract function of two positions; the map
 * and its layers are kept only as far as the gesture changes them.
 */
module RouteLine {
  import opened Wrappers
  import opened Geo
  import JsArray

  /** `Number.MAX_VALUE`, (2^53 - 1) * 2^971, the search's starting minimum. */
  const MaxValue: real := 179769313486231570814527423731704356798070567525844996598917476803157260780028538760589558632766878171540458953514382464234321326889464182768467546703537516986049910576551282076245490090389328944075868508455133942304583236903222948165808559332123348274797826204144723168738177180919299881250404026184124858368.0

  /** The route a line shows: its decoded geometry and its waypoints. */
  datatype LineRoute = LineRoute(geometry: seq<LatLng>, waypoints: seq<LatLng>)

  // ---- The geometry index ----

  /**
   * `r` is what the search for the point of `geometry` closest to `p`
   * returns: no index when no distance is below `Number.MAX_VALUE`,
   * otherwise an index of minimal distance, the highest one among equals.
   */
  ghost predicate IsClosest(geometry: seq<LatLng>, p: LatLng, distance: (LatLng, LatLng) -> real, r: Option<nat>)
  {
    match r
    case None => forall i :: 0 <= i < |geometry| ==> distance(p, geometry[i]) >= MaxValue
    case Some(k) =>
      k < |geometry| && distance(p, geometry[k]) < MaxValue &&
      (forall i :: 0 <= i < |geometry| ==> distance(p, geometry[k]) <= distance(p, geometry[i])) &&
      (forall i :: k < i < |geometry| ==> distance(p, geometry[k]) < distance(p, geometry[i]))
  }

  /** There is only one such answer, so the search's result is fully determined. */
  lemma ClosestUnique(geometry: seq<LatLng>, p: LatLng, distance: (LatLng, LatLng) -> real, r1: Option<nat>, r2: Option<nat>)
    requires IsClosest(geometry, p, distance, r1) && IsClosest(geometry, p, distance, r2)
    ensures r1 == r2
  {
  }

  /** An empty geometry has no closest point. */
  lemma ClosestOfEmpty(p: LatLng, distance: (LatLng, LatLng) -> real, r: Option<nat>)
    ensures IsClosest([], p, distance, r) <==> r.None?
  {
  }

  /**
   * `_findClosestRoutePoint(latlng)`: scans the geometry from the last point
   * down to the first and takes a point when it is strictly closer than the
   * best so far.
   */
  method FindClosestRoutePoint(geometry: seq<LatLng>, latLng: LatLng, distance: (LatLng, LatLng) -> real)
    returns (minIndex: Option<nat>)
    ensures IsClosest(geometry, latLng, distance, minIndex)
  {
    var minDist := MaxValue;
    minIndex := None;
    var i := |geometry| - 1;
    while i >= 0
      invariant -1 <= i < |geometry|
      invariant minIndex.None? ==> minDist == MaxValue
      invariant minIndex.None? ==> forall j :: i < j < |geometry| ==> distance(latLng, geometry[j]) >= MaxValue
      invariant minIndex.Some? ==> i < minIndex.value < |geometry|
      invariant minIndex.Some? ==> minDist == distance(latLng, geometry[minIndex.value]) < MaxValue
      invariant minIndex.Some? ==> forall j :: i < j < |geometry| ==> minDist <= distance(latLng, geometry[j])
      invariant minIndex.Some? ==> forall j :: minIndex.value < j < |geometry| ==> minDist < distance(latLng, geometry[j])
    {
      var d := distance(latLng, geometry[i]);
      if d < minDist {
        minIndex := Some(i);
        minDist := d;
      }
      i := i - 1;
    }
  }

  /** `_findWaypointIndices()`: the closest route point of each waypoint, in waypoint order. */
  method FindWaypointIndices(route: LineRoute, distance: (LatLng, LatLng) -> real) returns (indices: seq<Option<nat>>)
    ensures |indices| == |route.waypoints|
    ensures forall i :: 0 <= i < |route.waypoints| ==>
      IsClosest(route.geometry, route.waypoints[i], distance, indices[i])
  {
    indices := [];
    var i := 0;
    while i < |route.waypoints|
      invariant 0 <= i <= |route.waypoints|
      invariant |indices| == i
      invariant forall k :: 0 <= k < i ==> IsClosest(route.geometry, route.waypoints[k], distance, indices[k])
    {
      var index := FindClosestRoutePoint(route.geometry, route.waypoints[i], distance);
      indices := indices + [index];
      i := i + 1;
    }
  }

  /**
   * `a > b` in JavaScript on two possibly undefined indices: a comparison
   * with `undefined` is false.
   */
  predicate Exceeds(a: Option<nat>, b: Option<nat>)
  {
    a.Some? && b.Some? && a.value > b.value
  }

  /**
   * `j` is what the backwards scan for route index `i` stops at: every
   * waypoint after `j` lies beyond `i`, and the one at `j`, if any, does not.
   */
  predicate NearestBefore(wpIndices: seq<Option<nat>>, i: Option<nat>, j: int)
  {
    -1 <= j < |wpIndices| &&
    (forall k :: j < k < |wpIndices| ==> Exceeds(wpIndices[k], i)) &&
    (j >= 0 ==> !Exceeds(wpIndices[j], i))
  }

  /** `_findNearestWpBefore(i)`. */
  method FindNearestWpBefore(wpIndices: seq<Option<nat>>, i: Option<nat>) returns (j: int)
    ensures NearestBefore(wpIndices, i, j)
  {
    j := |wpIndices| - 1;
    while j >= 0 && Exceeds(wpIndices[j], i)
      invariant -1 <= j < |wpIndices|
      invariant forall k :: j < k < |wpIndices| ==> Exceeds(wpIndices[k], i)
    {
      j := j - 1;
    }
  }

  /** The scan's answer is determined by the indices and `i`. */
  lemma NearestBeforeUnique(wpIndices: seq<Option<nat>>, i: Option<nat>, j1: int, j2: int)
    requires NearestBefore(wpIndices, i, j1) && NearestBefore(wpIndices, i, j2)
    ensures j1 == j2
  {
  }

  predicate Sorted(wpIndices: seq<Option<nat>>)
  {
    (forall k :: 0 <= k < |wpIndices| ==> wpIndices[k].Some?) &&
    forall k, l :: 0 <= k < l < |wpIndices| ==> wpIndices[k].value <= wpIndices[l].value
  }

  /**
   * On sorted, defined indices the scan finds the last waypoint mapped at
   * or before `i`: all waypoints up to `j` are at or before `i`, all after
   * it are beyond, and `-1` means every waypoint lies beyond `i`.
   */
  lemma NearestBeforeSorted(wpIndices: seq<Option<nat>>, i: nat, j: int)
    requires Sorted(wpIndices) && NearestBefore(wpIndices, Some(i), j)
    ensures forall k :: 0 <= k <= j ==> wpIndices[k].value <= i
    ensures forall k :: j < k < |wpIndices| ==> wpIndices[k].value > i
    ensures j == -1 <==> (wpIndices == [] || wpIndices[0].value > i)
  {
    if j >= 0 {
      forall k | 0 <= k <= j ensures wpIndices[k].value <= i {
        assert wpIndices[k].value <= wpIndices[j].value;
      }
    }
  }

  /**
   * A route index between the points of two consecutive waypoints, on
   * sorted indices, is placed after the first of them.
   */
  lemma NearestBeforeBetween(wpIndices: seq<Option<nat>>, i: nat, k: nat, j: int)
    requires Sorted(wpIndices) && k + 1 < |wpIndices|
    requires wpIndices[k].value <= i < wpIndices[k + 1].value
    requires NearestBefore(wpIndices, Some(i), j)
    ensures j == k
  {
    NearestBeforeSorted(wpIndices, i, j);
  }

  // ---- The waypoint-insertion gesture ----

  /** `L.marker(latlng)`. */
  class Marker {
    var latLng: LatLng

    constructor(latLng: LatLng)
      ensures this.latLng == latLng
    {
      this.latLng := latLng;
    }
  }

  /** `L.polyline(latlngs)`; a position read past the end of an array is `undefined`, here `None`. */
  class Polyline {
    var latLngs: seq<Option<LatLng>>

    constructor(latLngs: seq<Option<LatLng>>)
      ensures this.latLngs == latLngs
    {
      this.latLngs := latLngs;
    }
  }

  /** An entry of `_layers`. */
  datatype Layer = MarkerLayer(marker: Marker) | LineLayer(line: Polyline)

  /** `_newWp`: where the new waypoint goes, and its preview marker and line. */
  datatype NewWaypoint = NewWaypoint(afterIndex: int, marker: Marker, line: Polyline)

  /** The events the line fires. */
  datatype LineEvent = WaypointAdded(afterIndex: int, latLng: LatLng)

  class Line {
    const route: LineRoute
    const distance: (LatLng, LatLng) -> real
    /** `_wpIndices`: the closest route point of each waypoint. */
    const wpIndices: seq<Option<nat>>
    /** `_layers`. */
    var layers: seq<Layer>
    /** `_newWp`; `None` before the first press on the line. */
    var newWp: Option<NewWaypoint>
    /** How many times the map has `_onDragNewWp` registered for `mousemove`. */
    var moveHandlers: nat
    /** How many times the map has `_onWpRelease` registered for `mouseup`. */
    var upHandlers: nat
    /** The events fired so far, oldest first. */
    var events: seq<LineEvent>

    /** `initialize(route)`: the waypoint indices are computed once, here. */
    constructor(route: LineRoute, distance: (LatLng, LatLng) -> real)
      ensures this.route == route && this.distance == distance
      ensures |wpIndices| == |route.waypoints|
      ensures forall i :: 0 <= i < |route.waypoints| ==>
        IsClosest(route.geometry, route.waypoints[i], distance, wpIndices[i])
      ensures layers == [] && newWp.None? && moveHandlers == 0 && upHandlers == 0 && events == []
    {
      var indices := FindWaypointIndices(route, distance);
      this.route := route;
      this.distance := distance;
      wpIndices := indices;
      layers := [];
      newWp := None;
      moveHandlers := 0;
      upHandlers := 0;
      events := [];
    }

    /** `this._route.waypoints[i]`, `undefined` outside the array. */
    function WaypointAt(i: int): (r: Option<LatLng>)
      ensures r.Some? <==> 0 <= i < |route.waypoints|
    {
      if i >= 0 then JsArray.At(route.waypoints, i) else None
    }

    /**
     * `_onLineTouched(e)` (mousedown): the waypoint to insert after is the
     * nearest one before the route point closest to the pointer. A marker at
     * the pointer and a three-point line from that waypoint through the
     * pointer to the next one are added, and the map starts listening for
     * moves and release.
     */
    method OnLineTouched(latLng: LatLng)
      modifies this
      ensures newWp.Some?
      ensures var nw := newWp.value;
        fresh(nw.marker) && fresh(nw.line) &&
        (exists c :: IsClosest(route.geometry, latLng, distance, c) && NearestBefore(wpIndices, c, nw.afterIndex)) &&
        nw.marker.latLng == latLng &&
        nw.line.latLngs == [WaypointAt(nw.afterIndex), Some(latLng), WaypointAt(nw.afterIndex + 1)] &&
        layers == old(layers) + [MarkerLayer(nw.marker), LineLayer(nw.line)]
      ensures moveHandlers == old(moveHandlers) + 1 && upHandlers == old(upHandlers) + 1
      ensures events == old(events)
    {
      var closest := FindClosestRoutePoint(route.geometry, latLng, distance);
      var afterIndex := FindNearestWpBefore(wpIndices, closest);
      var marker := new Marker(latLng);
      var line := new Polyline([WaypointAt(afterIndex), Some(latLng), WaypointAt(afterIndex + 1)]);
      newWp := Some(NewWaypoint(afterIndex, marker, line));
      layers := layers + [MarkerLayer(marker)];
      layers := layers + [LineLayer(line)];
      moveHandlers := moveHandlers + 1;
      upHandlers := upHandlers + 1;
    }

    /**
     * `_onDragNewWp(e)` (mousemove): the marker follows the pointer, and
     * point 1 of the preview line is replaced by it. Nothing else changes;
     * in particular `afterIndex` stays what the press computed. It runs
     * only while the press has a move handler registered.
     */
    method OnDragNewWp(latLng: LatLng)
      requires newWp.Some? && moveHandlers > 0
      modifies newWp.value.marker, newWp.value.line
      ensures newWp.value.marker.latLng == latLng
      ensures newWp.value.line.latLngs == JsArray.Splice(old(newWp.value.line.latLngs), 1, 1, [Some(latLng)])
      ensures |old(newWp.value.line.latLngs)| >= 2 ==>
        newWp.value.line.latLngs == old(newWp.value.line.latLngs)[1 := Some(latLng)]
    {
      var nw := newWp.value;
      nw.marker.latLng := latLng;
      if |nw.line.latLngs| >= 2 {
        JsArray.SpliceReplace(nw.line.latLngs, 1, Some(latLng));
      }
      nw.line.latLngs := JsArray.Splice(nw.line.latLngs, 1, 1, [Some(latLng)]);
    }

    /**
     * `_onWpRelease(e)` (mouseup): the map stops listening for moves and
     * release, and `waypointadded` is fired with the index the press
     * computed. The preview marker and line stay in `_layers`. It runs only
     * while the press has a release handler registered.
     */
    method OnWpRelease(latLng: LatLng)
      requires newWp.Some? && upHandlers > 0
      modifies this
      ensures moveHandlers == 0 && upHandlers == 0
      ensures events == old(events) + [WaypointAdded(old(newWp.value.afterIndex), latLng)]
      ensures layers == old(layers) && newWp == old(newWp)
    {
      upHandlers := 0;
      moveHandlers := 0;
      events := events + [WaypointAdded(newWp.value.afterIndex, latLng)];
    }
  }
}
