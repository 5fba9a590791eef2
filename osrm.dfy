/**
 * The OSRM router `L.Routing.OSRM`: it builds the `viaroute` query for a
 * list of waypoints, turns a response into routes (or an error), and keeps
 * the hint cache OSRM hands back so that the next query can resend it.
 *
 * The JSONP transport is abstracted away: `Route` records the request it
 * would send, and the response arrives later through `RouteDone`. Numbers
 * are turned into strings by an abstract formatter (`Number#toString` in
 * the source), used both for location keys and for the checksum.
 */
module Osrm {
  import opened Wrappers
  import opened Geo
  import PolylineCodec
  import JsArray

  const DefaultServiceUrl: string := "http://router.project-osrm.org/viaroute"
  const DefaultGeometryPrecision: int := 6

  /** The options the router is created with; `None` keeps the default. */
  datatype RouterOptions = RouterOptions(serviceUrl: Option<string>, geometryPrecision: Option<int>)

  /** `route_summary` and `alternative_summaries[i]`: passed through unchanged. */
  datatype Summary = Summary(totalDistance: int, totalTime: int)

  /** One entry of `route_instructions`: passed through unchanged. */
  type Instruction = seq<string>

  /** `hint_data` of a response. */
  datatype HintData = HintData(checksum: Option<int>, locations: seq<string>)

  /** The fields of an OSRM `viaroute` response the router reads. */
  datatype Response = Response(
    status: int,
    message: string,
    routeName: seq<string>,
    routeGeometry: string,
    routeInstructions: seq<Instruction>,
    routeSummary: Summary,
    viaPoints: seq<LatLng>,
    alternativeGeometries: seq<string>,
    alternativeNames: seq<seq<string>>,
    alternativeInstructions: seq<seq<Instruction>>,
    alternativeSummaries: seq<Summary>,
    hintData: HintData)

  /**
   * A route as handed to `routefound` listeners. The alternative arrays may
   * be shorter than `alternative_geometries`; reading past their end gives
   * `undefined`, which is `None` here.
   */
  datatype RouteInfo = RouteInfo(
    name: Option<seq<string>>,
    geometry: seq<LatLng>,
    instructions: Option<seq<Instruction>>,
    summary: Option<Summary>,
    waypoints: seq<LatLng>)

  /** `this._hints`: an optional checksum and the hint stored per location key. */
  datatype Hints = Hints(checksum: Option<int>, locations: map<string, string>)

  /** The events the router fires. */
  datatype RouterEvent =
    | Error(status: int, message: string)
    | RouteFound(routes: seq<RouteInfo>)

  /**
   * A query handed to the transport, with the waypoints as they were when it
   * was sent. The source hands the array object itself to the callback, so
   * the caller of `RouteDone` supplies the list as it is when the answer
   * arrives.
   */
  datatype Request = Request(url: string, waypoints: seq<LatLng>)

  // ---- Location keys and hints ----

  /** `_locationKey`: `lat + ',' + lng`. */
  function LocationKey(format: real -> string, p: LatLng): string
  {
    format(p.lat) + "," + format(p.lng)
  }

  /** `this._hints.locations[key]`, when it is truthy (present and not empty). */
  function HintFor(hints: Hints, key: string): Option<string>
  {
    if key in hints.locations && hints.locations[key] != "" then Some(hints.locations[key]) else None
  }

  /** What the query says about one waypoint: its key and the hint sent with it, if any. */
  datatype LocParam = LocParam(key: string, hint: Option<string>)

  /** The `loc=` parameter of one waypoint, followed by its `hint=` parameter if it has a hint. */
  function LocItem(format: real -> string, hints: Hints, w: LatLng): seq<string>
  {
    var key := LocationKey(format, w);
    match HintFor(hints, key)
    case Some(h) => ["loc=" + key, "hint=" + h]
    case None => ["loc=" + key]
  }

  /** The `locs` array `_buildRouteUrl` fills, one waypoint after the other. */
  function LocParams(format: real -> string, hints: Hints, ws: seq<LatLng>): seq<string>
  {
    if ws == [] then []
    else LocParams(format, hints, ws[..|ws| - 1]) + LocItem(format, hints, ws[|ws| - 1])
  }

  function Drop(s: string, n: nat): string
  {
    if n <= |s| then s[n..] else ""
  }

  predicate IsHintParam(p: string)
  {
    |p| >= 5 && p[..5] == "hint="
  }

  /**
   * Reads a `locs` array back: every `loc=` parameter opens an entry, and a
   * `hint=` parameter right after it is that entry's hint.
   */
  function ParseLocs(ps: seq<string>): seq<LocParam>
  {
    if ps == [] then []
    else if |ps| >= 2 && IsHintParam(ps[|ps| - 1]) then
      ParseLocs(ps[..|ps| - 2]) + [LocParam(Drop(ps[|ps| - 2], 4), Some(Drop(ps[|ps| - 1], 5)))]
    else
      ParseLocs(ps[..|ps| - 1]) + [LocParam(Drop(ps[|ps| - 1], 4), None)]
  }

  /** What the query should say: each waypoint's key, in order, with its cached truthy hint. */
  function ExpectedLocs(format: real -> string, hints: Hints, ws: seq<LatLng>): seq<LocParam>
  {
    seq(|ws|, i requires 0 <= i < |ws| => LocParam(LocationKey(format, ws[i]), HintFor(hints, LocationKey(format, ws[i]))))
  }

  /**
   * Every waypoint contributes exactly one `loc=` parameter carrying its key,
   * in waypoint order, and it is followed by a `hint=` parameter exactly when
   * the cache holds a truthy hint for that key, carrying that hint.
   */
  lemma {:induction false} LocParamsParse(format: real -> string, hints: Hints, ws: seq<LatLng>)
    ensures ParseLocs(LocParams(format, hints, ws)) == ExpectedLocs(format, hints, ws)
    decreases |ws|
  {
    if ws != [] {
      var init, w := ws[..|ws| - 1], ws[|ws| - 1];
      LocParamsParse(format, hints, init);
      ParseItem(LocParams(format, hints, init), format, hints, w);
      ExpectedSnoc(format, hints, ws);
      SnocChain(ParseLocs(LocParams(format, hints, ws)), ParseLocs(LocParams(format, hints, init)),
        ExpectedLocs(format, hints, ws), ExpectedLocs(format, hints, init),
        LocParam(LocationKey(format, w), HintFor(hints, LocationKey(format, w))));
    }
  }

  lemma SnocChain(a: seq<LocParam>, a': seq<LocParam>, b: seq<LocParam>, b': seq<LocParam>, x: LocParam)
    requires a == a' + [x] && b == b' + [x] && a' == b'
    ensures a == b
  {
  }

  /** One more waypoint adds one more entry to the parsed parameters. */
  lemma ParseItem(ps: seq<string>, format: real -> string, hints: Hints, w: LatLng)
    ensures ParseLocs(ps + LocItem(format, hints, w)) ==
      ParseLocs(ps) + [LocParam(LocationKey(format, w), HintFor(hints, LocationKey(format, w)))]
  {
    var key := LocationKey(format, w);
    match HintFor(hints, key)
    case Some(h) => ParseHinted(ps, key, h);
    case None => ParseBare(ps, key);
  }

  lemma ParseHinted(ps: seq<string>, key: string, hint: string)
    ensures ParseLocs(ps + ["loc=" + key, "hint=" + hint]) == ParseLocs(ps) + [LocParam(key, Some(hint))]
  {
    var all := ps + ["loc=" + key, "hint=" + hint];
    assert all[..|all| - 2] == ps;
    DropPrefix("hint=", hint);
    DropPrefix("loc=", key);
    assert ("hint=" + hint)[..5] == "hint=";
  }

  lemma ParseBare(ps: seq<string>, key: string)
    ensures ParseLocs(ps + ["loc=" + key]) == ParseLocs(ps) + [LocParam(key, None)]
  {
    var all := ps + ["loc=" + key];
    assert all[..|all| - 1] == ps;
    DropPrefix("loc=", key);
    assert !IsHintParam("loc=" + key) by {
      assert ("loc=" + key)[0] == 'l';
    }
  }

  lemma DropPrefix(p: string, s: string)
    ensures Drop(p + s, |p|) == s
  {
    assert (p + s)[|p|..] == s;
  }

  lemma ExpectedSnoc(format: real -> string, hints: Hints, ws: seq<LatLng>)
    requires ws != []
    ensures ExpectedLocs(format, hints, ws) ==
      ExpectedLocs(format, hints, ws[..|ws| - 1]) +
        [LocParam(LocationKey(format, ws[|ws| - 1]), HintFor(hints, LocationKey(format, ws[|ws| - 1])))]
  {
  }

  /** `locs.join('&')`. */
  function Join(ps: seq<string>, sep: string): string
  {
    if ps == [] then ""
    else if |ps| == 1 then ps[0]
    else ps[0] + sep + Join(ps[1..], sep)
  }

  /** `'&checksum=' + checksum` when the checksum is defined, nothing otherwise. */
  function ChecksumParam(format: real -> string, checksum: Option<int>): (r: string)
    ensures checksum.None? <==> r == ""
  {
    match checksum
    case Some(c) => "&checksum=" + format(c as real)
    case None => ""
  }

  /** The query `_buildRouteUrl` builds. */
  function RouteUrl(serviceUrl: string, format: real -> string, hints: Hints, ws: seq<LatLng>): string
  {
    serviceUrl + "?instructions=true&" + Join(LocParams(format, hints, ws), "&") + ChecksumParam(format, hints.checksum)
  }

  /** With an empty cache the query holds only the `loc=` parameters and no checksum. */
  lemma EmptyCacheUrl(serviceUrl: string, format: real -> string, ws: seq<LatLng>)
    ensures RouteUrl(serviceUrl, format, Hints(None, map[]), ws) ==
      serviceUrl + "?instructions=true&" + Join(LocParams(format, Hints(None, map[]), ws), "&")
    ensures |ParseLocs(LocParams(format, Hints(None, map[]), ws))| == |ws|
    ensures forall i :: 0 <= i < |ws| ==>
      ParseLocs(LocParams(format, Hints(None, map[]), ws))[i] == LocParam(LocationKey(format, ws[i]), None)
  {
    var h := Hints(None, map[]);
    LocParamsParse(format, h, ws);
    var parsed := ParseLocs(LocParams(format, h, ws));
    forall i | 0 <= i < |ws| ensures parsed[i] == LocParam(LocationKey(format, ws[i]), None) {
      assert parsed[i] == ExpectedLocs(format, h, ws)[i];
    }
  }

  // ---- Saving hints ----

  /**
   * The locations map after the reverse loop of `_saveHintData` has run
   * down to index `i`: the keys of `ws[i..m]` mapped to their hints, where
   * a later write, that is a lower index, overrides an earlier one.
   */
  function SavedFrom(format: real -> string, ws: seq<LatLng>, hs: seq<string>, i: nat): map<string, string>
    requires |hs| <= |ws|
    decreases |hs| - i
  {
    if i >= |hs| then map[]
    else SavedFrom(format, ws, hs, i + 1)[LocationKey(format, ws[i]) := hs[i]]
  }

  function SavedLocations(format: real -> string, ws: seq<LatLng>, hs: seq<string>): map<string, string>
    requires |hs| <= |ws|
  {
    SavedFrom(format, ws, hs, 0)
  }

  /**
   * From index `i` on, the saved keys are exactly the keys of the waypoints
   * `i..m-1`, and a key is mapped to the hint of its lowest index there.
   */
  lemma {:induction false} SavedFromKeys(format: real -> string, ws: seq<LatLng>, hs: seq<string>, i: nat)
    requires |hs| <= |ws|
    ensures SavedFrom(format, ws, hs, i).Keys == set k | i <= k < |hs| :: LocationKey(format, ws[k])
    decreases |hs| - i
  {
    if i < |hs| {
      SavedFromKeys(format, ws, hs, i + 1);
      assert (set k | i <= k < |hs| :: LocationKey(format, ws[k])) ==
        (set k | i + 1 <= k < |hs| :: LocationKey(format, ws[k])) + {LocationKey(format, ws[i])};
    }
  }

  lemma {:induction false} SavedFromValues(format: real -> string, ws: seq<LatLng>, hs: seq<string>, i: nat)
    requires |hs| <= |ws|
    ensures forall k :: i <= k < |hs| && (forall j :: i <= j < k ==> LocationKey(format, ws[j]) != LocationKey(format, ws[k])) ==>
      LocationKey(format, ws[k]) in SavedFrom(format, ws, hs, i) &&
      SavedFrom(format, ws, hs, i)[LocationKey(format, ws[k])] == hs[k]
    decreases |hs| - i
  {
    if i < |hs| {
      SavedFromValues(format, ws, hs, i + 1);
      var m := SavedFrom(format, ws, hs, i);
      forall k | i <= k < |hs| && (forall j :: i <= j < k ==> LocationKey(format, ws[j]) != LocationKey(format, ws[k]))
        ensures LocationKey(format, ws[k]) in m && m[LocationKey(format, ws[k])] == hs[k]
      {
        if k > i {
          assert LocationKey(format, ws[i]) != LocationKey(format, ws[k]);
        }
      }
    }
  }

  /**
   * After saving, the cache holds a key exactly when one of the first
   * `m = |hs|` waypoints has it, and the first such waypoint's hint wins.
   */
  lemma SavedLocationsContents(format: real -> string, ws: seq<LatLng>, hs: seq<string>)
    requires |hs| <= |ws|
    ensures forall key :: key in SavedLocations(format, ws, hs) <==>
      exists k :: 0 <= k < |hs| && LocationKey(format, ws[k]) == key
    ensures forall k :: 0 <= k < |hs| && (forall j :: 0 <= j < k ==> LocationKey(format, ws[j]) != LocationKey(format, ws[k])) ==>
      SavedLocations(format, ws, hs)[LocationKey(format, ws[k])] == hs[k]
  {
    SavedFromKeys(format, ws, hs, 0);
    SavedFromValues(format, ws, hs, 0);
  }

  /**
   * The hints saved from a response go out with the next query for the same
   * waypoints: the first waypoint with a given key sends that waypoint's hint
   * when it is not empty.
   */
  lemma ResendsSavedHints(format: real -> string, serviceUrl: string, ws: seq<LatLng>, hd: HintData)
    requires |hd.locations| <= |ws|
    ensures var hints := Hints(hd.checksum, SavedLocations(format, ws, hd.locations));
      |ParseLocs(LocParams(format, hints, ws))| == |ws| &&
      forall k :: 0 <= k < |hd.locations| && (forall j :: 0 <= j < k ==> LocationKey(format, ws[j]) != LocationKey(format, ws[k])) ==>
        ParseLocs(LocParams(format, hints, ws))[k] ==
          LocParam(LocationKey(format, ws[k]), if hd.locations[k] != "" then Some(hd.locations[k]) else None)
  {
    var hints := Hints(hd.checksum, SavedLocations(format, ws, hd.locations));
    SavedLocationsContents(format, ws, hd.locations);
    LocParamsParse(format, hints, ws);
  }

  // ---- Routes ----

  function PrimaryRoute(response: Response, precision: int): RouteInfo
  {
    RouteInfo(Some(response.routeName),
      PolylineCodec.Scaled(PolylineCodec.DecodeRaw(response.routeGeometry), precision),
      Some(response.routeInstructions), Some(response.routeSummary), response.viaPoints)
  }

  function AlternativeRoute(response: Response, i: nat, precision: int): RouteInfo
  {
    RouteInfo(JsArray.At(response.alternativeNames, i),
      if i < |response.alternativeGeometries| then
        PolylineCodec.Scaled(PolylineCodec.DecodeRaw(response.alternativeGeometries[i]), precision)
      else [],
      JsArray.At(response.alternativeInstructions, i), JsArray.At(response.alternativeSummaries, i), response.viaPoints)
  }

  /** The `routes` of a `routefound` event: the primary route, then one per alternative geometry. */
  function Routes(response: Response, precision: int): seq<RouteInfo>
  {
    [PrimaryRoute(response, precision)] +
      seq(|response.alternativeGeometries|, i requires 0 <= i < |response.alternativeGeometries| => AlternativeRoute(response, i, precision))
  }

  /**
   * Every route reports the response's `via_points` as its waypoints, and a
   * route whose geometry was encoded from integer points carries exactly
   * those points, scaled by the precision.
   */
  lemma RoutesGeometry(response: Response, precision: int, primary: seq<PolylineCodec.RawPoint>)
    ensures |Routes(response, precision)| == 1 + |response.alternativeGeometries|
    ensures forall r :: r in Routes(response, precision) ==> r.waypoints == response.viaPoints
    ensures response.routeGeometry == PolylineCodec.Encode(primary) ==>
      Routes(response, precision)[0].geometry == PolylineCodec.Scaled(primary, precision)
    ensures forall i, pts :: 0 <= i < |response.alternativeGeometries| && response.alternativeGeometries[i] == PolylineCodec.Encode(pts) ==>
      Routes(response, precision)[i + 1].geometry == PolylineCodec.Scaled(pts, precision)
  {
    PolylineCodec.RoundTrip(primary);
    forall i, pts | 0 <= i < |response.alternativeGeometries| && response.alternativeGeometries[i] == PolylineCodec.Encode(pts)
      ensures Routes(response, precision)[i + 1].geometry == PolylineCodec.Scaled(pts, precision)
    {
      PolylineCodec.RoundTrip(pts);
    }
  }

  /**
   * The primary route carries the response's name, instructions and summary.
   * Alternative `i` carries the `i`-th entry of each alternative array, and
   * `undefined` exactly where that array is shorter than the geometries.
   */
  lemma RoutesFields(response: Response, precision: int)
    ensures var r := Routes(response, precision);
      r[0].name == Some(response.routeName) && r[0].instructions == Some(response.routeInstructions) &&
      r[0].summary == Some(response.routeSummary)
    ensures forall i :: 1 <= i <= |response.alternativeGeometries| ==>
      (Routes(response, precision)[i].name.Some? <==> i - 1 < |response.alternativeNames|) &&
      (Routes(response, precision)[i].instructions.Some? <==> i - 1 < |response.alternativeInstructions|) &&
      (Routes(response, precision)[i].summary.Some? <==> i - 1 < |response.alternativeSummaries|)
    ensures forall i :: 1 <= i <= |response.alternativeGeometries| && i - 1 < |response.alternativeNames| ==>
      Routes(response, precision)[i].name == Some(response.alternativeNames[i - 1])
    ensures forall i :: 1 <= i <= |response.alternativeGeometries| && i - 1 < |response.alternativeInstructions| ==>
      Routes(response, precision)[i].instructions == Some(response.alternativeInstructions[i - 1])
    ensures forall i :: 1 <= i <= |response.alternativeGeometries| && i - 1 < |response.alternativeSummaries| ==>
      Routes(response, precision)[i].summary == Some(response.alternativeSummaries[i - 1])
  {
  }

  /** A list holding the primary route and then each alternative in order is `Routes`. */
  lemma RoutesFrom(response: Response, precision: int, alts: seq<RouteInfo>)
    requires |alts| == 1 + |response.alternativeGeometries|
    requires alts[0] == PrimaryRoute(response, precision)
    requires forall k :: 0 <= k < |response.alternativeGeometries| ==> alts[k + 1] == AlternativeRoute(response, k, precision)
    ensures alts == Routes(response, precision)
  {
    var r := Routes(response, precision);
    forall k | 0 <= k < |alts| ensures alts[k] == r[k] {
      if k > 0 {
        assert alts[k - 1 + 1] == AlternativeRoute(response, k - 1, precision);
      }
    }
  }

  /** `L.Routing.OSRM`. */
  class Router {
    const serviceUrl: string
    const geometryPrecision: int
    /** How JavaScript turns a number into a string. */
    const format: real -> string
    /** `this._hints`. */
    var hints: Hints
    /** The events fired so far, oldest first. */
    var events: seq<RouterEvent>
    /** The queries handed to the transport so far, oldest first. */
    var requests: seq<Request>

    /** `initialize`: the options over the defaults, and a cache with no checksum and no hints. */
    constructor(options: RouterOptions, format: real -> string)
      ensures serviceUrl == (if options.serviceUrl.Some? then options.serviceUrl.value else DefaultServiceUrl)
      ensures geometryPrecision == (if options.geometryPrecision.Some? then options.geometryPrecision.value else DefaultGeometryPrecision)
      ensures this.format == format
      ensures hints == Hints(None, map[])
      ensures events == [] && requests == []
    {
      serviceUrl := if options.serviceUrl.Some? then options.serviceUrl.value else DefaultServiceUrl;
      geometryPrecision := if options.geometryPrecision.Some? then options.geometryPrecision.value else DefaultGeometryPrecision;
      this.format := format;
      hints := Hints(None, map[]);
      events := [];
      requests := [];
    }

    /** `_buildRouteUrl(waypoints)`. */
    method BuildRouteUrl(waypoints: seq<LatLng>) returns (url: string)
      ensures url == RouteUrl(serviceUrl, format, hints, waypoints)
      ensures ParseLocs(LocParams(format, hints, waypoints)) == ExpectedLocs(format, hints, waypoints)
    {
      var locs: seq<string> := [];
      var i := 0;
      while i < |waypoints|
        invariant 0 <= i <= |waypoints|
        invariant locs == LocParams(format, hints, waypoints[..i])
      {
        var locationKey := LocationKey(format, waypoints[i]);
        locs := locs + ["loc=" + locationKey];
        var hint := HintFor(hints, locationKey);
        if hint.Some? {
          locs := locs + ["hint=" + hint.value];
        }
        assert waypoints[..i + 1][..i] == waypoints[..i];
        i := i + 1;
      }
      assert waypoints[..i] == waypoints;
      url := serviceUrl + "?instructions=true&" + Join(locs, "&") + ChecksumParam(format, hints.checksum);
      LocParamsParse(format, hints, waypoints);
    }

    /** `route(waypoints)`: the query is handed to the transport; the answer comes back through `RouteDone`. */
    method Route(waypoints: seq<LatLng>)
      modifies this
      ensures requests == old(requests) + [Request(RouteUrl(serviceUrl, format, hints, waypoints), waypoints)]
      ensures hints == old(hints) && events == old(events)
    {
      var url := BuildRouteUrl(waypoints);
      requests := requests + [Request(url, waypoints)];
    }

    /**
     * `_saveHintData(route, waypoints)`: the cache is replaced by the
     * response's checksum and an empty map, then filled from the last hint
     * to the first. With more hints than waypoints the first iteration reads
     * an `undefined` waypoint and throws; `ok` is false then, and the cache
     * is left with the checksum and no hints.
     */
    method SaveHintData(hintData: HintData, waypoints: seq<LatLng>) returns (ok: bool)
      modifies this
      ensures ok <==> |hintData.locations| <= |waypoints|
      ensures ok ==> hints == Hints(hintData.checksum, SavedLocations(format, waypoints, hintData.locations))
      ensures !ok ==> hints == Hints(hintData.checksum, map[])
      ensures events == old(events) && requests == old(requests)
    {
      hints := Hints(hintData.checksum, map[]);
      if |hintData.locations| > |waypoints| {
        return false;
      }
      var i := |hintData.locations| - 1;
      while i >= 0
        invariant -1 <= i < |hintData.locations|
        invariant hints == Hints(hintData.checksum, SavedFrom(format, waypoints, hintData.locations, i + 1))
        invariant events == old(events) && requests == old(requests)
      {
        var loc := waypoints[i];
        hints := hints.(locations := hints.locations[LocationKey(format, loc) := hintData.locations[i]]);
        i := i - 1;
      }
      return true;
    }

    /**
     * The `alts` array `_routeDone` builds: the primary route, and one route
     * per alternative geometry, each geometry decoded at the router's
     * precision.
     */
    method BuildRoutes(response: Response) returns (alts: seq<RouteInfo>)
      ensures alts == Routes(response, geometryPrecision)
    {
      var geometry := PolylineCodec.Decode(response.routeGeometry, geometryPrecision);
      alts := [RouteInfo(Some(response.routeName), geometry, Some(response.routeInstructions),
        Some(response.routeSummary), response.viaPoints)];
      var i := 0;
      while i < |response.alternativeGeometries|
        invariant 0 <= i <= |response.alternativeGeometries|
        invariant |alts| == i + 1
        invariant alts[0] == PrimaryRoute(response, geometryPrecision)
        invariant forall k :: 0 <= k < i ==> alts[k + 1] == AlternativeRoute(response, k, geometryPrecision)
      {
        geometry := PolylineCodec.Decode(response.alternativeGeometries[i], geometryPrecision);
        alts := alts + [RouteInfo(JsArray.At(response.alternativeNames, i), geometry, JsArray.At(response.alternativeInstructions, i),
          JsArray.At(response.alternativeSummaries, i), response.viaPoints)];
        i := i + 1;
      }
      RoutesFrom(response, geometryPrecision, alts);
    }

    /**
     * `_routeDone(response, waypoints)`: a non-zero status fires one error
     * event and changes nothing else; otherwise the routes are decoded, the
     * hints saved, and one `routefound` event fired with the routes.
     */
    method RouteDone(response: Response, waypoints: seq<LatLng>)
      modifies this
      ensures response.status != 0 ==>
        hints == old(hints) && events == old(events) + [Error(response.status, response.message)]
      ensures response.status == 0 && |response.hintData.locations| <= |waypoints| ==>
        hints == Hints(response.hintData.checksum, SavedLocations(format, waypoints, response.hintData.locations)) &&
        events == old(events) + [RouteFound(Routes(response, geometryPrecision))]
      ensures response.status == 0 && |response.hintData.locations| > |waypoints| ==>
        hints == Hints(response.hintData.checksum, map[]) && events == old(events)
      ensures requests == old(requests)
    {
      if response.status != 0 {
        events := events + [Error(response.status, response.message)];
        return;
      }
      var alts := BuildRoutes(response);
      var ok := SaveHintData(response.hintData, waypoints);
      if ok {
        events := events + [RouteFound(alts)];
      }
    }
  }
}
