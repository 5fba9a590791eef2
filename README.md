# Leaflet Routing Machine, modelled in Dafny

This project models the core of Leaflet Routing Machine (`dist/leaflet-routing-machine.js`), a Leaflet plugin that asks an OSRM server for a route through a list of waypoints and draws the answer on a map. It then proves properties of that model. The core has five parts:

- **The polyline decoder**, `L.Routing.OSRM._decode` (module `PolylineCodec`, file `polyline.dfy`). OSRM sends route geometry in Google's encoded polyline format at a configurable precision.
  - Each value is a run of 5-bit chunks, offset by 63 and continued while the `0x20` bit is set, then zig-zag decoded.
  - Two values make a point: a latitude delta and a longitude delta.
  - The model decodes to the running integer accumulators and scales them by `10^-precision`.
  - The source's loops are `ReadValue` and `Decode`. They are proved against the recursive specification `ReadVarint` / `ReadPoint` / `DecodeFrom`.
  - A matching encoder (`Encode`) shows decoding is its inverse. Further lemmas bound the output length, cover truncated input, and show the points are prefix sums of the deltas.
- **The OSRM router**, `L.Routing.OSRM` (module `Osrm`, file `osrm.dfy`). It is a class with the hint cache `hints`, a log of fired events and a log of requests handed to the transport.
  - `BuildRouteUrl` is proved against `RouteUrl`. The `loc=`/`hint=` parameters are parsed back (`ParseLocs`) to show that every waypoint sends exactly its key, and that a hint follows it exactly when a truthy hint is cached for that key.
  - `SaveHintData` is proved against `SavedLocations`. Lemmas give the saved keys and show that the lowest index wins for duplicate keys.
  - `RouteDone` either fires one error event or saves the hints and fires one `routefound` event with `Routes(response)`.
- **The route geometry index** of `L.Routing.Line` (module `RouteLine`, file `line.dfy`):
  - the nearest-point search `FindClosestRoutePoint` (its result is characterised by `IsClosest`);
  - `FindWaypointIndices`;
  - the backward scan `FindNearestWpBefore` (characterised by `NearestBefore`).
- **The waypoint-insertion gesture** of `L.Routing.Line` (same module). Class `Line` holds `newWp`, `layers`, the number of map handlers registered and the fired events. The user presses the line (`OnLineTouched`), moves (`OnDragNewWp`) and releases (`OnWpRelease`).
- **The control's waypoint list** of `L.Routing.Control` (module `RoutingControl`, file `control.dfy`).
  - The waypoint array is an object (`WaypointList`). The drag handler captures it, and `spliceVias` changes it in place.
  - The debounce of `_hookEvents` is modelled as a single pending deadline. Its behaviour is given by the pure functions `Drag`, `Elapse` and `DragAll`. Lemmas show that a burst of drags routes once, with the latest list.

`jsarray.dfy` (module `JsArray`) gives `Array.prototype.splice` on the contents of an array, and reading an index (`At`, `undefined` past the end). `common.dfy` holds `Option` and `LatLng`.

Positions are exact reals. Three things are parameters rather than computed:
- the great-circle distance, a function `(LatLng, LatLng) -> real`;
- JavaScript's number-to-string conversion, a function `real -> string`, used for location keys and for the checksum;
- the current time, passed to the control's timer events.

### Behaviour worth knowing
- Ties in the nearest-point search go to the **highest** index. The reverse scan only takes a strictly smaller distance, so the first minimum it meets, the one with the highest index, is kept.
- Every route in a `routefound` event reports the response's `via_points` as its waypoints.
- Releasing the insertion gesture leaves the preview marker and line in `_layers`.
- Hints are matched against the waypoints by position. A response with more hints than waypoints makes the first iteration of `_saveHintData` read an undefined waypoint and throw. The cache is then left with the new checksum and no hints, and no `routefound` is fired.
- A value cut off inside its run of chunks still decodes. Past the end `charCodeAt` gives NaN, so the missing chunks count 0 and the loop stops, and the string still yields a last point.

## Model

| member | source | states |
|---|---|---|
| PolylineCodec.Chunk | dist/leaflet-routing-machine.js:127-128 | `b & 0x1f` for `b = charCodeAt(i) - 63`: always below 32, and 0 past the end, where `charCodeAt` gives NaN |
| PolylineCodec.Continues | dist/leaflet-routing-machine.js:130 | definition of the loop test `b >= 0x20`, false past the end; its use is proved in `ReadEncodedVarint` and `ReadCutVarint` |
| PolylineCodec.ReadVarint | dist/leaflet-routing-machine.js:126-131 | one value read by the do-while loop: the index always advances, and by at most one place past the end; reading at or past the end gives 0 and stops |
| PolylineCodec.ReadValue | dist/leaflet-routing-machine.js:126-131 | the do-while loop (`result \|= (b & 0x1f) << shift` while `b >= 0x20`) computes exactly `ReadVarint` |
| PolylineCodec.ReadFromIsReadVarint | dist/leaflet-routing-machine.js:126-131 | accumulating chunks with weights 32^k from a starting weight gives the little-endian base-32 value times that weight |
| PolylineCodec.ZigZag | dist/leaflet-routing-machine.js:131 | definition of `(r & 1) ? ~(r >> 1) : (r >> 1)` (also at line 140); `ZigZagEncode` and `ZigZagEncodeDecode` prove it a bijection between naturals and integers |
| PolylineCodec.ReadPoint | dist/leaflet-routing-machine.js:126-142 | one outer iteration reads two values and consumes at least two characters, ending at most two places past the end |
| PolylineCodec.DecodeFrom | dist/leaflet-routing-machine.js:122-144 | definition of the outer loop from index `i`: one point per iteration while the index is inside the string; `DecodeLength`, `DecodeIsPrefixSums` and `RoundTrip` state its properties |
| PolylineCodec.DecodeRaw | dist/leaflet-routing-machine.js:114-144 | definition of the decoder before scaling, from index 0 with both accumulators 0; `RoundTrip` proves it the inverse of `Encode` |
| PolylineCodec.Decode | dist/leaflet-routing-machine.js:113-146 | the decoder's result is `DecodeRaw` with every point scaled by 10^-precision, in order; the empty string gives no points, any other string at least one, and never more than (len+1)/2 |
| PolylineCodec.DecodeLength | dist/leaflet-routing-machine.js:122-144 | each iteration yields one point and consumes at least two characters, so a suffix of length n yields between 1 and (n+1)/2 points |
| PolylineCodec.DecodeIsPrefixSums | dist/leaflet-routing-machine.js:132-143 | the k-th point is the starting accumulator plus the sum of the first k+1 zig-zag-decoded deltas |
| PolylineCodec.ZigZagEncode | dist/leaflet-routing-machine.js:131 | zig-zag encoding is a right inverse of the decoder's `(r & 1) ? ~(r >> 1) : (r >> 1)` (lines 131 and 140), so every integer delta can be read |
| PolylineCodec.ZigZagEncodeDecode | dist/leaflet-routing-machine.js:140 | zig-zag decoding loses nothing: encoding the decoded value gives the original back |
| PolylineCodec.ReadEncodedVarint | dist/leaflet-routing-machine.js:126-131 | the chunk loop reads back exactly one encoded value and stops right after it, whatever follows |
| PolylineCodec.ReadEncodedPoint | dist/leaflet-routing-machine.js:126-142 | one encoded point reads back as that point, and the read ends after its two values |
| PolylineCodec.ReadEncodedPoints | dist/leaflet-routing-machine.js:122-144 | a string holding the encoding of a list of points reads those points back one after the other |
| PolylineCodec.DecodeReadPoints | dist/leaflet-routing-machine.js:122-144 | points that are read one after the other are exactly what the decoder yields, followed by whatever comes after them |
| PolylineCodec.DecodeEncodedPrefix | dist/leaflet-routing-machine.js:122-144 | decoding a string that begins with an encoding gives the encoded points and then the decoding of the rest |
| PolylineCodec.RoundTrip | dist/leaflet-routing-machine.js:113-146 | decoding is the inverse of encoding: `DecodeRaw(Encode(pts)) == pts` |
| PolylineCodec.ReadCutVarint | dist/leaflet-routing-machine.js:126-130 | the first `m` chunks of an encoded value at the end of the string read as `v % 32^m`: the missing chunks count 0, and the index ends one place past the end |
| PolylineCodec.DecodeCutLatitude | dist/leaflet-routing-machine.js:126-143 | a latitude cut after `m > 0` of its chunks at the end gives one point: the latitude moves by the low `m` chunks, the longitude by 0 |
| PolylineCodec.DecodeCutLongitude | dist/leaflet-routing-machine.js:126-143 | a whole latitude and the first `m` chunks of a longitude at the end give one point: the latitude moves by its delta, the longitude by the low `m` chunks |
| PolylineCodec.DecodeAppended | dist/leaflet-routing-machine.js:122-144 | the encoding of `pts` followed by anything decodes to `pts`, then to what the rest decodes to from the last point |
| PolylineCodec.TruncatedLatitude | dist/leaflet-routing-machine.js:126-143 | an encoding cut inside the last latitude, after `m > 0` chunks, yields the encoded points plus a last point whose latitude moves by `ZigZag(ZigZagEncode(d) % 32^m)` and whose longitude does not move |
| PolylineCodec.TruncatedLongitude | dist/leaflet-routing-machine.js:126-143 | an encoding cut inside the last longitude, after `m >= 0` chunks, yields the encoded points plus a last point with the whole latitude delta and the longitude moved by `ZigZag(ZigZagEncode(d2) % 32^m)`, which is 0 for `m = 0` |
| JsArray.Splice | dist/leaflet-routing-machine.js:556 | definition of the array's contents after `splice(start, deleteCount, ...items)`; `SpliceUndo`, `SpliceInsert` and `SpliceReplace` state its properties |
| JsArray.SpliceRemoved | dist/leaflet-routing-machine.js:556 | definition of the array `splice` returns; `SpliceUndo` proves that splicing it back restores the array |
| JsArray.SpliceStart | dist/leaflet-routing-machine.js:555-559 | splice's start is clamped into the array and kept when it is already inside |
| JsArray.SpliceCount | dist/leaflet-routing-machine.js:555-559 | splice never removes past the end and keeps an in-range delete count |
| JsArray.SpliceUndo | dist/leaflet-routing-machine.js:555-559 | splicing the removed elements back in restores the array: splice loses nothing |
| JsArray.SpliceInsert | dist/leaflet-routing-machine.js:591 | inserting one element grows the array by one, puts it at the position, and keeps the other elements in order |
| JsArray.SpliceReplace | dist/leaflet-routing-machine.js:296 | `spliceLatLngs(1, 1, p)` replaces exactly point 1 |
| Osrm.LocationKey | dist/leaflet-routing-machine.js:94-96 | definition of `lat + ',' + lng` through the abstract number formatter; nothing further is proved about it |
| Osrm.LocParams | dist/leaflet-routing-machine.js:78-86 | definition of the `locs` array the loop fills, one waypoint after the other; `LocParamsParse` states what it holds |
| Osrm.LocParamsParse | dist/leaflet-routing-machine.js:78-86 | parsing the `locs` array gives each waypoint's key in order, with a hint exactly when a truthy hint is cached for that key |
| Osrm.ChecksumParam | dist/leaflet-routing-machine.js:91 | `&checksum=` is appended exactly when the checksum is defined |
| Osrm.RouteUrl | dist/leaflet-routing-machine.js:88-91 | definition of the query: service URL, `?instructions=true&`, the joined `locs`, the checksum parameter; `Router.BuildRouteUrl` is proved to build it and `EmptyCacheUrl`/`ResendsSavedHints` state what it carries |
| Osrm.EmptyCacheUrl | dist/leaflet-routing-machine.js:28-91 | with the cache as created, the query has no hints and no checksum |
| Osrm.SavedLocations | dist/leaflet-routing-machine.js:105-108 | definition of the map the reverse loop fills; `SavedLocationsContents` states its keys and values |
| Osrm.SavedFromKeys | dist/leaflet-routing-machine.js:105-108 | the reverse loop's keys are exactly the keys of the waypoints it has visited |
| Osrm.SavedFromValues | dist/leaflet-routing-machine.js:105-108 | a key is mapped to the hint of its lowest visited index |
| Osrm.SavedLocationsContents | dist/leaflet-routing-machine.js:98-109 | after saving, the keys are exactly those of `waypoints[0..m-1]` and the first waypoint with a key gives its hint |
| Osrm.ResendsSavedHints | dist/leaflet-routing-machine.js:78-109 | the next query for the same waypoints sends each first-occurring key's saved hint, unless that hint is empty |
| Osrm.RoutesFields | dist/leaflet-routing-machine.js:50-67 | the primary route carries `route_name`, `route_instructions` and `route_summary`; alternative `i` carries entry `i` of each alternative array, and `undefined` exactly where that array is shorter than the geometries |
| Osrm.RoutesGeometry | dist/leaflet-routing-machine.js:50-67 | for every response, there is one route more than there are alternative geometries and every route's waypoints are `via_points`; a route whose encoded geometry is the encoding of some points carries exactly those points, scaled |
| Osrm.Router.constructor | dist/leaflet-routing-machine.js:21-31 | options override the defaults, and the cache starts with no checksum and no hints |
| Osrm.Router.BuildRouteUrl | dist/leaflet-routing-machine.js:73-92 | the loop builds `RouteUrl`, whose parameters parse back to each waypoint's key with its truthy hint |
| Osrm.Router.Route | dist/leaflet-routing-machine.js:33-39 | one request for the built query is handed to the transport; cache and events are unchanged |
| Osrm.Router.SaveHintData | dist/leaflet-routing-machine.js:98-109 | the cache is replaced by the new checksum and `SavedLocations`; with more hints than waypoints it throws, leaving the checksum and no hints |
| Osrm.Router.BuildRoutes | dist/leaflet-routing-machine.js:50-67 | the loop building `alts` computes `Routes`, whose contents `RoutesFields` and `RoutesGeometry` state |
| Osrm.Router.RouteDone | dist/leaflet-routing-machine.js:41-71 | a non-zero status fires one error with status and message and leaves the cache; otherwise the hints are saved and one `routefound` fires with `Routes`, unless saving throws |
| RouteLine.FindClosestRoutePoint | dist/leaflet-routing-machine.js:237-253 | the result is a point of minimal distance below `Number.MAX_VALUE`, the highest index among ties, or no index when there is none |
| RouteLine.ClosestUnique | dist/leaflet-routing-machine.js:237-253 | the characterisation of the search admits one answer only |
| RouteLine.ClosestOfEmpty | dist/leaflet-routing-machine.js:237-253 | an empty geometry gives no index |
| RouteLine.FindWaypointIndices | dist/leaflet-routing-machine.js:226-235 | one closest index per waypoint, in waypoint order |
| RouteLine.Exceeds | dist/leaflet-routing-machine.js:257 | definition of `this._wpIndices[j] > i` on possibly undefined indices, false when either is `undefined`; `NearestBeforeSorted` uses it |
| RouteLine.FindNearestWpBefore | dist/leaflet-routing-machine.js:255-262 | every waypoint after the result is mapped beyond `i`, the one at the result is not, and the result is between -1 and n-1 |
| RouteLine.NearestBeforeUnique | dist/leaflet-routing-machine.js:255-262 | the scan's answer is determined by the indices and `i` |
| RouteLine.NearestBeforeSorted | dist/leaflet-routing-machine.js:255-262 | on sorted indices the result is the last waypoint mapped at or before `i`, and -1 exactly when the first is beyond `i` |
| RouteLine.NearestBeforeBetween | dist/leaflet-routing-machine.js:255-262 | a route index between two consecutive waypoints' points is placed after the first of them |
| RouteLine.Line.constructor | dist/leaflet-routing-machine.js:172-177 | the waypoint indices are the closest route points, computed once |
| RouteLine.Line.WaypointAt | dist/leaflet-routing-machine.js:282-286 | a waypoint index outside the array reads `undefined` |
| RouteLine.Line.OnLineTouched | dist/leaflet-routing-machine.js:276-292 | `afterIndex` is the nearest waypoint before the closest route point; a marker and the preview `[wps[a], pointer, wps[a+1]]` are pushed onto `_layers`, and one move and one release handler are registered |
| RouteLine.Line.OnDragNewWp | dist/leaflet-routing-machine.js:294-297 | runs only while a move handler is registered; the marker follows the pointer and only point 1 of the preview changes; `afterIndex` is untouched |
| RouteLine.Line.OnWpRelease | dist/leaflet-routing-machine.js:299-306 | runs only while a release handler is registered; both handlers are removed, so it cannot fire twice, and `waypointadded` fires with the stored `afterIndex`; `_layers` keeps the preview |
| RoutingControl.Elapse | dist/leaflet-routing-machine.js:585-587 | definition of the clock reaching `now`: a due timer routes the captured list and clears itself; `EarlyElapseIsNoOp` and `BurstRoutesOnce` state its behaviour |
| RoutingControl.DragAll | dist/leaflet-routing-machine.js:580-588 | a burst of drags (each `wps[e.index] = e.latlng`, a cleared timer and a new one) keeps the list's length, routes nothing, and leaves one timer, due a second after the last drag |
| RoutingControl.LastDragOf | dist/leaflet-routing-machine.js:581 | a waypoint has a last drag exactly when some drag of the burst moved it |
| RoutingControl.DragAllLatest | dist/leaflet-routing-machine.js:581 | after a burst, each waypoint holds the position of its last drag, or its old position |
| RoutingControl.EarlyElapseIsNoOp | dist/leaflet-routing-machine.js:585-587 | a tick before the deadline changes nothing |
| RoutingControl.BurstRoutesOnce | dist/leaflet-routing-machine.js:580-588 | a burst followed by a quiet second routes exactly once, with the latest list, and leaves no timer |
| RoutingControl.DragTicked | dist/leaflet-routing-machine.js:580-588 | definition of a burst as the page runs it, with the clock reaching each drag's time before the drag; `TickedBurstIsBurst` states its behaviour |
| RoutingControl.TickedBurstIsBurst | dist/leaflet-routing-machine.js:580-588 | drags less than a second apart, the first before any pending deadline, never let the timer fire: with the clock running they equal the burst `DragAll` and route nothing |
| RoutingControl.Control.constructor | dist/leaflet-routing-machine.js:523-536 | the given or a default router, the caller's array object itself or a new empty one, and a first route request even for an empty list; a given router's hints and events are unchanged |
| RoutingControl.Control.SetVias | dist/leaflet-routing-machine.js:550-553 | the caller's array object itself becomes the control's list and is routed; the array a drag handler captured, the router's hints and its events are not affected |
| RoutingControl.Control.SpliceVias | dist/leaflet-routing-machine.js:555-559 | the array is spliced in place, the removed elements are returned, and the result is routed; the router's hints and events are unchanged |
| RoutingControl.Control.HookEvents | dist/leaflet-routing-machine.js:575-578 | the handlers capture the current array with no timer pending |
| RoutingControl.Control.OnWaypointDrag | dist/leaflet-routing-machine.js:580-588 | the captured array and the timer change as `Drag` says; nothing is routed |
| RoutingControl.Control.OnTimer | dist/leaflet-routing-machine.js:585-587 | a due timer routes the captured array as it is then, as `Elapse` says; otherwise nothing happens; the router's hints and events are unchanged either way |
| RoutingControl.Control.OnWaypointAdded | dist/leaflet-routing-machine.js:590-592 | the location is inserted at `afterIndex + 1`; the list grows by one, the others keep their order, and the new list is routed with the router's hints and events unchanged |

## Left out

- `L.Routing._jsonp` (script injection and the global callback registry): `Route` only records the request, and the answer is delivered by calling `RouteDone`.
- Osrm.Router.RouteDone: the source hands the waypoint array object itself to the JSONP callback, and `_saveHintData` reads it when the answer arrives. A drag or a splice in between changes what it reads; a shortened array makes it throw. The model's `Request` keeps a copy, and the caller of `RouteDone` must pass the list as it is when the answer arrives.
- RoutingControl.Control.SetVias: the caller's array is a `WaypointList` object, which the control and its constructor keep itself, so later changes through it are shared. A request the router records still holds a copy of the contents (see the RouteDone line above).
- The order in which asynchronous answers arrive, and a stale answer overwriting a newer one: the model delivers whichever answer `RouteDone` is given.
- PolylineCodec.ReadValue: values are unbounded integers. The source's `|=` and `<< shift` work on 32-bit integers. A value below 2^31 decodes exactly in both, including seven-chunk values whose last chunk is 1 and sets only bit 30. From 2^31 on, the source wraps and the model does not: a seventh chunk of 2 or more reaches the sign bit, and an eighth chunk is shifted by 35, which JavaScript takes as a shift by 3. Coordinates of 180 degrees at precision 6 stay far below that bound.
- PolylineCodec.ReadVarint: a character is its UTF-16 code unit. Characters outside the Basic Multilingual Plane (two code units in JavaScript) are not modelled.
- Floating point:
  - the scaling by `Math.pow(10, -precision)` is exact rational arithmetic here, a division for a precision of 0 or more and a multiplication for a negative one;
  - great-circle distance is an abstract function;
  - number formatting in `_locationKey` and in the checksum parameter is an abstract function.
- `Osrm.Join`: `locs.join('&')` is written out, but query strings are not parsed back, because hints and formatted numbers are opaque.
- The response is taken to have the fields the router reads. A missing `hint_data` or `alternative_geometries` (a TypeError in the source) is not modelled. A status that is not a number is not modelled either.
- Leaflet rendering: `onAdd`, `onRemove`, `addTo`, `getBounds`, `fitBounds`, styles and options of the line. `_layers` starts empty, and only the gesture adds to it.
- `_hookWaypointEvents` and `_createWaypointEvent`: the marker drag events are modelled only by their effect on the control (`OnWaypointDrag` receives the index and the position).
- `L.Routing.Itinerary` (tables, instruction texts, distance and time formatting) and `_routeSelected` apart from its call of `_hookEvents` (`HookEvents`).
- RoutingControl.Control.OnWaypointDrag: requires the index to lie inside the captured array, and the source does not guarantee that. After `spliceVias` shortens the shared array, the old line and its markers stay hooked until the next `routeselected`. So `wps[e.index] = e.latlng` can write at the end, which appends, or past it, which leaves holes. Neither case is modelled.
- RoutingControl.Control.HookEvents: a timer still pending from an earlier `_hookEvents` closure keeps running in the source. The model keeps only the current closure's timer.
- RoutingControl.Control.SpliceVias: takes the start, the delete count and the items. Calls with fewer than two arguments (where JavaScript treats a missing delete count specially) are not modelled.
- Real-time `setTimeout`/`clearTimeout`: timers are one logical deadline, and the time is a parameter.
