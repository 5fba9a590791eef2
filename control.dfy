/**
 * `L.Routing.Control`: owns the list of waypoints, asks the router for a
 * route whenever the list changes, and reacts to the line's gestures: a
 * dragged waypoint is overwritten in place and routed after a quiet second;
 * an added waypoint is spliced into the list and routed at once.
 *
 * Timers are a single logical slot holding the deadline of the pending
 * call; the time is a parameter of the events that read it.
 */
module RoutingControl {
  import opened Wrappers
  import opened Geo
  import JsArray
  import Osrm

  /** The delay `_hookEvents` waits after the last drag before routing. */
  const DragDebounceDelay: int := 1000

  /** A JavaScript array of waypoints: an object other code can hold on to and change in place. */
  class WaypointList {
    var items: seq<LatLng>

    constructor(items: seq<LatLng>)
      ensures this.items == items
    {
      this.items := items;
    }
  }

  // ---- The debounce, as a function of its state ----

  /**
   * What the drag handler of `_hookEvents` sees: the list it captured, the
   * deadline of its pending timer, and the lists routed so far.
   */
  datatype DragState = DragState(wps: seq<LatLng>, pending: Option<int>, routed: seq<seq<LatLng>>)

  /** `waypointdrag` at time `now`: overwrite one waypoint, cancel the pending timer, start a new one. */
  function Drag(s: DragState, index: nat, latLng: LatLng, now: int): DragState
    requires index < |s.wps|
  {
    DragState(s.wps[index := latLng], Some(now + DragDebounceDelay), s.routed)
  }

  /** The clock reaches `now`: a timer that is due routes the captured list as it is then. */
  function Elapse(s: DragState, now: int): DragState
  {
    if s.pending.Some? && s.pending.value <= now then DragState(s.wps, None, s.routed + [s.wps]) else s
  }

  datatype DragInput = DragInput(index: nat, latLng: LatLng, time: int)

  predicate InRange(drags: seq<DragInput>, n: nat)
  {
    forall k :: 0 <= k < |drags| ==> drags[k].index < n
  }

  /** A burst of drags with no tick of the clock in between, in order. */
  function DragAll(s: DragState, drags: seq<DragInput>): (r: DragState)
    requires InRange(drags, |s.wps|)
    ensures |r.wps| == |s.wps| && r.routed == s.routed
    ensures drags == [] ==> r == s
    ensures drags != [] ==> r.pending == Some(drags[|drags| - 1].time + DragDebounceDelay)
    decreases |drags|
  {
    if drags == [] then s
    else
      var last := drags[|drags| - 1];
      Drag(DragAll(s, drags[..|drags| - 1]), last.index, last.latLng, last.time)
  }

  /** The position the last drag of waypoint `k` in `drags` moved it to, if any drag did. */
  function LastDragOf(drags: seq<DragInput>, k: nat): (r: Option<LatLng>)
    ensures r.None? <==> forall m :: 0 <= m < |drags| ==> drags[m].index != k
    decreases |drags|
  {
    if drags == [] then None
    else if drags[|drags| - 1].index == k then Some(drags[|drags| - 1].latLng)
    else
      var init := drags[..|drags| - 1];
      assert forall m :: 0 <= m < |init| ==> init[m] == drags[m];
      LastDragOf(init, k)
  }

  /**
   * After a burst, each waypoint holds the position of the last drag of it,
   * or its old position when it was not dragged.
   */
  lemma {:induction false} DragAllLatest(s: DragState, drags: seq<DragInput>, k: nat)
    requires InRange(drags, |s.wps|) && k < |s.wps|
    ensures DragAll(s, drags).wps[k] == (match LastDragOf(drags, k) case Some(p) => p case None => s.wps[k])
    decreases |drags|
  {
    if drags != [] {
      var init := drags[..|drags| - 1];
      assert InRange(init, |s.wps|);
      DragAllLatest(s, init, k);
    }
  }

  /** A tick before the deadline changes nothing: the burst goes on. */
  lemma EarlyElapseIsNoOp(s: DragState, now: int)
    requires s.pending.Some? && now < s.pending.value
    ensures Elapse(s, now) == s
  {
  }

  /**
   * A burst of drags followed by a quiet second routes exactly once, with
   * the list as the burst left it, and leaves no timer pending.
   */
  lemma BurstRoutesOnce(s: DragState, drags: seq<DragInput>, now: int)
    requires InRange(drags, |s.wps|) && drags != []
    requires now >= drags[|drags| - 1].time + DragDebounceDelay
    ensures var after := DragAll(s, drags);
      Elapse(after, now) == DragState(after.wps, None, s.routed + [after.wps])
  {
  }

  /**
   * The drags of a burst as the page runs them: before each drag the clock
   * reaches that drag's time, so a timer that is already due fires first.
   */
  function DragTicked(s: DragState, drags: seq<DragInput>): (r: DragState)
    requires InRange(drags, |s.wps|)
    ensures |r.wps| == |s.wps|
    decreases |drags|
  {
    if drags == [] then s
    else
      var last := drags[|drags| - 1];
      Drag(Elapse(DragTicked(s, drags[..|drags| - 1]), last.time), last.index, last.latLng, last.time)
  }

  /** Each drag comes less than a second after the one before it. */
  predicate CloseTogether(drags: seq<DragInput>)
  {
    forall k :: 0 < k < |drags| ==> drags[k].time < drags[k - 1].time + DragDebounceDelay
  }

  /**
   * Drags less than a second apart, the first before any pending deadline,
   * never let the timer fire: with the clock running they act as one burst
   * and route nothing.
   */
  lemma {:induction false} TickedBurstIsBurst(s: DragState, drags: seq<DragInput>)
    requires InRange(drags, |s.wps|) && drags != [] && CloseTogether(drags)
    requires s.pending.None? || drags[0].time < s.pending.value
    ensures DragTicked(s, drags) == DragAll(s, drags)
    ensures DragTicked(s, drags).routed == s.routed
    decreases |drags|
  {
    var init := drags[..|drags| - 1];
    if |drags| > 1 {
      assert InRange(init, |s.wps|);
      assert CloseTogether(init) by {
        forall k | 0 < k < |init| ensures init[k].time < init[k - 1].time + DragDebounceDelay {
          assert init[k] == drags[k] && init[k - 1] == drags[k - 1];
        }
      }
      assert init[0] == drags[0];
      TickedBurstIsBurst(s, init);
      assert drags[|drags| - 1].time < drags[|drags| - 2].time + DragDebounceDelay;
    }
  }

  /** The lists the router was asked to route, oldest first. */
  function Routed(requests: seq<Osrm.Request>): seq<seq<LatLng>>
  {
    seq(|requests|, i requires 0 <= i < |requests| => requests[i].waypoints)
  }

  /** `L.Routing.Control`. */
  class Control {
    const router: Osrm.Router
    /** `this._waypoints`. */
    var waypoints: WaypointList
    /** The list `_hookEvents` captured as `wps`; `null` before the first route was selected. */
    var hooked: WaypointList?
    /** The deadline of the timer `t` of the current hook, if one is pending. */
    var pending: Option<int>

    /** The debounce as its state function sees it. */
    function DragView(): DragState
      requires hooked != null
      reads this, hooked, router
    {
      DragState(hooked.items, pending, Routed(router.requests))
    }

    /**
     * `initialize(options)`: the given router or a new one with default
     * options, the caller's waypoint array itself or a new empty one, and a
     * first route request, made even for an empty list, since an array is
     * always truthy.
     */
    constructor(givenRouter: Osrm.Router?, givenWaypoints: WaypointList?, format: real -> string)
      modifies if givenRouter != null then {givenRouter} else {}
      ensures givenRouter != null ==> router == givenRouter
      ensures givenRouter == null ==> fresh(router)
      ensures givenRouter == null ==> router.serviceUrl == Osrm.DefaultServiceUrl
      ensures givenRouter == null ==> router.geometryPrecision == Osrm.DefaultGeometryPrecision
      ensures givenRouter == null ==> router.hints == Osrm.Hints(None, map[]) && router.events == []
      ensures givenRouter != null ==> router.hints == old(givenRouter.hints) && router.events == old(givenRouter.events)
      ensures givenWaypoints != null ==> waypoints == givenWaypoints && waypoints.items == old(givenWaypoints.items)
      ensures givenWaypoints == null ==> fresh(waypoints) && waypoints.items == []
      ensures router.requests ==
        (if givenRouter != null then old(givenRouter.requests) else []) +
          [Osrm.Request(Osrm.RouteUrl(router.serviceUrl, router.format, router.hints, waypoints.items), waypoints.items)]
      ensures hooked == null && pending.None?
    {
      var r: Osrm.Router;
      if givenRouter != null {
        r := givenRouter;
      } else {
        r := new Osrm.Router(Osrm.RouterOptions(None, None), format);
      }
      router := r;
      if givenWaypoints != null {
        waypoints := givenWaypoints;
      } else {
        waypoints := new WaypointList([]);
      }
      hooked := null;
      pending := None;
      new;
      router.Route(waypoints.items);
    }

    /**
     * `setVias(waypoints)`: the control keeps the caller's array object itself
     * and routes it; the array a drag handler captured is left alone.
     */
    method SetVias(ws: WaypointList)
      modifies this, router
      ensures waypoints == ws && ws.items == old(ws.items)
      ensures router.requests == old(router.requests) +
        [Osrm.Request(Osrm.RouteUrl(router.serviceUrl, router.format, router.hints, ws.items), ws.items)]
      ensures hooked == old(hooked) && pending == old(pending)
      ensures router.hints == old(router.hints) && router.events == old(router.events)
    {
      waypoints := ws;
      router.Route(ws.items);
    }

    /** `spliceVias(start, deleteCount, ...items)`: splices the array in place and routes it. */
    method SpliceVias(start: int, deleteCount: int, items: seq<LatLng>) returns (removed: seq<LatLng>)
      modifies waypoints, router
      ensures waypoints.items == JsArray.Splice(old(waypoints.items), start, deleteCount, items)
      ensures removed == JsArray.SpliceRemoved(old(waypoints.items), start, deleteCount)
      ensures router.requests == old(router.requests) +
        [Osrm.Request(Osrm.RouteUrl(router.serviceUrl, router.format, router.hints, waypoints.items), waypoints.items)]
      ensures router.hints == old(router.hints) && router.events == old(router.events)
    {
      removed := JsArray.SpliceRemoved(waypoints.items, start, deleteCount);
      waypoints.items := JsArray.Splice(waypoints.items, start, deleteCount, items);
      router.Route(waypoints.items);
    }

    /**
     * The part of `_routeSelected` this model keeps: `_hookEvents` on the new
     * line captures the current array, with a fresh timer variable.
     */
    method HookEvents()
      modifies this
      ensures hooked == waypoints && waypoints == old(waypoints) && pending.None?
    {
      hooked := waypoints;
      pending := None;
    }

    /**
     * The `waypointdrag` handler: `wps[e.index] = e.latlng`, then the
     * pending timer is cleared and a new one set to route `wps` a second
     * later.
     */
    method OnWaypointDrag(index: nat, latLng: LatLng, now: int)
      requires hooked != null && index < |hooked.items|
      modifies this, hooked
      ensures hooked == old(hooked) && waypoints == old(waypoints)
      ensures DragView() == Drag(old(DragView()), index, latLng, now)
      ensures router.requests == old(router.requests)
    {
      hooked.items := hooked.items[index := latLng];
      pending := Some(now + DragDebounceDelay);
    }

    /** The clock reaches `now`: a due timer calls `route(wps)` with the captured array as it is then. */
    method OnTimer(now: int)
      requires hooked != null
      modifies this, router
      ensures hooked == old(hooked) && waypoints == old(waypoints) && hooked.items == old(hooked.items)
      ensures DragView() == Elapse(old(DragView()), now)
      ensures old(pending).Some? && old(pending).value <= now ==>
        router.requests == old(router.requests) +
          [Osrm.Request(Osrm.RouteUrl(router.serviceUrl, router.format, router.hints, hooked.items), hooked.items)]
      ensures !(old(pending).Some? && old(pending).value <= now) ==> router.requests == old(router.requests)
      ensures router.hints == old(router.hints) && router.events == old(router.events)
    {
      if pending.Some? && pending.value <= now {
        pending := None;
        router.Route(hooked.items);
        assert Routed(router.requests) == Routed(old(router.requests)) + [hooked.items];
      }
    }

    /**
     * The `waypointadded` handler: `spliceVias(e.afterIndex + 1, 0, e.latlng)`
     * on the control's current array. For an `afterIndex` from -1 to the
     * last position, the list grows by one, the new position lands right
     * after `afterIndex`, and the others keep their order.
     */
    method OnWaypointAdded(afterIndex: int, latLng: LatLng)
      requires hooked != null
      modifies waypoints, router
      ensures waypoints.items == JsArray.Splice(old(waypoints.items), afterIndex + 1, 0, [latLng])
      ensures -1 <= afterIndex < |old(waypoints.items)| ==>
        |waypoints.items| == |old(waypoints.items)| + 1 &&
        waypoints.items[afterIndex + 1] == latLng &&
        waypoints.items[..afterIndex + 1] + waypoints.items[afterIndex + 2..] == old(waypoints.items)
      ensures router.requests == old(router.requests) +
        [Osrm.Request(Osrm.RouteUrl(router.serviceUrl, router.format, router.hints, waypoints.items), waypoints.items)]
      ensures router.hints == old(router.hints) && router.events == old(router.events)
    {
      if -1 <= afterIndex < |waypoints.items| {
        JsArray.SpliceInsert(waypoints.items, afterIndex + 1, latLng);
      }
      var _ := SpliceVias(afterIndex + 1, 0, [latLng]);
    }
  }
}
