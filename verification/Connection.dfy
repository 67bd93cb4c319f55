/** Route health (custom_components/nice_bidiwifi/connection.py). */
module Connection {

  datatype Route = NoRoute | LocalRoute | CloudRoute

  datatype RouteState = NotConfigured | Unknown | Connected | Disconnected

  /** The value held by the mutable health record at one instant. */
  datatype Health = Health(active: Route, local: RouteState, cloud: RouteState) {

    /** Like the source, anything that is not the local route reads the cloud field. */
    function StateOf(route: Route): RouteState
    {
      if route.LocalRoute? then local else cloud
    }

    predicate Configured(route: Route)
    {
      !route.NoRoute? && !StateOf(route).NotConfigured?
    }

    /** A route is only ever called active while it is connected. */
    predicate Consistent()
    {
      !active.NoRoute? ==> StateOf(active).Connected?
    }
  }

  datatype Verdict = Accepted | ValueError

  /** The overall states the coordinator reports, as far as `mark_overall_state` tells them apart. */
  datatype OverallState = OverallConnected | OverallUnknown | OverallOther

  function Initial(hasLocal: bool, hasRelay: bool): Health
  {
    Health(NoRoute,
           if hasLocal then Unknown else NotConfigured,
           if hasRelay then Unknown else NotConfigured)
  }

  /** What one call of `set_route_state` leaves behind, including the route it has
      already stored when it raises because a route that is not connected cannot become active. */
  function AfterSet(h: Health, route: Route, state: RouteState, activate: bool): Health
  {
    if route.NoRoute? || state.NotConfigured? || h.StateOf(route).NotConfigured? then h
    else
      var stored := if route.LocalRoute? then h.(local := state) else h.(cloud := state);
      if activate then
        if state.Connected? then stored.(active := route) else stored
      else if h.active == route && !state.Connected? then stored.(active := NoRoute)
      else stored
  }

  function VerdictOf(h: Health, route: Route, state: RouteState, activate: bool): Verdict
  {
    if h.Configured(route) && !state.NotConfigured? && (activate ==> state.Connected?)
    then Accepted else ValueError
  }

  function AfterMark(h: Health, overall: OverallState, route: Route): Health
  {
    match overall
    case OverallConnected => AfterSet(h, route, Connected, true)
    case OverallUnknown => AfterSet(h, route, Unknown, false)
    case OverallOther => AfterSet(h, route, Disconnected, false)
  }

  /** The exact condition under which an update keeps "active implies connected".  Activating
      the active route with a state other than connected is the one way to lose it. */
  lemma ConsistencyKeptIff(h: Health, route: Route, state: RouteState, activate: bool)
    requires h.Consistent() && h.Configured(route) && !state.NotConfigured?
    ensures AfterSet(h, route, state, activate).Consistent()
            <==> !(activate && !state.Connected? && h.active == route)
  {
  }

  /** A concrete rejected call that nevertheless leaves a disconnected active route. */
  lemma RejectedUpdateCanBreakConsistency()
    ensures var h := Health(LocalRoute, Connected, Unknown);
            h.Consistent()
            && VerdictOf(h, LocalRoute, Disconnected, true).ValueError?
            && !AfterSet(h, LocalRoute, Disconnected, true).Consistent()
  {
  }

  /** What one update does.  It is accepted for configured routes, a state other than not configured,
      and an activation only as connected; a rejected one changes nothing but the state of a configured
      route it was to activate. */
  lemma UpdateMeans(h: Health, route: Route, state: RouteState, activate: bool)
    ensures var after := AfterSet(h, route, state, activate);
            var other := if route.LocalRoute? then CloudRoute else LocalRoute;
            var legal := route in {LocalRoute, CloudRoute} && h.StateOf(route) != NotConfigured
                         && state != NotConfigured;
            && (VerdictOf(h, route, state, activate) == Accepted <==> legal && (activate ==> state == Connected))
            && (!legal ==> after == h)
            && (legal ==>
                  && after.StateOf(route) == state && after.StateOf(other) == h.StateOf(other)
                  && after.active == if activate && state == Connected then route
                                     else if !activate && h.active == route && state != Connected then NoRoute
                                     else h.active)
  {
  }

  /** What an overall state reported of a configured route does: the route takes it, becomes active if
      connected and inactive otherwise, and the other route keeps its state. */
  lemma OverallLands(h: Health, overall: OverallState, route: Route)
    requires h.Configured(route)
    ensures var after := AfterMark(h, overall, route);
            var other := if route.LocalRoute? then CloudRoute else LocalRoute;
            && after.StateOf(other) == h.StateOf(other)
            && match overall
               case OverallConnected => after.StateOf(route) == Connected && after.active == route
               case OverallUnknown =>
                 after.StateOf(route) == Unknown && after.active == if h.active == route then NoRoute else h.active
               case OverallOther =>
                 after.StateOf(route) == Disconnected && after.active == if h.active == route then NoRoute else h.active
  {
  }

  class NiceConnectionHealth {
    var active: Route
    var local: RouteState
    var cloud: RouteState

    ghost function View(): Health
      reads this
    {
      Health(active, local, cloud)
    }

    constructor FromPolicy(hasLocal: bool, hasRelay: bool)
      ensures View() == Initial(hasLocal, hasRelay)
    {
      active := NoRoute;
      local := if hasLocal then Unknown else NotConfigured;
      cloud := if hasRelay then Unknown else NotConfigured;
    }

    method SetRouteState(route: Route, state: RouteState, activate: bool) returns (verdict: Verdict)
      modifies this
      ensures verdict == VerdictOf(old(View()), route, state, activate)
      ensures View() == AfterSet(old(View()), route, state, activate)
      ensures old(View()).Consistent() && verdict.Accepted? ==> View().Consistent()
    {
      if route.NoRoute? || state.NotConfigured? {
        return ValueError;
      }
      var current := if route.LocalRoute? then local else cloud;
      if current.NotConfigured? {
        return ValueError;
      }
      if route.LocalRoute? {
        local := state;
      } else {
        cloud := state;
      }
      if activate {
        if !state.Connected? {
          return ValueError;
        }
        active := route;
      } else if active == route && !state.Connected? {
        active := NoRoute;
      }
      return Accepted;
    }

    method MarkOverallState(overall: OverallState, route: Route) returns (verdict: Verdict)
      modifies this
      ensures View() == AfterMark(old(View()), overall, route)
      ensures verdict.Accepted? <==> old(View()).Configured(route)
    {
      match overall
      case OverallConnected => verdict := SetRouteState(route, Connected, true);
      case OverallUnknown => verdict := SetRouteState(route, Unknown, false);
      case OverallOther => verdict := SetRouteState(route, Disconnected, false);
    }
  }
}
