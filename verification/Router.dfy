/** The route state machine (custom_components/nice_bidiwifi/connection_router.py), on top of
    the two clients and the shared health record. */
module Router {
  import opened Prelude
  import opened Connection
  import opened Client

  datatype Mode = Fallback | LocalOnly | CloudOnly

  const FAILURE_THRESHOLD: nat := 2
  const RECOVERY_THRESHOLD: nat := 2
  const PROBE_INTERVAL: real := 30.0
  const PROBE_MAX_INTERVAL: real := 300.0

  /** The history of a router: every client call it made and every switch of the route. */
  datatype Event =
    | Called(route: Route, probe: bool, op: ClientOp, outcome: Outcome)
    | FailedOver(at: real)
    | Returned(at: real)

  datatype State = State(
    mode: Mode, selected: Route, failures: nat, recoveries: nat,
    interval: real, nextProbe: real,
    health: Health, local: Session, cloud: Session, log: seq<Event>)

  /** `NiceConnectionPolicy.__post_init__`: the endpoints each mode cannot do without. */
  predicate PolicyValid(mode: Mode, hasLocal: bool, hasRelay: bool)
  {
    match mode
    case Fallback => hasLocal && hasRelay
    case LocalOnly => hasLocal
    case CloudOnly => hasRelay
  }

  function InitialState(mode: Mode, hasLocal: bool, hasRelay: bool): State
  {
    State(mode, if mode.CloudOnly? then CloudRoute else LocalRoute, 0, 0, PROBE_INTERVAL, 0.0,
          Initial(hasLocal, hasRelay), FRESH, FRESH, [])
  }

  /** The routes the state's mode may call are configured. */
  predicate Wired(s: State)
  {
    && (!s.mode.CloudOnly? ==> s.health.Configured(LocalRoute))
    && (!s.mode.LocalOnly? ==> s.health.Configured(CloudRoute))
    && (match s.mode
        case Fallback => !s.selected.NoRoute?
        case LocalOnly => s.selected == LocalRoute
        case CloudOnly => s.selected == CloudRoute)
  }

  // ----- the router's steps as functions of the state -----

  function AfterSuccess(s: State, route: Route, activate: bool): State
  {
    s.(health := AfterSet(s.health, route, Connected, activate),
       failures := if route.LocalRoute? then 0 else s.failures)
  }

  function AfterFailure(s: State, route: Route): State
  {
    s.(health := AfterSet(s.health, route, Disconnected, false),
       failures := if route.LocalRoute? then s.failures + 1 else s.failures,
       recoveries := if route.LocalRoute? then 0 else s.recoveries)
  }

  function AfterClient(s: State, route: Route, op: ClientOp, probe: bool): (State, Outcome)
  {
    var (session, outcome) := AfterOp(if route.LocalRoute? then s.local else s.cloud, op);
    var called := s.(log := s.log + [Called(route, probe, op, outcome)]);
    (if route.LocalRoute? then called.(local := session) else called.(cloud := session), outcome)
  }

  /** `_call`; a probe is the one call that does not make its route active. */
  function AfterCall(s: State, route: Route, op: ClientOp, probe: bool): (State, Outcome)
  {
    var (called, outcome) := AfterClient(s, route, op, probe);
    match outcome
    case Success => (AfterSuccess(called, route, !probe), outcome)
    case AuthError => (AfterFailure(called, route), outcome)
    case ConnError => (AfterFailure(called, route), outcome)
    case OtherError => (called, outcome)
  }

  function AfterFailover(s: State, now: real): State
  {
    s.(selected := CloudRoute, nextProbe := now + s.interval, log := s.log + [FailedOver(now)])
  }

  function AfterReturn(s: State, now: real): State
  {
    AfterSuccess(s.(selected := LocalRoute, interval := PROBE_INTERVAL, log := s.log + [Returned(now)]),
                 LocalRoute, true)
  }

  /** What a read tells its caller: an outcome, and the route whose call produced it. */
  datatype Answer = Answer(outcome: Outcome, route: Route)

  function Only(call: (State, Outcome), route: Route): (State, Answer)
  {
    (call.0, Answer(call.1, route))
  }

  /** `_read` while the local route is selected in fallback mode. */
  function AfterLocalRead(s: State, now: real, l: ClientOp, c: ClientOp): (State, Answer)
  {
    var (tried, outcome) := AfterCall(s, LocalRoute, l, false);
    if !outcome.ConnError? || tried.failures < FAILURE_THRESHOLD then (tried, Answer(outcome, LocalRoute))
    else Only(AfterCall(AfterFailover(tried, now), CloudRoute, c, false), CloudRoute)
  }

  /** The recovery probe: the state after it, and the answer when the read ends with it. */
  function AfterProbe(s: State, now: real, l: ClientOp): (State, Option<Answer>)
  {
    var (probed, outcome) := AfterCall(s, LocalRoute, l, true);
    match outcome
    case AuthError => (probed, Some(Answer(outcome, LocalRoute)))
    case OtherError => (probed, Some(Answer(outcome, LocalRoute)))
    case ConnError =>
      var wider := Min(probed.interval * 2.0, PROBE_MAX_INTERVAL);
      (probed.(interval := wider, nextProbe := now + wider), None)
    case Success =>
      var counted := probed.(recoveries := probed.recoveries + 1, nextProbe := now + PROBE_INTERVAL);
      if counted.recoveries >= RECOVERY_THRESHOLD
      then (AfterReturn(counted, now), Some(Answer(Success, LocalRoute)))
      else (counted, None)
  }

  /** `_read` while the cloud route is selected in fallback mode. */
  function AfterCloudRead(s: State, now: real, l: ClientOp, c: ClientOp): (State, Answer)
  {
    var (probed, ended) := if now >= s.nextProbe then AfterProbe(s, now, l) else (s, None);
    if ended.Some? then (probed, ended.value)
    else Only(AfterCall(probed, CloudRoute, c, false), CloudRoute)
  }

  /** `_read`.  `now` is the one clock reading the call takes, if it takes one. */
  function ReadStep(s: State, now: real, l: ClientOp, c: ClientOp): (State, Answer)
  {
    match s.mode
    case LocalOnly => Only(AfterCall(s, LocalRoute, l, false), LocalRoute)
    case CloudOnly => Only(AfterCall(s, CloudRoute, c, false), CloudRoute)
    case Fallback =>
      if s.selected.LocalRoute? then AfterLocalRead(s, now, l, c) else AfterCloudRead(s, now, l, c)
  }

  /** `_write`. */
  function WriteStep(s: State, now: real, op: ClientOp): (State, Answer)
  {
    var (called, outcome) := AfterCall(s, s.selected, op, false);
    (if outcome.ConnError? && s.mode.Fallback? && s.selected.LocalRoute? && called.failures >= FAILURE_THRESHOLD
     then AfterFailover(called, now) else called,
     Answer(outcome, s.selected))
  }

  function AfterShutdown(s: State): State
  {
    s.(local := if s.health.Configured(LocalRoute) then Client.AfterClose(s.local) else s.local,
       cloud := if s.health.Configured(CloudRoute) then Client.AfterClose(s.cloud) else s.cloud)
  }

  /** The coordinator's `_set_connection_state`: an overall state lands on the active route. */
  function AfterReport(s: State, overall: OverallState): State
  {
    if s.health.active.NoRoute? then s
    else s.(health := AfterMark(s.health, overall, s.health.active))
  }

  // ----- the router as the mutable object it is -----

  class NiceConnectionRouter {
    const mode: Mode
    const health: NiceConnectionHealth
    const local: NiceBidiClient?
    const cloud: NiceBidiClient?
    var selected: Route
    var localFailures: nat
    var localRecoverySuccesses: nat
    var probeInterval: real
    var nextLocalProbe: real
    ghost var log: seq<Event>

    ghost function Footprint(): set<object>
    {
      {this, health} + (if local == null then {} else {local}) + (if cloud == null then {} else {cloud})
    }

    ghost predicate Valid()
      reads this, health
    {
      && (local != null ==> local != cloud)
      && (local != null <==> !health.local.NotConfigured?)
      && (cloud != null <==> !health.cloud.NotConfigured?)
      && PolicyValid(mode, local != null, cloud != null)
      && (mode.LocalOnly? ==> selected == LocalRoute)
      && (mode.CloudOnly? ==> selected == CloudRoute)
      && !selected.NoRoute?
    }

    ghost function View(): State
      reads this, health, local, cloud
    {
      State(mode, selected, localFailures, localRecoverySuccesses, probeInterval, nextLocalProbe,
            health.View(),
            if local == null then FRESH else local.View(),
            if cloud == null then FRESH else cloud.View(),
            log)
    }

    constructor (mode: Mode, hasLocal: bool, hasRelay: bool)
      requires PolicyValid(mode, hasLocal, hasRelay)
      ensures Valid() && fresh(Footprint())
      ensures View() == InitialState(mode, hasLocal, hasRelay)
    {
      this.mode := mode;
      var h := new NiceConnectionHealth.FromPolicy(hasLocal, hasRelay);
      health := h;
      var lan: NiceBidiClient? := null;
      var relay: NiceBidiClient? := null;
      if hasLocal {
        lan := new NiceBidiClient();
      }
      if hasRelay {
        relay := new NiceBidiClient();
      }
      local, cloud := lan, relay;
      selected := if mode.CloudOnly? then CloudRoute else LocalRoute;
      localFailures, localRecoverySuccesses := 0, 0;
      probeInterval, nextLocalProbe := PROBE_INTERVAL, 0.0;
      log := [];
    }

    method MarkSuccess(route: Route, activate: bool)
      requires Valid() && health.View().Configured(route)
      modifies this, health
      ensures Valid() && View() == AfterSuccess(old(View()), route, activate)
    {
      var verdict := health.SetRouteState(route, Connected, activate);
      assert verdict.Accepted?;
      if route.LocalRoute? {
        localFailures := 0;
      }
    }

    method MarkFailure(route: Route)
      requires Valid() && health.View().Configured(route)
      modifies this, health
      ensures Valid() && View() == AfterFailure(old(View()), route)
    {
      var verdict := health.SetRouteState(route, Disconnected, false);
      assert verdict.Accepted?;
      if route.LocalRoute? {
        localFailures := localFailures + 1;
        localRecoverySuccesses := 0;
      }
    }

    /** The client call of `_call`, before its outcome is marked. */
    method CallClient(route: Route, op: ClientOp, probe: bool) returns (outcome: Outcome)
      requires Valid() && health.View().Configured(route)
      modifies Footprint()
      ensures Valid() && health.View() == old(health.View())
      ensures (View(), outcome) == AfterClient(old(View()), route, op, probe)
    {
      if route.LocalRoute? {
        outcome := local.Run(op);
      } else {
        outcome := cloud.Run(op);
      }
      log := log + [Called(route, probe, op, outcome)];
    }

    method Call(route: Route, op: ClientOp, probe: bool) returns (outcome: Outcome)
      requires Valid() && health.View().Configured(route)
      modifies Footprint()
      ensures Valid() && (View(), outcome) == AfterCall(old(View()), route, op, probe)
    {
      hide AfterClient, AfterSuccess, AfterFailure;
      outcome := CallClient(route, op, probe);
      match outcome
      case Success => MarkSuccess(route, !probe);
      case AuthError => MarkFailure(route);
      case ConnError => MarkFailure(route);
      case OtherError =>
    }

    method Read(now: real, l: ClientOp, c: ClientOp) returns (answer: Answer)
      requires Valid()
      modifies Footprint()
      ensures Valid() && (View(), answer) == ReadStep(old(View()), now, l, c)
    {
      if mode.LocalOnly? {
        var outcome := Call(LocalRoute, l, false);
        return Answer(outcome, LocalRoute);
      }
      if mode.CloudOnly? {
        var outcome := Call(CloudRoute, c, false);
        return Answer(outcome, CloudRoute);
      }
      if selected.LocalRoute? {
        answer := ReadLocalFirst(now, l, c);
      } else {
        answer := ReadCloudFirst(now, l, c);
      }
    }

    /** The branch of `_read` for a selected local route. */
    method ReadLocalFirst(now: real, l: ClientOp, c: ClientOp) returns (answer: Answer)
      requires Valid() && mode.Fallback? && selected.LocalRoute?
      modifies Footprint()
      ensures Valid() && (View(), answer) == AfterLocalRead(old(View()), now, l, c)
    {
      hide AfterCall;
      var outcome := Call(LocalRoute, l, false);
      if !outcome.ConnError? || localFailures < FAILURE_THRESHOLD {
        return Answer(outcome, LocalRoute);
      }
      selected := CloudRoute;
      nextLocalProbe := now + probeInterval;
      log := log + [FailedOver(now)];
      outcome := Call(CloudRoute, c, false);
      return Answer(outcome, CloudRoute);
    }

    /** The recovery probe of `_read`; `ended` holds the answer when the read ends with it. */
    method Probe(now: real, l: ClientOp) returns (ended: Option<Answer>)
      requires Valid() && mode.Fallback?
      modifies Footprint()
      ensures Valid() && (View(), ended) == AfterProbe(old(View()), now, l)
    {
      hide AfterCall, AfterSuccess;
      var outcome := Call(LocalRoute, l, true);
      match outcome
      case AuthError => return Some(Answer(outcome, LocalRoute));
      case OtherError => return Some(Answer(outcome, LocalRoute));
      case ConnError =>
        probeInterval := Min(probeInterval * 2.0, PROBE_MAX_INTERVAL);
        nextLocalProbe := now + probeInterval;
        return None;
      case Success =>
        localRecoverySuccesses := localRecoverySuccesses + 1;
        nextLocalProbe := now + PROBE_INTERVAL;
        if localRecoverySuccesses < RECOVERY_THRESHOLD {
          return None;
        }
        selected := LocalRoute;
        probeInterval := PROBE_INTERVAL;
        log := log + [Returned(now)];
        MarkSuccess(LocalRoute, true);
        return Some(Answer(Success, LocalRoute));
    }

    /** The branch of `_read` for a selected cloud route. */
    method ReadCloudFirst(now: real, l: ClientOp, c: ClientOp) returns (answer: Answer)
      requires Valid() && mode.Fallback? && selected.CloudRoute?
      modifies Footprint()
      ensures Valid() && (View(), answer) == AfterCloudRead(old(View()), now, l, c)
    {
      if now >= nextLocalProbe {
        var ended := Probe(now, l);
        if ended.Some? {
          return ended.value;
        }
      }
      var outcome := Call(CloudRoute, c, false);
      return Answer(outcome, CloudRoute);
    }

    method Write(now: real, op: ClientOp) returns (answer: Answer)
      requires Valid()
      modifies Footprint()
      ensures Valid() && (View(), answer) == WriteStep(old(View()), now, op)
    {
      hide AfterCall;
      var route := selected;
      var outcome := Call(route, op, false);
      if outcome.ConnError? && mode.Fallback? && route.LocalRoute? && localFailures >= FAILURE_THRESHOLD {
        selected := CloudRoute;
        nextLocalProbe := now + probeInterval;
        log := log + [FailedOver(now)];
      }
      return Answer(outcome, route);
    }

    method Close()
      requires Valid()
      modifies Footprint()
      ensures Valid() && View() == AfterShutdown(old(View()))
    {
      if local != null {
        local.CloseLocked();
      }
      if cloud != null {
        cloud.CloseLocked();
      }
    }

    method Report(overall: OverallState)
      requires Valid() && health.View().Consistent()
      modifies Footprint()
      ensures Valid() && View() == AfterReport(old(View()), overall)
    {
      if !health.active.NoRoute? {
        var verdict := health.MarkOverallState(overall, health.active);
      }
    }
  }
}
