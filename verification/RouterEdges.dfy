/** Where the router's promises end: what other threads see inside an operation, reports that
    come late, and refusals that keep the cloud from being asked. */
module RouterEdges {
  import opened Prelude
  import opened Connection
  import opened Client
  import opened Router
  import opened RouterRuns

  // ----- inside an operation -----

  /** What a reader thread can see of the router at one moment: the gate of the event callbacks
      reads the health without taking the router's lock. */
  datatype Glimpse = Glimpse(selected: Route, health: Health)

  /** The first assignment of `set_route_state`: the state is stored, the active route not yet
      adjusted. */
  function Stored(h: Health, route: Route, state: RouteState): Health
  {
    if route.LocalRoute? then h.(local := state) else h.(cloud := state)
  }

  /** The two assignments of an accepted `set_route_state`. */
  function SetGlimpses(selected: Route, h: Health, route: Route, state: RouteState, activate: bool): seq<Glimpse>
  {
    [Glimpse(selected, Stored(h, route, state)), Glimpse(selected, AfterSet(h, route, state, activate))]
  }

  function CallGlimpses(s: State, route: Route, op: ClientOp, probe: bool): seq<Glimpse>
  {
    match AfterCall(s, route, op, probe).1
    case Success => SetGlimpses(s.selected, s.health, route, Connected, !probe)
    case AuthError => SetGlimpses(s.selected, s.health, route, Disconnected, false)
    case ConnError => SetGlimpses(s.selected, s.health, route, Disconnected, false)
    case OtherError => []
  }

  function LocalReadGlimpses(s: State, now: real, l: ClientOp, c: ClientOp): seq<Glimpse>
  {
    var (tried, outcome) := AfterCall(s, LocalRoute, l, false);
    CallGlimpses(s, LocalRoute, l, false)
    + if !outcome.ConnError? || tried.failures < FAILURE_THRESHOLD then []
      else [Glimpse(CloudRoute, tried.health)] + CallGlimpses(AfterFailover(tried, now), CloudRoute, c, false)
  }

  /** Between selecting the local route again and marking it, the cloud is still active. */
  function ProbeGlimpses(s: State, now: real, l: ClientOp): seq<Glimpse>
  {
    var (probed, outcome) := AfterCall(s, LocalRoute, l, true);
    CallGlimpses(s, LocalRoute, l, true)
    + if !outcome.Success? || probed.recoveries + 1 < RECOVERY_THRESHOLD then []
      else [Glimpse(LocalRoute, probed.health)] + SetGlimpses(LocalRoute, probed.health, LocalRoute, Connected, true)
  }

  function CloudReadGlimpses(s: State, now: real, l: ClientOp, c: ClientOp): seq<Glimpse>
  {
    var (probed, ended) := if now >= s.nextProbe then AfterProbe(s, now, l) else (s, None);
    (if now >= s.nextProbe then ProbeGlimpses(s, now, l) else [])
    + if ended.Some? then [] else CallGlimpses(probed, CloudRoute, c, false)
  }

  function WriteGlimpses(s: State, op: ClientOp): seq<Glimpse>
  {
    var (called, outcome) := AfterCall(s, s.selected, op, false);
    CallGlimpses(s, s.selected, op, false)
    + if outcome.ConnError? && s.mode.Fallback? && s.selected.LocalRoute? && called.failures >= FAILURE_THRESHOLD
      then [Glimpse(CloudRoute, called.health)] else []
  }

  function ReportGlimpses(s: State, overall: OverallState): seq<Glimpse>
  {
    if s.health.active.NoRoute? then []
    else SetGlimpses(s.selected, s.health, s.health.active,
                     match overall
                     case OverallConnected => Connected
                     case OverallUnknown => Unknown
                     case OverallOther => Disconnected,
                     overall.OverallConnected?)
  }

  /** Every moment of one operation, in order. */
  function Glimpses(s: State, op: Op): seq<Glimpse>
  {
    match op
    case Read(now, l, c) =>
      (match s.mode
       case LocalOnly => CallGlimpses(s, LocalRoute, l, false)
       case CloudOnly => CallGlimpses(s, CloudRoute, c, false)
       case Fallback =>
         if s.selected.LocalRoute? then LocalReadGlimpses(s, now, l, c) else CloudReadGlimpses(s, now, l, c))
    case Write(now, w) => WriteGlimpses(s, w)
    case Shutdown => []
    case Report(overall) => ReportGlimpses(s, overall)
  }

  /** An event of the active route is let through although another route is selected. */
  predicate Strays(g: Glimpse) { !g.health.active.NoRoute? && g.health.active != g.selected }

  /** An event of the active route is let through although that route is not connected. */
  predicate Lags(g: Glimpse) { !g.health.active.NoRoute? && !g.health.StateOf(g.health.active).Connected? }

  /** The read that completes the recovery. */
  predicate Returning(s: State, op: Op)
  {
    && s.mode.Fallback? && s.selected.CloudRoute? && op.Read? && op.now >= s.nextProbe
    && s.recoveries + 1 >= RECOVERY_THRESHOLD && AfterOp(s.local, op.l).1.Success?
  }

  /** The operation takes the connection from the active route: a call on it fails, or the
      coordinator reports it as not connected. */
  predicate Dropping(s: State, op: Op)
  {
    !s.health.active.NoRoute?
    && match op
       case Read(now, l, c) =>
         (exists e :: e in ReadCalls(s, now, l, c) && e.Called? && e.route == s.health.active && Failed(e.outcome))
       case Write(_, w) => Failed(AfterOp(if s.selected.LocalRoute? then s.local else s.cloud, w).1)
       case Shutdown => false
       case Report(overall) => !overall.OverallConnected?
  }

  ghost predicate AnyStrays(gs: seq<Glimpse>) { exists g :: g in gs && Strays(g) }

  ghost predicate AnyLags(gs: seq<Glimpse>) { exists g :: g in gs && Lags(g) }

  lemma {:induction false} AnyAppend(a: seq<Glimpse>, b: seq<Glimpse>)
    ensures AnyStrays(a + b) <==> AnyStrays(a) || AnyStrays(b)
    ensures AnyLags(a + b) <==> AnyLags(a) || AnyLags(b)
  {
    hide Strays, Lags;
    assert forall g :: g in a + b <==> g in a || g in b;
  }

  lemma {:induction false} AnyOne(g: Glimpse)
    ensures AnyStrays([g]) <==> Strays(g)
    ensures AnyLags([g]) <==> Lags(g)
  {
    hide Strays, Lags;
    assert g in [g];
  }

  /** The last moment of a list of moments, or the state before it. */
  function LastHealth(h: Health, gs: seq<Glimpse>): Health { if gs == [] then h else gs[|gs| - 1].health }

  /** The moments of `set_route_state`. */
  lemma {:induction false} SetGlimpsed(selected: Route, h: Health, route: Route, state: RouteState, activate: bool)
    requires h.Consistent() && h.Configured(route) && !state.NotConfigured? && (activate ==> state.Connected?)
    ensures var gs := SetGlimpses(selected, h, route, state, activate);
            && (AnyStrays(gs) <==> (!h.active.NoRoute? && h.active != selected) || (activate && route != selected))
            && (AnyLags(gs) <==> h.active == route && !state.Connected?)
            && LastHealth(h, gs) == AfterSet(h, route, state, activate)
  {
    var gs := SetGlimpses(selected, h, route, state, activate);
    AnyOne(gs[0]);
    AnyOne(gs[1]);
    AnyAppend([gs[0]], [gs[1]]);
    assert gs == [gs[0]] + [gs[1]];
  }

  /** The moments of one call, from a state in which the active route is selected or none. */
  lemma {:induction false} CallGlimpsed(s: State, route: Route, op: ClientOp, probe: bool)
    requires s.health.Consistent() && s.health.Configured(route)
    requires s.health.active.NoRoute? || s.health.active == s.selected
    requires probe || route == s.selected
    ensures var gs := CallGlimpses(s, route, op, probe);
            var (after, outcome) := AfterCall(s, route, op, probe);
            && !AnyStrays(gs)
            && (AnyLags(gs) <==> s.health.active == route && Failed(outcome))
            && after.health == LastHealth(s.health, gs) && after.selected == s.selected
            && after.health.Consistent()
            && (after.health.active.NoRoute? || after.health.active == s.selected)
            && (Failed(outcome) && s.selected == route ==> after.health.active.NoRoute?)
            && (probe && outcome.Success? ==> after.health.active == s.health.active)
  {
    hide AfterOp, AnyStrays, AnyLags;
    match AfterCall(s, route, op, probe).1
    case Success => SetGlimpsed(s.selected, s.health, route, Connected, !probe);
    case AuthError => SetGlimpsed(s.selected, s.health, route, Disconnected, false);
    case ConnError => SetGlimpsed(s.selected, s.health, route, Disconnected, false);
    case OtherError => NothingSeen();
  }

  lemma {:induction false} NothingSeen()
    ensures !AnyStrays([]) && !AnyLags([])
  {
  }

  /** What is to be shown of the moments of an operation. */
  ghost predicate Told(s: State, after: State, gs: seq<Glimpse>, strays: bool, lags: bool)
  {
    && (AnyStrays(gs) <==> strays)
    && (AnyLags(gs) <==> lags)
    && after.health == LastHealth(s.health, gs)
  }

  lemma {:induction false} LocalReadGlimpsed(s: State, now: real, l: ClientOp, c: ClientOp)
    requires Agreement(s) && s.mode.Fallback? && s.selected.LocalRoute?
    ensures Told(s, AfterLocalRead(s, now, l, c).0, LocalReadGlimpses(s, now, l, c), false,
                 s.health.active.LocalRoute? && Failed(AfterOp(s.local, l).1))
  {
    hide AfterCall, AfterOp, CallGlimpses, AnyStrays, AnyLags;
    NothingSeen();
    CallAgrees(s, LocalRoute, l, false);
    CallGlimpsed(s, LocalRoute, l, false);
    CallLogs(s, LocalRoute, l, false);
    var (tried, outcome) := AfterCall(s, LocalRoute, l, false);
    var first := CallGlimpses(s, LocalRoute, l, false);
    if outcome.ConnError? && tried.failures >= FAILURE_THRESHOLD {
      var failed := AfterFailover(tried, now);
      CallGlimpsed(failed, CloudRoute, c, false);
      var second := CallGlimpses(failed, CloudRoute, c, false);
      AnyOne(Glimpse(CloudRoute, tried.health));
      AnyAppend([Glimpse(CloudRoute, tried.health)], second);
      AnyAppend(first, [Glimpse(CloudRoute, tried.health)] + second);
    } else {
      AnyAppend(first, []);
    }
  }

  lemma {:induction false} ProbeGlimpsed(s: State, now: real, l: ClientOp)
    requires Agreement(s) && s.mode.Fallback? && s.selected.CloudRoute?
    ensures Told(s, AfterProbe(s, now, l).0, ProbeGlimpses(s, now, l),
                 s.recoveries + 1 >= RECOVERY_THRESHOLD && AfterOp(s.local, l).1.Success?
                 && s.health.active.CloudRoute?,
                 false)
    ensures AfterProbe(s, now, l).1.None? ==>
              var probed := AfterProbe(s, now, l).0;
              && probed.selected == s.selected && probed.health.active == s.health.active
              && probed.health.Consistent() && probed.health.Configured(CloudRoute)
  {
    hide AfterCall, AfterOp, CallGlimpses, AnyStrays, AnyLags;
    NothingSeen();
    CallAgrees(s, LocalRoute, l, true);
    CallGlimpsed(s, LocalRoute, l, true);
    CallLogs(s, LocalRoute, l, true);
    GoodProbeKeepsCount(s, l);
    var (probed, outcome) := AfterCall(s, LocalRoute, l, true);
    var first := CallGlimpses(s, LocalRoute, l, true);
    if outcome.Success? && probed.recoveries + 1 >= RECOVERY_THRESHOLD {
      var back := Glimpse(LocalRoute, probed.health);
      var last := SetGlimpses(LocalRoute, probed.health, LocalRoute, Connected, true);
      SetGlimpsed(LocalRoute, probed.health, LocalRoute, Connected, true);
      AnyOne(back);
      AnyAppend([back], last);
      AnyAppend(first, [back] + last);
    } else {
      AnyAppend(first, []);
    }
  }

  lemma {:induction false} GoodProbeKeepsCount(s: State, l: ClientOp)
    ensures var (probed, outcome) := AfterCall(s, LocalRoute, l, true);
            outcome.Success? ==> probed.recoveries == s.recoveries
    ensures var (probed, outcome) := AfterCall(s, LocalRoute, l, true);
            outcome.ConnError? && !s.health.active.LocalRoute? ==> probed.health.active == s.health.active
  {
    hide AfterOp;
  }

  lemma {:induction false} CloudReadGlimpsed(s: State, now: real, l: ClientOp, c: ClientOp)
    requires Agreement(s) && s.mode.Fallback? && s.selected.CloudRoute?
    ensures var asked := now < s.nextProbe || AfterProbe(s, now, l).1.None?;
            Told(s, AfterCloudRead(s, now, l, c).0, CloudReadGlimpses(s, now, l, c),
                 now >= s.nextProbe && s.recoveries + 1 >= RECOVERY_THRESHOLD
                 && AfterOp(s.local, l).1.Success? && s.health.active.CloudRoute?,
                 asked && s.health.active.CloudRoute? && Failed(AfterOp(s.cloud, c).1))
  {
    hide AfterCall, AfterOp, AfterProbe, CallGlimpses, ProbeGlimpses, AnyStrays, AnyLags;
    NothingSeen();
    ProbeGlimpsed(s, now, l);
    ProbeCalls(s, now, l);
    var (probed, ended) := if now >= s.nextProbe then AfterProbe(s, now, l) else (s, None);
    var first := if now >= s.nextProbe then ProbeGlimpses(s, now, l) else [];
    if ended.None? {
      CallGlimpsed(probed, CloudRoute, c, false);
      CallLogs(probed, CloudRoute, c, false);
      AnyAppend(first, CallGlimpses(probed, CloudRoute, c, false));
    } else {
      AnyAppend(first, []);
    }
  }

  lemma {:induction false} WriteGlimpsed(s: State, now: real, w: ClientOp)
    requires Agreement(s)
    ensures Told(s, WriteStep(s, now, w).0, WriteGlimpses(s, w), false, Dropping(s, Write(now, w)))
  {
    hide AfterCall, AfterOp, CallGlimpses, AnyStrays, AnyLags;
    NothingSeen();
    CallGlimpsed(s, s.selected, w, false);
    CallLogs(s, s.selected, w, false);
    var (called, outcome) := AfterCall(s, s.selected, w, false);
    AnyOne(Glimpse(CloudRoute, called.health));
    AnyAppend(CallGlimpses(s, s.selected, w, false), [Glimpse(CloudRoute, called.health)]);
    AnyAppend(CallGlimpses(s, s.selected, w, false), []);
  }

  /** Whether a read drops the active route, branch by branch. */
  lemma {:induction false} ReadDrops(s: State, now: real, l: ClientOp, c: ClientOp)
    requires Agreement(s)
    ensures var local, cloud := AfterOp(s.local, l).1, AfterOp(s.cloud, c).1;
            var onCloud := Called(CloudRoute, false, c, cloud) in ReadCalls(s, now, l, c);
            Dropping(s, Read(now, l, c))
            <==> if s.selected.LocalRoute? then s.health.active.LocalRoute? && Failed(local)
                 else s.health.active.CloudRoute? && onCloud && Failed(cloud)
  {
    hide AfterOp;
    var calls := ReadCalls(s, now, l, c);
    assert s.selected.LocalRoute? ==> calls[0] in calls;
  }

  /** What the gate of the event callbacks can see during an operation.  It lets events of a
      route through that is not selected exactly in the read that completes the recovery, while
      the cloud is still active; and events of a route that is not connected exactly in an
      operation that takes the connection from the active route.  The last moment is the state
      after the operation. */
  lemma {:induction false} EventsInsideOperations(s: State, op: Op)
    requires Agreement(s)
    ensures AnyStrays(Glimpses(s, op)) <==> Returning(s, op) && s.health.active.CloudRoute?
    ensures AnyLags(Glimpses(s, op)) <==> Dropping(s, op)
    ensures Step(s, op).health == LastHealth(s.health, Glimpses(s, op))
  {
    hide AfterCall, AfterOp, CallGlimpses, AnyStrays, AnyLags, Dropping, LocalReadGlimpses, CloudReadGlimpses,
         WriteGlimpses, AfterLocalRead, AfterCloudRead, WriteStep;
    NothingSeen();
    match op
    case Read(now, l, c) => ReadGlimpsed(s, now, l, c);
    case Write(now, w) => WriteGlimpsed(s, now, w);
    case Shutdown => ShutdownDropsNothing(s);
    case Report(overall) => ReportGlimpsed(s, overall);
  }

  lemma {:induction false} ShutdownDropsNothing(s: State)
    ensures !Dropping(s, Shutdown)
  {
  }

  lemma {:induction false} ReadGlimpsed(s: State, now: real, l: ClientOp, c: ClientOp)
    requires Agreement(s)
    ensures var op := Read(now, l, c);
            Told(s, Step(s, op), Glimpses(s, op), Returning(s, op) && s.health.active.CloudRoute?, Dropping(s, op))
  {
    hide AfterCall, AfterOp, CallGlimpses, AnyStrays, AnyLags, Dropping, LocalReadGlimpses, CloudReadGlimpses,
         AfterLocalRead, AfterCloudRead;
    ReadDrops(s, now, l, c);
    match s.mode
    case LocalOnly =>
      CallGlimpsed(s, LocalRoute, l, false);
      CallLogs(s, LocalRoute, l, false);
    case CloudOnly =>
      CallGlimpsed(s, CloudRoute, c, false);
      CallLogs(s, CloudRoute, c, false);
    case Fallback =>
      if s.selected.LocalRoute? {
        LocalReadGlimpsed(s, now, l, c);
      } else {
        CloudReadGlimpsed(s, now, l, c);
        ProbeCalls(s, now, l);
      }
  }

  lemma {:induction false} ReportGlimpsed(s: State, overall: OverallState)
    requires Agreement(s)
    ensures Told(s, AfterReport(s, overall), ReportGlimpses(s, overall), false, Dropping(s, Report(overall)))
  {
    hide AnyStrays, AnyLags, SetGlimpses, LastHealth;
    NothingSeen();
    if !s.health.active.NoRoute? {
      match overall
      case OverallConnected => SetGlimpsed(s.selected, s.health, s.health.active, Connected, true);
      case OverallUnknown => SetGlimpsed(s.selected, s.health, s.health.active, Unknown, false);
      case OverallOther => SetGlimpsed(s.selected, s.health, s.health.active, Disconnected, false);
    } else {
      NoLast(s.health);
    }
  }

  lemma {:induction false} NoLast(h: Health)
    ensures LastHealth(h, []) == h
  {
  }

  // ----- runs that get there -----

  /** A client operation that ends the same way whatever the session. */
  ghost predicate Always(op: ClientOp, outcome: Outcome)
  {
    forall session: Session :: AfterOp(session, op).1 == outcome
  }

  /** The environment decides that: a peer that cannot be reached, one that grants a session and
      answers, and one that refuses the session. */
  function Unreachable(): Link { Link(false, OpenOsError, OpenOsError, OpenOsError, Dropped) }
  function Granting(id: int): Link { Link(false, OpenOk, OpenOk, OpenOk, Granted(id)) }
  function Refusing(): Link { Link(false, OpenOk, OpenOk, OpenOk, Refused) }

  function ReadOver(link: Link): ClientOp { ReadOp(link, ReadEnv([], ReadOk), link, ReadEnv([], ReadOk)) }

  lemma {:induction false} EnvironmentsExist(id: int)
    ensures Always(ReadOver(Unreachable()), ConnError)
    ensures Always(ReadOver(Granting(id)), Success)
    ensures Always(ReadOver(Refusing()), AuthError)
  {
    forall session: Session
      ensures AfterOp(session, ReadOver(Unreachable())).1 == ConnError
      ensures AfterOp(session, ReadOver(Granting(id))).1 == Success
      ensures AfterOp(session, ReadOver(Refusing())).1 == AuthError
    {
      ReadEnds(session, id);
    }
  }

  lemma {:induction false} ReadEnds(session: Session, id: int)
    ensures AfterOp(session, ReadOver(Unreachable())).1 == ConnError
    ensures AfterOp(session, ReadOver(Granting(id))).1 == Success
    ensures AfterOp(session, ReadOver(Refusing())).1 == AuthError
  {
    hide AfterQueries;
    AttemptEnds(session, id);
    AttemptEnds(AfterGiveUp(AfterAttempt(session, Unreachable(), ReadEnv([], ReadOk)).0), id);
    hide AfterAttempt, AfterGiveUp;
  }

  lemma {:induction false} AttemptEnds(session: Session, id: int)
    ensures AfterAttempt(session, Unreachable(), ReadEnv([], ReadOk)).1 == ConnError
    ensures AfterAttempt(session, Granting(id), ReadEnv([], ReadOk)).1 == Success
    ensures AfterAttempt(session, Refusing(), ReadEnv([], ReadOk)).1 == AuthError
  {
    hide AfterQueries, AfterOpen, AfterClose;
    OpenEnds(Client.AfterClose(session), id);
  }

  lemma {:induction false} OpenEnds(session: Session, id: int)
    ensures AfterOpen(session, Unreachable(), 0).1 == ConnError
    ensures AfterOpen(session, Granting(id), 0) == (AfterAttach(session), Success)
    ensures AfterOpen(session, Refusing(), 0) == (AfterAttach(session), Success)
  {
    hide AfterAttach;
    assert AfterOpen(session, Unreachable(), 2).1 == ConnError;
  }

  /** A fallback router at its start, after a failed read, after the failover and after one good
      probe. */
  predicate Starting(s: State)
  {
    s.mode.Fallback? && Agreement(s) && s.selected.LocalRoute? && s.failures == 0 && s.recoveries == 0
    && s.interval == PROBE_INTERVAL
  }

  /** The cloud is selected and active. */
  predicate OnCloud(s: State, recoveries: nat, nextProbe: real)
  {
    s.mode.Fallback? && Agreement(s) && s.selected.CloudRoute? && s.health.active.CloudRoute?
    && s.recoveries == recoveries && s.nextProbe == nextProbe
  }

  /** Two reads that cannot reach the gate fail over, and the second is answered by the cloud. */
  lemma {:induction false} TwoFailuresFailOver(s: State, down: ClientOp, ok: ClientOp, now: real)
    requires Starting(s) && Always(down, ConnError) && Always(ok, Success)
    ensures OnCloud(Step(Step(s, Read(now, down, ok)), Read(now, down, ok)), 0, now + PROBE_INTERVAL)
  {
    hide AfterOp, Agreement;
    ReadAgrees(s, now, down, ok);
    ReadAgrees(Step(s, Read(now, down, ok)), now, down, ok);
    AgreementParts(s);
    assert AfterOp(s.local, down).1 == ConnError;
    var s1 := Step(s, Read(now, down, ok));
    assert s1.failures == 1 && s1.selected.LocalRoute? && s1.recoveries == 0 && s1.interval == PROBE_INTERVAL
           && s1.mode.Fallback?;
    SecondFailure(s1, down, ok, now);
  }

  lemma {:induction false} AgreementParts(s: State)
    requires Agreement(s)
    ensures Wired(s) && s.health.Consistent()
  {
  }

  lemma {:induction false} SecondFailure(s: State, down: ClientOp, ok: ClientOp, now: real)
    requires s.mode.Fallback? && Agreement(s) && s.selected.LocalRoute? && s.failures == 1 && s.recoveries == 0
    requires s.interval == PROBE_INTERVAL && Always(down, ConnError) && Always(ok, Success)
    ensures OnCloud(Step(s, Read(now, down, ok)), 0, now + PROBE_INTERVAL)
  {
    hide AfterOp;
    ReadAgrees(s, now, down, ok);
    assert AfterOp(s.local, down).1 == ConnError && AfterOp(s.cloud, ok).1 == Success;
  }

  /** A good probe that does not complete the recovery leaves the cloud active. */
  lemma {:induction false} GoodProbe(s: State, ok: ClientOp, now: real)
    requires OnCloud(s, 0, s.nextProbe) && now >= s.nextProbe && Always(ok, Success)
    ensures OnCloud(Step(s, Read(now, ok, ok)), 1, now + PROBE_INTERVAL)
  {
    hide AfterOp;
    ReadAgrees(s, now, ok, ok);
    assert AfterOp(s.local, ok).1 == Success && AfterOp(s.cloud, ok).1 == Success;
  }

  lemma {:induction false} RunSnoc(s: State, ops: seq<Op>, op: Op)
    ensures Run(s, ops + [op]) == Step(Run(s, ops), op)
  {
    hide Step;
    assert (ops + [op])[..|ops + [op]| - 1] == ops;
  }

  lemma {:induction false} FailoverRun(down: ClientOp, ok: ClientOp)
    requires Always(down, ConnError) && Always(ok, Success)
    ensures OnCloud(Run(InitialState(Fallback, true, true), [Read(0.0, down, ok), Read(0.0, down, ok)]), 0, 30.0)
  {
    hide Step, OnCloud, Starting, Always;
    var s, op := InitialState(Fallback, true, true), Read(0.0, down, ok);
    StartsSo();
    TwoFailuresFailOver(s, down, ok, 0.0);
    RunSnoc(s, [], op);
    RunSnoc(s, [op], op);
    assert [] + [op] == [op] && [op] + [op] == [op, op];
  }

  lemma {:induction false} StartsSo()
    ensures Starting(InitialState(Fallback, true, true))
  {
  }

  /** A run after which a late report disagrees.  Two reads fail over to the cloud, a third makes
      one good probe; the coordinator then sees the cloud active, a read completes the recovery,
      and the report makes the cloud active although the local route is selected. */
  lemma {:induction false} LateReportRun(down: ClientOp, ok: ClientOp)
    requires Always(down, ConnError) && Always(ok, Success)
    ensures var s := Run(InitialState(Fallback, true, true),
                         [Read(0.0, down, ok), Read(0.0, down, ok), Read(30.0, ok, ok)]);
            var after := Step(s, Read(60.0, ok, ok));
            && s.health.active == CloudRoute
            && after.selected == LocalRoute
            && !Agreement(after.(health := AfterMark(after.health, OverallConnected, s.health.active)))
  {
    hide Step, Run, AfterOp, Agreement;
    var s0 := InitialState(Fallback, true, true);
    var op, probe := Read(0.0, down, ok), Read(30.0, ok, ok);
    FailoverRun(down, ok);
    GoodProbe(Run(s0, [op, op]), ok, 30.0);
    RunSnoc(s0, [op, op], probe);
    assert [op, op] + [probe] == [op, op, probe];
    RecoveryCompletes(Run(s0, [op, op, probe]), ok, 60.0);
  }

  lemma {:induction false} RecoveryCompletes(s: State, ok: ClientOp, now: real)
    requires OnCloud(s, 1, now) && Always(ok, Success)
    ensures var after := Step(s, Read(now, ok, ok));
            && after.selected == LocalRoute
            && !Agreement(after.(health := AfterMark(after.health, OverallConnected, s.health.active)))
    ensures Returning(s, Read(now, ok, ok))
  {
    hide AfterOp;
    assert AfterOp(s.local, ok).1 == Success;
    LateReportCanDisagree(s, now, ok, ok);
  }

  // ----- a refusing gate keeps the cloud from being asked -----

  /** A probe that is due fails to authenticate. */
  predicate ProbeRefused(s: State, op: Op)
  {
    op.Read? && op.now >= s.nextProbe && AfterOp(s.local, op.l).1.AuthError?
  }

  /** Every operation of the run is a read whose probe is due and fails to authenticate. */
  predicate AllRefused(s: State, ops: seq<Op>)
  {
    ops == [] || (AllRefused(s, ops[..|ops| - 1]) && ProbeRefused(Run(s, ops[..|ops| - 1]), ops[|ops| - 1]))
  }

  /** Such a read ends with the refusal and leaves the probe due. */
  lemma {:induction false} RefusedRead(s: State, op: Op)
    requires s.mode.Fallback? && s.selected.CloudRoute? && ProbeRefused(s, op)
    ensures ReadStep(s, op.now, op.l, op.c).1 == Answer(AuthError, LocalRoute)
    ensures var after := Step(s, op);
            && after.mode == s.mode && after.selected == s.selected
            && after.nextProbe == s.nextProbe && after.cloud == s.cloud
            && Calls(after.log) == Calls(s.log) + [Called(LocalRoute, true, op.l, AuthError)]
  {
    hide AfterOp, Calls;
    CallsAppend(s.log, Called(LocalRoute, true, op.l, AuthError));
  }

  function Refusals(ops: seq<Op>): seq<Event>
  {
    if ops == [] then []
    else
      var last := ops[|ops| - 1];
      Refusals(ops[..|ops| - 1]) + if last.Read? then [Called(LocalRoute, true, last.l, AuthError)] else []
  }

  /** While the cloud is selected and the local route refuses its due probes, a run of reads asks
      the local route only: every read fails, and the cloud, though selected, is never asked. */
  lemma {:induction false} RefusalsBlockTheCloud(s: State, ops: seq<Op>)
    requires s.mode.Fallback? && s.selected.CloudRoute? && AllRefused(s, ops)
    ensures var after := Run(s, ops);
            && after.mode == s.mode && after.selected == s.selected
            && after.nextProbe == s.nextProbe && after.cloud == s.cloud
            && Calls(after.log) == Calls(s.log) + Refusals(ops)
  {
    hide Step, Calls, AfterOp;
    if ops == [] {
      assert Calls(s.log) + [] == Calls(s.log);
    } else {
      var front, op := ops[..|ops| - 1], ops[|ops| - 1];
      RefusalsBlockTheCloud(s, front);
      RefusedRead(Run(s, front), op);
      assert Calls(s.log) + Refusals(front) + [Called(LocalRoute, true, op.l, AuthError)]
             == Calls(s.log) + Refusals(ops);
    }
  }

  function Repeat(op: Op, n: nat): seq<Op> { if n == 0 then [] else Repeat(op, n - 1) + [op] }

  /** Such runs exist, of every length: the gate could not be reached twice, and then refuses. */
  lemma {:induction false} RefusalsRun(down: ClientOp, ok: ClientOp, refused: ClientOp, n: nat)
    requires Always(down, ConnError) && Always(ok, Success) && Always(refused, AuthError)
    ensures var s := Run(InitialState(Fallback, true, true), [Read(0.0, down, ok), Read(0.0, down, ok)]);
            && s.mode.Fallback? && s.selected.CloudRoute?
            && AllRefused(s, Repeat(Read(30.0, refused, ok), n))
  {
    var s := Run(InitialState(Fallback, true, true), [Read(0.0, down, ok), Read(0.0, down, ok)]);
    hide Run, Step, AfterOp;
    FailoverRun(down, ok);
    var op := Read(30.0, refused, ok);
    if n > 0 {
      RefusalsRun(down, ok, refused, n - 1);
      RefusalsBlockTheCloud(s, Repeat(op, n - 1));
      assert Repeat(op, n)[..|Repeat(op, n)| - 1] == Repeat(op, n - 1);
    } else {
      assert OnCloud(s, 0, 30.0);
    }
  }
}
