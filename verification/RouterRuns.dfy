/** What the router promises over whole runs, whatever the clients and the clock do. */
module RouterRuns {
  import opened Prelude
  import opened Connection
  import opened Client
  import opened Router
  import CR = ClientRuns

  datatype Op =
    | Read(now: real, l: ClientOp, c: ClientOp)
    | Write(now: real, op: ClientOp)
    | Shutdown
    | Report(overall: OverallState)

  /** Reads run the clients' reconnecting runner and writes their run-once runner. */
  predicate WellKinded(op: Op)
  {
    match op
    case Read(_, l, c) => l.ReadOp? && c.ReadOp?
    case Write(_, w) => w.CommandOp?
    case _ => true
  }

  function Step(s: State, op: Op): State
  {
    match op
    case Read(now, l, c) => ReadStep(s, now, l, c).0
    case Write(now, w) => WriteStep(s, now, w).0
    case Shutdown => AfterShutdown(s)
    case Report(overall) => AfterReport(s, overall)
  }

  function Run(s: State, ops: seq<Op>): State
  {
    if ops == [] then s else Step(Run(s, ops[..|ops| - 1]), ops[|ops| - 1])
  }

  /** The latest clock reading of a run that begins at `t0`. */
  function Clock(t0: real, ops: seq<Op>): real
  {
    if ops == [] then t0
    else
      var last := ops[|ops| - 1];
      match last
      case Read(now, _, _) => now
      case Write(now, _) => now
      case _ => Clock(t0, ops[..|ops| - 1])
  }

  /** A run: well-kinded operations and a clock that never goes back. */
  predicate Timely(t0: real, ops: seq<Op>)
  {
    ops == []
    || (&& Timely(t0, ops[..|ops| - 1])
        && WellKinded(ops[|ops| - 1])
        && Clock(t0, ops[..|ops| - 1]) <= Clock(t0, ops))
  }

  // ----- what the history says -----

  predicate Failed(outcome: Outcome) { outcome.AuthError? || outcome.ConnError? }

  /** Local failures since the last local success. */
  function LocalStreak(log: seq<Event>): nat
  {
    if log == [] then 0
    else
      var before := LocalStreak(log[..|log| - 1]);
      match log[|log| - 1]
      case Called(LocalRoute, _, _, outcome) =>
        if outcome.Success? then 0 else if Failed(outcome) then before + 1 else before
      case _ => before
  }

  /** Successful probes since the last local failure. */
  function GoodProbes(log: seq<Event>): nat
  {
    if log == [] then 0
    else
      var before := GoodProbes(log[..|log| - 1]);
      match log[|log| - 1]
      case Called(LocalRoute, probe, _, outcome) =>
        if Failed(outcome) then 0 else if outcome.Success? && probe then before + 1 else before
      case _ => before
  }

  /** Probes that failed on a connection error since the last return to the local route. */
  function BadProbes(log: seq<Event>): nat
  {
    if log == [] then 0
    else
      var before := BadProbes(log[..|log| - 1]);
      match log[|log| - 1]
      case Called(LocalRoute, true, _, ConnError) => before + 1
      case Returned(_) => 0
      case _ => before
  }

  function Failovers(log: seq<Event>): nat
  {
    if log == [] then 0
    else Failovers(log[..|log| - 1]) + if log[|log| - 1].FailedOver? then 1 else 0
  }

  function Returns(log: seq<Event>): nat
  {
    if log == [] then 0
    else Returns(log[..|log| - 1]) + if log[|log| - 1].Returned? then 1 else 0
  }

  /** The time of the last failover. */
  function LastFailover(log: seq<Event>): Option<real>
  {
    if log == [] then None
    else if log[|log| - 1].FailedOver? then Some(log[|log| - 1].at)
    else LastFailover(log[..|log| - 1])
  }

  /** Every return to the local route comes at least a minute after the failover before it. */
  predicate Spaced(log: seq<Event>)
  {
    forall j {:trigger log[j]} :: 0 <= j < |log| && log[j].Returned? ==>
      LastFailover(log[..j]).Some? && log[j].at >= LastFailover(log[..j]).value + 60.0
  }

  function Pow2(k: nat): real { if k == 0 then 1.0 else 2.0 * Pow2(k - 1) }

  /** The doubling back-off with its cap. */
  function Backoff(k: nat): real { Min(PROBE_INTERVAL * Pow2(k), PROBE_MAX_INTERVAL) }

  lemma {:induction false} BackoffDoubles(k: nat)
    ensures Backoff(k) >= 30.0
    ensures Backoff(k + 1) == Min(Backoff(k) * 2.0, PROBE_MAX_INTERVAL)
  {
    if k > 0 {
      BackoffDoubles(k - 1);
    }
    assert Pow2(k + 1) == 2.0 * Pow2(k);
  }

  lemma {:induction false} Append(log: seq<Event>, e: Event)
    ensures (log + [e])[..|log + [e]| - 1] == log
    ensures (log + [e])[|log + [e]| - 1] == e
  {
  }

  // ----- selected, active and health agree -----

  /** The active route is the selected one or none, it is connected, and the mode's routes
      are configured. */
  predicate Agreement(s: State)
  {
    && Wired(s)
    && s.health.Consistent()
    && (s.health.active.NoRoute? || s.health.active == s.selected)
  }

  /** Which routes are configured never changes. */
  predicate SameConfiguration(s: State, t: State)
  {
    && s.mode == t.mode
    && (s.health.local.NotConfigured? <==> t.health.local.NotConfigured?)
    && (s.health.cloud.NotConfigured? <==> t.health.cloud.NotConfigured?)
  }

  lemma {:induction false} CallAgrees(s: State, route: Route, op: ClientOp, probe: bool)
    requires Wired(s) && s.health.Consistent() && s.health.Configured(route)
    requires s.health.active in {NoRoute, s.selected} || s.health.active == LocalRoute
    requires probe || route == s.selected
    ensures var (after, outcome) := AfterCall(s, route, op, probe);
            && Wired(after) && after.health.Consistent() && SameConfiguration(s, after)
            && after.selected == s.selected
            && (after.health.active == s.health.active
                || after.health.active == NoRoute
                || (!probe && after.health.active == route))
            && (Failed(outcome) ==> after.health.active != route)
            && (outcome.Success? && !probe ==> after.health.active == route)
            && (outcome.Success? ==> after.health.StateOf(route).Connected?)
  {
    hide AfterOp;
  }

  lemma {:induction false} StepAgrees(s: State, op: Op)
    requires Agreement(s)
    ensures Agreement(Step(s, op)) && SameConfiguration(s, Step(s, op))
  {
    match op
    case Read(now, l, c) => ReadAgrees(s, now, l, c);
    case Write(now, w) => WriteAgrees(s, now, w);
    case Shutdown =>
    case Report(overall) =>
  }

  /** What a read leaves behind. */
  predicate ReadLeaves(s: State, after: State, answer: Answer)
  {
    && Agreement(after) && SameConfiguration(s, after)
    && (answer.outcome.Success? ==> after.health.active == after.selected == answer.route)
  }

  lemma {:induction false} LocalReadAgrees(s: State, now: real, l: ClientOp, c: ClientOp)
    requires Agreement(s) && s.mode.Fallback? && s.selected.LocalRoute?
    ensures var (after, answer) := AfterLocalRead(s, now, l, c);
            ReadLeaves(s, after, answer)
  {
    hide AfterCall;
    CallAgrees(s, LocalRoute, l, false);
    var (tried, outcome) := AfterCall(s, LocalRoute, l, false);
    if outcome.ConnError? && tried.failures >= FAILURE_THRESHOLD {
      CallAgrees(AfterFailover(tried, now), CloudRoute, c, false);
    }
  }

  lemma {:induction false} CloudReadAgrees(s: State, now: real, l: ClientOp, c: ClientOp)
    requires Agreement(s) && s.mode.Fallback? && s.selected.CloudRoute?
    ensures var (after, answer) := AfterCloudRead(s, now, l, c);
            ReadLeaves(s, after, answer)
  {
    hide AfterCall;
    CallAgrees(s, LocalRoute, l, true);
    var (probed, ended) := if now >= s.nextProbe then AfterProbe(s, now, l) else (s, None);
    if ended.None? {
      CallAgrees(probed, CloudRoute, c, false);
    }
  }

  /** Agreement survives every read, and a successful read leaves the route that answered
      selected, active and connected. */
  lemma {:induction false} ReadAgrees(s: State, now: real, l: ClientOp, c: ClientOp)
    requires Agreement(s)
    ensures var (after, answer) := ReadStep(s, now, l, c);
            && Agreement(after) && SameConfiguration(s, after)
            && (answer.outcome.Success? ==> after.health.active == after.selected == answer.route)
  {
    hide AfterCall, AfterLocalRead, AfterCloudRead;
    match s.mode
    case LocalOnly => CallAgrees(s, LocalRoute, l, false);
    case CloudOnly => CallAgrees(s, CloudRoute, c, false);
    case Fallback =>
      if s.selected.LocalRoute? {
        LocalReadAgrees(s, now, l, c);
      } else {
        CloudReadAgrees(s, now, l, c);
      }
  }

  lemma {:induction false} WriteAgrees(s: State, now: real, op: ClientOp)
    requires Agreement(s)
    ensures var (after, answer) := WriteStep(s, now, op);
            && Agreement(after) && SameConfiguration(s, after)
            && answer.route == s.selected
            && (answer.outcome.Success? ==> after.health.active == after.selected == answer.route)
  {
    CallAgrees(s, s.selected, op, false);
  }

  /** Agreement at every operation boundary of every run. */
  lemma {:induction false} RunAgrees(mode: Mode, hasLocal: bool, hasRelay: bool, ops: seq<Op>)
    requires PolicyValid(mode, hasLocal, hasRelay)
    ensures Agreement(Run(InitialState(mode, hasLocal, hasRelay), ops))
    ensures SameConfiguration(InitialState(mode, hasLocal, hasRelay), Run(InitialState(mode, hasLocal, hasRelay), ops))
  {
    if ops != [] {
      RunAgrees(mode, hasLocal, hasRelay, ops[..|ops| - 1]);
      StepAgrees(Run(InitialState(mode, hasLocal, hasRelay), ops[..|ops| - 1]), ops[|ops| - 1]);
    }
  }

  /** The router takes the step of the run and keeps the agreement through any operation. */
  method Perform(router: NiceConnectionRouter, op: Op)
    requires router.Valid() && Agreement(router.View())
    modifies router.Footprint()
    ensures router.Valid() && router.View() == Step(old(router.View()), op) && Agreement(router.View())
  {
    hide ReadStep, WriteStep, AfterShutdown, AfterMark;
    StepAgrees(router.View(), op);
    match op
    case Read(now, l, c) => var answer := router.Read(now, l, c);
    case Write(now, w) => var answer := router.Write(now, w);
    case Shutdown => router.Close();
    case Report(overall) => router.Report(overall);
  }

  /** The coordinator reads the active route first and reports on it afterwards, outside the
      router's lock, so the route it reports on may be out of date.  A late report keeps the
      agreement except when it calls a route connected that is no longer selected. */
  lemma {:induction false} LateReportAgreesIff(s: State, overall: OverallState, seen: Route)
    requires Agreement(s) && s.health.Configured(seen)
    ensures Agreement(s.(health := AfterMark(s.health, overall, seen)))
            <==> overall.OverallConnected? ==> seen == s.selected
  {
  }

  /** One read in between is enough: the cloud was active when the coordinator looked, and the
      probe of that read completed the recovery. */
  lemma {:induction false} LateReportCanDisagree(s: State, now: real, l: ClientOp, c: ClientOp)
    requires Agreement(s) && s.mode.Fallback? && s.health.active.CloudRoute?
    requires s.recoveries == 1 && now >= s.nextProbe && AfterOp(s.local, l).1.Success?
    ensures var after := ReadStep(s, now, l, c).0;
            Agreement(after) && !Agreement(after.(health := AfterMark(after.health, OverallConnected, s.health.active)))
  {
    hide AfterOp;
    ReadAgrees(s, now, l, c);
  }

  /** `add_event_callback` lets an event of a route through while that route is active. */
  predicate EventDelivered(s: State, route: Route) { s.health.active == route }

  /** So between operations an unsolicited event reaches the integration only from the selected,
      connected route.  `RouterEdges.EventsInsideOperations` says what passes inside one. */
  lemma {:induction false} EventsOnlyFromSelectedRoute(mode: Mode, hasLocal: bool, hasRelay: bool,
                                                       ops: seq<Op>, route: Route)
    requires PolicyValid(mode, hasLocal, hasRelay) && !route.NoRoute?
    ensures var s := Run(InitialState(mode, hasLocal, hasRelay), ops);
            EventDelivered(s, route) ==> route == s.selected && s.health.StateOf(route).Connected?
  {
    RunAgrees(mode, hasLocal, hasRelay, ops);
  }

  // ----- the counters summarise the history -----

  predicate Counted(s: State)
  {
    && s.failures == LocalStreak(s.log)
    && s.recoveries == GoodProbes(s.log)
    && s.interval == Backoff(BadProbes(s.log))
  }

  /** A call keeps the failure counter in step; a good probe leaves its own count to `_read`,
      and so does a bad probe its back-off. */
  lemma {:induction false} CallCounts(s: State, route: Route, op: ClientOp, probe: bool)
    requires Counted(s) && !route.NoRoute?
    ensures var (after, outcome) := AfterCall(s, route, op, probe);
            var onProbe := route.LocalRoute? && probe;
            && after.failures == LocalStreak(after.log)
            && (route.LocalRoute? && outcome.Success? ==> after.failures == 0)
            && after.recoveries + (if onProbe && outcome.Success? then 1 else 0) == GoodProbes(after.log)
            && after.interval == s.interval
            && BadProbes(after.log) == BadProbes(s.log) + (if onProbe && outcome.ConnError? then 1 else 0)
            && after.selected == s.selected && after.nextProbe == s.nextProbe && after.mode == s.mode
  {
    hide AfterOp;
    var outcome := AfterCall(s, route, op, probe).1;
    Append(s.log, Called(route, probe, op, outcome));
  }

  lemma {:induction false} SwitchCounts(s: State, e: Event)
    requires !e.Called?
    ensures LocalStreak(s.log + [e]) == LocalStreak(s.log)
    ensures GoodProbes(s.log + [e]) == GoodProbes(s.log)
    ensures BadProbes(s.log + [e]) == if e.Returned? then 0 else BadProbes(s.log)
  {
    Append(s.log, e);
  }

  lemma {:induction false} ProbeCounts(s: State, now: real, l: ClientOp)
    requires Counted(s)
    ensures Counted(AfterProbe(s, now, l).0)
  {
    assert Backoff(0) == PROBE_INTERVAL;
    hide AfterCall, Backoff;
    CallCounts(s, LocalRoute, l, true);
    BackoffDoubles(BadProbes(s.log));
    var (probed, outcome) := AfterCall(s, LocalRoute, l, true);
    SwitchCounts(probed, Returned(now));
  }

  lemma {:induction false} StepCounts(s: State, op: Op)
    requires Counted(s) && Wired(s)
    ensures Counted(Step(s, op))
  {
    hide AfterCall, AfterProbe;
    match op
    case Read(now, l, c) =>
      if s.selected.LocalRoute? {
        CallCounts(s, LocalRoute, l, false);
        var tried := AfterCall(s, LocalRoute, l, false).0;
        SwitchCounts(tried, FailedOver(now));
        CallCounts(AfterFailover(tried, now), CloudRoute, c, false);
      } else {
        ProbeCounts(s, now, l);
        CallCounts(s, CloudRoute, c, false);
        CallCounts(AfterProbe(s, now, l).0, CloudRoute, c, false);
      }
    case Write(now, w) =>
      CallCounts(s, s.selected, w, false);
      SwitchCounts(AfterCall(s, s.selected, w, false).0, FailedOver(now));
    case Shutdown =>
    case Report(overall) =>
  }

  /** In every run the three counters are functions of the history: the local failures since
      the last local success, the good probes since the last local failure, and the capped
      doubling of the probe interval by the bad probes since the last return. */
  lemma {:induction false} CountersSummariseHistory(mode: Mode, hasLocal: bool, hasRelay: bool, ops: seq<Op>)
    requires PolicyValid(mode, hasLocal, hasRelay)
    ensures Counted(Run(InitialState(mode, hasLocal, hasRelay), ops))
  {
    var s0 := InitialState(mode, hasLocal, hasRelay);
    if ops == [] {
      assert Backoff(0) == PROBE_INTERVAL;
    } else {
      CountersSummariseHistory(mode, hasLocal, hasRelay, ops[..|ops| - 1]);
      RunAgrees(mode, hasLocal, hasRelay, ops[..|ops| - 1]);
      StepCounts(Run(s0, ops[..|ops| - 1]), ops[|ops| - 1]);
    }
  }

  // ----- no flapping -----

  /** `now` is the latest clock reading of a run that began at `t0`. */
  predicate Timed(s: State, t0: real, now: real)
  {
    && Spaced(s.log)
    && now >= t0 + 60.0 * Returns(s.log) as real
    && (if s.mode.Fallback? && s.selected.CloudRoute? then
          && Failovers(s.log) == Returns(s.log) + 1
          && s.recoveries < RECOVERY_THRESHOLD
          && LastFailover(s.log).Some?
          && LastFailover(s.log).value >= t0 + 60.0 * Returns(s.log) as real
          && s.nextProbe >= LastFailover(s.log).value + 30.0 * (1 + s.recoveries) as real
        else
          && Failovers(s.log) == Returns(s.log)
          && s.interval == PROBE_INTERVAL)
  }

  lemma {:induction false} SpacedAppend(log: seq<Event>, e: Event)
    requires Spaced(log)
    requires e.Returned? ==> LastFailover(log).Some? && e.at >= LastFailover(log).value + 60.0
    ensures Spaced(log + [e])
  {
    forall j {:trigger (log + [e])[j]} | 0 <= j < |log + [e]| && (log + [e])[j].Returned?
      ensures var before := (log + [e])[..j];
              LastFailover(before).Some? && (log + [e])[j].at >= LastFailover(before).value + 60.0
    {
      assert (log + [e])[..j] == log[..j];
      if j == |log| {
        assert log[..j] == log;
      } else {
        assert (log + [e])[j] == log[j];
      }
    }
  }

  /** The part of the history that a client call leaves alone. */
  predicate SameSwitches(a: seq<Event>, b: seq<Event>)
  {
    Failovers(a) == Failovers(b) && Returns(a) == Returns(b) && LastFailover(a) == LastFailover(b)
  }

  /** What a call changes of the state that decides about switches. */
  lemma {:induction false} CallShape(s: State, route: Route, op: ClientOp, probe: bool)
    requires !route.NoRoute?
    ensures var (after, outcome) := AfterCall(s, route, op, probe);
            && after.log == s.log + [Called(route, probe, op, outcome)]
            && after.mode == s.mode && after.selected == s.selected
            && after.interval == s.interval && after.nextProbe == s.nextProbe
            && after.recoveries == (if route.LocalRoute? && Failed(outcome) then 0 else s.recoveries)
  {
    hide AfterOp;
  }

  lemma {:induction false} CalledKeepsSwitches(log: seq<Event>, e: Event)
    requires e.Called?
    ensures SameSwitches(log, log + [e])
  {
    Append(log, e);
  }

  lemma {:induction false} CallTimed(s: State, route: Route, op: ClientOp, probe: bool)
    requires Spaced(s.log) && !route.NoRoute?
    ensures var (after, outcome) := AfterCall(s, route, op, probe);
            && Spaced(after.log) && SameSwitches(s.log, after.log)
            && after.mode == s.mode && after.selected == s.selected
            && after.interval == s.interval && after.nextProbe == s.nextProbe
            && after.recoveries == (if route.LocalRoute? && Failed(outcome) then 0 else s.recoveries)
  {
    hide AfterCall, Spaced, SameSwitches;
    CallShape(s, route, op, probe);
    var e := Called(route, probe, op, AfterCall(s, route, op, probe).1);
    CalledKeepsSwitches(s.log, e);
    SpacedAppend(s.log, e);
  }

  lemma {:induction false} FailoverTimed(s: State, t0: real, now: real)
    requires Timed(s, t0, now) && s.mode.Fallback? && s.selected.LocalRoute? && s.recoveries == 0
    ensures Timed(AfterFailover(s, now), t0, now)
  {
    hide Spaced;
    Append(s.log, FailedOver(now));
    SpacedAppend(s.log, FailedOver(now));
  }

  /** The return to the local route, after the second good probe. */
  lemma {:induction false} ReturnTimed(s: State, t0: real, now: real)
    requires s.mode.Fallback? && Spaced(s.log) && Failovers(s.log) == Returns(s.log) + 1
    requires LastFailover(s.log).Some? && now >= LastFailover(s.log).value + 60.0
    requires LastFailover(s.log).value >= t0 + 60.0 * Returns(s.log) as real
    ensures Timed(AfterReturn(s, now), t0, now)
  {
    hide Spaced;
    Append(s.log, Returned(now));
    SpacedAppend(s.log, Returned(now));
  }

  lemma {:induction false} ProbeTimed(s: State, t0: real, now: real, l: ClientOp)
    requires s.mode.Fallback? && s.selected.CloudRoute? && Timed(s, t0, now) && Counted(s)
    requires now >= s.nextProbe
    ensures Timed(AfterProbe(s, now, l).0, t0, now)
  {
    hide AfterCall, AfterReturn, Spaced, BadProbes, GoodProbes, LocalStreak, Backoff, LastFailover, Failovers, Returns;
    CallTimed(s, LocalRoute, l, true);
    BackoffDoubles(BadProbes(s.log));
    var (probed, outcome) := AfterCall(s, LocalRoute, l, true);
    if outcome.Success? && s.recoveries == 1 {
      ReturnTimed(probed.(recoveries := 2, nextProbe := now + PROBE_INTERVAL), t0, now);
    }
  }

  lemma {:induction false} LocalReadTimed(s: State, t0: real, now: real, l: ClientOp, c: ClientOp)
    requires s.mode.Fallback? && s.selected.LocalRoute? && Timed(s, t0, now)
    ensures Timed(AfterLocalRead(s, now, l, c).0, t0, now)
  {
    hide AfterCall, AfterProbe, Spaced, Failovers, Returns, LastFailover;
    CallTimed(s, LocalRoute, l, false);
    var (tried, outcome) := AfterCall(s, LocalRoute, l, false);
    if outcome.ConnError? {
      FailoverTimed(tried, t0, now);
      CallTimed(AfterFailover(tried, now), CloudRoute, c, false);
    }
  }

  lemma {:induction false} CloudReadTimed(s: State, t0: real, now: real, l: ClientOp, c: ClientOp)
    requires s.mode.Fallback? && s.selected.CloudRoute? && Timed(s, t0, now) && Counted(s)
    ensures Timed(AfterCloudRead(s, now, l, c).0, t0, now)
  {
    hide AfterCall, AfterProbe, Spaced, Failovers, Returns, LastFailover;
    var probed := s;
    if now >= s.nextProbe {
      ProbeTimed(s, t0, now, l);
      probed := AfterProbe(s, now, l).0;
    }
    CallTimed(probed, CloudRoute, c, false);
  }

  lemma {:induction false} WriteTimed(s: State, t0: real, now: real, op: ClientOp)
    requires Timed(s, t0, now) && Wired(s)
    ensures Timed(WriteStep(s, now, op).0, t0, now)
  {
    hide AfterCall, AfterProbe, Spaced, Failovers, Returns, LastFailover;
    CallTimed(s, s.selected, op, false);
    var (called, outcome) := AfterCall(s, s.selected, op, false);
    if outcome.ConnError? && s.mode.Fallback? && s.selected.LocalRoute? {
      FailoverTimed(called, t0, now);
    }
  }

  lemma {:induction false} StepTimed(s: State, t0: real, before: real, now: real, op: Op)
    requires Timed(s, t0, before) && before <= now && Wired(s) && Counted(s)
    requires op.Read? ==> op.now == now
    requires op.Write? ==> op.now == now
    ensures Timed(Step(s, op), t0, now)
  {
    match op
    case Read(_, l, c) =>
      if s.mode.Fallback? {
        if s.selected.LocalRoute? {
          LocalReadTimed(s, t0, now, l, c);
        } else {
          CloudReadTimed(s, t0, now, l, c);
        }
      } else {
        CallTimed(s, LocalRoute, l, false);
        CallTimed(s, CloudRoute, c, false);
      }
    case Write(_, w) => WriteTimed(s, t0, now, w);
    case Shutdown =>
    case Report(overall) =>
  }

  lemma {:induction false} RunTimed(mode: Mode, hasLocal: bool, hasRelay: bool, t0: real, ops: seq<Op>)
    requires PolicyValid(mode, hasLocal, hasRelay) && Timely(t0, ops)
    ensures Timed(Run(InitialState(mode, hasLocal, hasRelay), ops), t0, Clock(t0, ops))
  {
    if ops != [] {
      var front := ops[..|ops| - 1];
      RunTimed(mode, hasLocal, hasRelay, t0, front);
      RunAgrees(mode, hasLocal, hasRelay, front);
      CountersSummariseHistory(mode, hasLocal, hasRelay, front);
      StepTimed(Run(InitialState(mode, hasLocal, hasRelay), front), t0, Clock(t0, front), Clock(t0, ops),
                ops[|ops| - 1]);
    }
  }

  /** No flapping.  In every run every return to the local route is at least 60 seconds after
      the failover before it, switches alternate, and a run that lasts T seconds has at most
      2 * floor(T / 60) + 1 of them; the one-route modes have none. */
  lemma {:induction false} NoFlapping(mode: Mode, hasLocal: bool, hasRelay: bool, t0: real, ops: seq<Op>)
    requires PolicyValid(mode, hasLocal, hasRelay) && Timely(t0, ops)
    ensures var s := Run(InitialState(mode, hasLocal, hasRelay), ops);
            var length := Clock(t0, ops) - t0;
            && Spaced(s.log)
            && 0 <= Failovers(s.log) - Returns(s.log) <= 1
            && (Failovers(s.log) > Returns(s.log) <==> mode.Fallback? && s.selected.CloudRoute?)
            && Failovers(s.log) + Returns(s.log) <= 2 * (length / 60.0).Floor + 1
            && (s.mode.Fallback? && s.selected.CloudRoute? ==> s.recoveries <= 1)
            && (s.mode.Fallback? && s.selected.LocalRoute? ==> s.interval == PROBE_INTERVAL)
  {
    hide Run, Timed, Timely, Failovers, Returns, Step;
    RunTimed(mode, hasLocal, hasRelay, t0, ops);
    RunAgrees(mode, hasLocal, hasRelay, ops);
    TimedMeans(Run(InitialState(mode, hasLocal, hasRelay), ops), t0, Clock(t0, ops));
  }

  lemma {:induction false} TimedMeans(s: State, t0: real, now: real)
    requires Timed(s, t0, now) && Wired(s)
    ensures 0 <= Failovers(s.log) - Returns(s.log) <= 1
    ensures Failovers(s.log) > Returns(s.log) <==> s.mode.Fallback? && s.selected.CloudRoute?
    ensures Failovers(s.log) + Returns(s.log) <= 2 * ((now - t0) / 60.0).Floor + 1
    ensures s.mode.Fallback? && s.selected.CloudRoute? ==> s.recoveries <= 1
    ensures s.mode.Fallback? && s.selected.LocalRoute? ==> s.interval == PROBE_INTERVAL
  {
    ReturnsFit(Returns(s.log), now - t0);
  }

  lemma {:induction false} ReturnsFit(n: nat, length: real)
    requires length >= 60.0 * n as real
    ensures n <= (length / 60.0).Floor
  {
    assert length / 60.0 >= n as real;
  }

  // ----- what one read or write may call -----

  /** Between two histories exactly these client calls happened, in this order. */
  function Calls(log: seq<Event>): seq<Event>
  {
    if log == [] then []
    else Calls(log[..|log| - 1]) + if log[|log| - 1].Called? then [log[|log| - 1]] else []
  }

  lemma {:induction false} CallsAppend(log: seq<Event>, e: Event)
    ensures Calls(log + [e]) == if e.Called? then Calls(log) + [e] else Calls(log)
  {
    Append(log, e);
  }

  /** A write reaches exactly one route's client, once, and never the other one; an ambiguous
      failure may change the route for later operations but is not replayed there. */
  lemma {:induction false} WriteCallsOneRouteOnce(s: State, now: real, op: ClientOp)
    requires Wired(s)
    ensures var (after, answer) := WriteStep(s, now, op);
            var session := if s.selected.LocalRoute? then s.local else s.cloud;
            && Calls(after.log) == Calls(s.log) + [Called(s.selected, false, op, answer.outcome)]
            && answer == Answer(AfterOp(session, op).1, s.selected)
            && (if s.selected.LocalRoute?
                then after.local == AfterOp(s.local, op).0 && after.cloud == s.cloud
                else after.cloud == AfterOp(s.cloud, op).0 && after.local == s.local)
  {
    hide AfterCall, AfterOp, Calls;
    var (called, outcome) := AfterCall(s, s.selected, op, false);
    CallLogs(s, s.selected, op, false);
    CallSessions(s, s.selected, op, false);
    CallsAppend(called.log, FailedOver(now));
  }

  lemma {:induction false} CallSessions(s: State, route: Route, op: ClientOp, probe: bool)
    ensures var after := AfterCall(s, route, op, probe).0;
            if route.LocalRoute? then after.local == AfterOp(s.local, op).0 && after.cloud == s.cloud
            else after.cloud == AfterOp(s.cloud, op).0 && after.local == s.local
  {
    hide AfterOp;
  }

  /** The client calls one read makes, told from the outcomes alone: at most one for each
      route, the local one first; the cloud follows a local connection error at the failure
      threshold, or a probe that did not complete the recovery, and never follows an
      authentication failure. */
  function ReadCalls(s: State, now: real, l: ClientOp, c: ClientOp): seq<Event>
  {
    var local := AfterOp(s.local, l).1;
    var onLocal := Called(LocalRoute, s.selected.CloudRoute?, l, local);
    var onCloud := Called(CloudRoute, false, c, AfterOp(s.cloud, c).1);
    if s.selected.LocalRoute? then
      if s.mode.Fallback? && local.ConnError? && s.failures >= 1 then [onLocal, onCloud] else [onLocal]
    else if s.mode.CloudOnly? || now < s.nextProbe then [onCloud]
    else if local.ConnError? || (local.Success? && s.recoveries == 0) then [onLocal, onCloud]
    else [onLocal]
  }

  /** Exactly these calls were made, and the last of them gave the answer. */
  predicate MadeCalls(s: State, after: State, answer: Answer, calls: seq<Event>)
  {
    && Calls(after.log) == Calls(s.log) + calls
    && calls != []
    && calls[|calls| - 1].Called?
    && answer == Answer(calls[|calls| - 1].outcome, calls[|calls| - 1].route)
  }

  /** A read makes exactly those calls, and answers with the route and outcome of the last. */
  lemma {:induction false} ReadCallsEachRouteOnce(s: State, now: real, l: ClientOp, c: ClientOp)
    requires Wired(s)
    ensures var (after, answer) := ReadStep(s, now, l, c);
            MadeCalls(s, after, answer, ReadCalls(s, now, l, c))
  {
    match s.mode
    case LocalOnly => CallLogs(s, LocalRoute, l, false);
    case CloudOnly => CallLogs(s, CloudRoute, c, false);
    case Fallback =>
      if s.selected.LocalRoute? {
        LocalReadCalls(s, now, l, c);
      } else {
        CloudReadCalls(s, now, l, c);
      }
  }

  lemma {:induction false} CallLogs(s: State, route: Route, op: ClientOp, probe: bool)
    requires !route.NoRoute?
    ensures var (after, outcome) := AfterCall(s, route, op, probe);
            && outcome == AfterOp(if route.LocalRoute? then s.local else s.cloud, op).1
            && Calls(after.log) == Calls(s.log) + [Called(route, probe, op, outcome)]
            && (route.LocalRoute? ==> after.cloud == s.cloud)
            && (route.CloudRoute? ==> after.local == s.local)
  {
    hide AfterOp;
    CallsAppend(s.log, Called(route, probe, op, AfterCall(s, route, op, probe).1));
  }

  lemma {:induction false} LocalReadCalls(s: State, now: real, l: ClientOp, c: ClientOp)
    requires s.mode.Fallback? && s.selected.LocalRoute?
    ensures var (after, answer) := AfterLocalRead(s, now, l, c);
            MadeCalls(s, after, answer, ReadCalls(s, now, l, c))
  {
    hide AfterCall, AfterOp, Calls;
    var (tried, outcome) := AfterCall(s, LocalRoute, l, false);
    CallLogs(s, LocalRoute, l, false);
    FailureCounts(s, l);
    if outcome.ConnError? && tried.failures >= FAILURE_THRESHOLD {
      var failed := AfterFailover(tried, now);
      CallsAppend(tried.log, FailedOver(now));
      CallLogs(failed, CloudRoute, c, false);
      TwoCalls(s, failed, Called(LocalRoute, false, l, outcome), c);
    }
  }

  lemma {:induction false} FailureCounts(s: State, l: ClientOp)
    ensures var (tried, outcome) := AfterCall(s, LocalRoute, l, false);
            outcome.ConnError? ==> tried.failures == s.failures + 1
  {
    hide AfterOp;
  }

  lemma {:induction false} CloudReadCalls(s: State, now: real, l: ClientOp, c: ClientOp)
    requires s.mode.Fallback? && s.selected.CloudRoute?
    ensures var (after, answer) := AfterCloudRead(s, now, l, c);
            MadeCalls(s, after, answer, ReadCalls(s, now, l, c))
  {
    if now < s.nextProbe {
      CallLogs(s, CloudRoute, c, false);
    } else {
      var outcome := AfterOp(s.local, l).1;
      var (probed, ended) := AfterProbe(s, now, l);
      ProbeCalls(s, now, l);
      if ended.None? {
        CallLogs(probed, CloudRoute, c, false);
        TwoCalls(s, probed, Called(LocalRoute, true, l, outcome), c);
      }
    }
  }

  lemma {:induction false} ProbeCalls(s: State, now: real, l: ClientOp)
    ensures var (probed, ended) := AfterProbe(s, now, l);
            var outcome := AfterOp(s.local, l).1;
            && Calls(probed.log) == Calls(s.log) + [Called(LocalRoute, true, l, outcome)]
            && probed.cloud == s.cloud
            && (ended.None? <==> outcome.ConnError? || (outcome.Success? && s.recoveries == 0))
            && (ended.Some? ==> ended.value == Answer(outcome, LocalRoute))
  {
    hide AfterOp, Calls;
    CallLogs(s, LocalRoute, l, true);
    CallsAppend(AfterCall(s, LocalRoute, l, true).0.log, Returned(now));
  }

  lemma {:induction false} TwoCalls(s: State, middle: State, first: Event, c: ClientOp)
    requires Calls(middle.log) == Calls(s.log) + [first] && middle.cloud == s.cloud
    ensures var (after, answer) := Only(AfterCall(middle, CloudRoute, c, false), CloudRoute);
            MadeCalls(s, after, answer, [first, Called(CloudRoute, false, c, AfterOp(s.cloud, c).1)])
  {
    CallLogs(middle, CloudRoute, c, false);
    var second := Called(CloudRoute, false, c, AfterOp(s.cloud, c).1);
    assert Calls(s.log) + [first] + [second] == Calls(s.log) + [first, second];
  }

  // ----- one-route modes never touch the other route -----

  predicate OnlyRoute(log: seq<Event>, route: Route)
  {
    forall e :: e in log ==> e.Called? && e.route == route && !e.probe
  }

  /** Local-only and cloud-only runs contain no call on the other route, no probe and no
      switch, and leave the other client as it was made. */
  lemma {:induction false} OneRouteModes(mode: Mode, hasLocal: bool, hasRelay: bool, ops: seq<Op>)
    requires PolicyValid(mode, hasLocal, hasRelay) && !mode.Fallback?
    ensures var s := Run(InitialState(mode, hasLocal, hasRelay), ops);
            && OnlyRoute(s.log, s.selected)
            && (if mode.LocalOnly? then s.selected == LocalRoute && s.cloud == FRESH
                else s.selected == CloudRoute && s.local == FRESH)
  {
    if ops != [] {
      OneRouteModes(mode, hasLocal, hasRelay, ops[..|ops| - 1]);
      RunAgrees(mode, hasLocal, hasRelay, ops[..|ops| - 1]);
      StepOneRoute(Run(InitialState(mode, hasLocal, hasRelay), ops[..|ops| - 1]), ops[|ops| - 1]);
    }
  }

  lemma {:induction false} StepOneRoute(s: State, op: Op)
    requires Wired(s) && !s.mode.Fallback? && OnlyRoute(s.log, s.selected)
    ensures var after := Step(s, op);
            && OnlyRoute(after.log, after.selected) && after.selected == s.selected
            && (s.mode.LocalOnly? && s.cloud == FRESH ==> after.cloud == FRESH)
            && (s.mode.CloudOnly? && s.local == FRESH ==> after.local == FRESH)
  {
  }

  // ----- when the failure threshold fails over -----

  /** How the last local call that counted ended. */
  function LastLocal(log: seq<Event>): Option<Outcome>
  {
    if log == [] then None
    else match log[|log| - 1]
         case Called(LocalRoute, _, _, outcome) =>
           if outcome.OtherError? then LastLocal(log[..|log| - 1]) else Some(outcome)
         case _ => LastLocal(log[..|log| - 1])
  }

  /** In fallback mode the local route stays selected at the threshold only on account of an
      authentication failure, which counts but never fails over. */
  predicate ThresholdHolds(s: State)
  {
    s.mode.Fallback? && s.selected.LocalRoute? && s.failures >= FAILURE_THRESHOLD
    ==> LastLocal(s.log) == Some(AuthError)
  }

  lemma {:induction false} CallThreshold(s: State, route: Route, op: ClientOp, probe: bool)
    requires !route.NoRoute?
    ensures var (after, outcome) := AfterCall(s, route, op, probe);
            && after.selected == s.selected && after.mode == s.mode
            && (route.LocalRoute? ==>
                  && (LastLocal(after.log) == if outcome.OtherError? then LastLocal(s.log) else Some(outcome))
                  && (outcome.Success? ==> after.failures == 0)
                  && (outcome.OtherError? ==> after.failures == s.failures))
            && (!route.LocalRoute? ==> LastLocal(after.log) == LastLocal(s.log) && after.failures == s.failures)
  {
    hide AfterOp;
    Append(s.log, Called(route, probe, op, AfterCall(s, route, op, probe).1));
  }

  lemma {:induction false} CloudReadThreshold(s: State, now: real, l: ClientOp, c: ClientOp)
    requires s.mode.Fallback? && s.selected.CloudRoute?
    ensures ThresholdHolds(AfterCloudRead(s, now, l, c).0)
  {
    hide AfterCall, LastLocal;
    CallThreshold(s, LocalRoute, l, true);
    CallThreshold(if now >= s.nextProbe then AfterProbe(s, now, l).0 else s, CloudRoute, c, false);
  }

  lemma {:induction false} LocalReadThreshold(s: State, now: real, l: ClientOp, c: ClientOp)
    requires s.mode.Fallback? && s.selected.LocalRoute? && ThresholdHolds(s)
    ensures ThresholdHolds(AfterLocalRead(s, now, l, c).0)
  {
    hide AfterCall, LastLocal;
    CallThreshold(s, LocalRoute, l, false);
    CallThreshold(AfterFailover(AfterCall(s, LocalRoute, l, false).0, now), CloudRoute, c, false);
  }

  lemma {:induction false} WriteThreshold(s: State, now: real, w: ClientOp)
    requires Wired(s) && ThresholdHolds(s)
    ensures ThresholdHolds(WriteStep(s, now, w).0)
  {
    hide AfterCall, LastLocal;
    CallThreshold(s, s.selected, w, false);
  }

  lemma {:induction false} StepThreshold(s: State, op: Op)
    requires Wired(s) && ThresholdHolds(s)
    ensures ThresholdHolds(Step(s, op))
  {
    hide AfterCall, AfterLocalRead, AfterCloudRead, WriteStep, LastLocal;
    match op
    case Read(now, l, c) =>
      if !s.mode.Fallback? {
        CallThreshold(s, s.selected, if s.mode.LocalOnly? then l else c, false);
      } else if s.selected.LocalRoute? {
        LocalReadThreshold(s, now, l, c);
      } else {
        CloudReadThreshold(s, now, l, c);
      }
    case Write(now, w) => WriteThreshold(s, now, w);
    case Shutdown =>
    case Report(overall) =>
  }

  lemma {:induction false} ThresholdMissedOnlyByAuth(mode: Mode, hasLocal: bool, hasRelay: bool, ops: seq<Op>)
    requires PolicyValid(mode, hasLocal, hasRelay)
    ensures ThresholdHolds(Run(InitialState(mode, hasLocal, hasRelay), ops))
  {
    if ops != [] {
      ThresholdMissedOnlyByAuth(mode, hasLocal, hasRelay, ops[..|ops| - 1]);
      RunAgrees(mode, hasLocal, hasRelay, ops[..|ops| - 1]);
      StepThreshold(Run(InitialState(mode, hasLocal, hasRelay), ops[..|ops| - 1]), ops[|ops| - 1]);
    }
  }

  /** In fallback mode a selected local route has fewer failures than the threshold. */
  predicate Below(s: State)
  {
    s.mode.Fallback? && s.selected.LocalRoute? ==> s.failures < FAILURE_THRESHOLD
  }

  /** How the local call of an operation ends while the local route is selected. */
  function LocalOutcome(s: State, op: Op): Option<Outcome>
  {
    match op
    case Read(_, l, _) => Some(AfterOp(s.local, l).1)
    case Write(_, w) => Some(AfterOp(s.local, w).1)
    case _ => None
  }

  /** The exact step that leaves the local route selected at the threshold: one failure is
      counted, and the local call fails to authenticate. */
  lemma {:induction false} ThresholdReachedIff(s: State, op: Op)
    requires Wired(s) && Below(s)
    ensures !Below(Step(s, op))
            <==> s.mode.Fallback? && s.selected.LocalRoute? && s.failures == 1
                 && LocalOutcome(s, op) == Some(AuthError)
  {
    hide AfterOp;
  }

  /** And the exact step that ends it: the local call succeeds, which resets the count, or
      fails on a connection error, which fails over. */
  lemma {:induction false} ThresholdLeftIff(s: State, op: Op)
    requires Wired(s) && !Below(s)
    ensures Below(Step(s, op)) <==> LocalOutcome(s, op) in {Some(Success), Some(ConnError)}
  {
    hide AfterOp;
  }

  predicate LocalAuthFailed(log: seq<Event>)
  {
    exists e :: e in log && e.Called? && e.route.LocalRoute? && e.outcome.AuthError?
  }

  lemma {:induction false} LastLocalHappened(log: seq<Event>)
    requires LastLocal(log) == Some(AuthError)
    ensures LocalAuthFailed(log)
  {
    var front, e := log[..|log| - 1], log[|log| - 1];
    if LastLocal(front) == Some(AuthError) && !(e.Called? && e.route.LocalRoute? && e.outcome.AuthError?) {
      LastLocalHappened(front);
    }
  }

  /** A run without local authentication failures never keeps the local route selected at the
      threshold. */
  lemma {:induction false} BelowWithoutAuthFailures(mode: Mode, hasLocal: bool, hasRelay: bool, ops: seq<Op>)
    requires PolicyValid(mode, hasLocal, hasRelay)
    requires !LocalAuthFailed(Run(InitialState(mode, hasLocal, hasRelay), ops).log)
    ensures Below(Run(InitialState(mode, hasLocal, hasRelay), ops))
  {
    hide Run, LocalAuthFailed, LastLocal;
    var s := Run(InitialState(mode, hasLocal, hasRelay), ops);
    ThresholdMissedOnlyByAuth(mode, hasLocal, hasRelay, ops);
    if !Below(s) {
      LastLocalHappened(s.log);
    }
  }

  /** Two refused reads reach the threshold and leave the local route selected. */
  lemma {:induction false} AuthFailuresReachThreshold()
    ensures var refused := Link(true, OpenOk, OpenOk, OpenOk, Refused);
            var read := ReadOp(refused, ReadEnv([], ReadOk), refused, ReadEnv([], ReadOk));
            var s := Run(InitialState(Fallback, true, true), [Read(0.0, read, read), Read(1.0, read, read)]);
            s.selected == LocalRoute && s.failures == FAILURE_THRESHOLD && s.cloud == FRESH
  {
    var refused := Link(true, OpenOk, OpenOk, OpenOk, Refused);
    var read := ReadOp(refused, ReadEnv([], ReadOk), refused, ReadEnv([], ReadOk));
    var op0, op1 := Read(0.0, read, read), Read(1.0, read, read);
    var s0 := InitialState(Fallback, true, true);
    var s1 := Step(s0, op0);
    assert AfterOpen(FRESH, refused, 0) == (AfterAttach(FRESH), Success);
    assert s1.selected == LocalRoute && s1.failures == 1 && s1.cloud == FRESH && !s1.local.hasKey;
    var closed := Client.AfterClose(s1.local);
    assert AfterOpen(closed, refused, 0) == (AfterAttach(closed), Success);
    assert [op0, op1][..1] == [op0];
    assert [op0][..0] == [];
    assert Run(s0, [op0]) == s1;
  }

  // ----- closing -----

  /** Closing the router closes both its clients and forgets their sessions, and nothing else. */
  lemma {:induction false} ShutdownCloses(mode: Mode, hasLocal: bool, hasRelay: bool, ops: seq<Op>)
    requires PolicyValid(mode, hasLocal, hasRelay)
    ensures var s := Run(InitialState(mode, hasLocal, hasRelay), ops);
            var after := Step(s, Shutdown);
            && (hasLocal ==> after.local.transport.None? && !after.local.hasKey)
            && (hasRelay ==> after.cloud.transport.None? && !after.cloud.hasKey)
            && CR.OpenCount(after.local.wire) == (if hasLocal then 0 else CR.OpenCount(s.local.wire))
            && CR.OpenCount(after.cloud.wire) == (if hasRelay then 0 else CR.OpenCount(s.cloud.wire))
            && after.(local := s.local, cloud := s.cloud) == s
  {
    hide Run, CR.OpenCount, CR.Watch;
    var s := Run(InitialState(mode, hasLocal, hasRelay), ops);
    RunAgrees(mode, hasLocal, hasRelay, ops);
    BothWiresStayLegal(mode, hasLocal, hasRelay, ops);
    CR.CloseKeeps(s.local);
    CR.CloseKeeps(s.cloud);
    CR.OpenCountIsLine(Client.AfterClose(s.local).wire);
    CR.OpenCountIsLine(Client.AfterClose(s.cloud).wire);
  }

  // ----- commands, end to end -----

  /** Command frames handed to a transport so far, over both routes. */
  function CommandsSent(s: State): nat
  {
    CR.Count(s.local.wire, Command) + CR.Count(s.cloud.wire, Command)
  }

  function Writes(ops: seq<Op>): nat
  {
    if ops == [] then 0 else Writes(ops[..|ops| - 1]) + if ops[|ops| - 1].Write? then 1 else 0
  }

  /** A client call of the matching kind hands over at most one command frame, none for a read. */
  lemma {:induction false} CallCommands(s: State, route: Route, op: ClientOp, probe: bool)
    requires !route.NoRoute?
    ensures var (after, outcome) := AfterCall(s, route, op, probe);
            && (op.ReadOp? ==> CommandsSent(after) == CommandsSent(s))
            && (op.CommandOp? ==> 0 <= CommandsSent(after) - CommandsSent(s) <= 1)
            && (op.CommandOp? && outcome.Success? ==> CommandsSent(after) == CommandsSent(s) + 1)
  {
    var session := if route.LocalRoute? then s.local else s.cloud;
    match op
    case ReadOp(l0, r0, l1, r1) => CR.ReadRunsAtMostTwice(session, l0, r0, l1, r1);
    case CommandOp(l, command) => CR.CommandAtMostOnce(session, l, command);
    case CloseOp =>
  }

  /** One router write hands at most one command frame to any transport of either route,
      and exactly one when it reports success. */
  lemma {:induction false} WriteSendsAtMostOnce(s: State, now: real, op: ClientOp)
    requires Wired(s) && op.CommandOp?
    ensures var (after, answer) := WriteStep(s, now, op);
            && 0 <= CommandsSent(after) - CommandsSent(s) <= 1
            && (answer.outcome.Success? ==> CommandsSent(after) == CommandsSent(s) + 1)
  {
    CallCommands(s, s.selected, op, false);
  }

  lemma {:induction false} ReadSendsNoCommand(s: State, now: real, l: ClientOp, c: ClientOp)
    requires Wired(s) && l.ReadOp? && c.ReadOp?
    ensures CommandsSent(ReadStep(s, now, l, c).0) == CommandsSent(s)
  {
    if s.selected.LocalRoute? {
      CallCommands(s, LocalRoute, l, false);
      CallCommands(AfterFailover(AfterCall(s, LocalRoute, l, false).0, now), CloudRoute, c, false);
    } else {
      CallCommands(s, LocalRoute, l, true);
      CallCommands(s, CloudRoute, c, false);
      CallCommands(AfterProbe(s, now, l).0, CloudRoute, c, false);
    }
  }

  /** Over any run, no more command frames reach a transport than commands were asked for. */
  lemma {:induction false} CommandsNeverMultiply(mode: Mode, hasLocal: bool, hasRelay: bool, t0: real, ops: seq<Op>)
    requires PolicyValid(mode, hasLocal, hasRelay) && Timely(t0, ops)
    ensures CommandsSent(Run(InitialState(mode, hasLocal, hasRelay), ops)) <= Writes(ops)
  {
    if ops != [] {
      var front := ops[..|ops| - 1];
      var s := Run(InitialState(mode, hasLocal, hasRelay), front);
      CommandsNeverMultiply(mode, hasLocal, hasRelay, t0, front);
      RunAgrees(mode, hasLocal, hasRelay, front);
      match ops[|ops| - 1]
      case Read(now, l, c) => ReadSendsNoCommand(s, now, l, c);
      case Write(now, w) => WriteSendsAtMostOnce(s, now, w);
      case Shutdown =>
        CR.CloseCounts(s.local, Command);
        CR.CloseCounts(s.cloud, Command);
      case Report(overall) =>
    }
  }

  /** The router only ever drives its clients through whole operations, so both wires stay legal. */
  lemma {:induction false} BothWiresStayLegal(mode: Mode, hasLocal: bool, hasRelay: bool, ops: seq<Op>)
    requires PolicyValid(mode, hasLocal, hasRelay)
    ensures var s := Run(InitialState(mode, hasLocal, hasRelay), ops);
            CR.Inv(s.local) && CR.Inv(s.cloud)
  {
    if ops == [] {
    } else {
      BothWiresStayLegal(mode, hasLocal, hasRelay, ops[..|ops| - 1]);
      RunAgrees(mode, hasLocal, hasRelay, ops[..|ops| - 1]);
      StepLegal(Run(InitialState(mode, hasLocal, hasRelay), ops[..|ops| - 1]), ops[|ops| - 1]);
    }
  }

  lemma {:induction false} CallLegal(s: State, route: Route, op: ClientOp, probe: bool)
    requires CR.Inv(s.local) && CR.Inv(s.cloud)
    ensures var after := AfterCall(s, route, op, probe).0;
            CR.Inv(after.local) && CR.Inv(after.cloud)
  {
    CR.OpKeeps(if route.LocalRoute? then s.local else s.cloud, op);
  }

  lemma {:induction false} StepLegal(s: State, op: Op)
    requires Wired(s) && CR.Inv(s.local) && CR.Inv(s.cloud)
    ensures CR.Inv(Step(s, op).local) && CR.Inv(Step(s, op).cloud)
  {
    hide AfterCall, CR.Inv;
    match op
    case Read(now, l, c) =>
      CallLegal(s, CloudRoute, c, false);
      if s.selected.LocalRoute? {
        CallLegal(s, LocalRoute, l, false);
        CallLegal(AfterFailover(AfterCall(s, LocalRoute, l, false).0, now), CloudRoute, c, false);
      } else {
        CallLegal(s, LocalRoute, l, true);
        CallLegal(AfterProbe(s, now, l).0, CloudRoute, c, false);
      }
    case Write(now, w) => CallLegal(s, s.selected, w, false);
    case Shutdown =>
      CR.CloseKeeps(s.local);
      CR.CloseKeeps(s.cloud);
    case Report(overall) =>
  }
}
