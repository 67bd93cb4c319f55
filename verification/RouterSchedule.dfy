/** When the router probes the local route again, told by the history and the clock. */
module RouterSchedule {
  import opened Prelude
  import opened Connection
  import opened Client
  import opened Router
  import opened RouterRuns

  /** The clock reading of an operation. */
  function At(op: Op): real
  {
    match op
    case Read(now, _, _) => now
    case Write(now, _) => now
    case _ => 0.0
  }

  predicate Switched(news: seq<Event>) { exists i :: 0 <= i < |news| && news[i].FailedOver? }

  /** A local probe was made, and ended in `outcome`. */
  predicate Probed(news: seq<Event>, outcome: Outcome)
  {
    exists i :: 0 <= i < |news| && news[i].Called? && news[i].route.LocalRoute? && news[i].probe
                && news[i].outcome == outcome
  }

  /** When the next probe is due after a step that happened at `at`, added `news` to the history
      and made it `log`: 30 seconds after a failover, the doubled and capped back-off after a probe
      that failed on a connection error, 30 seconds after a good one, and as before otherwise. */
  function Reschedule(due: real, news: seq<Event>, at: real, log: seq<Event>): real
  {
    if Switched(news) then at + 30.0
    else if Probed(news, ConnError) then at + Backoff(BadProbes(log))
    else if Probed(news, Success) then at + 30.0
    else due
  }

  /** When the next probe is due, told by the whole run. */
  function Due(ops: seq<Op>): real
  {
    if ops == [] then 0.0
    else
      var before := FallbackRun(ops[..|ops| - 1]).log;
      var after := FallbackRun(ops).log;
      if |after| < |before| then 0.0
      else Reschedule(Due(ops[..|ops| - 1]), after[|before|..], At(ops[|ops| - 1]), after)
  }

  function FallbackRun(ops: seq<Op>): State { Run(InitialState(Fallback, true, true), ops) }

  /** What a step needs and keeps. */
  predicate OnTime(s: State)
  {
    && s.mode.Fallback? && Wired(s) && Counted(s)
    && (s.selected.LocalRoute? ==> BadProbes(s.log) == 0)
  }

  /** One step reschedules as the history tells. */
  ghost predicate Reschedules(s: State, after: State, at: real)
  {
    && |s.log| <= |after.log| && after.log[..|s.log|] == s.log
    && after.nextProbe == Reschedule(s.nextProbe, after.log[|s.log|..], at, after.log)
    && (after.selected.LocalRoute? ==> BadProbes(after.log) == 0)
  }

  /** A history that grew by the given events. */
  lemma {:induction false} Grown(before: seq<Event>, news: seq<Event>)
    ensures (before + news)[..|before|] == before && (before + news)[|before|..] == news
  {
  }

  lemma {:induction false} NoneOf(e: Event, outcome: Outcome)
    ensures Switched([e]) <==> e.FailedOver?
    ensures Probed([e], outcome) <==> e.Called? && e.route.LocalRoute? && e.probe && e.outcome == outcome
  {
    assert [e][0] == e;
  }

  lemma {:induction false} EitherOf(a: seq<Event>, b: seq<Event>, outcome: Outcome)
    ensures Switched(a + b) <==> Switched(a) || Switched(b)
    ensures Probed(a + b, outcome) <==> Probed(a, outcome) || Probed(b, outcome)
  {
    assert forall i :: 0 <= i < |a| ==> (a + b)[i] == a[i];
    assert forall i :: 0 <= i < |b| ==> (a + b)[|a| + i] == b[i];
    assert forall i :: |a| <= i < |a + b| ==> (a + b)[i] == b[i - |a|];
  }

  /** What a call adds, and leaves alone. */
  lemma {:induction false} CallNews(s: State, route: Route, op: ClientOp, probe: bool)
    requires !route.NoRoute?
    ensures var (after, outcome) := AfterCall(s, route, op, probe);
            && after.log == s.log + [Called(route, probe, op, outcome)]
            && after.nextProbe == s.nextProbe && after.selected == s.selected && after.interval == s.interval
            && (!(route.LocalRoute? && probe) ==> BadProbes(after.log) == BadProbes(s.log))
            && (route.LocalRoute? && outcome.ConnError? && !probe ==> after.failures == s.failures + 1)
  {
    hide AfterOp;
    Append(s.log, Called(route, probe, op, AfterCall(s, route, op, probe).1));
  }

  lemma {:induction false} PlainCall(s: State, route: Route, op: ClientOp, at: real)
    requires OnTime(s) && !route.NoRoute?
    ensures Reschedules(s, AfterCall(s, route, op, false).0, at)
  {
    hide AfterCall, BadProbes, Switched, Probed, Counted;
    CallNews(s, route, op, false);
    var e := Called(route, false, op, AfterCall(s, route, op, false).1);
    Grown(s.log, [e]);
    NoneOf(e, ConnError);
    NoneOf(e, Success);
  }

  /** The failover and the calls around it. */
  lemma {:induction false} FailoverNews(s: State, op: ClientOp, now: real)
    requires OnTime(s) && s.selected.LocalRoute?
    ensures var failed := AfterFailover(AfterCall(s, LocalRoute, op, false).0, now);
            && failed.nextProbe == now + 30.0 && failed.selected.CloudRoute?
            && failed.log == s.log + [Called(LocalRoute, false, op, AfterCall(s, LocalRoute, op, false).1),
                                      FailedOver(now)]
  {
    assert Backoff(0) == 30.0;
    hide AfterCall, BadProbes, Backoff;
    CallNews(s, LocalRoute, op, false);
  }

  lemma {:induction false} SwitchedSomewhere(news: seq<Event>, now: real)
    requires FailedOver(now) in news
    ensures Switched(news)
  {
  }

  lemma {:induction false} LocalReadOnTime(s: State, now: real, l: ClientOp, c: ClientOp)
    requires OnTime(s) && s.selected.LocalRoute?
    ensures Reschedules(s, AfterLocalRead(s, now, l, c).0, now)
  {
    hide AfterCall, BadProbes, Switched, Probed;
    var (tried, outcome) := AfterCall(s, LocalRoute, l, false);
    PlainCall(s, LocalRoute, l, now);
    FailoverNews(s, l, now);
    if outcome.ConnError? && tried.failures >= FAILURE_THRESHOLD {
      var failed := AfterFailover(tried, now);
      CallNews(failed, CloudRoute, c, false);
      var answered := AfterCall(failed, CloudRoute, c, false);
      var news := [Called(LocalRoute, false, l, outcome), FailedOver(now), Called(CloudRoute, false, c, answered.1)];
      assert answered.0.log == s.log + news;
      Grown(s.log, news);
      SwitchedSomewhere(news, now);
    }
  }

  lemma {:induction false} WriteOnTime(s: State, now: real, w: ClientOp)
    requires OnTime(s)
    ensures Reschedules(s, WriteStep(s, now, w).0, now)
  {
    hide AfterCall, BadProbes, Switched, Probed;
    var (called, outcome) := AfterCall(s, s.selected, w, false);
    PlainCall(s, s.selected, w, now);
    if outcome.ConnError? && s.selected.LocalRoute? && called.failures >= FAILURE_THRESHOLD {
      FailoverNews(s, w, now);
      var news := [Called(LocalRoute, false, w, outcome), FailedOver(now)];
      Grown(s.log, news);
      SwitchedSomewhere(news, now);
    }
  }

  /** The probe and what it schedules. */
  lemma {:induction false} ProbeOnTime(s: State, now: real, l: ClientOp)
    requires OnTime(s) && s.selected.CloudRoute?
    ensures Reschedules(s, AfterProbe(s, now, l).0, now)
    ensures !Switched(AfterProbe(s, now, l).0.log[|s.log|..])
  {
    hide AfterCall, BadProbes, Switched, Probed, Backoff, AfterOp;
    ProbeCounts(s, now, l);
    CallNews(s, LocalRoute, l, true);
    var (probed, outcome) := AfterCall(s, LocalRoute, l, true);
    var e := Called(LocalRoute, true, l, outcome);
    NoneOf(e, ConnError);
    NoneOf(e, Success);
    NoneOf(Returned(now), ConnError);
    NoneOf(Returned(now), Success);
    EitherOf([e], [Returned(now)], ConnError);
    EitherOf([e], [Returned(now)], Success);
    Grown(s.log, [e]);
    Grown(s.log, [e] + [Returned(now)]);
    assert (s.log + [e]) + [Returned(now)] == s.log + ([e] + [Returned(now)]);
    SwitchCounts(probed, Returned(now));
  }

  lemma {:induction false} CloudReadOnTime(s: State, now: real, l: ClientOp, c: ClientOp)
    requires OnTime(s) && s.selected.CloudRoute?
    ensures Reschedules(s, AfterCloudRead(s, now, l, c).0, now)
  {
    hide AfterCall, AfterProbe, BadProbes, Switched, Probed, Counted, Backoff;
    ProbeOnTime(s, now, l);
    PlainCall(s, CloudRoute, c, now);
    var (probed, ended) := if now >= s.nextProbe then AfterProbe(s, now, l) else (s, None);
    if now >= s.nextProbe && ended.None? {
      CallNews(probed, CloudRoute, c, false);
      var e := Called(CloudRoute, false, c, AfterCall(probed, CloudRoute, c, false).1);
      var news := probed.log[|s.log|..];
      assert probed.log == s.log + news;
      NoneOf(e, ConnError);
      NoneOf(e, Success);
      EitherOf(news, [e], ConnError);
      EitherOf(news, [e], Success);
      Grown(s.log, news + [e]);
      assert probed.log + [e] == s.log + (news + [e]);
      ProbeStaysOnCloud(s, now, l);
    }
  }

  lemma {:induction false} ProbeStaysOnCloud(s: State, now: real, l: ClientOp)
    requires s.selected.CloudRoute? && AfterProbe(s, now, l).1.None?
    ensures AfterProbe(s, now, l).0.selected.CloudRoute?
  {
    hide AfterOp;
  }

  lemma {:induction false} StepOnTime(s: State, op: Op)
    requires OnTime(s)
    ensures Reschedules(s, Step(s, op), At(op)) && OnTime(Step(s, op))
  {
    StepWired(s, op);
    hide AfterLocalRead, AfterCloudRead, WriteStep, Counted, BadProbes, Switched, Probed, Wired;
    StepCounts(s, op);
    match op
    case Read(now, l, c) =>
      if s.selected.LocalRoute? {
        LocalReadOnTime(s, now, l, c);
      } else {
        CloudReadOnTime(s, now, l, c);
      }
    case Write(now, w) => WriteOnTime(s, now, w);
    case Shutdown => NothingNew(s);
    case Report(overall) => NothingNew(s);
  }

  lemma {:induction false} CallWired(s: State, route: Route, op: ClientOp, probe: bool)
    requires Wired(s) && !route.NoRoute?
    ensures var after := AfterCall(s, route, op, probe).0;
            Wired(after) && after.mode == s.mode && after.selected == s.selected
  {
    hide AfterOp;
  }

  lemma {:induction false} StepWired(s: State, op: Op)
    requires Wired(s)
    ensures Wired(Step(s, op)) && Step(s, op).mode == s.mode
  {
    hide AfterCall;
    match op
    case Read(now, l, c) =>
      CallWired(s, LocalRoute, l, false);
      CallWired(s, LocalRoute, l, true);
      CallWired(s, CloudRoute, c, false);
      if s.mode.Fallback? && s.selected.LocalRoute? {
        CallWired(AfterFailover(AfterCall(s, LocalRoute, l, false).0, now), CloudRoute, c, false);
      } else if s.mode.Fallback? {
        CallWired(AfterProbe(s, now, l).0, CloudRoute, c, false);
      }
    case Write(now, w) => CallWired(s, s.selected, w, false);
    case Shutdown =>
    case Report(overall) =>
  }

  lemma {:induction false} NothingNew(s: State)
    ensures !Switched(s.log[|s.log|..]) && !Probed(s.log[|s.log|..], ConnError) && !Probed(s.log[|s.log|..], Success)
  {
  }

  /** Over every run in fallback mode the router's schedule is the one the history tells. */
  lemma {:induction false} RunOnTime(ops: seq<Op>)
    ensures FallbackRun(ops).nextProbe == Due(ops) && OnTime(FallbackRun(ops))
  {
    if ops == [] {
      assert Backoff(0) == PROBE_INTERVAL;
    } else {
      hide OnTime, Step, Reschedule;
      RunOnTime(ops[..|ops| - 1]);
      StepOnTime(FallbackRun(ops[..|ops| - 1]), ops[|ops| - 1]);
    }
  }

  /** After any run that selects the cloud, a read at `t` calls the local route first if and only
      if `t` has reached the time told by the history; its first call is on the cloud otherwise. */
  lemma {:induction false} ProbesOnSchedule(ops: seq<Op>, t: real, l: ClientOp, c: ClientOp) returns (first: Event)
    requires FallbackRun(ops).selected.CloudRoute?
    ensures var s := FallbackRun(ops);
            var calls := Calls(ReadStep(s, t, l, c).0.log);
            && |Calls(s.log)| < |calls| && calls[..|Calls(s.log)|] == Calls(s.log) && calls[|Calls(s.log)|] == first
    ensures first.Called?
    ensures if t >= Due(ops) then first.route == LocalRoute && first.probe else first.route == CloudRoute
  {
    hide FallbackRun, Counted, Calls, ReadStep, AfterOp, Due;
    var s := FallbackRun(ops);
    RunOnTime(ops);
    ReadCallsEachRouteOnce(s, t, l, c);
    first := ReadCalls(s, t, l, c)[0];
  }

  /** A read at `now` makes a probe that fails on a connection error: until the doubled and capped
      back-off is over, reads stay away from the local route. */
  lemma {:induction false} BadProbeBacksOff(ops: seq<Op>, now: real, l: ClientOp, c: ClientOp)
    requires FallbackRun(ops).selected.CloudRoute? && now >= Due(ops)
    requires AfterOp(FallbackRun(ops).local, l).1.ConnError?
    ensures var more := ops + [Read(now, l, c)];
            && Due(more) == now + Backoff(BadProbes(FallbackRun(more).log))
            && BadProbes(FallbackRun(more).log) == BadProbes(FallbackRun(ops).log) + 1
            && FallbackRun(more).selected.CloudRoute?
  {
    hide AfterOp, BadProbes, Backoff, Due;
    var s := FallbackRun(ops);
    RunOnTime(ops);
    RunOnTime(ops + [Read(now, l, c)]);
    assert (ops + [Read(now, l, c)])[..|ops|] == ops;
    BadProbeStep(s, now, l, c);
  }

  lemma {:induction false} BadProbeStep(s: State, now: real, l: ClientOp, c: ClientOp)
    requires OnTime(s) && s.selected.CloudRoute? && now >= s.nextProbe && AfterOp(s.local, l).1.ConnError?
    ensures var after := Step(s, Read(now, l, c));
            && after.nextProbe == now + Backoff(BadProbes(after.log))
            && BadProbes(after.log) == BadProbes(s.log) + 1 && after.selected.CloudRoute?
  {
    hide AfterOp, Backoff;
    ProbeCounts(s, now, l);
    CallCounts(s, LocalRoute, l, true);
    CallNews(AfterProbe(s, now, l).0, CloudRoute, c, false);
    hide AfterCall, BadProbes;
    CallLogs(s, LocalRoute, l, true);
  }
}
