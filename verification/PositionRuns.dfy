/** What the displayed position promises: how the animation moves, and what holds over every
    sequence of statuses, events, commands, failures and ticks. */
module PositionRuns {
  import opened Prelude
  import opened Position

  // ----- one animation -----

  /** Where the animation stops by itself. */
  function Goal(action: Action, anchor: real, target: Option<real>): real
  {
    match target
    case Some(t) => if action.Open? then Max(anchor, t) else Min(anchor, t)
    case None =>
      if action.Open? then (if anchor >= 100.0 then 100.0 else Max(99.0, anchor))
      else (if anchor <= 0.0 then 0.0 else Min(1.0, anchor))
  }

  /** A sound animation: positions are percentages and the speed is positive. */
  predicate Sound(anchor: real, speed: real, target: Option<real>)
  {
    Percent(anchor) && speed > 0.0 && OptionalPercent(target)
  }

  /** The straight line from the anchor that has gone `way` percent, and ends at the goal. */
  function Line(action: Action, anchor: real, way: real, goal: real): real
  {
    if action.Open? then Min(anchor + way, goal) else Max(anchor - way, goal)
  }

  /** The goal is a percentage ahead of the anchor and not past the target. */
  lemma GoalAhead(action: Action, anchor: real, target: Option<real>)
    requires Percent(anchor) && OptionalPercent(target)
    ensures Percent(Goal(action, anchor, target))
    ensures if action.Open? then anchor <= Goal(action, anchor, target) else Goal(action, anchor, target) <= anchor
    ensures target.Some? ==> Goal(action, anchor, target)
                             == if action.Open? then Max(anchor, target.value) else Min(anchor, target.value)
  {
  }

  /** The animation is a straight line from the anchor that ends at its goal. */
  lemma AnimatedIsLine(action: Action, anchor: real, speed: real, target: Option<real>, elapsed: real)
    requires Sound(anchor, speed, target) && elapsed >= 0.0
    ensures Animated(action, anchor, speed, target, elapsed)
            == Line(action, anchor, speed * elapsed, Goal(action, anchor, target))
  {
    ProductNonNegative(speed, elapsed);
    AnimatedAlong(action, anchor, speed, target, elapsed, speed * elapsed);
  }

  lemma AnimatedAlong(action: Action, anchor: real, speed: real, target: Option<real>, elapsed: real, way: real)
    requires Percent(anchor) && OptionalPercent(target) && way == speed * elapsed && way >= 0.0
    ensures Animated(action, anchor, speed, target, elapsed) == Line(action, anchor, way, Goal(action, anchor, target))
  {
  }

  lemma WayGrows(speed: real, e1: real, e2: real)
    requires speed > 0.0 && 0.0 <= e1 <= e2
    ensures 0.0 <= speed * e1 <= speed * e2
  {
    ProductNonNegative(speed, e1);
    ProductNonNegative(speed, e2 - e1);
    Distribute(e2, e1, speed);
    assert speed * e1 == e1 * speed && speed * e2 == e2 * speed;
    assert speed * (e2 - e1) == (e2 - e1) * speed;
  }

  lemma LineMonotone(action: Action, anchor: real, goal: real, w1: real, w2: real)
    requires Percent(anchor) && Percent(goal) && 0.0 <= w1 <= w2
    requires if action.Open? then anchor <= goal else goal <= anchor
    ensures var v1, v2 := Line(action, anchor, w1, goal), Line(action, anchor, w2, goal);
            && Percent(v1) && Percent(v2)
            && (if action.Open? then anchor <= v1 <= v2 <= goal else goal <= v2 <= v1 <= anchor)
  {
  }

  /** It moves only in the commanded direction as time passes, never behind its anchor, never
      past the target, and stays a percentage. */
  lemma AnimationMonotone(action: Action, anchor: real, speed: real, target: Option<real>, e1: real, e2: real)
    requires Sound(anchor, speed, target) && 0.0 <= e1 <= e2
    ensures var v1 := Animated(action, anchor, speed, target, e1);
            var v2 := Animated(action, anchor, speed, target, e2);
            && Percent(v1) && Percent(v2)
            && (if action.Open? then anchor <= v1 <= v2 else v2 <= v1 <= anchor)
            && (target.Some? ==>
                  if action.Open? then v2 <= Max(anchor, target.value) else v2 >= Min(anchor, target.value))
  {
    hide Animated, Goal, Line;
    AnimatedIsLine(action, anchor, speed, target, e1);
    AnimatedIsLine(action, anchor, speed, target, e2);
    WayGrows(speed, e1, e2);
    GoalAhead(action, anchor, target);
    LineMonotone(action, anchor, Goal(action, anchor, target), speed * e1, speed * e2);
  }

  /** Without a target the animation itself never reaches an endpoint the gate was not at. */
  lemma NoBareEndpoint(action: Action, anchor: real, speed: real, elapsed: real)
    requires Sound(anchor, speed, None) && elapsed >= 0.0
    ensures var v := Animated(action, anchor, speed, None, elapsed);
            if action.Open? then v == 100.0 <==> anchor == 100.0 else v == 0.0 <==> anchor == 0.0
  {
    AnimationMonotone(action, anchor, speed, None, 0.0, elapsed);
    AnimatedIsLine(action, anchor, speed, None, elapsed);
  }

  lemma Round1Full(v: real)
    requires Percent(v)
    ensures Round1(v) == 100.0 <==> v >= 99.95
    ensures Round1(v) == 0.0 <==> v <= 0.05
  {
    var n := RoundHalfEven(v * 10.0);
    assert Round1(v) == 100.0 <==> n == 1000;
    assert Round1(v) == 0.0 <==> n == 0;
  }

  /** The displayed value is rounded to one decimal, so it does show an endpoint the gate was
      not at: exactly when the anchor was within 0.05 of it. */
  lemma EndpointShownIff(action: Action, anchor: real, speed: real, elapsed: real)
    requires Sound(anchor, speed, None) && elapsed >= 0.0
    ensures var shown := Round1(Animated(action, anchor, speed, None, elapsed));
            if action.Open? then shown == 100.0 <==> anchor >= 99.95 else shown == 0.0 <==> anchor <= 0.05
  {
    AnimationMonotone(action, anchor, speed, None, 0.0, elapsed);
    AnimatedIsLine(action, anchor, speed, None, elapsed);
    Round1Full(Animated(action, anchor, speed, None, elapsed));
  }

  function Mirrored(target: Option<real>): Option<real>
  {
    if target.None? then None else Some(100.0 - target.value)
  }

  /** Closing is the mirror image of opening. */
  lemma ClosingMirrorsOpening(anchor: real, speed: real, target: Option<real>, elapsed: real)
    requires Sound(anchor, speed, target) && elapsed >= 0.0
    ensures Animated(Close, anchor, speed, target, elapsed)
            == 100.0 - Animated(Open, 100.0 - anchor, speed, Mirrored(target), elapsed)
  {
    AnimatedIsLine(Close, anchor, speed, target, elapsed);
    AnimatedIsLine(Open, 100.0 - anchor, speed, Mirrored(target), elapsed);
  }

  /** The animation has reached its goal half a minute before the deadline that clears it. */
  lemma GoalBeforeDeadline(action: Action, anchor: real, speed: real, target: Option<real>,
                           start: real, deadline: real, now: real)
    requires Sound(anchor, speed, target) && TimeLeft(action, anchor, speed, target, start, deadline)
    requires start <= now && now >= deadline - TIMEOUT_PADDING
    ensures Animated(action, anchor, speed, target, now - start) == Goal(action, anchor, target)
  {
    var elapsed := now - start;
    var distance := Abs(Limit(action, target) - anchor);
    hide Animated;
    AnimatedIsLine(action, anchor, speed, target, elapsed);
    TimeCovers(distance, speed, elapsed);
  }

  lemma TimeCovers(distance: real, speed: real, time: real)
    requires speed > 0.0 && time >= distance / speed
    ensures speed * time >= distance
  {
    var needed := distance / speed;
    Quotient(distance, speed);
    ProductNonNegative(time - needed, speed);
    Distribute(time, needed, speed);
    assert speed * time == time * speed;
  }

  lemma StartLeavesTime(start: real, action: Action, target: Option<real>, anchor: real, speed: real)
    requires speed > 0.0
    ensures TimeLeft(action, anchor, speed, target, start, DeadlineFor(start, action, target, anchor, speed))
  {
  }

  // ----- the controller over whole runs -----

  datatype Event =
    | StatusArrives(raw: Status, now: real)
    | UpdateArrives(update: Update, other: bool, now: real)
    | Moved(action: Action, target: Option<real>, simulate: bool, after: real)
    | LowLevelSent(kind: LowLevel, after: real)
    | StopSent(now: real)
    | StopAccepted(k: nat, after: real)
    | StopFailed(k: nat)
    | Failure
    | Ticked(now: real)
    | Calibration(on: bool)
    | ProfileChanged(profile: Profile)

  /** A stop that was not sent is neither accepted nor failed. */
  function Step(s: State, e: Event): State
  {
    match e
    case StatusArrives(raw, now) => AfterStatus(s, raw, now)
    case UpdateArrives(u, other, now) => AfterUpdate(s, u, other, now)
    case Moved(action, target, simulate, after) => AfterMove(s, action, target, simulate, after)
    case LowLevelSent(kind, after) => AfterLowLevel(s, kind, after)
    case StopSent(now) => AfterStopSent(s, now)
    case StopAccepted(k, after) => if k < |s.flying| then AfterStopAccepted(s, k, after) else s
    case StopFailed(k) => if k < |s.flying| then AfterStopFailed(s, k) else s
    case Failure => AfterClear(s)
    case Ticked(now) => AfterTick(s, now)
    case Calibration(on) => s.(calibrating := on)
    case ProfileChanged(profile) => s.(profile := profile)
  }

  function Run(profile: Profile, events: seq<Event>): State
  {
    if events == [] then InitialState(profile)
    else Step(Run(profile, events[..|events| - 1]), events[|events| - 1])
  }

  /** Reported positions are percentages (LiveStatus.LivePositionPercent,
      Encoder.StatusPosition), and new profiles hold positive speeds. */
  predicate InputOk(e: Event)
  {
    match e
    case StatusArrives(raw, _) => OptionalPercent(raw.position)
    case UpdateArrives(u, _, _) => OptionalPercent(u.position)
    case ProfileChanged(profile) => ProfileOk(profile)
    case _ => true
  }

  predicate InputsOk(events: seq<Event>) { forall i :: 0 <= i < |events| ==> InputOk(events[i]) }

  /** The animation fields are all set or all clear, everything shown is a percentage, and
      nothing is animated after a stop sent from motion. */
  predicate Inv(s: State)
  {
    && Core(s) && (s.observed ==> s.data.Some?)
    && Still(s)
    && forall k :: 0 <= k < |s.flying| ==> CaptureOk(s, s.flying[k])
  }

  /** While a stop sent from motion is recent there is no animation. */
  predicate Still(s: State)
  {
    s.stopAt.Some? && s.stopFromMotion ==> s.action.None?
  }

  /** A captured position is one that was displayed. */
  predicate CaptureOk(s: State, c: Capture)
  {
    c.shown.Some? ==> Percent(c.shown.value) && Round1(c.shown.value) == c.shown.value && s.data.Some?
  }

  /** The part of the invariant that holds while a status is being stored. */
  predicate Core(s: State)
  {
    && ProfileOk(s.profile)
    && (s.action.Some? <==> s.anchor.Some?)
    && (s.action.Some? <==> s.anchorAt.Some?)
    && (s.action.Some? <==> s.startedAt.Some?)
    && (s.action.Some? <==> s.deadline.Some?)
    && (s.action.Some? <==> s.speed.Some?)
    && (s.action.None? ==> s.target.None? && !s.confirmed)
    && OptionalPercent(s.anchor) && OptionalPercent(s.target) && OptionalPercent(s.lastKnown)
    && (s.speed.Some? ==> s.speed.value > 0.0)
    && (s.data.Some? ==> OptionalPercent(s.data.value.position))
    && (s.data.Some? && s.data.value.position.Some? ==> s.observed)
    && (s.action.Some? ==> s.observed)
    && (s.action.Some? && s.anchor.Some? && s.speed.Some? && s.anchorAt.Some? && s.deadline.Some? ==>
          TimeLeft(s.action.value, s.anchor.value, s.speed.value, s.target, s.anchorAt.value, s.deadline.value))
  }

  /** The deadline leaves the animation the time to arrive, and half a minute more. */
  predicate TimeLeft(action: Action, anchor: real, speed: real, target: Option<real>, from: real, deadline: real)
  {
    speed > 0.0 && deadline >= from + Abs(Limit(action, target) - anchor) / speed + TIMEOUT_PADDING
  }

  lemma SimulatedPercent(s: State, now: real)
    requires Core(s)
    ensures OptionalPercent(Simulated(s, now))
  {
    if s.action.Some? {
      var e := Max(0.0, now - s.anchorAt.value);
      AnimationMonotone(s.action.value, s.anchor.value, s.speed.value, s.target, e, e);
    }
  }

  lemma DisplayPercent(s: State, now: real)
    requires Core(s)
    ensures OptionalPercent(Display(s, now))
  {
    SimulatedPercent(s, now);
    ResolveValue(s.data, Simulated(s, now), s.lastKnown);
    var r := Resolve(s.data, Simulated(s, now), s.lastKnown);
    if r.Some? {
      Round1Percent(r.value.value);
    }
  }

  lemma StartKeeps(s: State, action: Action, target: Option<real>, now: real)
    requires Core(s)
    ensures Core(AfterStart(s, action, target, now))
  {
    hide Simulated, Display, DeadlineFor, TimeLeft;
    SimulatedPercent(s, now);
    DisplayPercent(s, now);
    var after := AfterStart(s, action, target, now);
    if after != s {
      StartLeavesTime(now, action, after.target, after.anchor.value, after.speed.value);
    }
  }

  lemma ClearKeeps(s: State)
    requires Core(s)
    ensures Core(AfterClear(s))
  {
    hide TimeLeft;
  }

  lemma ConfirmKeeps(s: State)
    requires Core(s) && s.action.Some?
    ensures Core(s.(confirmed := true))
  {
    hide TimeLeft;
  }

  /** Synchronising keeps the invariant; a position comes in only after it was observed. */
  lemma SyncKeeps(s: State, status: Status, now: real)
    requires Core(s) && OptionalPercent(status.position) && (status.position.Some? ==> s.observed)
    ensures Core(AfterSync(s, status, now))
    ensures AfterSync(s, status, now).observed == s.observed && AfterSync(s, status, now).data == s.data
  {
    hide AfterStart, AfterRebase, AfterHold, Core;
    var r := MotionAction(status.state);
    ClearKeeps(s);
    HoldKeeps(s, now);
    if r.Some? {
      if status.position.Some? {
        RebaseKeeps(s, r.value, status.position.value, r == s.action, now);
      } else {
        StartKeeps(s, r.value, None, now);
        StartFrame(s, r.value, None, now);
        var started := if s.action.None? then AfterStart(s, r.value, None, now) else s;
        if started.action == r {
          ConfirmKeeps(started);
        }
      }
    }
  }

  lemma RebaseKeeps(s: State, action: Action, position: real, keepTarget: bool, now: real)
    requires Core(s) && Percent(position) && s.observed
    ensures var after := AfterRebase(s, action, position, keepTarget, now);
            Core(after) && after.observed == s.observed && after.data == s.data
  {
    hide DeadlineFor, TimeLeft;
    var after := AfterRebase(s, action, position, keepTarget, now);
    StartLeavesTime(now, action, after.target, position, after.speed.value);
  }

  lemma HoldKeeps(s: State, now: real)
    requires Core(s)
    ensures var after := AfterHold(s, now);
            Core(after) && after.observed == s.observed && after.data == s.data
  {
    hide Simulated, TimeLeft;
    SimulatedPercent(s, now);
    if Simulated(s, now).Some? {
      Round1Percent(Simulated(s, now).value);
    }
  }

  lemma StartFrame(s: State, action: Action, target: Option<real>, now: real)
    ensures var after := AfterStart(s, action, target, now);
            && after.observed == s.observed && after.data == s.data && after.lastKnown == s.lastKnown
            && after.stopAt == s.stopAt && after.stopFromMotion == s.stopFromMotion && after.flying == s.flying
  {
    hide Simulated, Display, DeadlineFor;
  }

  /** What synchronising leaves alone, and when it starts nothing. */
  lemma SyncFrame(s: State, status: Status, now: real)
    ensures var after := AfterSync(s, status, now);
            && after.stopAt == s.stopAt && after.stopFromMotion == s.stopFromMotion && after.flying == s.flying
            && (s.action.None? && MotionAction(status.state).None? ==> after.action.None?)
  {
    hide AfterStart, AfterRebase, AfterHold;
    HoldFrame(s, now);
    var r := MotionAction(status.state);
    if r.Some? {
      StartFrame(s, r.value, None, now);
      RebaseFrame(s, r.value, if status.position.Some? then status.position.value else 0.0, r == s.action, now);
    }
  }

  lemma HoldFrame(s: State, now: real)
    ensures var after := AfterHold(s, now);
            && after.stopAt == s.stopAt && after.stopFromMotion == s.stopFromMotion && after.flying == s.flying
            && after.action.None?
  {
    hide Simulated;
  }

  lemma RebaseFrame(s: State, action: Action, position: real, keepTarget: bool, now: real)
    ensures var after := AfterRebase(s, action, position, keepTarget, now);
            after.stopAt == s.stopAt && after.stopFromMotion == s.stopFromMotion && after.flying == s.flying
  {
    hide DeadlineFor, SimulationSpeed, Clamp;
  }

  /** While a stop sent from motion stays recent, the hint lets no movement through. */
  lemma HintStopsMotion(s: State, raw: Status, now: real)
    ensures var (hinted, masked) := AfterHint(s, raw, now);
            && hinted == s.(stopAt := hinted.stopAt, stopFromMotion := hinted.stopFromMotion)
            && (hinted.stopAt.Some? && hinted.stopFromMotion ==>
                  s.stopAt.Some? && s.stopFromMotion && MotionAction(masked.state).None?)
  {
  }

  lemma NormalizeFrame(s: State, raw: Status)
    ensures var (kept, status) := AfterNormalize(s, raw);
            status.state == raw.state && kept == s.(lastKnown := kept.lastKnown)
  {
    hide LiveScalar;
    LiveScalarState(s, raw);
  }

  /** A status leaves the captures alone, and starts no animation while a stop is recent. */
  lemma StatusStaysStill(s: State, raw: Status, now: real)
    requires Still(s)
    ensures Still(AfterStatus(s, raw, now)) && AfterStatus(s, raw, now).flying == s.flying
  {
    hide AfterSync, AfterHint, AfterNormalize, MotionAction;
    var (hinted, masked) := AfterHint(s, raw, now);
    HintStopsMotion(s, raw, now);
    NormalizeFrame(hinted, masked);
    var (normalized, status) := AfterNormalize(hinted, masked);
    var stored := if status.position.Some?
                  then normalized.(observed := true, lastKnown := status.position) else normalized;
    SyncFrame(stored, status, now);
  }

  lemma LiveScalarPercent(s: State, status: Status)
    requires OptionalPercent(status.position)
    ensures OptionalPercent(LiveScalar(s, status).position)
  {
    if s.profile.liveBounds.Some? && status.liveRaw.Some? {
      var (closed, open) := s.profile.liveBounds.value;
      if closed != open {
        Round1Percent(Clamp((status.liveRaw.value - closed) as real / (open - closed) as real * 100.0));
      }
    }
  }

  lemma NormalizePercent(s: State, raw: Status)
    requires Core(s) && OptionalPercent(raw.position)
    ensures var (normalized, status) := AfterNormalize(s, raw);
            Core(normalized) && OptionalPercent(status.position)
  {
    hide LiveScalar;
    LiveScalarPercent(s, raw);
  }

  lemma StatusKeeps(s: State, raw: Status, now: real)
    requires Inv(s) && OptionalPercent(raw.position)
    ensures Inv(AfterStatus(s, raw, now))
  {
    StatusKeepsCore(s, raw, now);
    StatusStaysStill(s, raw, now);
    hide AfterStatus, Core, Still;
  }

  lemma StatusKeepsCore(s: State, raw: Status, now: real)
    requires Core(s) && OptionalPercent(raw.position)
    ensures Core(AfterStatus(s, raw, now)) && AfterStatus(s, raw, now).data.Some?
  {
    hide AfterSync, AfterNormalize;
    var (hinted, masked) := AfterHint(s, raw, now);
    NormalizePercent(hinted, masked);
    var (normalized, status) := AfterNormalize(hinted, masked);
    var stored := if status.position.Some?
                  then normalized.(observed := true, lastKnown := status.position) else normalized;
    SyncKeeps(stored, status, now);
  }

  lemma MoveKeeps(s: State, action: Action, target: Option<real>, simulate: bool, after: real)
    requires Inv(s)
    ensures Inv(AfterMove(s, action, target, simulate, after))
  {
    hide AfterStart, Percent, Round1;
    var sent := s.(stopAt := None, stopFromMotion := false);
    StartKeeps(sent, action, target, after);
    StartFrame(sent, action, target, after);
  }

  lemma StopSentKeeps(s: State, now: real)
    requires Inv(s)
    ensures Inv(AfterStopSent(s, now))
  {
    hide Display, Round1, TimeLeft;
    DisplayPercent(s, now);
    if Display(s, now).Some? {
      ShownIsRounded(s, now);
      ShownHasData(s, now);
    }
  }

  lemma ShownHasData(s: State, now: real)
    requires Inv(s) && Display(s, now).Some?
    ensures s.data.Some?
  {
  }

  lemma StopLandsKeeps(s: State, k: nat, after: real)
    requires Inv(s) && k < |s.flying|
    ensures Inv(AfterStopAccepted(s, k, after)) && Inv(AfterStopFailed(s, k))
  {
    hide Round1, TimeLeft;
    assert CaptureOk(s, s.flying[k]);
  }

  lemma ClearKeepsAll(s: State)
    requires Inv(s)
    ensures Inv(AfterClear(s))
  {
    hide Core, Percent, Round1;
    ClearKeeps(s);
  }

  lemma SettingsKeep(s: State, stopAt: Option<real>, fromMotion: bool, calibrating: bool)
    requires Inv(s) && (stopAt.None? || (stopAt == s.stopAt && fromMotion == s.stopFromMotion))
    ensures Inv(s.(stopAt := stopAt, stopFromMotion := fromMotion, calibrating := calibrating))
  {
    hide Percent, Round1, TimeLeft;
  }

  lemma StepKeeps(s: State, e: Event)
    requires Inv(s) && InputOk(e)
    ensures Inv(Step(s, e))
  {
    hide AfterStatus, AfterMove, AfterClear, AfterStopSent, AfterStopAccepted, AfterStopFailed, Inv;
    ClearKeepsAll(s);
    match e
    case StatusArrives(raw, now) => StatusKeeps(s, raw, now);
    case UpdateArrives(u, other, now) => UpdateKeeps(s, u, other, now);
    case Moved(action, target, simulate, after) => MoveKeeps(s, action, target, simulate, after);
    case LowLevelSent(kind, after) =>
      MoveKeeps(s, Open, if kind.PartialOpening? then kind.target else None, true, after);
      SettingsKeep(s, None, false, s.calibrating);
      ClearKeepsAll(s.(stopAt := None, stopFromMotion := false));
    case StopSent(now) => StopSentKeeps(s, now);
    case StopAccepted(k, after) => if k < |s.flying| { StopLandsKeeps(s, k, after); }
    case StopFailed(k) => if k < |s.flying| { StopLandsKeeps(s, k, 0.0); }
    case Failure =>
    case Ticked(now) =>
    case Calibration(on) => SettingsKeep(s, s.stopAt, s.stopFromMotion, on);
    case ProfileChanged(profile) => ProfileKeeps(s, profile);
  }

  /** A running animation keeps the speed it was started with. */
  lemma ProfileKeeps(s: State, profile: Profile)
    requires Inv(s) && ProfileOk(profile)
    ensures Inv(s.(profile := profile))
  {
    hide Percent, Round1, TimeLeft;
  }

  lemma UpdateKeeps(s: State, u: Update, other: bool, now: real)
    requires Inv(s) && OptionalPercent(u.position)
    ensures Inv(AfterUpdate(s, u, other, now))
  {
    hide AfterStatus, Round1, TimeLeft;
    StatusKeeps(s, Merged(s, u), now);
  }

  /** Over every run: the animation is all set or all clear, and anchor, target, last known
      position and the displayed position are percentages at every time. */
  lemma {:induction false} RunKeeps(profile: Profile, events: seq<Event>, now: real)
    requires ProfileOk(profile) && InputsOk(events)
    ensures Inv(Run(profile, events)) && OptionalPercent(Display(Run(profile, events), now))
  {
    if events != [] {
      RunKeeps(profile, events[..|events| - 1], now);
      StepKeeps(Run(profile, events[..|events| - 1]), events[|events| - 1]);
    }
    DisplayPercent(Run(profile, events), now);
  }

  /** Over every run, an animation that its deadline clears has shown its goal for half a minute. */
  lemma {:induction false} ClearedOnlyAfterArrival(profile: Profile, events: seq<Event>, s: State, now: real)
    requires ProfileOk(profile) && InputsOk(events) && s == Run(profile, events)
    requires s.action.Some? && s.anchor.Some? && s.anchorAt.Some? && s.deadline.Some?
    requires now >= s.anchorAt.value
    ensures now >= s.deadline.value - TIMEOUT_PADDING ==>
              Simulated(s, now) == Some(Goal(s.action.value, s.anchor.value, s.target))
  {
    hide Animated, Run, TimeLeft;
    RunKeeps(profile, events, now);
    if now >= s.deadline.value - TIMEOUT_PADDING {
      GoalBeforeDeadline(s.action.value, s.anchor.value, s.speed.value, s.target,
                         s.anchorAt.value, s.deadline.value, now);
    }
  }

  lemma LiveScalarState(s: State, status: Status)
    ensures LiveScalar(s, status).state == status.state
  {
  }

  // ----- what a status shows -----

  /** A stale report of movement or of an endpoint, within 20 seconds of a stop sent from motion. */
  predicate Masks(s: State, raw: Status, now: real)
  {
    && s.stopAt.Some? && s.stopFromMotion && now - s.stopAt.value <= 20.0
    && raw.state in {Opening, Closing, AtOpen, AtClosed}
  }

  function ShownState(s: State, raw: Status, now: real): Motion
  {
    if Masks(s, raw, now) then Motion.Stopped else raw.state
  }

  /** The status holds a raw live position, and the profile knows its bounds. */
  predicate HasLive(s: State, raw: Status)
  {
    && raw.rawScale && raw.liveRaw.Some? && s.profile.liveBounds.Some?
    && s.profile.liveBounds.value.0 != s.profile.liveBounds.value.1
  }

  /** The position a status brings: a calibrated live position first, nothing from a masked
      report, else the number reported, else the endpoint it names once positions were seen. */
  function Brought(s: State, raw: Status, now: real): Option<real>
  {
    if HasLive(s, raw) then LiveScalar(s, raw).position
    else if Masks(s, raw, now) then None
    else if raw.position.Some? then raw.position
    else if raw.state == AtOpen && ReportingObserved(s) then Some(100.0)
    else if raw.state == AtClosed && ReportingObserved(s) then Some(0.0)
    else None
  }

  /** The direction a state of movement tells. */
  function Heading(state: Motion): Option<Action>
  {
    match state
    case Opening => Some(Open)
    case Closing => Some(Close)
    case _ => None
  }

  /** A report of rest does not stop an animation that was just commanded and not confirmed. */
  predicate Graced(s: State, state: Motion, now: real)
  {
    && !s.calibrating && state !in {Opening, Closing}
    && s.action.Some? && !s.confirmed && s.startedAt.Some? && now - s.startedAt.value < 8.0
    && !(s.action == Some(Open) && state.AtOpen?) && !(s.action == Some(Close) && state.AtClosed?)
  }

  /** The hint changes nothing but the record of the stop, and masks the report or not. */
  lemma HintMasks(s: State, raw: Status, now: real)
    ensures var (hinted, masked) := AfterHint(s, raw, now);
            && masked == (if Masks(s, raw, now) then raw.(state := Motion.Stopped, position := None) else raw)
            && hinted == s.(stopAt := hinted.stopAt, stopFromMotion := hinted.stopFromMotion)
  {
  }

  /** The position that normalizing gives a report. */
  lemma NormalizedPosition(s: State, raw: Status)
    ensures var (kept, status) := AfterNormalize(s, raw);
            && status.state == raw.state
            && status.position
               == (if HasLive(s, raw) then LiveScalar(s, raw).position
                   else if raw.position.Some? then raw.position
                   else if raw.AtEnd() && ReportingObserved(s) then Some(if raw.state.AtOpen? then 100.0 else 0.0)
                   else None)
            && kept == (if status.position.None? && s.action.None? && s.data.Some? && s.data.value.AtEnd()
                           && raw.Resting() then s.(lastKnown := None) else s)
  {
    hide Round1, Clamp;
  }

  /** What is synchronised and published is the state and the position the status brings. */
  lemma StoredStatus(s: State, raw: Status, now: real) returns (stored: State, status: Status)
    ensures AfterStatus(s, raw, now) == AfterSync(stored, status, now).(data := Some(status))
    ensures status.state == ShownState(s, raw, now) && status.position == Brought(s, raw, now)
    ensures stored == s.(stopAt := stored.stopAt, stopFromMotion := stored.stopFromMotion,
                         observed := stored.observed, lastKnown := stored.lastKnown)
    ensures stored.observed == (s.observed || status.position.Some?)
    ensures stored.lastKnown
            == if status.position.Some? then status.position
               else if s.action.None? && s.data.Some? && s.data.value.AtEnd() && status.Resting() then None
               else s.lastKnown
  {
    hide AfterSync, AfterHint, AfterNormalize, Masks, Round1, Clamp;
    var (hinted, masked) := AfterHint(s, raw, now);
    var (kept, shown) := AfterNormalize(hinted, masked);
    HintMasks(s, raw, now);
    NormalizedPosition(hinted, masked);
    MaskedAtRest(s, raw, now);
    status := shown;
    stored := if shown.position.Some? then kept.(observed := true, lastKnown := shown.position) else kept;
  }

  lemma MaskedAtRest(s: State, raw: Status, now: real)
    ensures Masks(s, raw, now) ==> s.stopAt.Some? && raw.state in {Opening, Closing, AtOpen, AtClosed}
  {
  }

  lemma BroughtPercent(s: State, raw: Status, now: real)
    requires OptionalPercent(raw.position)
    ensures OptionalPercent(Brought(s, raw, now))
  {
    hide LiveScalar;
    LiveScalarPercent(s, raw);
  }

  /** A position that a status brings is the one displayed: at that moment when the gate moves,
      where the animation is anchored; and until the next event when it does not move, unless the
      animation was just commanded and goes on. */
  lemma BroughtIsDisplayed(s: State, raw: Status, now: real, later: real)
    requires Inv(s) && OptionalPercent(raw.position) && Brought(s, raw, now).Some?
    ensures var after := AfterStatus(s, raw, now);
            var shown := Some(Round1(Brought(s, raw, now).value));
            var action := Heading(ShownState(s, raw, now));
            if action.Some? && !s.calibrating then after.action == action && Display(after, now) == shown
            else if Graced(s, ShownState(s, raw, now), now)
            then after.action == s.action && Simulated(after, later).Some?
                 && Display(after, later) == Some(Round1(Simulated(after, later).value))
            else after.action.None? && Display(after, later) == shown
  {
    hide Display, Round1, AfterStatus, AfterSync, Brought, Simulated, Core;
    var after := AfterStatus(s, raw, now);
    BroughtPercent(s, raw, now);
    var stored, status := StoredStatus(s, raw, now);
    StatusKeeps(s, raw, now);
    BroughtSyncs(s, stored, status, now);
    var action := MotionAction(status.state);
    if action.Some? && !s.calibrating {
      AnchorIsShown(after, now, status.position.value);
    } else if Graced(s, status.state, now) {
      AnimationIsShown(after, later);
    } else {
      ShownAtRest(after, later);
    }
  }

  /** The branches of synchronising with a position. */
  lemma BroughtSyncs(s: State, stored: State, status: Status, now: real)
    requires status.position.Some?
    requires stored.action == s.action && stored.confirmed == s.confirmed && stored.startedAt == s.startedAt
    requires stored.calibrating == s.calibrating
    ensures var after := AfterSync(stored, status, now);
            var action := MotionAction(status.state);
            if action.Some? && !s.calibrating
            then after.action == action && after.anchorAt == Some(now)
                 && after.anchor == Some(Clamp(status.position.value))
            else if Graced(s, status.state, now) then after == stored
            else after.action.None?
  {
    hide DeadlineFor, SimulationSpeed, Clamp, AfterStart, AfterHold;
  }

  lemma AnchorIsShown(s: State, now: real, position: real)
    requires Core(s) && s.action.Some? && s.anchorAt == Some(now) && Percent(position)
    requires s.anchor == Some(Clamp(position))
    ensures Display(s, now) == Some(Round1(position))
  {
    hide Animated, Round1, TimeLeft;
    AnimationMonotone(s.action.value, s.anchor.value, s.speed.value, s.target, 0.0, 0.0);
    AnimatedIsLine(s.action.value, s.anchor.value, s.speed.value, s.target, 0.0);
    GoalAhead(s.action.value, s.anchor.value, s.target);
    ShownWhileMoving(s, now);
  }

  lemma AnimationIsShown(s: State, now: real)
    requires Inv(s) && s.action.Some?
    ensures Simulated(s, now).Some? && Display(s, now) == Some(Round1(Simulated(s, now).value))
  {
    hide Animated, TimeLeft;
  }

  /** For 20 seconds after a stop sent from motion, a stale report of movement or of an endpoint
      shows as stopped, starts no animation, and without a live position leaves the display to
      the last known position. */
  lemma {:induction false} RecentStopMasks(profile: Profile, events: seq<Event>, raw: Status, now: real, later: real)
    requires ProfileOk(profile) && InputsOk(events) && OptionalPercent(raw.position)
    requires Masks(Run(profile, events), raw, now)
    ensures var s := Run(profile, events);
            var after := AfterStatus(s, raw, now);
            && after.data.Some? && after.data.value.state == Motion.Stopped && after.action.None?
            && (!HasLive(s, raw) ==>
                  Display(after, later)
                  == if s.lastKnown.None? || (s.data.Some? && s.data.value.state in {AtOpen, AtClosed}) then None
                     else Some(Round1(s.lastKnown.value)))
  {
    hide Run, Display, AfterStatus, Simulated, Round1;
    RunKeeps(profile, events, now);
    var s := Run(profile, events);
    var stored, status := StoredStatus(s, raw, now);
    StillSyncs(stored, status, now);
    ShownAtRest(AfterStatus(s, raw, now), later);
  }

  lemma StillSyncs(s: State, status: Status, now: real)
    requires s.action.None? && status.state == Motion.Stopped
    ensures var after := AfterSync(s, status, now);
            after.action.None? && after.lastKnown == s.lastKnown
  {
  }

  /** Once a position has been seen, an endpoint reported without a number is displayed as that
      endpoint and ends the animation that headed for it.  The exceptions are the 20 seconds after
      a stop, a live position, which is displayed instead, and an animation to the other end that
      was just commanded. */
  lemma EndpointIsDisplayed(s: State, raw: Status, now: real, later: real)
    requires Inv(s) && s.observed && raw.state in {AtOpen, AtClosed} && raw.position.None?
    requires !Masks(s, raw, now) && !HasLive(s, raw) && !Graced(s, raw.state, now)
    ensures Display(AfterStatus(s, raw, now), later) == Some(if raw.state.AtOpen? then 100.0 else 0.0)
  {
    hide Display, Round1, AfterStatus, Graced, Inv;
    BroughtIsDisplayed(s, raw, now, later);
    Round1Full(100.0);
    Round1Full(0.0);
  }

  // ----- no position, no animation -----

  /** Nothing in the event carries a number for the position. */
  predicate Numberless(e: Event)
  {
    match e
    case StatusArrives(raw, _) => raw.position.None? && raw.liveRaw.None?
    case UpdateArrives(u, _, _) => u.position.None? && u.liveRaw.None?
    case _ => true
  }

  predicate Blank(s: State)
  {
    && !s.observed && s.lastKnown.None? && s.action.None? && s.anchor.None?
    && (s.data.Some? ==> s.data.value.position.None? && s.data.value.liveRaw.None?)
    && (forall k :: 0 <= k < |s.flying| ==> s.flying[k].shown.None?)
  }

  lemma BlankShowsNothing(s: State, now: real)
    requires Blank(s)
    ensures Simulated(s, now).None? && Display(s, now).None?
  {
  }

  lemma StatusStaysBlank(s: State, raw: Status, now: real)
    requires Blank(s) && raw.position.None? && raw.liveRaw.None?
    ensures Blank(AfterStatus(s, raw, now))
  {
    hide AfterSync, AfterHint;
    var (hinted, masked) := AfterHint(s, raw, now);
    assert Blank(hinted) && masked.position.None? && masked.liveRaw.None? by {
      HintStaysBlank(s, raw, now);
    }
    var (normalized, status) := AfterNormalize(hinted, masked);
    assert Blank(normalized) && status.position.None? && status.liveRaw.None?;
    SyncStaysBlank(normalized, status, now);
  }

  lemma HintStaysBlank(s: State, raw: Status, now: real)
    requires Blank(s) && raw.position.None? && raw.liveRaw.None?
    ensures var (hinted, masked) := AfterHint(s, raw, now);
            Blank(hinted) && masked.position.None? && masked.liveRaw.None?
  {
  }

  lemma SyncStaysBlank(s: State, status: Status, now: real)
    requires Blank(s) && status.position.None?
    ensures Blank(AfterSync(s, status, now))
  {
    hide Display, DeadlineFor;
  }

  /** Nothing is known, so a movement command animates nothing. */
  lemma MoveStaysBlank(s: State, action: Action, target: Option<real>, simulate: bool, after: real)
    requires Blank(s)
    ensures Blank(AfterMove(s, action, target, simulate, after))
  {
    hide Display, Simulated, DeadlineFor;
  }

  lemma StepStaysBlank(s: State, e: Event)
    requires Blank(s) && Numberless(e)
    ensures Blank(Step(s, e))
  {
    hide AfterStatus, AfterMove, Display;
    match e
    case StatusArrives(raw, now) => StatusStaysBlank(s, raw, now);
    case UpdateArrives(u, other, now) => StatusStaysBlank(s, Merged(s, u), now);
    case Moved(action, target, simulate, after) => MoveStaysBlank(s, action, target, simulate, after);
    case LowLevelSent(kind, after) =>
      MoveStaysBlank(s, Open, if kind.PartialOpening? then kind.target else None, true, after);
    case StopSent(now) => BlankShowsNothing(s, now);
    case _ =>
  }

  /** If no status or event ever carried a numeric position, then whatever commands are sent and
      whatever endpoints are reported, no animation ever starts and nothing is displayed. */
  lemma {:induction false} NoNumberNoPosition(profile: Profile, events: seq<Event>, now: real)
    requires forall i :: 0 <= i < |events| ==> Numberless(events[i])
    ensures var s := Run(profile, events);
            Blank(s) && Simulated(s, now).None? && Display(s, now).None?
  {
    if events != [] {
      NoNumberNoPosition(profile, events[..|events| - 1], now);
      StepStaysBlank(Run(profile, events[..|events| - 1]), events[|events| - 1]);
    }
    BlankShowsNothing(Run(profile, events), now);
  }

  // ----- the display does not jump -----

  lemma Round1Idempotent(x: real)
    ensures Round1(Round1(x)) == Round1(x)
  {
    var n := RoundHalfEven(x * 10.0);
    assert Round1(x) * 10.0 == n as real;
    RoundInteger(n);
  }

  /** Starting an animation shows the same position as before. */
  lemma StartIsSeamless(s: State, action: Action, target: Option<real>, now: real)
    requires Inv(s)
    ensures Display(AfterStart(s, action, target, now), now) == Display(s, now)
  {
    hide Display, Round1, Simulated, DeadlineFor, TimeLeft, Core;
    var after := AfterStart(s, action, target, now);
    if after != s {
      StartKeeps(s, action, target, now);
      SimulatedPercent(s, now);
      DisplayPercent(s, now);
      AnchorIsShown(after, now, after.anchor.value);
      if Simulated(s, now).Some? {
        ShownWhileMoving(s, now);
      } else {
        ShownIsRounded(s, now);
      }
    }
  }

  /** An accepted stop that was sent while something was shown in motion freezes exactly that, from
      its acceptance until the next event, if and only if the status held at its acceptance has no
      position or that one. */
  lemma StopFreezesIff(s: State, k: nat, after: real, later: real)
    requires Inv(s) && k < |s.flying| && s.flying[k].shown.Some?
    ensures s.data.Some?
    ensures Display(AfterStopAccepted(s, k, after), later) == s.flying[k].shown
            <==> s.data.value.position.None? || Some(Round1(s.data.value.position.value)) == s.flying[k].shown
  {
    hide Display, Round1, TimeLeft;
    assert CaptureOk(s, s.flying[k]);
    ShownAtRest(AfterStopAccepted(s, k, after), later);
  }

  /** A run in which it does not: the gate opens from 50 percent, ten seconds later the display
      shows 60, a stop is sent and accepted, and the display goes back to 50. */
  lemma StopCanJumpBack(profile: Profile, opening: Status)
    requires profile.openSpeed.None? && profile.liveBounds.None?
    requires opening.state.Opening? && opening.position == Some(50.0)
    ensures Display(Run(profile, [StatusArrives(opening, 0.0)]), 10.0) == Some(60.0)
    ensures Display(Run(profile, [StatusArrives(opening, 0.0), StopSent(10.0), StopAccepted(0, 10.0)]), 11.0)
            == Some(50.0)
  {
    var e0, e1, e2 := StatusArrives(opening, 0.0), StopSent(10.0), StopAccepted(0, 10.0);
    var s := AfterStatus(InitialState(profile), opening, 0.0);
    var sent := AfterStopSent(s, 10.0);
    OpeningFromHalf(profile, opening, s);
    StopFromHalf(s, sent);
    RunThree(profile, e0, e1, e2);
    hide Run, AfterStatus, Display, AfterStopSent, AfterStopAccepted;
  }

  lemma StopFromHalf(s: State, sent: State)
    requires s.action == Some(Open) && s.anchor == Some(50.0) && s.anchorAt == Some(0.0) && s.speed == Some(1.0)
    requires s.target.None? && s.data.Some? && s.data.value.position == Some(50.0) && s.flying == []
    requires sent == AfterStopSent(s, 10.0)
    ensures Display(s, 10.0) == Some(60.0) && |sent.flying| == 1
    ensures Display(AfterStopAccepted(sent, 0, 10.0), 11.0) == Some(50.0)
  {
    Round1Tenth(50.0, 500);
    Round1Tenth(60.0, 600);
    hide Round1, Animated;
    AnimatedIsLine(Open, 50.0, 1.0, None, 10.0);
    ShownWhileMoving(s, 10.0);
    ShownAtRest(AfterStopAccepted(sent, 0, 10.0), 11.0);
  }

  lemma OpeningFromHalf(profile: Profile, opening: Status, s: State)
    requires profile.openSpeed.None? && profile.liveBounds.None?
    requires opening.state.Opening? && opening.position == Some(50.0)
    requires s == AfterStatus(InitialState(profile), opening, 0.0)
    ensures s.action == Some(Open) && s.anchor == Some(50.0) && s.anchorAt == Some(0.0) && s.speed == Some(1.0)
    ensures s.target.None? && s.data == Some(opening) && s.flying == []
  {
    hide DeadlineFor, Round1, AfterStart, AfterHold;
  }

  /** A run that shows an endpoint the gate was not at: from 99 percent a partial opening to 99.96
      is animated, and an opening command restarts the animation there, without a target. */
  lemma EndpointShownAwayFromIt(profile: Profile, half: Status, now: real)
    requires profile.openSpeed.None? && profile.liveBounds.None? && now >= 10.0
    requires half.state == Motion.Stopped && half.position == Some(99.0)
    ensures var s := Run(profile, [StatusArrives(half, 0.0), LowLevelSent(PartialOpening(Some(99.96)), 0.0),
                                   Moved(Open, None, true, 10.0)]);
            && s.action == Some(Open) && s.target.None? && s.anchor == Some(99.96)
            && Simulated(s, now).Some? && Simulated(s, now).value < 100.0
            && Display(s, now) == Some(100.0)
  {
    var e0 := StatusArrives(half, 0.0);
    var e1, e2 := LowLevelSent(PartialOpening(Some(99.96)), 0.0), Moved(Open, None, true, 10.0);
    RunThree(profile, e0, e1, e2);
    var s0 := AfterStatus(InitialState(profile), half, 0.0);
    var s1 := AfterMove(s0, Open, Some(99.96), true, 0.0);
    var s2 := AfterMove(s1, Open, None, true, 10.0);
    AlmostOpen(profile, half, s0);
    PartlyOpened(s0, s1);
    OpenedFurther(s1, s2, now);
    hide Run, AfterStatus, AfterMove, Simulated, Display;
  }

  lemma AlmostOpen(profile: Profile, half: Status, s: State)
    requires profile.openSpeed.None? && profile.liveBounds.None?
    requires half.state == Motion.Stopped && half.position == Some(99.0)
    requires s == AfterStatus(InitialState(profile), half, 0.0)
    ensures s.action.None? && s.observed && s.data == Some(half) && s.profile == profile
  {
    hide AfterStart, AfterRebase, AfterHold;
  }

  lemma PartlyOpened(s: State, after: State)
    requires s.action.None? && s.observed && s.data.Some? && s.data.value.position == Some(99.0)
    requires s.profile.openSpeed.None? && after == AfterMove(s, Open, Some(99.96), true, 0.0)
    ensures after.action == Some(Open) && after.anchor == Some(99.0) && after.anchorAt == Some(0.0)
    ensures after.speed == Some(1.0) && after.target == Some(99.96) && after.observed && after.profile == s.profile
  {
    var sent := s.(stopAt := None, stopFromMotion := false);
    ShownAtRest(sent, 0.0);
    Round1Tenth(99.0, 990);
    hide Display, Round1, DeadlineFor;
  }

  lemma OpenedFurther(s: State, after: State, now: real)
    requires s.action == Some(Open) && s.anchor == Some(99.0) && s.anchorAt == Some(0.0)
    requires s.speed == Some(1.0) && s.target == Some(99.96) && s.observed
    requires s.profile.openSpeed.None? && after == AfterMove(s, Open, None, true, 10.0) && now >= 10.0
    ensures after.action == Some(Open) && after.target.None? && after.anchor == Some(99.96)
    ensures Simulated(after, now).Some? && Simulated(after, now).value < 100.0
    ensures Display(after, now) == Some(100.0)
  {
    hide Display, Round1, DeadlineFor, Animated;
    var sent := s.(stopAt := None, stopFromMotion := false);
    AnimatedIsLine(Open, 99.0, 1.0, Some(99.96), 10.0);
    assert Simulated(sent, 10.0) == Some(99.96);
    EndpointShownIff(Open, 99.96, 1.0, now - 10.0);
    NoBareEndpoint(Open, 99.96, 1.0, now - 10.0);
    AnimationMonotone(Open, 99.96, 1.0, None, 0.0, now - 10.0);
    ShownWhileMoving(after, now);
  }

  lemma RunThree(profile: Profile, e0: Event, e1: Event, e2: Event)
    ensures Run(profile, [e0]) == Step(InitialState(profile), e0)
    ensures Run(profile, [e0, e1, e2]) == Step(Step(Run(profile, [e0]), e1), e2)
  {
    hide Step;
    assert [e0, e1, e2][..2] == [e0, e1] && [e0, e1][..1] == [e0] && [e0][..0] == [];
  }

  lemma Round1Tenth(x: real, n: int)
    requires x * 10.0 == n as real
    ensures Round1(x) == x
  {
    RoundInteger(n);
  }

  lemma ShownIsRounded(s: State, now: real)
    requires Display(s, now).Some?
    ensures Round1(Display(s, now).value) == Display(s, now).value
  {
    Round1Idempotent(Resolve(s.data, Simulated(s, now), s.lastKnown).value.value);
  }

  /** Without an animation the display is the reported position, else the last known one. */
  lemma ShownAtRest(s: State, now: real)
    requires s.action.None? && s.data.Some?
    ensures Display(s, now)
            == if s.data.value.position.Some? then Some(Round1(s.data.value.position.value))
               else if s.lastKnown.Some? then Some(Round1(s.lastKnown.value)) else None
  {
    ResolveValue(s.data, None, s.lastKnown);
  }

  /** When the gate reports that it rests, without a position, the animation freezes where it
      was shown at that moment. */
  lemma RestFreezes(s: State, raw: Status, now: real, later: real)
    requires Inv(s) && s.action.Some? && !s.calibrating
    requires raw.state in {Motion.Stopped, PartiallyOpen} && raw.position.None? && !HasLive(s, raw)
    ensures var after := AfterStatus(s, raw, now);
            after.action.None? && Display(after, later) == Display(s, now)
  {
    hide Display, AfterStatus;
    var after := AfterStatus(s, raw, now);
    SimulatedPercent(s, now);
    RestHolds(s, raw, now);
    assert after.lastKnown == Some(Round1(Simulated(s, now).value));
    ShownAtRest(after, later);
    Round1Idempotent(Simulated(s, now).value);
    ShownWhileMoving(s, now);
  }

  lemma RestHolds(s: State, raw: Status, now: real)
    requires s.action.Some? && !s.calibrating && Simulated(s, now).Some?
    requires raw.state in {Motion.Stopped, PartiallyOpen} && raw.position.None? && !HasLive(s, raw)
    ensures var after := AfterStatus(s, raw, now);
            && after.action.None? && after.lastKnown == Some(Round1(Simulated(s, now).value))
            && after.data.Some? && after.data.value.position.None?
  {
    hide Animated, Round1;
    var (hinted, masked) := AfterHint(s, raw, now);
    assert Simulated(hinted, now) == Simulated(s, now);
    assert masked.Resting() && masked.position.None? && masked.liveRaw == raw.liveRaw;
    var (normalized, status) := AfterNormalize(hinted, masked);
    assert normalized == hinted && status == masked;
    assert AfterSync(normalized, status, now) == AfterHold(normalized, now);
  }

  lemma ShownWhileMoving(s: State, now: real)
    requires Simulated(s, now).Some?
    ensures Display(s, now) == Some(Round1(Simulated(s, now).value))
  {
  }

  /** The controller, whatever happens to it, takes the step of the run and keeps the invariant. */
  method Perform(controller: PositionController, e: Event)
    requires Inv(controller.View()) && InputOk(e)
    modifies controller
    ensures controller.View() == Step(old(controller.View()), e) && Inv(controller.View())
  {
    hide Inv, AfterStatus, AfterMove, Display, Merged, CurrentStatus;
    StepKeeps(controller.View(), e);
    match e
    case StatusArrives(raw, now) => controller.ReceiveStatus(raw, now);
    case UpdateArrives(u, other, now) => controller.ReceiveUpdate(u, other, now);
    case Moved(action, target, simulate, after) => controller.SendMove(action, target, simulate, after);
    case LowLevelSent(kind, after) => controller.SendLowLevel(kind, after);
    case StopSent(now) => controller.StopSent(now);
    case StopAccepted(k, after) =>
      if k < |controller.flying| {
        controller.StopAccepted(k, after);
      }
    case StopFailed(k) =>
      if k < |controller.flying| {
        controller.StopFailed(k);
      }
    case Failure => controller.ClearSimulation();
    case Ticked(now) => controller.Tick(now);
    case Calibration(on) => controller.calibrating := on;
    case ProfileChanged(profile) => controller.profile := profile;
  }
}
