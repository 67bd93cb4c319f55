/** The displayed position: its provenance (custom_components/nice_bidiwifi/models/position.py),
    and the animation that stands in for it between reports
    (custom_components/nice_bidiwifi/position.py, custom_components/nice_bidiwifi/coordinator.py).
    Percentages and times are exact reals. */
module Position {
  import opened Prelude

  datatype Action = Open | Close

  datatype Motion = Stopped | Opening | Closing | AtOpen | AtClosed | PartiallyOpen | NoState

  const START_GRACE: real := 8.0
  const TIMEOUT_PADDING: real := 30.0
  const FALLBACK_SPEED: real := 1.0
  const CALIBRATED_FACTOR: real := 0.8
  const STOP_OVERRIDE: real := 20.0

  /** A controller status: its state, positions, and the register notes that matter here. */
  datatype Status = Status(
    state: Motion, position: Option<real>,
    currentRaw: Option<int>, closedRaw: Option<int>, openRaw: Option<int>,
    liveRaw: Option<int>,      // NHK/T4InstantPositionRaw
    rawScale: bool,            // NHK/T4InstantPositionScale begins with "raw"
    instant: bool,             // NHK/T4InstantPosition is present
    calibrated: bool,          // NHK/T4CalibratedPosition is present
    confirmedEnd: bool)        // NHK/ConfirmedEndpointPosition is present
  {
    predicate Moving() { state.Opening? || state.Closing? }
    predicate AtEnd() { state.AtOpen? || state.AtClosed? }
    predicate Resting() { state.Stopped? || state.PartiallyOpen? }
  }

  const UNKNOWN_STATUS: Status := Status(NoState, None, None, None, None, None, false, false, false, false)

  // ----- provenance -----

  datatype Source =
    TimeSimulation | ConfirmedEndpoint | HeldLastKnown | LiveCalibrated | LiveInstant | Encoder | Reported

  datatype Confidence = Measured | Observed | ReportedOnly | Estimated

  datatype Resolved = Resolved(value: real, source: Source, confidence: Confidence)

  function OrFallback(value: Option<real>, fallback: Option<real>, source: Source, confidence: Confidence)
    : Option<Resolved>
  {
    match (if value.Some? then value else fallback)
    case Some(v) => Some(Resolved(v, source, confidence))
    case None => None
  }

  /** `resolve_position`, branch for branch. */
  function Resolve(status: Option<Status>, simulated: Option<real>, lastKnown: Option<real>): Option<Resolved>
  {
    if simulated.Some? then Some(Resolved(simulated.value, TimeSimulation, Estimated))
    else if status.None? then None
    else
      var s := status.value;
      if s.confirmedEnd then OrFallback(s.position, lastKnown, ConfirmedEndpoint, Observed)
      else if s.position.None? && lastKnown.Some? then Some(Resolved(lastKnown.value, HeldLastKnown, Estimated))
      else if s.calibrated then OrFallback(s.position, lastKnown, LiveCalibrated, Observed)
      else if s.instant then OrFallback(s.position, lastKnown, LiveInstant, Observed)
      else if s.position.Some? && s.currentRaw.Some? && s.closedRaw.Some? && s.openRaw.Some?
              && s.closedRaw != s.openRaw then Some(Resolved(s.position.value, Encoder, Measured))
      else if s.position.Some? && s.AtEnd() then Some(Resolved(s.position.value, ConfirmedEndpoint, Observed))
      else if s.position.Some? then Some(Resolved(s.position.value, Reported, ReportedOnly))
      else None
  }

  /** Through all its branches the value is the simulation, else the status, else the last known
      position; and the animation or a held value is the only thing ever called an estimate. */
  lemma ResolveValue(status: Option<Status>, simulated: Option<real>, lastKnown: Option<real>)
    ensures var r := Resolve(status, simulated, lastKnown);
            && (if simulated.Some? then r.Some? && r.value.value == simulated.value
                else if status.None? then r.None?
                else if status.value.position.Some? then r.Some? && r.value.value == status.value.position.value
                else if lastKnown.Some? then r.Some? && r.value.value == lastKnown.value
                else r.None?)
            && (r.Some? ==> (r.value.confidence.Estimated? <==>
                               simulated.Some? || (status.value.position.None? && !status.value.confirmedEnd)))
  {
  }

  // ----- the controller's state -----

  /** What the calibration profile provides: travel speeds and live-scalar bounds. */
  datatype Profile = Profile(openSpeed: Option<real>, closeSpeed: Option<real>, liveBounds: Option<(int, int)>)

  /** Calibrated speeds are positive (Calibration.TravelSpeed). */
  predicate ProfileOk(p: Profile)
  {
    && (p.openSpeed.Some? ==> p.openSpeed.value > 0.0)
    && (p.closeSpeed.Some? ==> p.closeSpeed.value > 0.0)
  }

  /** What sending a stop remembers until the command returns: whether it was sent from motion,
      and then the position shown at that moment. */
  datatype Capture = Capture(fromMotion: bool, shown: Option<real>)

  /** `flying` holds the captures of the stops whose commands have not returned yet; several
      tasks may be waiting for one. */
  datatype State = State(
    action: Option<Action>, anchor: Option<real>, anchorAt: Option<real>, startedAt: Option<real>,
    deadline: Option<real>, confirmed: bool, target: Option<real>, speed: Option<real>,
    lastKnown: Option<real>, observed: bool, data: Option<Status>,
    stopAt: Option<real>, stopFromMotion: bool, flying: seq<Capture>, calibrating: bool, profile: Profile)

  function InitialState(profile: Profile): State
  {
    State(None, None, None, None, None, false, None, None, None, false, None, None, false, [], false, profile)
  }

  function SimulationSpeed(p: Profile, action: Action): real
  {
    match (if action.Open? then p.openSpeed else p.closeSpeed)
    case None => FALLBACK_SPEED
    case Some(v) => v * CALIBRATED_FACTOR
  }

  /** The animated position `elapsed` seconds after the anchor. */
  function Animated(action: Action, anchor: real, speed: real, target: Option<real>, elapsed: real): real
  {
    if action.Open? then
      var calculated := Min(100.0, anchor + speed * elapsed);
      var cap := if target.None? then (if anchor >= 100.0 then 100.0 else Max(99.0, anchor))
                 else if anchor < target.value then target.value else anchor;
      Max(0.0, Min(calculated, cap))
    else
      var calculated := Max(0.0, anchor - speed * elapsed);
      var floor := if target.None? then (if anchor <= 0.0 then 0.0 else Min(1.0, anchor))
                   else if anchor > target.value then target.value else anchor;
      Min(100.0, Max(calculated, floor))
  }

  /** `_current_simulated_position`. */
  function Simulated(s: State, now: real): Option<real>
  {
    if s.action.None? || s.anchor.None? || s.anchorAt.None? || s.speed.None? then None
    else Some(Animated(s.action.value, s.anchor.value, s.speed.value, s.target, Max(0.0, now - s.anchorAt.value)))
  }

  /** `display_position`. */
  function Display(s: State, now: real): Option<real>
  {
    match Resolve(s.data, Simulated(s, now), s.lastKnown)
    case None => None
    case Some(r) => Some(Round1(r.value))
  }

  predicate ReportingObserved(s: State)
  {
    s.observed || (s.data.Some? && s.data.value.position.Some?)
  }

  /** Where an animation heads for, as the deadline computation sees it. */
  function Limit(action: Action, target: Option<real>): real
  {
    if target.Some? then target.value else if action.Open? then 100.0 else 0.0
  }

  function DeadlineFor(now: real, action: Action, target: Option<real>, from: real, speed: real): real
  {
    var expected := if speed > 0.0 then Abs(Limit(action, target) - from) / speed else 0.0;
    now + Max(START_GRACE, expected + TIMEOUT_PADDING)
  }

  function AfterClear(s: State): State
  {
    s.(action := None, anchor := None, anchorAt := None, startedAt := None, deadline := None,
       confirmed := false, target := None, speed := None)
  }

  /** `_start_position_simulation`. */
  function AfterStart(s: State, action: Action, target: Option<real>, now: real): State
  {
    var anchor := if Simulated(s, now).Some? then Simulated(s, now) else Display(s, now);
    if !ReportingObserved(s) || anchor.None? then s
    else
      var speed := SimulationSpeed(s.profile, action);
      var goal := if target.None? then None else Some(Clamp(target.value));
      s.(action := Some(action), anchor := anchor, anchorAt := Some(now), startedAt := Some(now),
         deadline := Some(DeadlineFor(now, action, goal, anchor.value, speed)),
         confirmed := false, target := goal, speed := Some(speed))
  }

  /** `_rebase_position_simulation`. */
  function AfterRebase(s: State, action: Action, position: real, keepTarget: bool, now: real): State
  {
    var speed := SimulationSpeed(s.profile, action);
    var goal := if keepTarget then s.target else None;
    s.(action := Some(action), anchor := Some(Clamp(position)), anchorAt := Some(now),
       startedAt := if s.startedAt.None? then Some(now) else s.startedAt,
       deadline := Some(DeadlineFor(now, action, goal, position, speed)),
       confirmed := true, target := goal, speed := Some(speed))
  }

  /** `_hold_position_simulation`. */
  function AfterHold(s: State, now: real): State
  {
    AfterClear(match Simulated(s, now) case Some(p) => s.(lastKnown := Some(Round1(p))) case None => s)
  }

  function MotionAction(state: Motion): Option<Action>
  {
    if state.Opening? then Some(Open) else if state.Closing? then Some(Close) else None
  }

  /** `_sync_position_simulation_from_status`. */
  function AfterSync(s: State, status: Status, now: real): State
  {
    var realAction := MotionAction(status.state);
    if s.calibrating then AfterClear(s)
    else if (s.action == Some(Open) && status.state.AtOpen?) || (s.action == Some(Close) && status.state.AtClosed?)
    then AfterClear(s)
    else if status.position.None? then
      if realAction.Some? then
        var started := if s.action.None? then AfterStart(s, realAction.value, None, now) else s;
        if started.action == realAction then started.(confirmed := true) else started
      else if status.Resting() then AfterHold(s, now)
      else s
    else if realAction.Some? then
      AfterRebase(s, realAction.value, status.position.value, realAction == s.action, now)
    else if s.action.None? then s
    else if !s.confirmed && s.startedAt.Some? && now - s.startedAt.value < START_GRACE then s
    else AfterClear(s)
  }

  /** `_apply_recent_stop_status_hint`. */
  function AfterHint(s: State, status: Status, now: real): (State, Status)
  {
    if s.stopAt.None? then (s, status)
    else if now - s.stopAt.value > STOP_OVERRIDE then (s.(stopAt := None, stopFromMotion := false), status)
    else if !s.stopFromMotion || !(status.AtEnd() || status.Moving()) then (s, status)
    else (s, status.(state := Stopped, position := None))
  }

  /** `_normalize_live_scalar_status`: a raw live position becomes a percentage. */
  function LiveScalar(s: State, status: Status): Status
  {
    match s.profile.liveBounds
    case None => status
    case Some((closed, open)) =>
      if !status.rawScale || status.liveRaw.None? || closed == open then status
      else
        var percent := Clamp((status.liveRaw.value - closed) as real / (open - closed) as real * 100.0);
        status.(position := Some(Round1(percent)), calibrated := true)
  }

  /** `_normalize_status_for_display`. */
  function AfterNormalize(s: State, raw: Status): (State, Status)
  {
    var status := LiveScalar(s, raw);
    var kept := if status.position.None? && s.action.None? && s.data.Some? && s.data.value.AtEnd() && status.Resting()
                then s.(lastKnown := None) else s;
    if status.position.None? && ReportingObserved(kept) && status.AtEnd()
    then (kept, status.(position := Some(if status.state.AtOpen? then 100.0 else 0.0), confirmedEnd := true))
    else (kept, status)
  }

  /** The position part of `_store_successful_status`. */
  function AfterStore(s: State, status: Status, now: real): State
  {
    AfterSync(if status.position.Some? then s.(observed := true, lastKnown := status.position) else s, status, now)
  }

  /** A status arrives, by poll or by event: hint, normalize, store, publish. */
  function AfterStatus(s: State, raw: Status, now: real): State
  {
    var (hinted, masked) := AfterHint(s, raw, now);
    var (normalized, status) := AfterNormalize(hinted, masked);
    AfterStore(normalized, status, now).(data := Some(status))
  }

  /** What an unsolicited event updates. */
  datatype Update = Update(state: Option<Motion>, position: Option<real>, liveRaw: Option<int>, rawScale: Option<bool>)

  function CurrentStatus(s: State): Status
  {
    if s.data.Some? then s.data.value else UNKNOWN_STATUS
  }

  /** The status an event makes out of the current one (`_apply_event`,
      custom_components/nice_bidiwifi/controllers/events.py). */
  function Merged(s: State, u: Update): Status
  {
    var base := CurrentStatus(s);
    base.(state := if u.state.Some? then u.state.value else base.state,
          position := if u.position.Some? then u.position else base.position,
          instant := base.instant || u.position.Some?,
          liveRaw := if u.liveRaw.Some? then u.liveRaw else base.liveRaw,
          rawScale := if u.rawScale.Some? then u.rawScale.value else base.rawScale)
  }

  /** An event that changes nothing the status holds only republishes it (`other` stands for the
      fields that are not modelled). */
  function AfterUpdate(s: State, u: Update, other: bool, now: real): State
  {
    if other || u.state.Some? || u.position.Some? || Merged(s, u) != CurrentStatus(s)
    then AfterStatus(s, Merged(s, u), now)
    else s.(data := Some(CurrentStatus(s)))
  }

  /** The client accepted an open or close command; `after` is the time it returned. */
  function AfterMove(s: State, action: Action, target: Option<real>, simulate: bool, after: real): State
  {
    var sent := s.(stopAt := None, stopFromMotion := false);
    if simulate then AfterStart(sent, action, target, after) else sent
  }

  /** Low-level actions: the partial openings, with their target if it is known, the
      step-by-step action, and all others. */
  datatype LowLevel = PartialOpening(target: Option<real>) | StepStep | OtherAction

  /** The client accepted a low-level action (`_async_send_dep_action`). */
  function AfterLowLevel(s: State, kind: LowLevel, after: real): State
  {
    match kind
    case PartialOpening(target) => AfterMove(s, Open, target, true, after)
    case StepStep => AfterClear(s.(stopAt := None, stopFromMotion := false))
    case OtherAction => AfterClear(s)
  }

  function Captured(s: State, now: real): Capture
  {
    var fromMotion := s.action.Some? || (s.data.Some? && s.data.value.Moving());
    Capture(fromMotion, if fromMotion then Display(s, now) else None)
  }

  /** A stop is sent: the display is captured before the command is awaited. */
  function AfterStopSent(s: State, now: real): State
  {
    s.(flying := s.flying + [Captured(s, now)])
  }

  function Landed(s: State, k: nat): State
    requires k < |s.flying|
  {
    s.(flying := s.flying[..k] + s.flying[k + 1..])
  }

  /** The client accepted the stop whose capture is number `k`; statuses and events may have
      come in since it was sent. */
  function AfterStopAccepted(s: State, k: nat, after: real): State
    requires k < |s.flying|
  {
    var capture := s.flying[k];
    AfterClear(Landed(s, k).(stopAt := Some(after), stopFromMotion := capture.fromMotion,
                             lastKnown := if capture.shown.Some? then Some(Clamp(capture.shown.value))
                                          else s.lastKnown))
  }

  /** A command failed; a failed stop gives up its capture. */
  function AfterStopFailed(s: State, k: nat): State
    requires k < |s.flying|
  {
    AfterClear(Landed(s, k))
  }

  /** A tick of the animation task. */
  function AfterTick(s: State, now: real): State
  {
    if s.action.Some? && s.deadline.Some? && now > s.deadline.value then AfterClear(s) else s
  }

  // ----- the controller as the mutable object it is -----

  class PositionController {
    var profile: Profile
    var action: Option<Action>
    var anchor: Option<real>
    var anchorAt: Option<real>
    var startedAt: Option<real>
    var deadline: Option<real>
    var confirmed: bool
    var target: Option<real>
    var speed: Option<real>
    var lastKnown: Option<real>
    var observed: bool
    var data: Option<Status>
    var stopAt: Option<real>
    var stopFromMotion: bool
    var flying: seq<Capture>  // held by the tasks that wait for a stop to return
    var calibrating: bool

    function View(): State
      reads this
    {
      State(action, anchor, anchorAt, startedAt, deadline, confirmed, target, speed,
            lastKnown, observed, data, stopAt, stopFromMotion, flying, calibrating, profile)
    }

    constructor (profile: Profile)
      ensures View() == InitialState(profile)
    {
      this.profile := profile;
      action, anchor, anchorAt, startedAt, deadline, confirmed, target, speed :=
        None, None, None, None, None, false, None, None;
      lastKnown, observed, data, stopAt, stopFromMotion := None, false, None, None, false;
      flying, calibrating := [], false;
    }

    method ClearSimulation()
      modifies `action, `anchor, `anchorAt, `startedAt, `deadline, `confirmed, `target, `speed
      ensures action.None? && anchor.None? && anchorAt.None? && startedAt.None? && deadline.None?
      ensures !confirmed && target.None? && speed.None?
    {
      action := None;
      anchor := None;
      anchorAt := None;
      startedAt := None;
      deadline := None;
      confirmed := false;
      target := None;
      speed := None;
    }

    /** The block of assignments that starting and rebasing share. */
    method Animate(action: Action, anchor: real, now: real, started: real, until: real,
                   confirmed: bool, target: Option<real>, speed: real)
      modifies `action, `anchor, `anchorAt, `startedAt, `deadline, `confirmed, `target, `speed
      ensures this.action == Some(action) && this.anchor == Some(anchor) && anchorAt == Some(now)
      ensures startedAt == Some(started) && deadline == Some(until)
      ensures this.confirmed == confirmed && this.target == target && this.speed == Some(speed)
    {
      this.action := Some(action);
      this.anchor := Some(anchor);
      anchorAt := Some(now);
      startedAt := Some(started);
      assert View() == old(View()).(action := Some(action), anchor := Some(anchor), anchorAt := Some(now),
                                    startedAt := Some(started));
      deadline := Some(until);
      this.confirmed := confirmed;
      this.target := target;
      this.speed := Some(speed);
    }

    method StartSimulation(action: Action, target: Option<real>, now: real)
      modifies this
      ensures View() == AfterStart(old(View()), action, target, now)
    {
      hide Simulated, Display, DeadlineFor, SimulationSpeed, Clamp;
      if !ReportingObserved(View()) {
        return;
      }
      var anchor := Simulated(View(), now);
      if anchor.None? {
        anchor := Display(View(), now);
      }
      if anchor.None? {
        return;
      }
      var speed := SimulationSpeed(profile, action);
      var goal := if target.None? then None else Some(Clamp(target.value));
      var until := DeadlineFor(now, action, goal, anchor.value, speed);
      Animate(action, anchor.value, now, now, until, false, goal, speed);
    }

    method RebaseSimulation(action: Action, position: real, keepTarget: bool, now: real)
      modifies this
      ensures View() == AfterRebase(old(View()), action, position, keepTarget, now)
    {
      hide DeadlineFor, SimulationSpeed, Clamp;
      var speed := SimulationSpeed(profile, action);
      var goal := if keepTarget then target else None;
      var started := if startedAt.None? then now else startedAt.value;
      var until := DeadlineFor(now, action, goal, position, speed);
      Animate(action, Clamp(position), now, started, until, true, goal, speed);
    }

    method HoldSimulation(now: real)
      modifies this
      ensures View() == AfterHold(old(View()), now)
    {
      var simulated := Simulated(View(), now);
      if simulated.Some? {
        lastKnown := Some(Round1(simulated.value));
      }
      ClearSimulation();
    }

    method SyncFromStatus(status: Status, now: real)
      modifies this
      ensures View() == AfterSync(old(View()), status, now)
    {
      if calibrating {
        ClearSimulation();
        return;
      }
      var realAction := MotionAction(status.state);
      if (action == Some(Open) && status.state.AtOpen?) || (action == Some(Close) && status.state.AtClosed?) {
        ClearSimulation();
        return;
      }
      if status.position.None? {
        if realAction.Some? {
          if action.None? {
            StartSimulation(realAction.value, None, now);
          }
          if action == realAction {
            confirmed := true;
          }
          return;
        }
        if status.Resting() {
          HoldSimulation(now);
        }
        return;
      }
      if realAction.Some? {
        RebaseSimulation(realAction.value, status.position.value, realAction == action, now);
        return;
      }
      if action.None? {
        return;
      }
      if !confirmed && startedAt.Some? && now - startedAt.value < START_GRACE {
        return;
      }
      ClearSimulation();
    }

    method ApplyRecentStopHint(status: Status, now: real) returns (masked: Status)
      modifies this
      ensures (View(), masked) == AfterHint(old(View()), status, now)
    {
      if stopAt.None? {
        return status;
      }
      if now - stopAt.value > STOP_OVERRIDE {
        stopAt, stopFromMotion := None, false;
        return status;
      }
      if !stopFromMotion || status.state.Stopped? || !(status.AtEnd() || status.Moving()) {
        return status;
      }
      return status.(state := Stopped, position := None);
    }

    method NormalizeForDisplay(raw: Status) returns (status: Status)
      modifies this
      ensures (View(), status) == AfterNormalize(old(View()), raw)
    {
      status := LiveScalar(View(), raw);
      if status.position.None? && action.None? && data.Some? && data.value.AtEnd() && status.Resting() {
        lastKnown := None;
      }
      if status.position.None? && ReportingObserved(View()) && status.AtEnd() {
        status := status.(position := Some(if status.state.AtOpen? then 100.0 else 0.0), confirmedEnd := true);
      }
    }

    method StoreSuccessfulStatus(status: Status, now: real)
      modifies this
      ensures View() == AfterStore(old(View()), status, now)
    {
      if status.position.Some? {
        observed, lastKnown := true, status.position;
      }
      SyncFromStatus(status, now);
    }

    method ReceiveStatus(raw: Status, now: real)
      modifies this
      ensures View() == AfterStatus(old(View()), raw, now)
    {
      var masked := ApplyRecentStopHint(raw, now);
      var status := NormalizeForDisplay(masked);
      StoreSuccessfulStatus(status, now);
      data := Some(status);
    }

    method ReceiveUpdate(u: Update, other: bool, now: real)
      modifies this
      ensures View() == AfterUpdate(old(View()), u, other, now)
    {
      hide AfterStatus;
      var merged := Merged(View(), u);
      if other || u.state.Some? || u.position.Some? || merged != CurrentStatus(View()) {
        ReceiveStatus(merged, now);
      } else {
        data := Some(merged);
      }
    }

    /** What a movement command does to the record of the last stop. */
    method ForgetStop()
      modifies `stopAt, `stopFromMotion
      ensures stopAt.None? && !stopFromMotion
    {
      stopAt, stopFromMotion := None, false;
    }

    method SendMove(action: Action, target: Option<real>, simulate: bool, after: real)
      modifies this
      ensures View() == AfterMove(old(View()), action, target, simulate, after)
    {
      ForgetStop();
      if simulate {
        StartSimulation(action, target, after);
      }
    }

    method SendLowLevel(kind: LowLevel, after: real)
      modifies this
      ensures View() == AfterLowLevel(old(View()), kind, after)
    {
      match kind
      case PartialOpening(target) => SendMove(Open, target, true, after);
      case StepStep =>
        ForgetStop();
        ClearSimulation();
      case OtherAction => ClearSimulation();
    }

    /** The first half of sending a stop, before the command is awaited. */
    method StopSent(now: real)
      modifies this
      ensures View() == AfterStopSent(old(View()), now)
    {
      var fromMotion := action.Some? || (data.Some? && data.value.Moving());
      var shown := if fromMotion then Display(View(), now) else None;
      flying := flying + [Capture(fromMotion, shown)];
    }

    /** The second half, once the command was accepted. */
    method StopAccepted(k: nat, after: real)
      requires k < |flying|
      modifies this
      ensures View() == AfterStopAccepted(old(View()), k, after)
    {
      hide Clamp;
      ghost var before := View();
      RecordStop(flying[k], after);
      Land(k);
      assert View() == Landed(before, k).(stopAt := stopAt, stopFromMotion := stopFromMotion, lastKnown := lastKnown);
      ClearSimulation();
    }

    method RecordStop(capture: Capture, after: real)
      modifies `stopAt, `stopFromMotion, `lastKnown
      ensures stopAt == Some(after) && stopFromMotion == capture.fromMotion
      ensures lastKnown == if capture.shown.Some? then Some(Clamp(capture.shown.value)) else old(lastKnown)
    {
      stopAt, stopFromMotion := Some(after), capture.fromMotion;
      if capture.shown.Some? {
        lastKnown := Some(Clamp(capture.shown.value));
      }
    }

    method Land(k: nat)
      requires k < |flying|
      modifies `flying
      ensures flying == old(flying)[..k] + old(flying)[k + 1..]
    {
      flying := flying[..k] + flying[k + 1..];
    }

    method StopFailed(k: nat)
      requires k < |flying|
      modifies this
      ensures View() == AfterStopFailed(old(View()), k)
    {
      Land(k);
      ClearSimulation();
    }

    method Tick(now: real)
      modifies this
      ensures View() == AfterTick(old(View()), now)
    {
      if action.Some? && deadline.Some? && now > deadline.value {
        ClearSimulation();
      }
    }
  }
}
