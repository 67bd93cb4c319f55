/** What the position bookkeeping means, step by step: live positions, animations, updates and
    stops, told without the functions that compute them. */
module PositionLaws {
  import opened Prelude
  import opened Position
  import opened PositionRuns
  import E = Encoder

  // ----- live positions -----

  lemma LivePublished(s: State, raw: Status, now: real)
    requires HasLive(s, raw)
    ensures var (closed, open) := s.profile.liveBounds.value;
            var data := AfterStatus(s, raw, now).data;
            && data.Some? && data.value.calibrated
            && data.value.position == Some(Round1(E.Fraction(closed, open, raw.liveRaw.value)))
  {
    hide AfterSync, Round1, Clamp;
    var stored, status := StoredStatus(s, raw, now);
    var (hinted, masked) := AfterHint(s, raw, now);
    HintMasks(s, raw, now);
    hide AfterHint;
    assert AfterStatus(s, raw, now).data == Some(AfterNormalize(hinted, masked).1);
  }

  /** A status with a raw live position publishes the percentage it stands for, whichever way the
      scalar counts, and whatever number the status holds besides. */
  lemma LivePositionReads(s: State, raw: Status, now: real)
    requires HasLive(s, raw)
    ensures var (closed, open) := s.profile.liveBounds.value;
            var data := AfterStatus(s, raw, now).data;
            && data.Some? && data.value.position.Some?
            && E.ReadsAs(closed, open, raw.liveRaw.value, data.value.position.value)
  {
    hide AfterStatus, Round1;
    var (closed, open) := s.profile.liveBounds.value;
    LivePublished(s, raw, now);
    E.FractionReads(closed, open, raw.liveRaw.value);
  }

  /** And a raw position nearer to open is never published lower. */
  lemma LivePositionOrder(s: State, a: Status, b: Status, now: real)
    requires HasLive(s, a) && HasLive(s, b)
    requires var (closed, open) := s.profile.liveBounds.value;
             if open > closed then a.liveRaw.value <= b.liveRaw.value else b.liveRaw.value <= a.liveRaw.value
    ensures var low, high := AfterStatus(s, a, now).data, AfterStatus(s, b, now).data;
            low.Some? && high.Some? && low.value.position.Some? && high.value.position.Some?
            && low.value.position.value <= high.value.position.value
  {
    hide AfterStatus, RoundHalfEven;
    var (closed, open) := s.profile.liveBounds.value;
    LivePublished(s, a, now);
    LivePublished(s, b, now);
    E.FractionMonotone(closed, open, a.liveRaw.value, b.liveRaw.value);
    RoundMonotone(E.Fraction(closed, open, a.liveRaw.value) * 10.0, E.Fraction(closed, open, b.liveRaw.value) * 10.0);
  }

  // ----- animations -----

  /** How fast an animation moves: four fifths of the calibrated speed in its direction, or one
      percent a second. */
  function Pace(profile: Profile, action: Action): real
  {
    match action
    case Open => if profile.openSpeed.Some? then 0.8 * profile.openSpeed.value else 1.0
    case Close => if profile.closeSpeed.Some? then 0.8 * profile.closeSpeed.value else 1.0
  }

  function Way(pace: real, elapsed: real): real { pace * elapsed }

  /** At `t` the animation has moved from `anchor` in the direction of `action`, unless it reached the
      target, or the last percent before the end. */
  predicate MovesTo(s: State, action: Action, anchor: real, target: Option<real>, now: real, t: real)
  {
    Simulated(s, t) == Some(Line(action, anchor, Way(Pace(s.profile, action), t - now), Goal(action, anchor, target)))
  }

  /** A tick at `t` clears the animation exactly when it could have reached the target, or the end,
      more than half a minute ago. */
  predicate LastsTo(s: State, action: Action, anchor: real, target: Option<real>, now: real, t: real, travel: real)
  {
    Reaches(s.profile, action, anchor, target, travel) ==>
      AfterTick(s, t) == if t > now + travel + 30.0 then AfterClear(s) else s
  }

  /** The animation that starts at `now`. */
  ghost predicate Animates(s: State, action: Action, anchor: real, target: Option<real>, now: real)
  {
    && s.action == Some(action)
    && (forall t: real :: t >= now ==> MovesTo(s, action, anchor, target, now, t))
    && (forall t: real, travel: real :: LastsTo(s, action, anchor, target, now, t, travel))
  }

  /** The time the way from the anchor to the target, or to the end, takes. */
  predicate Reaches(profile: Profile, action: Action, anchor: real, target: Option<real>, travel: real)
  {
    var limit := if target.Some? then target.value else if action.Open? then 100.0 else 0.0;
    Pace(profile, action) * travel == if limit > anchor then limit - anchor else anchor - limit
  }

  lemma PaceIsSpeed(profile: Profile, action: Action)
    requires ProfileOk(profile)
    ensures Pace(profile, action) == SimulationSpeed(profile, action) > 0.0
  {
  }

  lemma TravelIs(profile: Profile, action: Action, anchor: real, target: Option<real>, travel: real)
    requires ProfileOk(profile) && Reaches(profile, action, anchor, target, travel)
    ensures travel == Abs(Limit(action, target) - anchor) / SimulationSpeed(profile, action)
    ensures travel >= 0.0
  {
    hide SimulationSpeed;
    PaceIsSpeed(profile, action);
    var pace, way := Pace(profile, action), Abs(Limit(action, target) - anchor);
    Quotient(way, pace);
    ProductOrder(travel, way / pace, pace);
    ProductOrder(way / pace, travel, pace);
    ProductOrder(0.0, travel, pace);
  }

  lemma FieldsMove(s: State, action: Action, anchor: real, target: Option<real>, now: real, t: real)
    requires ProfileOk(s.profile) && Percent(anchor) && OptionalPercent(target) && t >= now
    requires s.action == Some(action) && s.anchor == Some(anchor) && s.anchorAt == Some(now) && s.target == target
    requires s.speed == Some(SimulationSpeed(s.profile, action))
    ensures MovesTo(s, action, anchor, target, now, t)
  {
    PaceIsSpeed(s.profile, action);
    var pace, elapsed := Pace(s.profile, action), t - now;
    hide Animated, Pace, SimulationSpeed, Line, Goal, Way;
    AnimatedWay(action, anchor, pace, target, elapsed);
    assert Simulated(s, t) == Some(Animated(action, anchor, pace, target, elapsed));
  }

  lemma AnimatedWay(action: Action, anchor: real, pace: real, target: Option<real>, elapsed: real)
    requires Percent(anchor) && OptionalPercent(target) && pace > 0.0 && elapsed >= 0.0
    ensures Animated(action, anchor, pace, target, elapsed)
            == Line(action, anchor, Way(pace, elapsed), Goal(action, anchor, target))
  {
    AnimatedIsLine(action, anchor, pace, target, elapsed);
  }

  lemma FieldsTick(s: State, action: Action, anchor: real, target: Option<real>, now: real, t: real, travel: real)
    requires ProfileOk(s.profile) && s.action == Some(action)
    requires s.deadline == Some(DeadlineFor(now, action, target, anchor, SimulationSpeed(s.profile, action)))
    ensures LastsTo(s, action, anchor, target, now, t, travel)
  {
    if Reaches(s.profile, action, anchor, target, travel) {
      TravelIs(s.profile, action, anchor, target, travel);
      PaceIsSpeed(s.profile, action);
      hide Pace, SimulationSpeed, Abs, Limit;
    }
  }

  /** A state whose animation fields were set at `now` animates. */
  lemma FieldsAnimate(s: State, action: Action, anchor: real, target: Option<real>, now: real)
    requires ProfileOk(s.profile) && Percent(anchor) && OptionalPercent(target)
    requires s.action == Some(action) && s.anchor == Some(anchor) && s.anchorAt == Some(now) && s.target == target
    requires s.speed == Some(SimulationSpeed(s.profile, action))
    requires s.deadline == Some(DeadlineFor(now, action, target, anchor, SimulationSpeed(s.profile, action)))
    ensures Animates(s, action, anchor, target, now)
  {
    hide MovesTo, LastsTo, DeadlineFor, SimulationSpeed;
    forall t: real | t >= now ensures MovesTo(s, action, anchor, target, now, t) {
      FieldsMove(s, action, anchor, target, now, t);
    }
    forall t: real, travel: real ensures LastsTo(s, action, anchor, target, now, t, travel) {
      FieldsTick(s, action, anchor, target, now, t, travel);
    }
  }

  /** An accepted command animates from where the display is, towards the target as a percentage. */
  lemma MoveAnimates(s: State, action: Action, target: Option<real>, now: real)
    requires Inv(s) && s.observed && Display(s, now).Some?
    ensures var anchor := if Simulated(s, now).Some? then Simulated(s, now) else Display(s, now);
            var goal := if target.None? then None
                        else if target.value < 0.0 then Some(0.0)
                        else if target.value > 100.0 then Some(100.0) else target;
            && anchor.Some? && Animates(AfterMove(s, action, target, true, now), action, anchor.value, goal, now)
            && AfterMove(s, action, target, true, now).startedAt == Some(now)
            && !AfterMove(s, action, target, true, now).confirmed
    ensures AfterMove(s, action, target, false, now) == s.(stopAt := None, stopFromMotion := false)
  {
    hide Display, Simulated, SimulationSpeed, DeadlineFor, TimeLeft, Animates;
    SimulatedPercent(s, now);
    DisplayPercent(s, now);
    var sent := s.(stopAt := None, stopFromMotion := false);
    SameDisplay(s, sent, now);
    var anchor := if Simulated(s, now).Some? then Simulated(s, now) else Display(s, now);
    var after := AfterMove(s, action, target, true, now);
    FieldsAnimate(after, action, anchor.value, after.target, now);
  }

  lemma SameDisplay(s: State, t: State, now: real)
    requires t == s.(stopAt := t.stopAt, stopFromMotion := t.stopFromMotion)
    ensures Simulated(t, now) == Simulated(s, now) && Display(t, now) == Display(s, now)
  {
  }

  /** A position reported in motion starts the animation anew from there; a target survives in the
      direction it was set for and no other, and the animation counts as confirmed. */
  lemma ReportAnimates(s: State, raw: Status, now: real, action: Action)
    requires Inv(s) && !s.calibrating && OptionalPercent(raw.position) && Brought(s, raw, now).Some?
    requires Heading(ShownState(s, raw, now)) == Some(action)
    ensures var after := AfterStatus(s, raw, now);
            && Animates(after, action, Brought(s, raw, now).value,
                        if s.action == Some(action) then s.target else None, now)
            && after.confirmed && after.startedAt == if s.startedAt.Some? then s.startedAt else Some(now)
  {
    hide AfterStatus, Brought, SimulationSpeed, DeadlineFor, TimeLeft, Animates, Simulated, Display;
    var stored, status := StoredStatus(s, raw, now);
    BroughtPercent(s, raw, now);
    var after := AfterStatus(s, raw, now);
    ClampPercent(status.position.value);
    FieldsAnimate(after, action, status.position.value, after.target, now);
  }

  lemma ClampPercent(x: real)
    requires Percent(x)
    ensures Clamp(x) == x
  {
  }

  /** Movement reported without a number: it starts an animation without target when there is none and
      positions were seen, confirms one in the same direction, and lets one in the other be. */
  lemma NumberlessMotion(s: State, raw: Status, now: real, action: Action)
    requires Inv(s) && !s.calibrating && Brought(s, raw, now).None?
    requires Heading(ShownState(s, raw, now)) == Some(action)
    ensures var after := AfterStatus(s, raw, now);
            if s.action.Some? then
              && after.action == s.action && after.anchor == s.anchor && after.anchorAt == s.anchorAt
              && after.startedAt == s.startedAt && after.deadline == s.deadline && after.target == s.target
              && after.speed == s.speed && after.confirmed == (s.confirmed || s.action == Some(action))
            else if s.observed && Display(s, now).Some? then
              Animates(after, action, Display(s, now).value, None, now) && after.confirmed
            else after.action.None?
  {
    hide AfterStatus, Brought, SimulationSpeed, DeadlineFor, TimeLeft, Animates, Animated, Resolve, Round1;
    var stored, status := StoredStatus(s, raw, now);
    var after := AfterStatus(s, raw, now);
    assert !status.Resting();
    assert Display(stored, now) == Display(s, now) by {
      SameDisplayed(s, stored, now);
    }
    DisplayPercent(s, now);
    if s.action.None? && s.observed && Display(s, now).Some? {
      FieldsAnimate(after, action, Display(s, now).value, None, now);
    }
  }

  lemma SameDisplayed(s: State, t: State, now: real)
    requires t == s.(stopAt := t.stopAt, stopFromMotion := t.stopFromMotion, observed := t.observed)
    ensures Simulated(t, now) == Simulated(s, now) && Display(t, now) == Display(s, now)
  {
  }

  /** When the commanded end is reported the animation is over; the other end, or rest, with a
      position ends it too, unless it was just commanded. */
  lemma EndsAnimation(s: State, raw: Status, now: real)
    requires Inv(s) && s.action.Some? && Heading(ShownState(s, raw, now)).None?
    ensures var after := AfterStatus(s, raw, now);
            var state := ShownState(s, raw, now);
            if s.calibrating || (s.action == Some(Open) && state == AtOpen)
               || (s.action == Some(Close) && state == AtClosed)
            then after.action.None?
            else if Brought(s, raw, now).None? then after.action.None? <==> state.Stopped? || state.PartiallyOpen?
            else after.action.None? <==> s.confirmed || s.startedAt.None? || now - s.startedAt.value >= 8.0
  {
    hide AfterStatus, Brought, AfterStart, AfterRebase, Simulated;
    var stored, status := StoredStatus(s, raw, now);
  }

  // ----- updates -----

  /** What an event publishes: its state and position where it has them, the current ones elsewhere,
      and whatever a raw live position, a recent stop or an endpoint makes of them. */
  lemma UpdatePublishes(s: State, u: Update, other: bool, now: real)
    ensures var current := if s.data.Some? then s.data.value else UNKNOWN_STATUS;
            var merged := Merged(s, u);
            && merged.state == (if u.state.Some? then u.state.value else current.state)
            && merged.position == (if u.position.Some? then u.position else current.position)
            && merged.liveRaw == (if u.liveRaw.Some? then u.liveRaw else current.liveRaw)
            && merged.rawScale == (if u.rawScale.Some? then u.rawScale.value else current.rawScale)
            && (merged.instant <==> current.instant || u.position.Some?)
    ensures var current := if s.data.Some? then s.data.value else UNKNOWN_STATUS;
            var merged, after := Merged(s, u), AfterUpdate(s, u, other, now);
            if other || u.state.Some? || u.position.Some? || merged != current then Publishes(s, after, merged, now)
            else after == s.(data := Some(current))
  {
    hide AfterStatus, Brought, ShownState;
    var stored, status := StoredStatus(s, Merged(s, u), now);
  }

  predicate Publishes(s: State, after: State, raw: Status, now: real)
  {
    after.data.Some? && after.data.value.state == ShownState(s, raw, now)
    && after.data.value.position == Brought(s, raw, now)
  }

  // ----- stops -----

  /** What a stop remembers when it is sent, and what its acceptance does with it: for 20 seconds
      reports of movement and endpoints are masked exactly when it was sent in motion, and the
      position shown then is the last known one. */
  lemma StopTakesEffect(s: State, t: State, sent: real, k: nat, after: real, raw: Status, now: real)
    requires Inv(s) && |AfterStopSent(s, sent).flying| == |s.flying| + 1
    requires k < |t.flying| && t.flying[k] == AfterStopSent(s, sent).flying[|s.flying|]
    ensures var moving := s.action.Some? || (s.data.Some? && s.data.value.state in {Opening, Closing});
            var stopped := AfterStopAccepted(t, k, after);
            && stopped.action.None?
            && (Masks(stopped, raw, now)
                <==> moving && now - after <= 20.0 && raw.state in {Opening, Closing, AtOpen, AtClosed})
            && stopped.lastKnown == (if moving && Display(s, sent).Some? then Display(s, sent) else t.lastKnown)
            && stopped.data == t.data
  {
    hide Display, Inv;
    DisplayPercentOf(s, sent);
  }

  lemma DisplayPercentOf(s: State, now: real)
    requires Inv(s)
    ensures OptionalPercent(Display(s, now))
  {
    hide Display;
    DisplayPercent(s, now);
  }

  /** A movement command ends the masking at once. */
  lemma MoveEndsMasking(s: State, action: Action, target: Option<real>, simulate: bool, after: real,
                        raw: Status, now: real)
    ensures !Masks(AfterMove(s, action, target, simulate, after), raw, now)
  {
    StartFrame(s.(stopAt := None, stopFromMotion := false), action, target, after);
    hide AfterStart;
  }

  // ----- what is published -----

  /** Everything a status publishes: its shown state and the position it brings, with a mark for a
      calibrated live position or an endpoint taken for one, and the rest as it came. */
  lemma PublishedStatus(s: State, raw: Status, now: real)
    ensures var after := AfterStatus(s, raw, now);
            var inferred := !HasLive(s, raw) && !Masks(s, raw, now) && raw.position.None? && Brought(s, raw, now).Some?;
            after.data
            == Some(raw.(state := ShownState(s, raw, now), position := Brought(s, raw, now),
                         calibrated := raw.calibrated || HasLive(s, raw),
                         confirmedEnd := raw.confirmedEnd || inferred))
  {
    hide AfterSync, Round1, Clamp;
    var (hinted, masked) := AfterHint(s, raw, now);
    HintMasks(s, raw, now);
    NormalizedPosition(hinted, masked);
  }

  /** A stop is forgotten once its time is over, and not before. */
  lemma StopExpires(s: State, raw: Status, now: real)
    ensures var after := AfterStatus(s, raw, now);
            if s.stopAt.Some? && now - s.stopAt.value > 20.0 then after.stopAt.None? && !after.stopFromMotion
            else after.stopAt == s.stopAt && after.stopFromMotion == s.stopFromMotion
  {
    hide AfterSync, AfterNormalize;
    var (hinted, masked) := AfterHint(s, raw, now);
    NormalizeFrame(hinted, masked);
    var (kept, status) := AfterNormalize(hinted, masked);
    var stored := if status.position.Some? then kept.(observed := true, lastKnown := status.position) else kept;
    SyncFrame(stored, status, now);
  }

  /** Where a displayed position is said to come from. */
  lemma SourceIs(status: Option<Status>, simulated: Option<real>, lastKnown: Option<real>)
    requires Resolve(status, simulated, lastKnown).Some?
    ensures var r := Resolve(status, simulated, lastKnown).value;
            if simulated.Some? then r.source == TimeSimulation && r.confidence == Estimated
            else
              var s := status.value;
              if s.confirmedEnd then r.source == ConfirmedEndpoint && r.confidence == Observed
              else if s.position.None? then r.source == HeldLastKnown && r.confidence == Estimated
              else if s.calibrated then r.source == LiveCalibrated && r.confidence == Observed
              else if s.instant then r.source == LiveInstant && r.confidence == Observed
              else if s.currentRaw.Some? && s.closedRaw.Some? && s.openRaw.Some? && s.closedRaw != s.openRaw
              then r.source == Source.Encoder && r.confidence == Measured
              else if s.state in {AtOpen, AtClosed} then r.source == ConfirmedEndpoint && r.confidence == Observed
              else r.source == Reported && r.confidence == ReportedOnly
  {
  }
}
