/** The watcher that stops the gate at a target position
    (custom_components/nice_bidiwifi/position.py, `_async_stop_at_position`). */
module TargetStop {
  import opened Prelude
  import opened Position
  import opened Encoder

  const POLL_SECONDS: real := 0.5
  const START_LIMIT: real := 8.0
  const LIVE_TOLERANCE: real := 0.5
  const LIVE_SPEED_MARGIN: real := 3.0

  /** What the watcher is told when it is started, and the calibrated travel speed. */
  datatype Plan = Plan(
    action: Action, stopAt: real, stopRaw: Option<int>, delay: Option<real>,
    start: Option<real>, speed: Option<real>, began: real)

  /** One poll: the clock before the read, and what the read brings. */
  datatype Reading = GotStatus(status: Status) | AuthFailed | ReadFailed

  datatype Poll = Poll(now: real, reading: Reading)

  /** The loop variables. */
  datatype Loop = Loop(startedMoving: bool, deadline: Option<real>, adjusted: Option<real>)

  function Begin(plan: Plan): Loop
  {
    Loop(false, if plan.delay.Some? then Some(plan.began + plan.delay.value) else None, plan.start)
  }

  predicate MovingAsCommanded(plan: Plan, status: Status)
  {
    if plan.action.Open? then status.state.Opening? else status.state.Closing?
  }

  /** `_live_position_can_adjust_stop`. */
  predicate CanAdjust(plan: Plan, position: real, elapsed: real, delay: real)
  {
    && plan.start.Some?
    && (if plan.action.Open? then position > plan.start.value + LIVE_TOLERANCE
        else position < plan.start.value - LIVE_TOLERANCE)
    && (elapsed <= 0.0 || delay <= 0.0
        || Abs(plan.stopAt - plan.start.value) <= 0.0
        || var planned := Abs(plan.stopAt - plan.start.value) / delay;
           Abs(position - plan.start.value) / elapsed <= Max(planned * LIVE_SPEED_MARGIN, planned + 10.0))
  }

  /** `_remaining_stop_delay_seconds`. */
  function Remaining(plan: Plan, position: real): Option<real>
  {
    if plan.speed.None? || plan.speed.value <= 0.0 then None
    else
      var left := if plan.action.Open? then plan.stopAt - position else position - plan.stopAt;
      Some(Max(0.0, left) / plan.speed.value)
  }

  datatype Verdict = KeepPolling | SendStop | GiveUp | NoEndpoints

  /** Whether the encoder has crossed the stop threshold; asked only when both are known. */
  function EncoderSays(plan: Plan, status: Status): Checked<bool>
  {
    if plan.stopRaw.Some? && status.currentRaw.Some?
    then RawReached(plan.action, status.closedRaw, status.openRaw, status.currentRaw.value, plan.stopRaw.value)
    else Ok(false)
  }

  /** The live part of a poll with a position: whether it stops at once, and the loop
      variables it leaves. */
  function Adjust(plan: Plan, loop: Loop, status: Status, position: real, now: real): (bool, Loop)
  {
    if plan.delay.None? then (PositionReached(plan.action, position, plan.stopAt), loop)
    else if !MovingAsCommanded(plan, status)
            || !CanAdjust(plan, position, Max(now - plan.began, 0.0), plan.delay.value) then (false, loop)
    else if PositionReached(plan.action, position, plan.stopAt) then (true, loop)
    else if loop.adjusted.Some? && Abs(position - loop.adjusted.value) < LIVE_TOLERANCE then (false, loop)
    else
      match Remaining(plan, position)
      case None => (false, loop)
      case Some(rest) =>
        (false, loop.(deadline := if loop.deadline.Some? then Some(Min(loop.deadline.value, now + rest)) else None,
                      adjusted := Some(position)))
  }

  /** The rest of a poll: the deadline, then the reasons to go on or to give up. */
  function Settle(plan: Plan, loop: Loop, status: Status, now: real): Verdict
  {
    if loop.deadline.Some? && now >= loop.deadline.value then SendStop
    else if MovingAsCommanded(plan, status) || plan.delay.Some? then KeepPolling
    else if status.AtEnd() then GiveUp
    else if loop.startedMoving && status.state.Stopped? then GiveUp
    else if !loop.startedMoving && now > plan.began + START_LIMIT then GiveUp
    else KeepPolling
  }

  /** One turn of the loop after a successful read. */
  function Turn(plan: Plan, loop: Loop, status: Status, now: real): (Loop, Verdict)
  {
    var seen := loop.(startedMoving := loop.startedMoving || MovingAsCommanded(plan, status));
    if status.position.None? then (seen, Settle(plan, seen, status, now))
    else
      match EncoderSays(plan, status)
      case NotAvailable => (seen, NoEndpoints)
      case Identical => (seen, NoEndpoints)
      case Ok(reached) =>
        if reached then (seen, SendStop)
        else
          var (stop, adjusted) := Adjust(plan, seen, status, status.position.value, now);
          (adjusted, if stop then SendStop else Settle(plan, adjusted, status, now))
  }

  /** How a watcher ends, and at which poll; a script that runs out is a cancelled task. */
  datatype Ending = Stopped(at: nat) | GaveUp(at: nat) | Failed(at: nat) | EndpointsMissing(at: nat) | Cancelled

  /** The whole loop, from poll `k` on. */
  function Watch(plan: Plan, loop: Loop, polls: seq<Poll>, k: nat): Ending
    requires k <= |polls|
    decreases |polls| - k
  {
    if k == |polls| then Cancelled
    else match polls[k].reading
         case AuthFailed => Failed(k)
         case ReadFailed => Failed(k)
         case GotStatus(status) =>
           var (next, verdict) := Turn(plan, loop, status, polls[k].now);
           match verdict
           case SendStop => Ending.Stopped(k)
           case GiveUp => GaveUp(k)
           case NoEndpoints => EndpointsMissing(k)
           case KeepPolling => Watch(plan, next, polls, k + 1)
  }

  /** The part of a poll that a live position adjusts. */
  method AdjustDeadline(plan: Plan, status: Status, position: real, now: real,
                        startedMoving: bool, before: Option<real>, seen: Option<real>)
    returns (stop: bool, deadline: Option<real>, adjusted: Option<real>)
    ensures (stop, Loop(startedMoving, deadline, adjusted))
            == Adjust(plan, Loop(startedMoving, before, seen), status, position, now)
  {
    hide CanAdjust, PositionReached, Remaining;
    deadline, adjusted := before, seen;
    if plan.delay.None? {
      return PositionReached(plan.action, position, plan.stopAt), deadline, adjusted;
    }
    if !MovingAsCommanded(plan, status)
       || !CanAdjust(plan, position, Max(now - plan.began, 0.0), plan.delay.value) {
      return false, deadline, adjusted;
    }
    if PositionReached(plan.action, position, plan.stopAt) {
      return true, deadline, adjusted;
    }
    if adjusted.None? || Abs(position - adjusted.value) >= LIVE_TOLERANCE {
      var rest := Remaining(plan, position);
      if rest.Some? {
        if deadline.Some? {
          deadline := Some(Min(deadline.value, now + rest.value));
        }
        adjusted := Some(position);
      }
    }
    return false, deadline, adjusted;
  }

  lemma WatchStep(plan: Plan, loop: Loop, polls: seq<Poll>, k: nat)
    requires k < |polls|
    ensures Watch(plan, loop, polls, k)
            == match polls[k].reading
               case AuthFailed => Failed(k)
               case ReadFailed => Failed(k)
               case GotStatus(status) =>
                 var (next, verdict) := Turn(plan, loop, status, polls[k].now);
                 match verdict
                 case SendStop => Ending.Stopped(k)
                 case GiveUp => GaveUp(k)
                 case NoEndpoints => EndpointsMissing(k)
                 case KeepPolling => Watch(plan, next, polls, k + 1)
  {
    hide Turn;
  }

  /** The watcher itself; `stops` counts the Stop commands it hands over. */
  method StopAtPosition(plan: Plan, polls: seq<Poll>) returns (ending: Ending, stops: nat)
    ensures ending == Watch(plan, Begin(plan), polls, 0)
    ensures stops == if ending.Stopped? then 1 else 0
  {
    stops := 0;
    var startedMoving := false;
    var deadline := if plan.delay.Some? then Some(plan.began + plan.delay.value) else None;
    var adjusted := plan.start;
    var k := 0;
    while k < |polls|
      invariant 0 <= k <= |polls| && stops == 0
      invariant Watch(plan, Loop(startedMoving, deadline, adjusted), polls, k) == Watch(plan, Begin(plan), polls, 0)
    {
      hide Watch, Adjust, RawReached;
      WatchStep(plan, Loop(startedMoving, deadline, adjusted), polls, k);
      var now := polls[k].now;
      if !polls[k].reading.GotStatus? {
        return Failed(k), stops;
      }
      var status := polls[k].reading.status;
      ghost var before := Loop(startedMoving, deadline, adjusted);
      ghost var turn := Turn(plan, before, status, now);
      if MovingAsCommanded(plan, status) {
        startedMoving := true;
      }
      if status.position.Some? {
        var position := status.position.value;
        if plan.stopRaw.Some? && status.currentRaw.Some? {
          if status.closedRaw.None? || status.openRaw.None? {
            return EndpointsMissing(k), stops;
          }
          var reached := RawReached(plan.action, status.closedRaw, status.openRaw,
                                    status.currentRaw.value, plan.stopRaw.value);
          if reached.value {
            stops := stops + 1;
            return Ending.Stopped(k), stops;
          }
        }
        var stop;
        stop, deadline, adjusted := AdjustDeadline(plan, status, position, now, startedMoving, deadline, adjusted);
        if stop {
          stops := stops + 1;
          return Ending.Stopped(k), stops;
        }
      }
      assert turn.0 == Loop(startedMoving, deadline, adjusted);
      if deadline.Some? && now >= deadline.value {
        stops := stops + 1;
        return Ending.Stopped(k), stops;
      }
      k := k + 1;
      if MovingAsCommanded(plan, status) || plan.delay.Some? {
        continue;
      }
      if status.AtEnd() || (startedMoving && status.state.Stopped?)
         || (!startedMoving && now > plan.began + START_LIMIT) {
        return GaveUp(k - 1), stops;
      }
    }
    return Cancelled, stops;
  }

  // ----- what the watcher promises -----

  /** Polls are at least half a second apart, beginning half a second after the start. */
  predicate Timely(plan: Plan, polls: seq<Poll>)
  {
    && (polls != [] ==> polls[0].now >= plan.began + POLL_SECONDS)
    && (forall k :: 0 < k < |polls| ==> polls[k].now >= polls[k - 1].now + POLL_SECONDS)
  }

  lemma {:induction false} PollTimes(plan: Plan, polls: seq<Poll>, k: nat)
    requires Timely(plan, polls) && k < |polls|
    ensures polls[k].now >= plan.began + POLL_SECONDS * (k + 1) as real
  {
    if k > 0 {
      PollTimes(plan, polls, k - 1);
      assert polls[k].now >= polls[k - 1].now + POLL_SECONDS;
      assert POLL_SECONDS * (k + 1) as real == POLL_SECONDS * k as real + POLL_SECONDS;
    }
  }

  /** A turn never moves the stop deadline later, and drops or invents none. */
  lemma TurnDeadline(plan: Plan, loop: Loop, status: Status, now: real)
    requires loop.deadline.Some? <==> plan.delay.Some?
    ensures var next := Turn(plan, loop, status, now).0;
            && (next.deadline.Some? <==> plan.delay.Some?)
            && (plan.delay.Some? ==> next.deadline.value <= loop.deadline.value)
  {
    hide CanAdjust, Remaining;
  }

  /** With a planned delay a turn stops, goes on, or misses its endpoints, and it stops at the
      latest when the deadline has passed. */
  lemma TurnWithDelay(plan: Plan, loop: Loop, status: Status, now: real)
    requires plan.delay.Some? && loop.deadline.Some?
    ensures var verdict := Turn(plan, loop, status, now).1;
            && !verdict.GiveUp?
            && (now >= loop.deadline.value ==> verdict.SendStop? || verdict.NoEndpoints?)
  {
    hide CanAdjust, Remaining;
    TurnDeadline(plan, loop, status, now);
  }

  /** The endings of the loop from poll `k` on, when a delay was planned. */
  lemma {:induction false} WatchWithDelay(plan: Plan, loop: Loop, polls: seq<Poll>, k: nat, bound: real)
    requires k <= |polls| && plan.delay.Some? && loop.deadline.Some? && loop.deadline.value <= bound
    ensures var ending := Watch(plan, loop, polls, k);
            && !ending.GaveUp?
            && (ending.Cancelled? ==> forall j :: k <= j < |polls| ==> polls[j].now < bound)
            && (!ending.Cancelled? ==>
                  k <= ending.at < |polls| && forall j :: k <= j < ending.at ==> polls[j].now < bound)
    decreases |polls| - k
  {
    hide Turn;
    if k < |polls| && polls[k].reading.GotStatus? {
      var status := polls[k].reading.status;
      TurnDeadline(plan, loop, status, polls[k].now);
      TurnWithDelay(plan, loop, status, polls[k].now);
      var (next, verdict) := Turn(plan, loop, status, polls[k].now);
      if verdict.KeepPolling? {
        WatchWithDelay(plan, next, polls, k + 1, bound);
      }
    }
  }

  /** With a planned delay the only normal completion is a Stop, no poll at or after the
      planned time is followed by another one, and the loop ends within the number of half
      seconds in the delay (one poll at least). */
  lemma {:induction false} PlannedStop(plan: Plan, polls: seq<Poll>, n: nat)
    requires plan.delay.Some? && Timely(plan, polls)
    requires n >= 1 && POLL_SECONDS * n as real >= plan.delay.value
    ensures var ending := Watch(plan, Begin(plan), polls, 0);
            && !ending.GaveUp?
            && (ending.Cancelled? ==> |polls| < n)
            && (!ending.Cancelled? ==>
                  && ending.at < n && ending.at < |polls|
                  && forall j :: 0 <= j < ending.at ==> polls[j].now < plan.began + plan.delay.value)
  {
    var bound := plan.began + plan.delay.value;
    WatchWithDelay(plan, Begin(plan), polls, 0, bound);
    var ending := Watch(plan, Begin(plan), polls, 0);
    if |polls| >= n {
      PollTimes(plan, polls, n - 1);
      assert polls[n - 1].now >= bound;
    }
  }

  lemma {:induction false} BlindStopFrom(plan: Plan, loop: Loop, polls: seq<Poll>, k: nat)
    requires k <= |polls| && plan.delay.Some? && loop.deadline == Some(plan.began + plan.delay.value)
    requires forall j :: k <= j < |polls| ==> polls[j].reading.GotStatus? && polls[j].reading.status.position.None?
    ensures match Watch(plan, loop, polls, k)
            case Stopped(at) =>
              && k <= at < |polls| && polls[at].now >= plan.began + plan.delay.value
              && forall j :: k <= j < at ==> polls[j].now < plan.began + plan.delay.value
            case Cancelled => forall j :: k <= j < |polls| ==> polls[j].now < plan.began + plan.delay.value
            case _ => false
    decreases |polls| - k
  {
    if k < |polls| {
      var status := polls[k].reading.status;
      var (next, verdict) := Turn(plan, loop, status, polls[k].now);
      if verdict.KeepPolling? {
        BlindStopFrom(plan, next, polls, k + 1);
      }
    }
  }

  /** Without live positions the Stop goes out exactly at the first poll at or after the
      planned time. */
  lemma {:induction false} BlindStopIsOnTime(plan: Plan, polls: seq<Poll>)
    requires plan.delay.Some?
    requires forall j :: 0 <= j < |polls| ==> polls[j].reading.GotStatus? && polls[j].reading.status.position.None?
    ensures match Watch(plan, Begin(plan), polls, 0)
            case Stopped(at) =>
              && at < |polls| && polls[at].now >= plan.began + plan.delay.value
              && forall j :: 0 <= j < at ==> polls[j].now < plan.began + plan.delay.value
            case Cancelled => forall j :: 0 <= j < |polls| ==> polls[j].now < plan.began + plan.delay.value
            case _ => false
  {
    hide Watch;
    BlindStopFrom(plan, Begin(plan), polls, 0);
  }

  /** Why a Stop is ever sent. */
  predicate Justified(plan: Plan, loop: Loop, status: Status, now: real)
  {
    || (status.position.Some? && EncoderSays(plan, status) == Ok(true))
    || (status.position.Some? && PositionReached(plan.action, status.position.value, plan.stopAt)
        && (plan.delay.Some? ==> MovingAsCommanded(plan, status)))
    || (plan.delay.Some? && Turn(plan, loop, status, now).0.deadline.Some?
        && now >= Turn(plan, loop, status, now).0.deadline.value)
  }

  lemma TurnJustified(plan: Plan, loop: Loop, status: Status, now: real)
    requires loop.deadline.Some? <==> plan.delay.Some?
    requires Turn(plan, loop, status, now).1.SendStop?
    ensures Justified(plan, loop, status, now)
  {
    hide CanAdjust, Remaining;
  }

  // ----- the watcher without a planned delay -----

  /** The status reports the commanded movement. */
  predicate Heads(plan: Plan, status: Status)
  {
    status.state == if plan.action.Open? then Opening else Closing
  }

  /** The reported position is at the stop point or past it. */
  predicate Past(plan: Plan, position: real)
  {
    if plan.action.Open? then position >= plan.stopAt else position <= plan.stopAt
  }

  /** The encoder is to be asked: the plan has a raw stop point, and the status a raw position. */
  predicate AsksEncoder(plan: Plan, status: Status) { plan.stopRaw.Some? && status.currentRaw.Some? }

  predicate EndpointsKnown(status: Status) { status.closedRaw.Some? && status.openRaw.Some? }

  /** The raw position is at the raw stop point or past it, whichever way the encoder counts. */
  predicate RawPast(plan: Plan, status: Status)
  {
    && AsksEncoder(plan, status) && EndpointsKnown(status)
    && var current, stop := status.currentRaw.value, plan.stopRaw.value;
       if plan.action.Open? == (status.openRaw.value > status.closedRaw.value) then current >= stop else current <= stop
  }

  lemma EncoderTells(plan: Plan, status: Status)
    ensures EncoderSays(plan, status).Ok? <==> AsksEncoder(plan, status) ==> EndpointsKnown(status)
    ensures EncoderSays(plan, status).Ok? ==> (EncoderSays(plan, status).value <==> RawPast(plan, status))
    ensures forall position :: PositionReached(plan.action, position, plan.stopAt) <==> Past(plan, position)
    ensures MovingAsCommanded(plan, status) <==> Heads(plan, status)
  {
  }

  /** The commanded movement was read before poll `k`. */
  ghost predicate MovedBefore(plan: Plan, polls: seq<Poll>, k: nat)
    requires k <= |polls|
  {
    exists j :: 0 <= j < k && polls[j].reading.GotStatus? && Heads(plan, polls[j].reading.status)
  }

  /** What poll `k` ends an unplanned watch with, told from the readings alone; None to go on.
      Resting partially open is no reason to end. */
  ghost function UnplannedEnd(plan: Plan, polls: seq<Poll>, k: nat): Option<Ending>
    requires k < |polls|
  {
    match polls[k].reading
    case AuthFailed => Some(Failed(k))
    case ReadFailed => Some(Failed(k))
    case GotStatus(status) =>
      var moving := Heads(plan, status);
      if status.position.Some? && AsksEncoder(plan, status) && !EndpointsKnown(status) then Some(EndpointsMissing(k))
      else if status.position.Some?
              && (RawPast(plan, status) || Past(plan, status.position.value)) then Some(Ending.Stopped(k))
      else if !moving
              && (status.state in {AtOpen, AtClosed}
                  || (if MovedBefore(plan, polls, k) then status.state == Motion.Stopped
                      else polls[k].now > plan.began + 8.0)) then Some(GaveUp(k))
      else None
  }

  lemma {:induction false} UnplannedTurn(plan: Plan, loop: Loop, polls: seq<Poll>, k: nat)
    requires k < |polls| && plan.delay.None? && loop.deadline.None? && polls[k].reading.GotStatus?
    requires loop.startedMoving <==> MovedBefore(plan, polls, k)
    ensures var (next, verdict) := Turn(plan, loop, polls[k].reading.status, polls[k].now);
            && next.deadline.None? && (next.startedMoving <==> MovedBefore(plan, polls, k + 1))
            && UnplannedEnd(plan, polls, k)
               == match verdict
                  case SendStop => Some(Ending.Stopped(k))
                  case GiveUp => Some(GaveUp(k))
                  case NoEndpoints => Some(EndpointsMissing(k))
                  case KeepPolling => None
  {
    EncoderTells(plan, polls[k].reading.status);
    hide MovedBefore, EncoderSays, PositionReached, MovingAsCommanded, Heads, Past, RawPast;
    MovedGrows(plan, polls, k);
  }

  lemma {:induction false} MovedGrows(plan: Plan, polls: seq<Poll>, k: nat)
    requires k < |polls| && polls[k].reading.GotStatus?
    ensures MovedBefore(plan, polls, k + 1)
            <==> MovedBefore(plan, polls, k) || Heads(plan, polls[k].reading.status)
  {
  }

  lemma {:induction false} UnplannedFrom(plan: Plan, loop: Loop, polls: seq<Poll>, k: nat)
    requires k <= |polls| && plan.delay.None? && loop.deadline.None?
    requires loop.startedMoving <==> MovedBefore(plan, polls, k)
    ensures var ending := Watch(plan, loop, polls, k);
            if ending.Cancelled? then forall j :: k <= j < |polls| ==> UnplannedEnd(plan, polls, j).None?
            else k <= ending.at < |polls| && UnplannedEnd(plan, polls, ending.at) == Some(ending)
                 && forall j :: k <= j < ending.at ==> UnplannedEnd(plan, polls, j).None?
    decreases |polls| - k
  {
    hide Turn, MovedBefore, RawPast, Past;
    if k < |polls| && polls[k].reading.GotStatus? {
      UnplannedTurn(plan, loop, polls, k);
      var (next, verdict) := Turn(plan, loop, polls[k].reading.status, polls[k].now);
      if verdict.KeepPolling? {
        UnplannedFrom(plan, next, polls, k + 1);
      }
    }
  }

  /** Without a planned delay the watcher ends exactly at the first poll with a reason to end,
      and with that reason: a read failed, the encoder endpoints are missing, a reported position
      has crossed the stop point, or the gate reports an endpoint, stopped after the commanded
      movement, or did not begin it within eight seconds. */
  lemma {:induction false} UnplannedEnding(plan: Plan, polls: seq<Poll>)
    requires plan.delay.None?
    ensures var ending := Watch(plan, Begin(plan), polls, 0);
            if ending.Cancelled? then forall j :: 0 <= j < |polls| ==> UnplannedEnd(plan, polls, j).None?
            else ending.at < |polls| && UnplannedEnd(plan, polls, ending.at) == Some(ending)
                 && forall j :: 0 <= j < ending.at ==> UnplannedEnd(plan, polls, j).None?
  {
    hide Watch, UnplannedEnd;
    UnplannedFrom(plan, Begin(plan), polls, 0);
  }

  /** A poll that gives a watch no reason to end once the gate moved: no position, or one short
      of the stop point, and a gate neither at an end nor stopped, or moving as commanded. */
  predicate GoesOn(plan: Plan, reading: Reading)
  {
    && reading.GotStatus?
    && (reading.status.position.None?
        || ((AsksEncoder(plan, reading.status) ==> EndpointsKnown(reading.status))
            && !RawPast(plan, reading.status) && !Past(plan, reading.status.position.value)))
    && (Heads(plan, reading.status) || reading.status.state !in {AtOpen, AtClosed, Motion.Stopped})
  }

  /** So a watcher whose gate began to move as commanded polls for ever exactly when all its polls
      are such.  They are when the gate then rests partially open, moves the other way or reports
      an unknown state, short of the stop point or without a position, however long it does. */
  lemma {:induction false} PartiallyOpenNeverEnds(plan: Plan, polls: seq<Poll>)
    requires plan.delay.None? && polls != []
    requires polls[0].reading.GotStatus? && Heads(plan, polls[0].reading.status)
    ensures Watch(plan, Begin(plan), polls, 0) == Cancelled
            <==> forall j :: 0 <= j < |polls| ==> GoesOn(plan, polls[j].reading)
    ensures forall status: Status ::
              status.position.None? && (status.state.PartiallyOpen? || status.state.NoState? || status.Moving()) ==>
                GoesOn(plan, GotStatus(status))
  {
    hide Watch, RawPast, Past;
    UnplannedEnding(plan, polls);
    forall j | 0 <= j < |polls|
      ensures UnplannedEnd(plan, polls, j).None? <==> GoesOn(plan, polls[j].reading)
    {
      if j > 0 {
        assert polls[0].reading.GotStatus?;
        assert MovedBefore(plan, polls, j);
      }
    }
  }

  // ----- the watcher with a planned delay -----

  /** A gate that went `gone` percent in `elapsed` seconds is not faster than three times the planned
      speed, or the planned speed and ten percent a second. */
  predicate NotTooFast(gone: real, elapsed: real, planned: real, delay: real)
  {
    elapsed <= 0.0 || delay <= 0.0 || planned <= 0.0
    || gone * delay <= elapsed * Max(3.0 * planned, planned + 10.0 * delay)
  }

  lemma SpeedMargin(gone: real, elapsed: real, planned: real, delay: real)
    requires elapsed > 0.0 && delay > 0.0
    ensures gone / elapsed <= Max(planned / delay * 3.0, planned / delay + 10.0)
            <==> gone * delay <= elapsed * Max(3.0 * planned, planned + 10.0 * delay)
  {
    var speed := planned / delay;
    var margin := Max(speed * 3.0, speed + 10.0);
    Quotient(gone, elapsed);
    Quotient(planned, delay);
    MarginScales(speed, delay, planned);
    ProductOrder(gone / elapsed, margin, elapsed);
    ProductOrder(gone, margin * elapsed, delay);
    assert (margin * elapsed) * delay == elapsed * (margin * delay);
  }

  lemma MarginScales(speed: real, delay: real, planned: real)
    requires delay > 0.0 && speed * delay == planned
    ensures Max(speed * 3.0, speed + 10.0) * delay == Max(3.0 * planned, planned + 10.0 * delay)
  {
    ProductOrder(speed * 3.0, speed + 10.0, delay);
    assert (speed * 3.0) * delay == 3.0 * planned;
    assert (speed + 10.0) * delay == planned + 10.0 * delay;
  }

  /** A live position the watcher trusts: seen while the gate moves as commanded, more than half a
      percent ahead of where it started, and not too fast. */
  predicate Plausible(plan: Plan, poll: Poll)
  {
    && poll.reading.GotStatus? && poll.reading.status.position.Some? && Heads(plan, poll.reading.status)
    && plan.start.Some? && plan.delay.Some?
    && var position, start := poll.reading.status.position.value, plan.start.value;
       && (if plan.action.Open? then position > start + 0.5 else position < start - 0.5)
       && NotTooFast(Abs(position - start), poll.now - plan.began, Abs(plan.stopAt - start), plan.delay.value)
  }

  lemma PlausibleAdjusts(plan: Plan, status: Status, position: real, now: real)
    requires plan.delay.Some? && status.position == Some(position)
    ensures Plausible(plan, Poll(now, GotStatus(status)))
            <==> Heads(plan, status)
                 && CanAdjust(plan, position, Max(now - plan.began, 0.0), plan.delay.value)
  {
    hide Abs;
    if plan.start.Some? && now - plan.began > 0.0 && plan.delay.value > 0.0 {
      SpeedMargin(Abs(position - plan.start.value), now - plan.began,
                  Abs(plan.stopAt - plan.start.value), plan.delay.value);
    }
  }

  /** The last position the prediction was made from, before poll `k`. */
  function LastTaken(plan: Plan, polls: seq<Poll>, k: nat): Option<real>
    requires k <= |polls|
    decreases k, 0
  {
    if k == 0 then plan.start
    else if Taken(plan, polls, k - 1) then polls[k - 1].reading.status.position
    else LastTaken(plan, polls, k - 1)
  }

  /** A prediction is made from a plausible position half a percent from the last one. */
  predicate Taken(plan: Plan, polls: seq<Poll>, j: nat)
    requires j < |polls|
    decreases j, 1
  {
    && Plausible(plan, polls[j]) && plan.speed.Some? && plan.speed.value > 0.0
    && (LastTaken(plan, polls, j).None?
        || Abs(polls[j].reading.status.position.value - LastTaken(plan, polls, j).value) >= 0.5)
  }

  /** The least of the planned time and the times predicted from the positions taken before poll
      `k`: what is left of the way, at the calibrated speed. */
  function DueBy(plan: Plan, polls: seq<Poll>, k: nat): real
    requires k <= |polls| && plan.delay.Some?
  {
    if k == 0 then plan.began + plan.delay.value
    else if Taken(plan, polls, k - 1) then
      var position := polls[k - 1].reading.status.position.value;
      var left := if plan.action.Open? then plan.stopAt - position else position - plan.stopAt;
      Min(DueBy(plan, polls, k - 1), polls[k - 1].now + (if left > 0.0 then left / plan.speed.value else 0.0))
    else DueBy(plan, polls, k - 1)
  }

  /** What poll `k` ends a planned watch with, told from the readings alone; None to go on. */
  function PlannedEnd(plan: Plan, polls: seq<Poll>, k: nat): Option<Ending>
    requires k < |polls| && plan.delay.Some?
  {
    match polls[k].reading
    case AuthFailed => Some(Failed(k))
    case ReadFailed => Some(Failed(k))
    case GotStatus(status) =>
      if status.position.Some? && AsksEncoder(plan, status) && !EndpointsKnown(status) then Some(EndpointsMissing(k))
      else if (status.position.Some? && RawPast(plan, status))
              || (Plausible(plan, polls[k]) && Past(plan, status.position.value))
              || polls[k].now >= DueBy(plan, polls, k + 1) then Some(Ending.Stopped(k))
      else None
  }

  /** The loop variables before poll `k`. */
  predicate Follows(plan: Plan, loop: Loop, polls: seq<Poll>, k: nat)
    requires k <= |polls| && plan.delay.Some?
  {
    loop.deadline == Some(DueBy(plan, polls, k)) && loop.adjusted == LastTaken(plan, polls, k)
  }

  lemma {:induction false} PlannedTurn(plan: Plan, loop: Loop, polls: seq<Poll>, k: nat)
    requires k < |polls| && plan.delay.Some? && polls[k].reading.GotStatus? && Follows(plan, loop, polls, k)
    ensures var (next, verdict) := Turn(plan, loop, polls[k].reading.status, polls[k].now);
            && !verdict.GiveUp?
            && (verdict.KeepPolling? ==> Follows(plan, next, polls, k + 1))
            && PlannedEnd(plan, polls, k)
               == match verdict
                  case SendStop => Some(Ending.Stopped(k))
                  case GiveUp => None
                  case NoEndpoints => Some(EndpointsMissing(k))
                  case KeepPolling => None
  {
    var status, now := polls[k].reading.status, polls[k].now;
    EncoderTells(plan, status);
    hide EncoderSays, PositionReached, CanAdjust, Plausible, LastTaken, DueBy, MovingAsCommanded, Heads, Past, RawPast;
    TakenNext(plan, polls, k);
    if status.position.Some? {
      PlausibleAdjusts(plan, status, status.position.value, now);
      assert polls[k] == Poll(now, GotStatus(status));
    } else {
      NoPositionNoTrust(plan, polls[k]);
    }
  }

  lemma NoPositionNoTrust(plan: Plan, poll: Poll)
    requires poll.reading.GotStatus? && poll.reading.status.position.None?
    ensures !Plausible(plan, poll)
  {
  }

  lemma {:induction false} TakenNext(plan: Plan, polls: seq<Poll>, k: nat)
    requires k < |polls| && plan.delay.Some?
    ensures Taken(plan, polls, k) ==> polls[k].reading.GotStatus? && polls[k].reading.status.position.Some?
    ensures LastTaken(plan, polls, k + 1)
            == if Taken(plan, polls, k) then polls[k].reading.status.position else LastTaken(plan, polls, k)
    ensures DueBy(plan, polls, k + 1)
            == if Taken(plan, polls, k)
               then Min(DueBy(plan, polls, k),
                        polls[k].now + Remaining(plan, polls[k].reading.status.position.value).value)
               else DueBy(plan, polls, k)
    ensures Taken(plan, polls, k) ==> Remaining(plan, polls[k].reading.status.position.value).Some?
    ensures Taken(plan, polls, k)
            <==> Plausible(plan, polls[k]) && plan.speed.Some? && plan.speed.value > 0.0
                 && (LastTaken(plan, polls, k).None?
                     || Abs(polls[k].reading.status.position.value - LastTaken(plan, polls, k).value) >= 0.5)
  {
    hide NotTooFast;
  }

  lemma {:induction false} PlannedFrom(plan: Plan, loop: Loop, polls: seq<Poll>, k: nat)
    requires k <= |polls| && plan.delay.Some? && Follows(plan, loop, polls, k)
    ensures var ending := Watch(plan, loop, polls, k);
            if ending.Cancelled? then forall j :: k <= j < |polls| ==> PlannedEnd(plan, polls, j).None?
            else k <= ending.at < |polls| && PlannedEnd(plan, polls, ending.at) == Some(ending)
                 && forall j :: k <= j < ending.at ==> PlannedEnd(plan, polls, j).None?
    decreases |polls| - k
  {
    hide Turn, Follows, RawPast, Past, Plausible, DueBy;
    if k < |polls| && polls[k].reading.GotStatus? {
      PlannedTurn(plan, loop, polls, k);
      var (next, verdict) := Turn(plan, loop, polls[k].reading.status, polls[k].now);
      if verdict.KeepPolling? {
        PlannedFrom(plan, next, polls, k + 1);
      }
    }
  }

  /** With a planned delay the watcher ends exactly at the first poll that fails or misses its
      endpoints, whose encoder has crossed the stop point, whose plausible live position has, or
      that is at or after the least of the planned and the predicted times. */
  lemma {:induction false} PlannedEnding(plan: Plan, polls: seq<Poll>)
    requires plan.delay.Some?
    ensures var ending := Watch(plan, Begin(plan), polls, 0);
            if ending.Cancelled? then forall j :: 0 <= j < |polls| ==> PlannedEnd(plan, polls, j).None?
            else ending.at < |polls| && PlannedEnd(plan, polls, ending.at) == Some(ending)
                 && forall j :: 0 <= j < ending.at ==> PlannedEnd(plan, polls, j).None?
  {
    hide Watch, PlannedEnd;
    PlannedFrom(plan, Begin(plan), polls, 0);
  }

  // ----- the causes of a planned stop -----

  /** A gate that moves on at the calibrated speed is at the stop point when the remaining time
      is over, or stays past it if it was. */
  lemma RemainingReaches(plan: Plan, position: real)
    requires Remaining(plan, position).Some?
    ensures var rest := Remaining(plan, position).value;
            && rest >= 0.0
            && if plan.action.Open? then position + plan.speed.value * rest == Max(position, plan.stopAt)
               else position - plan.speed.value * rest == Min(position, plan.stopAt)
  {
    var left := if plan.action.Open? then plan.stopAt - position else position - plan.stopAt;
    var rest := Max(0.0, left) / plan.speed.value;
    Quotient(Max(0.0, left), plan.speed.value);
    ProductOrder(0.0, rest, plan.speed.value);
  }

  /** By `now` a gate seen at poll `j` has reached the stop point at the calibrated speed: it was
      moving as commanded, more than the tolerance ahead of where it started. */
  predicate Predicted(plan: Plan, polls: seq<Poll>, j: nat, now: real)
    requires j < |polls|
  {
    && polls[j].reading.GotStatus?
    && MovingAsCommanded(plan, polls[j].reading.status)
    && polls[j].reading.status.position.Some?
    && plan.start.Some?
    && (if plan.action.Open? then polls[j].reading.status.position.value > plan.start.value + LIVE_TOLERANCE
        else polls[j].reading.status.position.value < plan.start.value - LIVE_TOLERANCE)
    && Remaining(plan, polls[j].reading.status.position.value).Some?
    && now >= polls[j].now + Remaining(plan, polls[j].reading.status.position.value).value
  }

  /** Where the current deadline comes from: the plan, or a live position seen before poll `k`. */
  ghost predicate DeadlineHasCause(plan: Plan, loop: Loop, polls: seq<Poll>, k: nat)
    requires k <= |polls|
  {
    plan.delay.Some? && loop.deadline.Some?
    && (loop.deadline.value == plan.began + plan.delay.value
        || exists j :: 0 <= j < k && Predicted(plan, polls, j, loop.deadline.value))
  }

  lemma {:induction false} TurnKeepsCause(plan: Plan, loop: Loop, polls: seq<Poll>, k: nat)
    requires k < |polls| && polls[k].reading.GotStatus? && DeadlineHasCause(plan, loop, polls, k)
    ensures DeadlineHasCause(plan, Turn(plan, loop, polls[k].reading.status, polls[k].now).0, polls, k + 1)
  {
    hide Remaining;
    var status := polls[k].reading.status;
    var next := Turn(plan, loop, status, polls[k].now).0;
    if next.deadline == loop.deadline {
      if loop.deadline.value != plan.began + plan.delay.value {
        var j :| 0 <= j < k && Predicted(plan, polls, j, loop.deadline.value);
        assert Predicted(plan, polls, j, next.deadline.value);
      }
    } else {
      assert Predicted(plan, polls, k, next.deadline.value);
    }
  }

  lemma {:induction false} StopHasCauseFrom(plan: Plan, loop: Loop, polls: seq<Poll>, k: nat)
    requires k <= |polls| && DeadlineHasCause(plan, loop, polls, k)
    ensures var ending := Watch(plan, loop, polls, k);
            ending.Stopped? ==>
              && k <= ending.at < |polls| && polls[ending.at].reading.GotStatus?
              && var status, now := polls[ending.at].reading.status, polls[ending.at].now;
                 || (status.position.Some?
                     && (EncoderSays(plan, status) == Ok(true)
                         || PositionReached(plan.action, status.position.value, plan.stopAt)))
                 || now >= plan.began + plan.delay.value
                 || exists j :: 0 <= j <= ending.at && Predicted(plan, polls, j, now)
    decreases |polls| - k
  {
    hide Turn, Remaining;
    if k < |polls| && polls[k].reading.GotStatus? {
      var status, now := polls[k].reading.status, polls[k].now;
      var (next, verdict) := Turn(plan, loop, status, now);
      TurnKeepsCause(plan, loop, polls, k);
      if verdict.KeepPolling? {
        StopHasCauseFrom(plan, next, polls, k + 1);
      } else if verdict.SendStop? {
        TurnJustified(plan, loop, status, now);
        if now >= next.deadline.value && next.deadline.value != plan.began + plan.delay.value {
          var j :| 0 <= j < k + 1 && Predicted(plan, polls, j, next.deadline.value);
          assert Predicted(plan, polls, j, now);
        }
      }
    }
  }

  /** No Stop comes without a cause: at the poll that sends it a reported position has crossed
      the stop point, or the planned time is over, or a gate seen earlier at a live position has
      had the time to reach the stop point at the calibrated speed. */
  lemma {:induction false} PlannedStopHasCause(plan: Plan, polls: seq<Poll>)
    requires plan.delay.Some?
    ensures var ending := Watch(plan, Begin(plan), polls, 0);
            ending.Stopped? ==>
              && ending.at < |polls| && polls[ending.at].reading.GotStatus?
              && var status, now := polls[ending.at].reading.status, polls[ending.at].now;
                 || (status.position.Some?
                     && (EncoderSays(plan, status) == Ok(true)
                         || PositionReached(plan.action, status.position.value, plan.stopAt)))
                 || now >= plan.began + plan.delay.value
                 || exists j :: 0 <= j <= ending.at && Predicted(plan, polls, j, now)
  {
    hide Watch, EncoderSays, Predicted;
    StopHasCauseFrom(plan, Begin(plan), polls, 0);
  }
}
