/** What the dispatcher promises over every interleaving of its atomic steps. */
module DispatcherRuns {
  import opened Prelude
  import opened Dispatcher
  import C = Client
  import CR = ClientRuns

  datatype Action =
    | Register(expectedType: Option<string>, expectedId: Option<int>, listen: real)
    | Route(frame: Frame, now: real)
    | Fail
    | Close
    | Wake(ident: nat, now: real, deadline: real)
    | Leave(ident: nat)

  /** One atomic step.  A failed reader routes nothing more, a closed or failed dispatcher
      registers nothing more, a waiter is answered at most once, and it leaves once (without an
      answer when sending its request raised). */
  function Act(s: State, a: Action): (r: State)
    requires WellFormed(s)
    ensures WellFormed(r)
  {
    match a
    case Register(t, id, listen) => if s.closed || s.failed then s else AfterRegister(s, NewExchange(t, id, listen))
    case Route(frame, now) => if s.failed then s else AfterRoute(s, frame, now)
    case Fail => s.(failed := s.failed || !s.closed)
    case Close => s.(closed := true)
    case Wake(p, now, deadline) =>
      if p in s.waiting && p !in s.answered then AfterPoll(s, p, now, deadline) else s
    case Leave(p) => if p in s.waiting then AfterLeave(s, p) else s
  }

  function Run(acts: seq<Action>): (r: State)
    ensures WellFormed(r)
  {
    if acts == [] then INITIAL else Act(Run(acts[..|acts| - 1]), acts[|acts| - 1])
  }

  // ----- reading the log -----

  /** The frames put into the window of exchange `p`, in order. */
  function RoutedTo(log: seq<Event>, p: nat): seq<Frame>
  {
    if log == [] then []
    else
      var before := RoutedTo(log[..|log| - 1], p);
      match log[|log| - 1]
      case Consumed(frame, owner) => if owner == p then before + [frame] else before
      case Published(frame, windows) => if p in windows then before + [frame] else before
      case _ => before
  }

  /** Which of those frames was the correlated response. */
  function MatchAt(log: seq<Event>, p: nat): Option<nat>
  {
    if log == [] then None
    else
      var before := MatchAt(log[..|log| - 1], p);
      match log[|log| - 1]
      case Consumed(_, owner) =>
        if owner == p && before.None? then Some(|RoutedTo(log[..|log| - 1], p)|) else before
      case _ => before
  }

  /** How often exchange `p` was correlated with a frame. */
  function TimesMatched(log: seq<Event>, p: nat): nat
  {
    if log == [] then 0
    else TimesMatched(log[..|log| - 1], p)
         + if log[|log| - 1].Consumed? && log[|log| - 1].owner == p then 1 else 0
  }

  /** Every frame the reader handed on, in order. */
  function Handled(log: seq<Event>): seq<Frame>
  {
    if log == [] then []
    else match log[|log| - 1]
         case Consumed(frame, _) => Handled(log[..|log| - 1]) + [frame]
         case Published(frame, _) => Handled(log[..|log| - 1]) + [frame]
         case _ => Handled(log[..|log| - 1])
  }

  /** Every frame the reader obtained before it failed, in order. */
  function Obtained(acts: seq<Action>): seq<Frame>
  {
    if acts == [] then []
    else
      var last := acts[|acts| - 1];
      if last.Route? && !Run(acts[..|acts| - 1]).failed then Obtained(acts[..|acts| - 1]) + [last.frame]
      else Obtained(acts[..|acts| - 1])
  }

  lemma {:induction false} Snoc(log: seq<Event>, e: Event)
    ensures (log + [e])[..|log + [e]| - 1] == log
    ensures (log + [e])[|log + [e]| - 1] == e
  {
  }

  lemma {:induction false} LogGrows(s: State, a: Action)
    requires WellFormed(s)
    ensures |s.log| <= |Act(s, a).log| <= |s.log| + 1 && Act(s, a).log[..|s.log|] == s.log
  {
    hide FirstMatch, FirstEqual, AppendTo;
  }

  function Window(routed: seq<Frame>): seq<Frame>
  {
    if |routed| <= MAX_EXCHANGE_FRAMES then routed else routed[|routed| - MAX_EXCHANGE_FRAMES..]
  }

  lemma WindowSlides(routed: seq<Frame>, ex: Exchange, frame: Frame)
    requires ex.frames == Window(routed)
    ensures AppendFrame(ex, frame).frames == Window(routed + [frame])
  {
  }

  // ----- the invariant of one exchange -----

  /** The window holds the last 64 frames routed to the exchange; it was matched once or not
      at all, by the first routed frame it wants. */
  ghost predicate Tracks(ex: Exchange, log: seq<Event>, p: nat)
  {
    var routed := RoutedTo(log, p);
    var m := MatchAt(log, p);
    && ex.frames == Window(routed)
    && (ex.matched <==> m.Some?)
    && TimesMatched(log, p) == (if ex.matched then 1 else 0)
    && (m.Some? ==> m.value < |routed| && ex.Wants(routed[m.value]))
    && (forall k :: 0 <= k < (if m.Some? then m.value else |routed|) ==> !ex.Wants(routed[k]))
    && (ex.deadline.Some? <==> ex.matched && ex.listen > 0.0)
  }

  ghost predicate AllTracked(s: State)
  {
    && (forall p :: 0 <= p < |s.objs| ==> Tracks(s.objs[p], s.log, p))
    && (forall p: nat :: p >= |s.objs| ==> Untold(s.log, p))
  }

  /** How one exchange fares when a frame is consumed by `owner`. */
  lemma {:induction false} ConsumeTracks(ex: Exchange, log: seq<Event>, p: nat, frame: Frame, owner: nat, now: real)
    requires Tracks(ex, log, p)
    requires p == owner ==> !ex.matched && ex.Wants(frame)
    ensures Tracks(if p == owner then MarkMatched(ex, frame, now) else ex, log + [Consumed(frame, owner)], p)
  {
    Snoc(log, Consumed(frame, owner));
    WindowSlides(RoutedTo(log, p), ex, frame);
  }

  /** How one exchange fares when a frame is published. */
  lemma {:induction false} PublishTracks(ex: Exchange, log: seq<Event>, p: nat, frame: Frame, windows: seq<nat>)
    requires Tracks(ex, log, p)
    requires p in windows ==> ex.matched || !ex.Wants(frame)
    ensures Tracks(if p in windows then AppendFrame(ex, frame) else ex, log + [Published(frame, windows)], p)
  {
    Snoc(log, Published(frame, windows));
    WindowSlides(RoutedTo(log, p), ex, frame);
  }

  lemma {:induction false} ExchangeTracks(s: State, frame: Frame, now: real, p: nat)
    requires WellFormed(s) && p < |s.objs| && Tracks(s.objs[p], s.log, p)
    ensures Tracks(AfterRoute(s, frame, now).objs[p], AfterRoute(s, frame, now).log, p)
  {
    hide Tracks, AppendFrame, MarkMatched, Matches, FirstMatch;
    var found := FirstMatch(s, frame, 0);
    if found.Some? {
      ConsumeTracks(s.objs[p], s.log, p, frame, s.pending[found.value], now);
    } else {
      PublishTracks(s.objs[p], s.log, p, frame, s.pending);
    }
  }

  /** The log says nothing about `p`. */
  predicate Untold(log: seq<Event>, p: nat)
  {
    RoutedTo(log, p) == [] && MatchAt(log, p).None? && TimesMatched(log, p) == 0
  }

  lemma {:induction false} UntoldSnoc(log: seq<Event>, e: Event, p: nat)
    requires Untold(log, p) && (e.Consumed? ==> e.owner != p) && (e.Published? ==> p !in e.windows)
    ensures Untold(log + [e], p)
  {
    Snoc(log, e);
  }

  lemma {:induction false} StaysUntold(s: State, frame: Frame, now: real, p: nat)
    requires WellFormed(s) && p >= |s.objs| && Untold(s.log, p)
    ensures Untold(AfterRoute(s, frame, now).log, p)
  {
    hide Untold, FirstMatch, AppendTo, MarkMatched;
    var found := FirstMatch(s, frame, 0);
    if found.Some? {
      UntoldSnoc(s.log, Consumed(frame, s.pending[found.value]), p);
    } else {
      UntoldSnoc(s.log, Published(frame, s.pending), p);
    }
  }

  lemma {:induction false} RouteTracks(s: State, frame: Frame, now: real)
    requires WellFormed(s) && AllTracked(s)
    ensures AllTracked(AfterRoute(s, frame, now))
  {
    hide Tracks, Untold, AfterRoute;
    RouteKeepsNames(s, frame, now);
    forall p | 0 <= p < |s.objs| ensures Tracks(AfterRoute(s, frame, now).objs[p], AfterRoute(s, frame, now).log, p) {
      ExchangeTracks(s, frame, now, p);
    }
    forall p: nat | p >= |s.objs| ensures Untold(AfterRoute(s, frame, now).log, p) {
      StaysUntold(s, frame, now, p);
    }
  }

  lemma {:induction false} RouteKeepsNames(s: State, frame: Frame, now: real)
    requires WellFormed(s)
    ensures |AfterRoute(s, frame, now).objs| == |s.objs|
  {
    hide FirstMatch;
  }

  /** An event that routes nothing changes none of the readings of the log. */
  lemma {:induction false} OtherReadings(log: seq<Event>, e: Event, p: nat)
    requires !e.Consumed? && !e.Published?
    ensures RoutedTo(log + [e], p) == RoutedTo(log, p)
    ensures MatchAt(log + [e], p) == MatchAt(log, p)
    ensures TimesMatched(log + [e], p) == TimesMatched(log, p)
  {
    Snoc(log, e);
  }

  /** A step that routes nothing, and registers at most one exchange. */
  lemma {:induction false} OtherTracks(s: State, t: State, e: Event)
    requires AllTracked(s) && !e.Consumed? && !e.Published? && t.log == s.log + [e]
    requires |s.objs| <= |t.objs| && t.objs[..|s.objs|] == s.objs
    requires forall p :: |s.objs| <= p < |t.objs| ==>
               t.objs[p].frames == [] && !t.objs[p].matched && t.objs[p].deadline.None?
    ensures AllTracked(t)
  {
    hide RoutedTo, MatchAt, TimesMatched, Matches;
    forall p: nat
      ensures RoutedTo(t.log, p) == RoutedTo(s.log, p) && MatchAt(t.log, p) == MatchAt(s.log, p)
              && TimesMatched(t.log, p) == TimesMatched(s.log, p)
    {
      OtherReadings(s.log, e, p);
    }
    forall p | 0 <= p < |t.objs| ensures Tracks(t.objs[p], t.log, p) {
      if p < |s.objs| {
        assert t.objs[p] == t.objs[..|s.objs|][p];
      } else {
        assert Untold(s.log, p);
      }
    }
    forall p: nat | p >= |t.objs| ensures Untold(t.log, p) {
      assert Untold(s.log, p);
    }
  }

  lemma {:induction false} ActTracks(s: State, a: Action)
    requires WellFormed(s) && AllTracked(s)
    ensures AllTracked(Act(s, a))
  {
    hide Tracks, Untold, AfterRoute, FirstEqual, Poll;
    match a
    case Register(_, _, _) =>
      if !s.closed && !s.failed {
        OtherTracks(s, Act(s, a), Registered(|s.objs|));
      }
    case Route(frame, now) => RouteTracks(s, frame, now);
    case Fail =>
    case Close =>
    case Wake(p, now, deadline) =>
      if p in s.waiting && p !in s.answered && !Poll(s, p, now, deadline).Waits? {
        OtherTracks(s, Act(s, a), Answered(p, Poll(s, p, now, deadline)));
      }
    case Leave(p) =>
      if p in s.waiting {
        OtherTracks(s, Act(s, a), Left(p));
      }
  }

  /** The invariant of every exchange, over every interleaving. */
  lemma {:induction false} RunTracks(acts: seq<Action>)
    ensures AllTracked(Run(acts))
  {
    if acts != [] {
      RunTracks(acts[..|acts| - 1]);
      ActTracks(Run(acts[..|acts| - 1]), acts[|acts| - 1]);
    }
  }

  /** No exchange is ever correlated twice, and its window is the last 64 frames routed to it. */
  lemma {:induction false} MatchedAtMostOnce(acts: seq<Action>, p: nat)
    ensures var s := Run(acts);
            && TimesMatched(s.log, p) <= 1
            && (p < |s.objs| ==> (s.objs[p].matched <==> TimesMatched(s.log, p) == 1)
                                 && s.objs[p].frames == Window(RoutedTo(s.log, p)))
  {
    hide Run, RoutedTo, MatchAt, TimesMatched;
    RunTracks(acts);
    if p < |Run(acts).objs| {
      assert Tracks(Run(acts).objs[p], Run(acts).log, p);
    } else {
      assert Untold(Run(acts).log, p);
    }
  }

  /** Conservation of one frame: it goes to the earliest registered exchange that is unmatched
      and wants it and to nobody else, or, when there is none, into every open window and to
      the subscribers. */
  lemma {:induction false} FrameGoesOneWay(s: State, frame: Frame, now: real)
    requires WellFormed(s)
    ensures var after := AfterRoute(s, frame, now);
            && |after.log| == |s.log| + 1 && after.log[..|s.log|] == s.log
            && |after.objs| == |s.objs|
            && match after.log[|s.log|]
               case Consumed(f, owner) =>
                 && f == frame && owner in s.pending
                 && !s.objs[owner].matched && s.objs[owner].Wants(frame) && after.objs[owner].matched
                 && (forall q :: q in s.pending && q < owner ==> s.objs[q].matched || !s.objs[q].Wants(frame))
                 && (forall q :: 0 <= q < |s.objs| && q != owner ==> after.objs[q] == s.objs[q])
               case Published(f, windows) =>
                 && f == frame && windows == s.pending
                 && (forall q :: q in s.pending ==> s.objs[q].matched || !s.objs[q].Wants(frame))
                 && (forall q :: 0 <= q < |s.objs| ==>
                       after.objs[q] == if q in s.pending then AppendFrame(s.objs[q], frame) else s.objs[q])
               case _ => false
  {
    var found := FirstMatch(s, frame, 0);
    if found.Some? {
      forall q | q in s.pending && q < s.pending[found.value]
        ensures s.objs[q].matched || !s.objs[q].Wants(frame)
      {
        var k :| 0 <= k < |s.pending| && s.pending[k] == q;
        assert k < found.value;
      }
    }
  }

  /** Conservation over runs: the frames consumed or published are exactly the frames the
      reader obtained, each once and in order. */
  lemma {:induction false} FramesConserved(acts: seq<Action>)
    ensures Handled(Run(acts).log) == Obtained(acts)
  {
    if acts != [] {
      FramesConserved(acts[..|acts| - 1]);
      ActHandles(Run(acts[..|acts| - 1]), acts[|acts| - 1]);
    }
  }

  lemma {:induction false} ActHandles(s: State, a: Action)
    requires WellFormed(s)
    ensures Handled(Act(s, a).log) == if a.Route? && !s.failed then Handled(s.log) + [a.frame] else Handled(s.log)
  {
    hide Handled, FirstMatch, FirstEqual, AppendTo, Poll;
    var after := Act(s, a);
    if |after.log| > |s.log| {
      HandledSnoc(s.log, after.log[|s.log|]);
    }
  }

  lemma {:induction false} HandledSnoc(log: seq<Event>, e: Event)
    ensures Handled(log + [e])
            == match e
               case Consumed(frame, _) => Handled(log) + [frame]
               case Published(frame, _) => Handled(log) + [frame]
               case _ => Handled(log)
  {
    Snoc(log, e);
  }

  // ----- the right answer -----

  /** What `_send_locked` looks for: the first frame of the window that the request wants. */
  function FirstWanted(frames: seq<Frame>, ex: Exchange): (r: Option<nat>)
    ensures r.Some? ==> r.value < |frames| && ex.Wants(frames[r.value])
                        && forall k :: 0 <= k < r.value ==> !ex.Wants(frames[k])
    ensures r.None? ==> forall k :: 0 <= k < |frames| ==> !ex.Wants(frames[k])
  {
    if frames == [] then None
    else if ex.Wants(frames[0]) then Some(0)
    else match FirstWanted(frames[1..], ex) case Some(k) => Some(k + 1) case None => None
  }

  /** Where the first wanted frame of a window stands, counted from its end. */
  lemma {:induction false} AnswerInWindow(ex: Exchange, routed: seq<Frame>, m: nat)
    requires ex.frames == Window(routed) && m < |routed| && ex.Wants(routed[m])
    requires forall k :: 0 <= k < m ==> !ex.Wants(routed[k])
    ensures var answer := FirstWanted(ex.frames, ex);
            && (|routed| - 1 - m < MAX_EXCHANGE_FRAMES <==>
                  answer.Some? && answer.value + (|routed| - |ex.frames|) == m)
            && (|routed| - 1 - m < MAX_EXCHANGE_FRAMES ==> ex.frames[answer.value] == routed[m])
  {
    hide FirstWanted, Matches, Window;
    var offset := |routed| - |ex.frames|;
    assert |ex.frames| == (if |routed| <= MAX_EXCHANGE_FRAMES then |routed| else MAX_EXCHANGE_FRAMES) by {
      WindowShifts(routed, ex.frames);
    }
    if m >= offset {
      assert ex.frames[m - offset] == routed[m] by { WindowShifts(routed, ex.frames); }
      forall k | 0 <= k < m - offset ensures !ex.Wants(ex.frames[k]) {
        WindowShifts(routed, ex.frames);
        assert !ex.Wants(routed[offset + k]);
      }
      FirstWantedIs(ex.frames, ex, m - offset);
    }
  }

  lemma {:induction false} WindowShifts(routed: seq<Frame>, frames: seq<Frame>)
    requires frames == Window(routed)
    ensures |frames| == if |routed| <= MAX_EXCHANGE_FRAMES then |routed| else MAX_EXCHANGE_FRAMES
    ensures frames == routed[|routed| - |frames|..]
  {
  }

  lemma {:induction false} FirstWantedIs(frames: seq<Frame>, ex: Exchange, m: nat)
    requires m < |frames| && ex.Wants(frames[m])
    requires forall k :: 0 <= k < m ==> !ex.Wants(frames[k])
    ensures FirstWanted(frames, ex) == Some(m)
  {
    hide FirstWanted, Matches;
  }

  /** An exchange that was never matched has no answer in its window, so its request fails.
      A matched one is answered with the very frame the reader correlated to it exactly when
      fewer than 64 frames were routed to it after that frame. */
  lemma {:induction false} RightAnswer(acts: seq<Action>, p: nat)
    requires p < |Run(acts).objs|
    ensures var s := Run(acts);
            var ex := s.objs[p];
            var routed := RoutedTo(s.log, p);
            var m := MatchAt(s.log, p);
            var answer := FirstWanted(ex.frames, ex);
            && (!ex.matched ==> answer.None?)
            && (ex.matched ==>
                  && m.Some? && m.value < |routed|
                  && (|routed| - 1 - m.value < MAX_EXCHANGE_FRAMES <==>
                        answer.Some? && answer.value + (|routed| - |ex.frames|) == m.value)
                  && (|routed| - 1 - m.value < MAX_EXCHANGE_FRAMES ==> ex.frames[answer.value] == routed[m.value]))
  {
    hide Run, RoutedTo, MatchAt, TimesMatched, FirstWanted, Matches, Window;
    RunTracks(acts);
    var s := Run(acts);
    var ex := s.objs[p];
    var routed := RoutedTo(s.log, p);
    var m := MatchAt(s.log, p);
    assert Tracks(ex, s.log, p);
    if m.Some? {
      AnswerInWindow(ex, routed, m.value);
    } else {
      WindowIsRouted(routed, ex.frames);
    }
  }

  lemma {:induction false} WindowIsRouted(routed: seq<Frame>, frames: seq<Frame>)
    requires frames == Window(routed)
    ensures forall k :: 0 <= k < |frames| ==> frames[k] in routed
  {
  }

  /** A request, its response, and `n` frames that answer nothing. */
  function Flood(reply: Frame, other: Frame, now: real, n: nat): seq<Action>
  {
    if n == 0 then [Register(Some("STATUS"), Some(7), 0.0), Route(reply, now)]
    else Flood(reply, other, now, n - 1) + [Route(other, now)]
  }

  /** One exchange that was matched by its first frame and has had `n` others since. */
  predicate Flooded(s: State, other: Frame, n: nat)
  {
    && |s.objs| == 1 && s.pending == [0] && !s.closed && !s.failed
    && s.objs[0].expectedType == Some("STATUS") && s.objs[0].expectedId == Some(7)
    && s.objs[0].matched && s.objs[0].deadline.None?
    && |RoutedTo(s.log, 0)| == n + 1 && MatchAt(s.log, 0) == Some(0)
    && forall k :: 0 < k <= n ==> RoutedTo(s.log, 0)[k] == other
  }

  lemma {:induction false} FloodStarts(reply: Frame, other: Frame, now: real)
    requires Matches(reply, Some("STATUS"), Some(7))
    ensures var ex := NewExchange(Some("STATUS"), Some(7), 0.0);
            Flooded(AfterRoute(State([ex], [0], {0}, {}, false, false, [Registered(0)]), reply, now), other, 0)
  {
    hide Matches;
    var ex := NewExchange(Some("STATUS"), Some(7), 0.0);
    var s := State([ex], [0], {0}, {}, false, false, [Registered(0)]);
    assert FirstMatch(s, reply, 0) == Some(0);
    assert [Registered(0)][..0] == [];
    assert RoutedTo([Registered(0)], 0) == [] && MatchAt([Registered(0)], 0).None?;
    Snoc([Registered(0)], Consumed(reply, 0));
  }

  lemma {:induction false} FloodGoesOn(s: State, other: Frame, now: real, n: nat)
    requires WellFormed(s) && Flooded(s, other, n) && !Matches(other, Some("STATUS"), Some(7))
    ensures Flooded(AfterRoute(s, other, now), other, n + 1)
  {
    hide Matches;
    assert FirstMatch(s, other, 0).None?;
    Snoc(s.log, Published(other, [0]));
  }

  lemma {:induction false} FloodRuns(reply: Frame, other: Frame, now: real, n: nat)
    requires Matches(reply, Some("STATUS"), Some(7)) && !Matches(other, Some("STATUS"), Some(7))
    ensures Flooded(Run(Flood(reply, other, now, n)), other, n)
  {
    hide Run, Matches, AfterRoute, RoutedTo, MatchAt, NewExchange;
    if n == 0 {
      var acts := [Register(Some("STATUS"), Some(7), 0.0)];
      OneRegistered(Some("STATUS"), Some(7), 0.0);
      RunSnoc(acts, Route(reply, now));
      assert acts + [Route(reply, now)] == Flood(reply, other, now, 0);
      FloodStarts(reply, other, now);
    } else {
      var acts := Flood(reply, other, now, n - 1);
      FloodRuns(reply, other, now, n - 1);
      RunSnoc(acts, Route(other, now));
      FloodGoesOn(Run(acts), other, now, n - 1);
    }
  }

  /** The failing case of the right answer is reachable: after 64 other frames the waiter returns
      a full window without its response. */
  lemma {:induction false} AnswerCanBeLost(reply: Frame, other: Frame, now: real, deadline: real, n: nat)
    requires Matches(reply, Some("STATUS"), Some(7)) && !Matches(other, Some("STATUS"), Some(7))
    requires n >= MAX_EXCHANGE_FRAMES
    ensures var s := Run(Flood(reply, other, now, n));
            && |s.objs| == 1 && s.objs[0].matched
            && Poll(s, 0, now, deadline) == Returns(s.objs[0].frames)
            && |s.objs[0].frames| == MAX_EXCHANGE_FRAMES
            && FirstWanted(s.objs[0].frames, s.objs[0]).None?
  {
    hide Run, RoutedTo, MatchAt, TimesMatched, FirstWanted, Matches;
    FloodRuns(reply, other, now, n);
    RunTracks(Flood(reply, other, now, n));
    var s := Run(Flood(reply, other, now, n));
    assert Tracks(s.objs[0], s.log, 0);
  }

  /** What a waiter is told.  It gets frames only from an open dispatcher whose reader is
      alive, once it is matched and its listening time is over or once its deadline passed;
      without listening time a matched waiter never waits again. */
  lemma {:induction false} WaiterIsTold(acts: seq<Action>, p: nat, now: real, deadline: real)
    requires p < |Run(acts).objs|
    ensures var s := Run(acts);
            var ex := s.objs[p];
            match Poll(s, p, now, deadline)
            case Returns(frames) =>
              && !s.failed && !s.closed && frames == Window(RoutedTo(s.log, p))
              && (MatchAt(s.log, p).Some? || now >= deadline)
            case Waits(until) =>
              && !s.failed && !s.closed && now < until
              && (MatchAt(s.log, p).Some? ==> ex.listen > 0.0)
              && (MatchAt(s.log, p).None? ==> until == deadline)
            case _ => s.failed || s.closed
  {
    hide Run, RoutedTo, MatchAt, TimesMatched, Window;
    RunTracks(acts);
    assert Tracks(Run(acts).objs[p], Run(acts).log, p);
  }

  // ----- what was asked for, and how long is listened -----

  /** What exchange `p` was registered with. */
  datatype Request = Request(expectedType: Option<string>, expectedId: Option<int>, listen: real)

  function RequestOf(acts: seq<Action>, p: nat): Option<Request>
  {
    if acts == [] then None
    else
      var front, last := acts[..|acts| - 1], acts[|acts| - 1];
      if last.Register? && !Run(front).closed && !Run(front).failed && |Run(front).objs| == p
      then Some(Request(last.expectedType, last.expectedId, last.listen))
      else RequestOf(front, p)
  }

  /** The clock reading with which the response of exchange `p` was routed. */
  function MatchedAt(acts: seq<Action>, p: nat): Option<real>
  {
    if acts == [] then None
    else
      var front, last := acts[..|acts| - 1], acts[|acts| - 1];
      if last.Route? && TimesMatched(Run(front).log, p) < TimesMatched(Run(acts).log, p) then Some(last.now)
      else MatchedAt(front, p)
  }

  /** An exchange is what was asked for, and listens from its response on. */
  predicate Timed(ex: Exchange, request: Option<Request>, at: Option<real>)
  {
    && request.Some?
    && ex.expectedType == request.value.expectedType && ex.expectedId == request.value.expectedId
    && ex.listen == (if request.value.listen > 0.0 then request.value.listen else 0.0)
    && (ex.matched <==> at.Some?)
    && ex.deadline == if at.Some? && ex.listen > 0.0 then Some(at.value + ex.listen) else None
  }

  /** What routing one frame does to the match of one exchange. */
  lemma {:induction false} RouteTimes(s: State, frame: Frame, now: real, p: nat)
    requires WellFormed(s) && p < |s.objs|
    ensures var t := AfterRoute(s, frame, now);
            var ex, next := s.objs[p], t.objs[p];
            && TimesMatched(s.log, p) <= TimesMatched(t.log, p)
            && (if TimesMatched(s.log, p) < TimesMatched(t.log, p)
                then !ex.matched && next.matched
                     && next.deadline == if ex.listen > 0.0 then Some(now + ex.listen) else ex.deadline
                else next.matched == ex.matched && next.deadline == ex.deadline)
  {
    hide FirstMatch, Matches, TimesMatched;
    var found := FirstMatch(s, frame, 0);
    if found.Some? {
      MatchedSnoc(s.log, Consumed(frame, s.pending[found.value]), p);
    } else {
      MatchedSnoc(s.log, Published(frame, s.pending), p);
    }
  }

  /** The other steps match nothing. */
  lemma {:induction false} OtherTimes(s: State, a: Action, p: nat)
    requires WellFormed(s) && !a.Route?
    ensures TimesMatched(Act(s, a).log, p) == TimesMatched(s.log, p)
    ensures forall q :: 0 <= q < |s.objs| ==> Act(s, a).objs[q] == s.objs[q]
  {
    hide TimesMatched, FirstEqual, Poll;
    LogGrows(s, a);
    if |Act(s, a).log| > |s.log| {
      MatchedSnoc(s.log, Act(s, a).log[|s.log|], p);
    }
  }

  /** What one step does to one exchange. */
  lemma {:induction false} ActTimes(s: State, a: Action, p: nat)
    requires WellFormed(s) && p < |Act(s, a).objs|
    ensures var t := Act(s, a);
            if p < |s.objs| then
              var matches := TimesMatched(s.log, p) < TimesMatched(t.log, p);
              && SameExpectation(s.objs[p], t.objs[p])
              && (matches ==> a.Route? && !s.objs[p].matched && t.objs[p].matched
                              && t.objs[p].deadline
                                 == if s.objs[p].listen > 0.0 then Some(a.now + s.objs[p].listen)
                                    else s.objs[p].deadline)
              && (!matches ==> t.objs[p].matched == s.objs[p].matched && t.objs[p].deadline == s.objs[p].deadline)
            else a.Register? && !s.closed && !s.failed && p == |s.objs|
                 && t.objs[p] == NewExchange(a.expectedType, a.expectedId, a.listen)
  {
    hide TimesMatched, AfterRoute, FirstEqual, Poll;
    ExpectationsFixedAll(s, a);
    if a.Route? {
      if !s.failed {
        RouteKeepsNames(s, a.frame, a.now);
        RouteTimes(s, a.frame, a.now, p);
      }
    } else {
      OtherTimes(s, a, p);
    }
  }

  lemma {:induction false} MatchedSnoc(log: seq<Event>, e: Event, p: nat)
    ensures TimesMatched(log + [e], p) == TimesMatched(log, p) + if e.Consumed? && e.owner == p then 1 else 0
  {
    Snoc(log, e);
  }

  lemma {:induction false} ExpectationsFixedAll(s: State, a: Action)
    requires WellFormed(s)
    ensures |s.objs| <= |Act(s, a).objs| <= |s.objs| + 1
    ensures forall p :: 0 <= p < |s.objs| ==> SameExpectation(s.objs[p], Act(s, a).objs[p])
  {
    hide SameExpectation;
    forall p | 0 <= p < |s.objs| ensures SameExpectation(s.objs[p], Act(s, a).objs[p]) {
      ExpectationsFixed(s, a, p);
    }
    if |s.objs| > 0 {
      ExpectationsFixed(s, a, 0);
    }
  }

  lemma {:induction false} RunTimes(acts: seq<Action>, p: nat)
    requires p < |Run(acts).objs|
    ensures Timed(Run(acts).objs[p], RequestOf(acts, p), MatchedAt(acts, p))
  {
    hide TimesMatched, Act;
    if acts != [] {
      var front, a := acts[..|acts| - 1], acts[|acts| - 1];
      ActTimes(Run(front), a, p);
      if p < |Run(front).objs| {
        RunTimes(front, p);
      } else {
        NotMatchedYet(front, p);
      }
    }
  }

  lemma {:induction false} NotMatchedYet(acts: seq<Action>, p: nat)
    requires p >= |Run(acts).objs|
    ensures MatchedAt(acts, p).None?
  {
    hide TimesMatched, Act;
    if acts != [] {
      var front, a := acts[..|acts| - 1], acts[|acts| - 1];
      ExpectationsFixedAll(Run(front), a);
      RunTracks(front);
      RunTracks(acts);
      assert Untold(Run(front).log, p) && Untold(Run(acts).log, p);
      NotMatchedYet(front, p);
    }
  }

  /** How a waiter waits, told by the actions.  While the reader lives and the dispatcher is open, an
      unmatched waiter is answered from its deadline on; a matched one at once if it did not ask to
      listen, and else exactly when it has listened that long since its response was routed. */
  lemma {:induction false} WaiterListens(acts: seq<Action>, p: nat, now: real, deadline: real)
    requires p < |Run(acts).objs|
    ensures RequestOf(acts, p).Some?
    ensures var s := Run(acts);
            var listen := RequestOf(acts, p).value.listen;
            var found := Poll(s, p, now, deadline);
            if s.failed then found == RaisesFailure
            else if s.closed then found == RaisesClosed
            else
              var answer := Returns(Window(RoutedTo(s.log, p)));
              match MatchedAt(acts, p)
              case None => found == if now >= deadline then answer else Waits(deadline)
              case Some(t) => found == if listen <= 0.0 || now >= t + listen then answer else Waits(t + listen)
  {
    hide Run, RoutedTo, MatchAt, TimesMatched, Window, RequestOf, MatchedAt, Matches;
    RunTracks(acts);
    RunTimes(acts, p);
    assert Tracks(Run(acts).objs[p], Run(acts).log, p);
  }

  /** What a request accepts: a response that carries its identifier, if it has one, and is of its
      type, if it asked for a named one. */
  predicate Answers(request: Request, frame: Frame)
  {
    && frame.isResponse
    && (request.expectedId.None? || frame.id == Some(Decimal(request.expectedId.value)))
    && (request.expectedType in {None, Some("")} || frame.kind == request.expectedType)
  }

  /** A consumed frame answers what its owner asked for. */
  lemma {:induction false} ConsumedAnswers(acts: seq<Action>, p: nat)
    requires p < |Run(acts).objs| && MatchAt(Run(acts).log, p).Some?
    ensures var routed := RoutedTo(Run(acts).log, p);
            var m := MatchAt(Run(acts).log, p).value;
            m < |routed| && RequestOf(acts, p).Some? && Answers(RequestOf(acts, p).value, routed[m])
  {
    hide Run, RoutedTo, MatchAt, TimesMatched, Window, RequestOf, MatchedAt, Decimal;
    RunTracks(acts);
    RunTimes(acts, p);
    assert Tracks(Run(acts).objs[p], Run(acts).log, p);
  }

  // ----- who is in the list -----

  /** The list holds exactly the exchanges whose waiters are still inside `exchange`. */
  ghost predicate Exact(s: State)
  {
    forall p :: p in s.waiting <==> p in s.pending
  }

  /** Leaving removes one entry: the first one equal, field by field, to the exchange. */
  lemma {:induction false} LeaveRemoves(s: State, p: nat) returns (gone: nat)
    requires WellFormed(s) && p in s.pending
    ensures gone in s.pending && gone <= p && s.objs[gone] == s.objs[p]
    ensures forall q :: q in s.pending && q < gone ==> s.objs[q] != s.objs[p]
    ensures forall q :: q in AfterLeave(s, p).pending <==> q in s.pending && q != gone
  {
    hide FirstEqual;
    var i := FirstEqual(s, s.objs[p], 0).value;
    gone := s.pending[i];
    RemovedIsGone(s, i);
    var at :| 0 <= at < |s.pending| && s.pending[at] == p;
    forall q | q in s.pending && q < gone ensures s.objs[q] != s.objs[p] {
      var k :| 0 <= k < |s.pending| && s.pending[k] == q;
      assert k < i;
    }
  }

  /** Leaving keeps the list exact if and only if no earlier entry of the list is equal, field
      by field, to the exchange that leaves; otherwise that entry is removed in its place. */
  lemma {:induction false} LeaveExactIff(s: State, p: nat)
    requires WellFormed(s) && Exact(s) && p in s.waiting
    ensures Exact(AfterLeave(s, p))
            <==> forall q :: q in s.pending && q < p ==> s.objs[q] != s.objs[p]
  {
    var gone := LeaveRemoves(s, p);
    LeaveWaits(s, p);
    if gone != p {
      assert p in AfterLeave(s, p).pending && p !in AfterLeave(s, p).waiting;
    }
  }

  lemma {:induction false} LeaveWaits(s: State, p: nat)
    requires WellFormed(s) && p < |s.objs|
    ensures AfterLeave(s, p).waiting == s.waiting - {p}
  {
    hide FirstEqual;
  }

  lemma {:induction false} RemovedIsGone(s: State, i: nat)
    requires WellFormed(s) && i < |s.pending|
    ensures forall q :: q in s.pending[..i] + s.pending[i + 1..] <==> q in s.pending && q != s.pending[i]
  {
    var rest := s.pending[..i] + s.pending[i + 1..];
    forall q | q in s.pending && q != s.pending[i] ensures q in rest {
      var k :| 0 <= k < |s.pending| && s.pending[k] == q;
      assert if k < i then rest[k] == q else rest[k - 1] == q;
    }
  }

  /** Two exchanges with the same expectation: the second times out, the first is removed for
      it, and the response the first still waits for is given to the one that left. */
  lemma {:induction false} EqualTwinsAreConfused(frame: Frame, now: real)
    requires Matches(frame, Some("STATUS"), Some(7))
    ensures var twin := Register(Some("STATUS"), Some(7), 0.0);
            var s := Run([twin, twin, Leave(1)]);
            && s.waiting == {0} && s.pending == [1]
            && AfterRoute(s, frame, now).log == s.log + [Consumed(frame, 1)]
            && AfterRoute(s, frame, now).objs[0] == NewExchange(Some("STATUS"), Some(7), 0.0)
  {
    var twin := Register(Some("STATUS"), Some(7), 0.0);
    var ex := NewExchange(Some("STATUS"), Some(7), 0.0);
    TwinsRegistered();
    assert [twin, twin, Leave(1)][..2] == [twin, twin];
    var both := Run([twin, twin]);
    assert FirstEqual(both, ex, 0) == Some(0);
    var s := Run([twin, twin, Leave(1)]);
    assert s == State([ex, ex], [1], {0}, {}, false, false, [Registered(0), Registered(1), Left(1)]);
    assert FirstMatch(s, frame, 0) == Some(0);
  }

  lemma {:induction false} RunSnoc(acts: seq<Action>, a: Action)
    ensures Run(acts + [a]) == Act(Run(acts), a)
  {
    assert (acts + [a])[..|acts + [a]| - 1] == acts;
  }

  lemma {:induction false} OneRegistered(t: Option<string>, id: Option<int>, listen: real)
    ensures Run([Register(t, id, listen)])
            == State([NewExchange(t, id, listen)], [0], {0}, {}, false, false, [Registered(0)])
  {
    RunSnoc([], Register(t, id, listen));
    assert [] + [Register(t, id, listen)] == [Register(t, id, listen)];
  }

  lemma {:induction false} TwinsRegistered()
    ensures var twin := Register(Some("STATUS"), Some(7), 0.0);
            var ex := NewExchange(Some("STATUS"), Some(7), 0.0);
            Run([twin, twin]) == State([ex, ex], [0, 1], {0, 1}, {}, false, false, [Registered(0), Registered(1)])
  {
    hide Run, AfterRoute, AfterPoll, AfterLeave;
    var twin := Register(Some("STATUS"), Some(7), 0.0);
    OneRegistered(Some("STATUS"), Some(7), 0.0);
    RunSnoc([twin], twin);
    assert [twin] + [twin] == [twin, twin];
  }

  /** What tells two pending exchanges apart from the start. */
  predicate SameExpectation(a: Exchange, b: Exchange)
  {
    a.expectedType == b.expectedType && a.expectedId == b.expectedId && a.listen == b.listen
  }

  /** No request is registered while an equal expectation is pending. */
  predicate Discerning(acts: seq<Action>)
  {
    acts == []
    || (&& Discerning(acts[..|acts| - 1])
        && (var s := Run(acts[..|acts| - 1]);
            match acts[|acts| - 1]
            case Register(t, id, listen) =>
              s.closed || s.failed ||
              forall i :: 0 <= i < |s.pending| ==> !SameExpectation(s.objs[s.pending[i]], NewExchange(t, id, listen))
            case _ => true))
  }

  ghost predicate Discerned(s: State)
    requires WellFormed(s)
  {
    forall i, j :: 0 <= i < j < |s.pending| ==> !SameExpectation(s.objs[s.pending[i]], s.objs[s.pending[j]])
  }

  lemma {:induction false} ExpectationsFixed(s: State, a: Action, p: nat)
    requires WellFormed(s) && p < |s.objs|
    ensures p < |Act(s, a).objs| && SameExpectation(s.objs[p], Act(s, a).objs[p])
  {
  }

  /** Then the list always holds exactly the waiters, whatever the interleaving. */
  lemma {:induction false} DiscerningRunsAreExact(acts: seq<Action>)
    requires Discerning(acts)
    ensures Exact(Run(acts)) && Discerned(Run(acts))
  {
    if acts != [] {
      DiscerningRunsAreExact(acts[..|acts| - 1]);
      var s, a := Run(acts[..|acts| - 1]), acts[|acts| - 1];
      match a
      case Register(t, id, listen) =>
      case Route(frame, now) => RouteKeepsDiscerned(s, a);
      case Fail =>
      case Close =>
      case Wake(p, now, deadline) =>
      case Leave(p) =>
        if p in s.waiting {
          LeaveKeepsDiscerned(s, p);
        }
    }
  }

  lemma {:induction false} RouteKeepsDiscerned(s: State, a: Action)
    requires WellFormed(s) && Exact(s) && Discerned(s) && a.Route?
    ensures Exact(Act(s, a)) && Discerned(Act(s, a))
  {
    var after := Act(s, a);
    forall i | 0 <= i < |s.pending| ensures SameExpectation(s.objs[s.pending[i]], after.objs[s.pending[i]]) {
      ExpectationsFixed(s, a, s.pending[i]);
    }
  }

  lemma {:induction false} LeaveKeepsDiscerned(s: State, p: nat)
    requires WellFormed(s) && Exact(s) && Discerned(s) && p in s.waiting
    ensures Exact(AfterLeave(s, p)) && Discerned(AfterLeave(s, p))
  {
    var at :| 0 <= at < |s.pending| && s.pending[at] == p;
    forall q | q in s.pending && q < p ensures s.objs[q] != s.objs[p] {
      var k :| 0 <= k < |s.pending| && s.pending[k] == q;
      assert k < at;
    }
    LeaveExactIff(s, p);
    LeaveShrinks(s, p);
  }

  /** The list that is left is the old one without one entry. */
  lemma {:induction false} LeaveShrinks(s: State, p: nat)
    requires WellFormed(s) && Discerned(s) && p < |s.objs|
    ensures Discerned(AfterLeave(s, p))
  {
    hide FirstEqual, SameExpectation;
  }

  // ----- late and foreign responses -----

  /** Reading a decimal numeral back. */
  function Value(s: string): int
  {
    if s == [] then 0 else Value(s[..|s| - 1]) * 10 + (s[|s| - 1] as int - '0' as int)
  }

  lemma {:induction false} DigitsRead(n: nat)
    ensures Value(Digits(n)) == n
    ensures Digits(n) != [] && Digits(n)[0] != '-'
  {
    if n >= 10 {
      DigitsRead(n / 10);
      assert Digits(n)[..|Digits(n)| - 1] == Digits(n / 10);
    } else {
      assert Digits(n)[..0] == [];
    }
  }

  /** Two identifiers never share their decimal text, so an id attribute names one request. */
  lemma {:induction false} DecimalInjective(a: int, b: int)
    requires Decimal(a) == Decimal(b)
    ensures a == b
  {
    DigitsRead(if a < 0 then -a else a);
    DigitsRead(if b < 0 then -b else b);
    if a < 0 && b < 0 {
      assert Decimal(a)[1..] == Digits(-a) && Decimal(b)[1..] == Digits(-b);
    }
  }

  /** Every registered request expects an identifier of its own. */
  predicate IdsDistinct(s: State)
  {
    && (forall p :: 0 <= p < |s.objs| ==> s.objs[p].expectedId.Some?)
    && (forall p, q :: 0 <= p < q < |s.objs| ==> s.objs[p].expectedId != s.objs[q].expectedId)
  }

  lemma {:induction false} IdsStayDistinct(s: State, a: Action)
    requires WellFormed(s) && IdsDistinct(Act(s, a))
    ensures IdsDistinct(s)
  {
    forall p | 0 <= p < |s.objs| ensures s.objs[p].expectedId == Act(s, a).objs[p].expectedId {
      ExpectationsFixed(s, a, p);
    }
  }

  lemma {:induction false} DistinctIdsDiscern(acts: seq<Action>)
    requires IdsDistinct(Run(acts))
    ensures Discerning(acts)
  {
    if acts != [] {
      var s, a := Run(acts[..|acts| - 1]), acts[|acts| - 1];
      IdsStayDistinct(s, a);
      DistinctIdsDiscern(acts[..|acts| - 1]);
      if a.Register? && !s.closed && !s.failed {
        assert Act(s, a).objs[|s.objs|] == NewExchange(a.expectedType, a.expectedId, a.listen);
        forall i | 0 <= i < |s.pending|
          ensures !SameExpectation(s.objs[s.pending[i]], NewExchange(a.expectedType, a.expectedId, a.listen))
        {
          assert Act(s, a).objs[s.pending[i]] == s.objs[s.pending[i]];
        }
      }
    }
  }

  /** In the log, consumed frames were wanted by their owner, and never after it left. */
  ghost predicate Honest(s: State)
  {
    && (forall j {:trigger s.log[j]} :: 0 <= j < |s.log| && s.log[j].Consumed? ==>
          s.log[j].owner < |s.objs| && s.objs[s.log[j].owner].Wants(s.log[j].frame))
    && (forall i {:trigger s.log[i]} :: 0 <= i < |s.log| && s.log[i].Left? ==>
          s.log[i].ident < |s.objs| && s.log[i].ident !in s.waiting)
    && (forall i, j {:trigger s.log[i], s.log[j]} :: 0 <= i < j < |s.log| && s.log[i].Left? && s.log[j].Consumed? ==>
          s.log[i].ident != s.log[j].owner)
  }

  /** One more event keeps the log honest. */
  lemma {:induction false} HonestSnoc(s: State, t: State, e: Event)
    requires WellFormed(s) && Honest(s) && t.log == s.log + [e] && |s.objs| <= |t.objs|
    requires forall p :: 0 <= p < |s.objs| ==> SameExpectation(s.objs[p], t.objs[p])
    requires forall p :: p in t.waiting && p < |s.objs| ==> p in s.waiting
    requires e.Consumed? ==> e.owner in s.waiting && e.owner < |s.objs| && s.objs[e.owner].Wants(e.frame)
    requires e.Left? ==> e.ident < |s.objs| && e.ident !in t.waiting
    ensures Honest(t)
  {
    hide Matches;
  }

  lemma {:induction false} ActHonest(s: State, a: Action)
    requires WellFormed(s) && Exact(s) && Honest(s)
    ensures Honest(Act(s, a))
  {
    hide FirstEqual, FirstMatch, AppendTo, Poll, Matches, Honest, SameExpectation;
    var t := Act(s, a);
    forall p | 0 <= p < |s.objs| ensures SameExpectation(s.objs[p], t.objs[p]) {
      ExpectationsFixed(s, a, p);
    }
    if |t.log| > |s.log| {
      LogGrows(s, a);
      HonestSnoc(s, t, t.log[|s.log|]);
    } else {
      HonestStays(s, t);
    }
  }

  lemma {:induction false} HonestStays(s: State, t: State)
    requires Honest(s) && t.log == s.log && t.objs == s.objs && t.waiting == s.waiting
    ensures Honest(t)
  {
  }

  lemma {:induction false} RunHonest(acts: seq<Action>)
    requires Discerning(acts)
    ensures Honest(Run(acts))
  {
    if acts != [] {
      RunHonest(acts[..|acts| - 1]);
      DiscerningRunsAreExact(acts[..|acts| - 1]);
      ActHonest(Run(acts[..|acts| - 1]), acts[|acts| - 1]);
    }
  }

  /** A response that comes after its waiter left is harmless.  When every request has an identifier of its own, a frame
      is consumed only by the request whose identifier it carries and only while that request
      is in the list; a response that comes later is published as unsolicited, however the
      exchanges that follow interleave.  `LateResponsePublishedIff` says what happens to one
      that comes between the answer and the leaving. */
  lemma {:induction false} LateResponsesHarmless(acts: seq<Action>, i: nat, j: nat)
    requires IdsDistinct(Run(acts))
    requires i < j < |Run(acts).log| && Run(acts).log[i].Left?
    requires Run(acts).log[j].Consumed? || Run(acts).log[j].Published?
    requires Run(acts).log[i].ident < |Run(acts).objs|
    requires Run(acts).log[j].frame.id
             == Some(Decimal(Run(acts).objs[Run(acts).log[i].ident].expectedId.value))
    ensures Run(acts).log[j].Published?
  {
    var s := Run(acts);
    DistinctIdsDiscern(acts);
    RunHonest(acts);
    if s.log[j].Consumed? {
      var p, o := s.log[i].ident, s.log[j].owner;
      assert s.objs[o].Wants(s.log[j].frame);
      DecimalInjective(s.objs[p].expectedId.value, s.objs[o].expectedId.value);
      assert false;
    }
  }

  /** A consumed frame carries its owner's identifier, and no other request's. */
  lemma {:induction false} ForeignResponsesHarmless(acts: seq<Action>, j: nat)
    requires IdsDistinct(Run(acts)) && j < |Run(acts).log| && Run(acts).log[j].Consumed?
    ensures var s := Run(acts);
            && s.log[j].owner < |s.objs|
            && forall q :: 0 <= q < |s.objs| ==>
                 (s.log[j].frame.id == Some(Decimal(s.objs[q].expectedId.value)) <==> q == s.log[j].owner)
  {
    var s := Run(acts);
    DistinctIdsDiscern(acts);
    RunHonest(acts);
    var o := s.log[j].owner;
    assert s.objs[o].Wants(s.log[j].frame);
    forall q | 0 <= q < |s.objs| && s.log[j].frame.id == Some(Decimal(s.objs[q].expectedId.value)) ensures q == o {
      DecimalInjective(s.objs[q].expectedId.value, s.objs[o].expectedId.value);
    }
  }

  // ----- what becomes of a response that comes too late -----

  predicate IsRouted(e: Event) { e.Consumed? || e.Published? }

  /** The log tells who was registered, who left and who was answered. */
  ghost predicate Roster(s: State)
  {
    && (forall q: nat :: Registered(q) in s.log <==> q < |s.objs|)
    && (forall q: nat :: Left(q) in s.log <==> q < |s.objs| && q !in s.waiting)
    && (forall q: nat, f: Finding :: Answered(q, f) in s.log ==> q < |s.objs| && q in s.answered)
  }

  lemma {:induction false} RunRoster(acts: seq<Action>)
    ensures Roster(Run(acts))
  {
    if acts != [] {
      RunRoster(acts[..|acts| - 1]);
      ActRoster(Run(acts[..|acts| - 1]), acts[|acts| - 1]);
    }
  }

  lemma {:induction false} ActRoster(s: State, a: Action)
    requires WellFormed(s) && Roster(s)
    ensures Roster(Act(s, a))
  {
    hide FirstMatch, FirstEqual, AppendTo, Poll;
  }

  /** A frame that exchange `p` wants goes to `p` when `p` is listed and unmatched, and to nobody
      otherwise, if no other exchange has its identifier. */
  lemma {:induction false} RoutedByIdentifier(s: State, frame: Frame, now: real, p: nat)
    requires WellFormed(s) && IdsDistinct(s) && p < |s.objs| && s.objs[p].Wants(frame)
    ensures AfterRoute(s, frame, now).log
            == s.log + [if p in s.pending && !s.objs[p].matched then Consumed(frame, p)
                        else Published(frame, s.pending)]
  {
    var found := FirstMatch(s, frame, 0);
    if found.Some? {
      var owner := s.pending[found.value];
      DecimalInjective(s.objs[p].expectedId.value, s.objs[owner].expectedId.value);
      assert owner == p;
    }
  }

  /** What becomes of a frame that exchange `p` wants: `p` consumes it exactly when it was
      registered, has not left the list and has had no response yet; otherwise it is published. */
  lemma {:induction false} ResponseFate(acts: seq<Action>, p: nat, j: nat)
    requires IdsDistinct(Run(acts)) && p < |Run(acts).objs| && j < |Run(acts).log|
    requires IsRouted(Run(acts).log[j]) && Run(acts).objs[p].Wants(Run(acts).log[j].frame)
    ensures var log := Run(acts).log;
            if Registered(p) in log[..j] && Left(p) !in log[..j] && TimesMatched(log[..j], p) == 0
            then log[j] == Consumed(log[j].frame, p) else log[j].Published?
  {
    hide TimesMatched, IdsDistinct, Matches, Act, AfterRoute;
    if acts != [] {
      var front, a := acts[..|acts| - 1], acts[|acts| - 1];
      var s, t := Run(front), Run(acts);
      LogGrows(s, a);
      IdsStayDistinct(s, a);
      if j < |s.log| {
        assert t.log[..j] == s.log[..j] && t.log[j] == s.log[j];
        if p < |s.objs| {
          ExpectationsFixed(s, a, p);
          ResponseFate(front, p, j);
        } else {
          NotYetRegistered(front, a, p, j);
        }
      } else {
        assert t.log[..j] == s.log;
        NewRouting(s, a);
        NewResponseFate(front, a.frame, a.now, p);
      }
    }
  }

  /** Only the reader routes. */
  lemma {:induction false} NewRouting(s: State, a: Action)
    requires WellFormed(s) && |Act(s, a).log| > |s.log| && IsRouted(Act(s, a).log[|s.log|])
    ensures a.Route? && Act(s, a) == AfterRoute(s, a.frame, a.now) && |Act(s, a).objs| == |s.objs|
    ensures Act(s, a).log[|s.log|].frame == a.frame
    ensures forall p :: 0 <= p < |s.objs| ==> SameExpectation(s.objs[p], Act(s, a).objs[p])
  {
    hide FirstMatch, FirstEqual, Poll;
  }

  /** The case of the frame routed last. */
  lemma {:induction false} NewResponseFate(acts: seq<Action>, frame: Frame, now: real, p: nat)
    requires IdsDistinct(Run(acts)) && p < |Run(acts).objs| && Run(acts).objs[p].Wants(frame)
    ensures var s := Run(acts);
            AfterRoute(s, frame, now).log
            == s.log + [if Registered(p) in s.log && Left(p) !in s.log && TimesMatched(s.log, p) == 0
                        then Consumed(frame, p) else Published(frame, s.pending)]
  {
    hide Run, RoutedTo, MatchAt, TimesMatched, AfterRoute, Matches, IdsDistinct;
    RunRoster(acts);
    RunTracks(acts);
    DistinctIdsDiscern(acts);
    DiscerningRunsAreExact(acts);
    assert Tracks(Run(acts).objs[p], Run(acts).log, p);
    RoutedByIdentifier(Run(acts), frame, now, p);
  }

  /** Before an exchange is registered nobody consumes a frame that only it wants. */
  lemma {:induction false} NotYetRegistered(front: seq<Action>, a: Action, p: nat, j: nat)
    requires IdsDistinct(Act(Run(front), a)) && |Run(front).objs| <= p < |Act(Run(front), a).objs|
    requires j < |Run(front).log| && IsRouted(Run(front).log[j])
    requires Act(Run(front), a).objs[p].Wants(Run(front).log[j].frame)
    ensures Run(front).log[j].Published? && Registered(p) !in Run(front).log[..j]
  {
    hide Run;
    var s := Run(front);
    RunRoster(front);
    IdsStayDistinct(s, a);
    assert forall e :: e in s.log[..j] ==> e in s.log;
    if s.log[j].Consumed? {
      ForeignResponsesHarmless(front, j);
      var owner := s.log[j].owner;
      ExpectationsFixed(s, a, owner);
      DistinctIdsDiscern(front);
      RunHonest(front);
      DecimalInjective(Act(s, a).objs[p].expectedId.value, Act(s, a).objs[owner].expectedId.value);
      assert false;
    }
  }

  /** An answer in the log: it is the only one of its waiter, and its frames are the window at
      that moment. */
  lemma {:induction false} AnswersTold(acts: seq<Action>, i: nat)
    requires i < |Run(acts).log| && Run(acts).log[i].Answered?
    ensures var s := Run(acts);
            var p := s.log[i].ident;
            && p < |s.objs| && Registered(p) in s.log[..i]
            && (forall k :: 0 <= k < i && s.log[k].Answered? ==> s.log[k].ident != p)
            && (s.log[i].finding.Returns? ==> s.log[i].finding.frames == Window(RoutedTo(s.log[..i], p)))
            && (TimesMatched(s.log[..i], p) == 0 ==>
                  forall k :: 0 <= k < |RoutedTo(s.log[..i], p)| ==>
                    !s.objs[p].Wants(RoutedTo(s.log[..i], p)[k]))
  {
    hide TimesMatched, RoutedTo, Act, Matches, Window;
    var front, a := acts[..|acts| - 1], acts[|acts| - 1];
    var s := Run(front);
    LogGrows(s, a);
    if i < |s.log| {
      assert Run(acts).log[..i] == s.log[..i] && Run(acts).log[i] == s.log[i];
      AnswersTold(front, i);
      ExpectationsFixed(s, a, s.log[i].ident);
    } else {
      assert Run(acts).log[..i] == s.log;
      NewAnswer(s, a);
      NewAnswerTold(front, a.ident);
    }
  }

  /** Only a waiter that holds the lock writes an answer. */
  lemma {:induction false} NewAnswer(s: State, a: Action)
    requires WellFormed(s) && |Act(s, a).log| > |s.log| && Act(s, a).log[|s.log|].Answered?
    ensures a.Wake? && a.ident in s.waiting && a.ident !in s.answered && Act(s, a).objs == s.objs
    ensures var e := Act(s, a).log[|s.log|];
            e.ident == a.ident && (e.finding.Returns? ==> e.finding.frames == s.objs[a.ident].frames)
  {
    hide FirstMatch, FirstEqual, AppendTo;
  }

  lemma {:induction false} NewAnswerTold(acts: seq<Action>, p: nat)
    requires p in Run(acts).waiting && p !in Run(acts).answered && p < |Run(acts).objs|
    ensures var s := Run(acts);
            && Registered(p) in s.log
            && (forall k :: 0 <= k < |s.log| && s.log[k].Answered? ==> s.log[k].ident != p)
            && s.objs[p].frames == Window(RoutedTo(s.log, p))
            && (TimesMatched(s.log, p) == 0 ==>
                  forall k :: 0 <= k < |RoutedTo(s.log, p)| ==> !s.objs[p].Wants(RoutedTo(s.log, p)[k]))
  {
    hide Run, TimesMatched, RoutedTo, MatchAt, Matches, Window;
    var s := Run(acts);
    RunRoster(acts);
    RunTracks(acts);
    assert Tracks(s.objs[p], s.log, p);
    forall k | 0 <= k < |s.log| && s.log[k].Answered? ensures s.log[k].ident != p {
      assert Answered(s.log[k].ident, s.log[k].finding) in s.log;
    }
  }

  lemma {:induction false} MatchCounted(log: seq<Event>, i: nat, j: nat, p: nat)
    requires i <= j < |log| && log[j].Consumed? && log[j].owner == p
    ensures TimesMatched(log[..i], p) < TimesMatched(log, p)
  {
    var front := log[..|log| - 1];
    if j < |front| {
      assert front[j] == log[j] && front[..i] == log[..i];
      MatchCounted(front, i, j, p);
    } else {
      MatchesGrow(front, i, p);
      assert front[..i] == log[..i];
    }
  }

  lemma {:induction false} MatchesGrow(log: seq<Event>, i: nat, p: nat)
    requires i <= |log|
    ensures TimesMatched(log[..i], p) <= TimesMatched(log, p)
  {
    if i < |log| {
      MatchesGrow(log[..|log| - 1], i, p);
      assert log[..|log| - 1][..i] == log[..i];
    } else {
      assert log[..i] == log;
    }
  }

  /** A response that comes after its waiter was answered is published exactly when the waiter
      has left the list by then, or had a response before. */
  lemma {:induction false} LateResponsePublishedIff(acts: seq<Action>, i: nat, j: nat)
    requires IdsDistinct(Run(acts)) && i < j < |Run(acts).log|
    requires Run(acts).log[i].Answered? && IsRouted(Run(acts).log[j])
    requires Run(acts).log[i].ident < |Run(acts).objs|
    requires Run(acts).objs[Run(acts).log[i].ident].Wants(Run(acts).log[j].frame)
    ensures var log := Run(acts).log;
            var p := log[i].ident;
            log[j].Published? <==> Left(p) in log[..j] || TimesMatched(log[..j], p) > 0
  {
    hide Run, TimesMatched, IdsDistinct, Matches;
    var log := Run(acts).log;
    AnswersTold(acts, i);
    assert forall e :: e in log[..i] ==> e in log[..j];
    ResponseFate(acts, log[i].ident, j);
  }

  /** The other half: a response consumed after its waiter was answered is lost.  The waiter
      returned no frame it wanted, it is answered only once, and the response is not published. */
  lemma {:induction false} LateResponseIsLost(acts: seq<Action>, i: nat, j: nat)
    requires i < j < |Run(acts).log| && Run(acts).log[i].Answered?
    requires Run(acts).log[j].Consumed? && Run(acts).log[j].owner == Run(acts).log[i].ident
    ensures var s := Run(acts);
            var p := s.log[i].ident;
            && p < |s.objs|
            && (s.log[i].finding.Returns? ==>
                  forall k :: 0 <= k < |s.log[i].finding.frames| ==> !s.objs[p].Wants(s.log[i].finding.frames[k]))
            && (forall k :: 0 <= k < |s.log| && s.log[k].Answered? && s.log[k].ident == p ==> k == i)
  {
    hide Run, TimesMatched, RoutedTo, Matches, Window;
    var s := Run(acts);
    var p := s.log[i].ident;
    AnswersTold(acts, i);
    MatchedAtMostOnce(acts, p);
    MatchCounted(s.log, i, j, p);
    if s.log[i].finding.Returns? {
      WindowIsRouted(RoutedTo(s.log[..i], p), s.log[i].finding.frames);
    }
    forall k | 0 <= k < |s.log| && s.log[k].Answered? && s.log[k].ident == p ensures k == i {
      AnswersTold(acts, k);
    }
  }

  /** Such a run: the request times out, its response is routed before its waiter gets the lock
      again, and the waiter leaves.  Nobody ever sees the response. */
  lemma {:induction false} LateResponseCanBeLost(reply: Frame, now: real)
    requires Matches(reply, Some("STATUS"), Some(7))
    ensures Run([Register(Some("STATUS"), Some(7), 0.0), Wake(0, now, now), Route(reply, now), Leave(0)]).log
            == [Registered(0), Answered(0, Returns([])), Consumed(reply, 0), Left(0)]
  {
    hide Run, Matches, Act;
    var a0, a1, a2, a3 := Register(Some("STATUS"), Some(7), 0.0), Wake(0, now, now), Route(reply, now), Leave(0);
    OneRegistered(Some("STATUS"), Some(7), 0.0);
    RunSnoc([a0], a1);
    RunSnoc([a0, a1], a2);
    RunSnoc([a0, a1, a2], a3);
    assert [a0] + [a1] == [a0, a1] && [a0, a1] + [a2] == [a0, a1, a2];
    assert [a0, a1, a2] + [a3] == [a0, a1, a2, a3];
    LateSteps(reply, now);
  }

  lemma {:induction false} LateSteps(reply: Frame, now: real)
    requires Matches(reply, Some("STATUS"), Some(7))
    ensures var ex := NewExchange(Some("STATUS"), Some(7), 0.0);
            var s := State([ex], [0], {0}, {}, false, false, [Registered(0)]);
            Act(Act(Act(s, Wake(0, now, now)), Route(reply, now)), Leave(0)).log
            == [Registered(0), Answered(0, Returns([])), Consumed(reply, 0), Left(0)]
  {
    hide Matches;
    var ex := NewExchange(Some("STATUS"), Some(7), 0.0);
    var s := State([ex], [0], {0}, {0}, false, false, [Registered(0), Answered(0, Returns([]))]);
    assert Act(State([ex], [0], {0}, {}, false, false, [Registered(0)]), Wake(0, now, now)) == s;
    assert FirstMatch(s, reply, 0) == Some(0);
    assert Act(s, Route(reply, now)).log == s.log + [Consumed(reply, 0)];
  }

  /** The fate of a frame told by what was asked for: it is consumed by `p` exactly when it answers
      the request of `p`, which was registered, has not left the list and had no response yet. */
  lemma {:induction false} FrameFate(acts: seq<Action>, p: nat, j: nat)
    requires IdsDistinct(Run(acts)) && p < |Run(acts).objs| && j < |Run(acts).log| && IsRouted(Run(acts).log[j])
    ensures var log := Run(acts).log;
            && RequestOf(acts, p).Some?
            && (log[j] == Consumed(log[j].frame, p)
                <==> Answers(RequestOf(acts, p).value, log[j].frame)
                     && Registered(p) in log[..j] && Left(p) !in log[..j] && TimesMatched(log[..j], p) == 0)
  {
    hide Run, TimesMatched, RequestOf, MatchedAt, Decimal;
    RunTimes(acts, p);
    var s := Run(acts);
    if s.objs[p].Wants(s.log[j].frame) {
      ResponseFate(acts, p, j);
    } else {
      DistinctIdsDiscern(acts);
      RunHonest(acts);
    }
  }

  // ----- the client's requests meet the dispatcher's needs -----

  /** The identifiers the client sent on one transport, in order. */
  function IdsOn(wire: seq<C.Wire>, epoch: nat): seq<nat>
  {
    if wire == [] then []
    else match wire[|wire| - 1]
         case Sent(e, id, _) =>
           if e == epoch then IdsOn(wire[..|wire| - 1], epoch) + [id] else IdsOn(wire[..|wire| - 1], epoch)
         case _ => IdsOn(wire[..|wire| - 1], epoch)
  }

  lemma {:induction false} IdsIncrease(wire: seq<C.Wire>, epoch: nat)
    requires CR.Watch(wire).Some?
    ensures var ids := IdsOn(wire, epoch);
            && (forall a, b :: 0 <= a < b < |ids| ==> ids[a] < ids[b])
            && match CR.Watch(wire).value
               case Down(next) => epoch >= next ==> ids == []
               case Up(e, last) =>
                 && (epoch > e ==> ids == [])
                 && (epoch == e ==> if last.Some? then forall a :: 0 <= a < |ids| ==> ids[a] <= last.value
                                    else ids == [])
  {
    if wire != [] {
      IdsIncrease(wire[..|wire| - 1], epoch);
    }
  }

  /** The exchanges a dispatcher served are the client's requests on one transport. */
  predicate Serves(s: State, ids: seq<nat>)
  {
    |s.objs| == |ids| && forall p :: 0 <= p < |ids| ==> s.objs[p].expectedId == Some(ids[p])
  }

  lemma {:induction false} ServedDistinctly(s: State, ids: seq<nat>)
    requires Serves(s, ids) && forall a, b :: 0 <= a < b < |ids| ==> ids[a] < ids[b]
    ensures IdsDistinct(s)
  {
    forall p, q | 0 <= p < q < |s.objs| ensures s.objs[p].expectedId != s.objs[q].expectedId {
      assert ids[p] < ids[q];
    }
  }

  /** Whatever the client does, the dispatcher that serves one of its transports sees distinct
      identifiers, so the two results above apply to it. */
  lemma {:induction false} ClientIdentifiersDistinct(ops: seq<C.ClientOp>, epoch: nat, acts: seq<Action>)
    requires Serves(Run(acts), IdsOn(CR.Run(ops).wire, epoch))
    ensures IdsDistinct(Run(acts)) && Exact(Run(acts))
  {
    hide Run, CR.Run, IdsOn, Serves, IdsDistinct, Exact;
    CR.RunKeeps(ops);
    IdsIncrease(CR.Run(ops).wire, epoch);
    ServedDistinctly(Run(acts), IdsOn(CR.Run(ops).wire, epoch));
    DistinctIdsDiscern(acts);
    DiscerningRunsAreExact(acts);
  }
}
