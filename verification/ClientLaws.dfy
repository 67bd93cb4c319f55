/** How the client's operations end and what they leave on the wire, told by the environment. */
module ClientLaws {
  import opened Prelude
  import opened Client
  import CR = ClientRuns

  /** A session that the next operation uses as it is. */
  predicate Live(s: Session, link: Link) { s.transport.Some? && s.hasKey && link.stillUp }

  /** How setting up a new session ends: with the first attempt that does not fail on an OSError, or
      with a connection error when all three do; an open transport ends as its handshake does. */
  function SetUp(link: Link): Outcome
  {
    match (link.open0, link.open1, link.open2)
    case (OpenOsError, OpenOsError, OpenOsError) => ConnError
    case (OpenOsError, OpenOsError, OpenOther) => OtherError
    case (OpenOsError, OpenOther, _) => OtherError
    case (OpenOther, _, _) => OtherError
    case _ =>
      match link.shake
      case Granted(_) => Success
      case Refused => AuthError
      case Dropped => ConnError
      case _ => OtherError
  }

  predicate Opens(link: Link)
  {
    || link.open0.OpenOk?
    || (link.open0.OpenOsError? && link.open1.OpenOk?)
    || (link.open0.OpenOsError? && link.open1.OpenOsError? && link.open2.OpenOk?)
  }

  /** What setting up a new session puts on the wire: the old transport is closed, and a new one
      carries CONNECT. */
  function SetUpWire(s: Session, link: Link): seq<Wire>
  {
    s.wire + (if s.transport.Some? then [Closed(s.transport.value)] else [])
    + if Opens(link) then [Opened(s.nextEpoch), Sent(s.nextEpoch, 0, Connect)] else []
  }

  lemma {:induction false} OpenEnds(s: Session, link: Link)
    ensures AfterOpen(s, link, 0)
            == if Opens(link) then (AfterAttach(s), Success)
               else (s, if SetUp(link).ConnError? then ConnError else OtherError)
  {
    hide AfterAttach;
    assert AfterOpen(s, link, 3) == (s, ConnError);
    assert AfterOpen(s, link, 2) == if link.open2.OpenOk? then (AfterAttach(s), Success)
                                    else (s, if link.open2.OpenOther? then OtherError else ConnError);
  }

  /** A live session is used as it is; otherwise a new one is set up, with its sequence at 1 and the
      identifier granted, which is kept even if the challenge then cannot be used. */
  lemma {:induction false} SessionReady(s: Session, link: Link)
    ensures var (ready, outcome) := AfterEnsure(s, link);
            if Live(s, link) then ready == s && outcome == Success
            else
              && outcome == SetUp(link) && ready.wire == SetUpWire(s, link)
              && (ready.transport == if Opens(link) then Some(s.nextEpoch) else None)
              && (ready.hasKey <==> outcome.Success?)
              && ready.sequence == 1
              && ready.sessionId == (if Opens(link) && (link.shake.Granted? || link.shake.BadChallenge?)
                                     then link.shake.id else 0)
              && ready.reconnects == s.reconnects
  {
    OpenEnds(Client.AfterClose(s), link);
    hide AfterOpen;
    assert SetUpWire(s, link)
           == if Opens(link) then Client.AfterClose(s).wire + [Opened(s.nextEpoch)] + [Sent(s.nextEpoch, 0, Connect)]
              else Client.AfterClose(s).wire;
  }

  /** A command over a live session is one frame on it with its next identifier, and over a new one
      the first frame after CONNECT, with the identifier granted; lost, it closes the session. */
  lemma {:induction false} CommandOnWire(s: Session, link: Link, accepted: bool)
    requires Live(s, link) || SetUp(link).Success?
    ensures var (after, outcome) := AfterCommand(s, link, Handed(accepted));
            var epoch := if Live(s, link) then s.transport.value else s.nextEpoch;
            var id := if Live(s, link) then s.sequence * 256 + s.sessionId % 256 else 256 + link.shake.id % 256;
            && outcome == (if accepted then Success else ConnError)
            && after.wire == (if Live(s, link) then s.wire else SetUpWire(s, link)) + [Sent(epoch, id, Command)]
                             + (if accepted then [] else [Closed(epoch)])
            && (if accepted then after.transport == Some(epoch) && after.hasKey
                else after.transport.None? && !after.hasKey && after.sessionId == 0 && after.sequence == 1)
  {
    hide AfterEnsure, SetUpWire;
    SessionReady(s, link);
    EnsureSuccessHasSession(s, link);
    if accepted {
      var wire := AfterCommand(s, link, Handed(true)).0.wire;
      assert wire + [] == wire;
    }
  }

  /** A command that cannot be handed over: without a session it ends as the set-up does, an
      unbuildable one leaves the session alone, and a dead reader costs the session. */
  lemma {:induction false} CommandNotHanded(s: Session, link: Link, command: CommandEnv)
    ensures var (after, outcome) := AfterCommand(s, link, command);
            if !Live(s, link) && !SetUp(link).Success? then
              && outcome == SetUp(link)
              && (outcome in {AuthError, ConnError} ==> after.transport.None? && !after.hasKey)
            else if command.Unbuildable? then outcome == OtherError && after.transport.Some? && after.hasKey
            else if command.ReaderDead? then outcome == ConnError && after.transport.None? && !after.hasKey
            else outcome in {Success, ConnError}
  {
    hide AfterEnsure;
    SessionReady(s, link);
    EnsureSuccessHasSession(s, link);
  }

  /** How one attempt of a read ends. */
  lemma {:induction false} AttemptEnds(s: Session, link: Link, read: ReadEnv)
    ensures var outcome := AfterAttempt(s, link, read).1;
            if !Live(s, link) && !SetUp(link).Success? then outcome == SetUp(link)
            else match read.result
                 case ReadOk => outcome == Success
                 case ReadConn => outcome == ConnError
                 case ReadOther => outcome == OtherError
  {
    hide AfterEnsure;
    SessionReady(s, link);
  }

  /** The frames a read sends: those handed over, in order, each with its own identifier. */
  function Queries(epoch: nat, sequence: nat, sessionId: int, handed: seq<bool>): seq<Wire>
    decreases |handed|
  {
    if handed == [] then []
    else (if handed[0] then [Sent(epoch, sequence * 256 + sessionId % 256, Query)] else [])
         + Queries(epoch, sequence + 1, sessionId, handed[1..])
  }

  lemma {:induction false} QueriesOnWire(s: Session, handed: seq<bool>)
    requires s.transport.Some?
    ensures AfterQueries(s, handed).wire
            == s.wire + Queries(s.transport.value, s.sequence, s.sessionId, handed)
    ensures AfterQueries(s, handed).sequence == s.sequence + |handed|
    ensures AfterQueries(s, handed).sessionId == s.sessionId && AfterQueries(s, handed).hasKey == s.hasKey
    decreases |handed|
  {
    if handed == [] {
      assert s.wire + [] == s.wire;
    } else {
      var next := AfterExchange(s, Query, handed[0]);
      QueriesOnWire(next, handed[1..]);
      var first := if handed[0] then [Sent(s.transport.value, s.sequence * 256 + s.sessionId % 256, Query)] else [];
      var rest := Queries(s.transport.value, s.sequence + 1, s.sessionId, handed[1..]);
      assert next.wire == s.wire + first;
      assert (s.wire + first) + rest == s.wire + (first + rest);
    }
  }

  /** A read whose first attempt succeeds over a live session sends its queries on it, and that is
      all: no CONNECT, no other transport, and the identifiers go on from where they were. */
  lemma {:induction false} ReadOnLiveSession(s: Session, l0: Link, handed: seq<bool>, l1: Link, r1: ReadEnv)
    requires Live(s, l0)
    ensures var (after, outcome) := AfterRead(s, l0, ReadEnv(handed, ReadOk), l1, r1);
            && outcome == Success
            && after.wire == s.wire + Queries(s.transport.value, s.sequence, s.sessionId, handed)
            && after.sequence == s.sequence + |handed|
            && after.transport == s.transport && after.sessionId == s.sessionId && after.hasKey
            && after.reconnects == s.reconnects
  {
    hide AfterEnsure, AfterQueries;
    SessionReady(s, l0);
    QueriesOnWire(s, handed);
    CR.QueriesKeepReconnects(s, handed);
  }

  /** A read that loses its connection closes the session and starts over on a new one, once. */
  lemma {:induction false} ReadStartsOver(s: Session, l0: Link, r0: ReadEnv, l1: Link, r1: ReadEnv)
    requires AfterAttempt(s, l0, r0).1.ConnError?
    ensures var (after, outcome) := AfterRead(s, l0, r0, l1, r1);
            && outcome == (if !SetUp(l1).Success? then SetUp(l1)
                           else match r1.result
                                case ReadOk => Success
                                case ReadConn => ConnError
                                case ReadOther => OtherError)
            && (outcome.ConnError? ==>
                  after.transport.None? && !after.hasKey && after.sessionId == 0 && after.sequence == 1)
            && (outcome.Success? ==> after.transport.Some? && after.hasKey && after.sessionId == l1.shake.id
                                     && after.sequence == 1 + |r1.handed|)
            && after.reconnects == s.reconnects + 1
  {
    hide AfterEnsure, AfterQueries;
    var again := AfterGiveUp(AfterAttempt(s, l0, r0).0);
    SessionReady(again, l1);
    AttemptEnds(again, l1, r1);
    CR.AttemptReconnects(s, l0, r0);
    var ready := AfterEnsure(again, l1).0;
    if SetUp(l1).Success? {
      QueriesOnWire(ready, r1.handed);
      CR.QueriesKeepReconnects(ready, r1.handed);
    }
  }

  /** Closing always succeeds; it closes the transport, if there is one, and forgets the session. */
  lemma {:induction false} CloseForgets(s: Session)
    ensures var (after, outcome) := AfterOp(s, CloseOp);
            && outcome == Success
            && after.wire == s.wire + (if s.transport.Some? then [Closed(s.transport.value)] else [])
            && after.transport.None? && !after.hasKey && after.sessionId == 0 && after.sequence == 1
            && after.reconnects == s.reconnects
  {
    assert s.wire + [] == s.wire;
  }
}
