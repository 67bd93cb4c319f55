/** The persistent NHK client (custom_components/nice_bidiwifi/client.py): session set-up,
    request identifiers, the reconnecting read runner and the run-once command runner.
    The environment decides every connection attempt, handshake and reply; what the client
    does with the wire is recorded as a trace. */
module Client {
  import opened Prelude

  datatype Outcome = Success | AuthError | ConnError | OtherError

  datatype Kind = Connect | Query | Command

  /** What happens on the wire.  An epoch is the life of one transport and its dispatcher. */
  datatype Wire =
    | Opened(epoch: nat)
    | Closed(epoch: nat)
    | Sent(epoch: nat, id: nat, kind: Kind)

  datatype OpenResult = OpenOk | OpenOsError | OpenOther

  /** How the peer answers CONNECT: a session, a refusal, no usable answer, a session id that
      is not a number, or a challenge that is not hexadecimal. */
  datatype Handshake = Granted(id: int) | Refused | Dropped | BadId | BadChallenge(id: int)

  /** The environment of one `_ensure_connected_locked`. */
  datatype Link = Link(stillUp: bool, open0: OpenResult, open1: OpenResult, open2: OpenResult, shake: Handshake)
  {
    function Attempt(i: nat): OpenResult { if i == 0 then open0 else if i == 1 then open1 else open2 }
  }

  /** The environment of one read operation: for each of its exchanges whether the frame
      reached the transport (a dispatcher whose reader died refuses it), and how it ends. */
  datatype ReadEnv = ReadEnv(handed: seq<bool>, result: ReadResult)
  datatype ReadResult = ReadOk | ReadConn | ReadOther

  /** The environment of one command: the payload cannot be built, the reader is dead, or the
      frame is handed over and then accepted, rejected or lost. */
  datatype CommandEnv = Unbuildable | ReaderDead | Handed(accepted: bool)

  datatype ClientOp =
    | ReadOp(link0: Link, read0: ReadEnv, link1: Link, read1: ReadEnv)
    | CommandOp(link: Link, command: CommandEnv)
    | CloseOp

  datatype Session = Session(
    transport: Option<nat>, hasKey: bool, sessionId: int, sequence: nat,
    reconnects: nat, nextEpoch: nat, wire: seq<Wire>)

  const FRESH: Session := Session(None, false, 0, 1, 0, 0, [])

  // ----- the client's steps as functions of the session -----

  /** `(sequence << 8) | (session_id & 0xFF)`; `%` is Euclidean, like `&` on a negative int. */
  function RequestId(sequence: nat, sessionId: int): nat
  {
    sequence * 256 + sessionId % 256
  }

  function AfterClose(s: Session): Session
  {
    s.(transport := None, hasKey := false, sessionId := 0, sequence := 1,
       wire := if s.transport.Some? then s.wire + [Closed(s.transport.value)] else s.wire)
  }

  function AfterAttach(s: Session): Session
  {
    s.(transport := Some(s.nextEpoch), nextEpoch := s.nextEpoch + 1,
       wire := s.wire + [Opened(s.nextEpoch)])
  }

  /** The three attempts of `_open_locked`, from attempt `i` on. */
  function AfterOpen(s: Session, link: Link, i: nat): (Session, Outcome)
    requires i <= 3
    decreases 3 - i
  {
    if i == 3 then (s, ConnError)
    else match link.Attempt(i)
         case OpenOk => (AfterAttach(s), Success)
         case OpenOther => (s, OtherError)
         case OpenOsError => AfterOpen(s, link, i + 1)
  }

  function AfterConnect(s: Session, shake: Handshake): (Session, Outcome)
    requires s.transport.Some?
  {
    var sent := s.(wire := s.wire + [Sent(s.transport.value, 0, Connect)]);
    match shake
    case Granted(id) => (sent.(sessionId := id, sequence := 1, hasKey := true), Success)
    case Refused => (sent, AuthError)
    case Dropped => (sent, ConnError)
    case BadId => (sent, OtherError)
    case BadChallenge(id) => (sent.(sessionId := id, sequence := 1), OtherError)
  }

  function AfterEnsure(s: Session, link: Link): (Session, Outcome)
  {
    if s.transport.Some? && link.stillUp && s.hasKey then (s, Success)
    else
      var (open, outcome) := AfterOpen(AfterClose(s), link, 0);
      if outcome.Success? then AfterConnect(open, link.shake) else (open, outcome)
  }

  /** One signed exchange: the identifier is used up whether or not the frame is handed over. */
  function AfterExchange(s: Session, kind: Kind, handed: bool): Session
    requires s.transport.Some?
  {
    s.(sequence := s.sequence + 1,
       wire := if handed
               then s.wire + [Sent(s.transport.value, RequestId(s.sequence, s.sessionId), kind)]
               else s.wire)
  }

  function AfterQueries(s: Session, handed: seq<bool>): (r: Session)
    requires s.transport.Some?
    ensures r.transport == s.transport
    decreases |handed|
  {
    if handed == [] then s
    else AfterQueries(AfterExchange(s, Query, handed[0]), handed[1..])
  }

  function AfterAttempt(s: Session, link: Link, read: ReadEnv): (r: (Session, Outcome))
    ensures r.1.Success? ==> r.0.transport.Some? && r.0.hasKey
  {
    var (ready, outcome) := AfterEnsure(s, link);
    if !outcome.Success? then (ready, outcome)
    else
      EnsureSuccessHasSession(s, link);
      QueriesKeepSession(ready, read.handed);
      (AfterQueries(ready, read.handed),
       match read.result case ReadOk => Success case ReadConn => ConnError case ReadOther => OtherError)
  }

  /** Between the two attempts: close, and count one reconnect. */
  function AfterGiveUp(s: Session): Session
  {
    AfterClose(s).(reconnects := s.reconnects + 1)
  }

  /** `_run_with_reconnect`. */
  function AfterRead(s: Session, link0: Link, read0: ReadEnv, link1: Link, read1: ReadEnv): (Session, Outcome)
  {
    var (s1, o1) := AfterAttempt(s, link0, read0);
    if !o1.ConnError? then (s1, o1)
    else
      var (s2, o2) := AfterAttempt(AfterGiveUp(s1), link1, read1);
      if o2.ConnError? then (AfterClose(s2), ConnError) else (s2, o2)
  }

  /** `_run_command_once`. */
  function AfterCommand(s: Session, link: Link, command: CommandEnv): (Session, Outcome)
  {
    var (ready, outcome) := AfterEnsure(s, link);
    if outcome.AuthError? || outcome.ConnError? then (AfterClose(ready), outcome)
    else if outcome.OtherError? then (ready, outcome)
    else
      EnsureSuccessHasSession(s, link);
      match command
      case Unbuildable => (ready, OtherError)
      case ReaderDead => (AfterClose(AfterExchange(ready, Command, false)), ConnError)
      case Handed(accepted) =>
        var sent := AfterExchange(ready, Command, true);
        if accepted then (sent, Success) else (AfterClose(sent), ConnError)
  }

  function AfterOp(s: Session, op: ClientOp): (Session, Outcome)
  {
    match op
    case ReadOp(l0, r0, l1, r1) => AfterRead(s, l0, r0, l1, r1)
    case CommandOp(l, c) => AfterCommand(s, l, c)
    case CloseOp => (AfterClose(s), Success)
  }

  lemma {:induction false} OpenSuccessAttaches(s: Session, link: Link, i: nat)
    requires i <= 3
    ensures AfterOpen(s, link, i).1.Success? ==> AfterOpen(s, link, i).0 == AfterAttach(s)
    ensures !AfterOpen(s, link, i).1.Success? ==> AfterOpen(s, link, i).0 == s
    ensures !AfterOpen(s, link, i).1.AuthError?
    decreases 3 - i
  {
    if i < 3 {
      OpenSuccessAttaches(s, link, i + 1);
    }
  }

  lemma EnsureSuccessHasSession(s: Session, link: Link)
    ensures var (ready, outcome) := AfterEnsure(s, link);
            outcome.Success? ==> ready.transport.Some? && ready.hasKey
  {
    OpenSuccessAttaches(AfterClose(s), link, 0);
  }

  lemma {:induction false} QueriesKeepSession(s: Session, handed: seq<bool>)
    requires s.transport.Some?
    ensures AfterQueries(s, handed).hasKey == s.hasKey
    decreases |handed|
  {
    if handed != [] {
      QueriesKeepSession(AfterExchange(s, Query, handed[0]), handed[1..]);
    }
  }

  // ----- the client as the mutable object it is -----

  class NiceBidiClient {
    var transport: Option<nat>
    var hasKey: bool
    var sessionId: int
    var sequence: nat
    var reconnectCount: nat
    var nextEpoch: nat  // names the next transport the factory hands out
    ghost var wire: seq<Wire>

    ghost function View(): Session
      reads this
    {
      Session(transport, hasKey, sessionId, sequence, reconnectCount, nextEpoch, wire)
    }

    constructor ()
      ensures View() == FRESH
    {
      transport, hasKey, sessionId, sequence := None, false, 0, 1;
      reconnectCount, nextEpoch, wire := 0, 0, [];
    }

    method CloseLocked()
      modifies this
      ensures View() == AfterClose(old(View()))
    {
      if transport.Some? {
        wire := wire + [Closed(transport.value)];
      }
      transport := None;
      hasKey := false;
      sessionId := 0;
      sequence := 1;
    }

    method OpenLocked(link: Link) returns (outcome: Outcome)
      modifies this
      ensures (View(), outcome) == AfterOpen(old(View()), link, 0)
    {
      for attempt := 0 to 3
        invariant View() == old(View())
        invariant AfterOpen(old(View()), link, 0) == AfterOpen(View(), link, attempt)
      {
        match link.Attempt(attempt)
        case OpenOk =>
          wire := wire + [Opened(nextEpoch)];
          transport, nextEpoch := Some(nextEpoch), nextEpoch + 1;
          return Success;
        case OpenOther =>
          return OtherError;
        case OpenOsError =>
      }
      return ConnError;
    }

    method ConnectLocked(shake: Handshake) returns (outcome: Outcome)
      requires transport.Some?
      modifies this
      ensures (View(), outcome) == AfterConnect(old(View()), shake)
    {
      wire := wire + [Sent(transport.value, 0, Connect)];
      match shake
      case Granted(id) =>
        sessionId, sequence, hasKey := id, 1, true;
        outcome := Success;
      case Refused => outcome := AuthError;
      case Dropped => outcome := ConnError;
      case BadId => outcome := OtherError;
      case BadChallenge(id) =>
        sessionId, sequence := id, 1;
        outcome := OtherError;
    }

    method EnsureConnectedLocked(link: Link) returns (outcome: Outcome)
      modifies this
      ensures (View(), outcome) == AfterEnsure(old(View()), link)
      ensures outcome.Success? ==> transport.Some? && hasKey
    {
      ghost var before := View();
      if transport.Some? && link.stillUp && hasKey {
        return Success;
      }
      CloseLocked();
      OpenSuccessAttaches(View(), link, 0);
      outcome := OpenLocked(link);
      if outcome.Success? {
        outcome := ConnectLocked(link.shake);
      }
      EnsureSuccessHasSession(before, link);
    }

    method NextRequestId() returns (id: nat)
      modifies this`sequence
      ensures id == RequestId(old(sequence), sessionId) && sequence == old(sequence) + 1
    {
      id := RequestId(sequence, sessionId);
      sequence := sequence + 1;
    }

    method ExchangeLocked(kind: Kind, handed: bool)
      requires transport.Some?
      modifies this
      ensures View() == AfterExchange(old(View()), kind, handed)
    {
      var id := NextRequestId();
      if handed {
        wire := wire + [Sent(transport.value, id, kind)];
      }
    }

    method QueriesLocked(handed: seq<bool>)
      requires transport.Some?
      modifies this
      ensures View() == AfterQueries(old(View()), handed)
    {
      var i := 0;
      while i < |handed|
        invariant 0 <= i <= |handed| && transport.Some?
        invariant AfterQueries(View(), handed[i..]) == AfterQueries(old(View()), handed)
      {
        ExchangeLocked(Query, handed[i]);
        assert handed[i..][0] == handed[i] && handed[i..][1..] == handed[i + 1..];
        i := i + 1;
      }
    }

    /** The loop of `_run_with_reconnect` (two attempts). */
    method RunWithReconnect(link0: Link, read0: ReadEnv, link1: Link, read1: ReadEnv)
      returns (outcome: Outcome)
      modifies this
      ensures (View(), outcome) == AfterRead(old(View()), link0, read0, link1, read1)
    {
      ghost var again := AfterGiveUp(AfterAttempt(View(), link0, read0).0);
      for attempt := 0 to 2
        invariant attempt == 0 ==> View() == old(View())
        invariant attempt == 1 ==> AfterAttempt(old(View()), link0, read0).1.ConnError? && View() == again
        invariant attempt == 2 ==>
                    && AfterAttempt(old(View()), link0, read0).1.ConnError?
                    && AfterAttempt(again, link1, read1).1.ConnError?
                    && View() == AfterClose(AfterAttempt(again, link1, read1).0)
      {
        var link, read := if attempt == 0 then link0 else link1, if attempt == 0 then read0 else read1;
        outcome := EnsureConnectedLocked(link);
        if outcome.Success? {
          QueriesLocked(read.handed);
          outcome := match read.result
                     case ReadOk => Success
                     case ReadConn => ConnError
                     case ReadOther => OtherError;
        }
        if !outcome.ConnError? {
          return;
        }
        CloseLocked();
        if attempt == 0 {
          reconnectCount := reconnectCount + 1;
        }
      }
      return ConnError;
    }

    method RunCommandOnce(link: Link, command: CommandEnv) returns (outcome: Outcome)
      modifies this
      ensures (View(), outcome) == AfterCommand(old(View()), link, command)
    {
      outcome := EnsureConnectedLocked(link);
      if outcome.Success? {
        match command
        case Unbuildable =>
          return OtherError;
        case ReaderDead =>
          ExchangeLocked(Command, false);
          outcome := ConnError;
        case Handed(accepted) =>
          ExchangeLocked(Command, true);
          outcome := if accepted then Success else ConnError;
      }
      if outcome.AuthError? || outcome.ConnError? {
        CloseLocked();
      }
    }

    method Run(op: ClientOp) returns (outcome: Outcome)
      modifies this
      ensures (View(), outcome) == AfterOp(old(View()), op)
    {
      match op
      case ReadOp(l0, r0, l1, r1) => outcome := RunWithReconnect(l0, r0, l1, r1);
      case CommandOp(l, c) => outcome := RunCommandOnce(l, c);
      case CloseOp =>
        CloseLocked();
        outcome := Success;
    }
  }
}
